/**
 The signal channel of seminar7/signal.c: a file is sent one bit per signal, the receiver asking
 for each bit with SIGUSR1 and the sender answering with SIGUSR1 (0) or SIGUSR2 (1). Both sides
 keep a one-byte buffer in which a sentinel bit marks how far the current byte has got.
 */
module SignalChannel {
  import opened Collections

  type Byte = bv8

  // ---------- the bit buffers ----------

  /** The buffer after a bit is pushed in from the right, and the byte if that completed one. */
  function Push(buffer: Byte, bit: bool): (Byte, Option<Byte>) {
    var next := (buffer << 1) | (if bit then 1 else 0);
    if buffer & 0x80 != 0 then (1, Some(next)) else (next, None)
  }

  /** The buffer after a bit is taken from the left, and that bit. */
  function Pull(buffer: Byte): (Byte, bool) {
    (buffer << 1, buffer & 0x80 != 0)
  }

  /** The buffer after the first bit of a fresh byte is taken, and that bit. */
  function PullNext(byte: Byte): (Byte, bool) {
    ((byte << 1) | 1, byte & 0x80 != 0)
  }

  /** Bit k of a byte, counted from the most significant. */
  function BitOf(byte: Byte, k: nat): bool {
    match k
    case 0 => byte & 0x80 != 0
    case 1 => byte & 0x40 != 0
    case 2 => byte & 0x20 != 0
    case 3 => byte & 0x10 != 0
    case 4 => byte & 0x08 != 0
    case 5 => byte & 0x04 != 0
    case 6 => byte & 0x02 != 0
    case _ => byte & 0x01 != 0
  }

  /** The sender's buffer when k bits of `byte` have been taken: the rest, then the sentinel. */
  function SenderBuffer(byte: Byte, k: nat): Byte {
    match k
    case 1 => (byte << 1) | 0x01
    case 2 => (byte << 2) | 0x02
    case 3 => (byte << 3) | 0x04
    case 4 => (byte << 4) | 0x08
    case 5 => (byte << 5) | 0x10
    case 6 => (byte << 6) | 0x20
    case 7 => (byte << 7) | 0x40
    case _ => 0x80
  }

  /** The receiver's buffer when k bits of `byte` have arrived: the sentinel, then those bits. */
  function ReceiverBuffer(byte: Byte, k: nat): Byte {
    match k
    case 1 => (byte >> 7) | 0x02
    case 2 => (byte >> 6) | 0x04
    case 3 => (byte >> 5) | 0x08
    case 4 => (byte >> 4) | 0x10
    case 5 => (byte >> 3) | 0x20
    case 6 => (byte >> 2) | 0x40
    case 7 => (byte >> 1) | 0x80
    case _ => 0x01
  }

  /** Pulling walks the sender's buffer along the byte, and meets the bare sentinel only at its end. */
  lemma PullWalks(byte: Byte, k: nat)
    requires 1 <= k < 8
    ensures SenderBuffer(byte, k) != 0x80
    ensures Pull(SenderBuffer(byte, k)) == (SenderBuffer(byte, k + 1), BitOf(byte, k))
    ensures SenderBuffer(byte, k + 1) == 0x80 <==> k + 1 == 8
  {
    if k == 1 {} else if k == 2 {} else if k == 3 {} else if k == 4 {} else if k == 5 {} else if k == 6 {}
  }

  lemma PullNextStarts(byte: Byte)
    ensures PullNext(byte) == (SenderBuffer(byte, 1), BitOf(byte, 0))
  {}

  /** Pushing the bits of a byte in order yields the byte with the eighth, and nothing before. */
  lemma PushWalks(byte: Byte, k: nat)
    requires k < 8
    ensures Push(ReceiverBuffer(byte, k), BitOf(byte, k)) ==
      if k == 7 then (1, Some(byte)) else (ReceiverBuffer(byte, k + 1), None)
  {
    if k == 0 {} else if k == 1 {} else if k == 2 {} else if k == 3 {} else if k == 4 {}
    else if k == 5 {} else if k == 6 {}
  }

  /** `struct bitwise_context` and the operations that shift its buffer in place. */
  class BitwiseContext {
    var buffer: Byte

    constructor Receiving()
      ensures buffer == 1
    {
      buffer := 1;
    }

    constructor Sending()
      ensures buffer == 0x80
    {
      buffer := 0x80;
    }

    method PushLsb(bit: bool) returns (response: Option<Byte>)
      modifies this
      ensures (buffer, response) == Push(old(buffer), bit)
    {
      var bufferFull := buffer & 0x80 != 0;
      buffer := buffer << 1;
      if bit {
        buffer := buffer | 1;
      }
      if bufferFull {
        response := Some(buffer);
        buffer := 1;
      } else {
        response := None;
      }
    }

    method PullBit() returns (bit: bool, needByte: bool)
      requires buffer != 0x80
      modifies this
      ensures (buffer, bit) == Pull(old(buffer))
      ensures needByte <==> buffer == 0x80
    {
      bit := buffer & 0x80 != 0;
      buffer := buffer << 1;
      needByte := buffer == 0x80;
    }

    method PullNextByte(byte: Byte) returns (bit: bool)
      requires buffer == 0x80
      modifies this
      ensures (buffer, bit) == PullNext(byte)
    {
      bit := byte & 0x80 != 0;
      buffer := (byte << 1) | 1;
    }
  }

  /** Eight bits through a sending and a receiving context give the byte back and reset both. */
  method TransferByte(snd: BitwiseContext, rcv: BitwiseContext, byte: Byte) returns (received: Option<Byte>)
    requires snd != rcv && snd.buffer == 0x80 && rcv.buffer == 1
    modifies snd, rcv
    ensures received == Some(byte) && snd.buffer == 0x80 && rcv.buffer == 1
  {
    var bit := snd.PullNextByte(byte);
    PullNextStarts(byte);
    PushWalks(byte, 0);
    received := rcv.PushLsb(bit);
    for k := 1 to 8
      invariant snd.buffer == SenderBuffer(byte, k)
      invariant rcv.buffer == if k == 8 then 1 else ReceiverBuffer(byte, k)
      invariant k == 8 ==> received == Some(byte)
    {
      PullWalks(byte, k);
      PushWalks(byte, k);
      var needByte;
      bit, needByte := snd.PullBit();
      received := rcv.PushLsb(bit);
    }
  }

  // ---------- the protocol ----------

  datatype Signal = Usr1 | Usr2 | Term

  datatype ReceiverPc =
    | RKick                 // kill(snd_pid, SIGUSR1)
    | RWait                 // sigwait()
    | RSwitch(got: Signal)
    | RWrite(byte: Byte)
    | RCleanup              // has_errors; bitwise_cleanup_rcv and kill(snd_pid, SIGTERM)
    | RDone(errors: bool)
    | RKilled               // died in the SIGCHLD handler

  datatype SenderPc =
    | SWait                 // sigwait()
    | SSwitch(got: Signal)
    | SRead                 // read() of the next byte
    | SAnswer(bit: bool)    // kill(rcv_pid, ...)
    | SKill(errors: bool)   // kill(rcv_pid, SIGTERM)
    | SCleanup(errors: bool)
    | SDone(errors: bool)
    | SAborted              // one of the sentinel asserts has failed

  /**
   `toSender` and `toReceiver` are the signals pending for each process; `sent` and `got` count the
   bits taken from the file and pushed into the receiver's buffer; `sawEnd` records that the
   sender's read() has returned 0.
   */
  datatype State = State(
    file: seq<Byte>, pos: nat, output: seq<Byte>,
    rcv: Byte, snd: Byte, needByte: bool,
    receiver: ReceiverPc, sender: SenderPc,
    toSender: set<Signal>, toReceiver: set<Signal>,
    sent: nat, got: nat, sawEnd: bool)

  datatype Step =
    | ReceiverStep(choice: Signal)  // `choice` is the pending signal sigwait() takes
    | WriteFails
    | ChildExits                    // SIGCHLD reaches the receiver
    | SenderStep(choice: Signal)
    | ReadFails

  ghost predicate Init(s: State) {
    && s.pos == 0 && s.output == [] && s.rcv == 1 && s.snd == 0x80 && s.needByte
    && s.receiver == RKick && s.sender == SWait && s.toSender == {} && s.toReceiver == {}
    && s.sent == s.got == 0 && !s.sawEnd
  }

  function Pushed(s: State, bit: bool): State {
    var (buffer, response) := Push(s.rcv, bit);
    s.(rcv := buffer, got := s.got + 1,
       receiver := match response
                   case None => RKick
                   case Some(byte) => RWrite(byte))
  }

  function ReceiverRuns(s: State, choice: Signal): Option<State> {
    match s.receiver
    case RKick => Some(s.(toSender := s.toSender + {Usr1}, receiver := RWait))
    case RWait =>
      if choice in s.toReceiver
      then Some(s.(toReceiver := s.toReceiver - {choice}, receiver := RSwitch(choice)))
      else None
    case RSwitch(Usr1) => Some(Pushed(s, false))
    case RSwitch(Usr2) => Some(Pushed(s, true))
    case RSwitch(Term) => Some(s.(receiver := RDone(false)))
    case RWrite(byte) => Some(s.(output := s.output + [byte], receiver := RKick))
    case RCleanup => Some(s.(toSender := s.toSender + {Term}, receiver := RDone(true)))
    case RDone(_) => None
    case RKilled => None
  }

  function SenderRuns(s: State, choice: Signal): Option<State> {
    match s.sender
    case SWait =>
      if choice in s.toSender && choice != Usr2
      then Some(s.(toSender := s.toSender - {choice}, sender := SSwitch(choice)))
      else None
    case SSwitch(sig) =>
      if sig != Usr1 then Some(s.(sender := SCleanup(true)))
      else if s.needByte then Some(s.(sender := SRead))
      else if s.snd == 0x80 then Some(s.(sender := SAborted))
      else
        var (buffer, bit) := Pull(s.snd);
        Some(s.(snd := buffer, needByte := buffer == 0x80, sent := s.sent + 1, sender := SAnswer(bit)))
    case SRead =>
      if |s.file| <= s.pos then Some(s.(sawEnd := true, sender := SKill(false)))
      else if s.snd != 0x80 then Some(s.(sender := SAborted))
      else
        var (buffer, bit) := PullNext(s.file[s.pos]);
        Some(s.(snd := buffer, needByte := false, pos := s.pos + 1, sent := s.sent + 1, sender := SAnswer(bit)))
    case SAnswer(bit) => Some(s.(toReceiver := s.toReceiver + {if bit then Usr2 else Usr1}, sender := SWait))
    case SKill(errors) => Some(s.(toReceiver := s.toReceiver + {Term}, sender := SCleanup(errors)))
    case SCleanup(errors) => Some(s.(sender := SDone(errors || s.snd != 0x80)))
    case SDone(_) => None
    case SAborted => None
  }

  predicate Finished(pc: ReceiverPc) {
    pc.RDone? || pc.RKilled?
  }

  function Next(s: State, step: Step): Option<State> {
    match step
    case ReceiverStep(choice) => ReceiverRuns(s, choice)
    case WriteFails => if s.receiver.RWrite? then Some(s.(receiver := RCleanup)) else None
    case ChildExits => if s.sender.SDone? && !Finished(s.receiver) then Some(s.(receiver := RKilled)) else None
    case SenderStep(choice) => SenderRuns(s, choice)
    case ReadFails => if s.sender == SRead then Some(s.(sender := SKill(true))) else None
  }

  ghost predicate Runs(steps: seq<Step>, s: State)
    decreases |steps|
  {
    if steps == [] then Init(s)
    else
      var last := |steps| - 1;
      exists before :: Runs(steps[..last], before) && Next(before, steps[last]) == Some(s)
  }

  // ---------- what every step keeps ----------

  /** Byte i of the file, or anything past its end. */
  function ByteAt(file: seq<Byte>, i: nat): Byte {
    if i < |file| then file[i] else 0
  }

  /** Bit i of the file as a whole. */
  function FileBit(file: seq<Byte>, i: nat): bool {
    BitOf(ByteAt(file, i / 8), i % 8)
  }

  function BitSignal(bit: bool): Signal {
    if bit then Usr2 else Usr1
  }

  /** The sender's buffer and offset are determined by how many bits it has sent. */
  ghost predicate SenderAt(s: State) {
    && s.sent <= 8 * |s.file|
    && (s.needByte <==> s.sent % 8 == 0)
    && s.pos == (s.sent + 7) / 8
    && s.snd == SenderBuffer(ByteAt(s.file, s.sent / 8), s.sent % 8)
  }

  /** The receiver's buffer and output are determined by how many bits it has got. */
  ghost predicate ReceiverAt(s: State) {
    && s.got <= 8 * |s.file|
    && s.rcv == ReceiverBuffer(ByteAt(s.file, s.got / 8), s.got % 8)
    && (if s.receiver.RWrite?
        then s.got % 8 == 0 && s.got > 0 && s.output == s.file[..s.got / 8 - 1] &&
          s.receiver.byte == s.file[s.got / 8 - 1]
        else if s.receiver == RCleanup || s.receiver == RDone(true)
        then s.output <= s.file
        else s.output == s.file[..s.got / 8])
  }

  function One(b: bool): nat { if b then 1 else 0 }

  predicate ReceiverBusy(pc: ReceiverPc) {
    pc == RKick || pc.RSwitch? || pc.RWrite? || pc == RCleanup
  }

  predicate SenderBusy(pc: SenderPc) {
    pc.SSwitch? || pc == SRead || pc.SAnswer? || pc.SKill?
  }

  predicate SenderGone(pc: SenderPc) {
    pc.SCleanup? || pc.SDone?
  }

  /** While the exchange goes on, one party is busy or one signal is on its way, never two. */
  ghost predicate Exchanging(s: State) {
    && !Finished(s.receiver) && !SenderGone(s.sender) && s.sender != SAborted
    && One(ReceiverBusy(s.receiver)) + One(SenderBusy(s.sender)) + |s.toSender| + |s.toReceiver| == 1
    && (Usr2 !in s.toSender && Term !in s.toSender && Term !in s.toReceiver)
    && s.sent == s.got + One(s.sender.SAnswer? || s.toReceiver != {} || s.receiver.RSwitch?)
    && (s.sender.SAnswer? ==> s.sender.bit == FileBit(s.file, s.got))
    && (forall sig :: sig in s.toReceiver ==> sig == BitSignal(FileBit(s.file, s.got)))
    && (s.receiver.RSwitch? ==> s.receiver.got == BitSignal(FileBit(s.file, s.got)))
    && (s.sender.SSwitch? ==> s.sender.got == Usr1)
    && (s.sender == SRead ==> s.needByte)
    && (s.sender == SKill(false) ==> s.sawEnd)
    && (s.sawEnd ==> s.sender == SKill(false) && s.sent == 8 * |s.file|)
  }

  /** The sender has told the receiver to stop and is leaving. */
  ghost predicate SenderStopped(s: State) {
    && SenderGone(s.sender) && s.sent == s.got && s.toSender == {}
    && (s.receiver == RWait || s.receiver == RSwitch(Term) || s.receiver == RDone(false) || s.receiver == RKilled)
    && (s.receiver == RKilled ==> s.sender.SDone?)
    && (s.receiver != RKilled ==> s.toReceiver == if s.receiver == RWait then {Term} else {})
    && (s.toReceiver == {} || s.toReceiver == {Term})
    && s.sender.errors == !s.sawEnd
    && (s.sawEnd ==> s.sent == 8 * |s.file|)
  }

  /** The receiver could not write, has told the sender to stop and has left. */
  ghost predicate ReceiverStopped(s: State) {
    && s.receiver == RDone(true) && s.sent == s.got && s.toReceiver == {} && !s.sawEnd
    && (s.sender == SWait || s.sender == SSwitch(Term) || s.sender == SCleanup(true) || s.sender == SDone(true))
    && s.toSender == if s.sender == SWait then {Term} else {}
  }

  ghost predicate Shape(s: State) {
    Exchanging(s) || SenderStopped(s) || ReceiverStopped(s)
  }

  ghost predicate Inv(s: State) {
    SenderAt(s) && ReceiverAt(s) && Shape(s)
  }

  /** The next bit of the file in the receiver's buffer, other than the last of a byte. */
  lemma PushedInside(s: State, t: State, bit: bool)
    requires ReceiverAt(s) && s.receiver == RSwitch(BitSignal(bit)) && t == Pushed(s, bit)
    requires bit == FileBit(s.file, s.got) && s.got < 8 * |s.file| && s.got % 8 != 7
    ensures ReceiverAt(t) && t.receiver == RKick
  {
    PushWalks(ByteAt(s.file, s.got / 8), s.got % 8);
    assert (s.got + 1) / 8 == s.got / 8 && (s.got + 1) % 8 == s.got % 8 + 1;
  }

  lemma PushedLast(s: State, t: State, bit: bool)
    requires ReceiverAt(s) && s.receiver == RSwitch(BitSignal(bit)) && t == Pushed(s, bit)
    requires bit == FileBit(s.file, s.got) && s.got < 8 * |s.file| && s.got % 8 == 7
    ensures ReceiverAt(t) && t.receiver.RWrite?
  {
    PushWalks(ByteAt(s.file, s.got / 8), 7);
    assert (s.got + 1) / 8 == s.got / 8 + 1 && (s.got + 1) % 8 == 0;
  }

  lemma PushedExchanging(s: State, t: State, bit: bool)
    requires SenderAt(s) && Exchanging(s) && s.receiver == RSwitch(BitSignal(bit)) && t == Pushed(s, bit)
    ensures SenderAt(t) && Exchanging(t)
  {}

  lemma ReceiverPushes(s: State, t: State, bit: bool)
    requires Inv(s) && Exchanging(s) && s.receiver == RSwitch(BitSignal(bit)) && t == Pushed(s, bit)
    ensures Inv(t) && Exchanging(t)
  {
    PushedExchanging(s, t, bit);
    assert bit == FileBit(s.file, s.got) && s.got < s.sent;
    if s.got % 8 == 7 {
      PushedLast(s, t, bit);
    } else {
      PushedInside(s, t, bit);
    }
  }

  lemma ReceiverWrites(s: State, t: State, choice: Signal)
    requires Inv(s) && s.receiver.RWrite? && ReceiverRuns(s, choice) == Some(t)
    ensures Inv(t)
  {
    assert s.file[..s.got / 8] == s.file[..s.got / 8 - 1] + [s.file[s.got / 8 - 1]];
  }

  lemma ExchangingReceiver(s: State, t: State, choice: Signal)
    requires Inv(s) && Exchanging(s) && ReceiverRuns(s, choice) == Some(t)
    ensures Inv(t)
  {
    match s.receiver
    case RSwitch(Usr1) => ReceiverPushes(s, t, false);
    case RSwitch(Usr2) => ReceiverPushes(s, t, true);
    case RWrite(_) => ReceiverWrites(s, t, choice);
    case RKick => ExchangingReceiverKicks(s, t, choice);
    case RWait => ExchangingReceiverWaits(s, t, choice);
    case _ => ExchangingReceiverCleans(s, t, choice);
  }

  lemma ExchangingReceiverKicks(s: State, t: State, choice: Signal)
    requires Inv(s) && Exchanging(s) && ReceiverRuns(s, choice) == Some(t) && s.receiver == RKick
    ensures Inv(t)
  {}

  lemma ExchangingReceiverWaits(s: State, t: State, choice: Signal)
    requires Inv(s) && Exchanging(s) && ReceiverRuns(s, choice) == Some(t) && s.receiver == RWait
    ensures Inv(t)
  {}

  lemma ExchangingReceiverCleans(s: State, t: State, choice: Signal)
    requires Inv(s) && Exchanging(s) && ReceiverRuns(s, choice) == Some(t) && s.receiver == RCleanup
    ensures Inv(t)
  {}

  lemma SenderPulls(s: State, t: State, choice: Signal)
    requires Inv(s) && Exchanging(s) && s.sender.SSwitch? && SenderRuns(s, choice) == Some(t)
    ensures Inv(t)
  {
    if !s.needByte {
      SenderPullsNext(s, t, choice);
    }
  }

  lemma SenderPullsNext(s: State, t: State, choice: Signal)
    requires Inv(s) && Exchanging(s) && s.sender.SSwitch? && !s.needByte && SenderRuns(s, choice) == Some(t)
    ensures Inv(t)
  {
    PullWalks(ByteAt(s.file, s.sent / 8), s.sent % 8);
    assert s.sent % 8 == 7 ==> (s.sent + 1) % 8 == 0;
    assert s.sent % 8 != 7 ==> (s.sent + 1) / 8 == s.sent / 8 && (s.sent + 1) % 8 == s.sent % 8 + 1;
  }

  lemma SenderReads(s: State, t: State, choice: Signal)
    requires Inv(s) && Exchanging(s) && s.sender == SRead && SenderRuns(s, choice) == Some(t)
    ensures Inv(t)
  {
    if s.pos < |s.file| {
      PullNextStarts(s.file[s.pos]);
      assert s.pos == s.sent / 8 && (s.sent + 1) % 8 == 1 && (s.sent + 1) / 8 == s.sent / 8;
    }
  }

  lemma ExchangingSender(s: State, t: State, choice: Signal)
    requires Inv(s) && Exchanging(s) && SenderRuns(s, choice) == Some(t)
    ensures Inv(t)
  {
    if s.sender.SSwitch? {
      SenderPulls(s, t, choice);
    } else if s.sender == SRead {
      SenderReads(s, t, choice);
    } else if s.sender == SWait {
      ExchangingSenderWaits(s, t, choice);
    } else if s.sender.SAnswer? {
      ExchangingSenderAnswers(s, t, choice);
    } else {
      ExchangingSenderKills(s, t, choice);
    }
  }

  lemma ExchangingSenderWaits(s: State, t: State, choice: Signal)
    requires Inv(s) && Exchanging(s) && SenderRuns(s, choice) == Some(t) && s.sender == SWait
    ensures Inv(t)
  {}

  lemma ExchangingSenderAnswers(s: State, t: State, choice: Signal)
    requires Inv(s) && Exchanging(s) && SenderRuns(s, choice) == Some(t) && s.sender.SAnswer?
    ensures Inv(t)
  {}

  lemma ExchangingSenderKills(s: State, t: State, choice: Signal)
    requires Inv(s) && Exchanging(s) && SenderRuns(s, choice) == Some(t) && s.sender.SKill?
    ensures Inv(t)
  {}

  /** Nothing that concerns the data has changed. */
  predicate SameData(s: State, t: State) {
    && t.file == s.file && t.pos == s.pos && t.output == s.output && t.rcv == s.rcv && t.snd == s.snd
    && t.needByte == s.needByte && t.sent == s.sent && t.got == s.got && t.sawEnd == s.sawEnd
    && !t.receiver.RWrite? && !s.receiver.RWrite? && t.receiver != RCleanup && s.receiver != RCleanup
    && (t.receiver == RDone(true) <==> s.receiver == RDone(true))
  }

  lemma SenderStoppedSteps(s: State, step: Step, t: State)
    requires SenderStopped(s) && (s.sawEnd ==> s.snd == 0x80) && Next(s, step) == Some(t)
    ensures SenderStopped(t) && SameData(s, t)
  {}

  lemma ReceiverStoppedSteps(s: State, step: Step, t: State)
    requires ReceiverStopped(s) && Next(s, step) == Some(t)
    ensures ReceiverStopped(t) && SameData(s, t)
  {}

  lemma DataKept(s: State, t: State)
    requires SenderAt(s) && ReceiverAt(s) && SameData(s, t)
    ensures SenderAt(t) && ReceiverAt(t)
  {}

  lemma InvKept(s: State, step: Step, t: State)
    requires Inv(s) && Next(s, step) == Some(t)
    ensures Inv(t)
  {
    if SenderStopped(s) {
      SenderStoppedSteps(s, step, t);
      DataKept(s, t);
    } else if ReceiverStopped(s) {
      ReceiverStoppedSteps(s, step, t);
      DataKept(s, t);
    } else {
      match step
      case ReceiverStep(choice) => ExchangingReceiver(s, t, choice);
      case SenderStep(choice) => ExchangingSender(s, t, choice);
      case _ => ExchangingFails(s, step, t);
    }
  }

  lemma ExchangingFails(s: State, step: Step, t: State)
    requires Inv(s) && Exchanging(s) && Next(s, step) == Some(t) && !step.ReceiverStep? && !step.SenderStep?
    ensures Inv(t)
  {}

  lemma {:induction false} InvAlways(steps: seq<Step>, s: State)
    requires Runs(steps, s)
    ensures Inv(s)
    decreases |steps|
  {
    if steps == [] {
      assert Exchanging(s);
    } else {
      var last := |steps| - 1;
      var before :| Runs(steps[..last], before) && Next(before, steps[last]) == Some(s);
      InvAlways(steps[..last], before);
      InvKept(before, steps[last], s);
    }
  }

  // ---------- what the channel guarantees ----------

  /** Never more than one request or answer is outstanding, and no sentinel assert fails. */
  lemma {:induction false} OneSignalAtATime(steps: seq<Step>, s: State)
    requires Runs(steps, s)
    ensures |s.toSender| + |s.toReceiver| <= 1
    ensures s.sender != SAborted
  {
    InvAlways(steps, s);
  }

  /** Whatever happens, the output is a prefix of the file. */
  lemma {:induction false} OutputIsPrefix(steps: seq<Step>, s: State)
    requires Runs(steps, s)
    ensures s.output <= s.file
  {
    InvAlways(steps, s);
  }

  /**
   Once the sender has met the end of the file all of it has been written, both buffers hold only
   their sentinel, and the sender leaves without an error.
   */
  lemma {:induction false} EndMeansComplete(steps: seq<Step>, s: State)
    requires Runs(steps, s) && s.sawEnd
    ensures s.output == s.file && s.rcv == 1 && s.snd == 0x80
    ensures s.sender.SDone? ==> s.sender == SDone(false)
  {
    InvAlways(steps, s);
  }

  /**
   Whatever happens, the sender ends without an error exactly if it met the end of the file, and then
   all of it has been written. The receiver ends with an error only if it could not write.
   */
  lemma {:induction false} ExitCodes(steps: seq<Step>, s: State)
    requires Runs(steps, s)
    ensures s.sender.SDone? ==> (s.sender.errors <==> !s.sawEnd)
    ensures s.sender == SDone(false) ==> s.output == s.file
    ensures s.receiver == RDone(true) ==> WriteFails in steps
  {
    InvAlways(steps, s);
    if GivingUp(s.receiver) {
      WriteErrors(steps, s);
    }
  }

  predicate GivingUp(pc: ReceiverPc) {
    pc == RCleanup || pc == RDone(true)
  }

  lemma GivesUp(s: State, step: Step, t: State)
    requires Next(s, step) == Some(t) && GivingUp(t.receiver)
    ensures step == WriteFails || GivingUp(s.receiver)
  {
    match step
    case ReceiverStep(choice) => ReceiverGoesOn(s, choice, t);
    case SenderStep(choice) => SenderLeavesReceiver(s, choice, t);
    case _ =>
  }

  lemma SenderLeavesReceiver(s: State, choice: Signal, t: State)
    requires SenderRuns(s, choice) == Some(t)
    ensures t.receiver == s.receiver
  {}

  lemma PushedGoesOn(s: State, bit: bool)
    ensures Pushed(s, bit).receiver == RKick || Pushed(s, bit).receiver.RWrite?
  {}

  lemma ReceiverGoesOn(s: State, choice: Signal, t: State)
    requires ReceiverRuns(s, choice) == Some(t) && GivingUp(t.receiver)
    ensures GivingUp(s.receiver)
  {
    if s.receiver == RSwitch(Usr1) || s.receiver == RSwitch(Usr2) {
      PushedGoesOn(s, s.receiver == RSwitch(Usr2));
    }
  }

  /** The receiver gives up only after a failed write. */
  lemma {:induction false} WriteErrors(steps: seq<Step>, s: State)
    requires Runs(steps, s) && GivingUp(s.receiver)
    ensures WriteFails in steps
    decreases |steps|
  {
    if steps != [] {
      var last := |steps| - 1;
      var before :| Runs(steps[..last], before) && Next(before, steps[last]) == Some(s);
      GivesUp(before, steps[last], s);
      if GivingUp(before.receiver) {
        WriteErrors(steps[..last], before);
      }
    }
  }

  /** The answer under way is the bit after those that have arrived, SIGUSR2 for 1 and SIGUSR1 for 0. */
  lemma {:induction false} AnswersSpellTheFile(steps: seq<Step>, s: State)
    requires Runs(steps, s) && s.toReceiver != {} && Term !in s.toReceiver
    ensures s.got < 8 * |s.file|
    ensures s.toReceiver == {if BitOf(s.file[s.got / 8], s.got % 8) then Usr2 else Usr1}
  {
    InvAlways(steps, s);
    var sig :| sig in s.toReceiver;
    assert Exchanging(s) && sig == BitSignal(FileBit(s.file, s.got)) && s.got < s.sent;
  }

  /** Both processes have come to their end. */
  predicate BothDone(s: State) {
    Finished(s.receiver) && s.sender.SDone?
  }

  /** Until then one of them can always go on. */
  lemma {:induction false} NeverStuck(steps: seq<Step>, s: State)
    requires Runs(steps, s) && !BothDone(s)
    ensures exists step :: Next(s, step).Some?
  {
    InvAlways(steps, s);
    var step := SomeStep(s);
    assert Next(s, step).Some?;
  }

  lemma SomeStep(s: State) returns (step: Step)
    requires Shape(s) && !BothDone(s)
    ensures Next(s, step).Some?
  {
    if Exchanging(s) && !ReceiverBusy(s.receiver) && !SenderBusy(s.sender) {
      if s.toSender != {} {
        var sig :| sig in s.toSender;
        step := SenderStep(sig);
      } else {
        var sig :| sig in s.toReceiver;
        step := ReceiverStep(sig);
      }
    } else if ReceiverBusy(s.receiver) || (s.receiver == RWait && SenderStopped(s)) {
      step := ReceiverStep(Term);
    } else {
      step := SenderStep(Term);
    }
  }

  /** Where in the exchange of one bit, or in the farewell, the two are. */
  function Phase(s: State): nat {
    if SenderGone(s.sender) || s.receiver.RDone? then
      (if s.receiver == RWait then 2 else if s.receiver.RSwitch? then 1 else 0) +
      (if s.sender == SWait then 3 else if s.sender.SSwitch? then 2 else if s.sender.SCleanup? then 1 else 0)
    else if s.receiver.RWrite? then 9
    else if s.receiver == RKick || s.receiver == RCleanup then 8
    else if s.receiver.RSwitch? then 2
    else if s.sender.SSwitch? then 6
    else if s.sender == SRead then 5
    else if s.sender != SWait then 4
    else if s.toSender != {} then 7 else 3
  }

  function Left(s: State): int {
    10 * (8 * |s.file| - s.got) + Phase(s)
  }

  /** Who may act while the exchange goes on, without what the bits are. */
  predicate Turn(s: State) {
    && (ReceiverBusy(s.receiver) || s.receiver == RWait) && (SenderBusy(s.sender) || s.sender == SWait)
    && (ReceiverBusy(s.receiver) ==> s.sender == SWait && s.toSender == {} && s.toReceiver == {})
    && (SenderBusy(s.sender) ==> s.receiver == RWait && s.toSender == {} && s.toReceiver == {})
    && (s.toSender != {} ==> s.toReceiver == {})
    && s.receiver != RSwitch(Term) && (s.sender.SSwitch? ==> s.sender.got == Usr1)
    && forall sig :: sig in s.toSender || sig in s.toReceiver ==> sig != Term
  }

  lemma ExchangingTurn(s: State)
    requires Exchanging(s)
    ensures Turn(s)
  {}

  lemma TurnSenderPullsLeft(s: State, choice: Signal, t: State)
    requires Turn(s) && SenderRuns(s, choice) == Some(t) && t.sender != SAborted
    requires s.sender.SSwitch? || s.sender == SRead
    ensures Left(t) < Left(s) && t.file == s.file
  {}

  lemma TurnSenderSignalsLeft(s: State, choice: Signal, t: State)
    requires Turn(s) && SenderRuns(s, choice) == Some(t) && !s.sender.SSwitch? && s.sender != SRead
    ensures Left(t) < Left(s) && t.file == s.file
  {}

  lemma TurnSenderLeft(s: State, choice: Signal, t: State)
    requires Turn(s) && SenderRuns(s, choice) == Some(t) && t.sender != SAborted
    ensures Left(t) < Left(s) && t.file == s.file
  {
    if s.sender.SSwitch? || s.sender == SRead {
      TurnSenderPullsLeft(s, choice, t);
    } else {
      TurnSenderSignalsLeft(s, choice, t);
    }
  }

  lemma TurnPushLeft(s: State, bit: bool)
    requires Turn(s) && s.receiver.RSwitch?
    ensures Left(Pushed(s, bit)) < Left(s)
  {}

  lemma TurnReceiverLeft(s: State, choice: Signal, t: State)
    requires Turn(s) && ReceiverRuns(s, choice) == Some(t)
    ensures Left(t) < Left(s) && t.file == s.file
  {
    if s.receiver.RSwitch? {
      TurnPushLeft(s, s.receiver.got == Usr2);
    } else {
      TurnSignalLeft(s, choice, t);
    }
  }

  lemma TurnSignalLeft(s: State, choice: Signal, t: State)
    requires Turn(s) && ReceiverRuns(s, choice) == Some(t) && !s.receiver.RSwitch?
    ensures Left(t) < Left(s) && t.file == s.file
  {}

  /** One of the two has told the other to stop and at least one has left; no more bits move. */
  predicate Farewell(s: State) {
    && (SenderGone(s.sender) || s.receiver.RDone?)
    && (s.receiver == RWait || s.receiver == RSwitch(Term) || Finished(s.receiver))
    && (s.sender == SWait || s.sender == SSwitch(Term) || SenderGone(s.sender))
    && (s.sender == SWait ==> Usr1 !in s.toSender) && (s.receiver == RWait ==> s.toReceiver == {Term})
  }

  lemma FarewellReceiverLeft(s: State, choice: Signal, t: State)
    requires Farewell(s) && ReceiverRuns(s, choice) == Some(t)
    ensures Phase(t) < Phase(s) && t.got == s.got && t.file == s.file
    ensures t.sender == s.sender && t.sawEnd == s.sawEnd && (t.receiver == RSwitch(Term) || t.receiver == RDone(false))
  {
    if s.receiver == RWait {
      assert t == s.(toReceiver := s.toReceiver - {choice}, receiver := RSwitch(choice));
    } else {
      assert t == s.(receiver := RDone(false));
    }
  }

  lemma FarewellSenderLeft(s: State, choice: Signal, t: State)
    requires Farewell(s) && SenderRuns(s, choice) == Some(t)
    ensures Phase(t) < Phase(s) && t.got == s.got && t.file == s.file
    ensures t.receiver == s.receiver && t.sawEnd == s.sawEnd && (t.sender == SSwitch(Term) || SenderGone(t.sender))
  {
    if s.sender == SWait {
      assert t == s.(toSender := s.toSender - {choice}, sender := SSwitch(choice));
    } else if s.sender.SSwitch? {
      assert t == s.(sender := SCleanup(true));
    } else {
      assert t == s.(sender := SDone(s.sender.errors || s.snd != 0x80));
    }
  }

  lemma FarewellLeft(s: State, step: Step, t: State)
    requires Farewell(s) && Next(s, step) == Some(t)
    ensures Left(t) < Left(s) && t.file == s.file
  {
    match step
    case ReceiverStep(choice) => FarewellReceiverLeft(s, choice, t);
    case SenderStep(choice) => FarewellSenderLeft(s, choice, t);
    case _ =>
  }

  /** Every step of any kind brings the end nearer. */
  lemma LeftDrops(s: State, step: Step, t: State)
    requires Shape(s) && Next(s, step) == Some(t) && t.sender != SAborted
    ensures Left(t) < Left(s) && t.file == s.file
  {
    if SenderStopped(s) || ReceiverStopped(s) {
      FarewellLeft(s, step, t);
    } else {
      ExchangingTurn(s);
      match step
      case SenderStep(choice) => TurnSenderLeft(s, choice, t);
      case ReceiverStep(choice) => TurnReceiverLeft(s, choice, t);
      case _ =>
    }
  }

  /** So every run ends, within ten steps a bit and eight for the farewell. */
  lemma {:induction false} RunsAreBounded(steps: seq<Step>, s: State)
    requires Runs(steps, s)
    ensures |steps| + Left(s) <= 80 * |s.file| + 8
    ensures |steps| <= 80 * |s.file| + 8
    decreases |steps|
  {
    InvAlways(steps, s);
    if steps != [] {
      var last := |steps| - 1;
      var before :| Runs(steps[..last], before) && Next(before, steps[last]) == Some(s);
      RunsAreBounded(steps[..last], before);
      InvAlways(steps[..last], before);
      LeftDrops(before, steps[last], s);
    }
  }

  /** No read or write has failed so far. */
  predicate Untroubled(steps: seq<Step>) {
    WriteFails !in steps && ReadFails !in steps
  }

  ghost predicate NoTrouble(s: State) {
    && s.receiver != RCleanup && s.receiver != RDone(true) && s.sender != SKill(true)
    && (SenderGone(s.sender) ==> s.sawEnd)
  }

  lemma ShapeAlways(steps: seq<Step>, s: State)
    requires Runs(steps, s)
    ensures Shape(s)
  {
    InvAlways(steps, s);
  }

  lemma {:induction false} TroubleFree(steps: seq<Step>, s: State)
    requires Runs(steps, s) && Untroubled(steps)
    ensures NoTrouble(s)
    decreases |steps|
  {
    if steps != [] {
      var last := |steps| - 1;
      var before :| Runs(steps[..last], before) && Next(before, steps[last]) == Some(s);
      assert steps[last] in steps && forall step :: step in steps[..last] ==> step in steps;
      TroubleFree(steps[..last], before);
      ShapeAlways(steps[..last], before);
      TroubleFreeStep(before, steps[last], s);
    }
  }

  lemma TroubleFreeStep(s: State, step: Step, t: State)
    requires Shape(s) && NoTrouble(s) && Next(s, step) == Some(t) && !step.WriteFails? && !step.ReadFails?
    ensures NoTrouble(t)
  {
    if SenderStopped(s) {
      SenderStoppedTrouble(s, step, t);
    } else {
      if s.sender.SKill? {
        KillTrouble(s);
      }
      ExchangingTurn(s);
      TurnTrouble(s, step, t);
    }
  }

  lemma SenderStoppedTrouble(s: State, step: Step, t: State)
    requires SenderStopped(s) && NoTrouble(s) && Next(s, step) == Some(t)
    ensures NoTrouble(t)
  {
    match step
    case ReceiverStep(choice) => FarewellReceiverLeft(s, choice, t);
    case SenderStep(choice) => FarewellSenderLeft(s, choice, t);
    case _ =>
  }

  lemma KillTrouble(s: State)
    requires Exchanging(s) && NoTrouble(s) && s.sender.SKill?
    ensures s.sawEnd
  {}

  lemma TurnTrouble(s: State, step: Step, t: State)
    requires Turn(s) && NoTrouble(s) && (s.sender.SKill? ==> s.sawEnd)
    requires Next(s, step) == Some(t) && !step.WriteFails? && !step.ReadFails?
    ensures NoTrouble(t)
  {
    match step
    case ReceiverStep(choice) => TurnReceiverTrouble(s, choice, t);
    case SenderStep(choice) => TurnSenderTrouble(s, choice, t);
    case _ =>
  }

  lemma TurnReceiverTrouble(s: State, choice: Signal, t: State)
    requires Turn(s) && NoTrouble(s) && ReceiverRuns(s, choice) == Some(t)
    ensures NoTrouble(t)
  {}

  lemma TurnSenderTrouble(s: State, choice: Signal, t: State)
    requires Turn(s) && NoTrouble(s) && (s.sender.SKill? ==> s.sawEnd) && SenderRuns(s, choice) == Some(t)
    ensures NoTrouble(t)
  {}

  /** If no read or write fails, every run that can go no further has copied the whole file. */
  lemma {:induction false} CopiesTheFile(steps: seq<Step>, s: State)
    requires Runs(steps, s) && Untroubled(steps)
    requires forall step :: Next(s, step).None?
    ensures s.output == s.file && s.sender == SDone(false)
  {
    InvAlways(steps, s);
    TroubleFree(steps, s);
    if !BothDone(s) {
      var step := SomeStep(s);
    } else {
      EndMeansComplete(steps, s);
    }
  }
}
