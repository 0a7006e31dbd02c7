/**
 What every step of the handoff keeps. While both processes live, exactly one of four holds the
 buffer: the MEMORY semaphore, the sender, the DATA semaphore, or the receiver. The receiver's death
 raises MEMORY, so that its sender never blocks; the sender's death raises nothing, and the receiver
 is left with what had been handed over. The flags limit what a survivor still does.
 */
module HandoffInvariant {
  import opened Collections
  import opened SemOps
  import opened Handoff

  // ---------- what the semaphore calls do ----------

  /** A call without zero adjustments does what its first `opsNr` arguments mean. */
  lemma CallMeaning(v: seq<nat>, adj: seq<int>, call: ManyCall)
    requires call.opsNr <= |call.args| && InBounds(Sems(v, adj), call.args[..call.opsNr])
    requires forall i :: 0 <= i < call.opsNr ==> !ZeroAdjustment(call.args[i])
    ensures Call(v, adj, call) == IntendedAll(Sems(v, adj), call.args[..call.opsNr])
  {
    ExpandMeaning(Sems(v, adj), call.opsNr, call.args);
    NothingSpoils(Sems(v, adj), call.args[..call.opsNr]);
  }

  lemma IntendedOne(st: Sems, a: SemBuf)
    requires |st.adj| == |st.values| && a.num < |st.values|
    ensures IntendedAll(st, [a]) == Intended(st, a)
  {
    assert [a] == [] + [a];
    IntendedSnoc(st, [], a);
  }

  lemma IntendedTwo(st: Sems, a: SemBuf, b: SemBuf)
    requires |st.adj| == |st.values| && a.num < |st.values| && b.num < |st.values|
    ensures IntendedAll(st, [a, b]) == if Intended(st, a).None? then None else Intended(Intended(st, a).value, b)
  {
    assert [a, b] == [a] + [b];
    IntendedOne(st, a);
    IntendedSnoc(st, [a], b);
  }

  /** P and V: one plain operation of -1 or 1. */
  lemma PlainCall(v: seq<nat>, adj: seq<int>, num: nat, op: int)
    requires |v| == |adj| == SEMAPHORE_COUNT && num < SEMAPHORE_COUNT && op != 0
    ensures Call(v, adj, ManyCall(1, [SemopEntry(num, op, Plain)])) ==
      if v[num] + op < 0 then None else Some(Sems(v[num := v[num] + op], adj))
  {
    var call := ManyCall(1, [SemopEntry(num, op, Plain)]);
    assert call.args[..1] == call.args;
    CallMeaning(v, adj, call);
    IntendedOne(Sems(v, adj), SemopEntry(num, op, Plain));
  }

  /** Locking out other receivers waits for zero and leaves the mutex at 1 with semadj -1. */
  lemma LockOutCall(v: seq<nat>, adj: seq<int>)
    requires |v| == |adj| == SEMAPHORE_COUNT
    ensures Call(v, adj, LOCK_OUT) ==
      if v[RCV_MUTEX] != 0 then None
      else Some(Sems(v[RCV_MUTEX := 1], adj[RCV_MUTEX := adj[RCV_MUTEX] - 1]))
  {
    assert LOCK_OUT.args[..2] == LOCK_OUT.args;
    CallMeaning(v, adj, LOCK_OUT);
    IntendedTwo(Sems(v, adj), SemopEntry(RCV_MUTEX, 0, Plain), SemopEntry(RCV_MUTEX, 1, Undo));
    assert v[RCV_MUTEX := v[RCV_MUTEX]] == v;
  }

  /** Joining takes SND_MUTEX for good. The adjustment of DATA is not among the arguments read: semadj stays. */
  lemma JoinCall(v: seq<nat>, adj: seq<int>)
    requires |v| == |adj| == SEMAPHORE_COUNT
    ensures Call(v, adj, JOIN) ==
      if v[SND_MUTEX] == 0 then None
      else Some(Sems(v[SND_MUTEX := v[SND_MUTEX] - 1], adj))
  {
    assert JOIN.args[..1] == [SemopEntry(SND_MUTEX, -1, Plain)];
    CallMeaning(v, adj, JOIN);
    IntendedOne(Sems(v, adj), SemopEntry(SND_MUTEX, -1, Plain));
  }

  /** Had the count been 2, the sender's end would raise DATA by 2. */
  lemma JoinCallInFull(v: seq<nat>, adj: seq<int>)
    requires |v| == |adj| == SEMAPHORE_COUNT
    ensures Call(v, adj, JOIN.(opsNr := 2)) ==
      if v[SND_MUTEX] == 0 then None
      else Some(Sems(v[SND_MUTEX := v[SND_MUTEX] - 1], adj[DATA := adj[DATA] + 2]))
  {
    assert JOIN.args[..2] == JOIN.args;
    CallMeaning(v, adj, JOIN.(opsNr := 2));
    IntendedTwo(Sems(v, adj), SemopEntry(SND_MUTEX, -1, Plain), SemopAdj(DATA, 2));
  }

  /** Setting up opens SND_MUTEX and MEMORY and arranges for MEMORY to be raised by 2 at the receiver's end. */
  lemma SetupCall(v: seq<nat>, adj: seq<int>)
    requires |v| == |adj| == SEMAPHORE_COUNT
    ensures Call(v, adj, SETUP) ==
      Some(Sems(v[SND_MUTEX := v[SND_MUTEX] + 1][MEMORY := v[MEMORY] + 1],
                adj[SND_MUTEX := adj[SND_MUTEX] - 1][MEMORY := adj[MEMORY] + 2]))
  {
    var st := Sems(v, adj);
    var a, b, c := SemopEntry(SND_MUTEX, 1, Undo), SemopEntry(MEMORY, 1, Plain), SemopAdj(MEMORY, 2);
    assert SETUP.args[..3] == SETUP.args == [a, b] + [c];
    CallMeaning(v, adj, SETUP);
    IntendedTwo(st, a, b);
    IntendedSnoc(st, [a, b], c);
  }

  // ---------- the phases of a session ----------

  predicate Starting(pc: ReceiverPc) {
    pc == RLockOut || pc.RZero? || pc == RInitRcv || pc == RInitSnd || pc == RSetup
  }

  /** The receiver is between P DATA and V MEMORY. */
  predicate ReceiverInside(pc: ReceiverPc) {
    pc == RSwitch || pc == RWrite || pc == RIoFlag || pc == RSetOk || pc == RSetNot || pc == RPost || pc.RExit?
  }

  /** The sender is between P MEMORY and V DATA. */
  predicate SenderInside(pc: SenderPc) {
    pc == SSwitch || pc == SRead || pc.SReading? || pc.SAmount? || pc == SSetOk || pc == SSetEof ||
    pc == SIoFlag || pc == SReset || pc == SPost || pc == SExit(false)
  }

  /** The buffer holds the chunk that follows what has been written. */
  ghost predicate Chunk(s: State) {
    1 <= s.mem.amount <= |s.mem.data| && s.pos <= |s.input| &&
    s.output + s.mem.data[..s.mem.amount] == s.input[..s.pos]
  }

  ghost predicate AllCopied(s: State) {
    s.pos <= |s.input| && s.output == s.input[..s.pos]
  }

  ghost predicate Whole(s: State) {
    s.pos == |s.input| && s.output == s.input
  }

  /** What the sender has announced: a chunk, or the end of the file. */
  ghost predicate Published(s: State) {
    (s.mem.snd == SndOk && !s.eof && Chunk(s)) || (s.mem.snd == SndEof && s.eof && Whole(s))
  }

  ghost predicate SenderKnows(s: State) {
    if s.sender == SReset || s.sender == SPost then Published(s)
    else if s.sender.SExit? then s.mem.snd == SndIoError && s.output <= s.input && !s.eof
    else
      && s.mem.snd == SndNotDone && !s.eof && s.pos <= |s.input|
      && if s.sender.SAmount? then
           var n := s.sender.n;
           1 <= n <= |s.mem.data| && s.output + s.mem.data[..n] == s.input[..s.pos]
         else if s.sender == SSetOk then Chunk(s)
         else if s.sender == SSetEof then Whole(s)
         else AllCopied(s) && (s.sender.SReading? ==> 1 <= s.sender.n <= DATA_MAX && s.pos + s.sender.n <= |s.input|)
  }

  ghost predicate ReceiverKnows(s: State) {
    match s.receiver
    case RSwitch => s.mem.rcv == RcvNotDone && Published(s)
    case RWrite => s.mem.rcv == RcvNotDone && s.mem.snd == SndOk && !s.eof && Chunk(s)
    case RIoFlag => s.mem.rcv == RcvNotDone && s.mem.snd == SndOk && !s.eof && s.output <= s.input
    case RSetOk => s.mem.rcv == RcvNotDone && s.mem.snd == SndOk && !s.eof && AllCopied(s)
    case RSetNot => s.mem.rcv == RcvOk && s.mem.snd == SndOk && !s.eof && AllCopied(s)
    case RPost => s.mem.rcv == RcvOk && s.mem.snd == SndNotDone && !s.eof && AllCopied(s)
    case RExit(true) => s.mem.rcv == RcvNotDone && s.mem.snd == SndEof && s.eof && Whole(s)
    case RExit(false) => s.mem.rcv == RcvIoError && s.mem.snd == SndOk && !s.eof && s.output <= s.input
    case _ => false
  }

  ghost predicate Common(s: State) {
    && |s.values| == |s.adjR| == |s.adjS| == SEMAPHORE_COUNT && |s.mem.data| == DATA_MAX
    && s.pos <= |s.input|
    && s.joins == if s.sender.SNone? then 0 else 1
  }

  /** Before the receiver has set up: nobody can have joined. */
  ghost predicate Begins(s: State) {
    && Common(s) && Starting(s.receiver) && s.sender.SNone? && s.output == [] && s.pos == 0 && !s.eof
    && s.lateWrites == s.lateReads == 0
    && s.values[RCV_MUTEX] == (if s.receiver == RLockOut then 0 else 1) && s.values[SND_MUTEX] == 0
    && (s.receiver.RZero? ==> forall i :: 1 <= i < s.receiver.next && i < |s.values| ==> s.values[i] == 0)
    && (s.receiver == RLockOut || s.receiver.RZero? || s.values == [1, 0, 0, 0])
    && s.adjR == (if s.receiver == RLockOut then NO_ADJ else [-1, 0, 0, 0])
    && s.adjS == NO_ADJ
    && (s.receiver == RInitSnd || s.receiver == RSetup ==> s.mem.rcv == RcvOk)
    && (s.receiver == RSetup ==> s.mem.snd == SndNotDone)
    && (s.receiver.RZero? ==> 1 <= s.receiver.next <= SEMAPHORE_COUNT)
  }

  /** The receiver waits and nobody has joined yet. */
  ghost predicate Lonely(s: State) {
    && Common(s) && s.receiver == RWait && s.sender.SNone? && s.output == [] && s.pos == 0 && !s.eof
    && s.lateWrites == s.lateReads == 0
    && s.values == [1, 1, 1, 0] && s.adjR == [-1, -1, 2, 0] && s.adjS == NO_ADJ
    && s.mem.rcv == RcvOk && s.mem.snd == SndNotDone
  }

  function One(b: bool): nat { if b then 1 else 0 }

  /** Both alive: the buffer is with exactly one of MEMORY, DATA, the receiver and the sender. */
  ghost predicate Together(s: State) {
    && Common(s) && !Starting(s.receiver) && !s.receiver.RDead? && SenderAlive(s)
    && s.values[RCV_MUTEX] == 1 && s.values[SND_MUTEX] == 0
    && s.adjR == [-1, -1, 2, 0] && s.adjS == NO_ADJ
    && s.lateWrites == s.lateReads == 0
    && s.values[MEMORY] + s.values[DATA] + One(ReceiverInside(s.receiver)) + One(SenderInside(s.sender)) == 1
    && (s.values[MEMORY] == 1 ==>
         AllCopied(s) && !s.eof && s.mem.rcv == RcvOk && s.mem.snd == SndNotDone && s.sender != SExit(true))
    && (s.values[DATA] == 1 ==> s.mem.rcv == RcvNotDone && Published(s))
    && (SenderInside(s.sender) ==> SenderKnows(s) && s.mem.rcv == if s.sender == SPost then RcvNotDone else RcvOk)
    && (ReceiverInside(s.receiver) ==> ReceiverKnows(s))
    && (s.sender == SWait ==> !s.eof) && (s.sender == SExit(true) ==> s.eof)
  }

  /** How far MEMORY must be above zero for a sender without a receiver to go on to its exit. */
  function SenderNeeds(pc: SenderPc, rcv: RcvState): nat {
    match pc
    case SWait => 1 + One(rcv == RcvOk)
    case STest => 1 + One(rcv == RcvOk)
    case SSwitch => One(rcv == RcvOk)
    case SIoFlag => 0
    case SExit(_) => 0
    case _ => 1
  }

  /** Where a sender can be only as long as it has not announced the end of its file. */
  predicate NotYetEnded(pc: SenderPc) {
    pc == SWait || pc == SSwitch || pc == SRead || pc.SReading? || pc.SAmount? || pc == SSetOk ||
    pc == SSetEof || pc == SIoFlag
  }

  /** The sender may still read one chunk. */
  predicate MayRead(s: State) {
    s.mem.rcv == RcvOk &&
    (s.sender == SWait || s.sender == STest || s.sender == SSwitch || s.sender == SRead || s.sender.SReading?)
  }

  ghost predicate SenderAlone(s: State) {
    && Common(s) && s.receiver.RDead? && SenderAlive(s)
    && s.values[SND_MUTEX] == 0 && s.adjS == NO_ADJ
    && s.output <= s.input && (s.receiver.ok ==> Whole(s) && s.eof)
    && (s.mem.snd == SndEof <==> s.eof) && (s.eof ==> s.pos == |s.input|)
    && s.values[MEMORY] >= SenderNeeds(s.sender, s.mem.rcv)
    && (s.sender == SPost ==> s.mem.rcv == RcvNotDone)
    && (s.sender.SReading? ==> 1 <= s.sender.n <= DATA_MAX && s.pos + s.sender.n <= |s.input|)
    && (s.sender == SSetEof ==> s.pos == |s.input|)
    && (NotYetEnded(s.sender) ==> !s.eof)
    && (s.sender == SRead || s.sender.SReading? || s.sender.SAmount? || s.sender == SSetOk || s.sender == SSetEof ==>
         s.mem.rcv == RcvOk)
    && s.lateReads + One(MayRead(s)) <= 1
    && s.lateWrites == 0
  }

  /** The receiver may still write one chunk. */
  predicate MayWrite(s: State)
    requires |s.values| == SEMAPHORE_COUNT
  {
    s.mem.snd == SndOk &&
    ((s.receiver == RWait && s.values[DATA] == 1) || s.receiver == RSwitch || s.receiver == RWrite)
  }

  /** The sender is dead: at most what it had handed over before is left, and nobody raises DATA again. */
  ghost predicate ReceiverAlone(s: State) {
    && Common(s) && !Starting(s.receiver) && !s.receiver.RDead? && s.sender.SDead?
    && s.values[SND_MUTEX] == 0 && s.adjR == [-1, -1, 2, 0]
    && s.output <= s.input
    && s.values[DATA] + One(ReceiverInside(s.receiver)) <= 1
    && (s.values[DATA] == 1 ==> s.mem.rcv == RcvNotDone && Published(s))
    && (ReceiverInside(s.receiver) ==> ReceiverKnows(s))
    && s.lateWrites + One(MayWrite(s)) <= 1
    && s.lateReads == 0
  }

  /** The receiver is gone and no sender is at work. */
  ghost predicate Over(s: State) {
    && Common(s) && s.receiver.RDead? && !SenderAlive(s)
    && s.values[SND_MUTEX] == 0
    && (s.sender.SNone? ==> s.output == [] && !s.receiver.ok) && (s.sender.SDead? ==> s.output <= s.input)
    && (s.receiver.ok ==> Whole(s))
    && s.lateReads <= 1 && s.lateWrites <= 1
  }

  ghost predicate Inv(s: State) {
    Begins(s) || Lonely(s) || Together(s) || SenderAlone(s) || ReceiverAlone(s) || Over(s)
  }

  // ---------- every step keeps the invariant ----------

  lemma BeginsSteps(s: State, step: Step, t: State)
    requires Begins(s) && Next(s, step) == Some(t)
    ensures Inv(t)
  {
    match step
    case ReceiverStep => BeginsRuns(s, t);
    case ReceiverDies => assert Over(t);
    case Joins(i) => JoinCall(s.values, NO_ADJ);
    case _ =>
  }

  lemma BeginsLockOut(s: State, t: State)
    requires Begins(s) && ReceiverRuns(s) == Some(t) && s.receiver == RLockOut
    ensures Begins(t)
  {
    LockOutCall(s.values, s.adjR);
  }

  lemma BeginsSetup(s: State, t: State)
    requires Begins(s) && ReceiverRuns(s) == Some(t) && s.receiver == RSetup
    ensures Lonely(t)
  {
    SetupCall(s.values, s.adjR);
  }

  lemma BeginsRuns(s: State, t: State)
    requires Begins(s) && ReceiverRuns(s) == Some(t)
    ensures Begins(t) || Lonely(t)
  {
    if s.receiver == RLockOut {
      BeginsLockOut(s, t);
    } else if s.receiver == RSetup {
      BeginsSetup(s, t);
    }
  }

  lemma LonelySteps(s: State, step: Step, t: State)
    requires Lonely(s) && Next(s, step) == Some(t)
    ensures Inv(t)
  {
    match step
    case ReceiverStep => PlainCall(s.values, s.adjR, DATA, -1);
    case ReceiverDies => assert Over(t);
    case Joins(i) =>
      JoinCall(s.values, NO_ADJ);
      assert Together(t);
    case _ =>
  }

  lemma TogetherReceiverCalls(s: State, t: State)
    requires Together(s) && ReceiverRuns(s) == Some(t) && (s.receiver == RWait || s.receiver == RPost)
    ensures Together(t)
  {
    PlainCall(s.values, s.adjR, DATA, -1);
    PlainCall(s.values, s.adjR, MEMORY, 1);
  }

  lemma TogetherReceiverRuns(s: State, t: State)
    requires Together(s) && ReceiverRuns(s) == Some(t)
    ensures if s.receiver.RExit? then SenderAlone(t) else Together(t)
  {
    if s.receiver.RExit? {
      TogetherReceiverDies(s, s.receiver.ok);
    } else if s.receiver == RWait || s.receiver == RPost {
      TogetherReceiverCalls(s, t);
    }
  }

  lemma TogetherWrites(s: State, n: nat, t: State)
    requires Together(s) && WriteReturns(s, n) == Some(t)
    ensures Together(t)
  {
    var chunk := s.mem.data[..s.mem.amount];
    assert n < s.mem.amount ==> chunk[..n] == s.mem.data[..n] && chunk == chunk[..n] + chunk[n..];
    assert s.output + s.mem.data[..n] <= s.output + chunk;
  }

  lemma TogetherReceiverDies(s: State, ok: bool)
    requires Together(s) && (ok ==> s.receiver == RExit(true))
    ensures SenderAlone(ReceiverDeath(s, ok))
  {
    ReceiverLeaves(s.values);
    TogetherPrefix(s);
  }

  /** The receiver's adjustments raise MEMORY by 2, close SND_MUTEX and leave DATA alone. */
  lemma ReceiverLeaves(v: seq<nat>)
    requires |v| == SEMAPHORE_COUNT && v[RCV_MUTEX] == 1 && v[SND_MUTEX] == 0
    ensures Leave(v, [-1, -1, 2, 0]) == [0, 0, v[MEMORY] + 2, v[DATA]]
  {
    assert v == [1, 0, v[MEMORY], v[DATA]];
  }

  lemma TogetherPrefix(s: State)
    requires Together(s)
    ensures s.output <= s.input
  {
    if 1 <= s.mem.amount <= |s.mem.data| {
      assert Chunk(s) ==> s.output <= s.output + s.mem.data[..s.mem.amount];
    }
    if s.sender.SAmount? && s.sender.n <= |s.mem.data| {
      assert s.output <= s.output + s.mem.data[..s.sender.n];
    }
  }

  lemma TogetherSenderCalls(s: State, t: State)
    requires Together(s) && SenderRuns(s) == Some(t) && (s.sender == SWait || s.sender == SPost)
    ensures Together(t)
  {
    PlainCall(s.values, s.adjS, MEMORY, -1);
    PlainCall(s.values, s.adjS, DATA, 1);
  }

  lemma TogetherSenderReads(s: State, t: State)
    requires Together(s) && SenderRuns(s) == Some(t) && s.sender.SReading?
    ensures Together(t)
  {
    var n := s.sender.n;
    assert t.mem.data[..n] == s.input[s.pos..s.pos + n];
    assert s.input[..s.pos] + s.input[s.pos..s.pos + n] == s.input[..s.pos + n];
  }

  lemma TogetherSenderFlags(s: State, t: State)
    requires Together(s) && SenderRuns(s) == Some(t)
    requires s.sender.SAmount? || s.sender == SSetOk || s.sender == SSetEof || s.sender == SIoFlag || s.sender == SReset
    ensures Together(t)
  {}

  lemma TogetherSenderTests(s: State, t: State)
    requires Together(s) && SenderRuns(s) == Some(t)
    requires s.sender == SSwitch || s.sender == SRead || s.sender == STest
    ensures Together(t)
  {}

  lemma TogetherSenderRuns(s: State, t: State)
    requires Together(s) && SenderRuns(s) == Some(t)
    ensures if s.sender.SExit? then ReceiverAlone(t) else Together(t)
  {
    if s.sender.SExit? {
      TogetherSenderDies(s, s.sender.ok);
    } else if s.sender == SWait || s.sender == SPost {
      TogetherSenderCalls(s, t);
    } else if s.sender.SReading? {
      TogetherSenderReads(s, t);
    } else if s.sender == SSwitch || s.sender == SRead || s.sender == STest {
      TogetherSenderTests(s, t);
    } else {
      TogetherSenderFlags(s, t);
    }
  }

  lemma TogetherSenderDies(s: State, ok: bool)
    requires Together(s)
    ensures ReceiverAlone(SenderDeath(s, ok))
  {}

  lemma TogetherSteps(s: State, step: Step, t: State)
    requires Together(s) && Next(s, step) == Some(t)
    ensures Inv(t)
  {
    match step
    case ReceiverStep => TogetherReceiverRuns(s, t);
    case Writes(n) => TogetherWrites(s, n, t);
    case ReceiverDies => TogetherReceiverDies(s, false);
    case SenderStep => TogetherSenderRuns(s, t);
    case SenderDies => TogetherSenderDies(s, false);
    case Joins(i) => JoinCall(s.values, NO_ADJ);
    case WriteFails => TogetherWriteFails(s, t);
    case Reads(n, junk) => TogetherReadStarts(s, n, junk, t);
    case ReadFails => TogetherReadFails(s, t);
    case BlockedDies(i) => TogetherSame(s, t);
  }

  lemma TogetherWriteFails(s: State, t: State)
    requires Together(s) && s.receiver == RWrite && t == s.(receiver := RIoFlag)
    ensures Together(t)
  {
    assert s.output <= s.output + s.mem.data[..s.mem.amount];
  }

  lemma TogetherReadStarts(s: State, n: nat, junk: Bytes, t: State)
    requires Together(s) && ReadStarts(s, n, junk) == Some(t)
    ensures Together(t)
  {}

  lemma TogetherReadFails(s: State, t: State)
    requires Together(s) && s.sender == SRead && t == s.(sender := SIoFlag)
    ensures Together(t)
  {}

  lemma TogetherSame(s: State, t: State)
    requires Together(s) && t == s.(blocked := t.blocked)
    ensures Together(t)
  {}

  lemma SenderAloneCalls(s: State, t: State)
    requires SenderAlone(s) && SenderRuns(s) == Some(t) && (s.sender == SWait || s.sender == SPost)
    ensures SenderAlone(t)
  {
    PlainCall(s.values, s.adjS, MEMORY, -1);
    PlainCall(s.values, s.adjS, DATA, 1);
  }

  lemma SenderAloneExits(s: State, t: State)
    requires SenderAlone(s) && SenderRuns(s) == Some(t) && s.sender.SExit?
    ensures Over(t)
  {}

  lemma SenderAloneAssigns(s: State, t: State)
    requires SenderAlone(s) && SenderRuns(s) == Some(t)
    requires s.sender != SWait && s.sender != SPost && !s.sender.SExit?
    ensures SenderAlone(t)
  {}

  lemma SenderAloneRuns(s: State, t: State)
    requires SenderAlone(s) && SenderRuns(s) == Some(t)
    ensures if s.sender.SExit? then Over(t) else SenderAlone(t)
  {
    if s.sender == SWait || s.sender == SPost {
      SenderAloneCalls(s, t);
    } else if s.sender.SExit? {
      SenderAloneExits(s, t);
    } else {
      SenderAloneAssigns(s, t);
    }
  }

  lemma SenderAloneSteps(s: State, step: Step, t: State)
    requires SenderAlone(s) && Next(s, step) == Some(t)
    ensures SenderAlone(t) || Over(t)
  {
    match step
    case SenderStep => SenderAloneRuns(s, t);
    case SenderDies => assert Over(t);
    case Joins(i) => JoinCall(s.values, NO_ADJ);
    case _ =>
  }

  lemma ReceiverAloneWaits(s: State, t: State)
    requires ReceiverAlone(s) && ReceiverRuns(s) == Some(t) && s.receiver == RWait
    ensures ReceiverAlone(t) && s.values[DATA] == 1
    ensures t == s.(values := s.values[DATA := 0], receiver := RSwitch)
  {
    PlainCall(s.values, s.adjR, DATA, -1);
  }

  lemma ReceiverAlonePosts(s: State, t: State)
    requires ReceiverAlone(s) && ReceiverRuns(s) == Some(t) && s.receiver == RPost
    ensures ReceiverAlone(t) && t == s.(values := s.values[MEMORY := s.values[MEMORY] + 1], receiver := RWait)
  {
    PlainCall(s.values, s.adjR, MEMORY, 1);
  }

  lemma ReceiverAloneRuns(s: State, t: State)
    requires ReceiverAlone(s) && ReceiverRuns(s) == Some(t)
    ensures if s.receiver.RExit? then Over(t) else ReceiverAlone(t)
  {
    if s.receiver == RWait {
      ReceiverAloneWaits(s, t);
    } else if s.receiver == RPost {
      ReceiverAlonePosts(s, t);
    }
  }

  lemma ReceiverAloneWrites(s: State, n: nat, t: State)
    requires ReceiverAlone(s) && WriteReturns(s, n) == Some(t)
    ensures ReceiverAlone(t)
  {
    var chunk := s.mem.data[..s.mem.amount];
    assert chunk[..n] == s.mem.data[..n] && chunk == chunk[..n] + chunk[n..];
    assert s.output + s.mem.data[..n] <= s.output + chunk;
  }

  lemma ReceiverAloneSteps(s: State, step: Step, t: State)
    requires ReceiverAlone(s) && Next(s, step) == Some(t)
    ensures ReceiverAlone(t) || Over(t)
  {
    match step
    case ReceiverStep => ReceiverAloneRuns(s, t);
    case Writes(n) => ReceiverAloneWrites(s, n, t);
    case ReceiverDies => assert Over(t);
    case Joins(i) => JoinCall(s.values, NO_ADJ);
    case _ =>
  }

  lemma OverSteps(s: State, step: Step, t: State)
    requires Over(s) && Next(s, step) == Some(t)
    ensures Over(t)
  {
    JoinCall(s.values, NO_ADJ);
  }

  lemma InvKept(s: State, step: Step, t: State)
    requires Inv(s) && Next(s, step) == Some(t)
    ensures Inv(t)
  {
    if Begins(s) {
      BeginsSteps(s, step, t);
    } else if Lonely(s) {
      LonelySteps(s, step, t);
    } else if Together(s) {
      TogetherSteps(s, step, t);
    } else if SenderAlone(s) {
      SenderAloneSteps(s, step, t);
    } else if ReceiverAlone(s) {
      ReceiverAloneSteps(s, step, t);
    } else {
      OverSteps(s, step, t);
    }
  }

  /** The invariant holds in every state that any interleaving and any deaths lead to. */
  lemma {:induction false} InvAlways(steps: seq<Step>, s: State)
    requires Runs(steps, s)
    ensures Inv(s)
    decreases |steps|
  {
    if steps == [] {
      assert Begins(s);
    } else {
      var last := |steps| - 1;
      var before :| Runs(steps[..last], before) && Next(before, steps[last]) == Some(s);
      InvAlways(steps[..last], before);
      InvKept(before, steps[last], s);
    }
  }
}
