/**
 The shared-memory handoff of seminar6: one receiver session, the sender that joins it, and any
 number of senders still blocked on SND_MUTEX. A step is one statement of one process; a process
 may die between any two statements, whereupon the kernel applies its semadj. All semaphore calls
 go through `semop_many`.
 */
module Handoff {
  import opened Collections
  import opened SemOps

  type Bytes = seq<bv8>

  const RCV_MUTEX: nat := 0
  const SND_MUTEX: nat := 1
  const MEMORY: nat := 2
  const DATA: nat := 3
  const SEMAPHORE_COUNT: nat := 4

  /** sizeof(struct shared_memory) - 1 where an enum has 4 bytes and size_t has 8. */
  const DATA_MAX: nat := 23

  datatype RcvState = RcvNotDone | RcvOk | RcvIoError
  datatype SndState = SndNotDone | SndOk | SndEof | SndIoError

  datatype Shared = Shared(rcv: RcvState, snd: SndState, amount: nat, data: Bytes)

  datatype ReceiverPc =
    | RLockOut          // sem_get_and_init: wait for zero on RCV_MUTEX and increment it
    | RZero(next: nat)  // sem_get_and_init: SETVAL 0 on the other semaphores
    | RInitRcv          // rcv_state = RCV_OK
    | RInitSnd          // snd_state = SND_NOT_DONE
    | RSetup            // initial values and semadj
    | RWait             // P DATA
    | RSwitch           // switch (snd_state)
    | RWrite            // write() of the chunk
    | RIoFlag           // rcv_state = RCV_IOERROR
    | RSetOk            // rcv_state = RCV_OK
    | RSetNot           // snd_state = SND_NOT_DONE
    | RPost             // V MEMORY
    | RExit(ok: bool)   // returning; `ok` on the end-of-file path
    | RDead(ok: bool)

  datatype SenderPc =
    | SNone             // nobody has joined yet
    | SWait             // P MEMORY
    | SSwitch           // switch (rcv_state)
    | SRead             // read() begins
    | SReading(n: nat)  // read() is copying n bytes into the shared buffer
    | SAmount(n: nat)   // data_amount = n
    | SSetOk            // snd_state = SND_OK
    | SSetEof           // snd_state = SND_EOF
    | SIoFlag           // snd_state = SND_IOERROR
    | SReset            // rcv_state = RCV_NOT_DONE
    | SPost             // V DATA
    | STest             // if (snd_state == SND_EOF) break
    | SExit(ok: bool)
    | SDead(ok: bool)

  /**
   `input` and `pos` are the joined sender's file and offset. `eof` records that it set SND_EOF,
   `joins` how many senders got past SND_MUTEX, `lateWrites` and `lateReads` how many chunks a
   survivor handled after its peer's death.
   */
  datatype State = State(
    values: seq<nat>,
    adjR: seq<int>,
    adjS: seq<int>,
    mem: Shared,
    receiver: ReceiverPc,
    sender: SenderPc,
    blocked: seq<Bytes>,
    input: Bytes,
    pos: nat,
    output: Bytes,
    eof: bool,
    joins: nat,
    lateWrites: nat,
    lateReads: nat)

  datatype Step =
    | ReceiverStep
    | Writes(n: nat)              // write() accepts n bytes
    | WriteFails
    | ReceiverDies
    | SenderStep
    | Reads(n: nat, junk: Bytes)  // read() starts copying n bytes, the buffer in any state meanwhile
    | ReadFails
    | SenderDies
    | Joins(i: nat)
    | BlockedDies(i: nat)

  const NO_ADJ: seq<int> := [0, 0, 0, 0]

  /**
   The start of a session: no receiver at work and SND_MUTEX closed, as in a fresh semaphore set or
   after an earlier session. What that left in MEMORY and DATA, and in the shared segment, is arbitrary.
   */
  ghost predicate Init(s: State) {
    && |s.values| == SEMAPHORE_COUNT && s.values[RCV_MUTEX] == s.values[SND_MUTEX] == 0
    && s.adjR == NO_ADJ && s.adjS == NO_ADJ
    && |s.mem.data| == DATA_MAX
    && s.receiver == RLockOut && s.sender == SNone
    && s.pos == 0 && s.output == [] && !s.eof && s.joins == s.lateWrites == s.lateReads == 0
  }

  // The program's semop_many calls: the count of arguments to be read, and the arguments passed.

  datatype ManyCall = ManyCall(opsNr: nat, args: seq<SemBuf>)

  const LOCK_OUT: ManyCall := ManyCall(2, [SemopEntry(RCV_MUTEX, 0, Plain), SemopEntry(RCV_MUTEX, 1, Undo)])
  const SETUP: ManyCall :=
    ManyCall(3, [SemopEntry(SND_MUTEX, 1, Undo), SemopEntry(MEMORY, 1, Plain), SemopAdj(MEMORY, 2)])
  // Two arguments are passed, but the count is 1.
  const JOIN: ManyCall := ManyCall(1, [SemopEntry(SND_MUTEX, -1, Plain), SemopAdj(DATA, 2)])
  const P_DATA: ManyCall := ManyCall(1, [SemopEntry(DATA, -1, Plain)])
  const V_DATA: ManyCall := ManyCall(1, [SemopEntry(DATA, 1, Plain)])
  const P_MEMORY: ManyCall := ManyCall(1, [SemopEntry(MEMORY, -1, Plain)])
  const V_MEMORY: ManyCall := ManyCall(1, [SemopEntry(MEMORY, 1, Plain)])

  /** What the kernel makes of a semop_many call; None when the caller stays blocked. */
  function Call(values: seq<nat>, adj: seq<int>, call: ManyCall): (r: Option<Sems>)
    ensures r.Some? ==> |r.value.adj| == |r.value.values| == |values| == |adj|
  {
    if call.opsNr <= |call.args| && InBounds(Sems(values, adj), Expand(call.args[..call.opsNr]))
    then SemopMany(Sems(values, adj), call.opsNr, call.args)
    else None
  }

  /** Process end: semadj applied. */
  function Leave(values: seq<nat>, adj: seq<int>): seq<nat> {
    if |adj| == |values| then Exit(Sems(values, adj)) else values
  }

  function ReceiverCall(s: State, call: ManyCall, next: ReceiverPc): Option<State> {
    match Call(s.values, s.adjR, call)
    case None => None
    case Some(r) => Some(s.(values := r.values, adjR := r.adj, receiver := next))
  }

  function SenderCall(s: State, call: ManyCall, next: SenderPc): Option<State> {
    match Call(s.values, s.adjS, call)
    case None => None
    case Some(r) => Some(s.(values := r.values, adjS := r.adj, sender := next))
  }

  function ReceiverDeath(s: State, ok: bool): State {
    s.(values := Leave(s.values, s.adjR), receiver := RDead(ok))
  }

  function SenderDeath(s: State, ok: bool): State {
    s.(values := Leave(s.values, s.adjS), sender := SDead(ok))
  }

  /** One statement of the receiver; None where it blocks, where write() decides, or once it is dead. */
  function ReceiverRuns(s: State): Option<State> {
    match s.receiver
    case RLockOut => ReceiverCall(s, LOCK_OUT, RZero(1))
    case RZero(i) =>
      if i < |s.values|
      then Some(s.(values := s.values[i := 0], receiver := RZero(i + 1)))
      else Some(s.(receiver := RInitRcv))
    case RInitRcv => Some(s.(mem := s.mem.(rcv := RcvOk), receiver := RInitSnd))
    case RInitSnd => Some(s.(mem := s.mem.(snd := SndNotDone), receiver := RSetup))
    case RSetup => ReceiverCall(s, SETUP, RWait)
    case RWait => ReceiverCall(s, P_DATA, RSwitch)
    case RSwitch =>
      Some(s.(receiver := match s.mem.snd
                          case SndOk => RWrite
                          case SndEof => RExit(true)
                          case SndIoError => RExit(false)
                          case SndNotDone => RExit(false)))
    case RIoFlag => Some(s.(mem := s.mem.(rcv := RcvIoError), receiver := RExit(false)))
    case RSetOk => Some(s.(mem := s.mem.(rcv := RcvOk), receiver := RSetNot))
    case RSetNot => Some(s.(mem := s.mem.(snd := SndNotDone), receiver := RPost))
    case RPost => ReceiverCall(s, V_MEMORY, RWait)
    case RExit(ok) => Some(ReceiverDeath(s, ok))
    case RWrite => None
    case RDead(_) => None
  }

  function WriteReturns(s: State, n: nat): Option<State> {
    if s.receiver == RWrite && n <= s.mem.amount <= |s.mem.data| then
      Some(s.(output := s.output + s.mem.data[..n],
              receiver := if n == s.mem.amount then RSetOk else RIoFlag,
              lateWrites := if s.sender.SDead? then s.lateWrites + 1 else s.lateWrites))
    else None
  }

  /** One statement of the joined sender. At the end of its file read() returns 0. */
  function SenderRuns(s: State): Option<State> {
    match s.sender
    case SWait => SenderCall(s, P_MEMORY, SSwitch)
    case SSwitch => Some(s.(sender := if s.mem.rcv == RcvOk then SRead else SExit(false)))
    case SRead => if s.pos == |s.input| then Some(s.(sender := SSetEof)) else None
    case SReading(n) =>
      if s.pos + n <= |s.input| && n <= |s.mem.data| then
        Some(s.(mem := s.mem.(data := s.input[s.pos..s.pos + n] + s.mem.data[n..]),
                pos := s.pos + n,
                sender := SAmount(n),
                lateReads := if s.receiver.RDead? then s.lateReads + 1 else s.lateReads))
      else None
    case SAmount(n) => Some(s.(mem := s.mem.(amount := n), sender := SSetOk))
    case SSetOk => Some(s.(mem := s.mem.(snd := SndOk), sender := SReset))
    case SSetEof => Some(s.(mem := s.mem.(snd := SndEof), eof := true, sender := SReset))
    case SIoFlag => Some(s.(mem := s.mem.(snd := SndIoError), sender := SExit(false)))
    case SReset => Some(s.(mem := s.mem.(rcv := RcvNotDone), sender := SPost))
    case SPost => SenderCall(s, V_DATA, STest)
    case STest => Some(s.(sender := if s.mem.snd == SndEof then SExit(true) else SWait))
    case SExit(ok) => Some(SenderDeath(s, ok))
    case SNone => None
    case SDead(_) => None
  }

  function ReadStarts(s: State, n: nat, junk: Bytes): Option<State> {
    if s.sender == SRead && 1 <= n <= DATA_MAX && s.pos + n <= |s.input| && |junk| == |s.mem.data|
    then Some(s.(mem := s.mem.(data := junk), sender := SReading(n)))
    else None
  }

  /** A blocked sender gets past SND_MUTEX. It would take the place of any sender before it. */
  function SenderJoins(s: State, i: nat): Option<State> {
    if |s.blocked| <= i then None
    else
      match Call(s.values, NO_ADJ, JOIN)
      case None => None
      case Some(r) =>
        Some(s.(values := r.values, adjS := r.adj, sender := SWait, input := s.blocked[i], pos := 0,
                eof := false, joins := s.joins + 1, blocked := s.blocked[..i] + s.blocked[i + 1..]))
  }

  predicate SenderAlive(s: State) {
    !s.sender.SNone? && !s.sender.SDead?
  }

  /** The state after a step, None where the step cannot be taken. */
  function Next(s: State, step: Step): Option<State> {
    match step
    case ReceiverStep => ReceiverRuns(s)
    case Writes(n) => WriteReturns(s, n)
    case WriteFails => if s.receiver == RWrite then Some(s.(receiver := RIoFlag)) else None
    case ReceiverDies => if s.receiver.RDead? then None else Some(ReceiverDeath(s, false))
    case SenderStep => SenderRuns(s)
    case Reads(n, junk) => ReadStarts(s, n, junk)
    case ReadFails => if s.sender == SRead then Some(s.(sender := SIoFlag)) else None
    case SenderDies => if SenderAlive(s) then Some(SenderDeath(s, false)) else None
    case Joins(i) => SenderJoins(s, i)
    case BlockedDies(i) =>
      if i < |s.blocked| then Some(s.(blocked := s.blocked[..i] + s.blocked[i + 1..])) else None
  }

  ghost predicate Runs(steps: seq<Step>, s: State)
    decreases |steps|
  {
    if steps == [] then Init(s)
    else
      var last := |steps| - 1;
      exists before :: Runs(steps[..last], before) && Next(before, steps[last]) == Some(s)
  }

  /** The steps lead from s to t. */
  ghost predicate Leads(s: State, steps: seq<Step>, t: State)
    decreases |steps|
  {
    if steps == [] then t == s
    else
      var last := |steps| - 1;
      exists before :: Leads(s, steps[..last], before) && Next(before, steps[last]) == Some(t)
  }
}
