/** What the handoff guarantees in every run of one session, whoever dies when. */
module HandoffTheorems {
  import opened Collections
  import opened SemOps
  import opened Handoff
  import opened HandoffInvariant

  // ---------- safety ----------

  /** The files of the senders that are blocked or have joined. */
  function Files(s: State): multiset<Bytes> {
    multiset(s.blocked) + if s.sender.SNone? then multiset{} else multiset{s.input}
  }

  /** Joining takes one blocked sender's file along; only a death in the queue takes a file away. */
  lemma FilesKept(s: State, step: Step, t: State)
    requires Inv(s) && Next(s, step) == Some(t)
    ensures if step.BlockedDies? then Files(t) <= Files(s) else Files(t) == Files(s)
  {
    match step
    case Joins(i) =>
      JoinsFirst(s, i);
      JoinTakesFile(s, i, t);
    case BlockedDies(i) => BlockedTakesFile(s, i, t);
    case _ => OthersKeepFiles(s, step, t);
  }

  lemma JoinTakesFile(s: State, i: nat, t: State)
    requires s.sender.SNone? && SenderJoins(s, i) == Some(t)
    ensures Files(t) == Files(s)
  {
    TakenOut(s.blocked, i);
  }

  lemma BlockedTakesFile(s: State, i: nat, t: State)
    requires i < |s.blocked| && t == s.(blocked := s.blocked[..i] + s.blocked[i + 1..])
    ensures Files(t) <= Files(s)
  {
    TakenOut(s.blocked, i);
  }

  lemma JoinsFirst(s: State, i: nat)
    requires Inv(s) && SenderJoins(s, i).Some?
    ensures s.sender.SNone? && s.receiver == RWait
  {
    JoinCall(s.values, NO_ADJ);
  }

  lemma TakenOut(files: seq<Bytes>, i: nat)
    requires i < |files|
    ensures multiset(files[..i] + files[i + 1..]) + multiset{files[i]} == multiset(files)
  {
    assert files == files[..i] + [files[i]] + files[i + 1..];
  }

  lemma OthersKeepFiles(s: State, step: Step, t: State)
    requires Next(s, step) == Some(t) && !step.Joins? && !step.BlockedDies?
    ensures t.blocked == s.blocked && t.input == s.input && (t.sender.SNone? <==> s.sender.SNone?)
  {
    match step
    case ReceiverStep => ReceiverKeepsFiles(s, t);
    case SenderStep => SenderKeepsFiles(s, t);
    case _ =>
  }

  lemma ReceiverKeepsFiles(s: State, t: State)
    requires ReceiverRuns(s) == Some(t)
    ensures t.blocked == s.blocked && t.input == s.input && t.sender == s.sender && t.pos == s.pos && t.eof == s.eof
  {}

  lemma SenderKeepsFiles(s: State, t: State)
    requires SenderRuns(s) == Some(t)
    ensures t.blocked == s.blocked && t.input == s.input && !s.sender.SNone? && !t.sender.SNone?
  {}

  lemma {:induction false} LeadsRuns(start: State, steps: seq<Step>, s: State)
    requires Init(start) && Leads(start, steps, s)
    ensures Runs(steps, s)
    decreases |steps|
  {
    if steps != [] {
      var last := |steps| - 1;
      var before :| Leads(start, steps[..last], before) && Next(before, steps[last]) == Some(s);
      LeadsRuns(start, steps[..last], before);
    }
  }

  lemma {:induction false} FilesAlways(start: State, steps: seq<Step>, s: State)
    requires Init(start) && Leads(start, steps, s)
    ensures Files(s) <= multiset(start.blocked)
    decreases |steps|
  {
    if steps == [] {
      assert Files(s) == multiset(start.blocked);
    } else {
      var last := |steps| - 1;
      var before :| Leads(start, steps[..last], before) && Next(before, steps[last]) == Some(s);
      FilesAlways(start, steps[..last], before);
      LeadsRuns(start, steps[..last], before);
      InvAlways(steps[..last], before);
      FilesKept(before, steps[last], s);
    }
  }

  /** A sender that returns, or has returned, successfully has met the end of its file. */
  predicate EndedAtEof(s: State) {
    s.sender == SExit(true) || s.sender == SDead(true) ==> s.eof && s.pos == |s.input|
  }

  lemma TestFindsEof(s: State)
    requires Inv(s) && s.sender == STest && s.mem.snd == SndEof
    ensures s.eof && s.pos == |s.input|
  {}

  lemma EndedAtEofKeptBySender(s: State, t: State)
    requires Inv(s) && EndedAtEof(s) && SenderRuns(s) == Some(t)
    ensures EndedAtEof(t)
  {
    if s.sender == STest && s.mem.snd == SndEof {
      TestFindsEof(s);
    }
  }

  lemma EndedAtEofKept(s: State, step: Step, t: State)
    requires Inv(s) && EndedAtEof(s) && Next(s, step) == Some(t)
    ensures EndedAtEof(t)
  {
    match step
    case SenderStep => EndedAtEofKeptBySender(s, t);
    case ReceiverStep => ReceiverKeepsFiles(s, t);
    case _ =>
  }

  lemma {:induction false} EndedAtEofAlways(steps: seq<Step>, s: State)
    requires Runs(steps, s)
    ensures EndedAtEof(s)
    decreases |steps|
  {
    if steps != [] {
      var last := |steps| - 1;
      var before :| Runs(steps[..last], before) && Next(before, steps[last]) == Some(s);
      EndedAtEofAlways(steps[..last], before);
      InvAlways(steps[..last], before);
      EndedAtEofKept(before, steps[last], s);
    }
  }

  /**
   Every sender has its own file: those still blocked, and the one that has joined. What the receiver
   has written is at every moment a prefix of the joined sender's file. The receiver returns
   successfully only when it has written all of it, the sender only when it has read all of it.
   */
  lemma {:induction false} OutputIsPrefix(start: State, steps: seq<Step>, s: State)
    requires Init(start) && Leads(start, steps, s)
    ensures multiset(s.blocked) + (if s.sender.SNone? then multiset{} else multiset{s.input}) <= multiset(start.blocked)
    ensures s.sender.SNone? ==> s.output == []
    ensures !s.sender.SNone? ==> s.input in start.blocked && s.output <= s.input
    ensures s.receiver == RDead(true) ==> s.output == s.input && !s.sender.SNone?
    ensures s.sender == SDead(true) ==> s.eof && s.pos == |s.input|
  {
    LeadsRuns(start, steps, s);
    InvAlways(steps, s);
    FilesAlways(start, steps, s);
    EndedAtEofAlways(steps, s);
    if Together(s) {
      TogetherPrefix(s);
    }
    if !s.sender.SNone? {
      assert s.input in multiset(start.blocked);
    }
  }

  /** While both processes live they are never both between their P and V. */
  lemma {:induction false} BufferIsExclusive(steps: seq<Step>, s: State)
    requires Runs(steps, s) && !s.receiver.RDead? && SenderAlive(s)
    ensures !(ReceiverInside(s.receiver) && SenderInside(s.sender))
    ensures |s.values| == SEMAPHORE_COUNT
    ensures ReceiverInside(s.receiver) || SenderInside(s.sender) ==> s.values[MEMORY] == s.values[DATA] == 0
  {
    InvAlways(steps, s);
  }

  /** A chunk is written only in full agreement with the file: it is exactly the part read last. */
  lemma {:induction false} WritesWholeChunks(steps: seq<Step>, s: State)
    requires Runs(steps, s) && s.receiver == RWrite
    ensures 1 <= s.mem.amount <= |s.mem.data| == 23 && s.pos <= |s.input|
    ensures s.output + s.mem.data[..s.mem.amount] == s.input[..s.pos]
  {
    InvAlways(steps, s);
  }

  /** The sender's test after V DATA leaves the loop exactly when the sender itself met end of file. */
  lemma {:induction false} EofTestIsReliable(steps: seq<Step>, s: State)
    requires Runs(steps, s) && s.sender == STest
    ensures SenderRuns(s).Some?
    ensures SenderRuns(s).value.sender == SExit(true) <==> s.eof
    ensures s.eof ==> s.pos == |s.input|
  {
    InvAlways(steps, s);
  }

  /** At most one sender ever gets past SND_MUTEX in a session, and only while the receiver waits for it. */
  lemma {:induction false} OneSenderJoins(steps: seq<Step>, s: State, i: nat)
    requires Runs(steps, s)
    ensures s.joins <= 1
    ensures SenderJoins(s, i).Some? ==> s.sender.SNone? && s.receiver == RWait
  {
    InvAlways(steps, s);
    if SenderJoins(s, i).Some? {
      JoinsFirst(s, i);
    }
  }

  // ---------- progress ----------

  /** The step a process takes when nothing goes wrong with its files. */
  function ReceiverMove(s: State): Option<State> {
    if s.receiver == RWrite then WriteReturns(s, s.mem.amount) else ReceiverRuns(s)
  }

  function SenderMove(s: State): Option<State> {
    if s.sender == SRead && s.pos < |s.input| then ReadStarts(s, 1, s.mem.data) else SenderRuns(s)
  }

  /** With both alive one of them can always go on: the buffer is somewhere. */
  lemma {:induction false} NeverBothBlocked(steps: seq<Step>, s: State)
    requires Runs(steps, s) && !s.receiver.RDead? && SenderAlive(s)
    ensures ReceiverMove(s).Some? || SenderMove(s).Some?
  {
    InvAlways(steps, s);
    TogetherMoves(s);
  }

  lemma TogetherMoves(s: State)
    requires Together(s)
    ensures ReceiverMove(s).Some? || SenderMove(s).Some?
  {
    PlainCall(s.values, s.adjR, DATA, -1);
    PlainCall(s.values, s.adjR, MEMORY, 1);
    PlainCall(s.values, s.adjS, MEMORY, -1);
    PlainCall(s.values, s.adjS, DATA, 1);
  }

  predicate BySender(step: Step) {
    step.SenderStep? || step.Reads? || step.ReadFails?
  }

  predicate ByReceiver(step: Step) {
    step.ReceiverStep? || step.Writes? || step.WriteFails?
  }

  /** How many steps a lone sender has left at most. */
  function SenderLeft(s: State): nat {
    var again := if s.mem.rcv == RcvOk then 14 else 0;
    match s.sender
    case SNone => 0
    case SDead(_) => 0
    case SExit(_) => 1
    case SIoFlag => 2
    case SSwitch => again + 2
    case SWait => again + 3
    case STest => again + 4
    case SPost => again + 5
    case SReset => 6
    case SSetOk => 7
    case SSetEof => 7
    case SAmount(_) => 8
    case SReading(_) => 9
    case SRead => 10
  }

  /**
   Once the receiver is dead its sender never blocks again, and every step brings it closer to its
   exit, which is at most 18 steps away; on the way it reads at most one more chunk.
   */
  lemma {:induction false} LoneSenderFinishes(steps: seq<Step>, s: State)
    requires Runs(steps, s) && s.receiver.RDead? && SenderAlive(s)
    ensures SenderMove(s).Some?
    ensures forall step: Step | BySender(step) && Next(s, step).Some? :: SenderLeft(Next(s, step).value) < SenderLeft(s)
    ensures SenderLeft(s) <= 18 && s.lateReads <= 1
  {
    InvAlways(steps, s);
    PlainCall(s.values, s.adjS, MEMORY, -1);
    PlainCall(s.values, s.adjS, DATA, 1);
    forall step: Step | BySender(step) && Next(s, step).Some?
      ensures SenderLeft(Next(s, step).value) < SenderLeft(s)
    {
      LoneSenderStep(s, step, Next(s, step).value);
    }
  }

  lemma LoneSenderStep(s: State, step: Step, t: State)
    requires SenderAlone(s) && BySender(step) && Next(s, step) == Some(t)
    ensures SenderLeft(t) < SenderLeft(s)
  {
    if step.SenderStep? && (s.sender == SWait || s.sender == SPost) {
      LoneSenderCall(s, t);
    }
  }

  lemma LoneSenderCall(s: State, t: State)
    requires SenderAlone(s) && SenderRuns(s) == Some(t) && (s.sender == SWait || s.sender == SPost)
    ensures SenderLeft(t) < SenderLeft(s)
  {
    PlainCall(s.values, s.adjS, MEMORY, -1);
    PlainCall(s.values, s.adjS, DATA, 1);
  }

  // ---------- a receiver without its sender ----------

  /** The receiver waits in P DATA, and DATA is zero. */
  predicate Stranded(s: State)
    requires |s.values| == SEMAPHORE_COUNT
  {
    s.receiver == RWait && s.values[DATA] == 0
  }

  /** How many steps a lone receiver has left at most, until it is stranded or gone. */
  function ReceiverLeft(s: State): nat
    requires |s.values| == SEMAPHORE_COUNT
  {
    match s.receiver
    case RDead(_) => 0
    case RExit(_) => 1
    case RIoFlag => 2
    case RPost => 1
    case RSetNot => 2
    case RSetOk => 3
    case RWrite => 4
    case RSwitch => 5
    case RWait => if s.values[DATA] == 0 then 0 else 6
    case _ => 0
  }

  lemma LoneReceiverStep(s: State, step: Step, t: State)
    requires ReceiverAlone(s) && ByReceiver(step) && Next(s, step) == Some(t)
    ensures |t.values| == SEMAPHORE_COUNT && ReceiverLeft(t) < ReceiverLeft(s)
  {
    if s.receiver == RWait {
      ReceiverAloneWaits(s, t);
    } else if s.receiver == RPost {
      ReceiverAlonePosts(s, t);
    }
  }

  /**
   A receiver whose sender is dead goes on exactly as long as it is not stranded, for at most six
   steps of its own, in which it writes at most one more chunk.
   */
  lemma {:induction false} LoneReceiverStops(steps: seq<Step>, s: State)
    requires Runs(steps, s) && s.sender.SDead? && !s.receiver.RDead?
    ensures |s.values| == SEMAPHORE_COUNT
    ensures ReceiverMove(s).None? <==> Stranded(s)
    ensures forall step: Step | ByReceiver(step) && Next(s, step).Some? ::
      |Next(s, step).value.values| == SEMAPHORE_COUNT && ReceiverLeft(Next(s, step).value) < ReceiverLeft(s)
    ensures ReceiverLeft(s) <= 6 && s.lateWrites <= 1
  {
    InvAlways(steps, s);
    LoneReceiverMoves(s);
    forall step: Step | ByReceiver(step) && Next(s, step).Some?
      ensures |Next(s, step).value.values| == SEMAPHORE_COUNT && ReceiverLeft(Next(s, step).value) < ReceiverLeft(s)
    {
      LoneReceiverStep(s, step, Next(s, step).value);
    }
  }

  lemma LoneReceiverMoves(s: State)
    requires ReceiverAlone(s)
    ensures ReceiverMove(s).None? <==> Stranded(s)
  {
    PlainCall(s.values, s.adjR, DATA, -1);
    PlainCall(s.values, s.adjR, MEMORY, 1);
  }

  /** What becomes of a receiver whose sender is dead. */
  datatype Fate = Completes | GivesUp | WaitsForever

  /**
   It completes if the sender had posted the end of its file, that is, SND_EOF is set and V DATA
   done; it gives up if a write has failed; otherwise it waits.
   */
  function FateOf(s: State): Fate
    requires |s.values| == SEMAPHORE_COUNT
  {
    if s.receiver.RDead? || s.receiver.RExit? then (if s.receiver.ok then Completes else GivesUp)
    else if s.receiver == RIoFlag then GivesUp
    else if s.mem.snd == SndEof && (s.values[DATA] == 1 || ReceiverInside(s.receiver)) then Completes
    else WaitsForever
  }

  /** Nobody kills the receiver, and no write fails or is short. */
  predicate Smooth(s: State, step: Step) {
    !step.ReceiverDies? && !step.WriteFails? && (step.Writes? ==> step.n == s.mem.amount)
  }

  ghost predicate LeadsSmoothly(s: State, steps: seq<Step>, t: State)
    decreases |steps|
  {
    if steps == [] then t == s
    else
      var last := |steps| - 1;
      exists before ::
        LeadsSmoothly(s, steps[..last], before) && Smooth(before, steps[last]) && Next(before, steps[last]) == Some(t)
  }

  /** The sender is dead. */
  ghost predicate SenderGone(s: State) {
    ReceiverAlone(s) || (Over(s) && s.sender.SDead?)
  }

  lemma NobodyJoins(s: State, i: nat)
    requires SenderGone(s)
    ensures SenderJoins(s, i).None?
  {
    JoinCall(s.values, NO_ADJ);
  }

  lemma SenderGoneStep(s: State, step: Step, t: State)
    requires SenderGone(s) && Next(s, step) == Some(t)
    ensures SenderGone(t)
  {
    if step.Joins? {
      NobodyJoins(s, step.i);
    } else if ReceiverAlone(s) {
      ReceiverAloneSteps(s, step, t);
    } else {
      OverSteps(s, step, t);
    }
  }

  lemma FateKeptByReceiver(s: State, t: State)
    requires ReceiverAlone(s) && ReceiverRuns(s) == Some(t) && |t.values| == SEMAPHORE_COUNT
    ensures FateOf(t) == FateOf(s)
  {
    if s.receiver == RWait {
      ReceiverAloneWaits(s, t);
    } else if s.receiver == RPost {
      ReceiverAlonePosts(s, t);
    }
  }

  lemma FateKept(s: State, step: Step, t: State)
    requires SenderGone(s) && Smooth(s, step) && Next(s, step) == Some(t)
    ensures SenderGone(t) && FateOf(t) == FateOf(s)
  {
    SenderGoneStep(s, step, t);
    match step
    case ReceiverStep => FateKeptByReceiver(s, t);
    case Joins(i) => NobodyJoins(s, i);
    case _ =>
  }

  lemma {:induction false} FateKeptOverRuns(s: State, steps: seq<Step>, t: State)
    requires SenderGone(s) && LeadsSmoothly(s, steps, t)
    ensures SenderGone(t) && FateOf(t) == FateOf(s)
    decreases |steps|
  {
    if steps != [] {
      var last := |steps| - 1;
      var before :|
        LeadsSmoothly(s, steps[..last], before) && Smooth(before, steps[last]) && Next(before, steps[last]) == Some(t);
      FateKeptOverRuns(s, steps[..last], before);
      FateKept(before, steps[last], t);
    }
  }

  /**
   The state at the sender's death decides. When, undisturbed, the receiver can go no further, it
   has succeeded exactly if the end of the file had been posted, it has given up exactly if a write
   had failed, and in every other case it is stranded.
   */
  lemma {:induction false} FateIsDecided(steps: seq<Step>, s: State, more: seq<Step>, t: State)
    requires Runs(steps, s) && s.sender.SDead? && !s.receiver.RDead?
    requires LeadsSmoothly(s, more, t) && (t.receiver.RDead? || ReceiverMove(t).None?)
    ensures |s.values| == |t.values| == SEMAPHORE_COUNT
    ensures t.receiver == RDead(true) <==> FateOf(s) == Completes
    ensures t.receiver == RDead(false) <==> FateOf(s) == GivesUp
    ensures Stranded(t) <==> FateOf(s) == WaitsForever
    ensures t.receiver == RDead(true) ==> t.output == t.input
  {
    InvAlways(steps, s);
    FateKeptOverRuns(s, more, t);
    if ReceiverAlone(t) {
      LoneReceiverMoves(t);
    }
  }

  /** A stranded receiver whose sender is dead stays where it is until somebody kills it. */
  lemma {:induction false} StrandedForGood(steps: seq<Step>, s: State, more: seq<Step>, t: State)
    requires Runs(steps, s) && s.sender.SDead? && |s.values| == SEMAPHORE_COUNT && Stranded(s)
    requires Leads(s, more, t) && ReceiverDies !in more
    ensures |t.values| == SEMAPHORE_COUNT && Stranded(t) && t.output == s.output && t.sender.SDead?
    decreases |more|
  {
    InvAlways(steps, s);
    StrandedStays(s, more, t);
  }

  lemma {:induction false} StrandedStays(s: State, more: seq<Step>, t: State)
    requires ReceiverAlone(s) && Stranded(s) && Leads(s, more, t) && ReceiverDies !in more
    ensures ReceiverAlone(t) && Stranded(t) && t.output == s.output
    decreases |more|
  {
    if more != [] {
      var last := |more| - 1;
      var before :| Leads(s, more[..last], before) && Next(before, more[last]) == Some(t);
      assert forall step :: step in more[..last] ==> step in more;
      StrandedStays(s, more[..last], before);
      StrandedStep(before, more[last], t);
    }
  }

  lemma StrandedStep(s: State, step: Step, t: State)
    requires ReceiverAlone(s) && Stranded(s) && Next(s, step) == Some(t) && !step.ReceiverDies?
    ensures ReceiverAlone(t) && Stranded(t) && t.output == s.output
  {
    PlainCall(s.values, s.adjR, DATA, -1);
    JoinCall(s.values, NO_ADJ);
    assert step.BlockedDies?;
  }

  /** A sender that fails to read leaves the receiver stranded: its flag SND_IOERROR is never looked at. */
  lemma {:induction false} ReadErrorStrands(steps: seq<Step>, s: State)
    requires Runs(steps, s) && (s.sender == SIoFlag || s.sender == SExit(false)) && !s.receiver.RDead?
    ensures |s.values| == SEMAPHORE_COUNT && Stranded(s) && |SenderDeath(s, false).values| == SEMAPHORE_COUNT
    ensures SenderDeath(s, false).receiver == RWait && FateOf(SenderDeath(s, false)) == WaitsForever
  {
    InvAlways(steps, s);
    TogetherSenderDies(s, false);
  }

  /** The receiver's switch only ever finds a chunk or the end of the file. */
  lemma {:induction false} SwitchFindsChunkOrEnd(steps: seq<Step>, s: State)
    requires Runs(steps, s) && s.receiver == RSwitch
    ensures s.mem.snd == SndOk || s.mem.snd == SndEof
  {
    InvAlways(steps, s);
  }

  // ---------- the shortest run into a stranded receiver ----------

  lemma RunsSnoc(steps: seq<Step>, s: State, step: Step, t: State)
    requires Runs(steps, s) && Next(s, step) == Some(t)
    ensures Runs(steps + [step], t)
  {
    assert (steps + [step])[..|steps|] == steps;
  }

  /** The receiver after k of its statements, with one sender about to join. */
  function SettingUp(file: Bytes, mem: Shared, k: nat): State {
    State(
      if k == 0 then [0, 0, 0, 0] else if k <= 7 then [1, 0, 0, 0] else [1, 1, 1, 0],
      if k == 0 then NO_ADJ else if k <= 7 then [-1, 0, 0, 0] else [-1, -1, 2, 0],
      NO_ADJ,
      if k <= 5 then mem else if k == 6 then mem.(rcv := RcvOk) else mem.(rcv := RcvOk, snd := SndNotDone),
      if k == 0 then RLockOut else if k <= 4 then RZero(k) else if k == 5 then RInitRcv
      else if k == 6 then RInitSnd else if k == 7 then RSetup else RWait,
      SNone, [file], [], 0, [], false, 0, 0, 0)
  }

  lemma SettingUpLocks(file: Bytes, mem: Shared)
    ensures ReceiverRuns(SettingUp(file, mem, 0)) == Some(SettingUp(file, mem, 1))
  {
    var zeros: seq<nat>, locked: seq<nat> := [0, 0, 0, 0], [1, 0, 0, 0];
    LockOutCall(zeros, NO_ADJ);
    assert zeros[RCV_MUTEX := 1] == locked && NO_ADJ[RCV_MUTEX := -1] == [-1, 0, 0, 0];
  }

  lemma SettingUpOpens(file: Bytes, mem: Shared)
    ensures ReceiverRuns(SettingUp(file, mem, 7)) == Some(SettingUp(file, mem, 8))
  {
    var locked: seq<nat>, open: seq<nat>, adj: seq<int> := [1, 0, 0, 0], [1, 1, 1, 0], [-1, 0, 0, 0];
    SetupCall(locked, adj);
    assert locked[SND_MUTEX := 1][MEMORY := 1] == open && adj[SND_MUTEX := -1][MEMORY := 2] == [-1, -1, 2, 0];
  }

  lemma SettingUpAssigns(file: Bytes, mem: Shared, k: nat)
    requires 0 < k < 7
    ensures ReceiverRuns(SettingUp(file, mem, k)) == Some(SettingUp(file, mem, k + 1))
  {
    assert k < 4 ==> [1, 0, 0, 0][k := 0] == [1, 0, 0, 0];
  }

  /** The receiver's first statements, up to its wait in P DATA. */
  lemma {:induction false} ReceiverSetsUp(file: Bytes, mem: Shared, k: nat) returns (steps: seq<Step>)
    requires |mem.data| == DATA_MAX && k <= 8
    ensures |steps| == k && Runs(steps, SettingUp(file, mem, k))
  {
    if k == 0 {
      return [];
    }
    steps := ReceiverSetsUp(file, mem, k - 1);
    if k == 1 {
      SettingUpLocks(file, mem);
    } else if k < 8 {
      SettingUpAssigns(file, mem, k - 1);
    } else {
      SettingUpOpens(file, mem);
    }
    RunsSnoc(steps, SettingUp(file, mem, k - 1), ReceiverStep, SettingUp(file, mem, k));
    steps := steps + [ReceiverStep];
  }

  /** The sender has joined, and has died. */
  function JoinedAndDead(file: Bytes, mem: Shared): State {
    SettingUp(file, mem, 8).(values := [1, 0, 1, 0], sender := SDead(false), input := file, joins := 1, blocked := [])
  }

  lemma SenderDiesAtOnce(file: Bytes, mem: Shared, joined: State)
    requires joined == JoinedAndDead(file, mem).(sender := SWait)
    ensures Next(joined, SenderDies) == Some(JoinedAndDead(file, mem))
  {
    assert Exit(Sems(joined.values, NO_ADJ)) == joined.values;
  }

  lemma SenderJoinsFirst(file: Bytes, mem: Shared) returns (joined: State)
    ensures Next(SettingUp(file, mem, 8), Joins(0)) == Some(joined)
    ensures joined == JoinedAndDead(file, mem).(sender := SWait)
  {
    var open: seq<nat>, taken: seq<nat> := [1, 1, 1, 0], [1, 0, 1, 0];
    JoinCall(open, NO_ADJ);
    assert open[SND_MUTEX := 0] == taken;
    joined := JoinedAndDead(file, mem).(sender := SWait);
    assert [file][..0] + [file][1..] == [];
  }

  lemma OnlyKillingIsLeft(s: State, step: Step)
    requires s.receiver == RWait && s.sender.SDead? && s.blocked == []
    requires |s.values| == |s.adjR| == SEMAPHORE_COUNT && Stranded(s) && Next(s, step).Some?
    ensures step == ReceiverDies
  {
    PlainCall(s.values, s.adjR, DATA, -1);
  }

  /**
   For every file: the receiver sets up, a sender joins and dies at once. From then on the only
   step anybody can take is to kill the receiver.
   */
  lemma DeadSenderStrands(file: Bytes, mem: Shared) returns (steps: seq<Step>, s: State)
    requires |mem.data| == DATA_MAX
    ensures |steps| == 10 && Runs(steps, s) && s.sender.SDead?
    ensures |s.values| == SEMAPHORE_COUNT && Stranded(s) && s.output == [] && s.input == file
    ensures forall step :: Next(s, step).Some? ==> step == ReceiverDies
  {
    steps := ReceiverSetsUp(file, mem, 8);
    var joined := SenderJoinsFirst(file, mem);
    s := JoinedAndDead(file, mem);
    SenderDiesAtOnce(file, mem, joined);
    RunsSnoc(steps, SettingUp(file, mem, 8), Joins(0), joined);
    steps := steps + [Joins(0)];
    RunsSnoc(steps, joined, SenderDies, s);
    steps := steps + [SenderDies];
    forall step | Next(s, step).Some?
      ensures step == ReceiverDies
    {
      OnlyKillingIsLeft(s, step);
    }
  }
}
