/**
 The handoff when nobody is killed and no read or write fails: every run ends, and it ends with the
 sender's whole file written and both processes having returned successfully.
 */
module HandoffCompletion {
  import opened Collections
  import opened SemOps
  import opened Handoff
  import opened HandoffInvariant
  import opened HandoffTheorems

  /** Nobody is killed, no read fails, and no write fails or is short. */
  predicate Calm(s: State, step: Step) {
    Smooth(s, step) && !step.SenderDies? && !step.BlockedDies? && !step.ReadFails?
  }

  ghost predicate RunsCalmly(start: State, steps: seq<Step>, s: State)
    decreases |steps|
  {
    if steps == [] then Init(start) && s == start
    else
      var last := |steps| - 1;
      exists before ::
        RunsCalmly(start, steps[..last], before) && Calm(before, steps[last]) && Next(before, steps[last]) == Some(s)
  }

  lemma {:induction false} CalmRunsAreRuns(start: State, steps: seq<Step>, s: State)
    requires RunsCalmly(start, steps, s)
    ensures Runs(steps, s) && Files(s) == multiset(start.blocked)
    decreases |steps|
  {
    if steps == [] {
      assert Files(s) == multiset(start.blocked);
    } else {
      var last := |steps| - 1;
      var before :| RunsCalmly(start, steps[..last], before) && Calm(before, steps[last]) &&
        Next(before, steps[last]) == Some(s);
      CalmRunsAreRuns(start, steps[..last], before);
      InvAlways(steps[..last], before);
      FilesKept(before, steps[last], s);
    }
  }

  // ---------- nothing has gone wrong ----------

  /** Nobody has met an error, and whoever has returned has done so at the end of the file. */
  predicate Untroubled(s: State) {
    && s.receiver != RIoFlag && s.receiver != RExit(false) && s.receiver != RDead(false)
    && s.sender != SIoFlag && s.sender != SExit(false) && s.sender != SDead(false)
    && (s.receiver == RDead(true) ==>
         s.eof && s.mem.snd == SndEof && (s.sender == STest || s.sender == SExit(true) || s.sender == SDead(true)))
    && (s.sender == SDead(true) ==> s.eof)
    && (s.sender == SDead(true) && !s.receiver.RDead? ==>
         s.mem.snd == SndEof && |s.values| == SEMAPHORE_COUNT && (s.values[DATA] == 1 || ReceiverInside(s.receiver)))
  }

  lemma CalmBegins(s: State, step: Step, t: State)
    requires Begins(s) && Calm(s, step) && Next(s, step) == Some(t)
    ensures Untroubled(t) && step == ReceiverStep && (Begins(t) || Lonely(t))
  {
    if step.Joins? {
      JoinCall(s.values, NO_ADJ);
    } else {
      BeginsRuns(s, t);
    }
  }

  lemma CalmLonely(s: State, step: Step, t: State)
    requires Lonely(s) && Calm(s, step) && Next(s, step) == Some(t)
    ensures Untroubled(t) && step.Joins? && Together(t)
    ensures t.sender == SWait && t.pos == 0 && !t.eof && t.values[MEMORY] == 1 && t.receiver == RWait
  {
    LonelySteps(s, step, t);
    PlainCall(s.values, s.adjR, DATA, -1);
    JoinCall(s.values, NO_ADJ);
  }

  // ---------- how much is left ----------

  /** The steps left from where the buffer is to the start of the next chunk, or to the receiver's return. */
  function BufferLeft(s: State): nat
    requires |s.values| == SEMAPHORE_COUNT
  {
    if s.receiver.RDead? then 0
    else if SenderInside(s.sender) then
      match s.sender
      case SSwitch => 10
      case SRead => 9
      case SReading(_) => 8
      case SAmount(_) => 22
      case SSetOk => 21
      case SSetEof => 8
      case SReset => if s.eof then 7 else 20
      case SPost => if s.eof then 6 else 19
      case _ => 0
    else if ReceiverInside(s.receiver) then
      match s.receiver
      case RSwitch => if s.eof then 2 else 16
      case RWrite => 15
      case RSetOk => 14
      case RSetNot => 13
      case RPost => 12
      case RExit(_) => 1
      case _ => 0
    else if s.values[DATA] == 1 then (if s.eof then 3 else 17)
    else 11
  }

  /** What a sender that has posted has left before it waits again or has returned. */
  function SenderRest(s: State): nat {
    match s.sender
    case STest => if s.eof then 2 else 1
    case SExit(_) => 1
    case _ => 0
  }

  /** Fifteen steps a byte, and the way from the present place. */
  function Left(s: State): int
    requires |s.values| == SEMAPHORE_COUNT
  {
    15 * (|s.input| - s.pos) + BufferLeft(s) + SenderRest(s)
  }

  /** The receiver's statements before anybody can join. */
  function SetupLeft(s: State): int {
    match s.receiver
    case RLockOut => 8
    case RZero(k) => 8 - k
    case RInitRcv => 3
    case RInitSnd => 2
    case RSetup => 1
    case _ => 0
  }

  // ---------- both alive ----------

  lemma CalmReceiverCalls(s: State, t: State)
    requires Together(s) && Untroubled(s) && ReceiverRuns(s) == Some(t) && (s.receiver == RWait || s.receiver == RPost)
    ensures Untroubled(t) && |t.values| == SEMAPHORE_COUNT && Left(t) < Left(s) && t.input == s.input
  {
    if s.receiver == RWait {
      PlainCall(s.values, s.adjR, DATA, -1);
    } else {
      PlainCall(s.values, s.adjR, MEMORY, 1);
    }
  }

  lemma CalmReceiverReturns(s: State, t: State)
    requires Together(s) && Untroubled(s) && ReceiverRuns(s) == Some(t) && s.receiver.RExit?
    ensures Untroubled(t) && |t.values| == SEMAPHORE_COUNT && Left(t) < Left(s) && t.input == s.input
  {}

  lemma CalmReceiverSwitches(s: State, t: State)
    requires Together(s) && Untroubled(s) && ReceiverRuns(s) == Some(t)
    requires s.receiver == RSwitch || s.receiver == RSetOk || s.receiver == RSetNot
    ensures Untroubled(t) && |t.values| == SEMAPHORE_COUNT && Left(t) < Left(s) && t.input == s.input
  {}

  lemma CalmReceiver(s: State, t: State)
    requires Together(s) && Untroubled(s) && ReceiverRuns(s) == Some(t)
    ensures Untroubled(t) && |t.values| == SEMAPHORE_COUNT && Left(t) < Left(s) && t.input == s.input
  {
    if s.receiver == RWait || s.receiver == RPost {
      CalmReceiverCalls(s, t);
    } else if s.receiver.RExit? {
      CalmReceiverReturns(s, t);
    } else {
      CalmReceiverSwitches(s, t);
    }
  }

  lemma CalmWrites(s: State, t: State)
    requires Together(s) && Untroubled(s) && WriteReturns(s, s.mem.amount) == Some(t)
    ensures Untroubled(t) && |t.values| == SEMAPHORE_COUNT && Left(t) < Left(s) && t.input == s.input
  {}

  lemma CalmSenderCalls(s: State, t: State)
    requires Together(s) && Untroubled(s) && SenderRuns(s) == Some(t) && (s.sender == SWait || s.sender == SPost)
    ensures Untroubled(t) && |t.values| == SEMAPHORE_COUNT && Left(t) < Left(s) && t.input == s.input
  {
    if s.sender == SWait {
      PlainCall(s.values, s.adjS, MEMORY, -1);
    } else {
      PlainCall(s.values, s.adjS, DATA, 1);
    }
  }

  lemma CalmSenderReturns(s: State, t: State)
    requires Together(s) && Untroubled(s) && SenderRuns(s) == Some(t) && s.sender.SExit?
    ensures Untroubled(t) && |t.values| == SEMAPHORE_COUNT && Left(t) < Left(s) && t.input == s.input
  {
    SenderLeaves(s.values);
  }

  /** The sender has nothing to give back. */
  lemma SenderLeaves(v: seq<nat>)
    requires |v| == SEMAPHORE_COUNT
    ensures Leave(v, NO_ADJ) == v
  {
    assert Exit(Sems(v, NO_ADJ)) == v;
  }

  lemma CalmSenderTests(s: State, t: State)
    requires Together(s) && Untroubled(s) && SenderRuns(s) == Some(t)
    requires s.sender == SSwitch || s.sender == SRead || s.sender == STest
    ensures Untroubled(t) && |t.values| == SEMAPHORE_COUNT && Left(t) < Left(s) && t.input == s.input
  {}

  lemma CalmSenderFlags(s: State, t: State)
    requires Together(s) && Untroubled(s) && SenderRuns(s) == Some(t)
    requires s.sender.SReading? || s.sender.SAmount? || s.sender == SSetOk || s.sender == SSetEof || s.sender == SReset
    ensures Untroubled(t) && |t.values| == SEMAPHORE_COUNT && Left(t) < Left(s) && t.input == s.input
  {}

  lemma CalmSender(s: State, t: State)
    requires Together(s) && Untroubled(s) && SenderRuns(s) == Some(t)
    ensures Untroubled(t) && |t.values| == SEMAPHORE_COUNT && Left(t) < Left(s) && t.input == s.input
  {
    if s.sender == SWait || s.sender == SPost {
      CalmSenderCalls(s, t);
    } else if s.sender.SExit? {
      CalmSenderReturns(s, t);
    } else if s.sender == SSwitch || s.sender == SRead || s.sender == STest {
      CalmSenderTests(s, t);
    } else {
      CalmSenderFlags(s, t);
    }
  }

  lemma CalmReads(s: State, n: nat, junk: Bytes, t: State)
    requires Together(s) && Untroubled(s) && ReadStarts(s, n, junk) == Some(t)
    ensures Untroubled(t) && |t.values| == SEMAPHORE_COUNT && Left(t) < Left(s) && t.input == s.input
  {}

  lemma CalmTogether(s: State, step: Step, t: State)
    requires Together(s) && Untroubled(s) && Calm(s, step) && Next(s, step) == Some(t)
    ensures Untroubled(t) && |t.values| == SEMAPHORE_COUNT && Left(t) < Left(s) && t.input == s.input
  {
    match step
    case ReceiverStep => CalmReceiver(s, t);
    case Writes(n) => CalmWrites(s, t);
    case SenderStep => CalmSender(s, t);
    case Reads(n, junk) => CalmReads(s, n, junk, t);
    case Joins(i) => JoinCall(s.values, NO_ADJ);
    case _ =>
  }

  // ---------- one has returned ----------

  lemma CalmSenderAlone(s: State, step: Step, t: State)
    requires SenderAlone(s) && Untroubled(s) && Calm(s, step) && Next(s, step) == Some(t)
    ensures Untroubled(t) && |t.values| == SEMAPHORE_COUNT && Left(t) < Left(s) && t.input == s.input
  {
    if step.Joins? {
      JoinCall(s.values, NO_ADJ);
    }
  }

  lemma CalmReceiverAlone(s: State, step: Step, t: State)
    requires ReceiverAlone(s) && Untroubled(s) && Calm(s, step) && Next(s, step) == Some(t)
    ensures Untroubled(t) && |t.values| == SEMAPHORE_COUNT && Left(t) < Left(s) && t.input == s.input
  {
    if step.Joins? {
      JoinCall(s.values, NO_ADJ);
    } else if s.receiver == RWait {
      ReceiverAloneWaits(s, t);
    } else {
      assert s.receiver == RSwitch || s.receiver == RExit(true);
    }
  }

  lemma CalmOver(s: State, step: Step)
    requires Over(s) && Untroubled(s) && Calm(s, step)
    ensures Next(s, step).None?
  {
    JoinCall(s.values, NO_ADJ);
  }

  lemma CalmJoined(s: State, step: Step, t: State)
    requires Inv(s) && Untroubled(s) && !s.sender.SNone? && Calm(s, step) && Next(s, step) == Some(t)
    ensures |s.values| == |t.values| == SEMAPHORE_COUNT && Untroubled(t) && Left(t) < Left(s) && t.input == s.input
  {
    if Together(s) {
      CalmTogether(s, step, t);
    } else if SenderAlone(s) {
      CalmSenderAlone(s, step, t);
    } else if ReceiverAlone(s) {
      CalmReceiverAlone(s, step, t);
    } else {
      CalmOver(s, step);
    }
  }

  lemma StaysJoined(s: State, step: Step, t: State)
    requires !s.sender.SNone? && Next(s, step) == Some(t)
    ensures !t.sender.SNone?
  {}

  // ---------- whole runs ----------

  /** How far a run of `count` steps has got. */
  ghost predicate Progressed(s: State, count: nat) {
    && Untroubled(s) && |s.values| == SEMAPHORE_COUNT
    && if s.sender.SNone? then (Begins(s) || Lonely(s)) && count + SetupLeft(s) <= 8
       else count + Left(s) <= 15 * |s.input| + 20
  }

  lemma ProgressStep(s: State, count: nat, step: Step, t: State)
    requires Inv(s) && Progressed(s, count) && Calm(s, step) && Next(s, step) == Some(t)
    ensures Progressed(t, count + 1)
  {
    if !s.sender.SNone? {
      CalmJoined(s, step, t);
      StaysJoined(s, step, t);
    } else if Begins(s) {
      CalmBegins(s, step, t);
    } else {
      CalmLonely(s, step, t);
    }
  }

  lemma {:induction false} ProgressAlways(start: State, steps: seq<Step>, s: State)
    requires RunsCalmly(start, steps, s)
    ensures Progressed(s, |steps|)
    decreases |steps|
  {
    if steps == [] {
      assert Begins(s);
    } else {
      var last := |steps| - 1;
      var before :| RunsCalmly(start, steps[..last], before) && Calm(before, steps[last]) &&
        Next(before, steps[last]) == Some(s);
      ProgressAlways(start, steps[..last], before);
      CalmRunsAreRuns(start, steps[..last], before);
      InvAlways(steps[..last], before);
      ProgressStep(before, last, steps[last], s);
    }
  }

  /** Every run ends: eight steps before anybody joins, and then at most fifteen a byte and twelve. */
  lemma {:induction false} CalmRunsAreBounded(start: State, steps: seq<Step>, s: State)
    requires RunsCalmly(start, steps, s)
    ensures |steps| <= if s.sender.SNone? then 8 else 15 * |s.input| + 20
  {
    ProgressAlways(start, steps, s);
    if !s.sender.SNone? {
      CalmRunsAreRuns(start, steps, s);
      InvAlways(steps, s);
      LeftIsNonnegative(s);
    }
  }

  lemma LeftIsNonnegative(s: State)
    requires Inv(s)
    ensures |s.values| == SEMAPHORE_COUNT && 0 <= Left(s)
  {
    assert s.pos <= |s.input|;
  }

  /** A step that both processes' moves are. */
  lemma CalmMove(s: State) returns (step: Step)
    requires ReceiverMove(s).Some? || SenderMove(s).Some?
    ensures Calm(s, step) && Next(s, step).Some?
  {
    if ReceiverMove(s).Some? {
      step := if s.receiver == RWrite then Writes(s.mem.amount) else ReceiverStep;
    } else {
      step := if s.sender == SRead && s.pos < |s.input| then Reads(1, s.mem.data) else SenderStep;
    }
  }

  lemma BeginsMoves(s: State)
    requires Begins(s)
    ensures ReceiverRuns(s).Some?
  {
    if s.receiver == RLockOut {
      LockOutCall(s.values, s.adjR);
    } else if s.receiver == RSetup {
      SetupCall(s.values, s.adjR);
    }
  }

  lemma AloneMoves(s: State)
    requires Untroubled(s) && (SenderAlone(s) || ReceiverAlone(s))
    ensures ReceiverMove(s).Some? || SenderMove(s).Some?
  {
    if ReceiverAlone(s) {
      LoneReceiverMoves(s);
    }
  }

  lemma SomebodyMoves(s: State)
    requires Inv(s) && Untroubled(s) && !Over(s) && !Lonely(s)
    ensures ReceiverMove(s).Some? || SenderMove(s).Some?
  {
    if Begins(s) {
      BeginsMoves(s);
    } else if Together(s) {
      TogetherMoves(s);
    } else {
      AloneMoves(s);
    }
  }

  /**
   A run that can go no further has written the whole file of one of the senders, the others are
   still blocked with theirs, and both processes have returned successfully; or there was no sender.
   */
  lemma {:induction false} CalmRunsComplete(start: State, steps: seq<Step>, s: State)
    requires RunsCalmly(start, steps, s) && forall step :: Calm(s, step) ==> Next(s, step).None?
    ensures if start.blocked == [] then s.receiver == RWait && s.sender == SNone && s.output == []
            else
              && s.receiver == RDead(true) && s.sender == SDead(true) && s.output == s.input
              && multiset(s.blocked) + multiset{s.output} == multiset(start.blocked)
  {
    ProgressAlways(start, steps, s);
    CalmRunsAreRuns(start, steps, s);
    InvAlways(steps, s);
    if Lonely(s) {
      JoinCall(s.values, NO_ADJ);
      assert Calm(s, Joins(0));
      assert |multiset(start.blocked)| == 0;
    } else {
      if !Over(s) {
        SomebodyMoves(s);
        var step := CalmMove(s);
      }
      assert s.input in multiset(start.blocked);
    }
  }
}
