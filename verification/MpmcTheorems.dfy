/**
 What the runs of mpmc.c amount to: documents leave in the order they entered, a run that can go no
 further has delivered every document exactly once, when that is so, and how long a run can be.
 */
module MpmcTheorems {
  import opened Collections
  import opened RingQueue
  import opened Mpmc
  import opened MpmcInvariant

  // ---------- order ----------

  lemma OrderFromInv(cfg: Config, s: State)
    requires InvRing(cfg, s) && InvProducers(cfg, s)
    ensures s.retrieved <= s.inserted
    ensures |s.inserted| - |s.retrieved| <= |s.ring.slots|
    ensures forall p :: 0 <= p < cfg.producers ==>
      ByProducer(s.inserted, p) == FirstDocuments(p, Stored(s.producers[p]))
  {}

  /**
   In every reachable state the retrieved documents are the oldest inserted ones, in that order,
   at most a ring's worth is missing, and each producer's own documents appear in order.
   */
  lemma {:induction false} RetrievedInInsertionOrder(cfg: Config, steps: seq<Step>, s: State)
    requires Runs(cfg, steps, s)
    ensures s.retrieved <= s.inserted
    ensures |s.inserted| - |s.retrieved| <= cfg.size
    ensures |s.producers| == cfg.producers
    ensures forall p :: 0 <= p < cfg.producers ==>
      0 <= Stored(s.producers[p]) <= cfg.amount &&
        ByProducer(s.inserted, p) == FirstDocuments(p, Stored(s.producers[p]))
  {
    InvAlways(cfg, steps, s);
    OrderFromInv(cfg, s);
  }

  /** Two threads, main among them, are never inside their critical sections at once. */
  lemma {:induction false} MutualExclusion(cfg: Config, steps: seq<Step>, s: State)
    requires Runs(cfg, steps, s)
    ensures forall p, q | 0 <= p < |s.producers| && 0 <= q < |s.producers| ::
      ProducerHolds(s.producers[p].pc) && ProducerHolds(s.producers[q].pc) ==> p == q
    ensures forall c, d | 0 <= c < |s.consumers| && 0 <= d < |s.consumers| ::
      ConsumerHolds(s.consumers[c].pc) && ConsumerHolds(s.consumers[d].pc) ==> c == d
    ensures forall p, c | 0 <= p < |s.producers| && 0 <= c < |s.consumers| ::
      ProducerHolds(s.producers[p].pc) ==> !ConsumerHolds(s.consumers[c].pc)
    ensures forall p | 0 <= p < |s.producers| :: MainHolds(s.main) ==> !ProducerHolds(s.producers[p].pc)
    ensures forall c | 0 <= c < |s.consumers| :: MainHolds(s.main) ==> !ConsumerHolds(s.consumers[c].pc)
  {
    InvAlways(cfg, steps, s);
  }

  /** No wakeup is lost: a sleeper whose condition has come true has somebody awake to see to it. */
  lemma {:induction false} NoLostWakeup(cfg: Config, steps: seq<Step>, s: State)
    requires Runs(cfg, steps, s)
    ensures InvUnderflow(s) && InvOverflow(cfg, s)
  {
    InvAlways(cfg, steps, s);
  }

  // ---------- deadlock freedom ----------

  /** Either the ring and a consumer keep documents moving, or the ring has room for all of them. */
  predicate Completable(cfg: Config) {
    (1 <= cfg.size && 1 <= cfg.consumers) || cfg.producers * cfg.amount <= cfg.size
  }

  lemma HolderCanStep(cfg: Config, s: State)
    requires Inv(cfg, s) && s.lock != Free
    ensures !Stuck(cfg, s)
  {
    match s.lock
    case HeldByProducer(p) => assert Enabled(cfg, s, ProducerStep(p, 0));
    case HeldByConsumer(c) => assert Enabled(cfg, s, ConsumerStep(c, 0));
    case HeldByMain => assert Enabled(cfg, s, MainStep);
    case Free =>
  }

  /** With the mutex free, only sleeping and finished threads cannot step. */
  lemma BlockedProducer(cfg: Config, s: State, p: nat)
    requires InvLock(cfg, s) && s.lock == Free && Stuck(cfg, s) && p < |s.producers|
    ensures s.producers[p].pc == PWait || s.producers[p].pc == PDone
  {
    var woken: nat := 0;
    if SomeConsumerWaits(s) {
      woken :| woken < |s.consumers| && s.consumers[woken].pc == CWait;
    }
    assert !Enabled(cfg, s, ProducerStep(p, woken));
  }

  lemma BlockedConsumer(cfg: Config, s: State, c: nat)
    requires InvLock(cfg, s) && s.lock == Free && Stuck(cfg, s) && c < |s.consumers|
    ensures s.consumers[c].pc == CWait || s.consumers[c].pc == CDone
  {
    var woken: nat := 0;
    if SomeProducerWaits(s) {
      woken :| woken < |s.producers| && s.producers[woken].pc == PWait;
    }
    assert !Enabled(cfg, s, ConsumerStep(c, woken));
  }

  lemma {:induction false} StoredBound(ps: seq<Producer>, amount: nat)
    requires forall p :: 0 <= p < |ps| ==> Stored(ps[p]) <= amount
    ensures Total(ps, Stored) <= |ps| * amount
    ensures (exists p :: 0 <= p < |ps| && Stored(ps[p]) < amount) ==> Total(ps, Stored) < |ps| * amount
  {
    if ps != [] {
      StoredBound(ps[1..], amount);
      assert |ps| * amount == amount + |ps[1..]| * amount;
      if exists p :: 0 <= p < |ps| && Stored(ps[p]) < amount {
        var p :| 0 <= p < |ps| && Stored(ps[p]) < amount;
        assert p > 0 ==> ps[1..][p - 1] == ps[p];
      }
    }
  }

  /** Nobody can be asleep for good: with everyone blocked, the two wakeup balances clash. */
  lemma NobodySleepsForGood(cfg: Config, s: State)
    requires Inv(cfg, s) && Completable(cfg) && s.lock == Free && Stuck(cfg, s)
    ensures forall p :: 0 <= p < |s.producers| ==> s.producers[p].pc == PDone
  {
    forall p | 0 <= p < |s.producers|
      ensures s.producers[p].pc == PWait || s.producers[p].pc == PDone
    {
      BlockedProducer(cfg, s, p);
    }
    forall c | 0 <= c < |s.consumers|
      ensures s.consumers[c].pc == CWait || s.consumers[c].pc == CDone
    {
      BlockedConsumer(cfg, s, c);
    }
    if SomeProducerWaits(s) {
      TotalZero(s.consumers, OverflowPending);
      TotalZero(s.producers, ActiveProducer);
      TotalZero(s.producers, UnderflowPending);
      TotalZero(s.consumers, ActiveConsumer);
      assert cfg.size <= s.ring.used;
      if cfg.producers * cfg.amount <= cfg.size {
        StoredBound(s.producers, cfg.amount);
      }
    }
  }

  lemma NotStuckBeforeTheEnd(cfg: Config, s: State)
    requires Inv(cfg, s) && Completable(cfg) && s.main != MDone
    ensures !Stuck(cfg, s)
  {
    if s.lock != Free {
      HolderCanStep(cfg, s);
    } else if Stuck(cfg, s) {
      NobodySleepsForGood(cfg, s);
      if s.main.MJoinConsumers? && s.main.next < |s.consumers| {
        BlockedConsumer(cfg, s, s.main.next);
      }
      assert Enabled(cfg, s, MainStep);
    }
  }

  /** In every run, as long as main has not returned, some thread can take a step of its own. */
  lemma {:induction false} DeadlockFree(cfg: Config, steps: seq<Step>, s: State)
    requires Runs(cfg, steps, s) && Completable(cfg) && s.main != MDone
    ensures exists step :: !IsSpurious(step) && Enabled(cfg, s, step)
  {
    InvAlways(cfg, steps, s);
    NotStuckBeforeTheEnd(cfg, s);
  }

  lemma NothingRetrievedStep(cfg: Config, s: State, step: Step)
    requires InvLock(cfg, s) && Enabled(cfg, s, step) && (cfg.consumers == 0 || cfg.size == 0)
    ensures Apply(cfg, s, step).retrieved == s.retrieved
  {
    if step.ProducerStep? {
      ProducerFrames(cfg, s, step.p, step.woken);
    } else if step.ConsumerStep? {
      ConsumerDatas(cfg, s, step.c, step.woken);
    }
  }

  /** Without consumers or without slots nothing is ever retrieved. */
  lemma {:induction false} NothingRetrieved(cfg: Config, steps: seq<Step>, s: State)
    requires Runs(cfg, steps, s) && (cfg.consumers == 0 || cfg.size == 0)
    ensures s.retrieved == []
    decreases |steps|
  {
    if steps != [] {
      var last := |steps| - 1;
      var before :|
        Runs(cfg, steps[..last], before) && Enabled(cfg, before, steps[last]) &&
        s == Apply(cfg, before, steps[last]);
      NothingRetrieved(cfg, steps[..last], before);
      InvAlways(cfg, steps[..last], before);
      NothingRetrievedStep(cfg, before, steps[last]);
    }
  }

  /**
   A run that can go no further has finished exactly when the configuration is completable: with
   no consumer, or no slot, and more documents than slots, the producers wait forever.
   */
  lemma {:induction false} StuckMeansDone(cfg: Config, steps: seq<Step>, s: State)
    requires Runs(cfg, steps, s) && Stuck(cfg, s)
    ensures s.main == MDone <==> Completable(cfg)
  {
    InvAlways(cfg, steps, s);
    if Completable(cfg) && s.main != MDone {
      NotStuckBeforeTheEnd(cfg, s);
    }
    if s.main == MDone && !Completable(cfg) {
      NothingRetrieved(cfg, steps, s);
      TotalDone(s.producers, cfg.amount);
      assert false;
    }
  }

  lemma {:induction false} TotalDone(ps: seq<Producer>, amount: nat)
    requires forall p :: 0 <= p < |ps| ==> ps[p].pc == PDone && ps[p].made == amount
    ensures Total(ps, Stored) == |ps| * amount
  {
    TotalConstant(ps, Stored, amount);
  }

  // ---------- exactly-once delivery ----------

  lemma {:induction false} CountByProducer(docs: seq<Document>, d: Document)
    ensures multiset(docs)[d] == multiset(ByProducer(docs, d.producer))[d]
  {
    if docs != [] {
      var last := |docs| - 1;
      CountByProducer(docs[..last], d);
      assert docs == docs[..last] + [docs[last]];
    }
  }

  lemma {:induction false} CountFirstDocuments(p: nat, k: nat, d: Document)
    ensures multiset(FirstDocuments(p, k))[d] == if d.producer == p && d.number < k then 1 else 0
  {
    if k > 0 {
      CountFirstDocuments(p, k - 1, d);
      assert FirstDocuments(p, k) == FirstDocuments(p, k - 1) + [Document(p, k - 1)];
    }
  }

  /** Documents come only from producers that exist. */
  lemma {:induction false} NoStranger(docs: seq<Document>, producers: nat, p: nat)
    requires forall i :: 0 <= i < |docs| ==> docs[i].producer < producers
    requires producers <= p
    ensures ByProducer(docs, p) == []
  {
    if docs != [] {
      NoStranger(docs[..|docs| - 1], producers, p);
    }
  }

  lemma {:induction false} ExactlyOnce(docs: seq<Document>, producers: nat, amount: nat)
    requires forall i :: 0 <= i < |docs| ==> docs[i].producer < producers
    requires forall p :: 0 <= p < producers ==> ByProducer(docs, p) == FirstDocuments(p, amount)
    ensures forall d: Document ::
      multiset(docs)[d] == if d.producer < producers && d.number < amount then 1 else 0
  {
    forall d: Document
      ensures multiset(docs)[d] == if d.producer < producers && d.number < amount then 1 else 0
    {
      CountByProducer(docs, d);
      if d.producer < producers {
        CountFirstDocuments(d.producer, amount, d);
      } else {
        NoStranger(docs, producers, d.producer);
      }
    }
  }

  lemma AllRetrieved(cfg: Config, s: State)
    requires InvLock(cfg, s) && InvRing(cfg, s) && InvShutdown(cfg, s) && s.main == MDone && 1 <= cfg.consumers
    ensures s.retrieved == s.inserted
  {
    assert s.consumers[0].pc == CDone;
    assert Queued(s) == 0;
  }

  /**
   When main has returned and there was a consumer, every document of every producer has been
   retrieved exactly once, each producer's in the order of their numbers, and nothing else has.
   */
  lemma {:induction false} DeliveredExactlyOnce(cfg: Config, steps: seq<Step>, s: State)
    requires Runs(cfg, steps, s) && s.main == MDone && 1 <= cfg.consumers
    ensures s.retrieved == s.inserted
    ensures forall p :: 0 <= p < cfg.producers ==> ByProducer(s.retrieved, p) == FirstDocuments(p, cfg.amount)
    ensures forall d: Document ::
      multiset(s.retrieved)[d] == if d.producer < cfg.producers && d.number < cfg.amount then 1 else 0
  {
    InvAlways(cfg, steps, s);
    AllRetrieved(cfg, s);
    ExactlyOnce(s.retrieved, cfg.producers, cfg.amount);
  }

  // ---------- termination ----------

  /** What a producer has yet to do, counting the wakeups it will cause. */
  function ProducerWork(amount: nat): Producer -> int {
    (me: Producer) =>
      20 * (if me.made < amount then amount - me.made else 0) +
      match me.pc
      case PTop => 1
      case PLock => 19
      case PTest => 18
      case PWait => 17
      case PWoken => 19
      case PStore => 17
      case PCount => 16
      case PUnlock => 7
      case PSignal => 6
      case PDone => 0
  }

  function ConsumerWork(me: Consumer): int {
    match me.pc
    case CLock => 4
    case CTest => 3
    case CCheck => 2
    case CLeave => 1
    case CWait => 0
    case CWoken => 4
    case CFetch => 2
    case CCount => 1
    case CUnlock => 8
    case CSignal => 7
    case CDone => 0
  }

  function MainWork(cfg: Config, m: MainPc): int {
    match m
    case MJoinProducers(i) => cfg.producers - i + 5 * cfg.consumers + 6
    case MLock => 5 * cfg.consumers + 5
    case MSet => 5 * cfg.consumers + 4
    case MUnlock => 5 * cfg.consumers + 3
    case MBroadcast => 5 * cfg.consumers + 2
    case MJoinConsumers(i) => cfg.consumers - i + 1
    case MDone => 0
  }

  function Work(cfg: Config, s: State): int {
    Total(s.producers, ProducerWork(cfg.amount)) + Total(s.consumers, ConsumerWork) +
    8 * s.ring.used + MainWork(cfg, s.main)
  }

  lemma WorkIsNonnegative(cfg: Config, s: State)
    requires Inv(cfg, s)
    ensures 0 <= Work(cfg, s)
  {
    TotalBounds(s.producers, ProducerWork(cfg.amount));
    TotalBounds(s.consumers, ConsumerWork);
  }

  lemma ProducerStepWork(cfg: Config, s: State, p: nat, woken: nat)
    requires ProducerEnabled(s, p, woken)
    ensures var t := ApplyProducer(cfg, s, p, woken);
      ProducerWork(cfg.amount)(t.producers[p]) + 8 * t.ring.used + (if s.producers[p].pc == PSignal then 4 else 0)
        < ProducerWork(cfg.amount)(s.producers[p]) + 8 * s.ring.used
  {}

  lemma ConsumerStepWork(cfg: Config, s: State, c: nat, woken: nat)
    requires ConsumerEnabled(s, c, woken)
    ensures var t := ApplyConsumer(cfg, s, c, woken);
      ConsumerWork(t.consumers[c]) + 8 * t.ring.used + (if s.consumers[c].pc == CSignal then 2 else 0)
        < ConsumerWork(s.consumers[c]) + 8 * s.ring.used
  {}

  lemma {:induction false} WorkByProducer(cfg: Config, s: State, p: nat, woken: nat)
    requires ProducerEnabled(s, p, woken)
    ensures Work(cfg, ApplyProducer(cfg, s, p, woken)) < Work(cfg, s)
  {
    ProducerFrames(cfg, s, p, woken);
    ProducerStepWork(cfg, s, p, woken);
    WorkByProducerFrame(cfg, s, ApplyProducer(cfg, s, p, woken), p, woken);
  }

  lemma {:induction false} WorkByProducerFrame(cfg: Config, s: State, t: State, p: nat, woken: nat)
    requires ProducerFrame(s, t, p, woken)
    requires ProducerWork(cfg.amount)(t.producers[p]) + 8 * t.ring.used +
      (if s.producers[p].pc == PSignal then 4 else 0)
        < ProducerWork(cfg.amount)(s.producers[p]) + 8 * s.ring.used
    ensures Work(cfg, t) < Work(cfg, s)
  {
    TotalUpdate(s.producers, p, t.producers[p], ProducerWork(cfg.amount));
    if s.producers[p].pc == PSignal && SomeConsumerWaits(s) {
      TotalUpdate(s.consumers, woken, Consumer(CWoken), ConsumerWork);
    }
  }

  lemma {:induction false} WorkByConsumer(cfg: Config, s: State, c: nat, woken: nat)
    requires ConsumerEnabled(s, c, woken)
    ensures Work(cfg, ApplyConsumer(cfg, s, c, woken)) < Work(cfg, s)
  {
    ConsumerFrames(cfg, s, c, woken);
    ConsumerStepWork(cfg, s, c, woken);
    WorkByConsumerFrame(cfg, s, ApplyConsumer(cfg, s, c, woken), c, woken);
  }

  lemma {:induction false} WorkByConsumerFrame(cfg: Config, s: State, t: State, c: nat, woken: nat)
    requires ConsumerFrame(s, t, c, woken)
    requires ConsumerWork(t.consumers[c]) + 8 * t.ring.used + (if s.consumers[c].pc == CSignal then 2 else 0)
        < ConsumerWork(s.consumers[c]) + 8 * s.ring.used
    ensures Work(cfg, t) < Work(cfg, s)
  {
    TotalUpdate(s.consumers, c, t.consumers[c], ConsumerWork);
    if s.consumers[c].pc == CSignal && SomeProducerWaits(s) {
      TotalUpdate(s.producers, woken, s.producers[woken].(pc := PWoken), ProducerWork(cfg.amount));
    }
  }

  lemma {:induction false} WorkByMain(cfg: Config, s: State)
    requires InvLock(cfg, s) && InvShutdown(cfg, s) && MainEnabled(s)
    ensures Work(cfg, ApplyMain(s)) < Work(cfg, s)
  {
    if s.main == MBroadcast {
      WorkByBroadcast(cfg, s);
    }
  }

  lemma WorkByBroadcast(cfg: Config, s: State)
    requires |s.consumers| == cfg.consumers && MainEnabled(s) && s.main == MBroadcast
    ensures Work(cfg, ApplyMain(s)) < Work(cfg, s)
  {
    TotalGain(s.consumers, WakeAll(s.consumers), ConsumerWork, 4);
  }

  lemma {:induction false} WorkBySpurious(cfg: Config, s: State, step: Step)
    requires Enabled(cfg, s, step) && IsSpurious(step)
    ensures Work(cfg, Apply(cfg, s, step)) <= Work(cfg, s) + 4
  {
    if step.SpuriousProducer? {
      TotalUpdate(s.producers, step.p, s.producers[step.p].(pc := PWoken), ProducerWork(cfg.amount));
    } else {
      TotalUpdate(s.consumers, step.c, Consumer(CWoken), ConsumerWork);
    }
  }

  /** A step of a thread's own uses up work; a spurious wakeup gives at most 4 back. */
  lemma {:induction false} WorkDrops(cfg: Config, s: State, step: Step)
    requires InvLock(cfg, s) && InvShutdown(cfg, s) && Enabled(cfg, s, step)
    ensures Work(cfg, Apply(cfg, s, step)) <= Work(cfg, s) + if IsSpurious(step) then 4 else -1
  {
    match step
    case ProducerStep(p, woken) => WorkByProducer(cfg, s, p, woken);
    case ConsumerStep(c, woken) => WorkByConsumer(cfg, s, c, woken);
    case MainStep => WorkByMain(cfg, s);
    case _ => WorkBySpurious(cfg, s, step);
  }

  function SpuriousCount(steps: seq<Step>): nat {
    if steps == [] then 0
    else SpuriousCount(steps[..|steps| - 1]) + if IsSpurious(steps[|steps| - 1]) then 1 else 0
  }

  function WorkBound(cfg: Config): nat {
    cfg.producers * (20 * cfg.amount + 1) + cfg.producers + 9 * cfg.consumers + 6
  }

  lemma {:induction false} RunWork(cfg: Config, steps: seq<Step>, s: State)
    requires Runs(cfg, steps, s)
    ensures |steps| + Work(cfg, s) <= WorkBound(cfg) + 5 * SpuriousCount(steps)
    decreases |steps|
  {
    if steps == [] {
      TotalConstant(s.producers, ProducerWork(cfg.amount), 20 * cfg.amount + 1);
      TotalConstant(s.consumers, ConsumerWork, 4);
    } else {
      var last := |steps| - 1;
      var before :|
        Runs(cfg, steps[..last], before) && Enabled(cfg, before, steps[last]) &&
        s == Apply(cfg, before, steps[last]);
      RunWork(cfg, steps[..last], before);
      InvAlways(cfg, steps[..last], before);
      WorkDrops(cfg, before, steps[last]);
    }
  }

  /**
   Every run is bounded by the configuration and the number of spurious wakeups, so with finitely
   many of those every run reaches a state where no thread can step.
   */
  lemma RunsAreBounded(cfg: Config, steps: seq<Step>, s: State)
    requires Runs(cfg, steps, s)
    ensures |steps| <= WorkBound(cfg) + 5 * SpuriousCount(steps)
  {
    RunWork(cfg, steps, s);
    InvAlways(cfg, steps, s);
    WorkIsNonnegative(cfg, s);
  }
}
