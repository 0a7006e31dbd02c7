/**
 What every step of mpmc.c keeps. The invariant has five parts: who holds the mutex, that the ring
 is one first-in first-out sequence, where each producer is in its own documents, when threads may
 be asleep, and how shutdown proceeds.
 */
module MpmcInvariant {
  import opened Collections
  import opened RingQueue
  import opened Mpmc

  // ---------- mutual exclusion ----------

  predicate ProducerHolds(pc: ProducerPc) {
    pc == PTest || pc == PStore || pc == PCount || pc == PUnlock
  }

  predicate ConsumerHolds(pc: ConsumerPc) {
    pc == CTest || pc == CCheck || pc == CLeave || pc == CFetch || pc == CCount || pc == CUnlock
  }

  predicate MainHolds(pc: MainPc) {
    pc == MSet || pc == MUnlock
  }

  /** A thread is between lock and unlock exactly when it is the one holding the mutex. */
  ghost predicate InvLock(cfg: Config, s: State) {
    && |s.producers| == cfg.producers && |s.consumers| == cfg.consumers && |s.ring.slots| == cfg.size
    && (forall p :: 0 <= p < |s.producers| ==>
         (ProducerHolds(s.producers[p].pc) <==> s.lock == HeldByProducer(p)))
    && (forall c :: 0 <= c < |s.consumers| ==>
         (ConsumerHolds(s.consumers[c].pc) <==> s.lock == HeldByConsumer(c)))
    && (MainHolds(s.main) <==> s.lock == HeldByMain)
    && (s.lock.HeldByProducer? ==> s.lock.p < |s.producers|)
    && (s.lock.HeldByConsumer? ==> s.lock.c < |s.consumers|)
  }

  /** The mutex changes hands only with the thread that enters or leaves its critical section. */
  predicate LockMoves(lock: Holder, lock': Holder, me: Holder, held: bool, held': bool) {
    if held == held' then lock' == lock
    else if held' then lock == Free && lock' == me
    else lock' == Free
  }

  // What one step of a thread may touch. The lemmas below reason from these frames alone.

  ghost predicate ProducerFrame(s: State, t: State, p: nat, woken: nat) {
    && p < |s.producers| && p < |t.producers|
    && t.producers == s.producers[p := t.producers[p]]
    && t.main == s.main && t.goingAway == s.goingAway && |t.ring.slots| == |s.ring.slots|
    && LockMoves(s.lock, t.lock, HeldByProducer(p), ProducerHolds(s.producers[p].pc), ProducerHolds(t.producers[p].pc))
    && (if s.producers[p].pc == PSignal && SomeConsumerWaits(s)
        then woken < |s.consumers| && s.consumers[woken].pc == CWait &&
          t.consumers == s.consumers[woken := Consumer(CWoken)]
        else t.consumers == s.consumers)
    && t.retrieved == s.retrieved
  }

  ghost predicate ConsumerFrame(s: State, t: State, c: nat, woken: nat) {
    && c < |s.consumers| && c < |t.consumers|
    && t.consumers == s.consumers[c := t.consumers[c]]
    && t.main == s.main && t.goingAway == s.goingAway && |t.ring.slots| == |s.ring.slots|
    && LockMoves(s.lock, t.lock, HeldByConsumer(c), ConsumerHolds(s.consumers[c].pc), ConsumerHolds(t.consumers[c].pc))
    && (if s.consumers[c].pc == CSignal && SomeProducerWaits(s)
        then woken < |s.producers| && s.producers[woken].pc == PWait &&
          t.producers == s.producers[woken := s.producers[woken].(pc := PWoken)]
        else t.producers == s.producers)
    && t.inserted == s.inserted
  }

  lemma ProducerFrames(cfg: Config, s: State, p: nat, woken: nat)
    requires ProducerEnabled(s, p, woken)
    ensures ProducerFrame(s, ApplyProducer(cfg, s, p, woken), p, woken)
  {}

  lemma ConsumerFrames(cfg: Config, s: State, c: nat, woken: nat)
    requires ConsumerEnabled(s, c, woken)
    ensures ConsumerFrame(s, ApplyConsumer(cfg, s, c, woken), c, woken)
  {}

  lemma LockKeptByProducer(cfg: Config, s: State, t: State, p: nat, woken: nat)
    requires InvLock(cfg, s) && ProducerFrame(s, t, p, woken)
    ensures InvLock(cfg, t)
  {}

  lemma LockKeptByConsumer(cfg: Config, s: State, t: State, c: nat, woken: nat)
    requires InvLock(cfg, s) && ConsumerFrame(s, t, c, woken)
    ensures InvLock(cfg, t)
  {}

  lemma LockKeptByMain(cfg: Config, s: State)
    requires InvLock(cfg, s) && MainEnabled(s)
    ensures InvLock(cfg, ApplyMain(s))
  {}

  lemma LockKept(cfg: Config, s: State, step: Step)
    requires InvLock(cfg, s) && Enabled(cfg, s, step)
    ensures InvLock(cfg, Apply(cfg, s, step))
  {
    match step
    case ProducerStep(p, woken) =>
      ProducerFrames(cfg, s, p, woken);
      LockKeptByProducer(cfg, s, Apply(cfg, s, step), p, woken);
    case ConsumerStep(c, woken) =>
      ConsumerFrames(cfg, s, c, woken);
      LockKeptByConsumer(cfg, s, Apply(cfg, s, step), c, woken);
    case MainStep => LockKeptByMain(cfg, s);
    case _ =>
  }

  // ---------- the ring ----------

  /** The thread in the critical section has moved the tail but not yet counted its document. */
  predicate Storing(s: State) {
    s.lock.HeldByProducer? && s.lock.p < |s.producers| && s.producers[s.lock.p].pc == PCount
  }

  /** The thread in the critical section has moved the head but not yet uncounted its document. */
  predicate Fetching(s: State) {
    s.lock.HeldByConsumer? && s.lock.c < |s.consumers| && s.consumers[s.lock.c].pc == CCount
  }

  /** How many documents lie between head and tail; it differs from `used` only mid-update. */
  function Queued(s: State): int {
    if Storing(s) then s.ring.used + 1 else if Fetching(s) then s.ring.used - 1 else s.ring.used
  }

  /**
   The pointers delimit a window of the array, and everything inserted so far is what was retrieved
   followed by that window, oldest first.
   */
  ghost predicate InvRing(cfg: Config, s: State) {
    && 0 <= Queued(s) && InRange(s.ring.slots, s.ring.head, Queued(s))
    && s.ring.tail == SlotAt(s.ring.head, Queued(s), |s.ring.slots|)
    && s.inserted == s.retrieved + Window(s.ring.slots, s.ring.head, Queued(s))
  }

  /** What a producer's step does to the ring and to the list of inserted documents. */
  ghost predicate ProducerData(cfg: Config, s: State, t: State, p: nat) {
    && p < |s.producers| && p < |t.producers|
    && var me, pc' := s.producers[p], t.producers[p].pc; var r := s.ring;
    && (pc' == PCount <==> me.pc == PStore)
    && (pc' == PStore ==> me.pc == PTest && r.used < cfg.size)
    && (if me.pc == PStore && r.tail < |r.slots| then
          var doc := Document(p, if 0 < me.made then me.made - 1 else 0);
          && t.ring == Ring(r.slots[r.tail := doc], r.head, Advance(r.tail, |r.slots|), r.used)
          && t.inserted == s.inserted + [doc]
        else
          && t.ring == r.(used := if me.pc == PCount then r.used + 1 else r.used)
          && t.inserted == s.inserted)
  }

  /** What a consumer's step does to the ring and to the list of retrieved documents. */
  ghost predicate ConsumerData(s: State, t: State, c: nat) {
    && c < |s.consumers| && c < |t.consumers|
    && var pc, pc' := s.consumers[c].pc, t.consumers[c].pc; var r := s.ring;
    && (pc' == CCount <==> pc == CFetch)
    && (pc' == CFetch ==> pc == CTest && 1 <= r.used)
    && (pc' == CCheck ==> pc == CTest && r.used == 0) && (pc' == CLeave ==> pc == CCheck)
    && (if pc == CFetch && r.head < |r.slots| then
          && t.ring == Ring(r.slots, Advance(r.head, |r.slots|), r.tail, r.used)
          && t.retrieved == s.retrieved + [r.slots[r.head]]
        else
          && t.ring == r.(used := if pc == CCount && 0 < r.used then r.used - 1 else r.used)
          && t.retrieved == s.retrieved)
  }

  lemma ProducerDatas(cfg: Config, s: State, p: nat, woken: nat)
    requires ProducerEnabled(s, p, woken) && |s.ring.slots| == cfg.size
    ensures ProducerData(cfg, s, ApplyProducer(cfg, s, p, woken), p)
  {}

  lemma ConsumerDatas(cfg: Config, s: State, c: nat, woken: nat)
    requires ConsumerEnabled(s, c, woken)
    ensures ConsumerData(s, ApplyConsumer(cfg, s, c, woken), c)
  {}

  /** What the thread inside the critical section knows about `used`. */
  ghost predicate HolderKnows(cfg: Config, s: State) {
    && (forall p :: 0 <= p < |s.producers| && s.producers[p].pc == PStore ==> s.ring.used < cfg.size)
    && (forall c :: 0 <= c < |s.consumers| && (s.consumers[c].pc == CFetch || s.consumers[c].pc == CCount) ==>
      1 <= s.ring.used)
    && (forall c :: 0 <= c < |s.consumers| && (s.consumers[c].pc == CCheck || s.consumers[c].pc == CLeave) ==>
      s.ring.used == 0)
  }

  lemma HolderKnowsByProducer(cfg: Config, s: State, t: State, p: nat, woken: nat)
    requires InvLock(cfg, s) && HolderKnows(cfg, s) && ProducerFrame(s, t, p, woken) && ProducerData(cfg, s, t, p)
    ensures HolderKnows(cfg, t)
  {
    if s.producers[p].pc == PCount {
      assert s.lock == HeldByProducer(p);
    }
  }

  lemma HolderKnowsByConsumer(cfg: Config, s: State, t: State, c: nat, woken: nat)
    requires InvLock(cfg, s) && HolderKnows(cfg, s) && ConsumerFrame(s, t, c, woken) && ConsumerData(s, t, c)
    ensures HolderKnows(cfg, t)
  {
    if s.consumers[c].pc == CCount {
      assert s.lock == HeldByConsumer(c);
    }
  }

  lemma {:induction false} RingKeptByProducer(cfg: Config, s: State, t: State, p: nat, woken: nat)
    requires InvLock(cfg, s) && InvRing(cfg, s) && HolderKnows(cfg, s)
    requires ProducerFrame(s, t, p, woken) && ProducerData(cfg, s, t, p)
    ensures InvRing(cfg, t)
  {
    var r := s.ring;
    if s.producers[p].pc == PStore {
      var doc := t.inserted[|s.inserted|];
      StoreAppends(r.slots, r.head, r.used, doc);
      assert s.retrieved + (Window(r.slots, r.head, r.used) + [doc]) == s.inserted + [doc];
    } else {
      assert Queued(t) == Queued(s);
    }
  }

  lemma {:induction false} RingKeptByConsumer(cfg: Config, s: State, t: State, c: nat, woken: nat)
    requires InvLock(cfg, s) && InvRing(cfg, s) && HolderKnows(cfg, s)
    requires ConsumerFrame(s, t, c, woken) && ConsumerData(s, t, c)
    ensures InvRing(cfg, t)
  {
    if s.consumers[c].pc == CFetch {
      RingKeptByFetch(cfg, s, t, c, woken);
    } else {
      assert Queued(t) == Queued(s);
    }
  }

  lemma RingKeptByFetch(cfg: Config, s: State, t: State, c: nat, woken: nat)
    requires InvLock(cfg, s) && InvRing(cfg, s) && HolderKnows(cfg, s)
    requires ConsumerFrame(s, t, c, woken) && ConsumerData(s, t, c) && s.consumers[c].pc == CFetch
    ensures InvRing(cfg, t)
  {
    var r := s.ring;
    FetchDrops(r.slots, r.head, r.used);
    var rest := Window(r.slots, Advance(r.head, |r.slots|), r.used - 1);
    assert s.retrieved + ([r.slots[r.head]] + rest) == (s.retrieved + [r.slots[r.head]]) + rest;
  }

  lemma RingKeptByProducerStep(cfg: Config, s: State, p: nat, woken: nat)
    requires InvLock(cfg, s) && InvRing(cfg, s) && HolderKnows(cfg, s) && ProducerEnabled(s, p, woken)
    ensures InvRing(cfg, ApplyProducer(cfg, s, p, woken))
  {
    ProducerFrames(cfg, s, p, woken);
    ProducerDatas(cfg, s, p, woken);
    RingKeptByProducer(cfg, s, ApplyProducer(cfg, s, p, woken), p, woken);
  }

  lemma RingKeptByConsumerStep(cfg: Config, s: State, c: nat, woken: nat)
    requires InvLock(cfg, s) && InvRing(cfg, s) && HolderKnows(cfg, s) && ConsumerEnabled(s, c, woken)
    ensures InvRing(cfg, ApplyConsumer(cfg, s, c, woken))
  {
    ConsumerFrames(cfg, s, c, woken);
    ConsumerDatas(cfg, s, c, woken);
    RingKeptByConsumer(cfg, s, ApplyConsumer(cfg, s, c, woken), c, woken);
  }

  lemma RingKeptByOthers(cfg: Config, s: State, step: Step)
    requires InvLock(cfg, s) && InvRing(cfg, s) && Enabled(cfg, s, step) && !step.ProducerStep? && !step.ConsumerStep?
    ensures InvRing(cfg, Apply(cfg, s, step))
  {
    assert Queued(Apply(cfg, s, step)) == Queued(s);
  }

  lemma {:induction false} RingKept(cfg: Config, s: State, step: Step)
    requires InvLock(cfg, s) && InvRing(cfg, s) && HolderKnows(cfg, s) && Enabled(cfg, s, step)
    ensures InvRing(cfg, Apply(cfg, s, step))
  {
    match step
    case ProducerStep(p, woken) => RingKeptByProducerStep(cfg, s, p, woken);
    case ConsumerStep(c, woken) => RingKeptByConsumerStep(cfg, s, c, woken);
    case _ => RingKeptByOthers(cfg, s, step);
  }

  lemma HolderKnowsKept(cfg: Config, s: State, step: Step)
    requires InvLock(cfg, s) && HolderKnows(cfg, s) && Enabled(cfg, s, step)
    ensures HolderKnows(cfg, Apply(cfg, s, step))
  {
    match step
    case ProducerStep(p, woken) =>
      ProducerFrames(cfg, s, p, woken);
      ProducerDatas(cfg, s, p, woken);
      HolderKnowsByProducer(cfg, s, Apply(cfg, s, step), p, woken);
    case ConsumerStep(c, woken) =>
      ConsumerFrames(cfg, s, c, woken);
      ConsumerDatas(cfg, s, c, woken);
      HolderKnowsByConsumer(cfg, s, Apply(cfg, s, step), c, woken);
    case _ =>
  }

  // ---------- each producer's own order ----------

  /** The documents of one producer, in the order in which they appear. */
  function ByProducer(docs: seq<Document>, p: nat): seq<Document> {
    if docs == [] then []
    else
      var rest := ByProducer(docs[..|docs| - 1], p);
      var last := docs[|docs| - 1];
      if last.producer == p then rest + [last] else rest
  }

  /** The first `k` documents of producer `p`. */
  function FirstDocuments(p: nat, k: nat): seq<Document> {
    seq(k, n requires 0 <= n => Document(p, n))
  }

  predicate HasUnstored(pc: ProducerPc) {
    pc == PLock || pc == PTest || pc == PWait || pc == PWoken || pc == PStore
  }

  function Stored(me: Producer): int {
    me.made - if HasUnstored(me.pc) then 1 else 0
  }

  ghost predicate InvProducers(cfg: Config, s: State) {
    && |s.producers| == cfg.producers
    && (forall p :: 0 <= p < |s.producers| ==>
         && s.producers[p].made <= cfg.amount
         && (HasUnstored(s.producers[p].pc) ==> 1 <= s.producers[p].made)
         && (s.producers[p].pc == PDone ==> s.producers[p].made == cfg.amount)
         && ByProducer(s.inserted, p) == FirstDocuments(p, Stored(s.producers[p])))
    && (forall i :: 0 <= i < |s.inserted| ==> s.inserted[i].producer < cfg.producers)
    && |s.inserted| == Total(s.producers, Stored)
  }

  /** How a producer's counter follows its program counter. */
  ghost predicate CounterMoves(cfg: Config, me: Producer, me': Producer) {
    && me'.made == (if me.pc == PTop && me.made < cfg.amount then me.made + 1 else me.made)
    && (me'.pc == PLock <==> me.pc == PTop && me.made < cfg.amount)
    && (HasUnstored(me'.pc) ==> HasUnstored(me.pc) || me'.pc == PLock)
    && (HasUnstored(me.pc) ==> HasUnstored(me'.pc) || me.pc == PStore)
    && (me.pc == PStore ==> me'.pc == PCount)
    && (me'.pc == PDone ==> me.pc == PTop && cfg.amount <= me.made)
  }

  lemma CounterMovesAlways(cfg: Config, s: State, p: nat, woken: nat)
    requires ProducerEnabled(s, p, woken)
    ensures CounterMoves(cfg, s.producers[p], ApplyProducer(cfg, s, p, woken).producers[p])
  {}

  lemma {:induction false} ProducersKeptByProducer(cfg: Config, s: State, t: State, p: nat, woken: nat)
    requires InvProducers(cfg, s) && ProducerFrame(s, t, p, woken) && ProducerData(cfg, s, t, p)
    requires CounterMoves(cfg, s.producers[p], t.producers[p])
    requires s.producers[p].pc == PStore ==> s.ring.tail < |s.ring.slots|
    ensures InvProducers(cfg, t)
  {
    TotalUpdate(s.producers, p, t.producers[p], Stored);
    if s.producers[p].pc == PStore {
      ProducersKeptByStore(cfg, s, t, p, woken);
    } else {
      assert Stored(t.producers[p]) == Stored(s.producers[p]);
    }
  }

  lemma ProducersKeptByStore(cfg: Config, s: State, t: State, p: nat, woken: nat)
    requires InvProducers(cfg, s) && ProducerFrame(s, t, p, woken) && ProducerData(cfg, s, t, p)
    requires CounterMoves(cfg, s.producers[p], t.producers[p])
    requires s.producers[p].pc == PStore && s.ring.tail < |s.ring.slots|
    requires Total(t.producers, Stored) == Total(s.producers, Stored) + 1
    ensures InvProducers(cfg, t)
  {
    var made := s.producers[p].made;
    var doc := Document(p, made - 1);
    assert t.inserted == s.inserted + [doc];
    assert FirstDocuments(p, made) == FirstDocuments(p, made - 1) + [doc];
    forall q | 0 <= q < |t.producers|
      ensures ByProducer(t.inserted, q) ==
        if q == p then ByProducer(s.inserted, q) + [doc] else ByProducer(s.inserted, q)
    {
      ByProducerSnoc(s.inserted, doc, q);
    }
  }

  lemma ByProducerSnoc(docs: seq<Document>, doc: Document, q: nat)
    ensures ByProducer(docs + [doc], q) ==
      if doc.producer == q then ByProducer(docs, q) + [doc] else ByProducer(docs, q)
  {
    assert (docs + [doc])[..|docs|] == docs;
  }

  lemma {:induction false} ProducersKeptByWakeup(cfg: Config, s: State, t: State, p: nat)
    requires InvProducers(cfg, s) && p < |s.producers| && s.producers[p].pc == PWait && t.inserted == s.inserted
    requires t.producers == s.producers[p := s.producers[p].(pc := PWoken)]
    ensures InvProducers(cfg, t)
  {
    TotalUpdate(s.producers, p, t.producers[p], Stored);
  }

  lemma {:induction false} ProducersKept(cfg: Config, s: State, step: Step)
    requires InvLock(cfg, s) && InvProducers(cfg, s) && Enabled(cfg, s, step)
    ensures InvProducers(cfg, Apply(cfg, s, step))
  {
    var t := Apply(cfg, s, step);
    match step
    case ProducerStep(p, woken) =>
      ProducerFrames(cfg, s, p, woken);
      ProducerDatas(cfg, s, p, woken);
      CounterMovesAlways(cfg, s, p, woken);
      ProducersKeptByProducer(cfg, s, t, p, woken);
    case ConsumerStep(c, woken) =>
      ConsumerFrames(cfg, s, c, woken);
      if s.consumers[c].pc == CSignal && SomeProducerWaits(s) {
        ProducersKeptByWakeup(cfg, s, t, woken);
      }
    case SpuriousProducer(p) => ProducersKeptByWakeup(cfg, s, t, p);
    case _ =>
  }

  // ---------- no lost wakeups ----------

  /** A producer that has counted its document but not yet signalled. */
  function UnderflowPending(me: Producer): int {
    if me.pc == PUnlock || me.pc == PSignal then 1 else 0
  }

  /** A consumer that is awake on account of the queue not being empty. */
  function ActiveConsumer(me: Consumer): int {
    if me.pc == CWoken || me.pc == CTest || me.pc == CFetch || me.pc == CCount then 1 else 0
  }

  /** A consumer that has uncounted its document but not yet signalled. */
  function OverflowPending(me: Consumer): int {
    if me.pc == CUnlock || me.pc == CSignal then 1 else 0
  }

  /** A producer that is awake on account of the queue not being full. */
  function ActiveProducer(me: Producer): int {
    if me.pc == PWoken || me.pc == PTest || me.pc == PStore || me.pc == PCount then 1 else 0
  }

  /** While a consumer sleeps, each queued document has a signal to come or an awake consumer. */
  ghost predicate InvUnderflow(s: State) {
    SomeConsumerWaits(s) ==>
      s.ring.used <= Total(s.producers, UnderflowPending) + Total(s.consumers, ActiveConsumer)
  }

  /** While a producer sleeps, each free slot has a signal to come or an awake producer. */
  ghost predicate InvOverflow(cfg: Config, s: State) {
    SomeProducerWaits(s) ==>
      cfg.size - s.ring.used <= Total(s.consumers, OverflowPending) + Total(s.producers, ActiveProducer)
  }

  lemma WaitTotals(s: State)
    ensures 0 <= Total(s.producers, UnderflowPending) && 0 <= Total(s.consumers, ActiveConsumer)
    ensures 0 <= Total(s.consumers, OverflowPending) && 0 <= Total(s.producers, ActiveProducer)
  {
    TotalBounds(s.producers, UnderflowPending);
    TotalBounds(s.consumers, ActiveConsumer);
    TotalBounds(s.consumers, OverflowPending);
    TotalBounds(s.producers, ActiveProducer);
  }

  /** How the four totals move when one producer changes. */
  lemma {:induction false} ProducerTotals(ps: seq<Producer>, p: nat, me: Producer)
    requires p < |ps|
    ensures Total(ps[p := me], UnderflowPending) ==
      Total(ps, UnderflowPending) - UnderflowPending(ps[p]) + UnderflowPending(me)
    ensures Total(ps[p := me], ActiveProducer) == Total(ps, ActiveProducer) - ActiveProducer(ps[p]) + ActiveProducer(me)
  {
    TotalUpdate(ps, p, me, UnderflowPending);
    TotalUpdate(ps, p, me, ActiveProducer);
  }

  lemma {:induction false} ConsumerTotals(cs: seq<Consumer>, c: nat, me: Consumer)
    requires c < |cs|
    ensures Total(cs[c := me], OverflowPending) ==
      Total(cs, OverflowPending) - OverflowPending(cs[c]) + OverflowPending(me)
    ensures Total(cs[c := me], ActiveConsumer) == Total(cs, ActiveConsumer) - ActiveConsumer(cs[c]) + ActiveConsumer(me)
  {
    TotalUpdate(cs, c, me, OverflowPending);
    TotalUpdate(cs, c, me, ActiveConsumer);
  }

  /** A producer's step against the two balances: it never uses up a wakeup it does not account for. */
  ghost predicate ProducerBalance(cfg: Config, me: Producer, me': Producer, used: int, used': int) {
    && (me'.pc == PWait ==> me.pc == PTest && cfg.size <= used == used')
    && (me'.pc != PWait ==> used - used' <= ActiveProducer(me') - ActiveProducer(me))
    && used' - used <= UnderflowPending(me') - UnderflowPending(me) + (if me.pc == PSignal then 1 else 0)
  }

  ghost predicate ConsumerBalance(me: Consumer, me': Consumer, used: int, used': int) {
    && (me'.pc == CWait ==> me.pc == CCheck && used == used')
    && (me'.pc == CCheck ==> used == used' == 0)
    && (me'.pc != CWait && me'.pc != CCheck ==> used' - used <= ActiveConsumer(me') - ActiveConsumer(me))
    && used - used' <= OverflowPending(me') - OverflowPending(me) + (if me.pc == CSignal then 1 else 0)
  }

  lemma ProducerBalances(cfg: Config, s: State, p: nat, woken: nat)
    requires ProducerEnabled(s, p, woken)
    ensures ProducerBalance(cfg, s.producers[p], ApplyProducer(cfg, s, p, woken).producers[p],
                            s.ring.used, ApplyProducer(cfg, s, p, woken).ring.used)
  {}

  lemma ConsumerBalances(cfg: Config, s: State, c: nat, woken: nat)
    requires ConsumerEnabled(s, c, woken)
    ensures ConsumerBalance(s.consumers[c], ApplyConsumer(cfg, s, c, woken).consumers[c],
                            s.ring.used, ApplyConsumer(cfg, s, c, woken).ring.used)
  {}

  lemma {:induction false} ProducerWakeupsKept(cfg: Config, s: State, t: State, p: nat, woken: nat)
    requires InvUnderflow(s) && InvOverflow(cfg, s) && ProducerFrame(s, t, p, woken)
    requires ProducerBalance(cfg, s.producers[p], t.producers[p], s.ring.used, t.ring.used)
    ensures InvUnderflow(t) && InvOverflow(cfg, t)
  {
    WaitTotals(t);
    ProducerTotals(s.producers, p, t.producers[p]);
    if s.producers[p].pc == PSignal && SomeConsumerWaits(s) {
      ConsumerTotals(s.consumers, woken, Consumer(CWoken));
    }
    assert t.producers[p].pc != PWait ==> SomeProducerWaits(t) ==> SomeProducerWaits(s);
  }

  lemma {:induction false} ConsumerWakeupsKept(cfg: Config, s: State, t: State, c: nat, woken: nat)
    requires InvUnderflow(s) && InvOverflow(cfg, s) && ConsumerFrame(s, t, c, woken)
    requires ConsumerBalance(s.consumers[c], t.consumers[c], s.ring.used, t.ring.used)
    requires s.consumers[c].pc == CCheck ==> s.ring.used == 0
    ensures InvUnderflow(t) && InvOverflow(cfg, t)
  {
    WaitTotals(t);
    ConsumerTotals(s.consumers, c, t.consumers[c]);
    if s.consumers[c].pc == CSignal && SomeProducerWaits(s) {
      ProducerTotals(s.producers, woken, s.producers[woken].(pc := PWoken));
    }
    assert t.consumers[c].pc != CWait ==> SomeConsumerWaits(t) ==> SomeConsumerWaits(s);
  }

  lemma {:induction false} BroadcastWakeupsKept(cfg: Config, s: State, t: State)
    requires InvOverflow(cfg, s) && t.consumers == WakeAll(s.consumers)
    requires t.producers == s.producers && t.ring == s.ring
    ensures InvUnderflow(t) && InvOverflow(cfg, t)
  {
    TotalGain(t.consumers, s.consumers, OverflowPending, 0);
  }

  lemma WakeupsKeptByProducerStep(cfg: Config, s: State, p: nat, woken: nat)
    requires InvUnderflow(s) && InvOverflow(cfg, s) && ProducerEnabled(s, p, woken)
    ensures InvUnderflow(ApplyProducer(cfg, s, p, woken)) && InvOverflow(cfg, ApplyProducer(cfg, s, p, woken))
  {
    ProducerFrames(cfg, s, p, woken);
    ProducerBalances(cfg, s, p, woken);
    ProducerWakeupsKept(cfg, s, ApplyProducer(cfg, s, p, woken), p, woken);
  }

  lemma WakeupsKeptByConsumerStep(cfg: Config, s: State, c: nat, woken: nat)
    requires HolderKnows(cfg, s) && InvUnderflow(s) && InvOverflow(cfg, s) && ConsumerEnabled(s, c, woken)
    ensures InvUnderflow(ApplyConsumer(cfg, s, c, woken)) && InvOverflow(cfg, ApplyConsumer(cfg, s, c, woken))
  {
    ConsumerFrames(cfg, s, c, woken);
    ConsumerBalances(cfg, s, c, woken);
    ConsumerWakeupsKept(cfg, s, ApplyConsumer(cfg, s, c, woken), c, woken);
  }

  lemma {:induction false} WakeupsKeptByMain(cfg: Config, s: State)
    requires InvUnderflow(s) && InvOverflow(cfg, s) && MainEnabled(s)
    ensures InvUnderflow(ApplyMain(s)) && InvOverflow(cfg, ApplyMain(s))
  {
    if s.main == MBroadcast {
      BroadcastWakeupsKept(cfg, s, ApplyMain(s));
    }
  }

  lemma {:induction false} WakeupsKeptBySpuriousProducer(cfg: Config, s: State, p: nat)
    requires InvUnderflow(s) && InvOverflow(cfg, s) && Enabled(cfg, s, SpuriousProducer(p))
    ensures var t := Apply(cfg, s, SpuriousProducer(p)); InvUnderflow(t) && InvOverflow(cfg, t)
  {
    ProducerTotals(s.producers, p, s.producers[p].(pc := PWoken));
  }

  lemma {:induction false} WakeupsKeptBySpuriousConsumer(cfg: Config, s: State, c: nat)
    requires InvUnderflow(s) && InvOverflow(cfg, s) && Enabled(cfg, s, SpuriousConsumer(c))
    ensures var t := Apply(cfg, s, SpuriousConsumer(c)); InvUnderflow(t) && InvOverflow(cfg, t)
  {
    ConsumerTotals(s.consumers, c, Consumer(CWoken));
  }

  lemma {:induction false} WakeupsKept(cfg: Config, s: State, step: Step)
    requires InvLock(cfg, s) && HolderKnows(cfg, s) && InvUnderflow(s) && InvOverflow(cfg, s) && Enabled(cfg, s, step)
    ensures InvUnderflow(Apply(cfg, s, step)) && InvOverflow(cfg, Apply(cfg, s, step))
  {
    match step
    case ProducerStep(p, woken) => WakeupsKeptByProducerStep(cfg, s, p, woken);
    case ConsumerStep(c, woken) => WakeupsKeptByConsumerStep(cfg, s, c, woken);
    case MainStep => WakeupsKeptByMain(cfg, s);
    case SpuriousProducer(p) => WakeupsKeptBySpuriousProducer(cfg, s, p);
    case SpuriousConsumer(c) => WakeupsKeptBySpuriousConsumer(cfg, s, c);
  }

  // ---------- shutdown ----------

  predicate PastJoin(m: MainPc) {
    !m.MJoinProducers?
  }

  ghost predicate InvShutdown(cfg: Config, s: State) {
    && (s.goingAway <==> s.main == MUnlock || s.main == MBroadcast || s.main.MJoinConsumers? || s.main == MDone)
    && (s.main.MJoinProducers? ==>
         && s.main.next <= |s.producers|
         && forall p :: 0 <= p < s.main.next ==> s.producers[p].pc == PDone)
    && (PastJoin(s.main) ==> forall p :: 0 <= p < |s.producers| ==> s.producers[p].pc == PDone)
    && (forall c :: 0 <= c < |s.consumers| && (s.consumers[c].pc == CLeave || s.consumers[c].pc == CDone) ==>
         s.goingAway && s.ring.used == 0)
    && (s.main.MJoinConsumers? || s.main == MDone ==> !SomeConsumerWaits(s))
    && (s.main.MJoinConsumers? ==>
         && s.main.next <= |s.consumers|
         && forall c :: 0 <= c < s.main.next ==> s.consumers[c].pc == CDone)
    && (s.main == MDone ==> forall c :: 0 <= c < |s.consumers| ==> s.consumers[c].pc == CDone)
  }

  lemma ShutdownKeptByProducer(cfg: Config, s: State, t: State, p: nat, woken: nat)
    requires InvShutdown(cfg, s) && ProducerFrame(s, t, p, woken) && s.producers[p].pc != PDone
    ensures InvShutdown(cfg, t)
  {
    assert !PastJoin(s.main);
  }

  lemma ShutdownKeptByConsumer(cfg: Config, s: State, t: State, c: nat, woken: nat)
    requires InvLock(cfg, s) && HolderKnows(cfg, s) && InvShutdown(cfg, s)
    requires ConsumerFrame(s, t, c, woken) && ConsumerData(s, t, c) && s.consumers[c].pc != CDone
    requires t.consumers[c].pc == CWait ==> s.consumers[c].pc == CCheck && !s.goingAway
    requires t.consumers[c].pc == CLeave ==> s.consumers[c].pc == CCheck && s.goingAway
    requires t.consumers[c].pc == CDone ==> s.consumers[c].pc == CLeave
    ensures InvShutdown(cfg, t)
  {
    assert t.consumers[c].pc != CWait ==> SomeConsumerWaits(t) ==> SomeConsumerWaits(s);
  }

  lemma CheckOutcome(cfg: Config, s: State, c: nat, woken: nat)
    requires ConsumerEnabled(s, c, woken)
    ensures var pc' := ApplyConsumer(cfg, s, c, woken).consumers[c].pc;
      && (pc' == CWait ==> s.consumers[c].pc == CCheck && !s.goingAway)
      && (pc' == CLeave ==> s.consumers[c].pc == CCheck && s.goingAway)
      && (pc' == CDone ==> s.consumers[c].pc == CLeave)
  {}

  lemma ShutdownKeptByMain(cfg: Config, s: State)
    requires InvShutdown(cfg, s) && MainEnabled(s)
    ensures InvShutdown(cfg, ApplyMain(s))
  {}

  lemma ShutdownKept(cfg: Config, s: State, step: Step)
    requires InvLock(cfg, s) && HolderKnows(cfg, s) && InvShutdown(cfg, s) && Enabled(cfg, s, step)
    ensures InvShutdown(cfg, Apply(cfg, s, step))
  {
    var t := Apply(cfg, s, step);
    match step
    case ProducerStep(p, woken) =>
      ProducerFrames(cfg, s, p, woken);
      ProducerDatas(cfg, s, p, woken);
      ShutdownKeptByProducer(cfg, s, t, p, woken);
    case ConsumerStep(c, woken) =>
      ConsumerFrames(cfg, s, c, woken);
      ConsumerDatas(cfg, s, c, woken);
      CheckOutcome(cfg, s, c, woken);
      ShutdownKeptByConsumer(cfg, s, t, c, woken);
    case MainStep => ShutdownKeptByMain(cfg, s);
    case _ =>
  }

  // ---------- all of it ----------

  ghost predicate Inv(cfg: Config, s: State) {
    && InvLock(cfg, s) && InvRing(cfg, s) && HolderKnows(cfg, s) && InvProducers(cfg, s)
    && InvUnderflow(s) && InvOverflow(cfg, s) && InvShutdown(cfg, s)
  }

  lemma {:induction false} InvInit(cfg: Config, s: State)
    requires Init(cfg, s)
    ensures Inv(cfg, s)
  {
    forall p | 0 <= p < cfg.producers
      ensures ByProducer(s.inserted, p) == FirstDocuments(p, 0)
    {}
    TotalZero(s.producers, Stored);
  }

  lemma InvKept(cfg: Config, s: State, step: Step)
    requires Inv(cfg, s) && Enabled(cfg, s, step)
    ensures Inv(cfg, Apply(cfg, s, step))
  {
    LockKept(cfg, s, step);
    RingKept(cfg, s, step);
    HolderKnowsKept(cfg, s, step);
    ProducersKept(cfg, s, step);
    WakeupsKept(cfg, s, step);
    ShutdownKept(cfg, s, step);
  }

  /** The invariant holds in every state that any interleaving reaches. */
  lemma {:induction false} InvAlways(cfg: Config, steps: seq<Step>, s: State)
    requires Runs(cfg, steps, s)
    ensures Inv(cfg, s)
    decreases |steps|
  {
    if steps == [] {
      InvInit(cfg, s);
    } else {
      var last := |steps| - 1;
      var before :|
        Runs(cfg, steps[..last], before) && Enabled(cfg, before, steps[last]) &&
        s == Apply(cfg, before, steps[last]);
      InvAlways(cfg, steps[..last], before);
      InvKept(cfg, before, steps[last]);
    }
  }
}
