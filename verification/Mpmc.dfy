/**
 The multiple-producer, multiple-consumer program of mpmc.c as a step relation over all
 interleavings. A step is one statement of one thread. Threads share a ring buffer, one mutex and
 two condition variables; a signal is sent after the mutex has been given back, so another thread
 may take a document before the woken one reacquires the mutex. Any waiting thread may also wake
 up spuriously.
 */
module Mpmc {
  import opened Collections
  import opened RingQueue

  datatype Document = Document(producer: nat, number: nat)

  /** The command line: how many threads of each kind, documents per producer, length of the ring. */
  datatype Config = Config(producers: nat, amount: nat, size: nat, consumers: nat)

  datatype ProducerPc =
    | PTop      // the loop test on the document counter
    | PLock     // a document is prepared; locking the mutex
    | PTest     // holds the mutex; is the queue full?
    | PWait     // asleep on the overflow condition, mutex released
    | PWoken    // woken up, reacquiring the mutex
    | PStore    // holds the mutex; storing through the tail pointer
    | PCount    // holds the mutex; incrementing queue_used
    | PUnlock   // holds the mutex; releasing it
    | PSignal   // signalling the underflow condition
    | PDone

  datatype ConsumerPc =
    | CLock     // locking the mutex
    | CTest     // holds the mutex; is the queue empty?
    | CCheck    // holds the mutex, the queue was empty; is it going away?
    | CLeave    // holds the mutex; releasing it to exit
    | CWait     // asleep on the underflow condition, mutex released
    | CWoken    // woken up, reacquiring the mutex
    | CFetch    // holds the mutex; reading through the head pointer
    | CCount    // holds the mutex; decrementing queue_used
    | CUnlock   // holds the mutex; releasing it
    | CSignal   // signalling the overflow condition
    | CDone

  datatype MainPc =
    | MJoinProducers(next: nat)
    | MLock
    | MSet        // holds the mutex; setting queue_going_away
    | MUnlock     // holds the mutex; releasing it
    | MBroadcast  // waking every waiting consumer
    | MJoinConsumers(next: nat)
    | MDone

  /** `made` is the document counter; the document being handled has number `made - 1`. */
  datatype Producer = Producer(pc: ProducerPc, made: nat)
  datatype Consumer = Consumer(pc: ConsumerPc)

  datatype Holder = Free | HeldByProducer(p: nat) | HeldByConsumer(c: nat) | HeldByMain

  /** `inserted` and `retrieved` record every document put into and taken out of the ring, in order. */
  datatype State = State(
    ring: Ring<Document>,
    goingAway: bool,
    lock: Holder,
    producers: seq<Producer>,
    consumers: seq<Consumer>,
    main: MainPc,
    inserted: seq<Document>,
    retrieved: seq<Document>)

  /** `woken` is the thread a signal wakes; it matters only where a signal is sent. */
  datatype Step =
    | ProducerStep(p: nat, woken: nat)
    | ConsumerStep(c: nat, woken: nat)
    | MainStep
    | SpuriousProducer(p: nat)
    | SpuriousConsumer(c: nat)

  predicate IsSpurious(step: Step) {
    step.SpuriousProducer? || step.SpuriousConsumer?
  }

  /** The start: consumers and producers spawned, nothing queued. The initial slots are arbitrary. */
  ghost predicate Init(cfg: Config, s: State) {
    && |s.ring.slots| == cfg.size
    && s.ring.head == s.ring.tail == s.ring.used == 0
    && !s.goingAway && s.lock == Free
    && s.producers == seq(cfg.producers, i => Producer(PTop, 0))
    && s.consumers == seq(cfg.consumers, i => Consumer(CLock))
    && s.main == MJoinProducers(0)
    && s.inserted == [] && s.retrieved == []
  }

  predicate SomeConsumerWaits(s: State) {
    exists c :: 0 <= c < |s.consumers| && s.consumers[c].pc == CWait
  }

  predicate SomeProducerWaits(s: State) {
    exists p :: 0 <= p < |s.producers| && s.producers[p].pc == PWait
  }

  /** A signal wakes one waiting thread, and is lost when there is none. */
  predicate WakesConsumer(s: State, c: nat) {
    SomeConsumerWaits(s) ==> c < |s.consumers| && s.consumers[c].pc == CWait
  }

  predicate WakesProducer(s: State, p: nat) {
    SomeProducerWaits(s) ==> p < |s.producers| && s.producers[p].pc == PWait
  }

  predicate ProducerEnabled(s: State, p: nat, woken: nat) {
    p < |s.producers| &&
    match s.producers[p].pc
    case PLock => s.lock == Free
    case PWoken => s.lock == Free
    case PStore => s.ring.tail < |s.ring.slots|
    case PSignal => WakesConsumer(s, woken)
    case PWait => false
    case PDone => false
    case _ => true
  }

  predicate ConsumerEnabled(s: State, c: nat, woken: nat) {
    c < |s.consumers| &&
    match s.consumers[c].pc
    case CLock => s.lock == Free
    case CWoken => s.lock == Free
    case CFetch => s.ring.head < |s.ring.slots|
    case CCount => 0 < s.ring.used
    case CSignal => WakesProducer(s, woken)
    case CWait => false
    case CDone => false
    case _ => true
  }

  predicate MainEnabled(s: State) {
    match s.main
    case MJoinProducers(i) => i < |s.producers| ==> s.producers[i].pc == PDone
    case MLock => s.lock == Free
    case MJoinConsumers(i) => i < |s.consumers| ==> s.consumers[i].pc == CDone
    case MDone => false
    case _ => true
  }

  predicate Enabled(cfg: Config, s: State, step: Step) {
    match step
    case ProducerStep(p, woken) => ProducerEnabled(s, p, woken)
    case ConsumerStep(c, woken) => ConsumerEnabled(s, c, woken)
    case MainStep => MainEnabled(s)
    case SpuriousProducer(p) => p < |s.producers| && s.producers[p].pc == PWait
    case SpuriousConsumer(c) => c < |s.consumers| && s.consumers[c].pc == CWait
  }

  function GoProducer(s: State, p: nat, pc: ProducerPc): State
    requires p < |s.producers|
  {
    s.(producers := s.producers[p := s.producers[p].(pc := pc)])
  }

  function GoConsumer(s: State, c: nat, pc: ConsumerPc): State
    requires c < |s.consumers|
  {
    s.(consumers := s.consumers[c := Consumer(pc)])
  }

  function SignalUnderflow(s: State, woken: nat): State
    requires WakesConsumer(s, woken)
  {
    if SomeConsumerWaits(s) then GoConsumer(s, woken, CWoken) else s
  }

  function SignalOverflow(s: State, woken: nat): State
    requires WakesProducer(s, woken)
  {
    if SomeProducerWaits(s) then GoProducer(s, woken, PWoken) else s
  }

  function ApplyProducer(cfg: Config, s: State, p: nat, woken: nat): State
    requires ProducerEnabled(s, p, woken)
  {
    var me := s.producers[p];
    match me.pc
    case PTop =>
      if me.made < cfg.amount
      then s.(producers := s.producers[p := Producer(PLock, me.made + 1)])
      else GoProducer(s, p, PDone)
    case PLock => GoProducer(s, p, PTest).(lock := HeldByProducer(p))
    case PWoken => GoProducer(s, p, PTest).(lock := HeldByProducer(p))
    case PTest =>
      if s.ring.used >= cfg.size
      then GoProducer(s, p, PWait).(lock := Free)
      else GoProducer(s, p, PStore)
    case PStore =>
      var doc := Document(p, if 0 < me.made then me.made - 1 else 0);
      var r := s.ring;
      GoProducer(s, p, PCount).(
        ring := r.(slots := r.slots[r.tail := doc], tail := Advance(r.tail, |r.slots|)),
        inserted := s.inserted + [doc])
    case PCount => GoProducer(s, p, PUnlock).(ring := s.ring.(used := s.ring.used + 1))
    case PUnlock => GoProducer(s, p, PSignal).(lock := Free)
    case PSignal => SignalUnderflow(GoProducer(s, p, PTop), woken)
    case _ => s
  }

  function ApplyConsumer(cfg: Config, s: State, c: nat, woken: nat): State
    requires ConsumerEnabled(s, c, woken)
  {
    match s.consumers[c].pc
    case CLock => GoConsumer(s, c, CTest).(lock := HeldByConsumer(c))
    case CWoken => GoConsumer(s, c, CTest).(lock := HeldByConsumer(c))
    case CTest => GoConsumer(s, c, if s.ring.used < 1 then CCheck else CFetch)
    case CCheck =>
      if s.goingAway
      then GoConsumer(s, c, CLeave)
      else GoConsumer(s, c, CWait).(lock := Free)
    case CLeave => GoConsumer(s, c, CDone).(lock := Free)
    case CFetch =>
      var r := s.ring;
      GoConsumer(s, c, CCount).(
        ring := r.(head := Advance(r.head, |r.slots|)),
        retrieved := s.retrieved + [r.slots[r.head]])
    case CCount => GoConsumer(s, c, CUnlock).(ring := s.ring.(used := s.ring.used - 1))
    case CUnlock => GoConsumer(s, c, CSignal).(lock := Free)
    case CSignal => SignalOverflow(GoConsumer(s, c, CLock), woken)
    case _ => s
  }

  function WakeAll(consumers: seq<Consumer>): (r: seq<Consumer>)
    ensures |r| == |consumers|
    ensures forall c :: 0 <= c < |r| ==>
      r[c] == if consumers[c].pc == CWait then Consumer(CWoken) else consumers[c]
  {
    seq(|consumers|, c requires 0 <= c < |consumers| =>
      if consumers[c].pc == CWait then Consumer(CWoken) else consumers[c])
  }

  function ApplyMain(s: State): State
    requires MainEnabled(s)
  {
    match s.main
    case MJoinProducers(i) => s.(main := if i < |s.producers| then MJoinProducers(i + 1) else MLock)
    case MLock => s.(main := MSet, lock := HeldByMain)
    case MSet => s.(main := MUnlock, goingAway := true)
    case MUnlock => s.(main := MBroadcast, lock := Free)
    case MBroadcast => s.(main := MJoinConsumers(0), consumers := WakeAll(s.consumers))
    case MJoinConsumers(i) => s.(main := if i < |s.consumers| then MJoinConsumers(i + 1) else MDone)
    case MDone => s
  }

  function Apply(cfg: Config, s: State, step: Step): State
    requires Enabled(cfg, s, step)
  {
    match step
    case ProducerStep(p, woken) => ApplyProducer(cfg, s, p, woken)
    case ConsumerStep(c, woken) => ApplyConsumer(cfg, s, c, woken)
    case MainStep => ApplyMain(s)
    case SpuriousProducer(p) => GoProducer(s, p, PWoken)
    case SpuriousConsumer(c) => GoConsumer(s, c, CWoken)
  }

  /** `s` is where the steps lead from an initial state, every one of them being enabled in turn. */
  ghost predicate Runs(cfg: Config, steps: seq<Step>, s: State)
    decreases |steps|
  {
    if steps == [] then Init(cfg, s)
    else
      var last := |steps| - 1;
      exists before ::
        Runs(cfg, steps[..last], before) && Enabled(cfg, before, steps[last]) &&
        s == Apply(cfg, before, steps[last])
  }

  /** No thread can take a step of its own: only a spurious wakeup could change anything. */
  ghost predicate Stuck(cfg: Config, s: State) {
    forall step :: Enabled(cfg, s, step) ==> IsSpurious(step)
  }
}
