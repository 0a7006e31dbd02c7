/**
 The three-stage service office of 0-AMPh-olymp/taskN.cpp. Each stage has a number of windows and a
 latency; a window set orders its windows by the moment they become free. Every person is put
 through all stages before the next one is looked at.
 */
module Scheduler {

  function Max(a: nat, b: nat): nat {
    if a < b then b else a
  }

  ghost predicate Nondecreasing(s: seq<nat>) {
    forall i, j :: 0 <= i <= j < |s| ==> s[i] <= s[j]
  }

  // ---------- one stage ----------

  /** When person k leaves: c windows, so person k follows person k - c. */
  function Departure(a: seq<nat>, c: nat, latency: nat, k: nat): nat
    requires 1 <= c && k < |a|
  {
    Max(a[k], if k < c then 0 else Departure(a, c, latency, k - c)) + latency
  }

  function Departures(a: seq<nat>, c: nat, latency: nat): (d: seq<nat>)
    requires 1 <= c
    ensures |d| == |a|
  {
    seq(|a|, k requires 0 <= k < |a| => Departure(a, c, latency, k))
  }

  lemma {:induction false} DepartureStep(a: seq<nat>, c: nat, latency: nat, k: nat)
    requires 1 <= c && k + 1 < |a| && Nondecreasing(a)
    ensures Departure(a, c, latency, k) <= Departure(a, c, latency, k + 1)
  {
    if c <= k {
      DepartureStep(a, c, latency, k - c);
    }
  }

  /** People leave a stage in the order in which they entered it. */
  lemma {:induction false} OrderKept(a: seq<nat>, c: nat, latency: nat, i: nat, j: nat)
    requires 1 <= c && i <= j < |a| && Nondecreasing(a)
    ensures Departure(a, c, latency, i) <= Departure(a, c, latency, j)
    decreases j - i
  {
    if i < j {
      OrderKept(a, c, latency, i, j - 1);
      DepartureStep(a, c, latency, j - 1);
    }
  }

  lemma DeparturesNondecreasing(a: seq<nat>, c: nat, latency: nat)
    requires 1 <= c && Nondecreasing(a)
    ensures Nondecreasing(Departures(a, c, latency))
  {
    forall i, j | 0 <= i <= j < |a|
      ensures Departures(a, c, latency)[i] <= Departures(a, c, latency)[j]
    {
      OrderKept(a, c, latency, i, j);
    }
  }

  /** Later arrivals do not matter. */
  lemma {:induction false} DeparturePrefix(a: seq<nat>, b: seq<nat>, c: nat, latency: nat, k: nat)
    requires 1 <= c && k < |a| <= |b| && b[..|a|] == a
    ensures Departure(b, c, latency, k) == Departure(a, c, latency, k)
  {
    assert b[k] == b[..|a|][k];
    if c <= k {
      DeparturePrefix(a, b, c, latency, k - c);
    }
  }

  /** As many windows as people are as good as more. */
  lemma {:induction false} CappedDeparture(a: seq<nat>, c: nat, cap: nat, latency: nat, k: nat)
    requires 1 <= c && k < |a| <= cap
    ensures Departure(a, if cap < c then cap else c, latency, k) == Departure(a, c, latency, k)
  {}

  // ---------- first come, first served ----------

  /** How many of the first n people are still being served or waiting at time t. */
  function Busy(a: seq<nat>, c: nat, latency: nat, n: nat, t: nat): nat
    requires 1 <= c && n <= |a|
  {
    if n == 0 then 0
    else Busy(a, c, latency, n - 1, t) + if t < Departure(a, c, latency, n - 1) then 1 else 0
  }

  lemma {:induction false} BusyAtLeast(a: seq<nat>, c: nat, latency: nat, m: nat, n: nat, t: nat)
    requires 1 <= c && m <= n <= |a| && Nondecreasing(a)
    requires m < |a| ==> t < Departure(a, c, latency, m)
    ensures n - m <= Busy(a, c, latency, n, t)
    decreases n
  {
    if m < n {
      BusyAtLeast(a, c, latency, m, n - 1, t);
      OrderKept(a, c, latency, m, n - 1);
    }
  }

  lemma {:induction false} BusyAtMost(a: seq<nat>, c: nat, latency: nat, m: nat, n: nat, t: nat)
    requires 1 <= c && m <= n <= |a| && Nondecreasing(a)
    requires m > 0 ==> Departure(a, c, latency, m - 1) <= t
    ensures Busy(a, c, latency, n, t) <= n - m
    decreases n
  {
    if n > 0 {
      if m < n {
        BusyAtMost(a, c, latency, m, n - 1, t);
      } else {
        BusyAtMost(a, c, latency, m - 1, n - 1, t) by {
          if m - 1 > 0 {
            OrderKept(a, c, latency, m - 2, m - 1);
          }
        }
      }
    }
  }

  /**
   The recurrence is first come, first served: person k starts at the first moment, not before
   arriving, at which fewer than c of the people before are still there.
   */
  lemma StartsWhenAWindowIsFree(a: seq<nat>, c: nat, latency: nat, k: nat, t: nat)
    requires 1 <= c && k < |a| && Nondecreasing(a)
    ensures latency <= Departure(a, c, latency, k)
    ensures Departure(a, c, latency, k) - latency <= t <==> a[k] <= t && Busy(a, c, latency, k, t) < c
  {
    if k < c {
      BusyAtMost(a, c, latency, 0, k, t);
    } else if t < Departure(a, c, latency, k - c) {
      BusyAtLeast(a, c, latency, k - c, k, t);
    } else {
      BusyAtMost(a, c, latency, k - c + 1, k, t);
    }
  }

  // ---------- a window set ----------

  /** A window: the moment it becomes free, and its number. */
  datatype Window = Window(free: nat, number: nat)

  /** The order of pairs in the source's set. */
  predicate Before(v: Window, w: Window) {
    v.free < w.free || (v.free == w.free && v.number < w.number)
  }

  /** A nonempty set has a first window. */
  lemma {:induction false} FirstExists(windows: set<Window>) returns (v: Window)
    requires windows != {}
    ensures v in windows && forall w :: w in windows ==> !Before(w, v)
    decreases |windows|
  {
    v :| v in windows;
    var rest := windows - {v};
    assert windows == rest + {v};
    if rest != {} {
      var u := FirstExists(rest);
      if Before(u, v) {
        v := u;
      }
    }
  }

  /** When the window that the i-th next person will take becomes free. */
  function NextFree(a: seq<nat>, c: nat, latency: nat, i: nat): nat
    requires i < c
  {
    if |a| + i < c then 0 else Departure(a, c, latency, |a| + i - c)
  }

  lemma NextFreeOrdered(a: seq<nat>, c: nat, latency: nat, i: nat)
    requires i < c && Nondecreasing(a)
    ensures NextFree(a, c, latency, 0) <= NextFree(a, c, latency, i)
  {
    if c <= |a| {
      OrderKept(a, c, latency, |a| - c, |a| + i - c);
    }
  }

  /** Serving one more person moves every other window one place up and sends the used one to the end. */
  lemma NextFreeShift(a: seq<nat>, x: nat, c: nat, latency: nat, i: nat)
    requires i < c
    ensures NextFree(a + [x], c, latency, i)
         == if i + 1 < c then NextFree(a, c, latency, i + 1)
            else Max(x, NextFree(a, c, latency, 0)) + latency
  {
    var b := a + [x];
    assert b[..|a|] == a;
    if i + 1 < c {
      if c <= |a| + i + 1 {
        DeparturePrefix(a, b, c, latency, |a| + i + 1 - c);
      }
    } else if c <= |a| {
      DeparturePrefix(a, b, c, latency, |a| - c);
    }
  }

  class WindowSet {
    var windows: set<Window>
    var count: nat
    var latency: nat
    ghost var arrivals: seq<nat>
    // The windows in the order in which they will be used.
    ghost var turns: seq<Window>

    ghost predicate Valid()
      reads this
    {
      && |turns| == count
      && windows == (set w | w in turns)
      && (forall i, j :: 0 <= i < j < count ==> turns[i].number != turns[j].number)
      && (forall i :: 0 <= i < count ==> turns[i].free == NextFree(arrivals, count, latency, i))
    }

    constructor Init(c: nat, l: nat)
      ensures Valid() && count == c && latency == l && arrivals == []
    {
      windows, count, latency, arrivals, turns := {}, c, l, [], [];
      new;
      for i := 0 to count
        invariant count == c && latency == l && arrivals == []
        invariant |turns| == i && windows == set w | w in turns
        invariant forall j :: 0 <= j < i ==> turns[j] == Window(0, j)
      {
        windows := windows + {Window(0, i)};
        turns := turns + [Window(0, i)];
      }
    }

    /** begin(): the first window in the set's order, and its place in the list of turns. */
    method First() returns (win: Window, ghost at: nat)
      requires Valid() && 1 <= count && Nondecreasing(arrivals)
      ensures at < count && turns[at] == win && forall w :: w in windows ==> !Before(w, win)
      ensures win.free == NextFree(arrivals, count, latency, 0) == turns[0].free
    {
      assert turns[0] in windows;
      ghost var first := FirstExists(windows);
      win :| win in windows && forall w :: w in windows ==> !Before(w, win);
      at := PlaceOf(win);
    }

    /** Whatever window the set puts first, the person leaves when the recurrence says. */
    method Serve(arrival: nat) returns (departure: nat)
      requires Valid() && 1 <= count
      requires Nondecreasing(arrivals)
      modifies this
      ensures Valid() && count == old(count) && latency == old(latency)
      ensures arrivals == old(arrivals) + [arrival]
      ensures departure == Departure(arrivals, count, latency, |arrivals| - 1)
    {
      var win;
      ghost var at;
      win, at := First();
      departure := Max(arrival, win.free) + latency;
      var used := Window(departure, win.number);
      windows := windows - {win} + {used};
      ghost var next := turns[at := turns[0]][1..] + [used];
      SameWindows(turns, at, used, next);
      NextTurns(arrivals, arrival, count, latency, turns, at, used, next);
      arrivals, turns := arrivals + [arrival], next;
    }

    /** The first window in the set's order becomes free as early as the window whose turn it is. */
    ghost method PlaceOf(win: Window) returns (at: nat)
      requires Valid() && win in windows && Nondecreasing(arrivals)
      requires forall w :: w in windows ==> !Before(w, win)
      ensures at < count && turns[at] == win
      ensures win.free == NextFree(arrivals, count, latency, 0) == turns[0].free
    {
      at :| 0 <= at < count && turns[at] == win;
      assert turns[0] in windows;
      NextFreeOrdered(arrivals, count, latency, at);
    }
  }

  /** Replacing one window in the set is replacing it in the list and moving it to the end. */
  lemma SameWindows(turns: seq<Window>, at: nat, used: Window, next: seq<Window>)
    requires at < |turns| && used.number == turns[at].number
    requires next == turns[at := turns[0]][1..] + [used]
    requires forall i, j :: 0 <= i < j < |turns| ==> turns[i].number != turns[j].number
    ensures (set w | w in turns) - {turns[at]} + {used} == (set w | w in next)
    ensures forall i, j :: 0 <= i < j < |next| ==> next[i].number != next[j].number
  {
    forall w | w in turns && w != turns[at]
      ensures w in next
    {
      var i :| 0 <= i < |turns| && turns[i] == w;
      assert next[if i == 0 then at - 1 else i - 1] == w;
    }
    forall w | w in next && w != used
      ensures w in turns && w != turns[at]
    {
      var i :| 0 <= i < |next| && next[i] == w;
      assert w == turns[if i + 1 == at then 0 else i + 1];
    }
    assert next[|next| - 1] == used;
  }

  /** The list stays in the order of use. */
  lemma NextTurns(a: seq<nat>, x: nat, c: nat, latency: nat, turns: seq<Window>, at: nat, used: Window,
                  next: seq<Window>)
    requires at < |turns| == c && turns[at].free == turns[0].free
    requires forall i :: 0 <= i < c ==> turns[i].free == NextFree(a, c, latency, i)
    requires used.free == Max(x, turns[at].free) + latency
    requires next == turns[at := turns[0]][1..] + [used]
    ensures forall i :: 0 <= i < c ==> next[i].free == NextFree(a + [x], c, latency, i)
    ensures used.free == Departure(a + [x], c, latency, |a|)
  {
    forall i | 0 <= i < c
      ensures next[i].free == NextFree(a + [x], c, latency, i)
    {
      NextFreeShift(a, x, c, latency, i);
    }
    assert used == next[c - 1];
  }

  // ---------- all stages ----------

  const ACTIONS: nat := 3

  /** Everybody's moment of leaving stage number `stages - 1`, stage after stage. */
  function AfterStages(a: seq<nat>, counts: seq<nat>, latencies: seq<nat>, stages: nat): (d: seq<nat>)
    requires |counts| == |latencies| && stages <= |counts|
    requires forall i :: 0 <= i < |counts| ==> 1 <= counts[i]
    ensures |d| == |a|
  {
    if stages == 0 then a
    else Departures(AfterStages(a, counts, latencies, stages - 1), counts[stages - 1], latencies[stages - 1])
  }

  /** After every stage people are still in the order of arrival, and nobody leaves before arriving. */
  lemma {:induction false} StagesKeepOrder(a: seq<nat>, counts: seq<nat>, latencies: seq<nat>, stages: nat)
    requires |counts| == |latencies| && stages <= |counts| && Nondecreasing(a)
    requires forall i :: 0 <= i < |counts| ==> 1 <= counts[i]
    ensures Nondecreasing(AfterStages(a, counts, latencies, stages))
    ensures forall i :: 0 <= i < |a| ==> a[i] <= AfterStages(a, counts, latencies, stages)[i]
  {
    if stages > 0 {
      StagesKeepOrder(a, counts, latencies, stages - 1);
      DeparturesNondecreasing(AfterStages(a, counts, latencies, stages - 1), counts[stages - 1], latencies[stages - 1]);
    }
  }

  /** Which of the first n people, leaving at the moments `out`, are still there at time t. */
  ghost function StillThere(out: seq<nat>, n: nat, t: nat): set<int>
    requires n <= |out|
  {
    set j | 0 <= j < n && t < out[j]
  }

  /**
   First come, first served by c windows: everybody starts at the first moment, not before
   arriving, at which fewer than c of the people before are still there, and leaves `latency` later.
   */
  ghost predicate FirstComeFirstServed(a: seq<nat>, out: seq<nat>, c: nat, latency: nat) {
    |out| == |a| && forall k: nat, t: nat :: k < |a| ==> HasStarted(a, out, c, latency, k, t)
  }

  /** Person k has started by time t exactly if it has arrived and a window is free. */
  ghost predicate HasStarted(a: seq<nat>, out: seq<nat>, c: nat, latency: nat, k: nat, t: nat)
    requires k < |a| == |out|
  {
    latency <= out[k] && (out[k] - latency <= t <==> a[k] <= t && |StillThere(out, k, t)| < c)
  }

  lemma {:induction false} BusyIsStillThere(a: seq<nat>, c: nat, latency: nat, n: nat, t: nat)
    requires 1 <= c && n <= |a|
    ensures Busy(a, c, latency, n, t) == |StillThere(Departures(a, c, latency), n, t)|
  {
    var out := Departures(a, c, latency);
    if n > 0 {
      BusyIsStillThere(a, c, latency, n - 1, t);
      OneMoreStillThere(out, n, t);
    }
  }

  lemma OneMoreStillThere(out: seq<nat>, n: nat, t: nat)
    requires 0 < n <= |out|
    ensures |StillThere(out, n, t)| == |StillThere(out, n - 1, t)| + if t < out[n - 1] then 1 else 0
  {
    assert StillThere(out, n, t) == StillThere(out, n - 1, t) + if t < out[n - 1] then {n - 1} else {};
  }

  /** Every stage serves the people as they come from the one before. */
  lemma StageIsFirstComeFirstServed(a: seq<nat>, counts: seq<nat>, latencies: seq<nat>, s: nat)
    requires |counts| == |latencies| && s < |counts| && Nondecreasing(a)
    requires forall i :: 0 <= i < |counts| ==> 1 <= counts[i]
    ensures AfterStages(a, counts, latencies, 0) == a
    ensures FirstComeFirstServed(AfterStages(a, counts, latencies, s), AfterStages(a, counts, latencies, s + 1),
                                 counts[s], latencies[s])
  {
    var before, out := AfterStages(a, counts, latencies, s), AfterStages(a, counts, latencies, s + 1);
    StagesKeepOrder(a, counts, latencies, s);
    forall k: nat, t: nat | k < |a|
      ensures HasStarted(before, out, counts[s], latencies[s], k, t)
    {
      StartsWhenAWindowIsFree(before, counts[s], latencies[s], k, t);
      BusyIsStillThere(before, counts[s], latencies[s], k, t);
    }
  }

  function Capped(counts: seq<nat>, cap: nat): (capped: seq<nat>)
    ensures |capped| == |counts|
    ensures forall i :: 0 <= i < |counts| ==> capped[i] == if cap < counts[i] then cap else counts[i]
  {
    seq(|counts|, i requires 0 <= i < |counts| => if cap < counts[i] then cap else counts[i])
  }

  /** Opening no more windows than there are people changes nobody's times. */
  lemma {:induction false} CappedStages(a: seq<nat>, counts: seq<nat>, latencies: seq<nat>, stages: nat)
    requires |counts| == |latencies| && stages <= |counts| && 1 <= |a|
    requires forall i :: 0 <= i < |counts| ==> 1 <= counts[i]
    ensures AfterStages(a, Capped(counts, |a|), latencies, stages) == AfterStages(a, counts, latencies, stages)
  {
    if stages > 0 {
      CappedStages(a, counts, latencies, stages - 1);
      var before := AfterStages(a, counts, latencies, stages - 1);
      var c, latency := counts[stages - 1], latencies[stages - 1];
      var cap := Capped(counts, |a|)[stages - 1];
      forall k | 0 <= k < |a|
        ensures Departures(before, cap, latency)[k] == Departures(before, c, latency)[k]
      {
        CappedDeparture(before, c, |a|, latency, k);
      }
    }
  }

  /** Every stage has served the first n people, whom it met in the batch order. */
  ghost predicate Served(stages: seq<WindowSet>, a: seq<nat>, counts: seq<nat>, latencies: seq<nat>, n: nat)
    requires |counts| == |latencies| == |stages| && n <= |a|
    requires forall i :: 0 <= i < |counts| ==> 1 <= counts[i]
    reads stages
  {
    forall s :: 0 <= s < |stages| ==> ServedOne(stages[s], a, counts, latencies, s, n)
  }

  ghost predicate ServedOne(stage: WindowSet, a: seq<nat>, counts: seq<nat>, latencies: seq<nat>, s: nat, n: nat)
    requires |counts| == |latencies| && s < |counts| && n <= |a|
    requires forall i :: 0 <= i < |counts| ==> 1 <= counts[i]
    reads stage
  {
    && stage.Valid() && stage.count == counts[s] && stage.latency == latencies[s]
    && stage.arrivals == AfterStages(a, counts, latencies, s)[..n]
  }

  /** One person through one stage: the same as that stage's batch. */
  method ServeStage(stage: WindowSet, ghost a: seq<nat>, ghost counts: seq<nat>, ghost latencies: seq<nat>,
                    ghost s: nat, ghost n: nat, arrival: nat)
    returns (departure: nat)
    requires |counts| == |latencies| && s < |counts| && n < |a| && Nondecreasing(a)
    requires forall i :: 0 <= i < |counts| ==> 1 <= counts[i]
    requires ServedOne(stage, a, counts, latencies, s, n)
    requires arrival == AfterStages(a, counts, latencies, s)[n]
    modifies stage
    ensures ServedOne(stage, a, counts, latencies, s, n + 1)
    ensures departure == AfterStages(a, counts, latencies, s + 1)[n]
  {
    ghost var batch := AfterStages(a, counts, latencies, s);
    StagesKeepOrder(a, counts, latencies, s);
    assert batch[..n] + [arrival] == batch[..n + 1];
    assert forall i :: 0 <= i < n ==> batch[..n][i] == batch[i];
    departure := stage.Serve(arrival);
    DeparturePrefix(batch[..n + 1], batch, counts[s], latencies[s], n);
  }

  /** One person through all stages. */
  method ServePerson(stages: seq<WindowSet>, ghost a: seq<nat>, ghost counts: seq<nat>, ghost latencies: seq<nat>,
                     ghost n: nat, arrival: nat)
    returns (departure: nat)
    requires |counts| == |latencies| == |stages| && n < |a| && Nondecreasing(a) && arrival == a[n]
    requires forall i :: 0 <= i < |counts| ==> 1 <= counts[i]
    requires forall i, j :: 0 <= i < j < |stages| ==> stages[i] != stages[j]
    requires Served(stages, a, counts, latencies, n)
    modifies stages
    ensures Served(stages, a, counts, latencies, n + 1)
    ensures departure == AfterStages(a, counts, latencies, |stages|)[n]
  {
    departure := arrival;
    for s := 0 to |stages|
      invariant departure == AfterStages(a, counts, latencies, s)[n]
      invariant forall r :: 0 <= r < s ==> ServedOne(stages[r], a, counts, latencies, r, n + 1)
      invariant forall r :: s <= r < |stages| ==> ServedOne(stages[r], a, counts, latencies, r, n)
    {
      departure := ServeStage(stages[s], a, counts, latencies, s, n, departure);
    }
  }

  method OpenStages(counts: seq<nat>, latencies: seq<nat>, people: nat) returns (stages: seq<WindowSet>)
    requires |counts| == |latencies| == ACTIONS
    ensures |stages| == ACTIONS && forall i :: 0 <= i < ACTIONS ==> fresh(stages[i])
    ensures forall i, j :: 0 <= i < j < ACTIONS ==> stages[i] != stages[j]
    ensures forall i :: 0 <= i < ACTIONS ==>
      && stages[i].Valid() && stages[i].count == Capped(counts, people)[i]
      && stages[i].latency == latencies[i] && stages[i].arrivals == []
  {
    var first := new WindowSet.Init(if people < counts[0] then people else counts[0], latencies[0]);
    var second := new WindowSet.Init(if people < counts[1] then people else counts[1], latencies[1]);
    var third := new WindowSet.Init(if people < counts[2] then people else counts[2], latencies[2]);
    stages := [first, second, third];
  }

  /** Of the first n people, person `longest` stays the longest, for the time `answer`. */
  ghost predicate LongestOf(a: seq<nat>, batch: seq<nat>, n: nat, answer: nat, longest: nat)
    requires n <= |a| == |batch|
  {
    && (forall i :: 0 <= i < n ==> batch[i] <= a[i] + answer)
    && if n == 0 then answer == 0 else longest < n && batch[longest] == a[longest] + answer
  }

  lemma LongestGoesOn(a: seq<nat>, batch: seq<nat>, n: nat, answer: nat, longest: nat)
    requires n < |a| == |batch| && a[n] <= batch[n] && LongestOf(a, batch, n, answer, longest)
    ensures LongestOf(a, batch, n + 1, Max(answer, batch[n] - a[n]),
                      if n == 0 || answer < batch[n] - a[n] then n else longest)
  {}

  /** What the loop over the people is about: the stages are set up, and `batch` is the last stage's moments. */
  ghost predicate Serving(stages: seq<WindowSet>, a: seq<nat>, counts: seq<nat>, latencies: seq<nat>, batch: seq<nat>) {
    && |counts| == |latencies| == |stages| && Nondecreasing(a)
    && (forall i :: 0 <= i < |counts| ==> 1 <= counts[i])
    && (forall i, j :: 0 <= i < j < |stages| ==> stages[i] != stages[j])
    && batch == AfterStages(a, counts, latencies, |stages|)
    && forall i :: 0 <= i < |a| ==> a[i] <= batch[i]
  }

  /** One turn of the loop. */
  method ServeNext(stages: seq<WindowSet>, ghost a: seq<nat>, ghost counts: seq<nat>, ghost latencies: seq<nat>,
                   ghost batch: seq<nat>, ghost n: nat, arrival: nat, answer: nat, ghost longest: nat)
    returns (next: nat, ghost later: nat)
    requires Serving(stages, a, counts, latencies, batch) && n < |a| && arrival == a[n]
    requires Served(stages, a, counts, latencies, n) && LongestOf(a, batch, n, answer, longest)
    modifies stages
    ensures Served(stages, a, counts, latencies, n + 1) && LongestOf(a, batch, n + 1, next, later)
  {
    var departure := ServePerson(stages, a, counts, latencies, n, arrival);
    LongestGoesOn(a, batch, n, answer, longest);
    later := if n == 0 || answer < departure - arrival then n else longest;
    next := Max(answer, departure - arrival);
  }

  /** The loop over the people. */
  method ServeAll(stages: seq<WindowSet>, a: seq<nat>, ghost counts: seq<nat>, ghost latencies: seq<nat>,
                  ghost batch: seq<nat>)
    returns (answer: nat, ghost longest: nat)
    requires Serving(stages, a, counts, latencies, batch) && Served(stages, a, counts, latencies, 0)
    modifies stages
    ensures |batch| == |a| && LongestOf(a, batch, |a|, answer, longest)
  {
    answer, longest := 0, 0;
    for n := 0 to |a|
      invariant Served(stages, a, counts, latencies, n)
      invariant LongestOf(a, batch, n, answer, longest)
    {
      answer, longest := ServeNext(stages, a, counts, latencies, batch, n, a[n], answer, longest);
    }
  }

  /**
   The printed number is the longest time anybody spends in the office when each stage serves all
   people, in the order of arrival, before the next stage is looked at, with all its windows open.
   */
  method LongestVisit(counts: seq<nat>, latencies: seq<nat>, a: seq<nat>) returns (answer: nat)
    requires |counts| == |latencies| == 3 && Nondecreasing(a)
    requires forall i :: 0 <= i < 3 ==> 1 <= counts[i]
    ensures forall i :: 0 <= i < |a| ==> AfterStages(a, counts, latencies, 3)[i] <= a[i] + answer
    ensures a != [] ==> exists i :: 0 <= i < |a| && AfterStages(a, counts, latencies, 3)[i] == a[i] + answer
    ensures a == [] ==> answer == 0
    ensures AfterStages(a, counts, latencies, 0) == a
    ensures forall s :: 0 <= s < 3 ==>
      FirstComeFirstServed(AfterStages(a, counts, latencies, s), AfterStages(a, counts, latencies, s + 1),
                           counts[s], latencies[s])
  {
    forall s | 0 <= s < 3
      ensures FirstComeFirstServed(AfterStages(a, counts, latencies, s), AfterStages(a, counts, latencies, s + 1),
                                   counts[s], latencies[s])
    {
      StageIsFirstComeFirstServed(a, counts, latencies, s);
    }
    var stages := OpenStages(counts, latencies, |a|);
    answer := 0;
    if a != [] {
      CappedStages(a, counts, latencies, ACTIONS);
      ghost var longest;
      StagesKeepOrder(a, counts, latencies, ACTIONS);
      ghost var batch := AfterStages(a, counts, latencies, ACTIONS);
      answer, longest := ServeAll(stages, a, Capped(counts, |a|), latencies, batch);
    }
  }
}
