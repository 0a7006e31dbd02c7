/**
 The doubly indexed store of database.c: values (A, B) with counts in one growing pool, found
 through one hash table keyed by A and one keyed by B. Deleting by one key empties the slots of that
 table and zeroes the counts; the slots of the other table go stale.
 */
module Database {
  import opened Collections

  const BUCKETS: nat := 100003

  datatype Value = Value(a: int, b: int)
  datatype Field = FieldA | FieldB

  function Key(f: Field, v: Value): int {
    if f == FieldA then v.a else v.b
  }

  // ---------- the reference: a plain list of values ----------

  function Occurrences(bag: seq<Value>, v: Value): nat {
    if bag == [] then 0 else Occurrences(bag[..|bag| - 1], v) + if bag[|bag| - 1] == v then 1 else 0
  }

  /** How many values have this key. */
  function KeyCount(bag: seq<Value>, f: Field, k: int): nat {
    if bag == [] then 0 else KeyCount(bag[..|bag| - 1], f, k) + if Key(f, bag[|bag| - 1]) == k then 1 else 0
  }

  /** The values that do not have this key. */
  function WithoutKey(bag: seq<Value>, f: Field, k: int): seq<Value> {
    if bag == [] then []
    else
      var last := bag[|bag| - 1];
      WithoutKey(bag[..|bag| - 1], f, k) + if Key(f, last) == k then [] else [last]
  }

  function WithoutValue(bag: seq<Value>, v: Value): seq<Value> {
    if bag == [] then []
    else
      var last := bag[|bag| - 1];
      WithoutValue(bag[..|bag| - 1], v) + if last == v then [] else [last]
  }

  datatype Command = Add(v: Value) | Count(field: char, key: int) | Delete(field: char, key: int) | Unknown

  /** The letters accepted for a field. */
  function FieldOf(c: char): Option<Field> {
    if c == 'a' || c == 'A' then Some(FieldA) else if c == 'b' || c == 'B' then Some(FieldB) else None
  }

  /** What a command prints and leaves; None where the program aborts. */
  function Reference(bag: seq<Value>, c: Command): Option<(seq<Value>, nat)> {
    match c
    case Add(v) => Some((bag + [v], Occurrences(bag + [v], v)))
    case Count(letter, k) =>
      (match FieldOf(letter)
       case None => None
       case Some(f) => Some((bag, KeyCount(bag, f, k))))
    case Delete(letter, k) =>
      (match FieldOf(letter)
       case None => None
       case Some(f) => Some((WithoutKey(bag, f, k), KeyCount(bag, f, k))))
    case Unknown => None
  }

  /** What a run of commands prints, up to the first one that aborts, and whether all were done. */
  function ReferenceRun(bag: seq<Value>, cs: seq<Command>): (seq<nat>, bool)
    decreases |cs|
  {
    if cs == [] then ([], true)
    else
      match Reference(bag, cs[0])
      case None => ([], false)
      case Some((next, n)) => var (rest, done) := ReferenceRun(next, cs[1..]); ([n] + rest, done)
  }

  // ---------- what the commands are for, by their letters ----------

  /** The places at which a value with this A stands. */
  ghost function PlacesWithA(bag: seq<Value>, k: int): set<int> {
    set i | 0 <= i < |bag| && bag[i].a == k
  }

  ghost function PlacesWithB(bag: seq<Value>, k: int): set<int> {
    set i | 0 <= i < |bag| && bag[i].b == k
  }

  /** The command stops the program: its word is unknown, or its letter is not one of a, A, b, B. */
  predicate Refused(c: Command) {
    match c
    case Add(_) => false
    case Count(letter, _) => letter !in {'a', 'A', 'b', 'B'}
    case Delete(letter, _) => letter !in {'a', 'A', 'b', 'B'}
    case Unknown => true
  }

  ghost predicate Counted(bag: seq<Value>, letter: char, k: int, printed: nat) {
    || ((letter == 'a' || letter == 'A') && printed == |PlacesWithA(bag, k)|)
    || ((letter == 'b' || letter == 'B') && printed == |PlacesWithB(bag, k)|)
  }

  /** The values are those that differ from k in the field of the letter, each as often as before. */
  ghost predicate Deleted(bag: seq<Value>, letter: char, k: int, next: seq<Value>) {
    forall v :: multiset(next)[v] ==
      if (if letter == 'a' || letter == 'A' then v.a else v.b) == k then 0 else multiset(bag)[v]
  }

  /** What a command that is not refused prints and leaves. */
  ghost predicate Effect(bag: seq<Value>, c: Command, printed: nat, next: seq<Value>) {
    match c
    case Add(v) => next == bag + [v] && printed == multiset(next)[v]
    case Count(letter, k) => next == bag && Counted(bag, letter, k, printed)
    case Delete(letter, k) => Counted(bag, letter, k, printed) && Deleted(bag, letter, k, next)
    case Unknown => false
  }

  /** Command by command, up to the first one that is refused; `states` are the values before and after each. */
  ghost predicate Explains(states: seq<seq<Value>>, cs: seq<Command>, printed: seq<nat>, done: bool) {
    && |states| == |printed| + 1 && |printed| <= |cs|
    && (forall i :: 0 <= i < |printed| ==> Effect(states[i], cs[i], printed[i], states[i + 1]))
    && if done then |printed| == |cs| else |printed| < |cs| && Refused(cs[|printed|])
  }

  lemma {:induction false} OccurrencesIsMultiplicity(bag: seq<Value>, v: Value)
    ensures Occurrences(bag, v) == multiset(bag)[v]
  {
    if bag != [] {
      OccurrencesIsMultiplicity(bag[..|bag| - 1], v);
      assert bag == bag[..|bag| - 1] + [bag[|bag| - 1]];
    }
  }

  lemma {:induction false} KeyCountA(bag: seq<Value>, k: int)
    ensures KeyCount(bag, FieldA, k) == |PlacesWithA(bag, k)|
  {
    if bag != [] {
      var n := |bag| - 1;
      var front := bag[..n];
      KeyCountA(front, k);
      assert PlacesWithA(bag, k) == PlacesWithA(front, k) + if bag[n].a == k then {n} else {};
    }
  }

  lemma {:induction false} KeyCountB(bag: seq<Value>, k: int)
    ensures KeyCount(bag, FieldB, k) == |PlacesWithB(bag, k)|
  {
    if bag != [] {
      var n := |bag| - 1;
      var front := bag[..n];
      KeyCountB(front, k);
      assert PlacesWithB(bag, k) == PlacesWithB(front, k) + if bag[n].b == k then {n} else {};
    }
  }

  lemma KeyCountIsPlaces(bag: seq<Value>, k: int)
    ensures KeyCount(bag, FieldA, k) == |PlacesWithA(bag, k)|
    ensures KeyCount(bag, FieldB, k) == |PlacesWithB(bag, k)|
  {
    KeyCountA(bag, k);
    KeyCountB(bag, k);
  }

  lemma {:induction false} WithoutKeyLeaves(bag: seq<Value>, f: Field, k: int, v: Value)
    ensures multiset(WithoutKey(bag, f, k))[v] ==
      if (if f == FieldA then v.a else v.b) == k then 0 else multiset(bag)[v]
  {
    if bag != [] {
      var front, last := bag[..|bag| - 1], bag[|bag| - 1];
      WithoutKeyLeaves(front, f, k, v);
      assert bag == front + [last];
    }
  }

  /** The reference does what the letters say. */
  lemma ReferenceIsMeant(bag: seq<Value>, c: Command)
    ensures Reference(bag, c).None? <==> Refused(c)
    ensures Reference(bag, c).Some? ==> Effect(bag, c, Reference(bag, c).value.1, Reference(bag, c).value.0)
  {
    match c
    case Add(v) => OccurrencesIsMultiplicity(bag + [v], v);
    case Count(letter, k) => KeyCountIsPlaces(bag, k);
    case Delete(letter, k) =>
      KeyCountIsPlaces(bag, k);
      forall v
        ensures FieldOf(letter).Some? ==>
          multiset(WithoutKey(bag, FieldOf(letter).value, k))[v] ==
            if (if FieldOf(letter) == Some(FieldA) then v.a else v.b) == k then 0 else multiset(bag)[v]
      {
        if FieldOf(letter).Some? {
          WithoutKeyLeaves(bag, FieldOf(letter).value, k, v);
        }
      }
    case Unknown =>
  }

  lemma {:induction false} OccurrencesPositive(bag: seq<Value>, v: Value)
    ensures Occurrences(bag, v) > 0 <==> v in bag
  {
    if bag != [] {
      OccurrencesPositive(bag[..|bag| - 1], v);
      assert bag == bag[..|bag| - 1] + [bag[|bag| - 1]];
    }
  }

  lemma OccurrencesSnoc(bag: seq<Value>, w: Value, v: Value)
    ensures Occurrences(bag + [w], v) == Occurrences(bag, v) + if w == v then 1 else 0
  {
    assert (bag + [w])[..|bag|] == bag;
  }

  lemma {:induction false} CountWithoutValue(bag: seq<Value>, v: Value, w: Value)
    ensures Occurrences(WithoutValue(bag, v), w) == if w == v then 0 else Occurrences(bag, w)
  {
    if bag != [] {
      var front := bag[..|bag| - 1];
      var last := bag[|bag| - 1];
      CountWithoutValue(front, v, w);
      if last != v {
        OccurrencesSnoc(WithoutValue(front, v), last, w);
      } else {
        assert WithoutValue(front, v) + [] == WithoutValue(front, v);
      }
    }
  }

  lemma OccurrencesWithoutValue(bag: seq<Value>, v: Value, w: Value)
    ensures Occurrences(WithoutValue(bag, v), w) == if w == v then 0 else Occurrences(bag, w)
    ensures w in WithoutValue(bag, v) <==> w in bag && w != v
  {
    CountWithoutValue(bag, v, w);
    OccurrencesPositive(bag, w);
    OccurrencesPositive(WithoutValue(bag, v), w);
  }

  /** Taking out one value with the key takes its occurrences out of the key's count and nothing else. */
  lemma {:induction false} KeyCountWithoutValue(bag: seq<Value>, f: Field, v: Value)
    ensures KeyCount(WithoutValue(bag, v), f, Key(f, v)) == KeyCount(bag, f, Key(f, v)) - Occurrences(bag, v)
    ensures WithoutKey(WithoutValue(bag, v), f, Key(f, v)) == WithoutKey(bag, f, Key(f, v))
  {
    if bag != [] {
      var front := bag[..|bag| - 1];
      var last := bag[|bag| - 1];
      KeyCountWithoutValue(front, f, v);
      if last != v {
        var r := WithoutValue(front, v) + [last];
        assert r[..|r| - 1] == WithoutValue(front, v);
      } else {
        assert WithoutValue(front, v) + [] == WithoutValue(front, v);
        assert WithoutKey(front, f, Key(f, v)) + [] == WithoutKey(front, f, Key(f, v));
      }
    }
  }

  /** With no value left that has the key. */
  lemma {:induction false} NoneWithKey(bag: seq<Value>, f: Field, k: int)
    requires forall v :: v in bag ==> Key(f, v) != k
    ensures KeyCount(bag, f, k) == 0 && WithoutKey(bag, f, k) == bag
  {
    if bag != [] {
      var front := bag[..|bag| - 1];
      assert bag == front + [bag[|bag| - 1]];
      NoneWithKey(front, f, k);
    }
  }

  // ---------- pool and tables ----------

  datatype Item = Item(value: Value, count: nat)

  /** A slot holds a pool index, or NO_ITEM. */
  type Slot = Option<nat>

  datatype Table = Table(field: Field, buckets: seq<seq<Slot>>)

  predicate Live(pool: seq<Item>, index: nat) {
    index < |pool| && pool[index].count > 0
  }

  function BucketOf(k: int): (b: nat)
    ensures b < BUCKETS
  {
    k % BUCKETS
  }

  /** The remainder of C, which takes the sign of the dividend. */
  function TruncatedRemainder(k: int, n: nat): int
    requires 0 < n
  {
    if 0 <= k then k % n else -((-k) % n)
  }

  /** hash_get_bucket, for any key. */
  method HashGetBucket(k: int) returns (b: nat)
    ensures b == BucketOf(k)
  {
    var hash := TruncatedRemainder(k, BUCKETS);
    while hash < 0
      invariant hash % BUCKETS == k % BUCKETS
    {
      hash := hash + BUCKETS;
    }
    while hash >= BUCKETS
      invariant 0 <= hash && hash % BUCKETS == k % BUCKETS
    {
      hash := hash - BUCKETS;
    }
    b := hash;
  }

  ghost predicate SlotAt(t: Table, b: nat, i: nat, index: nat) {
    b < |t.buckets| && i < |t.buckets[b]| && t.buckets[b][i] == Some(index)
  }

  /** The bucket that the table uses for a value. */
  function Home(t: Table, v: Value): nat {
    BucketOf(Key(t.field, v))
  }

  ghost predicate Slotted(t: Table, v: Value, index: nat) {
    exists i: nat :: SlotAt(t, Home(t, v), i, index)
  }

  /**
   Slots point into the pool; a live item has a slot in its home bucket (the items from `n` on are
   still to get theirs), at most one slot, and none elsewhere.
   */
  ghost predicate Indexed(t: Table, pool: seq<Item>, n: nat) {
    && |t.buckets| == BUCKETS
    && (forall b: nat, i: nat, index: nat :: SlotAt(t, b, i, index) ==> index < |pool|)
    && (forall index: nat :: index < n && Live(pool, index) ==> Slotted(t, pool[index].value, index))
    && (forall b: nat, i: nat, index: nat :: SlotAt(t, b, i, index) && Live(pool, index) ==>
      b == Home(t, pool[index].value))
    && (forall b: nat, i: nat, j: nat, index: nat ::
         SlotAt(t, b, i, index) && SlotAt(t, b, j, index) && Live(pool, index) ==> i == j)
  }

  ghost predicate Holds(pool: seq<Item>, v: Value) {
    exists index: nat :: Live(pool, index) && pool[index].value == v
  }

  /** Live items have different values, and their counts are those of the bag. */
  ghost predicate Represents(pool: seq<Item>, bag: seq<Value>) {
    && (forall i: nat, j: nat :: Live(pool, i) && Live(pool, j) && pool[i].value == pool[j].value ==> i == j)
    && (forall i: nat :: Live(pool, i) ==> Occurrences(bag, pool[i].value) == pool[i].count)
    && (forall v :: v in bag ==> Holds(pool, v))
  }

  ghost predicate Inv(tables: seq<Table>, pool: seq<Item>, bag: seq<Value>) {
    && Represents(pool, bag)
    && (forall t :: 0 <= t < |tables| ==> Indexed(tables[t], pool, |pool|))
  }

  // ---------- single slots ----------

  /** bucket_add with NO_ITEM. */
  function WithFreeSlot(t: Table, b: nat): Table
    requires b < |t.buckets|
  {
    t.(buckets := t.buckets[b := t.buckets[b] + [None]])
  }

  function WithSlot(t: Table, b: nat, i: nat, s: Slot): Table
    requires b < |t.buckets| && i < |t.buckets[b]|
  {
    t.(buckets := t.buckets[b := t.buckets[b][i := s]])
  }

  lemma FreeSlotIndexed(t: Table, pool: seq<Item>, n: nat, b: nat)
    requires Indexed(t, pool, n) && b < BUCKETS
    ensures Indexed(WithFreeSlot(t, b), pool, n)
    ensures forall c: nat, i: nat, index: nat :: SlotAt(WithFreeSlot(t, b), c, i, index) <==> SlotAt(t, c, i, index)
  {
    var u := WithFreeSlot(t, b);
    forall c: nat, i: nat, index: nat
      ensures SlotAt(u, c, i, index) <==> SlotAt(t, c, i, index)
    {}
    forall index: nat | index < n && Live(pool, index)
      ensures Slotted(u, pool[index].value, index)
    {
      var i: nat :| SlotAt(t, Home(t, pool[index].value), i, index);
      assert SlotAt(u, Home(u, pool[index].value), i, index);
    }
  }

  ghost predicate NotListed(t: Table, index: nat) {
    forall b: nat, i: nat :: !SlotAt(t, b, i, index)
  }

  /** The new item of the pool gets its slot in a free place of its home bucket. */
  lemma FillSlotIndexed(t: Table, pool: seq<Item>, n: nat, i: nat)
    requires n < |pool| && Indexed(t, pool, n) && NotListed(t, n)
    requires i < |t.buckets[Home(t, pool[n].value)]| && t.buckets[Home(t, pool[n].value)][i] == None
    ensures Indexed(WithSlot(t, Home(t, pool[n].value), i, Some(n)), pool, n + 1)
  {
    var b := Home(t, pool[n].value);
    var u := WithSlot(t, b, i, Some(n));
    forall c: nat, j: nat, index: nat
      ensures SlotAt(u, c, j, index) <==> SlotAt(t, c, j, index) || (c == b && j == i && index == n)
    {}
    forall index: nat | index < n + 1 && Live(pool, index)
      ensures Slotted(u, pool[index].value, index)
    {
      if index < n {
        var j: nat :| SlotAt(t, Home(t, pool[index].value), j, index);
        assert SlotAt(u, Home(u, pool[index].value), j, index);
      } else {
        assert SlotAt(u, Home(u, pool[index].value), i, index);
      }
    }
  }

  /** A new item at the end of the pool is in no slot yet. */
  lemma NewItemIndexed(t: Table, pool: seq<Item>, v: Value)
    requires Indexed(t, pool, |pool|)
    ensures Indexed(t, pool + [Item(v, 1)], |pool|) && NotListed(t, |pool|)
  {
    var more := pool + [Item(v, 1)];
    forall index: nat
      ensures index < |pool| ==> more[index] == pool[index] && (Live(more, index) <==> Live(pool, index))
    {}
  }

  /** Counts going to zero, or up from a positive number, leave a table as good as it was. */
  lemma RecountIndexed(t: Table, pool: seq<Item>, index: nat, count: nat)
    requires Indexed(t, pool, |pool|) && Live(pool, index)
    ensures Indexed(t, pool[index := pool[index].(count := count)], |pool|)
  {
    var q := pool[index := pool[index].(count := count)];
    forall i: nat
      ensures Live(q, i) ==> Live(pool, i) && q[i].value == pool[i].value
    {}
  }

  /** Emptying the slot of an item that is no longer live. */
  lemma EmptySlotIndexed(t: Table, pool: seq<Item>, b: nat, i: nat, index: nat)
    requires Indexed(t, pool, |pool|) && SlotAt(t, b, i, index) && !Live(pool, index)
    ensures Indexed(WithSlot(t, b, i, None), pool, |pool|)
  {
    var u := WithSlot(t, b, i, None);
    forall c: nat, j: nat, x: nat
      ensures SlotAt(u, c, j, x) <==> SlotAt(t, c, j, x) && !(c == b && j == i)
    {}
    forall x: nat | Live(pool, x)
      ensures Slotted(u, pool[x].value, x)
    {
      var j: nat :| SlotAt(t, Home(t, pool[x].value), j, x);
      assert SlotAt(u, Home(u, pool[x].value), j, x);
    }
  }

  // ---------- the pool against the bag ----------

  lemma IncrementRepresents(pool: seq<Item>, bag: seq<Value>, index: nat)
    requires Represents(pool, bag) && Live(pool, index)
    ensures Represents(pool[index := pool[index].(count := pool[index].count + 1)], bag + [pool[index].value])
    ensures Occurrences(bag + [pool[index].value], pool[index].value) == pool[index].count + 1
  {
    var v := pool[index].value;
    var q := pool[index := pool[index].(count := pool[index].count + 1)];
    forall i: nat
      ensures (Live(q, i) <==> Live(pool, i)) && (i < |pool| ==> q[i].value == pool[i].value)
    {}
    forall i: nat | Live(q, i)
      ensures Occurrences(bag + [v], q[i].value) == q[i].count
    {
      OccurrencesSnoc(bag, v, q[i].value);
    }
    OccurrencesSnoc(bag, v, v);
    forall w | w in bag + [v]
      ensures Holds(q, w)
    {
      if w in bag {
        var i: nat :| Live(pool, i) && pool[i].value == w;
        assert Live(q, i) && q[i].value == w;
      } else {
        assert Live(q, index) && q[index].value == w;
      }
    }
  }

  lemma NewItemRepresents(pool: seq<Item>, bag: seq<Value>, v: Value)
    requires Represents(pool, bag) && !Holds(pool, v)
    ensures Represents(pool + [Item(v, 1)], bag + [v])
    ensures Occurrences(bag + [v], v) == 1
  {
    var q := pool + [Item(v, 1)];
    OccurrencesPositive(bag, v);
    OccurrencesSnoc(bag, v, v);
    forall i: nat | Live(q, i)
      ensures Occurrences(bag + [v], q[i].value) == q[i].count
      ensures i < |pool| ==> Live(pool, i) && q[i].value != v
    {
      OccurrencesSnoc(bag, v, q[i].value);
      if i < |pool| {
        assert Live(pool, i) && q[i] == pool[i];
      }
    }
    forall w | w in bag + [v]
      ensures Holds(q, w)
    {
      if w in bag {
        var i: nat :| Live(pool, i) && pool[i].value == w;
        assert Live(q, i) && q[i].value == w;
      } else {
        assert Live(q, |pool|) && q[|pool|].value == w;
      }
    }
  }

  lemma DeleteRepresents(pool: seq<Item>, bag: seq<Value>, index: nat)
    requires Represents(pool, bag) && Live(pool, index)
    ensures Represents(pool[index := pool[index].(count := 0)], WithoutValue(bag, pool[index].value))
  {
    var v := pool[index].value;
    var q := pool[index := pool[index].(count := 0)];
    var rest := WithoutValue(bag, v);
    forall i: nat | Live(q, i)
      ensures Live(pool, i) && q[i] == pool[i] && q[i].value != v && Occurrences(rest, q[i].value) == q[i].count
    {
      assert Live(pool, i);
      OccurrencesWithoutValue(bag, v, q[i].value);
    }
    forall w | w in rest
      ensures Holds(q, w)
    {
      OccurrencesWithoutValue(bag, v, w);
      var i: nat :| Live(pool, i) && pool[i].value == w;
      assert Live(q, i) && q[i].value == w;
    }
  }

  // ---------- deleting along a bucket ----------

  /** What a table, the pool and the bag have become, and how many values have been taken out. */
  datatype Progress = Progress(table: Table, pool: seq<Item>, rest: seq<Value>, count: nat)

  /** How far a scan of the bucket of key k has got after i slots, when every match is deleted. */
  ghost predicate Scanned(t0: Table, p0: seq<Item>, bag: seq<Value>, k: int, i: nat, g: Progress) {
    var b, u, q := BucketOf(k), g.table, g.pool;
    && Indexed(t0, p0, |p0|) && Indexed(u, q, |q|) && Represents(q, g.rest)
    && u.field == t0.field && |q| == |p0| && |u.buckets[b]| == |t0.buckets[b]|
    && (forall j: nat :: i <= j < |u.buckets[b]| ==> u.buckets[b][j] == t0.buckets[b][j])
    && (forall x: nat :: Live(q, x) ==> q[x] == p0[x])
    && (forall x: nat :: Live(p0, x) && !Live(q, x) ==> exists j: nat :: j < i && SlotAt(t0, b, j, x))
    && (forall j: nat, x: nat :: j < i && SlotAt(u, b, j, x) && Live(q, x) ==> Key(u.field, q[x].value) != k)
    && KeyCount(g.rest, t0.field, k) + g.count == KeyCount(bag, t0.field, k)
    && WithoutKey(g.rest, t0.field, k) == WithoutKey(bag, t0.field, k)
  }

  lemma ScanStarts(t: Table, pool: seq<Item>, bag: seq<Value>, k: int)
    requires Indexed(t, pool, |pool|) && Represents(pool, bag)
    ensures Scanned(t, pool, bag, k, 0, Progress(t, pool, bag, 0))
  {}

  /** Whether the i-th slot of the bucket of k holds a live item with that key. */
  predicate Matches(t: Table, pool: seq<Item>, k: int, i: nat) {
    && BucketOf(k) < |t.buckets| && i < |t.buckets[BucketOf(k)]|
    && var s := t.buckets[BucketOf(k)][i];
    s.Some? && Live(pool, s.value) && Key(t.field, pool[s.value].value) == k
  }

  /** A slot that is empty, stale, or of another key. */
  lemma ScanSkips(t0: Table, p0: seq<Item>, bag: seq<Value>, k: int, i: nat, g: Progress)
    requires Scanned(t0, p0, bag, k, i, g) && i < |t0.buckets[BucketOf(k)]| && !Matches(t0, p0, k, i)
    ensures Scanned(t0, p0, bag, k, i + 1, g)
  {
    forall x: nat | Live(p0, x) && !Live(g.pool, x)
      ensures exists j: nat :: j < i + 1 && SlotAt(t0, BucketOf(k), j, x)
    {
      var j: nat :| j < i && SlotAt(t0, BucketOf(k), j, x);
    }
    forall j: nat, x: nat | j < i + 1 && SlotAt(g.table, BucketOf(k), j, x) && Live(g.pool, x)
      ensures Key(g.table.field, g.pool[x].value) != k
    {
      assert g.pool[x] == p0[x] && Live(p0, x);
    }
  }

  /**
   The scanned slot is the same before any deletion and after those so far. A live item is met in
   one slot only, so it has not been deleted before.
   */
  lemma SameInBoth(t0: Table, p0: seq<Item>, bag: seq<Value>, k: int, i: nat, g: Progress)
    requires Scanned(t0, p0, bag, k, i, g) && i < |t0.buckets[BucketOf(k)]|
    ensures g.table.buckets[BucketOf(k)][i] == t0.buckets[BucketOf(k)][i]
    ensures var s := t0.buckets[BucketOf(k)][i]; s.Some? ==>
      s.value < |p0| == |g.pool| && (Live(p0, s.value) <==> Live(g.pool, s.value)) &&
      (Live(p0, s.value) ==> g.pool[s.value] == p0[s.value])
    ensures Matches(g.table, g.pool, k, i) <==> Matches(t0, p0, k, i)
  {
    var s := t0.buckets[BucketOf(k)][i];
    if s.Some? {
      assert SlotAt(t0, BucketOf(k), i, s.value);
    }
  }

  /** The progress after the matching slot i has been dealt with. */
  function Taken(g: Progress, k: int, i: nat): Progress
    requires Matches(g.table, g.pool, k, i)
  {
    var index := g.table.buckets[BucketOf(k)][i].value;
    var item := g.pool[index];
    Progress(WithSlot(g.table, BucketOf(k), i, None), g.pool[index := item.(count := 0)],
             WithoutValue(g.rest, item.value), g.count + item.count)
  }

  lemma ScanTakes(t0: Table, p0: seq<Item>, bag: seq<Value>, k: int, i: nat, g: Progress)
    requires Scanned(t0, p0, bag, k, i, g) && Matches(t0, p0, k, i)
    ensures Matches(g.table, g.pool, k, i) && Scanned(t0, p0, bag, k, i + 1, Taken(g, k, i))
  {
    SameInBoth(t0, p0, bag, k, i, g);
    var index := g.table.buckets[BucketOf(k)][i].value;
    var b, u, q, v := BucketOf(k), g.table, g.pool, g.pool[index].value;
    var u', q' := WithSlot(u, b, i, None), q[index := q[index].(count := 0)];
    RecountIndexed(u, q, index, 0);
    EmptySlotIndexed(u, q', b, i, index);
    DeleteRepresents(q, g.rest, index);
    KeyCountWithoutValue(g.rest, t0.field, v);
    forall x: nat | Live(p0, x) && !Live(q', x)
      ensures exists j: nat :: j < i + 1 && SlotAt(t0, b, j, x)
    {
      if x == index {
        assert SlotAt(t0, b, i, x);
      } else {
        assert !Live(q, x);
        var j: nat :| j < i && SlotAt(t0, b, j, x);
      }
    }
    forall j: nat, x: nat | j < i + 1 && SlotAt(u', b, j, x) && Live(q', x)
      ensures Key(u'.field, q'[x].value) != k
    {
      assert SlotAt(u, b, j, x) && Live(q, x) && j != i;
    }
  }

  lemma SlotIsInPool(t0: Table, p0: seq<Item>, bag: seq<Value>, k: int, i: nat, g: Progress)
    requires Scanned(t0, p0, bag, k, i, g) && i < |t0.buckets[BucketOf(k)]|
    ensures var s := t0.buckets[BucketOf(k)][i];
      s == g.table.buckets[BucketOf(k)][i] && (s.Some? ==> s.value < |p0| == |g.pool|)
  {
    SameInBoth(t0, p0, bag, k, i, g);
  }

  ghost function NextProgress(t0: Table, p0: seq<Item>, k: int, i: nat, g: Progress): Progress {
    if Matches(t0, p0, k, i) && Matches(g.table, g.pool, k, i) then Taken(g, k, i) else g
  }

  /** One more slot scanned. What is found there does not depend on the deletions so far. */
  lemma ScanNext(t0: Table, p0: seq<Item>, bag: seq<Value>, k: int, i: nat, g: Progress)
    requires Scanned(t0, p0, bag, k, i, g) && i < |t0.buckets[BucketOf(k)]|
    ensures Scanned(t0, p0, bag, k, i + 1, NextProgress(t0, p0, k, i, g))
    ensures Matches(g.table, g.pool, k, i) <==> Matches(t0, p0, k, i)
    ensures Matches(t0, p0, k, i) ==>
      var index := t0.buckets[BucketOf(k)][i].value;
      && g.table.buckets[BucketOf(k)][i] == Some(index) && g.pool[index] == p0[index]
      && NextProgress(t0, p0, k, i, g) == Progress(
           WithSlot(g.table, BucketOf(k), i, None), g.pool[index := p0[index].(count := 0)],
           WithoutValue(g.rest, p0[index].value), g.count + p0[index].count)
  {
    SameInBoth(t0, p0, bag, k, i, g);
    if Matches(t0, p0, k, i) {
      ScanTakes(t0, p0, bag, k, i, g);
    } else {
      ScanSkips(t0, p0, bag, k, i, g);
    }
  }

  /** At the end of the bucket no value with the key is left. */
  lemma ScanEnds(t0: Table, p0: seq<Item>, bag: seq<Value>, k: int, g: Progress)
    requires |t0.buckets| == BUCKETS && Scanned(t0, p0, bag, k, |t0.buckets[BucketOf(k)]|, g)
    ensures g.count == KeyCount(bag, t0.field, k) && g.rest == WithoutKey(bag, t0.field, k)
  {
    forall v | v in g.rest
      ensures Key(t0.field, v) != k
    {
      var x: nat :| Live(g.pool, x) && g.pool[x].value == v;
      var j: nat :| SlotAt(g.table, Home(g.table, v), j, x);
    }
    NoneWithKey(g.rest, t0.field, k);
  }

  // ---------- the program ----------

  class Store {
    var pool: seq<Item>
    var tables: seq<Table>
    ghost var bag: seq<Value>

    ghost predicate Valid()
      reads this
    {
      |tables| == 2 && tables[0].field == FieldA && tables[1].field == FieldB && Inv(tables, pool, bag)
    }

    constructor ()
      ensures Valid() && bag == []
    {
      pool := [];
      tables := [Table(FieldA, seq(BUCKETS, _ => [])), Table(FieldB, seq(BUCKETS, _ => []))];
      bag := [];
    }

    /** The number of slots in the bucket of table h in which v belongs. */
    ghost function Slots(h: nat, v: Value): nat
      requires h < |tables| && |tables[h].buckets| == BUCKETS
      reads this
    {
      |tables[h].buckets[Home(tables[h], v)]|
    }

    /** The table whose bucket for v is shortest, the first of these; None exactly if some bucket is empty. */
    method PickSmallest(v: Value) returns (smallest: Option<nat>)
      requires Valid()
      ensures smallest.None? <==> exists t :: 0 <= t < |tables| && Slots(t, v) == 0
      ensures smallest.Some? ==> smallest.value < |tables| && forall t :: 0 <= t < smallest.value ==>
        Slots(smallest.value, v) < Slots(t, v)
      ensures smallest.None? ==> !Holds(pool, v)
      ensures smallest.Some? ==> smallest.value < |tables| && forall t :: 0 <= t < |tables| ==>
        1 <= Slots(smallest.value, v) <= Slots(t, v)
    {
      smallest := None;
      var sizeInSmallest := 0;
      for h := 0 to |tables|
        invariant smallest.None? ==> h == 0
        invariant forall t :: 0 <= t < h ==> Slots(t, v) >= 1
        invariant smallest.Some? ==> smallest.value < h && sizeInSmallest == Slots(smallest.value, v)
        invariant smallest.Some? ==> forall t :: 0 <= t < h ==>
          if t < smallest.value then sizeInSmallest < Slots(t, v) else sizeInSmallest <= Slots(t, v)
      {
        var b := HashGetBucket(Key(tables[h].field, v));
        var size := |tables[h].buckets[b]|;
        assert size == Slots(h, v);
        if size == 0 {
          EmptyBucket(tables[h], pool, v);
          return None;
        }
        if smallest.None? || size < sizeInSmallest {
          sizeInSmallest := size;
          smallest := Some(h);
        }
      }
    }

    /**
     hash_find_add: the slot in which table h holds v, or else a free slot for it: the first
     emptied one of the bucket, or a new one at its end.
     */
    method HashFindAdd(h: nat, v: Value) returns (b: nat, place: nat)
      requires Valid() && h < |tables|
      modifies this`tables
      ensures Valid() && b == Home(tables[h], v) && place < |tables[h].buckets[b]|
      ensures match tables[h].buckets[b][place]
        case Some(index) => Live(pool, index) && pool[index].value == v
        case None => !Holds(pool, v)
    {
      b := HashGetBucket(Key(tables[h].field, v));
      var firstDeleted: Option<nat> := None;
      var bucket := tables[h].buckets[b];
      for i := 0 to |bucket|
        invariant firstDeleted.Some? ==> firstDeleted.value < i && bucket[firstDeleted.value] == None
        invariant forall j: nat, x: nat :: j < i && SlotAt(tables[h], b, j, x) && Live(pool, x) ==> pool[x].value != v
      {
        var index := bucket[i];
        if index == None {
          if firstDeleted == None {
            firstDeleted := Some(i);
          }
        } else {
          assert SlotAt(tables[h], b, i, index.value);
          var item := pool[index.value];
          if item.count != 0 && item.value == v {
            return b, i;
          }
        }
      }
      NotInBucket(tables[h], pool, v);
      if firstDeleted.Some? {
        return b, firstDeleted.value;
      }
      place := HashForceAdd(h, v);
    }

    /** hash_force_add: a new free slot at the end of the home bucket. */
    method HashForceAdd(h: nat, v: Value) returns (place: nat)
      requires h < |tables| && |tables[h].buckets| == BUCKETS
      modifies this`tables
      ensures tables == old(tables)[h := WithFreeSlot(old(tables)[h], Home(old(tables)[h], v))]
      ensures place == |old(tables)[h].buckets[Home(old(tables)[h], v)]|
      ensures forall p: seq<Item>, n: nat, t :: 0 <= t < |tables| && Indexed(old(tables)[t], p, n) ==>
        Indexed(tables[t], p, n)
      ensures forall x: nat, t :: 0 <= t < |tables| && NotListed(old(tables)[t], x) ==> NotListed(tables[t], x)
    {
      var b := HashGetBucket(Key(tables[h].field, v));
      place := |tables[h].buckets[b]|;
      ghost var t := tables[h];
      tables := tables[h := WithFreeSlot(tables[h], b)];
      forall p: seq<Item>, n: nat | Indexed(t, p, n)
        ensures Indexed(WithFreeSlot(t, b), p, n)
      {
        FreeSlotIndexed(t, p, n, b);
      }
      FreeSlotUnlisted(t, b);
    }

    /** add_to_all_other and add_to_all: the pool index goes into every table that lacks it. */
    method AddToAllOther(ignore: Option<nat>, v: Value, ghost n: nat)
      requires |pool| == n + 1 && pool[n].value == v && |tables| == 2
      requires forall t :: 0 <= t < |tables| ==>
        if ignore == Some(t) then Indexed(tables[t], pool, n + 1)
        else Indexed(tables[t], pool, n) && NotListed(tables[t], n)
      modifies this`tables
      ensures |tables| == |old(tables)|
      ensures forall t :: 0 <= t < |tables| ==>
        Indexed(tables[t], pool, n + 1) && tables[t].field == old(tables)[t].field
    {
      for h := 0 to |tables|
        invariant |tables| == 2
        invariant forall t :: 0 <= t < |tables| ==> tables[t].field == old(tables)[t].field
        invariant forall t :: 0 <= t < |tables| ==>
          if t < h || ignore == Some(t) then Indexed(tables[t], pool, n + 1)
          else Indexed(tables[t], pool, n) && NotListed(tables[t], n)
      {
        if ignore != Some(h) {
          var place := HashForceAdd(h, v);
          FillSlotIndexed(tables[h], pool, n, place);
          tables := tables[h := WithSlot(tables[h], Home(tables[h], v), place, Some(|pool| - 1))];
        }
      }
    }

    /** ++item->count */
    method IncrementItem(index: nat)
      requires Valid() && Live(pool, index)
      modifies this
      ensures Valid() && bag == old(bag) + [old(pool)[index].value]
      ensures index < |pool| && pool[index].count == Occurrences(bag, old(pool)[index].value)
    {
      ghost var before := pool;
      IncrementRepresents(pool, bag, index);
      bag := bag + [pool[index].value];
      pool := pool[index := pool[index].(count := pool[index].count + 1)];
      forall t | 0 <= t < |tables|
        ensures Indexed(tables[t], pool, |pool|)
      {
        RecountIndexed(tables[t], before, index, pool[index].count);
      }
    }

    /** A new item, with the free slot found in table `found` if a table was searched. */
    method InsertItem(v: Value, found: Option<nat>, place: nat)
      requires Valid() && !Holds(pool, v)
      requires found.Some? ==>
        var h := found.value;
        h < |tables| && place < |tables[h].buckets[Home(tables[h], v)]| &&
          tables[h].buckets[Home(tables[h], v)][place] == None
      modifies this
      ensures Valid() && bag == old(bag) + [v] && Occurrences(bag, v) == 1
    {
      ghost var n := |pool|;
      NewItemRepresents(pool, bag, v);
      forall t | 0 <= t < |tables|
        ensures Indexed(tables[t], pool + [Item(v, 1)], n) && NotListed(tables[t], n)
      {
        NewItemIndexed(tables[t], pool, v);
      }
      pool := pool + [Item(v, 1)];
      bag := bag + [v];
      if found.Some? {
        var h := found.value;
        FillSlotIndexed(tables[h], pool, n, place);
        tables := tables[h := WithSlot(tables[h], Home(tables[h], v), place, Some(|pool| - 1))];
      }
      AddToAllOther(found, v, n);
    }

    method AddValue(v: Value) returns (count: nat)
      requires Valid()
      modifies this
      ensures Valid() && bag == old(bag) + [v] && count == Occurrences(bag, v)
    {
      var h := PickSmallest(v);
      var b, place := 0, 0;
      if h.Some? {
        b, place := HashFindAdd(h.value, v);
        var slot := tables[h.value].buckets[b][place];
        if slot.Some? {
          IncrementItem(slot.value);
          return pool[slot.value].count;
        }
      }
      InsertItem(v, h, place);
      count := 1;
    }

    /** One slot of the scan: its count if it matches, with the item and the slot deleted if asked to. */
    method IterateSlot(h: nat, k: int, delete: bool, b: nat, i: nat) returns (count: nat)
      requires h < |tables| && b == BucketOf(k) < |tables[h].buckets| && i < |tables[h].buckets[b]|
      requires tables[h].buckets[b][i].Some? ==> tables[h].buckets[b][i].value < |pool|
      requires forall t :: 0 <= t < |tables| && t != h ==> Indexed(tables[t], pool, |pool|)
      modifies this`tables, this`pool
      ensures |tables| == |old(tables)|
      ensures !Matches(old(tables)[h], old(pool), k, i) ==> count == 0
      ensures Matches(old(tables)[h], old(pool), k, i) ==> count == old(pool)[old(tables)[h].buckets[b][i].value].count
      ensures if delete && Matches(old(tables)[h], old(pool), k, i)
        then
          var index := old(tables)[h].buckets[b][i].value;
          && tables[h] == WithSlot(old(tables)[h], b, i, None)
          && pool == old(pool)[index := old(pool)[index].(count := 0)]
        else tables[h] == old(tables)[h] && pool == old(pool)
      ensures forall t :: 0 <= t < |tables| && t != h ==>
        tables[t] == old(tables)[t] && Indexed(tables[t], pool, |pool|)
    {
      count := 0;
      var index := tables[h].buckets[b][i];
      if index != None {
        var item := pool[index.value];
        if item.count != 0 && k == Key(tables[h].field, item.value) {
          count := item.count;
          if delete {
            forall t | 0 <= t < |tables| && t != h
              ensures Indexed(tables[t], pool[index.value := item.(count := 0)], |pool|)
            {
              RecountIndexed(tables[t], pool, index.value, 0);
            }
            tables := tables[h := WithSlot(tables[h], b, i, None)];
            pool := pool[index.value := item.(count := 0)];
          }
        }
      }
    }

    /** The same slot within the scan that has got as far as `g`. */
    method ScanSlot(h: nat, k: int, delete: bool, b: nat, i: nat,
                    ghost t0: Table, ghost p0: seq<Item>, ghost bag: seq<Value>, ghost g: Progress)
      returns (count: nat)
      requires |tables| == 2 && h < |tables| && b == BucketOf(k) < |tables[h].buckets| && i < |tables[h].buckets[b]|
      requires Scanned(t0, p0, bag, k, i, g)
      requires tables[h] == (if delete then g.table else t0) && pool == (if delete then g.pool else p0)
      requires forall t :: 0 <= t < |tables| && t != h ==> Indexed(tables[t], pool, |pool|)
      modifies this`tables, this`pool
      ensures var next := NextProgress(t0, p0, k, i, g);
        && Scanned(t0, p0, bag, k, i + 1, next) && g.count + count == next.count
        && |tables| == 2 && h < |tables|
        && tables[h] == (if delete then next.table else t0) && pool == (if delete then next.pool else p0)
      ensures forall t :: 0 <= t < |tables| && t != h ==>
        tables[t] == old(tables)[t] && Indexed(tables[t], pool, |pool|)
    {
      SlotIsInPool(t0, p0, bag, k, i, g);
      ScanNext(t0, p0, bag, k, i, g);
      count := IterateSlot(h, k, delete, b, i);
    }

    /** hash_iterate_by_key: sums the counts of the values with key k, deleting them if asked to. */
    method HashIterateByKey(h: nat, k: int, delete: bool) returns (count: nat)
      requires Valid() && h < |tables|
      modifies this
      ensures Valid() && count == KeyCount(old(bag), tables[h].field, k)
      ensures bag == if delete then WithoutKey(old(bag), tables[h].field, k) else old(bag)
    {
      var b := HashGetBucket(k);
      count := 0;
      ghost var t0, p0 := tables[h], pool;
      ghost var g := Progress(tables[h], pool, bag, 0);
      ScanStarts(t0, p0, bag, k);
      for i := 0 to |tables[h].buckets[b]|
        invariant |tables| == 2 && bag == old(bag) && count == g.count
        invariant Scanned(t0, p0, bag, k, i, g)
        invariant tables[h] == (if delete then g.table else t0) && pool == (if delete then g.pool else p0)
        invariant forall t :: 0 <= t < |tables| && t != h ==>
          tables[t] == old(tables)[t] && Indexed(tables[t], pool, |pool|)
      {
        var found := ScanSlot(h, k, delete, b, i, t0, p0, bag, g);
        count := count + found;
        g := NextProgress(t0, p0, k, i, g);
      }
      ScanEnds(t0, p0, bag, k, g);
      if delete {
        bag := g.rest;
      }
    }

    /** One command; None where the program aborts. */
    method Perform(c: Command) returns (n: Option<nat>)
      requires Valid()
      modifies this
      ensures Valid() && (n.None? <==> Refused(c))
      ensures n.None? ==> bag == old(bag) && Reference(old(bag), c).None?
      ensures n.Some? ==> Effect(old(bag), c, n.value, bag) && Reference(old(bag), c) == Some((bag, n.value))
    {
      ReferenceIsMeant(bag, c);
      n := None;
      match c {
        case Add(v) =>
          var count := AddValue(v);
          n := Some(count);
        case Count(letter, k) =>
          if FieldOf(letter).Some? {
            var count := HashIterateByKey(if FieldOf(letter).value == FieldA then 0 else 1, k, false);
            n := Some(count);
          }
        case Delete(letter, k) =>
          if FieldOf(letter).Some? {
            var count := HashIterateByKey(if FieldOf(letter).value == FieldA then 0 else 1, k, true);
            n := Some(count);
          }
        case Unknown =>
      }
    }

    /** The command loop; `done` is false when a command made the program abort. */
    method Run(cs: seq<Command>) returns (printed: seq<nat>, done: bool, ghost states: seq<seq<Value>>)
      requires Valid()
      modifies this
      ensures Valid() && (printed, done) == ReferenceRun(old(bag), cs)
      ensures Explains(states, cs, printed, done) && states[0] == old(bag) && states[|printed|] == bag
    {
      printed, done, states := [], true, [bag];
      assert cs[0..] == cs;
      PrependNothing(ReferenceRun(bag, cs));
      for i := 0 to |cs|
        invariant Valid() && done
        invariant ReferenceRun(old(bag), cs) == Prepend(printed, ReferenceRun(bag, cs[i..]))
        invariant Explains(states, cs[..i], printed, true) && states[0] == old(bag) && states[i] == bag
      {
        assert cs[i..][1..] == cs[i + 1..];
        var n := Perform(cs[i]);
        if n.None? {
          AbortHere(printed);
          ExplainsAbort(states, cs, i, printed);
          return printed, false, states;
        }
        PrependAgain(printed, n.value, ReferenceRun(bag, cs[i + 1..]));
        ExplainsOneMore(states, cs, i, printed, n.value, bag);
        printed, states := printed + [n.value], states + [bag];
      }
      assert cs[..|cs|] == cs && printed + [] == printed;
    }
  }

  lemma ExplainsAbort(states: seq<seq<Value>>, cs: seq<Command>, i: nat, printed: seq<nat>)
    requires i < |cs| && Explains(states, cs[..i], printed, true) && Refused(cs[i])
    ensures Explains(states, cs, printed, false)
  {}

  lemma ExplainsOneMore(states: seq<seq<Value>>, cs: seq<Command>, i: nat, printed: seq<nat>, n: nat, next: seq<Value>)
    requires i < |cs| && Explains(states, cs[..i], printed, true) && Effect(states[i], cs[i], n, next)
    ensures Explains(states + [next], cs[..i + 1], printed + [n], true)
  {}

  function Prepend(printed: seq<nat>, run: (seq<nat>, bool)): (seq<nat>, bool) {
    (printed + run.0, run.1)
  }

  lemma PrependNothing(run: (seq<nat>, bool))
    ensures Prepend([], run) == run
  {
    assert [] + run.0 == run.0;
  }

  lemma AbortHere(printed: seq<nat>)
    ensures Prepend(printed, ([], false)) == (printed, false)
  {
    assert printed + [] == printed;
  }

  lemma PrependAgain(printed: seq<nat>, n: nat, run: (seq<nat>, bool))
    ensures Prepend(printed, ([n] + run.0, run.1)) == Prepend(printed + [n], run)
  {
    assert printed + ([n] + run.0) == (printed + [n]) + run.0;
  }

  /** Nothing in the home bucket holds v, so nothing does. */
  lemma NotInBucket(t: Table, pool: seq<Item>, v: Value)
    requires Indexed(t, pool, |pool|)
    requires forall j: nat, x: nat :: SlotAt(t, Home(t, v), j, x) && Live(pool, x) ==> pool[x].value != v
    ensures !Holds(pool, v)
  {}

  lemma FreeSlotUnlisted(t: Table, b: nat)
    requires b < |t.buckets|
    ensures forall x: nat :: NotListed(t, x) ==> NotListed(WithFreeSlot(t, b), x)
  {
    var u := WithFreeSlot(t, b);
    forall c: nat, i: nat, x: nat
      ensures SlotAt(u, c, i, x) <==> SlotAt(t, c, i, x)
    {}
  }

  lemma EmptyBucket(t: Table, pool: seq<Item>, v: Value)
    requires Indexed(t, pool, |pool|) && t.buckets[Home(t, v)] == []
    ensures !Holds(pool, v)
  {}
}
