/**
 The circular buffer of mpmc.c (lines 57-76): a fixed array, a head and a tail pointer that wrap
 around, and a separate element count, so that an empty and a full ring (both with head == tail)
 can be told apart. The pure `Ring` is what the interleaving model steps over; the class is the
 same buffer updated in place.
 */
module RingQueue {

  datatype Ring<T> = Ring(slots: seq<T>, head: nat, tail: nat, used: nat)

  /** Where the pointer goes after `ptr`: one further, or back to the start of the array. */
  function Advance(ptr: nat, size: nat): nat {
    if ptr + 1 < size then ptr + 1 else 0
  }

  /** The slot `offset` places after `head`, with at most one wrap around. */
  function SlotAt(head: nat, offset: nat, size: nat): nat {
    if head + offset < size then head + offset else head + offset - size
  }

  ghost predicate InRange<T>(slots: seq<T>, head: nat, len: nat) {
    len <= |slots| && (head < |slots| || (|slots| == 0 && head == 0))
  }

  /** The `len` elements queued from `head` on, oldest first. */
  ghost function Window<T>(slots: seq<T>, head: nat, len: nat): (w: seq<T>)
    requires InRange(slots, head, len)
    ensures |w| == len
  {
    seq(len, i requires 0 <= i < len => slots[SlotAt(head, i, |slots|)])
  }

  /** Storing at the slot behind a window that does not fill the array appends to the window. */
  lemma StoreAppends<T>(slots: seq<T>, head: nat, len: nat, x: T)
    requires InRange(slots, head, len) && len < |slots|
    ensures Window(slots[SlotAt(head, len, |slots|) := x], head, len + 1) == Window(slots, head, len) + [x]
    ensures Advance(SlotAt(head, len, |slots|), |slots|) == SlotAt(head, len + 1, |slots|)
  {
    assert len + 1 == |slots| ==> head + len + 1 >= |slots|;
  }

  /** Stepping the head over a nonempty window drops the oldest element. */
  lemma FetchDrops<T>(slots: seq<T>, head: nat, len: nat)
    requires InRange(slots, head, len) && 0 < len
    ensures InRange(slots, Advance(head, |slots|), len - 1)
    ensures Window(slots, head, len) == [slots[head]] + Window(slots, Advance(head, |slots|), len - 1)
    ensures SlotAt(Advance(head, |slots|), len - 1, |slots|) == SlotAt(head, len, |slots|)
  {
    var n := |slots|;
    forall i | 0 <= i < len - 1
      ensures SlotAt(Advance(head, n), i, n) == SlotAt(head, i + 1, n)
    {}
  }

  /** The ring with its pointers inside the array, the tail exactly `used` slots behind the head. */
  class BoundedQueue<T(0)> {
    const slots: array<T>
    var head: nat
    var tail: nat
    var used: nat

    ghost predicate Valid()
      reads this, slots
    {
      InRange(slots[..], head, used) && tail == SlotAt(head, used, slots.Length)
    }

    ghost function Contents(): (s: seq<T>)
      requires Valid()
      reads this, slots
    {
      Window(slots[..], head, used)
    }

    constructor (size: nat)
      ensures Valid() && fresh(slots) && slots.Length == size
      ensures Contents() == []
    {
      slots := new T[size];
      head, tail, used := 0, 0, 0;
    }

    /** Returns the slot a pointer denotes and the pointer moved on by one. */
    method GetAndAdvance(ptr: nat) returns (item: nat, next: nat)
      ensures item == ptr && next == Advance(ptr, slots.Length)
    {
      item := ptr;
      next := ptr + 1;
      if !(next < slots.Length) {
        next := 0;
      }
    }

    method Insert(x: T)
      requires Valid() && used < slots.Length
      modifies this, slots
      ensures Valid()
      ensures Contents() == old(Contents()) + [x]
      ensures slots[..] == old(slots[..])[old(tail) := x] && tail == Advance(old(tail), slots.Length)
      ensures head == old(head) && used == old(used) + 1
    {
      StoreAppends(slots[..], head, used, x);
      var item, next := GetAndAdvance(tail);
      ghost var before := slots[..];
      tail := next;
      slots[item] := x;
      used := used + 1;
      assert slots[..] == before[item := x];
    }

    method Retrieve() returns (x: T)
      requires Valid() && 1 <= used
      modifies this
      ensures Valid()
      ensures old(Contents()) == [x] + Contents()
      ensures head == Advance(old(head), slots.Length)
      ensures tail == old(tail) && used == old(used) - 1
    {
      FetchDrops(slots[..], head, used);
      var item, next := GetAndAdvance(head);
      head := next;
      x := slots[item];
      used := used - 1;
    }
  }
}
