/** Small facts about sequences that several models share. */
module Collections {

  datatype Option<+T> = None | Some(value: T)

  /** The sum of a weight over a sequence. */
  function Total<T>(s: seq<T>, weight: T -> int): int {
    if s == [] then 0 else weight(s[0]) + Total(s[1..], weight)
  }

  lemma {:induction false} TotalUpdate<T>(s: seq<T>, i: nat, x: T, weight: T -> int)
    requires i < |s|
    ensures Total(s[i := x], weight) == Total(s, weight) - weight(s[i]) + weight(x)
  {
    if i == 0 {
      assert s[i := x][1..] == s[1..];
    } else {
      assert s[i := x][1..] == s[1..][i - 1 := x];
      TotalUpdate(s[1..], i - 1, x, weight);
    }
  }

  /** A sum of nonnegative weights is nonnegative, and no smaller than any one of them. */
  lemma {:induction false} TotalBounds<T>(s: seq<T>, weight: T -> int)
    requires forall x :: x in s ==> 0 <= weight(x)
    ensures 0 <= Total(s, weight)
    ensures forall i :: 0 <= i < |s| ==> weight(s[i]) <= Total(s, weight)
  {
    if s != [] {
      TotalBounds(s[1..], weight);
      forall i | 0 <= i < |s|
        ensures weight(s[i]) <= Total(s, weight)
      {
        assert i > 0 ==> s[i] == s[1..][i - 1];
      }
    }
  }

  /** The sum is zero when every weight is. */
  lemma {:induction false} TotalZero<T>(s: seq<T>, weight: T -> int)
    requires forall x :: x in s ==> weight(x) == 0
    ensures Total(s, weight) == 0
  {
    if s != [] {
      TotalZero(s[1..], weight);
    }
  }

  lemma {:induction false} TotalConstant<T>(s: seq<T>, weight: T -> int, c: int)
    requires forall x :: x in s ==> weight(x) == c
    ensures Total(s, weight) == |s| * c
  {
    if s != [] {
      TotalConstant(s[1..], weight, c);
    }
  }

  /** Changing every element by at most `gain` changes the sum by at most `gain` each. */
  lemma {:induction false} TotalGain<T>(s: seq<T>, t: seq<T>, weight: T -> int, gain: int)
    requires |s| == |t|
    requires forall i :: 0 <= i < |s| ==> weight(t[i]) <= weight(s[i]) + gain
    ensures Total(t, weight) <= Total(s, weight) + gain * |s|
  {
    if s != [] {
      TotalGain(s[1..], t[1..], weight, gain);
    }
  }
}
