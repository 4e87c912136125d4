/** Finite sums over sequences, used for counting and for progress measures. */
module Sums {

  function Sum(s: seq<int>): int {
    if s == [] then 0 else s[0] + Sum(s[1..])
  }

  lemma {:induction false} SumAppend(s: seq<int>, t: seq<int>)
    ensures Sum(s + t) == Sum(s) + Sum(t)
  {
    if s == [] {
      assert s + t == t;
    } else {
      assert (s + t)[1..] == s[1..] + t;
      SumAppend(s[1..], t);
    }
  }

  lemma SumUpdate(s: seq<int>, i: nat, x: int)
    requires i < |s|
    ensures Sum(s[i := x]) == Sum(s) - s[i] + x
  {
    assert s == s[..i] + ([s[i]] + s[i + 1..]);
    assert s[i := x] == s[..i] + ([x] + s[i + 1..]);
    SumAppend(s[..i], [s[i]] + s[i + 1..]);
    SumAppend(s[..i], [x] + s[i + 1..]);
  }

  lemma {:induction false} SumMono(s: seq<int>, t: seq<int>)
    requires |s| == |t| && forall i :: 0 <= i < |s| ==> s[i] <= t[i]
    ensures Sum(s) <= Sum(t)
  {
    if s != [] {
      SumMono(s[1..], t[1..]);
    }
  }

  /** If only position `i` may grow, by at most `a`, so may the sum. */
  lemma SumRise1(s: seq<int>, t: seq<int>, i: nat, a: int)
    requires |s| == |t| && i < |s|
    requires forall k :: 0 <= k < |s| ==> t[k] <= s[k] + (if k == i then a else 0)
    ensures Sum(t) <= Sum(s) + a
  {
    SumUpdate(s, i, s[i] + a);
    SumMono(t, s[i := s[i] + a]);
  }

  lemma SumRise(s: seq<int>, t: seq<int>, i: nat, a: int, j: nat, b: int)
    requires |s| == |t| && i < |s| && j < |s|
    requires forall k :: 0 <= k < |s| ==> t[k] <= s[k] + (if k == i then a else 0) + (if k == j then b else 0)
    ensures Sum(t) <= Sum(s) + a + b
  {
    SumRise1(s, s[i := s[i] + a], i, a);
    SumRise1(s[i := s[i] + a], t, j, b);
  }

  lemma {:induction false} SumNonNegative(s: seq<int>)
    requires forall i :: 0 <= i < |s| ==> s[i] >= 0
    ensures Sum(s) >= 0
  {
    if s != [] {
      SumNonNegative(s[1..]);
    }
  }
}
