/** Generic sequence operations behind the inventory's list comprehensions
    and its uses of Python's `max`/`min` with a key. */
module Seqs {

  /** `a` is obtained from `b` by deleting elements: same order, no
      additions. */
  predicate IsSubsequence<T(==)>(a: seq<T>, b: seq<T>)
    decreases |b|
  {
    |a| == 0 || (|b| > 0 && ((a[0] == b[0] && IsSubsequence(a[1..], b[1..])) || IsSubsequence(a, b[1..])))
  }

  /** `[x for x in s if keep(x)]`: the elements that pass, in their order,
      each as often as it occurs in `s`. */
  function Filter<T(==,!new)>(s: seq<T>, keep: T -> bool): (r: seq<T>)
    ensures |r| <= |s|
    ensures IsSubsequence(r, s)
    ensures forall i :: 0 <= i < |r| ==> keep(r[i])
    ensures forall x :: multiset(r)[x] == if keep(x) then multiset(s)[x] else 0
    decreases |s|
  {
    if s == [] then []
    else
      var rest := Filter(s[1..], keep);
      assert s == [s[0]] + s[1..];
      assert multiset(s) == multiset{s[0]} + multiset(s[1..]);
      if keep(s[0]) then
        var r := [s[0]] + rest;
        assert r[1..] == rest;
        assert multiset(r) == multiset{s[0]} + multiset(rest);
        r
      else
        assert IsSubsequence(rest, s) by {
          if rest != [] {
            assert IsSubsequence(rest, s[1..]);
          }
        }
        rest
  }

  /** Every element of `s` has property `P`. */
  predicate All<T>(s: seq<T>, P: T -> bool) {
    forall j :: 0 <= j < |s| ==> P(s[j])
  }

  /** Removing the element at `i` keeps a property every element has. */
  lemma AllAfterRemove<T>(s: seq<T>, i: int, P: T -> bool)
    requires 0 <= i < |s| && All(s, P)
    ensures All(s[..i] + s[i + 1..], P)
  {
    var r := s[..i] + s[i + 1..];
    forall j | 0 <= j < |r| ensures P(r[j]) {
      if j < i {
        assert r[j] == s[j];
      } else {
        assert r[j] == s[j + 1];
      }
    }
  }

  /** Python's `max(s, key=key)`: the first element whose key is not beaten
      by any other, as found by a left-to-right scan that only replaces its
      candidate on a strictly greater key. */
  function FirstMaxIndex<T>(s: seq<T>, key: T -> real): (i: nat)
    requires |s| > 0
    ensures i < |s|
    ensures forall j :: 0 <= j < |s| ==> key(s[j]) <= key(s[i])
    ensures forall x :: x in s ==> key(x) <= key(s[i])
    ensures forall j :: 0 <= j < i ==> key(s[j]) < key(s[i])
    decreases |s|
  {
    if |s| == 1 then 0
    else
      var best := FirstMaxIndex(s[..|s| - 1], key);
      assert forall j :: 0 <= j < |s| - 1 ==> s[..|s| - 1][j] == s[j];
      if key(s[|s| - 1]) > key(s[best]) then |s| - 1 else best
  }

  /** Python's `min(s, key=key)`: the first element whose key is not
      undercut by any other. */
  function FirstMinIndex<T>(s: seq<T>, key: T -> real): (i: nat)
    requires |s| > 0
    ensures i < |s|
    ensures forall j :: 0 <= j < |s| ==> key(s[i]) <= key(s[j])
    ensures forall x :: x in s ==> key(s[i]) <= key(x)
    ensures forall j :: 0 <= j < i ==> key(s[i]) < key(s[j])
    decreases |s|
  {
    if |s| == 1 then 0
    else
      var best := FirstMinIndex(s[..|s| - 1], key);
      assert forall j :: 0 <= j < |s| - 1 ==> s[..|s| - 1][j] == s[j];
      if key(s[|s| - 1]) < key(s[best]) then |s| - 1 else best
  }
}
