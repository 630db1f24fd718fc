/** Ascending sort of phase-time vectors, as the median computation uses it. */
module Sorting {

  predicate SortedAsc(s: seq<nat>) {
    forall i, j :: 0 <= i < j < |s| ==> s[i] <= s[j]
  }

  /** A value no greater than the head of a sorted sequence extends it. */
  lemma ConsSorted(a: nat, t: seq<nat>)
    requires SortedAsc(t) && (|t| > 0 ==> a <= t[0])
    ensures SortedAsc([a] + t)
  {
    var u := [a] + t;
    forall i, j | 0 <= i < j < |u| ensures u[i] <= u[j] {
      if i == 0 && j > 1 {
        assert t[0] <= t[j - 1];
      }
    }
  }

  /** Inserts `x` into a sorted vector, keeping it sorted. */
  function Insert(x: nat, s: seq<nat>): (r: seq<nat>)
    requires SortedAsc(s)
    ensures SortedAsc(r)
    ensures multiset(r) == multiset(s) + multiset{x}
    ensures |r| == |s| + 1
    ensures r[0] == x || (|s| > 0 && r[0] == s[0])
  {
    if |s| == 0 then [x]
    else if x <= s[0] then [x] + s
    else
      var r' := Insert(x, s[1..]);
      assert s == [s[0]] + s[1..];
      ConsSorted(s[0], r');
      [s[0]] + r'
  }

  /** The sorted copy of `s`: same elements, ascending order. */
  function SortAsc(s: seq<nat>): (r: seq<nat>)
    ensures SortedAsc(r)
    ensures multiset(r) == multiset(s)
    ensures |r| == |s|
  {
    if |s| == 0 then []
    else
      assert s == [s[0]] + s[1..];
      Insert(s[0], SortAsc(s[1..]))
  }

  /** The first element of a sorted vector is its least element. */
  lemma SortedHeadIsLeast(s: seq<nat>, x: nat)
    requires SortedAsc(s) && x in multiset(s)
    ensures s[0] <= x
  {
    var k :| 0 <= k < |s| && s[k] == x;
  }

  /** A multiset has only one ascending arrangement. */
  lemma {:induction false} SortedUnique(a: seq<nat>, b: seq<nat>)
    requires SortedAsc(a) && SortedAsc(b)
    requires multiset(a) == multiset(b)
    ensures a == b
  {
    assert |a| == |multiset(a)| == |multiset(b)| == |b|;
    if |a| > 0 {
      assert a[0] in multiset(b);
      assert b[0] in multiset(a);
      SortedHeadIsLeast(b, a[0]);
      SortedHeadIsLeast(a, b[0]);
      assert a[0] == b[0];
      assert a == [a[0]] + a[1..];
      assert b == [b[0]] + b[1..];
      assert multiset(a[1..]) == multiset(a) - multiset{a[0]};
      assert multiset(b[1..]) == multiset(b) - multiset{b[0]};
      SortedUnique(a[1..], b[1..]);
    }
  }

  /** In a sorted vector, an element value found at index `i` bounds the
      number of zeros: every zero lies strictly before a nonzero element. */
  lemma {:induction false} ZerosPrecedeNonzero(s: seq<nat>, i: nat)
    requires SortedAsc(s) && i < |s| && s[i] != 0
    ensures multiset(s)[0] <= i
  {
    assert s == s[..i] + s[i..];
    assert multiset(s) == multiset(s[..i]) + multiset(s[i..]);
    assert 0 !in multiset(s[i..]);
    assert multiset(s[..i])[0] <= |multiset(s[..i])| == i by {
      MultiplicityBound(s[..i], 0);
    }
  }

  lemma {:induction false} MultiplicityBound(s: seq<nat>, x: nat)
    ensures multiset(s)[x] <= |s|
  {
    if |s| > 0 {
      assert s == s[..|s| - 1] + [s[|s| - 1]];
      MultiplicityBound(s[..|s| - 1], x);
    }
  }
}
