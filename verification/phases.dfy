/** The per-compilation record of phase times (`allPhases` in
    cmd/phase-times/main.go) and its median.

    A record holds a vector of phase times indexed by phase id, the running
    total of the times written into it, and a median that is computed once
    the whole log has been read. Slots that were never written hold zero.
 */
module Phases {
  import opened Arith
  import opened Sorting

  datatype Record = Record(phases: seq<nat>, total: nat, median: nat)

  /** Every field fits in a `uint64`. */
  predicate WellFormed(r: Record) {
    AllU64(r.phases) && r.total < Modulus && r.median < Modulus
  }

  /** The running total is the (wrapped) sum of the vector. */
  predicate Consistent(r: Record) {
    r.total == Sum(r.phases) % Modulus
  }

  /** A fresh record whose vector is pre-sized to `width` zero slots. */
  function NewRecord(width: nat): (r: Record)
    ensures WellFormed(r) && Consistent(r)
    ensures |r.phases| == width && r.total == 0 && r.median == 0
    ensures forall i :: 0 <= i < width ==> r.phases[i] == 0
  {
    SumZeros(width);
    Record(Zeros(width), 0, 0)
  }

  /** `p` grown with zeros to at least `n` slots. */
  function Extend(p: seq<nat>, n: nat): (q: seq<nat>)
    ensures |q| >= n && |q| >= |p| && q[..|p|] == p
    ensures |p| < n ==> |q| == n
    ensures |p| >= n ==> q == p
    ensures forall i :: |p| <= i < |q| ==> q[i] == 0
    ensures Sum(q) == Sum(p)
  {
    if |p| >= n then p
    else
      SumPad(p, n);
      Pad(p, n)
  }

  /** Records `time` for phase `phase`: a zero time is ignored, and only the
      first nonzero write to a slot takes effect. */
  function SetTime(r: Record, phase: nat, time: nat): (r': Record)
    requires WellFormed(r) && time < Modulus
    ensures WellFormed(r')
    ensures r'.median == r.median
    // zero is never written
    ensures time == 0 ==> r' == r
    // first write wins
    ensures phase < |r.phases| && r.phases[phase] != 0 ==> r' == r
    // a write into an unset slot
    ensures time != 0 && (phase >= |r.phases| || r.phases[phase] == 0) ==>
      && |r'.phases| == (if phase < |r.phases| then |r.phases| else phase + 1)
      && r'.phases[phase] == time
      && (forall i :: 0 <= i < |r.phases| && i != phase ==> r'.phases[i] == r.phases[i])
      && (forall i :: |r.phases| <= i < |r'.phases| && i != phase ==> r'.phases[i] == 0)
      && r'.total == Add64(r.total, time)
  {
    if time == 0 then r
    else
      var p := Extend(r.phases, phase + 1);
      if p[phase] != 0 then r.(phases := p)
      else Record(p[phase := time], Add64(r.total, time), r.median)
  }

  /** Recording the same time for the same phase a second time changes nothing. */
  lemma SetTimeTwice(r: Record, phase: nat, time: nat)
    requires WellFormed(r) && time < Modulus
    ensures SetTime(SetTime(r, phase, time), phase, time) == SetTime(r, phase, time)
  {
  }

  /** Starting from a consistent record, `SetTime` keeps the total equal to
      the wrapped sum of the vector. */
  lemma SetTimeConsistent(r: Record, phase: nat, time: nat)
    requires WellFormed(r) && time < Modulus
    requires Consistent(r)
    ensures Consistent(SetTime(r, phase, time))
  {
    if time != 0 {
      var p := Extend(r.phases, phase + 1);
      if p[phase] == 0 {
        SumUpdate(p, phase, time);
        assert Sum(p[phase := time]) == Sum(r.phases) + time;
        ModAddCongruence(Sum(r.phases), time);
      }
    }
  }

  /** `uint64(s[l/2] + s[(l-1)/2]) / 2` for an already sorted vector `s`. */
  function MedianOfSorted(s: seq<nat>): nat
    requires |s| > 0 && AllU64(s)
  {
    Add64(s[|s| / 2], s[(|s| - 1) / 2]) / 2
  }

  /** The median of `p`: `MedianOfSorted` of its sorted copy. */
  function MedianOf(p: seq<nat>): (m: nat)
    requires |p| > 0 && AllU64(p)
    ensures m < Modulus
  {
    var s := SortAsc(p);
    SortedCopyU64(p, s);
    MedianOfSorted(s)
  }

  lemma SortedCopyU64(p: seq<nat>, s: seq<nat>)
    requires AllU64(p) && multiset(s) == multiset(p)
    ensures AllU64(s) && |s| == |p|
  {
    BoundedCopy(p, s, Modulus);
  }

  /** A rearrangement keeps every upper bound of the elements. */
  lemma BoundedCopy(p: seq<nat>, s: seq<nat>, bound: nat)
    requires multiset(s) == multiset(p)
    requires forall i :: 0 <= i < |p| ==> p[i] < bound
    ensures forall i :: 0 <= i < |s| ==> s[i] < bound
    ensures |s| == |p|
  {
    assert |s| == |multiset(s)| == |multiset(p)| == |p|;
    forall i | 0 <= i < |s| ensures s[i] < bound {
      assert s[i] in multiset(p);
    }
  }

  /** The median depends only on the multiset of phase times: any ascending
      arrangement of them yields it. */
  lemma MedianOfSortedCopy(p: seq<nat>, t: seq<nat>)
    requires |p| > 0 && AllU64(p)
    requires SortedAsc(t) && multiset(t) == multiset(p)
    ensures |t| == |p| && AllU64(t)
    ensures MedianOf(p) == Add64(t[|t| / 2], t[(|t| - 1) / 2]) / 2
  {
    SortedCopyU64(p, t);
    SortedUnique(t, SortAsc(p));
  }

  /** Reordering the vector does not change the median. */
  lemma MedianPermutationInvariant(p: seq<nat>, q: seq<nat>)
    requires |p| > 0 && AllU64(p) && AllU64(q)
    requires multiset(p) == multiset(q)
    ensures |q| > 0 && MedianOf(p) == MedianOf(q)
  {
    assert |q| == |multiset(q)| == |multiset(p)| == |p|;
    SortedUnique(SortAsc(p), SortAsc(q));
  }

  /** Without wrap-around, the median of a sorted vector is its middle
      element (odd length) or the floor of the mean of its two central
      elements (even length). */
  lemma MedianOfSortedMiddle(s: seq<nat>)
    requires |s| > 0 && forall i :: 0 <= i < |s| ==> s[i] < Half
    ensures AllU64(s)
    ensures |s| % 2 == 1 ==> MedianOfSorted(s) == s[|s| / 2]
    ensures |s| % 2 == 0 ==> MedianOfSorted(s) == (s[|s| / 2] + s[|s| / 2 - 1]) / 2
  {
    var l := |s|;
    var a, b := s[l / 2], s[(l - 1) / 2];
    assert a + b < Modulus;
    assert Add64(a, b) == a + b;
    if l % 2 == 1 {
      assert (l - 1) / 2 == l / 2;
    } else {
      assert (l - 1) / 2 == l / 2 - 1;
    }
  }

  /** When no two times can wrap, an odd-length vector's median is the
      middle element of its ascending arrangement `t`, and an even-length
      one's is the floor of the mean of the two central elements. */
  lemma MedianMiddle(p: seq<nat>, t: seq<nat>)
    requires |p| > 0 && forall i :: 0 <= i < |p| ==> p[i] < Half
    requires SortedAsc(t) && multiset(t) == multiset(p)
    ensures AllU64(p) && |t| == |p|
    ensures |p| % 2 == 1 ==> MedianOf(p) == t[|p| / 2]
    ensures |p| % 2 == 0 ==> MedianOf(p) == (t[|p| / 2] + t[|p| / 2 - 1]) / 2
  {
    assert AllU64(p);
    BoundedCopy(p, t, Half);
    MedianOfSortedCopy(p, t);
    MedianOfSortedMiddle(t);
  }

  /** When no two times can wrap, the median lies between the least and the
      greatest phase time. */
  lemma MedianBetween(p: seq<nat>)
    requires |p| > 0 && forall i :: 0 <= i < |p| ==> p[i] < Half
    ensures AllU64(p)
    ensures exists i :: 0 <= i < |p| && p[i] <= MedianOf(p)
    ensures exists j :: 0 <= j < |p| && MedianOf(p) <= p[j]
  {
    var s := SortAsc(p);
    BoundedCopy(p, s, Half);
    assert MedianOf(p) == MedianOfSorted(s);
    var lo, hi := s[(|s| - 1) / 2], s[|s| / 2];
    assert lo <= MedianOf(p) <= hi;
    assert lo in multiset(p) && hi in multiset(p);
    var i :| 0 <= i < |p| && p[i] == lo;
    var j :| 0 <= j < |p| && p[j] == hi;
  }

  /** Without the bound the median can fall below every phase time: two
      times of `2^64 - 1` wrap when added and give `2^63 - 1`. */
  lemma MedianCanWrap(p: seq<nat>)
    requires |p| == 2 && p[0] == Modulus - 1 && p[1] == Modulus - 1
    ensures AllU64(p)
    ensures MedianOf(p) == Half - 1 && MedianOf(p) < p[0] && MedianOf(p) < p[1]
  {
    assert AllU64(p);
    MedianOfSortedCopy(p, p);
  }

  /** When more than half of the slots are zero (unset phases count), the
      median is zero. */
  lemma MedianZeroMajority(p: seq<nat>)
    requires |p| > 0 && AllU64(p)
    requires multiset(p)[0] * 2 > |p|
    ensures MedianOf(p) == 0
  {
    var s := SortAsc(p);
    SortedCopyU64(p, s);
    assert MedianOf(p) == MedianOfSorted(s);
    var l := |s|;
    if s[l / 2] != 0 {
      ZerosPrecedeNonzero(s, l / 2);
      assert false;
    }
    assert s[(l - 1) / 2] <= s[l / 2];
  }

  /** `computeMedianTime`: fills in the median, leaving the rest untouched. */
  function ComputeMedianTime(r: Record): (r': Record)
    requires WellFormed(r) && |r.phases| > 0
    ensures WellFormed(r')
    ensures r'.phases == r.phases && r'.total == r.total
    ensures r'.median == MedianOf(r.phases)
  {
    r.(median := MedianOf(r.phases))
  }

  /** `medianTime`: the stored median, computed first when it is still zero. */
  function MedianTime(r: Record): (res: (Record, nat))
    requires WellFormed(r) && (r.median != 0 || |r.phases| > 0)
    ensures WellFormed(res.0) && res.1 == res.0.median
    ensures res.0.phases == r.phases && res.0.total == r.total
    ensures r.median != 0 ==> res.0 == r
    ensures r.median == 0 ==> res.1 == MedianOf(r.phases)
  {
    var r' := if r.median == 0 then ComputeMedianTime(r) else r;
    (r', r'.median)
  }

  /** Asking for the median again returns the same value. */
  lemma MedianTimeStable(r: Record)
    requires WellFormed(r) && (r.median != 0 || |r.phases| > 0)
    ensures MedianTime(MedianTime(r).0) == MedianTime(r)
  {
  }
}
