/** Ranking, binning and the integer part of the report in `main`
    (cmd/phase-times/main.go): samples are ordered by (total, median), cut
    into contiguous bins, each bin sums its members, and the report ends with
    a row of per-phase totals and a grand total.

    The program steps a floating-point cursor to place bin boundaries; the
    model takes the boundaries as integer cut points
    `0 == cuts[0] <= cuts[1] <= ... <= cuts[k] == |samples|`.
 */
module Binning {
  import opened Wrappers
  import opened Arith
  import opened Sorting
  import opened Phases
  import opened Text

  /** The comparator handed to `sort.Slice`: by total, ties by median. */
  predicate SampleLess(a: Record, b: Record) {
    if a.total != b.total then a.total < b.total else a.median < b.median
  }

  /** The comparator is a strict weak order, as `sort.Slice` needs: samples
      it cannot separate are exactly those with equal total and median. */
  lemma SampleLessStrictWeakOrder(a: Record, b: Record, c: Record)
    ensures !SampleLess(a, a)
    ensures SampleLess(a, b) && SampleLess(b, c) ==> SampleLess(a, c)
    ensures SampleLess(a, b) <==> a.total < b.total || (a.total == b.total && a.median < b.median)
    ensures !SampleLess(a, b) && !SampleLess(b, a) <==> a.total == b.total && a.median == b.median
  {
  }

  predicate SortedSamples(s: seq<Record>) {
    forall i, j :: 0 <= i < j < |s| ==> !SampleLess(s[j], s[i])
  }

  function InsertSample(x: Record, s: seq<Record>): (r: seq<Record>)
    requires SortedSamples(s)
    ensures SortedSamples(r)
    ensures multiset(r) == multiset(s) + multiset{x}
    ensures |r| == |s| + 1
    ensures r[0] == x || (|s| > 0 && r[0] == s[0])
  {
    if |s| == 0 then [x]
    else if !SampleLess(s[0], x) then [x] + s
    else
      var r' := InsertSample(x, s[1..]);
      assert s == [s[0]] + s[1..];
      ConsSortedSamples(s[0], r');
      [s[0]] + r'
  }

  /** A sample no greater than the head of a sorted sequence extends it. */
  lemma ConsSortedSamples(a: Record, t: seq<Record>)
    requires SortedSamples(t) && (|t| > 0 ==> !SampleLess(t[0], a))
    ensures SortedSamples([a] + t)
  {
    var u := [a] + t;
    forall i, j | 0 <= i < j < |u| ensures !SampleLess(u[j], u[i]) {
      if i == 0 && j > 1 {
        assert !SampleLess(t[j - 1], t[0]);
      }
    }
  }

  /** The samples in ascending (total, median) order. `sort.Slice` is not
      stable, so samples with equal keys may come out in any order; this is
      one of the orders it may produce, and the binning results below hold
      for every sorted arrangement. */
  function SortSamples(s: seq<Record>): (r: seq<Record>)
    ensures SortedSamples(r)
    ensures multiset(r) == multiset(s)
    ensures |r| == |s|
  {
    if |s| == 0 then []
    else
      assert s == [s[0]] + s[1..];
      InsertSample(s[0], SortSamples(s[1..]))
  }

  /** What a sample must satisfy to be added into a vector of `width` slots. */
  predicate Fits(s: seq<Record>, width: nat) {
    forall k :: 0 <= k < |s| ==> WellFormed(s[k]) && |s[k].phases| <= width
  }

  /** The loop body of bin aggregation: adds one sample into the bin, slot
      by slot, with `uint64` wrap-around. */
  function AddSample(acc: Record, s: Record): (r: Record)
    requires WellFormed(acc) && WellFormed(s) && |s.phases| <= |acc.phases|
    ensures WellFormed(r) && |r.phases| == |acc.phases|
    ensures forall j :: 0 <= j < |r.phases| ==>
      r.phases[j] == (acc.phases[j] + Pad(s.phases, |acc.phases|)[j]) % Modulus
    ensures r.total == Add64(acc.total, s.total)
  {
    var p := seq(|acc.phases|, j requires 0 <= j < |acc.phases| =>
      if j < |s.phases| then Add64(acc.phases[j], s.phases[j]) else acc.phases[j]);
    Record(p, Add64(acc.total, s.total), Add64(acc.median, s.median))
  }

  /** Adds the samples into `acc` in order. */
  function Accumulate(acc: Record, members: seq<Record>): (r: Record)
    requires WellFormed(acc) && Fits(members, |acc.phases|)
    ensures WellFormed(r) && |r.phases| == |acc.phases|
    decreases |members|
  {
    if |members| == 0 then acc
    else Accumulate(AddSample(acc, members[0]), members[1..])
  }

  /** The exact element-wise sum of the members' (zero-padded) vectors. */
  function PhaseSums(members: seq<Record>, width: nat): (v: seq<nat>)
    requires forall k :: 0 <= k < |members| ==> |members[k].phases| <= width
    ensures |v| == width
  {
    if |members| == 0 then Zeros(width)
    else VecAdd(Pad(members[0].phases, width), PhaseSums(members[1..], width))
  }

  /** The exact sum of the members' totals. */
  function TotalSum(members: seq<Record>): nat {
    if |members| == 0 then 0 else members[0].total + TotalSum(members[1..])
  }

  /** The exact sum of every member's whole vector. */
  function VectorSum(members: seq<Record>): nat {
    if |members| == 0 then 0 else Sum(members[0].phases) + VectorSum(members[1..])
  }

  /** Accumulating wraps the exact sums. */
  lemma {:induction false} AccumulateSums(acc: Record, members: seq<Record>)
    requires WellFormed(acc) && Fits(members, |acc.phases|)
    ensures Accumulate(acc, members).phases ==
      Wrap(VecAdd(acc.phases, PhaseSums(members, |acc.phases|)))
    ensures Accumulate(acc, members).total == (acc.total + TotalSum(members)) % Modulus
    decreases |members|
  {
    var w := |acc.phases|;
    if |members| == 0 {
      assert PhaseSums(members, w) == Zeros(w);
      VecAddZerosRight(acc.phases);
      WrapU64(acc.phases);
    } else {
      var m := members[0];
      var acc' := AddSample(acc, m);
      AccumulateSums(acc', members[1..]);
      var rest := PhaseSums(members[1..], w);
      assert PhaseSums(members, w) == VecAdd(Pad(m.phases, w), rest);
      AddSampleStep(acc, m, rest);
      ModAddCongruence(acc.total + m.total, TotalSum(members[1..]));
    }
  }

  /** One step of accumulation, on the wrapped vectors. */
  lemma AddSampleStep(acc: Record, m: Record, rest: seq<nat>)
    requires WellFormed(acc) && WellFormed(m) && |m.phases| <= |acc.phases| == |rest|
    ensures Wrap(VecAdd(AddSample(acc, m).phases, rest)) ==
      Wrap(VecAdd(acc.phases, VecAdd(Pad(m.phases, |acc.phases|), rest)))
  {
    var w := |acc.phases|;
    var lhs := Wrap(VecAdd(AddSample(acc, m).phases, rest));
    var rhs := Wrap(VecAdd(acc.phases, VecAdd(Pad(m.phases, w), rest)));
    forall j | 0 <= j < w ensures lhs[j] == rhs[j] {
      ModAddCongruence(acc.phases[j] + Pad(m.phases, w)[j], rest[j]);
    }
  }

  lemma VecAddZerosRight(v: seq<nat>)
    ensures VecAdd(v, Zeros(|v|)) == v
  {
  }

  lemma WrapU64(v: seq<nat>)
    requires AllU64(v)
    ensures Wrap(v) == v
  {
  }

  /** The exact phase sums add up to the exact vector sums. */
  lemma {:induction false} SumPhaseSums(members: seq<Record>, width: nat)
    requires forall k :: 0 <= k < |members| ==> |members[k].phases| <= width
    ensures Sum(PhaseSums(members, width)) == VectorSum(members)
  {
    if |members| == 0 {
      SumZeros(width);
    } else {
      SumPhaseSums(members[1..], width);
      SumVecAdd(Pad(members[0].phases, width), PhaseSums(members[1..], width));
      SumPad(members[0].phases, width);
    }
  }

  /** When every member's total is its wrapped vector sum, the wrapped sum of
      the totals is the wrapped sum of all vectors. */
  lemma {:induction false} TotalSumConsistent(members: seq<Record>)
    requires forall k :: 0 <= k < |members| ==> Consistent(members[k])
    ensures TotalSum(members) % Modulus == VectorSum(members) % Modulus
  {
    if |members| > 0 {
      var m := members[0];
      TotalSumConsistent(members[1..]);
      calc {
        TotalSum(members) % Modulus;
        (Sum(m.phases) % Modulus + TotalSum(members[1..])) % Modulus;
        { ModAddCongruence(Sum(m.phases), TotalSum(members[1..])); }
        (Sum(m.phases) + TotalSum(members[1..])) % Modulus;
        { ModAddCongruence(TotalSum(members[1..]), Sum(m.phases)); }
        (TotalSum(members[1..]) % Modulus + Sum(m.phases)) % Modulus;
        { ModAddCongruence(VectorSum(members[1..]), Sum(m.phases)); }
        VectorSum(members) % Modulus;
      }
    }
  }

  lemma VecAddZeros(v: seq<nat>)
    ensures VecAdd(Zeros(|v|), v) == v
  {
  }

  /** Accumulating from an empty vector wraps the exact sums. */
  lemma AccumulateFromEmpty(members: seq<Record>, width: nat)
    requires Fits(members, width)
    ensures Accumulate(NewRecord(width), members).phases == Wrap(PhaseSums(members, width))
    ensures Accumulate(NewRecord(width), members).total == TotalSum(members) % Modulus
  {
    AccumulateSums(NewRecord(width), members);
    VecAddZeros(PhaseSums(members, width));
  }

  /** One bin: the members' vectors summed slot by slot, their totals summed,
      and the median recomputed over the summed vector (the medians the loop
      also adds up are overwritten by that recomputation). */
  function MakeBin(members: seq<Record>, width: nat): (bin: Record)
    requires width > 0 && Fits(members, width)
    ensures WellFormed(bin) && |bin.phases| == width
    ensures bin.phases == Wrap(PhaseSums(members, width))
    ensures bin.total == TotalSum(members) % Modulus
    ensures bin.median == MedianOf(bin.phases)
  {
    AccumulateFromEmpty(members, width);
    ComputeMedianTime(Accumulate(NewRecord(width), members))
  }

  /** A bin of consistent members is consistent: its total is the wrapped
      sum of its summed vector. */
  lemma BinConsistent(members: seq<Record>, width: nat)
    requires width > 0 && Fits(members, width)
    requires forall k :: 0 <= k < |members| ==> Consistent(members[k])
    ensures Consistent(MakeBin(members, width))
  {
    var bin := MakeBin(members, width);
    SumWrap(PhaseSums(members, width));
    SumPhaseSums(members, width);
    TotalSumConsistent(members);
  }

  /** The bin median is that of the summed vector, which in general differs
      from the sum of the members' medians: two samples with vectors
      `[1, 0, 0]` and `[0, 0, 1]` both have median 0, and their bin, with
      vector `[1, 0, 1]`, has median 1. */
  lemma BinMedianNotSummedMedians(a: Record, b: Record)
    requires WellFormed(a) && WellFormed(b)
    requires |a.phases| == 3 && a.phases[0] == 1 && a.phases[1] == 0 && a.phases[2] == 0
    requires |b.phases| == 3 && b.phases[0] == 0 && b.phases[1] == 0 && b.phases[2] == 1
    ensures MedianOf(a.phases) == 0 && MedianOf(b.phases) == 0
    ensures MakeBin([a, b], 3).median == 1
  {
    MedianOneZeroZero(a.phases);
    MedianZeroZeroOne(b.phases);
    var v := ExampleBin(a, b);
    MedianOneZeroOne(v);
  }

  lemma MedianOneZeroZero(p: seq<nat>)
    requires |p| == 3 && p[0] == 1 && p[1] == 0 && p[2] == 0
    ensures MedianOf(p) == 0
  {
    VectorAsMultiset(p);
    MedianOfThree(p, 0, 0, 1);
  }

  lemma MedianZeroZeroOne(p: seq<nat>)
    requires |p| == 3 && p[0] == 0 && p[1] == 0 && p[2] == 1
    ensures MedianOf(p) == 0
  {
    VectorAsMultiset(p);
    MedianOfThree(p, 0, 0, 1);
  }

  lemma MedianOneZeroOne(p: seq<nat>)
    requires |p| == 3 && p[0] == 1 && p[1] == 0 && p[2] == 1
    ensures MedianOf(p) == 1
  {
    VectorAsMultiset(p);
    MedianOfThree(p, 0, 1, 1);
  }

  lemma ExampleBin(a: Record, b: Record) returns (v: seq<nat>)
    requires WellFormed(a) && WellFormed(b)
    requires |a.phases| == 3 && a.phases[0] == 1 && a.phases[1] == 0 && a.phases[2] == 0
    requires |b.phases| == 3 && b.phases[0] == 0 && b.phases[1] == 0 && b.phases[2] == 1
    ensures v == MakeBin([a, b], 3).phases && AllU64(v)
    ensures |v| == 3 && v[0] == 1 && v[1] == 0 && v[2] == 1
  {
    assert [a, b][1..] == [b];
    PhaseSumsSingle(b, 3);
    assert Pad(b.phases, 3) == b.phases;
    assert Pad(a.phases, 3) == a.phases;
    v := MakeBin([a, b], 3).phases;
  }

  lemma VectorAsMultiset(p: seq<nat>)
    requires |p| == 3
    ensures multiset(p) == multiset{p[0], p[1], p[2]}
  {
    assert p == [p[0], p[1], p[2]];
  }

  /** The median of a three-slot vector is its middle value. */
  lemma MedianOfThree(p: seq<nat>, lo: nat, mid: nat, hi: nat)
    requires |p| == 3 && AllU64(p) && lo <= mid <= hi
    requires multiset(p) == multiset{lo, mid, hi}
    ensures MedianOf(p) == Add64(mid, mid) / 2
  {
    var t := [lo, mid, hi];
    assert multiset(t) == multiset{lo, mid, hi};
    assert SortedAsc(t);
    MedianOfSortedCopy(p, t);
  }

  /** Bin boundaries: ascending, from 0 to the number of samples. */
  predicate ValidCuts(cuts: seq<nat>, n: nat) {
    && |cuts| > 0 && cuts[0] == 0 && cuts[|cuts| - 1] == n
    && forall i, j :: 0 <= i <= j < |cuts| ==> cuts[i] <= cuts[j]
  }

  /** The bin a sample rank falls into, if any. */
  predicate InBin(cuts: seq<nat>, i: nat, t: nat) {
    i + 1 < |cuts| && cuts[i] <= t < cuts[i + 1]
  }

  /** Every rank below `n` falls into exactly one bin. */
  lemma {:induction false} CutsPartition(cuts: seq<nat>, n: nat, t: nat)
    requires ValidCuts(cuts, n) && t < n
    ensures exists i :: InBin(cuts, i, t)
    ensures forall i, k :: InBin(cuts, i, t) && InBin(cuts, k, t) ==> i == k
  {
    var last := |cuts| - 1;
    if cuts[last - 1] <= t {
      assert InBin(cuts, last - 1, t);
    } else {
      var front := cuts[..last];
      CutsPartition(front, cuts[last - 1], t);
      var i :| InBin(front, i, t);
      assert InBin(cuts, i, t);
    }
  }

  /** The members of bin `i`. */
  function BinMembers(samples: seq<Record>, cuts: seq<nat>, i: nat): (m: seq<Record>)
    requires ValidCuts(cuts, |samples|) && i + 1 < |cuts|
    ensures |m| == cuts[i + 1] - cuts[i]
  {
    samples[cuts[i]..cuts[i + 1]]
  }

  /** All bins of a configuration, in rank order: bin `i` is made of the
      samples ranked `cuts[i]` up to `cuts[i + 1]`. */
  function MakeBins(samples: seq<Record>, cuts: seq<nat>, width: nat): (bins: seq<Record>)
    requires (width > 0 || |cuts| == 1) && Fits(samples, width) && ValidCuts(cuts, |samples|)
    ensures |bins| == |cuts| - 1
    ensures forall i :: 0 <= i < |bins| ==> bins[i] == MakeBin(BinMembers(samples, cuts, i), width)
  {
    seq(|cuts| - 1, i requires 0 <= i < |cuts| - 1 => MakeBin(BinMembers(samples, cuts, i), width))
  }

  /** `uint64` sum of a vector, added left to right from `acc`. */
  function WrapSumFrom(acc: nat, s: seq<nat>): (r: nat)
    requires acc < Modulus
    ensures r == (acc + Sum(s)) % Modulus
    decreases |s|
  {
    if |s| == 0 then acc
    else
      ModAddCongruence(acc + s[0], Sum(s[1..]));
      WrapSumFrom(Add64(acc, s[0]), s[1..])
  }

  /** The integer part of the trailing report row. */
  datatype Totals = Totals(perPhase: seq<nat>, grand: nat)

  /** Per-phase sums across all bins, and their sum, in `uint64`. */
  function PhaseTotals(bins: seq<Record>, width: nat): (t: Totals)
    requires Fits(bins, width)
    ensures |t.perPhase| == width && AllU64(t.perPhase)
    ensures t.perPhase == Wrap(PhaseSums(bins, width))
    ensures t.grand == Sum(PhaseSums(bins, width)) % Modulus
  {
    var acc := Accumulate(NewRecord(width), bins);
    AccumulateFromEmpty(bins, width);
    SumWrap(PhaseSums(bins, width));
    Totals(acc.phases, WrapSumFrom(0, acc.phases))
  }

  /** The concatenation of the groups, in order. */
  function Flatten(groups: seq<seq<Record>>): seq<Record> {
    if |groups| == 0 then [] else groups[0] + Flatten(groups[1..])
  }

  function AllMembers(samples: seq<Record>, cuts: seq<nat>): (g: seq<seq<Record>>)
    requires ValidCuts(cuts, |samples|)
    ensures |g| == |cuts| - 1
    ensures forall i :: 0 <= i < |g| ==> g[i] == BinMembers(samples, cuts, i)
  {
    seq(|cuts| - 1, i requires 0 <= i < |cuts| - 1 => BinMembers(samples, cuts, i))
  }

  /** The bins, read in order, hold every sample exactly once. */
  lemma {:induction false} BinsCoverSamples(samples: seq<Record>, cuts: seq<nat>)
    requires ValidCuts(cuts, |samples|)
    ensures Flatten(AllMembers(samples, cuts)) == samples
    decreases |cuts|
  {
    if |cuts| == 1 {
      assert samples == [];
    } else {
      var last := |cuts| - 1;
      var front := samples[..cuts[last - 1]];
      var cuts' := cuts[..last];
      BinsCoverSamples(front, cuts');
      var g := AllMembers(samples, cuts);
      var g' := AllMembers(front, cuts');
      forall i | 0 <= i < last - 1 ensures g[i] == g'[i] {
        FrontMember(samples, cuts, i);
      }
      assert g[last - 1] == samples[cuts[last - 1]..];
      assert g == g' + [samples[cuts[last - 1]..]];
      FlattenAppend(AllMembers(front, cuts'), samples[cuts[last - 1]..]);
      assert samples == front + samples[cuts[last - 1]..];
    }
  }

  /** Dropping the last cut point keeps every earlier bin. */
  lemma FrontMember(samples: seq<Record>, cuts: seq<nat>, i: nat)
    requires ValidCuts(cuts, |samples|) && i + 2 < |cuts|
    ensures ValidCuts(cuts[..|cuts| - 1], cuts[|cuts| - 2])
    ensures BinMembers(samples[..cuts[|cuts| - 2]], cuts[..|cuts| - 1], i) == BinMembers(samples, cuts, i)
  {
    var last := |cuts| - 1;
    assert cuts[i + 1] <= cuts[last - 1];
  }

  lemma {:induction false} FlattenAppend(groups: seq<seq<Record>>, last: seq<Record>)
    ensures Flatten(groups + [last]) == Flatten(groups) + last
  {
    if |groups| > 0 {
      assert (groups + [last])[1..] == groups[1..] + [last];
      FlattenAppend(groups[1..], last);
    }
  }

  /** The bin boundaries the cursor `a += len/50` stands for, in exact
      arithmetic: bin `k` holds ranks `k*n/50` up to `(k+1)*n/50`, and no
      sample means no bin. */
  const Bins: nat := 50

  function ExactCuts(n: nat): (cuts: seq<nat>)
    ensures ValidCuts(cuts, n)
    ensures n > 0 ==> |cuts| == Bins + 1
    ensures n == 0 ==> |cuts| == 1
    ensures n > 0 ==> forall k :: 0 <= k <= Bins ==> cuts[k] == k * n / Bins
  {
    if n == 0 then [0]
    else
      var cuts := seq(Bins + 1, k requires 0 <= k <= Bins => k * n / Bins);
      assert forall i, j :: 0 <= i <= j < |cuts| ==> cuts[i] <= cuts[j] by {
        forall i, j | 0 <= i <= j < |cuts| ensures cuts[i] <= cuts[j] {
          ScaledFloorMonotone(i, j, n);
        }
      }
      cuts
  }

  lemma ScaledFloorMonotone(i: nat, j: nat, n: nat)
    requires i <= j
    ensures i * n / Bins <= j * n / Bins
  {
    assert i * n <= j * n by {
      assert (j - i) * n >= 0;
    }
  }

  /** Every sample lands in exactly one of the fifty bins. */
  lemma ExactCutsPartition(n: nat, t: nat)
    requires t < n
    ensures exists i :: InBin(ExactCuts(n), i, t)
    ensures forall i, k :: InBin(ExactCuts(n), i, t) && InBin(ExactCuts(n), k, t) ==> i == k
  {
    CutsPartition(ExactCuts(n), n, t);
  }

  /** Concatenating two groups adds their phase sums. */
  lemma {:induction false} PhaseSumsAppend(a: seq<Record>, b: seq<Record>, width: nat)
    requires forall k :: 0 <= k < |a| ==> |a[k].phases| <= width
    requires forall k :: 0 <= k < |b| ==> |b[k].phases| <= width
    ensures PhaseSums(a + b, width) == VecAdd(PhaseSums(a, width), PhaseSums(b, width))
    decreases |a|
  {
    if |a| == 0 {
      assert a + b == b;
      VecAddZeros(PhaseSums(b, width));
    } else {
      assert (a + b)[1..] == a[1..] + b;
      PhaseSumsAppend(a[1..], b, width);
    }
  }

  /** The phase sums of one record is its padded vector. */
  lemma PhaseSumsSingle(r: Record, width: nat)
    requires |r.phases| <= width
    ensures PhaseSums([r], width) == Pad(r.phases, width)
    ensures |r.phases| == width ==> PhaseSums([r], width) == r.phases
  {
    assert Pad(r.phases, width)[..|r.phases|] == r.phases;
  }

  /** Wrapping a vector sum only depends on the wrapped operands. */
  lemma WrapVecAdd(u: seq<nat>, v: seq<nat>)
    requires |u| == |v|
    ensures Wrap(VecAdd(Wrap(u), Wrap(v))) == Wrap(VecAdd(u, v))
  {
    forall j | 0 <= j < |u|
      ensures (u[j] % Modulus + v[j] % Modulus) % Modulus == (u[j] + v[j]) % Modulus
    {
      ModAddCongruence(u[j], v[j] % Modulus);
      ModAddCongruence(v[j], u[j]);
    }
  }

  lemma WrapIdempotent(u: seq<nat>)
    ensures Wrap(Wrap(u)) == Wrap(u)
  {
  }

  /** The wrapped phase sums over all bins are the wrapped phase sums over
      all samples: binning drops and repeats nothing. */
  lemma BinSumsMatchSamples(samples: seq<Record>, cuts: seq<nat>, width: nat)
    requires width > 0 && Fits(samples, width) && ValidCuts(cuts, |samples|)
    ensures Fits(MakeBins(samples, cuts, width), width)
    ensures Wrap(PhaseSums(MakeBins(samples, cuts, width), width)) == Wrap(PhaseSums(samples, width))
  {
    var groups := AllMembers(samples, cuts);
    var bins := MakeBins(samples, cuts, width);
    forall i | 0 <= i < |groups| ensures Fits(groups[i], width) {
      assert groups[i] == samples[cuts[i]..cuts[i + 1]];
    }
    BinsCoverSamples(samples, cuts);
    BinsOfGroups(groups, bins, width);
  }

  /** Bins made of consecutive groups have, wrapped, the phase sums of all
      the groups' members. */
  lemma {:induction false} BinsOfGroups(groups: seq<seq<Record>>, bins: seq<Record>, width: nat)
    requires |bins| == |groups|
    requires forall i :: 0 <= i < |groups| ==>
      Fits(groups[i], width) && WellFormed(bins[i]) && bins[i].phases == Wrap(PhaseSums(groups[i], width))
    ensures Fits(bins, width) && Fits(Flatten(groups), width)
    ensures Wrap(PhaseSums(bins, width)) == Wrap(PhaseSums(Flatten(groups), width))
    decreases |groups|
  {
    if |groups| == 0 {
      assert bins == [] && Flatten(groups) == [];
    } else {
      BinsOfGroups(groups[1..], bins[1..], width);
      assert bins == [bins[0]] + bins[1..];
      SnocFront(bins[0], bins[1..], groups[0], Flatten(groups[1..]), width);
    }
  }

  /** Prepending a bin of `g` to bins whose sums match `rest` gives bins
      whose sums match `g + rest`. */
  lemma SnocFront(bin: Record, bins: seq<Record>, g: seq<Record>, rest: seq<Record>, width: nat)
    requires Fits(bins, width) && Fits(g, width) && Fits(rest, width)
    requires WellFormed(bin) && bin.phases == Wrap(PhaseSums(g, width))
    requires Wrap(PhaseSums(bins, width)) == Wrap(PhaseSums(rest, width))
    ensures Fits([bin] + bins, width) && Fits(g + rest, width)
    ensures Wrap(PhaseSums([bin] + bins, width)) == Wrap(PhaseSums(g + rest, width))
  {
    assert ([bin] + bins)[1..] == bins;
    PhaseSumsAppend(g, rest, width);
    assert Pad(bin.phases, width) == bin.phases;
    WrapVecAdd(PhaseSums(g, width), PhaseSums(rest, width));
    WrapVecAdd(bin.phases, PhaseSums(bins, width));
    WrapIdempotent(PhaseSums(g, width));
  }

  /** The totals row of a configuration: each phase total is the wrapped sum
      of that phase over all samples, and the grand total is the wrapped sum
      of all samples' vectors, which is the wrapped sum of their totals when
      every sample is consistent. */
  lemma TotalsMatchSamples(samples: seq<Record>, cuts: seq<nat>, width: nat)
    requires width > 0 && Fits(samples, width) && ValidCuts(cuts, |samples|)
    ensures Fits(MakeBins(samples, cuts, width), width)
    ensures PhaseTotals(MakeBins(samples, cuts, width), width).perPhase == Wrap(PhaseSums(samples, width))
    ensures PhaseTotals(MakeBins(samples, cuts, width), width).grand == VectorSum(samples) % Modulus
    ensures (forall k :: 0 <= k < |samples| ==> Consistent(samples[k])) ==>
      PhaseTotals(MakeBins(samples, cuts, width), width).grand == TotalSum(samples) % Modulus
  {
    var bins := MakeBins(samples, cuts, width);
    BinSumsMatchSamples(samples, cuts, width);
    SumWrap(PhaseSums(bins, width));
    SumWrap(PhaseSums(samples, width));
    SumPhaseSums(samples, width);
    if forall k :: 0 <= k < |samples| ==> Consistent(samples[k]) {
      TotalSumConsistent(samples);
    }
  }

  /** Inserting a sample adds its vector and its total. */
  lemma {:induction false} InsertSampleSums(x: Record, s: seq<Record>, width: nat)
    requires SortedSamples(s) && |x.phases| <= width
    requires forall k :: 0 <= k < |s| ==> |s[k].phases| <= width
    ensures forall k :: 0 <= k < |InsertSample(x, s)| ==> |InsertSample(x, s)[k].phases| <= width
    ensures PhaseSums(InsertSample(x, s), width) == VecAdd(Pad(x.phases, width), PhaseSums(s, width))
    ensures TotalSum(InsertSample(x, s)) == x.total + TotalSum(s)
    decreases |s|
  {
    var r := InsertSample(x, s);
    InsertSampleFits(x, s, width);
    if |s| == 0 {
      assert r == [x] && r[1..] == [];
    } else if !SampleLess(s[0], x) {
      assert r == [x] + s && r[1..] == s;
    } else {
      var r' := InsertSample(x, s[1..]);
      assert r == [s[0]] + r' && r[1..] == r';
      InsertSampleSums(x, s[1..], width);
      VecAddSwap(Pad(s[0].phases, width), Pad(x.phases, width), PhaseSums(s[1..], width));
    }
  }

  lemma InsertSampleFits(x: Record, s: seq<Record>, width: nat)
    requires SortedSamples(s) && |x.phases| <= width
    requires forall k :: 0 <= k < |s| ==> |s[k].phases| <= width
    ensures forall k :: 0 <= k < |InsertSample(x, s)| ==> |InsertSample(x, s)[k].phases| <= width
  {
    var r := InsertSample(x, s);
    forall k | 0 <= k < |r| ensures |r[k].phases| <= width {
      assert r[k] in multiset(s) + multiset{x};
    }
  }

  lemma VecAddSwap(u: seq<nat>, v: seq<nat>, w: seq<nat>)
    requires |u| == |v| == |w|
    ensures VecAdd(u, VecAdd(v, w)) == VecAdd(v, VecAdd(u, w))
  {
  }

  /** Sorting neither adds nor loses anything from the sums. */
  lemma {:induction false} SortSamplesSums(s: seq<Record>, width: nat)
    requires forall k :: 0 <= k < |s| ==> |s[k].phases| <= width
    ensures forall k :: 0 <= k < |SortSamples(s)| ==> |SortSamples(s)[k].phases| <= width
    ensures PhaseSums(SortSamples(s), width) == PhaseSums(s, width)
    ensures TotalSum(SortSamples(s)) == TotalSum(s)
    decreases |s|
  {
    if |s| > 0 {
      SortSamplesSums(s[1..], width);
      InsertSampleSums(s[0], SortSamples(s[1..]), width);
    }
  }

  /** The per-configuration part of the report. */
  datatype Summary = Summary(bins: seq<Record>, totals: Totals)

  /** The records in ranking order; they still fit `width` slots. */
  function SortedFit(records: seq<Record>, width: nat): (sorted: seq<Record>)
    requires Fits(records, width)
    ensures sorted == SortSamples(records) && Fits(sorted, width)
  {
    var sorted := SortSamples(records);
    assert Fits(sorted, width) by {
      forall k | 0 <= k < |sorted| ensures WellFormed(sorted[k]) && |sorted[k].phases| <= width {
        assert sorted[k] in multiset(records);
      }
    }
    sorted
  }

  /** Sorts a configuration's records, bins them, and totals the bins. */
  function Summarize(records: seq<Record>, width: nat): (r: Summary)
    requires (width > 0 || |records| == 0) && Fits(records, width)
    ensures |records| > 0 ==> |r.bins| == Bins
    ensures |records| == 0 ==> r.bins == []
    // the bins are cut from the ranking at the exact cut points
    ensures r.bins == MakeBins(SortedFit(records, width), ExactCuts(|records|), width)
    ensures r.totals.perPhase == Wrap(PhaseSums(records, width))
    ensures (forall k :: 0 <= k < |records| ==> Consistent(records[k])) ==>
      r.totals.grand == TotalSum(records) % Modulus
  {
    var sorted := SortedFit(records, width);
    var cuts := ExactCuts(|sorted|);
    var bins := MakeBins(sorted, cuts, width);
    SortSamplesSums(records, width);
    if |records| > 0 then
      TotalsMatchSamples(sorted, cuts, width);
      if forall k :: 0 <= k < |records| ==> Consistent(records[k]) then
        assert forall k :: 0 <= k < |sorted| ==> Consistent(sorted[k]) by {
          forall k | 0 <= k < |sorted| ensures Consistent(sorted[k]) {
            assert sorted[k] in multiset(records);
          }
        }
        Summary(bins, PhaseTotals(bins, width))
      else
        Summary(bins, PhaseTotals(bins, width))
    else
      assert bins == [] && sorted == [];
      Summary(bins, PhaseTotals(bins, width))
  }

  /** The label of the bin holding ranks `lo` up to `hi`: `[lo,hi)`. */
  function BinLabel(lo: nat, hi: nat): (s: string)
    ensures |s| >= 5 && s[0] == '[' && s[|s| - 1] == ')'
    // the two bounds, in canonical decimal, between `[`, `,` and `)`
    ensures exists a, b :: && s == "[" + a + "," + b + ")"
                           && Canonical(a) && Canonical(b)
                           && DecimalValue(a) == lo && DecimalValue(b) == hi
  {
    var a, b := FormatUint(lo), FormatUint(hi);
    FormatThenValue(lo);
    FormatThenValue(hi);
    "[" + a + "," + b + ")"
  }

  /** Distinct bounds give distinct labels: a label names its bin. */
  lemma BinLabelInjective(lo: nat, hi: nat, lo': nat, hi': nat)
    requires BinLabel(lo, hi) == BinLabel(lo', hi')
    ensures lo == lo' && hi == hi'
  {
    LabelParts(FormatUint(lo), FormatUint(hi), FormatUint(lo'), FormatUint(hi'));
    FormatThenValue(lo);
    FormatThenValue(hi);
    FormatThenValue(lo');
    FormatThenValue(hi');
  }

  lemma LabelParts(a: string, b: string, a': string, b': string)
    requires AllDigits(a) && AllDigits(a')
    requires "[" + a + "," + b + ")" == "[" + a' + "," + b' + ")"
    ensures a == a' && b == b'
  {
    var s := "[" + a + "," + b + ")";
    var s' := "[" + a' + "," + b' + ")";
    assert |a| == |a'| by {
      assert s[|a| + 1] == ',' && s'[|a'| + 1] == ',';
    }
    assert a == s[1..|a| + 1] && a' == s'[1..|a| + 1];
    assert b == s[|a| + 2..|s| - 1] && b' == s'[|a| + 2..|s'| - 1];
  }

  /** The text cells of the totals row: a caption, one decimal cell per
      phase, and the grand total. */
  function TotalsRowText(t: Totals): (cells: seq<string>)
    requires AllU64(t.perPhase) && t.grand < Modulus
    ensures |cells| == |t.perPhase| + 2 && cells[0] == "PHASE TOTALS (ns)"
    ensures forall i :: 0 <= i < |t.perPhase| ==> ParseUint(cells[i + 1]) == Some(t.perPhase[i])
    ensures ParseUint(cells[|cells| - 1]) == Some(t.grand)
    // every number cell is the canonical `%d` numeral, without leading zeros
    ensures forall i :: 1 <= i < |cells| ==> Canonical(cells[i])
  {
    FormatAllParse(t.perPhase);
    FormatThenParse(t.grand);
    ["PHASE TOTALS (ns)"] + seq(|t.perPhase|, i requires 0 <= i < |t.perPhase| => FormatUint(t.perPhase[i]))
      + [FormatUint(t.grand)]
  }

  lemma FormatAllParse(v: seq<nat>)
    requires AllU64(v)
    ensures forall i :: 0 <= i < |v| ==> ParseUint(FormatUint(v[i])) == Some(v[i])
  {
    forall i | 0 <= i < |v| ensures ParseUint(FormatUint(v[i])) == Some(v[i]) {
      FormatThenParse(v[i]);
    }
  }
}
