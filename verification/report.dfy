/** The per-configuration report in `main` (cmd/phase-times/main.go): the
    records of one configuration, with their medians filled in, are listed
    in map-iteration order, then sorted, binned and totalled.
 */
module Report {
  import opened Arith
  import opened Phases
  import opened PhaseIndex
  import opened Parse
  import opened Binning

  /** `order` lists every compilation of `comps` exactly once. Go leaves the
      iteration order of a map unspecified, so the order is a parameter. */
  predicate Lists(order: seq<Compilation>, comps: Compilations) {
    && (forall i :: 0 <= i < |order| ==> order[i] in comps)
    && (forall c :: c in comps ==> c in order)
    && (forall i, j :: 0 <= i < j < |order| ==> order[i] != order[j])
  }

  /** The finished records of a configuration, in the listed order. */
  function Samples(comps: Compilations, order: seq<Compilation>, width: nat): (s: seq<Record>)
    requires forall c :: c in comps ==> RecordOk(comps[c], width)
    requires forall i :: 0 <= i < |order| ==> order[i] in comps
    ensures |s| == |order| && Fits(s, width)
    ensures forall i :: 0 <= i < |s| ==> FinalOf(comps[order[i]], s[i])
    // every record has a slot, so a nonempty listing needs a width
    ensures |order| > 0 ==> width > 0
  {
    var s := seq(|order|, i requires 0 <= i < |order| => Final(comps[order[i]], width));
    assert Fits(s, width) by {
      forall k | 0 <= k < |s| ensures WellFormed(s[k]) && |s[k].phases| <= width {
        assert RecordOk(comps[order[k]], width);
      }
    }
    assert |order| > 0 ==> RecordOk(comps[order[0]], width);
    s
  }

  /** The bins and totals row of one configuration. Every phase total is the
      wrapped sum of that phase over all its compilations, and the grand
      total is the wrapped sum of their totals. */
  function ConfigReport(comps: Compilations, order: seq<Compilation>, width: nat): (r: Summary)
    requires forall c :: c in comps ==> RecordOk(comps[c], width)
    requires Lists(order, comps)
    ensures |comps| > 0 ==> |r.bins| == Bins
    ensures |comps| == 0 ==> r.bins == []
    ensures r.totals.perPhase == Wrap(PhaseSums(Samples(comps, order, width), width))
    ensures r.totals.grand == TotalSum(Samples(comps, order, width)) % Modulus
    // the bins are cut from the ranking of the finished records
    ensures r.bins == MakeBins(SortedFit(Samples(comps, order, width), width), ExactCuts(|order|), width)
  {
    ListsSize(order, comps);
    Summarize(Samples(comps, order, width), width)
  }

  /** A listing has exactly as many entries as the map has keys. */
  lemma ListsSize(order: seq<Compilation>, comps: Compilations)
    requires Lists(order, comps)
    ensures |order| == |comps|
  {
    var keys := set i | 0 <= i < |order| :: order[i];
    assert keys == comps.Keys;
    DistinctCard(order);
  }

  lemma {:induction false} DistinctCard(order: seq<Compilation>)
    requires forall i, j :: 0 <= i < j < |order| ==> order[i] != order[j]
    ensures |set i | 0 <= i < |order| :: order[i]| == |order|
    decreases |order|
  {
    if |order| > 0 {
      var last := |order| - 1;
      var front := order[..last];
      DistinctCard(front);
      var a := set i | 0 <= i < |front| :: front[i];
      assert (set i | 0 <= i < |order| :: order[i]) == a + {order[last]};
      assert order[last] !in a;
    }
  }

  /** Phase sums depend only on which records are summed, not on their
      order. */
  lemma {:induction false} PhaseSumsPermutation(s: seq<Record>, t: seq<Record>, width: nat)
    requires multiset(s) == multiset(t)
    requires forall k :: 0 <= k < |s| ==> |s[k].phases| <= width
    requires forall k :: 0 <= k < |t| ==> |t[k].phases| <= width
    ensures PhaseSums(s, width) == PhaseSums(t, width)
    ensures TotalSum(s) == TotalSum(t)
    decreases |s|
  {
    if |s| > 0 {
      var i := PickOut(s, t);
      PhaseSumsPermutation(s[1..], t[..i] + t[i + 1..], width);
      RemoveOne(t, i, width);
    }
  }

  /** Where the first element of `s` sits in its permutation `t`; the rests
      are permutations of each other. */
  lemma PickOut<T>(s: seq<T>, t: seq<T>) returns (i: nat)
    requires multiset(s) == multiset(t) && |s| > 0
    ensures i < |t| && t[i] == s[0]
    ensures multiset(s[1..]) == multiset(t[..i] + t[i + 1..])
  {
    assert s[0] in multiset(t);
    i :| 0 <= i < |t| && t[i] == s[0];
    assert s == [s[0]] + s[1..];
    assert multiset(s[1..]) == multiset(s) - multiset{s[0]};
    DropAt(t, i);
  }

  /** Removing the element at `i` removes one copy of it. */
  lemma DropAt<T>(t: seq<T>, i: nat)
    requires i < |t|
    ensures multiset(t[..i] + t[i + 1..]) == multiset(t) - multiset{t[i]}
  {
    assert t == t[..i] + [t[i]] + t[i + 1..];
    assert multiset(t) == multiset(t[..i]) + multiset{t[i]} + multiset(t[i + 1..]);
  }

  /** Taking one record out of a sequence subtracts its vector and total. */
  lemma RemoveOne(t: seq<Record>, i: nat, width: nat)
    requires i < |t|
    requires forall k :: 0 <= k < |t| ==> |t[k].phases| <= width
    ensures PhaseSums(t, width) ==
      VecAdd(Pad(t[i].phases, width), PhaseSums(t[..i] + t[i + 1..], width))
    ensures TotalSum(t) == t[i].total + TotalSum(t[..i] + t[i + 1..])
  {
    var a := t[..i];
    var b := t[i + 1..];
    assert t == a + ([t[i]] + b);
    PhaseSumsAppend(a, [t[i]] + b, width);
    PhaseSumsAppend(a, b, width);
    TotalSumAppend(a, [t[i]] + b);
    TotalSumAppend(a, b);
    VecAddSwap(PhaseSums(a, width), Pad(t[i].phases, width), PhaseSums(b, width));
  }

  lemma {:induction false} TotalSumAppend(a: seq<Record>, b: seq<Record>)
    ensures TotalSum(a + b) == TotalSum(a) + TotalSum(b)
    decreases |a|
  {
    if |a| == 0 {
      assert a + b == b;
    } else {
      assert (a + b)[1..] == a[1..] + b;
      TotalSumAppend(a[1..], b);
    }
  }

  /** Two listings of one record map give the same record multiset. */
  lemma ListingsPermute(comps: Compilations, o1: seq<Compilation>, o2: seq<Compilation>, width: nat)
    requires forall c :: c in comps ==> RecordOk(comps[c], width)
    requires Lists(o1, comps) && Lists(o2, comps)
    ensures multiset(Samples(comps, o1, width)) == multiset(Samples(comps, o2, width))
  {
    assert multiset(o1) == multiset(o2) by {
      forall c ensures multiset(o1)[c] == multiset(o2)[c] {
        DistinctMultiplicity(o1, c);
        DistinctMultiplicity(o2, c);
      }
    }
    SamplesPermutation(comps, o1, o2, width);
  }

  lemma {:induction false} DistinctMultiplicity(order: seq<Compilation>, c: Compilation)
    requires forall i, j :: 0 <= i < j < |order| ==> order[i] != order[j]
    ensures multiset(order)[c] == if c in order then 1 else 0
    decreases |order|
  {
    if |order| > 0 {
      assert order == [order[0]] + order[1..];
      DistinctMultiplicity(order[1..], c);
    }
  }

  /** Listing the same compilations in another order permutes the
      samples. */
  lemma {:induction false} SamplesPermutation(comps: Compilations, o1: seq<Compilation>, o2: seq<Compilation>, width: nat)
    requires forall c :: c in comps ==> RecordOk(comps[c], width)
    requires forall i :: 0 <= i < |o1| ==> o1[i] in comps
    requires forall i :: 0 <= i < |o2| ==> o2[i] in comps
    requires multiset(o1) == multiset(o2)
    ensures multiset(Samples(comps, o1, width)) == multiset(Samples(comps, o2, width))
    decreases |o1|
  {
    if |o1| > 0 {
      var i := PickOut(o1, o2);
      var o2' := o2[..i] + o2[i + 1..];
      SamplesPermutation(comps, o1[1..], o2', width);
      var s2 := Samples(comps, o2, width);
      SamplesCons(comps, o1, width);
      SamplesDrop(comps, o2, i, width);
      DropAt(s2, i);
      assert s2[i] in multiset(s2);
    }
  }

  lemma SamplesCons(comps: Compilations, o: seq<Compilation>, width: nat)
    requires forall c :: c in comps ==> RecordOk(comps[c], width)
    requires forall i :: 0 <= i < |o| ==> o[i] in comps
    requires |o| > 0
    ensures Samples(comps, o, width) == [Final(comps[o[0]], width)] + Samples(comps, o[1..], width)
  {
  }

  lemma SamplesDrop(comps: Compilations, o: seq<Compilation>, i: nat, width: nat)
    requires forall c :: c in comps ==> RecordOk(comps[c], width)
    requires forall k :: 0 <= k < |o| ==> o[k] in comps
    requires i < |o|
    ensures Samples(comps, o[..i] + o[i + 1..], width) ==
      Samples(comps, o, width)[..i] + Samples(comps, o, width)[i + 1..]
    ensures Samples(comps, o, width)[i] == Final(comps[o[i]], width)
  {
  }

  /** The totals row does not depend on the map-iteration order. */
  lemma TotalsIndependentOfOrder(comps: Compilations, o1: seq<Compilation>, o2: seq<Compilation>, width: nat)
    requires forall c :: c in comps ==> RecordOk(comps[c], width)
    requires Lists(o1, comps) && Lists(o2, comps)
    ensures ConfigReport(comps, o1, width).totals == ConfigReport(comps, o2, width).totals
  {
    ListingsPermute(comps, o1, o2, width);
    PhaseSumsPermutation(Samples(comps, o1, width), Samples(comps, o2, width), width);
  }

  /** Every finite map of compilations can be listed. */
  lemma ListingExists(comps: Compilations)
    ensures exists order :: Lists(order, comps)
  {
    var order := ListKeys(comps.Keys);
    assert Lists(order, comps);
  }

  /** A listing of a finite set: each element exactly once. */
  lemma {:induction false} ListKeys(keys: set<Compilation>) returns (order: seq<Compilation>)
    ensures forall i :: 0 <= i < |order| ==> order[i] in keys
    ensures forall c :: c in keys ==> c in order
    ensures forall i, j :: 0 <= i < j < |order| ==> order[i] != order[j]
    decreases |keys|
  {
    if keys == {} {
      order := [];
    } else {
      var c :| c in keys;
      var o := ListKeys(keys - {c});
      order := [c] + o;
      forall i, j | 0 <= i < j < |order| ensures order[i] != order[j] {
        if i == 0 {
          assert order[j] == o[j - 1] && o[j - 1] in keys - {c};
        } else {
          assert order[i] == o[i - 1] && order[j] == o[j - 1];
        }
      }
      forall k | k in keys ensures k in order {
        if k != c {
          assert k in keys - {c};
        }
      }
    }
  }

  /** Every configuration a successful scan leaves can be reported with the
      final phase count as width: each of its records fits that width, and
      its compilations can be listed. */
  lemma ParsedConfigsReportable(lines: seq<string>)
    requires |lines| <= MaxNames
    ensures ParseLog(lines).Ok? ==>
      var st := ParseLog(lines).value;
      forall g :: g in st.all ==>
        && (forall c :: c in st.all[g] ==> RecordOk(st.all[g][c], NextIndex(st.index)))
        && (exists order :: Lists(order, st.all[g]))
  {
    if ParseLog(lines).Ok? {
      var st := ParseLog(lines).value;
      forall g | g in st.all
        ensures exists order :: Lists(order, st.all[g])
      {
        ListingExists(st.all[g]);
      }
    }
  }
}
