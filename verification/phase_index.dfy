/** The phase index (`stringIndex` in cmd/phase-times/main.go): dense ids for
    phase names in first-seen order, and the intern table beside it.
 */
module PhaseIndex {

  /** Go's `int32` ids: the largest count of names whose ids and `NextIndex`
      still fit. */
  const MaxNames: nat := 0x7fff_ffff

  /** `ids` maps each known name to its position in `names`. */
  datatype StringIndex = StringIndex(ids: map<string, nat>, names: seq<string>)

  /** `ids` and `names` describe the same bijection. */
  predicate Valid(x: StringIndex) {
    && (forall s :: s in x.ids ==> x.ids[s] < |x.names| && x.names[x.ids[s]] == s)
    && (forall i :: 0 <= i < |x.names| ==> x.names[i] in x.ids && x.ids[x.names[i]] == i)
  }

  /** `newStringIndex`. */
  function NewStringIndex(): (x: StringIndex)
    ensures Valid(x) && NextIndex(x) == 0
  {
    StringIndex(map[], [])
  }

  /** The id the next new name will receive. */
  function NextIndex(x: StringIndex): (n: nat)
    ensures Valid(x) ==> forall s :: s in x.ids ==> x.ids[s] < n
    // and every id below it is taken, by the name at that position
    ensures Valid(x) ==> forall i :: 0 <= i < n ==> i < |x.names| && x.names[i] in x.ids && x.ids[x.names[i]] == i
  {
    |x.names|
  }

  /** `NextIndex` is the number of known names. */
  lemma {:induction false} NextIndexCountsNames(x: StringIndex)
    requires Valid(x)
    ensures NextIndex(x) == |x.ids|
    decreases |x.names|
  {
    if |x.names| == 0 {
      assert forall s :: s !in x.ids;
    } else {
      var last := x.names[|x.names| - 1];
      var y := StringIndex(x.ids - {last}, x.names[..|x.names| - 1]);
      assert Valid(y) by {
        forall s | s in y.ids ensures y.ids[s] < |y.names| && y.names[y.ids[s]] == s {
          assert x.ids[s] != |x.names| - 1;
        }
      }
      NextIndexCountsNames(y);
      assert x.ids.Keys == y.ids.Keys + {last};
    }
  }

  /** `String`: the name that holds id `i`. */
  function Name(x: StringIndex, i: nat): (s: string)
    requires i < |x.names|
    ensures Valid(x) ==> s in x.ids && x.ids[s] == i
  {
    x.names[i]
  }

  /** `Index`: the id of `s`, assigning the next id when `s` is new. */
  function Index(x: StringIndex, s: string): (res: (StringIndex, nat))
    requires Valid(x)
    requires s in x.ids || NextIndex(x) < MaxNames
    ensures Valid(res.0)
    ensures res.1 < NextIndex(res.0) && Name(res.0, res.1) == s
    // a known name keeps its id and leaves the index alone
    ensures s in x.ids ==> res == (x, x.ids[s])
    // a new name gets the next id, and the index grows by one
    ensures s !in x.ids ==> res.1 == NextIndex(x) && NextIndex(res.0) == NextIndex(x) + 1
    // ids already handed out stay as they were
    ensures x.names <= res.0.names
    ensures forall t :: t in x.ids ==> t in res.0.ids && res.0.ids[t] == x.ids[t]
  {
    if s in x.ids then (x, x.ids[s])
    else
      var i := |x.names|;
      (StringIndex(x.ids[s := i], x.names + [s]), i)
  }

  /** Asking for the same name twice returns the same id and changes nothing
      the second time. */
  lemma IndexStable(x: StringIndex, s: string)
    requires Valid(x) && (s in x.ids || NextIndex(x) < MaxNames)
    ensures Index(Index(x, s).0, s) == Index(x, s)
  {
  }

  /** Looking up the name of an id gives back that id. */
  lemma NameIndexRoundTrip(x: StringIndex, i: nat)
    requires Valid(x) && i < NextIndex(x)
    ensures Index(x, Name(x, i)) == (x, i)
  {
  }

  /** Distinct names never share an id. */
  lemma IdsDistinct(x: StringIndex, s: string, t: string)
    requires Valid(x) && s in x.ids && t in x.ids && s != t
    ensures x.ids[s] != x.ids[t]
  {
  }

  /** The intern table: every key maps to itself. */
  predicate SelfMapped(table: map<string, string>) {
    forall k :: k in table ==> table[k] == k
  }

  /** `intern`: a string equal to `s`, with `s` recorded in the table. */
  function Intern(table: map<string, string>, s: string): (res: (map<string, string>, string))
    requires SelfMapped(table)
    ensures res.1 == s
    ensures SelfMapped(res.0)
    ensures res.0.Keys == table.Keys + {s}
  {
    if s in table then (table, table[s])
    else (table[s := s], s)
  }
}
