/** The single pass over the log in `main` (cmd/phase-times/main.go): line
    classification, the parser state it updates, and the per-configuration
    maps of compilation records it builds.
 */
module Parse {
  import opened Wrappers
  import opened Arith
  import opened Text
  import opened Lines
  import opened Phases
  import opened PhaseIndex

  /** The identity of one compiled function or method. */
  datatype Compilation = Compilation(pkg: string, locator: string, funcOrMethod: string)

  type Compilations = map<Compilation, Record>

  /** The variables of the scanning loop. `open` says whether the current
      configuration's map exists: it does not until the first header. */
  datatype State = State(
    cfg: string, pkg: string, gopath: string, goroot: string, pwd: string,
    open: bool, index: StringIndex, all: map<string, Compilations>)

  const HeaderMarker: string := "gcflags=all=-d=ssa/all/time=1"
  const TimeMarker: string := "TIME(ns)"

  function Initial(): (st: State)
    ensures Inv(st) && NextIndex(st.index) == 0 && st.all == map[]
  {
    State("UNSET_CONFIG", "UNSET_PACKAGE", "UNSET_GOPATH", "UNSET_GOROOT", "UNSET_PWD",
          false, NewStringIndex(), map[])
  }

  /** A record as the parse pass leaves it: fitting in `uint64`s, total equal
      to the wrapped sum, at least one slot and no more slots than known
      phases, and no median yet. */
  predicate RecordOk(r: Record, width: nat) {
    WellFormed(r) && Consistent(r) && 0 < |r.phases| <= width && r.median == 0
  }

  predicate AllRecordsOk(all: map<string, Compilations>, width: nat) {
    forall cfg, c :: cfg in all && c in all[cfg] ==> RecordOk(all[cfg][c], width)
  }

  predicate Inv(st: State) {
    && Valid(st.index)
    && (st.open ==> st.cfg in st.all)
    && AllRecordsOk(st.all, NextIndex(st.index))
  }

  /** The three recognised line shapes, in the order they are tried. */
  datatype Shape = Header | Package | Timing | Other

  function Classify(line: string): (k: Shape)
    ensures k == Header <==> Contains(line, HeaderMarker)
    ensures k == Package <==> !Contains(line, HeaderMarker) && "# " <= line
    ensures k == Timing <==>
      !Contains(line, HeaderMarker) && !("# " <= line) && Contains(line, TimeMarker)
  {
    if Contains(line, HeaderMarker) then Header
    else if "# " <= line then Package
    else if Contains(line, TimeMarker) then Timing
    else Other
  }

  /** A configuration header: working directory, the two roots, and the
      configuration they name. */
  function OnHeader(st: State, line: string): (r: Result<State>)
    requires Inv(st)
    ensures r.Ok? ==> Inv(r.value) && r.value.open && r.value.index == st.index
    ensures r.Ok? ==> r.value.all.Keys == st.all.Keys + {r.value.cfg}
    ensures r.Ok? ==> forall cfg :: cfg in st.all ==> r.value.all[cfg] == st.all[cfg]
    ensures r.Ok? ==> ConfigName(r.value.goroot) == Ok(r.value.cfg)
    // a configuration seen for the first time starts with no compilations;
    // a known one keeps its map, and then no map changes at all
    ensures r.Ok? && r.value.cfg !in st.all ==> r.value.all[r.value.cfg] == map[]
    ensures r.Ok? && r.value.cfg in st.all ==> r.value.all == st.all
    // fails exactly when one of the three markers or the configuration name is missing
    ensures r.Ok? <==>
      && ExtractPrefixed(line, "(cd ").Ok?
      && ExtractPrefixed(line, "GOPATH=").Ok?
      && ExtractPrefixed(line, "GOROOT=").Ok?
      && ConfigName(ExtractPrefixed(line, "GOROOT=").value).Ok?
    ensures ExtractPrefixed(line, "(cd ").Err? ==> r == Err(ExtractPrefixed(line, "(cd ").failure)
    // the directories are the extracted words; the package is kept
    ensures r.Ok? ==>
      && r.value.pwd == ExtractPrefixed(line, "(cd ").value
      && r.value.gopath == ExtractPrefixed(line, "GOPATH=").value
      && r.value.goroot == ExtractPrefixed(line, "GOROOT=").value
      && r.value.pkg == st.pkg
  {
    var pwd :- ExtractPrefixed(line, "(cd ");
    var gopath :- ExtractPrefixed(line, "GOPATH=");
    var goroot :- ExtractPrefixed(line, "GOROOT=");
    var cfg :- ConfigName(goroot);
    Ok(OpenConfig(st.(pwd := pwd, gopath := gopath, goroot := goroot), cfg))
  }

  /** Makes `cfg` the current configuration, with an empty map on first
      sight; an existing map is kept. */
  function OpenConfig(st: State, cfg: string): (r: State)
    requires Inv(st)
    ensures Inv(r) && r.open && r.cfg == cfg && r.index == st.index
    ensures r.pwd == st.pwd && r.gopath == st.gopath && r.goroot == st.goroot && r.pkg == st.pkg
    ensures r.all.Keys == st.all.Keys + {cfg}
    ensures cfg !in st.all ==> r.all[cfg] == map[]
    ensures forall g :: g in st.all ==> r.all[g] == st.all[g]
  {
    var all := if cfg in st.all then st.all else st.all[cfg := map[]];
    st.(cfg := cfg, open := true, all := all)
  }

  /** The time field as a `uint64`. */
  function ParseTime(field: string): (r: Result<nat>)
    ensures r.Ok? <==> ParseUint(field).Some?
    ensures r.Ok? ==> r.value == ParseUint(field).value && r.value < Modulus
    ensures r.Err? ==> r.failure == BadTime(field)
  {
    match ParseUint(field)
    case None => Err(BadTime(field))
    case Some(t) => Ok(t)
  }

  /** Every record stays acceptable when more phases become known. */
  lemma RecordsOkWiden(all: map<string, Compilations>, width: nat, width': nat)
    requires AllRecordsOk(all, width) && width <= width'
    ensures AllRecordsOk(all, width')
  {
  }

  /** Recording a time keeps a record acceptable, and turns a fresh record
      into an acceptable one. */
  lemma SetTimeRecordOk(rec: Record, phase: nat, time: nat, width: nat)
    requires RecordOk(rec, width) || rec == NewRecord(width)
    requires phase < width && time < Modulus
    ensures RecordOk(SetTime(rec, phase, time), width)
  {
    SetTimeConsistent(rec, phase, time);
  }

  /** Replacing one record by an acceptable one keeps them all acceptable. */
  lemma UpdateRecordsOk(all: map<string, Compilations>, cfg: string, c: Compilation, rec: Record, width: nat)
    requires AllRecordsOk(all, width) && cfg in all && RecordOk(rec, width)
    ensures AllRecordsOk(all[cfg := all[cfg][c := rec]], width)
  {
    var all' := all[cfg := all[cfg][c := rec]];
    forall g, k | g in all' && k in all'[g] ensures RecordOk(all'[g][k], width) {
      if g != cfg || k != c {
        assert all'[g][k] == all[g][k];
      }
    }
  }

  /** Records `time` for phase `phase` of compilation `c` in the current
      configuration, creating the record (sized to the known phases) on
      first sight; `index` is the phase index after the phase got its id. */
  function AddTime(st: State, index: StringIndex, c: Compilation, phase: nat, time: nat): (r: State)
    requires Inv(st) && st.open && Valid(index)
    requires st.index.names <= index.names && phase < NextIndex(index) && time < Modulus
    ensures Inv(r) && r.index == index
    ensures r.all.Keys == st.all.Keys
    ensures forall cfg :: cfg in st.all && cfg != st.cfg ==> r.all[cfg] == st.all[cfg]
    ensures r.all[st.cfg].Keys == st.all[st.cfg].Keys + {c}
    ensures c in st.all[st.cfg] ==> r.all[st.cfg][c] == SetTime(st.all[st.cfg][c], phase, time)
    ensures c !in st.all[st.cfg] ==> r.all[st.cfg][c] == SetTime(NewRecord(NextIndex(index)), phase, time)
    // every other compilation's record, and every other variable, is untouched
    ensures forall k :: k in st.all[st.cfg] && k != c ==> r.all[st.cfg][k] == st.all[st.cfg][k]
    ensures r == st.(index := index, all := r.all)
  {
    var comps := st.all[st.cfg];
    var width := NextIndex(index);
    RecordsOkWiden(st.all, NextIndex(st.index), width);
    var rec := if c in comps then comps[c] else NewRecord(width);
    SetTimeRecordOk(rec, phase, time, width);
    var rec' := SetTime(rec, phase, time);
    UpdateRecordsOk(st.all, st.cfg, c, rec', width);
    st.(index := index, all := st.all[st.cfg := comps[c := rec']])
  }

  /** A timing line: its phase gets an id, its locator is normalised, its
      time is parsed, and the time is recorded for its compilation. */
  function OnTiming(st: State, line: string): (r: Result<State>)
    requires Inv(st) && NextIndex(st.index) < MaxNames
    ensures r.Ok? ==> Inv(r.value)
    ensures r.Ok? ==> st.index.names <= r.value.index.names
    ensures r.Ok? ==> NextIndex(r.value.index) <= NextIndex(st.index) + 1
    ensures r.Ok? ==> st.open && r.value.all.Keys == st.all.Keys
    ensures !st.open ==> r.Err?
    ensures TimingFields(line).Err? ==> r == Err(TooFewFields)
    // fails exactly when a step fails or no configuration is open
    ensures r.Ok? <==>
      && TimingFields(line).Ok? && st.open
      && NormalizePath(TimingFields(line).value.locator, st.pwd, st.gopath, st.goroot).Ok?
      && ParseTime(TimingFields(line).value.time).Ok?
    // on success, the parsed time is recorded for the phase's id and the
    // compilation (current package, normalised locator, function name)
    ensures r.Ok? ==>
      var f := TimingFields(line).value;
      var ip := Index(st.index, f.phase);
      var loc := NormalizePath(f.locator, st.pwd, st.gopath, st.goroot).value;
      r.value == AddTime(st, ip.0, Compilation(st.pkg, loc, f.funcOrMethod), ip.1, ParseTime(f.time).value)
  {
    var f :- TimingFields(line);
    var (index, phase) := Index(st.index, f.phase);
    var loc :- NormalizePath(f.locator, st.pwd, st.gopath, st.goroot);
    var time :- ParseTime(f.time);
    if !st.open then Err(NoConfiguration)
    else Ok(AddTime(st, index, Compilation(st.pkg, loc, f.funcOrMethod), phase, time))
  }

  /** `line` is a header whose GOROOT names configuration `g`. */
  predicate NamesConfig(line: string, g: string) {
    && Classify(line) == Header
    && ExtractPrefixed(line, "GOROOT=").Ok?
    && ConfigName(ExtractPrefixed(line, "GOROOT=").value) == Ok(g)
  }

  /** A header read a second time leaves the state as the first reading did. */
  lemma OnHeaderTwice(st: State, line: string)
    requires Inv(st)
    ensures OnHeader(st, line).Ok? ==>
      OnHeader(OnHeader(st, line).value, line) == OnHeader(st, line)
  {
  }

  /** Recording the same time twice leaves the state as one recording did. */
  lemma AddTimeTwice(st: State, index: StringIndex, c: Compilation, phase: nat, time: nat)
    requires Inv(st) && st.open && Valid(index)
    requires st.index.names <= index.names && phase < NextIndex(index) && time < Modulus
    ensures
      var st' := AddTime(st, index, c, phase, time);
      AddTime(st', index, c, phase, time) == st'
  {
    var st' := AddTime(st, index, c, phase, time);
    var rec := st'.all[st.cfg][c];
    SetTimeTwice(if c in st.all[st.cfg] then st.all[st.cfg][c] else NewRecord(NextIndex(index)), phase, time);
    assert st'.all[st.cfg][c := rec] == st'.all[st.cfg];
  }

  /** A timing line read a second time leaves the state as the first reading
      did: its phase already has an id and its slot is already written. */
  lemma OnTimingTwice(st: State, line: string)
    requires Inv(st) && NextIndex(st.index) + 1 < MaxNames
    ensures OnTiming(st, line).Ok? ==>
      OnTiming(OnTiming(st, line).value, line) == OnTiming(st, line)
  {
    if OnTiming(st, line).Ok? {
      var st' := OnTiming(st, line).value;
      var f := TimingFields(line).value;
      var ip := Index(st.index, f.phase);
      var loc := NormalizePath(f.locator, st.pwd, st.gopath, st.goroot).value;
      var c := Compilation(st.pkg, loc, f.funcOrMethod);
      var time := ParseTime(f.time).value;
      assert Index(st'.index, f.phase) == ip;
      AddTimeTwice(st, ip.0, c, ip.1, time);
    }
  }

  /** One line of the log. */
  function ProcessLine(st: State, line: string): (r: Result<State>)
    requires Inv(st) && NextIndex(st.index) < MaxNames
    ensures r.Ok? ==> Inv(r.value)
    // phase ids are stable and grow by at most one per line
    ensures r.Ok? ==> st.index.names <= r.value.index.names
    ensures r.Ok? ==> NextIndex(r.value.index) <= NextIndex(st.index) + 1
    // a configuration, once seen, stays
    ensures r.Ok? ==> st.all.Keys <= r.value.all.Keys
    // lines of no recognised shape are ignored
    ensures Classify(line) == Other ==> r == Ok(st)
    // a package marker only changes the package
    ensures Classify(line) == Package ==> r == Ok(st.(pkg := TrimSpace(line[2..])))
    // a timing line before any header is fatal
    ensures Classify(line) == Timing && !st.open ==> r.Err?
    // headers and timing lines are handled as described above
    ensures Classify(line) == Header ==> r == OnHeader(st, line)
    ensures Classify(line) == Timing ==> r == OnTiming(st, line)
    // a configuration appears only through a header naming it
    ensures r.Ok? ==> forall g :: g in r.value.all && g !in st.all ==> NamesConfig(line, g)
    ensures r.Ok? ==> forall g :: NamesConfig(line, g) ==> g in r.value.all
  {
    match Classify(line)
    case Header => OnHeader(st, line)
    case Package => Ok(st.(pkg := TrimSpace(line[2..])))
    case Timing => OnTiming(st, line)
    case Other => Ok(st)
  }

  /** The whole scan: every line in order, stopping at the first fatal one. */
  function ParseFrom(st: State, lines: seq<string>): (r: Result<State>)
    requires Inv(st) && NextIndex(st.index) + |lines| <= MaxNames
    decreases |lines|
    ensures r.Ok? ==> Inv(r.value)
    ensures r.Ok? ==> st.index.names <= r.value.index.names
    ensures r.Ok? ==> NextIndex(r.value.index) <= NextIndex(st.index) + |lines|
    ensures r.Ok? ==> st.all.Keys <= r.value.all.Keys
    ensures |lines| == 0 ==> r == Ok(st)
    // the configurations are the ones there were and the ones the headers name
    ensures r.Ok? ==> forall g :: g in r.value.all && g !in st.all ==>
      exists k :: 0 <= k < |lines| && NamesConfig(lines[k], g)
    ensures r.Ok? ==> forall k, g :: 0 <= k < |lines| && NamesConfig(lines[k], g) ==> g in r.value.all
  {
    if |lines| == 0 then Ok(st)
    else
      var st' :- ProcessLine(st, lines[0]);
      ParseFrom(st', lines[1..])
  }

  /** Any line read twice in a row has the effect of reading it once. */
  lemma ProcessLineTwice(st: State, line: string)
    requires Inv(st) && NextIndex(st.index) + 1 < MaxNames
    ensures ProcessLine(st, line).Ok? ==>
      ProcessLine(ProcessLine(st, line).value, line) == ProcessLine(st, line)
  {
    match Classify(line)
    case Header => OnHeaderTwice(st, line);
    case Timing => OnTimingTwice(st, line);
    case Package =>
    case Other =>
  }

  /** Scanning `a + b` is scanning `a`, then scanning `b` from where `a` left
      off; a failure in `a` is the failure of the whole. */
  lemma {:induction false} ParseFromAppend(st: State, a: seq<string>, b: seq<string>)
    requires Inv(st) && NextIndex(st.index) + |a| + |b| <= MaxNames
    decreases |a|
    ensures ParseFrom(st, a + b) ==
      if ParseFrom(st, a).Err? then ParseFrom(st, a) else ParseFrom(ParseFrom(st, a).value, b)
  {
    if |a| == 0 {
      assert a + b == b;
    } else {
      assert (a + b)[0] == a[0] && (a + b)[1..] == a[1..] + b;
      var r := ProcessLine(st, a[0]);
      if r.Ok? {
        ParseFromAppend(r.value, a[1..], b);
      }
    }
  }

  /** Scanning one line is processing it. */
  lemma ParseFromOne(st: State, line: string)
    requires Inv(st) && NextIndex(st.index) + 1 <= MaxNames
    ensures ParseFrom(st, [line]) == ProcessLine(st, line)
  {
    assert [line][1..] == [];
  }

  function ParseLog(lines: seq<string>): (r: Result<State>)
    requires |lines| <= MaxNames
    ensures r.Ok? ==> Inv(r.value)
    ensures r.Ok? ==> NextIndex(r.value.index) <= |lines|
    ensures r.Ok? ==> forall g :: g in r.value.all <==> exists k :: 0 <= k < |lines| && NamesConfig(lines[k], g)
  {
    ParseFrom(Initial(), lines)
  }

  /** After the scan: every record gets its median; nothing else changes. */
  function Finalize(comps: Compilations, width: nat): (r: Compilations)
    requires forall c :: c in comps ==> RecordOk(comps[c], width)
    ensures r.Keys == comps.Keys
    ensures forall c :: c in comps ==> c in r && FinalOf(comps[c], r[c])
  {
    map c | c in comps :: Final(comps[c], width)
  }

  /** `fin` is `rec` with its median filled in. */
  predicate FinalOf(rec: Record, fin: Record) {
    && fin.phases == rec.phases && fin.total == rec.total
    && WellFormed(fin) && Consistent(fin) && |fin.phases| > 0
    && fin.median == MedianOf(fin.phases)
  }

  function Final(rec: Record, width: nat): (fin: Record)
    requires RecordOk(rec, width)
    ensures FinalOf(rec, fin)
  {
    ComputeMedianTime(rec)
  }
}
