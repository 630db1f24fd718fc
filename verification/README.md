# phase-times: a verified model of the compiler phase-timing scraper

`cmd/phase-times` reads a benchmark log produced with
`-gcflags=all=-d=ssa/all/time=1` and scrapes the following from it:

- configuration headers;
- package markers;
- per-function SSA phase timing lines.

It groups the times by configuration and compilation. A compilation is a
package, a normalised source locator and a function or method. Per
configuration it does three things:

- ranks the compilations by (total time, median phase time);
- cuts the ranking into fifty bins;
- writes a per-bin and a grand-total row.

This project is a Dafny model of that pipeline's integer and string logic,
with proofs of what it guarantees. The modules, in dependency order:

- `Wrappers`: the `Result`/`Option` types. Every `check`/`checkNN` failure
  becomes an `Err` with a `Failure` naming the cause. So do most Go panics:
  the slices and indexes past the end in `extractPrefixed`, in the root
  rewrite and in the field access of a timing line, and the write to a nil
  map. Three panics are not modelled as errors. Two are excluded by a
  precondition: the median of an empty vector (`Phases.ComputeMedianTime`)
  and running out of `int32` phase ids (`PhaseIndex.Index`). The third is
  the index past the end of `samples` or of `bins` that a fifty-first pass
  of the floating-point cursor can reach, which the exact cut points avoid
  (`Binning.ExactCuts`). "## Left out" gives the details.
- `Arith`: `uint64` arithmetic. `Add64` is addition modulo 2^64. `Sum`,
  `VecAdd` and `Wrap` relate exact sums to wrapped ones.
- `Sorting`: an ascending sort of phase-time vectors. Every multiset has
  only one ascending arrangement.
- `Phases`: the per-compilation record `allPhases` (`Record`) and its
  operations `setTime`, `computeMedianTime` and `medianTime`.
- `PhaseIndex`: `stringIndex` (`Index`, `String` as `Name`, `NextIndex`) and
  `intern`.
- `Text`: the parts of Go's `strings` and `strconv` that the scraper uses:
  - `Index`, `Contains` and `LastIndex`;
  - `Split` and `TrimSpace`;
  - `ParseUint` and `%d` formatting.
- `Lines`: pure functions for the logic `main` runs per line:
  - `extractPrefixed`;
  - the configuration name;
  - the fields of a timing line;
  - locator normalisation against the working directory and the
    GOPATH/GOROOT roots.
- `Parse`: the scanning loop as a state machine over the log's lines. Its
  invariant `Inv` says every record stays acceptable: it fits in `uint64`,
  its total is the wrapped sum of its vector, and it is no wider than the
  number of known phases. It also has the median pass that follows the scan.
- `Binning`: the sort comparator, bin aggregation, the bin boundaries, the
  bin labels and the integer `PHASE TOTALS (ns)` row.
- `Report`: one configuration's report, built from its map of compilations
  listed in any order. The totals row does not depend on that order.

## Model

| member | source | states |
|---|---|---|
| Phases.NewRecord | cmd/phase-times/main.go:52-55 | a fresh record has exactly `NextIndex` zero slots, zero total and zero median, and its total is the sum of its vector |
| Phases.SetTime | cmd/phase-times/main.go:222-234 | a zero time changes nothing; a slot already holding a nonzero time is never overwritten (first write wins); otherwise the vector is grown with zeros to hold the slot, only that slot receives the time, every other slot keeps its value, and the total grows by the time modulo 2^64 |
| Phases.SetTimeConsistent | cmd/phase-times/main.go:222-234 | if the total was the wrapped sum of the vector before a `setTime`, it still is after |
| Phases.SetTimeTwice | cmd/phase-times/main.go:222-234 | recording the same time for the same phase twice has the effect of recording it once |
| Phases.ComputeMedianTime | cmd/phase-times/main.go:243-253 | the vector and total are unchanged and the median becomes that of the vector |
| Phases.MedianOfSortedCopy | cmd/phase-times/main.go:243-252 | for every ascending arrangement `t` of the vector, the median is `uint64(t[l/2] + t[(l-1)/2]) / 2`, so it does not depend on which arrangement the unstable sort produces |
| Phases.MedianPermutationInvariant | cmd/phase-times/main.go:243-252 | two vectors holding the same times in any order have the same median |
| Phases.MedianMiddle | cmd/phase-times/main.go:250-252 | with every time below 2^63, an odd-length vector's median is its middle element in ascending order, and an even-length one's is the floor of the mean of its two central elements |
| Phases.MedianBetween | cmd/phase-times/main.go:243-252 | with every time below 2^63, the median lies between the least and the greatest phase time |
| Phases.MedianCanWrap | cmd/phase-times/main.go:252 | without that bound the `uint64` addition can wrap: for two times of 2^64-1 the median is 2^63-1, below both |
| Phases.MedianZeroMajority | cmd/phase-times/main.go:243-252 | when more than half of the slots are zero, the median is zero |
| Phases.MedianTime | cmd/phase-times/main.go:236-241 | a stored nonzero median is returned as is, with the record untouched; a zero median is recomputed from the vector, and the vector and total are kept |
| Phases.MedianTimeStable | cmd/phase-times/main.go:236-241 | asking for the median a second time returns the same record and value |
| PhaseIndex.NewStringIndex | cmd/phase-times/main.go:280-282 | a new index is consistent and hands out id 0 next |
| PhaseIndex.NextIndex | cmd/phase-times/main.go:276-278 | every id already handed out is below `NextIndex`, and every id below it is held by the name at that position |
| PhaseIndex.NextIndexCountsNames | cmd/phase-times/main.go:276-278 | `NextIndex` equals the number of known names, `len(x.i)` |
| PhaseIndex.Name | cmd/phase-times/main.go:272-274 | the name that holds id `i` is known and maps back to `i` |
| PhaseIndex.Index | cmd/phase-times/main.go:262-270 | a known name gets its old id and the index is unchanged; a new name gets the previous `NextIndex` as its id, and `NextIndex` grows by exactly one; earlier ids and names are kept; the returned id names the string |
| PhaseIndex.IndexStable | cmd/phase-times/main.go:262-270 | indexing the same name twice gives the same id and changes nothing the second time |
| PhaseIndex.NameIndexRoundTrip | cmd/phase-times/main.go:262-274 | indexing the name of id `i` returns `i` and leaves the index unchanged |
| PhaseIndex.IdsDistinct | cmd/phase-times/main.go:262-270 | distinct names have distinct ids |
| PhaseIndex.Intern | cmd/phase-times/main.go:284-292 | interning returns a string equal to its argument, which is recorded in the table; every entry of the table maps to itself |
| Text.Find | cmd/phase-times/main.go:298 | `strings.Index`: the result is an occurrence of the pattern with none before it, or there is no occurrence at all |
| Text.ContainsIff | cmd/phase-times/main.go:64 | `strings.Contains` holds exactly when the pattern occurs somewhere |
| Text.LastIndexOf | cmd/phase-times/main.go:68 | `strings.LastIndex` of one character: the result holds the character and no later position does, or the character does not occur |
| Text.Split | cmd/phase-times/main.go:82 | `strings.Split` on a tab: no piece holds the separator, and joining the pieces back gives the line |
| Text.SplitJoin | cmd/phase-times/main.go:82 | splitting pieces joined with a separator they lack gives back the pieces |
| Text.TrimSpace | cmd/phase-times/main.go:84 | `strings.TrimSpace`: the result is a slice of the input with only white space cut off either end, and it neither starts nor ends with white space |
| Text.TrimSpaceIdempotent | cmd/phase-times/main.go:84 | trimming a trimmed string changes nothing |
| Text.FormatUint | cmd/phase-times/main.go:200-202 | `%d` formatting yields a decimal numeral without superfluous leading zeros |
| Text.FormatThenParse | cmd/phase-times/main.go:112 | every `uint64` survives formatting then `strconv.ParseUint(s, 10, 64)` |
| Text.ParseThenFormat | cmd/phase-times/main.go:112 | a canonical numeral accepted by the parser is the formatting of its value |
| Lines.StripToken | cmd/phase-times/main.go:303-308 | the result is the word with one trailing `;` removed and then one trailing `/`, so with the longest of the suffixes `/;`, `;` and `/` that it ends with cut off (`StrippedSuffix`); it is an error exactly when the word is empty or is `;` |
| Lines.WordAt | cmd/phase-times/main.go:300-302 | the word at a position runs up to the first space after it; with no space there, the result is the error case |
| Lines.ExtractPrefixed | cmd/phase-times/main.go:297-310 | a line without the prefix is a missing-marker error; with no space after the prefix's first occurrence it is a missing-space error; otherwise the word from there to the first space, stripped as above, is the result, and an empty word or `;` is an empty-token error; a result never holds a space |
| Lines.ExtractPrefixedFinds | cmd/phase-times/main.go:297-310 | in a line `pre + prefix + token + suffix + " " + rest` whose first occurrence of the prefix follows `pre`, the extracted word is the token, for each of the four suffixes |
| Lines.ConfigName | cmd/phase-times/main.go:68-70 | the configuration name is the part of the root after its last `/`; a root without `/` is an error |
| Lines.ConfigNameOfRoot | cmd/phase-times/main.go:68-70 | the configuration of the root `dir/name` is `name` |
| Lines.TimingFields | cmd/phase-times/main.go:82-89 | a line with fewer than five tab-separated fields is an error; otherwise the locator, phase, time and function are fields 0, 1, 3 and 4 of the tab split, each trimmed of white space |
| Lines.TimingFieldsOfJoin | cmd/phase-times/main.go:82-89 | joining five or more tab-free, trimmed fields with tabs and extracting them gives back fields 0, 1, 3 and 4 |
| Lines.StripParents | cmd/phase-times/main.go:94-101 | every leading `../` removes one trailing `/segment` of the working directory; the removal fails exactly when the directory has fewer `/` than the locator has leading `../` |
| Lines.Resolve | cmd/phase-times/main.go:94-103 | a locator without a leading `../` is unchanged; otherwise the result is a prefix `d` of the working directory followed by `/` and the locator without its `../` segments, where `d` is cut at a `/` and the cut-off part holds exactly one `/` per `../`; it is an error exactly when the directory has fewer `/` than there are `../` |
| Lines.ResolveOneUp | cmd/phase-times/main.go:94-103 | resolving `../rest` against `dir/seg` gives `dir/rest` |
| Lines.RewriteRoot | cmd/phase-times/main.go:104-108 | a path starting with the GOPATH root becomes `GOPATH/` and the rest after the root and one separator; only otherwise does a GOROOT prefix become `GOROOT/` and the rest; a path with neither root is unchanged; a path equal to its root is a slice error |
| Lines.RewriteRootOfJoin | cmd/phase-times/main.go:104-108 | a file `root/rel` under the GOPATH root becomes `GOPATH/rel`; one under only the GOROOT root becomes `GOROOT/rel` |
| Lines.NormalizePath | cmd/phase-times/main.go:94-108 | the result is the root rewrite of the resolved locator; a locator with more `../` than the working directory has `/` is an error; a locator without `../` is only root-rewritten, and one matching neither root is kept |
| Parse.Initial | cmd/phase-times/main.go:44-50 | the scan starts with no phases, no configurations and no open configuration map |
| Parse.Classify | cmd/phase-times/main.go:63-81 | a line is a header if it contains the time flag; otherwise a package marker if it starts with `# `; otherwise a timing line if it contains `TIME(ns)`; otherwise ignored |
| Parse.OnHeader | cmd/phase-times/main.go:64-76 | a header fails exactly when `(cd `, `GOPATH=` or `GOROOT=` cannot be extracted or the GOROOT word has no `/`; otherwise the working directory and roots are the extracted words and the configuration is the name after the root's last `/`; a configuration seen for the first time is added with an empty map, a known one leaves every map as it was; the package and phase ids are kept |
| Parse.OnHeaderTwice | cmd/phase-times/main.go:64-76 | reading the same header twice leaves the state as reading it once |
| Parse.OpenConfig | cmd/phase-times/main.go:71-76 | an existing configuration keeps its map; a new one gets an empty map |
| Parse.ParseTime | cmd/phase-times/main.go:112-113 | the time field is accepted exactly when `ParseUint` accepts it, and a rejection names the field |
| Parse.SetTimeRecordOk | cmd/phase-times/main.go:114-119 | recording a time in an acceptable or fresh record leaves an acceptable record |
| Parse.AddTime | cmd/phase-times/main.go:111-119 | the time goes to the compilation's record in the current configuration, which is created with `NextIndex` slots on first sight; every other compilation, every other configuration and every other variable is unchanged |
| Parse.AddTimeTwice | cmd/phase-times/main.go:111-119 | recording the same time for the same compilation and phase twice leaves the state as one recording did |
| Parse.OnTiming | cmd/phase-times/main.go:81-119 | a timing line fails exactly when it has fewer than five fields, no configuration is open, its locator cannot be normalised or its time is not a `uint64`; on success its parsed time is recorded for the id of its phase in the record of (current package, normalised locator, function), and nothing else changes |
| Parse.OnTimingTwice | cmd/phase-times/main.go:81-119 | reading the same timing line twice leaves the state as reading it once |
| Parse.ProcessLine | cmd/phase-times/main.go:61-121 | headers and timing lines are handled as above; unrecognised lines change nothing; a package marker only sets the trimmed package; a configuration appears exactly when a header names it; the invariant holds and at most one phase id is added |
| Parse.ProcessLineTwice | cmd/phase-times/main.go:61-121 | any line read twice in a row has the effect of reading it once |
| Parse.ParseFrom | cmd/phase-times/main.go:61-122 | after a successful scan the configurations are the earlier ones together with those named by the scanned headers; the invariant holds, no phase id or configuration is lost, and at most one id is added per line |
| Parse.ParseFromAppend | cmd/phase-times/main.go:61-122 | scanning two runs of lines is scanning the first and then the second from where it stopped; a failure in the first is the failure of the whole |
| Parse.ParseFromOne | cmd/phase-times/main.go:61-122 | scanning a single line is processing it |
| Parse.ParseLog | cmd/phase-times/main.go:44-122 | after a successful scan of the log the configurations are exactly those its headers name; the records are acceptable and there is at most one phase per line |
| Parse.Finalize | cmd/phase-times/main.go:124-128 | the median pass gives every record its median and changes nothing else |
| Parse.Final | cmd/phase-times/main.go:126 | a finished record has the same vector and total, and the median of its vector |
| Binning.SampleLessStrictWeakOrder | cmd/phase-times/main.go:139-145 | the comparator is irreflexive and transitive, orders by total and then by median, and cannot separate exactly the samples with equal total and median |
| Binning.InsertSample | cmd/phase-times/main.go:139-145 | inserting into a sorted run keeps it sorted by the comparator and adds exactly that sample |
| Binning.SortSamples | cmd/phase-times/main.go:139-145 | the result is sorted by the comparator and is a permutation of the samples |
| Binning.SortSamplesSums | cmd/phase-times/main.go:139-145 | sorting changes neither the phase sums nor the sum of totals |
| Binning.AddSample | cmd/phase-times/main.go:154-159 | adding a sample into a bin adds each of its slots to the same slot of the bin, and its total to the bin's total, modulo 2^64 |
| Binning.AccumulateSums | cmd/phase-times/main.go:153-160 | after the loop over a run of samples, each bin slot is the wrapped exact sum of that slot over the members, and the bin total is the wrapped sum of their totals |
| Binning.MakeBin | cmd/phase-times/main.go:152-161 | a bin has one slot per known phase, each the wrapped sum of that slot over its members; its total is the wrapped sum of their totals, and its median is that of the summed vector |
| Binning.BinConsistent | cmd/phase-times/main.go:153-161 | a bin of consistent members is consistent: its total is the wrapped sum of its vector |
| Binning.BinMedianNotSummedMedians | cmd/phase-times/main.go:155-161 | the median the loop adds up does not survive: two samples with median 0 can form a bin with median 1 |
| Binning.CutsPartition | cmd/phase-times/main.go:147-164 | with ascending cut points from 0 to the number of samples, every sample rank falls into exactly one bin |
| Binning.MakeBins | cmd/phase-times/main.go:147-164 | there is one bin per pair of neighbouring cut points, made of the samples ranked between them |
| Binning.BinsCoverSamples | cmd/phase-times/main.go:150-160 | reading the bins' members in order gives back the sorted samples, each exactly once |
| Binning.ExactCuts | cmd/phase-times/main.go:147-150 | with samples, the fifty bins have cut points `k * n / 50` for `k` from 0 to 50, ascending from 0 to `n`; no samples give no bins |
| Binning.ExactCutsPartition | cmd/phase-times/main.go:147-153 | every sample rank falls into exactly one of the fifty bins |
| Binning.BinSumsMatchSamples | cmd/phase-times/main.go:153-161 | the wrapped phase sums over all bins equal the wrapped phase sums over all samples |
| Binning.WrapSumFrom | cmd/phase-times/main.go:197-199 | summing the row's cells in `uint64` gives the exact sum modulo 2^64 |
| Binning.PhaseTotals | cmd/phase-times/main.go:177-202 | each phase total is the wrapped sum of that phase across the bins, and the grand total is the wrapped sum of all of them |
| Binning.TotalsMatchSamples | cmd/phase-times/main.go:177-202 | the phase totals are the wrapped per-phase sums over all samples; the grand total is the wrapped sum of all their times, which is the wrapped sum of their totals when every sample is consistent |
| Binning.Summarize | cmd/phase-times/main.go:130-202 | the bins are cut from the records sorted by the comparator at the exact cut points; a configuration with samples has fifty bins and none without; the totals row sums every sample's phases, and its grand total is the wrapped sum of the samples' totals |
| Binning.BinLabel | cmd/phase-times/main.go:184 | a bin label is `[`, the low bound in canonical decimal, `,`, the high bound in canonical decimal, and `)` |
| Binning.BinLabelInjective | cmd/phase-times/main.go:184 | equal labels have equal bounds |
| Binning.TotalsRowText | cmd/phase-times/main.go:195-203 | the totals row is the caption, then one cell per phase, then the grand total; every number cell is the canonical decimal numeral of its value, so it parses back to that value |
| Report.Samples | cmd/phase-times/main.go:134-137 | there is one finished record per listed compilation, in listing order |
| Report.ConfigReport | cmd/phase-times/main.go:130-202 | a configuration's bins are cut from its finished records sorted by the comparator at the exact cut points, fifty when it has compilations and none otherwise; its phase totals and grand total are the wrapped sums over all its records |
| Report.PhaseSumsPermutation | cmd/phase-times/main.go:134-137 | phase sums and total sums depend only on the multiset of records |
| Report.ListingsPermute | cmd/phase-times/main.go:134-137 | two listings of one compilation map give permutations of the same records |
| Report.TotalsIndependentOfOrder | cmd/phase-times/main.go:124-202 | the totals row is the same for every iteration order of the compilation map |
| Report.ListingExists | cmd/phase-times/main.go:134-137 | every map of compilations has a listing that names each compilation exactly once, so a `range` over it is one of the orders the model covers |
| Report.ParsedConfigsReportable | cmd/phase-times/main.go:124-137 | after a successful scan, every configuration's records fit the final phase count and its compilations can be listed, which is what its report needs |
| Sorting.SortAsc | cmd/phase-times/main.go:245-249 | the sorted copy is ascending and a permutation of the vector |
| Sorting.SortedUnique | cmd/phase-times/main.go:245-249 | two ascending arrangements of the same times are equal |

## Left out

- Input and output are left out: the `bufio.Scanner`, opening the input file, creating the `.csv` files and the CSV writer (main.go:34-41, 166-168, 175, 191, 203-206). The log arrives as a sequence of lines, and the report rows are values.
- The title row (main.go:170-175) is left out; it is text only.
- The floating-point ratio cells `%5.2f` of each bin row (main.go:187, 190) are left out, including the division by a zero median. Floating point is not modelled.
- Binning.ExactCuts: the program places bin boundaries with a binary64 cursor `a += len/50`, truncated with `int(a)` (main.go:148-153, 180-182). The model uses the exact cut points `k * n / 50` instead, so it does not reproduce rounding effects of that cursor. In binary64, fifty additions of `n/50` can stay below `n` (for `n = 5` they reach 4.999999999999998). The loop would then run a fifty-first time and index past the end of `samples` (main.go:154) or of `bins` (main.go:162). For `n = 5` the last pass reads only `samples[4]` and then fails at `bins[50]`; for `n = 52` the cursor reaches 51.999999999999964, and that pass already reads `samples[52]`. This follows from IEEE arithmetic, which is outside the model.
- Go's map iteration order (main.go:124-137) is a parameter: `order` in `Report`. `Report.TotalsIndependentOfOrder` shows the totals row does not depend on it. The bins themselves can differ between orders among samples with equal total and median, because `sort.Slice` is not stable.
- Binning.SortSamples: an insertion sort stands for `sort.Slice`. Samples the comparator cannot separate (equal total and equal median) may be placed differently by Go. The totals row does not depend on that placement. When such ties straddle a bin boundary, the per-bin sums and medians can differ from Go's.
- `check`, `checkNN` and their printing (main.go:312-344) become `Err` values naming the failure. The messages are not modelled.
- PhaseIndex.Index: phase ids are Go `int32`. The model requires fewer than 2^31 - 1 names before a new one is added, instead of modelling the wrap of `int32(len(x.i))`.
- Parse.ParseLog: requires at most 2^31 - 1 lines, so that the `int32` bound of `Index` holds.
- Phases.MedianMiddle: states the middle-element property only for times below 2^63. Above that the `uint64` sum at main.go:252 can wrap, as `Phases.MedianCanWrap` shows.
- Phases.MedianBetween: stated only for times below 2^63, for the same reason.
- Phases.ComputeMedianTime: requires a nonempty vector. The program indexes `scratch[0]` on an empty one, which would panic. `Parse.Inv` shows every parsed record has at least one slot, and a bin has one slot per known phase.
- Text.TrimSpace: strings are sequences of characters. UTF-8 decoding is not modelled, and white space is the character set of `unicode.IsSpace`.
- `intern` (main.go:284-292) is modelled by `PhaseIndex.Intern` as returning its argument. The parser uses the strings directly, since interning only shares memory.
- The accumulated bin median (main.go:155) is computed by `Binning.AddSample` but is always replaced by the recomputation at main.go:161, as `Binning.MakeBin` states.
- The time is read from field 3 of a timing line (main.go:88), the field after `TIME(ns)`.
