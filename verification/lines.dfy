/** The pieces of line processing in cmd/phase-times/main.go: the token
    after a marker in a configuration header (`extractPrefixed`), the
    configuration name, the fields of a timing line, and the normalisation
    of a source locator against the working directory and the two roots.
 */
module Lines {
  import opened Wrappers
  import opened Text

  /** `s` ends with `sfx`. */
  predicate EndsWith(s: string, sfx: string) {
    |sfx| <= |s| && s[|s| - |sfx|..] == sfx
  }

  /** The suffix `extractPrefixed` cuts off a word: the longest of `/;`, `;`
      and `/` that the word ends with, or nothing. */
  function StrippedSuffix(raw: string): (sfx: string)
    ensures EndsWith(raw, sfx)
  {
    if EndsWith(raw, "/;") then "/;"
    else if EndsWith(raw, ";") then ";"
    else if EndsWith(raw, "/") then "/"
    else ""
  }

  /** The token proper of a space-ended word: without one trailing `;` and
      then without one trailing `/`. A word that is empty, or empty once its
      `;` is gone, is an error. */
  function StripToken(raw: string, marker: string): (r: Result<string>)
    ensures r.Err? <==> raw == "" || raw == ";"
    ensures r.Err? ==> r == Err(EmptyToken(marker))
    ensures r.Ok? ==> raw == r.value + StrippedSuffix(raw)
  {
    if |raw| == 0 then Err(EmptyToken(marker))
    else
      var t := if raw[|raw| - 1] == ';' then raw[..|raw| - 1] else raw;
      if |t| == 0 then Err(EmptyToken(marker))
      else
        var u := if t[|t| - 1] == '/' then t[..|t| - 1] else t;
        StripTokenSuffix(raw, t, u);
        Ok(u)
  }

  lemma StripTokenSuffix(raw: string, t: string, u: string)
    requires |raw| > 0 && t == (if raw[|raw| - 1] == ';' then raw[..|raw| - 1] else raw)
    requires |t| > 0 && u == (if t[|t| - 1] == '/' then t[..|t| - 1] else t)
    ensures raw == u + StrippedSuffix(raw)
  {
    var n := |raw|;
    EndsWithOne(raw, ';');
    EndsWithOne(raw, '/');
    EndsWithTwo(raw, '/', ';');
    if raw[n - 1] == ';' {
      assert t == raw[..n - 1];
      if t[|t| - 1] == '/' {
        assert StrippedSuffix(raw) == "/;";
        assert raw == t[..|t| - 1] + "/;";
      } else {
        assert StrippedSuffix(raw) == ";";
        assert raw == t + ";";
      }
    } else if t[|t| - 1] == '/' {
      assert StrippedSuffix(raw) == "/";
      assert raw == t[..|t| - 1] + "/";
    } else {
      assert StrippedSuffix(raw) == "";
      assert raw == t + "";
    }
  }

  lemma EndsWithOne(s: string, c: char)
    ensures EndsWith(s, [c]) <==> |s| >= 1 && s[|s| - 1] == c
  {
    if |s| >= 1 && s[|s| - 1] == c {
      assert s[|s| - 1..] == [c];
    }
  }

  lemma EndsWithTwo(s: string, c: char, d: char)
    ensures EndsWith(s, [c, d]) <==> |s| >= 2 && s[|s| - 2] == c && s[|s| - 1] == d
  {
    if |s| >= 2 && s[|s| - 2] == c && s[|s| - 1] == d {
      assert s[|s| - 2..] == [c, d];
    }
  }

  /** The word of `line` at `k`, up to the first space after it. */
  function WordAt(line: string, k: nat): (r: Option<string>)
    requires k <= |line|
    ensures r.Some? ==> ' ' !in r.value && OccursAt(line, r.value + " ", k)
    ensures r.None? <==> ' ' !in line[k..]
  {
    var rest := line[k..];
    match Find(rest, " ")
    case None =>
      assert forall m :: 0 <= m < |rest| ==> rest[m] != ' ' by {
        forall m | 0 <= m < |rest| ensures rest[m] != ' ' {
          OccursAtChar(rest, ' ', m);
        }
      }
      None
    case Some(j) =>
      var raw := rest[..j];
      assert forall m :: 0 <= m < j ==> raw[m] != ' ' by {
        forall m | 0 <= m < j ensures raw[m] != ' ' {
          OccursAtChar(rest, ' ', m);
        }
      }
      OccursAtChar(rest, ' ', j);
      assert line[k..k + j + 1] == raw + " ";
      assert rest[j] == ' ';
      Some(raw)
  }

  /** `extractPrefixed`: the space-ended word right after the first
      occurrence of `prefix`, without its `StrippedSuffix`. A missing prefix,
      no space after it, and an empty word are errors. */
  function ExtractPrefixed(line: string, prefix: string): (r: Result<string>)
    ensures !Contains(line, prefix) ==> r == Err(MissingMarker(prefix))
    ensures r.Ok? ==> ' ' !in r.value
    ensures Contains(line, prefix) ==>
      var k := Find(line, prefix).value + |prefix|;
      && k <= |line|
      && (' ' !in line[k..] ==> r == Err(MissingSpace(prefix)))
      && (WordAt(line, k).Some? ==>
            var w := WordAt(line, k).value;
            && (r.Err? <==> w == "" || w == ";")
            && (r.Err? ==> r == Err(EmptyToken(prefix)))
            && (r.Ok? ==> w == r.value + StrippedSuffix(w)))
  {
    match Find(line, prefix)
    case None => Err(MissingMarker(prefix))
    case Some(i) =>
      match WordAt(line, i + |prefix|)
      case None => Err(MissingSpace(prefix))
      case Some(raw) =>
        var u :- StripToken(raw, prefix);
        assert u <= raw;
        Ok(u)
  }

  /** The first occurrence of `prefix` in `pre + prefix + post` is the one
      after `pre` when none starts inside `pre`. */
  lemma FindAfter(pre: string, prefix: string, post: string)
    requires forall j :: 0 <= j < |pre| ==> !OccursAt(pre + prefix, prefix, j)
    ensures Find(pre + prefix + post, prefix) == Some(|pre|)
  {
    var head := pre + prefix;
    var line := head + post;
    assert line[|pre|..|pre| + |prefix|] == prefix;
    assert OccursAt(line, prefix, |pre|);
    forall j | 0 <= j < |pre| ensures !OccursAt(line, prefix, j) {
      assert line[j..j + |prefix|] == head[j..j + |prefix|];
      assert !OccursAt(head, prefix, j);
    }
  }

  /** The word at `k` is everything up to the first space. */
  lemma WordAtOf(line: string, k: nat, w: string, post: string)
    requires k <= |line| && line[k..] == w + " " + post && ' ' !in w
    ensures WordAt(line, k) == Some(w)
  {
    var rest := line[k..];
    OccursAtChar(rest, ' ', |w|);
    forall m | 0 <= m < |w| ensures !OccursAt(rest, " ", m) {
      OccursAtChar(rest, ' ', m);
      assert rest[m] == w[m];
    }
    assert rest[..|w|] == w;
  }

  /** Stripping a word made of a token and one of the suffixes gives the token. */
  lemma StripTokenOf(tok: string, sfx: string, marker: string)
    requires |tok| > 0 && tok[|tok| - 1] != ';' && tok[|tok| - 1] != '/'
    requires sfx == "" || sfx == ";" || sfx == "/" || sfx == "/;"
    ensures StripToken(tok + sfx, marker) == Ok(tok)
  {
    var raw := tok + sfx;
    if sfx == "/;" {
      assert raw[..|raw| - 1] == tok + "/";
      assert (tok + "/")[..|tok|] == tok;
    } else if sfx == ";" {
      assert raw[|raw| - 1] == ';';
      assert raw[..|raw| - 1] == tok;
    } else if sfx == "/" {
      assert raw[|raw| - 1] == '/';
      assert raw[..|raw| - 1] == tok;
    } else {
      assert raw == tok;
    }
  }

  /** Conversely: when the first `prefix` is followed by a nonempty word
      that has no space and ends in neither `;` nor `/`, and then by one of
      the strippable suffixes and a space, `extractPrefixed` returns that
      word. */
  lemma ExtractPrefixedFinds(pre: string, prefix: string, tok: string, sfx: string, post: string)
    requires forall j :: 0 <= j < |pre| ==> !OccursAt(pre + prefix, prefix, j)
    requires |tok| > 0 && ' ' !in tok && tok[|tok| - 1] != ';' && tok[|tok| - 1] != '/'
    requires sfx == "" || sfx == ";" || sfx == "/" || sfx == "/;"
    ensures ExtractPrefixed(pre + prefix + tok + sfx + " " + post, prefix) == Ok(tok)
  {
    var line := pre + prefix + tok + sfx + " " + post;
    var tail := tok + sfx + " " + post;
    assert line == pre + prefix + tail;
    FindAfter(pre, prefix, tail);
    assert line[|pre| + |prefix|..] == (tok + sfx) + " " + post;
    WordAtOf(line, |pre| + |prefix|, tok + sfx, post);
    StripTokenOf(tok, sfx, prefix);
  }

  /** The configuration name: what follows the last `/` of the root. */
  function ConfigName(goroot: string): (r: Result<string>)
    ensures r.Err? <==> '/' !in goroot
    ensures r.Ok? ==> '/' !in r.value
    ensures r.Ok? ==> |r.value| < |goroot| && goroot[|goroot| - |r.value| - 1] == '/'
    ensures r.Ok? ==> goroot[|goroot| - |r.value|..] == r.value
  {
    match LastIndexOf(goroot, '/')
    case None => Err(NoSeparator(goroot))
    case Some(i) => Ok(goroot[i + 1..])
  }

  /** The name of a configuration whose root is `dir/name` is `name`. */
  lemma ConfigNameOfRoot(dir: string, name: string)
    requires '/' !in name
    ensures ConfigName(dir + "/" + name) == Ok(name)
  {
    var g := dir + "/" + name;
    assert g[|dir|] == '/';
    assert g[|dir| + 1..] == name;
    forall j | |dir| < j < |g| ensures g[j] != '/' {
      assert g[j] == name[j - |dir| - 1];
    }
  }

  /** The four fields a timing line contributes. */
  datatype TimingLine = TimingLine(locator: string, phase: string, time: string, funcOrMethod: string)

  function TrimAll(parts: seq<string>): (r: seq<string>)
    ensures |r| == |parts|
    ensures forall k :: 0 <= k < |parts| ==> r[k] == TrimSpace(parts[k])
  {
    seq(|parts|, k requires 0 <= k < |parts| => TrimSpace(parts[k]))
  }

  /** The tab-separated, trimmed fields 0, 1, 3 and 4 of a timing line. */
  function TimingFields(line: string): (r: Result<TimingLine>)
    ensures r.Err? <==> |Split(line, '\t')| < 5
    ensures r.Err? ==> r.failure == TooFewFields
    ensures r.Ok? ==> '\t' !in r.value.locator && '\t' !in r.value.phase
    ensures r.Ok? ==> '\t' !in r.value.time && '\t' !in r.value.funcOrMethod
    ensures r.Ok? ==>
      var p := Split(line, '\t');
      r.value == TimingLine(TrimSpace(p[0]), TrimSpace(p[1]), TrimSpace(p[3]), TrimSpace(p[4]))
  {
    FieldsOf(Split(line, '\t'))
  }

  /** Fields 0, 1, 3 and 4 of the pieces of a split line, trimmed. */
  function FieldsOf(parts: seq<string>): (r: Result<TimingLine>)
    requires forall k :: 0 <= k < |parts| ==> '\t' !in parts[k]
    ensures r.Err? <==> |parts| < 5
    ensures r.Err? ==> r.failure == TooFewFields
    ensures r.Ok? ==> '\t' !in r.value.locator && '\t' !in r.value.phase
    ensures r.Ok? ==> '\t' !in r.value.time && '\t' !in r.value.funcOrMethod
    ensures r.Ok? ==>
      r.value == TimingLine(TrimSpace(parts[0]), TrimSpace(parts[1]), TrimSpace(parts[3]), TrimSpace(parts[4]))
  {
    var fields := TrimAll(parts);
    if |fields| < 5 then Err(TooFewFields)
    else
      TrimSpaceNoTab(parts[0]);
      TrimSpaceNoTab(parts[1]);
      TrimSpaceNoTab(parts[3]);
      TrimSpaceNoTab(parts[4]);
      Ok(TimingLine(fields[0], fields[1], fields[3], fields[4]))
  }

  lemma TrimSpaceNoTab(s: string)
    requires '\t' !in s
    ensures '\t' !in TrimSpace(s)
  {
    var r := TrimSpace(s);
    var a, b :| 0 <= a <= b <= |s| && r == s[a..b] && AllSpace(s[..a]) && AllSpace(s[b..]);
    forall m | 0 <= m < |r| ensures r[m] != '\t' {
      assert r[m] == s[a + m];
    }
  }

  /** A string without surrounding white space is left as it is by trimming. */
  lemma TrimSpaceKeeps(s: string)
    requires s == [] || (!IsSpace(s[0]) && !IsSpace(s[|s| - 1]))
    ensures TrimSpace(s) == s
  {
    var r := TrimSpace(s);
    var a, b :| 0 <= a <= b <= |s| && r == s[a..b] && AllSpace(s[..a]) && AllSpace(s[b..]);
  }

  /** Conversely: a line made of at least five tab-separated fields, none with
      a tab or surrounding white space, yields fields 0, 1, 3 and 4. */
  lemma TimingFieldsOfJoin(fields: seq<string>)
    requires |fields| >= 5
    requires forall k :: 0 <= k < |fields| ==> '\t' !in fields[k]
    requires forall k :: 0 <= k < |fields| ==>
      fields[k] == [] || (!IsSpace(fields[k][0]) && !IsSpace(fields[k][|fields[k]| - 1]))
    ensures TimingFields(Join(fields, '\t')) ==
      Ok(TimingLine(fields[0], fields[1], fields[3], fields[4]))
  {
    SplitJoin(fields, '\t');
    FieldsOfTrimmed(fields);
  }

  /** Fields without surrounding white space are left alone by trimming. */
  lemma TrimmedFields(fields: seq<string>)
    requires |fields| >= 5
    requires forall k :: 0 <= k < |fields| ==>
      fields[k] == [] || (!IsSpace(fields[k][0]) && !IsSpace(fields[k][|fields[k]| - 1]))
    ensures TrimSpace(fields[0]) == fields[0] && TrimSpace(fields[1]) == fields[1]
    ensures TrimSpace(fields[3]) == fields[3] && TrimSpace(fields[4]) == fields[4]
  {
    TrimSpaceKeeps(fields[0]);
    TrimSpaceKeeps(fields[1]);
    TrimSpaceKeeps(fields[3]);
    TrimSpaceKeeps(fields[4]);
  }

  /** Already trimmed pieces are taken as they are. */
  lemma FieldsOfTrimmed(parts: seq<string>)
    requires |parts| >= 5 && forall k :: 0 <= k < |parts| ==> '\t' !in parts[k]
    requires forall k :: 0 <= k < |parts| ==>
      parts[k] == [] || (!IsSpace(parts[k][0]) && !IsSpace(parts[k][|parts[k]| - 1]))
    ensures FieldsOf(parts) == Ok(TimingLine(parts[0], parts[1], parts[3], parts[4]))
  {
    TrimmedFields(parts);
    var t := TrimAll(parts);
    assert t[0] == parts[0] && t[1] == parts[1] && t[3] == parts[3] && t[4] == parts[4];
  }

  /** The number of `../` segments at the start of a locator. */
  function LeadingUps(loc: string): (n: nat)
    decreases |loc|
    ensures 3 * n <= |loc| && !("../" <= loc[3 * n..])
  {
    if "../" <= loc then 1 + LeadingUps(loc[3..]) else 0
  }

  function SlashCount(s: string): nat {
    multiset(s)['/']
  }

  /** Cutting `dir` at its last `/` removes exactly one `/`. */
  lemma CutAtLastSlash(dir: string, i: nat, d: string)
    requires i < |dir| && dir[i] == '/'
    requires forall j :: i < j < |dir| ==> dir[j] != '/'
    requires d <= dir[..i]
    ensures SlashCount(dir[|d|..]) == SlashCount(dir[..i][|d|..]) + 1
  {
    assert dir[|d|..] == dir[..i][|d|..] + ['/'] + dir[i + 1..];
    assert '/' !in dir[i + 1..];
  }

  /** Removes the leading `../` segments of `loc`, and one trailing `/segment`
      of `dir` for each; fails when `dir` runs out of `/`. Returns what is
      left of both. */
  function StripParents(loc: string, dir: string): (r: Result<(string, string)>)
    decreases |loc|
    ensures r.Err? <==> SlashCount(dir) < LeadingUps(loc)
    ensures r.Ok? ==> r.value.0 == loc[3 * LeadingUps(loc)..]
    ensures r.Ok? ==> r.value.1 <= dir
    ensures r.Ok? ==> SlashCount(dir[|r.value.1|..]) == LeadingUps(loc)
    ensures r.Ok? && LeadingUps(loc) > 0 ==> dir[|r.value.1|] == '/'
  {
    if "../" <= loc then
      match LastIndexOf(dir, '/')
      case None =>
        assert '/' !in dir;
        Err(NoSeparator(dir))
      case Some(i) =>
        CutAtLastSlash(dir, i, []);
        assert dir[..i] <= dir;
        var r := StripParents(loc[3..], dir[..i]);
        if r.Ok? then
          CutAtLastSlash(dir, i, r.value.1);
          r
        else r
    else
      Ok((loc, dir))
  }

  /** Resolves a locator that starts with `../` against the working directory. */
  function Resolve(loc: string, pwd: string): (r: Result<string>)
    ensures !("../" <= loc) ==> r == Ok(loc)
    ensures r.Err? <==> SlashCount(pwd) < LeadingUps(loc)
    ensures "../" <= loc && r.Ok? ==>
      exists d :: && d <= pwd && |d| < |pwd| && pwd[|d|] == '/'
                  && SlashCount(pwd[|d|..]) == LeadingUps(loc)
                  && r.value == d + "/" + loc[3 * LeadingUps(loc)..]
  {
    if "../" <= loc then
      var (rest, d) :- StripParents(loc, pwd);
      Ok(d + "/" + rest)
    else Ok(loc)
  }

  /** One `../` takes away the last segment of the working directory. */
  lemma ResolveOneUp(dir: string, seg: string, rest: string)
    requires '/' !in seg && !("../" <= rest)
    ensures Resolve("../" + rest, dir + "/" + seg) == Ok(dir + "/" + rest)
  {
    var loc, pwd := "../" + rest, dir + "/" + seg;
    assert "../" <= loc && loc[3..] == rest;
    assert pwd[|dir|] == '/';
    forall j | |dir| < j < |pwd| ensures pwd[j] != '/' {
      assert pwd[j] == seg[j - |dir| - 1];
    }
    assert LastIndexOf(pwd, '/') == Some(|dir|);
    assert pwd[..|dir|] == dir;
    assert StripParents(rest, dir) == Ok((rest, dir));
    assert StripParents(loc, pwd) == Ok((rest, dir));
  }

  /** Replaces a leading GOPATH root (or else a leading GOROOT root), with the
      separator after it, by a literal `GOPATH/` (or `GOROOT/`). */
  function RewriteRoot(path: string, gopath: string, goroot: string): (r: Result<string>)
    ensures !(gopath <= path) && !(goroot <= path) ==> r == Ok(path)
    ensures gopath <= path ==>
      r == (if |path| == |gopath| then Err(SliceOutOfRange(path))
            else Ok("GOPATH/" + path[|gopath| + 1..]))
    ensures !(gopath <= path) && goroot <= path ==>
      r == (if |path| == |goroot| then Err(SliceOutOfRange(path))
            else Ok("GOROOT/" + path[|goroot| + 1..]))
  {
    if gopath <= path then
      if |path| < |gopath| + 1 then Err(SliceOutOfRange(path))
      else Ok("GOPATH/" + path[|gopath| + 1..])
    else if goroot <= path then
      if |path| < |goroot| + 1 then Err(SliceOutOfRange(path))
      else Ok("GOROOT/" + path[|goroot| + 1..])
    else Ok(path)
  }

  /** A file under the GOPATH root is named relative to `GOPATH/`; one under
      only the GOROOT root relative to `GOROOT/`. */
  lemma RewriteRootOfJoin(root: string, rel: string, gopath: string, goroot: string)
    requires root == gopath || (root == goroot && !(gopath <= root + "/" + rel))
    ensures RewriteRoot(root + "/" + rel, gopath, goroot) ==
      Ok((if root == gopath then "GOPATH/" else "GOROOT/") + rel)
  {
    var path := root + "/" + rel;
    assert root <= path;
    assert path[|root| + 1..] == rel;
  }

  /** The locator normalisation of a timing line: resolve `../` segments,
      then rewrite the root. */
  function NormalizePath(loc: string, pwd: string, gopath: string, goroot: string): (r: Result<string>)
    ensures SlashCount(pwd) < LeadingUps(loc) ==> r.Err?
    ensures !("../" <= loc) ==> r == RewriteRoot(loc, gopath, goroot)
    ensures !("../" <= loc) && !(gopath <= loc) && !(goroot <= loc) ==> r == Ok(loc)
    ensures Resolve(loc, pwd).Ok? ==> r == RewriteRoot(Resolve(loc, pwd).value, gopath, goroot)
  {
    var p :- Resolve(loc, pwd);
    RewriteRoot(p, gopath, goroot)
  }
}
