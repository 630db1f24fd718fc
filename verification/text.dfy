/** The string operations the log scraper relies on, after Go's `strings`
    and `strconv` packages: substring search, last occurrence of a character,
    splitting on a separator, trimming white space, and decimal `uint64`
    parsing and formatting. Strings are sequences of characters.
 */
module Text {
  import opened Wrappers
  import opened Arith

  /** `pat` occurs in `s` starting at position `i`. */
  predicate OccursAt(s: string, pat: string, i: nat) {
    i + |pat| <= |s| && s[i..i + |pat|] == pat
  }

  /** The first occurrence of `pat` in `s` at or after `k`. */
  function FindFrom(s: string, pat: string, k: nat): (r: Option<nat>)
    requires k <= |s| + 1
    decreases |s| + 1 - k
    ensures r.Some? ==> k <= r.value && OccursAt(s, pat, r.value)
    ensures r.Some? ==> forall j :: k <= j < r.value ==> !OccursAt(s, pat, j)
    ensures r.None? ==> forall j :: k <= j ==> !OccursAt(s, pat, j)
  {
    if k + |pat| > |s| then None
    else if OccursAt(s, pat, k) then Some(k)
    else FindFrom(s, pat, k + 1)
  }

  /** `strings.Index`: the position of the first occurrence of `pat`. */
  function Find(s: string, pat: string): (r: Option<nat>)
    ensures r.Some? ==> OccursAt(s, pat, r.value)
    ensures r.Some? ==> forall j :: 0 <= j < r.value ==> !OccursAt(s, pat, j)
    ensures r.None? ==> forall j :: !OccursAt(s, pat, j)
  {
    FindFrom(s, pat, 0)
  }

  /** `strings.Contains`. */
  predicate Contains(s: string, pat: string) {
    Find(s, pat).Some?
  }

  /** `Contains` holds exactly when `pat` occurs somewhere in `s`. */
  lemma ContainsIff(s: string, pat: string)
    ensures Contains(s, pat) <==> exists i: nat :: OccursAt(s, pat, i)
  {
    if Contains(s, pat) {
      assert OccursAt(s, pat, Find(s, pat).value);
    }
  }

  /** `strings.LastIndex` for a one-character pattern. */
  function LastIndexOf(s: string, c: char): (r: Option<nat>)
    ensures r.Some? ==> r.value < |s| && s[r.value] == c
    ensures r.Some? ==> forall j :: r.value < j < |s| ==> s[j] != c
    ensures r.None? ==> forall j :: 0 <= j < |s| ==> s[j] != c
  {
    if |s| == 0 then None
    else if s[|s| - 1] == c then Some(|s| - 1)
    else LastIndexOf(s[..|s| - 1], c)
  }

  /** A one-character pattern occurs exactly where that character is. */
  lemma OccursAtChar(s: string, c: char, i: nat)
    ensures OccursAt(s, [c], i) <==> i < |s| && s[i] == c
  {
    if i < |s| && s[i] == c {
      assert s[i..i + 1] == [c];
    }
  }

  /** The pieces joined back with the separator between them. */
  function Join(parts: seq<string>, sep: char): string
    requires |parts| > 0
  {
    if |parts| == 1 then parts[0] else parts[0] + [sep] + Join(parts[1..], sep)
  }

  /** `strings.Split` on a one-character separator. */
  function Split(s: string, sep: char): (parts: seq<string>)
    decreases |s|
    ensures |parts| > 0
    ensures forall k :: 0 <= k < |parts| ==> sep !in parts[k]
    ensures Join(parts, sep) == s
  {
    match Find(s, [sep])
    case None =>
      assert forall j :: 0 <= j < |s| ==> s[j] != sep by {
        forall j | 0 <= j < |s| ensures s[j] != sep {
          OccursAtChar(s, sep, j);
        }
      }
      [s]
    case Some(i) =>
      OccursAtChar(s, sep, i);
      assert forall j :: 0 <= j < i ==> s[j] != sep by {
        forall j | 0 <= j < i ensures s[j] != sep {
          OccursAtChar(s, sep, j);
        }
      }
      var rest := Split(s[i + 1..], sep);
      assert s == s[..i] + [sep] + s[i + 1..];
      [s[..i]] + rest
  }

  /** Splitting pieces that do not contain the separator, after joining
      them, gives the pieces back. */
  lemma {:induction false} SplitJoin(parts: seq<string>, sep: char)
    requires |parts| > 0
    requires forall k :: 0 <= k < |parts| ==> sep !in parts[k]
    ensures Split(Join(parts, sep), sep) == parts
  {
    var s := Join(parts, sep);
    var p := parts[0];
    if |parts| == 1 {
      forall j ensures !OccursAt(s, [sep], j) {
        OccursAtChar(s, sep, j);
      }
    } else {
      var rest := Join(parts[1..], sep);
      assert s == p + [sep] + rest;
      OccursAtChar(s, sep, |p|);
      forall j | 0 <= j < |p| ensures !OccursAt(s, [sep], j) {
        OccursAtChar(s, sep, j);
        assert s[j] == p[j];
      }
      assert Find(s, [sep]) == Some(|p|);
      assert s[|p| + 1..] == rest;
      SplitJoin(parts[1..], sep);
      assert parts == [p] + parts[1..];
    }
  }

  /** `unicode.IsSpace`. */
  predicate IsSpace(c: char) {
    || c == ' ' || c == '\t' || c == '\n' || c == '\U{000B}' || c == '\U{000C}' || c == '\r'
    || c == '\U{0085}' || c == '\U{00A0}' || c == '\U{1680}'
    || ('\U{2000}' <= c <= '\U{200A}')
    || c == '\U{2028}' || c == '\U{2029}' || c == '\U{202F}' || c == '\U{205F}' || c == '\U{3000}'
  }

  predicate AllSpace(s: string) {
    forall i :: 0 <= i < |s| ==> IsSpace(s[i])
  }

  /** The number of white-space characters at the start of `s`. */
  function LeadingSpace(s: string): (n: nat)
    ensures n <= |s| && AllSpace(s[..n])
    ensures n < |s| ==> !IsSpace(s[n])
  {
    if |s| > 0 && IsSpace(s[0]) then 1 + LeadingSpace(s[1..]) else 0
  }

  /** The number of white-space characters at the end of `s`. */
  function TrailingSpace(s: string): (n: nat)
    ensures n <= |s| && AllSpace(s[|s| - n..])
    ensures n < |s| ==> !IsSpace(s[|s| - n - 1])
  {
    if |s| > 0 && IsSpace(s[|s| - 1]) then
      var n := 1 + TrailingSpace(s[..|s| - 1]);
      assert s[|s| - n..] == s[..|s| - 1][|s| - n..] + [s[|s| - 1]];
      n
    else 0
  }

  /** `strings.TrimSpace`: `s` without its leading and trailing white space. */
  function TrimSpace(s: string): (r: string)
    ensures |r| <= |s|
    ensures r == [] || (!IsSpace(r[0]) && !IsSpace(r[|r| - 1]))
    ensures exists a, b :: 0 <= a <= b <= |s| && r == s[a..b] && AllSpace(s[..a]) && AllSpace(s[b..])
  {
    var a := LeadingSpace(s);
    var t := s[a..];
    var n := TrailingSpace(t);
    assert t[..|t| - n] == s[a..|s| - n];
    assert t[|t| - n..] == s[|s| - n..];
    if n == |t| then
      assert AllSpace(s[..|s|]) by {
        assert s == s[..a] + t;
      }
      assert s[|s|..|s|] == [];
      []
    else
      s[a..|s| - n]
  }

  /** Trimming twice trims nothing more. */
  lemma TrimSpaceIdempotent(s: string)
    ensures TrimSpace(TrimSpace(s)) == TrimSpace(s)
  {
    var r := TrimSpace(s);
    if r != [] {
      assert LeadingSpace(r) == 0;
      assert TrailingSpace(r) == 0;
      assert r[0..|r|] == r;
    }
  }

  predicate IsDigit(c: char) {
    '0' <= c <= '9'
  }

  predicate AllDigits(s: string) {
    forall i :: 0 <= i < |s| ==> IsDigit(s[i])
  }

  /** The value `s` denotes in base ten. */
  function DecimalValue(s: string): nat
    requires AllDigits(s)
  {
    if |s| == 0 then 0
    else DecimalValue(s[..|s| - 1]) * 10 + (s[|s| - 1] as int - '0' as int)
  }

  /** `strconv.ParseUint(s, 10, 64)`: succeeds on a nonempty run of decimal
      digits (leading zeros allowed) whose value fits in a `uint64`. */
  function ParseUint(s: string): (r: Option<nat>)
    ensures r.Some? <==> |s| > 0 && AllDigits(s) && DecimalValue(s) < Modulus
    ensures r.Some? ==> r.value == DecimalValue(s) && r.value < Modulus
  {
    if |s| > 0 && AllDigits(s) && DecimalValue(s) < Modulus then Some(DecimalValue(s)) else None
  }

  function DigitChar(d: nat): (c: char)
    requires d < 10
    ensures IsDigit(c) && c as int - '0' as int == d
  {
    ('0' as int + d) as char
  }

  /** A decimal numeral without superfluous leading zeros. */
  predicate Canonical(s: string) {
    |s| > 0 && AllDigits(s) && (s[0] == '0' ==> |s| == 1)
  }

  /** `fmt.Sprintf("%d", n)`. */
  function FormatUint(n: nat): (s: string)
    ensures Canonical(s)
    ensures s[0] == '0' <==> n == 0
  {
    if n < 10 then [DigitChar(n)]
    else FormatUint(n / 10) + [DigitChar(n % 10)]
  }

  /** Reading a formatted number gives it back. */
  lemma {:induction false} FormatThenValue(n: nat)
    ensures DecimalValue(FormatUint(n)) == n
  {
    if n >= 10 {
      var s := FormatUint(n);
      assert s[..|s| - 1] == FormatUint(n / 10);
      FormatThenValue(n / 10);
    }
  }

  /** Every `uint64` survives formatting then parsing. */
  lemma FormatThenParse(n: nat)
    requires n < Modulus
    ensures ParseUint(FormatUint(n)) == Some(n)
  {
    FormatThenValue(n);
  }

  /** A numeral with a nonzero leading digit denotes a positive value. */
  lemma {:induction false} LeadingDigitPositive(s: string)
    requires |s| > 0 && AllDigits(s) && s[0] != '0'
    ensures DecimalValue(s) > 0
  {
    if |s| > 1 {
      LeadingDigitPositive(s[..|s| - 1]);
    }
  }

  /** Formatting a parsed canonical numeral gives back the same text. */
  lemma {:induction false} ValueThenFormat(s: string)
    requires Canonical(s)
    ensures FormatUint(DecimalValue(s)) == s
  {
    var n := DecimalValue(s);
    if |s| == 1 {
      assert s[..0] == [];
      assert DecimalValue(s[..0]) == 0;
      assert n == s[0] as int - '0' as int;
    } else {
      var t := s[..|s| - 1];
      var d := s[|s| - 1] as int - '0' as int;
      LeadingDigitPositive(t);
      assert n / 10 == DecimalValue(t) && n % 10 == d;
      ValueThenFormat(t);
      assert s == t + [s[|s| - 1]];
    }
  }

  /** A canonical numeral is accepted by the parser exactly when it fits in a
      `uint64`, and then it is the formatting of its value. */
  lemma ParseThenFormat(s: string)
    requires Canonical(s) && ParseUint(s).Some?
    ensures FormatUint(ParseUint(s).value) == s
  {
    ValueThenFormat(s);
  }
}
