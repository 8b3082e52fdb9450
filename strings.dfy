/**
 * The JavaScript string primitives the extension relies on: white space as
 * `\s` and `String.prototype.trim` see it, `includes`, `indexOf`,
 * `lastIndexOf`, global `replace`, `split`, `join`, ASCII `toLowerCase` and
 * decimal printing/parsing of non-negative integers.
 */
module Strings {
  import opened Wrappers

  /** The characters that JavaScript's `\s` and `trim()` treat as white space
      (WhiteSpace and LineTerminator of ECMA-262). */
  predicate IsSpace(c: char) {
    || c == ' ' || c == '\t' || c == '\n' || c == '\U{B}' || c == '\U{C}' || c == '\r'
    || c == '\U{A0}' || c == '\U{1680}' || ('\U{2000}' <= c <= '\U{200A}')
    || c == '\U{2028}' || c == '\U{2029}' || c == '\U{202F}' || c == '\U{205F}'
    || c == '\U{3000}' || c == '\U{FEFF}'
  }

  predicate AllSpace(s: string) {
    forall i :: 0 <= i < |s| ==> IsSpace(s[i])
  }

  /** `s` has no white space at either end. */
  predicate IsTrimmed(s: string) {
    s != [] ==> !IsSpace(s[0]) && !IsSpace(s[|s| - 1])
  }

  /** `trimStart`: drops the leading white space; see `TrimStartSpec`. */
  function TrimStart(s: string): string {
    if s != [] && IsSpace(s[0]) then TrimStart(s[1..]) else s
  }

  /** `trimEnd`: drops the trailing white space; see `TrimEndSpec`. */
  function TrimEnd(s: string): string {
    if s != [] && IsSpace(s[|s| - 1]) then TrimEnd(s[..|s| - 1]) else s
  }

  lemma {:induction false} TrimStartSpec(s: string)
    ensures var r := TrimStart(s);
      && |r| <= |s| && r == s[|s| - |r|..]
      && AllSpace(s[..|s| - |r|])
      && (r != [] ==> !IsSpace(r[0]))
  {
    if s != [] && IsSpace(s[0]) {
      TrimStartSpec(s[1..]);
      var r := TrimStart(s[1..]);
      assert s[..|s| - |r|] == [s[0]] + s[1..][..|s[1..]| - |r|];
    }
  }

  lemma {:induction false} TrimEndSpec(s: string)
    ensures var r := TrimEnd(s);
      && |r| <= |s| && r == s[..|r|]
      && AllSpace(s[|r|..])
      && (r != [] ==> !IsSpace(r[|r| - 1]))
  {
    if s != [] && IsSpace(s[|s| - 1]) {
      TrimEndSpec(s[..|s| - 1]);
      var r := TrimEnd(s[..|s| - 1]);
      assert s[|r|..] == s[..|s| - 1][|r|..] + [s[|s| - 1]];
    }
  }

  /** `String.prototype.trim`; see `TrimSpec`. */
  function Trim(s: string): string {
    TrimEnd(TrimStart(s))
  }

  /** The trim of `s` is a slice of `s` with no white space at its ends,
      surrounded by white space only. */
  lemma TrimSpec(s: string)
    ensures IsTrimmed(Trim(s))
    ensures exists a, b :: 0 <= a <= b <= |s| && Trim(s) == s[a..b] && AllSpace(s[..a]) && AllSpace(s[b..])
  {
    var t := TrimStart(s);
    var r := TrimEnd(t);
    TrimStartSpec(s);
    TrimEndSpec(t);
    var a := |s| - |t|;
    var b := a + |r|;
    assert r == s[a..b];
    assert s[b..] == t[|r|..];
  }

  lemma {:induction false} TrimStartOfTrimmed(s: string)
    requires IsTrimmed(s)
    ensures TrimStart(s) == s
  {
  }

  lemma {:induction false} TrimEndOfTrimmed(s: string)
    requires IsTrimmed(s)
    ensures TrimEnd(s) == s
  {
  }

  /** Trimming is idempotent, and a string with no white space at its ends is
      its own trim. */
  lemma TrimOfTrimmed(s: string)
    requires IsTrimmed(s)
    ensures Trim(s) == s
  {
    TrimStartOfTrimmed(s);
    TrimEndOfTrimmed(s);
  }

  /** The trim is empty exactly when the string is all white space. */
  lemma {:induction false} TrimEmptyIffAllSpace(s: string)
    ensures Trim(s) == [] <==> AllSpace(s)
  {
    var t := TrimStart(s);
    TrimStartSpec(s);
    TrimEndSpec(t);
    if Trim(s) == [] {
      assert TrimEnd(t) == [];
      assert AllSpace(t[0..]);
      assert s == s[..|s| - |t|] + t;
    } else if AllSpace(s) {
      AllSpaceTrimStart(s);
    }
  }

  lemma {:induction false} AllSpaceTrimStart(s: string)
    requires AllSpace(s)
    ensures TrimStart(s) == []
  {
    if s != [] {
      assert AllSpace(s[1..]) by { assert forall i :: 0 <= i < |s| - 1 ==> s[1..][i] == s[i + 1]; }
      AllSpaceTrimStart(s[1..]);
    }
  }

  /** `haystack.includes(needle)`: `needle` occurs at some position of `haystack`. */
  predicate Contains(haystack: string, needle: string)
    decreases |haystack|
  {
    StartsWith(haystack, needle) || (haystack != [] && Contains(haystack[1..], needle))
  }

  /** A string only contains strings no longer than itself. */
  lemma {:induction false} ContainsLength(haystack: string, needle: string)
    requires Contains(haystack, needle)
    ensures |needle| <= |haystack|
    decreases |haystack|
  {
    if !StartsWith(haystack, needle) {
      ContainsLength(haystack[1..], needle);
    }
  }

  function StartsWith(s: string, prefix: string): bool {
    |prefix| <= |s| && s[..|prefix|] == prefix
  }

  function EndsWith(s: string, suffix: string): bool {
    |suffix| <= |s| && s[|s| - |suffix|..] == suffix
  }

  /** `s.indexOf(c)` for a single character: the first position of `c`, or -1. */
  function IndexOf(s: string, c: char): (r: int)
    ensures -1 <= r < |s|
    ensures r == -1 <==> c !in s
    ensures 0 <= r ==> s[r] == c && c !in s[..r]
  {
    if s == [] then -1
    else if s[0] == c then 0
    else
      var k := IndexOf(s[1..], c);
      if k < 0 then -1
      else
        assert s[..k + 1] == [s[0]] + s[1..][..k];
        k + 1
  }

  /** `s.lastIndexOf(c)` for a single character: the last position of `c`, or -1. */
  function LastIndexOf(s: string, c: char): (r: int)
    ensures -1 <= r < |s|
    ensures r == -1 <==> c !in s
    ensures 0 <= r ==> s[r] == c && c !in s[r + 1..]
  {
    if s == [] then -1
    else if s[|s| - 1] == c then |s| - 1
    else
      var k := LastIndexOf(s[..|s| - 1], c);
      assert k < 0 ==> c !in s;
      k
  }

  /** `s.replace(/pat/g, rep)` for a literal pattern: every leftmost,
      non-overlapping occurrence of `pat` is replaced. */
  function ReplaceAll(s: string, pat: string, rep: string): (r: string)
    requires pat != []
    decreases |s|
  {
    if s == [] then []
    else if StartsWith(s, pat) then rep + ReplaceAll(s[|pat|..], pat, rep)
    else [s[0]] + ReplaceAll(s[1..], pat, rep)
  }

  /** Replacing a pattern that does not occur changes nothing. */
  lemma {:induction false} ReplaceAllAbsent(s: string, pat: string, rep: string)
    requires pat != [] && !Contains(s, pat)
    ensures ReplaceAll(s, pat, rep) == s
    decreases |s|
  {
    if s != [] {
      ReplaceAllAbsent(s[1..], pat, rep);
    }
  }

  /** `s.split(/[...]/)` for a set of single-character separators: the maximal
      separator-free pieces, empty ones included; there is always at least one. */
  function SplitOn(s: string, isSep: char -> bool): (r: seq<string>)
    ensures |r| >= 1
    ensures forall i, j :: 0 <= i < |r| && 0 <= j < |r[i]| ==> !isSep(r[i][j])
  {
    if s == [] then [[]]
    else
      var rest := SplitOn(s[1..], isSep);
      if isSep(s[0]) then [[]] + rest
      else [[s[0]] + rest[0]] + rest[1..]
  }

  /** `parts.join(sep)`. */
  function Join(parts: seq<string>, sep: string): string {
    if parts == [] then []
    else if |parts| == 1 then parts[0]
    else parts[0] + sep + Join(parts[1..], sep)
  }

  /** Joining non-empty texts without white space at their ends by a
      separator gives a text without white space at its ends. */
  lemma {:induction false} JoinTrimmed(parts: seq<string>, sep: string)
    requires forall i :: 0 <= i < |parts| ==> parts[i] != [] && IsTrimmed(parts[i])
    ensures IsTrimmed(Join(parts, sep))
    ensures parts != [] ==> Join(parts, sep) != [] && Join(parts, sep)[0] == parts[0][0]
    ensures parts != [] ==> var j := Join(parts, sep); var l := parts[|parts| - 1];
      j[|j| - 1] == l[|l| - 1]
  {
    if |parts| > 1 {
      JoinTrimmed(parts[1..], sep);
      var rest := Join(parts[1..], sep);
      assert Join(parts, sep) == parts[0] + sep + rest;
    }
  }

  /** Joining one more part appends the separator and the part. */
  lemma {:induction false} JoinSnoc(parts: seq<string>, x: string, sep: string)
    requires parts != []
    ensures Join(parts + [x], sep) == Join(parts, sep) + sep + x
  {
    var all := parts + [x];
    assert all[1..] == parts[1..] + [x];
    if |parts| > 1 {
      JoinSnoc(parts[1..], x, sep);
    }
  }

  /** A text without separators splits into itself alone. */
  lemma {:induction false} SplitOnFree(s: string, isSep: char -> bool)
    requires forall k :: 0 <= k < |s| ==> !isSep(s[k])
    ensures SplitOn(s, isSep) == [s]
  {
    if s != [] {
      SplitOnFree(s[1..], isSep);
      assert [s[0]] + s[1..] == s;
    }
  }

  /** A separator-free piece followed by a separator is the first piece. */
  lemma {:induction false} SplitOnSep(a: string, c: char, b: string, isSep: char -> bool)
    requires forall k :: 0 <= k < |a| ==> !isSep(a[k])
    requires isSep(c)
    ensures SplitOn(a + [c] + b, isSep) == [a] + SplitOn(b, isSep)
  {
    if a == [] {
      assert a + [c] + b == [c] + b;
      assert ([c] + b)[1..] == b;
    } else {
      SplitOnSep(a[1..], c, b, isSep);
      var s := a + [c] + b;
      assert s[0] == a[0];
      assert s[1..] == a[1..] + [c] + b;
      assert [a[0]] + a[1..] == a;
    }
  }

  /** Splitting at a separator undoes joining separator-free pieces with it. */
  lemma {:induction false} SplitOnJoin(parts: seq<string>, c: char, isSep: char -> bool)
    requires parts != []
    requires isSep(c)
    requires forall i, k :: 0 <= i < |parts| && 0 <= k < |parts[i]| ==> !isSep(parts[i][k])
    ensures SplitOn(Join(parts, [c]), isSep) == parts
  {
    if |parts| == 1 {
      SplitOnFree(parts[0], isSep);
    } else {
      SplitOnJoin(parts[1..], c, isSep);
      SplitOnSep(parts[0], c, Join(parts[1..], [c]), isSep);
      assert [parts[0]] + parts[1..] == parts;
    }
  }

  /** ASCII `toLowerCase`: letters A-Z are mapped to a-z, everything else kept. */
  function LowerChar(c: char): char {
    if 'A' <= c <= 'Z' then (c as int + 32) as char else c
  }

  function Lower(s: string): (r: string)
    ensures |r| == |s|
    ensures forall i :: 0 <= i < |s| ==> r[i] == LowerChar(s[i])
  {
    seq(|s|, i requires 0 <= i < |s| => LowerChar(s[i]))
  }

  /** The first `n` characters of `s` (all of it when it is shorter): `s.slice(0, n)`. */
  function Take(s: string, n: nat): (r: string)
    ensures |r| <= n && |r| <= |s| && r == s[..|r|]
    ensures |s| <= n ==> r == s
  {
    if |s| <= n then s else s[..n]
  }

  /* ---------- White-space normalisation ---------- */

  /** `s.replace(/p+/g, " ")`: every maximal run of characters satisfying `p`
      becomes one space. */
  function CollapseRuns(s: string, p: char -> bool): (r: string)
    ensures |r| <= |s|
  {
    if s == [] then []
    else if p(s[0]) then [' '] + CollapseRuns(DropWhile(s, p), p)
    else [s[0]] + CollapseRuns(s[1..], p)
  }

  function DropWhile(s: string, p: char -> bool): (r: string)
    ensures |r| <= |s| && r == s[|s| - |r|..]
    ensures r != [] ==> !p(r[0])
    ensures s != [] && p(s[0]) ==> |r| < |s|
  {
    if s != [] && p(s[0]) then DropWhile(s[1..], p) else s
  }

  predicate IsLineBreak(c: char) {
    c == '\r' || c == '\n'
  }

  /** No two white-space characters are adjacent, and the only white space is ' '. */
  ghost predicate SingleSpaced(s: string) {
    && (forall i :: 0 <= i < |s| && IsSpace(s[i]) ==> s[i] == ' ')
    && (forall i, j :: 0 <= i < j < |s| && j == i + 1 && IsSpace(s[j]) ==> !IsSpace(s[i]))
  }

  lemma {:induction false} CollapseSingleSpaced(s: string)
    ensures SingleSpaced(CollapseRuns(s, IsSpace))
    ensures var r := CollapseRuns(s, IsSpace); r != [] && s != [] ==> (IsSpace(r[0]) <==> IsSpace(s[0]))
    decreases |s|
  {
    if s != [] {
      if IsSpace(s[0]) {
        var d := DropWhile(s, IsSpace);
        CollapseSingleSpaced(d);
      } else {
        CollapseSingleSpaced(s[1..]);
      }
    }
  }

  /** A string free of a class of characters is left unchanged by collapsing that class. */
  lemma {:induction false} CollapseAbsent(s: string, p: char -> bool)
    requires forall i :: 0 <= i < |s| ==> !p(s[i])
    ensures CollapseRuns(s, p) == s
    decreases |s|
  {
    if s != [] {
      CollapseAbsent(s[1..], p);
    }
  }

  /** A slice of a single-spaced string is single-spaced. */
  lemma SingleSpacedSlice(s: string, a: nat, b: nat)
    requires a <= b <= |s| && SingleSpaced(s)
    ensures SingleSpaced(s[a..b])
  {
    var t := s[a..b];
    forall i, j | 0 <= i < j < |t| && j == i + 1 && IsSpace(t[j]) ensures !IsSpace(t[i]) {
      assert t[j] == s[a + j] && t[i] == s[a + i];
    }
  }

  /** `normalizeText`: runs of white space become one space, line breaks become
      a space, and the ends are trimmed. */
  function NormalizeText(s: string): (r: string)
    ensures IsTrimmed(r) && SingleSpaced(r)
  {
    var collapsed := CollapseRuns(s, IsSpace);
    CollapseSingleSpaced(s);
    assert forall i :: 0 <= i < |collapsed| ==> !IsLineBreak(collapsed[i]);
    CollapseAbsent(collapsed, IsLineBreak);
    var r := Trim(CollapseRuns(collapsed, IsLineBreak));
    TrimSpec(CollapseRuns(collapsed, IsLineBreak));
    var a, b :| 0 <= a <= b <= |collapsed| && r == collapsed[a..b];
    SingleSpacedSlice(collapsed, a, b);
    r
  }

  /** A normalised text is a fixed point of normalisation. */
  lemma {:induction false} NormalizeTextIdempotent(s: string)
    ensures NormalizeText(NormalizeText(s)) == NormalizeText(s)
  {
    var t := NormalizeText(s);
    SingleSpacedCollapse(t);
    assert forall i :: 0 <= i < |t| ==> !IsLineBreak(t[i]);
    CollapseAbsent(t, IsLineBreak);
    TrimOfTrimmed(t);
  }

  /** Collapsing the white space of a single-spaced string changes nothing. */
  lemma {:induction false} SingleSpacedCollapse(s: string)
    requires SingleSpaced(s)
    ensures CollapseRuns(s, IsSpace) == s
    decreases |s|
  {
    if s != [] {
      var t := s[1..];
      SingleSpacedSlice(s, 1, |s|);
      SingleSpacedCollapse(t);
      if IsSpace(s[0]) {
        assert t != [] ==> !IsSpace(t[0]) by {
          if t != [] { assert s[1] == t[0]; }
        }
        CollapseSingleLeadingSpace(s);
      }
    }
  }

  lemma CollapseSingleLeadingSpace(s: string)
    requires s != [] && IsSpace(s[0]) && (|s| > 1 ==> !IsSpace(s[1]))
    ensures CollapseRuns(s, IsSpace) == [' '] + CollapseRuns(s[1..], IsSpace)
  {
    DropWhileStop(s[1..], IsSpace);
  }

  lemma DropWhileStop(s: string, p: char -> bool)
    requires s != [] ==> !p(s[0])
    ensures DropWhile(s, p) == s
  {
  }

  /** The characters of `s` that satisfy `keep`, in order (`replace` with a
      global pattern and an empty replacement). */
  function Filter(s: string, keep: char -> bool): string {
    if s == [] then [] else (if keep(s[0]) then [s[0]] else []) + Filter(s[1..], keep)
  }

  /** Filtering keeps only characters that satisfy `keep`, and never lengthens. */
  lemma {:induction false} FilterSpec(s: string, keep: char -> bool)
    ensures |Filter(s, keep)| <= |s|
    ensures forall i :: 0 <= i < |Filter(s, keep)| ==> keep(Filter(s, keep)[i])
  {
    if s != [] {
      FilterSpec(s[1..], keep);
      var t := Filter(s[1..], keep);
      var h := if keep(s[0]) then [s[0]] else [];
      assert Filter(s, keep) == h + t;
      assert forall i :: |h| <= i < |h| + |t| ==> (h + t)[i] == t[i - |h|];
    }
  }

  /** Filtering keeps a string whose every character is kept. */
  lemma {:induction false} FilterAll(s: string, keep: char -> bool)
    requires forall i :: 0 <= i < |s| ==> keep(s[i])
    ensures Filter(s, keep) == s
  {
    if s != [] {
      FilterAll(s[1..], keep);
    }
  }

  /* ---------- Decimal numbers ---------- */

  function DigitChar(d: nat): (c: char)
    requires d < 10
    ensures '0' <= c <= '9'
  {
    ('0' as int + d) as char
  }

  predicate IsDigit(c: char) {
    '0' <= c <= '9'
  }

  /** The decimal spelling of `n` that JavaScript's `String(n)` and template
      literals produce. */
  function NatToString(n: nat): (r: string)
    ensures r != []
  {
    if n < 10 then [DigitChar(n)] else NatToString(n / 10) + [DigitChar(n % 10)]
  }

  /** A printed number is all digits, without a leading zero. */
  lemma {:induction false} NatToStringDigits(n: nat)
    ensures forall i :: 0 <= i < |NatToString(n)| ==> IsDigit(NatToString(n)[i])
    ensures |NatToString(n)| > 1 ==> NatToString(n)[0] != '0'
  {
    if n >= 10 {
      NatToStringDigits(n / 10);
    }
  }

  /** The value of a string of decimal digits. */
  function DigitsValue(s: string): nat
    requires forall i :: 0 <= i < |s| ==> IsDigit(s[i])
  {
    if s == [] then 0
    else
      var last := s[|s| - 1];
      assert IsDigit(last);
      10 * DigitsValue(s[..|s| - 1]) + (last as int - '0' as int)
  }

  /** Reading back a printed number gives the number. */
  lemma {:induction false} DigitsValueOfNatToString(n: nat)
    ensures (forall i :: 0 <= i < |NatToString(n)| ==> IsDigit(NatToString(n)[i]))
      && DigitsValue(NatToString(n)) == n
  {
    NatToStringDigits(n);
    if n >= 10 {
      var s := NatToString(n);
      assert s[..|s| - 1] == NatToString(n / 10);
      DigitsValueOfNatToString(n / 10);
    }
  }

  /** Distinct numbers are printed differently. */
  lemma NatToStringInjective(m: nat, n: nat)
    requires NatToString(m) == NatToString(n)
    ensures m == n
  {
    DigitsValueOfNatToString(m);
    DigitsValueOfNatToString(n);
  }
}
