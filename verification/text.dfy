/**
 * The parts of the .NET string and character library that the generator relies on:
 * character classes, `Trim`, ordinal `IndexOf`/`StartsWith`, `OrdinalIgnoreCase` folding,
 * `Split` on line breaks with `RemoveEmptyEntries`, `Split('.')`, and `StringBuilder.AppendLine`.
 */
module Text {
  import opened Wrappers

  /** `Environment.NewLine` as `StringBuilder.AppendLine` writes it (the Unix value). */
  const NL: string := "\n"

  /** The two separators the source passes to `Split`: carriage return and line feed. */
  predicate IsLineBreak(c: char) {
    c == '\r' || c == '\n'
  }

  /**
   * `char.IsWhiteSpace`, which is also the set the regular-expression class `\s` matches:
   * tab, line feed, vertical tab, form feed, carriage return, U+0085 and the Unicode
   * space, line and paragraph separators.
   */
  predicate IsWhitespace(c: char) {
    c == ' ' || '\t' <= c <= '\r' || c == '\U{0085}' || c == '\U{00A0}' || c == '\U{1680}'
    || '\U{2000}' <= c <= '\U{200A}' || c == '\U{2028}' || c == '\U{2029}'
    || c == '\U{202F}' || c == '\U{205F}' || c == '\U{3000}'
  }

  /** The regular-expression class `[ \t]`. */
  predicate IsSpaceOrTab(c: char) {
    c == ' ' || c == '\t'
  }

  /** `char.IsLetter`, over ASCII. */
  predicate IsLetter(c: char) {
    'A' <= c <= 'Z' || 'a' <= c <= 'z'
  }

  /** `char.IsDigit` (decimal digits), over ASCII. */
  predicate IsDigit(c: char) {
    '0' <= c <= '9'
  }

  predicate IsLetterOrDigit(c: char) {
    IsLetter(c) || IsDigit(c)
  }

  lemma NLIsLineBreaks()
    ensures |NL| > 0
    ensures forall i :: 0 <= i < |NL| ==> IsLineBreak(NL[i]) && IsWhitespace(NL[i])
  {
  }

  // ---------------------------------------------------------------------------
  // OrdinalIgnoreCase

  /** Upper-casing per character, as `StringComparer.OrdinalIgnoreCase` compares (ASCII). */
  function FoldChar(c: char): char {
    if 'a' <= c <= 'z' then (c as int - 32) as char else c
  }

  function Fold(s: string): (r: string)
    ensures |r| == |s|
    ensures forall i :: 0 <= i < |s| ==> r[i] == FoldChar(s[i])
  {
    seq(|s|, i requires 0 <= i < |s| => FoldChar(s[i]))
  }

  /** Equality under `StringComparer.OrdinalIgnoreCase`. */
  predicate EqualsIgnoreCase(a: string, b: string) {
    Fold(a) == Fold(b)
  }

  lemma FoldConcat(a: string, b: string)
    ensures Fold(a + b) == Fold(a) + Fold(b)
  {
    assert forall i :: 0 <= i < |a + b| ==> Fold(a + b)[i] == (Fold(a) + Fold(b))[i];
  }

  // ---------------------------------------------------------------------------
  // Whitespace and Trim

  /** `string.IsNullOrWhiteSpace` for a non-null string: every character is whitespace. */
  predicate IsNullOrWhiteSpace(s: string) {
    forall i :: 0 <= i < |s| ==> IsWhitespace(s[i])
  }

  /** No whitespace at either end: what `Trim` returns. */
  predicate IsTrimmed(s: string) {
    |s| == 0 || (!IsWhitespace(s[0]) && !IsWhitespace(s[|s| - 1]))
  }

  /** Where `TrimStart` cuts: the first character from `i` on that is not whitespace, or `|s|`. */
  function TrimStartIndex(s: string, i: nat): (j: nat)
    requires i <= |s|
    ensures i <= j <= |s|
    decreases |s| - i
  {
    if i == |s| || !IsWhitespace(s[i]) then i else TrimStartIndex(s, i + 1)
  }

  /** `TrimStart` stops at the end or at a character that is not whitespace. */
  lemma {:induction false} TrimStartStops(s: string, i: nat)
    requires i <= |s|
    ensures TrimStartIndex(s, i) == |s| || !IsWhitespace(s[TrimStartIndex(s, i)])
    decreases |s| - i
  {
    if i < |s| && IsWhitespace(s[i]) {
      TrimStartStops(s, i + 1);
    }
  }

  /** Everything `TrimStart` cuts is whitespace. */
  lemma {:induction false} TrimStartRun(s: string, i: nat)
    requires i <= |s|
    ensures forall k :: i <= k < TrimStartIndex(s, i) ==> IsWhitespace(s[k])
    decreases |s| - i
  {
    if i < |s| && IsWhitespace(s[i]) {
      TrimStartRun(s, i + 1);
    }
  }

  /** Where `TrimEnd` cuts: just after the last character before `j` that is not whitespace, or `lo`. */
  function TrimEndIndex(s: string, lo: nat, j: nat): (e: nat)
    requires lo <= j <= |s|
    ensures lo <= e <= j
    decreases j - lo
  {
    if j == lo || !IsWhitespace(s[j - 1]) then j else TrimEndIndex(s, lo, j - 1)
  }

  /** `TrimEnd` stops at `lo` or just after a character that is not whitespace. */
  lemma {:induction false} TrimEndStops(s: string, lo: nat, j: nat)
    requires lo <= j <= |s|
    ensures TrimEndIndex(s, lo, j) == lo || !IsWhitespace(s[TrimEndIndex(s, lo, j) - 1])
    decreases j - lo
  {
    if j > lo && IsWhitespace(s[j - 1]) {
      TrimEndStops(s, lo, j - 1);
    }
  }

  /** Everything `TrimEnd` cuts is whitespace. */
  lemma {:induction false} TrimEndRun(s: string, lo: nat, j: nat)
    requires lo <= j <= |s|
    ensures forall k :: TrimEndIndex(s, lo, j) <= k < j ==> IsWhitespace(s[k])
    decreases j - lo
  {
    if j > lo && IsWhitespace(s[j - 1]) {
      TrimEndRun(s, lo, j - 1);
    }
  }

  /** `string.Trim()`: removes leading and trailing whitespace. */
  function Trim(s: string): (r: string)
    ensures |r| <= |s|
  {
    var b := TrimStartIndex(s, 0);
    s[b..TrimEndIndex(s, b, |s|)]
  }

  /** What `Trim` returns has no whitespace at either end. */
  lemma TrimIsTrimmed(s: string)
    ensures IsTrimmed(Trim(s))
  {
    var b := TrimStartIndex(s, 0);
    TrimStartStops(s, 0);
    TrimEndStops(s, b, |s|);
  }

  /** `Trim` leaves nothing exactly when the text is whitespace only. */
  lemma TrimEmpty(s: string)
    ensures Trim(s) == [] <==> IsNullOrWhiteSpace(s)
  {
    TrimStartRun(s, 0);
    TrimStartStops(s, 0);
    TrimEndRun(s, TrimStartIndex(s, 0), |s|);
    TrimEndStops(s, TrimStartIndex(s, 0), |s|);
  }

  /** `Trim` removes exactly the whitespace around a trimmed core, and nothing else. */
  lemma TrimPadded(p: string, m: string, q: string)
    requires IsNullOrWhiteSpace(p) && IsNullOrWhiteSpace(q) && IsTrimmed(m)
    ensures Trim(p + m + q) == m
  {
    var s := p + m + q;
    var b := TrimStartIndex(s, 0);
    if |m| == 0 {
      assert IsNullOrWhiteSpace(s) by {
        forall k | 0 <= k < |s| ensures IsWhitespace(s[k]) {
          if k < |p| { assert s[k] == p[k]; } else { assert s[k] == q[k - |p|]; }
        }
      }
      TrimEmpty(s);
    } else {
      TrimStartRun(s, 0);
      TrimStartStops(s, 0);
      assert s[|p|] == m[0];
      assert b == |p|;
      var e := TrimEndIndex(s, b, |s|);
      TrimEndRun(s, b, |s|);
      TrimEndStops(s, b, |s|);
      assert s[|p| + |m| - 1] == m[|m| - 1];
      assert e == |p| + |m|;
      assert s[b..e] == m;
    }
  }

  /** `Trim` returns a contiguous part of its input. */
  lemma TrimIsSlice(s: string) returns (i: nat)
    ensures i + |Trim(s)| <= |s| && Trim(s) == s[i..i + |Trim(s)|]
  {
    i := TrimStartIndex(s, 0);
  }

  /** A text without line breaks keeps none after trimming. */
  lemma TrimNoLineBreak(s: string)
    requires NoLineBreak(s)
    ensures NoLineBreak(Trim(s))
  {
    var i := TrimIsSlice(s);
    forall j | 0 <= j < |Trim(s)| ensures !IsLineBreak(Trim(s)[j]) {
      assert Trim(s)[j] == s[i + j];
    }
  }

  /** `Trim` is idempotent. */
  lemma TrimTrimmed(s: string)
    requires IsTrimmed(s)
    ensures Trim(s) == s
  {
    TrimPadded([], s, []);
    assert [] + s + [] == s;
  }

  // ---------------------------------------------------------------------------
  // Ordinal search

  /** `s.StartsWith(p)` compared ordinally. */
  predicate StartsWith(s: string, p: string) {
    |p| <= |s| && s[..|p|] == p
  }

  /** `s.EndsWith(suffix, StringComparison.OrdinalIgnoreCase)`. */
  predicate EndsWithIgnoreCase(s: string, suffix: string) {
    |suffix| <= |s| && EqualsIgnoreCase(s[|s| - |suffix|..], suffix)
  }

  predicate OccursAt(s: string, pat: string, j: nat) {
    j + |pat| <= |s| && s[j..j + |pat|] == pat
  }

  function IndexOfFrom(s: string, pat: string, from: nat): (r: Option<nat>)
    ensures r.Some? ==> from <= r.value && OccursAt(s, pat, r.value)
    ensures forall j :: from <= j && (r.None? || j < r.value) ==> !OccursAt(s, pat, j)
    decreases |s| - from
  {
    if from + |pat| > |s| then None
    else if s[from..from + |pat|] == pat then Some(from)
    else IndexOfFrom(s, pat, from + 1)
  }

  /** `s.IndexOf(pat, StringComparison.Ordinal)`: the first occurrence, `None` for -1. */
  function IndexOf(s: string, pat: string): (r: Option<nat>)
    ensures r.Some? ==> OccursAt(s, pat, r.value)
    ensures forall j: nat :: (r.None? || j < r.value) ==> !OccursAt(s, pat, j)
  {
    IndexOfFrom(s, pat, 0)
  }

  // ---------------------------------------------------------------------------
  // Split(new[] { '\r', '\n' }, StringSplitOptions.RemoveEmptyEntries)

  predicate NoLineBreak(s: string) {
    forall i :: 0 <= i < |s| ==> !IsLineBreak(s[i])
  }

  predicate AllLineBreaks(s: string) {
    forall i :: 0 <= i < |s| ==> IsLineBreak(s[i])
  }

  /** The end of the line that starts at `i`: the next line break or the end of `s`. */
  function LineEnd(s: string, i: nat): (k: nat)
    requires i <= |s|
    ensures i <= k <= |s|
    ensures NoLineBreak(s[i..k])
    ensures k == |s| || IsLineBreak(s[k])
    decreases |s| - i
  {
    if i == |s| || IsLineBreak(s[i]) then i else LineEnd(s, i + 1)
  }

  /** The non-empty runs of characters between line breaks, in order. */
  function Lines(s: string): (r: seq<string>)
    ensures forall i :: 0 <= i < |r| ==> r[i] != [] && NoLineBreak(r[i])
    decreases |s|
  {
    if s == [] then []
    else if IsLineBreak(s[0]) then Lines(s[1..])
    else
      var k := LineEnd(s, 0);
      [s[..k]] + Lines(s[k..])
  }

  /** What a `StringBuilder` holds after `AppendLine(l)` for each `l` of `ls`. */
  function AppendLines(ls: seq<string>): string
  {
    if ls == [] then [] else AppendLines(ls[..|ls| - 1]) + ls[|ls| - 1] + NL
  }

  /** `AppendLine(x)` on a builder holding `AppendLines(ls)`. */
  lemma AppendLinesSnoc(ls: seq<string>, x: string)
    ensures AppendLines(ls + [x]) == AppendLines(ls) + x + NL
  {
    assert (ls + [x])[..|ls|] == ls;
  }

  lemma ConcatAssoc<T>(a: seq<T>, b: seq<T>, c: seq<T>)
    ensures (a + b) + c == a + (b + c)
  {
  }

  /** Appending two runs of lines one after the other. */
  lemma {:induction false} AppendLinesConcat(a: seq<string>, b: seq<string>)
    ensures AppendLines(a + b) == AppendLines(a) + AppendLines(b)
    decreases |b|
  {
    if b == [] {
      assert a + b == a;
    } else {
      var init, x := b[..|b| - 1], b[|b| - 1];
      AppendLinesConcat(a, init);
      assert a + b == (a + init) + [x];
      AppendLinesSnoc(a + init, x);
    }
  }

  /** `AppendLines` over a slice, one line shorter. */
  lemma AppendLinesSlice(ls: seq<string>, a: nat, b: nat)
    requires a < b <= |ls|
    ensures AppendLines(ls[a..b]) == AppendLines(ls[a..b - 1]) + ls[b - 1] + NL
  {
    assert ls[a..b][..b - 1 - a] == ls[a..b - 1];
  }

  lemma SliceToEnd<T>(s: seq<T>, a: nat)
    requires a <= |s|
    ensures s[a..|s|] == s[a..]
  {
  }

  /** `AppendLines` over a prefix, one line shorter. */
  lemma AppendLinesPrefix(ls: seq<string>, b: nat)
    requires 0 < b <= |ls|
    ensures AppendLines(ls[..b]) == AppendLines(ls[..b - 1]) + ls[b - 1] + NL
  {
    assert ls[..b][..b - 1] == ls[..b - 1];
  }

  /** The lines of `ls` that are not empty, in order. */
  function NonEmpty(ls: seq<string>): (r: seq<string>)
    ensures forall i :: 0 <= i < |r| ==> r[i] != [] && r[i] in ls
  {
    if ls == [] then []
    else NonEmpty(ls[..|ls| - 1]) + (if ls[|ls| - 1] == [] then [] else [ls[|ls| - 1]])
  }

  lemma {:induction false} LinesOfBreaks(b: string)
    requires AllLineBreaks(b)
    ensures Lines(b) == []
    decreases |b|
  {
    if b != [] {
      LinesOfBreaks(b[1..]);
    }
  }

  /** Splitting distributes over a concatenation whose seam is a line break. */
  lemma {:induction false} LinesConcat(a: string, b: string)
    requires a == [] || b == [] || IsLineBreak(a[|a| - 1]) || IsLineBreak(b[0])
    ensures Lines(a + b) == Lines(a) + Lines(b)
    decreases |a|
  {
    if a == [] {
      assert a + b == b;
    } else if IsLineBreak(a[0]) {
      assert a[1..] == [] || a[1..][|a[1..]| - 1] == a[|a| - 1];
      LinesConcat(a[1..], b);
      LinesConcatBreak(a, b);
    } else {
      var k := LineEnd(a, 0);
      if k < |a| {
        assert a[k..][|a[k..]| - 1] == a[|a| - 1];
        LinesConcat(a[k..], b);
        LinesConcatLine(a, b, k);
      } else {
        assert a[|a| - 1] == a[0..|a|][|a| - 1];
        LinesConcatWhole(a, b);
      }
    }
  }

  /** A leading line break of `a` is dropped from `a + b` as from `a`. */
  lemma LinesConcatBreak(a: string, b: string)
    requires a != [] && IsLineBreak(a[0])
    requires Lines(a[1..] + b) == Lines(a[1..]) + Lines(b)
    ensures Lines(a + b) == Lines(a) + Lines(b)
  {
    assert (a + b)[0] == a[0];
    assert Lines(a + b) == Lines((a + b)[1..]);
    assert (a + b)[1..] == a[1..] + b;
  }

  /** The first line of `a` ends inside `a`, so it is also the first line of `a + b`. */
  lemma LinesConcatLine(a: string, b: string, k: nat)
    requires a != [] && !IsLineBreak(a[0]) && k == LineEnd(a, 0) < |a|
    requires Lines(a[k..] + b) == Lines(a[k..]) + Lines(b)
    ensures Lines(a + b) == Lines(a) + Lines(b)
  {
    var ab := a + b;
    assert ab[0] == a[0];
    assert NoLineBreak(ab[0..k]) by { assert ab[0..k] == a[0..k]; }
    assert IsLineBreak(ab[k]);
    LineEndIsFirstBreak(ab, 0, k);
    assert ab[..k] == a[..k];
    assert ab[k..] == a[k..] + b;
  }

  /** `a` is one line and `b` starts with a line break (or is empty). */
  lemma LinesConcatWhole(a: string, b: string)
    requires a != [] && !IsLineBreak(a[0]) && LineEnd(a, 0) == |a|
    requires b == [] || IsLineBreak(b[0])
    ensures Lines(a + b) == Lines(a) + Lines(b)
  {
    assert NoLineBreak(a) by { assert a[0..|a|] == a; }
    LinesOfLine(a);
    if b == [] {
      assert a + b == a;
    } else {
      var ab := a + b;
      assert ab[0] == a[0];
      assert NoLineBreak(ab[0..|a|]) by { assert ab[0..|a|] == a; }
      assert IsLineBreak(ab[|a|]);
      LineEndIsFirstBreak(ab, 0, |a|);
      assert ab[..|a|] == a && ab[|a|..] == b;
    }
  }

  lemma {:induction false} LineEndIsFirstBreak(s: string, i: nat, k: nat)
    requires i <= k <= |s|
    requires NoLineBreak(s[i..k])
    requires k == |s| || IsLineBreak(s[k])
    ensures LineEnd(s, i) == k
    decreases |s| - i
  {
    if i < k {
      assert s[i] == s[i..k][0];
      assert s[i + 1..k] == s[i..k][1..];
      LineEndIsFirstBreak(s, i + 1, k);
    }
  }

  /** A single line followed by `NL` splits back into that line alone (or nothing if empty). */
  lemma LinesOfOneLine(l: string)
    requires NoLineBreak(l)
    ensures Lines(l + NL) == if l == [] then [] else [l]
  {
    NLIsLineBreaks();
    LinesConcat(l, NL);
    LinesOfBreaks(NL);
    if l != [] {
      assert NoLineBreak(l[0..|l|]) by { assert l[0..|l|] == l; }
      LineEndIsFirstBreak(l, 0, |l|);
      assert l[|l|..] == [];
    }
  }

  /** Splitting what `AppendLine` built recovers the non-empty lines: the split/append round trip. */
  lemma {:induction false} LinesOfAppendLines(ls: seq<string>)
    requires forall i :: 0 <= i < |ls| ==> NoLineBreak(ls[i])
    ensures Lines(AppendLines(ls)) == NonEmpty(ls)
  {
    if ls != [] {
      var init, last := ls[..|ls| - 1], ls[|ls| - 1];
      NLIsLineBreaks();
      LinesOfAppendLines(init);
      AppendLinesEnd(init);
      assert AppendLines(ls) == AppendLines(init) + (last + NL);
      LinesConcat(AppendLines(init), last + NL);
      LinesOfOneLine(last);
    }
  }

  lemma AppendLinesEnd(ls: seq<string>)
    ensures AppendLines(ls) == [] || IsLineBreak(AppendLines(ls)[|AppendLines(ls)| - 1])
  {
    NLIsLineBreaks();
  }

  /** A non-empty text without line breaks is one line. */
  lemma LinesOfLine(l: string)
    requires l != [] && NoLineBreak(l)
    ensures Lines(l) == [l]
  {
    assert NoLineBreak(l[0..|l|]) by { assert l[0..|l|] == l; }
    LineEndIsFirstBreak(l, 0, |l|);
    assert !IsLineBreak(l[0]);
    assert l[..|l|] == l;
    assert l[|l|..] == [];
  }

  /**
   * What `AppendLine` builds from trimmed one-line texts is line breaks, then the text from the
   * first non-empty line to the end of the last one, then line breaks.
   */
  lemma {:induction false} AppendTrimmedLines(ls: seq<string>) returns (p: string, m: string, q: string)
    requires forall i :: 0 <= i < |ls| ==> IsTrimmed(ls[i]) && NoLineBreak(ls[i])
    ensures AppendLines(ls) == p + m + q
    ensures AllLineBreaks(p) && AllLineBreaks(q) && IsTrimmed(m)
    ensures Lines(m) == NonEmpty(ls)
    ensures ls != [] ==> q != []
    decreases |ls|
  {
    if ls == [] {
      p, m, q := [], [], [];
      LinesOfBreaks([]);
    } else {
      var init, l := ls[..|ls| - 1], ls[|ls| - 1];
      var p0, m0, q0 := AppendTrimmedLines(init);
      assert init == [] ==> m0 == [];
      p, m, q := ExtendPadded(p0, m0, q0, l);
    }
  }

  /** One more trimmed line appended to a padded text keeps it padded. */
  lemma ExtendPadded(p0: string, m0: string, q0: string, l: string) returns (p: string, m: string, q: string)
    requires AllLineBreaks(p0) && AllLineBreaks(q0) && IsTrimmed(m0)
    requires m0 != [] ==> q0 != []
    requires IsTrimmed(l) && NoLineBreak(l)
    ensures p0 + m0 + q0 + l + NL == p + m + q
    ensures AllLineBreaks(p) && AllLineBreaks(q) && IsTrimmed(m) && q != []
    ensures Lines(m) == Lines(m0) + (if l == [] then [] else [l])
  {
    NLIsLineBreaks();
    if l == [] {
      p, m, q := p0, m0, q0 + NL;
      assert p0 + m0 + q0 + l + NL == p + m + q;
    } else if m0 == [] {
      p, m, q := p0 + q0, l, NL;
      assert p0 + m0 + q0 + l + NL == p + m + q;
      LinesOfLine(l);
      LinesOfBreaks([]);
    } else {
      p, m, q := p0, m0 + q0 + l, NL;
      assert p0 + m0 + q0 + l + NL == p + m + q;
      assert m[0] == m0[0] && m[|m| - 1] == l[|l| - 1];
      LinesAcrossBreaks(m0, q0, l);
    }
  }

  /** Line breaks between two texts separate their lines. */
  lemma LinesAcrossBreaks(m0: string, q0: string, l: string)
    requires q0 != [] && AllLineBreaks(q0)
    requires l != [] && NoLineBreak(l)
    ensures Lines(m0 + q0 + l) == Lines(m0) + [l]
  {
    LinesConcat(q0, l);
    LinesOfBreaks(q0);
    LinesOfLine(l);
    assert Lines(q0 + l) == [l];
    assert m0 + q0 + l == m0 + (q0 + l);
    assert (q0 + l)[0] == q0[0];
    LinesConcat(m0, q0 + l);
  }

  /**
   * Splitting the trimmed text that `AppendLine` built from trimmed one-line texts recovers the
   * non-empty ones: the trim only removes line breaks that surround them.
   */
  lemma LinesOfTrimmedAppend(ls: seq<string>)
    requires forall i :: 0 <= i < |ls| ==> IsTrimmed(ls[i]) && NoLineBreak(ls[i])
    ensures Lines(Trim(AppendLines(ls))) == NonEmpty(ls)
  {
    var p, m, q := AppendTrimmedLines(ls);
    BreaksAreWhitespace(p);
    BreaksAreWhitespace(q);
    TrimPadded(p, m, q);
  }

  lemma BreaksAreWhitespace(b: string)
    requires AllLineBreaks(b)
    ensures IsNullOrWhiteSpace(b)
  {
  }

  // ---------------------------------------------------------------------------
  // Split(char) and joining

  /** The end of the part that starts at `i`: the next `sep` or the end of `s`. */
  function PartEnd(s: string, sep: char, i: nat): (k: nat)
    requires i <= |s|
    ensures i <= k <= |s|
    ensures sep !in s[i..k]
    ensures k == |s| || s[k] == sep
    decreases |s| - i
  {
    if i == |s| || s[i] == sep then i else PartEnd(s, sep, i + 1)
  }

  /** `s.Split(sep)`: every part, empty ones included; never zero parts. */
  function SplitOn(s: string, sep: char): (parts: seq<string>)
    ensures |parts| >= 1
    ensures forall i :: 0 <= i < |parts| ==> sep !in parts[i]
    decreases |s|
  {
    var k := PartEnd(s, sep, 0);
    if k == |s| then [s] else [s[..k]] + SplitOn(s[k + 1..], sep)
  }

  /** `string.Join(sep, parts)`. */
  function JoinWith(parts: seq<string>, sep: char): string
  {
    if parts == [] then []
    else if |parts| == 1 then parts[0]
    else parts[0] + [sep] + JoinWith(parts[1..], sep)
  }

  /** Joining the parts of a split gives back the original text. */
  lemma {:induction false} JoinSplit(s: string, sep: char)
    ensures JoinWith(SplitOn(s, sep), sep) == s
    decreases |s|
  {
    var k := PartEnd(s, sep, 0);
    if k < |s| {
      JoinSplit(s[k + 1..], sep);
      JoinSplitStep(s, sep, k);
    }
  }

  /** The text up to the first separator, the separator, and the rest joined back as it was. */
  lemma JoinSplitStep(s: string, sep: char, k: nat)
    requires k == PartEnd(s, sep, 0) < |s|
    requires JoinWith(SplitOn(s[k + 1..], sep), sep) == s[k + 1..]
    ensures JoinWith(SplitOn(s, sep), sep) == s
  {
    var parts, rest := SplitOn(s, sep), SplitOn(s[k + 1..], sep);
    assert parts == [s[..k]] + rest;
    assert parts[1..] == rest;
    assert JoinWith(parts, sep) == s[..k] + [sep] + JoinWith(rest, sep);
    assert s == s[..k] + [sep] + s[k + 1..];
  }

  /** Splitting a join of separator-free parts gives back the parts. */
  lemma {:induction false} SplitJoin(parts: seq<string>, sep: char)
    requires |parts| >= 1
    requires forall i :: 0 <= i < |parts| ==> sep !in parts[i]
    ensures SplitOn(JoinWith(parts, sep), sep) == parts
    decreases |parts|
  {
    if |parts| == 1 {
      var s := JoinWith(parts, sep);
      assert sep !in s[0..|s|] by { assert s[0..|s|] == parts[0]; }
      PartEndIsFirst(s, sep, 0, |s|);
    } else {
      SplitJoin(parts[1..], sep);
      SplitJoinStep(parts, sep);
    }
  }

  /** The first part ends at the first separator; the rest splits as it did on its own. */
  lemma SplitJoinStep(parts: seq<string>, sep: char)
    requires |parts| >= 2 && sep !in parts[0]
    requires SplitOn(JoinWith(parts[1..], sep), sep) == parts[1..]
    ensures SplitOn(JoinWith(parts, sep), sep) == parts
  {
    var s, p0, rest := JoinWith(parts, sep), parts[0], JoinWith(parts[1..], sep);
    assert s == p0 + [sep] + rest;
    assert sep !in s[0..|p0|] by { assert s[0..|p0|] == p0; }
    assert s[|p0|] == sep;
    PartEndIsFirst(s, sep, 0, |p0|);
    assert SplitOn(s, sep) == [s[..|p0|]] + SplitOn(s[|p0| + 1..], sep);
    assert s[..|p0|] == p0;
    assert s[|p0| + 1..] == rest;
    assert parts == [p0] + parts[1..];
  }

  lemma {:induction false} PartEndIsFirst(s: string, sep: char, i: nat, k: nat)
    requires i <= k <= |s|
    requires sep !in s[i..k]
    requires k == |s| || s[k] == sep
    ensures PartEnd(s, sep, i) == k
    decreases |s| - i
  {
    if i < k {
      assert s[i] == s[i..k][0];
      assert s[i + 1..k] == s[i..k][1..];
      PartEndIsFirst(s, sep, i + 1, k);
    }
  }
}
