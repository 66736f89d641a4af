/**
 * The three tag patterns `--[ \t]*@namespace[ \t]+(\S+)\s`, `--[ \t]*@class[ \t]+(\S+)\s` and
 * `--[ \t]*@name[ \t]+(\S+)\s`, and `Regex.Matches`: left-to-right, non-overlapping matching.
 *
 * The pattern has at most one match at a given position: `[ \t]*` is followed by `@`,
 * `[ \t]+` by a non-whitespace character and `\S+` by a whitespace character, so no
 * quantifier can give back a character. `MatchAt` tries the pattern deterministically and
 * `TagAtIsMatch` proves that every way the pattern can match is the one it finds.
 */
module TagRegex {
  import opened Wrappers
  import opened Text

  const NamespaceKeyword: string := "namespace"
  const ClassKeyword: string := "class"
  const NameKeyword: string := "name"

  /** A match: where it starts, how many characters it spans, and the captured group 1. */
  datatype Match = Match(index: nat, length: nat, name: string) {
    function End(): nat {
      index + length
    }
  }

  /** The end of the run of spaces and tabs that starts at `i`. */
  function SkipSpaceTab(s: string, i: nat): (k: nat)
    requires i <= |s|
    ensures i <= k <= |s|
    decreases |s| - i
  {
    if i == |s| || !IsSpaceOrTab(s[i]) then i else SkipSpaceTab(s, i + 1)
  }

  /** `[ \t]*` is greedy: the run it skips is all spaces and tabs and stops at anything else. */
  lemma {:induction false} SkipSpaceTabRun(s: string, i: nat)
    requires i <= |s|
    ensures forall j :: i <= j < SkipSpaceTab(s, i) ==> IsSpaceOrTab(s[j])
    ensures SkipSpaceTab(s, i) == |s| || !IsSpaceOrTab(s[SkipSpaceTab(s, i)])
    decreases |s| - i
  {
    if i < |s| && IsSpaceOrTab(s[i]) {
      SkipSpaceTabRun(s, i + 1);
    }
  }

  /** The end of the run of non-whitespace characters that starts at `i`. */
  function SkipToken(s: string, i: nat): (k: nat)
    requires i <= |s|
    ensures i <= k <= |s|
    decreases |s| - i
  {
    if i == |s| || IsWhitespace(s[i]) then i else SkipToken(s, i + 1)
  }

  /** `\S+` is greedy: the run it takes is all non-whitespace and stops at whitespace. */
  lemma {:induction false} SkipTokenRun(s: string, i: nat)
    requires i <= |s|
    ensures forall j :: i <= j < SkipToken(s, i) ==> !IsWhitespace(s[j])
    ensures SkipToken(s, i) == |s| || IsWhitespace(s[SkipToken(s, i)])
    decreases |s| - i
  {
    if i < |s| && !IsWhitespace(s[i]) {
      SkipTokenRun(s, i + 1);
    }
  }

  /** The pattern for `keyword` tried at position `p`. */
  function MatchAt(s: string, p: nat, keyword: string): (r: Option<Match>)
    ensures r.Some? ==> r.value.index == p && r.value.length > 0 && r.value.End() <= |s|
  {
    if p + 2 > |s| || s[p] != '-' || s[p + 1] != '-' then None
    else
      var a := SkipSpaceTab(s, p + 2);
      var tag := "@" + keyword;
      if !StartsWith(s[a..], tag) then None
      else
        var b := SkipSpaceTab(s, a + |tag|);
        if b == a + |tag| then None
        else
          var t := SkipToken(s, b);
          if t == b || t == |s| then None
          else Some(Match(p, t + 1 - p, s[b..t]))
  }

  /**
   * A match captures a non-empty, whitespace-free name and ends just after the
   * whitespace character that follows it; a tag with nothing after its name is no match.
   */
  lemma MatchAtName(s: string, p: nat, keyword: string)
    requires MatchAt(s, p, keyword).Some?
    ensures var m := MatchAt(s, p, keyword).value;
      && m.name != [] && (forall i :: 0 <= i < |m.name| ==> !IsWhitespace(m.name[i]))
      && IsWhitespace(s[m.End() - 1])
      && s[m.End() - 1 - |m.name|..m.End() - 1] == m.name
  {
    var a := SkipSpaceTab(s, p + 2);
    var b := SkipSpaceTab(s, a + 1 + |keyword|);
    SkipTokenRun(s, b);
  }

  /**
   * The pattern read declaratively: `--` at `p`, spaces or tabs up to `a`, `@keyword` at `a`,
   * at least one space or tab up to `b`, non-whitespace from `b` up to `t`, whitespace at `t`.
   */
  predicate TagAt(s: string, p: nat, keyword: string, a: nat, b: nat, t: nat) {
    && p + 2 <= a && a + 1 + |keyword| < b < t < |s|
    && s[p..p + 2] == "--"
    && (forall j :: p + 2 <= j < a ==> IsSpaceOrTab(s[j]))
    && s[a..a + 1 + |keyword|] == "@" + keyword
    && (forall j :: a + 1 + |keyword| <= j < b ==> IsSpaceOrTab(s[j]))
    && (forall j :: b <= j < t ==> !IsWhitespace(s[j]))
    && IsWhitespace(s[t])
  }

  /** Any way the pattern can match at `p` is the match `MatchAt` returns: the match is unique. */
  lemma TagAtIsMatch(s: string, p: nat, keyword: string, a: nat, b: nat, t: nat)
    requires TagAt(s, p, keyword, a, b, t)
    ensures MatchAt(s, p, keyword) == Some(Match(p, t + 1 - p, s[b..t]))
  {
    assert s[p] == s[p..p + 2][0] && s[p + 1] == s[p..p + 2][1];
    SkipSpaceTabStops(s, p + 2, a);
    assert StartsWith(s[a..], "@" + keyword) by {
      assert s[a..][..1 + |keyword|] == s[a..a + 1 + |keyword|];
    }
    SkipSpaceTabStops(s, a + 1 + |keyword|, b);
    SkipTokenStops(s, b, t);
    MatchAtParts(s, p, keyword, a, b, t);
  }

  /** `MatchAt` succeeds when each of its steps does. */
  lemma MatchAtParts(s: string, p: nat, keyword: string, a: nat, b: nat, t: nat)
    requires p + 2 <= |s| && s[p] == '-' && s[p + 1] == '-'
    requires a == SkipSpaceTab(s, p + 2) && StartsWith(s[a..], "@" + keyword)
    requires b == SkipSpaceTab(s, a + 1 + |keyword|) && b != a + 1 + |keyword|
    requires t == SkipToken(s, b) && t != b && t != |s|
    ensures MatchAt(s, p, keyword) == Some(Match(p, t + 1 - p, s[b..t]))
  {
  }

  /** What `MatchAt` returns is a decomposition of the pattern (and so, by `TagAtIsMatch`, the only one). */
  lemma MatchIsTagAt(s: string, p: nat, keyword: string)
    requires MatchAt(s, p, keyword).Some?
    ensures exists a: nat, b: nat, t: nat :: TagAt(s, p, keyword, a, b, t)
  {
    var a := SkipSpaceTab(s, p + 2);
    var b := SkipSpaceTab(s, a + 1 + |keyword|);
    var t := SkipToken(s, b);
    MatchDecomposes(s, p, keyword, a, b, t);
  }

  lemma MatchDecomposes(s: string, p: nat, keyword: string, a: nat, b: nat, t: nat)
    requires p + 2 <= |s| && s[p] == '-' && s[p + 1] == '-'
    requires a == SkipSpaceTab(s, p + 2) && StartsWith(s[a..], "@" + keyword)
    requires b == SkipSpaceTab(s, a + 1 + |keyword|) && b != a + 1 + |keyword|
    requires t == SkipToken(s, b) && t != b && t != |s|
    ensures TagAt(s, p, keyword, a, b, t)
  {
    var tag := "@" + keyword;
    assert s[p..p + 2] == "--";
    assert s[a..a + |tag|] == tag by {
      assert s[a..a + |tag|] == s[a..][..|tag|];
    }
    SkipSpaceTabRun(s, p + 2);
    SkipSpaceTabRun(s, a + |tag|);
    SkipTokenRun(s, b);
  }

  lemma {:induction false} SkipSpaceTabStops(s: string, i: nat, k: nat)
    requires i <= k <= |s|
    requires forall j :: i <= j < k ==> IsSpaceOrTab(s[j])
    requires k == |s| || !IsSpaceOrTab(s[k])
    ensures SkipSpaceTab(s, i) == k
    decreases k - i
  {
    if i < k {
      SkipSpaceTabStops(s, i + 1, k);
    }
  }

  lemma {:induction false} SkipTokenStops(s: string, i: nat, k: nat)
    requires i <= k <= |s|
    requires forall j :: i <= j < k ==> !IsWhitespace(s[j])
    requires k == |s| || IsWhitespace(s[k])
    ensures SkipToken(s, i) == k
    decreases k - i
  {
    if i < k {
      SkipTokenStops(s, i + 1, k);
    }
  }

  // ---------------------------------------------------------------------------
  // Regex.Matches

  /** Matches that lie inside `s`, each ending no later than the next one starts. */
  predicate Ordered(s: string, ms: seq<Match>) {
    && (forall i :: 0 <= i < |ms| ==> 0 < ms[i].length && ms[i].End() <= |s|)
    && (forall i, j :: 0 <= i < j < |ms| ==> ms[i].End() <= ms[j].index)
  }

  /** The pattern matches nowhere in `[lo, hi)`. */
  predicate NoMatchBetween(s: string, keyword: string, lo: nat, hi: nat) {
    forall p :: lo <= p < hi ==> MatchAt(s, p, keyword).None?
  }

  /** Where the text that belongs to match `i` ends: at the next match, or at the end of `s`. */
  function NextStart(s: string, ms: seq<Match>, i: nat): nat
    requires i < |ms|
  {
    if i + 1 < |ms| then ms[i + 1].index else |s|
  }

  /** The leftmost-first rule: no match is skipped between `from` and the first match, or between two matches. */
  predicate Leftmost(s: string, keyword: string, from: nat, ms: seq<Match>) {
    && NoMatchBetween(s, keyword, from, FirstStart(s, ms))
    && forall i :: 0 <= i < |ms| ==> NoMatchBetween(s, keyword, ms[i].End(), NextStart(s, ms, i))
  }

  /** Where the first of `ms` starts, or the end of `s` when there is none. */
  function FirstStart(s: string, ms: seq<Match>): nat {
    if ms == [] then |s| else ms[0].index
  }

  /** What the pattern finds at each position of `s`. */
  function Candidates(s: string, keyword: string): (found: seq<Option<Match>>)
    ensures |found| == |s| && Anchored(found)
  {
    seq(|s|, p requires 0 <= p < |s| => MatchAt(s, p, keyword))
  }

  /** Each candidate starts at its own position, is not empty and ends inside the text. */
  predicate Anchored(found: seq<Option<Match>>) {
    forall p :: 0 <= p < |found| && found[p].Some? ==>
      found[p].value.index == p && 0 < found[p].value.length && found[p].value.End() <= |found|
  }

  /** The scan of `Regex.Matches` from position `from`: try each position, resume after a match. */
  function ScanFrom(found: seq<Option<Match>>, from: nat): (ms: seq<Match>)
    requires Anchored(found)
    ensures ms != [] ==> from <= ms[0].index < |found|
    decreases |found| - from
  {
    if from >= |found| then []
    else
      match found[from]
      case Some(m) => [m] + ScanFrom(found, m.End())
      case None => ScanFrom(found, from + 1)
  }

  /** `Regex.Matches(s)` for the tag of `keyword`: the scan from the start. */
  function Matches(s: string, keyword: string): seq<Match>
  {
    ScanFrom(Candidates(s, keyword), 0)
  }

  /** Every element of `ms` is the candidate at its own position. */
  predicate Found(found: seq<Option<Match>>, ms: seq<Match>) {
    forall i :: 0 <= i < |ms| ==> ms[i].index < |found| && found[ms[i].index] == Some(ms[i])
  }

  lemma FoundCons(found: seq<Option<Match>>, m: Match, rest: seq<Match>)
    requires m.index < |found| && found[m.index] == Some(m) && Found(found, rest)
    ensures Found(found, [m] + rest)
  {
    var ms := [m] + rest;
    forall i | 0 < i < |ms| ensures ms[i].index < |found| && found[ms[i].index] == Some(ms[i]) {
      assert ms[i] == rest[i - 1];
    }
  }

  /** Every element of a scan is the candidate at its own position. */
  lemma {:induction false} ScanFromFound(found: seq<Option<Match>>, from: nat)
    requires Anchored(found)
    ensures Found(found, ScanFrom(found, from))
    decreases |found| - from
  {
    if from < |found| {
      match found[from]
      case Some(m) =>
        ScanFromFound(found, m.End());
        FoundCons(found, m, ScanFrom(found, m.End()));
      case None =>
        ScanFromFound(found, from + 1);
    }
  }

  lemma OrderedCons(s: string, m: Match, rest: seq<Match>)
    requires 0 < m.length && m.End() <= |s|
    requires Ordered(s, rest) && (rest != [] ==> m.End() <= rest[0].index)
    ensures Ordered(s, [m] + rest)
  {
    var ms := [m] + rest;
    forall i, j | 0 <= i < j < |ms| ensures ms[i].End() <= ms[j].index {
      assert ms[j] == rest[j - 1];
      if i > 0 {
        assert ms[i] == rest[i - 1];
      } else if j > 1 {
        assert rest[0].End() <= rest[j - 1].index;
      }
    }
    forall i | 0 < i < |ms| ensures 0 < ms[i].length && ms[i].End() <= |s| {
      assert ms[i] == rest[i - 1];
    }
  }

  /** The scan finds matches in order and without overlap. */
  lemma {:induction false} ScanFromOrdered(s: string, found: seq<Option<Match>>, from: nat)
    requires Anchored(found) && |found| == |s|
    ensures Ordered(s, ScanFrom(found, from))
    decreases |found| - from
  {
    if from < |found| {
      match found[from]
      case Some(m) =>
        ScanFromOrdered(s, found, m.End());
        OrderedCons(s, m, ScanFrom(found, m.End()));
      case None =>
        ScanFromOrdered(s, found, from + 1);
    }
  }

  /** No candidate between `from` and the scan's first match. */
  lemma {:induction false} ScanFromFirstGap(s: string, found: seq<Option<Match>>, from: nat, p: nat)
    requires Anchored(found) && |found| == |s|
    requires from <= p < FirstStart(s, ScanFrom(found, from))
    ensures found[p].None?
    decreases |found| - from
  {
    if p > from {
      ScanFromFirstGap(s, found, from + 1, p);
    }
  }

  /** The scan resumes after match `i` exactly where it would if started there. */
  lemma {:induction false} ScanFromResumes(found: seq<Option<Match>>, from: nat, i: nat)
    requires Anchored(found) && i < |ScanFrom(found, from)|
    ensures ScanFrom(found, from)[i + 1..] == ScanFrom(found, ScanFrom(found, from)[i].End())
    decreases |found| - from
  {
    match found[from]
    case Some(m) =>
      var rest := ScanFrom(found, m.End());
      ConsAt(m, rest, i);
      if i > 0 {
        ScanFromResumes(found, m.End(), i - 1);
      }
    case None =>
      ScanFromResumes(found, from + 1, i);
  }

  /** Element `i` of `[m] + rest` and what follows it. */
  lemma ConsAt(m: Match, rest: seq<Match>, i: nat)
    requires i <= |rest|
    ensures ([m] + rest)[i] == if i == 0 then m else rest[i - 1]
    ensures ([m] + rest)[i + 1..] == rest[i..]
  {
  }

  /** No candidate between the end of match `i` and the start of the next one (or the end of `s`). */
  lemma ScanFromGapAfter(s: string, found: seq<Option<Match>>, from: nat, i: nat, p: nat)
    requires Anchored(found) && |found| == |s| && i < |ScanFrom(found, from)|
    requires ScanFrom(found, from)[i].End() <= p < NextStart(s, ScanFrom(found, from), i) && p < |s|
    ensures found[p].None?
  {
    var ms := ScanFrom(found, from);
    ScanFromResumes(found, from, i);
    assert NextStart(s, ms, i) == FirstStart(s, ms[i + 1..]);
    ScanFromFirstGap(s, found, ms[i].End(), p);
  }

  /** A position without a candidate is one where the pattern does not match. */
  lemma NoCandidate(s: string, keyword: string, p: nat)
    requires p >= |s| || Candidates(s, keyword)[p].None?
    ensures MatchAt(s, p, keyword).None?
  {
  }

  /** The matches lie inside `s`, in order and without overlap. */
  lemma MatchesOrdered(s: string, keyword: string)
    ensures Ordered(s, Matches(s, keyword))
  {
    ScanFromOrdered(s, Candidates(s, keyword), 0);
  }

  /**
   * What `Regex.Matches` returns: every element is the pattern's match at its own position,
   * and no match is skipped, so the matches are the leftmost-first ones.
   */
  lemma MatchesAreLeftmost(s: string, keyword: string)
    ensures var ms := Matches(s, keyword);
      && Ordered(s, ms)
      && (forall i :: 0 <= i < |ms| ==> MatchAt(s, ms[i].index, keyword) == Some(ms[i]))
      && Leftmost(s, keyword, 0, ms)
  {
    var found, ms := Candidates(s, keyword), Matches(s, keyword);
    MatchesOrdered(s, keyword);
    ScanFromFound(found, 0);
    forall p | 0 <= p < FirstStart(s, ms) ensures MatchAt(s, p, keyword).None? {
      ScanFromFirstGap(s, found, 0, p);
      NoCandidate(s, keyword, p);
    }
    forall i, p | 0 <= i < |ms| && ms[i].End() <= p < NextStart(s, ms, i) ensures MatchAt(s, p, keyword).None? {
      if p < |s| {
        ScanFromGapAfter(s, found, 0, i, p);
      }
      NoCandidate(s, keyword, p);
    }
  }

  // ---------------------------------------------------------------------------
  // Spans

  /**
   * The text that belongs to match `i`: from its end to the next match's start or the end
   * of `s` (the `Substring(start, end - start)` of each parsing level).
   */
  function Span(s: string, ms: seq<Match>, i: nat): (span: string)
    requires Ordered(s, ms) && i < |ms|
    ensures ms[i].End() <= NextStart(s, ms, i) <= |s|
    ensures |span| == NextStart(s, ms, i) - ms[i].End()
  {
    s[ms[i].End()..NextStart(s, ms, i)]
  }

  /** Each match's tag text followed by its span, from match `i` on. */
  function Reassemble(s: string, ms: seq<Match>, i: nat): string
    requires Ordered(s, ms) && i <= |ms|
    decreases |ms| - i
  {
    if i == |ms| then [] else s[ms[i].index..ms[i].End()] + Span(s, ms, i) + Reassemble(s, ms, i + 1)
  }

  /**
   * Tags and spans tile the text from the first tag to the end: every character there lies in
   * exactly one tag or one span, in order, and only the text before the first tag is dropped.
   */
  lemma {:induction false} SpansTile(s: string, ms: seq<Match>, i: nat)
    requires Ordered(s, ms) && i < |ms|
    ensures Reassemble(s, ms, i) == s[ms[i].index..]
    decreases |ms| - i
  {
    var m, n := ms[i], NextStart(s, ms, i);
    var tail := if i + 1 < |ms| then Reassemble(s, ms, i + 1) else [];
    if i + 1 < |ms| {
      SpansTile(s, ms, i + 1);
    }
    assert tail == s[n..];
    calc {
      Reassemble(s, ms, i);
      s[m.index..m.End()] + s[m.End()..n] + tail;
      { SliceSplit(s, m.index, m.End(), n); }
      s[m.index..n] + s[n..];
      { assert s[m.index..] == s[m.index..n] + s[n..]; }
      s[m.index..];
    }
  }

  lemma SliceSplit(s: string, a: nat, b: nat, c: nat)
    requires a <= b <= c <= |s|
    ensures s[a..c] == s[a..b] + s[b..c]
  {
  }

  /** Spans of different matches do not overlap: span `i` ends before span `j` starts. */
  lemma SpansDisjoint(s: string, ms: seq<Match>, i: nat, j: nat)
    requires Ordered(s, ms) && i < j < |ms|
    ensures NextStart(s, ms, i) < ms[j].End()
    decreases j - i
  {
    if j > i + 1 {
      SpansDisjoint(s, ms, i + 1, j);
    }
  }
}
