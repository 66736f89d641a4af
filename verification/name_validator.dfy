/**
 * The checks that keep tag names from injecting code into the generated source: a query or
 * class name must be an identifier, a namespace must be identifiers separated by dots.
 * No list of reserved words is consulted.
 */
module NameValidator {
  import opened Text

  const Underscore: char := '_'
  const NamespaceSeparator: char := '.'

  predicate IsIdentifierStart(c: char) {
    IsLetter(c) || c == Underscore
  }

  predicate IsIdentifierPart(c: char) {
    IsLetterOrDigit(c) || c == Underscore
  }

  /** The identifier grammar the validator accepts: a start character, then part characters. */
  predicate IsIdentifier(s: string) {
    |s| > 0 && IsIdentifierStart(s[0]) && forall i :: 1 <= i < |s| ==> IsIdentifierPart(s[i])
  }

  /** The namespace grammar: one or more identifiers joined by dots. */
  ghost predicate IsNamespace(s: string) {
    exists parts: seq<string> ::
      |parts| >= 1 && (forall i :: 0 <= i < |parts| ==> IsIdentifier(parts[i])) && s == JoinWith(parts, NamespaceSeparator)
  }

  /**
   * `IsInvalidCSharpName`: whitespace-only (or empty) text, a first character that is neither a
   * letter nor `_`, or a later one that is neither a letter, a digit nor `_`. The whitespace
   * guard comes first, so the first character is never read from an empty name.
   */
  function IsInvalidCSharpName(identifier: string): (invalid: bool)
    ensures invalid <==> !IsIdentifier(identifier)
  {
    if IsNullOrWhiteSpace(identifier) then true
    else if !IsLetter(identifier[0]) && identifier[0] != Underscore then true
    else exists i :: 1 <= i < |identifier| && !IsLetterOrDigit(identifier[i]) && identifier[i] != Underscore
  }

  /** `IsInvalidNamespace`: whitespace-only text, or some `.`-separated part is not an identifier. */
  function IsInvalidNamespace(namespaceName: string): (invalid: bool)
    ensures invalid <==> !IsNamespace(namespaceName)
  {
    NamespaceGrammar(namespaceName);
    if IsNullOrWhiteSpace(namespaceName) then true
    else
      var parts := SplitOn(namespaceName, NamespaceSeparator);
      exists i :: 0 <= i < |parts| && IsInvalidCSharpName(parts[i])
  }

  /** The checks of `IsInvalidNamespace` accept exactly the namespace grammar. */
  lemma NamespaceGrammar(s: string)
    ensures IsNamespace(s) <==> PartsValid(s)
  {
    var parts := SplitOn(s, NamespaceSeparator);
    if PartsValid(s) {
      JoinSplit(s, NamespaceSeparator);
      assert IsNamespace(s);
    }
    if IsNamespace(s) {
      var ps: seq<string> :|
        |ps| >= 1 && (forall i :: 0 <= i < |ps| ==> IsIdentifier(ps[i])) && s == JoinWith(ps, NamespaceSeparator);
      forall i | 0 <= i < |ps| ensures NamespaceSeparator !in ps[i] {
        if NamespaceSeparator in ps[i] {
          var j :| 0 <= j < |ps[i]| && ps[i][j] == NamespaceSeparator;
          IdentifierIsSafe(ps[i], j);
        }
      }
      SplitJoin(ps, NamespaceSeparator);
      JoinWithStart(ps, NamespaceSeparator);
      assert !IsWhitespace(s[0]);
    }
  }

  /** What `IsInvalidNamespace` accepts: not whitespace-only, and every `.`-separated part an identifier. */
  predicate PartsValid(s: string) {
    && !IsNullOrWhiteSpace(s)
    && forall i :: 0 <= i < |SplitOn(s, NamespaceSeparator)| ==> IsIdentifier(SplitOn(s, NamespaceSeparator)[i])
  }

  /** Joining starts with the first part's first character. */
  lemma JoinWithStart(parts: seq<string>, sep: char)
    requires |parts| >= 1 && |parts[0]| > 0
    ensures |JoinWith(parts, sep)| > 0 && JoinWith(parts, sep)[0] == parts[0][0]
  {
  }

  /** Any non-empty list of identifiers joined by dots is a valid namespace. */
  lemma JoinedIdentifiersValid(parts: seq<string>)
    requires |parts| >= 1
    requires forall i :: 0 <= i < |parts| ==> IsIdentifier(parts[i])
    ensures !IsInvalidNamespace(JoinWith(parts, NamespaceSeparator))
  {
  }

  /** A valid namespace is the dot-join of its parts, each an identifier. */
  lemma ValidNamespaceParts(s: string)
    requires !IsInvalidNamespace(s)
    ensures var parts := SplitOn(s, NamespaceSeparator);
      && JoinWith(parts, NamespaceSeparator) == s
      && forall i :: 0 <= i < |parts| ==> IsIdentifier(parts[i])
  {
    NamespaceGrammar(s);
    JoinSplit(s, NamespaceSeparator);
  }

  /**
   * An identifier holds none of the characters that could end a declaration or a string or
   * open a block: no dot, whitespace, double quote, semicolon or brace.
   */
  lemma IdentifierIsSafe(s: string, i: nat)
    requires IsIdentifier(s) && i < |s|
    ensures SafeChar(s[i]) && s[i] != NamespaceSeparator
  {
  }

  predicate SafeChar(c: char) {
    !IsWhitespace(c) && c != '"' && c != ';' && c != '{' && c != '}'
  }

  /** A valid namespace holds none of those characters either (dots are its separators). */
  lemma {:induction false} NamespaceIsSafe(s: string, i: nat)
    requires !IsInvalidNamespace(s) && i < |s|
    ensures SafeChar(s[i])
  {
    ValidNamespaceParts(s);
    JoinedSafe(SplitOn(s, NamespaceSeparator), i);
  }

  lemma {:induction false} JoinedSafe(parts: seq<string>, i: nat)
    requires forall k :: 0 <= k < |parts| ==> IsIdentifier(parts[k])
    requires i < |JoinWith(parts, NamespaceSeparator)|
    ensures SafeChar(JoinWith(parts, NamespaceSeparator)[i])
    decreases |parts|
  {
    if |parts| == 1 {
      IdentifierIsSafe(parts[0], i);
    } else {
      var rest := JoinWith(parts[1..], NamespaceSeparator);
      assert JoinWith(parts, NamespaceSeparator) == parts[0] + [NamespaceSeparator] + rest;
      if i < |parts[0]| {
        IdentifierIsSafe(parts[0], i);
      } else if i > |parts[0]| {
        JoinedSafe(parts[1..], i - |parts[0]| - 1);
      }
    }
  }

  /** A leading dot, a trailing dot or two dots in a row make a namespace invalid: an empty part. */
  lemma {:induction false} MisplacedDotInvalid(s: string, i: nat)
    requires i < |s| && s[i] == NamespaceSeparator
    requires i == 0 || i == |s| - 1 || (i + 1 < |s| && s[i + 1] == NamespaceSeparator)
    ensures IsInvalidNamespace(s)
  {
    if !IsInvalidNamespace(s) {
      ValidNamespaceParts(s);
      JoinedDots(SplitOn(s, NamespaceSeparator), i);
      assert false;
    }
  }

  /** In a dot-join of identifiers, every dot sits between two non-dot characters. */
  lemma {:induction false} JoinedDots(parts: seq<string>, i: nat)
    requires forall k :: 0 <= k < |parts| ==> IsIdentifier(parts[k])
    requires i < |JoinWith(parts, NamespaceSeparator)| && JoinWith(parts, NamespaceSeparator)[i] == NamespaceSeparator
    ensures 0 < i < |JoinWith(parts, NamespaceSeparator)| - 1
    ensures JoinWith(parts, NamespaceSeparator)[i - 1] != NamespaceSeparator
    ensures JoinWith(parts, NamespaceSeparator)[i + 1] != NamespaceSeparator
    decreases |parts|
  {
    var s := JoinWith(parts, NamespaceSeparator);
    if |parts| == 1 {
      IdentifierIsSafe(parts[0], i);
    } else {
      var rest := JoinWith(parts[1..], NamespaceSeparator);
      assert s == parts[0] + [NamespaceSeparator] + rest;
      if i < |parts[0]| {
        IdentifierIsSafe(parts[0], i);
      } else if i == |parts[0]| {
        IdentifierIsSafe(parts[0], i - 1);
        JoinWithStart(parts[1..], NamespaceSeparator);
        IdentifierIsSafe(parts[1], 0);
      } else {
        JoinedDots(parts[1..], i - |parts[0]| - 1);
      }
    }
  }

  /** Words the C# language reserves are accepted: only the character classes are checked. */
  lemma ReservedWordsAccepted()
    ensures !IsInvalidCSharpName("class") && !IsInvalidCSharpName("int")
  {
  }

  /** The namespace of the generator's own test file is valid. */
  lemma TestNamespaceValid(ns: string)
    requires ns == "Hardcoded" + "." + "NET" + "." + "Test"
    ensures !IsInvalidNamespace(ns)
  {
    var parts := ["Hardcoded", "NET", "Test"];
    IdentifierChars(parts[0]);
    IdentifierChars(parts[1]);
    IdentifierChars(parts[2]);
    JoinedIdentifiersValid(parts);
    JoinThree(parts[0], parts[1], parts[2], NamespaceSeparator);
    assert parts == [parts[0], parts[1], parts[2]];
    assert parts[0] + [NamespaceSeparator] + parts[1] + [NamespaceSeparator] + parts[2] == ns;
  }

  /** A word made of letters only is an identifier. */
  lemma IdentifierChars(w: string)
    requires |w| > 0 && forall i :: 0 <= i < |w| ==> IsLetter(w[i])
    ensures IsIdentifier(w)
  {
  }

  lemma JoinThree(a: string, b: string, c: string, sep: char)
    ensures JoinWith([a, b, c], sep) == a + [sep] + b + [sep] + c
  {
    assert [a, b, c][1..] == [b, c];
    assert [b, c][1..] == [c];
    assert JoinWith([b, c], sep) == b + [sep] + c;
  }

  /** Two dots in a row: `A..B` is not a namespace. */
  lemma DoubleDotInvalid()
    ensures IsInvalidNamespace("A..B")
  {
    MisplacedDotInvalid("A..B", 1);
  }
}
