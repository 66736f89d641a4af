/**
 * Generating C# from the parsed records. Each (namespace, class) record whose names pass the
 * validator becomes one source named `<namespace>.<class>.g.cs`: a file-scoped namespace, a
 * static partial class, and one documented `const string` per query whose name passes, its
 * SQL text in a verbatim literal. A name that does not pass is reported as a warning instead.
 */
module SqlEmitter {
  import opened Wrappers
  import opened Text
  import opened CaseDict
  import opened Paths
  import opened SqlModel
  import opened NameValidator
  import opened DiagnosticDescriptors
  import opened SqlParser

  /** What the generator hands to its host, in order: a diagnostic, or a source under its hint name. */
  datatype Output = Report(diagnostic: Diagnostic) | AddSource(hintName: string, text: string)

  // ---------------------------------------------------------------------------
  // The verbatim literal

  const Quote: char := '"'

  /** `Replace("\"", "\"\"")`: each double quote doubled, every other character kept. */
  function Escape(s: string): string
    decreases |s|
  {
    if s == [] then []
    else (if s[0] == Quote then [Quote, Quote] else [s[0]]) + Escape(s[1..])
  }

  /**
   * Reading the body of a verbatim literal `@"…"` back, up to its closing quote: `""` stands
   * for one `"`, and a lone `"` would close the literal early, so a body holding one is not
   * read (`None`).
   */
  function Unescape(t: string): Option<string>
    decreases |t|
  {
    if t == [] then Some([])
    else if t[0] != Quote then
      match Unescape(t[1..])
      case None => None
      case Some(u) => Some([t[0]] + u)
    else if |t| >= 2 && t[1] == Quote then
      match Unescape(t[2..])
      case None => None
      case Some(u) => Some([Quote] + u)
    else None
  }

  /** The escaped text is a complete literal body, and it reads back as the text. */
  lemma {:induction false} UnescapeEscape(s: string)
    ensures Unescape(Escape(s)) == Some(s)
    decreases |s|
  {
    if s != [] {
      UnescapeEscape(s[1..]);
      var rest := Escape(s[1..]);
      if s[0] == Quote {
        assert Escape(s)[2..] == rest;
      } else {
        assert Escape(s)[1..] == rest;
      }
      assert [s[0]] + s[1..] == s;
    }
  }

  /** Every literal body that reads back is the escape of what it reads as: nothing else is changed. */
  lemma {:induction false} EscapeUnescape(t: string)
    requires Unescape(t).Some?
    ensures Escape(Unescape(t).value) == t
    decreases |t|
  {
    if t != [] {
      var u := Unescape(t).value;
      if t[0] != Quote {
        EscapeUnescape(t[1..]);
        assert u[0] == t[0] && u[1..] == Unescape(t[1..]).value;
        assert t == [t[0]] + t[1..];
      } else {
        EscapeUnescape(t[2..]);
        assert u[0] == Quote && u[1..] == Unescape(t[2..]).value;
        assert t == [Quote, Quote] + t[2..];
      }
    }
  }

  // ---------------------------------------------------------------------------
  // The layout of a source

  const SummaryOpen: string := "    /// <summary>"
  const SummaryClose: string := "    /// </summary>"
  const DocPrefix: string := "    /// "

  /** Each line as a doc-comment line. */
  function Documented(lines: seq<string>): (docs: seq<string>)
    ensures |docs| == |lines|
    ensures forall i :: 0 <= i < |lines| ==> docs[i] == DocPrefix + lines[i]
  {
    if lines == [] then [] else Documented(lines[..|lines| - 1]) + [DocPrefix + lines[|lines| - 1]]
  }

  /** The doc line written when a query has no summary: it names the `.sql` file the query came from. */
  function FallbackDoc(filePath: string): string {
    DocPrefix + "Query from " + GetFileNameWithoutExtension(filePath) + ".sql"
  }

  /**
   * The lines between the summary tags: one per non-empty line of the summary, or the
   * fallback when the summary is whitespace only.
   */
  function DocLines(filePath: string, summary: string): seq<string> {
    if !IsNullOrWhiteSpace(summary) then Documented(Lines(summary)) else [FallbackDoc(filePath)]
  }

  /** The declaration of a query: its name and its escaped text, in a verbatim literal. */
  function ConstLine(queryName: string, safeSql: string): string {
    "    internal const string " + queryName + " = @\"" + safeSql + "\";"
  }

  /** The lines of one query: its doc comment, its declaration and a blank line. */
  function QueryLines(filePath: string, queryName: string, meta: SqlQueryMetadata): seq<string> {
    [SummaryOpen] + DocLines(filePath, meta.summary) + [SummaryClose, ConstLine(queryName, Escape(meta.content)), ""]
  }

  /** The lines a query contributes: none when its name is not an identifier. */
  function QueryText(filePath: string, queryName: string, meta: SqlQueryMetadata): seq<string> {
    if IsInvalidCSharpName(queryName) then [] else QueryLines(filePath, queryName, meta)
  }

  /** The lines of the queries whose names are identifiers, in dictionary order. */
  function QueriesLines(filePath: string, queries: Dict<SqlQueryMetadata>): seq<string> {
    if queries == [] then []
    else
      var q := queries[|queries| - 1];
      QueriesLines(filePath, queries[..|queries| - 1]) + QueryText(filePath, q.key, q.value)
  }

  function HeaderLines(namespaceName: string, className: string): seq<string> {
    ["namespace " + namespaceName + ";", "", "internal static partial class " + className, "{"]
  }

  /** The text of the source generated for one class. */
  function ClassSource(filePath: string, namespaceName: string, className: string, queries: Dict<SqlQueryMetadata>): string {
    AppendLines(HeaderLines(namespaceName, className) + QueriesLines(filePath, queries) + ["}"])
  }

  function HintName(namespaceName: string, className: string): string {
    namespaceName + "." + className + ".g.cs"
  }

  // ---------------------------------------------------------------------------
  // Gating

  /** The report a query yields: HC0005 naming the class (not the query) when its name is not an identifier. */
  function QueryReport(filePath: string, className: string, queryName: string): seq<Output> {
    if IsInvalidCSharpName(queryName) then [Report(ReportProblem(InvalidQueryName, [className, GetFileName(filePath)]))] else []
  }

  /** One HC0005 per query whose name is not an identifier, in dictionary order. */
  function QueryReports(filePath: string, className: string, queries: Dict<SqlQueryMetadata>): seq<Output> {
    if queries == [] then []
    else QueryReports(filePath, className, queries[..|queries| - 1]) + QueryReport(filePath, className, queries[|queries| - 1].key)
  }

  /**
   * What one record yields: HC0003 alone for an invalid namespace; otherwise HC0004 alone for
   * an invalid class name; otherwise the HC0005 reports of its queries and then its source.
   */
  function ClassOutputs(filePath: string, c: SqlClassMetadata): seq<Output> {
    var fileName := GetFileName(filePath);
    if IsInvalidNamespace(c.targetNamespace) then
      [Report(ReportProblem(InvalidNamespace, [c.targetNamespace, fileName]))]
    else if IsInvalidCSharpName(c.targetClass) then
      [Report(ReportProblem(InvalidClassName, [c.targetClass, fileName]))]
    else
      QueryReports(filePath, c.targetClass, c.queries) + [SourceOf(filePath, c)]
  }

  /** The source a record yields when its names pass. */
  function SourceOf(filePath: string, c: SqlClassMetadata): Output {
    AddSource(HintName(c.targetNamespace, c.targetClass), ClassSource(filePath, c.targetNamespace, c.targetClass, c.queries))
  }

  /** What the records of one file yield, record by record. */
  function Generated(filePath: string, classes: seq<SqlClassMetadata>): seq<Output> {
    if classes == [] then []
    else Generated(filePath, classes[..|classes| - 1]) + ClassOutputs(filePath, classes[|classes| - 1])
  }

  // ---------------------------------------------------------------------------
  // GenerateClasses

  /** One `AppendLine(line)` on a builder that holds `code` followed by the lines `written`. */
  lemma AppendedLine(code: string, result: string, written: seq<string>, line: string)
    requires result == code + AppendLines(written)
    ensures result + line + NL == code + AppendLines(written + [line])
  {
    AppendLinesSnoc(written, line);
  }

  /** The loop over the summary's lines: one doc line each. */
  method AppendDocumented(code: string, lines: seq<string>) returns (result: string)
    ensures result == code + AppendLines(Documented(lines))
  {
    result := code;
    ghost var written: seq<string> := [];
    var k := 0;
    while k < |lines|
      invariant k <= |lines|
      invariant written == Documented(lines[..k])
      invariant result == code + AppendLines(written)
    {
      assert lines[..k + 1][..k] == lines[..k];
      AppendedLine(code, result, written, DocPrefix + lines[k]);
      result, written := result + DocPrefix + lines[k] + NL, written + [DocPrefix + lines[k]];
      k := k + 1;
    }
    assert lines[..k] == lines;
  }

  /** The summary lines of one query, or the fallback line naming the file. */
  method AppendSummary(code: string, filePath: string, summary: string) returns (result: string)
    ensures result == code + AppendLines(DocLines(filePath, summary))
  {
    if !IsNullOrWhiteSpace(summary) {
      assert DocLines(filePath, summary) == Documented(Lines(summary));
      result := AppendDocumented(code, Lines(summary));
    } else {
      assert DocLines(filePath, summary) == [] + [FallbackDoc(filePath)];
      AppendedLine(code, code, [], FallbackDoc(filePath));
      result := code + FallbackDoc(filePath) + NL;
    }
  }

  /** `AppendLine()` with no text on a builder that holds `code` followed by the lines `written`. */
  lemma AppendedBlankLine(code: string, result: string, written: seq<string>)
    requires result == code + AppendLines(written)
    ensures result + NL == code + AppendLines(written + [""])
  {
    AppendLinesSnoc(written, "");
    assert AppendLines(written) + "" == AppendLines(written);
  }

  /** The lines of a query, one append at a time. */
  lemma QueryLinesInOrder(filePath: string, queryName: string, meta: SqlQueryMetadata)
    ensures QueryLines(filePath, queryName, meta)
              == [SummaryOpen] + DocLines(filePath, meta.summary) + [SummaryClose] + [ConstLine(queryName, Escape(meta.content))] + [""]
  {
  }

  /** Appending one query's lines to the class text: the body of the query loop for a valid name. */
  method AppendQuery(code: string, filePath: string, queryName: string, queryMeta: SqlQueryMetadata)
    returns (result: string)
    ensures result == code + AppendLines(QueryLines(filePath, queryName, queryMeta))
  {
    var safeSql := Escape(queryMeta.content);
    AppendedLine(code, code, [], SummaryOpen);
    result := code + SummaryOpen + NL;
    ghost var docs := DocLines(filePath, queryMeta.summary);
    result := AppendSummary(result, filePath, queryMeta.summary);
    AppendLinesConcat([SummaryOpen], docs);
    ConcatAssoc(code, AppendLines([SummaryOpen]), AppendLines(docs));
    ghost var written: seq<string> := [SummaryOpen] + docs;
    AppendedLine(code, result, written, SummaryClose);
    result, written := result + SummaryClose + NL, written + [SummaryClose];
    var declaration := ConstLine(queryName, safeSql);
    AppendedLine(code, result, written, declaration);
    result, written := result + declaration + NL, written + [declaration];
    AppendedBlankLine(code, result, written);
    result, written := result + NL, written + [""];
    QueryLinesInOrder(filePath, queryName, queryMeta);
  }

  lemma GeneratedSnoc(filePath: string, classes: seq<SqlClassMetadata>, i: nat)
    requires i < |classes|
    ensures Generated(filePath, classes[..i + 1]) == Generated(filePath, classes[..i]) + ClassOutputs(filePath, classes[i])
  {
    assert classes[..i + 1][..i] == classes[..i];
  }

  lemma QueriesSnoc(filePath: string, className: string, queries: Dict<SqlQueryMetadata>, j: nat)
    requires j < |queries|
    ensures QueryReports(filePath, className, queries[..j + 1])
              == QueryReports(filePath, className, queries[..j]) + QueryReport(filePath, className, queries[j].key)
    ensures QueriesLines(filePath, queries[..j + 1])
              == QueriesLines(filePath, queries[..j]) + QueryText(filePath, queries[j].key, queries[j].value)
  {
    assert queries[..j + 1][..j] == queries[..j];
  }

  /** The body of the query loop: an invalid name is reported and skipped, a valid one appended. */
  method EmitQuery(outputs: seq<Output>, code: string, filePath: string, className: string,
                   queryName: string, queryMeta: SqlQueryMetadata)
    returns (result: seq<Output>, text: string)
    ensures result == outputs + QueryReport(filePath, className, queryName)
    ensures text == code + AppendLines(QueryText(filePath, queryName, queryMeta))
  {
    if IsInvalidCSharpName(queryName) {
      result, text := outputs + [Report(ReportProblem(InvalidQueryName, [className, GetFileName(filePath)]))], code;
      assert code + AppendLines([]) == code;
    } else {
      result := outputs;
      text := AppendQuery(code, filePath, queryName, queryMeta);
    }
  }

  /** The four lines that open a class source. */
  method StartClass(namespaceName: string, className: string) returns (code: string)
    ensures code == AppendLines(HeaderLines(namespaceName, className))
  {
    var header := HeaderLines(namespaceName, className);
    code := "";
    ghost var written: seq<string> := [];
    AppendedLine("", code, written, header[0]);
    code, written := code + "namespace " + namespaceName + ";" + NL, written + [header[0]];
    AppendedLine("", code, written, header[1]);
    code, written := code + NL, written + [header[1]];
    AppendedLine("", code, written, header[2]);
    code, written := code + "internal static partial class " + className + NL, written + [header[2]];
    AppendedLine("", code, written, header[3]);
    code, written := code + "{" + NL, written + [header[3]];
    assert written == header;
  }

  /** The loop over a class's queries, in dictionary order. */
  method EmitQueries(outputs: seq<Output>, code: string, filePath: string, className: string,
                     dictionary: Dict<SqlQueryMetadata>) returns (result: seq<Output>, text: string)
    ensures result == outputs + QueryReports(filePath, className, dictionary)
    ensures text == code + AppendLines(QueriesLines(filePath, dictionary))
  {
    result, text := outputs, code;
    var j := 0;
    while j < |dictionary|
      invariant j <= |dictionary|
      invariant result == outputs + QueryReports(filePath, className, dictionary[..j])
      invariant text == code + AppendLines(QueriesLines(filePath, dictionary[..j]))
    {
      QueriesSnoc(filePath, className, dictionary, j);
      var queryName, queryMeta := dictionary[j].key, dictionary[j].value;
      AppendLinesConcat(QueriesLines(filePath, dictionary[..j]), QueryText(filePath, queryName, queryMeta));
      ConcatAssoc(outputs, QueryReports(filePath, className, dictionary[..j]), QueryReport(filePath, className, queryName));
      ConcatAssoc(code, AppendLines(QueriesLines(filePath, dictionary[..j])), AppendLines(QueryText(filePath, queryName, queryMeta)));
      result, text := EmitQuery(result, text, filePath, className, queryName, queryMeta);
      j := j + 1;
    }
    assert dictionary[..j] == dictionary;
  }

  /**
   * The source for a record whose names are valid: the header, the queries with valid names
   * and the closing brace, under the hint name `<namespace>.<class>.g.cs`; each query with an
   * invalid name is reported first, with the class name.
   */
  method EmitClass(outputs: seq<Output>, filePath: string, namespaceName: string, className: string,
                   dictionary: Dict<SqlQueryMetadata>) returns (result: seq<Output>)
    ensures result == outputs + QueryReports(filePath, className, dictionary)
                      + [AddSource(HintName(namespaceName, className), ClassSource(filePath, namespaceName, className, dictionary))]
  {
    ghost var header := HeaderLines(namespaceName, className);
    var code := StartClass(namespaceName, className);
    result, code := EmitQueries(outputs, code, filePath, className, dictionary);
    AppendLinesConcat(header, QueriesLines(filePath, dictionary));
    AppendLinesSnoc(header + QueriesLines(filePath, dictionary), "}");
    code := code + "}" + NL;
    result := result + [AddSource(namespaceName + "." + className + ".g.cs", code)];
  }

  /** The body of the record loop: an invalid namespace or class name is reported and the record skipped. */
  method EmitRecord(outputs: seq<Output>, filePath: string, record: SqlClassMetadata) returns (result: seq<Output>)
    ensures result == outputs + ClassOutputs(filePath, record)
  {
    var namespaceName, className, dictionary := record.targetNamespace, record.targetClass, record.queries;
    if IsInvalidNamespace(namespaceName) {
      result := outputs + [Report(ReportProblem(InvalidNamespace, [namespaceName, GetFileName(filePath)]))];
    } else if IsInvalidCSharpName(className) {
      result := outputs + [Report(ReportProblem(InvalidClassName, [className, GetFileName(filePath)]))];
    } else {
      result := EmitClass(outputs, filePath, namespaceName, className, dictionary);
      ConcatAssoc(outputs, QueryReports(filePath, className, dictionary),
                  [AddSource(HintName(namespaceName, className), ClassSource(filePath, namespaceName, className, dictionary))]);
    }
  }

  /**
   * `GenerateClasses`: each record is checked in turn; a record whose namespace or class name
   * is invalid is reported and skipped, any other becomes one source.
   */
  method GenerateClasses(metadata: SqlFileMetadata) returns (outputs: seq<Output>)
    ensures outputs == Generated(metadata.originalFilePath, metadata.classes)
  {
    var filePath := metadata.originalFilePath;
    var classes := metadata.classes;
    outputs := [];
    var i := 0;
    while i < |classes|
      invariant i <= |classes|
      invariant outputs == Generated(filePath, classes[..i])
    {
      GeneratedSnoc(filePath, classes, i);
      outputs := EmitRecord(outputs, filePath, classes[i]);
      i := i + 1;
    }
    assert classes[..i] == classes;
  }

  // ---------------------------------------------------------------------------
  // What a record yields

  /** The names of the queries that are not identifiers, in dictionary order. */
  function InvalidQueryNames(queries: Dict<SqlQueryMetadata>): (names: seq<string>)
    ensures |names| <= |queries|
  {
    if queries == [] then []
    else
      var q := queries[|queries| - 1];
      InvalidQueryNames(queries[..|queries| - 1]) + if IsInvalidCSharpName(q.key) then [q.key] else []
  }

  /**
   * A namespace that is not valid yields one HC0003 (namespace, file name) and nothing else;
   * otherwise a class name that is not valid yields one HC0004 (class, file name) and nothing
   * else; otherwise the record yields its query reports followed by exactly one source, named
   * `<namespace>.<class>.g.cs`.
   */
  lemma ClassGating(filePath: string, c: SqlClassMetadata)
    ensures IsInvalidNamespace(c.targetNamespace) ==>
              ClassOutputs(filePath, c) == [Report(Diagnostic(InvalidNamespace, [c.targetNamespace, GetFileName(filePath)]))]
    ensures !IsInvalidNamespace(c.targetNamespace) && IsInvalidCSharpName(c.targetClass) ==>
              ClassOutputs(filePath, c) == [Report(Diagnostic(InvalidClassName, [c.targetClass, GetFileName(filePath)]))]
    ensures !IsInvalidNamespace(c.targetNamespace) && !IsInvalidCSharpName(c.targetClass) ==>
              var outputs := ClassOutputs(filePath, c);
              && |outputs| == |InvalidQueryNames(c.queries)| + 1
              && outputs[|outputs| - 1] == AddSource(c.targetNamespace + "." + c.targetClass + ".g.cs",
                                                     ClassSource(filePath, c.targetNamespace, c.targetClass, c.queries))
              && forall k :: 0 <= k < |outputs| - 1 ==>
                   outputs[k] == Report(Diagnostic(InvalidQueryName, [c.targetClass, GetFileName(filePath)]))
  {
    QueryReportsCount(filePath, c.targetClass, c.queries);
  }

  /** One HC0005 per query whose name is not an identifier, each carrying the class name and the file name. */
  lemma {:induction false} QueryReportsCount(filePath: string, className: string, queries: Dict<SqlQueryMetadata>)
    ensures |QueryReports(filePath, className, queries)| == |InvalidQueryNames(queries)|
    ensures forall k :: 0 <= k < |QueryReports(filePath, className, queries)| ==>
              QueryReports(filePath, className, queries)[k] == Report(Diagnostic(InvalidQueryName, [className, GetFileName(filePath)]))
    decreases |queries|
  {
    if queries != [] {
      QueryReportsCount(filePath, className, queries[..|queries| - 1]);
    }
  }

  /** The declaration of `queries[j]` is among the lines of `queries`. */
  predicate Declared(filePath: string, queries: Dict<SqlQueryMetadata>, j: nat)
    requires j < |queries|
  {
    ConstLine(queries[j].key, Escape(queries[j].value.content)) in QueriesLines(filePath, queries)
  }

  /** A query whose name is an identifier is declared in the class, with its text escaped. */
  lemma {:induction false} ValidQueriesDeclared(filePath: string, queries: Dict<SqlQueryMetadata>)
    ensures forall j :: 0 <= j < |queries| && !IsInvalidCSharpName(queries[j].key) ==> Declared(filePath, queries, j)
    decreases |queries|
  {
    if queries != [] {
      var init, q := queries[..|queries| - 1], queries[|queries| - 1];
      ValidQueriesDeclared(filePath, init);
      forall j | 0 <= j < |queries| && !IsInvalidCSharpName(queries[j].key)
        ensures Declared(filePath, queries, j)
      {
        if j < |init| {
          assert Declared(filePath, init, j);
          DeclaredKept(filePath, queries, j);
        } else {
          LastDeclared(filePath, queries);
        }
      }
    }
  }

  lemma DeclaredKept(filePath: string, queries: Dict<SqlQueryMetadata>, j: nat)
    requires j < |queries| - 1 && Declared(filePath, queries[..|queries| - 1], j)
    ensures Declared(filePath, queries, j)
  {
    var init, q := queries[..|queries| - 1], queries[|queries| - 1];
    assert queries[j] == init[j];
    assert QueriesLines(filePath, queries) == QueriesLines(filePath, init) + QueryText(filePath, q.key, q.value);
  }

  lemma LastDeclared(filePath: string, queries: Dict<SqlQueryMetadata>)
    requires queries != [] && !IsInvalidCSharpName(queries[|queries| - 1].key)
    ensures Declared(filePath, queries, |queries| - 1)
  {
    var init, q := queries[..|queries| - 1], queries[|queries| - 1];
    var docs := DocLines(filePath, q.value.summary);
    assert QueriesLines(filePath, queries) == QueriesLines(filePath, init) + QueryText(filePath, q.key, q.value);
    assert QueryText(filePath, q.key, q.value)[|docs| + 2] == ConstLine(q.key, Escape(q.value.content));
  }

  /** A class none of whose query names is an identifier declares nothing. */
  lemma {:induction false} NoValidQueryNoLines(filePath: string, queries: Dict<SqlQueryMetadata>)
    requires |InvalidQueryNames(queries)| == |queries|
    ensures QueriesLines(filePath, queries) == []
    decreases |queries|
  {
    if queries != [] {
      var init := queries[..|queries| - 1];
      assert |InvalidQueryNames(init)| <= |init|;
      NoValidQueryNoLines(filePath, init);
    }
  }

  /** A record with valid names whose queries all have invalid names still yields a source: the empty class. */
  lemma EmptyClassStillEmitted(filePath: string, c: SqlClassMetadata)
    requires !IsInvalidNamespace(c.targetNamespace) && !IsInvalidCSharpName(c.targetClass)
    requires |InvalidQueryNames(c.queries)| == |c.queries|
    ensures ClassOutputs(filePath, c)
              == QueryReports(filePath, c.targetClass, c.queries)
                 + [AddSource(HintName(c.targetNamespace, c.targetClass),
                              AppendLines(HeaderLines(c.targetNamespace, c.targetClass) + ["}"]))]
  {
    NoValidQueryNoLines(filePath, c.queries);
    var header := HeaderLines(c.targetNamespace, c.targetClass);
    assert header + QueriesLines(filePath, c.queries) == header;
  }

  /**
   * The doc comment of a parsed query: one line for each leading comment line with text, or,
   * when there is none, the fallback naming the file.
   */
  lemma ParsedSummaryDocs(filePath: string, block: string)
    ensures var lines := Lines(block);
      var texts := NonEmpty(CommentTexts(lines)[..SummaryLength(lines)]);
      DocLines(filePath, QueryOf(block).summary) == if texts == [] then [FallbackDoc(filePath)] else Documented(texts)
  {
    SummaryLines(block);
    QueryOfTrimmed(block);
    TrimmedDocLines(filePath, QueryOf(block).summary);
  }

  /** A trimmed summary is whitespace only exactly when it has no lines. */
  lemma TrimmedDocLines(filePath: string, summary: string)
    requires IsTrimmed(summary)
    ensures DocLines(filePath, summary) == if Lines(summary) == [] then [FallbackDoc(filePath)] else Documented(Lines(summary))
  {
    if summary != [] {
      assert !IsWhitespace(summary[0]);
      assert Lines(summary) != [];
    }
  }

  /**
   * The layout the generator's test expects for one class with one query whose summary is a
   * single line: the header (namespace line, blank line, class line, opening brace), the
   * summary between its tags, the declaration with the escaped text, a blank line and the
   * closing brace.
   */
  lemma OneQueryLayout(filePath: string, namespaceName: string, className: string, queryName: string, meta: SqlQueryMetadata)
    requires !IsInvalidCSharpName(queryName)
    requires !IsNullOrWhiteSpace(meta.summary) && NoLineBreak(meta.summary)
    ensures ClassSource(filePath, namespaceName, className, [Entry(queryName, meta)])
              == AppendLines(HeaderLines(namespaceName, className)
                             + [SummaryOpen, DocPrefix + meta.summary, SummaryClose,
                                ConstLine(queryName, Escape(meta.content)), "", "}"])
  {
    SingleQueryLines(filePath, queryName, meta);
    var body := [SummaryOpen, DocPrefix + meta.summary, SummaryClose, ConstLine(queryName, Escape(meta.content)), ""];
    assert body + ["}"] == [SummaryOpen, DocPrefix + meta.summary, SummaryClose, ConstLine(queryName, Escape(meta.content)), "", "}"];
    ConcatAssoc(HeaderLines(namespaceName, className), body, ["}"]);
  }

  lemma SingleQueryLines(filePath: string, queryName: string, meta: SqlQueryMetadata)
    requires !IsInvalidCSharpName(queryName)
    requires !IsNullOrWhiteSpace(meta.summary) && NoLineBreak(meta.summary)
    ensures QueriesLines(filePath, [Entry(queryName, meta)])
              == [SummaryOpen, DocPrefix + meta.summary, SummaryClose, ConstLine(queryName, Escape(meta.content)), ""]
  {
    LinesOfLine(meta.summary);
    var docs := [DocPrefix + meta.summary];
    assert Documented([meta.summary]) == docs;
    assert DocLines(filePath, meta.summary) == docs;
    var queries := [Entry(queryName, meta)];
    assert queries[..0] == [];
    assert QueriesLines(filePath, queries) == QueryLines(filePath, queryName, meta);
  }

  /** No reserved-word check: a class named `class` is not reported, and its source is generated. */
  lemma ClassNamedClassGenerated(filePath: string, c: SqlClassMetadata)
    requires !IsInvalidNamespace(c.targetNamespace) && c.targetClass == "class"
    ensures ClassOutputs(filePath, c)
              == QueryReports(filePath, "class", c.queries)
                 + [AddSource(HintName(c.targetNamespace, "class"), ClassSource(filePath, c.targetNamespace, "class", c.queries))]
  {
    ReservedWordsAccepted();
  }

  // ---------------------------------------------------------------------------
  // The sources of a file

  /** Both names of a record pass the validator. */
  predicate ValidNames(c: SqlClassMetadata) {
    !IsInvalidNamespace(c.targetNamespace) && !IsInvalidCSharpName(c.targetClass)
  }

  /** The sources among some outputs, in order. */
  function Sources(outputs: seq<Output>): (sources: seq<Output>)
    ensures forall k :: 0 <= k < |sources| ==> sources[k].AddSource?
    decreases |outputs|
  {
    if outputs == [] then []
    else (if outputs[0].AddSource? then [outputs[0]] else []) + Sources(outputs[1..])
  }

  /** One source per record whose names pass, in record order. */
  function ValidSources(filePath: string, classes: seq<SqlClassMetadata>): (sources: seq<Output>)
    ensures forall k :: 0 <= k < |sources| ==> sources[k].AddSource?
  {
    if classes == [] then []
    else
      var c := classes[|classes| - 1];
      ValidSources(filePath, classes[..|classes| - 1]) + if ValidNames(c) then [SourceOf(filePath, c)] else []
  }

  /** No two sources share a hint name, ignoring case. */
  predicate HintsDistinct(sources: seq<Output>) {
    forall p, q :: 0 <= p < q < |sources| && sources[p].AddSource? && sources[q].AddSource? ==>
      Fold(sources[p].hintName) != Fold(sources[q].hintName)
  }

  lemma {:induction false} SourcesConcat(a: seq<Output>, b: seq<Output>)
    ensures Sources(a + b) == Sources(a) + Sources(b)
    decreases |a|
  {
    if a == [] {
      assert a + b == b;
    } else {
      var head: seq<Output> := if a[0].AddSource? then [a[0]] else [];
      assert (a + b)[0] == a[0];
      assert (a + b)[1..] == a[1..] + b;
      assert Sources(a + b) == head + Sources(a[1..] + b);
      SourcesConcat(a[1..], b);
      assert Sources(a) == head + Sources(a[1..]);
      ConcatAssoc(head, Sources(a[1..]), Sources(b));
    }
  }

  lemma {:induction false} ReportsAreNotSources(outputs: seq<Output>)
    requires forall k :: 0 <= k < |outputs| ==> outputs[k].Report?
    ensures Sources(outputs) == []
    decreases |outputs|
  {
    if outputs != [] {
      ReportsAreNotSources(outputs[1..]);
    }
  }

  /** A record yields its source when both its names pass, and no source otherwise. */
  lemma ClassSources(filePath: string, c: SqlClassMetadata)
    ensures Sources(ClassOutputs(filePath, c)) == if ValidNames(c) then [SourceOf(filePath, c)] else []
  {
    if ValidNames(c) {
      ValidClassSources(filePath, c, ClassOutputs(filePath, c));
    } else {
      ReportsAreNotSources(ClassOutputs(filePath, c));
    }
  }

  lemma ValidClassSources(filePath: string, c: SqlClassMetadata, outputs: seq<Output>)
    requires outputs == QueryReports(filePath, c.targetClass, c.queries) + [SourceOf(filePath, c)]
    ensures Sources(outputs) == [SourceOf(filePath, c)]
  {
    var reports := QueryReports(filePath, c.targetClass, c.queries);
    var source := SourceOf(filePath, c);
    QueryReportsCount(filePath, c.targetClass, c.queries);
    ReportsAreNotSources(reports);
    SourcesConcat(reports, [source]);
    assert [source][1..] == [];
  }

  /** The sources a file yields are exactly one per record whose names pass, in record order. */
  lemma {:induction false} GeneratedSources(filePath: string, classes: seq<SqlClassMetadata>)
    ensures Sources(Generated(filePath, classes)) == ValidSources(filePath, classes)
    decreases |classes|
  {
    if classes != [] {
      var init, c := classes[..|classes| - 1], classes[|classes| - 1];
      GeneratedSources(filePath, init);
      SourcesConcat(Generated(filePath, init), ClassOutputs(filePath, c));
      ClassSources(filePath, c);
    }
  }

  /**
   * Hint names tell their records apart: a class name holds no dot, so the last dot before
   * `.g.cs` separates the namespace from the class, and case folding keeps dots where they are.
   */
  lemma HintNameInjective(ns1: string, cls1: string, ns2: string, cls2: string)
    requires IsIdentifier(cls1) && IsIdentifier(cls2)
    requires Fold(HintName(ns1, cls1)) == Fold(HintName(ns2, cls2))
    ensures Fold(ns1) == Fold(ns2) && Fold(cls1) == Fold(cls2)
  {
    var s1 := FoldedHint(ns1, cls1);
    var s2 := FoldedHint(ns2, cls2);
    assert s1 == s2 by {
      assert s1 == Fold(HintName(ns1, cls1))[..|s1|];
      assert s2 == Fold(HintName(ns2, cls2))[..|s2|];
    }
    LastDot(ns1, cls1);
    LastDot(ns2, cls2);
    assert |ns1| == |ns2|;
    assert Fold(ns1) == s1[..|ns1|];
    assert Fold(ns2) == s2[..|ns2|];
    assert Fold(cls1) == s1[|ns1| + 1..];
    assert Fold(cls2) == s2[|ns2| + 1..];
  }

  /** The folded hint name is the folded namespace, a dot, the folded class and the folded suffix. */
  function FoldedHint(namespaceName: string, className: string): (s: string)
    ensures Fold(HintName(namespaceName, className)) == s + Fold(".g.cs")
    ensures s == Fold(namespaceName) + [NamespaceSeparator] + Fold(className)
  {
    FoldConcat(namespaceName + "." + className, ".g.cs");
    FoldConcat(namespaceName + ".", className);
    FoldConcat(namespaceName, ".");
    assert Fold(".") == [NamespaceSeparator];
    Fold(namespaceName) + [NamespaceSeparator] + Fold(className)
  }

  /** In a folded hint name, the dot after the namespace is the last one: an identifier folds to no dot. */
  lemma LastDot(namespaceName: string, className: string)
    requires IsIdentifier(className)
    ensures var s := Fold(namespaceName) + [NamespaceSeparator] + Fold(className);
      && s[|namespaceName|] == NamespaceSeparator
      && forall j :: |namespaceName| < j < |s| ==> s[j] != NamespaceSeparator
  {
    forall i | 0 <= i < |className| ensures Fold(className)[i] != NamespaceSeparator {
      IdentifierIsSafe(className, i);
    }
  }

  /** Every source yielded comes from a record whose names pass. */
  lemma {:induction false} ValidSourcesFrom(filePath: string, classes: seq<SqlClassMetadata>)
    ensures forall p :: 0 <= p < |ValidSources(filePath, classes)| ==> SourceFrom(filePath, classes, p)
    decreases |classes|
  {
    if classes != [] {
      var init, c := classes[..|classes| - 1], classes[|classes| - 1];
      var before := ValidSources(filePath, init);
      var after := ValidSources(filePath, classes);
      assert after == before + if ValidNames(c) then [SourceOf(filePath, c)] else [];
      ValidSourcesFrom(filePath, init);
      forall p | 0 <= p < |after| ensures SourceFrom(filePath, classes, p) {
        if p < |before| {
          assert SourceFrom(filePath, init, p);
          var a :| 0 <= a < |init| && ValidNames(init[a]) && before[p] == SourceOf(filePath, init[a]);
          assert init[a] == classes[a] && after[p] == before[p];
        } else {
          assert after[p] == SourceOf(filePath, classes[|classes| - 1]);
        }
      }
    }
  }

  /** The `p`-th source is that of some record whose names pass. */
  predicate SourceFrom(filePath: string, classes: seq<SqlClassMetadata>, p: nat)
    requires p < |ValidSources(filePath, classes)|
  {
    exists a :: 0 <= a < |classes| && ValidNames(classes[a]) && ValidSources(filePath, classes)[p] == SourceOf(filePath, classes[a])
  }

  /**
   * When no two records name the same (namespace, class) pair ignoring case, no two of the
   * sources share a hint name ignoring case: the host never sees a duplicate hint name.
   */
  lemma {:induction false} ValidSourcesDistinct(filePath: string, classes: seq<SqlClassMetadata>)
    requires DistinctPairs(classes)
    ensures HintsDistinct(ValidSources(filePath, classes))
    decreases |classes|
  {
    if classes != [] {
      var init, c := classes[..|classes| - 1], classes[|classes| - 1];
      assert DistinctPairs(init) by {
        forall a, b | 0 <= a < b < |init| ensures init[a] == classes[a] && init[b] == classes[b] { }
      }
      ValidSourcesDistinct(filePath, init);
      if ValidNames(c) {
        NewHintDistinct(filePath, classes);
      }
    }
  }

  /** The source of the last record, when it has one, differs in hint name from every earlier source. */
  lemma NewHintDistinct(filePath: string, classes: seq<SqlClassMetadata>)
    requires classes != [] && DistinctPairs(classes) && ValidNames(classes[|classes| - 1])
    requires HintsDistinct(ValidSources(filePath, classes[..|classes| - 1]))
    ensures HintsDistinct(ValidSources(filePath, classes))
  {
    var init, c := classes[..|classes| - 1], classes[|classes| - 1];
    var before := ValidSources(filePath, init);
    var after := ValidSources(filePath, classes);
    assert after == before + [SourceOf(filePath, c)];
    forall p, q | 0 <= p < q < |after| && after[p].AddSource? && after[q].AddSource?
      ensures Fold(after[p].hintName) != Fold(after[q].hintName)
    {
      if q < |before| {
        assert after[p] == before[p] && after[q] == before[q];
      } else {
        assert after[p] == before[p] && after[q] == SourceOf(filePath, c);
        PriorHintDiffers(filePath, classes, p);
      }
    }
  }

  lemma PriorHintDiffers(filePath: string, classes: seq<SqlClassMetadata>, p: nat)
    requires classes != [] && DistinctPairs(classes) && ValidNames(classes[|classes| - 1])
    requires p < |ValidSources(filePath, classes[..|classes| - 1])|
    ensures Fold(ValidSources(filePath, classes[..|classes| - 1])[p].hintName)
            != Fold(SourceOf(filePath, classes[|classes| - 1]).hintName)
  {
    var init := classes[..|classes| - 1];
    ValidSourcesFrom(filePath, init);
    assert SourceFrom(filePath, init, p);
    var a :| 0 <= a < |init| && ValidNames(init[a]) && ValidSources(filePath, init)[p] == SourceOf(filePath, init[a]);
    assert init[a] == classes[a];
    DistinctHints(classes[a], classes[|classes| - 1]);
  }

  /** Records that differ in namespace or class ignoring case, and whose names pass, differ in hint name ignoring case. */
  lemma DistinctHints(x: SqlClassMetadata, y: SqlClassMetadata)
    requires ValidNames(x) && ValidNames(y)
    requires Fold(x.targetNamespace) != Fold(y.targetNamespace) || Fold(x.targetClass) != Fold(y.targetClass)
    ensures Fold(HintName(x.targetNamespace, x.targetClass)) != Fold(HintName(y.targetNamespace, y.targetClass))
  {
    if Fold(HintName(x.targetNamespace, x.targetClass)) == Fold(HintName(y.targetNamespace, y.targetClass)) {
      HintNameInjective(x.targetNamespace, x.targetClass, y.targetNamespace, y.targetClass);
      assert false;
    }
  }

  /**
   * The sources generated for a parsed file have distinct hint names ignoring case: the
   * parser's dictionaries already merge names that differ only in case.
   */
  lemma FileHintsDistinct(filePath: string, rawContent: string)
    requires FileMetadataOf(filePath, rawContent).Some?
    ensures var meta := FileMetadataOf(filePath, rawContent).value;
      HintsDistinct(Sources(Generated(meta.originalFilePath, meta.classes)))
  {
    var meta := FileMetadataOf(filePath, rawContent).value;
    FileMetadataWellFormed(filePath, rawContent);
    GeneratedSources(meta.originalFilePath, meta.classes);
    ValidSourcesDistinct(meta.originalFilePath, meta.classes);
  }
}
