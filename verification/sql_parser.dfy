/**
 * Parsing a `.sql` file. After the activation marker, the text is cut at `@namespace` tags,
 * each namespace span at `@class` tags and each class span at `@name` tags. Every query block
 * is split into its leading comment lines (the summary) and the rest (the query). The results
 * go into nested dictionaries keyed ignoring case, which are then flattened into one record per
 * (namespace, class) pair.
 *
 * The dictionaries the source passes by reference and fills in place are passed here by value:
 * each method returns the filled dictionary and its caller stores it back under its key.
 */
module SqlParser {
  import opened Wrappers
  import opened Text
  import opened CaseDict
  import opened TagRegex
  import opened TagLevels
  import opened SqlModel

  /** The activation marker, trailing space included. */
  const HardcodedTag: string := "-- @hardcoded "

  const CommentPrefix: string := "--"

  // ---------------------------------------------------------------------------
  // Query blocks

  /** A line whose trimmed text starts with `--`. */
  predicate IsCommentLine(line: string) {
    StartsWith(Trim(line), CommentPrefix)
  }

  /** What the summary keeps of a comment line: the text after `--`, trimmed. */
  function CommentText(line: string): string
  {
    var trimmedLine := Trim(line);
    if |trimmedLine| < |CommentPrefix| then [] else Trim(trimmedLine[|CommentPrefix|..])
  }

  /** The number of comment lines before the first other line: those make the summary. */
  function SummaryLength(lines: seq<string>): (k: nat)
    ensures k <= |lines|
    ensures k == |lines| || !IsCommentLine(lines[k])
  {
    FirstNonComment(lines, 0)
  }

  function FirstNonComment(lines: seq<string>, from: nat): (k: nat)
    requires from <= |lines|
    ensures from <= k <= |lines|
    ensures k == |lines| || !IsCommentLine(lines[k])
    decreases |lines| - from
  {
    if from == |lines| || !IsCommentLine(lines[from]) then from else FirstNonComment(lines, from + 1)
  }

  /** Every line before the first non-comment line is a comment line. */
  lemma {:induction false} FirstNonCommentRun(lines: seq<string>, from: nat, i: nat)
    requires from <= |lines| && from <= i < FirstNonComment(lines, from)
    ensures IsCommentLine(lines[i])
    decreases |lines| - from
  {
    if i > from {
      FirstNonCommentRun(lines, from + 1, i);
    }
  }

  lemma SummaryLengthRun(lines: seq<string>, i: nat)
    requires i < SummaryLength(lines)
    ensures IsCommentLine(lines[i])
  {
    FirstNonCommentRun(lines, 0, i);
  }

  /**
   * The summary text of each line, in order. Each line of a split block is break-free, so the
   * text kept of every comment line is a single trimmed line.
   */
  function CommentTexts(lines: seq<string>): (texts: seq<string>)
    ensures |texts| == |lines|
    ensures forall i :: 0 <= i < |lines| ==> texts[i] == CommentText(lines[i])
    ensures forall i :: 0 <= i < |lines| && IsCommentLine(lines[i]) && NoLineBreak(lines[i]) ==>
              IsTrimmed(texts[i]) && NoLineBreak(texts[i])
  {
    assert forall i :: 0 <= i < |lines| && IsCommentLine(lines[i]) && NoLineBreak(lines[i]) ==>
             IsTrimmed(CommentText(lines[i])) && NoLineBreak(CommentText(lines[i])) by {
      forall i | 0 <= i < |lines| && IsCommentLine(lines[i]) && NoLineBreak(lines[i]) {
        CommentTextOneLine(lines[i]);
      }
    }
    seq(|lines|, i requires 0 <= i < |lines| => CommentText(lines[i]))
  }

  /**
   * A query block, declaratively: its non-empty lines are cut before the first line that is not
   * a comment. The comment texts before the cut, one per line and trimmed, make the summary;
   * the lines from the cut on, verbatim, make the query. Both are trimmed.
   */
  function QueryOf(block: string): SqlQueryMetadata
  {
    var lines := Lines(block);
    var k := SummaryLength(lines);
    SqlQueryMetadata(Trim(AppendLines(lines[k..])), Trim(AppendLines(CommentTexts(lines)[..k])))
  }

  /** Whether each line is a comment line. */
  function CommentFlags(lines: seq<string>): (comment: seq<bool>)
    ensures |comment| == |lines|
  {
    seq(|lines|, i requires 0 <= i < |lines| => IsCommentLine(lines[i]))
  }

  /**
   * What the query builder holds after the loop has seen the first `i` lines, where `comment`
   * says which lines are comment lines: a line is appended unless it is a comment line met while
   * the query builder is still empty.
   */
  function QueryBuilder(lines: seq<string>, comment: seq<bool>, i: nat): string
    requires i <= |lines| == |comment|
  {
    if i == 0 then []
    else
      var query := QueryBuilder(lines, comment, i - 1);
      if comment[i - 1] && |query| == 0 then query else query + lines[i - 1] + NL
  }

  /** What the summary builder holds after the first `i` lines: the other lines' comment texts. */
  function SummaryBuilder(lines: seq<string>, comment: seq<bool>, texts: seq<string>, i: nat): string
    requires i <= |lines| == |comment| == |texts|
  {
    if i == 0 then []
    else
      var summary := SummaryBuilder(lines, comment, texts, i - 1);
      if comment[i - 1] && |QueryBuilder(lines, comment, i - 1)| == 0 then summary + texts[i - 1] + NL
      else summary
  }

  /**
   * The body of the `foreach` over a query block's lines, on the source's own tests: it moves
   * both builders on by line `i`.
   */
  method AppendBlockLine(ghost lines: seq<string>, ghost i: nat, line: string, summaryBuilder: string, queryBuilder: string)
    returns (summary: string, query: string)
    requires i < |lines| && line == lines[i]
    requires summaryBuilder == SummaryBuilder(lines, CommentFlags(lines), CommentTexts(lines), i)
    requires queryBuilder == QueryBuilder(lines, CommentFlags(lines), i)
    ensures summary == SummaryBuilder(lines, CommentFlags(lines), CommentTexts(lines), i + 1)
    ensures query == QueryBuilder(lines, CommentFlags(lines), i + 1)
  {
    summary, query := summaryBuilder, queryBuilder;
    var trimmedLine := Trim(line);
    if StartsWith(trimmedLine, CommentPrefix) {
      if |queryBuilder| == 0 {
        summary := summary + Trim(trimmedLine[2..]) + NL;
      } else {
        query := query + line + NL;
      }
    } else {
      query := query + line + NL;
    }
  }

  /** A comment line met while the query builder is empty adds its text to the summary. */
  lemma CommentLineStep(lines: seq<string>, comment: seq<bool>, texts: seq<string>, i: nat)
    requires i < |lines| == |comment| == |texts|
    requires comment[i] && QueryBuilder(lines, comment, i) == []
    ensures SummaryBuilder(lines, comment, texts, i + 1) == SummaryBuilder(lines, comment, texts, i) + texts[i] + NL
    ensures QueryBuilder(lines, comment, i + 1) == []
  {
  }

  /** Any other line is appended to the query and leaves the summary as it is. */
  lemma QueryLineStep(lines: seq<string>, comment: seq<bool>, texts: seq<string>, i: nat)
    requires i < |lines| == |comment| == |texts|
    requires !(comment[i] && QueryBuilder(lines, comment, i) == [])
    ensures SummaryBuilder(lines, comment, texts, i + 1) == SummaryBuilder(lines, comment, texts, i)
    ensures QueryBuilder(lines, comment, i + 1) == QueryBuilder(lines, comment, i) + lines[i] + NL
  {
  }

  /** Within the leading comment lines the query builder stays empty and the summary collects their texts. */
  lemma {:induction false} SummaryPhase(lines: seq<string>, comment: seq<bool>, texts: seq<string>, i: nat)
    requires i <= |lines| == |comment| == |texts|
    requires forall j :: 0 <= j < i ==> comment[j]
    ensures SummaryBuilder(lines, comment, texts, i) == AppendLines(texts[..i])
    ensures QueryBuilder(lines, comment, i) == []
  {
    if i > 0 {
      SummaryPhase(lines, comment, texts, i - 1);
      CommentLineStep(lines, comment, texts, i - 1);
      AppendLinesPrefix(texts, i);
    }
  }

  /**
   * From the first line that is not a comment on, the summary is complete and the query takes
   * every line verbatim: an empty query builder is the mode flag.
   */
  lemma {:induction false} QueryPhase(lines: seq<string>, comment: seq<bool>, texts: seq<string>, k: nat, i: nat)
    requires k < i <= |lines| == |comment| == |texts|
    requires !comment[k] && QueryBuilder(lines, comment, k) == []
    ensures SummaryBuilder(lines, comment, texts, i) == SummaryBuilder(lines, comment, texts, k)
    ensures QueryBuilder(lines, comment, i) == AppendLines(lines[k..i])
  {
    if i == k + 1 {
      QueryLineStep(lines, comment, texts, k);
      AppendLinesSlice(lines, k, i);
      assert lines[k..k] == [];
    } else {
      QueryPhase(lines, comment, texts, k, i - 1);
      NextQueryLine(lines, comment, texts, k, i);
    }
  }

  /** Once the query has started, every line is appended to it, whatever it holds. */
  lemma NextQueryLine(lines: seq<string>, comment: seq<bool>, texts: seq<string>, k: nat, i: nat)
    requires k + 1 < i <= |lines| == |comment| == |texts|
    requires QueryBuilder(lines, comment, i - 1) == AppendLines(lines[k..i - 1])
    ensures SummaryBuilder(lines, comment, texts, i) == SummaryBuilder(lines, comment, texts, i - 1)
    ensures QueryBuilder(lines, comment, i) == AppendLines(lines[k..i])
  {
    AppendLinesSlice(lines, k, i - 1);
    QueryLineStep(lines, comment, texts, i - 1);
    AppendLinesSlice(lines, k, i);
  }

  /** After the last line the builders hold what `QueryOf` trims. */
  lemma BuildersDone(block: string, summaryBuilder: string, queryBuilder: string)
    requires var lines := Lines(block);
      summaryBuilder == SummaryBuilder(lines, CommentFlags(lines), CommentTexts(lines), |lines|)
    requires var lines := Lines(block);
      queryBuilder == QueryBuilder(lines, CommentFlags(lines), |lines|)
    ensures SqlQueryMetadata(Trim(queryBuilder), Trim(summaryBuilder)) == QueryOf(block)
  {
    var lines := Lines(block);
    var comment, texts := CommentFlags(lines), CommentTexts(lines);
    var k := SummaryLength(lines);
    forall j | 0 <= j < k
      ensures comment[j]
    {
      SummaryLengthRun(lines, j);
    }
    SummaryPhase(lines, comment, texts, k);
    if k == |lines| {
      assert lines[k..] == [];
    } else {
      QueryPhase(lines, comment, texts, k, |lines|);
      SliceToEnd(lines, k);
    }
  }

  /** The loop over a query block's lines. */
  method SplitQueryBlock(rawQueryBlock: string) returns (meta: SqlQueryMetadata)
    ensures meta == QueryOf(rawQueryBlock)
  {
    var lines := Lines(rawQueryBlock);
    var summaryBuilder: string := [];
    var queryBuilder: string := [];
    var i := 0;
    while i < |lines|
      invariant i <= |lines|
      invariant summaryBuilder == SummaryBuilder(lines, CommentFlags(lines), CommentTexts(lines), i)
      invariant queryBuilder == QueryBuilder(lines, CommentFlags(lines), i)
    {
      summaryBuilder, queryBuilder := AppendBlockLine(lines, i, lines[i], summaryBuilder, queryBuilder);
      i := i + 1;
    }
    BuildersDone(rawQueryBlock, summaryBuilder, queryBuilder);
    meta := SqlQueryMetadata(Trim(queryBuilder), Trim(summaryBuilder));
  }

  /**
   * The summary splits back into the non-empty comment texts: each becomes one line of the
   * generated doc comment, and empty comments leave no line.
   */
  lemma SummaryLines(block: string)
    ensures var lines := Lines(block);
      var k := SummaryLength(lines);
      Lines(QueryOf(block).summary) == NonEmpty(CommentTexts(lines)[..k])
  {
    var lines := Lines(block);
    var k := SummaryLength(lines);
    var texts := CommentTexts(lines)[..k];
    forall i | 0 <= i < |texts| ensures IsTrimmed(texts[i]) && NoLineBreak(texts[i]) {
      SummaryLengthRun(lines, i);
    }
    LinesOfTrimmedAppend(texts);
  }

  /** The text kept of a break-free comment line is trimmed and break-free. */
  lemma CommentTextOneLine(line: string)
    requires IsCommentLine(line) && NoLineBreak(line)
    ensures IsTrimmed(CommentText(line)) && NoLineBreak(CommentText(line))
  {
    TrimNoLineBreak(line);
    TrimNoLineBreak(Trim(line)[|CommentPrefix|..]);
    TrimIsTrimmed(Trim(line)[|CommentPrefix|..]);
  }

  // ---------------------------------------------------------------------------
  // The three levels

  /** A query tag overwrites its entry: the previous value is not consulted. */
  function QueryStep(body: string, previous: SqlQueryMetadata): SqlQueryMetadata {
    QueryOf(body)
  }

  /** The starting value of a query entry, which `QueryStep` never reads. */
  const NoQuery: SqlQueryMetadata := SqlQueryMetadata([], [])

  /*
   * Each level is written out as its own fold over the segments, the shape its method's loop
   * follows; each is the generic `Absorb` of its step, so the lemmas about `Absorb` apply.
   */

  /** The query level: each segment stores the query of its body under its name. */
  function QueryFold(d: Dict<SqlQueryMetadata>, segs: seq<Segment>): Dict<SqlQueryMetadata> {
    if segs == [] then d
    else
      var s := segs[|segs| - 1];
      Put(QueryFold(d, segs[..|segs| - 1]), s.name, QueryOf(s.body))
  }

  /** The class level: each segment parses its body into the queries of the class it names. */
  function ClassFold(d: Dict<Dict<SqlQueryMetadata>>, segs: seq<Segment>): Dict<Dict<SqlQueryMetadata>> {
    if segs == [] then d
    else
      var prev := ClassFold(d, segs[..|segs| - 1]);
      var s := segs[|segs| - 1];
      Put(prev, s.name, QueriesIn(s.body, Get(prev, s.name).GetOr([])))
  }

  /** The namespace level: each segment parses its body into the classes of the namespace it names. */
  function NamespaceFold(d: Dict<Dict<Dict<SqlQueryMetadata>>>, segs: seq<Segment>): Dict<Dict<Dict<SqlQueryMetadata>>> {
    if segs == [] then d
    else
      var prev := NamespaceFold(d, segs[..|segs| - 1]);
      var s := segs[|segs| - 1];
      Put(prev, s.name, ClassesIn(s.body, Get(prev, s.name).GetOr([])))
  }

  /** What `ParseQueries` leaves in `queries` after a class span. */
  function QueriesIn(classContent: string, queries: Dict<SqlQueryMetadata>): Dict<SqlQueryMetadata> {
    QueryFold(queries, Segments(classContent, NameKeyword))
  }

  /** What `ParseClasses` leaves in `classes` after a namespace span. */
  function ClassesIn(namespaceContent: string, classes: Dict<Dict<SqlQueryMetadata>>): Dict<Dict<SqlQueryMetadata>> {
    ClassFold(classes, Segments(namespaceContent, ClassKeyword))
  }

  /** What `ParseNamespaces` returns for the content after the marker. */
  function NamespacesIn(content: string): Dict<Dict<Dict<SqlQueryMetadata>>> {
    NamespaceFold([], Segments(content, NamespaceKeyword))
  }

  lemma {:induction false} QueryFoldIsAbsorb(d: Dict<SqlQueryMetadata>, segs: seq<Segment>)
    ensures QueryFold(d, segs) == Absorb(d, segs, QueryStep, NoQuery)
    decreases |segs|
  {
    if segs != [] {
      QueryFoldIsAbsorb(d, segs[..|segs| - 1]);
    }
  }

  lemma {:induction false} ClassFoldIsAbsorb(d: Dict<Dict<SqlQueryMetadata>>, segs: seq<Segment>)
    ensures ClassFold(d, segs) == Absorb(d, segs, QueriesIn, [])
    decreases |segs|
  {
    if segs != [] {
      ClassFoldIsAbsorb(d, segs[..|segs| - 1]);
    }
  }

  lemma {:induction false} NamespaceFoldIsAbsorb(d: Dict<Dict<Dict<SqlQueryMetadata>>>, segs: seq<Segment>)
    ensures NamespaceFold(d, segs) == Absorb(d, segs, ClassesIn, [])
    decreases |segs|
  {
    if segs != [] {
      NamespaceFoldIsAbsorb(d, segs[..|segs| - 1]);
    }
  }

  lemma QueryFoldSnoc(d: Dict<SqlQueryMetadata>, segs: seq<Segment>, i: nat, name: string, body: string)
    requires i < |segs| && segs[i].name == name && segs[i].body == body
    ensures QueryFold(d, segs[..i + 1]) == Put(QueryFold(d, segs[..i]), name, QueryOf(body))
  {
    assert segs[..i + 1][..i] == segs[..i];
  }

  lemma ClassFoldSnoc(d: Dict<Dict<SqlQueryMetadata>>, segs: seq<Segment>, i: nat)
    requires i < |segs|
    ensures var prev := ClassFold(d, segs[..i]);
      ClassFold(d, segs[..i + 1]) == Put(prev, segs[i].name, QueriesIn(segs[i].body, Get(prev, segs[i].name).GetOr([])))
  {
    assert segs[..i + 1][..i] == segs[..i];
  }

  lemma NamespaceFoldSnoc(d: Dict<Dict<Dict<SqlQueryMetadata>>>, segs: seq<Segment>, i: nat)
    requires i < |segs|
    ensures var prev := NamespaceFold(d, segs[..i]);
      NamespaceFold(d, segs[..i + 1]) == Put(prev, segs[i].name, ClassesIn(segs[i].body, Get(prev, segs[i].name).GetOr([])))
  {
    assert segs[..i + 1][..i] == segs[..i];
  }

  /**
   * One iteration of `ParseQueries`, with the method's own indices: the text from the end of
   * match `i` to the start of the next match (or the end of the text) is segment `i`, and
   * storing its query extends the fold by that segment.
   */
  lemma QueriesStep(classContent: string, queries: Dict<SqlQueryMetadata>, i: nat, result: Dict<SqlQueryMetadata>)
    requires i < |Matches(classContent, NameKeyword)|
    requires result == QueryFold(queries, Segments(classContent, NameKeyword)[..i])
    ensures var ms := Matches(classContent, NameKeyword);
      var start, end := ms[i].index + ms[i].length, if i < |ms| - 1 then ms[i + 1].index else |classContent|;
      && start <= end <= |classContent|
      && Put(result, ms[i].name, QueryOf(classContent[start..end]))
           == QueryFold(queries, Segments(classContent, NameKeyword)[..i + 1])
  {
    var ms := Matches(classContent, NameKeyword);
    var start, end := ms[i].index + ms[i].length, if i < |ms| - 1 then ms[i + 1].index else |classContent|;
    SegmentAt(classContent, NameKeyword, i);
    QueryFoldSnoc(queries, Segments(classContent, NameKeyword), i, ms[i].name, classContent[start..end]);
  }

  /* After the last match each fold has taken every segment. */

  lemma QueriesDone(classContent: string, queries: Dict<SqlQueryMetadata>, result: Dict<SqlQueryMetadata>)
    requires result == QueryFold(queries, Segments(classContent, NameKeyword)[..|Matches(classContent, NameKeyword)|])
    ensures result == QueriesIn(classContent, queries)
  {
    var segs := Segments(classContent, NameKeyword);
    assert segs[..|segs|] == segs;
  }

  lemma ClassesDone(namespaceContent: string, classes: Dict<Dict<SqlQueryMetadata>>, result: Dict<Dict<SqlQueryMetadata>>)
    requires result == ClassFold(classes, Segments(namespaceContent, ClassKeyword)[..|Matches(namespaceContent, ClassKeyword)|])
    ensures result == ClassesIn(namespaceContent, classes)
  {
    var segs := Segments(namespaceContent, ClassKeyword);
    assert segs[..|segs|] == segs;
  }

  lemma NamespacesDone(content: string, result: Dict<Dict<Dict<SqlQueryMetadata>>>)
    requires result == NamespaceFold([], Segments(content, NamespaceKeyword)[..|Matches(content, NamespaceKeyword)|])
    ensures result == NamespacesIn(content)
  {
    var segs := Segments(content, NamespaceKeyword);
    assert segs[..|segs|] == segs;
  }

  /** `ParseQueries`: each `@name` tag stores the query of its span under its name. */
  method ParseQueries(classContent: string, queries: Dict<SqlQueryMetadata>) returns (result: Dict<SqlQueryMetadata>)
    ensures result == QueriesIn(classContent, queries)
  {
    var nameMatches := Matches(classContent, NameKeyword);
    result := queries;
    var i := 0;
    while i < |nameMatches|
      invariant i <= |nameMatches| == |Matches(classContent, NameKeyword)|
      invariant result == QueryFold(queries, Segments(classContent, NameKeyword)[..i])
    {
      QueriesStep(classContent, queries, i, result);
      var nameMatch := nameMatches[i];
      var queryName := nameMatch.name;
      var queryStartIndex := nameMatch.index + nameMatch.length;
      var queryEndIndex := if i < |nameMatches| - 1 then nameMatches[i + 1].index else |classContent|;
      var rawQueryBlock := classContent[queryStartIndex..queryEndIndex];
      var meta := SplitQueryBlock(rawQueryBlock);
      result := Put(result, queryName, meta);
      i := i + 1;
    }
    QueriesDone(classContent, queries, result);
  }

  /** `ParseClasses`: each `@class` tag gets or creates its class and parses its span into it. */
  method ParseClasses(namespaceContent: string, classes: Dict<Dict<SqlQueryMetadata>>)
    returns (result: Dict<Dict<SqlQueryMetadata>>)
    ensures result == ClassesIn(namespaceContent, classes)
  {
    var classMatches := Matches(namespaceContent, ClassKeyword);
    result := classes;
    var i := 0;
    while i < |classMatches|
      invariant i <= |classMatches| == |Matches(namespaceContent, ClassKeyword)|
      invariant result == ClassFold(classes, Segments(namespaceContent, ClassKeyword)[..i])
    {
      SegmentAt(namespaceContent, ClassKeyword, i);
      var classMatch := classMatches[i];
      var className := classMatch.name;
      var classStartIndex := classMatch.index + classMatch.length;
      var classEndIndex := if i < |classMatches| - 1 then classMatches[i + 1].index else |namespaceContent|;
      var classContent := namespaceContent[classStartIndex..classEndIndex];
      var found := Get(result, className);
      ghost var old_result := result;
      var queries: Dict<SqlQueryMetadata>;
      if found.None? {
        queries := [];
        result := Put(result, className, queries);
      } else {
        queries := found.value;
      }
      queries := ParseQueries(classContent, queries);
      ClassFoldSnoc(classes, Segments(namespaceContent, ClassKeyword), i);
      PutOverCreate(old_result, className, [], queries);
      result := Put(result, className, queries);
      i := i + 1;
    }
    ClassesDone(namespaceContent, classes, result);
  }

  /** `ParseNamespaces`: each `@namespace` tag gets or creates its namespace and parses its span into it. */
  method ParseNamespaces(content: string) returns (queries: Dict<Dict<Dict<SqlQueryMetadata>>>)
    ensures queries == NamespacesIn(content)
  {
    queries := [];
    var namespaceMatches := Matches(content, NamespaceKeyword);
    var i := 0;
    while i < |namespaceMatches|
      invariant i <= |namespaceMatches| == |Matches(content, NamespaceKeyword)|
      invariant queries == NamespaceFold([], Segments(content, NamespaceKeyword)[..i])
    {
      SegmentAt(content, NamespaceKeyword, i);
      var namespaceMatch := namespaceMatches[i];
      var namespaceName := namespaceMatch.name;
      var namespaceStartIndex := namespaceMatch.index + namespaceMatch.length;
      var namespaceEndIndex := if i < |namespaceMatches| - 1 then namespaceMatches[i + 1].index else |content|;
      var namespaceContent := content[namespaceStartIndex..namespaceEndIndex];
      var found := Get(queries, namespaceName);
      ghost var old_queries := queries;
      var classes: Dict<Dict<SqlQueryMetadata>>;
      if found.None? {
        classes := [];
        queries := Put(queries, namespaceName, classes);
      } else {
        classes := found.value;
      }
      classes := ParseClasses(namespaceContent, classes);
      NamespaceFoldSnoc([], Segments(content, NamespaceKeyword), i);
      PutOverCreate(old_queries, namespaceName, [], classes);
      queries := Put(queries, namespaceName, classes);
      i := i + 1;
    }
    NamespacesDone(content, queries);
  }

  // ---------------------------------------------------------------------------
  // What the levels keep

  /** A query tag that names an existing query replaces it whole: the entry is the query of the last such span. */
  lemma QueryLastWriteWins(classContent: string, queries: Dict<SqlQueryMetadata>, queryName: string)
    ensures var bodies := Named(Segments(classContent, NameKeyword), queryName);
      Get(QueriesIn(classContent, queries), queryName)
        == if bodies == [] then Get(queries, queryName) else Some(QueryOf(bodies[|bodies| - 1]))
  {
    var segs := Segments(classContent, NameKeyword);
    QueryFoldIsAbsorb(queries, segs);
    AbsorbGet(queries, segs, QueryStep, NoQuery, queryName);
  }

  /**
   * A class tag that names an existing class of the namespace merges into it: the entry is
   * the existing queries (or none) with every span of that name parsed into them in order, and
   * its query names are the existing ones plus those of the spans, none removed.
   */
  lemma ClassesMerge(namespaceContent: string, classes: Dict<Dict<SqlQueryMetadata>>, className: string)
    ensures var bodies := Named(Segments(namespaceContent, ClassKeyword), className);
      var existing := Get(classes, className).GetOr([]);
      && Get(ClassesIn(namespaceContent, classes), className)
           == (if bodies == [] then Get(classes, className) else Some(FoldBodies(bodies, QueriesIn, existing)))
      && (bodies != [] ==>
            FoldedKeys(Get(ClassesIn(namespaceContent, classes), className).value)
              == FoldedKeys(existing) + TagNames(bodies, NameKeyword))
  {
    var segs := Segments(namespaceContent, ClassKeyword);
    ClassFoldIsAbsorb(classes, segs);
    AbsorbGet(classes, segs, QueriesIn, [], className);
    QueriesInKeys();
    FoldBodiesKeys(Named(segs, className), QueriesIn, NameKeyword, Get(classes, className).GetOr([]));
  }

  /**
   * A namespace tag that names an existing namespace merges into it: the entry is the existing
   * classes (or none) with every span of that name parsed into them in order, and its class
   * names are the existing ones plus those of the spans, none removed.
   */
  lemma NamespacesMerge(content: string, namespaceName: string)
    ensures var bodies := Named(Segments(content, NamespaceKeyword), namespaceName);
      && Get(NamespacesIn(content), namespaceName)
           == (if bodies == [] then None else Some(FoldBodies(bodies, ClassesIn, [])))
      && (bodies != [] ==>
            FoldedKeys(Get(NamespacesIn(content), namespaceName).value) == TagNames(bodies, ClassKeyword))
  {
    var segs := Segments(content, NamespaceKeyword);
    NamespaceFoldIsAbsorb([], segs);
    AbsorbGet([], segs, ClassesIn, [], namespaceName);
    ClassesInKeys();
    FoldBodiesKeys(Named(segs, namespaceName), ClassesIn, ClassKeyword, []);
  }

  /** Parsing a class span adds the names of its query tags to the keys. */
  lemma QueriesInKeys()
    ensures forall b, w :: FoldedKeys(QueriesIn(b, w)) == FoldedKeys(w) + Names(Segments(b, NameKeyword))
  {
    forall b, w ensures FoldedKeys(QueriesIn(b, w)) == FoldedKeys(w) + Names(Segments(b, NameKeyword)) {
      QueryFoldIsAbsorb(w, Segments(b, NameKeyword));
      AbsorbKeys(w, Segments(b, NameKeyword), QueryStep, NoQuery);
    }
  }

  /** Parsing a namespace span adds the names of its class tags to the keys. */
  lemma ClassesInKeys()
    ensures forall b, w :: FoldedKeys(ClassesIn(b, w)) == FoldedKeys(w) + Names(Segments(b, ClassKeyword))
  {
    forall b, w ensures FoldedKeys(ClassesIn(b, w)) == FoldedKeys(w) + Names(Segments(b, ClassKeyword)) {
      ClassFoldIsAbsorb(w, Segments(b, ClassKeyword));
      AbsorbKeys(w, Segments(b, ClassKeyword), QueriesIn, []);
    }
  }

  /** A query whose text and summary are both trimmed. */
  predicate TrimmedQuery(q: SqlQueryMetadata) {
    IsTrimmed(q.content) && IsTrimmed(q.summary)
  }

  /** The query dictionary of a class: names distinct ignoring case, every query trimmed. */
  predicate WellFormedQueries(queries: Dict<SqlQueryMetadata>) {
    UniqueKeys(queries) && forall i :: 0 <= i < |queries| ==> TrimmedQuery(queries[i].value)
  }

  /** The class dictionary of a namespace: names distinct ignoring case, every class well formed. */
  predicate WellFormedClasses(classes: Dict<Dict<SqlQueryMetadata>>) {
    UniqueKeys(classes) && forall i :: 0 <= i < |classes| ==> WellFormedQueries(classes[i].value)
  }

  /** The namespace dictionary: names distinct ignoring case, every namespace well formed. */
  predicate WellFormedNamespaces(namespaces: Dict<Dict<Dict<SqlQueryMetadata>>>) {
    UniqueKeys(namespaces) && forall i :: 0 <= i < |namespaces| ==> WellFormedClasses(namespaces[i].value)
  }

  /** Every query block yields a trimmed query text and a trimmed summary. */
  lemma QueryOfTrimmed(block: string)
    ensures TrimmedQuery(QueryOf(block))
  {
    var lines := Lines(block);
    var k := SummaryLength(lines);
    TrimIsTrimmed(AppendLines(lines[k..]));
    TrimIsTrimmed(AppendLines(CommentTexts(lines)[..k]));
  }

  lemma QueriesInWellFormed(classContent: string, queries: Dict<SqlQueryMetadata>)
    requires WellFormedQueries(queries)
    ensures WellFormedQueries(QueriesIn(classContent, queries))
  {
    var segs := Segments(classContent, NameKeyword);
    QueryFoldIsAbsorb(queries, segs);
    AbsorbKeys(queries, segs, QueryStep, NoQuery);
    forall b, v | TrimmedQuery(v) ensures TrimmedQuery(QueryStep(b, v)) {
      QueryOfTrimmed(b);
    }
    AbsorbValues(queries, segs, QueryStep, NoQuery, TrimmedQuery);
  }

  lemma ClassesInWellFormed(namespaceContent: string, classes: Dict<Dict<SqlQueryMetadata>>)
    requires WellFormedClasses(classes)
    ensures WellFormedClasses(ClassesIn(namespaceContent, classes))
  {
    var segs := Segments(namespaceContent, ClassKeyword);
    ClassFoldIsAbsorb(classes, segs);
    AbsorbKeys(classes, segs, QueriesIn, []);
    forall b, v | WellFormedQueries(v) ensures WellFormedQueries(QueriesIn(b, v)) {
      QueriesInWellFormed(b, v);
    }
    AbsorbValues(classes, segs, QueriesIn, [], WellFormedQueries);
  }

  /**
   * The nested dictionaries hold each namespace once, each class once per namespace and each
   * query once per class (ignoring case), and every query text and summary is trimmed.
   */
  lemma NamespacesWellFormed(content: string)
    ensures WellFormedNamespaces(NamespacesIn(content))
  {
    var segs := Segments(content, NamespaceKeyword);
    NamespaceFoldIsAbsorb([], segs);
    AbsorbKeys([], segs, ClassesIn, []);
    forall b, v | WellFormedClasses(v) ensures WellFormedClasses(ClassesIn(b, v)) {
      ClassesInWellFormed(b, v);
    }
    AbsorbValues([], segs, ClassesIn, [], WellFormedClasses);
  }

  // ---------------------------------------------------------------------------
  // The file

  /** The record of one (namespace, class) entry. */
  function ClassRecord(namespaceName: string, entry: Entry<Dict<SqlQueryMetadata>>): SqlClassMetadata {
    SqlClassMetadata(namespaceName, entry.key, entry.value)
  }

  /**
   * The `SelectMany` over the nested dictionaries: for each namespace in order, one record per
   * class of it in order.
   */
  function Flatten(namespaces: Dict<Dict<Dict<SqlQueryMetadata>>>): (classes: seq<SqlClassMetadata>)
    decreases |namespaces|
  {
    if namespaces == [] then []
    else
      var classes := namespaces[0].value;
      seq(|classes|, j requires 0 <= j < |classes| => ClassRecord(namespaces[0].key, classes[j]))
        + Flatten(namespaces[1..])
  }

  /** The flattened list holds a record for every (namespace, class) entry, and nothing else. */
  lemma {:induction false} FlattenRecords(namespaces: Dict<Dict<Dict<SqlQueryMetadata>>>)
    ensures forall i, j :: 0 <= i < |namespaces| && 0 <= j < |namespaces[i].value| ==>
              ClassRecord(namespaces[i].key, namespaces[i].value[j]) in Flatten(namespaces)
    ensures forall r :: r in Flatten(namespaces) ==>
              exists i, j :: 0 <= i < |namespaces| && 0 <= j < |namespaces[i].value|
                             && r == ClassRecord(namespaces[i].key, namespaces[i].value[j])
    decreases |namespaces|
  {
    if namespaces != [] {
      var rest := namespaces[1..];
      FlattenRecords(rest);
      var classes := namespaces[0].value;
      var first := seq(|classes|, j requires 0 <= j < |classes| => ClassRecord(namespaces[0].key, classes[j]));
      assert Flatten(namespaces) == first + Flatten(rest);
      forall i, j | 0 <= i < |namespaces| && 0 <= j < |namespaces[i].value|
        ensures ClassRecord(namespaces[i].key, namespaces[i].value[j]) in Flatten(namespaces)
      {
        if i == 0 {
          assert first[j] == ClassRecord(namespaces[i].key, namespaces[i].value[j]);
        } else {
          assert rest[i - 1] == namespaces[i];
        }
      }
      forall r | r in Flatten(namespaces)
        ensures exists i, j :: 0 <= i < |namespaces| && 0 <= j < |namespaces[i].value|
                               && r == ClassRecord(namespaces[i].key, namespaces[i].value[j])
      {
        if r in first {
          var j :| 0 <= j < |classes| && first[j] == r;
          assert r == ClassRecord(namespaces[0].key, namespaces[0].value[j]);
        } else {
          assert r in Flatten(rest);
          var i, j :| 0 <= i < |rest| && 0 <= j < |rest[i].value| && r == ClassRecord(rest[i].key, rest[i].value[j]);
          assert rest[i] == namespaces[i + 1];
        }
      }
    }
  }

  /** No two records name the same (namespace, class) pair ignoring case. */
  predicate DistinctPairs(classes: seq<SqlClassMetadata>) {
    forall a, b :: 0 <= a < b < |classes| ==>
      Fold(classes[a].targetNamespace) != Fold(classes[b].targetNamespace)
      || Fold(classes[a].targetClass) != Fold(classes[b].targetClass)
  }

  /**
   * When the dictionaries keep their keys distinct ignoring case, no two records of the
   * flattened list name the same (namespace, class) pair ignoring case.
   */
  lemma {:induction false} FlattenDistinct(namespaces: Dict<Dict<Dict<SqlQueryMetadata>>>)
    requires UniqueKeys(namespaces)
    requires forall i :: 0 <= i < |namespaces| ==> UniqueKeys(namespaces[i].value)
    ensures var classes := Flatten(namespaces);
      DistinctPairs(classes)
    decreases |namespaces|
  {
    if namespaces != [] {
      var rest := namespaces[1..];
      FlattenDistinct(rest);
      FlattenRecords(rest);
      var classes := namespaces[0].value;
      var first := seq(|classes|, j requires 0 <= j < |classes| => ClassRecord(namespaces[0].key, classes[j]));
      var all := Flatten(namespaces);
      assert all == first + Flatten(rest);
      forall a, b | 0 <= a < b < |all|
        ensures Fold(all[a].targetNamespace) != Fold(all[b].targetNamespace)
                || Fold(all[a].targetClass) != Fold(all[b].targetClass)
      {
        if b < |first| {
          assert all[a] == first[a] && all[b] == first[b];
        } else if a >= |first| {
          assert all[a] == Flatten(rest)[a - |first|] && all[b] == Flatten(rest)[b - |first|];
        } else {
          assert all[b] in Flatten(rest);
          var i, j :| 0 <= i < |rest| && 0 <= j < |rest[i].value| && all[b] == ClassRecord(rest[i].key, rest[i].value[j]);
          assert rest[i] == namespaces[i + 1];
          assert all[a] == first[a];
        }
      }
    }
  }

  /**
   * The working content of a file: everything after the first occurrence of the marker in the
   * trimmed text, or nothing when the text is empty, lacks the marker or ends with it.
   */
  function MarkerContent(rawContent: string): Option<string>
  {
    var text := Trim(rawContent);
    if text == [] then None
    else
      match IndexOf(text, HardcodedTag)
      case None => None
      case Some(start) => if start + |HardcodedTag| >= |text| then None else Some(text[start + |HardcodedTag|..])
  }

  /** What `ParseFileMetadata` returns for the contents of the file at `filePath`. */
  function FileMetadataOf(filePath: string, rawContent: string): Option<SqlFileMetadata>
  {
    match MarkerContent(rawContent)
    case None => None
    case Some(content) => Some(SqlFileMetadata(filePath, Flatten(NamespacesIn(content)), None))
  }

  /**
   * `ParseFileMetadata`: nothing for a file without the marker; otherwise the namespaces parsed
   * from what follows the marker's first occurrence, flattened into class records.
   */
  method ParseFileMetadata(filePath: string, rawContent: string) returns (meta: Option<SqlFileMetadata>)
    ensures meta == FileMetadataOf(filePath, rawContent)
  {
    var text := Trim(rawContent);
    if |text| == 0 {
      assert MarkerContent(rawContent).None?;
      return None;
    }
    var contentStartIndex := IndexOf(text, HardcodedTag);
    if contentStartIndex.None? || contentStartIndex.value + |HardcodedTag| >= |text| {
      assert MarkerContent(rawContent).None?;
      return None;
    }
    var content := text[contentStartIndex.value + |HardcodedTag|..];
    assert MarkerContent(rawContent) == Some(content);
    var queries := ParseNamespaces(content);
    meta := Some(SqlFileMetadata(filePath, Flatten(queries), None));
  }

  /** The marker ends in a space, so in a trimmed text something always follows it. */
  lemma MarkerNotAtEnd(text: string, start: nat)
    requires IsTrimmed(text) && OccursAt(text, HardcodedTag, start)
    ensures start + |HardcodedTag| < |text|
  {
    assert text[start + |HardcodedTag| - 1] == HardcodedTag[|HardcodedTag| - 1] == ' ';
  }

  /**
   * A file has no working content exactly when its text is whitespace only or does not contain
   * the marker (trailing space included): the guard for a marker with nothing after it never
   * fires.
   */
  lemma MarkerContentNone(rawContent: string)
    ensures (MarkerContent(rawContent).None?)
              <==> (IsNullOrWhiteSpace(rawContent) || forall j: nat :: !OccursAt(Trim(rawContent), HardcodedTag, j))
  {
    var text := Trim(rawContent);
    TrimEmpty(rawContent);
    TrimIsTrimmed(rawContent);
    match IndexOf(text, HardcodedTag)
    case None =>
    case Some(start) => MarkerNotAtEnd(text, start);
  }

  /** The working content is everything after the marker's first occurrence in the trimmed text. */
  lemma MarkerContentAfterFirst(rawContent: string, start: nat)
    requires OccursAt(Trim(rawContent), HardcodedTag, start)
    requires forall j: nat :: j < start ==> !OccursAt(Trim(rawContent), HardcodedTag, j)
    ensures MarkerContent(rawContent) == Some(Trim(rawContent)[start + |HardcodedTag|..])
  {
    var text := Trim(rawContent);
    TrimIsTrimmed(rawContent);
    MarkerNotAtEnd(text, start);
    assert IndexOf(text, HardcodedTag) == Some(start);
  }

  /** A parsed file keeps the path it was given and carries no exception. */
  lemma FileMetadataParsed(filePath: string, rawContent: string)
    ensures FileMetadataOf(filePath, rawContent).None? <==> MarkerContent(rawContent).None?
    ensures FileMetadataOf(filePath, rawContent).Some? ==>
              && FileMetadataOf(filePath, rawContent).value.originalFilePath == filePath
              && FileMetadataOf(filePath, rawContent).value.parseException.None?
  {
  }

  /** The records of well-formed dictionaries name distinct pairs and hold well-formed queries. */
  lemma FlattenWellFormed(namespaces: Dict<Dict<Dict<SqlQueryMetadata>>>)
    requires WellFormedNamespaces(namespaces)
    ensures var classes := Flatten(namespaces);
      && DistinctPairs(classes)
      && forall r :: r in classes ==> WellFormedQueries(r.queries)
  {
    FlattenDistinct(namespaces);
    FlattenRecords(namespaces);
    forall r | r in Flatten(namespaces) ensures WellFormedQueries(r.queries) {
      var i, j :| 0 <= i < |namespaces| && 0 <= j < |namespaces[i].value|
                  && r == ClassRecord(namespaces[i].key, namespaces[i].value[j]);
      assert WellFormedClasses(namespaces[i].value);
    }
  }

  /**
   * A parsed file lists each (namespace, class) pair once ignoring case, with each query name
   * once per class ignoring case, and every query text and summary trimmed.
   */
  lemma FileMetadataWellFormed(filePath: string, rawContent: string)
    requires FileMetadataOf(filePath, rawContent).Some?
    ensures var classes := FileMetadataOf(filePath, rawContent).value.classes;
      && DistinctPairs(classes)
      && forall r :: r in classes ==> WellFormedQueries(r.queries)
  {
    var content := MarkerContent(rawContent).value;
    var namespaces := NamespacesIn(content);
    assert FileMetadataOf(filePath, rawContent).value.classes == Flatten(namespaces);
    NamespacesWellFormed(content);
    FlattenWellFormed(namespaces);
  }
}
