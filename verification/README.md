# Hardcoded.NET SQL source generator, modelled in Dafny

Hardcoded.NET is a C# incremental source generator. It reads the project's `.sql` additional
files. A file is activated by the marker `-- @hardcoded ` (with its trailing space). After the
marker, the text is cut at three comment tags:

- `-- @namespace <name>`
- `-- @class <name>`
- `-- @name <name>`

Each query block is split into a summary and a body. The summary is its leading comment lines;
the body is the rest. Blocks are collected into nested dictionaries keyed ignoring case. The
generator then emits one C# file per (namespace, class) pair. Each file holds a file-scoped
namespace and an `internal static partial class`. The class has one documented
`internal const string` per query, whose SQL sits in a verbatim literal with its quotes doubled.

Names are checked first, so that they cannot inject code:

- a namespace that fails the check is reported as HC0003;
- a class name that fails is reported as HC0004;
- a query name that fails is reported as HC0005.

A failed read is reported as HC0001, or as HC0002 when the exception is a parse exception.

The model is organised by module:

| module | models |
|---|---|
| `Text`, `Paths`, `CaseDict` | The pieces of .NET the generator relies on: character classes, `Trim`, ordinal `IndexOf`, `Split` on line breaks with `RemoveEmptyEntries`, `Split('.')`, `StringBuilder.AppendLine`, `Path.GetFileName`, and dictionaries with `StringComparer.OrdinalIgnoreCase`. A dictionary is an insertion-ordered association list. |
| `TagRegex` | The three tag patterns and `Regex.Matches`. |
| `TagLevels` | One parsing level, read as a fold over the tag matches. |
| `SqlModel` | The records `SqlFileMetadata`, `SqlClassMetadata` and `SqlQueryMetadata`, and the two kinds of exception. |
| `SqlParser` | `ParseFileMetadata`, `ParseNamespaces`, `ParseClasses` and `ParseQueries`. |
| `NameValidator` | `IsInvalidCSharpName` and `IsInvalidNamespace`. |
| `DiagnosticDescriptors` | The five descriptors, `ReportProblem` and `HandleException`. |
| `SqlEmitter` | `GenerateClasses`. |
| `Pipeline` | The `Initialize` pipeline: the filter on `.sql`, the per-file read, and the output loop. |

Each loop of the source is a Dafny method proved equal to a specification function. The
properties are stated and proved about those functions.

Some behaviours of the code are easy to misread from its tests, names and messages. The model
follows the code in each of them:

- No reserved-word list is consulted (Hardcoded.NET/Common/NameValidator.cs). `class` and `int` are valid names (`NameValidator.ReservedWordsAccepted`).
  - So the source is generated for the class `class` (`SqlEmitter.ClassNamedClassGenerated`).
  - The test expectation at `Hardcoded.NET.Test/SqlSourceGeneratorTest.cs:79` (an HC0004 warning for `class`) is not what the code produces.
- Namespaces and classes named twice are merged, not overwritten. The source gets or creates the entry, then parses into it (SqlSourceGenerator.cs:118-126 and :148-156; `SqlParser.ClassesMerge`, `SqlParser.NamespacesMerge`). Only queries are last-write-wins (`SqlParser.QueryLastWriteWins`).
- HC0005's message says "Invalid query name '{0}'" (DiagnosticDescriptors.cs:45), but the argument passed is the class name (SqlSourceGenerator.cs:253-255).
- The marker is searched anywhere in the trimmed text with an ordinal `IndexOf`, trailing space included, not only at the start of a line (SqlSourceGenerator.cs:82).
- The tag patterns carry no line anchor, so tags need not start a line (SqlSourceGenerator.cs:16-18).
- Blank lines are dropped from query bodies and summaries. The block is split on CR and LF with `RemoveEmptyEntries` before the lines are sorted into the two builders (SqlSourceGenerator.cs:181; `Text.LinesOfAppendLines`, `SqlParser.SummaryLines`).
- A `.sql` file whose read throws is kept with its exception and reported, not skipped (SqlSourceGenerator.cs:38-41).

## Model

| member | source | states |
|---|---|---|
| `Paths.GetFileName` | Hardcoded.NET/SourceGenerators/SqlSourceGenerator.cs:225 | The file name is the suffix of the path after its last directory separator: it holds no separator, and the character before it is a separator. It is the whole path when the path has no separator. |
| `Paths.GetFileNameWithoutExtension` | Hardcoded.NET/SourceGenerators/SqlSourceGenerator.cs:272 | The stem is the prefix of the file name before its last dot: the character after it is a dot, and no dot follows. It is the whole file name when that has no dot. |
| `Text.TrimIsTrimmed` | Hardcoded.NET/SourceGenerators/SqlSourceGenerator.cs:74 | `Trim` leaves no whitespace at either end. |
| `Text.TrimEmpty` | Hardcoded.NET/SourceGenerators/SqlSourceGenerator.cs:74-80 | Trimming gives the empty string exactly when the text is whitespace only. So the `IsNullOrEmpty` test after `Trim` rejects exactly the blank files. |
| `Text.TrimIsSlice` | Hardcoded.NET/SourceGenerators/SqlSourceGenerator.cs:74 | The trimmed text is a contiguous slice of the original. |
| `Text.TrimPadded` | Hardcoded.NET/SourceGenerators/SqlSourceGenerator.cs:208 | Trimming removes whitespace padding around an already trimmed middle and keeps the middle exactly. |
| `Text.TrimTrimmed` | Hardcoded.NET/SourceGenerators/SqlSourceGenerator.cs:187 | Trimming a trimmed text changes nothing. |
| `Text.IndexOf` | Hardcoded.NET/SourceGenerators/SqlSourceGenerator.cs:82 | An ordinal search. A found index is an occurrence with none before it; `None` means there is no occurrence at all. |
| `Text.Lines` | Hardcoded.NET/SourceGenerators/SqlSourceGenerator.cs:181 | Splitting on CR and LF with `RemoveEmptyEntries`: every entry is non-empty and holds no line break. |
| `Text.LinesOfAppendLines` | Hardcoded.NET/SourceGenerators/SqlSourceGenerator.cs:265 | Splitting text written line by line with `AppendLine` gives back the non-empty lines, in order. |
| `Text.LinesOfTrimmedAppend` | Hardcoded.NET/SourceGenerators/SqlSourceGenerator.cs:208 | The same holds after the final `Trim`, for trimmed lines. |
| `Text.AppendLinesConcat` | Hardcoded.NET/SourceGenerators/SqlSourceGenerator.cs:239-279 | Appending two runs of lines writes the text of the first, then that of the second. |
| `Text.NLIsLineBreaks` | Hardcoded.NET/SourceGenerators/SqlSourceGenerator.cs:193 | Proof helper: the newline `AppendLine` writes is non-empty and made of line breaks. |
| `Text.FoldConcat` | Hardcoded.NET/SourceGenerators/SqlSourceGenerator.cs:102 | Proof helper: ordinal case folding distributes over concatenation. |
| `Text.SplitOn` | Hardcoded.NET/Common/NameValidator.cs:33 | `Split('.')` gives at least one part, and no part holds the separator. |
| `Text.JoinSplit` | Hardcoded.NET/Common/NameValidator.cs:33 | Joining the parts with the separator gives the text back. |
| `Text.SplitJoin` | Hardcoded.NET/Common/NameValidator.cs:33 | Splitting a join of separator-free parts gives the parts back. |
| `CaseDict.Find` | Hardcoded.NET/SourceGenerators/SqlSourceGenerator.cs:120 | `TryGetValue` under `OrdinalIgnoreCase`: the first key equal ignoring case. `None` exactly when no key folds to the same text. |
| `CaseDict.Put` | Hardcoded.NET/SourceGenerators/SqlSourceGenerator.cs:208 | The indexer store: keys and their order are kept, and a new key goes last. An existing key's slot takes the new value under its first spelling. Every entry whose key differs ignoring case is unchanged. |
| `CaseDict.GetPut` | Hardcoded.NET/SourceGenerators/SqlSourceGenerator.cs:208 | After a store, the key (in any case) reads the new value, and every other key reads what it read before. |
| `CaseDict.PutKeys` | Hardcoded.NET/SourceGenerators/SqlSourceGenerator.cs:123 | A store adds exactly the folded key to the key set and keeps keys unique ignoring case. |
| `CaseDict.PutPut` | Hardcoded.NET/SourceGenerators/SqlSourceGenerator.cs:208 | The second of two stores under one key wins. |
| `CaseDict.PutOverCreate` | Hardcoded.NET/SourceGenerators/SqlSourceGenerator.cs:120-124 | Creating a missing entry and then storing into it is the same as the store alone. |
| `CaseDict.GetFolded` | Hardcoded.NET/SourceGenerators/SqlSourceGenerator.cs:102 | Two keys that differ only in case find the same entry. |
| `TagRegex.MatchAt` | Hardcoded.NET/SourceGenerators/SqlSourceGenerator.cs:16-18 | A match found at a position starts there, is non-empty and lies within the text. |
| `TagRegex.MatchAtName` | Hardcoded.NET/SourceGenerators/SqlSourceGenerator.cs:16-18 | The captured name is a non-empty run of non-whitespace characters, right before the whitespace character that ends the match. |
| `TagRegex.TagAtIsMatch` | Hardcoded.NET/SourceGenerators/SqlSourceGenerator.cs:16-18 | Any way the pattern can match at a position is the match found there. The pattern has no ambiguous match. |
| `TagRegex.MatchIsTagAt` | Hardcoded.NET/SourceGenerators/SqlSourceGenerator.cs:16-18 | The match found is a match of the pattern. |
| `TagRegex.Candidates` | Hardcoded.NET/SourceGenerators/SqlSourceGenerator.cs:106 | One entry per position of the text, each anchored at its own position. |
| `TagRegex.ScanFrom` | Hardcoded.NET/SourceGenerators/SqlSourceGenerator.cs:106 | The scan's first match starts at or after the scan's start. |
| `TagRegex.ScanFromResumes` | Hardcoded.NET/SourceGenerators/SqlSourceGenerator.cs:106 | After each match, the scan resumes at the match's end. |
| `TagRegex.MatchesOrdered` | Hardcoded.NET/SourceGenerators/SqlSourceGenerator.cs:106 | `Matches` returns non-empty matches in increasing position, without overlap. |
| `TagRegex.MatchesAreLeftmost` | Hardcoded.NET/SourceGenerators/SqlSourceGenerator.cs:106 | Each returned match is the pattern's match at its position, and no match starts in a gap the scan skipped. |
| `TagRegex.Span` | Hardcoded.NET/SourceGenerators/SqlSourceGenerator.cs:114-117 | A match's span runs from the match's end to the next match's start, or to the end of the text for the last match. |
| `TagRegex.SpansTile` | Hardcoded.NET/SourceGenerators/SqlSourceGenerator.cs:114-117 | The matches and their spans, put back together, give the text from the first match on. |
| `TagRegex.SpansDisjoint` | Hardcoded.NET/SourceGenerators/SqlSourceGenerator.cs:115 | A span ends before any later match ends. |
| `TagLevels.Segments` | Hardcoded.NET/SourceGenerators/SqlSourceGenerator.cs:108-117 | One (name, span) segment per match. |
| `TagLevels.SegmentAt` | Hardcoded.NET/SourceGenerators/SqlSourceGenerator.cs:110-117 | Segment `i` carries match `i`'s captured name, and the substring between that match's end and the next match's start. |
| `TagLevels.AbsorbSnoc` | Hardcoded.NET/SourceGenerators/SqlSourceGenerator.cs:119-127 | One loop step: the entry for the name is read (or started empty), the span is folded into it, and it is stored back. |
| `TagLevels.AbsorbGetOrCreate` | Hardcoded.NET/SourceGenerators/SqlSourceGenerator.cs:119-127 | The source's `TryGetValue`, create-and-store, then parse-into sequence gives the same dictionary as that one step. |
| `TagLevels.AbsorbGet` | Hardcoded.NET/SourceGenerators/SqlSourceGenerator.cs:108-128 | A key never named by a tag keeps its old entry. Otherwise its entry is the fold, in order, of every span whose tag names it ignoring case, starting from the old entry. |
| `TagLevels.AbsorbKeys` | Hardcoded.NET/SourceGenerators/SqlSourceGenerator.cs:108-128 | The keys afterwards are the old keys plus the tag names, folded. Keys stay unique ignoring case. |
| `TagLevels.AbsorbValues` | Hardcoded.NET/SourceGenerators/SqlSourceGenerator.cs:108-128 | A property of entries that the empty entry has, and that each fold step keeps, holds of every entry afterwards. |
| `TagLevels.FoldBodiesKeys` | Hardcoded.NET/SourceGenerators/SqlSourceGenerator.cs:127 | Folding several spans into one entry adds the names each span's tags define. |
| `SqlParser.SummaryLength` | Hardcoded.NET/SourceGenerators/SqlSourceGenerator.cs:185-205 | The summary phase ends at the first line that is not a comment, or at the end. |
| `SqlParser.SummaryLengthRun` | Hardcoded.NET/SourceGenerators/SqlSourceGenerator.cs:188-194 | Every line before that point is a comment line. |
| `SqlParser.CommentTexts` | Hardcoded.NET/SourceGenerators/SqlSourceGenerator.cs:186-193 | The summary text of each line, in order. For every break-free comment line that text is a single trimmed line with no line break. |
| `SqlParser.CommentTextOneLine` | Hardcoded.NET/SourceGenerators/SqlSourceGenerator.cs:193 | That text is trimmed and holds no line break. |
| `SqlParser.AppendBlockLine` | Hardcoded.NET/SourceGenerators/SqlSourceGenerator.cs:187-204 | One iteration of the line loop: the builders advance from their values after `i` lines to their values after `i + 1` lines. |
| `SqlParser.SummaryPhase` | Hardcoded.NET/SourceGenerators/SqlSourceGenerator.cs:188-194 | While only comment lines have been seen, the summary holds their texts line by line and the query is empty. |
| `SqlParser.QueryPhase` | Hardcoded.NET/SourceGenerators/SqlSourceGenerator.cs:195-204 | From the first non-comment line on, the summary is frozen and every line, comments included, goes verbatim to the query. |
| `SqlParser.BuildersDone` | Hardcoded.NET/SourceGenerators/SqlSourceGenerator.cs:208 | The two builders, trimmed, are the block's `(content, summary)`. |
| `SqlParser.SplitQueryBlock` | Hardcoded.NET/SourceGenerators/SqlSourceGenerator.cs:181-208 | The loop over a block's lines computes the block's query record. |
| `SqlParser.SummaryLines` | Hardcoded.NET/SourceGenerators/SqlSourceGenerator.cs:181-208 | Splitting the stored summary into lines gives the non-empty texts of the leading comment lines, in order. |
| `SqlParser.QueryOfTrimmed` | Hardcoded.NET/SourceGenerators/SqlSourceGenerator.cs:208 | A stored query's content and summary are both trimmed. |
| `SqlParser.QueryFoldIsAbsorb` | Hardcoded.NET/SourceGenerators/SqlSourceGenerator.cs:161-210 | The query level is the generic level whose step overwrites the entry with the newest block. |
| `SqlParser.ClassFoldIsAbsorb` | Hardcoded.NET/SourceGenerators/SqlSourceGenerator.cs:133-159 | The class level is the generic level whose step parses queries into the class's dictionary. |
| `SqlParser.NamespaceFoldIsAbsorb` | Hardcoded.NET/SourceGenerators/SqlSourceGenerator.cs:99-131 | The namespace level is the generic level whose step parses classes into the namespace's dictionary. |
| `SqlParser.ParseQueries` | Hardcoded.NET/SourceGenerators/SqlSourceGenerator.cs:161-210 | The loop over `@name` matches fills the class's query dictionary as the query level says. |
| `SqlParser.ParseClasses` | Hardcoded.NET/SourceGenerators/SqlSourceGenerator.cs:133-159 | The loop over `@class` matches fills the namespace's class dictionary as the class level says. |
| `SqlParser.ParseNamespaces` | Hardcoded.NET/SourceGenerators/SqlSourceGenerator.cs:99-131 | The loop over `@namespace` matches builds the nested dictionaries as the namespace level says. |
| `SqlParser.QueryLastWriteWins` | Hardcoded.NET/SourceGenerators/SqlSourceGenerator.cs:166-208 | A query name's entry is its last block. It is unchanged when no tag names it. |
| `SqlParser.ClassesMerge` | Hardcoded.NET/SourceGenerators/SqlSourceGenerator.cs:138-158 | Every span of a class named more than once is parsed into the same query dictionary, starting from the existing one. Its names are the union. |
| `SqlParser.NamespacesMerge` | Hardcoded.NET/SourceGenerators/SqlSourceGenerator.cs:102-128 | Every span of a namespace named more than once is parsed into the same class dictionary, starting empty. Its class names are the union. |
| `SqlParser.QueriesInKeys` | Hardcoded.NET/SourceGenerators/SqlSourceGenerator.cs:164-208 | Parsing queries adds exactly the `@name` names to the keys. |
| `SqlParser.ClassesInKeys` | Hardcoded.NET/SourceGenerators/SqlSourceGenerator.cs:136-158 | Parsing classes adds exactly the `@class` names to the keys. |
| `SqlParser.QueriesInWellFormed` | Hardcoded.NET/SourceGenerators/SqlSourceGenerator.cs:161-210 | Parsing queries keeps the keys unique ignoring case, and every stored query trimmed. |
| `SqlParser.ClassesInWellFormed` | Hardcoded.NET/SourceGenerators/SqlSourceGenerator.cs:133-159 | The same holds for both levels below a namespace. |
| `SqlParser.NamespacesWellFormed` | Hardcoded.NET/SourceGenerators/SqlSourceGenerator.cs:99-131 | The parsed nested dictionaries have unique keys at every level and only trimmed queries. |
| `SqlParser.FlattenRecords` | Hardcoded.NET/SourceGenerators/SqlSourceGenerator.cs:95 | The `SelectMany`: every (namespace, class) entry becomes a record, and every record comes from such an entry. |
| `SqlParser.FlattenDistinct` | Hardcoded.NET/SourceGenerators/SqlSourceGenerator.cs:95 | With unique keys, no two records name the same (namespace, class) pair ignoring case. |
| `SqlParser.FlattenWellFormed` | Hardcoded.NET/SourceGenerators/SqlSourceGenerator.cs:95 | Records of well-formed dictionaries name distinct pairs and hold well-formed queries. |
| `SqlParser.ParseFileMetadata` | Hardcoded.NET/SourceGenerators/SqlSourceGenerator.cs:72-97 | The method computes the file's record, or no record. |
| `SqlParser.MarkerNotAtEnd` | Hardcoded.NET/SourceGenerators/SqlSourceGenerator.cs:83-84 | In trimmed text, the marker (which ends in a space) is never at the very end. So the `nextIndex >= Length` guard never fires. |
| `SqlParser.MarkerContentNone` | Hardcoded.NET/SourceGenerators/SqlSourceGenerator.cs:74-87 | A file yields no record exactly when it is blank, or its trimmed text holds no marker. |
| `SqlParser.MarkerContentAfterFirst` | Hardcoded.NET/SourceGenerators/SqlSourceGenerator.cs:82-89 | The parsed content is the trimmed text after the first marker. |
| `SqlParser.FileMetadataParsed` | Hardcoded.NET/SourceGenerators/SqlSourceGenerator.cs:93-96 | A record is produced exactly when the marker content exists. It keeps the file's path and carries no exception. |
| `SqlParser.FileMetadataWellFormed` | Hardcoded.NET/SourceGenerators/SqlSourceGenerator.cs:72-97 | A parsed file's records name distinct (namespace, class) pairs ignoring case, and hold unique, trimmed queries. |
| `NameValidator.IsInvalidCSharpName` | Hardcoded.NET/Common/NameValidator.cs:8-23 | A name is invalid exactly when it is not a letter or `_` followed by letters, digits and `_`. |
| `NameValidator.IsInvalidNamespace` | Hardcoded.NET/Common/NameValidator.cs:25-35 | A namespace is invalid exactly when it is not one or more identifiers joined by dots. |
| `NameValidator.NamespaceGrammar` | Hardcoded.NET/Common/NameValidator.cs:25-35 | The split-and-check procedure accepts exactly the dotted-identifier grammar. |
| `NameValidator.JoinedIdentifiersValid` | Hardcoded.NET/Common/NameValidator.cs:25-35 | Any non-empty list of identifiers joined by dots is accepted. |
| `NameValidator.ValidNamespaceParts` | Hardcoded.NET/Common/NameValidator.cs:33-34 | An accepted namespace is the dot-join of its parts, and each part is an identifier. |
| `NameValidator.IdentifierIsSafe` | Hardcoded.NET/Common/NameValidator.cs:8-23 | An accepted name holds no whitespace, quote, semicolon, brace or dot. So it cannot end a declaration or a literal. |
| `NameValidator.NamespaceIsSafe` | Hardcoded.NET/Common/NameValidator.cs:25-35 | An accepted namespace holds no whitespace, quote, semicolon or brace. |
| `NameValidator.MisplacedDotInvalid` | Hardcoded.NET/Common/NameValidator.cs:33-34 | A leading dot, a trailing dot or two dots in a row make a namespace invalid. |
| `NameValidator.DoubleDotInvalid` | Hardcoded.NET/Common/NameValidator.cs:33-34 | Example of `MisplacedDotInvalid`: `A..B` is rejected. |
| `NameValidator.ReservedWordsAccepted` | Hardcoded.NET/Common/NameValidator.cs:8-23 | `class` and `int` are accepted: no reserved-word list is consulted. |
| `NameValidator.TestNamespaceValid` | Hardcoded.NET.Test/SqlSourceGeneratorTest.cs:24 | The test's namespace `Hardcoded.NET.Test` is accepted. |
| `DiagnosticDescriptors.HandleException` | Hardcoded.NET/Common/Reporting/DiagnosticDescriptors.cs:57-69 | A parse exception becomes HC0002 for the file it names. Any other exception becomes HC0001 for the given path, or for `unknown file`. The diagnostic is an error with two arguments: a base name, then the message. |
| `DiagnosticDescriptors.UnknownFileIsAName` | Hardcoded.NET/Common/Reporting/DiagnosticDescriptors.cs:59 | The fallback `unknown file` has no directory part, so it is reported as is. |
| `DiagnosticDescriptors.DescriptorTable` | Hardcoded.NET/Common/Reporting/DiagnosticDescriptors.cs:8-48 | Five distinct ids, all in one category and enabled by default. The first two are errors and the validation three are warnings. |
| `SqlEmitter.UnescapeEscape` | Hardcoded.NET/SourceGenerators/SqlSourceGenerator.cs:259-260 | The escaped SQL is a complete verbatim-literal body, and it reads back as the SQL exactly. |
| `SqlEmitter.EscapeUnescape` | Hardcoded.NET/SourceGenerators/SqlSourceGenerator.cs:259-260 | Every body that reads back is the escape of what it reads as: quote doubling is the only change. |
| `SqlEmitter.Documented` | Hardcoded.NET/SourceGenerators/SqlSourceGenerator.cs:265-268 | One doc-comment line per summary line, each the prefix `    /// ` followed by that line. |
| `SqlEmitter.AppendDocumented` | Hardcoded.NET/SourceGenerators/SqlSourceGenerator.cs:265-268 | The loop writes those lines, each ended by a newline. |
| `SqlEmitter.AppendSummary` | Hardcoded.NET/SourceGenerators/SqlSourceGenerator.cs:263-273 | A non-blank summary writes its lines. A blank one writes the fallback naming the `.sql` file. |
| `SqlEmitter.TrimmedDocLines` | Hardcoded.NET/SourceGenerators/SqlSourceGenerator.cs:263-273 | For a trimmed summary, the fallback is used exactly when the summary has no lines. |
| `SqlEmitter.ParsedSummaryDocs` | Hardcoded.NET/SourceGenerators/SqlSourceGenerator.cs:263-273 | A parsed query is documented by its non-empty leading comment texts, one line each. It gets the fallback when it has none. |
| `SqlEmitter.AppendQuery` | Hardcoded.NET/SourceGenerators/SqlSourceGenerator.cs:259-276 | One query writes the summary tags around its documentation, then its declaration with the escaped SQL, then a blank line. |
| `SqlEmitter.EmitQuery` | Hardcoded.NET/SourceGenerators/SqlSourceGenerator.cs:247-276 | A query whose name fails is reported and writes nothing. Any other query writes its lines and reports nothing. |
| `SqlEmitter.StartClass` | Hardcoded.NET/SourceGenerators/SqlSourceGenerator.cs:239-243 | The header lines: the namespace line, a blank line, the class line and the opening brace. |
| `SqlEmitter.EmitQueries` | Hardcoded.NET/SourceGenerators/SqlSourceGenerator.cs:245-277 | The loop over a class's queries, in dictionary order, gives all their reports and all their lines. |
| `SqlEmitter.EmitClass` | Hardcoded.NET/SourceGenerators/SqlSourceGenerator.cs:239-283 | A class with valid names gives its query reports, then one source under `<namespace>.<class>.g.cs`. |
| `SqlEmitter.EmitRecord` | Hardcoded.NET/SourceGenerators/SqlSourceGenerator.cs:218-284 | One record adds exactly its outputs. |
| `SqlEmitter.GenerateClasses` | Hardcoded.NET/SourceGenerators/SqlSourceGenerator.cs:216-285 | The loop over a file's records gives their outputs, record by record. |
| `SqlEmitter.ClassGating` | Hardcoded.NET/SourceGenerators/SqlSourceGenerator.cs:221-283 | An invalid namespace gives one HC0003 (namespace, file name) and nothing else. Otherwise an invalid class gives one HC0004 (class, file name) and nothing else. Otherwise the record gives one HC0005 (class, file name) per invalid query name, then exactly one source under its hint name. |
| `SqlEmitter.QueryReportsCount` | Hardcoded.NET/SourceGenerators/SqlSourceGenerator.cs:251-257 | There are as many HC0005 reports as invalid query names, each carrying the class name and the file name. |
| `SqlEmitter.ValidQueriesDeclared` | Hardcoded.NET/SourceGenerators/SqlSourceGenerator.cs:245-276 | Every query with a valid name is declared with its escaped SQL. An invalid sibling does not suppress it. |
| `SqlEmitter.NoValidQueryNoLines` | Hardcoded.NET/SourceGenerators/SqlSourceGenerator.cs:251-256 | A class none of whose query names is valid declares nothing. |
| `SqlEmitter.EmptyClassStillEmitted` | Hardcoded.NET/SourceGenerators/SqlSourceGenerator.cs:239-283 | Such a class still gives its source: the header and the closing brace. |
| `SqlEmitter.OneQueryLayout` | Hardcoded.NET.Test/SqlSourceGeneratorTest.cs:39-53 | The layout the test expects for one query with a one-line summary, line by line. |
| `SqlEmitter.ClassNamedClassGenerated` | Hardcoded.NET.Test/SqlSourceGeneratorTest.cs:79 | The class `class` gets its query reports and its source, not HC0004. |
| `SqlEmitter.ClassSources` | Hardcoded.NET/SourceGenerators/SqlSourceGenerator.cs:218-284 | A record gives a source exactly when both its names are valid. |
| `SqlEmitter.GeneratedSources` | Hardcoded.NET/SourceGenerators/SqlSourceGenerator.cs:216-285 | A file's sources are exactly one per record with valid names, in record order. |
| `SqlEmitter.HintNameInjective` | Hardcoded.NET/SourceGenerators/SqlSourceGenerator.cs:282 | Equal hint names, ignoring case, come from equal namespaces and equal classes, ignoring case. |
| `SqlEmitter.DistinctHints` | Hardcoded.NET/SourceGenerators/SqlSourceGenerator.cs:282 | Records differing in namespace or class, ignoring case, get hint names that differ ignoring case. |
| `SqlEmitter.ValidSourcesDistinct` | Hardcoded.NET/SourceGenerators/SqlSourceGenerator.cs:282-283 | Records naming distinct pairs give sources with distinct hint names. |
| `SqlEmitter.FileHintsDistinct` | Hardcoded.NET/SourceGenerators/SqlSourceGenerator.cs:282-283 | The sources generated for any parsed file have distinct hint names ignoring case. |
| `Pipeline.FileRecord` | Hardcoded.NET/SourceGenerators/SqlSourceGenerator.cs:25-42 | A record keeps the file's path. It carries an exception exactly when the read failed. The record is then the path with no classes and the read's own exception. Content gives the record `ParseFileMetadata` computes; no content gives no record. |
| `Pipeline.EmitAll` | Hardcoded.NET/SourceGenerators/SqlSourceGenerator.cs:47-61 | The output loop: a record with an exception is reported; any other record's classes are generated. |
| `Pipeline.CollectedConcat` | Hardcoded.NET/SourceGenerators/SqlSourceGenerator.cs:22-45 | Files are collected independently and in order. |
| `Pipeline.AllOutputsConcat` | Hardcoded.NET/SourceGenerators/SqlSourceGenerator.cs:47-61 | With a host that accepts every source, the outputs of a list of records are those of its parts, in turn. |
| `Pipeline.OtherFilesIgnored` | Hardcoded.NET/SourceGenerators/SqlSourceGenerator.cs:24 | A file whose path does not end in `.sql`, ignoring case, adds nothing. |
| `Pipeline.UnmarkedFilesIgnored` | Hardcoded.NET/SourceGenerators/SqlSourceGenerator.cs:29-36 | A file without content or without the marker adds nothing. |
| `Pipeline.FailedReadReported` | Hardcoded.NET/SourceGenerators/SqlSourceGenerator.cs:38-56 | A `.sql` file whose read fails gives exactly one exception report, in its place among the outputs. |
| `Pipeline.CollectedFrom` | Hardcoded.NET/SourceGenerators/SqlSourceGenerator.cs:22-45 | Every collected record is the record of some `.sql` file in the list. |
| `Pipeline.CollectedHintsDistinct` | Hardcoded.NET/SourceGenerators/SqlSourceGenerator.cs:47-61 | The sources of any collected record have distinct hint names ignoring case. |

## Left out

- Character classes:
  - Letters, digits and case folding are exact for ASCII only. Other letters count as non-letters, so they make a name invalid.
  - `char.IsWhiteSpace` and the regular-expression class `\s` are modelled exactly.
  - No culture-sensitive behaviour is modelled. The one culture-sensitive call is `trimmedLine.StartsWith("--")` (SqlSourceGenerator.cs:188), which uses the current culture; `SqlParser` models it as an ordinal prefix test.
- Strings are sequences of Unicode scalar values, not UTF-16 code units.
  - A .NET surrogate pair is one character in the model.
  - A lone surrogate cannot be represented.
  - The UTF-8 encoding of the generated source is not modelled.
- `Environment.NewLine` is `"\n"` and the directory separator is `/`: the Unix values.
- Nulls are not modelled.
  - A read that returns no text is a separate outcome.
  - `part == null` in `IsInvalidNamespace` cannot happen.
- Diagnostics never carry a location. The descriptor's message format is not applied to the arguments.
- The dictionaries the source passes by reference are passed by value. Each parse method returns the dictionary it filled, and its caller stores it back under its key. Aliasing between the dictionaries is not modelled.
- Regex engine: the three tag patterns are modelled by a deterministic matcher, proved to agree with every way the pattern can match. Other regular-expression features are not modelled.
- `Replace("\"", "\"\"")` is modelled character by character.
- Initialize plumbing:
  - The incremental-generator plumbing is not modelled: registration, caching, cancellation tokens and `SourceText`.
  - The additional files and the outcome of reading each one are inputs.
- The output loop's outer `try`/`catch` (`HandleException(ex)` with no path) is not modelled.
  - The host's `AddSource` throws on a duplicate hint name; the catch would then report HC0001 once and drop the remaining records.
  - The model's host accepts every source, so its output loop never stops early.
  - Isolation between files in the output stage is therefore not claimed for the source. `SqlEmitter.FileHintsDistinct` shows that one file alone never produces a duplicate; two files naming the same (namespace, class) pair would.
- Pipeline.AllOutputsConcat: holds for a host that accepts every source; with a throwing host the source stops at the first failure.
- `Hardcoded.cs`, the generator's entry point, is not part of this model. It only forwards to `Initialize`.
- GenerateClasses is split into small methods (`StartClass`, `EmitQuery`, `EmitQueries`, `EmitClass`, `EmitRecord`) around its loop bodies. Each one writes to a returned string or output list, not to a shared `StringBuilder` or context.
- Text.Trim: its own contract only bounds the length. What `Trim` guarantees is stated by `TrimIsTrimmed`, `TrimEmpty`, `TrimIsSlice`, `TrimPadded` and `TrimTrimmed`.
