/**
 * The generator's diagnostics: the five descriptors HC0001 to HC0005, reporting a problem as
 * one diagnostic value, and the mapping from an exception to the diagnostic that reports it.
 */
module DiagnosticDescriptors {
  import opened Wrappers
  import opened Paths
  import opened SqlModel

  datatype DiagnosticSeverity = Error | Warning

  datatype DiagnosticDescriptor = DiagnosticDescriptor(
    id: string,
    title: string,
    messageFormat: string,
    category: string,
    defaultSeverity: DiagnosticSeverity,
    isEnabledByDefault: bool)

  const Category: string := "Hardcoded.Gen"

  const UnhandledError: DiagnosticDescriptor := DiagnosticDescriptor(
    "HC0001", "Unhandled Error", "Hardcoded.NET failed to parse '{0}'. Error: {1}.", Category, Error, true)

  const ParseError: DiagnosticDescriptor := DiagnosticDescriptor(
    "HC0002", "Parsing Failed", "Hardcoded.NET failed to parse '{0}'. Error: {1}.", Category, Error, true)

  const InvalidNamespace: DiagnosticDescriptor := DiagnosticDescriptor(
    "HC0003", "Invalid Namespace",
    "Invalid namespace '{0}' in file '{1}'. Namespaces must be valid C# identifiers separated by dots.",
    Category, Warning, true)

  const InvalidClassName: DiagnosticDescriptor := DiagnosticDescriptor(
    "HC0004", "Invalid Class Name",
    "Invalid class name '{0}' in file '{1}'. Class names must be valid C# identifiers.",
    Category, Warning, true)

  const InvalidQueryName: DiagnosticDescriptor := DiagnosticDescriptor(
    "HC0005", "Invalid Query Name",
    "Invalid query name '{0}' in file '{1}'. Query names must be valid C# identifiers.",
    Category, Warning, true)

  const Descriptors: seq<DiagnosticDescriptor> :=
    [UnhandledError, ParseError, InvalidNamespace, InvalidClassName, InvalidQueryName]

  /** The file name reported when an exception names no file and no path was given. */
  const UnknownFile: string := "unknown file"

  /** A reported diagnostic. It never carries a source location (`Location.None`). */
  datatype Diagnostic = Diagnostic(descriptor: DiagnosticDescriptor, messageArgs: seq<string>)

  /** `ReportProblem`: exactly one diagnostic, with the arguments as given. */
  function ReportProblem(descriptor: DiagnosticDescriptor, messageArgs: seq<string>): Diagnostic {
    Diagnostic(descriptor, messageArgs)
  }

  /**
   * `HandleException`: a `SourceParseException` is reported as HC0002 for the file it names;
   * any other exception as HC0001 for the given path, or for "unknown file" when there is none.
   * The file is reported by its base name, followed by the exception's message.
   */
  function HandleException(ex: Exception, filePath: Option<string>): (d: Diagnostic)
    ensures ex.SourceParseException? ==> d == Diagnostic(ParseError, [GetFileName(ex.filePath), ex.message])
    ensures ex.OtherException? && filePath.Some? ==>
              d == Diagnostic(UnhandledError, [GetFileName(filePath.value), ex.message])
    ensures ex.OtherException? && filePath.None? ==> d == Diagnostic(UnhandledError, [UnknownFile, ex.message])
    ensures d.descriptor.defaultSeverity == Error && |d.messageArgs| == 2 && DirectorySeparator !in d.messageArgs[0]
  {
    UnknownFileIsAName();
    var fileName := filePath.GetOr(UnknownFile);
    var fileName := if ex.SourceParseException? then ex.filePath else fileName;
    ReportProblem(if ex.SourceParseException? then ParseError else UnhandledError, [GetFileName(fileName), ex.message])
  }

  /** "unknown file" has no directory part. */
  lemma UnknownFileIsAName()
    ensures GetFileName(UnknownFile) == UnknownFile
  {
    assert forall i :: 0 <= i < |UnknownFile| ==> UnknownFile[i] != DirectorySeparator;
  }

  /**
   * The descriptor table: five distinct ids in one category, all enabled; the two error
   * reports are errors, the three validation reports warnings.
   */
  lemma DescriptorTable()
    ensures |Descriptors| == 5
    ensures forall i, j :: 0 <= i < j < |Descriptors| ==> Descriptors[i].id != Descriptors[j].id
    ensures forall i :: 0 <= i < |Descriptors| ==>
              Descriptors[i].category == Category && Descriptors[i].isEnabledByDefault
              && (Descriptors[i].defaultSeverity == Error <==> i < 2)
  {
  }
}
