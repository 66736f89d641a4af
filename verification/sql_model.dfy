/**
 * The three records the parser produces and the emitter consumes, and the exceptions a file
 * record can carry.
 */
module SqlModel {
  import opened Wrappers
  import opened CaseDict

  /**
   * The exceptions the generator distinguishes: `SourceParseException`, which names the file it
   * is about, and every other exception, of which only the message is reported.
   */
  datatype Exception =
    | SourceParseException(filePath: string, message: string)
    | OtherException(message: string)

  /** One query: its SQL text and its doc-comment summary. */
  datatype SqlQueryMetadata = SqlQueryMetadata(content: string, summary: string)

  /** One (namespace, class) group and its queries, keyed by query name ignoring case. */
  datatype SqlClassMetadata = SqlClassMetadata(
    targetNamespace: string,
    targetClass: string,
    queries: Dict<SqlQueryMetadata>)

  /**
   * Everything read from one file. `parseException` is the one settable property; it is set
   * only when reading the file failed, and then `classes` is empty.
   */
  datatype SqlFileMetadata = SqlFileMetadata(
    originalFilePath: string,
    classes: seq<SqlClassMetadata>,
    parseException: Option<Exception>)
}
