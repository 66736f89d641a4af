/**
 * The generator's pipeline over the project's additional files: every file whose path ends in
 * `.sql` (ignoring case) is read and parsed; a file that cannot be read is kept with its
 * exception; a file without content or without the marker is dropped. The collected records
 * are then turned into outputs one after the other, for a host that accepts every source.
 */
module Pipeline {
  import opened Wrappers
  import opened Text
  import opened SqlModel
  import opened DiagnosticDescriptors
  import opened SqlParser
  import opened SqlEmitter

  /** What reading an additional file gives: its text, no text, or an exception. */
  datatype ReadResult = Content(text: string) | NoContent | ReadFailed(ex: Exception)

  /** An additional file of the project, with the outcome of reading it. */
  datatype AdditionalFile = AdditionalFile(path: string, read: ReadResult)

  const SqlExtension: string := ".sql"

  /** The filter on paths: the extension compared ignoring case. */
  predicate IsSqlFile(path: string) {
    EndsWithIgnoreCase(path, SqlExtension)
  }

  /**
   * The record kept for one `.sql` file: the parsed file; nothing when there is no content or
   * no marker; a record with no classes and the exception when reading failed.
   */
  function FileRecord(file: AdditionalFile): (meta: Option<SqlFileMetadata>)
    ensures meta.Some? ==> meta.value.originalFilePath == file.path
    ensures meta.Some? && meta.value.parseException.Some? <==> file.read.ReadFailed?
    ensures file.read.ReadFailed? ==> meta == Some(SqlFileMetadata(file.path, [], Some(file.read.ex)))
    ensures file.read.Content? ==> meta == FileMetadataOf(file.path, file.read.text)
    ensures file.read.NoContent? ==> meta.None?
  {
    match file.read
    case Content(text) => FileMetadataParsed(file.path, text); FileMetadataOf(file.path, text)
    case NoContent => None
    case ReadFailed(ex) => Some(SqlFileMetadata(file.path, [], Some(ex)))
  }

  /** The collected records: the filter, the per-file step and the dropping of empty results, in file order. */
  function Collected(files: seq<AdditionalFile>): seq<SqlFileMetadata> {
    if files == [] then []
    else
      var f := files[|files| - 1];
      Collected(files[..|files| - 1]) + if IsSqlFile(f.path) && FileRecord(f).Some? then [FileRecord(f).value] else []
  }

  /** The outputs for one record: the exception reported for its file, or the generated classes. */
  function RecordOutputs(meta: SqlFileMetadata): seq<Output> {
    if meta.parseException.Some? then [Report(HandleException(meta.parseException.value, Some(meta.originalFilePath)))]
    else Generated(meta.originalFilePath, meta.classes)
  }

  /** The outputs for all collected records, in order. */
  function AllOutputs(metas: seq<SqlFileMetadata>): seq<Output> {
    if metas == [] then []
    else AllOutputs(metas[..|metas| - 1]) + RecordOutputs(metas[|metas| - 1])
  }

  /** The output step: each record in turn, its exception reported or its classes generated. */
  method EmitAll(metas: seq<SqlFileMetadata>) returns (outputs: seq<Output>)
    ensures outputs == AllOutputs(metas)
  {
    outputs := [];
    for i := 0 to |metas|
      invariant outputs == AllOutputs(metas[..i])
    {
      var meta := metas[i];
      assert metas[..i + 1][..i] == metas[..i];
      if meta.parseException.Some? {
        outputs := outputs + [Report(HandleException(meta.parseException.value, Some(meta.originalFilePath)))];
      } else {
        var generated := GenerateClasses(meta);
        outputs := outputs + generated;
      }
    }
    assert metas[..|metas|] == metas;
  }

  // ---------------------------------------------------------------------------
  // Properties

  /** Files are handled independently: collecting two lists of files is collecting each. */
  lemma {:induction false} CollectedConcat(a: seq<AdditionalFile>, b: seq<AdditionalFile>)
    ensures Collected(a + b) == Collected(a) + Collected(b)
    decreases |b|
  {
    if b == [] {
      assert a + b == a;
    } else {
      var init := b[..|b| - 1];
      assert (a + b)[..|a + b| - 1] == a + init;
      assert (a + b)[|a + b| - 1] == b[|b| - 1];
      CollectedConcat(a, init);
      var last := Collected([b[|b| - 1]]);
      assert [b[|b| - 1]][..0] == [];
      ConcatAssoc(Collected(a), Collected(init), last);
    }
  }

  /**
   * With a host that accepts every source, the outputs of two lists of records are the outputs
   * of each in turn. The source's single `try` around the output loop would stop the remaining
   * records if the host threw; that host is not modelled.
   */
  lemma {:induction false} AllOutputsConcat(a: seq<SqlFileMetadata>, b: seq<SqlFileMetadata>)
    ensures AllOutputs(a + b) == AllOutputs(a) + AllOutputs(b)
    decreases |b|
  {
    if b == [] {
      assert a + b == a;
    } else {
      var init := b[..|b| - 1];
      assert (a + b)[..|a + b| - 1] == a + init;
      assert (a + b)[|a + b| - 1] == b[|b| - 1];
      AllOutputsConcat(a, init);
      ConcatAssoc(AllOutputs(a), AllOutputs(init), RecordOutputs(b[|b| - 1]));
    }
  }

  /** A file whose path does not end in `.sql` adds nothing. */
  lemma OtherFilesIgnored(files: seq<AdditionalFile>, f: AdditionalFile)
    requires !IsSqlFile(f.path)
    ensures Collected(files + [f]) == Collected(files)
  {
    assert (files + [f])[..|files|] == files;
  }

  /**
   * A `.sql` file that cannot be read yields exactly one error diagnostic naming it, in its place
   * among the outputs: the read's exception is caught per file, and the output loop reports it.
   */
  lemma FailedReadReported(files: seq<AdditionalFile>, f: AdditionalFile, rest: seq<AdditionalFile>)
    requires IsSqlFile(f.path) && f.read.ReadFailed?
    ensures AllOutputs(Collected(files + [f] + rest))
            == AllOutputs(Collected(files)) + [Report(HandleException(f.read.ex, Some(f.path)))] + AllOutputs(Collected(rest))
  {
    var meta := SqlFileMetadata(f.path, [], Some(f.read.ex));
    CollectedConcat(files + [f], rest);
    CollectedConcat(files, [f]);
    assert [f][..0] == [];
    assert Collected([f]) == [meta];
    AllOutputsConcat(Collected(files) + [meta], Collected(rest));
    AllOutputsConcat(Collected(files), [meta]);
    assert [meta][..0] == [];
    assert AllOutputs([meta]) == [Report(HandleException(f.read.ex, Some(f.path)))];
  }

  /** A `.sql` file without the marker, or without content, yields no record and so no output. */
  lemma UnmarkedFilesIgnored(files: seq<AdditionalFile>, f: AdditionalFile)
    requires f.read.NoContent? || (f.read.Content? && MarkerContent(f.read.text).None?)
    ensures Collected(files + [f]) == Collected(files)
  {
    assert (files + [f])[..|files|] == files;
    FileMetadataParsed(f.path, if f.read.Content? then f.read.text else []);
  }

  /**
   * Every collected record comes from a `.sql` file of the list, carries that file's path, and
   * carries an exception exactly when reading that file failed.
   */
  lemma {:induction false} CollectedFrom(files: seq<AdditionalFile>, k: nat)
    requires k < |Collected(files)|
    ensures exists i :: 0 <= i < |files| && IsSqlFile(files[i].path) && FileRecord(files[i]) == Some(Collected(files)[k])
    decreases |files|
  {
    var init, f := files[..|files| - 1], files[|files| - 1];
    if k < |Collected(init)| {
      CollectedFrom(init, k);
      var i :| 0 <= i < |init| && IsSqlFile(init[i].path) && FileRecord(init[i]) == Some(Collected(init)[k]);
      assert files[i] == init[i];
    } else {
      assert FileRecord(files[|files| - 1]) == Some(Collected(files)[k]);
    }
  }

  /**
   * No two sources generated for one collected record share a hint name, ignoring case, so the
   * host never rejects a duplicate hint within a file.
   */
  lemma CollectedHintsDistinct(files: seq<AdditionalFile>, k: nat)
    requires k < |Collected(files)|
    ensures HintsDistinct(Sources(RecordOutputs(Collected(files)[k])))
  {
    var meta := Collected(files)[k];
    CollectedFrom(files, k);
    var i :| 0 <= i < |files| && IsSqlFile(files[i].path) && FileRecord(files[i]) == Some(meta);
    if files[i].read.Content? {
      FileHintsDistinct(files[i].path, files[i].read.text);
    } else {
      assert RecordOutputs(meta) == [Report(HandleException(meta.parseException.value, Some(meta.originalFilePath)))];
      assert [Report(HandleException(meta.parseException.value, Some(meta.originalFilePath)))][1..] == [];
    }
  }
}
