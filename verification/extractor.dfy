/** `MigrationExtractor`: the one-shot pass that turns every completed legacy
    batch into a `Migration`.

    `ExtractMigrations` follows the Java loop for loop: the batches cursor,
    one downloads cursor per batch, the batch builder created lazily on the
    first download row. `Extract` is an independent, declarative statement of
    what the pass yields, in terms of the first batch whose downloads cannot
    be turned into a migration; the method's contract ties the two together. */
module MigrationExtractor {
  import opened Wrappers
  import opened Domain
  import opened LegacyStore

  /** How `extractMigrations` ends: it returns a list, or `build()` is called
      on a builder that was never created and a NullPointerException escapes. */
  datatype Outcome = Returned(migrations: seq<Migration>) | NullBuilderThrown(batchId: string)

  /** A non-null, non-empty string value. */
  predicate IsPresent(s: Option<string>)
  {
    s.Some? && s.value != []
  }

  /** `createDownloadBatchIdFrom`: the legacy file id of the first download
      row names the migrated batch, unless it is null or empty, in which case
      the legacy batch id does. */
  function CreateDownloadBatchIdFrom(originalFileId: Option<string>, batchId: string): (id: DownloadBatchId)
    ensures IsPresent(originalFileId) ==> id.rawId == originalFileId.value
    ensures !IsPresent(originalFileId) ==> id.rawId == batchId
    ensures id.rawId == [] <==> !IsPresent(originalFileId) && batchId == []
  {
    if originalFileId.None? || originalFileId.value == [] then CreateFrom(batchId)
    else CreateFrom(originalFileId.value)
  }

  /** The metadata built for one download row: the size oracle is asked about
      the row's location and its answer is both the current and the total
      size. */
  function FileMetadataFor(row: DownloadRow, sizeOf: SizeOracle): FileMetadata
  {
    var rawFileSize := sizeOf(LiteFilePath(row.fileLocation));
    FileMetadata(row.fileId, row.fileLocation, FileSize(rawFileSize, rawFileSize), row.networkAddress)
  }

  /** A downloads query result a migration can be built from: a non-null
      cursor with at least one row. */
  predicate HasDownloads(result: Option<seq<DownloadRow>>)
  {
    result.Some? && |result.value| > 0
  }

  /** Index of the first batch whose downloads are null or empty, or the
      number of batches when there is none. */
  function FirstIncomplete(batches: seq<BatchRow>, downloads: DownloadsQuery): (k: nat)
    ensures k <= |batches|
    ensures forall j :: 0 <= j < k ==> HasDownloads(downloads(batches[j].batchId))
    ensures k < |batches| ==> !HasDownloads(downloads(batches[k].batchId))
    decreases |batches|
  {
    if |batches| == 0 || !HasDownloads(downloads(batches[0].batchId)) then 0
    else 1 + FirstIncomplete(batches[1..], downloads)
  }

  /** The migration a completed batch with a non-empty set of download rows
      is meant to become. */
  function ExpectedMigration(batch: BatchRow, rows: seq<DownloadRow>, sizeOf: SizeOracle): Migration
    requires |rows| > 0
  {
    Migration(
      Batch(CreateDownloadBatchIdFrom(rows[0].fileId, batch.batchId),
            batch.batchTitle,
            seq(|rows|, i requires 0 <= i < |rows| => rows[i].networkAddress)),
      seq(|rows|, i requires 0 <= i < |rows| => FileMetadataFor(rows[i], sizeOf)),
      batch.lastModified,
      Complete)
  }

  /** What the extraction pass yields, stated without its loops. A null
      batches cursor yields nothing. Otherwise the first batch whose downloads
      are null or empty decides: a null downloads cursor yields nothing, even
      though migrations were built for the batches before it, and an empty
      one makes `build()` throw. With no such batch there is one migration
      per batch, in order. */
  function Extract(batchesResult: BatchesResult, downloads: DownloadsQuery, sizeOf: SizeOracle): Outcome
  {
    match batchesResult
    case None => Returned([])
    case Some(batches) =>
      var k := FirstIncomplete(batches, downloads);
      if k == |batches| then
        Returned(seq(|batches|, i requires 0 <= i < |batches| =>
          ExpectedMigration(batches[i], downloads(batches[i].batchId).value, sizeOf)))
      else if downloads(batches[k].batchId).None? then
        Returned([])
      else
        NullBuilderThrown(batches[k].batchId)
  }

  /** How many non-null downloads cursors the pass obtains: one per batch
      up to the first stop, plus the stopping batch's own cursor when it is
      non-null but empty. */
  function NonNullCursors(batches: seq<BatchRow>, downloads: DownloadsQuery): nat
  {
    var k := FirstIncomplete(batches, downloads);
    if k < |batches| && downloads(batches[k].batchId).Some? then k + 1 else k
  }

  /** `extractMigrations`, statement by statement. Ghost counters record,
      per kind of cursor, how many were opened and closed: on every exit path
      the batches cursor (opened at most once) and every downloads cursor
      have been closed, as the two `finally` blocks do. */
  method ExtractMigrations(batchesResult: BatchesResult, downloads: DownloadsQuery, sizeOf: SizeOracle)
    returns (outcome: Outcome,
             ghost batchesOpened: nat, ghost batchesClosed: nat,
             ghost downloadsOpened: nat, ghost downloadsClosed: nat)
    ensures outcome == Extract(batchesResult, downloads, sizeOf)
    ensures batchesOpened == (if batchesResult.Some? then 1 else 0)
    ensures batchesClosed == batchesOpened
    ensures batchesResult.Some? ==> downloadsOpened == NonNullCursors(batchesResult.value, downloads)
    ensures downloadsClosed == downloadsOpened
  {
    batchesOpened, batchesClosed, downloadsOpened, downloadsClosed := 0, 0, 0, 0;
    if batchesResult.None? {
      return Returned([]), batchesOpened, batchesClosed, downloadsOpened, downloadsClosed;
    }
    var batches := batchesResult.value;
    batchesOpened := batchesOpened + 1;
    var migrations: seq<Migration> := [];
    var b := 0;
    while b < |batches|
      invariant b <= |batches|
      invariant forall j :: 0 <= j < b ==> HasDownloads(downloads(batches[j].batchId))
      invariant |migrations| == b
      invariant forall j :: 0 <= j < b ==>
        migrations[j] == ExpectedMigration(batches[j], downloads(batches[j].batchId).value, sizeOf)
      invariant batchesOpened == 1 && batchesClosed == 0
      invariant downloadsOpened == b
      invariant downloadsClosed == downloadsOpened
    {
      var batch := batches[b];
      var downloadsCursor := downloads(batch.batchId);
      if downloadsCursor.None? {
        batchesClosed := batchesClosed + 1;
        assert FirstIncomplete(batches, downloads) == b;
        return Returned([]), batchesOpened, batchesClosed, downloadsOpened, downloadsClosed;
      }
      downloadsOpened := downloadsOpened + 1;
      var rows := downloadsCursor.value;
      var newBatchBuilder: Option<BatchBuilder> := None;
      var fileMetadataList: seq<FileMetadata> := [];
      var d := 0;
      while d < |rows|
        invariant d <= |rows|
        invariant d == 0 <==> newBatchBuilder.None?
        invariant d > 0 ==> newBatchBuilder.value.downloadBatchId == CreateDownloadBatchIdFrom(rows[0].fileId, batch.batchId)
        invariant d > 0 ==> newBatchBuilder.value.title == batch.batchTitle
        invariant d > 0 ==> |newBatchBuilder.value.fileUrls| == d
        invariant d > 0 ==> forall i :: 0 <= i < d ==> newBatchBuilder.value.fileUrls[i] == rows[i].networkAddress
        invariant |fileMetadataList| == d
        invariant forall i :: 0 <= i < d ==> fileMetadataList[i] == FileMetadataFor(rows[i], sizeOf)
      {
        var row := rows[d];
        if d == 0 {
          var downloadBatchId := CreateDownloadBatchIdFrom(row.fileId, batch.batchId);
          newBatchBuilder := Some(With(downloadBatchId, batch.batchTitle));
        }
        newBatchBuilder := Some(newBatchBuilder.value.AddFile(row.networkAddress));
        var filePath := LiteFilePath(row.fileLocation);
        var rawFileSize := sizeOf(filePath);
        var fileSize := FileSize(rawFileSize, rawFileSize);
        var fileMetadata := FileMetadata(row.fileId, row.fileLocation, fileSize, row.networkAddress);
        fileMetadataList := fileMetadataList + [fileMetadata];
        d := d + 1;
      }
      downloadsClosed := downloadsClosed + 1;
      if newBatchBuilder.None? {
        batchesClosed := batchesClosed + 1;
        assert FirstIncomplete(batches, downloads) == b;
        return NullBuilderThrown(batch.batchId), batchesOpened, batchesClosed, downloadsOpened, downloadsClosed;
      }
      var built := newBatchBuilder.value.Build();
      migrations := migrations + [Migration(built, fileMetadataList, batch.lastModified, Complete)];
      b := b + 1;
    }
    batchesClosed := batchesClosed + 1;
    assert FirstIncomplete(batches, downloads) == |batches|;
    outcome := Returned(migrations);
  }
}
