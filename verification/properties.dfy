/** What the extraction pass promises, proved of `Extract` (and so, through
    the contract of `ExtractMigrations`, of the Java-shaped loop): the
    discard-on-abort policy, the failure on a batch without download rows,
    one migration per batch in order, the identity fallback, the one-to-one
    mapping from download rows to file metadata and `current == total` sizes. */
module ExtractionProperties {
  import opened Wrappers
  import opened Domain
  import opened LegacyStore
  import opened MigrationExtractor

  /** Every batch's downloads query gave a non-null cursor with a row. */
  predicate AllBatchesHaveDownloads(batches: seq<BatchRow>, downloads: DownloadsQuery)
  {
    forall i :: 0 <= i < |batches| ==> HasDownloads(downloads(batches[i].batchId))
  }

  /** Batch `k` is the first whose downloads cannot be made into a migration. */
  predicate FirstStopAt(batches: seq<BatchRow>, downloads: DownloadsQuery, k: int)
  {
    && 0 <= k < |batches|
    && (forall j :: 0 <= j < k ==> HasDownloads(downloads(batches[j].batchId)))
    && !HasDownloads(downloads(batches[k].batchId))
  }

  /** The first stopping batch is unique, and it is the one `FirstIncomplete`
      finds. */
  lemma FirstStopIsFirstIncomplete(batches: seq<BatchRow>, downloads: DownloadsQuery, k: int)
    requires FirstStopAt(batches, downloads, k)
    ensures FirstIncomplete(batches, downloads) == k
  {
  }

  /** A null batches cursor yields the empty list. */
  lemma NullBatchesCursorYieldsNothing(downloads: DownloadsQuery, sizeOf: SizeOracle)
    ensures Extract(None, downloads, sizeOf) == Returned([])
  {
  }

  /** A null downloads cursor for any batch empties the whole result, even
      when migrations were already built for the batches before it. */
  lemma NullDownloadsCursorDiscardsEverything(batches: seq<BatchRow>, downloads: DownloadsQuery, sizeOf: SizeOracle, k: int)
    requires FirstStopAt(batches, downloads, k)
    requires downloads(batches[k].batchId).None?
    ensures Extract(Some(batches), downloads, sizeOf) == Returned([])
  {
  }

  /** The empty list comes back from a readable batches cursor exactly when
      there are no completed batches or a downloads cursor was null before
      any batch without download rows was met. */
  lemma YieldsNothingExactlyOnAbort(batches: seq<BatchRow>, downloads: DownloadsQuery, sizeOf: SizeOracle)
    ensures Extract(Some(batches), downloads, sizeOf) == Returned([])
        <==> |batches| == 0
             || exists k :: FirstStopAt(batches, downloads, k) && downloads(batches[k].batchId).None?
  {
  }

  /** `build()` throws exactly when a batch's downloads cursor is non-null but
      empty and every batch before it has download rows; the failing batch is
      that one. */
  lemma EmptyDownloadSetThrows(batches: seq<BatchRow>, downloads: DownloadsQuery, sizeOf: SizeOracle)
    ensures Extract(Some(batches), downloads, sizeOf).NullBuilderThrown?
        <==> exists k :: FirstStopAt(batches, downloads, k) && downloads(batches[k].batchId) == Some([])
    ensures forall k :: (FirstStopAt(batches, downloads, k) && downloads(batches[k].batchId) == Some([]))
                        ==> Extract(Some(batches), downloads, sizeOf) == NullBuilderThrown(batches[k].batchId)
  {
  }

  /** The importer gets all or nothing: a returned list is either empty or
      holds one migration per batch row. */
  lemma AllOrNothing(batches: seq<BatchRow>, downloads: DownloadsQuery, sizeOf: SizeOracle)
    ensures var r := Extract(Some(batches), downloads, sizeOf);
      r.Returned? ==> |r.migrations| == 0 || |r.migrations| == |batches|
  {
  }

  /** A null downloads cursor for batch `k` throws away real work: the batches
      before it would on their own give `k` migrations, yet the whole pass
      returns the empty list. */
  lemma AbortDiscardsBuiltMigrations(batches: seq<BatchRow>, downloads: DownloadsQuery, sizeOf: SizeOracle, k: int)
    requires FirstStopAt(batches, downloads, k)
    requires downloads(batches[k].batchId).None?
    ensures var before := Extract(Some(batches[..k]), downloads, sizeOf);
      before.Returned? && |before.migrations| == k
    ensures Extract(Some(batches), downloads, sizeOf) == Returned([])
  {
  }

  /** A full list, one migration per completed batch, comes back exactly when
      every batch has download rows. */
  lemma OneMigrationPerBatch(batches: seq<BatchRow>, downloads: DownloadsQuery, sizeOf: SizeOracle)
    ensures AllBatchesHaveDownloads(batches, downloads)
        <==> (Extract(Some(batches), downloads, sizeOf).Returned?
              && |Extract(Some(batches), downloads, sizeOf).migrations| == |batches|)
  {
  }

  /** Migration `i` belongs to batch row `i`: its title and timestamp are the
      row's, its type is COMPLETE, and its id is the first download row's file
      id when that is present, the legacy batch id otherwise. */
  lemma MigrationMirrorsBatchRow(batches: seq<BatchRow>, downloads: DownloadsQuery, sizeOf: SizeOracle, i: int)
    requires AllBatchesHaveDownloads(batches, downloads)
    requires 0 <= i < |batches|
    ensures var r := Extract(Some(batches), downloads, sizeOf);
      && r.Returned? && |r.migrations| == |batches|
      && var m := r.migrations[i];
         var first := downloads(batches[i].batchId).value[0];
         && m.migrationType == Complete
         && m.downloadedDateTimeInMillis == batches[i].lastModified
         && m.batch.title == batches[i].batchTitle
         && (IsPresent(first.fileId) ==> m.batch.downloadBatchId.rawId == first.fileId.value)
         && (!IsPresent(first.fileId) ==> m.batch.downloadBatchId.rawId == batches[i].batchId)
  {
  }

  /** The files of migration `i` are batch `i`'s download rows, one to one and
      in order: each metadata entry carries its row's file id, location and
      network address, the batch lists the rows' network addresses, and every
      size has current == total == the size the oracle reports for the row's
      location. */
  lemma FilesMirrorDownloadRows(batches: seq<BatchRow>, downloads: DownloadsQuery, sizeOf: SizeOracle, i: int)
    requires AllBatchesHaveDownloads(batches, downloads)
    requires 0 <= i < |batches|
    ensures var r := Extract(Some(batches), downloads, sizeOf);
      && r.Returned? && |r.migrations| == |batches|
      && var m := r.migrations[i];
         var rows := downloads(batches[i].batchId).value;
         && |m.fileMetadata| == |rows|
         && |m.batch.fileUrls| == |rows|
         && forall j :: 0 <= j < |rows| ==>
              && m.fileMetadata[j].originalFileId == rows[j].fileId
              && m.fileMetadata[j].originalFileLocation == rows[j].fileLocation
              && m.fileMetadata[j].originalNetworkAddress == rows[j].networkAddress
              && m.batch.fileUrls[j] == rows[j].networkAddress
              && m.fileMetadata[j].fileSize.currentSize == m.fileMetadata[j].fileSize.totalSize
              && m.fileMetadata[j].fileSize.currentSize == sizeOf(LiteFilePath(rows[j].fileLocation))
  {
  }

  /** The batch id is fixed by the first download row: two download sets that
      share their first row give the same id, whatever follows. */
  lemma BatchIdFromFirstRowOnly(batches: seq<BatchRow>, downloads: DownloadsQuery, downloads': DownloadsQuery, sizeOf: SizeOracle, i: int)
    requires AllBatchesHaveDownloads(batches, downloads)
    requires AllBatchesHaveDownloads(batches, downloads')
    requires 0 <= i < |batches|
    requires downloads(batches[i].batchId).value[0] == downloads'(batches[i].batchId).value[0]
    ensures Extract(Some(batches), downloads, sizeOf).migrations[i].batch.downloadBatchId
         == Extract(Some(batches), downloads', sizeOf).migrations[i].batch.downloadBatchId
  {
  }

  /** Re-running the pass against an unchanged store gives a structurally
      equal result: it reads nothing but the batch rows, the download rows of
      those batches and the file sizes. */
  lemma RerunOnUnchangedStoreIsEqual(batches: seq<BatchRow>, downloads: DownloadsQuery, downloads': DownloadsQuery, sizeOf: SizeOracle)
    requires forall i :: 0 <= i < |batches| ==> downloads(batches[i].batchId) == downloads'(batches[i].batchId)
    ensures Extract(Some(batches), downloads, sizeOf) == Extract(Some(batches), downloads', sizeOf)
  {
  }
}
