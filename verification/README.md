# Legacy download migration extractor, in Dafny

This project models `MigrationExtractor` of the download-manager library. It is
the one-shot pass that reads the legacy database during an upgrade and turns
every completed legacy batch into a `Migration` for the new persistence layer.

The pass reads the completed-batches query in order. For each batch row it
runs the downloads query with that batch's id. On the first download row it
creates a `Batch.Builder`, named by `createDownloadBatchIdFrom`: the row's
original file id, or the legacy batch id when that file id is null or empty.
For every download row it adds the row's network address to the builder. It
also asks `FilePersistence` for the size of the row's file and records a
`FileMetadata` whose size has current == total. When the rows run out it builds
the batch and appends a `Migration` of type COMPLETE stamped with the batch's
last-modified time. A null cursor from either query makes the whole pass return
the empty list, and migrations already built are discarded.

Files:

- `wrappers.dfy`: `Option`, standing for Java's `null`.
- `domain.dfy`: the value types `DownloadBatchId`, `FilePath`, `FileSize`,
  `Batch` with its builder, `FileMetadata` and `Migration`.
- `legacy_store.dfy`: the query rows and the collaborators. A query result is
  `Option<seq<Row>>`, where `None` is a null cursor. The downloads query is a
  function from batch id to such a result. The size lookup is a total function
  from file path to a 64-bit size.
- `extractor.dfy`: `ExtractMigrations` follows the Java statement by statement.
  It keeps the lazily created builder and counts, with ghost counters per kind of
  cursor, the cursors it opens and closes. `Extract` is a declarative reference: the first batch whose downloads
  are null or empty decides the outcome. The method is proved equal to it on
  all inputs.
- `properties.dfy`: the behaviours the pass promises, proved of `Extract`.
- `examples.dfy`: worked examples, proved of `Extract`, such as the one-batch "Song Pack" store and a
  second batch with a null downloads cursor.

A batch with zero download rows never gets a builder. `build()` is then called
on null at line 83 and a NullPointerException escapes. The model keeps this as
an error outcome, `NullBuilderThrown(batchId)`, rather than a precondition. It
does not invent a batch. Batches are processed in order, so the first batch
that is either unreadable or empty decides. A null cursor gives the empty list.
An empty download set throws.

A batch with zero download rows is therefore not skipped. Besides a full list
or an empty list, the pass can also end in that NullPointerException.

## Model

| member | source | states |
|---|---|---|
| MigrationExtractor.CreateDownloadBatchIdFrom | library/src/main/java/com/novoda/downloadmanager/MigrationExtractor.java:93-98 | the id is the file id when it is non-null and non-empty, otherwise the legacy batch id; it is empty only when the file id is absent and the batch id is empty |
| MigrationExtractor.FirstIncomplete | library/src/main/java/com/novoda/downloadmanager/MigrationExtractor.java:41-66 | finds the first batch whose downloads cursor is null or has no rows; every batch before it has a non-null, non-empty download set; `FirstStopIsFirstIncomplete` shows that first stop is unique |
| MigrationExtractor.ExtractMigrations | library/src/main/java/com/novoda/downloadmanager/MigrationExtractor.java:31-91 | the Java traversal, with its lazy builder, null checks and early returns, yields exactly the declarative outcome `Extract` on every input (`Extract` is built from `FirstIncomplete`, `ExpectedMigration` for lines 52-84 and `FileMetadataFor` for lines 68-77); on every exit the batches cursor, opened at most once, and every non-null downloads cursor the pass obtains (one per batch up to the first stop, plus a non-null empty one there, counted by `NonNullCursors`) have been closed, counted per kind of cursor with ghost counters |
| ExtractionProperties.NullBatchesCursorYieldsNothing | library/src/main/java/com/novoda/downloadmanager/MigrationExtractor.java:32-36 | a null batches cursor yields the empty list |
| ExtractionProperties.NullDownloadsCursorDiscardsEverything | library/src/main/java/com/novoda/downloadmanager/MigrationExtractor.java:46-50 | a null downloads cursor for a batch, reached after earlier batches were migrated, yields the empty list and discards those migrations |
| ExtractionProperties.YieldsNothingExactlyOnAbort | library/src/main/java/com/novoda/downloadmanager/MigrationExtractor.java:32-50 | with a readable batches cursor, the empty list comes back if and only if there are no batches or a null downloads cursor is the first stop |
| ExtractionProperties.EmptyDownloadSetThrows | library/src/main/java/com/novoda/downloadmanager/MigrationExtractor.java:52-83 | the pass throws at `build()` if and only if the first stopping batch has a non-null but empty download set, and the failure names that batch |
| ExtractionProperties.AllOrNothing | library/src/main/java/com/novoda/downloadmanager/MigrationExtractor.java:41-87 | a returned list is either empty or holds one migration per batch row, never a partial list |
| ExtractionProperties.AbortDiscardsBuiltMigrations | library/src/main/java/com/novoda/downloadmanager/MigrationExtractor.java:39-50 | when batch k's downloads cursor is null and k is the first batch whose downloads are null or empty, the batches before it would on their own give k migrations, yet the whole pass returns the empty list |
| ExtractionProperties.OneMigrationPerBatch | library/src/main/java/com/novoda/downloadmanager/MigrationExtractor.java:41-87 | the pass returns one migration per batch row if and only if every batch has at least one download row |
| ExtractionProperties.MigrationMirrorsBatchRow | library/src/main/java/com/novoda/downloadmanager/MigrationExtractor.java:41-84 | migration i belongs to batch row i, in row order: same title and timestamp, type COMPLETE, and the id follows the fallback rule applied to the first download row |
| ExtractionProperties.FilesMirrorDownloadRows | library/src/main/java/com/novoda/downloadmanager/MigrationExtractor.java:53-77 | migration i has one metadata entry and one file address per download row, in order; entry j carries row j's file id, location and address, and its size has current == total == the reported size of row j's file |
| ExtractionProperties.BatchIdFromFirstRowOnly | library/src/main/java/com/novoda/downloadmanager/MigrationExtractor.java:61-63 | the batch id depends only on the first download row; later rows never change it |
| ExtractionProperties.RerunOnUnchangedStoreIsEqual | library/src/main/java/com/novoda/downloadmanager/MigrationExtractor.java:41-46 | two runs against a store whose rows are unchanged for the listed batches give structurally equal outcomes |
| ExtractionExamples.BatchIdFallbackExamples | library/src/main/java/com/novoda/downloadmanager/MigrationExtractor.java:93-98 | batch "42": an empty or null file id gives id "42", file id "f-7" gives "f-7" |
| ExtractionExamples.SongPackExample | library/src/main/java/com/novoda/downloadmanager/MigrationExtractor.java:31-91 | one batch with two downloaded files of sizes 100 and 200 becomes one migration named "fid1", with sizes (100,100) and (200,200), timestamp 1000 and type COMPLETE |
| ExtractionExamples.SecondBatchUnreadableExample | library/src/main/java/com/novoda/downloadmanager/MigrationExtractor.java:46-50 | a null downloads cursor on the second of two batches discards the first batch's migration |

## Left out

- `NotificationConfig` is left out. It is a thin wrapper over the Android notification builders and has no migration logic.
- The SQL text and its join, filter and `GROUP BY` semantics are left out. The completed-batches rows are taken as given. The model does not check that they really are the completed batches.
- Android `Cursor` mechanics and `SqlDatabaseWrapper` are left out. A cursor is the finite sequence of rows it would yield, and `isFirst()` is "this is row 0".
- Exceptions thrown by `FilePersistence.getCurrentSize` or by the cursors are left out. The size lookup is a total function. Real file-system behaviour is not modelled.
- Only the file id column is nullable in the model. A NULL batch id, title, address or location is modelled as an ordinary string, because no branch of the pass depends on it.
- The internals of `Batch.Builder`, `DownloadBatchIdCreator`, `LiteFilePath`, `LiteFileSize` and `Migration` are left out. The pass depends only on the values these classes hold, and their code is not among the modelled files, so they are plain immutable records.
- The full `Migration.Type` enumeration is left out. Its code is not among the modelled files, and the pass only ever uses COMPLETE. The model has COMPLETE plus one tag, `Partial`, standing for every other value, so that "type COMPLETE" is a real statement.
