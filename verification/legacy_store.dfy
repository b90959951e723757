/** What the extractor reads from its collaborators. The two SQL queries are
    not interpreted: a query's result is the sequence of rows its cursor would
    yield, or `None` when the database hands back a null cursor. The file size
    lookup of `FilePersistence.getCurrentSize` is a total function. */
module LegacyStore {
  import opened Wrappers
  import opened Domain

  /** One row of the completed-batches query: `_id`, `batch_title`,
      `last_modified_timestamp`. */
  datatype BatchRow = BatchRow(batchId: string, batchTitle: string, lastModified: Long)

  /** One row of the downloads-for-batch query: `uri`, `_data` and
      `notificationextras`, the last holding the original file id or NULL. */
  datatype DownloadRow = DownloadRow(networkAddress: string, fileLocation: string, fileId: Option<string>)

  /** The completed-batches query; `None` is a null cursor. */
  type BatchesResult = Option<seq<BatchRow>>

  /** The downloads query, parameterised by the legacy batch id. */
  type DownloadsQuery = string -> Option<seq<DownloadRow>>

  /** `FilePersistence.getCurrentSize`. */
  type SizeOracle = FilePath -> Long
}
