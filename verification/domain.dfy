/** The immutable value types the migration produces: the migrated batch and
    its identity, the per-file metadata and its size, and the migration record
    handed to the importer. The Java classes behind them (`Batch`,
    `DownloadBatchId`, `LiteFilePath`, `LiteFileSize`, `Migration`) are plain
    records here; only their observable contents are modelled. */
module Domain {
  import opened Wrappers

  /** Java's `long`: the legacy timestamp and every byte count are 64-bit. */
  type Long = x: int | -0x8000_0000_0000_0000 <= x < 0x8000_0000_0000_0000

  /** Identity of a migrated batch, as `DownloadBatchIdCreator.createFrom`
      wraps a raw string. */
  datatype DownloadBatchId = DownloadBatchId(rawId: string)

  /** `DownloadBatchIdCreator.createFrom`: wraps the raw string unchanged. */
  function CreateFrom(rawId: string): DownloadBatchId
  {
    DownloadBatchId(rawId)
  }

  /** `LiteFilePath`: the location of a file on disk. */
  datatype FilePath = LiteFilePath(path: string)

  /** `LiteFileSize`: bytes present on disk and bytes expected in total. */
  datatype FileSize = FileSize(currentSize: Long, totalSize: Long)

  /** A frozen batch: its identity, its title and one network address per file,
      in the order the files were added. */
  datatype Batch = Batch(downloadBatchId: DownloadBatchId, title: string, fileUrls: seq<string>)

  /** The builder returned by `Batch.with`; `addFile(...).apply()` appends one
      network address, `build()` freezes it. */
  datatype BatchBuilder = BatchBuilder(downloadBatchId: DownloadBatchId, title: string, fileUrls: seq<string>) {

    function AddFile(networkAddress: string): BatchBuilder
    {
      this.(fileUrls := fileUrls + [networkAddress])
    }

    function Build(): Batch
    {
      Batch(downloadBatchId, title, fileUrls)
    }
  }

  /** `Batch.with(downloadBatchId, title)`: a builder with no files yet. */
  function With(downloadBatchId: DownloadBatchId, title: string): BatchBuilder
  {
    BatchBuilder(downloadBatchId, title, [])
  }

  /** `Migration.FileMetadata`: what the legacy store knew about one file.
      The legacy file id is read from a column that may hold NULL. */
  datatype FileMetadata = FileMetadata(
    originalFileId: Option<string>,
    originalFileLocation: string,
    fileSize: FileSize,
    originalNetworkAddress: string)

  /** `Migration.Type`. The extractor only ever produces `Complete`; `Partial`
      stands for every other tag of the enumeration. */
  datatype MigrationType = Complete | Partial

  /** One migrated batch with the metadata of its files, the legacy
      last-modified time in milliseconds and the migration type. */
  datatype Migration = Migration(
    batch: Batch,
    fileMetadata: seq<FileMetadata>,
    downloadedDateTimeInMillis: Long,
    migrationType: MigrationType)
}
