/** Worked examples, proved of `Extract`: the identity fallback on a batch called "42",
    a one-batch store with two downloaded files, and the case of
    a second batch whose downloads cursor is null. */
module ExtractionExamples {
  import opened Wrappers
  import opened Domain
  import opened LegacyStore
  import opened MigrationExtractor

  /** An empty file id falls back to the batch id; a present one wins. */
  lemma BatchIdFallbackExamples()
    ensures CreateDownloadBatchIdFrom(Some(""), "42") == DownloadBatchId("42")
    ensures CreateDownloadBatchIdFrom(None, "42") == DownloadBatchId("42")
    ensures CreateDownloadBatchIdFrom(Some("f-7"), "42") == DownloadBatchId("f-7")
  {
  }

  const songPack := BatchRow("1", "Song Pack", 1000)
  const firstFile := DownloadRow("http://a/f1", "/f1", Some("fid1"))
  const secondFile := DownloadRow("http://a/f2", "/f2", Some(""))

  function SongPackDownloads(batchId: string): Option<seq<DownloadRow>>
  {
    if batchId == "1" then Some([firstFile, secondFile]) else None
  }

  function SongPackSizes(filePath: FilePath): Long
  {
    if filePath.path == "/f1" then 100 else 200
  }

  /** One batch with two fully downloaded files becomes one migration named
      after the first file's id, with sizes (100, 100) and (200, 200). */
  lemma SongPackExample()
    ensures Extract(Some([songPack]), SongPackDownloads, SongPackSizes)
         == Returned([Migration(
              Batch(DownloadBatchId("fid1"), "Song Pack", ["http://a/f1", "http://a/f2"]),
              [FileMetadata(Some("fid1"), "/f1", FileSize(100, 100), "http://a/f1"),
               FileMetadata(Some(""), "/f2", FileSize(200, 200), "http://a/f2")],
              1000,
              Complete)])
  {
    var rows := SongPackDownloads("1").value;
    assert FirstIncomplete([songPack], SongPackDownloads) == 1 by {
      assert HasDownloads(SongPackDownloads(songPack.batchId));
    }
    var m := ExpectedMigration(songPack, rows, SongPackSizes);
    assert m.batch.fileUrls == ["http://a/f1", "http://a/f2"];
    assert m.fileMetadata == [FileMetadataFor(firstFile, SongPackSizes), FileMetadataFor(secondFile, SongPackSizes)];
  }

  const otherBatch := BatchRow("2", "Podcasts", 2000)

  /** The second batch's downloads cursor is null: the migration already
      built for the first batch is discarded. */
  lemma SecondBatchUnreadableExample()
    ensures Extract(Some([songPack, otherBatch]), SongPackDownloads, SongPackSizes) == Returned([])
  {
    assert FirstIncomplete([songPack, otherBatch], SongPackDownloads) == 1 by {
      assert HasDownloads(SongPackDownloads(songPack.batchId));
      assert [songPack, otherBatch][1..] == [otherBatch];
    }
  }
}
