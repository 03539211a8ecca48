/** `generate_chapters` (main.py) as a whole: scan the recording chunk by
    chunk, then write one chapter per detected silence. */
module Chapters {
  import opened Intervals
  import opened Decimal
  import opened Scanner
  import opened FfMetadata

  /** The silences that the scan accumulates for a recording of `totalLength`
      milliseconds scanned in chunks of `chunkSize` seconds. */
  function Silences(detect: Detector, totalLength: int, chunkSize: int): seq<Interval>
    requires totalLength <= 0 || chunkSize > 0
  {
    Scanned(detect, ChunkCount(totalLength, chunkSize * MsPerSecond), chunkSize * MsPerSecond)
  }

  /** The whole command: the metadata text written for the recording. An empty
      recording gives the header line alone, and the text reads back as exactly
      the accumulated silences. */
  method GenerateChapters(detect: Detector, totalLength: int, chunkSize: int) returns (metadata: string)
    requires totalLength <= 0 || chunkSize > 0
    ensures metadata == Render(Silences(detect, totalLength, chunkSize))
    ensures totalLength <= 0 ==> metadata == Header + "\n"
    ensures ParseMetadata(metadata) == Some(Silences(detect, totalLength, chunkSize))
  {
    var silences := ScanSilences(detect, totalLength, chunkSize);
    metadata := WriteMetadata(silences);
    RenderRoundTrip(silences);
    if totalLength <= 0 {
      assert silences == [];
      assert MetadataLines(silences) == [Header];
      UnlinesCons(Header, []);
    }
  }

  /** The i-th chapter block (from 0) holds the i-th accumulated silence and
      the title `Tag i+1`, and there are exactly as many blocks as silences
      found in all chunks together. */
  lemma ChapterPerSilence(detect: Detector, totalLength: int, chunkSize: int)
    requires totalLength <= 0 || chunkSize > 0
    ensures var s := Silences(detect, totalLength, chunkSize);
      && MarkerCount(MetadataLines(s)) == |s|
      && |s| == FoundCount(detect, ChunkCount(totalLength, chunkSize * MsPerSecond), chunkSize * MsPerSecond)
      && |MetadataLines(s)| == 1 + 5 * |s|
      && forall i :: 0 <= i < |s| ==> MetadataLines(s)[1 + 5 * i..6 + 5 * i] == ChapterBlock(s[i], i + 1)
  {
    var s := Silences(detect, totalLength, chunkSize);
    ChapterCount(s);
    MetadataLayout(s);
    ScannedLength(detect, ChunkCount(totalLength, chunkSize * MsPerSecond), chunkSize * MsPerSecond);
  }

  /** A silence that runs across a chunk boundary is reported as two
      intervals, one ending at the boundary and one starting there: the scan
      does not merge them. */
  lemma BoundarySplit(detect: Detector)
    requires detect(0, 600000) == [Interval(598000, 600000)]
    requires detect(600000, 600000) == [Interval(0, 5000)]
    ensures Silences(detect, 1200000, 600) == [Interval(598000, 600000), Interval(600000, 605000)]
  {
    assert ChunkCount(1200000, 600000) == 2;
    assert Local(detect, 0, 600000) == [Interval(598000, 600000)];
    assert Local(detect, 1, 600000) == [Interval(0, 5000)];
    assert Scanned(detect, 1, 600000) == [Interval(598000, 600000)];
  }
}
