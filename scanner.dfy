/** The chunked scan of `generate_chapters` (main.py): walk the recording in
    fixed chunks, detect the silences of each chunk, move them to global time
    and append them to one list in chunk order. */
module Scanner {
  import opened Intervals

  /** Decoding one chunk with ffmpeg and running pydub's silence detection on
      it (with the fixed minimum length and threshold): given the chunk's start
      offset and the requested length, both in milliseconds, the silences of
      that chunk in chunk-local milliseconds. */
  type Detector = (int, int) -> seq<Interval>

  const MsPerSecond := 1000

  /** The offset of the chunk with index `k`: `k` chunk lengths into the
      recording, as the loop reaches it by repeated addition. */
  function ChunkStart(k: nat, chunkMs: int): (offset: int)
    ensures chunkMs >= 0 ==> offset >= 0
    decreases k
  {
    if k == 0 then 0 else ChunkStart(k - 1, chunkMs) + chunkMs
  }

  lemma {:induction false} ChunkStartProduct(k: nat, chunkMs: int)
    ensures ChunkStart(k, chunkMs) == k * chunkMs
    decreases k
  {
    if k > 0 {
      ChunkStartProduct(k - 1, chunkMs);
    }
  }

  /** The number of chunks of `chunkMs` milliseconds that the scan starts
      before the end of a recording of `total` milliseconds:
      ceil(total / chunkMs), and none for an empty recording. */
  function ChunkCount(total: int, chunkMs: int): (n: nat)
    requires chunkMs > 0 || total <= 0
    ensures total <= 0 ==> n == 0
    ensures total > 0 ==> (n - 1) * chunkMs < total <= n * chunkMs
  {
    if total <= 0 then 0
    else
      var n := (total + chunkMs - 1) / chunkMs;
      var rem := (total + chunkMs - 1) % chunkMs;
      assert n * chunkMs + rem == total + chunkMs - 1 && 0 <= rem < chunkMs;
      n
  }

  lemma MulMonotone(a: int, b: int, c: int)
    requires a <= b && c >= 0
    ensures a * c <= b * c
  {
  }

  /** The offsets the scan visits are exactly the multiples k * chunkMs that
      lie before the end of the recording. */
  lemma ChunkOffsets(total: int, chunkMs: int, k: nat)
    requires chunkMs > 0
    ensures ChunkStart(k, chunkMs) == k * chunkMs
    ensures ChunkStart(k, chunkMs) < total <==> k < ChunkCount(total, chunkMs)
  {
    ChunkStartProduct(k, chunkMs);
    var n := ChunkCount(total, chunkMs);
    if total > 0 {
      if k < n {
        MulMonotone(k, n - 1, chunkMs);
      } else {
        MulMonotone(n, k, chunkMs);
      }
    }
  }

  /** The chunk-local silences of the chunk with index `k`: it is requested at
      the chunk's offset and always with the full chunk length. */
  function Local(detect: Detector, k: nat, chunkMs: int): seq<Interval>
  {
    detect(ChunkStart(k, chunkMs), chunkMs)
  }

  /** The silences of chunk `k` in global time. */
  function Global(detect: Detector, k: nat, chunkMs: int): seq<Interval>
  {
    Translate(Local(detect, k, chunkMs), ChunkStart(k, chunkMs))
  }

  /** The accumulated list after the first `n` chunks: each chunk's silences,
      translated by the chunk's offset, appended in chunk order. */
  function Scanned(detect: Detector, n: nat, chunkMs: int): seq<Interval>
    decreases n
  {
    if n == 0 then [] else Scanned(detect, n - 1, chunkMs) + Global(detect, n - 1, chunkMs)
  }

  /** The number of silences detected in the first `n` chunks together. */
  function FoundCount(detect: Detector, n: nat, chunkMs: int): nat
    decreases n
  {
    if n == 0 then 0 else FoundCount(detect, n - 1, chunkMs) + |Local(detect, n - 1, chunkMs)|
  }

  /** The loop of `generate_chapters`: converts the chunk size from seconds to
      milliseconds, visits the offsets 0, c, 2c, ... while they lie before the
      end, and returns the accumulated silences. */
  method ScanSilences(detect: Detector, totalLength: int, chunkSize: int) returns (silences: seq<Interval>)
    requires totalLength <= 0 || chunkSize > 0
    ensures silences == Scanned(detect, ChunkCount(totalLength, chunkSize * MsPerSecond), chunkSize * MsPerSecond)
  {
    var chunkSizeMs := chunkSize * MsPerSecond;
    silences := [];
    var currentOffset := 0;
    ghost var k: nat := 0;
    ghost var n := ChunkCount(totalLength, chunkSizeMs);
    while currentOffset < totalLength
      invariant currentOffset == ChunkStart(k, chunkSizeMs)
      invariant k <= n
      invariant silences == Scanned(detect, k, chunkSizeMs)
      decreases totalLength - currentOffset
    {
      ChunkOffsets(totalLength, chunkSizeMs, k);
      var chunkSilences := detect(currentOffset, chunkSizeMs);
      var adjustedSilences := Translate(chunkSilences, currentOffset);
      silences := silences + adjustedSilences;
      currentOffset := currentOffset + chunkSizeMs;
      k := k + 1;
    }
    if totalLength > 0 {
      ChunkOffsets(totalLength, chunkSizeMs, k);
    }
  }

  /** Nothing is merged or dropped: the list holds exactly as many silences as
      the chunks reported together. */
  lemma {:induction false} ScannedLength(detect: Detector, n: nat, chunkMs: int)
    ensures |Scanned(detect, n, chunkMs)| == FoundCount(detect, n, chunkMs)
    decreases n
  {
    if n > 0 {
      ScannedLength(detect, n - 1, chunkMs);
    }
  }

  /** The j-th silence of chunk k sits, translated by the chunk's offset, right
      after the silences of all earlier chunks: order is kept and nothing is
      lost. */
  lemma {:induction false} ScannedAt(detect: Detector, n: nat, chunkMs: int, k: nat, j: nat)
    requires k < n && j < |Local(detect, k, chunkMs)|
    ensures FoundCount(detect, k, chunkMs) + j < |Scanned(detect, n, chunkMs)|
    ensures Scanned(detect, n, chunkMs)[FoundCount(detect, k, chunkMs) + j]
         == Shift(Local(detect, k, chunkMs)[j], ChunkStart(k, chunkMs))
    decreases n
  {
    var before := Scanned(detect, n - 1, chunkMs);
    var last := Global(detect, n - 1, chunkMs);
    ScannedLength(detect, n - 1, chunkMs);
    var p := FoundCount(detect, k, chunkMs) + j;
    if k < n - 1 {
      ScannedAt(detect, n - 1, chunkMs, k, j);
      IndexAppend(before, last, p);
    } else {
      IndexAppend(before, last, p);
      TranslateAt(Local(detect, k, chunkMs), ChunkStart(k, chunkMs), j);
    }
  }

  /** Conversely, every accumulated silence comes from some chunk's detected
      silence, translated by that chunk's offset. */
  lemma {:induction false} ScannedOrigin(detect: Detector, n: nat, chunkMs: int, p: nat)
    requires p < |Scanned(detect, n, chunkMs)|
    ensures exists k: nat, j: nat ::
              && k < n && j < |Local(detect, k, chunkMs)|
              && p == FoundCount(detect, k, chunkMs) + j
              && Scanned(detect, n, chunkMs)[p] == Shift(Local(detect, k, chunkMs)[j], ChunkStart(k, chunkMs))
    decreases n
  {
    var before := Scanned(detect, n - 1, chunkMs);
    var last := Global(detect, n - 1, chunkMs);
    ScannedLength(detect, n - 1, chunkMs);
    IndexAppend(before, last, p);
    if p < |before| {
      ScannedOrigin(detect, n - 1, chunkMs, p);
    } else {
      TranslateAt(Local(detect, n - 1, chunkMs), ChunkStart(n - 1, chunkMs), p - |before|);
    }
  }

  /** Every detected silence keeps `start < end` after translation. */
  lemma {:induction false} ScannedWellFormed(detect: Detector, n: nat, chunkMs: int)
    requires forall k: nat :: k < n ==> WellFormed(Local(detect, k, chunkMs))
    ensures WellFormed(Scanned(detect, n, chunkMs))
    decreases n
  {
    if n > 0 {
      ScannedWellFormed(detect, n - 1, chunkMs);
      var before := Scanned(detect, n - 1, chunkMs);
      var last := Global(detect, n - 1, chunkMs);
      assert WellFormed(Local(detect, n - 1, chunkMs));
      TranslateKeepsLengths(Local(detect, n - 1, chunkMs), ChunkStart(n - 1, chunkMs));
      AppendWellFormed(before, last);
    }
  }

  /** When every chunk reports its silences sorted and inside the chunk, the
      accumulated list is sorted by start and lies inside the scanned span,
      because chunks are appended in increasing offset order. */
  lemma {:induction false} ScannedSorted(detect: Detector, n: nat, chunkMs: int)
    requires chunkMs > 0
    requires forall k: nat :: k < n ==>
      SortedByStart(Local(detect, k, chunkMs)) && Within(Local(detect, k, chunkMs), 0, chunkMs)
    ensures SortedByStart(Scanned(detect, n, chunkMs)) && Within(Scanned(detect, n, chunkMs), 0, ChunkStart(n, chunkMs))
    decreases n
  {
    if n > 0 {
      ScannedSorted(detect, n - 1, chunkMs);
      var off := ChunkStart(n - 1, chunkMs);
      var local := Local(detect, n - 1, chunkMs);
      assert SortedByStart(local) && Within(local, 0, chunkMs);
      TranslateSorted(local, off);
      TranslateWithin(local, off, 0, chunkMs);
      AppendSorted(Scanned(detect, n - 1, chunkMs), Global(detect, n - 1, chunkMs), 0, off, off + chunkMs);
    }
  }

  /** When every chunk reports disjoint silences inside the chunk, the
      accumulated silences do not overlap either. */
  lemma {:induction false} ScannedDisjoint(detect: Detector, n: nat, chunkMs: int)
    requires chunkMs > 0
    requires forall k: nat :: k < n ==>
      Disjoint(Local(detect, k, chunkMs)) && Within(Local(detect, k, chunkMs), 0, chunkMs)
    ensures Disjoint(Scanned(detect, n, chunkMs)) && Within(Scanned(detect, n, chunkMs), 0, ChunkStart(n, chunkMs))
    decreases n
  {
    if n > 0 {
      ScannedDisjoint(detect, n - 1, chunkMs);
      var off := ChunkStart(n - 1, chunkMs);
      var local := Local(detect, n - 1, chunkMs);
      assert Disjoint(local) && Within(local, 0, chunkMs);
      TranslateSorted(local, off);
      TranslateWithin(local, off, 0, chunkMs);
      AppendDisjoint(Scanned(detect, n - 1, chunkMs), Global(detect, n - 1, chunkMs), 0, off, off + chunkMs);
    }
  }
}
