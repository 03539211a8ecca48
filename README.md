# audiobook-tagger chapter generator, modelled in Dafny

`generate_chapters` in `main.py` finds long silences in an audio file and
writes them as FFmpeg chapter metadata. It has two parts:

- **The chunked scan.** The chunk size is given in seconds and converted to
  milliseconds. The recording is then walked in chunks starting at offsets
  0, c, 2c, … while the offset lies before the end. Each chunk is decoded with
  ffmpeg and passed to pydub's `detect_silence`. The chunk-local `(start, end)`
  pairs are shifted by the chunk's offset and appended to one list, in chunk
  order.
- **The metadata writer.** It writes the header `;FFMETADATA1`, then one block
  per silence: `[CHAPTER]`, `TIMEBASE=1/1000`, `START=…`, `END=…` and
  `title=Tag n`, with `n` counting from 1.

The project has five modules:

- `Intervals` (`intervals.dfy`): the interval type, the per-chunk translation
  and the ordering predicates.
- `Decimal` (`decimal.dfy`): how Python's f-strings print an `int`, and a reader
  that is its inverse.
- `Scanner` (`scanner.dfy`): the scan loop (`ScanSilences`), proved against the
  function `Scanned`.
- `FfMetadata` (`ffmetadata.dfy`): the writer loop (`WriteMetadata`), proved
  against `Render`. It also has a reader, `ParseMetadata`, which shows that
  the text gives back every silence.
- `Chapters` (`chapters.dfy`): the whole command, `GenerateChapters`.

The external steps become inputs:

- **Decoding and silence detection.** Decoding one chunk with ffmpeg and
  running `detect_silence` on it (with the fixed minimum length and threshold)
  is a function parameter, `detect(offset, length)`. It returns the chunk's
  silences in chunk-local milliseconds. The model does not assume anything
  about its results, except where a lemma states an assumption in its
  `requires`.
- **Duration.** The duration is an integer number of milliseconds. In the
  source it is a float. Every offset is an integer multiple of the chunk
  length, so `k*c < T` holds exactly when `k*c < ceil(T)`. An integer duration
  equal to the ceiling therefore visits the same chunks.
- **Output.** The file's contents are returned as a string.

The last chunk is requested with the full `chunk_size_ms` even when less of
the recording remains (main.py:64). `Scanner.Local` always passes the full
chunk length, and any truncation at the end of the file happens inside
`detect`.

The scan terminates exactly when the recording is empty or the chunk size is
positive. That is the `requires` of `ScanSilences`. With a positive duration
and a chunk size of 0 or less, the source loops forever.

## Model

| member | source | states |
|---|---|---|
| `Intervals.Shift` | main.py:71 | Shifting an interval by the chunk offset keeps its length, and keeps `start < end` exactly when it held before |
| `Intervals.Translate` | main.py:71 | The per-chunk comprehension yields exactly one interval per chunk-local interval |
| `Intervals.TranslateKeepsLengths` | main.py:71 | Translation keeps each interval's length, and the list has `start < end` throughout after translation exactly when it had before |
| `Intervals.TranslateInverse` | main.py:71 | Translating back by the opposite offset restores the chunk-local list, so translation loses nothing |
| `Intervals.TranslateSorted` | main.py:71 | Translation keeps the list sorted by start, and keeps it non-overlapping, in both directions |
| `Intervals.TranslateWithin` | main.py:71 | A chunk's silences that lie within `[lo, hi]` lie within `[lo + offset, hi + offset]` after translation |
| `Decimal.IntToStringShape` | main.py:82-84 | An integer is printed as a non-empty run of digits with no leading zero (except for zero itself), with a leading `-` exactly when it is negative |
| `Decimal.IntRoundTrip` | main.py:82-84 | The printed decimal text reads back as the same integer, so the START, END and title numbers are exact |
| `Decimal.NatToString` | main.py:82-84 | The digits that `str()` writes for a non-negative int inside the f-strings: a non-empty run of decimal digits, with a leading `0` only for zero itself |
| `Decimal.IntToString` | main.py:82-84 | `str()` of an int inside the f-strings: `-` for a negative value, then the digits of its magnitude (definition; its contract is `Decimal.IntToStringShape`) |
| `Scanner.ChunkStart` | main.py:58-74 | `current_offset` after k passes: 0 at the start (line 58), then one chunk length more per pass (line 74), and never negative for a non-negative chunk length |
| `Scanner.Local` | main.py:64-66 | The chunk with index k is requested at its offset and always with the full chunk length, and its silences are what detection reports for it (definition) |
| `Scanner.Scanned` | main.py:57-72 | The `silences` accumulator after k passes: empty at the start, and each pass extends it by that chunk's silences shifted by its offset (definition; `Scanner.ScannedLength`, `Scanner.ScannedAt` and `Scanner.ScannedOrigin` characterise it) |
| `Scanner.Global` | main.py:71 | `adjusted_silences` on the pass for chunk k: that chunk's silences moved to global time by its offset (definition; `Scanner.ScannedAt` gives its elements) |
| `Scanner.ChunkCount` | main.py:58-74 | The number of chunks is `ceil(total / c)`: `(n-1)*c < total <= n*c` for a non-empty recording, and 0 for an empty one |
| `Scanner.ChunkOffsets` | main.py:58-74 | The offset reached after k steps is `k*c`, and it lies before the end of the recording exactly when `k < ChunkCount` |
| `Scanner.ScanSilences` | main.py:53-74 | The loop converts seconds to milliseconds, visits chunks 0 … ChunkCount-1, requests each at `k*c` with the full chunk length, and returns their translated silences concatenated in chunk order |
| `Scanner.ScannedLength` | main.py:71-72 | The accumulated list holds exactly the sum of the per-chunk counts: nothing is merged or dropped |
| `Scanner.ScannedAt` | main.py:61-74 | The j-th silence of chunk k, shifted by `k*c`, sits at position (silences of earlier chunks) + j: order is kept and nothing is lost |
| `Scanner.ScannedOrigin` | main.py:61-74 | Every accumulated silence is some chunk's detected silence, shifted by that chunk's offset: nothing is invented |
| `Scanner.ScannedWellFormed` | main.py:71-72 | If every chunk reports only intervals with `start < end`, so does the accumulated list |
| `Scanner.ScannedSorted` | main.py:61-74 | If every chunk reports silences sorted by start and within `[0, c]`, the accumulated list is sorted by start and lies within `[0, n*c]` |
| `Scanner.ScannedDisjoint` | main.py:61-74 | If every chunk reports non-overlapping silences within `[0, c]`, the accumulated silences do not overlap |
| `FfMetadata.ChapterBlock` | main.py:80-84 | The five lines written for one silence: `[CHAPTER]`, `TIMEBASE=1/1000`, `START=` and `END=` with its timestamps, and `title=Tag ` with its chapter number (definition) |
| `FfMetadata.Blocks` | main.py:79-84 | The blocks of the `for` loop over `enumerate(silences)`: one block per silence, in list order, with numbers counting up by one (definition; `FfMetadata.BlocksLayout` gives its layout) |
| `FfMetadata.MetadataLines` | main.py:78-84 | The lines of the file: the header `;FFMETADATA1`, then the blocks numbered from 1 (definition; `FfMetadata.MetadataLayout` gives its layout) |
| `FfMetadata.Unlines` | main.py:78-84 | Every `write` ends its line with a newline, so the text is the lines in order, each followed by `\n` (definition) |
| `FfMetadata.Render` | main.py:78 | The metadata text always begins with the header line `;FFMETADATA1` |
| `FfMetadata.WriteMetadata` | main.py:77-84 | The writer loop produces exactly `Render(silences)`: the header, then the five lines of each block, in order |
| `FfMetadata.BlocksLayout` | main.py:79-84 | The blocks are five lines per silence; the block at `5*i` belongs to the i-th silence, numbered `first + i` |
| `FfMetadata.MetadataLayout` | main.py:78-84 | The file has one line plus five per silence: the header, then for the i-th silence the lines `[CHAPTER]`, `TIMEBASE=1/1000`, `START=start`, `END=end`, `title=Tag i+1` |
| `FfMetadata.ChapterCount` | main.py:79-84 | The number of `[CHAPTER]` lines equals the number of silences |
| `FfMetadata.RenderRoundTrip` | main.py:78-84 | Reading the written text back yields exactly the silences it was written from |
| `Chapters.Silences` | main.py:57-74 | The `silences` list once the loop has ended: the accumulated list over `ChunkCount` chunks (definition; `Scanner.ScanSilences` is proved to return it) |
| `Chapters.GenerateChapters` | main.py:51-84 | The command's output is the rendering of the accumulated silences. An empty recording gives the header line alone, and the output reads back as the accumulated silences |
| `Chapters.ChapterPerSilence` | main.py:57-84 | There is one `[CHAPTER]` block per silence found in all chunks together, and block i holds the i-th silence with the title `Tag i+1` |
| `Chapters.BoundarySplit` | main.py:61-74 | One concrete example, not a general rule: with 600000 ms chunks, a detection of 598000-600000 in chunk 0 and 0-5000 in chunk 1 gives the two global intervals 598000-600000 and 600000-605000, unmerged. The general fact that nothing is merged is `Scanner.ScannedAt` with `Scanner.ScannedLength` |

## Left out

- Duration query (`get_audio_duration`, main.py:12-21): it runs `ffprobe` and parses JSON, which is process I/O. Its float conversion to milliseconds is floating point. The duration is an integer input instead (see above for why the ceiling is exact).
- Chunk decoding (`extract_chunk`, main.py:23-37) and `pydub.silence.detect_silence` (main.py:66): external processes and a library whose code is not part of this model, with floating-point loudness measures. Together they are the `detect` parameter. Sortedness, disjointness and bounds of its output are preconditions of `ScannedSorted` and `ScannedDisjoint`, not proved facts.
- Failures of ffprobe or ffmpeg: `subprocess.run` is called without `check=True` (main.py:20, 36), so a non-zero exit status is ignored. A failure raises an exception, which aborts the command before the file is written, only when the program cannot be started (`subprocess.run` at main.py:20 or main.py:36) or its output cannot be used: the JSON at main.py:21, including JSON without `format.duration`, or the decoded audio at main.py:37. Whatever a failed decode still yields is covered, because `detect` is unconstrained. The model has no error path for the exceptions.
- The minimum silence length and the threshold (main.py:43-44): the model passes them only through to detection, so they live inside `detect`.
- Typer CLI wiring and defaults (main.py:10, 39-46, 86-87), logging and wall-clock timing (main.py:48-49, 55, 62, 67-68): no effect on the result.
- Opening and writing the output file (main.py:77): the file's contents are modelled as the returned string.
