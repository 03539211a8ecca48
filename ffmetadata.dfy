/** The chapter metadata that `generate_chapters` (main.py) writes: FFmpeg's
    `;FFMETADATA1` text format, one `[CHAPTER]` block per silence, with
    millisecond timestamps and the placeholder titles `Tag 1`, `Tag 2`, ...
    `ParseMetadata` reads the text back; the round trip shows that the text
    carries every silence, in order, with its exact timestamps. */
module FfMetadata {
  import opened Intervals
  import opened Decimal

  const Header := ";FFMETADATA1"
  const ChapterMarker := "[CHAPTER]"
  const Timebase := "TIMEBASE=1/1000"
  const StartKey := "START="
  const EndKey := "END="
  const TitleKey := "title=Tag "

  /** The five lines of the block for one silence with chapter number
      `number`, in the order they are written. */
  function ChapterBlock(iv: Interval, number: int): seq<string>
  {
    [ChapterMarker, Timebase, StartKey + IntToString(iv.start), EndKey + IntToString(iv.end),
     TitleKey + IntToString(number)]
  }

  /** The blocks for `s`, numbered from `first` on. */
  function Blocks(s: seq<Interval>, first: int): seq<string>
    decreases |s|
  {
    if s == [] then [] else ChapterBlock(s[0], first) + Blocks(s[1..], first + 1)
  }

  /** All lines of the metadata file: the header, then one block per silence,
      numbered from 1. */
  function MetadataLines(s: seq<Interval>): seq<string>
  {
    [Header] + Blocks(s, 1)
  }

  /** Lines joined as the file holds them, each ended by a newline. */
  function Unlines(lines: seq<string>): string
    decreases |lines|
  {
    if lines == [] then [] else lines[0] + "\n" + Unlines(lines[1..])
  }

  /** The text of the metadata file for the silences `s`. */
  function Render(s: seq<Interval>): (text: string)
    ensures |text| > |Header| && text[..|Header| + 1] == Header + "\n"
  {
    var text := Unlines(MetadataLines(s));
    assert MetadataLines(s)[0] == Header && MetadataLines(s)[1..] == Blocks(s, 1);
    text
  }

  /** The writer of `generate_chapters`: the header line, then for each
      silence, in order, its five lines with the 1-based chapter number. */
  method WriteMetadata(silences: seq<Interval>) returns (text: string)
    ensures text == Render(silences)
  {
    text := Header + "\n";
    ghost var written := [Header];
    UnlinesSnoc([], Header);
    for i := 0 to |silences|
      invariant written == [Header] + Blocks(silences[..i], 1)
      invariant text == Unlines(written)
    {
      var iv := silences[i];
      ghost var before := written;
      text := text + (ChapterMarker + "\n");
      UnlinesSnoc(written, ChapterMarker);
      written := written + [ChapterMarker];
      text := text + (Timebase + "\n");
      UnlinesSnoc(written, Timebase);
      written := written + [Timebase];
      text := text + (StartKey + IntToString(iv.start) + "\n");
      UnlinesSnoc(written, StartKey + IntToString(iv.start));
      written := written + [StartKey + IntToString(iv.start)];
      text := text + (EndKey + IntToString(iv.end) + "\n");
      UnlinesSnoc(written, EndKey + IntToString(iv.end));
      written := written + [EndKey + IntToString(iv.end)];
      text := text + (TitleKey + IntToString(i + 1) + "\n");
      UnlinesSnoc(written, TitleKey + IntToString(i + 1));
      written := written + [TitleKey + IntToString(i + 1)];
      BlockWritten(before, written, silences, i);
    }
    assert silences[..|silences|] == silences;
  }

  /** One pass of the writer's loop adds exactly the lines of the next block. */
  lemma BlockWritten(before: seq<string>, after: seq<string>, s: seq<Interval>, i: nat)
    requires i < |s|
    requires before == [Header] + Blocks(s[..i], 1)
    requires after == before + [ChapterMarker] + [Timebase] + [StartKey + IntToString(s[i].start)]
      + [EndKey + IntToString(s[i].end)] + [TitleKey + IntToString(i + 1)]
    ensures after == [Header] + Blocks(s[..i + 1], 1)
  {
    var block := ChapterBlock(s[i], i + 1);
    AppendFive(before, block[0], block[1], block[2], block[3], block[4]);
    assert block == [block[0], block[1], block[2], block[3], block[4]];
    assert s[..i + 1] == s[..i] + [s[i]];
    BlocksSnoc(s[..i], s[i], 1);
  }

  lemma AppendFive(w: seq<string>, a: string, b: string, c: string, d: string, e: string)
    ensures w + [a] + [b] + [c] + [d] + [e] == w + [a, b, c, d, e]
  {
  }

  lemma UnlinesCons(line: string, rest: seq<string>)
    ensures Unlines([line] + rest) == line + "\n" + Unlines(rest)
  {
    assert ([line] + rest)[0] == line && ([line] + rest)[1..] == rest;
  }

  lemma {:induction false} UnlinesAppend(a: seq<string>, b: seq<string>)
    ensures Unlines(a + b) == Unlines(a) + Unlines(b)
    decreases |a|
  {
    if a == [] {
      assert a + b == b;
    } else {
      assert a + b == [a[0]] + (a[1..] + b);
      UnlinesCons(a[0], a[1..] + b);
      UnlinesAppend(a[1..], b);
      assert a == [a[0]] + a[1..];
      UnlinesCons(a[0], a[1..]);
    }
  }

  /** Writing one more line appends it and its newline to the text. */
  lemma UnlinesSnoc(lines: seq<string>, line: string)
    ensures Unlines(lines + [line]) == Unlines(lines) + (line + "\n")
  {
    UnlinesAppend(lines, [line]);
    UnlinesCons(line, []);
    assert [line] + [] == [line];
  }

  lemma {:induction false} BlocksSnoc(s: seq<Interval>, iv: Interval, first: int)
    ensures Blocks(s + [iv], first) == Blocks(s, first) + ChapterBlock(iv, first + |s|)
    decreases |s|
  {
    if s == [] {
      assert [iv][1..] == [];
      assert Blocks([iv], first) == ChapterBlock(iv, first) + Blocks([], first + 1);
    } else {
      var head := ChapterBlock(s[0], first);
      var tail := Blocks(s[1..], first + 1);
      var last := ChapterBlock(iv, first + |s|);
      assert (s + [iv])[0] == s[0] && (s + [iv])[1..] == s[1..] + [iv];
      assert Blocks(s + [iv], first) == head + Blocks(s[1..] + [iv], first + 1);
      BlocksSnoc(s[1..], iv, first + 1);
      assert Blocks(s[1..] + [iv], first + 1) == tail + last;
      assert head + (tail + last) == (head + tail) + last;
    }
  }

  /** A slice of `a + b` that lies wholly past the end of `a` is the same
      slice of `b`, moved back by `|a|`. */
  lemma SliceAfter(a: seq<string>, b: seq<string>, lo: int, hi: int)
    requires |a| <= lo <= hi <= |a| + |b|
    ensures (a + b)[lo..hi] == b[lo - |a|..hi - |a|]
  {
  }

  /** Layout of the blocks: the block of the i-th silence (from 0) is exactly
      the five lines at 5 * i, numbered `first + i`. */
  lemma {:induction false} BlocksLayout(s: seq<Interval>, first: int)
    ensures |Blocks(s, first)| == 5 * |s|
    ensures forall i :: 0 <= i < |s| ==> Blocks(s, first)[5 * i..5 * i + 5] == ChapterBlock(s[i], first + i)
    decreases |s|
  {
    if s != [] {
      BlocksLayout(s[1..], first + 1);
      var head := ChapterBlock(s[0], first);
      var rest := Blocks(s[1..], first + 1);
      var b := Blocks(s, first);
      assert b == head + rest;
      forall i | 0 <= i < |s| ensures b[5 * i..5 * i + 5] == ChapterBlock(s[i], first + i) {
        if i == 0 {
          assert b[..5] == head;
        } else {
          assert s[1..][i - 1] == s[i];
          SliceAfter(head, rest, 5 * i, 5 * i + 5);
          assert rest[5 * (i - 1)..5 * (i - 1) + 5] == ChapterBlock(s[i], first + i);
        }
      }
    }
  }

  /** Layout of the file: the header line, then for the i-th silence (from 0)
      exactly the five lines of its block, numbered i + 1, in the same order as
      the silences. */
  lemma MetadataLayout(s: seq<Interval>)
    ensures |MetadataLines(s)| == 1 + 5 * |s|
    ensures MetadataLines(s)[0] == Header
    ensures forall i :: 0 <= i < |s| ==> MetadataLines(s)[1 + 5 * i..6 + 5 * i] == ChapterBlock(s[i], i + 1)
  {
    BlocksLayout(s, 1);
    var lines := MetadataLines(s);
    forall i | 0 <= i < |s| ensures lines[1 + 5 * i..6 + 5 * i] == ChapterBlock(s[i], i + 1) {
      assert lines[1 + 5 * i..6 + 5 * i] == Blocks(s, 1)[5 * i..5 * i + 5];
    }
  }

  /** How many lines are a `[CHAPTER]` section marker. */
  function MarkerCount(lines: seq<string>): nat
    decreases |lines|
  {
    if lines == [] then 0 else (if lines[0] == ChapterMarker then 1 else 0) + MarkerCount(lines[1..])
  }

  lemma {:induction false} MarkerCountAppend(a: seq<string>, b: seq<string>)
    ensures MarkerCount(a + b) == MarkerCount(a) + MarkerCount(b)
    decreases |a|
  {
    if a == [] {
      assert a + b == b;
    } else {
      assert (a + b)[0] == a[0] && (a + b)[1..] == a[1..] + b;
      MarkerCountAppend(a[1..], b);
    }
  }

  /** A block holds one section marker: its other lines start with other
      characters. */
  lemma BlockMarkerCount(iv: Interval, number: int)
    ensures MarkerCount(ChapterBlock(iv, number)) == 1
  {
    var b := ChapterBlock(iv, number);
    assert b[4..][1..] == [];
    assert b[4..][0] == b[4] && b[4][0] == TitleKey[0] != ChapterMarker[0];
    assert MarkerCount(b[4..]) == 0;
    assert b[3..][1..] == b[4..] && b[3..][0] == b[3] && b[3][0] == EndKey[0] != ChapterMarker[0];
    assert MarkerCount(b[3..]) == 0;
    assert b[2..][1..] == b[3..] && b[2..][0] == b[2] && b[2][0] == StartKey[0] != ChapterMarker[0];
    assert MarkerCount(b[2..]) == 0;
    assert b[1..][1..] == b[2..] && b[1..][0] == b[1] && b[1][0] != ChapterMarker[0];
    assert MarkerCount(b[1..]) == 0;
  }

  lemma {:induction false} BlocksMarkerCount(s: seq<Interval>, first: int)
    ensures MarkerCount(Blocks(s, first)) == |s|
    decreases |s|
  {
    if s != [] {
      MarkerCountAppend(ChapterBlock(s[0], first), Blocks(s[1..], first + 1));
      BlockMarkerCount(s[0], first);
      BlocksMarkerCount(s[1..], first + 1);
    }
  }

  /** The file holds exactly one `[CHAPTER]` block per silence. */
  lemma ChapterCount(s: seq<Interval>)
    ensures MarkerCount(MetadataLines(s)) == |s|
  {
    MarkerCountAppend([Header], Blocks(s, 1));
    BlocksMarkerCount(s, 1);
    assert [Header][1..] == [];
  }

  // ---------------------------------------------------------------------
  // Reading the file back

  /** Length of the first line of `t`, up to the first newline or the end. */
  function LineEnd(t: string): (i: nat)
    ensures i <= |t|
    decreases |t|
  {
    if t == [] || t[0] == '\n' then 0 else 1 + LineEnd(t[1..])
  }

  /** The lines of `t`, each without its terminating newline. */
  function SplitLines(t: string): seq<string>
    decreases |t|
  {
    if t == [] then []
    else
      var i := LineEnd(t);
      [t[..i]] + SplitLines(if i < |t| then t[i + 1..] else [])
  }

  predicate NoNewline(line: string)
  {
    forall k :: 0 <= k < |line| ==> line[k] != '\n'
  }

  /** The value after `key` on `line`, if the line starts with `key`. */
  function Field(key: string, line: string): Option<int>
  {
    if |key| <= |line| && line[..|key|] == key then ParseInt(line[|key|..]) else None
  }

  /** Reads a sequence of blocks numbered from `number` on. */
  function ParseBlocks(lines: seq<string>, number: int): Option<seq<Interval>>
    decreases |lines|
  {
    if lines == [] then Some([])
    else if |lines| < 5 || lines[0] != ChapterMarker || lines[1] != Timebase
         || lines[4] != TitleKey + IntToString(number) then None
    else
      match (Field(StartKey, lines[2]), Field(EndKey, lines[3]), ParseBlocks(lines[5..], number + 1))
      case (Some(start), Some(end), Some(rest)) => Some([Interval(start, end)] + rest)
      case _ => None
  }

  /** Reads a metadata file: the header line, then the blocks from 1 on. */
  function ParseMetadata(text: string): Option<seq<Interval>>
  {
    var lines := SplitLines(text);
    if |lines| > 0 && lines[0] == Header then ParseBlocks(lines[1..], 1) else None
  }

  lemma {:induction false} LineEndAt(line: string, rest: string)
    requires NoNewline(line)
    ensures LineEnd(line + "\n" + rest) == |line|
    decreases |line|
  {
    if line != [] {
      assert (line + "\n" + rest)[1..] == line[1..] + "\n" + rest;
      LineEndAt(line[1..], rest);
    }
  }

  /** Splitting the joined lines gives them back when none holds a newline. */
  lemma {:induction false} SplitUnlines(lines: seq<string>)
    requires forall k :: 0 <= k < |lines| ==> NoNewline(lines[k])
    ensures SplitLines(Unlines(lines)) == lines
    decreases |lines|
  {
    if lines != [] {
      var t := Unlines(lines);
      var rest := Unlines(lines[1..]);
      assert t == lines[0] + "\n" + rest;
      LineEndAt(lines[0], rest);
      assert t[..|lines[0]|] == lines[0];
      assert t[|lines[0]| + 1..] == rest;
      SplitUnlines(lines[1..]);
    }
  }

  lemma IntTextNoNewline(key: string, i: int)
    requires NoNewline(key)
    ensures NoNewline(key + IntToString(i))
  {
    var digits := IntToString(i);
    IntToStringShape(i);
    var s := key + digits;
    forall k | 0 <= k < |s| ensures s[k] != '\n' {
      if k >= |key| {
        assert s[k] == digits[k - |key|];
        if i < 0 && k > |key| {
          assert digits[k - |key|] == digits[1..][k - |key| - 1];
        }
      }
    }
  }

  lemma FieldRoundTrip(key: string, i: int)
    ensures Field(key, key + IntToString(i)) == Some(i)
  {
    var line := key + IntToString(i);
    assert line[..|key|] == key && line[|key|..] == IntToString(i);
    IntRoundTrip(i);
  }

  /** Reading one written block gives back its silence; the rest is read on
      with the next number. */
  lemma ParseBlock(iv: Interval, number: int, rest: seq<string>)
    ensures ParseBlocks(ChapterBlock(iv, number) + rest, number)
         == match ParseBlocks(rest, number + 1)
            case Some(more) => Some([iv] + more)
            case None => None
  {
    var lines := ChapterBlock(iv, number) + rest;
    assert lines[5..] == rest;
    FieldRoundTrip(StartKey, iv.start);
    FieldRoundTrip(EndKey, iv.end);
  }

  lemma {:induction false} BlocksRoundTrip(s: seq<Interval>, first: int)
    ensures ParseBlocks(Blocks(s, first), first) == Some(s)
    decreases |s|
  {
    if s != [] {
      ParseBlock(s[0], first, Blocks(s[1..], first + 1));
      BlocksRoundTrip(s[1..], first + 1);
      assert [s[0]] + s[1..] == s;
    }
  }

  lemma {:induction false} BlocksNoNewline(s: seq<Interval>, first: int)
    ensures forall k :: 0 <= k < |Blocks(s, first)| ==> NoNewline(Blocks(s, first)[k])
    decreases |s|
  {
    if s != [] {
      BlocksNoNewline(s[1..], first + 1);
      IntTextNoNewline(StartKey, s[0].start);
      IntTextNoNewline(EndKey, s[0].end);
      IntTextNoNewline(TitleKey, first);
      var b := ChapterBlock(s[0], first);
      var rest := Blocks(s[1..], first + 1);
      forall k | 0 <= k < |b + rest| ensures NoNewline((b + rest)[k]) {
        if k >= |b| { assert (b + rest)[k] == rest[k - |b|]; }
      }
    }
  }

  /** Reading the written file back yields exactly the silences it was written
      from: every START and END value is kept, in order, with nothing added or
      lost. */
  lemma RenderRoundTrip(s: seq<Interval>)
    ensures ParseMetadata(Render(s)) == Some(s)
  {
    BlocksNoNewline(s, 1);
    var lines := MetadataLines(s);
    forall k | 0 <= k < |lines| ensures NoNewline(lines[k]) {
      if k > 0 { assert lines[k] == Blocks(s, 1)[k - 1]; }
    }
    SplitUnlines(lines);
    assert lines[1..] == Blocks(s, 1);
    BlocksRoundTrip(s, 1);
  }
}
