/**
 * generate_vtt_file (app.py:38-60): serialises a transcript into a WebVTT
 * file. Each segment's text is stripped and simplified once; a segment whose
 * simplified text is empty is skipped; a segment longer than the chunking
 * ceiling is cut into consecutive cues of that length, the last one clipped to
 * the segment's end; every other segment becomes one cue.
 *
 * Times are whole milliseconds.
 */
module Vtt {
  import opened Wrappers
  import opened Timestamp
  import opened Lyrics

  /** One element of the transcript's "segments" list. */
  datatype Segment = Segment(start: nat, end: nat, text: string)

  /** The transcript; `segments` is None when the "segments" key is missing. */
  datatype Transcript = Transcript(segments: Option<seq<Segment>>)

  /** One timed entry of the cue file. */
  datatype Cue = Cue(start: nat, end: nat, text: string)

  const Header := "WEBVTT\n\n"
  const Arrow := " --> "

  /** The default chunking ceiling, 10.0 seconds (app.py:38). */
  const DefaultMaxDuration: nat := 10_000

  // ---------------------------------------------------------------------------
  // Specification

  /** `transcript.get("segments", [])` (app.py:40). */
  function SegmentsOf(t: Transcript): seq<Segment> {
    match t.segments
    case None => []
    case Some(s) => s
  }

  /** The text of one cue block: timing line, text line, blank line. */
  function CueBlock(c: Cue): string {
    FormatTimestamp(c.start) + Arrow + FormatTimestamp(c.end) + "\n" + c.text + "\n\n"
  }

  /** The blocks of a sequence of cues, in order. */
  function Blocks(cues: seq<Cue>): string {
    if cues == [] then "" else CueBlock(cues[0]) + Blocks(cues[1..])
  }

  /**
   * The cues the `while` loop of app.py:50-55 emits from `current` on: one
   * cue per step of `maxDuration`, each ending at the next step or at `end`.
   */
  function Chunks(current: nat, end: nat, maxDuration: nat, text: string): seq<Cue>
    requires maxDuration > 0
    decreases end - current
  {
    if current < end then
      [Cue(current, Min(current + maxDuration, end), text)] + Chunks(current + maxDuration, end, maxDuration, text)
    else []
  }

  /** The cues of one segment (app.py:42-59). */
  function SegmentCues(s: Segment, maxDuration: nat): seq<Cue>
    requires maxDuration > 0
  {
    var text := Simplify(Strip(s.text));
    if text == "" then []
    else if s.end - s.start > maxDuration then Chunks(s.start, s.end, maxDuration, text)
    else [Cue(s.start, s.end, text)]
  }

  /** The cues of a list of segments, segment by segment. */
  function Cues(segments: seq<Segment>, maxDuration: nat): seq<Cue>
    requires maxDuration > 0
  {
    if segments == [] then [] else SegmentCues(segments[0], maxDuration) + Cues(segments[1..], maxDuration)
  }

  /** The whole cue file generate_vtt_file returns. */
  function Render(t: Transcript, maxDuration: nat): string
    requires maxDuration > 0
  {
    Header + Blocks(Cues(SegmentsOf(t), maxDuration))
  }

  // ---------------------------------------------------------------------------
  // The operation

  /**
   * generate_vtt_file. The ceiling must be positive: with a ceiling of zero or
   * less the chunking loop of the source never ends.
   */
  method GenerateVttFile(transcript: Transcript, maxDuration: nat) returns (vtt: string)
    requires maxDuration > 0
    ensures vtt == Render(transcript, maxDuration)
    ensures |vtt| >= |Header| && vtt[..|Header|] == Header
  {
    vtt := Header;
    var segments := SegmentsOf(transcript);
    ghost var emitted: seq<Cue> := [];
    for i := 0 to |segments|
      invariant vtt == Header + Blocks(emitted)
      invariant emitted == Cues(segments[..i], maxDuration)
    {
      var segment := segments[i];
      var start, end := segment.start, segment.end;
      var text := Simplify(Strip(segment.text));
      ghost var cues := SegmentCues(segment, maxDuration);
      ghost var before := vtt;
      if text == "" {
        assert cues == [];
        assert vtt == before + Blocks(cues);
      } else if end - start > maxDuration {
        vtt := AppendChunks(vtt, start, end, maxDuration, text);
      } else {
        var block := FormatTimestamp(start) + Arrow + FormatTimestamp(end) + "\n" + text + "\n\n";
        SingleBlock(Cue(start, end, text));
        vtt := vtt + block;
      }
      CuesSnoc(segments, i, maxDuration);
      BlocksAppend(emitted, cues);
      AppendAssoc(Header, Blocks(emitted), Blocks(cues));
      emitted := emitted + cues;
    }
    assert segments[..|segments|] == segments;
  }

  /**
   * The chunking loop of app.py:48-55: appends one block per step of
   * `maxDuration` from `start`, each ending at the next step or at `end`.
   */
  method AppendChunks(vtt0: string, start: nat, end: nat, maxDuration: nat, text: string) returns (vtt: string)
    requires maxDuration > 0
    ensures vtt == vtt0 + Blocks(Chunks(start, end, maxDuration, text))
  {
    vtt := vtt0;
    var current := start;
    ghost var emitted: seq<Cue> := [];
    while current < end
      invariant vtt == vtt0 + Blocks(emitted)
      invariant emitted + Chunks(current, end, maxDuration, text) == Chunks(start, end, maxDuration, text)
      decreases end - current
    {
      var chunkEnd := Min(current + maxDuration, end);
      var block := FormatTimestamp(current) + Arrow + FormatTimestamp(chunkEnd) + "\n" + text + "\n\n";
      ghost var cue := Cue(current, chunkEnd, text);
      ChunksUncons(emitted, current, end, maxDuration, text);
      BlocksSnoc(emitted, cue);
      AppendAssoc(vtt0, Blocks(emitted), block);
      vtt := vtt + block;
      emitted := emitted + [cue];
      current := current + maxDuration;
    }
    assert emitted + [] == emitted;
  }

  // ---------------------------------------------------------------------------
  // Lemmas

  /** Serialising concatenated cue lists concatenates their blocks. */
  lemma {:induction false} BlocksAppend(a: seq<Cue>, b: seq<Cue>)
    ensures Blocks(a + b) == Blocks(a) + Blocks(b)
  {
    if a == [] {
      assert a + b == b;
    } else {
      assert (a + b)[1..] == a[1..] + b;
      BlocksAppend(a[1..], b);
    }
  }

  /** The cues of concatenated segment lists are the concatenated cues: segment order is kept. */
  lemma {:induction false} CuesAppend(a: seq<Segment>, b: seq<Segment>, maxDuration: nat)
    requires maxDuration > 0
    ensures Cues(a + b, maxDuration) == Cues(a, maxDuration) + Cues(b, maxDuration)
  {
    if a == [] {
      assert a + b == b;
    } else {
      assert (a + b)[1..] == a[1..] + b;
      CuesAppend(a[1..], b, maxDuration);
    }
  }

  /** One step of AppendChunks: the next chunk moves from the pending cues to the emitted ones. */
  lemma ChunksUncons(emitted: seq<Cue>, current: nat, end: nat, maxDuration: nat, text: string)
    requires maxDuration > 0 && current < end
    ensures (emitted + [Cue(current, Min(current + maxDuration, end), text)])
            + Chunks(current + maxDuration, end, maxDuration, text)
         == emitted + Chunks(current, end, maxDuration, text)
  {
    var c := Cue(current, Min(current + maxDuration, end), text);
    var rest := Chunks(current + maxDuration, end, maxDuration, text);
    assert Chunks(current, end, maxDuration, text) == [c] + rest;
    assert (emitted + [c]) + rest == emitted + ([c] + rest);
  }

  /** Emitting one more cue appends its block. */
  lemma BlocksSnoc(cues: seq<Cue>, c: Cue)
    ensures Blocks(cues + [c])
         == Blocks(cues) + (FormatTimestamp(c.start) + Arrow + FormatTimestamp(c.end) + "\n" + c.text + "\n\n")
  {
    BlocksAppend(cues, [c]);
    SingleBlock(c);
  }

  /** The cues of one more segment come after the cues of the segments before it. */
  lemma CuesSnoc(segments: seq<Segment>, i: nat, maxDuration: nat)
    requires i < |segments| && maxDuration > 0
    ensures Cues(segments[..i + 1], maxDuration)
         == Cues(segments[..i], maxDuration) + SegmentCues(segments[i], maxDuration)
  {
    assert segments[..i + 1] == segments[..i] + [segments[i]];
    CuesAppend(segments[..i], [segments[i]], maxDuration);
    assert Cues([segments[i]], maxDuration) == SegmentCues(segments[i], maxDuration) + Cues([], maxDuration);
    assert SegmentCues(segments[i], maxDuration) + [] == SegmentCues(segments[i], maxDuration);
  }

  lemma SingleBlock(c: Cue)
    ensures Blocks([c]) == CueBlock(c)
  {
    assert [c][1..] == [];
  }

  lemma AppendAssoc(a: string, b: string, c: string)
    ensures (a + b) + c == a + (b + c)
  {
  }

  // ---------------------------------------------------------------------------
  // Properties of the chunking

  /** The k-th chunk starts k ceilings after `current` and ends one ceiling later or at `end`. */
  lemma {:induction false} ChunkAt(current: nat, end: nat, maxDuration: nat, text: string, k: nat)
    requires maxDuration > 0 && k < |Chunks(current, end, maxDuration, text)|
    ensures Chunks(current, end, maxDuration, text)[k]
         == Cue(current + k * maxDuration, Min(current + (k + 1) * maxDuration, end), text)
    decreases k
  {
    if k > 0 {
      var rest := Chunks(current + maxDuration, end, maxDuration, text);
      assert Chunks(current, end, maxDuration, text)[k] == rest[k - 1];
      ChunkAt(current + maxDuration, end, maxDuration, text, k - 1);
      assert current + maxDuration + (k - 1) * maxDuration == current + k * maxDuration;
      assert current + maxDuration + k * maxDuration == current + (k + 1) * maxDuration;
    }
  }

  /**
   * A non-empty span gives the fewest chunks that reach its end: n chunks with
   * n - 1 ceilings falling short of the span and n ceilings covering it; a span
   * longer than one ceiling gives at least two.
   */
  lemma {:induction false} ChunkCount(current: nat, end: nat, maxDuration: nat, text: string)
    requires maxDuration > 0 && current < end
    ensures var n := |Chunks(current, end, maxDuration, text)|;
      && n >= 1
      && (n - 1) * maxDuration < end - current <= n * maxDuration
      && (end - current > maxDuration ==> n >= 2)
    decreases end - current
  {
    var n := |Chunks(current, end, maxDuration, text)|;
    var rest := Chunks(current + maxDuration, end, maxDuration, text);
    assert n == |rest| + 1;
    if current + maxDuration < end {
      ChunkCount(current + maxDuration, end, maxDuration, text);
      assert (n - 1) * maxDuration == |rest| * maxDuration;
      assert n * maxDuration == |rest| * maxDuration + maxDuration;
    } else {
      assert rest == [];
    }
  }

  /**
   * The chunks of a non-empty span tile it: the first starts at `current`, each
   * ends where the next starts, the last ends at `end`, every chunk is non-empty
   * and at most one ceiling long, and all carry the same text.
   */
  lemma {:induction false} ChunksTile(current: nat, end: nat, maxDuration: nat, text: string)
    requires maxDuration > 0 && current < end
    ensures var cs := Chunks(current, end, maxDuration, text);
      && cs != []
      && cs[0].start == current
      && cs[|cs| - 1].end == end
      && (forall k :: 0 <= k < |cs| - 1 ==> cs[k].end == cs[k + 1].start)
      && (forall k :: 0 <= k < |cs| ==> cs[k].start < cs[k].end <= cs[k].start + maxDuration && cs[k].text == text)
    decreases end - current
  {
    var cs := Chunks(current, end, maxDuration, text);
    var rest := Chunks(current + maxDuration, end, maxDuration, text);
    assert cs == [cs[0]] + rest;
    if current + maxDuration < end {
      ChunksTile(current + maxDuration, end, maxDuration, text);
      forall k | 0 <= k < |cs| - 1
        ensures cs[k].end == cs[k + 1].start
      {
        if k > 0 {
          assert cs[k] == rest[k - 1] && cs[k + 1] == rest[k];
        }
      }
      forall k | 0 <= k < |cs|
        ensures cs[k].start < cs[k].end <= cs[k].start + maxDuration && cs[k].text == text
      {
        if k > 0 {
          assert cs[k] == rest[k - 1];
        }
      }
    } else {
      assert rest == [];
    }
  }

  // ---------------------------------------------------------------------------
  // Properties of the cue list

  /**
   * One segment's cues: none exactly when its simplified text is empty; otherwise
   * they run from the segment's start to its end, and each carries the
   * simplified text and lasts at most one ceiling. A segment within the ceiling
   * gives the one cue with its own times, even when its end is not after its start.
   */
  lemma SegmentCuesShape(s: Segment, maxDuration: nat)
    requires maxDuration > 0
    ensures var text, cs := Simplify(Strip(s.text)), SegmentCues(s, maxDuration);
      && (cs == [] <==> text == "")
      && (cs != [] ==> cs[0].start == s.start && cs[|cs| - 1].end == s.end)
      && (forall k :: 0 <= k < |cs| ==> cs[k].text == text && cs[k].end <= cs[k].start + maxDuration)
      && (text != "" && s.end - s.start <= maxDuration ==> cs == [Cue(s.start, s.end, text)])
      && (text != "" && s.end - s.start > maxDuration ==> |cs| >= 2)
  {
    var text := Simplify(Strip(s.text));
    if text != "" && s.end - s.start > maxDuration {
      ChunksTile(s.start, s.end, maxDuration, text);
      ChunkCount(s.start, s.end, maxDuration, text);
    }
  }

  /** Every cue of the file has non-empty text of at most 40 characters and lasts at most one ceiling. */
  lemma {:induction false} CuesBounded(segments: seq<Segment>, maxDuration: nat)
    requires maxDuration > 0
    ensures AllBounded(Cues(segments, maxDuration), maxDuration)
  {
    if segments != [] {
      var first := SegmentCues(segments[0], maxDuration);
      var rest := Cues(segments[1..], maxDuration);
      SegmentCuesBounded(segments[0], maxDuration);
      CuesBounded(segments[1..], maxDuration);
      BoundedAppend(first, rest, maxDuration);
    }
  }

  lemma BoundedAppend(a: seq<Cue>, b: seq<Cue>, maxDuration: nat)
    requires AllBounded(a, maxDuration) && AllBounded(b, maxDuration)
    ensures AllBounded(a + b, maxDuration)
  {
  }

  /** A cue as the file promises it: visible text of at most 40 characters, lasting at most one ceiling. */
  predicate CueBounded(c: Cue, maxDuration: nat) {
    c.text != "" && |c.text| <= MaxLength && c.end <= c.start + maxDuration
  }

  predicate AllBounded(cs: seq<Cue>, maxDuration: nat) {
    forall k :: 0 <= k < |cs| ==> CueBounded(cs[k], maxDuration)
  }

  lemma SegmentCuesBounded(s: Segment, maxDuration: nat)
    requires maxDuration > 0
    ensures AllBounded(SegmentCues(s, maxDuration), maxDuration)
  {
    var text := Simplify(Strip(s.text));
    assert |text| <= MaxLength;
    SegmentCuesShape(s, maxDuration);
  }

  /**
   * What one segment adds to the file: nothing when its simplified text is
   * empty, and exactly one block with its own times when it is within the ceiling.
   */
  lemma SegmentBlocks(s: Segment, maxDuration: nat)
    requires maxDuration > 0
    ensures var text := Simplify(Strip(s.text));
      && (text == "" ==> Blocks(SegmentCues(s, maxDuration)) == "")
      && (text != "" && s.end - s.start <= maxDuration ==>
            Blocks(SegmentCues(s, maxDuration))
            == FormatTimestamp(s.start) + " --> " + FormatTimestamp(s.end) + "\n" + text + "\n\n")
  {
    SingleBlock(Cue(s.start, s.end, Simplify(Strip(s.text))));
  }

  /** The file of the segments `a + b` is the file of `a` followed by the blocks of `b`: segments keep their order. */
  lemma RenderAppend(a: seq<Segment>, b: seq<Segment>, maxDuration: nat)
    requires maxDuration > 0
    ensures Render(Transcript(Some(a + b)), maxDuration)
         == Render(Transcript(Some(a)), maxDuration) + Blocks(Cues(b, maxDuration))
  {
    CuesAppend(a, b, maxDuration);
    BlocksAppend(Cues(a, maxDuration), Cues(b, maxDuration));
    AppendAssoc(Header, Blocks(Cues(a, maxDuration)), Blocks(Cues(b, maxDuration)));
  }

  /** A transcript without a "segments" key gives the header alone, as `.get("segments", [])` does. */
  lemma RenderMissingSegments(maxDuration: nat)
    requires maxDuration > 0
    ensures Render(Transcript(None), maxDuration) == Header
  {
  }

  // ---------------------------------------------------------------------------
  // Worked cases

  /** A five-second segment of "Oh Oh Oh" gives one cue carrying the Oh label. */
  lemma ChorusSegmentCues()
    ensures Cues([Segment(0, 5_000, "Oh Oh Oh")], DefaultMaxDuration) == [Cue(0, 5_000, ChorusOh)]
  {
    var s := "Oh Oh Oh";
    assert Strip(s) == s by {
      assert TrimStart(s) == s;
      assert TrimEnd(s) == s;
    }
    assert [s[0], s[1]] + s[2..] == s;
    ChorusOhWhateverFollows('O', 'h', s[2..]);
  }

  /** That cue's block, character for character. */
  lemma ChorusCueBlock()
    ensures CueBlock(Cue(0, 5_000, ChorusOh))
         == "00:00:00.000" + " --> " + "00:00:05.000" + "\n" + "Chorus: Oh (singing)" + "\n\n"
  {
    TimestampExamples();
  }

  /** The file of that segment: the header, then that one block. */
  lemma ChorusSegmentFile()
    ensures Render(Transcript(Some([Segment(0, 5_000, "Oh Oh Oh")])), DefaultMaxDuration)
         == Header + CueBlock(Cue(0, 5_000, ChorusOh))
  {
    ChorusSegmentCues();
    SingleBlock(Cue(0, 5_000, ChorusOh));
  }

  /**
   * A 23-second segment under the 10-second ceiling gives three cues, [0, 10),
   * [10, 20) and [20, 23) seconds, each with the segment's simplified text.
   */
  lemma LongSegmentCues(line: string)
    requires Simplify(Strip(line)) != ""
    ensures var text := Simplify(Strip(line));
      Cues([Segment(0, 23_000, line)], DefaultMaxDuration)
      == [Cue(0, 10_000, text), Cue(10_000, 20_000, text), Cue(20_000, 23_000, text)]
  {
  }
}
