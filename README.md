# Subtitle building of streamlit-video-generation, in Dafny

This project models the subtitle-building core of `app.py` and proves its
properties. The app sends audio to a speech-to-text service and gets back a
transcript: a list of time-coded segments `(start, end, text)`. Three
functions turn that transcript into a WebVTT subtitle file:

- `format_vtt_timestamp` writes a non-negative time as a WebVTT cue timestamp
  `HH:MM:SS.mmm`. This is the "WebVTT timestamp" syntax of the W3C WebVTT
  specification. Fields are zero-padded, milliseconds are truncated, and
  hours do not wrap at 24.
- `simplify_lyrics` is the display-text normaliser.
  - A text that starts with "oh", "la" or "na" in any letter case becomes a
    fixed chorus label.
  - Any other text is stripped, each whitespace run becomes one space, and a
    result longer than 40 characters is cut to 37 characters plus `"..."`.
- `generate_vtt_file` writes the header `WEBVTT` and a blank line. Then it
  walks the segments in order.
  - A segment whose simplified text is empty is skipped.
  - A segment longer than the chunking ceiling becomes a run of cues, each one
    ceiling long; the last cue is clipped to the segment's end.
  - Every other segment becomes one cue.

The model has four modules:

- `Wrappers` holds the `Option` type and `Min`.
- `Timestamp` models `format_vtt_timestamp`, on whole milliseconds and on
  exact real seconds.
- `Lyrics` models `simplify_lyrics`. Python's whitespace class is written out
  as the `str.isspace()` character set.
- `Vtt` models `generate_vtt_file`.
  - It is an imperative method with the source's two loops.
  - Loop invariants tie that method to a functional specification, `Render`.
  - A separate chunk method (`AppendChunks`) does the inner loop.

Times are whole milliseconds (`nat`), and the chunking ceiling is a positive
number of milliseconds. The source's default ceiling, 10 seconds, is
`Vtt.DefaultMaxDuration`.

Each operation is proved against an independent definition:

- The timestamp has a parser, `ParseTimestamp`, and a round-trip lemma.
- The whitespace collapse has a reference definition, words joined by single
  spaces (`Words`/`Join`). Idempotence is proved on top of that.
- The file writer has the `Render` specification. Lemmas state how `Render`
  chunks a segment, the order of its blocks, and the bounds it keeps.

## Model

| member | source | states |
|---|---|---|
| Timestamp.MillisFields | app.py:8-11 | minutes and seconds are below 60 and milliseconds below 1000, and hours·3600000 + minutes·60000 + seconds·1000 + milliseconds gives back the time |
| Timestamp.SecondsFieldsTruncate | app.py:8-11 | the source's floor-division and modulo on real seconds give the same fields as splitting the time truncated to whole milliseconds |
| Timestamp.FormatSeconds | app.py:7-12 | formatting a non-negative real number of seconds equals formatting that time truncated (not rounded) to whole milliseconds |
| Timestamp.SecondsFields | app.py:8-11 | no contract of its own: the four field expressions on exact real seconds, floored division and the divisor-signed modulo as Python has them; SecondsFieldsTruncate equates them to MillisFields of the truncated time |
| Timestamp.FormatFields | app.py:12 | no contract of its own: the f-string, the four padded fields joined by `:`, `:` and `.`; FieldsLayout and FormatTimestampLayout state where each field sits and what it denotes |
| Timestamp.FormatTimestamp | app.py:7-12 | no contract of its own: format_vtt_timestamp on whole milliseconds, the form the file writer calls; FormatTimestampLayout, ParseFormatRoundTrip and FormatTimestampInjective state its layout and that it loses nothing, and FormatSeconds ties it to real seconds |
| Timestamp.PaddedDigits | app.py:12 | a zero-padded field is all digits, denotes the number, and is exactly as wide as the width or the number's own digits, whichever is larger (never truncated) |
| Timestamp.WholeHours | app.py:8 | the hours field is the whole number of hours in the time, not reduced mod 24 |
| Timestamp.FormatTimestampLayout | app.py:8-12 | a timestamp is an hours field of at least two digits, then `:MM:SS.mmm` with separators at fixed places from the end; each field is digits that denote hours, minutes, seconds and milliseconds |
| Timestamp.ParseFormatRoundTrip | app.py:7-12 | parsing a formatted timestamp gives back the time: no information is lost at millisecond resolution |
| Timestamp.FormatTimestampInjective | app.py:7-12 | two times with the same timestamp are equal |
| Timestamp.TimestampExamples | app.py:12 | 0 ms is `00:00:00.000` and 5000 ms is `00:00:05.000` |
| Timestamp.TimestampEachField | app.py:8-12 | 3723004 ms is `01:02:03.004`, which shows each field's padding |
| Timestamp.TimestampBeyondADay | app.py:8 | 90000000 ms (25 hours) is `25:00:00.000`: hours do not wrap at 24 |
| Lyrics.Strip | app.py:24 | no contract of its own: `str.strip()`, TrimEnd after TrimStart; TrimStartSkipsSpaces and TrimEndSkipsSpaces state that only whitespace is removed, and the two trims' ensures that none is left at either end |
| Lyrics.Collapse | app.py:24 | no contract of its own: `re.sub(r'\s+', ' ', ·)`; NormalizeIsJoinedWords shows that Collapse after Strip equals Join(Words(·)), and CollapseCanonical that it leaves a canonical text unchanged |
| Lyrics.Normalize | app.py:24 | no contract of its own: Collapse of Strip; NormalizeIsJoinedWords, NormalizeCanonical and CanonicalFixed state what it gives |
| Lyrics.Shorten | app.py:25 | no contract of its own: the 37-plus-`...` cut of a text over 40 characters; SimplifyPlainText states both branches and Simplify's ensures the 40-character bound |
| Lyrics.TrimStart | app.py:24 | the result is no longer than the text and does not begin with whitespace |
| Lyrics.TrimEnd | app.py:24 | the result is no longer than the text and does not end with whitespace |
| Lyrics.Simplify | app.py:14-25 | the result is never longer than 40 characters |
| Lyrics.SimplifyEmptyIff | app.py:14-25 | the result is empty exactly when the stripped text is empty |
| Lyrics.ChorusOhWhateverFollows | app.py:18-19 | a text beginning with "oh", in any letter case, gives `Chorus: Oh (singing)` whatever follows |
| Lyrics.ChorusLaWhateverFollows | app.py:20-21 | a text beginning with "la", in any letter case, gives `Chorus: La (singing)` whatever follows |
| Lyrics.ChorusNaWhateverFollows | app.py:22-23 | a text beginning with "na", in any letter case, gives `Chorus: Na (singing)` whatever follows |
| Lyrics.ChorusWithoutWordBoundary | app.py:15-23 | the match has no word boundary: "Ohio", "Lately" and "NANCY" become the Oh, La and Na labels |
| Lyrics.NormalizeIsJoinedWords | app.py:24 | strip plus whitespace collapse equals the text's words joined by single spaces |
| Lyrics.SimplifyPlainText | app.py:24-25 | a text with no syllable prefix gives its joined words when they fit in 40 characters; otherwise it gives their first 37 characters plus `...`, exactly 40 characters |
| Lyrics.NormalizeCanonical | app.py:24 | a normalised text is canonical: every whitespace character is a single inner space followed by a non-space |
| Lyrics.ShortenCanonical | app.py:25 | cutting a canonical text to 37 characters plus `...` keeps it canonical |
| Lyrics.CanonicalFixed | app.py:24 | normalising a canonical text changes nothing |
| Lyrics.PlainPrefix | app.py:24-25 | the plain-text result of a text with no leading whitespace begins with the text's first character, then the text's second character or a space |
| Lyrics.LabelFixed | app.py:19-23 | each chorus label simplifies to itself |
| Lyrics.SimplifyIdempotent | app.py:14-25 | for a text without leading whitespace, simplifying twice equals simplifying once; the call at app.py:44 strips first, so it always meets this |
| Lyrics.LeadingSpaceSimplify | app.py:18-24 | a whitespace character before a syllable hides it from the prefix test, and stripping then removes the whitespace; a single word of at most 40 characters after it comes back unchanged |
| Lyrics.SimplifyNotIdempotentWithLeadingSpace | app.py:18-24 | without the caller's strip, idempotence fails: `" oh"` simplifies to `oh` and that simplifies to the Oh label |
| Vtt.SegmentsOf | app.py:40 | no contract of its own: `transcript.get("segments", [])`; RenderMissingSegments states that a missing key gives the header alone |
| Vtt.CueBlock | app.py:52-54 | no contract of its own: the block `fmt(start) --> fmt(end)`, newline, text, blank line of app.py:54 and app.py:59; SegmentBlocks and ChorusCueBlock state it for a whole segment and for a worked cue |
| Vtt.Chunks | app.py:50-55 | no contract of its own: the cues of the `while` loop from `current` on; AppendChunks is proved to emit exactly these, and ChunkAt, ChunkCount and ChunksTile state each chunk, their number and their tiling |
| Vtt.SegmentCues | app.py:42-59 | no contract of its own: the cues of one segment, computed from its text simplified once; SegmentCuesShape and SegmentCuesBounded state what they are |
| Vtt.Cues | app.py:41-59 | no contract of its own: the segments' cues in list order; CuesBounded states the bounds every cue keeps and CuesAppend that the list is built segment by segment |
| Vtt.Render | app.py:38-60 | no contract of its own: the header followed by the blocks of the cues; GenerateVttFile is proved to return exactly it, and RenderAppend and RenderMissingSegments state its order and its empty case |
| Vtt.GenerateVttFile | app.py:38-60 | the file the two loops build is exactly `Render` of the transcript, and it begins with the header |
| Vtt.AppendChunks | app.py:47-55 | the chunking loop appends exactly the blocks of `Chunks(start, end, ceiling, text)` |
| Vtt.ChunkAt | app.py:50-55 | chunk k covers `[start + k·ceiling, min(start + (k+1)·ceiling, end)]` and carries the segment's text |
| Vtt.ChunkCount | app.py:50-55 | a non-empty span gives n ≥ 1 chunks with (n−1)·ceiling < end − start ≤ n·ceiling, so n is the ceiling of the span divided by the ceiling; a span longer than one ceiling gives at least two |
| Vtt.ChunksTile | app.py:47-55 | the chunks tile the span: the first starts at start, each ends where the next begins, the last ends at end, each is non-empty and at most one ceiling long, and all carry the same text |
| Vtt.SegmentCuesShape | app.py:42-59 | a segment gives no cues exactly when its simplified text is empty. Otherwise its cues run from its start to its end, each carries the text and lasts at most one ceiling. Within the ceiling it is one cue with its own times, even when end ≤ start; beyond it there are at least two |
| Vtt.SegmentBlocks | app.py:44-59 | a segment with empty simplified text adds nothing; a segment within the ceiling adds exactly `fmt(start) --> fmt(end)`, newline, text, blank line |
| Vtt.CuesBounded | app.py:41-59 | every cue of the file has non-empty text of at most 40 characters and lasts at most one ceiling |
| Vtt.RenderAppend | app.py:41-59 | the file of segments `a + b` is the file of `a` followed by the blocks of `b`: blocks appear in segment order |
| Vtt.RenderMissingSegments | app.py:39-40 | a transcript without a `segments` key gives exactly the header |
| Vtt.ChorusSegmentCues | app.py:41-59 | one 5-second segment "Oh Oh Oh" gives the single cue `[0, 5000)` carrying the Oh label |
| Vtt.ChorusCueBlock | app.py:57-59 | that cue's block is `00:00:00.000 --> 00:00:05.000`, newline, `Chorus: Oh (singing)`, blank line |
| Vtt.ChorusSegmentFile | app.py:38-60 | the file of that segment is the header followed by that block |
| Vtt.LongSegmentCues | app.py:47-55 | a 23-second segment with non-empty simplified text, under the 10-second ceiling, gives the cues `[0, 10)`, `[10, 20)` and `[20, 23)` seconds, all with that text |

## Left out

- `transcribe_audio` (app.py:27-36) is left out. It is an HTTP POST to the speech-to-text service, a file read, and a Streamlit error display.
- `main` (app.py:62-93) is left out. It is the Streamlit user interface: secrets, temporary and `.vtt` file writes, and the download button.
- Python floats are not modelled. Times are whole milliseconds, and `Timestamp.FormatSeconds` works on exact reals. So the model does not capture:
  - the error that accumulates in `current_start += chunk_duration` (app.py:55);
  - the rounding artefacts of `(seconds - int(seconds)) * 1000` (app.py:11).
- Negative times are not modelled: segment times are `nat`, and `FormatSeconds` requires a non-negative argument. The source offers no meaningful output for them.
- A segment without a `start`, `end` or `text` key raises `KeyError` in the source. The model's segments always carry all three.
- The regular-expression engine is not modelled:
  - The three `re.match` patterns are a two-character case-insensitive prefix test, tried in the order Oh, La, Na. Each repetition group may match zero times, so the patterns accept exactly the texts with that prefix.
  - The ASCII case fold models `re.IGNORECASE`. No other Unicode character folds onto o, h, l, a or n.
  - `\s` and `str.strip()` are the character set of `str.isspace()`.
- Vtt.GenerateVttFile requires a positive ceiling, and its ceiling is a `nat`, so the model leaves out the runs the source has with a ceiling of zero or less:
  - A segment with non-empty text and end after start then makes the chunking loop of app.py:50-55 run forever.
  - With a negative ceiling, a segment with non-empty text and ceiling < end − start ≤ 0 passes the test of app.py:47. The `while` at app.py:50 then stops at once, so that segment adds no cue. A segment with end − start ≤ ceiling takes the single-cue branch of app.py:56-59 and writes one block whose end is before its start.
  - A run with no such segments returns normally in the source. The model makes no promise for it.
- Styled-subtitle conversion and video rendering are not in `app.py`, so there is nothing of that kind to model.
- Two behaviours of the code could be read as gaps. The model keeps them as the code has them:
  - A transcript without `segments` gives the header alone (app.py:40). It is not an error that stops the run.
  - A segment with `end ≤ start` is not rejected. It takes the single-cue branch.
