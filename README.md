# Played-segment tracker of the H5P video xAPI statement generator

This project models the tracker part of `H5P.VideoXapi` (`scripts/x-api.js`) and proves properties of it in Dafny. The tracker decides what a video statement reports as `played-segments` and `progress`:

- **Closing a segment.** It keeps the stretches of a video a learner has watched as one string, `start[.]end` pieces joined by `[,]`, plus the start of the stretch being watched now. `endPlayedSegment` closes the current stretch, behind a one-second noise guard.
- **Events.** The played, paused, seeked and finished statement builders open and close stretches.
- **Measuring progress.** `getProgress` decodes the string and sorts the pieces by start. It clamps each piece against the one before it in place, then sums the positive lengths.

The central theorem says that this sum is the number of milliseconds in the union of the watched stretches. So overlaps count once, whatever order the stretches were recorded in.

The model has six modules:

- `Wrappers` (`wrappers.dfy`) has the `Option` type that the parsing functions and the tracker's open start use.

- `Segments` (`segments.dfy`) has the pure reference definitions:
  - `Covered(s)`, the set of milliseconds some segment covers;
  - `Normalize`, the clamping pass as a function;
  - `WatchedSum`, the sum of positive lengths.
  It also holds the lemmas connecting them.
- `SegmentText` (`encoding.dfy`) has the wire format. It covers JavaScript's `split` and `join`, shows positions in seconds the way a JavaScript number prints after `formatFloat`, and proves both round trips.
- `SegmentArrays` (`progress.dfy`) has the in-place part of `getProgress`: sorting the working array, the normalisation loop and the summing loop. Each is a method over an `array` whose `ensures` ties it to the functions in `Segments`.
- `VideoXapi` (`tracker.dfy`) has the tracker as a class. Its fields are the source's module-level fields, and it has the statement builders as methods. The source's `playedSegments` string is a field. A ghost field `segments` holds the list it encodes, and `Valid()` ties the two together. The module also has the small rules of the volume-changed and initialized statements.
- `Scenarios` (`scenarios.dfy`) states what is reported for event sequences, at arbitrary times. The whole scenarios start from a new tracker. The single-step helpers `PlayAndPause`, `PlayAndSeek`, `PauseOpen` and `PauseAndPlayPause` take any valid tracker that is in the state their preconditions name.

Modelling choices:

- **Time.** Positions are whole milliseconds (`nat`), and the times the player passes in are taken to be whole milliseconds too. `formatFloat` keeps three decimals of a second, so it is the identity on such a time. Not every position goes through `formatFloat`, though: see "Left out". The one-second guard `Math.abs(endTime - start) > 1` becomes a distance of more than 1000 ms.
- **Number text.** A position is written as a JavaScript number in seconds: `5000` as `5`, `8250` as `8.25`. It is read back exactly.
- **Progress.** It is stated before `toFixed(2)`: watched milliseconds over duration, as a `real`. A zero duration gives `Undefined`, where JavaScript produces NaN or Infinity.
- **Initial value.** The source starts `playedSegments` as the empty array and compares it with `""`. The model starts from the empty string, which is what that comparison treats it as (scripts/x-api.js:40, 59). Until the first segment closes, JavaScript's `playedSegments` is still the array `[]`, and the paused and finished statements report that array (lines 145, 315). The model's `PausedReport` and `FinishedReport` carry `""` there.
- **Where the code and the design description differ, the model follows the code:**
  - The guard compares with `Math.abs`, so a stretch closed before its start (a stale `previousTime` at a seek) is recorded as a reversed segment. The model keeps such segments and proves the union theorem for them too: a reversed segment covers nothing.
  - `getArgsXAPIPlayed` replaces an open stretch without closing it.
  - `getArgsXAPIFinished` measures progress first, which closes the stretch. The `endPlayedSegment` that comes after it is then always a no-op.

## Model

| member | source | states |
|---|---|---|
| Segments.CoveredMembership | scripts/x-api.js:90-95 | a millisecond is in the watched union exactly when some recorded segment contains it |
| Segments.CoveredPermutation | scripts/x-api.js:72-74 | any reordering of the segments (such as the sort) leaves the watched union unchanged |
| Segments.Clamp | scripts/x-api.js:80-85 | the clamped segment starts no earlier than the previous end or its own start, is not reversed when the original was not, and keeps as positive length only what lies past the larger of the two; ClampStep shows what that adds to the union |
| Segments.Normalize | scripts/x-api.js:77-87 | the normalising pass keeps the number of segments and leaves the first one alone; NormalizeOrdered, NormalizeEnds and NormalizeCoverage pin down the rest |
| Segments.WatchedSum | scripts/x-api.js:90-95 | the sum of positive lengths is at least the positive length of each segment; SegmentArrays.SumWatched computes it and NormalizeCoverage relates it to the union |
| Segments.NormalizeOrdered | scripts/x-api.js:77-87 | for segments with start <= end, every normalised segment keeps start <= end, starts no earlier than the previous normalised end, and starts no earlier than the original |
| Segments.NormalizeSorted | scripts/x-api.js:72-87 | the normalised list of such segments has non-decreasing starts |
| Segments.NormalizeEnds | scripts/x-api.js:77-87 | the normalised ends are the running maximum of the original ends |
| Segments.ClampStep | scripts/x-api.js:80-85 | clamping one more segment against the previous normalised end adds exactly its clamped positive length to the size of the union |
| Segments.NormalizeCoverage | scripts/x-api.js:77-95 | for a list sorted by start, the sum of positive lengths after normalising equals the size of the union; everything from the last start to the last normalised end is covered, and nothing at or beyond the larger of the two |
| Segments.UnionLength | scripts/x-api.js:72-95 | for any list and any sorted permutation of it, normalising and summing gives the size of the union: overlaps are not double counted |
| Segments.WatchedWithinDuration | scripts/x-api.js:90-97 | segments ending by the duration cover at most duration milliseconds |
| Segments.SingleSegment | scripts/x-api.js:90-95 | one segment (a, b) covers b - a milliseconds |
| Segments.OverlappingPair | scripts/x-api.js:77-95 | (a, c) and (b, d) with a <= b <= c <= d cover d - a |
| Segments.DisjointPair | scripts/x-api.js:90-95 | (a, b) and (c, d) with b <= c cover (b - a) + (d - c) |
| Segments.OverlapExample | scripts/x-api.js:77-95 | (0 s, 5 s) and (3 s, 8 s) cover 8 s |
| Segments.DisjointExample | scripts/x-api.js:90-95 | (0 s, 2 s) and (5 s, 7 s) cover 4 s |
| SegmentText.Split | scripts/x-api.js:59 | splitting on a delimiter always yields at least one piece |
| SegmentText.SplitJoin | scripts/x-api.js:112-114 | splitting a join on the same delimiter returns the parts, when no part can hide the delimiter |
| SegmentText.DigitsRoundTrip | scripts/x-api.js:113 | the decimal numeral of a natural reads back as that natural |
| SegmentText.FractionText | scripts/x-api.js:31 | a non-zero number of thousandths is written with one to three decimal digits |
| SegmentText.FractionRoundTrip | scripts/x-api.js:67-68 | those decimals read back as the same thousandths |
| SegmentText.SecondsText | scripts/x-api.js:113 | a position is written with digits and a point only |
| SegmentText.SecondsRoundTrip | scripts/x-api.js:61-68 | every position written in seconds reads back as the same millisecond count |
| SegmentText.SegmentToText | scripts/x-api.js:113 | a segment's text contains no comma, so it cannot hide a "[,]" |
| SegmentText.SegmentRoundTrip | scripts/x-api.js:65-69 | splitting a segment's text on "[.]" and reading both pieces gives the segment back |
| SegmentText.Join | scripts/x-api.js:114 | joining on a delimiter starts with the first part; SplitJoin shows that splitting undoes it |
| SegmentText.ParseSeconds | scripts/x-api.js:67-68 | a piece that reads as a position is non-empty, starts with a digit and holds only digits and points; SecondsRoundTrip shows that it undoes the seconds text |
| SegmentText.SegmentFromText | scripts/x-api.js:66-68 | a piece only reads as a segment when it holds a "[.]"; SegmentRoundTrip shows that it undoes SegmentToText |
| SegmentText.EncodeSegments | scripts/x-api.js:112-114 | the played-segments string starts with the text of the first segment; EncodeEmpty, AppendEncoding and EncodingRoundTrip pin down the rest |
| SegmentText.Pieces | scripts/x-api.js:59 | the empty string has no pieces, and every other string has at least one; PiecesOfEncoding gives the pieces of an encoding |
| SegmentText.DecodeSegments | scripts/x-api.js:59-69 | the empty string reads as no segments, and a string that reads gives one segment per piece; EncodingRoundTrip shows that it undoes EncodeSegments |
| SegmentText.EncodeEmpty | scripts/x-api.js:112 | the played-segments string is empty exactly when no segment has been recorded |
| SegmentText.PiecesOfEncoding | scripts/x-api.js:59 | reading the string back into pieces (none for the empty string, otherwise split on "[,]") gives exactly the segments' texts |
| SegmentText.DecodeTexts | scripts/x-api.js:65-69 | parsing each piece gives back the segments in order |
| SegmentText.EncodingRoundTrip | scripts/x-api.js:59-69 | decoding the encoding of any segment list returns the same pairs in the same order |
| SegmentText.AppendEncoding | scripts/x-api.js:112-114 | pushing one segment's text onto the pieces and joining encodes the old list with that segment appended |
| SegmentArrays.SortByStart | scripts/x-api.js:72-74 | the array ends up sorted by start and is a permutation of what it held |
| SegmentArrays.ClampAt | scripts/x-api.js:80-85 | the two in-place writes at index i leave there the previous end clamped onto the segment, and change nothing else |
| SegmentArrays.NormalizeInPlace | scripts/x-api.js:77-87 | the array afterwards holds the normalised list of what it held before |
| SegmentArrays.SumWatched | scripts/x-api.js:90-95 | the accumulated progress length is the sum of the positive lengths of the array's segments |
| SegmentArrays.WatchedLength | scripts/x-api.js:72-95 | sort, normalise and sum return the size of the union of the array's original segments |
| VideoXapi.Closes | scripts/x-api.js:110 | a segment closes exactly when one is open and the end lies more than one second after or before its start |
| VideoXapi.AfterClose | scripts/x-api.js:110-116 | the earlier segments stay as they were, in order, as a prefix; past the guard exactly one more segment (start, end) follows, otherwise none |
| VideoXapi.ProgressOf | scripts/x-api.js:97 | progress is a number exactly when the duration is positive |
| VideoXapi.ProgressInUnitInterval | scripts/x-api.js:90-97 | when every segment ends by a positive duration, the unrounded progress of their union lies in [0, 1] |
| VideoXapi.ReportedVolume | scripts/x-api.js:257-261 | a muted player reports volume 0, otherwise its volume |
| VideoXapi.PlaybackSize | scripts/x-api.js:392 | the playback size is "undetermined" exactly when the width is undefined or empty, otherwise width "x" height |
| VideoXapi.DefaultQuality | scripts/x-api.js:385 | a given quality is kept; otherwise it is the smaller of two pixel sizes, and no number when a dimension is undefined |
| VideoXapi.WorkingSegments | scripts/x-api.js:59-69 | the working array holds the stored segments, followed by (start, current time) exactly when a segment is open; the stored text is not changed |
| VideoXapi.ParsePieces | scripts/x-api.js:64-69 | parsing the pieces of an encoding fills a fresh array with exactly the encoded segments |
| VideoXapi.Tracker.constructor | scripts/x-api.js:38-46 | a new tracker has no recorded segments, an empty string, the open start at 0 and no seek |
| VideoXapi.Tracker.EndPlayedSegment | scripts/x-api.js:107-118 | past the one-second guard, exactly one segment (start, end) is appended, the end is recorded and the open start cleared; otherwise string, open start and end are unchanged; the string always encodes the list |
| VideoXapi.Tracker.GetProgress | scripts/x-api.js:54-100 | closes the open segment at the current time and reopens there; the extra working segment never reaches the stored list; returns the size of the union of the closed segments and that over the duration |
| VideoXapi.Tracker.Played | scripts/x-api.js:169-185 | the open start becomes the current time, the pending seek is cleared, nothing else changes, and the time is reported |
| VideoXapi.Tracker.Paused | scripts/x-api.js:126-145 | closes the open segment at the current time, reopens there, and reports the time, the progress of the union and the current string |
| VideoXapi.Tracker.Seeked | scripts/x-api.js:209-228 | closes the open segment at the previous position (not the target), sets the seek start and the open start to the target, and reports time-from = previous position, time-to = target |
| VideoXapi.Tracker.VolumeChanged | scripts/x-api.js:251-283 | records where the change happened, reports 0 when muted, and leaves the segments alone |
| VideoXapi.Tracker.Finished | scripts/x-api.js:297-315 | closes the open segment once (the second close is a no-op) and reports time, progress and string |
| Scenarios.PlayThenPause | scripts/x-api.js:126-174 | play at a then pause at b (b more than a second later) reports progress (b - a) / duration and the text of the single segment (a, b) |
| Scenarios.PauseOpen | scripts/x-api.js:126-145 | pausing a tracker whose segment opened at a appends exactly (a, b) and reports the time, the progress of the union and the new string |
| Scenarios.PlayAndPause | scripts/x-api.js:107-174 | on any tracker, play then pause appends exactly (a, b) and reports the progress of the union |
| Scenarios.PausePlayPause | scripts/x-api.js:41-174 | the first segment opens at the initial start 0, so pause at b, play at c and pause at d report progress (b + (d - c)) / duration |
| Scenarios.PauseAndPlayPause | scripts/x-api.js:107-174 | on a tracker with no segments and an open start a, pause at b, play at c and pause at d report progress ((b - a) + (d - c)) / duration |
| Scenarios.PlayAndSeek | scripts/x-api.js:169-228 | play at a, leave off at c and seek to b: (a, c) is appended and the next segment opens at b |
| Scenarios.RewatchAfterSeek | scripts/x-api.js:54-228 | watching (a, c), seeking back to b and watching to d reports d - a: the re-watched part counts once |
| Scenarios.RepeatedPause | scripts/x-api.js:107-132 | a second pause within one second of the first leaves the played-segments text unchanged |
| Scenarios.SeekReport | scripts/x-api.js:226-227 | a seek reports where playback left off and the target, in either direction |
| Scenarios.FirstPauseText | scripts/x-api.js:112-114 | the first five seconds are written "0[.]5"; adding (3 s, 8.25 s) gives "0[.]5[,]3[.]8.25" |
| Scenarios.ProgressExamples | scripts/x-api.js:97 | (0, 5) with (3, 8) give progress 0.8 of a 10-second video, (0, 2) with (5, 7) give 0.4 |
| Scenarios.InitializedExamples | scripts/x-api.js:385-392 | 640 by 360 gives size "640x360" and quality 360; an empty width gives "undetermined" |

## Left out

- `guid` (scripts/x-api.js:14-19) draws on `Math.random`. The session id is a constructor parameter instead.
- The `new Date().toISOString()` timestamps are wall-clock time, so they are not modelled.
- `getArgsXAPIFullScreen` (scripts/x-api.js:339-374) is left out. Its full-screen state is a browser query (`document.fullScreen` and its vendor forms), with the `fullscreen` parameter only as the fallback (line 343). Its screen size comes from `screen.width`/`height` (line 344). Its `video-playback-size` is `width + "x" + height` of its own parameters (line 345), without the "undetermined" case of the initialized statement. It does not touch the tracker. The screen size, user agent and full-screen state of the initialized statement are browser queries too.
- The literal statement objects are not modelled: verb and category IRIs and the JSON nesting. Reports carry only the result and context values the tracker decides. The speed text `rate + "x"` and the caption fields are passed through unchanged and are not modelled.
- The jQuery/H5P module wrapper (scripts/x-api.js:2, 430) is not part of this model.
- `formatFloat` is modelled as the identity, because positions are millisecond counts. Its rounding of inputs with more than three decimals is not modelled as floating point.
- The player's own times are assumed to be whole milliseconds. Some raw times reach the tracker without `formatFloat`: `getProgress` closes at and reopens from the raw `currentTime` (scripts/x-api.js:56-57), and its working piece starts from that raw value (line 61). `previousTime` is used raw at the seek (lines 214 and 226). With sub-millisecond times, this can move the one-second guard's boundary and the working segment's length by less than 1 ms. For example, a pause at 12.3456 s followed by one at 13.3460 s records a segment in JavaScript, because the distance is 1.0004 s, but the model sees exactly 1000 ms and records nothing.
- `previousTime` is only initialised in scripts/x-api.js (line 38) and never updated there. The model takes it as a field the caller sets.
- The unused fields `seeking`, `currentTime`, `seekedTo`, `duration` and `volumeChangedOn` are not modelled.
- VideoXapi.ProgressOf: states progress before the `toFixed(2)` rounding and the `1 *` coercion of line 97. Floating-point rounding is outside the model.
- VideoXapi.ProgressOf: durations are taken to be whole milliseconds. The player's duration is a floating-point number of seconds that never goes through `formatFloat` (scripts/x-api.js:54, 97).
- VideoXapi.Tracker.GetProgress: returns the unrounded progress, for the same reason. A zero duration gives `Undefined` in place of NaN or Infinity.
- VideoXapi.Tracker.EndPlayedSegment: does nothing when no segment is open. In JavaScript the guard `endTime !== null && Math.abs(endTime - null) > 1` would let an end past one second through and append `"null[.]" + end`. No statement builder leaves this state behind, because each one reopens the segment right after closing it. Only a direct call to `endPlayedSegment` leaves no segment open. Every close after that call then appends `"null[.]" + end` once the end is past one second. That close can be another direct call, `getProgress` (scripts/x-api.js:56), or the paused (line 130), seeked (line 214) or finished (through line 298) statement. For example, a direct `endPlayedSegment` at 5 s followed by a pause at 10 s gives `"0[.]5[,]null[.]10"` in JavaScript. The model's `Paused` appends nothing there.
- SegmentArrays.SortByStart: states sorted and permutation, but not stability. The source uses the engine's `Array.prototype.sort`; the model sorts by insertion.
- SegmentText.SegmentFromText: a piece that does not read as a position gives `None`. JavaScript's `* 1` reads some such pieces as numbers (for example `"5."`, `".5"`, `"8.2500"`, `"1e3"`, `" 5"`) and the rest as NaN (0 for an empty piece). Only well-formed text, which the tracker itself writes, is modelled.
- SegmentText.SecondsText: positions of 10^21 seconds or more, which JavaScript prints in exponent form, are written in plain digits.
