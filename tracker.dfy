/**
 * The video statement generator's tracker state and the effects of the
 * played, paused, seeked, volume-changed and finished events on it, with
 * the result values each statement reports.
 */
module VideoXapi {
  import opened Wrappers
  import opened Segments
  import opened SegmentText
  import opened SegmentArrays

  /** Closing a segment within one second of its start is treated as a
      repeated trigger (scrubbing) and ignored. */
  const NoiseThreshold: nat := 1000

  function Distance(a: Millis, b: Millis): nat
  {
    if a < b then b - a else a - b
  }

  /** The guard of endPlayedSegment: a segment is open and the end lies
      more than one second away from its start, in either direction. */
  predicate Closes(start: Option<Millis>, endTime: Millis)
    ensures Closes(start, endTime) <==>
      start.Some? && (start.value + NoiseThreshold < endTime || endTime + NoiseThreshold < start.value)
  {
    start.Some? && endTime != start.value && Distance(endTime, start.value) > NoiseThreshold
  }

  /** The closed segments after endPlayedSegment(endTime): earlier ones are
      neither removed nor reordered, and at most the one segment
      (start, endTime) is added, at the end. */
  function AfterClose(segs: seq<Segment>, start: Option<Millis>, endTime: Millis): (r: seq<Segment>)
    ensures |r| == |segs| + (if Closes(start, endTime) then 1 else 0)
    ensures r[..|segs|] == segs
    ensures Closes(start, endTime) ==> r[|segs|] == Segment(start.value, endTime)
  {
    if Closes(start, endTime) then segs + [Segment(start.value, endTime)] else segs
  }

  /** Progress before rounding: watched milliseconds over the duration. A
      zero duration gives no number (JavaScript's NaN or Infinity). */
  datatype Progress = Fraction(value: real) | Undefined

  function ProgressOf(watched: nat, duration: Millis): (p: Progress)
    ensures p.Fraction? <==> duration > 0
  {
    if duration > 0 then Fraction(watched as real / duration as real) else Undefined
  }

  /** When every segment lies inside the video, the progress of their
      union is a fraction between 0 and 1. */
  lemma ProgressInUnitInterval(segs: seq<Segment>, duration: Millis)
    requires duration > 0
    requires forall i :: 0 <= i < |segs| ==> segs[i].end <= duration
    ensures ProgressOf(|Covered(segs)|, duration).Fraction?
    ensures 0.0 <= ProgressOf(|Covered(segs)|, duration).value <= 1.0
  {
    WatchedWithinDuration(segs, duration);
    FractionAtMostOne(|Covered(segs)|, duration);
  }

  lemma FractionAtMostOne(w: nat, d: nat)
    requires 0 < d && w <= d
    ensures 0.0 <= w as real / d as real <= 1.0
  {
    var x, y := w as real, d as real;
    assert x / y <= y / y;
  }

  /** The result extensions each statement carries. */
  datatype Report =
    | PlayedReport(time: Millis)
    | PausedReport(time: Millis, progress: Progress, playedSegments: string)
    | SeekedReport(timeFrom: Millis, timeTo: Millis)
    | VolumeReport(time: Millis, volume: real)
    | FinishedReport(time: Millis, progress: Progress, playedSegments: string)

  /** The reported volume: 0 when muted, otherwise the player's volume. */
  function ReportedVolume(muted: bool, volume: real): (v: real)
    ensures muted ==> v == 0.0
    ensures !muted ==> v == volume
  {
    if muted then 0.0 else volume
  }

  /** A width or height as the player passes it: undefined, the empty
      string, or a number of pixels. */
  datatype Dimension = Unset | EmptyText | Pixels(n: nat)

  function DimensionText(d: Dimension): string
  {
    match d
    case Unset => "undefined"
    case EmptyText => ""
    case Pixels(n) => Digits(n)
  }

  /** The video-playback-size of the initialized statement. */
  function PlaybackSize(width: Dimension, height: Dimension): (r: string)
    ensures r == "undetermined" <==> !width.Pixels?
    ensures width.Pixels? ==> r == Digits(width.n) + "x" + DimensionText(height)
  {
    if width != Unset && width != EmptyText then
      var r := DimensionText(width) + "x" + DimensionText(height);
      assert IsDigit(r[0]);
      r
    else "undetermined"
  }

  /** Math.min's reading of a dimension: undefined is NaN, the empty
      string is 0. */
  function NumberOf(d: Dimension): Option<nat>
  {
    match d
    case Unset => None
    case EmptyText => Some(0)
    case Pixels(n) => Some(n)
  }

  /** The quality of the initialized statement: the one given, or else the
      smaller of width and height (None stands for NaN). */
  function DefaultQuality(quality: Option<nat>, width: Dimension, height: Dimension): (q: Option<nat>)
    ensures quality.Some? ==> q == quality
    ensures quality.None? && width.Pixels? && height.Pixels? ==>
      q.Some? && q.value <= width.n && q.value <= height.n &&
      (q.value == width.n || q.value == height.n)
    ensures quality.None? && (width.Unset? || height.Unset?) ==> q.None?
  {
    if quality.Some? then quality
    else
      match (NumberOf(width), NumberOf(height))
      case (Some(w), Some(h)) => Some(if w < h then w else h)
      case _ => None
  }

  /** The forEach that turns each "start[.]end" piece into a pair of
      positions, into a fresh working array. */
  method ParsePieces(parts: seq<string>, ghost segs: seq<Segment>) returns (work: array<Segment>)
    requires parts == Texts(segs)
    ensures fresh(work)
    ensures work[..] == segs
  {
    work := new Segment[|parts|];
    var i := 0;
    while i < |parts|
      invariant 0 <= i <= |parts| == work.Length
      invariant forall k :: 0 <= k < i ==> work[k] == segs[k]
    {
      SegmentRoundTrip(segs[i]);
      work[i] := SegmentFromText(parts[i]).value;
      i := i + 1;
    }
    assert work[..] == segs;
  }

  /** The working copy getProgress measures: the pieces of the stored
      text, plus (start, currentTime) when a segment is open, parsed into a
      fresh array. The stored text itself is not changed. */
  method WorkingSegments(text: string, start: Option<Millis>, currentTime: Millis, ghost segs: seq<Segment>)
    returns (work: array<Segment>)
    requires text == EncodeSegments(segs)
    ensures fresh(work)
    ensures work[..] == segs + (if start.Some? then [Segment(start.value, currentTime)] else [])
  {
    var arr := Pieces(text);
    PiecesOfEncoding(segs);
    ghost var all := segs;
    if start.Some? {
      arr := arr + [SegmentToText(Segment(start.value, currentTime))];
      all := all + [Segment(start.value, currentTime)];
    }
    work := ParsePieces(arr, all);
  }

  /**
   * The tracker state. playedSegments is the "[,]"-joined text of the
   * closed segments (the ghost field segments is what it encodes);
   * segmentStart is the start of the open segment, None once it has been
   * closed. x-api.js only initialises previousTime and never updates it,
   * so the model takes it as a field the caller sets.
   */
  class Tracker {
    const sessionId: string
    var previousTime: Millis
    var seekStart: Option<Millis>
    var playedSegments: string
    var segmentStart: Option<Millis>
    var segmentEnd: Option<Millis>
    var volumeChangedAt: Millis
    ghost var segments: seq<Segment>

    ghost predicate Valid()
      reads this
    {
      playedSegments == EncodeSegments(segments)
    }

    constructor (sessionId: string)
      ensures Valid() && segments == [] && playedSegments == ""
      ensures this.sessionId == sessionId
      ensures previousTime == 0 && seekStart == None && volumeChangedAt == 0
      ensures segmentStart == Some(0) && segmentEnd == None
    {
      this.sessionId := sessionId;
      previousTime := 0;
      seekStart := None;
      playedSegments := "";
      segmentStart := Some(0);
      segmentEnd := None;
      volumeChangedAt := 0;
      segments := [];
    }

    /** endPlayedSegment: past the noise guard, appends (start, endTime)
        to the text, records the end and clears the open start; otherwise
        changes nothing. */
    method EndPlayedSegment(endTime: Millis)
      requires Valid()
      modifies this
      ensures Valid()
      ensures segments == AfterClose(old(segments), old(segmentStart), endTime)
      ensures Closes(old(segmentStart), endTime) ==> segmentStart == None && segmentEnd == Some(endTime)
      ensures !Closes(old(segmentStart), endTime) ==>
        playedSegments == old(playedSegments) && segmentStart == old(segmentStart) && segmentEnd == old(segmentEnd)
      ensures previousTime == old(previousTime) && seekStart == old(seekStart)
      ensures volumeChangedAt == old(volumeChangedAt)
    {
      if segmentStart.Some? && endTime != segmentStart.value && Distance(endTime, segmentStart.value) > NoiseThreshold {
        var closed := Segment(segmentStart.value, endTime);
        var arr := Pieces(playedSegments);
        PiecesOfEncoding(segments);
        arr := arr + [SegmentToText(closed)];
        playedSegments := Join(arr, SegmentSep);
        AppendEncoding(segments, closed);
        segments := segments + [closed];
        segmentEnd := Some(endTime);
        segmentStart := None;
      }
    }

    /** getProgress: closes the open segment at currentTime, reopens at
        currentTime, and measures the union of the closed segments plus a
        working segment (currentTime, currentTime) that only the local copy
        receives. */
    method GetProgress(currentTime: Millis, duration: Millis) returns (watched: nat, progress: Progress)
      requires Valid()
      modifies this
      ensures Valid()
      ensures segments == AfterClose(old(segments), old(segmentStart), currentTime)
      ensures segmentStart == Some(currentTime)
      ensures segmentEnd == if Closes(old(segmentStart), currentTime) then Some(currentTime) else old(segmentEnd)
      ensures previousTime == old(previousTime) && seekStart == old(seekStart)
      ensures volumeChangedAt == old(volumeChangedAt)
      ensures watched == |Covered(segments)|
      ensures progress == ProgressOf(watched, duration)
    {
      EndPlayedSegment(currentTime);
      segmentStart := Some(currentTime);
      var work := WorkingSegments(playedSegments, segmentStart, currentTime, segments);
      watched := WatchedLength(work);
      CoveredSnoc(segments, Segment(currentTime, currentTime));
      progress := ProgressOf(watched, duration);
    }

    /** getArgsXAPIPlayed: a new segment starts here (an open one is
        replaced, not closed) and any pending seek is forgotten. */
    method Played(currentTime: Millis) returns (r: Report)
      requires Valid()
      modifies this
      ensures Valid()
      ensures segmentStart == Some(currentTime) && seekStart == None
      ensures segments == old(segments) && playedSegments == old(playedSegments)
      ensures segmentEnd == old(segmentEnd) && previousTime == old(previousTime)
      ensures volumeChangedAt == old(volumeChangedAt)
      ensures r == PlayedReport(currentTime)
    {
      var resultExtTime := currentTime;
      segmentStart := Some(resultExtTime);
      seekStart := None;
      r := PlayedReport(resultExtTime);
    }

    /** getArgsXAPIPaused: closes the open segment at currentTime, reopens
        there, and reports the progress and the played-segments text. */
    method Paused(currentTime: Millis, duration: Millis) returns (r: Report)
      requires Valid()
      modifies this
      ensures Valid()
      ensures segments == AfterClose(old(segments), old(segmentStart), currentTime)
      ensures segmentStart == Some(currentTime)
      ensures segmentEnd == if Closes(old(segmentStart), currentTime) then Some(currentTime) else old(segmentEnd)
      ensures previousTime == old(previousTime) && seekStart == old(seekStart)
      ensures volumeChangedAt == old(volumeChangedAt)
      ensures r == PausedReport(currentTime, ProgressOf(|Covered(segments)|, duration), playedSegments)
    {
      var resultExtTime := currentTime;
      EndPlayedSegment(resultExtTime);
      segmentStart := Some(resultExtTime);
      var _, progress := GetProgress(currentTime, duration);
      r := PausedReport(resultExtTime, progress, playedSegments);
    }

    /** getArgsXAPISeeked: the segment watched before the jump is closed at
        previousTime (not at the target), and the next one opens at the
        target. */
    method Seeked(currentTime: Millis) returns (r: Report)
      requires Valid()
      modifies this
      ensures Valid()
      ensures segments == AfterClose(old(segments), old(segmentStart), old(previousTime))
      ensures seekStart == Some(currentTime) && segmentStart == Some(currentTime)
      ensures segmentEnd == if Closes(old(segmentStart), old(previousTime)) then Some(old(previousTime)) else old(segmentEnd)
      ensures previousTime == old(previousTime) && volumeChangedAt == old(volumeChangedAt)
      ensures r == SeekedReport(old(previousTime), currentTime)
    {
      var resultExtTime := currentTime;
      seekStart := Some(resultExtTime);
      EndPlayedSegment(previousTime);
      segmentStart := seekStart;
      r := SeekedReport(previousTime, seekStart.value);
    }

    /** getArgsXAPIVolumeChanged: remembers where the change happened and
        reports the volume, 0 when muted. */
    method VolumeChanged(currentTime: Millis, muted: bool, volume: real) returns (r: Report)
      requires Valid()
      modifies this
      ensures Valid()
      ensures volumeChangedAt == currentTime
      ensures segments == old(segments) && playedSegments == old(playedSegments)
      ensures segmentStart == old(segmentStart) && segmentEnd == old(segmentEnd)
      ensures previousTime == old(previousTime) && seekStart == old(seekStart)
      ensures r == VolumeReport(currentTime, ReportedVolume(muted, volume))
    {
      volumeChangedAt := currentTime;
      var volumeChange := ReportedVolume(muted, volume);
      r := VolumeReport(volumeChangedAt, volumeChange);
    }

    /** getArgsXAPIFinished: progress first (which closes the segment), then
        a second endPlayedSegment at the same time, which the guard ignores. */
    method Finished(currentTime: Millis, duration: Millis) returns (r: Report)
      requires Valid()
      modifies this
      ensures Valid()
      ensures segments == AfterClose(old(segments), old(segmentStart), currentTime)
      ensures segmentStart == Some(currentTime)
      ensures segmentEnd == if Closes(old(segmentStart), currentTime) then Some(currentTime) else old(segmentEnd)
      ensures previousTime == old(previousTime) && seekStart == old(seekStart)
      ensures volumeChangedAt == old(volumeChangedAt)
      ensures r == FinishedReport(currentTime, ProgressOf(|Covered(segments)|, duration), playedSegments)
    {
      var _, progress := GetProgress(currentTime, duration);
      var resultExtTime := currentTime;
      EndPlayedSegment(resultExtTime);
      r := FinishedReport(resultExtTime, progress, playedSegments);
    }
  }
}
