/**
 * Event sequences a player produces, and what the tracker reports for
 * them, on a fresh tracker or, for the single steps, on any valid one.
 */
module Scenarios {
  import opened Wrappers
  import opened Segments
  import opened SegmentText
  import opened VideoXapi

  /** Play at a, pause at b: one segment (a, b), reported as text. */
  method PlayThenPause(a: Millis, b: Millis, duration: Millis) returns (r: Report)
    requires a + NoiseThreshold < b
    ensures r == PausedReport(b, ProgressOf(b - a, duration), EncodeSegments([Segment(a, b)]))
  {
    var t := new Tracker("session");
    var _ := t.Played(a);
    r := PauseOpen(t, a, b, duration);
    assert t.segments == [Segment(a, b)];
    SingleSegment(a, b);
  }

  /** Play at a, pause at b, on a tracker in any state: the segment
      (a, b) is appended to what was closed before. */
  method PlayAndPause(t: Tracker, a: Millis, b: Millis, duration: Millis) returns (r: Report)
    requires t.Valid()
    requires a + NoiseThreshold < b
    modifies t
    ensures t.Valid() && t.segments == old(t.segments) + [Segment(a, b)]
    ensures r.PausedReport? && r.progress == ProgressOf(|Covered(t.segments)|, duration)
  {
    var _ := t.Played(a);
    r := PauseOpen(t, a, b, duration);
  }

  /** Pause, play, pause: the tracker's initial open start is 0, so the
      first pause closes (0, b); the two watched stretches add up. */
  method PausePlayPause(b: Millis, c: Millis, d: Millis, duration: Millis) returns (r: Report)
    requires NoiseThreshold < b <= c
    requires c + NoiseThreshold < d
    ensures r.PausedReport? && r.progress == ProgressOf(b + (d - c), duration)
  {
    var t := new Tracker("session");
    r := PauseAndPlayPause(t, 0, b, c, d, duration);
  }

  /** Pause at b on a tracker with no segments yet whose open start is a,
      then play at c and pause at d. */
  method PauseAndPlayPause(t: Tracker, a: Millis, b: Millis, c: Millis, d: Millis, duration: Millis)
    returns (r: Report)
    requires t.Valid() && t.segments == [] && t.segmentStart == Some(a)
    requires a + NoiseThreshold < b <= c
    requires c + NoiseThreshold < d
    modifies t
    ensures r.PausedReport? && r.progress == ProgressOf((b - a) + (d - c), duration)
  {
    var _ := PauseOpen(t, a, b, duration);
    r := PlayAndPause(t, c, d, duration);
    assert t.segments == [Segment(a, b), Segment(c, d)];
    DisjointProgress(a, b, c, d, duration);
  }

  lemma DisjointProgress(a: Millis, b: Millis, c: Millis, d: Millis, duration: Millis)
    requires a <= b <= c <= d
    ensures ProgressOf(|Covered([Segment(a, b), Segment(c, d)])|, duration) == ProgressOf((b - a) + (d - c), duration)
  {
    DisjointPair(a, b, c, d);
  }

  /** Play at a, leave off at c and seek to b: the segment (a, c) is
      appended and the next one opens at b. */
  method PlayAndSeek(t: Tracker, a: Millis, c: Millis, b: Millis) returns (r: Report)
    requires t.Valid()
    requires a + NoiseThreshold < c
    modifies t
    ensures t.Valid() && t.segments == old(t.segments) + [Segment(a, c)]
    ensures t.segmentStart == Some(b)
    ensures r == SeekedReport(c, b)
  {
    var _ := t.Played(a);
    t.previousTime := c;
    r := t.Seeked(b);
  }

  /** Pause at b on a tracker whose segment opened at a: the segment
      (a, b) is appended. */
  method PauseOpen(t: Tracker, a: Millis, b: Millis, duration: Millis) returns (r: Report)
    requires t.Valid() && t.segmentStart == Some(a)
    requires a + NoiseThreshold < b
    modifies t
    ensures t.Valid() && t.segments == old(t.segments) + [Segment(a, b)]
    ensures r == PausedReport(b, ProgressOf(|Covered(t.segments)|, duration), t.playedSegments)
  {
    r := t.Paused(b, duration);
  }

  /** Watch from a to c, jump back to b, watch to d: what was watched
      twice counts once. */
  method RewatchAfterSeek(a: Millis, b: Millis, c: Millis, d: Millis, duration: Millis)
    returns (seek: Report, pause: Report)
    requires a + NoiseThreshold < c && a <= b <= c <= d
    requires b + NoiseThreshold < d
    ensures seek == SeekedReport(c, b)
    ensures pause.PausedReport? && pause.progress == ProgressOf(d - a, duration)
  {
    var t := new Tracker("session");
    seek := PlayAndSeek(t, a, c, b);
    pause := PauseOpen(t, b, d, duration);
    assert t.segments == [Segment(a, c), Segment(b, d)];
    OverlapProgress(a, b, c, d, duration);
  }

  lemma OverlapProgress(a: Millis, b: Millis, c: Millis, d: Millis, duration: Millis)
    requires a <= b <= c <= d
    ensures ProgressOf(|Covered([Segment(a, c), Segment(b, d)])|, duration) == ProgressOf(d - a, duration)
  {
    OverlappingPair(a, b, c, d);
  }

  /** A second pause less than a second after the first records nothing. */
  method RepeatedPause(a: Millis, b: Millis, b': Millis, duration: Millis) returns (first: Report, second: Report)
    requires a + NoiseThreshold < b <= b' <= b + NoiseThreshold
    ensures first.PausedReport? && second.PausedReport?
    ensures second.playedSegments == first.playedSegments
  {
    var t := new Tracker("session");
    var _ := t.Played(a);
    first := t.Paused(b, duration);
    second := t.Paused(b', duration);
  }

  /** A seek reports where playback left off and where it went, in either
      direction. */
  method SeekReport(start: Millis, left: Millis, target: Millis) returns (r: Report)
    ensures r == SeekedReport(left, target)
  {
    var t := new Tracker("session");
    var _ := t.Played(start);
    t.previousTime := left;
    r := t.Seeked(target);
  }

  /** The played-segments text after watching the first five seconds. */
  lemma FirstPauseText()
    ensures EncodeSegments([Segment(0, 5000)]) == "0[.]5"
    ensures EncodeSegments([Segment(0, 5000), Segment(3000, 8250)]) == "0[.]5[,]3[.]8.25"
  {
    assert SegmentToText(Segment(0, 5000)) == "0[.]5";
    assert SegmentToText(Segment(3000, 8250)) == "3[.]8.25";
  }

  /** Progress for the two worked examples over a 10 s video. */
  lemma ProgressExamples()
    ensures ProgressOf(|Covered([Segment(0, 5000), Segment(3000, 8000)])|, 10000) == Fraction(0.8)
    ensures ProgressOf(|Covered([Segment(0, 2000), Segment(5000, 7000)])|, 10000) == Fraction(0.4)
  {
    OverlapExample();
    DisjointExample();
  }

  /** The initialized statement's size and quality for a 640x360 player,
      and for one whose width is the empty string. */
  lemma InitializedExamples()
    ensures PlaybackSize(Pixels(640), Pixels(360)) == "640x360"
    ensures DefaultQuality(None, Pixels(640), Pixels(360)) == Some(360)
    ensures PlaybackSize(EmptyText, Pixels(360)) == "undetermined"
  {
  }
}
