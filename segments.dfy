/**
 * Played segments of a video and the length of their union.
 *
 * Positions are whole milliseconds. The player's times are taken to be
 * whole milliseconds too, so formatFloat, which keeps three decimals of a
 * second, leaves every position unchanged.
 */
module Segments {

  /** A playback position in milliseconds. */
  type Millis = nat

  /** A watched span [start, end). A segment may be reversed (start > end):
      the tracker records one when it closes backwards. */
  datatype Segment = Segment(start: Millis, end: Millis)

  /** The milliseconds lo, lo + 1, ..., hi - 1. */
  function Span(lo: int, hi: int): (r: set<int>)
    ensures forall x :: x in r <==> lo <= x < hi
    ensures |r| == if lo < hi then hi - lo else 0
    decreases hi - lo
  {
    if hi <= lo then {} else Span(lo, hi - 1) + {hi - 1}
  }

  /** The positive length of a segment; a reversed segment counts nothing. */
  function Length(g: Segment): nat
  {
    if g.end > g.start then g.end - g.start else 0
  }

  /** The milliseconds that some segment of s covers: the union of the
      watched intervals, the reference for the progress computation. */
  function Covered(s: seq<Segment>): set<int>
  {
    if s == [] then {} else Covered(s[..|s| - 1]) + Span(s[|s| - 1].start, s[|s| - 1].end)
  }

  /** A millisecond is covered exactly when some segment of s contains it. */
  lemma {:induction false} CoveredMembership(s: seq<Segment>, x: int)
    ensures x in Covered(s) <==> exists g :: g in s && g.start <= x < g.end
  {
    if s != [] {
      var p, y := s[..|s| - 1], s[|s| - 1];
      assert s == p + [y];
      CoveredMembership(p, x);
      if x in Covered(s) && x !in Covered(p) {
        assert y in s;
      }
      if exists g :: g in s && g.start <= x < g.end {
        var g :| g in s && g.start <= x < g.end;
        if g != y {
          assert g in p;
        }
      }
      assert (exists g :: g in p && g.start <= x < g.end) ==> exists g :: g in s && g.start <= x < g.end;
    }
  }

  lemma CoveredSnoc(s: seq<Segment>, y: Segment)
    ensures Covered(s + [y]) == Covered(s) + Span(y.start, y.end)
  {
    assert (s + [y])[..|s|] == s;
  }

  /** The order of the segments does not matter to the union. */
  lemma CoveredPermutation(s: seq<Segment>, t: seq<Segment>)
    requires multiset(s) == multiset(t)
    ensures Covered(s) == Covered(t)
  {
    forall g ensures g in s <==> g in t {
      assert g in s <==> g in multiset(s);
      assert g in t <==> g in multiset(t);
    }
    forall x ensures x in Covered(s) <==> x in Covered(t) {
      CoveredMembership(s, x);
      CoveredMembership(t, x);
    }
  }

  /** Starts are non-decreasing: the order the comparator a[0] - b[0] asks for. */
  ghost predicate SortedByStart(s: seq<Segment>)
  {
    forall i, j :: 0 <= i < j < |s| ==> s[i].start <= s[j].start
  }

  function Max(a: Millis, b: Millis): Millis
  {
    if a < b then b else a
  }

  /** One step of the normalisation pass: a segment that starts before the
      previous normalised end is pulled up to it, and its end too when the
      pull would leave it reversed. */
  function Clamp(prevEnd: Millis, g: Segment): (r: Segment)
    ensures prevEnd <= r.start && g.start <= r.start
    ensures g.start <= g.end ==> r.start <= r.end
    ensures Length(r) == if g.end > Max(prevEnd, g.start) then g.end - Max(prevEnd, g.start) else 0
  {
    if g.start < prevEnd then
      var pulled := g.(start := prevEnd);
      if pulled.start > pulled.end then pulled.(end := pulled.start) else pulled
    else g
  }

  /** The normalisation pass over a list already sorted by start: each
      segment after the first is clamped against the previous, already
      clamped, segment. */
  function Normalize(s: seq<Segment>): (n: seq<Segment>)
    ensures |n| == |s|
    ensures 0 < |s| ==> n[0] == s[0]
  {
    if |s| <= 1 then s
    else
      var p := Normalize(s[..|s| - 1]);
      p + [Clamp(p[|p| - 1].end, s[|s| - 1])]
  }

  function Last(s: seq<Segment>): Segment
    requires |s| > 0
  {
    s[|s| - 1]
  }

  /** Sum of the positive lengths: the progressLength accumulator. */
  function WatchedSum(s: seq<Segment>): (r: nat)
    ensures forall i :: 0 <= i < |s| ==> Length(s[i]) <= r
  {
    if s == [] then 0 else WatchedSum(s[..|s| - 1]) + Length(s[|s| - 1])
  }

  /** The largest end among the segments. */
  function MaxEnd(s: seq<Segment>): Millis
    requires |s| > 0
  {
    if |s| == 1 then s[0].end else Max(MaxEnd(s[..|s| - 1]), s[|s| - 1].end)
  }

  /**
   * The shape of the normalised list, for segments that are not reversed:
   * every segment keeps start <= end, no segment starts before the previous
   * one ends, and clamping only moves a start to the right.
   */
  lemma {:induction false} NormalizeOrdered(s: seq<Segment>)
    requires forall i :: 0 <= i < |s| ==> s[i].start <= s[i].end
    ensures forall i :: 0 <= i < |s| ==> Normalize(s)[i].start <= Normalize(s)[i].end
    ensures forall i :: 0 < i < |s| ==> Normalize(s)[i - 1].end <= Normalize(s)[i].start
    ensures forall i :: 0 <= i < |s| ==> s[i].start <= Normalize(s)[i].start
    decreases |s|, 1
  {
    if |s| > 1 {
      var p, y := s[..|s| - 1], s[|s| - 1];
      assert s == p + [y];
      NormalizeOrderedSnoc(p, y);
    }
  }

  /** NormalizeOrdered for a list of the form p + [y]. */
  lemma {:induction false} NormalizeOrderedSnoc(p: seq<Segment>, y: Segment)
    requires |p| > 0
    requires forall i :: 0 <= i < |p| ==> p[i].start <= p[i].end
    requires y.start <= y.end
    ensures forall i :: 0 <= i <= |p| ==> Normalize(p + [y])[i].start <= Normalize(p + [y])[i].end
    ensures forall i :: 0 < i <= |p| ==> Normalize(p + [y])[i - 1].end <= Normalize(p + [y])[i].start
    ensures forall i :: 0 <= i <= |p| ==> (p + [y])[i].start <= Normalize(p + [y])[i].start
    decreases |p| + 1, 0
  {
    NormalizeOrdered(p);
    NormalizeSnoc(p, y);
    var m := Normalize(p);
    var c := Clamp(Last(m).end, y);
    var n := Normalize(p + [y]);
    assert n == m + [c];
    forall i | 0 <= i < |p|
      ensures n[i] == m[i] && (p + [y])[i] == p[i]
    {
    }
    assert c.start <= c.end && Last(m).end <= c.start && y.start <= c.start;
  }

  /** The normalised list of segments that are not reversed is sorted by
      start, whatever order the input came in. */
  lemma NormalizeSorted(s: seq<Segment>)
    requires forall i :: 0 <= i < |s| ==> s[i].start <= s[i].end
    ensures SortedByStart(Normalize(s))
  {
    NormalizeOrdered(s);
    ChainSorted(Normalize(s));
  }

  /** Segments laid end to start, each not reversed, are sorted by start. */
  lemma ChainSorted(n: seq<Segment>)
    requires forall i :: 0 <= i < |n| ==> n[i].start <= n[i].end
    requires forall i :: 0 < i < |n| ==> n[i - 1].end <= n[i].start
    ensures SortedByStart(n)
  {
    forall i, j | 0 <= i < j < |n|
      ensures n[i].start <= n[j].start
    {
      ChainStep(n, i, j);
    }
  }

  lemma {:induction false} ChainStep(n: seq<Segment>, i: nat, j: nat)
    requires forall i :: 0 <= i < |n| ==> n[i].start <= n[i].end
    requires forall i :: 0 < i < |n| ==> n[i - 1].end <= n[i].start
    requires i <= j < |n|
    ensures n[i].start <= n[j].start
    decreases j - i
  {
    if i < j {
      ChainStep(n, i, j - 1);
      assert n[j - 1].end <= n[j].start;
    }
  }

  /** For segments that are not reversed, the normalised ends are the
      running maximum of the ends. */
  lemma {:induction false} NormalizeEnds(s: seq<Segment>)
    requires forall i :: 0 <= i < |s| ==> s[i].start <= s[i].end
    ensures forall i :: 0 <= i < |s| ==> Normalize(s)[i].end == MaxEnd(s[..i + 1])
    decreases |s|, 1
  {
    if |s| > 1 {
      var p, y := s[..|s| - 1], s[|s| - 1];
      assert s == p + [y];
      NormalizeEndsSnoc(p, y);
    } else if |s| == 1 {
      assert s[..1] == s;
    }
  }

  /** NormalizeEnds for a list of the form p + [y]. */
  lemma {:induction false} NormalizeEndsSnoc(p: seq<Segment>, y: Segment)
    requires |p| > 0
    requires forall i :: 0 <= i < |p| ==> p[i].start <= p[i].end
    requires y.start <= y.end
    ensures forall i :: 0 <= i <= |p| ==> Normalize(p + [y])[i].end == MaxEnd((p + [y])[..i + 1])
    decreases |p| + 1, 0
  {
    NormalizeEnds(p);
    NormalizeSnoc(p, y);
    var k := |p|;
    var m := Normalize(p);
    var n := Normalize(p + [y]);
    assert n == m + [Clamp(Last(m).end, y)];
    assert MaxEnd(p) == Last(m).end by {
      assert p[..k] == p;
    }
    forall i | 0 <= i < k
      ensures n[i].end == MaxEnd((p + [y])[..i + 1])
    {
      assert (p + [y])[..i + 1] == p[..i + 1];
    }
    assert (p + [y])[..k + 1] == p + [y];
    assert (p + [y])[..k] == p;
  }

  /**
   * One clamp step measured against the covered set c of the segments so
   * far, whose last normalised end is e and last start is t: a segment y
   * starting at or after t adds exactly its clamped length to the union.
   */
  lemma ClampStep(c: set<int>, e: Millis, t: Millis, y: Segment)
    requires Span(t, e) <= c
    requires c <= Span(0, Max(e, t))
    requires t <= y.start
    ensures |c| + Length(Clamp(e, y)) == |c + Span(y.start, y.end)|
    ensures Span(y.start, Clamp(e, y).end) <= c + Span(y.start, y.end)
    ensures c + Span(y.start, y.end) <= Span(0, Max(Clamp(e, y).end, y.start))
  {
    if y.start < e {
      ClampPulled(c, e, t, y);
    } else {
      var whole := Span(y.start, y.end);
      assert c * whole == {};
      assert |c + whole| == |c| + |whole|;
    }
  }

  /** The case of ClampStep where y starts before e and is pulled to it. */
  lemma ClampPulled(c: set<int>, e: Millis, t: Millis, y: Segment)
    requires Span(t, e) <= c
    requires c <= Span(0, e)
    requires t <= y.start < e
    ensures |c| + Length(Clamp(e, y)) == |c + Span(y.start, y.end)|
    ensures Span(y.start, Clamp(e, y).end) <= c + Span(y.start, y.end)
    ensures c + Span(y.start, y.end) <= Span(0, Max(Clamp(e, y).end, y.start))
  {
    var g := Clamp(e, y);
    assert g.start == e && g.end == Max(e, y.end);
    var whole, tail := Span(y.start, y.end), Span(e, y.end);
    forall x | x in whole
      ensures x in c + tail
    {
      if x < e {
        assert x in Span(t, e);
      }
    }
    assert c + whole == c + tail;
    forall x | x in c
      ensures x !in tail
    {
      assert x in Span(0, e);
    }
    assert c * tail == {};
    assert |c + tail| == |c| + |tail|;
    forall x | x in Span(y.start, g.end)
      ensures x in c + whole
    {
      if x < e {
        assert x in Span(t, e);
      }
    }
    forall x | x in c + whole
      ensures x in Span(0, Max(g.end, y.start))
    {
      if x in c {
        assert x in Span(0, e);
      }
    }
  }

  lemma NormalizeSnoc(p: seq<Segment>, y: Segment)
    requires |p| > 0
    ensures Normalize(p + [y]) == Normalize(p) + [Clamp(Last(Normalize(p)).end, y)]
  {
    assert (p + [y])[..|p|] == p;
  }

  lemma WatchedSumSnoc(n: seq<Segment>, c: Segment)
    ensures WatchedSum(n + [c]) == WatchedSum(n) + Length(c)
  {
    assert (n + [c])[..|n|] == n;
  }

  lemma SortedPrefix(s: seq<Segment>, k: nat)
    requires SortedByStart(s)
    requires k <= |s|
    ensures SortedByStart(s[..k])
  {
    var p := s[..k];
    forall i, j | 0 <= i < j < |p| ensures p[i].start <= p[j].start {
      assert p[i] == s[i] && p[j] == s[j];
    }
  }

  /**
   * The normalise-and-sum computation measures the union. For a list sorted
   * by start (reversed segments allowed), with e the last normalised end and
   * t the last start: the sum equals the number of covered milliseconds,
   * everything in [t, e) is covered, and nothing at or beyond max(e, t) is.
   */
  lemma {:induction false} NormalizeCoverage(s: seq<Segment>)
    requires |s| > 0
    requires SortedByStart(s)
    ensures WatchedSum(Normalize(s)) == |Covered(s)|
    ensures Span(Last(s).start, Last(Normalize(s)).end) <= Covered(s)
    ensures Covered(s) <= Span(0, Max(Last(Normalize(s)).end, Last(s).start))
    decreases |s|, 1
  {
    var p, y := s[..|s| - 1], s[|s| - 1];
    assert s == p + [y];
    NormalizeCoverageSnoc(p, y);
  }

  /** NormalizeCoverage for a list of the form p + [y]. */
  lemma {:induction false} NormalizeCoverageSnoc(p: seq<Segment>, y: Segment)
    requires SortedByStart(p + [y])
    ensures WatchedSum(Normalize(p + [y])) == |Covered(p + [y])|
    ensures Span(y.start, Last(Normalize(p + [y])).end) <= Covered(p + [y])
    ensures Covered(p + [y]) <= Span(0, Max(Last(Normalize(p + [y])).end, y.start))
    decreases |p| + 1, 0
  {
    CoveredSnoc(p, y);
    if p == [] {
      assert [] + [y] == [y];
      WatchedSumSnoc([], y);
    } else {
      var k := |p|;
      assert (p + [y])[..k] == p;
      SortedPrefix(p + [y], k);
      assert Last(p).start <= y.start by {
        assert (p + [y])[k - 1] == Last(p) && (p + [y])[k] == y;
      }
      NormalizeCoverage(p);
      var m := Normalize(p);
      var c := Clamp(Last(m).end, y);
      ClampStep(Covered(p), Last(m).end, Last(p).start, y);
      NormalizeSnoc(p, y);
      WatchedSumSnoc(m, c);
    }
  }

  /** Whatever order the segments come in, normalising a sorted copy and
      summing gives the length of their union: overlaps are counted once. */
  lemma UnionLength(s: seq<Segment>, sorted: seq<Segment>)
    requires multiset(sorted) == multiset(s)
    requires SortedByStart(sorted)
    ensures WatchedSum(Normalize(sorted)) == |Covered(s)|
  {
    CoveredPermutation(s, sorted);
    if |sorted| == 0 {
      assert Covered(sorted) == {};
    } else {
      NormalizeCoverage(sorted);
    }
  }

  /** Segments inside [0, duration] cover at most duration milliseconds. */
  lemma {:induction false} WatchedWithinDuration(s: seq<Segment>, duration: Millis)
    requires forall i :: 0 <= i < |s| ==> s[i].end <= duration
    ensures Covered(s) <= Span(0, duration)
    ensures |Covered(s)| <= duration
  {
    if s != [] {
      WatchedWithinDuration(s[..|s| - 1], duration);
    }
    var whole := Span(0, duration);
    assert whole == Covered(s) + (whole - Covered(s));
  }

  /** A single segment covers its length. */
  lemma SingleSegment(a: Millis, b: Millis)
    requires a <= b
    ensures |Covered([Segment(a, b)])| == b - a
  {
    CoveredSnoc([], Segment(a, b));
    assert [] + [Segment(a, b)] == [Segment(a, b)];
  }

  lemma CoveredPair(g: Segment, h: Segment)
    ensures Covered([g, h]) == Span(g.start, g.end) + Span(h.start, h.end)
  {
    CoveredSnoc([], g);
    assert [] + [g] == [g];
    CoveredSnoc([g], h);
    assert [g] + [h] == [g, h];
  }

  /** Two overlapping segments cover from the first start to the last end. */
  lemma OverlappingPair(a: Millis, b: Millis, c: Millis, d: Millis)
    requires a <= b <= c <= d
    ensures |Covered([Segment(a, c), Segment(b, d)])| == d - a
  {
    CoveredPair(Segment(a, c), Segment(b, d));
    assert Span(a, c) + Span(b, d) == Span(a, d);
  }

  /** Two disjoint segments cover the sum of their lengths. */
  lemma DisjointPair(a: Millis, b: Millis, c: Millis, d: Millis)
    requires a <= b <= c <= d
    ensures |Covered([Segment(a, b), Segment(c, d)])| == (b - a) + (d - c)
  {
    CoveredPair(Segment(a, b), Segment(c, d));
    var x, y := Span(a, b), Span(c, d);
    assert x * y == {};
    assert |x + y| == |x| + |y|;
  }

  /** (0 s, 5 s) and (3 s, 8 s) overlap: 8 seconds watched, not 10. */
  lemma OverlapExample()
    ensures |Covered([Segment(0, 5000), Segment(3000, 8000)])| == 8000
  {
    OverlappingPair(0, 3000, 5000, 8000);
  }

  /** (0 s, 2 s) and (5 s, 7 s) are disjoint: 4 seconds watched. */
  lemma DisjointExample()
    ensures |Covered([Segment(0, 2000), Segment(5000, 7000)])| == 4000
  {
    DisjointPair(0, 2000, 5000, 7000);
  }
}
