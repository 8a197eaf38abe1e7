/**
 * The in-place part of the progress computation: the working array of
 * segments is sorted by start, normalised front to back, and summed.
 */
module SegmentArrays {
  import opened Segments

  method Swap(a: array<Segment>, i: nat, j: nat)
    requires i < j < a.Length
    modifies a
    ensures a[i] == old(a[j]) && a[j] == old(a[i])
    ensures forall k :: 0 <= k < a.Length && k != i && k != j ==> a[k] == old(a[k])
    ensures multiset(a[..]) == multiset(old(a[..]))
  {
    a[i], a[j] := a[j], a[i];
  }

  /** Sorts by start with the comparator a[0] - b[0]. */
  method SortByStart(a: array<Segment>)
    modifies a
    ensures SortedByStart(a[..])
    ensures multiset(a[..]) == multiset(old(a[..]))
  {
    if a.Length == 0 {
      return;
    }
    var i := 1;
    while i < a.Length
      invariant 1 <= i <= a.Length
      invariant forall p, q :: 0 <= p < q < i ==> a[p].start <= a[q].start
      invariant multiset(a[..]) == multiset(old(a[..]))
    {
      var j := i;
      while j > 0 && a[j - 1].start > a[j].start
        invariant 0 <= j <= i
        invariant forall p, q :: 0 <= p < q <= i && p != j && q != j ==> a[p].start <= a[q].start
        invariant forall q :: j < q <= i ==> a[j].start < a[q].start
        invariant multiset(a[..]) == multiset(old(a[..]))
      {
        Swap(a, j - 1, j);
        j := j - 1;
      }
      i := i + 1;
    }
  }

  /** The body of the normalisation loop at index i: a segment that starts
      before the previous one ends gets its start moved to that end, and
      then its end moved up to its start if it has fallen behind. */
  method ClampAt(a: array<Segment>, i: nat)
    requires 0 < i < a.Length
    modifies a
    ensures a[i] == Clamp(old(a[i - 1]).end, old(a[i]))
    ensures forall k :: 0 <= k < a.Length && k != i ==> a[k] == old(a[k])
  {
    if a[i].start < a[i - 1].end {
      a[i] := a[i].(start := a[i - 1].end);
      if a[i].start > a[i].end {
        a[i] := a[i].(end := a[i].start);
      }
    }
  }

  /** One turn of the normalisation loop: with the first i segments
      normalised, clamping segment i normalises the first i + 1. */
  method NormalizeStep(a: array<Segment>, i: nat, ghost before: seq<Segment>)
    requires 0 < i < a.Length == |before|
    requires a[..i] == Normalize(before[..i])
    requires forall k :: i <= k < a.Length ==> a[k] == before[k]
    modifies a
    ensures a[..i + 1] == Normalize(before[..i + 1])
    ensures forall k :: i < k < a.Length ==> a[k] == before[k]
  {
    ghost var done := a[..i];
    ClampAt(a, i);
    assert a[..i] == done;
    NormalizeSnoc(before[..i], before[i]);
    assert before[..i + 1] == before[..i] + [before[i]];
    assert a[..i + 1] == done + [a[i]];
  }

  /** The normalisation loop, front to back, each segment clamped against
      the already clamped one before it. */
  method NormalizeInPlace(a: array<Segment>)
    modifies a
    ensures a[..] == Normalize(old(a[..]))
  {
    ghost var before := a[..];
    var i := 0;
    while i < a.Length
      invariant 0 <= i <= a.Length
      invariant a[..i] == Normalize(before[..i])
      invariant forall k :: i <= k < a.Length ==> a[k] == before[k]
    {
      if i > 0 {
        NormalizeStep(a, i, before);
      } else {
        assert a[..1] == [before[0]];
      }
      i := i + 1;
    }
    assert a[..] == a[..a.Length];
    assert before[..a.Length] == before;
  }

  /** The progressLength loop: adds end - start for every segment whose end
      lies after its start. */
  method SumWatched(a: array<Segment>) returns (total: nat)
    ensures total == WatchedSum(a[..])
  {
    total := 0;
    var i := 0;
    while i < a.Length
      invariant 0 <= i <= a.Length
      invariant total == WatchedSum(a[..i])
    {
      if a[i].end > a[i].start {
        total := total + (a[i].end - a[i].start);
      }
      assert a[..i + 1][..i] == a[..i];
      i := i + 1;
    }
    assert a[..a.Length] == a[..];
  }

  /** Sort, normalise and sum: the result is the number of milliseconds
      covered by the segments the array held, whatever their order. */
  method WatchedLength(a: array<Segment>) returns (total: nat)
    modifies a
    ensures total == |Covered(old(a[..]))|
  {
    SortByStart(a);
    ghost var sorted := a[..];
    NormalizeInPlace(a);
    total := SumWatched(a);
    UnionLength(old(a[..]), sorted);
  }
}
