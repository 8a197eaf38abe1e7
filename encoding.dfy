/**
 * The textual form of the played-segments list: each segment is written
 * "start[.]end" with both positions in seconds, and segments are joined
 * with "[,]". The empty list is the empty string.
 */
module SegmentText {
  import opened Wrappers
  import opened Segments

  /** Separates one segment from the next. */
  const SegmentSep: string := "[,]"
  /** Separates a segment's start from its end. */
  const BoundSep: string := "[.]"

  // ---------------------------------------------------------------------
  // Splitting and joining on a delimiter

  /** Split s at every leftmost, non-overlapping occurrence of d, as
      String.prototype.split does for a non-empty delimiter. */
  function Split(s: string, d: string): (parts: seq<string>)
    requires |d| > 0
    ensures |parts| > 0
    decreases |s|
  {
    if |s| < |d| then [s]
    else if s[..|d|] == d then [""] + Split(s[|d|..], d)
    else
      var rest := Split(s[1..], d);
      [[s[0]] + rest[0]] + rest[1..]
  }

  /** Array.prototype.join: the parts with d between neighbours. */
  function Join(parts: seq<string>, d: string): (r: string)
    ensures |parts| > 0 ==> parts[0] <= r
  {
    if |parts| == 0 then ""
    else if |parts| == 1 then parts[0]
    else parts[0] + d + Join(parts[1..], d)
  }

  /** No occurrence of d can start inside p, even one that runs on into a
      following d: p lacks d's first character, or lacks its second one
      while d does not start with two equal characters. */
  predicate Free(p: string, d: string)
    requires |d| >= 2
  {
    d[0] !in p || (d[1] !in p && d[0] != d[1])
  }

  lemma {:induction false} SplitAfterPart(p: string, d: string, rest: string)
    requires |d| >= 2 && Free(p, d)
    ensures Split(p + d + rest, d) == [p] + Split(rest, d)
    decreases |p|
  {
    var s := p + d + rest;
    if p == [] {
      assert s == d + rest;
      assert s[..|d|] == d;
      assert s[|d|..] == rest;
    } else {
      assert s[..|d|] != d by {
        if d[0] !in p {
          assert s[0] == p[0];
        } else if |p| == 1 {
          assert s[1] == d[0];
        } else {
          assert s[1] == p[1];
        }
      }
      assert s[1..] == p[1..] + d + rest;
      SplitAfterPart(p[1..], d, rest);
      assert [p[0]] + p[1..] == p;
    }
  }

  lemma {:induction false} SplitWhole(p: string, d: string)
    requires |d| >= 2 && Free(p, d)
    ensures Split(p, d) == [p]
    decreases |p|
  {
    if |p| >= |d| {
      assert p[..|d|] != d by {
        if d[0] !in p {
          assert p[..|d|][0] == p[0];
        } else {
          assert p[..|d|][1] == p[1];
        }
      }
      SplitWhole(p[1..], d);
      assert [p[0]] + p[1..] == p;
    }
  }

  /** Splitting a join gives the parts back, when no part can hide a
      delimiter. */
  lemma {:induction false} SplitJoin(parts: seq<string>, d: string)
    requires |parts| > 0 && |d| >= 2
    requires forall i :: 0 <= i < |parts| ==> Free(parts[i], d)
    ensures Split(Join(parts, d), d) == parts
  {
    if |parts| == 1 {
      SplitWhole(parts[0], d);
    } else {
      SplitJoin(parts[1..], d);
      SplitAfterPart(parts[0], d, Join(parts[1..], d));
    }
  }

  // ---------------------------------------------------------------------
  // Decimal numerals

  predicate IsDigit(c: char)
  {
    '0' <= c <= '9'
  }

  function DigitChar(n: nat): (c: char)
    requires n < 10
    ensures IsDigit(c)
  {
    ('0' as int + n) as char
  }

  function DigitValue(c: char): (n: nat)
    requires IsDigit(c)
    ensures n < 10
  {
    c as int - '0' as int
  }

  /** The decimal numeral of n, without leading zeros. */
  function Digits(n: nat): (r: string)
    ensures |r| > 0
    ensures forall i :: 0 <= i < |r| ==> IsDigit(r[i])
  {
    if n < 10 then [DigitChar(n)] else Digits(n / 10) + [DigitChar(n % 10)]
  }

  /** The value of a non-empty string of decimal digits. */
  function ParseNat(s: string): (r: Option<nat>)
    ensures r.Some? ==> s != [] && forall i :: 0 <= i < |s| ==> IsDigit(s[i])
  {
    if s == [] || !IsDigit(s[|s| - 1]) then None
    else if |s| == 1 then Some(DigitValue(s[0]))
    else
      match ParseNat(s[..|s| - 1])
      case None => None
      case Some(v) => Some(v * 10 + DigitValue(s[|s| - 1]))
  }

  lemma {:induction false} DigitsRoundTrip(n: nat)
    ensures ParseNat(Digits(n)) == Some(n)
  {
    if n >= 10 {
      DigitsRoundTrip(n / 10);
      var r := Digits(n);
      assert r[..|r| - 1] == Digits(n / 10);
    }
  }

  // ---------------------------------------------------------------------
  // Positions as seconds

  /** The fraction digits of f thousandths, trailing zeros dropped. */
  function FractionText(f: nat): (r: string)
    requires 0 < f < 1000
    ensures 1 <= |r| <= 3
    ensures forall i :: 0 <= i < |r| ==> IsDigit(r[i])
  {
    var q := f / 10;
    var a, b, c := q / 10, q % 10, f % 10;
    if c == 0 && b == 0 then [DigitChar(a)]
    else if c == 0 then [DigitChar(a), DigitChar(b)]
    else [DigitChar(a), DigitChar(b), DigitChar(c)]
  }

  /** A position written in seconds the way a JavaScript number prints
      after formatFloat: whole seconds, then a point and up to three
      decimals when the fraction is not zero. */
  function SecondsText(m: Millis): (r: string)
    ensures |r| > 0
    ensures forall i :: 0 <= i < |r| ==> IsDigit(r[i]) || r[i] == '.'
  {
    if m % 1000 == 0 then Digits(m / 1000)
    else Digits(m / 1000) + "." + FractionText(m % 1000)
  }

  /** Index of the first '.', or |s| when there is none. */
  function DotIndex(s: string): (k: nat)
    ensures k <= |s|
    ensures k < |s| ==> s[k] == '.'
    ensures forall i :: 0 <= i < k ==> s[i] != '.'
  {
    if s == [] || s[0] == '.' then 0 else 1 + DotIndex(s[1..])
  }

  /** One to three decimals as thousandths. */
  function ParseFraction(t: string): (r: Option<nat>)
    ensures r.Some? ==> 1 <= |t| <= 3 && forall i :: 0 <= i < |t| ==> IsDigit(t[i])
  {
    if |t| < 1 || |t| > 3 then None
    else
      match ParseNat(t)
      case None => None
      case Some(v) => Some(if |t| == 1 then v * 100 else if |t| == 2 then v * 10 else v)
  }

  /** Reads a position in seconds back into milliseconds. */
  function ParseSeconds(s: string): (r: Option<Millis>)
    ensures r.Some? ==> 0 < |s| && s[0] != '.'
    ensures r.Some? ==> forall i :: 0 <= i < |s| ==> IsDigit(s[i]) || s[i] == '.'
  {
    var k := DotIndex(s);
    match ParseNat(s[..k])
    case None => None
    case Some(w) =>
      if k == |s| then Some(w * 1000)
      else
        match ParseFraction(s[k + 1..])
        case None => None
        case Some(f) => Some(w * 1000 + f)
  }

  lemma {:induction false} DotIndexAfterDigits(p: string, rest: string)
    requires forall i :: 0 <= i < |p| ==> IsDigit(p[i])
    ensures DotIndex(p + rest) == |p| + DotIndex(rest)
    decreases |p|
  {
    if p != [] {
      assert (p + rest)[1..] == p[1..] + rest;
      DotIndexAfterDigits(p[1..], rest);
    } else {
      assert p + rest == rest;
    }
  }

  lemma ParseTwoDigits(x: nat, y: nat)
    requires x < 10 && y < 10
    ensures ParseNat([DigitChar(x), DigitChar(y)]) == Some(10 * x + y)
  {
    assert [DigitChar(x), DigitChar(y)][..1] == [DigitChar(x)];
  }

  lemma ParseThreeDigits(x: nat, y: nat, z: nat)
    requires x < 10 && y < 10 && z < 10
    ensures ParseNat([DigitChar(x), DigitChar(y), DigitChar(z)]) == Some(100 * x + 10 * y + z)
  {
    assert [DigitChar(x), DigitChar(y), DigitChar(z)][..2] == [DigitChar(x), DigitChar(y)];
    ParseTwoDigits(x, y);
  }

  lemma FractionRoundTrip(f: nat)
    requires 0 < f < 1000
    ensures ParseFraction(FractionText(f)) == Some(f)
  {
    var q := f / 10;
    var a, b, c := q / 10, q % 10, f % 10;
    assert f == 100 * a + 10 * b + c;
    if c == 0 && b == 0 {
    } else if c == 0 {
      ParseTwoDigits(a, b);
    } else {
      ParseThreeDigits(a, b, c);
    }
  }

  lemma WholeSecondsRoundTrip(m: Millis)
    requires m % 1000 == 0
    ensures ParseSeconds(SecondsText(m)) == Some(m)
  {
    var whole := Digits(m / 1000);
    DigitsRoundTrip(m / 1000);
    DotIndexAfterDigits(whole, []);
    assert whole + [] == whole;
    assert whole[..|whole|] == whole;
  }

  lemma FractionalSecondsRoundTrip(m: Millis)
    requires m % 1000 != 0
    ensures ParseSeconds(SecondsText(m)) == Some(m)
  {
    var w, f := m / 1000, m % 1000;
    var whole, frac := Digits(w), FractionText(f);
    var s := whole + "." + frac;
    assert s == SecondsText(m);
    DigitsRoundTrip(w);
    assert s == whole + ("." + frac);
    DotIndexAfterDigits(whole, "." + frac);
    assert DotIndex(s) == |whole|;
    assert s[..|whole|] == whole;
    assert s[|whole| + 1..] == frac;
    FractionRoundTrip(f);
    assert m == w * 1000 + f;
  }

  lemma SecondsRoundTrip(m: Millis)
    ensures ParseSeconds(SecondsText(m)) == Some(m)
  {
    if m % 1000 == 0 {
      WholeSecondsRoundTrip(m);
    } else {
      FractionalSecondsRoundTrip(m);
    }
  }

  // ---------------------------------------------------------------------
  // Segments and segment lists

  function SegmentToText(g: Segment): (r: string)
    ensures ',' !in r
  {
    SecondsText(g.start) + BoundSep + SecondsText(g.end)
  }

  /** v.split("[.]") followed by the numeric reading of its first two
      pieces. A piece that does not read as a position yields None. The
      source's `* 1` reads some such pieces as numbers ("5.", ".5", "1e3")
      and the rest as NaN (0 for an empty piece). */
  function SegmentFromText(t: string): (r: Option<Segment>)
    ensures r.Some? ==> |Split(t, BoundSep)| >= 2
  {
    var parts := Split(t, BoundSep);
    if |parts| < 2 then None
    else
      match (ParseSeconds(parts[0]), ParseSeconds(parts[1]))
      case (Some(s), Some(e)) => Some(Segment(s, e))
      case _ => None
  }

  lemma SegmentRoundTrip(g: Segment)
    ensures SegmentFromText(SegmentToText(g)) == Some(g)
  {
    var a, b := SecondsText(g.start), SecondsText(g.end);
    assert '[' !in a && '[' !in b;
    SplitAfterPart(a, BoundSep, b);
    SplitWhole(b, BoundSep);
    SecondsRoundTrip(g.start);
    SecondsRoundTrip(g.end);
  }

  /** The text of each segment, in order. */
  function Texts(segs: seq<Segment>): (r: seq<string>)
    ensures |r| == |segs|
    ensures forall i :: 0 <= i < |segs| ==> r[i] == SegmentToText(segs[i])
  {
    seq(|segs|, i requires 0 <= i < |segs| => SegmentToText(segs[i]))
  }

  /** The played-segments string for a list of segments. */
  function EncodeSegments(segs: seq<Segment>): (r: string)
    ensures |segs| > 0 ==> SegmentToText(segs[0]) <= r
  {
    Join(Texts(segs), SegmentSep)
  }

  function DecodeAll(parts: seq<string>): (r: Option<seq<Segment>>)
    ensures r.Some? ==> |r.value| == |parts|
  {
    if parts == [] then Some([])
    else
      match (SegmentFromText(parts[0]), DecodeAll(parts[1..]))
      case (Some(g), Some(rest)) => Some([g] + rest)
      case _ => None
  }

  /** The pieces of a played-segments string: none for the empty string,
      otherwise its split on "[,]". */
  function Pieces(text: string): (r: seq<string>)
    ensures |r| == 0 <==> text == ""
  {
    if text == "" then [] else Split(text, SegmentSep)
  }

  /** Reads a played-segments string back into segments. */
  function DecodeSegments(text: string): (r: Option<seq<Segment>>)
    ensures text == "" ==> r == Some([])
    ensures r.Some? ==> |r.value| == |Pieces(text)|
  {
    DecodeAll(Pieces(text))
  }

  /** Only the empty list encodes as the empty string. */
  lemma EncodeEmpty(segs: seq<Segment>)
    ensures EncodeSegments(segs) == "" <==> segs == []
  {
    if segs != [] {
      var parts := Texts(segs);
      if |parts| > 1 {
        assert Join(parts, SegmentSep) == parts[0] + (SegmentSep + Join(parts[1..], SegmentSep));
      }
    }
  }

  /** The pieces of an encoding are the segments' texts. */
  lemma PiecesOfEncoding(segs: seq<Segment>)
    ensures Pieces(EncodeSegments(segs)) == Texts(segs)
  {
    EncodeEmpty(segs);
    if segs != [] {
      var parts := Texts(segs);
      forall i | 0 <= i < |parts| ensures Free(parts[i], SegmentSep) {
        assert ',' !in parts[i];
      }
      SplitJoin(parts, SegmentSep);
    }
  }

  lemma {:induction false} DecodeTexts(segs: seq<Segment>)
    ensures DecodeAll(Texts(segs)) == Some(segs)
  {
    if segs != [] {
      SegmentRoundTrip(segs[0]);
      DecodeTexts(segs[1..]);
      assert Texts(segs)[1..] == Texts(segs[1..]);
      assert [segs[0]] + segs[1..] == segs;
    }
  }

  /** Decoding an encoding gives back the same segments, in order. */
  lemma EncodingRoundTrip(segs: seq<Segment>)
    ensures DecodeSegments(EncodeSegments(segs)) == Some(segs)
  {
    PiecesOfEncoding(segs);
    DecodeTexts(segs);
  }

  /** Appending a segment's text to the pieces and joining, as
      endPlayedSegment does, encodes the extended list. */
  lemma AppendEncoding(segs: seq<Segment>, g: Segment)
    ensures Join(Texts(segs) + [SegmentToText(g)], SegmentSep) == EncodeSegments(segs + [g])
  {
    assert Texts(segs) + [SegmentToText(g)] == Texts(segs + [g]);
  }
}
