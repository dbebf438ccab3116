/**
 * The temperature sparkline drawn in the viewport strip: alternate-day
 * background bands and one line point per hourly temperature, scaled into
 * the strip with a 5-pixel margin at top and bottom.
 */
module Sparkline {
  import opened Basics
  import opened Numbers

  datatype Point = Point(x: real, y: real)

  /** A shaded background rectangle spanning the strip's full height. */
  datatype Band = Band(x: real, width: real)

  datatype Drawing = Drawing(bands: seq<Band>, points: seq<Point>)

  const PointsPerDay: nat := 24
  const Margin: real := 5.0

  function MinOf(data: seq<real>): (m: real)
    requires |data| > 0
    ensures forall i | 0 <= i < |data| :: m <= data[i]
    ensures exists i | 0 <= i < |data| :: data[i] == m
  {
    if |data| == 1 then data[0]
    else
      var rest := MinOf(data[..|data| - 1]);
      if data[|data| - 1] < rest then data[|data| - 1] else rest
  }

  function MaxOf(data: seq<real>): (m: real)
    requires |data| > 0
    ensures forall i | 0 <= i < |data| :: data[i] <= m
    ensures exists i | 0 <= i < |data| :: data[i] == m
  {
    if |data| == 1 then data[0]
    else
      var rest := MaxOf(data[..|data| - 1]);
      if data[|data| - 1] > rest then data[|data| - 1] else rest
  }

  /** `max - min || 1`: the value span, or 1 for a flat series so nothing divides by zero. */
  function Span(data: seq<real>): (r: real)
    requires |data| > 0
    ensures r > 0.0
    ensures MaxOf(data) != MinOf(data) ==> r == MaxOf(data) - MinOf(data)
    ensures MaxOf(data) == MinOf(data) ==> r == 1.0
    ensures forall i | 0 <= i < |data| :: data[i] - MinOf(data) <= r
  {
    var d := MaxOf(data) - MinOf(data);
    if d != 0.0 then d else 1.0
  }

  // ------------------------------------------------------------ day bands

  /** Indices of the 24-point blocks from block `b` on that start before point `n` and are odd. */
  function OddBlocksFrom(b: nat, n: nat): (r: seq<nat>)
    ensures forall k | 0 <= k < |r| :: r[k] >= b && r[k] % 2 == 1 && PointsPerDay * r[k] < n
    ensures forall c: nat | b <= c && c % 2 == 1 && PointsPerDay * c < n :: c in r
    ensures forall j, k | 0 <= j < k < |r| :: r[j] < r[k]
    decreases n - PointsPerDay * b
  {
    if PointsPerDay * b >= n then []
    else if b % 2 == 1 then [b] + OddBlocksFrom(b + 1, n)
    else OddBlocksFrom(b + 1, n)
  }

  /** The blocks that are shaded: every second day, starting with the second. */
  function ShadedBlocks(n: nat): (r: seq<nat>)
    ensures forall c: nat :: c in r <==> c % 2 == 1 && PointsPerDay * c < n
    ensures forall j, k | 0 <= j < k < |r| :: r[j] < r[k]
  {
    OddBlocksFrom(0, n)
  }

  /** The band of block `b`: from point `24·b` of `n`, one day of points wide, both as fractions of the width. */
  function BandAt(b: nat, n: nat, width: real): Band
    requires n > 0
  {
    Band((PointsPerDay * b) as real / n as real * width, PointsPerDay as real / n as real * width)
  }

  function Bands(n: nat, width: real): (r: seq<Band>)
    requires n > 0
    ensures |r| == |ShadedBlocks(n)|
    ensures forall k | 0 <= k < |r| :: r[k] == BandAt(ShadedBlocks(n)[k], n, width)
  {
    var blocks := ShadedBlocks(n);
    seq(|blocks|, k requires 0 <= k < |blocks| => BandAt(blocks[k], n, width))
  }

  /** A full 241-point window shades five days: blocks 1, 3, 5, 7 and 9. */
  lemma FullWindowBands()
    ensures ShadedBlocks(241) == [1, 3, 5, 7, 9]
  {
    assert OddBlocksFrom(11, 241) == [];
    assert OddBlocksFrom(10, 241) == [];
    assert OddBlocksFrom(9, 241) == [9];
    assert OddBlocksFrom(8, 241) == [9];
    assert OddBlocksFrom(7, 241) == [7, 9];
    assert OddBlocksFrom(6, 241) == [7, 9];
    assert OddBlocksFrom(5, 241) == [5, 7, 9];
    assert OddBlocksFrom(4, 241) == [5, 7, 9];
    assert OddBlocksFrom(3, 241) == [3, 5, 7, 9];
    assert OddBlocksFrom(2, 241) == [3, 5, 7, 9];
    assert OddBlocksFrom(1, 241) == [1, 3, 5, 7, 9];
  }

  // ------------------------------------------------------------ the line

  /** The x position of point `i` of `n`: `i / (n - 1)` of the width. */
  function PointX(i: nat, n: nat, width: real): (x: real)
    requires n >= 2
    ensures i == 0 ==> x == 0.0
    ensures i == n - 1 ==> x == width
    ensures i < n && width >= 0.0 ==> 0.0 <= x <= width
  {
    var d := (n - 1) as real;
    assert (n - 1) as real / d == 1.0 by {
      Cancel(1.0, d);
    }
    var f := i as real / d;
    assert i < n && width >= 0.0 ==> 0.0 <= f * width <= width by {
      if i < n {
        FractionWithinUnit(i as real, d);
        ScaledWithin(f, width);
      }
    }
    f * width
  }

  /** The y position of value `v`: its place in `[lo, lo + span]`, flipped and fitted between the margins. */
  function PointY(v: real, lo: real, span: real, height: real): (y: real)
    requires span > 0.0
    ensures 0.0 <= v - lo <= span && height >= 2.0 * Margin ==> Margin <= y <= height - Margin
    ensures v - lo == span ==> y == Margin
    ensures v == lo ==> y == height - Margin
  {
    var f := (v - lo) / span;
    var inner := height - 2.0 * Margin;
    var g := f * inner;
    assert v - lo == span ==> g == inner by {
      Cancel(1.0, span);
    }
    assert v == lo ==> g == 0.0;
    assert 0.0 <= v - lo <= span && inner >= 0.0 ==> 0.0 <= g <= inner by {
      if 0.0 <= v - lo <= span {
        FractionWithinUnit(v - lo, span);
        ScaledWithin(f, inner);
      }
    }
    height - g - Margin
  }

  /** The line points: `x` spread evenly across the width, `y` scaled between the margins. */
  function Points(data: seq<real>, width: real, height: real): (r: seq<Point>)
    requires |data| >= 2
    ensures |r| == |data|
    ensures forall i | 0 <= i < |r| ::
      r[i] == Point(PointX(i, |data|, width), PointY(data[i], MinOf(data), Span(data), height))
  {
    var lo := MinOf(data);
    var span := Span(data);
    seq(|data|, i requires 0 <= i < |data| => Point(PointX(i, |data|, width), PointY(data[i], lo, span, height)))
  }

  /** `renderSparkline`: nothing at all for a missing or empty series. */
  function Render(data: Option<seq<real>>, width: real, height: real): (d: Drawing)
    requires data.None? || |data.value| != 1
    ensures data.None? || |data.value| == 0 ==> d == Drawing([], [])
    ensures data.Some? && |data.value| >= 2 ==>
      |d.points| == |data.value| && |d.bands| == |ShadedBlocks(|data.value|)|
  {
    if data.None? || |data.value| == 0 then Drawing([], [])
    else Drawing(Bands(|data.value|, width), Points(data.value, width, height))
  }

  /** Every point lies between the margins when the strip is at least 10 pixels tall. */
  lemma PointsWithinMargins(data: seq<real>, width: real, height: real, i: nat)
    requires |data| >= 2 && height >= 2.0 * Margin && i < |data|
    ensures Margin <= Points(data, width, height)[i].y <= height - Margin
  {
    assert 0.0 <= data[i] - MinOf(data) <= Span(data);
  }

  lemma XAscending(i: nat, j: nat, n: nat, width: real)
    requires n >= 2 && width > 0.0 && i < j < n
    ensures PointX(0, n, width) == 0.0 && PointX(n - 1, n, width) == width
    ensures PointX(i, n, width) < PointX(j, n, width)
  {
    var d := (n - 1) as real;
    assert PointX(i, n, width) == i as real / d * width;
    assert PointX(j, n, width) == j as real / d * width;
    FractionsScaledStrictly(i as real, j as real, d, width);
  }

  /** The points run left to right, from the strip's left edge to its right edge. */
  lemma PointsSpanWidth(data: seq<real>, width: real, height: real, i: nat, j: nat)
    requires |data| >= 2 && width > 0.0 && i < j < |data|
    ensures var p := Points(data, width, height);
      p[0].x == 0.0 && p[|data| - 1].x == width && p[i].x < p[j].x
  {
    XAscending(i, j, |data|, width);
  }

  /** The warmest hour touches the top margin and the coldest the bottom one, unless the series is flat. */
  lemma ExtremesTouchMargins(data: seq<real>, width: real, height: real, i: nat)
    requires |data| >= 2 && i < |data| && MaxOf(data) != MinOf(data)
    ensures data[i] == MaxOf(data) ==> Points(data, width, height)[i].y == Margin
    ensures data[i] == MinOf(data) ==> Points(data, width, height)[i].y == height - Margin
  {
    assert data[i] == MaxOf(data) ==> data[i] - MinOf(data) == Span(data);
  }

  // ------------------------------------------------------------ the drawing

  /**
   * What a series of two or more values draws: its line starts at the strip's
   * left edge, ends at the right edge and runs left to right; every point
   * lies between the margins when the strip is at least 10 pixels tall; and
   * the warmest and coldest hours touch the margins unless the series is flat.
   */
  lemma RenderedLine(data: seq<real>, width: real, height: real)
    requires |data| >= 2
    ensures var p := Render(Some(data), width, height).points;
      && |p| == |data|
      && p[0].x == 0.0 && p[|data| - 1].x == width
      && (width > 0.0 ==> forall i, j | 0 <= i < j < |data| :: p[i].x < p[j].x)
      && (height >= 2.0 * Margin ==> forall i | 0 <= i < |data| :: Margin <= p[i].y <= height - Margin)
      && (MaxOf(data) != MinOf(data) ==> forall i | 0 <= i < |data| && data[i] == MaxOf(data) :: p[i].y == Margin)
      && (MaxOf(data) != MinOf(data) ==> forall i | 0 <= i < |data| && data[i] == MinOf(data) :: p[i].y == height - Margin)
  {
    var p := Render(Some(data), width, height).points;
    assert p == Points(data, width, height);
    if width > 0.0 {
      forall i, j | 0 <= i < j < |data|
        ensures p[i].x < p[j].x
      {
        XAscending(i, j, |data|, width);
      }
    }
    if height >= 2.0 * Margin {
      forall i | 0 <= i < |data|
        ensures Margin <= p[i].y <= height - Margin
      {
        PointsWithinMargins(data, width, height, i);
      }
    }
    if MaxOf(data) != MinOf(data) {
      forall i | 0 <= i < |data|
        ensures data[i] == MaxOf(data) ==> p[i].y == Margin
        ensures data[i] == MinOf(data) ==> p[i].y == height - Margin
      {
        ExtremesTouchMargins(data, width, height, i);
      }
    }
  }

  /**
   * The background of a series of two or more values: a band for every odd
   * 24-point block that starts inside the series, and no other band, in
   * ascending block order.
   */
  lemma RenderedBands(data: seq<real>, width: real, height: real)
    requires |data| >= 2
    ensures var n := |data|;
      var bands := Render(Some(data), width, height).bands;
      && (forall b: nat | b % 2 == 1 && PointsPerDay * b < n :: BandAt(b, n, width) in bands)
      && (forall k | 0 <= k < |bands| ::
            var b := ShadedBlocks(n)[k];
            b % 2 == 1 && PointsPerDay * b < n && bands[k] == BandAt(b, n, width))
      && (forall j, k | 0 <= j < k < |bands| :: ShadedBlocks(n)[j] < ShadedBlocks(n)[k])
  {
    var n := |data|;
    var bands := Render(Some(data), width, height).bands;
    assert bands == Bands(n, width);
    var blocks := ShadedBlocks(n);
    forall b: nat | b % 2 == 1 && PointsPerDay * b < n
      ensures BandAt(b, n, width) in bands
    {
      assert b in blocks;
      var k :| 0 <= k < |blocks| && blocks[k] == b;
      assert bands[k] == BandAt(b, n, width);
    }
    forall k | 0 <= k < |bands|
      ensures blocks[k] % 2 == 1 && PointsPerDay * blocks[k] < n
    {
      assert blocks[k] in blocks;
    }
  }
}
