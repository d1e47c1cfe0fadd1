/*
 * One frame of the candlestick chart (src/components/Chart/Chart.tsx,
 * the body of `animate`): the min/max fold over the candles, the horizontal
 * layout, the price-to-y mapping and the per-candle classification, and the
 * loop that turns each candle into the strokes handed to the canvas.
 *
 * Prices and pixels are JavaScript doubles in the source; here they are
 * reals, an idealisation without rounding, NaN or infinities (the two
 * infinities that seed the fold are modelled explicitly).
 */
module Chart {

  datatype Candle = Candle(open: real, high: real, low: real, close: real)

  // ---------------------------------------------------------------------------
  // The min/max fold

  /** The fold's accumulator ranges over the reals and the two infinities it
      is seeded with. */
  datatype Ext = NegInf | Fin(r: real) | PosInf

  /** The smaller of an accumulator and a finite price. */
  function MinExt(a: Ext, b: real): Ext {
    match a
    case NegInf => NegInf
    case Fin(x) => Fin(if x <= b then x else b)
    case PosInf => Fin(b)
  }

  /** The larger of an accumulator and a finite price. */
  function MaxExt(a: Ext, b: real): Ext {
    match a
    case NegInf => Fin(b)
    case Fin(x) => Fin(if x >= b then x else b)
    case PosInf => PosInf
  }

  datatype Bounds = Bounds(min: Ext, max: Ext)

  /** The reduce over the candles: a left fold taking the min of the lows and
      the max of the highs. */
  function FoldBounds(acc: Bounds, cs: seq<Candle>): Bounds
    decreases |cs|
  {
    if cs == [] then acc
    else FoldBounds(Bounds(MinExt(acc.min, cs[0].low), MaxExt(acc.max, cs[0].high)), cs[1..])
  }

  /** The fold from its seed: min at plus infinity, max at minus infinity. */
  function PriceBounds(cs: seq<Candle>): Bounds {
    FoldBounds(Bounds(PosInf, NegInf), cs)
  }

  /** What the fold computes from a seed that is not already an extreme in the
      wrong direction: the result is finite once a candle or a finite seed has
      been seen, bounds every low (high) and the seed, and is one of them. */
  lemma {:induction false} FoldBoundsSpec(acc: Bounds, cs: seq<Candle>)
    requires acc.min != NegInf && acc.max != PosInf
    ensures var r := FoldBounds(acc, cs);
      (cs != [] || acc.min.Fin? ==> r.min.Fin?) && (r.min.Fin? ==>
        (forall k :: 0 <= k < |cs| ==> r.min.r <= cs[k].low) &&
        (acc.min.Fin? ==> r.min.r <= acc.min.r) &&
        ((exists k :: 0 <= k < |cs| && r.min.r == cs[k].low) || (acc.min.Fin? && r.min.r == acc.min.r)))
    ensures var r := FoldBounds(acc, cs);
      (cs != [] || acc.max.Fin? ==> r.max.Fin?) && (r.max.Fin? ==>
        (forall k :: 0 <= k < |cs| ==> cs[k].high <= r.max.r) &&
        (acc.max.Fin? ==> acc.max.r <= r.max.r) &&
        ((exists k :: 0 <= k < |cs| && r.max.r == cs[k].high) || (acc.max.Fin? && r.max.r == acc.max.r)))
    decreases |cs|
  {
    if cs != [] {
      var next := Bounds(MinExt(acc.min, cs[0].low), MaxExt(acc.max, cs[0].high));
      FoldBoundsSpec(next, cs[1..]);
      var r := FoldBounds(acc, cs);
      assert r == FoldBounds(next, cs[1..]);
      assert forall k :: 1 <= k < |cs| ==> cs[k] == cs[1..][k - 1];
      if r.min.Fin? && exists k :: 0 <= k < |cs[1..]| && r.min.r == cs[1..][k].low {
        var k :| 0 <= k < |cs[1..]| && r.min.r == cs[1..][k].low;
        assert r.min.r == cs[k + 1].low;
      }
      if r.max.Fin? && exists k :: 0 <= k < |cs[1..]| && r.max.r == cs[1..][k].high {
        var k :| 0 <= k < |cs[1..]| && r.max.r == cs[1..][k].high;
        assert r.max.r == cs[k + 1].high;
      }
    }
  }

  /** The `min` of a non-empty series: the lowest low. */
  function MinLow(cs: seq<Candle>): (m: real)
    requires cs != []
    ensures forall k :: 0 <= k < |cs| ==> m <= cs[k].low
    ensures exists k :: 0 <= k < |cs| && m == cs[k].low
  {
    FoldBoundsSpec(Bounds(PosInf, NegInf), cs);
    PriceBounds(cs).min.r
  }

  /** The `max` of a non-empty series: the highest high. */
  function MaxHigh(cs: seq<Candle>): (m: real)
    requires cs != []
    ensures forall k :: 0 <= k < |cs| ==> cs[k].high <= m
    ensures exists k :: 0 <= k < |cs| && m == cs[k].high
  {
    FoldBoundsSpec(Bounds(PosInf, NegInf), cs);
    PriceBounds(cs).max.r
  }

  /** The price range of a frame, highest high minus lowest low; it is not
      negative as soon as one candle has its low at or below its high. */
  function PriceRange(cs: seq<Candle>): (r: real)
    requires cs != []
    ensures (exists k :: 0 <= k < |cs| && cs[k].low <= cs[k].high) ==> r >= 0.0
  {
    MaxHigh(cs) - MinLow(cs)
  }

  // ---------------------------------------------------------------------------
  // Horizontal layout

  /** The horizontal pitch: the canvas width shared equally among the candles. */
  function CandleGap(canvasWidth: real, n: nat): real
    requires n > 0
  {
    canvasWidth / n as real
  }

  /** A candle is centred in its slot, half a pitch from the slot's left edge. */
  function CandleOffset(gap: real): real {
    gap / 2.0
  }

  /** The body is four fifths of the pitch wide. */
  function CandleWidth(gap: real): real {
    gap * 0.8
  }

  /** The x of candle `i`: the centre of the i-th slot. */
  function CandleX(gap: real, i: nat): real {
    gap * i as real + CandleOffset(gap)
  }

  /** The x positions strictly increase with the index. */
  lemma CandleXIncreasing(canvasWidth: real, n: nat, i: nat, j: nat)
    requires canvasWidth > 0.0 && n > 0 && i < j
    ensures CandleX(CandleGap(canvasWidth, n), i) < CandleX(CandleGap(canvasWidth, n), j)
  {
  }

  /** Neighbours are exactly one gap apart, a body is narrower than the gap, and
      so the bodies of neighbouring candles leave a strip of 0.2 gap between them. */
  lemma CandleSpacing(canvasWidth: real, n: nat, i: nat)
    requires canvasWidth > 0.0 && n > 0
    ensures var g := CandleGap(canvasWidth, n);
      CandleX(g, i + 1) - CandleX(g, i) == g &&
      CandleWidth(g) < g &&
      CandleX(g, i) + CandleWidth(g) / 2.0 < CandleX(g, i + 1) - CandleWidth(g) / 2.0
  {
  }

  /** Every body of an n-candle series lies strictly inside the canvas. */
  lemma CandleXWithinCanvas(canvasWidth: real, n: nat, i: nat)
    requires canvasWidth > 0.0 && i < n
    ensures var g := CandleGap(canvasWidth, n);
      0.0 < CandleX(g, i) - CandleWidth(g) / 2.0 &&
      CandleX(g, i) + CandleWidth(g) / 2.0 < canvasWidth
  {
    var g := CandleGap(canvasWidth, n);
    assert g > 0.0;
    assert g * n as real == canvasWidth;
    assert g * i as real >= 0.0;
    assert g * (n - 1) as real >= g * i as real by {
      assert g * (n - 1) as real - g * i as real == g * (n - 1 - i) as real;
    }
    assert g * (n - 1) as real == canvasWidth - g;
  }

  // ---------------------------------------------------------------------------
  // Vertical mapping

  /** The margin above and below the plotted prices, in pixels. */
  const VerticalPadding: real := 20.0

  /** The height left for prices once both margins are taken off. */
  function AvailableHeight(canvasHeight: real): real {
    canvasHeight - VerticalPadding * 2.0
  }

  /** The y of a price: its distance below the highest price, as a fraction of
      the price range, scaled to the available height and shifted by the top
      margin. */
  function TransformY(canvasHeight: real, min: real, max: real, value: real): real
    requires min != max
  {
    AvailableHeight(canvasHeight) * ((max - value) / (max - min)) + VerticalPadding
  }

  /** The highest price sits at the top padding, the lowest at the bottom one. */
  lemma TransformYEnds(canvasHeight: real, min: real, max: real)
    requires min != max
    ensures TransformY(canvasHeight, min, max, max) == VerticalPadding
    ensures TransformY(canvasHeight, min, max, min) == canvasHeight - VerticalPadding
  {
  }

  /** On a canvas taller than the two paddings, a higher price is drawn higher
      up (smaller y), and only a higher price is. */
  lemma TransformYDecreasing(canvasHeight: real, min: real, max: real, a: real, b: real)
    requires min < max && canvasHeight > 2.0 * VerticalPadding
    ensures a < b <==> TransformY(canvasHeight, min, max, b) < TransformY(canvasHeight, min, max, a)
  {
    var h := AvailableHeight(canvasHeight);
    var d := max - min;
    assert (max - a) / d - (max - b) / d == (b - a) / d;
    assert h * ((max - a) / d) - h * ((max - b) / d) == h * ((b - a) / d);
    if a < b {
      assert (b - a) / d > 0.0;
      assert h * ((b - a) / d) > 0.0;
    } else {
      assert (b - a) / d <= 0.0;
      assert h * ((b - a) / d) <= 0.0;
    }
  }

  /** Prices within [min, max] map within the padded band. */
  lemma TransformYInBand(canvasHeight: real, min: real, max: real, v: real)
    requires min < max && canvasHeight >= 2.0 * VerticalPadding && min <= v <= max
    ensures VerticalPadding <= TransformY(canvasHeight, min, max, v) <= canvasHeight - VerticalPadding
  {
    var h := AvailableHeight(canvasHeight);
    var t := (max - v) / (max - min);
    UnitFraction(max - v, max - min);
    ScaleWithin(h, t);
  }

  lemma UnitFraction(a: real, d: real)
    requires 0.0 <= a <= d && d > 0.0
    ensures 0.0 <= a / d <= 1.0
  {
  }

  lemma ScaleWithin(h: real, t: real)
    requires h >= 0.0 && 0.0 <= t <= 1.0
    ensures 0.0 <= h * t <= h
  {
    assert h * (1.0 - t) >= 0.0;
  }

  // ---------------------------------------------------------------------------
  // Classification and the strokes of one frame

  datatype Color = Gray | Red | Green

  /** The stroke colour of a candle: gray when it has no range, otherwise red
      for a bearish candle and green for a bullish one (ties go to green). */
  function Classify(c: Candle): (k: Color)
    ensures k == Gray <==> c.low == c.high
    ensures k == Red <==> c.low != c.high && c.close < c.open
    ensures k == Green <==> c.low != c.high && c.close >= c.open
  {
    if c.low == c.high then Gray
    else if c.open > c.close then Red
    else Green
  }

  /** One vertical line handed to the canvas: its colour, its line width, its x
      and the y it runs from and to. */
  datatype Stroke = Stroke(color: Color, lineWidth: real, x: real, fromY: real, toY: real)

  /** What one iteration of the drawing loop hands to the canvas: a one-pixel
      tick for a gray candle, otherwise a wick then a body. */
  datatype Mark = Tick(line: Stroke) | Bar(wick: Stroke, body: Stroke)

  /** The values `animate` computes once per frame. */
  datatype Frame = Frame(canvasHeight: real, gap: real, min: real, max: real)

  /** A frame whose price range is not zero, so `transformY` divides by a
      nonzero number. The range may be negative when every candle has its high
      below its low; such a frame is still drawn. */
  predicate ValidFrame(f: Frame) {
    f.min != f.max
  }

  function FrameOf(cs: seq<Candle>, canvasWidth: real, canvasHeight: real): (f: Frame)
    requires cs != [] && PriceRange(cs) != 0.0
    ensures ValidFrame(f)
  {
    Frame(canvasHeight, CandleGap(canvasWidth, |cs|), MinLow(cs), MaxHigh(cs))
  }

  /** The strokes for candle `i`. */
  function MarkOf(f: Frame, i: nat, c: Candle): Mark
    requires ValidFrame(f)
  {
    var x := CandleX(f.gap, i);
    var width := CandleWidth(f.gap);
    var yOpen := TransformY(f.canvasHeight, f.min, f.max, c.open);
    var color := Classify(c);
    if color == Gray then
      Tick(Stroke(Gray, width, x, yOpen, yOpen + 1.0))
    else
      var yHigh := TransformY(f.canvasHeight, f.min, f.max, c.high);
      var yLow := TransformY(f.canvasHeight, f.min, f.max, c.low);
      var yClose := TransformY(f.canvasHeight, f.min, f.max, c.close);
      Bar(Stroke(color, 1.0, x, yHigh, yLow), Stroke(color, width, x, yOpen, yClose))
  }

  /** The x at which a mark is drawn. */
  function MarkX(m: Mark): real {
    match m
    case Tick(line) => line.x
    case Bar(wick, _) => wick.x
  }

  /** The strokes of a whole frame, one mark per candle in index order. */
  function FrameMarks(cs: seq<Candle>, canvasWidth: real, canvasHeight: real): seq<Mark>
    requires cs == [] || PriceRange(cs) != 0.0
  {
    if cs == [] then []
    else seq(|cs|, i requires 0 <= i < |cs| => MarkOf(FrameOf(cs, canvasWidth, canvasHeight), i, cs[i]))
  }

  /** The drawing loop of `animate`: each index from 0 to n - 1 once, in order. */
  method DrawCandles(cs: seq<Candle>, canvasWidth: real, canvasHeight: real) returns (marks: seq<Mark>)
    requires cs == [] || PriceRange(cs) != 0.0
    ensures marks == FrameMarks(cs, canvasWidth, canvasHeight)
  {
    marks := [];
    if cs == [] {
      return;
    }
    var min, max := MinLow(cs), MaxHigh(cs);
    var candleGap := CandleGap(canvasWidth, |cs|);
    var candleWidth := CandleWidth(candleGap);
    for i := 0 to |cs|
      invariant |marks| == i
      invariant forall k :: 0 <= k < i ==> marks[k] == MarkOf(Frame(canvasHeight, candleGap, min, max), k, cs[k])
    {
      var candle := cs[i];
      var x := CandleX(candleGap, i);
      var yOpen := TransformY(canvasHeight, min, max, candle.open);
      var yHigh := TransformY(canvasHeight, min, max, candle.high);
      var yLow := TransformY(canvasHeight, min, max, candle.low);
      var yClose := TransformY(canvasHeight, min, max, candle.close);
      if candle.low == candle.high {
        marks := marks + [Tick(Stroke(Gray, candleWidth, x, yOpen, yOpen + 1.0))];
        continue;
      }
      var color := if candle.open > candle.close then Red else Green;
      marks := marks + [Bar(Stroke(color, 1.0, x, yHigh, yLow), Stroke(color, candleWidth, x, yOpen, yClose))];
    }
  }

  /** Across a frame the marks go left to right, each body inside the canvas and
      clear of its neighbour's. */
  lemma FrameLayout(cs: seq<Candle>, canvasWidth: real, canvasHeight: real)
    requires cs != [] && PriceRange(cs) != 0.0 && canvasWidth > 0.0
    ensures var marks := FrameMarks(cs, canvasWidth, canvasHeight);
      var half := CandleWidth(CandleGap(canvasWidth, |cs|)) / 2.0;
      |marks| == |cs| &&
      (forall i, j :: 0 <= i < j < |marks| ==> MarkX(marks[i]) < MarkX(marks[j])) &&
      (forall i :: 0 <= i < |marks| ==> 0.0 < MarkX(marks[i]) - half && MarkX(marks[i]) + half < canvasWidth) &&
      (forall i :: 0 <= i < |marks| - 1 ==> MarkX(marks[i]) + half < MarkX(marks[i + 1]) - half)
  {
    var marks := FrameMarks(cs, canvasWidth, canvasHeight);
    var g := CandleGap(canvasWidth, |cs|);
    assert forall i :: 0 <= i < |marks| ==> MarkX(marks[i]) == CandleX(g, i);
    forall i, j | 0 <= i < j < |marks|
      ensures MarkX(marks[i]) < MarkX(marks[j])
    {
      CandleXIncreasing(canvasWidth, |cs|, i, j);
    }
    forall i | 0 <= i < |marks|
      ensures 0.0 < MarkX(marks[i]) - CandleWidth(g) / 2.0 && MarkX(marks[i]) + CandleWidth(g) / 2.0 < canvasWidth
    {
      CandleXWithinCanvas(canvasWidth, |cs|, i);
    }
    forall i | 0 <= i < |marks| - 1
      ensures MarkX(marks[i]) + CandleWidth(g) / 2.0 < MarkX(marks[i + 1]) - CandleWidth(g) / 2.0
    {
      CandleSpacing(canvasWidth, |cs|, i);
    }
  }

  /** A flat candle is a single gray tick with no wick; any other candle gets a
      wick from its high down to its low and a body from open to close in its
      colour, and when its open and close lie within its range the body lies
      within the wick. */
  lemma MarkShape(f: Frame, i: nat, c: Candle)
    requires ValidFrame(f)
    ensures MarkOf(f, i, c).Tick? <==> c.low == c.high
    ensures MarkOf(f, i, c).Tick? ==> MarkOf(f, i, c).line.color == Gray
    ensures MarkOf(f, i, c).Bar? ==>
      var m := MarkOf(f, i, c);
      m.wick.color == m.body.color == Classify(c) != Gray &&
      m.wick.x == m.body.x
    ensures MarkOf(f, i, c).Bar? && f.min < f.max && f.canvasHeight > 2.0 * VerticalPadding ==>
      var m := MarkOf(f, i, c);
      (c.low < c.high ==> m.wick.fromY < m.wick.toY) &&
      (c.low <= c.open <= c.high && c.low <= c.close <= c.high ==>
        m.wick.fromY <= m.body.fromY <= m.wick.toY && m.wick.fromY <= m.body.toY <= m.wick.toY)
  {
    var m := MarkOf(f, i, c);
    if m.Bar? && f.min < f.max && f.canvasHeight > 2.0 * VerticalPadding {
      TransformYDecreasing(f.canvasHeight, f.min, f.max, c.low, c.high);
      TransformYDecreasing(f.canvasHeight, f.min, f.max, c.open, c.high);
      TransformYDecreasing(f.canvasHeight, f.min, f.max, c.low, c.open);
      TransformYDecreasing(f.canvasHeight, f.min, f.max, c.close, c.high);
      TransformYDecreasing(f.canvasHeight, f.min, f.max, c.low, c.close);
    }
  }
}
