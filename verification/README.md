# OHLC candlestick chart: decoder and frame geometry

A Dafny model of the two computational parts of a browser candlestick chart:

- **The market-data decoder** (`market_data.dfy`, module `MarketData`). A flat
  array of nullable numbers is scanned with a cursor. A `null` slot is a gap:
  it is dropped, or becomes a flat candle at the previous close. Any other slot
  starts a 5-slot tuple (open, high, low, close, volume) that yields one candle;
  the volume is not read. The loop is the method `GetCandlesFromMarketData`,
  proved equal to the recursive specification `Decode`. The properties of the
  decoder are lemmas about `Decode`.
- **One frame of the chart** (`chart.dfy`, module `Chart`). This covers the
  min/max fold over the candles, the price range, and the horizontal layout
  (pitch, offset, body width, x of each candle). It also covers the price-to-y
  mapping, the gray/red/green classification, and the drawing loop. That loop
  is the method `DrawCandles`. It returns, candle by candle, the strokes (colour,
  line width, x, from-y, to-y) that the frame hands to the canvas.

Modelling choices:

- JavaScript values in the decoder are explicit: `Value = Undefined | Null | Num(real)`.
  An input slot is a `Value` other than `Undefined`. A read past the end of the
  array yields `Undefined`, so a trailing partial tuple is modelled, not excluded
  by a precondition: it still emits a candle, and the fields past the end are
  undefined. This follows the code. One might expect a trailing partial tuple
  to be dropped, and the code does not do that. A `null` inside a tuple
  (positions 1 to 3) is copied into the candle unchecked.
- The gap guard is modelled as written. A gap is dropped whenever the previous
  close is falsy: no candle yet, a close of `0`, or a `null` or `undefined`
  close. The decoder takes this guard as a parameter (`GapGuard`). `FalsyClose`
  is the code's guard. `NoCandleYet` is the guard that the comment beside the
  code describes (see Findings). `DecodeLength`, `DecodeAppend`, `DecodePrefix`,
  `GapsOnly`, `DecodeEmpty`, `TupleAfter`, `VolumeIgnored`, `TrailingPartial` and
  `WellFormedNumeric` take the guard as a parameter and so hold for both.
  `GapAfter` and `IntendedGapAfter` state the one place where the two differ.
- Chart arithmetic is over `real`. This idealises JavaScript doubles: there is
  no rounding and no NaN. The fold's seeds, plus and minus infinity, are
  modelled by the datatype `Ext`.
- The input array is a `seq`, because the decoder never writes to it. The
  `candles` array that the decoder pushes to is a local `seq` that is only
  appended to.

## Model

| member | source | states |
|---|---|---|
| MarketData.GetCandlesFromMarketData | src/utils/getCandlesFromMarketData.ts:8-61 | The loop terminates: the cursor moves by 1 on a gap and by 5 on a tuple. The candles it returns are exactly `Decode(data)`. The loop invariant shows that candles are only appended |
| MarketData.DecodeLength | src/utils/getCandlesFromMarketData.ts:26-58 | From any position and any last candle, the decoder emits at most as many candles as there are slots left |
| MarketData.DecodeNoLonger | src/utils/getCandlesFromMarketData.ts:26-58 | The decoded series is never longer than the input array |
| MarketData.DecodeAppend | src/utils/getCandlesFromMarketData.ts:22-57 | If the first part of a stream ends on a slot boundary, decoding the whole stream gives the first part's candles followed by the second part's. The previous candle (and so the previous close) carries over into the second part |
| MarketData.DecodePrefix | src/utils/getCandlesFromMarketData.ts:38-57 | Candles are only appended: the output for an aligned prefix is a prefix of the output for the whole stream, under either gap guard |
| MarketData.GapsOnly | src/utils/getCandlesFromMarketData.ts:27-34 | Under either gap guard, while gaps are being dropped (the code's guard: the previous close is falsy; the intended guard: no candle yet), the remaining slots decode to nothing exactly when they are all null (both directions) |
| MarketData.DecodeEmpty | src/utils/getCandlesFromMarketData.ts:27-34 | Under either gap guard, a stream decodes to the empty series exactly when every slot is null |
| MarketData.GapAfter | src/utils/getCandlesFromMarketData.ts:27-45 | A gap after an aligned prefix emits nothing when the previous close is falsy (no candle yet, or a close of 0, null or undefined). Otherwise it emits exactly one candle with open, high, low and close all equal to that close. The cursor moves by one slot either way |
| MarketData.TupleAfter | src/utils/getCandlesFromMarketData.ts:50-57 | A non-null slot starting a whole tuple emits exactly the candle `(t[0], t[1], t[2], t[3])`, with nulls in `t[1..3]` copied unchecked. Decoding resumes five slots on, from that candle. This holds under either gap guard |
| MarketData.VolumeIgnored | src/utils/getCandlesFromMarketData.ts:48-57 | Under either gap guard, replacing the volume slot of a tuple by any value leaves the decoded series unchanged |
| MarketData.TrailingPartial | src/utils/getCandlesFromMarketData.ts:50-57 | A non-null slot among the last four still emits one candle. Its high, low or close is undefined when it would be read past the end of the array. This holds under either gap guard |
| MarketData.TrailingPartialExample | src/utils/getCandlesFromMarketData.ts:50-55 | `1,2,0,1,10,5,6` decodes to two candles. The second is `(5, 6, undefined, undefined)` |
| MarketData.WellFormedNumeric | src/utils/getCandlesFromMarketData.ts:50-55 | On a stream of whole gaps and whole tuples with numeric open, high, low and close, every decoded candle holds four numbers, so the casts to number are honest. This holds under either gap guard |
| MarketData.ZeroCloseDropsGap | src/utils/getCandlesFromMarketData.ts:29-34 | As written, `1,2,0,0,10,null` decodes to one candle: the gap after a candle closing at 0 is dropped |
| MarketData.IntendedGapAfter | src/utils/getCandlesFromMarketData.ts:15-16 | With the intended guard, a gap after an aligned prefix is dropped exactly when no candle precedes it. Otherwise it emits one flat candle at the previous close, whatever that close is |
| MarketData.ZeroCloseKeepsGapIntended | src/utils/getCandlesFromMarketData.ts:15-16 | With the intended guard, `1,2,0,0,10,null` decodes to the candle and a flat candle at 0 |
| Chart.FoldBoundsSpec | src/components/Chart/Chart.tsx:26-32 | The min/max fold, from any seed that is not an extreme in the wrong direction: its min is finite once a candle has been seen, is at most every low and the seed, and equals one of them. Likewise for max and the highs |
| Chart.MinLow | src/components/Chart/Chart.tsx:26-32 | For a non-empty series the fold's `min` is at most every low and equals some candle's low |
| Chart.MaxHigh | src/components/Chart/Chart.tsx:26-32 | For a non-empty series the fold's `max` is at least every high and equals some candle's high |
| Chart.PriceRange | src/components/Chart/Chart.tsx:26-33 | If some candle has its low at or below its high, then `priceRange = max - min >= 0` |
| Chart.CandleXIncreasing | src/components/Chart/Chart.tsx:54 | With a positive canvas width and n > 0 candles, x strictly increases with the index |
| Chart.CandleSpacing | src/components/Chart/Chart.tsx:36-38 | Adjacent x positions differ by exactly the pitch. The pitch exceeds the body width, so neighbouring bodies do not overlap |
| Chart.CandleXWithinCanvas | src/components/Chart/Chart.tsx:36-38 | For every index `0 <= i < n`, the whole body lies strictly between 0 and the canvas width, and so does x |
| Chart.TransformYEnds | src/components/Chart/Chart.tsx:41-48 | When `priceRange` is not zero (even when negative), the max price maps to the top padding and the min price to the canvas height minus the padding |
| Chart.TransformYDecreasing | src/components/Chart/Chart.tsx:47-48 | When `priceRange > 0` and the canvas is taller than both paddings, `transformY` is strictly decreasing: `a < b` exactly when `y(b) < y(a)` |
| Chart.TransformYInBand | src/components/Chart/Chart.tsx:44-48 | Prices between min and max map into the padded band |
| Chart.Classify | src/components/Chart/Chart.tsx:61-76 | Every candle gets exactly one of three colours. It is gray iff low equals high. It is red iff low differs from high and open is above close. Otherwise it is green, including open equal to close with a nonzero range |
| Chart.DrawCandles | src/components/Chart/Chart.tsx:50-91 | The drawing loop visits every index `0..n-1` exactly once, in ascending order, and yields the marks of `FrameMarks`: one per candle, at that candle's own x and y values |
| Chart.FrameLayout | src/components/Chart/Chart.tsx:36-54 | Across a frame, the marks go strictly left to right. Every body is inside the canvas and clear of its neighbour's body |
| Chart.MarkShape | src/components/Chart/Chart.tsx:61-91 | A gray candle gets a single tick and skips the wick and body. Any other candle gets a wick and a body, at the same x and in its classification colour. When `priceRange > 0` and the canvas is taller than both paddings, the wick runs from the high down to the low, and when open and close lie within the range, the body lies within the wick |
| MarketData.DecodeFrom | src/utils/getCandlesFromMarketData.ts:26-58 | Definition, no contract: the decoding loop as a recursive function over the remaining slots, the last candle and the gap guard. The lemmas above state its properties |
| Chart.FoldBounds | src/components/Chart/Chart.tsx:26-32 | Definition, no contract: the min/max fold over the candles from the seeds plus and minus infinity. `FoldBoundsSpec` states its properties |
| Chart.CandleGap | src/components/Chart/Chart.tsx:36-38 | Definition, no contract: the pitch, canvas width over candle count. `CandleSpacing` and `CandleXWithinCanvas` state its properties |
| Chart.CandleX | src/components/Chart/Chart.tsx:54 | Definition, no contract: the x of candle i, half a pitch in from its slot. `CandleXIncreasing`, `CandleSpacing` and `CandleXWithinCanvas` state its properties |
| Chart.TransformY | src/components/Chart/Chart.tsx:47-48 | Definition, no contract: price to pixel row. `TransformYEnds`, `TransformYDecreasing` and `TransformYInBand` state its properties |
| Chart.MarkOf | src/components/Chart/Chart.tsx:54-91 | Definition, no contract: the strokes drawn for one candle. `MarkShape` states their shape |

## Left out

- Canvas side effects are not modelled: clearing the canvas, paths, `stroke`, and setting the style and line width. Only the values handed to them are modelled (`Chart.Stroke`, `Chart.Mark`).
- The animation loop is not modelled: `requestAnimationFrame`, cancelling it on teardown, and the React hooks `useCallback`, `useEffect` and `useRef`. This is host scheduling and component lifecycle.
- `devicePixelRatio` scaling and the JSX of the canvas element are UI plumbing.
- Chart.DrawCandles: requires a nonzero `priceRange` for a non-empty series. With a zero price range the source divides by zero and draws at NaN. A negative range (every high below the lowest low) is allowed and drawn upside down, as the source does. With no candles the loop does not run, and the model returns no marks without computing the (infinite) pitch.
- Chart.TransformYDecreasing: requires a canvas taller than the two paddings (40 pixels). On a shorter canvas the available height is not positive, and the mapping is not decreasing.
- Floating point: rounding, NaN inputs and infinities other than the fold's seeds are not modelled, because prices and pixels are reals. In the decoder, a NaN close would be falsy like 0.
- Hit-testing and candle selection do not exist in this code: the info panel is always given no candle. They are not modelled.
- `src/App.tsx` (URL parsing, resize listener, status rendering), `src/hooks/useCandleLoader.ts` (placeholder data made with `Math.cos`/`Math.sin`), `src/utils/fetcher.ts` (network I/O), and the presentational components `CandleInfo` and `AssetSelect` are not part of this model.
- `src/types/candle.ts` is not part of this model. The candle record is taken to have the four numeric fields open, high, low and close.

## Findings

| source | as written | input that shows it | evidently intended | confidence | as-written member | corrected member |
|---|---|---|---|---|---|---|
| src/utils/getCandlesFromMarketData.ts:31 | A gap is dropped whenever the previous close is falsy, so a gap after a candle that closed at 0 disappears | `1,2,0,0,10,null` decodes to one candle | Only gaps that no candle precedes are dropped; every later gap becomes a flat candle at the previous close (the comment at lines 15-16) | medium; not executed | MarketData.ZeroCloseDropsGap | MarketData.IntendedGapAfter |
