/*
 * The market-data decoder: a flat stream of nullable numbers becomes a
 * sequence of OHLC candles (src/utils/getCandlesFromMarketData.ts).
 *
 * The stream is scanned left to right with a cursor. A null slot is a gap:
 * it is dropped or becomes a flat candle at the previous close, and the
 * cursor moves by one. Any other slot starts a 5-slot tuple
 * (open, high, low, close, volume): one candle is emitted, the volume is
 * never read and the cursor moves by five.
 *
 * JavaScript values are modelled explicitly: a read past the end of the
 * array yields `undefined`, and a `null` inside a tuple is copied into the
 * candle unchecked. Numbers are idealised as reals.
 */
module MarketData {

  /** A JavaScript value as the decoder can meet it. */
  datatype Value = Undefined | Null | Num(n: real)

  /** An element of the input array: a number or null, never undefined. */
  type Slot = v: Value | !v.Undefined? witness Null

  /** JavaScript truthiness of a value: `undefined`, `null` and `0` are falsy. */
  predicate Truthy(v: Value) {
    v.Num? && v.n != 0.0
  }

  /** JavaScript array indexing: undefined outside the array. */
  function Read(data: seq<Slot>, k: nat): Value {
    if k < |data| then data[k] else Undefined
  }

  /** A candle as the decoder builds it; the record type claims numbers, but
      the fields hold whatever was read. */
  datatype Candle = Candle(open: Value, high: Value, low: Value, close: Value)

  datatype Option<T> = None | Some(value: T)

  /** The last candle pushed so far, if any. */
  function Last(candles: seq<Candle>): Option<Candle> {
    if candles == [] then None else Some(candles[|candles| - 1])
  }

  /** The last candle after `out` has been pushed behind a series whose last candle was `last`. */
  function After(last: Option<Candle>, out: seq<Candle>): Option<Candle> {
    if out == [] then last else Last(out)
  }

  /** The close of the last candle pushed; undefined while there is none. */
  function PrevClose(last: Option<Candle>): Value {
    match last
    case None => Undefined
    case Some(c) => c.close
  }

  /** Which gaps are dropped. `FalsyClose` is the guard the code uses
      (a falsy previous close); `NoCandleYet` drops only the gaps that no candle precedes,
      which is what the comment beside the code asks for. */
  datatype GapGuard = FalsyClose | NoCandleYet

  predicate DropsGap(guard: GapGuard, last: Option<Candle>) {
    match guard
    case FalsyClose => !Truthy(PrevClose(last))
    case NoCandleYet => last.None?
  }

  /** The candle that fills a gap: all four prices at the previous close. */
  function Flat(v: Value): Candle {
    Candle(v, v, v, v)
  }

  /** The candle read from a tuple starting at `s[0]`; `s[4]` (volume) is not read. */
  function TupleCandle(s: seq<Slot>): Candle
    requires s != []
  {
    Candle(s[0], Read(s, 1), Read(s, 2), Read(s, 3))
  }

  /** The suffix from position `k`; empty once the cursor has run past the end. */
  function Drop(s: seq<Slot>, k: nat): seq<Slot> {
    if k <= |s| then s[k..] else []
  }

  /** The candles decoded from the remaining slots `s`, given the last candle
      already pushed. */
  function DecodeFrom(s: seq<Slot>, guard: GapGuard, last: Option<Candle>): seq<Candle>
    decreases |s|
  {
    if s == [] then []
    else if s[0] == Null then
      if DropsGap(guard, last) then DecodeFrom(s[1..], guard, last)
      else
        var c := Flat(PrevClose(last));
        [c] + DecodeFrom(s[1..], guard, Some(c))
    else
      var c := TupleCandle(s);
      [c] + DecodeFrom(Drop(s, 5), guard, Some(c))
  }

  /** The decoder as written. */
  function Decode(data: seq<Slot>): seq<Candle> {
    DecodeFrom(data, FalsyClose, None)
  }

  /** The decoder with the gap guard its comment describes. */
  function DecodeIntended(data: seq<Slot>): seq<Candle> {
    DecodeFrom(data, NoCandleYet, None)
  }

  /** The decode loop: a cursor `i` over `data` and a `candles` array that is
      only ever pushed to. */
  method GetCandlesFromMarketData(data: seq<Slot>) returns (candles: seq<Candle>)
    ensures candles == Decode(data)
  {
    candles := [];
    var i: nat := 0;
    while i < |data|
      invariant candles + DecodeFrom(Drop(data, i), FalsyClose, Last(candles)) == Decode(data)
      decreases |data| - i
    {
      if data[i] == Null {
        var prevClose := PrevClose(Last(candles));
        GapStep(data, i, Last(candles));
        if !Truthy(prevClose) {
          i := i + 1;
          continue;
        }
        ghost var before := candles;
        candles := candles + [Candle(prevClose, prevClose, prevClose, prevClose)];
        i := i + 1;
        AppendLast(before, Flat(prevClose), DecodeFrom(Drop(data, i), FalsyClose, Some(Flat(prevClose))));
        continue;
      }
      TupleStep(data, i, Last(candles));
      ghost var before := candles;
      var c := Candle(data[i], Read(data, i + 1), Read(data, i + 2), Read(data, i + 3));
      candles := candles + [c];
      i := i + 5;
      AppendLast(before, c, DecodeFrom(Drop(data, i), FalsyClose, Some(c)));
    }
  }

  /** Pushing `c` moves it from the front of the rest to the end of the candles. */
  lemma AppendLast(candles: seq<Candle>, c: Candle, rest: seq<Candle>)
    ensures Last(candles + [c]) == Some(c)
    ensures (candles + [c]) + rest == candles + ([c] + rest)
  {
  }

  /** One gap step of the loop, stated on the cursor position. */
  lemma GapStep(data: seq<Slot>, i: nat, last: Option<Candle>)
    requires i < |data| && data[i] == Null
    ensures DecodeFrom(Drop(data, i), FalsyClose, last)
         == (if Truthy(PrevClose(last)) then [Flat(PrevClose(last))] else [])
            + DecodeFrom(Drop(data, i + 1), FalsyClose,
                         if Truthy(PrevClose(last)) then Some(Flat(PrevClose(last))) else last)
  {
    assert Drop(data, i)[1..] == Drop(data, i + 1);
  }

  /** One tuple step of the loop, stated on the cursor position. */
  lemma TupleStep(data: seq<Slot>, i: nat, last: Option<Candle>)
    requires i < |data| && data[i] != Null
    ensures var c := Candle(data[i], Read(data, i + 1), Read(data, i + 2), Read(data, i + 3));
      DecodeFrom(Drop(data, i), FalsyClose, last) == [c] + DecodeFrom(Drop(data, i + 5), FalsyClose, Some(c))
  {
    var rest := Drop(data, i);
    assert rest[0] == data[i];
    assert Read(data, i + 1) == Read(rest, 1) && Read(data, i + 2) == Read(rest, 2)
      && Read(data, i + 3) == Read(rest, 3);
    assert Drop(data, i + 5) == Drop(rest, 5);
  }

  // ---------------------------------------------------------------------------
  // Properties of the decoder

  /** Each step emits at most one candle and consumes at least one slot. */
  lemma {:induction false} DecodeLength(s: seq<Slot>, guard: GapGuard, last: Option<Candle>)
    ensures |DecodeFrom(s, guard, last)| <= |s|
    decreases |s|
  {
    if s == [] {
    } else if s[0] == Null {
      if DropsGap(guard, last) {
        DecodeLength(s[1..], guard, last);
      } else {
        DecodeLength(s[1..], guard, Some(Flat(PrevClose(last))));
      }
    } else {
      DecodeLength(Drop(s, 5), guard, Some(TupleCandle(s)));
    }
  }

  /** The decoded series is never longer than the stream. */
  lemma DecodeNoLonger(data: seq<Slot>)
    ensures |Decode(data)| <= |data|
  {
    DecodeLength(data, FalsyClose, None);
  }

  /** A stream that ends exactly on a slot boundary: a sequence of whole gaps and
      whole 5-slot tuples. */
  predicate Aligned(s: seq<Slot>)
    decreases |s|
  {
    s == [] ||
    (s[0] == Null && Aligned(s[1..])) ||
    (s[0] != Null && |s| >= 5 && Aligned(s[5..]))
  }

  /** Decoding is compositional at slot boundaries: the candles of the first part
      are followed by those of the second, and the second part starts from the
      last candle of the first. */
  lemma {:induction false} DecodeAppend(s1: seq<Slot>, s2: seq<Slot>, guard: GapGuard, last: Option<Candle>)
    requires Aligned(s1)
    ensures DecodeFrom(s1 + s2, guard, last)
         == DecodeFrom(s1, guard, last) + DecodeFrom(s2, guard, After(last, DecodeFrom(s1, guard, last)))
    decreases |s1|, 1
  {
    if s1 == [] {
      assert s1 + s2 == s2;
    } else if s1[0] == Null {
      DecodeAppendGap(s1, s2, guard, last);
    } else {
      DecodeAppendTuple(s1, s2, guard, last);
    }
  }

  lemma {:induction false} DecodeAppendGap(s1: seq<Slot>, s2: seq<Slot>, guard: GapGuard, last: Option<Candle>)
    requires Aligned(s1) && s1 != [] && s1[0] == Null
    ensures DecodeFrom(s1 + s2, guard, last)
         == DecodeFrom(s1, guard, last) + DecodeFrom(s2, guard, After(last, DecodeFrom(s1, guard, last)))
    decreases |s1|, 0
  {
    assert (s1 + s2)[0] == Null;
    assert (s1 + s2)[1..] == s1[1..] + s2;
    if DropsGap(guard, last) {
      DecodeAppend(s1[1..], s2, guard, last);
    } else {
      var c := Flat(PrevClose(last));
      var out1 := DecodeFrom(s1[1..], guard, Some(c));
      var out2 := DecodeFrom(s2, guard, After(Some(c), out1));
      assert DecodeFrom(s1, guard, last) == [c] + out1;
      assert DecodeFrom(s1 + s2, guard, last) == [c] + DecodeFrom(s1[1..] + s2, guard, Some(c));
      DecodeAppend(s1[1..], s2, guard, Some(c));
      AfterCons(last, c, out1);
      assert [c] + (out1 + out2) == ([c] + out1) + out2;
    }
  }

  lemma {:induction false} DecodeAppendTuple(s1: seq<Slot>, s2: seq<Slot>, guard: GapGuard, last: Option<Candle>)
    requires Aligned(s1) && s1 != [] && s1[0] != Null
    ensures DecodeFrom(s1 + s2, guard, last)
         == DecodeFrom(s1, guard, last) + DecodeFrom(s2, guard, After(last, DecodeFrom(s1, guard, last)))
    decreases |s1|, 0
  {
    var c := TupleCandle(s1);
    var out1 := DecodeFrom(Drop(s1, 5), guard, Some(c));
    var out2 := DecodeFrom(s2, guard, After(Some(c), out1));
    assert (s1 + s2)[0] != Null;
    assert TupleCandle(s1 + s2) == c;
    assert Drop(s1 + s2, 5) == Drop(s1, 5) + s2;
    assert DecodeFrom(s1, guard, last) == [c] + out1;
    assert DecodeFrom(s1 + s2, guard, last) == [c] + DecodeFrom(Drop(s1, 5) + s2, guard, Some(c));
    DecodeAppend(Drop(s1, 5), s2, guard, Some(c));
    AfterCons(last, c, out1);
    assert [c] + (out1 + out2) == ([c] + out1) + out2;
  }

  lemma AfterCons(last: Option<Candle>, c: Candle, rest: seq<Candle>)
    ensures After(last, [c] + rest) == After(Some(c), rest)
  {
  }

  /** Candles are only appended: the output for an aligned prefix of the stream is
      a prefix of the output for the whole stream, under either gap guard. */
  lemma DecodePrefix(s1: seq<Slot>, s2: seq<Slot>, guard: GapGuard)
    requires Aligned(s1)
    ensures DecodeFrom(s1, guard, None) <= DecodeFrom(s1 + s2, guard, None)
  {
    DecodeAppend(s1, s2, guard, None);
  }

  /** While gaps are being dropped, the decoder emits nothing exactly when every
      remaining slot is null. */
  lemma {:induction false} GapsOnly(s: seq<Slot>, guard: GapGuard, last: Option<Candle>)
    requires DropsGap(guard, last)
    ensures DecodeFrom(s, guard, last) == [] <==> forall k :: 0 <= k < |s| ==> s[k] == Null
    decreases |s|
  {
    if s != [] && s[0] == Null {
      GapsOnly(s[1..], guard, last);
      assert forall k :: 1 <= k < |s| ==> s[k] == s[1..][k - 1];
    }
  }

  /** Under either gap guard, a stream decodes to no candle at all exactly when
      it holds only nulls. */
  lemma DecodeEmpty(data: seq<Slot>, guard: GapGuard)
    ensures DecodeFrom(data, guard, None) == [] <==> forall k :: 0 <= k < |data| ==> data[k] == Null
  {
    GapsOnly(data, guard, None);
  }

  /** A gap after an aligned prefix: dropped when the previous close is falsy
      (there is no candle yet, or its close is 0, null or undefined); otherwise
      exactly one flat candle at that close. */
  lemma GapAfter(s1: seq<Slot>, s2: seq<Slot>)
    requires Aligned(s1)
    ensures !Truthy(PrevClose(Last(Decode(s1)))) ==>
      Decode(s1 + [Null] + s2) == Decode(s1) + DecodeFrom(s2, FalsyClose, Last(Decode(s1)))
    ensures Truthy(PrevClose(Last(Decode(s1)))) ==>
      var c := Flat(PrevClose(Last(Decode(s1))));
      Decode(s1 + [Null] + s2) == Decode(s1) + [c] + DecodeFrom(s2, FalsyClose, Some(c))
  {
    assert s1 + [Null] + s2 == s1 + ([Null] + s2);
    DecodeAppend(s1, [Null] + s2, FalsyClose, None);
    assert ([Null] + s2)[1..] == s2;
  }

  /** A whole tuple after an aligned prefix emits exactly the candle
      (t[0], t[1], t[2], t[3]); the volume t[4] is not read, and nulls in
      t[1..3] are copied unchecked. Decoding resumes after the tuple. */
  lemma TupleAfter(s1: seq<Slot>, t: seq<Slot>, s2: seq<Slot>, guard: GapGuard)
    requires Aligned(s1) && |t| == 5 && t[0] != Null
    ensures DecodeFrom(s1 + t + s2, guard, None)
         == DecodeFrom(s1, guard, None) + [Candle(t[0], t[1], t[2], t[3])]
            + DecodeFrom(s2, guard, Some(Candle(t[0], t[1], t[2], t[3])))
  {
    assert s1 + t + s2 == s1 + (t + s2);
    DecodeAppend(s1, t + s2, guard, None);
    assert TupleCandle(t + s2) == Candle(t[0], t[1], t[2], t[3]);
    assert Drop(t + s2, 5) == s2;
  }

  /** The volume slot of a tuple can hold anything: the output does not change. */
  lemma VolumeIgnored(s1: seq<Slot>, t: seq<Slot>, s2: seq<Slot>, volume: Slot, guard: GapGuard)
    requires Aligned(s1) && |t| == 5 && t[0] != Null
    ensures DecodeFrom(s1 + t + s2, guard, None) == DecodeFrom(s1 + t[4 := volume] + s2, guard, None)
  {
    TupleAfter(s1, t, s2, guard);
    TupleAfter(s1, t[4 := volume], s2, guard);
  }

  /** A trailing partial tuple is not dropped: it emits one more candle, whose
      fields beyond the end of the stream are undefined. */
  lemma TrailingPartial(s1: seq<Slot>, t: seq<Slot>, guard: GapGuard)
    requires Aligned(s1) && 0 < |t| < 5 && t[0] != Null
    ensures DecodeFrom(s1 + t, guard, None)
         == DecodeFrom(s1, guard, None) + [Candle(t[0], Read(t, 1), Read(t, 2), Read(t, 3))]
    ensures |t| < 4 ==> DecodeFrom(s1 + t, guard, None)[|DecodeFrom(s1, guard, None)|].close == Undefined
    ensures |t| < 3 ==> DecodeFrom(s1 + t, guard, None)[|DecodeFrom(s1, guard, None)|].low == Undefined
    ensures |t| < 2 ==> DecodeFrom(s1 + t, guard, None)[|DecodeFrom(s1, guard, None)|].high == Undefined
  {
    var prefix := DecodeFrom(s1, guard, None);
    DecodeAppend(s1, t, guard, None);
    assert DecodeFrom(t, guard, After(None, prefix))
        == [TupleCandle(t)] + DecodeFrom([], guard, Some(TupleCandle(t)));
  }

  /** Two candles come out of `1,2,0,1,10, 5,6`: the second one from the two
      trailing slots, with undefined low and close. */
  lemma TrailingPartialExample()
    ensures Decode([Num(1.0), Num(2.0), Num(0.0), Num(1.0), Num(10.0), Num(5.0), Num(6.0)])
         == [Candle(Num(1.0), Num(2.0), Num(0.0), Num(1.0)), Candle(Num(5.0), Num(6.0), Undefined, Undefined)]
  {
  }

  // ---------------------------------------------------------------------------
  // When the record type is honest

  /** A stream in the documented format: whole gaps, and whole tuples whose
      open, high, low and close are numbers (the volume may be null). */
  predicate WellFormed(s: seq<Slot>)
    decreases |s|
  {
    s == [] ||
    (s[0] == Null && WellFormed(s[1..])) ||
    (s[0].Num? && |s| >= 5 && s[1].Num? && s[2].Num? && s[3].Num? && WellFormed(s[5..]))
  }

  predicate IsNumeric(c: Candle) {
    c.open.Num? && c.high.Num? && c.low.Num? && c.close.Num?
  }

  /** On a well-formed stream every decoded candle holds four numbers, so the
      `as number` casts hold; this holds for both gap guards. */
  lemma {:induction false} WellFormedNumeric(s: seq<Slot>, guard: GapGuard, last: Option<Candle>)
    requires WellFormed(s)
    requires last.Some? ==> IsNumeric(last.value)
    ensures forall k :: 0 <= k < |DecodeFrom(s, guard, last)| ==> IsNumeric(DecodeFrom(s, guard, last)[k])
    decreases |s|
  {
    if s == [] {
    } else if s[0] == Null {
      if DropsGap(guard, last) {
        WellFormedNumeric(s[1..], guard, last);
      } else {
        WellFormedNumeric(s[1..], guard, Some(Flat(PrevClose(last))));
      }
    } else {
      assert Drop(s, 5) == s[5..];
      WellFormedNumeric(s[5..], guard, Some(TupleCandle(s)));
    }
  }

  // ---------------------------------------------------------------------------
  // The falsy-close guard

  /** As written, a gap after a candle that closed at 0 is dropped. */
  lemma ZeroCloseDropsGap()
    ensures Decode([Num(1.0), Num(2.0), Num(0.0), Num(0.0), Num(10.0), Null])
         == [Candle(Num(1.0), Num(2.0), Num(0.0), Num(0.0))]
  {
  }

  /** With the intended guard, a gap is dropped exactly when no candle precedes
      it; any later gap becomes a flat candle at the previous close, whatever
      that close is. */
  lemma IntendedGapAfter(s1: seq<Slot>, s2: seq<Slot>)
    requires Aligned(s1)
    ensures DecodeIntended(s1) == [] ==>
      DecodeIntended(s1 + [Null] + s2) == DecodeFrom(s2, NoCandleYet, None)
    ensures DecodeIntended(s1) != [] ==>
      var c := Flat(PrevClose(Last(DecodeIntended(s1))));
      DecodeIntended(s1 + [Null] + s2) == DecodeIntended(s1) + [c] + DecodeFrom(s2, NoCandleYet, Some(c))
  {
    assert s1 + [Null] + s2 == s1 + ([Null] + s2);
    DecodeAppend(s1, [Null] + s2, NoCandleYet, None);
    assert ([Null] + s2)[1..] == s2;
  }

  /** With the intended guard the same stream keeps its gap. */
  lemma ZeroCloseKeepsGapIntended()
    ensures DecodeIntended([Num(1.0), Num(2.0), Num(0.0), Num(0.0), Num(10.0), Null])
         == [Candle(Num(1.0), Num(2.0), Num(0.0), Num(0.0)), Flat(Num(0.0))]
  {
  }
}
