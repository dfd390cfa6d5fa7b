/** Three-minute marks (internal/ingest/marks.go): a price over the last buckets, a quoted
    mean when nothing traded, and a carried gap when a product has neither. */
module MarkSampling {
  import opened Options
  import opened Decimals
  import opened Aggregates
  import opened FundingRate

  const MINUTE: int := 60_000_000_000
  const WINDOW: int := 3 * MINUTE
  const BUCKETS_KEPT := 11
  const MIDS_KEPT := 64

  datatype BucketMark = BucketMark(end: int, vwap: Option<real>, volume: real)
  datatype MidMark = MidMark(at: int, mid: real)

  /** What a row weighs: its price, over the volume whose side is known. */
  function MarkOf(row: Row): BucketMark {
    BucketMark(row.end, row.vwap, row.buyVol + row.sellVol)
  }

  function Last<T>(s: seq<T>, max: nat): seq<T> {
    if |s| <= max then s else s[|s| - max..]
  }

  /** A bucket is stamped with its end, and weighs in the window that end falls in. */
  predicate Weighs(b: BucketMark, start: int, end: int) {
    b.vwap.Some? && b.volume > 0.0 && start < b.end <= end
  }

  function WeighedNotional(buckets: seq<BucketMark>, start: int, end: int): real {
    if buckets == [] then 0.0
    else
      var n := |buckets| - 1;
      WeighedNotional(buckets[..n], start, end) +
      if Weighs(buckets[n], start, end) then Times(buckets[n].vwap.value, buckets[n].volume) else 0.0
  }

  function WeighedVolume(buckets: seq<BucketMark>, start: int, end: int): real {
    if buckets == [] then 0.0
    else
      var n := |buckets| - 1;
      WeighedVolume(buckets[..n], start, end) + if Weighs(buckets[n], start, end) then buckets[n].volume else 0.0
  }

  function VwapOver(buckets: seq<BucketMark>, start: int, end: int): Option<real> {
    var volume := WeighedVolume(buckets, start, end);
    if volume > 0.0 then Some(Div(WeighedNotional(buckets, start, end), volume)) else None
  }

  /** The mids quoted in a window, summed and counted. */
  function Quoted(mids: seq<MidMark>, start: int, end: int): (real, nat) {
    if mids == [] then (0.0, 0)
    else
      var n := |mids| - 1;
      var (sum, count) := Quoted(mids[..n], start, end);
      if start <= mids[n].at < end then (sum + mids[n].mid, count + 1) else (sum, count)
  }

  function MidTwapOver(mids: seq<MidMark>, start: int, end: int): Option<real> {
    var (sum, count) := Quoted(mids, start, end);
    if count == 0 then None else Some(Div(sum, count as real))
  }

  method ComputeVwap(buckets: seq<BucketMark>, start: int, end: int) returns (v: Option<real>)
    ensures v == VwapOver(buckets, start, end)
  {
    var notional, volume := 0.0, 0.0;
    for i := 0 to |buckets|
      invariant notional == WeighedNotional(buckets[..i], start, end)
      invariant volume == WeighedVolume(buckets[..i], start, end)
    {
      assert buckets[..i + 1][..i] == buckets[..i];
      var b := buckets[i];
      if b.vwap.None? || b.volume <= 0.0 {
        continue;
      }
      if b.end > start && b.end <= end {
        notional := notional + Times(b.vwap.value, b.volume);
        volume := volume + b.volume;
      }
    }
    assert buckets[..|buckets|] == buckets;
    v := if volume > 0.0 then Some(Div(notional, volume)) else None;
  }

  method ComputeMidTwap(mids: seq<MidMark>, start: int, end: int) returns (v: Option<real>)
    ensures v == MidTwapOver(mids, start, end)
  {
    var sum, n := 0.0, 0;
    for i := 0 to |mids|
      invariant 0 <= n && (sum, n) == Quoted(mids[..i], start, end)
    {
      assert mids[..i + 1][..i] == mids[..i];
      if mids[i].at >= start && mids[i].at < end {
        sum, n := sum + mids[i].mid, n + 1;
      }
    }
    assert mids[..|mids|] == mids;
    v := if n == 0 then None else Some(Div(sum, n as real));
  }

  // ---------------------------------------------------------------------------
  // How close a mark is
  // ---------------------------------------------------------------------------

  /** A minute's trades, as the bucket that closed held them. */
  datatype Minute = Minute(end: int, trades: seq<Trade>)

  function MarksOf(minutes: seq<Minute>): seq<BucketMark> {
    seq(|minutes|, i requires 0 <= i < |minutes| => MarkOf(RowOf(minutes[i].end, minutes[i].trades)))
  }

  predicate AllPositive(minutes: seq<Minute>) {
    forall i :: 0 <= i < |minutes| ==> Positive(minutes[i].trades)
  }

  /** Every trade of the minutes in the window. */
  function TradesIn(minutes: seq<Minute>, start: int, end: int): seq<Trade> {
    if minutes == [] then []
    else
      var n := |minutes| - 1;
      TradesIn(minutes[..n], start, end) + if InWindow(minutes[n], start, end) then minutes[n].trades else []
  }

  function ExactPrice(trades: seq<Trade>): real
    requires TotalsOf(trades).volume != 0.0
  {
    TotalsOf(trades).notional / TotalsOf(trades).volume
  }

  predicate InWindow(m: Minute, start: int, end: int) {
    start < m.end <= end && m.trades != []
  }

  /** The size of a minute's prints of unknown side. */
  function UnknownSize(m: Minute): real {
    TotalsOf(m.trades).volume - TotalsOf(m.trades).buy - TotalsOf(m.trades).sell
  }

  /** What they come to at the minute's own price. */
  function UnknownWorth(m: Minute): real {
    var sum := TotalsOf(m.trades);
    if sum.volume == 0.0 then 0.0 else Times(sum.notional / sum.volume, UnknownSize(m))
  }

  function UnknownVolume(minutes: seq<Minute>, start: int, end: int): real {
    if minutes == [] then 0.0
    else
      var n := |minutes| - 1;
      UnknownVolume(minutes[..n], start, end) + if InWindow(minutes[n], start, end) then UnknownSize(minutes[n])
        else 0.0
  }

  function UnknownNotional(minutes: seq<Minute>, start: int, end: int): real {
    if minutes == [] then 0.0
    else
      var n := |minutes| - 1;
      UnknownNotional(minutes[..n], start, end) + if InWindow(minutes[n], start, end) then UnknownWorth(minutes[n])
        else 0.0
  }

  lemma {:induction false} TotalsAppend(xs: seq<Trade>, ys: seq<Trade>)
    ensures TotalsOf(xs + ys).notional == TotalsOf(xs).notional + TotalsOf(ys).notional
    ensures TotalsOf(xs + ys).volume == TotalsOf(xs).volume + TotalsOf(ys).volume
  {
    if ys == [] {
      assert xs + ys == xs;
    } else {
      assert (xs + ys)[..|xs + ys| - 1] == xs + ys[..|ys| - 1];
      TotalsAppend(xs, ys[..|ys| - 1]);
    }
  }

  lemma ScaledError(x: real, y: real, error: real, volume: real)
    requires Abs(x - y) <= error && volume >= 0.0
    ensures Abs(Times(x, volume) - Times(y, volume)) <= Times(error, volume)
  {
    TimesMinus(volume, x, y);
    var d := x - y;
    TimesMinus(volume, error, d);
    TimesMinus(volume, error, -d);
    assert Times(-d, volume) == -Times(d, volume);
    NonNegativeProduct(error - d, volume);
    NonNegativeProduct(error - -d, volume);
  }

  /** One minute's share of the mark: its price rounded, over its known volume. */
  lemma OneMinute(m: Minute)
    requires Positive(m.trades) && m.trades != []
    ensures var b := MarkOf(RowOf(m.end, m.trades));
            var sum := TotalsOf(m.trades);
            && b.vwap.Some? && b.volume == sum.volume - UnknownSize(m) >= 0.0
            && Abs(Times(b.vwap.value, b.volume) - (sum.notional - UnknownWorth(m))) <= Times(UNIT / 2.0, b.volume)
  {
    WhatTheSumsAre(m.trades);
    var sum := TotalsOf(m.trades);
    var price := sum.notional / sum.volume;
    var known := sum.buy + sum.sell;
    assert Times(price, sum.volume) == sum.notional;
    TimesMinus(price, sum.volume, UnknownSize(m));
    assert known == sum.volume - UnknownSize(m);
    ScaledError(Round16(price), price, UNIT / 2.0, known);
  }

  /** Where a weighed notional stands: within half a unit, a unit of volume, of the exact
      notional less the unknown. */
  predicate CloseTo(weighed: real, volume: real, exact: real, unknown: real) {
    volume >= 0.0 && Abs(weighed - (exact - unknown)) <= Times(UNIT / 2.0, volume)
  }

  lemma CloserStill(w: real, v: real, e: real, u: real, w': real, v': real, e': real, u': real)
    requires CloseTo(w, v, e, u) && CloseTo(w', v', e', u')
    ensures CloseTo(w + w', v + v', e + e', u + u')
  {
    TimesSum(UNIT / 2.0, v, v');
  }

  lemma MarksOfPrefix(minutes: seq<Minute>)
    requires minutes != []
    ensures MarksOf(minutes)[..|minutes| - 1] == MarksOf(minutes[..|minutes| - 1])
  {
  }

  ghost predicate WindowIsClose(minutes: seq<Minute>, start: int, end: int) {
    var marks := MarksOf(minutes);
    var sum := TotalsOf(TradesIn(minutes, start, end));
    && WeighedVolume(marks, start, end) == sum.volume - UnknownVolume(minutes, start, end)
    && CloseTo(WeighedNotional(marks, start, end), WeighedVolume(marks, start, end), sum.notional,
               UnknownNotional(minutes, start, end))
  }

  lemma WeighedNext(marks: seq<BucketMark>, b: BucketMark, start: int, end: int)
    requires b.vwap.Some? && b.volume >= 0.0 && start < b.end <= end
    ensures WeighedVolume(marks + [b], start, end) == WeighedVolume(marks, start, end) + b.volume
    ensures WeighedNotional(marks + [b], start, end) == WeighedNotional(marks, start, end)
            + Times(b.vwap.value, b.volume)
  {
    assert (marks + [b])[..|marks|] == marks;
    assert b.volume == 0.0 ==> Times(b.vwap.value, b.volume) == 0.0;
  }

  lemma UnknownNext(minutes: seq<Minute>, m: Minute, start: int, end: int)
    requires InWindow(m, start, end)
    ensures TradesIn(minutes + [m], start, end) == TradesIn(minutes, start, end) + m.trades
    ensures UnknownVolume(minutes + [m], start, end) == UnknownVolume(minutes, start, end) + UnknownSize(m)
    ensures UnknownNotional(minutes + [m], start, end) == UnknownNotional(minutes, start, end) + UnknownWorth(m)
  {
    assert (minutes + [m])[..|minutes|] == minutes;
  }

  lemma MarksNext(minutes: seq<Minute>, m: Minute)
    ensures MarksOf(minutes + [m]) == MarksOf(minutes) + [MarkOf(RowOf(m.end, m.trades))]
  {
  }

  lemma OneMoreMinute(before: seq<Minute>, m: Minute, start: int, end: int)
    requires Positive(m.trades) && InWindow(m, start, end) && WindowIsClose(before, start, end)
    ensures WindowIsClose(before + [m], start, end)
  {
    var b, sum, marks := MarkOf(RowOf(m.end, m.trades)), TotalsOf(m.trades), MarksOf(before);
    MarksNext(before, m);
    UnknownNext(before, m, start, end);
    TotalsAppend(TradesIn(before, start, end), m.trades);
    OneMinute(m);
    WeighedNext(marks, b, start, end);
    CloserStill(WeighedNotional(marks, start, end), WeighedVolume(marks, start, end),
                TotalsOf(TradesIn(before, start, end)).notional, UnknownNotional(before, start, end),
                Times(b.vwap.value, b.volume), b.volume, sum.notional, UnknownWorth(m));
  }

  lemma OneMinuteOutside(before: seq<Minute>, m: Minute, start: int, end: int)
    requires !InWindow(m, start, end) && WindowIsClose(before, start, end)
    ensures WindowIsClose(before + [m], start, end)
  {
    var minutes := before + [m];
    assert minutes[..|before|] == before;
    MarksOfPrefix(minutes);
    assert TradesIn(minutes, start, end) == TradesIn(before, start, end);
    assert !Weighs(MarksOf(minutes)[|before|], start, end);
  }

  /** The weighed notional is the window's, less its prints of unknown side, to within half a
      unit a unit of volume. */
  lemma {:induction false} WeighedIsClose(minutes: seq<Minute>, start: int, end: int)
    requires AllPositive(minutes)
    ensures WindowIsClose(minutes, start, end)
  {
    if minutes != [] {
      var n := |minutes| - 1;
      WeighedIsClose(minutes[..n], start, end);
      assert minutes[..n] + [minutes[n]] == minutes;
      if InWindow(minutes[n], start, end) {
        OneMoreMinute(minutes[..n], minutes[n], start, end);
      } else {
        OneMinuteOutside(minutes[..n], minutes[n], start, end);
      }
    }
  }

  lemma QuotientClose(x: real, y: real, volume: real)
    requires volume > 0.0 && Abs(x - y) <= Times(UNIT / 2.0, volume)
    ensures Abs(Div(x, volume) - y / volume) <= UNIT
  {
    MeanIsClose(x, y, volume, UNIT / 2.0);
  }

  /** Whatever the sides, a mark is within a unit of the window's price with its prints of
      unknown side taken out, each at its own minute's price. */
  lemma AMarkLeavesOutTheUnknown(minutes: seq<Minute>, start: int, end: int)
    requires AllPositive(minutes) && VwapOver(MarksOf(minutes), start, end).Some?
    ensures var sum := TotalsOf(TradesIn(minutes, start, end));
            var volume := sum.volume - UnknownVolume(minutes, start, end);
            && volume > 0.0
            && Abs(VwapOver(MarksOf(minutes), start, end).value
                   - (sum.notional - UnknownNotional(minutes, start, end)) / volume) <= UNIT
  {
    var sum := TotalsOf(TradesIn(minutes, start, end));
    PricedWithoutTheUnknown(minutes, start, end, sum.notional - UnknownNotional(minutes, start, end),
                            sum.volume - UnknownVolume(minutes, start, end));
  }

  lemma PricedWithoutTheUnknown(minutes: seq<Minute>, start: int, end: int, notional: real, volume: real)
    requires AllPositive(minutes) && VwapOver(MarksOf(minutes), start, end).Some?
    requires var sum := TotalsOf(TradesIn(minutes, start, end));
             notional == sum.notional - UnknownNotional(minutes, start, end) &&
             volume == sum.volume - UnknownVolume(minutes, start, end)
    ensures volume > 0.0 && Abs(VwapOver(MarksOf(minutes), start, end).value - notional / volume) <= UNIT
  {
    WeighedAre(minutes, start, end, notional, volume);
    DividedIsClose(MarksOf(minutes), start, end, notional, volume);
  }

  lemma WeighedAre(minutes: seq<Minute>, start: int, end: int, notional: real, volume: real)
    requires AllPositive(minutes)
    requires var sum := TotalsOf(TradesIn(minutes, start, end));
             notional == sum.notional - UnknownNotional(minutes, start, end) &&
             volume == sum.volume - UnknownVolume(minutes, start, end)
    ensures volume == WeighedVolume(MarksOf(minutes), start, end)
    ensures Abs(WeighedNotional(MarksOf(minutes), start, end) - notional) <= Times(UNIT / 2.0, volume)
  {
    WeighedIsClose(minutes, start, end);
  }

  lemma DividedIsClose(marks: seq<BucketMark>, start: int, end: int, notional: real, volume: real)
    requires VwapOver(marks, start, end).Some? && volume == WeighedVolume(marks, start, end)
    requires Abs(WeighedNotional(marks, start, end) - notional) <= Times(UNIT / 2.0, volume)
    ensures volume > 0.0 && Abs(VwapOver(marks, start, end).value - notional / volume) <= UNIT
  {
    QuotientClose(WeighedNotional(marks, start, end), notional, volume);
  }

  /** A window has a price exactly when something of known side traded in it: one in which
      only prints of unknown side traded is marked as if nothing had. */
  lemma PricedExactlyWhenAKnownSideTraded(minutes: seq<Minute>, start: int, end: int)
    requires AllPositive(minutes)
    ensures VwapOver(MarksOf(minutes), start, end).Some? <==>
            UnknownVolume(minutes, start, end) < TotalsOf(TradesIn(minutes, start, end)).volume
  {
    WeighedIsClose(minutes, start, end);
  }

  predicate AllKnown(minutes: seq<Minute>) {
    forall i :: 0 <= i < |minutes| ==> SidesKnown(minutes[i].trades)
  }

  lemma {:induction false} NothingUnknown(minutes: seq<Minute>, start: int, end: int)
    requires AllPositive(minutes) && AllKnown(minutes)
    ensures UnknownVolume(minutes, start, end) == 0.0 && UnknownNotional(minutes, start, end) == 0.0
  {
    if minutes != [] {
      var n := |minutes| - 1;
      NothingUnknown(minutes[..n], start, end);
      if InWindow(minutes[n], start, end) {
        WhatTheSumsAre(minutes[n].trades);
        var sum := TotalsOf(minutes[n].trades);
        assert Times(sum.notional / sum.volume, 0.0) == 0.0;
      }
    }
  }

  lemma {:induction false} TradedIsWeighed(minutes: seq<Minute>, start: int, end: int)
    requires AllPositive(minutes)
    ensures Positive(TradesIn(minutes, start, end))
  {
    if minutes != [] {
      TradedIsWeighed(minutes[..|minutes| - 1], start, end);
    }
  }

  /** With every side known, the mark built from the stored bucket prices is within a unit of
      the sixteenth place of the exact price of every trade in the window, and there is one
      exactly when something traded. */
  lemma BucketedPriceIsClose(minutes: seq<Minute>, start: int, end: int)
    requires AllPositive(minutes) && AllKnown(minutes)
    ensures var trades := TradesIn(minutes, start, end);
            var mark := VwapOver(MarksOf(minutes), start, end);
            && (mark.Some? <==> trades != [])
            && (mark.Some? ==> TotalsOf(trades).volume != 0.0 && Abs(mark.value - ExactPrice(trades)) <= UNIT)
  {
    PricedExactlyWhenAKnownSideTraded(minutes, start, end);
    NothingUnknown(minutes, start, end);
    TradedIsWeighed(minutes, start, end);
    var trades := TradesIn(minutes, start, end);
    if trades != [] {
      WhatTheSumsAre(trades);
      AMarkLeavesOutTheUnknown(minutes, start, end);
    }
  }

  lemma {:induction false} UnknownIsSome(minutes: seq<Minute>, start: int, end: int)
    requires AllPositive(minutes)
    ensures UnknownVolume(minutes, start, end) >= 0.0
  {
    if minutes != [] {
      var n := |minutes| - 1;
      UnknownIsSome(minutes[..n], start, end);
      if InWindow(minutes[n], start, end) {
        WhatTheSumsAre(minutes[n].trades);
      }
    }
  }

  /** One buy at 100, then a buy and a print of unknown side at 200: the mark is 150, where
      every trade together averaged 500/3. */
  lemma AnUnknownPrintMovesTheMark(a: string, b: string, c: string)
    ensures var minutes := [Minute(MINUTE, [Trade(a, 0, 100.0, 1.0, Buy)]),
                            Minute(2 * MINUTE, [Trade(b, 0, 200.0, 1.0, Buy), Trade(c, 0, 200.0, 1.0, Unknown)])];
            && VwapOver(MarksOf(minutes), 0, WINDOW) == Some(150.0)
            && TotalsOf(TradesIn(minutes, 0, WINDOW)).volume != 0.0
            && ExactPrice(TradesIn(minutes, 0, WINDOW)) == 500.0 / 3.0
  {
    var first := [Trade(a, 0, 100.0, 1.0, Buy)];
    var second := [Trade(b, 0, 200.0, 1.0, Buy), Trade(c, 0, 200.0, 1.0, Unknown)];
    var minutes := [Minute(MINUTE, first), Minute(2 * MINUTE, second)];
    SumsOfTwo(first, second, a, b, c);
    BothMinutes(minutes, first, second);
    TotalsAppend(first, second);
    MarksOfTwo(minutes, first, second);
    MarkOfTwo(MarksOf(minutes));
  }

  lemma BothMinutes(minutes: seq<Minute>, first: seq<Trade>, second: seq<Trade>)
    requires minutes == [Minute(MINUTE, first), Minute(2 * MINUTE, second)] && first != [] && second != []
    ensures TradesIn(minutes, 0, WINDOW) == first + second
  {
    assert minutes[..1] == [minutes[0]] && minutes[..1][..0] == [];
    assert TradesIn(minutes[..1], 0, WINDOW) == [] + first == first;
  }

  lemma MarksOfTwo(minutes: seq<Minute>, first: seq<Trade>, second: seq<Trade>)
    requires minutes == [Minute(MINUTE, first), Minute(2 * MINUTE, second)] && first != [] && second != []
    requires TotalsOf(first) == Totals(100.0, 1.0, 1.0, 0.0, 1.0)
    requires TotalsOf(second) == Totals(400.0, 2.0, 1.0, 0.0, 1.0)
    ensures MarksOf(minutes) == [BucketMark(MINUTE, Some(100.0), 1.0), BucketMark(2 * MINUTE, Some(200.0), 1.0)]
  {
    WholePrices();
    MarkOfPrints(MINUTE, first, 100.0);
    MarkOfPrints(2 * MINUTE, second, 200.0);
  }

  lemma WholePrices()
    ensures Div(100.0, 1.0) == 100.0 && Div(400.0, 2.0) == 200.0
  {
    RoundKeepsGrid(100.0);
    RoundKeepsGrid(200.0);
  }

  lemma MarkOfPrints(end: int, trades: seq<Trade>, px: real)
    requires trades != [] && TotalsOf(trades).volume != 0.0
    requires Div(TotalsOf(trades).notional, TotalsOf(trades).volume) == px
    ensures MarkOf(RowOf(end, trades)) == BucketMark(end, Some(px), TotalsOf(trades).buy + TotalsOf(trades).sell)
  {
  }

  lemma MarkOfTwo(marks: seq<BucketMark>)
    requires marks == [BucketMark(MINUTE, Some(100.0), 1.0), BucketMark(2 * MINUTE, Some(200.0), 1.0)]
    ensures VwapOver(marks, 0, WINDOW) == Some(150.0)
  {
    assert marks[..1] == [marks[0]] && marks[..1][..0] == [];
    assert WeighedVolume(marks[..1], 0, WINDOW) == 1.0 && WeighedNotional(marks[..1], 0, WINDOW) == 100.0;
    assert WeighedVolume(marks, 0, WINDOW) == 2.0 && WeighedNotional(marks, 0, WINDOW) == 300.0;
    RoundKeepsGrid(150.0);
  }

  lemma SumsOfTwo(first: seq<Trade>, second: seq<Trade>, a: string, b: string, c: string)
    requires first == [Trade(a, 0, 100.0, 1.0, Buy)]
    requires second == [Trade(b, 0, 200.0, 1.0, Buy), Trade(c, 0, 200.0, 1.0, Unknown)]
    ensures TotalsOf(first) == Totals(100.0, 1.0, 1.0, 0.0, 1.0)
    ensures TotalsOf(second) == Totals(400.0, 2.0, 1.0, 0.0, 1.0)
  {
    assert first[..0] == [] && second[..1] == [second[0]] && second[..1][..0] == [];
  }

  // ---------------------------------------------------------------------------
  // Trimming
  // ---------------------------------------------------------------------------

  /** Buckets at least a minute apart, in order. */
  predicate Spaced(buckets: seq<BucketMark>) {
    forall i :: 0 <= i < |buckets| - 1 ==> buckets[i].end + MINUTE <= buckets[i + 1].end
  }

  lemma SpacedPrefix(buckets: seq<BucketMark>, n: nat)
    requires Spaced(buckets) && n <= |buckets|
    ensures Spaced(buckets[..n])
  {
    forall i | 0 <= i < n - 1
      ensures buckets[..n][i].end + MINUTE <= buckets[..n][i + 1].end
    {
      assert buckets[i].end + MINUTE <= buckets[i + 1].end;
    }
  }

  lemma {:induction false} SpacedFar(buckets: seq<BucketMark>, i: nat)
    requires Spaced(buckets) && i + 11 < |buckets|
    ensures buckets[i].end + 11 * MINUTE <= buckets[|buckets| - 1].end
    decreases |buckets|
  {
    if i + 12 < |buckets| {
      var n := |buckets| - 1;
      assert buckets[n - 1].end + MINUTE <= buckets[n - 1 + 1].end;
      SpacedPrefix(buckets, n);
      SpacedFar(buckets[..n], i);
    } else {
      ElevenSteps(buckets, i);
    }
  }

  lemma ElevenSteps(buckets: seq<BucketMark>, i: nat)
    requires Spaced(buckets) && i + 11 == |buckets| - 1
    ensures buckets[i].end + 11 * MINUTE <= buckets[i + 11].end
  {
    var k := 0;
    while k < 11
      invariant 0 <= k <= 11 && buckets[i].end + k * MINUTE <= buckets[i + k].end
    {
      assert buckets[i + k].end + MINUTE <= buckets[i + k + 1].end;
      k := k + 1;
    }
  }

  lemma {:induction false} WeighedAppend(xs: seq<BucketMark>, ys: seq<BucketMark>, start: int, end: int)
    ensures WeighedVolume(xs + ys, start, end) == WeighedVolume(xs, start, end) + WeighedVolume(ys, start, end)
    ensures WeighedNotional(xs + ys, start, end) == WeighedNotional(xs, start, end) + WeighedNotional(ys, start, end)
  {
    if ys == [] {
      assert xs + ys == xs;
    } else {
      assert (xs + ys)[..|xs + ys| - 1] == xs + ys[..|ys| - 1];
      WeighedAppend(xs, ys[..|ys| - 1], start, end);
    }
  }

  lemma {:induction false} TooEarlyToWeigh(buckets: seq<BucketMark>, start: int, end: int)
    requires forall i :: 0 <= i < |buckets| ==> buckets[i].end <= start
    ensures WeighedVolume(buckets, start, end) == 0.0 && WeighedNotional(buckets, start, end) == 0.0
  {
    if buckets != [] {
      TooEarlyToWeigh(buckets[..|buckets| - 1], start, end);
    }
  }

  /** Keeping eleven one-minute buckets loses nothing a mark could weigh, for any window
      that ends less than eight minutes before the newest bucket. */
  lemma TrimmingLosesNothing(buckets: seq<BucketMark>, end: int)
    requires Spaced(buckets) && buckets != [] && buckets[|buckets| - 1].end <= end + 8 * MINUTE
    ensures VwapOver(Last(buckets, BUCKETS_KEPT), end - WINDOW, end) == VwapOver(buckets, end - WINDOW, end)
  {
    if |buckets| > BUCKETS_KEPT {
      var n := |buckets| - BUCKETS_KEPT;
      forall i | 0 <= i < n
        ensures buckets[..n][i].end <= end - WINDOW
      {
        SpacedFar(buckets, i);
      }
      TooEarlyToWeigh(buckets[..n], end - WINDOW, end);
      WeighedAppend(buckets[..n], buckets[n..], end - WINDOW, end);
      assert buckets[..n] + buckets[n..] == buckets;
    }
  }

  // ---------------------------------------------------------------------------
  // Sampling
  // ---------------------------------------------------------------------------

  /** Marks as a value: each product's buckets and mids, the gap last seen between the two,
      the last boundary sampled, and the samples handed on. */
  datatype Book = Book(buckets: map<string, seq<BucketMark>>, mids: map<string, seq<MidMark>>,
                       gap: Option<real>, lastBoundary: Option<int>, out: seq<MarkSample>)

  const EMPTY := Book(map[], map[], None, None, [])

  datatype Event = Bucket(product: string, row: Row) | Quote(product: string, at: int, mid: real) | Sample(at: int)

  function Get<T>(m: map<string, seq<T>>, product: string): seq<T> {
    if product in m then m[product] else []
  }

  function Mark(b: Book, product: string, start: int, end: int): Option<real> {
    var vwap := VwapOver(Get(b.buckets, product), start, end);
    if vwap.Some? then vwap else MidTwapOver(Get(b.mids, product), start, end)
  }

  datatype Pair = Pair(futures: Option<real>, spot: Option<real>)

  /** The mark a silent product borrows: the other's, moved by the basis last seen. */
  function Carried(p: Pair, gap: Option<real>): Pair {
    match (p.futures, p.spot, gap)
    case (None, Some(spot), Some(g)) => Pair(Some(spot + g), p.spot)
    case (Some(futures), None, Some(g)) => Pair(p.futures, Some(futures - g))
    case _ => p
  }

  function GapOf(p: Pair, gap: Option<real>): Option<real> {
    if p.futures.Some? && p.spot.Some? then Some(p.futures.value - p.spot.value) else gap
  }

  function BoundaryOf(at: int): int {
    at - at % WINDOW
  }

  function SampleAt(perp: string, spot: string, b: Book, at: int): Book {
    var end := BoundaryOf(at);
    if b.lastBoundary.Some? && end <= b.lastBoundary.value then b
    else
      var p := Carried(Pair(Mark(b, perp, end - WINDOW, end), Mark(b, spot, end - WINDOW, end)), b.gap);
      b.(lastBoundary := Some(end), gap := GapOf(p, b.gap),
         out := if p.futures.Some? && p.spot.Some? then b.out + [MarkSample(end, p.futures.value, p.spot.value)]
           else b.out)
  }

  function Step(perp: string, spot: string, b: Book, e: Event): Book {
    match e
    case Bucket(product, row) =>
      b.(buckets := b.buckets[product := Last(Get(b.buckets, product) + [MarkOf(row)], BUCKETS_KEPT)])
    case Quote(product, at, mid) =>
      b.(mids := b.mids[product := Last(Get(b.mids, product) + [MidMark(at, mid)], MIDS_KEPT)])
    case Sample(at) => SampleAt(perp, spot, b, at)
  }

  function Run(perp: string, spot: string, b: Book, events: seq<Event>): Book {
    if events == [] then b else Step(perp, spot, Run(perp, spot, b, events[..|events| - 1]), events[|events| - 1])
  }

  /** Samples strictly ascend, each on a three-minute boundary already sampled. */
  ghost predicate SamplesInOrder(out: seq<MarkSample>, lastBoundary: Option<int>) {
    && (forall i, j :: 0 <= i < j < |out| ==> out[i].at < out[j].at)
    && (forall i :: 0 <= i < |out| ==> out[i].at % WINDOW == 0 && lastBoundary.Some? && out[i].at <= lastBoundary.value)
  }

  lemma LaterBoundary(out: seq<MarkSample>, lastBoundary: Option<int>, s: MarkSample)
    requires SamplesInOrder(out, lastBoundary) && s.at % WINDOW == 0
             && (lastBoundary.Some? ==> lastBoundary.value < s.at)
    ensures SamplesInOrder(out, Some(s.at)) && SamplesInOrder(out + [s], Some(s.at))
  {
  }

  lemma ASampleKeepsOrder(perp: string, spot: string, b: Book, at: int)
    requires SamplesInOrder(b.out, b.lastBoundary)
    ensures var b' := SampleAt(perp, spot, b, at); SamplesInOrder(b'.out, b'.lastBoundary)
  {
    var b' := SampleAt(perp, spot, b, at);
    if b'.lastBoundary != b.lastBoundary {
      var s := if b'.out == b.out then MarkSample(BoundaryOf(at), 0.0, 0.0) else b'.out[|b.out|];
      LaterBoundary(b.out, b.lastBoundary, s);
    }
  }

  /** Whatever clock a run is driven by, its samples reach the funding runner in strictly
      ascending time, at most one a boundary. */
  lemma {:induction false} SamplesAscend(perp: string, spot: string, events: seq<Event>)
    ensures var b := Run(perp, spot, EMPTY, events); SamplesInOrder(b.out, b.lastBoundary)
  {
    if events != [] {
      var n := |events| - 1;
      SamplesAscend(perp, spot, events[..n]);
      var b := Run(perp, spot, EMPTY, events[..n]);
      if events[n].Sample? {
        ASampleKeepsOrder(perp, spot, b, events[n].at);
      } else {
        assert Step(perp, spot, b, events[n]).out == b.out
            && Step(perp, spot, b, events[n]).lastBoundary == b.lastBoundary;
      }
    }
  }

  /** A carried mark keeps the basis as it was: the pair stands exactly the gap apart, the gap
      is unchanged by it, and only a pair with one side missing is carried. */
  lemma ACarriedMarkKeepsTheBasis(p: Pair, gap: Option<real>)
    ensures var q := Carried(p, gap);
            && (q != p <==> gap.Some? && (p.futures.Some? <==> p.spot.None?))
            && (q != p ==>
                  q.futures.Some? && q.spot.Some? && q.futures.value - q.spot.value == gap.value &&
                  GapOf(q, gap) == gap)
  {
  }

  /** How far apart the products stood at the last sample. */
  function Basis(out: seq<MarkSample>): Option<real> {
    if out == [] then None else Some(out[|out| - 1].futures - out[|out| - 1].spot)
  }

  lemma {:induction false} TheGapIsTheLastBasis(perp: string, spot: string, events: seq<Event>)
    ensures var b := Run(perp, spot, EMPTY, events); b.gap == Basis(b.out)
  {
    if events != [] {
      TheGapIsTheLastBasis(perp, spot, events[..|events| - 1]);
    }
  }

  /** The sample of a window, from what each product was marked at and the samples before it. */
  function SampleOf(end: int, futures: Option<real>, spot: Option<real>, out: seq<MarkSample>): Option<MarkSample> {
    match (futures, spot, Basis(out))
    case (Some(f), Some(s), _) => Some(MarkSample(end, f, s))
    case (Some(f), None, Some(basis)) => Some(MarkSample(end, f, f - basis))
    case (None, Some(s), Some(basis)) => Some(MarkSample(end, s + basis, s))
    case _ => None
  }

  /** On every run, a window in which one product has no mark is sampled exactly when one was
      sampled before it, and its sample keeps the two as far apart as they last were. */
  lemma ASampleIsMarkedOrCarried(perp: string, spot: string, events: seq<Event>, at: int)
    requires var b := Run(perp, spot, EMPTY, events); b.lastBoundary.Some? ==> b.lastBoundary.value < BoundaryOf(at)
    ensures var b, end := Run(perp, spot, EMPTY, events), BoundaryOf(at);
            var sample := SampleOf(end, Mark(b, perp, end - WINDOW, end), Mark(b, spot, end - WINDOW, end), b.out);
            SampleAt(perp, spot, b, at).out == b.out + if sample.Some? then [sample.value] else []
  {
    TheGapIsTheLastBasis(perp, spot, events);
    SampledOrCarried(Run(perp, spot, EMPTY, events), perp, spot, at);
  }

  lemma SampledOrCarried(b: Book, perp: string, spot: string, at: int)
    requires b.gap == Basis(b.out) && (b.lastBoundary.Some? ==> b.lastBoundary.value < BoundaryOf(at))
    ensures var end := BoundaryOf(at);
            var sample := SampleOf(end, Mark(b, perp, end - WINDOW, end), Mark(b, spot, end - WINDOW, end), b.out);
            SampleAt(perp, spot, b, at).out == b.out + if sample.Some? then [sample.value] else []
  {
  }

  /** What a product has kept of its rows: the last eleven. */
  function RowsFor(events: seq<Event>, product: string): seq<BucketMark> {
    if events == [] then []
    else
      var n := |events| - 1;
      RowsFor(events[..n], product) + if events[n].Bucket? && events[n].product == product
        then [MarkOf(events[n].row)] else []
  }

  lemma {:induction false} KeptAreTheLast(perp: string, spot: string, events: seq<Event>, product: string)
    ensures Get(Run(perp, spot, EMPTY, events).buckets, product) == Last(RowsFor(events, product), BUCKETS_KEPT)
  {
    if events != [] {
      var n := |events| - 1;
      KeptAreTheLast(perp, spot, events[..n], product);
      var rows := RowsFor(events[..n], product);
      if events[n].Bucket? && events[n].product == product {
        LastOfLast(rows, MarkOf(events[n].row), BUCKETS_KEPT);
      } else {
        assert RowsFor(events, product) == rows;
      }
    }
  }

  lemma LastOfLast<T>(s: seq<T>, x: T, max: nat)
    ensures Last(Last(s, max) + [x], max) == Last(s + [x], max)
  {
  }

  /** A product's price over a window is the one all of its rows give, trimmed as they are,
      when they came a minute or more apart and none is eight minutes past the window. */
  lemma AMarkWeighsEveryRow(perp: string, spot: string, events: seq<Event>, product: string, end: int)
    requires var rows := RowsFor(events, product);
             Spaced(rows) && rows != [] && rows[|rows| - 1].end <= end + 8 * MINUTE
    ensures VwapOver(Get(Run(perp, spot, EMPTY, events).buckets, product), end - WINDOW, end)
         == VwapOver(RowsFor(events, product), end - WINDOW, end)
  {
    KeptAreTheLast(perp, spot, events, product);
    TrimmingLosesNothing(RowsFor(events, product), end);
  }

  // ---------------------------------------------------------------------------
  // The sampler as it runs
  // ---------------------------------------------------------------------------

  class Marks {
    const perp: string
    const spot: string

    var buckets: map<string, seq<BucketMark>>
    var mids: map<string, seq<MidMark>>
    var gap: Option<real>
    var lastBoundary: Option<int>

    // The samples handed to the funding runner, and everything that has happened.
    ghost var out: seq<MarkSample>
    ghost var history: seq<Event>

    ghost function State(): Book
      reads this
    {
      Book(buckets, mids, gap, lastBoundary, out)
    }

    ghost predicate Valid()
      reads this
    {
      State() == Run(perp, spot, EMPTY, history)
    }

    constructor (perp: string, spot: string)
      ensures Valid() && history == [] && this.perp == perp && this.spot == spot
    {
      this.perp, this.spot := perp, spot;
      buckets, mids, gap, lastBoundary, out, history := map[], map[], None, None, [], [];
    }

    ghost method Took(e: Event, was: Book)
      requires was == Run(perp, spot, EMPTY, history) && State() == Step(perp, spot, was, e)
      modifies this`history
      ensures Valid() && history == old(history) + [e]
    {
      history := history + [e];
      assert history[..|history| - 1] == old(history);
    }

    method ObserveBucket(product: string, row: Row)
      requires Valid()
      modifies this`buckets, this`history
      ensures Valid() && history == old(history) + [Bucket(product, row)]
    {
      ghost var was := State();
      var b := BucketMark(row.end, row.vwap, row.buyVol + row.sellVol);
      buckets := buckets[product := Last(Get(buckets, product) + [b], BUCKETS_KEPT)];
      Took(Bucket(product, row), was);
    }

    method ObserveQuote(product: string, at: int, mid: Option<real>)
      requires Valid()
      modifies this`mids, this`history
      ensures Valid() && history == old(history) + if mid.Some? then [Quote(product, at, mid.value)] else []
    {
      if mid.None? {
        return;
      }
      ghost var was := State();
      mids := mids[product := Last(Get(mids, product) + [MidMark(at, mid.value)], MIDS_KEPT)];
      Took(Quote(product, at, mid.value), was);
    }

    method MarkOne(product: string, start: int, end: int) returns (m: Option<real>)
      ensures m == Mark(State(), product, start, end)
    {
      m := ComputeVwap(Get(buckets, product), start, end);
      if m.None? {
        m := ComputeMidTwap(Get(mids, product), start, end);
      }
    }

    method MarkPair(start: int, end: int) returns (futures: Option<real>, spotMark: Option<real>)
      modifies this`gap
      ensures Pair(futures, spotMark)
           == Carried(Pair(Mark(old(State()), perp, start, end), Mark(old(State()), spot, start, end)), old(gap))
      ensures gap == GapOf(Pair(futures, spotMark), old(gap))
    {
      futures := MarkOne(perp, start, end);
      spotMark := MarkOne(spot, start, end);
      if futures.None? && spotMark.Some? && gap.Some? {
        futures := Some(spotMark.value + gap.value);
      } else if spotMark.None? && futures.Some? && gap.Some? {
        spotMark := Some(futures.value - gap.value);
      }
      if futures.Some? && spotMark.Some? {
        gap := Some(futures.value - spotMark.value);
      }
    }

    method TakeSample(at: int)
      requires Valid()
      modifies this`gap, this`lastBoundary, this`out, this`history
      ensures Valid() && history == old(history) + [Sample(at)]
    {
      ghost var was := State();
      MarkWindow(at - at % WINDOW);
      Took(Sample(at), was);
    }

    method MarkWindow(end: int)
      requires end % WINDOW == 0
      modifies this`gap, this`lastBoundary, this`out
      ensures State() == SampleAt(perp, spot, old(State()), end)
    {
      if lastBoundary.None? || end > lastBoundary.value {
        var futures, spotMark := MarkPair(end - WINDOW, end);
        lastBoundary := Some(end);
        if futures.Some? && spotMark.Some? {
          out := out + [MarkSample(end, futures.value, spotMark.value)];
        }
      }
    }
  }
}
