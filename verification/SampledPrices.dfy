/** From trades and quotes to samples (internal/ingest/trades.go and internal/ingest/marks.go): which
    price each side of a sample is, whatever else was told, and when there is a sample at all. */
module SampledPrices {
  import opened Options
  import opened Decimals
  import opened Aggregates
  import opened FundingRate
  import opened MarkedTrades
  import B = Bucketing
  import M = MarkSampling

  // ---------------------------------------------------------------------------
  // What a window holds
  // ---------------------------------------------------------------------------

  const THREE_MINUTES: int := 180_000_000_000

  /** A product's quotes, in the order they came. */
  function QuotesOf(feed: seq<Feed>, product: string): seq<M.MidMark> {
    if feed == [] then []
    else
      var n := |feed| - 1;
      QuotesOf(feed[..n], product) +
      if feed[n].Quoted? && feed[n].name == product then [M.MidMark(feed[n].at, feed[n].mid)] else []
  }

  /** The newest sixty-four. */
  function Newest(mids: seq<M.MidMark>): seq<M.MidMark> {
    if |mids| <= 64 then mids else mids[|mids| - 64..]
  }

  /** Those from the window's start up to its end. */
  function During(mids: seq<M.MidMark>, end: int): seq<M.MidMark> {
    if mids == [] then []
    else
      var n := |mids| - 1;
      During(mids[..n], end) + if end - THREE_MINUTES <= mids[n].at < end then [mids[n]] else []
  }

  function MidSum(mids: seq<M.MidMark>): real {
    if mids == [] then 0.0 else MidSum(mids[..|mids| - 1]) + mids[|mids| - 1].mid
  }

  /** What was quoted of a product in a window, as far as it is kept. */
  function QuotedIn(feed: seq<Feed>, product: string, end: int): seq<M.MidMark> {
    During(Newest(QuotesOf(feed, product)), end)
  }

  function MinutesIn(cfg: B.Config, feed: seq<Feed>, product: string): seq<M.Minute>
    requires B.Usable(cfg)
  {
    MinutesOf(cfg, TradesOf(feed, product))
  }

  /** Each id's first delivery for the window. */
  function TradedIn(cfg: B.Config, feed: seq<Feed>, product: string, end: int): seq<Trade>
    requires B.Usable(cfg)
  {
    M.TradesIn(MinutesIn(cfg, feed, product), end - THREE_MINUTES, end)
  }

  /** What of it was of known side: its size, and what it came to with the rest taken out at its own
      minute's price. */
  function KnownVolume(cfg: B.Config, feed: seq<Feed>, product: string, end: int): real
    requires B.Usable(cfg)
  {
    TotalsOf(TradedIn(cfg, feed, product, end)).volume
    - M.UnknownVolume(MinutesIn(cfg, feed, product), end - THREE_MINUTES, end)
  }

  function KnownNotional(cfg: B.Config, feed: seq<Feed>, product: string, end: int): real
    requires B.Usable(cfg)
  {
    TotalsOf(TradedIn(cfg, feed, product, end)).notional
    - M.UnknownNotional(MinutesIn(cfg, feed, product), end - THREE_MINUTES, end)
  }

  /** Within `error` of a quotient. */
  predicate Near(px: real, sum: real, weight: real, error: real) {
    weight > 0.0 && Abs(px - sum / weight) <= error
  }

  /** The window has a price: something of known side traded in it, or something was quoted. */
  predicate HasPrice(cfg: B.Config, feed: seq<Feed>, product: string, end: int)
    requires B.Usable(cfg)
  {
    KnownVolume(cfg, feed, product, end) > 0.0 || QuotedIn(feed, product, end) != []
  }

  /** What the price is: that of what traded, whatever was quoted; and only when nothing of known
      side did, the mean of what was quoted. */
  predicate IsPrice(cfg: B.Config, feed: seq<Feed>, product: string, end: int, px: real)
    requires B.Usable(cfg) && HasPrice(cfg, feed, product, end)
  {
    var volume, mids := KnownVolume(cfg, feed, product, end), QuotedIn(feed, product, end);
    if volume > 0.0 then Near(px, KnownNotional(cfg, feed, product, end), volume, UNIT)
    else Near(px, MidSum(mids), |mids| as real, UNIT / 2.0)
  }

  // ---------------------------------------------------------------------------
  // The quotes a product has kept
  // ---------------------------------------------------------------------------

  function MidsFor(told: seq<M.Event>, product: string): seq<M.MidMark> {
    if told == [] then []
    else
      var n := |told| - 1;
      MidsFor(told[..n], product) + MidsOf(told[n], product)
  }

  function MidsOf(e: M.Event, product: string): seq<M.MidMark> {
    if e.Quote? && e.product == product then [M.MidMark(e.at, e.mid)] else []
  }

  lemma AnEventKeepsTheNewest(perp: string, spot: string, b: M.Book, e: M.Event, product: string)
    ensures var mids := M.Get(b.mids, product);
            M.Get(M.Step(perp, spot, b, e).mids, product)
            == if e.Quote? && e.product == product then Newest(mids + MidsOf(e, product)) else mids
  {
  }

  lemma NewestOfNewest(mids: seq<M.MidMark>, more: seq<M.MidMark>)
    requires |more| <= 1
    ensures Newest(mids + more) == if more == [] then Newest(mids) else Newest(Newest(mids) + more)
  {
    if more == [] {
      assert mids + more == mids;
    }
  }

  lemma {:induction false} MidsAppend(xs: seq<M.Event>, ys: seq<M.Event>, product: string)
    ensures MidsFor(xs + ys, product) == MidsFor(xs, product) + MidsFor(ys, product)
  {
    if ys == [] {
      assert xs + ys == xs;
    } else {
      var n := |ys| - 1;
      assert (xs + ys)[..|xs + ys| - 1] == xs + ys[..n];
      MidsAppend(xs, ys[..n], product);
    }
  }

  lemma {:induction false} RowsTellNoQuote(product: string, rows: seq<Row>, other: string)
    ensures MidsFor(Telling(product, rows), other) == []
  {
    if rows != [] {
      var n := |rows| - 1;
      RowsTellNoQuote(product, rows[..n], other);
      assert Telling(product, rows)[..n] == Telling(product, rows[..n]);
    }
  }

  lemma {:induction false} MarksAreToldTheQuotes(cfg: B.Config, feed: seq<Feed>, product: string)
    requires B.Usable(cfg)
    ensures MidsFor(ToMarks(cfg, feed), product) == QuotesOf(feed, product)
  {
    if feed != [] {
      var n := |feed| - 1;
      MarksAreToldTheQuotes(cfg, feed[..n], product);
      MidsAppend(ToMarks(cfg, feed[..n]), Tells(cfg, feed[..n], feed[n]), product);
      if feed[n].Of? {
        var q := B.Run(cfg, B.NEW, TradesOf(feed[..n], feed[n].product));
        RowsTellNoQuote(feed[n].product, Added(q, B.Step(cfg, q, feed[n].e)), product);
      }
    }
  }

  lemma {:induction false} TheNewestAreKept(perp: string, spot: string, told: seq<M.Event>, product: string)
    ensures M.Get(M.Run(perp, spot, M.EMPTY, told).mids, product) == Newest(MidsFor(told, product))
  {
    if told != [] {
      var n := |told| - 1;
      TheNewestAreKept(perp, spot, told[..n], product);
      AnEventKeepsTheNewest(perp, spot, M.Run(perp, spot, M.EMPTY, told[..n]), told[n], product);
      NewestOfNewest(MidsFor(told[..n], product), MidsOf(told[n], product));
    }
  }

  lemma QuotedNext(mids: seq<M.MidMark>, end: int)
    requires mids != []
    ensures var n := |mids| - 1;
            var before := M.Quoted(mids[..n], end - M.WINDOW, end);
            M.Quoted(mids, end - M.WINDOW, end)
            == if end - THREE_MINUTES <= mids[n].at < end then (before.0 + mids[n].mid, before.1 + 1) else before
  {
  }

  lemma MidSumNext(mids: seq<M.MidMark>, m: M.MidMark)
    ensures MidSum(mids + [m]) == MidSum(mids) + m.mid
  {
    assert (mids + [m])[..|mids|] == mids;
  }

  lemma DuringNext(mids: seq<M.MidMark>, end: int)
    requires mids != []
    ensures var n := |mids| - 1;
            During(mids, end) == if end - THREE_MINUTES <= mids[n].at < end then During(mids[..n], end) + [mids[n]]
                                 else During(mids[..n], end)
  {
  }

  lemma {:induction false} TheQuotesInAWindow(mids: seq<M.MidMark>, end: int)
    ensures M.Quoted(mids, end - M.WINDOW, end) == (MidSum(During(mids, end)), |During(mids, end)|)
  {
    if mids != [] {
      var n := |mids| - 1;
      TheQuotesInAWindow(mids[..n], end);
      QuotedNext(mids, end);
      DuringNext(mids, end);
      MidSumNext(During(mids[..n], end), mids[n]);
    }
  }

  /** Nothing quoted in a window is lost that the newest sixty-four reach back to its start. */
  lemma {:induction false} NoQuoteIsLost(mids: seq<M.MidMark>, end: int)
    requires forall i :: 0 <= i < |mids| - 64 ==> mids[i].at < end - THREE_MINUTES
    ensures During(Newest(mids), end) == During(mids, end)
  {
    if |mids| > 64 {
      var n := |mids| - 64;
      NoneDuring(mids[..n], end);
      DuringAppend(mids[..n], mids[n..], end);
      assert mids[..n] + mids[n..] == mids;
    }
  }

  lemma {:induction false} NoneDuring(mids: seq<M.MidMark>, end: int)
    requires forall i :: 0 <= i < |mids| ==> mids[i].at < end - THREE_MINUTES
    ensures During(mids, end) == []
  {
    if mids != [] {
      NoneDuring(mids[..|mids| - 1], end);
    }
  }

  lemma {:induction false} DuringAppend(xs: seq<M.MidMark>, ys: seq<M.MidMark>, end: int)
    ensures During(xs + ys, end) == During(xs, end) + During(ys, end)
  {
    if ys == [] {
      assert xs + ys == xs;
    } else {
      assert (xs + ys)[..|xs + ys| - 1] == xs + ys[..|ys| - 1];
      DuringAppend(xs, ys[..|ys| - 1], end);
    }
  }

  // ---------------------------------------------------------------------------
  // A product's mark
  // ---------------------------------------------------------------------------

  /** A feed that says of a product what the exchange may: its clock never goes back and has not
      run far past the window, and every print is of something. */
  ghost predicate Regular(cfg: B.Config, feed: seq<Feed>, product: string, end: int) {
    var events := TradesOf(feed, product);
    && cfg.interval == M.MINUTE && Sorts(cfg.sort)
    && B.ClockFrom(events, None) && NoTickBeyond(events, end) && EveryPrint(events, SIZED)
  }

  lemma SizedMinutes(cfg: B.Config, events: seq<B.Event>)
    requires B.Usable(cfg) && Sorts(cfg.sort) && EveryPrint(events, SIZED)
    ensures M.AllPositive(MinutesOf(cfg, events))
  {
    MinutesAreGood(cfg, events, SIZED);
    var minutes := MinutesOf(cfg, events);
    forall i | 0 <= i < |minutes|
      ensures Positive(minutes[i].trades)
    {
      assert Every(minutes[i].trades, SIZED);
    }
  }

  /** There is a price exactly when there is volume, and it is within `error` of their quotient. */
  predicate Quotes(px: Option<real>, notional: real, volume: real, error: real) {
    if volume > 0.0 then px.Some? && Near(px.value, notional, volume, error) else px.None?
  }

  lemma TheMinutesPrice(minutes: seq<M.Minute>, start: int, end: int, notional: real, volume: real)
    requires M.AllPositive(minutes)
    requires volume == TotalsOf(M.TradesIn(minutes, start, end)).volume - M.UnknownVolume(minutes, start, end)
    requires notional == TotalsOf(M.TradesIn(minutes, start, end)).notional - M.UnknownNotional(minutes, start, end)
    ensures Quotes(M.VwapOver(M.MarksOf(minutes), start, end), notional, volume, UNIT)
  {
    M.WeighedAre(minutes, start, end, notional, volume);
    if M.VwapOver(M.MarksOf(minutes), start, end).Some? {
      M.DividedIsClose(M.MarksOf(minutes), start, end, notional, volume);
    }
  }

  lemma WhatTradedIsPriced(cfg: B.Config, perp: string, spot: string, feed: seq<Feed>, product: string, end: int)
    requires Regular(cfg, feed, product, end)
    ensures Quotes(VwapAt(cfg, perp, spot, feed, product, end), KnownNotional(cfg, feed, product, end),
                   KnownVolume(cfg, feed, product, end), UNIT)
  {
    AMarkIsOverItsMinutes(cfg, perp, spot, feed, product, end, TradesOf(feed, product));
    SizedMinutes(cfg, TradesOf(feed, product));
    TheMinutesPrice(MinutesIn(cfg, feed, product), end - M.WINDOW, end, KnownNotional(cfg, feed, product, end),
                    KnownVolume(cfg, feed, product, end));
  }

  /** What a product is marked at when a sample is taken. */
  function MarkAt(cfg: B.Config, perp: string, spot: string, feed: seq<Feed>, product: string, end: int): Option<real>
    requires B.Usable(cfg)
  {
    M.Mark(M.Run(perp, spot, M.EMPTY, ToMarks(cfg, feed)), product, end - M.WINDOW, end)
  }

  /** The mean of the mids kept, as the marks have it. */
  function MeanAt(cfg: B.Config, perp: string, spot: string, feed: seq<Feed>, product: string, end: int): Option<real>
    requires B.Usable(cfg)
  {
    M.MidTwapOver(M.Get(M.Run(perp, spot, M.EMPTY, ToMarks(cfg, feed)).mids, product), end - M.WINDOW, end)
  }

  lemma TheMidsMean(mids: seq<M.MidMark>, end: int)
    ensures var during := During(mids, end);
            Quotes(M.MidTwapOver(mids, end - M.WINDOW, end), MidSum(during), |during| as real, UNIT / 2.0)
  {
    TheQuotesInAWindow(mids, end);
  }

  lemma WhatWasQuotedIsAveraged(cfg: B.Config, perp: string, spot: string, feed: seq<Feed>, product: string, end: int)
    requires B.Usable(cfg)
    ensures var mids := QuotedIn(feed, product, end);
            Quotes(MeanAt(cfg, perp, spot, feed, product, end), MidSum(mids), |mids| as real, UNIT / 2.0)
  {
    MarksAreToldTheQuotes(cfg, feed, product);
    TheNewestAreKept(perp, spot, ToMarks(cfg, feed), product);
    TheMidsMean(Newest(QuotesOf(feed, product)), end);
  }

  lemma MarkedOneWayOrTheOther(cfg: B.Config, perp: string, spot: string, feed: seq<Feed>, product: string, end: int)
    requires B.Usable(cfg)
    ensures var vwap := VwapAt(cfg, perp, spot, feed, product, end);
            MarkAt(cfg, perp, spot, feed, product, end)
            == if vwap.Some? then vwap else MeanAt(cfg, perp, spot, feed, product, end)
  {
  }

  lemma PricedOneWayOrTheOther(vwap: Option<real>, mean: Option<real>, notional: real, volume: real, sum: real,
                               count: real)
    requires Quotes(vwap, notional, volume, UNIT) && Quotes(mean, sum, count, UNIT / 2.0)
    ensures var mark := if vwap.Some? then vwap else mean;
            && (mark.Some? <==> volume > 0.0 || count > 0.0)
            && (mark.Some? ==> if volume > 0.0 then Near(mark.value, notional, volume, UNIT)
                               else Near(mark.value, sum, count, UNIT / 2.0))
  {
  }

  lemma AMarkIsThePrice(cfg: B.Config, perp: string, spot: string, feed: seq<Feed>, product: string, end: int)
    requires Regular(cfg, feed, product, end)
    ensures var mark := MarkAt(cfg, perp, spot, feed, product, end);
            && (mark.Some? <==> HasPrice(cfg, feed, product, end))
            && (mark.Some? ==> IsPrice(cfg, feed, product, end, mark.value))
  {
    WhatTradedIsPriced(cfg, perp, spot, feed, product, end);
    WhatWasQuotedIsAveraged(cfg, perp, spot, feed, product, end);
    MarkedOneWayOrTheOther(cfg, perp, spot, feed, product, end);
    var mids := QuotedIn(feed, product, end);
    assert |mids| as real > 0.0 <==> mids != [];
    PricedOneWayOrTheOther(VwapAt(cfg, perp, spot, feed, product, end), MeanAt(cfg, perp, spot, feed, product, end),
                           KnownNotional(cfg, feed, product, end), KnownVolume(cfg, feed, product, end),
                           MidSum(mids), |mids| as real);
  }

  /** With every side known, what traded is everything that did. */
  lemma EverySideKnown(cfg: B.Config, feed: seq<Feed>, product: string, end: int, px: real)
    requires Regular(cfg, feed, product, end) && EveryPrint(TradesOf(feed, product), SIDED)
    requires TradedIn(cfg, feed, product, end) != []
    requires HasPrice(cfg, feed, product, end) && IsPrice(cfg, feed, product, end, px)
    ensures var trades := TradedIn(cfg, feed, product, end);
            TotalsOf(trades).volume != 0.0 && Abs(px - M.ExactPrice(trades)) <= UNIT
  {
    var minutes := MinutesIn(cfg, feed, product);
    GoodMinutes(cfg, TradesOf(feed, product));
    M.NothingUnknown(minutes, end - M.WINDOW, end);
    M.TradedIsWeighed(minutes, end - M.WINDOW, end);
    WhatTheSumsAre(TradedIn(cfg, feed, product, end));
  }

  // ---------------------------------------------------------------------------
  // The sample
  // ---------------------------------------------------------------------------

  function Samples(cfg: B.Config, perp: string, spot: string, feed: seq<Feed>): seq<MarkSample>
    requires B.Usable(cfg)
  {
    M.Run(perp, spot, M.EMPTY, ToMarks(cfg, feed)).out
  }

  /** No sample has been asked for at this instant or later. */
  predicate NotYetSampled(feed: seq<Feed>, end: int) {
    forall i :: 0 <= i < |feed| && feed[i].Sampled? ==> feed[i].now < end
  }

  lemma {:induction false} RowsSampleNothing(perp: string, spot: string, told: seq<M.Event>, product: string,
                                             rows: seq<Row>)
    ensures var b := M.Run(perp, spot, M.EMPTY, told + Telling(product, rows));
            b.lastBoundary == M.Run(perp, spot, M.EMPTY, told).lastBoundary
  {
    if rows == [] {
      assert told + Telling(product, rows) == told;
    } else {
      var n := |rows| - 1;
      RowsSampleNothing(perp, spot, told, product, rows[..n]);
      var all := told + Telling(product, rows);
      assert all[..|all| - 1] == told + Telling(product, rows[..n]);
    }
  }

  lemma ToldNext(perp: string, spot: string, told: seq<M.Event>, e: M.Event)
    ensures M.Run(perp, spot, M.EMPTY, told + [e]) == M.Step(perp, spot, M.Run(perp, spot, M.EMPTY, told), e)
  {
    assert (told + [e])[..|told|] == told;
  }

  lemma {:induction false} TheLastBoundaryIsEarlier(cfg: B.Config, perp: string, spot: string, feed: seq<Feed>,
                                                    end: int)
    requires B.Usable(cfg) && NotYetSampled(feed, end)
    ensures var last := M.Run(perp, spot, M.EMPTY, ToMarks(cfg, feed)).lastBoundary; last.Some? ==> last.value < end
  {
    if feed != [] {
      var n := |feed| - 1;
      TheLastBoundaryIsEarlier(cfg, perp, spot, feed[..n], end);
      var told := ToMarks(cfg, feed[..n]);
      match feed[n] {
        case Of(product, e) =>
          var q := B.Run(cfg, B.NEW, TradesOf(feed[..n], product));
          RowsSampleNothing(perp, spot, told, product, Added(q, B.Step(cfg, q, e)));
        case Quoted(name, at, mid) => ToldNext(perp, spot, told, M.Quote(name, at, mid));
        case Sampled(now) => ToldNext(perp, spot, told, M.Sample(now));
      }
    }
  }

  /** What a sample of the window that ends at `end` adds: both products at their own prices; or one at
      its own, and the other as far from it as the two last were; or nothing. */
  predicate Adds(cfg: B.Config, perp: string, spot: string, feed: seq<Feed>, end: int, out: seq<MarkSample>,
                 out': seq<MarkSample>)
    requires B.Usable(cfg)
  {
    var futures, spots := HasPrice(cfg, feed, perp, end), HasPrice(cfg, feed, spot, end);
    if (futures && spots) || ((futures || spots) && out != []) then
      && |out'| == |out| + 1 && out'[..|out|] == out && out'[|out|].at == end
      && var s := out'[|out|];
         && (futures ==> IsPrice(cfg, feed, perp, end, s.futures))
         && (spots ==> IsPrice(cfg, feed, spot, end, s.spot))
         && (!(futures && spots) ==> s.futures - s.spot == out[|out| - 1].futures - out[|out| - 1].spot)
    else
      out' == out
  }

  lemma TheSampleOf(end: int, futures: Option<real>, spots: Option<real>, out: seq<MarkSample>)
    ensures var sample := M.SampleOf(end, futures, spots, out);
            if (futures.Some? && spots.Some?) || ((futures.Some? || spots.Some?) && out != []) then
              && sample.Some? && sample.value.at == end
              && (futures.Some? ==> sample.value.futures == futures.value)
              && (spots.Some? ==> sample.value.spot == spots.value)
              && (!(futures.Some? && spots.Some?) ==>
                    sample.value.futures - sample.value.spot == out[|out| - 1].futures - out[|out| - 1].spot)
            else sample.None?
  {
  }

  lemma TheSampleAdds(cfg: B.Config, perp: string, spot: string, feed: seq<Feed>, end: int, out: seq<MarkSample>,
                      futures: Option<real>, spots: Option<real>)
    requires B.Usable(cfg)
    requires futures.Some? <==> HasPrice(cfg, feed, perp, end)
    requires spots.Some? <==> HasPrice(cfg, feed, spot, end)
    requires futures.Some? ==> IsPrice(cfg, feed, perp, end, futures.value)
    requires spots.Some? ==> IsPrice(cfg, feed, spot, end, spots.value)
    ensures var sample := M.SampleOf(end, futures, spots, out);
            Adds(cfg, perp, spot, feed, end, out, out + if sample.Some? then [sample.value] else [])
  {
    TheSampleOf(end, futures, spots, out);
  }

  /** The samples once one has been taken. */
  function SamplesThen(cfg: B.Config, perp: string, spot: string, feed: seq<Feed>, now: int): seq<MarkSample>
    requires B.Usable(cfg)
  {
    M.SampleAt(perp, spot, M.Run(perp, spot, M.EMPTY, ToMarks(cfg, feed)), now).out
  }

  lemma ASampleIsOfItsMarks(cfg: B.Config, perp: string, spot: string, feed: seq<Feed>, end: int, now: int)
    requires B.Usable(cfg) && end == M.BoundaryOf(now) && NotYetSampled(feed, end)
    ensures var sample := M.SampleOf(end, MarkAt(cfg, perp, spot, feed, perp, end),
                                     MarkAt(cfg, perp, spot, feed, spot, end), Samples(cfg, perp, spot, feed));
            SamplesThen(cfg, perp, spot, feed, now)
            == Samples(cfg, perp, spot, feed) + if sample.Some? then [sample.value] else []
  {
    TheLastBoundaryIsEarlier(cfg, perp, spot, feed, end);
    M.TheGapIsTheLastBasis(perp, spot, ToMarks(cfg, feed));
    M.SampledOrCarried(M.Run(perp, spot, M.EMPTY, ToMarks(cfg, feed)), perp, spot, now);
  }

  lemma ASampleAdds(cfg: B.Config, perp: string, spot: string, feed: seq<Feed>, end: int, now: int)
    requires Regular(cfg, feed, perp, end) && Regular(cfg, feed, spot, end)
    requires end == M.BoundaryOf(now) && NotYetSampled(feed, end)
    ensures Adds(cfg, perp, spot, feed, end, Samples(cfg, perp, spot, feed), SamplesThen(cfg, perp, spot, feed, now))
  {
    AMarkIsThePrice(cfg, perp, spot, feed, perp, end);
    AMarkIsThePrice(cfg, perp, spot, feed, spot, end);
    ASampleIsOfItsMarks(cfg, perp, spot, feed, end, now);
    TheSampleAdds(cfg, perp, spot, feed, end, Samples(cfg, perp, spot, feed),
                  MarkAt(cfg, perp, spot, feed, perp, end), MarkAt(cfg, perp, spot, feed, spot, end));
  }

  /** However trades, ticks, reconnects, quotes and samples interleave, the first sample asked for in a
      window's own three minutes and after it is of that window; and each side of it is, whatever was
      quoted, within a unit of the price of what traded, and else of the mean of what was quoted. */
  lemma WhatASampleIs(cfg: B.Config, perp: string, spot: string, feed: seq<Feed>, end: int, now: int)
    requires Regular(cfg, feed, perp, end) && Regular(cfg, feed, spot, end)
    requires end % 180_000_000_000 == 0 && end <= now < end + 180_000_000_000 && NotYetSampled(feed, end)
    ensures Adds(cfg, perp, spot, feed, end, Samples(cfg, perp, spot, feed),
                 Samples(cfg, perp, spot, feed + [Sampled(now)]))
  {
    ItsOwnBoundary(now, end);
    ASampleAdds(cfg, perp, spot, feed, end, now);
    assert (feed + [Sampled(now)])[..|feed|] == feed;
    ToldNext(perp, spot, ToMarks(cfg, feed), M.Sample(now));
  }

  lemma ItsOwnBoundary(now: int, end: int)
    requires end % 180_000_000_000 == 0 && end <= now < end + 180_000_000_000
    ensures M.BoundaryOf(now) == end
  {
  }
}
