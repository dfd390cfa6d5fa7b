/** What the engine's invariant is worth: the fills of an order add up, its average price
    respects its limit, and no execution id is ever used twice. */
module EngineResults {
  import opened Decimals
  import opened FillModel
  import opened Matching
  import opened EngineBook
  import Ids

  // ---------------------------------------------------------------------------
  // Conservation
  // ---------------------------------------------------------------------------

  lemma {:induction false} LifeIsComplete(reports: seq<VenueReport>, id: string, r: VenueReport)
    ensures r in LifeOf(reports, id) <==> r in reports && Owns(id, r)
  {
    if reports != [] {
      var n := |reports| - 1;
      LifeIsComplete(reports[..n], id, r);
      assert reports == reports[..n] + [reports[n]];
    }
  }

  function Entries(life: seq<VenueReport>): nat {
    if life == [] then 0
    else Entries(life[..|life| - 1]) + if life[|life| - 1].ordStatus.StatusNew? then 1 else 0
  }

  function Endings(life: seq<VenueReport>): nat {
    if life == [] then 0
    else Endings(life[..|life| - 1]) + if life[|life| - 1].ordStatus.Ends() then 1 else 0
  }

  function Executed(life: seq<VenueReport>): real {
    if life == [] then 0.0 else Executed(life[..|life| - 1]) + life[|life| - 1].lastQty
  }

  /** One NEW, at most one end and it is the last report, and a CumQty that is at every
      report the sum of the fills so far. */
  lemma {:induction false} ALifeAddsUp(cfg: Config, t: Terms, life: seq<VenueReport>)
    requires Lived(cfg, t, life)
    ensures Entries(life) == 1 && life[0].ordStatus.StatusNew?
    ensures Endings(life) == if life[|life| - 1].ordStatus.Ends() then 1 else 0
    ensures life[|life| - 1].cumQty == Executed(life)
    ensures 0.0 <= Executed(life) <= t.qty
    ensures life[|life| - 1].ordStatus.Ends() ==>
              (life[|life| - 1].ordStatus.StatusFilled? <==> Executed(life) == t.qty)
  {
    var n := |life| - 1;
    if n == 0 {
      assert life[..0] == [];
    } else {
      ALifeAddsUp(cfg, t, life[..n]);
    }
  }

  /** Live and finished ids partition the accepted ones. */
  lemma LiveAndFinishedPartitionTheAccepted(cfg: Config, readAt: int, read: BookRead, inputs: seq<Input>)
    requires AllWellformed(inputs)
    ensures var v := Run(cfg, Opened(cfg, readAt, read), inputs);
            v.live.Keys !! v.final.Keys && v.live.Keys + v.final.Keys == v.terms.Keys
  {
    EveryRunIsConsistent(cfg, readAt, read, inputs);
    var v := Run(cfg, Opened(cfg, readAt, read), inputs);
    forall id
      ensures !(id in v.live && id in v.final) && (id in v.live || id in v.final <==> id in v.terms)
    {
      assert OrderOk(cfg, v, id);
    }
  }

  /** An accepted id has one NEW; a finished one has one end, the last report, with nothing
      left and a CumQty that is the sum of its fills; a live one has no end, something
      left, and has printed exactly the slices before its next. */
  lemma AnOrderIsConserved(cfg: Config, readAt: int, read: BookRead, inputs: seq<Input>, id: string)
    requires AllWellformed(inputs)
    ensures var v := Run(cfg, Opened(cfg, readAt, read), inputs);
            var life := LifeOf(v.published, id);
            && Entries(life) == (if id in v.terms then 1 else 0)
            && Endings(life) == (if id in v.final then 1 else 0)
            && (id in v.final ==>
                  life != [] && life[|life| - 1].ordStatus == v.final[id] && life[|life| - 1].leavesQty == 0.0 &&
                  life[|life| - 1].cumQty == Executed(life))
            && (id in v.live ==>
                  var o := v.live[id];
                  o.Leaves() > 0.0 && o.next < |o.slices| && o.cumQty == Sum(o.slices[..o.next])
                    && o.cumQty == Executed(life))
  {
    EveryRunIsConsistent(cfg, readAt, read, inputs);
    var v := Run(cfg, Opened(cfg, readAt, read), inputs);
    assert OrderOk(cfg, v, id);
    if id in v.live {
      ALiveOrderIsConserved(cfg, v.terms[id], v.live[id], LifeOf(v.published, id));
    } else if id in v.final {
      AFinishedOrderIsConserved(cfg, v.terms[id], v.final[id], LifeOf(v.published, id));
    }
  }

  lemma ALiveOrderIsConserved(cfg: Config, t: Terms, o: LiveOrder, life: seq<VenueReport>)
    requires OnBook(cfg, t, o, life)
    ensures Entries(life) == 1 && Endings(life) == 0
    ensures o.Leaves() > 0.0 && o.next < |o.slices| && o.cumQty == Sum(o.slices[..o.next]) && o.cumQty == Executed(life)
  {
    ALifeAddsUp(cfg, t, life);
    SumPrefix(o.slices, o.next);
  }

  lemma AFinishedOrderIsConserved(cfg: Config, t: Terms, status: OrdStatus, life: seq<VenueReport>)
    requires OffBook(cfg, t, status, life)
    ensures Entries(life) == 1 && Endings(life) == 1
    ensures life != [] && life[|life| - 1].ordStatus == status && life[|life| - 1].leavesQty == 0.0
    ensures life[|life| - 1].cumQty == Executed(life)
  {
    ALifeAddsUp(cfg, t, life);
    EndsWithNothingLeft(cfg, t, life);
  }

  lemma EndsWithNothingLeft(cfg: Config, t: Terms, life: seq<VenueReport>)
    requires Lived(cfg, t, life) && life[|life| - 1].ordStatus.Ends()
    ensures life[|life| - 1].leavesQty == 0.0
  {
  }

  lemma {:induction false} APrefixLived(cfg: Config, t: Terms, life: seq<VenueReport>, i: nat)
    requires Lived(cfg, t, life) && i < |life|
    ensures Lived(cfg, t, life[..i + 1])
  {
    if i + 1 < |life| {
      APrefixLived(cfg, t, life[..|life| - 1], i);
      assert life[..|life| - 1][..i + 1] == life[..i + 1];
    } else {
      assert life[..i + 1] == life;
    }
  }

  // ---------------------------------------------------------------------------
  // Price protection
  // ---------------------------------------------------------------------------

  lemma TimesMonotone(x: real, y: real, q: real)
    requires x <= y && q >= 0.0
    ensures Times(x, q) <= Times(y, q)
  {
  }

  lemma TimesAdds(x: real, p: real, q: real)
    ensures Times(x, p + q) == Times(x, p) + Times(x, q)
  {
  }

  /** However the book moved between its fills, an order never paid through its limit. */
  lemma {:induction false} NotionalWithinLimit(cfg: Config, t: Terms, life: seq<VenueReport>)
    requires Lived(cfg, t, life)
    ensures Protected(t.side, Times(t.limitPx, life[|life| - 1].cumQty), Notional(life))
  {
    var n := |life| - 1;
    if n == 0 {
      NewLife(cfg, t, life[0]);
      assert life == [life[0]];
      assert Times(t.limitPx, 0.0) == 0.0;
    } else {
      NotionalWithinLimit(cfg, t, life[..n]);
      AnotherPrintWithinLimit(t, life[n - 1], life[n], Notional(life[..n]), Notional(life));
    }
  }

  lemma AnotherPrintWithinLimit(t: Terms, p: VenueReport, r: VenueReport, before: real, notional: real)
    requires Moves(t, p, r, notional) && notional == before + Times(r.lastPx, r.lastQty)
    requires Protected(t.side, Times(t.limitPx, p.cumQty), before)
    ensures Protected(t.side, Times(t.limitPx, r.cumQty), notional)
  {
    TimesAdds(t.limitPx, p.cumQty, r.lastQty);
    if r.lastQty == 0.0 {
      assert Times(r.lastPx, 0.0) == 0.0 && Times(t.limitPx, 0.0) == 0.0;
    } else if t.side.Buy? {
      TimesMonotone(r.lastPx, t.limitPx, r.lastQty);
    } else {
      TimesMonotone(t.limitPx, r.lastPx, r.lastQty);
    }
  }

  lemma QuotientWithin(side: Side, limitPx: real, notional: real, cumQty: real)
    requires cumQty > 0.0 && Protected(side, Times(limitPx, cumQty), notional)
    ensures Protected(side, limitPx, notional / cumQty)
  {
    QuotientBetween(limitPx, notional, limitPx, cumQty);
  }

  /** Every average price the venue reports is within the rounded limit, and so within the
      limit itself when that has at most sixteen decimals. */
  lemma AveragePriceRespectsTheLimit(cfg: Config, t: Terms, life: seq<VenueReport>)
    requires Lived(cfg, t, life) && life[|life| - 1].cumQty > 0.0
    ensures Protected(t.side, Round16(t.limitPx), life[|life| - 1].avgPx)
    ensures OnGrid(t.limitPx) ==> Protected(t.side, t.limitPx, life[|life| - 1].avgPx)
  {
    var r := life[|life| - 1];
    NotionalWithinLimit(cfg, t, life);
    QuotientWithin(t.side, t.limitPx, Notional(life), r.cumQty);
    if t.side.Buy? {
      RoundMonotone(Notional(life) / r.cumQty, t.limitPx);
    } else {
      RoundMonotone(t.limitPx, Notional(life) / r.cumQty);
    }
    assert r.avgPx == Div(Notional(life), r.cumQty);
    if OnGrid(t.limitPx) {
      RoundKeepsGrid(t.limitPx);
    }
  }

  /** So it is for every report of an order, not the last alone. */
  lemma EveryAverageRespectsTheLimit(cfg: Config, t: Terms, life: seq<VenueReport>, i: nat)
    requires Lived(cfg, t, life) && i < |life| && life[i].cumQty > 0.0
    ensures Protected(t.side, Round16(t.limitPx), life[i].avgPx)
  {
    APrefixLived(cfg, t, life, i);
    AveragePriceRespectsTheLimit(cfg, t, life[..i + 1]);
  }

  /** The price is the touch of this book slipped, or the limit when that comes first: never better
      than the one nor worse than the other. */
  predicate PricedOn(b: Book, t: Terms, slippageBps: real, px: real) {
    && Slipped(t.side, t.limitPx, b, slippageBps, px)
    && if t.side.Buy? then b.ask <= px <= t.limitPx else t.limitPx <= px <= b.bid
  }

  /** Whatever a step published that filled something was priced on this book. */
  ghost predicate PrintsOn(b: Book, bps: real, v: Venue, v': Venue) {
    && v.published <= v'.published && v'.terms == v.terms && v'.book == v.book
    && forall i :: |v.published| <= i < |v'.published| && v'.published[i].lastQty > 0.0 ==>
         var r := v'.published[i];
         FiledUnder(r) in v.terms && PricedOn(b, v.terms[FiledUnder(r)], bps, r.lastPx)
  }

  lemma PrintsOnIsTransitive(b: Book, bps: real, u: Venue, v: Venue, w: Venue)
    requires PrintsOn(b, bps, u, v) && PrintsOn(b, bps, v, w)
    ensures PrintsOn(b, bps, u, w)
  {
    forall i | |u.published| <= i < |w.published| && w.published[i].lastQty > 0.0
      ensures FiledUnder(w.published[i]) in u.terms
              && PricedOn(b, u.terms[FiledUnder(w.published[i])], bps, w.published[i].lastPx)
    {
      if i < |v.published| {
        assert w.published[i] == v.published[i];
      }
    }
  }

  predicate Quoted(cfg: Config, b: Book) {
    cfg.slippageBps >= 0.0 && b.bid >= 0.0 && b.ask >= 0.0
  }

  lemma ASlicePrintsOn(cfg: Config, v: Venue, id: string, now: int, recorded: bool)
    requires OrderOk(cfg, v, id) && id in v.live && v.book.Some? && Quoted(cfg, v.book.value)
    requires v.live[id].next < |v.live[id].slices| && Marketable(v.live[id].side, v.live[id].limitPx, v.book.value)
    ensures PrintsOn(v.book.value, cfg.slippageBps, v, PrintSlice(cfg, v, id, now, recorded))
  {
    var o := v.live[id];
    PrintsBetweenTouchAndLimit(o.side, o.limitPx, v.book.value, cfg.slippageBps);
    PrintsSlip(o.side, o.limitPx, v.book.value, cfg.slippageBps);
  }

  lemma ASettlementPrintsNothing(b: Book, bps: real, v: Venue, id: string, readyAt: int, now: int)
    requires id in v.live
    ensures PrintsOn(b, bps, v, Settle(v, id, readyAt, now))
  {
  }

  lemma StalePrintsNothing(b: Book, bps: real, v: Venue, id: string, now: int)
    requires id in v.live
    ensures PrintsOn(b, bps, v, Finish(v, id, now, "", CANCEL_NO_MARKET))
    ensures PrintsOn(b, bps, v, Defer(v, id, v.nextBookRead))
  {
  }

  lemma AnEvaluationPrintsOn(cfg: Config, v: Venue, id: string, now: int, draw: int, recorded: bool)
    requires Consistent(cfg, v) && id in v.live && v.live[id].next < |v.live[id].slices|
    requires v.book.Some? && Quoted(cfg, v.book.value)
    ensures PrintsOn(v.book.value, cfg.slippageBps, v, Evaluate(cfg, v, id, now, draw, recorded))
  {
    var b, o := v.book.value, v.live[id];
    EvaluationIs(cfg, v, id, now, draw, recorded);
    if !BookFresh(cfg, v.book, now) {
      StalePrintsNothing(b, cfg.slippageBps, v, id, now);
    } else if !Marketable(o.side, o.limitPx, b) {
      ASettlementPrintsNothing(b, cfg.slippageBps, v, id, v.nextBookRead, now);
    } else {
      AFillPrintsOn(cfg, v, id, now, now + Jitter(cfg.latency, draw), recorded);
    }
  }

  lemma AFillPrintsOn(cfg: Config, v: Venue, id: string, now: int, readyAt: int, recorded: bool)
    requires Consistent(cfg, v) && id in v.live && v.live[id].next < |v.live[id].slices|
    requires v.book.Some? && Quoted(cfg, v.book.value)
    requires Marketable(v.live[id].side, v.live[id].limitPx, v.book.value)
    ensures var b, v' := v.book.value, PrintSlice(cfg, v, id, now, recorded);
            PrintsOn(b, cfg.slippageBps, v, v')
            && (id in v'.live ==> PrintsOn(b, cfg.slippageBps, v, Settle(v', id, readyAt, now)))
  {
    var b, v' := v.book.value, PrintSlice(cfg, v, id, now, recorded);
    ASlicePrintsOn(cfg, v, id, now, recorded);
    if id in v'.live {
      ASettlementPrintsNothing(b, cfg.slippageBps, v', id, readyAt, now);
      PrintsOnIsTransitive(b, cfg.slippageBps, v, v', Settle(v', id, readyAt, now));
    }
  }

  lemma {:induction false} AWalkPrintsOn(cfg: Config, v: Venue, ids: seq<string>, now: int, chance: Chance)
    requires Consistent(cfg, v) && v.book.Some? && Quoted(cfg, v.book.value)
    ensures PrintsOn(v.book.value, cfg.slippageBps, v, EvaluateAll(cfg, v, ids, now, chance))
  {
    if ids != [] {
      var n := |ids| - 1;
      AWalkPrintsOn(cfg, v, ids[..n], now, chance);
      EvaluateAllKeeps(cfg, v, ids[..n], now, chance);
      var v' := EvaluateAll(cfg, v, ids[..n], now, chance);
      if !v'.failed && Due(v', ids[n], now) {
        var draw, recorded := chance.Draw(ids[n]), chance.Records(ids[n]);
        AnEvaluationPrintsOn(cfg, v', ids[n], now, draw, recorded);
        PrintsOnIsTransitive(v.book.value, cfg.slippageBps, v, v', Evaluate(cfg, v', ids[n], now, draw, recorded));
      }
    }
  }

  /** On every run, everything a tick prints is the touch of the market the tick priced it on,
      slipped, or the limit of the order it is of when that comes first. */
  lemma EveryPrintIsTheSlippedTouchOrTheLimit(cfg: Config, readAt: int, read: BookRead, inputs: seq<Input>, tick: Input)
    requires AllWellformed(inputs) && tick.Tick?
    requires var r := Refresh(cfg, Run(cfg, Opened(cfg, readAt, read), inputs), tick.now, tick.readAt, tick.read);
             r.book.Some? && Quoted(cfg, r.book.value)
    ensures var v := Run(cfg, Opened(cfg, readAt, read), inputs);
            var v' := Step(cfg, v, tick);
            var b := Refresh(cfg, v, tick.now, tick.readAt, tick.read).book.value;
            && v.published <= v'.published
            && forall i :: |v.published| <= i < |v'.published| && v'.published[i].lastQty > 0.0 ==>
                 FiledUnder(v'.published[i]) in v.terms &&
                 PricedOn(b, v.terms[FiledUnder(v'.published[i])], cfg.slippageBps, v'.published[i].lastPx)
  {
    var v := Run(cfg, Opened(cfg, readAt, read), inputs);
    EveryRunIsConsistent(cfg, readAt, read, inputs);
    RefreshKeeps(cfg, v, tick.now, tick.readAt, tick.read);
    AWalkPrintsOn(cfg, Refresh(cfg, v, tick.now, tick.readAt, tick.read), tick.ids, tick.now, tick.chance);
  }

  // ---------------------------------------------------------------------------
  // Execution ids
  // ---------------------------------------------------------------------------

  predicate Minted(v: Venue, stamp: Ids.Stamp) {
    match stamp
    case Counted(n) => n <= v.execs
    case OfOrder(serial, k) =>
      && serial <= v.orders
      && forall id :: id in v.live && id in v.terms && v.terms[id].serial == serial ==> k <= v.live[id].execSeq
  }

  /** Every published report renders its own stamp, minted so far, and no stamp repeats. */
  predicate Stamped(cfg: Config, v: Venue) {
    && |v.stamps| == |v.published|
    && (forall i :: 0 <= i < |v.stamps| ==> v.published[i].execID == Ids.ExecId(cfg.start, v.stamps[i]))
    && (forall i :: 0 <= i < |v.stamps| ==> Minted(v, v.stamps[i]))
    && (forall i, j :: 0 <= i < j < |v.stamps| ==> v.stamps[i] != v.stamps[j])
  }

  lemma PublishKeepsStamps(cfg: Config, v: Venue, v': Venue, r: VenueReport, stamp: Ids.Stamp)
    requires Stamped(cfg, v) && v'.published == v.published + [r] && v'.stamps == v.stamps + [stamp]
    requires forall i :: 0 <= i < |v.stamps| ==> Minted(v', v.stamps[i]) && v.stamps[i] != stamp
    requires Minted(v', stamp) && r.execID == Ids.ExecId(cfg.start, stamp)
    ensures Stamped(cfg, v')
  {
  }

  lemma AcceptKeepsStamps(cfg: Config, v: Venue, s: Submission, draw: int)
    requires Consistent(cfg, v) && Stamped(cfg, v)
    ensures Stamped(cfg, Accept(cfg, v, s, draw))
  {
    var v' := Accept(cfg, v, s, draw);
    var stamp := Ids.Counted(v.execs + 1);
    RefusedExactlyWhenUnacceptable(cfg, v, s);
    forall i | 0 <= i < |v.stamps|
      ensures Minted(v', v.stamps[i]) && v.stamps[i] != stamp
    {
      assert Minted(v, v.stamps[i]);
    }
    PublishKeepsStamps(cfg, v, v', v'.published[|v.published|], stamp);
  }

  lemma PrintKeepsStamps(cfg: Config, v: Venue, id: string, now: int, recorded: bool)
    requires Consistent(cfg, v) && Stamped(cfg, v) && id in v.live && v.book.Some?
             && v.live[id].next < |v.live[id].slices|
    ensures Stamped(cfg, PrintSlice(cfg, v, id, now, recorded))
  {
    assert OrderOk(cfg, v, id);
    var v' := PrintSlice(cfg, v, id, now, recorded);
    NextOfOrderIsFresh(cfg, v, v', id);
    PublishKeepsStamps(cfg, v, v', v'.published[|v.published|],
                       Ids.OfOrder(v.terms[id].serial, v.live[id].execSeq + 1));
  }

  lemma FinishKeepsStamps(cfg: Config, v: Venue, id: string, at: int, cancelID: string, reason: string)
    requires Consistent(cfg, v) && Stamped(cfg, v) && id in v.live
    ensures Stamped(cfg, Finish(v, id, at, cancelID, reason))
  {
    assert OrderOk(cfg, v, id);
    var v' := Finish(v, id, at, cancelID, reason);
    NextOfOrderIsFresh(cfg, v, v', id);
    PublishKeepsStamps(cfg, v, v', v'.published[|v.published|],
                       Ids.OfOrder(v.terms[id].serial, v.live[id].execSeq + 1));
  }

  /** The number an order gives its next report has been used by no report so far. */
  lemma NextOfOrderIsFresh(cfg: Config, v: Venue, v': Venue, id: string)
    requires Consistent(cfg, v) && Stamped(cfg, v) && id in v.live && id in v.terms
    requires v'.terms == v.terms && v'.orders == v.orders && v'.execs == v.execs
    requires v'.live.Keys <= v.live.Keys
    requires forall k :: k in v'.live && k != id ==> v'.live[k] == v.live[k]
    requires id in v'.live ==> v'.live[id].execSeq == v.live[id].execSeq + 1
    ensures var stamp := Ids.OfOrder(v.terms[id].serial, v.live[id].execSeq + 1);
            Minted(v', stamp) && forall i :: 0 <= i < |v.stamps| ==> Minted(v', v.stamps[i]) && v.stamps[i] != stamp
  {
    forall i | 0 <= i < |v.stamps|
      ensures Minted(v', v.stamps[i]) && v.stamps[i] != Ids.OfOrder(v.terms[id].serial, v.live[id].execSeq + 1)
    {
      assert Minted(v, v.stamps[i]);
    }
  }

  lemma DeferKeepsStamps(cfg: Config, v: Venue, id: string, readyAt: int)
    requires Stamped(cfg, v) && id in v.live
    ensures Stamped(cfg, Defer(v, id, readyAt))
  {
    var v' := Defer(v, id, readyAt);
    forall i | 0 <= i < |v.stamps|
      ensures Minted(v', v.stamps[i])
    {
      assert Minted(v, v.stamps[i]);
    }
  }

  lemma SettleKeepsStamps(cfg: Config, v: Venue, id: string, readyAt: int, now: int)
    requires Consistent(cfg, v) && Stamped(cfg, v) && id in v.live
    ensures Stamped(cfg, Settle(v, id, readyAt, now))
  {
    DeferKeepsStamps(cfg, v, id, readyAt);
    if v.live[id].tif.Ioc? {
      DeferKeeps(cfg, v, id, readyAt);
      FinishKeepsStamps(cfg, Defer(v, id, readyAt), id, now, "", CANCEL_IOC_REMAINDER);
    }
  }

  lemma EvaluateKeepsStamps(cfg: Config, v: Venue, id: string, now: int, draw: int, recorded: bool)
    requires Consistent(cfg, v) && Stamped(cfg, v) && id in v.live && v.live[id].next < |v.live[id].slices|
    ensures Stamped(cfg, Evaluate(cfg, v, id, now, draw, recorded))
  {
    var o, e := v.live[id], Evaluate(cfg, v, id, now, draw, recorded);
    EvaluationIs(cfg, v, id, now, draw, recorded);
    if !BookFresh(cfg, v.book, now) {
      if o.tif.Ioc? {
        FinishKeepsStamps(cfg, v, id, now, "", CANCEL_NO_MARKET);
      } else {
        DeferKeepsStamps(cfg, v, id, v.nextBookRead);
      }
    } else {
      var fillable := Marketable(o.side, o.limitPx, v.book.value);
      var v' := if fillable then PrintSlice(cfg, v, id, now, recorded) else v;
      var at := if fillable then now + Jitter(cfg.latency, draw) else v.nextBookRead;
      assert e == v' || (id in v'.live && e == Settle(v', id, at, now));
      if fillable {
        PrintKeepsStamps(cfg, v, id, now, recorded);
        PrintSliceKeeps(cfg, v, id, now, recorded);
      }
      if id in v'.live {
        SettleKeepsStamps(cfg, v', id, at, now);
      }
    }
  }

  lemma {:induction false} EvaluateAllKeepsStamps(cfg: Config, v: Venue, ids: seq<string>, now: int, chance: Chance)
    requires Consistent(cfg, v) && Stamped(cfg, v)
    ensures Stamped(cfg, EvaluateAll(cfg, v, ids, now, chance))
  {
    if ids != [] {
      var n := |ids| - 1;
      EvaluateAllKeepsStamps(cfg, v, ids[..n], now, chance);
      EvaluateAllKeeps(cfg, v, ids[..n], now, chance);
      var v' := EvaluateAll(cfg, v, ids[..n], now, chance);
      if !v'.failed && Due(v', ids[n], now) {
        EvaluateKeepsStamps(cfg, v', ids[n], now, chance.Draw(ids[n]), chance.Records(ids[n]));
      }
    }
  }

  lemma StepKeepsStamps(cfg: Config, v: Venue, input: Input)
    requires Consistent(cfg, v) && Stamped(cfg, v)
    ensures Stamped(cfg, Step(cfg, v, input))
  {
    if !v.failed {
      match input
      case Submit(s, draw) => AcceptKeepsStamps(cfg, v, s, draw);
      case CancelOrder(c) =>
        if c.origClOrdID in v.live {
          FinishKeepsStamps(cfg, v, c.origClOrdID, c.at, c.clOrdID, CANCEL_REQUESTED);
        }
      case Tick(now, readAt, read, ids, chance) =>
        var v' := Refresh(cfg, v, now, readAt, read);
        assert forall i :: 0 <= i < |v.stamps| && Minted(v, v.stamps[i]) ==> Minted(v', v.stamps[i]);
        RefreshKeeps(cfg, v, now, readAt, read);
        EvaluateAllKeepsStamps(cfg, v', ids, now, chance);
    }
  }

  lemma {:induction false} EveryRunIsStamped(cfg: Config, readAt: int, read: BookRead, inputs: seq<Input>)
    requires AllWellformed(inputs)
    ensures Stamped(cfg, Run(cfg, Opened(cfg, readAt, read), inputs))
  {
    if inputs != [] {
      var n := |inputs| - 1;
      EveryRunIsStamped(cfg, readAt, read, inputs[..n]);
      EveryRunIsConsistent(cfg, readAt, read, inputs[..n]);
      StepKeepsStamps(cfg, Run(cfg, Opened(cfg, readAt, read), inputs[..n]), inputs[n]);
    }
  }

  /** No two reports of a run share an execution id, and no report of a run started at one
      instant shares one with a run started at another. */
  lemma ExecutionIdsNeverRepeat(cfg: Config, readAt: int, read: BookRead, inputs: seq<Input>, i: nat,
                                cfg': Config, readAt': int, read': BookRead, inputs': seq<Input>, j: nat)
    requires AllWellformed(inputs) && AllWellformed(inputs')
    requires var v := Run(cfg, Opened(cfg, readAt, read), inputs);
             var v' := Run(cfg', Opened(cfg', readAt', read'), inputs');
             i < |v.published| && j < |v'.published| && v.published[i].execID == v'.published[j].execID
    ensures cfg.start == cfg'.start
    ensures cfg == cfg' && readAt == readAt' && read == read' && inputs == inputs' ==> i == j
  {
    EveryRunIsStamped(cfg, readAt, read, inputs);
    EveryRunIsStamped(cfg', readAt', read', inputs');
    var v := Run(cfg, Opened(cfg, readAt, read), inputs);
    var v' := Run(cfg', Opened(cfg', readAt', read'), inputs');
    Ids.ExecIdInjective(cfg.start, v.stamps[i], cfg'.start, v'.stamps[j]);
  }
}
