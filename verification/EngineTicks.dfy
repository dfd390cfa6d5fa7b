/** What a tick does to each order on the book (internal/fix/engine.go, tick and evaluate), told by
    the market read, the order as it was, and the reports it gets. */
module EngineTicks {
  import opened Decimals
  import opened Options
  import opened FillModel
  import opened Matching
  import opened EngineBook
  import opened EngineProgress
  import opened EngineMarket

  // ---------------------------------------------------------------------------
  // What may become of an order
  // ---------------------------------------------------------------------------

  /** An order on the book and what has been said of it. */
  datatype Standing = Standing(o: LiveOrder, life: seq<VenueReport>)

  function StandingOf(v: Venue, id: string): Standing
    requires id in v.live
  {
    Standing(v.live[id], LifeOf(v.published, id))
  }

  /** Nothing about it has changed. */
  predicate Untouched(was: Standing, v: Venue, id: string) {
    id in v.live && v.live[id] == was.o && LifeOf(v.published, id) == was.life
  }

  /** The report that ends an order with `cumQty` of it filled. */
  predicate Withdraws(o: LiveOrder, cumQty: real, text: string, at: int, r: VenueReport) {
    && r.ordStatus.StatusCanceled? && r.lastQty == 0.0 && r.cumQty == cumQty && r.leavesQty == 0.0
    && r.orderQty == o.qty && r.orderID == o.orderID && r.text == text && r.at == at
  }

  /** The report of a fill of the order's next slice. */
  predicate Fills(o: LiveOrder, b: Book, slippageBps: real, at: int, r: VenueReport)
    requires o.next < |o.slices|
  {
    && r.ordStatus == (if o.next + 1 == |o.slices| then StatusFilled else PartiallyFilled)
    && r.lastQty == o.slices[o.next] && r.cumQty == o.cumQty + r.lastQty && r.leavesQty == o.qty - r.cumQty
    && Slipped(o.side, o.limitPx, b, slippageBps, r.lastPx)
    && r.orderQty == o.qty && r.orderID == o.orderID && r.text == "" && r.at == at
  }

  /** The market is at the order's limit or through it. */
  predicate Crosses(o: LiveOrder, b: Book) {
    match o.side
    case Buy => b.ask <= o.limitPx
    case Sell => b.bid >= o.limitPx
  }

  /** A wait the venue's latency may draw: none, or from a half of it up to a half more than it. */
  predicate Awaits(latency: int, wait: int) {
    if latency <= 0 then wait == 0 else latency / 2 <= wait < latency / 2 + latency
  }

  predicate Ended(v: Venue, id: string, status: OrdStatus) {
    id !in v.live && id in v.final && v.final[id] == status
  }

  /** Nothing printed: an immediate order is withdrawn, any other waits for the next read of the
      market. */
  predicate Unfilled(was: Standing, text: string, nextRead: int, now: int, v: Venue, id: string) {
    var life, n := LifeOf(v.published, id), |was.life|;
    if was.o.tif.Ioc? then
      && Ended(v, id, StatusCanceled)
      && |life| == n + 1 && life[..n] == was.life && Withdraws(was.o, was.o.cumQty, text, now, life[n])
    else
      id in v.live && v.live[id] == was.o.(readyAt := nextRead) && life == was.life
  }

  /** The next slice printed and no more of it. With nothing left the order is filled; what is left
      of an immediate order is withdrawn; any other rests, ready for its next slice after the
      venue's latency. */
  predicate Printed(cfg: Config, was: Standing, b: Book, now: int, v: Venue, id: string)
    requires was.o.next < |was.o.slices|
  {
    var life, n, o := LifeOf(v.published, id), |was.life|, was.o;
    && |life| > n && life[..n] == was.life && Fills(o, b, cfg.slippageBps, now, life[n])
    && if o.next + 1 == |o.slices| then
         Ended(v, id, StatusFilled) && |life| == n + 1
       else if o.tif.Ioc? then
         && Ended(v, id, StatusCanceled) && |life| == n + 2
         && Withdraws(o, life[n].cumQty, "IOC remainder canceled", now, life[n + 1])
       else
         |life| == n + 1 && id in v.live && Advanced(o, v.live[id]) && Awaits(cfg.latency, v.live[id].readyAt - now)
  }

  /** The same order with one slice fewer to print. */
  predicate Advanced(o: LiveOrder, o': LiveOrder) {
    && o'.next == o.next + 1 && o'.slices == o.slices && o'.qty == o.qty && o'.tif == o.tif
    && o'.side == o.side && o'.limitPx == o.limitPx && o'.orderID == o.orderID && o'.clOrdID == o.clOrdID
  }

  /** What a tick at `now` makes of an order due by then, by the market as last read. */
  predicate Evaluated(cfg: Config, b: Option<Book>, nextRead: int, was: Standing, now: int, v: Venue, id: string)
    requires was.o.next < |was.o.slices|
  {
    if !Recent(cfg, b, now) then Unfilled(was, "IOC canceled: no market data", nextRead, now, v, id)
    else if !Crosses(was.o, b.value) then Unfilled(was, "IOC remainder canceled", nextRead, now, v, id)
    else Printed(cfg, was, b.value, now, v, id)
  }

  // ---------------------------------------------------------------------------
  // One evaluation
  // ---------------------------------------------------------------------------

  lemma ItsNextReport(v: Venue, v': Venue, r: VenueReport, id: string)
    requires v'.published == v.published + [r] && Owns(id, r)
    ensures var life := LifeOf(v.published, id);
            LifeOf(v'.published, id) == life + [r] && (life + [r])[..|life|] == life
  {
    LifeSnoc(v.published, r);
  }

  lemma FinishWithdraws(v: Venue, id: string, cumQty: real, now: int, reason: string, life: seq<VenueReport>)
    requires id in v.live && v.live[id].clOrdID == id && v.live[id].cumQty == cumQty
    requires life == LifeOf(v.published, id)
    ensures var v', life' := Finish(v, id, now, "", reason), LifeOf(Finish(v, id, now, "", reason).published, id);
            && Ended(v', id, StatusCanceled) && |life'| == |life| + 1 && life'[..|life|] == life
            && Withdraws(v.live[id], cumQty, reason, now, life'[|life|])
  {
    var v' := Finish(v, id, now, "", reason);
    ItsNextReport(v, v', v'.published[|v.published|], id);
  }

  lemma StaleIsUnfilled(v: Venue, id: string, now: int)
    requires id in v.live && v.live[id].clOrdID == id
    ensures Unfilled(StandingOf(v, id), "IOC canceled: no market data", v.nextBookRead, now,
                     if v.live[id].tif.Ioc? then Finish(v, id, now, "", CANCEL_NO_MARKET)
                     else Defer(v, id, v.nextBookRead), id)
  {
    FinishWithdraws(v, id, v.live[id].cumQty, now, CANCEL_NO_MARKET, LifeOf(v.published, id));
  }

  lemma UncrossedIsUnfilled(v: Venue, id: string, now: int)
    requires id in v.live && v.live[id].clOrdID == id
    ensures Unfilled(StandingOf(v, id), "IOC remainder canceled", v.nextBookRead, now,
                     Settle(v, id, v.nextBookRead, now), id)
  {
    FinishWithdraws(Defer(v, id, v.nextBookRead), id, v.live[id].cumQty, now, CANCEL_IOC_REMAINDER,
                    LifeOf(v.published, id));
  }

  /** A recorded print: its report, and the order advanced or filled. */
  lemma ASlicePrints(cfg: Config, v: Venue, id: string, now: int, recorded: bool) returns (r: VenueReport)
    requires id in v.live && v.live[id].clOrdID == id && v.book.Some? && v.live[id].next < |v.live[id].slices|
    ensures var o, v' := v.live[id], PrintSlice(cfg, v, id, now, recorded);
            && Fills(o, v.book.value, cfg.slippageBps, now, r)
            && LifeOf(v'.published, id) == LifeOf(v.published, id) + [r]
            && if o.next + 1 == |o.slices| then Ended(v', id, StatusFilled)
               else id in v'.live && Advanced(o, v'.live[id]) && v'.live[id].cumQty == r.cumQty
  {
    var o, v' := v.live[id], PrintSlice(cfg, v, id, now, recorded);
    r := v'.published[|v.published|];
    ItsNextReport(v, v', r, id);
    PrintsSlip(o.side, o.limitPx, v.book.value, cfg.slippageBps);
  }

  lemma AFilledOrderIsPrinted(cfg: Config, v: Venue, id: string, now: int, recorded: bool)
    requires id in v.live && v.live[id].clOrdID == id && v.book.Some? && v.live[id].next + 1 == |v.live[id].slices|
    ensures Printed(cfg, StandingOf(v, id), v.book.value, now, PrintSlice(cfg, v, id, now, recorded), id)
  {
    var r := ASlicePrints(cfg, v, id, now, recorded);
  }

  lemma ARestingOrderIsPrinted(cfg: Config, v: Venue, id: string, now: int, readyAt: int, recorded: bool)
    requires id in v.live && v.live[id].clOrdID == id && v.book.Some? && v.live[id].next + 1 < |v.live[id].slices|
    requires Awaits(cfg.latency, readyAt - now)
    ensures var v' := PrintSlice(cfg, v, id, now, recorded);
            id in v'.live && Printed(cfg, StandingOf(v, id), v.book.value, now, Settle(v', id, readyAt, now), id)
  {
    var r := ASlicePrints(cfg, v, id, now, recorded);
    var v', life := PrintSlice(cfg, v, id, now, recorded), LifeOf(v.published, id);
    if v.live[id].tif.Ioc? {
      var w := Defer(v', id, readyAt);
      FinishWithdraws(w, id, r.cumQty, now, CANCEL_IOC_REMAINDER, life + [r]);
      var life' := LifeOf(Finish(w, id, now, "", CANCEL_IOC_REMAINDER).published, id);
      assert life'[..|life|] == life'[..|life| + 1][..|life|];
    }
  }

  lemma TheWaitIsAllowed(latency: int, draw: int)
    requires latency > 0 ==> 0 <= draw < latency
    ensures Awaits(latency, Jitter(latency, draw))
  {
  }

  lemma WhatIsToldOfTheMarket(cfg: Config, v: Venue, id: string, now: int)
    requires id in v.live
    ensures BookFresh(cfg, v.book, now) <==> Recent(cfg, v.book, now)
    ensures v.book.Some? ==>
              (Marketable(v.live[id].side, v.live[id].limitPx, v.book.value) <==> Crosses(v.live[id], v.book.value))
  {
  }

  lemma AFillIsPrinted(cfg: Config, v: Venue, id: string, now: int, draw: int, recorded: bool)
    requires id in v.live && v.live[id].clOrdID == id && v.live[id].next < |v.live[id].slices|
    requires cfg.latency > 0 ==> 0 <= draw < cfg.latency
    requires v.book.Some? && !PrintSlice(cfg, v, id, now, recorded).failed
    ensures var v' := PrintSlice(cfg, v, id, now, recorded);
            Printed(cfg, StandingOf(v, id), v.book.value, now,
                    if id in v'.live then Settle(v', id, now + Jitter(cfg.latency, draw), now) else v', id)
  {
    var o := v.live[id];
    var r := ASlicePrints(cfg, v, id, now, recorded);
    if o.next + 1 == |o.slices| {
      AFilledOrderIsPrinted(cfg, v, id, now, recorded);
    } else {
      TheWaitIsAllowed(cfg.latency, draw);
      ARestingOrderIsPrinted(cfg, v, id, now, now + Jitter(cfg.latency, draw), recorded);
    }
  }

  lemma AnEvaluationDoes(cfg: Config, v: Venue, id: string, now: int, draw: int, recorded: bool)
    requires id in v.live && v.live[id].clOrdID == id && v.live[id].next < |v.live[id].slices|
    requires cfg.latency > 0 ==> 0 <= draw < cfg.latency
    requires !Evaluate(cfg, v, id, now, draw, recorded).failed
    ensures Evaluated(cfg, v.book, v.nextBookRead, StandingOf(v, id), now,
                      Evaluate(cfg, v, id, now, draw, recorded), id)
  {
    EvaluationIs(cfg, v, id, now, draw, recorded);
    WhatIsToldOfTheMarket(cfg, v, id, now);
    if !BookFresh(cfg, v.book, now) {
      StaleIsUnfilled(v, id, now);
    } else if !Marketable(v.live[id].side, v.live[id].limitPx, v.book.value) {
      UncrossedIsUnfilled(v, id, now);
    } else {
      assert !PrintSlice(cfg, v, id, now, recorded).failed;
      AFillIsPrinted(cfg, v, id, now, draw, recorded);
    }
  }

  // ---------------------------------------------------------------------------
  // One evaluation among a tick's
  // ---------------------------------------------------------------------------

  /** The two books are as one where `id` is concerned, and so is all they said of it. */
  predicate SameOrder(v: Venue, v': Venue, id: string) {
    SameAt(v, v', id) && LifeOf(v'.published, id) == LifeOf(v.published, id)
  }

  lemma FinishingSaysNothingElse(v: Venue, id: string, now: int, reason: string, k: string)
    requires id in v.live && v.live[id].clOrdID == id && k != id
    ensures LifeOf(Finish(v, id, now, "", reason).published, k) == LifeOf(v.published, k)
  {
    var v' := Finish(v, id, now, "", reason);
    LifeSnoc(v.published, v'.published[|v.published|]);
  }

  lemma SettlingSaysNothingElse(v: Venue, id: string, readyAt: int, now: int, k: string)
    requires id in v.live && v.live[id].clOrdID == id && k != id
    ensures LifeOf(Settle(v, id, readyAt, now).published, k) == LifeOf(v.published, k)
  {
    FinishingSaysNothingElse(Defer(v, id, readyAt), id, now, CANCEL_IOC_REMAINDER, k);
  }

  lemma PrintingSaysNothingElse(cfg: Config, v: Venue, id: string, now: int, recorded: bool, k: string)
    requires id in v.live && v.live[id].clOrdID == id && v.book.Some? && k != id
    requires v.live[id].next < |v.live[id].slices|
    ensures var v' := PrintSlice(cfg, v, id, now, recorded);
            LifeOf(v'.published, k) == LifeOf(v.published, k) && (id in v'.live ==> v'.live[id].clOrdID == id)
  {
    var v' := PrintSlice(cfg, v, id, now, recorded);
    LifeSnoc(v.published, v'.published[|v.published|]);
  }

  lemma EvaluatingSaysNothingElse(cfg: Config, v: Venue, id: string, now: int, draw: int, recorded: bool, k: string)
    requires id in v.live && v.live[id].clOrdID == id && v.live[id].next < |v.live[id].slices| && k != id
    ensures LifeOf(Evaluate(cfg, v, id, now, draw, recorded).published, k) == LifeOf(v.published, k)
  {
    EvaluationIs(cfg, v, id, now, draw, recorded);
    if !BookFresh(cfg, v.book, now) {
      FinishingSaysNothingElse(v, id, now, CANCEL_NO_MARKET, k);
    } else if !Marketable(v.live[id].side, v.live[id].limitPx, v.book.value) {
      SettlingSaysNothingElse(v, id, v.nextBookRead, now, k);
    } else {
      PrintingSaysNothingElse(cfg, v, id, now, recorded, k);
      var v' := PrintSlice(cfg, v, id, now, recorded);
      if id in v'.live {
        SettlingSaysNothingElse(v', id, now + Jitter(cfg.latency, draw), now, k);
      }
    }
  }

  lemma AnotherEvaluationLeavesIt(cfg: Config, v: Venue, j: string, now: int, chance: Chance, id: string)
    requires Consistent(cfg, v) && Due(v, j, now) && j != id
    ensures SameOrder(v, Evaluate(cfg, v, j, now, chance.Draw(j), chance.Records(j)), id)
  {
    assert OrderOk(cfg, v, j);
    EvaluateElsewhere(cfg, v, j, now, chance.Draw(j), chance.Records(j), id);
    EvaluatingSaysNothingElse(cfg, v, j, now, chance.Draw(j), chance.Records(j), id);
  }

  lemma {:induction false} NotWalkedIsUntouched(cfg: Config, v: Venue, ids: seq<string>, now: int, chance: Chance,
                                                id: string)
    requires Consistent(cfg, v) && (id !in ids || !Due(v, id, now))
    ensures SameOrder(v, EvaluateAll(cfg, v, ids, now, chance), id)
  {
    if ids != [] {
      var n := |ids| - 1;
      NotWalkedIsUntouched(cfg, v, ids[..n], now, chance, id);
      EvaluateAllKeeps(cfg, v, ids[..n], now, chance);
      var v' := EvaluateAll(cfg, v, ids[..n], now, chance);
      if !v'.failed && Due(v', ids[n], now) {
        AnotherEvaluationLeavesIt(cfg, v', ids[n], now, chance, id);
      }
    }
  }

  predicate FairDraws(cfg: Config, chance: Chance) {
    forall id :: id in chance.draws ==>
      0 <= chance.draws[id] && (cfg.latency > 0 ==> chance.draws[id] < cfg.latency)
  }

  lemma EvaluatedStill(cfg: Config, b: Option<Book>, nextRead: int, was: Standing, now: int, v: Venue, v': Venue,
                       id: string)
    requires was.o.next < |was.o.slices| && Evaluated(cfg, b, nextRead, was, now, v, id) && SameOrder(v, v', id)
    ensures Evaluated(cfg, b, nextRead, was, now, v', id)
  {
  }

  lemma {:induction false} AWalkedOrderIsEvaluated(cfg: Config, v: Venue, ids: seq<string>, now: int, chance: Chance,
                                                   id: string)
    requires Consistent(cfg, v) && Distinct(ids) && id in ids && Due(v, id, now) && FairDraws(cfg, chance)
    requires !v.failed && !EvaluateAll(cfg, v, ids, now, chance).failed
    ensures Evaluated(cfg, v.book, v.nextBookRead, StandingOf(v, id), now, EvaluateAll(cfg, v, ids, now, chance), id)
  {
    var n := |ids| - 1;
    Rest(ids);
    var v' := EvaluateAll(cfg, v, ids[..n], now, chance);
    EvaluateAllKeeps(cfg, v, ids[..n], now, chance);
    EvaluatingKeepsTheMarket(cfg, v, ids[..n], now, chance);
    if ids[n] == id {
      NotWalkedIsUntouched(cfg, v, ids[..n], now, chance, id);
      assert OrderOk(cfg, v', id);
      AnEvaluationDoes(cfg, v', id, now, chance.Draw(id), chance.Records(id));
    } else {
      AWalkedOrderIsEvaluated(cfg, v, ids[..n], now, chance, id);
      if Due(v', ids[n], now) {
        AnotherEvaluationLeavesIt(cfg, v', ids[n], now, chance, id);
        EvaluatedStill(cfg, v.book, v.nextBookRead, StandingOf(v, id), now, v',
                       Evaluate(cfg, v', ids[n], now, chance.Draw(ids[n]), chance.Records(ids[n])), id);
      }
    }
  }

  // ---------------------------------------------------------------------------
  // Over every run
  // ---------------------------------------------------------------------------

  /** On every run, a tick that records its fills does this to each order on the book: one it does
      not walk, or not yet ready, it leaves alone; any other it prices on the last snapshot read,
      and prints its next slice exactly when that is recent and at the limit or through it. */
  lemma WhatATickDoes(cfg: Config, readAt: int, read: BookRead, inputs: seq<Input>, tick: Input, id: string)
    requires AllWellformed(inputs) && tick.Tick? && Distinct(tick.ids) && FairDraws(cfg, tick.chance)
    requires var v := Run(cfg, Opened(cfg, readAt, read), inputs);
             !v.failed && !Step(cfg, v, tick).failed && id in v.live
    ensures var v := Run(cfg, Opened(cfg, readAt, read), inputs);
            var was, v', made := StandingOf(v, id), Step(cfg, v, tick), Reads(cfg, readAt, read, inputs + [tick]);
            && was.o.next < |was.o.slices|
            && if id !in tick.ids || was.o.readyAt > tick.now then Untouched(was, v', id)
               else Evaluated(cfg, LastSnapshot(made), made[|made| - 1].at + cfg.bookPoll, was, tick.now, v', id)
  {
    var v := Run(cfg, Opened(cfg, readAt, read), inputs);
    var r := Refresh(cfg, v, tick.now, tick.readAt, tick.read);
    EveryRunIsConsistent(cfg, readAt, read, inputs);
    TheMarketIsTheLastSnapshot(cfg, readAt, read, inputs);
    ATickReads(cfg, v, readAt, read, inputs, tick);
    RefreshKeeps(cfg, v, tick.now, tick.readAt, tick.read);
    TheBookIsNotTheMarket(cfg, v, tick, id);
    if id !in tick.ids || v.live[id].readyAt > tick.now {
      NotWalkedIsUntouched(cfg, r, tick.ids, tick.now, tick.chance, id);
    } else {
      AWalkedOrderIsEvaluated(cfg, r, tick.ids, tick.now, tick.chance, id);
    }
  }

  lemma TheBookIsNotTheMarket(cfg: Config, v: Venue, tick: Input, id: string)
    requires Consistent(cfg, v) && tick.Tick? && id in v.live && !v.failed
    ensures var r := Refresh(cfg, v, tick.now, tick.readAt, tick.read);
            && id in r.live && StandingOf(r, id) == StandingOf(v, id) && !r.failed
            && v.live[id].next < |v.live[id].slices|
            && Step(cfg, v, tick) == EvaluateAll(cfg, r, tick.ids, tick.now, tick.chance)
  {
    assert OrderOk(cfg, v, id);
  }

  // ---------------------------------------------------------------------------
  // Fills the writer refuses
  // ---------------------------------------------------------------------------

  /** A fill was published from here on of an order whose fills are refused only by failing, and
      then it was the last thing published. */
  predicate StopsAtTheRefused(refused: set<string>, v: Venue, v': Venue) {
    && v.published <= v'.published
    && (forall i :: |v.published| <= i < |v'.published| && v'.published[i].lastQty > 0.0 ==>
          (FiledUnder(v'.published[i]) in refused <==> v'.failed && i == |v'.published| - 1))
    && (v'.failed ==> |v'.published| > |v.published| && v'.published[|v'.published| - 1].lastQty > 0.0)
  }

  lemma StoppingIsTransitive(refused: set<string>, u: Venue, v: Venue, w: Venue)
    requires StopsAtTheRefused(refused, u, v) && !v.failed && StopsAtTheRefused(refused, v, w)
    ensures StopsAtTheRefused(refused, u, w)
  {
    forall i | |u.published| <= i < |w.published| && w.published[i].lastQty > 0.0
      ensures FiledUnder(w.published[i]) in refused <==> w.failed && i == |w.published| - 1
    {
      if i < |v.published| {
        assert w.published[i] == v.published[i];
      }
    }
  }

  lemma WithdrawalsNeverStop(refused: set<string>, v: Venue, id: string, readyAt: int, now: int, reason: string)
    requires id in v.live && !v.failed
    ensures StopsAtTheRefused(refused, v, Settle(v, id, readyAt, now)) && !Settle(v, id, readyAt, now).failed
    ensures StopsAtTheRefused(refused, v, Finish(v, id, now, "", reason)) && !Finish(v, id, now, "", reason).failed
    ensures StopsAtTheRefused(refused, v, Defer(v, id, readyAt)) && !Defer(v, id, readyAt).failed
  {
  }

  lemma APrintStops(cfg: Config, v: Venue, id: string, now: int, chance: Chance)
    requires OrderOk(cfg, v, id) && id in v.live && v.book.Some? && !v.failed
    ensures v.live[id].next < |v.live[id].slices|
    ensures StopsAtTheRefused(chance.refused, v, PrintSlice(cfg, v, id, now, chance.Records(id)))
  {
    var v' := PrintSlice(cfg, v, id, now, chance.Records(id));
    var r := v'.published[|v.published|];
    assert r.lastQty == v.live[id].slices[v.live[id].next] > 0.0 && FiledUnder(r) == id;
  }

  lemma AnEvaluationStops(cfg: Config, v: Venue, id: string, now: int, chance: Chance)
    requires Consistent(cfg, v) && Due(v, id, now) && !v.failed
    ensures StopsAtTheRefused(chance.refused, v, Evaluate(cfg, v, id, now, chance.Draw(id), chance.Records(id)))
  {
    var draw, recorded := chance.Draw(id), chance.Records(id);
    assert OrderOk(cfg, v, id);
    EvaluationIs(cfg, v, id, now, draw, recorded);
    if BookFresh(cfg, v.book, now) && Marketable(v.live[id].side, v.live[id].limitPx, v.book.value) {
      var v', readyAt := PrintSlice(cfg, v, id, now, recorded), now + Jitter(cfg.latency, draw);
      APrintStops(cfg, v, id, now, chance);
      if !v'.failed && id in v'.live {
        WithdrawalsNeverStop(chance.refused, v', id, readyAt, now, "");
        StoppingIsTransitive(chance.refused, v, v', Settle(v', id, readyAt, now));
      }
    } else {
      WithdrawalsNeverStop(chance.refused, v, id, v.nextBookRead, now, CANCEL_NO_MARKET);
    }
  }

  lemma {:induction false} AWalkStops(cfg: Config, v: Venue, ids: seq<string>, now: int, chance: Chance)
    requires Consistent(cfg, v) && !v.failed
    ensures StopsAtTheRefused(chance.refused, v, EvaluateAll(cfg, v, ids, now, chance))
  {
    if ids != [] {
      var n := |ids| - 1;
      AWalkStops(cfg, v, ids[..n], now, chance);
      EvaluateAllKeeps(cfg, v, ids[..n], now, chance);
      var v' := EvaluateAll(cfg, v, ids[..n], now, chance);
      if !v'.failed && Due(v', ids[n], now) {
        AnEvaluationStops(cfg, v', ids[n], now, chance);
        StoppingIsTransitive(chance.refused, v, v',
                             Evaluate(cfg, v', ids[n], now, chance.Draw(ids[n]), chance.Records(ids[n])));
      }
    }
  }

  /** On every run, no fill the writer refused is ever sent: the first of a tick stops the venue,
      is the last report published, and is held back. */
  lemma NoUnrecordedFillIsSent(cfg: Config, readAt: int, read: BookRead, inputs: seq<Input>, tick: Input)
    requires AllWellformed(inputs) && tick.Tick? && !Run(cfg, Opened(cfg, readAt, read), inputs).failed
    ensures var v := Run(cfg, Opened(cfg, readAt, read), inputs);
            var v' := Step(cfg, v, tick);
            && StopsAtTheRefused(tick.chance.refused, v, v') && v.published <= v'.Sent()
            && forall i :: |v.published| <= i < |v'.Sent()| && v'.Sent()[i].lastQty > 0.0 ==>
                 FiledUnder(v'.Sent()[i]) !in tick.chance.refused
  {
    var v := Run(cfg, Opened(cfg, readAt, read), inputs);
    var r := Refresh(cfg, v, tick.now, tick.readAt, tick.read);
    EveryRunIsConsistent(cfg, readAt, read, inputs);
    RefreshKeeps(cfg, v, tick.now, tick.readAt, tick.read);
    AWalkStops(cfg, r, tick.ids, tick.now, tick.chance);
  }
}
