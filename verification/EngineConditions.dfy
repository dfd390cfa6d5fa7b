/** Exactly when two of the engine's promises hold: that a tick leaves no work due at its own
    instant, and that an average price stays within its order's limit. */
module EngineConditions {
  import opened Decimals
  import opened FillModel
  import opened Matching
  import opened EngineBook
  import opened EngineResults
  import opened EngineProgress
  import opened EngineRuns

  // ---------------------------------------------------------------------------
  // Spinning
  // ---------------------------------------------------------------------------

  /** A tick taken after a run leaves an order it walked due later than itself, unless the order
      has left the book or the tick failed. */
  ghost predicate MovesOn(cfg: Config, readAt: int, read: BookRead, inputs: seq<Input>, tick: Input, id: string) {
    AllWellformed(inputs) && tick.Tick? && Fair(cfg, tick) && Distinct(tick.ids) && id in tick.ids ==>
      var v' := Step(cfg, Run(cfg, Opened(cfg, readAt, read), inputs), tick);
      !v'.failed && id in v'.live ==> v'.live[id].readyAt > tick.now
  }

  /** No venue of this latency that rereads its market ever wakes for the same work twice. */
  ghost predicate NeverSpins(latency: int) {
    forall cfg: Config, readAt, read, inputs, tick, id :: cfg.latency == latency && cfg.bookPoll > 0 ==>
      MovesOn(cfg, readAt, read, inputs, tick, id)
  }

  lemma EnoughLatencyMovesOn(cfg: Config, readAt: int, read: BookRead, inputs: seq<Input>, tick: Input, id: string)
    requires cfg.latency >= 2 && cfg.bookPoll > 0
    ensures MovesOn(cfg, readAt, read, inputs, tick, id)
  {
    if AllWellformed(inputs) && tick.Tick? && Fair(cfg, tick) && Distinct(tick.ids) && id in tick.ids {
      var v := Run(cfg, Opened(cfg, readAt, read), inputs);
      EveryRunIsConsistent(cfg, readAt, read, inputs);
      if !v.failed {
        ATickLeavesNothingDue(cfg, v, tick, id);
      }
    }
  }

  lemma TooLittleLatencySpins(latency: int)
    requires latency < 2
    ensures var s := [Submit(AnOrder(Buy, 2.0, 1.0), 0)];
            !MovesOn(PlainVenue(latency), 0, LockedAt(1.0), s, TheTick(), "A")
  {
    var s := [Submit(AnOrder(Buy, 2.0, 1.0), 0)];
    var cfg := PlainVenue(latency);
    TwoContractsLeaveOne(latency, Buy, 1.0);
    assert Inputs(Buy, 2.0, 1.0)[..1] == s;
    assert Fair(cfg, TheTick()) && Distinct(TheTick().ids) && "A" in TheTick().ids && AllWellformed(s);
  }

  /** Two units of latency is exactly what it takes: with less, a part-filled order can be due
      again at the instant it printed. */
  lemma LatencyPreventsSpinExactlyFromTwo(latency: int)
    ensures NeverSpins(latency) <==> latency >= 2
  {
    if latency >= 2 {
      forall cfg: Config, readAt, read, inputs, tick, id | cfg.latency == latency && cfg.bookPoll > 0
        ensures MovesOn(cfg, readAt, read, inputs, tick, id)
      {
        EnoughLatencyMovesOn(cfg, readAt, read, inputs, tick, id);
      }
    } else {
      TooLittleLatencySpins(latency);
    }
  }

  // ---------------------------------------------------------------------------
  // Averages
  // ---------------------------------------------------------------------------

  /** After a run, a report that has filled something of an order at this limit carries an
      average within it. */
  ghost predicate AverageProtected(cfg: Config, readAt: int, read: BookRead, inputs: seq<Input>, id: string,
                                   r: VenueReport, side: Side, limitPx: real) {
    AllWellformed(inputs) ==>
      var v := Run(cfg, Opened(cfg, readAt, read), inputs);
      id in v.terms && v.terms[id].side == side && v.terms[id].limitPx == limitPx &&
      r in v.published && Owns(id, r) && r.cumQty > 0.0 ==>
        Protected(side, limitPx, r.avgPx)
  }

  /** No run of any venue reports an average through this limit. */
  ghost predicate AveragesProtected(side: Side, limitPx: real) {
    forall cfg, readAt, read, inputs, id, r :: AverageProtected(cfg, readAt, read, inputs, id, r, side, limitPx)
  }

  lemma AnAverageWithinItsRoundedLimit(cfg: Config, readAt: int, read: BookRead, inputs: seq<Input>, id: string,
                                       r: VenueReport)
    requires AllWellformed(inputs)
    requires var v := Run(cfg, Opened(cfg, readAt, read), inputs);
             id in v.terms && r in v.published && Owns(id, r) && r.cumQty > 0.0
    ensures var t := Run(cfg, Opened(cfg, readAt, read), inputs).terms[id];
            Protected(t.side, Round16(t.limitPx), r.avgPx)
  {
    var v := Run(cfg, Opened(cfg, readAt, read), inputs);
    EveryRunIsConsistent(cfg, readAt, read, inputs);
    assert OrderOk(cfg, v, id);
    var life := LifeOf(v.published, id);
    LifeIsComplete(v.published, id, r);
    var i :| 0 <= i < |life| && life[i] == r;
    EveryAverageRespectsTheLimit(cfg, v.terms[id], life, i);
  }

  lemma AFillAtTheLimitAveragesIt(side: Side, limitPx: real)
    requires limitPx > 0.0 && AveragesProtected(side, limitPx)
    ensures Protected(side, limitPx, Round16(limitPx))
  {
    var cfg, inputs := PlainVenue(0), Inputs(side, 1.0, limitPx);
    var v := Run(cfg, Opened(cfg, 0, LockedAt(limitPx)), inputs);
    ASingleContractFills(side, limitPx);
    assert AverageProtected(cfg, 0, LockedAt(limitPx), inputs, "A", v.published[1], side, limitPx);
  }

  /** Rounding is what can carry an average through the limit, and it does so for exactly
      the limits that themselves round to the wrong side. */
  lemma AveragesAreProtectedExactlyWhenTheLimitIs(side: Side, limitPx: real)
    requires limitPx > 0.0
    ensures AveragesProtected(side, limitPx) <==> Protected(side, limitPx, Round16(limitPx))
  {
    if Protected(side, limitPx, Round16(limitPx)) {
      forall cfg, readAt, read, inputs, id, r
        ensures AverageProtected(cfg, readAt, read, inputs, id, r, side, limitPx)
      {
        if AllWellformed(inputs) {
          var v := Run(cfg, Opened(cfg, readAt, read), inputs);
          if id in v.terms && v.terms[id].side == side && v.terms[id].limitPx == limitPx &&
             r in v.published && Owns(id, r) && r.cumQty > 0.0 {
            AnAverageWithinItsRoundedLimit(cfg, readAt, read, inputs, id, r);
          }
        }
      }
    }
    if AveragesProtected(side, limitPx) {
      AFillAtTheLimitAveragesIt(side, limitPx);
    }
  }
}
