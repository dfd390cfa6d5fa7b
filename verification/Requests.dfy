/** What the venue makes of a submission and of a cancel (internal/fix/engine.go, accept and
    cancelRequested), told over whole runs by what it has read and what it has reported. */
module Requests {
  import opened Decimals
  import opened Options
  import opened FillModel
  import opened Matching
  import opened EngineBook
  import opened EngineProgress
  import opened EngineMarket
  import opened EngineTicks
  import Ids

  // ---------------------------------------------------------------------------
  // Submissions
  // ---------------------------------------------------------------------------

  /** The report that turns a submission down. */
  predicate Refuses(s: Submission, text: string, r: VenueReport) {
    && r.ordStatus.StatusRejected? && r.clOrdID == s.clOrdID && r.origClOrdID == "" && r.text == text && r.at == s.at
    && r.orderQty == s.qty && r.lastQty == 0.0 && r.cumQty == 0.0 && r.leavesQty == 0.0 && r.avgPx == 0.0
  }

  /** The first of the venue's objections, in the order it makes them. */
  predicate Objects(cfg: Config, s: Submission, used: bool, market: bool, text: string) {
    && (text == "duplicate ClOrdID" <==> used)
    && (text == "unknown symbol" <==> !used && s.symbol != cfg.product)
    && (text == "only limit orders are accepted" <==> !used && s.symbol == cfg.product && !s.limitOrder)
    && (text == "unsupported TimeInForce" <==>
          !used && s.symbol == cfg.product && s.limitOrder && s.tif.OtherTif?)
    && (!used && s.symbol == cfg.product && s.limitOrder && !s.tif.OtherTif? ==>
          && (text == "OrderQty must be a positive whole number of contracts" <==> s.qty <= 0.0 || !Whole(s.qty))
          && (text == "Price must be positive" <==> s.qty > 0.0 && Whole(s.qty) && s.limitPx <= 0.0)
          && (text == "no market data" <==> s.qty > 0.0 && Whole(s.qty) && s.limitPx > 0.0 && !market))
  }

  /** The report that acknowledges an order. */
  predicate Acknowledges(s: Submission, r: VenueReport) {
    && r.ordStatus.StatusNew? && r.clOrdID == s.clOrdID && r.origClOrdID == "" && r.text == "" && r.at == s.at
    && r.orderQty == s.qty && r.lastQty == 0.0 && r.cumQty == 0.0 && r.leavesQty == s.qty && r.avgPx == 0.0
  }

  /** How many fills an order is cut into. */
  function Parts(cfg: Config, qty: real): int {
    if qty > cfg.partialThreshold && cfg.partialSlices > 1
    then (if cfg.partialSlices > qty.Floor then qty.Floor else cfg.partialSlices) else 1
  }

  /** The submission's own terms, nothing of it filled, and its whole quantity cut evenly into as
      many fills as the venue was told, the first of them ready after the venue's latency. */
  predicate EntersAs(cfg: Config, s: Submission, o: LiveOrder) {
    && o.clOrdID == s.clOrdID && o.side == s.side && o.tif == s.tif && o.qty == s.qty && o.limitPx == s.limitPx
    && o.next == 0 && o.cumQty == 0.0 && o.notional == 0.0
    && |o.slices| == Parts(cfg, s.qty) && Sum(o.slices) == s.qty && Even(o.slices)
    && Awaits(cfg.latency, o.readyAt - s.at)
  }

  lemma AnEntryIsCut(cfg: Config, v: Venue, s: Submission, draw: int)
    requires s.qty > 0.0 && Whole(s.qty) && (cfg.latency > 0 ==> 0 <= draw < cfg.latency)
    ensures EntersAs(cfg, s, Enter(cfg, v, s, draw))
  {
    SlicesSumToTheOrder(s.qty, cfg.partialThreshold, cfg.partialSlices);
    TheWaitIsAllowed(cfg.latency, draw);
  }

  lemma ARefusalObjects(cfg: Config, v: Venue, s: Submission)
    requires Refusal(cfg, v, s) != ""
    ensures Objects(cfg, s, s.clOrdID in v.live || s.clOrdID in v.final, Recent(cfg, v.book, s.at), Refusal(cfg, v, s))
  {
  }

  lemma ARefusalIsSaid(cfg: Config, v: Venue, s: Submission, text: string)
    ensures var v' := Refuse(cfg, v, s, text);
            && |v'.published| == |v.published| + 1 && v.published == v'.published[..|v.published|]
            && Refuses(s, text, v'.published[|v.published|])
            && v'.live == v.live && v'.final == v.final && v'.terms == v.terms
  {
  }

  lemma AnAdmissionIsSaid(cfg: Config, v: Venue, s: Submission, draw: int)
    ensures var v' := Admit(cfg, v, s, draw);
            && |v'.published| == |v.published| + 1 && v.published == v'.published[..|v.published|]
            && Acknowledges(s, v'.published[|v.published|])
            && v'.live == v.live[s.clOrdID := Enter(cfg, v, s, draw)] && v'.final == v.final
  {
  }

  /** An id has been accepted exactly when it has been reported on. */
  lemma AcceptedMeansReported(cfg: Config, v: Venue, id: string)
    requires Consistent(cfg, v)
    ensures (id in v.live || id in v.final) <==> LifeOf(v.published, id) != []
  {
    assert OrderOk(cfg, v, id);
  }

  /** On every run, a submission gets one report. When its id has had none of its own, its terms are
      supported and the last snapshot read is recent, that acknowledges it, and the order enters the
      book as submitted; and otherwise it says the first thing wrong, and the book stays as it was. */
  lemma WhatASubmissionBecomes(cfg: Config, readAt: int, read: BookRead, inputs: seq<Input>, s: Submission, draw: int)
    requires AllWellformed(inputs) && !Run(cfg, Opened(cfg, readAt, read), inputs).failed
    requires cfg.latency > 0 ==> 0 <= draw < cfg.latency
    ensures var v := Run(cfg, Opened(cfg, readAt, read), inputs);
            var v', id := Step(cfg, v, Submit(s, draw)), s.clOrdID;
            var used := LifeOf(v.published, id) != [];
            var market := Recent(cfg, LastSnapshot(Reads(cfg, readAt, read, inputs)), s.at);
            && |v'.published| == |v.published| + 1 && v.published == v'.published[..|v.published|]
            && var r := v'.published[|v.published|];
               if !used && Supported(cfg, s) && market then
                 && Acknowledges(s, r)
                 && id in v'.live && EntersAs(cfg, s, v'.live[id])
                 && v'.live == v.live[id := v'.live[id]] && v'.final == v.final
               else
                 && Refuses(s, r.text, r) && Objects(cfg, s, used, market, r.text)
                 && v'.live == v.live && v'.final == v.final
  {
    var v := Run(cfg, Opened(cfg, readAt, read), inputs);
    EveryRunIsConsistent(cfg, readAt, read, inputs);
    TheMarketIsTheLastSnapshot(cfg, readAt, read, inputs);
    AcceptedMeansReported(cfg, v, s.clOrdID);
    RefusedExactlyWhenUnacceptable(cfg, v, s);
    if Refusal(cfg, v, s) == "" {
      AnAdmissionIsSaid(cfg, v, s, draw);
      AnEntryIsCut(cfg, v, s, draw);
    } else {
      ARefusalObjects(cfg, v, s);
      ARefusalIsSaid(cfg, v, s, Refusal(cfg, v, s));
    }
  }

  // ---------------------------------------------------------------------------
  // Cancels
  // ---------------------------------------------------------------------------

  /** The report that carries a cancel out: the cancel's own id, and the order it names. */
  predicate CarriesOut(c: CancelRequest, o: LiveOrder, r: VenueReport) {
    && Withdraws(o, o.cumQty, "canceled on request", c.at, r)
    && if c.clOrdID == "" then r.clOrdID == c.origClOrdID && r.origClOrdID == ""
       else r.clOrdID == c.clOrdID && r.origClOrdID == c.origClOrdID
  }

  lemma ACancelFinishes(cfg: Config, v: Venue, c: CancelRequest)
    requires Consistent(cfg, v) && c.origClOrdID in v.live && !v.failed
    ensures var id, v' := c.origClOrdID, Cancel(v, c);
            && |v'.published| == |v.published| + 1 && v.published == v'.published[..|v.published|]
            && CarriesOut(c, v.live[id], v'.published[|v.published|])
            && v'.live == v.live - {id} && v'.final == v.final[id := StatusCanceled] && !v'.failed
  {
    assert OrderOk(cfg, v, c.origClOrdID);
  }

  /** On every run, a cancel of an order on the book takes it off, canceled, with what was filled of
      it, and touches nothing else; one of an order that has ended is too late, and is told how it
      ended; and one of an id never accepted is answered as unknown. */
  lemma WhatACancelDoes(cfg: Config, readAt: int, read: BookRead, inputs: seq<Input>, c: CancelRequest)
    requires AllWellformed(inputs) && !Run(cfg, Opened(cfg, readAt, read), inputs).failed
    ensures var v := Run(cfg, Opened(cfg, readAt, read), inputs);
            var v', answer, id := Step(cfg, v, CancelOrder(c)), CancelAnswer(v, c), c.origClOrdID;
            var life := LifeOf(v.published, id);
            if life == [] then
              v' == v && answer == Some(CancelReject(c.clOrdID, id, StatusRejected, false))
            else if life[|life| - 1].ordStatus.Ends() then
              v' == v && answer == Some(CancelReject(c.clOrdID, id, life[|life| - 1].ordStatus, true))
            else
              && answer.None? && id in v.live && v'.live == v.live - {id} && v'.final == v.final[id := StatusCanceled]
              && |v'.published| == |v.published| + 1 && v.published == v'.published[..|v.published|]
              && CarriesOut(c, v.live[id], v'.published[|v.published|])
              && v'.published[|v.published|].cumQty == life[|life| - 1].cumQty
  {
    var v := Run(cfg, Opened(cfg, readAt, read), inputs);
    EveryRunIsConsistent(cfg, readAt, read, inputs);
    assert OrderOk(cfg, v, c.origClOrdID);
    if c.origClOrdID in v.live {
      ACancelFinishes(cfg, v, c);
    }
  }
}
