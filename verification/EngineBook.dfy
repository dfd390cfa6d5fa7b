/** What the matching engine keeps over every run: each accepted order has one acknowledged
    entry, fills that add up, at most one end, and execution ids nobody else has. */
module EngineBook {
  import opened Decimals
  import opened FillModel
  import opened Matching
  import Ids

  // ---------------------------------------------------------------------------
  // An order's own reports
  // ---------------------------------------------------------------------------

  /** The order a report is about: the one a cancel named, or the report's own. */
  function FiledUnder(r: VenueReport): string {
    if r.origClOrdID != "" then r.origClOrdID else r.clOrdID
  }

  predicate Owns(id: string, r: VenueReport) {
    FiledUnder(r) == id && !r.ordStatus.StatusRejected?
  }

  /** Every report an accepted order has produced, in order. */
  function LifeOf(reports: seq<VenueReport>, id: string): seq<VenueReport> {
    if reports == [] then []
    else
      var n := |reports| - 1;
      if Owns(id, reports[n]) then LifeOf(reports[..n], id) + [reports[n]] else LifeOf(reports[..n], id)
  }

  lemma LifeSnoc(reports: seq<VenueReport>, r: VenueReport)
    ensures forall id ::
              LifeOf(reports + [r], id) == if Owns(id, r) then LifeOf(reports, id) + [r] else LifeOf(reports, id)
  {
    assert (reports + [r])[..|reports|] == reports;
  }

  function Notional(life: seq<VenueReport>): real {
    if life == [] then 0.0
    else Notional(life[..|life| - 1]) + Times(life[|life| - 1].lastPx, life[|life| - 1].lastQty)
  }

  ghost predicate IsEntry(cfg: Config, t: Terms, r: VenueReport) {
    && r.ordStatus.StatusNew? && r.cumQty == 0.0 && r.lastQty == 0.0 && r.leavesQty == t.qty && r.avgPx == 0.0
    && r.orderID == Ids.OrderId(cfg.start, t.serial)
    && exists n :: r.execID == Ids.ExecId(cfg.start, Ids.Counted(n))
  }

  /** The venue's own ids: the order's, and the report's own number in its sequence. */
  predicate Identified(cfg: Config, t: Terms, k: nat, r: VenueReport) {
    && r.orderID == Ids.OrderId(cfg.start, t.serial)
    && r.execID == Ids.ExecId(cfg.start, Ids.OfOrder(t.serial, k))
  }

  /** The quantities and the average price move from `p` to `r` as their status says. */
  predicate Moves(t: Terms, p: VenueReport, r: VenueReport, notional: real) {
    && !p.ordStatus.Ends()
    && r.cumQty == p.cumQty + r.lastQty
    && r.avgPx == Average(notional, r.cumQty)
    && match r.ordStatus
       case PartiallyFilled =>
         r.lastQty > 0.0 && r.cumQty < t.qty && r.leavesQty == t.qty - r.cumQty
           && Protected(t.side, t.limitPx, r.lastPx)
       case StatusFilled =>
         r.lastQty > 0.0 && r.cumQty == t.qty && r.leavesQty == 0.0 && Protected(t.side, t.limitPx, r.lastPx)
       case StatusCanceled => r.lastQty == 0.0 && r.cumQty < t.qty && r.leavesQty == 0.0
       case _ => false
  }

  /** `r` may come after `p` as an order's k-th report. */
  predicate Follows(cfg: Config, t: Terms, k: nat, p: VenueReport, r: VenueReport, notional: real) {
    Identified(cfg, t, k, r) && Moves(t, p, r, notional)
  }

  /** One entry, then fills, then perhaps an end. */
  ghost predicate Lived(cfg: Config, t: Terms, life: seq<VenueReport>) {
    var n := |life| - 1;
    && n >= 0 && t.qty > 0.0
    && if n == 0 then IsEntry(cfg, t, life[0])
       else Lived(cfg, t, life[..n]) && Follows(cfg, t, n, life[n - 1], life[n], Notional(life))
  }

  // ---------------------------------------------------------------------------
  // The invariant
  // ---------------------------------------------------------------------------

  /** A live order agrees with its terms and with its reports so far. */
  ghost predicate OnBook(cfg: Config, t: Terms, o: LiveOrder, life: seq<VenueReport>) {
    && Lived(cfg, t, life)
    && var last := life[|life| - 1];
    && !last.ordStatus.Ends()
    && o.orderID == Ids.OrderId(cfg.start, t.serial)
    && o.side == t.side && o.limitPx == t.limitPx && o.qty == t.qty
    && o.next == o.execSeq == |life| - 1
    && o.next < |o.slices|
    && o.cumQty == last.cumQty == Sum(o.slices[..o.next])
    && o.notional == Notional(life)
    && Sum(o.slices) == o.qty
    && forall i :: 0 <= i < |o.slices| ==> o.slices[i] > 0.0
  }

  ghost predicate OffBook(cfg: Config, t: Terms, status: OrdStatus, life: seq<VenueReport>) {
    Lived(cfg, t, life) && life[|life| - 1].ordStatus == status && status.Ends()
  }

  ghost predicate OrderOk(cfg: Config, v: Venue, id: string) {
    if id in v.live then
      && id !in v.final && id in v.terms && id != "" && v.live[id].clOrdID == id
      && OnBook(cfg, v.terms[id], v.live[id], LifeOf(v.published, id))
    else if id in v.final then
      id in v.terms && OffBook(cfg, v.terms[id], v.final[id], LifeOf(v.published, id))
    else
      id !in v.terms && LifeOf(v.published, id) == []
  }

  predicate Serials(v: Venue) {
    && (forall id :: id in v.terms ==> 1 <= v.terms[id].serial <= v.orders)
    && (forall id, id' :: id in v.terms && id' in v.terms && v.terms[id].serial == v.terms[id'].serial ==> id == id')
  }

  ghost predicate Consistent(cfg: Config, v: Venue) {
    (forall id :: OrderOk(cfg, v, id)) && Serials(v)
  }

  // ---------------------------------------------------------------------------
  // Each step keeps it
  // ---------------------------------------------------------------------------

  predicate SameAt(v: Venue, v': Venue, k: string) {
    && (k in v'.live <==> k in v.live) && (k in v.live ==> v'.live[k] == v.live[k])
    && (k in v'.final <==> k in v.final) && (k in v.final ==> v'.final[k] == v.final[k])
    && (k in v'.terms <==> k in v.terms) && (k in v.terms ==> v'.terms[k] == v.terms[k])
  }

  lemma OrderOkCarries(cfg: Config, v: Venue, v': Venue, k: string)
    requires OrderOk(cfg, v, k) && SameAt(v, v', k) && LifeOf(v'.published, k) == LifeOf(v.published, k)
    ensures OrderOk(cfg, v', k)
  {
  }

  /** A step that touches the book only at `id` leaves every other order as it was. */
  lemma OthersUntouched(cfg: Config, v: Venue, v': Venue, id: string, r: VenueReport)
    requires forall k :: k != id ==> SameAt(v, v', k)
    requires v'.published == v.published + [r] && (Owns(id, r) || r.ordStatus.StatusRejected?)
    ensures forall k :: k != id && OrderOk(cfg, v, k) ==> OrderOk(cfg, v', k)
  {
    LifeSnoc(v.published, r);
    forall k | k != id && OrderOk(cfg, v, k)
      ensures OrderOk(cfg, v', k)
    {
      OrderOkCarries(cfg, v, v', k);
    }
  }

  /** A step that publishes one report of one order keeps the whole book in order when it
      keeps that order. */
  lemma OneOrderChanged(cfg: Config, v: Venue, v': Venue, id: string, r: VenueReport)
    requires Consistent(cfg, v) && OrderOk(cfg, v', id) && Serials(v')
    requires forall k :: k != id ==> SameAt(v, v', k)
    requires v'.published == v.published + [r] && (Owns(id, r) || r.ordStatus.StatusRejected?)
    ensures Consistent(cfg, v')
  {
    OthersUntouched(cfg, v, v', id, r);
    forall k
      ensures OrderOk(cfg, v', k)
    {
      assert OrderOk(cfg, v, k);
    }
  }

  lemma NewLife(cfg: Config, t: Terms, r: VenueReport)
    requires t.qty > 0.0 && IsEntry(cfg, t, r)
    ensures Lived(cfg, t, [r]) && Notional([r]) == 0.0
  {
    assert [r][..0] == [];
  }

  lemma LongerLife(cfg: Config, t: Terms, life: seq<VenueReport>, r: VenueReport)
    requires Lived(cfg, t, life)
    requires Follows(cfg, t, |life|, life[|life| - 1], r, Notional(life) + Times(r.lastPx, r.lastQty))
    ensures Lived(cfg, t, life + [r])
    ensures Notional(life + [r]) == Notional(life) + Times(r.lastPx, r.lastQty)
  {
    assert (life + [r])[..|life|] == life;
  }

  /** The terms the venue trades on: its product, a limit order of a time in force it knows, a
      positive whole quantity at a positive price. */
  predicate Supported(cfg: Config, s: Submission) {
    && s.symbol == cfg.product && s.limitOrder && !s.tif.OtherTif?
    && s.qty > 0.0 && Whole(s.qty) && s.limitPx > 0.0
  }

  /** What the venue will take: an unused id, such terms, and a market to price them on. */
  predicate Acceptable(cfg: Config, v: Venue, s: Submission) {
    s.clOrdID !in v.live && s.clOrdID !in v.final && Supported(cfg, s) && BookFresh(cfg, v.book, s.at)
  }

  lemma RefusedExactlyWhenUnacceptable(cfg: Config, v: Venue, s: Submission)
    ensures Refusal(cfg, v, s) == "" <==> Acceptable(cfg, v, s)
  {
  }

  lemma AcceptKeeps(cfg: Config, v: Venue, s: Submission, draw: int)
    requires Consistent(cfg, v) && s.clOrdID != ""
    ensures Consistent(cfg, Accept(cfg, v, s, draw))
  {
    RefusedExactlyWhenUnacceptable(cfg, v, s);
    if Acceptable(cfg, v, s) {
      AdmitKeeps(cfg, v, s, draw);
    } else {
      RefuseKeeps(cfg, v, s, Refusal(cfg, v, s));
    }
  }

  lemma RefuseKeeps(cfg: Config, v: Venue, s: Submission, reason: string)
    requires Consistent(cfg, v)
    ensures Consistent(cfg, Refuse(cfg, v, s, reason))
  {
    var v' := Refuse(cfg, v, s, reason);
    var r := v'.published[|v.published|];
    LifeSnoc(v.published, r);
    OthersUntouched(cfg, v, v', s.clOrdID, r);
    assert OrderOk(cfg, v, s.clOrdID);
    OrderOkCarries(cfg, v, v', s.clOrdID);
  }

  lemma EnteredOnBook(cfg: Config, v: Venue, s: Submission, draw: int, r: VenueReport)
    requires s.qty > 0.0 && Whole(s.qty)
    requires var o := Enter(cfg, v, s, draw);
             r == VenueReport(o.orderID, Ids.ExecId(cfg.start, Ids.Counted(v.execs + 1)), s.clOrdID, "",
                              StatusNew, 0.0, 0.0, 0.0, s.qty, 0.0, s.qty, "", s.at)
    ensures OnBook(cfg, Terms(v.orders + 1, s.side, s.limitPx, s.qty), Enter(cfg, v, s, draw), [r])
  {
    NewLife(cfg, Terms(v.orders + 1, s.side, s.limitPx, s.qty), r);
    SlicesSumToTheOrder(s.qty, cfg.partialThreshold, cfg.partialSlices);
    assert Enter(cfg, v, s, draw).slices[..0] == [];
  }

  lemma AdmitAtItsId(cfg: Config, v: Venue, s: Submission, draw: int)
    requires OrderOk(cfg, v, s.clOrdID) && s.clOrdID != "" && Acceptable(cfg, v, s)
    ensures OrderOk(cfg, Admit(cfg, v, s, draw), s.clOrdID)
  {
    var r := AdmitIsOneReport(cfg, v, s, draw);
    EnteredOnBook(cfg, v, s, draw, r);
    FirstOfItsLife(v.published, r, s.clOrdID);
  }

  lemma FirstOfItsLife(reports: seq<VenueReport>, r: VenueReport, id: string)
    requires LifeOf(reports, id) == [] && Owns(id, r)
    ensures LifeOf(reports + [r], id) == [r]
  {
    LifeSnoc(reports, r);
  }

  /** An admission publishes one report, the order's entry, and touches no other order. */
  lemma AdmitIsOneReport(cfg: Config, v: Venue, s: Submission, draw: int) returns (r: VenueReport)
    ensures var o, v' := Enter(cfg, v, s, draw), Admit(cfg, v, s, draw);
            && r == VenueReport(o.orderID, Ids.ExecId(cfg.start, Ids.Counted(v.execs + 1)), s.clOrdID, "",
                                StatusNew, 0.0, 0.0, 0.0, s.qty, 0.0, s.qty, "", s.at)
            && v'.published == v.published + [r] && Owns(s.clOrdID, r)
            && v'.live == v.live[s.clOrdID := o] && v'.final == v.final
            && v'.terms == v.terms[s.clOrdID := Terms(v.orders + 1, s.side, s.limitPx, s.qty)]
            && forall k :: k != s.clOrdID ==> SameAt(v, v', k)
  {
    r := Admit(cfg, v, s, draw).published[|v.published|];
  }

  lemma AdmitKeeps(cfg: Config, v: Venue, s: Submission, draw: int)
    requires Consistent(cfg, v) && s.clOrdID != "" && Acceptable(cfg, v, s)
    ensures Consistent(cfg, Admit(cfg, v, s, draw))
  {
    var v' := Admit(cfg, v, s, draw);
    assert OrderOk(cfg, v, s.clOrdID);
    AdmitAtItsId(cfg, v, s, draw);
    OneOrderChanged(cfg, v, v', s.clOrdID, v'.published[|v.published|]);
  }

  lemma DeferKeeps(cfg: Config, v: Venue, id: string, readyAt: int)
    requires Consistent(cfg, v) && id in v.live
    ensures Consistent(cfg, Defer(v, id, readyAt))
  {
    var v' := Defer(v, id, readyAt);
    forall k
      ensures OrderOk(cfg, v', k)
    {
      assert OrderOk(cfg, v, k);
    }
  }

  lemma CancelFollows(t: Terms, o: LiveOrder, last: VenueReport, r: VenueReport)
    requires !last.ordStatus.Ends() && o.qty == t.qty && o.next < |o.slices| && Sum(o.slices) == o.qty
    requires o.cumQty == last.cumQty == Sum(o.slices[..o.next])
    requires forall i :: 0 <= i < |o.slices| ==> o.slices[i] > 0.0
    requires r.ordStatus.StatusCanceled? && r.lastQty == 0.0 && r.cumQty == o.cumQty && r.leavesQty == 0.0
             && r.avgPx == o.AvgPx()
    ensures Moves(t, last, r, o.notional)
  {
    SumPrefix(o.slices, o.next);
  }

  lemma FinishAtItsId(cfg: Config, v: Venue, id: string, at: int, cancelID: string, reason: string)
    requires OrderOk(cfg, v, id) && id in v.live
    ensures OrderOk(cfg, Finish(v, id, at, cancelID, reason), id)
  {
    var v' := Finish(v, id, at, cancelID, reason);
    var o, t, life := v.live[id], v.terms[id], LifeOf(v.published, id);
    var r := v'.published[|v.published|];
    LifeSnoc(v.published, r);
    CancelFollows(t, o, life[|life| - 1], r);
    assert Identified(cfg, t, |life|, r);
    assert Times(r.lastPx, r.lastQty) == 0.0;
    LongerLife(cfg, t, life, r);
  }

  lemma FinishKeeps(cfg: Config, v: Venue, id: string, at: int, cancelID: string, reason: string)
    requires Consistent(cfg, v) && id in v.live
    ensures Consistent(cfg, Finish(v, id, at, cancelID, reason))
  {
    var v' := Finish(v, id, at, cancelID, reason);
    assert OrderOk(cfg, v, id);
    FinishAtItsId(cfg, v, id, at, cancelID, reason);
    OneOrderChanged(cfg, v, v', id, v'.published[|v.published|]);
  }

  lemma ReportIdentified(cfg: Config, t: Terms, o: LiveOrder, k: nat, px: real, qty: real, now: int)
    requires o.orderID == Ids.OrderId(cfg.start, t.serial) && o.execSeq == k
    ensures Identified(cfg, t, k, FillReport(o, px, qty, now))
  {
  }

  lemma FillMoves(t: Terms, o: LiveOrder, last: VenueReport, px: real, now: int)
    requires !last.ordStatus.Ends() && Protected(t.side, t.limitPx, px)
    requires o.qty == t.qty && o.next < |o.slices| && Sum(o.slices) == o.qty
    requires o.cumQty == last.cumQty == Sum(o.slices[..o.next])
    requires forall i :: 0 <= i < |o.slices| ==> o.slices[i] > 0.0
    ensures var o' := AfterSlice(o, px);
            var r := FillReport(o', px, o.slices[o.next], now);
            && Moves(t, last, r, o.notional + Times(px, o.slices[o.next]))
            && o'.cumQty == Sum(o.slices[..o.next + 1])
            && (!o'.Done() ==> o.next + 1 < |o.slices|)
  {
    NextPart(o.slices, o.next);
    assert o.next + 1 == |o.slices| ==> o.slices[..o.next + 1] == o.slices;
  }

  /** A printed slice's report comes next in its order's life, which goes on with what is
      left or ends filled. */
  lemma LifeAfterSlice(cfg: Config, t: Terms, o: LiveOrder, life: seq<VenueReport>, px: real, now: int)
    requires OnBook(cfg, t, o, life) && Protected(t.side, t.limitPx, px)
    ensures var o' := AfterSlice(o, px);
            var r := FillReport(o', px, o.slices[o.next], now);
            && Lived(cfg, t, life + [r])
            && Notional(life + [r]) == o'.notional
            && o'.cumQty == Sum(o.slices[..o.next + 1])
            && (!o'.Done() ==> o.next + 1 < |o.slices|)
  {
    var o' := AfterSlice(o, px);
    var r := FillReport(o', px, o.slices[o.next], now);
    FillMoves(t, o, life[|life| - 1], px, now);
    ReportIdentified(cfg, t, o', |life|, px, o.slices[o.next], now);
    LongerLife(cfg, t, life, r);
  }

  lemma StillOnBook(cfg: Config, t: Terms, o: LiveOrder, life: seq<VenueReport>, px: real, now: int)
    requires OnBook(cfg, t, o, life) && Protected(t.side, t.limitPx, px) && !AfterSlice(o, px).Done()
    ensures OnBook(cfg, t, AfterSlice(o, px), life + [FillReport(AfterSlice(o, px), px, o.slices[o.next], now)])
  {
    LifeAfterSlice(cfg, t, o, life, px, now);
    var r := FillReport(AfterSlice(o, px), px, o.slices[o.next], now);
    assert (life + [r])[|life|] == r;
  }

  lemma FilledOffBook(cfg: Config, t: Terms, o: LiveOrder, life: seq<VenueReport>, px: real, now: int)
    requires OnBook(cfg, t, o, life) && Protected(t.side, t.limitPx, px) && AfterSlice(o, px).Done()
    ensures OffBook(cfg, t, StatusFilled, life + [FillReport(AfterSlice(o, px), px, o.slices[o.next], now)])
  {
    LifeAfterSlice(cfg, t, o, life, px, now);
    var r := FillReport(AfterSlice(o, px), px, o.slices[o.next], now);
    assert (life + [r])[|life|] == r;
  }

  lemma PrintAtItsId(cfg: Config, v: Venue, id: string, now: int, recorded: bool)
    requires OrderOk(cfg, v, id) && id in v.live && v.book.Some? && v.live[id].next < |v.live[id].slices|
    ensures OrderOk(cfg, PrintSlice(cfg, v, id, now, recorded), id)
  {
    var v' := PrintSlice(cfg, v, id, now, recorded);
    var o, t, life := v.live[id], v.terms[id], LifeOf(v.published, id);
    var px := ExecPx(o.side, o.limitPx, v.book.value, cfg.slippageBps);
    var r := FillReport(AfterSlice(o, px), px, o.slices[o.next], now);
    LifeSnoc(v.published, r);
    PrintsRespectTheLimit(o.side, o.limitPx, v.book.value, cfg.slippageBps);
    assert LifeOf(v'.published, id) == life + [r];
    if AfterSlice(o, px).Done() {
      FilledOffBook(cfg, t, o, life, px, now);
    } else {
      StillOnBook(cfg, t, o, life, px, now);
    }
  }

  lemma PrintSliceKeeps(cfg: Config, v: Venue, id: string, now: int, recorded: bool)
    requires Consistent(cfg, v) && id in v.live && v.book.Some? && v.live[id].next < |v.live[id].slices|
    ensures Consistent(cfg, PrintSlice(cfg, v, id, now, recorded))
  {
    assert OrderOk(cfg, v, id);
    PrintAtItsId(cfg, v, id, now, recorded);
    var r := PrintIsOneReport(cfg, v, id, now, recorded);
    OneOrderChanged(cfg, v, PrintSlice(cfg, v, id, now, recorded), id, r);
  }

  /** A print publishes one report of its own order, and touches no other. */
  lemma PrintIsOneReport(cfg: Config, v: Venue, id: string, now: int, recorded: bool) returns (r: VenueReport)
    requires id in v.live && v.live[id].clOrdID == id && v.book.Some? && v.live[id].next < |v.live[id].slices|
    ensures var v' := PrintSlice(cfg, v, id, now, recorded);
            && v'.published == v.published + [r] && Owns(id, r)
            && v'.terms == v.terms && v'.orders == v.orders
            && forall k :: k != id ==> SameAt(v, v', k)
  {
    r := PrintSlice(cfg, v, id, now, recorded).published[|v.published|];
  }

  lemma SettleKeeps(cfg: Config, v: Venue, id: string, readyAt: int, now: int)
    requires Consistent(cfg, v) && id in v.live
    ensures Consistent(cfg, Settle(v, id, readyAt, now))
  {
    DeferKeeps(cfg, v, id, readyAt);
    if v.live[id].tif.Ioc? {
      FinishKeeps(cfg, Defer(v, id, readyAt), id, now, "", CANCEL_IOC_REMAINDER);
    }
  }

  /** The four things an evaluation can be. */
  lemma EvaluationIs(cfg: Config, v: Venue, id: string, now: int, draw: int, recorded: bool)
    requires id in v.live && v.live[id].next < |v.live[id].slices|
    ensures var o, e := v.live[id], Evaluate(cfg, v, id, now, draw, recorded);
            if !BookFresh(cfg, v.book, now) then
              e == if o.tif.Ioc? then Finish(v, id, now, "", CANCEL_NO_MARKET) else Defer(v, id, v.nextBookRead)
            else if !Marketable(o.side, o.limitPx, v.book.value) then e == Settle(v, id, v.nextBookRead, now)
            else
              var v' := PrintSlice(cfg, v, id, now, recorded);
              e == if v'.failed || id !in v'.live then v' else Settle(v', id, now + Jitter(cfg.latency, draw), now)
  {
  }

  lemma EvaluateKeeps(cfg: Config, v: Venue, id: string, now: int, draw: int, recorded: bool)
    requires Consistent(cfg, v) && id in v.live && v.live[id].next < |v.live[id].slices|
    ensures Consistent(cfg, Evaluate(cfg, v, id, now, draw, recorded))
  {
    var o := v.live[id];
    if !BookFresh(cfg, v.book, now) {
      if o.tif.Ioc? {
        FinishKeeps(cfg, v, id, now, "", CANCEL_NO_MARKET);
      } else {
        DeferKeeps(cfg, v, id, v.nextBookRead);
      }
    } else if Marketable(o.side, o.limitPx, v.book.value) {
      PrintSliceKeeps(cfg, v, id, now, recorded);
      var v' := PrintSlice(cfg, v, id, now, recorded);
      if id in v'.live {
        SettleKeeps(cfg, v', id, now + Jitter(cfg.latency, draw), now);
      }
    } else {
      SettleKeeps(cfg, v, id, v.nextBookRead, now);
    }
  }

  lemma {:induction false} EvaluateAllKeeps(cfg: Config, v: Venue, ids: seq<string>, now: int, chance: Chance)
    requires Consistent(cfg, v)
    ensures Consistent(cfg, EvaluateAll(cfg, v, ids, now, chance))
  {
    if ids != [] {
      var n := |ids| - 1;
      EvaluateAllKeeps(cfg, v, ids[..n], now, chance);
      var v' := EvaluateAll(cfg, v, ids[..n], now, chance);
      if !v'.failed && Due(v', ids[n], now) {
        EvaluateKeeps(cfg, v', ids[n], now, chance.Draw(ids[n]), chance.Records(ids[n]));
      }
    }
  }

  predicate Wellformed(input: Input) {
    input.Submit? ==> input.s.clOrdID != ""
  }

  predicate AllWellformed(inputs: seq<Input>) {
    forall i :: 0 <= i < |inputs| ==> Wellformed(inputs[i])
  }

  lemma RefreshKeeps(cfg: Config, v: Venue, now: int, readAt: int, read: BookRead)
    requires Consistent(cfg, v)
    ensures Consistent(cfg, Refresh(cfg, v, now, readAt, read))
  {
    var v' := Refresh(cfg, v, now, readAt, read);
    forall id
      ensures OrderOk(cfg, v', id)
    {
      assert OrderOk(cfg, v, id);
    }
  }

  lemma StepKeeps(cfg: Config, v: Venue, input: Input)
    requires Consistent(cfg, v) && Wellformed(input)
    ensures Consistent(cfg, Step(cfg, v, input))
  {
    if !v.failed {
      match input
      case Submit(s, draw) => AcceptKeeps(cfg, v, s, draw);
      case CancelOrder(c) =>
        if c.origClOrdID in v.live {
          FinishKeeps(cfg, v, c.origClOrdID, c.at, c.clOrdID, CANCEL_REQUESTED);
        }
      case Tick(now, readAt, read, ids, chance) =>
        RefreshKeeps(cfg, v, now, readAt, read);
        EvaluateAllKeeps(cfg, Refresh(cfg, v, now, readAt, read), ids, now, chance);
    }
  }

  /** Over every run, live and finished ids are disjoint and together are exactly the
      accepted ids, and every one of them has lived as Lived says. */
  lemma {:induction false} EveryRunIsConsistent(cfg: Config, readAt: int, read: BookRead, inputs: seq<Input>)
    requires AllWellformed(inputs)
    ensures Consistent(cfg, Run(cfg, Opened(cfg, readAt, read), inputs))
  {
    if inputs != [] {
      var n := |inputs| - 1;
      EveryRunIsConsistent(cfg, readAt, read, inputs[..n]);
      StepKeeps(cfg, Run(cfg, Opened(cfg, readAt, read), inputs[..n]), inputs[n]);
    }
  }
}
