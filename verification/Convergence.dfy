/** The venue and the tracker put together: every run of the engine, every delivery of what
    it sent, and the client ends where the venue did. */
module Convergence {
  import opened Options
  import O = Orders
  import T = Tracking
  import opened FillModel
  import opened Matching
  import opened EngineBook
  import opened EngineResults
  import opened Delivery
  import Ids

  // ---------------------------------------------------------------------------
  // The wire
  // ---------------------------------------------------------------------------

  /** OrdStatus onto the five states (internal/fix/initiator_message.go, stateFromFIX). */
  function StateFromFix(s: OrdStatus): O.ExecState {
    match s
    case StatusNew => O.New
    case PartiallyFilled => O.Partial
    case StatusFilled => O.Filled
    case StatusCanceled => O.Canceled
    case StatusRejected => O.Rejected
  }

  /** A report as the initiator reads it, filed under the order it is about. Quantities and
      average prices cross exactly: they have at most sixteen decimals and the wire carries
      up to thirty-two. */
  function Translate(r: VenueReport): O.ExecReport {
    O.ExecReport(FiledUnder(r), r.orderID, r.execID, StateFromFix(r.ordStatus), r.cumQty, r.leavesQty, r.avgPx, r.text,
                 r.at, None)
  }

  /** Every report filed under `id`, its own and any refusal. */
  function Filed(reports: seq<VenueReport>, id: string): seq<VenueReport> {
    if reports == [] then []
    else
      var n := |reports| - 1;
      if FiledUnder(reports[n]) == id then Filed(reports[..n], id) + [reports[n]] else Filed(reports[..n], id)
  }

  function Messages(reports: seq<VenueReport>): seq<O.ExecReport> {
    seq(|reports|, i requires 0 <= i < |reports| => Translate(reports[i]))
  }

  // ---------------------------------------------------------------------------
  // A life is a ladder
  // ---------------------------------------------------------------------------

  /** What the i-th report of a life says of itself. */
  lemma AReportInALife(cfg: Config, t: Terms, life: seq<VenueReport>, i: nat)
    requires Lived(cfg, t, life) && i < |life|
    ensures life[i].orderID == Ids.OrderId(cfg.start, t.serial)
    ensures i == 0 ==> IsEntry(cfg, t, life[0])
    ensures i > 0 ==> Identified(cfg, t, i, life[i]) && Moves(t, life[i - 1], life[i], Notional(life[..i + 1]))
    ensures 0.0 <= life[i].cumQty <= t.qty
    ensures life[i].ordStatus.Ends() ==> life[i].leavesQty == 0.0
  {
    APrefixLived(cfg, t, life, i);
    ALifeAddsUp(cfg, t, life[..i + 1]);
    assert life[..i + 1][i] == life[i];
    if i > 0 {
      assert life[..i + 1][i - 1] == life[i - 1];
      assert Moves(t, life[i - 1], life[i], Notional(life[..i + 1]));
    } else {
      assert life[..1] == [life[0]];
    }
  }

  lemma {:induction false} LaterReportsClimb(cfg: Config, t: Terms, life: seq<VenueReport>, i: nat, j: nat)
    requires Lived(cfg, t, life) && i < j < |life|
    ensures !life[i].ordStatus.Ends() && life[i].cumQty <= life[j].cumQty
    ensures life[j].lastQty > 0.0 ==> life[i].cumQty < life[j].cumQty
    ensures life[j].lastQty >= 0.0
    decreases j
  {
    AReportInALife(cfg, t, life, j);
    if i < j - 1 {
      LaterReportsClimb(cfg, t, life, i, j - 1);
    }
  }

  lemma LaterReportsDiffer(cfg: Config, t: Terms, life: seq<VenueReport>, i: nat, j: nat)
    requires Lived(cfg, t, life) && i < j < |life|
    ensures life[i].execID != life[j].execID
  {
    AReportInALife(cfg, t, life, i);
    AReportInALife(cfg, t, life, j);
    if i == 0 {
      var n :| life[0].execID == Ids.ExecId(cfg.start, Ids.Counted(n));
      if life[0].execID == life[j].execID {
        Ids.ExecIdInjective(cfg.start, Ids.Counted(n), cfg.start, Ids.OfOrder(t.serial, j));
      }
    } else if life[i].execID == life[j].execID {
      Ids.ExecIdInjective(cfg.start, Ids.OfOrder(t.serial, i), cfg.start, Ids.OfOrder(t.serial, j));
    }
  }

  lemma OrderIdIsNotEmpty(start: int, serial: nat)
    ensures Ids.OrderId(start, serial) != ""
  {
  }

  /** Everything an accepted order reports can be sequenced by its CumQty. */
  lemma ALifeIsALadder(cfg: Config, t: Terms, id: string, life: seq<VenueReport>)
    requires Lived(cfg, t, life) && forall i :: 0 <= i < |life| ==> FiledUnder(life[i]) == id
    ensures Ladder(id, t.qty, Messages(life))
  {
    var ms := Messages(life);
    OrderIdIsNotEmpty(cfg.start, t.serial);
    forall i | 0 <= i < |ms|
      ensures Rung(id, t.qty, ms, i)
    {
      AReportInALife(cfg, t, life, i);
      AReportInALife(cfg, t, life, 0);
    }
    forall i, j | 0 <= i < j < |ms|
      ensures Climbs(ms[i], ms[j])
    {
      LaterReportsClimb(cfg, t, life, i, j);
      LaterReportsDiffer(cfg, t, life, i, j);
      AReportInALife(cfg, t, life, j);
    }
  }

  // ---------------------------------------------------------------------------
  // An id submitted once
  // ---------------------------------------------------------------------------

  function Submissions(inputs: seq<Input>, id: string): seq<Submission> {
    if inputs == [] then []
    else
      var n := |inputs| - 1;
      Submissions(inputs[..n], id) +
      if inputs[n].Submit? && inputs[n].s.clOrdID == id then [inputs[n].s] else []
  }

  /** The one report of a refused order. */
  predicate IsRefusal(cfg: Config, r: VenueReport, serial: nat, n: nat) {
    r.ordStatus.StatusRejected? && r.cumQty == 0.0 && r.leavesQty == 0.0 && r.avgPx == 0.0 &&
    r.orderID == Ids.OrderId(cfg.start, serial) && r.execID == Ids.ExecId(cfg.start, Ids.Counted(n))
  }

  /** An id submitted once is either accepted, and then nothing filed under it is a refusal,
      or not, and then nothing but its refusal is. */
  ghost predicate Settled(cfg: Config, v: Venue, id: string, subs: seq<Submission>) {
    var filed := Filed(v.published, id);
    if id in v.terms then
      filed == LifeOf(v.published, id) && |subs| >= 1 && v.terms[id].qty == subs[0].qty
    else
      filed == [] || (|subs| >= 1 && |filed| == 1 && exists serial, n :: IsRefusal(cfg, filed[0], serial, n))
  }

  lemma FiledSnoc(reports: seq<VenueReport>, r: VenueReport)
    ensures forall id ::
              Filed(reports + [r], id) == if FiledUnder(r) == id then Filed(reports, id) + [r] else Filed(reports, id)
  {
    assert (reports + [r])[..|reports|] == reports;
  }

  /** A report that turned an order down. */
  predicate TurnsDown(id: string, r: VenueReport) {
    FiledUnder(r) == id && r.ordStatus.StatusRejected? && r.cumQty == 0.0
  }

  /** How many of an id's submissions were turned down. */
  function Refusals(reports: seq<VenueReport>, id: string): nat {
    if reports == [] then 0
    else Refusals(reports[..|reports| - 1], id) + if TurnsDown(id, reports[|reports| - 1]) then 1 else 0
  }

  lemma RefusalsSnoc(reports: seq<VenueReport>, r: VenueReport)
    ensures forall id :: Refusals(reports + [r], id) == Refusals(reports, id) + if TurnsDown(id, r) then 1 else 0
  {
    assert (reports + [r])[..|reports|] == reports;
  }

  /** A step that only reports on orders already accepted leaves every id settled, and turns
      nothing down. */
  ghost predicate OnlyOwn(v: Venue, v': Venue) {
    v'.terms == v.terms && forall id :: OwnAt(v, v', id)
  }

  predicate OwnAt(v: Venue, v': Venue, id: string) {
    && Refusals(v'.published, id) == Refusals(v.published, id)
    && (id !in v.terms ==> Filed(v'.published, id) == Filed(v.published, id))
    && (Filed(v.published, id) == LifeOf(v.published, id) ==> Filed(v'.published, id) == LifeOf(v'.published, id))
  }

  lemma OnlyOwnIsTransitive(u: Venue, v: Venue, w: Venue)
    requires OnlyOwn(u, v) && OnlyOwn(v, w)
    ensures OnlyOwn(u, w)
  {
    forall id
      ensures OwnAt(u, w, id)
    {
      assert OwnAt(u, v, id) && OwnAt(v, w, id);
    }
  }

  lemma OwnReport(v: Venue, v': Venue, id: string, r: VenueReport)
    requires v'.terms == v.terms && v'.published == v.published + [r] && id in v.terms && Owns(id, r)
    ensures OnlyOwn(v, v')
  {
    FiledSnoc(v.published, r);
    LifeSnoc(v.published, r);
    RefusalsSnoc(v.published, r);
  }

  lemma FinishIsOwn(cfg: Config, v: Venue, id: string, at: int, cancelID: string, reason: string)
    requires Consistent(cfg, v) && id in v.live
    ensures OnlyOwn(v, Finish(v, id, at, cancelID, reason))
  {
    assert OrderOk(cfg, v, id);
    var v' := Finish(v, id, at, cancelID, reason);
    OwnReport(v, v', id, v'.published[|v.published|]);
  }

  lemma PrintIsOwn(cfg: Config, v: Venue, id: string, now: int, recorded: bool)
    requires Consistent(cfg, v) && id in v.live && v.book.Some? && v.live[id].next < |v.live[id].slices|
    ensures OnlyOwn(v, PrintSlice(cfg, v, id, now, recorded))
  {
    assert OrderOk(cfg, v, id);
    var v' := PrintSlice(cfg, v, id, now, recorded);
    OwnReport(v, v', id, v'.published[|v.published|]);
  }

  lemma SettleIsOwn(cfg: Config, v: Venue, id: string, readyAt: int, now: int)
    requires Consistent(cfg, v) && id in v.live
    ensures OnlyOwn(v, Settle(v, id, readyAt, now))
  {
    if v.live[id].tif.Ioc? {
      DeferKeeps(cfg, v, id, readyAt);
      FinishIsOwn(cfg, Defer(v, id, readyAt), id, now, "", CANCEL_IOC_REMAINDER);
      OnlyOwnIsTransitive(v, Defer(v, id, readyAt), Settle(v, id, readyAt, now));
    }
  }

  lemma StaleIsOwn(cfg: Config, v: Venue, id: string, now: int)
    requires Consistent(cfg, v) && id in v.live
    ensures OnlyOwn(v, Finish(v, id, now, "", CANCEL_NO_MARKET)) && OnlyOwn(v, Defer(v, id, v.nextBookRead))
  {
    FinishIsOwn(cfg, v, id, now, "", CANCEL_NO_MARKET);
  }

  lemma FillIsOwn(cfg: Config, v: Venue, id: string, now: int, readyAt: int, recorded: bool)
    requires Consistent(cfg, v) && id in v.live && v.book.Some? && v.live[id].next < |v.live[id].slices|
    ensures var v' := PrintSlice(cfg, v, id, now, recorded);
            OnlyOwn(v, v') && (id in v'.live ==> OnlyOwn(v, Settle(v', id, readyAt, now)))
  {
    var v' := PrintSlice(cfg, v, id, now, recorded);
    PrintIsOwn(cfg, v, id, now, recorded);
    if id in v'.live {
      PrintSliceKeeps(cfg, v, id, now, recorded);
      SettleIsOwn(cfg, v', id, readyAt, now);
      OnlyOwnIsTransitive(v, v', Settle(v', id, readyAt, now));
    }
  }

  lemma EvaluateIsOwn(cfg: Config, v: Venue, id: string, now: int, draw: int, recorded: bool)
    requires Consistent(cfg, v) && id in v.live && v.live[id].next < |v.live[id].slices|
    ensures OnlyOwn(v, Evaluate(cfg, v, id, now, draw, recorded))
  {
    EvaluationIs(cfg, v, id, now, draw, recorded);
    if !BookFresh(cfg, v.book, now) {
      StaleIsOwn(cfg, v, id, now);
    } else if !Marketable(v.live[id].side, v.live[id].limitPx, v.book.value) {
      SettleIsOwn(cfg, v, id, v.nextBookRead, now);
    } else {
      FillIsOwn(cfg, v, id, now, now + Jitter(cfg.latency, draw), recorded);
    }
  }

  lemma {:induction false} EvaluateAllIsOwn(cfg: Config, v: Venue, ids: seq<string>, now: int, chance: Chance)
    requires Consistent(cfg, v)
    ensures OnlyOwn(v, EvaluateAll(cfg, v, ids, now, chance))
  {
    if ids != [] {
      var n := |ids| - 1;
      EvaluateAllIsOwn(cfg, v, ids[..n], now, chance);
      EvaluateAllKeeps(cfg, v, ids[..n], now, chance);
      var v' := EvaluateAll(cfg, v, ids[..n], now, chance);
      if !v'.failed && Due(v', ids[n], now) {
        EvaluateIsOwn(cfg, v', ids[n], now, chance.Draw(ids[n]), chance.Records(ids[n]));
        OnlyOwnIsTransitive(v, v', Evaluate(cfg, v', ids[n], now, chance.Draw(ids[n]), chance.Records(ids[n])));
      }
    }
  }

  lemma OwnKeepsSettled(cfg: Config, v: Venue, v': Venue, id: string, subs: seq<Submission>)
    requires Settled(cfg, v, id, subs) && OnlyOwn(v, v')
    ensures Settled(cfg, v', id, subs)
  {
    assert OwnAt(v, v', id);
  }

  lemma AcceptSettles(cfg: Config, v: Venue, s: Submission, draw: int, id: string, subs: seq<Submission>)
    requires Consistent(cfg, v) && Settled(cfg, v, id, subs) && (s.clOrdID == id ==> subs == [])
    ensures Settled(cfg, Accept(cfg, v, s, draw), id, if s.clOrdID == id then subs + [s] else subs)
  {
    if s.clOrdID != id {
      AnotherSettles(cfg, v, Refuse(cfg, v, s, Refusal(cfg, v, s)), s.clOrdID, id, subs);
      AnotherSettles(cfg, v, Admit(cfg, v, s, draw), s.clOrdID, id, subs);
    } else if Refusal(cfg, v, s) == "" {
      AdmittingSettles(cfg, v, s, draw, subs);
    } else {
      RefusingSettles(cfg, v, s, Refusal(cfg, v, s), subs);
    }
  }

  lemma AnotherSettles(cfg: Config, v: Venue, v': Venue, other: string, id: string, subs: seq<Submission>)
    requires Settled(cfg, v, id, subs) && other != id
    requires |v'.published| == |v.published| + 1 && v'.published[..|v.published|] == v.published
    requires FiledUnder(v'.published[|v.published|]) == other
    requires (id in v'.terms <==> id in v.terms) && (id in v.terms ==> v'.terms[id] == v.terms[id])
    ensures Settled(cfg, v', id, subs)
  {
    var r := v'.published[|v.published|];
    assert v'.published == v.published + [r];
    FiledSnoc(v.published, r);
    LifeSnoc(v.published, r);
  }

  lemma AdmittingSettles(cfg: Config, v: Venue, s: Submission, draw: int, subs: seq<Submission>)
    requires Consistent(cfg, v) && Settled(cfg, v, s.clOrdID, subs) && subs == []
    ensures Settled(cfg, Admit(cfg, v, s, draw), s.clOrdID, subs + [s])
  {
    var v' := Admit(cfg, v, s, draw);
    var r := v'.published[|v.published|];
    FiledSnoc(v.published, r);
    LifeSnoc(v.published, r);
    assert OrderOk(cfg, v, s.clOrdID);
    assert LifeOf(v'.published, s.clOrdID) == [r];
  }

  /** Refusing an id never seen before files its one report. */
  lemma RefusalFiled(cfg: Config, v: Venue, v': Venue, id: string, r: VenueReport)
    requires Settled(cfg, v, id, []) && v'.terms == v.terms && v'.published == v.published + [r] && FiledUnder(r) == id
    ensures id !in v'.terms && Filed(v'.published, id) == [r]
  {
    FiledSnoc(v.published, r);
  }

  lemma TheRefusal(cfg: Config, v: Venue, s: Submission, reason: string)
    ensures var v' := Refuse(cfg, v, s, reason);
            && |v'.published| == |v.published| + 1 && v'.published == v.published + [v'.published[|v.published|]]
            && v'.terms == v.terms
            && FiledUnder(v'.published[|v.published|]) == s.clOrdID
            && IsRefusal(cfg, v'.published[|v.published|], v.orders + 1, v.execs + 1)
  {
  }

  lemma RefusingSettles(cfg: Config, v: Venue, s: Submission, reason: string, subs: seq<Submission>)
    requires Settled(cfg, v, s.clOrdID, subs) && subs == []
    ensures Settled(cfg, Refuse(cfg, v, s, reason), s.clOrdID, subs + [s])
  {
    var v' := Refuse(cfg, v, s, reason);
    TheRefusal(cfg, v, s, reason);
    RefusalFiled(cfg, v, v', s.clOrdID, v'.published[|v.published|]);
  }

  lemma {:induction false} AnIdSubmittedOnceIsSettled(cfg: Config, readAt: int, read: BookRead, inputs: seq<Input>,
                                                      id: string)
    requires AllWellformed(inputs) && |Submissions(inputs, id)| <= 1
    ensures var v := Run(cfg, Opened(cfg, readAt, read), inputs);
            Settled(cfg, v, id, Submissions(inputs, id))
              && (Submissions(inputs, id) == [] ==> id !in v.terms && Filed(v.published, id) == [])
  {
    if inputs != [] {
      var n := |inputs| - 1;
      AnIdSubmittedOnceIsSettled(cfg, readAt, read, inputs[..n], id);
      EveryRunIsConsistent(cfg, readAt, read, inputs[..n]);
      var v, subs := Run(cfg, Opened(cfg, readAt, read), inputs[..n]), Submissions(inputs[..n], id);
      if !v.failed {
        match inputs[n]
        case Submit(s, draw) => AcceptSettles(cfg, v, s, draw, id, subs);
        case CancelOrder(c) =>
          if c.origClOrdID in v.live {
            FinishIsOwn(cfg, v, c.origClOrdID, c.at, c.clOrdID, CANCEL_REQUESTED);
            OwnKeepsSettled(cfg, v, Step(cfg, v, inputs[n]), id, subs);
          }
        case Tick(now, at, book, ids, chance) =>
          RefreshKeeps(cfg, v, now, at, book);
          EvaluateAllIsOwn(cfg, Refresh(cfg, v, now, at, book), ids, now, chance);
          OwnKeepsSettled(cfg, Refresh(cfg, v, now, at, book), Step(cfg, v, inputs[n]), id, subs);
      }
    }
  }

  // ---------------------------------------------------------------------------
  // End to end
  // ---------------------------------------------------------------------------

  lemma {:induction false} FiledIsFiled(reports: seq<VenueReport>, id: string)
    ensures forall i :: 0 <= i < |Filed(reports, id)| ==> FiledUnder(Filed(reports, id)[i]) == id
  {
    if reports != [] {
      FiledIsFiled(reports[..|reports| - 1], id);
    }
  }

  lemma ARefusalIsALadder(cfg: Config, id: string, qty: real, r: VenueReport, serial: nat, n: nat)
    requires IsRefusal(cfg, r, serial, n) && FiledUnder(r) == id && qty >= 0.0
    ensures Ladder(id, qty, Messages([r]))
  {
    OrderIdIsNotEmpty(cfg.start, serial);
  }

  lemma APrefixIsALadder(id: string, qty: real, ms: seq<O.ExecReport>, n: nat)
    requires Ladder(id, qty, ms) && n <= |ms|
    ensures Ladder(id, qty, ms[..n])
  {
    var ps := ms[..n];
    forall i | 0 <= i < n
      ensures Rung(id, qty, ps, i)
    {
      assert Rung(id, qty, ms, i);
    }
  }

  /** What was sent about an order is what was published about it, but for the one report a
      failing writer withheld. */
  lemma SentIsAPrefix(v: Venue, id: string)
    ensures |Filed(v.Sent(), id)| <= |Filed(v.published, id)|
    ensures Filed(v.Sent(), id) == Filed(v.published, id)[..|Filed(v.Sent(), id)|]
  {
    if v.failed && v.published != [] {
      var n := |v.published| - 1;
      assert v.published == v.published[..n] + [v.published[n]];
      FiledSnoc(v.published[..n], v.published[n]);
    }
  }

  /** Everything the venue sent about an order, as the client reads it. */
  function SentMessages(v: Venue, id: string): seq<O.ExecReport> {
    Messages(Filed(v.Sent(), id))
  }

  /** With the id submitted once, at a non-negative quantity, what the venue sent about it
      is a ladder, and a last message that ends it carries the venue's own final state. */
  lemma WhatWasSentIsALadder(cfg: Config, readAt: int, read: BookRead, inputs: seq<Input>, id: string, qty: real)
    requires AllWellformed(inputs) && |Submissions(inputs, id)| <= 1 && qty >= 0.0
    requires forall s :: s in Submissions(inputs, id) ==> s.qty == qty
    ensures var v := Run(cfg, Opened(cfg, readAt, read), inputs);
            Ladder(id, qty, SentMessages(v, id))
  {
    var v := Run(cfg, Opened(cfg, readAt, read), inputs);
    EveryRunIsConsistent(cfg, readAt, read, inputs);
    AnIdSubmittedOnceIsSettled(cfg, readAt, read, inputs, id);
    var filed, sent := Filed(v.published, id), Filed(v.Sent(), id);
    WhatIsFiledIsALadder(cfg, v, id, qty, Submissions(inputs, id));
    SentIsAPrefix(v, id);
    APrefixIsALadder(id, qty, Messages(filed), |sent|);
    assert Messages(sent) == Messages(filed)[..|sent|];
  }

  lemma WhatIsFiledIsALadder(cfg: Config, v: Venue, id: string, qty: real, subs: seq<Submission>)
    requires Consistent(cfg, v) && Settled(cfg, v, id, subs) && qty >= 0.0 && forall s :: s in subs ==> s.qty == qty
    ensures Ladder(id, qty, Messages(Filed(v.published, id)))
  {
    var filed := Filed(v.published, id);
    assert OrderOk(cfg, v, id);
    FiledIsFiled(v.published, id);
    if id in v.terms {
      ALifeIsALadder(cfg, v.terms[id], id, filed);
    } else if filed != [] {
      var serial, n :| IsRefusal(cfg, filed[0], serial, n);
      assert filed == [filed[0]];
      ARefusalIsALadder(cfg, id, qty, filed[0], serial, n);
    }
  }

  /** The client's word for how an order ended, and the venue's, are of the same end. */
  predicate SameEnd(state: O.ExecState, status: OrdStatus) {
    && (state.Filled? <==> status.StatusFilled?)
    && (state.Canceled? <==> status.StatusCanceled?)
    && (state.Rejected? <==> status.StatusRejected?)
  }

  /** The record the tracker must end with. */
  predicate EndsWhereTheVenueDid(v: Venue, id: string, rec: Option<T.Tracked>) {
    var filed := Filed(v.Sent(), id);
    && rec.Some? && filed != []
    && var s, last := rec.value.status, filed[|filed| - 1];
    && s.Terminal() && s.leavesQty == 0.0
    && s.cumQty == last.cumQty && s.avgPx == last.avgPx && s.venueID == last.orderID
    && EndsAs(v, id, last)
    && s.reason == (if last.ordStatus.StatusFilled? then "" else last.text)
    && SameEnd(s.state, if id in v.terms && id in v.final then v.final[id] else StatusRejected)
  }

  /** The report at i of those sent is among the arrivals. */
  predicate Arrives(arrivals: seq<Arrival>, i: int) {
    exists k :: 0 <= k < |arrivals| && arrivals[k].Message? && arrivals[k].i == i
  }

  /** The last of the reports ends the order, and it arrives. */
  ghost predicate EndArrives(id: string, qty: real, ms: seq<O.ExecReport>, arrivals: seq<Arrival>) {
    AllDrawn(id, qty, ms, arrivals) && ms != [] && ms[|ms| - 1].state.Terminal() && Arrives(arrivals, |ms| - 1)
  }

  /** With an id submitted once, any delivery of what the venue sent about it that includes
      its last report — in any order, with any repetition, registered early, late or never,
      observed at any time and mixed with any other orders' traffic — leaves the tracker
      with the venue's final state, CumQty and AvgPx and nothing left. */
  lemma TheTrackerConverges(cfg: Config, readAt: int, read: BookRead, inputs: seq<Input>, id: string, qty: real,
                            timeout: int, arrivals: seq<Arrival>)
    requires AllWellformed(inputs) && |Submissions(inputs, id)| <= 1 && qty >= 0.0
    requires forall s :: s in Submissions(inputs, id) ==> s.qty == qty
    requires EndArrives(id, qty, SentMessages(Run(cfg, Opened(cfg, readAt, read), inputs), id), arrivals)
    ensures var v := Run(cfg, Opened(cfg, readAt, read), inputs);
            EndsWhereTheVenueDid(v, id, Arrive(timeout, id, SentMessages(v, id), arrivals).rec)
  {
    WhatWasSentIsALadder(cfg, readAt, read, inputs, id, qty);
    TheRunSaysHowItEnded(cfg, readAt, read, inputs, id);
    ALadderConverges(Run(cfg, Opened(cfg, readAt, read), inputs), id, qty, timeout, arrivals);
  }

  lemma TheRunSaysHowItEnded(cfg: Config, readAt: int, read: BookRead, inputs: seq<Input>, id: string)
    requires AllWellformed(inputs) && |Submissions(inputs, id)| <= 1
    requires EndIsSent(Run(cfg, Opened(cfg, readAt, read), inputs), id)
    ensures SaysTheEnd(Run(cfg, Opened(cfg, readAt, read), inputs), id)
  {
    EveryRunIsConsistent(cfg, readAt, read, inputs);
    AnIdSubmittedOnceIsSettled(cfg, readAt, read, inputs, id);
    TheLastSentIsTheEnd(cfg, Run(cfg, Opened(cfg, readAt, read), inputs), id, Submissions(inputs, id));
  }

  /** The last report sent about the order ends it. */
  predicate EndIsSent(v: Venue, id: string) {
    var ms := SentMessages(v, id);
    ms != [] && ms[|ms| - 1].state.Terminal()
  }

  /** And says how the venue ended it. */
  predicate SaysTheEnd(v: Venue, id: string) {
    var sent := Filed(v.Sent(), id);
    sent != [] && EndsAs(v, id, sent[|sent| - 1])
  }

  lemma TheLastSent(v: Venue, id: string)
    requires EndIsSent(v, id)
    ensures var sent, filed := Filed(v.Sent(), id), Filed(v.published, id);
            var n := |sent| - 1;
            n == |SentMessages(v, id)| - 1 && 0 <= n < |filed| && filed[n] == sent[n] && sent[n].ordStatus.Ends()
  {
    SentIsAPrefix(v, id);
  }

  lemma TheLastSentIsTheEnd(cfg: Config, v: Venue, id: string, subs: seq<Submission>)
    requires Consistent(cfg, v) && Settled(cfg, v, id, subs)
    requires EndIsSent(v, id)
    ensures SaysTheEnd(v, id)
  {
    TheLastSent(v, id);
    AnEndIsTheEnd(cfg, v, id, subs, |SentMessages(v, id)| - 1);
  }

  lemma ALadderConverges(v: Venue, id: string, qty: real, timeout: int, arrivals: seq<Arrival>)
    requires Ladder(id, qty, SentMessages(v, id)) && EndArrives(id, qty, SentMessages(v, id), arrivals)
    requires SaysTheEnd(v, id)
    ensures EndsWhereTheVenueDid(v, id, Arrive(timeout, id, SentMessages(v, id), arrivals).rec)
  {
    var ms := SentMessages(v, id);
    DeliveredToTheEnd(timeout, id, qty, ms, arrivals);
    ShownIsWhereTheVenueEnded(v, id, qty, Arrive(timeout, id, ms, arrivals).rec);
  }

  lemma ShownIsWhereTheVenueEnded(v: Venue, id: string, qty: real, rec: Option<T.Tracked>)
    requires var ms, filed := SentMessages(v, id), Filed(v.Sent(), id);
             && ms != [] && ms[|ms| - 1].state.Terminal() && ms[|ms| - 1].leavesQty == 0.0
             && Shows(id, qty, ms, |ms| - 1, rec)
             && EndsAs(v, id, filed[|filed| - 1])
    ensures EndsWhereTheVenueDid(v, id, rec)
  {
  }

  /** Once the last report of a ladder has arrived, the tracker shows it. */
  lemma DeliveredToTheEnd(timeout: int, id: string, qty: real, ms: seq<O.ExecReport>, arrivals: seq<Arrival>)
    requires Ladder(id, qty, ms) && EndArrives(id, qty, ms, arrivals)
    ensures ms[|ms| - 1].leavesQty == 0.0
    ensures Shows(id, qty, ms, |ms| - 1, Arrive(timeout, id, ms, arrivals).rec)
  {
    TheTrackerShowsTheFurthestReport(timeout, id, qty, ms, arrivals);
    TheLastIsTheFurthest(id, qty, ms, arrivals);
    assert Rung(id, qty, ms, |ms| - 1);
  }

  lemma {:induction false} TheLastIsTheFurthest(id: string, qty: real, ms: seq<O.ExecReport>, arrivals: seq<Arrival>)
    requires AllDrawn(id, qty, ms, arrivals)
    ensures Furthest(arrivals) < |ms|
    ensures forall k :: 0 <= k < |arrivals| && arrivals[k].Message? ==> arrivals[k].i <= Furthest(arrivals)
  {
    if arrivals != [] {
      TheLastIsTheFurthest(id, qty, ms, arrivals[..|arrivals| - 1]);
    }
  }

  /** `last` is how the venue itself ended the order. */
  predicate EndsAs(v: Venue, id: string, last: VenueReport) {
    if id in v.terms
    then id in v.final && last.ordStatus == v.final[id] && last.cumQty == Executed(LifeOf(v.published, id))
    else last.ordStatus.StatusRejected? && last.cumQty == 0.0
  }

  lemma TheEndOfALife(cfg: Config, t: Terms, life: seq<VenueReport>, n: nat)
    requires Lived(cfg, t, life) && n < |life| && life[n].ordStatus.Ends()
    ensures n == |life| - 1 && life[n].cumQty == Executed(life)
  {
    if n < |life| - 1 {
      LaterReportsClimb(cfg, t, life, n, |life| - 1);
    }
    ALifeAddsUp(cfg, t, life);
  }

  /** A report that ends a settled order is the last filed under it. */
  lemma AnEndIsTheEnd(cfg: Config, v: Venue, id: string, subs: seq<Submission>, n: nat)
    requires Consistent(cfg, v) && Settled(cfg, v, id, subs)
    requires n < |Filed(v.published, id)| && Filed(v.published, id)[n].ordStatus.Ends()
    ensures EndsAs(v, id, Filed(v.published, id)[n])
  {
    assert OrderOk(cfg, v, id);
    if id in v.terms {
      AnAcceptedEnd(cfg, v, id, n);
    }
  }

  lemma AnAcceptedEnd(cfg: Config, v: Venue, id: string, n: nat)
    requires OrderOk(cfg, v, id) && id in v.terms && n < |LifeOf(v.published, id)|
             && LifeOf(v.published, id)[n].ordStatus.Ends()
    ensures EndsAs(v, id, LifeOf(v.published, id)[n])
  {
    TheEndOfALife(cfg, v.terms[id], LifeOf(v.published, id), n);
  }

  /** And on the way there no report of the order is ever judged invalid. */
  lemma NothingTheVenueSendsIsInvalid(cfg: Config, readAt: int, read: BookRead, inputs: seq<Input>, id: string,
                                      qty: real, timeout: int, arrivals: seq<Arrival>, i: nat,
                                      receivedAt: Option<int>)
    requires AllWellformed(inputs) && |Submissions(inputs, id)| <= 1 && qty >= 0.0
    requires forall s :: s in Submissions(inputs, id) ==> s.qty == qty
    requires var ms := SentMessages(Run(cfg, Opened(cfg, readAt, read), inputs), id);
             AllDrawn(id, qty, ms, arrivals) && i < |ms|
    ensures var ms := SentMessages(Run(cfg, Opened(cfg, readAt, read), inputs), id);
            !T.OutcomeFor(timeout, Arrive(timeout, id, ms, arrivals).rec, ms[i].(receivedAt := receivedAt)).Invalid?
  {
    WhatWasSentIsALadder(cfg, readAt, read, inputs, id, qty);
    NoReportIsInvalid(timeout, id, qty, SentMessages(Run(cfg, Opened(cfg, readAt, read), inputs), id), arrivals, i,
                      receivedAt);
  }
}
