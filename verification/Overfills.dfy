/** How far a report may take an order (internal/exec/statemachine.go): which reports move it, that
    none but an acknowledgement can state more filled than was ordered, and when an order nobody
    has answered is overdue. */
module Overfills {
  import opened Options
  import opened Orders
  import opened Tracking
  import opened TrackerSafety

  // ---------------------------------------------------------------------------
  // Which reports move an order
  // ---------------------------------------------------------------------------

  predicate Unseen(t: Tracked, r: ExecReport) {
    r.execID == "" || r.execID !in t.seen
  }

  /** No more than was ordered, where that is known. */
  predicate NotOver(s: Status, cumQty: real) {
    s.qty == 0.0 || cumQty <= s.qty
  }

  /** The reports that move an open order: the first acknowledgement of one still pending; a partial
      that fills more; a fill or an end that fills no less; and none but the acknowledgement
      beyond what was ordered. */
  predicate Movable(s: Status, r: ExecReport) {
    match r.state
    case New => s.state.Pending?
    case Partial => s.cumQty < r.cumQty && NotOver(s, r.cumQty)
    case Filled => s.cumQty <= r.cumQty && NotOver(s, r.cumQty) && r.leavesQty == 0.0
    case Canceled | Rejected => s.cumQty <= r.cumQty && NotOver(s, r.cumQty)
    case _ => false
  }

  /** The order as the report states it. */
  predicate Moved(s: Status, r: ExecReport, s': Status) {
    && s'.state == r.state && s'.cumQty == r.cumQty && s'.avgPx == r.avgPx && s'.updatedAt == r.at
    && s'.leavesQty == (if r.state.Canceled? || r.state.Rejected? then 0.0 else r.leavesQty)
    && s'.reason == (if r.state.Canceled? || r.state.Rejected? then r.reason else s.reason)
    && s'.venueID == (if r.venueID == "" then s.venueID else r.venueID)
    && s'.clOrdID == s.clOrdID && s'.qty == s.qty && s'.adopted == s.adopted
    && s'.submittedAt == s.submittedAt && s'.deadline == s.deadline
  }

  lemma AReportMoves(t: Tracked, r: ExecReport)
    ensures var (t', outcome) := ApplyKnown(t, r);
            if Unseen(t, r) && !t.status.state.Terminal() && Movable(t.status, r)
            then outcome.Applied? && Moved(t.status, r, t'.status) && t'.adopted == t.adopted
                 && t'.seen == t.seen + (if r.execID == "" then {} else {r.execID})
            else !outcome.Applied? && t' == t
  {
  }

  /** What a report that moves nothing was. */
  predicate Refused(t: Tracked, r: ExecReport, outcome: Outcome) {
    var s := t.status;
    if !Unseen(t, r) then outcome.Duplicate?
    else if s.state.Terminal() then
      outcome == if r.state == s.state && r.cumQty == s.cumQty then Duplicate else Late
    else match r.state
      case New => outcome == if s.state.New? then Duplicate else Stale
      case Partial => outcome == (if r.cumQty < s.cumQty then Stale
                                  else if r.cumQty == s.cumQty && s.state.Partial? then Duplicate else Invalid)
      case Filled => outcome == if r.cumQty < s.cumQty then Stale else Invalid
      case _ => outcome.Invalid?
  }

  lemma ARefusalIsOneOf(t: Tracked, r: ExecReport)
    requires !(Unseen(t, r) && !t.status.state.Terminal() && Movable(t.status, r))
    ensures Refused(t, r, ApplyKnown(t, r).1)
  {
  }

  /** The record a report is judged against: the order's own, or that of one first heard of now. */
  function JudgedAgainst(timeout: int, l: Life, r: ExecReport): Tracked {
    if l.rec.Some? then l.rec.value else Adoptee(timeout, r)
  }

  /** An order first heard of from this report: how much was ordered, and for which leg, is not known,
      and its own time stands in for its submission. */
  predicate IsAdopted(timeout: int, r: ExecReport, t: Tracked) {
    && t.adopted && t.status.adopted && t.status.qty == 0.0 && t.leg == "" && !t.ackTimedOut
    && t.status.submittedAt == r.at && t.status.deadline == r.at + timeout
  }

  /** On every run, a report moves the order it names exactly when it is one of those, and then to
      what it states; any other leaves everything known and measured of the order as it was, and is
      counted as what it was. An order not known before is adopted by the report that moves it. */
  lemma WhatAReportDoes(timeout: int, events: seq<Event>, r: ExecReport)
    ensures var id := r.clOrdID;
            var l, l' := Run(timeout, id, UNKNOWN, events), Run(timeout, id, UNKNOWN, events + [Report(r)]);
            var t, outcome := JudgedAgainst(timeout, l, r), OutcomeFor(timeout, l.rec, r);
            if Unseen(t, r) && !t.status.state.Terminal() && Movable(t.status, r) then
              && outcome == (if l.rec.Some? then Applied else Adopted)
              && l'.rec.Some? && Moved(t.status, r, l'.rec.value.status) && l'.rec.value.adopted == t.adopted
              && (l.rec.None? ==> IsAdopted(timeout, r, l'.rec.value))
            else
              l' == l && Refused(t, r, outcome)
  {
    var l := Run(timeout, r.clOrdID, UNKNOWN, events);
    assert (events + [Report(r)])[..|events|] == events;
    AReportMoves(JudgedAgainst(timeout, l, r), r);
    if !(Unseen(JudgedAgainst(timeout, l, r), r) && !JudgedAgainst(timeout, l, r).status.state.Terminal()
         && Movable(JudgedAgainst(timeout, l, r).status, r)) {
      ARefusalIsOneOf(JudgedAgainst(timeout, l, r), r);
    }
  }

  /** The order as its submitter told it, with its deadline the timeout after its submission. */
  predicate Submitted(timeout: int, o: Order, ack: Ack, t: Tracked) {
    && !t.adopted && !t.status.adopted && t.leg == o.leg
    && t.status.qty == o.qty && t.status.submittedAt == ack.at && t.status.deadline == ack.at + timeout
  }

  /** Nothing has been heard of it. */
  predicate Unheard(o: Order, ack: Ack, t: Tracked) {
    var s := t.status;
    s.state.Pending? && s.cumQty == 0.0 && s.leavesQty == o.qty && s.venueID == ack.venueID && t.seen == {}
  }

  /** What has been heard of it stands. */
  predicate HeardAs(t: Tracked, ack: Ack, t': Tracked) {
    var s, s' := t.status, t'.status;
    && s'.state == s.state && s'.cumQty == s.cumQty && s'.leavesQty == s.leavesQty && s'.avgPx == s.avgPx
    && s'.reason == s.reason && s'.updatedAt == s.updatedAt && t'.seen == t.seen
    && s'.venueID == if s.venueID == "" then ack.venueID else s.venueID
  }

  lemma ARegistration(timeout: int, l: Life, o: Order, ack: Ack)
    requires Healthy(o.clOrdID, l)
    ensures var l' := StepTrack(timeout, l, o, ack);
            match l.rec
            case None => l'.rec.Some? && Submitted(timeout, o, ack, l'.rec.value) && Unheard(o, ack, l'.rec.value)
                         && l'.roundtrips == []
            case Some(t) =>
              if !t.adopted then l' == l
              else && l'.rec.Some? && Submitted(timeout, o, ack, l'.rec.value) && HeardAs(t, ack, l'.rec.value)
                   && l'.roundtrips == if t.status.Terminal() then [t.status.updatedAt - ack.at] else []
  {
  }

  /** On every run, registering an order never heard of opens it, pending; one adopted from its reports
      is given what it was missing, and what the reports said of it stands; and one registered before
      is left as it is. */
  lemma WhatARegistrationDoes(timeout: int, events: seq<Event>, o: Order, ack: Ack)
    requires AllSound(events)
    ensures var id := o.clOrdID;
            var l, l' := Run(timeout, id, UNKNOWN, events), Run(timeout, id, UNKNOWN, events + [Track(o, ack)]);
            match l.rec
            case None => l'.rec.Some? && Submitted(timeout, o, ack, l'.rec.value) && Unheard(o, ack, l'.rec.value)
                         && l'.roundtrips == []
            case Some(t) =>
              if !t.adopted then l' == l
              else && l'.rec.Some? && Submitted(timeout, o, ack, l'.rec.value) && HeardAs(t, ack, l'.rec.value)
                   && l'.roundtrips == if t.status.Terminal() then [t.status.updatedAt - ack.at] else []
  {
    EveryRunIsHealthy(timeout, o.clOrdID, events);
    ARegistration(timeout, Run(timeout, o.clOrdID, UNKNOWN, events), o, ack);
    assert (events + [Track(o, ack)])[..|events|] == events;
  }

  // ---------------------------------------------------------------------------
  // Overfills
  // ---------------------------------------------------------------------------

  /** More has been filled than was ordered. */
  predicate Over(l: Life) {
    l.rec.Some? && l.rec.value.status.qty != 0.0 && l.rec.value.status.cumQty > l.rec.value.status.qty
  }

  /** On every run, whatever the reports, one that moved an order and was no acknowledgement left no
      more filled than was ordered. */
  lemma NoReportButAnAcknowledgementOverfills(timeout: int, events: seq<Event>, r: ExecReport)
    requires !r.state.New?
    requires var outcome := OutcomeFor(timeout, Run(timeout, r.clOrdID, UNKNOWN, events).rec, r);
             outcome.Applied? || outcome.Adopted?
    ensures var l' := Run(timeout, r.clOrdID, UNKNOWN, events + [Report(r)]); l'.rec.Some? && !Over(l')
  {
    WhatAReportDoes(timeout, events, r);
  }

  /** A report of an open order, of any kind but an acknowledgement, that states more than was ordered
      and more than has been reported, is invalid and changes nothing. */
  lemma AnOverfillIsInvalid(timeout: int, events: seq<Event>, r: ExecReport)
    requires r.state.Partial? || r.state.Filled? || r.state.Canceled? || r.state.Rejected?
    requires var l := Run(timeout, r.clOrdID, UNKNOWN, events);
             && l.rec.Some? && Unseen(l.rec.value, r)
             && var s := l.rec.value.status; !s.Terminal() && s.qty != 0.0 && r.cumQty > s.qty && r.cumQty > s.cumQty
    ensures var l := Run(timeout, r.clOrdID, UNKNOWN, events);
            && OutcomeFor(timeout, l.rec, r).Invalid?
            && Run(timeout, r.clOrdID, UNKNOWN, events + [Report(r)]) == l
  {
    WhatAReportDoes(timeout, events, r);
  }

  /** The only two ways more comes to be filled than was ordered: the acknowledgement of a pending
      order says so, or an order adopted from its reports is registered with less. */
  predicate Overfills(id: OrderId, l: Life, e: Event) {
    match e
    case Report(r) =>
      && r.clOrdID == id && r.state.New? && l.rec.Some? && Unseen(l.rec.value, r)
      && l.rec.value.status.state.Pending? && l.rec.value.status.qty != 0.0 && r.cumQty > l.rec.value.status.qty
    case Track(o, _) =>
      && o.clOrdID == id && o.qty != 0.0
      && if l.rec.None? then 0.0 > o.qty else l.rec.value.adopted && l.rec.value.status.cumQty > o.qty
    case Observe(_) => false
  }

  lemma OverfilledExactlyWhen(timeout: int, id: OrderId, events: seq<Event>, e: Event)
    requires !Over(Run(timeout, id, UNKNOWN, events))
    ensures Over(Run(timeout, id, UNKNOWN, events + [e])) <==> Overfills(id, Run(timeout, id, UNKNOWN, events), e)
  {
    assert (events + [e])[..|events|] == events;
    var l := Run(timeout, id, UNKNOWN, events);
    if e.Report? && e.r.clOrdID == id {
      AReportMoves(JudgedAgainst(timeout, l, e.r), e.r);
    }
  }

  /** An acknowledgement of `id` states no more than was ordered. */
  predicate AcknowledgesWithin(id: OrderId, qty: real, e: Event) {
    e.Report? && e.r.clOrdID == id && e.r.state.New? ==> e.r.cumQty <= qty
  }

  /** Registered with what was ordered, and with no more than that filled. */
  predicate Ordered(id: OrderId, qty: real, l: Life) {
    l.rec.Some? && !l.rec.value.adopted && l.rec.value.status.qty == qty && l.rec.value.status.cumQty <= qty
  }

  lemma StillWithin(timeout: int, id: OrderId, qty: real, l: Life, e: Event)
    requires Ordered(id, qty, l) && qty > 0.0 && AcknowledgesWithin(id, qty, e)
    ensures Ordered(id, qty, Step(timeout, id, l, e))
  {
    if e.Report? && e.r.clOrdID == id {
      AReportMoves(l.rec.value, e.r);
    }
  }

  /** An order registered before anything is heard of it never shows more filled than was ordered,
      whatever else is reported of it, unless an acknowledgement says so. */
  lemma {:induction false} TrackedFirstIsNeverOverfilled(timeout: int, o: Order, ack: Ack, before: seq<Event>,
                                                         events: seq<Event>)
    requires o.qty > 0.0 && Run(timeout, o.clOrdID, UNKNOWN, before).rec.None?
    requires forall i :: 0 <= i < |events| ==> AcknowledgesWithin(o.clOrdID, o.qty, events[i])
    ensures Ordered(o.clOrdID, o.qty, Run(timeout, o.clOrdID, UNKNOWN, before + [Track(o, ack)] + events))
  {
    var all := before + [Track(o, ack)];
    if events == [] {
      assert all + events == all && all[..|before|] == before;
    } else {
      var n := |events| - 1;
      TrackedFirstIsNeverOverfilled(timeout, o, ack, before, events[..n]);
      assert (all + events)[..|all + events| - 1] == all + events[..n];
      StillWithin(timeout, o.clOrdID, o.qty, Run(timeout, o.clOrdID, UNKNOWN, all + events[..n]), events[n]);
    }
  }

  /** An order that has come to be overfilled is stuck: once registered and answered, nothing that is
      reported of it can move it or end it. */
  lemma {:induction false} AnOverfilledOrderIsStuck(timeout: int, id: OrderId, events: seq<Event>, later: seq<Event>)
    requires var l := Run(timeout, id, UNKNOWN, events);
             Over(l) && !l.rec.value.adopted && !l.rec.value.status.state.Pending?
    ensures var l, l' := Run(timeout, id, UNKNOWN, events), Run(timeout, id, UNKNOWN, events + later);
            && l'.rec.Some? && l'.rec.value.status == l.rec.value.status && !l'.rec.value.adopted
            && l'.roundtrips == l.roundtrips && l'.acks == l.acks
  {
    if later == [] {
      assert events + later == events;
    } else {
      var n := |later| - 1;
      AnOverfilledOrderIsStuck(timeout, id, events, later[..n]);
      assert (events + later)[..|events + later| - 1] == events + later[..n];
      var l := Run(timeout, id, UNKNOWN, events + later[..n]);
      if later[n].Report? && later[n].r.clOrdID == id {
        AReportMoves(l.rec.value, later[n].r);
      }
    }
  }

  /** Four ordered, acknowledged with seven filled: the record shows seven. */
  lemma AnAcknowledgementMayOverfill(timeout: int)
    ensures var events := [Track(Order("A", "perp", 4.0), Ack("", 0)),
                           Report(ExecReport("A", "", "x1", New, 7.0, 0.0, 0.0, "", 7, None))];
            var l := Run(timeout, "A", UNKNOWN, events);
            Over(l) && l.rec.value.status.cumQty == 7.0 && !l.rec.value.status.Terminal()
  {
    var t := Track(Order("A", "perp", 4.0), Ack("", 0));
    var r := Report(ExecReport("A", "", "x1", New, 7.0, 0.0, 0.0, "", 7, None));
    assert [t, r][..1] == [t];
    RunOne(timeout, "A", UNKNOWN, t);
  }

  // ---------------------------------------------------------------------------
  // Deadlines
  // ---------------------------------------------------------------------------

  /** Nothing is reported of the order. */
  predicate Silent(id: OrderId, events: seq<Event>) {
    forall i :: 0 <= i < |events| && events[i].Report? ==> events[i].r.clOrdID != id
  }

  /** Somebody looked after this instant. */
  predicate LookedAfter(events: seq<Event>, deadline: int) {
    exists i :: 0 <= i < |events| && events[i].Observe? && events[i].now > deadline
  }

  lemma LookedAfterNext(events: seq<Event>, e: Event, deadline: int)
    ensures LookedAfter(events + [e], deadline) <==> LookedAfter(events, deadline) || (e.Observe? && e.now > deadline)
  {
    var all := events + [e];
    if LookedAfter(events, deadline) {
      var i :| 0 <= i < |events| && events[i].Observe? && events[i].now > deadline;
      assert all[i] == events[i];
    } else if e.Observe? && e.now > deadline {
      assert all[|events|] == e;
    }
  }

  /** The order as it stands while nobody has answered it. */
  predicate Unanswered(o: Order, ack: Ack, timeout: int, missed: bool, l: Life) {
    && l.acks == [] && l.roundtrips == [] && l.timeouts == (if missed then 1 else 0)
    && l.rec == Some(Tracked(Status(o.clOrdID, ack.venueID, o.qty, Pending, 0.0, o.qty, 0.0, "", false, ack.at, ack.at,
                                    ack.at + timeout), false, {}, o.leg, missed))
  }

  lemma {:induction false} AnUnansweredOrderWaits(timeout: int, o: Order, ack: Ack, before: seq<Event>,
                                                  events: seq<Event>)
    requires Run(timeout, o.clOrdID, UNKNOWN, before) == UNKNOWN && Silent(o.clOrdID, events)
    ensures Unanswered(o, ack, timeout, LookedAfter(events, ack.at + timeout),
                       Run(timeout, o.clOrdID, UNKNOWN, before + [Track(o, ack)] + events))
  {
    var all := before + [Track(o, ack)];
    if events == [] {
      assert all + events == all && all[..|before|] == before;
    } else {
      var n := |events| - 1;
      AnUnansweredOrderWaits(timeout, o, ack, before, events[..n]);
      assert (all + events)[..|all + events| - 1] == all + events[..n];
      assert events[..n] + [events[n]] == events;
      LookedAfterNext(events[..n], events[n], ack.at + timeout);
    }
  }

  /** An order registered before anything is heard of it, and not yet answered, is overdue at exactly
      the instants later than its submission by more than the timeout; its missed deadline has been
      counted, once, exactly when somebody has looked at such an instant. */
  lemma OverdueExactlyAfterTheTimeout(timeout: int, o: Order, ack: Ack, before: seq<Event>, events: seq<Event>,
                                      now: int)
    requires Run(timeout, o.clOrdID, UNKNOWN, before) == UNKNOWN && Silent(o.clOrdID, events)
    ensures var l := Run(timeout, o.clOrdID, UNKNOWN, before + [Track(o, ack)] + events);
            && l.rec.Some? && (l.rec.value.status.Overdue(now) <==> now > ack.at + timeout)
            && l.timeouts == if LookedAfter(events, ack.at + timeout) then 1 else 0
  {
    AnUnansweredOrderWaits(timeout, o, ack, before, events);
  }

  lemma AnAnswerIsTimed(timeout: int, l: Life, ack: Ack, r: ExecReport, now: int)
    requires l.acks == [] && l.roundtrips == [] && l.rec.Some? && ApplyKnown(l.rec.value, r).1.Applied?
    requires var t := l.rec.value; t.status.state.Pending? && t.status.submittedAt == ack.at && !t.adopted
    ensures var l' := StepReport(timeout, l, r);
            && l'.acks == (if r.receivedAt.Some? then [r.receivedAt.value - ack.at] else [])
            && l'.roundtrips == (if r.state.Terminal() then [r.at - ack.at] else [])
            && l'.rec.Some? && !l'.rec.value.status.Overdue(now)
  {
    AReportMoves(l.rec.value, r);
  }

  /** The first report that moves it is its answer: the wait is from its submission to the report's
      receipt, where that was stamped; an order it ends took from its submission to the report's own
      time; and it is overdue no more. */
  lemma TheFirstAnswerIsTimed(timeout: int, o: Order, ack: Ack, before: seq<Event>, events: seq<Event>, r: ExecReport,
                              now: int)
    requires Run(timeout, o.clOrdID, UNKNOWN, before) == UNKNOWN && Silent(o.clOrdID, events) && r.clOrdID == o.clOrdID
    requires var all := before + [Track(o, ack)] + events;
             OutcomeFor(timeout, Run(timeout, o.clOrdID, UNKNOWN, all).rec, r).Applied?
    ensures var l := Run(timeout, o.clOrdID, UNKNOWN, before + [Track(o, ack)] + events + [Report(r)]);
            && l.acks == (if r.receivedAt.Some? then [r.receivedAt.value - ack.at] else [])
            && l.roundtrips == (if r.state.Terminal() then [r.at - ack.at] else [])
            && l.rec.Some? && !l.rec.value.status.Overdue(now)
  {
    var all := before + [Track(o, ack)] + events;
    AnUnansweredOrderWaits(timeout, o, ack, before, events);
    assert (all + [Report(r)])[..|all|] == all;
    AnAnswerIsTimed(timeout, Run(timeout, o.clOrdID, UNKNOWN, all), ack, r, now);
  }

  /** So the gauge counts it at exactly those instants. */
  lemma TheGaugeCountsItExactlyThen(tracker: Tracker, o: Order, ack: Ack, before: seq<Event>, events: seq<Event>,
                                    now: int)
    requires tracker.Valid() && tracker.history == before + [Track(o, ack)] + events
    requires Run(tracker.timeout, o.clOrdID, UNKNOWN, before) == UNKNOWN && Silent(o.clOrdID, events)
    ensures o.clOrdID in OverdueOrders(tracker.orders, now) <==> now > ack.at + tracker.timeout
  {
    OverdueExactlyAfterTheTimeout(tracker.timeout, o, ack, before, events, now);
    assert tracker.LifeOf(o.clOrdID).rec == Lookup(tracker.orders, o.clOrdID);
  }
}
