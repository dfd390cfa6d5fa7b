/** What the order tracker promises over whole runs: the filled quantity never falls, an
    ended order never moves, a replayed report is invisible, and the moment an order is
    registered does not matter. */
module TrackerSafety {
  import opened Options
  import opened Orders
  import opened Tracking

  /** The one thing the rule table takes on trust: a report never states a negative CumQty. */
  predicate Sound(e: Event) {
    e.Report? ==> e.r.cumQty >= 0.0
  }

  predicate AllSound(events: seq<Event>) {
    forall i :: 0 <= i < |events| ==> Sound(events[i])
  }

  // ---------------------------------------------------------------------------
  // Runs
  // ---------------------------------------------------------------------------

  lemma {:induction false} RunAppend(timeout: int, id: OrderId, l: Life, xs: seq<Event>, ys: seq<Event>)
    ensures Run(timeout, id, l, xs + ys) == Run(timeout, id, Run(timeout, id, l, xs), ys)
  {
    if ys == [] {
      assert xs + ys == xs;
    } else {
      var n := |ys| - 1;
      assert (xs + ys)[..|xs + ys| - 1] == xs + ys[..n];
      RunAppend(timeout, id, l, xs, ys[..n]);
    }
  }

  lemma RunOne(timeout: int, id: OrderId, l: Life, e: Event)
    ensures Run(timeout, id, l, [e]) == Step(timeout, id, l, e)
  {
    assert [e][..0] == [];
  }

  // ---------------------------------------------------------------------------
  // The invariant of one order's life
  // ---------------------------------------------------------------------------

  /** The round trips an order has earned: one, once it has ended and its submitter is known. */
  function TripsOf(t: Tracked): seq<int> {
    if t.status.Terminal() && !t.adopted then [t.status.updatedAt - t.status.submittedAt] else []
  }

  predicate Healthy(id: OrderId, l: Life) {
    match l.rec
    case None => l == UNKNOWN
    case Some(t) =>
      && t.status.clOrdID == id
      && t.status.cumQty >= 0.0
      && (t.status.state.Pending? ==> t.status.cumQty == 0.0 && t.seen == {} && l.acks == [])
      && (t.status.Terminal() ==> t.status.leavesQty == 0.0)
      && !t.status.state.Unruled?
      && t.adopted == t.status.adopted
      && (t.adopted ==> !t.status.state.Pending? && t.status.qty == 0.0 && l.acks == [])
      && l.timeouts == (if t.ackTimedOut then 1 else 0)
      && l.roundtrips == TripsOf(t)
      && |l.acks| <= 1
  }

  lemma StepKeepsHealthy(timeout: int, id: OrderId, l: Life, e: Event)
    requires Healthy(id, l) && Sound(e)
    ensures Healthy(id, Step(timeout, id, l, e))
  {
    match e
    case Report(r) =>
      if r.clOrdID == id {
        ReportKeepsHealthy(timeout, l, r);
      }
    case Track(o, ack) =>
      if o.clOrdID == id {
        TrackKeepsHealthy(timeout, l, o, ack);
      }
    case Observe(now) => ObserveKeepsHealthy(id, l, now);
  }

  lemma TrackKeepsHealthy(timeout: int, l: Life, o: Order, ack: Ack)
    requires Healthy(o.clOrdID, l)
    ensures Healthy(o.clOrdID, StepTrack(timeout, l, o, ack))
  {
  }

  lemma ObserveKeepsHealthy(id: OrderId, l: Life, now: int)
    requires Healthy(id, l)
    ensures Healthy(id, StepObserve(l, now))
  {
  }

  lemma ReportKeepsHealthy(timeout: int, l: Life, r: ExecReport)
    requires Healthy(r.clOrdID, l) && r.cumQty >= 0.0
    ensures Healthy(r.clOrdID, StepReport(timeout, l, r))
  {
    var before := if l.rec.Some? then l.rec.value else Adoptee(timeout, r);
    AppliedIsRuled(before, r);
  }

  /** What an applied report leaves of a record that was in order. */
  lemma AppliedIsRuled(t: Tracked, r: ExecReport)
    requires r.cumQty >= 0.0 && t.status.cumQty >= 0.0 && !t.status.state.Unruled?
    ensures var (a, outcome) := ApplyKnown(t, r);
            outcome.Applied? ==>
              && a.adopted == t.adopted && a.status.adopted == t.status.adopted
              && a.status.clOrdID == t.status.clOrdID && a.status.qty == t.status.qty
              && a.status.cumQty >= 0.0 && !a.status.state.Pending? && !a.status.state.Unruled?
              && (a.status.Terminal() ==> a.status.leavesQty == 0.0)
              && !t.status.Terminal()
  {
  }

  /** Terminal means nothing is left; an adopted record is never pending, so an overdue
      order was submitted here; a missed deadline is counted at most once; an order that
      ended with its submitter known has exactly one round trip, from its submission to
      the report that ended it. */
  lemma {:induction false} EveryRunIsHealthy(timeout: int, id: OrderId, events: seq<Event>)
    requires AllSound(events)
    ensures Healthy(id, Run(timeout, id, UNKNOWN, events))
  {
    if events != [] {
      var n := |events| - 1;
      EveryRunIsHealthy(timeout, id, events[..n]);
      StepKeepsHealthy(timeout, id, Run(timeout, id, UNKNOWN, events[..n]), events[n]);
    }
  }

  lemma {:induction false} OverdueMeansSubmittedHere(timeout: int, id: OrderId, events: seq<Event>, now: int)
    requires AllSound(events)
    ensures var l := Run(timeout, id, UNKNOWN, events);
            l.rec.Some? && l.rec.value.status.Overdue(now) ==>
              !l.rec.value.adopted && exists i :: 0 <= i < |events| && events[i].Track? && events[i].o.clOrdID == id
    decreases |events|
  {
    EveryRunIsHealthy(timeout, id, events);
    RegisteredByTrack(timeout, id, events);
  }

  lemma {:induction false} RegisteredByTrack(timeout: int, id: OrderId, events: seq<Event>)
    requires AllSound(events)
    ensures var l := Run(timeout, id, UNKNOWN, events);
            l.rec.Some? && !l.rec.value.adopted ==>
              exists i :: 0 <= i < |events| && events[i].Track? && events[i].o.clOrdID == id
  {
    if events != [] {
      var n := |events| - 1;
      RegisteredByTrack(timeout, id, events[..n]);
      EveryRunIsHealthy(timeout, id, events[..n]);
      var before := Run(timeout, id, UNKNOWN, events[..n]);
      if before.rec.Some? && !before.rec.value.adopted {
        var i :| 0 <= i < n && events[..n][i].Track? && events[..n][i].o.clOrdID == id;
        assert events[i].Track? && events[i].o.clOrdID == id;
      }
    }
  }

  // ---------------------------------------------------------------------------
  // Progress: what later events may do to an order
  // ---------------------------------------------------------------------------

  /** The fields only a venue's report writes. */
  predicate SameReport(s: Status, s': Status) {
    s.state == s'.state && s.cumQty == s'.cumQty && s.leavesQty == s'.leavesQty && s.avgPx == s'.avgPx &&
    s.reason == s'.reason && s.updatedAt == s'.updatedAt
  }

  predicate Advances(l: Life, l': Life) {
    && (l.rec.Some? ==>
          && l'.rec.Some?
          && l.rec.value.status.cumQty <= l'.rec.value.status.cumQty
          && l.rec.value.seen <= l'.rec.value.seen
          && (l'.rec.value.adopted ==> l.rec.value.adopted)
          && (l.rec.value.status.Terminal() ==> SameReport(l.rec.value.status, l'.rec.value.status)))
    && l.timeouts <= l'.timeouts
  }

  lemma StepAdvances(timeout: int, id: OrderId, l: Life, e: Event)
    requires Healthy(id, l) && Sound(e)
    ensures Advances(l, Step(timeout, id, l, e))
  {
  }

  /** No event forgets an order, lowers its filled quantity, un-registers it, or moves it
      once it has ended. */
  lemma {:induction false} FilledNeverFallsAndEndedNeverMoves(timeout: int, id: OrderId, events: seq<Event>,
                                                              later: seq<Event>)
    requires AllSound(events) && AllSound(later)
    ensures Advances(Run(timeout, id, UNKNOWN, events), Run(timeout, id, UNKNOWN, events + later))
  {
    if later == [] {
      assert events + later == events;
    } else {
      var n := |later| - 1;
      assert events + later == (events + later[..n]) + [later[n]];
      FilledNeverFallsAndEndedNeverMoves(timeout, id, events, later[..n]);
      var mid := Run(timeout, id, UNKNOWN, events + later[..n]);
      EveryRunIsHealthy(timeout, id, events + later[..n]);
      StepAdvances(timeout, id, mid, later[n]);
      RunAppend(timeout, id, UNKNOWN, events + later[..n], [later[n]]);
      RunOne(timeout, id, mid, later[n]);
    }
  }

  /** A record no report has moved yet shows nothing filled, whatever the venue sent. */
  lemma {:induction false} PendingIsUnfilled(timeout: int, id: OrderId, events: seq<Event>)
    ensures var l := Run(timeout, id, UNKNOWN, events);
            l.rec.Some? && l.rec.value.status.state.Pending? ==> l.rec.value.status.cumQty == 0.0
  {
    if events != [] {
      PendingIsUnfilled(timeout, id, events[..|events| - 1]);
    }
  }

  /** With no hypothesis at all on the reports, the filled quantity falls at exactly one
      place: a pending order acknowledged by a NEW that states a negative CumQty. */
  lemma FilledFallsExactlyOnANegativeAcknowledgement(timeout: int, id: OrderId, events: seq<Event>, r: ExecReport)
    requires r.clOrdID == id && Run(timeout, id, UNKNOWN, events).rec.Some?
    ensures var l := Run(timeout, id, UNKNOWN, events);
            var l' := Step(timeout, id, l, Report(r));
            l'.rec.Some? &&
            (l'.rec.value.status.cumQty < l.rec.value.status.cumQty <==>
             r.state.New? && r.cumQty < 0.0 && l.rec.value.status.state.Pending?
               && !(r.execID != "" && r.execID in l.rec.value.seen))
  {
    PendingIsUnfilled(timeout, id, events);
    OnlyAnAcknowledgementLowersTheFill(Run(timeout, id, UNKNOWN, events).rec.value, r);
  }

  lemma OnlyAnAcknowledgementLowersTheFill(t: Tracked, r: ExecReport)
    ensures ApplyKnown(t, r).0.status.cumQty < t.status.cumQty <==>
            r.state.New? && r.cumQty < t.status.cumQty && t.status.state.Pending?
              && !(r.execID != "" && r.execID in t.seen)
  {
  }

  /** The input on which it does fall. */
  lemma ANegativeAcknowledgementLowersTheFill(timeout: int)
    ensures var r := ExecReport("A", "", "x1", New, -1.0, 5.0, 0.0, "", 7, None);
            var events := [Track(Order("A", "perp", 4.0), Ack("", 0)), Report(r)];
            Run(timeout, "A", UNKNOWN, events).rec.value.status.cumQty == -1.0
  {
    var t := Track(Order("A", "perp", 4.0), Ack("", 0));
    var r := Report(ExecReport("A", "", "x1", New, -1.0, 5.0, 0.0, "", 7, None));
    assert [t, r][..1] == [t];
    RunOne(timeout, "A", UNKNOWN, t);
  }

  // ---------------------------------------------------------------------------
  // Replay
  // ---------------------------------------------------------------------------

  /** Delivering `r` now would be refused. */
  predicate Absorbed(timeout: int, rec: Option<Tracked>, r: ExecReport) {
    var o := OutcomeFor(timeout, rec, r);
    !o.Applied? && !o.Adopted?
  }

  lemma AbsorbedIsInvisible(timeout: int, id: OrderId, l: Life, r: ExecReport)
    requires Absorbed(timeout, l.rec, r)
    ensures Step(timeout, id, l, Report(r)) == l
  {
  }

  lemma DeliveredIsAbsorbed(timeout: int, l: Life, r: ExecReport)
    ensures Absorbed(timeout, StepReport(timeout, l, r).rec, r)
  {
  }

  lemma AbsorbedStaysAbsorbed(timeout: int, id: OrderId, l: Life, e: Event, r: ExecReport)
    requires Healthy(id, l) && Sound(e) && r.cumQty >= 0.0 && r.clOrdID == id
    requires Absorbed(timeout, l.rec, r)
    ensures Absorbed(timeout, Step(timeout, id, l, e).rec, r)
  {
  }

  /** The same message received again: only the two instants may differ. */
  predicate Copy(r: ExecReport, r': ExecReport) {
    r.(at := 0, receivedAt := None) == r'.(at := 0, receivedAt := None)
  }

  lemma CopiesAreJudgedAlike(timeout: int, rec: Option<Tracked>, r: ExecReport, r': ExecReport)
    requires Copy(r, r')
    ensures OutcomeFor(timeout, rec, r) == OutcomeFor(timeout, rec, r')
  {
  }

  /** Every report delivered so far, applied or refused, with or without an ExecID and
      across any registrations, is refused from then on. */
  lemma {:induction false} EarlierReportsAreAbsorbed(timeout: int, events: seq<Event>, k: nat)
    requires AllSound(events) && k < |events| && events[k].Report?
    ensures var r := events[k].r; Absorbed(timeout, Run(timeout, r.clOrdID, UNKNOWN, events).rec, r)
  {
    var r, n := events[k].r, |events| - 1;
    var l := Run(timeout, r.clOrdID, UNKNOWN, events[..n]);
    if k == n {
      DeliveredIsAbsorbed(timeout, l, r);
    } else {
      EarlierReportsAreAbsorbed(timeout, events[..n], k);
      EveryRunIsHealthy(timeout, r.clOrdID, events[..n]);
      AbsorbedStaysAbsorbed(timeout, r.clOrdID, l, events[n], r);
    }
  }

  /** `e` is a report some earlier event already carried. */
  ghost predicate Redelivers(events: seq<Event>, e: Event) {
    e.Report? && exists k :: 0 <= k < |events| && events[k].Report? && Copy(events[k].r, e.r)
  }

  lemma ARedeliveryIsInvisible(timeout: int, id: OrderId, events: seq<Event>, e: Event)
    requires AllSound(events) && Redelivers(events, e)
    ensures var l := Run(timeout, id, UNKNOWN, events); Step(timeout, id, l, e) == l
  {
    var k :| 0 <= k < |events| && events[k].Report? && Copy(events[k].r, e.r);
    var l := Run(timeout, e.r.clOrdID, UNKNOWN, events);
    EarlierReportsAreAbsorbed(timeout, events, k);
    CopiesAreJudgedAlike(timeout, l.rec, events[k].r, e.r);
    AbsorbedIsInvisible(timeout, e.r.clOrdID, l, e.r);
  }

  /** A whole resend of any earlier reports, in any order and number, leaves every order
      and everything measured about it exactly as it was. */
  lemma {:induction false} AResendChangesNoOrder(timeout: int, id: OrderId, events: seq<Event>, replay: seq<Event>)
    requires AllSound(events) && forall j :: 0 <= j < |replay| ==> Redelivers(events, replay[j])
    ensures Run(timeout, id, UNKNOWN, events + replay) == Run(timeout, id, UNKNOWN, events)
  {
    if replay == [] {
      assert events + replay == events;
    } else {
      var n := |replay| - 1;
      assert (events + replay)[..|events + replay| - 1] == events + replay[..n];
      AResendChangesNoOrder(timeout, id, events, replay[..n]);
      assert Redelivers(events, replay[n]);
      ARedeliveryIsInvisible(timeout, id, events, replay[n]);
    }
  }

  /** A redelivery anywhere in a run could be struck out of it. */
  lemma ARedeliveryCanBeStruckOut(timeout: int, id: OrderId, before: seq<Event>, e: Event, after: seq<Event>)
    requires AllSound(before) && Redelivers(before, e)
    ensures Run(timeout, id, UNKNOWN, before + [e] + after) == Run(timeout, id, UNKNOWN, before + after)
  {
    AResendChangesNoOrder(timeout, id, before, [e]);
    RunAppend(timeout, id, UNKNOWN, before + [e], after);
    RunAppend(timeout, id, UNKNOWN, before, after);
  }

  // ---------------------------------------------------------------------------
  // Registration time
  // ---------------------------------------------------------------------------

  /** Equal but for the timeout flag an observation sets. */
  predicate Alike(l: Life, l': Life) {
    && l.roundtrips == l'.roundtrips
    && (l.rec.Some? <==> l'.rec.Some?)
    && (l.rec.Some? ==> l.rec.value.(ackTimedOut := false) == l'.rec.value.(ackTimedOut := false))
  }

  /** An event that does not register `id`, and reports no more filled than was ordered. */
  predicate Within(id: OrderId, qty: real, e: Event) {
    match e
    case Report(r) => r.clOrdID == id ==> 0.0 <= r.cumQty <= qty
    case Track(o, _) => o.clOrdID != id
    case Observe(_) => true
  }

  predicate AllWithin(id: OrderId, qty: real, events: seq<Event>) {
    forall i :: 0 <= i < |events| ==> Within(id, qty, events[i])
  }

  predicate Unregistered(id: OrderId, l: Life) {
    Healthy(id, l) && (l.rec.Some? ==> l.rec.value.adopted)
  }

  lemma AlikeStep(timeout: int, id: OrderId, l: Life, l': Life, e: Event)
    requires Alike(l, l')
    ensures Alike(Step(timeout, id, l, e), Step(timeout, id, l', e))
  {
  }

  lemma {:induction false} AlikeRun(timeout: int, id: OrderId, l: Life, l': Life, events: seq<Event>)
    requires Alike(l, l')
    ensures Alike(Run(timeout, id, l, events), Run(timeout, id, l', events))
  {
    if events != [] {
      var n := |events| - 1;
      AlikeRun(timeout, id, l, l', events[..n]);
      AlikeStep(timeout, id, Run(timeout, id, l, events[..n]), Run(timeout, id, l', events[..n]), events[n]);
    }
  }

  lemma UnregisteredStep(timeout: int, id: OrderId, qty: real, l: Life, e: Event)
    requires Unregistered(id, l) && Within(id, qty, e)
    ensures Unregistered(id, Step(timeout, id, l, e))
  {
  }

  /** Registering and then hearing an event is hearing it and then registering. */
  lemma RegistrationCommutes(timeout: int, l: Life, o: Order, ack: Ack, e: Event)
    requires Unregistered(o.clOrdID, l) && Within(o.clOrdID, o.qty, e)
    ensures Alike(StepTrack(timeout, Step(timeout, o.clOrdID, l, e), o, ack),
                  Step(timeout, o.clOrdID, StepTrack(timeout, l, o, ack), e))
  {
    if e.Report? && e.r.clOrdID == o.clOrdID {
      ReportCommutes(timeout, l, o, ack, e.r);
    }
  }

  lemma ReportCommutes(timeout: int, l: Life, o: Order, ack: Ack, r: ExecReport)
    requires Unregistered(o.clOrdID, l) && r.clOrdID == o.clOrdID && 0.0 <= r.cumQty <= o.qty
    ensures Alike(StepTrack(timeout, StepReport(timeout, l, r), o, ack),
                  StepReport(timeout, StepTrack(timeout, l, o, ack), r))
  {
    match l.rec
    case None => AdoptingCommutes(timeout, o, ack, r);
    case Some(t) => CompletingCommutes(timeout, t, o, ack, r);
  }

  /** Knowing the ordered quantity changes no judgement the reports respect. */
  lemma CompletingCommutes(timeout: int, t: Tracked, o: Order, ack: Ack, r: ExecReport)
    requires t.adopted && t.status.qty == 0.0 && !t.status.state.Pending? && 0.0 <= r.cumQty <= o.qty
    ensures var (a, outcome) := ApplyKnown(t, r);
            ApplyKnown(Completed(timeout, t, o, ack), r) == (Completed(timeout, a, o, ack), outcome)
            && !a.status.state.Pending?
  {
  }

  lemma AdoptingCommutes(timeout: int, o: Order, ack: Ack, r: ExecReport)
    requires r.clOrdID == o.clOrdID && 0.0 <= r.cumQty <= o.qty
    ensures var (a, outcome) := ApplyKnown(Adoptee(timeout, r), r);
            var (b, outcome') := ApplyKnown(Registered(timeout, o, ack), r);
            outcome == outcome' && (outcome.Applied? ==> b == Completed(timeout, a, o, ack) && a.adopted)
  {
  }

  lemma {:induction false} RegisteringFirst(timeout: int, o: Order, ack: Ack, events: seq<Event>)
    requires AllWithin(o.clOrdID, o.qty, events)
    ensures Unregistered(o.clOrdID, Run(timeout, o.clOrdID, UNKNOWN, events))
    ensures Alike(StepTrack(timeout, Run(timeout, o.clOrdID, UNKNOWN, events), o, ack),
                  Run(timeout, o.clOrdID, StepTrack(timeout, UNKNOWN, o, ack), events))
  {
    if events != [] {
      var id, n := o.clOrdID, |events| - 1;
      RegisteringFirst(timeout, o, ack, events[..n]);
      var l := Run(timeout, id, UNKNOWN, events[..n]);
      UnregisteredStep(timeout, id, o.qty, l, events[n]);
      RegistrationCommutes(timeout, l, o, ack, events[n]);
      AlikeStep(timeout, id, StepTrack(timeout, l, o, ack),
                Run(timeout, id, StepTrack(timeout, UNKNOWN, o, ack), events[..n]), events[n]);
    }
  }

  /** Wherever in a stream the order is registered — before, between or after its reports —
      the record and the round trips observed for it come out the same. */
  lemma RegistrationTimeDoesNotMatter(timeout: int, o: Order, ack: Ack, events: seq<Event>, i: nat, j: nat)
    requires AllWithin(o.clOrdID, o.qty, events) && i <= |events| && j <= |events|
    ensures Alike(Run(timeout, o.clOrdID, UNKNOWN, events[..i] + [Track(o, ack)] + events[i..]),
                  Run(timeout, o.clOrdID, UNKNOWN, events[..j] + [Track(o, ack)] + events[j..]))
  {
    RegisteringAt(timeout, o, ack, events, i);
    RegisteringAt(timeout, o, ack, events, j);
  }

  lemma RegisteringAt(timeout: int, o: Order, ack: Ack, events: seq<Event>, i: nat)
    requires AllWithin(o.clOrdID, o.qty, events) && i <= |events|
    ensures Alike(Run(timeout, o.clOrdID, UNKNOWN, events[..i] + [Track(o, ack)] + events[i..]),
                  Run(timeout, o.clOrdID, StepTrack(timeout, UNKNOWN, o, ack), events))
  {
    var id, t := o.clOrdID, Track(o, ack);
    var first := StepTrack(timeout, UNKNOWN, o, ack);
    RunAppend(timeout, id, UNKNOWN, events[..i] + [t], events[i..]);
    RunAppend(timeout, id, UNKNOWN, events[..i], [t]);
    RunOne(timeout, id, Run(timeout, id, UNKNOWN, events[..i]), t);
    RegisteringFirst(timeout, o, ack, events[..i]);
    AlikeRun(timeout, id, StepTrack(timeout, Run(timeout, id, UNKNOWN, events[..i]), o, ack),
             Run(timeout, id, first, events[..i]), events[i..]);
    RunAppend(timeout, id, first, events[..i], events[i..]);
    assert events[..i] + events[i..] == events;
  }

  // ---------------------------------------------------------------------------
  // The tracker itself
  // ---------------------------------------------------------------------------

  /** What the theorems above say of a tracker after any sequence of calls. */
  lemma TrackerIsHealthy(tracker: Tracker, id: OrderId)
    requires tracker.Valid() && AllSound(tracker.history)
    ensures Healthy(id, tracker.LifeOf(id))
  {
    EveryRunIsHealthy(tracker.timeout, id, tracker.history);
  }

  lemma TrackerRefusesReplays(tracker: Tracker, r: ExecReport)
    requires tracker.Valid() && AllSound(tracker.history) && Redelivers(tracker.history, Report(r))
    ensures Absorbed(tracker.timeout, Lookup(tracker.orders, r.clOrdID), r)
  {
    var k :| 0 <= k < |tracker.history| && tracker.history[k].Report? && Copy(tracker.history[k].r, r);
    EarlierReportsAreAbsorbed(tracker.timeout, tracker.history, k);
    assert tracker.LifeOf(r.clOrdID).rec == Lookup(tracker.orders, r.clOrdID);
    CopiesAreJudgedAlike(tracker.timeout, Lookup(tracker.orders, r.clOrdID), tracker.history[k].r, r);
  }
}
