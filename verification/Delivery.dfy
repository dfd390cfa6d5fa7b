/** Delivering an order's reports to the tracker: whatever the order, the repetition and the
    gaps of delivery, the tracker shows the furthest report that has arrived. */
module Delivery {
  import opened Options
  import opened Orders
  import opened Tracking

  /** What one order's reports must look like for a tracker to sequence them by CumQty: each
      with its own ExecID, a first that acknowledges or refuses, partials that climb, and
      nothing after an end. */
  predicate Ladder(id: OrderId, qty: real, ms: seq<ExecReport>) {
    && (forall i :: 0 <= i < |ms| ==> Rung(id, qty, ms, i))
    && (forall i, j :: 0 <= i < j < |ms| ==> Climbs(ms[i], ms[j]))
  }

  predicate Rung(id: OrderId, qty: real, ms: seq<ExecReport>, i: nat)
    requires i < |ms|
  {
    var m := ms[i];
    && m.clOrdID == id && m.execID != "" && m.venueID != "" && m.venueID == ms[0].venueID
    && 0.0 <= m.cumQty <= qty
    && (if i == 0 then m.state.New? || m.state.Rejected? else m.state.Partial? || m.state.Filled? || m.state.Canceled?)
    && (m.state.Terminal() ==> m.leavesQty == 0.0)
  }

  predicate Climbs(p: ExecReport, r: ExecReport) {
    && !p.state.Terminal()
    && p.execID != r.execID
    && p.cumQty <= r.cumQty
    && (r.state.Partial? ==> p.cumQty < r.cumQty)
  }

  /** One thing that happens to the tracker: the i-th report arrives at some instant, the
      submitter registers the order, an observation, or something about another order. */
  datatype Arrival =
    | Message(i: nat, receivedAt: Option<int>)
    | Registration(o: Order, ack: Ack)
    | Observation(now: int)
    | Unrelated(e: Event)

  predicate Drawn(id: OrderId, qty: real, ms: seq<ExecReport>, a: Arrival) {
    match a
    case Message(i, _) => i < |ms|
    case Registration(o, _) => o.clOrdID == id && o.qty == qty
    case Observation(_) => true
    case Unrelated(e) => match e
      case Report(r) => r.clOrdID != id
      case Track(o, _) => o.clOrdID != id
      case Observe(_) => false
  }

  predicate AllDrawn(id: OrderId, qty: real, ms: seq<ExecReport>, arrivals: seq<Arrival>) {
    forall k :: 0 <= k < |arrivals| ==> Drawn(id, qty, ms, arrivals[k])
  }

  function ToEvent(ms: seq<ExecReport>, a: Arrival): Event
    requires a.Message? ==> a.i < |ms|
  {
    match a
    case Message(i, receivedAt) => Report(ms[i].(receivedAt := receivedAt))
    case Registration(o, ack) => Track(o, ack)
    case Observation(now) => Observe(now)
    case Unrelated(e) => e
  }

  /** The order's life after the arrivals. */
  function Arrive(timeout: int, id: OrderId, ms: seq<ExecReport>, arrivals: seq<Arrival>): Life
    requires forall k :: 0 <= k < |arrivals| && arrivals[k].Message? ==> arrivals[k].i < |ms|
  {
    if arrivals == [] then UNKNOWN
    else Step(timeout, id, Arrive(timeout, id, ms, arrivals[..|arrivals| - 1]), ToEvent(ms, arrivals[|arrivals| - 1]))
  }

  function EventsOf(ms: seq<ExecReport>, arrivals: seq<Arrival>): seq<Event>
    requires forall k :: 0 <= k < |arrivals| && arrivals[k].Message? ==> arrivals[k].i < |ms|
  {
    seq(|arrivals|, k requires 0 <= k < |arrivals| => ToEvent(ms, arrivals[k]))
  }

  /** Arrivals are a run of the tracker's events. */
  lemma {:induction false} ArrivalsAreARun(timeout: int, id: OrderId, ms: seq<ExecReport>, arrivals: seq<Arrival>)
    requires forall k :: 0 <= k < |arrivals| && arrivals[k].Message? ==> arrivals[k].i < |ms|
    ensures Arrive(timeout, id, ms, arrivals) == Run(timeout, id, UNKNOWN, EventsOf(ms, arrivals))
  {
    if arrivals != [] {
      var n := |arrivals| - 1;
      ArrivalsAreARun(timeout, id, ms, arrivals[..n]);
      assert EventsOf(ms, arrivals)[..n] == EventsOf(ms, arrivals[..n]);
    }
  }

  /** The furthest report that has arrived, or -1. */
  function Furthest(arrivals: seq<Arrival>): int {
    if arrivals == [] then -1
    else
      var k, a := Furthest(arrivals[..|arrivals| - 1]), arrivals[|arrivals| - 1];
      if a.Message? && a.i > k then a.i else k
  }

  /** The record shows report `k` of the order and nothing else of it: every field the venue
      writes is that report's. */
  predicate Shows(id: OrderId, qty: real, ms: seq<ExecReport>, k: int, rec: Option<Tracked>)
    requires -1 <= k < |ms|
  {
    match rec
    case None => k == -1
    case Some(t) =>
      var s := t.status;
      && s.clOrdID == id
      && (if t.adopted then s.qty == 0.0 && k >= 0 else s.qty == qty)
      && (forall x :: x in t.seen ==> exists j :: 0 <= j <= k && ms[j].execID == x)
      && if k == -1 then s.state.Pending? && s.cumQty == 0.0 && s.reason == ""
         else
           var m := ms[k];
           && m.execID in t.seen
           && s.state == m.state && s.cumQty == m.cumQty && s.leavesQty == m.leavesQty && s.avgPx == m.avgPx
           && s.updatedAt == m.at && s.venueID == m.venueID
           && s.reason == if m.state.Canceled? || m.state.Rejected? then m.reason else ""
  }

  /** A report beyond the furthest is applied and becomes it. */
  lemma AFurtherReportIsApplied(timeout: int, id: OrderId, qty: real, ms: seq<ExecReport>, k: int, l: Life, i: nat,
                                receivedAt: Option<int>)
    requires Ladder(id, qty, ms) && -1 <= k < i < |ms| && Shows(id, qty, ms, k, l.rec)
    ensures var r := ms[i].(receivedAt := receivedAt);
            && Shows(id, qty, ms, i, StepReport(timeout, l, r).rec)
            && (OutcomeFor(timeout, l.rec, r).Applied? || OutcomeFor(timeout, l.rec, r).Adopted?)
  {
    assert Rung(id, qty, ms, i);
    if k >= 0 {
      assert Rung(id, qty, ms, k) && Climbs(ms[k], ms[i]);
    } else if i > 0 {
      assert Rung(id, qty, ms, 0) && Climbs(ms[0], ms[i]);
    }
    var r := ms[i].(receivedAt := receivedAt);
    if l.rec.Some? {
      assert r.execID !in l.rec.value.seen by {
        assert forall j :: 0 <= j <= k ==> Climbs(ms[j], ms[i]);
      }
    }
    var t := if l.rec.Some? then l.rec.value else Adoptee(timeout, r);
    ApplyClimb(t, r);
    var t' := StepReport(timeout, l, r).rec.value;
    forall x | x in t'.seen
      ensures exists j :: 0 <= j <= i && ms[j].execID == x
    {
      if x == r.execID {
        assert ms[i].execID == x;
      } else {
        var j :| 0 <= j <= k && ms[j].execID == x;
      }
    }
  }

  /** The rule table applies a report that climbs. */
  lemma ApplyClimb(t: Tracked, r: ExecReport)
    requires r.execID != "" && r.execID !in t.seen && !t.status.Terminal()
    requires t.status.cumQty <= r.cumQty && (r.state.Partial? ==> t.status.cumQty < r.cumQty)
    requires t.status.qty == 0.0 || r.cumQty <= t.status.qty
    requires r.state.New? ==> t.status.state.Pending?
    requires r.state.New? || r.state.Partial? || r.state.Terminal()
    requires r.state.Terminal() ==> r.leavesQty == 0.0
    ensures var (t', outcome) := ApplyKnown(t, r);
            outcome.Applied? && t'.seen == t.seen + {r.execID} && t'.adopted == t.adopted &&
            t'.status == if r.state.Canceled? || r.state.Rejected? then Ended(t.status, r) else Progressed(t.status, r)
  {
  }

  /** A report at or before the furthest changes nothing, and is never called invalid. */
  lemma AnEarlierReportIsPassedOver(timeout: int, id: OrderId, qty: real, ms: seq<ExecReport>, k: int, l: Life, i: nat,
                                    receivedAt: Option<int>)
    requires Ladder(id, qty, ms) && 0 <= i <= k < |ms| && Shows(id, qty, ms, k, l.rec)
    ensures var r := ms[i].(receivedAt := receivedAt);
            && StepReport(timeout, l, r) == l
            && (OutcomeFor(timeout, l.rec, r).Duplicate? || OutcomeFor(timeout, l.rec, r).Stale?
                || OutcomeFor(timeout, l.rec, r).Late?)
  {
    assert Rung(id, qty, ms, i) && Rung(id, qty, ms, k);
    if i < k {
      assert Climbs(ms[i], ms[k]);
    }
  }

  lemma AnArrivalKeepsShowing(timeout: int, id: OrderId, qty: real, ms: seq<ExecReport>, k: int, l: Life, a: Arrival)
    requires Ladder(id, qty, ms) && -1 <= k < |ms| && Shows(id, qty, ms, k, l.rec) && Drawn(id, qty, ms, a)
    ensures Shows(id, qty, ms, if a.Message? && a.i > k then a.i else k, Step(timeout, id, l, ToEvent(ms, a)).rec)
  {
    match a
    case Message(i, receivedAt) =>
      assert Rung(id, qty, ms, i);
      if i > k {
        AFurtherReportIsApplied(timeout, id, qty, ms, k, l, i, receivedAt);
      } else {
        AnEarlierReportIsPassedOver(timeout, id, qty, ms, k, l, i, receivedAt);
      }
    case Registration(o, ack) =>
      if k >= 0 {
        assert Rung(id, qty, ms, k);
      }
    case Observation(now) =>
    case Unrelated(e) =>
  }

  /** After any arrivals the tracker shows the furthest report that has arrived: what it
      believes is a function of which reports came, never of how they came. */
  lemma {:induction false} TheTrackerShowsTheFurthestReport(timeout: int, id: OrderId, qty: real, ms: seq<ExecReport>,
                                                            arrivals: seq<Arrival>)
    requires Ladder(id, qty, ms) && AllDrawn(id, qty, ms, arrivals)
    ensures -1 <= Furthest(arrivals) < |ms|
    ensures Shows(id, qty, ms, Furthest(arrivals), Arrive(timeout, id, ms, arrivals).rec)
  {
    if arrivals != [] {
      var n := |arrivals| - 1;
      TheTrackerShowsTheFurthestReport(timeout, id, qty, ms, arrivals[..n]);
      AnArrivalKeepsShowing(timeout, id, qty, ms, Furthest(arrivals[..n]), Arrive(timeout, id, ms, arrivals[..n]),
                            arrivals[n]);
    }
  }

  /** No report of the order is ever judged invalid, whenever it arrives. */
  lemma NoReportIsInvalid(timeout: int, id: OrderId, qty: real, ms: seq<ExecReport>, arrivals: seq<Arrival>, i: nat,
                          receivedAt: Option<int>)
    requires Ladder(id, qty, ms) && AllDrawn(id, qty, ms, arrivals) && i < |ms|
    ensures !OutcomeFor(timeout, Arrive(timeout, id, ms, arrivals).rec, ms[i].(receivedAt := receivedAt)).Invalid?
  {
    TheTrackerShowsTheFurthestReport(timeout, id, qty, ms, arrivals);
    var k, l := Furthest(arrivals), Arrive(timeout, id, ms, arrivals);
    if i > k {
      AFurtherReportIsApplied(timeout, id, qty, ms, k, l, i, receivedAt);
    } else {
      AnEarlierReportIsPassedOver(timeout, id, qty, ms, k, l, i, receivedAt);
    }
  }
}
