/** The order-state machine of internal/exec/statemachine.go: the rule table as functions
    of a status and a report, the life of one order under a run of events, and the
    tracker that holds every order. */
module Tracking {
  import opened Options
  import opened Orders

  datatype Outcome = Applied | Adopted | Duplicate | Stale | Late | Invalid

  datatype Status = Status(
    clOrdID: OrderId,
    venueID: string,
    qty: real,
    state: ExecState,
    cumQty: real,
    leavesQty: real,
    avgPx: real,
    reason: string,
    adopted: bool,
    submittedAt: int,
    updatedAt: int,
    deadline: int)
  {
    predicate Terminal() { state.Terminal() }

    predicate Overdue(now: int) { state.Pending? && now > deadline }
  }

  datatype Tracked = Tracked(
    status: Status,
    adopted: bool,
    seen: set<string>,
    leg: string,
    ackTimedOut: bool)

  // ---------------------------------------------------------------------------
  // The rule table
  // ---------------------------------------------------------------------------

  function Transition(cur: Status, r: ExecReport): (Status, Outcome) {
    if cur.Terminal() then
      if r.state == cur.state && r.cumQty == cur.cumQty then (cur, Duplicate) else (cur, Late)
    else
      match r.state
      case Rejected | Canceled => ClosedOut(cur, r)
      case New => Acknowledged(cur, r)
      case Partial | Filled => Fill(cur, r)
      case Pending | Unruled(_) => (cur, Invalid)
  }

  predicate Overfilled(cur: Status, r: ExecReport) {
    cur.qty != 0.0 && r.cumQty > cur.qty
  }

  function ClosedOut(cur: Status, r: ExecReport): (Status, Outcome) {
    if r.cumQty < cur.cumQty then (cur, Invalid)
    else if Overfilled(cur, r) then (cur, Invalid)
    else (Ended(cur, r), Applied)
  }

  function Acknowledged(cur: Status, r: ExecReport): (Status, Outcome) {
    match cur.state
    case Pending => (Progressed(cur, r), Applied)
    case New => (cur, Duplicate)
    case _ => (cur, Stale)
  }

  function Fill(cur: Status, r: ExecReport): (Status, Outcome) {
    if r.cumQty < cur.cumQty then (cur, Stale)
    else if r.cumQty == cur.cumQty && r.state == cur.state then (cur, Duplicate)
    else if r.cumQty == cur.cumQty && r.state.Partial? then (cur, Invalid)
    else if Overfilled(cur, r) then (cur, Invalid)
    else if r.state.Filled? && r.leavesQty != 0.0 then (cur, Invalid)
    else (Progressed(cur, r), Applied)
  }

  function Progressed(cur: Status, r: ExecReport): Status {
    cur.(state := r.state, cumQty := r.cumQty, leavesQty := r.leavesQty, avgPx := r.avgPx,
         updatedAt := r.at, venueID := if r.venueID != "" then r.venueID else cur.venueID)
  }

  function Ended(cur: Status, r: ExecReport): Status {
    Progressed(cur, r).(leavesQty := 0.0, reason := r.reason)
  }

  // ---------------------------------------------------------------------------
  // One order's record
  // ---------------------------------------------------------------------------

  function Adoptee(timeout: int, r: ExecReport): Tracked {
    Tracked(Status(r.clOrdID, "", 0.0, Pending, 0.0, 0.0, 0.0, "", true, r.at, r.at, r.at + timeout),
            true, {}, "", false)
  }

  function Registered(timeout: int, o: Order, ack: Ack): Tracked {
    Tracked(Status(o.clOrdID, ack.venueID, o.qty, Pending, 0.0, o.qty, 0.0, "", false, ack.at, ack.at,
                   ack.at + timeout),
            false, {}, o.leg, false)
  }

  function Completed(timeout: int, t: Tracked, o: Order, ack: Ack): Tracked {
    var s := t.status;
    t.(adopted := false,
       leg := o.leg,
       status := s.(adopted := false, qty := o.qty, submittedAt := ack.at, deadline := ack.at + timeout,
                    venueID := if s.venueID == "" then ack.venueID else s.venueID,
                    leavesQty := if s.state.Pending? then o.qty else s.leavesQty))
  }

  function ApplyKnown(t: Tracked, r: ExecReport): (Tracked, Outcome) {
    if r.execID != "" && r.execID in t.seen then (t, Duplicate)
    else
      var (next, outcome) := Transition(t.status, r);
      if !outcome.Applied? then (t, outcome)
      else (t.(status := next, seen := if r.execID != "" then t.seen + {r.execID} else t.seen), Applied)
  }

  function ObserveRecord(t: Tracked, now: int): Tracked {
    if !t.status.Terminal() && t.status.Overdue(now) then t.(ackTimedOut := true) else t
  }

  // ---------------------------------------------------------------------------
  // One order's life: its record and what the metrics recorded about it
  // ---------------------------------------------------------------------------

  /** What happened to one order: its record, if there is one, every round trip observed
      for it, every acknowledgement latency, and how often its deadline was counted missed. */
  datatype Life = Life(rec: Option<Tracked>, roundtrips: seq<int>, acks: seq<int>, timeouts: nat)

  const UNKNOWN := Life(None, [], [], 0)

  datatype Event = Report(r: ExecReport) | Track(o: Order, ack: Ack) | Observe(now: int)

  /** The outcome of delivering a report to an order, as the metrics count it. */
  function OutcomeFor(timeout: int, rec: Option<Tracked>, r: ExecReport): Outcome {
    match rec
    case Some(t) => ApplyKnown(t, r).1
    case None => var o := ApplyKnown(Adoptee(timeout, r), r).1; if o.Applied? then Adopted else o
  }

  function StepReport(timeout: int, l: Life, r: ExecReport): Life {
    var before := if l.rec.Some? then l.rec.value else Adoptee(timeout, r);
    var (after, outcome) := ApplyKnown(before, r);
    if !outcome.Applied? then l
    else
      var l' := l.(rec := Some(after));
      if after.adopted then l'
      else
        var s := after.status;
        var trip := if s.Terminal() then [s.updatedAt - s.submittedAt] else [];
        var ack := if before.status.state.Pending? && !s.state.Pending? && r.receivedAt.Some?
                   then [r.receivedAt.value - s.submittedAt] else [];
        l'.(roundtrips := l.roundtrips + trip, acks := l.acks + ack)
  }

  function StepTrack(timeout: int, l: Life, o: Order, ack: Ack): Life {
    match l.rec
    case None => l.(rec := Some(Registered(timeout, o, ack)))
    case Some(t) =>
      if !t.adopted then l
      else
        var done := Completed(timeout, t, o, ack);
        var s := done.status;
        l.(rec := Some(done),
           roundtrips := l.roundtrips + if s.Terminal() then [s.updatedAt - s.submittedAt] else [])
  }

  function StepObserve(l: Life, now: int): Life {
    match l.rec
    case None => l
    case Some(t) =>
      var t' := ObserveRecord(t, now);
      l.(rec := Some(t'), timeouts := l.timeouts + if t'.ackTimedOut && !t.ackTimedOut then 1 else 0)
  }

  /** What one event does to the order filed under `id`. */
  function Step(timeout: int, id: OrderId, l: Life, e: Event): Life {
    match e
    case Report(r) => if r.clOrdID == id then StepReport(timeout, l, r) else l
    case Track(o, ack) => if o.clOrdID == id then StepTrack(timeout, l, o, ack) else l
    case Observe(now) => StepObserve(l, now)
  }

  /** The life of `id` after a run of events. */
  function Run(timeout: int, id: OrderId, l: Life, events: seq<Event>): Life {
    if events == [] then l
    else Step(timeout, id, Run(timeout, id, l, events[..|events| - 1]), events[|events| - 1])
  }

  // ---------------------------------------------------------------------------
  // The tracker
  // ---------------------------------------------------------------------------

  ghost function OpenOrders(orders: map<OrderId, Tracked>): set<OrderId> {
    set id | id in orders && !orders[id].status.Terminal()
  }

  ghost function OverdueOrders(orders: map<OrderId, Tracked>, now: int): set<OrderId> {
    set id | id in orders && orders[id].status.Overdue(now)
  }

  ghost function OpenAmong(orders: map<OrderId, Tracked>, ids: set<OrderId>): set<OrderId> {
    set id | id in ids && id in orders && !orders[id].status.Terminal()
  }

  ghost function OverdueAmong(orders: map<OrderId, Tracked>, ids: set<OrderId>, now: int): set<OrderId> {
    set id | id in ids && id in orders && orders[id].status.Overdue(now)
  }

  /** An observation of this order counts its missed deadline, for the first time. */
  predicate NewlyLate(t: Tracked, now: int) {
    t.status.Overdue(now) && !t.ackTimedOut
  }

  ghost function ObserveAll(orders: map<OrderId, Tracked>, ids: set<OrderId>, now: int): map<OrderId, Tracked> {
    map id | id in orders :: if id in ids then ObserveRecord(orders[id], now) else orders[id]
  }

  lemma AmongAll(orders: map<OrderId, Tracked>, now: int)
    ensures OpenAmong(orders, orders.Keys) == OpenOrders(orders)
    ensures OverdueAmong(orders, orders.Keys, now) == OverdueOrders(orders, now)
  {
  }

  lemma CountOneOpen(orders: map<OrderId, Tracked>, ids: set<OrderId>, id: OrderId)
    requires id in orders && id !in ids
    ensures |OpenAmong(orders, ids + {id})| == |OpenAmong(orders, ids)| + if orders[id].status.Terminal() then 0 else 1
  {
    assert OpenAmong(orders, ids + {id}) == OpenAmong(orders, ids) + if orders[id].status.Terminal() then {} else {id};
  }

  lemma CountOneOverdue(orders: map<OrderId, Tracked>, ids: set<OrderId>, id: OrderId, now: int)
    requires id in orders && id !in ids
    ensures |OverdueAmong(orders, ids + {id}, now)| == |OverdueAmong(orders, ids, now)|
            + if orders[id].status.Overdue(now) then 1 else 0
  {
    assert OverdueAmong(orders, ids + {id}, now)
        == OverdueAmong(orders, ids, now) + if orders[id].status.Overdue(now) then {id} else {};
  }

  /** The loop of an observation once it has seen `ids`. */
  ghost predicate Halfway(was: map<OrderId, Tracked>, ids: set<OrderId>, now: int,
                          orders: map<OrderId, Tracked>, open: int, overdue: int) {
    && orders == ObserveAll(was, ids, now)
    && open == |OpenAmong(was, ids)|
    && overdue == |OverdueAmong(was, ids, now)|
  }

  function TallyOne(timeouts: map<OrderId, nat>, id: OrderId, t: Tracked, now: int): map<OrderId, nat> {
    if NewlyLate(t, now) then timeouts[id := Count(timeouts, id) + 1] else timeouts
  }

  /** Exactly the orders newly late among `ids` have been counted, once each. */
  ghost predicate Tallied(before: map<OrderId, nat>, was: map<OrderId, Tracked>, ids: set<OrderId>, now: int,
                          after: map<OrderId, nat>) {
    forall id ::
      Count(after, id) == Count(before, id) + if id in ids && id in was && NewlyLate(was[id], now) then 1 else 0
  }

  lemma TallyOneMore(before: map<OrderId, nat>, was: map<OrderId, Tracked>, ids: set<OrderId>, id: OrderId, now: int,
                     after: map<OrderId, nat>)
    requires Tallied(before, was, ids, now, after) && id in was && id !in ids
    ensures Tallied(before, was, ids + {id}, now, TallyOne(after, id, was[id], now))
  {
  }

  lemma OneMore(was: map<OrderId, Tracked>, ids: set<OrderId>, id: OrderId, now: int,
                orders: map<OrderId, Tracked>, open: int, overdue: int)
    requires Halfway(was, ids, now, orders, open, overdue) && id in was && id !in ids
    ensures id in orders && orders[id] == was[id]
    ensures Halfway(was, ids + {id}, now, orders[id := ObserveRecord(was[id], now)],
                    open + (if was[id].status.Terminal() then 0 else 1),
                    overdue + if was[id].status.Overdue(now) then 1 else 0)
  {
    CountOneOpen(was, ids, id);
    CountOneOverdue(was, ids, id, now);
  }

  /** Marking deadlines as counted moves no order. */
  lemma SameStanding(was: map<OrderId, Tracked>, orders: map<OrderId, Tracked>, now: int)
    requires orders == ObserveAll(was, was.Keys, now)
    ensures OpenOrders(orders) == OpenOrders(was) && OverdueOrders(orders, now) == OverdueOrders(was, now)
  {
  }

  function Lookup<V>(m: map<OrderId, V>, id: OrderId): Option<V> {
    if id in m then Some(m[id]) else None
  }

  function Count(m: map<OrderId, nat>, id: OrderId): nat {
    if id in m then m[id] else 0
  }

  function Observed(m: map<OrderId, seq<int>>, id: OrderId): seq<int> {
    if id in m then m[id] else []
  }

  class Tracker {
    const timeout: int
    var orders: map<OrderId, Tracked>
    var openGauge: nat
    var overdueGauge: nat

    // What the histograms and the counter have been told, by order.
    ghost var roundtrips: map<OrderId, seq<int>>
    ghost var acks: map<OrderId, seq<int>>
    ghost var timeouts: map<OrderId, nat>
    // Every call so far, in order.
    ghost var history: seq<Event>

    ghost function LifeOf(id: OrderId): Life
      reads this
    {
      Life(Lookup(orders, id), Observed(roundtrips, id), Observed(acks, id), Count(timeouts, id))
    }

    /** The open gauge is exact, and every order is where its own history puts it. */
    ghost predicate Valid()
      reads this
    {
      && openGauge == |OpenOrders(orders)|
      && forall id :: LifeOf(id) == Run(timeout, id, UNKNOWN, history)
    }

    constructor (timeout: int)
      ensures Valid() && history == [] && this.timeout == timeout && orders == map[]
    {
      this.timeout := timeout;
      orders, openGauge, overdueGauge := map[], 0, 0;
      roundtrips, acks, timeouts, history := map[], map[], map[], [];
      new;
      assert OpenOrders(orders) == {};
    }

    method Track(o: Order, ack: Ack) returns (ok: bool)
      requires Valid()
      modifies this
      ensures Valid() && history == old(history) + [Event.Track(o, ack)]
      ensures ok == (o.clOrdID !in old(orders) || old(orders)[o.clOrdID].adopted)
      ensures !ok ==> orders == old(orders)
    {
      ghost var event := Event.Track(o, ack);
      if o.clOrdID in orders {
        if !orders[o.clOrdID].adopted {
          Remember(event);
          return false;
        }
        Complete(o, ack);
        assert OpenOrders(orders) == OpenOrders(old(orders));
      } else {
        orders := orders[o.clOrdID := Registered(timeout, o, ack)];
        openGauge := CountOpen();
      }
      Remember(event);
      return true;
    }

    /** Gives an adopted record its order's terms and times, when the order is registered after
        all. */
    method Complete(o: Order, ack: Ack)
      requires o.clOrdID in orders && orders[o.clOrdID].adopted
      modifies this`orders, this`roundtrips
      ensures orders == old(orders)[o.clOrdID := Completed(timeout, old(orders)[o.clOrdID], o, ack)]
      ensures forall id :: Observed(roundtrips, id) ==
                (if id == o.clOrdID then StepTrack(timeout, old(LifeOf(o.clOrdID)), o, ack).roundtrips
                 else old(Observed(roundtrips, id)))
    {
      var t := orders[o.clOrdID];
      var s := t.status.(adopted := false, qty := o.qty, submittedAt := ack.at, deadline := ack.at + timeout);
      if s.venueID == "" {
        s := s.(venueID := ack.venueID);
      }
      if s.state.Pending? {
        s := s.(leavesQty := o.qty);
      }
      orders := orders[o.clOrdID := t.(adopted := false, leg := o.leg, status := s)];
      if s.Terminal() {
        roundtrips := roundtrips[o.clOrdID := Observed(roundtrips, o.clOrdID) + [s.updatedAt - s.submittedAt]];
      }
    }

    method Apply(r: ExecReport) returns (status: Status, outcome: Outcome)
      requires Valid()
      modifies this
      ensures Valid() && history == old(history) + [Report(r)]
      ensures outcome == OutcomeFor(timeout, old(Lookup(orders, r.clOrdID)), r)
      ensures status == if r.clOrdID in orders then orders[r.clOrdID].status else Adoptee(timeout, r).status
    {
      status, outcome := Deliver(r);
      openGauge := CountOpen();
      Remember(Report(r));
    }

    /** Adopts an unknown order, judges the report, and undoes the adoption when the
        report that caused it was refused. */
    method Deliver(r: ExecReport) returns (status: Status, outcome: Outcome)
      modifies this`orders, this`roundtrips, this`acks
      ensures forall id :: LifeOf(id) == Step(timeout, id, old(LifeOf(id)), Report(r))
      ensures outcome == OutcomeFor(timeout, old(Lookup(orders, r.clOrdID)), r)
      ensures status == if r.clOrdID in orders then orders[r.clOrdID].status else Adoptee(timeout, r).status
    {
      var known := r.clOrdID in orders;
      if !known {
        orders := orders[r.clOrdID := Adoptee(timeout, r)];
      }
      outcome := ApplyTo(r);
      status := orders[r.clOrdID].status;
      if !known {
        if outcome.Applied? {
          outcome := Adopted;
        } else {
          orders := map id | id in orders && id != r.clOrdID :: orders[id];
          assert orders == old(orders);
        }
      }
    }

    /** Sequences one report into the record it describes. */
    method ApplyTo(r: ExecReport) returns (outcome: Outcome)
      requires r.clOrdID in orders
      modifies this`orders, this`roundtrips, this`acks
      ensures outcome == ApplyKnown(old(orders)[r.clOrdID], r).1
      ensures orders == old(orders)[r.clOrdID := ApplyKnown(old(orders)[r.clOrdID], r).0]
      ensures forall id :: id != r.clOrdID ==>
                Observed(roundtrips, id) == old(Observed(roundtrips, id))
                  && Observed(acks, id) == old(Observed(acks, id))
      ensures var l := StepReport(timeout, old(LifeOf(r.clOrdID)), r);
              Observed(roundtrips, r.clOrdID) == l.roundtrips && Observed(acks, r.clOrdID) == l.acks
    {
      var o := orders[r.clOrdID];
      if r.execID != "" && r.execID in o.seen {
        return Duplicate;
      }
      var wasPending := o.status.state.Pending?;
      var (next, result) := Transition(o.status, r);
      outcome := result;
      if !outcome.Applied? {
        return;
      }
      if r.execID != "" {
        o := o.(seen := o.seen + {r.execID});
      }
      o := o.(status := next);
      orders := orders[r.clOrdID := o];
      if !o.adopted {
        if next.Terminal() {
          roundtrips := roundtrips[r.clOrdID := Observed(roundtrips, r.clOrdID) + [next.updatedAt - next.submittedAt]];
        }
        if wasPending && !next.state.Pending? && r.receivedAt.Some? {
          acks := acks[r.clOrdID := Observed(acks, r.clOrdID) + [r.receivedAt.value - next.submittedAt]];
        }
      }
    }

    method Observe(now: int)
      requires Valid()
      modifies this
      ensures Valid() && history == old(history) + [Event.Observe(now)]
      ensures overdueGauge == |OverdueOrders(orders, now)|
    {
      var open, overdue := ObserveEach(now);
      SameStanding(old(orders), orders, now);
      openGauge, overdueGauge := open, overdue;
      forall id
        ensures LifeOf(id) == StepObserve(old(LifeOf(id)), now)
      {
      }
      Remember(Event.Observe(now));
    }

    /** The loop of Observe: counts the open and the overdue, and marks each overdue
        order the first time it is seen so. */
    method ObserveEach(now: int) returns (open: nat, overdue: nat)
      modifies this`orders, this`timeouts
      ensures orders == ObserveAll(old(orders), old(orders).Keys, now)
      ensures Tallied(old(timeouts), old(orders), old(orders).Keys, now, timeouts)
      ensures open == |OpenOrders(old(orders))| && overdue == |OverdueOrders(old(orders), now)|
    {
      open, overdue := 0, 0;
      var rest := orders.Keys;
      ghost var was := orders;
      assert orders == ObserveAll(was, {}, now);
      while rest != {}
        invariant rest <= was.Keys
        invariant Halfway(was, was.Keys - rest, now, orders, open, overdue)
        invariant Tallied(old(timeouts), was, was.Keys - rest, now, timeouts)
        decreases |rest|
      {
        var id :| id in rest;
        OneMore(was, was.Keys - rest, id, now, orders, open, overdue);
        TallyOneMore(old(timeouts), was, was.Keys - rest, id, now, timeouts);
        assert was.Keys - (rest - {id}) == was.Keys - rest + {id};
        var isOpen, isOverdue := ObserveOne(id, now);
        open := open + if isOpen then 1 else 0;
        overdue := overdue + if isOverdue then 1 else 0;
        rest := rest - {id};
      }
      assert was.Keys - {} == was.Keys;
      AmongAll(was, now);
    }

    /** The body of that loop, for one order. */
    method ObserveOne(id: OrderId, now: int) returns (isOpen: bool, isOverdue: bool)
      requires id in orders
      modifies this`orders, this`timeouts
      ensures orders == old(orders)[id := ObserveRecord(old(orders)[id], now)]
      ensures timeouts == TallyOne(old(timeouts), id, old(orders)[id], now)
      ensures isOpen == !old(orders)[id].status.Terminal() && isOverdue == old(orders)[id].status.Overdue(now)
    {
      var o := orders[id];
      isOpen, isOverdue := !o.status.Terminal(), false;
      if isOpen && o.status.Overdue(now) {
        isOverdue := true;
        if !o.ackTimedOut {
          orders := orders[id := o.(ackTimedOut := true)];
          timeouts := timeouts[id := Count(timeouts, id) + 1];
        }
      }
    }

    /** Adds a call to the history once every order has taken its step. */
    ghost method Remember(e: Event)
      requires openGauge == |OpenOrders(orders)|
      requires forall id :: LifeOf(id) == Step(timeout, id, Run(timeout, id, UNKNOWN, history), e)
      modifies this`history
      ensures Valid() && history == old(history) + [e]
    {
      ExtendRuns(timeout, history, e);
      history := history + [e];
    }

    method CountOpen() returns (n: nat)
      ensures n == |OpenOrders(orders)|
    {
      n := 0;
      var rest := orders.Keys;
      ghost var done: set<OrderId> := {};
      while rest != {}
        invariant rest <= orders.Keys && done == orders.Keys - rest
        invariant n == |OpenAmong(orders, done)|
        decreases |rest|
      {
        var id :| id in rest;
        CountOneOpen(orders, done, id);
        if !orders[id].status.Terminal() {
          n := n + 1;
        }
        rest := rest - {id};
        done := done + {id};
      }
      assert done == orders.Keys;
      AmongAll(orders, 0);
    }
  }

  /** One more event advances every order's life by one step. */
  lemma ExtendRuns(timeout: int, history: seq<Event>, e: Event)
    ensures forall id ::
              Run(timeout, id, UNKNOWN, history + [e]) == Step(timeout, id, Run(timeout, id, UNKNOWN, history), e)
  {
    assert (history + [e])[..|history|] == history;
  }
}
