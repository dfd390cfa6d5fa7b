/** The one writer (internal/db/writer.go): a queue, rows filed under their statement, a
    flush that lands whole or not at all, and a retry that may repeat a batch whose commit
    nobody saw. */
module Writing {
  import opened Database

  datatype Limits = Limits(queueSize: nat, batchSize: nat, maxAttempts: nat)

  /** How one send of a batch goes: acknowledged; in the database but reported as failed; or
      rolled back. A failure is worth retrying unless the server said it cannot clear. */
  datatype Fate = Acknowledged | InDoubt(landed: bool, worthRetrying: bool)

  /** Writer as a value. `accepted` lists every row a producer was told was taken; the first
      `landed` of them have been flushed. */
  datatype State = State(
    queue: seq<Row>, order: seq<Table>, batches: map<Table, seq<Row>>, pending: nat,
    stopped: bool, ended: bool, failed: bool, db: Db, accepted: seq<Row>, landed: nat)

  function Fresh(db: Db): State {
    State([], [], map[], 0, false, false, false, db, [], 0)
  }

  /** `Fates` says how each attempt of a flush would go; when they run out, the flush's own
      timeout has. */
  datatype Event =
    | Submit(r: Row)
    | LateSubmit(r: Row)
    | Close
    | Receive(fates: seq<Fate>)
    | Tick(fates: seq<Fate>)
    | Shutdown(fates: seq<Fate>)

  function Enqueue(w: State, r: Row): State {
    var known := r.table in w.batches;
    var rows := if known then w.batches[r.table] else [];
    w.(batches := w.batches[r.table := rows + [r]],
       order := if known then w.order else w.order + [r.table],
       pending := w.pending + 1)
  }

  /** The batch a flush sends: table by table, each table's rows as they came. */
  function Flatten(order: seq<Table>, batches: map<Table, seq<Row>>): seq<Row> {
    if order == [] then []
    else
      var n := |order| - 1;
      Flatten(order[..n], batches) + if order[n] in batches then batches[order[n]] else []
  }

  /** The database after the attempts, and whether one was acknowledged. */
  function Send(db: Db, batch: seq<Row>, fates: seq<Fate>, attempts: nat): (Db, bool)
    decreases attempts
  {
    if attempts == 0 || fates == [] then (db, false)
    else match fates[0]
      case Acknowledged => (Apply(db, batch), true)
      case InDoubt(landed, worthRetrying) =>
        var db' := if landed then Apply(db, batch) else db;
        if worthRetrying then Send(db', batch, fates[1..], attempts - 1) else (db', false)
  }

  function Emptied(batches: map<Table, seq<Row>>): map<Table, seq<Row>> {
    map t | t in batches :: []
  }

  /** What a flush leaves once its batch has been sent: an acknowledged batch is cleared, and
      one given up on ends the writer. */
  function Settle(w: State, db: Db, ok: bool): State {
    if ok then w.(db := db, batches := Emptied(w.batches), pending := 0, landed := w.landed + w.pending)
    else w.(db := db, stopped := true, ended := true, failed := true)
  }

  function Flush(limits: Limits, w: State, fates: seq<Fate>): State {
    if w.pending == 0 then w
    else
      var sent := Send(w.db, Flatten(w.order, w.batches), fates, limits.maxAttempts);
      Settle(w, sent.0, sent.1)
  }

  /** The step Run takes with the row at the head of the queue. */
  function Shift(w: State): State
    requires w.queue != []
  {
    Enqueue(w.(queue := w.queue[1..]), w.queue[0])
  }

  function Drain(w: State): State
    decreases |w.queue|
  {
    if w.queue == [] then w else Drain(Shift(w))
  }

  function Take(limits: Limits, w: State, r: Row): State {
    if |w.queue| < limits.queueSize then w.(queue := w.queue + [r], accepted := w.accepted + [r]) else w
  }

  function Step(limits: Limits, w: State, e: Event): State {
    match e
    // Submit's first check; a full queue makes the producer wait.
    case Submit(r) => if w.stopped then w else Take(limits, w, r)
    // A producer already past that check when stop was closed may still win the send.
    case LateSubmit(r) => Take(limits, w, r)
    case Close => w.(stopped := true)
    case Receive(fates) =>
      if w.ended || w.queue == [] then w
      else
        var w' := Shift(w);
        if w'.pending >= limits.batchSize then Flush(limits, w', fates) else w'
    case Tick(fates) => if w.ended then w else Flush(limits, w, fates)
    // Run sees stop or a canceled context: it closes stop, drains and flushes once more.
    case Shutdown(fates) =>
      if w.ended then w
      else
        var w' := Flush(limits, Drain(w.(stopped := true)), fates);
        w'.(ended := true)
  }

  function Run(limits: Limits, w: State, events: seq<Event>): State {
    if events == [] then w else Step(limits, Run(limits, w, events[..|events| - 1]), events[|events| - 1])
  }

  // ---------------------------------------------------------------------------
  // Grouping
  // ---------------------------------------------------------------------------

  function OfTable(rows: seq<Row>, t: Table): seq<Row> {
    if rows == [] then []
    else
      var n := |rows| - 1;
      if rows[n].table == t then OfTable(rows[..n], t) + [rows[n]] else OfTable(rows[..n], t)
  }

  /** Every pending row is filed under its table, in the order it came, and each table is
      walked once. */
  predicate Grouped(order: seq<Table>, batches: map<Table, seq<Row>>, rows: seq<Row>) {
    && (forall t :: t in order <==> t in batches)
    && (forall i, j :: 0 <= i < j < |order| ==> order[i] != order[j])
    && (forall t :: OfTable(rows, t) == if t in batches then batches[t] else [])
  }

  lemma {:induction false} OnlyOfTable(rows: seq<Row>, k: Key)
    ensures Only(OfTable(rows, k.table), k) == Only(rows, k)
  {
    if rows != [] {
      var n := |rows| - 1;
      OnlyOfTable(rows[..n], k);
      if rows[n].table == k.table {
        var o := OfTable(rows[..n], k.table);
        assert (o + [rows[n]])[..|o|] == o;
      }
    }
  }

  lemma {:induction false} OnlyElsewhere(rows: seq<Row>, t: Table, k: Key)
    requires t != k.table
    ensures Only(OfTable(rows, t), k) == []
  {
    if rows != [] {
      var n := |rows| - 1;
      OnlyElsewhere(rows[..n], t, k);
      if rows[n].table == t {
        var o := OfTable(rows[..n], t);
        assert (o + [rows[n]])[..|o|] == o;
      }
    }
  }

  lemma {:induction false} FlattenAtAKey(order: seq<Table>, batches: map<Table, seq<Row>>, rows: seq<Row>, k: Key)
    requires forall i, j :: 0 <= i < j < |order| ==> order[i] != order[j]
    requires forall t :: t in order ==> t in batches && batches[t] == OfTable(rows, t)
    ensures Only(Flatten(order, batches), k) == if k.table in order then Only(rows, k) else []
  {
    if order != [] {
      var n := |order| - 1;
      FlattenAtAKey(order[..n], batches, rows, k);
      OnlyAppend(Flatten(order[..n], batches), batches[order[n]], k);
      if order[n] == k.table {
        OnlyOfTable(rows, k);
        assert k.table !in order[..n];
      } else {
        OnlyElsewhere(rows, order[n], k);
        assert k.table in order <==> k.table in order[..n];
      }
    }
  }

  lemma {:induction false} NoneOfAbsentTable(rows: seq<Row>, k: Key)
    requires OfTable(rows, k.table) == []
    ensures Only(rows, k) == []
  {
    OnlyOfTable(rows, k);
  }

  /** The batch sends each key the rows that came for it, in the order they came. */
  lemma AGroupedBatchIsTheRows(order: seq<Table>, batches: map<Table, seq<Row>>, rows: seq<Row>)
    requires Grouped(order, batches, rows)
    ensures forall k :: Only(Flatten(order, batches), k) == Only(rows, k)
  {
    forall k
      ensures Only(Flatten(order, batches), k) == Only(rows, k)
    {
      FlattenAtAKey(order, batches, rows, k);
      if k.table !in order {
        NoneOfAbsentTable(rows, k);
      }
    }
  }

  lemma EnqueueGroups(order: seq<Table>, batches: map<Table, seq<Row>>, rows: seq<Row>, r: Row)
    requires Grouped(order, batches, rows)
    ensures Grouped(if r.table in batches then order else order + [r.table],
                    batches[r.table := (if r.table in batches then batches[r.table] else []) + [r]], rows + [r])
  {
    assert (rows + [r])[..|rows|] == rows;
  }

  lemma EmptiedIsGrouped(order: seq<Table>, batches: map<Table, seq<Row>>, rows: seq<Row>)
    requires Grouped(order, batches, rows)
    ensures Grouped(order, Emptied(batches), [])
  {
  }

  // ---------------------------------------------------------------------------
  // Sending
  // ---------------------------------------------------------------------------

  /** However the attempts go, the batch is in the database whole and once, or not at all;
      and it is in it if any attempt was acknowledged. */
  lemma {:induction false} SendIsAllOrNothing(db: Db, batch: seq<Row>, fates: seq<Fate>, attempts: nat)
    requires Filed(db)
    ensures var sent := Send(db, batch, fates, attempts);
            (sent.0 == Apply(db, batch) || (!sent.1 && sent.0 == db)) && Filed(sent.0)
    decreases attempts
  {
    if attempts > 0 && fates != [] {
      ApplyKeepsFiled(db, batch);
      ReplayIsANoOp(db, batch);
      if fates[0].InDoubt? && fates[0].worthRetrying {
        SendIsAllOrNothing(if fates[0].landed then Apply(db, batch) else db, batch, fates[1..], attempts - 1);
      }
    }
  }

  // ---------------------------------------------------------------------------
  // The invariant
  // ---------------------------------------------------------------------------

  /** Accepted rows are flushed, then pending, then queued, in the order they were accepted. */
  predicate Arranged(accepted: seq<Row>, landed: nat, pending: nat, queue: seq<Row>, order: seq<Table>,
                     batches: map<Table, seq<Row>>) {
    && landed + pending <= |accepted|
    && queue == accepted[landed + pending..]
    && Grouped(order, batches, accepted[landed..landed + pending])
  }

  /** What the database may be: the flushed rows applied once each in order, or, after a fatal
      flush, perhaps the whole of the batch that could not be confirmed as well. */
  function Possible(base: Db, accepted: seq<Row>, landed: nat, pending: nat, failed: bool): set<Db>
    requires landed + pending <= |accepted|
  {
    {Apply(base, accepted[..landed])} + if failed then {Apply(base, accepted[..landed + pending])} else {}
  }

  predicate Holds(base: Db, accepted: seq<Row>, landed: nat, pending: nat, db: Db, failed: bool)
    requires landed + pending <= |accepted|
  {
    Filed(db) && db in Possible(base, accepted, landed, pending, failed)
  }

  predicate Ordered(base: Db, w: State) {
    && Arranged(w.accepted, w.landed, w.pending, w.queue, w.order, w.batches)
    && Holds(base, w.accepted, w.landed, w.pending, w.db, w.failed)
    && (w.ended ==> w.stopped)
    && (w.failed ==> w.ended)
    && (w.ended && !w.failed ==> w.pending == 0)
  }

  lemma TakeArranges(accepted: seq<Row>, landed: nat, pending: nat, queue: seq<Row>, order: seq<Table>,
                     batches: map<Table, seq<Row>>, r: Row)
    requires Arranged(accepted, landed, pending, queue, order, batches)
    ensures Arranged(accepted + [r], landed, pending, queue + [r], order, batches)
  {
    assert (accepted + [r])[landed..landed + pending] == accepted[landed..landed + pending];
  }

  lemma TakeHolds(base: Db, accepted: seq<Row>, landed: nat, pending: nat, db: Db, failed: bool, r: Row)
    requires landed + pending <= |accepted| && Holds(base, accepted, landed, pending, db, failed)
    ensures Holds(base, accepted + [r], landed, pending, db, failed)
  {
    assert (accepted + [r])[..landed] == accepted[..landed];
    assert (accepted + [r])[..landed + pending] == accepted[..landed + pending];
  }

  lemma TakeKeeps(limits: Limits, base: Db, w: State, r: Row)
    requires Ordered(base, w)
    ensures Ordered(base, Take(limits, w, r))
  {
    TakeArranges(w.accepted, w.landed, w.pending, w.queue, w.order, w.batches, r);
    TakeHolds(base, w.accepted, w.landed, w.pending, w.db, w.failed, r);
  }

  lemma TheNextRow(accepted: seq<Row>, queue: seq<Row>, n: nat, pending: nat)
    requires n + pending <= |accepted| && queue == accepted[n + pending..] && queue != []
    ensures accepted[n..n + pending] + [queue[0]] == accepted[n..n + pending + 1]
    ensures queue[1..] == accepted[n + pending + 1..]
  {
  }

  lemma EnqueueArranges(accepted: seq<Row>, landed: nat, pending: nat, queue: seq<Row>, order: seq<Table>,
                        batches: map<Table, seq<Row>>)
    requires Arranged(accepted, landed, pending, queue, order, batches) && queue != []
    ensures var r := queue[0];
            Arranged(accepted, landed, pending + 1, queue[1..], if r.table in batches then order else order + [r.table],
                     batches[r.table := (if r.table in batches then batches[r.table] else []) + [r]])
  {
    TheNextRow(accepted, queue, landed, pending);
    EnqueueGroups(order, batches, accepted[landed..landed + pending], queue[0]);
  }

  lemma EnqueueKeeps(base: Db, w: State)
    requires Ordered(base, w) && w.queue != [] && !w.ended
    ensures Ordered(base, Shift(w))
  {
    EnqueueArranges(w.accepted, w.landed, w.pending, w.queue, w.order, w.batches);
    var w' := Shift(w);
    assert w'.accepted == w.accepted && w'.landed == w.landed && w'.db == w.db && !w.failed;
    assert w'.pending == w.pending + 1 && w'.queue == w.queue[1..];
  }

  /** What a flush leaves: the pending rows written and cleared, or a writer that has ended
      with them perhaps in the database. */
  ghost predicate Flushed(base: Db, w: State, w': State) {
    && w'.accepted == w.accepted
    && w'.queue == w.queue
    && Ordered(base, w')
    && (!w'.failed ==> w'.pending == 0 && !w'.ended && w'.stopped == w.stopped)
  }

  lemma Upto(accepted: seq<Row>, landed: nat, pending: nat)
    requires landed + pending <= |accepted|
    ensures accepted[..landed] + accepted[landed..landed + pending] == accepted[..landed + pending]
  {
  }

  /** Sending the batch is applying its rows as they came, or nothing. */
  lemma SendingTheBatch(base: Db, accepted: seq<Row>, landed: nat, pending: nat, db: Db, order: seq<Table>,
                        batches: map<Table, seq<Row>>, fates: seq<Fate>, attempts: nat)
    requires landed + pending <= |accepted| && Filed(db) && db == Apply(base, accepted[..landed])
    requires Grouped(order, batches, accepted[landed..landed + pending])
    ensures var sent := Send(db, Flatten(order, batches), fates, attempts);
            && Holds(base, accepted, landed, pending, sent.0, true)
            && (sent.1 ==> Holds(base, accepted, landed + pending, 0, sent.0, false))
  {
    var rows := accepted[landed..landed + pending];
    var batch := Flatten(order, batches);
    Upto(accepted, landed, pending);
    ApplyAppend(base, accepted[..landed], rows);
    AGroupedBatchIsTheRows(order, batches, rows);
    RegroupingIsInvisible(db, batch, rows);
    SendIsAllOrNothing(db, batch, fates, attempts);
  }

  lemma ClearedArranges(accepted: seq<Row>, landed: nat, pending: nat, queue: seq<Row>, order: seq<Table>,
                        batches: map<Table, seq<Row>>)
    requires Arranged(accepted, landed, pending, queue, order, batches)
    ensures Arranged(accepted, landed + pending, 0, queue, order, Emptied(batches))
  {
    EmptiedIsGrouped(order, batches, accepted[landed..landed + pending]);
    assert accepted[landed + pending..landed + pending + 0] == [];
  }

  lemma SettleKeeps(base: Db, w: State, db: Db, ok: bool)
    requires Ordered(base, w) && !w.ended && Holds(base, w.accepted, w.landed, w.pending, db, true)
    requires ok ==> Holds(base, w.accepted, w.landed + w.pending, 0, db, false)
    ensures Flushed(base, w, Settle(w, db, ok))
  {
    ClearedArranges(w.accepted, w.landed, w.pending, w.queue, w.order, w.batches);
  }

  lemma SendAndSettle(limits: Limits, base: Db, w: State, fates: seq<Fate>)
    requires Ordered(base, w) && !w.ended
    ensures var sent := Send(w.db, Flatten(w.order, w.batches), fates, limits.maxAttempts);
            Flushed(base, w, Settle(w, sent.0, sent.1))
  {
    var sent := Send(w.db, Flatten(w.order, w.batches), fates, limits.maxAttempts);
    SendingTheBatch(base, w.accepted, w.landed, w.pending, w.db, w.order, w.batches, fates, limits.maxAttempts);
    SettleKeeps(base, w, sent.0, sent.1);
  }

  lemma FlushKeeps(limits: Limits, base: Db, w: State, fates: seq<Fate>)
    requires Ordered(base, w) && !w.ended
    ensures Flushed(base, w, Flush(limits, w, fates))
  {
    if w.pending != 0 {
      SendAndSettle(limits, base, w, fates);
    }
  }

  lemma {:induction false} DrainKeeps(base: Db, w: State)
    requires Ordered(base, w) && !w.ended
    ensures Ordered(base, Drain(w)) && !Drain(w).ended && Drain(w).queue == [] && Drain(w).accepted == w.accepted
    ensures Drain(w).stopped == w.stopped
    decreases |w.queue|
  {
    if w.queue != [] {
      EnqueueKeeps(base, w);
      DrainKeeps(base, Shift(w));
    }
  }

  lemma ReceiveKeeps(limits: Limits, base: Db, w: State, fates: seq<Fate>)
    requires Ordered(base, w)
    ensures Ordered(base, Step(limits, w, Receive(fates)))
  {
    if !w.ended && w.queue != [] {
      var w' := Shift(w);
      EnqueueKeeps(base, w);
      FlushKeeps(limits, base, w', fates);
    }
  }

  lemma Stopping(base: Db, w: State)
    requires Ordered(base, w)
    ensures Ordered(base, w.(stopped := true))
  {
  }

  /** Shutdown leaves the queue empty, and the writer flushed unless the last flush failed. */
  lemma ShutdownFlushes(limits: Limits, base: Db, w: State, fates: seq<Fate>)
    requires Ordered(base, w) && !w.ended
    ensures var w' := Flush(limits, Drain(w.(stopped := true)), fates);
            Ordered(base, w') && w'.queue == [] && w'.stopped && (!w'.failed ==> w'.pending == 0)
  {
    Stopping(base, w);
    DrainKeeps(base, w.(stopped := true));
    FlushKeeps(limits, base, Drain(w.(stopped := true)), fates);
  }

  lemma Ending(base: Db, w: State)
    requires Ordered(base, w) && w.stopped && (!w.failed ==> w.pending == 0)
    ensures Ordered(base, w.(ended := true))
  {
  }

  lemma ShutdownKeeps(limits: Limits, base: Db, w: State, fates: seq<Fate>)
    requires Ordered(base, w)
    ensures Ordered(base, Step(limits, w, Shutdown(fates)))
    ensures !w.ended ==> Step(limits, w, Shutdown(fates)).queue == []
  {
    if !w.ended {
      ShutdownFlushes(limits, base, w, fates);
      var flushed := Flush(limits, Drain(w.(stopped := true)), fates);
      Ending(base, flushed);
      assert Step(limits, w, Shutdown(fates)) == flushed.(ended := true);
    }
  }

  lemma StepKeeps(limits: Limits, base: Db, w: State, e: Event)
    requires Ordered(base, w)
    ensures Ordered(base, Step(limits, w, e))
  {
    match e
    case Submit(r) => TakeKeeps(limits, base, w, r);
    case LateSubmit(r) => TakeKeeps(limits, base, w, r);
    case Close =>
    case Receive(fates) => ReceiveKeeps(limits, base, w, fates);
    case Tick(fates) =>
      if !w.ended {
        FlushKeeps(limits, base, w, fates);
      }
    case Shutdown(fates) => ShutdownKeeps(limits, base, w, fates);
  }

  lemma {:induction false} EveryRunIsOrdered(limits: Limits, base: Db, events: seq<Event>)
    requires Filed(base)
    ensures Ordered(base, Run(limits, Fresh(base), events))
  {
    if events != [] {
      var n := |events| - 1;
      EveryRunIsOrdered(limits, base, events[..n]);
      StepKeeps(limits, base, Run(limits, Fresh(base), events[..n]), events[n]);
    }
  }

  // ---------------------------------------------------------------------------
  // Exactly once
  // ---------------------------------------------------------------------------

  /** The rows taken after the writer had ended: sends that won the race after its drain. */
  function TakenAfterTheEnd(limits: Limits, w: State, events: seq<Event>): seq<Row> {
    if events == [] then []
    else
      var n := |events| - 1;
      var v := Run(limits, w, events[..n]);
      TakenAfterTheEnd(limits, w, events[..n]) +
      if v.ended && events[n].LateSubmit? && |v.queue| < limits.queueSize then [events[n].r] else []
  }

  /** The queue holds what came after the end, once a run has ended without error. */
  ghost predicate LeftOver(w: State, late: seq<Row>) {
    if w.ended then !w.failed ==> w.queue == late else late == []
  }

  lemma FlushLeavesOver(limits: Limits, base: Db, w: State, fates: seq<Fate>)
    requires Ordered(base, w) && !w.ended
    ensures LeftOver(Flush(limits, w, fates), [])
  {
    FlushKeeps(limits, base, w, fates);
  }

  lemma ReceiveLeavesOver(limits: Limits, base: Db, w: State, fates: seq<Fate>)
    requires Ordered(base, w) && !w.ended
    ensures LeftOver(Step(limits, w, Receive(fates)), [])
  {
    if w.queue != [] {
      EnqueueKeeps(base, w);
      FlushLeavesOver(limits, base, Shift(w), fates);
    }
  }

  lemma StepLeavesOver(limits: Limits, base: Db, w: State, late: seq<Row>, e: Event)
    requires Ordered(base, w) && LeftOver(w, late)
    ensures LeftOver(Step(limits, w, e),
                     late + if w.ended && e.LateSubmit? && |w.queue| < limits.queueSize then [e.r] else [])
  {
    if !w.ended {
      match e
      case Submit(r) =>
      case LateSubmit(r) =>
      case Close =>
      case Receive(fates) => ReceiveLeavesOver(limits, base, w, fates);
      case Tick(fates) => FlushLeavesOver(limits, base, w, fates);
      case Shutdown(fates) => ShutdownKeeps(limits, base, w, fates);
    }
  }

  lemma {:induction false} TheQueueLeftOver(limits: Limits, base: Db, events: seq<Event>)
    requires Filed(base)
    ensures LeftOver(Run(limits, Fresh(base), events), TakenAfterTheEnd(limits, Fresh(base), events))
  {
    if events != [] {
      var n := |events| - 1;
      TheQueueLeftOver(limits, base, events[..n]);
      EveryRunIsOrdered(limits, base, events[..n]);
      StepLeavesOver(limits, base, Run(limits, Fresh(base), events[..n]),
                     TakenAfterTheEnd(limits, Fresh(base), events[..n]), events[n]);
    }
  }

  /** A run that ends without error has written every accepted row once, in the order they
      were accepted, but for exactly the rows taken after it had ended. */
  lemma ExactlyOnce(limits: Limits, base: Db, events: seq<Event>)
    requires Filed(base)
    ensures var w := Run(limits, Fresh(base), events);
            var lost := TakenAfterTheEnd(limits, Fresh(base), events);
            w.ended && !w.failed ==>
              |lost| <= |w.accepted| && w.accepted[|w.accepted| - |lost|..] == lost &&
              w.db == Apply(base, w.accepted[..|w.accepted| - |lost|])
  {
    EveryRunIsOrdered(limits, base, events);
    TheQueueLeftOver(limits, base, events);
    var w := Run(limits, Fresh(base), events);
    if w.ended && !w.failed {
      assert w.pending == 0 && w.queue == TakenAfterTheEnd(limits, Fresh(base), events);
      assert w.landed == |w.accepted| - |w.queue|;
    }
  }

  /** When producers have stopped before Close, nothing is lost. */
  lemma ExactlyOnceWhenProducersStopFirst(limits: Limits, base: Db, events: seq<Event>)
    requires Filed(base) && forall i :: 0 <= i < |events| ==> !events[i].LateSubmit?
    ensures var w := Run(limits, Fresh(base), events);
            w.ended && !w.failed ==> w.db == Apply(base, w.accepted)
  {
    ExactlyOnce(limits, base, events);
    NobodyIsLate(limits, Fresh(base), events);
    var w := Run(limits, Fresh(base), events);
    assert w.accepted[..|w.accepted|] == w.accepted;
  }

  lemma {:induction false} NobodyIsLate(limits: Limits, w: State, events: seq<Event>)
    requires forall i :: 0 <= i < |events| ==> !events[i].LateSubmit?
    ensures TakenAfterTheEnd(limits, w, events) == []
  {
    if events != [] {
      NobodyIsLate(limits, w, events[..|events| - 1]);
    }
  }

  lemma AFailedWriterHolds(base: Db, w: State)
    requires Ordered(base, w) && w.failed
    ensures w.landed + w.pending <= |w.accepted|
    ensures w.db == Apply(base, w.accepted[..w.landed]) || w.db == Apply(base, w.accepted[..w.landed + w.pending])
  {
    OneOfThePossible(base, w.accepted, w.landed, w.pending, w.db);
  }

  lemma OneOfThePossible(base: Db, accepted: seq<Row>, landed: nat, pending: nat, db: Db)
    requires landed + pending <= |accepted| && Holds(base, accepted, landed, pending, db, true)
    ensures db == Apply(base, accepted[..landed]) || db == Apply(base, accepted[..landed + pending])
  {
  }

  /** A run that ends fatally has written a prefix of the accepted rows; the batch it gave up
      on is in the database whole or not at all. */
  lemma AFatalRunLeavesAPrefix(limits: Limits, base: Db, events: seq<Event>)
    requires Filed(base) && Run(limits, Fresh(base), events).failed
    ensures var w := Run(limits, Fresh(base), events);
            && w.landed + w.pending <= |w.accepted|
            && (w.db == Apply(base, w.accepted[..w.landed]) || w.db == Apply(base, w.accepted[..w.landed + w.pending]))
  {
    EveryRunIsOrdered(limits, base, events);
    AFailedWriterHolds(base, Run(limits, Fresh(base), events));
  }

  /** Why producers must stop first: a producer that passed Submit's check before stop was
      closed can be told its row was taken after the only reader has gone. */
  lemma ALateRowIsLost(r: Row)
    ensures var w := Run(Limits(1, 1, 1), Fresh(map[]), [Shutdown([]), LateSubmit(r)]);
            w.ended && !w.failed && w.accepted == [r] && w.db == map[] && w.db != Apply(map[], w.accepted)
  {
    var limits, base, events := Limits(1, 1, 1), Fresh(map[]), [Shutdown([]), LateSubmit(r)];
    assert events[..1] == [Shutdown([])] && events[..1][..0] == [];
    assert Run(limits, base, events[..1][..0]) == base;
    assert Drain(base.(stopped := true)) == base.(stopped := true);
    var ended := base.(stopped := true).(ended := true);
    assert Run(limits, base, events[..1]) == Step(limits, base, Shutdown([])) == ended;
    assert Run(limits, base, events) == Step(limits, ended, LateSubmit(r));
    var none: Db := map[];
    assert [r][..0] == [];
    assert Apply(none, [r]) == ApplyRow(none, r);
    assert KeyOf(r) in Apply(none, [r]);
  }
}
