/** The writer as it runs (internal/db/writer.go): the fields one goroutine owns and the
    methods that change them, each tied to the step it takes the writer's value through. */
module WriterLoop {
  import opened Database
  import W = Writing

  /** The server: a batch is one implicit transaction, so it lands whole or not at all, and
      whether it landed is not always known to the sender. */
  class Server {
    var held: Db

    constructor (base: Db)
      ensures held == base
    {
      held := base;
    }

    method SendBatch(batch: seq<Row>, fate: W.Fate) returns (ok: bool)
      modifies this
      ensures ok == fate.Acknowledged?
      ensures held == if fate.Acknowledged? || fate.landed then Apply(old(held), batch) else old(held)
    {
      ok := fate.Acknowledged?;
      if fate.Acknowledged? || fate.landed {
        var i := 0;
        while i < |batch|
          invariant 0 <= i <= |batch|
          invariant held == Apply(old(held), batch[..i])
        {
          held := ApplyRow(held, batch[i]);
          i := i + 1;
          assert batch[..i][..i - 1] == batch[..i - 1];
        }
        assert batch[..i] == batch;
      }
    }
  }

  class Writer {
    const db: Server
    const limits: W.Limits

    var rows: seq<Row>
    var stopped: bool
    var done: bool
    var err: bool
    var batches: map<Table, seq<Row>>
    var order: seq<Table>
    var pending: nat

    // Every row a producer was told was taken.
    ghost var accepted: seq<Row>
    // How many of them have been flushed.
    ghost var landed: nat
    ghost const base: Db
    ghost var history: seq<W.Event>

    ghost function State(): W.State
      reads this, db
    {
      W.State(rows, order, batches, pending, stopped, done, err, db.held, accepted, landed)
    }

    /** The writer is where its turns put it. */
    ghost predicate Valid()
      reads this, db
    {
      Filed(base) && State() == W.Run(limits, W.Fresh(base), history)
    }

    constructor (db: Server, limits: W.Limits)
      requires Filed(db.held)
      ensures Valid() && history == [] && this.db == db && this.limits == limits && base == db.held
    {
      this.db, this.limits := db, limits;
      rows, stopped, done, err, batches, order, pending := [], false, false, false, map[], [], 0;
      accepted, landed, base, history := [], 0, db.held, [];
    }

    ghost method Took(e: W.Event, was: W.State)
      requires Filed(base) && was == W.Run(limits, W.Fresh(base), history)
      requires State() == W.Step(limits, was, e)
      modifies this`history
      ensures Valid() && history == old(history) + [e]
    {
      history := history + [e];
      assert history[..|history| - 1] == old(history);
    }

    /** The second half of Submit: the send, when the queue has room. A producer that finds it
        full waits, and has been told nothing yet. */
    method Offer(r: Row) returns (queued: bool)
      modifies this`rows, this`accepted
      ensures queued == (|old(rows)| < limits.queueSize)
      ensures State() == W.Take(limits, old(State()), r)
    {
      queued := |rows| < limits.queueSize;
      if queued {
        rows, accepted := rows + [r], accepted + [r];
      }
    }

    method Submit(r: Row) returns (queued: bool)
      requires Valid()
      modifies this`rows, this`accepted, this`history
      ensures Valid() && history == old(history) + [W.Submit(r)]
      ensures queued == (!stopped && |old(rows)| < limits.queueSize)
      ensures accepted == if queued then old(accepted) + [r] else old(accepted)
    {
      ghost var was := State();
      if stopped {
        queued := false;
      } else {
        queued := Offer(r);
      }
      Took(W.Submit(r), was);
    }

    /** A producer that passed the check above before stop was closed. */
    method SubmitLate(r: Row) returns (queued: bool)
      requires Valid()
      modifies this`rows, this`accepted, this`history
      ensures Valid() && history == old(history) + [W.LateSubmit(r)]
      ensures accepted == if queued then old(accepted) + [r] else old(accepted)
    {
      ghost var was := State();
      queued := Offer(r);
      Took(W.LateSubmit(r), was);
    }

    method Close()
      requires Valid()
      modifies this`stopped, this`history
      ensures Valid() && history == old(history) + [W.Close]
    {
      ghost var was := State();
      stopped := true;
      Took(W.Close, was);
    }

    /** Files a row under its table. */
    method Enqueue(r: Row)
      modifies this`batches, this`order, this`pending
      ensures State() == W.Enqueue(old(State()), r)
    {
      if r.table !in batches {
        batches := batches[r.table := []];
        order := order + [r.table];
      }
      batches := batches[r.table := batches[r.table] + [r]];
      pending := pending + 1;
    }

    /** The rows filed so far, table by table. */
    method Queue() returns (batch: seq<Row>)
      requires forall t :: t in order ==> t in batches
      ensures batch == W.Flatten(order, batches)
    {
      batch := [];
      var i := 0;
      while i < |order|
        invariant 0 <= i <= |order|
        invariant batch == W.Flatten(order[..i], batches)
      {
        var values := batches[order[i]];
        ghost var before := batch;
        var j := 0;
        while j < |values|
          invariant 0 <= j <= |values|
          invariant batch == before + values[..j]
        {
          batch := batch + [values[j]];
          j := j + 1;
        }
        assert order[..i + 1][..i] == order[..i];
        i := i + 1;
      }
      assert order[..i] == order;
    }

    method Send(batch: seq<Row>, fates: seq<W.Fate>) returns (ok: bool)
      modifies db
      ensures (db.held, ok) == W.Send(old(db.held), batch, fates, limits.maxAttempts)
    {
      var attempt := 0;
      while attempt < limits.maxAttempts && attempt < |fates|
        invariant 0 <= attempt <= limits.maxAttempts && attempt <= |fates|
        invariant W.Send(old(db.held), batch, fates, limits.maxAttempts)
               == W.Send(db.held, batch, fates[attempt..], limits.maxAttempts - attempt)
      {
        var fate := fates[attempt];
        ok := db.SendBatch(batch, fate);
        if ok {
          return;
        }
        if !fate.worthRetrying {
          return;
        }
        assert fates[attempt..][1..] == fates[attempt + 1..];
        attempt := attempt + 1;
      }
      ok := false;
    }

    /** Keeps each table's entry and drops its rows. */
    method Clear()
      requires forall t :: t in order <==> t in batches
      modifies this`batches, this`pending
      ensures batches == W.Emptied(old(batches)) && pending == 0
    {
      var i := 0;
      while i < |order|
        invariant 0 <= i <= |order|
        invariant batches.Keys == old(batches).Keys
        invariant forall j :: 0 <= j < i ==> batches[order[j]] == []
      {
        batches := batches[order[i] := []];
        i := i + 1;
      }
      assert forall t :: t in batches ==> batches[t] == [];
      pending := 0;
    }

    method Flush(fates: seq<W.Fate>) returns (ok: bool)
      requires forall t :: t in order <==> t in batches
      modifies this`batches, this`pending, this`landed, this`stopped, this`done, this`err, db
      ensures State() == W.Flush(limits, old(State()), fates)
      ensures !ok ==> done && err
    {
      if pending == 0 {
        return true;
      }
      var batch := Queue();
      ok := Send(batch, fates);
      if ok {
        landed := landed + pending;
        Clear();
      } else {
        // Run's exit: stop is closed and the error kept for Close.
        stopped, done, err := true, true, true;
      }
    }

    /** Tables and batches name each other, as every run keeps them. */
    ghost method Keyed()
      requires Valid()
      ensures forall t :: t in order <==> t in batches
    {
      W.EveryRunIsOrdered(limits, base, history);
    }

    /** Run takes a row from the queue. */
    method Receive(fates: seq<W.Fate>)
      requires Valid()
      modifies this, db
      ensures Valid() && history == old(history) + [W.Receive(fates)]
    {
      ghost var was := State();
      Keyed();
      TakeOne(fates);
      Took(W.Receive(fates), was);
    }

    method TakeOne(fates: seq<W.Fate>)
      requires forall t :: t in order <==> t in batches
      modifies this`rows, this`batches, this`order, this`pending, this`landed, this`stopped, this`done, this`err, db
      ensures State() == W.Step(limits, old(State()), W.Receive(fates))
    {
      if !done && rows != [] {
        var r := rows[0];
        rows := rows[1..];
        Enqueue(r);
        if pending >= limits.batchSize {
          var _ := Flush(fates);
        }
      }
    }

    /** Run takes a tick. */
    method Tick(fates: seq<W.Fate>)
      requires Valid()
      modifies this, db
      ensures Valid() && history == old(history) + [W.Tick(fates)]
    {
      ghost var was := State();
      if !done {
        Keyed();
        var _ := Flush(fates);
      }
      Took(W.Tick(fates), was);
    }

    method Drain()
      requires forall t :: t in order <==> t in batches
      modifies this`rows, this`batches, this`order, this`pending
      ensures State() == W.Drain(old(State()))
      ensures forall t :: t in order <==> t in batches
    {
      while rows != []
        invariant W.Drain(State()) == W.Drain(old(State()))
        invariant forall t :: t in order <==> t in batches
        decreases |rows|
      {
        var r := rows[0];
        rows := rows[1..];
        Enqueue(r);
      }
    }

    /** Run sees stop or a canceled context. */
    method Shutdown(fates: seq<W.Fate>)
      requires Valid()
      modifies this, db
      ensures Valid() && history == old(history) + [W.Shutdown(fates)]
    {
      ghost var was := State();
      Keyed();
      WindUp(fates);
      Took(W.Shutdown(fates), was);
    }

    method WindUp(fates: seq<W.Fate>)
      requires forall t :: t in order <==> t in batches
      modifies this`rows, this`batches, this`order, this`pending, this`landed, this`stopped, this`done, this`err, db
      ensures State() == W.Step(limits, old(State()), W.Shutdown(fates))
    {
      if !done {
        stopped := true;
        FlushTheRest(fates);
        done := true;
      }
    }

    method FlushTheRest(fates: seq<W.Fate>)
      requires forall t :: t in order <==> t in batches
      modifies this`rows, this`batches, this`order, this`pending, this`landed, this`stopped, this`done, this`err, db
      ensures State() == W.Flush(limits, W.Drain(old(State())), fates)
    {
      Drain();
      var _ := Flush(fates);
    }

    /** A writer that has ended without error holds every row it took, written once, when no
        producer was late. */
    lemma ClosedMeansWritten()
      requires Valid() && done && !err
      requires forall i :: 0 <= i < |history| ==> !history[i].LateSubmit?
      ensures db.held == Apply(base, accepted)
    {
      W.ExactlyOnceWhenProducersStopFirst(limits, base, history);
    }
  }
}
