/** The writer writes (internal/db/writer.go): what a tick and a received row leave in the database,
    exactly which failures end it, and that turns enough write everything it was given. */
module WriterProgress {
  import opened Database
  import opened Writing

  // ---------------------------------------------------------------------------
  // Which flushes succeed
  // ---------------------------------------------------------------------------

  /** The k-th attempt is acknowledged, and every one before it failed in a way worth retrying. */
  predicate AcknowledgedAt(fates: seq<Fate>, k: nat) {
    k < |fates| && fates[k].Acknowledged? && forall j :: 0 <= j < k ==> fates[j].InDoubt? && fates[j].worthRetrying
  }

  /** Some attempt within the limit is reached and acknowledged. */
  predicate Recovers(fates: seq<Fate>, attempts: nat) {
    exists k: nat :: k < attempts && AcknowledgedAt(fates, k)
  }

  lemma RecoversLater(fates: seq<Fate>, attempts: nat)
    requires attempts > 0 && fates != [] && fates[0].InDoubt?
    ensures Recovers(fates, attempts) <==> fates[0].worthRetrying && Recovers(fates[1..], attempts - 1)
  {
    if Recovers(fates, attempts) {
      var k: nat :| k < attempts && AcknowledgedAt(fates, k);
      assert k > 0 && AcknowledgedAt(fates[1..], k - 1);
    }
    if fates[0].worthRetrying && Recovers(fates[1..], attempts - 1) {
      var k: nat :| k < attempts - 1 && AcknowledgedAt(fates[1..], k);
      assert AcknowledgedAt(fates, k + 1);
    }
  }

  /** A batch is given up on exactly when no attempt within the limit is reached and acknowledged. */
  lemma {:induction false} SentExactlyWhen(db: Db, batch: seq<Row>, fates: seq<Fate>, attempts: nat)
    ensures Send(db, batch, fates, attempts).1 <==> Recovers(fates, attempts)
    decreases attempts
  {
    if attempts > 0 && fates != [] {
      match fates[0]
      case Acknowledged => assert AcknowledgedAt(fates, 0);
      case InDoubt(landed, worthRetrying) =>
        RecoversLater(fates, attempts);
        if worthRetrying {
          SentExactlyWhen(if landed then Apply(db, batch) else db, batch, fates[1..], attempts - 1);
        }
    }
  }

  lemma AFlushEndsExactlyWhen(limits: Limits, w: State, fates: seq<Fate>)
    requires !w.ended
    ensures Flush(limits, w, fates).ended <==> w.pending > 0 && !Recovers(fates, limits.maxAttempts)
    ensures Flush(limits, w, fates).failed <==> w.failed || (w.pending > 0 && !Recovers(fates, limits.maxAttempts))
  {
    SentExactlyWhen(w.db, Flatten(w.order, w.batches), fates, limits.maxAttempts);
  }

  // ---------------------------------------------------------------------------
  // What is written when
  // ---------------------------------------------------------------------------

  /** Everything accepted and not still queued is in the database, once and in order. */
  predicate CaughtUp(base: Db, w: State) {
    |w.queue| <= |w.accepted| && w.db == Apply(base, w.accepted[..|w.accepted| - |w.queue|])
  }

  lemma NothingPendingIsCaughtUp(base: Db, w: State)
    requires Ordered(base, w) && w.pending == 0 && !w.failed
    ensures CaughtUp(base, w)
  {
    assert w.landed == |w.accepted| - |w.queue|;
  }

  /** What a flush leaves: it ends the writer exactly when something was pending and the attempts run
      out; and otherwise it leaves nothing pending. */
  predicate Written(limits: Limits, base: Db, w: State, fates: seq<Fate>, w': State) {
    if w.pending > 0 && !Recovers(fates, limits.maxAttempts) then w'.ended && w'.failed
    else !w'.ended && w'.pending == 0 && w'.queue == w.queue && w'.accepted == w.accepted && CaughtUp(base, w')
  }

  lemma AFlushWrites(limits: Limits, base: Db, w: State, fates: seq<Fate>)
    requires Ordered(base, w) && !w.ended
    ensures Written(limits, base, w, fates, Flush(limits, w, fates))
  {
    FlushKeeps(limits, base, w, fates);
    AFlushEndsExactlyWhen(limits, w, fates);
    if !Flush(limits, w, fates).failed {
      NothingPendingIsCaughtUp(base, Flush(limits, w, fates));
    }
  }

  lemma RunNext(limits: Limits, base: Db, events: seq<Event>, e: Event)
    ensures Run(limits, Fresh(base), events + [e]) == Step(limits, Run(limits, Fresh(base), events), e)
  {
    assert (events + [e])[..|events|] == events;
  }

  /** On every run that has not ended, a tick writes everything accepted and not still queued, or,
      when there was something to write and the attempts run out, ends the writer. */
  lemma WhatATickWrites(limits: Limits, base: Db, events: seq<Event>, fates: seq<Fate>)
    requires Filed(base) && !Run(limits, Fresh(base), events).ended
    ensures Written(limits, base, Run(limits, Fresh(base), events), fates,
                    Run(limits, Fresh(base), events + [Tick(fates)]))
  {
    EveryRunIsOrdered(limits, base, events);
    RunNext(limits, base, events, Tick(fates));
    AFlushWrites(limits, base, Run(limits, Fresh(base), events), fates);
  }

  /** Where the row at the head of the queue leaves the writer that receives it: the row waits with
      the pending ones until they make a batch, and then they are all written, or, when the attempts
      run out, the writer ends. */
  predicate Received(limits: Limits, base: Db, w: State, fates: seq<Fate>, w': State)
    requires w.queue != []
  {
    if w.pending + 1 < limits.batchSize then
      !w'.ended && w'.queue == w.queue[1..] && w'.accepted == w.accepted && w'.pending == w.pending + 1 && w'.db == w.db
    else if Recovers(fates, limits.maxAttempts) then
      !w'.ended && w'.queue == w.queue[1..] && w'.accepted == w.accepted && w'.pending == 0 && CaughtUp(base, w')
    else
      w'.ended && w'.failed
  }

  lemma AReceivedRowWrites(limits: Limits, base: Db, w: State, fates: seq<Fate>)
    requires Ordered(base, w) && !w.ended && w.queue != []
    ensures Received(limits, base, w, fates, Step(limits, w, Receive(fates)))
  {
    var filed := Shift(w);
    assert filed.pending == w.pending + 1 && filed.queue == w.queue[1..] && filed.accepted == w.accepted;
    EnqueueKeeps(base, w);
    AFlushWrites(limits, base, filed, fates);
  }

  lemma WhatAReceivedRowWrites(limits: Limits, base: Db, events: seq<Event>, fates: seq<Fate>)
    requires Filed(base) && !Run(limits, Fresh(base), events).ended && Run(limits, Fresh(base), events).queue != []
    ensures Received(limits, base, Run(limits, Fresh(base), events), fates,
                     Run(limits, Fresh(base), events + [Receive(fates)]))
  {
    EveryRunIsOrdered(limits, base, events);
    RunNext(limits, base, events, Receive(fates));
    AReceivedRowWrites(limits, base, Run(limits, Fresh(base), events), fates);
  }

  /** A writer that has not ended always has less than a batch pending. */
  lemma {:induction false} LessThanABatchIsPending(limits: Limits, base: Db, events: seq<Event>)
    requires Filed(base) && limits.batchSize >= 1 && !Run(limits, Fresh(base), events).ended
    ensures Run(limits, Fresh(base), events).pending < limits.batchSize
  {
    if events != [] {
      var n := |events| - 1;
      var e, w := events[n], Run(limits, Fresh(base), events[..n]);
      assert events[..n] + [e] == events;
      LessThanABatchIsPending(limits, base, events[..n]);
      match e
      case Receive(fates) =>
        if w.queue != [] {
          WhatAReceivedRowWrites(limits, base, events[..n], fates);
        }
      case Tick(fates) => WhatATickWrites(limits, base, events[..n], fates);
      case _ =>
    }
  }

  /** A row goes to the end of the queue, and is accepted. */
  predicate Queued(w: State, r: Row, w': State) {
    && w'.queue == w.queue + [r] && w'.accepted == w.accepted + [r]
    && w'.pending == w.pending && w'.db == w.db && w'.stopped == w.stopped && w'.ended == w.ended
  }

  /** On every run, a row is queued exactly when there is room: and, of a producer that finds the writer
      stopped, never. */
  lemma WhatASubmissionDoes(limits: Limits, base: Db, events: seq<Event>, r: Row)
    ensures var w := Run(limits, Fresh(base), events);
            var w', late := Run(limits, Fresh(base), events + [Submit(r)]),
                            Run(limits, Fresh(base), events + [LateSubmit(r)]);
            && (if |w.queue| < limits.queueSize && !w.stopped then Queued(w, r, w') else w' == w)
            && (if |w.queue| < limits.queueSize then Queued(w, r, late) else late == w)
  {
    RunNext(limits, base, events, Submit(r));
    RunNext(limits, base, events, LateSubmit(r));
  }

  lemma StoppedForGood(limits: Limits, w: State, e: Event)
    requires w.stopped
    ensures Step(limits, w, e).stopped
  {
    if e.Shutdown? && !w.ended {
      DrainingStaysStopped(w);
    }
  }

  lemma {:induction false} DrainingStaysStopped(w: State)
    ensures Drain(w.(stopped := true)).stopped
    decreases |w.queue|
  {
    if w.queue != [] {
      var r := w.(stopped := true);
      assert Shift(r) == Shift(r).(stopped := true) && |Shift(r).queue| < |w.queue|;
      DrainingStaysStopped(Shift(r));
    }
  }

  /** Once the writer has been closed, no producer that looks first is ever told its row was taken. */
  lemma {:induction false} NothingIsTakenOnceClosed(limits: Limits, base: Db, events: seq<Event>, later: seq<Event>,
                                                    r: Row)
    ensures var w := Run(limits, Fresh(base), events + [Close] + later);
            w.stopped && Run(limits, Fresh(base), events + [Close] + later + [Submit(r)]) == w
  {
    var all := events + [Close] + later;
    if later == [] {
      assert all == events + [Close];
      RunNext(limits, base, events, Close);
    } else {
      var n := |later| - 1;
      NothingIsTakenOnceClosed(limits, base, events, later[..n], r);
      assert all == events + [Close] + later[..n] + [later[n]];
      RunNext(limits, base, events + [Close] + later[..n], later[n]);
      StoppedForGood(limits, Run(limits, Fresh(base), events + [Close] + later[..n]), later[n]);
    }
    RunNext(limits, base, all, Submit(r));
  }

  lemma AFlushLeavesTheQueue(limits: Limits, w: State, fates: seq<Fate>)
    ensures Flush(limits, w, fates).queue == w.queue
  {
  }

  lemma AStepNeverOverflows(limits: Limits, base: Db, w: State, e: Event)
    requires Ordered(base, w) && |w.queue| <= limits.queueSize
    ensures |Step(limits, w, e).queue| <= limits.queueSize
  {
    match e
    case Receive(fates) =>
      if !w.ended && w.queue != [] {
        AFlushLeavesTheQueue(limits, Shift(w), fates);
        assert Shift(w).queue == w.queue[1..];
      }
    case Tick(fates) => AFlushLeavesTheQueue(limits, w, fates);
    case Shutdown(fates) => ShutdownKeeps(limits, base, w, fates);
    case _ =>
  }

  lemma {:induction false} TheQueueNeverOverflows(limits: Limits, base: Db, events: seq<Event>)
    requires Filed(base)
    ensures |Run(limits, Fresh(base), events).queue| <= limits.queueSize
  {
    if events != [] {
      var n := |events| - 1;
      TheQueueNeverOverflows(limits, base, events[..n]);
      EveryRunIsOrdered(limits, base, events[..n]);
      AStepNeverOverflows(limits, base, Run(limits, Fresh(base), events[..n]), events[n]);
    }
  }

  // ---------------------------------------------------------------------------
  // Everything, in the end
  // ---------------------------------------------------------------------------

  /** n rows received, by a database that answers. */
  function Receives(n: nat): seq<Event> {
    if n == 0 then [] else Receives(n - 1) + [Receive([Acknowledged])]
  }

  lemma AnAnswerRecovers(attempts: nat)
    requires attempts >= 1
    ensures Recovers([Acknowledged], attempts)
  {
    assert AcknowledgedAt([Acknowledged], 0);
  }

  lemma {:induction false} ReceivingEmptiesTheQueue(limits: Limits, base: Db, events: seq<Event>, n: nat)
    requires Filed(base) && limits.maxAttempts >= 1 && !Run(limits, Fresh(base), events).ended
    requires n <= |Run(limits, Fresh(base), events).queue|
    ensures var w, w' := Run(limits, Fresh(base), events), Run(limits, Fresh(base), events + Receives(n));
            !w'.ended && w'.queue == w.queue[n..] && w'.accepted == w.accepted
  {
    if n == 0 {
      assert events + Receives(0) == events;
    } else {
      ReceivingEmptiesTheQueue(limits, base, events, n - 1);
      AnAnswerRecovers(limits.maxAttempts);
      WhatAReceivedRowWrites(limits, base, events + Receives(n - 1), [Acknowledged]);
      assert events + Receives(n) == events + Receives(n - 1) + [Receive([Acknowledged])];
    }
  }

  /** Every accepted row is in the database, and nothing waits. */
  predicate AllWritten(base: Db, accepted: seq<Row>, w: State) {
    !w.ended && w.queue == [] && w.pending == 0 && w.accepted == accepted && w.db == Apply(base, accepted)
  }

  lemma ATickWritesTheRest(limits: Limits, base: Db, w: State, w': State)
    requires w.queue == [] && limits.maxAttempts >= 1 && Written(limits, base, w, [Acknowledged], w')
    ensures AllWritten(base, w.accepted, w')
  {
    AnAnswerRecovers(limits.maxAttempts);
    assert w'.accepted[..|w'.accepted|] == w'.accepted;
  }

  /** Whatever has happened to a writer that has not ended, once it has taken what is queued and a
      tick has come, with a database that answers, every row it ever accepted is written, once and
      in order. */
  lemma EverythingIsWrittenInTheEnd(limits: Limits, base: Db, events: seq<Event>)
    requires Filed(base) && limits.maxAttempts >= 1 && !Run(limits, Fresh(base), events).ended
    ensures var w := Run(limits, Fresh(base), events);
            AllWritten(base, w.accepted,
                       Run(limits, Fresh(base), events + Receives(|w.queue|) + [Tick([Acknowledged])]))
  {
    var queued := |Run(limits, Fresh(base), events).queue|;
    ReceivingEmptiesTheQueue(limits, base, events, queued);
    WhatATickWrites(limits, base, events + Receives(queued), [Acknowledged]);
    ATickWritesTheRest(limits, base, Run(limits, Fresh(base), events + Receives(queued)),
                       Run(limits, Fresh(base), events + Receives(queued) + [Tick([Acknowledged])]));
  }
}
