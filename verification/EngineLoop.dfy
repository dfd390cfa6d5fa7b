/** The engine as it runs (internal/fix/engine.go): the fields one goroutine owns and the
    methods that change them, each tied to the step it takes the book's value through. */
module EngineLoop {
  import opened Options
  import opened Decimals
  import opened FillModel
  import M = Matching
  import opened EngineBook
  import EngineProgress
  import Ids
  import Ordering

  class Engine {
    const cfg: M.Config
    const openedAt: int
    const firstRead: M.BookRead

    var live: map<string, M.LiveOrder>
    var final: map<string, M.OrdStatus>
    var orders: nat
    var execs: nat
    var book: Option<Book>
    var nextBookRead: int

    ghost var published: seq<M.VenueReport>
    ghost var stamps: seq<Ids.Stamp>
    ghost var terms: map<string, M.Terms>
    ghost var failed: bool
    // Every input so far, in order.
    ghost var history: seq<M.Input>

    ghost function State(): M.Venue
      reads this
    {
      M.Venue(live, final, orders, execs, book, nextBookRead, published, stamps, terms, failed)
    }

    /** The engine is where its inputs put it. */
    ghost predicate Valid()
      reads this
    {
      AllWellformed(history) && State() == M.Run(cfg, M.Opened(cfg, openedAt, firstRead), history)
    }

    constructor (cfg: M.Config, openedAt: int, firstRead: M.BookRead)
      ensures Valid() && history == [] && this.cfg == cfg && this.openedAt == openedAt && this.firstRead == firstRead
    {
      this.cfg, this.openedAt, this.firstRead := cfg, openedAt, firstRead;
      live, final, orders, execs, book := map[], map[], 0, 0, None;
      nextBookRead := 0;
      published, stamps, terms, failed, history := [], [], map[], false, [];
      new;
      ReadBook(openedAt, firstRead);
    }

    /** One turn of the loop has been taken. */
    ghost method Took(input: M.Input, was: M.Venue)
      requires AllWellformed(history) && was == M.Run(cfg, M.Opened(cfg, openedAt, firstRead), history)
      requires Wellformed(input) && State() == M.Step(cfg, was, input)
      modifies this`history
      ensures Valid() && history == old(history) + [input]
    {
      history := history + [input];
      assert history[..|history| - 1] == old(history);
    }

    /** Records a fill before it goes on the wire; any other report goes straight there. */
    method Publish(r: M.VenueReport, ghost stamp: Ids.Stamp, recorded: bool) returns (ok: bool)
      modifies this`published, this`stamps, this`failed
      ensures State() == M.Publish(old(State()), r, stamp, recorded)
      ensures ok == !failed
    {
      ok := true;
      if r.lastQty > 0.0 {
        ok := recorded;
      }
      published, stamps, failed := published + [r], stamps + [stamp], !ok;
    }

    method MintOrder() returns (id: string)
      modifies this`orders
      ensures orders == old(orders) + 1 && id == Ids.OrderId(cfg.start, orders)
    {
      orders := orders + 1;
      id := Ids.OrderId(cfg.start, orders);
    }

    method MintExec() returns (id: string)
      modifies this`execs
      ensures execs == old(execs) + 1 && id == Ids.ExecId(cfg.start, Ids.Counted(execs))
    {
      execs := execs + 1;
      id := Ids.ExecId(cfg.start, Ids.Counted(execs));
    }

    method Accept(s: M.Submission, draw: int) returns (ok: bool)
      requires Valid() && s.clOrdID != "" && !failed
      modifies this
      ensures Valid() && history == old(history) + [M.Submit(s, draw)]
      ensures ok
    {
      ghost var was := State();
      var reason := M.Refusal(cfg, M.Venue(live, final, orders, execs, book, nextBookRead, [], [], map[], false), s);
      assert reason == M.Refusal(cfg, was, s);
      if reason != "" {
        ok := Refuse(s, reason);
      } else {
        ok := Enter(s, draw);
      }
      Took(M.Submit(s, draw), was);
    }

    method Refuse(s: M.Submission, reason: string) returns (ok: bool)
      modifies this`orders, this`execs, this`published, this`stamps, this`failed
      ensures State() == M.Refuse(cfg, old(State()), s, reason)
      ensures ok
    {
      var orderID := MintOrder();
      var execID := MintExec();
      ok := Publish(M.VenueReport(orderID, execID, s.clOrdID, "", M.StatusRejected, 0.0, 0.0, 0.0, 0.0, 0.0, s.qty,
                                  reason, s.at),
                    Ids.Counted(execs), true);
    }

    method Enter(s: M.Submission, draw: int) returns (ok: bool)
      modifies this`live, this`terms, this`orders, this`execs, this`published, this`stamps, this`failed
      ensures State() == M.Admit(cfg, old(State()), s, draw)
      ensures ok
    {
      var orderID := MintOrder();
      var slices := CutSlices(s.qty, cfg.partialThreshold, cfg.partialSlices);
      var o := M.LiveOrder(s.clOrdID, orderID, s.side, s.tif, s.qty, s.limitPx, slices[..], 0, 0.0, 0.0,
                           s.at + M.Jitter(cfg.latency, draw), 0);
      assert o == M.Enter(cfg, old(State()), s, draw);
      live := live[s.clOrdID := o];
      terms := terms[s.clOrdID := M.Terms(orders, s.side, s.limitPx, s.qty)];
      var execID := MintExec();
      ok := Publish(M.VenueReport(orderID, execID, s.clOrdID, "", M.StatusNew, 0.0, 0.0, 0.0, s.qty, 0.0, s.qty, "",
                                  s.at),
                    Ids.Counted(execs), true);
    }

    method PrintSlice(id: string, now: int, recorded: bool) returns (ok: bool)
      requires id in live && live[id].clOrdID == id && live[id].next < |live[id].slices| && book.Some?
      modifies this`live, this`final, this`published, this`stamps, this`failed
      ensures State() == M.PrintSlice(cfg, old(State()), id, now, recorded)
      ensures ok == !failed
    {
      var o := live[id];
      var qty := o.slices[o.next];
      var px := ExecPx(o.side, o.limitPx, book.value, cfg.slippageBps);
      o := o.(next := o.next + 1, cumQty := o.cumQty + qty, notional := o.notional + Times(px, qty),
              execSeq := o.execSeq + 1);
      var status := M.PartiallyFilled;
      if o.Done() {
        status := M.StatusFilled;
        live := live - {id};
        final := final[id := status];
      } else {
        live := live[id := o];
      }
      ok := Publish(M.VenueReport(o.orderID, M.OrderExecId(o), o.clOrdID, "", status, qty, px, o.cumQty, o.Leaves(),
                                  o.AvgPx(), o.qty, "", now),
                    Ids.OfOrder(M.SerialOf(old(State()), id), o.execSeq), recorded);
    }

    method Finish(id: string, at: int, cancelID: string, reason: string) returns (ok: bool)
      requires id in live && live[id].clOrdID == id
      modifies this`live, this`final, this`published, this`stamps, this`failed
      ensures State() == M.Finish(old(State()), id, at, cancelID, reason)
      ensures ok && !failed
    {
      var o := live[id];
      live := live - {id};
      final := final[id := M.StatusCanceled];
      var clOrdID, origClOrdID := cancelID, "";
      if cancelID == "" {
        clOrdID := o.clOrdID;
      } else {
        origClOrdID := o.clOrdID;
      }
      o := o.(execSeq := o.execSeq + 1);
      ok := Publish(M.VenueReport(o.orderID, M.OrderExecId(o), clOrdID, origClOrdID, M.StatusCanceled, 0.0, 0.0,
                                  o.cumQty, 0.0, o.AvgPx(), o.qty, reason, at),
                    Ids.OfOrder(M.SerialOf(old(State()), id), o.execSeq), true);
    }

    method Evaluate(id: string, now: int, draw: int, recorded: bool) returns (ok: bool)
      requires id in live && live[id].clOrdID == id && live[id].next < |live[id].slices| && !failed
      modifies this`live, this`final, this`published, this`stamps, this`failed
      ensures State() == M.Evaluate(cfg, old(State()), id, now, draw, recorded)
      ensures ok == !failed
    {
      var o := live[id];
      if !M.BookFresh(cfg, book, now) {
        if o.tif.Ioc? {
          ok := Finish(id, now, "", M.CANCEL_NO_MARKET);
          return;
        }
        live := live[id := o.(readyAt := nextBookRead)];
        return true;
      }
      if Marketable(o.side, o.limitPx, book.value) {
        ok := PrintSlice(id, now, recorded);
        if !ok || id !in live {
          return;
        }
        live := live[id := live[id].(readyAt := now + M.Jitter(cfg.latency, draw))];
      } else {
        live := live[id := o.(readyAt := nextBookRead)];
      }
      ok := true;
      if o.tif.Ioc? {
        ok := Finish(id, now, "", M.CANCEL_IOC_REMAINDER);
      }
    }

    method ReadBook(readAt: int, read: M.BookRead)
      modifies this`nextBookRead, this`book
      ensures State() == M.ReadBook(cfg, old(State()), readAt, read)
    {
      nextBookRead := readAt + cfg.bookPoll;
      match read
      case ReadFailed =>
      case NoSnapshot =>
      case Snapshot(b) => book := Some(b);
    }

    /** Rereads the market when its time has come, then walks the live orders by id. */
    method Tick(now: int, readAt: int, read: M.BookRead, chance: M.Chance) returns (ok: bool, ghost ids: seq<string>)
      requires Valid() && !failed
      modifies this
      ensures Ordering.Enumerates(ids, old(live).Keys)
      ensures Valid() && history == old(history) + [M.Tick(now, readAt, read, ids, chance)]
      ensures ok == !failed
      ensures ok && cfg.latency >= 2 && cfg.bookPoll > 0 &&
              EngineProgress.Fair(cfg, M.Tick(now, readAt, read, ids, chance)) ==>
                EngineProgress.Rested(State(), now)
    {
      ghost var was := State();
      EveryRunIsConsistent(cfg, openedAt, firstRead, history);
      RefreshKeeps(cfg, was, now, readAt, read);
      if now >= nextBookRead {
        ReadBook(readAt, read);
      }
      ok, ids := WalkLive(now, chance);
      Rests(was, M.Tick(now, readAt, read, ids, chance));
      Took(M.Tick(now, readAt, read, ids, chance), was);
    }

    lemma Rests(was: M.Venue, tick: M.Input)
      requires Consistent(cfg, was) && !was.failed && tick.Tick? && Ordering.Enumerates(tick.ids, was.live.Keys)
      ensures !M.Step(cfg, was, tick).failed && cfg.latency >= 2 && cfg.bookPoll > 0 &&
              EngineProgress.Fair(cfg, tick) ==>
                EngineProgress.Rested(M.Step(cfg, was, tick), tick.now)
    {
      Ordering.IncreasingIsDistinct(tick.ids);
      if cfg.latency >= 2 && cfg.bookPoll > 0 && EngineProgress.Fair(cfg, tick) {
        EngineProgress.AWholeTickRests(cfg, was, tick);
      }
    }

    /** Every live order in turn, in id order. */
    method WalkLive(now: int, chance: M.Chance) returns (ok: bool, ghost ids: seq<string>)
      requires Consistent(cfg, State()) && !failed
      modifies this`live, this`final, this`published, this`stamps, this`failed
      ensures Ordering.Enumerates(ids, old(live).Keys)
      ensures State() == M.EvaluateAll(cfg, old(State()), ids, now, chance)
      ensures ok == !failed
    {
      var walk := Ordering.Sorted(live.Keys);
      ids := walk;
      ok := EvaluateDue(walk, now, chance);
    }

    method EvaluateDue(walk: seq<string>, now: int, chance: M.Chance) returns (ok: bool)
      requires Consistent(cfg, State()) && !failed
      modifies this`live, this`final, this`published, this`stamps, this`failed
      ensures State() == M.EvaluateAll(cfg, old(State()), walk, now, chance)
      ensures ok == !failed
    {
      ghost var start := State();
      ok := true;
      var i := 0;
      while i < |walk| && ok
        invariant 0 <= i <= |walk| && ok == !failed
        invariant State() == M.EvaluateAll(cfg, start, walk[..i], now, chance)
        invariant Consistent(cfg, State())
      {
        OneMoreEvaluated(cfg, start, walk, i, now, chance);
        if walk[i] in live && live[walk[i]].readyAt <= now {
          ok := Evaluate(walk[i], now, chance.Draw(walk[i]), chance.Records(walk[i]));
        }
        i := i + 1;
      }
      StoppedEarly(cfg, start, walk, i, now, chance);
    }

    method CancelRequested(c: M.CancelRequest) returns (reject: Option<M.CancelReject>)
      requires Valid() && !failed
      modifies this
      ensures Valid() && history == old(history) + [M.CancelOrder(c)]
      ensures reject == M.CancelAnswer(old(State()), c)
    {
      ghost var was := State();
      EveryRunIsConsistent(cfg, openedAt, firstRead, history);
      assert OrderOk(cfg, was, c.origClOrdID);
      if c.origClOrdID !in live {
        var status := M.StatusRejected;
        var known := c.origClOrdID in final;
        if known {
          status := final[c.origClOrdID];
        }
        reject := Some(M.CancelReject(c.clOrdID, c.origClOrdID, status, known));
      } else {
        var _ := Finish(c.origClOrdID, c.at, c.clOrdID, M.CANCEL_REQUESTED);
        reject := None;
      }
      Took(M.CancelOrder(c), was);
    }

    /** How long the loop may sleep: never past the next book read nor past the moment an
        order may print, and no less than that. */
    method UntilNextWake(now: int) returns (d: nat)
      ensures d > 0 ==> now + d <= nextBookRead && forall id :: id in live ==> now + d <= live[id].readyAt
      ensures now + d == nextBookRead || (exists id :: id in live && now + d == live[id].readyAt) ||
              (d == 0 && (nextBookRead <= now || exists id :: id in live && live[id].readyAt <= now))
      ensures d > 0 <==> EngineProgress.Rested(State(), now)
    {
      var next := nextBookRead;
      var rest := live.Keys;
      while rest != {}
        invariant rest <= live.Keys
        invariant next <= nextBookRead && forall id :: id in live && id !in rest ==> next <= live[id].readyAt
        invariant next == nextBookRead || exists id :: id in live && next == live[id].readyAt
        decreases |rest|
      {
        var id :| id in rest;
        if live[id].readyAt < next {
          next := live[id].readyAt;
        }
        rest := rest - {id};
      }
      d := if next - now > 0 then next - now else 0;
    }
  }

  lemma OneMoreEvaluated(cfg: M.Config, v: M.Venue, ids: seq<string>, i: nat, now: int, chance: M.Chance)
    requires i < |ids| && Consistent(cfg, M.EvaluateAll(cfg, v, ids[..i], now, chance))
    ensures var w, id := M.EvaluateAll(cfg, v, ids[..i], now, chance), ids[i];
            && (id in w.live ==> w.live[id].clOrdID == id && w.live[id].next < |w.live[id].slices|)
            && Consistent(cfg, M.EvaluateAll(cfg, v, ids[..i + 1], now, chance))
            && M.EvaluateAll(cfg, v, ids[..i + 1], now, chance) ==
               if w.failed || !M.Due(w, id, now) then w
                 else M.Evaluate(cfg, w, id, now, chance.Draw(id), chance.Records(id))
  {
    assert ids[..i + 1][..i] == ids[..i];
    var w := M.EvaluateAll(cfg, v, ids[..i], now, chance);
    assert OrderOk(cfg, w, ids[i]);
    if !w.failed && M.Due(w, ids[i], now) {
      EvaluateKeeps(cfg, w, ids[i], now, chance.Draw(ids[i]), chance.Records(ids[i]));
    }
  }

  lemma FailureEndsTheWalk(cfg: M.Config, v: M.Venue, ids: seq<string>, now: int, chance: M.Chance)
    requires ids != [] && M.EvaluateAll(cfg, v, ids[..|ids| - 1], now, chance).failed
    ensures M.EvaluateAll(cfg, v, ids, now, chance) == M.EvaluateAll(cfg, v, ids[..|ids| - 1], now, chance)
  {
  }

  /** A walk that stops at a fill it could not record has gone as far as the tick goes. */
  lemma {:induction false} StoppedEarly(cfg: M.Config, v: M.Venue, ids: seq<string>, i: nat, now: int, chance: M.Chance)
    requires i <= |ids| && (i == |ids| || M.EvaluateAll(cfg, v, ids[..i], now, chance).failed)
    ensures M.EvaluateAll(cfg, v, ids, now, chance) == M.EvaluateAll(cfg, v, ids[..i], now, chance)
    decreases |ids|
  {
    if i == |ids| {
      assert ids[..i] == ids;
    } else {
      var n := |ids| - 1;
      assert ids[..n][..i] == ids[..i];
      StoppedEarly(cfg, v, ids[..n], i, now, chance);
      FailureEndsTheWalk(cfg, v, ids, now, chance);
    }
  }
}
