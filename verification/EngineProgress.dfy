/** The engine makes progress: a tick leaves nothing due at its own instant, an evaluated
    IOC leaves the book, and an order the market always fills ends in exactly the
    evaluations it has slices for. */
module EngineProgress {
  import opened FillModel
  import opened Matching
  import opened EngineBook

  /** The clock only moves forward, and each draw is one the latency allows. */
  predicate Fair(cfg: Config, input: Input) {
    input.Tick? ==>
      && input.readAt >= input.now
      && forall id :: id in input.chance.draws ==>
           0 <= input.chance.draws[id] && (cfg.latency > 0 ==> input.chance.draws[id] < cfg.latency)
  }

  predicate Distinct(ids: seq<string>) {
    forall i, j :: 0 <= i < j < |ids| ==> ids[i] != ids[j]
  }

  lemma Rest(ids: seq<string>)
    requires ids != [] && Distinct(ids)
    ensures Distinct(ids[..|ids| - 1]) && ids[|ids| - 1] !in ids[..|ids| - 1]
  {
  }

  // ---------------------------------------------------------------------------
  // What one evaluation touches
  // ---------------------------------------------------------------------------

  /** Same market, and nothing different at `k`. */
  predicate Alike(v: Venue, v': Venue, k: string) {
    SameAt(v, v', k) && v'.book == v.book && v'.nextBookRead == v.nextBookRead
  }

  lemma SettleElsewhere(v: Venue, id: string, readyAt: int, now: int, k: string)
    requires id in v.live && k != id
    ensures Alike(v, Settle(v, id, readyAt, now), k)
  {
  }

  lemma PrintElsewhere(cfg: Config, v: Venue, id: string, now: int, recorded: bool, k: string)
    requires id in v.live && v.book.Some? && v.live[id].next < |v.live[id].slices| && k != id
    ensures Alike(v, PrintSlice(cfg, v, id, now, recorded), k)
  {
  }

  lemma StaleElsewhere(v: Venue, id: string, now: int, k: string)
    requires id in v.live && k != id
    ensures Alike(v, Finish(v, id, now, "", CANCEL_NO_MARKET), k) && Alike(v, Defer(v, id, v.nextBookRead), k)
  {
  }

  lemma FillElsewhere(cfg: Config, v: Venue, id: string, now: int, readyAt: int, recorded: bool, k: string)
    requires id in v.live && v.book.Some? && v.live[id].next < |v.live[id].slices| && k != id
    ensures var v' := PrintSlice(cfg, v, id, now, recorded);
            Alike(v, v', k) && (id in v'.live ==> Alike(v, Settle(v', id, readyAt, now), k))
  {
    var v' := PrintSlice(cfg, v, id, now, recorded);
    PrintElsewhere(cfg, v, id, now, recorded, k);
    if id in v'.live {
      SettleElsewhere(v', id, readyAt, now, k);
    }
  }

  lemma EvaluateElsewhere(cfg: Config, v: Venue, id: string, now: int, draw: int, recorded: bool, k: string)
    requires id in v.live && v.live[id].next < |v.live[id].slices| && k != id
    ensures Alike(v, Evaluate(cfg, v, id, now, draw, recorded), k)
  {
    EvaluationIs(cfg, v, id, now, draw, recorded);
    if !BookFresh(cfg, v.book, now) {
      StaleElsewhere(v, id, now, k);
    } else if !Marketable(v.live[id].side, v.live[id].limitPx, v.book.value) {
      SettleElsewhere(v, id, v.nextBookRead, now, k);
    } else {
      FillElsewhere(cfg, v, id, now, now + Jitter(cfg.latency, draw), recorded, k);
    }
  }

  lemma {:induction false} EvaluateAllElsewhere(cfg: Config, v: Venue, ids: seq<string>, now: int, chance: Chance,
                                                k: string)
    requires k !in ids
    ensures Alike(v, EvaluateAll(cfg, v, ids, now, chance), k)
  {
    if ids != [] {
      var n := |ids| - 1;
      assert k !in ids[..n];
      EvaluateAllElsewhere(cfg, v, ids[..n], now, chance, k);
      var v' := EvaluateAll(cfg, v, ids[..n], now, chance);
      if !v'.failed && Due(v', ids[n], now) {
        EvaluateElsewhere(cfg, v', ids[n], now, chance.Draw(ids[n]), chance.Records(ids[n]), k);
      }
    }
  }

  /** One order's evaluation within a tick is the one it would get alone, against the
      market the tick began with. */
  lemma {:induction false} EvaluatedAsIfAlone(cfg: Config, v: Venue, ids: seq<string>, now: int, chance: Chance,
                                              id: string)
    requires Distinct(ids) && id in ids && Due(v, id, now) && !v.failed
    requires !EvaluateAll(cfg, v, ids, now, chance).failed
    ensures SameAt(Evaluate(cfg, v, id, now, chance.Draw(id), chance.Records(id)),
                   EvaluateAll(cfg, v, ids, now, chance), id)
  {
    var n := |ids| - 1;
    Rest(ids);
    var v' := EvaluateAll(cfg, v, ids[..n], now, chance);
    assert !v'.failed;
    if ids[n] == id {
      EvaluateAllElsewhere(cfg, v, ids[..n], now, chance, id);
      AloneIsTheSame(cfg, v, v', id, now, chance.Draw(id), chance.Records(id));
    } else {
      assert id in ids[..n];
      EvaluatedAsIfAlone(cfg, v, ids[..n], now, chance, id);
      if Due(v', ids[n], now) {
        EvaluateElsewhere(cfg, v', ids[n], now, chance.Draw(ids[n]), chance.Records(ids[n]), id);
      }
    }
  }

  lemma SettlesAlike(v: Venue, v': Venue, id: string, readyAt: int, now: int)
    requires Alike(v, v', id) && id in v.live
    ensures Alike(Settle(v, id, readyAt, now), Settle(v', id, readyAt, now), id)
  {
    if v.live[id].tif.Ioc? {
      FinishesAlike(Defer(v, id, readyAt), Defer(v', id, readyAt), id, now, CANCEL_IOC_REMAINDER);
    }
  }

  lemma FinishesAlike(v: Venue, v': Venue, id: string, now: int, reason: string)
    requires Alike(v, v', id) && id in v.live
    ensures Alike(Finish(v, id, now, "", reason), Finish(v', id, now, "", reason), id)
  {
  }

  lemma PrintsAlike(cfg: Config, v: Venue, v': Venue, id: string, now: int, recorded: bool)
    requires Alike(v, v', id) && id in v.live && v.book.Some? && v.live[id].next < |v.live[id].slices|
    ensures Alike(PrintSlice(cfg, v, id, now, recorded), PrintSlice(cfg, v', id, now, recorded), id)
    ensures PrintSlice(cfg, v, id, now, recorded).failed == PrintSlice(cfg, v', id, now, recorded).failed
  {
  }

  lemma AloneIsTheSame(cfg: Config, v: Venue, v': Venue, id: string, now: int, draw: int, recorded: bool)
    requires Alike(v, v', id)
    requires id in v.live && v.live[id].next < |v.live[id].slices|
    ensures Alike(Evaluate(cfg, v, id, now, draw, recorded), Evaluate(cfg, v', id, now, draw, recorded), id)
  {
    var o := v.live[id];
    var e, e' := Evaluate(cfg, v, id, now, draw, recorded), Evaluate(cfg, v', id, now, draw, recorded);
    EvaluationIs(cfg, v, id, now, draw, recorded);
    EvaluationIs(cfg, v', id, now, draw, recorded);
    if !BookFresh(cfg, v.book, now) {
      StaleAlike(v, v', id, now);
    } else {
      var fillable := Marketable(o.side, o.limitPx, v.book.value);
      var w := if fillable then PrintSlice(cfg, v, id, now, recorded) else v;
      var w' := if fillable then PrintSlice(cfg, v', id, now, recorded) else v';
      var at := if fillable then now + Jitter(cfg.latency, draw) else v.nextBookRead;
      if fillable {
        PrintsAlike(cfg, v, v', id, now, recorded);
      }
      assert (e == w && e' == w') || (id in w.live && e == Settle(w, id, at, now) && e' == Settle(w', id, at, now));
      if id in w.live {
        SettlesAlike(w, w', id, at, now);
      }
    }
  }

  lemma StaleAlike(v: Venue, v': Venue, id: string, now: int)
    requires Alike(v, v', id) && id in v.live
    ensures Alike(Finish(v, id, now, "", CANCEL_NO_MARKET), Finish(v', id, now, "", CANCEL_NO_MARKET), id)
    ensures Alike(Defer(v, id, v.nextBookRead), Defer(v', id, v'.nextBookRead), id)
  {
  }

  // ---------------------------------------------------------------------------
  // No spin
  // ---------------------------------------------------------------------------

  lemma EvaluationMovesOn(cfg: Config, v: Venue, id: string, now: int, draw: int, recorded: bool)
    requires id in v.live && v.live[id].next < |v.live[id].slices| && !v.failed
    requires cfg.latency >= 2 && draw >= 0 && v.nextBookRead > now
    ensures var v' := Evaluate(cfg, v, id, now, draw, recorded);
            !v'.failed ==>
              && (id in v'.live ==> v'.live[id].readyAt > now)
              && (v.live[id].tif.Ioc? ==> id !in v'.live)
  {
    EvaluationIs(cfg, v, id, now, draw, recorded);
    if BookFresh(cfg, v.book, now) {
      if Marketable(v.live[id].side, v.live[id].limitPx, v.book.value) {
        var v' := PrintSlice(cfg, v, id, now, recorded);
        PrintingKeepsTerms(cfg, v, id, now, recorded);
        if id in v'.live {
          SettlingMovesOn(v', id, now + Jitter(cfg.latency, draw), now);
        }
      } else {
        SettlingMovesOn(v, id, v.nextBookRead, now);
      }
    }
  }

  lemma SettlingMovesOn(v: Venue, id: string, readyAt: int, now: int)
    requires id in v.live && readyAt > now
    ensures var v' := Settle(v, id, readyAt, now);
            && (id in v'.live ==> v'.live[id].readyAt > now)
            && (v.live[id].tif.Ioc? ==> id !in v'.live)
  {
  }

  lemma PrintingKeepsTerms(cfg: Config, v: Venue, id: string, now: int, recorded: bool)
    requires id in v.live && v.live[id].next < |v.live[id].slices| && v.book.Some?
    ensures var v' := PrintSlice(cfg, v, id, now, recorded);
            id in v'.live ==> v'.live[id].tif == v.live[id].tif && v'.live[id].readyAt == v.live[id].readyAt
  {
  }

  /** After a tick that recorded its fills no order is still due at that tick's instant, so
      the loop never wakes for the same work twice; and no IOC it evaluated is resting. */
  lemma ATickLeavesNothingDue(cfg: Config, v: Venue, input: Input, id: string)
    requires Consistent(cfg, v) && !v.failed && cfg.bookPoll > 0 && cfg.latency >= 2
    requires input.Tick? && Fair(cfg, input) && Distinct(input.ids) && id in input.ids
    ensures var v' := Step(cfg, v, input);
            !v'.failed ==>
              && (id in v'.live ==> v'.live[id].readyAt > input.now)
              && (Due(v, id, input.now) && v.live[id].tif.Ioc? ==> id !in v'.live)
  {
    var r := Refresh(cfg, v, input.now, input.readAt, input.read);
    var v' := Step(cfg, v, input);
    RefreshKeeps(cfg, v, input.now, input.readAt, input.read);
    assert OrderOk(cfg, v, id);
    if !v'.failed {
      if Due(r, id, input.now) {
        EvaluatedAsIfAlone(cfg, r, input.ids, input.now, input.chance, id);
        EvaluationMovesOn(cfg, r, id, input.now, input.chance.Draw(id), input.chance.Records(id));
        NotFailedAlone(cfg, r, input.ids, input.now, input.chance, id);
      } else {
        NotDueIsUntouched(cfg, r, input.ids, input.now, input.chance, id);
      }
    }
  }

  /** Nothing is due at this instant: neither the market nor any order. */
  ghost predicate Rested(v: Venue, now: int) {
    v.nextBookRead > now && forall id :: id in v.live ==> v.live[id].readyAt > now
  }

  lemma {:induction false} EvaluatingKeepsTheMarket(cfg: Config, v: Venue, ids: seq<string>, now: int, chance: Chance)
    ensures var v' := EvaluateAll(cfg, v, ids, now, chance); v'.book == v.book && v'.nextBookRead == v.nextBookRead
  {
    if ids != [] {
      var n := |ids| - 1;
      EvaluatingKeepsTheMarket(cfg, v, ids[..n], now, chance);
      var v' := EvaluateAll(cfg, v, ids[..n], now, chance);
      if !v'.failed && Due(v', ids[n], now) {
        var draw, recorded := chance.Draw(ids[n]), chance.Records(ids[n]);
        EvaluateElsewhere(cfg, v', ids[n], now, draw, recorded, ids[n] + "'");
      }
    }
  }

  /** A tick that walks every live order leaves the whole venue at rest. */
  lemma AWholeTickRests(cfg: Config, v: Venue, input: Input)
    requires Consistent(cfg, v) && !v.failed && cfg.bookPoll > 0 && cfg.latency >= 2
    requires input.Tick? && Fair(cfg, input) && Distinct(input.ids)
    requires forall id :: id in input.ids <==> id in v.live
    ensures !Step(cfg, v, input).failed ==> Rested(Step(cfg, v, input), input.now)
  {
    var r := Refresh(cfg, v, input.now, input.readAt, input.read);
    var v' := Step(cfg, v, input);
    EvaluatingKeepsTheMarket(cfg, r, input.ids, input.now, input.chance);
    if !v'.failed {
      forall id | id in v'.live
        ensures v'.live[id].readyAt > input.now
      {
        if id in input.ids {
          ATickLeavesNothingDue(cfg, v, input, id);
        } else {
          EvaluateAllElsewhere(cfg, r, input.ids, input.now, input.chance, id);
        }
      }
    }
  }

  lemma {:induction false} NotDueIsUntouched(cfg: Config, v: Venue, ids: seq<string>, now: int, chance: Chance,
                                             id: string)
    requires !Due(v, id, now)
    ensures SameAt(v, EvaluateAll(cfg, v, ids, now, chance), id)
  {
    if ids != [] {
      var n := |ids| - 1;
      NotDueIsUntouched(cfg, v, ids[..n], now, chance, id);
      var v' := EvaluateAll(cfg, v, ids[..n], now, chance);
      if !v'.failed && Due(v', ids[n], now) {
        EvaluateElsewhere(cfg, v', ids[n], now, chance.Draw(ids[n]), chance.Records(ids[n]), id);
      }
    }
  }

  /** A tick that failed nowhere would have failed for none of its orders alone. */
  lemma {:induction false} NotFailedAlone(cfg: Config, v: Venue, ids: seq<string>, now: int, chance: Chance, id: string)
    requires Distinct(ids) && id in ids && Due(v, id, now) && !v.failed
    requires !EvaluateAll(cfg, v, ids, now, chance).failed
    ensures !Evaluate(cfg, v, id, now, chance.Draw(id), chance.Records(id)).failed
  {
    var n := |ids| - 1;
    Rest(ids);
    var v' := EvaluateAll(cfg, v, ids[..n], now, chance);
    if ids[n] == id {
      EvaluateAllElsewhere(cfg, v, ids[..n], now, chance, id);
      FailsAlike(cfg, v, v', id, now, chance.Draw(id), chance.Records(id));
    } else {
      NotFailedAlone(cfg, v, ids[..n], now, chance, id);
    }
  }

  lemma SettlingNeverFails(v: Venue, id: string, readyAt: int, now: int)
    requires id in v.live && !v.failed
    ensures !Settle(v, id, readyAt, now).failed
  {
  }

  /** The one way an evaluation fails is a fill the writer would not take. */
  lemma FailsByItsFill(cfg: Config, v: Venue, id: string, now: int, draw: int, recorded: bool)
    requires id in v.live && v.live[id].next < |v.live[id].slices| && !v.failed
    ensures Evaluate(cfg, v, id, now, draw, recorded).failed <==>
            BookFresh(cfg, v.book, now) && Marketable(v.live[id].side, v.live[id].limitPx, v.book.value) &&
            PrintSlice(cfg, v, id, now, recorded).failed
  {
    var o := v.live[id];
    EvaluationIs(cfg, v, id, now, draw, recorded);
    if BookFresh(cfg, v.book, now) {
      if !Marketable(o.side, o.limitPx, v.book.value) {
        SettlingNeverFails(v, id, v.nextBookRead, now);
      } else {
        var v' := PrintSlice(cfg, v, id, now, recorded);
        if !v'.failed && id in v'.live {
          SettlingNeverFails(v', id, now + Jitter(cfg.latency, draw), now);
        }
      }
    }
  }

  lemma FailsAlike(cfg: Config, v: Venue, v': Venue, id: string, now: int, draw: int, recorded: bool)
    requires Alike(v, v', id)
    requires id in v.live && v.live[id].next < |v.live[id].slices| && !v.failed && !v'.failed
    ensures Evaluate(cfg, v, id, now, draw, recorded).failed == Evaluate(cfg, v', id, now, draw, recorded).failed
  {
    FailsByItsFill(cfg, v, id, now, draw, recorded);
    FailsByItsFill(cfg, v', id, now, draw, recorded);
    if v.book.Some? {
      PrintsAlike(cfg, v, v', id, now, recorded);
    }
  }

  // ---------------------------------------------------------------------------
  // An order the market always fills
  // ---------------------------------------------------------------------------

  /** Whether this input evaluates `id`. */
  predicate Evaluates(cfg: Config, v: Venue, input: Input, id: string) {
    && input.Tick? && !v.failed && id in input.ids
    && Due(Refresh(cfg, v, input.now, input.readAt, input.read), id, input.now)
  }

  /** Nobody withdraws `id`, the writer records every fill, and whenever `id` is evaluated
      the market is fresh and fills it. */
  predicate Favourable(cfg: Config, v: Venue, input: Input, id: string) {
    match input
    case Submit(s, _) => s.clOrdID != ""
    case CancelOrder(c) => c.origClOrdID != id
    case Tick(now, readAt, read, ids, chance) =>
      var r := Refresh(cfg, v, now, readAt, read);
      && Distinct(ids) && chance.refused == {}
      && (Evaluates(cfg, v, input, id) ==>
            BookFresh(cfg, r.book, now) && Marketable(r.live[id].side, r.live[id].limitPx, r.book.value))
  }

  predicate FavourableRun(cfg: Config, v: Venue, inputs: seq<Input>, id: string) {
    inputs == [] ||
    (FavourableRun(cfg, v, inputs[..|inputs| - 1], id) &&
     Favourable(cfg, Run(cfg, v, inputs[..|inputs| - 1]), inputs[|inputs| - 1], id))
  }

  function Evaluations(cfg: Config, v: Venue, inputs: seq<Input>, id: string): nat {
    if inputs == [] then 0
    else
      var n := |inputs| - 1;
      Evaluations(cfg, v, inputs[..n], id) + if Evaluates(cfg, Run(cfg, v, inputs[..n]), inputs[n], id) then 1 else 0
  }

  /** `id` has printed `n` more slices than `o` had: it rests while any are left, and is
      filled once none is. */
  predicate Printed(o: LiveOrder, v: Venue, id: string, n: nat) {
    if o.next + n < |o.slices| then
      id in v.live && v.live[id].slices == o.slices && v.live[id].next == o.next + n && v.live[id].tif == o.tif
    else
      id !in v.live && id in v.final && v.final[id].StatusFilled? && o.next + n == |o.slices|
  }

  lemma {:induction false} RecordedTicksNeverFail(cfg: Config, v: Venue, ids: seq<string>, now: int, chance: Chance)
    requires chance.refused == {} && !v.failed
    ensures !EvaluateAll(cfg, v, ids, now, chance).failed
  {
    if ids != [] {
      RecordedTicksNeverFail(cfg, v, ids[..|ids| - 1], now, chance);
    }
  }

  lemma AFavourableTickPrintsOnce(cfg: Config, v: Venue, input: Input, id: string, o: LiveOrder, n: nat)
    requires input.Tick? && !v.failed && Favourable(cfg, v, input, id)
    requires Printed(o, v, id, n) && o.tif.Gtc?
    ensures !Step(cfg, v, input).failed
    ensures Printed(o, Step(cfg, v, input), id, n + if Evaluates(cfg, v, input, id) then 1 else 0)
  {
    var r := Refresh(cfg, v, input.now, input.readAt, input.read);
    RecordedTicksNeverFail(cfg, r, input.ids, input.now, input.chance);
    if Evaluates(cfg, v, input, id) {
      EvaluatedAsIfAlone(cfg, r, input.ids, input.now, input.chance, id);
    } else if id in input.ids {
      NotDueIsUntouched(cfg, r, input.ids, input.now, input.chance, id);
    } else {
      EvaluateAllElsewhere(cfg, r, input.ids, input.now, input.chance, id);
    }
  }

  lemma AnotherInputLeavesItAlone(cfg: Config, v: Venue, input: Input, id: string)
    requires !input.Tick? && !v.failed && Favourable(cfg, v, input, id) && (id in v.live || id in v.final)
    ensures !Step(cfg, v, input).failed && SameAt(v, Step(cfg, v, input), id)
  {
    if input.Submit? {
      RefusedExactlyWhenUnacceptable(cfg, v, input.s);
    }
  }

  /** A GTC order marketable at every evaluation prints one slice at each and leaves the book
      filled at exactly the evaluation that prints its last. */
  lemma {:induction false} AMarketableOrderEndsInExactlyItsSlices(cfg: Config, v: Venue, inputs: seq<Input>, id: string)
    requires id in v.live && v.live[id].next < |v.live[id].slices| && v.live[id].tif.Gtc? && !v.failed
    requires FavourableRun(cfg, v, inputs, id)
    ensures !Run(cfg, v, inputs).failed
    ensures Printed(v.live[id], Run(cfg, v, inputs), id, Evaluations(cfg, v, inputs, id))
  {
    if inputs != [] {
      var k := |inputs| - 1;
      AMarketableOrderEndsInExactlyItsSlices(cfg, v, inputs[..k], id);
      var v', n := Run(cfg, v, inputs[..k]), Evaluations(cfg, v, inputs[..k], id);
      if inputs[k].Tick? {
        AFavourableTickPrintsOnce(cfg, v', inputs[k], id, v.live[id], n);
      } else {
        AnotherInputLeavesItAlone(cfg, v', inputs[k], id);
      }
    }
  }
}
