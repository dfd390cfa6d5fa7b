/** Submitting an id more than once: exactly when the client can be sure to end where the venue
    did. The venue files the refusal of a duplicate under the order it duplicates
    (internal/fix/engine.go, accept), and the client cannot tell it from an end. */
module Duplicates {
  import opened Options
  import O = Orders
  import T = Tracking
  import opened FillModel
  import opened Matching
  import opened EngineBook
  import opened EngineMarket
  import opened EngineResults
  import opened EngineRuns
  import opened Delivery
  import opened Convergence
  import Ids

  // ---------------------------------------------------------------------------
  // Submissions and refusals
  // ---------------------------------------------------------------------------

  /** Every submission of an id was either turned down or is the one that was accepted. */
  ghost predicate AllAnswered(v: Venue, id: string, submitted: int) {
    submitted == Refusals(v.published, id) + if id in v.terms then 1 else 0
  }

  lemma AnAcceptAnswers(cfg: Config, v: Venue, s: Submission, draw: int, id: string, submitted: int)
    requires OrderOk(cfg, v, s.clOrdID) && AllAnswered(v, id, submitted)
    ensures AllAnswered(Accept(cfg, v, s, draw), id, submitted + if s.clOrdID == id then 1 else 0)
  {
    RefusedExactlyWhenUnacceptable(cfg, v, s);
    var v' := Accept(cfg, v, s, draw);
    RefusalsSnoc(v.published, v'.published[|v.published|]);
  }

  lemma OwnKeepsAnswered(v: Venue, v': Venue, id: string, submitted: int)
    requires OnlyOwn(v, v') && AllAnswered(v, id, submitted)
    ensures AllAnswered(v', id, submitted)
  {
    assert OwnAt(v, v', id);
  }

  lemma {:induction false} EverySubmissionIsAnswered(cfg: Config, readAt: int, read: BookRead, inputs: seq<Input>,
                                                     id: string)
    requires AllWellformed(inputs) && !Run(cfg, Opened(cfg, readAt, read), inputs).failed
    ensures AllAnswered(Run(cfg, Opened(cfg, readAt, read), inputs), id, |Submissions(inputs, id)|)
  {
    if inputs != [] {
      var n := |inputs| - 1;
      var v := Run(cfg, Opened(cfg, readAt, read), inputs[..n]);
      EverySubmissionIsAnswered(cfg, readAt, read, inputs[..n], id);
      EveryRunIsConsistent(cfg, readAt, read, inputs[..n]);
      match inputs[n]
      case Submit(s, draw) =>
        assert OrderOk(cfg, v, s.clOrdID);
        AnAcceptAnswers(cfg, v, s, draw, id, |Submissions(inputs[..n], id)|);
      case CancelOrder(c) =>
        if c.origClOrdID in v.live {
          FinishIsOwn(cfg, v, c.origClOrdID, c.at, c.clOrdID, CANCEL_REQUESTED);
          OwnKeepsAnswered(v, Finish(v, c.origClOrdID, c.at, c.clOrdID, CANCEL_REQUESTED), id,
                           |Submissions(inputs, id)|);
        }
      case Tick(now, at, book, ids, chance) =>
        RefreshKeeps(cfg, v, now, at, book);
        var u := Refresh(cfg, v, now, at, book);
        EvaluateAllIsOwn(cfg, u, ids, now, chance);
        OwnKeepsAnswered(u, EvaluateAll(cfg, u, ids, now, chance), id, |Submissions(inputs, id)|);
    }
  }

  lemma {:induction false} ARefusalIsFiled(reports: seq<VenueReport>, id: string) returns (j: nat)
    requires Refusals(reports, id) > 0
    ensures j < |Filed(reports, id)| && TurnsDown(id, Filed(reports, id)[j])
  {
    var n := |reports| - 1;
    if TurnsDown(id, reports[n]) {
      j := |Filed(reports[..n], id)|;
    } else {
      j := ARefusalIsFiled(reports[..n], id);
    }
  }

  // ---------------------------------------------------------------------------
  // A refusal that arrives first
  // ---------------------------------------------------------------------------

  /** On any run that did not fail, a submission is turned down unless every earlier one of its
      id was, its terms are supported and the last snapshot read is recent: and then it is taken. */
  lemma TakenExactlyWhenNewSupportedAndFresh(cfg: Config, readAt: int, read: BookRead, inputs: seq<Input>,
                                             s: Submission, draw: int)
    requires AllWellformed(inputs) && !Run(cfg, Opened(cfg, readAt, read), inputs).failed
    ensures var v := Run(cfg, Opened(cfg, readAt, read), inputs);
            var v' := Step(cfg, v, Submit(s, draw));
            var id, earlier := s.clOrdID, Refusals(v.published, s.clOrdID);
            var market := LastSnapshot(Reads(cfg, readAt, read, inputs));
            if earlier == |Submissions(inputs, id)| && Supported(cfg, s) && Recent(cfg, market, s.at)
            then Refusals(v'.published, id) == earlier && id in v'.live
            else Refusals(v'.published, id) == earlier + 1 && v'.live == v.live && v'.final == v.final
  {
    var v := Run(cfg, Opened(cfg, readAt, read), inputs);
    EverySubmissionIsAnswered(cfg, readAt, read, inputs, s.clOrdID);
    LiveAndFinishedPartitionTheAccepted(cfg, readAt, read, inputs);
    assert s.clOrdID in v.live.Keys + v.final.Keys <==> s.clOrdID in v.terms.Keys;
    TheMarketIsTheLastSnapshot(cfg, readAt, read, inputs);
    TakenOrNot(cfg, v, s, draw);
  }

  lemma TakenOrNot(cfg: Config, v: Venue, s: Submission, draw: int)
    requires s.clOrdID in v.live || s.clOrdID in v.final <==> s.clOrdID in v.terms
    ensures var v' := Accept(cfg, v, s, draw);
            if s.clOrdID !in v.terms && Supported(cfg, s) && BookFresh(cfg, v.book, s.at)
            then Refusals(v'.published, s.clOrdID) == Refusals(v.published, s.clOrdID) && s.clOrdID in v'.live
            else Refusals(v'.published, s.clOrdID) == Refusals(v.published, s.clOrdID) + 1 &&
                 v'.live == v.live && v'.final == v.final
  {
    RefusedExactlyWhenUnacceptable(cfg, v, s);
    var v' := Accept(cfg, v, s, draw);
    RefusalsSnoc(v.published, v'.published[|v.published|]);
  }

  /** The client believes the order was refused. */
  predicate BelievedRefused(l: T.Life) {
    l.rec.Some? && l.rec.value.status.state.Rejected?
  }

  lemma AFirstRefusalIsBelieved(timeout: int, id: string, r: VenueReport)
    requires TurnsDown(id, r)
    ensures BelievedRefused(T.Step(timeout, id, T.UNKNOWN, T.Report(Translate(r).(receivedAt := None))))
  {
  }

  lemma ABeliefStands(timeout: int, id: string, l: T.Life, m: O.ExecReport)
    requires BelievedRefused(l)
    ensures BelievedRefused(T.Step(timeout, id, l, T.Report(m)))
  {
  }

  /** The first n messages, one after another. */
  function InTurn(n: nat): (arrivals: seq<Arrival>)
    ensures |arrivals| == n && forall k :: 0 <= k < n ==> arrivals[k] == Message(k, None)
  {
    if n == 0 then [] else InTurn(n - 1) + [Message(n - 1, None)]
  }

  /** Delivered first, a refusal is believed whatever else arrives. */
  lemma {:induction false} ARefusalFirst(timeout: int, id: string, qty: real, reports: seq<VenueReport>, j: nat, n: nat)
    requires j < |reports| && TurnsDown(id, reports[j]) && n <= |reports|
    ensures AllDrawn(id, qty, Messages(reports), [Message(j, None)] + InTurn(n))
    ensures BelievedRefused(Arrive(timeout, id, Messages(reports), [Message(j, None)] + InTurn(n)))
  {
    var ms, arrivals := Messages(reports), [Message(j, None)] + InTurn(n);
    if n == 0 {
      assert arrivals == [Message(j, None)] && arrivals[..0] == [];
      AFirstRefusalIsBelieved(timeout, id, reports[j]);
    } else {
      ARefusalFirst(timeout, id, qty, reports, j, n - 1);
      assert arrivals[..|arrivals| - 1] == [Message(j, None)] + InTurn(n - 1);
      ABeliefStands(timeout, id, Arrive(timeout, id, ms, [Message(j, None)] + InTurn(n - 1)),
                    ms[n - 1].(receivedAt := None));
    }
  }

  /** What the refusal of a duplicate does to a record still open: it is filed under the live
      order, and ends it as REJECTED, when nothing of it has been seen filled, or is judged
      invalid. */
  lemma ADuplicateIdMisleadsTheTracker(cfg: Config, v: Venue, s: Submission, draw: int, t: T.Tracked)
    requires s.clOrdID in v.live && !t.status.Terminal() && t.status.cumQty >= 0.0 && t.status.qty >= 0.0
    requires Ids.ExecId(cfg.start, Ids.Counted(v.execs + 1)) !in t.seen
    ensures var v' := Accept(cfg, v, s, draw);
            var r := v'.published[|v.published|];
            var (t', outcome) := T.ApplyKnown(t, Translate(r));
            && s.clOrdID in v'.live && FiledUnder(r) == s.clOrdID
            && if t.status.cumQty == 0.0 then outcome.Applied? && t'.status.state.Rejected? else outcome.Invalid?
  {
    RefusedExactlyWhenUnacceptable(cfg, v, s);
  }

  // ---------------------------------------------------------------------------
  // The exact condition
  // ---------------------------------------------------------------------------

  /** The record shows how the venue ended the order it accepted. */
  predicate ShowsTheEnd(v: Venue, id: string, rec: Option<T.Tracked>) {
    var life := LifeOf(v.published, id);
    && id in v.final && life != [] && rec.Some?
    && var s, last := rec.value.status, life[|life| - 1];
    && s.Terminal() && SameEnd(s.state, v.final[id]) && s.leavesQty == 0.0
    && s.cumQty == last.cumQty && s.avgPx == last.avgPx && s.venueID == last.orderID
  }

  /** Everything sent about the order arrives, in any order, any number of times. */
  ghost predicate DeliversAll(id: string, qty: real, ms: seq<O.ExecReport>, arrivals: seq<Arrival>) {
    && AllDrawn(id, qty, ms, arrivals)
    && forall i :: 0 <= i < |ms| ==> Arrives(arrivals, i)
  }

  ghost predicate Converges(v: Venue, id: string)
    requires id in v.terms
  {
    forall timeout, arrivals :: DeliversAll(id, v.terms[id].qty, SentMessages(v, id), arrivals) ==>
      ShowsTheEnd(v, id, Arrive(timeout, id, SentMessages(v, id), arrivals).rec)
  }

  lemma AcceptedOrdersEndOtherwise(cfg: Config, v: Venue, id: string)
    requires OrderOk(cfg, v, id) && id in v.final && id !in v.live
    ensures id in v.terms && v.terms[id].qty > 0.0
    ensures v.final[id].StatusFilled? || v.final[id].StatusCanceled?
    ensures var life := LifeOf(v.published, id); life != [] && life[|life| - 1].ordStatus == v.final[id]
  {
  }

  /** What the venue sent about an order submitted once is the order's own life. */
  lemma OnceIsItsLife(cfg: Config, v: Venue, id: string, subs: seq<Submission>)
    requires OrderOk(cfg, v, id) && id in v.final && id !in v.live && !v.failed && Settled(cfg, v, id, subs)
             && |subs| == 1
    ensures id in v.terms && v.terms[id].qty > 0.0 && v.terms[id].qty == subs[0].qty
    ensures var sent := Filed(v.Sent(), id);
            sent == LifeOf(v.published, id) && sent != [] && sent[|sent| - 1].ordStatus.Ends()
  {
    AcceptedOrdersEndOtherwise(cfg, v, id);
  }

  lemma TheEndIsShown(v: Venue, id: string, rec: Option<T.Tracked>)
    requires EndsWhereTheVenueDid(v, id, rec) && Filed(v.Sent(), id) == LifeOf(v.published, id)
    requires id in v.terms && id in v.final
    ensures ShowsTheEnd(v, id, rec)
  {
  }

  lemma OnceConvergesFrom(v: Venue, id: string, qty: real, timeout: int, arrivals: seq<Arrival>)
    requires id in v.final && id in v.terms && Ladder(id, qty, SentMessages(v, id))
    requires DeliversAll(id, qty, SentMessages(v, id), arrivals) && SaidHowItEnded(v, id)
    ensures ShowsTheEnd(v, id, Arrive(timeout, id, SentMessages(v, id), arrivals).rec)
  {
    assert Arrives(arrivals, |SentMessages(v, id)| - 1);
    ALadderConverges(v, id, qty, timeout, arrivals);
    TheEndIsShown(v, id, Arrive(timeout, id, SentMessages(v, id), arrivals).rec);
  }

  /** What was sent about the order is its life, and the last of it how the venue ended it. */
  predicate SaidHowItEnded(v: Venue, id: string) {
    var sent := Filed(v.Sent(), id);
    && sent == LifeOf(v.published, id) && sent != []
    && sent[|sent| - 1].ordStatus.Ends() && EndsAs(v, id, sent[|sent| - 1])
  }

  lemma OnceSaysHowItEnded(cfg: Config, v: Venue, id: string, subs: seq<Submission>)
    requires Consistent(cfg, v) && Settled(cfg, v, id, subs) && |subs| == 1 && !v.failed
    requires id in v.terms && id in v.final
    ensures v.terms[id].qty > 0.0 && v.terms[id].qty == subs[0].qty && SaidHowItEnded(v, id)
  {
    assert OrderOk(cfg, v, id);
    OnceIsItsLife(cfg, v, id, subs);
    TheLastSentIsTheEnd(cfg, v, id, subs);
  }

  /** Submitted once, the order ends at the client as it did at the venue. */
  lemma OnceConverges(cfg: Config, readAt: int, read: BookRead, inputs: seq<Input>, id: string)
    requires AllWellformed(inputs) && |Submissions(inputs, id)| == 1
    requires var v := Run(cfg, Opened(cfg, readAt, read), inputs); !v.failed && id in v.final && id in v.terms
    ensures Converges(Run(cfg, Opened(cfg, readAt, read), inputs), id)
  {
    var v := Run(cfg, Opened(cfg, readAt, read), inputs);
    TheRunSaidHowItEnded(cfg, readAt, read, inputs, id);
    OneQuantity(Submissions(inputs, id));
    WhatWasSentIsALadder(cfg, readAt, read, inputs, id, v.terms[id].qty);
    ALadderAlwaysConverges(v, id);
  }

  lemma OneQuantity(subs: seq<Submission>)
    requires |subs| == 1
    ensures forall s :: s in subs ==> s.qty == subs[0].qty
  {
  }

  lemma TheRunSaidHowItEnded(cfg: Config, readAt: int, read: BookRead, inputs: seq<Input>, id: string)
    requires AllWellformed(inputs) && |Submissions(inputs, id)| == 1
    requires var v := Run(cfg, Opened(cfg, readAt, read), inputs); !v.failed && id in v.final && id in v.terms
    ensures var v := Run(cfg, Opened(cfg, readAt, read), inputs);
            v.terms[id].qty > 0.0 && v.terms[id].qty == Submissions(inputs, id)[0].qty && SaidHowItEnded(v, id)
  {
    EveryRunIsConsistent(cfg, readAt, read, inputs);
    AnIdSubmittedOnceIsSettled(cfg, readAt, read, inputs, id);
    OnceSaysHowItEnded(cfg, Run(cfg, Opened(cfg, readAt, read), inputs), id, Submissions(inputs, id));
  }

  lemma ALadderAlwaysConverges(v: Venue, id: string)
    requires id in v.final && id in v.terms && Ladder(id, v.terms[id].qty, SentMessages(v, id)) && SaidHowItEnded(v, id)
    ensures Converges(v, id)
  {
    forall timeout, arrivals | DeliversAll(id, v.terms[id].qty, SentMessages(v, id), arrivals)
      ensures ShowsTheEnd(v, id, Arrive(timeout, id, SentMessages(v, id), arrivals).rec)
    {
      OnceConvergesFrom(v, id, v.terms[id].qty, timeout, arrivals);
    }
  }

  /** Submitted again, there is a delivery of everything sent that ends as REJECTED. */
  lemma TwiceMayNot(v: Venue, id: string)
    requires !v.failed && id in v.terms && id in v.final && !v.final[id].StatusRejected?
             && Refusals(v.published, id) > 0
    ensures !Converges(v, id)
  {
    var reports := Filed(v.published, id);
    var j := ARefusalIsFiled(v.published, id);
    var arrivals := [Message(j, None)] + InTurn(|reports|);
    ARefusalFirst(0, id, v.terms[id].qty, reports, j, |reports|);
    assert v.Sent() == v.published && SentMessages(v, id) == Messages(reports);
    forall i | 0 <= i < |reports|
      ensures Arrives(arrivals, i)
    {
      assert arrivals[i + 1] == InTurn(|reports|)[i];
    }
    assert DeliversAll(id, v.terms[id].qty, SentMessages(v, id), arrivals);
    assert !ShowsTheEnd(v, id, Arrive(0, id, SentMessages(v, id), arrivals).rec);
  }

  /** For an order the venue accepted and ended, every delivery of everything it sent leaves
      the client where the venue ended exactly when the id was submitted once. */
  lemma ConvergesExactlyWhenSubmittedOnce(cfg: Config, readAt: int, read: BookRead, inputs: seq<Input>, id: string)
    requires AllWellformed(inputs)
    requires var v := Run(cfg, Opened(cfg, readAt, read), inputs); !v.failed && id in v.final
    ensures var v := Run(cfg, Opened(cfg, readAt, read), inputs);
            id in v.terms && (Converges(v, id) <==> |Submissions(inputs, id)| == 1)
  {
    var v := Run(cfg, Opened(cfg, readAt, read), inputs);
    EveryRunIsConsistent(cfg, readAt, read, inputs);
    assert OrderOk(cfg, v, id);
    AcceptedOrdersEndOtherwise(cfg, v, id);
    EverySubmissionIsAnswered(cfg, readAt, read, inputs, id);
    if |Submissions(inputs, id)| == 1 {
      OnceConverges(cfg, readAt, read, inputs, id);
    } else {
      TwiceMayNot(v, id);
    }
  }

  // ---------------------------------------------------------------------------
  // A run that misleads the client
  // ---------------------------------------------------------------------------

  /** One contract submitted, submitted again while it rests, and then filled. */
  function SubmittedTwice(px: real): seq<Input> {
    [Submit(AnOrder(Buy, 1.0, px), 0), Submit(AnOrder(Buy, 1.0, px), 0), TheTick()]
  }

  /** The book once the duplicate has been refused. */
  function Refused(px: real): Venue {
    Refuse(PlainVenue(0), Resting(0, Buy, 1.0, px), AnOrder(Buy, 1.0, px), REJECT_DUPLICATE)
  }

  lemma TheDuplicateIsRefused(px: real)
    requires px > 0.0
    ensures var cfg := PlainVenue(0);
            Run(cfg, Opened(cfg, 0, LockedAt(px)), SubmittedTwice(px)[..2]) == Refused(px)
  {
    var cfg, s := PlainVenue(0), AnOrder(Buy, 1.0, px);
    assert SubmittedTwice(px)[..2][..1] == [Submit(s, 0)];
    TheOrderRests(0, Buy, 1.0, px);
    assert Refusal(cfg, Resting(0, Buy, 1.0, px), s) == REJECT_DUPLICATE;
  }

  /** What the venue published: an acknowledgement, a refusal and a fill, all under one id. */
  lemma WhatTheVenueSaid(px: real)
    requires px > 0.0
    ensures var cfg := PlainVenue(0);
            var v := Run(cfg, Opened(cfg, 0, LockedAt(px)), SubmittedTwice(px));
            && !v.failed && "A" in v.final && v.final["A"].StatusFilled? && |v.published| == 3
            && var p := v.published;
               && (forall i :: 0 <= i < 3 ==> FiledUnder(p[i]) == "A")
               && p[0].ordStatus.StatusNew? && p[0].cumQty == 0.0 && p[0].execID == Ids.ExecId(0, Ids.Counted(1))
               && TurnsDown("A", p[1]) && p[1].execID == Ids.ExecId(0, Ids.Counted(2))
  {
    var cfg := PlainVenue(0);
    TheDuplicateIsRefused(px);
    OneToEvaluate(cfg, Refused(px));
    EvaluationIs(cfg, Refused(px), "A", 0, 0, true);
    assert SliceSizes(1.0, 1.0, 2) == [1.0];
    assert SubmittedTwice(px)[..2] == SubmittedTwice(px)[..|SubmittedTwice(px)| - 1];
  }

  lemma ThreeFiled(reports: seq<VenueReport>, id: string)
    requires |reports| == 3 && forall i :: 0 <= i < 3 ==> FiledUnder(reports[i]) == id
    ensures Filed(reports, id) == reports
  {
    assert reports[..2][..1] == reports[..1] && reports[..1][..0] == [];
    assert Filed(reports[..1], id) == [reports[0]];
    assert Filed(reports[..2], id) == [reports[0], reports[1]];
  }

  /** The life of the order once its submitter has registered it and `n` of the messages have
      come, in the order they were sent. */
  function Delivered(timeout: int, ms: seq<O.ExecReport>, n: nat): T.Life
    requires n <= |ms|
  {
    Arrive(timeout, "A", ms, TheRegistration() + InTurn(n))
  }

  function TheRegistration(): seq<Arrival> {
    [Registration(O.Order("A", "perp", 1.0), O.Ack("", 0))]
  }

  lemma DeliveredNext(timeout: int, ms: seq<O.ExecReport>, n: nat)
    requires n < |ms|
    ensures Delivered(timeout, ms, n + 1)
         == T.Step(timeout, "A", Delivered(timeout, ms, n), T.Report(ms[n].(receivedAt := None)))
  {
    var arrivals := TheRegistration() + InTurn(n + 1);
    assert arrivals[..|arrivals| - 1] == TheRegistration() + InTurn(n);
  }

  lemma DeliveredNothing(timeout: int, ms: seq<O.ExecReport>)
    ensures Delivered(timeout, ms, 0).rec == Some(T.Registered(timeout, O.Order("A", "perp", 1.0), O.Ack("", 0)))
  {
    assert TheRegistration() + InTurn(0) == TheRegistration() && TheRegistration()[..0] == [];
    assert Arrive(timeout, "A", ms, TheRegistration()[..0]) == T.UNKNOWN;
  }

  lemma AKnownRefusal(timeout: int, l: T.Life, r: O.ExecReport)
    requires l.rec.Some? && l.rec.value.status.state.New? && l.rec.value.status.cumQty == 0.0
             && l.rec.value.status.qty == 1.0
    requires r.clOrdID == "A" && r.state.Rejected? && r.cumQty == 0.0 && r.execID !in l.rec.value.seen
    ensures BelievedRefused(T.Step(timeout, "A", l, T.Report(r)))
  {
    assert T.ApplyKnown(l.rec.value, r).1.Applied?;
    assert T.StepReport(timeout, l, r).rec == Some(T.ApplyKnown(l.rec.value, r).0);
  }

  /** A registered order, acknowledged and then refused, is believed refused. */
  lemma RefusedOnceResting(timeout: int, l: T.Life, entry: VenueReport, refusal: VenueReport)
    requires l.rec == Some(T.Registered(timeout, O.Order("A", "perp", 1.0), O.Ack("", 0)))
    requires FiledUnder(entry) == "A" && entry.ordStatus.StatusNew? && entry.cumQty == 0.0
    requires TurnsDown("A", refusal) && refusal.execID != entry.execID
    ensures var l' := T.Step(timeout, "A", l, T.Report(Translate(entry).(receivedAt := None)));
            BelievedRefused(T.Step(timeout, "A", l', T.Report(Translate(refusal).(receivedAt := None))))
  {
    var t := T.Registered(timeout, O.Order("A", "perp", 1.0), O.Ack("", 0));
    assert T.ApplyKnown(t, Translate(entry).(receivedAt := None)).1.Applied?;
    var l' := T.Step(timeout, "A", l, T.Report(Translate(entry).(receivedAt := None)));
    AKnownRefusal(timeout, l', Translate(refusal).(receivedAt := None));
  }

  /** The order registered, and everything the venue sent delivered once and in the order it was
      sent: the venue filled it and the client believes it was refused. */
  lemma ADuplicateIsTakenForAnEnd(px: real, timeout: int)
    requires px > 0.0
    ensures var cfg := PlainVenue(0);
            var v := Run(cfg, Opened(cfg, 0, LockedAt(px)), SubmittedTwice(px));
            var ms := SentMessages(v, "A");
            && |Submissions(SubmittedTwice(px), "A")| == 2 && |ms| == 3
            && "A" in v.final && v.final["A"].StatusFilled?
            && BelievedRefused(Delivered(timeout, ms, 3))
  {
    var cfg := PlainVenue(0);
    var v := Run(cfg, Opened(cfg, 0, LockedAt(px)), SubmittedTwice(px));
    WhatTheVenueSaid(px);
    TwoSubmissions(px);
    ThreeFiled(v.published, "A");
    Distinct12();
    InOrderTheyMislead(timeout, v.published);
  }

  lemma Distinct12()
    ensures Ids.ExecId(0, Ids.Counted(1)) != Ids.ExecId(0, Ids.Counted(2))
  {
    if Ids.ExecId(0, Ids.Counted(1)) == Ids.ExecId(0, Ids.Counted(2)) {
      Ids.ExecIdInjective(0, Ids.Counted(1), 0, Ids.Counted(2));
      assert false;
    }
  }

  lemma InOrderTheyMislead(timeout: int, reports: seq<VenueReport>)
    requires |reports| == 3
    requires FiledUnder(reports[0]) == "A" && reports[0].ordStatus.StatusNew? && reports[0].cumQty == 0.0
    requires TurnsDown("A", reports[1]) && reports[1].execID != reports[0].execID
    ensures BelievedRefused(Delivered(timeout, Messages(reports), 3))
  {
    var ms := Messages(reports);
    DeliveredNothing(timeout, ms);
    DeliveredNext(timeout, ms, 0);
    DeliveredNext(timeout, ms, 1);
    DeliveredNext(timeout, ms, 2);
    RefusedOnceResting(timeout, Delivered(timeout, ms, 0), reports[0], reports[1]);
    ABeliefStands(timeout, "A", Delivered(timeout, ms, 2), ms[2].(receivedAt := None));
  }

  lemma TwoSubmissions(px: real)
    ensures |Submissions(SubmittedTwice(px), "A")| == 2
  {
    var inputs := SubmittedTwice(px);
    assert inputs[..2][..1] == inputs[..1] && inputs[..1][..0] == [];
    assert |Submissions(inputs[..1], "A")| == 1;
  }
}
