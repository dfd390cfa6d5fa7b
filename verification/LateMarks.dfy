/** Marks that come after their hour was computed, and hours computed after their marks have
    gone (internal/ingest/fundingrunner.go): what a missing mark does to the stored rate, and
    which late hours could still be marked. */
module LateMarks {
  import opened Options
  import opened Decimals
  import opened FundingRate
  import opened LiveFunding

  // ---------------------------------------------------------------------------
  // What missing marks do to a rate
  // ---------------------------------------------------------------------------

  lemma {:induction false} PremiumsAddUp(xs: seq<MarkSample>, ys: seq<MarkSample>)
    requires PremiumSum(xs + ys).Marked?
    ensures PremiumSum(xs).Marked? && PremiumSum(ys).Marked?
    ensures PremiumSum(xs + ys).value == PremiumSum(xs).value + PremiumSum(ys).value
  {
    if ys == [] {
      assert xs + ys == xs;
    } else {
      assert (xs + ys)[..|xs + ys| - 1] == xs + ys[..|ys| - 1];
      PremiumsAddUp(xs, ys[..|ys| - 1]);
    }
  }

  /** The mean of the premiums as they are, each already rounded. */
  function Mean(samples: seq<MarkSample>): real
    requires samples != [] && PremiumSum(samples).Marked?
  {
    PremiumSum(samples).value / |samples| as real
  }

  /** How far the marks of an hour that are missing pull its mean from that of the marks that
      are in: how far they stand from it, by their share of the hour. */
  function Pull(present: seq<MarkSample>, missing: seq<MarkSample>): real
    requires present != [] && PremiumSum(present).Marked? && PremiumSum(missing).Marked?
  {
    if missing == [] then 0.0
    else Times(Mean(missing) - Mean(present), |missing| as real) / (|present| + |missing|) as real
  }

  lemma MeansPull(s: real, x: real, n: real, m: real)
    requires n > 0.0 && m > 0.0
    ensures (s + x) / (n + m) - s / n == Times(x / m - s / n, m) / (n + m)
  {
    var a, b := x / m, s / n;
    assert Times(a, m) == x && Times(b, n) == s;
    TimesMinus(m, a, b);
    var q, p := (s + x) / (n + m), Times(a - b, m) / (n + m);
    assert Times(q, n + m) == s + x && Times(p, n + m) == x - Times(b, m);
    assert Times(b, n + m) == s + Times(b, m);
    assert Times(q - b - p, n + m) == 0.0;
    assert q - b - p == 0.0;
  }

  lemma TheMeanMoves(present: seq<MarkSample>, missing: seq<MarkSample>)
    requires present != [] && PremiumSum(present + missing).Marked?
    ensures PremiumSum(present).Marked? && PremiumSum(missing).Marked?
    ensures Mean(present + missing) - Mean(present) == Pull(present, missing)
  {
    PremiumsAddUp(present, missing);
    if missing == [] {
      assert present + missing == present;
    } else {
      MeansPull(PremiumSum(present).value, PremiumSum(missing).value, |present| as real, |missing| as real);
    }
  }

  /** How much of a premium reaches the rate. */
  function Weight(previous: Option<real>): real {
    if previous.Some? then 0.75 else 1.0
  }

  lemma SmoothedGap(p: real, q: real, x: real, pull: real, previous: Option<real>)
    requires Abs(p - x) <= UNIT / 2.0 && Abs(q - (x + pull)) <= UNIT / 2.0 && OnGrid(p) && OnGrid(q)
    ensures Abs(Round16(Smooth(q, previous)) - Round16(Smooth(p, previous)) - Times(Weight(previous), pull))
            <= UNIT * 7.0 / 4.0
  {
    if previous.Some? {
      var r, s := Smooth(p, previous), Smooth(q, previous);
      assert Abs(Round16(r) - r) <= UNIT / 2.0 && Abs(Round16(s) - s) <= UNIT / 2.0;
      assert s - r == 0.75 * (q - p);
    } else {
      RoundKeepsGrid(p);
      RoundKeepsGrid(q);
    }
  }

  /** The outcome of an hour from its marks, as a function of what they add up to. */
  lemma RateOfTheMean(hour: int, samples: seq<MarkSample>, previous: Option<real>)
    requires Rate(hour, samples, previous).Marked?
    ensures InHour(samples, hour) != [] && PremiumSum(InHour(samples, hour)).Marked?
    ensures var f := Rate(hour, samples, previous).value;
            && f.premium == Round16(Mean(InHour(samples, hour)))
            && f.rate == Round16(Smooth(f.premium, previous))
  {
  }

  /** How far the rate of an hour moves when it is computed from more marks. */
  ghost function RateGap(hour: int, window: seq<MarkSample>, history: seq<MarkSample>, previous: Option<real>): real
    requires Rate(hour, window, previous).Marked? && Rate(hour, history, previous).Marked?
  {
    Rate(hour, history, previous).value.rate - Rate(hour, window, previous).value.rate
  }

  /** The stored rate of an hour computed without some of its marks is off by the pull of the
      missing ones, weighted as a premium is, and by no more and no less than that to within
      seven quarters of a unit. */
  lemma MissingMarksPullTheRate(hour: int, window: seq<MarkSample>, history: seq<MarkSample>,
                                present: seq<MarkSample>, missing: seq<MarkSample>, previous: Option<real>)
    requires InHour(window, hour) == present && InHour(history, hour) == present + missing
    requires Rate(hour, window, previous).Marked? && Rate(hour, history, previous).Marked?
    ensures present != [] && PremiumSum(present).Marked? && PremiumSum(missing).Marked?
    ensures Abs(RateGap(hour, window, history, previous) - Times(Weight(previous), Pull(present, missing)))
            <= UNIT * 7.0 / 4.0
  {
    RateOfTheMean(hour, window, previous);
    RateOfTheMean(hour, history, previous);
    TheMeanMoves(present, missing);
    SmoothedGap(Round16(Mean(present)), Round16(Mean(present + missing)), Mean(present), Pull(present, missing),
                previous);
  }

  lemma TheHourSplits(closed: int -> bool, r: Runner, events: seq<Event>, n: nat, hour: int)
    requires r.samples == [] && n <= |events| && NoneAfter(Observed(events[..n]), hour + RETENTION)
    ensures InHour(Run(closed, r, events[..n]).samples, hour) == InHour(Observed(events[..n]), hour)
    ensures InHour(Observed(events), hour)
         == InHour(Observed(events[..n]), hour) + InHour(Observed(events[n..]), hour)
  {
    TheWindowHoldsTheHour(closed, r, events[..n], hour);
    ObservedPrefix(events, n);
    InHourAppend(Observed(events[..n]), Observed(events[n..]), hour);
  }

  /** So on every run: an hour computed while some of its marks are still to come, and none
      more than an hour past its end has, stores a rate off by their weighted pull. */
  lemma AnHourComputedEarlyIsOffByThePull(closed: int -> bool, r: Runner, events: seq<Event>, n: nat, hour: int,
                                          previous: Option<real>)
    requires r.samples == [] && n <= |events| && NoneAfter(Observed(events[..n]), hour + RETENTION)
    requires Rate(hour, Run(closed, r, events[..n]).samples, previous).Marked?
    requires Rate(hour, Observed(events), previous).Marked?
    ensures var present, missing := InHour(Observed(events[..n]), hour), InHour(Observed(events[n..]), hour);
            && present != [] && PremiumSum(present).Marked? && PremiumSum(missing).Marked?
            && Abs(RateGap(hour, Run(closed, r, events[..n]).samples, Observed(events), previous)
                   - Times(Weight(previous), Pull(present, missing))) <= UNIT * 7.0 / 4.0
  {
    TheHourSplits(closed, r, events, n, hour);
    MissingMarksPullTheRate(hour, Run(closed, r, events[..n]).samples, Observed(events),
                            InHour(Observed(events[..n]), hour), InHour(Observed(events[n..]), hour), previous);
  }

  // ---------------------------------------------------------------------------
  // Flat hours
  // ---------------------------------------------------------------------------

  predicate HasPremium(s: MarkSample, p: real) {
    Premium(s) == Marked(p)
  }

  predicate Flat(samples: seq<MarkSample>, p: real) {
    forall i :: 0 <= i < |samples| ==> HasPremium(samples[i], p)
  }

  /** A premium added up n times. */
  function Repeated(p: real, n: nat): real {
    if n == 0 then 0.0 else Repeated(p, n - 1) + p
  }

  lemma {:induction false} FlatSum(samples: seq<MarkSample>, p: real)
    requires Flat(samples, p)
    ensures PremiumSum(samples) == Marked(Repeated(p, |samples|))
  {
    if samples != [] {
      var n := |samples| - 1;
      assert Flat(samples[..n], p);
      FlatSum(samples[..n], p);
      assert HasPremium(samples[n], p);
    }
  }

  lemma {:induction false} RepeatedIsTimes(p: real, n: nat)
    ensures Repeated(p, n) == Times(n as real, p)
  {
    if n > 0 {
      RepeatedIsTimes(p, n - 1);
      TimesNext((n - 1) as real, p);
    }
  }

  lemma SharedOut(p: real, n: nat)
    requires n > 0
    ensures Repeated(p, n) / n as real == p
  {
    RepeatedIsTimes(p, n);
    var d := n as real;
    assert Times(d, p) / d == p;
  }

  lemma FlatPremium(hour: int, samples: seq<MarkSample>, p: real, previous: Option<real>)
    requires Flat(InHour(samples, hour), p) && |InHour(samples, hour)| >= MIN_SAMPLES && OnGrid(p)
    ensures Rate(hour, samples, previous).Marked?
    ensures Rate(hour, samples, previous).value.rate == Round16(Smooth(p, previous))
  {
    var inHour := InHour(samples, hour);
    FlatSum(inHour, p);
    SharedOut(p, |inHour|);
    RoundKeepsGrid(p);
    assert Rate(hour, samples, previous).Marked?;
    RateOfTheMean(hour, samples, previous);
  }

  /** Whatever number of an hour's marks are missing, the rate stored is the batch's when every
      mark of the hour has the same premium. */
  lemma AFlatHourIsStoredTheSame(hour: int, window: seq<MarkSample>, history: seq<MarkSample>, p: real,
                                 previous: Option<real>)
    requires Flat(InHour(window, hour), p) && Flat(InHour(history, hour), p) && OnGrid(p)
    requires |InHour(window, hour)| >= MIN_SAMPLES && |InHour(history, hour)| >= MIN_SAMPLES
    ensures Rate(hour, window, previous).Marked? && Rate(hour, history, previous).Marked?
    ensures Rate(hour, window, previous).value.rate == Rate(hour, history, previous).value.rate
  {
    FlatPremium(hour, window, p, previous);
    FlatPremium(hour, history, p, previous);
  }

  // ---------------------------------------------------------------------------
  // Even marks
  // ---------------------------------------------------------------------------

  const INTERVAL: int := 180_000_000_000

  /** The k-th mark of the first hour, with both products at one price. */
  function EvenMark(k: nat): MarkSample {
    MarkSample(k * INTERVAL, 1.0, 1.0)
  }

  function EvenMarks(n: nat): seq<MarkSample> {
    if n == 0 then [] else EvenMarks(n - 1) + [EvenMark(n)]
  }

  lemma {:induction false} EvenMarksAre(n: nat, i: nat)
    requires i < n
    ensures |EvenMarks(n)| == n && EvenMarks(n)[i] == EvenMark(i + 1)
  {
    CountEvenMarks(n);
    CountEvenMarks(n - 1);
    if i < n - 1 {
      EvenMarksAre(n - 1, i);
    }
  }

  lemma {:induction false} CountEvenMarks(n: nat)
    ensures |EvenMarks(n)| == n
  {
    if n > 0 {
      CountEvenMarks(n - 1);
    }
  }

  lemma EvenMarkHasNoPremium(k: nat)
    ensures HasPremium(EvenMark(k), 0.0)
  {
    assert OnGrid(0.0);
    RoundKeepsGrid(0.0);
  }

  lemma EvenMarksAreFlat(n: nat)
    ensures Flat(EvenMarks(n), 0.0)
  {
    CountEvenMarks(n);
    forall i | 0 <= i < |EvenMarks(n)|
      ensures HasPremium(EvenMarks(n)[i], 0.0)
    {
      EvenMarksAre(n, i);
      EvenMarkHasNoPremium(i + 1);
    }
  }

  predicate AllInside(samples: seq<MarkSample>, hour: int) {
    forall i :: 0 <= i < |samples| ==> Inside(samples[i], hour)
  }

  lemma {:induction false} AllOfTheHour(samples: seq<MarkSample>, hour: int)
    requires AllInside(samples, hour)
    ensures InHour(samples, hour) == samples
  {
    if samples != [] {
      var n := |samples| - 1;
      AllOfTheHour(samples[..n], hour);
      assert samples == samples[..n] + [samples[n]];
    }
  }

  lemma EvenMarksAreInside(n: nat)
    requires n <= 20
    ensures AllInside(EvenMarks(n), 0)
  {
    CountEvenMarks(n);
    forall i | 0 <= i < |EvenMarks(n)|
      ensures Inside(EvenMarks(n)[i], 0)
    {
      EvenMarksAre(n, i);
    }
  }

  function Observing(samples: seq<MarkSample>): seq<Event> {
    if samples == [] then [] else Observing(samples[..|samples| - 1]) + [Observe(samples[|samples| - 1])]
  }

  lemma OneMoreEvent(closed: int -> bool, r: Runner, before: seq<Event>, e: Event)
    ensures Run(closed, r, before + [e]) == Step(closed, Run(closed, r, before), e)
    ensures Observed(before + [e]) == Observed(before) + if e.Observe? then [e.s] else []
  {
    assert (before + [e])[..|before|] == before;
  }

  predicate OnlyTheWindowMoved(was: Runner, now: Runner) {
    was.previous == now.previous && was.lastHour == now.lastHour && was.emitted == now.emitted
  }

  lemma {:induction false} ObservingIsObserved(before: seq<Event>, samples: seq<MarkSample>)
    ensures Observed(before + Observing(samples)) == Observed(before) + samples
  {
    if samples == [] {
      assert before + Observing(samples) == before;
    } else {
      var n := |samples| - 1;
      ObservingIsObserved(before, samples[..n]);
      var events := before + Observing(samples);
      assert events[..|events| - 1] == before + Observing(samples[..n]);
      assert samples == samples[..n] + [samples[n]];
    }
  }

  lemma AMarkMovesTheWindow(closed: int -> bool, was: Runner, r: Runner, s: MarkSample)
    requires OnlyTheWindowMoved(was, r)
    ensures OnlyTheWindowMoved(was, Step(closed, r, Observe(s)))
  {
  }

  /** Observing marks moves the window and nothing else. */
  lemma {:induction false} ObservingMarks(closed: int -> bool, r: Runner, before: seq<Event>, samples: seq<MarkSample>)
    ensures OnlyTheWindowMoved(Run(closed, r, before), Run(closed, r, before + Observing(samples)))
  {
    if samples == [] {
      assert before + Observing(samples) == before;
    } else {
      var n := |samples| - 1;
      ObservingMarks(closed, r, before, samples[..n]);
      var sofar := before + Observing(samples[..n]);
      OneMoreEvent(closed, r, sofar, Observe(samples[n]));
      assert before + Observing(samples) == sofar + [Observe(samples[n])];
      AMarkMovesTheWindow(closed, Run(closed, r, before), Run(closed, r, sofar), samples[n]);
    }
  }

  /** After any number of the even marks the hour's are all in the window. */
  lemma TheEvenHour(closed: int -> bool, r: Runner, before: seq<Event>, n: nat)
    requires r.samples == [] && Observed(before) == [] && n <= 20
    ensures InHour(Run(closed, r, before + Observing(EvenMarks(n))).samples, 0) == EvenMarks(n)
    ensures Flat(EvenMarks(n), 0.0) && |EvenMarks(n)| == n
  {
    var events := before + Observing(EvenMarks(n));
    ObservingIsObserved(before, EvenMarks(n));
    assert Observed(events) == EvenMarks(n);
    EvenMarksAreInside(n);
    assert NoneAfter(EvenMarks(n), RETENTION);
    TheWindowHoldsTheHour(closed, r, events, 0);
    AllOfTheHour(EvenMarks(n), 0);
    EvenMarksAreFlat(n);
    CountEvenMarks(n);
  }

  // ---------------------------------------------------------------------------
  // An hour whose last mark comes late
  // ---------------------------------------------------------------------------

  const LATE := MarkSample(HOUR, 2.0, 1.0)

  /** Nineteen marks at one price, the hour computed, and its last mark at twice that. */
  function ALateMark(): seq<Event> {
    Observing(EvenMarks(19)) + [Emit(0, true)] + [Observe(LATE)]
  }

  lemma TheLatePremium()
    ensures Premium(LATE).Marked? && Abs(Premium(LATE).value - 1.0 / 24.0) <= UNIT
  {
    assert Abs(Round16(1.0) - 1.0) <= UNIT / 2.0;
  }

  lemma APositiveRate(sum: real)
    requires sum >= 0.01
    ensures Round16(Smooth(Round16(sum / 20.0), None)) > 0.0
  {
    assert sum / 20.0 >= 0.0005;
  }

  lemma TheBatchSeesTheLateMark()
    ensures Rate(0, EvenMarks(19) + [LATE], None).Marked?
    ensures Rate(0, EvenMarks(19) + [LATE], None).value.rate > 0.0
  {
    var all := EvenMarks(19) + [LATE];
    CountEvenMarks(19);
    EvenMarksAreFlat(19);
    FlatSum(EvenMarks(19), 0.0);
    RepeatedIsTimes(0.0, 19);
    EvenMarksAreInside(19);
    AllOfTheHour(all, 0);
    TheLatePremium();
    assert all[..19] == EvenMarks(19);
    assert PremiumSum(all) == Marked(Premium(LATE).value);
    assert Rate(0, all, None).Marked?;
    RateOfTheMean(0, all, None);
    assert Mean(all) == Premium(LATE).value / 20.0;
    APositiveRate(Premium(LATE).value);
  }

  lemma EmittingAnHour(closed: int -> bool, r: Runner, hour: int)
    requires OnTheHour(hour) && !closed(hour) && Due(r, hour) && r.emitted == []
    requires Rate(hour, r.samples, r.previous).Marked?
    ensures Step(closed, r, Emit(hour, true)).emitted == [Rate(hour, r.samples, r.previous).value]
  {
    assert HourOf(hour) == hour;
  }

  lemma TheLiveHour(closed: int -> bool)
    ensures var r := Run(closed, FRESH, Observing(EvenMarks(19)));
            && OnlyTheWindowMoved(FRESH, r)
            && Rate(0, r.samples, None).Marked? && Rate(0, r.samples, None).value.rate == 0.0
  {
    var before := Observing(EvenMarks(19));
    assert [] + before == before;
    TheEvenHour(closed, FRESH, [], 19);
    ObservingMarks(closed, FRESH, [], EvenMarks(19));
    assert OnGrid(0.0);
    FlatPremium(0, Run(closed, FRESH, before).samples, 0.0, None);
    RoundKeepsGrid(0.0);
  }

  lemma TheLateRun(closed: int -> bool)
    requires !closed(0)
    ensures |Run(closed, FRESH, ALateMark()).emitted| == 1 && Run(closed, FRESH, ALateMark()).emitted[0].rate == 0.0
  {
    var before := Observing(EvenMarks(19));
    var r := Run(closed, FRESH, before);
    TheLiveHour(closed);
    OneMoreEvent(closed, FRESH, before, Emit(0, true));
    EmittingAnHour(closed, r, 0);
    OneMoreEvent(closed, FRESH, before + [Emit(0, true)], Observe(LATE));
    AMarkMovesTheWindow(closed, Step(closed, r, Emit(0, true)), Step(closed, r, Emit(0, true)), LATE);
  }

  lemma TheLateHistory()
    ensures Observed(ALateMark()) == EvenMarks(19) + [LATE]
  {
    var before := Observing(EvenMarks(19));
    ObservingIsObserved([], EvenMarks(19));
    assert [] + before == before;
    assert (before + [Emit(0, true)])[..|before|] == before;
    assert ALateMark()[..|before| + 1] == before + [Emit(0, true)];
  }

  lemma ASeriesOfOne(hour: int, samples: seq<MarkSample>, seed: Option<real>)
    requires Rate(hour, samples, seed).Marked?
    ensures Series([hour], samples, seed).out == [Rate(hour, samples, seed).value]
  {
    assert [hour][..0] == [];
  }

  /** A mark that comes after its hour was computed and stands apart from the others: the rate
      stored is not the batch's. */
  lemma ALateMarkIsNotInTheStoredRate(closed: int -> bool)
    requires !closed(0)
    ensures |Run(closed, FRESH, ALateMark()).emitted| == 1 && |Series([0], Observed(ALateMark()), None).out| == 1
    ensures Run(closed, FRESH, ALateMark()).emitted[0].rate == 0.0
         && Series([0], Observed(ALateMark()), None).out[0].rate > 0.0
  {
    TheLateHistory();
    TheLateRun(closed);
    TheBatchSeesTheLateMark();
    ASeriesOfOne(0, EvenMarks(19) + [LATE], None);
  }

  // ---------------------------------------------------------------------------
  // What is left of an older hour
  // ---------------------------------------------------------------------------

  predicate NeverBack(samples: seq<MarkSample>) {
    forall i, j :: 0 <= i < j < |samples| ==> samples[i].at <= samples[j].at
  }

  lemma SinceSnoc(samples: seq<MarkSample>, s: MarkSample, cutoff: int)
    ensures Since(samples + [s], cutoff)
         == if s.at >= cutoff then Since(samples, cutoff) + [s] else Since(samples, cutoff)
  {
    assert (samples + [s])[..|samples|] == samples;
  }

  lemma {:induction false} SinceTwice(samples: seq<MarkSample>, cutoff: int, later: int)
    requires cutoff <= later
    ensures Since(Since(samples, cutoff), later) == Since(samples, later)
  {
    if samples != [] {
      var n := |samples| - 1;
      SinceTwice(samples[..n], cutoff, later);
      SinceSnoc(Since(samples[..n], cutoff), samples[n], later);
    }
  }

  /** The marks no older than the retention before the last. */
  function Recent(marks: seq<MarkSample>): seq<MarkSample> {
    if marks == [] then [] else Since(marks, marks[|marks| - 1].at - RETENTION)
  }

  lemma OneMoreMark(before: seq<MarkSample>, s: MarkSample)
    requires before == [] || before[|before| - 1].at <= s.at
    ensures Keep(Recent(before), s) == Recent(before + [s])
  {
    var cutoff := s.at - RETENTION;
    SinceSnoc(Recent(before), s, cutoff);
    SinceSnoc(before, s, cutoff);
    if before != [] {
      SinceTwice(before, before[|before| - 1].at - RETENTION, cutoff);
    }
  }

  lemma NeverBackSnoc(before: seq<MarkSample>, s: MarkSample)
    requires NeverBack(before + [s])
    ensures NeverBack(before) && (before == [] || before[|before| - 1].at <= s.at)
  {
    assert forall i :: 0 <= i < |before| ==> before[i] == (before + [s])[i];
    assert s == (before + [s])[|before|];
  }

  /** When marks never go back in time the window is exactly the recent ones. */
  lemma {:induction false} TheWindowIsTheRetention(closed: int -> bool, r: Runner, events: seq<Event>)
    requires r.samples == [] && NeverBack(Observed(events))
    ensures Run(closed, r, events).samples == Recent(Observed(events))
  {
    if events != [] {
      var n := |events| - 1;
      assert events == events[..n] + [events[n]];
      OneMoreEvent(closed, r, events[..n], events[n]);
      if events[n].Observe? {
        NeverBackSnoc(Observed(events[..n]), events[n].s);
        TheWindowIsTheRetention(closed, r, events[..n]);
        OneMoreMark(Observed(events[..n]), events[n].s);
      } else {
        assert Observed(events) == Observed(events[..n]);
        TheWindowIsTheRetention(closed, r, events[..n]);
        OnlyMarksMoveTheWindow(closed, Run(closed, r, events[..n]), events[n]);
      }
    }
  }

  lemma {:induction false} SinceOfTheHour(samples: seq<MarkSample>, cutoff: int, hour: int)
    ensures InHour(Since(samples, cutoff), hour) == Since(InHour(samples, hour), cutoff)
  {
    if samples != [] {
      var n := |samples| - 1;
      SinceOfTheHour(samples[..n], cutoff, hour);
      InHourSnoc(Since(samples[..n], cutoff), samples[n], hour);
      SinceSnoc(InHour(samples[..n], hour), samples[n], cutoff);
    }
  }

  /** The marks of an hour that are no older than the retention before the last mark of all. */
  function Left(marks: seq<MarkSample>, hour: int): seq<MarkSample> {
    if marks == [] then [] else Since(InHour(marks, hour), marks[|marks| - 1].at - RETENTION)
  }

  /** While marks never go back in time, an hour of any age can still be marked exactly when
      thirteen of its marks are left and every mark left of it has a spot mark. */
  lemma AnHourIsMarkableExactlyWhile(closed: int -> bool, r: Runner, events: seq<Event>, hour: int,
                                     previous: Option<real>)
    requires r.samples == [] && NeverBack(Observed(events))
    ensures Rate(hour, Run(closed, r, events).samples, previous).Marked?
       <==> var left := Left(Observed(events), hour); |left| >= MIN_SAMPLES && Priced(left)
  {
    var marks := Observed(events);
    TheWindowIsTheRetention(closed, r, events);
    if marks != [] {
      SinceOfTheHour(marks, marks[|marks| - 1].at - RETENTION, hour);
    }
    MarkedExactlyWhenMarkable(hour, Run(closed, r, events).samples, previous);
  }

  /** A whole hour of marks, and then silence. */
  function ASilentFeed(): seq<Event> {
    [Seed(0.0, -HOUR)] + Observing(EvenMarks(20))
  }

  lemma AnEmptyHourIsPassed(closed: int -> bool, r: Runner, hour: int, recorded: bool)
    requires InHour(r.samples, hour) == []
    ensures !Due(EmitHour(closed, r, hour, recorded), hour)
  {
  }

  /** Computing hours in order, the first with no mark of its own in the window, passes it. */
  lemma {:induction false} TheFirstIsPassed(closed: int -> bool, r: Runner, first: int, n: nat, sink: int -> bool)
    requires n > 0 && OnTheHour(first) && InHour(r.samples, first) == []
    ensures !Due(Run(closed, r, Emits(first, n, sink)), first)
  {
    var last := first + (n - 1) * HOUR;
    var before := Emits(first, n - 1, sink);
    OneMoreEvent(closed, r, before, Emit(last, sink(last)));
    assert Emits(first, n, sink) == before + [Emit(last, sink(last))];
    if n == 1 {
      assert Run(closed, r, before) == r && HourOf(first) == first;
      AnEmptyHourIsPassed(closed, r, first, sink(first));
    } else {
      TheFirstIsPassed(closed, r, first, n - 1, sink);
      PassedStaysPassed(closed, Run(closed, r, before), HourOf(last), sink(last), first);
    }
  }

  lemma PassedStaysPassed(closed: int -> bool, r: Runner, hour: int, recorded: bool, passed: int)
    requires !Due(r, passed)
    ensures !Due(EmitHour(closed, r, hour, recorded), passed)
  {
  }

  lemma {:induction false} NothingOfTheNext(samples: seq<MarkSample>)
    requires AllInside(samples, 0)
    ensures InHour(samples, HOUR) == []
  {
    NothingInside(samples, HOUR);
  }

  lemma BeforeTheSilence(closed: int -> bool)
    ensures var r := Run(closed, FRESH, [Seed(0.0, -HOUR)]);
            r.previous == Some(0.0) && r.lastHour == Some(-HOUR)
    ensures Observed([Seed(0.0, -HOUR)]) == []
  {
    var e := Seed(0.0, -HOUR);
    assert [] + [e] == [e];
    OneMoreEvent(closed, FRESH, [], e);
  }

  lemma TheSilentHour(closed: int -> bool)
    ensures var r := Run(closed, FRESH, ASilentFeed());
            r.lastHour == Some(-HOUR) && Rate(0, r.samples, r.previous).Marked?
  {
    BeforeTheSilence(closed);
    TheEvenHour(closed, FRESH, [Seed(0.0, -HOUR)], 20);
    ObservingMarks(closed, FRESH, [Seed(0.0, -HOUR)], EvenMarks(20));
    var r := Run(closed, FRESH, ASilentFeed());
    assert OnGrid(0.0);
    FlatPremium(0, r.samples, 0.0, r.previous);
  }

  lemma TheSilentNext(closed: int -> bool)
    ensures InHour(Run(closed, FRESH, ASilentFeed()).samples, HOUR) == []
  {
    BeforeTheSilence(closed);
    ObservingIsObserved([Seed(0.0, -HOUR)], EvenMarks(20));
    assert Observed(ASilentFeed()) == EvenMarks(20);
    EvenMarksAreInside(20);
    NothingOfTheNext(EvenMarks(20));
    assert NoneAfter(EvenMarks(20), HOUR + RETENTION);
    TheWindowHoldsTheHour(closed, FRESH, ASilentFeed(), HOUR);
  }

  /** Three hours on the tick passes over that hour, which it could have marked, for good,
      whatever the sink takes. */
  lemma ASilentFeedLosesAnHour(closed: int -> bool, sink: int -> bool)
    ensures var r, newest := Run(closed, FRESH, ASilentFeed()), 3 * HOUR;
            && Due(r, 0) && Rate(0, r.samples, r.previous).Marked? && 0 !in TickHours(r, newest)
            && !Due(Run(closed, r, Emits(FirstUnrecorded(r, newest), TickCount(r, newest), sink)), 0)
  {
    TheSilentHour(closed);
    TheSilentNext(closed);
    ThePassedHour(closed, Run(closed, FRESH, ASilentFeed()), sink);
  }

  lemma ThePassedHour(closed: int -> bool, r: Runner, sink: int -> bool)
    requires r.lastHour == Some(-HOUR) && InHour(r.samples, HOUR) == []
    ensures Due(r, 0) && 0 !in TickHours(r, 3 * HOUR)
    ensures !Due(Run(closed, r, Emits(FirstUnrecorded(r, 3 * HOUR), TickCount(r, 3 * HOUR), sink)), 0)
  {
    ATickMissesNoHour(r, 3 * HOUR, 0);
    TheFirstIsPassed(closed, r, HOUR, 3, sink);
    assert FirstUnrecorded(r, 3 * HOUR) == HOUR && TickCount(r, 3 * HOUR) == 3;
  }
}
