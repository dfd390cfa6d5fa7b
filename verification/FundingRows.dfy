/** The rows of the funding series (internal/ingest/funding.go, internal/ingest/fundingrunner.go):
    which hours have one, what each says of its hour, and that the live runner's are so too,
    whatever rate it was seeded with. */
module FundingRows {
  import opened Options
  import opened Decimals
  import opened FundingRate
  import opened LiveFunding

  // ---------------------------------------------------------------------------
  // An hour's marks
  // ---------------------------------------------------------------------------

  /** Every mark is of one hour, the one it closes in: a mark on the hour is of the hour it ends. */
  lemma {:induction false} AnHoursMarks(samples: seq<MarkSample>, hour: int, s: MarkSample)
    ensures multiset(InHour(samples, hour))[s]
         == if hour < s.at <= hour + 3_600_000_000_000 then multiset(samples)[s] else 0
    ensures hour % 3_600_000_000_000 == 0 ==>
              (hour < s.at <= hour + 3_600_000_000_000 <==> hour == HourOf(s.at - 1))
  {
    if samples != [] {
      var n := |samples| - 1;
      AnHoursMarks(samples[..n], hour, s);
      assert samples == samples[..n] + [samples[n]];
    }
    if hour % HOUR == 0 {
      OneHour(s.at - 1, hour);
    }
  }

  lemma OneHour(t: int, hour: int)
    requires hour % HOUR == 0
    ensures hour <= t < hour + HOUR <==> hour == HourOf(t)
  {
    assert t == t / HOUR * HOUR + t % HOUR;
  }

  // ---------------------------------------------------------------------------
  // The batch
  // ---------------------------------------------------------------------------

  /** Thirteen marks or more in the hour, and a spot price in every one. */
  predicate Computable(samples: seq<MarkSample>, hour: int) {
    |InHour(samples, hour)| >= 13 && Priced(InHour(samples, hour))
  }

  function Computables(hours: seq<int>, samples: seq<MarkSample>): seq<int> {
    if hours == [] then []
    else
      var n := |hours| - 1;
      Computables(hours[..n], samples) + if Computable(samples, hours[n]) then [hours[n]] else []
  }

  function Others(hours: seq<int>, samples: seq<MarkSample>): seq<int> {
    if hours == [] then []
    else
      var n := |hours| - 1;
      Others(hours[..n], samples) + if Computable(samples, hours[n]) then [] else [hours[n]]
  }

  /** What a row says of its hour. */
  predicate Says(samples: seq<MarkSample>, f: Funding) {
    var marks := InHour(samples, f.hourStart);
    && Computable(samples, f.hourStart)
    && Abs(f.premium - ExactMean(marks)) <= MEAN_ERROR
    && f.samples == |marks| && f.annualized == 8760.0 * f.rate
  }

  /** A rate is three quarters of its own premium and a quarter of the rate before, and the first
      of a series its premium, to half of the last of sixteen places. */
  predicate Smooths(previous: Option<real>, f: Funding) {
    match previous
    case None => Abs(f.rate - f.premium) <= UNIT / 2.0
    case Some(rate) => Abs(f.rate - (f.premium * 3.0 + rate) / 4.0) <= UNIT / 2.0
  }

  /** The rate in force before the k-th row. */
  function Before(out: seq<Funding>, seed: Option<real>, k: int): Option<real>
    requires 0 <= k <= |out|
  {
    if k == 0 then seed else Some(out[k - 1].rate)
  }

  /** Why an hour has no row: too few marks, or the first of them without a spot price. */
  predicate Explains(samples: seq<MarkSample>, hour: int, why: Skip) {
    var marks := InHour(samples, hour);
    if |marks| < 13 then why == TooFewSamples(hour, |marks|)
    else exists i :: 0 <= i < |marks| && FirstUnpriced(marks, i) && why == SpotMarkIsZero(marks[i].at)
  }

  predicate FirstUnpriced(marks: seq<MarkSample>, i: int)
    requires 0 <= i < |marks|
  {
    marks[i].spot == 0.0 && Priced(marks[..i])
  }

  lemma {:induction false} TheFirstUnpriced(marks: seq<MarkSample>) returns (i: int)
    requires PremiumSum(marks).Skipped?
    ensures 0 <= i < |marks| && FirstUnpriced(marks, i) && PremiumSum(marks) == Skipped(SpotMarkIsZero(marks[i].at))
  {
    var n := |marks| - 1;
    if PremiumSum(marks[..n]).Skipped? {
      i := TheFirstUnpriced(marks[..n]);
      assert marks[..n][..i] == marks[..i];
    } else {
      i := n;
      SummableExactlyWhenPriced(marks[..n]);
    }
  }

  lemma ARateSays(hour: int, samples: seq<MarkSample>, previous: Option<real>)
    ensures var r := Rate(hour, samples, previous);
            && (r.Marked? <==> Computable(samples, hour))
            && (r.Marked? ==> r.value.hourStart == hour && Says(samples, r.value) && Smooths(previous, r.value))
            && (r.Skipped? ==> Explains(samples, hour, r.why))
  {
    var r := Rate(hour, samples, previous);
    MarkedExactlyWhenMarkable(hour, samples, previous);
    if r.Marked? {
      assert Abs(r.value.rate - Smooth(r.value.premium, previous)) <= UNIT / 2.0;
    } else if |InHour(samples, hour)| >= 13 {
      var i := TheFirstUnpriced(InHour(samples, hour));
    }
  }

  function Stamps(out: seq<Funding>): seq<int> {
    seq(|out|, k requires 0 <= k < |out| => out[k].hourStart)
  }

  predicate Row(samples: seq<MarkSample>, out: seq<Funding>, seed: Option<real>, k: int)
    requires 0 <= k < |out|
  {
    Says(samples, out[k]) && Smooths(Before(out, seed, k), out[k])
  }

  predicate Rows(samples: seq<MarkSample>, out: seq<Funding>, seed: Option<real>) {
    forall k :: 0 <= k < |out| ==> Row(samples, out, seed, k)
  }

  predicate Explained(samples: seq<MarkSample>, hours: seq<int>, skipped: seq<Skip>) {
    |skipped| == |hours| && forall k :: 0 <= k < |hours| ==> Explains(samples, hours[k], skipped[k])
  }

  lemma OneMoreRow(samples: seq<MarkSample>, out: seq<Funding>, seed: Option<real>, f: Funding)
    requires Rows(samples, out, seed) && Says(samples, f) && Smooths(Before(out, seed, |out|), f)
    ensures Rows(samples, out + [f], seed)
    ensures Stamps(out + [f]) == Stamps(out) + [f.hourStart] && Before(out + [f], seed, |out| + 1) == Some(f.rate)
  {
    forall k | 0 <= k < |out| + 1
      ensures Row(samples, out + [f], seed, k)
    {
      if k < |out| {
        assert Row(samples, out, seed, k);
      }
    }
  }

  lemma OneMoreSkip(samples: seq<MarkSample>, hours: seq<int>, skipped: seq<Skip>, hour: int, why: Skip)
    requires Explained(samples, hours, skipped) && Explains(samples, hour, why)
    ensures Explained(samples, hours + [hour], skipped + [why])
  {
  }

  /** The hours of a series that can be computed have its rows, in order and stamped with them, and
      every other hour is skipped for its own reason. */
  lemma {:induction false} RowsAreTheComputableHours(hours: seq<int>, samples: seq<MarkSample>, seed: Option<real>)
    ensures var p := Series(hours, samples, seed);
            && Stamps(p.out) == Computables(hours, samples) && Rows(samples, p.out, seed)
            && Explained(samples, Others(hours, samples), p.skipped)
            && p.previous == Before(p.out, seed, |p.out|)
  {
    if hours != [] {
      var n := |hours| - 1;
      var p := Series(hours[..n], samples, seed);
      RowsAreTheComputableHours(hours[..n], samples, seed);
      ARateSays(hours[n], samples, p.previous);
      match Rate(hours[n], samples, p.previous)
      case Marked(f) => OneMoreRow(samples, p.out, seed, f);
      case Skipped(why) => OneMoreSkip(samples, Others(hours[..n], samples), p.skipped, hours[n], why);
    }
  }

  // ---------------------------------------------------------------------------
  // The live runner
  // ---------------------------------------------------------------------------

  predicate NoSeeds(events: seq<Event>) {
    forall i :: 0 <= i < |events| ==> !events[i].Seed?
  }

  /** Some event asked for the hour that starts here, and its row was taken. */
  predicate Asked(events: seq<Event>, hourStart: int) {
    exists i :: 0 <= i < |events| && AsksFor(events[i], hourStart)
  }

  predicate AsksFor(e: Event, hourStart: int) {
    e.Emit? && e.recorded && hourStart <= e.hour < hourStart + 3_600_000_000_000
  }

  /** The runner's rows are of whole hours asked for, open, later than where it started, no later
      than where it stands, and each later than the one before. */
  ghost predicate InOrder(closed: int -> bool, start: Runner, events: seq<Event>, r: Runner) {
    && (forall k :: 0 <= k < |r.emitted| ==> Proper(closed, start, events, r, r.emitted[k].hourStart))
    && (forall i, k :: 0 <= i < k < |r.emitted| ==> r.emitted[i].hourStart < r.emitted[k].hourStart)
    && (start.lastHour.Some? ==> r.lastHour.Some? && r.lastHour.value >= start.lastHour.value)
  }

  ghost predicate Proper(closed: int -> bool, start: Runner, events: seq<Event>, r: Runner, hourStart: int) {
    && OnTheHour(hourStart) && !closed(hourStart) && Asked(events, hourStart)
    && Due(start, hourStart) && !Due(r, hourStart)
  }

  lemma AskedStill(events: seq<Event>, e: Event, hourStart: int)
    requires Asked(events, hourStart) || AsksFor(e, hourStart)
    ensures Asked(events + [e], hourStart)
  {
    if Asked(events, hourStart) {
      var i :| 0 <= i < |events| && AsksFor(events[i], hourStart);
      assert AsksFor((events + [e])[i], hourStart);
    } else {
      assert AsksFor((events + [e])[|events|], hourStart);
    }
  }

  lemma AskedStillProper(closed: int -> bool, start: Runner, events: seq<Event>, e: Event, r: Runner, r': Runner,
                         h: int)
    requires Proper(closed, start, events, r, h) && NoEarlier(r, r')
    ensures Proper(closed, start, events + [e], r', h)
  {
    AskedStill(events, e, h);
  }

  /** The second runner stands no earlier than the first. */
  predicate NoEarlier(r: Runner, r': Runner) {
    r.lastHour.Some? ==> r'.lastHour.Some? && r'.lastHour.value >= r.lastHour.value
  }

  lemma NothingAdded(closed: int -> bool, start: Runner, events: seq<Event>, e: Event, r: Runner, r': Runner)
    requires InOrder(closed, start, events, r) && NoEarlier(r, r') && r'.emitted == r.emitted
    ensures InOrder(closed, start, events + [e], r')
  {
    forall k | 0 <= k < |r'.emitted|
      ensures Proper(closed, start, events + [e], r', r'.emitted[k].hourStart)
    {
      AskedStillProper(closed, start, events, e, r, r', r.emitted[k].hourStart);
    }
  }

  lemma OneAdded(closed: int -> bool, start: Runner, events: seq<Event>, e: Event, r: Runner, r': Runner, f: Funding)
    requires InOrder(closed, start, events, r) && NoEarlier(r, r') && r'.emitted == r.emitted + [f]
    requires OnTheHour(f.hourStart) && !closed(f.hourStart) && AsksFor(e, f.hourStart)
    requires Due(r, f.hourStart) && !Due(r', f.hourStart)
    ensures InOrder(closed, start, events + [e], r')
  {
    AskedStill(events, e, f.hourStart);
    forall k | 0 <= k < |r'.emitted|
      ensures Proper(closed, start, events + [e], r', r'.emitted[k].hourStart)
    {
      if k < |r.emitted| {
        AskedStillProper(closed, start, events, e, r, r', r.emitted[k].hourStart);
      }
    }
    forall k | 0 <= k < |r.emitted|
      ensures r'.emitted[k].hourStart < f.hourStart
    {
      assert Proper(closed, start, events, r, r.emitted[k].hourStart);
    }
  }

  lemma HourOfIsItsHour(t: int)
    ensures OnTheHour(HourOf(t)) && HourOf(t) <= t < HourOf(t) + HOUR
  {
    assert t == t / HOUR * HOUR + t % HOUR;
    assert HourOf(t) == t / HOUR * HOUR;
  }

  /** An hour adds its own row or none, and the runner never goes back. */
  lemma TheRowAdded(closed: int -> bool, r: Runner, hour: int, recorded: bool) returns (f: Funding)
    ensures var r' := EmitHour(closed, r, hour, recorded);
            && NoEarlier(r, r')
            && (r'.emitted == r.emitted ||
                (r'.emitted == r.emitted + [f] && f.hourStart == hour && recorded
                   && !closed(hour) && Due(r, hour) && !Due(r', hour)))
  {
    ARateSays(hour, r.samples, r.previous);
    match Rate(hour, r.samples, r.previous)
    case Marked(value) => f := value;
    case Skipped(_) => f := Funding(hour, 0.0, 0.0, 0.0, 0);
  }

  /** Whatever it was asked for and in whatever order, and whichever rows the writer refused, the
      rows of a runner are of open whole hours it was asked for, each later than the one before. */
  lemma {:induction false} LiveRowsAscend(closed: int -> bool, start: Runner, events: seq<Event>)
    requires start.emitted == [] && NoSeeds(events)
    ensures InOrder(closed, start, events, Run(closed, start, events))
  {
    if events != [] {
      var n := |events| - 1;
      var r, e := Run(closed, start, events[..n]), events[n];
      LiveRowsAscend(closed, start, events[..n]);
      assert events == events[..n] + [e];
      var r' := Step(closed, r, e);
      if e.Emit? {
        HourOfIsItsHour(e.hour);
        var f := TheRowAdded(closed, r, HourOf(e.hour), e.recorded);
        if r'.emitted == r.emitted {
          NothingAdded(closed, start, events[..n], e, r, r');
        } else {
          OneAdded(closed, start, events[..n], e, r, r', f);
        }
      } else {
        NothingAdded(closed, start, events[..n], e, r, r');
      }
    }
  }

  // ---------------------------------------------------------------------------
  // A seeded runner
  // ---------------------------------------------------------------------------

  lemma {:induction false} RunOn(closed: int -> bool, r: Runner, first: Event, events: seq<Event>)
    ensures Run(closed, r, [first] + events) == Run(closed, Step(closed, r, first), events)
  {
    if events == [] {
      assert [first] + events == [first] && [first][..0] == [];
      assert Run(closed, r, []) == r;
    } else {
      var n := |events| - 1;
      RunOn(closed, r, first, events[..n]);
      assert ([first] + events)[..n + 1] == [first] + events[..n];
    }
  }

  function Seeded(rate: real, hour: int): Runner {
    Runner([], Some(rate), Some(hour), [])
  }

  /** A runner given the last rate recorded and its hour goes on from there: its rows are the
      batch's from that rate, of the hours after it alone, and the first smooths against it. */
  lemma ASeededRunRefinesBatch(closed: int -> bool, rate: real, hour: int, events: seq<Event>)
    requires Timely(events)
    ensures var r := Run(closed, FRESH, [Seed(rate, hour)] + events);
            var history := Observed(events);
            && r.emitted == Series(Hours(closed, Seeded(rate, hour), events), history, Some(rate)).out
            && Rows(history, r.emitted, Some(rate))
            && (r.emitted != [] ==> Smooths(Some(rate), r.emitted[0]))
            && (forall k :: 0 <= k < |r.emitted| ==> r.emitted[k].hourStart > hour)
            && InOrder(closed, Seeded(rate, hour), events, r)
  {
    var seeded := Seeded(rate, hour);
    RunOn(closed, FRESH, Seed(rate, hour), events);
    LiveRefinesBatch(closed, seeded, events);
    RowsAreTheComputableHours(Hours(closed, seeded, events), Observed(events), Some(rate));
    TimelyRunsHaveNoSeeds(events);
    LiveRowsAscend(closed, seeded, events);
    var r := Run(closed, seeded, events);
    forall k | 0 <= k < |r.emitted|
      ensures r.emitted[k].hourStart > hour
    {
      assert Proper(closed, seeded, events, r, r.emitted[k].hourStart);
    }
    assert r.emitted != [] ==> Row(Observed(events), r.emitted, Some(rate), 0);
  }

  lemma TimelyRunsHaveNoSeeds(events: seq<Event>)
    requires Timely(events)
    ensures NoSeeds(events)
  {
    forall i | 0 <= i < |events|
      ensures !events[i].Seed?
    {
      assert OnTime(events, i);
    }
  }

  /** A live run's rows are the computable ones of the hours it took up, each saying what the whole
      history says of its hour. */
  lemma LiveRowsAreTheComputableHours(closed: int -> bool, events: seq<Event>)
    requires Timely(events)
    ensures var out, hours := Run(closed, FRESH, events).emitted, Hours(closed, FRESH, events);
            Stamps(out) == Computables(hours, Observed(events)) && Rows(Observed(events), out, None)
  {
    LiveRefinesBatch(closed, FRESH, events);
    RowsAreTheComputableHours(Hours(closed, FRESH, events), Observed(events), None);
  }

  // ---------------------------------------------------------------------------
  // Rows the writer refuses, and where a runner begins
  // ---------------------------------------------------------------------------

  /** A row the writer refused leaves its hour to be computed as if it had never been tried. */
  lemma {:induction false} ARefusedRowCanBeStruckOut(closed: int -> bool, start: Runner, before: seq<Event>, hour: int,
                                                     after: seq<Event>)
    requires Computable(Run(closed, start, before).samples, HourOf(hour)) && !closed(HourOf(hour))
    ensures Run(closed, start, before + [Emit(hour, false)] + after)
         == Run(closed, start, before + after)
  {
    var r := Run(closed, start, before);
    if after == [] {
      ARateSays(HourOf(hour), r.samples, r.previous);
      assert (before + [Emit(hour, false)])[..|before|] == before;
      assert before + [Emit(hour, false)] + after == before + [Emit(hour, false)] && before + after == before;
    } else {
      var n := |after| - 1;
      ARefusedRowCanBeStruckOut(closed, start, before, hour, after[..n]);
      var with, without := before + [Emit(hour, false)] + after, before + after;
      assert with[..|with| - 1] == before + [Emit(hour, false)] + after[..n] && with[|with| - 1] == after[n];
      assert without[..|without| - 1] == before + after[..n] && without[|without| - 1] == after[n];
    }
  }

  /** With nothing recorded before, a tick computes the newest hour and no other. */
  lemma AFreshRunnerStartsWithTheNewest(r: Runner, newest: int)
    requires r.lastHour.None?
    ensures TickHours(r, newest) == [newest]
  {
    assert HoursFrom(newest, 0) == [];
    assert newest + 0 * HOUR == newest;
  }
}
