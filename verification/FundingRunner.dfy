/** The live funding series (internal/ingest/fundingrunner.go): a two-hour window of samples,
    one rate an hour, and why the rates are the ones a batch over the whole history computes. */
module LiveFunding {
  import opened Options
  import opened FundingRate

  const RETENTION: int := 2 * HOUR

  /** What happens to a runner: the last rate already known, a mark, or a completed hour, whose
      row the sink takes or not. */
  datatype Event = Seed(rate: real, hour: int) | Observe(s: MarkSample) | Emit(hour: int, recorded: bool)

  /** The runner's fields, and the rates recorded. */
  datatype Runner = Runner(samples: seq<MarkSample>, previous: Option<real>, lastHour: Option<int>,
                           emitted: seq<Funding>)

  const FRESH := Runner([], None, None, [])

  function Since(samples: seq<MarkSample>, cutoff: int): seq<MarkSample> {
    if samples == [] then []
    else
      var n := |samples| - 1;
      if samples[n].at >= cutoff then Since(samples[..n], cutoff) + [samples[n]] else Since(samples[..n], cutoff)
  }

  function Keep(samples: seq<MarkSample>, s: MarkSample): seq<MarkSample> {
    Since(samples + [s], s.at - RETENTION)
  }

  /** Whether an hour is still to come for this runner. */
  predicate Due(r: Runner, hour: int) {
    r.lastHour.None? || hour > r.lastHour.value
  }

  /** One hour. The market's closed hours and hours that cannot be marked are passed over; a
      row the sink did not take leaves the hour to be tried again. */
  function EmitHour(closed: int -> bool, r: Runner, hour: int, recorded: bool): Runner {
    if !Due(r, hour) then r
    else if closed(hour) then r.(lastHour := Some(hour))
    else match Rate(hour, r.samples, r.previous)
      case Skipped(_) => r.(lastHour := Some(hour))
      case Marked(f) =>
        if recorded then Runner(r.samples, Some(f.rate), Some(hour), r.emitted + [f]) else r
  }

  function Step(closed: int -> bool, r: Runner, e: Event): Runner {
    match e
    case Seed(rate, hour) => r.(previous := Some(rate), lastHour := Some(hour))
    case Observe(s) => r.(samples := Keep(r.samples, s))
    case Emit(hour, recorded) => EmitHour(closed, r, HourOf(hour), recorded)
  }

  function Run(closed: int -> bool, r: Runner, events: seq<Event>): Runner {
    if events == [] then r
    else Step(closed, Run(closed, r, events[..|events| - 1]), events[|events| - 1])
  }

  // ---------------------------------------------------------------------------
  // The history and the hours of a run
  // ---------------------------------------------------------------------------

  /** Every mark observed, in the order it came. */
  function Observed(events: seq<Event>): seq<MarkSample> {
    if events == [] then []
    else
      var n := |events| - 1;
      Observed(events[..n]) + if events[n].Observe? then [events[n].s] else []
  }

  /** The hours a run took up, in order, without the market's closed hours. */
  function Hours(closed: int -> bool, r: Runner, events: seq<Event>): seq<int> {
    if events == [] then []
    else
      var n := |events| - 1;
      var hours := Hours(closed, r, events[..n]);
      if events[n].Emit? && Due(Run(closed, r, events[..n]), HourOf(events[n].hour)) && !closed(HourOf(events[n].hour))
      then hours + [HourOf(events[n].hour)] else hours
  }

  /** No mark later than t has been observed. */
  predicate NoneAfter(samples: seq<MarkSample>, t: int) {
    forall i :: 0 <= i < |samples| ==> samples[i].at <= t
  }

  predicate NoneInside(samples: seq<MarkSample>, hour: int) {
    forall i :: 0 <= i < |samples| ==> !Inside(samples[i], hour)
  }

  /** The i-th event is on time: an hour is computed once all of its marks are in, and before
      any mark more than an hour past its end. */
  predicate OnTime(events: seq<Event>, i: nat)
    requires i < |events|
  {
    events[i].Emit? ==>
      var hour := HourOf(events[i].hour);
      NoneAfter(Observed(events[..i]), hour + RETENTION) && NoneInside(Observed(events[i..]), hour)
  }

  predicate Timely(events: seq<Event>) {
    forall i :: 0 <= i < |events| ==> OnTime(events, i) && !events[i].Seed? && (events[i].Emit? ==> events[i].recorded)
  }

  // ---------------------------------------------------------------------------
  // The window
  // ---------------------------------------------------------------------------

  /** Trimming to a cutoff no later than the hour's start loses none of the hour's marks. */
  lemma {:induction false} SinceKeepsTheHour(samples: seq<MarkSample>, cutoff: int, hour: int)
    requires cutoff <= hour
    ensures InHour(Since(samples, cutoff), hour) == InHour(samples, hour)
  {
    if samples != [] {
      var n := |samples| - 1;
      SinceKeepsTheHour(samples[..n], cutoff, hour);
      var kept := Since(samples[..n], cutoff);
      assert (kept + [samples[n]])[..|kept|] == kept;
    }
  }

  lemma InHourSnoc(samples: seq<MarkSample>, s: MarkSample, hour: int)
    ensures InHour(samples + [s], hour) == if Inside(s, hour) then InHour(samples, hour) + [s]
            else InHour(samples, hour)
  {
    assert (samples + [s])[..|samples|] == samples;
  }

  lemma InHourOneMore(xs: seq<MarkSample>, ys: seq<MarkSample>, s: MarkSample, hour: int)
    requires InHour(xs + ys, hour) == InHour(xs, hour) + InHour(ys, hour)
    ensures InHour(xs + (ys + [s]), hour) == InHour(xs, hour) + InHour(ys + [s], hour)
  {
    InHourSnoc(ys, s, hour);
    InHourSnoc(xs + ys, s, hour);
    assert xs + (ys + [s]) == (xs + ys) + [s];
    assert Inside(s, hour) ==> InHour(xs, hour) + (InHour(ys, hour) + [s]) == InHour(xs + ys, hour) + [s];
  }

  lemma {:induction false} InHourAppend(xs: seq<MarkSample>, ys: seq<MarkSample>, hour: int)
    ensures InHour(xs + ys, hour) == InHour(xs, hour) + InHour(ys, hour)
  {
    if ys == [] {
      assert xs + ys == xs;
    } else {
      var n := |ys| - 1;
      InHourAppend(xs, ys[..n], hour);
      InHourOneMore(xs, ys[..n], ys[n], hour);
      assert ys[..n] + [ys[n]] == ys;
    }
  }

  lemma {:induction false} NothingInside(samples: seq<MarkSample>, hour: int)
    ensures InHour(samples, hour) == [] <==> NoneInside(samples, hour)
  {
    if samples != [] {
      var n := |samples| - 1;
      NothingInside(samples[..n], hour);
      assert NoneInside(samples, hour) <==> NoneInside(samples[..n], hour) && !Inside(samples[n], hour);
    }
  }

  lemma {:induction false} ObservedPrefix(events: seq<Event>, n: nat)
    requires n <= |events|
    ensures Observed(events) == Observed(events[..n]) + Observed(events[n..])
  {
    if n == |events| {
      assert events[..n] == events && events[n..] == [];
    } else {
      var m := |events| - 1;
      ObservedPrefix(events[..m], n);
      assert events[..m][..n] == events[..n];
      assert events[n..][..m - n] == events[..m][n..];
      assert events[n..][m - n] == events[m];
    }
  }

  lemma OnlyMarksMoveTheWindow(closed: int -> bool, r: Runner, e: Event)
    requires !e.Observe?
    ensures Step(closed, r, e).samples == r.samples
  {
  }

  /** The window of a run that has seen nothing more than an hour past the hour's end holds
      all of the hour's marks, in the order they came. */
  lemma {:induction false} TheWindowHoldsTheHour(closed: int -> bool, r: Runner, events: seq<Event>, hour: int)
    requires r.samples == [] && NoneAfter(Observed(events), hour + RETENTION)
    ensures InHour(Run(closed, r, events).samples, hour) == InHour(Observed(events), hour)
  {
    if events != [] {
      var n := |events| - 1;
      var before := Observed(events[..n]);
      assert forall i :: 0 <= i < |before| ==> before[i] == Observed(events)[i];
      TheWindowHoldsTheHour(closed, r, events[..n], hour);
      var was := Run(closed, r, events[..n]).samples;
      if events[n].Observe? {
        var s := events[n].s;
        assert Observed(events)[|before|] == s;
        SinceKeepsTheHour(was + [s], s.at - RETENTION, hour);
        InHourSnoc(was, s, hour);
        InHourSnoc(before, s, hour);
      } else {
        assert Observed(events) == before;
        OnlyMarksMoveTheWindow(closed, Run(closed, r, events[..n]), events[n]);
      }
    }
  }

  lemma RateDependsOnTheHourAlone(hour: int, xs: seq<MarkSample>, ys: seq<MarkSample>, previous: Option<real>)
    requires InHour(xs, hour) == InHour(ys, hour)
    ensures Rate(hour, xs, previous) == Rate(hour, ys, previous)
  {
  }

  // ---------------------------------------------------------------------------
  // Live refines batch
  // ---------------------------------------------------------------------------

  /** A runner stands where the batch does. */
  ghost predicate Agrees(r: Runner, p: Progress) {
    r.emitted == p.out && r.previous == p.previous
  }

  lemma StepAgrees(closed: int -> bool, r: Runner, hour: int, history: seq<MarkSample>, p: Progress)
    requires Agrees(r, p) && InHour(r.samples, hour) == InHour(history, hour)
    ensures var r' := EmitHour(closed, r, hour, true);
            Agrees(r', if Due(r, hour) && !closed(hour) then Advance(p, Rate(hour, history, p.previous)) else p)
  {
    RateDependsOnTheHourAlone(hour, r.samples, history, r.previous);
  }

  /** When an hour is on time the window has of it what the whole history has. */
  lemma AllOfTheHourIsIn(closed: int -> bool, r: Runner, events: seq<Event>, n: nat, hour: int)
    requires r.samples == [] && n <= |events|
    requires NoneAfter(Observed(events[..n]), hour + RETENTION) && NoneInside(Observed(events[n..]), hour)
    ensures InHour(Run(closed, r, events[..n]).samples, hour) == InHour(Observed(events), hour)
  {
    TheWindowHoldsTheHour(closed, r, events[..n], hour);
    ObservedPrefix(events, n);
    InHourAppend(Observed(events[..n]), Observed(events[n..]), hour);
    NothingInside(Observed(events[n..]), hour);
  }

  lemma {:induction false} LiveRefinesBatchSoFar(closed: int -> bool, r: Runner, events: seq<Event>, n: nat)
    requires r.samples == [] && r.emitted == [] && Timely(events) && n <= |events|
    ensures Agrees(Run(closed, r, events[..n]), Series(Hours(closed, r, events[..n]), Observed(events), r.previous))
  {
    if n > 0 {
      LiveRefinesBatchSoFar(closed, r, events, n - 1);
      assert events[..n][..n - 1] == events[..n - 1];
      assert OnTime(events, n - 1);
      if events[n - 1].Emit? {
        var hour := HourOf(events[n - 1].hour);
        var hours := Hours(closed, r, events[..n - 1]);
        AllOfTheHourIsIn(closed, r, events, n - 1, hour);
        StepAgrees(closed, Run(closed, r, events[..n - 1]), hour, Observed(events),
                   Series(hours, Observed(events), r.previous));
        assert (hours + [hour])[..|hours|] == hours;
      }
    }
  }

  /** When each hour is computed after its last mark and before any mark more than an hour
      past its end, the live runner's rates are the batch's over the whole history, from the
      same seed, its maintenance hours left out. */
  lemma LiveRefinesBatch(closed: int -> bool, r: Runner, events: seq<Event>)
    requires r.samples == [] && r.emitted == [] && Timely(events)
    ensures Run(closed, r, events).emitted == Series(Hours(closed, r, events), Observed(events), r.previous).out
  {
    LiveRefinesBatchSoFar(closed, r, events, |events|);
    assert events[..|events|] == events;
  }

  /** The hours taken up are in strictly ascending order, whatever Emit was called with, so
      the batch's sort leaves them alone and no hour has two rates. */
  lemma {:induction false} HoursAscend(closed: int -> bool, r: Runner, events: seq<Event>)
    requires forall i :: 0 <= i < |events| ==> !events[i].Seed? && (events[i].Emit? ==> events[i].recorded)
    ensures var hours := Hours(closed, r, events);
            && (forall i, j :: 0 <= i < j < |hours| ==> hours[i] < hours[j])
            && (hours != [] ==> !Due(Run(closed, r, events), hours[|hours| - 1]))
  {
    if events != [] {
      var n := |events| - 1;
      HoursAscend(closed, r, events[..n]);
    }
  }

  /** Marks that arrive in ascending time are all in for an hour once one stamped its end or
      later is. */
  lemma MarksInOrderAreIn(events: seq<Event>, n: nat, hour: int, i: nat)
    requires n <= |events| && i < |Observed(events[..n])| && Observed(events[..n])[i].at >= hour + HOUR
    requires forall a, b :: 0 <= a < b < |Observed(events)| ==> Observed(events)[a].at < Observed(events)[b].at
    ensures NoneInside(Observed(events[n..]), hour)
  {
    ObservedPrefix(events, n);
    var before, after := Observed(events[..n]), Observed(events[n..]);
    forall j | 0 <= j < |after|
      ensures !Inside(after[j], hour)
    {
      assert Observed(events)[i] == before[i] && Observed(events)[|before| + j] == after[j];
    }
  }

  lemma FewerMarksShow(hour: int, window: seq<MarkSample>, later: seq<MarkSample>, history: seq<MarkSample>,
                       previous: Option<real>)
    requires InHour(history, hour) == InHour(window, hour) + InHour(later, hour)
    requires Rate(hour, history, previous).Marked?
    ensures Rate(hour, window, previous) == Rate(hour, history, previous) <==> InHour(later, hour) == []
  {
    if InHour(later, hour) == [] {
      RateDependsOnTheHourAlone(hour, window, history, previous);
    } else {
      assert Rate(hour, history, previous).value.samples == |InHour(history, hour)| > |InHour(window, hour)|;
    }
  }

  /** An hour computed before any mark more than an hour past its end has the batch's whole
      outcome, the count of its marks included, exactly when all of them were in. The count is
      logged and not stored; what a missing mark does to the stored rate is in LateMarks. */
  lemma AnHourAgreesExactlyWhenItsMarksAreIn(closed: int -> bool, r: Runner, events: seq<Event>, n: nat, hour: int)
    requires r.samples == [] && n <= |events| && NoneAfter(Observed(events[..n]), hour + RETENTION)
    requires Markable(hour, Observed(events))
    ensures var previous := Run(closed, r, events[..n]).previous;
            Rate(hour, Run(closed, r, events[..n]).samples, previous) == Rate(hour, Observed(events), previous)
            <==> NoneInside(Observed(events[n..]), hour)
  {
    var previous := Run(closed, r, events[..n]).previous;
    TheWindowHoldsTheHour(closed, r, events[..n], hour);
    ObservedPrefix(events, n);
    InHourAppend(Observed(events[..n]), Observed(events[n..]), hour);
    NothingInside(Observed(events[n..]), hour);
    MarkedExactlyWhenMarkable(hour, Observed(events), previous);
    FewerMarksShow(hour, Run(closed, r, events[..n]).samples, Observed(events[n..]), Observed(events), previous);
  }

  // ---------------------------------------------------------------------------
  // Catching up
  // ---------------------------------------------------------------------------

  /** The first hour a tick computes: the one after the last recorded, but no more than the
      retention back; the newest alone when nothing is recorded. */
  function FirstUnrecorded(r: Runner, newest: int): int {
    match r.lastHour
    case None => newest
    case Some(last) => if last < newest - RETENTION then newest - RETENTION else last + HOUR
  }

  /** How many hours a tick computes. */
  function TickCount(r: Runner, newest: int): nat {
    var first := FirstUnrecorded(r, newest);
    if first > newest then 0 else (newest - first) / HOUR + 1
  }

  /** The first n hours from one, and the events of computing them. */
  function HoursFrom(first: int, n: nat): seq<int> {
    if n == 0 then [] else HoursFrom(first, n - 1) + [first + (n - 1) * HOUR]
  }

  function Emits(first: int, n: nat, sink: int -> bool): seq<Event> {
    if n == 0 then [] else Emits(first, n - 1, sink) + [Emit(first + (n - 1) * HOUR, sink(first + (n - 1) * HOUR))]
  }

  lemma {:induction false} HoursFromAre(first: int, n: nat)
    ensures |HoursFrom(first, n)| == n && forall i :: 0 <= i < n ==> HoursFrom(first, n)[i] == first + i * HOUR
  {
    if n > 0 {
      HoursFromAre(first, n - 1);
    }
  }

  /** The hours of one tick, oldest first. */
  function TickHours(r: Runner, newest: int): seq<int> {
    HoursFrom(FirstUnrecorded(r, newest), TickCount(r, newest))
  }

  predicate OnTheHour(t: int) {
    t % HOUR == 0
  }

  lemma WholeHours(first: int, hour: int)
    requires OnTheHour(first) && OnTheHour(hour) && first <= hour
    ensures first + (hour - first) / HOUR * HOUR == hour
  {
  }

  lemma EmitsNext(before: seq<Event>, done: seq<Event>, first: int, n: nat, sink: int -> bool, h: int)
    requires done == before + Emits(first, n, sink) && h == first + n * HOUR
    ensures done + [Emit(h, sink(h))] == before + Emits(first, n + 1, sink)
    ensures h + HOUR == first + (n + 1) * HOUR
  {
  }

  lemma CountedThrough(r: Runner, newest: int, n: nat)
    ensures var first := FirstUnrecorded(r, newest);
            && (n > 0 && first + (n - 1) * HOUR <= newest ==> n <= TickCount(r, newest))
            && (first + n * HOUR > newest ==> n >= TickCount(r, newest))
  {
  }

  /** An hour is among those counted from the first exactly when it is no earlier, and no later
      than the newest. */
  lemma CountedHours(first: int, newest: int, hour: int)
    requires OnTheHour(first) && OnTheHour(newest) && OnTheHour(hour) && first <= newest
    ensures hour in HoursFrom(first, (newest - first) / HOUR + 1) <==> first <= hour <= newest
  {
    var n := (newest - first) / HOUR + 1;
    HoursFromAre(first, n);
    WholeHours(first, newest);
    if first <= hour <= newest {
      WholeHours(first, hour);
      assert HoursFrom(first, n)[(hour - first) / HOUR] == hour;
    }
  }

  /** A tick takes up, in order and once each, every hour not yet taken up that is no more
      than the retention before the newest. */
  lemma ATickMissesNoHour(r: Runner, newest: int, hour: int)
    requires OnTheHour(newest) && OnTheHour(hour) && r.lastHour.Some? && OnTheHour(r.lastHour.value)
    ensures hour in TickHours(r, newest) <==> Due(r, hour) && newest - RETENTION <= hour <= newest
    ensures forall i, j :: 0 <= i < j < |TickHours(r, newest)| ==> TickHours(r, newest)[i] < TickHours(r, newest)[j]
  {
    var first := FirstUnrecorded(r, newest);
    FirstIsOldestDue(r, newest, hour);
    HoursFromAre(first, TickCount(r, newest));
    if first <= newest {
      CountedHours(first, newest, hour);
    }
  }

  lemma FirstIsOldestDue(r: Runner, newest: int, hour: int)
    requires OnTheHour(newest) && OnTheHour(hour) && r.lastHour.Some? && OnTheHour(r.lastHour.value)
    ensures OnTheHour(FirstUnrecorded(r, newest))
    ensures FirstUnrecorded(r, newest) <= hour <==> Due(r, hour) && newest - RETENTION <= hour
  {
  }

  lemma {:induction false} SinceIsWithin(samples: seq<MarkSample>, cutoff: int)
    ensures forall i :: 0 <= i < |Since(samples, cutoff)| ==> Since(samples, cutoff)[i].at >= cutoff
  {
    if samples != [] {
      SinceIsWithin(samples[..|samples| - 1], cutoff);
    }
  }

  /** The hours a tick reaches no further back for could not have been marked: once a mark has
      come more than three hours after an hour began, the window holds none of that hour's. */
  lemma {:induction false} OlderHoursAreGone(closed: int -> bool, r: Runner, events: seq<Event>, s: MarkSample,
                                             hour: int)
    requires s.at > hour + RETENTION + HOUR
    ensures InHour(Run(closed, r, events + [Observe(s)]).samples, hour) == []
  {
    assert (events + [Observe(s)])[..|events|] == events;
    var samples := Run(closed, r, events).samples + [s];
    SinceIsWithin(samples, s.at - RETENTION);
    NothingInside(Since(samples, s.at - RETENTION), hour);
  }

  // ---------------------------------------------------------------------------
  // The runner
  // ---------------------------------------------------------------------------

  class FundingRunner {
    const maintenance: int -> bool

    var samples: seq<MarkSample>
    var previous: Option<real>
    var lastHour: Option<int>

    // The rows the sink took, and everything that has happened.
    ghost var emitted: seq<Funding>
    ghost var history: seq<Event>

    ghost function State(): Runner
      reads this
    {
      Runner(samples, previous, lastHour, emitted)
    }

    ghost predicate Valid()
      reads this
    {
      State() == Run(maintenance, FRESH, history)
    }

    constructor (maintenance: int -> bool)
      ensures Valid() && history == [] && this.maintenance == maintenance
    {
      this.maintenance := maintenance;
      samples, previous, lastHour, emitted, history := [], None, None, [], [];
    }

    ghost method Took(e: Event, was: Runner)
      requires was == Run(maintenance, FRESH, history) && State() == Step(maintenance, was, e)
      modifies this`history
      ensures Valid() && history == old(history) + [e]
    {
      history := history + [e];
      assert history[..|history| - 1] == old(history);
    }

    method Seed(rate: real, hour: int)
      requires Valid()
      modifies this`previous, this`lastHour, this`history
      ensures Valid() && history == old(history) + [Event.Seed(rate, hour)]
    {
      ghost var was := State();
      previous, lastHour := Some(rate), Some(hour);
      Took(Event.Seed(rate, hour), was);
    }

    method Observe(s: MarkSample)
      requires Valid()
      modifies this`samples, this`history
      ensures Valid() && history == old(history) + [Event.Observe(s)]
    {
      ghost var was := State();
      samples := samples + [s];
      Trim(s.at - RETENTION);
      Took(Event.Observe(s), was);
    }

    /** Drops every mark from before the cutoff. */
    method Trim(cutoff: int)
      modifies this`samples
      ensures samples == Since(old(samples), cutoff)
    {
      var kept := [];
      for i := 0 to |samples|
        invariant samples == old(samples)
        invariant kept == Since(samples[..i], cutoff)
      {
        assert samples[..i + 1][..i] == samples[..i];
        if samples[i].at >= cutoff {
          kept := kept + [samples[i]];
        }
      }
      assert samples[..|samples|] == samples;
      samples := kept;
    }

    /** One hour; false when the writer has gone. */
    method Emit(hour: int, recorded: bool) returns (ok: bool)
      requires Valid()
      modifies this`previous, this`lastHour, this`emitted, this`history
      ensures Valid() && history == old(history) + [Event.Emit(hour, recorded)]
      ensures recorded ==> ok
    {
      ghost var was := State();
      ok := Compute(HourOf(hour), recorded);
      Took(Event.Emit(hour, recorded), was);
    }

    method Compute(hour: int, recorded: bool) returns (ok: bool)
      modifies this`previous, this`lastHour, this`emitted
      ensures State() == EmitHour(maintenance, old(State()), hour, recorded)
      ensures ok ==> !Due(State(), hour)
      ensures recorded ==> ok
    {
      if lastHour.Some? && hour <= lastHour.value {
        return true;
      }
      if maintenance(hour) {
        lastHour := Some(hour);
        return true;
      }
      var funding := RateForHour(hour, samples, previous);
      match funding {
        case Skipped(_) =>
          lastHour := Some(hour);
        case Marked(f) =>
          if !recorded {
            return false;
          }
          previous, lastHour, emitted := Some(f.rate), Some(hour), emitted + [f];
      }
      ok := true;
    }

    method FirstToCompute(newest: int) returns (h: int)
      ensures h == FirstUnrecorded(State(), newest)
    {
      if lastHour.None? {
        return newest;
      }
      if lastHour.value < newest - RETENTION {
        return newest - RETENTION;
      }
      return lastHour.value + HOUR;
    }

    /** The hours from one to the newest, until a row is refused. */
    method EmitThrough(first: int, newest: int, sink: int -> bool) returns (ok: bool, ghost n: nat)
      requires Valid()
      modifies this`previous, this`lastHour, this`emitted, this`history
      ensures Valid() && history == old(history) + Emits(first, n, sink)
      ensures n > 0 ==> first + (n - 1) * HOUR <= newest
      ensures if ok then first + n * HOUR > newest else n > 0 && !sink(first + (n - 1) * HOUR)
    {
      var h := first;
      n := 0;
      while h <= newest
        invariant Valid() && history == old(history) + Emits(first, n, sink)
        invariant h == first + n * HOUR && (n > 0 ==> h - HOUR <= newest)
        decreases newest - h
      {
        EmitsNext(old(history), history, first, n, sink, h);
        ok := Emit(h, sink(h));
        n := n + 1;
        if !ok {
          return;
        }
        h := h + HOUR;
      }
      ok := true;
    }

    /** One tick of Run. `sink` says which hours' rows would be taken; the tick stops early
        only at a refused one. */
    method Tick(newest: int, sink: int -> bool) returns (ok: bool, ghost n: nat)
      requires Valid()
      modifies this`previous, this`lastHour, this`emitted, this`history
      ensures Valid()
      ensures var was := old(State());
              && n <= TickCount(was, newest)
              && history == old(history) + Emits(FirstUnrecorded(was, newest), n, sink)
              && if ok then n == TickCount(was, newest)
                 else n > 0 && !sink(FirstUnrecorded(was, newest) + (n - 1) * HOUR)
    {
      var first := FirstToCompute(newest);
      ok, n := EmitThrough(first, newest, sink);
      CountedThrough(old(State()), newest, n);
    }
  }
}
