/** A funding backfill that is resumed (internal/ingest/backfill.go): the hours still to compute
    are run with no seed, whatever was recorded before them. How far that is from the series
    computed in one go. */
module ResumedSeries {
  import opened Options
  import opened Decimals
  import opened FundingRate

  /** A series over two stretches of hours is one over the first, and one over the second from
      where it stopped. */
  lemma {:induction false} SeriesContinues(xs: seq<int>, ys: seq<int>, samples: seq<MarkSample>, seed: Option<real>)
    ensures var p := Series(xs, samples, seed);
            var q := Series(ys, samples, p.previous);
            Series(xs + ys, samples, seed) == Progress(p.out + q.out, p.skipped + q.skipped, q.previous)
  {
    var p := Series(xs, samples, seed);
    if ys == [] {
      assert xs + ys == xs;
    } else {
      var n := |ys| - 1;
      SeriesContinues(xs, ys[..n], samples, seed);
      assert (xs + ys)[..|xs + ys| - 1] == xs + ys[..n];
      AdvanceContinues(p, Series(ys[..n], samples, p.previous),
                       Rate(ys[n], samples, Series(ys[..n], samples, p.previous).previous));
    }
  }

  lemma AdvanceContinues(p: Progress, q: Progress, outcome: Outcome<Funding>)
    ensures var r := Advance(q, outcome);
            Advance(Progress(p.out + q.out, p.skipped + q.skipped, q.previous), outcome)
            == Progress(p.out + r.out, p.skipped + r.skipped, r.previous)
  {
  }

  /** Two rows of one hour, but for the rate and what is derived from it. */
  predicate SameHour(f: Funding, g: Funding) {
    f.hourStart == g.hourStart && f.premium == g.premium && f.samples == g.samples
  }

  predicate SameHours(xs: seq<Funding>, ys: seq<Funding>) {
    |xs| == |ys| && forall i :: 0 <= i < |xs| ==> SameHour(xs[i], ys[i])
  }

  lemma OutcomesAlike(hour: int, samples: seq<MarkSample>, seed: Option<real>, other: Option<real>)
    ensures var r, s := Rate(hour, samples, seed), Rate(hour, samples, other);
            (r.Marked? <==> s.Marked?) && (r.Marked? ==> SameHour(r.value, s.value))
  {
  }

  /** A seed changes rates and nothing else. */
  lemma {:induction false} SeedsChangeRatesOnly(hours: seq<int>, samples: seq<MarkSample>, seed: Option<real>,
                                                other: Option<real>)
    ensures SameHours(Series(hours, samples, seed).out, Series(hours, samples, other).out)
  {
    if hours != [] {
      var n := |hours| - 1;
      SeedsChangeRatesOnly(hours[..n], samples, seed, other);
      OutcomesAlike(hours[n], samples, Series(hours[..n], samples, seed).previous,
                    Series(hours[..n], samples, other).previous);
    }
  }

  lemma SamePremiums(xs: seq<Funding>, ys: seq<Funding>)
    requires SameHours(xs, ys)
    ensures Premiums(xs) == Premiums(ys)
  {
    forall i | 0 <= i < |xs|
      ensures Premiums(xs)[i] == Premiums(ys)[i]
    {
      assert SameHour(xs[i], ys[i]);
    }
  }

  /** Where a series starts from: its seed, or its own first premium. */
  function StartOf(seed: Option<real>, first: real): real {
    if seed.Some? then seed.value else first
  }

  lemma RunsFromItsStart(ps: seq<real>, seed: Option<real>)
    requires ps != []
    ensures Rounded(ps, seed) == Rounded(ps, Some(StartOf(seed, ps[0])))
  {
    if seed.None? {
      StartingColdIsASeed(ps);
    }
  }

  /** Over the same hours, two series come together by a factor of four an hour from wherever
      they started, seeded or cold, down to what rounding alone can keep between them. */
  lemma TwoStartsMeet(hours: seq<int>, samples: seq<MarkSample>, seed: Option<real>, other: Option<real>, k: nat)
    requires k < |Series(hours, samples, seed).out|
    ensures k < |Series(hours, samples, other).out|
    ensures var f, g := Series(hours, samples, seed).out, Series(hours, samples, other).out;
            && SameHours(f, g)
            && Meet(f[k].rate, g[k].rate, StartOf(seed, f[0].premium), StartOf(other, f[0].premium), k + 1)
  {
    var f, g := Series(hours, samples, seed).out, Series(hours, samples, other).out;
    SeedsChangeRatesOnly(hours, samples, seed, other);
    SamePremiums(f, g);
    SeriesIsTheRecursion(hours, samples, seed);
    SeriesIsTheRecursion(hours, samples, other);
    TheseMeet(f, g, seed, other, k);
  }

  /** Two rates within what n hours leave of where they started, and what rounding keeps. */
  predicate Meet(rate: real, other: real, start: real, otherStart: real, n: nat) {
    Abs(rate - other) <= Quarter(Abs(start - otherStart), n) + UNIT * 4.0 / 3.0
  }

  lemma TheseMeet(f: seq<Funding>, g: seq<Funding>, seed: Option<real>, other: Option<real>, k: nat)
    requires k < |f| == |g| && Premiums(f) == Premiums(g)
    requires EachRateFollows(f, seed) && EachRateFollows(g, other)
    ensures Meet(f[k].rate, g[k].rate, StartOf(seed, f[0].premium), StartOf(other, f[0].premium), k + 1)
  {
    var ps := Premiums(f)[..k + 1];
    assert ThatRateFollows(f, seed, k) && ThatRateFollows(g, other, k);
    assert ps[0] == f[0].premium;
    RunsFromItsStart(ps, seed);
    RunsFromItsStart(ps, other);
    SeedsAreForgotten(ps, StartOf(seed, ps[0]), StartOf(other, ps[0]));
  }

  /** The same stretch of hours after any two histories, of any seeds: whichever hours were
      recorded already, and whichever were left to a later run. */
  lemma AStretchMeetsItself(before: seq<int>, others: seq<int>, hours: seq<int>, samples: seq<MarkSample>,
                            seed: Option<real>, other: Option<real>, k: nat)
    requires var p := Series(before, samples, seed); k < |Series(hours, samples, p.previous).out|
    ensures var p, q := Series(before, samples, seed), Series(others, samples, other);
            var f, g := Series(before + hours, samples, seed).out, Series(others + hours, samples, other).out;
            var n, m := |p.out|, |q.out|;
            && n + k < |f| && m + k < |g|
            && SameHour(f[n + k], g[m + k])
            && Meet(f[n + k].rate, g[m + k].rate,
                    StartOf(p.previous, f[n].premium), StartOf(q.previous, f[n].premium), k + 1)
  {
    var p, q := Series(before, samples, seed), Series(others, samples, other);
    SeriesContinues(before, hours, samples, seed);
    SeriesContinues(others, hours, samples, other);
    TwoStartsMeet(hours, samples, p.previous, q.previous, k);
  }

  /** A backfill resumed after some hours starts cold. Its n-th rate is within a quarter to the
      n of how far its first premium stands from the last rate recorded, and 4/3 of a unit, of
      the rate the uninterrupted series has for that hour. */
  lemma AResumedBackfillMeetsTheWhole(done: seq<int>, rest: seq<int>, samples: seq<MarkSample>, seed: Option<real>,
                                      k: nat)
    requires k < |Series(rest, samples, None).out| && Series(done, samples, seed).previous.Some?
    ensures var recorded := Series(done, samples, seed);
            var whole, cold := Series(done + rest, samples, seed).out, Series(rest, samples, None).out;
            var n := |recorded.out|;
            && |whole| == n + |cold| && SameHour(whole[n + k], cold[k])
            && Meet(whole[n + k].rate, cold[k].rate, recorded.previous.value, cold[0].premium, k + 1)
  {
    var recorded := Series(done, samples, seed);
    SeriesContinues(done, rest, samples, seed);
    SeedsChangeRatesOnly(rest, samples, recorded.previous, None);
    TwoStartsMeet(rest, samples, recorded.previous, None, k);
    var warm, cold := Series(rest, samples, recorded.previous).out, Series(rest, samples, None).out;
    assert SameHour(warm[0], cold[0]) && SameHour(warm[k], cold[k]);
  }
}
