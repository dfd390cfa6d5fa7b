/** The hourly funding rate (internal/ingest/funding.go): twenty premiums to a mean, a mean
    and the hour before to a rate, and a rate bounded to sixteen places before it is fed back. */
module FundingRate {
  import opened Options
  import opened Decimals

  const HOUR: int := 3_600_000_000_000
  const MIN_SAMPLES := 13

  datatype MarkSample = MarkSample(at: int, futures: real, spot: real)

  datatype Funding = Funding(hourStart: int, premium: real, rate: real, annualized: real, samples: nat)

  /** Why an hour has no rate. */
  datatype Skip = TooFewSamples(hourStart: int, got: nat) | SpotMarkIsZero(at: int)

  datatype Outcome<+T> = Marked(value: T) | Skipped(why: Skip)

  function HourOf(t: int): int {
    t - t % HOUR
  }

  function Premium(s: MarkSample): Outcome<real> {
    if s.spot == 0.0 then Skipped(SpotMarkIsZero(s.at)) else Marked(Div(Div(s.futures - s.spot, s.spot), 24.0))
  }

  /** A sample is stamped with its window's end, so an hour's are those after its start and
      up to its end. */
  predicate Inside(s: MarkSample, hourStart: int) {
    hourStart < s.at <= hourStart + HOUR
  }

  function InHour(samples: seq<MarkSample>, hourStart: int): seq<MarkSample> {
    if samples == [] then []
    else
      var n := |samples| - 1;
      if Inside(samples[n], hourStart) then InHour(samples[..n], hourStart) + [samples[n]]
        else InHour(samples[..n], hourStart)
  }

  function PremiumSum(samples: seq<MarkSample>): Outcome<real> {
    if samples == [] then Marked(0.0)
    else
      var n := |samples| - 1;
      match PremiumSum(samples[..n])
      case Skipped(why) => Skipped(why)
      case Marked(sum) =>
        match Premium(samples[n])
        case Skipped(why) => Skipped(why)
        case Marked(p) => Marked(sum + p)
  }

  /** The venue's smoothing: three quarters of this hour, a quarter of the last; the first
      hour of a series has no last. */
  function Smooth(premium: real, previous: Option<real>): real {
    match previous
    case None => premium
    case Some(rate) => 0.75 * premium + 0.25 * rate
  }

  /** RateForHour as a value. */
  function Rate(hourStart: int, samples: seq<MarkSample>, previous: Option<real>): Outcome<Funding> {
    var inHour := InHour(samples, hourStart);
    if |inHour| < MIN_SAMPLES then Skipped(TooFewSamples(hourStart, |inHour|))
    else match PremiumSum(inHour)
      case Skipped(why) => Skipped(why)
      case Marked(sum) =>
        var premium := Div(sum, |inHour| as real);
        var rate := Round16(Smooth(premium, previous));
        Marked(Funding(hourStart, premium, rate, rate * 8760.0, |inHour|))
  }

  /** A series so far: what was computed, what was skipped, and what the next hour smooths
      against. A skipped hour does not advance the recursion. */
  datatype Progress = Progress(out: seq<Funding>, skipped: seq<Skip>, previous: Option<real>)

  function Advance(p: Progress, outcome: Outcome<Funding>): Progress {
    match outcome
    case Marked(f) => Progress(p.out + [f], p.skipped, Some(f.rate))
    case Skipped(why) => p.(skipped := p.skipped + [why])
  }

  function Series(hours: seq<int>, samples: seq<MarkSample>, seed: Option<real>): Progress {
    if hours == [] then Progress([], [], seed)
    else
      var n := |hours| - 1;
      var p := Series(hours[..n], samples, seed);
      Advance(p, Rate(hours[n], samples, p.previous))
  }

  // ---------------------------------------------------------------------------
  // The loops
  // ---------------------------------------------------------------------------

  method CollectHour(hourStart: int, samples: seq<MarkSample>) returns (inHour: seq<MarkSample>)
    ensures inHour == InHour(samples, hourStart)
  {
    inHour := [];
    for i := 0 to |samples|
      invariant inHour == InHour(samples[..i], hourStart)
    {
      assert samples[..i + 1][..i] == samples[..i];
      if hourStart < samples[i].at && samples[i].at <= hourStart + HOUR {
        inHour := inHour + [samples[i]];
      }
    }
    assert samples[..|samples|] == samples;
  }

  method AddPremiums(inHour: seq<MarkSample>) returns (r: Outcome<real>)
    ensures r == PremiumSum(inHour)
  {
    var sum := 0.0;
    for i := 0 to |inHour|
      invariant PremiumSum(inHour[..i]) == Marked(sum)
    {
      assert inHour[..i + 1][..i] == inHour[..i];
      var p := Premium(inHour[i]);
      if p.Skipped? {
        FirstSkipStands(inHour, i + 1);
        return Skipped(p.why);
      }
      sum := sum + p.value;
    }
    assert inHour[..|inHour|] == inHour;
    r := Marked(sum);
  }

  method RateForHour(hourStart: int, samples: seq<MarkSample>, previous: Option<real>) returns (r: Outcome<Funding>)
    ensures r == Rate(hourStart, samples, previous)
  {
    var inHour := CollectHour(hourStart, samples);
    if |inHour| < MIN_SAMPLES {
      return Skipped(TooFewSamples(hourStart, |inHour|));
    }
    var sum := AddPremiums(inHour);
    if sum.Skipped? {
      return Skipped(sum.why);
    }
    var premium := Div(sum.value, |inHour| as real);
    var rate := premium;
    if previous.Some? {
      rate := 0.75 * premium + 0.25 * previous.value;
    }
    rate := Round16(rate);
    r := Marked(Funding(hourStart, premium, rate, rate * 8760.0, |inHour|));
  }

  lemma {:induction false} FirstSkipStands(samples: seq<MarkSample>, i: nat)
    requires i <= |samples| && PremiumSum(samples[..i]).Skipped?
    ensures PremiumSum(samples) == PremiumSum(samples[..i])
    decreases |samples|
  {
    if i < |samples| {
      var n := |samples| - 1;
      assert samples[..n][..i] == samples[..i];
      FirstSkipStands(samples[..n], i);
    } else {
      assert samples[..i] == samples;
    }
  }

  predicate Ascending(hours: seq<int>) {
    forall i, j :: 0 <= i < j < |hours| ==> hours[i] <= hours[j]
  }

  /** In order up to i, but for the hour on its way down, which has reached j. */
  predicate Sinking(hours: seq<int>, i: int, j: int) {
    0 <= j <= i < |hours| && forall a, b :: 0 <= a < b <= i && b != j ==> hours[a] <= hours[b]
  }

  lemma SinkOne(hours: seq<int>, i: int, j: int)
    requires Sinking(hours, i, j) && j > 0 && hours[j - 1] > hours[j]
    ensures Sinking(hours[j - 1 := hours[j]][j := hours[j - 1]], i, j - 1)
  {
  }

  lemma Sunk(hours: seq<int>, i: int, j: int)
    requires Sinking(hours, i, j) && (j == 0 || hours[j - 1] <= hours[j])
    ensures Ascending(hours[..i + 1])
  {
    forall a, b | 0 <= a < b <= i
      ensures hours[a] <= hours[b]
    {
      if b == j && a < j - 1 {
        assert hours[a] <= hours[j - 1];
      }
    }
  }

  /** Sorts by insertion, one hour at a time. */
  method SortHours(hours: array<int>)
    modifies hours
    ensures Ascending(hours[..]) && multiset(hours[..]) == multiset(old(hours[..]))
  {
    for i := 0 to hours.Length
      invariant Ascending(hours[..i])
      invariant multiset(hours[..]) == multiset(old(hours[..]))
    {
      assert Sinking(hours[..], i, i) by {
        assert forall a :: 0 <= a < i ==> hours[..i][a] == hours[..][a];
      }
      Sift(hours, i);
    }
    assert hours[..hours.Length] == hours[..];
  }

  method Sift(hours: array<int>, i: nat)
    requires i < hours.Length && Sinking(hours[..], i, i)
    modifies hours
    ensures Ascending(hours[..i + 1]) && multiset(hours[..]) == multiset(old(hours[..]))
  {
    var j := i;
    while j > 0 && hours[j - 1] > hours[j]
      invariant Sinking(hours[..], i, j)
      invariant multiset(hours[..]) == multiset(old(hours[..]))
    {
      ghost var was := hours[..];
      SinkOne(was, i, j);
      hours[j - 1], hours[j] := hours[j], hours[j - 1];
      assert hours[..] == was[j - 1 := was[j]][j := was[j - 1]];
      j := j - 1;
    }
    Sunk(hours[..], i, j);
    assert hours[..][..i + 1] == hours[..i + 1];
  }

  method ComputeSeries(hours: array<int>, samples: seq<MarkSample>, seed: Option<real>)
    returns (out: seq<Funding>, skipped: seq<Skip>)
    modifies hours
    ensures Ascending(hours[..]) && multiset(hours[..]) == multiset(old(hours[..]))
    ensures out == Series(hours[..], samples, seed).out && skipped == Series(hours[..], samples, seed).skipped
  {
    SortHours(hours);
    out, skipped := [], [];
    var previous := seed;
    ghost var sorted := hours[..];
    for i := 0 to hours.Length
      invariant hours[..] == sorted
      invariant Progress(out, skipped, previous) == Series(hours[..i], samples, seed)
    {
      assert hours[..i + 1][..i] == hours[..i];
      var f := RateForHour(hours[i], samples, previous);
      match f {
        case Skipped(why) =>
          skipped := skipped + [why];
        case Marked(funding) =>
          out := out + [funding];
          previous := Some(funding.rate);
      }
    }
    assert hours[..hours.Length] == hours[..];
  }

  // ---------------------------------------------------------------------------
  // The recursion
  // ---------------------------------------------------------------------------

  function Rounded(premiums: seq<real>, seed: Option<real>): Option<real> {
    if premiums == [] then seed
    else Some(Round16(Smooth(premiums[|premiums| - 1], Rounded(premiums[..|premiums| - 1], seed))))
  }

  function Exact(premiums: seq<real>, seed: Option<real>): Option<real> {
    if premiums == [] then seed
    else Some(Smooth(premiums[|premiums| - 1], Exact(premiums[..|premiums| - 1], seed)))
  }

  function Premiums(out: seq<Funding>): seq<real> {
    seq(|out|, i requires 0 <= i < |out| => out[i].premium)
  }

  /** The series is the recursion over the premiums of the hours that could be marked. */
  lemma {:induction false} SeriesIsTheRecursion(hours: seq<int>, samples: seq<MarkSample>, seed: Option<real>)
    ensures var p := Series(hours, samples, seed);
            p.previous == Rounded(Premiums(p.out), seed) && EachRateFollows(p.out, seed)
  {
    if hours != [] {
      var n := |hours| - 1;
      SeriesIsTheRecursion(hours[..n], samples, seed);
      var p := Series(hours[..n], samples, seed);
      var r := Rate(hours[n], samples, p.previous);
      if r.Marked? {
        OneMoreRate(p.out, r.value, seed);
      }
    }
  }

  /** Each rate is where the recursion stands after its hour. */
  ghost predicate EachRateFollows(out: seq<Funding>, seed: Option<real>) {
    forall k :: 0 <= k < |out| ==> ThatRateFollows(out, seed, k)
  }

  ghost predicate ThatRateFollows(out: seq<Funding>, seed: Option<real>, k: int)
    requires 0 <= k < |out|
  {
    Rounded(Premiums(out)[..k + 1], seed) == Some(out[k].rate)
  }

  lemma OneMoreRate(out: seq<Funding>, f: Funding, seed: Option<real>)
    requires EachRateFollows(out, seed) && f.rate == Round16(Smooth(f.premium, Rounded(Premiums(out), seed)))
    ensures EachRateFollows(out + [f], seed) && Rounded(Premiums(out + [f]), seed) == Some(f.rate)
  {
    var all := Premiums(out + [f]);
    assert all[..|out|] == Premiums(out);
    assert all[..|out| + 1] == all;
    forall k | 0 <= k < |out| + 1
      ensures ThatRateFollows(out + [f], seed, k)
    {
      if k < |out| {
        assert ThatRateFollows(out, seed, k);
        assert all[..k + 1] == Premiums(out)[..k + 1];
      }
    }
  }

  predicate Near(ps: seq<real>, qs: seq<real>, error: real) {
    |ps| == |qs| && forall i :: 0 <= i < |ps| ==> Within(ps[i], qs[i], error)
  }

  predicate Within(p: real, q: real, error: real) {
    Abs(p - q) <= error
  }

  /** However many hours the recursion runs, rounding each rate to sixteen places leaves it
      within two thirds of a unit of the recursion that never rounds, beyond whatever the
      premiums themselves are out by. */
  lemma {:induction false} RoundingNeverAccumulates(ps: seq<real>, qs: seq<real>, seed: Option<real>, error: real)
    requires Near(ps, qs, error) && 0.0 <= error && (ps != [] || seed.Some?)
    ensures Rounded(ps, seed).Some? && Exact(qs, seed).Some?
    ensures Abs(Rounded(ps, seed).value - Exact(qs, seed).value) <= error + UNIT * 2.0 / 3.0
  {
    if ps != [] {
      var n := |ps| - 1;
      assert Within(ps[n], qs[n], error);
      if n > 0 || seed.Some? {
        NearPrefix(ps, qs, error, n);
        RoundingNeverAccumulates(ps[..n], qs[..n], seed, error);
        OneHourOn(ps[n], qs[n], Rounded(ps[..n], seed).value, Exact(qs[..n], seed).value, error);
      }
    }
  }

  lemma OneHourOn(p: real, q: real, previous: real, exact: real, error: real)
    requires Abs(p - q) <= error && Abs(previous - exact) <= error + UNIT * 2.0 / 3.0
    ensures Abs(Round16(Smooth(p, Some(previous))) - Smooth(q, Some(exact))) <= error + UNIT * 2.0 / 3.0
  {
    var r := Smooth(p, Some(previous));
    assert Abs(r - Smooth(q, Some(exact))) <= error + UNIT / 6.0;
    assert Abs(Round16(r) - r) <= UNIT / 2.0;
  }

  lemma NearPrefix(ps: seq<real>, qs: seq<real>, error: real, n: nat)
    requires Near(ps, qs, error) && n <= |ps|
    ensures Near(ps[..n], qs[..n], error)
  {
  }

  lemma NearItself(ps: seq<real>)
    ensures Near(ps, ps, 0.0)
  {
    assert Abs(0.0) == 0.0;
  }

  function Quarter(d: real, n: nat): real {
    if n == 0 then d else Quarter(d, n - 1) / 4.0
  }

  /** Each hour forgets three quarters of where the recursion started. */
  lemma {:induction false} ExactForgets(ps: seq<real>, a: real, b: real)
    ensures Exact(ps, Some(a)).Some? && Exact(ps, Some(b)).Some?
    ensures Exact(ps, Some(a)).value - Exact(ps, Some(b)).value == Quarter(a - b, |ps|)
  {
    if ps != [] {
      ExactForgets(ps[..|ps| - 1], a, b);
    }
  }

  lemma {:induction false} QuarterOfAbs(d: real, n: nat)
    ensures Abs(Quarter(d, n)) == Quarter(Abs(d), n)
  {
    if n > 0 {
      QuarterOfAbs(d, n - 1);
    }
  }

  /** Two runs over the same premiums from different seeds come together by a factor of four
      an hour, down to what rounding alone can keep between them. */
  lemma {:induction false} SeedsAreForgotten(ps: seq<real>, a: real, b: real)
    ensures Rounded(ps, Some(a)).Some? && Rounded(ps, Some(b)).Some?
    ensures Abs(Rounded(ps, Some(a)).value - Rounded(ps, Some(b)).value) <= Quarter(Abs(a - b), |ps|) + UNIT * 4.0 / 3.0
  {
    RoundedIsClose(ps, a);
    RoundedIsClose(ps, b);
    ExactForgets(ps, a, b);
    QuarterOfAbs(a - b, |ps|);
    ApartByNoMore(Rounded(ps, Some(a)).value, Rounded(ps, Some(b)).value, Exact(ps, Some(a)).value,
                  Exact(ps, Some(b)).value, UNIT * 2.0 / 3.0);
  }

  lemma RoundedIsClose(ps: seq<real>, seed: real)
    ensures Rounded(ps, Some(seed)).Some? && Exact(ps, Some(seed)).Some?
    ensures Abs(Rounded(ps, Some(seed)).value - Exact(ps, Some(seed)).value) <= UNIT * 2.0 / 3.0
  {
    NearItself(ps);
    RoundingNeverAccumulates(ps, ps, Some(seed), 0.0);
  }

  lemma ApartByNoMore(x: real, y: real, p: real, q: real, error: real)
    requires Abs(x - p) <= error && Abs(y - q) <= error
    ensures Abs(x - y) <= Abs(p - q) + error + error
  {
  }

  /** A series with no seed is one seeded with its own first premium, so starting cold is
      forgotten at the same rate. */
  lemma {:induction false} StartingColdIsASeed(ps: seq<real>)
    requires ps != []
    ensures Rounded(ps, None) == Rounded(ps, Some(ps[0]))
  {
    if |ps| == 1 {
      assert ps[..0] == [];
      assert 0.75 * ps[0] + 0.25 * ps[0] == ps[0];
    } else {
      StartingColdIsASeed(ps[..|ps| - 1]);
    }
  }

  // ---------------------------------------------------------------------------
  // The venue's formula
  // ---------------------------------------------------------------------------

  function ExactPremium(s: MarkSample): real
    requires s.spot != 0.0
  {
    (s.futures - s.spot) / s.spot / 24.0
  }

  predicate Priced(samples: seq<MarkSample>) {
    forall i :: 0 <= i < |samples| ==> samples[i].spot != 0.0
  }

  function ExactSum(samples: seq<MarkSample>): real
    requires Priced(samples)
  {
    if samples == [] then 0.0
    else ExactSum(samples[..|samples| - 1]) + ExactPremium(samples[|samples| - 1])
  }

  /** The hour's mean premium with no rounding anywhere. */
  function ExactMean(samples: seq<MarkSample>): real
    requires Priced(samples) && samples != []
  {
    ExactSum(samples) / |samples| as real
  }

  const PREMIUM_ERROR := UNIT * 25.0 / 48.0

  lemma RoundedTwice(basis: real)
    ensures Abs(Div(Round16(basis), 24.0) - basis / 24.0) <= PREMIUM_ERROR
  {
    var once := Round16(basis);
    assert Abs(once / 24.0 - basis / 24.0) <= UNIT / 48.0;
  }

  lemma PremiumIsClose(s: MarkSample)
    requires s.spot != 0.0
    ensures Abs(Premium(s).value - ExactPremium(s)) <= PREMIUM_ERROR
  {
    RoundedTwice((s.futures - s.spot) / s.spot);
  }

  lemma TimesNext(n: real, x: real)
    ensures Times(n + 1.0, x) == Times(n, x) + x
  {
  }

  lemma {:induction false} SumIsClose(samples: seq<MarkSample>)
    requires PremiumSum(samples).Marked?
    ensures Priced(samples)
    ensures Abs(PremiumSum(samples).value - ExactSum(samples)) <= Times(|samples| as real, PREMIUM_ERROR)
  {
    if samples != [] {
      var n := |samples| - 1;
      SumIsClose(samples[..n]);
      PremiumIsClose(samples[n]);
      assert forall i :: 0 <= i < n ==> samples[i] == samples[..n][i];
      TimesNext(n as real, PREMIUM_ERROR);
      assert |samples| as real == n as real + 1.0;
      AddClose(PremiumSum(samples[..n]).value, ExactSum(samples[..n]), Premium(samples[n]).value,
               ExactPremium(samples[n]), Times(n as real, PREMIUM_ERROR), PREMIUM_ERROR);
    }
  }

  lemma AddClose(x: real, y: real, p: real, q: real, error: real, more: real)
    requires Abs(x - y) <= error && Abs(p - q) <= more
    ensures Abs((x + p) - (y + q)) <= error + more
  {
  }

  lemma MeanIsClose(x: real, y: real, n: real, error: real)
    requires n > 0.0 && Abs(x - y) <= Times(n, error)
    ensures Abs(x / n - y / n) <= error
  {
    var d := x / n - y / n;
    assert Times(n, x / n) == x && Times(n, y / n) == y;
    TimesMinus(n, x / n, y / n);
    TimesMinus(n, error, d);
    TimesMinus(n, error, -d);
    assert Times(-d, n) == -Times(d, n);
    SignOfFactor(error - d, n);
    SignOfFactor(error - -d, n);
  }

  /** The hour a rate was computed from: enough samples, none of them without a spot mark. */
  ghost predicate Markable(hourStart: int, samples: seq<MarkSample>) {
    |InHour(samples, hourStart)| >= MIN_SAMPLES && Priced(InHour(samples, hourStart))
  }

  lemma {:induction false} SummableExactlyWhenPriced(samples: seq<MarkSample>)
    ensures PremiumSum(samples).Marked? <==> Priced(samples)
  {
    if samples != [] {
      var n := |samples| - 1;
      SummableExactlyWhenPriced(samples[..n]);
      assert Priced(samples) <==> Priced(samples[..n]) && samples[n].spot != 0.0;
    }
  }

  /** Whether an hour is marked depends on its own samples alone, and its premium is within
      a unit and a forty-eighth of the venue's mean in exact arithmetic. */
  lemma MarkedExactlyWhenMarkable(hourStart: int, samples: seq<MarkSample>, previous: Option<real>)
    ensures var r := Rate(hourStart, samples, previous);
            && (r.Marked? <==> Markable(hourStart, samples))
            && (r.Marked? ==> Abs(r.value.premium - ExactMean(InHour(samples, hourStart))) <= MEAN_ERROR)
  {
    var inHour := InHour(samples, hourStart);
    SummableExactlyWhenPriced(inHour);
    if Markable(hourStart, samples) {
      SumIsClose(inHour);
      MeanIsClose(PremiumSum(inHour).value, ExactSum(inHour), |inHour| as real, PREMIUM_ERROR);
    }
  }

  /** The venue's own premiums for the hours that can be marked, in exact arithmetic. */
  ghost function VenuePremiums(hours: seq<int>, samples: seq<MarkSample>): seq<real> {
    if hours == [] then []
    else
      var n := |hours| - 1;
      if Markable(hours[n], samples) then VenuePremiums(hours[..n], samples) + [ExactMean(InHour(samples, hours[n]))]
      else VenuePremiums(hours[..n], samples)
  }

  const MEAN_ERROR := UNIT * 49.0 / 48.0

  lemma NearSnoc(ps: seq<real>, qs: seq<real>, error: real, p: real, q: real)
    requires Near(ps, qs, error) && Abs(p - q) <= error
    ensures Near(ps + [p], qs + [q], error)
  {
  }

  lemma {:induction false} PremiumsAreClose(hours: seq<int>, samples: seq<MarkSample>, seed: Option<real>)
    ensures Near(Premiums(Series(hours, samples, seed).out), VenuePremiums(hours, samples), MEAN_ERROR)
  {
    if hours != [] {
      var n := |hours| - 1;
      PremiumsAreClose(hours[..n], samples, seed);
      var p := Series(hours[..n], samples, seed);
      var r := Rate(hours[n], samples, p.previous);
      MarkedExactlyWhenMarkable(hours[n], samples, p.previous);
      if r.Marked? {
        assert Premiums(p.out + [r.value]) == Premiums(p.out) + [r.value.premium];
        NearSnoc(Premiums(p.out), VenuePremiums(hours[..n], samples), MEAN_ERROR, r.value.premium,
                 ExactMean(InHour(samples, hours[n])));
      }
    }
  }

  /** Every rate of every series, over any samples and any gaps, is within 27/16 of the last
      place of the venue's formula evaluated exactly. */
  lemma TheSeriesFollowsTheFormula(hours: seq<int>, samples: seq<MarkSample>, seed: Option<real>, k: nat)
    requires k < |Series(hours, samples, seed).out|
    ensures var venue := VenuePremiums(hours, samples);
            && k < |venue|
            && Exact(venue[..k + 1], seed).Some?
            && Abs(Series(hours, samples, seed).out[k].rate - Exact(venue[..k + 1], seed).value) <= UNIT * 27.0 / 16.0
  {
    PremiumsAreClose(hours, samples, seed);
    SeriesIsTheRecursion(hours, samples, seed);
    FollowsNearPremiums(Series(hours, samples, seed).out, VenuePremiums(hours, samples), seed, k);
  }

  lemma FollowsNearPremiums(out: seq<Funding>, venue: seq<real>, seed: Option<real>, k: nat)
    requires EachRateFollows(out, seed) && Near(Premiums(out), venue, MEAN_ERROR) && k < |out|
    ensures k < |venue| && Exact(venue[..k + 1], seed).Some?
    ensures Abs(out[k].rate - Exact(venue[..k + 1], seed).value) <= UNIT * 27.0 / 16.0
  {
    assert ThatRateFollows(out, seed, k);
    NearPrefix(Premiums(out), venue, MEAN_ERROR, k + 1);
    RoundingNeverAccumulates(Premiums(out)[..k + 1], venue[..k + 1], seed, MEAN_ERROR);
  }

  /** Every rate has at most sixteen decimal places, so the stored scale cannot grow. */
  lemma {:induction false} RatesKeepSixteenPlaces(hours: seq<int>, samples: seq<MarkSample>, seed: Option<real>, k: nat)
    requires k < |Series(hours, samples, seed).out|
    ensures OnGrid(Series(hours, samples, seed).out[k].rate)
  {
    SeriesIsTheRecursion(hours, samples, seed);
    assert ThatRateFollows(Series(hours, samples, seed).out, seed, k);
  }
}
