/** One bucket of trades to one row (internal/ingest/trades.go): sums, the largest print, a
    volume-weighted price, and a count of one-sided bursts. */
module Aggregates {
  import opened Options
  import opened Decimals

  const SWEEP_WINDOW: int := 250_000_000

  datatype Aggressor = Unknown | Buy | Sell

  datatype Trade = Trade(id: string, at: int, px: real, sz: real, side: Aggressor)

  datatype Row = Row(end: int, buyVol: real, sellVol: real, tradeCount: nat, maxSingleSz: Option<real>,
                     vwap: Option<real>, sweepCount: nat)

  predicate ByTime(trades: seq<Trade>) {
    forall i, j :: 0 <= i < j < |trades| ==> trades[i].at <= trades[j].at
  }

  /** The i-th print belongs to the burst of the one before it: the same known side, close
      behind. */
  predicate Continues(trades: seq<Trade>, i: int) {
    && 0 < i < |trades|
    && !trades[i].side.Unknown?
    && trades[i - 1].side == trades[i].side
    && trades[i].at - trades[i - 1].at <= SWEEP_WINDOW
  }

  // ---------------------------------------------------------------------------
  // Sums
  // ---------------------------------------------------------------------------

  /** What one pass over a bucket adds up. */
  datatype Totals = Totals(notional: real, volume: real, buy: real, sell: real, largest: real)

  const NOTHING := Totals(0.0, 0.0, 0.0, 0.0, 0.0)

  /** Only a known side is added to a split. */
  function Plus(sum: Totals, t: Trade): Totals {
    Totals(sum.notional + Times(t.px, t.sz),
           sum.volume + t.sz,
           if t.side.Buy? then sum.buy + t.sz else sum.buy,
           if t.side.Sell? then sum.sell + t.sz else sum.sell,
           if t.sz > sum.largest then t.sz else sum.largest)
  }

  function TotalsOf(trades: seq<Trade>): Totals {
    if trades == [] then NOTHING else Plus(TotalsOf(trades[..|trades| - 1]), trades[|trades| - 1])
  }

  /** The row of a bucket whose trades are already in time order. */
  function RowOf(end: int, trades: seq<Trade>): Row {
    if trades == [] then Row(end, 0.0, 0.0, 0, None, None, 0)
    else
      var sum := TotalsOf(trades);
      Row(end, sum.buy, sum.sell, |trades|, Some(sum.largest),
          if sum.volume == 0.0 then None else Some(Div(sum.notional, sum.volume)), |Sweeps(trades)|)
  }

  /** A sort: the same trades, in time order. Trades of one instant may come out either way. */
  ghost predicate Sorts(sort: seq<Trade> -> seq<Trade>) {
    forall trades :: ByTime(sort(trades)) && multiset(sort(trades)) == multiset(trades)
  }

  /** A bucket's row: of its trades in time order, or of a silent minute. */
  function BucketRow(end: int, trades: seq<Trade>, sort: seq<Trade> -> seq<Trade>): Row {
    RowOf(end, if trades == [] then [] else sort(trades))
  }

  method Aggregate(end: int, trades: seq<Trade>, sort: seq<Trade> -> seq<Trade>) returns (row: Row)
    ensures row == BucketRow(end, trades, sort)
  {
    row := Row(end, 0.0, 0.0, 0, None, None, 0);
    if |trades| == 0 {
      return;
    }
    var sorted := sort(trades);
    if |sorted| == 0 {
      return;
    }
    var sum := Add(sorted);
    row := row.(buyVol := sum.buy, sellVol := sum.sell, tradeCount := |sorted|, maxSingleSz := Some(sum.largest));
    if sum.volume != 0.0 {
      row := row.(vwap := Some(Div(sum.notional, sum.volume)));
    }
    var sweeps := CountSweeps(sorted);
    row := row.(sweepCount := sweeps);
  }

  method Add(trades: seq<Trade>) returns (sum: Totals)
    ensures sum == TotalsOf(trades)
  {
    var notional, volume, buy, sell, largest := 0.0, 0.0, 0.0, 0.0, 0.0;
    for i := 0 to |trades|
      invariant Totals(notional, volume, buy, sell, largest) == TotalsOf(trades[..i])
    {
      assert trades[..i + 1][..i] == trades[..i];
      var t := trades[i];
      notional := notional + Times(t.px, t.sz);
      volume := volume + t.sz;
      if t.sz > largest {
        largest := t.sz;
      }
      match t.side {
        case Buy => buy := buy + t.sz;
        case Sell => sell := sell + t.sz;
        case Unknown =>
      }
    }
    assert trades[..|trades|] == trades;
    sum := Totals(notional, volume, buy, sell, largest);
  }

  // ---------------------------------------------------------------------------
  // What the sums mean
  // ---------------------------------------------------------------------------

  lemma PlusCommutes(sum: Totals, a: Trade, b: Trade)
    ensures Plus(Plus(sum, a), b) == Plus(Plus(sum, b), a)
  {
  }

  lemma {:induction false} AnyTradeLast(trades: seq<Trade>, k: nat)
    requires k < |trades|
    ensures TotalsOf(trades) == Plus(TotalsOf(trades[..k] + trades[k + 1..]), trades[k])
  {
    var n := |trades| - 1;
    if k == n {
      assert trades[..k] + trades[k + 1..] == trades[..n];
    } else {
      AnyTradeLast(trades[..n], k);
      var rest := trades[..n][..k] + trades[..n][k + 1..];
      assert (trades[..k] + trades[k + 1..])[..n - 1] == rest;
      PlusCommutes(TotalsOf(rest), trades[k], trades[n]);
    }
  }

  lemma Cancel(a: multiset<Trade>, b: multiset<Trade>, t: Trade)
    requires a + multiset{t} == b + multiset{t}
    ensures a == b
  {
    assert a == a + multiset{t} - multiset{t};
    assert b == b + multiset{t} - multiset{t};
  }

  lemma Without(xs: seq<Trade>, k: nat)
    requires k < |xs|
    ensures multiset(xs) == multiset(xs[..k] + xs[k + 1..]) + multiset{xs[k]}
  {
    assert xs == xs[..k] + [xs[k]] + xs[k + 1..];
  }

  /** Two orders of the same trades agree on the rest once one trade is taken from each. */
  lemma TakeOneFromEach(xs: seq<Trade>, ys: seq<Trade>, j: nat, k: nat)
    requires multiset(xs) == multiset(ys) && j < |xs| && k < |ys| && xs[j] == ys[k]
    ensures multiset(xs[..j] + xs[j + 1..]) == multiset(ys[..k] + ys[k + 1..])
  {
    Without(xs, j);
    Without(ys, k);
    Cancel(multiset(xs[..j] + xs[j + 1..]), multiset(ys[..k] + ys[k + 1..]), xs[j]);
  }

  lemma ButTheLast(xs: seq<Trade>)
    requires xs != []
    ensures xs[..|xs| - 1] + xs[|xs|..] == xs[..|xs| - 1]
  {
  }

  lemma IsSomewhere(xs: seq<Trade>, ys: seq<Trade>, j: nat) returns (k: nat)
    requires multiset(xs) == multiset(ys) && j < |xs|
    ensures k < |ys| && ys[k] == xs[j]
  {
    assert xs[j] in multiset(ys);
    k :| 0 <= k < |ys| && ys[k] == xs[j];
  }

  /** The order trades are added in changes no sum. */
  lemma {:induction false} OrderChangesNoSum(xs: seq<Trade>, ys: seq<Trade>)
    requires multiset(xs) == multiset(ys)
    ensures |xs| == |ys| && TotalsOf(xs) == TotalsOf(ys)
    decreases |xs|
  {
    SameSize(xs, ys);
    if xs != [] {
      var k := IsSomewhere(xs, ys, |xs| - 1);
      TakeOneFromEach(xs, ys, |xs| - 1, k);
      ButTheLast(xs);
      OrderChangesNoSum(xs[..|xs| - 1], ys[..k] + ys[k + 1..]);
      AnyTradeLast(ys, k);
    }
  }

  lemma SameSize(xs: seq<Trade>, ys: seq<Trade>)
    requires multiset(xs) == multiset(ys)
    ensures |xs| == |ys|
  {
    assert |multiset(xs)| == |xs| && |multiset(ys)| == |ys|;
  }

  /** A row adds up exactly the trades its bucket held, each once, however they were sorted. */
  lemma ARowSumsItsTrades(end: int, trades: seq<Trade>, sort: seq<Trade> -> seq<Trade>)
    requires Sorts(sort)
    ensures var row, sum := BucketRow(end, trades, sort), TotalsOf(trades);
            && row.end == end && row.tradeCount == |trades|
            && row.buyVol == sum.buy && row.sellVol == sum.sell
            && (trades != [] ==> row.maxSingleSz == Some(sum.largest))
            && row.vwap == (if trades != [] && sum.volume != 0.0 then Some(Div(sum.notional, sum.volume)) else None)
  {
    if trades != [] {
      assert multiset(sort(trades)) == multiset(trades);
      OrderChangesNoSum(sort(trades), trades);
    }
  }

  /** Two orders of the same trades give rows that differ in the sweep count alone. */
  lemma OnlySweepsDiffer(end: int, xs: seq<Trade>, ys: seq<Trade>)
    requires multiset(xs) == multiset(ys)
    ensures RowOf(end, xs).(sweepCount := 0) == RowOf(end, ys).(sweepCount := 0)
  {
    OrderChangesNoSum(xs, ys);
  }

  predicate Positive(trades: seq<Trade>) {
    forall i :: 0 <= i < |trades| ==> trades[i].sz > 0.0
  }

  predicate SidesKnown(trades: seq<Trade>) {
    forall i :: 0 <= i < |trades| ==> !trades[i].side.Unknown?
  }

  /** The split is the whole volume exactly when no print's side is unknown; the largest print
      is one of them and none is larger. */
  lemma {:induction false} WhatTheSumsAre(trades: seq<Trade>)
    requires Positive(trades) && trades != []
    ensures var sum := TotalsOf(trades);
            && sum.volume > 0.0
            && 0.0 <= sum.buy + sum.sell <= sum.volume
            && (sum.buy + sum.sell == sum.volume <==> SidesKnown(trades))
            && (forall i :: 0 <= i < |trades| ==> trades[i].sz <= sum.largest)
            && (exists i :: 0 <= i < |trades| && trades[i].sz == sum.largest)
  {
    var n := |trades| - 1;
    if n == 0 {
      assert trades[..0] == [];
      assert trades[0].sz == TotalsOf(trades).largest;
    } else {
      WhatTheSumsAre(trades[..n]);
      var sum := TotalsOf(trades[..n]);
      assert SidesKnown(trades) <==> SidesKnown(trades[..n]) && !trades[n].side.Unknown?;
      var i :| 0 <= i < n && trades[..n][i].sz == sum.largest;
      assert trades[i].sz == sum.largest;
      assert trades[n].sz > sum.largest ==> trades[n].sz == TotalsOf(trades).largest;
    }
  }

  /** A bucket's price lies among the prices printed in it. */
  lemma {:induction false} NotionalBetween(trades: seq<Trade>, low: real, high: real)
    requires Positive(trades) && forall i :: 0 <= i < |trades| ==> low <= trades[i].px <= high
    ensures Times(low, TotalsOf(trades).volume) <= TotalsOf(trades).notional <= Times(high, TotalsOf(trades).volume)
  {
    if trades != [] {
      var n := |trades| - 1;
      NotionalBetween(trades[..n], low, high);
      TimesBetween(low, trades[n].px, high, trades[n].sz);
      TimesSum(low, TotalsOf(trades[..n]).volume, trades[n].sz);
      TimesSum(high, TotalsOf(trades[..n]).volume, trades[n].sz);
    }
  }

  lemma TimesBetween(low: real, x: real, high: real, y: real)
    requires low <= x <= high && y > 0.0
    ensures Times(low, y) <= Times(x, y) <= Times(high, y)
  {
    assert Times(x - low, y) >= 0.0 && Times(high - x, y) >= 0.0;
    assert Times(x - low, y) == Times(x, y) - Times(low, y) && Times(high - x, y) == Times(high, y) - Times(x, y);
  }

  lemma TimesSum(x: real, y: real, z: real)
    ensures Times(x, y + z) == Times(x, y) + Times(x, z)
  {
  }

  /** A row's price lies between the lowest and the highest print, each rounded. */
  lemma ThePriceIsAmongThePrints(end: int, trades: seq<Trade>, low: real, high: real)
    requires Positive(trades) && trades != [] && forall i :: 0 <= i < |trades| ==> low <= trades[i].px <= high
    ensures RowOf(end, trades).vwap.Some? && Round16(low) <= RowOf(end, trades).vwap.value <= Round16(high)
  {
    WhatTheSumsAre(trades);
    NotionalBetween(trades, low, high);
    var sum := TotalsOf(trades);
    QuotientBetween(low, sum.notional, high, sum.volume);
    RoundMonotone(low, sum.notional / sum.volume);
    RoundMonotone(sum.notional / sum.volume, high);
  }

  // ---------------------------------------------------------------------------
  // Bursts
  // ---------------------------------------------------------------------------

  /** The prints from i up to but not including j follow on from one another. */
  predicate Together(trades: seq<Trade>, i: int, j: int) {
    0 <= i < j <= |trades| && forall k :: i < k < j ==> Continues(trades, k)
  }

  /** They are a burst nothing before or after belongs to. */
  predicate Maximal(trades: seq<Trade>, i: int, j: int) {
    Together(trades, i, j) && !Continues(trades, i) && !Continues(trades, j)
  }

  /** The sweeps: the maximal bursts of two prints or more. */
  function Sweeps(trades: seq<Trade>): set<(int, int)> {
    set i, j | 0 <= i <= |trades| && 0 <= j <= |trades| && i + 2 <= j && Maximal(trades, i, j) :: (i, j)
  }

  /** One pass with a run length counts the maximal bursts. */
  method CountSweeps(trades: seq<Trade>) returns (sweeps: nat)
    ensures sweeps == |Sweeps(trades)|
  {
    sweeps := 0;
    var run := 0;
    for i := 0 to |trades|
      invariant sweeps == |Sweeps(trades[..i])|
      invariant 0 <= run <= i && (i > 0 ==> run > 0 && Trailing(trades, i, i - run))
    {
      NextPrint(trades, i, run);
      var continues := i > 0 && trades[i].side != Unknown && trades[i - 1].side == trades[i].side &&
                       trades[i].at - trades[i - 1].at <= SWEEP_WINDOW;
      if !continues {
        run := 1;
        continue;
      }
      run := run + 1;
      if run == 2 {
        sweeps := sweeps + 1;
      }
    }
    assert trades[..|trades|] == trades;
  }

  lemma PrefixContinues(trades: seq<Trade>, n: int, i: int)
    requires 0 <= n <= |trades|
    ensures Continues(trades[..n], i) <==> i < n && Continues(trades, i)
  {
  }

  lemma PrefixTogether(trades: seq<Trade>, n: int, i: int, j: int)
    requires 0 <= n <= |trades|
    ensures Together(trades[..n], i, j) <==> j <= n && Together(trades, i, j)
  {
    forall k
      ensures Continues(trades[..n], k) <==> k < n && Continues(trades, k)
    {
      PrefixContinues(trades, n, k);
    }
  }

  /** A burst of two or more, nothing before it, and nothing after it among the first n. */
  predicate SweepBy(trades: seq<Trade>, n: int, i: int, j: int) {
    && i + 2 <= j <= n
    && Together(trades, i, j)
    && !Continues(trades, i)
    && (j == n || !Continues(trades, j))
  }

  lemma SweepOfPrefix(trades: seq<Trade>, n: int, i: int, j: int)
    requires 0 <= n <= |trades|
    ensures (i, j) in Sweeps(trades[..n]) <==> SweepBy(trades, n, i, j)
  {
    PrefixTogether(trades, n, i, j);
    PrefixContinues(trades, n, i);
    PrefixContinues(trades, n, j);
  }

  /** The prints from i up to n, when nothing has broken the last burst. */
  predicate Trailing(trades: seq<Trade>, n: int, i: int) {
    Together(trades, i, n) && !Continues(trades, i)
  }

  lemma OneTrailing(trades: seq<Trade>, n: int, i: int, j: int)
    requires Trailing(trades, n, i) && Trailing(trades, n, j)
    ensures i == j
  {
    assert i < j ==> Continues(trades, j);
    assert j < i ==> Continues(trades, i);
  }

  lemma BrokenOff(trades: seq<Trade>, n: nat)
    requires n < |trades| && !Continues(trades, n)
    ensures Sweeps(trades[..n + 1]) == Sweeps(trades[..n])
  {
    forall i, j
      ensures (i, j) in Sweeps(trades[..n + 1]) <==> (i, j) in Sweeps(trades[..n])
    {
      SweepOfPrefix(trades, n, i, j);
      SweepOfPrefix(trades, n + 1, i, j);
    }
  }

  /** A print that follows on makes a burst of the one before it, or lengthens its burst. */
  lemma FollowsOn(trades: seq<Trade>, n: nat, first: nat)
    requires n < |trades| && Continues(trades, n) && first < n && Trailing(trades, n, first)
    ensures Trailing(trades, n + 1, first)
    ensures Sweeps(trades[..n + 1]) == Sweeps(trades[..n]) - {(first, n)} + {(first, n + 1)}
    ensures (first, n + 1) !in Sweeps(trades[..n]) && ((first, n) in Sweeps(trades[..n]) <==> first + 2 <= n)
  {
    forall i, j
      ensures (i, j) in Sweeps(trades[..n + 1]) <==> (i, j) in Sweeps(trades[..n]) - {(first, n)} + {(first, n + 1)}
    {
      SweepOfPrefix(trades, n, i, j);
      SweepOfPrefix(trades, n + 1, i, j);
      if j == n + 1 && Trailing(trades, n + 1, i) {
        OneTrailing(trades, n + 1, i, first);
      } else if j == n && Trailing(trades, n, i) {
        OneTrailing(trades, n, i, first);
      }
    }
    SweepOfPrefix(trades, n, first, n + 1);
    SweepOfPrefix(trades, n, first, n);
  }

  /** What one more print does to the count and to the burst that has not yet been broken. */
  lemma NextPrint(trades: seq<Trade>, i: nat, run: nat)
    requires i < |trades| && run <= i
    requires i > 0 ==> run > 0 && Trailing(trades, i, i - run)
    ensures Trailing(trades, i + 1, if Continues(trades, i) then i - run else i)
    ensures |Sweeps(trades[..i + 1])| == |Sweeps(trades[..i])| + if Continues(trades, i) && run == 1 then 1 else 0
  {
    if Continues(trades, i) {
      FollowsOn(trades, i, i - run);
    } else {
      BrokenOff(trades, i);
    }
  }
}
