/** Trades of one instant (internal/ingest/trades.go): a bucket is sorted by time alone, so the
    order of its ties is left to the sort. When it matters to the row, exactly. */
module Ties {
  import opened Aggregates

  // ---------------------------------------------------------------------------
  // Ties that agree
  // ---------------------------------------------------------------------------

  /** Prints of one instant are of one side. */
  predicate TiesAgree(trades: seq<Trade>) {
    forall i, j :: 0 <= i < j < |trades| && trades[i].at == trades[j].at ==> trades[i].side == trades[j].side
  }

  predicate SameBeat(t: Trade, u: Trade) {
    t.at == u.at && t.side == u.side
  }

  /** The same instants and sides, place for place: all that a count of sweeps reads. */
  predicate SameRhythm(xs: seq<Trade>, ys: seq<Trade>) {
    |xs| == |ys| && forall i :: 0 <= i < |xs| ==> SameBeat(xs[i], ys[i])
  }

  lemma RhythmIsAll(xs: seq<Trade>, ys: seq<Trade>)
    requires SameRhythm(xs, ys)
    ensures Sweeps(xs) == Sweeps(ys)
  {
    forall k
      ensures Continues(xs, k) <==> Continues(ys, k)
    {
      if 0 < k < |xs| {
        assert SameBeat(xs[k - 1], ys[k - 1]) && SameBeat(xs[k], ys[k]);
      }
    }
    forall i, j
      ensures (i, j) in Sweeps(xs) <==> (i, j) in Sweeps(ys)
    {
      assert Maximal(xs, i, j) <==> Maximal(ys, i, j);
    }
  }

  lemma TheyStillAgree(xs: seq<Trade>, ys: seq<Trade>)
    requires multiset(xs) == multiset(ys) && TiesAgree(xs)
    ensures TiesAgree(ys)
  {
    forall i: nat, j: nat | i < j < |ys| && ys[i].at == ys[j].at
      ensures ys[i].side == ys[j].side
    {
      var p := IsSomewhere(ys, xs, i);
      var q := IsSomewhere(ys, xs, j);
      assert p < q || q < p || p == q;
    }
  }

  lemma StillByTime(trades: seq<Trade>, k: nat)
    requires k < |trades| && ByTime(trades)
    ensures ByTime(trades[..k] + trades[k + 1..])
  {
  }

  /** Where the last trade of one order stands in the other, everything from there on is of its
      instant, and so of its side. */
  lemma TheRestIsTied(xs: seq<Trade>, ys: seq<Trade>, k: nat, j: nat)
    requires multiset(xs) == multiset(ys) && ByTime(xs) && ByTime(ys) && TiesAgree(ys)
    requires xs != [] && k <= j < |ys| && ys[k] == xs[|xs| - 1]
    ensures SameBeat(ys[j], ys[k])
  {
    var i := IsSomewhere(ys, xs, j);
    assert xs[i].at <= xs[|xs| - 1].at && ys[k].at <= ys[j].at;
  }

  /** All orders by time of trades whose ties agree have one rhythm. */
  lemma {:induction false} OneRhythm(xs: seq<Trade>, ys: seq<Trade>)
    requires multiset(xs) == multiset(ys) && ByTime(xs) && ByTime(ys) && TiesAgree(xs)
    ensures SameRhythm(xs, ys)
    decreases |xs|
  {
    SameSize(xs, ys);
    TheyStillAgree(xs, ys);
    if xs != [] {
      var n := |xs| - 1;
      var k := IsSomewhere(xs, ys, n);
      var others := ys[..k] + ys[k + 1..];
      TakeOneFromEach(xs, ys, n, k);
      ButTheLast(xs);
      StillByTime(ys, k);
      OneRhythm(xs[..n], others);
      forall j | 0 <= j <= n
        ensures SameBeat(xs[j], ys[j])
      {
        OneBeat(xs, ys, k, j);
      }
    }
  }

  lemma OneBeat(xs: seq<Trade>, ys: seq<Trade>, k: nat, j: nat)
    requires multiset(xs) == multiset(ys) && |xs| == |ys| && ByTime(xs) && ByTime(ys) && TiesAgree(ys)
    requires k < |ys| && j < |xs| && ys[k] == xs[|xs| - 1]
    requires SameRhythm(xs[..|xs| - 1], ys[..k] + ys[k + 1..])
    ensures SameBeat(xs[j], ys[j])
  {
    var others := ys[..k] + ys[k + 1..];
    if j == |xs| - 1 {
      TheRestIsTied(xs, ys, k, j);
    } else {
      assert SameBeat(xs[..|xs| - 1][j], others[j]);
      if k <= j {
        TheRestIsTied(xs, ys, k, j);
        TheRestIsTied(xs, ys, k, j + 1);
      }
    }
  }

  /** Two sorts of one bucket can differ only in the sweep count, and do not when prints of one
      instant are of one side. */
  lemma TheSortChangesOnlySweeps(end: int, trades: seq<Trade>, sort: seq<Trade> -> seq<Trade>,
                                 other: seq<Trade> -> seq<Trade>)
    requires Sorts(sort) && Sorts(other)
    ensures BucketRow(end, trades, sort).(sweepCount := 0) == BucketRow(end, trades, other).(sweepCount := 0)
    ensures TiesAgree(trades) ==> BucketRow(end, trades, sort) == BucketRow(end, trades, other)
  {
    if trades != [] {
      var xs, ys := sort(trades), other(trades);
      assert multiset(xs) == multiset(trades) == multiset(ys);
      OnlySweepsDiffer(end, xs, ys);
      if TiesAgree(trades) {
        TheyStillAgree(trades, xs);
        OneRhythm(xs, ys);
        RhythmIsAll(xs, ys);
      }
    }
  }

  // ---------------------------------------------------------------------------
  // Ties that do not
  // ---------------------------------------------------------------------------

  predicate OneInstant(group: seq<Trade>) {
    forall i :: 0 <= i < |group| ==> group[i].at == group[0].at
  }

  predicate OneSided(group: seq<Trade>) {
    forall i, j :: 0 <= i < |group| && 0 <= j < |group| ==> group[i].side == group[j].side
  }

  /** Wherever the group stands among other trades, its own order changes no sweep count. */
  ghost predicate OrderFree(group: seq<Trade>) {
    forall before: seq<Trade>, after: seq<Trade>, other: seq<Trade> ::
      multiset(other) == multiset(group) && ByTime(before + group + after) ==> SameCount(before, group, other, after)
  }

  ghost predicate SameCount(before: seq<Trade>, group: seq<Trade>, other: seq<Trade>, after: seq<Trade>) {
    |Sweeps(before + group + after)| == |Sweeps(before + other + after)|
  }

  lemma OneSideIsFree(group: seq<Trade>)
    requires OneInstant(group) && OneSided(group)
    ensures OrderFree(group)
  {
    forall before: seq<Trade>, after: seq<Trade>, other: seq<Trade> | multiset(other) == multiset(group)
      ensures SameCount(before, group, other, after)
    {
      SameSize(other, group);
      forall i: nat | i < |other|
        ensures SameBeat(group[i], other[i])
      {
        var k := IsSomewhere(other, group, i);
      }
      RhythmIsAll(before + group + after, before + other + after);
    }
  }

  /** How long the burst is that a sequence ends in. */
  predicate EndsInARun(trades: seq<Trade>, run: nat) {
    if trades == [] then run == 0 else 0 < run <= |trades| && Trailing(trades, |trades|, |trades| - run)
  }

  /** One more print belongs to the burst of the last. */
  predicate Joins(trades: seq<Trade>, t: Trade) {
    && trades != [] && !t.side.Unknown?
    && trades[|trades| - 1].side == t.side && t.at - trades[|trades| - 1].at <= SWEEP_WINDOW
  }

  lemma OneMorePrint(trades: seq<Trade>, t: Trade, run: nat)
    requires EndsInARun(trades, run)
    ensures EndsInARun(trades + [t], if Joins(trades, t) then run + 1 else 1)
    ensures |Sweeps(trades + [t])| == |Sweeps(trades)| + if Joins(trades, t) && run == 1 then 1 else 0
  {
    var n, more := |trades|, trades + [t];
    assert more[..n] == trades && more[..n + 1] == more;
    assert Continues(more, n) <==> Joins(trades, t);
    if trades != [] {
      PrefixTogether(more, n, n - run, n);
      PrefixContinues(more, n, n - run);
    }
    NextPrint(more, n, run);
  }

  lemma {:induction false} ThereIsARun(trades: seq<Trade>) returns (run: nat)
    ensures EndsInARun(trades, run)
  {
    if trades == [] {
      run := 0;
    } else {
      var n := |trades| - 1;
      var r := ThereIsARun(trades[..n]);
      OneMorePrint(trades[..n], trades[n], r);
      assert trades[..n] + [trades[n]] == trades;
      run := if Joins(trades[..n], trades[n]) then r + 1 else 1;
    }
  }

  /** Two prints of one instant and different sides, after anything: what either order counts,
      and what it counts once the first comes again. */
  lemma TwoWays(rest: seq<Trade>, a: Trade, b: Trade)
    requires a.at == b.at && a.side != b.side && !a.side.Unknown?
    ensures |Sweeps(rest + [a] + [b])| != |Sweeps(rest + [b] + [a])|
         || |Sweeps(rest + [a] + [b] + [a])| != |Sweeps(rest + [b] + [a] + [a])|
  {
    var run := ThereIsARun(rest);
    OneMorePrint(rest, a, run);
    OneMorePrint(rest, b, run);
    OneMorePrint(rest + [a], b, if Joins(rest, a) then run + 1 else 1);
    OneMorePrint(rest + [b], a, if Joins(rest, b) then run + 1 else 1);
    OneMorePrint(rest + [a] + [b], a, 1);
    OneMorePrint(rest + [b] + [a], a, 1);
  }

  lemma Snoc(trades: seq<Trade>, t: Trade)
    ensures multiset(trades + [t]) == multiset(trades) + multiset{t}
  {
  }

  /** Any two of a group can come last, either way round. */
  lemma Apart(group: seq<Trade>, i: nat, j: nat) returns (rest: seq<Trade>)
    requires i < j < |group|
    ensures multiset(rest + [group[i]] + [group[j]]) == multiset(group)
    ensures multiset(rest + [group[j]] + [group[i]]) == multiset(group)
  {
    var butJ := group[..j] + group[j + 1..];
    rest := butJ[..i] + butJ[i + 1..];
    Without(group, j);
    Without(butJ, i);
    Snoc(rest, group[i]);
    Snoc(rest + [group[i]], group[j]);
    Snoc(rest, group[j]);
    Snoc(rest + [group[j]], group[i]);
  }

  lemma FreeAlone(group: seq<Trade>, other: seq<Trade>)
    requires OrderFree(group) && OneInstant(group) && multiset(other) == multiset(group)
    ensures |Sweeps(other)| == |Sweeps(group)|
  {
    assert [] + group + [] == group && [] + other + [] == other;
    assert SameCount([], group, other, []);
  }

  lemma FreeThen(group: seq<Trade>, other: seq<Trade>, t: Trade)
    requires OrderFree(group) && OneInstant(group) && multiset(other) == multiset(group)
    requires group != [] && t.at == group[0].at
    ensures |Sweeps(other + [t])| == |Sweeps(group + [t])|
  {
    assert [] + group + [t] == group + [t] && [] + other + [t] == other + [t];
    assert SameCount([], group, other, [t]);
  }

  lemma NotFree(group: seq<Trade>, rest: seq<Trade>, a: Trade, b: Trade)
    requires OneInstant(group) && group != [] && a.at == b.at == group[0].at
    requires a.side != b.side && !a.side.Unknown?
    requires multiset(rest + [a] + [b]) == multiset(group) == multiset(rest + [b] + [a])
    ensures !OrderFree(group)
  {
    TwoWays(rest, a, b);
    if OrderFree(group) {
      FreeAlone(group, rest + [a] + [b]);
      FreeAlone(group, rest + [b] + [a]);
      FreeThen(group, rest + [a] + [b], a);
      FreeThen(group, rest + [b] + [a], a);
    }
  }

  lemma TwoSidesAreNot(group: seq<Trade>)
    requires OneInstant(group) && !OneSided(group)
    ensures !OrderFree(group)
  {
    var p: nat, q: nat :| p < |group| && q < |group| && group[p].side != group[q].side;
    var i, j := if p < q then p else q, if p < q then q else p;
    var rest := Apart(group, i, j);
    if group[i].side.Unknown? {
      NotFree(group, rest, group[j], group[i]);
    } else {
      NotFree(group, rest, group[i], group[j]);
    }
  }

  /** A group of prints of one instant can be left in any order, whatever it stands among,
      exactly when they are of one side. */
  lemma ATiedGroupIsOrderFreeExactlyWhenOneSided(group: seq<Trade>)
    requires OneInstant(group)
    ensures OrderFree(group) <==> OneSided(group)
  {
    if OneSided(group) {
      OneSideIsFree(group);
    } else {
      TwoSidesAreNot(group);
    }
  }

  function ThreeAt(at: int, x: Aggressor, y: Aggressor, z: Aggressor): seq<Trade> {
    [Trade("a", at, 1.0, 1.0, x), Trade("b", at, 1.0, 1.0, y), Trade("c", at, 1.0, 1.0, z)]
  }

  /** The sweep count does depend on how a sort breaks ties: two buys and a sell of one instant
      are a sweep with the buys side by side, and none with the sell between them. */
  lemma ATieDecidesASweep(at: int)
    ensures var together := ThreeAt(at, Buy, Buy, Sell);
            var apart := [together[0], together[2], together[1]];
            && multiset(together) == multiset(apart) && ByTime(together) && ByTime(apart)
            && |Sweeps(together)| == 1 && |Sweeps(apart)| == 0
  {
    var together := ThreeAt(at, Buy, Buy, Sell);
    var apart := [together[0], together[2], together[1]];
    assert Continues(together, 1) && !Continues(together, 2) && !Continues(apart, 1) && !Continues(apart, 2);
    forall i, j
      ensures (i, j) in Sweeps(together) <==> (i, j) in {(0, 2)}
    {
      assert Together(together, i, j) && i + 2 <= j ==> Continues(together, i + 1);
      assert Together(together, i, j) && j == 3 ==> i == 2 || Continues(together, 2);
    }
    assert Sweeps(together) == {(0, 2)};
    forall i, j
      ensures (i, j) !in Sweeps(apart)
    {
      assert Together(apart, i, j) && i + 2 <= j ==> Continues(apart, i + 1);
    }
    assert Sweeps(apart) == {};
  }
}
