/** When leaving prints of unknown side out of a mark is harmless (internal/ingest/marks.go):
    a condition on sizes and sides alone. */
module UnknownSides {
  import opened Decimals
  import opened Aggregates
  import opened MarkSampling

  // ---------------------------------------------------------------------------
  // The same prints at other prices
  // ---------------------------------------------------------------------------

  predicate OnlyRepriced(t: Trade, u: Trade) {
    u == t.(px := u.px)
  }

  predicate SameButPrices(trades: seq<Trade>, others: seq<Trade>) {
    |trades| == |others| && forall i :: 0 <= i < |trades| ==> OnlyRepriced(trades[i], others[i])
  }

  predicate SameMinute(m: Minute, other: Minute) {
    m.end == other.end && SameButPrices(m.trades, other.trades)
  }

  /** Minutes of the same prints, sizes and sides, at whatever prices. */
  predicate Repriced(minutes: seq<Minute>, others: seq<Minute>) {
    |minutes| == |others| && forall i :: 0 <= i < |minutes| ==> SameMinute(minutes[i], others[i])
  }

  predicate Printed(m: Minute) {
    forall i :: 0 <= i < |m.trades| ==> m.trades[i].px > 0.0
  }

  predicate AllPriced(minutes: seq<Minute>) {
    forall i :: 0 <= i < |minutes| ==> Printed(minutes[i])
  }

  lemma {:induction false} PricesChangeNoSize(trades: seq<Trade>, others: seq<Trade>)
    requires SameButPrices(trades, others)
    ensures TotalsOf(others) == TotalsOf(trades).(notional := TotalsOf(others).notional)
  {
    if trades != [] {
      var n := |trades| - 1;
      PricesChangeNoSize(trades[..n], others[..n]);
      assert OnlyRepriced(trades[n], others[n]);
    }
  }

  lemma SameSizes(m: Minute, other: Minute)
    requires SameMinute(m, other)
    ensures UnknownSize(other) == UnknownSize(m) && TotalsOf(other.trades).volume == TotalsOf(m.trades).volume
    ensures Positive(m.trades) ==> Positive(other.trades)
  {
    PricesChangeNoSize(m.trades, other.trades);
    assert forall i :: 0 <= i < |m.trades| ==> OnlyRepriced(m.trades[i], other.trades[i]);
  }

  lemma SizesStayPositive(minutes: seq<Minute>, others: seq<Minute>)
    requires Repriced(minutes, others) && AllPositive(minutes)
    ensures AllPositive(others)
  {
    forall i | 0 <= i < |others|
      ensures Positive(others[i].trades)
    {
      assert SameMinute(minutes[i], others[i]);
      SameSizes(minutes[i], others[i]);
    }
  }

  // ---------------------------------------------------------------------------
  // Shares of known side
  // ---------------------------------------------------------------------------

  /** The part of a minute's volume whose side is known. */
  function KnownShare(m: Minute): real {
    var sum := TotalsOf(m.trades);
    if sum.volume == 0.0 then 1.0 else (sum.buy + sum.sell) / sum.volume
  }

  predicate Shares(minutes: seq<Minute>, start: int, end: int, share: real) {
    forall i :: 0 <= i < |minutes| && InWindow(minutes[i], start, end) ==> KnownShare(minutes[i]) == share
  }

  /** Every minute traded in the window has the same share of known side. */
  predicate EvenlyKnown(minutes: seq<Minute>, start: int, end: int) {
    forall i, j :: 0 <= i < |minutes| && 0 <= j < |minutes|
                && InWindow(minutes[i], start, end) && InWindow(minutes[j], start, end)
               ==> KnownShare(minutes[i]) == KnownShare(minutes[j])
  }

  /** A mark, and within a unit of what every trade of the window together averaged. */
  ghost predicate MarksEveryTrade(minutes: seq<Minute>, start: int, end: int) {
    var mark := VwapOver(MarksOf(minutes), start, end);
    && mark.Some?
    && TotalsOf(TradesIn(minutes, start, end)).volume != 0.0
    && Abs(mark.value - ExactPrice(TradesIn(minutes, start, end))) <= UNIT
  }

  ghost predicate AtAnyPrices(minutes: seq<Minute>, start: int, end: int) {
    forall others :: Repriced(minutes, others) && AllPriced(others) ==> MarksEveryTrade(others, start, end)
  }

  // ---------------------------------------------------------------------------
  // Equal shares are harmless
  // ---------------------------------------------------------------------------

  lemma ShareOfVolume(m: Minute)
    requires Positive(m.trades) && m.trades != []
    ensures UnknownSize(m) == Times(1.0 - KnownShare(m), TotalsOf(m.trades).volume)
    ensures UnknownWorth(m) == Times(1.0 - KnownShare(m), TotalsOf(m.trades).notional)
  {
    WhatTheSumsAre(m.trades);
    var sum := TotalsOf(m.trades);
    PartOf(sum.volume, sum.buy + sum.sell);
    PartAtThePrice(sum.volume, UnknownSize(m), sum.notional, 1.0 - KnownShare(m));
  }

  lemma PartOf(volume: real, known: real)
    requires volume > 0.0
    ensures volume - known == Times(1.0 - known / volume, volume)
  {
    var share := known / volume;
    assert Times(share, volume) == known;
    TimesMinus(volume, 1.0, share);
    assert Times(1.0, volume) == volume;
  }

  lemma PartAtThePrice(volume: real, unknown: real, notional: real, part: real)
    requires volume > 0.0 && unknown == Times(part, volume)
    ensures Times(notional / volume, unknown) == Times(part, notional)
  {
    var price := notional / volume;
    assert Times(price, volume) == notional;
    Regroup(price, part, volume);
  }

  lemma Regroup(x: real, y: real, z: real)
    ensures Times(x, Times(y, z)) == Times(y, Times(x, z))
  {
  }

  lemma UnknownSkips(minutes: seq<Minute>, m: Minute, start: int, end: int)
    requires !InWindow(m, start, end)
    ensures TradesIn(minutes + [m], start, end) == TradesIn(minutes, start, end)
    ensures UnknownVolume(minutes + [m], start, end) == UnknownVolume(minutes, start, end)
    ensures UnknownNotional(minutes + [m], start, end) == UnknownNotional(minutes, start, end)
  {
    assert (minutes + [m])[..|minutes|] == minutes;
  }

  /** The share of the window's volume and of its notional that is of unknown side. */
  ghost predicate UnknownIs(minutes: seq<Minute>, start: int, end: int, part: real) {
    var sum := TotalsOf(TradesIn(minutes, start, end));
    && UnknownVolume(minutes, start, end) == Times(part, sum.volume)
    && UnknownNotional(minutes, start, end) == Times(part, sum.notional)
  }

  lemma OneMoreShare(before: seq<Minute>, m: Minute, start: int, end: int, part: real)
    requires UnknownIs(before, start, end, part) && InWindow(m, start, end)
    requires UnknownSize(m) == Times(part, TotalsOf(m.trades).volume)
    requires UnknownWorth(m) == Times(part, TotalsOf(m.trades).notional)
    ensures UnknownIs(before + [m], start, end, part)
  {
    UnknownNext(before, m, start, end);
    TotalsAppend(TradesIn(before, start, end), m.trades);
    TimesSum(part, TotalsOf(TradesIn(before, start, end)).volume, TotalsOf(m.trades).volume);
    TimesSum(part, TotalsOf(TradesIn(before, start, end)).notional, TotalsOf(m.trades).notional);
  }

  /** When the shares are one, so is the share of the window's volume and of its notional. */
  lemma {:induction false} SharesAddUp(minutes: seq<Minute>, start: int, end: int, share: real)
    requires AllPositive(minutes) && Shares(minutes, start, end, share)
    ensures UnknownIs(minutes, start, end, 1.0 - share)
  {
    if minutes == [] {
      assert Times(1.0 - share, 0.0) == 0.0;
    } else {
      var n := |minutes| - 1;
      SharesAddUp(minutes[..n], start, end, share);
      assert minutes[..n] + [minutes[n]] == minutes;
      if InWindow(minutes[n], start, end) {
        ShareOfVolume(minutes[n]);
        OneMoreShare(minutes[..n], minutes[n], start, end, 1.0 - share);
      } else {
        UnknownSkips(minutes[..n], minutes[n], start, end);
      }
    }
  }

  lemma RatioOfShares(share: real, notional: real, volume: real)
    requires volume > 0.0 && volume - Times(1.0 - share, volume) > 0.0
    ensures (notional - Times(1.0 - share, notional)) / (volume - Times(1.0 - share, volume)) == notional / volume
  {
    var q, known := notional / volume, volume - Times(1.0 - share, volume);
    assert Times(q, volume) == notional;
    assert known == Times(share, volume) && notional - Times(1.0 - share, notional) == Times(share, notional);
    Regroup(q, share, volume);
    assert Times(q, known) == Times(share, notional);
    assert Times(q, known) / known == q;
  }

  /** A mark left with one share of every minute is within a unit of every trade's price. */
  lemma EqualSharesAreHarmless(minutes: seq<Minute>, start: int, end: int, share: real)
    requires AllPositive(minutes) && Shares(minutes, start, end, share)
    requires VwapOver(MarksOf(minutes), start, end).Some?
    ensures MarksEveryTrade(minutes, start, end)
  {
    var sum := TotalsOf(TradesIn(minutes, start, end));
    AMarkLeavesOutTheUnknown(minutes, start, end);
    UnknownIsSome(minutes, start, end);
    SharesAddUp(minutes, start, end, share);
    RatioOfShares(share, sum.notional, sum.volume);
  }

  // ---------------------------------------------------------------------------
  // Unequal shares are not
  // ---------------------------------------------------------------------------

  function PrintedAt(trades: seq<Trade>, px: real): seq<Trade> {
    if trades == [] then []
    else PrintedAt(trades[..|trades| - 1], px) + [trades[|trades| - 1].(px := px)]
  }

  lemma {:induction false} PrintedAtIs(trades: seq<Trade>, px: real)
    ensures SameButPrices(trades, PrintedAt(trades, px))
    ensures forall i :: 0 <= i < |trades| ==> PrintedAt(trades, px)[i].px == px
  {
    if trades != [] {
      PrintedAtIs(trades[..|trades| - 1], px);
    }
  }

  function AtOnePrice(m: Minute, px: real): Minute {
    Minute(m.end, PrintedAt(m.trades, px))
  }

  lemma OnePrice(m: Minute, px: real)
    requires Positive(m.trades)
    ensures SameMinute(m, AtOnePrice(m, px)) && (px > 0.0 ==> Printed(AtOnePrice(m, px)))
    ensures TotalsOf(AtOnePrice(m, px).trades).notional == Times(px, TotalsOf(m.trades).volume)
    ensures UnknownWorth(AtOnePrice(m, px)) == Times(px, UnknownSize(m))
  {
    PrintedAtIs(m.trades, px);
    SameSizes(m, AtOnePrice(m, px));
    NotionalBetween(AtOnePrice(m, px).trades, px, px);
    OneWorth(AtOnePrice(m, px), px);
  }

  lemma OneWorth(m: Minute, px: real)
    requires Positive(m.trades) && TotalsOf(m.trades).notional == Times(px, TotalsOf(m.trades).volume)
    ensures UnknownWorth(m) == Times(px, UnknownSize(m))
  {
    if m.trades == [] {
      assert UnknownSize(m) == 0.0 && Times(px, 0.0) == 0.0;
    } else {
      WhatTheSumsAre(m.trades);
      var volume := TotalsOf(m.trades).volume;
      assert Times(px, volume) / volume == px;
    }
  }

  /** Every minute at a price of one, but the i-th at more. */
  function Raised(minutes: seq<Minute>, i: nat, more: real): seq<Minute> {
    if minutes == [] then []
    else
      var n := |minutes| - 1;
      Raised(minutes[..n], i, more) + [AtOnePrice(minutes[n], if n == i then 1.0 + more else 1.0)]
  }

  lemma RaisedNext(before: seq<Minute>, m: Minute, i: nat, more: real)
    ensures Raised(before + [m], i, more)
         == Raised(before, i, more) + [AtOnePrice(m, if |before| == i then 1.0 + more else 1.0)]
  {
    assert (before + [m])[..|before|] == before;
  }

  lemma {:induction false} RaisedIs(minutes: seq<Minute>, i: nat, more: real)
    requires AllPositive(minutes) && more > 0.0
    ensures Repriced(minutes, Raised(minutes, i, more)) && AllPriced(Raised(minutes, i, more))
  {
    if minutes != [] {
      var n := |minutes| - 1;
      RaisedIs(minutes[..n], i, more);
      OnePrice(minutes[n], if n == i then 1.0 + more else 1.0);
    }
  }

  /** What the i-th minute has, in a sum over minutes that has reached it. */
  function Extra(minutes: seq<Minute>, i: nat, more: real, x: real): real {
    if i < |minutes| then Times(more, x) else 0.0
  }

  lemma ExtraNext(before: seq<Minute>, m: Minute, i: nat, more: real, x: real)
    ensures Extra(before + [m], i, more, x) == if i == |before| then Times(more, x) else Extra(before, i, more, x)
    ensures i == |before| ==> Extra(before, i, more, x) == 0.0
  {
  }

  ghost predicate RaisedBy(minutes: seq<Minute>, i: nat, more: real, start: int, end: int, volume: real,
                           unknown: real) {
    var raised := Raised(minutes, i, more);
    var sum := TotalsOf(TradesIn(minutes, start, end));
    && TotalsOf(TradesIn(raised, start, end)).volume == sum.volume
    && UnknownVolume(raised, start, end) == UnknownVolume(minutes, start, end)
    && TotalsOf(TradesIn(raised, start, end)).notional == sum.volume + Extra(minutes, i, more, volume)
    && UnknownNotional(raised, start, end) == UnknownVolume(minutes, start, end) + Extra(minutes, i, more, unknown)
  }

  lemma OneMoreRaised(before: seq<Minute>, m: Minute, i: nat, more: real, start: int, end: int, volume: real,
                      unknown: real)
    requires RaisedBy(before, i, more, start, end, volume, unknown) && Positive(m.trades) && InWindow(m, start, end)
    requires i == |before| ==> volume == TotalsOf(m.trades).volume && unknown == UnknownSize(m)
    ensures RaisedBy(before + [m], i, more, start, end, volume, unknown)
  {
    var px := if |before| == i then 1.0 + more else 1.0;
    var other, raised := AtOnePrice(m, px), Raised(before, i, more);
    RaisedNext(before, m, i, more);
    ExtraNext(before, m, i, more, volume);
    ExtraNext(before, m, i, more, unknown);
    OnePrice(m, px);
    SameSizes(m, other);
    UnknownNext(before, m, start, end);
    UnknownNext(raised, other, start, end);
    TotalsAppend(TradesIn(before, start, end), m.trades);
    TotalsAppend(TradesIn(raised, start, end), other.trades);
    OneAndMore(more, TotalsOf(m.trades).volume);
    OneAndMore(more, UnknownSize(m));
  }

  lemma OneAndMore(more: real, x: real)
    ensures Times(1.0, x) == x && Times(1.0 + more, x) == x + Times(more, x)
  {
  }

  lemma OneMoreOutside(before: seq<Minute>, m: Minute, i: nat, more: real, start: int, end: int, volume: real,
                       unknown: real)
    requires RaisedBy(before, i, more, start, end, volume, unknown) && !InWindow(m, start, end)
    requires i != |before|
    ensures RaisedBy(before + [m], i, more, start, end, volume, unknown)
  {
    var other, raised := AtOnePrice(m, 1.0), Raised(before, i, more);
    RaisedNext(before, m, i, more);
    ExtraNext(before, m, i, more, volume);
    ExtraNext(before, m, i, more, unknown);
    PrintedAtIs(m.trades, 1.0);
    UnknownSkips(before, m, start, end);
    UnknownSkips(raised, other, start, end);
  }

  lemma {:induction false} RaisedSums(minutes: seq<Minute>, i: nat, more: real, start: int, end: int, m: Minute)
    requires AllPositive(minutes) && InWindow(m, start, end) && (i < |minutes| ==> minutes[i] == m)
    ensures RaisedBy(minutes, i, more, start, end, TotalsOf(m.trades).volume, UnknownSize(m))
  {
    if minutes != [] {
      var n := |minutes| - 1;
      RaisedSums(minutes[..n], i, more, start, end, m);
      assert minutes[..n] + [minutes[n]] == minutes;
      if InWindow(minutes[n], start, end) {
        OneMoreRaised(minutes[..n], minutes[n], i, more, start, end, TotalsOf(m.trades).volume, UnknownSize(m));
      } else {
        OneMoreOutside(minutes[..n], minutes[n], i, more, start, end, TotalsOf(m.trades).volume, UnknownSize(m));
      }
    }
  }

  lemma Over(x: real, y: real, more: real)
    requires y > 0.0
    ensures (y + Times(more, x)) / y == 1.0 + Times(more, x / y)
  {
    var q := x / y;
    assert Times(q, y) == x;
    Regroup(more, q, y);
    assert Times(more, x) == Times(Times(more, q), y);
    var r := 1.0 + Times(more, q);
    assert Times(r, y) == y + Times(more, x);
    assert Times(r, y) / y == r;
  }

  lemma SharesOfBoth(volume: real, known: real, v: real, k: real)
    requires volume > 0.0 && known > 0.0 && v > 0.0 && k / known == v / volume
    ensures k / v == known / volume
  {
    var r := v / volume;
    assert v == Times(r, volume) && k == Times(r, known) && r > 0.0;
    var q := known / volume;
    assert known == Times(q, volume);
    Regroup(r, q, volume);
    assert k == Times(q, v);
    assert Times(q, v) / v == q;
  }

  /** A minute whose known share is not the window's, raised enough, moves the two averages
      three units apart. */
  lemma TheyPart(volume: real, known: real, v: real, k: real) returns (more: real)
    requires volume > 0.0 && known > 0.0 && v > 0.0 && k / v != known / volume
    ensures more > 0.0
    ensures Abs((known + Times(more, k)) / known - (volume + Times(more, v)) / volume) == 3.0 * UNIT
  {
    var d := k / known - v / volume;
    if d == 0.0 {
      SharesOfBoth(volume, known, v, k);
    }
    more := ThreeUnitsOver(d);
    Over(k, known, more);
    Over(v, volume, more);
    TimesMinus(more, k / known, v / volume);
  }

  lemma ThreeUnitsOver(d: real) returns (more: real)
    requires d != 0.0
    ensures more > 0.0 && Abs(Times(more, d)) == 3.0 * UNIT
  {
    more := 3.0 * UNIT / Abs(d);
    assert Times(more, Abs(d)) == 3.0 * UNIT;
    assert Times(more, -d) == -Times(more, d);
  }

  lemma KnownOfMinute(m: Minute)
    requires Positive(m.trades) && m.trades != []
    ensures var v := TotalsOf(m.trades).volume; v > 0.0 && KnownShare(m) == (v - UnknownSize(m)) / v
  {
    WhatTheSumsAre(m.trades);
  }

  /** Prices at which the mark is not the price of every trade. */
  lemma AnOddMinuteShows(minutes: seq<Minute>, start: int, end: int, i: nat, volume: real, known: real)
    returns (others: seq<Minute>)
    requires AllPositive(minutes) && i < |minutes| && InWindow(minutes[i], start, end)
    requires volume == TotalsOf(TradesIn(minutes, start, end)).volume > 0.0
    requires known == volume - UnknownVolume(minutes, start, end) > 0.0
    requires KnownShare(minutes[i]) != known / volume
    ensures Repriced(minutes, others) && AllPriced(others) && !MarksEveryTrade(others, start, end)
  {
    var m := minutes[i];
    var v, u := TotalsOf(m.trades).volume, UnknownSize(m);
    KnownOfMinute(m);
    var more := TheyPart(volume, known, v, v - u);
    others := Raised(minutes, i, more);
    RaisedIs(minutes, i, more);
    SizesStayPositive(minutes, others);
    RaisedSums(minutes, i, more, start, end, m);
    TimesMinus(more, v, u);
    NotTheMark(others, start, end, (known + Times(more, v - u)) / known, (volume + Times(more, v)) / volume);
  }

  lemma NotTheMark(minutes: seq<Minute>, start: int, end: int, left: real, price: real)
    requires AllPositive(minutes)
    requires var sum := TotalsOf(TradesIn(minutes, start, end));
             var known := sum.volume - UnknownVolume(minutes, start, end);
             && sum.volume != 0.0 && known > 0.0 && price == ExactPrice(TradesIn(minutes, start, end))
             && left == (sum.notional - UnknownNotional(minutes, start, end)) / known
    requires Abs(left - price) == 3.0 * UNIT
    ensures !MarksEveryTrade(minutes, start, end)
  {
    PricedExactlyWhenAKnownSideTraded(minutes, start, end);
    AMarkLeavesOutTheUnknown(minutes, start, end);
  }

  // ---------------------------------------------------------------------------
  // Both
  // ---------------------------------------------------------------------------

  predicate SameSums(minutes: seq<Minute>, others: seq<Minute>, start: int, end: int) {
    && UnknownVolume(others, start, end) == UnknownVolume(minutes, start, end)
    && TotalsOf(TradesIn(others, start, end)).volume == TotalsOf(TradesIn(minutes, start, end)).volume
  }

  lemma OneMoreSame(minutes: seq<Minute>, others: seq<Minute>, m: Minute, other: Minute, start: int, end: int)
    requires SameSums(minutes, others, start, end) && SameMinute(m, other)
    ensures SameSums(minutes + [m], others + [other], start, end)
  {
    SameSizes(m, other);
    if InWindow(m, start, end) {
      UnknownNext(minutes, m, start, end);
      UnknownNext(others, other, start, end);
      TotalsAppend(TradesIn(minutes, start, end), m.trades);
      TotalsAppend(TradesIn(others, start, end), other.trades);
    } else {
      UnknownSkips(minutes, m, start, end);
      UnknownSkips(others, other, start, end);
    }
  }

  lemma {:induction false} SameWindows(minutes: seq<Minute>, others: seq<Minute>, start: int, end: int)
    requires Repriced(minutes, others)
    ensures SameSums(minutes, others, start, end)
  {
    if minutes != [] {
      var n := |minutes| - 1;
      assert SameMinute(minutes[n], others[n]);
      SameWindows(minutes[..n], others[..n], start, end);
      OneMoreSame(minutes[..n], others[..n], minutes[n], others[n], start, end);
      assert minutes[..n] + [minutes[n]] == minutes && others[..n] + [others[n]] == others;
    }
  }

  lemma SameShares(minutes: seq<Minute>, others: seq<Minute>, start: int, end: int, share: real)
    requires Repriced(minutes, others) && Shares(minutes, start, end, share)
    ensures Shares(others, start, end, share)
  {
    forall i | 0 <= i < |others| && InWindow(others[i], start, end)
      ensures KnownShare(others[i]) == share
    {
      assert SameMinute(minutes[i], others[i]);
      PricesChangeNoSize(minutes[i].trades, others[i].trades);
    }
  }

  lemma OneShare(minutes: seq<Minute>, start: int, end: int) returns (share: real)
    requires EvenlyKnown(minutes, start, end)
    ensures Shares(minutes, start, end, share)
  {
    share := 1.0;
    if i :| 0 <= i < |minutes| && InWindow(minutes[i], start, end) {
      share := KnownShare(minutes[i]);
    }
  }

  lemma HarmlessAtAnyPrices(minutes: seq<Minute>, start: int, end: int)
    requires AllPositive(minutes) && VwapOver(MarksOf(minutes), start, end).Some? && EvenlyKnown(minutes, start, end)
    ensures AtAnyPrices(minutes, start, end)
  {
    var share := OneShare(minutes, start, end);
    forall others | Repriced(minutes, others) && AllPriced(others)
      ensures MarksEveryTrade(others, start, end)
    {
      SizesStayPositive(minutes, others);
      SameShares(minutes, others, start, end, share);
      SameWindows(minutes, others, start, end);
      PricedExactlyWhenAKnownSideTraded(minutes, start, end);
      PricedExactlyWhenAKnownSideTraded(others, start, end);
      EqualSharesAreHarmless(others, start, end, share);
    }
  }

  lemma AnOddMinute(minutes: seq<Minute>, start: int, end: int, share: real) returns (i: nat)
    requires !EvenlyKnown(minutes, start, end)
    ensures i < |minutes| && InWindow(minutes[i], start, end) && KnownShare(minutes[i]) != share
  {
    var j, k :| 0 <= j < |minutes| && 0 <= k < |minutes|
             && InWindow(minutes[j], start, end) && InWindow(minutes[k], start, end)
             && KnownShare(minutes[j]) != KnownShare(minutes[k]);
    i := if KnownShare(minutes[j]) != share then j else k;
  }

  lemma NotHarmlessAtSome(minutes: seq<Minute>, start: int, end: int)
    requires AllPositive(minutes) && VwapOver(MarksOf(minutes), start, end).Some? && !EvenlyKnown(minutes, start, end)
    ensures !AtAnyPrices(minutes, start, end)
  {
    var volume := TotalsOf(TradesIn(minutes, start, end)).volume;
    var known := volume - UnknownVolume(minutes, start, end);
    PricedExactlyWhenAKnownSideTraded(minutes, start, end);
    UnknownIsSome(minutes, start, end);
    var i := AnOddMinute(minutes, start, end, known / volume);
    var others := AnOddMinuteShows(minutes, start, end, i, volume, known);
  }

  /** For given sizes and sides, a mark is within a unit of the price of every trade in its
      window, whatever the trades' prices, exactly when every minute traded in the window has
      the same share of known side. So one traded minute is harmless, and so are minutes with
      every side known. */
  lemma TheUnknownIsHarmlessExactlyWhen(minutes: seq<Minute>, start: int, end: int)
    requires AllPositive(minutes) && VwapOver(MarksOf(minutes), start, end).Some?
    ensures AtAnyPrices(minutes, start, end) <==> EvenlyKnown(minutes, start, end)
  {
    if EvenlyKnown(minutes, start, end) {
      HarmlessAtAnyPrices(minutes, start, end);
    } else {
      NotHarmlessAtSome(minutes, start, end);
    }
  }
}
