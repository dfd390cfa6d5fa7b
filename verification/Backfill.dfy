/** Filling the stored history (internal/ingest/backfill.go): the spans with no candle, the
    pages they are fetched in, and the hours still to compute. */
module Backfilling {
  import opened Options

  const MINUTE: int := 60_000_000_000
  const HOUR: int := 3_600_000_000_000
  const PAGE: int := 350 * MINUTE

  /** A half-open span. */
  datatype TimeRange = TimeRange(from: int, to: int)

  predicate Holds(r: TimeRange, t: int) {
    r.from <= t < r.to
  }

  /** The minutes of a window, counted from its start. */
  predicate MinuteOf(t: int, start: int) {
    t >= start && (t - start) % MINUTE == 0
  }

  predicate Covered(ranges: seq<TimeRange>, t: int) {
    exists i :: 0 <= i < |ranges| && Holds(ranges[i], t)
  }

  /** Spans of whole minutes, in order, with at least one minute between each and the next. */
  predicate Apart(ranges: seq<TimeRange>, start: int) {
    && (forall i :: 0 <= i < |ranges| ==>
          MinuteOf(ranges[i].from, start) && MinuteOf(ranges[i].to, start) && ranges[i].from < ranges[i].to)
    && (forall i, j :: 0 <= i < j < |ranges| ==> ranges[i].to < ranges[j].from)
  }

  /** The spans hold exactly the absent minutes of the window. */
  ghost predicate HoldAbsent(ranges: seq<TimeRange>, have: set<int>, start: int, end: int) {
    forall t :: MinuteOf(t, start) ==> (Covered(ranges, t) <==> t < end && t !in have)
  }

  ghost predicate Gaps(ranges: seq<TimeRange>, have: set<int>, start: int, end: int) {
    Apart(ranges, start) && HoldAbsent(ranges, have, start, end)
  }

  /** The ranges up to a minute: those closed, and one that may still grow. */
  datatype Scan = Scan(out: seq<TimeRange>, open: Option<TimeRange>)
  {
    function Ranges(): seq<TimeRange> {
      match open case None => out case Some(r) => out + [r]
    }
  }

  function NextScan(s: Scan, have: set<int>, at: int): Scan {
    if at in have then Scan(s.Ranges(), None)
    else if s.open.None? then Scan(s.out, Some(TimeRange(at, at + MINUTE)))
    else Scan(s.out, Some(s.open.value.(to := at + MINUTE)))
  }

  /** The n-th minute of the window. */
  function Minute(start: int, n: nat): int {
    if n == 0 then start else Minute(start, n - 1) + MINUTE
  }

  /** The scan of the n minutes before one. */
  function ScanOf(have: set<int>, n: nat, at: int): Scan {
    if n == 0 then Scan([], None) else NextScan(ScanOf(have, n - 1, at - MINUTE), have, at - MINUTE)
  }

  method MissingRanges(have: set<int>, start: int, end: int) returns (out: seq<TimeRange>)
    ensures Gaps(out, have, start, end)
  {
    out := [];
    var open: Option<TimeRange> := None;
    var at := start;
    ghost var n := 0;
    while at < end
      invariant at == Minute(start, n) && (n == 0 || at < end + MINUTE)
      invariant Scan(out, open) == ScanOf(have, n, at)
      decreases end - at
    {
      if at in have {
        if open.Some? {
          out := out + [open.value];
          open := None;
        }
      } else if open.None? {
        open := Some(TimeRange(at, at + MINUTE));
      } else {
        open := Some(open.value.(to := at + MINUTE));
      }
      at := at + MINUTE;
      n := n + 1;
    }
    if open.Some? {
      out := out + [open.value];
    }
    EveryScanIsExact(have, start, n, at);
    UpToTheEnd(ScanOf(have, n, at).Ranges(), have, start, end, at);
  }

  /** A scan up to a minute has found exactly the gaps before it. */
  ghost predicate Exact(s: Scan, have: set<int>, start: int, at: int) {
    && MinuteOf(at, start)
    && Gaps(s.Ranges(), have, start, at)
    && (s.open.Some? ==> s.open.value.to == at)
    && forall i :: 0 <= i < |s.out| ==> s.out[i].to < at
  }

  lemma APresentMinute(s: Scan, have: set<int>, start: int, at: int, next: int)
    requires Exact(s, have, start, at) && at in have && next == at + MINUTE
    ensures Exact(Scan(s.Ranges(), None), have, start, next)
  {
    NextIsPresent(s.Ranges(), have, start, at);
    NextMinute(start, at, at);
  }

  lemma AnAbsentMinute(s: Scan, have: set<int>, start: int, at: int, next: int)
    requires Exact(s, have, start, at) && at !in have && next == at + MINUTE
    ensures Exact(NextScan(s, have, at), have, start, next)
  {
    NextMinute(start, at, at);
    if s.open.None? {
      StartsARange(s.out, have, start, at);
    } else {
      Lengthens(s.out, s.open.value, have, start, at);
    }
  }

  lemma NothingScanned(have: set<int>, start: int, at: int)
    requires at == start
    ensures Exact(ScanOf(have, 0, at), have, start, at)
  {
  }

  lemma {:induction false} EveryScanIsExact(have: set<int>, start: int, n: nat, at: int)
    requires at == Minute(start, n)
    ensures Exact(ScanOf(have, n, at), have, start, at)
  {
    if n == 0 {
      NothingScanned(have, start, at);
    } else {
      EveryScanIsExact(have, start, n - 1, at - MINUTE);
      OneMoreScanned(have, n, start, at);
    }
  }

  lemma OneMoreScanned(have: set<int>, n: nat, start: int, at: int)
    requires n > 0 && Exact(ScanOf(have, n - 1, at - MINUTE), have, start, at - MINUTE)
    ensures Exact(ScanOf(have, n, at), have, start, at)
  {
    ThenExact(ScanOf(have, n - 1, at - MINUTE), have, start, at - MINUTE, at);
  }

  lemma ThenExact(s: Scan, have: set<int>, start: int, at: int, next: int)
    requires Exact(s, have, start, at) && next == at + MINUTE
    ensures Exact(NextScan(s, have, at), have, start, next)
  {
    if at in have {
      APresentMinute(s, have, start, at, next);
    } else {
      AnAbsentMinute(s, have, start, at, next);
    }
  }

  lemma NextMinute(start: int, at: int, t: int)
    requires MinuteOf(at, start) && MinuteOf(t, start)
    ensures MinuteOf(at + MINUTE, start)
    ensures t < at + MINUTE <==> t <= at
  {
  }

  lemma NextIsPresent(ranges: seq<TimeRange>, have: set<int>, start: int, at: int)
    requires MinuteOf(at, start) && Gaps(ranges, have, start, at) && at in have
    ensures Gaps(ranges, have, start, at + MINUTE)
  {
    forall t | MinuteOf(t, start)
      ensures Covered(ranges, t) <==> t < at + MINUTE && t !in have
    {
      NextMinute(start, at, t);
    }
  }

  lemma CoveredSnoc(ranges: seq<TimeRange>, r: TimeRange, t: int)
    ensures Covered(ranges + [r], t) <==> Covered(ranges, t) || Holds(r, t)
  {
    if Covered(ranges, t) {
      var i :| 0 <= i < |ranges| && Holds(ranges[i], t);
      assert Holds((ranges + [r])[i], t);
    }
    assert (ranges + [r])[|ranges|] == r;
  }

  lemma StartsARange(out: seq<TimeRange>, have: set<int>, start: int, at: int)
    requires MinuteOf(at, start) && Gaps(out, have, start, at) && at !in have
    requires forall i :: 0 <= i < |out| ==> out[i].to < at
    ensures Gaps(out + [TimeRange(at, at + MINUTE)], have, start, at + MINUTE)
  {
    forall t | MinuteOf(t, start)
      ensures Covered(out + [TimeRange(at, at + MINUTE)], t) <==> t < at + MINUTE && t !in have
    {
      NextMinute(start, at, t);
      CoveredSnoc(out, TimeRange(at, at + MINUTE), t);
    }
    NextMinute(start, at, at);
  }

  lemma Lengthens(out: seq<TimeRange>, r: TimeRange, have: set<int>, start: int, at: int)
    requires MinuteOf(at, start) && Gaps(out + [r], have, start, at) && at !in have && r.to == at
    ensures Gaps(out + [r.(to := at + MINUTE)], have, start, at + MINUTE)
  {
    var longer := r.(to := at + MINUTE);
    forall t | MinuteOf(t, start)
      ensures Covered(out + [longer], t) <==> t < at + MINUTE && t !in have
    {
      NextMinute(start, at, t);
      CoveredSnoc(out, r, t);
      CoveredSnoc(out, longer, t);
      assert (out + [r])[|out|] == r;
    }
    NextMinute(start, at, at);
    ApartLonger(out, r, longer, start);
  }

  lemma ApartLonger(out: seq<TimeRange>, r: TimeRange, longer: TimeRange, start: int)
    requires Apart(out + [r], start) && longer.from == r.from && longer.to > r.to && MinuteOf(longer.to, start)
    ensures Apart(out + [longer], start)
  {
    var was, now := out + [r], out + [longer];
    assert was[|out|] == r;
    forall i | 0 <= i < |now|
      ensures MinuteOf(now[i].from, start) && MinuteOf(now[i].to, start) && now[i].from < now[i].to
    {
      assert i < |out| ==> now[i] == was[i];
    }
    forall i, j | 0 <= i < j < |now|
      ensures now[i].to < now[j].from
    {
      assert now[i] == was[i] && now[j].from == was[j].from;
    }
  }

  lemma UpToTheEnd(out: seq<TimeRange>, have: set<int>, start: int, end: int, at: int)
    requires MinuteOf(at, start) && Gaps(out, have, start, at) && end <= at && (at <= start || at < end + MINUTE)
    ensures Gaps(out, have, start, end)
  {
    forall t | MinuteOf(t, start)
      ensures Covered(out, t) <==> t < end && t !in have
    {
      BeforeTheEnd(start, end, at, t);
      assert Covered(out, t) <==> t < at && t !in have;
    }
  }

  lemma BeforeTheEnd(start: int, end: int, at: int, t: int)
    requires MinuteOf(at, start) && MinuteOf(t, start) && end <= at && (at <= start || at < end + MINUTE)
    ensures t < at <==> t < end
  {
    assert (at - t) % MINUTE == 0;
  }

  // ---------------------------------------------------------------------------
  // The gaps are the only ones
  // ---------------------------------------------------------------------------

  lemma StartIsCovered(xs: seq<TimeRange>, ys: seq<TimeRange>, have: set<int>, start: int, end: int, i: nat)
    returns (j: nat)
    requires Gaps(xs, have, start, end) && Gaps(ys, have, start, end) && i < |xs|
    ensures j < |ys| && Holds(ys[j], xs[i].from)
  {
    var t := xs[i].from;
    assert Holds(xs[i], t) && MinuteOf(t, start) && Covered(xs, t);
    assert Covered(ys, t);
    j :| 0 <= j < |ys| && Holds(ys[j], t);
  }

  lemma SameRange(xs: seq<TimeRange>, ys: seq<TimeRange>, have: set<int>, start: int, end: int, i: nat)
    requires Gaps(xs, have, start, end) && Gaps(ys, have, start, end) && i < |xs|
    ensures xs[i] in ys
  {
    var j := StartIsCovered(xs, ys, have, start, end, i);
    NoEarlier(xs, ys, have, start, end, i, j);
    NoLonger(xs, ys, have, start, end, i, j);
    NoLonger(ys, xs, have, start, end, j, i);
    assert ys[j] == xs[i];
  }

  /** Whole minutes of one window are a minute apart. */
  lemma MinutesApart(start: int, a: int, b: int)
    requires MinuteOf(a, start) && MinuteOf(b, start) && a < b
    ensures a <= b - MINUTE && MinuteOf(b - MINUTE, start)
  {
  }

  /** The minute before a range is in none. */
  lemma NotJustBefore(xs: seq<TimeRange>, start: int, i: nat, t: int)
    requires Apart(xs, start) && i < |xs| && t == xs[i].from - MINUTE && MinuteOf(t, start)
    ensures !Covered(xs, t)
  {
    forall k | 0 <= k < |xs|
      ensures !Holds(xs[k], t)
    {
      if k < i {
        assert xs[k].to < xs[i].from && MinuteOf(xs[k].to, start);
        MinutesApart(start, xs[k].to, xs[i].from);
      } else if k > i {
        assert xs[i].to < xs[k].from;
      }
    }
  }

  /** Nor is the minute a range ends at. */
  lemma NotJustAfter(xs: seq<TimeRange>, start: int, i: nat)
    requires Apart(xs, start) && i < |xs|
    ensures !Covered(xs, xs[i].to)
  {
    forall k | 0 <= k < |xs|
      ensures !Holds(xs[k], xs[i].to)
    {
      if k < i {
        assert xs[k].to < xs[i].from;
      } else if k > i {
        assert xs[i].to < xs[k].from;
      }
    }
  }

  lemma UncoveredByBoth(xs: seq<TimeRange>, ys: seq<TimeRange>, have: set<int>, start: int, end: int, t: int, j: nat)
    requires HoldAbsent(xs, have, start, end) && HoldAbsent(ys, have, start, end) && MinuteOf(t, start)
    requires !Covered(xs, t) && j < |ys|
    ensures !Holds(ys[j], t)
  {
    assert Covered(xs, t) <==> Covered(ys, t);
  }

  /** A range another list's range overlaps at its start begins with it. */
  lemma NoEarlier(xs: seq<TimeRange>, ys: seq<TimeRange>, have: set<int>, start: int, end: int, i: nat, j: nat)
    requires Gaps(xs, have, start, end) && Gaps(ys, have, start, end) && i < |xs| && j < |ys|
    requires Holds(ys[j], xs[i].from)
    ensures ys[j].from == xs[i].from
  {
    assert MinuteOf(xs[i].from, start) && MinuteOf(ys[j].from, start);
    if xs[i].from > start {
      var t := xs[i].from - MINUTE;
      MinutesApart(start, start, xs[i].from);
      NotJustBefore(xs, start, i, t);
      UncoveredByBoth(xs, ys, have, start, end, t, j);
      assert t < ys[j].from;
      WithinAMinute(start, ys[j].from, xs[i].from);
    }
  }

  lemma WithinAMinute(start: int, a: int, b: int)
    requires MinuteOf(a, start) && MinuteOf(b, start) && b - MINUTE < a <= b
    ensures a == b
  {
  }

  /** Ranges that begin together end together. */
  lemma NoLonger(xs: seq<TimeRange>, ys: seq<TimeRange>, have: set<int>, start: int, end: int, i: nat, j: nat)
    requires Gaps(xs, have, start, end) && Gaps(ys, have, start, end) && i < |xs| && j < |ys|
    requires ys[j].from == xs[i].from
    ensures xs[i].to <= ys[j].to
  {
    var t := ys[j].to;
    assert MinuteOf(t, start) && t > ys[j].from;
    NotJustAfter(ys, start, j);
    UncoveredByBoth(ys, xs, have, start, end, t, i);
  }

  /** The gaps of a window are determined: no other spans are in order, apart, and exact. */
  lemma TheGapsAreUnique(xs: seq<TimeRange>, ys: seq<TimeRange>, have: set<int>, start: int, end: int)
    requires Gaps(xs, have, start, end) && Gaps(ys, have, start, end)
    ensures xs == ys
  {
    forall i: nat | i < |xs|
      ensures xs[i] in ys
    {
      SameRange(xs, ys, have, start, end, i);
    }
    forall i: nat | i < |ys|
      ensures ys[i] in xs
    {
      SameRange(ys, xs, have, start, end, i);
    }
    SameOrder(xs, ys, start);
  }

  lemma ButTheLastApart(xs: seq<TimeRange>, start: int)
    requires Apart(xs, start) && xs != []
    ensures Apart(xs[..|xs| - 1], start)
  {
  }

  lemma ButTheLast(xs: seq<TimeRange>, start: int)
    requires Apart(xs, start) && xs != []
    ensures forall r :: r in xs[..|xs| - 1] <==> r in xs && r != xs[|xs| - 1]
  {
    var n := |xs| - 1;
    forall i | 0 <= i < n
      ensures xs[i] != xs[n]
    {
      assert xs[i].to < xs[n].from;
    }
  }

  lemma TheFirstIsIn(xs: seq<TimeRange>)
    requires xs != []
    ensures xs[0] in xs
  {
  }

  lemma {:induction false} SameOrder(xs: seq<TimeRange>, ys: seq<TimeRange>, start: int)
    requires Apart(xs, start) && Apart(ys, start)
    requires (forall r :: r in xs <==> r in ys)
    ensures xs == ys
    decreases |xs|
  {
    if xs == [] {
      if ys != [] {
        TheFirstIsIn(ys);
        assert false;
      }
    } else if ys == [] {
      TheFirstIsIn(xs);
      assert false;
    } else {
      var n, m := |xs| - 1, |ys| - 1;
      SameLast(xs, ys, start);
      ButTheLast(xs, start);
      ButTheLast(ys, start);
      ButTheLastApart(xs, start);
      ButTheLastApart(ys, start);
      forall r
        ensures r in xs[..n] <==> r in ys[..m]
      {
        assert r in xs[..n] <==> r in xs && r != xs[n];
        assert r in ys[..m] <==> r in ys && r != ys[m];
      }
      SameOrder(xs[..n], ys[..m], start);
      assert xs == xs[..n] + [xs[n]] && ys == ys[..m] + [ys[m]];
    }
  }

  lemma InOrder(xs: seq<TimeRange>, start: int, i: nat, j: nat)
    requires Apart(xs, start) && i <= j < |xs|
    ensures xs[i].from <= xs[j].from && (i < j ==> xs[i].from < xs[j].from)
  {
  }

  lemma SameLast(xs: seq<TimeRange>, ys: seq<TimeRange>, start: int)
    requires Apart(xs, start) && Apart(ys, start) && xs != [] && ys != []
    requires (forall r :: r in xs <==> r in ys)
    ensures xs[|xs| - 1] == ys[|ys| - 1]
  {
    var n, m := |xs| - 1, |ys| - 1;
    assert xs[n] in ys && ys[m] in xs;
    var j :| 0 <= j <= m && ys[j] == xs[n];
    var i :| 0 <= i <= n && xs[i] == ys[m];
    InOrder(ys, start, j, m);
    InOrder(xs, start, i, n);
  }

  /** A window needs nothing downloaded exactly when no minute of it is absent. */
  lemma NothingToDownloadExactlyWhenComplete(ranges: seq<TimeRange>, have: set<int>, start: int, end: int)
    requires Gaps(ranges, have, start, end)
    ensures ranges == [] <==> forall t :: MinuteOf(t, start) && t < end ==> t in have
  {
    if ranges != [] {
      var t := ranges[0].from;
      assert Holds(ranges[0], t) && Covered(ranges, t);
    } else {
      assert forall t :: !Covered(ranges, t);
    }
  }

  // ---------------------------------------------------------------------------
  // Paging
  // ---------------------------------------------------------------------------

  datatype Candle = Candle(start: int, close: real)

  /** Pages from the end of a span back to its start, each met by the next, none longer than
      the venue returns at once. */
  predicate Tiles(pages: seq<TimeRange>, start: int, end: int) {
    if pages == [] then start >= end
    else
      && pages[0].to == end
      && pages[|pages| - 1].from == start
      && (forall i :: 0 <= i < |pages| ==> 0 < pages[i].to - pages[i].from <= PAGE)
      && (forall i :: 0 <= i < |pages| - 1 ==> pages[i].from == pages[i + 1].to)
  }

  /** What asking for one page comes to: its candles, a page that would not load, or a failure
      because the caller has gone. */
  datatype Answer = Page(candles: seq<Candle>) | Failed | Canceled

  /** What the pages that loaded hold, a later page's candle replacing an earlier one's. */
  function Loaded(client: TimeRange -> Answer, pages: seq<TimeRange>): map<int, Candle> {
    if pages == [] then map[]
    else
      var n := |pages| - 1;
      match client(pages[n])
      case Page(candles) => Entered(Loaded(client, pages[..n]), candles)
      case Failed | Canceled => Loaded(client, pages[..n])
  }

  predicate Interrupted(client: TimeRange -> Answer, pages: seq<TimeRange>) {
    exists i :: 0 <= i < |pages| && client(pages[i]).Canceled?
  }

  function Entered(out: map<int, Candle>, candles: seq<Candle>): map<int, Candle> {
    if candles == [] then out
    else Entered(out, candles[..|candles| - 1])[candles[|candles| - 1].start := candles[|candles| - 1]]
  }

  /** The pages of a span, newest first. */
  function Pages(start: int, end: int): seq<TimeRange>
    decreases end - start
  {
    if end <= start then []
    else
      var from := if end - PAGE < start then start else end - PAGE;
      [TimeRange(from, end)] + Pages(start, end - PAGE)
  }

  /** The pages meet end to start, none longer than the venue returns at once, and run from
      the span's end back to its start. */
  lemma {:induction false} ThePagesTile(start: int, end: int)
    ensures Tiles(Pages(start, end), start, end)
    decreases end - start
  {
    if end > start && end - PAGE > start {
      ThePagesTile(start, end - PAGE);
    }
  }

  lemma NextPage(pages: seq<TimeRange>, start: int, end: int)
    requires end > start
    ensures var from := if end - PAGE < start then start else end - PAGE;
            pages + Pages(start, end) == pages + [TimeRange(from, end)] + Pages(start, end - PAGE)
  {
  }

  lemma LoadedNext(client: TimeRange -> Answer, pages: seq<TimeRange>, page: TimeRange)
    ensures Loaded(client, pages + [page]) ==
            if client(page).Page? then Entered(Loaded(client, pages), client(page).candles) else Loaded(client, pages)
    ensures Interrupted(client, pages + [page]) <==> Interrupted(client, pages) || client(page).Canceled?
  {
    assert (pages + [page])[..|pages|] == pages;
    if Interrupted(client, pages) {
      var i :| 0 <= i < |pages| && client(pages[i]).Canceled?;
      assert client((pages + [page])[i]).Canceled?;
    }
    assert (pages + [page])[|pages|] == page;
  }

  lemma InterruptedEarly(client: TimeRange -> Answer, pages: seq<TimeRange>, rest: seq<TimeRange>)
    requires Interrupted(client, pages)
    ensures Interrupted(client, pages + rest)
  {
    var i :| 0 <= i < |pages| && client(pages[i]).Canceled?;
    assert client((pages + rest)[i]).Canceled?;
  }

  /** The walk from `upTo` back to the start, over what has been collected so far. */
  function Walk(client: TimeRange -> Answer, start: int, upTo: int, out: map<int, Candle>): Option<map<int, Candle>>
    decreases upTo - start
  {
    if upTo <= start then Some(out)
    else
      var from := if upTo - PAGE < start then start else upTo - PAGE;
      match client(TimeRange(from, upTo))
      case Page(candles) => Walk(client, start, upTo - PAGE, Entered(out, candles))
      case Failed => Walk(client, start, upTo - PAGE, out)
      case Canceled => None
  }

  function Collected(client: TimeRange -> Answer, pages: seq<TimeRange>): Option<map<int, Candle>> {
    if Interrupted(client, pages) then None else Some(Loaded(client, pages))
  }

  /** The walk collects the pages of the span, in turn. */
  lemma {:induction false} TheWalkIsThePages(client: TimeRange -> Answer, pages: seq<TimeRange>, start: int, upTo: int)
    requires !Interrupted(client, pages)
    ensures Walk(client, start, upTo, Loaded(client, pages)) == Collected(client, pages + Pages(start, upTo))
    decreases upTo - start
  {
    if upTo <= start {
      assert pages + [] == pages;
    } else {
      var page := TimeRange(if upTo - PAGE < start then start else upTo - PAGE, upTo);
      LoadedNext(client, pages, page);
      NextPage(pages, start, upTo);
      if client(page).Canceled? {
        InterruptedEarly(client, pages + [page], Pages(start, upTo - PAGE));
      } else {
        TheWalkIsThePages(client, pages + [page], start, upTo - PAGE);
      }
    }
  }

  /** Pages backwards. A failed page leaves its candles out; only a caller that has gone ends the
      walk. */
  method Bars(client: TimeRange -> Answer, start: int, end: int) returns (bars: Option<map<int, Candle>>)
    ensures bars == Collected(client, Pages(start, end))
  {
    var out: map<int, Candle> := map[];
    TheWalkIsThePages(client, [], start, end);
    assert [] + Pages(start, end) == Pages(start, end);
    var upTo := end;
    while upTo > start
      invariant Walk(client, start, upTo, out) == Walk(client, start, end, map[])
      decreases upTo - start
    {
      var from := upTo - PAGE;
      if from < start {
        from := start;
      }
      match client(TimeRange(from, upTo)) {
        case Page(candles) =>
          out := Enter(out, candles);
        case Failed =>
        case Canceled =>
          return None;
      }
      upTo := upTo - PAGE;
    }
    bars := Some(out);
  }

  method Enter(into: map<int, Candle>, candles: seq<Candle>) returns (out: map<int, Candle>)
    ensures out == Entered(into, candles)
  {
    out := into;
    for i := 0 to |candles|
      invariant out == Entered(into, candles[..i])
    {
      assert candles[..i + 1][..i] == candles[..i];
      out := out[candles[i].start := candles[i]];
    }
    assert candles[..|candles|] == candles;
  }

  /** Every candle of the pages that loaded, in the order they were collected. */
  function Received(client: TimeRange -> Answer, pages: seq<TimeRange>): seq<Candle> {
    if pages == [] then []
    else
      var n := |pages| - 1;
      Received(client, pages[..n]) + if client(pages[n]).Page? then client(pages[n]).candles else []
  }

  /** The k-th candle is the last of its start. */
  predicate LastOf(candles: seq<Candle>, k: int, t: int)
    requires 0 <= k < |candles|
  {
    candles[k].start == t && forall j :: k < j < |candles| ==> candles[j].start != t
  }

  /** A map of candles that holds, at each start of these and no other, the last of them. */
  predicate HoldsTheLast(out: map<int, Candle>, candles: seq<Candle>) {
    && (forall t :: t in out ==> exists k :: 0 <= k < |candles| && LastOf(candles, k, t) && out[t] == candles[k])
    && (forall k :: 0 <= k < |candles| ==> candles[k].start in out)
  }

  lemma OneMoreEntered(out: map<int, Candle>, candles: seq<Candle>, c: Candle)
    requires HoldsTheLast(out, candles)
    ensures HoldsTheLast(out[c.start := c], candles + [c])
  {
    var all, out' := candles + [c], out[c.start := c];
    forall t | t in out'
      ensures exists k :: 0 <= k < |all| && LastOf(all, k, t) && out'[t] == all[k]
    {
      if t == c.start {
        assert LastOf(all, |candles|, t);
      } else {
        var k :| 0 <= k < |candles| && LastOf(candles, k, t) && out[t] == candles[k];
        assert LastOf(all, k, t) && all[k] == candles[k];
      }
    }
  }

  lemma {:induction false} EnteredHoldsTheLast(out: map<int, Candle>, before: seq<Candle>, candles: seq<Candle>)
    requires HoldsTheLast(out, before)
    ensures HoldsTheLast(Entered(out, candles), before + candles)
  {
    if candles == [] {
      assert before + candles == before;
    } else {
      var n := |candles| - 1;
      EnteredHoldsTheLast(out, before, candles[..n]);
      OneMoreEntered(Entered(out, candles[..n]), before + candles[..n], candles[n]);
      assert before + candles == before + candles[..n] + [candles[n]];
    }
  }

  lemma {:induction false} LoadedHoldsTheLast(client: TimeRange -> Answer, pages: seq<TimeRange>)
    ensures HoldsTheLast(Loaded(client, pages), Received(client, pages))
  {
    if pages != [] {
      var n := |pages| - 1;
      LoadedHoldsTheLast(client, pages[..n]);
      if client(pages[n]).Page? {
        EnteredHoldsTheLast(Loaded(client, pages[..n]), Received(client, pages[..n]), client(pages[n]).candles);
      } else {
        assert Received(client, pages[..n]) + [] == Received(client, pages[..n]);
      }
    }
  }

  /** A download comes to nothing exactly when the caller had gone by some page of the span; else it
      holds, at each start a loaded page gave a candle for, the last one collected, whatever pages
      failed. */
  lemma WhatADownloadHolds(client: TimeRange -> Answer, start: int, end: int)
    ensures var pages := Pages(start, end);
            var out := Collected(client, pages);
            && (out.None? <==> exists i :: 0 <= i < |pages| && client(pages[i]).Canceled?)
            && (out.Some? ==> HoldsTheLast(out.value, Received(client, pages)))
  {
    LoadedHoldsTheLast(client, Pages(start, end));
  }

  /** Every instant of the span is in exactly one page. */
  lemma {:induction false} EachInstantIsOnOnePage(pages: seq<TimeRange>, start: int, end: int, t: int)
    requires Tiles(pages, start, end) && start <= t < end
    ensures exists i :: 0 <= i < |pages| && Holds(pages[i], t)
    ensures forall i, j :: 0 <= i < j < |pages| ==> !(Holds(pages[i], t) && Holds(pages[j], t))
    decreases |pages|
  {
    var n := |pages| - 1;
    PagesGoBack(pages, start, end);
    if t < pages[n].to {
      assert Holds(pages[n], t);
    } else {
      var rest := pages[..n];
      assert n > 0;
      assert pages[n - 1].from == pages[n - 1 + 1].to;
      assert Tiles(rest, pages[n].to, end);
      EachInstantIsOnOnePage(rest, pages[n].to, end, t);
      var i :| 0 <= i < n && Holds(rest[i], t);
      assert Holds(pages[i], t);
    }
  }

  lemma {:induction false} PagesGoBack(pages: seq<TimeRange>, start: int, end: int)
    requires Tiles(pages, start, end)
    ensures forall i, j :: 0 <= i < j < |pages| ==> pages[j].to <= pages[i].from
    decreases |pages|
  {
    if |pages| > 1 {
      var n := |pages| - 1;
      assert pages[n - 1].from == pages[n - 1 + 1].to;
      assert Tiles(pages[..n], pages[n].to, end);
      PagesGoBack(pages[..n], pages[n].to, end);
      forall i | 0 <= i < n
        ensures pages[n].to <= pages[i].from
      {
        if i < n - 1 {
          assert pages[..n][n - 1].to <= pages[..n][i].from;
        }
      }
    }
  }

  // ---------------------------------------------------------------------------
  // Hours
  // ---------------------------------------------------------------------------

  predicate Increasing(s: seq<int>) {
    forall i, j :: 0 <= i < j < |s| ==> s[i] < s[j]
  }

  /** An hour of the window, before a limit, that the market was open for and that has no rate. */
  predicate ToDo(closed: int -> bool, done: set<int>, start: int, end: int, limit: int, h: int) {
    start <= h < end && h < limit && (h - start) % HOUR == 0 && !closed(h) && h !in done
  }

  lemma NextHour(start: int, h: int, x: int)
    requires h >= start && (h - start) % HOUR == 0
    ensures (h + HOUR - start) % HOUR == 0
    ensures x >= start && (x - start) % HOUR == 0 ==> (x < h + HOUR <==> x <= h)
  {
  }

  function Recorded(hours: seq<int>): set<int> {
    set h | h in hours
  }

  /** The hours of the window that are neither closed nor done, in order and each once, and
      how many were done. */
  method HoursToCompute(closed: int -> bool, recorded: seq<int>, start: int, end: int)
    returns (hours: seq<int>, count: nat)
    ensures Increasing(hours)
    ensures count == |Recorded(recorded)|
    ensures forall h :: h in hours <==> ToDo(closed, Recorded(recorded), start, end, end, h)
  {
    var done := {};
    for i := 0 to |recorded|
      invariant done == Recorded(recorded[..i])
    {
      done := done + {recorded[i]};
    }
    assert recorded[..|recorded|] == recorded;
    count := |done|;
    hours := [];
    var h := start;
    while h < end
      invariant h >= start && (h - start) % HOUR == 0
      invariant Increasing(hours)
      invariant forall x :: x in hours <==> ToDo(closed, done, start, end, h, x)
      invariant forall i :: 0 <= i < |hours| ==> hours[i] < h
      decreases end - h
    {
      ghost var was := hours;
      if !closed(h) && h !in done {
        hours := hours + [h];
      }
      forall x
        ensures ToDo(closed, done, start, end, h + HOUR, x) <==>
                ToDo(closed, done, start, end, h, x) || (x == h && !closed(h) && h !in done)
      {
        NextHour(start, h, x);
      }
      assert forall x :: x in hours <==> x in was || (x == h && !closed(h) && h !in done);
      h := h + HOUR;
    }
  }
}
