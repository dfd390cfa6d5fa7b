/** One product's trade buckets (internal/ingest/trades.go): admission, filing, closing on the
    clock, and what a reconnect drops. */
module Bucketing {
  import opened Options
  import opened Aggregates

  const GRACE: int := 2_000_000_000

  datatype Config = Config(interval: int, sort: seq<Trade> -> seq<Trade>)

  predicate Usable(cfg: Config) {
    cfg.interval > 0
  }

  /** productTrades, and every row handed to the sink. */
  datatype Product = Product(next: Option<int>, open: map<int, seq<Trade>>, lostFrom: Option<int>, rows: seq<Row>)

  const NEW := Product(None, map[], None, [])

  function StartOf(cfg: Config, at: int): int
    requires Usable(cfg)
  {
    at - at % cfg.interval
  }

  function OpenAt(p: Product, start: int): seq<Trade> {
    if start in p.open then p.open[start] else []
  }

  predicate HasId(trades: seq<Trade>, id: string) {
    exists i :: 0 <= i < |trades| && trades[i].id == id
  }

  /** A bucket with one more print, unless its id is there already. */
  function File(trades: seq<Trade>, t: Trade): seq<Trade> {
    if HasId(trades, t.id) then trades else trades + [t]
  }

  /** Before admission, or for a bucket already written, a trade is dropped. */
  function Admit(cfg: Config, p: Product, t: Trade): Product
    requires Usable(cfg)
  {
    var start := StartOf(cfg, t.at);
    if p.next.None? || start < p.next.value then p
    else p.(open := p.open[start := File(OpenAt(p, start), t)])
  }

  predicate Elapsed(cfg: Config, start: int, now: int) {
    start + cfg.interval + GRACE <= now
  }

  function CloseBucket(cfg: Config, p: Product): Product
    requires p.next.Some?
  {
    var start := p.next.value;
    Product(Some(start + cfg.interval), p.open - {start}, p.lostFrom,
            p.rows + [BucketRow(start + cfg.interval, OpenAt(p, start), cfg.sort)])
  }

  /** Closes every bucket that has elapsed, in order, until the sink refuses a row. `taken`
      says which buckets' rows it would take. */
  function CloseElapsed(cfg: Config, p: Product, now: int, taken: int -> bool): Product
    requires Usable(cfg) && p.next.Some?
    decreases now - p.next.value
  {
    if !Elapsed(cfg, p.next.value, now) then p
    else if taken(p.next.value) then CloseElapsed(cfg, CloseBucket(cfg, p), now, taken)
    else CloseBucket(cfg, p)
  }

  function Tick(cfg: Config, p: Product, now: int, taken: int -> bool): Product
    requires Usable(cfg)
  {
    if p.next.None? then p.(next := Some(StartOf(cfg, now) + cfg.interval), lostFrom := None)
    else CloseElapsed(cfg, p, now, taken)
  }

  /** The hole a tick reports: from where aggregation had reached when a reconnect dropped it
      to where it begins again. */
  function Hole(cfg: Config, p: Product, now: int): Option<(int, int)>
    requires Usable(cfg)
  {
    if p.next.None? && p.lostFrom.Some? then Some((p.lostFrom.value, StartOf(cfg, now) + cfg.interval)) else None
  }

  function Reset(p: Product): Product {
    Product(None, map[], if p.next.Some? then p.next else p.lostFrom, p.rows)
  }

  /** `Reconnect` carries the instant it happens at, which the code never reads. */
  datatype Event = Print(t: Trade) | Clock(now: int, taken: int -> bool) | Reconnect(now: int)

  function Step(cfg: Config, p: Product, e: Event): Product
    requires Usable(cfg)
  {
    match e
    case Print(t) => Admit(cfg, p, t)
    case Clock(now, taken) => Tick(cfg, p, now, taken)
    case Reconnect(_) => Reset(p)
  }

  function Run(cfg: Config, p: Product, events: seq<Event>): Product
    requires Usable(cfg)
  {
    if events == [] then p else Step(cfg, Run(cfg, p, events[..|events| - 1]), events[|events| - 1])
  }

  // ---------------------------------------------------------------------------
  // One tick
  // ---------------------------------------------------------------------------

  /** Where a product that stood at `from` stands once it has written the rows from n on. */
  function Reached(rows: seq<Row>, n: int, from: int): int
    requires 0 <= n <= |rows|
  {
    if n == |rows| then from else rows[|rows| - 1].end
  }

  /** The rows from n on end one interval apart, the first one interval after `from`. */
  predicate Contiguous(cfg: Config, rows: seq<Row>, n: int, from: int)
    requires 0 <= n <= |rows|
  {
    forall k :: n <= k < |rows| ==> rows[k].end == Reached(rows[..k], n, from) + cfg.interval
  }

  /** The product wrote a contiguous run of rows from where it stood. */
  ghost predicate Follows(cfg: Config, p: Product, p': Product) {
    && p.next.Some? && p'.next.Some?
    && p.rows <= p'.rows
    && Contiguous(cfg, p'.rows, |p.rows|, p.next.value)
    && p'.next.value == Reached(p'.rows, |p.rows|, p.next.value) >= p.next.value
  }

  /** What closing does: the rows that follow, each only once elapsed. */
  ghost predicate Closed(cfg: Config, p: Product, p': Product, now: int) {
    Follows(cfg, p, p') && (|p'.rows| > |p.rows| ==> p'.next.value + GRACE <= now)
  }

  /** The rows closed are of what the buckets held, and the buckets still to come hold it. */
  ghost predicate KeptWhole(cfg: Config, p: Product, p': Product) {
    && p.next.Some? && p'.next.Some?
    && p.rows <= p'.rows
    && p.next.value <= p'.next.value
    && (forall s :: s >= p'.next.value ==> OpenAt(p', s) == OpenAt(p, s))
    && (forall k :: |p.rows| <= k < |p'.rows| ==>
          p.next.value + cfg.interval <= p'.rows[k].end <= p'.next.value &&
          p'.rows[k] == BucketRow(p'.rows[k].end, OpenAt(p, p'.rows[k].end - cfg.interval), cfg.sort))
  }

  lemma CloseOne(cfg: Config, p: Product, now: int)
    requires Usable(cfg) && p.next.Some? && Elapsed(cfg, p.next.value, now)
    ensures Closed(cfg, p, CloseBucket(cfg, p), now)
  {
    var q := CloseBucket(cfg, p);
    assert q.rows[..|p.rows|] == p.rows;
  }

  lemma CloseOneWhole(cfg: Config, p: Product)
    requires Usable(cfg) && p.next.Some?
    ensures KeptWhole(cfg, p, CloseBucket(cfg, p))
  {
  }

  lemma ThenFollowsMore(cfg: Config, p: Product, q: Product, r: Product)
    requires Usable(cfg) && Follows(cfg, p, q) && Follows(cfg, q, r)
    ensures Follows(cfg, p, r)
  {
    var n, m := |p.rows|, |q.rows|;
    forall k | n <= k < |r.rows|
      ensures r.rows[k].end == Reached(r.rows[..k], n, p.next.value) + cfg.interval
    {
      if k >= m {
        assert k == m ==> r.rows[..k] == q.rows;
        assert Reached(r.rows[..k], n, p.next.value) == Reached(r.rows[..k], m, q.next.value);
      } else {
        assert r.rows[k] == q.rows[k] && r.rows[..k] == q.rows[..k];
      }
    }
    assert m == |r.rows| ==> r.rows == q.rows;
  }

  /** One row of those closed. */
  lemma ARowKeptWhole(cfg: Config, p: Product, p': Product, k: nat)
    requires Usable(cfg) && KeptWhole(cfg, p, p') && |p.rows| <= k < |p'.rows|
    ensures p.next.value + cfg.interval <= p'.rows[k].end <= p'.next.value
    ensures p'.rows[k] == BucketRow(p'.rows[k].end, OpenAt(p, p'.rows[k].end - cfg.interval), cfg.sort)
  {
  }

  lemma ThatBucketWhole(cfg: Config, p: Product, q: Product, r: Product, k: nat)
    requires Usable(cfg) && KeptWhole(cfg, p, q) && |q.rows| == |p.rows| + 1 && KeptWhole(cfg, q, r)
    requires q.next.value == p.next.value + cfg.interval
    requires |p.rows| <= k < |r.rows|
    ensures p.next.value + cfg.interval <= r.rows[k].end <= r.next.value
    ensures r.rows[k] == BucketRow(r.rows[k].end, OpenAt(p, r.rows[k].end - cfg.interval), cfg.sort)
  {
    if k == |p.rows| {
      ARowKeptWhole(cfg, p, q, k);
      assert r.rows[k] == q.rows[k];
    } else {
      ARowKeptWhole(cfg, q, r, k);
      assert OpenAt(q, r.rows[k].end - cfg.interval) == OpenAt(p, r.rows[k].end - cfg.interval);
    }
  }

  lemma ThenMoreWhole(cfg: Config, p: Product, q: Product, r: Product)
    requires Usable(cfg) && KeptWhole(cfg, p, q) && |q.rows| == |p.rows| + 1 && KeptWhole(cfg, q, r)
    requires q.next.value == p.next.value + cfg.interval
    ensures KeptWhole(cfg, p, r)
  {
    forall k: nat | |p.rows| <= k < |r.rows|
      ensures p.next.value + cfg.interval <= r.rows[k].end <= r.next.value
      ensures r.rows[k] == BucketRow(r.rows[k].end, OpenAt(p, r.rows[k].end - cfg.interval), cfg.sort)
    {
      ThatBucketWhole(cfg, p, q, r, k);
    }
  }

  lemma {:induction false} ClosingCloses(cfg: Config, p: Product, now: int, taken: int -> bool)
    requires Usable(cfg) && p.next.Some?
    ensures Closed(cfg, p, CloseElapsed(cfg, p, now, taken), now)
    ensures (forall s :: taken(s)) ==> !Elapsed(cfg, CloseElapsed(cfg, p, now, taken).next.value, now)
    decreases now - p.next.value
  {
    if Elapsed(cfg, p.next.value, now) {
      CloseOne(cfg, p, now);
      if taken(p.next.value) {
        var q := CloseBucket(cfg, p);
        ClosingCloses(cfg, q, now, taken);
        ThenFollowsMore(cfg, p, q, CloseElapsed(cfg, q, now, taken));
      }
    }
  }

  lemma {:induction false} ClosingKeepsWhole(cfg: Config, p: Product, now: int, taken: int -> bool)
    requires Usable(cfg) && p.next.Some?
    ensures KeptWhole(cfg, p, CloseElapsed(cfg, p, now, taken))
    decreases now - p.next.value
  {
    if Elapsed(cfg, p.next.value, now) {
      CloseOneWhole(cfg, p);
      if taken(p.next.value) {
        var q := CloseBucket(cfg, p);
        ClosingKeepsWhole(cfg, q, now, taken);
        ThenMoreWhole(cfg, p, q, CloseElapsed(cfg, q, now, taken));
      }
    }
  }

  // ---------------------------------------------------------------------------
  // Whole runs
  // ---------------------------------------------------------------------------

  predicate Timed(e: Event) {
    !e.Print?
  }

  /** The clock never goes back, and starts no earlier than `from`. */
  predicate ClockFrom(events: seq<Event>, from: Option<int>) {
    && (forall i :: 0 <= i < |events| && Timed(events[i]) && from.Some? ==> from.value <= events[i].now)
    && (forall i, j :: 0 <= i < j < |events| && Timed(events[i]) && Timed(events[j]) ==> events[i].now <= events[j].now)
  }

  function Latest(events: seq<Event>): Option<int> {
    if events == [] then None
    else if Timed(events[|events| - 1]) then Some(events[|events| - 1].now)
    else Latest(events[..|events| - 1])
  }

  lemma {:induction false} LatestIsOne(events: seq<Event>)
    ensures Latest(events).Some? ==>
              exists i :: 0 <= i < |events| && Timed(events[i]) && events[i].now == Latest(events).value
  {
    if events != [] && !Timed(events[|events| - 1]) {
      LatestIsOne(events[..|events| - 1]);
    }
  }

  predicate Ascending(rows: seq<Row>) {
    forall i, j :: 0 <= i < j < |rows| ==> rows[i].end < rows[j].end
  }

  lemma {:induction false} ContiguousAscends(cfg: Config, rows: seq<Row>, n: nat, from: int)
    requires Usable(cfg) && n <= |rows| && Ascending(rows[..n]) && (n > 0 ==> rows[n - 1].end <= from)
    requires Contiguous(cfg, rows, n, from)
    ensures Ascending(rows)
    decreases |rows| - n
  {
    if n < |rows| {
      assert rows[..n + 1][..n] == rows[..n];
      assert rows[n].end == from + cfg.interval;
      forall i, j | 0 <= i < j < n + 1
        ensures rows[i].end < rows[j].end
      {
        if j == n {
          assert i < n - 1 ==> rows[..n][i].end < rows[..n][n - 1].end;
        } else {
          assert rows[..n][i].end < rows[..n][j].end;
        }
      }
      ContiguousFromNext(cfg, rows, n, from);
      ContiguousAscends(cfg, rows, n + 1, from + cfg.interval);
    } else {
      assert rows[..n] == rows;
    }
  }

  lemma ContiguousFromNext(cfg: Config, rows: seq<Row>, n: nat, from: int)
    requires n < |rows| && Contiguous(cfg, rows, n, from)
    ensures Contiguous(cfg, rows, n + 1, from + cfg.interval)
  {
    forall k | n + 1 <= k < |rows|
      ensures rows[k].end == Reached(rows[..k], n + 1, from + cfg.interval) + cfg.interval
    {
      assert rows[n].end == Reached(rows[..n], n, from) + cfg.interval;
    }
  }

  /** The rows ascend, the last had elapsed by the latest instant, and the product stands no
      earlier than it. */
  ghost predicate Sound(p: Product, latest: Option<int>) {
    && Ascending(p.rows)
    && (p.rows != [] ==> latest.Some? && p.rows[|p.rows| - 1].end + GRACE <= latest.value)
    && (p.rows != [] && p.next.Some? ==> p.rows[|p.rows| - 1].end <= p.next.value)
  }

  lemma ATickIsSound(cfg: Config, p: Product, latest: Option<int>, now: int, taken: int -> bool)
    requires Usable(cfg) && Sound(p, latest) && (latest.Some? ==> latest.value <= now)
    ensures Sound(Tick(cfg, p, now, taken), Some(now))
  {
    if p.next.Some? {
      ClosingCloses(cfg, p, now, taken);
      var p' := CloseElapsed(cfg, p, now, taken);
      assert p'.rows[..|p.rows|] == p.rows;
      ContiguousAscends(cfg, p'.rows, |p.rows|, p.next.value);
      if |p'.rows| == |p.rows| {
        assert p'.rows == p.rows;
      }
    }
  }

  lemma {:induction false} EveryRunIsSound(cfg: Config, events: seq<Event>)
    requires Usable(cfg) && ClockFrom(events, None)
    ensures Sound(Run(cfg, NEW, events), Latest(events))
  {
    if events != [] {
      var n := |events| - 1;
      EveryRunIsSound(cfg, events[..n]);
      if events[n].Clock? {
        LatestIsOne(events[..n]);
        ATickIsSound(cfg, Run(cfg, NEW, events[..n]), Latest(events[..n]), events[n].now, events[n].taken);
      } else {
        LatestIsOne(events[..n]);
      }
    }
  }

  /** Under a clock that never goes back, bucket ends strictly increase over a whole run,
      across any reconnects: no bucket is ever written twice. */
  lemma EndsAscend(cfg: Config, events: seq<Event>)
    requires Usable(cfg) && ClockFrom(events, None)
    ensures Ascending(Run(cfg, NEW, events).rows)
  {
    EveryRunIsSound(cfg, events);
  }

  /** Buckets start on the grid of the interval, and each one held is still to be written. */
  predicate OnlyToCome(cfg: Config, p: Product)
    requires Usable(cfg)
  {
    && (p.next.Some? ==> p.next.value % cfg.interval == 0)
    && forall s :: s in p.open ==> s % cfg.interval == 0 && p.next.Some? && s >= p.next.value
  }

  lemma NextOnTheGrid(interval: int, a: int, b: int)
    requires interval > 0 && a % interval == 0 && b % interval == 0 && a > b
    ensures a >= b + interval
  {
    assert a == a / interval * interval && b == b / interval * interval;
    if a / interval <= b / interval {
      WholeMultiples(interval, a / interval, b / interval);
    } else {
      WholeMultiples(interval, b / interval + 1, a / interval);
    }
  }

  lemma WholeMultiples(interval: int, m: int, n: int)
    requires interval > 0 && m <= n
    ensures m * interval <= n * interval
  {
  }

  lemma MultipleOf(interval: int, q: int)
    requires interval > 0
    ensures (q * interval) % interval == 0
  {
    var r := (q * interval) % interval;
    var d := (q * interval) / interval;
    assert q * interval == d * interval + r;
    assert (q - d) * interval == r;
    if q > d {
      WholeMultiples(interval, 1, q - d);
    } else {
      WholeMultiples(interval, q - d, 0);
    }
  }

  lemma FloorOnTheGrid(interval: int, t: int)
    requires interval > 0
    ensures (t - t % interval) % interval == 0
  {
    MultipleOf(interval, t / interval);
    Divided(interval, t);
  }

  lemma Divided(interval: int, t: int)
    requires interval > 0
    ensures t - t % interval == t / interval * interval
  {
  }

  lemma NextIsOnTheGrid(interval: int, t: int)
    requires interval > 0 && t % interval == 0
    ensures (t + interval) % interval == 0
  {
    Divided(interval, t);
    OneMoreOf(interval, t / interval);
    MultipleOf(interval, t / interval + 1);
  }

  lemma OneMoreOf(interval: int, q: int)
    ensures q * interval + interval == (q + 1) * interval
  {
  }

  lemma CloseOneOnlyToCome(cfg: Config, p: Product)
    requires Usable(cfg) && p.next.Some? && OnlyToCome(cfg, p)
    ensures OnlyToCome(cfg, CloseBucket(cfg, p))
  {
    NextIsOnTheGrid(cfg.interval, p.next.value);
    forall s | s in p.open && s != p.next.value
      ensures s >= p.next.value + cfg.interval
    {
      NextOnTheGrid(cfg.interval, s, p.next.value);
    }
  }

  lemma {:induction false} ClosingOnlyToCome(cfg: Config, p: Product, now: int, taken: int -> bool)
    requires Usable(cfg) && p.next.Some? && OnlyToCome(cfg, p)
    ensures OnlyToCome(cfg, CloseElapsed(cfg, p, now, taken))
    decreases now - p.next.value
  {
    if Elapsed(cfg, p.next.value, now) {
      CloseOneOnlyToCome(cfg, p);
      if taken(p.next.value) {
        ClosingOnlyToCome(cfg, CloseBucket(cfg, p), now, taken);
      }
    }
  }

  /** No bucket already written, nor any before admission, ever holds a trade again: a trade too late
      for its bucket leaves no trace. */
  lemma {:induction false} NothingLateIsHeld(cfg: Config, events: seq<Event>)
    requires Usable(cfg)
    ensures OnlyToCome(cfg, Run(cfg, NEW, events))
  {
    if events != [] {
      var n := |events| - 1;
      var p := Run(cfg, NEW, events[..n]);
      NothingLateIsHeld(cfg, events[..n]);
      match events[n] {
        case Print(t) => FloorOnTheGrid(cfg.interval, t.at);
        case Clock(now, taken) =>
          if p.next.None? {
            FloorOnTheGrid(cfg.interval, now);
            NextIsOnTheGrid(cfg.interval, StartOf(cfg, now));
          } else {
            ClosingOnlyToCome(cfg, p, now, taken);
          }
        case Reconnect(_) =>
      }
    }
  }

  predicate NoReconnect(events: seq<Event>) {
    forall i :: 0 <= i < |events| ==> !events[i].Reconnect?
  }

  lemma NothingFollowsItself(cfg: Config, p: Product, q: Product)
    requires p.next.Some? && q.next == p.next && q.rows == p.rows
    ensures Follows(cfg, p, q)
  {
  }

  /** Between reconnects an admitted product writes every bucket from where it stands, silent
      ones too, with none left out. */
  lemma {:induction false} ContiguousBetweenReconnects(cfg: Config, p: Product, events: seq<Event>)
    requires Usable(cfg) && p.next.Some? && NoReconnect(events)
    ensures Follows(cfg, p, Run(cfg, p, events))
  {
    if events == [] {
      NothingFollowsItself(cfg, p, p);
    } else {
      var n := |events| - 1;
      ContiguousBetweenReconnects(cfg, p, events[..n]);
      var q := Run(cfg, p, events[..n]);
      assert !events[n].Reconnect?;
      if events[n].Clock? {
        ClosingCloses(cfg, q, events[n].now, events[n].taken);
      } else {
        NothingFollowsItself(cfg, q, Admit(cfg, q, events[n].t));
      }
      ThenFollowsMore(cfg, p, q, Step(cfg, q, events[n]));
    }
  }

  /** A tick that the sink takes every row of leaves no elapsed bucket unwritten. */
  lemma ATickLeavesNothingElapsed(cfg: Config, p: Product, now: int, taken: int -> bool)
    requires Usable(cfg) && forall s :: taken(s)
    ensures Tick(cfg, p, now, taken).next.Some? && !Elapsed(cfg, Tick(cfg, p, now, taken).next.value, now)
  {
    if p.next.Some? {
      ClosingCloses(cfg, p, now, taken);
    }
  }

  /** Every row from the n-th on is of a window that begins after t. */
  ghost predicate AllBeginAfter(cfg: Config, p: Product, n: nat, t: int) {
    && n <= |p.rows|
    && (p.next.Some? ==> p.next.value > t)
    && forall k :: n <= k < |p.rows| ==> p.rows[k].end - cfg.interval > t
  }

  lemma ATickBeginsAfter(cfg: Config, p: Product, n: nat, t: int, now: int, taken: int -> bool)
    requires Usable(cfg) && AllBeginAfter(cfg, p, n, t) && t <= now
    ensures AllBeginAfter(cfg, Tick(cfg, p, now, taken), n, t)
  {
    if p.next.Some? {
      ClosingKeepsWhole(cfg, p, now, taken);
      var p' := CloseElapsed(cfg, p, now, taken);
      assert forall k :: 0 <= k < |p.rows| ==> p'.rows[k] == p.rows[k];
    }
  }

  lemma {:induction false} AfterAReconnect(cfg: Config, p: Product, events: seq<Event>, n: nat, t: int)
    requires Usable(cfg) && ClockFrom(events, Some(t)) && AllBeginAfter(cfg, p, n, t)
    ensures AllBeginAfter(cfg, Run(cfg, p, events), n, t)
  {
    if events != [] {
      var m := |events| - 1;
      AfterAReconnect(cfg, p, events[..m], n, t);
      if events[m].Clock? {
        ATickBeginsAfter(cfg, Run(cfg, p, events[..m]), n, t, events[m].now, events[m].taken);
      }
    }
  }

  /** No bucket whose window had begun when the socket dropped is written after it, so a
      bucket missing trades is a hole and never a wrong row. */
  lemma NothingBegunIsWrittenAfterAReconnect(cfg: Config, p: Product, t: int, events: seq<Event>)
    requires Usable(cfg) && ClockFrom(events, Some(t))
    ensures var rows := Run(cfg, Step(cfg, p, Reconnect(t)), events).rows;
            |p.rows| <= |rows| && forall k :: |p.rows| <= k < |rows| ==> rows[k].end - cfg.interval > t
  {
    AfterAReconnect(cfg, Step(cfg, p, Reconnect(t)), events, |p.rows|, t);
  }

  predicate NoClock(events: seq<Event>) {
    forall i :: 0 <= i < |events| ==> !events[i].Clock?
  }

  lemma {:induction false} ALossIsRemembered(cfg: Config, p: Product, events: seq<Event>)
    requires Usable(cfg) && p.next.None? && NoClock(events)
    ensures var q := Run(cfg, p, events); q.next.None? && q.lostFrom == p.lostFrom && q.rows == p.rows
  {
    if events != [] {
      var n := |events| - 1;
      ALossIsRemembered(cfg, p, events[..n]);
      assert !events[n].Clock?;
    }
  }

  /** A reconnect loses exactly what the next tick reports: the rows so far reach up to the
      hole, those after it begin where it ends, and it is reported once. */
  lemma AReconnectReportsItsHole(cfg: Config, p: Product, t: int, events: seq<Event>, now: int, taken: int -> bool)
    requires Usable(cfg) && p.next.Some? && NoClock(events)
    ensures var q := Run(cfg, Step(cfg, p, Reconnect(t)), events);
            var r := Tick(cfg, q, now, taken);
            && q.rows == p.rows && r.rows == p.rows && r.next.Some?
            && Hole(cfg, q, now) == Some((p.next.value, r.next.value))
            && Hole(cfg, r, now) == None && r.lostFrom == None
  {
    ALossIsRemembered(cfg, Step(cfg, p, Reconnect(t)), events);
  }

  // ---------------------------------------------------------------------------
  // What a row is of
  // ---------------------------------------------------------------------------

  /** The trades delivered for one bucket, in the order they came. */
  function Delivered(cfg: Config, events: seq<Event>, start: int): seq<Trade>
    requires Usable(cfg)
  {
    if events == [] then []
    else
      var n := |events| - 1;
      Delivered(cfg, events[..n], start) +
      if events[n].Print? && StartOf(cfg, events[n].t.at) == start then [events[n].t] else []
  }

  /** Each id's first delivery. */
  function Firsts(trades: seq<Trade>): seq<Trade> {
    if trades == [] then [] else File(Firsts(trades[..|trades| - 1]), trades[|trades| - 1])
  }

  lemma FirstsSnoc(trades: seq<Trade>, t: Trade)
    ensures Firsts(trades + [t]) == File(Firsts(trades), t)
  {
    assert (trades + [t])[..|trades|] == trades;
  }

  /** The trade was delivered, and its id not before it. */
  predicate DeliveredFirst(trades: seq<Trade>, t: Trade) {
    exists j :: 0 <= j < |trades| && trades[j] == t && !HasId(trades[..j], t.id)
  }

  lemma {:induction false} FirstsKeepEveryId(trades: seq<Trade>, id: string)
    ensures HasId(Firsts(trades), id) <==> HasId(trades, id)
  {
    if trades != [] {
      var n := |trades| - 1;
      FirstsKeepEveryId(trades[..n], id);
      FirstsKeepEveryId(trades[..n], trades[n].id);
      assert trades[..n] + [trades[n]] == trades;
      HasIdSnoc(trades[..n], trades[n], id);
      HasIdSnoc(Firsts(trades[..n]), trades[n], id);
    }
  }

  predicate DistinctIds(trades: seq<Trade>) {
    forall i, j :: 0 <= i < j < |trades| ==> trades[i].id != trades[j].id
  }

  lemma FileKeepsDistinct(trades: seq<Trade>, t: Trade)
    requires DistinctIds(trades)
    ensures DistinctIds(File(trades, t))
  {
  }

  lemma StillDeliveredFirst(trades: seq<Trade>, t: Trade, more: Trade)
    requires DeliveredFirst(trades, t)
    ensures DeliveredFirst(trades + [more], t)
  {
    var j :| 0 <= j < |trades| && trades[j] == t && !HasId(trades[..j], t.id);
    assert (trades + [more])[..j] == trades[..j];
    assert (trades + [more])[j] == t;
  }

  lemma NewlyDelivered(trades: seq<Trade>, t: Trade)
    requires !HasId(trades, t.id)
    ensures DeliveredFirst(trades + [t], t)
  {
    assert (trades + [t])[..|trades|] == trades;
    assert (trades + [t])[|trades|] == t;
  }

  lemma {:induction false} FirstsAreFirst(trades: seq<Trade>)
    ensures DistinctIds(Firsts(trades)) && forall i :: 0 <= i < |Firsts(trades)| ==>
            DeliveredFirst(trades, Firsts(trades)[i])
  {
    if trades != [] {
      var n := |trades| - 1;
      var before, t := trades[..n], trades[n];
      FirstsAreFirst(before);
      FirstsKeepEveryId(before, t.id);
      FileKeepsDistinct(Firsts(before), t);
      assert before + [t] == trades;
      forall i | 0 <= i < |Firsts(trades)|
        ensures DeliveredFirst(trades, Firsts(trades)[i])
      {
        if i < |Firsts(before)| {
          StillDeliveredFirst(before, Firsts(before)[i], t);
        } else {
          NewlyDelivered(before, t);
        }
      }
    }
  }

  /** Each id delivered is kept once, as it was first delivered. */
  lemma EachIdOnce(trades: seq<Trade>)
    ensures DistinctIds(Firsts(trades))
    ensures forall id :: HasId(Firsts(trades), id) <==> HasId(trades, id)
    ensures forall i :: 0 <= i < |Firsts(trades)| ==> DeliveredFirst(trades, Firsts(trades)[i])
  {
    FirstsAreFirst(trades);
    forall id
      ensures HasId(Firsts(trades), id) <==> HasId(trades, id)
    {
      FirstsKeepEveryId(trades, id);
    }
  }

  lemma HasIdSnoc(trades: seq<Trade>, t: Trade, id: string)
    ensures HasId(trades + [t], id) <==> HasId(trades, id) || id == t.id
  {
    if HasId(trades, id) {
      var i :| 0 <= i < |trades| && trades[i].id == id;
      assert (trades + [t])[i].id == id;
    }
    assert (trades + [t])[|trades|] == t;
  }

  lemma AdmitFiles(cfg: Config, q: Product, t: Trade, start: int)
    requires Usable(cfg) && q.next.Some? && start >= q.next.value
    ensures OpenAt(Admit(cfg, q, t), start) == if StartOf(cfg, t.at) == start then File(OpenAt(q, start), t)
            else OpenAt(q, start)
  {
  }

  /** An open bucket holds the first delivery of each id for it since admission. */
  lemma {:induction false} OpenBucketsHoldFirsts(cfg: Config, p: Product, events: seq<Event>, start: int)
    requires Usable(cfg) && p.next.Some? && p.open == map[] && NoReconnect(events)
    ensures var q := Run(cfg, p, events);
            q.next.Some? && (start >= q.next.value ==> OpenAt(q, start) == Firsts(Delivered(cfg, events, start)))
  {
    if events != [] {
      var n := |events| - 1;
      OpenBucketsHoldFirsts(cfg, p, events[..n], start);
      var q := Run(cfg, p, events[..n]);
      var before := Delivered(cfg, events[..n], start);
      assert !events[n].Reconnect?;
      if events[n].Clock? {
        ClosingKeepsWhole(cfg, q, events[n].now, events[n].taken);
        assert Delivered(cfg, events, start) == before;
        assert Step(cfg, q, events[n]) == CloseElapsed(cfg, q, events[n].now, events[n].taken);
      } else {
        if start >= q.next.value {
          AdmitFiles(cfg, q, events[n].t, start);
        }
        FirstsSnoc(before, events[n].t);
        assert Delivered(cfg, events, start) == if StartOf(cfg, events[n].t.at) == start then before + [events[n].t]
               else before;
      }
    }
  }

  /** A row is the aggregate of these trades. */
  predicate IsOf(cfg: Config, row: Row, trades: seq<Trade>) {
    row == BucketRow(row.end, trades, cfg.sort)
  }

  lemma ATicksRows(cfg: Config, q: Product, now: int, taken: int -> bool, k: nat)
    requires Usable(cfg) && q.next.Some? && |q.rows| <= k < |Tick(cfg, q, now, taken).rows|
    ensures var row := Tick(cfg, q, now, taken).rows[k];
            row.end - cfg.interval >= q.next.value && IsOf(cfg, row, OpenAt(q, row.end - cfg.interval))
  {
    ClosingKeepsWhole(cfg, q, now, taken);
    ARowKeptWhole(cfg, q, CloseElapsed(cfg, q, now, taken), k);
  }

  /** What a bucket still to be written holds, at the moment a tick begins. */
  ghost predicate HoldsFirsts(cfg: Config, q: Product, events: seq<Event>, start: int)
    requires Usable(cfg)
  {
    OpenAt(q, start) == Firsts(Delivered(cfg, events, start))
  }

  /** A row is the aggregate of each id's first delivery for its window. */
  ghost predicate WrittenFirsts(cfg: Config, row: Row, events: seq<Event>)
    requires Usable(cfg)
  {
    IsOf(cfg, row, Firsts(Delivered(cfg, events, row.end - cfg.interval)))
  }

  lemma HeldThenWritten(cfg: Config, q: Product, events: seq<Event>, row: Row)
    requires Usable(cfg) && HoldsFirsts(cfg, q, events, row.end - cfg.interval)
             && IsOf(cfg, row, OpenAt(q, row.end - cfg.interval))
    ensures WrittenFirsts(cfg, row, events)
  {
  }

  ghost predicate AllHeld(cfg: Config, q: Product, events: seq<Event>)
    requires Usable(cfg)
  {
    q.next.Some? && forall start :: start >= q.next.value ==> HoldsFirsts(cfg, q, events, start)
  }

  lemma HeldBeforeATick(cfg: Config, p: Product, events: seq<Event>)
    requires Usable(cfg) && p.next.Some? && p.open == map[] && NoReconnect(events)
    ensures AllHeld(cfg, Run(cfg, p, events), events)
  {
    OpenBucketsHoldFirsts(cfg, p, events, 0);
    var q := Run(cfg, p, events);
    forall start | start >= q.next.value
      ensures HoldsFirsts(cfg, q, events, start)
    {
      OpenBucketsHoldFirsts(cfg, p, events, start);
    }
  }

  lemma WrittenAsHeld(cfg: Config, q: Product, events: seq<Event>, now: int, taken: int -> bool, k: nat)
    requires Usable(cfg) && AllHeld(cfg, q, events) && |q.rows| <= k < |Tick(cfg, q, now, taken).rows|
    ensures WrittenFirsts(cfg, Tick(cfg, q, now, taken).rows[k], events)
  {
    ATicksRows(cfg, q, now, taken, k);
    HeldThenWritten(cfg, q, events, Tick(cfg, q, now, taken).rows[k]);
  }

  /** Every row written between reconnects is the aggregate of each id's first delivery, among
      the trades of its window that came after admission and before the tick that closed it. */
  lemma ARowIsWhatWasDelivered(cfg: Config, p: Product, events: seq<Event>, now: int, taken: int -> bool, k: nat)
    requires Usable(cfg) && p.next.Some? && p.open == map[] && NoReconnect(events)
    requires |Run(cfg, p, events).rows| <= k < |Tick(cfg, Run(cfg, p, events), now, taken).rows|
    ensures WrittenFirsts(cfg, Tick(cfg, Run(cfg, p, events), now, taken).rows[k], events)
  {
    HeldBeforeATick(cfg, p, events);
    WrittenAsHeld(cfg, Run(cfg, p, events), events, now, taken, k);
  }

  /** A product is admitted with nothing open: at its first tick, and at the first after a
      reconnect, the first bucket being the next whole one. */
  lemma {:induction false} AdmissionStartsClean(cfg: Config, events: seq<Event>, now: int, taken: int -> bool)
    requires Usable(cfg)
    ensures var p := Run(cfg, NEW, events);
            p.next.None? ==> p.open == map[] && Tick(cfg, p, now, taken).open == map[] &&
                             now < Tick(cfg, p, now, taken).next.value <= now + cfg.interval
  {
    if events != [] {
      AdmissionStartsClean(cfg, events[..|events| - 1], now, taken);
      var n := |events| - 1;
      var q := Run(cfg, NEW, events[..n]);
      if events[n].Clock? && q.next.Some? {
        ClosingCloses(cfg, q, events[n].now, events[n].taken);
      }
    }
  }

  // ---------------------------------------------------------------------------
  // The product as it runs
  // ---------------------------------------------------------------------------

  class ProductTrades {
    const cfg: Config

    var next: Option<int>
    var open: map<int, seq<Trade>>
    var seen: map<int, set<string>>
    var lostFrom: Option<int>

    // The rows handed to the sink, and everything that has happened.
    ghost var rows: seq<Row>
    ghost var history: seq<Event>

    ghost function State(): Product
      reads this
    {
      Product(next, open, lostFrom, rows)
    }

    /** Each open bucket's ids are at hand. */
    ghost predicate Indexed()
      reads this
    {
      open.Keys == seen.Keys && forall s, id :: s in open ==> (id in seen[s] <==> HasId(open[s], id))
    }

    ghost predicate Valid()
      reads this
    {
      Usable(cfg) && Indexed() && State() == Run(cfg, NEW, history)
    }

    constructor (cfg: Config)
      requires Usable(cfg)
      ensures Valid() && history == [] && this.cfg == cfg
    {
      this.cfg := cfg;
      next, open, seen, lostFrom, rows, history := None, map[], map[], None, [], [];
    }

    ghost method Took(e: Event, was: Product)
      requires Usable(cfg) && Indexed() && was == Run(cfg, NEW, history) && State() == Step(cfg, was, e)
      modifies this`history
      ensures Valid() && history == old(history) + [e]
    {
      history := history + [e];
      assert history[..|history| - 1] == old(history);
    }

    method AdmitTrade(t: Trade)
      requires Valid()
      modifies this`open, this`seen, this`history
      ensures Valid() && history == old(history) + [Print(t)]
    {
      ghost var was := State();
      var start := t.at - t.at % cfg.interval;
      if next.Some? && start >= next.value {
        FileUnder(start, t);
      }
      Took(Print(t), was);
    }

    method FileUnder(start: int, t: Trade)
      requires Indexed()
      modifies this`open, this`seen
      ensures Indexed() && State() == old(State()).(open := old(open)[start := File(OpenAt(old(State()), start), t)])
    {
      if start !in open {
        open, seen := open[start := []], seen[start := {}];
      }
      if t.id in seen[start] {
        return;
      }
      forall id
        ensures HasId(open[start] + [t], id) <==> HasId(open[start], id) || id == t.id
      {
        HasIdSnoc(open[start], t, id);
      }
      seen := seen[start := seen[start] + {t.id}];
      open := open[start := open[start] + [t]];
    }

    /** Writes the bucket the product stands at; false when the sink refuses the row. */
    method CloseNext(taken: int -> bool) returns (ok: bool)
      requires Indexed() && next.Some?
      modifies this`next, this`open, this`seen, this`rows
      ensures Indexed() && State() == CloseBucket(cfg, old(State())) && ok == taken(old(next.value))
    {
      var start := next.value;
      var b := if start in open then open[start] else [];
      open, seen := open - {start}, seen - {start};
      next := Some(start + cfg.interval);
      var row := Aggregate(start + cfg.interval, b, cfg.sort);
      rows := rows + [row];
      ok := taken(start);
    }

    method Tick(now: int, taken: int -> bool) returns (hole: Option<(int, int)>)
      requires Valid()
      modifies this
      ensures Valid() && history == old(history) + [Clock(now, taken)]
      ensures hole == Hole(cfg, old(State()), now)
    {
      ghost var was := State();
      hole := None;
      if next.None? {
        next := Some(now - now % cfg.interval + cfg.interval);
        if lostFrom.Some? {
          hole := Some((lostFrom.value, next.value));
          lostFrom := None;
        }
      } else {
        CloseUpTo(now, taken);
      }
      Took(Clock(now, taken), was);
    }

    method CloseUpTo(now: int, taken: int -> bool)
      requires Usable(cfg) && Indexed() && next.Some?
      modifies this`next, this`open, this`seen, this`rows
      ensures Indexed() && State() == CloseElapsed(cfg, old(State()), now, taken)
    {
      while next.value + cfg.interval + GRACE <= now
        invariant Indexed() && next.Some?
        invariant CloseElapsed(cfg, State(), now, taken) == CloseElapsed(cfg, old(State()), now, taken)
        decreases now - next.value
      {
        var ok := CloseNext(taken);
        if !ok {
          return;
        }
      }
    }

    method Reset(ghost now: int)
      requires Valid()
      modifies this`next, this`open, this`seen, this`lostFrom, this`history
      ensures Valid() && history == old(history) + [Reconnect(now)]
    {
      ghost var was := State();
      if next.Some? {
        lostFrom := next;
      }
      next, open, seen := None, map[], map[];
      Took(Reconnect(now), was);
    }
  }
}
