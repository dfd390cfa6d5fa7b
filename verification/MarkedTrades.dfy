/** From trades to marks (internal/ingest/trades.go into internal/ingest/marks.go): the rows one
    product's buckets close as are the rows its marks are built from, so a mark is the price of
    the trades that were delivered. */
module MarkedTrades {
  import opened Options
  import opened Decimals
  import opened Aggregates
  import B = Bucketing
  import M = MarkSampling

  // ---------------------------------------------------------------------------
  // What every row of a run is of
  // ---------------------------------------------------------------------------

  /** What has happened since the product was last admitted. */
  function Heard(cfg: B.Config, events: seq<B.Event>): seq<B.Event>
    requires B.Usable(cfg)
  {
    if events == [] then []
    else
      var n := |events| - 1;
      if events[n].Clock? && B.Run(cfg, B.NEW, events[..n]).next.None? then []
      else Heard(cfg, events[..n]) + [events[n]]
  }

  lemma DeliveredSnoc(cfg: B.Config, events: seq<B.Event>, e: B.Event, start: int)
    requires B.Usable(cfg)
    ensures B.Delivered(cfg, events + [e], start)
         == if e.Print? && B.StartOf(cfg, e.t.at) == start then B.Delivered(cfg, events, start) + [e.t]
            else B.Delivered(cfg, events, start)
  {
    assert (events + [e])[..|events|] == events;
  }

  /** Over a whole run an admitted product's buckets hold each id's first delivery since it was
      last admitted, and one not admitted holds nothing. */
  ghost predicate Holds(cfg: B.Config, q: B.Product, heard: seq<B.Event>)
    requires B.Usable(cfg)
  {
    if q.next.Some? then B.AllHeld(cfg, q, heard) else q.open == map[]
  }

  lemma ABucketTakesIt(cfg: B.Config, q: B.Product, heard: seq<B.Event>, t: Trade, start: int)
    requires B.Usable(cfg) && q.next.Some? && start >= q.next.value && B.HoldsFirsts(cfg, q, heard, start)
    ensures B.HoldsFirsts(cfg, B.Admit(cfg, q, t), heard + [B.Print(t)], start)
  {
    B.AdmitFiles(cfg, q, t, start);
    DeliveredSnoc(cfg, heard, B.Print(t), start);
    B.FirstsSnoc(B.Delivered(cfg, heard, start), t);
  }

  lemma APrintIsHeld(cfg: B.Config, q: B.Product, heard: seq<B.Event>, t: Trade)
    requires B.Usable(cfg) && q.next.Some? && B.AllHeld(cfg, q, heard)
    ensures B.AllHeld(cfg, B.Admit(cfg, q, t), heard + [B.Print(t)])
  {
    var r := B.Admit(cfg, q, t);
    forall start | start >= r.next.value
      ensures B.HoldsFirsts(cfg, r, heard + [B.Print(t)], start)
    {
      ABucketTakesIt(cfg, q, heard, t, start);
    }
  }

  lemma ATickHolds(cfg: B.Config, q: B.Product, heard: seq<B.Event>, now: int, taken: int -> bool)
    requires B.Usable(cfg) && q.next.Some? && B.AllHeld(cfg, q, heard)
    ensures B.AllHeld(cfg, B.CloseElapsed(cfg, q, now, taken), heard + [B.Clock(now, taken)])
  {
    var r := B.CloseElapsed(cfg, q, now, taken);
    B.ClosingKeepsWhole(cfg, q, now, taken);
    forall start | start >= r.next.value
      ensures B.HoldsFirsts(cfg, r, heard + [B.Clock(now, taken)], start)
    {
      assert B.HoldsFirsts(cfg, q, heard, start);
      DeliveredSnoc(cfg, heard, B.Clock(now, taken), start);
    }
  }

  lemma AdmittedHoldsNothing(cfg: B.Config, q: B.Product, now: int, taken: int -> bool)
    requires B.Usable(cfg) && q.next.None? && q.open == map[]
    ensures B.AllHeld(cfg, B.Tick(cfg, q, now, taken), [])
  {
  }

  lemma {:induction false} EveryRunHolds(cfg: B.Config, events: seq<B.Event>)
    requires B.Usable(cfg)
    ensures Holds(cfg, B.Run(cfg, B.NEW, events), Heard(cfg, events))
  {
    if events != [] {
      var n := |events| - 1;
      var q, heard := B.Run(cfg, B.NEW, events[..n]), Heard(cfg, events[..n]);
      EveryRunHolds(cfg, events[..n]);
      match events[n] {
        case Print(t) =>
          if q.next.Some? {
            APrintIsHeld(cfg, q, heard, t);
          }
        case Clock(now, taken) =>
          if q.next.Some? {
            ATickHolds(cfg, q, heard, now, taken);
          } else {
            AdmittedHoldsNothing(cfg, q, now, taken);
          }
        case Reconnect(_) =>
      }
    }
  }

  // ---------------------------------------------------------------------------
  // The minutes of a run
  // ---------------------------------------------------------------------------

  /** The bucket that ended at an instant: each id's first delivery, in time order. */
  function MinuteOf(cfg: B.Config, heard: seq<B.Event>, end: int): M.Minute
    requires B.Usable(cfg)
  {
    var trades := B.Firsts(B.Delivered(cfg, heard, end - cfg.interval));
    M.Minute(end, if trades == [] then [] else cfg.sort(trades))
  }

  function MinutesFor(cfg: B.Config, heard: seq<B.Event>, rows: seq<Row>): seq<M.Minute>
    requires B.Usable(cfg)
  {
    seq(|rows|, i requires 0 <= i < |rows| => MinuteOf(cfg, heard, rows[i].end))
  }

  /** The rows a step wrote. */
  function Added(q: B.Product, r: B.Product): seq<Row> {
    if |q.rows| <= |r.rows| then r.rows[|q.rows|..] else []
  }

  /** What was delivered, minute by minute as the buckets closed. */
  function MinutesOf(cfg: B.Config, events: seq<B.Event>): seq<M.Minute>
    requires B.Usable(cfg)
  {
    if events == [] then []
    else
      var n := |events| - 1;
      var q := B.Run(cfg, B.NEW, events[..n]);
      MinutesOf(cfg, events[..n]) + MinutesFor(cfg, Heard(cfg, events[..n]), Added(q, B.Step(cfg, q, events[n])))
  }

  predicate Written(row: Row, m: M.Minute) {
    row == RowOf(m.end, m.trades)
  }

  predicate AllWritten(rows: seq<Row>, minutes: seq<M.Minute>) {
    |rows| == |minutes| && forall i :: 0 <= i < |rows| ==> Written(rows[i], minutes[i])
  }

  lemma WrittenAppend(rows: seq<Row>, minutes: seq<M.Minute>, more: seq<Row>, later: seq<M.Minute>)
    requires AllWritten(rows, minutes) && AllWritten(more, later)
    ensures AllWritten(rows + more, minutes + later)
  {
  }

  lemma AStepOnlyAdds(cfg: B.Config, q: B.Product, e: B.Event)
    requires B.Usable(cfg)
    ensures q.rows + Added(q, B.Step(cfg, q, e)) == B.Step(cfg, q, e).rows
    ensures !(e.Clock? && q.next.Some?) ==> Added(q, B.Step(cfg, q, e)) == []
  {
    if e.Clock? && q.next.Some? {
      B.ClosingKeepsWhole(cfg, q, e.now, e.taken);
    }
  }

  lemma ARowIsItsMinute(cfg: B.Config, heard: seq<B.Event>, row: Row)
    requires B.Usable(cfg) && B.WrittenFirsts(cfg, row, heard)
    ensures Written(row, MinuteOf(cfg, heard, row.end))
  {
  }

  lemma AddedAreWritten(cfg: B.Config, q: B.Product, heard: seq<B.Event>, now: int, taken: int -> bool)
    requires B.Usable(cfg) && q.next.Some? && B.AllHeld(cfg, q, heard)
    ensures var added := Added(q, B.Tick(cfg, q, now, taken)); AllWritten(added, MinutesFor(cfg, heard, added))
  {
    var added := Added(q, B.Tick(cfg, q, now, taken));
    forall i | 0 <= i < |added|
      ensures Written(added[i], MinuteOf(cfg, heard, added[i].end))
    {
      AnAddedIsWritten(cfg, q, heard, now, taken, i);
    }
  }

  lemma AnAddedIsWritten(cfg: B.Config, q: B.Product, heard: seq<B.Event>, now: int, taken: int -> bool, i: nat)
    requires B.Usable(cfg) && q.next.Some? && B.AllHeld(cfg, q, heard) && i < |Added(q, B.Tick(cfg, q, now, taken))|
    ensures var row := Added(q, B.Tick(cfg, q, now, taken))[i]; Written(row, MinuteOf(cfg, heard, row.end))
  {
    B.WrittenAsHeld(cfg, q, heard, now, taken, |q.rows| + i);
    ARowIsItsMinute(cfg, heard, Added(q, B.Tick(cfg, q, now, taken))[i]);
  }

  /** Every row of every run, across any reconnects, is of each id's first delivery for its
      minute since the product was last admitted and before the tick that closed it. */
  lemma {:induction false} EveryRowIsItsMinute(cfg: B.Config, events: seq<B.Event>)
    requires B.Usable(cfg)
    ensures AllWritten(B.Run(cfg, B.NEW, events).rows, MinutesOf(cfg, events))
  {
    if events != [] {
      var n := |events| - 1;
      var q, heard := B.Run(cfg, B.NEW, events[..n]), Heard(cfg, events[..n]);
      var added := Added(q, B.Step(cfg, q, events[n]));
      EveryRowIsItsMinute(cfg, events[..n]);
      EveryRunHolds(cfg, events[..n]);
      AStepOnlyAdds(cfg, q, events[n]);
      if events[n].Clock? && q.next.Some? {
        AddedAreWritten(cfg, q, heard, events[n].now, events[n].taken);
      }
      WrittenAppend(q.rows, MinutesOf(cfg, events[..n]), added, MinutesFor(cfg, heard, added));
    }
  }

  // ---------------------------------------------------------------------------
  // When rows come
  // ---------------------------------------------------------------------------

  predicate OnTheMinute(t: int) {
    t % M.MINUTE == 0
  }

  predicate EndsOnTheMinute(p: B.Product) {
    (p.next.Some? ==> OnTheMinute(p.next.value)) && forall i :: 0 <= i < |p.rows| ==> OnTheMinute(p.rows[i].end)
  }

  lemma {:induction false} ClosingOnTheMinute(cfg: B.Config, p: B.Product, now: int, taken: int -> bool)
    requires cfg.interval == M.MINUTE && p.next.Some? && EndsOnTheMinute(p)
    ensures EndsOnTheMinute(B.CloseElapsed(cfg, p, now, taken))
    decreases now - p.next.value
  {
    if B.Elapsed(cfg, p.next.value, now) {
      if taken(p.next.value) {
        ClosingOnTheMinute(cfg, B.CloseBucket(cfg, p), now, taken);
      }
    }
  }

  lemma {:induction false} EveryRunEndsOnTheMinute(cfg: B.Config, p: B.Product, events: seq<B.Event>)
    requires cfg.interval == M.MINUTE && EndsOnTheMinute(p)
    ensures EndsOnTheMinute(B.Run(cfg, p, events))
  {
    if events != [] {
      var n := |events| - 1;
      var q := B.Run(cfg, p, events[..n]);
      EveryRunEndsOnTheMinute(cfg, p, events[..n]);
      if events[n].Clock? && q.next.Some? {
        ClosingOnTheMinute(cfg, q, events[n].now, events[n].taken);
      }
    }
  }

  function MarksFor(rows: seq<Row>): seq<M.BucketMark> {
    seq(|rows|, i requires 0 <= i < |rows| => M.MarkOf(rows[i]))
  }

  lemma ALaterMinute(a: int, b: int)
    requires OnTheMinute(a) && OnTheMinute(b) && a < b
    ensures a + M.MINUTE <= b
  {
  }

  /** A run's rows are a minute apart or more, across any reconnects. */
  lemma RowsAreSpaced(cfg: B.Config, events: seq<B.Event>)
    requires cfg.interval == M.MINUTE && B.ClockFrom(events, None)
    ensures M.Spaced(MarksFor(B.Run(cfg, B.NEW, events).rows))
  {
    var rows := B.Run(cfg, B.NEW, events).rows;
    B.EndsAscend(cfg, events);
    EveryRunEndsOnTheMinute(cfg, B.NEW, events);
    forall i | 0 <= i < |rows| - 1
      ensures rows[i].end + M.MINUTE <= rows[i + 1].end
    {
      ALaterMinute(rows[i].end, rows[i + 1].end);
    }
  }

  /** No row is further past a window's end than the last tick. */
  lemma NoRowIsFarAhead(cfg: B.Config, events: seq<B.Event>, end: int)
    requires B.Usable(cfg) && B.ClockFrom(events, None) && NoTickBeyond(events, end)
    ensures var rows := B.Run(cfg, B.NEW, events).rows;
            rows != [] ==> rows[|rows| - 1].end <= end + 8 * M.MINUTE
  {
    B.EveryRunIsSound(cfg, events);
  }

  /** The last tick came no more than eight minutes after an instant. A sample is of the window
      that ended less than three minutes before it is taken. */
  predicate NoTickBeyond(events: seq<B.Event>, end: int) {
    B.Latest(events).Some? ==> B.Latest(events).value <= end + 8 * M.MINUTE
  }

  // ---------------------------------------------------------------------------
  // Both at once
  // ---------------------------------------------------------------------------

  /** What happens to the two together, in any interleaving: an event of one product's trades,
      a quote, or a sample. */
  datatype Feed = Of(product: string, e: B.Event) | Quoted(name: string, at: int, mid: real) | Sampled(now: int)

  /** One product's part of a feed. */
  function TradesOf(feed: seq<Feed>, product: string): seq<B.Event> {
    if feed == [] then []
    else
      var n := |feed| - 1;
      TradesOf(feed[..n], product) + if feed[n].Of? && feed[n].product == product then [feed[n].e] else []
  }

  /** Rows as the marks are told them, in order. */
  function Telling(product: string, rows: seq<Row>): seq<M.Event> {
    seq(|rows|, i requires 0 <= i < |rows| => M.Bucket(product, rows[i]))
  }

  /** What one event tells the marks: each row as it is written, before the sink has answered. */
  function Tells(cfg: B.Config, before: seq<Feed>, f: Feed): seq<M.Event>
    requires B.Usable(cfg)
  {
    match f
    case Of(product, e) =>
      var q := B.Run(cfg, B.NEW, TradesOf(before, product));
      Telling(product, Added(q, B.Step(cfg, q, e)))
    case Quoted(name, at, mid) => [M.Quote(name, at, mid)]
    case Sampled(now) => [M.Sample(now)]
  }

  function ToMarks(cfg: B.Config, feed: seq<Feed>): seq<M.Event>
    requires B.Usable(cfg)
  {
    if feed == [] then []
    else
      var n := |feed| - 1;
      ToMarks(cfg, feed[..n]) + Tells(cfg, feed[..n], feed[n])
  }

  lemma {:induction false} RowsAppend(xs: seq<M.Event>, ys: seq<M.Event>, product: string)
    ensures M.RowsFor(xs + ys, product) == M.RowsFor(xs, product) + M.RowsFor(ys, product)
  {
    if ys == [] {
      assert xs + ys == xs;
    } else {
      var n := |ys| - 1;
      assert (xs + ys)[..|xs + ys| - 1] == xs + ys[..n];
      RowsAppend(xs, ys[..n], product);
    }
  }

  lemma {:induction false} RowsOfTelling(product: string, rows: seq<Row>, other: string)
    ensures M.RowsFor(Telling(product, rows), other) == if other == product then MarksFor(rows) else []
  {
    if rows != [] {
      var n := |rows| - 1;
      RowsOfTelling(product, rows[..n], other);
      assert Telling(product, rows)[..n] == Telling(product, rows[..n]);
      assert MarksFor(rows) == MarksFor(rows[..n]) + [M.MarkOf(rows[n])];
    }
  }

  lemma MarksForAppend(rows: seq<Row>, more: seq<Row>)
    ensures MarksFor(rows + more) == MarksFor(rows) + MarksFor(more)
  {
  }

  /** However the feed interleaves, the marks are told exactly a product's rows, in order. */
  lemma {:induction false} MarksAreToldTheRows(cfg: B.Config, feed: seq<Feed>, product: string)
    requires B.Usable(cfg)
    ensures M.RowsFor(ToMarks(cfg, feed), product) == MarksFor(B.Run(cfg, B.NEW, TradesOf(feed, product)).rows)
  {
    if feed != [] {
      var n := |feed| - 1;
      var before := TradesOf(feed[..n], product);
      MarksAreToldTheRows(cfg, feed[..n], product);
      RowsAppend(ToMarks(cfg, feed[..n]), Tells(cfg, feed[..n], feed[n]), product);
      if feed[n].Of? {
        OneMoreOf(cfg, feed[..n], feed[n], product);
      } else {
        assert TradesOf(feed, product) == before;
        QuotesAndSamplesTellNoRow(cfg, feed[..n], feed[n], product);
      }
    }
  }

  lemma QuotesAndSamplesTellNoRow(cfg: B.Config, before: seq<Feed>, f: Feed, product: string)
    requires B.Usable(cfg) && !f.Of?
    ensures M.RowsFor(Tells(cfg, before, f), product) == []
  {
  }

  lemma OneMoreOf(cfg: B.Config, before: seq<Feed>, f: Feed, product: string)
    requires B.Usable(cfg) && f.Of?
    ensures MarksFor(B.Run(cfg, B.NEW, TradesOf(before, product)).rows) + M.RowsFor(Tells(cfg, before, f), product)
         == MarksFor(B.Run(cfg, B.NEW, TradesOf(before + [f], product)).rows)
  {
    assert (before + [f])[..|before|] == before;
    var events := TradesOf(before, f.product);
    var q := B.Run(cfg, B.NEW, events);
    RowsOfTelling(f.product, Added(q, B.Step(cfg, q, f.e)), product);
    if f.product == product {
      assert (events + [f.e])[..|events|] == events;
      AStepOnlyAdds(cfg, q, f.e);
      MarksForAppend(q.rows, Added(q, B.Step(cfg, q, f.e)));
    } else {
      assert TradesOf(before + [f], product) == TradesOf(before, product);
    }
  }

  // ---------------------------------------------------------------------------
  // A mark is the price of what was delivered
  // ---------------------------------------------------------------------------

  ghost predicate Every(trades: seq<Trade>, good: Trade -> bool) {
    forall i :: 0 <= i < |trades| ==> good(trades[i])
  }

  predicate GoodPrint(e: B.Event, good: Trade -> bool) {
    e.Print? ==> good(e.t)
  }

  ghost predicate EveryPrint(events: seq<B.Event>, good: Trade -> bool) {
    forall i :: 0 <= i < |events| ==> GoodPrint(events[i], good)
  }

  lemma {:induction false} HeardIsGood(cfg: B.Config, events: seq<B.Event>, good: Trade -> bool)
    requires B.Usable(cfg) && EveryPrint(events, good)
    ensures EveryPrint(Heard(cfg, events), good)
  {
    if events != [] {
      HeardIsGood(cfg, events[..|events| - 1], good);
    }
  }

  lemma {:induction false} DeliveredIsGood(cfg: B.Config, events: seq<B.Event>, start: int, good: Trade -> bool)
    requires B.Usable(cfg) && EveryPrint(events, good)
    ensures Every(B.Delivered(cfg, events, start), good)
  {
    if events != [] {
      var n := |events| - 1;
      DeliveredIsGood(cfg, events[..n], start, good);
      assert GoodPrint(events[n], good);
    }
  }

  lemma {:induction false} FirstsAreGood(trades: seq<Trade>, good: Trade -> bool)
    requires Every(trades, good)
    ensures Every(B.Firsts(trades), good)
  {
    if trades != [] {
      FirstsAreGood(trades[..|trades| - 1], good);
    }
  }

  lemma SortedIsGood(sort: seq<Trade> -> seq<Trade>, trades: seq<Trade>, good: Trade -> bool)
    requires Sorts(sort) && Every(trades, good)
    ensures Every(sort(trades), good)
  {
    var sorted := sort(trades);
    assert multiset(sorted) == multiset(trades);
    forall i | 0 <= i < |sorted|
      ensures good(sorted[i])
    {
      var k := IsSomewhere(sorted, trades, i);
    }
  }

  lemma AMinuteIsGood(cfg: B.Config, heard: seq<B.Event>, end: int, good: Trade -> bool)
    requires B.Usable(cfg) && Sorts(cfg.sort) && EveryPrint(heard, good)
    ensures Every(MinuteOf(cfg, heard, end).trades, good)
  {
    var trades := B.Delivered(cfg, heard, end - cfg.interval);
    DeliveredIsGood(cfg, heard, end - cfg.interval, good);
    FirstsAreGood(trades, good);
    SortedIsGood(cfg.sort, B.Firsts(trades), good);
  }

  ghost predicate EveryMinute(minutes: seq<M.Minute>, good: Trade -> bool) {
    forall i :: 0 <= i < |minutes| ==> Every(minutes[i].trades, good)
  }

  lemma TheseAreGood(cfg: B.Config, heard: seq<B.Event>, rows: seq<Row>, good: Trade -> bool)
    requires B.Usable(cfg) && Sorts(cfg.sort) && EveryPrint(heard, good)
    ensures EveryMinute(MinutesFor(cfg, heard, rows), good)
  {
    forall i | 0 <= i < |rows|
      ensures Every(MinuteOf(cfg, heard, rows[i].end).trades, good)
    {
      AMinuteIsGood(cfg, heard, rows[i].end, good);
    }
  }

  lemma {:induction false} MinutesAreGood(cfg: B.Config, events: seq<B.Event>, good: Trade -> bool)
    requires B.Usable(cfg) && Sorts(cfg.sort) && EveryPrint(events, good)
    ensures EveryMinute(MinutesOf(cfg, events), good)
  {
    if events != [] {
      var n := |events| - 1;
      var q := B.Run(cfg, B.NEW, events[..n]);
      MinutesAreGood(cfg, events[..n], good);
      HeardIsGood(cfg, events[..n], good);
      TheseAreGood(cfg, Heard(cfg, events[..n]), Added(q, B.Step(cfg, q, events[n])), good);
    }
  }

  const SIZED: Trade -> bool := (t: Trade) => t.sz > 0.0
  const SIDED: Trade -> bool := (t: Trade) => !t.side.Unknown?

  lemma MarksForMinutes(rows: seq<Row>, minutes: seq<M.Minute>)
    requires AllWritten(rows, minutes)
    ensures MarksFor(rows) == M.MarksOf(minutes)
  {
  }

  /** What a product's marks have kept when a sample is taken prices the window as all of its
      minutes would. */
  lemma NothingKeptIsMissing(perp: string, spot: string, told: seq<M.Event>, product: string, rows: seq<Row>, end: int)
    requires M.RowsFor(told, product) == MarksFor(rows) && M.Spaced(MarksFor(rows))
    requires rows != [] ==> rows[|rows| - 1].end <= end + 8 * M.MINUTE
    ensures M.VwapOver(M.Get(M.Run(perp, spot, M.EMPTY, told).buckets, product), end - M.WINDOW, end)
         == M.VwapOver(MarksFor(rows), end - M.WINDOW, end)
  {
    if rows == [] {
      M.KeptAreTheLast(perp, spot, told, product);
    } else {
      M.AMarkWeighsEveryRow(perp, spot, told, product, end);
    }
  }

  /** A product's price over the window that ends at an instant, as the marks have it. */
  function VwapAt(cfg: B.Config, perp: string, spot: string, feed: seq<Feed>, product: string, end: int): Option<real>
    requires B.Usable(cfg)
  {
    M.VwapOver(M.Get(M.Run(perp, spot, M.EMPTY, ToMarks(cfg, feed)).buckets, product), end - M.WINDOW, end)
  }

  lemma AMarkIsOverItsMinutes(cfg: B.Config, perp: string, spot: string, feed: seq<Feed>, product: string, end: int,
                              events: seq<B.Event>)
    requires cfg.interval == M.MINUTE && events == TradesOf(feed, product)
    requires B.ClockFrom(events, None) && NoTickBeyond(events, end)
    ensures VwapAt(cfg, perp, spot, feed, product, end)
         == M.VwapOver(M.MarksOf(MinutesOf(cfg, events)), end - M.WINDOW, end)
  {
    var rows := B.Run(cfg, B.NEW, events).rows;
    MarksAreToldTheRows(cfg, feed, product);
    EveryRowIsItsMinute(cfg, events);
    MarksForMinutes(rows, MinutesOf(cfg, events));
    RowsAreSpaced(cfg, events);
    NoRowIsFarAhead(cfg, events, end);
    NothingKeptIsMissing(perp, spot, ToMarks(cfg, feed), product, rows, end);
  }

  lemma GoodMinutes(cfg: B.Config, events: seq<B.Event>)
    requires B.Usable(cfg) && Sorts(cfg.sort) && EveryPrint(events, SIZED) && EveryPrint(events, SIDED)
    ensures M.AllPositive(MinutesOf(cfg, events)) && M.AllKnown(MinutesOf(cfg, events))
  {
    MinutesAreGood(cfg, events, SIZED);
    MinutesAreGood(cfg, events, SIDED);
    var minutes := MinutesOf(cfg, events);
    forall i | 0 <= i < |minutes|
      ensures Positive(minutes[i].trades) && SidesKnown(minutes[i].trades)
    {
      assert Every(minutes[i].trades, SIZED) && Every(minutes[i].trades, SIDED);
    }
  }

  /** A price is that of these trades, to within a unit, and there is one when there are any. */
  ghost predicate Prices(mark: Option<real>, trades: seq<Trade>) {
    && (mark.Some? <==> trades != [])
    && (mark.Some? ==> TotalsOf(trades).volume != 0.0 && Abs(mark.value - M.ExactPrice(trades)) <= UNIT)
  }

  lemma MinutesArePriced(mark: Option<real>, minutes: seq<M.Minute>, start: int, end: int)
    requires mark == M.VwapOver(M.MarksOf(minutes), start, end) && M.AllPositive(minutes) && M.AllKnown(minutes)
    ensures Prices(mark, M.TradesIn(minutes, start, end))
  {
    M.BucketedPriceIsClose(minutes, start, end);
  }

  /** However trades, ticks, reconnects, quotes and samples interleave: under a clock that never
      goes back, a product's price over a window is within a unit of the exact price of each
      id's first delivery for its minutes, and there is one exactly when such a trade was
      delivered. */
  lemma AMarkIsThePriceOfWhatWasDelivered(cfg: B.Config, perp: string, spot: string, feed: seq<Feed>, product: string,
                                          end: int, events: seq<B.Event>)
    requires cfg.interval == M.MINUTE && Sorts(cfg.sort)
    requires events == TradesOf(feed, product) && B.ClockFrom(events, None) && NoTickBeyond(events, end)
    requires EveryPrint(events, SIZED) && EveryPrint(events, SIDED)
    ensures Prices(VwapAt(cfg, perp, spot, feed, product, end), M.TradesIn(MinutesOf(cfg, events), end - M.WINDOW, end))
  {
    AMarkIsOverItsMinutes(cfg, perp, spot, feed, product, end, events);
    GoodMinutes(cfg, events);
    MinutesArePriced(VwapAt(cfg, perp, spot, feed, product, end), MinutesOf(cfg, events), end - M.WINDOW, end);
  }

  // ---------------------------------------------------------------------------
  // The whole window is there
  // ---------------------------------------------------------------------------

  lemma {:induction false} RunOn(cfg: B.Config, p: B.Product, events: seq<B.Event>, j: nat)
    requires B.Usable(cfg) && j <= |events|
    ensures B.Run(cfg, p, events) == B.Run(cfg, B.Run(cfg, p, events[..j]), events[j..])
  {
    if j == |events| {
      assert events[..j] == events;
    } else {
      var n := |events| - 1;
      RunOn(cfg, p, events[..n], j);
      assert events[..n][..j] == events[..j];
      assert events[j..][..n - j] == events[..n][j..];
    }
  }

  /** A run of rows a minute apart has one that ends at each minute it spans. */
  lemma {:induction false} AMinuteOfTheRun(cfg: B.Config, rows: seq<Row>, n: nat, from: int, t: int) returns (k: nat)
    requires cfg.interval == M.MINUTE && n <= |rows| && B.Contiguous(cfg, rows, n, from)
    requires OnTheMinute(from) && OnTheMinute(t) && from < t <= B.Reached(rows, n, from)
    ensures n <= k < |rows| && rows[k].end == t
    decreases |rows| - n
  {
    assert n < |rows| && rows[n].end == from + M.MINUTE;
    if rows[n].end == t {
      k := n;
    } else {
      ALaterMinute(from, t);
      B.ContiguousFromNext(cfg, rows, n, from);
      k := AMinuteOfTheRun(cfg, rows, n + 1, from + M.MINUTE, t);
    }
  }

  lemma ATickPasses(cfg: B.Config, q: B.Product, now: int, taken: int -> bool, end: int)
    requires cfg.interval == M.MINUTE && q.next.Some? && EndsOnTheMinute(q) && OnTheMinute(end)
    requires (forall s :: taken(s)) && end + B.GRACE <= now
    ensures B.Tick(cfg, q, now, taken).next.Some? && end <= B.Tick(cfg, q, now, taken).next.value
  {
    B.ATickLeavesNothingElapsed(cfg, q, now, taken);
    ClosingOnTheMinute(cfg, q, now, taken);
    var next := B.Tick(cfg, q, now, taken).next.value;
    if next < end {
      ALaterMinute(next, end);
    }
  }

  /** Once a tick has come the grace after a minute's end, an admitted product whose rows are
      taken stands no earlier than that end, until a reconnect. */
  lemma AnElapsedMinuteIsPassed(cfg: B.Config, q: B.Product, events: seq<B.Event>, i: nat, end: int)
    requires cfg.interval == M.MINUTE && q.next.Some? && EndsOnTheMinute(q) && OnTheMinute(end)
    requires B.NoReconnect(events) && i < |events| && events[i].Clock?
    requires (forall s :: events[i].taken(s)) && end + B.GRACE <= events[i].now
    ensures B.Run(cfg, q, events).next.Some? && end <= B.Run(cfg, q, events).next.value
  {
    var before, after := events[..i], events[i + 1..];
    B.ContiguousBetweenReconnects(cfg, q, before);
    EveryRunEndsOnTheMinute(cfg, q, before);
    var was := B.Run(cfg, q, before);
    ATickPasses(cfg, was, events[i].now, events[i].taken, end);
    assert events[..i + 1][..i] == before;
    RunOn(cfg, q, events, i + 1);
    B.ContiguousBetweenReconnects(cfg, B.Tick(cfg, was, events[i].now, events[i].taken), after);
  }

  ghost predicate HasMinute(minutes: seq<M.Minute>, t: int) {
    exists k :: 0 <= k < |minutes| && minutes[k].end == t
  }

  lemma WrittenHasMinute(rows: seq<Row>, minutes: seq<M.Minute>, k: nat, t: int)
    requires AllWritten(rows, minutes) && k < |rows| && rows[k].end == t
    ensures HasMinute(minutes, t)
  {
    assert Written(rows[k], minutes[k]);
  }

  /** A product admitted before a window began, with no reconnect since and a tick the grace
      after its end, has every minute of the window: so the price a sample takes then is of the
      whole of it. */
  lemma TheWholeWindowIsThere(cfg: B.Config, events: seq<B.Event>, j: nat, i: nat, end: int, t: int)
    requires cfg.interval == M.MINUTE && j <= i < |events| && B.NoReconnect(events[j..])
    requires var q := B.Run(cfg, B.NEW, events[..j]); q.next.Some? && q.next.value <= end - M.WINDOW
    requires events[i].Clock? && (forall s :: events[i].taken(s)) && end + B.GRACE <= events[i].now
    requires OnTheMinute(end) && OnTheMinute(t) && end - M.WINDOW < t <= end
    ensures HasMinute(MinutesOf(cfg, events), t)
  {
    var q, since := B.Run(cfg, B.NEW, events[..j]), events[j..];
    RunOn(cfg, B.NEW, events, j);
    EveryRunEndsOnTheMinute(cfg, B.NEW, events[..j]);
    assert since[i - j] == events[i];
    var k := ARowOfTheWindow(cfg, q, since, i - j, end, t);
    EveryRowIsItsMinute(cfg, events);
    WrittenHasMinute(B.Run(cfg, q, since).rows, MinutesOf(cfg, events), k, t);
  }

  lemma ARowOfTheWindow(cfg: B.Config, q: B.Product, since: seq<B.Event>, i: nat, end: int, t: int) returns (k: nat)
    requires cfg.interval == M.MINUTE && q.next.Some? && EndsOnTheMinute(q) && q.next.value <= end - M.WINDOW
    requires B.NoReconnect(since) && i < |since| && since[i].Clock?
    requires (forall s :: since[i].taken(s)) && end + B.GRACE <= since[i].now
    requires OnTheMinute(end) && OnTheMinute(t) && end - M.WINDOW < t <= end
    ensures k < |B.Run(cfg, q, since).rows| && B.Run(cfg, q, since).rows[k].end == t
  {
    AnElapsedMinuteIsPassed(cfg, q, since, i, end);
    B.ContiguousBetweenReconnects(cfg, q, since);
    k := AMinuteOfTheRun(cfg, B.Run(cfg, q, since).rows, |q.rows|, q.next.value, t);
  }
}
