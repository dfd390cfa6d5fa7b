/** One product's closed candles (internal/ingest/candles.go): versions recorded as they come,
    bars written once a newer one has begun, oldest first. */
module ClosedCandles {
  import opened Options

  const INTERVAL: int := 300_000_000_000

  datatype Candle = Candle(start: int, bar: Bar)

  datatype Bar = Bar(open: real, high: real, low: real, close: real, volume: real)

  /** productCandles, the bars the sink took, and the jumps reported. */
  datatype Product = Product(pending: map<int, Bar>, newest: Option<int>, lastStart: Option<int>, seeded: bool,
                             written: seq<Candle>, jumps: seq<(int, int)>)

  const NEW := Product(map[], None, None, false, [], [])

  /** A message's candles, and which bars the sink would take. */
  datatype Message = Message(candles: seq<Candle>, taken: int -> bool)

  predicate Late(p: Product, start: int) {
    p.lastStart.Some? && start <= p.lastStart.value
  }

  function RecordOne(p: Product, c: Candle): Product {
    if Late(p, c.start) then p
    else p.(pending := p.pending[c.start := c.bar],
            newest := if p.newest.None? || c.start > p.newest.value then Some(c.start) else p.newest)
  }

  function Record(p: Product, candles: seq<Candle>): Product {
    if candles == [] then p else RecordOne(Record(p, candles[..|candles| - 1]), candles[|candles| - 1])
  }

  /** The pending starts a newer one has superseded. */
  function Due(p: Product): set<int> {
    set s | s in p.pending && p.newest.Some? && s < p.newest.value
  }

  ghost function Least(s: set<int>): (m: int)
    requires s != {}
    ensures m in s && forall x :: x in s ==> m <= x
  {
    ThereIsALeast(s);
    var m :| IsLeast(s, m);
    m
  }

  lemma SomethingIn(s: set<int>)
    requires s != {}
    ensures exists a :: a in s
  {
    assert (forall a :: a !in s) ==> s == {};
  }

  ghost predicate IsLeast(s: set<int>, m: int) {
    m in s && forall x :: x in s ==> m <= x
  }

  lemma LeastOfMore(rest: set<int>, a: int, b: int)
    requires IsLeast(rest, b)
    ensures IsLeast(rest + {a}, if a < b then a else b)
  {
  }

  lemma {:induction false} ThereIsALeast(s: set<int>)
    requires s != {}
    ensures exists m :: IsLeast(s, m)
  {
    SomethingIn(s);
    var a :| a in s;
    var rest := s - {a};
    if rest == {} {
      assert s == {a};
      assert IsLeast(s, a);
    } else {
      ThereIsALeast(rest);
      var b :| IsLeast(rest, b);
      LeastOfMore(rest, a, b);
      assert s == rest + {a};
    }
  }

  /** A bar that does not follow on from the last is reported, and written all the same. */
  function Report(p: Product, start: int): Product {
    if p.seeded && p.lastStart.Some? && start != p.lastStart.value + INTERVAL
    then p.(jumps := p.jumps + [(p.lastStart.value, start)]) else p
  }

  function Write(p: Product, start: int): Product
    requires start in p.pending
  {
    p.(pending := p.pending - {start}, lastStart := Some(start), written := p.written
       + [Candle(start, p.pending[start])])
  }

  /** Writes every closed bar, oldest first, until one is refused. */
  ghost function WriteClosed(p: Product, taken: int -> bool): Product
    decreases |p.pending|
  {
    if Due(p) == {} then p.(seeded := true)
    else
      var start := Least(Due(p));
      if !taken(start) then Report(p, start) else WriteClosed(Write(Report(p, start), start), taken)
  }

  ghost function Persist(p: Product, m: Message): Product {
    WriteClosed(Record(p, m.candles), m.taken)
  }

  ghost function Run(p: Product, messages: seq<Message>): Product {
    if messages == [] then p else Persist(Run(p, messages[..|messages| - 1]), messages[|messages| - 1])
  }

  /** Every candle delivered, in order. */
  function Delivered(messages: seq<Message>): seq<Candle> {
    if messages == [] then [] else Delivered(messages[..|messages| - 1]) + messages[|messages| - 1].candles
  }

  /** The newest version of a bar. */
  function Version(candles: seq<Candle>, start: int): Option<Bar> {
    if candles == [] then None
    else
      var n := |candles| - 1;
      if candles[n].start == start then Some(candles[n].bar) else Version(candles[..n], start)
  }

  // ---------------------------------------------------------------------------
  // The invariant
  // ---------------------------------------------------------------------------

  predicate Ascending(bars: seq<Candle>) {
    forall i, j :: 0 <= i < j < |bars| ==> bars[i].start < bars[j].start
  }

  /** What a product keeps: bars written once, in ascending start, up to the last; what waits
      is later than that, and the newest of all is among it. */
  ghost predicate Sound(p: Product) {
    && Ascending(p.written)
    && (p.lastStart.Some? <==> p.written != [])
    && (p.written != [] ==> p.lastStart == Some(p.written[|p.written| - 1].start))
    && (forall s :: s in p.pending ==> !Late(p, s))
    && (p.newest.None? <==> p.pending == map[])
    && (p.newest.Some? ==> p.newest.value in p.pending && forall s :: s in p.pending ==> s <= p.newest.value)
  }

  /** Every bar waiting is the newest version delivered. */
  ghost predicate Current(p: Product, delivered: seq<Candle>) {
    forall s :: s in p.pending ==> Version(delivered, s) == Some(p.pending[s])
  }

  lemma RecordOneKeepsSound(p: Product, c: Candle)
    requires Sound(p)
    ensures Sound(RecordOne(p, c))
  {
    if !Late(p, c.start) {
      assert c.start in RecordOne(p, c).pending;
    }
  }

  lemma RecordOneKeepsCurrent(p: Product, delivered: seq<Candle>, c: Candle)
    requires Sound(p) && Current(p, delivered)
    ensures Current(RecordOne(p, c), delivered + [c])
  {
    assert (delivered + [c])[..|delivered|] == delivered;
  }

  lemma {:induction false} RecordKeeps(p: Product, delivered: seq<Candle>, candles: seq<Candle>)
    requires Sound(p) && Current(p, delivered)
    ensures Sound(Record(p, candles)) && Current(Record(p, candles), delivered + candles)
  {
    if candles == [] {
      assert delivered + candles == delivered;
    } else {
      var n := |candles| - 1;
      RecordKeeps(p, delivered, candles[..n]);
      RecordOneKeepsSound(Record(p, candles[..n]), candles[n]);
      RecordOneKeepsCurrent(Record(p, candles[..n]), delivered + candles[..n], candles[n]);
      assert delivered + candles[..n] + [candles[n]] == delivered + candles;
    }
  }

  /** Bars added to those written, each the version that was waiting. */
  ghost predicate WroteFrom(p: Product, p': Product) {
    && p.written <= p'.written
    && (forall k :: |p.written| <= k < |p'.written| ==>
          p'.written[k].start in p.pending && p.pending[p'.written[k].start] == p'.written[k].bar)
    && (forall s :: s in p'.pending ==> s in p.pending && p.pending[s] == p'.pending[s])
    && (forall s :: s in p.pending && s !in p'.pending ==>
          exists k :: |p.written| <= k < |p'.written| && p'.written[k].start == s)
  }

  lemma TheLeastComesFirst(p: Product, s: int)
    requires Sound(p) && Due(p) != {} && s in p.pending && s != Least(Due(p))
    ensures s > Least(Due(p))
  {
    assert s in Due(p) || s == p.newest.value;
  }

  lemma WriteKeepsSound(p: Product)
    requires Sound(p) && Due(p) != {}
    ensures Sound(Write(Report(p, Least(Due(p))), Least(Due(p))))
  {
    var start := Least(Due(p));
    var p' := Write(Report(p, start), start);
    forall s | s in p'.pending
      ensures s > start
    {
      TheLeastComesFirst(p, s);
    }
    assert !Late(p, start);
    assert p.newest.value in p'.pending;
  }

  lemma WriteWrites(p: Product, start: int)
    requires start in p.pending
    ensures WroteFrom(p, Write(Report(p, start), start))
  {
    assert Write(Report(p, start), start).written[|p.written|].start == start;
  }

  lemma WriteKeeps(p: Product)
    requires Sound(p) && Due(p) != {}
    ensures var start := Least(Due(p));
            Sound(Write(Report(p, start), start)) && WroteFrom(p, Write(Report(p, start), start))
  {
    WriteKeepsSound(p);
    WriteWrites(p, Least(Due(p)));
  }

  lemma WroteThenMore(p: Product, q: Product, r: Product)
    requires WroteFrom(p, q) && WroteFrom(q, r)
    ensures WroteFrom(p, r)
  {
    forall s | s in p.pending && s !in r.pending
      ensures exists k :: |p.written| <= k < |r.written| && r.written[k].start == s
    {
      if s !in q.pending {
        var k :| |p.written| <= k < |q.written| && q.written[k].start == s;
        assert r.written[k].start == s;
      }
    }
    forall k | |p.written| <= k < |r.written|
      ensures r.written[k].start in p.pending && p.pending[r.written[k].start] == r.written[k].bar
    {
      if k < |q.written| {
        assert r.written[k] == q.written[k];
      }
    }
  }

  lemma {:induction false} WriteClosedKeeps(p: Product, taken: int -> bool)
    requires Sound(p)
    ensures Sound(WriteClosed(p, taken)) && WroteFrom(p, WriteClosed(p, taken))
    decreases |p.pending|
  {
    if Due(p) != {} {
      var start := Least(Due(p));
      if taken(start) {
        var q := Write(Report(p, start), start);
        WriteKeeps(p);
        WriteClosedKeeps(q, taken);
        WroteThenMore(p, q, WriteClosed(q, taken));
      }
    }
  }

  lemma {:induction false} EveryRunIsSound(messages: seq<Message>)
    ensures Sound(Run(NEW, messages)) && Current(Run(NEW, messages), Delivered(messages))
  {
    if messages != [] {
      var n := |messages| - 1;
      EveryRunIsSound(messages[..n]);
      var p := Run(NEW, messages[..n]);
      RecordKeeps(p, Delivered(messages[..n]), messages[n].candles);
      WriteClosedKeeps(Record(p, messages[n].candles), messages[n].taken);
    }
  }

  // ---------------------------------------------------------------------------
  // What is written
  // ---------------------------------------------------------------------------

  /** Whatever arrives, is replayed or is refused, bars are written in strictly ascending
      start, so each at most once. */
  lemma BarsAscend(messages: seq<Message>)
    ensures Ascending(Run(NEW, messages).written)
  {
    EveryRunIsSound(messages);
  }

  /** A bar is written as the newest version delivered by then. */
  lemma ABarIsItsLastVersion(messages: seq<Message>, m: Message, k: nat)
    requires |Run(NEW, messages).written| <= k < |Run(NEW, messages + [m]).written|
    ensures var c := Run(NEW, messages + [m]).written[k]; Version(Delivered(messages + [m]), c.start) == Some(c.bar)
  {
    assert (messages + [m])[..|messages|] == messages;
    EveryRunIsSound(messages);
    var p := Record(Run(NEW, messages), m.candles);
    RecordKeeps(Run(NEW, messages), Delivered(messages), m.candles);
    WriteClosedKeeps(p, m.taken);
    RecordWritesNothing(Run(NEW, messages), m.candles);
  }

  lemma {:induction false} RecordWritesNothing(p: Product, candles: seq<Candle>)
    ensures Record(p, candles).written == p.written && Record(p, candles).lastStart == p.lastStart
    ensures forall s :: s in p.pending ==> s in Record(p, candles).pending
  {
    if candles != [] {
      var n := |candles| - 1;
      RecordWritesNothing(p, candles[..n]);
      var q := Record(p, candles[..n]);
      assert Record(p, candles) == RecordOne(q, candles[n]);
      RecordOneWritesNothing(q, candles[n]);
    }
  }

  lemma RecordOneWritesNothing(p: Product, c: Candle)
    ensures RecordOne(p, c).written == p.written && RecordOne(p, c).lastStart == p.lastStart
    ensures forall s :: s in p.pending ==> s in RecordOne(p, c).pending
    ensures !Late(p, c.start) ==> c.start in RecordOne(p, c).pending
  {
  }

  lemma {:induction false} RecordTakes(p: Product, candles: seq<Candle>, i: nat)
    requires i < |candles| && !Late(p, candles[i].start)
    ensures candles[i].start in Record(p, candles).pending
  {
    var n := |candles| - 1;
    RecordWritesNothing(p, candles[..n]);
    RecordOneWritesNothing(Record(p, candles[..n]), candles[n]);
    if i < n {
      RecordTakes(p, candles[..n], i);
    }
  }

  /** A start is in hand: written, or waiting. */
  ghost predicate InHand(p: Product, start: int) {
    start in p.pending || exists k :: 0 <= k < |p.written| && p.written[k].start == start
  }

  lemma PersistKeepsInHand(p: Product, m: Message, start: int)
    requires Sound(p)
    requires InHand(p, start) || exists i :: 0 <= i < |m.candles| && m.candles[i].start == start && !Late(p, start)
    ensures InHand(Persist(p, m), start)
  {
    var q := Record(p, m.candles);
    RecordWritesNothing(p, m.candles);
    if !InHand(p, start) {
      var i :| 0 <= i < |m.candles| && m.candles[i].start == start && !Late(p, start);
      RecordTakes(p, m.candles, i);
    }
    RecordKeepsSound(p, m.candles);
    WriteClosedKeeps(q, m.taken);
    var r := WriteClosed(q, m.taken);
    if start in q.pending {
      if start !in r.pending {
        var k :| |q.written| <= k < |r.written| && r.written[k].start == start;
      }
    } else {
      var k :| 0 <= k < |p.written| && p.written[k].start == start;
      assert r.written[k] == p.written[k];
    }
  }

  lemma {:induction false} RecordKeepsSound(p: Product, candles: seq<Candle>)
    requires Sound(p)
    ensures Sound(Record(p, candles))
  {
    if candles != [] {
      var n := |candles| - 1;
      RecordKeepsSound(p, candles[..n]);
      RecordOneKeepsSound(Record(p, candles[..n]), candles[n]);
    }
  }

  lemma OneMoreMessage(messages: seq<Message>, m: Message)
    ensures Run(NEW, messages + [m]) == Persist(Run(NEW, messages), m)
  {
    assert (messages + [m])[..|messages|] == messages;
  }

  lemma TakenInHand(messages: seq<Message>, m: Message, c: Candle)
    requires c in m.candles && !Late(Run(NEW, messages), c.start)
    ensures InHand(Run(NEW, messages + [m]), c.start)
  {
    var p := Run(NEW, messages);
    EveryRunIsSound(messages);
    OneMoreMessage(messages, m);
    var i :| 0 <= i < |m.candles| && m.candles[i] == c;
    assert m.candles[i].start == c.start;
    PersistKeepsInHand(p, m, c.start);
  }

  lemma StaysInHand(messages: seq<Message>, m: Message, start: int)
    requires InHand(Run(NEW, messages), start)
    ensures InHand(Run(NEW, messages + [m]), start)
  {
    EveryRunIsSound(messages);
    OneMoreMessage(messages, m);
    PersistKeepsInHand(Run(NEW, messages), m, start);
  }

  /** A bar delivered before anything later was written is never lost: it is written, or waits
      to be, whatever comes after. */
  lemma {:induction false} NoBarIsLostUnlessLate(messages: seq<Message>, m: Message, rest: seq<Message>, c: Candle)
    requires c in m.candles && !Late(Run(NEW, messages), c.start)
    ensures InHand(Run(NEW, messages + [m] + rest), c.start)
  {
    if rest == [] {
      TakenInHand(messages, m, c);
      assert messages + [m] + rest == messages + [m];
    } else {
      var n := |rest| - 1;
      NoBarIsLostUnlessLate(messages, m, rest[..n], c);
      StaysInHand(messages + [m] + rest[..n], rest[n], c.start);
      assert messages + [m] + rest[..n] + [rest[n]] == messages + [m] + rest;
    }
  }

  lemma PersistKeepsOut(p: Product, m: Message, start: int)
    requires Sound(p) && Late(p, start) && !InHand(p, start)
    ensures Late(Persist(p, m), start) && !InHand(Persist(p, m), start)
  {
    var q := Record(p, m.candles);
    RecordWritesNothing(p, m.candles);
    RecordKeepsSound(p, m.candles);
    WriteClosedKeeps(q, m.taken);
    var r := WriteClosed(q, m.taken);
    assert Late(q, start) && start !in q.pending;
    assert p.written != [] && r.written[|p.written| - 1] == p.written[|p.written| - 1];
    forall k | 0 <= k < |r.written|
      ensures r.written[k].start != start
    {
      if k < |q.written| {
        assert r.written[k] == p.written[k];
      }
    }
  }

  lemma StaysOut(messages: seq<Message>, m: Message, start: int)
    requires Late(Run(NEW, messages), start) && !InHand(Run(NEW, messages), start)
    ensures Late(Run(NEW, messages + [m]), start) && !InHand(Run(NEW, messages + [m]), start)
  {
    EveryRunIsSound(messages);
    OneMoreMessage(messages, m);
    PersistKeepsOut(Run(NEW, messages), m, start);
  }

  /** A bar first delivered only once a later one has been written is dropped for good: that
      is the one way a delivered bar never lands. */
  lemma {:induction false} ALateBarNeverLands(messages: seq<Message>, rest: seq<Message>, start: int)
    requires Late(Run(NEW, messages), start) && !InHand(Run(NEW, messages), start)
    ensures Late(Run(NEW, messages + rest), start) && !InHand(Run(NEW, messages + rest), start)
  {
    if rest == [] {
      assert messages + rest == messages;
    } else {
      var n := |rest| - 1;
      ALateBarNeverLands(messages, rest[..n], start);
      StaysOut(messages + rest[..n], rest[n], start);
      assert messages + rest[..n] + [rest[n]] == messages + rest;
    }
  }

  lemma {:induction false} OnceInHand(messages: seq<Message>, rest: seq<Message>, start: int)
    requires InHand(Run(NEW, messages), start)
    ensures InHand(Run(NEW, messages + rest), start)
  {
    if rest == [] {
      assert messages + rest == messages;
    } else {
      var n := |rest| - 1;
      OnceInHand(messages, rest[..n], start);
      StaysInHand(messages + rest[..n], rest[n], start);
      assert messages + rest[..n] + [rest[n]] == messages + rest;
    }
  }

  /** Whatever comes after it, a bar delivered is written or waits to be exactly when nothing
      later had been written by then, or it was itself written or waiting already. */
  lemma ABarLandsExactlyWhenItIsInTime(messages: seq<Message>, m: Message, rest: seq<Message>, c: Candle)
    requires c in m.candles
    ensures InHand(Run(NEW, messages + [m] + rest), c.start)
       <==> !Late(Run(NEW, messages), c.start) || InHand(Run(NEW, messages), c.start)
  {
    assert messages + [m] + rest == messages + ([m] + rest);
    if !Late(Run(NEW, messages), c.start) {
      NoBarIsLostUnlessLate(messages, m, rest, c);
    } else if InHand(Run(NEW, messages), c.start) {
      OnceInHand(messages, [m] + rest, c.start);
    } else {
      ALateBarNeverLands(messages, [m] + rest, c.start);
    }
  }

  lemma TwoBarsRecorded(a: int, b: int, bar: Bar)
    requires a < b
    ensures Record(NEW, [Candle(a, bar), Candle(b, bar)])
            == Product(map[a := bar, b := bar], Some(b), None, false, [], [])
  {
    var candles := [Candle(a, bar), Candle(b, bar)];
    assert candles[..1] == [candles[0]] && candles[..1][..0] == [];
    assert Record(NEW, candles[..1]) == RecordOne(NEW, candles[0]);
  }

  lemma TheFirstIsWritten(p: Product, a: int, b: int, bar: Bar, taken: int -> bool)
    requires p == Product(map[a := bar, b := bar], Some(b), None, false, [], []) && a < b && taken(a)
    ensures WriteClosed(p, taken) == Product(map[b := bar], Some(b), Some(a), true, [Candle(a, bar)], [])
  {
    assert Due(p) == {a};
    var q := Write(Report(p, a), a);
    assert q.pending == map[b := bar];
    assert Due(q) == {};
  }

  /** Such a run: one message with two bars, and any start before the first is late for good. */
  lemma AStartMayBeMissed(a: int, b: int, bar: Bar, taken: int -> bool, start: int, rest: seq<Message>)
    requires start < a < b && taken(a)
    ensures var messages := [Message([Candle(a, bar), Candle(b, bar)], taken)];
            !InHand(Run(NEW, messages + rest), start)
  {
    var m := Message([Candle(a, bar), Candle(b, bar)], taken);
    TwoBarsRecorded(a, b, bar);
    TheFirstIsWritten(Record(NEW, m.candles), a, b, bar, taken);
    assert [m][..0] == [];
    ALateBarNeverLands([m], rest, start);
  }

  /** A persist stops only at a bar the sink refused, which waits with everything after it;
      one that is refused nothing leaves only the newest start waiting. */
  lemma {:induction false} WhatIsLeftWaiting(p: Product, taken: int -> bool)
    requires Sound(p)
    ensures var q := WriteClosed(p, taken);
            if Due(q) == {} then q.newest.Some? ==> q.pending.Keys == {q.newest.value}
            else !taken(Least(Due(q)))
    decreases |p.pending|
  {
    if Due(p) == {} {
      if p.newest.Some? {
        OnlyTheNewest(p);
      }
    } else {
      var start := Least(Due(p));
      if taken(start) {
        WriteKeepsSound(p);
        WhatIsLeftWaiting(Write(Report(p, start), start), taken);
      } else {
        assert Due(Report(p, start)) == Due(p);
      }
    }
  }

  lemma OnlyTheNewest(p: Product)
    requires Sound(p) && Due(p) == {} && p.newest.Some?
    ensures p.pending.Keys == {p.newest.value}
  {
    forall s | s in p.pending
      ensures s == p.newest.value
    {
      assert s !in Due(p);
    }
  }

  /** After a message the sink took every bar of, only the newest start waits. */
  lemma OnlyTheNewestWaits(messages: seq<Message>, m: Message)
    requires forall s :: m.taken(s)
    ensures var p := Run(NEW, messages + [m]);
            if p.newest.Some? then p.pending.Keys == {p.newest.value} else p.pending == map[]
  {
    assert (messages + [m])[..|messages|] == messages;
    EveryRunIsSound(messages);
    EveryRunIsSound(messages + [m]);
    RecordKeepsSound(Run(NEW, messages), m.candles);
    WhatIsLeftWaiting(Record(Run(NEW, messages), m.candles), m.taken);
  }

  // ---------------------------------------------------------------------------
  // Jumps
  // ---------------------------------------------------------------------------

  /** The bars from the n-th written on that do not follow on from the one before. */
  function JumpsFrom(written: seq<Candle>, n: nat): seq<(int, int)> {
    var k := |written| - 1;
    if k < 1 || k < n then []
    else
      JumpsFrom(written[..k], n) +
      if written[k].start != written[k - 1].start + INTERVAL then [(written[k - 1].start, written[k].start)] else []
  }

  lemma WriteReportsAJump(p: Product, start: int, n: nat)
    requires Sound(p) && p.seeded && start in p.pending && n <= |p.written| && p.jumps == JumpsFrom(p.written, n)
    ensures var q := Write(Report(p, start), start); q.jumps == JumpsFrom(q.written, n)
  {
    var q := Write(Report(p, start), start);
    assert q.written[..|p.written|] == p.written;
  }

  lemma {:induction false} ClosingReportsJumps(p: Product, taken: int -> bool, n: nat)
    requires Sound(p) && p.seeded && n <= |p.written| && p.jumps == JumpsFrom(p.written, n) && forall s :: taken(s)
    ensures var q := WriteClosed(p, taken); q.seeded && n <= |q.written| && q.jumps == JumpsFrom(q.written, n)
    decreases |p.pending|
  {
    if Due(p) != {} {
      var start := Least(Due(p));
      WriteReportsAJump(p, start, n);
      WriteKeepsSound(p);
      ClosingReportsJumps(Write(Report(p, start), start), taken, n);
    }
  }

  lemma {:induction false} TheFirstWindowIsQuiet(p: Product, taken: int -> bool)
    requires Sound(p) && !p.seeded && p.jumps == [] && forall s :: taken(s)
    ensures WriteClosed(p, taken).seeded && WriteClosed(p, taken).jumps == []
    decreases |p.pending|
  {
    if Due(p) != {} {
      WriteKeepsSound(p);
      TheFirstWindowIsQuiet(Write(Report(p, Least(Due(p))), Least(Due(p))), taken);
    }
  }

  lemma {:induction false} RecordReportsNothing(p: Product, candles: seq<Candle>)
    ensures Record(p, candles).jumps == p.jumps && Record(p, candles).seeded == p.seeded
            && Record(p, candles).written == p.written
  {
    if candles != [] {
      RecordReportsNothing(p, candles[..|candles| - 1]);
    }
  }

  lemma NothingFromTheEnd(written: seq<Candle>)
    ensures JumpsFrom(written, |written|) == []
  {
  }

  /** When the sink takes every bar, the jumps reported are exactly the bars written after the
      first message that do not start one interval after the one before them. */
  lemma {:induction false} JumpsAreReportedExactly(first: Message, rest: seq<Message>)
    requires forall s :: first.taken(s)
    requires forall i :: 0 <= i < |rest| ==> forall s :: rest[i].taken(s)
    ensures var n, p := |Run(NEW, [first]).written|, Run(NEW, [first] + rest);
            p.seeded && n <= |p.written| && p.jumps == JumpsFrom(p.written, n)
  {
    var n := |Run(NEW, [first]).written|;
    if rest == [] {
      assert [first] + rest == [] + [first];
      OneMoreMessage([], first);
      RecordKeepsSound(NEW, first.candles);
      RecordReportsNothing(NEW, first.candles);
      TheFirstWindowIsQuiet(Record(NEW, first.candles), first.taken);
      NothingFromTheEnd(Run(NEW, [first]).written);
      assert [] + [first] == [first];
    } else {
      var k := |rest| - 1;
      var before, m := [first] + rest[..k], rest[k];
      JumpsAreReportedExactly(first, rest[..k]);
      assert [first] + rest == before + [m];
      OneMoreMessage(before, m);
      EveryRunIsSound(before);
      RecordKeepsSound(Run(NEW, before), m.candles);
      RecordReportsNothing(Run(NEW, before), m.candles);
      ClosingReportsJumps(Record(Run(NEW, before), m.candles), m.taken, n);
    }
  }

  /** What a message reports when the sink may refuse: once a first message has been written out, the
      jumps among the bars now written, counted from the last before them, and that of a bar refused
      after them; before it, nothing. */
  ghost predicate Reports(p: Product, q: Product) {
    && q.seeded == (p.seeded || Due(q) == {})
    && q.jumps == if p.seeded then p.jumps + (JumpsFrom(q.written, |p.written|) + RefusedJump(q)) else p.jumps
  }

  /** The jump of the bar that was refused, if there was one. */
  ghost function RefusedJump(q: Product): seq<(int, int)> {
    if Due(q) != {} && q.lastStart.Some? && Least(Due(q)) != q.lastStart.value + INTERVAL
    then [(q.lastStart.value, Least(Due(q)))] else []
  }

  lemma {:induction false} JumpsFromLater(written: seq<Candle>, more: seq<Candle>, n: nat)
    requires n <= |written|
    ensures JumpsFrom(written + more, n) == JumpsFrom(written, n) + JumpsFrom(written + more, |written|)
  {
    if more == [] {
      assert written + more == written;
      NothingFromTheEnd(written);
    } else {
      var m := |more| - 1;
      JumpsFromLater(written, more[..m], n);
      assert (written + more)[..|written| + m] == written + more[..m];
    }
  }

  lemma Regrouped<T>(a: seq<T>, b: seq<T>, c: seq<T>, d: seq<T>)
    ensures (a + b) + (c + d) == a + ((b + c) + d)
  {
  }

  /** What a written bar reports: its jump, if it is one. */
  function ItsJump(p: Product, start: int): seq<(int, int)> {
    if p.seeded && p.lastStart.Some? && start != p.lastStart.value + INTERVAL then [(p.lastStart.value, start)] else []
  }

  lemma WrittenNext(p: Product, start: int)
    requires Sound(p) && start in p.pending
    ensures var q := Write(Report(p, start), start);
            && q.jumps == p.jumps + ItsJump(p, start) && q.seeded == p.seeded
            && q.written == p.written + [Candle(start, p.pending[start])]
            && (p.seeded ==> JumpsFrom(q.written, |p.written|) == ItsJump(p, start))
  {
    var c := Candle(start, p.pending[start]);
    assert (p.written + [c])[..|p.written|] == p.written;
    NothingFromTheEnd(p.written);
  }

  lemma JumpsAdd(before: seq<(int, int)>, mine: seq<(int, int)>, refused: seq<(int, int)>, written: seq<Candle>,
                 more: seq<Candle>, n: nat)
    requires n <= |written| && JumpsFrom(written, n) == mine
    ensures (before + mine) + (JumpsFrom(written + more, |written|) + refused)
         == before + (JumpsFrom(written + more, n) + refused)
  {
    JumpsFromLater(written, more, n);
    Regrouped(before, mine, JumpsFrom(written + more, |written|), refused);
  }

  lemma OneWrittenReports(p: Product, start: int, r: Product)
    requires Sound(p) && start in p.pending && Reports(Write(Report(p, start), start), r)
    requires Write(Report(p, start), start).written <= r.written
    ensures Reports(p, r)
  {
    var q := Write(Report(p, start), start);
    WrittenNext(p, start);
    var more := r.written[|q.written|..];
    assert r.written == q.written + more;
    if p.seeded {
      JumpsAdd(p.jumps, ItsJump(p, start), RefusedJump(r), q.written, more, |p.written|);
    }
  }

  lemma {:induction false} ClosingReports(p: Product, taken: int -> bool)
    requires Sound(p)
    ensures Reports(p, WriteClosed(p, taken))
    decreases |p.pending|
  {
    NothingFromTheEnd(p.written);
    if Due(p) != {} {
      var start := Least(Due(p));
      if taken(start) {
        var q := Write(Report(p, start), start);
        WriteKeepsSound(p);
        ClosingReports(q, taken);
        WriteClosedKeeps(q, taken);
        OneWrittenReports(p, start, WriteClosed(q, taken));
      } else {
        SameDue(p, Report(p, start));
      }
    }
  }

  lemma SameDue(p: Product, q: Product)
    requires p.pending == q.pending && p.newest == q.newest
    ensures Due(p) == Due(q)
  {
  }

  /** On every run, whatever the sink takes, this is what each message reports. */
  lemma WhatAMessageReports(messages: seq<Message>, m: Message)
    ensures Reports(Run(NEW, messages), Run(NEW, messages + [m]))
  {
    var p := Run(NEW, messages);
    assert (messages + [m])[..|messages|] == messages;
    EveryRunIsSound(messages);
    RecordKeeps(p, Delivered(messages), m.candles);
    RecordReportsNothing(p, m.candles);
    ClosingReports(Record(p, m.candles), m.taken);
  }

  // ---------------------------------------------------------------------------
  // The product as it runs
  // ---------------------------------------------------------------------------

  predicate Increasing(s: seq<int>) {
    forall i, j :: 0 <= i < j < |s| ==> s[i] < s[j]
  }

  class ProductCandles {
    var pending: map<int, Bar>
    var newest: Option<int>
    var lastStart: Option<int>
    var seeded: bool

    // The bars the sink took, the jumps reported, and every message so far.
    ghost var written: seq<Candle>
    ghost var jumps: seq<(int, int)>
    ghost var history: seq<Message>

    ghost function State(): Product
      reads this
    {
      Product(pending, newest, lastStart, seeded, written, jumps)
    }

    ghost predicate Valid()
      reads this
    {
      State() == Run(NEW, history)
    }

    constructor ()
      ensures Valid() && history == []
    {
      pending, newest, lastStart, seeded, written, jumps, history := map[], None, None, false, [], [], [];
    }

    method PersistAll(m: Message)
      requires Valid()
      modifies this
      ensures Valid() && history == old(history) + [m]
    {
      RecordAll(m.candles);
      WriteDue(m.taken);
      history := history + [m];
      assert history[..|history| - 1] == old(history);
    }

    method RecordAll(candles: seq<Candle>)
      modifies this`pending, this`newest
      ensures State() == Record(old(State()), candles)
    {
      for i := 0 to |candles|
        invariant State() == Record(old(State()), candles[..i])
      {
        assert candles[..i + 1][..i] == candles[..i];
        var c := candles[i];
        if lastStart.Some? && c.start <= lastStart.value {
          continue;
        }
        pending := pending[c.start := c.bar];
        if newest.None? || c.start > newest.value {
          newest := Some(c.start);
        }
      }
      assert candles[..|candles|] == candles;
    }

    /** The closed starts, oldest first. */
    method Closed() returns (starts: seq<int>)
      ensures Increasing(starts) && forall s :: s in starts <==> s in Due(State())
    {
      starts := [];
      var keys := pending.Keys;
      while keys != {}
        invariant keys <= pending.Keys
        invariant Increasing(starts)
        invariant forall s :: s in starts <==> s in Due(State()) && s !in keys
        decreases |keys|
      {
        SomethingIn(keys);
        var start :| start in keys;
        keys := keys - {start};
        if newest.Some? && start < newest.value {
          starts := Inserted(starts, start);
        }
      }
    }

    method WriteOne(start: int, taken: int -> bool) returns (ok: bool)
      requires start in pending
      modifies this`pending, this`lastStart, this`written, this`jumps
      ensures ok == taken(start)
      ensures State() == if ok then Write(Report(old(State()), start), start) else Report(old(State()), start)
    {
      if seeded && lastStart.Some? && start != lastStart.value + INTERVAL {
        jumps := jumps + [(lastStart.value, start)];
      }
      if !taken(start) {
        return false;
      }
      written := written + [Candle(start, pending[start])];
      pending := pending - {start};
      lastStart := Some(start);
      ok := true;
    }

    method WriteDue(taken: int -> bool)
      modifies this`pending, this`lastStart, this`seeded, this`written, this`jumps
      ensures State() == WriteClosed(old(State()), taken)
    {
      var starts := Closed();
      for i := 0 to |starts|
        invariant WriteClosed(State(), taken) == WriteClosed(old(State()), taken)
        invariant forall s :: s in starts[i..] <==> s in Due(State())
      {
        var start := starts[i];
        assert start in starts[i..];
        assert Least(Due(State())) == start;
        ghost var was := State();
        DueAfter(was, start);
        var ok := WriteOne(start, taken);
        if !ok {
          return;
        }
        TheRest(starts, i);
      }
      assert Due(State()) == {};
      seeded := true;
    }
  }

  lemma DueAfter(p: Product, start: int)
    requires start in Due(p)
    ensures Due(Write(Report(p, start), start)) == Due(p) - {start}
  {
  }

  lemma TheRest(starts: seq<int>, i: nat)
    requires i < |starts| && Increasing(starts)
    ensures forall s :: s in starts[i + 1..] <==> s in starts[i..] && s != starts[i]
  {
  }

  method Inserted(s: seq<int>, x: int) returns (r: seq<int>)
    requires Increasing(s) && x !in s
    ensures Increasing(r) && forall y :: y in r <==> y in s || y == x
  {
    var i := 0;
    while i < |s| && s[i] < x
      invariant 0 <= i <= |s| && forall j :: 0 <= j < i ==> s[j] < x
    {
      i := i + 1;
    }
    r := s[..i] + [x] + s[i..];
  }
}
