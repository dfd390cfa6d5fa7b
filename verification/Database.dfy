/** The tables the system writes to (internal/db/rows.go): natural keys, what an insert does
    when its key is taken, and why a batch may be regrouped and replayed. */
module Database {

  import opened Options

  /** A column value; NULL is distinct from every value, and equal to itself in a key. */
  datatype Cell = Null | Val(text: string)

  datatype Table =
    | VenueState | Bars | BookSnapshots | TradesAgg | BaseState | AccountState | Features
    | Products | Decisions | Positions | Fills | FundingEvents | RiskEvents | FixSessions

  /** ON CONFLICT: leave the row, replace it, or replace it but for the columns whose new
      value is NULL among those coalesced. */
  datatype Conflict = DoNothing | Overwrite | Merge(coalesced: set<nat>)

  function Width(t: Table): nat {
    match t
    case VenueState => 13 case Bars => 9 case BookSnapshots => 11 case TradesAgg => 9
    case BaseState => 6 case AccountState => 11 case Features => 39 case Products => 10
    case Decisions => 8 case Positions => 14 case Fills => 12 case FundingEvents => 10
    case RiskEvents => 5 case FixSessions => 6
  }

  /** The columns of the natural key, by position. */
  function KeyColumns(t: Table): (cols: seq<nat>)
    ensures forall i :: 0 <= i < |cols| ==> cols[i] < Width(t)
  {
    match t
    case VenueState => [1, 0] case Bars => [1, 2, 0] case BookSnapshots => [1, 0] case TradesAgg => [1, 2, 0]
    case BaseState => [0] case AccountState => [0] case Features => [1, 0] case Products => [0]
    case Decisions => [0] case Positions => [0] case Fills => [3, 10] case FundingEvents => [1, 2, 0, 5]
    case RiskEvents => [0, 1] case FixSessions => [0, 1]
  }

  function OnConflict(t: Table): Conflict {
    match t
    case Products => Overwrite
    case FixSessions => Merge({3, 4})
    case _ => DoNothing
  }

  datatype RawRow = RawRow(table: Table, values: seq<Cell>)

  type Row = r: RawRow | |r.values| == Width(r.table)
    witness RawRow(RiskEvents, [Null, Null, Null, Null, Null])

  datatype Key = Key(table: Table, cells: seq<Cell>)

  function KeyOf(r: Row): Key {
    var cols := KeyColumns(r.table);
    Key(r.table, seq(|cols|, i requires 0 <= i < |cols| => r.values[cols[i]]))
  }

  type Db = map<Key, Row>

  // ---------------------------------------------------------------------------
  // Inserts
  // ---------------------------------------------------------------------------

  /** The row a key holds after an insert lands on it. */
  function Land(prior: Option<Row>, r: Row): Row {
    match prior
    case None => r
    case Some(o) =>
      match OnConflict(r.table)
      case DoNothing => o
      case Overwrite => r
      case Merge(cols) =>
        if o.table != r.table then r
        else RawRow(r.table, seq(|r.values|, i requires 0 <= i < |r.values| =>
                                   if i in cols && r.values[i].Null? then o.values[i] else r.values[i]))
  }

  function At(db: Db, k: Key): Option<Row> {
    if k in db then Some(db[k]) else None
  }

  function ApplyRow(db: Db, r: Row): Db {
    db[KeyOf(r) := Land(At(db, KeyOf(r)), r)]
  }

  function Apply(db: Db, rows: seq<Row>): Db {
    if rows == [] then db else ApplyRow(Apply(db, rows[..|rows| - 1]), rows[|rows| - 1])
  }

  lemma {:induction false} ApplyAppend(db: Db, xs: seq<Row>, ys: seq<Row>)
    ensures Apply(db, xs + ys) == Apply(Apply(db, xs), ys)
  {
    if ys == [] {
      assert xs + ys == xs;
    } else {
      assert (xs + ys)[..|xs + ys| - 1] == xs + ys[..|ys| - 1];
      ApplyAppend(db, xs, ys[..|ys| - 1]);
    }
  }

  // ---------------------------------------------------------------------------
  // One key at a time
  // ---------------------------------------------------------------------------

  /** The rows that land on one key, in order. */
  function Only(rows: seq<Row>, k: Key): seq<Row> {
    if rows == [] then []
    else
      var n := |rows| - 1;
      if KeyOf(rows[n]) == k then Only(rows[..n], k) + [rows[n]] else Only(rows[..n], k)
  }

  lemma {:induction false} OnlyAppend(xs: seq<Row>, ys: seq<Row>, k: Key)
    ensures Only(xs + ys, k) == Only(xs, k) + Only(ys, k)
  {
    if ys == [] {
      assert xs + ys == xs;
    } else {
      var n := |ys| - 1;
      assert (xs + ys)[..|xs + ys| - 1] == xs + ys[..n];
      OnlyAppend(xs, ys[..n], k);
    }
  }

  function LandAll(prior: Option<Row>, rows: seq<Row>): Option<Row> {
    if rows == [] then prior else Some(Land(LandAll(prior, rows[..|rows| - 1]), rows[|rows| - 1]))
  }

  /** What a key holds after a batch depends on the rows for that key alone. */
  lemma {:induction false} KeysAreIndependent(db: Db, rows: seq<Row>, k: Key)
    ensures At(Apply(db, rows), k) == LandAll(At(db, k), Only(rows, k))
  {
    if rows != [] {
      var n := |rows| - 1;
      KeysAreIndependent(db, rows[..n], k);
      if KeyOf(rows[n]) == k {
        var o := Only(rows[..n], k);
        assert (o + [rows[n]])[..|o|] == o;
      }
    }
  }

  lemma SameAtEveryKey(a: Db, b: Db)
    requires forall k :: At(a, k) == At(b, k)
    ensures a == b
  {
    forall k
      ensures k in a <==> k in b
      ensures k in a ==> a[k] == b[k]
    {
      assert At(a, k) == At(b, k);
    }
  }

  /** Batches that send each key the same rows in the same order are the same batch. */
  lemma RegroupingIsInvisible(db: Db, xs: seq<Row>, ys: seq<Row>)
    requires forall k :: Only(xs, k) == Only(ys, k)
    ensures Apply(db, xs) == Apply(db, ys)
  {
    forall k
      ensures At(Apply(db, xs), k) == At(Apply(db, ys), k)
    {
      KeysAreIndependent(db, xs, k);
      KeysAreIndependent(db, ys, k);
    }
    SameAtEveryKey(Apply(db, xs), Apply(db, ys));
  }

  // ---------------------------------------------------------------------------
  // Replay
  // ---------------------------------------------------------------------------

  /** The newest value that is not NULL in one column. */
  function LastPresent(rows: seq<Row>, i: nat): Cell {
    if rows == [] then Null
    else
      var r := rows[|rows| - 1];
      if i < |r.values| && !r.values[i].Null? then r.values[i] else LastPresent(rows[..|rows| - 1], i)
  }

  predicate AllOf(rows: seq<Row>, t: Table) {
    forall j :: 0 <= j < |rows| ==> rows[j].table == t
  }

  /** What a merging table's key holds after any rows: in a coalesced column the newest value
      that is not NULL, in every other the newest row's own, NULL included. */
  lemma {:induction false} MergedColumn(prior: Option<Row>, rows: seq<Row>, t: Table, i: nat)
    requires rows != [] && AllOf(rows, t) && OnConflict(t).Merge? && i < Width(t)
             && (prior.Some? ==> prior.value.table == t)
    ensures var r := LandAll(prior, rows);
            && r.Some? && r.value.table == t
            && r.value.values[i] ==
               if i in OnConflict(t).coalesced then
                 (if !LastPresent(rows, i).Null? then LastPresent(rows, i)
                  else if prior.Some? then prior.value.values[i] else Null)
               else rows[|rows| - 1].values[i]
  {
    var n := |rows| - 1;
    if n == 0 {
      assert rows[..0] == [];
    } else {
      MergedColumn(prior, rows[..n], t, i);
    }
  }

  lemma {:induction false} UntouchedByConflict(prior: Row, rows: seq<Row>, t: Table)
    requires AllOf(rows, t) && OnConflict(t).DoNothing?
    ensures LandAll(Some(prior), rows) == Some(prior)
  {
    if rows != [] {
      UntouchedByConflict(prior, rows[..|rows| - 1], t);
    }
  }

  lemma {:induction false} TheFirstStays(rows: seq<Row>, t: Table)
    requires rows != [] && AllOf(rows, t) && OnConflict(t).DoNothing?
    ensures LandAll(None, rows) == Some(rows[0])
  {
    var n := |rows| - 1;
    if n == 0 {
      assert rows[..0] == [];
    } else {
      TheFirstStays(rows[..n], t);
    }
  }

  /** The row a key is left with: a product is as last sent; a session keeps, in its two optional
      columns, what was last known; and in every other table what came first stays. */
  predicate Kept(prior: Option<Row>, rows: seq<Row>, k: Key, r: Row)
    requires rows != []
  {
    if k.table.Products? then r == rows[|rows| - 1]
    else if k.table.FixSessions? then
      |r.values| == 6 && forall i :: 0 <= i < 6 ==> r.values[i] == Known(prior, rows, i)
    else r == if prior.Some? then prior.value else rows[0]
  }

  function Known(prior: Option<Row>, rows: seq<Row>, i: nat): Cell
    requires rows != []
  {
    if i == 3 || i == 4 then
      if !LastPresent(rows, i).Null? then LastPresent(rows, i)
      else if prior.Some? && i < |prior.value.values| then prior.value.values[i] else Null
    else if i < |rows[|rows| - 1].values| then rows[|rows| - 1].values[i] else Null
  }

  lemma AKeyKeeps(prior: Option<Row>, rows: seq<Row>, k: Key)
    requires rows != [] && AllOf(rows, k.table) && (prior.Some? ==> prior.value.table == k.table)
    ensures LandAll(prior, rows).Some? && Kept(prior, rows, k, LandAll(prior, rows).value)
  {
    match OnConflict(k.table)
    case DoNothing =>
      if prior.Some? {
        UntouchedByConflict(prior.value, rows, k.table);
      } else {
        TheFirstStays(rows, k.table);
      }
    case Overwrite =>
    case Merge(cols) =>
      LandedTable(prior, rows, k.table);
      forall i | 0 <= i < 6
        ensures LandAll(prior, rows).value.values[i] == Known(prior, rows, i)
      {
        MergedColumn(prior, rows, k.table, i);
      }
  }

  /** After any batch a key no row was sent for holds what it held, and any other is left with the
      row its table keeps of those sent. */
  lemma WhatAKeyHolds(db: Db, rows: seq<Row>, k: Key)
    requires Filed(db)
    ensures var sent, held := Only(rows, k), At(Apply(db, rows), k);
            if sent == [] then held == At(db, k) else held.Some? && Kept(At(db, k), sent, k, held.value)
  {
    KeysAreIndependent(db, rows, k);
    OnlyIsOfOneTable(rows, k);
    if Only(rows, k) != [] {
      AKeyKeeps(At(db, k), Only(rows, k), k);
    }
  }

  /** Sending a key the same rows again changes nothing, under each of the three clauses. */
  lemma ReplayAtOneKey(prior: Option<Row>, rows: seq<Row>, t: Table)
    requires AllOf(rows, t) && (prior.Some? ==> prior.value.table == t)
    ensures LandAll(LandAll(prior, rows), rows) == LandAll(prior, rows)
  {
    if rows != [] {
      var once := LandAll(prior, rows);
      match OnConflict(t)
      case DoNothing => UntouchedByConflict(once.value, rows, t);
      case Overwrite =>
      case Merge(cols) =>
        LandedTable(prior, rows, t);
        var twice := LandAll(once, rows);
        LandedTable(once, rows, t);
        forall i: nat | i < Width(t)
          ensures twice.value.values[i] == once.value.values[i]
        {
          MergedColumn(prior, rows, t, i);
          MergedColumn(once, rows, t, i);
        }
        assert twice.value.values == once.value.values;
    }
  }

  lemma {:induction false} LandedTable(prior: Option<Row>, rows: seq<Row>, t: Table)
    requires rows != [] && AllOf(rows, t) && (prior.Some? ==> prior.value.table == t)
    ensures LandAll(prior, rows).Some? && LandAll(prior, rows).value.table == t
  {
    if |rows| > 1 {
      LandedTable(prior, rows[..|rows| - 1], t);
    }
  }

  lemma {:induction false} OnlyIsOfOneTable(rows: seq<Row>, k: Key)
    ensures AllOf(Only(rows, k), k.table)
  {
    if rows != [] {
      OnlyIsOfOneTable(rows[..|rows| - 1], k);
    }
  }

  /** Every row is held under a key of its own table. */
  predicate Filed(db: Db) {
    forall k :: k in db ==> db[k].table == k.table
  }

  lemma {:induction false} ApplyKeepsFiled(db: Db, rows: seq<Row>)
    requires Filed(db)
    ensures Filed(Apply(db, rows))
  {
    if rows != [] {
      ApplyKeepsFiled(db, rows[..|rows| - 1]);
    }
  }

  /** A batch that has landed lands again as a no-op, whatever tables it spans. */
  lemma ReplayIsANoOp(db: Db, rows: seq<Row>)
    requires Filed(db)
    ensures Apply(Apply(db, rows), rows) == Apply(db, rows)
  {
    var once := Apply(db, rows);
    forall k
      ensures At(Apply(once, rows), k) == At(once, k)
    {
      KeysAreIndependent(db, rows, k);
      KeysAreIndependent(once, rows, k);
      OnlyIsOfOneTable(rows, k);
      ReplayAtOneKey(At(db, k), Only(rows, k), k.table);
    }
    SameAtEveryKey(Apply(once, rows), once);
  }

  function Repeatedly(db: Db, rows: seq<Row>, times: nat): Db {
    if times == 0 then db else Apply(Repeatedly(db, rows, times - 1), rows)
  }

  /** Any number of sends of a regrouped batch is one application of the rows as they came. */
  lemma {:induction false} AnyNumberOfSendsIsOne(db: Db, rows: seq<Row>, batch: seq<Row>, times: nat)
    requires Filed(db) && times >= 1 && forall k :: Only(batch, k) == Only(rows, k)
    ensures Repeatedly(db, batch, times) == Apply(db, rows)
  {
    RegroupingIsInvisible(db, batch, rows);
    if times > 1 {
      AnyNumberOfSendsIsOne(db, rows, batch, times - 1);
      ReplayIsANoOp(db, batch);
    }
  }

  /** Replay is not a licence to reorder: rows that land on one key of an overwriting table
      in another order leave another row. */
  lemma OrderWithinAKeyMatters(a: Row, b: Row, db: Db)
    requires a.table.Products? && b.table.Products? && KeyOf(a) == KeyOf(b) && a != b
    ensures Apply(db, [a, b]) != Apply(db, [b, a])
  {
    LastOfTwo(a, b, db);
    LastOfTwo(b, a, db);
    assert Apply(db, [a, b])[KeyOf(a)] == b;
  }

  lemma LastOfTwo(a: Row, b: Row, db: Db)
    requires b.table.Products?
    ensures KeyOf(b) in Apply(db, [a, b]) && Apply(db, [a, b])[KeyOf(b)] == b
  {
    assert [a, b][..1] == [a];
  }
}
