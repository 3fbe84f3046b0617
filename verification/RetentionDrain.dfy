/**
 * What repeated sweeps of all tables achieve at a fixed clock.
 *
 * Payment events hold on to the invoices they refer to, and a sweep deletes invoices first. So a
 * sweep that meets a referenced invoice is refused, and so is every later one. This module says
 * exactly when the eligible rows drain away.
 */
module RetentionDrain {
  import opened Basics
  import opened Retention
  import opened RetentionSweep

  const ALL_TABLES: seq<Table> := [Invoices, Transactions, PaymentEvents, Jobs]

  // ---------- Dropping the first rows of a kind ----------

  /** The rows without the first `k` of those that satisfy `p`. */
  function DropFirst(p: Row -> bool, rows: seq<Row>, k: nat): seq<Row> {
    if rows == [] || k == 0 then rows
    else if p(rows[0]) then DropFirst(p, rows[1..], k - 1)
    else [rows[0]] + DropFirst(p, rows[1..], k)
  }

  function RowIds(rows: seq<Row>): set<string> {
    set i | 0 <= i < |rows| :: rows[i].id
  }

  function First(p: Row -> bool, rows: seq<Row>, k: nat): seq<Row> {
    SliceTo(Filter(p, rows), k)
  }

  lemma FirstInside(p: Row -> bool, rows: seq<Row>, k: nat)
    ensures forall r :: r in First(p, rows, k) ==> r in rows && p(r)
  {
    FilterIn(p, rows);
  }

  /** Deleting the first `k` by their ids. */
  lemma {:induction false} DeleteFirst(p: Row -> bool, rows: seq<Row>, k: nat)
    requires Unique(rows)
    ensures Filter(NotIn(RowIds(First(p, rows, k))), rows) == DropFirst(p, rows, k)
    decreases |rows|
  {
    if rows == [] || k == 0 {
      FilterAll(NotIn(RowIds(First(p, rows, k))), rows);
    } else if p(rows[0]) {
      DeleteFirst(p, rows[1..], k - 1);
      DeleteHead(p, rows, k);
    } else {
      DeleteFirst(p, rows[1..], k);
      HeadNotFirst(p, rows, k);
    }
  }

  lemma DeleteHead(p: Row -> bool, rows: seq<Row>, k: nat)
    requires Unique(rows) && rows != [] && k > 0 && p(rows[0])
    ensures Filter(NotIn(RowIds(First(p, rows, k))), rows) == Filter(NotIn(RowIds(First(p, rows[1..], k - 1))), rows[1..])
  {
    var ids, ids' := RowIds(First(p, rows, k)), RowIds(First(p, rows[1..], k - 1));
    FirstMore(p, rows, k);
    FilterSame(NotIn(ids), NotIn(ids'), rows[1..]);
  }

  lemma FirstMore(p: Row -> bool, rows: seq<Row>, k: nat)
    requires rows != [] && k > 0 && p(rows[0])
    ensures RowIds(First(p, rows, k)) == RowIds(First(p, rows[1..], k - 1)) + {rows[0].id}
  {
    var a, b := First(p, rows, k), First(p, rows[1..], k - 1);
    assert a == [rows[0]] + b;
    forall id ensures id in RowIds(a) <==> id in RowIds(b) + {rows[0].id} {
      if id in RowIds(b) {
        var i :| 0 <= i < |b| && b[i].id == id;
        assert a[i + 1].id == id;
      }
      assert a[0].id == rows[0].id;
    }
  }

  lemma HeadNotFirst(p: Row -> bool, rows: seq<Row>, k: nat)
    requires Unique(rows) && rows != [] && !p(rows[0])
    ensures rows[0].id !in RowIds(First(p, rows, k))
  {
    var first := First(p, rows[1..], k);
    FirstInside(p, rows[1..], k);
    forall i | 0 <= i < |first| ensures first[i].id != rows[0].id {
      assert first[i] in first;
    }
  }

  /** What is left of the kind is the rest of their list. */
  lemma {:induction false} DropFirstLeaves(p: Row -> bool, rows: seq<Row>, k: nat)
    ensures Filter(p, DropFirst(p, rows, k)) == (if k <= |Filter(p, rows)| then Filter(p, rows)[k..] else [])
    ensures forall r :: r in rows && !p(r) ==> r in DropFirst(p, rows, k)
    ensures forall r :: r in DropFirst(p, rows, k) ==> r in rows
    decreases |rows|
  {
    if rows != [] && k > 0 {
      DropFirstLeaves(p, rows[1..], if p(rows[0]) then k - 1 else k);
      assert rows == [rows[0]] + rows[1..];
    }
  }

  lemma {:induction false} DropFirstTwice(p: Row -> bool, rows: seq<Row>, k: nat, m: nat)
    ensures DropFirst(p, DropFirst(p, rows, k), m) == DropFirst(p, rows, k + m)
    decreases |rows|
  {
    if rows != [] && k > 0 {
      DropFirstTwice(p, rows[1..], if p(rows[0]) then k - 1 else k, m);
    }
  }

  lemma DropFirstUnique(p: Row -> bool, rows: seq<Row>, k: nat)
    requires Unique(rows)
    ensures Unique(DropFirst(p, rows, k))
  {
    DeleteFirst(p, rows, k);
    FilterUnique(NotIn(RowIds(First(p, rows, k))), rows);
  }

  /** A row goes exactly if it is among the first `k` of the kind. */
  lemma DropFirstMember(p: Row -> bool, rows: seq<Row>, k: nat, r: Row)
    requires Unique(rows) && r in rows
    ensures r in DropFirst(p, rows, k) <==> r !in First(p, rows, k)
  {
    var first := First(p, rows, k);
    DeleteFirst(p, rows, k);
    FilterIn(NotIn(RowIds(first)), rows);
    FirstInside(p, rows, k);
    if r.id in RowIds(first) {
      var i :| 0 <= i < |first| && first[i].id == r.id;
      assert first[i] in first;
    }
  }

  // ---------- One sweep of all tables ----------

  /** Eligible, given the settlement links. */
  function Goes(t: Table, links: set<string>, now: int): Row -> bool {
    (r: Row) => Classify(Record(t, r, r.id in links), now).Eligible?
  }

  /** Every table without the first `k` of its eligible rows. */
  function Dropped(db: Database, links: set<string>, now: int, k: nat): Database {
    db.(invoices := DropFirst(Goes(Invoices, links, now), db.invoices, k),
        events := DropFirst(Goes(PaymentEvents, links, now), db.events, k),
        jobs := DropFirst(Goes(Jobs, links, now), db.jobs, k))
  }

  function EligibleRows(db: Database, t: Table, now: int): seq<Row> {
    Filter(Goes(t, Links(db), now), Rows(db, t))
  }

  lemma PlannedRows(db: Database, t: Table, now: int)
    ensures Filter(EligibleAt(now), Map(Loaded(t, Links(db)), Rows(db, t))) == Map(Loaded(t, Links(db)), EligibleRows(db, t, now))
  {
    FilterMap(EligibleAt(now), Loaded(t, Links(db)), Goes(t, Links(db), now), Rows(db, t));
  }

  lemma NoEligibleTransactions(db: Database, now: int)
    ensures EligibleRows(db, Transactions, now) == []
  {
    FilterNone(Goes(Transactions, Links(db), now), db.transactions);
  }

  function PlannedOf(db: Database, t: Table, now: int): seq<Record> {
    Map(Loaded(t, Links(db)), EligibleRows(db, t, now))
  }

  lemma PlannedAll(db: Database, now: int)
    ensures Planned(db, ALL_TABLES, now) == PlannedOf(db, Invoices, now) + PlannedOf(db, PaymentEvents, now) + PlannedOf(db, Jobs, now)
  {
    var links, p := Links(db), EligibleAt(now);
    var a, b, c, d := Map(Loaded(Invoices, links), db.invoices), Map(Loaded(Transactions, links), db.transactions),
      Map(Loaded(PaymentEvents, links), db.events), Map(Loaded(Jobs, links), db.jobs);
    LoadAll(db, links);
    FilterAppend(p, a, b + (c + d));
    FilterAppend(p, b, c + d);
    FilterAppend(p, c, d);
    PlannedRows(db, Invoices, now);
    PlannedRows(db, Transactions, now);
    PlannedRows(db, PaymentEvents, now);
    PlannedRows(db, Jobs, now);
    NoEligibleTransactions(db, now);
  }

  lemma LoadAll(db: Database, links: set<string>)
    ensures Load(db, ALL_TABLES, links) ==
      Map(Loaded(Invoices, links), db.invoices) + (Map(Loaded(Transactions, links), db.transactions) +
        (Map(Loaded(PaymentEvents, links), db.events) + Map(Loaded(Jobs, links), db.jobs)))
  {
    assert ALL_TABLES[1..] == [Transactions, PaymentEvents, Jobs];
    assert [Transactions, PaymentEvents, Jobs][1..] == [PaymentEvents, Jobs];
    assert [PaymentEvents, Jobs][1..] == [Jobs];
    assert [Jobs][1..] == [];
    assert Load(db, [], links) == [];
    assert Load(db, [Jobs], links) == Map(Loaded(Jobs, links), db.jobs);
    assert Load(db, [PaymentEvents, Jobs], links) == Map(Loaded(PaymentEvents, links), db.events) + Map(Loaded(Jobs, links), db.jobs);
  }

  /** Only records of one table. */
  ghost predicate Only(records: seq<Record>, t: Table) {
    forall r :: r in records ==> r.table == t
  }

  lemma PlannedOnly(db: Database, t: Table, now: int)
    ensures Only(PlannedOf(db, t, now), t)
  {
    var rows := EligibleRows(db, t, now);
    forall r | r in PlannedOf(db, t, now) ensures r.table == t {
      var k :| 0 <= k < |rows| && PlannedOf(db, t, now)[k] == r;
      assert r == Loaded(t, Links(db))(rows[k]);
    }
  }

  lemma {:induction false} FirstSeenIn(records: seq<Record>, t: Table)
    requires forall r :: r in records ==> r.table != t
    ensures t !in FirstSeen(records)
  {
    if records != [] { FirstSeenIn(records[..|records| - 1], t); }
  }

  lemma {:induction false} FirstSeenAppend(a: seq<Record>, b: seq<Record>, t: Table)
    requires Only(b, t) && forall r :: r in a ==> r.table != t
    ensures FirstSeen(a + b) == FirstSeen(a) + if b == [] then [] else [t]
    decreases |b|
  {
    if b == [] {
      assert a + b == a;
    } else {
      var n := |b| - 1;
      assert (a + b)[..|a + b| - 1] == a + b[..n];
      FirstSeenAppend(a, b[..n], t);
      FirstSeenIn(a, t);
      assert (a + b)[|a + b| - 1] == b[n];
    }
  }

  lemma FirstSeenThree(a: seq<Record>, c: seq<Record>, d: seq<Record>)
    requires Only(a, Invoices) && Only(c, PaymentEvents) && Only(d, Jobs)
    ensures FirstSeen(a + c + d) ==
      (if a == [] then [] else [Invoices]) + (if c == [] then [] else [PaymentEvents]) + (if d == [] then [] else [Jobs])
  {
    FirstSeenAppend([], a, Invoices);
    assert [] + a == a;
    FirstSeenAppend(a, c, PaymentEvents);
    FirstSeenAppend(a + c, d, Jobs);
  }

  lemma BatchThree(a: seq<Record>, c: seq<Record>, d: seq<Record>)
    requires Only(a, Invoices) && Only(c, PaymentEvents) && Only(d, Jobs)
    ensures Filter(OfTable(Invoices), a + c + d) == a
    ensures Filter(OfTable(PaymentEvents), a + c + d) == c
    ensures Filter(OfTable(Jobs), a + c + d) == d
  {
    FilterBlocks(Invoices, a, c, d);
    FilterBlocks(PaymentEvents, a, c, d);
    FilterBlocks(Jobs, a, c, d);
    KeepsOrNone(a, Invoices, Invoices);
    KeepsOrNone(c, PaymentEvents, Invoices);
    KeepsOrNone(d, Jobs, Invoices);
    KeepsOrNone(a, Invoices, PaymentEvents);
    KeepsOrNone(c, PaymentEvents, PaymentEvents);
    KeepsOrNone(d, Jobs, PaymentEvents);
    KeepsOrNone(a, Invoices, Jobs);
    KeepsOrNone(c, PaymentEvents, Jobs);
    KeepsOrNone(d, Jobs, Jobs);
  }

  lemma FilterBlocks(t: Table, a: seq<Record>, c: seq<Record>, d: seq<Record>)
    ensures Filter(OfTable(t), a + c + d) == Filter(OfTable(t), a) + Filter(OfTable(t), c) + Filter(OfTable(t), d)
  {
    FilterAppend(OfTable(t), a + c, d);
    FilterAppend(OfTable(t), a, c);
  }

  lemma KeepsOrNone(records: seq<Record>, t: Table, u: Table)
    requires Only(records, t)
    ensures Filter(OfTable(u), records) == if t == u then records else []
  {
    if t == u { FilterAll(OfTable(u), records); } else { FilterNone(OfTable(u), records); }
  }

  /** A statement without ids changes nothing. */
  lemma DeleteNothing(db: Database, t: Table)
    ensures Delete(db, t, {}) == Some(db)
  {
    FilterAll(NotIn({}), Rows(db, t));
    assert t == Invoices ==> Map(Unlinked({}), db.transactions) == db.transactions;
  }

  lemma {:induction false} SkipEmpty(db: Database, x: seq<Table>, t: Table, y: seq<Table>, eligible: seq<Record>, batchSize: nat)
    requires Filter(OfTable(t), eligible) == []
    ensures DeleteAll(db, x + [t] + y, eligible, batchSize) == DeleteAll(db, x + y, eligible, batchSize)
    decreases |x|
  {
    if x == [] {
      assert x + [t] + y == [t] + y && ([t] + y)[1..] == y && x + y == y;
      assert IdsOf(Batch(eligible, t, batchSize)) == {};
      DeleteNothing(db, t);
    } else {
      assert (x + [t] + y)[1..] == x[1..] + [t] + y && (x + y)[1..] == x[1..] + y;
      var next := Delete(db, x[0], IdsOf(Batch(eligible, x[0], batchSize)));
      if next.Some? { SkipEmpty(next.value, x[1..], t, y, eligible, batchSize); }
    }
  }

  /** The tables without eligible rows make no difference. */
  lemma SweepOrder(db: Database, a: seq<Record>, c: seq<Record>, d: seq<Record>, batchSize: nat)
    requires Only(a, Invoices) && Only(c, PaymentEvents) && Only(d, Jobs)
    ensures DeleteAll(db, FirstSeen(a + c + d), a + c + d, batchSize) == DeleteAll(db, [Invoices, PaymentEvents, Jobs], a + c + d, batchSize)
  {
    FirstSeenThree(a, c, d);
    BatchThree(a, c, d);
    var x, y := if a == [] then [] else [Invoices], if c == [] then [] else [PaymentEvents];
    if a == [] {
      SkipEmpty(db, [], Invoices, [PaymentEvents, Jobs], a + c + d, batchSize);
      assert [] + [Invoices] + [PaymentEvents, Jobs] == [Invoices, PaymentEvents, Jobs];
      assert [] + [PaymentEvents, Jobs] == x + [PaymentEvents, Jobs];
    } else {
      assert x + [PaymentEvents, Jobs] == [Invoices, PaymentEvents, Jobs];
    }
    if c == [] {
      SkipEmpty(db, x, PaymentEvents, [Jobs], a + c + d, batchSize);
      assert x + [PaymentEvents] + [Jobs] == x + [PaymentEvents, Jobs] && x + [Jobs] == x + y + [Jobs];
    } else {
      assert x + [PaymentEvents, Jobs] == x + y + [Jobs];
    }
    if d == [] {
      SkipEmpty(db, x + y, Jobs, [], a + c + d, batchSize);
      assert x + y + [Jobs] + [] == x + y + [Jobs] && x + y + [] == x + y;
    }
  }

  lemma BatchIds(db: Database, t: Table, now: int, batchSize: nat)
    ensures IdsOf(SliceTo(PlannedOf(db, t, now), batchSize)) == RowIds(SliceTo(EligibleRows(db, t, now), batchSize))
  {
    var records, rows := SliceTo(PlannedOf(db, t, now), batchSize), SliceTo(EligibleRows(db, t, now), batchSize);
    assert |records| == |rows| && forall k :: 0 <= k < |rows| ==> records[k].row == rows[k];
    forall id ensures id in IdsOf(records) <==> id in RowIds(rows) {
      if id in IdsOf(records) {
        var k :| 0 <= k < |records| && records[k].row.id == id;
        assert rows[k].id == id;
      }
      if id in RowIds(rows) {
        var k :| 0 <= k < |rows| && rows[k].id == id;
        assert records[k].row.id == id;
      }
    }
  }

  /** The ids of the invoices the next sweep tries to delete. */
  function NextInvoices(db: Database, now: int, batchSize: nat): set<string> {
    RowIds(First(Goes(Invoices, Links(db), now), db.invoices, batchSize))
  }

  /** A payment event refers to one of them. */
  predicate Blocked(db: Database, now: int, batchSize: nat) {
    Referenced(db, NextInvoices(db, now, batchSize))
  }

  lemma DeleteThree(db: Database, now: int, batchSize: nat, eligible: seq<Record>)
    requires Keyed(db)
    requires eligible == PlannedOf(db, Invoices, now) + PlannedOf(db, PaymentEvents, now) + PlannedOf(db, Jobs, now)
    requires Map(Unlinked(NextInvoices(db, now, batchSize)), db.transactions) == db.transactions
    ensures var o := DeleteAll(db, [Invoices, PaymentEvents, Jobs], eligible, batchSize);
      && o.ok == !Blocked(db, now, batchSize)
      && o.db == if Blocked(db, now, batchSize) then db else Dropped(db, Links(db), now, batchSize)
  {
    var links := Links(db);
    BatchesOf(db, now, batchSize, eligible);
    if !Blocked(db, now, batchSize) {
      assert Unique(Rows(db, Invoices)) && Unique(Rows(db, PaymentEvents)) && Unique(Rows(db, Jobs));
      DeleteFirst(Goes(Invoices, links, now), db.invoices, batchSize);
      DeleteFirst(Goes(PaymentEvents, links, now), db.events, batchSize);
      DeleteFirst(Goes(Jobs, links, now), db.jobs, batchSize);
    }
    Unfold(db, eligible, batchSize);
  }

  lemma BatchesOf(db: Database, now: int, batchSize: nat, eligible: seq<Record>)
    requires eligible == PlannedOf(db, Invoices, now) + PlannedOf(db, PaymentEvents, now) + PlannedOf(db, Jobs, now)
    ensures IdsOf(Batch(eligible, Invoices, batchSize)) == NextInvoices(db, now, batchSize)
    ensures IdsOf(Batch(eligible, PaymentEvents, batchSize)) == RowIds(First(Goes(PaymentEvents, Links(db), now), db.events, batchSize))
    ensures IdsOf(Batch(eligible, Jobs, batchSize)) == RowIds(First(Goes(Jobs, Links(db), now), db.jobs, batchSize))
  {
    PlannedOnly(db, Invoices, now);
    PlannedOnly(db, PaymentEvents, now);
    PlannedOnly(db, Jobs, now);
    BatchThree(PlannedOf(db, Invoices, now), PlannedOf(db, PaymentEvents, now), PlannedOf(db, Jobs, now));
    BatchIds(db, Invoices, now, batchSize);
    BatchIds(db, PaymentEvents, now, batchSize);
    BatchIds(db, Jobs, now, batchSize);
  }

  /** Three statements, of which only the first can be refused. */
  lemma Unfold(db: Database, eligible: seq<Record>, batchSize: nat)
    ensures var o := DeleteAll(db, [Invoices, PaymentEvents, Jobs], eligible, batchSize);
      var first := Delete(db, Invoices, IdsOf(Batch(eligible, Invoices, batchSize)));
      if first.None? then o.db == db && !o.ok
      else
        o.ok && o.db == first.value.(
          events := Filter(NotIn(IdsOf(Batch(eligible, PaymentEvents, batchSize))), first.value.events),
          jobs := Filter(NotIn(IdsOf(Batch(eligible, Jobs, batchSize))), first.value.jobs))
  {
    assert [Invoices, PaymentEvents, Jobs][1..] == [PaymentEvents, Jobs] && [PaymentEvents, Jobs][1..] == [Jobs] && [Jobs][1..] == [];
  }

  /** A sweep of all tables drops one batch of every table, or is refused and changes nothing. */
  lemma SweepOnce(db: Database, now: int, batchSize: nat)
    requires Keyed(db)
    ensures var o := Sweep(db, ALL_TABLES, now, batchSize, false);
      && o.ok == !Blocked(db, now, batchSize)
      && o.db == if Blocked(db, now, batchSize) then db else Dropped(db, Links(db), now, batchSize)
  {
    var a, c, d := PlannedOf(db, Invoices, now), PlannedOf(db, PaymentEvents, now), PlannedOf(db, Jobs, now);
    PlannedAll(db, now);
    PlannedOnly(db, Invoices, now);
    PlannedOnly(db, PaymentEvents, now);
    PlannedOnly(db, Jobs, now);
    SweepOrder(db, a, c, d, batchSize);
    InvoiceBatchIsHarmless(db, ALL_TABLES, now, batchSize);
    BatchesOf(db, now, batchSize, a + c + d);
    NoReferenceCleared(db, db.transactions, NextInvoices(db, now, batchSize));
    DeleteThree(db, now, batchSize, a + c + d);
  }

  // ---------- Many sweeps ----------

  lemma LinkMember(db: Database, id: string)
    ensures id in Links(db) <==> exists r :: r in db.invoices && r.id == id && Settled(db, r)
  {
    if id in Links(db) {
      var k :| 0 <= k < |db.invoices| && Settled(db, db.invoices[k]) && db.invoices[k].id == id;
      assert db.invoices[k] in db.invoices;
    }
    if r :| r in db.invoices && r.id == id && Settled(db, r) {
      var k :| 0 <= k < |db.invoices| && db.invoices[k] == r;
      assert Settled(db, db.invoices[k]);
    }
  }

  lemma SettledStays(db: Database, db': Database, links: set<string>, now: int, r: Row)
    requires db'.transactions == db.transactions && r in db.invoices && links == Links(db)
    ensures Settled(db', r) <==> Settled(db, r)
    ensures Settled(db, r) ==> !Goes(Invoices, links, now)(r)
  {
    if Settled(db, r) { LinkMember(db, r.id); }
  }

  /** Dropping eligible rows leaves the settlement links alone. */
  lemma LinksStay(db: Database, now: int, k: nat)
    ensures Links(Dropped(db, Links(db), now, k)) == Links(db)
  {
    var links := Links(db);
    var db' := Dropped(db, links, now, k);
    DropFirstLeaves(Goes(Invoices, links, now), db.invoices, k);
    forall id ensures id in Links(db') <==> id in links {
      LinkMember(db, id);
      LinkMember(db', id);
      forall r | r in db.invoices ensures (Settled(db', r) <==> Settled(db, r)) && (Settled(db, r) ==> !Goes(Invoices, links, now)(r)) {
        SettledStays(db, db', links, now, r);
      }
    }
  }

  lemma DroppedKeyed(db: Database, links: set<string>, now: int, k: nat)
    requires Keyed(db)
    ensures Keyed(Dropped(db, links, now, k))
  {
    assert Unique(Rows(db, Invoices)) && Unique(Rows(db, Transactions)) && Unique(Rows(db, PaymentEvents)) && Unique(Rows(db, Jobs));
    DropFirstUnique(Goes(Invoices, links, now), db.invoices, k);
    DropFirstUnique(Goes(PaymentEvents, links, now), db.events, k);
    DropFirstUnique(Goes(Jobs, links, now), db.jobs, k);
  }

  lemma DroppedTwice(db: Database, links: set<string>, now: int, k: nat, m: nat)
    ensures Dropped(Dropped(db, links, now, k), links, now, m) == Dropped(db, links, now, k + m)
  {
    DropFirstTwice(Goes(Invoices, links, now), db.invoices, k, m);
    DropFirstTwice(Goes(PaymentEvents, links, now), db.events, k, m);
    DropFirstTwice(Goes(Jobs, links, now), db.jobs, k, m);
  }

  /** The database without the first `k` eligible rows of each table. */
  function Left(db: Database, now: int, k: nat): Database {
    Dropped(db, Links(db), now, k)
  }

  function OneSweep(now: int, batchSize: nat): Database -> Database {
    (db: Database) => Sweep(db, ALL_TABLES, now, batchSize, false).db
  }

  function Iterate(f: Database -> Database, db: Database, n: nat): Database {
    if n == 0 then db else f(Iterate(f, db, n - 1))
  }

  /** The database after `n` sweeps of all tables at one instant. */
  function Repeated(db: Database, now: int, batchSize: nat, n: nat): Database {
    Iterate(OneSweep(now, batchSize), db, n)
  }

  lemma NextSweep(db: Database, now: int, batchSize: nat, k: nat)
    requires Keyed(db)
    ensures OneSweep(now, batchSize)(Left(db, now, k)) ==
      if Blocked(Left(db, now, k), now, batchSize) then Left(db, now, k) else Left(db, now, k + batchSize)
  {
    DroppedKeyed(db, Links(db), now, k);
    SweepOnce(Left(db, now, k), now, batchSize);
    LinksStay(db, now, k);
    DroppedTwice(db, Links(db), now, k, batchSize);
  }

  lemma LeftNone(db: Database, now: int)
    ensures Left(db, now, 0) == db
  {
  }

  /** How many rows of a table `n` unblocked sweeps have taken. */
  function Taken(batchSize: nat, n: nat): nat {
    if n == 0 then 0 else Taken(batchSize, n - 1) + batchSize
  }

  /** The sweep that comes when `k` rows of each table are gone finds an event in its way. */
  predicate Stuck(db: Database, now: int, batchSize: nat, k: nat) {
    Blocked(Left(db, now, k), now, batchSize)
  }

  /** A step moves on by one batch, or stays where it is when it is refused. */
  ghost predicate Steps(f: Database -> Database, db: Database, now: int, batchSize: nat) {
    forall k: nat {:trigger f(Left(db, now, k))} ::
      f(Left(db, now, k)) == if Stuck(db, now, batchSize, k) then Left(db, now, k) else Left(db, now, k + batchSize)
  }

  lemma SweepsStep(db: Database, now: int, batchSize: nat)
    requires Keyed(db)
    ensures Steps(OneSweep(now, batchSize), db, now, batchSize)
  {
    forall k: nat {:trigger OneSweep(now, batchSize)(Left(db, now, k))}
      ensures OneSweep(now, batchSize)(Left(db, now, k)) ==
        if Stuck(db, now, batchSize, k) then Left(db, now, k) else Left(db, now, k + batchSize)
    {
      NextSweep(db, now, batchSize, k);
    }
  }

  /** None of the first `n` sweeps is refused. */
  predicate Free(db: Database, now: int, batchSize: nat, n: nat) {
    n == 0 || (Free(db, now, batchSize, n - 1) && !Stuck(db, now, batchSize, Taken(batchSize, n - 1)))
  }

  lemma {:induction false} Proceeds(f: Database -> Database, db: Database, now: int, batchSize: nat, n: nat)
    requires Steps(f, db, now, batchSize) && Free(db, now, batchSize, n)
    ensures Iterate(f, db, n) == Left(db, now, Taken(batchSize, n))
  {
    if n == 0 {
      LeftNone(db, now);
    } else {
      Proceeds(f, db, now, batchSize, n - 1);
    }
  }

  lemma {:induction false} Stalls(f: Database -> Database, db: Database, now: int, batchSize: nat, j: nat, n: nat)
    requires Steps(f, db, now, batchSize)
    requires j <= n && Free(db, now, batchSize, j) && Stuck(db, now, batchSize, Taken(batchSize, j))
    ensures Iterate(f, db, n) == Left(db, now, Taken(batchSize, j))
    decreases n
  {
    if n == j {
      Proceeds(f, db, now, batchSize, j);
    } else {
      Stalls(f, db, now, batchSize, j, n - 1);
    }
  }

  /** While nothing blocks them, sweeps drop batch after batch. */
  lemma SweepsProceed(db: Database, now: int, batchSize: nat, n: nat)
    requires Keyed(db) && Free(db, now, batchSize, n)
    ensures Repeated(db, now, batchSize, n) == Left(db, now, Taken(batchSize, n))
  {
    SweepsStep(db, now, batchSize);
    Proceeds(OneSweep(now, batchSize), db, now, batchSize, n);
  }

  /** Once one is refused, all later ones are. */
  lemma SweepsStall(db: Database, now: int, batchSize: nat, j: nat, n: nat)
    requires Keyed(db) && j <= n && Free(db, now, batchSize, j) && Stuck(db, now, batchSize, Taken(batchSize, j))
    ensures Repeated(db, now, batchSize, n) == Left(db, now, Taken(batchSize, j))
  {
    SweepsStep(db, now, batchSize);
    Stalls(OneSweep(now, batchSize), db, now, batchSize, j, n);
  }

  // ---------- When they drain ----------

  /** Nothing in the database is eligible any more. */
  ghost predicate Drained(db: Database, now: int) {
    forall t :: EligibleRows(db, t, now) == []
  }

  /** What is eligible in a database that lost its first `k` eligible rows. */
  lemma EligibleLeft(db: Database, now: int, k: nat, t: Table)
    ensures EligibleRows(Left(db, now, k), t, now) == if k <= |EligibleRows(db, t, now)| then EligibleRows(db, t, now)[k..] else []
  {
    LinksStay(db, now, k);
    if t == Transactions {
      NoEligibleTransactions(db, now);
      NoEligibleTransactions(Left(db, now, k), now);
    } else {
      DropFirstLeaves(Goes(t, Links(db), now), Rows(db, t), k);
    }
  }

  /**
   * Of all `events`, `leaving` are the eligible ones and `due` the eligible invoices, both in the
   * order of the plan. Event `e` is still there, after `k` of them left, and refers to invoice `p`.
   */
  predicate InTheWay(events: seq<Row>, leaving: seq<Row>, due: seq<Row>, k: nat, e: Row, p: int) {
    e in events && 0 <= p < |due| && e.ref == Some(due[p].id) && e !in SliceTo(leaving, k)
  }

  lemma EventsLeft(db: Database, now: int, k: nat, e: Row)
    requires Keyed(db)
    ensures e in Left(db, now, k).events <==> e in db.events && e !in SliceTo(EligibleRows(db, PaymentEvents, now), k)
  {
    var p := Goes(PaymentEvents, Links(db), now);
    assert Unique(Rows(db, PaymentEvents));
    DropFirstLeaves(p, db.events, k);
    if e in db.events { DropFirstMember(p, db.events, k, e); }
  }

  lemma NextLeft(db: Database, now: int, batchSize: nat, k: nat, id: string)
    ensures id in NextInvoices(Left(db, now, k), now, batchSize) <==>
      exists p :: k <= p < k + batchSize && p < |EligibleRows(db, Invoices, now)| && EligibleRows(db, Invoices, now)[p].id == id
  {
    var due := EligibleRows(db, Invoices, now);
    EligibleLeft(db, now, k, Invoices);
    var next := SliceTo(EligibleRows(Left(db, now, k), Invoices, now), batchSize);
    assert NextInvoices(Left(db, now, k), now, batchSize) == RowIds(next);
    if id in RowIds(next) {
      var i :| 0 <= i < |next| && next[i].id == id;
      assert due[k + i] == next[i];
    }
    if p :| k <= p < k + batchSize && p < |due| && due[p].id == id {
      assert next[p - k] == due[p];
    }
  }

  lemma BlockedLeft(db: Database, now: int, batchSize: nat, k: nat, due: seq<Row>, leaving: seq<Row>)
    requires Keyed(db) && due == EligibleRows(db, Invoices, now) && leaving == EligibleRows(db, PaymentEvents, now)
    ensures Blocked(Left(db, now, k), now, batchSize) <==> exists e, p :: k <= p < k + batchSize && InTheWay(db.events, leaving, due, k, e, p)
  {
    var db' := Left(db, now, k);
    if Blocked(db', now, batchSize) {
      var i :| 0 <= i < |db'.events| && db'.events[i].ref.Some? && db'.events[i].ref.value in NextInvoices(db', now, batchSize);
      var e := db'.events[i];
      EventsLeft(db, now, k, e);
      NextLeft(db, now, batchSize, k, e.ref.value);
      var p :| k <= p < k + batchSize && p < |due| && due[p].id == e.ref.value;
      assert InTheWay(db.events, leaving, due, k, e, p);
    }
    if e, p :| k <= p < k + batchSize && InTheWay(db.events, leaving, due, k, e, p) {
      EventsLeft(db, now, k, e);
      NextLeft(db, now, batchSize, k, e.ref.value);
      var i :| 0 <= i < |db'.events| && db'.events[i] == e;
      assert db'.events[i].ref.value in NextInvoices(db', now, batchSize);
    }
  }

  lemma {:induction false} TakenIsMultiple(batchSize: nat, n: nat, q: nat)
    requires batchSize > 0
    ensures Taken(batchSize, n) == n * batchSize
    ensures q < Taken(batchSize, n) <==> q / batchSize < n
    decreases n
  {
    if n > 0 {
      TakenIsMultiple(batchSize, n - 1, q);
      assert (n - 1) * batchSize + batchSize == n * batchSize;
    }
    Division(q, batchSize, n);
  }

  lemma Division(q: nat, b: nat, n: nat)
    requires b > 0
    ensures q < n * b <==> q / b < n
  {
    var d, r := q / b, q % b;
    assert q == d * b + r;
    if d < n {
      assert (d + 1) * b <= n * b;
    } else {
      assert n * b <= d * b;
    }
  }

  /**
   * Every payment event that refers to an eligible invoice is itself eligible, and due in an
   * earlier batch than the invoice.
   */
  ghost predicate EventsGoFirst(events: seq<Row>, leaving: seq<Row>, due: seq<Row>, batchSize: nat)
    requires batchSize > 0
  {
    forall e, p :: e in events && 0 <= p < |due| && e.ref == Some(due[p].id) ==>
      exists q :: 0 <= q < |leaving| && leaving[q] == e && q / batchSize < p / batchSize
  }

  lemma NeverInTheWay(events: seq<Row>, leaving: seq<Row>, due: seq<Row>, batchSize: nat, j: nat, e: Row, p: int)
    requires batchSize > 0 && EventsGoFirst(events, leaving, due, batchSize)
    requires Taken(batchSize, j) <= p < Taken(batchSize, j) + batchSize
    ensures !InTheWay(events, leaving, due, Taken(batchSize, j), e, p)
  {
    var k := Taken(batchSize, j);
    if e in events && 0 <= p < |due| && e.ref == Some(due[p].id) {
      var q :| 0 <= q < |leaving| && leaving[q] == e && q / batchSize < p / batchSize;
      TakenIsMultiple(batchSize, j + 1, p);
      TakenIsMultiple(batchSize, j, q);
      assert SliceTo(leaving, k)[q] == e;
    }
  }

  lemma ComesInTheWay(events: seq<Row>, leaving: seq<Row>, due: seq<Row>, batchSize: nat, e: Row, p: int)
    requires batchSize > 0 && e in events && 0 <= p < |due| && e.ref == Some(due[p].id)
    requires forall q :: 0 <= q < |leaving| && leaving[q] == e ==> q / batchSize >= p / batchSize
    ensures var k := Taken(batchSize, p / batchSize); k <= p < k + batchSize && InTheWay(events, leaving, due, k, e, p)
  {
    var j := p / batchSize;
    TakenIsMultiple(batchSize, j, p);
    TakenIsMultiple(batchSize, j + 1, p);
    forall q | 0 <= q < |leaving| && leaving[q] == e ensures q >= Taken(batchSize, j) {
      TakenIsMultiple(batchSize, j, q);
    }
  }

  // ---------- The theorem ----------

  lemma {:induction false} GoingFirstIsFree(db: Database, now: int, batchSize: nat, n: nat, due: seq<Row>, leaving: seq<Row>)
    requires Keyed(db) && due == EligibleRows(db, Invoices, now) && leaving == EligibleRows(db, PaymentEvents, now)
    requires batchSize > 0 && EventsGoFirst(db.events, leaving, due, batchSize)
    ensures Free(db, now, batchSize, n)
  {
    if n > 0 {
      GoingFirstIsFree(db, now, batchSize, n - 1, due, leaving);
      NotStuck(db, now, batchSize, n - 1, due, leaving);
    }
  }

  lemma NotStuck(db: Database, now: int, batchSize: nat, j: nat, due: seq<Row>, leaving: seq<Row>)
    requires Keyed(db) && due == EligibleRows(db, Invoices, now) && leaving == EligibleRows(db, PaymentEvents, now)
    requires batchSize > 0 && EventsGoFirst(db.events, leaving, due, batchSize)
    ensures !Stuck(db, now, batchSize, Taken(batchSize, j))
  {
    var k := Taken(batchSize, j);
    BlockedLeft(db, now, batchSize, k, due, leaving);
    forall e, p | k <= p < k + batchSize ensures !InTheWay(db.events, leaving, due, k, e, p) {
      NeverInTheWay(db.events, leaving, due, batchSize, j, e, p);
    }
  }

  lemma SomeEventWaits(events: seq<Row>, leaving: seq<Row>, due: seq<Row>, batchSize: nat) returns (e: Row, p: nat, j: nat)
    requires batchSize > 0 && !EventsGoFirst(events, leaving, due, batchSize)
    ensures var k := Taken(batchSize, j); k <= p < k + batchSize && InTheWay(events, leaving, due, k, e, p)
  {
    e, p :| e in events && 0 <= p < |due| && e.ref == Some(due[p].id)
      && forall q :: 0 <= q < |leaving| && leaving[q] == e ==> q / batchSize >= p / batchSize;
    ComesInTheWay(events, leaving, due, batchSize, e, p);
    j := p / batchSize;
  }

  lemma StuckBecause(db: Database, now: int, batchSize: nat, due: seq<Row>, leaving: seq<Row>, k: nat, e: Row, p: nat)
    requires Keyed(db) && due == EligibleRows(db, Invoices, now) && leaving == EligibleRows(db, PaymentEvents, now)
    requires k <= p < k + batchSize && InTheWay(db.events, leaving, due, k, e, p)
    ensures Stuck(db, now, batchSize, k)
  {
    BlockedLeft(db, now, batchSize, k, due, leaving);
  }

  lemma GetsStuck(db: Database, now: int, batchSize: nat, due: seq<Row>, leaving: seq<Row>) returns (j: nat)
    requires Keyed(db) && due == EligibleRows(db, Invoices, now) && leaving == EligibleRows(db, PaymentEvents, now)
    requires batchSize > 0 && !EventsGoFirst(db.events, leaving, due, batchSize)
    ensures Stuck(db, now, batchSize, Taken(batchSize, j))
  {
    var e, p;
    e, p, j := SomeEventWaits(db.events, leaving, due, batchSize);
    StuckBecause(db, now, batchSize, due, leaving, Taken(batchSize, j), e, p);
  }

  /** The first sweep that is refused. */
  lemma {:induction false} FirstStuck(db: Database, now: int, batchSize: nat, j: nat) returns (i: nat)
    requires Stuck(db, now, batchSize, Taken(batchSize, j))
    ensures i <= j && Free(db, now, batchSize, i) && Stuck(db, now, batchSize, Taken(batchSize, i))
  {
    if Free(db, now, batchSize, j) {
      i := j;
    } else {
      var m := NotFree(db, now, batchSize, j);
      i := FirstStuck(db, now, batchSize, m);
    }
  }

  lemma {:induction false} NotFree(db: Database, now: int, batchSize: nat, n: nat) returns (m: nat)
    requires !Free(db, now, batchSize, n)
    ensures m < n && Stuck(db, now, batchSize, Taken(batchSize, m))
  {
    if Free(db, now, batchSize, n - 1) { m := n - 1; } else { m := NotFree(db, now, batchSize, n - 1); }
  }

  lemma {:induction false} FreeEarlier(db: Database, now: int, batchSize: nat, m: nat, n: nat)
    requires m <= n && Free(db, now, batchSize, n)
    ensures Free(db, now, batchSize, m) && Taken(batchSize, m) <= Taken(batchSize, n)
    decreases n
  {
    if m < n { FreeEarlier(db, now, batchSize, m, n - 1); }
  }

  /** A stuck sweep still has an invoice to delete. */
  lemma StuckHasWork(db: Database, now: int, batchSize: nat, k: nat, m: nat)
    requires Keyed(db) && Stuck(db, now, batchSize, k) && m <= k
    ensures EligibleRows(Left(db, now, m), Invoices, now) != []
  {
    var due, leaving := EligibleRows(db, Invoices, now), EligibleRows(db, PaymentEvents, now);
    BlockedLeft(db, now, batchSize, k, due, leaving);
    EligibleLeft(db, now, m, Invoices);
  }

  lemma NeverDrained(db: Database, now: int, batchSize: nat, i: nat, n: nat)
    requires Keyed(db) && Free(db, now, batchSize, i) && Stuck(db, now, batchSize, Taken(batchSize, i))
    ensures EligibleRows(Repeated(db, now, batchSize, n), Invoices, now) != []
  {
    if n <= i {
      FreeEarlier(db, now, batchSize, n, i);
      SweepsProceed(db, now, batchSize, n);
      StuckHasWork(db, now, batchSize, Taken(batchSize, i), Taken(batchSize, n));
    } else {
      SweepsStall(db, now, batchSize, i, n);
      StuckHasWork(db, now, batchSize, Taken(batchSize, i), Taken(batchSize, i));
    }
  }

  lemma {:induction false} TakenGrows(batchSize: nat, n: nat)
    requires batchSize > 0
    ensures Taken(batchSize, n) >= n
  {
    if n > 0 { TakenGrows(batchSize, n - 1); }
  }

  /** Enough sweeps for the longest table, if none is refused. */
  lemma EnoughSweeps(db: Database, now: int, batchSize: nat, n: nat)
    requires Keyed(db) && batchSize > 0 && Free(db, now, batchSize, n) && forall t :: |EligibleRows(db, t, now)| <= n
    ensures Drained(Repeated(db, now, batchSize, n), now)
  {
    SweepsProceed(db, now, batchSize, n);
    TakenGrows(batchSize, n);
    forall t ensures EligibleRows(Left(db, now, Taken(batchSize, n)), t, now) == [] {
      EligibleLeft(db, now, Taken(batchSize, n), t);
      assert |EligibleRows(db, t, now)| <= n;
    }
  }

  function Longest(db: Database, now: int): nat {
    |EligibleRows(db, Invoices, now)| + |EligibleRows(db, Transactions, now)| + |EligibleRows(db, PaymentEvents, now)| + |EligibleRows(db, Jobs, now)|
  }

  lemma LongestIs(db: Database, now: int, t: Table)
    ensures |EligibleRows(db, t, now)| <= Longest(db, now)
  {
    match t
    case Invoices =>
    case Transactions =>
    case PaymentEvents =>
    case Jobs =>
  }

  /** Repeated sweeps at one instant delete everything eligible exactly if the payment events go first. */
  lemma DrainsExactly(db: Database, now: int, batchSize: nat, due: seq<Row>, leaving: seq<Row>)
    requires Keyed(db) && batchSize > 0
    requires due == EligibleRows(db, Invoices, now) && leaving == EligibleRows(db, PaymentEvents, now)
    ensures (exists n :: Drained(Repeated(db, now, batchSize, n), now)) <==> EventsGoFirst(db.events, leaving, due, batchSize)
  {
    if EventsGoFirst(db.events, leaving, due, batchSize) {
      var n := Longest(db, now);
      forall t ensures |EligibleRows(db, t, now)| <= n { LongestIs(db, now, t); }
      GoingFirstIsFree(db, now, batchSize, n, due, leaving);
      EnoughSweeps(db, now, batchSize, n);
    } else {
      var j := GetsStuck(db, now, batchSize, due, leaving);
      var i := FirstStuck(db, now, batchSize, j);
      forall n: nat ensures !Drained(Repeated(db, now, batchSize, n), now) {
        NeverDrained(db, now, batchSize, i, n);
      }
    }
  }

  /** When all eligible invoices fit in one batch, that is: exactly if no payment event refers to one of them. */
  lemma OneBatchDrains(events: seq<Row>, leaving: seq<Row>, due: seq<Row>, batchSize: nat)
    requires batchSize > 0 && |due| <= batchSize
    ensures EventsGoFirst(events, leaving, due, batchSize) <==>
      forall e, p :: e in events && 0 <= p < |due| ==> e.ref != Some(due[p].id)
  {
    forall p, q | 0 <= p < |due| && 0 <= q < |leaving| ensures q / batchSize >= p / batchSize {
      Division(p, batchSize, 1);
    }
  }

  lemma {:induction false} DropAll(p: Row -> bool, stays: Row -> bool, rows: seq<Row>, k: nat)
    requires forall r :: r in rows ==> stays(r) == !p(r)
    requires Filter(p, DropFirst(p, rows, k)) == []
    ensures DropFirst(p, rows, k) == Filter(stays, rows)
    decreases |rows|
  {
    if rows != [] {
      if k == 0 {
        FilterIn(p, rows);
        FilterAll(stays, rows);
      } else {
        DropAll(p, stays, rows[1..], if p(rows[0]) then k - 1 else k);
      }
    }
  }

  function Stays(t: Table, links: set<string>, now: int): Row -> bool {
    (r: Row) => !Classify(Record(t, r, r.id in links), now).Eligible?
  }

  /** And then exactly the rows that were not eligible are left, in their order. */
  lemma WhatRemains(db: Database, now: int, batchSize: nat, n: nat, t: Table)
    requires Keyed(db) && Free(db, now, batchSize, n) && Drained(Repeated(db, now, batchSize, n), now)
    ensures Rows(Repeated(db, now, batchSize, n), t) == Filter(Stays(t, Links(db), now), Rows(db, t))
  {
    var k := Taken(batchSize, n);
    SweepsProceed(db, now, batchSize, n);
    LinksStay(db, now, k);
    assert EligibleRows(Left(db, now, k), t, now) == [];
    RowsLeft(db, now, k, t);
  }

  lemma RowsLeft(db: Database, now: int, k: nat, t: Table)
    requires EligibleRows(Left(db, now, k), t, now) == []
    ensures Rows(Left(db, now, k), t) == Filter(Stays(t, Links(db), now), Rows(db, t))
  {
    LinksStay(db, now, k);
    if t == Transactions {
      FilterAll(Stays(t, Links(db), now), db.transactions);
    } else {
      DropAll(Goes(t, Links(db), now), Stays(t, Links(db), now), Rows(db, t), k);
    }
  }
}
