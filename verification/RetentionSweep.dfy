/**
 * The retention sweep: it plans against the database, then deletes one batch per table.
 *
 * Deleting an invoice clears the references of transactions to it, and is refused while a
 * payment event refers to it, as the foreign keys of the schema say.
 */
module RetentionSweep {
  import opened Basics
  import opened Retention

  datatype Database = Database(invoices: seq<Row>, transactions: seq<Row>, events: seq<Row>, jobs: seq<Row>)

  function Rows(db: Database, t: Table): seq<Row> {
    match t
    case Invoices => db.invoices
    case Transactions => db.transactions
    case PaymentEvents => db.events
    case Jobs => db.jobs
  }

  // ---------- Planning ----------

  predicate RefersTo(rows: seq<Row>, id: string) {
    exists i :: 0 <= i < |rows| && rows[i].ref == Some(id)
  }

  /** An invoice that is paid, or that a transaction refers to. */
  predicate Settled(db: Database, i: Row) {
    i.status == "PAID" || RefersTo(db.transactions, i.id)
  }

  function Links(db: Database): set<string> {
    set k | 0 <= k < |db.invoices| && Settled(db, db.invoices[k]) :: db.invoices[k].id
  }

  function Loaded(t: Table, links: set<string>): Row -> Record {
    (r: Row) => Record(t, r, r.id in links)
  }

  function Load(db: Database, tables: seq<Table>, links: set<string>): seq<Record> {
    if tables == [] then [] else Map(Loaded(tables[0], links), Rows(db, tables[0])) + Load(db, tables[1..], links)
  }

  /** The eligible records of the plan, in the order of the tables asked for. */
  function Planned(db: Database, tables: seq<Table>, now: int): seq<Record> {
    Filter(EligibleAt(now), Load(db, tables, Links(db)))
  }

  // ---------- Deleting ----------

  function NotIn(ids: set<string>): Row -> bool {
    (r: Row) => r.id !in ids
  }

  function Unlinked(ids: set<string>): Row -> Row {
    (r: Row) => if r.ref.Some? && r.ref.value in ids then r.(ref := None) else r
  }

  /** A payment event refers to one of these invoices. */
  predicate Referenced(db: Database, ids: set<string>) {
    exists i :: 0 <= i < |db.events| && db.events[i].ref.Some? && db.events[i].ref.value in ids
  }

  /** One DELETE statement; None when a foreign key refuses it. */
  function Delete(db: Database, t: Table, ids: set<string>): Option<Database> {
    match t
    case Invoices =>
      if Referenced(db, ids) then None
      else Some(db.(invoices := Filter(NotIn(ids), db.invoices), transactions := Map(Unlinked(ids), db.transactions)))
    case Transactions => Some(db.(transactions := Filter(NotIn(ids), db.transactions)))
    case PaymentEvents => Some(db.(events := Filter(NotIn(ids), db.events)))
    case Jobs => Some(db.(jobs := Filter(NotIn(ids), db.jobs)))
  }

  function IdsOf(records: seq<Record>): set<string> {
    set i | 0 <= i < |records| :: records[i].row.id
  }

  /** The first batch of a table's eligible records. */
  function Batch(eligible: seq<Record>, t: Table, batchSize: int): seq<Record> {
    SliceTo(Filter(OfTable(t), eligible), batchSize)
  }

  /** The tables in the order in which they first occur. */
  function FirstSeen(eligible: seq<Record>): seq<Table> {
    if eligible == [] then []
    else
      var before, t := FirstSeen(eligible[..|eligible| - 1]), eligible[|eligible| - 1].table;
      if t in before then before else before + [t]
  }

  datatype Outcome = Outcome(db: Database, deleted: nat, ok: bool)

  function Size(db: Database, t: Table): nat {
    |Rows(db, t)|
  }

  /** The rows that a statement on a table reports as deleted. */
  function Removed(db: Database, db': Database, t: Table): nat {
    if Size(db', t) < Size(db, t) then Size(db, t) - Size(db', t) else 0
  }

  /** Deletes table by table until a statement is refused. */
  function DeleteAll(db: Database, tables: seq<Table>, eligible: seq<Record>, batchSize: int): Outcome
    decreases |tables|
  {
    if tables == [] then Outcome(db, 0, true)
    else
      var next := Delete(db, tables[0], IdsOf(Batch(eligible, tables[0], batchSize)));
      if next.None? then Outcome(db, 0, false)
      else
        var rest := DeleteAll(next.value, tables[1..], eligible, batchSize);
        rest.(deleted := Removed(db, next.value, tables[0]) + rest.deleted)
  }

  function Sweep(db: Database, tables: seq<Table>, now: int, batchSize: int, dryRun: bool): Outcome {
    var eligible := Planned(db, tables, now);
    if dryRun then Outcome(db, 0, true) else DeleteAll(db, FirstSeen(eligible), eligible, batchSize)
  }

  // ---------- Safety ----------

  ghost predicate Unique(rows: seq<Row>) {
    forall i, j :: 0 <= i < j < |rows| ==> rows[i].id != rows[j].id
  }

  /** Ids are primary keys. */
  ghost predicate Keyed(db: Database) {
    forall t :: Unique(Rows(db, t))
  }

  /** An invoice no sweep may take. */
  predicate Untouchable(db: Database, i: Row) {
    Settled(db, i) || HasLegalHold(i.metadata)
  }

  /** `db` is `start` after some deletions that were all harmless. */
  ghost predicate Kept(start: Database, db: Database) {
    && db.transactions == start.transactions
    && (forall i :: i in db.invoices ==> i in start.invoices)
    && (forall i :: i in start.invoices && Untouchable(start, i) ==> i in db.invoices)
  }

  /** The ids of invoices that may go. */
  ghost predicate Harmless(start: Database, ids: set<string>) {
    forall id :: id in ids ==> exists i :: i in start.invoices && i.id == id && !Untouchable(start, i)
  }

  lemma {:induction false} LoadedFrom(db: Database, tables: seq<Table>, links: set<string>, r: Record)
    requires r in Load(db, tables, links)
    ensures r.row in Rows(db, r.table) && r.linked == (r.row.id in links) && r.table in tables
  {
    var first := Map(Loaded(tables[0], links), Rows(db, tables[0]));
    if r in first {
      var k :| 0 <= k < |first| && first[k] == r;
      assert r == Loaded(tables[0], links)(Rows(db, tables[0])[k]);
    } else {
      LoadedFrom(db, tables[1..], links, r);
    }
  }

  lemma SettledAreLinked(db: Database, i: Row)
    requires i in db.invoices
    ensures Settled(db, i) ==> i.id in Links(db)
  {
    var k :| 0 <= k < |db.invoices| && db.invoices[k] == i;
    assert Settled(db, db.invoices[k]) ==> db.invoices[k].id in Links(db);
  }

  /** A planned record is no transaction, and if an invoice then one that may go. */
  lemma PlannedIsHarmless(db: Database, tables: seq<Table>, now: int, r: Record)
    requires r in Planned(db, tables, now)
    ensures r.table != Transactions && r.row in Rows(db, r.table) && (r.table == Invoices ==> !Untouchable(db, r.row))
  {
    FilterIn(EligibleAt(now), Load(db, tables, Links(db)));
    LoadedFrom(db, tables, Links(db), r);
    if r.table == Invoices { SettledAreLinked(db, r.row); }
  }

  lemma BatchPlanned(db: Database, tables: seq<Table>, now: int, t: Table, batchSize: int)
    ensures forall r :: r in Batch(Planned(db, tables, now), t, batchSize) ==>
      r.table == t != Transactions && r.row in Rows(db, t) && (t == Invoices ==> !Untouchable(db, r.row))
  {
    var eligible := Planned(db, tables, now);
    FilterIn(OfTable(t), eligible);
    forall r | r in Batch(eligible, t, batchSize)
      ensures r.table == t != Transactions && r.row in Rows(db, t) && (t == Invoices ==> !Untouchable(db, r.row))
    {
      assert r in Filter(OfTable(t), eligible);
      PlannedIsHarmless(db, tables, now, r);
    }
  }

  lemma InvoiceBatchIsHarmless(db: Database, tables: seq<Table>, now: int, batchSize: int)
    ensures Harmless(db, IdsOf(Batch(Planned(db, tables, now), Invoices, batchSize)))
  {
    var batch := Batch(Planned(db, tables, now), Invoices, batchSize);
    BatchPlanned(db, tables, now, Invoices, batchSize);
    forall id | id in IdsOf(batch) ensures exists i :: i in db.invoices && i.id == id && !Untouchable(db, i) {
      var k :| 0 <= k < |batch| && batch[k].row.id == id;
      assert batch[k] in batch;
    }
  }

  lemma NoTransactionBatch(db: Database, tables: seq<Table>, now: int, batchSize: int)
    ensures Batch(Planned(db, tables, now), Transactions, batchSize) == []
  {
    var eligible := Planned(db, tables, now);
    forall r | r in eligible ensures r.table != Transactions {
      PlannedIsHarmless(db, tables, now, r);
    }
    FilterNone(OfTable(Transactions), eligible);
  }

  /** Deleting harmless invoices clears no reference of a transaction. */
  lemma NoReferenceCleared(start: Database, transactions: seq<Row>, ids: set<string>)
    requires transactions == start.transactions && Harmless(start, ids)
    ensures Map(Unlinked(ids), transactions) == transactions
  {
    forall k | 0 <= k < |transactions| ensures Unlinked(ids)(transactions[k]) == transactions[k] {
      assert transactions[k].ref.Some? ==> RefersTo(start.transactions, transactions[k].ref.value);
    }
  }

  lemma DeleteKeeps(start: Database, db: Database, t: Table, ids: set<string>)
    requires Unique(start.invoices) && Kept(start, db) && Delete(db, t, ids).Some?
    requires t == Invoices ==> Harmless(start, ids)
    requires t == Transactions ==> ids == {}
    ensures Kept(start, Delete(db, t, ids).value)
  {
    match t
    case Invoices =>
      NoReferenceCleared(start, db.transactions, ids);
      FilterIn(NotIn(ids), db.invoices);
    case Transactions => FilterAll(NotIn(ids), db.transactions);
    case PaymentEvents =>
    case Jobs =>
  }

  lemma {:induction false} DeleteAllKeeps(start: Database, db: Database, order: seq<Table>, tables: seq<Table>, now: int, batchSize: int)
    requires Unique(start.invoices) && Kept(start, db)
    ensures Kept(start, DeleteAll(db, order, Planned(start, tables, now), batchSize).db)
    decreases |order|
  {
    if order != [] {
      var eligible := Planned(start, tables, now);
      var ids := IdsOf(Batch(eligible, order[0], batchSize));
      InvoiceBatchIsHarmless(start, tables, now, batchSize);
      NoTransactionBatch(start, tables, now, batchSize);
      if Delete(db, order[0], ids).Some? {
        DeleteKeeps(start, db, order[0], ids);
        DeleteAllKeeps(start, Delete(db, order[0], ids).value, order[1..], tables, now, batchSize);
      }
    }
  }

  /**
   * One sweep, of any tables, in any mode and whether it succeeds or not, keeps every paid,
   * transaction-linked or held invoice, every transaction, and every reference between them.
   */
  lemma SweepKeeps(db: Database, tables: seq<Table>, now: int, batchSize: int, dryRun: bool)
    requires Unique(db.invoices)
    ensures Kept(db, Sweep(db, tables, now, batchSize, dryRun).db)
  {
    DeleteAllKeeps(db, db, FirstSeen(Planned(db, tables, now)), tables, now, batchSize);
  }

  datatype Request = Request(tables: seq<Table>, now: int, batchSize: int, dryRun: bool)

  /** Sweeps one after another, each with its own clock and options. */
  function Sweeps(db: Database, requests: seq<Request>): Database
    decreases |requests|
  {
    if requests == [] then db
    else
      var r := requests[0];
      Sweeps(Sweep(db, r.tables, r.now, r.batchSize, r.dryRun).db, requests[1..])
  }

  lemma {:induction false} DeleteAllUnique(db: Database, order: seq<Table>, eligible: seq<Record>, batchSize: int)
    requires Unique(db.invoices)
    ensures Unique(DeleteAll(db, order, eligible, batchSize).db.invoices)
    decreases |order|
  {
    if order != [] {
      var ids := IdsOf(Batch(eligible, order[0], batchSize));
      if Delete(db, order[0], ids).Some? {
        FilterUnique(NotIn(ids), db.invoices);
        DeleteAllUnique(Delete(db, order[0], ids).value, order[1..], eligible, batchSize);
      }
    }
  }

  lemma {:induction false} FilterUnique(p: Row -> bool, rows: seq<Row>)
    requires Unique(rows)
    ensures Unique(Filter(p, rows))
  {
    if rows != [] {
      FilterUnique(p, rows[1..]);
      FilterIn(p, rows[1..]);
      var rest := Filter(p, rows[1..]);
      forall j | 0 <= j < |rest| ensures rows[0].id != rest[j].id {
        assert rest[j] in rows[1..];
      }
    }
  }

  lemma KeptTransitive(a: Database, b: Database, c: Database)
    requires Kept(a, b) && Kept(b, c)
    ensures Kept(a, c)
  {
  }

  /** No sequence of sweeps takes an untouchable invoice or any transaction, so no reference ever dangles. */
  lemma {:induction false} SweepsAreSafe(db: Database, requests: seq<Request>)
    requires Unique(db.invoices)
    ensures Kept(db, Sweeps(db, requests))
    ensures forall i :: i in db.invoices && RefersTo(db.transactions, i.id) ==> i in Sweeps(db, requests).invoices
    decreases |requests|
  {
    if requests != [] {
      var r := requests[0];
      var db' := Sweep(db, r.tables, r.now, r.batchSize, r.dryRun).db;
      SweepKeeps(db, r.tables, r.now, r.batchSize, r.dryRun);
      DeleteAllUnique(db, FirstSeen(Planned(db, r.tables, r.now)), Planned(db, r.tables, r.now), r.batchSize);
      SweepsAreSafe(db', requests[1..]);
      KeptTransitive(db, db', Sweeps(db', requests[1..]));
    }
  }

  /** Settlement links are the ids of paid invoices and of those that a transaction refers to. */
  lemma LinksExactly(db: Database, id: string)
    ensures id in Links(db) <==>
      exists i :: i in db.invoices && i.id == id && (i.status == "PAID" || exists t :: t in db.transactions && t.ref == Some(id))
  {
    if i :| i in db.invoices && i.id == id && (i.status == "PAID" || exists t :: t in db.transactions && t.ref == Some(id)) {
      SettledExactly(db, i);
      SettledAreLinked(db, i);
    }
    if id in Links(db) {
      var k :| 0 <= k < |db.invoices| && Settled(db, db.invoices[k]) && db.invoices[k].id == id;
      SettledExactly(db, db.invoices[k]);
    }
  }

  lemma SettledExactly(db: Database, i: Row)
    ensures Settled(db, i) <==> i.status == "PAID" || exists t :: t in db.transactions && t.ref == Some(i.id)
  {
    if t :| t in db.transactions && t.ref == Some(i.id) {
      var k :| 0 <= k < |db.transactions| && db.transactions[k] == t;
    }
  }

  /**
   * The same in full: after any sequence of sweeps every invoice is still there that is paid, that a
   * transaction refers to, or that one of the three flags holds, and every transaction is as it was.
   */
  lemma ProtectedSurvive(db: Database, requests: seq<Request>, i: Row)
    requires Unique(db.invoices) && i in db.invoices
    ensures i.status == "PAID" ==> i in Sweeps(db, requests).invoices
    ensures (exists t :: t in db.transactions && t.ref == Some(i.id)) ==> i in Sweeps(db, requests).invoices
    ensures forall k :: k in {"legal_hold", "under_dispute", "under_audit"} && k in i.metadata && i.metadata[k] in {IsTrue, TrueText} ==>
      i in Sweeps(db, requests).invoices
    ensures Sweeps(db, requests).transactions == db.transactions
  {
    SweepsAreSafe(db, requests);
    SettledExactly(db, i);
    LegalHoldExactly(i.metadata);
  }

  // ---------- Between the plan and the deletes ----------

  /** The ids of the invoices a plan is about to delete. */
  function DoomedInvoices(eligible: seq<Record>, batchSize: int): set<string> {
    IdsOf(Batch(eligible, Invoices, batchSize))
  }

  /** The rows of the transactions after the doomed invoices are gone. */
  function Cleared(order: seq<Table>, ids: set<string>, transactions: seq<Row>): seq<Row> {
    if Invoices in order then Map(Unlinked(ids), transactions) else transactions
  }

  lemma UnlinkedTwice(ids: set<string>, rows: seq<Row>)
    ensures Map(Unlinked(ids), Map(Unlinked(ids), rows)) == Map(Unlinked(ids), rows)
  {
  }

  lemma FilterTwiceSame(ids: set<string>, rows: seq<Row>)
    ensures Filter(NotIn(ids), Filter(NotIn(ids), rows)) == Filter(NotIn(ids), rows)
  {
    FilterIn(NotIn(ids), rows);
    FilterAll(NotIn(ids), Filter(NotIn(ids), rows));
  }

  /** One statement, on any table but the transactions, by its effect on each table. */
  lemma DeleteMeans(db: Database, t: Table, ids: set<string>)
    requires t != Transactions
    ensures Delete(db, t, ids).None? <==> t == Invoices && Referenced(db, ids)
    ensures Delete(db, t, ids).Some? ==>
      var next := Delete(db, t, ids).value;
      && next.invoices == (if t == Invoices then Filter(NotIn(ids), db.invoices) else db.invoices)
      && next.transactions == (if t == Invoices then Map(Unlinked(ids), db.transactions) else db.transactions)
      && next.events == (if t == PaymentEvents then Filter(NotIn(ids), db.events) else db.events)
  {
  }

  /** Deletes that are all accepted take exactly the doomed invoices, and clear exactly the references to them. */
  lemma {:induction false} DeletesTakeTheDoomed(db: Database, order: seq<Table>, eligible: seq<Record>, batchSize: int)
    requires Transactions !in order && DeleteAll(db, order, eligible, batchSize).ok
    ensures var o, ids := DeleteAll(db, order, eligible, batchSize), DoomedInvoices(eligible, batchSize);
      && o.db.invoices == (if Invoices in order then Filter(NotIn(ids), db.invoices) else db.invoices)
      && o.db.transactions == Cleared(order, ids, db.transactions)
    decreases |order|
  {
    if order != [] {
      var t, rest, ids := order[0], order[1..], DoomedInvoices(eligible, batchSize);
      DeleteMeans(db, t, IdsOf(Batch(eligible, t, batchSize)));
      var next := Delete(db, t, IdsOf(Batch(eligible, t, batchSize))).value;
      DeletesTakeTheDoomed(next, rest, eligible, batchSize);
      FilterTwiceSame(ids, db.invoices);
      UnlinkedTwice(ids, db.transactions);
      assert Invoices in order <==> t == Invoices || Invoices in rest;
    }
  }

  /** Only the statement on the invoices can be refused, and then no invoice and no transaction has changed. */
  lemma {:induction false} RefusedChangesNoInvoice(db: Database, order: seq<Table>, eligible: seq<Record>, batchSize: int)
    requires Transactions !in order && Distinct(order) && !DeleteAll(db, order, eligible, batchSize).ok
    ensures Invoices in order
    ensures var o := DeleteAll(db, order, eligible, batchSize);
      o.db.invoices == db.invoices && o.db.transactions == db.transactions
    decreases |order|
  {
    var next := Delete(db, order[0], IdsOf(Batch(eligible, order[0], batchSize)));
    if next.Some? {
      RefusedChangesNoInvoice(next.value, order[1..], eligible, batchSize);
      assert order[0] != Invoices;
    }
  }

  predicate Precedes(order: seq<Table>, x: Table, y: Table) {
    exists a, b :: 0 <= a < b < |order| && order[a] == x && order[b] == y
  }

  lemma PrecedesTail(order: seq<Table>, x: Table, y: Table)
    requires order != [] && Distinct(order) && x != y
    ensures Precedes(order, x, y) <==> Precedes(order[1..], x, y) || (order[0] == x && y in order)
  {
    if Precedes(order, x, y) {
      var a, b :| 0 <= a < b < |order| && order[a] == x && order[b] == y;
      assert a > 0 ==> order[1..][a - 1] == x && order[1..][b - 1] == y;
    }
    if Precedes(order[1..], x, y) {
      var a, b :| 0 <= a < b < |order[1..]| && order[1..][a] == x && order[1..][b] == y;
      assert order[a + 1] == x && order[b + 1] == y;
    }
  }

  /** A payment event that refers to a doomed invoice. */
  predicate Clings(eligible: seq<Record>, batchSize: int, e: Row) {
    e.ref.Some? && e.ref.value in DoomedInvoices(eligible, batchSize)
  }

  /** And that is not deleted in front of it. */
  ghost predicate Holds(order: seq<Table>, eligible: seq<Record>, batchSize: int, e: Row) {
    Clings(eligible, batchSize, e) && !(Precedes(order, PaymentEvents, Invoices) && e.id in IdsOf(Batch(eligible, PaymentEvents, batchSize)))
  }

  ghost predicate HeldUp(db: Database, order: seq<Table>, eligible: seq<Record>, batchSize: int) {
    Invoices in order && exists e :: e in db.events && Holds(order, eligible, batchSize, e)
  }

  /** A statement on another table leaves a database that is held if and only if it was. */
  lemma HeldUpNext(db: Database, order: seq<Table>, eligible: seq<Record>, batchSize: int, next: Database)
    requires order != [] && Distinct(order) && order[0] != Invoices
    requires next.events == if order[0] == PaymentEvents then Filter(NotIn(IdsOf(Batch(eligible, PaymentEvents, batchSize))), db.events) else db.events
    ensures HeldUp(db, order, eligible, batchSize) <==> HeldUp(next, order[1..], eligible, batchSize)
  {
    var ids := IdsOf(Batch(eligible, PaymentEvents, batchSize));
    PrecedesTail(order, PaymentEvents, Invoices);
    FilterIn(NotIn(ids), db.events);
    assert Invoices in order <==> Invoices in order[1..];
    if order[0] == PaymentEvents {
      assert !Precedes(order[1..], PaymentEvents, Invoices) by { assert PaymentEvents !in order[1..]; }
    }
    forall e | Invoices in order
      ensures (e in db.events && Holds(order, eligible, batchSize, e)) <==> (e in next.events && Holds(order[1..], eligible, batchSize, e))
    {
    }
  }

  lemma HeldUpAtOnce(db: Database, order: seq<Table>, eligible: seq<Record>, batchSize: int)
    requires order != [] && Distinct(order) && order[0] == Invoices
    ensures HeldUp(db, order, eligible, batchSize) <==> Referenced(db, DoomedInvoices(eligible, batchSize))
  {
    assert !Precedes(order, PaymentEvents, Invoices);
    ReferencedMeans(db, DoomedInvoices(eligible, batchSize));
    assert Invoices in order;
    forall e ensures Holds(order, eligible, batchSize, e) <==> Clings(eligible, batchSize, e) {
    }
  }

  /** Without the invoices nothing is refused. */
  lemma {:induction false} NothingRefused(db: Database, order: seq<Table>, eligible: seq<Record>, batchSize: int)
    requires Invoices !in order
    ensures DeleteAll(db, order, eligible, batchSize).ok
    decreases |order|
  {
    if order != [] {
      NothingRefused(Delete(db, order[0], IdsOf(Batch(eligible, order[0], batchSize))).value, order[1..], eligible, batchSize);
    }
  }

  /** The deletes are accepted if and only if no payment event holds on to a doomed invoice. */
  lemma {:induction false} AcceptedExactly(db: Database, order: seq<Table>, eligible: seq<Record>, batchSize: int)
    requires Distinct(order) && Transactions !in order
    ensures DeleteAll(db, order, eligible, batchSize).ok <==> !HeldUp(db, order, eligible, batchSize)
    decreases |order|
  {
    if order != [] {
      var t, ids := order[0], IdsOf(Batch(eligible, order[0], batchSize));
      DeleteMeans(db, t, ids);
      var next := Delete(db, t, ids);
      if t == Invoices {
        HeldUpAtOnce(db, order, eligible, batchSize);
        if next.Some? { NothingRefused(next.value, order[1..], eligible, batchSize); }
      } else {
        HeldUpNext(db, order, eligible, batchSize, next.value);
        AcceptedExactly(next.value, order[1..], eligible, batchSize);
      }
    }
  }

  lemma ReferencedMeans(db: Database, ids: set<string>)
    ensures Referenced(db, ids) <==> exists e :: e in db.events && e.ref.Some? && e.ref.value in ids
  {
    if e :| e in db.events && e.ref.Some? && e.ref.value in ids {
      var k :| 0 <= k < |db.events| && db.events[k] == e;
    }
  }

  lemma {:induction false} FirstSeenHas(records: seq<Record>, t: Table)
    ensures t in FirstSeen(records) <==> exists r :: r in records && r.table == t
  {
    if records != [] {
      var n := |records| - 1;
      FirstSeenHas(records[..n], t);
      assert records == records[..n] + [records[n]];
      assert records[n] in records;
      if r :| r in records && r.table == t {
        assert r in records[..n] || r == records[n];
      }
    }
  }

  lemma DoomedMeansInvoices(eligible: seq<Record>, batchSize: int, id: string)
    requires id in DoomedInvoices(eligible, batchSize)
    ensures Invoices in FirstSeen(eligible)
  {
    var batch := Batch(eligible, Invoices, batchSize);
    var k :| 0 <= k < |batch| && batch[k].row.id == id;
    FilterIn(OfTable(Invoices), eligible);
    assert batch[k] in Filter(OfTable(Invoices), eligible);
    FirstSeenHas(eligible, Invoices);
  }

  lemma PlannedTables(db: Database, tables: seq<Table>, now: int)
    ensures Transactions !in FirstSeen(Planned(db, tables, now))
  {
    var eligible := Planned(db, tables, now);
    forall r | r in eligible ensures r.table != Transactions {
      PlannedIsHarmless(db, tables, now, r);
    }
    FirstSeenHas(eligible, Transactions);
  }

  /** What a sweep does to the database `db` it finds when it deletes, with the plan it made of `planned`. */
  function Applied(planned: Database, db: Database, tables: seq<Table>, now: int, batchSize: int): Outcome {
    var eligible := Planned(planned, tables, now);
    DeleteAll(db, FirstSeen(eligible), eligible, batchSize)
  }

  /**
   * The deletes trust the plan. Whatever happened to the database in between, an invoice that is there
   * when they come survives if and only if they are refused or the plan did not put its id in the
   * batch; its status, its hold and its transactions do not matter any more.
   */
  lemma SurvivesExactly(planned: Database, db: Database, tables: seq<Table>, now: int, batchSize: int, i: Row)
    requires i in db.invoices
    ensures var o := Applied(planned, db, tables, now, batchSize);
      i in o.db.invoices <==> !o.ok || i.id !in DoomedInvoices(Planned(planned, tables, now), batchSize)
  {
    var eligible := Planned(planned, tables, now);
    var ids := DoomedInvoices(eligible, batchSize);
    PlannedTables(planned, tables, now);
    if Applied(planned, db, tables, now, batchSize).ok {
      DeletesTakeTheDoomed(db, FirstSeen(eligible), eligible, batchSize);
      FilterIn(NotIn(ids), db.invoices);
      if i.id in ids { DoomedMeansInvoices(eligible, batchSize, i.id); }
    } else {
      FirstSeenDistinct(eligible);
      RefusedChangesNoInvoice(db, FirstSeen(eligible), eligible, batchSize);
    }
  }

  /** And each transaction keeps its reference if and only if they are refused or it refers to no such id. */
  lemma ReferenceKeptExactly(planned: Database, db: Database, tables: seq<Table>, now: int, batchSize: int, k: nat)
    requires k < |db.transactions|
    ensures var o, t := Applied(planned, db, tables, now, batchSize), db.transactions[k];
      && |o.db.transactions| == |db.transactions|
      && o.db.transactions[k] ==
        if o.ok && t.ref.Some? && t.ref.value in DoomedInvoices(Planned(planned, tables, now), batchSize) then t.(ref := None) else t
  {
    var eligible, t := Planned(planned, tables, now), db.transactions[k];
    var ids := DoomedInvoices(eligible, batchSize);
    PlannedTables(planned, tables, now);
    if Applied(planned, db, tables, now, batchSize).ok {
      DeletesTakeTheDoomed(db, FirstSeen(eligible), eligible, batchSize);
      if t.ref.Some? && t.ref.value in ids { DoomedMeansInvoices(eligible, batchSize, t.ref.value); }
    } else {
      FirstSeenDistinct(eligible);
      RefusedChangesNoInvoice(db, FirstSeen(eligible), eligible, batchSize);
    }
  }

  /**
   * So a sweep loses an invoice that is untouchable when it deletes if and only if the plan had put
   * such an invoice in the batch and no payment event holds on to a batched one.
   */
  lemma LostExactly(planned: Database, db: Database, tables: seq<Table>, now: int, batchSize: int)
    ensures var eligible := Planned(planned, tables, now);
      (exists i :: i in db.invoices && Untouchable(db, i) && i !in Applied(planned, db, tables, now, batchSize).db.invoices) <==>
        && (exists i :: i in db.invoices && Untouchable(db, i) && i.id in DoomedInvoices(eligible, batchSize))
        && !HeldUp(db, FirstSeen(eligible), eligible, batchSize)
  {
    var eligible, o := Planned(planned, tables, now), Applied(planned, db, tables, now, batchSize);
    forall i | i in db.invoices ensures i in o.db.invoices <==> !o.ok || i.id !in DoomedInvoices(eligible, batchSize) {
      SurvivesExactly(planned, db, tables, now, batchSize, i);
    }
    FirstSeenDistinct(eligible);
    PlannedTables(planned, tables, now);
    AcceptedExactly(db, FirstSeen(eligible), eligible, batchSize);
  }

  /** An instance: an eligible invoice is paid after the plan was made, and its payment loses its reference. */
  lemma PaymentDuringSweep(i: Row, payment: Row, now: int)
    requires i.status != "PAID" && Classify(Record(Invoices, i, false), now).Eligible? && payment.ref == Some(i.id)
    ensures var eligible := Planned(Database([i], [], [], []), [Invoices], now);
      var paid := Database([i.(status := "PAID")], [payment], [], []);
      DeleteAll(paid, FirstSeen(eligible), eligible, 1).db == Database([], [payment.(ref := None)], [], [])
  {
    var db := Database([i], [], [], []);
    assert Links(db) == {};
    var r := Record(Invoices, i, false);
    assert Load(db, [Invoices], {}) == [r];
    OneRecord(EligibleAt(now), r);
    assert FirstSeen([r][..0]) == [];
    assert FirstSeen([r]) == [Invoices];
    OneRecord(OfTable(Invoices), r);
    assert IdsOf([r]) == {i.id};
    OneRow({i.id}, i.(status := "PAID"));
    assert Map(Unlinked({i.id}), [payment]) == [payment.(ref := None)];
    assert [Invoices][1..] == [];
  }

  lemma OneRecord(p: Record -> bool, r: Record)
    requires p(r)
    ensures Filter(p, [r]) == [r]
  {
    assert Filter(p, [r][1..]) == [];
  }

  lemma OneRow(ids: set<string>, r: Row)
    requires r.id in ids
    ensures Filter(NotIn(ids), [r]) == []
  {
    assert Filter(NotIn(ids), [r][1..]) == [];
  }

  // ---------- The blast radius ----------

  lemma {:induction false} FewDeleted(ids: set<string>, rows: seq<Row>)
    requires Unique(rows)
    ensures |rows| - |ids| <= |Filter(NotIn(ids), rows)| <= |rows|
    decreases |rows|
  {
    if rows != [] {
      var rest := rows[1..];
      if rows[0].id in ids {
        var ids' := ids - {rows[0].id};
        FewDeleted(ids', rest);
        FilterSame(NotIn(ids), NotIn(ids'), rest);
      } else {
        FewDeleted(ids, rest);
      }
    }
  }

  lemma {:induction false} FewIds(records: seq<Record>)
    ensures |IdsOf(records)| <= |records|
  {
    if records != [] {
      var n := |records| - 1;
      FewIds(records[..n]);
      assert IdsOf(records) == IdsOf(records[..n]) + {records[n].row.id};
    }
  }

  lemma DeleteIsBounded(db: Database, t: Table, ids: set<string>)
    requires Keyed(db) && Delete(db, t, ids).Some?
    ensures var db' := Delete(db, t, ids).value;
      && (forall u :: u != t ==> Size(db', u) == Size(db, u))
      && Size(db, t) - |ids| <= Size(db', t) <= Size(db, t)
  {
    assert Unique(Rows(db, t));
    FewDeleted(ids, Rows(db, t));
  }

  lemma DeleteStaysKeyed(db: Database, t: Table, ids: set<string>)
    requires Keyed(db) && Delete(db, t, ids).Some?
    ensures Keyed(Delete(db, t, ids).value)
  {
    var db' := Delete(db, t, ids).value;
    forall u ensures Unique(Rows(db', u)) {
      assert Unique(Rows(db, u));
      FilterUnique(NotIn(ids), Rows(db, u));
    }
  }

  /** Each table of a list without repeats loses at most a batch, and no other table loses anything. */
  lemma {:induction false} DeleteAllIsBounded(db: Database, order: seq<Table>, eligible: seq<Record>, batchSize: nat, t: Table)
    requires Keyed(db) && Distinct(order)
    ensures Size(db, t) - (if t in order then batchSize else 0) <= Size(DeleteAll(db, order, eligible, batchSize).db, t) <= Size(db, t)
    decreases |order|
  {
    if order != [] {
      var batch := Batch(eligible, order[0], batchSize);
      FewIds(batch);
      if Delete(db, order[0], IdsOf(batch)).Some? {
        var db' := Delete(db, order[0], IdsOf(batch)).value;
        DeleteIsBounded(db, order[0], IdsOf(batch));
        DeleteStaysKeyed(db, order[0], IdsOf(batch));
        DeleteAllIsBounded(db', order[1..], eligible, batchSize, t);
      }
    }
  }

  lemma {:induction false} FirstSeenDistinct(eligible: seq<Record>)
    ensures Distinct(FirstSeen(eligible))
  {
    if eligible != [] { FirstSeenDistinct(eligible[..|eligible| - 1]); }
  }

  /** One run takes at most one batch of rows from each table. */
  lemma SweepIsBounded(db: Database, tables: seq<Table>, now: int, batchSize: nat, dryRun: bool, t: Table)
    requires Keyed(db)
    ensures Size(db, t) - batchSize <= Size(Sweep(db, tables, now, batchSize, dryRun).db, t) <= Size(db, t)
  {
    var eligible := Planned(db, tables, now);
    FirstSeenDistinct(eligible);
    DeleteAllIsBounded(db, FirstSeen(eligible), eligible, batchSize, t);
  }

  function TotalRows(db: Database): nat {
    |db.invoices| + |db.transactions| + |db.events| + |db.jobs|
  }

  lemma {:induction false} DeleteAllCounts(db: Database, order: seq<Table>, eligible: seq<Record>, batchSize: int)
    ensures var o := DeleteAll(db, order, eligible, batchSize); o.deleted == TotalRows(db) - TotalRows(o.db)
    decreases |order|
  {
    if order != [] {
      var t, ids := order[0], IdsOf(Batch(eligible, order[0], batchSize));
      if Delete(db, t, ids).Some? {
        FilterIn(NotIn(ids), Rows(db, t));
        DeleteAllCounts(Delete(db, t, ids).value, order[1..], eligible, batchSize);
      }
    }
  }

  /** The number a sweep reports is the number of rows the database lost; a dry run loses none. */
  lemma ReportedIsLost(db: Database, tables: seq<Table>, now: int, batchSize: int, dryRun: bool)
    ensures var o := Sweep(db, tables, now, batchSize, dryRun);
      o.deleted == TotalRows(db) - TotalRows(o.db) && (dryRun ==> o.db == db)
  {
    var eligible := Planned(db, tables, now);
    DeleteAllCounts(db, FirstSeen(eligible), eligible, batchSize);
  }

  // ---------- The job ----------

  /** Groups the eligible records by table, tables in the order in which they first occur. */
  method GroupByTable(eligible: seq<Record>) returns (order: seq<Table>, lists: map<Table, seq<Record>>)
    ensures order == FirstSeen(eligible)
    ensures forall t :: t in order ==> t in lists && lists[t] == Filter(OfTable(t), eligible)
  {
    order, lists := [], map[];
    var i := 0;
    while i < |eligible|
      invariant 0 <= i <= |eligible| && order == FirstSeen(eligible[..i])
      invariant forall t :: t in lists <==> t in order
      invariant forall t :: (if t in lists then lists[t] else []) == Filter(OfTable(t), eligible[..i])
    {
      var entry := eligible[i];
      forall t ensures Filter(OfTable(t), eligible[..i + 1]) == Filter(OfTable(t), eligible[..i]) + if entry.table == t then [entry] else [] {
        FilterNext(OfTable(t), eligible, i);
      }
      assert eligible[..i + 1][..i] == eligible[..i];
      var list := if entry.table in lists then lists[entry.table] else [];
      if entry.table !in lists { order := order + [entry.table]; }
      lists := lists[entry.table := list + [entry]];
      i := i + 1;
    }
    assert eligible[..i] == eligible;
  }

  function Plus(n: nat, o: Outcome): Outcome {
    o.(deleted := n + o.deleted)
  }

  /** One DELETE statement, and the rows it reports. */
  method DeleteBatch(outcome: Outcome, t: Table, ids: set<string>) returns (next: Outcome)
    requires outcome.ok
    ensures var db' := Delete(outcome.db, t, ids);
      && (db'.None? ==> next == outcome.(ok := false))
      && (db'.Some? ==> next == Outcome(db'.value, outcome.deleted + Removed(outcome.db, db'.value, t), true))
  {
    var db' := Delete(outcome.db, t, ids);
    if db'.None? {
      next := outcome.(ok := false);
    } else {
      next := Outcome(db'.value, outcome.deleted + Removed(outcome.db, db'.value, t), true);
    }
  }

  lemma DeleteAllFrom(o: Outcome, order: seq<Table>, i: nat, eligible: seq<Record>, batchSize: int)
    requires i < |order|
    ensures var next := Delete(o.db, order[i], IdsOf(Batch(eligible, order[i], batchSize)));
      Plus(o.deleted, DeleteAll(o.db, order[i..], eligible, batchSize)) ==
        if next.None? then o.(ok := false)
        else Plus(o.deleted + Removed(o.db, next.value, order[i]), DeleteAll(next.value, order[i + 1..], eligible, batchSize))
  {
    assert order[i..][0] == order[i] && order[i..][1..] == order[i + 1..];
  }

  method DeleteBatches(db: Database, order: seq<Table>, lists: map<Table, seq<Record>>, batchSize: int, ghost eligible: seq<Record>)
    returns (outcome: Outcome)
    requires forall t :: t in order ==> t in lists && lists[t] == Filter(OfTable(t), eligible)
    ensures outcome == DeleteAll(db, order, eligible, batchSize)
  {
    outcome := Outcome(db, 0, true);
    var i := 0;
    while i < |order| && outcome.ok
      invariant 0 <= i <= |order|
      invariant DeleteAll(db, order, eligible, batchSize) ==
        if outcome.ok then Plus(outcome.deleted, DeleteAll(outcome.db, order[i..], eligible, batchSize)) else outcome
    {
      var t := order[i];
      DeleteAllFrom(outcome, order, i, eligible, batchSize);
      outcome := DeleteBatch(outcome, t, IdsOf(SliceTo(lists[t], batchSize)));
      i := i + 1;
    }
  }

  method RunRetentionSweep(db: Database, tables: seq<Table>, now: int, batchSize: int, dryRun: bool)
    returns (outcome: Outcome, eligible: seq<Record>, protected: seq<Record>)
    ensures outcome == Sweep(db, tables, now, batchSize, dryRun)
    ensures eligible == Planned(db, tables, now) && protected == Filter(ProtectedAt(now), Load(db, tables, Links(db)))
  {
    var records := LoadTables(db, tables);
    var byClass;
    eligible, protected, byClass := PlanRetention(records, now);
    var order, lists := GroupByTable(eligible);
    outcome := Outcome(db, 0, true);
    if !dryRun {
      outcome := DeleteBatches(db, order, lists, batchSize, eligible);
    }
  }

  method LoadTables(db: Database, tables: seq<Table>) returns (records: seq<Record>)
    ensures records == Load(db, tables, Links(db))
  {
    var links := Links(db);
    records := [];
    var i := 0;
    while i < |tables|
      invariant 0 <= i <= |tables|
      invariant records + Load(db, tables[i..], links) == Load(db, tables, links)
    {
      records := records + Map(Loaded(tables[i], links), Rows(db, tables[i]));
      i := i + 1;
    }
  }
}
