/**
 * The retention policy: which stored rows may be deleted, and the plan that lists them.
 */
module Retention {
  import opened Basics

  datatype Table = Invoices | Transactions | PaymentEvents | Jobs

  /** A metadata value that counts as a hold flag, or any other. */
  datatype Meta = IsTrue | TrueText | Anything

  /**
   * A row with the columns the sweep looks at. `ref` is the invoice it belongs to,
   * times are milliseconds, and a missing column is None.
   */
  datatype Row = Row(
    id: string, ref: Option<string>, status: string, createdAt: Option<int>, completedAt: Option<int>,
    metadata: map<string, Meta>)

  /** A row as the planner sees it. */
  datatype Record = Record(table: Table, row: Row, linked: bool)

  datatype Reason = FinancialSettlement | LegalHold | WithinWindow | NotPurgeable

  datatype Verdict = Eligible(at: int) | Protected(reason: Reason, until: Option<int>)

  const DAY_MS := 86_400_000

  const HOLD_KEYS: seq<string> := ["legal_hold", "under_dispute", "under_audit"]

  predicate HasLegalHold(metadata: map<string, Meta>) {
    exists i :: 0 <= i < |HOLD_KEYS| && HOLD_KEYS[i] in metadata && metadata[HOLD_KEYS[i]] != Anything
  }

  /** Only invoices carry metadata, and only invoices and jobs a status, into the plan. */
  predicate Held(r: Record) {
    r.table == Invoices && HasLegalHold(r.row.metadata)
  }

  predicate Dead(r: Record) {
    (r.table == Invoices || r.table == Jobs) && r.row.status == "dead"
  }

  /** The age anchor is written out as text without its fraction of a second, and parsed back. */
  function Anchor(r: Record): Option<int> {
    var at := if r.table == Jobs && r.row.completedAt.Some? then r.row.completedAt else r.row.createdAt;
    if at.None? then None else Some(at.value - at.value % 1000)
  }

  function RetainDays(t: Table): int {
    match t
    case Invoices => 730
    case PaymentEvents => 730
    case Jobs => 30
    case Transactions => 0
  }

  function Days(r: Record): int {
    if Dead(r) then 90 else RetainDays(r.table)
  }

  function Classify(r: Record, now: int): Verdict {
    if r.table == Transactions || r.linked then Protected(FinancialSettlement, None)
    else if Held(r) then Protected(LegalHold, None)
    else if Anchor(r).None? then Protected(NotPurgeable, None)
    else
      var at := Anchor(r).value + Days(r) * DAY_MS;
      if now >= at then Eligible(at) else Protected(WithinWindow, Some(at))
  }

  function EligibleAt(now: int): Record -> bool {
    (r: Record) => Classify(r, now).Eligible?
  }

  function ProtectedAt(now: int): Record -> bool {
    (r: Record) => Classify(r, now).Protected?
  }

  /** Eligibility only grows with time, and comes exactly at the instant a verdict names. */
  lemma EligibilityIsMonotone(r: Record, now: int, later: int)
    requires now <= later
    ensures Classify(r, now).Eligible? ==> Classify(r, later) == Classify(r, now)
    ensures Classify(r, now).Protected? ==>
      (Classify(r, later).Eligible? <==> Classify(r, now).until.Some? && later >= Classify(r, now).until.value)
  {
  }

  /** A hold is one of three flags that is true or the text "true". */
  lemma LegalHoldExactly(metadata: map<string, Meta>)
    ensures HasLegalHold(metadata) <==>
      exists k :: k in {"legal_hold", "under_dispute", "under_audit"} && k in metadata && metadata[k] in {IsTrue, TrueText}
  {
    assert HOLD_KEYS[0] == "legal_hold" && HOLD_KEYS[1] == "under_dispute" && HOLD_KEYS[2] == "under_audit";
  }

  /** The instant that the age of a row is counted from. */
  function AgedFrom(t: Table, row: Row): Option<int> {
    if t == Jobs && row.completedAt.Some? then row.completedAt else row.createdAt
  }

  /**
   * Which rows are eligible, table by table: invoices and payment events after 730 days, jobs after 30,
   * dead rows after 90, transactions and linked rows never, invoices not while a flag holds them, and
   * no row without an age. The fraction of a second that the anchor loses counts in favour of deleting.
   */
  lemma EligibleExactly(r: Record, now: int)
    ensures Classify(r, now).Eligible? <==>
      && r.table in {Invoices, PaymentEvents, Jobs} && !r.linked
      && !(r.table == Invoices && exists k :: k in {"legal_hold", "under_dispute", "under_audit"} && k in r.row.metadata && r.row.metadata[k] in {IsTrue, TrueText})
      && AgedFrom(r.table, r.row).Some?
      && var at := AgedFrom(r.table, r.row).value;
         now + at % 1000 >= at + 86_400_000 *
           if r.table != PaymentEvents && r.row.status == "dead" then 90 else if r.table == Jobs then 30 else 730
  {
    LegalHoldExactly(r.row.metadata);
  }

  /** And why the others are protected: settlement before hold before missing age before the window. */
  lemma ProtectedBecause(r: Record, now: int)
    requires Classify(r, now).Protected?
    ensures var reason, settled := Classify(r, now).reason, r.table == Transactions || r.linked;
      var held := r.table == Invoices && exists k :: k in {"legal_hold", "under_dispute", "under_audit"} && k in r.row.metadata && r.row.metadata[k] in {IsTrue, TrueText};
      && (reason == FinancialSettlement <==> settled)
      && (reason == LegalHold <==> !settled && held)
      && (reason == NotPurgeable <==> !settled && !held && AgedFrom(r.table, r.row).None?)
  {
    LegalHoldExactly(r.row.metadata);
  }

  // ---------- The plan ----------

  datatype Tally = Tally(eligible: nat, protected: nat)

  function OfTable(t: Table): Record -> bool {
    (r: Record) => r.table == t
  }

  function TallyOf(byClass: map<Table, Tally>, t: Table): Tally {
    if t in byClass then byClass[t] else Tally(0, 0)
  }

  /** Splits the records and counts both halves per class. */
  method PlanRetention(records: seq<Record>, now: int)
    returns (eligible: seq<Record>, protected: seq<Record>, byClass: map<Table, Tally>)
    ensures eligible == Filter(EligibleAt(now), records) && protected == Filter(ProtectedAt(now), records)
    ensures |eligible| + |protected| == |records|
    ensures forall t :: TallyOf(byClass, t) == Tally(Count(OfTable(t), eligible), Count(OfTable(t), protected))
  {
    eligible, protected := [], [];
    var i := 0;
    while i < |records|
      invariant 0 <= i <= |records| && |eligible| + |protected| == i
      invariant eligible == Filter(EligibleAt(now), records[..i]) && protected == Filter(ProtectedAt(now), records[..i])
    {
      FilterNext(EligibleAt(now), records, i);
      FilterNext(ProtectedAt(now), records, i);
      if Classify(records[i], now).Protected? {
        protected := protected + [records[i]];
      } else {
        eligible := eligible + [records[i]];
      }
      i := i + 1;
    }
    assert records[..i] == records;
    FilterIn(EligibleAt(now), records);
    FilterIn(ProtectedAt(now), records);
    byClass := CountClasses(eligible, protected, now);
  }

  method CountClasses(eligible: seq<Record>, protected: seq<Record>, now: int) returns (byClass: map<Table, Tally>)
    requires forall r :: r in eligible ==> Classify(r, now).Eligible?
    requires forall r :: r in protected ==> Classify(r, now).Protected?
    ensures forall t :: TallyOf(byClass, t) == Tally(Count(OfTable(t), eligible), Count(OfTable(t), protected))
  {
    byClass := map[];
    var entries := eligible + protected;
    var i := 0;
    while i < |entries|
      invariant 0 <= i <= |entries|
      invariant forall t :: TallyOf(byClass, t) == TallyUpTo(eligible, protected, i, t)
    {
      var entry := entries[i];
      assert if i < |eligible| then entry in eligible else entry in protected;
      var bucket := Bumped(TallyOf(byClass, entry.table), Classify(entry, now).Eligible?);
      ghost var before := byClass;
      byClass := byClass[entry.table := bucket];
      forall t ensures TallyOf(byClass, t) == TallyUpTo(eligible, protected, i + 1, t) {
        TallyNext(eligible, protected, i, t);
        assert TallyOf(before, t) == TallyUpTo(eligible, protected, i, t);
      }
      i := i + 1;
    }
    assert eligible[..|eligible|] == eligible && protected[..|protected|] == protected;
  }

  /** The counts after the first `i` entries of both lists in a row. */
  function TallyUpTo(eligible: seq<Record>, protected: seq<Record>, i: nat, t: Table): Tally
    requires i <= |eligible| + |protected|
  {
    if i <= |eligible| then Tally(Count(OfTable(t), eligible[..i]), 0)
    else Tally(Count(OfTable(t), eligible), Count(OfTable(t), protected[..i - |eligible|]))
  }

  lemma CountNext(t: Table, s: seq<Record>, i: nat)
    requires i < |s|
    ensures Count(OfTable(t), s[..i + 1]) == Count(OfTable(t), s[..i]) + if s[i].table == t then 1 else 0
  {
    assert s[..i + 1] == s[..i] + [s[i]];
    CountAppend(OfTable(t), s[..i], [s[i]]);
    assert Count(OfTable(t), [s[i]]) == (if OfTable(t)(s[i]) then 1 else 0) + Count(OfTable(t), []);
  }

  function Bumped(tally: Tally, eligible: bool): Tally {
    if eligible then tally.(eligible := tally.eligible + 1) else tally.(protected := tally.protected + 1)
  }

  lemma TallyNext(eligible: seq<Record>, protected: seq<Record>, i: nat, t: Table)
    requires i < |eligible| + |protected|
    ensures var before := TallyUpTo(eligible, protected, i, t);
      TallyUpTo(eligible, protected, i + 1, t) ==
        if (eligible + protected)[i].table == t then Bumped(before, i < |eligible|) else before
  {
    if i < |eligible| {
      CountNext(t, eligible, i);
    } else {
      CountNext(t, protected, i - |eligible|);
      assert eligible[..|eligible|] == eligible && protected[..0] == [];
    }
  }
}
