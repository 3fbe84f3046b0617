/**
 * generateHistoricalTrendExport: counting source records into calendar windows,
 * filling empty windows, and capping the result.
 *
 * The counters of a bucket are a map from metric to number, with zero for what
 * is absent. Every record adds the same amounts to its bucket and to the totals.
 */
module TrendExport {
  import opened Basics
  import opened Ordering
  import Calendar

  // ---------- Counters ----------

  datatype Metric =
    | InvoicesCreated | InvoicesPaid | InvoicesExpired | InvoicesCancelled | InvoicesPending
    | GrossVolume(asset: string) | SettledVolume(asset: string)
    | OperationsTotal | OperationsSucceeded | OperationsFailed | FailuresByCode(code: string)
    | JobsSucceeded | JobsDeadLettered | JobsQueued | JobRetries
    | SlaBreaches
    | Dimension(name: string, value: string)

  type Counters = map<Metric, int>

  function Value(c: Counters, m: Metric): int {
    if m in c then c[m] else 0
  }

  datatype Increment = Increment(metric: Metric, amount: int)

  function Bump(c: Counters, incs: seq<Increment>): Counters
    decreases |incs|
  {
    if incs == [] then c
    else
      var i := incs[|incs| - 1];
      var d := Bump(c, incs[..|incs| - 1]);
      d[i.metric := Value(d, i.metric) + i.amount]
  }

  /** What a list of increments adds to one metric. */
  function Amount(incs: seq<Increment>, m: Metric): int
    decreases |incs|
  {
    if incs == [] then 0
    else Amount(incs[..|incs| - 1], m) + if incs[|incs| - 1].metric == m then incs[|incs| - 1].amount else 0
  }

  lemma {:induction false} BumpAdds(c: Counters, incs: seq<Increment>, m: Metric)
    ensures Value(Bump(c, incs), m) == Value(c, m) + Amount(incs, m)
    decreases |incs|
  {
    if incs != [] {
      BumpAdds(c, incs[..|incs| - 1], m);
    }
  }

  // ---------- Source records ----------

  datatype InvoiceStatus = PENDING | PAID | EXPIRED | CANCELLED
  datatype JobStatus = Succeeded | Dead | Queued | Running

  /** Records that carry no readable time have None there; stroops are zero for amounts out of range. */
  datatype Record =
    | InvoiceRecord(time: Option<int>, status: InvoiceStatus, stroops: nat, asset: string, expires: Option<int>, cohort: string)
    | OperationRecord(time: Option<int>, failure: bool, latency: int, errorCode: Option<string>, operation: string, actor: string)
    | JobRecord(time: Option<int>, job: JobStatus, attempts: int, jobType: string)

  datatype Config = Config(
    from: Option<int>, to: Option<int>, now: int, maxBuckets: int, maxRecords: int,
    slaLatency: int, slaGrace: int, dimensions: set<string>)

  function Optional(present: bool, inc: Increment): seq<Increment> {
    if present then [inc] else []
  }

  function Dim(c: Config, name: string, value: string): seq<Increment> {
    Optional(name in c.dimensions, Increment(Dimension(name, value), 1))
  }

  /** What the loops add to a target for one record. */
  function Increments(c: Config, r: Record): seq<Increment> {
    match r
    case InvoiceRecord(_, status, stroops, asset, expires, cohort) =>
      [Increment(InvoicesCreated, 1),
       Increment(match status case PAID => InvoicesPaid case EXPIRED => InvoicesExpired
                              case CANCELLED => InvoicesCancelled case PENDING => InvoicesPending, 1)]
      + Optional(stroops > 0, Increment(GrossVolume(asset), stroops))
      + Optional(stroops > 0 && status == PAID, Increment(SettledVolume(asset), stroops))
      + Optional(status == PENDING && expires.Some? && expires.value + c.slaGrace < c.now, Increment(SlaBreaches, 1))
      + Dim(c, "asset", asset)
      + Dim(c, "status", match status case PAID => "PAID" case EXPIRED => "EXPIRED"
                                      case CANCELLED => "CANCELLED" case PENDING => "PENDING")
      + Dim(c, "sellerCohort", cohort)
    case OperationRecord(_, failure, latency, errorCode, operation, actor) =>
      var code := if errorCode.Some? then errorCode else if failure then Some("UNSPECIFIED_ERROR") else None;
      [Increment(OperationsTotal, 1), Increment(if failure then OperationsFailed else OperationsSucceeded, 1)]
      + (if failure && code.Some? then [Increment(FailuresByCode(code.value), 1)] else [])
      + Optional(latency > c.slaLatency, Increment(SlaBreaches, 1))
      + Dim(c, "operation", operation)
      + Dim(c, "actorType", actor)
      + (if code.Some? then Dim(c, "errorCode", code.value) else [])
    case JobRecord(_, job, attempts, jobType) =>
      (match job
       case Succeeded => [Increment(JobsSucceeded, 1)]
       case Dead => [Increment(JobsDeadLettered, 1), Increment(SlaBreaches, 1)]
       case Queued => [Increment(JobsQueued, 1)]
       case Running => [Increment(JobsQueued, 1)])
      + [Increment(JobRetries, if attempts > 1 then attempts - 1 else 0)]
      + Dim(c, "jobType", jobType)
  }

  predicate InRange(c: Config, r: Record) {
    && r.time.Some?
    && (c.from.Some? ==> r.time.value >= c.from.value)
    && (c.to.Some? ==> r.time.value <= c.to.value)
  }

  // ---------- Windows ----------

  datatype Windows = Windows(floor: int -> int, next: int -> int) {
    /** From lo on, a window start, the windows follow each other without gap or overlap. */
    ghost predicate Tile(lo: int) {
      floor(lo) == lo && forall t :: t >= lo ==> Fits(lo, t)
    }

    ghost predicate Fits(lo: int, t: int) {
      && lo <= floor(t) <= t < next(floor(t))
      && floor(floor(t)) == floor(t)
      && floor(next(floor(t))) == next(floor(t))
      && forall s :: floor(t) <= s < next(floor(t)) ==> floor(s) == floor(t)
    }
  }

  function UtcWindows(g: Calendar.Granularity): Windows {
    Windows(t => Calendar.FloorToWindowStart(t, g), t => Calendar.AdvanceWindow(t, g))
  }

  // ---------- Accumulation ----------

  /** The bucket map with its insertion order, the totals, and how many records were counted. */
  datatype State = State(order: seq<int>, buckets: map<int, Counters>, totals: Counters, seen: nat, recordsCapped: bool)

  const EMPTY := State([], map[], map[], 0, false)

  /** getOrCreateBucket. */
  function Ensure(s: State, key: int): State {
    if key in s.buckets then s else s.(order := s.order + [key], buckets := s.buckets[key := map[]])
  }

  /** One record: skipped out of range, refused past the cap, otherwise added to its bucket and to the totals. */
  function Take(c: Config, w: Windows, s: State, r: Record): State {
    if !InRange(c, r) then s
    else if s.seen >= c.maxRecords then s.(recordsCapped := true)
    else
      var key := w.floor(r.time.value);
      var e := Ensure(s, key);
      var incs := Increments(c, r);
      e.(buckets := e.buckets[key := Bump(if key in e.buckets then e.buckets[key] else map[], incs)],
         totals := Bump(e.totals, incs), seen := s.seen + 1)
  }

  function TakeAll(c: Config, w: Windows, s: State, records: seq<Record>): State
    decreases |records|
  {
    if records == [] then s
    else Take(c, w, TakeAll(c, w, s, records[..|records| - 1]), records[|records| - 1])
  }

  lemma {:induction false} TakeAllAppend(c: Config, w: Windows, s: State, a: seq<Record>, b: seq<Record>)
    ensures TakeAll(c, w, s, a + b) == TakeAll(c, w, TakeAll(c, w, s, a), b)
    decreases |b|
  {
    if b == [] {
      assert a + b == a;
    } else {
      assert (a + b)[..|a + b| - 1] == a + b[..|b| - 1];
      TakeAllAppend(c, w, s, a, b[..|b| - 1]);
    }
  }

  lemma TakeFirst(c: Config, w: Windows, s: State, records: seq<Record>)
    requires records != []
    ensures TakeAll(c, w, s, records) == TakeAll(c, w, Take(c, w, s, records[0]), records[1..])
  {
    assert records == records[..1] + records[1..];
    TakeAllAppend(c, w, s, records[..1], records[1..]);
    assert records[..1][..0] == [];
    assert TakeAll(c, w, s, records[..1]) == Take(c, w, s, records[0]);
  }

  lemma TakeNext(c: Config, w: Windows, s: State, records: seq<Record>, i: nat)
    requires i < |records|
    ensures TakeAll(c, w, s, records[i..]) == TakeAll(c, w, Take(c, w, s, records[i]), records[i + 1..])
  {
    TakeFirst(c, w, s, records[i..]);
    assert records[i..][1..] == records[i + 1..];
  }

  lemma {:induction false} CappedStays(c: Config, w: Windows, s: State, records: seq<Record>)
    requires s.seen >= c.maxRecords && s.recordsCapped
    ensures TakeAll(c, w, s, records) == s
    decreases |records|
  {
    if records != [] {
      CappedStays(c, w, s, records[..|records| - 1]);
    }
  }

  // ---------- What the counters hold ----------

  /** Records with a readable time from `from` to `to`, both included where they are given. */
  function Fitting(c: Config): Record -> bool {
    (r: Record) =>
      && r.time.Some?
      && (c.from.Some? ==> c.from.value <= r.time.value)
      && (c.to.Some? ==> r.time.value <= c.to.value)
  }

  /** The records that are counted: the first ones in range, up to the cap. */
  function Counted(c: Config, records: seq<Record>): seq<Record> {
    SliceTo(Filter(Fitting(c), records), c.maxRecords)
  }

  function Adds(c: Config, m: Metric): Record -> int {
    r => Amount(Increments(c, r), m)
  }

  function AddsTo(c: Config, w: Windows, key: int, m: Metric): Record -> int {
    (r: Record) => if r.time.Some? && w.floor(r.time.value) == key then Amount(Increments(c, r), m) else 0
  }

  ghost predicate InBuckets(w: Windows, s: State, r: Record) {
    r.time.Some? && w.floor(r.time.value) in s.buckets
  }

  /** The state after counting exactly these records, whichever empty buckets it also has. */
  ghost predicate Holds(c: Config, w: Windows, s: State, counted: seq<Record>) {
    && Distinct(s.order)
    && (forall k :: k in s.order <==> k in s.buckets)
    && s.seen == |counted|
    && (forall i :: 0 <= i < |counted| ==> InRange(c, counted[i]) && InBuckets(w, s, counted[i]))
    && (forall m :: Value(s.totals, m) == Sum(Adds(c, m), counted))
    && (forall k, m :: k in s.buckets ==> Value(s.buckets[k], m) == Sum(AddsTo(c, w, k, m), counted))
  }

  lemma {:induction false} NoneAdded(c: Config, w: Windows, key: int, m: Metric, counted: seq<Record>)
    requires forall i :: 0 <= i < |counted| ==> counted[i].time.Some? ==> w.floor(counted[i].time.value) != key
    ensures Sum(AddsTo(c, w, key, m), counted) == 0
  {
    if counted != [] {
      NoneAdded(c, w, key, m, counted[1..]);
    }
  }

  lemma EnsureHolds(c: Config, w: Windows, s: State, key: int, counted: seq<Record>)
    requires Holds(c, w, s, counted)
    ensures Holds(c, w, Ensure(s, key), counted)
  {
    if key !in s.buckets {
      var e := Ensure(s, key);
      forall m ensures Value(e.buckets[key], m) == Sum(AddsTo(c, w, key, m), counted) {
        NoneAdded(c, w, key, m, counted);
      }
    }
  }

  lemma SumOne(f: Record -> int, counted: seq<Record>, r: Record)
    ensures Sum(f, counted + [r]) == Sum(f, counted) + f(r)
  {
    SumAppend(f, counted, [r]);
  }

  lemma TotalsGrow(c: Config, totals: Counters, r: Record, counted: seq<Record>)
    requires forall m :: Value(totals, m) == Sum(Adds(c, m), counted)
    ensures forall m :: Value(Bump(totals, Increments(c, r)), m) == Sum(Adds(c, m), counted + [r])
  {
    forall m ensures Value(Bump(totals, Increments(c, r)), m) == Sum(Adds(c, m), counted + [r]) {
      BumpAdds(totals, Increments(c, r), m);
      SumOne(Adds(c, m), counted, r);
    }
  }

  lemma BucketsGrow(c: Config, w: Windows, buckets: map<int, Counters>, key: int, r: Record, counted: seq<Record>)
    requires r.time.Some? && key == w.floor(r.time.value) && key in buckets
    requires forall k, m :: k in buckets ==> Value(buckets[k], m) == Sum(AddsTo(c, w, k, m), counted)
    ensures var next := buckets[key := Bump(buckets[key], Increments(c, r))];
      forall k, m :: k in next ==> Value(next[k], m) == Sum(AddsTo(c, w, k, m), counted + [r])
  {
    var next := buckets[key := Bump(buckets[key], Increments(c, r))];
    forall k, m | k in next ensures Value(next[k], m) == Sum(AddsTo(c, w, k, m), counted + [r]) {
      BumpAdds(buckets[key], Increments(c, r), m);
      SumOne(AddsTo(c, w, k, m), counted, r);
    }
  }

  lemma CountHolds(c: Config, w: Windows, s: State, r: Record, counted: seq<Record>)
    requires Holds(c, w, s, counted) && InRange(c, r) && w.floor(r.time.value) in s.buckets
    ensures var key := w.floor(r.time.value);
      var incs := Increments(c, r);
      Holds(c, w, s.(buckets := s.buckets[key := Bump(s.buckets[key], incs)], totals := Bump(s.totals, incs), seen := s.seen + 1),
            counted + [r])
  {
    TotalsGrow(c, s.totals, r, counted);
    BucketsGrow(c, w, s.buckets, w.floor(r.time.value), r, counted);
  }

  lemma TakeHolds(c: Config, w: Windows, s: State, r: Record, counted: seq<Record>)
    requires Holds(c, w, s, counted) && InRange(c, r) && s.seen < c.maxRecords
    ensures Holds(c, w, Take(c, w, s, r), counted + [r])
  {
    var key := w.floor(r.time.value);
    EnsureHolds(c, w, s, key, counted);
    CountHolds(c, w, Ensure(s, key), r, counted);
  }

  /** The state after the records in range `f`: it holds the first ones up to the cap, and says so if there were more. */
  ghost predicate Took(c: Config, w: Windows, s: State, f: seq<Record>) {
    Holds(c, w, s, SliceTo(f, c.maxRecords)) && (s.recordsCapped <==> |f| > c.maxRecords)
  }

  lemma TookNothing(c: Config, w: Windows)
    requires c.maxRecords >= 1
    ensures Took(c, w, EMPTY, [])
  {
  }

  lemma {:induction false} TookAll(c: Config, w: Windows, records: seq<Record>)
    requires c.maxRecords >= 1
    ensures Took(c, w, TakeAll(c, w, EMPTY, records), Filter(Fitting(c), records))
    decreases |records|
  {
    if records == [] {
      TookNothing(c, w);
    } else {
      var n := |records| - 1;
      TookAll(c, w, records[..n]);
      FilterNext(Fitting(c), records, n);
      assert records[..n + 1] == records;
      FittingIsInRange(c, records[n]);
      TookOneMore(c, w, TakeAll(c, w, EMPTY, records[..n]), records[n], Filter(Fitting(c), records[..n]));
    }
  }

  /** After any records, the counters hold the first ones in range, and the cap is reported iff some were left over. */
  lemma TakeAllHolds(c: Config, w: Windows, records: seq<Record>)
    requires c.maxRecords >= 1
    ensures var s := TakeAll(c, w, EMPTY, records);
      && Holds(c, w, s, Counted(c, records))
      && (s.recordsCapped <==> |Filter(Fitting(c), records)| > c.maxRecords)
  {
    TookAll(c, w, records);
  }

  lemma FittingIsInRange(c: Config, r: Record)
    ensures Fitting(c)(r) == InRange(c, r)
  {
  }

  /** One more record, out of range, within the cap or past it. */
  lemma TookOneMore(c: Config, w: Windows, s: State, r: Record, f: seq<Record>)
    requires c.maxRecords >= 1 && Took(c, w, s, f)
    ensures Took(c, w, Take(c, w, s, r), f + if InRange(c, r) then [r] else [])
  {
    if !InRange(c, r) {
      assert f + [] == f;
    } else if s.seen < c.maxRecords {
      assert SliceTo(f, c.maxRecords) == f;
      assert SliceTo(f + [r], c.maxRecords) == f + [r];
      TakeHolds(c, w, s, r, f);
    } else {
      assert SliceTo(f + [r], c.maxRecords) == SliceTo(f, c.maxRecords);
    }
  }

  // ---------- Conservation ----------

  /** Each counted record is in exactly one of the listed buckets, so the buckets add up to the totals. */
  lemma {:induction false} BucketsSum(c: Config, w: Windows, m: Metric, counted: seq<Record>, keys: seq<int>)
    requires Distinct(keys)
    requires forall i :: 0 <= i < |counted| ==> counted[i].time.Some? && w.floor(counted[i].time.value) in keys
    ensures Sum(k => Sum(AddsTo(c, w, k, m), counted), keys) == Sum(Adds(c, m), counted)
  {
    if counted == [] {
      ZeroSum(k => Sum(AddsTo(c, w, k, m), []), keys);
      SumSame(k => Sum(AddsTo(c, w, k, m), counted), k => Sum(AddsTo(c, w, k, m), []), keys);
    } else {
      var r, rest := counted[0], counted[1..];
      BucketsSum(c, w, m, rest, keys);
      var one := (k: int) => AddsTo(c, w, k, m)(r);
      SumSplit(k => Sum(AddsTo(c, w, k, m), counted), one, k => Sum(AddsTo(c, w, k, m), rest), keys);
      OneBucket(one, keys, w.floor(r.time.value));
    }
  }

  lemma {:induction false} ZeroSum(f: int -> int, keys: seq<int>)
    requires forall i :: 0 <= i < |keys| ==> f(keys[i]) == 0
    ensures Sum(f, keys) == 0
  {
    if keys != [] { ZeroSum(f, keys[1..]); }
  }

  lemma {:induction false} SumSame(f: int -> int, g: int -> int, keys: seq<int>)
    requires forall i :: 0 <= i < |keys| ==> f(keys[i]) == g(keys[i])
    ensures Sum(f, keys) == Sum(g, keys)
  {
    if keys != [] { SumSame(f, g, keys[1..]); }
  }

  lemma {:induction false} SumSplit(f: int -> int, g: int -> int, h: int -> int, keys: seq<int>)
    requires forall i :: 0 <= i < |keys| ==> f(keys[i]) == g(keys[i]) + h(keys[i])
    ensures Sum(f, keys) == Sum(g, keys) + Sum(h, keys)
  {
    if keys != [] { SumSplit(f, g, h, keys[1..]); }
  }

  lemma {:induction false} OneBucket(f: int -> int, keys: seq<int>, key: int)
    requires Distinct(keys) && key in keys && forall k :: k != key ==> f(k) == 0
    ensures Sum(f, keys) == f(key)
  {
    if keys[0] == key {
      assert forall i :: 0 <= i < |keys[1..]| ==> keys[1..][i] != key;
      ZeroSum(f, keys[1..]);
    } else {
      OneBucket(f, keys[1..], key);
    }
  }

  // ---------- What the metrics mean ----------

  predicate IsInvoice(r: Record, status: InvoiceStatus) {
    r.InvoiceRecord? && r.status == status
  }

  function ErrorCode(r: Record): Option<string>
    requires r.OperationRecord?
  {
    if r.errorCode.Some? then r.errorCode else if r.failure then Some("UNSPECIFIED_ERROR") else None
  }

  /** The value a record has for a requested dimension. */
  function Label(r: Record, name: string): Option<string> {
    match r
    case InvoiceRecord(_, status, _, asset, _, cohort) =>
      if name == "asset" then Some(asset)
      else if name == "status" then Some(match status case PAID => "PAID" case EXPIRED => "EXPIRED" case CANCELLED => "CANCELLED" case PENDING => "PENDING")
      else if name == "sellerCohort" then Some(cohort)
      else None
    case OperationRecord(_, _, _, _, operation, actor) =>
      if name == "operation" then Some(operation)
      else if name == "actorType" then Some(actor)
      else if name == "errorCode" then ErrorCode(r)
      else None
    case JobRecord(_, _, _, jobType) => if name == "jobType" then Some(jobType) else None
  }

  predicate Breaches(c: Config, r: Record) {
    match r
    case InvoiceRecord(_, status, _, _, expires, _) => status == PENDING && expires.Some? && expires.value + c.slaGrace < c.now
    case OperationRecord(_, _, latency, _, _, _) => latency > c.slaLatency
    case JobRecord(_, job, _, _) => job == Dead
  }

  /** Whether a record is one of those that a counting metric counts. */
  predicate Counts(c: Config, r: Record, m: Metric) {
    match m
    case InvoicesCreated => r.InvoiceRecord?
    case InvoicesPaid => IsInvoice(r, PAID)
    case InvoicesExpired => IsInvoice(r, EXPIRED)
    case InvoicesCancelled => IsInvoice(r, CANCELLED)
    case InvoicesPending => IsInvoice(r, PENDING)
    case OperationsTotal => r.OperationRecord?
    case OperationsSucceeded => r.OperationRecord? && !r.failure
    case OperationsFailed => r.OperationRecord? && r.failure
    case FailuresByCode(code) => r.OperationRecord? && r.failure && ErrorCode(r) == Some(code)
    case JobsSucceeded => r.JobRecord? && r.job == Succeeded
    case JobsDeadLettered => r.JobRecord? && r.job == Dead
    case JobsQueued => r.JobRecord? && (r.job == Queued || r.job == Running)
    case SlaBreaches => Breaches(c, r)
    case Dimension(name, value) => name in c.dimensions && Label(r, name) == Some(value)
    case GrossVolume(asset) => r.InvoiceRecord? && r.asset == asset
    case SettledVolume(asset) => IsInvoice(r, PAID) && r.asset == asset
    case JobRetries => r.JobRecord? && r.attempts > 1
  }

  /** What a record is worth to a metric: stroops to a volume, repeated attempts to retries, else one. */
  function Worth(c: Config, r: Record, m: Metric): int {
    if !Counts(c, r, m) then 0
    else if (m.GrossVolume? || m.SettledVolume?) && r.InvoiceRecord? then r.stroops
    else if m.JobRetries? && r.JobRecord? then r.attempts - 1
    else 1
  }

  lemma {:induction false} AmountAppend(a: seq<Increment>, b: seq<Increment>, m: Metric)
    ensures Amount(a + b, m) == Amount(a, m) + Amount(b, m)
    decreases |b|
  {
    if b == [] {
      assert a + b == a;
    } else {
      assert (a + b)[..|a + b| - 1] == a + b[..|b| - 1];
      AmountAppend(a, b[..|b| - 1], m);
    }
  }

  lemma AmountOne(i: Increment, m: Metric)
    ensures Amount([i], m) == if i.metric == m then i.amount else 0
  {
    assert [i][..0] == [];
  }

  lemma AmountTwo(i: Increment, j: Increment, m: Metric)
    ensures Amount([i, j], m) == (if i.metric == m then i.amount else 0) + if j.metric == m then j.amount else 0
  {
    assert [i, j] == [i] + [j];
    AmountAppend([i], [j], m);
    AmountOne(i, m);
    AmountOne(j, m);
  }

  lemma AmountOptional(present: bool, i: Increment, m: Metric)
    ensures Amount(Optional(present, i), m) == if present && i.metric == m then i.amount else 0
  {
    AmountOne(i, m);
  }

  lemma AmountDim(c: Config, name: string, value: string, m: Metric)
    ensures Amount(Dim(c, name, value), m) == if name in c.dimensions && m == Dimension(name, value) then 1 else 0
  {
    AmountOptional(name in c.dimensions, Increment(Dimension(name, value), 1), m);
  }

  lemma SixParts(a: seq<Increment>, b: seq<Increment>, c: seq<Increment>, d: seq<Increment>, e: seq<Increment>, f: seq<Increment>, m: Metric)
    ensures Amount(a + b + c + d + e + f, m) ==
      Amount(a, m) + Amount(b, m) + Amount(c, m) + Amount(d, m) + Amount(e, m) + Amount(f, m)
  {
    AmountAppend(a + b + c + d + e, f, m);
    AmountAppend(a + b + c + d, e, m);
    AmountAppend(a + b + c, d, m);
    AmountAppend(a + b, c, m);
    AmountAppend(a, b, m);
  }

  function StatusMetric(status: InvoiceStatus): Metric {
    match status case PAID => InvoicesPaid case EXPIRED => InvoicesExpired case CANCELLED => InvoicesCancelled case PENDING => InvoicesPending
  }

  function If(b: bool, n: int): int {
    if b then n else 0
  }

  predicate IsDim(c: Config, name: string, value: string, m: Metric) {
    name in c.dimensions && m == Dimension(name, value)
  }

  lemma InvoiceParts(c: Config, r: Record, m: Metric, status: string)
    requires r.InvoiceRecord? && Label(r, "status") == Some(status)
    ensures Amount(Increments(c, r), m) ==
      Amount([Increment(InvoicesCreated, 1), Increment(StatusMetric(r.status), 1)], m)
      + Amount(Optional(r.stroops > 0, Increment(GrossVolume(r.asset), r.stroops)), m)
      + Amount(Optional(r.stroops > 0 && r.status == PAID, Increment(SettledVolume(r.asset), r.stroops)), m)
      + Amount(Optional(Breaches(c, r), Increment(SlaBreaches, 1)), m)
      + Amount(Dim(c, "asset", r.asset), m) + Amount(Dim(c, "status", status), m) + Amount(Dim(c, "sellerCohort", r.cohort), m)
  {
    var gross, settled := Increment(GrossVolume(r.asset), r.stroops), Increment(SettledVolume(r.asset), r.stroops);
    var a, b := [Increment(InvoicesCreated, 1), Increment(StatusMetric(r.status), 1)], Optional(r.stroops > 0, gross);
    var d, e := Optional(r.stroops > 0 && r.status == PAID, settled), Optional(Breaches(c, r), Increment(SlaBreaches, 1));
    var f, g, h := Dim(c, "asset", r.asset), Dim(c, "status", status), Dim(c, "sellerCohort", r.cohort);
    assert Increments(c, r) == a + b + d + e + f + g + h;
    SixParts(a, b, d, e, f, g, m);
    AmountAppend(a + b + d + e + f + g, h, m);
  }

  lemma InvoiceAmount(c: Config, r: Record, m: Metric, status: string)
    requires r.InvoiceRecord? && Label(r, "status") == Some(status)
    ensures Amount(Increments(c, r), m) ==
      If(m == InvoicesCreated, 1) + If(m == StatusMetric(r.status), 1) + If(m == GrossVolume(r.asset), r.stroops)
      + If(r.status == PAID && m == SettledVolume(r.asset), r.stroops) + If(Breaches(c, r) && m == SlaBreaches, 1)
      + If(IsDim(c, "asset", r.asset, m), 1) + If(IsDim(c, "status", status, m), 1) + If(IsDim(c, "sellerCohort", r.cohort, m), 1)
  {
    InvoiceParts(c, r, m, status);
    AmountTwo(Increment(InvoicesCreated, 1), Increment(StatusMetric(r.status), 1), m);
    AmountOptional(r.stroops > 0, Increment(GrossVolume(r.asset), r.stroops), m);
    AmountOptional(r.stroops > 0 && r.status == PAID, Increment(SettledVolume(r.asset), r.stroops), m);
    AmountOptional(Breaches(c, r), Increment(SlaBreaches, 1), m);
    AmountDim(c, "asset", r.asset, m);
    AmountDim(c, "status", status, m);
    AmountDim(c, "sellerCohort", r.cohort, m);
  }

  lemma InvoiceWorth(c: Config, r: Record, m: Metric)
    requires r.InvoiceRecord?
    ensures Amount(Increments(c, r), m) == Worth(c, r, m)
  {
    InvoiceAmount(c, r, m, Label(r, "status").value);
  }

  lemma OperationAmount(c: Config, r: Record, m: Metric, code: Option<string>)
    requires r.OperationRecord? && code == ErrorCode(r)
    ensures Amount(Increments(c, r), m) ==
      If(m == OperationsTotal, 1) + If(m == (if r.failure then OperationsFailed else OperationsSucceeded), 1)
      + If(r.failure && code.Some? && m == FailuresByCode(code.value), 1) + If(r.latency > c.slaLatency && m == SlaBreaches, 1)
      + If(IsDim(c, "operation", r.operation, m), 1) + If(IsDim(c, "actorType", r.actor, m), 1)
      + If(code.Some? && IsDim(c, "errorCode", code.value, m), 1)
  {
    var a := [Increment(OperationsTotal, 1), Increment(if r.failure then OperationsFailed else OperationsSucceeded, 1)];
    var b := if r.failure && code.Some? then [Increment(FailuresByCode(code.value), 1)] else [];
    var d := Optional(r.latency > c.slaLatency, Increment(SlaBreaches, 1));
    var e, f := Dim(c, "operation", r.operation), Dim(c, "actorType", r.actor);
    var g := if code.Some? then Dim(c, "errorCode", code.value) else [];
    assert Increments(c, r) == a + b + d + e + f + g;
    SixParts(a, b, d, e, f, g, m);
    AmountTwo(a[0], a[1], m);
    if code.Some? {
      AmountOne(Increment(FailuresByCode(code.value), 1), m);
      AmountDim(c, "errorCode", code.value, m);
    }
    AmountOptional(r.latency > c.slaLatency, Increment(SlaBreaches, 1), m);
    AmountDim(c, "operation", r.operation, m);
    AmountDim(c, "actorType", r.actor, m);
  }

  lemma OperationWorth(c: Config, r: Record, m: Metric)
    requires r.OperationRecord?
    ensures Amount(Increments(c, r), m) == Worth(c, r, m)
  {
    OperationAmount(c, r, m, ErrorCode(r));
  }

  lemma JobAmount(c: Config, r: Record, m: Metric, first: Metric)
    requires r.JobRecord? && first == (match r.job case Succeeded => JobsSucceeded case Dead => JobsDeadLettered case _ => JobsQueued)
    ensures Amount(Increments(c, r), m) ==
      If(m == first, 1) + If(r.job == Dead && m == SlaBreaches, 1)
      + If(m == JobRetries, if r.attempts > 1 then r.attempts - 1 else 0) + If(IsDim(c, "jobType", r.jobType, m), 1)
  {
    var a := if r.job == Dead then [Increment(first, 1), Increment(SlaBreaches, 1)] else [Increment(first, 1)];
    var retries := Increment(JobRetries, if r.attempts > 1 then r.attempts - 1 else 0);
    var d := Dim(c, "jobType", r.jobType);
    assert Increments(c, r) == a + [retries] + d;
    AmountAppend(a + [retries], d, m);
    AmountAppend(a, [retries], m);
    AmountOne(retries, m);
    AmountDim(c, "jobType", r.jobType, m);
    if r.job == Dead { AmountTwo(a[0], a[1], m); } else { AmountOne(a[0], m); }
  }

  lemma JobWorth(c: Config, r: Record, m: Metric)
    requires r.JobRecord?
    ensures Amount(Increments(c, r), m) == Worth(c, r, m)
  {
    JobAmount(c, r, m, match r.job case Succeeded => JobsSucceeded case Dead => JobsDeadLettered case _ => JobsQueued);
  }

  /** What the loops add for a record is what the record is worth to each metric. */
  lemma AmountIsWorth(c: Config, r: Record, m: Metric)
    ensures Amount(Increments(c, r), m) == Worth(c, r, m)
  {
    match r
    case InvoiceRecord(_, _, _, _, _, _) => InvoiceWorth(c, r, m);
    case OperationRecord(_, _, _, _, _, _) => OperationWorth(c, r, m);
    case JobRecord(_, _, _, _) => JobWorth(c, r, m);
  }

  function WorthOf(c: Config, m: Metric): Record -> int {
    (r: Record) => Worth(c, r, m)
  }

  lemma {:induction false} SumIsWorth(c: Config, m: Metric, records: seq<Record>)
    ensures Sum(Adds(c, m), records) == Sum(WorthOf(c, m), records)
  {
    if records != [] {
      AmountIsWorth(c, records[0], m);
      SumIsWorth(c, m, records[1..]);
    }
  }

  /**
   * Statuses partition the invoices, outcomes the operations, and of every asset no more is settled
   * than was invoiced.
   */
  lemma {:induction false} WorthsBalance(c: Config, records: seq<Record>, asset: string)
    ensures Sum(WorthOf(c, InvoicesCreated), records) == Sum(WorthOf(c, InvoicesPaid), records) + Sum(WorthOf(c, InvoicesExpired), records)
      + Sum(WorthOf(c, InvoicesCancelled), records) + Sum(WorthOf(c, InvoicesPending), records)
    ensures Sum(WorthOf(c, OperationsTotal), records) == Sum(WorthOf(c, OperationsSucceeded), records) + Sum(WorthOf(c, OperationsFailed), records)
    ensures 0 <= Sum(WorthOf(c, SettledVolume(asset)), records) <= Sum(WorthOf(c, GrossVolume(asset)), records)
  {
    if records != [] { WorthsBalance(c, records[1..], asset); }
  }

  // ---------- Filling empty windows ----------

  function FillFrom(w: Windows, s: State, cursor: int, upTo: int, budget: nat): State
    decreases budget
  {
    if cursor <= upTo && budget > 0 then FillFrom(w, Ensure(s, cursor), w.next(cursor), upTo, budget - 1) else s
  }

  /** The window starts from start upTo the last one at or before to. */
  function WindowList(w: Windows, start: int, upTo: int): seq<int>
    decreases upTo - start
  {
    if start > upTo then []
    else if w.next(start) <= start then [start]
    else [start] + WindowList(w, w.next(start), upTo)
  }

  ghost predicate Ascending(s: seq<int>) {
    forall i, j :: 0 <= i < j < |s| ==> s[i] < s[j]
  }

  /** The list is ascending, and holds exactly the window starts between its ends. */
  lemma {:induction false} WindowListHolds(w: Windows, lo: int, start: int, upTo: int)
    requires w.Tile(lo) && lo <= start && w.floor(start) == start
    ensures Ascending(WindowList(w, start, upTo))
    ensures forall x :: x in WindowList(w, start, upTo) <==> start <= x <= upTo && w.floor(x) == x
    decreases upTo - start
  {
    assert w.Fits(lo, start);
    if start <= upTo {
      var next := w.next(start);
      WindowListHolds(w, lo, next, upTo);
      var rest := WindowList(w, next, upTo);
      assert forall i :: 0 <= i < |rest| ==> rest[i] in rest;
      forall x | start <= x <= upTo && w.floor(x) == x ensures x == start || x in rest {
        assert start <= x < next ==> w.floor(x) == start;
      }
    }
  }

  lemma {:induction false} FillHolds(c: Config, w: Windows, s: State, cursor: int, upTo: int, budget: nat, counted: seq<Record>)
    requires Holds(c, w, s, counted)
    ensures Holds(c, w, FillFrom(w, s, cursor, upTo, budget), counted)
    ensures FillFrom(w, s, cursor, upTo, budget).recordsCapped == s.recordsCapped
    decreases budget
  {
    if cursor <= upTo && budget > 0 {
      EnsureHolds(c, w, s, cursor, counted);
      FillHolds(c, w, Ensure(s, cursor), w.next(cursor), upTo, budget - 1, counted);
    }
  }

  lemma {:induction false} FillKeys(w: Windows, lo: int, s: State, cursor: int, upTo: int, budget: nat)
    requires w.Tile(lo) && lo <= cursor && w.floor(cursor) == cursor
    ensures forall k :: k in FillFrom(w, s, cursor, upTo, budget).buckets <==>
      k in s.buckets || k in SliceTo(WindowList(w, cursor, upTo), budget)
    decreases budget
  {
    assert w.Fits(lo, cursor);
    if cursor <= upTo && budget > 0 {
      var list, rest := WindowList(w, cursor, upTo), WindowList(w, w.next(cursor), upTo);
      FillKeys(w, lo, Ensure(s, cursor), w.next(cursor), upTo, budget - 1);
      assert list == [cursor] + rest;
      assert SliceTo(list, budget) == [cursor] + SliceTo(rest, budget - 1);
    }
  }

  // ---------- The export ----------

  const ASC: int -> Pos := k => Pos(-k, "")

  datatype Export = Export(keys: seq<int>, buckets: map<int, Counters>, totals: Counters, recordsCapped: bool, bucketsCapped: bool)

  function Finish(c: Config, w: Windows, fill: bool, records: seq<Record>): State {
    var s := TakeAll(c, w, EMPTY, records);
    if fill && c.from.Some? && c.to.Some? && c.maxBuckets >= 0
    then FillFrom(w, s, w.floor(c.from.value), c.to.value, c.maxBuckets + 1) else s
  }

  function ExportOf(c: Config, s: State): Export {
    Export(SliceTo(Sort(ASC, s.order), c.maxBuckets), s.buckets, s.totals, s.recordsCapped, |s.order| > c.maxBuckets)
  }

  lemma AscendingSort(s: seq<int>)
    requires Distinct(s)
    ensures Ascending(Sort(ASC, s)) && |Sort(ASC, s)| == |s|
    ensures forall k :: k in Sort(ASC, s) <==> k in s
  {
    assert forall i, j :: 0 <= i < j < |s| ==> ASC(s[i]) != ASC(s[j]);
    SortStrict(ASC, s);
    SortMultiset(ASC, s);
    SortElements(ASC, s);
    var t := Sort(ASC, s);
    forall i, j | 0 <= i < j < |t| ensures t[i] < t[j] {
      assert Before(ASC(t[i]), ASC(t[j]));
    }
  }

  lemma FinishHolds(c: Config, w: Windows, fill: bool, records: seq<Record>)
    requires c.maxRecords >= 1
    ensures Holds(c, w, Finish(c, w, fill, records), Counted(c, records))
    ensures Finish(c, w, fill, records).recordsCapped <==> |Filter(Fitting(c), records)| > c.maxRecords
  {
    TakeAllHolds(c, w, records);
    if fill && c.from.Some? && c.to.Some? && c.maxBuckets >= 0 {
      FillHolds(c, w, TakeAll(c, w, EMPTY, records), w.floor(c.from.value), c.to.value, c.maxBuckets + 1, Counted(c, records));
    }
  }

  function BucketValue(e: Export, m: Metric): int -> int {
    k => if k in e.buckets then Value(e.buckets[k], m) else 0
  }

  /** In any state that holds some records, the buckets that are exported add up to the totals. */
  lemma HeldSums(c: Config, w: Windows, s: State, counted: seq<Record>, m: Metric)
    requires Holds(c, w, s, counted) && |s.order| <= c.maxBuckets
    ensures Sum(BucketValue(ExportOf(c, s), m), ExportOf(c, s).keys) == Value(s.totals, m)
  {
    var e := ExportOf(c, s);
    AscendingSort(s.order);
    assert e.keys == Sort(ASC, s.order);
    forall i | 0 <= i < |counted| ensures counted[i].time.Some? && w.floor(counted[i].time.value) in e.keys {
      assert InBuckets(w, s, counted[i]);
      var k := w.floor(counted[i].time.value);
      assert k in s.order;
      assert k in Sort(ASC, s.order);
    }
    BucketsSum(c, w, m, counted, e.keys);
    SumSame(BucketValue(e, m), k => Sum(AddsTo(c, w, k, m), counted), e.keys);
  }

  /**
   * Conservation: unless buckets were cut off, every counter and every per-asset
   * volume of the totals is the sum over the exported buckets, and it is what the
   * counted records add up to.
   */
  lemma TotalsAreBucketSums(c: Config, w: Windows, fill: bool, records: seq<Record>, m: Metric)
    requires c.maxRecords >= 1
    ensures var e := ExportOf(c, Finish(c, w, fill, records));
      && Value(e.totals, m) == Sum(Adds(c, m), Counted(c, records))
      && (!e.bucketsCapped ==> Sum(BucketValue(e, m), e.keys) == Value(e.totals, m))
      && (e.recordsCapped <==> |Filter(Fitting(c), records)| > c.maxRecords)
  {
    var s := Finish(c, w, fill, records);
    FinishHolds(c, w, fill, records);
    if |s.order| <= c.maxBuckets {
      HeldSums(c, w, s, Counted(c, records), m);
    }
  }

  /** So each total is what the counted records are worth, and the totals balance. */
  lemma TotalsMean(c: Config, w: Windows, fill: bool, records: seq<Record>, asset: string)
    requires c.maxRecords >= 1
    ensures var totals := ExportOf(c, Finish(c, w, fill, records)).totals;
      && (forall m :: Value(totals, m) == Sum(WorthOf(c, m), Counted(c, records)))
      && Value(totals, InvoicesCreated) == Value(totals, InvoicesPaid) + Value(totals, InvoicesExpired)
         + Value(totals, InvoicesCancelled) + Value(totals, InvoicesPending)
      && Value(totals, OperationsTotal) == Value(totals, OperationsSucceeded) + Value(totals, OperationsFailed)
      && 0 <= Value(totals, SettledVolume(asset)) <= Value(totals, GrossVolume(asset))
  {
    var totals := ExportOf(c, Finish(c, w, fill, records)).totals;
    forall m ensures Value(totals, m) == Sum(WorthOf(c, m), Counted(c, records)) {
      TotalsAreBucketSums(c, w, fill, records, m);
      SumIsWorth(c, m, Counted(c, records));
    }
    WorthsBalance(c, Counted(c, records), asset);
  }

  // ---------- Filled exports list consecutive windows ----------

  /** An ascending list that contains p, and otherwise only larger numbers, starts with p. */
  lemma {:induction false} AscendingPrefix(s: seq<int>, p: seq<int>)
    requires Ascending(s) && Ascending(p)
    requires forall x :: x in p ==> x in s
    requires forall x :: x in s ==> x in p || p == [] || p[|p| - 1] < x
    ensures p <= s
  {
    if p != [] {
      assert p[0] in s && p[|p| - 1] in p;
      assert s[0] in s;
      assert s[0] == p[0];
      AscendingTail(s);
      AscendingTail(p);
      AscendingPrefix(s[1..], p[1..]);
      assert s == [s[0]] + s[1..] && p == [p[0]] + p[1..];
    }
  }

  lemma AscendingTail(s: seq<int>)
    requires Ascending(s) && s != []
    ensures Ascending(s[1..])
    ensures forall x :: x in s[1..] <==> x in s && s[0] < x
  {
    assert s == [s[0]] + s[1..];
  }

  lemma AscendingSubset(s: seq<int>, p: seq<int>)
    requires Ascending(s) && p <= s && forall x :: x in s ==> x in p
    ensures s == p
  {
    assert s != [] ==> s[|s| - 1] in s;
  }

  /** Keys between the first n + 1 windows and all windows, cut to n, are the first n windows. */
  lemma CutWindows(keys: seq<int>, list: seq<int>, n: nat)
    requires Ascending(keys) && Ascending(list)
    requires forall k :: k in keys ==> k in list
    requires forall k :: k in SliceTo(list, n + 1) ==> k in keys
    ensures SliceTo(keys, n) == SliceTo(list, n)
    ensures |keys| > n <==> |list| > n
  {
    var p := SliceTo(list, n + 1);
    forall x | x in keys ensures x in p || p == [] || p[|p| - 1] < x {
      var k :| 0 <= k < |list| && list[k] == x;
      if k < |p| { assert p[k] == x; }
    }
    AscendingPrefix(keys, p);
    if |list| <= n {
      AscendingSubset(keys, p);
    }
  }

  lemma {:induction false} TakeAllKeys(c: Config, w: Windows, records: seq<Record>)
    ensures forall k :: k in TakeAll(c, w, EMPTY, records).buckets ==>
      exists r :: r in records && InRange(c, r) && k == w.floor(r.time.value)
    decreases |records|
  {
    if records != [] {
      var h, r := records[..|records| - 1], records[|records| - 1];
      TakeAllKeys(c, w, h);
      forall k | k in TakeAll(c, w, EMPTY, records).buckets
        ensures exists q :: q in records && InRange(c, q) && k == w.floor(q.time.value)
      {
        if k in TakeAll(c, w, EMPTY, h).buckets {
          var q :| q in h && InRange(c, q) && k == w.floor(q.time.value);
          assert q in records;
        } else {
          assert r in records;
        }
      }
    }
  }

  /**
   * With empty buckets filled, the export lists exactly the first maxBuckets of
   * the N consecutive windows from the one around from to the one around to, and
   * says MAX_BUCKETS_REACHED exactly when N is larger.
   */
  lemma FilledExport(c: Config, w: Windows, records: seq<Record>)
    requires c.from.Some? && c.to.Some? && c.from.value <= c.to.value && c.maxBuckets >= 1 && c.maxRecords >= 1
    requires w.Tile(w.floor(c.from.value)) && w.floor(c.from.value) <= c.from.value
    ensures var e := ExportOf(c, Finish(c, w, true, records));
      var list := WindowList(w, w.floor(c.from.value), c.to.value);
      e.keys == SliceTo(list, c.maxBuckets) && (e.bucketsCapped <==> |list| > c.maxBuckets)
  {
    var lo := w.floor(c.from.value);
    var s := TakeAll(c, w, EMPTY, records);
    var f := Finish(c, w, true, records);
    var list := WindowList(w, lo, c.to.value);
    WindowListHolds(w, lo, lo, c.to.value);
    TakeAllKeys(c, w, records);
    FillKeys(w, lo, s, lo, c.to.value, c.maxBuckets + 1);
    FinishHolds(c, w, true, records);
    forall k | k in f.order ensures k in list {
      if k in s.buckets {
        var r :| r in records && InRange(c, r) && k == w.floor(r.time.value);
        assert w.Fits(lo, r.time.value);
      }
    }
    AscendingSort(f.order);
    CutWindows(Sort(ASC, f.order), list, c.maxBuckets);
  }

  /** Without filling, the buckets are exactly the windows of the counted records, in order, and capped exactly if there are more. */
  lemma UnfilledExport(c: Config, w: Windows, records: seq<Record>, key: int)
    requires c.maxRecords >= 1
    ensures var s := Finish(c, w, false, records);
      && (key in s.order <==> exists r :: r in Counted(c, records) && r.time.Some? && w.floor(r.time.value) == key)
      && Distinct(s.order) && (ExportOf(c, s).bucketsCapped <==> |s.order| > c.maxBuckets)
      && Ascending(ExportOf(c, s).keys)
      && (|s.order| <= c.maxBuckets ==> (key in ExportOf(c, s).keys <==> key in s.order))
  {
    TookBuckets(c, w, records, key);
    FinishHolds(c, w, false, records);
    AscendingSort(Finish(c, w, false, records).order);
  }

  lemma SeenIsCounted(c: Config, w: Windows, records: seq<Record>)
    requires c.maxRecords >= 1
    ensures TakeAll(c, w, EMPTY, records).seen == |Counted(c, records)|
  {
    TakeAllHolds(c, w, records);
  }

  lemma TakeBuckets(c: Config, w: Windows, s: State, r: Record, key: int)
    ensures key in Take(c, w, s, r).buckets <==>
      key in s.buckets || (InRange(c, r) && s.seen < c.maxRecords && w.floor(r.time.value) == key)
  {
  }

  ghost predicate HasWindow(w: Windows, counted: seq<Record>, key: int) {
    exists r :: r in counted && r.time.Some? && w.floor(r.time.value) == key
  }

  lemma HasWindowNext(w: Windows, counted: seq<Record>, r: Record, key: int)
    ensures HasWindow(w, counted + [r], key) <==> HasWindow(w, counted, key) || (r.time.Some? && w.floor(r.time.value) == key)
  {
    if r.time.Some? && w.floor(r.time.value) == key {
      assert r in counted + [r];
    }
    if HasWindow(w, counted, key) {
      var x :| x in counted && x.time.Some? && w.floor(x.time.value) == key;
      assert x in counted + [r];
    }
  }

  lemma {:induction false} TookBuckets(c: Config, w: Windows, records: seq<Record>, key: int)
    requires c.maxRecords >= 1
    ensures key in TakeAll(c, w, EMPTY, records).buckets <==> HasWindow(w, Counted(c, records), key)
    decreases |records|
  {
    if records != [] {
      var n := |records| - 1;
      var r, f := records[n], Filter(Fitting(c), records[..n]);
      TookBuckets(c, w, records[..n], key);
      SeenIsCounted(c, w, records[..n]);
      TakeBuckets(c, w, TakeAll(c, w, EMPTY, records[..n]), r, key);
      FilterNext(Fitting(c), records, n);
      assert records[..n + 1] == records;
      FittingIsInRange(c, r);
      CountedNext(f, r, c.maxRecords);
      HasWindowNext(w, SliceTo(f, c.maxRecords), r, key);
      assert f + [] == f;
    }
  }

  lemma CountedNext(f: seq<Record>, r: Record, n: nat)
    ensures SliceTo(f + [r], n) == if |f| < n then SliceTo(f, n) + [r] else SliceTo(f, n)
  {
  }

  /** The UTC windows tile the time from the window of any instant since the epoch. */
  lemma UtcWindowsTile(g: Calendar.Granularity, from: int)
    requires from >= 0
    ensures var w := UtcWindows(g); w.floor(from) <= from && w.Tile(w.floor(from))
  {
    var w := UtcWindows(g);
    Calendar.EpochIsModern(from);
    Calendar.WindowsTile(from, g);
    var lo := w.floor(from);
    forall t | t >= lo ensures w.Fits(lo, t) {
      UtcFits(g, from, t);
    }
  }

  lemma UtcFits(g: Calendar.Granularity, from: int, t: int)
    requires from >= 0 && t >= Calendar.FloorToWindowStart(from, g)
    ensures UtcWindows(g).Fits(Calendar.FloorToWindowStart(from, g), t)
  {
    var w := UtcWindows(g);
    Calendar.ModernFrom(from, t, g);
    Calendar.WindowsTile(t, g);
    Calendar.FloorMonotone(from, t, g);
    var start := w.floor(t);
    forall s | start <= s < w.next(start) ensures w.floor(s) == start {
      Calendar.FloorMonotone(from, t, g);
      Calendar.ModernFrom(from, s, g);
      Calendar.SameFloorSameWindow(t, s, g);
    }
  }

  // ---------- The loops ----------

  class Aggregator {
    const config: Config
    const windows: Windows
    var order: seq<int>
    var buckets: map<int, Counters>
    var totals: Counters
    var seen: nat
    var recordsCapped: bool

    function View(): State
      reads this
    {
      State(order, buckets, totals, seen, recordsCapped)
    }

    constructor (config: Config, windows: Windows)
      ensures View() == EMPTY && this.config == config && this.windows == windows
    {
      this.config, this.windows := config, windows;
      order, buckets, totals, seen, recordsCapped := [], map[], map[], 0, false;
    }

    method GetOrCreateBucket(key: int)
      modifies this`order, this`buckets
      ensures View() == Ensure(old(View()), key)
    {
      if key !in buckets {
        order := order + [key];
        buckets := buckets[key := map[]];
      }
    }

    method Count(r: Record)
      requires InRange(config, r) && seen < config.maxRecords
      modifies this
      ensures View() == Take(config, windows, old(View()), r)
    {
      seen := seen + 1;
      var key := windows.floor(r.time.value);
      GetOrCreateBucket(key);
      buckets := buckets[key := Bump(buckets[key], Increments(config, r))];
      totals := Bump(totals, Increments(config, r));
    }

    /** One of the three loops over invoices, operations and jobs. */
    method Accumulate(records: seq<Record>)
      modifies this
      ensures View() == TakeAll(config, windows, old(View()), records)
    {
      var i := 0;
      while i < |records|
        invariant 0 <= i <= |records|
        invariant TakeAll(config, windows, View(), records[i..]) == TakeAll(config, windows, old(View()), records)
      {
        ghost var before := View();
        TakeNext(config, windows, before, records, i);
        if InRange(config, records[i]) {
          if seen >= config.maxRecords {
            recordsCapped := true;
            assert View() == Take(config, windows, before, records[i]);
            CappedStays(config, windows, View(), records[i + 1..]);
            return;
          }
          Count(records[i]);
        }
        assert View() == Take(config, windows, before, records[i]);
        i := i + 1;
      }
    }

    method FillEmptyBuckets(from: int, to: int)
      requires config.maxBuckets >= 0
      modifies this
      ensures View() == FillFrom(windows, old(View()), windows.floor(from), to, config.maxBuckets + 1)
    {
      var cursor := windows.floor(from);
      var safetyCounter := 0;
      while cursor <= to && safetyCounter <= config.maxBuckets
        invariant 0 <= safetyCounter <= config.maxBuckets + 1
        invariant FillFrom(windows, View(), cursor, to, config.maxBuckets + 1 - safetyCounter) ==
          FillFrom(windows, old(View()), windows.floor(from), to, config.maxBuckets + 1)
        decreases config.maxBuckets + 1 - safetyCounter
      {
        GetOrCreateBucket(cursor);
        cursor := windows.next(cursor);
        safetyCounter := safetyCounter + 1;
      }
    }
  }

  method GenerateTrendExport(config: Config, g: Calendar.Granularity, fill: bool,
                             invoices: seq<Record>, operations: seq<Record>, jobs: seq<Record>) returns (e: Export)
    requires config.maxBuckets >= 1
    ensures e == ExportOf(config, Finish(config, UtcWindows(g), fill, invoices + operations + jobs))
  {
    var w := UtcWindows(g);
    var agg := new Aggregator(config, w);
    agg.Accumulate(invoices);
    agg.Accumulate(operations);
    agg.Accumulate(jobs);
    TakeAllAppend(config, w, EMPTY, invoices, operations);
    TakeAllAppend(config, w, EMPTY, invoices + operations, jobs);
    if fill && config.from.Some? && config.to.Some? {
      agg.FillEmptyBuckets(config.from.value, config.to.value);
    }
    e := ExportOf(config, agg.View());
  }
}
