/**
 * Exports: the loop that pages a seller's invoices out of storage.
 */
module ExportService {
  import opened Basics
  import opened Ordering
  import opened KeysetWalk
  import opened CsvExport

  datatype Invoice = Invoice(id: string, seller: string, status: string, createdAt: int)

  type Record = seq<CellValue>

  /** An absent status is the empty text, which storage treats alike. */
  datatype Request = Request(status: string, since: Option<int>, until: Option<int>)

  /** compareNewestFirst: createdAt descending, then lower-cased id descending. */
  function Newest(): Invoice -> Pos {
    (i: Invoice) => Pos(i.createdAt, Lower(i.id))
  }

  lemma NewestExactly(a: Invoice, b: Invoice)
    ensures Before(Newest()(a), Newest()(b)) <==>
      a.createdAt > b.createdAt || (a.createdAt == b.createdAt && TextLess(Lower(b.id), Lower(a.id)))
  {
    BeforeExactly(Newest()(a), Newest()(b));
  }

  // ---------- Storage ----------

  predicate Served(seller: string, status: string, i: Invoice) {
    (status == "" || i.status == status) && (seller == "" || i.seller == seller)
  }

  function ServedTo(seller: string, status: string): Invoice -> bool {
    (i: Invoice) => Served(seller, status, i)
  }

  /** Everything storage has for a seller, newest first. */
  function Shelf(all: seq<Invoice>, seller: string, status: string): seq<Invoice> {
    Sort(Newest(), Filter(ServedTo(seller, status), all))
  }

  /** getInvoicesBySeller: the first `limit` invoices behind the cursor. */
  function StoragePage(all: seq<Invoice>, seller: string, status: string, limit: nat, after: Option<Pos>): seq<Invoice> {
    SliceTo(Filter(Pending(Newest(), after), Shelf(all, seller, status)), limit)
  }

  /** Ids are unique, even when case is ignored. */
  ghost predicate UniqueIds(all: seq<Invoice>) {
    forall i, j :: 0 <= i < j < |all| ==> Lower(all[i].id) != Lower(all[j].id)
  }

  // ---------- What an export is asked for ----------

  predicate Emits(requester: string, request: Request, i: Invoice) {
    && i.seller == requester
    && (request.since.None? || i.createdAt >= request.since.value)
    && (request.until.None? || i.createdAt <= request.until.value)
  }

  function Emitted(requester: string, request: Request): Invoice -> bool {
    (i: Invoice) => Emits(requester, request, i)
  }

  /** The requester's own invoices that pass every filter of the request. */
  function Wanted(requester: string, request: Request): Invoice -> bool {
    (i: Invoice) =>
      && i.seller == requester && (request.status == "" || i.status == request.status)
      && (request.since.Some? ==> request.since.value <= i.createdAt)
      && (request.until.Some? ==> i.createdAt <= request.until.value)
  }

  // ---------- Storage pages are slices of the shelf ----------

  /** The shelf holds distinct ids in strictly falling order. */
  ghost predicate Orderly(l: seq<Invoice>) {
    StrictlySorted(Newest(), l) && forall i, j :: 0 <= i < j < |l| ==> l[i].id != l[j].id
  }

  lemma {:induction false} FilterUnique(p: Invoice -> bool, all: seq<Invoice>)
    requires UniqueIds(all)
    ensures UniqueIds(Filter(p, all))
  {
    if all != [] {
      FilterUnique(p, all[1..]);
      FilterIn(p, all[1..]);
      var rest := Filter(p, all[1..]);
      if p(all[0]) {
        forall j | 0 <= j < |rest| ensures Lower(all[0].id) != Lower(rest[j].id) {
          assert rest[j] in all[1..];
        }
      }
    }
  }

  lemma ShelfOrderly(all: seq<Invoice>, seller: string, status: string)
    requires UniqueIds(all)
    ensures Orderly(Shelf(all, seller, status))
  {
    var served := Filter(ServedTo(seller, status), all);
    FilterUnique(ServedTo(seller, status), all);
    assert DistinctKeys(Newest(), served);
    SortStrict(Newest(), served);
    var l := Shelf(all, seller, status);
    SortUnique(served);
  }

  /** Sorting keeps ids apart. */
  lemma SortUnique(s: seq<Invoice>)
    requires UniqueIds(s)
    ensures UniqueIds(Sort(Newest(), s))
  {
    var l := Sort(Newest(), s);
    assert DistinctKeys(Newest(), s);
    SortStrict(Newest(), s);
    SortElements(Newest(), s);
    forall i, j | 0 <= i < j < |l| ensures Lower(l[i].id) != Lower(l[j].id) {
      assert l[i] in s && l[j] in s;
      assert Before(Newest()(l[i]), Newest()(l[j]));
    }
  }

  /** The page is the stretch of the shelf that starts at position p. */
  ghost predicate Stretch(l: seq<Invoice>, p: nat, page: seq<Invoice>) {
    p + |page| <= |l| && page == l[p..p + |page|]
  }

  lemma SliceIsStretch(l: seq<Invoice>, p: nat, n: nat)
    requires p <= |l|
    ensures Stretch(l, p, SliceTo(l[p..], n)) && (|SliceTo(l[p..], n)| < n ==> p + |SliceTo(l[p..], n)| == |l|)
  {
  }

  lemma BehindStart(l: seq<Invoice>, p: nat)
    requires Orderly(l) && p <= |l|
    ensures Filter(Pending(Newest(), Start(Newest(), l, p)), l) == l[p..]
  {
    if p == 0 {
      FilterAll(Pending(Newest(), None), l);
    } else {
      FilterAfter(Newest(), Pending(Newest(), Some(Newest()(l[p - 1]))), l, p - 1);
    }
  }

  // ---------- One page ----------

  ghost predicate Unseen(l: seq<Invoice>, p: nat, seen: set<string>) {
    forall i :: p <= i < |l| ==> l[i].id !in seen
  }

  /** The cap is reached before invoice k, which would have been emitted. */
  lemma Capped(e: Invoice -> bool, page: seq<Invoice>, k: nat)
    requires k < |page| && e(page[k])
    ensures |Filter(e, page)| > |Filter(e, page[..k])|
    ensures SliceTo(Filter(e, page), |Filter(e, page[..k])|) == Filter(e, page[..k])
  {
    FilterPrefix(e, page, k);
    assert page[k..][0] == page[k];
  }

  /** Adds one storage page to the records, up to the cap. */
  method AddPage(page: seq<Invoice>, requester: string, request: Request, maxRecords: nat, project: Invoice -> Record,
                 records: seq<Record>, seen: set<string>, ghost l: seq<Invoice>, ghost p: nat)
    returns (records': seq<Record>, seen': set<string>, truncated: bool)
    requires |records| <= maxRecords && Orderly(l) && Stretch(l, p, page) && Unseen(l, p, seen)
    ensures truncated <==> |records| + |Filter(Emitted(requester, request), page)| > maxRecords
    ensures records' == records + Map(project, SliceTo(Filter(Emitted(requester, request), page), maxRecords - |records|))
    ensures Unseen(l, p + |page|, seen') && (page != [] ==> |seen'| > |seen|)
  {
    ghost var e, room, taken := Emitted(requester, request), maxRecords - |records|, [];
    records', seen', truncated := records, seen, false;
    var k := 0;
    while k < |page| && !truncated
      invariant 0 <= k <= |page| && (k > 0 ==> page[0].id in seen') && seen <= seen'
      invariant Unseen(l, p + k, seen')
      invariant records' == records + Map(project, taken)
      invariant !truncated ==> taken == Filter(e, page[..k]) && |taken| <= room
      invariant truncated ==> k > 0 && taken == SliceTo(Filter(e, page), room) && |Filter(e, page)| > room
    {
      var invoice := page[k];
      FilterNext(e, page, k);
      if invoice.id !in seen' {
        seen' := seen' + {invoice.id};
        if Emits(requester, request, invoice) {
          if |records'| >= maxRecords {
            Capped(e, page, k);
            truncated := true;
          } else {
            records', taken := records' + [project(invoice)], taken + [invoice];
          }
        }
      }
      k := k + 1;
    }
    assert !truncated ==> page[..k] == page;
    if page != [] { Grows(seen, seen', page[0].id); }
  }

  lemma Grows(seen: set<string>, seen': set<string>, id: string)
    requires seen <= seen' && id in seen' && id !in seen
    ensures |seen'| > |seen|
  {
    assert seen' == seen + (seen' - seen) && id in seen' - seen;
  }

  // ---------- The paging loop ----------

  /** Everything in front of position p has been looked at. */
  ghost predicate Progress(e: Invoice -> bool, l: seq<Invoice>, p: nat, maxRecords: nat, project: Invoice -> Record,
                           records: seq<Record>, truncated: bool)
  {
    p <= |l| &&
    if truncated then |Filter(e, l)| > maxRecords && records == Map(project, SliceTo(Filter(e, l), maxRecords))
    else |Filter(e, l[..p])| <= maxRecords && records == Map(project, Filter(e, l[..p]))
  }

  lemma MapAppend(project: Invoice -> Record, a: seq<Invoice>, b: seq<Invoice>)
    ensures Map(project, a + b) == Map(project, a) + Map(project, b)
  {
  }

  /** A page splits what is listed into what was looked at, the page, and the rest. */
  lemma FilterThree(e: Invoice -> bool, l: seq<Invoice>, p: nat, q: nat)
    requires p <= q <= |l|
    ensures Filter(e, l[..q]) == Filter(e, l[..p]) + Filter(e, l[p..q])
    ensures Filter(e, l) == Filter(e, l[..q]) + Filter(e, l[q..])
  {
    FilterPrefix(e, l, q);
    FilterPrefix(e, l[..q], p);
    assert l[..q][..p] == l[..p] && l[..q][p..] == l[p..q];
  }

  lemma CutAcross<T>(a: seq<T>, b: seq<T>, c: seq<T>, n: nat)
    requires |a| <= n < |a| + |b|
    ensures SliceTo(a + b + c, n) == a + SliceTo(b, n - |a|)
  {
  }

  lemma ProgressStep(e: Invoice -> bool, l: seq<Invoice>, p: nat, page: seq<Invoice>, maxRecords: nat, project: Invoice -> Record,
                     records: seq<Record>, records': seq<Record>, truncated: bool)
    requires Stretch(l, p, page) && Progress(e, l, p, maxRecords, project, records, false)
    requires truncated <==> |records| + |Filter(e, page)| > maxRecords
    requires records' == records + Map(project, SliceTo(Filter(e, page), maxRecords - |records|))
    ensures Progress(e, l, p + |page|, maxRecords, project, records', truncated)
  {
    var q := p + |page|;
    var a, b, c := Filter(e, l[..p]), Filter(e, page), Filter(e, l[q..]);
    FilterThree(e, l, p, q);
    MapAppend(project, a, SliceTo(b, maxRecords - |a|));
    if truncated { CutAcross(a, b, c, maxRecords); }
  }

  lemma WantedIsEmitted(all: seq<Invoice>, requester: string, request: Request)
    ensures Filter(Emitted(requester, request), Shelf(all, requester, request.status)) ==
      Filter(Wanted(requester, request), Sort(Newest(), all))
  {
    FilterSort(Newest(), ServedTo(requester, request.status), all);
    FilterTwice(ServedTo(requester, request.status), Emitted(requester, request), Wanted(requester, request), Sort(Newest(), all));
  }

  type Fetch = Option<Pos> -> seq<Invoice>

  /** Storage answers with the stretch behind the cursor, shorter than asked only at the end. */
  ghost predicate Fetches(fetch: Fetch, limit: nat, l: seq<Invoice>) {
    forall p {:trigger Start(Newest(), l, p)} :: 0 <= p <= |l| ==>
      var page := fetch(Start(Newest(), l, p));
      && Stretch(l, p, page) && (|page| < limit ==> p + |page| == |l|)
  }

  lemma StartNext(l: seq<Invoice>, p: nat, page: seq<Invoice>)
    requires Stretch(l, p, page)
    ensures Start(Newest(), l, p + |page|) == if page == [] then Start(Newest(), l, p) else Some(Newest()(page[|page| - 1]))
  {
  }

  method CollectFrom(fetch: Fetch, requester: string, request: Request, maxRecords: nat, pageSize: nat, project: Invoice -> Record,
                     ghost l: seq<Invoice>)
    returns (records: seq<Record>, truncated: bool)
    requires Fetches(fetch, pageSize, l) && Orderly(l) && maxRecords > 0 && pageSize > 0
    ensures Progress(Emitted(requester, request), l, |l|, maxRecords, project, records, truncated)
  {
    ghost var e := Emitted(requester, request);
    records, truncated := [], false;
    var after: Option<Pos> := None;
    var seen: set<string> := {};
    ghost var p := 0;
    var more := true;
    while !truncated && more
      invariant 0 <= p <= |l| && after == Start(Newest(), l, p)
      invariant Progress(e, l, p, maxRecords, project, records, truncated)
      invariant Unseen(l, p, seen)
      invariant !truncated && !more ==> p == |l|
      decreases more, |l| - p
    {
      var page := fetch(after);
      if page != [] { after := Some(Newest()(page[|page| - 1])); }
      StartNext(l, p, page);
      var before, records0 := |seen|, records;
      records, seen, truncated := AddPage(page, requester, request, maxRecords, project, records, seen, l, p);
      ProgressStep(e, l, p, page, maxRecords, project, records0, records, truncated);
      p := p + |page|;
      more := !(|page| < pageSize || |seen| == before);
    }
  }

  function FetchOf(all: seq<Invoice>, seller: string, status: string, limit: nat): Fetch {
    (after: Option<Pos>) => StoragePage(all, seller, status, limit, after)
  }

  lemma StorageFetches(all: seq<Invoice>, seller: string, status: string, limit: nat, l: seq<Invoice>)
    requires l == Shelf(all, seller, status) && Orderly(l)
    ensures Fetches(FetchOf(all, seller, status, limit), limit, l)
  {
    var fetch := FetchOf(all, seller, status, limit);
    forall p {:trigger Start(Newest(), l, p)} | 0 <= p <= |l|
      ensures var page := fetch(Start(Newest(), l, p)); Stretch(l, p, page) && (|page| < limit ==> p + |page| == |l|)
    {
      BehindStart(l, p);
      SliceIsStretch(l, p, limit);
    }
  }

  /**
   * The loop ends, and emits exactly the first `maxRecords` wanted invoices in storage
   * order, each once; it reports truncation exactly when there are more.
   */
  method Collect(all: seq<Invoice>, requester: string, request: Request, maxRecords: nat, pageSize: nat, project: Invoice -> Record)
    returns (records: seq<Record>, truncated: bool)
    requires UniqueIds(all) && maxRecords > 0 && pageSize > 0
    ensures var wanted := Filter(Wanted(requester, request), Sort(Newest(), all));
      && records == Map(project, SliceTo(wanted, maxRecords))
      && (truncated <==> |wanted| > maxRecords)
  {
    ghost var l := Shelf(all, requester, request.status);
    ShelfOrderly(all, requester, request.status);
    WantedIsEmitted(all, requester, request);
    StorageFetches(all, requester, request.status, pageSize, l);
    records, truncated := CollectFrom(FetchOf(all, requester, request.status, pageSize), requester, request, maxRecords, pageSize, project, l);
    assert l[..|l|] == l;
  }
}
