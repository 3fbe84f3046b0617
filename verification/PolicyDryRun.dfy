/**
 * The policy dry run: totals over every stored invoice and one bounded page of
 * the invoices a proposed policy would newly refuse.
 */
module PolicyDryRun {
  import opened Basics
  import opened Ordering
  import opened KeysetWalk

  datatype Status = PENDING | PAID | EXPIRED | CANCELLED

  datatype Code = AmountTooLow | AmountTooHigh | AssetNotAllowed | ExpiryOutOfRange

  datatype Decision = Allowed | Denied(code: Code)

  /** Amounts are stroops. */
  datatype Policy = Policy(minAmount: int, maxAmount: int, minDays: int, maxDays: int, allowedAssets: seq<string>)

  datatype Invoice = Invoice(
    id: string, createdAt: int, expiresAt: int, status: Status,
    seller: string, amount: int, assetCode: Option<string>, asset: string)

  datatype Candidate = Candidate(invoice: Invoice, code: Code)

  const DAY_MS := 86_400_000
  const MAX_STROOPS := 9_223_372_036_854_775_807

  /** compareNewestFirst: createdAt descending, then lower-cased id descending. */
  const NEWEST: Candidate -> Pos := (c: Candidate) => Pos(c.invoice.createdAt, Lower(c.invoice.id))

  /** Newer invoices come first, and among equally old ones those with the greater id, case ignored. */
  lemma NewestExactly(a: Candidate, b: Candidate)
    ensures Before(NEWEST(a), NEWEST(b)) <==>
      a.invoice.createdAt > b.invoice.createdAt
      || (a.invoice.createdAt == b.invoice.createdAt && TextLess(Lower(b.invoice.id), Lower(a.invoice.id)))
  {
    BeforeExactly(NEWEST(a), NEWEST(b));
  }

  // ---------- The decision ----------

  /** Math.round of the payment window in days; unknown when below one. */
  function WindowDays(i: Invoice): Option<int> {
    var days := (2 * (i.expiresAt - i.createdAt) + DAY_MS) / (2 * DAY_MS);
    if days >= 1 then Some(days) else None
  }

  /** evaluateInvoiceRequest: the first failing rule wins. */
  function Decide(i: Invoice, p: Policy): Decision {
    var asset := Upper(if i.assetCode.Some? then i.assetCode.value else "XLM");
    var days := WindowDays(i);
    if i.amount < p.minAmount then Denied(AmountTooLow)
    else if i.amount > p.maxAmount then Denied(AmountTooHigh)
    else if p.allowedAssets != [] && asset !in p.allowedAssets then Denied(AssetNotAllowed)
    else if days.Some? && (days.value < p.minDays || days.value > p.maxDays) then Denied(ExpiryOutOfRange)
    else Allowed
  }

  /** The payment window in days, rounded half up; windows that round below one day are not known. */
  lemma WindowExactly(i: Invoice, days: int)
    ensures WindowDays(i) == Some(days) <==>
      days >= 1 && 2 * (i.expiresAt - i.createdAt) >= (2 * days - 1) * 86_400_000 && 2 * (i.expiresAt - i.createdAt) < (2 * days + 1) * 86_400_000
  {
  }

  /**
   * An invoice is allowed exactly if its amount is within the policy's bounds, its asset is listed or no
   * list is given, and its window, where known, is within the bounds; else the first of these to fail is named.
   */
  lemma DecideExactly(i: Invoice, p: Policy)
    ensures var asset := Upper(if i.assetCode.None? then "XLM" else i.assetCode.value);
      var listed := p.allowedAssets == [] || asset in p.allowedAssets;
      var timely := WindowDays(i).Some? ==> p.minDays <= WindowDays(i).value <= p.maxDays;
      && (Decide(i, p) == Allowed <==> p.minAmount <= i.amount <= p.maxAmount && listed && timely)
      && (Decide(i, p) == Denied(AmountTooLow) <==> i.amount < p.minAmount)
      && (Decide(i, p) == Denied(AmountTooHigh) <==> i.amount >= p.minAmount && i.amount > p.maxAmount)
      && (Decide(i, p) == Denied(AssetNotAllowed) <==> p.minAmount <= i.amount <= p.maxAmount && !listed)
      && (Decide(i, p) == Denied(ExpiryOutOfRange) <==> p.minAmount <= i.amount <= p.maxAmount && listed && !timely)
  {
  }

  /** Allowed now, refused under the proposal. */
  predicate IsAffected(i: Invoice, current: Policy, proposed: Policy) {
    Decide(i, current).Allowed? && Decide(i, proposed).Denied?
  }

  /** The affected invoices in storage order, with the rule that refuses them. */
  function Affected(invoices: seq<Invoice>, current: Policy, proposed: Policy): seq<Candidate> {
    if invoices == [] then []
    else
      var h, x := invoices[..|invoices| - 1], invoices[|invoices| - 1];
      Affected(h, current, proposed) +
      if IsAffected(x, current, proposed) then [Candidate(x, Decide(x, proposed).code)] else []
  }

  function InvoicesOf(all: seq<Candidate>): (r: seq<Invoice>)
    ensures |r| == |all| && forall k :: 0 <= k < |r| ==> r[k] == all[k].invoice
  {
    seq(|all|, k requires 0 <= k < |all| => all[k].invoice)
  }

  function NewlyRefused(current: Policy, proposed: Policy): Invoice -> bool {
    (i: Invoice) => Decide(i, current) == Allowed && Decide(i, proposed) != Allowed
  }

  /** The affected invoices are, in storage order, those allowed now and refused under the proposal, each with the refusing rule. */
  lemma {:induction false} AffectedExactly(invoices: seq<Invoice>, current: Policy, proposed: Policy)
    ensures InvoicesOf(Affected(invoices, current, proposed)) == Filter(NewlyRefused(current, proposed), invoices)
    ensures forall c :: c in Affected(invoices, current, proposed) ==> Decide(c.invoice, proposed) == Denied(c.code)
    decreases |invoices|
  {
    if invoices != [] {
      var n := |invoices| - 1;
      AffectedExactly(invoices[..n], current, proposed);
      FilterNext(NewlyRefused(current, proposed), invoices, n);
      assert invoices[..n + 1] == invoices;
    }
  }

  // ---------- The bounded page ----------

  class PreviewPage {
    var page: seq<Candidate>

    constructor ()
      ensures page == []
    {
      page := [];
    }

    /** Binary search for the slot, splice, and drop the last row when the page is over its bound. */
    method InsertBounded(item: Candidate, bound: nat)
      requires Sorted(NEWEST, page) && |page| <= bound
      modifies this
      ensures page == SliceTo(Insert(NEWEST, item, old(page)), bound)
    {
      var lo, hi := 0, |page|;
      while lo < hi
        invariant 0 <= lo <= hi <= |page| && page == old(page)
        invariant forall i :: 0 <= i < lo ==> !Before(NEWEST(item), NEWEST(page[i]))
        invariant forall i :: hi <= i < |page| ==> Before(NEWEST(item), NEWEST(page[i]))
      {
        var mid := (lo + hi) / 2;
        CompareStableTotal(NEWEST(page[mid]), NEWEST(item));
        if CompareStable(NEWEST(page[mid]), NEWEST(item)) <= 0 {
          SlotsBefore(page, item, mid);
          lo := mid + 1;
        } else {
          SlotsAfter(page, item, mid);
          hi := mid;
        }
      }
      InsertAt(NEWEST, item, page, lo);
      if lo >= bound {
        assert page[..lo] == page;
        return;
      }
      page := page[..lo] + [item] + page[lo..];
      if |page| > bound {
        page := page[..|page| - 1];
      }
    }
  }

  lemma SlotsBefore(page: seq<Candidate>, item: Candidate, mid: nat)
    requires Sorted(NEWEST, page) && mid < |page| && !Before(NEWEST(item), NEWEST(page[mid]))
    ensures forall i :: 0 <= i <= mid ==> !Before(NEWEST(item), NEWEST(page[i]))
  {
    forall i | 0 <= i < mid ensures !Before(NEWEST(item), NEWEST(page[i])) {
      BeforeTransitiveWeak(NEWEST(page[i]), NEWEST(page[mid]), NEWEST(item));
    }
  }

  lemma SlotsAfter(page: seq<Candidate>, item: Candidate, mid: nat)
    requires Sorted(NEWEST, page) && mid < |page| && Before(NEWEST(item), NEWEST(page[mid]))
    ensures forall i :: mid <= i < |page| ==> Before(NEWEST(item), NEWEST(page[i]))
  {
    CompareStableTotal(NEWEST(item), NEWEST(page[mid]));
    forall i | mid < i < |page| ensures Before(NEWEST(item), NEWEST(page[i])) {
      BeforeTransitiveWeak(NEWEST(item), NEWEST(page[mid]), NEWEST(page[i]));
    }
  }

  lemma SlicedSorted(s: seq<Candidate>, n: nat)
    requires Sorted(NEWEST, s)
    ensures Sorted(NEWEST, SliceTo(s, n))
  {
  }

  /** Inserting into the first n rows of a sorted list and cutting again loses nothing of the first n. */
  lemma InsertSliced(x: Candidate, s: seq<Candidate>, n: nat)
    requires Sorted(NEWEST, s)
    ensures SliceTo(Insert(NEWEST, x, SliceTo(s, n)), n) == SliceTo(Insert(NEWEST, x, s), n)
  {
    if n < |s| {
      var k := SplitPoint(NEWEST, x, s);
      InsertAt(NEWEST, x, s, k);
      InsertAt(NEWEST, x, s[..n], if k < n then k else n);
      var t := s[..n];
      if k < n {
        assert t[..k] == s[..k];
        assert (s[..k] + [x] + s[k..])[..n] == (t[..k] + [x] + t[k..])[..n];
      } else {
        assert (s[..k] + [x] + s[k..])[..n] == s[..n] == (t[..n] + [x] + t[n..])[..n];
      }
    }
  }

  // ---------- The report ----------

  datatype Request = Request(current: Policy, proposed: Policy, previewLimit: nat, after: Option<Pos>)

  /** The counters the loop over the invoices keeps. */
  datatype Tally = Tally(
    total: nat,
    byStatus: map<Status, nat>,
    byRule: map<Code, nat>,
    volume: map<string, int>,
    sellers: set<string>)
  {
    function Add(c: Candidate): Tally
      requires c.invoice.status in byStatus
    {
      var i := c.invoice;
      Tally(
        total + 1,
        byStatus[i.status := byStatus[i.status] + 1],
        byRule[c.code := Get(byRule, c.code) + 1],
        if i.status.PENDING? && 0 < i.amount <= MAX_STROOPS
        then volume[i.asset := Volume(volume, i.asset) + i.amount] else volume,
        if i.status.PENDING? then sellers + {i.seller} else sellers)
    }
  }

  datatype Report = Report(tally: Tally, preview: PageOf<Candidate>)

  function HasStatus(s: Status): Candidate -> bool {
    (c: Candidate) => c.invoice.status == s
  }

  function HasRule(r: Code): Candidate -> bool {
    (c: Candidate) => c.code == r
  }

  /** toStroops: amounts outside Stellar's range do not count towards volume. */
  function AtRisk(asset: string): Candidate -> int {
    (c: Candidate) => if c.invoice.status.PENDING? && c.invoice.asset == asset && 0 < c.invoice.amount <= 9_223_372_036_854_775_807
         then c.invoice.amount else 0
  }

  function Get<K>(m: map<K, nat>, k: K): nat {
    if k in m then m[k] else 0
  }

  function Volume(m: map<string, int>, a: string): int {
    if a in m then m[a] else 0
  }

  ghost predicate IsPendingSeller(all: seq<Candidate>, seller: string) {
    exists i :: 0 <= i < |all| && all[i].invoice.status.PENDING? && all[i].invoice.seller == seller
  }

  /** The counters say what they should about the affected invoices. */
  ghost predicate Totals(all: seq<Candidate>, t: Tally) {
    && t.total == |all|
    && (forall s :: s in t.byStatus && t.byStatus[s] == Count(HasStatus(s), all))
    && (forall r :: Get(t.byRule, r) == Count(HasRule(r), all))
    && (forall a :: Volume(t.volume, a) == Sum(AtRisk(a), all))
    && (forall k :: k in t.sellers <==> IsPendingSeller(all, k))
  }

  const EMPTY_TALLY :=
    Tally(0, map[PENDING := 0, PAID := 0, EXPIRED := 0, CANCELLED := 0], map[], map[], {})

  lemma TotalsEmpty()
    ensures Totals([], EMPTY_TALLY)
  {
    forall s: Status ensures s in EMPTY_TALLY.byStatus && EMPTY_TALLY.byStatus[s] == 0 {
      match s case PENDING => case PAID => case EXPIRED => case CANCELLED =>
    }
  }

  lemma PendingSellers(all: seq<Candidate>, c: Candidate, k: string)
    ensures IsPendingSeller(all + [c], k) <==>
      IsPendingSeller(all, k) || (c.invoice.status.PENDING? && c.invoice.seller == k)
  {
    var ext := all + [c];
    assert ext[|all|] == c;
    assert forall i :: 0 <= i < |all| ==> ext[i] == all[i];
  }

  lemma TotalsStep(all: seq<Candidate>, c: Candidate, t: Tally)
    requires Totals(all, t)
    ensures Totals(all + [c], t.Add(c))
  {
    forall s ensures Count(HasStatus(s), all + [c]) == Count(HasStatus(s), all) + if c.invoice.status == s then 1 else 0 {
      CountAppend(HasStatus(s), all, [c]);
    }
    forall r ensures Count(HasRule(r), all + [c]) == Count(HasRule(r), all) + if c.code == r then 1 else 0 {
      CountAppend(HasRule(r), all, [c]);
    }
    forall a ensures Sum(AtRisk(a), all + [c]) == Sum(AtRisk(a), all) + AtRisk(a)(c) {
      SumAppend(AtRisk(a), all, [c]);
    }
    forall k
      ensures IsPendingSeller(all + [c], k) <==>
        IsPendingSeller(all, k) || (c.invoice.status.PENDING? && c.invoice.seller == k)
    {
      PendingSellers(all, c, k);
    }
  }

  /** Statuses partition the affected invoices, and so do the refusing rules. */
  lemma {:induction false} CountsPartition(all: seq<Candidate>)
    ensures Count(HasStatus(PENDING), all) + Count(HasStatus(PAID), all)
          + Count(HasStatus(EXPIRED), all) + Count(HasStatus(CANCELLED), all) == |all|
    ensures Count(HasRule(AmountTooLow), all) + Count(HasRule(AmountTooHigh), all)
          + Count(HasRule(AssetNotAllowed), all) + Count(HasRule(ExpiryOutOfRange), all) == |all|
  {
    if all != [] {
      CountsPartition(all[1..]);
    }
  }

  lemma RemainingStep(all: seq<Candidate>, c: Candidate, after: Option<Pos>)
    ensures Remaining(NEWEST, all + [c], after) ==
      if Behind(after, NEWEST(c)) then Insert(NEWEST, c, Remaining(NEWEST, all, after)) else Remaining(NEWEST, all, after)
  {
    var p := Pending(NEWEST, after);
    FilterAppend(p, all, [c]);
    var f := Filter(p, all);
    if p(c) {
      assert Filter(p, [c]) == [c];
      assert (f + [c])[..|f + [c]| - 1] == f;
    } else {
      assert Filter(p, [c]) == [];
      assert f + [] == f;
    }
  }

  lemma RemainingSorted(all: seq<Candidate>, after: Option<Pos>)
    ensures Sorted(NEWEST, Remaining(NEWEST, all, after))
  {
    SortSorted(NEWEST, Filter(Pending(NEWEST, after), all));
  }

  /** The affected invoices of a prefix grow by one candidate or by none. */
  lemma AffectedStep(invoices: seq<Invoice>, k: nat, current: Policy, proposed: Policy)
    requires k < |invoices|
    ensures Affected(invoices[..k + 1], current, proposed) == Affected(invoices[..k], current, proposed) +
      if IsAffected(invoices[k], current, proposed)
      then [Candidate(invoices[k], Decide(invoices[k], proposed).code)] else []
  {
    assert invoices[..k + 1][..k] == invoices[..k];
  }

  /** One candidate: count it, and offer it to the page when it lies behind the cursor. */
  method Admit(c: Candidate, tally: Tally, preview: PreviewPage, request: Request, ghost all: seq<Candidate>)
    returns (next: Tally)
    requires Totals(all, tally)
    requires preview.page == SliceTo(Remaining(NEWEST, all, request.after), request.previewLimit + 1)
    modifies preview
    ensures Totals(all + [c], next)
    ensures preview.page == SliceTo(Remaining(NEWEST, all + [c], request.after), request.previewLimit + 1)
  {
    TotalsStep(all, c, tally);
    next := tally.Add(c);
    RemainingStep(all, c, request.after);
    if Behind(request.after, NEWEST(c)) {
      RemainingSorted(all, request.after);
      SlicedSorted(Remaining(NEWEST, all, request.after), request.previewLimit + 1);
      InsertSliced(c, Remaining(NEWEST, all, request.after), request.previewLimit + 1);
      preview.InsertBounded(c, request.previewLimit + 1);
    }
  }

  /** What a report is, by counting and sorting all affected invoices and taking a page. */
  ghost predicate IsReport(all: seq<Candidate>, request: Request, report: Report) {
    Totals(all, report.tally) && report.preview == PageFor(NEWEST, Remaining(NEWEST, all, request.after), request.previewLimit)
  }

  method EvaluatePolicyDryRun(invoices: seq<Invoice>, request: Request) returns (report: Report)
    ensures IsReport(Affected(invoices, request.current, request.proposed), request, report)
  {
    var tally := EMPTY_TALLY;
    var preview := new PreviewPage();
    ghost var all: seq<Candidate> := [];
    TotalsEmpty();
    for k := 0 to |invoices|
      invariant all == Affected(invoices[..k], request.current, request.proposed)
      invariant Totals(all, tally)
      invariant fresh(preview)
      invariant preview.page == SliceTo(Remaining(NEWEST, all, request.after), request.previewLimit + 1)
    {
      AffectedStep(invoices, k, request.current, request.proposed);
      if Decide(invoices[k], request.current).Allowed? {
        var decision := Decide(invoices[k], request.proposed);
        if decision.Denied? {
          var c := Candidate(invoices[k], decision.code);
          tally := Admit(c, tally, preview, request, all);
          all := all + [c];
        }
      }
    }
    assert invoices[..|invoices|] == invoices;
    ExtraSlot(Remaining(NEWEST, all, request.after), request.previewLimit);
    report := Report(tally, PageFor(NEWEST, preview.page, request.previewLimit));
  }

  /** One slot more than the page is enough to tell whether another page exists. */
  lemma ExtraSlot(rest: seq<Candidate>, limit: nat)
    ensures PageFor(NEWEST, SliceTo(rest, limit + 1), limit) == PageFor(NEWEST, rest, limit)
  {
    assert SliceTo(SliceTo(rest, limit + 1), limit) == SliceTo(rest, limit);
  }

  /** On every page the counts by status and by rule each add up to the total. */
  lemma CountsSumToTotal(all: seq<Candidate>, request: Request, report: Report)
    requires IsReport(all, request, report)
    ensures var t := report.tally;
      && PENDING in t.byStatus && PAID in t.byStatus && EXPIRED in t.byStatus && CANCELLED in t.byStatus
      && t.byStatus[PENDING] + t.byStatus[PAID] + t.byStatus[EXPIRED] + t.byStatus[CANCELLED] == t.total
      && Get(t.byRule, AmountTooLow) + Get(t.byRule, AmountTooHigh)
         + Get(t.byRule, AssetNotAllowed) + Get(t.byRule, ExpiryOutOfRange) == t.total
  {
    CountsPartition(all);
  }

  // ---------- Paging through the reports ----------

  /**
   * n requests that follow the cursor list the first n pages of the affected
   * invoices, newest first and each once; the last page comes exactly when n
   * pages are enough to hold them all.
   */
  lemma PagingListsAll(all: seq<Candidate>, limit: nat, n: nat)
    requires limit >= 1 && n > 0 && DistinctKeys(NEWEST, all)
    ensures var pages := Visit(NEWEST, SourceOf(NEWEST, all), limit, None, n);
      && Records(pages) == SliceTo(Sort(NEWEST, all), n * limit)
      && (Finished(pages) <==> |all| <= n * limit)
      && (Finished(pages) ==> multiset(Records(pages)) == multiset(all))
  {
    VisitListsAll(NEWEST, all, limit, n);
    SortMultiset(NEWEST, all);
  }
}
