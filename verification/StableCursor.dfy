/**
 * paginateStable: keyset pages over a snapshot of rows, and what a client sees
 * that follows nextCursor while the rows change between requests.
 */
module StableCursor {
  import opened Basics
  import opened Ordering
  import opened KeysetWalk
  import opened CursorCodec
  import Json = CanonicalJson

  /** A row with its sort key already reduced to milliseconds. */
  datatype Row = Row(id: string, ms: int, content: int)

  /** What the server looks at during one request. canView answers false when the check throws. */
  datatype Snapshot = Snapshot(rows: seq<Row>, canView: Row -> bool)

  /** Everything that stays fixed while one client pages. */
  datatype Session = Session(platform: Platform, scope: Json.Json, secret: string, asked: Option<int>, maxLimit: int)

  datatype Page = Page(items: seq<Row>, hasMore: bool, nextCursor: Option<string>)

  function At(r: Row): Pos {
    Pos(r.ms, r.id)
  }

  const KEY: Row -> Pos := r => At(r)

  predicate After(after: Option<Pos>, r: Row) {
    Behind(after, At(r))
  }

  function Pending(after: Option<Pos>): Row -> bool {
    r => After(after, r)
  }

  /** Math.min(Math.max(1, Math.floor(limit ?? 50) || 50), maxLimit). */
  function EffectiveLimit(limit: Option<int>, maxLimit: int): (r: int)
    ensures r >= 1 <==> maxLimit >= 1
    ensures r <= maxLimit
  {
    var asked := if limit.None? || limit.value == 0 then 50 else limit.value;
    var atLeastOne := if asked < 1 then 1 else asked;
    if atLeastOne < maxLimit then atLeastOne else maxLimit
  }

  /** A limit is used as asked, fifty where none or zero is asked, one where a negative one is, and never more than the maximum. */
  lemma LimitExactly(limit: Option<int>, maxLimit: int)
    ensures EffectiveLimit(None, maxLimit) == EffectiveLimit(Some(0), maxLimit) == if maxLimit < 50 then maxLimit else 50
    ensures limit.Some? && limit.value < 0 ==> EffectiveLimit(limit, maxLimit) == if maxLimit < 1 then maxLimit else 1
    ensures limit.Some? && limit.value > 0 ==> EffectiveLimit(limit, maxLimit) == if maxLimit < limit.value then maxLimit else limit.value
  {
  }

  function Limit(session: Session): int {
    EffectiveLimit(session.asked, session.maxLimit)
  }

  // ---------- One request ----------

  /** Keeps the first row of every id, as the seen set does. */
  function Unique(rows: seq<Row>, seen: set<string>): seq<Row> {
    if rows == [] then []
    else if rows[0].id in seen then Unique(rows[1..], seen)
    else [rows[0]] + Unique(rows[1..], seen + {rows[0].id})
  }

  /** The rows still to be listed behind a position: visible, behind it, in order, one per id. */
  function Listing(s: Snapshot, after: Option<Pos>): seq<Row> {
    Unique(Sort(KEY, Filter(Pending(after), Filter(s.canView, s.rows))), {})
  }

  function PageAfter(session: Session, s: Snapshot, after: Option<Pos>): Page {
    var unique := Listing(s, after);
    var items := SliceTo(unique, Limit(session));
    var hasMore := |unique| > Limit(session);
    Page(items, hasMore,
         if hasMore && items != [] then Some(CursorFor(session, At(items[|items| - 1]))) else None)
  }

  function CursorFor(session: Session, pos: Pos): string {
    EncodeCursor(session.platform, pos, session.scope, session.secret)
  }

  function Paginate(session: Session, s: Snapshot, cursor: Option<string>): Result<Page, Reason> {
    if cursor.None? || cursor.value == "" then Ok(PageAfter(session, s, None))
    else
      var after := DecodeCursor(session.platform, cursor.value, session.scope, session.secret);
      if after.Err? then Err(after.error) else Ok(PageAfter(session, s, Some(after.value)))
  }

  /** The filter whose predicate fills the seen set in place. */
  method KeepFirst(visible: seq<Row>) returns (unique: seq<Row>)
    ensures unique == Unique(visible, {})
  {
    var seen: set<string> := {};
    unique := [];
    for i := 0 to |visible|
      invariant Unique(visible, {}) == unique + Unique(visible[i..], seen)
    {
      assert visible[i..][1..] == visible[i + 1..];
      if visible[i].id !in seen {
        seen := seen + {visible[i].id};
        unique := unique + [visible[i]];
      }
    }
    assert visible[|visible|..] == [];
  }

  /** The pipeline of one request. */
  method PaginateStable(session: Session, s: Snapshot, cursor: Option<string>)
    returns (result: Result<Page, Reason>)
    ensures result == Paginate(session, s, cursor)
  {
    var after: Option<Pos> := None;
    if cursor.Some? && cursor.value != "" {
      var decoded := DecodeCursor(session.platform, cursor.value, session.scope, session.secret);
      if decoded.Err? {
        return Err(decoded.error);
      }
      after := Some(decoded.value);
    }
    var limit := Limit(session);
    var unique := KeepFirst(Sort(KEY, Filter(Pending(after), Filter(s.canView, s.rows))));
    var items := SliceTo(unique, limit);
    var hasMore := |unique| > limit;
    var next: Option<string> := None;
    if hasMore && items != [] {
      next := Some(CursorFor(session, At(items[|items| - 1])));
    }
    result := Ok(Page(items, hasMore, next));
  }

  // ---------- What a listing contains ----------

  /** Rows with equal ids have equal sort keys. */
  ghost predicate KeysFixed(rows: seq<Row>) {
    forall r, q :: r in rows && q in rows && r.id == q.id ==> r.ms == q.ms
  }

  lemma {:induction false} UniqueIn(rows: seq<Row>, seen: set<string>)
    ensures forall x :: x in Unique(rows, seen) ==> x in rows && x.id !in seen
  {
    if rows != [] {
      UniqueIn(rows[1..], if rows[0].id in seen then seen else seen + {rows[0].id});
    }
  }

  lemma {:induction false} UniqueKeepsIds(rows: seq<Row>, seen: set<string>, x: Row)
    requires x in rows && x.id !in seen
    ensures exists y :: y in Unique(rows, seen) && y.id == x.id
  {
    if rows[0].id == x.id {
      assert rows[0] in Unique(rows, seen);
    } else {
      assert x in rows[1..];
      var seen' := if rows[0].id in seen then seen else seen + {rows[0].id};
      UniqueKeepsIds(rows[1..], seen', x);
      var y :| y in Unique(rows[1..], seen') && y.id == x.id;
      assert y in Unique(rows, seen);
    }
  }

  lemma {:induction false} UniqueStrict(rows: seq<Row>, seen: set<string>)
    requires Sorted(KEY, rows) && KeysFixed(rows)
    ensures StrictlySorted(KEY, Unique(rows, seen))
  {
    if rows != [] {
      var seen' := if rows[0].id in seen then seen else seen + {rows[0].id};
      UniqueStrict(rows[1..], seen');
      if rows[0].id !in seen {
        var rest := Unique(rows[1..], seen');
        UniqueIn(rows[1..], seen');
        forall j | 0 <= j < |rest| ensures Before(At(rows[0]), At(rest[j])) {
          assert rest[j] in rest;
          var i :| 1 <= i < |rows| && rows[i] == rest[j];
          assert !Before(KEY(rows[i]), KEY(rows[0]));
          CompareStableTotal(At(rows[0]), At(rest[j]));
        }
      }
    }
  }

  /** A row a client may see. */
  predicate Visible(s: Snapshot, r: Row) {
    r in s.rows && s.canView(r)
  }

  /** The rows that are filtered and sorted for a page. */
  function Candidates(s: Snapshot, after: Option<Pos>): seq<Row> {
    Sort(KEY, Filter(Pending(after), Filter(s.canView, s.rows)))
  }

  lemma CandidatesAre(s: Snapshot, after: Option<Pos>)
    ensures Sorted(KEY, Candidates(s, after))
    ensures forall r :: r in Candidates(s, after) <==> Visible(s, r) && After(after, r)
  {
    var visible := Filter(Pending(after), Filter(s.canView, s.rows));
    FilterIn(s.canView, s.rows);
    FilterIn(Pending(after), Filter(s.canView, s.rows));
    SortElements(KEY, visible);
    SortSorted(KEY, visible);
  }

  /** A listing holds only visible rows behind the position. */
  lemma ListingMembers(s: Snapshot, after: Option<Pos>)
    ensures forall r :: r in Listing(s, after) ==> Visible(s, r) && After(after, r)
  {
    CandidatesAre(s, after);
    UniqueIn(Candidates(s, after), {});
  }

  /** Newest rows come first, and among equally old ones greater ids. */
  lemma ListingNewestFirst(s: Snapshot, after: Option<Pos>, i: nat, j: nat)
    requires i < j < |Listing(s, after)|
    ensures var a, b := Listing(s, after)[i], Listing(s, after)[j];
      a.ms > b.ms || (a.ms == b.ms && TextLess(b.id, a.id))
  {
    ListingSorted(s, after);
    var a, b := Listing(s, after)[i], Listing(s, after)[j];
    assert !Before(KEY(b), KEY(a)) && a.id != b.id;
    BeforeExactly(At(b), At(a));
    TextLessTotal(a.id, b.id);
  }

  /** And it is strictly ordered. */
  lemma ListingProperties(s: Snapshot, after: Option<Pos>)
    requires KeysFixed(s.rows)
    ensures StrictlySorted(KEY, Listing(s, after))
    ensures forall r :: r in Listing(s, after) ==> r in s.rows && s.canView(r) && After(after, r)
  {
    ListingMembers(s, after);
    CandidatesAre(s, after);
    UniqueStrict(Candidates(s, after), {});
  }

  /** A listing misses no visible row behind the position. */
  lemma ListingHas(s: Snapshot, after: Option<Pos>, row: Row) returns (y: Row)
    requires KeysFixed(s.rows) && row in s.rows && s.canView(row) && After(after, row)
    ensures y in Listing(s, after) && At(y) == At(row)
  {
    CandidatesAre(s, after);
    UniqueKeepsIds(Candidates(s, after), {}, row);
    y :| y in Listing(s, after) && y.id == row.id;
    ListingProperties(s, after);
  }

  // ---------- Listings as sources of a keyset walk ----------

  function SourceOf(s: Snapshot): Source<Row> {
    after => Listing(s, after)
  }

  function Sources(snaps: seq<Snapshot>): (r: seq<Source<Row>>)
    ensures |r| == |snaps| && forall i :: 0 <= i < |r| ==> r[i] == SourceOf(snaps[i])
  {
    seq(|snaps|, i requires 0 <= i < |snaps| => SourceOf(snaps[i]))
  }

  lemma ListingOrderly(s: Snapshot)
    requires KeysFixed(s.rows)
    ensures Orderly(KEY, SourceOf(s))
  {
    forall after
      ensures StrictlySorted(KEY, SourceOf(s)(after))
      ensures forall x :: x in SourceOf(s)(after) ==> Behind(after, KEY(x))
    {
      ListingProperties(s, after);
    }
  }

  lemma ListingOffers(s: Snapshot, row: Row)
    requires KeysFixed(s.rows) && row in s.rows && s.canView(row)
    ensures Offers(KEY, SourceOf(s), At(row))
  {
    var f := SourceOf(s);
    forall after | Behind(after, At(row))
      ensures exists x :: x in f(after) && KEY(x) == At(row)
    {
      var y := ListingHas(s, after, row);
      assert y in f(after) && KEY(y) == At(row);
    }
  }

  // ---------- Following nextCursor ----------

  /**
   * One page per snapshot, each asked for with the cursor of the page before it,
   * until a page has no cursor, a cursor is refused, or the snapshots run out.
   */
  function Visit(session: Session, snaps: seq<Snapshot>, cursor: Option<string>): seq<Result<Page, Reason>> {
    if snaps == [] then []
    else
      var answer := Paginate(session, snaps[0], cursor);
      [answer] + if answer.Err? || answer.value.nextCursor.None? then []
                 else Visit(session, snaps[1..], answer.value.nextCursor)
  }

  function Items(answers: seq<Result<Page, Reason>>): seq<Row> {
    if answers == [] then []
    else (if answers[0].Ok? then answers[0].value.items else []) + Items(answers[1..])
  }

  /** The client reached a page that says it is the last one. */
  predicate Finished(answers: seq<Result<Page, Reason>>) {
    answers != [] && answers[|answers| - 1].Ok? && !answers[|answers| - 1].value.hasMore
  }

  /** Every position fits in a cursor. */
  ghost predicate Fitting(session: Session, snaps: seq<Snapshot>) {
    && session.platform.Sound() && Limit(session) >= 1
    && (forall i, r :: 0 <= i < |snaps| && r in snaps[i].rows ==> Fits(session, At(r)))
  }

  /** And in every snapshot an id has the same sort key. */
  ghost predicate Stable(session: Session, snaps: seq<Snapshot>) {
    && Fitting(session, snaps)
    && (forall i, j, r, q :: 0 <= i < |snaps| && 0 <= j < |snaps| ==>
      r in snaps[i].rows && q in snaps[j].rows && r.id == q.id ==> r.ms == q.ms)
  }

  ghost predicate Fits(session: Session, pos: Pos) {
    Legal(session.platform, pos, session.scope, session.secret)
  }

  /** What the cursor in hand means. */
  ghost predicate Carries(session: Session, cursor: Option<string>, after: Option<Pos>) {
    if cursor.None? || cursor.value == "" then after.None?
    else after.Some? && DecodeCursor(session.platform, cursor.value, session.scope, session.secret) == Ok(after.value)
  }

  lemma CursorCarries(session: Session, pos: Pos)
    requires session.platform.Sound() && Fits(session, pos)
    ensures Carries(session, Some(CursorFor(session, pos)), Some(pos))
  {
    CursorRoundTrip(session.platform, pos, session.scope, session.scope, session.secret);
  }

  /** A page read with a cursor that carries a position, in terms of the listing behind that position. */
  lemma PageShape(session: Session, s: Snapshot, cursor: Option<string>, after: Option<Pos>, l: seq<Row>, limit: int)
    requires limit == Limit(session) >= 1 && Carries(session, cursor, after) && l == Listing(s, after)
    ensures Paginate(session, s, cursor) == Ok(PageOfListing(session, l, limit))
  {
  }

  lemma FittingTail(session: Session, snaps: seq<Snapshot>)
    requires Fitting(session, snaps) && snaps != []
    ensures Fitting(session, snaps[1..])
    ensures forall r :: r in snaps[0].rows ==> Fits(session, At(r))
  {
    assert forall i :: 0 <= i < |snaps[1..]| ==> snaps[1..][i] == snaps[i + 1];
  }

  /** The last row of a page can be asked behind. */
  lemma NextCarries(session: Session, s: Snapshot, after: Option<Pos>, l: seq<Row>, k: nat)
    requires session.platform.Sound() && l == Listing(s, after) && k < |l|
    requires forall r :: r in s.rows ==> Fits(session, At(r))
    ensures Carries(session, Some(CursorFor(session, At(l[k]))), Some(At(l[k])))
  {
    assert l[k] in l;
    ListingMembers(s, after);
    CursorCarries(session, At(l[k]));
  }

  lemma WalkStep(limit: int, snaps: seq<Snapshot>, after: Option<Pos>, l: seq<Row>)
    requires limit >= 1 && snaps != [] && l == Listing(snaps[0], after)
    ensures var next := if |l| <= limit then None else Some(At(l[limit - 1]));
      && Walk(KEY, limit, Sources(snaps), after) == (if |l| <= limit then l else l[..limit] + Walk(KEY, limit, Sources(snaps[1..]), next))
      && Done(KEY, limit, Sources(snaps), after) == (|l| <= limit || Done(KEY, limit, Sources(snaps[1..]), next))
  {
    assert Sources(snaps)[0](after) == l;
    assert Sources(snaps)[1..] == Sources(snaps[1..]);
  }

  /** Opaque cursors lose nothing: following them is the keyset walk over the listings. */
  lemma {:induction false} VisitIsWalk(session: Session, snaps: seq<Snapshot>, cursor: Option<string>, after: Option<Pos>)
    requires Fitting(session, snaps) && Carries(session, cursor, after)
    ensures Items(Visit(session, snaps, cursor)) == Walk(KEY, Limit(session), Sources(snaps), after)
    ensures Finished(Visit(session, snaps, cursor)) <==> Done(KEY, Limit(session), Sources(snaps), after)
    decreases |snaps|
  {
    if snaps != [] {
      var l, limit := Listing(snaps[0], after), Limit(session);
      WalkStep(limit, snaps, after, l);
      VisitPage(session, snaps, cursor, after, l, limit);
      if |l| > limit {
        FittingTail(session, snaps);
        NextCarries(session, snaps[0], after, l, limit - 1);
        VisitIsWalk(session, snaps[1..], Some(CursorFor(session, At(l[limit - 1]))), Some(At(l[limit - 1])));
      }
    }
  }

  lemma VisitPage(session: Session, snaps: seq<Snapshot>, cursor: Option<string>, after: Option<Pos>, l: seq<Row>, limit: int)
    requires snaps != [] && limit == Limit(session) >= 1 && Carries(session, cursor, after) && l == Listing(snaps[0], after)
    ensures |l| <= limit ==> Items(Visit(session, snaps, cursor)) == l && Finished(Visit(session, snaps, cursor))
    ensures |l| > limit ==>
      var answers, rest := Visit(session, snaps, cursor), Visit(session, snaps[1..], Some(CursorFor(session, At(l[limit - 1]))));
      Items(answers) == l[..limit] + Items(rest) && (Finished(answers) <==> Finished(rest))
  {
    PageShape(session, snaps[0], cursor, after, l, limit);
    var page := PageOfListing(session, l, limit);
    if |l| <= limit {
      LastAnswer(session, snaps, cursor, page);
    } else {
      OneAnswer(session, snaps, cursor, page);
    }
  }

  /** The page behind a position, by the number of rows on it. */
  function PageOfListing(session: Session, l: seq<Row>, limit: int): Page
    requires limit >= 1
  {
    if |l| <= limit then Page(l, false, None) else Page(l[..limit], true, Some(CursorFor(session, At(l[limit - 1]))))
  }

  lemma LastAnswer(session: Session, snaps: seq<Snapshot>, cursor: Option<string>, page: Page)
    requires snaps != [] && Paginate(session, snaps[0], cursor) == Ok(page) && page.nextCursor.None? && !page.hasMore
    ensures Items(Visit(session, snaps, cursor)) == page.items && Finished(Visit(session, snaps, cursor))
  {
    var answers := Visit(session, snaps, cursor);
    assert answers == [Ok(page)] && answers[1..] == [];
    assert page.items + [] == page.items;
  }

  lemma OneAnswer(session: Session, snaps: seq<Snapshot>, cursor: Option<string>, page: Page)
    requires snaps != [] && Paginate(session, snaps[0], cursor) == Ok(page) && page.nextCursor.Some? && page.hasMore
    ensures var answers, rest := Visit(session, snaps, cursor), Visit(session, snaps[1..], page.nextCursor);
      Items(answers) == page.items + Items(rest) && (Finished(answers) <==> Finished(rest))
  {
    var answers, rest := Visit(session, snaps, cursor), Visit(session, snaps[1..], page.nextCursor);
    assert answers == [Ok(page)] + rest && answers[1..] == rest;
  }

  /** A row that could be seen in the snapshot of some request. */
  ghost predicate Seen(snaps: seq<Snapshot>, r: Row) {
    exists i :: 0 <= i < |snaps| && r in snaps[i].rows && snaps[i].canView(r)
  }

  lemma AllOrderly(session: Session, snaps: seq<Snapshot>)
    requires Stable(session, snaps)
    ensures forall i :: 0 <= i < |snaps| ==> KeysFixed(snaps[i].rows) && Orderly(KEY, Sources(snaps)[i])
  {
    forall i | 0 <= i < |snaps| ensures KeysFixed(snaps[i].rows) && Orderly(KEY, Sources(snaps)[i]) {
      ListingOrderly(snaps[i]);
    }
  }

  lemma ListedSeen(snaps: seq<Snapshot>, r: Row)
    requires Listed(Sources(snaps), r) && forall i :: 0 <= i < |snaps| ==> KeysFixed(snaps[i].rows)
    ensures Seen(snaps, r)
  {
    var i, after :| 0 <= i < |snaps| && r in Sources(snaps)[i](after);
    ListingProperties(snaps[i], after);
  }

  /**
   * However the rows change between requests, no id is returned twice, the rows
   * come in strictly increasing order, and nothing hidden is returned.
   */
  lemma VisitNeverRepeats(session: Session, snaps: seq<Snapshot>)
    requires Stable(session, snaps)
    ensures var items := Items(Visit(session, snaps, None));
      && StrictlySorted(KEY, items)
      && (forall i, j :: 0 <= i < j < |items| ==> items[i].id != items[j].id)
      && (forall r :: r in items ==> Seen(snaps, r))
  {
    var items := Items(Visit(session, snaps, None));
    VisitIsWalk(session, snaps, None, None);
    AllOrderly(session, snaps);
    WalkOrdered(KEY, Limit(session), Sources(snaps), None);
    forall r | r in items ensures Seen(snaps, r) {
      ListedSeen(snaps, r);
    }
    forall i, j | 0 <= i < j < |items| ensures items[i].id != items[j].id {
      assert items[i] in items && items[j] in items;
      assert Before(KEY(items[i]), KEY(items[j]));
      CompareStableTotal(At(items[i]), At(items[j]));
    }
  }

  /** A row that is present and visible at every request is returned, once, by every finished visit. */
  lemma VisitMissesNothing(session: Session, snaps: seq<Snapshot>, row: Row)
    requires Stable(session, snaps) && Finished(Visit(session, snaps, None))
    requires forall i :: 0 <= i < |snaps| ==> row in snaps[i].rows && snaps[i].canView(row)
    ensures exists r :: r in Items(Visit(session, snaps, None)) && r.id == row.id
  {
    VisitIsWalk(session, snaps, None, None);
    AllOrderly(session, snaps);
    forall i | 0 <= i < |snaps| ensures Offers(KEY, Sources(snaps)[i], At(row)) {
      ListingOffers(snaps[i], row);
    }
    WalkComplete(KEY, Limit(session), Sources(snaps), None, At(row));
  }

  /** Rows that sort at or above the cursor in hand, such as newer inserts, never come back. */
  lemma VisitStaysBehindCursor(session: Session, snaps: seq<Snapshot>, pos: Pos, r: Row)
    requires Stable(session, snaps) && Fits(session, pos)
    requires r in Items(Visit(session, snaps, Some(CursorFor(session, pos))))
    ensures Before(pos, At(r))
  {
    CursorCarries(session, pos);
    VisitIsWalk(session, snaps, Some(CursorFor(session, pos)), Some(pos));
    AllOrderly(session, snaps);
    WalkOrdered(KEY, Limit(session), Sources(snaps), Some(pos));
  }

  // ---------- A frozen snapshot ----------

  /** A predicate on ids passes through the seen filter. */
  lemma {:induction false} UniqueFilter(p: Row -> bool, rows: seq<Row>, seen: set<string>, seen': set<string>)
    requires forall r, q :: r in rows && q in rows && r.id == q.id ==> p(r) == p(q)
    requires forall r :: r in rows && p(r) ==> (r.id in seen <==> r.id in seen')
    ensures Filter(p, Unique(rows, seen)) == Unique(Filter(p, rows), seen')
  {
    if rows != [] {
      var x, rest := rows[0], rows[1..];
      var next := if x.id in seen then seen else seen + {x.id};
      var next' := if p(x) && x.id !in seen' then seen' + {x.id} else seen';
      assert x in rows && forall r :: r in rest ==> r in rows;
      UniqueFilter(p, rest, next, next');
      if x.id !in seen {
        assert ([x] + Unique(rest, next))[1..] == Unique(rest, next);
      }
      if p(x) {
        assert ([x] + Filter(p, rest))[1..] == Filter(p, rest);
      }
    }
  }

  /** Filtering by position before sorting is the same as filtering the finished list. */
  lemma ListingFiltered(s: Snapshot, after: Option<Pos>)
    requires KeysFixed(s.rows)
    ensures Listing(s, after) == Filter(Pending(after), Unique(Sort(KEY, Filter(s.canView, s.rows)), {}))
  {
    var visible := Filter(s.canView, s.rows);
    var p := Pending(after);
    FilterIn(s.canView, s.rows);
    FilterSort(KEY, p, visible);
    SortElements(KEY, visible);
    UniqueFilter(p, Sort(KEY, visible), {}, {});
  }

  lemma FilterFromStart(u: seq<Row>)
    ensures Filter(Pending(None), u) == u
  {
    FilterAll(Pending(None), u);
  }

  lemma FilterBehind(u: seq<Row>, k: nat)
    requires StrictlySorted(KEY, u) && k < |u|
    ensures Filter(Pending(Some(At(u[k]))), u) == u[k + 1..]
  {
    FilterAfter(KEY, Pending(Some(At(u[k]))), u, k);
  }

  /** Behind its k-th row, a listing is its own tail. */
  lemma ListingTail(s: Snapshot, l: seq<Row>, k: nat)
    requires KeysFixed(s.rows) && l == Listing(s, None) && k < |l|
    ensures Listing(s, Some(At(l[k]))) == l[k + 1..]
  {
    var u := Unique(Sort(KEY, Filter(s.canView, s.rows)), {});
    assert u == l by {
      ListingFiltered(s, None);
      FilterFromStart(u);
    }
    assert StrictlySorted(KEY, l) by {
      ListingProperties(s, None);
    }
    ListingFiltered(s, Some(At(l[k])));
    FilterBehind(l, k);
  }

  /**
   * On a snapshot that does not change, n requests return the first n pages of
   * the sorted visible rows. The client is finished, with the whole list in hand,
   * exactly when n pages are enough to hold it.
   */
  lemma FrozenVisit(session: Session, s: Snapshot, n: nat)
    requires n > 0 && Stable(session, Copies(s, n))
    ensures Items(Visit(session, Copies(s, n), None)) == SliceTo(Listing(s, None), n * Limit(session))
    ensures Finished(Visit(session, Copies(s, n), None)) <==> |Listing(s, None)| <= n * Limit(session)
  {
    var f, l := SourceOf(s), Listing(s, None);
    assert Copies(s, n)[0] == s;
    assert KeysFixed(s.rows);
    assert Lists(KEY, f, l) by {
      forall k | 0 <= k < |l| ensures f(Some(KEY(l[k]))) == l[k + 1..] {
        ListingTail(s, l, k);
      }
    }
    VisitIsWalk(session, Copies(s, n), None, None);
    FrozenWalk(KEY, Limit(session), f, l, n);
    assert Sources(Copies(s, n)) == Repeat(f, n);
  }

  function Copies(s: Snapshot, n: nat): (r: seq<Snapshot>)
    ensures |r| == n && forall i :: 0 <= i < n ==> r[i] == s
  {
    seq(n, _ => s)
  }

  // ---------- Exactly when an id repeats ----------

  ghost predicate Repeats(items: seq<Row>) {
    exists i, j :: 0 <= i < j < |items| && items[i].id == items[j].id
  }

  /** A visible id comes with two sort keys, and another id is still to be listed when the first is. */
  ghost predicate KeySplit(s: Snapshot) {
    exists p, q, r :: TwoKeys(s, p, q, r)
  }

  ghost predicate TwoKeys(s: Snapshot, p: Row, q: Row, r: Row) {
    && Visible(s, p) && Visible(s, q) && Visible(s, r)
    && p.id == q.id && Before(At(p), At(q)) && r.id != p.id && Before(At(p), At(r))
  }

  lemma {:induction false} UniqueDistinct(rows: seq<Row>, seen: set<string>)
    ensures !Repeats(Unique(rows, seen))
  {
    if rows != [] {
      var seen' := if rows[0].id in seen then seen else seen + {rows[0].id};
      UniqueDistinct(rows[1..], seen');
      UniqueIn(rows[1..], seen');
      var rest, u := Unique(rows[1..], seen'), Unique(rows, seen);
      forall i, j | 0 <= i < j < |u| ensures u[i].id != u[j].id {
        if rows[0].id !in seen {
          assert u[j] == rest[j - 1] && rest[j - 1] in rest;
          assert i > 0 ==> u[i] == rest[i - 1];
        }
      }
    }
  }

  lemma {:induction false} UniqueSorted(rows: seq<Row>, seen: set<string>)
    requires Sorted(KEY, rows)
    ensures Sorted(KEY, Unique(rows, seen))
  {
    if rows != [] {
      var seen' := if rows[0].id in seen then seen else seen + {rows[0].id};
      UniqueSorted(rows[1..], seen');
      UniqueIn(rows[1..], seen');
      var rest := Unique(rows[1..], seen');
      forall j | 0 <= j < |rest| ensures !Before(KEY(rest[j]), KEY(rows[0])) {
        assert rest[j] in rest;
        var i :| 1 <= i < |rows| && rows[i] == rest[j];
      }
    }
  }

  lemma ListingSorted(s: Snapshot, after: Option<Pos>)
    ensures Sorted(KEY, Listing(s, after)) && !Repeats(Listing(s, after))
  {
    CandidatesAre(s, after);
    UniqueSorted(Candidates(s, after), {});
    UniqueDistinct(Candidates(s, after), {});
  }

  /** Everything a walk over one snapshot returns is visible and behind its start. */
  lemma {:induction false} WalkVisible(s: Snapshot, limit: int, n: nat, after: Option<Pos>, x: Row)
    requires limit >= 1 && x in Walk(KEY, limit, Sources(Copies(s, n)), after)
    ensures Visible(s, x) && After(after, x)
    decreases n
  {
    var l := Listing(s, after);
    ListingMembers(s, after);
    WalkStep(limit, Copies(s, n), after, l);
    if |l| > limit && x !in l[..limit] {
      assert Copies(s, n)[1..] == Copies(s, n - 1);
      var last := l[limit - 1];
      assert last in l;
      WalkVisible(s, limit, n - 1, Some(At(last)), x);
      if after.Some? { BeforeTransitive(after.value, At(last), At(x)); }
    }
  }

  /** A page that is not the last, and a row behind it with an id of the page. */
  lemma SplitAcross(s: Snapshot, after: Option<Pos>, l: seq<Row>, limit: nat, i: nat, y: Row)
    requires l == Listing(s, after) && i < limit < |l| && Visible(s, y) && Before(At(l[limit - 1]), At(y)) && l[i].id == y.id
    ensures TwoKeys(s, l[i], y, l[limit])
  {
    ListingMembers(s, after);
    ListingSorted(s, after);
    assert l[i] in l && l[limit] in l;
    assert !Before(KEY(l[limit]), KEY(l[i]));
    CompareStableTotal(At(l[i]), At(l[limit]));
    if i < limit - 1 {
      assert !Before(KEY(l[limit - 1]), KEY(l[i]));
      BeforeTransitiveWeak(At(l[i]), At(l[limit - 1]), At(y));
    }
  }

  lemma {:induction false} RepeatIsSplit(s: Snapshot, limit: int, n: nat, after: Option<Pos>)
    requires limit >= 1 && Repeats(Walk(KEY, limit, Sources(Copies(s, n)), after))
    ensures KeySplit(s)
    decreases n
  {
    var l, items := Listing(s, after), Walk(KEY, limit, Sources(Copies(s, n)), after);
    WalkStep(limit, Copies(s, n), after, l);
    ListingSorted(s, after);
    assert |l| > limit;
    assert Copies(s, n)[1..] == Copies(s, n - 1);
    var next := Some(At(l[limit - 1]));
    var rest := Walk(KEY, limit, Sources(Copies(s, n - 1)), next);
    assert items == l[..limit] + rest;
    if Repeats(rest) {
      RepeatIsSplit(s, limit, n - 1, next);
    } else {
      var i, j :| 0 <= i < j < |items| && items[i].id == items[j].id;
      assert items[j] in rest;
      WalkVisible(s, limit, n - 1, next, items[j]);
      SplitAcross(s, after, l, limit, i, items[j]);
    }
  }

  // ---------- With a limit of one, every split shows ----------

  function Waiting(s: Snapshot, after: Option<Pos>): nat {
    Count(Pending(after), s.rows)
  }

  lemma {:induction false} CountFewer(p: Row -> bool, q: Row -> bool, rows: seq<Row>)
    requires forall r :: r in rows && q(r) ==> p(r)
    ensures Count(q, rows) <= Count(p, rows)
    ensures (exists r :: r in rows && p(r) && !q(r)) ==> Count(q, rows) < Count(p, rows)
  {
    if rows != [] {
      assert rows[0] in rows && forall r :: r in rows[1..] ==> r in rows;
      CountFewer(p, q, rows[1..]);
      if r :| r in rows && p(r) && !q(r) {
        assert r == rows[0] || r in rows[1..];
      }
    }
  }

  /** Behind the first row of a listing fewer rows wait. */
  lemma FewerWait(s: Snapshot, after: Option<Pos>, first: Row)
    requires Visible(s, first) && After(after, first)
    ensures Waiting(s, Some(At(first))) < Waiting(s, after)
  {
    var p, q := Pending(after), Pending(Some(At(first)));
    forall r | r in s.rows && q(r) ensures p(r) {
      if after.Some? { BeforeTransitive(after.value, At(first), At(r)); }
    }
    CompareStableTotal(At(first), At(first));
    assert first in s.rows && p(first) && !q(first);
    CountFewer(p, q, s.rows);
  }

  /** The first row of a listing is in front of every waiting row with another id. */
  lemma FirstRow(s: Snapshot, after: Option<Pos>, x: Row) returns (first: Row)
    requires Visible(s, x) && After(after, x)
    ensures Listing(s, after) != [] && first == Listing(s, after)[0]
    ensures Visible(s, first) && After(after, first) && !Before(At(x), At(first))
    ensures first.id != x.id ==> Before(At(first), At(x)) && |Listing(s, after)| > 1
  {
    var l, v := Listing(s, after), Candidates(s, after);
    CandidatesAre(s, after);
    UniqueKeepsIds(v, {}, x);
    var y :| y in l && y.id == x.id;
    assert v != [] && l[0] == v[0];
    first := l[0];
    var k :| 0 <= k < |v| && v[k] == x;
    assert k > 0 ==> !Before(KEY(v[k]), KEY(v[0]));
    CompareStableTotal(At(first), At(x));
    assert first in v;
  }

  /** One row at a time, a walk lists every waiting id. */
  lemma {:induction false} ListsId(s: Snapshot, n: nat, after: Option<Pos>, x: Row) returns (y: Row)
    requires Visible(s, x) && After(after, x) && n > Waiting(s, after)
    ensures y in Walk(KEY, 1, Sources(Copies(s, n)), after) && y.id == x.id
    decreases n
  {
    var first := FirstRow(s, after, x);
    if first.id == x.id {
      y := first;
      WalkStep(1, Copies(s, n), after, Listing(s, after));
    } else {
      var rest := OneRowOn(s, n, after, first);
      FewerWait(s, after, first);
      y := ListsId(s, n - 1, Some(At(first)), x);
    }
  }

  /** One row at a time, while two ids wait: the first row, and the walk behind it. */
  lemma OneRowOn(s: Snapshot, n: nat, after: Option<Pos>, first: Row) returns (rest: seq<Row>)
    requires n > 0 && |Listing(s, after)| > 1 && first == Listing(s, after)[0]
    ensures rest == Walk(KEY, 1, Sources(Copies(s, n - 1)), Some(At(first)))
    ensures Walk(KEY, 1, Sources(Copies(s, n)), after) == [first] + rest
  {
    WalkStep(1, Copies(s, n), after, Listing(s, after));
    assert Copies(s, n)[1..] == Copies(s, n - 1);
    assert Listing(s, after)[..1] == [first];
    rest := Walk(KEY, 1, Sources(Copies(s, n - 1)), Some(At(first)));
  }

  /** While both ids of a split wait, so do two ids. */
  lemma TwoIdsWait(s: Snapshot, after: Option<Pos>, p: Row, q: Row, r: Row) returns (first: Row)
    requires TwoKeys(s, p, q, r) && After(after, p)
    ensures |Listing(s, after)| > 1 && first == Listing(s, after)[0] && Visible(s, first) && After(after, first)
    ensures first.id == p.id ==> Before(At(first), At(q))
    ensures first.id != p.id ==> Before(At(first), At(p))
  {
    if after.Some? { BeforeTransitive(after.value, At(p), At(r)); }
    first := FirstRow(s, after, p);
    var other := FirstRow(s, after, r);
    CompareStableTotal(At(first), At(p));
    if first.id == p.id && At(first) != At(p) { BeforeTransitive(At(first), At(p), At(q)); }
  }

  lemma RepeatsFurther(first: Row, rest: seq<Row>)
    requires Repeats(rest) || exists y :: y in rest && y.id == first.id
    ensures Repeats([first] + rest)
  {
    var items := [first] + rest;
    if Repeats(rest) {
      var i, j :| 0 <= i < j < |rest| && rest[i].id == rest[j].id;
      assert items[i + 1].id == items[j + 1].id;
    } else {
      var y :| y in rest && y.id == first.id;
      var j :| 0 <= j < |rest| && rest[j] == y;
      assert items[0].id == items[j + 1].id;
    }
  }

  lemma {:induction false} SplitRepeats(s: Snapshot, n: nat, after: Option<Pos>, p: Row, q: Row, r: Row)
    requires TwoKeys(s, p, q, r) && After(after, p) && n > Waiting(s, after)
    ensures Repeats(Walk(KEY, 1, Sources(Copies(s, n)), after))
    decreases n
  {
    var first := TwoIdsWait(s, after, p, q, r);
    var rest := OneRowOn(s, n, after, first);
    FewerWait(s, after, first);
    if first.id == p.id {
      var y := ListsId(s, n - 1, Some(At(first)), q);
    } else {
      SplitRepeats(s, n - 1, Some(At(first)), p, q, r);
    }
    RepeatsFurther(first, rest);
  }

  function Limited(session: Session, limit: int): (r: Session)
    ensures limit >= 1 ==> Limit(r) == limit
  {
    session.(asked := Some(limit), maxLimit := limit)
  }

  /**
   * The seen set guards single pages only. On a snapshot that does not change, some client gets an id
   * twice if and only if a visible id has two sort keys and another visible id sorts behind the first.
   */
  lemma RepeatsExactly(session: Session, s: Snapshot)
    requires session.platform.Sound() && forall r :: r in s.rows ==> Fits(session, At(r))
    ensures (exists limit, n: nat :: limit >= 1 && Repeats(Items(Visit(Limited(session, limit), Copies(s, n), None)))) <==> KeySplit(s)
  {
    forall limit, n: nat | limit >= 1
      ensures Items(Visit(Limited(session, limit), Copies(s, n), None)) == Walk(KEY, limit, Sources(Copies(s, n)), None)
    {
      VisitIsWalk(Limited(session, limit), Copies(s, n), None, None);
    }
    if limit, n: nat :| limit >= 1 && Repeats(Items(Visit(Limited(session, limit), Copies(s, n), None))) {
      RepeatIsSplit(s, limit, n, None);
    }
    if KeySplit(s) {
      var p, q, r :| TwoKeys(s, p, q, r);
      var n := Waiting(s, None) + 1;
      SplitRepeats(s, n, None, p, q, r);
      assert Repeats(Items(Visit(Limited(session, 1), Copies(s, n), None)));
    }
  }

  /** An instance: one id with two sort keys around another row. */
  lemma MovingKeyRepeats(session: Session, a: Row, b: Row, c: Row, s: Snapshot)
    requires a.id == c.id && a.id != b.id && Before(At(a), At(b)) && Before(At(b), At(c))
    requires s == Snapshot([a, b, c], _ => true)
    requires session.platform.Sound() && Fits(session, At(a)) && Fits(session, At(b)) && Fits(session, At(c))
    ensures exists limit, n: nat :: limit >= 1 && Repeats(Items(Visit(Limited(session, limit), Copies(s, n), None)))
  {
    BeforeTransitive(At(a), At(b), At(c));
    assert TwoKeys(s, a, c, b);
    RepeatsExactly(session, s);
  }
}
