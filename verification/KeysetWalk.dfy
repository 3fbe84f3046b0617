/**
 * Keyset paging over sources that may differ from request to request.
 *
 * A source answers, for the position of the last row seen, every row still to be
 * listed. A walk takes at most a page from each source and asks the next one for
 * what lies behind the last row it took.
 */
module KeysetWalk {
  import opened Basics
  import opened Ordering

  type Source<!T> = Option<Pos> -> seq<T>

  predicate Behind(after: Option<Pos>, pos: Pos) {
    after.None? || Before(after.value, pos)
  }

  /** The rows on the pages of a walk. */
  function Walk<T>(key: T -> Pos, limit: int, sources: seq<Source<T>>, after: Option<Pos>): seq<T>
    requires limit >= 1
  {
    if sources == [] then []
    else
      var l := sources[0](after);
      if |l| <= limit then l else l[..limit] + Walk(key, limit, sources[1..], Some(key(l[limit - 1])))
  }

  /** Some page of the walk held all that was left. */
  predicate Done<T>(key: T -> Pos, limit: int, sources: seq<Source<T>>, after: Option<Pos>)
    requires limit >= 1
  {
    sources != [] &&
    var l := sources[0](after);
    |l| <= limit || Done(key, limit, sources[1..], Some(key(l[limit - 1])))
  }

  /** What a source lists is strictly ordered and behind the position asked for. */
  ghost predicate Orderly<T(!new)>(key: T -> Pos, f: Source<T>) {
    forall after :: StrictlySorted(key, f(after)) && forall x :: x in f(after) ==> Behind(after, key(x))
  }

  lemma OrderedConcat<T(!new)>(key: T -> Pos, items: seq<T>, rest: seq<T>, after: Option<Pos>)
    requires items != [] && StrictlySorted(key, items) && StrictlySorted(key, rest)
    requires forall x :: x in items ==> Behind(after, key(x))
    requires forall x :: x in rest ==> Before(key(items[|items| - 1]), key(x))
    ensures StrictlySorted(key, items + rest)
    ensures forall x :: x in items + rest ==> Behind(after, key(x))
  {
    var last := items[|items| - 1];
    forall i, j | 0 <= i < |items| && 0 <= j < |rest| ensures Before(key(items[i]), key(rest[j])) {
      assert rest[j] in rest;
      if i < |items| - 1 {
        BeforeTransitive(key(items[i]), key(last), key(rest[j]));
      }
    }
    forall x | x in rest ensures Behind(after, key(x)) {
      if after.Some? {
        assert last in items;
        BeforeTransitive(after.value, key(last), key(x));
      }
    }
  }

  /** Everything a walk returns is behind its start, in strictly increasing order, and came from some source. */
  lemma {:induction false} WalkOrdered<T(!new)>(key: T -> Pos, limit: int, sources: seq<Source<T>>, after: Option<Pos>)
    requires limit >= 1 && forall i :: 0 <= i < |sources| ==> Orderly(key, sources[i])
    ensures StrictlySorted(key, Walk(key, limit, sources, after))
    ensures forall x :: x in Walk(key, limit, sources, after) ==> Behind(after, key(x)) && Listed(sources, x)
  {
    if sources != [] {
      var l := sources[0](after);
      assert Orderly(key, sources[0]);
      assert forall x :: x in l ==> Listed(sources, x);
      if |l| > limit {
        var next := Some(key(l[limit - 1]));
        WalkOrdered(key, limit, sources[1..], next);
        var rest := Walk(key, limit, sources[1..], next);
        OrderedConcat(key, l[..limit], rest, after);
        forall x | x in rest ensures Listed(sources, x) {
          ListedTail(sources, x);
        }
      }
    }
  }

  ghost predicate Listed<T(!new)>(sources: seq<Source<T>>, x: T) {
    exists i, after :: 0 <= i < |sources| && x in sources[i](after)
  }

  lemma ListedTail<T(!new)>(sources: seq<Source<T>>, x: T)
    requires sources != [] && Listed(sources[1..], x)
    ensures Listed(sources, x)
  {
    var i, after :| 0 <= i < |sources[1..]| && x in sources[1..][i](after);
    assert x in sources[i + 1](after);
  }

  /** The source lists this position whenever it is asked for something in front of it. */
  ghost predicate Offers<T(!new)>(key: T -> Pos, f: Source<T>, pos: Pos) {
    forall after :: Behind(after, pos) ==> exists x :: x in f(after) && key(x) == pos
  }

  /** A finished walk returned every position that all its sources offered. */
  lemma {:induction false} WalkComplete<T(!new)>(key: T -> Pos, limit: int, sources: seq<Source<T>>, after: Option<Pos>, pos: Pos)
    requires limit >= 1 && Behind(after, pos) && Done(key, limit, sources, after)
    requires forall i :: 0 <= i < |sources| ==> Orderly(key, sources[i]) && Offers(key, sources[i], pos)
    ensures exists x :: x in Walk(key, limit, sources, after) && key(x) == pos
  {
    var l := sources[0](after);
    assert Orderly(key, sources[0]) && Offers(key, sources[0], pos);
    var k :| 0 <= k < |l| && key(l[k]) == pos;
    if |l| <= limit || k < limit {
      assert l[k] in Walk(key, limit, sources, after);
    } else {
      var next := Some(key(l[limit - 1]));
      WalkComplete(key, limit, sources[1..], next, pos);
      var x :| x in Walk(key, limit, sources[1..], next) && key(x) == pos;
      assert x in Walk(key, limit, sources, after);
    }
  }

  // ---------- A source that does not change ----------

  /** The source lists l, and behind any of its rows the tail of l. */
  ghost predicate Lists<T>(key: T -> Pos, f: Source<T>, l: seq<T>) {
    f(None) == l && forall k {:trigger f(Some(key(l[k])))} :: 0 <= k < |l| ==> f(Some(key(l[k]))) == l[k + 1..]
  }

  function Repeat<T>(f: Source<T>, n: nat): (r: seq<Source<T>>)
    ensures |r| == n && forall i :: 0 <= i < n ==> r[i] == f
  {
    seq(n, _ => f)
  }

  function Start<T>(key: T -> Pos, l: seq<T>, k: nat): Option<Pos>
    requires k <= |l|
  {
    if k == 0 then None else Some(key(l[k - 1]))
  }

  /** From row k on, n requests list the next n pages, and are done exactly when those hold the rest. */
  lemma {:induction false} FrozenFrom<T>(key: T -> Pos, limit: int, f: Source<T>, l: seq<T>, n: nat, k: nat)
    requires limit >= 1 && k <= |l| && Lists(key, f, l)
    ensures Walk(key, limit, Repeat(f, n), Start(key, l, k)) == SliceTo(l[k..], n * limit)
    ensures Done(key, limit, Repeat(f, n), Start(key, l, k)) <==> n > 0 && |l| - k <= n * limit
    decreases n
  {
    if n > 0 {
      assert f(Start(key, l, k)) == l[k..];
      assert Repeat(f, n)[1..] == Repeat(f, n - 1);
      OnePage(n, limit);
      if |l| - k > limit {
        FrozenFrom(key, limit, f, l, n - 1, k + limit);
        assert l[k..][limit - 1] == l[k + limit - 1];
        TakePages(l[k..], limit, (n - 1) * limit);
        assert l[k..][limit..] == l[k + limit..];
      }
    }
  }

  lemma OnePage(n: nat, limit: nat)
    requires n > 0
    ensures n * limit == limit + (n - 1) * limit && (n - 1) * limit >= 0
  {
  }

  lemma TakePages<T>(s: seq<T>, a: int, b: int)
    requires 0 <= a <= |s| && b >= 0
    ensures s[..a] + SliceTo(s[a..], b) == SliceTo(s, a + b)
  {
  }

  /** n requests return the first n pages of the list, and finish exactly when n pages hold it all. */
  lemma FrozenWalk<T>(key: T -> Pos, limit: int, f: Source<T>, l: seq<T>, n: nat)
    requires limit >= 1 && Lists(key, f, l) && n > 0
    ensures Walk(key, limit, Repeat(f, n), None) == SliceTo(l, n * limit)
    ensures Done(key, limit, Repeat(f, n), None) <==> |l| <= n * limit
  {
    FrozenFrom(key, limit, f, l, n, 0);
    assert l[0..] == l;
  }

  // ---------- Sorting the rows behind a position ----------

  function Pending<T>(key: T -> Pos, after: Option<Pos>): T -> bool {
    x => Behind(after, key(x))
  }

  /** The rows behind a position, sorted. */
  function Remaining<T>(key: T -> Pos, all: seq<T>, after: Option<Pos>): seq<T> {
    Sort(key, Filter(Pending(key, after), all))
  }

  function SourceOf<T>(key: T -> Pos, all: seq<T>): Source<T> {
    after => Remaining(key, all, after)
  }

  /** In front of everything, all rows remain. */
  lemma RemainingNone<T(!new)>(key: T -> Pos, all: seq<T>)
    ensures Remaining(key, all, None) == Sort(key, all)
  {
    FilterAll(Pending(key, None), all);
  }

  /** What remains behind the k-th row of the sorted list is the rest of the list. */
  lemma RemainingAfter<T(!new)>(key: T -> Pos, all: seq<T>, l: seq<T>, k: nat)
    requires DistinctKeys(key, all) && l == Sort(key, all) && k < |l|
    ensures Remaining(key, all, Some(key(l[k]))) == l[k + 1..]
  {
    var p := Pending(key, Some(key(l[k])));
    FilterSort(key, p, all);
    SortStrict(key, all);
    FilterAfter(key, p, l, k);
  }

  lemma RemainingLists<T(!new)>(key: T -> Pos, all: seq<T>, l: seq<T>)
    requires DistinctKeys(key, all) && l == Sort(key, all)
    ensures Lists(key, SourceOf(key, all), l)
  {
    var f := SourceOf(key, all);
    RemainingNone(key, all);
    forall k {:trigger f(Some(key(l[k])))} | 0 <= k < |l| ensures f(Some(key(l[k]))) == l[k + 1..] {
      RemainingAfter(key, all, l, k);
    }
  }

  // ---------- Pages with a cursor ----------

  datatype PageOf<T> = PageOf(records: seq<T>, hasMore: bool, next: Option<Pos>)

  /** The first rows of all that remains, and a cursor on the last of them when more remain. */
  function PageFor<T>(key: T -> Pos, rest: seq<T>, limit: nat): PageOf<T> {
    var records := SliceTo(rest, limit);
    var hasMore := |rest| > limit;
    PageOf(records, hasMore, if hasMore && records != [] then Some(key(records[|records| - 1])) else None)
  }

  /** At most n requests, each behind the cursor of the page before, until a page has none. */
  function Visit<T>(key: T -> Pos, f: Source<T>, limit: nat, after: Option<Pos>, n: nat): seq<PageOf<T>>
    decreases n
  {
    if n == 0 then []
    else
      var page := PageFor(key, f(after), limit);
      [page] + if page.next.Some? then Visit(key, f, limit, page.next, n - 1) else []
  }

  function Records<T>(pages: seq<PageOf<T>>): seq<T> {
    if pages == [] then [] else pages[0].records + Records(pages[1..])
  }

  predicate Finished<T>(pages: seq<PageOf<T>>) {
    pages != [] && !pages[|pages| - 1].hasMore
  }

  lemma {:induction false} VisitIsWalk<T>(key: T -> Pos, f: Source<T>, limit: nat, after: Option<Pos>, n: nat)
    requires limit >= 1
    ensures Records(Visit(key, f, limit, after, n)) == Walk(key, limit, Repeat(f, n), after)
    ensures Finished(Visit(key, f, limit, after, n)) <==> Done(key, limit, Repeat(f, n), after)
    decreases n
  {
    if n > 0 {
      var pages := Visit(key, f, limit, after, n);
      var page := PageFor(key, f(after), limit);
      assert Repeat(f, n)[1..] == Repeat(f, n - 1);
      if page.next.Some? {
        VisitIsWalk(key, f, limit, page.next, n - 1);
        assert pages[1..] == Visit(key, f, limit, page.next, n - 1);
      } else {
        assert pages[1..] == [];
      }
    }
  }

  /**
   * n requests list the first n pages of the sorted rows, each row once. They
   * reach the last page exactly when n pages are enough to hold all rows.
   */
  lemma VisitListsAll<T(!new)>(key: T -> Pos, all: seq<T>, limit: nat, n: nat)
    requires limit >= 1 && n > 0 && DistinctKeys(key, all)
    ensures var pages := Visit(key, SourceOf(key, all), limit, None, n);
      && Records(pages) == SliceTo(Sort(key, all), n * limit)
      && (Finished(pages) <==> |all| <= n * limit)
  {
    var l := Sort(key, all);
    SortMultiset(key, all);
    RemainingLists(key, all, l);
    VisitIsWalk(key, SourceOf(key, all), limit, None, n);
    FrozenWalk(key, limit, SourceOf(key, all), l, n);
  }
}
