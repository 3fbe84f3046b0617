/**
 * Which events of a batch can succeed, and what can end up in a field or in the status, over all
 * schedules, when events may expect versions.
 */
module ReplayOutcomes {
  import opened Basics
  import opened Shuffle
  import opened ReplayEngine
  import opened ReplaySchedules

  // ---------- Gaps ----------

  /** Some event expects this version. */
  ghost predicate Filled(live: Event -> bool, events: seq<Event>, w: int) {
    exists e :: e in events && Expects(live, e, w)
  }

  /** How many of the `k` versions from `v` on no event expects; only free events can lead across them. */
  ghost function Gaps(live: Event -> bool, v: int, events: seq<Event>, k: nat): nat {
    if k == 0 then 0 else Gaps(live, v, events, k - 1) + if Filled(live, events, v + k - 1) then 0 else 1
  }

  lemma {:induction false} GapsGrow(live: Event -> bool, v: int, events: seq<Event>, l: nat, k: nat)
    requires l <= k
    ensures 0 <= Gaps(live, v, events, k) - Gaps(live, v, events, l) <= k - l
    decreases k
  {
    if l < k { GapsGrow(live, v, events, l, k - 1); }
  }

  /** To get across gaps takes as many free events. */
  lemma {:induction false} GapsNeedFree(live: Event -> bool, v: int, events: seq<Event>, prefix: seq<Event>)
    requires forall e :: e in prefix ==> e in events
    ensures Gaps(live, v, events, |Won(live, v, prefix)|) <= Count(Free(live), prefix)
    decreases |prefix|
  {
    if prefix != [] {
      var n := |prefix| - 1;
      var a, x := prefix[..n], prefix[n];
      GapsNeedFree(live, v, events, a);
      assert prefix == a + [x];
      var w := v + |Won(live, v, a)|;
      WonAppend(live, v, a, [x]);
      OneWon(live, w, x);
      CountAppend(Free(live), a, [x]);
      assert Count(Free(live), [x]) == (if Free(live)(x) then 1 else 0) + Count(Free(live), [x][1..]);
      assert Expects(live, x, w) ==> Filled(live, events, w);
    }
  }

  lemma OneWon(live: Event -> bool, w: int, x: Event)
    ensures Won(live, w, [x]) == if Wins(live, w, x) then [x] else []
  {
    assert Won(live, w, [x][1..]) == [] && Won(live, w + 1, [x][1..]) == [];
  }

  /** The place at which an event succeeds. */
  lemma {:induction false} WonAt(live: Event -> bool, v: int, q: seq<Event>, e: Event) returns (a: seq<Event>, b: seq<Event>)
    requires e in Won(live, v, q)
    ensures q == a + [e] + b && Wins(live, v + |Won(live, v, a)|, e)
    decreases |q|
  {
    var w := if Wins(live, v, q[0]) then v + 1 else v;
    if Wins(live, v, q[0]) && q[0] == e {
      a, b := [], q[1..];
      assert q == [] + [e] + q[1..];
    } else {
      a, b := WonAt(live, w, q[1..], e);
      a := [q[0]] + a;
      assert q == [q[0]] + q[1..];
      assert a[1..] == q[1..][..|a| - 1];
    }
  }

  // ---------- A ladder of successes ----------

  /** Events that climb from version `v` one by one, each free or expecting exactly its rung. */
  ghost predicate Ladder(live: Event -> bool, v: int, s: seq<Event>) {
    && Won(live, v, s) == s
    && forall e :: e in s ==> Free(live)(e) || (live(e) && e.expected.Some? && e.expected.value < v + |s|)
  }

  function Must(live: Event -> bool, p: Event -> bool): Event -> bool {
    (e: Event) => Free(live)(e) && p(e)
  }

  lemma Climb(live: Event -> bool, v: int, events: seq<Event>, s: seq<Event>, rest: seq<Event>, x: Event) returns (s': seq<Event>, rest': seq<Event>)
    requires Order(s + rest, events) && Ladder(live, v, s) && x in rest && Wins(live, v + |s|, x)
    ensures s' == s + [x] && Order(s' + rest', events) && Ladder(live, v, s') && Order([x] + rest', rest)
  {
    rest' := Pull(rest, x);
    s' := s + [x];
    assert s' + rest' == s + ([x] + rest');
    WonAppend(live, v, s, [x]);
    OneWon(live, v + |s|, x);
  }

  lemma CountPulled<T>(p: T -> bool, x: T, rest': seq<T>, rest: seq<T>)
    requires multiset([x] + rest') == multiset(rest)
    ensures Count(p, rest) == Count(p, rest') + if p(x) then 1 else 0
  {
    CountPermuted(p, [x] + rest', rest);
    assert ([x] + rest')[1..] == rest';
  }

  /** An event that expects the next rung is not on the ladder yet. */
  lemma NotYetUsed(live: Event -> bool, v: int, events: seq<Event>, s: seq<Event>, rest: seq<Event>, x: Event)
    requires Order(s + rest, events) && Ladder(live, v, s) && x in events && Expects(live, x, v + |s|)
    ensures x in rest
  {
    SameMembers(s + rest, events);
  }

  /**
   * A ladder of `l` of the `k` rungs that leaves enough free events for the gaps above, and no more of
   * those it must use than there are rungs above.
   */
  lemma {:induction false} Build(live: Event -> bool, v: int, events: seq<Event>, p: Event -> bool, k: nat, l: nat)
    returns (s: seq<Event>, rest: seq<Event>)
    requires l <= k && Gaps(live, v, events, k) <= Count(Free(live), events) && Count(Must(live, p), events) <= k
    ensures |s| == l && Order(s + rest, events) && Ladder(live, v, s)
    ensures Gaps(live, v, events, k) - Gaps(live, v, events, l) <= Count(Free(live), rest)
    ensures Count(Must(live, p), rest) <= k - l
    decreases l
  {
    if l == 0 {
      s, rest := [], events;
      assert s + rest == events;
    } else {
      var s', rest' := Build(live, v, events, p, k, l - 1);
      var above := Gaps(live, v, events, k) - Gaps(live, v, events, l);
      GapsGrow(live, v, events, l, k);
      var x := NextRung(live, v, events, p, s', rest', above);
      s, rest := Climb(live, v, events, s', rest', x);
      CountPulled(Free(live), x, rest, rest');
      CountPulled(Must(live, p), x, rest, rest');
    }
  }

  /** The event to use next: free across a gap, what must be used while there is plenty of it, else an expecting one. */
  lemma NextRung(live: Event -> bool, v: int, events: seq<Event>, p: Event -> bool, s: seq<Event>, rest: seq<Event>, above: int) returns (x: Event)
    requires Order(s + rest, events) && Ladder(live, v, s) && above >= 0
    requires above + (if Filled(live, events, v + |s|) then 0 else 1) <= Count(Free(live), rest)
    ensures x in rest && Wins(live, v + |s|, x)
    ensures Free(live)(x) ==> above < Count(Free(live), rest)
    ensures Must(live, p)(x) || Count(Must(live, p), rest) <= (if Filled(live, events, v + |s|) then above else 0)
  {
    if Filled(live, events, v + |s|) && Count(Must(live, p), rest) <= above {
      x :| x in events && Expects(live, x, v + |s|);
      NotYetUsed(live, v, events, s, rest, x);
    } else if Count(Must(live, p), rest) > 0 {
      x := SomeCounted(Must(live, p), rest);
      MustAreFree(live, p, rest);
    } else {
      x := SomeCounted(Free(live), rest);
    }
  }

  lemma {:induction false} MustAreFree(live: Event -> bool, p: Event -> bool, s: seq<Event>)
    ensures Count(Must(live, p), s) <= Count(Free(live), s)
  {
    if s != [] { MustAreFree(live, p, s[1..]); }
  }

  // ---------- Which events can succeed ----------

  /** Some order of the batch lets the event succeed. */
  ghost predicate CanWin(live: Event -> bool, v: int, events: seq<Event>, e: Event) {
    exists q :: Order(q, events) && e in Won(live, v, q)
  }

  /** There are enough free events for the gaps below the version it expects. */
  ghost predicate Reachable(live: Event -> bool, v: int, events: seq<Event>, w: int) {
    w >= v && Gaps(live, v, events, w - v) <= Count(Free(live), events)
  }

  lemma WinsReachable(live: Event -> bool, v: int, events: seq<Event>, a: seq<Event>, e: Event, b: seq<Event>, w: int)
    requires Order(a + [e] + b, events) && Wins(live, v + |Won(live, v, a)|, e) && e.expected == Some(w)
    ensures Reachable(live, v, events, w)
  {
    SameMembers(a + [e] + b, events);
    GapsNeedFree(live, v, events, a);
    CountAppend(Free(live), a, [e] + b);
    assert a + ([e] + b) == a + [e] + b;
    CountPermuted(Free(live), a + [e] + b, events);
  }

  function NoneOfThem(): Event -> bool {
    (e: Event) => false
  }

  /** An event that expects a version can succeed if and only if that version is reachable. */
  lemma CanWinExactly(live: Event -> bool, v: int, events: seq<Event>, e: Event, w: int)
    requires e in events && Expects(live, e, w)
    ensures CanWin(live, v, events, e) <==> Reachable(live, v, events, w)
  {
    if CanWin(live, v, events, e) {
      var q :| Order(q, events) && e in Won(live, v, q);
      var a, b := WonAt(live, v, q, e);
      WinsReachable(live, v, events, a, e, b, w);
    }
    if Reachable(live, v, events, w) {
      var k := w - v;
      NoMust(live, events);
      var s, rest := Build(live, v, events, NoneOfThem(), k, k);
      NotYetUsed(live, v, events, s, rest, e);
      var s', rest' := Climb(live, v, events, s, rest, e);
      WonAppend(live, v, s', rest');
      assert e in Won(live, v, s' + rest');
    }
  }

  lemma {:induction false} NoMust(live: Event -> bool, s: seq<Event>)
    ensures Count(Must(live, NoneOfThem()), s) == 0
  {
    if s != [] { NoMust(live, s[1..]); }
  }

  // ---------- What can end up in a cell ----------

  function WritesTo(cell: Cell): Event -> bool {
    (e: Event) => Writes(e, cell)
  }

  /** The free events that write the cell; all of them always succeed. */
  function FreeWriters(live: Event -> bool, events: seq<Event>, cell: Cell): nat {
    Count(Must(live, WritesTo(cell)), events)
  }

  /** Some schedule gives this event the last word on the cell. */
  ghost predicate MayBeLast(live: Event -> bool, v: int, events: seq<Event>, cell: Cell, e: Event) {
    && e in events && live(e) && Writes(e, cell)
    && (e.expected.Some? ==>
      Reachable(live, v, events, e.expected.value) && FreeWriters(live, events, cell) <= e.expected.value - v)
  }

  /** Some schedule leaves the cell alone. */
  ghost predicate MayStay(live: Event -> bool, v: int, events: seq<Event>, cell: Cell) {
    && FreeWriters(live, events, cell) == 0
    && (Count(Free(live), events) > 0
        || (exists e :: e in events && Expects(live, e, v) && !Writes(e, cell))
        || (forall e :: e in events && Expects(live, e, v) ==> !Writes(e, cell)))
  }

  lemma {:induction false} LastWriteAppend(a: seq<Event>, b: seq<Event>, cell: Cell)
    ensures LastWrite(a + b, cell) == if LastWrite(b, cell).Some? then LastWrite(b, cell) else LastWrite(a, cell)
  {
    if a == [] {
      assert a + b == b;
    } else {
      assert (a + b)[1..] == a[1..] + b;
      LastWriteAppend(a[1..], b, cell);
    }
  }

  lemma LastWord(a: seq<Event>, e: Event, b: seq<Event>, cell: Cell)
    requires Writes(e, cell) && forall x :: x in b ==> !Writes(x, cell)
    ensures LastWrite(a + ([e] + b), cell) == Some(WriteOf(e).value.1)
  {
    LastWriteFrom(b, cell);
    assert ([e] + b)[1..] == b;
    LastWriteAppend(a, [e] + b, cell);
  }

  /** Past the initial version, writers that expect it do not succeed any more. */
  lemma {:induction false} NoWriterWins(live: Event -> bool, w: int, v: int, events: seq<Event>, cell: Cell)
    requires w > v && forall e :: e in events && live(e) && Writes(e, cell) ==> e.expected == Some(v)
    ensures forall e :: e in Won(live, w, events) ==> !Writes(e, cell)
    decreases |events|
  {
    if events != [] {
      assert events[0] in events && forall x :: x in events[1..] ==> x in events;
      NoWriterWins(live, if Wins(live, w, events[0]) then w + 1 else w, v, events[1..], cell);
    }
  }

  /** Writers that fail at once at the initial version. */
  function EarlyWriter(live: Event -> bool, v: int, cell: Cell): Event -> bool {
    (e: Event) => live(e) && e.expected.Some? && e.expected.value != v && Writes(e, cell)
  }

  function OtherThanEarly(live: Event -> bool, v: int, cell: Cell): Event -> bool {
    (e: Event) => !(live(e) && e.expected.Some? && e.expected.value != v && Writes(e, cell))
  }

  /** They are put in front, where they fail; of the others, live writers are free or expect the initial version. */
  lemma WritersFirst(live: Event -> bool, v: int, events: seq<Event>, cell: Cell) returns (early: seq<Event>, late: seq<Event>)
    ensures Order(early + late, events) && Won(live, v, early) == []
    ensures forall e :: e in late ==> e in events
    ensures forall e :: e in late && live(e) && Writes(e, cell) ==> e.expected.None? || e.expected == Some(v)
  {
    early, late := Filter(EarlyWriter(live, v, cell), events), Filter(OtherThanEarly(live, v, cell), events);
    SplitBy(EarlyWriter(live, v, cell), OtherThanEarly(live, v, cell), events);
    FilterIn(EarlyWriter(live, v, cell), events);
    FilterIn(OtherThanEarly(live, v, cell), events);
    NoFreeIn(live, early);
    NoneWon(live, v, early);
  }

  lemma NoFreeWriter(live: Event -> bool, events: seq<Event>, cell: Cell, e: Event)
    requires FreeWriters(live, events, cell) == 0 && e in events && live(e) && Writes(e, cell)
    ensures e.expected.Some?
  {
    if e.expected.None? { CountSome(Must(live, WritesTo(cell)), events, e); }
  }

  lemma FreeHasLastWord(live: Event -> bool, v: int, events: seq<Event>, cell: Cell, e: Event) returns (q: seq<Event>)
    requires e in events && Free(live)(e) && Writes(e, cell)
    ensures Order(q, events) && LastWrite(Won(live, v, q), cell) == Some(WriteOf(e).value.1)
  {
    q := ComesLast(events, e);
    var a := q[..|q| - 1];
    assert q == a + [e];
    WonAppend(live, v, a, [e]);
    OneWon(live, v + |Won(live, v, a)|, e);
    LastWord(Won(live, v, a), e, [], cell);
    assert [e] + [] == [e];
  }

  /** Events that fail, a ladder, and one more success. */
  lemma WonBehind(live: Event -> bool, v: int, early: seq<Event>, s: seq<Event>, e: Event, late: seq<Event>)
    requires Won(live, v, early) == [] && Won(live, v, s) == s && Wins(live, v + |s|, e)
    ensures Won(live, v, early + (s + ([e] + late))) == s + ([e] + Won(live, v + |s| + 1, late))
  {
    WonAppend(live, v, early, s + ([e] + late));
    WonAppend(live, v, s, [e] + late);
    assert ([e] + late)[1..] == late;
  }

  /** Where no free writers are left, the late ones expect the initial version. */
  lemma LateWriters(live: Event -> bool, v: int, rest: seq<Event>, late: seq<Event>, cell: Cell)
    requires FreeWriters(live, rest, cell) == 0 && forall e :: e in late ==> e in rest
    requires forall e :: e in late && live(e) && Writes(e, cell) ==> e.expected.None? || e.expected == Some(v)
    ensures forall e :: e in late && live(e) && Writes(e, cell) ==> e.expected == Some(v)
  {
    forall e | e in late && live(e) && Writes(e, cell) ensures e.expected == Some(v) {
      NoFreeWriter(live, rest, cell, e);
    }
  }

  /** All free writers climb in front of the event. */
  lemma ClimbInFront(live: Event -> bool, v: int, events: seq<Event>, cell: Cell, e: Event, w: int)
    returns (s: seq<Event>, rest: seq<Event>)
    requires MayBeLast(live, v, events, cell, e) && e.expected == Some(w)
    ensures v + |s| == w && Won(live, v, s) == s && Order(s + rest, events) && e in rest && FreeWriters(live, rest, cell) == 0
  {
    s, rest := Build(live, v, events, WritesTo(cell), w - v, w - v);
    NotYetUsed(live, v, events, s, rest, e);
  }

  lemma WritersBehind(live: Event -> bool, v: int, rest: seq<Event>, cell: Cell, e: Event) returns (early: seq<Event>, late: seq<Event>, tail: seq<Event>)
    requires FreeWriters(live, rest, cell) == 0 && e in rest
    ensures Order(early + late, tail) && Order([e] + tail, rest) && Won(live, v, early) == []
    ensures forall x :: x in late && live(x) && Writes(x, cell) ==> x.expected == Some(v)
  {
    tail := Pull(rest, e);
    SameMembers([e] + tail, rest);
    early, late := WritersFirst(live, v, tail, cell);
    assert forall x :: x in late ==> x in [e] + tail;
    LateWriters(live, v, rest, late, cell);
  }

  lemma ExpectingHasLastWord(live: Event -> bool, v: int, events: seq<Event>, cell: Cell, e: Event, w: int) returns (q: seq<Event>)
    requires MayBeLast(live, v, events, cell, e) && e.expected == Some(w)
    ensures Order(q, events) && LastWrite(Won(live, v, q), cell) == Some(WriteOf(e).value.1)
  {
    var s, rest := ClimbInFront(live, v, events, cell, e, w);
    var early, late, tail := WritersBehind(live, v, rest, cell, e);
    q := early + (s + ([e] + late));
    Rearranged(s, e, early, late, tail, rest, events);
    NoWriterWins(live, w + 1, v, late, cell);
    WonBehind(live, v, early, s, e, late);
    LastWord(s, e, Won(live, w + 1, late), cell);
  }

  lemma Rearranged(s: seq<Event>, e: Event, early: seq<Event>, late: seq<Event>, tail: seq<Event>, rest: seq<Event>, events: seq<Event>)
    requires Order(early + late, tail) && Order([e] + tail, rest) && Order(s + rest, events)
    ensures Order(early + (s + ([e] + late)), events)
  {
    assert multiset(early + (s + ([e] + late))) == multiset(early) + multiset(s) + multiset{e} + multiset(late);
    assert multiset(early + late) == multiset(early) + multiset(late);
    assert multiset([e] + tail) == multiset{e} + multiset(tail);
    assert multiset(s + rest) == multiset(s) + multiset(rest);
  }

  /** Someone who can succeed at the initial version without writing the cell. */
  lemma Starter(live: Event -> bool, v: int, events: seq<Event>, cell: Cell) returns (x: Event)
    requires FreeWriters(live, events, cell) == 0
    requires Count(Free(live), events) > 0 || exists e :: e in events && Expects(live, e, v) && !Writes(e, cell)
    ensures x in events && Wins(live, v, x) && !Writes(x, cell)
  {
    if Count(Free(live), events) > 0 {
      x := SomeCounted(Free(live), events);
      if Writes(x, cell) { NoFreeWriter(live, events, cell, x); }
    } else {
      x :| x in events && Expects(live, x, v) && !Writes(x, cell);
    }
  }

  lemma UntouchedFromStart(live: Event -> bool, v: int, events: seq<Event>, cell: Cell) returns (q: seq<Event>)
    requires FreeWriters(live, events, cell) == 0 && forall e :: e in events && Expects(live, e, v) ==> !Writes(e, cell)
    ensures Order(q, events) && LastWrite(Won(live, v, q), cell) == None
  {
    var early, late := WritersFirst(live, v, events, cell);
    q := early + late;
    WonAppend(live, v, early, late);
    assert Won(live, v, q) == Won(live, v, late);
    LateWriters(live, v, events, late, cell);
    WonBounds(live, v, late);
    forall e | e in Won(live, v, late) ensures !Writes(e, cell) {
      assert e in late && live(e) && e in events;
      assert e.expected == Some(v) ==> Expects(live, e, v);
    }
    LastWriteFrom(Won(live, v, late), cell);
  }

  lemma UntouchedAfter(live: Event -> bool, v: int, events: seq<Event>, cell: Cell, x: Event) returns (q: seq<Event>)
    requires FreeWriters(live, events, cell) == 0 && x in events && Wins(live, v, x) && !Writes(x, cell)
    ensures Order(q, events) && LastWrite(Won(live, v, q), cell) == None
  {
    var early, late, tail := WritersBehind(live, v, events, cell, x);
    q := early + ([] + ([x] + late));
    assert [] + events == events;
    Rearranged([], x, early, late, tail, events, events);
    NoWriterWins(live, v + 1, v, late, cell);
    WonBehind(live, v, early, [], x, late);
    LastWriteFrom([] + ([x] + Won(live, v + 1, late)), cell);
  }

  lemma StaysAlone(live: Event -> bool, v: int, events: seq<Event>, cell: Cell) returns (q: seq<Event>)
    requires MayStay(live, v, events, cell)
    ensures Order(q, events) && LastWrite(Won(live, v, q), cell) == None
  {
    if forall e :: e in events && Expects(live, e, v) ==> !Writes(e, cell) {
      q := UntouchedFromStart(live, v, events, cell);
    } else {
      var x := Starter(live, v, events, cell);
      q := UntouchedAfter(live, v, events, cell, x);
    }
  }

  // ---------- And nothing else ----------

  /** The last successful writer of a schedule, if any. */
  lemma {:induction false} LastWriterAt(live: Event -> bool, v: int, q: seq<Event>, cell: Cell) returns (a: seq<Event>, e: Event, b: seq<Event>)
    requires LastWrite(Won(live, v, q), cell).Some?
    ensures q == a + [e] + b && Wins(live, v + |Won(live, v, a)|, e) && Writes(e, cell)
    ensures LastWrite(Won(live, v, q), cell) == Some(WriteOf(e).value.1)
    ensures forall x :: x in Won(live, v + |Won(live, v, a)| + 1, b) ==> !Writes(x, cell)
    decreases |q|
  {
    var won := Wins(live, v, q[0]);
    var w := if won then v + 1 else v;
    var rest := Won(live, w, q[1..]);
    assert won ==> Won(live, v, q)[1..] == rest;
    if LastWrite(rest, cell).Some? {
      a, e, b := LastWriterAt(live, w, q[1..], cell);
      a := [q[0]] + a;
      assert q == [q[0]] + q[1..];
      assert a[1..] == q[1..][..|a| - 1];
    } else {
      a, e, b := [], q[0], q[1..];
      LastWriteFrom(rest, cell);
      assert q == [] + [q[0]] + q[1..];
    }
  }

  lemma {:induction false} SomeWins(live: Event -> bool, v: int, q: seq<Event>, e: Event) returns (x: Event)
    requires Count(Free(live), q) == 0 && e in q && Expects(live, e, v)
    ensures x in Won(live, v, q) && Expects(live, x, v)
    decreases |q|
  {
    if Wins(live, v, q[0]) {
      x := q[0];
    } else {
      x := SomeWins(live, v, q[1..], e);
    }
  }

  /** The free writers among the events in front are at most as many as the successes there. */
  lemma WritersInFront(live: Event -> bool, v: int, a: seq<Event>, cell: Cell)
    ensures FreeWriters(live, a, cell) <= |Won(live, v, a)|
  {
    MustAreFree(live, WritesTo(cell), a);
    CountIsFilter(Free(live), a);
    WonBounds(live, v, a);
    FilterIn(Free(live), Won(live, v, a));
  }

  lemma {:induction false} NoMatch<T>(p: T -> bool, s: seq<T>)
    requires forall x :: x in s ==> !p(x)
    ensures Count(p, s) == 0
  {
    if s != [] { NoMatch(p, s[1..]); }
  }

  /** Where no writer succeeds there is no free writer. */
  lemma NoFreeWriters(live: Event -> bool, v: int, b: seq<Event>, cell: Cell)
    requires forall x :: x in Won(live, v, b) ==> !Writes(x, cell)
    ensures FreeWriters(live, b, cell) == 0
  {
    WonBounds(live, v, b);
    FilterIn(Free(live), b);
    FilterIn(Free(live), Won(live, v, b));
    NoMatch(Must(live, WritesTo(cell)), b);
  }

  lemma LastIsPossible(live: Event -> bool, v: int, events: seq<Event>, q: seq<Event>, cell: Cell) returns (e: Event)
    requires Order(q, events) && LastWrite(Won(live, v, q), cell).Some?
    ensures MayBeLast(live, v, events, cell, e) && LastWrite(Won(live, v, q), cell) == Some(WriteOf(e).value.1)
  {
    var a, b;
    a, e, b := LastWriterAt(live, v, q, cell);
    SameMembers(q, events);
    assert e in q;
    if e.expected.Some? {
      var k := |Won(live, v, a)|;
      WinsReachable(live, v, events, a, e, b, e.expected.value);
      WritersInFront(live, v, a, cell);
      NoFreeWriters(live, v + k + 1, b, cell);
      WritersSplit(live, a, e, b, events, cell);
    }
  }

  lemma WritersSplit(live: Event -> bool, a: seq<Event>, e: Event, b: seq<Event>, events: seq<Event>, cell: Cell)
    requires Order(a + [e] + b, events) && e.expected.Some?
    ensures FreeWriters(live, events, cell) == FreeWriters(live, a, cell) + FreeWriters(live, b, cell)
  {
    var p := Must(live, WritesTo(cell));
    CountPermuted(p, a + [e] + b, events);
    CountAppend(p, a + [e], b);
    CountAppend(p, a, [e]);
    assert Count(p, [e][1..]) == 0 && !p(e);
  }

  lemma StayIsPossible(live: Event -> bool, v: int, events: seq<Event>, q: seq<Event>, cell: Cell)
    requires Order(q, events) && LastWrite(Won(live, v, q), cell) == None
    ensures MayStay(live, v, events, cell)
  {
    LastWriteFrom(Won(live, v, q), cell);
    NoFreeWriters(live, v, q, cell);
    CountPermuted(Must(live, WritesTo(cell)), q, events);
    CountPermuted(Free(live), q, events);
    SameMembers(q, events);
    if Count(Free(live), events) == 0 && exists e :: e in events && Expects(live, e, v) && Writes(e, cell) {
      var e :| e in events && Expects(live, e, v) && Writes(e, cell);
      var x := SomeWins(live, v, q, e);
      WonBounds(live, v, q);
    }
  }

  // ---------- The engine ----------

  lemma {:induction false} ReadApplied(r: Resource, xs: seq<Event>, cell: Cell)
    requires forall e :: e in xs ==> Effective(e)
    ensures Read(ApplyAll(r, xs), cell) == if LastWrite(xs, cell).Some? then LastWrite(xs, cell) else Read(r, cell)
    decreases |xs|
  {
    if xs != [] {
      assert xs[0] in xs;
      ReadApplied(Apply(r, xs[0]), xs[1..], cell);
    }
  }

  /** What the engine makes of one order of a batch. */
  lemma EngineOrder(c: Core, events: seq<Event>, q: seq<Event>)
    requires DistinctKeys(events) && Order(q, events)
    ensures Succeeded(c, q) == Won(LiveAt(c), c.resource.version, q)
    ensures Run(c, q).resource == ApplyAll(c.resource, Won(LiveAt(c), c.resource.version, q))
  {
    KeysPermuted(events, q);
    SucceededIsWon(c, q, LiveAt(c));
    RunApplies(c, q);
  }

  lemma EngineCell(c: Core, events: seq<Event>, q: seq<Event>, cell: Cell)
    requires DistinctKeys(events) && Order(q, events)
    ensures var last := LastWrite(Won(LiveAt(c), c.resource.version, q), cell);
      Read(Run(c, q).resource, cell) == if last.Some? then last else Read(c.resource, cell)
  {
    EngineOrder(c, events, q);
    WonBounds(LiveAt(c), c.resource.version, q);
    ReadApplied(c.resource, Won(LiveAt(c), c.resource.version, q), cell);
  }

  ghost function Scheduled(events: seq<Event>, draws: seq<Draw>): seq<Event>
    requires Enough(draws, |events|)
  {
    Shuffled(events, |events|, draws)
  }

  lemma ScheduledIsOrder(events: seq<Event>, draws: seq<Draw>)
    requires Enough(draws, |events|)
    ensures Order(Scheduled(events, draws), events)
  {
    ShufflePermutes(events, |events|, draws);
  }

  lemma OrderIsScheduled(events: seq<Event>, q: seq<Event>) returns (draws: seq<Draw>)
    requires Order(q, events) && |events| <= RANGE
    ensures Enough(draws, |events|) && Scheduled(events, draws) == q
  {
    assert |q| == |multiset(q)| == |multiset(events)| == |events|;
    draws := ShuffleReaches(events, q);
  }

  /** Some draws of the generator let the event succeed. */
  ghost predicate CanSucceed(c: Core, events: seq<Event>, e: Event) {
    exists draws: seq<Draw> :: Enough(draws, |events|) && e in Succeeded(c, Scheduled(events, draws))
  }

  lemma CanSucceedIsCanWin(c: Core, events: seq<Event>, e: Event)
    requires DistinctKeys(events) && |events| <= RANGE
    ensures CanSucceed(c, events, e) <==> CanWin(LiveAt(c), c.resource.version, events, e)
  {
    if CanSucceed(c, events, e) {
      var draws: seq<Draw> :| Enough(draws, |events|) && e in Succeeded(c, Scheduled(events, draws));
      ScheduledIsOrder(events, draws);
      EngineOrder(c, events, Scheduled(events, draws));
    }
    if CanWin(LiveAt(c), c.resource.version, events, e) {
      var q :| Order(q, events) && e in Won(LiveAt(c), c.resource.version, q);
      EngineOrder(c, events, q);
      var draws := OrderIsScheduled(events, q);
      assert e in Succeeded(c, Scheduled(events, draws));
    }
  }

  lemma FreeCanWin(live: Event -> bool, v: int, events: seq<Event>, e: Event)
    requires e in events && Free(live)(e)
    ensures CanWin(live, v, events, e)
  {
    assert Order(events, events);
    WonBounds(live, v, events);
    FilterIn(Free(live), events);
    FilterIn(Free(live), Won(live, v, events));
  }

  /**
   * An event of the batch can succeed if and only if it is live and expects no version, or one with
   * at most as many unexpected versions in front of it as there are live events that expect none.
   */
  lemma CanSucceedExactly(c: Core, events: seq<Event>, e: Event)
    requires DistinctKeys(events) && |events| <= RANGE && e in events
    ensures CanSucceed(c, events, e) <==>
      Live(c, e) && (e.expected.Some? ==> Reachable(LiveAt(c), c.resource.version, events, e.expected.value))
  {
    var live, v := LiveAt(c), c.resource.version;
    CanSucceedIsCanWin(c, events, e);
    if !Live(c, e) {
      forall q | Order(q, events) ensures e !in Won(live, v, q) {
        WonBounds(live, v, q);
      }
    } else if e.expected.Some? {
      CanWinExactly(live, v, events, e, e.expected.value);
    } else {
      FreeCanWin(live, v, events, e);
    }
  }

  /** The same events succeed whatever the generator draws. */
  ghost predicate SuccessesAgree(c: Core, events: seq<Event>) {
    forall d1: seq<Draw>, d2: seq<Draw> | Enough(d1, |events|) && Enough(d2, |events|) ::
      multiset(Succeeded(c, Scheduled(events, d1))) == multiset(Succeeded(c, Scheduled(events, d2)))
  }

  /**
   * All schedules agree on the successes if and only if no live event can meet the version it expects,
   * or nothing live is free, equal events expect the initial version, and none the next.
   */
  lemma SuccessesAgreeExactly(c: Core, events: seq<Event>)
    requires DistinctKeys(events) && |events| <= RANGE
    ensures var live, v := LiveAt(c), c.resource.version;
      SuccessesAgree(c, events) <==> Quiet(live, v, events) || (Lone(live, v, events) && !Rivals(live, v, events))
  {
    var live, v := LiveAt(c), c.resource.version;
    WinnersExactly(live, v, events);
    if WinnersAgree(live, v, events) {
      forall d1: seq<Draw>, d2: seq<Draw> | Enough(d1, |events|) && Enough(d2, |events|)
        ensures multiset(Succeeded(c, Scheduled(events, d1))) == multiset(Succeeded(c, Scheduled(events, d2)))
      {
        ScheduledIsOrder(events, d1);
        ScheduledIsOrder(events, d2);
        EngineOrder(c, events, Scheduled(events, d1));
        EngineOrder(c, events, Scheduled(events, d2));
      }
    }
    if SuccessesAgree(c, events) {
      forall a, b | Order(a, events) && Order(b, events) ensures multiset(Won(live, v, a)) == multiset(Won(live, v, b)) {
        EngineOrder(c, events, a);
        EngineOrder(c, events, b);
        var d1 := OrderIsScheduled(events, a);
        var d2 := OrderIsScheduled(events, b);
        assert Enough(d1, |events|) && Enough(d2, |events|);
      }
    }
  }

  /** The batch leaves the same resource whatever the generator draws. */
  ghost predicate FinalStateAgrees(c: Core, events: seq<Event>) {
    forall d1: seq<Draw>, d2: seq<Draw> | Enough(d1, |events|) && Enough(d2, |events|) ::
      Run(c, Scheduled(events, d1)).resource == Run(c, Scheduled(events, d2)).resource
  }

  /**
   * All schedules leave the same resource if and only if no live event can meet the version it expects
   * and no two free ones clash, or exactly one event will succeed and all candidates would do the same.
   */
  lemma FinalStateExactly(c: Core, events: seq<Event>)
    requires DistinctKeys(events) && |events| <= RANGE
    ensures var live, r := LiveAt(c), c.resource;
      FinalStateAgrees(c, events) <==>
        || (Quiet(live, r.version, events) && !FreeClash(live, events))
        || (Lone(live, r.version, events) && !RivalResults(live, r, events))
  {
    var live, r := LiveAt(c), c.resource;
    ResultsExactly(c, live, r, events);
    if ResultsAgree(live, r, events) {
      forall d1: seq<Draw>, d2: seq<Draw> | Enough(d1, |events|) && Enough(d2, |events|)
        ensures Run(c, Scheduled(events, d1)).resource == Run(c, Scheduled(events, d2)).resource
      {
        ScheduledIsOrder(events, d1);
        ScheduledIsOrder(events, d2);
        EngineOrder(c, events, Scheduled(events, d1));
        EngineOrder(c, events, Scheduled(events, d2));
      }
    }
    if FinalStateAgrees(c, events) {
      forall a, b | Order(a, events) && Order(b, events)
        ensures ApplyAll(r, Won(live, r.version, a)) == ApplyAll(r, Won(live, r.version, b))
      {
        EngineOrder(c, events, a);
        EngineOrder(c, events, b);
        var d1 := OrderIsScheduled(events, a);
        var d2 := OrderIsScheduled(events, b);
        assert Enough(d1, |events|) && Enough(d2, |events|);
      }
    }
  }

  /** What the theorem below says a cell can hold in the end. */
  ghost predicate Possible(c: Core, events: seq<Event>, cell: Cell, x: Option<Content>) {
    var live, v := LiveAt(c), c.resource.version;
    || (exists e :: MayBeLast(live, v, events, cell, e) && x == Some(WriteOf(e).value.1))
    || (MayStay(live, v, events, cell) && x == Read(c.resource, cell))
  }

  ghost predicate EndsUp(c: Core, events: seq<Event>, cell: Cell, x: Option<Content>) {
    exists draws: seq<Draw> :: Enough(draws, |events|) && Read(Run(c, Scheduled(events, draws)).resource, cell) == x
  }

  lemma PossibleEndsUp(c: Core, events: seq<Event>, cell: Cell, x: Option<Content>)
    requires DistinctKeys(events) && |events| <= RANGE && Possible(c, events, cell, x)
    ensures EndsUp(c, events, cell, x)
  {
    var live, v := LiveAt(c), c.resource.version;
    var q;
    if e :| MayBeLast(live, v, events, cell, e) && x == Some(WriteOf(e).value.1) {
      if e.expected.Some? {
        q := ExpectingHasLastWord(live, v, events, cell, e, e.expected.value);
      } else {
        q := FreeHasLastWord(live, v, events, cell, e);
      }
    } else {
      q := StaysAlone(live, v, events, cell);
    }
    EngineCell(c, events, q, cell);
    var draws := OrderIsScheduled(events, q);
    assert Enough(draws, |events|) && Read(Run(c, Scheduled(events, draws)).resource, cell) == x;
  }

  lemma EndIsPossible(c: Core, events: seq<Event>, cell: Cell, draws: seq<Draw>)
    requires DistinctKeys(events) && Enough(draws, |events|)
    ensures Possible(c, events, cell, Read(Run(c, Scheduled(events, draws)).resource, cell))
  {
    var live, v, q := LiveAt(c), c.resource.version, Scheduled(events, draws);
    ScheduledIsOrder(events, draws);
    EngineCell(c, events, q, cell);
    if LastWrite(Won(live, v, q), cell).Some? {
      var e := LastIsPossible(live, v, events, q, cell);
    } else {
      StayIsPossible(live, v, events, q, cell);
    }
  }

  /** A field or the status ends up with something for some draws if and only if it is possible. */
  lemma OutcomesExactly(c: Core, events: seq<Event>, cell: Cell, x: Option<Content>)
    requires DistinctKeys(events) && |events| <= RANGE
    ensures EndsUp(c, events, cell, x) <==> Possible(c, events, cell, x)
  {
    if EndsUp(c, events, cell, x) {
      var draws: seq<Draw> :| Enough(draws, |events|) && Read(Run(c, Scheduled(events, draws)).resource, cell) == x;
      EndIsPossible(c, events, cell, draws);
    }
    if Possible(c, events, cell, x) {
      PossibleEndsUp(c, events, cell, x);
    }
  }

  /** So the draws decide nothing about a cell if and only if one thing is possible. */
  lemma CellExactly(c: Core, events: seq<Event>, cell: Cell)
    requires DistinctKeys(events) && |events| <= RANGE
    ensures CellIndependent(c, events, cell) <==>
      forall x, y :: Possible(c, events, cell, x) && Possible(c, events, cell, y) ==> x == y
  {
    if CellIndependent(c, events, cell) {
      forall x, y | Possible(c, events, cell, x) && Possible(c, events, cell, y) ensures x == y {
        PossibleEndsUp(c, events, cell, x);
        PossibleEndsUp(c, events, cell, y);
      }
    } else {
      var d1: seq<Draw>, d2: seq<Draw> :| Enough(d1, |events|) && Enough(d2, |events|) &&
        Read(Run(c, Shuffled(events, |events|, d1)).resource, cell) != Read(Run(c, Shuffled(events, |events|, d2)).resource, cell);
      EndIsPossible(c, events, cell, d1);
      EndIsPossible(c, events, cell, d2);
    }
  }

  /** Two events that race for the initial version: no clash, and yet the draws decide which field is written. */
  lemma RaceForAVersion(c: Core, e: Event, f: Event)
    requires Live(c, e) && Live(c, f) && e.key == f.key == "" && e.expected == f.expected == Some(c.resource.version)
    requires e.action == f.action == UpdateField && e.field != "" && f.field != "" && e.field != f.field
    requires Read(c.resource, Named(e.field)) != Some(Text(e.value))
    ensures !CellIndependent(c, [e, f], Named(e.field)) && forall cell :: !ClashAt([e, f], cell)
  {
    var events, cell, live, v := [e, f], Named(e.field), LiveAt(c), c.resource.version;
    forall key | key != "" ensures Count(HasKey(key), events) <= 1 {
      NoMatch(HasKey(key), events);
    }
    NoMatch(Must(live, WritesTo(cell)), events);
    assert e in events && f in events;
    assert Gaps(live, v, events, 0) == 0;
    assert MayBeLast(live, v, events, cell, e);
    assert Expects(live, f, v) && !Writes(f, cell);
    assert Possible(c, events, cell, Some(Text(e.value))) && Possible(c, events, cell, Read(c.resource, cell));
    CellExactly(c, events, cell);
  }
}
