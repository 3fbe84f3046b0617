/**
 * What the schedule of a batch decides when its events may expect versions.
 *
 * Keys that are not empty are distinct within the batch; they may have been used before. An event
 * then succeeds if and only if it is live and expects no version, or the one that is current.
 */
module ReplaySchedules {
  import opened Basics
  import opened Shuffle
  import opened ReplayEngine

  /** Neither dropped nor unauthorised nor answered from memory. */
  predicate Live(c: Core, e: Event) {
    Effective(e) && !(e.key != "" && e.key in c.cache)
  }

  function LiveAt(c: Core): Event -> bool {
    (e: Event) => Live(c, e)
  }

  ghost predicate DistinctKeys(events: seq<Event>) {
    forall key :: key != "" ==> Count(HasKey(key), events) <= 1
  }

  /** The events of a schedule that succeed, in order. */
  function Succeeded(c: Core, events: seq<Event>): seq<Event>
    decreases |events|
  {
    if events == [] then []
    else (if Judge(c, events[0]) == Success then [events[0]] else []) + Succeeded(Advance(c, events[0]), events[1..])
  }

  function ApplyAll(r: Resource, events: seq<Event>): Resource
    decreases |events|
  {
    if events == [] then r else ApplyAll(Apply(r, events[0]), events[1..])
  }

  /** The final resource is what the successes make of the initial one, and the version counts them. */
  lemma {:induction false} RunApplies(c: Core, events: seq<Event>)
    ensures Run(c, events).resource == ApplyAll(c.resource, Succeeded(c, events))
    ensures Run(c, events).resource.version == c.resource.version + |Succeeded(c, events)|
    decreases |events|
  {
    if events != [] {
      RunApplies(Advance(c, events[0]), events[1..]);
      var rest := Succeeded(Advance(c, events[0]), events[1..]);
      if Judge(c, events[0]) == Success {
        assert Succeeded(c, events) == [events[0]] + rest && ([events[0]] + rest)[1..] == rest;
      } else {
        assert Succeeded(c, events) == rest;
      }
    }
  }

  // ---------- Successes by version alone ----------

  predicate Wins(live: Event -> bool, v: int, e: Event) {
    live(e) && (e.expected.None? || e.expected.value == v)
  }

  /** The events that succeed from version `v` on. */
  function Won(live: Event -> bool, v: int, events: seq<Event>): seq<Event>
    decreases |events|
  {
    if events == [] then []
    else if Wins(live, v, events[0]) then [events[0]] + Won(live, v + 1, events[1..])
    else Won(live, v, events[1..])
  }

  lemma KeyGone(c: Core, events: seq<Event>, x: Event)
    requires DistinctKeys(events) && events != [] && x in events[1..]
    ensures Live(Advance(c, events[0]), x) == Live(c, x)
  {
    var key := events[0].key;
    if key != "" && x.key == key {
      assert Count(HasKey(key), events) <= 1;
      CountSome(HasKey(key), events[1..], x);
    }
  }

  lemma KeysStayDistinct(events: seq<Event>)
    requires DistinctKeys(events) && events != []
    ensures DistinctKeys(events[1..])
  {
    forall key | key != "" ensures Count(HasKey(key), events[1..]) <= 1 {
      assert Count(HasKey(key), events) <= 1;
    }
  }

  lemma {:induction false} SucceededIsWon(c: Core, events: seq<Event>, live: Event -> bool)
    requires DistinctKeys(events) && forall e :: e in events ==> live(e) == Live(c, e)
    ensures Succeeded(c, events) == Won(live, c.resource.version, events)
    decreases |events|
  {
    if events != [] {
      KeysStayDistinct(events);
      forall x | x in events[1..] ensures live(x) == Live(Advance(c, events[0]), x) {
        KeyGone(c, events, x);
      }
      assert events[0] in events;
      SucceededIsWon(Advance(c, events[0]), events[1..], live);
    }
  }

  lemma {:induction false} WonAppend(live: Event -> bool, v: int, a: seq<Event>, b: seq<Event>)
    ensures Won(live, v, a + b) == Won(live, v, a) + Won(live, v + |Won(live, v, a)|, b)
    decreases |a|
  {
    if a == [] {
      assert a + b == b;
    } else {
      assert (a + b)[1..] == a[1..] + b;
      WonAppend(live, if Wins(live, v, a[0]) then v + 1 else v, a[1..], b);
    }
  }

  // ---------- Kinds of events ----------

  /** Succeeds at any version. */
  function Free(live: Event -> bool): Event -> bool {
    (e: Event) => live(e) && e.expected.None?
  }

  predicate Expects(live: Event -> bool, e: Event, v: int) {
    live(e) && e.expected == Some(v)
  }

  /** No event can ever meet the version it expects, however the free ones are placed. */
  ghost predicate Quiet(live: Event -> bool, v: int, events: seq<Event>) {
    forall e :: e in events && live(e) && e.expected.Some? ==>
      e.expected.value < v || e.expected.value > v + Count(Free(live), events)
  }

  /** Exactly one event will succeed: nothing is free, some events expect this version, none the next. */
  ghost predicate Lone(live: Event -> bool, v: int, events: seq<Event>) {
    && Count(Free(live), events) == 0
    && (exists e :: e in events && Expects(live, e, v))
    && (forall e :: e in events ==> !Expects(live, e, v + 1))
  }

  /** Whatever succeeds is live, and all that is free succeeds. */
  lemma {:induction false} WonBounds(live: Event -> bool, v: int, events: seq<Event>)
    ensures forall e :: e in Won(live, v, events) ==> e in events && live(e)
    ensures Filter(Free(live), Won(live, v, events)) == Filter(Free(live), events)
    decreases |events|
  {
    if events != [] {
      var w := if Wins(live, v, events[0]) then v + 1 else v;
      WonBounds(live, w, events[1..]);
      if Wins(live, v, events[0]) {
        assert Won(live, v, events)[1..] == Won(live, w, events[1..]);
      }
    }
  }

  lemma {:induction false} CountIsFilter<T>(p: T -> bool, s: seq<T>)
    ensures Count(p, s) == |Filter(p, s)|
  {
    if s != [] { CountIsFilter(p, s[1..]); }
  }

  /** Once past every expectation that can still come, only free events succeed. */
  lemma {:induction false} OnlyFree(live: Event -> bool, v: int, events: seq<Event>)
    requires forall e :: e in events && live(e) && e.expected.Some? ==>
      e.expected.value < v || e.expected.value > v + Count(Free(live), events)
    ensures Won(live, v, events) == Filter(Free(live), events)
    decreases |events|
  {
    if events != [] {
      assert events[0] in events;
      OnlyFree(live, if Wins(live, v, events[0]) then v + 1 else v, events[1..]);
    }
  }

  /** Without free events nothing succeeds where nothing expects the version. */
  lemma {:induction false} NoneWon(live: Event -> bool, v: int, events: seq<Event>)
    requires Count(Free(live), events) == 0 && forall e :: e in events ==> !Expects(live, e, v)
    ensures Won(live, v, events) == []
    decreases |events|
  {
    if events != [] {
      assert events[0] in events;
      NoneWon(live, v, events[1..]);
    }
  }

  /** In a lone batch the first event that expects the version succeeds, and nothing else. */
  lemma {:induction false} LoneWinner(live: Event -> bool, v: int, events: seq<Event>) returns (e: Event)
    requires Lone(live, v, events)
    ensures e in events && Expects(live, e, v) && Won(live, v, events) == [e]
    decreases |events|
  {
    assert events[0] in events && forall x :: x in events[1..] ==> x in events;
    if Expects(live, events[0], v) {
      e := events[0];
      NoneWon(live, v + 1, events[1..]);
    } else {
      var x :| x in events && Expects(live, x, v);
      assert x in events[1..];
      e := LoneWinner(live, v, events[1..]);
    }
  }

  // ---------- Orders of a batch ----------

  ghost predicate Order(q: seq<Event>, events: seq<Event>) {
    multiset(q) == multiset(events)
  }

  lemma OrderKeeps(live: Event -> bool, v: int, events: seq<Event>, q: seq<Event>)
    requires Order(q, events)
    ensures Count(Free(live), q) == Count(Free(live), events)
    ensures Quiet(live, v, q) == Quiet(live, v, events) && Lone(live, v, q) == Lone(live, v, events)
  {
    CountPermuted(Free(live), q, events);
    SameMembers(q, events);
  }

  lemma {:induction false} FilterPermuted<T>(p: T -> bool, xs: seq<T>, ys: seq<T>)
    requires multiset(xs) == multiset(ys)
    ensures multiset(Filter(p, xs)) == multiset(Filter(p, ys))
    decreases |xs|
  {
    if xs == [] {
      assert |multiset(ys)| == 0;
    } else {
      var j := Extract(xs, ys);
      FilterPermuted(p, xs[1..], ys[..j] + ys[j + 1..]);
      FilterAround(p, ys, j);
    }
  }

  lemma FilterAround<T>(p: T -> bool, ys: seq<T>, j: nat)
    requires j < |ys|
    ensures multiset(Filter(p, ys)) == multiset(Filter(p, ys[..j] + ys[j + 1..])) + multiset(if p(ys[j]) then [ys[j]] else [])
  {
    FilterAppend(p, ys[..j], ys[j + 1..]);
    FilterPrefix(p, ys, j);
    assert ys[j..][1..] == ys[j + 1..];
  }

  /** The rest of a batch without one of its events. */
  lemma Pull(events: seq<Event>, e: Event) returns (rest: seq<Event>)
    requires e in events
    ensures Order([e] + rest, events)
  {
    var j :| 0 <= j < |events| && events[j] == e;
    rest := events[..j] + events[j + 1..];
    Without(events, j);
    assert multiset([e] + rest) == multiset{e} + multiset(rest);
    assert e in multiset(events);
  }

  lemma {:induction false} SplitBy<T>(p: T -> bool, q: T -> bool, s: seq<T>)
    requires forall x :: x in s ==> q(x) == !p(x)
    ensures multiset(Filter(p, s) + Filter(q, s)) == multiset(s)
  {
    if s != [] {
      SplitBy(p, q, s[1..]);
      assert s == [s[0]] + s[1..];
    }
  }

  lemma {:induction false} SomeCounted<T>(p: T -> bool, s: seq<T>) returns (x: T)
    requires Count(p, s) > 0
    ensures x in s && p(x)
  {
    if p(s[0]) { x := s[0]; } else { x := SomeCounted(p, s[1..]); }
  }

  lemma {:induction false} FilterLoses<T>(p: T -> bool, s: seq<T>, x: T)
    requires x in s && !p(x)
    ensures |Filter(p, s)| < |s|
  {
    FilterIn(p, s[1..]);
    if s[0] != x { FilterLoses(p, s[1..], x); }
  }

  // ---------- The fewest and more than the fewest successes ----------

  /** Fails at once at the initial version. */
  function Early(live: Event -> bool, v: int): Event -> bool {
    (e: Event) => live(e) && e.expected.Some? && e.expected.value != v
  }

  function NotEarly(live: Event -> bool, v: int): Event -> bool {
    (e: Event) => !(live(e) && e.expected.Some? && e.expected.value != v)
  }

  lemma EarlyFirst(live: Event -> bool, v: int, events: seq<Event>) returns (early: seq<Event>, late: seq<Event>)
    ensures Order(early + late, events) && Won(live, v, early) == []
    ensures forall e :: e in late ==> e in events && NotEarly(live, v)(e)
    ensures Count(Free(live), late) == Count(Free(live), events)
  {
    early, late := Filter(Early(live, v), events), Filter(NotEarly(live, v), events);
    SplitBy(Early(live, v), NotEarly(live, v), events);
    FilterIn(Early(live, v), events);
    FilterIn(NotEarly(live, v), events);
    NoFreeIn(live, early);
    NoneWon(live, v, early);
    CountAppend(Free(live), early, late);
    CountPermuted(Free(live), early + late, events);
  }

  lemma {:induction false} NoFreeIn(live: Event -> bool, events: seq<Event>)
    requires forall e :: e in events ==> !Free(live)(e)
    ensures Count(Free(live), events) == 0
  {
    if events != [] { NoFreeIn(live, events[1..]); }
  }

  /** Some order lets only the free events succeed, or one event if nothing is free. */
  lemma FewestWins(live: Event -> bool, v: int, events: seq<Event>) returns (q: seq<Event>)
    ensures Order(q, events)
    ensures var free := Count(Free(live), events); |Won(live, v, q)| <= if free > 0 then free else 1
  {
    var early, late := EarlyFirst(live, v, events);
    if Count(Free(live), events) > 0 {
      var f := SomeCounted(Free(live), late);
      var rest := Pull(late, f);
      SameMembers([f] + rest, late);
      q := early + ([f] + rest);
      WonAppend(live, v, early, [f] + rest);
      assert ([f] + rest)[1..] == rest;
      PastFirst(live, v + 1, v, rest);
      CountPermuted(Free(live), [f] + rest, late);
      CountIsFilter(Free(live), rest);
    } else {
      q := early + late;
      WonAppend(live, v, early, late);
      AtMostOne(live, v, late);
    }
  }

  /** Past the initial version the late events succeed only if they are free. */
  lemma PastFirst(live: Event -> bool, w: int, v: int, events: seq<Event>)
    requires w > v && forall e :: e in events ==> NotEarly(live, v)(e)
    ensures Won(live, w, events) == Filter(Free(live), events)
  {
    OnlyFree(live, w, events);
  }

  lemma {:induction false} AtMostOne(live: Event -> bool, v: int, events: seq<Event>)
    requires Count(Free(live), events) == 0 && forall e :: e in events ==> NotEarly(live, v)(e)
    ensures |Won(live, v, events)| <= 1
    decreases |events|
  {
    if events != [] {
      assert forall x :: x in events[1..] ==> x in events && !Expects(live, x, v + 1);
      if Wins(live, v, events[0]) {
        NoneWon(live, v + 1, events[1..]);
      } else {
        AtMostOne(live, v, events[1..]);
      }
    }
  }

  /** The first `k` places of an order can be given to free events. */
  lemma {:induction false} TakeFree(live: Event -> bool, events: seq<Event>, k: nat) returns (s: seq<Event>, rest: seq<Event>)
    requires k <= Count(Free(live), events)
    ensures |s| == k && Order(s + rest, events) && forall e :: e in s ==> Free(live)(e)
  {
    if k == 0 {
      s, rest := [], events;
      assert s + rest == events;
    } else {
      var s', rest' := TakeFree(live, events, k - 1);
      CountAppend(Free(live), s', rest');
      CountPermuted(Free(live), s' + rest', events);
      AllCounted(Free(live), s');
      var f := SomeCounted(Free(live), rest');
      rest := Pull(rest', f);
      s := s' + [f];
      assert s + rest == s' + ([f] + rest);
    }
  }

  lemma {:induction false} AllCounted<T>(p: T -> bool, s: seq<T>)
    requires forall x :: x in s ==> p(x)
    ensures Count(p, s) == |s|
  {
    if s != [] { AllCounted(p, s[1..]); }
  }

  lemma {:induction false} AllWin(live: Event -> bool, v: int, s: seq<Event>)
    requires forall e :: e in s ==> Free(live)(e)
    ensures Won(live, v, s) == s
    decreases |s|
  {
    if s != [] {
      assert Free(live)(s[0]) && s == [s[0]] + s[1..];
      AllWin(live, v + 1, s[1..]);
    }
  }

  /** An event that expects to be preceded by at most as many successes as there are free events can succeed. */
  lemma WinsBehindFree(live: Event -> bool, v: int, events: seq<Event>, e: Event) returns (q: seq<Event>)
    requires e in events && live(e) && e.expected.Some? && v <= e.expected.value <= v + Count(Free(live), events)
    ensures Order(q, events) && e in Won(live, v, q) && |Won(live, v, q)| > Count(Free(live), events)
  {
    var k := e.expected.value - v;
    var s, rest := TakeFree(live, events, k);
    SameMembers(s + rest, events);
    assert e in rest;
    var tail := Pull(rest, e);
    q := s + ([e] + tail);
    assert multiset(q) == multiset(s) + multiset([e] + tail) == multiset(s + rest);
    AllWin(live, v, s);
    WonAppend(live, v, s, [e] + tail);
    assert ([e] + tail)[1..] == tail;
    var won := Won(live, v, q);
    assert e in won;
    WonBounds(live, v, q);
    FilterLoses(Free(live), won, e);
    CountIsFilter(Free(live), q);
    CountPermuted(Free(live), q, events);
  }

  /** Two events that expect this version and the next can succeed in a row. */
  lemma TwoWin(live: Event -> bool, v: int, events: seq<Event>, e: Event, f: Event) returns (q: seq<Event>)
    requires e in events && f in events && Expects(live, e, v) && Expects(live, f, v + 1)
    ensures Order(q, events) && |Won(live, v, q)| >= 2
  {
    var rest := Pull(events, e);
    SameMembers([e] + rest, events);
    assert f in rest;
    var tail := Pull(rest, f);
    q := [e] + ([f] + tail);
    assert multiset(q) == multiset{e} + multiset([f] + tail) == multiset([e] + rest);
    assert q[1..] == [f] + tail && ([f] + tail)[1..] == tail;
  }

  /** Unless a batch is quiet or lone, two orders end in different versions. */
  lemma VersionsDiffer(live: Event -> bool, v: int, events: seq<Event>) returns (a: seq<Event>, b: seq<Event>)
    requires !Quiet(live, v, events) && !Lone(live, v, events)
    ensures Order(a, events) && Order(b, events) && |Won(live, v, a)| != |Won(live, v, b)|
  {
    a := FewestWins(live, v, events);
    var e :| e in events && live(e) && e.expected.Some? && v <= e.expected.value <= v + Count(Free(live), events);
    if Count(Free(live), events) > 0 {
      b := WinsBehindFree(live, v, events, e);
    } else {
      assert Expects(live, e, v);
      var f :| f in events && Expects(live, f, v + 1);
      b := TwoWin(live, v, events, e, f);
    }
  }

  // ---------- When the successes agree ----------

  /** The successful events are the same in all orders. */
  ghost predicate WinnersAgree(live: Event -> bool, v: int, events: seq<Event>) {
    forall a, b :: Order(a, events) && Order(b, events) ==> multiset(Won(live, v, a)) == multiset(Won(live, v, b))
  }

  ghost predicate Rivals(live: Event -> bool, v: int, events: seq<Event>) {
    exists e, f :: e in events && f in events && Expects(live, e, v) && Expects(live, f, v) && e != f
  }

  /** An order in which a given event of a lone batch succeeds. */
  lemma GoesFirst(live: Event -> bool, v: int, events: seq<Event>, e: Event) returns (q: seq<Event>)
    requires Lone(live, v, events) && e in events && Expects(live, e, v)
    ensures Order(q, events) && Won(live, v, q) == [e]
  {
    var rest := Pull(events, e);
    q := [e] + rest;
    OrderKeeps(live, v, events, q);
    var x := LoneWinner(live, v, q);
    assert Wins(live, v, q[0]);
  }

  lemma QuietWinners(live: Event -> bool, v: int, events: seq<Event>, q: seq<Event>)
    requires Quiet(live, v, events) && Order(q, events)
    ensures Won(live, v, q) == Filter(Free(live), q) && multiset(Won(live, v, q)) == multiset(Filter(Free(live), events))
  {
    OrderKeeps(live, v, events, q);
    OnlyFree(live, v, q);
    FilterPermuted(Free(live), q, events);
  }

  lemma LoneWinners(live: Event -> bool, v: int, events: seq<Event>, q: seq<Event>) returns (e: Event)
    requires Lone(live, v, events) && Order(q, events)
    ensures e in events && Expects(live, e, v) && Won(live, v, q) == [e]
  {
    OrderKeeps(live, v, events, q);
    SameMembers(q, events);
    e := LoneWinner(live, v, q);
  }

  lemma WinnersExactly(live: Event -> bool, v: int, events: seq<Event>)
    ensures WinnersAgree(live, v, events) <==> Quiet(live, v, events) || (Lone(live, v, events) && !Rivals(live, v, events))
  {
    if Quiet(live, v, events) {
      forall a, b | Order(a, events) && Order(b, events) ensures multiset(Won(live, v, a)) == multiset(Won(live, v, b)) {
        QuietWinners(live, v, events, a);
        QuietWinners(live, v, events, b);
      }
    } else if !Lone(live, v, events) {
      var a, b := VersionsDiffer(live, v, events);
      assert |multiset(Won(live, v, a))| != |multiset(Won(live, v, b))|;
    } else if Rivals(live, v, events) {
      var e, f :| e in events && f in events && Expects(live, e, v) && Expects(live, f, v) && e != f;
      var a := GoesFirst(live, v, events, e);
      var b := GoesFirst(live, v, events, f);
      assert e in multiset([e]) && e !in multiset([f]);
    } else {
      forall a, b | Order(a, events) && Order(b, events) ensures multiset(Won(live, v, a)) == multiset(Won(live, v, b)) {
        var e := LoneWinners(live, v, events, a);
        var f := LoneWinners(live, v, events, b);
      }
    }
  }

  // ---------- When the final resource agrees ----------

  ghost predicate ResultsAgree(live: Event -> bool, r: Resource, events: seq<Event>) {
    forall a, b :: Order(a, events) && Order(b, events) ==>
      ApplyAll(r, Won(live, r.version, a)) == ApplyAll(r, Won(live, r.version, b))
  }

  /** Two free events of the batch put different things in the same cell. */
  ghost predicate FreeClash(live: Event -> bool, events: seq<Event>) {
    exists cell :: ClashAt(Filter(Free(live), events), cell)
  }

  /** Two events that expect the initial version would leave different resources. */
  ghost predicate RivalResults(live: Event -> bool, r: Resource, events: seq<Event>) {
    exists e, f :: e in events && f in events && Expects(live, e, r.version) && Expects(live, f, r.version) && Apply(r, e) != Apply(r, f)
  }

  /** Events that all succeed are a plain batch. */
  lemma {:induction false} ApplyAllIsRun(r: Resource, cache: map<string, int>, events: seq<Event>)
    requires Plain(Core(r, cache), events) && forall e :: e in events ==> Effective(e)
    ensures ApplyAll(r, events) == Run(Core(r, cache), events).resource
    decreases |events|
  {
    if events != [] {
      PlainStep(Core(r, cache), events);
      var next := Advance(Core(r, cache), events[0]);
      assert events[0] in events;
      assert next == Core(next.resource, next.cache);
      ApplyAllIsRun(next.resource, next.cache, events[1..]);
    }
  }

  lemma {:induction false} CountFilter<T>(p: T -> bool, q: T -> bool, s: seq<T>)
    ensures Count(p, Filter(q, s)) <= Count(p, s)
  {
    if s != [] {
      CountFilter(p, q, s[1..]);
      if q(s[0]) { assert ([s[0]] + Filter(q, s[1..]))[1..] == Filter(q, s[1..]); }
    }
  }

  /** The free events of a batch, as a plain batch of their own. */
  lemma FreeIsPlain(c: Core, live: Event -> bool, r: Resource, events: seq<Event>)
    requires DistinctKeys(events) && forall e :: e in events ==> live(e) == Live(c, e)
    ensures Plain(Core(r, map[]), Filter(Free(live), events))
    ensures forall e :: e in Filter(Free(live), events) ==> Effective(e)
  {
    FilterIn(Free(live), events);
    forall key | key != "" ensures Count(HasKey(key), Filter(Free(live), events)) <= 1 {
      CountFilter(HasKey(key), Free(live), events);
    }
  }

  lemma SameResource(r1: Resource, r2: Resource)
    requires r1.version == r2.version && r1.settled == r2.settled && forall cell :: Read(r1, cell) == Read(r2, cell)
    ensures r1 == r2
  {
    SameFields(r1, r2);
    assert Read(r1, StatusCell) == Read(r2, StatusCell);
  }

  /** Two orders of events that all succeed leave the same resource if no two of them clash. */
  lemma AppliedAlike(r: Resource, xs: seq<Event>, ys: seq<Event>)
    requires multiset(xs) == multiset(ys) && Plain(Core(r, map[]), xs) && forall e :: e in xs ==> Effective(e)
    requires forall cell :: !ClashAt(xs, cell)
    ensures ApplyAll(r, xs) == ApplyAll(r, ys)
  {
    var c := Core(r, map[]);
    PlainPermuted(c, xs, ys);
    SameMembers(xs, ys);
    ApplyAllIsRun(r, map[], xs);
    ApplyAllIsRun(r, map[], ys);
    PlainTotalsAgree(c, xs, ys);
    forall cell ensures Read(Run(c, xs).resource, cell) == Read(Run(c, ys).resource, cell) {
      PlainCellAgrees(c, xs, ys, cell);
    }
    SameResource(Run(c, xs).resource, Run(c, ys).resource);
  }

  /** An order in which a given free event has the last word on a cell. */
  lemma FreeGoesLast(c: Core, live: Event -> bool, r: Resource, events: seq<Event>, e: Event, cell: Cell) returns (q: seq<Event>)
    requires DistinctKeys(events) && forall e :: e in events ==> live(e) == Live(c, e)
    requires Quiet(live, r.version, events) && e in events && Free(live)(e) && Writes(e, cell)
    ensures Order(q, events) && Read(ApplyAll(r, Won(live, r.version, q)), cell) == Some(WriteOf(e).value.1)
  {
    q := ComesLast(events, e);
    var n := |q| - 1;
    QuietWinners(live, r.version, events, q);
    assert q == q[..n] + [e];
    FilterNext(Free(live), q, n);
    assert q[..n + 1] == q;
    var xs := Filter(Free(live), q);
    SameMembers(q, events);
    KeysPermuted(events, q);
    FreeIsPlain(c, live, r, q);
    ApplyAllIsRun(r, map[], xs);
    PlainCells(Core(r, map[]), xs, cell);
    LastWins(xs, cell);
  }

  lemma KeysPermuted(xs: seq<Event>, ys: seq<Event>)
    requires multiset(xs) == multiset(ys) && DistinctKeys(xs)
    ensures DistinctKeys(ys)
  {
    forall key | key != "" ensures Count(HasKey(key), ys) <= 1 {
      CountPermuted(HasKey(key), xs, ys);
    }
  }

  lemma {:induction false} ApplyAllVersion(r: Resource, events: seq<Event>)
    ensures ApplyAll(r, events).version == r.version + |events|
    decreases |events|
  {
    if events != [] { ApplyAllVersion(Apply(r, events[0]), events[1..]); }
  }

  lemma ApplyOne(r: Resource, e: Event)
    ensures ApplyAll(r, [e]) == Apply(r, e)
  {
    assert ApplyAll(Apply(r, e), [e][1..]) == Apply(r, e);
  }

  lemma QuietResults(c: Core, live: Event -> bool, r: Resource, events: seq<Event>)
    requires DistinctKeys(events) && forall e :: e in events ==> live(e) == Live(c, e)
    requires Quiet(live, r.version, events)
    ensures ResultsAgree(live, r, events) <==> !FreeClash(live, events)
  {
    if FreeClash(live, events) {
      var free := Filter(Free(live), events);
      var cell :| ClashAt(free, cell);
      var e, f :| e in free && f in free && Writes(e, cell) && Writes(f, cell) && WriteOf(e) != WriteOf(f);
      FilterIn(Free(live), events);
      var a := FreeGoesLast(c, live, r, events, e, cell);
      var b := FreeGoesLast(c, live, r, events, f, cell);
    } else {
      forall a, b | Order(a, events) && Order(b, events)
        ensures ApplyAll(r, Won(live, r.version, a)) == ApplyAll(r, Won(live, r.version, b))
      {
        QuietApplied(c, live, r, events, a);
        QuietApplied(c, live, r, events, b);
      }
    }
  }

  lemma QuietApplied(c: Core, live: Event -> bool, r: Resource, events: seq<Event>, q: seq<Event>)
    requires DistinctKeys(events) && forall e :: e in events ==> live(e) == Live(c, e)
    requires Quiet(live, r.version, events) && Order(q, events) && !FreeClash(live, events)
    ensures ApplyAll(r, Won(live, r.version, q)) == ApplyAll(r, Filter(Free(live), events))
  {
    QuietWinners(live, r.version, events, q);
    FreeIsPlain(c, live, r, events);
    AppliedAlike(r, Filter(Free(live), events), Won(live, r.version, q));
  }

  lemma LoneResults(live: Event -> bool, r: Resource, events: seq<Event>)
    requires Lone(live, r.version, events)
    ensures ResultsAgree(live, r, events) <==> !RivalResults(live, r, events)
  {
    if RivalResults(live, r, events) {
      var e, f :| e in events && f in events && Expects(live, e, r.version) && Expects(live, f, r.version) && Apply(r, e) != Apply(r, f);
      var a := GoesFirst(live, r.version, events, e);
      var b := GoesFirst(live, r.version, events, f);
      ApplyOne(r, e);
      ApplyOne(r, f);
    } else {
      forall a, b | Order(a, events) && Order(b, events)
        ensures ApplyAll(r, Won(live, r.version, a)) == ApplyAll(r, Won(live, r.version, b))
      {
        var e := LoneWinners(live, r.version, events, a);
        var f := LoneWinners(live, r.version, events, b);
        ApplyOne(r, e);
        ApplyOne(r, f);
      }
    }
  }

  lemma ResultsExactly(c: Core, live: Event -> bool, r: Resource, events: seq<Event>)
    requires DistinctKeys(events) && forall e :: e in events ==> live(e) == Live(c, e)
    ensures ResultsAgree(live, r, events) <==>
      || (Quiet(live, r.version, events) && !FreeClash(live, events))
      || (Lone(live, r.version, events) && !RivalResults(live, r, events))
  {
    if Quiet(live, r.version, events) {
      QuietResults(c, live, r, events);
      assert !Lone(live, r.version, events);
    } else if Lone(live, r.version, events) {
      LoneResults(live, r, events);
    } else {
      var a, b := VersionsDiffer(live, r.version, events);
      ApplyAllVersion(r, Won(live, r.version, a));
      ApplyAllVersion(r, Won(live, r.version, b));
    }
  }
}
