/**
 * The audit trail: a hash-chained list of events that keeps only the most recent
 * ones, with indexes by entity, by actor and by id.
 */
module AuditStore {
  import opened Basics

  type Hash = string

  /** An event without its hash; `rest` stands for the descriptive fields, `at` for the parsed timestamp. */
  datatype Content = Content(
    id: string, at: Option<int>, action: string, actorType: string, actorId: string, entityId: string, rest: string,
    previousHash: Option<Hash>)

  datatype Event = Event(content: Content, hash: Option<Hash>)

  type Digest = Content -> Hash

  // ---------- The chain ----------

  datatype Reason = PreviousHash | EventHash

  datatype Verification = Verification(valid: bool, checked: nat, failure: Option<(nat, string, Reason)>)

  function HashBefore(events: seq<Event>, i: nat): Option<Hash>
    requires i <= |events|
  {
    if i == 0 then None else events[i - 1].hash
  }

  /** What is wrong with the event at one position, if anything. */
  function Flaw(digest: Digest, events: seq<Event>, i: nat): Option<Reason>
    requires i < |events|
  {
    if events[i].content.previousHash != HashBefore(events, i) then Some(PreviousHash)
    else if events[i].hash != Some(digest(events[i].content)) then Some(EventHash)
    else None
  }

  ghost predicate Chained(digest: Digest, events: seq<Event>) {
    forall i :: 0 <= i < |events| ==> Flaw(digest, events, i) == None
  }

  method VerifyChain(digest: Digest, events: seq<Event>) returns (r: Verification)
    ensures r.valid <==> Chained(digest, events)
    ensures r.valid ==> r.checked == |events| && r.failure == None
    ensures !r.valid ==>
      var (index, id, reason) := if r.failure.Some? then r.failure.value else (0, "", EventHash);
      && r.failure.Some? && index < |events| && r.checked == index + 1 && id == events[index].content.id
      && Flaw(digest, events, index) == Some(reason)
      && forall i :: 0 <= i < index ==> Flaw(digest, events, i) == None
  {
    var previous: Option<Hash> := None;
    var index := 0;
    while index < |events|
      invariant 0 <= index <= |events| && previous == HashBefore(events, index)
      invariant forall i :: 0 <= i < index ==> Flaw(digest, events, i) == None
    {
      var event := events[index];
      if event.content.previousHash != previous {
        assert Flaw(digest, events, index) == Some(PreviousHash);
        return Verification(false, index + 1, Some((index, event.content.id, PreviousHash)));
      }
      if event.hash != Some(digest(event.content)) {
        assert Flaw(digest, events, index) == Some(EventHash);
        return Verification(false, index + 1, Some((index, event.content.id, EventHash)));
      }
      previous := event.hash;
      index := index + 1;
    }
    return Verification(true, |events|, None);
  }

  ghost predicate Injective(digest: Digest) {
    forall a, b :: digest(a) == digest(b) ==> a == b
  }

  lemma ChainedPrefix(digest: Digest, events: seq<Event>)
    requires Chained(digest, events) && events != []
    ensures Chained(digest, events[..|events| - 1])
  {
    var init := events[..|events| - 1];
    forall i | 0 <= i < |init| ensures Flaw(digest, init, i) == None {
      assert Flaw(digest, events, i) == None;
    }
  }

  /**
   * Tamper evidence: two non-empty trails that verify and end in the same hash are the same
   * trail, so nothing before the last event can be changed, dropped, added or moved unnoticed.
   */
  lemma {:induction false} TamperEvidence(digest: Digest, a: seq<Event>, b: seq<Event>)
    requires Injective(digest) && Chained(digest, a) && Chained(digest, b)
    requires a != [] && b != [] && a[|a| - 1].hash == b[|b| - 1].hash
    ensures a == b
    decreases |a|
  {
    var m, n := |a| - 1, |b| - 1;
    assert Flaw(digest, a, m) == None && Flaw(digest, b, n) == None;
    assert digest(a[m].content) == digest(b[n].content);
    assert a[m] == b[n];
    assert HashBefore(a, m) == HashBefore(b, n);
    assert m > 0 ==> Flaw(digest, a, m - 1) == None;
    assert n > 0 ==> Flaw(digest, b, n - 1) == None;
    if m > 0 {
      ChainedPrefix(digest, a);
      ChainedPrefix(digest, b);
      TamperEvidence(digest, a[..m], b[..n]);
      assert a == a[..m] + [a[m]];
    }
    assert b == b[..n] + [b[n]];
  }

  // ---------- Indexes ----------

  function EntityOf(): Event -> string {
    (e: Event) => e.content.entityId
  }

  function ActorOf(): Event -> string {
    (e: Event) => e.content.actorId
  }

  function KeyIs(key: Event -> string, k: string): Event -> bool {
    (e: Event) => key(e) == k
  }

  function Ids(events: seq<Event>): (r: seq<string>)
    ensures |r| == |events|
    ensures forall i :: 0 <= i < |r| ==> r[i] == events[i].content.id
  {
    seq(|events|, i requires 0 <= i < |events| => events[i].content.id)
  }

  type Index = map<string, seq<string>>

  function Listed(index: Index, k: string): seq<string> {
    if k in index then index[k] else []
  }

  /** The index lists, for each key, the ids of the retained events with that key, in their order. */
  ghost predicate Indexes(index: Index, key: Event -> string, events: seq<Event>) {
    forall k :: Listed(index, k) == Ids(Filter(KeyIs(key, k), events))
  }

  ghost predicate ByIdOk(byId: map<string, Event>, events: seq<Event>) {
    && (forall i :: 0 <= i < |events| ==> events[i].content.id in byId && byId[events[i].content.id] == events[i])
    && (forall id :: id in byId ==> exists i :: 0 <= i < |events| && events[i].content.id == id)
  }

  ghost predicate DistinctIds(events: seq<Event>) {
    forall i, j :: 0 <= i < j < |events| ==> events[i].content.id != events[j].content.id
  }

  /** Array.prototype.indexOf. */
  function IndexOf(list: seq<string>, id: string): (r: int)
    ensures -1 <= r < |list|
    ensures r >= 0 ==> list[r] == id
    ensures list != [] && list[0] == id ==> r == 0
  {
    if list == [] then -1
    else if list[0] == id then 0
    else
      var later := IndexOf(list[1..], id);
      if later < 0 then -1 else later + 1
  }

  /** The index entry of an evicted event is removed, and the list stays. */
  function Unlisted(index: Index, k: string, id: string): Index {
    if k !in index then index
    else
      var at := IndexOf(index[k], id);
      if at < 0 then index else index[k := index[k][..at] + index[k][at + 1..]]
  }

  function Relisted(index: Index, k: string, id: string): Index {
    index[k := Listed(index, k) + [id]]
  }

  lemma UnlistedKeeps(index: Index, key: Event -> string, events: seq<Event>)
    requires Indexes(index, key, events) && events != []
    ensures Indexes(Unlisted(index, key(events[0]), events[0].content.id), key, events[1..])
  {
    var oldest, k0 := events[0], key(events[0]);
    var index' := Unlisted(index, k0, oldest.content.id);
    forall k ensures Listed(index', k) == Ids(Filter(KeyIs(key, k), events[1..])) {
      assert Listed(index, k) == Ids(Filter(KeyIs(key, k), events));
      if k == k0 {
        var rest := Filter(KeyIs(key, k), events[1..]);
        assert Filter(KeyIs(key, k), events) == [oldest] + rest;
        assert Listed(index, k) == [oldest.content.id] + Ids(rest);
      }
    }
  }

  lemma RelistedKeeps(index: Index, key: Event -> string, events: seq<Event>, e: Event)
    requires Indexes(index, key, events)
    ensures Indexes(Relisted(index, key(e), e.content.id), key, events + [e])
  {
    var index' := Relisted(index, key(e), e.content.id);
    forall k ensures Listed(index', k) == Ids(Filter(KeyIs(key, k), events + [e])) {
      FilterAppend(KeyIs(key, k), events, [e]);
      assert Listed(index, k) == Ids(Filter(KeyIs(key, k), events));
      FilterOne(KeyIs(key, k), e);
      assert Ids(Filter(KeyIs(key, k), events) + [e]) == Ids(Filter(KeyIs(key, k), events)) + [e.content.id];
    }
  }

  lemma FilterOne(p: Event -> bool, e: Event)
    ensures Filter(p, [e]) == if p(e) then [e] else []
  {
    assert [e][1..] == [];
  }

  /** Looking up a list of ids, skipping those that are gone. */
  function Lookup(byId: map<string, Event>, ids: seq<string>): seq<Event> {
    if ids == [] then []
    else (if ids[0] in byId then [byId[ids[0]]] else []) + Lookup(byId, ids[1..])
  }

  lemma {:induction false} LookupIds(byId: map<string, Event>, s: seq<Event>)
    requires forall e :: e in s ==> e.content.id in byId && byId[e.content.id] == e
    ensures Lookup(byId, Ids(s)) == s
  {
    if s != [] {
      assert Ids(s)[1..] == Ids(s[1..]);
      LookupIds(byId, s[1..]);
      assert s == [s[0]] + s[1..];
    }
  }

  // ---------- Queries ----------

  /** An absent text filter is empty, an absent bound is None and an unparsable date is Some(None). */
  datatype Query = Query(
    action: string, entityId: string, actorId: string, actorType: string,
    since: Option<Option<int>>, until: Option<Option<int>>, limit: int, offset: int)

  datatype QueryResult = QueryResult(events: seq<Event>, total: nat, limit: nat, offset: nat)

  predicate AtLeast(at: Option<int>, bound: Option<int>) {
    at.Some? && bound.Some? && at.value >= bound.value
  }

  /** An event passes all the filters that are set. */
  predicate Matches(q: Query, e: Event) {
    && (q.action == "" || e.content.action == q.action)
    && (q.entityId == "" || e.content.entityId == q.entityId)
    && (q.actorId == "" || e.content.actorId == q.actorId)
    && (q.actorType == "" || e.content.actorType == q.actorType)
    && (q.since.None? || AtLeast(e.content.at, q.since.value))
    && (q.until.None? || AtLeast(q.until.value, e.content.at))
  }

  function Matching(q: Query): Event -> bool {
    (e: Event) => Matches(q, e)
  }

  /** Which events match, in full; an event or a bound whose date cannot be read matches no bound. */
  lemma MatchesExactly(q: Query, e: Event)
    ensures Matches(q, e) <==>
      && (q.action != "" ==> e.content.action == q.action)
      && (q.entityId != "" ==> e.content.entityId == q.entityId)
      && (q.actorId != "" ==> e.content.actorId == q.actorId)
      && (q.actorType != "" ==> e.content.actorType == q.actorType)
      && (q.since.Some? ==> exists at, t :: e.content.at == Some(at) && q.since.value == Some(t) && at >= t)
      && (q.until.Some? ==> exists at, t :: e.content.at == Some(at) && q.until.value == Some(t) && at <= t)
  {
    if q.since.Some? && e.content.at.Some? && q.since.value.Some? {
      assert e.content.at == Some(e.content.at.value) && q.since.value == Some(q.since.value.value);
    }
    if q.until.Some? && e.content.at.Some? && q.until.value.Some? {
      assert e.content.at == Some(e.content.at.value) && q.until.value == Some(q.until.value.value);
    }
  }

  /** The pages of `k` requests, each at the offset where the one before it ended. */
  function Pages<T>(s: seq<T>, from: nat, n: nat, k: nat): seq<T>
    decreases k
  {
    if k == 0 then [] else Slice(s, from, n) + Pages(s, from + n, n, k - 1)
  }

  /** Consecutive offsets list every matching event once, in order. */
  lemma {:induction false} PagesListAll<T>(s: seq<T>, from: nat, n: nat, k: nat)
    requires n >= 1 && from + k >= |s|
    ensures Pages(s, from, n, k) == if from <= |s| then s[from..] else []
    decreases k
  {
    if k > 0 { PagesListAll(s, from + n, n, k - 1); }
  }

  function ActionIs(q: Query): Event -> bool {
    (e: Event) => e.content.action == q.action
  }

  function ActorTypeIs(q: Query): Event -> bool {
    (e: Event) => e.content.actorType == q.actorType
  }

  function NotBefore(q: Query): Event -> bool {
    (e: Event) => q.since.Some? && AtLeast(e.content.at, q.since.value)
  }

  function NotAfter(q: Query): Event -> bool {
    (e: Event) => q.until.Some? && AtLeast(q.until.value, e.content.at)
  }

  function IfSet(on: bool, p: Event -> bool): Event -> bool {
    (e: Event) => on ==> p(e)
  }

  function Both(p: Event -> bool, q: Event -> bool): Event -> bool {
    (e: Event) => p(e) && q(e)
  }

  /** A filter step that is taken only if the filter is set. */
  method Narrow(on: bool, p: Event -> bool, s: seq<Event>) returns (r: seq<Event>)
    ensures r == Filter(IfSet(on, p), s)
  {
    if on {
      FilterSame(p, IfSet(on, p), s);
      r := Filter(p, s);
    } else {
      FilterAll(IfSet(on, p), s);
      r := s;
    }
  }

  /** The six filter steps in a row keep the matching events. */
  lemma NarrowedToMatching(q: Query, s: seq<Event>)
    ensures Filter(IfSet(q.until.Some?, NotAfter(q)),
      Filter(IfSet(q.since.Some?, NotBefore(q)),
        Filter(IfSet(q.actorType != "", ActorTypeIs(q)),
          Filter(IfSet(q.actorId != "", KeyIs(ActorOf(), q.actorId)),
            Filter(IfSet(q.entityId != "", KeyIs(EntityOf(), q.entityId)),
              Filter(IfSet(q.action != "", ActionIs(q)), s)))))) == Filter(Matching(q), s)
  {
    var p1, p2, p3 := IfSet(q.action != "", ActionIs(q)), IfSet(q.entityId != "", KeyIs(EntityOf(), q.entityId)), IfSet(q.actorId != "", KeyIs(ActorOf(), q.actorId));
    var p4, p5, p6 := IfSet(q.actorType != "", ActorTypeIs(q)), IfSet(q.since.Some?, NotBefore(q)), IfSet(q.until.Some?, NotAfter(q));
    forall e ensures Matching(q)(e) <==> (p1(e) && p2(e) && p3(e)) && (p4(e) && p5(e) && p6(e)) {
    }
    SixFilters(p1, p2, p3, p4, p5, p6, Matching(q), s);
  }

  lemma SixFilters(p1: Event -> bool, p2: Event -> bool, p3: Event -> bool, p4: Event -> bool, p5: Event -> bool, p6: Event -> bool,
                   all: Event -> bool, s: seq<Event>)
    requires forall e :: all(e) <==> (p1(e) && p2(e) && p3(e)) && (p4(e) && p5(e) && p6(e))
    ensures Filter(p6, Filter(p5, Filter(p4, Filter(p3, Filter(p2, Filter(p1, s)))))) == Filter(all, s)
  {
    ThreeFilters(p1, p2, p3, s);
    ThreeFilters(p4, p5, p6, Filter(Both(Both(p1, p2), p3), s));
    FilterTwice(Both(Both(p1, p2), p3), Both(Both(p4, p5), p6), all, s);
  }

  lemma ThreeFilters(p: Event -> bool, q: Event -> bool, r: Event -> bool, s: seq<Event>)
    ensures Filter(r, Filter(q, Filter(p, s))) == Filter(Both(Both(p, q), r), s)
  {
    FilterTwice(p, q, Both(p, q), s);
    FilterTwice(Both(p, q), r, Both(Both(p, q), r), s);
  }

  function PageSize(limit: int): (r: nat)
    ensures 1 <= r <= 500
    ensures 1 <= limit <= 500 ==> r == limit
    ensures limit == 0 ==> r == 50
    ensures limit < 0 ==> r == 1
    ensures limit > 500 ==> r == 500
  {
    var asked := if limit == 0 then 50 else limit;
    if asked < 1 then 1 else if asked > 500 then 500 else asked
  }

  function Slice<T>(s: seq<T>, from: nat, n: nat): (r: seq<T>)
    ensures |r| == if from >= |s| then 0 else if from + n <= |s| then n else |s| - from
    ensures forall i :: 0 <= i < |r| ==> r[i] == s[from + i]
  {
    if from >= |s| then [] else if from + n <= |s| then s[from..from + n] else s[from..]
  }

  lemma {:induction false} FilterReverse<T>(p: T -> bool, s: seq<T>)
    ensures Filter(p, Reverse(s)) == Reverse(Filter(p, s))
  {
    if s != [] {
      FilterReverse(p, s[1..]);
      assert Reverse(s) == Reverse(s[1..]) + [s[0]];
      FilterAppend(p, Reverse(s[1..]), [s[0]]);
      assert [s[0]][1..] == [];
      assert p(s[0]) ==> Reverse([s[0]] + Filter(p, s[1..])) == Reverse(Filter(p, s[1..])) + [s[0]];
    }
  }

  // ---------- The store ----------

  function Room(capacity: int): nat {
    if capacity < 1 then 1 else capacity
  }

  /** The latest `n` events of a trail. */
  function Latest(trail: seq<Event>, n: nat): seq<Event> {
    if |trail| <= n then trail else trail[|trail| - n..]
  }

  lemma LatestPush(trail: seq<Event>, e: Event, capacity: int)
    ensures var kept := Latest(trail, Room(capacity));
      Latest(trail + [e], Room(capacity)) == (if |kept| >= capacity && kept != [] then kept[1..] else kept) + [e]
  {
  }

  /** A chain with its beginning cut off does not verify: the first event left names a predecessor. */
  lemma CutChain(digest: Digest, trail: seq<Event>, n: nat)
    requires Chained(digest, trail) && n > 0
    ensures Chained(digest, Latest(trail, n)) <==> |trail| <= n
    ensures |trail| > n ==> Flaw(digest, Latest(trail, n), 0) == Some(PreviousHash)
  {
    if |trail| > n {
      var first := |trail| - n;
      assert Flaw(digest, trail, first) == None && Flaw(digest, trail, first - 1) == None;
      assert Flaw(digest, Latest(trail, n), 0) == Some(PreviousHash);
    }
  }

  /** All inner links and self-hashes hold, whether or not the beginning is still there. */
  ghost predicate Linked(digest: Digest, events: seq<Event>) {
    forall i :: 0 <= i < |events| ==>
      && events[i].hash == Some(digest(events[i].content))
      && (i > 0 ==> events[i].content.previousHash == events[i - 1].hash)
  }

  lemma LatestLinked(digest: Digest, trail: seq<Event>, n: nat)
    requires Chained(digest, trail)
    ensures Linked(digest, Latest(trail, n))
  {
    var kept := Latest(trail, n);
    var from := |trail| - |kept|;
    forall i | 0 <= i < |kept|
      ensures kept[i].hash == Some(digest(kept[i].content)) && (i > 0 ==> kept[i].content.previousHash == kept[i - 1].hash)
    {
      assert kept[i] == trail[from + i] && Flaw(digest, trail, from + i) == None;
    }
  }

  lemma ChainPush(digest: Digest, trail: seq<Event>, e: Event)
    requires Chained(digest, trail)
    requires e.content.previousHash == HashBefore(trail, |trail|) && e.hash == Some(digest(e.content))
    ensures Chained(digest, trail + [e])
  {
    forall i | 0 <= i < |trail + [e]| ensures Flaw(digest, trail + [e], i) == None {
      assert i < |trail| ==> Flaw(digest, trail, i) == None;
    }
  }

  /** What recording does to the trail and to its retained end. */
  lemma RecordKeeps(digest: Digest, trail: seq<Event>, kept: seq<Event>, e: Event, capacity: int)
    requires Chained(digest, trail) && kept == Latest(trail, Room(capacity))
    requires e.content.previousHash == HashBefore(kept, |kept|) && e.hash == Some(digest(e.content))
    ensures e.content.previousHash == HashBefore(trail, |trail|)
    ensures Chained(digest, trail + [e])
    ensures Latest(trail + [e], Room(capacity)) == (if |kept| >= capacity && kept != [] then kept[1..] else kept) + [e]
    ensures |Latest(trail + [e], Room(capacity))| <= Room(capacity)
  {
    ChainPush(digest, trail, e);
    LatestPush(trail, e, capacity);
  }

  lemma ByIdPush(byId: map<string, Event>, events: seq<Event>, e: Event)
    requires ByIdOk(byId, events) && DistinctIds(events) && e.content.id !in byId
    ensures ByIdOk(byId[e.content.id := e], events + [e]) && DistinctIds(events + [e])
  {
    var byId', events' := byId[e.content.id := e], events + [e];
    forall id | id in byId' ensures exists i :: 0 <= i < |events'| && events'[i].content.id == id {
      if id == e.content.id {
        assert events'[|events|] == e;
      } else {
        var i :| 0 <= i < |events| && events[i].content.id == id;
        assert events'[i] == events[i];
      }
    }
  }

  lemma ByIdDrop(byId: map<string, Event>, events: seq<Event>)
    requires ByIdOk(byId, events) && DistinctIds(events) && events != []
    ensures ByIdOk(byId - {events[0].content.id}, events[1..]) && DistinctIds(events[1..])
  {
    var byId', rest := byId - {events[0].content.id}, events[1..];
    forall id | id in byId' ensures exists i :: 0 <= i < |rest| && rest[i].content.id == id {
      var i :| 0 <= i < |events| && events[i].content.id == id;
      assert rest[i - 1] == events[i];
    }
    forall i | 0 <= i < |rest| ensures rest[i].content.id in byId' && byId'[rest[i].content.id] == rest[i] {
      assert rest[i] == events[i + 1];
    }
  }

  class MemoryAuditStore {
    var events: seq<Event>
    const digest: Digest
    const maxCapacity: int
    var eventsByEntity: Index
    var eventsByActor: Index
    var eventsById: map<string, Event>

    /** Everything recorded since the store was created or cleared. */
    ghost var trail: seq<Event>

    ghost predicate IndexesAgree()
      reads this
    {
      && Indexes(eventsByEntity, EntityOf(), events) && Indexes(eventsByActor, ActorOf(), events)
      && ByIdOk(eventsById, events) && DistinctIds(events)
    }

    ghost predicate Valid()
      reads this
    {
      IndexesAgree() && Chained(digest, trail) && events == Latest(trail, Room(maxCapacity))
    }

    constructor (digest: Digest, maxCapacity: int)
      ensures Valid() && trail == [] && this.digest == digest && this.maxCapacity == maxCapacity
    {
      this.digest, this.maxCapacity := digest, maxCapacity;
      events, eventsByEntity, eventsByActor, eventsById, trail := [], map[], map[], map[], [];
    }

    /** Evicts the oldest event when the store is full. */
    method MakeRoom()
      requires IndexesAgree()
      modifies this`events, this`eventsByEntity, this`eventsByActor, this`eventsById
      ensures IndexesAgree()
      ensures events == if |old(events)| >= maxCapacity && old(events) != [] then old(events)[1..] else old(events)
      ensures forall id :: id in eventsById ==> id in old(eventsById)
    {
      if |events| >= maxCapacity && events != [] {
        var oldest := events[0];
        UnlistedKeeps(eventsByEntity, EntityOf(), events);
        UnlistedKeeps(eventsByActor, ActorOf(), events);
        ByIdDrop(eventsById, events);
        events := events[1..];
        eventsById := eventsById - {oldest.content.id};
        eventsByEntity := Unlisted(eventsByEntity, oldest.content.entityId, oldest.content.id);
        eventsByActor := Unlisted(eventsByActor, oldest.content.actorId, oldest.content.id);
      }
    }

    method Append(event: Event)
      requires IndexesAgree() && event.content.id !in eventsById
      modifies this`events, this`eventsByEntity, this`eventsByActor, this`eventsById
      ensures IndexesAgree() && events == old(events) + [event]
    {
      RelistedKeeps(eventsByEntity, EntityOf(), events, event);
      RelistedKeeps(eventsByActor, ActorOf(), events, event);
      ByIdPush(eventsById, events, event);
      events := events + [event];
      eventsById := eventsById[event.content.id := event];
      eventsByEntity := Relisted(eventsByEntity, event.content.entityId, event.content.id);
      eventsByActor := Relisted(eventsByActor, event.content.actorId, event.content.id);
    }

    method Store(event: Event)
      requires IndexesAgree() && event.content.id !in eventsById
      modifies this`events, this`eventsByEntity, this`eventsByActor, this`eventsById
      ensures IndexesAgree()
      ensures events == (if |old(events)| >= maxCapacity && old(events) != [] then old(events)[1..] else old(events)) + [event]
    {
      MakeRoom();
      Append(event);
    }

    /** `input` carries a fresh id; the store sets its previous hash and its hash. */
    method RecordEvent(input: Content) returns (event: Event)
      requires Valid() && input.id !in eventsById
      modifies this
      ensures Valid() && trail == old(trail) + [event]
      ensures event.content == input.(previousHash := HashBefore(old(trail), |old(trail)|)) && event.hash == Some(digest(event.content))
      ensures |events| <= Room(maxCapacity)
    {
      var content := input.(previousHash := HashBefore(events, |events|));
      event := Event(content, Some(digest(content)));
      RecordKeeps(digest, trail, events, event, maxCapacity);
      Store(event);
      trail := trail + [event];
    }

    method GetEventsByEntity(entityId: string) returns (r: seq<Event>)
      requires Valid()
      ensures r == Reverse(Filter(KeyIs(EntityOf(), entityId), events))
    {
      var found := Lookup(eventsById, Listed(eventsByEntity, entityId));
      FilterIn(KeyIs(EntityOf(), entityId), events);
      LookupIds(eventsById, Filter(KeyIs(EntityOf(), entityId), events));
      r := Reverse(found);
    }

    /** The retained events that pass all filters, newest first. */
    method NewestMatching(q: Query) returns (result: seq<Event>)
      ensures result == Reverse(Filter(Matching(q), events))
    {
      result := Reverse(events);
      result := Narrow(q.action != "", ActionIs(q), result);
      result := Narrow(q.entityId != "", KeyIs(EntityOf(), q.entityId), result);
      result := Narrow(q.actorId != "", KeyIs(ActorOf(), q.actorId), result);
      result := Narrow(q.actorType != "", ActorTypeIs(q), result);
      result := Narrow(q.since.Some?, NotBefore(q), result);
      result := Narrow(q.until.Some?, NotAfter(q), result);
      NarrowedToMatching(q, Reverse(events));
      FilterReverse(Matching(q), events);
    }

    /** A page of them. */
    method QueryEvents(q: Query) returns (r: QueryResult)
      ensures var matching := Reverse(Filter(Matching(q), events));
        && r.total == |matching| && r.limit == PageSize(q.limit) && r.offset == (if q.offset < 0 then 0 else q.offset)
        && |r.events| == (if r.total <= r.offset then 0 else if r.total - r.offset < r.limit then r.total - r.offset else r.limit)
        && forall i :: 0 <= i < |r.events| ==> r.events[i] == matching[r.offset + i]
    {
      var result := NewestMatching(q);
      var offset := if q.offset < 0 then 0 else q.offset;
      r := QueryResult(Slice(result, offset, PageSize(q.limit)), |result|, PageSize(q.limit), offset);
    }

    method Clear()
      modifies this
      ensures Valid() && trail == []
    {
      events, eventsByEntity, eventsByActor, eventsById, trail := [], map[], map[], map[], [];
    }

    method Size() returns (n: nat)
      requires Valid()
      ensures n == if |trail| <= Room(maxCapacity) then |trail| else Room(maxCapacity)
    {
      n := |events|;
    }

    /** The store's chain verifies exactly while nothing has been evicted since creation or clear. */
    method Verify() returns (r: Verification)
      requires Valid()
      ensures r.valid <==> |trail| <= Room(maxCapacity)
      ensures !r.valid ==> r.failure == Some((0, events[0].content.id, PreviousHash))
      ensures Linked(digest, events)
    {
      r := VerifyChain(digest, events);
      CutChain(digest, trail, Room(maxCapacity));
      LatestLinked(digest, trail, Room(maxCapacity));
      assert !r.valid ==> Flaw(digest, events, 0) == Some(PreviousHash);
      assert !r.valid ==> r.failure.value.0 == 0;
    }
  }

  /**
   * The entity look-up lists what the query by that entity lists, except that the empty
   * entity id is no filter to the query: there they agree only if every event has it.
   */
  lemma EntityLookupIsQuery(events: seq<Event>, entityId: string)
    ensures Filter(KeyIs(EntityOf(), entityId), events) == Filter(Matching(ByEntity(entityId)), events) <==>
      (entityId == "" ==> forall e :: e in events ==> e.content.entityId == "")
  {
    if entityId != "" {
      FilterSame(KeyIs(EntityOf(), entityId), Matching(ByEntity(entityId)), events);
    } else {
      FilterAll(Matching(ByEntity(entityId)), events);
      FilterIn(KeyIs(EntityOf(), entityId), events);
      if forall e :: e in events ==> e.content.entityId == "" {
        FilterAll(KeyIs(EntityOf(), entityId), events);
      }
    }
  }

  function ByEntity(entityId: string): Query {
    Query("", entityId, "", "", None, None, 0, 0)
  }
}
