/**
 * The replay engine: batches of concurrent events, shuffled into a schedule and then
 * applied one by one to a resource guarded by versions and idempotency keys.
 */
module ReplayEngine {
  import opened Basics
  import opened Shuffle

  datatype Role = Owner | Admin | Collaborator | Unauthorized

  datatype Action = UpdateField | SettlePayment | CancelInvoice

  datatype InvoiceStatus = Pending | Paid | Cancelled

  /**
   * An absent field name or key is the empty text, which the engine treats alike.
   * `amount` is what the value converts to as a number.
   */
  datatype Event = Event(
    id: string, clientId: string, role: Role, action: Action, field: string, value: string, amount: int,
    expected: Option<int>, key: string, drops: bool)

  datatype Resource = Resource(version: int, status: InvoiceStatus, fields: map<string, string>, settled: int)

  datatype Verdict = Success | Conflict | Denied | NetworkError | IdempotentHit

  datatype TraceStep = TraceStep(index: nat, eventId: string, clientId: string, action: Action, verdict: Verdict, version: int)

  /** What decides the next event: the resource and the version remembered for each key that succeeded. */
  datatype Core = Core(resource: Resource, cache: map<string, int>)

  // ---------- One event ----------

  function Judge(c: Core, e: Event): Verdict {
    if e.drops then NetworkError
    else if e.key != "" && e.key in c.cache then IdempotentHit
    else if e.role == Unauthorized then Denied
    else if e.expected.Some? && e.expected.value != c.resource.version then Conflict
    else Success
  }

  function Apply(r: Resource, e: Event): Resource {
    var r := r.(version := r.version + 1);
    match e.action
    case UpdateField => if e.field == "" then r else r.(fields := r.fields[e.field := e.value])
    case SettlePayment => r.(status := Paid, settled := r.settled + e.amount)
    case CancelInvoice => r.(status := Cancelled)
  }

  function Advance(c: Core, e: Event): Core {
    if Judge(c, e) != Success then c
    else
      var r := Apply(c.resource, e);
      Core(r, if e.key == "" then c.cache else c.cache[e.key := r.version])
  }

  function Entry(c: Core, e: Event, index: nat): TraceStep {
    var verdict := Judge(c, e);
    TraceStep(index, e.id, e.clientId, e.action, verdict,
      if verdict == IdempotentHit then c.cache[e.key] else Advance(c, e).resource.version)
  }

  // ---------- Many events ----------

  function Run(c: Core, events: seq<Event>): Core
    decreases |events|
  {
    if events == [] then c else Run(Advance(c, events[0]), events[1..])
  }

  function Journal(c: Core, events: seq<Event>, index: nat): seq<TraceStep>
    decreases |events|
  {
    if events == [] then [] else [Entry(c, events[0], index)] + Journal(Advance(c, events[0]), events[1..], index + 1)
  }

  /** Batches one after another. */
  function RunBatches(c: Core, batches: seq<seq<Event>>): Core
    decreases |batches|
  {
    if batches == [] then c else RunBatches(Run(c, batches[0]), batches[1..])
  }

  function JournalBatches(c: Core, batches: seq<seq<Event>>, index: nat): seq<TraceStep>
    decreases |batches|
  {
    if batches == [] then []
    else Journal(c, batches[0], index) + JournalBatches(Run(c, batches[0]), batches[1..], index + |batches[0]|)
  }

  function Flatten(batches: seq<seq<Event>>): seq<Event> {
    if batches == [] then [] else batches[0] + Flatten(batches[1..])
  }

  lemma {:induction false} RunAppend(c: Core, a: seq<Event>, b: seq<Event>, index: nat)
    ensures Run(c, a + b) == Run(Run(c, a), b)
    ensures Journal(c, a + b, index) == Journal(c, a, index) + Journal(Run(c, a), b, index + |a|)
    decreases |a|
  {
    if a == [] {
      assert a + b == b;
    } else {
      assert (a + b)[1..] == a[1..] + b;
      RunAppend(Advance(c, a[0]), a[1..], b, index + 1);
    }
  }

  /** A sequence of batches leaves what one long schedule would. */
  lemma {:induction false} BatchesAreOneRun(c: Core, batches: seq<seq<Event>>, index: nat)
    ensures RunBatches(c, batches) == Run(c, Flatten(batches))
    ensures JournalBatches(c, batches, index) == Journal(c, Flatten(batches), index)
    decreases |batches|
  {
    if batches != [] {
      BatchesAreOneRun(Run(c, batches[0]), batches[1..], index + |batches[0]|);
      RunAppend(c, batches[0], Flatten(batches[1..]), index);
    }
  }

  lemma {:induction false} JournalAt(c: Core, events: seq<Event>, index: nat, j: nat)
    requires j < |events|
    ensures |Journal(c, events, index)| == |events|
    ensures Journal(c, events, index)[j] == Entry(Run(c, events[..j]), events[j], index + j)
    decreases |events|
  {
    if j == 0 {
      assert events[..0] == [];
      if |events| > 1 { JournalAt(Advance(c, events[0]), events[1..], index + 1, 0); }
    } else {
      JournalAt(Advance(c, events[0]), events[1..], index + 1, j - 1);
      assert events[1..][..j - 1] == events[..j][1..];
    }
  }

  // ---------- Accounts that every run keeps ----------

  function Is(v: Verdict): TraceStep -> bool {
    (t: TraceStep) => t.verdict == v
  }

  /** The amounts of the settlements that the journal reports as successful. */
  function Settlements(events: seq<Event>, journal: seq<TraceStep>): int
    requires |journal| == |events|
  {
    if events == [] then 0
    else
      (if journal[0].verdict == Success && events[0].action == SettlePayment then events[0].amount else 0)
      + Settlements(events[1..], journal[1..])
  }

  /** The version counts the successes and the settled amount adds up the successful settlements. */
  lemma {:induction false} RunAccounts(c: Core, events: seq<Event>, index: nat)
    ensures |Journal(c, events, index)| == |events|
    ensures Run(c, events).resource.version == c.resource.version + Count(Is(Success), Journal(c, events, index))
    ensures Run(c, events).resource.settled == c.resource.settled + Settlements(events, Journal(c, events, index))
    decreases |events|
  {
    if events != [] {
      RunAccounts(Advance(c, events[0]), events[1..], index + 1);
      assert Journal(c, events, index)[1..] == Journal(Advance(c, events[0]), events[1..], index + 1);
    }
  }

  /** What a run never takes back: a remembered key keeps its version, and versions only grow. */
  lemma {:induction false} RunRemembers(c: Core, events: seq<Event>)
    ensures Run(c, events).resource.version >= c.resource.version
    ensures forall k :: k in c.cache ==> k in Run(c, events).cache && Run(c, events).cache[k] == c.cache[k]
    decreases |events|
  {
    if events != [] { RunRemembers(Advance(c, events[0]), events[1..]); }
  }

  /** The state in which event `b` is judged is reached from the one that event `a` left. */
  lemma Between(c: Core, events: seq<Event>, a: nat, b: nat)
    requires a < b < |events|
    ensures Run(c, events[..b]) == Run(Advance(Run(c, events[..a]), events[a]), events[a + 1..b])
  {
    assert events[..b] == events[..a] + events[a..b];
    RunAppend(c, events[..a], events[a..b], 0);
    assert events[a..b][1..] == events[a + 1..b];
  }

  /**
   * A key succeeds at most once: after the success, every event with the key is
   * dropped by the network or answered with the version the success produced.
   */
  lemma KeySucceedsOnce(c: Core, events: seq<Event>, a: nat, b: nat)
    requires a < b < |events| && events[a].key == events[b].key != ""
    ensures var journal := Journal(c, events, 0);
      |journal| == |events| &&
      (journal[a].verdict == Success ==>
        && journal[b].verdict in {NetworkError, IdempotentHit}
        && (journal[b].verdict == IdempotentHit ==> journal[b].version == journal[a].version))
  {
    JournalAt(c, events, 0, a);
    JournalAt(c, events, 0, b);
    Between(c, events, a, b);
    RunRemembers(Advance(Run(c, events[..a]), events[a]), events[a + 1..b]);
  }

  /** Of all events that expect one version, at most one succeeds. */
  lemma OneWinnerPerVersion(c: Core, events: seq<Event>, a: nat, b: nat, version: int)
    requires a < b < |events| && events[a].expected == events[b].expected == Some(version)
    ensures var journal := Journal(c, events, 0);
      |journal| == |events| && !(journal[a].verdict == Success && journal[b].verdict == Success)
  {
    JournalAt(c, events, 0, a);
    JournalAt(c, events, 0, b);
    Between(c, events, a, b);
    RunRemembers(Advance(Run(c, events[..a]), events[a]), events[a + 1..b]);
  }

  /** Conversely an answer from memory always has an earlier success behind it. */
  lemma {:induction false} RememberedWasSuccess(c: Core, events: seq<Event>, key: string)
    requires key in Run(c, events).cache && key !in c.cache
    ensures exists a :: (0 <= a < |events| && events[a].key == key && Judge(Run(c, events[..a]), events[a]) == Success
      && Run(c, events[..a + 1]).resource.version == Run(c, events).cache[key])
    decreases |events|
  {
    var n := |events| - 1;
    assert events == events[..n] + [events[n]];
    RunAppend(c, events[..n], [events[n]], 0);
    var before := Run(c, events[..n]);
    assert Run(before, [events[n]]) == Advance(before, events[n]);
    if key in before.cache {
      RememberedWasSuccess(c, events[..n], key);
      var a :| 0 <= a < n && events[..n][a].key == key && Judge(Run(c, events[..n][..a]), events[..n][a]) == Success
        && Run(c, events[..n][..a + 1]).resource.version == before.cache[key];
      assert events[..n][..a] == events[..a] && events[..n][..a + 1] == events[..a + 1];
    } else {
      assert events[..n + 1] == events;
    }
  }

  lemma JournalPrefix(c: Core, events: seq<Event>, j: nat)
    requires j <= |events|
    ensures |Journal(c, events, 0)| == |events| && Journal(c, events, 0)[..j] == Journal(c, events[..j], 0)
  {
    assert events == events[..j] + events[j..];
    RunAppend(c, events[..j], events[j..], 0);
    RunAccounts(c, events[..j], 0);
    RunAccounts(c, events, 0);
  }

  /** The key of event `j` was remembered at the start, or an earlier event with it succeeded. */
  ghost predicate Remembered(c: Core, events: seq<Event>, journal: seq<TraceStep>, j: nat)
    requires j < |events| == |journal|
  {
    var key := events[j].key;
    key != "" && (key in c.cache || exists a :: 0 <= a < j && events[a].key == key && journal[a].verdict == Success)
  }

  lemma RememberedIsCached(c: Core, events: seq<Event>, j: nat)
    requires j < |events|
    ensures |Journal(c, events, 0)| == |events|
    ensures Remembered(c, events, Journal(c, events, 0), j) <==> events[j].key != "" && events[j].key in Run(c, events[..j]).cache
  {
    var key, before, journal := events[j].key, events[..j], Journal(c, events, 0);
    JournalAt(c, events, 0, j);
    RunRemembers(c, before);
    if key in Run(c, before).cache && key !in c.cache {
      RememberedWasSuccess(c, before, key);
      var a :| 0 <= a < j && before[a].key == key && Judge(Run(c, before[..a]), before[a]) == Success
        && Run(c, before[..a + 1]).resource.version == Run(c, before).cache[key];
      assert before[..a] == events[..a];
      JournalAt(c, events, 0, a);
    }
    if a :| 0 <= a < j && events[a].key == key != "" && journal[a].verdict == Success {
      JournalAt(c, events, 0, a);
      Between(c, events, a, j);
      RunRemembers(Advance(Run(c, events[..a]), events[a]), events[a + 1..j]);
    }
  }

  /**
   * The verdict on an event, said of the run alone: a dropped event is an error, else a remembered key
   * is a hit, else an unauthorised client is denied, else an expected version that is not the initial
   * version plus the successes so far is a conflict, and all others succeed.
   */
  lemma VerdictsExactly(c: Core, events: seq<Event>, j: nat)
    requires j < |events|
    ensures var e, journal := events[j], Journal(c, events, 0);
      |journal| == |events| &&
      var known := Remembered(c, events, journal, j);
      var stale := e.expected.Some? && e.expected.value != c.resource.version + Count(Is(Success), journal[..j]);
      && (journal[j].verdict == NetworkError <==> e.drops)
      && (journal[j].verdict == IdempotentHit <==> !e.drops && known)
      && (journal[j].verdict == Denied <==> !e.drops && !known && e.role == Unauthorized)
      && (journal[j].verdict == Conflict <==> !e.drops && !known && e.role != Unauthorized && stale)
      && (journal[j].verdict == Success <==> !e.drops && !known && e.role != Unauthorized && !stale)
  {
    JournalAt(c, events, 0, j);
    JournalPrefix(c, events, j);
    RunAccounts(c, events[..j], 0);
    RememberedIsCached(c, events, j);
  }

  /**
   * What each trace step reports: the event it is about, and the version that the successes up to and
   * including it have led to; a hit reports the version of the success it stands for.
   */
  lemma ReportsExactly(c: Core, events: seq<Event>, index: nat, j: nat)
    requires j < |events|
    ensures var e, journal := events[j], Journal(c, events, index);
      |journal| == |events| &&
      var step := journal[j];
      && step.index == index + j && step.eventId == e.id && step.clientId == e.clientId && step.action == e.action
      && (step.verdict != IdempotentHit ==> step.version == c.resource.version + Count(Is(Success), journal[..j + 1]))
      && (step.verdict == IdempotentHit ==> e.key in Run(c, events[..j]).cache && step.version == Run(c, events[..j]).cache[e.key])
  {
    var journal := Journal(c, events, index);
    JournalAt(c, events, index, j);
    assert events == events[..j + 1] + events[j + 1..];
    RunAppend(c, events[..j + 1], events[j + 1..], index);
    RunAccounts(c, events[..j + 1], index);
    assert journal[..j + 1] == Journal(c, events[..j + 1], index);
    assert events[..j + 1] == events[..j] + [events[j]];
    RunAppend(c, events[..j], [events[j]], index);
    assert Run(Run(c, events[..j]), [events[j]]) == Advance(Run(c, events[..j]), events[j]);
  }

  /** A retry whose key has succeeded can be added anywhere later without a trace in the resource. */
  lemma RetryDropsOut(c: Core, before: seq<Event>, retry: Event, later: seq<Event>)
    requires retry.key != "" && retry.key in Run(c, before).cache
    ensures Run(c, before + [retry] + later) == Run(c, before + later)
  {
    RunAppend(c, before + [retry], later, 0);
    RunAppend(c, before, [retry], 0);
    RunAppend(c, before, later, 0);
    assert Run(Run(c, before), [retry]) == Advance(Run(c, before), retry);
  }

  // ---------- Which schedules agree ----------

  predicate Effective(e: Event) {
    !e.drops && e.role != Unauthorized
  }

  function HasKey(key: string): Event -> bool {
    (e: Event) => e.key == key
  }

  /** A batch without expected versions whose keys are new and pairwise distinct. */
  ghost predicate Plain(c: Core, events: seq<Event>) {
    && (forall e :: e in events ==> e.expected == None && e.key !in c.cache)
    && (forall key :: key != "" ==> Count(HasKey(key), events) <= 1)
  }

  lemma {:induction false} CountSome<T>(p: T -> bool, s: seq<T>, x: T)
    requires x in s && p(x)
    ensures Count(p, s) >= 1
  {
    if s[0] != x { CountSome(p, s[1..], x); }
  }

  lemma PlainStep(c: Core, events: seq<Event>)
    requires Plain(c, events) && events != []
    ensures Judge(c, events[0]) == Success <==> Effective(events[0])
    ensures Plain(Advance(c, events[0]), events[1..])
  {
    var e, c' := events[0], Advance(c, events[0]);
    forall x | x in events[1..] ensures x.expected == None && x.key !in c'.cache {
      if x.key == e.key && e.key != "" {
        assert Count(HasKey(e.key), events) <= 1;
        CountSome(HasKey(e.key), events[1..], x);
      }
    }
    forall key | key != "" ensures Count(HasKey(key), events[1..]) <= 1 {
      assert Count(HasKey(key), events) <= 1;
    }
  }

  function IsEffective(): Event -> bool {
    (e: Event) => Effective(e)
  }

  function SettledBy(): Event -> int {
    (e: Event) => if Effective(e) && e.action == SettlePayment then e.amount else 0
  }

  /** A place of the resource that a write replaces: a named field, or the status. */
  datatype Cell = Named(name: string) | StatusCell

  datatype Content = Text(value: string) | Status(status: InvoiceStatus)

  function WriteOf(e: Event): Option<(Cell, Content)> {
    if !Effective(e) then None
    else
      match e.action
      case UpdateField => if e.field == "" then None else Some((Named(e.field), Text(e.value)))
      case SettlePayment => Some((StatusCell, Status(Paid)))
      case CancelInvoice => Some((StatusCell, Status(Cancelled)))
  }

  function Read(r: Resource, cell: Cell): Option<Content> {
    match cell
    case Named(name) => if name in r.fields then Some(Text(r.fields[name])) else None
    case StatusCell => Some(Status(r.status))
  }

  predicate Writes(e: Event, cell: Cell) {
    WriteOf(e).Some? && WriteOf(e).value.0 == cell
  }

  function LastWrite(events: seq<Event>, cell: Cell): Option<Content> {
    if events == [] then None
    else
      var later := LastWrite(events[1..], cell);
      if later.Some? then later else if Writes(events[0], cell) then Some(WriteOf(events[0]).value.1) else None
  }

  /** What a plain batch leaves, said without running it. */
  lemma {:induction false} PlainRun(c: Core, events: seq<Event>)
    requires Plain(c, events)
    ensures Run(c, events).resource.version == c.resource.version + Count(IsEffective(), events)
    ensures Run(c, events).resource.settled == c.resource.settled + Sum(SettledBy(), events)
    decreases |events|
  {
    if events != [] {
      PlainStep(c, events);
      PlainRun(Advance(c, events[0]), events[1..]);
    }
  }

  lemma {:induction false} PlainCells(c: Core, events: seq<Event>, cell: Cell)
    requires Plain(c, events)
    ensures Read(Run(c, events).resource, cell) ==
      if LastWrite(events, cell).Some? then LastWrite(events, cell) else Read(c.resource, cell)
    decreases |events|
  {
    if events != [] {
      PlainStep(c, events);
      PlainCells(Advance(c, events[0]), events[1..], cell);
    }
  }

  /** Two effective events of the batch put different things in the same cell. */
  ghost predicate ClashAt(events: seq<Event>, cell: Cell) {
    exists a, b :: a in events && b in events && Writes(a, cell) && Writes(b, cell) && WriteOf(a) != WriteOf(b)
  }

  lemma {:induction false} LastWriteFrom(events: seq<Event>, cell: Cell)
    ensures LastWrite(events, cell).None? ==> forall e :: e in events ==> !Writes(e, cell)
    ensures LastWrite(events, cell).Some? ==>
      exists e :: e in events && Writes(e, cell) && WriteOf(e).value.1 == LastWrite(events, cell).value
    decreases |events|
  {
    if events != [] {
      LastWriteFrom(events[1..], cell);
      assert events == [events[0]] + events[1..];
      if LastWrite(events[1..], cell).Some? {
        var e :| e in events[1..] && Writes(e, cell) && WriteOf(e).value.1 == LastWrite(events[1..], cell).value;
        assert e in events;
      } else if Writes(events[0], cell) {
        assert events[0] in events;
      }
    }
  }

  lemma SameMembers<T>(xs: seq<T>, ys: seq<T>)
    requires multiset(xs) == multiset(ys)
    ensures forall x :: x in xs <==> x in ys
  {
    forall x ensures x in xs <==> x in ys {
      assert x in xs <==> x in multiset(xs);
      assert x in ys <==> x in multiset(ys);
    }
  }

  lemma LastWriteAgrees(xs: seq<Event>, ys: seq<Event>, cell: Cell)
    requires multiset(xs) == multiset(ys) && !ClashAt(xs, cell)
    ensures LastWrite(xs, cell) == LastWrite(ys, cell)
  {
    SameMembers(xs, ys);
    LastWriteFrom(xs, cell);
    LastWriteFrom(ys, cell);
  }

  // ---------- Counting does not depend on the order ----------

  lemma WithoutFirst<T>(xs: seq<T>)
    requires xs != []
    ensures multiset(xs[1..]) == multiset(xs) - multiset{xs[0]}
  {
    assert xs == [xs[0]] + xs[1..];
  }

  lemma Without<T>(ys: seq<T>, j: nat)
    requires j < |ys|
    ensures multiset(ys[..j] + ys[j + 1..]) == multiset(ys) - multiset{ys[j]}
  {
    assert ys == ys[..j] + ys[j..];
    WithoutFirst(ys[j..]);
    assert ys[j..][1..] == ys[j + 1..];
    assert ys[j] in multiset(ys[j..]);
  }

  lemma Extract<T>(xs: seq<T>, ys: seq<T>) returns (j: nat)
    requires xs != [] && multiset(xs) == multiset(ys)
    ensures j < |ys| && ys[j] == xs[0] && multiset(xs[1..]) == multiset(ys[..j] + ys[j + 1..])
  {
    assert xs[0] in multiset(xs);
    j := Occurs(ys, xs[0]);
    WithoutFirst(xs);
    Without(ys, j);
  }

  lemma {:induction false} CountPermuted<T>(p: T -> bool, xs: seq<T>, ys: seq<T>)
    requires multiset(xs) == multiset(ys)
    ensures Count(p, xs) == Count(p, ys)
    decreases |xs|
  {
    if xs == [] {
      assert |multiset(ys)| == 0;
    } else {
      var j := Extract(xs, ys);
      CountPermuted(p, xs[1..], ys[..j] + ys[j + 1..]);
      CountAppend(p, ys[..j], ys[j + 1..]);
      CountAppend(p, ys[..j], ys[j..]);
      assert ys[..j] + ys[j..] == ys && ys[j..][1..] == ys[j + 1..];
    }
  }

  lemma {:induction false} SumPermuted<T>(f: T -> int, xs: seq<T>, ys: seq<T>)
    requires multiset(xs) == multiset(ys)
    ensures Sum(f, xs) == Sum(f, ys)
    decreases |xs|
  {
    if xs == [] {
      assert |multiset(ys)| == 0;
    } else {
      var j := Extract(xs, ys);
      SumPermuted(f, xs[1..], ys[..j] + ys[j + 1..]);
      SumAppend(f, ys[..j], ys[j + 1..]);
      SumAppend(f, ys[..j], ys[j..]);
      assert ys[..j] + ys[j..] == ys && ys[j..][1..] == ys[j + 1..];
    }
  }

  lemma PlainPermuted(c: Core, xs: seq<Event>, ys: seq<Event>)
    requires multiset(xs) == multiset(ys) && Plain(c, xs)
    ensures Plain(c, ys)
  {
    SameMembers(xs, ys);
    forall key | key != "" ensures Count(HasKey(key), ys) <= 1 {
      CountPermuted(HasKey(key), xs, ys);
    }
  }

  // ---------- Seed independence ----------

  /** Any two orders of a plain batch end with the same version and settled amount. */
  lemma PlainTotalsAgree(c: Core, xs: seq<Event>, ys: seq<Event>)
    requires Plain(c, xs) && multiset(xs) == multiset(ys)
    ensures Run(c, xs).resource.version == Run(c, ys).resource.version
    ensures Run(c, xs).resource.settled == Run(c, ys).resource.settled
  {
    PlainPermuted(c, xs, ys);
    PlainRun(c, xs);
    PlainRun(c, ys);
    CountPermuted(IsEffective(), xs, ys);
    SumPermuted(SettledBy(), xs, ys);
  }

  lemma PlainCellAgrees(c: Core, xs: seq<Event>, ys: seq<Event>, cell: Cell)
    requires Plain(c, xs) && multiset(xs) == multiset(ys) && !ClashAt(xs, cell)
    ensures Read(Run(c, xs).resource, cell) == Read(Run(c, ys).resource, cell)
  {
    PlainPermuted(c, xs, ys);
    PlainCells(c, xs, cell);
    PlainCells(c, ys, cell);
    LastWriteAgrees(xs, ys, cell);
  }

  /** An order in which a given event comes last. */
  lemma ComesLast(events: seq<Event>, e: Event) returns (q: seq<Event>)
    requires e in events
    ensures multiset(q) == multiset(events) && q != [] && q[|q| - 1] == e
  {
    var j :| 0 <= j < |events| && events[j] == e;
    q := events[..j] + events[j + 1..] + [e];
    assert events == events[..j] + [e] + events[j + 1..];
  }

  lemma {:induction false} LastWins(q: seq<Event>, cell: Cell)
    requires q != [] && Writes(q[|q| - 1], cell)
    ensures LastWrite(q, cell) == Some(WriteOf(q[|q| - 1]).value.1)
  {
    if |q| > 1 { LastWins(q[1..], cell); }
  }

  /** The batch leaves the same thing in this cell whatever the generator draws. */
  ghost predicate CellIndependent(c: Core, events: seq<Event>, cell: Cell) {
    forall d1: seq<Draw>, d2: seq<Draw> | Enough(d1, |events|) && Enough(d2, |events|) ::
      Read(Run(c, Shuffled(events, |events|, d1)).resource, cell) == Read(Run(c, Shuffled(events, |events|, d2)).resource, cell)
  }

  lemma ClashShows(c: Core, events: seq<Event>, cell: Cell)
    requires Plain(c, events) && |events| <= RANGE && ClashAt(events, cell)
    ensures !CellIndependent(c, events, cell)
  {
    var a, b :| a in events && b in events && Writes(a, cell) && Writes(b, cell) && WriteOf(a) != WriteOf(b);
    var d1 := EndsWith(c, events, a, cell);
    var d2 := EndsWith(c, events, b, cell);
    assert Enough(d1, |events|) && Enough(d2, |events|);
  }

  /** Draws after which a given writer has the last word. */
  lemma EndsWith(c: Core, events: seq<Event>, e: Event, cell: Cell) returns (draws: seq<Draw>)
    requires Plain(c, events) && |events| <= RANGE && e in events && Writes(e, cell)
    ensures Enough(draws, |events|)
    ensures Read(Run(c, Shuffled(events, |events|, draws)).resource, cell) == Some(WriteOf(e).value.1)
  {
    var q := ComesLast(events, e);
    assert |q| == |multiset(q)| == |multiset(events)| == |events|;
    draws := ShuffleReaches(events, q);
    PlainPermuted(c, events, q);
    PlainCells(c, q, cell);
    LastWins(q, cell);
  }

  /**
   * The seed decides nothing about a cell exactly when no two effective events
   * write different things there.
   */
  lemma SeedIndependentCell(c: Core, events: seq<Event>, cell: Cell)
    requires Plain(c, events) && |events| <= RANGE
    ensures CellIndependent(c, events, cell) <==> !ClashAt(events, cell)
  {
    if ClashAt(events, cell) {
      ClashShows(c, events, cell);
    } else {
      forall d1: seq<Draw>, d2: seq<Draw> | Enough(d1, |events|) && Enough(d2, |events|)
        ensures Read(Run(c, Shuffled(events, |events|, d1)).resource, cell) == Read(Run(c, Shuffled(events, |events|, d2)).resource, cell)
      {
        ShufflePermutes(events, |events|, d1);
        ShufflePermutes(events, |events|, d2);
        PlainCellAgrees(c, events, Shuffled(events, |events|, d1), cell);
        PlainCellAgrees(c, events, Shuffled(events, |events|, d2), cell);
      }
    }
  }

  /** No field is written by two events. */
  ghost predicate OneWriterPerField(events: seq<Event>) {
    forall a, b :: 0 <= a < b < |events| && events[a].action == UpdateField && events[b].action == UpdateField ==>
      events[a].field == "" || events[a].field != events[b].field
  }

  lemma OneWriterNoClash(events: seq<Event>, name: string)
    requires OneWriterPerField(events)
    ensures !ClashAt(events, Named(name))
  {
  }

  /** The promised case: distinct new keys, no expected versions and one writer per field. */
  lemma SeedIndependence(c: Core, events: seq<Event>, d1: seq<Draw>, d2: seq<Draw>)
    requires Plain(c, events) && OneWriterPerField(events) && Enough(d1, |events|) && Enough(d2, |events|)
    ensures var r1, r2 := Run(c, Shuffled(events, |events|, d1)).resource, Run(c, Shuffled(events, |events|, d2)).resource;
      r1.version == r2.version && r1.settled == r2.settled && r1.fields == r2.fields
  {
    var xs, ys := Shuffled(events, |events|, d1), Shuffled(events, |events|, d2);
    ShufflePermutes(events, |events|, d1);
    ShufflePermutes(events, |events|, d2);
    PlainPermuted(c, events, xs);
    PlainTotalsAgree(c, xs, ys);
    var r1, r2 := Run(c, xs).resource, Run(c, ys).resource;
    forall name ensures Read(r1, Named(name)) == Read(r2, Named(name)) {
      OneWriterNoClash(events, name);
      PlainCellAgrees(c, events, xs, Named(name));
      PlainCellAgrees(c, events, ys, Named(name));
    }
    SameFields(r1, r2);
  }

  lemma SameFields(r1: Resource, r2: Resource)
    requires forall name :: Read(r1, Named(name)) == Read(r2, Named(name))
    ensures r1.fields == r2.fields
  {
    forall name ensures name in r1.fields <==> name in r2.fields {
      assert Read(r1, Named(name)) == Read(r2, Named(name));
    }
    forall name | name in r1.fields ensures r1.fields[name] == r2.fields[name] {
      assert Read(r1, Named(name)) == Read(r2, Named(name));
    }
  }

  /** The final status depends on the seed exactly when the batch can both settle and cancel. */
  lemma StatusIndependence(c: Core, events: seq<Event>)
    requires Plain(c, events) && |events| <= RANGE
    ensures CellIndependent(c, events, StatusCell) <==>
      !exists a, b :: a in events && b in events && Effective(a) && Effective(b)
        && a.action == SettlePayment && b.action == CancelInvoice
  {
    SeedIndependentCell(c, events, StatusCell);
    if a, b :| a in events && b in events && Effective(a) && Effective(b) && a.action == SettlePayment && b.action == CancelInvoice {
      assert Writes(a, StatusCell) && Writes(b, StatusCell) && WriteOf(a) != WriteOf(b);
    }
  }

  // ---------- The engine ----------

  datatype Report = Report(finalState: Resource, trace: seq<TraceStep>, successfulWrites: nat, conflicts: nat, retriesHandled: nat)

  class DeterministicReplayEngine {
    var resource: Resource
    var cache: map<string, int>
    var trace: seq<TraceStep>

    function State(): Core
      reads this
    {
      Core(resource, cache)
    }

    constructor (initial: Resource)
      ensures State() == Core(initial, map[]) && trace == []
    {
      resource, cache, trace := initial, map[], [];
    }

    /** One turn of the batch loop. */
    method Process(e: Event) returns (verdict: Verdict)
      modifies this
      ensures verdict == Judge(old(State()), e) && State() == Advance(old(State()), e)
      ensures trace == old(trace) + [Entry(old(State()), e, |old(trace)|)]
    {
      if e.drops {
        verdict := NetworkError;
        trace := trace + [TraceStep(|trace|, e.id, e.clientId, e.action, NetworkError, resource.version)];
      } else if e.key != "" && e.key in cache {
        verdict := IdempotentHit;
        trace := trace + [TraceStep(|trace|, e.id, e.clientId, e.action, IdempotentHit, cache[e.key])];
      } else if e.role == Unauthorized {
        verdict := Denied;
        trace := trace + [TraceStep(|trace|, e.id, e.clientId, e.action, Denied, resource.version)];
      } else if e.expected.Some? && e.expected.value != resource.version {
        verdict := Conflict;
        trace := trace + [TraceStep(|trace|, e.id, e.clientId, e.action, Conflict, resource.version)];
      } else {
        verdict := Success;
        resource := resource.(version := resource.version + 1);
        if e.action == UpdateField && e.field != "" {
          resource := resource.(fields := resource.fields[e.field := e.value]);
        } else if e.action == SettlePayment {
          resource := resource.(status := Paid, settled := resource.settled + e.amount);
        } else if e.action == CancelInvoice {
          resource := resource.(status := Cancelled);
        }
        if e.key != "" {
          cache := cache[e.key := resource.version];
        }
        trace := trace + [TraceStep(|trace|, e.id, e.clientId, e.action, Success, resource.version)];
      }
    }

    method ExecuteConcurrentBatch(events: seq<Event>, draws: seq<Draw>) returns (report: Report)
      requires Enough(draws, |events|)
      modifies this
      ensures var schedule := Shuffled(events, |events|, draws);
        var journal := Journal(old(State()), schedule, |old(trace)|);
        && State() == Run(old(State()), schedule) && trace == old(trace) + journal
        && report == Report(resource, trace, Count(Is(Success), journal), Count(Is(Conflict), journal), Count(Is(IdempotentHit), journal))
    {
      var scheduled := ShuffleCopy(events, draws);
      ghost var schedule, start, before := scheduled[..], State(), trace;
      var successes, conflicts, retries := 0, 0, 0;
      var i := 0;
      while i < scheduled.Length
        invariant 0 <= i <= scheduled.Length && scheduled[..] == schedule
        invariant State() == Run(start, schedule[..i])
        invariant trace == before + Journal(start, schedule[..i], |before|)
        invariant |Journal(start, schedule[..i], |before|)| == i
        invariant successes == Count(Is(Success), Journal(start, schedule[..i], |before|))
        invariant conflicts == Count(Is(Conflict), Journal(start, schedule[..i], |before|))
        invariant retries == Count(Is(IdempotentHit), Journal(start, schedule[..i], |before|))
      {
        OneMore(start, schedule, i, |before|);
        var verdict := Process(scheduled[i]);
        if verdict == Success { successes := successes + 1; }
        if verdict == Conflict { conflicts := conflicts + 1; }
        if verdict == IdempotentHit { retries := retries + 1; }
        i := i + 1;
      }
      assert schedule[..i] == schedule;
      report := Report(resource, trace, successes, conflicts, retries);
    }
  }

  lemma OneMore(c: Core, events: seq<Event>, i: nat, index: nat)
    requires i < |events|
    ensures var done, entry := Journal(c, events[..i], index), Entry(Run(c, events[..i]), events[i], index + i);
      && Run(c, events[..i + 1]) == Advance(Run(c, events[..i]), events[i])
      && Journal(c, events[..i + 1], index) == done + [entry]
      && (forall v :: Count(Is(v), done + [entry]) == Count(Is(v), done) + if entry.verdict == v then 1 else 0)
  {
    var done, entry := Journal(c, events[..i], index), Entry(Run(c, events[..i]), events[i], index + i);
    assert events[..i + 1] == events[..i] + [events[i]];
    RunAppend(c, events[..i], [events[i]], index);
    assert Journal(Run(c, events[..i]), [events[i]], index + i) == [entry];
    forall v ensures Count(Is(v), done + [entry]) == Count(Is(v), done) + if entry.verdict == v then 1 else 0 {
      CountAppend(Is(v), done, [entry]);
      assert Count(Is(v), [entry]) == (if Is(v)(entry) then 1 else 0) + Count(Is(v), []);
    }
  }
}
