/**
 * The keyed mutex that serialises work on one invoice id.
 *
 * JavaScript runs each piece of code between two awaits to completion, so a run is
 * a sequence of atomic steps: a caller enters `acquire`, a sleeping caller resumes
 * because the promise it awaited was resolved, or someone calls a release closure.
 * A release closure may be called any number of times and at any later moment.
 */
module LockManager {
  type Invoice = string

  /** Promises are numbered in the order in which they are created. */
  type Promise = nat

  /** One call of `acquire`: asleep on a promise, or returned with its release closure. */
  datatype Task =
    | Waiting(invoice: Invoice, promise: Promise)
    | Granted(invoice: Invoice, promise: Promise)

  /** The lock table together with what the runtime knows: promises made and resolved, and all calls. */
  datatype World = World(locks: map<Invoice, Promise>, made: nat, resolved: set<Promise>, tasks: seq<Task>)

  datatype Event =
    | Acquire(invoice: Invoice)
    | Wake(task: nat)
    | Release(task: nat)

  const INITIAL := World(map[], 0, {}, [])

  /** A call has been granted the lock and no release closure of its has run yet. */
  predicate Holds(w: World, t: int) {
    0 <= t < |w.tasks| && w.tasks[t].Granted? && w.tasks[t].promise !in w.resolved
  }

  predicate Waits(w: World, t: int) {
    0 <= t < |w.tasks| && w.tasks[t].Waiting?
  }

  /** A sleeping call can resume once the promise it awaits is resolved. */
  predicate Runnable(w: World, t: int) {
    Waits(w, t) && w.tasks[t].promise in w.resolved
  }

  predicate Enabled(w: World, e: Event) {
    match e
    case Acquire(_) => true
    case Wake(t) => Runnable(w, t)
    case Release(t) => t < |w.tasks| && w.tasks[t].Granted?
  }

  /** One pass of the acquire loop: what the call becomes, and the lock table after it. */
  function Attempt(w: World, i: Invoice): (r: (Task, World)) {
    if i in w.locks then (Waiting(i, w.locks[i]), w)
    else (Granted(i, w.made), w.(locks := w.locks[i := w.made], made := w.made + 1))
  }

  function Freed(w: World, i: Invoice, p: Promise): World {
    w.(locks := if i in w.locks && w.locks[i] == p then w.locks - {i} else w.locks, resolved := w.resolved + {p})
  }

  function Step(w: World, e: Event): World
    requires Enabled(w, e)
  {
    match e
    case Acquire(i) =>
      var (task, w') := Attempt(w, i);
      w'.(tasks := w.tasks + [task])
    case Wake(t) =>
      var (task, w') := Attempt(w, w.tasks[t].invoice);
      w'.(tasks := w.tasks[t := task])
    case Release(t) => Freed(w, w.tasks[t].invoice, w.tasks[t].promise)
  }

  // ---------- What every step keeps ----------

  /** Every lock table entry is the unresolved promise of a call that holds the lock. */
  ghost predicate EntriesHeld(w: World) {
    forall i | i in w.locks :: exists t :: Holds(w, t) && w.tasks[t] == Granted(i, w.locks[i])
  }

  /** Every unreleased holder owns the table entry of its invoice. */
  ghost predicate HoldersOwn(w: World) {
    forall t | Holds(w, t) :: w.tasks[t].invoice in w.locks && w.locks[w.tasks[t].invoice] == w.tasks[t].promise
  }

  /** No call sleeps on an unresolved promise other than the current holder's. */
  ghost predicate SleepersWatchHolder(w: World) {
    forall t | Waits(w, t) && !Runnable(w, t) ::
      w.tasks[t].invoice in w.locks && w.locks[w.tasks[t].invoice] == w.tasks[t].promise
  }

  ghost predicate OwnPromises(w: World) {
    && (forall t, u :: 0 <= t < u < |w.tasks| && w.tasks[t].Granted? && w.tasks[u].Granted? ==>
         w.tasks[t].promise != w.tasks[u].promise)
    && (forall t :: 0 <= t < |w.tasks| ==> w.tasks[t].promise < w.made)
    && (forall p :: p in w.resolved ==> p < w.made)
  }

  ghost predicate Invariant(w: World) {
    EntriesHeld(w) && HoldersOwn(w) && SleepersWatchHolder(w) && OwnPromises(w)
  }

  /** One pass of the acquire loop in which call `t`, new or just woken, becomes `task`. */
  ghost predicate Passed(w: World, t: nat, task: Task, w': World) {
    && t <= |w.tasks| && (t < |w.tasks| ==> Runnable(w, t))
    && w'.tasks == (if t < |w.tasks| then w.tasks[t := task] else w.tasks + [task])
    && (task, w'.(tasks := w.tasks)) == Attempt(w, task.invoice)
  }

  lemma PassedPromises(w: World, t: nat, task: Task, w': World)
    requires Invariant(w) && Passed(w, t, task, w')
    ensures OwnPromises(w')
  {
    if task.Waiting? {
      var h :| Holds(w, h) && w.tasks[h] == Granted(task.invoice, task.promise);
    }
    assert forall u :: 0 <= u < |w'.tasks| && u != t ==> w'.tasks[u] == w.tasks[u];
  }

  lemma PassedEntries(w: World, t: nat, task: Task, w': World)
    requires Invariant(w) && Passed(w, t, task, w')
    ensures EntriesHeld(w')
  {
    forall j | j in w'.locks ensures exists u :: Holds(w', u) && w'.tasks[u] == Granted(j, w'.locks[j]) {
      if j !in w.locks {
        assert Holds(w', t);
      } else {
        var u :| Holds(w, u) && w.tasks[u] == Granted(j, w.locks[j]);
        assert Holds(w', u);
      }
    }
  }

  lemma PassedOwners(w: World, t: nat, task: Task, w': World)
    requires Invariant(w) && Passed(w, t, task, w')
    ensures HoldersOwn(w')
  {
    assert forall u | Holds(w', u) && u != t :: Holds(w, u) && w'.tasks[u] == w.tasks[u];
  }

  lemma PassedSleepers(w: World, t: nat, task: Task, w': World)
    requires Invariant(w) && Passed(w, t, task, w')
    ensures SleepersWatchHolder(w')
  {
    assert forall u | Waits(w', u) && !Runnable(w', u) && u != t ::
      Waits(w, u) && !Runnable(w, u) && w'.tasks[u] == w.tasks[u];
  }

  lemma PassKeeps(w: World, t: nat, task: Task, w': World)
    requires Invariant(w) && Passed(w, t, task, w')
    ensures Invariant(w')
  {
    PassedPromises(w, t, task, w');
    PassedEntries(w, t, task, w');
    PassedOwners(w, t, task, w');
    PassedSleepers(w, t, task, w');
  }

  /** The release closure of a call that no longer holds the lock changes nothing at all. */
  lemma StaleReleaseIsInert(w: World, t: nat)
    requires Invariant(w) && t < |w.tasks| && w.tasks[t].Granted? && !Holds(w, t)
    ensures Enabled(w, Release(t)) && Step(w, Release(t)) == w
  {
    assert w.resolved + {w.tasks[t].promise} == w.resolved;
  }

  lemma ReleasedEntries(w: World, t: nat)
    requires Invariant(w) && Holds(w, t)
    ensures EntriesHeld(Step(w, Release(t)))
  {
    var w' := Step(w, Release(t));
    assert w'.locks == w.locks - {w.tasks[t].invoice};
    forall j | j in w'.locks ensures exists u :: Holds(w', u) && w'.tasks[u] == Granted(j, w'.locks[j]) {
      var u :| Holds(w, u) && w.tasks[u] == Granted(j, w.locks[j]);
      assert u != t;
      assert Holds(w', u);
    }
  }

  lemma ReleasedOwners(w: World, t: nat)
    requires Invariant(w) && Holds(w, t)
    ensures HoldersOwn(Step(w, Release(t))) && SleepersWatchHolder(Step(w, Release(t)))
  {
    var w' := Step(w, Release(t));
    assert w'.locks == w.locks - {w.tasks[t].invoice};
    assert forall u | Holds(w', u) :: Holds(w, u);
    assert forall u | Waits(w', u) && !Runnable(w', u) :: Waits(w, u) && !Runnable(w, u);
  }

  lemma ReleaseKeeps(w: World, t: nat)
    requires Invariant(w) && Holds(w, t)
    ensures Invariant(Step(w, Release(t)))
  {
    ReleasedEntries(w, t);
    ReleasedOwners(w, t);
  }

  lemma StepKeeps(w: World, e: Event)
    requires Invariant(w) && Enabled(w, e)
    ensures Invariant(Step(w, e))
  {
    match e
    case Acquire(i) =>
      PassKeeps(w, |w.tasks|, Attempt(w, i).0, Step(w, e));
    case Wake(t) =>
      PassKeeps(w, t, Attempt(w, w.tasks[t].invoice).0, Step(w, e));
    case Release(t) =>
      if Holds(w, t) { ReleaseKeeps(w, t); } else { StaleReleaseIsInert(w, t); }
  }

  lemma ReleaseOnce(w: World, t: nat)
    requires Invariant(w) && Enabled(w, Release(t))
    ensures Invariant(Step(w, Release(t))) && !Holds(Step(w, Release(t)), t)
    ensures !Holds(w, t) ==> Step(w, Release(t)) == w
  {
    StepKeeps(w, Release(t));
    if !Holds(w, t) { StaleReleaseIsInert(w, t); }
  }

  // ---------- Runs ----------

  ghost predicate Run(w: World, events: seq<Event>)
    decreases |events|
  {
    events == [] || (Enabled(w, events[0]) && Run(Step(w, events[0]), events[1..]))
  }

  ghost function After(w: World, events: seq<Event>): World
    requires Run(w, events)
    decreases |events|
  {
    if events == [] then w else After(Step(w, events[0]), events[1..])
  }

  lemma {:induction false} RunKeeps(w: World, events: seq<Event>)
    requires Invariant(w) && Run(w, events)
    ensures Invariant(After(w, events))
    decreases |events|
  {
    if events != [] {
      StepKeeps(w, events[0]);
      RunKeeps(Step(w, events[0]), events[1..]);
    }
  }

  /**
   * Mutual exclusion over every run: two unreleased holders are the same call or
   * work on different invoices, the table lists exactly the invoices being held,
   * and a call that sleeps on a free invoice can resume.
   */
  lemma MutualExclusion(events: seq<Event>)
    requires Run(INITIAL, events)
    ensures var w := After(INITIAL, events);
      && (forall t, u | Holds(w, t) && Holds(w, u) && w.tasks[t].invoice == w.tasks[u].invoice :: t == u)
      && (forall i :: i in w.locks <==> exists t :: Holds(w, t) && w.tasks[t].invoice == i)
      && (forall t | Waits(w, t) && w.tasks[t].invoice !in w.locks :: Runnable(w, t))
  {
    RunKeeps(INITIAL, events);
  }

  // ---------- Histories ----------

  /** What an outside observer sees of a step. */
  datatype Mark = Got(invoice: Invoice, task: nat) | Gave(invoice: Invoice, task: nat) | Nothing

  function Observed(w: World, e: Event): Mark
    requires Enabled(w, e)
  {
    match e
    case Acquire(i) => if i in w.locks then Nothing else Got(i, |w.tasks|)
    case Wake(t) => if w.tasks[t].invoice in w.locks then Nothing else Got(w.tasks[t].invoice, t)
    case Release(t) => if Holds(w, t) then Gave(w.tasks[t].invoice, t) else Nothing
  }

  ghost function History(w: World, events: seq<Event>): (h: seq<Mark>)
    requires Run(w, events)
    ensures |h| == |events|
    decreases |events|
  {
    if events == [] then [] else [Observed(w, events[0])] + History(Step(w, events[0]), events[1..])
  }

  /** Call `t` is inside its critical section on `i`. */
  predicate Inside(w: World, i: Invoice, t: int) {
    Holds(w, t) && w.tasks[t].invoice == i
  }

  lemma InsideStep(w: World, e: Event, i: Invoice, t: nat)
    requires Invariant(w) && Enabled(w, e) && Inside(w, i, t)
    ensures Observed(w, e) == Gave(i, t) || Inside(Step(w, e), i, t)
    ensures forall u :: Observed(w, e) != Got(i, u)
  {
    if e.Release? && e.task != t {
      assert w.tasks[e.task].promise != w.tasks[t].promise;
    }
  }

  lemma GotIsInside(w: World, e: Event, i: Invoice, t: nat)
    requires Invariant(w) && Enabled(w, e) && Observed(w, e) == Got(i, t)
    ensures Inside(Step(w, e), i, t)
  {
  }

  /** A holder has to give the invoice back before anyone gets it again. */
  lemma {:induction false} GivenBackFirst(w: World, events: seq<Event>, i: Invoice, t: nat, b: nat, u: nat)
    requires Invariant(w) && Run(w, events) && Inside(w, i, t)
    requires b < |events| && History(w, events)[b] == Got(i, u)
    ensures exists c :: 0 <= c < b && History(w, events)[c] == Gave(i, t)
    decreases |events|
  {
    var w' := Step(w, events[0]);
    StepKeeps(w, events[0]);
    InsideStep(w, events[0], i, t);
    if Observed(w, events[0]) == Gave(i, t) {
      assert History(w, events)[0] == Gave(i, t);
    } else {
      assert History(w, events)[b] == History(w', events[1..])[b - 1];
      GivenBackFirst(w', events[1..], i, t, b - 1, u);
      var c :| 0 <= c < b - 1 && History(w', events[1..])[c] == Gave(i, t);
      assert History(w, events)[c + 1] == Gave(i, t);
    }
  }

  lemma {:induction false} GrantsDoNotOverlapFrom(w: World, events: seq<Event>, i: Invoice, a: nat, t: nat, b: nat, u: nat)
    requires Invariant(w) && Run(w, events)
    requires a < b < |events| && History(w, events)[a] == Got(i, t) && History(w, events)[b] == Got(i, u)
    ensures exists c :: a < c < b && History(w, events)[c] == Gave(i, t)
    decreases |events|
  {
    var w', rest := Step(w, events[0]), events[1..];
    StepKeeps(w, events[0]);
    assert forall k :: 0 < k < |events| ==> History(w, events)[k] == History(w', rest)[k - 1];
    if a == 0 {
      GotIsInside(w, events[0], i, t);
      GivenBackFirst(w', rest, i, t, b - 1, u);
    } else {
      GrantsDoNotOverlapFrom(w', rest, i, a - 1, t, b - 1, u);
    }
    var c :| a <= c < b - 1 && History(w', rest)[c] == Gave(i, t);
    assert History(w, events)[c + 1] == Gave(i, t);
  }

  /** In every run, between two grants of one invoice the earlier holder released it. */
  lemma GrantsDoNotOverlap(events: seq<Event>, i: Invoice, a: nat, t: nat, b: nat, u: nat)
    requires Run(INITIAL, events)
    requires a < b < |events| && History(INITIAL, events)[a] == Got(i, t) && History(INITIAL, events)[b] == Got(i, u)
    ensures exists c :: a < c < b && History(INITIAL, events)[c] == Gave(i, t)
  {
    GrantsDoNotOverlapFrom(INITIAL, events, i, a, t, b, u);
  }

  // ---------- Progress ----------

  /** The steps that serve calls already made: a wake-up, or a holder's first release. */
  predicate Serving(w: World, e: Event) {
    (e.Wake? && Runnable(w, e.task)) || (e.Release? && Holds(w, e.task))
  }

  ghost predicate ServingRun(w: World, events: seq<Event>)
    decreases |events|
  {
    events == [] || (Serving(w, events[0]) && ServingRun(Step(w, events[0]), events[1..]))
  }

  /** How many calls among the first `n` sleep, can resume, or hold a lock. */
  function Waiters(w: World, n: nat): nat
    requires n <= |w.tasks|
  {
    if n == 0 then 0 else Waiters(w, n - 1) + if Waits(w, n - 1) then 1 else 0
  }

  function Resumable(w: World, n: nat): nat
    requires n <= |w.tasks|
  {
    if n == 0 then 0 else Resumable(w, n - 1) + if Runnable(w, n - 1) then 1 else 0
  }

  function Holders(w: World, n: nat): nat
    requires n <= |w.tasks|
  {
    if n == 0 then 0 else Holders(w, n - 1) + if Holds(w, n - 1) then 1 else 0
  }

  /** Bounds the steps that can still be needed to serve everyone. */
  function Work(waiters: nat, resumable: nat, holders: nat): nat {
    resumable + holders * (waiters + 1) + waiters * waiters
  }

  function WorkLeft(w: World): nat {
    Work(Waiters(w, |w.tasks|), Resumable(w, |w.tasks|), Holders(w, |w.tasks|))
  }

  lemma {:induction false} ResumableAreWaiters(w: World, n: nat)
    requires n <= |w.tasks|
    ensures Resumable(w, n) <= Waiters(w, n)
  {
    if n > 0 { ResumableAreWaiters(w, n - 1); }
  }

  /** The counts move by what happens to call `t`, when the other calls keep their part in them. */
  lemma {:induction false} CountsMove(w: World, w': World, t: nat, n: nat)
    requires t < |w.tasks| == |w'.tasks| && n <= |w.tasks|
    requires forall u :: 0 <= u < |w.tasks| && u != t ==>
      (Waits(w', u) <==> Waits(w, u)) && (Runnable(w', u) <==> Runnable(w, u)) && (Holds(w', u) <==> Holds(w, u))
    ensures Waiters(w', n) == Waiters(w, n) + if t < n then (if Waits(w', t) then 1 else 0) - (if Waits(w, t) then 1 else 0) else 0
    ensures Resumable(w', n) == Resumable(w, n) + if t < n then (if Runnable(w', t) then 1 else 0) - (if Runnable(w, t) then 1 else 0) else 0
    ensures Holders(w', n) == Holders(w, n) + if t < n then (if Holds(w', t) then 1 else 0) - (if Holds(w, t) then 1 else 0) else 0
  {
    if n > 0 { CountsMove(w, w', t, n - 1); }
  }

  lemma {:induction false} ReleaseCounts(w: World, w': World, t: nat, n: nat)
    requires t < |w.tasks| && w'.tasks == w.tasks && n <= |w.tasks| && Holds(w, t) && !Holds(w', t)
    requires forall u :: 0 <= u < |w.tasks| && u != t ==> (Holds(w', u) <==> Holds(w, u))
    ensures Waiters(w', n) == Waiters(w, n)
    ensures Holders(w', n) == Holders(w, n) - if t < n then 1 else 0
  {
    if n > 0 { ReleaseCounts(w, w', t, n - 1); }
  }

  lemma GrantPays(waiters: nat, resumable: nat, holders: nat)
    requires waiters > 0 && resumable > 0
    ensures Work(waiters - 1, resumable - 1, holders + 1) < Work(waiters, resumable, holders)
  {
    assert (holders + 1) * waiters == holders * waiters + waiters;
    assert holders * (waiters + 1) == holders * waiters + holders;
    assert (waiters - 1) * (waiters - 1) == waiters * waiters - 2 * waiters + 1;
  }

  lemma ReleasePays(waiters: nat, resumable: nat, resumable': nat, holders: nat)
    requires holders > 0 && resumable' <= waiters
    ensures Work(waiters, resumable', holders - 1) < Work(waiters, resumable, holders)
  {
    assert (holders - 1) * (waiters + 1) == holders * (waiters + 1) - (waiters + 1);
  }

  lemma WakeUses(w: World, t: nat)
    requires Invariant(w) && Runnable(w, t)
    ensures WorkLeft(Step(w, Wake(t))) < WorkLeft(w)
  {
    var w', n := Step(w, Wake(t)), |w.tasks|;
    var i := w.tasks[t].invoice;
    CountsMove(w, w', t, n);
    ResumableAreWaiters(w, n);
    if i !in w.locks {
      assert Holds(w', t);
      GrantPays(Waiters(w, n), Resumable(w, n), Holders(w, n));
    } else {
      var h :| Holds(w, h) && w.tasks[h] == Granted(i, w.locks[i]);
      assert !Runnable(w', t) && Waits(w', t);
    }
  }

  lemma ReleaseUses(w: World, t: nat)
    requires Invariant(w) && Holds(w, t)
    ensures WorkLeft(Step(w, Release(t))) < WorkLeft(w)
  {
    var w', n := Step(w, Release(t)), |w.tasks|;
    ReleaseCounts(w, w', t, n);
    ResumableAreWaiters(w', n);
    ReleasePays(Waiters(w, n), Resumable(w, n), Resumable(w', n), Holders(w, n));
  }

  /** However wake-ups and first releases are scheduled, they end after at most WorkLeft steps. */
  lemma {:induction false} ServingEnds(w: World, events: seq<Event>)
    requires Invariant(w) && ServingRun(w, events)
    ensures Run(w, events) && |events| <= WorkLeft(w)
    decreases |events|
  {
    if events != [] {
      StepKeeps(w, events[0]);
      if events[0].Wake? { WakeUses(w, events[0].task); } else { ReleaseUses(w, events[0].task); }
      ServingEnds(Step(w, events[0]), events[1..]);
    }
  }

  /** Nobody is left behind: when no serving step remains, no call sleeps and no invoice is locked. */
  lemma NobodyLeftBehind(w: World)
    requires Invariant(w) && forall e :: !Serving(w, e)
    ensures w.locks == map[] && forall t :: 0 <= t < |w.tasks| ==> w.tasks[t].Granted?
  {
    forall i | i in w.locks ensures false {
      var t :| Holds(w, t) && w.tasks[t] == Granted(i, w.locks[i]);
      assert Serving(w, Release(t));
    }
    forall t | 0 <= t < |w.tasks| ensures w.tasks[t].Granted? {
      assert !Serving(w, Wake(t));
    }
  }

  // ---------- The lock is not first come, first served ----------

  /** The holder releases, a newcomer takes the invoice, and call `1` wakes up too late; `n` times over. */
  function Overtaking(i: Invoice, holder: nat, calls: nat, n: nat): seq<Event>
    decreases n
  {
    if n == 0 then [] else [Release(holder), Acquire(i), Wake(1)] + Overtaking(i, calls, calls + 1, n - 1)
  }

  /** One round of it: call `1` still sleeps, on the newcomer's promise. */
  lemma OvertakenOnce(w: World, i: Invoice, holder: nat)
    requires Invariant(w) && Inside(w, i, holder) && |w.tasks| > 1 && w.tasks[1] == Waiting(i, w.locks[i])
    ensures var round := [Release(holder), Acquire(i), Wake(1)];
      Run(w, round) &&
      var w' := After(w, round);
      && Invariant(w') && Inside(w', i, |w.tasks|)
      && |w'.tasks| == |w.tasks| + 1 && w'.tasks[1] == Waiting(i, w'.locks[i])
  {
    var round := [Release(holder), Acquire(i), Wake(1)];
    var w1 := Step(w, Release(holder));
    StepKeeps(w, Release(holder));
    var w2 := Step(w1, Acquire(i));
    StepKeeps(w1, Acquire(i));
    var w3 := Step(w2, Wake(1));
    StepKeeps(w2, Wake(1));
    assert round[1..] == [Acquire(i), Wake(1)] && round[1..][1..] == [Wake(1)] && round[1..][1..][1..] == [];
    assert Run(w3, []) && After(w3, []) == w3;
    assert Run(w2, [Wake(1)]) && After(w2, [Wake(1)]) == w3;
    assert Run(w1, round[1..]) && After(w1, round[1..]) == w3;
  }

  lemma {:induction false} RunAppend(w: World, xs: seq<Event>, ys: seq<Event>)
    requires Run(w, xs) && Run(After(w, xs), ys)
    ensures Run(w, xs + ys) && After(w, xs + ys) == After(After(w, xs), ys)
    decreases |xs|
  {
    if xs == [] {
      assert xs + ys == ys;
    } else {
      RunAppend(Step(w, xs[0]), xs[1..], ys);
      assert (xs + ys)[1..] == xs[1..] + ys;
    }
  }

  /** A call that has returned stays returned, and a sleeping one goes on asking for the same invoice. */
  lemma {:induction false} CallsPersist(w: World, events: seq<Event>)
    requires Run(w, events)
    ensures |After(w, events).tasks| >= |w.tasks|
    ensures forall t :: 0 <= t < |w.tasks| ==> After(w, events).tasks[t].invoice == w.tasks[t].invoice
    ensures forall t :: 0 <= t < |w.tasks| && w.tasks[t].Granted? ==> After(w, events).tasks[t] == w.tasks[t]
    decreases |events|
  {
    if events != [] { CallsPersist(Step(w, events[0]), events[1..]); }
  }

  /** Call `1` sleeps while all the calls made since `first` have been granted the invoice. */
  ghost predicate Overtaken(w: World, i: Invoice, first: nat, n: nat) {
    && |w.tasks| == first + n && first > 1
    && w.tasks[1].Waiting? && w.tasks[1].invoice == i
    && forall t :: first <= t < first + n ==> w.tasks[t].Granted? && w.tasks[t].invoice == i
  }

  lemma {:induction false} OvertakenFrom(w: World, i: Invoice, holder: nat, n: nat)
    requires Invariant(w) && Inside(w, i, holder) && |w.tasks| > 1 && w.tasks[1] == Waiting(i, w.locks[i])
    ensures Run(w, Overtaking(i, holder, |w.tasks|, n))
    ensures Overtaken(After(w, Overtaking(i, holder, |w.tasks|, n)), i, |w.tasks|, n)
    decreases n
  {
    if n > 0 {
      var m := |w.tasks|;
      var round, tail := [Release(holder), Acquire(i), Wake(1)], Overtaking(i, m, m + 1, n - 1);
      OvertakenOnce(w, i, holder);
      var w' := After(w, round);
      OvertakenFrom(w', i, m, n - 1);
      RunAppend(w, round, tail);
      CallsPersist(w', tail);
    }
  }

  /** The second caller of an invoice can be overtaken by any number of later callers. */
  lemma Starvation(i: Invoice, n: nat)
    ensures exists events :: Run(INITIAL, events) && Overtaken(After(INITIAL, events), i, 2, n)
  {
    var w1 := Step(INITIAL, Acquire(i));
    var w2 := Step(w1, Acquire(i));
    StepKeeps(INITIAL, Acquire(i));
    StepKeeps(w1, Acquire(i));
    OvertakenFrom(w2, i, 0, n);
    var start, tail := [Acquire(i), Acquire(i)], Overtaking(i, 0, 2, n);
    assert start[1..] == [Acquire(i)] && start[1..][1..] == [];
    assert Run(w2, []) && After(w2, []) == w2;
    assert Run(w1, start[1..]) && After(w1, start[1..]) == w2;
    RunAppend(INITIAL, start, tail);
  }

  // ---------- How far a caller can be overtaken ----------

  /** How many of the first `n` calls sleep for the invoice. */
  function Asleep(w: World, i: Invoice, n: nat): nat
    requires n <= |w.tasks|
  {
    if n == 0 then 0 else Asleep(w, i, n - 1) + if w.tasks[n - 1].Waiting? && w.tasks[n - 1].invoice == i then 1 else 0
  }

  function WaitersOn(w: World, i: Invoice): nat {
    Asleep(w, i, |w.tasks|)
  }

  function Grants(history: seq<Mark>, i: Invoice): nat {
    if history == [] then 0 else (if history[0].Got? && history[0].invoice == i then 1 else 0) + Grants(history[1..], i)
  }

  function Entries(events: seq<Event>, i: Invoice): nat {
    if events == [] then 0 else (if events[0] == Acquire(i) then 1 else 0) + Entries(events[1..], i)
  }

  lemma {:induction false} AsleepSame(w: World, w': World, i: Invoice, n: nat)
    requires n <= |w.tasks| && n <= |w'.tasks| && forall t :: 0 <= t < n ==> w'.tasks[t] == w.tasks[t]
    ensures Asleep(w', i, n) == Asleep(w, i, n)
  {
    if n > 0 { AsleepSame(w, w', i, n - 1); }
  }

  lemma {:induction false} AsleepChanged(w: World, w': World, i: Invoice, t: nat, n: nat)
    requires t < n <= |w.tasks| == |w'.tasks| && forall u :: 0 <= u < n && u != t ==> w'.tasks[u] == w.tasks[u]
    requires w.tasks[t].Waiting? && w'.tasks[t].invoice == w.tasks[t].invoice
    ensures Asleep(w', i, n) == Asleep(w, i, n) - if w'.tasks[t].Granted? && w.tasks[t].invoice == i then 1 else 0
  {
    if t == n - 1 { AsleepSame(w, w', i, n - 1); } else { AsleepChanged(w, w', i, t, n - 1); }
  }

  /** A step lets one more call sleep, or one less, or neither. */
  lemma StepAsleep(w: World, e: Event, i: Invoice)
    requires Enabled(w, e)
    ensures var mark := Observed(w, e);
      WaitersOn(Step(w, e), i) + (if mark.Got? && mark.invoice == i then 1 else 0) == WaitersOn(w, i) + if e == Acquire(i) then 1 else 0
  {
    var w', n := Step(w, e), |w.tasks|;
    match e
    case Acquire(_) => AsleepSame(w, w', i, n);
    case Wake(t) => AsleepChanged(w, w', i, t, n);
    case Release(_) => AsleepSame(w, w', i, n);
  }

  /**
   * Over every run, the grants of an invoice are the calls that were asleep for it before plus those
   * that entered since, less those asleep for it after.
   */
  lemma {:induction false} GrantsAccounted(w: World, events: seq<Event>, i: Invoice)
    requires Run(w, events)
    ensures Grants(History(w, events), i) + WaitersOn(After(w, events), i) == WaitersOn(w, i) + Entries(events, i)
    decreases |events|
  {
    if events != [] {
      StepAsleep(w, events[0], i);
      GrantsAccounted(Step(w, events[0]), events[1..], i);
      assert History(w, events)[1..] == History(Step(w, events[0]), events[1..]);
    }
  }

  lemma {:induction false} AsleepCounts(w: World, i: Invoice, t: nat, n: nat)
    requires t < n <= |w.tasks| && w.tasks[t].Waiting? && w.tasks[t].invoice == i
    ensures Asleep(w, i, n) >= 1
  {
    if t < n - 1 { AsleepCounts(w, i, t, n - 1); }
  }

  /** While a call sleeps it is overtaken at most by the other calls asleep when it entered and by those that entered since. */
  lemma OvertakingIsBounded(w: World, events: seq<Event>, i: Invoice, t: nat)
    requires Run(w, events) && t < |w.tasks| && w.tasks[t].Waiting? && w.tasks[t].invoice == i
    requires |After(w, events).tasks| > t && After(w, events).tasks[t].Waiting?
    ensures Grants(History(w, events), i) <= WaitersOn(w, i) - 1 + Entries(events, i)
  {
    var w' := After(w, events);
    GrantsAccounted(w, events, i);
    CallsPersist(w, events);
    AsleepCounts(w', i, t, |w'.tasks|);
  }

  // ---------- The object ----------

  class InvoiceLockManager {
    var locks: map<Invoice, Promise>
    var made: nat
    var resolved: set<Promise>
    var tasks: seq<Task>

    function State(): World
      reads this
    {
      World(locks, made, resolved, tasks)
    }

    ghost predicate Valid()
      reads this
    {
      Invariant(State())
    }

    constructor ()
      ensures Valid() && State() == INITIAL
    {
      locks, made, resolved, tasks := map[], 0, {}, [];
    }

    /** The loop body and what follows it, up to the next await or the return. */
    method Pass(i: Invoice) returns (task: Task)
      modifies this`locks, this`made
      ensures (task, State()) == Attempt(old(State()), i)
    {
      if i in locks {
        task := Waiting(i, locks[i]);
      } else {
        task := Granted(i, made);
        locks, made := locks[i := made], made + 1;
      }
    }

    method EnterAcquire(i: Invoice) returns (t: nat)
      requires Valid()
      modifies this
      ensures Valid() && State() == Step(old(State()), Acquire(i)) && t == |old(tasks)|
      ensures Holds(State(), t) <==> !old(i in locks)
    {
      StepKeeps(State(), Acquire(i));
      t := |tasks|;
      var task := Pass(i);
      tasks := tasks + [task];
    }

    method Resume(t: nat)
      requires Valid() && t < |tasks| && tasks[t].Waiting? && tasks[t].promise in resolved
      modifies this
      ensures Valid() && State() == Step(old(State()), Wake(t))
    {
      StepKeeps(State(), Wake(t));
      var task := Pass(tasks[t].invoice);
      tasks := tasks[t := task];
    }

    /** The release closure of call `t`, run for the first time or again. */
    method CallRelease(t: nat)
      requires Valid() && t < |tasks| && tasks[t].Granted?
      modifies this`locks, this`resolved
      ensures Valid() && State() == Step(old(State()), Release(t))
      ensures !old(Holds(State(), t)) ==> State() == old(State())
      ensures !Holds(State(), t)
    {
      ReleaseOnce(State(), t);
      var i, p := tasks[t].invoice, tasks[t].promise;
      if i in locks && locks[i] == p {
        locks := locks - {i};
      }
      resolved := resolved + {p};
      assert State() == Step(old(State()), Release(t));
    }

    method IsLocked(i: Invoice) returns (r: bool)
      requires Valid()
      ensures r <==> exists t :: Inside(State(), i, t)
    {
      r := i in locks;
      if r {
        var t :| Holds(State(), t) && tasks[t] == Granted(i, locks[i]);
        assert Inside(State(), i, t);
      }
    }
  }
}
