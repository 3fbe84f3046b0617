/**
 * The SLA engine: workflows enter a state with a deadline, are evaluated now and then, are
 * escalated by hand, and are resolved.
 */
module WorkflowSla {
  import opened Basics

  datatype Status = OnTime | Overdue | Escalated | Resolved

  /** Periods in seconds. */
  datatype PolicyFields = PolicyFields(dueSecs: int, escalationAfterSecs: int, maxLevel: nat)

  type Policy = p: PolicyFields | p.escalationAfterSecs > 0 witness PolicyFields(1, 1, 0)

  datatype Escalation = Escalation(level: nat, actor: string, reason: string, at: int)

  /** Times in milliseconds. */
  datatype Sla = Sla(
    state: string, enteredAt: int, dueAt: int, status: Status, level: nat, resolvedAt: Option<int>,
    history: seq<Escalation>)

  // ---------- One workflow ----------

  function Entered(state: string, p: Policy, now: int): Sla {
    Sla(state, now, now + p.dueSecs * 1000, OnTime, 0, None, [])
  }

  /** How far the clock alone has escalated a workflow. */
  function LevelAt(p: Policy, dueAt: int, now: int): nat {
    if now < dueAt then 0
    else
      FirstPeriod(now - dueAt, p.escalationAfterSecs * 1000);
      var periods := (now - dueAt) / (p.escalationAfterSecs * 1000);
      if periods < p.maxLevel then periods else p.maxLevel
  }

  function StatusAt(p: Policy, dueAt: int, now: int): Status {
    if now < dueAt then OnTime else if LevelAt(p, dueAt, now) > 0 then Escalated else Overdue
  }

  function Evaluated(s: Sla, p: Policy, now: int): Sla {
    if s.status == Resolved || now < s.dueAt then s
    else
      var level := LevelAt(p, s.dueAt, now);
      var s := s.(status := StatusAt(p, s.dueAt, now));
      if level > s.level then s.(level := level, history := s.history + [Escalation(level, "system", AUTOMATIC, now)]) else s
  }

  const AUTOMATIC := "Automatic escalation: SLA deadline exceeded"

  function Escalate(s: Sla, p: Policy, actor: string, reason: string, now: int): Sla {
    var level := if s.level + 1 < p.maxLevel then s.level + 1 else p.maxLevel;
    s.(level := level, status := Escalated, history := s.history + [Escalation(level, actor, reason, now)])
  }

  function Resolve(s: Sla, now: int): Sla {
    s.(status := Resolved, resolvedAt := Some(now))
  }

  /** The deadline lies the policy's seconds behind the entry, and a fresh workflow is on time at level zero. */
  lemma EnteredExactly(state: string, p: Policy, now: int)
    ensures var s := Entered(state, p, now);
      && s.state == state && s.enteredAt == now && s.dueAt == now + 1000 * p.dueSecs
      && s.status == OnTime && s.level == 0 && s.resolvedAt == None && s.history == []
  {
  }

  /** The level is the largest number of whole periods, up to the maximum, that have passed since the deadline. */
  lemma LevelExactly(p: Policy, dueAt: int, now: int, n: nat)
    ensures n <= LevelAt(p, dueAt, now) <==>
      n <= p.maxLevel && (n > 0 ==> dueAt + n * (p.escalationAfterSecs * 1000) <= now)
  {
    var d := p.escalationAfterSecs * 1000;
    if now >= dueAt {
      PeriodsPassed(now - dueAt, d, n);
    } else if n > 0 {
      AtLeastOne(n, d);
    }
  }

  lemma AtLeastOne(n: nat, d: nat)
    requires n > 0 && d > 0
    ensures n * d >= d
  {
  }

  lemma PeriodsPassed(x: nat, d: nat, n: nat)
    requires d > 0
    ensures n <= x / d <==> n * d <= x
  {
    var y := x / d;
    assert x == d * y + x % d;
    if n <= y { assert n * d <= y * d; } else { assert n * d >= (y + 1) * d; }
  }

  /** A manual escalation goes up by one, stops at the maximum, and is recorded with who, why and when. */
  lemma EscalateExactly(s: Sla, p: Policy, actor: string, reason: string, now: int)
    ensures var r := Escalate(s, p, actor, reason, now);
      && r.status == Escalated && r.level == (if s.level < p.maxLevel then s.level + 1 else p.maxLevel)
      && r.history == s.history + [Escalation(r.level, actor, reason, now)]
      && r.dueAt == s.dueAt && r.enteredAt == s.enteredAt && r.state == s.state && r.resolvedAt == s.resolvedAt
  {
  }

  /** An evaluation past the deadline, in full: the level never falls, a rise is recorded, and the status says whether a level is due. */
  lemma EvaluatedExactly(s: Sla, p: Policy, now: int)
    ensures var r, due := Evaluated(s, p, now), LevelAt(p, s.dueAt, now);
      if s.status == Resolved || now < s.dueAt then r == s
      else
        && r.level == (if due > s.level then due else s.level)
        && r.status == (if due > 0 then Escalated else Overdue)
        && r.history == s.history + (if due > s.level then [Escalation(due, "system", "Automatic escalation: SLA deadline exceeded", now)] else [])
        && r.dueAt == s.dueAt && r.enteredAt == s.enteredAt && r.state == s.state && r.resolvedAt == s.resolvedAt
  {
  }

  // ---------- Lazy evaluation ----------

  function EvaluatedAll(s: Sla, p: Policy, times: seq<int>): Sla {
    if times == [] then s else Evaluated(EvaluatedAll(s, p, times[..|times| - 1]), p, times[|times| - 1])
  }

  function Max(a: int, b: int): int {
    if a < b then b else a
  }

  function Latest(times: seq<int>): int
    requires times != []
  {
    if |times| == 1 then times[0] else Max(Latest(times[..|times| - 1]), times[|times| - 1])
  }

  lemma LevelRises(p: Policy, dueAt: int, now: int, later: int)
    requires now <= later
    ensures LevelAt(p, dueAt, now) <= LevelAt(p, dueAt, later)
  {
    if now >= dueAt {
      Quotients(now - dueAt, later - dueAt, p.escalationAfterSecs * 1000);
    }
  }

  lemma Quotients(a: nat, b: nat, d: nat)
    requires a <= b && d > 0
    ensures 0 <= a / d <= b / d
  {
    var x, y := a / d, b / d;
    assert a == d * x + a % d && b == d * y + b % d;
    assert x > y ==> d * x >= d * (y + 1);
  }

  /** However often and in whatever order a workflow is evaluated, its level is the one of the latest time. */
  lemma {:induction false} LevelOfLatest(s: Sla, p: Policy, times: seq<int>)
    requires s.status != Resolved && times != []
    ensures var r := EvaluatedAll(s, p, times);
      r.status != Resolved && r.dueAt == s.dueAt && r.level == Max(s.level, LevelAt(p, s.dueAt, Latest(times)))
    decreases |times|
  {
    var n := |times| - 1;
    var before, now := times[..n], times[n];
    if n == 0 {
      assert EvaluatedAll(s, p, before) == s;
    } else {
      LevelOfLatest(s, p, before);
      if Latest(before) <= now {
        LevelRises(p, s.dueAt, Latest(before), now);
      } else {
        LevelRises(p, s.dueAt, now, Latest(before));
      }
    }
  }

  ghost predicate Rising(times: seq<int>) {
    forall i, j :: 0 <= i < j < |times| ==> times[i] <= times[j]
  }

  lemma {:induction false} LatestIsLast(times: seq<int>)
    requires times != [] && Rising(times)
    ensures Latest(times) == times[|times| - 1]
  {
    if |times| > 1 { LatestIsLast(times[..|times| - 1]); }
  }

  lemma {:induction false} StatusOfLast(s: Sla, p: Policy, times: seq<int>)
    requires s.status != Resolved && times != [] && Rising(times)
    ensures EvaluatedAll(s, p, times).status ==
      if times[|times| - 1] < s.dueAt then s.status else StatusAt(p, s.dueAt, times[|times| - 1])
    decreases |times|
  {
    var n := |times| - 1;
    if n == 0 {
      assert EvaluatedAll(s, p, times[..0]) == s;
    } else {
      StatusOfLast(s, p, times[..n]);
      LevelOfLatest(s, p, times[..n]);
    }
  }

  /**
   * Lazy evaluation equals eager evaluation: evaluating at any rising times leaves the status and
   * the level that evaluating only at the last one leaves. For a workflow that was just entered
   * they are a function of the clock.
   */
  lemma LazyIsEager(s: Sla, p: Policy, times: seq<int>)
    requires s.status != Resolved && times != [] && Rising(times)
    ensures var eager, lazy := EvaluatedAll(s, p, times), Evaluated(s, p, times[|times| - 1]);
      && eager.status == lazy.status && eager.level == lazy.level
      && (s.status == OnTime && s.level == 0 ==>
          eager.status == StatusAt(p, s.dueAt, times[|times| - 1]) && eager.level == LevelAt(p, s.dueAt, times[|times| - 1]))
  {
    LevelOfLatest(s, p, times);
    StatusOfLast(s, p, times);
    LatestIsLast(times);
  }

  /**
   * Evaluation takes an escalated workflow back to overdue exactly when its deadline has passed by
   * less than one escalation period, or its policy has no levels.
   */
  lemma DemotesExactly(s: Sla, p: Policy, now: int)
    requires s.status == Escalated
    ensures Evaluated(s, p, now).status == Overdue <==>
      now >= s.dueAt && (now - s.dueAt < p.escalationAfterSecs * 1000 || p.maxLevel == 0)
    ensures Evaluated(s, p, now).status in {Escalated, Overdue} && Evaluated(s, p, now).level >= s.level
  {
    var d := p.escalationAfterSecs * 1000;
    if now >= s.dueAt {
      FirstPeriod(now - s.dueAt, d);
    }
  }

  lemma FirstPeriod(x: nat, d: nat)
    requires d > 0
    ensures 0 <= x / d && (x / d == 0 <==> x < d)
  {
    assert x == d * (x / d) + x % d;
  }

  // ---------- The engine ----------

  /** The policies by state, and the tracked workflows. */
  datatype Engine = Engine(policies: map<string, Policy>, store: map<string, Sla>)

  datatype Event =
    | Enter(id: string, state: string, now: int)
    | Evaluate(id: string, now: int)
    | EscalateBy(id: string, actor: string, reason: string, now: int)
    | ResolveBy(id: string, now: int)
    | SetPolicy(state: string, policy: Policy)

  /** Every tracked workflow is in a state that has a policy, as nothing ever removes one. */
  ghost predicate Covered(w: Engine) {
    forall id :: id in w.store ==> w.store[id].state in w.policies
  }

  /** One call; a call that throws changes nothing. */
  function Step(w: Engine, e: Event): Engine
    requires Covered(w)
  {
    match e
    case Enter(id, state, now) =>
      if state !in w.policies then w else w.(store := w.store[id := Entered(state, w.policies[state], now)])
    case Evaluate(id, now) =>
      if id !in w.store then w else w.(store := w.store[id := Evaluated(w.store[id], w.policies[w.store[id].state], now)])
    case EscalateBy(id, actor, reason, now) =>
      if id !in w.store || w.store[id].status == Resolved then w
      else w.(store := w.store[id := Escalate(w.store[id], w.policies[w.store[id].state], actor, reason, now)])
    case ResolveBy(id, now) =>
      if id !in w.store then w else w.(store := w.store[id := Resolve(w.store[id], now)])
    case SetPolicy(state, policy) => w.(policies := w.policies[state := policy])
  }

  /** The level is the last one recorded, or zero; a workflow is resolved exactly since it has a time for it. */
  ghost predicate Consistent(s: Sla) {
    && s.level == (if s.history == [] then 0 else s.history[|s.history| - 1].level)
    && (s.status == Resolved <==> s.resolvedAt.Some?)
  }

  ghost predicate Valid(w: Engine) {
    Covered(w) && forall id :: id in w.store ==> Consistent(w.store[id])
  }

  lemma StepKeeps(w: Engine, e: Event)
    requires Valid(w)
    ensures Valid(Step(w, e))
  {
  }

  /** A workflow is not above the top level of its policy, and its history never goes down. */
  ghost predicate Within(s: Sla, p: Policy) {
    s.level <= p.maxLevel && Climbs(s.history)
  }

  ghost predicate Bounded(w: Engine) {
    forall id :: id in w.store ==> w.store[id].state in w.policies && Within(w.store[id], w.policies[w.store[id].state])
  }

  ghost predicate Climbs(history: seq<Escalation>) {
    forall i, j :: 0 <= i < j < |history| ==> history[i].level <= history[j].level
  }

  lemma ClimbsOn(history: seq<Escalation>, next: Escalation)
    requires Climbs(history) && (history == [] || history[|history| - 1].level <= next.level)
    ensures Climbs(history + [next])
  {
    var h := history + [next];
    forall i, j | 0 <= i < j < |h| ensures h[i].level <= h[j].level {
      if j == |history| {
        assert h[i] == history[i] && history[i].level <= history[|history| - 1].level;
      }
    }
  }

  lemma EvaluatedWithin(s: Sla, p: Policy, now: int)
    requires Consistent(s) && Within(s, p)
    ensures Within(Evaluated(s, p, now), p)
  {
    var level := LevelAt(p, s.dueAt, now);
    if level > s.level { ClimbsOn(s.history, Escalation(level, "system", AUTOMATIC, now)); }
  }

  lemma EscalatedWithin(s: Sla, p: Policy, actor: string, reason: string, now: int)
    requires Consistent(s) && Within(s, p)
    ensures Within(Escalate(s, p, actor, reason, now), p)
  {
    ClimbsOn(s.history, Escalation(Escalate(s, p, actor, reason, now).level, actor, reason, now));
  }

  /** As long as no policy is changed. */
  lemma StepStaysBounded(w: Engine, e: Event)
    requires Valid(w) && Bounded(w) && !e.SetPolicy?
    ensures Bounded(Step(w, e))
  {
    match e
    case Evaluate(id, now) =>
      if id in w.store { EvaluatedWithin(w.store[id], w.policies[w.store[id].state], now); }
    case EscalateBy(id, actor, reason, now) =>
      if id in w.store { EscalatedWithin(w.store[id], w.policies[w.store[id].state], actor, reason, now); }
    case Enter(_, _, _) =>
    case ResolveBy(_, _) =>
  }

  /**
   * Apart from entering anew, a step lowers the level of a workflow exactly when someone escalates
   * it by hand after its policy's top level was set below the level it has.
   */
  lemma LevelFallsExactly(w: Engine, e: Event, id: string)
    requires Valid(w) && id in w.store && !(e.Enter? && e.id == id)
    ensures id in Step(w, e).store
    ensures Step(w, e).store[id].level < w.store[id].level <==>
      e.EscalateBy? && e.id == id && w.store[id].status != Resolved && w.policies[w.store[id].state].maxLevel < w.store[id].level
  {
  }

  // ---------- Whole runs ----------

  ghost function After(w: Engine, events: seq<Event>): Engine
    requires Valid(w)
    decreases |events|
  {
    if events == [] then w
    else
      StepKeeps(w, events[0]);
      After(Step(w, events[0]), events[1..])
  }

  lemma {:induction false} RunKeeps(w: Engine, events: seq<Event>)
    requires Valid(w)
    ensures Valid(After(w, events))
    decreases |events|
  {
    if events != [] {
      StepKeeps(w, events[0]);
      RunKeeps(Step(w, events[0]), events[1..]);
    }
  }

  /** With fixed policies, the level of a workflow never falls and never exceeds the top level. */
  lemma {:induction false} LevelsOverRuns(w: Engine, events: seq<Event>, id: string)
    requires Valid(w) && Bounded(w) && id in w.store
    requires forall e :: e in events ==> !e.SetPolicy? && !(e.Enter? && e.id == id)
    ensures var w' := After(w, events);
      id in w'.store && Bounded(w') && w'.store[id].level >= w.store[id].level
    decreases |events|
  {
    if events != [] {
      assert events[0] in events;
      StepKeeps(w, events[0]);
      StepStaysBounded(w, events[0]);
      LevelFallsExactly(w, events[0], id);
      LevelsOverRuns(Step(w, events[0]), events[1..], id);
    }
  }

  /** A resolved workflow stays so, with its level and history, until it enters a state again. */
  lemma {:induction false} ResolvedForGood(w: Engine, events: seq<Event>, id: string)
    requires Valid(w) && id in w.store && w.store[id].status == Resolved
    requires forall e :: e in events ==> !(e.Enter? && e.id == id && e.state in After(w, events).policies)
    ensures var w' := After(w, events);
      && id in w'.store && w'.store[id].status == Resolved
      && w'.store[id].level == w.store[id].level && w'.store[id].history == w.store[id].history
    decreases |events|
  {
    if events != [] {
      assert events[0] in events;
      StepKeeps(w, events[0]);
      PoliciesStay(Step(w, events[0]), events[1..]);
      ResolvedForGood(Step(w, events[0]), events[1..], id);
    }
  }

  lemma {:induction false} PoliciesStay(w: Engine, events: seq<Event>)
    requires Valid(w)
    ensures forall state :: state in w.policies ==> state in After(w, events).policies
    decreases |events|
  {
    if events != [] {
      StepKeeps(w, events[0]);
      PoliciesStay(Step(w, events[0]), events[1..]);
    }
  }

  // ---------- The object ----------

  class WorkflowSLAEngine {
    var registry: map<string, Policy>
    var store: map<string, Sla>

    ghost function State(): Engine
      reads this
    {
      Engine(registry, store)
    }

    ghost predicate Ok()
      reads this
    {
      Valid(State())
    }

    constructor (policies: map<string, Policy>)
      ensures Ok() && State() == Engine(policies, map[])
    {
      registry, store := policies, map[];
    }

    /** The registry's set: policies can be swapped at any time. */
    method ReplacePolicy(state: string, policy: Policy)
      requires Ok()
      modifies this`registry
      ensures Ok() && State() == Step(old(State()), SetPolicy(state, policy))
      ensures state in registry && registry[state] == policy
      ensures forall other :: other != state ==> (other in registry <==> other in old(registry)) && (other in registry ==> registry[other] == old(registry)[other])
    {
      StepKeeps(State(), SetPolicy(state, policy));
      registry := registry[state := policy];
    }

    /** The calls answer None where the original throws. */
    method EnterState(id: string, state: string, now: int) returns (r: Option<Sla>)
      requires Ok()
      modifies this`store
      ensures Ok() && State() == Step(old(State()), Enter(id, state, now))
      ensures r.Some? <==> state in registry
      ensures r.Some? ==> r.value == Sla(state, now, now + 1000 * registry[state].dueSecs, OnTime, 0, None, [])
      ensures r.Some? ==> id in store && r.value == store[id]
    {
      StepKeeps(State(), Enter(id, state, now));
      if state !in registry { return None; }
      var policy := registry[state];
      var sla := Sla(state, now, now + policy.dueSecs * 1000, OnTime, 0, None, []);
      store := store[id := sla];
      return Some(sla);
    }

    method EvaluateAt(id: string, now: int) returns (r: Option<Sla>)
      requires Ok()
      modifies this`store
      ensures Ok() && State() == Step(old(State()), Evaluate(id, now))
      ensures r == if id in store then Some(store[id]) else None
    {
      StepKeeps(State(), Evaluate(id, now));
      if id !in store { return None; }
      var sla := store[id];
      var policy := registry[sla.state];
      if sla.status != Resolved && now >= sla.dueAt {
        var newLevel := LevelAt(policy, sla.dueAt, now);
        var newStatus := if newLevel > 0 then Escalated else Overdue;
        if sla.status != newStatus || newLevel > sla.level {
          sla := sla.(status := newStatus);
          if newLevel > sla.level {
            sla := sla.(level := newLevel, history := sla.history + [Escalation(newLevel, "system", AUTOMATIC, now)]);
          }
        }
      }
      store := store[id := sla];
      return Some(sla);
    }

    method EscalateManually(id: string, actor: string, reason: string, now: int) returns (r: Option<Sla>)
      requires Ok()
      modifies this`store
      ensures Ok() && State() == Step(old(State()), EscalateBy(id, actor, reason, now))
      ensures r.None? ==> State() == old(State())
      ensures r.Some? ==> id in store && r.value == store[id] && r.value.status == Escalated
    {
      StepKeeps(State(), EscalateBy(id, actor, reason, now));
      if id !in store || store[id].status == Resolved { return None; }
      var sla := Escalate(store[id], registry[store[id].state], actor, reason, now);
      store := store[id := sla];
      return Some(sla);
    }

    method ResolveAt(id: string, now: int) returns (r: Option<Sla>)
      requires Ok()
      modifies this`store
      ensures Ok() && State() == Step(old(State()), ResolveBy(id, now))
      ensures r == if id in store then Some(store[id]) else None
    {
      StepKeeps(State(), ResolveBy(id, now));
      if id !in store { return None; }
      store := store[id := store[id].(status := Resolved, resolvedAt := Some(now))];
      return Some(store[id]);
    }
  }
}
