/**
 * The browser's queue of pending mutations, in one tab that may be reloaded at any await.
 *
 * A step runs from one await to the next: enqueueing, starting an operation, the answer of the
 * state fetch, the answer of the executor, resolving a conflict, clearing, or a page reload,
 * which forgets everything but the storage.
 */
module OperationQueue {
  import opened Basics

  datatype Status = Queued | InFlight | Committed | InConflict | Discarded | Failed

  datatype Reason = EntityNotFound | TerminalStatusConflict | VersionMismatch

  /** A version is a number, or something else that only ever equals itself. */
  datatype Version = Number(n: int) | Other(text: string)

  datatype Operation = Operation(
    id: string, kind: string, entityId: string, payload: string, baseVersion: Version, baseStatus: string,
    status: Status, attempts: nat, conflict: Option<Reason>, error: Option<string>, result: Option<string>)

  /** The authoritative state of an entity; either part may be missing. */
  datatype Target = Target(version: Option<Version>, status: Option<string>)

  datatype Action = Discard | RetryWithLatest | ForceApply | Unsupported

  // ---------- The ordered map of operations ----------

  function Get(ops: seq<Operation>, id: string): Option<Operation> {
    if ops == [] then None else if ops[0].id == id then Some(ops[0]) else Get(ops[1..], id)
  }

  /** Map.prototype.set: in place, or at the end. */
  function Put(ops: seq<Operation>, op: Operation): seq<Operation> {
    if ops == [] then [op]
    else if ops[0].id == op.id then [op] + ops[1..]
    else [ops[0]] + Put(ops[1..], op)
  }

  ghost predicate DistinctIds(ops: seq<Operation>) {
    ops == [] || (Get(ops[1..], ops[0].id) == None && DistinctIds(ops[1..]))
  }

  lemma {:induction false} GetId(ops: seq<Operation>, id: string)
    ensures Get(ops, id).Some? ==> Get(ops, id).value.id == id
  {
    if ops != [] { GetId(ops[1..], id); }
  }

  lemma {:induction false} GetPut(ops: seq<Operation>, op: Operation, id: string)
    ensures Get(Put(ops, op), id) == if id == op.id then Some(op) else Get(ops, id)
  {
    if ops != [] && ops[0].id != op.id { GetPut(ops[1..], op, id); }
  }

  lemma {:induction false} PutDistinct(ops: seq<Operation>, op: Operation)
    requires DistinctIds(ops)
    ensures DistinctIds(Put(ops, op))
  {
    if ops != [] && ops[0].id != op.id {
      PutDistinct(ops[1..], op);
      GetPut(ops[1..], op, ops[0].id);
    }
  }

  lemma {:induction false} GetFilter(p: Operation -> bool, ops: seq<Operation>, id: string)
    requires DistinctIds(ops)
    ensures Get(Filter(p, ops), id) == if Get(ops, id).Some? && p(Get(ops, id).value) then Get(ops, id) else None
  {
    if ops != [] {
      GetFilter(p, ops[1..], id);
      GetId(ops[1..], id);
      if p(ops[0]) { assert ([ops[0]] + Filter(p, ops[1..]))[1..] == Filter(p, ops[1..]); }
    }
  }

  lemma {:induction false} FilterDistinct(p: Operation -> bool, ops: seq<Operation>)
    requires DistinctIds(ops)
    ensures DistinctIds(Filter(p, ops))
  {
    if ops != [] {
      FilterDistinct(p, ops[1..]);
      GetFilter(p, ops[1..], ops[0].id);
      if p(ops[0]) { assert ([ops[0]] + Filter(p, ops[1..]))[1..] == Filter(p, ops[1..]); }
    }
  }

  /** What a reload makes of a stored operation. */
  function Requeued(op: Operation): Operation {
    if op.status == InFlight then op.(status := Queued) else op
  }

  /** Loading sets the stored items one by one. */
  function Loaded(items: seq<Operation>): seq<Operation> {
    if items == [] then [] else Put(Loaded(items[..|items| - 1]), Requeued(items[|items| - 1]))
  }

  lemma {:induction false} GetAppend(ops: seq<Operation>, op: Operation, id: string)
    ensures Get(ops + [op], id) == if Get(ops, id).Some? then Get(ops, id) else if op.id == id then Some(op) else None
  {
    if ops == [] {
      assert ops + [op] == [op] && [op][1..] == [];
    } else {
      assert (ops + [op])[1..] == ops[1..] + [op];
      GetAppend(ops[1..], op, id);
    }
  }

  lemma {:induction false} DistinctSplit(ops: seq<Operation>)
    requires DistinctIds(ops) && ops != []
    ensures DistinctIds(ops[..|ops| - 1]) && Get(ops[..|ops| - 1], ops[|ops| - 1].id) == None
  {
    if |ops| > 1 {
      var n := |ops| - 1;
      DistinctSplit(ops[1..]);
      assert ops[1..] == ops[1..n] + [ops[n]] && ops[1..][..n - 1] == ops[1..n];
      assert ops[..n][1..] == ops[1..n];
      GetAppend(ops[1..n], ops[n], ops[0].id);
    }
  }

  /** Loading finds every stored operation, with the interrupted ones queued again. */
  lemma {:induction false} GetLoaded(items: seq<Operation>, id: string)
    requires DistinctIds(items)
    ensures Get(Loaded(items), id) == if Get(items, id).Some? then Some(Requeued(Get(items, id).value)) else None
  {
    if items != [] {
      var n := |items| - 1;
      DistinctSplit(items);
      GetLoaded(items[..n], id);
      GetPut(Loaded(items[..n]), Requeued(items[n]), id);
      assert items == items[..n] + [items[n]];
      GetAppend(items[..n], items[n], id);
    }
  }

  lemma {:induction false} LoadedDistinct(items: seq<Operation>)
    ensures DistinctIds(Loaded(items))
  {
    if items != [] {
      LoadedDistinct(items[..|items| - 1]);
      PutDistinct(Loaded(items[..|items| - 1]), Requeued(items[|items| - 1]));
    }
  }

  // ---------- Decisions ----------

  predicate IsTerminal(status: string) {
    status == "PAID" || status == "CANCELLED" || status == "EXPIRED"
  }

  /** The entity went to a terminal status that the operation was not based on. */
  predicate Overtaken(op: Operation, status: Option<string>) {
    && op.kind != "GET" && op.baseStatus != ""
    && status.Some? && status.value != op.baseStatus && IsTerminal(status.value)
  }

  function EvaluateConflict(op: Operation, state: Option<Target>): Option<Reason> {
    if state.None? then Some(EntityNotFound)
    else if op.baseStatus != "" && state.value.status.Some? && state.value.status.value != ""
      && state.value.status.value != op.baseStatus && IsTerminal(state.value.status.value) && op.kind != "GET"
    then Some(TerminalStatusConflict)
    else if state.value.version.Some? && state.value.version.value.Number? && state.value.version.value != op.baseVersion
    then Some(VersionMismatch)
    else None
  }

  /** What the executor may rely on. */
  predicate Safe(op: Operation, state: Target) {
    && (state.version.Some? && state.version.value.Number? ==> op.baseVersion == state.version.value)
    && !Overtaken(op, state.status)
  }

  /** The conflict check lets an operation through exactly when the entity exists and the pair is safe. */
  lemma NoConflictMeansSafe(op: Operation, state: Option<Target>)
    ensures EvaluateConflict(op, state) == None <==> state.Some? && Safe(op, state.value)
  {
  }

  function Truthy(v: Option<Version>): bool {
    v.Some? && v.value != Number(0) && v.value != Other("")
  }

  /** What a resolution makes of a conflicted operation; None where it is refused. */
  function Resolved(op: Operation, action: Action, latest: Option<Target>): Option<Operation> {
    match action
    case Discard => Some(op.(status := Discarded, conflict := None))
    case RetryWithLatest =>
      if latest.None? then None
      else
        var t := latest.value;
        Some(op.(baseVersion := if t.version.Some? then t.version.value else op.baseVersion,
                 baseStatus := if t.status.Some? then t.status.value else op.baseStatus,
                 status := Queued, conflict := None, error := None))
    case ForceApply =>
      var op := op.(status := Queued, conflict := None);
      Some(if latest.Some? && Truthy(latest.value.version) then op.(baseVersion := latest.value.version.value) else op)
    case Unsupported => None
  }

  // ---------- Steps ----------

  /** Where a running `processOperation` is suspended. */
  datatype Phase = Fetching | Executing(state: Target)

  /** One call of an executor. */
  datatype Call = Call(op: Operation, state: Target)

  /**
   * The queue, its storage, the suspended calls by operation id, and four histories: the base
   * status every id was enqueued with, the statuses adopted by retrying with the latest state,
   * the executor calls, and the operations whose executor reported success.
   */
  datatype World = World(
    ops: seq<Operation>, storage: Option<seq<Operation>>, tasks: map<string, Phase>,
    issued: map<string, string>, adopted: set<(string, string)>, calls: seq<Call>, commits: seq<string>)

  datatype Event =
    | Enqueue(id: string, kind: string, entityId: string, payload: string, baseVersion: Option<Version>, baseStatus: Option<string>)
    | Begin(id: string)
    | FetchDone(id: string, state: Result<Option<Target>, string>)
    | ExecuteDone(id: string, result: Result<string, string>)
    | Resolve(id: string, action: Action, latest: Option<Target>)
    | ClearCompleted
    | Reload

  const INITIAL := World([], None, map[], map[], {}, [], [])

  predicate Enabled(w: World, e: Event) {
    match e
    case Enqueue(id, _, _, _, _, _) => id !in w.issued
    case FetchDone(id, _) => id in w.tasks && w.tasks[id] == Fetching && Get(w.ops, id).Some?
    case ExecuteDone(id, _) => id in w.tasks && w.tasks[id].Executing? && Get(w.ops, id).Some?
    case _ => true
  }

  /** Changes one operation and persists the queue. */
  function Save(w: World, op: Operation): World {
    var ops := Put(w.ops, op);
    w.(ops := ops, storage := Some(ops))
  }

  function Fresh(e: Event): Operation
    requires e.Enqueue?
  {
    Operation(e.id, e.kind, e.entityId, e.payload,
      if e.baseVersion.Some? then e.baseVersion.value else Number(1),
      if e.baseStatus.Some? then e.baseStatus.value else "PENDING",
      Queued, 0, None, None, None)
  }

  function Erred(op: Operation, maxRetries: int, error: string): Operation {
    op.(status := if op.attempts >= maxRetries then Failed else Queued, error := Some(error))
  }

  predicate Startable(op: Operation) {
    op.status == Queued || op.status == Failed
  }

  predicate Completed(op: Operation) {
    op.status == Committed || op.status == Discarded
  }

  function Unfinished(): Operation -> bool {
    (op: Operation) => !Completed(op)
  }

  /** The status that a retry with the latest state bases the operation on from now on. */
  function Adoption(id: string, action: Action, latest: Option<Target>): set<(string, string)> {
    if action == RetryWithLatest && latest.Some? && latest.value.status.Some? then {(id, latest.value.status.value)} else {}
  }

  function Step(w: World, e: Event, maxRetries: int): World
    requires Enabled(w, e)
  {
    match e
    case Enqueue(id, kind, entityId, _, _, _) =>
      if kind == "" || entityId == "" then w else Save(w, Fresh(e)).(issued := w.issued[id := Fresh(e).baseStatus])
    case Begin(id) =>
      var found := Get(w.ops, id);
      if found.None? || !Startable(found.value) then w
      else Save(w, found.value.(status := InFlight, attempts := found.value.attempts + 1)).(tasks := w.tasks[id := Fetching])
    case FetchDone(id, state) =>
      var op := Get(w.ops, id).value;
      if state.Err? then Save(w, Erred(op, maxRetries, state.error)).(tasks := w.tasks - {id})
      else
        var conflict := EvaluateConflict(op, state.value);
        if conflict.Some? then Save(w, op.(status := InConflict, conflict := conflict)).(tasks := w.tasks - {id})
        else w.(tasks := w.tasks[id := Executing(state.value.value)], calls := w.calls + [Call(op, state.value.value)])
    case ExecuteDone(id, result) =>
      var op := Get(w.ops, id).value;
      if result.Err? then Save(w, Erred(op, maxRetries, result.error)).(tasks := w.tasks - {id})
      else Save(w, op.(status := Committed, result := Some(result.value))).(tasks := w.tasks - {id}, commits := w.commits + [id])
    case Resolve(id, action, latest) =>
      var found := Get(w.ops, id);
      if found.None? || found.value.status != InConflict then w
      else
        var resolved := Resolved(found.value, action, latest);
        if resolved.None? then w
        else Save(w, resolved.value).(adopted := w.adopted + Adoption(id, action, latest))
    case ClearCompleted =>
      var kept := Filter(Unfinished(), w.ops);
      if kept == w.ops then w else w.(ops := kept, storage := Some(kept))
    case Reload =>
      if w.storage.None? then w.(ops := [], tasks := map[])
      else
        var ops := Loaded(w.storage.value);
        w.(ops := ops, storage := Some(ops), tasks := map[])
  }

  // ---------- What every step keeps ----------

  /** The storage holds the queue; it is missing only while nothing was ever queued. */
  ghost predicate Mirrored(w: World) {
    w.storage == Some(w.ops) || (w.storage == None && w.ops == [])
  }

  /** Exactly the operations in flight have a suspended call, so none is stuck and none runs twice at once. */
  ghost predicate SingleFlight(w: World) {
    forall id :: id in w.tasks <==> Get(w.ops, id).Some? && Get(w.ops, id).value.status == InFlight
  }

  ghost predicate Issued(w: World) {
    && (forall id :: Get(w.ops, id).Some? ==> id in w.issued)
    && (forall id :: id in w.commits ==> id in w.issued)
    && (forall id :: id in w.commits && Get(w.ops, id).Some? ==> Get(w.ops, id).value.status == Committed)
    && Distinct(w.commits)
  }

  ghost predicate SafeCalls(w: World) {
    forall c :: c in w.calls ==> Safe(c.op, c.state)
  }

  /** The base status is the one the operation was enqueued with, or was adopted by a retry. */
  predicate Based(w: World, op: Operation) {
    op.id in w.issued && (op.baseStatus == w.issued[op.id] || (op.id, op.baseStatus) in w.adopted)
  }

  ghost predicate AllBased(w: World) {
    && (forall id :: Get(w.ops, id).Some? ==> Based(w, Get(w.ops, id).value))
    && (forall c :: c in w.calls ==> Based(w, c.op))
  }

  ghost predicate Invariant(w: World) {
    DistinctIds(w.ops) && Mirrored(w) && SingleFlight(w) && Issued(w) && SafeCalls(w) && AllBased(w)
  }

  /** One operation is saved, and its call and its commit are booked with it. */
  ghost predicate Booked(w: World, op: Operation, w': World) {
    && w'.ops == Put(w.ops, op) && w'.storage == Some(w'.ops) && w'.calls == w.calls
    && (forall id :: id != op.id ==> (id in w'.tasks <==> id in w.tasks))
    && (op.id in w'.tasks <==> op.status == InFlight)
    && (w'.issued == w.issued || (op.id !in w.issued && w'.issued == w.issued[op.id := op.baseStatus]))
    && w.adopted <= w'.adopted && Based(w', op)
    && (w'.commits == w.commits || (w'.commits == w.commits + [op.id] && op.id !in w.commits))
    && (op.id in w'.commits ==> op.status == Committed)
  }

  lemma BookedIssued(w: World, op: Operation, w': World)
    requires Issued(w) && Booked(w, op, w')
    ensures Issued(w')
  {
    forall id ensures Get(w'.ops, id) == if id == op.id then Some(op) else Get(w.ops, id) {
      GetPut(w.ops, op, id);
    }
  }

  lemma BookedFlight(w: World, op: Operation, w': World)
    requires SingleFlight(w) && Booked(w, op, w')
    ensures SingleFlight(w')
  {
    forall id ensures id in w'.tasks <==> Get(w'.ops, id).Some? && Get(w'.ops, id).value.status == InFlight {
      GetPut(w.ops, op, id);
    }
  }

  lemma BookedBased(w: World, op: Operation, w': World)
    requires AllBased(w) && Booked(w, op, w')
    ensures AllBased(w')
  {
    forall id | Get(w'.ops, id).Some? ensures Based(w', Get(w'.ops, id).value) {
      GetPut(w.ops, op, id);
    }
  }

  lemma SaveKeeps(w: World, op: Operation, w': World)
    requires Invariant(w) && Booked(w, op, w')
    ensures Invariant(w')
  {
    PutDistinct(w.ops, op);
    BookedIssued(w, op, w');
    BookedFlight(w, op, w');
    BookedBased(w, op, w');
  }

  /** The operation of a suspended call is in flight, and has not committed before. */
  lemma Suspended(w: World, id: string)
    requires Invariant(w) && id in w.tasks
    ensures Get(w.ops, id).Some? && Get(w.ops, id).value.status == InFlight && Get(w.ops, id).value.id == id
    ensures id in w.issued && id !in w.commits
  {
    GetId(w.ops, id);
  }

  lemma FetchKeeps(w: World, id: string, state: Result<Option<Target>, string>, maxRetries: int)
    requires Invariant(w) && Enabled(w, FetchDone(id, state))
    ensures Invariant(Step(w, FetchDone(id, state), maxRetries))
  {
    var w' := Step(w, FetchDone(id, state), maxRetries);
    var op := Get(w.ops, id).value;
    Suspended(w, id);
    if state.Err? {
      SaveKeeps(w, Erred(op, maxRetries, state.error), w');
    } else {
      var conflict := EvaluateConflict(op, state.value);
      NoConflictMeansSafe(op, state.value);
      if conflict.Some? {
        SaveKeeps(w, op.(status := InConflict, conflict := conflict), w');
      }
    }
  }

  lemma ExecuteKeeps(w: World, id: string, result: Result<string, string>, maxRetries: int)
    requires Invariant(w) && Enabled(w, ExecuteDone(id, result))
    ensures Invariant(Step(w, ExecuteDone(id, result), maxRetries))
  {
    var w' := Step(w, ExecuteDone(id, result), maxRetries);
    var op := Get(w.ops, id).value;
    Suspended(w, id);
    if result.Err? {
      SaveKeeps(w, Erred(op, maxRetries, result.error), w');
    } else {
      SaveKeeps(w, op.(status := Committed, result := Some(result.value)), w');
    }
  }

  lemma ReloadKeeps(w: World, maxRetries: int)
    requires Invariant(w)
    ensures Invariant(Step(w, Reload, maxRetries))
  {
    if w.storage.Some? {
      LoadedDistinct(w.ops);
      forall id ensures Get(Loaded(w.ops), id) == if Get(w.ops, id).Some? then Some(Requeued(Get(w.ops, id).value)) else None {
        GetLoaded(w.ops, id);
      }
    }
  }

  lemma ClearKeeps(w: World, maxRetries: int)
    requires Invariant(w)
    ensures Invariant(Step(w, ClearCompleted, maxRetries))
  {
    FilterDistinct(Unfinished(), w.ops);
    forall id ensures Get(Filter(Unfinished(), w.ops), id) ==
      if Get(w.ops, id).Some? && Unfinished()(Get(w.ops, id).value) then Get(w.ops, id) else None
    {
      GetFilter(Unfinished(), w.ops, id);
    }
  }

  lemma StepKeeps(w: World, e: Event, maxRetries: int)
    requires Invariant(w) && Enabled(w, e)
    ensures Invariant(Step(w, e, maxRetries))
  {
    var w' := Step(w, e, maxRetries);
    match e
    case Enqueue(id, kind, entityId, _, _, _) => if kind != "" && entityId != "" { SaveKeeps(w, Fresh(e), w'); }
    case Begin(id) =>
      GetId(w.ops, id);
      var found := Get(w.ops, id);
      if found.Some? && Startable(found.value) {
        SaveKeeps(w, found.value.(status := InFlight, attempts := found.value.attempts + 1), w');
      }
    case FetchDone(id, state) => FetchKeeps(w, id, state, maxRetries);
    case ExecuteDone(id, result) => ExecuteKeeps(w, id, result, maxRetries);
    case Resolve(id, action, latest) =>
      GetId(w.ops, id);
      var found := Get(w.ops, id);
      if found.Some? && found.value.status == InConflict && Resolved(found.value, action, latest).Some? {
        SaveKeeps(w, Resolved(found.value, action, latest).value, w');
      }
    case ClearCompleted => ClearKeeps(w, maxRetries);
    case Reload => ReloadKeeps(w, maxRetries);
  }

  // ---------- What becomes of one operation ----------

  /** The part of an operation that says what to do. */
  predicate SameIntent(a: Operation, b: Operation) {
    a.id == b.id && a.kind == b.kind && a.entityId == b.entityId && a.payload == b.payload
  }

  /** A step that is neither a clear nor a reload saves at most one operation. */
  ghost predicate Saves(w: World, op: Option<Operation>, w': World) {
    w'.ops == if op.Some? then Put(w.ops, op.value) else w.ops
  }

  /** How a saved operation may differ from the one it replaces. */
  predicate Revises(e: Event, old': Operation, op: Operation) {
    && SameIntent(old', op) && !Completed(old')
    && (op.baseStatus != old'.baseStatus ==>
      e.Resolve? && e.action == RetryWithLatest && e.id == op.id && e.latest.Some? && e.latest.value.status == Some(op.baseStatus))
  }

  lemma FetchSaves(w: World, e: Event, maxRetries: int) returns (op: Option<Operation>)
    requires Invariant(w) && Enabled(w, e) && e.FetchDone?
    ensures Saves(w, op, Step(w, e, maxRetries))
    ensures op.Some? ==> Get(w.ops, op.value.id).Some? && Revises(e, Get(w.ops, op.value.id).value, op.value)
    ensures op.Some? && op.value.status == Failed ==> op.value.attempts >= maxRetries
  {
    Suspended(w, e.id);
    var found := Get(w.ops, e.id).value;
    op := None;
    if e.state.Err? {
      op := Some(Erred(found, maxRetries, e.state.error));
    } else if EvaluateConflict(found, e.state.value).Some? {
      op := Some(found.(status := InConflict, conflict := EvaluateConflict(found, e.state.value)));
    }
  }

  lemma ExecuteSaves(w: World, e: Event, maxRetries: int) returns (op: Option<Operation>)
    requires Invariant(w) && Enabled(w, e) && e.ExecuteDone?
    ensures Saves(w, op, Step(w, e, maxRetries))
    ensures op.Some? ==> Get(w.ops, op.value.id).Some? && Revises(e, Get(w.ops, op.value.id).value, op.value)
    ensures op.Some? && op.value.status == Failed ==> op.value.attempts >= maxRetries
  {
    Suspended(w, e.id);
    var found := Get(w.ops, e.id).value;
    op := Some(if e.result.Err? then Erred(found, maxRetries, e.result.error)
               else found.(status := Committed, result := Some(e.result.value)));
  }

  lemma ResolveSaves(w: World, e: Event, maxRetries: int) returns (op: Option<Operation>)
    requires Enabled(w, e) && e.Resolve?
    ensures Saves(w, op, Step(w, e, maxRetries))
    ensures op.Some? ==> Get(w.ops, op.value.id).Some? && Revises(e, Get(w.ops, op.value.id).value, op.value)
    ensures op.Some? && op.value.status == Failed ==> op.value.attempts >= maxRetries
  {
    GetId(w.ops, e.id);
    var found := Get(w.ops, e.id);
    op := if found.Some? && found.value.status == InConflict then Resolved(found.value, e.action, e.latest) else None;
  }

  lemma StepSaves(w: World, e: Event, maxRetries: int) returns (op: Option<Operation>)
    requires Invariant(w) && Enabled(w, e) && !e.ClearCompleted? && !e.Reload?
    ensures Saves(w, op, Step(w, e, maxRetries))
    ensures op.Some? && Get(w.ops, op.value.id).None? ==> op.value.id !in w.issued
    ensures op.Some? && op.value.status == Failed ==> op.value.attempts >= maxRetries
    ensures op.Some? && Get(w.ops, op.value.id).Some? ==> Revises(e, Get(w.ops, op.value.id).value, op.value)
  {
    match e
    case Enqueue(_, kind, entityId, _, _, _) => op := if kind == "" || entityId == "" then None else Some(Fresh(e));
    case Begin(id) =>
      GetId(w.ops, id);
      var found := Get(w.ops, id);
      op := if found.None? || !Startable(found.value) then None
        else Some(found.value.(status := InFlight, attempts := found.value.attempts + 1));
    case FetchDone(_, _) => op := FetchSaves(w, e, maxRetries);
    case ExecuteDone(_, _) => op := ExecuteSaves(w, e, maxRetries);
    case Resolve(_, _, _) => op := ResolveSaves(w, e, maxRetries);
  }

  /**
   * A step keeps every operation and what it is for, except that clearing removes completed ones;
   * completed ones are not touched; and only retrying with the latest state changes the base status.
   */
  lemma Fate(w: World, e: Event, maxRetries: int, id: string)
    requires Invariant(w) && Enabled(w, e) && Get(w.ops, id).Some?
    ensures var op, after := Get(w.ops, id).value, Get(Step(w, e, maxRetries).ops, id);
      && (after.None? <==> e.ClearCompleted? && Completed(op))
      && (after.Some? ==> SameIntent(op, after.value))
      && (after.Some? && Completed(op) ==> after.value == op)
      && (after.Some? && after.value.baseStatus != op.baseStatus ==>
          e.Resolve? && e.action == RetryWithLatest && e.id == id && e.latest.Some? && e.latest.value.status == Some(after.value.baseStatus))
  {
    GetId(w.ops, id);
    if e.ClearCompleted? {
      GetFilter(Unfinished(), w.ops, id);
    } else if e.Reload? {
      if w.storage.Some? { GetLoaded(w.ops, id); }
    } else {
      var saved := StepSaves(w, e, maxRetries);
      if saved.Some? { GetPut(w.ops, saved.value, id); }
    }
  }

  // ---------- Whole runs ----------

  ghost predicate Run(w: World, events: seq<Event>, maxRetries: int)
    decreases |events|
  {
    events == [] || (Enabled(w, events[0]) && Run(Step(w, events[0], maxRetries), events[1..], maxRetries))
  }

  ghost function After(w: World, events: seq<Event>, maxRetries: int): World
    requires Run(w, events, maxRetries)
    decreases |events|
  {
    if events == [] then w else After(Step(w, events[0], maxRetries), events[1..], maxRetries)
  }

  lemma {:induction false} RunKeeps(w: World, events: seq<Event>, maxRetries: int)
    requires Invariant(w) && Run(w, events, maxRetries)
    ensures Invariant(After(w, events, maxRetries))
    decreases |events|
  {
    if events != [] {
      StepKeeps(w, events[0], maxRetries);
      RunKeeps(Step(w, events[0], maxRetries), events[1..], maxRetries);
    }
  }

  /**
   * In every run, with reloads anywhere: the storage holds the queue, exactly the operations in
   * flight have a suspended call, no operation commits twice, and every executor call was safe.
   */
  lemma EveryRun(events: seq<Event>, maxRetries: int)
    requires Run(INITIAL, events, maxRetries)
    ensures var w := After(INITIAL, events, maxRetries);
      && Mirrored(w) && SingleFlight(w) && Distinct(w.commits)
      && (forall c :: c in w.calls ==> Safe(c.op, c.state))
  {
    RunKeeps(INITIAL, events, maxRetries);
  }

  /** A completed operation stays exactly as it is until it is cleared, and then it is gone for good. */
  lemma {:induction false} CompletedForGood(w: World, events: seq<Event>, maxRetries: int, id: string)
    requires Invariant(w) && Run(w, events, maxRetries) && id in w.issued
    requires Get(w.ops, id).None? || Completed(Get(w.ops, id).value)
    ensures Get(After(w, events, maxRetries).ops, id) in {Get(w.ops, id), None}
    decreases |events|
  {
    if events != [] {
      var w' := Step(w, events[0], maxRetries);
      StepKeeps(w, events[0], maxRetries);
      if Get(w.ops, id).Some? { Fate(w, events[0], maxRetries, id); } else { StaysGone(w, events[0], maxRetries, id); }
      CompletedForGood(w', events[1..], maxRetries, id);
    }
  }

  lemma StaysGone(w: World, e: Event, maxRetries: int, id: string)
    requires Invariant(w) && Enabled(w, e) && id in w.issued && Get(w.ops, id).None?
    ensures Get(Step(w, e, maxRetries).ops, id).None?
  {
    if e.ClearCompleted? {
      GetFilter(Unfinished(), w.ops, id);
    } else if e.Reload? {
      if w.storage.Some? { GetLoaded(w.ops, id); }
    } else {
      var saved := StepSaves(w, e, maxRetries);
      if saved.Some? { GetPut(w.ops, saved.value, id); }
    }
  }

  /** The operation was completed when a clear came. */
  ghost predicate Cleared(w: World, events: seq<Event>, maxRetries: int, id: string)
    requires Run(w, events, maxRetries)
    decreases |events|
  {
    events != [] &&
    ((events[0].ClearCompleted? && Get(w.ops, id).Some? && Completed(Get(w.ops, id).value))
     || Cleared(Step(w, events[0], maxRetries), events[1..], maxRetries, id))
  }

  /** No operation disappears but a completed one that is cleared, and what it is for never changes. */
  lemma {:induction false} NothingIsLost(w: World, events: seq<Event>, maxRetries: int, id: string)
    requires Invariant(w) && Run(w, events, maxRetries) && Get(w.ops, id).Some?
    ensures var after := Get(After(w, events, maxRetries).ops, id);
      && (after.None? <==> Cleared(w, events, maxRetries, id))
      && (after.Some? ==> SameIntent(Get(w.ops, id).value, after.value))
    decreases |events|
  {
    if events != [] {
      var w', rest := Step(w, events[0], maxRetries), events[1..];
      StepKeeps(w, events[0], maxRetries);
      Fate(w, events[0], maxRetries, id);
      if Get(w'.ops, id).Some? {
        NothingIsLost(w', rest, maxRetries, id);
      } else {
        CompletedForGood(w', rest, maxRetries, id);
      }
    }
  }

  /** Only an operation that has used up its attempts is given up. */
  ghost predicate FailedAreExhausted(w: World, maxRetries: int) {
    forall id :: Get(w.ops, id).Some? && Get(w.ops, id).value.status == Failed ==> Get(w.ops, id).value.attempts >= maxRetries
  }

  lemma StepExhausts(w: World, e: Event, maxRetries: int)
    requires Invariant(w) && Enabled(w, e) && FailedAreExhausted(w, maxRetries)
    ensures FailedAreExhausted(Step(w, e, maxRetries), maxRetries)
  {
    forall id ensures var after := Get(Step(w, e, maxRetries).ops, id);
      after.Some? && after.value.status == Failed ==> after.value.attempts >= maxRetries
    {
      if e.ClearCompleted? {
        GetFilter(Unfinished(), w.ops, id);
      } else if e.Reload? {
        if w.storage.Some? { GetLoaded(w.ops, id); }
      } else {
        var saved := StepSaves(w, e, maxRetries);
        if saved.Some? { GetPut(w.ops, saved.value, id); }
      }
    }
  }

  /** In every run an operation is marked failed only after as many attempts as are allowed. */
  lemma {:induction false} FailedOnlyWhenExhausted(w: World, events: seq<Event>, maxRetries: int)
    requires Invariant(w) && FailedAreExhausted(w, maxRetries) && Run(w, events, maxRetries)
    ensures FailedAreExhausted(After(w, events, maxRetries), maxRetries)
    decreases |events|
  {
    if events != [] {
      StepKeeps(w, events[0], maxRetries);
      StepExhausts(w, events[0], maxRetries);
      FailedOnlyWhenExhausted(Step(w, events[0], maxRetries), events[1..], maxRetries);
    }
  }

  /**
   * An executor is called on a terminal status that the operation was not enqueued against only
   * after a retry that adopted this status, or an empty one. Forcing never gets there.
   */
  lemma TerminalNeedsRetry(events: seq<Event>, maxRetries: int, c: Call)
    requires Run(INITIAL, events, maxRetries) && c in After(INITIAL, events, maxRetries).calls
    ensures var w := After(INITIAL, events, maxRetries);
      && c.op.id in w.issued
      && (c.op.kind != "GET" && w.issued[c.op.id] != "" && c.state.status.Some? && IsTerminal(c.state.status.value)
          && c.state.status.value != w.issued[c.op.id]
          ==> (c.op.id, c.state.status.value) in w.adopted || (c.op.id, "") in w.adopted)
  {
    RunKeeps(INITIAL, events, maxRetries);
  }

  // ---------- How often an executor is called ----------

  function CallOf(id: string): Call -> bool {
    (c: Call) => c.op.id == id
  }

  function IsId(id: string): string -> bool {
    (x: string) => x == id
  }

  /** An executor is at work on the operation. */
  predicate AtWork(w: World, id: string) {
    id in w.tasks && w.tasks[id].Executing?
  }

  /** A step after which the executor's work has to be done again: it failed, or its answer will not be heard. */
  predicate Setback(w: World, e: Event, id: string) {
    (e.ExecuteDone? && e.id == id && e.result.Err?) || (e.Reload? && AtWork(w, id))
  }

  ghost function Setbacks(w: World, events: seq<Event>, maxRetries: int, id: string): nat
    requires Run(w, events, maxRetries)
    decreases |events|
  {
    if events == [] then 0
    else (if Setback(w, events[0], id) then 1 else 0) + Setbacks(Step(w, events[0], maxRetries), events[1..], maxRetries, id)
  }

  /** The calls that are neither committed nor still at work. */
  function Spent(w: World, id: string): int {
    Count(CallOf(id), w.calls) - Count(IsId(id), w.commits) - if AtWork(w, id) then 1 else 0
  }

  lemma CountOneMore<T>(p: T -> bool, s: seq<T>, x: T)
    ensures Count(p, s + [x]) == Count(p, s) + if p(x) then 1 else 0
  {
    CountAppend(p, s, [x]);
    assert Count(p, [x][1..]) == 0;
  }

  lemma FetchSpends(w: World, e: Event, maxRetries: int, id: string)
    requires Invariant(w) && Enabled(w, e) && e.FetchDone?
    ensures Spent(Step(w, e, maxRetries), id) == Spent(w, id)
  {
    Suspended(w, e.id);
    var op := Get(w.ops, e.id).value;
    if e.state.Ok? && EvaluateConflict(op, e.state.value).None? {
      NoConflictMeansSafe(op, e.state.value);
      CountOneMore(CallOf(id), w.calls, Call(op, e.state.value.value));
    }
  }

  lemma ExecuteSpends(w: World, e: Event, maxRetries: int, id: string)
    requires Invariant(w) && Enabled(w, e) && e.ExecuteDone?
    ensures Spent(Step(w, e, maxRetries), id) == Spent(w, id) + if Setback(w, e, id) then 1 else 0
  {
    CountOneMore(IsId(id), w.commits, e.id);
  }

  lemma BeginSpends(w: World, e: Event, maxRetries: int, id: string)
    requires Invariant(w) && e.Begin?
    ensures Spent(Step(w, e, maxRetries), id) == Spent(w, id)
  {
    assert Get(w.ops, e.id).Some? && Startable(Get(w.ops, e.id).value) ==> e.id !in w.tasks;
  }

  lemma StepSpends(w: World, e: Event, maxRetries: int, id: string)
    requires Invariant(w) && Enabled(w, e)
    ensures Spent(Step(w, e, maxRetries), id) == Spent(w, id) + if Setback(w, e, id) then 1 else 0
  {
    match e
    case FetchDone(_, _) => FetchSpends(w, e, maxRetries, id);
    case ExecuteDone(_, _) => ExecuteSpends(w, e, maxRetries, id);
    case Begin(_) => BeginSpends(w, e, maxRetries, id);
    case _ =>
  }

  lemma {:induction false} RunSpends(w: World, events: seq<Event>, maxRetries: int, id: string)
    requires Invariant(w) && Run(w, events, maxRetries)
    ensures Spent(After(w, events, maxRetries), id) == Spent(w, id) + Setbacks(w, events, maxRetries, id)
    decreases |events|
  {
    if events != [] {
      StepKeeps(w, events[0], maxRetries);
      StepSpends(w, events[0], maxRetries, id);
      RunSpends(Step(w, events[0], maxRetries), events[1..], maxRetries, id);
    }
  }

  lemma {:induction false} DistinctOnce(id: string, s: seq<string>)
    requires Distinct(s)
    ensures Count(IsId(id), s) == if id in s then 1 else 0
  {
    if s != [] { DistinctOnce(id, s[1..]); }
  }

  /**
   * Every executor call is accounted for: it committed, is still at work, failed, or was cut off by a
   * reload. So an operation is executed at most once more often than it failed or was cut off.
   */
  lemma CallsAccounted(events: seq<Event>, maxRetries: int, id: string)
    requires Run(INITIAL, events, maxRetries)
    ensures var w := After(INITIAL, events, maxRetries);
      && Count(CallOf(id), w.calls) == (if id in w.commits then 1 else 0) + (if AtWork(w, id) then 1 else 0) + Setbacks(INITIAL, events, maxRetries, id)
      && !(id in w.commits && AtWork(w, id))
  {
    var w := After(INITIAL, events, maxRetries);
    RunKeeps(INITIAL, events, maxRetries);
    RunSpends(INITIAL, events, maxRetries, id);
    DistinctOnce(id, w.commits);
  }

  /** A reload while an executor is at work gets it called again on the same state. */
  lemma ReloadRepeats(w: World, id: string, state: Target, maxRetries: int)
    requires Invariant(w) && AtWork(w, id) && Get(w.ops, id).Some? && Safe(Get(w.ops, id).value, state)
    ensures var again := [Reload, Begin(id), FetchDone(id, Ok(Some(state)))];
      Run(w, again, maxRetries) && |After(w, again, maxRetries).calls| == |w.calls| + 1
  {
    var op := Get(w.ops, id).value;
    Suspended(w, id);
    GetLoaded(w.ops, id);
    var w1 := Step(w, Reload, maxRetries);
    assert Get(w1.ops, id) == Some(Requeued(op));
    BegunAt(w1, id, maxRetries, Requeued(op));
    var w2 := Step(w1, Begin(id), maxRetries);
    NoConflictMeansSafe(Get(w2.ops, id).value, Some(state));
    RunThree(w, Reload, Begin(id), FetchDone(id, Ok(Some(state))), maxRetries);
  }

  // ---------- Discarding ----------

  lemma CompletedGetsNoCall(w: World, e: Event, maxRetries: int, id: string)
    requires Invariant(w) && Enabled(w, e) && (Get(w.ops, id).None? || Completed(Get(w.ops, id).value))
    ensures Count(CallOf(id), Step(w, e, maxRetries).calls) == Count(CallOf(id), w.calls)
  {
    if e.FetchDone? {
      Suspended(w, e.id);
      var op := Get(w.ops, e.id).value;
      if e.state.Ok? && EvaluateConflict(op, e.state.value).None? {
        NoConflictMeansSafe(op, e.state.value);
        CountOneMore(CallOf(id), w.calls, Call(op, e.state.value.value));
      }
    }
  }

  /** A completed operation is never executed again. */
  lemma {:induction false} CompletedIsNotExecuted(w: World, events: seq<Event>, maxRetries: int, id: string)
    requires Invariant(w) && Run(w, events, maxRetries) && id in w.issued
    requires Get(w.ops, id).None? || Completed(Get(w.ops, id).value)
    ensures Count(CallOf(id), After(w, events, maxRetries).calls) == Count(CallOf(id), w.calls)
    decreases |events|
  {
    if events != [] {
      var w' := Step(w, events[0], maxRetries);
      StepKeeps(w, events[0], maxRetries);
      CompletedGetsNoCall(w, events[0], maxRetries, id);
      if Get(w.ops, id).Some? { Fate(w, events[0], maxRetries, id); } else { StaysGone(w, events[0], maxRetries, id); }
      StillIssued(w, events[0], maxRetries, id);
      CompletedIsNotExecuted(w', events[1..], maxRetries, id);
    }
  }

  lemma StillIssued(w: World, e: Event, maxRetries: int, id: string)
    requires Enabled(w, e) && id in w.issued
    ensures id in Step(w, e, maxRetries).issued
  {
  }

  /**
   * Discarding a conflicted operation is final: whatever runs afterwards, it is DISCARDED until it is
   * cleared, and no executor is ever called for it again.
   */
  lemma DiscardIsFinal(w: World, id: string, latest: Option<Target>, events: seq<Event>, maxRetries: int)
    requires Invariant(w) && Get(w.ops, id).Some? && Get(w.ops, id).value.status == InConflict
    requires Run(Step(w, Resolve(id, Discard, latest), maxRetries), events, maxRetries)
    ensures var w' := After(Step(w, Resolve(id, Discard, latest), maxRetries), events, maxRetries);
      && Get(w'.ops, id) in {Some(Get(w.ops, id).value.(status := Discarded, conflict := None)), None}
      && Count(CallOf(id), w'.calls) == Count(CallOf(id), w.calls)
  {
    var w1, op := Step(w, Resolve(id, Discard, latest), maxRetries), Get(w.ops, id).value.(status := Discarded, conflict := None);
    StepKeeps(w, Resolve(id, Discard, latest), maxRetries);
    GetId(w.ops, id);
    GetPut(w.ops, op, id);
    assert id in w1.issued;
    CompletedForGood(w1, events, maxRetries, id);
    CompletedIsNotExecuted(w1, events, maxRetries, id);
  }

  // ---------- One step, in full ----------

  /** Retrying adopts what is known of the latest state; forcing adopts its version unless that is zero or empty. */
  lemma ResolvedExactly(op: Operation, action: Action, latest: Option<Target>)
    ensures action == Discard ==> Resolved(op, action, latest) == Some(op.(status := Discarded, conflict := None))
    ensures Resolved(op, RetryWithLatest, None) == None && Resolved(op, Unsupported, latest) == None
    ensures action == RetryWithLatest && latest.Some? ==>
      var r := Resolved(op, action, latest);
      && r.Some? && r.value.status == Queued && r.value.conflict == None && r.value.error == None
      && (latest.value.version.Some? ==> r.value.baseVersion == latest.value.version.value)
      && (latest.value.version.None? ==> r.value.baseVersion == op.baseVersion)
      && (latest.value.status.Some? ==> r.value.baseStatus == latest.value.status.value)
      && (latest.value.status.None? ==> r.value.baseStatus == op.baseStatus)
      && r.value.attempts == op.attempts && r.value.result == op.result && SameIntent(op, r.value)
    ensures action == ForceApply ==>
      var r := Resolved(op, action, latest);
      && r.Some? && r.value.status == Queued && r.value.conflict == None && r.value.baseStatus == op.baseStatus
      && (latest.Some? && latest.value.version.Some? && latest.value.version.value != Number(0) && latest.value.version.value != Other("") ==>
          r.value.baseVersion == latest.value.version.value)
      && (latest.None? || latest.value.version.None? || latest.value.version.value == Number(0) || latest.value.version.value == Other("") ==>
          r.value.baseVersion == op.baseVersion)
      && r.value.attempts == op.attempts && r.value.error == op.error && r.value.result == op.result && SameIntent(op, r.value)
  {
  }

  lemma AnswerSaved(w: World, e: Event, maxRetries: int, op: Operation)
    requires Enabled(w, e) && (e.FetchDone? || e.ExecuteDone?) && op.id == e.id
    requires Step(w, e, maxRetries).ops == Put(w.ops, op)
    ensures Get(Step(w, e, maxRetries).ops, e.id) == Some(op)
  {
    GetPut(w.ops, op, e.id);
  }

  /**
   * An error, of the fetch or of the executor, fails the operation if and only if it has used its
   * attempts, and else queues it again; a success commits it with its result; nothing else changes.
   */
  lemma AnswerExactly(w: World, e: Event, maxRetries: int)
    requires Invariant(w) && Enabled(w, e) && (e.FetchDone? || e.ExecuteDone?)
    ensures var op, after := Get(w.ops, e.id).value, Get(Step(w, e, maxRetries).ops, e.id);
      && ((e.FetchDone? && e.state.Err?) || (e.ExecuteDone? && e.result.Err?) ==>
        after == Some(op.(status := if op.attempts >= maxRetries then Failed else Queued,
                          error := Some(if e.FetchDone? then e.state.error else e.result.error))))
      && (e.ExecuteDone? && e.result.Ok? ==> after == Some(op.(status := Committed, result := Some(e.result.value))))
      && (e.FetchDone? && e.state.Ok? && EvaluateConflict(op, e.state.value).Some? ==>
        after == Some(op.(status := InConflict, conflict := EvaluateConflict(op, e.state.value))))
      && (e.FetchDone? && e.state.Ok? && EvaluateConflict(op, e.state.value).None? ==> after == Some(op))
  {
    Suspended(w, e.id);
    var op := Get(w.ops, e.id).value;
    if e.ExecuteDone? {
      var saved := if e.result.Err? then Erred(op, maxRetries, e.result.error) else op.(status := Committed, result := Some(e.result.value));
      AnswerSaved(w, e, maxRetries, saved);
    } else if e.state.Err? {
      AnswerSaved(w, e, maxRetries, Erred(op, maxRetries, e.state.error));
    } else if EvaluateConflict(op, e.state.value).Some? {
      AnswerSaved(w, e, maxRetries, op.(status := InConflict, conflict := EvaluateConflict(op, e.state.value)));
    }
  }

  /** A reload brings back every operation, queues the interrupted ones again, and forgets the suspended calls. */
  lemma ReloadExactly(w: World, maxRetries: int, id: string)
    requires Invariant(w)
    ensures var w', op := Step(w, Reload, maxRetries), Get(w.ops, id);
      && Get(w'.ops, id) == (if op.Some? && op.value.status == InFlight then Some(op.value.(status := Queued)) else op)
      && w'.tasks == map[] && w'.calls == w.calls && w'.commits == w.commits
  {
    if w.storage.Some? { GetLoaded(w.ops, id); }
  }

  /** A clear removes the committed and the discarded operations, and nothing else. */
  lemma ClearExactly(w: World, maxRetries: int, id: string)
    requires Invariant(w)
    ensures var op := Get(w.ops, id);
      Get(Step(w, ClearCompleted, maxRetries).ops, id) == if op.Some? && op.value.status in {Committed, Discarded} then None else op
  {
    GetFilter(Unfinished(), w.ops, id);
  }

  /** The reason of a conflict: no entity, then a foreign terminal status, then a numeric version other than the base. */
  lemma ConflictExactly(op: Operation, state: Option<Target>)
    ensures var r := EvaluateConflict(op, state);
      var terminal := state.Some? && state.value.status in {Some("PAID"), Some("CANCELLED"), Some("EXPIRED")}
        && op.kind != "GET" && op.baseStatus != "" && state.value.status != Some(op.baseStatus);
      var moved := state.Some? && (exists n :: state.value.version == Some(Number(n)) && op.baseVersion != Number(n));
      && (r == Some(EntityNotFound) <==> state.None?)
      && (r == Some(TerminalStatusConflict) <==> terminal)
      && (r == Some(VersionMismatch) <==> !terminal && moved)
  {
    assert state.Some? && state.value.version.Some? && state.value.version.value.Number? ==>
      state.value.version == Some(Number(state.value.version.value.n));
  }

  // ---------- Resolving and trying again ----------

  /** A conflict is resolved, the operation is started, and the fetch finds the state it was resolved with. */
  function Again(id: string, action: Action, latest: Target): seq<Event> {
    [Resolve(id, action, Some(latest)), Begin(id), FetchDone(id, Ok(Some(latest)))]
  }

  lemma ResolvedAt(w: World, id: string, action: Action, latest: Target, maxRetries: int, op: Operation)
    requires Get(w.ops, id).Some? && Get(w.ops, id).value.status == InConflict
    requires Resolved(Get(w.ops, id).value, action, Some(latest)) == Some(op)
    ensures var w' := Step(w, Resolve(id, action, Some(latest)), maxRetries);
      w'.calls == w.calls && Get(w'.ops, id) == Some(op)
  {
    GetId(w.ops, id);
    GetPut(w.ops, op, id);
  }

  lemma BegunAt(w: World, id: string, maxRetries: int, op: Operation)
    requires Get(w.ops, id) == Some(op) && Startable(op)
    ensures var w' := Step(w, Begin(id), maxRetries);
      && w'.calls == w.calls && id in w'.tasks && w'.tasks[id] == Fetching
      && Get(w'.ops, id) == Some(op.(status := InFlight, attempts := op.attempts + 1))
  {
    GetId(w.ops, id);
    GetPut(w.ops, op.(status := InFlight, attempts := op.attempts + 1), id);
  }

  /** Resolved and started: the operation waits for its fetch. */
  lemma Restarted(w: World, id: string, action: Action, latest: Target, maxRetries: int) returns (w2: World)
    requires Get(w.ops, id).Some? && Get(w.ops, id).value.status == InConflict
    requires action == RetryWithLatest || action == ForceApply
    ensures w2 == Step(Step(w, Resolve(id, action, Some(latest)), maxRetries), Begin(id), maxRetries)
    ensures w2.calls == w.calls && id in w2.tasks && w2.tasks[id] == Fetching
    ensures var op := Resolved(Get(w.ops, id).value, action, Some(latest)).value;
      Get(w2.ops, id) == Some(op.(status := InFlight, attempts := op.attempts + 1))
  {
    var op := Resolved(Get(w.ops, id).value, action, Some(latest)).value;
    ResolvedAt(w, id, action, latest, maxRetries, op);
    BegunAt(Step(w, Resolve(id, action, Some(latest)), maxRetries), id, maxRetries, op);
    w2 := Step(Step(w, Resolve(id, action, Some(latest)), maxRetries), Begin(id), maxRetries);
  }

  lemma TryAgain(w: World, id: string, action: Action, latest: Target, maxRetries: int)
    requires Get(w.ops, id).Some? && Get(w.ops, id).value.status == InConflict
    requires action == RetryWithLatest || action == ForceApply
    ensures Run(w, Again(id, action, latest), maxRetries)
    ensures var op := Resolved(Get(w.ops, id).value, action, Some(latest)).value;
      var op' := op.(status := InFlight, attempts := op.attempts + 1);
      After(w, Again(id, action, latest), maxRetries).calls == w.calls + if Safe(op', latest) then [Call(op', latest)] else []
  {
    var w2 := Restarted(w, id, action, latest, maxRetries);
    NoConflictMeansSafe(Get(w2.ops, id).value, Some(latest));
    RunThree(w, Resolve(id, action, Some(latest)), Begin(id), FetchDone(id, Ok(Some(latest))), maxRetries);
  }

  lemma RunThree(w: World, e1: Event, e2: Event, e3: Event, maxRetries: int)
    requires Enabled(w, e1) && Enabled(Step(w, e1, maxRetries), e2)
    requires Enabled(Step(Step(w, e1, maxRetries), e2, maxRetries), e3)
    ensures Run(w, [e1, e2, e3], maxRetries)
    ensures After(w, [e1, e2, e3], maxRetries) == Step(Step(Step(w, e1, maxRetries), e2, maxRetries), e3, maxRetries)
  {
    var w1 := Step(w, e1, maxRetries);
    var w2 := Step(w1, e2, maxRetries);
    var w3 := Step(w2, e3, maxRetries);
    assert [e1, e2, e3][1..] == [e2, e3] && [e2, e3][1..] == [e3] && [e3][1..] == [];
    assert Run(w3, [], maxRetries) && After(w3, [], maxRetries) == w3;
    assert Run(w2, [e3], maxRetries) && After(w2, [e3], maxRetries) == w3;
    assert Run(w1, [e2, e3], maxRetries) && After(w1, [e2, e3], maxRetries) == w3;
  }

  /** Retrying with the latest state always gets the executor called on that state, terminal or not. */
  lemma RetryAlwaysRuns(w: World, id: string, latest: Target, maxRetries: int)
    requires Get(w.ops, id).Some? && Get(w.ops, id).value.status == InConflict
    ensures Run(w, Again(id, RetryWithLatest, latest), maxRetries)
    ensures |After(w, Again(id, RetryWithLatest, latest), maxRetries).calls| == |w.calls| + 1
  {
    TryAgain(w, id, RetryWithLatest, latest, maxRetries);
  }

  /**
   * Forcing gets the executor called exactly when the latest status does not overtake the operation
   * and the latest version is not the number zero, unless the operation is based on zero already.
   */
  lemma ForceRunsExactly(w: World, id: string, latest: Target, maxRetries: int)
    requires Get(w.ops, id).Some? && Get(w.ops, id).value.status == InConflict
    ensures Run(w, Again(id, ForceApply, latest), maxRetries)
    ensures |After(w, Again(id, ForceApply, latest), maxRetries).calls| == |w.calls| + 1 <==>
      && !Overtaken(Get(w.ops, id).value, latest.status)
      && (latest.version != Some(Number(0)) || Get(w.ops, id).value.baseVersion == Number(0))
  {
    TryAgain(w, id, ForceApply, latest, maxRetries);
  }

  // ---------- The object ----------

  /** Map.prototype.delete. */
  function Delete(ops: seq<Operation>, id: string): seq<Operation> {
    if ops == [] then [] else if ops[0].id == id then ops[1..] else [ops[0]] + Delete(ops[1..], id)
  }

  lemma {:induction false} DeleteAt(a: seq<Operation>, x: Operation, b: seq<Operation>)
    requires Get(a, x.id) == None
    ensures Delete(a + [x] + b, x.id) == a + b
  {
    if a == [] {
      assert a + [x] + b == [x] + b;
    } else {
      DeleteAt(a[1..], x, b);
      assert (a + [x] + b)[1..] == a[1..] + [x] + b;
    }
  }

  lemma {:induction false} DistinctPrefix(ops: seq<Operation>, i: nat)
    requires DistinctIds(ops) && i < |ops|
    ensures DistinctIds(ops[..i]) && Get(ops[..i], ops[i].id) == None
    decreases |ops|
  {
    DistinctSplit(ops);
    if i < |ops| - 1 {
      DistinctPrefix(ops[..|ops| - 1], i);
      assert ops[..|ops| - 1][..i] == ops[..i];
    }
  }

  /** What a clear has kept so far does not have the id it looks at next. */
  lemma NotKept(ops: seq<Operation>, i: nat)
    requires DistinctIds(ops) && i < |ops|
    ensures Get(Filter(Unfinished(), ops[..i]), ops[i].id) == None
  {
    DistinctPrefix(ops, i);
    GetFilter(Unfinished(), ops[..i], ops[i].id);
  }

  /** The queue when a clear has looked at the first `i` of its entries. */
  function Swept(entries: seq<Operation>, i: nat): seq<Operation>
    requires i <= |entries|
  {
    Filter(Unfinished(), entries[..i]) + entries[i..]
  }

  lemma SweptNext(entries: seq<Operation>, i: nat)
    requires DistinctIds(entries) && i < |entries|
    ensures Swept(entries, i + 1) == if Completed(entries[i]) then Delete(Swept(entries, i), entries[i].id) else Swept(entries, i)
    ensures Completed(entries[i]) ==> |Swept(entries, i + 1)| == |Swept(entries, i)| - 1
  {
    var kept := Filter(Unfinished(), entries[..i]);
    FilterNext(Unfinished(), entries, i);
    NotKept(entries, i);
    DeleteAt(kept, entries[i], entries[i + 1..]);
    assert kept + entries[i..] == kept + [entries[i]] + entries[i + 1..];
  }

  lemma SweptEnds(entries: seq<Operation>)
    ensures Swept(entries, 0) == entries && Swept(entries, |entries|) == Filter(Unfinished(), entries)
  {
    assert entries[..0] == [] && entries[..|entries|] == entries;
  }

  class OperationQueue {
    var operations: seq<Operation>
    var storage: Option<seq<Operation>>
    const maxRetries: int
    var tasks: map<string, Phase>
    ghost var issued: map<string, string>
    ghost var adopted: set<(string, string)>
    ghost var calls: seq<Call>
    ghost var commits: seq<string>

    ghost function State(): World
      reads this
    {
      World(operations, storage, tasks, issued, adopted, calls, commits)
    }

    ghost predicate Valid()
      reads this
    {
      Invariant(State())
    }

    constructor (maxRetries: int)
      ensures Valid() && State() == INITIAL && this.maxRetries == maxRetries
    {
      this.maxRetries := maxRetries;
      operations, storage, tasks, issued, adopted, calls, commits := [], None, map[], map[], {}, [], [];
    }

    method PersistToStorage()
      modifies this`storage
      ensures storage == Some(operations)
    {
      storage := Some(operations);
    }

    /** Array.from(values) then setItem, after one operation changed. */
    method SaveOperation(op: Operation)
      modifies this`operations, this`storage
      ensures State() == Save(old(State()), op)
    {
      operations := Put(operations, op);
      PersistToStorage();
    }

    /** Answers false where the original throws. */
    method EnqueueOperation(e: Event) returns (ok: bool)
      requires Valid() && e.Enqueue? && e.id !in issued
      modifies this
      ensures old(Enabled(State(), e)) && Valid() && State() == Step(old(State()), e, maxRetries)
      ensures ok <==> e.kind != "" && e.entityId != ""
      ensures ok ==> Get(operations, e.id) == Some(Operation(e.id, e.kind, e.entityId, e.payload,
        if e.baseVersion.None? then Number(1) else e.baseVersion.value, if e.baseStatus.None? then "PENDING" else e.baseStatus.value,
        Queued, 0, None, None, None))
    {
      StepKeeps(State(), e, maxRetries);
      ok := e.kind != "" && e.entityId != "";
      if ok {
        GetPut(operations, Fresh(e), e.id);
        SaveOperation(Fresh(e));
        issued := issued[e.id := Fresh(e).baseStatus];
      }
    }

    /** The start of processOperation, up to the fetch. */
    method BeginOperation(id: string) returns (started: bool)
      requires Valid()
      modifies this
      ensures Valid() && State() == Step(old(State()), Begin(id), maxRetries)
      ensures started ==> id !in old(tasks) && id in tasks
      ensures started <==> old(Get(operations, id)).Some? && old(Get(operations, id)).value.status in {Queued, Failed}
      ensures var op := old(Get(operations, id));
        started ==> Get(operations, id) == Some(op.value.(status := InFlight, attempts := op.value.attempts + 1))
    {
      StepKeeps(State(), Begin(id), maxRetries);
      var found := Get(operations, id);
      started := found.Some? && Startable(found.value);
      if started {
        GetId(operations, id);
        GetPut(operations, found.value.(status := InFlight, attempts := found.value.attempts + 1), id);
        SaveOperation(found.value.(status := InFlight, attempts := found.value.attempts + 1));
        tasks := tasks[id := Fetching];
      }
    }

    /** From the fetched state to the executor call, or to the end. */
    method AfterFetch(id: string, state: Result<Option<Target>, string>)
      requires Valid() && id in tasks && tasks[id] == Fetching
      modifies this
      ensures old(Enabled(State(), FetchDone(id, state)))
      ensures Valid() && State() == Step(old(State()), FetchDone(id, state), maxRetries)
    {
      Suspended(State(), id);
      StepKeeps(State(), FetchDone(id, state), maxRetries);
      var op := Get(operations, id).value;
      if state.Err? {
        SaveOperation(Erred(op, maxRetries, state.error));
        tasks := tasks - {id};
      } else {
        var conflict := EvaluateConflict(op, state.value);
        if conflict.Some? {
          SaveOperation(op.(status := InConflict, conflict := conflict));
          tasks := tasks - {id};
        } else {
          tasks := tasks[id := Executing(state.value.value)];
          calls := calls + [Call(op, state.value.value)];
        }
      }
    }

    method AfterExecute(id: string, result: Result<string, string>)
      requires Valid() && id in tasks && tasks[id].Executing?
      modifies this
      ensures old(Enabled(State(), ExecuteDone(id, result)))
      ensures Valid() && State() == Step(old(State()), ExecuteDone(id, result), maxRetries)
    {
      Suspended(State(), id);
      StepKeeps(State(), ExecuteDone(id, result), maxRetries);
      var op := Get(operations, id).value;
      if result.Err? {
        SaveOperation(Erred(op, maxRetries, result.error));
      } else {
        SaveOperation(op.(status := Committed, result := Some(result.value)));
        commits := commits + [id];
      }
      tasks := tasks - {id};
    }

    /** Answers None where the original throws. */
    method ResolveConflict(id: string, action: Action, latest: Option<Target>) returns (resolved: Option<Operation>)
      requires Valid()
      modifies this
      ensures Valid() && State() == Step(old(State()), Resolve(id, action, latest), maxRetries)
      ensures resolved.None? ==> State() == old(State())
      ensures resolved.Some? ==> Get(operations, id) == resolved
      ensures resolved.Some? && action == Discard ==> resolved.value.status == Discarded
      ensures resolved.Some? && action != Discard ==> resolved.value.status == Queued
      ensures var op := old(Get(operations, id));
        resolved.Some? <==> op.Some? && op.value.status == InConflict && (action in {Discard, ForceApply} || (action == RetryWithLatest && latest.Some?))
    {
      StepKeeps(State(), Resolve(id, action, latest), maxRetries);
      GetId(operations, id);
      resolved := None;
      var found := Get(operations, id);
      if found.Some? && found.value.status == InConflict {
        resolved := Resolved(found.value, action, latest);
        if resolved.Some? {
          GetPut(operations, resolved.value, id);
          SaveOperation(resolved.value);
          adopted := adopted + Adoption(id, action, latest);
        }
      }
    }

    method DeleteCompleted() returns (cleared: nat)
      requires DistinctIds(operations)
      modifies this`operations
      ensures operations == Swept(old(operations), |old(operations)|)
      ensures cleared == |old(operations)| - |operations| && (cleared == 0 ==> operations == old(operations))
    {
      var entries := operations;
      cleared := 0;
      var i := 0;
      SweptEnds(entries);
      while i < |entries|
        invariant 0 <= i <= |entries| && operations == Swept(entries, i) && cleared == |entries| - |operations|
        invariant cleared == 0 ==> operations == entries
      {
        SweptNext(entries, i);
        if Completed(entries[i]) {
          operations := Delete(operations, entries[i].id);
          cleared := cleared + 1;
        }
        i := i + 1;
      }
    }

    method Clear() returns (cleared: nat)
      requires Valid()
      modifies this`operations, this`storage
      ensures Valid() && State() == Step(old(State()), ClearCompleted, maxRetries)
      ensures cleared == |old(operations)| - |operations|
    {
      ghost var next := Step(State(), ClearCompleted, maxRetries);
      StepKeeps(State(), ClearCompleted, maxRetries);
      SweptEnds(operations);
      cleared := DeleteCompleted();
      assert operations == next.ops;
      if cleared > 0 {
        PersistToStorage();
      }
      assert State() == next;
    }

    method SetAll(items: seq<Operation>)
      requires operations == []
      modifies this`operations
      ensures operations == Loaded(items)
    {
      var i := 0;
      while i < |items|
        invariant 0 <= i <= |items| && operations == Loaded(items[..i])
      {
        assert items[..i + 1][..i] == items[..i];
        operations := Put(operations, Requeued(items[i]));
        i := i + 1;
      }
      assert items[..i] == items;
    }

    /** A new page: all that is left is the storage. */
    method ReloadPage()
      requires Valid()
      modifies this
      ensures Valid() && State() == Step(old(State()), Reload, maxRetries)
    {
      StepKeeps(State(), Reload, maxRetries);
      operations, tasks := [], map[];
      if storage.Some? {
        SetAll(storage.value);
        PersistToStorage();
      }
    }
  }
}
