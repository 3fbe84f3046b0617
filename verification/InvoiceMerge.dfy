/**
 * resolveMultiClientConflict: merging a client's edit of an invoice into the
 * server's current state, given the state the client started from.
 *
 * An invoice is an object of named fields. The locale comparison of the actor id
 * with "server" is an input, since its result depends on the platform.
 */
module InvoiceMerge {
  import opened Basics
  import opened Ordering
  import opened ConflictResolver
  import opened Decimal

  datatype Status = PENDING | PAID | CANCELLED | EXPIRED

  datatype Mode = Auto | Server | Client | StrictMode

  datatype Options = Options(mode: Mode, clientTime: int, serverTime: int, actorId: string, localeAfterServer: bool, viewer: bool)

  datatype Refusal = TerminalStatus | UnauthorizedEdit | ImmutableField

  datatype Resolution = Resolution(merged: Option<Value>, unresolved: set<string>, hasConflicts: bool, newVersion: int)

  const IMMUTABLE: set<string> := {
    "id", "sellerPublicKey", "amount", "assetCode", "assetIssuer", "memo", "createdAt", "paymentTxHash",
    "payerPublicKey", "paidAt"}

  const EDITABLE: set<string> := {
    "description", "customerName", "customerEmail", "sellerName", "sellerEmail", "metadata", "expiresAt"}

  /** The tie-break inside metadata compares actor ids by code units. */
  predicate NestedWins(o: Options) {
    o.clientTime > o.serverTime || (o.clientTime == o.serverTime && TextLess("server", o.actorId))
  }

  /** The tie-break on a whole field compares them by locale. */
  predicate FieldWins(o: Options) {
    o.clientTime > o.serverTime || (o.clientTime == o.serverTime && o.localeAfterServer)
  }

  function StrategyOf(mode: Mode, wins: bool): Strategy {
    match mode
    case Auto => AutoMerge(wins)
    case Server => ServerWins
    case Client => ClientWins
    case StrictMode => Strict
  }

  // ---------- One field ----------

  datatype Outcome = Keep | Put(value: Option<Value>) | Unresolved

  predicate InConflict(base: Value, server: Value, client: Value, k: string) {
    k in EDITABLE && Get(client, k).Some? && Classify(Get(base, k), Get(server, k), Get(client, k)) in {Recurse, Collide}
  }

  /** An invoice's metadata; what is missing or no object counts as empty. */
  function MetadataOf(v: Value): (r: Value)
    ensures r.Obj?
    ensures if IsObject(Get(v, "metadata")) then Some(r) == Get(v, "metadata") else r.fields == map[]
  {
    AsObject(Get(v, "metadata"))
  }

  function MetadataOutcome(base: Value, server: Value, client: Value, o: Options): Outcome {
    var b, s, c := MetadataOf(base), MetadataOf(server), MetadataOf(client);
    if o.mode == StrictMode && Collisions(b, s, c) != {} then Unresolved
    else Put(Some(Merge(b, s, c, StrategyOf(o.mode, NestedWins(o)))))
  }

  function FieldOutcome(base: Value, server: Value, client: Value, o: Options, k: string): Outcome {
    var c := Get(client, k);
    if k !in EDITABLE || c.None? then Keep
    else
      match Classify(Get(base, k), Get(server, k), c)
      case TakeServer => Keep
      case TakeClient => Put(c)
      case _ =>
        if k == "metadata" then MetadataOutcome(base, server, client, o)
        else if o.mode == StrictMode then Unresolved
        else Put(TieBreak(Get(server, k), c, StrategyOf(o.mode, FieldWins(o))))
  }

  /** The server's fields, with missing metadata read as an empty object. */
  function Start(server: Value): (r: Value)
    requires server.Obj?
    ensures r.Obj?
  {
    Obj(server.fields["metadata" := match Get(server, "metadata") case Some(Null) => Obj(map[]) case Some(v) => v case None => Obj(map[])])
  }

  function MergedField(base: Value, server: Value, client: Value, o: Options, k: string): Option<Value>
    requires server.Obj?
  {
    var outcome := FieldOutcome(base, server, client, o, k);
    if outcome.Put? then outcome.value else Get(Start(server), k)
  }

  // ---------- The whole invoice ----------

  function MergedInvoice(base: Value, server: Value, client: Value, o: Options): Value
    requires server.Obj? && client.Obj?
  {
    Obj(map k | k in Start(server).fields.Keys + client.fields.Keys && MergedField(base, server, client, o, k).Some?
          :: MergedField(base, server, client, o, k).value)
  }

  /** The merged invoice carries the version it is stored under. */
  function Versioned(merged: Value, version: int): Value
    requires merged.Obj?
  {
    Obj(merged.fields["version" := Scalar(IntText(version))])
  }

  function UnresolvedFields(base: Value, server: Value, client: Value, o: Options): set<string>
    requires client.Obj?
  {
    set k | k in client.fields.Keys && FieldOutcome(base, server, client, o, k).Unresolved?
  }

  predicate TouchesImmutable(base: Value, client: Value)
    requires client.Obj?
  {
    exists k :: k in client.fields.Keys && k in IMMUTABLE && !DeepEqual(Get(base, k), Get(client, k))
  }

  function Resolve(base: Value, server: Value, status: Status, version: int, client: Value, o: Options): Result<Resolution, Refusal>
    requires server.Obj? && client.Obj?
  {
    if status != PENDING then Err(TerminalStatus)
    else if o.viewer then Err(UnauthorizedEdit)
    else if TouchesImmutable(base, client) then Err(ImmutableField)
    else
      var unresolved := UnresolvedFields(base, server, client, o);
      Ok(Resolution(
        if unresolved == {} then Some(Versioned(MergedInvoice(base, server, client, o), version + 1)) else None,
        unresolved,
        exists k :: k in client.fields.Keys && InConflict(base, server, client, k),
        if unresolved == {} then version + 1 else version))
  }

  // ---------- The loop over the client's fields ----------

  ghost predicate Built(base: Value, server: Value, client: Value, o: Options, merged: map<string, Value>, done: set<string>)
    requires server.Obj?
  {
    forall k :: Get(Obj(merged), k) == if k in done then MergedField(base, server, client, o, k) else Get(Start(server), k)
  }

  lemma BuiltAll(base: Value, server: Value, client: Value, o: Options, merged: map<string, Value>)
    requires server.Obj? && client.Obj? && Built(base, server, client, o, merged, client.fields.Keys)
    ensures Obj(merged) == MergedInvoice(base, server, client, o)
  {
    var target := MergedInvoice(base, server, client, o);
    forall k ensures Get(Obj(merged), k) == Get(target, k) {
    }
    SameObject(Obj(merged), target);
  }

  /** Writing one field's outcome into merged; an undefined value removes the field. */
  function Write(merged: map<string, Value>, k: string, outcome: Outcome): map<string, Value> {
    if !outcome.Put? then merged
    else if outcome.value.Some? then merged[k := outcome.value.value] else merged - {k}
  }

  lemma BuiltStep(base: Value, server: Value, client: Value, o: Options, merged: map<string, Value>, done: set<string>, k: string)
    requires server.Obj? && Built(base, server, client, o, merged, done) && k !in done
    ensures Built(base, server, client, o, Write(merged, k, FieldOutcome(base, server, client, o, k)), done + {k})
  {
  }

  /** What the loop writes: the merged fields, the unresolved ones, and whether any field was in conflict. */
  datatype Draft = Draft(merged: map<string, Value>, unresolved: set<string>, hasConflicts: bool)

  /** The body of the loop. */
  function Edit(base: Value, server: Value, client: Value, o: Options, d: Draft, k: string): Draft {
    var outcome := FieldOutcome(base, server, client, o, k);
    Draft(Write(d.merged, k, outcome),
          if outcome.Unresolved? then d.unresolved + {k} else d.unresolved,
          d.hasConflicts || InConflict(base, server, client, k))
  }

  ghost predicate Drafted(base: Value, server: Value, client: Value, o: Options, d: Draft, done: set<string>)
    requires server.Obj?
  {
    && Built(base, server, client, o, d.merged, done)
    && (forall k :: k in d.unresolved <==> k in done && FieldOutcome(base, server, client, o, k).Unresolved?)
    && (d.hasConflicts <==> exists k :: k in done && InConflict(base, server, client, k))
  }

  lemma DraftStep(base: Value, server: Value, client: Value, o: Options, d: Draft, done: set<string>, k: string)
    requires server.Obj? && Drafted(base, server, client, o, d, done) && k !in done
    ensures Drafted(base, server, client, o, Edit(base, server, client, o, d, k), done + {k})
  {
    BuiltStep(base, server, client, o, d.merged, done, k);
  }

  /** The report, from the finished draft. */
  function Report(d: Draft, version: int): Resolution {
    Resolution(if d.unresolved == {} then Some(Versioned(Obj(d.merged), version + 1)) else None, d.unresolved, d.hasConflicts,
               if d.unresolved == {} then version + 1 else version)
  }

  lemma DraftDone(base: Value, server: Value, version: int, client: Value, o: Options, d: Draft)
    requires server.Obj? && client.Obj? && Drafted(base, server, client, o, d, client.fields.Keys)
    requires !o.viewer && !TouchesImmutable(base, client)
    ensures Resolve(base, server, PENDING, version, client, o) == Ok(Report(d, version))
  {
    BuiltAll(base, server, client, o, d.merged);
    assert d.unresolved == UnresolvedFields(base, server, client, o);
  }

  /** Editing field by field; merged starts as the server's state and a refused field stops everything. */
  method ResolveMultiClientConflict(base: Value, server: Value, status: Status, version: int, client: Value, o: Options)
    returns (result: Result<Resolution, Refusal>)
    requires server.Obj? && client.Obj?
    ensures result == Resolve(base, server, status, version, client, o)
  {
    if status != PENDING { return Err(TerminalStatus); }
    if o.viewer { return Err(UnauthorizedEdit); }
    var draft := Draft(Start(server).fields, {}, false);
    var todo := client.fields.Keys;
    ghost var done: set<string> := {};
    while todo != {}
      invariant done !! todo && done + todo == client.fields.Keys
      invariant forall k :: k in done && k in IMMUTABLE ==> DeepEqual(Get(base, k), Get(client, k))
      invariant Drafted(base, server, client, o, draft, done)
      decreases todo
    {
      var k :| k in todo;
      if k in IMMUTABLE && !DeepEqual(Get(base, k), Get(client, k)) {
        assert TouchesImmutable(base, client);
        return Err(ImmutableField);
      }
      DraftStep(base, server, client, o, draft, done, k);
      draft := Edit(base, server, client, o, draft, k);
      todo, done := todo - {k}, done + {k};
    }
    DraftDone(base, server, version, client, o, draft);
    result := Ok(Report(draft, version));
  }

  // ---------- What a merge may change ----------

  lemma MergedAt(base: Value, server: Value, client: Value, o: Options, k: string)
    requires server.Obj? && client.Obj?
    ensures Get(MergedInvoice(base, server, client, o), k) == MergedField(base, server, client, o, k)
  {
  }

  /**
   * An accepted edit leaves every field outside the editable list as the server has it, but for
   * the version, which it raises; it restates immutable fields at most, and is refused on settled invoices.
   */
  lemma OnlyEditableChanges(base: Value, server: Value, status: Status, version: int, client: Value, o: Options)
    requires server.Obj? && client.Obj? && Resolve(base, server, status, version, client, o).Ok?
    ensures status == PENDING && !o.viewer
    ensures forall k :: k in IMMUTABLE && Get(client, k).Some? ==> Get(client, k) == Get(base, k)
    ensures var r := Resolve(base, server, status, version, client, o).value;
      r.merged.Some? ==>
        && r.newVersion == version + 1 && Get(r.merged.value, "version") == Some(Scalar(IntText(r.newVersion)))
        && forall k :: k !in EDITABLE && k != "version" ==> Get(r.merged.value, k) == Get(server, k)
  {
    forall k | k in IMMUTABLE && Get(client, k).Some? ensures Get(client, k) == Get(base, k) {
      assert k in client.fields.Keys;
      DeepEqualOption(Get(base, k), Get(client, k));
    }
    forall k | k !in EDITABLE ensures Get(MergedInvoice(base, server, client, o), k) == Get(server, k) {
      MergedAt(base, server, client, o, k);
      assert k != "metadata";
    }
  }

  // ---------- What becomes of each field ----------

  /** An edit is refused on a settled invoice, to a viewer, or if it changes an immutable field, in this order. */
  lemma RefusedExactly(base: Value, server: Value, status: Status, version: int, client: Value, o: Options)
    requires server.Obj? && client.Obj?
    ensures var r := Resolve(base, server, status, version, client, o);
      && (r == Err(TerminalStatus) <==> status in {PAID, CANCELLED, EXPIRED})
      && (r == Err(UnauthorizedEdit) <==> status == PENDING && o.viewer)
      && (r == Err(ImmutableField) <==> status == PENDING && !o.viewer && exists k ::
            k in {"id", "sellerPublicKey", "amount", "assetCode", "assetIssuer", "memo", "createdAt", "paymentTxHash", "payerPublicKey", "paidAt"}
            && Get(client, k).Some? && Get(client, k) != Get(base, k))
  {
    forall k ensures DeepEqual(Get(base, k), Get(client, k)) <==> Get(base, k) == Get(client, k) {
      DeepEqualOption(Get(base, k), Get(client, k));
    }
    assert IMMUTABLE ==
      {"id", "sellerPublicKey", "amount", "assetCode", "assetIssuer", "memo", "createdAt", "paymentTxHash", "payerPublicKey", "paidAt"};
  }

  /** A plain field: what no one contests lands, and what both sides changed goes to the side the mode favours. */
  lemma PlainFieldExactly(base: Value, server: Value, status: Status, version: int, client: Value, o: Options, k: string)
    requires server.Obj? && client.Obj? && Resolve(base, server, status, version, client, o).Ok?
    requires Resolve(base, server, status, version, client, o).value.merged.Some?
    requires k in {"description", "customerName", "customerEmail", "sellerName", "sellerEmail", "expiresAt"}
    ensures var b, s, c := Get(base, k), Get(server, k), Get(client, k);
      var m := Get(Resolve(base, server, status, version, client, o).value.merged.value, k);
      && (c.None? || c == b ==> m == s)
      && (c.Some? && c != b && (s == b || s == c) ==> m == c)
      && (c.Some? && c != b && s != b && s != c ==>
        && o.mode != StrictMode
        && (o.mode == Server ==> m == s) && (o.mode == Client ==> m == c)
        && (o.mode == Auto ==> m == if o.clientTime > o.serverTime || (o.clientTime == o.serverTime && o.localeAfterServer) then c else s))
  {
    PlainNames(k);
    UnresolvedListed(base, server, client, o, k);
    PlainFieldAt(base, server, client, o, k);
    MergedAt(base, server, client, o, k);
  }

  lemma PlainNames(k: string)
    requires k in {"description", "customerName", "customerEmail", "sellerName", "sellerEmail", "expiresAt"}
    ensures k in EDITABLE && k != "metadata" && k != "version"
  {
  }

  lemma PlainFieldAt(base: Value, server: Value, client: Value, o: Options, k: string)
    requires server.Obj? && k in EDITABLE && k != "metadata" && !FieldOutcome(base, server, client, o, k).Unresolved?
    ensures var b, s, c, m := Get(base, k), Get(server, k), Get(client, k), MergedField(base, server, client, o, k);
      && (c.None? || c == b ==> m == s)
      && (c.Some? && c != b && (s == b || s == c) ==> m == c)
      && (c.Some? && c != b && s != b && s != c ==>
        o.mode != StrictMode && m == if o.mode == Client || (o.mode == Auto && FieldWins(o)) then c else s)
  {
    ClassifyIs(Get(base, k), Get(server, k), Get(client, k));
  }

  /** Metadata likewise, except that what both sides changed is merged inside. */
  lemma MetadataExactly(base: Value, server: Value, status: Status, version: int, client: Value, o: Options)
    requires server.Obj? && client.Obj? && Resolve(base, server, status, version, client, o).Ok?
    requires Resolve(base, server, status, version, client, o).value.merged.Some?
    ensures var k := "metadata";
      var b, s, c := Get(base, k), Get(server, k), Get(client, k);
      var m := Get(Resolve(base, server, status, version, client, o).value.merged.value, k);
      var clientWins := o.clientTime > o.serverTime || (o.clientTime == o.serverTime && TextLess("server", o.actorId));
      && (c.None? || c == b ==> m == if s.None? || s.value.Null? then Some(Obj(map[])) else s)
      && (c.Some? && c != b && (s == b || s == c) ==> m == c)
      && (c.Some? && c != b && s != b && s != c ==> m == Some(Merge(MetadataOf(base), MetadataOf(server), MetadataOf(client),
            match o.mode case Server => ServerWins case Client => ClientWins case Auto => AutoMerge(clientWins) case StrictMode => Strict)))
  {
    var k := "metadata";
    assert k in EDITABLE && k != "version";
    MergedAt(base, server, client, o, k);
    ClassifyIs(Get(base, k), Get(server, k), Get(client, k));
    UnresolvedListed(base, server, client, o, k);
  }

  /** A field is left unresolved only under STRICT, and exactly if it is in conflict, metadata only if something collides inside. */
  lemma UnresolvedExactly(base: Value, server: Value, status: Status, version: int, client: Value, o: Options, k: string)
    requires server.Obj? && client.Obj? && Resolve(base, server, status, version, client, o).Ok?
    ensures var r, b, s, c := Resolve(base, server, status, version, client, o).value, Get(base, k), Get(server, k), Get(client, k);
      && (k in r.unresolved <==>
        && o.mode == StrictMode && c.Some? && c != b && s != b && s != c
        && k in {"description", "customerName", "customerEmail", "sellerName", "sellerEmail", "metadata", "expiresAt"}
        && (k == "metadata" ==> Collisions(MetadataOf(base), MetadataOf(server), MetadataOf(client)) != {}))
      && (r.merged.Some? <==> r.unresolved == {}) && r.newVersion == version + if r.unresolved == {} then 1 else 0
  {
    ClassifyIs(Get(base, k), Get(server, k), Get(client, k));
    UnresolvedListed(base, server, client, o, k);
    assert EDITABLE == {"description", "customerName", "customerEmail", "sellerName", "sellerEmail", "metadata", "expiresAt"};
  }

  /** Conflicts are reported exactly if some editable field was changed differently on both sides. */
  lemma ConflictsExactly(base: Value, server: Value, status: Status, version: int, client: Value, o: Options)
    requires server.Obj? && client.Obj? && Resolve(base, server, status, version, client, o).Ok?
    ensures Resolve(base, server, status, version, client, o).value.hasConflicts <==>
      exists k :: k in {"description", "customerName", "customerEmail", "sellerName", "sellerEmail", "metadata", "expiresAt"}
        && Get(client, k).Some? && Get(client, k) != Get(base, k) && Get(server, k) != Get(base, k) && Get(server, k) != Get(client, k)
  {
    assert EDITABLE == {"description", "customerName", "customerEmail", "sellerName", "sellerEmail", "metadata", "expiresAt"};
    forall k ensures InConflict(base, server, client, k) <==>
      (k in EDITABLE && Get(client, k).Some? && Get(client, k) != Get(base, k) && Get(server, k) != Get(base, k) && Get(server, k) != Get(client, k))
    {
      ClassifyIs(Get(base, k), Get(server, k), Get(client, k));
    }
  }

  /** Outside conflicts the mode does not matter. */
  lemma CleanField(base: Value, server: Value, client: Value, o: Options, o': Options, k: string)
    requires !InConflict(base, server, client, k)
    ensures FieldOutcome(base, server, client, o, k) == FieldOutcome(base, server, client, o', k)
    ensures !FieldOutcome(base, server, client, o, k).Unresolved?
  {
  }

  lemma UnresolvedListed(base: Value, server: Value, client: Value, o: Options, k: string)
    requires client.Obj?
    ensures FieldOutcome(base, server, client, o, k).Unresolved? <==> k in UnresolvedFields(base, server, client, o)
  {
  }

  /** A plain field in conflict: the sides differ, and the tie-break picks one. */
  lemma PlainConflict(base: Value, server: Value, client: Value, o: Options, k: string)
    requires server.Obj? && k != "metadata" && InConflict(base, server, client, k)
    ensures Get(server, k) != Get(client, k)
    ensures FieldOutcome(base, server, client, o, k) ==
      if o.mode == StrictMode then Unresolved
      else Put(TieBreak(Get(server, k), Get(client, k), StrategyOf(o.mode, FieldWins(o))))
  {
    ClassifyIs(Get(base, k), Get(server, k), Get(client, k));
  }

  lemma MetadataConflict(base: Value, server: Value, client: Value, o: Options)
    requires server.Obj? && InConflict(base, server, client, "metadata")
    ensures FieldOutcome(base, server, client, o, "metadata") == MetadataOutcome(base, server, client, o)
  {
  }

  /** A field that STRICT leaves unresolved is one on which the two winning modes differ. */
  lemma UnresolvedIsDisagreement(base: Value, server: Value, client: Value, o: Options, k: string)
    requires server.Obj? && client.Obj? && o.mode == StrictMode
    ensures FieldOutcome(base, server, client, o, k).Unresolved? <==>
      MergedField(base, server, client, o.(mode := Server), k) != MergedField(base, server, client, o.(mode := Client), k)
  {
    var sv, cl := o.(mode := Server), o.(mode := Client);
    if !InConflict(base, server, client, k) {
      CleanField(base, server, client, sv, cl, k);
      CleanField(base, server, client, o, cl, k);
    } else if k == "metadata" {
      StrictIsAgreement(MetadataOf(base), MetadataOf(server), MetadataOf(client));
      MetadataConflict(base, server, client, o);
      MetadataConflict(base, server, client, sv);
      MetadataConflict(base, server, client, cl);
    } else {
      PlainConflict(base, server, client, o, k);
      PlainConflict(base, server, client, sv, k);
      PlainConflict(base, server, client, cl, k);
    }
  }

  /** A field that STRICT resolves is the same in every mode. */
  lemma ResolvedIsAgreement(base: Value, server: Value, client: Value, o: Options, o': Options, k: string)
    requires server.Obj? && client.Obj? && o.mode == StrictMode
    requires !FieldOutcome(base, server, client, o, k).Unresolved?
    ensures FieldOutcome(base, server, client, o', k) == FieldOutcome(base, server, client, o, k)
  {
    if !InConflict(base, server, client, k) {
      CleanField(base, server, client, o, o', k);
    } else if k == "metadata" {
      StrictIsAgreement(MetadataOf(base), MetadataOf(server), MetadataOf(client));
      MetadataConflict(base, server, client, o);
      MetadataConflict(base, server, client, o');
    } else {
      PlainConflict(base, server, client, o, k);
    }
  }

  /**
   * STRICT resolves an edit exactly when SERVER_WINS and CLIENT_WINS would
   * produce the same invoice; every mode then produces that invoice.
   */
  lemma StrictResolvesAgreement(base: Value, server: Value, client: Value, o: Options)
    requires server.Obj? && client.Obj? && o.mode == StrictMode
    ensures UnresolvedFields(base, server, client, o) == {} <==>
      MergedInvoice(base, server, client, o.(mode := Server)) == MergedInvoice(base, server, client, o.(mode := Client))
    ensures UnresolvedFields(base, server, client, o) == {} ==>
      forall o' :: MergedInvoice(base, server, client, o') == MergedInvoice(base, server, client, o)
  {
    var sv, cl := MergedInvoice(base, server, client, o.(mode := Server)), MergedInvoice(base, server, client, o.(mode := Client));
    if UnresolvedFields(base, server, client, o) == {} {
      forall k ensures !FieldOutcome(base, server, client, o, k).Unresolved? {
        UnresolvedListed(base, server, client, o, k);
      }
      forall o' ensures MergedInvoice(base, server, client, o') == MergedInvoice(base, server, client, o) {
        forall k ensures Get(MergedInvoice(base, server, client, o'), k) == Get(MergedInvoice(base, server, client, o), k) {
          MergedAt(base, server, client, o', k);
          MergedAt(base, server, client, o, k);
          ResolvedIsAgreement(base, server, client, o, o', k);
        }
        SameObject(MergedInvoice(base, server, client, o'), MergedInvoice(base, server, client, o));
      }
    } else {
      var k :| k in UnresolvedFields(base, server, client, o);
      UnresolvedIsDisagreement(base, server, client, o, k);
      MergedAt(base, server, client, o.(mode := Server), k);
      MergedAt(base, server, client, o.(mode := Client), k);
    }
  }

  // ---------- The automatic mode ----------

  /** The tie-break that decides about field `k`, if one does, favours this side. */
  predicate Favours(base: Value, server: Value, client: Value, o: Options, clientSide: bool, k: string) {
    if k != "metadata" then InConflict(base, server, client, k) ==> clientSide == FieldWins(o)
    else NestedClash(base, server, client) ==> clientSide == NestedWins(o)
  }

  /** Both sides changed metadata, and they collide somewhere inside. */
  predicate NestedClash(base: Value, server: Value, client: Value) {
    InConflict(base, server, client, "metadata") && Collisions(MetadataOf(base), MetadataOf(server), MetadataOf(client)) != {}
  }

  /** Both sides changed some other field differently. */
  ghost predicate PlainClash(base: Value, server: Value, client: Value) {
    exists k :: k != "metadata" && InConflict(base, server, client, k)
  }

  function OneSided(o: Options, clientSide: bool): Options {
    o.(mode := if clientSide then Client else Server)
  }

  lemma AutoMetadata(base: Value, server: Value, client: Value, o: Options, clientSide: bool)
    requires server.Obj? && o.mode == Auto && InConflict(base, server, client, "metadata")
    requires Favours(base, server, client, o, clientSide, "metadata")
    ensures MergedField(base, server, client, o, "metadata") == MergedField(base, server, client, OneSided(o, clientSide), "metadata")
  {
    var wins := NestedWins(o);
    var b, s, c := MetadataOf(base), MetadataOf(server), MetadataOf(client);
    var merged := Merge(b, s, c, AutoMerge(wins));
    StrictIsAgreement(b, s, c);
    AutoMergeIsOneSided(b, s, c, wins);
    MetadataMerged(base, server, client, o, wins, merged);
    MetadataMerged(base, server, client, OneSided(o, clientSide), wins, merged);
  }

  lemma AutoField(base: Value, server: Value, client: Value, o: Options, clientSide: bool, k: string)
    requires server.Obj? && client.Obj? && o.mode == Auto && Favours(base, server, client, o, clientSide, k)
    ensures MergedField(base, server, client, o, k) == MergedField(base, server, client, OneSided(o, clientSide), k)
  {
    if !InConflict(base, server, client, k) {
      CleanField(base, server, client, o, OneSided(o, clientSide), k);
    } else if k == "metadata" {
      AutoMetadata(base, server, client, o, clientSide);
    } else {
      PlainConflict(base, server, client, o, k);
      PlainConflict(base, server, client, OneSided(o, clientSide), k);
    }
  }

  /** Where every tie-break that decides anything favours one side, automatic merging is that side's mode. */
  lemma AutoIsOneSided(base: Value, server: Value, client: Value, o: Options, clientSide: bool)
    requires server.Obj? && client.Obj? && o.mode == Auto && forall k :: Favours(base, server, client, o, clientSide, k)
    ensures MergedInvoice(base, server, client, o) == MergedInvoice(base, server, client, OneSided(o, clientSide))
  {
    var o' := OneSided(o, clientSide);
    forall k ensures Get(MergedInvoice(base, server, client, o), k) == Get(MergedInvoice(base, server, client, o'), k) {
      MergedAt(base, server, client, o, k);
      MergedAt(base, server, client, o', k);
      AutoField(base, server, client, o, clientSide, k);
    }
    SameObject(MergedInvoice(base, server, client, o), MergedInvoice(base, server, client, o'));
  }

  /**
   * Automatic merging is one of the two winning modes if and only if its two tie-breaks agree, or no
   * plain field is in conflict, or nothing collides inside metadata.
   */
  lemma AutoExactly(base: Value, server: Value, client: Value, o: Options)
    requires server.Obj? && client.Obj? && o.mode == Auto
    ensures var auto, sv, cl := MergedInvoice(base, server, client, o),
        MergedInvoice(base, server, client, o.(mode := Server)), MergedInvoice(base, server, client, o.(mode := Client));
      (auto == sv || auto == cl) <==>
        (NestedWins(o) == FieldWins(o) || !PlainClash(base, server, client) || !NestedClash(base, server, client))
  {
    if NestedWins(o) != FieldWins(o) && PlainClash(base, server, client) && NestedClash(base, server, client) {
      var k :| k != "metadata" && InConflict(base, server, client, k);
      MixedTieBreak(base, server, client, o, k);
    } else {
      var clientSide := if PlainClash(base, server, client) then FieldWins(o) else NestedWins(o);
      AutoIsOneSided(base, server, client, o, clientSide);
    }
  }

  /**
   * Where they disagree, which takes equal timestamps, an edit that collides both
   * in a plain field and inside metadata is merged half one way and half the other.
   */
  lemma MixedTieBreak(base: Value, server: Value, client: Value, o: Options, k: string)
    requires server.Obj? && client.Obj? && o.mode == Auto && NestedWins(o) != FieldWins(o)
    requires k != "metadata" && InConflict(base, server, client, k) && InConflict(base, server, client, "metadata")
    requires Collisions(MetadataOf(base), MetadataOf(server), MetadataOf(client)) != {}
    ensures o.clientTime == o.serverTime
    ensures MergedInvoice(base, server, client, o) != MergedInvoice(base, server, client, o.(mode := Server))
    ensures MergedInvoice(base, server, client, o) != MergedInvoice(base, server, client, o.(mode := Client))
  {
    PlainDiffers(base, server, client, o, k);
    var sv, cl := o.(mode := Server), o.(mode := Client);
    MetadataDiffers(base, server, client, o, if NestedWins(o) then sv else cl, NestedWins(o));
    MergedAt(base, server, client, o, k);
    MergedAt(base, server, client, sv, k);
    MergedAt(base, server, client, cl, k);
    MergedAt(base, server, client, o, "metadata");
    MergedAt(base, server, client, sv, "metadata");
    MergedAt(base, server, client, cl, "metadata");
  }

  lemma PlainDiffers(base: Value, server: Value, client: Value, o: Options, k: string)
    requires server.Obj? && o.mode == Auto && k != "metadata" && InConflict(base, server, client, k)
    ensures MergedField(base, server, client, o, k) !=
      MergedField(base, server, client, o.(mode := if FieldWins(o) then Server else Client), k)
  {
    PlainConflict(base, server, client, o, k);
    PlainConflict(base, server, client, o.(mode := if FieldWins(o) then Server else Client), k);
  }

  lemma MetadataMerged(base: Value, server: Value, client: Value, o: Options, wins: bool, merged: Value)
    requires server.Obj? && InConflict(base, server, client, "metadata") && o.mode != StrictMode && wins == NestedWins(o)
    requires merged == Merge(MetadataOf(base), MetadataOf(server), MetadataOf(client), StrategyOf(o.mode, wins))
    ensures MergedField(base, server, client, o, "metadata") == Some(merged)
  {
    MetadataConflict(base, server, client, o);
  }

  lemma MetadataDiffers(base: Value, server: Value, client: Value, o: Options, o': Options, wins: bool)
    requires server.Obj? && o.mode == Auto && InConflict(base, server, client, "metadata") && wins == NestedWins(o)
    requires o' == o.(mode := if wins then Server else Client)
    requires Collisions(MetadataOf(base), MetadataOf(server), MetadataOf(client)) != {}
    ensures MergedField(base, server, client, o, "metadata") != MergedField(base, server, client, o', "metadata")
  {
    var x, y := AutoDiffers(MetadataOf(base), MetadataOf(server), MetadataOf(client), wins);
    MetadataMerged(base, server, client, o, wins, x);
    MetadataMerged(base, server, client, o', wins, y);
  }

  lemma AutoDiffers(b: Value, s: Value, c: Value, wins: bool) returns (auto: Value, other: Value)
    requires b.Obj? && s.Obj? && c.Obj? && Collisions(b, s, c) != {}
    ensures auto == Merge(b, s, c, AutoMerge(wins))
    ensures other == Merge(b, s, c, if wins then ServerWins else ClientWins)
    ensures auto != other
  {
    auto, other := Merge(b, s, c, AutoMerge(wins)), Merge(b, s, c, if wins then ServerWins else ClientWins);
    StrictIsAgreement(b, s, c);
    AutoMergeIsOneSided(b, s, c, wins);
  }

  // ---------- An edit that is merged both ways ----------

  /** An invoice with a description and one metadata entry. */
  function Noted(text: string): Value {
    Obj(map["description" := Scalar(text), "metadata" := Obj(map["k" := Scalar(text)])])
  }

  /** "Zoe" comes after "server" in a locale, where case is secondary, and before it by code units. */
  const ZOE := Options(Auto, 0, 0, "Zoe", true, false)

  lemma ZoeTies()
    ensures !NestedWins(ZOE) && FieldWins(ZOE)
  {
    assert !TextLess("server", "Zoe");
  }

  lemma NotedClash(base: Value, server: Value, client: Value)
    requires base == Noted("base") && server == Noted("server") && client == Noted("client")
    ensures InConflict(base, server, client, "description") && NestedClash(base, server, client)
  {
    var b, s, c := MetadataOf(base), MetadataOf(server), MetadataOf(client);
    var before, theirs, ours: Option<Value> := Some(Scalar("base")), Some(Scalar("server")), Some(Scalar("client"));
    assert "base" != "server" && "base" != "client" && "server" != "client";
    ClassifyIs(before, theirs, ours);
    assert Get(b, "k") == before && Get(s, "k") == theirs && Get(c, "k") == ours;
    assert b != s && b != c && s != c;
    ClassifyIs(Some(b), Some(s), Some(c));
    assert "k" in Keys(b, s, c);
    assert ["k"] in Collisions(b, s, c);
  }

  /** Client and server both rewrite the description and the same metadata entry at the same time. */
  lemma ZoeIsMergedBothWays()
    ensures var base, server, client := Noted("base"), Noted("server"), Noted("client");
      MergedInvoice(base, server, client, ZOE) !in
        {MergedInvoice(base, server, client, ZOE.(mode := Server)), MergedInvoice(base, server, client, ZOE.(mode := Client))}
  {
    var base, server, client := Noted("base"), Noted("server"), Noted("client");
    ZoeTies();
    NotedClash(base, server, client);
    AutoExactly(base, server, client, ZOE);
  }
}
