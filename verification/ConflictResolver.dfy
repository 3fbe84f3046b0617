/**
 * The three-way merge of concurrent edits of metadata: isDeepEqual and mergeMetadataObjects.
 *
 * Metadata values are scalars and nested objects; a key that is undefined is absent.
 */
module ConflictResolver {
  import opened Basics

  datatype Value = Null | Scalar(text: string) | Obj(fields: map<string, Value>)

  /** AutoMerge carries the outcome of its tie-break on timestamps and actor id. */
  datatype Strategy = AutoMerge(clientWins: bool) | ServerWins | ClientWins | Strict

  function Get(v: Value, k: string): Option<Value> {
    if v.Obj? && k in v.fields then Some(v.fields[k]) else None
  }

  // ---------- isDeepEqual ----------

  predicate DeepEqualValues(a: Value, b: Value)
    decreases a
  {
    match (a, b)
    case (Null, Null) => true
    case (Scalar(s), Scalar(t)) => s == t
    case (Obj(m), Obj(n)) => |m| == |n| && forall k :: k in m ==> k in n && DeepEqualValues(m[k], n[k])
    case _ => false
  }

  predicate DeepEqual(a: Option<Value>, b: Option<Value>) {
    if a.None? || b.None? then a.None? && b.None? else DeepEqualValues(a.value, b.value)
  }

  lemma SameSize<T>(a: set<T>, b: set<T>)
    requires a <= b && |a| == |b|
    ensures a == b
  {
    assert b == a + (b - a);
  }

  /** Comparing sizes and one side's keys is enough: the test is equality. */
  lemma {:induction false} DeepEqualIsEqual(a: Value, b: Value)
    ensures DeepEqualValues(a, b) <==> a == b
    decreases a
  {
    if a.Obj? && b.Obj? {
      var m, n := a.fields, b.fields;
      forall k | k in m && k in n ensures DeepEqualValues(m[k], n[k]) <==> m[k] == n[k] {
        DeepEqualIsEqual(m[k], n[k]);
      }
      if DeepEqualValues(a, b) {
        SameSize(m.Keys, n.Keys);
        assert m == n;
      }
    }
  }

  lemma DeepEqualOption(a: Option<Value>, b: Option<Value>)
    ensures DeepEqual(a, b) <==> a == b
  {
    if a.Some? && b.Some? { DeepEqualIsEqual(a.value, b.value); }
  }

  // ---------- mergeMetadataObjects ----------

  datatype Case = TakeServer | TakeClient | Recurse | Collide

  predicate IsObject(v: Option<Value>) {
    v.Some? && v.value.Obj?
  }

  /** Which of the five cases a key falls in. */
  function Classify(b: Option<Value>, s: Option<Value>, c: Option<Value>): Case {
    if DeepEqual(b, c) then TakeServer
    else if DeepEqual(b, s) then TakeClient
    else if DeepEqual(s, c) then TakeClient
    else if IsObject(s) && IsObject(c) then Recurse
    else Collide
  }

  lemma ClassifyIs(b: Option<Value>, s: Option<Value>, c: Option<Value>)
    ensures Classify(b, s, c) ==
      if b == c then TakeServer else if b == s || s == c then TakeClient
      else if IsObject(s) && IsObject(c) then Recurse else Collide
  {
    DeepEqualOption(b, c);
    DeepEqualOption(b, s);
    DeepEqualOption(s, c);
  }

  function TieBreak(s: Option<Value>, c: Option<Value>, st: Strategy): Option<Value> {
    match st
    case ServerWins => s
    case ClientWins => c
    case AutoMerge(clientWins) => if clientWins then c else s
    case Strict => None
  }

  /** The value of a key that needs no recursion. */
  function Chosen(b: Option<Value>, s: Option<Value>, c: Option<Value>, st: Strategy): Option<Value> {
    match Classify(b, s, c)
    case TakeServer => s
    case TakeClient => c
    case _ => TieBreak(s, c, st)
  }

  function AsObject(v: Option<Value>): (r: Value)
    ensures r.Obj?
  {
    if IsObject(v) then v.value else Obj(map[])
  }

  function Keys(b: Value, s: Value, c: Value): set<string>
    requires b.Obj? && s.Obj? && c.Obj?
  {
    b.fields.Keys + s.fields.Keys + c.fields.Keys
  }

  function Merge(b: Value, s: Value, c: Value, st: Strategy): (r: Value)
    requires b.Obj? && s.Obj? && c.Obj?
    ensures r.Obj?
    decreases s
  {
    Obj(map k | k in Keys(b, s, c)
              && (Classify(Get(b, k), Get(s, k), Get(c, k)) == Recurse || Chosen(Get(b, k), Get(s, k), Get(c, k), st).Some?)
          :: if Classify(Get(b, k), Get(s, k), Get(c, k)) == Recurse
             then Merge(AsObject(Get(b, k)), s.fields[k], c.fields[k], st)
             else Chosen(Get(b, k), Get(s, k), Get(c, k), st).value)
  }

  /** Key by key: a nested merge, or the chosen value. */
  lemma MergeAt(b: Value, s: Value, c: Value, st: Strategy, k: string)
    requires b.Obj? && s.Obj? && c.Obj?
    ensures Get(Merge(b, s, c, st), k) ==
      if Classify(Get(b, k), Get(s, k), Get(c, k)) == Recurse
      then Some(Merge(AsObject(Get(b, k)), Get(s, k).value, Get(c, k).value, st))
      else Chosen(Get(b, k), Get(s, k), Get(c, k), st)
  {
    ClassifyIs(Get(b, k), Get(s, k), Get(c, k));
  }

  lemma SameObject(v: Value, w: Value)
    requires v.Obj? && w.Obj? && forall k :: Get(v, k) == Get(w, k)
    ensures v == w
  {
    forall k ensures k in v.fields <==> k in w.fields {
      assert Get(v, k) == Get(w, k);
    }
    forall k | k in v.fields ensures v.fields[k] == w.fields[k] {
      assert Get(v, k) == Get(w, k);
    }
    assert v.fields == w.fields;
  }

  /** The key paths that STRICT reports. */
  function Collisions(b: Value, s: Value, c: Value): set<seq<string>>
    requires b.Obj? && s.Obj? && c.Obj?
    decreases s
  {
    (set k | k in Keys(b, s, c) && Classify(Get(b, k), Get(s, k), Get(c, k)) == Collide :: [k])
    + (set k, p | k in Keys(b, s, c) && Classify(Get(b, k), Get(s, k), Get(c, k)) == Recurse
                  && p in Collisions(AsObject(Get(b, k)), s.fields[k], c.fields[k]) :: [k] + p)
  }

  /** The paths that start with one key: the key itself, or the paths of the nested merge. */
  function KeyCollisions(b: Option<Value>, s: Option<Value>, c: Option<Value>): set<seq<string>> {
    match Classify(b, s, c)
    case Collide => {[]}
    case Recurse => Collisions(AsObject(b), AsObject(s), AsObject(c))
    case _ => {}
  }

  lemma CollisionsAt(b: Value, s: Value, c: Value, k: string, p: seq<string>)
    requires b.Obj? && s.Obj? && c.Obj?
    ensures [k] + p in Collisions(b, s, c) <==> p in KeyCollisions(Get(b, k), Get(s, k), Get(c, k))
  {
    ClassifyIs(Get(b, k), Get(s, k), Get(c, k));
    if [k] + p in Collisions(b, s, c) {
      assert ([k] + p)[0] == k && ([k] + p)[1..] == p;
      if Classify(Get(b, k), Get(s, k), Get(c, k)) == Recurse {
        var j, q :| [k] + p == [j] + q && j in Keys(b, s, c) && Classify(Get(b, j), Get(s, j), Get(c, j)) == Recurse
          && q in Collisions(AsObject(Get(b, j)), s.fields[j], c.fields[j]);
        assert ([j] + q)[0] == j && ([j] + q)[1..] == q;
      }
    }
    assert [k] + [] == [k];
  }

  lemma CollisionsNonEmpty(b: Value, s: Value, c: Value)
    requires b.Obj? && s.Obj? && c.Obj?
    ensures forall q :: q in Collisions(b, s, c) ==> q != [] && q == [q[0]] + q[1..]
  {
  }

  // ---------- Laws of the merge ----------

  /** CLIENT_WINS is SERVER_WINS with the two sides exchanged. */
  lemma {:induction false} ClientWinsIsSwapped(b: Value, s: Value, c: Value)
    requires b.Obj? && s.Obj? && c.Obj?
    ensures Merge(b, s, c, ClientWins) == Merge(b, c, s, ServerWins)
    decreases s
  {
    forall k ensures Get(Merge(b, s, c, ClientWins), k) == Get(Merge(b, c, s, ServerWins), k) {
      MergeAt(b, s, c, ClientWins, k);
      MergeAt(b, c, s, ServerWins, k);
      ClassifyIs(Get(b, k), Get(s, k), Get(c, k));
      ClassifyIs(Get(b, k), Get(c, k), Get(s, k));
      if Classify(Get(b, k), Get(s, k), Get(c, k)) == Recurse {
        ClientWinsIsSwapped(AsObject(Get(b, k)), Get(s, k).value, Get(c, k).value);
      }
    }
    SameObject(Merge(b, s, c, ClientWins), Merge(b, c, s, ServerWins));
  }

  /** AUTO_MERGE is one of the two, as its tie-break says. */
  lemma {:induction false} AutoMergeIsOneSided(b: Value, s: Value, c: Value, clientWins: bool)
    requires b.Obj? && s.Obj? && c.Obj?
    ensures Merge(b, s, c, AutoMerge(clientWins)) == Merge(b, s, c, if clientWins then ClientWins else ServerWins)
    decreases s
  {
    var st := if clientWins then ClientWins else ServerWins;
    forall k ensures Get(Merge(b, s, c, AutoMerge(clientWins)), k) == Get(Merge(b, s, c, st), k) {
      MergeAt(b, s, c, AutoMerge(clientWins), k);
      MergeAt(b, s, c, st, k);
      ClassifyIs(Get(b, k), Get(s, k), Get(c, k));
      if Classify(Get(b, k), Get(s, k), Get(c, k)) == Recurse {
        AutoMergeIsOneSided(AsObject(Get(b, k)), Get(s, k).value, Get(c, k).value, clientWins);
      }
    }
    SameObject(Merge(b, s, c, AutoMerge(clientWins)), Merge(b, s, c, st));
  }

  lemma NoCollisionAt(b: Value, s: Value, c: Value, k: string)
    requires b.Obj? && s.Obj? && c.Obj? && Collisions(b, s, c) == {}
    ensures KeyCollisions(Get(b, k), Get(s, k), Get(c, k)) == {}
    ensures Classify(Get(b, k), Get(s, k), Get(c, k)) != Collide
  {
    forall p ensures p !in KeyCollisions(Get(b, k), Get(s, k), Get(c, k)) {
      CollisionsAt(b, s, c, k, p);
    }
    assert Classify(Get(b, k), Get(s, k), Get(c, k)) == Collide ==> [] in KeyCollisions(Get(b, k), Get(s, k), Get(c, k));
  }

  /** Without collisions the strategy does not matter. */
  lemma {:induction false} NoCollisionOneMerge(b: Value, s: Value, c: Value, st: Strategy, st': Strategy)
    requires b.Obj? && s.Obj? && c.Obj? && Collisions(b, s, c) == {}
    ensures Merge(b, s, c, st) == Merge(b, s, c, st')
    decreases s
  {
    forall k ensures Get(Merge(b, s, c, st), k) == Get(Merge(b, s, c, st'), k) {
      MergeAt(b, s, c, st, k);
      MergeAt(b, s, c, st', k);
      NoCollisionAt(b, s, c, k);
      ClassifyIs(Get(b, k), Get(s, k), Get(c, k));
      if Classify(Get(b, k), Get(s, k), Get(c, k)) == Recurse {
        NoCollisionOneMerge(AsObject(Get(b, k)), Get(s, k).value, Get(c, k).value, st, st');
      }
    }
    SameObject(Merge(b, s, c, st), Merge(b, s, c, st'));
  }

  /** A collision makes the two winning strategies differ. */
  lemma {:induction false} CollisionShows(b: Value, s: Value, c: Value, q: seq<string>)
    requires b.Obj? && s.Obj? && c.Obj? && q in Collisions(b, s, c)
    ensures Merge(b, s, c, ServerWins) != Merge(b, s, c, ClientWins)
    decreases s
  {
    CollisionsNonEmpty(b, s, c);
    var k := q[0];
    CollisionsAt(b, s, c, k, q[1..]);
    ClassifyIs(Get(b, k), Get(s, k), Get(c, k));
    MergeAt(b, s, c, ServerWins, k);
    MergeAt(b, s, c, ClientWins, k);
    if Classify(Get(b, k), Get(s, k), Get(c, k)) == Recurse {
      CollisionShows(AsObject(Get(b, k)), Get(s, k).value, Get(c, k).value, q[1..]);
    }
  }

  /**
   * STRICT reports no collision exactly when SERVER_WINS and CLIENT_WINS agree,
   * and then all strategies give the same object.
   */
  lemma StrictIsAgreement(b: Value, s: Value, c: Value)
    requires b.Obj? && s.Obj? && c.Obj?
    ensures Collisions(b, s, c) == {} <==> Merge(b, s, c, ServerWins) == Merge(b, s, c, ClientWins)
    ensures Collisions(b, s, c) == {} ==> forall st :: Merge(b, s, c, st) == Merge(b, s, c, ServerWins)
  {
    if Collisions(b, s, c) == {} {
      forall st ensures Merge(b, s, c, st) == Merge(b, s, c, ServerWins) {
        NoCollisionOneMerge(b, s, c, st, ServerWins);
      }
    } else {
      var q :| q in Collisions(b, s, c);
      CollisionShows(b, s, c, q);
    }
  }

  /** If one side left the base alone the merge is the other side, deletions included. */
  lemma OneSidedEdit(b: Value, v: Value, st: Strategy)
    requires b.Obj? && v.Obj?
    ensures Merge(b, v, b, st) == v
    ensures Merge(b, b, v, st) == v
    ensures Merge(b, v, v, st) == v
  {
    forall k
      ensures Get(Merge(b, v, b, st), k) == Get(v, k)
      ensures Get(Merge(b, b, v, st), k) == Get(v, k)
      ensures Get(Merge(b, v, v, st), k) == Get(v, k)
    {
      MergeAt(b, v, b, st, k);
      MergeAt(b, b, v, st, k);
      MergeAt(b, v, v, st, k);
      ClassifyIs(Get(b, k), Get(v, k), Get(b, k));
      ClassifyIs(Get(b, k), Get(b, k), Get(v, k));
      ClassifyIs(Get(b, k), Get(v, k), Get(v, k));
    }
    SameObject(Merge(b, v, b, st), v);
    SameObject(Merge(b, b, v, st), v);
    SameObject(Merge(b, v, v, st), v);
  }

  // ---------- The merge at every depth ----------

  function Lookup(v: Value, path: seq<string>): Option<Value>
    decreases path
  {
    if path == [] then Some(v)
    else if Get(v, path[0]).None? then None
    else Lookup(Get(v, path[0]).value, path[1..])
  }

  /** Both sides have an object at every proper prefix of the path. */
  predicate OpenTo(s: Value, c: Value, path: seq<string>)
    decreases path
  {
    && path != [] && s.Obj? && c.Obj?
    && (|path| == 1 || (Get(s, path[0]).Some? && Get(c, path[0]).Some?
                        && OpenTo(Get(s, path[0]).value, Get(c, path[0]).value, path[1..])))
  }

  /** What three-way merging says about the values at one path. */
  ghost predicate ThreeWay(b: Option<Value>, s: Option<Value>, c: Option<Value>, m: Option<Value>, st: Strategy) {
    if b == c then m == s
    else if b == s || s == c then m == c
    else if IsObject(s) && IsObject(c) then IsObject(m)
    else
      && (st == ServerWins || st == AutoMerge(false) ==> m == s)
      && (st == ClientWins || st == AutoMerge(true) ==> m == c)
      && (st == Strict ==> m == None)
  }

  /** At every path below objects, the merge is the three-way merge of the three values at that path. */
  lemma {:induction false} ThreeWayEverywhere(b: Value, s: Value, c: Value, st: Strategy, path: seq<string>)
    requires b.Obj? && OpenTo(s, c, path)
    ensures ThreeWay(Lookup(b, path), Lookup(s, path), Lookup(c, path), Lookup(Merge(b, s, c, st), path), st)
    decreases path
  {
    var k := path[0];
    MergeAt(b, s, c, st, k);
    ClassifyIs(Get(b, k), Get(s, k), Get(c, k));
    if |path| == 1 {
      LookupOne(b, path);
      LookupOne(s, path);
      LookupOne(c, path);
      LookupOne(Merge(b, s, c, st), path);
    } else {
      LookupDeeper(b, path);
      if Classify(Get(b, k), Get(s, k), Get(c, k)) == Recurse {
        ThreeWayEverywhere(AsObject(Get(b, k)), Get(s, k).value, Get(c, k).value, st, path[1..]);
      }
    }
  }

  lemma LookupOne(v: Value, path: seq<string>)
    requires |path| == 1
    ensures Lookup(v, path) == Get(v, path[0])
  {
    assert path[1..] == [];
  }

  lemma LookupDeeper(v: Value, path: seq<string>)
    requires |path| > 1
    ensures Lookup(v, path) == Lookup(AsObject(Get(v, path[0])), path[1..])
  {
  }

  /**
   * A path is reported as a collision if and only if both sides have objects all the way down to it and
   * there differ from the base and from each other, without both being objects.
   */
  lemma {:induction false} CollisionExactly(b: Value, s: Value, c: Value, path: seq<string>)
    requires b.Obj? && s.Obj? && c.Obj?
    ensures path in Collisions(b, s, c) <==>
      && OpenTo(s, c, path)
      && var vb, vs, vc := Lookup(b, path), Lookup(s, path), Lookup(c, path);
         vb != vc && vb != vs && vs != vc && !(IsObject(vs) && IsObject(vc))
    decreases path
  {
    CollisionsNonEmpty(b, s, c);
    if path != [] {
      var k, p := path[0], path[1..];
      assert path == [k] + p;
      CollisionsAt(b, s, c, k, p);
      ClassifyIs(Get(b, k), Get(s, k), Get(c, k));
      if Classify(Get(b, k), Get(s, k), Get(c, k)) == Recurse {
        CollisionExactly(AsObject(Get(b, k)), Get(s, k).value, Get(c, k).value, p);
        CollisionsNonEmpty(AsObject(Get(b, k)), Get(s, k).value, Get(c, k).value);
      }
      if |path| == 1 {
        LookupOne(b, path);
        LookupOne(s, path);
        LookupOne(c, path);
      } else {
        LookupDeeper(b, path);
      }
    }
  }

  /** At a colliding path SERVER_WINS has the server's value, CLIENT_WINS the client's, AUTO_MERGE that of the winner, STRICT none. */
  lemma CollisionDecided(b: Value, s: Value, c: Value, path: seq<string>)
    requires b.Obj? && s.Obj? && c.Obj? && path in Collisions(b, s, c)
    ensures Lookup(Merge(b, s, c, ServerWins), path) == Lookup(s, path) == Lookup(Merge(b, s, c, AutoMerge(false)), path)
    ensures Lookup(Merge(b, s, c, ClientWins), path) == Lookup(c, path) == Lookup(Merge(b, s, c, AutoMerge(true)), path)
    ensures Lookup(Merge(b, s, c, Strict), path) == None
  {
    CollisionExactly(b, s, c, path);
    ThreeWayEverywhere(b, s, c, ServerWins, path);
    ThreeWayEverywhere(b, s, c, ClientWins, path);
    ThreeWayEverywhere(b, s, c, AutoMerge(false), path);
    ThreeWayEverywhere(b, s, c, AutoMerge(true), path);
    ThreeWayEverywhere(b, s, c, Strict, path);
  }

  // ---------- The loop over the keys ----------

  /** Paths that start with one of these keys. */
  function StartingIn(paths: set<seq<string>>, keys: set<string>): set<seq<string>> {
    set q | q in paths && q != [] && q[0] in keys
  }

  function Prefixed(k: string, paths: set<seq<string>>): set<seq<string>> {
    set p | p in paths :: [k] + p
  }

  /** One more key: its paths join those already collected. */
  lemma CollectKey(b: Value, s: Value, c: Value, done: set<string>, k: string)
    requires b.Obj? && s.Obj? && c.Obj?
    ensures StartingIn(Collisions(b, s, c), done + {k}) ==
      StartingIn(Collisions(b, s, c), done) + Prefixed(k, KeyCollisions(Get(b, k), Get(s, k), Get(c, k)))
  {
    var all := Collisions(b, s, c);
    var own := KeyCollisions(Get(b, k), Get(s, k), Get(c, k));
    CollisionsNonEmpty(b, s, c);
    forall q ensures q in StartingIn(all, done + {k}) <==> q in StartingIn(all, done) || q in Prefixed(k, own) {
      if q != [] && q[0] == k {
        CollisionsAt(b, s, c, k, q[1..]);
        assert q == [k] + q[1..];
      }
      if q in Prefixed(k, own) {
        var p :| p in own && q == [k] + p;
        CollisionsAt(b, s, c, k, p);
      }
    }
  }

  /** merged agrees with the target on the keys done, and has no others. */
  ghost predicate AgreesOn(merged: map<string, Value>, target: Value, done: set<string>) {
    && (forall k :: k in merged ==> k in done)
    && (forall k :: k in done ==> Get(Obj(merged), k) == Get(target, k))
  }

  lemma AgreeMore(merged: map<string, Value>, target: Value, done: set<string>, k: string)
    requires AgreesOn(merged, target, done) && k !in done
    ensures AgreesOn(if Get(target, k).Some? then merged[k := Get(target, k).value] else merged, target, done + {k})
  {
  }

  lemma MergedKeys(b: Value, s: Value, c: Value, st: Strategy, merged: map<string, Value>)
    requires b.Obj? && s.Obj? && c.Obj? && AgreesOn(merged, Merge(b, s, c, st), Keys(b, s, c))
    ensures Obj(merged) == Merge(b, s, c, st)
  {
    SameObject(Obj(merged), Merge(b, s, c, st));
  }

  lemma AllCollected(b: Value, s: Value, c: Value)
    requires b.Obj? && s.Obj? && c.Obj?
    ensures StartingIn(Collisions(b, s, c), Keys(b, s, c)) == Collisions(b, s, c)
  {
  }

  /** mergeMetadataObjects: one key at a time into merged, with collisions collected under STRICT. */
  method MergeMetadata(b: Value, s: Value, c: Value, st: Strategy)
    returns (merged: map<string, Value>, collisions: set<seq<string>>)
    requires b.Obj? && s.Obj? && c.Obj?
    ensures Obj(merged) == Merge(b, s, c, st)
    ensures collisions == if st.Strict? then Collisions(b, s, c) else {}
    decreases s
  {
    merged, collisions := map[], {};
    var todo := Keys(b, s, c);
    ghost var done: set<string> := {};
    ghost var target, paths := Merge(b, s, c, st), Collisions(b, s, c);
    while todo != {}
      invariant done !! todo && done + todo == Keys(b, s, c)
      invariant AgreesOn(merged, target, done)
      invariant collisions == if st.Strict? then StartingIn(paths, done) else {}
      decreases todo
    {
      var k :| k in todo;
      var value, found := MergeOne(b, s, c, st, k);
      AgreeMore(merged, target, done, k);
      CollectKey(b, s, c, done, k);
      if value.Some? {
        merged := merged[k := value.value];
      }
      collisions := collisions + found;
      todo, done := todo - {k}, done + {k};
    }
    MergedKeys(b, s, c, st, merged);
    AllCollected(b, s, c);
  }

  /** The body of the loop: what one key contributes. */
  method MergeOne(b: Value, s: Value, c: Value, st: Strategy, k: string)
    returns (value: Option<Value>, collisions: set<seq<string>>)
    requires b.Obj? && s.Obj? && c.Obj?
    ensures value == Get(Merge(b, s, c, st), k)
    ensures collisions == if st.Strict? then Prefixed(k, KeyCollisions(Get(b, k), Get(s, k), Get(c, k))) else {}
    decreases s, 0
  {
    MergeAt(b, s, c, st, k);
    ClassifyIs(Get(b, k), Get(s, k), Get(c, k));
    collisions := {};
    if DeepEqual(Get(b, k), Get(c, k)) {
      value := Get(s, k);
    } else if DeepEqual(Get(b, k), Get(s, k)) || DeepEqual(Get(s, k), Get(c, k)) {
      value := Get(c, k);
    } else if IsObject(Get(s, k)) && IsObject(Get(c, k)) {
      var sub, nested := MergeMetadata(AsObject(Get(b, k)), s.fields[k], c.fields[k], st);
      value := Some(Obj(sub));
      collisions := Prefixed(k, nested);
    } else {
      value := TieBreak(Get(s, k), Get(c, k), st);
      if st.Strict? {
        collisions := {[k]};
        assert Prefixed(k, {[]}) == {[k]} by { assert [k] + [] == [k]; }
      }
    }
  }
}
