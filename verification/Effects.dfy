/** Effects: a transform for each key. Committing an effect to a state, and merging two effects into one. */
module Effects {
  import opened Outcomes
  import opened Additive
  import opened Transforms
  import Keys

  type Key = Keys.Key
  type State = map<Key, StoredValue>
  type Fns = map<Key, Transform>

  datatype Op = OpRead | OpWrite | OpAdd | NoOp

  type Ops = map<Key, Op>

  datatype Effect = Effect(ops: Ops, fns: Fns)

  function AddOp(a: Op, b: Op): Op {
    if b.NoOp? then a
    else if a.NoOp? then b
    else if a == b && !a.OpWrite? then a
    else OpWrite
  }

  /** What an operation says of the transform beside it: a read changes nothing, an addition overwrites nothing. */
  predicate Describes(op: Op, t: Transform) {
    match op
    case OpRead => t.Identity?
    case NoOp => t.Identity?
    case OpAdd => t.AddNum? || t.AddKeys? || t.Failure?
    case OpWrite => true
  }

  ghost predicate Described(e: Effect) {
    e.ops.Keys == e.fns.Keys && forall k :: k in e.fns ==> Describes(e.ops[k], e.fns[k])
  }

  /** The sum of two operations describes the combination of the two transforms. */
  lemma SumDescribes(o: Op, t: Transform, p: Op, u: Transform)
    requires Describes(o, t) && Describes(p, u)
    ensures Describes(AddOp(o, p), Combine(t, u))
  {
  }

  lemma MergeDescribes(e: Effect, f: Effect)
    requires Described(e) && Described(f)
    ensures Described(MergeEffects(e, f))
  {
    forall k | k in f.fns ensures Describes(MergeOps(e.ops, f.ops)[k], MergeFns(e.fns, f.fns)[k]) {
      SumDescribes(At(e.ops, k, NoOp), At(e.fns, k, Identity), f.ops[k], f.fns[k]);
    }
  }

  function MergeFns(m: Fns, n: Fns): Fns {
    Merge<Key, Transform>(m, n, Combine, Identity)
  }

  function MergeOps(m: Ops, n: Ops): Ops {
    Merge<Key, Op>(m, n, AddOp, NoOp)
  }

  function MergeEffects(e: Effect, f: Effect): Effect {
    Effect(MergeOps(e.ops, f.ops), MergeFns(e.fns, f.fns))
  }

  // ----- committing -----

  datatype CommitError = KeyNotFound(key: Key) | TransformFailed(error: Error)

  /** What a commit writes under one key; only a write may create a key. */
  function ApplyAt(k: Key, current: Option<StoredValue>, t: Transform): Result<StoredValue, CommitError> {
    match current
    case None => if t.Write? then Ok(t.written) else Err(KeyNotFound(k))
    case Some(v) =>
      match Apply(t, v)
      case Ok(w) => Ok(w)
      case Err(e) => Err(TransformFailed(e))
  }

  /** The commit of fns to s succeeds and leaves s': each named key moves as its transform says, the others stay. */
  ghost predicate CommitsTo(s: State, fns: Fns, s': State) {
    && s'.Keys == s.Keys + fns.Keys
    && (forall k :: k in fns ==> ApplyAt(k, Find(s, k), fns[k]) == Ok(s'[k]))
    && (forall k :: k in s && k !in fns ==> s'[k] == s[k])
  }

  lemma CommitDeterministic(s: State, fns: Fns, s': State, s'': State)
    requires CommitsTo(s, fns, s') && CommitsTo(s, fns, s'')
    ensures s' == s''
  {
    assert forall k :: k in s' ==> s'[k] == s''[k];
  }

  /** The commit loop of global state, in whatever order the map yields its keys. */
  method Commit(s: State, fns: Fns) returns (r: Result<State, CommitError>)
    ensures r.Ok? ==> CommitsTo(s, fns, r.value)
    ensures r.Err? ==> exists k :: k in fns && ApplyAt(k, Find(s, k), fns[k]) == Err(r.error)
  {
    var step := (k: Key, v: Option<StoredValue>) => ApplyAt(k, v, if k in fns then fns[k] else Identity);
    r := UpdateKeys(s, fns.Keys, step);
    forall k | k in fns ensures step(k, Find(s, k)) == ApplyAt(k, Find(s, k), fns[k]) {
    }
  }

  /** Replaces the value under each key, one key at a time, until a step fails. */
  method UpdateKeys<K(==), V, E>(s: map<K, V>, keys: set<K>, step: (K, Option<V>) -> Result<V, E>)
    returns (r: Result<map<K, V>, E>)
    ensures r.Ok? ==> r.value.Keys == s.Keys + keys
    ensures r.Ok? ==> forall k :: k in keys ==> step(k, Find(s, k)) == Ok(r.value[k])
    ensures r.Ok? ==> forall k :: k in s && k !in keys ==> r.value[k] == s[k]
    ensures r.Err? ==> exists k :: k in keys && step(k, Find(s, k)) == Err(r.error)
  {
    var todo, state := keys, s;
    while todo != {}
      invariant todo <= keys && state.Keys == s.Keys + (keys - todo)
      invariant forall k :: k in keys && k !in todo ==> step(k, Find(s, k)) == Ok(state[k])
      invariant forall k :: k in s && (k !in keys || k in todo) ==> state[k] == s[k]
      decreases todo
    {
      var key :| key in todo;
      var value :- step(key, Find(state, key));
      state := state[key := value];
      todo := todo - {key};
    }
    r := Ok(state);
  }

  // ----- merging -----

  /** insert_add over every operation and every transform of an effect. */
  method AddEffects(ops: AdditiveMap<Key, Op>, transforms: AdditiveMap<Key, Transform>, effect: Effect)
    modifies ops, transforms
    ensures ops.entries == MergeOps(old(ops.entries), effect.ops)
    ensures transforms.entries == MergeFns(old(transforms.entries), effect.fns)
  {
    ops.InsertAddAll(effect.ops, AddOp, NoOp);
    transforms.InsertAddAll(effect.fns, Combine, Identity);
  }

  /** No key that both effects touch loses part of an amount. */
  ghost predicate AllMergeable(s: State, m: Fns, n: Fns) {
    forall k :: k in m && k in n && k in s ==> Mergeable(m[k], n[k], s[k])
  }

  lemma MergeAt(k: Key, current: Option<StoredValue>, a: Transform, b: Transform, v: StoredValue, w: StoredValue)
    requires ApplyAt(k, current, a) == Ok(v) && ApplyAt(k, Some(v), b) == Ok(w)
    ensures ApplyAt(k, current, Combine(a, b)) == Ok(w) <==> (current.Some? ==> Mergeable(a, b, current.value))
  {
    if current.Some? {
      CombineRefinesSequence(a, b, current.value);
    }
  }

  lemma IdentityAt(k: Key, current: Option<StoredValue>, b: Transform)
    ensures ApplyAt(k, current, Combine(Identity, b)) == ApplyAt(k, current, b)
  {
  }

  /**
    Merging preserves meaning: where two effects commit one after the other, the merged effect leaves the
    same state from the start if and only if no key loses part of an amount.
   */
  lemma MergePreservesMeaning(s0: State, m: Fns, s1: State, n: Fns, s2: State)
    requires CommitsTo(s0, m, s1) && CommitsTo(s1, n, s2)
    ensures CommitsTo(s0, MergeFns(m, n), s2) <==> AllMergeable(s0, m, n)
  {
    forall k | k in MergeFns(m, n)
      ensures ApplyAt(k, Find(s0, k), MergeFns(m, n)[k]) == Ok(s2[k])
              <==> (k in m && k in n && k in s0 ==> Mergeable(m[k], n[k], s0[k]))
    {
      MergedAt(s0, m, s1, n, s2, k);
    }
  }

  lemma MergedAt(s0: State, m: Fns, s1: State, n: Fns, s2: State, k: Key)
    requires CommitsTo(s0, m, s1) && CommitsTo(s1, n, s2) && k in MergeFns(m, n)
    ensures k in s2
    ensures ApplyAt(k, Find(s0, k), MergeFns(m, n)[k]) == Ok(s2[k])
            <==> (k in m && k in n && k in s0 ==> Mergeable(m[k], n[k], s0[k]))
  {
    if k in m && k in n {
      MergeAt(k, Find(s0, k), m[k], n[k], s1[k], s2[k]);
    } else if k in n {
      IdentityAt(k, Find(s0, k), n[k]);
      assert Find(s0, k) == Find(s1, k);
    }
  }

  /**
    Recording one more transform: if the recorded effect leads from the base to the view, it still does after
    t has acted on the view and been added to the record, if and only if the two merge exactly.
   */
  lemma RecordStep(s: State, fns: Fns, view: State, k: Key, t: Transform, v: StoredValue)
    requires CommitsTo(s, fns, view) && k in view && Apply(t, view[k]) == Ok(v)
    ensures CommitsTo(s, fns[k := Combine(At(fns, k, Identity), t)], view[k := v])
            <==> (k in s ==> Mergeable(At(fns, k, Identity), t, s[k]))
  {
    var a := At(fns, k, Identity);
    var fns', view' := fns[k := Combine(a, t)], view[k := v];
    assert view'.Keys == view.Keys && fns'.Keys == fns.Keys + {k};
    assert ApplyAt(k, Find(s, k), a) == Ok(view[k]);
    MergeAt(k, Find(s, k), a, t, view[k], v);
    RecordElsewhere(s, fns, view, k, Combine(a, t), v);
  }

  /** Recording a write, also of a key that was not there, keeps the record true to the view. */
  lemma WriteStep(s: State, fns: Fns, view: State, k: Key, v: StoredValue)
    requires CommitsTo(s, fns, view)
    ensures CommitsTo(s, fns[k := Combine(At(fns, k, Identity), Write(v))], view[k := v])
  {
    RecordElsewhere(s, fns, view, k, Combine(At(fns, k, Identity), Write(v)), v);
  }

  lemma RecordElsewhere(s: State, fns: Fns, view: State, k: Key, c: Transform, v: StoredValue)
    requires CommitsTo(s, fns, view)
    ensures CommitsTo(s, fns[k := c], view[k := v]) <==> ApplyAt(k, Find(s, k), c) == Ok(v)
  {
    assert fns[k := c].Keys == fns.Keys + {k} && view[k := v].Keys == view.Keys + {k};
  }
}
