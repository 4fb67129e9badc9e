/** The tracking copy: a view of the state that records, key by key, the effect which turns the base into the view. */
module Tracking {
  import opened Outcomes
  import opened Additive
  import opened Transforms
  import opened Effects
  import opened Cuts
  import opened Arith
  import opened Ints
  import opened CLTypes
  import Bytesrepr
  import Keys

  datatype AddResult = Success | NotFound(key: Effects.Key) | Mismatch | Undecodable(error: Bytesrepr.Error)

  /** The integer types whose values can be added: i32, u64 and the wide unsigned ones. */
  function AddKindOf(t: CLType): (k: Option<IntType>)
    ensures k.Some? ==> IsAddKind(k.value) && AsIntType(t) == k
  {
    if t.I32? || t.U64? || t.U128? || t.U256? || t.U512? then AsIntType(t) else None
  }

  /** The transform that adding a value stands for: an amount, or one named key. */
  function TransformOf(value: StoredValue): (r: Result<Transform, AddResult>)
    ensures r.Ok? ==> Describes(OpAdd, r.value)
  {
    if !value.Plain? then Err(Mismatch)
    else if AddKindOf(value.value.clType).Some? then
      var k := AddKindOf(value.value.clType).value;
      match IntoInt(k, value.value.bytes)
      case Err(e) => Err(Undecodable(e))
      case Ok(x) =>
        DecodeInRange(k, value.value.bytes);
        Ok(AddNum(k, x))
    else if value.value.clType == Tuple2(String, CLType.Key) then
      match Bytesrepr.Deserialize(Bytesrepr.PairCodec(Bytesrepr.ByteVecCodec(), Keys.KeyCodec()), value.value.bytes)
      case Err(e) => Err(Undecodable(e))
      case Ok(p) => Ok(AddKeys(map[p.0 := p.1]))
    else Err(Mismatch)
  }

  function ErrorOf(e: Transforms.Error): AddResult {
    match e
    case TypeMismatch => Mismatch
    case Serialization(b) => Undecodable(b)
  }

  class TrackingCopy {
    const reader: State
    var muts: State
    var ops: Ops
    var fns: Fns

    /** What reading through this copy gives: the mutations over the base. */
    ghost function View(): State
      reads this
    {
      reader + muts
    }

    function Recorded(): Effect
      reads this
    {
      Effect(ops, fns)
    }

    /** Committing the recorded effect to the base gives the view. */
    ghost predicate Sound()
      reads this
    {
      CommitsTo(reader, fns, View())
    }

    constructor (reader: State)
      ensures this.reader == reader && View() == reader && Sound()
      ensures ops == map[] && fns == map[] && Described(Recorded())
    {
      this.reader := reader;
      muts, ops, fns := map[], map[], map[];
    }

    /** A copy over this copy: starts with no effect of its own and reads what this one shows. */
    method Fork() returns (t: TrackingCopy)
      ensures fresh(t) && t.reader == View() && t.View() == View() && t.Sound() && t.fns == map[]
      ensures Described(t.Recorded())
    {
      t := new TrackingCopy(reader + muts);
    }

    method Get(k: Effects.Key) returns (v: Option<StoredValue>)
      ensures v == Find(View(), k)
    {
      v := if k in muts then Some(muts[k]) else if k in reader then Some(reader[k]) else None;
    }

    method Record(k: Effects.Key, op: Op, t: Transform)
      modifies this`ops, this`fns
      ensures ops == old(ops)[k := AddOp(At(old(ops), k, NoOp), op)]
      ensures fns == old(fns)[k := Combine(At(old(fns), k, Identity), t)]
      ensures old(Described(Recorded())) && Describes(op, t) ==> Described(Recorded())
    {
      ghost var before := Recorded();
      if Described(before) && Describes(op, t) {
        SumDescribes(At(ops, k, NoOp), At(fns, k, Identity), op, t);
      }
      ops := ops[k := AddOp(if k in ops then ops[k] else NoOp, op)];
      fns := fns[k := Combine(if k in fns then fns[k] else Identity, t)];
    }

    method Read(key: Effects.Key) returns (v: Option<StoredValue>)
      modifies this`ops, this`fns
      ensures v == Find(View(), key.Normalize()) && View() == old(View())
      ensures fns == DoRead(key).Noted(old(View()), old(fns))
      ensures old(Sound()) ==> Sound()
      ensures old(Described(Recorded())) ==> Described(Recorded())
    {
      ghost var view, before := View(), fns;
      var k := key.Normalize();
      v := Get(k);
      if v.Some? {
        Record(k, OpRead, Identity);
      }
      if CommitsTo(reader, before, view) {
        AccessStep(reader, view, before, DoRead(key));
      }
    }

    method Write(key: Effects.Key, value: StoredValue)
      modifies this
      ensures View() == DoWrite(key, value).On(old(View()))
      ensures fns == DoWrite(key, value).Noted(old(View()), old(fns))
      ensures old(Sound()) ==> Sound()
      ensures old(Described(Recorded())) ==> Described(Recorded())
    {
      ghost var view, before := View(), fns;
      var k := key.Normalize();
      muts := muts[k := value];
      Record(k, OpWrite, RawTransform.Write(value));
      assert View() == view[k := value];
      if CommitsTo(reader, before, view) {
        AccessStep(reader, view, before, DoWrite(key, value));
      }
    }

    /**
      Adds to the value under key. A failed addition changes nothing. After a successful one the recorded
      effect still replays to the view if and only if the amount merges exactly with those recorded before.
     */
    method Add(key: Effects.Key, value: StoredValue) returns (r: AddResult)
      modifies this
      ensures r.Success? <==> DoAdd(key, value).Change(old(View())).Some?
      ensures View() == DoAdd(key, value).On(old(View()))
      ensures fns == DoAdd(key, value).Noted(old(View()), old(fns))
      ensures old(Sound()) ==> (Sound() <==> DoAdd(key, value).ExactOn(reader, old(View()), old(fns)))
      ensures old(Described(Recorded())) ==> Described(Recorded())
    {
      ghost var view, before := View(), fns;
      r := TryAdd(key.Normalize(), value);
      if CommitsTo(reader, before, view) {
        AccessStep(reader, view, before, DoAdd(key, value));
      }
    }

    method TryAdd(k: Effects.Key, value: StoredValue) returns (r: AddResult)
      modifies this
      ensures var sum := Added(old(View()), k, value);
        && (r.Success? <==> sum.Some?)
        && View() == (if sum.Some? then old(View())[k := sum.value] else old(View()))
        && fns == if sum.None? then old(fns)
                  else old(fns)[k := Combine(At(old(fns), k, Identity), TransformOf(value).value)]
      ensures old(Described(Recorded())) ==> Described(Recorded())
    {
      ghost var view := View();
      var current := Get(k);
      if current.None? {
        return NotFound(k);
      }
      var converted := TransformOf(value);
      if converted.Err? {
        return converted.error;
      }
      var t := converted.value;
      match Apply(t, current.value) {
        case Err(e) =>
          r := ErrorOf(e);
        case Ok(newValue) =>
          muts := muts[k := newValue];
          assert View() == view[k := newValue];
          Record(k, OpAdd, t);
          r := Success;
      }
    }

    method Perform(access: Access)
      modifies this
      ensures View() == access.On(old(View())) && fns == access.Noted(old(View()), old(fns))
      ensures old(Described(Recorded())) ==> Described(Recorded())
    {
      match access {
        case DoRead(key) => var _ := Read(key);
        case DoWrite(key, value) => Write(key, value);
        case DoAdd(key, value) => var _ := Add(key, value);
      }
    }

    /**
      What code does through this copy shows in the view and in the record. The record replays to the view
      if and only if it still holds the sum of all that was added, whatever the widths; so it does if no
      addition is cut when it merges with those before it.
     */
    method Run(accesses: seq<Access>)
      modifies this
      ensures View() == Performed(old(View()), accesses) && fns == Noted(old(View()), old(fns), accesses)
      ensures old(Sound()) ==> (Sound() <==> AmountsKept(old(View()), old(fns), accesses))
      ensures old(Sound()) && Exact(reader, old(View()), old(fns), accesses) ==> Sound()
      ensures old(Described(Recorded())) ==> Described(Recorded())
    {
      for i := 0 to |accesses|
        invariant old(Described(Recorded())) ==> Described(Recorded())
        invariant View() == Performed(old(View()), accesses[..i])
        invariant fns == Noted(old(View()), old(fns), accesses[..i])
      {
        assert accesses[..i + 1][..i] == accesses[..i];
        Perform(accesses[i]);
      }
      assert accesses[..|accesses|] == accesses;
      if old(Sound()) {
        RecordReplaysIff(reader, old(View()), old(fns), accesses);
      }
      if old(Sound()) && Exact(reader, old(View()), old(fns), accesses) {
        ExactReplays(reader, old(View()), old(fns), accesses);
      }
    }
  }

  // ----- accesses -----

  /** The value under k after adding to it, if that can be done. */
  function Added(view: State, k: Effects.Key, value: StoredValue): Option<StoredValue> {
    if k in view && TransformOf(value).Ok? && Apply(TransformOf(value).value, view[k]).Ok?
    then Some(Apply(TransformOf(value).value, view[k]).value)
    else None
  }

  datatype Access =
    | DoRead(key: Effects.Key)
    | DoWrite(key: Effects.Key, value: StoredValue)
    | DoAdd(key: Effects.Key, value: StoredValue)
  {
    /** What the access makes of the state that is read through a copy; an addition that fails makes nothing. */
    function On(view: State): State {
      var k := key.Normalize();
      match this
      case DoRead(_) => view
      case DoWrite(_, v) => view[k := v]
      case DoAdd(_, v) => (match Added(view, k, v) case Some(sum) => view[k := sum] case None => view)
    }

    /** The transform the access records; none for a read of nothing or an addition that fails. */
    function Change(view: State): Option<Transform> {
      var k := key.Normalize();
      match this
      case DoRead(_) => if k in view then Some(Identity) else None
      case DoWrite(_, v) => Some(RawTransform.Write(v))
      case DoAdd(_, v) => if Added(view, k, v).Some? then Some(TransformOf(v).value) else None
    }

    /** The record after the access. */
    function Noted(view: State, fns: Fns): Fns {
      var k := key.Normalize();
      match Change(view)
      case None => fns
      case Some(t) => fns[k := Combine(At(fns, k, Identity), t)]
    }

    /** The record after the access, with what has been cut. */
    function Traced(view: State, tr: Trace): Trace {
      match Change(view)
      case None => tr
      case Some(t) => tr.With(key.Normalize(), t)
    }

    /** Nothing is cut when what the access adds merges with the record; base is the state below the copy. */
    predicate ExactOn(base: State, view: State, fns: Fns) {
      var k := key.Normalize();
      Change(view).Some? && k in base ==> Mergeable(At(fns, k, Identity), Change(view).value, base[k])
    }

    /** A number this access adds is 512 bits wide. */
    predicate IsWide() {
      DoAdd? && TransformOf(value).Ok? ==> Wide(TransformOf(value).value)
    }
  }

  /** The state after a list of accesses. */
  function Performed(view: State, accesses: seq<Access>): State {
    if accesses == [] then view
    else accesses[|accesses| - 1].On(Performed(view, accesses[..|accesses| - 1]))
  }

  /** The record after a list of accesses. */
  function Noted(view: State, fns: Fns, accesses: seq<Access>): Fns {
    if accesses == [] then fns
    else
      var n := |accesses| - 1;
      accesses[n].Noted(Performed(view, accesses[..n]), Noted(view, fns, accesses[..n]))
  }

  /** The record after a list of accesses, with what has been cut. */
  function Traced(view: State, tr: Trace, accesses: seq<Access>): (r: Trace)
    ensures r.fns == Noted(view, tr.fns, accesses)
  {
    if accesses == [] then tr
    else
      var n := |accesses| - 1;
      accesses[n].Traced(Performed(view, accesses[..n]), Traced(view, tr, accesses[..n]))
  }

  /** The sum after one more transform: a write starts it anew. */
  function SumOn(sum: int, t: Transform): int {
    if t.Write? then 0 else sum + AmountOf(t)
  }

  /** What has been added under k since it was last written, on top of what the record fns holds. */
  function AddedTo(view: State, fns: Fns, accesses: seq<Access>, k: Effects.Key): int {
    if accesses == [] then AmountOf(At(fns, k, Identity))
    else
      var n := |accesses| - 1;
      var sum, change := AddedTo(view, fns, accesses[..n], k), accesses[n].Change(Performed(view, accesses[..n]));
      if accesses[n].key.Normalize() == k && change.Some? then SumOn(sum, change.value) else sum
  }

  /** No merge has failed, and each recorded amount is the sum that was added, at the width of the stored integer. */
  ghost predicate AmountsKept(view: State, fns: Fns, accesses: seq<Access>) {
    var record, now := Noted(view, fns, accesses), Performed(view, accesses);
    forall k :: k in record && k in now ==> AmountKept(record[k], AddedTo(view, fns, accesses, k), now[k])
  }

  ghost predicate AmountKept(t: Transform, sum: int, now: StoredValue) {
    && !t.Failure?
    && (t.AddNum? && StoredIntType(now).Some? ==> Congruent(sum, t.amount, Size(StoredIntType(now).value)))
  }

  /** No access of the list is cut when it merges with the record so far. */
  ghost predicate Exact(base: State, view: State, fns: Fns, accesses: seq<Access>) {
    forall i :: 0 <= i < |accesses| ==> ExactAt(base, view, fns, accesses, i)
  }

  ghost predicate ExactAt(base: State, view: State, fns: Fns, accesses: seq<Access>, i: nat)
    requires i < |accesses|
  {
    accesses[i].ExactOn(base, Performed(view, accesses[..i]), Noted(view, fns, accesses[..i]))
  }

  /** After the first i accesses the record replays to the view. */
  ghost predicate SoundAt(base: State, view: State, fns: Fns, accesses: seq<Access>, i: nat)
    requires i <= |accesses|
  {
    CommitsTo(base, Noted(view, fns, accesses[..i]), Performed(view, accesses[..i]))
  }

  /** One access keeps a record that replays to the view so if and only if nothing is cut. */
  lemma AccessStep(base: State, view: State, fns: Fns, access: Access)
    requires CommitsTo(base, fns, view)
    ensures CommitsTo(base, access.Noted(view, fns), access.On(view)) <==> access.ExactOn(base, view, fns)
  {
    var k := access.key.Normalize();
    match access
    case DoRead(_) =>
      if k in view {
        RecordStep(base, fns, view, k, Identity, view[k]);
        assert view[k := view[k]] == view;
      }
    case DoWrite(_, v) => WriteStep(base, fns, view, k, v);
    case DoAdd(_, v) =>
      if Added(view, k, v).Some? {
        RecordStep(base, fns, view, k, TransformOf(v).value, Added(view, k, v).value);
      }
  }

  /** The record replays to the view after every access of a list if and only if no access is cut. */
  lemma ExactIffSound(base: State, view: State, fns: Fns, accesses: seq<Access>)
    requires CommitsTo(base, fns, view)
    ensures Exact(base, view, fns, accesses) <==>
      forall i :: 0 <= i <= |accesses| ==> SoundAt(base, view, fns, accesses, i)
  {
    if Exact(base, view, fns, accesses) {
      forall i | 0 <= i <= |accesses| ensures SoundAt(base, view, fns, accesses, i) {
        ExactIsSound(base, view, fns, accesses, i);
      }
    } else {
      var i :| 0 <= i < |accesses| && !ExactAt(base, view, fns, accesses, i);
      if SoundAt(base, view, fns, accesses, i) {
        NextSound(base, view, fns, accesses, i);
      }
    }
  }

  lemma {:induction false} ExactIsSound(base: State, view: State, fns: Fns, accesses: seq<Access>, i: nat)
    requires i <= |accesses| && CommitsTo(base, fns, view) && Exact(base, view, fns, accesses)
    ensures SoundAt(base, view, fns, accesses, i)
    decreases i
  {
    if i > 0 {
      ExactIsSound(base, view, fns, accesses, i - 1);
      assert ExactAt(base, view, fns, accesses, i - 1);
      NextSound(base, view, fns, accesses, i - 1);
    }
  }

  /** So after the whole list the record replays to the view. */
  lemma ExactReplays(base: State, view: State, fns: Fns, accesses: seq<Access>)
    requires CommitsTo(base, fns, view) && Exact(base, view, fns, accesses)
    ensures CommitsTo(base, Noted(view, fns, accesses), Performed(view, accesses))
  {
    ExactIsSound(base, view, fns, accesses, |accesses|);
    assert accesses[..|accesses|] == accesses;
  }

  lemma NextSound(base: State, view: State, fns: Fns, accesses: seq<Access>, i: nat)
    requires i < |accesses| && SoundAt(base, view, fns, accesses, i)
    ensures SoundAt(base, view, fns, accesses, i + 1) <==> ExactAt(base, view, fns, accesses, i)
  {
    assert accesses[..i + 1][..i] == accesses[..i];
    AccessStep(base, Performed(view, accesses[..i]), Noted(view, fns, accesses[..i]), accesses[i]);
  }

  // ----- the last record alone -----

  lemma AccessFollows(base: State, tr: Trace, view: State, access: Access)
    requires tr.Follows(base, view)
    ensures access.Traced(view, tr).Follows(base, access.On(view))
  {
    var k := access.key.Normalize();
    match access
    case DoRead(_) =>
      if k in view {
        WithFollows(base, tr, view, k, Identity, view[k]);
        assert view[k := view[k]] == view;
      }
    case DoWrite(_, v) => WithFollows(base, tr, view, k, RawTransform.Write(v), v);
    case DoAdd(_, v) =>
      if Added(view, k, v).Some? {
        WithFollows(base, tr, view, k, TransformOf(v).value, Added(view, k, v).value);
      }
  }

  /** A trace goes on to follow what is done. */
  lemma {:induction false} TraceFollows(base: State, tr: Trace, view: State, accesses: seq<Access>)
    requires tr.Follows(base, view)
    ensures Traced(view, tr, accesses).Follows(base, Performed(view, accesses))
  {
    if accesses != [] {
      var n := |accesses| - 1;
      TraceFollows(base, tr, view, accesses[..n]);
      AccessFollows(base, Traced(view, tr, accesses[..n]), Performed(view, accesses[..n]), accesses[n]);
    }
  }

  /** The cut of a transform t is what the sum has over its amount; only amounts are cut. */
  ghost predicate CutIsRest(t: Transform, cut: int, sum: int) {
    && (t.Identity? ==> sum == 0)
    && (!t.Failure? ==> cut == if t.AddNum? then sum - t.amount else 0)
  }

  lemma RestOn(t: Transform, cut: int, sum: int, r: Transform)
    requires CutIsRest(t, cut, sum) && !r.Failure?
    ensures CutIsRest(Combine(t, r), JoinCuts(t, cut, r, 0), SumOn(sum, r))
  {
  }

  lemma {:induction false} TracedCut(view: State, fns: Fns, accesses: seq<Access>, k: Effects.Key)
    ensures var tr := Traced(view, Trace(fns, map[]), accesses);
      CutIsRest(tr.Fn(k), tr.Cut(k), AddedTo(view, fns, accesses, k))
  {
    if accesses != [] {
      var n := |accesses| - 1;
      TracedCut(view, fns, accesses[..n], k);
      var tr := Traced(view, Trace(fns, map[]), accesses[..n]);
      var change := accesses[n].Change(Performed(view, accesses[..n]));
      if accesses[n].key.Normalize() == k && change.Some? {
        RestOn(tr.Fn(k), tr.Cut(k), AddedTo(view, fns, accesses[..n], k), change.value);
      }
    }
  }

  /**
    Of the last record alone: it replays to the view if and only if no merge failed and under every key it
    holds, at the stored width, the sum of all that was added since the last write.
   */
  lemma RecordReplaysIff(base: State, view: State, fns: Fns, accesses: seq<Access>)
    requires CommitsTo(base, fns, view)
    ensures CommitsTo(base, Noted(view, fns, accesses), Performed(view, accesses)) <==> AmountsKept(view, fns, accesses)
  {
    var start := Trace(fns, map[]);
    var tr, now := Traced(view, start, accesses), Performed(view, accesses);
    CommittedFollows(base, fns, view);
    TraceFollows(base, start, view, accesses);
    ReplaysIff(base, tr, now);
    forall k | k in tr.fns && k in now
      ensures Whole(tr.fns[k], tr.Cut(k), now[k]) <==> AmountKept(tr.fns[k], AddedTo(view, fns, accesses, k), now[k])
    {
      TracedCut(view, fns, accesses, k);
      WholeIffKept(tr.fns[k], tr.Cut(k), AddedTo(view, fns, accesses, k), now[k]);
    }
  }

  lemma WholeIffKept(t: Transform, cut: int, sum: int, now: StoredValue)
    requires CutIsRest(t, cut, sum)
    ensures Whole(t, cut, now) <==> AmountKept(t, sum, now)
  {
    if t.AddNum? && StoredIntType(now).Some? {
      ShortfallCongruence(sum, t.amount, Size(StoredIntType(now).value));
    }
  }

  // ----- 512-bit amounts -----

  predicate Wide(t: Transform) {
    t.AddNum? ==> t.kind == UINT512
  }

  ghost predicate AllWide(fns: Fns) {
    forall k :: k in fns ==> Wide(fns[k])
  }

  /** 512-bit amounts stay 512-bit amounts when they merge, and merge exactly whatever integer they meet. */
  lemma WideCombines(a: Transform, b: Transform, v: StoredValue)
    requires Wide(a) && Wide(b)
    ensures Wide(Combine(a, b)) && Mergeable(a, b, v)
  {
  }

  /** Accesses that add only 512-bit amounts are never cut, and leave only such amounts in the record. */
  lemma WideIsExact(base: State, view: State, fns: Fns, accesses: seq<Access>)
    requires AllWide(fns) && forall i :: 0 <= i < |accesses| ==> accesses[i].IsWide()
    ensures Exact(base, view, fns, accesses) && AllWide(Noted(view, fns, accesses))
  {
    forall i | 0 <= i < |accesses| ensures ExactAt(base, view, fns, accesses, i) {
      WideSoFar(view, fns, accesses, i);
      WideStep(base, Performed(view, accesses[..i]), Noted(view, fns, accesses[..i]), accesses[i]);
    }
    WideSoFar(view, fns, accesses, |accesses|);
    assert accesses[..|accesses|] == accesses;
  }

  lemma {:induction false} WideSoFar(view: State, fns: Fns, accesses: seq<Access>, i: nat)
    requires i <= |accesses| && AllWide(fns) && forall j :: 0 <= j < |accesses| ==> accesses[j].IsWide()
    ensures AllWide(Noted(view, fns, accesses[..i]))
    decreases i
  {
    if i > 0 {
      var n := i - 1;
      WideSoFar(view, fns, accesses, n);
      assert accesses[..i][..n] == accesses[..n];
      WideStep(view, Performed(view, accesses[..n]), Noted(view, fns, accesses[..n]), accesses[n]);
    }
  }

  lemma WideStep(base: State, view: State, fns: Fns, access: Access)
    requires AllWide(fns) && access.IsWide()
    ensures access.ExactOn(base, view, fns) && AllWide(access.Noted(view, fns))
  {
    var k := access.key.Normalize();
    match access.Change(view)
    case None =>
    case Some(t) => WideCombines(At(fns, k, Identity), t, At(base, k, Account(Entity(map[], []))));
  }
}
