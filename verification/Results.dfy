/** Results of executing the phases of a deploy, and the builder that merges them into one. */
module Results {
  import opened Outcomes
  import opened Additive
  import opened Transforms
  import opened Effects
  import opened Cuts

  type Gas = nat

  datatype ExecError = FinalizationError | InsufficientPaymentError | PurseUnreadable | ExecFailure(code: nat)

  datatype ExecutionResult =
    | Failed(error: ExecError, effect: Effect, cost: Gas)
    | Succeeded(effect: Effect, cost: Gas)

  const NO_EFFECT: Effect := Effect(map[], map[])

  datatype BuilderError = MissingPayment | MissingSession | MissingFinalize

  /** What the reader gives for a key: it may fail, and a failed read is treated like a missing value. */
  datatype Reader = Reader(state: State, failing: set<Effects.Key>) {
    function Read(k: Effects.Key): Option<StoredValue> {
      if k in failing then None else Find(state, k)
    }
  }

  // ----- identity writes -----

  /** k is written with the value the reader already has. */
  predicate IsIdentityWrite(fns: Fns, reader: Reader, k: Effects.Key) {
    k in fns && fns[k].Write? && reader.Read(k) == Some(fns[k].written)
  }

  function Reduced(e: Effect, reader: Reader): Effect {
    Effect(
      map k | k in e.ops.Keys + e.fns.Keys && (k in e.ops || IsIdentityWrite(e.fns, reader, k)) ::
        if IsIdentityWrite(e.fns, reader, k) then OpRead else e.ops[k],
      map k | k in e.fns :: if IsIdentityWrite(e.fns, reader, k) then Identity else e.fns[k])
  }

  /** Collects the written keys the reader knows, then turns writes of the same value into reads. */
  method ReduceIdentityWrites(effect: Effect, reader: Reader) returns (r: Effect)
    ensures r == Reduced(effect, reader)
  {
    var ops, fns := effect.ops, effect.fns;
    var todo := set k | k in effect.fns && effect.fns[k].Write? && reader.Read(k).Some?;
    ghost var kvs := todo;
    while todo != {}
      invariant todo <= kvs && fns.Keys == effect.fns.Keys
      invariant forall k :: k in fns ==>
        fns[k] == if k !in todo && IsIdentityWrite(effect.fns, reader, k) then Identity else effect.fns[k]
      invariant forall k :: k in ops <==> k in effect.ops || (k !in todo && IsIdentityWrite(effect.fns, reader, k))
      invariant forall k :: k in ops ==>
        ops[k] == if k !in todo && IsIdentityWrite(effect.fns, reader, k) then OpRead else effect.ops[k]
      decreases todo
    {
      var k :| k in todo;
      todo := todo - {k};
      if reader.Read(k) == Some(fns[k].written) {
        fns := fns[k := Identity];
        ops := ops[k := OpRead];
      }
    }
    r := Effect(ops, fns);
    assert r.ops == Reduced(effect, reader).ops && r.fns == Reduced(effect, reader).fns;
  }

  /** The reduction names the same keys, changes only writes, and leaves no write of a value already there. */
  lemma ReducedShape(e: Effect, reader: Reader)
    ensures Reduced(e, reader).fns.Keys == e.fns.Keys
    ensures forall k :: k in e.fns && Reduced(e, reader).fns[k] != e.fns[k] ==>
      e.fns[k].Write? && Reduced(e, reader).fns[k] == Identity
    ensures forall k :: k in e.fns && Reduced(e, reader).fns[k].Write? ==>
      reader.Read(k) != Some(Reduced(e, reader).fns[k].written)
  {
  }

  /** Committed to the reader's state, the reduced effect does what the effect does. */
  lemma ReductionPreservesMeaning(e: Effect, reader: Reader, s': State)
    ensures CommitsTo(reader.state, Reduced(e, reader).fns, s') <==> CommitsTo(reader.state, e.fns, s')
  {
    var s, r := reader.state, Reduced(e, reader).fns;
    assert forall k :: k in e.fns ==> ApplyAt(k, Find(s, k), r[k]) == ApplyAt(k, Find(s, k), e.fns[k]);
  }

  lemma ReducedDescribes(e: Effect, reader: Reader)
    requires Described(e)
    ensures Described(Reduced(e, reader))
  {
  }

  // ----- the builder -----

  class ExecutionResultBuilder {
    var payment: Option<ExecutionResult>
    var session: Option<ExecutionResult>
    var finalize: Option<ExecutionResult>

    constructor ()
      ensures payment.None? && session.None? && finalize.None?
    {
      payment, session, finalize := None, None, None;
    }

    function TotalCost(): Gas
      reads this
    {
      CostOf(payment) + CostOf(session)
    }

    /** Merges the phases: a failed payment stands alone, a failed session adds nothing. */
    method Build(reader: Reader) returns (r: Result<ExecutionResult, BuilderError>)
      ensures r == Built(payment, session, finalize, reader)
    {
      var cost := TotalCost();
      var ops := new AdditiveMap<Effects.Key, Op>(map[]);
      var transforms := new AdditiveMap<Effects.Key, Transform>(map[]);
      var ret := Succeeded(NO_EFFECT, cost);
      if payment.None? { return Err(MissingPayment); }
      if payment.value.Failed? { return Ok(payment.value); }
      AddEffects(ops, transforms, payment.value.effect);
      if session.None? { return Err(MissingSession); }
      if session.value.Failed? {
        ret := session.value.(cost := cost);
      } else {
        AddEffects(ops, transforms, session.value.effect);
      }
      if finalize.None? { return Err(MissingFinalize); }
      if finalize.value.Failed? { return Ok(Failed(FinalizationError, NO_EFFECT, 0)); }
      AddEffects(ops, transforms, finalize.value.effect);
      var reduced := ReduceIdentityWrites(Effect(ops.entries, transforms.entries), reader);
      r := Ok(ret.(effect := reduced));
    }
  }

  function CostOf(r: Option<ExecutionResult>): Gas {
    if r.Some? then r.value.cost else 0
  }

  /** The phases whose effects a deploy keeps. */
  function Kept(payment: ExecutionResult, session: ExecutionResult, finalize: ExecutionResult): Effect {
    var paid := MergeEffects(NO_EFFECT, payment.effect);
    MergeEffects(if session.Succeeded? then MergeEffects(paid, session.effect) else paid, finalize.effect)
  }

  function Built(payment: Option<ExecutionResult>, session: Option<ExecutionResult>, finalize: Option<ExecutionResult>,
                 reader: Reader): Result<ExecutionResult, BuilderError>
  {
    if payment.None? then Err(MissingPayment)
    else if payment.value.Failed? then Ok(payment.value)
    else if session.None? then Err(MissingSession)
    else if finalize.None? then Err(MissingFinalize)
    else if finalize.value.Failed? then Ok(Failed(FinalizationError, NO_EFFECT, 0))
    else
      var effect := Reduced(Kept(payment.value, session.value, finalize.value), reader);
      var cost := CostOf(payment) + CostOf(session);
      match session.value
      case Succeeded(_, _) => Ok(Succeeded(effect, cost))
      case Failed(e, _, _) => Ok(Failed(e, effect, cost))
  }

  lemma MergeWithNothing(fns: Fns)
    ensures MergeFns(map[], fns) == fns
  {
    forall k | k in fns ensures Combine(Identity, fns[k]) == fns[k] {
    }
  }

  /** The transforms of payment and session as they go into the built effect. */
  function BeforeFinalize(payment: Fns, session: Option<Fns>): Fns {
    if session.Some? then MergeFns(payment, session.value) else payment
  }

  /** Payment merges exactly with the session, and what both leave with finalization. */
  ghost predicate PhasesMerge(s0: State, payment: Fns, session: Option<Fns>, finalize: Fns) {
    && (session.Some? ==> AllMergeable(s0, payment, session.value))
    && AllMergeable(s0, BeforeFinalize(payment, session), finalize)
  }

  function EffectOf(session: ExecutionResult): Option<Fns> {
    if session.Succeeded? then Some(session.effect.fns) else None
  }

  /** What the session adds to the built effect. */
  function SessionFns(session: ExecutionResult): Fns {
    if session.Succeeded? then session.effect.fns else map[]
  }

  lemma KeptFns(payment: ExecutionResult, session: ExecutionResult, finalize: ExecutionResult)
    ensures Kept(payment, session, finalize).fns
            == MergeFns(MergeFns(payment.effect.fns, SessionFns(session)), finalize.effect.fns)
            == MergeFns(BeforeFinalize(payment.effect.fns, EffectOf(session)), finalize.effect.fns)
  {
    MergeWithNothing(payment.effect.fns);
    assert MergeFns(payment.effect.fns, map[]) == payment.effect.fns;
  }

  /**
    The built effect means what the phases mean in order. Let payment lead from s0 to s1, the session from s1
    to s2 (or fail, and then s2 is s1), finalization from s2 to s3. Then the built effect leads from s0 to s3
    if and only if under every key of s0 no merge failed and the merged amount is, at the width of the stored
    integer, the sum of the amounts of the phases. So it does if no merge loses anything.
   */
  lemma BuildPreservesMeaning(payment: ExecutionResult, session: ExecutionResult, finalize: ExecutionResult,
                              failing: set<Effects.Key>, s0: State, s1: State, s2: State, s3: State)
    requires payment.Succeeded? && finalize.Succeeded?
    requires CommitsTo(s0, payment.effect.fns, s1)
    requires if session.Succeeded? then CommitsTo(s1, session.effect.fns, s2) else s2 == s1
    requires CommitsTo(s2, finalize.effect.fns, s3)
    ensures var built := Built(Some(payment), Some(session), Some(finalize), Reader(s0, failing)).value;
      CommitsTo(s0, built.effect.fns, s3)
      <==> SumsKept(s0, payment.effect.fns, SessionFns(session), finalize.effect.fns)
    ensures PhasesMerge(s0, payment.effect.fns, EffectOf(session), finalize.effect.fns) ==>
      SumsKept(s0, payment.effect.fns, SessionFns(session), finalize.effect.fns)
  {
    BuiltCommits(payment, session, finalize, failing, s0, s3);
    SessionCommits(session, s1, s2);
    ThreeInTurn(s0, payment.effect.fns, s1, SessionFns(session), s2, finalize.effect.fns, s3);
    if PhasesMerge(s0, payment.effect.fns, EffectOf(session), finalize.effect.fns) {
      KeptFns(payment, session, finalize);
      MergeInSteps(s0, payment.effect.fns, s1, EffectOf(session), s2, finalize.effect.fns, s3);
    }
  }

  lemma BuiltCommits(payment: ExecutionResult, session: ExecutionResult, finalize: ExecutionResult,
                     failing: set<Effects.Key>, s0: State, s3: State)
    requires payment.Succeeded? && finalize.Succeeded?
    ensures var built := Built(Some(payment), Some(session), Some(finalize), Reader(s0, failing)).value;
      CommitsTo(s0, built.effect.fns, s3)
      <==> CommitsTo(s0, MergeFns(MergeFns(payment.effect.fns, SessionFns(session)), finalize.effect.fns), s3)
  {
    KeptFns(payment, session, finalize);
    ReductionPreservesMeaning(Kept(payment, session, finalize), Reader(s0, failing), s3);
  }

  lemma SessionCommits(session: ExecutionResult, s1: State, s2: State)
    requires if session.Succeeded? then CommitsTo(s1, session.effect.fns, s2) else s2 == s1
    ensures CommitsTo(s1, SessionFns(session), s2)
  {
  }

  /** If no merge loses anything, the merged effect of all phases replays. */
  lemma MergeInSteps(s0: State, payment: Fns, s1: State, session: Option<Fns>, s2: State, finalize: Fns, s3: State)
    requires CommitsTo(s0, payment, s1) && CommitsTo(s2, finalize, s3)
    requires if session.Some? then CommitsTo(s1, session.value, s2) else s2 == s1
    requires PhasesMerge(s0, payment, session, finalize)
    ensures CommitsTo(s0, MergeFns(BeforeFinalize(payment, session), finalize), s3)
  {
    if session.Some? {
      MergePreservesMeaning(s0, payment, s1, session.value, s2);
    }
    MergePreservesMeaning(s0, BeforeFinalize(payment, session), s2, finalize, s3);
  }

  /** The operations of a built effect describe its transforms, if those of the phases do. */
  lemma BuiltIsDescribed(payment: ExecutionResult, session: ExecutionResult, finalize: ExecutionResult, reader: Reader)
    requires payment.Succeeded? && finalize.Succeeded?
    requires Described(payment.effect) && Described(session.effect) && Described(finalize.effect)
    ensures Described(Built(Some(payment), Some(session), Some(finalize), reader).value.effect)
  {
    var paid := MergeEffects(NO_EFFECT, payment.effect);
    MergeDescribes(NO_EFFECT, payment.effect);
    MergeDescribes(paid, session.effect);
    MergeDescribes(if session.Succeeded? then MergeEffects(paid, session.effect) else paid, finalize.effect);
    ReducedDescribes(Kept(payment, session, finalize), reader);
  }
}
