/** A deploy: payment, session and finalization over forked tracking copies, merged into one effect. */
module Deploy {
  import opened Outcomes
  import opened Additive
  import opened Transforms
  import opened Effects
  import opened Cuts
  import opened Tracking
  import opened Results
  import opened Accounting
  import Mint

  /** What the executor did in one phase: accesses to the state, a failure or none, and the gas it took. */
  datatype Phase = Phase(accesses: seq<Access>, failure: Option<ExecError>, cost: Gas) {
    predicate IsWide() {
      forall i :: 0 <= i < |accesses| ==> accesses[i].IsWide()
    }
  }

  /** The balance keys of the three purses a deploy looks at. */
  datatype PurseKeys = PurseKeys(main: Effects.Key, rewards: Effects.Key, payment: Effects.Key)

  // ----- what a deploy amounts to -----

  function PreconditionFailure(e: ExecError): ExecutionResult {
    Failed(e, NO_EFFECT, 0)
  }

  /** The deploy is charged by force. */
  function Charged(e: ExecError, balance: Motes, keys: PurseKeys): ExecutionResult
    requires MAX_PAYMENT <= balance
  {
    Failed(e, PaymentErrorEffect(MAX_PAYMENT, balance, keys.main, keys.rewards), FromMotes(MAX_PAYMENT))
  }

  /** The result of the payment phase as far as its charge is concerned. */
  function PaymentResult(payment: Phase): ExecutionResult {
    if payment.failure.None? then Succeeded(NO_EFFECT, payment.cost)
    else Failed(payment.failure.value, NO_EFFECT, payment.cost)
  }

  /** How a deploy ends. */
  datatype Ending =
    | Refused(error: ExecError)                    // nothing happens, nothing is charged
    | ChargedByForce(error: ExecError, balance: Motes)
    | Settled(ran: Phase, closed: Phase)           // what session and finalization did

  /** The state after the session; a failed session leaves the state it started from. */
  function AfterSession(s1: State, session: Phase): State {
    if session.failure.None? then Performed(s1, session.accesses) else s1
  }

  /** The state after session and finalization. */
  function Final(s1: State, ran: Phase, closed: Phase): State {
    Performed(AfterSession(s1, ran), closed.accesses)
  }

  /** The ending once payment is made: cost is what payment took, and paid is in the payment purse. */
  ghost function Completes(cost: Gas, paid: Motes, session: Gas -> Phase, finalize: Motes -> Phase): Ending
    requires cost <= FromMotes(paid) && forall g: Gas :: session(g).cost <= g
  {
    var ran := session(FromMotes(paid) - cost);
    CostsAreCovered(Succeeded(NO_EFFECT, cost), paid, ran.cost);
    var closed := finalize(FromGas(cost + ran.cost).value);
    Closing(ran, closed)
  }

  /** A failed finalization fails the whole deploy. */
  function Closing(ran: Phase, closed: Phase): Ending {
    if closed.failure.Some? then Refused(FinalizationError) else Settled(ran, closed)
  }

  /** The ending after payment code: main was on the account before, s1 is the state now. */
  ghost function PaidEnds(s1: State, keys: PurseKeys, main: Motes, payment: ExecutionResult,
                          session: Gas -> Phase, finalize: Motes -> Phase): Ending
    requires forall g: Gas :: session(g).cost <= g
  {
    var paid := ReadBalance(s1, keys.payment.Normalize());
    if paid.None? then Refused(PurseUnreadable)
    else match CheckForcedTransfer(payment, paid.value)
      case Some(InsufficientPayment) => ChargedByForce(InsufficientPaymentError, main)
      case Some(PaymentFailure) => ChargedByForce(payment.error, main)
      case None => Completes(payment.cost, paid.value, session, finalize)
  }

  /**
    How a deploy ends. The session gets the gas the payment buys beyond its own cost, and finalization is
    handed the price of both.
   */
  ghost function Ends(s: State, keys: PurseKeys, payment: Phase, session: Gas -> Phase, finalize: Motes -> Phase)
    : Ending
    requires forall g: Gas :: session(g).cost <= g
  {
    var main := ReadBalance(s, keys.main.Normalize());
    if main.None? then Refused(PurseUnreadable)
    else if main.value < MAX_PAYMENT then Refused(InsufficientPaymentError)
    else PaidEnds(Performed(s, payment.accesses), keys, main.value, PaymentResult(payment), session, finalize)
  }

  // ----- what the result of a deploy says -----

  /** What a phase that starts from s with nothing recorded has recorded at its end. */
  function RecordOf(s: State, phase: Phase): Fns {
    Noted(s, map[], phase.accesses)
  }

  /** The record before payment code runs: the account's balance was read. */
  function FirstRead(s: State, keys: PurseKeys): Fns {
    DoRead(keys.main).Noted(s, map[])
  }

  function PaymentRecord(s: State, keys: PurseKeys, payment: Phase): Fns {
    Noted(s, FirstRead(s, keys), payment.accesses)
  }

  function SessionRecord(s1: State, ran: Phase): Option<Fns> {
    if ran.failure.None? then Some(RecordOf(s1, ran)) else None
  }

  /** What the session leaves in the record of the deploy. */
  function KeptRecord(s1: State, ran: Phase): Fns {
    if ran.failure.None? then RecordOf(s1, ran) else map[]
  }

  /** No addition of session or finalization is cut when it merges with the record of its own phase. */
  ghost predicate LaterExact(s1: State, ran: Phase, closed: Phase) {
    && (ran.failure.None? ==> Exact(s1, s1, map[], ran.accesses))
    && Exact(AfterSession(s1, ran), AfterSession(s1, ran), map[], closed.accesses)
  }

  /** The merges across phases lose nothing. */
  ghost predicate MergesExactly(s: State, payment: Fns, s1: State, ran: Phase, closed: Phase) {
    PhasesMerge(s, payment, SessionRecord(s1, ran), RecordOf(AfterSession(s1, ran), closed))
  }

  /** The record of a phase that starts from s, with what has been cut. */
  function PhaseTrace(s: State, phase: Phase): (tr: Trace)
    ensures tr.fns == RecordOf(s, phase)
  {
    Traced(s, NO_TRACE, phase.accesses)
  }

  function PaymentTrace(s: State, keys: PurseKeys, payment: Phase): (tr: Trace)
    ensures tr.fns == PaymentRecord(s, keys, payment)
  {
    Traced(s, Trace(FirstRead(s, keys), map[]), payment.accesses)
  }

  /** The merged record of payment and session; a failed session leaves none. */
  function SessionTrace(paid: Trace, s1: State, ran: Phase): (tr: Trace)
    ensures tr.fns == BeforeFinalize(paid.fns, SessionRecord(s1, ran))
  {
    if ran.failure.None? then paid.Then(PhaseTrace(s1, ran)) else paid
  }

  /** The merged record of a settled deploy, with what has been cut within the phases and between them. */
  function SettledTrace(paid: Trace, s1: State, ran: Phase, closed: Phase): (tr: Trace)
    ensures tr.fns
            == MergeFns(BeforeFinalize(paid.fns, SessionRecord(s1, ran)), RecordOf(AfterSession(s1, ran), closed))
  {
    SessionTrace(paid, s1, ran).Then(PhaseTrace(AfterSession(s1, ran), closed))
  }

  /**
    The result of a settled deploy: its cost, its error, and what its effect does to the state before. The
    effect replays payment, session and finalization if and only if no merge failed and what was cut under
    each key, within the phases and between them, comes to nothing at the width of the stored integer.
   */
  ghost predicate TellsSettled(s: State, paid: Trace, cost: Gas, s1: State, ran: Phase, closed: Phase,
                               r: ExecutionResult)
  {
    && r.cost == cost + ran.cost
    && (r.Failed? <==> ran.failure.Some?) && (r.Failed? ==> r.error == ran.failure.value)
    && (CommitsTo(s, r.effect.fns, Final(s1, ran, closed))
        <==> SettledTrace(paid, s1, ran, closed).Lossless(Final(s1, ran, closed)))
  }

  /**
    The result of a deploy charged by force. Committed to s, it moves exactly the maximal payment from the
    account to the rewards; if both were one balance, that would grow by the payment instead.
   */
  ghost predicate TellsCharge(s: State, keys: PurseKeys, e: ExecError, balance: Motes, r: ExecutionResult) {
    && MAX_PAYMENT <= balance && r == Charged(e, balance, keys)
    && (CanBeCredited(s, keys) ==> CommitsTo(s, r.effect.fns, AfterCharge(s, keys, balance)))
  }

  /** The rewards are a balance with room for the maximal payment. */
  ghost predicate CanBeCredited(s: State, keys: PurseKeys) {
    var rewards := ReadBalance(s, keys.rewards.Normalize());
    rewards.Some? && rewards.value + MAX_PAYMENT < Mint.BOUND
  }

  /** The state with the maximal payment moved from the account to the rewards. */
  ghost function AfterCharge(s: State, keys: PurseKeys, balance: Motes): State
    requires CanBeCredited(s, keys) && MAX_PAYMENT <= balance
  {
    var m, w := keys.main.Normalize(), keys.rewards.Normalize();
    var credited := StoredBalance(ReadBalance(s, w).value + MAX_PAYMENT);
    if m == w then s[w := credited] else s[m := StoredBalance(balance - MAX_PAYMENT)][w := credited]
  }

  /** The result of what follows a payment that was made. */
  ghost predicate TellsPaid(s: State, paid: Trace, cost: Gas, s1: State, r: ExecutionResult, e: Ending) {
    match e
    case Refused(error) => r == PreconditionFailure(error)
    case ChargedByForce(_, _) => false
    case Settled(ran, closed) => TellsSettled(s, paid, cost, s1, ran, closed, r)
  }

  /** The result of a deploy, where paid is the trace of the payment phase and s1 the state after it. */
  ghost predicate Tells(s: State, keys: PurseKeys, paid: Trace, cost: Gas, s1: State, r: ExecutionResult, e: Ending) {
    if e.ChargedByForce? then TellsCharge(s, keys, e.error, e.balance, r) else TellsPaid(s, paid, cost, s1, r, e)
  }

  // ----- the deploy itself -----

  /** Runs a phase on a tracking copy and returns the recorded effect, or the one from before if it fails. */
  method Execute(tc: TrackingCopy, phase: Phase) returns (r: ExecutionResult)
    modifies tc
    ensures tc.View() == Performed(old(tc.View()), phase.accesses)
    ensures tc.fns == Noted(old(tc.View()), old(tc.fns), phase.accesses)
    ensures old(tc.Sound()) ==> (tc.Sound() <==> AmountsKept(old(tc.View()), old(tc.fns), phase.accesses))
    ensures old(tc.Sound()) && Exact(tc.reader, old(tc.View()), old(tc.fns), phase.accesses) ==> tc.Sound()
    ensures r.cost == phase.cost && (r.Succeeded? <==> phase.failure.None?)
    ensures r.Succeeded? ==> r.effect == tc.Recorded()
    ensures r.Failed? ==> r.error == phase.failure.value && r.effect == old(tc.Recorded())
  {
    var snapshot := tc.Recorded();
    tc.Run(phase.accesses);
    match phase.failure {
      case None => r := Succeeded(tc.Recorded(), phase.cost);
      case Some(e) => r := Failed(e, snapshot, phase.cost);
    }
  }

  /** A balance read through a copy, which records the read. */
  method ReadPurse(tc: TrackingCopy, key: Effects.Key) returns (balance: Option<Motes>)
    modifies tc
    ensures tc.View() == old(tc.View()) && tc.fns == DoRead(key).Noted(old(tc.View()), old(tc.fns))
    ensures old(tc.Sound()) ==> tc.Sound()
    ensures balance == ReadBalance(tc.View(), key.Normalize())
  {
    var v := tc.Read(key);
    balance := BalanceOf(v);
  }

  /** The session runs on a fork; if it fails, finalization starts again from the state after payment. */
  method RunSession(tc: TrackingCopy, session: Phase) returns (r: ExecutionResult, copy: TrackingCopy)
    ensures fresh(copy) && copy.View() == AfterSession(tc.View(), session)
    ensures Reports(r, session, tc.View())
  {
    copy := tc.Fork();
    r := Execute(copy, session);
    if r.Failed? {
      copy := tc.Fork();
    }
  }

  method RunFinalize(copy: TrackingCopy, phase: Phase) returns (r: ExecutionResult)
    ensures Closes(r, phase, copy.View())
  {
    var tc := copy.Fork();
    r := Execute(tc, phase);
  }

  /** Session and finalization after a payment that covers them. */
  method Complete(s: State, failing: set<Effects.Key>, tc: TrackingCopy, ghost trace: Trace, ghost s1: State,
                  payment: ExecutionResult, paid: Motes, session: Gas -> Phase, finalize: Motes -> Phase,
                  ghost ending: Ending)
    returns (r: ExecutionResult)
    requires CheckForcedTransfer(payment, paid).None? && forall g: Gas :: session(g).cost <= g
    requires payment.cost <= FromMotes(paid) && ending == Completes(payment.cost, paid, session, finalize)
    requires tc.View() == s1 && trace.fns == payment.effect.fns && trace.Follows(s, s1)
    ensures TellsPaid(s, trace, payment.cost, s1, r, ending)
  {
    PhasesAreCovered(payment, paid, session, finalize);
    var ran := session(FromMotes(paid) - payment.cost);
    ghost var closed := finalize(FromGas(payment.cost + ran.cost).value);
    assert ending == Closing(ran, closed);
    r := Settle(s, failing, tc, trace, s1, payment, ran, finalize, closed);
  }

  /** Once payment is made, no gas underflows, and the price that finalization is handed does not overflow. */
  lemma PhasesAreCovered(payment: ExecutionResult, paid: Motes, session: Gas -> Phase, finalize: Motes -> Phase)
    requires CheckForcedTransfer(payment, paid).None? && forall g: Gas :: session(g).cost <= g
    ensures payment.Succeeded? && payment.cost <= FromMotes(paid)
    ensures var ran := session(FromMotes(paid) - payment.cost);
      && FromGas(payment.cost + ran.cost).Some?
      && Completes(payment.cost, paid, session, finalize)
         == Closing(ran, finalize(FromGas(payment.cost + ran.cost).value))
  {
    CostsAreCovered(payment, paid, session(FromMotes(paid) - payment.cost).cost);
  }

  /** Runs the session, then finalization for the price of payment and session. */
  method Settle(s: State, failing: set<Effects.Key>, tc: TrackingCopy, ghost trace: Trace, ghost s1: State,
                payment: ExecutionResult, ran: Phase, finalize: Motes -> Phase, ghost closed: Phase)
    returns (r: ExecutionResult)
    requires payment.Succeeded? && FromGas(payment.cost + ran.cost).Some?
    requires closed == finalize(FromGas(payment.cost + ran.cost).value)
    requires tc.View() == s1 && trace.fns == payment.effect.fns && trace.Follows(s, s1)
    ensures TellsPaid(s, trace, payment.cost, s1, r, Closing(ran, closed))
  {
    var sessionResult, finalResult := RunBoth(tc, payment.cost, ran, finalize, closed);
    r := BuildResult(s, failing, payment, sessionResult, finalResult);
    CompleteTells(trace, payment, sessionResult, finalResult, failing, s, s1, ran, closed);
  }

  method RunBoth(tc: TrackingCopy, cost: Gas, ran: Phase, finalize: Motes -> Phase, ghost closed: Phase)
    returns (session: ExecutionResult, final: ExecutionResult)
    requires FromGas(cost + ran.cost).Some? && closed == finalize(FromGas(cost + ran.cost).value)
    ensures Reports(session, ran, tc.View()) && Closes(final, closed, AfterSession(tc.View(), ran))
  {
    var copy;
    session, copy := RunSession(tc, ran);
    final := RunFinalize(copy, finalize(FromGas(cost + session.cost).value));
  }

  /** One result from those of the three phases. */
  method BuildResult(s: State, failing: set<Effects.Key>,
                     payment: ExecutionResult, session: ExecutionResult, finalize: ExecutionResult)
    returns (r: ExecutionResult)
    ensures r == Built(Some(payment), Some(session), Some(finalize), Reader(s, failing)).value
  {
    var builder := new ExecutionResultBuilder();
    builder.payment, builder.session, builder.finalize := Some(payment), Some(session), Some(finalize);
    var built := builder.Build(Reader(s, failing));
    r := built.value;
  }

  /** A session result that reports what the phase did from s1. */
  ghost predicate Reports(r: ExecutionResult, ran: Phase, s1: State) {
    && r.cost == ran.cost && EffectOf(r) == SessionRecord(s1, ran) && (r.Failed? ==> r.error == ran.failure.value)
    && (r.Succeeded? ==>
          (CommitsTo(s1, r.effect.fns, AfterSession(s1, ran)) <==> AmountsKept(s1, map[], ran.accesses)))
  }

  /** A finalization result that reports what the phase did from s2. */
  ghost predicate Closes(r: ExecutionResult, closed: Phase, s2: State) {
    && (r.Succeeded? <==> closed.failure.None?)
    && (r.Succeeded? ==> r.effect.fns == RecordOf(s2, closed))
    && (r.Succeeded? ==>
          (CommitsTo(s2, r.effect.fns, Performed(s2, closed.accesses)) <==> AmountsKept(s2, map[], closed.accesses)))
  }

  lemma CompleteTells(paid: Trace, payment: ExecutionResult, session: ExecutionResult, finalize: ExecutionResult,
                      failing: set<Effects.Key>, s: State, s1: State, ran: Phase, closed: Phase)
    requires payment.Succeeded? && paid.fns == payment.effect.fns && paid.Follows(s, s1)
    requires Reports(session, ran, s1) && Closes(finalize, closed, AfterSession(s1, ran))
    ensures TellsPaid(s, paid, payment.cost, s1,
                      Built(Some(payment), Some(session), Some(finalize), Reader(s, failing)).value,
                      Closing(ran, closed))
  {
    if finalize.Succeeded? {
      BuiltTells(paid, payment, session, finalize, failing, s, s1, ran, closed);
    }
  }

  lemma BuiltTells(paid: Trace, payment: ExecutionResult, session: ExecutionResult, finalize: ExecutionResult,
                   failing: set<Effects.Key>, s: State, s1: State, ran: Phase, closed: Phase)
    requires payment.Succeeded? && finalize.Succeeded? && paid.fns == payment.effect.fns && paid.Follows(s, s1)
    requires Reports(session, ran, s1) && Closes(finalize, closed, AfterSession(s1, ran))
    ensures TellsSettled(s, paid, payment.cost, s1, ran, closed,
                         Built(Some(payment), Some(session), Some(finalize), Reader(s, failing)).value)
  {
    BuiltCommits(payment, session, finalize, failing, s, Final(s1, ran, closed));
    KeptFns(payment, session, finalize);
    SettledFollows(s, paid, s1, ran, closed);
    ReplaysIff(s, SettledTrace(paid, s1, ran, closed), Final(s1, ran, closed));
  }

  /** The trace of a settled deploy follows all it does, whatever was cut. */
  lemma SettledFollows(s: State, paid: Trace, s1: State, ran: Phase, closed: Phase)
    requires paid.Follows(s, s1)
    ensures SettledTrace(paid, s1, ran, closed).Follows(s, Final(s1, ran, closed))
  {
    var s2 := AfterSession(s1, ran);
    SessionFollows(s, paid, s1, ran);
    PhaseFollows(s2, closed);
    ThenFollows(s, SessionTrace(paid, s1, ran), s2, PhaseTrace(s2, closed), Final(s1, ran, closed));
  }

  lemma SessionFollows(s: State, paid: Trace, s1: State, ran: Phase)
    requires paid.Follows(s, s1)
    ensures SessionTrace(paid, s1, ran).Follows(s, AfterSession(s1, ran))
  {
    if ran.failure.None? {
      PhaseFollows(s1, ran);
      ThenFollows(s, paid, s1, PhaseTrace(s1, ran), AfterSession(s1, ran));
    }
  }

  lemma PhaseFollows(s: State, phase: Phase)
    ensures PhaseTrace(s, phase).Follows(s, Performed(s, phase.accesses))
  {
    TraceFollows(s, NO_TRACE, s, phase.accesses);
  }

  lemma PaymentFollows(s: State, keys: PurseKeys, payment: Phase)
    ensures PaymentTrace(s, keys, payment).Follows(s, Performed(s, payment.accesses))
  {
    FirstReadReplays(s, keys);
    CommittedFollows(s, FirstRead(s, keys), s);
    TraceFollows(s, Trace(FirstRead(s, keys), map[]), s, payment.accesses);
  }

  /** What follows payment: a refusal, the forced transfer, or session and finalization. */
  method AfterPayment(s: State, failing: set<Effects.Key>, keys: PurseKeys, main: Motes, tc: TrackingCopy,
                      ghost trace: Trace, payment: ExecutionResult, session: Gas -> Phase, finalize: Motes -> Phase)
    returns (r: ExecutionResult)
    requires MAX_PAYMENT <= main && ReadBalance(s, keys.main.Normalize()) == Some(main)
    requires forall g: Gas :: session(g).cost <= g
    requires (payment.Succeeded? ==> trace.fns == payment.effect.fns) && trace.Follows(s, tc.View())
    modifies tc
    ensures Tells(s, keys, trace, payment.cost, old(tc.View()), r,
                  PaidEnds(old(tc.View()), keys, main, payment, session, finalize))
  {
    var paid := ReadPurse(tc, keys.payment);
    if paid.None? { return PreconditionFailure(PurseUnreadable); }
    var forced := CheckForcedTransfer(payment, paid.value);
    if forced.Some? {
      var error := if forced.value.InsufficientPayment? then InsufficientPaymentError else payment.error;
      ChargeTells(s, keys, error, main);
      return Charged(error, main, keys);
    }
    CostsAreCovered(payment, paid.value, 0);
    ghost var ending := Completes(payment.cost, paid.value, session, finalize);
    r := Complete(s, failing, tc, trace, tc.View(), payment, paid.value, session, finalize, ending);
  }

  /**
    Runs payment, then session, then finalization, each over a fork of the copy before, and builds one result.
    No subtraction of gas underflows and no price overflows on the way. The session stays within its gas limit.
   */
  method Deploy(s: State, failing: set<Effects.Key>, keys: PurseKeys, payment: Phase, session: Gas -> Phase,
                finalize: Motes -> Phase)
    returns (r: ExecutionResult)
    requires forall g: Gas :: session(g).cost <= g
    ensures Tells(s, keys, PaymentTrace(s, keys, payment), payment.cost, Performed(s, payment.accesses), r,
                  Ends(s, keys, payment, session, finalize))
  {
    var tc := new TrackingCopy(s);
    var main := ReadPurse(tc, keys.main);
    if main.None? { return PreconditionFailure(PurseUnreadable); }
    if main.value < MAX_PAYMENT { return PreconditionFailure(InsufficientPaymentError); }
    var paymentResult := Execute(tc, payment);
    PaymentFollows(s, keys, payment);
    ghost var trace := PaymentTrace(s, keys, payment);
    r := AfterPayment(s, failing, keys, main.value, tc, trace, paymentResult, session, finalize);
    DeployTells(s, keys, payment, paymentResult, main.value, session, finalize, r);
  }

  lemma DeployTells(s: State, keys: PurseKeys, payment: Phase, result: ExecutionResult, main: Motes,
                    session: Gas -> Phase, finalize: Motes -> Phase, r: ExecutionResult)
    requires MAX_PAYMENT <= main && ReadBalance(s, keys.main.Normalize()) == Some(main)
    requires forall g: Gas :: session(g).cost <= g
    requires result.cost == payment.cost && (result.Succeeded? <==> payment.failure.None?)
    requires result.Failed? ==> result.error == payment.failure.value
    requires var s1 := Performed(s, payment.accesses);
      Tells(s, keys, PaymentTrace(s, keys, payment), result.cost, s1, r,
            PaidEnds(s1, keys, main, result, session, finalize))
    ensures Tells(s, keys, PaymentTrace(s, keys, payment), payment.cost, Performed(s, payment.accesses), r,
                  Ends(s, keys, payment, session, finalize))
  {
    var s1 := Performed(s, payment.accesses);
    assert Ends(s, keys, payment, session, finalize) == PaidEnds(s1, keys, main, result, session, finalize);
    assert PaidEnds(s1, keys, main, result, session, finalize).Settled? ==> result.Succeeded?;
  }

  /** Payment replays from the state before it to the state after it exactly if its record keeps what was added. */
  lemma PaymentReplays(s: State, keys: PurseKeys, payment: Phase)
    ensures CommitsTo(s, PaymentRecord(s, keys, payment), Performed(s, payment.accesses))
            <==> AmountsKept(s, FirstRead(s, keys), payment.accesses)
    ensures Exact(s, s, FirstRead(s, keys), payment.accesses) ==>
      CommitsTo(s, PaymentRecord(s, keys, payment), Performed(s, payment.accesses))
  {
    FirstReadReplays(s, keys);
    RecordReplaysIff(s, s, FirstRead(s, keys), payment.accesses);
    if Exact(s, s, FirstRead(s, keys), payment.accesses) {
      ExactReplays(s, s, FirstRead(s, keys), payment.accesses);
    }
  }

  lemma ChargeTells(s: State, keys: PurseKeys, e: ExecError, balance: Motes)
    requires MAX_PAYMENT <= balance && ReadBalance(s, keys.main.Normalize()) == Some(balance)
    ensures TellsCharge(s, keys, e, balance, Charged(e, balance, keys))
  {
    if CanBeCredited(s, keys) {
      ChargeReplays(s, keys, balance, AfterCharge(s, keys, balance));
    }
  }

  lemma ChargeReplays(s: State, keys: PurseKeys, balance: Motes, after: State)
    requires MAX_PAYMENT <= balance && ReadBalance(s, keys.main.Normalize()) == Some(balance)
    requires CanBeCredited(s, keys) && after == AfterCharge(s, keys, balance)
    ensures CommitsTo(s, PaymentErrorEffect(MAX_PAYMENT, balance, keys.main, keys.rewards).fns, after)
  {
    if keys.main.Normalize() == keys.rewards.Normalize() {
      ForcedOntoItself(s, MAX_PAYMENT, balance, keys.main, keys.rewards, after);
    } else {
      ForcedTransferMoves(s, MAX_PAYMENT, balance, keys.main, keys.rewards, after);
    }
  }

  // ----- 512-bit amounts -----

  lemma MergeStaysWide(m: Fns, n: Fns)
    requires AllWide(m) && AllWide(n)
    ensures AllWide(MergeFns(m, n))
  {
    forall k | k in MergeFns(m, n) ensures Wide(MergeFns(m, n)[k]) {
      if k in n {
        WideCombines(At(m, k, Identity), n[k], Account(Entity(map[], [])));
      }
    }
  }

  lemma WideMerges(s: State, m: Fns, n: Fns)
    requires AllWide(m) && AllWide(n)
    ensures AllMergeable(s, m, n)
  {
    forall k | k in m && k in n && k in s ensures Mergeable(m[k], n[k], s[k]) {
      WideCombines(m[k], n[k], s[k]);
    }
  }

  /**
    The effect of a settled deploy replays payment, session and finalization, whatever the widths, if no
    amount is cut: neither within a phase nor when the phases are merged.
   */
  lemma ExactDeployReplays(s: State, keys: PurseKeys, payment: Phase, ran: Phase, closed: Phase, r: ExecutionResult)
    requires var s1 := Performed(s, payment.accesses);
      && TellsSettled(s, PaymentTrace(s, keys, payment), payment.cost, s1, ran, closed, r)
      && Exact(s, s, FirstRead(s, keys), payment.accesses) && LaterExact(s1, ran, closed)
      && MergesExactly(s, PaymentRecord(s, keys, payment), s1, ran, closed)
    ensures CommitsTo(s, r.effect.fns, Final(Performed(s, payment.accesses), ran, closed))
  {
    var s1 := Performed(s, payment.accesses);
    PaymentReplays(s, keys, payment);
    ExactPhasesReplay(s, PaymentRecord(s, keys, payment), s1, ran, closed, AfterSession(s1, ran));
    PaymentFollows(s, keys, payment);
    SettledFollows(s, PaymentTrace(s, keys, payment), s1, ran, closed);
    ReplaysIff(s, SettledTrace(PaymentTrace(s, keys, payment), s1, ran, closed), Final(s1, ran, closed));
  }

  lemma ExactPhasesReplay(s: State, record: Fns, s1: State, ran: Phase, closed: Phase, s2: State)
    requires CommitsTo(s, record, s1) && s2 == AfterSession(s1, ran)
    requires LaterExact(s1, ran, closed) && MergesExactly(s, record, s1, ran, closed)
    ensures CommitsTo(s, MergeFns(BeforeFinalize(record, SessionRecord(s1, ran)), RecordOf(s2, closed)),
                      Final(s1, ran, closed))
  {
    if ran.failure.None? {
      ExactReplays(s1, s1, map[], ran.accesses);
    }
    ExactReplays(s2, s2, map[], closed.accesses);
    MergeInSteps(s, record, s1, SessionRecord(s1, ran), s2, RecordOf(s2, closed), Final(s1, ran, closed));
  }

  /**
    If each phase keeps what it added, the effect of a settled deploy replays them if and only if the merged
    amount under every key is, at the stored width, the sum of the amounts of the phases.
   */
  lemma SettledReplaysIff(s: State, keys: PurseKeys, payment: Phase, ran: Phase, closed: Phase, r: ExecutionResult)
    requires var s1 := Performed(s, payment.accesses);
      && TellsSettled(s, PaymentTrace(s, keys, payment), payment.cost, s1, ran, closed, r)
      && AmountsKept(s, FirstRead(s, keys), payment.accesses) && LaterKept(s1, ran, closed)
    ensures var s1 := Performed(s, payment.accesses);
      CommitsTo(s, r.effect.fns, Final(s1, ran, closed))
      <==> SumsKept(s, PaymentRecord(s, keys, payment), KeptRecord(s1, ran), RecordOf(AfterSession(s1, ran), closed))
  {
    var s1 := Performed(s, payment.accesses);
    PaymentReplays(s, keys, payment);
    KeptPhasesReplay(s, PaymentRecord(s, keys, payment), s1, ran, closed);
    PaymentFollows(s, keys, payment);
    SettledFollows(s, PaymentTrace(s, keys, payment), s1, ran, closed);
    ReplaysIff(s, SettledTrace(PaymentTrace(s, keys, payment), s1, ran, closed), Final(s1, ran, closed));
  }

  /** Session and finalization keep what they added. */
  ghost predicate LaterKept(s1: State, ran: Phase, closed: Phase) {
    && (ran.failure.None? ==> AmountsKept(s1, map[], ran.accesses))
    && AmountsKept(AfterSession(s1, ran), map[], closed.accesses)
  }

  lemma KeptPhasesReplay(s: State, record: Fns, s1: State, ran: Phase, closed: Phase)
    requires CommitsTo(s, record, s1) && LaterKept(s1, ran, closed)
    ensures var later := RecordOf(AfterSession(s1, ran), closed);
      CommitsTo(s, MergeFns(BeforeFinalize(record, SessionRecord(s1, ran)), later), Final(s1, ran, closed))
      <==> SumsKept(s, record, KeptRecord(s1, ran), later)
  {
    var s2 := AfterSession(s1, ran);
    LaterCommits(s1, ran, closed, s2);
    MergeKeptRecord(record, s1, ran);
    ThreeInTurn(s, record, s1, KeptRecord(s1, ran), s2, RecordOf(s2, closed), Final(s1, ran, closed));
  }

  lemma LaterCommits(s1: State, ran: Phase, closed: Phase, s2: State)
    requires LaterKept(s1, ran, closed) && s2 == AfterSession(s1, ran)
    ensures CommitsTo(s1, KeptRecord(s1, ran), s2) && CommitsTo(s2, RecordOf(s2, closed), Final(s1, ran, closed))
  {
    if ran.failure.None? {
      RecordReplaysIff(s1, s1, map[], ran.accesses);
    }
    RecordReplaysIff(s2, s2, map[], closed.accesses);
  }

  lemma MergeKeptRecord(record: Fns, s1: State, ran: Phase)
    ensures MergeFns(record, KeptRecord(s1, ran)) == BeforeFinalize(record, SessionRecord(s1, ran))
  {
    assert MergeFns(record, map[]) == record;
  }

  /** Where every number that is added is 512 bits wide, as the mint's amounts are, nothing is ever cut. */
  lemma WideDeployReplays(s: State, keys: PurseKeys, payment: Phase, ran: Phase, closed: Phase, r: ExecutionResult)
    requires payment.IsWide() && ran.IsWide() && closed.IsWide()
    requires var s1 := Performed(s, payment.accesses);
      TellsSettled(s, PaymentTrace(s, keys, payment), payment.cost, s1, ran, closed, r)
    ensures CommitsTo(s, r.effect.fns, Final(Performed(s, payment.accesses), ran, closed))
  {
    var s1 := Performed(s, payment.accesses);
    var s2 := AfterSession(s1, ran);
    FirstReadReplays(s, keys);
    WideIsExact(s, s, FirstRead(s, keys), payment.accesses);
    WideIsExact(s1, s1, map[], ran.accesses);
    WideIsExact(s2, s2, map[], closed.accesses);
    WidePhasesMerge(s, PaymentRecord(s, keys, payment), SessionRecord(s1, ran), RecordOf(s2, closed));
    ExactDeployReplays(s, keys, payment, ran, closed, r);
  }

  lemma FirstReadReplays(s: State, keys: PurseKeys)
    ensures CommitsTo(s, FirstRead(s, keys), s) && AllWide(FirstRead(s, keys))
  {
  }

  lemma WidePhasesMerge(s: State, payment: Fns, session: Option<Fns>, finalize: Fns)
    requires AllWide(payment) && AllWide(finalize) && (session.Some? ==> AllWide(session.value))
    ensures PhasesMerge(s, payment, session, finalize)
  {
    if session.Some? {
      WideMerges(s, payment, session.value);
      MergeStaysWide(payment, session.value);
    }
    WideMerges(s, BeforeFinalize(payment, session), finalize);
  }
}
