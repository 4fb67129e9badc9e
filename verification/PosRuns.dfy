/** Every run of the contract: solvency, and the protocol the queues implement. */
module PosRuns {
  import opened Outcomes
  import opened MapSum
  import opened Mint
  import opened Stakes
  import opened Queue
  import opened ProofOfStake
  import opened Solvency
  import opened Settlement

  datatype PosCall =
    | DoBond(v: PublicKey, amount: Amount, source: Purse, now: Time)
    | DoUnbond(v: PublicKey, request: Option<Amount>, now: Time)
    | DoStep(now: Time)
    | DoFinalize(callerIsSystem: bool, spent: Amount, account: PublicKey)
    | DoSetRefund(purse: Purse, inPaymentPhase: bool)
    | DoTransfer(source: Purse, dest: Purse, amount: Amount)
    | DoPay(source: Purse, target: PublicKey, amount: Amount)
    | DoMint(initial: Amount, callerIsSystem: bool)

  ghost function Attempt(w: World, c: PosCall): Result<World, PosError> {
    match c
    case DoBond(v, amount, source, now) => Bond(w, v, amount, source, now)
    case DoUnbond(v, request, now) => Unbond(w, v, request, now)
    case DoStep(now) => BlockStep(w, now)
    case DoFinalize(system, spent, account) => FinalizePayment(w, system, spent, account)
    case DoSetRefund(purse, phase) => SetRefundPurse(w, purse, phase)
    case DoTransfer(source, dest, amount) =>
      (match AfterTransfer(w.purses.ledger, source, dest, amount)
       case Ok(l) => Ok(w.(purses := w.purses.(ledger := l)))
       case Err(_) => Err(Panicked))
    case DoPay(source, target, amount) => Ok(w.(purses := Pay(w.purses, source, target, amount).0))
    case DoMint(initial, system) =>
      (match MintNew(w.purses.ledger, initial, system)
       case Ok(p) => Ok(w.(purses := w.purses.(ledger := p.0)))
       case Err(_) => Err(Panicked))
  }

  /** The state after a call: a call that fails is rolled back. */
  ghost function After(w: World, c: PosCall): World {
    match Attempt(w, c) case Ok(w') => w' case Err(_) => w
  }

  ghost function Run(w: World, calls: seq<PosCall>): World
    decreases |calls|
  {
    if calls == [] then w else Run(After(w, calls[0]), calls[1..])
  }

  /** Nobody but the contract spends from its bonding purse. */
  predicate LeavesAlone(c: PosCall, pos: Purse) {
    c.DoBond? || c.DoTransfer? || c.DoPay? ==> c.source.addr != pos.addr
  }

  /** What the system account mints in a call, and in a run. */
  function MintedIn(c: PosCall): nat {
    if c.DoMint? && c.callerIsSystem then c.initial else 0
  }

  function MintedOver(calls: seq<PosCall>): nat {
    if calls == [] then 0 else MintedIn(calls[0]) + MintedOver(calls[1..])
  }

  /** Solvent, with a payment purse that is not the bonding purse. */
  ghost predicate Safe(w: World, pos: Purse) {
    Solvent(w, pos) && forall p :: w.names.payment == Some(PurseKey(p)) ==> p.addr != pos.addr
  }

  lemma TransferLeaves(w: Purses, pos: Purse, source: Purse, dest: Purse, amount: Amount)
    requires GoodPurses(w, pos) && source.addr != pos.addr && AfterTransfer(w.ledger, source, dest, amount).Ok?
    ensures var w' := w.(ledger := AfterTransfer(w.ledger, source, dest, amount).value);
      && GoodPurses(w', pos) && Total(w'.ledger) == Total(w.ledger)
      && Funds(w'.ledger, pos.addr) >= Funds(w.ledger, pos.addr)
  {
    TransferMoves(w.ledger, source, dest, amount);
  }

  lemma FinalizeLeaves(w: World, pos: Purse, system: bool, spent: Amount, account: PublicKey)
    requires Safe(w, pos) && FinalizePayment(w, system, spent, account).Ok?
    ensures var w' := FinalizePayment(w, system, spent, account).value;
      && Safe(w', pos) && Surplus(w', pos) >= Surplus(w, pos)
      && Total(w'.purses.ledger) == Total(w.purses.ledger)
  {
    var payment, rewards, l, refund := FinalizeParts(w, system, spent, account);
    TransferLeaves(w.purses, pos, payment, rewards, spent);
    RefundLeaves(w, pos, l, payment, refund, account);
    StaysSafe(w, pos, FinalizePayment(w, system, spent, account).value);
  }

  /** The purses of a finalization, the ledger after the rewards are paid, and the refund. */
  lemma FinalizeParts(w: World, system: bool, spent: Amount, account: PublicKey)
    returns (payment: Purse, rewards: Purse, l: Ledger, refund: Amount)
    requires WellFormed(w.purses.ledger) && FinalizePayment(w, system, spent, account).Ok?
    ensures w.names.payment == Some(PurseKey(payment))
    ensures AfterTransfer(w.purses.ledger, payment, rewards, spent) == Ok(l)
    ensures FinalizePayment(w, system, spent, account).value
            == w.(purses := Refunded(w, l, payment, refund, account), names := w.names.(refund := None))
  {
    payment, rewards := w.names.payment.value.purse, w.names.rewards.value.purse;
    FinalizeShape(w, spent, account, payment, rewards);
    l := AfterTransfer(w.purses.ledger, payment, rewards, spent).value;
    refund := Funds(w.purses.ledger, payment.addr) - spent;
  }

  /** A change of purses that takes nothing from the bonding purse, and of the refund purse, is safe. */
  lemma StaysSafe(w: World, pos: Purse, w': World)
    requires Safe(w, pos) && GoodPurses(w'.purses, pos)
    requires w' == w.(purses := w'.purses, names := w.names.(refund := w'.names.refund))
    requires Funds(w'.purses.ledger, pos.addr) >= Funds(w.purses.ledger, pos.addr)
    ensures Safe(w', pos) && Surplus(w', pos) >= Surplus(w, pos)
  {
  }

  lemma RefundLeaves(w: World, pos: Purse, l: Ledger, payment: Purse, refund: Amount, account: PublicKey)
    requires GoodPurses(w.purses.(ledger := l), pos) && payment.addr != pos.addr
    ensures var w' := Refunded(w, l, payment, refund, account);
      GoodPurses(w', pos) && Total(w'.ledger) == Total(l) && Funds(w'.ledger, pos.addr) >= Funds(l, pos.addr)
  {
    if refund > 0 {
      if RefundTaken(w, l, payment, refund) {
        TransferLeaves(w.purses.(ledger := l), pos, payment, w.names.refund.value.purse, refund);
      } else {
        PayTakes(w.purses.(ledger := l), payment, pos, account, refund);
      }
    }
  }

  lemma CallKeepsSafe(w: World, pos: Purse, c: PosCall)
    requires Safe(w, pos) && LeavesAlone(c, pos) && Total(w.purses.ledger) + MintedIn(c) < BOUND
    ensures Safe(After(w, c), pos) && Surplus(After(w, c), pos) >= Surplus(w, pos)
    ensures Total(After(w, c).purses.ledger) == Total(w.purses.ledger) + MintedIn(c)
  {
    if Attempt(w, c).Ok? {
      match c
      case DoBond(v, amount, source, now) => BondSurplus(w, pos, v, amount, source, now);
      case DoUnbond(v, request, now) => UnbondSurplus(w, pos, v, request, now);
      case DoStep(now) => StepSurplus(w, pos, now);
      case DoFinalize(system, spent, account) => FinalizeLeaves(w, pos, system, spent, account);
      case DoSetRefund(_, _) =>
      case DoTransfer(source, dest, amount) => TransferLeaves(w.purses, pos, source, dest, amount);
      case DoPay(source, target, amount) => PayTakes(w.purses, source, pos, target, amount);
      case DoMint(initial, system) => CreateAdds(w.purses.ledger, initial);
    }
  }

  /**
    Over every run the bonding purse covers the stakes and both queues, its surplus never shrinks, and the
    money grows by exactly what the system account mints.
   */
  lemma {:induction false} SolventForever(w: World, pos: Purse, calls: seq<PosCall>)
    requires Safe(w, pos) && forall i :: 0 <= i < |calls| ==> LeavesAlone(calls[i], pos)
    requires Total(w.purses.ledger) + MintedOver(calls) < BOUND
    ensures Safe(Run(w, calls), pos) && Surplus(Run(w, calls), pos) >= Surplus(w, pos)
    ensures Total(Run(w, calls).purses.ledger) == Total(w.purses.ledger) + MintedOver(calls)
    decreases |calls|
  {
    if calls != [] {
      CallKeepsSafe(w, pos, calls[0]);
      SolventForever(After(w, calls[0]), pos, calls[1..]);
    }
  }

  // ----- every account keeps its purse, so no payout fails -----

  lemma FinalizeKeepsHomed(w: World, pos: Purse, system: bool, spent: Amount, account: PublicKey)
    requires Safe(w, pos) && Homed(w.purses) && FinalizePayment(w, system, spent, account).Ok?
    ensures Homed(FinalizePayment(w, system, spent, account).value.purses)
  {
    var payment, rewards, l, refund := FinalizeParts(w, system, spent, account);
    TransferMoves(w.purses.ledger, payment, rewards, spent);
    RefundKeepsHomed(w, l, payment, refund, account);
  }

  lemma RefundKeepsHomed(w: World, l: Ledger, payment: Purse, refund: Amount, account: PublicKey)
    requires WellFormed(l) && Homed(w.purses.(ledger := l))
    ensures Homed(Refunded(w, l, payment, refund, account))
  {
    if refund > 0 {
      if RefundTaken(w, l, payment, refund) {
        TransferMoves(l, payment, w.names.refund.value.purse, refund);
      } else {
        PayKeepsHomed(w.purses.(ledger := l), payment, account, refund);
      }
    }
  }

  lemma CallKeepsHomed(w: World, pos: Purse, c: PosCall)
    requires Safe(w, pos) && Homed(w.purses) && LeavesAlone(c, pos) && Total(w.purses.ledger) + MintedIn(c) < BOUND
    ensures Homed(After(w, c).purses)
    ensures c.DoBond? || c.DoUnbond? || c.DoStep? ==> Surplus(After(w, c), pos) == Surplus(w, pos)
  {
    if Attempt(w, c).Ok? {
      match c
      case DoBond(v, amount, source, now) =>
        BondTransferFailsIff(w, pos, v, amount, source, now);
        BondSurplus(w, pos, v, amount, source, now);
      case DoUnbond(v, request, now) =>
        UnbondPayoutSucceeds(w, pos, v, request, now);
        UnbondSurplus(w, pos, v, request, now);
      case DoStep(now) => StepPaysAll(w, pos, now);
      case DoFinalize(system, spent, account) => FinalizeKeepsHomed(w, pos, system, spent, account);
      case DoSetRefund(_, _) =>
      case DoTransfer(source, dest, amount) => TransferMoves(w.purses.ledger, source, dest, amount);
      case DoPay(source, target, amount) => PayKeepsHomed(w.purses, source, target, amount);
      case DoMint(initial, system) => CreateAdds(w.purses.ledger, initial);
    }
  }

  /** Over every run every account keeps a purse the mint knows, so bonds, unbondings and steps keep the surplus. */
  lemma {:induction false} HomedForever(w: World, pos: Purse, calls: seq<PosCall>)
    requires Safe(w, pos) && Homed(w.purses) && forall i :: 0 <= i < |calls| ==> LeavesAlone(calls[i], pos)
    requires Total(w.purses.ledger) + MintedOver(calls) < BOUND
    ensures Homed(Run(w, calls).purses)
    ensures (forall i :: 0 <= i < |calls| ==> calls[i].DoBond? || calls[i].DoUnbond? || calls[i].DoStep?) ==>
      Surplus(Run(w, calls), pos) == Surplus(w, pos)
    decreases |calls|
  {
    if calls != [] {
      CallKeepsSafe(w, pos, calls[0]);
      CallKeepsHomed(w, pos, calls[0]);
      HomedForever(After(w, calls[0]), pos, calls[1..]);
    }
  }

  // ----- what the queues keep -----

  /** Both queues are sorted by time, hold at most one request of each validator, and keep to their limits. */
  ghost predicate Ordered(w: World) {
    && Sorted(w.bonding) && Distinct(w.bonding) && |w.bonding| <= MAX_BOND_LEN
    && Sorted(w.unbonding) && Distinct(w.unbonding) && |w.unbonding| <= MAX_UNBOND_LEN
  }

  lemma LaterKeeps(q: seq<Entry>, t: Time)
    requires Sorted(q)
    ensures Sorted(Later(q, t)) && (Distinct(q) ==> Distinct(Later(q, t))) && |Later(q, t)| <= |q|
  {
    PopSplits(q, t);
    var n := |Due(q, t)|;
    assert Later(q, t) == q[n..];
  }

  lemma StepKeepsOrdered(w: World, now: Time)
    requires Ordered(w) && StepQueues(w, now).Ok?
    ensures Ordered(StepQueues(w, now).value.0)
  {
    LaterKeeps(w.bonding, SaturatingTime(now, BOND_DELAY));
    LaterKeeps(w.unbonding, SaturatingTime(now, UNBOND_DELAY));
  }

  lemma BondKeepsOrdered(w: World, v: PublicKey, amount: Amount, source: Purse, now: Time)
    requires Ordered(w) && Bond(w, v, amount, source, now).Ok?
    ensures Ordered(Bond(w, v, amount, source, now).value)
  {
    var l := AfterTransfer(w.purses.ledger, source, LookUp(w.names.bonding).value, amount).value;
    PushKeeps(w.bonding, v, amount, now);
    StepKeepsOrdered(EnqueueBond(w.(purses := w.purses.(ledger := l)), amount, v, now).value, now);
  }

  lemma UnbondKeepsOrdered(w: World, v: PublicKey, request: Option<Amount>, now: Time)
    requires Ordered(w) && Unbond(w, v, request, now).Ok?
    ensures Ordered(Unbond(w, v, request, now).value)
  {
    PushKeeps(w.unbonding, v, Payout(w.stakes, v, request).value, now);
    StepKeepsOrdered(EnqueueUnbond(w, request, v, now).value, now);
  }

  lemma CallKeepsOrdered(w: World, c: PosCall)
    requires Ordered(w)
    ensures Ordered(After(w, c))
  {
    if Attempt(w, c).Ok? {
      match c
      case DoBond(v, amount, source, now) => BondKeepsOrdered(w, v, amount, source, now);
      case DoUnbond(v, request, now) => UnbondKeepsOrdered(w, v, request, now);
      case DoStep(now) => StepKeepsOrdered(w, now);
      case DoFinalize(_, _, _) =>
      case DoSetRefund(_, _) =>
      case DoTransfer(_, _, _) =>
      case DoPay(_, _, _) =>
      case DoMint(_, _) =>
    }
  }

  lemma {:induction false} OrderedForever(w: World, calls: seq<PosCall>)
    requires Ordered(w)
    ensures Ordered(Run(w, calls))
    decreases |calls|
  {
    if calls != [] {
      CallKeepsOrdered(w, calls[0]);
      OrderedForever(After(w, calls[0]), calls[1..]);
    }
  }

  // ----- no delay: the queued protocol is an immediate one -----

  ghost predicate QueuesEmpty(w: World) {
    w.bonding == [] && w.unbonding == []
  }

  /** Bonding without queues. */
  ghost function BondNow(w: World, v: PublicKey, amount: Amount, source: Purse): Result<World, PosError> {
    if amount == 0 then Err(BondTooSmall)
    else
      var pos :- LookUp(w.names.bonding);
      match AfterTransfer(w.purses.ledger, source, pos, amount)
      case Err(_) => Err(BondTransferFailed)
      case Ok(l) => AdmitNow(w.(purses := w.purses.(ledger := l)), v, amount)
  }

  /** The admission of a bond that has been paid. */
  ghost function AdmitNow(w: World, v: PublicKey, amount: Amount): Result<World, PosError> {
    if w.stakes == map[] then Err(StakesNotFound)
    else
      var _ :- Admission(w.stakes, v, amount);
      Ok(w.(stakes := w.stakes[v := (if v in w.stakes then w.stakes[v] else 0) + amount]))
  }

  /** Unbonding without queues: the payout leaves at once. */
  ghost function UnbondNow(w: World, v: PublicKey, request: Option<Amount>): Result<World, PosError> {
    var pos :- LookUp(w.names.bonding);
    if w.stakes == map[] then Err(StakesNotFound)
    else
      var payout :- Payout(w.stakes, v, request);
      UnbondKeeps(w.stakes, v, request);
      var (paid, o) := Pay(w.purses, pos, v, payout);
      if o.Paid? then Ok(w.(purses := paid, stakes := Unbonded(w.stakes, v, payout)))
      else Err(PayError(o, UnbondTransferFailed))
  }

  lemma OneEntry(e: Entry, now: Time)
    requires e.timestamp <= now
    ensures Due([e], now) == [e] && Later([e], now) == [] && Due([], now) == [] && Later([], now) == []
  {
    NothingLater([e], now);
  }

  /** A step with one due bond applies it. */
  lemma StepOneBond(w: World, pos: Purse, e: Entry, now: Time, onFailure: PosError)
    requires w.bonding == [e] && w.unbonding == [] && e.timestamp <= now && w.stakes != map[]
    requires Bonded(w.stakes, e.validator, e.amount).Some?
    ensures StepAndPay(w, pos, now, onFailure)
      == Ok(w.(bonding := [], stakes := Bonded(w.stakes, e.validator, e.amount).value))
  {
    OneEntry(e, now);
    assert [e][1..] == [];
    assert ApplyBonds(w.stakes, [e]) == Bonded(w.stakes, e.validator, e.amount);
    assert PayEach(w.purses, pos, []) == (w.purses, []);
  }

  /** A step with one due payout pays it. */
  lemma StepOneUnbond(w: World, pos: Purse, e: Entry, now: Time, onFailure: PosError)
    requires w.bonding == [] && w.unbonding == [e] && e.timestamp <= now
    ensures var (paid, o) := Pay(w.purses, pos, e.validator, e.amount);
      StepAndPay(w, pos, now, onFailure)
        == if o.Paid? then Ok(w.(unbonding := [], purses := paid)) else Err(PayError(o, onFailure))
  {
    OneEntry(e, now);
    OnePayment(w.purses, pos, e);
    assert StepQueues(w, now) == Ok((w.(unbonding := []), [e]));
  }

  /** From empty queues a bond is the immediate bond: the same state or the same error, and empty queues again. */
  lemma BondIsImmediate(w: World, v: PublicKey, amount: Amount, source: Purse, now: Time)
    requires QueuesEmpty(w)
    ensures Bond(w, v, amount, source, now) == BondNow(w, v, amount, source)
    ensures Bond(w, v, amount, source, now).Ok? ==> QueuesEmpty(Bond(w, v, amount, source, now).value)
  {
    if amount > 0 && LookUp(w.names.bonding).Ok? {
      var pos := LookUp(w.names.bonding).value;
      if AfterTransfer(w.purses.ledger, source, pos, amount).Ok? {
        var l := AfterTransfer(w.purses.ledger, source, pos, amount).value;
        AdmissionIsImmediate(w.(purses := w.purses.(ledger := l)), pos, v, amount, now);
      }
    }
  }

  lemma AdmissionIsImmediate(w: World, pos: Purse, v: PublicKey, amount: Amount, now: Time)
    requires QueuesEmpty(w)
    ensures (match EnqueueBond(w, amount, v, now)
             case Ok(queued) => StepAndPay(queued, pos, now, BondTransferFailed)
             case Err(e) => Err(e)) == AdmitNow(w, v, amount)
  {
    var e := Entry(v, amount, now);
    EnqueueFirst(w, v, amount, now);
    if AdmitNow(w, v, amount).Ok? {
      AdmittedAtMost(w.stakes, v, amount);
      StepOneBond(w.(bonding := [e]), pos, e, now, BondTransferFailed);
    }
  }

  /** Into an empty queue a bond is admitted by the stakes as they are. */
  lemma EnqueueFirst(w: World, v: PublicKey, amount: Amount, now: Time)
    requires QueuesEmpty(w)
    ensures AdmitNow(w, v, amount).Err? ==> EnqueueBond(w, amount, v, now) == Err(AdmitNow(w, v, amount).error)
    ensures AdmitNow(w, v, amount).Ok? ==>
      EnqueueBond(w, amount, v, now) == Ok(w.(bonding := [Entry(v, amount, now)])) && Admission(w.stakes, v, amount).Ok?
  {
    assert [] + [Entry(v, amount, now)] == [Entry(v, amount, now)];
  }

  lemma UnbondIsImmediate(w: World, v: PublicKey, request: Option<Amount>, now: Time)
    requires QueuesEmpty(w)
    ensures Unbond(w, v, request, now) == UnbondNow(w, v, request)
    ensures Unbond(w, v, request, now).Ok? ==> QueuesEmpty(Unbond(w, v, request, now).value)
  {
    if LookUp(w.names.bonding).Ok? && w.stakes != map[] && Payout(w.stakes, v, request).Ok? {
      var pos, payout := LookUp(w.names.bonding).value, Payout(w.stakes, v, request).value;
      UnbondKeeps(w.stakes, v, request);
      var e := Entry(v, payout, now);
      assert [] + [e] == [e];
      StepOneUnbond(w.(stakes := Unbonded(w.stakes, v, payout), unbonding := [e]), pos, e, now, UnbondTransferFailed);
    }
  }

  lemma OnePayment(w: Purses, pos: Purse, e: Entry)
    ensures PayEach(w, pos, [e]) == (Pay(w, pos, e.validator, e.amount).0, [Pay(w, pos, e.validator, e.amount).1])
    ensures FirstFailure([Pay(w, pos, e.validator, e.amount).1]) == Pay(w, pos, e.validator, e.amount).1
  {
    var (w', o) := Pay(w, pos, e.validator, e.amount);
    assert [e][1..] == [];
    assert PayEach(w', pos, []) == (w', []);
    assert [o] + [] == [o] && [o][1..] == [];
  }

  lemma StepIsIdle(w: World, now: Time)
    requires QueuesEmpty(w) && LookUp(w.names.bonding).Ok?
    ensures BlockStep(w, now) == Ok(w)
  {
  }

  /** A call of the contract without queues. */
  ghost function AttemptNow(w: World, c: PosCall): Result<World, PosError> {
    match c
    case DoBond(v, amount, source, _) => BondNow(w, v, amount, source)
    case DoUnbond(v, request, _) => UnbondNow(w, v, request)
    case DoStep(_) =>
      var _ :- LookUp(w.names.bonding);
      Ok(w)
    case _ => Attempt(w, c)
  }

  ghost function RunNow(w: World, calls: seq<PosCall>): World
    decreases |calls|
  {
    if calls == [] then w
    else RunNow(match AttemptNow(w, calls[0]) case Ok(w') => w' case Err(_) => w, calls[1..])
  }

  lemma CallIsImmediate(w: World, c: PosCall)
    requires QueuesEmpty(w)
    ensures Attempt(w, c) == AttemptNow(w, c) && QueuesEmpty(After(w, c))
  {
    match c
    case DoBond(v, amount, source, now) => BondIsImmediate(w, v, amount, source, now);
    case DoUnbond(v, request, now) => UnbondIsImmediate(w, v, request, now);
    case DoStep(now) => if LookUp(w.names.bonding).Ok? { StepIsIdle(w, now); }
    case _ =>
  }

  /** With no delay the queued protocol is the immediate one, over every run; the queues are empty between calls. */
  lemma {:induction false} RunIsImmediate(w: World, calls: seq<PosCall>)
    requires QueuesEmpty(w)
    ensures Run(w, calls) == RunNow(w, calls) && QueuesEmpty(Run(w, calls))
    decreases |calls|
  {
    if calls != [] {
      CallIsImmediate(w, calls[0]);
      RunIsImmediate(After(w, calls[0]), calls[1..]);
    }
  }

  // ----- admission: checked against the stakes the bond will meet -----

  lemma {:induction false} ApplyBondsConcat(m: StakeMap, p: seq<Entry>, q: seq<Entry>)
    ensures ApplyBonds(m, p + q) ==
      match ApplyBonds(m, p) case None => None case Some(m') => ApplyBonds(m', q)
    decreases |p|
  {
    if p == [] {
      assert p + q == q;
    } else {
      assert (p + q)[1..] == p[1..] + q && (p + q)[0] == p[0];
      if Bonded(m, p[0].validator, p[0].amount).Some? {
        ApplyBondsConcat(Bonded(m, p[0].validator, p[0].amount).value, p[1..], q);
      }
    }
  }

  /** Block steps at each of the given times. */
  ghost function Steps(w: World, times: seq<Time>): Result<World, PosError>
    decreases |times|
  {
    if times == [] then Ok(w)
    else
      var w' :- BlockStep(w, times[0]);
      Steps(w', times[1..])
  }

  /** A step at t takes every entry of the queue. */
  ghost predicate Drains(t: Time, q: seq<Entry>) {
    forall e :: e in q ==> e.timestamp <= SaturatingTime(t, BOND_DELAY)
  }

  /** Taking off what is due leaves the rest to be applied to what the due bonds make of the stakes. */
  lemma DueApplies(m: StakeMap, q: seq<Entry>, t: Time)
    requires m != map[] && Sorted(q) && ApplyBonds(m, q).Some?
    ensures ApplyBonds(m, Due(q, t)).Some?
    ensures var m' := ApplyBonds(m, Due(q, t)).value;
      m' != map[] && ApplyBonds(m', Later(q, t)) == ApplyBonds(m, q)
    ensures Sorted(Later(q, t)) && forall e :: e in Later(q, t) ==> e in q
  {
    PopSplits(q, t);
    LaterKeeps(q, t);
    ApplyBondsConcat(m, Due(q, t), Later(q, t));
    BondsFill(m, Due(q, t));
  }

  lemma DrainsAll(now: Time, q: seq<Entry>)
    ensures Drains(now, q) ==> Later(q, SaturatingTime(now, BOND_DELAY)) == []
  {
    if Drains(now, q) {
      NothingLater(q, SaturatingTime(now, BOND_DELAY));
    }
  }

  /** The stakes take every bond that is waiting. */
  ghost predicate Fits(w: World) {
    LookUp(w.names.bonding).Ok? && w.stakes != map[] && Sorted(w.bonding) && ApplyBonds(w.stakes, w.bonding).Some?
  }

  lemma QueuesStep(w: World, now: Time)
    requires Fits(w)
    ensures StepQueues(w, now).Ok?
    ensures var w' := StepQueues(w, now).value.0;
      && Fits(w') && w'.purses == w.purses
      && ApplyBonds(w'.stakes, w'.bonding) == ApplyBonds(w.stakes, w.bonding)
      && (forall e :: e in w'.bonding ==> e in w.bonding)
      && (Drains(now, w.bonding) ==> w'.bonding == [])
  {
    DueApplies(w.stakes, w.bonding, SaturatingTime(now, BOND_DELAY));
    DrainsAll(now, w.bonding);
  }

  /** A block step is refused only when a payment aborts it; else it applies what is due. */
  lemma StepApplies(w: World, now: Time)
    requires Fits(w)
    ensures Abortless(w.purses) ==> BlockStep(w, now).Ok? && Abortless(BlockStep(w, now).value.purses)
    ensures BlockStep(w, now).Ok? ==>
      var w' := BlockStep(w, now).value;
      && Fits(w') && ApplyBonds(w'.stakes, w'.bonding) == ApplyBonds(w.stakes, w.bonding)
      && (forall e :: e in w'.bonding ==> e in w.bonding)
      && (Drains(now, w.bonding) ==> w'.bonding == [])
  {
    QueuesStep(w, now);
    var (w', due) := StepQueues(w, now).value;
    if Abortless(w.purses) {
      NothingAborts(w.purses, LookUp(w.names.bonding).value, due);
    }
  }

  lemma {:induction false} BondsFill(m: StakeMap, es: seq<Entry>)
    requires m != map[] && ApplyBonds(m, es).Some?
    ensures ApplyBonds(m, es).value != map[]
    decreases |es|
  {
    if es != [] {
      var m' := Bonded(m, es[0].validator, es[0].amount).value;
      assert es[0].validator in m';
      BondsFill(m', es[1..]);
    }
  }

  /** However block steps fall, what they have applied and what they have left is the queue in its order. */
  lemma {:induction false} StepsDrainInOrder(w: World, times: seq<Time>)
    requires Fits(w)
    ensures Abortless(w.purses) ==> Steps(w, times).Ok?
    ensures Steps(w, times).Ok? ==>
      var w' := Steps(w, times).value;
      && ApplyBonds(w'.stakes, w'.bonding) == ApplyBonds(w.stakes, w.bonding)
      && (w.bonding == [] || (exists i :: 0 <= i < |times| && Drains(times[i], w.bonding)) ==> w'.bonding == [])
    decreases |times|
  {
    if times != [] {
      StepApplies(w, times[0]);
      if BlockStep(w, times[0]).Ok? {
        var w' := BlockStep(w, times[0]).value;
        StepsDrainInOrder(w', times[1..]);
        if i :| 0 <= i < |times| && Drains(times[i], w.bonding) {
          if i > 0 {
            assert times[i] == times[1..][i - 1];
            assert Drains(times[1..][i - 1], w'.bonding);
          }
        } else if w.bonding == [] {
          assert Drains(times[0], w.bonding);
        }
      }
    }
  }

  lemma AdmittedAtMost(m: StakeMap, v: PublicKey, amount: Amount)
    requires Admission(m, v, amount).Ok?
    ensures amount <= 1000 * Sum(m) && Bonded(m, v, amount).Some?
  {
  }

  lemma AdmittedPush(w: World, amount: Amount, v: PublicKey, now: Time)
    requires Ordered(w) && EnqueueBond(w, amount, v, now).Ok?
    ensures var queued := EnqueueBond(w, amount, v, now).value;
      && ApplyBonds(w.stakes, w.bonding).Some?
      && var simulated := ApplyBonds(w.stakes, w.bonding).value;
         && amount <= 1000 * Sum(simulated) && w.stakes != map[] && Bonded(simulated, v, amount).Some?
         && queued == w.(bonding := queued.bonding) && Sorted(queued.bonding)
         && ApplyBonds(queued.stakes, queued.bonding) == Bonded(simulated, v, amount)
  {
    var e := Entry(v, amount, now);
    ApplyBondsConcat(w.stakes, w.bonding, [e]);
    var simulated := ApplyBonds(w.stakes, w.bonding).value;
    AdmittedAtMost(simulated, v, amount);
    assert [e][1..] == [];
    assert ApplyBonds(simulated, [e]) == Bonded(simulated, v, amount);
    PushKeeps(w.bonding, v, amount, now);
  }

  /**
    An admitted bond meets exactly the stakes it was checked against: once block steps have drained the queue,
    however many it takes, the stakes are those simulated at admission plus the bond, and the bond is at most
    a thousand times their total.
   */
  lemma AdmissionFitsFuture(w: World, amount: Amount, v: PublicKey, now: Time, times: seq<Time>)
    requires Ordered(w) && LookUp(w.names.bonding).Ok? && EnqueueBond(w, amount, v, now).Ok?
    ensures var queued := EnqueueBond(w, amount, v, now).value;
      && ApplyBonds(w.stakes, w.bonding).Some? && (Abortless(w.purses) ==> Steps(queued, times).Ok?)
      && var simulated := ApplyBonds(w.stakes, w.bonding).value;
         && amount <= 1000 * Sum(simulated) && w.stakes != map[] && Bonded(simulated, v, amount).Some?
         && (Steps(queued, times).Ok? && (exists i :: 0 <= i < |times| && Drains(times[i], queued.bonding)) ==>
               var w' := Steps(queued, times).value;
               w'.bonding == [] && w'.stakes == Bonded(simulated, v, amount).value)
  {
    AdmittedPush(w, amount, v, now);
    StepsDrainInOrder(EnqueueBond(w, amount, v, now).value, times);
  }
}
