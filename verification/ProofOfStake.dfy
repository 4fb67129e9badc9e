/** The proof-of-stake contract as functions of the whole state; a call that fails leaves the state as it was. */
module ProofOfStake {
  import opened Outcomes
  import opened Mint
  import opened Stakes
  import opened Queue

  const BOND_DELAY: Time := 0
  const UNBOND_DELAY: Time := 0
  const MAX_BOND_LEN: nat := 100
  const MAX_UNBOND_LEN: nat := 1000

  /** What a name of the contract refers to. */
  datatype NamedKey = PurseKey(purse: Purse) | NotAPurse

  datatype Names = Names(bonding: Option<NamedKey>, payment: Option<NamedKey>, rewards: Option<NamedKey>,
                         refund: Option<NamedKey>)

  /** Balances, the main purse of each account, and the account keys under which something else is stored. */
  datatype Purses = Purses(ledger: Ledger, accounts: map<PublicKey, Purse>, others: set<PublicKey>)

  datatype World = World(purses: Purses, stakes: StakeMap, bonding: seq<Entry>, unbonding: seq<Entry>, names: Names)

  function LookUp(key: Option<NamedKey>): Result<Purse, PosError> {
    match key
    case None => Err(PurseKeyNotFound)
    case Some(NotAPurse) => Err(PurseKeyUnexpectedType)
    case Some(PurseKey(p)) => Ok(p)
  }

  // ----- paying accounts -----

  /** How a payment ends; an aborted one takes the whole call down with it. */
  datatype PayOutcome = Paid | LackOfFunds | OtherFailure | Aborted

  /** The balance as the host reads it: it panics on a reference that is none. */
  function HostBalance(l: Ledger, p: Addr): Result<Option<Amount>, PosError> {
    if p !in l.refs then Ok(None)
    else match l.refs[p]
      case OtherKey => Err(Panicked)
      case BalanceRef(at) => Ok(if at in l.store then Some(l.store[at]) else None)
  }

  /** Pays into the main purse of an account; an account that does not exist is created first. */
  function Pay(w: Purses, source: Purse, target: PublicKey, amount: Amount): (Purses, PayOutcome) {
    if target in w.others then (w, Aborted)
    else if target in w.accounts then
      var main := Purse(w.accounts[target].addr, false, false, true);
      if source == main then (w, Paid)
      else match AfterTransfer(w.ledger, source, main, amount)
        case Ok(l) => (w.(ledger := l), Paid)
        case Err(InsufficientFunds) => (w, LackOfFunds)
        case Err(_) => (w, OtherFailure)
    else match HostBalance(w.ledger, source.addr)
      case Err(_) => (w, Aborted)
      case Ok(b) =>
        if amount > (if b.Some? then b.value else 0) then (w, LackOfFunds)
        else
          var (l, purse) := Create(w.ledger, 0);
          match AfterTransfer(l, source, purse, amount)
          case Ok(l') => (w.(ledger := l', accounts := w.accounts[target := purse]), Paid)
          case Err(_) => (w.(ledger := l), OtherFailure)
  }

  /** Pays entry after entry, whatever becomes of each. */
  function PayEach(w: Purses, source: Purse, es: seq<Entry>): (Purses, seq<PayOutcome>)
    decreases |es|
  {
    if es == [] then (w, [])
    else
      var (w', o) := Pay(w, source, es[0].validator, es[0].amount);
      var (w'', os) := PayEach(w', source, es[1..]);
      (w'', [o] + os)
  }

  predicate AllPaid(os: seq<PayOutcome>) {
    forall i :: 0 <= i < |os| ==> os[i].Paid?
  }

  /** Where a list of payouts that may not fail ends: at the first failure, or Paid. */
  function FirstFailure(os: seq<PayOutcome>): PayOutcome {
    if os == [] then Paid else if os[0].Paid? then FirstFailure(os[1..]) else os[0]
  }

  /** The error a payment that must not fail gives. */
  function PayError(o: PayOutcome, onFailure: PosError): PosError {
    if o.Aborted? then Panicked else onFailure
  }

  // ----- the queues -----

  /** The stakes after a list of bonds; None when one overflows. */
  function ApplyBonds(m: StakeMap, es: seq<Entry>): Option<StakeMap>
    decreases |es|
  {
    if es == [] then Some(m)
    else match Bonded(m, es[0].validator, es[0].amount)
      case None => None
      case Some(m') => ApplyBonds(m', es[1..])
  }

  /** Enqueues a bond that the stakes will admit once all earlier bonds are in. */
  ghost function EnqueueBond(w: World, amount: Amount, v: PublicKey, now: Time): Result<World, PosError> {
    if |w.bonding| >= MAX_BOND_LEN then Err(TooManyEventsInQueue)
    else if w.stakes == map[] then Err(StakesNotFound)
    else match ApplyBonds(w.stakes, w.bonding)
      case None => Err(Panicked)
      case Some(simulated) =>
        var _ :- Admission(simulated, v, amount);
        var q :- Pushed(w.bonding, v, amount, now);
        Ok(w.(bonding := q))
  }

  /** Takes an unbonding off the stakes at once and enqueues its payout. */
  ghost function EnqueueUnbond(w: World, request: Option<Amount>, v: PublicKey, now: Time): Result<World, PosError> {
    if |w.unbonding| >= MAX_UNBOND_LEN then Err(TooManyEventsInQueue)
    else if w.stakes == map[] then Err(StakesNotFound)
    else
      var payout :- Payout(w.stakes, v, request);
      UnbondKeeps(w.stakes, v, request);
      var q :- Pushed(w.unbonding, v, payout, now);
      Ok(w.(stakes := Unbonded(w.stakes, v, payout), unbonding := q))
  }

  function SaturatingTime(t: Time, delay: Time): Time {
    if t >= delay then t - delay else 0
  }

  /** Takes all due requests off the queues, applies the bonds, and returns the payouts. */
  function StepQueues(w: World, now: Time): Result<(World, seq<Entry>), PosError> {
    var bonds := Due(w.bonding, SaturatingTime(now, BOND_DELAY));
    var unbonds := Due(w.unbonding, SaturatingTime(now, UNBOND_DELAY));
    var w' := w.(bonding := Later(w.bonding, SaturatingTime(now, BOND_DELAY)),
                 unbonding := Later(w.unbonding, SaturatingTime(now, UNBOND_DELAY)));
    if bonds == [] then Ok((w', unbonds))
    else if w.stakes == map[] then Err(StakesNotFound)
    else match ApplyBonds(w.stakes, bonds)
      case None => Err(Panicked)
      case Some(stakes) => Ok((w'.(stakes := stakes), unbonds))
  }

  // ----- the entry points -----

  /** Steps the queues and pays everything due; a payout that fails fails the call. */
  function StepAndPay(w: World, pos: Purse, now: Time, onFailure: PosError): Result<World, PosError> {
    var (w', due) :- StepQueues(w, now);
    var (paid, os) := PayEach(w'.purses, pos, due);
    if FirstFailure(os).Paid? then Ok(w'.(purses := paid)) else Err(PayError(FirstFailure(os), onFailure))
  }

  ghost function Bond(w: World, v: PublicKey, amount: Amount, source: Purse, now: Time): Result<World, PosError> {
    if amount == 0 then Err(BondTooSmall)
    else
      var pos :- LookUp(w.names.bonding);
      match AfterTransfer(w.purses.ledger, source, pos, amount)
      case Err(_) => Err(BondTransferFailed)
      case Ok(l) =>
        var queued :- EnqueueBond(w.(purses := w.purses.(ledger := l)), amount, v, now);
        StepAndPay(queued, pos, now, BondTransferFailed)
  }

  ghost function Unbond(w: World, v: PublicKey, request: Option<Amount>, now: Time): Result<World, PosError> {
    var pos :- LookUp(w.names.bonding);
    var queued :- EnqueueUnbond(w, request, v, now);
    StepAndPay(queued, pos, now, UnbondTransferFailed)
  }

  /** The block step: payouts that fail are dropped. */
  function BlockStep(w: World, now: Time): Result<World, PosError> {
    var pos :- LookUp(w.names.bonding);
    var (w', due) :- StepQueues(w, now);
    var (paid, os) := PayEach(w'.purses, pos, due);
    if Aborted in os then Err(Panicked) else Ok(w'.(purses := paid))
  }

  function RefundToAccount(w: World, payment: Purse, account: PublicKey, amount: Amount): Result<World, PosError> {
    var (paid, o) := Pay(w.purses, payment, account, amount);
    if o.Paid? then Ok(w.(purses := paid)) else Err(PayError(o, FailedTransferToAccountPurse))
  }

  /** The refund goes to the purse that was set; failing that, to the account. */
  function RefundTo(w: World, payment: Purse, refund: Option<NamedKey>, account: PublicKey, amount: Amount)
    : Result<World, PosError>
    requires refund != Some(NotAPurse)
  {
    if refund.None? then RefundToAccount(w, payment, account, amount)
    else match AfterTransfer(w.purses.ledger, payment, refund.value.purse, amount)
      case Ok(l) => Ok(w.(purses := w.purses.(ledger := l)))
      case Err(_) => RefundToAccount(w, payment, account, amount)
  }

  /** Settles a deploy: what was spent to the rewards purse, the rest to the refund purse or back to the account. */
  function FinalizePayment(w: World, callerIsSystem: bool, spent: Amount, account: PublicKey): Result<World, PosError> {
    if !callerIsSystem then Err(SystemFunctionCalledByUserAccount)
    else
      var (payment, rewards, refund) :- Shares(w, spent);
      PayOut(w, payment, rewards, spent, refund, account)
  }

  /** The payment purse, the rewards purse and what there is to refund. */
  function Shares(w: World, spent: Amount): (r: Result<(Purse, Purse, Amount), PosError>)
    ensures r.Ok? ==> w.names.refund != Some(NotAPurse)
  {
    var payment :- LookUp(w.names.payment);
    var total :- PaymentBalance(w.purses.ledger, payment);
    if total < spent then Err(InsufficientPaymentForAmountSpent)
    else
      var rewards :- LookUp(w.names.rewards);
      if w.names.refund == Some(NotAPurse) then Err(PurseKeyUnexpectedType)
      else Ok((payment, rewards, total - spent))
  }

  /** What the payment purse holds, if the host can tell. */
  function PaymentBalance(l: Ledger, payment: Purse): Result<Amount, PosError> {
    var balance :- HostBalance(l, payment.addr);
    if balance.None? then Err(PaymentPurseBalanceNotFound) else Ok(balance.value)
  }

  /** What was spent to the rewards purse, then the refund, if there is any; the refund purse is unset. */
  function PayOut(w: World, payment: Purse, rewards: Purse, spent: Amount, refund: Amount, account: PublicKey)
    : Result<World, PosError>
    requires w.names.refund != Some(NotAPurse)
  {
    match AfterTransfer(w.purses.ledger, payment, rewards, spent)
    case Err(_) => Err(FailedTransferToRewardsPurse)
    case Ok(l) =>
      var w' := w.(purses := w.purses.(ledger := l), names := w.names.(refund := None));
      if refund == 0 then Ok(w') else RefundTo(w', payment, w.names.refund, account, refund)
  }

  function SetRefundPurse(w: World, purse: Purse, inPaymentPhase: bool): Result<World, PosError> {
    if inPaymentPhase then Ok(w.(names := w.names.(refund := Some(PurseKey(purse)))))
    else Err(SetRefundPurseCalledOutsidePayment)
  }

  /** What the payment code is handed: the payment purse, with the rights to look and to deposit only. */
  function GetPaymentPurse(w: World): Result<Purse, PosError> {
    var p :- LookUp(w.names.payment);
    Ok(Purse(p.addr, true, false, true))
  }
}
