/** Gas and motes: what a deploy may spend, and what is taken when its payment fails. */
module Accounting {
  import opened Outcomes
  import opened Additive
  import opened Transforms
  import opened Effects
  import opened Ints
  import opened Results
  import CLTypes
  import Mint
  import Queue
  import ProofOfStake
  import Settlement
  import Stakes

  type Motes = Mint.Amount

  const MAX_PAYMENT: Motes := 10_000_000
  const CONV_RATE: nat := 10

  /** The price of gas, unless it overflows. */
  function FromGas(gas: Gas): Option<Motes> {
    if gas * CONV_RATE < Mint.BOUND then Some(gas * CONV_RATE) else None
  }

  /** The gas an amount buys. */
  function FromMotes(motes: Motes): Gas {
    motes / CONV_RATE
  }

  datatype ForcedTransfer = InsufficientPayment | PaymentFailure

  /** Whether the payment code leaves the deploy to be charged by force. */
  function CheckForcedTransfer(payment: ExecutionResult, balance: Motes): Option<ForcedTransfer> {
    match FromGas(payment.cost)
    case None => Some(InsufficientPayment)
    case Some(cost) =>
      if payment.Failed? then Some(PaymentFailure)
      else if balance < cost then Some(InsufficientPayment)
      else None
  }

  /** The deploy goes on exactly when payment succeeded and its gas was bought. */
  lemma GoesOnIff(payment: ExecutionResult, balance: Motes)
    ensures CheckForcedTransfer(payment, balance).None? <==> payment.Succeeded? && payment.cost <= FromMotes(balance)
  {
  }

  /**
    Once there is no forced transfer, the gas limit of the session does not underflow, and a session within it
    leaves a total whose price neither overflows nor exceeds the payment. The limit is the largest such.
   */
  lemma CostsAreCovered(payment: ExecutionResult, balance: Motes, sessionCost: Gas)
    requires CheckForcedTransfer(payment, balance).None?
    ensures payment.cost <= FromMotes(balance)
    ensures sessionCost <= FromMotes(balance) - payment.cost <==>
      FromGas(payment.cost + sessionCost).Some? && FromGas(payment.cost + sessionCost).value <= balance
  {
  }

  /** So finalization succeeds, if the session left at least the payment in the payment purse. */
  lemma FinalizeIsCovered(payment: ExecutionResult, balance: Motes, sessionCost: Gas,
                          w: ProofOfStake.World, account: Stakes.PublicKey, purse: Mint.Purse, rewards: Mint.Purse)
    requires CheckForcedTransfer(payment, balance).None? && sessionCost <= FromMotes(balance) - payment.cost
    requires balance <= Mint.Funds(w.purses.ledger, purse.addr)
    requires Mint.WellFormed(w.purses.ledger)
    requires purse.addr in w.purses.ledger.refs && rewards.addr in w.purses.ledger.refs
    requires purse.writeable && rewards.addable && rewards.addr != purse.addr
    requires w.names.payment == Some(ProofOfStake.PurseKey(purse))
    requires w.names.rewards == Some(ProofOfStake.PurseKey(rewards))
    requires w.names.refund != Some(ProofOfStake.NotAPurse)
    requires account !in w.purses.others
    requires account in w.purses.accounts ==> w.purses.accounts[account].addr in w.purses.ledger.refs
    ensures FromGas(payment.cost + sessionCost).Some?
    ensures ProofOfStake.FinalizePayment(w, true, FromGas(payment.cost + sessionCost).value, account).Ok?
  {
    CostsAreCovered(payment, balance, sessionCost);
    Settlement.FinalizeSucceeds(w, FromGas(payment.cost + sessionCost).value, account, purse, rewards);
  }

  // ----- balances in the state -----

  lemma BalanceBound(x: int)
    ensures InRange(UINT512, x) <==> 0 <= x < Mint.BOUND
  {
    Queue.BoundIsPow();
  }

  function StoredBalance(x: Motes): StoredValue {
    BalanceBound(x);
    IntValue(CLTypes.U512, UINT512, x)
  }

  /** The 512-bit number a stored value holds, if it holds one. */
  function BalanceOf(v: Option<StoredValue>): Option<Motes> {
    if v.Some? && v.value.Plain? && v.value.value.clType == CLTypes.U512
       && IntoInt(UINT512, v.value.value.bytes).Ok? then
      DecodeInRange(UINT512, v.value.value.bytes);
      BalanceBound(IntoInt(UINT512, v.value.value.bytes).value);
      Some(IntoInt(UINT512, v.value.value.bytes).value)
    else None
  }

  /** The balance stored under a key. */
  function ReadBalance(s: State, k: Effects.Key): Option<Motes> {
    BalanceOf(Find(s, k))
  }

  lemma StoredBalanceReads(s: State, k: Effects.Key, x: Motes)
    requires k in s && s[k] == StoredBalance(x)
    ensures ReadBalance(s, k) == Some(x)
  {
    BalanceBound(x);
    IntoIntInverts(UINT512, x);
  }

  function Credit(amount: Motes): Transform {
    BalanceBound(amount);
    AddNum(UINT512, amount)
  }

  lemma BalanceHeld(s: State, k: Effects.Key)
    requires ReadBalance(s, k).Some?
    ensures k in s && Holds(s[k], CLTypes.U512, UINT512, ReadBalance(s, k).value)
  {
  }

  lemma CreditTo(v: StoredValue, x: Motes, amount: Motes, y: Motes)
    requires Holds(v, CLTypes.U512, UINT512, x) && y == x + amount
    ensures Apply(Credit(amount), v) == Ok(StoredBalance(y))
  {
    BalanceBound(amount);
    BalanceBound(y);
    CreditApplies(v, x, amount, y);
  }

  lemma CreditApplies(v: StoredValue, x: int, amount: int, y: int)
    requires Holds(v, CLTypes.U512, UINT512, x) && y == x + amount
    requires InRange(UINT512, amount) && InRange(UINT512, y)
    ensures Apply(AddNum(UINT512, amount), v) == Ok(IntValue(CLTypes.U512, UINT512, y))
  {
    AddWithin(v, CLTypes.U512, UINT512, x, amount);
  }

  lemma CreditAdds(s: State, k: Effects.Key, amount: Motes)
    requires ReadBalance(s, k).Some? && ReadBalance(s, k).value + amount < Mint.BOUND
    ensures Apply(Credit(amount), s[k]) == Ok(StoredBalance(ReadBalance(s, k).value + amount))
  {
    BalanceHeld(s, k);
    CreditTo(s[k], ReadBalance(s, k).value, amount, ReadBalance(s, k).value + amount);
  }

  // ----- the forced transfer -----

  /** The effect of a deploy that did not pay: a write to the account's balance, an addition to the rewards. */
  function PaymentErrorEffect(cost: Motes, balance: Motes, main: Effects.Key, rewards: Effects.Key): Effect
    requires cost <= balance
  {
    var m, r := main.Normalize(), rewards.Normalize();
    Effect(map[m := OpWrite][r := OpAdd],
           map[m := RawTransform.Write(StoredBalance(balance - cost))][r := Credit(cost)])
  }

  /** The forced transfer moves exactly its amount from the main purse to the rewards, and nothing else. */
  lemma ForcedTransferMoves(s: State, cost: Motes, balance: Motes, main: Effects.Key, rewards: Effects.Key, s': State)
    requires cost <= balance && main.Normalize() != rewards.Normalize()
    requires ReadBalance(s, main.Normalize()) == Some(balance)
    requires ReadBalance(s, rewards.Normalize()).Some? && ReadBalance(s, rewards.Normalize()).value + cost < Mint.BOUND
    requires s' == s[main.Normalize() := StoredBalance(balance - cost)]
                    [rewards.Normalize() := StoredBalance(ReadBalance(s, rewards.Normalize()).value + cost)]
    ensures CommitsTo(s, PaymentErrorEffect(cost, balance, main, rewards).fns, s')
  {
    CreditAdds(s, rewards.Normalize(), cost);
  }

  /** Under one key the second insertion replaces the first: the balance grows by the charge. */
  lemma ForcedOntoItself(s: State, cost: Motes, balance: Motes, main: Effects.Key, rewards: Effects.Key, s': State)
    requires cost <= balance && main.Normalize() == rewards.Normalize()
    requires ReadBalance(s, main.Normalize()) == Some(balance) && balance + cost < Mint.BOUND
    requires s' == s[main.Normalize() := StoredBalance(balance + cost)]
    ensures CommitsTo(s, PaymentErrorEffect(cost, balance, main, rewards).fns, s')
  {
    CreditAdds(s, main.Normalize(), cost);
  }

  lemma ChargeWritten(s: State, cost: Motes, balance: Motes, main: Effects.Key, rewards: Effects.Key, s': State)
    requires cost <= balance && main.Normalize() != rewards.Normalize()
    requires CommitsTo(s, PaymentErrorEffect(cost, balance, main, rewards).fns, s')
    ensures main.Normalize() in s' && s'[main.Normalize()] == StoredBalance(balance - cost)
  {
    var m, fns := main.Normalize(), PaymentErrorEffect(cost, balance, main, rewards).fns;
    assert fns[m] == RawTransform.Write(StoredBalance(balance - cost));
  }

  /** The charge arrives exactly when the two purses differ: under one key the second insertion replaces the first. */
  lemma ChargedIff(s: State, cost: Motes, balance: Motes, main: Effects.Key, rewards: Effects.Key, s': State)
    requires 0 < cost <= balance && ReadBalance(s, main.Normalize()) == Some(balance) && balance + cost < Mint.BOUND
    requires ReadBalance(s, rewards.Normalize()).Some? && ReadBalance(s, rewards.Normalize()).value + cost < Mint.BOUND
    requires CommitsTo(s, PaymentErrorEffect(cost, balance, main, rewards).fns, s')
    ensures ReadBalance(s', main.Normalize()) == Some(balance - cost) <==> main.Normalize() != rewards.Normalize()
  {
    var m := main.Normalize();
    if m == rewards.Normalize() {
      CreditAdds(s, m, cost);
      StoredBalanceReads(s', m, balance + cost);
    } else {
      ChargeWritten(s, cost, balance, main, rewards, s');
      StoredBalanceReads(s', m, balance - cost);
    }
  }
}
