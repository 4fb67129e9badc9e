/** What settling a deploy does to every purse. */
module Settlement {
  import opened Outcomes
  import opened Mint
  import opened Stakes
  import opened ProofOfStake
  import opened Solvency

  /** The set refund purse takes the refund. */
  predicate RefundTaken(w: World, l: Ledger, payment: Purse, refund: Amount) {
    && w.names.refund.Some? && w.names.refund.value.PurseKey?
    && AfterTransfer(l, payment, w.names.refund.value.purse, refund).Ok?
  }

  /** The purse that a refund reaches: the one that was set if it takes the money, else the account's. */
  ghost function RefundAddr(w: World, l: Ledger, payment: Purse, refund: Amount, account: PublicKey): Addr {
    if RefundTaken(w, l, payment, refund) then w.names.refund.value.purse.addr
    else Payee(w.purses.(ledger := l), account)
  }

  /** Balances after the refund has left the payment purse. */
  function Refunded(w: World, l: Ledger, payment: Purse, refund: Amount, account: PublicKey): Purses {
    if refund == 0 then w.purses.(ledger := l)
    else if RefundTaken(w, l, payment, refund)
    then w.purses.(ledger := AfterTransfer(l, payment, w.names.refund.value.purse, refund).value)
    else Pay(w.purses.(ledger := l), payment, account, refund).0
  }

  /** Finalization is one transfer to the rewards purse followed by the refund. */
  lemma FinalizeShape(w: World, spent: Amount, account: PublicKey, payment: Purse, rewards: Purse)
    requires WellFormed(w.purses.ledger) && FinalizePayment(w, true, spent, account).Ok?
    requires w.names.payment == Some(PurseKey(payment)) && w.names.rewards == Some(PurseKey(rewards))
    ensures var total := Funds(w.purses.ledger, payment.addr);
      && spent <= total < BOUND
      && AfterTransfer(w.purses.ledger, payment, rewards, spent).Ok?
      && var l := AfterTransfer(w.purses.ledger, payment, rewards, spent).value;
         && FinalizePayment(w, true, spent, account).value
              == w.(purses := Refunded(w, l, payment, total - spent, account), names := w.names.(refund := None))
         && (spent == total || RefundTaken(w, l, payment, total - spent)
             || Pay(w.purses.(ledger := l), payment, account, total - spent).1.Paid?)
  {
    HostReadsFunds(w.purses.ledger, payment.addr);
  }

  lemma RefundMoves(w: World, l: Ledger, payment: Purse, refund: Amount, account: PublicKey)
    requires WellFormed(l)
    requires refund == 0 || RefundTaken(w, l, payment, refund)
             || Pay(w.purses.(ledger := l), payment, account, refund).1.Paid?
    ensures var l' := Refunded(w, l, payment, refund, account).ledger;
      && WellFormed(l') && Total(l') == Total(l)
      && forall p :: Funds(l', p)
                     == Funds(l, p) + Moved(p, payment.addr, RefundAddr(w, l, payment, refund, account), refund)
  {
    if refund > 0 {
      if RefundTaken(w, l, payment, refund) {
        TransferMoves(l, payment, w.names.refund.value.purse, refund);
      } else {
        PayMoves(w.purses.(ledger := l), payment, account, refund);
      }
    }
  }

  /**
    A successful finalization moves exactly what was spent to the rewards purse and exactly the rest of the
    payment purse to the refund purse, or to the account when none is set or that transfer fails. It unsets
    the refund purse, keeps the total, and touches no other balance.
   */
  lemma FinalizeMoves(w: World, spent: Amount, account: PublicKey, payment: Purse, rewards: Purse)
    requires WellFormed(w.purses.ledger) && FinalizePayment(w, true, spent, account).Ok?
    requires w.names.payment == Some(PurseKey(payment)) && w.names.rewards == Some(PurseKey(rewards))
    ensures var w' := FinalizePayment(w, true, spent, account).value;
      var total := Funds(w.purses.ledger, payment.addr);
      && AfterTransfer(w.purses.ledger, payment, rewards, spent).Ok? && spent <= total < BOUND
      && var l := AfterTransfer(w.purses.ledger, payment, rewards, spent).value;
         && w' == w.(purses := w'.purses, names := w.names.(refund := None))
         && WellFormed(w'.purses.ledger) && Total(w'.purses.ledger) == Total(w.purses.ledger)
         && forall p :: Funds(w'.purses.ledger, p) == Funds(w.purses.ledger, p)
              + Moved(p, payment.addr, rewards.addr, spent)
              + Moved(p, payment.addr, RefundAddr(w, l, payment, total - spent, account), total - spent)
  {
    FinalizeShape(w, spent, account, payment, rewards);
    SharesMove(w, spent, account, payment, rewards, AfterTransfer(w.purses.ledger, payment, rewards, spent).value,
               Funds(w.purses.ledger, payment.addr) - spent,
               FinalizePayment(w, true, spent, account).value.purses.ledger);
  }

  lemma SharesMove(w: World, spent: Amount, account: PublicKey, payment: Purse, rewards: Purse,
                   l: Ledger, refund: Amount, l': Ledger)
    requires WellFormed(w.purses.ledger) && AfterTransfer(w.purses.ledger, payment, rewards, spent) == Ok(l)
    requires refund == 0 || RefundTaken(w, l, payment, refund)
             || Pay(w.purses.(ledger := l), payment, account, refund).1.Paid?
    requires l' == Refunded(w, l, payment, refund, account).ledger
    ensures WellFormed(l') && Total(l') == Total(w.purses.ledger)
    ensures forall p :: Funds(l', p) == Funds(w.purses.ledger, p) + Moved(p, payment.addr, rewards.addr, spent)
                                      + Moved(p, payment.addr, RefundAddr(w, l, payment, refund, account), refund)
  {
    TransferMoves(w.purses.ledger, payment, rewards, spent);
    RefundMoves(w, l, payment, refund, account);
    MovesAddUp(w.purses.ledger, l, l', payment.addr, rewards.addr,
               RefundAddr(w, l, payment, refund, account), spent, refund);
  }

  lemma MovesAddUp(l: Ledger, l1: Ledger, l2: Ledger, source: Addr, first: Addr, second: Addr, x: int, y: int)
    requires forall p :: Funds(l1, p) == Funds(l, p) + Moved(p, source, first, x)
    requires forall p :: Funds(l2, p) == Funds(l1, p) + Moved(p, source, second, y)
    ensures forall p :: Funds(l2, p) == Funds(l, p) + Moved(p, source, first, x) + Moved(p, source, second, y)
  {
  }

  /** A refund purse is set that a transfer can reach. */
  predicate RefundPurseReachable(w: World) {
    && w.names.refund.Some? && w.names.refund.value.PurseKey?
    && w.names.refund.value.purse.addable && w.names.refund.value.purse.addr in w.purses.ledger.refs
  }

  /** The refund would go back into the payment purse: by the purse that is set, or else by the account's own. */
  predicate RefundComesBack(w: World, payment: Purse, account: PublicKey) {
    if RefundPurseReachable(w) then w.names.refund.value.purse.addr == payment.addr
    else account in w.purses.accounts && w.purses.accounts[account].addr == payment.addr
  }

  /** Whether the refund purse takes the refund can be told before the call. */
  lemma RefundTakenIff(w: World, l: Ledger, payment: Purse, rewards: Purse, spent: Amount, refund: Amount)
    requires WellFormed(w.purses.ledger) && AfterTransfer(w.purses.ledger, payment, rewards, spent) == Ok(l)
    requires rewards.addr != payment.addr || spent == 0
    requires refund == Funds(w.purses.ledger, payment.addr) - spent
    ensures RefundTaken(w, l, payment, refund) <==> RefundPurseReachable(w)
  {
    TransferMoves(w.purses.ledger, payment, rewards, spent);
    TransferSucceeds(w.purses.ledger, payment, rewards, spent);
    if w.names.refund.Some? && w.names.refund.value.PurseKey? {
      TransferSucceeds(l, payment, w.names.refund.value.purse, refund);
    }
  }

  /**
    The contract promises an empty payment purse at the end of each deploy. That holds exactly when neither
    what is spent nor the refund goes to the payment purse itself.
   */
  lemma PaymentPurseEmptyIff(w: World, spent: Amount, account: PublicKey, payment: Purse, rewards: Purse)
    requires WellFormed(w.purses.ledger) && FinalizePayment(w, true, spent, account).Ok?
    requires w.names.payment == Some(PurseKey(payment)) && w.names.rewards == Some(PurseKey(rewards))
    ensures var w' := FinalizePayment(w, true, spent, account).value;
      Funds(w'.purses.ledger, payment.addr) == 0 <==>
        && (spent == 0 || rewards.addr != payment.addr)
        && (spent == Funds(w.purses.ledger, payment.addr) || !RefundComesBack(w, payment, account))
  {
    FinalizeMoves(w, spent, account, payment, rewards);
    if rewards.addr != payment.addr || spent == 0 {
      var l := AfterTransfer(w.purses.ledger, payment, rewards, spent).value;
      TransferMoves(w.purses.ledger, payment, rewards, spent);
      RefundTakenIff(w, l, payment, rewards, spent, Funds(w.purses.ledger, payment.addr) - spent);
      TransferSucceeds(w.purses.ledger, payment, rewards, spent);
    }
  }

  /** The payment code may name as refund purse the very payment purse it was handed: then the refund stays in it. */
  lemma RefundIntoPaymentPurse(w: World, spent: Amount, account: PublicKey, payment: Purse, rewards: Purse)
    requires WellFormed(w.purses.ledger) && payment.addr in w.purses.ledger.refs && rewards.addr in w.purses.ledger.refs
    requires payment.writeable && payment.addable && rewards.addable && rewards.addr != payment.addr
    requires w.names.payment == Some(PurseKey(payment)) && w.names.rewards == Some(PurseKey(rewards))
    requires spent < Funds(w.purses.ledger, payment.addr)
    ensures var w1 := SetRefundPurse(w, GetPaymentPurse(w).value, true).value;
      var r := FinalizePayment(w1, true, spent, account);
      r.Ok? && Funds(r.value.purses.ledger, payment.addr) == Funds(w.purses.ledger, payment.addr) - spent > 0
  {
    var handed := GetPaymentPurse(w).value;
    var w1 := SetRefundPurse(w, handed, true).value;
    HostReadsFunds(w.purses.ledger, payment.addr);
    TransferSucceeds(w.purses.ledger, payment, rewards, spent);
    TransferMoves(w.purses.ledger, payment, rewards, spent);
    var l := AfterTransfer(w.purses.ledger, payment, rewards, spent).value;
    var refund := Funds(w.purses.ledger, payment.addr) - spent;
    assert Funds(l, payment.addr) == refund;
    TransferSucceeds(l, payment, handed, refund);
    FinalizeMoves(w1, spent, account, payment, rewards);
  }

  /** Finalization succeeds whenever the purses are in place and the payment covers what was spent. */
  lemma FinalizeSucceeds(w: World, spent: Amount, account: PublicKey, payment: Purse, rewards: Purse)
    requires WellFormed(w.purses.ledger) && payment.addr in w.purses.ledger.refs && rewards.addr in w.purses.ledger.refs
    requires payment.writeable && rewards.addable && rewards.addr != payment.addr
    requires w.names.payment == Some(PurseKey(payment)) && w.names.rewards == Some(PurseKey(rewards))
    requires w.names.refund != Some(NotAPurse)
    requires account !in w.purses.others
    requires account in w.purses.accounts ==> w.purses.accounts[account].addr in w.purses.ledger.refs
    ensures FinalizePayment(w, true, spent, account).Ok? <==> spent <= Funds(w.purses.ledger, payment.addr)
  {
    HostReadsFunds(w.purses.ledger, payment.addr);
    TransferSucceeds(w.purses.ledger, payment, rewards, spent);
    if spent < Funds(w.purses.ledger, payment.addr) {
      TransferMoves(w.purses.ledger, payment, rewards, spent);
      var l := AfterTransfer(w.purses.ledger, payment, rewards, spent).value;
      var refund := Funds(w.purses.ledger, payment.addr) - spent;
      PaySucceeds(w.purses.(ledger := l), payment, account, refund);
    }
  }
}
