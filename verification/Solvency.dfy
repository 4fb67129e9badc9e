/** The bonding purse covers everything staked or waiting in a queue: what each call does to it. */
module Solvency {
  import opened Outcomes
  import opened MapSum
  import opened Mint
  import opened Stakes
  import opened Queue
  import opened ProofOfStake

  /** What the contract owes: the stakes and the amounts waiting in both queues. */
  ghost function Owing(w: World): nat {
    Sum(w.stakes) + Owed(w.bonding) + Owed(w.unbonding)
  }

  /** What the bonding purse holds beyond what is owed. */
  ghost function Surplus(w: World, pos: Purse): int {
    Funds(w.purses.ledger, pos.addr) - Owing(w)
  }

  /** No account pays out of, or is paid into, the purse at addr. */
  ghost predicate Apart(accounts: map<PublicKey, Purse>, addr: Addr) {
    forall v :: v in accounts ==> accounts[v].addr != addr
  }

  ghost predicate GoodPurses(w: Purses, pos: Purse) {
    WellFormed(w.ledger) && pos.writeable && pos.addr in w.ledger.refs && Apart(w.accounts, pos.addr)
  }

  ghost predicate Solvent(w: World, pos: Purse) {
    GoodPurses(w.purses, pos) && w.names.bonding == Some(PurseKey(pos)) && Surplus(w, pos) >= 0
  }

  /** Every account key holds an account, and every account a purse the mint knows. */
  ghost predicate Homed(w: Purses) {
    w.others == {} && forall v :: v in w.accounts ==> w.accounts[v].addr in w.ledger.refs
  }

  // ----- payouts -----

  lemma HostReadsFunds(l: Ledger, p: Addr)
    requires WellFormed(l)
    ensures HostBalance(l, p) == if p in l.refs then Ok(Some(Funds(l, p))) else Ok(None)
  {
  }

  /** The purse a payment to v ends up in: its main purse, or the one created for it. */
  ghost function Payee(w: Purses, v: PublicKey): Addr {
    if v in w.accounts then w.accounts[v].addr else w.ledger.next + 1
  }

  /**
    A payment moves its amount to the payee or nothing at all, keeps the total, lacks funds only when they are
    not there, and is aborted exactly when something other than an account is stored under the key.
   */
  lemma PayMoves(w: Purses, source: Purse, v: PublicKey, amount: Amount)
    requires WellFormed(w.ledger)
    ensures var (w', o) := Pay(w, source, v, amount);
      && WellFormed(w'.ledger) && Total(w'.ledger) == Total(w.ledger) && w.ledger.refs.Keys <= w'.ledger.refs.Keys
      && (forall p :: Funds(w'.ledger, p) == Funds(w.ledger, p)
                      + if o.Paid? then Moved(p, source.addr, Payee(w, v), amount) else 0)
      && (o.LackOfFunds? ==> amount > Funds(w.ledger, source.addr))
      && w'.others == w.others && (o.Aborted? <==> v in w.others)
      && (w'.accounts == w.accounts
          || (&& w'.accounts.Keys == w.accounts.Keys + {v} && w'.accounts == w.accounts[v := w'.accounts[v]]
              && w'.accounts[v].addr == w.ledger.next + 1 && w.ledger.next + 1 in w'.ledger.refs))
  {
    if v in w.others {
    } else if v in w.accounts {
      var main := Purse(w.accounts[v].addr, false, false, true);
      TransferSucceeds(w.ledger, source, main, amount);
      if AfterTransfer(w.ledger, source, main, amount).Ok? {
        TransferMoves(w.ledger, source, main, amount);
      }
    } else {
      PayNew(w, source, v, amount);
    }
  }

  lemma PayNew(w: Purses, source: Purse, v: PublicKey, amount: Amount)
    requires WellFormed(w.ledger) && v !in w.accounts && v !in w.others
    ensures var (w', o) := Pay(w, source, v, amount);
      && WellFormed(w'.ledger) && Total(w'.ledger) == Total(w.ledger) && w.ledger.refs.Keys <= w'.ledger.refs.Keys
      && (forall p :: Funds(w'.ledger, p) == Funds(w.ledger, p)
                      + if o.Paid? then Moved(p, source.addr, w.ledger.next + 1, amount) else 0)
      && (o.LackOfFunds? ==> amount > Funds(w.ledger, source.addr)) && !o.Aborted?
      && (o.Paid? ==> w.ledger.next + 1 in w'.ledger.refs)
  {
    HostReadsFunds(w.ledger, source.addr);
    CreateAdds(w.ledger, 0);
    var (l, purse) := Create(w.ledger, 0);
    TransferSucceeds(l, source, purse, amount);
    if AfterTransfer(l, source, purse, amount).Ok? {
      TransferMoves(l, source, purse, amount);
    }
  }

  /** A payment out of pos takes its amount from it or nothing; one out of another purse leaves pos alone. */
  lemma PayTakes(w: Purses, source: Purse, pos: Purse, v: PublicKey, amount: Amount)
    requires GoodPurses(w, pos)
    ensures var (w', o) := Pay(w, source, v, amount);
      && GoodPurses(w', pos) && Total(w'.ledger) == Total(w.ledger)
      && Funds(w'.ledger, pos.addr)
         == Funds(w.ledger, pos.addr) - (if o.Paid? && source.addr == pos.addr then amount else 0)
      && (o.LackOfFunds? ==> amount > Funds(w.ledger, source.addr))
  {
    PayMoves(w, source, v, amount);
  }

  /** The part of a list of payouts that went through. */
  ghost function PaidOut(es: seq<Entry>, os: seq<PayOutcome>): nat
    requires |es| == |os|
  {
    if es == [] then 0 else (if os[0].Paid? then es[0].amount else 0) + PaidOut(es[1..], os[1..])
  }

  lemma {:induction false} PayEachTakes(w: Purses, pos: Purse, es: seq<Entry>)
    requires GoodPurses(w, pos)
    ensures var (w', os) := PayEach(w, pos, es);
      && |os| == |es| && GoodPurses(w', pos) && Total(w'.ledger) == Total(w.ledger)
      && Funds(w'.ledger, pos.addr) == Funds(w.ledger, pos.addr) - PaidOut(es, os)
    decreases |es|
  {
    if es != [] {
      PayTakes(w, pos, pos, es[0].validator, es[0].amount);
      var (w', o) := Pay(w, pos, es[0].validator, es[0].amount);
      PayEachTakes(w', pos, es[1..]);
      var os := PayEach(w', pos, es[1..]).1;
      assert ([o] + os)[1..] == os;
    }
  }

  /** A purse that covers a list of payouts never turns one down for lack of funds. */
  lemma {:induction false} PayoutsAreFunded(w: Purses, pos: Purse, es: seq<Entry>)
    requires GoodPurses(w, pos) && Owed(es) <= Funds(w.ledger, pos.addr)
    ensures forall i :: 0 <= i < |PayEach(w, pos, es).1| ==> !PayEach(w, pos, es).1[i].LackOfFunds?
    decreases |es|
  {
    if es != [] {
      PayTakes(w, pos, pos, es[0].validator, es[0].amount);
      PayoutsAreFunded(Pay(w, pos, es[0].validator, es[0].amount).0, pos, es[1..]);
    }
  }

  /** A covered payment out of a writeable purse goes through, to an old account or a new one. */
  lemma PaySucceeds(w: Purses, source: Purse, v: PublicKey, amount: Amount)
    requires WellFormed(w.ledger) && source.writeable && source.addr in w.ledger.refs
    requires amount <= Funds(w.ledger, source.addr) && v !in w.others
    requires v in w.accounts ==> w.accounts[v].addr in w.ledger.refs
    ensures Pay(w, source, v, amount).1.Paid?
  {
    if v in w.accounts {
      TransferSucceeds(w.ledger, source, Purse(w.accounts[v].addr, false, false, true), amount);
    } else {
      HostReadsFunds(w.ledger, source.addr);
      CreateAdds(w.ledger, 0);
      var (l, purse) := Create(w.ledger, 0);
      TransferSucceeds(l, source, purse, amount);
    }
  }

  lemma PayKeepsHomed(w: Purses, source: Purse, v: PublicKey, amount: Amount)
    requires WellFormed(w.ledger) && Homed(w)
    ensures Homed(Pay(w, source, v, amount).0)
  {
    PayMoves(w, source, v, amount);
  }

  /** The ledger is in order and every account key holds an account: what keeps payments from aborting a call. */
  ghost predicate Abortless(w: Purses) {
    WellFormed(w.ledger) && w.others == {}
  }

  lemma {:induction false} NothingAborts(w: Purses, source: Purse, es: seq<Entry>)
    requires Abortless(w)
    ensures Aborted !in PayEach(w, source, es).1 && Abortless(PayEach(w, source, es).0)
    decreases |es|
  {
    if es != [] {
      PayMoves(w, source, es[0].validator, es[0].amount);
      NothingAborts(Pay(w, source, es[0].validator, es[0].amount).0, source, es[1..]);
    }
  }

  /** A purse that covers a list of payouts pays all of them. */
  lemma {:induction false} CoveredIsPaid(w: Purses, pos: Purse, es: seq<Entry>)
    requires GoodPurses(w, pos) && Homed(w) && Owed(es) <= Funds(w.ledger, pos.addr)
    ensures var (w', os) := PayEach(w, pos, es);
      AllPaid(os) && FirstFailure(os).Paid? && Aborted !in os && Homed(w')
    decreases |es|
  {
    if es != [] {
      var v, amount := es[0].validator, es[0].amount;
      PaySucceeds(w, pos, v, amount);
      PayTakes(w, pos, pos, v, amount);
      PayKeepsHomed(w, pos, v, amount);
      var w' := Pay(w, pos, v, amount).0;
      CoveredIsPaid(w', pos, es[1..]);
      var os := PayEach(w', pos, es[1..]).1;
      assert ([Paid] + os)[1..] == os;
    }
  }

  lemma {:induction false} NoFailureIsAllPaid(os: seq<PayOutcome>)
    ensures FirstFailure(os).Paid? <==> AllPaid(os)
  {
    if os != [] {
      NoFailureIsAllPaid(os[1..]);
      assert AllPaid(os) <==> os[0].Paid? && AllPaid(os[1..]) by {
        assert forall i :: 0 <= i < |os| - 1 ==> os[1..][i] == os[i + 1];
      }
    }
  }

  lemma {:induction false} PaidOutBound(es: seq<Entry>, os: seq<PayOutcome>)
    requires |es| == |os|
    ensures PaidOut(es, os) <= Owed(es) && (AllPaid(os) ==> PaidOut(es, os) == Owed(es))
  {
    if es != [] {
      PaidOutBound(es[1..], os[1..]);
      assert AllPaid(os) ==> AllPaid(os[1..]);
    }
  }

  // ----- the queues -----

  lemma {:induction false} ApplyBondsAdds(m: StakeMap, es: seq<Entry>)
    requires ApplyBonds(m, es).Some?
    ensures Sum(ApplyBonds(m, es).value) == Sum(m) + Owed(es)
    decreases |es|
  {
    if es != [] {
      BondedAdds(m, es[0].validator, es[0].amount);
      ApplyBondsAdds(Bonded(m, es[0].validator, es[0].amount).value, es[1..]);
    }
  }

  /** Stepping the queues only moves what is owed: from the bonding queue to the stakes, and out to the payouts. */
  lemma StepQueuesMoves(w: World, now: Time)
    requires StepQueues(w, now).Ok?
    ensures var (w', due) := StepQueues(w, now).value;
      w'.purses == w.purses && w'.names == w.names && Owing(w') + Owed(due) == Owing(w)
  {
    PopConserves(w.bonding, SaturatingTime(now, BOND_DELAY));
    PopConserves(w.unbonding, SaturatingTime(now, UNBOND_DELAY));
    var bonds := Due(w.bonding, SaturatingTime(now, BOND_DELAY));
    if bonds != [] {
      ApplyBondsAdds(w.stakes, bonds);
    }
  }

  lemma EnqueueBondOwes(w: World, amount: Amount, v: PublicKey, now: Time)
    requires EnqueueBond(w, amount, v, now).Ok?
    ensures var w' := EnqueueBond(w, amount, v, now).value;
      w'.purses == w.purses && w'.names == w.names && Owing(w') == Owing(w) + amount
  {
    OwedConcat(w.bonding, [Entry(v, amount, now)]);
  }

  lemma EnqueueUnbondOwes(w: World, request: Option<Amount>, v: PublicKey, now: Time)
    requires EnqueueUnbond(w, request, v, now).Ok?
    ensures var w' := EnqueueUnbond(w, request, v, now).value;
      w'.purses == w.purses && w'.names == w.names && Owing(w') == Owing(w)
  {
    UnbondKeeps(w.stakes, v, request);
    OwedConcat(w.unbonding, [Entry(v, Payout(w.stakes, v, request).value, now)]);
  }

  // ----- the calls -----

  lemma StepAndPayKeeps(w: World, pos: Purse, now: Time, onFailure: PosError)
    requires GoodPurses(w.purses, pos) && StepAndPay(w, pos, now, onFailure).Ok?
    ensures var w' := StepAndPay(w, pos, now, onFailure).value;
      && GoodPurses(w'.purses, pos) && w'.names == w.names && Surplus(w', pos) == Surplus(w, pos)
      && Total(w'.purses.ledger) == Total(w.purses.ledger)
  {
    StepQueuesMoves(w, now);
    var (w', due) := StepQueues(w, now).value;
    PayEachTakes(w'.purses, pos, due);
    NoFailureIsAllPaid(PayEach(w'.purses, pos, due).1);
    PaidOutBound(due, PayEach(w'.purses, pos, due).1);
  }

  /** A bond leaves the surplus alone, unless it is paid out of the bonding purse itself: then it eats its amount. */
  lemma BondSurplus(w: World, pos: Purse, v: PublicKey, amount: Amount, source: Purse, now: Time)
    requires Solvent(w, pos) && Bond(w, v, amount, source, now).Ok?
    ensures var w' := Bond(w, v, amount, source, now).value;
      && GoodPurses(w'.purses, pos) && w'.names == w.names && Total(w'.purses.ledger) == Total(w.purses.ledger)
      && Surplus(w', pos) == Surplus(w, pos) - (if source.addr == pos.addr then amount else 0)
      && (Surplus(w', pos) == Surplus(w, pos) <==> source.addr != pos.addr)
  {
    TransferMoves(w.purses.ledger, source, pos, amount);
    var paid := w.(purses := w.purses.(ledger := AfterTransfer(w.purses.ledger, source, pos, amount).value));
    EnqueueBondOwes(paid, amount, v, now);
    StepAndPayKeeps(EnqueueBond(paid, amount, v, now).value, pos, now, BondTransferFailed);
  }

  lemma UnbondSurplus(w: World, pos: Purse, v: PublicKey, request: Option<Amount>, now: Time)
    requires Solvent(w, pos) && Unbond(w, v, request, now).Ok?
    ensures var w' := Unbond(w, v, request, now).value;
      && GoodPurses(w'.purses, pos) && w'.names == w.names && Surplus(w', pos) == Surplus(w, pos)
      && Total(w'.purses.ledger) == Total(w.purses.ledger)
  {
    EnqueueUnbondOwes(w, request, v, now);
    StepAndPayKeeps(EnqueueUnbond(w, request, v, now).value, pos, now, UnbondTransferFailed);
  }

  /** The block step raises the surplus by exactly the payouts that failed, and none of them fails for lack of funds. */
  lemma StepSurplus(w: World, pos: Purse, now: Time)
    requires Solvent(w, pos) && BlockStep(w, now).Ok?
    ensures var w' := BlockStep(w, now).value;
      var (queued, due) := StepQueues(w, now).value;
      var os := PayEach(queued.purses, pos, due).1;
      && GoodPurses(w'.purses, pos) && w'.names == w.names && |os| == |due|
      && Total(w'.purses.ledger) == Total(w.purses.ledger)
      && Surplus(w', pos) == Surplus(w, pos) + (Owed(due) - PaidOut(due, os))
      && PaidOut(due, os) <= Owed(due)
      && forall i :: 0 <= i < |os| ==> !os[i].LackOfFunds?
  {
    StepQueuesMoves(w, now);
    var (queued, due) := StepQueues(w, now).value;
    PayEachTakes(queued.purses, pos, due);
    PaidOutBound(due, PayEach(queued.purses, pos, due).1);
    PayoutsAreFunded(queued.purses, pos, due);
  }

  // ----- no payout fails -----

  /** Stepping and paying a covered state fails only where stepping the queues does. */
  lemma StepAndPaySucceeds(w: World, pos: Purse, now: Time, onFailure: PosError)
    requires GoodPurses(w.purses, pos) && Homed(w.purses) && Surplus(w, pos) >= 0 && StepQueues(w, now).Ok?
    ensures StepAndPay(w, pos, now, onFailure).Ok? && Homed(StepAndPay(w, pos, now, onFailure).value.purses)
  {
    StepQueuesMoves(w, now);
    var (queued, due) := StepQueues(w, now).value;
    CoveredIsPaid(queued.purses, pos, due);
  }

  /** A block step pays everything that is due, and so leaves the surplus as it is. */
  lemma StepPaysAll(w: World, pos: Purse, now: Time)
    requires Solvent(w, pos) && Homed(w.purses)
    ensures BlockStep(w, now).Ok? <==> StepQueues(w, now).Ok?
    ensures BlockStep(w, now).Ok? ==>
      var w' := BlockStep(w, now).value;
      var (queued, due) := StepQueues(w, now).value;
      && AllPaid(PayEach(queued.purses, pos, due).1)
      && Surplus(w', pos) == Surplus(w, pos) && Homed(w'.purses)
  {
    if StepQueues(w, now).Ok? {
      StepQueuesMoves(w, now);
      var (queued, due) := StepQueues(w, now).value;
      CoveredIsPaid(queued.purses, pos, due);
      PayEachTakes(queued.purses, pos, due);
      PaidOutBound(due, PayEach(queued.purses, pos, due).1);
    }
  }

  /** A bond from another purse fails with a failed transfer only if its own transfer fails, never over a payout. */
  lemma BondTransferFailsIff(w: World, pos: Purse, v: PublicKey, amount: Amount, source: Purse, now: Time)
    requires Solvent(w, pos) && Homed(w.purses) && source.addr != pos.addr
    ensures Bond(w, v, amount, source, now) == Err(BondTransferFailed) <==>
      amount > 0 && AfterTransfer(w.purses.ledger, source, pos, amount).Err?
    ensures Bond(w, v, amount, source, now).Ok? ==> Homed(Bond(w, v, amount, source, now).value.purses)
  {
    if amount > 0 && AfterTransfer(w.purses.ledger, source, pos, amount).Ok? {
      TransferMoves(w.purses.ledger, source, pos, amount);
      var paid := w.(purses := w.purses.(ledger := AfterTransfer(w.purses.ledger, source, pos, amount).value));
      if EnqueueBond(paid, amount, v, now).Ok? {
        EnqueueBondOwes(paid, amount, v, now);
        var queued := EnqueueBond(paid, amount, v, now).value;
        if StepQueues(queued, now).Ok? {
          StepAndPaySucceeds(queued, pos, now, BondTransferFailed);
        }
      }
    }
  }

  /** An unbonding never fails over its payout. */
  lemma UnbondPayoutSucceeds(w: World, pos: Purse, v: PublicKey, request: Option<Amount>, now: Time)
    requires Solvent(w, pos) && Homed(w.purses)
    ensures Unbond(w, v, request, now) != Err(UnbondTransferFailed)
    ensures Unbond(w, v, request, now).Ok? ==> Homed(Unbond(w, v, request, now).value.purses)
  {
    if EnqueueUnbond(w, request, v, now).Ok? {
      EnqueueUnbondOwes(w, request, v, now);
      var queued := EnqueueUnbond(w, request, v, now).value;
      if StepQueues(queued, now).Ok? {
        StepAndPaySucceeds(queued, pos, now, UnbondTransferFailed);
      }
    }
  }
}
