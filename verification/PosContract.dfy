/** The contract as it runs: queues, stakes, names and purses are read, changed and written back step by step. */
module PosContract {
  import opened Outcomes
  import opened Mint
  import opened Stakes
  import opened Queue
  import opened ProofOfStake
  import opened PosRuns

  class Contract {
    const mint: MintContract
    var accounts: map<PublicKey, Purse>
    var others: set<PublicKey>
    var stakes: StakeMap
    var bonding: seq<Entry>
    var unbonding: seq<Entry>
    var names: Names

    constructor (w: World, mint: MintContract)
      requires mint.Contents() == w.purses.ledger
      ensures this.mint == mint && Now() == w
    {
      this.mint := mint;
      accounts, others, stakes := w.purses.accounts, w.purses.others, w.stakes;
      bonding, unbonding, names := w.bonding, w.unbonding, w.names;
    }

    function Holdings(): Purses
      reads this, mint
    {
      Purses(mint.Contents(), accounts, others)
    }

    function Now(): World
      reads this, mint
    {
      World(Holdings(), stakes, bonding, unbonding, names)
    }

    /** Pays into an account's main purse, creating the account if need be. */
    method TransferToAccount(source: Purse, target: PublicKey, amount: Amount) returns (o: PayOutcome)
      modifies this, mint
      ensures Pay(old(Holdings()), source, target, amount) == (Holdings(), o)
      ensures Now() == old(Now()).(purses := Holdings())
    {
      if target in others { return Aborted; }
      if target in accounts {
        var main := Purse(accounts[target].addr, false, false, true);
        if source == main { return Paid; }
        var r := mint.Transfer(source, main, amount);
        return if r.Ok? then Paid else if r.error.InsufficientFunds? then LackOfFunds else OtherFailure;
      }
      var balance := HostBalance(mint.Contents(), source.addr);
      if balance.Err? { return Aborted; }
      if amount > (if balance.value.Some? then balance.value.value else 0) { return LackOfFunds; }
      var purse := mint.Mint(0, false);
      var r := mint.Transfer(source, purse.value, amount);
      if r.Err? { return OtherFailure; }
      accounts := accounts[target := purse.value];
      o := Paid;
    }

    /** Pays entry after entry up to the first failure. */
    method PayAll(pos: Purse, due: seq<Entry>) returns (o: PayOutcome)
      modifies this, mint
      ensures o == FirstFailure(PayEach(old(Holdings()), pos, due).1)
      ensures o.Paid? ==> Now() == old(Now()).(purses := PayEach(old(Holdings()), pos, due).0)
    {
      for i := 0 to |due|
        invariant Now() == old(Now()).(purses := Holdings())
        invariant PayEach(old(Holdings()), pos, due).0 == PayEach(Holdings(), pos, due[i..]).0
        invariant FirstFailure(PayEach(old(Holdings()), pos, due).1)
               == FirstFailure(PayEach(Holdings(), pos, due[i..]).1)
      {
        PayNext(Holdings(), pos, due, i);
        o := TransferToAccount(pos, due[i].validator, due[i].amount);
        if !o.Paid? { return o; }
      }
      assert due[|due|..] == [];
      o := Paid;
    }

    /** Pays entry after entry and ignores failures, but for one that aborts the call. */
    method PayAny(pos: Purse, due: seq<Entry>) returns (aborted: bool)
      modifies this, mint
      ensures aborted <==> Aborted in PayEach(old(Holdings()), pos, due).1
      ensures !aborted ==> Now() == old(Now()).(purses := PayEach(old(Holdings()), pos, due).0)
    {
      for i := 0 to |due|
        invariant Now() == old(Now()).(purses := Holdings())
        invariant PayEach(old(Holdings()), pos, due).0 == PayEach(Holdings(), pos, due[i..]).0
        invariant Aborted in PayEach(old(Holdings()), pos, due).1 <==> Aborted in PayEach(Holdings(), pos, due[i..]).1
      {
        PayNext(Holdings(), pos, due, i);
        var o := TransferToAccount(pos, due[i].validator, due[i].amount);
        if o.Aborted? { return true; }
      }
      assert due[|due|..] == [];
      aborted := false;
    }

    /** Adds a list of bonds to a table; false when one overflows. */
    method BondAll(table: StakesTable, es: seq<Entry>) returns (ok: bool)
      modifies table
      ensures ok <==> ApplyBonds(old(table.stakes), es).Some?
      ensures ok ==> table.stakes == ApplyBonds(old(table.stakes), es).value
    {
      for i := 0 to |es|
        invariant ApplyBonds(old(table.stakes), es) == ApplyBonds(table.stakes, es[i..])
      {
        assert es[i..][1..] == es[i + 1..];
        var fits := table.Bond(es[i].validator, es[i].amount);
        if !fits { return false; }
      }
      ok := true;
    }

    /** Queues a bond, checked against the stakes with all earlier bonds simulated; those are not written. */
    method QueueBond(amount: Amount, v: PublicKey, now: Time) returns (r: Result<(), PosError>)
      modifies this
      ensures match EnqueueBond(old(Now()), amount, v, now)
        case Ok(w) => r == Ok(()) && Now() == w
        case Err(e) => r == Err(e)
    {
      var queue := new PendingQueue(bonding);
      if |queue.entries| >= MAX_BOND_LEN { return Err(TooManyEventsInQueue); }
      if stakes == map[] { return Err(StakesNotFound); }
      var table := new StakesTable(stakes);
      var fits := BondAll(table, queue.entries);
      if !fits { return Err(Panicked); }
      var _ :- table.ValidateBonding(v, amount);
      var _ :- queue.Push(v, amount, now);
      bonding := queue.entries;
      r := Ok(());
    }

    /** Takes an unbonding off the stakes, writes them, and queues the payout. */
    method QueueUnbond(request: Option<Amount>, v: PublicKey, now: Time) returns (r: Result<(), PosError>)
      modifies this
      ensures match EnqueueUnbond(old(Now()), request, v, now)
        case Ok(w) => r == Ok(()) && Now() == w
        case Err(e) => r == Err(e)
    {
      var queue := new PendingQueue(unbonding);
      if |queue.entries| >= MAX_UNBOND_LEN { return Err(TooManyEventsInQueue); }
      if stakes == map[] { return Err(StakesNotFound); }
      var table := new StakesTable(stakes);
      var payout :- table.Unbond(v, request);
      stakes := table.stakes;
      var _ :- queue.Push(v, payout, now);
      unbonding := queue.entries;
      r := Ok(());
    }

    /** Takes what is due off the queues; each queue, and the stakes, are written only if something was due. */
    method StepBoth(now: Time) returns (r: Result<seq<Entry>, PosError>)
      modifies this
      ensures match StepQueues(old(Now()), now)
        case Ok(p) => r == Ok(p.1) && Now() == p.0
        case Err(e) => r == Err(e)
    {
      var dueBonds, dueUnbonds := PopQueues(SaturatingTime(now, BOND_DELAY), SaturatingTime(now, UNBOND_DELAY));
      if dueBonds != [] {
        var _ :- ApplyDue(dueBonds);
      }
      r := Ok(dueUnbonds);
    }

    method PopQueues(bondTime: Time, unbondTime: Time) returns (dueBonds: seq<Entry>, dueUnbonds: seq<Entry>)
      modifies this`bonding, this`unbonding
      ensures dueBonds == Due(old(bonding), bondTime) && bonding == Later(old(bonding), bondTime)
      ensures dueUnbonds == Due(old(unbonding), unbondTime) && unbonding == Later(old(unbonding), unbondTime)
    {
      var bonds := new PendingQueue(bonding);
      var unbonds := new PendingQueue(unbonding);
      dueBonds := bonds.PopDue(bondTime);
      dueUnbonds := unbonds.PopDue(unbondTime);
      NothingDue(bonding, bondTime);
      NothingDue(unbonding, unbondTime);
      if dueUnbonds != [] {
        unbonding := unbonds.entries;
      }
      if dueBonds != [] {
        bonding := bonds.entries;
      }
    }

    /** Adds due bonds to the stakes and writes them. */
    method ApplyDue(due: seq<Entry>) returns (r: Result<(), PosError>)
      modifies this`stakes
      ensures r == if old(stakes) == map[] then Err(StakesNotFound)
                   else if ApplyBonds(old(stakes), due).None? then Err(Panicked)
                   else Ok(())
      ensures r.Ok? ==> Some(stakes) == ApplyBonds(old(stakes), due)
    {
      if stakes == map[] { return Err(StakesNotFound); }
      var table := new StakesTable(stakes);
      var fits := BondAll(table, due);
      if !fits { return Err(Panicked); }
      stakes := table.stakes;
      r := Ok(());
    }

    method BondCall(v: PublicKey, amount: Amount, source: Purse, now: Time) returns (r: Result<(), PosError>)
      modifies this, mint
      ensures match Bond(old(Now()), v, amount, source, now)
        case Ok(w) => r == Ok(()) && Now() == w
        case Err(e) => r == Err(e)
    {
      if amount == 0 { return Err(BondTooSmall); }
      var pos :- LookUp(names.bonding);
      var sent := mint.Transfer(source, pos, amount);
      if sent.Err? { return Err(BondTransferFailed); }
      var _ :- QueueBond(amount, v, now);
      var due :- StepBoth(now);
      var paid := PayAll(pos, due);
      r := if paid.Paid? then Ok(()) else Err(PayError(paid, BondTransferFailed));
    }

    method UnbondCall(v: PublicKey, request: Option<Amount>, now: Time) returns (r: Result<(), PosError>)
      modifies this, mint
      ensures match Unbond(old(Now()), v, request, now)
        case Ok(w) => r == Ok(()) && Now() == w
        case Err(e) => r == Err(e)
    {
      var pos :- LookUp(names.bonding);
      var _ :- QueueUnbond(request, v, now);
      var due :- StepBoth(now);
      var paid := PayAll(pos, due);
      r := if paid.Paid? then Ok(()) else Err(PayError(paid, UnbondTransferFailed));
    }

    method StepCall(now: Time) returns (r: Result<(), PosError>)
      modifies this, mint
      ensures match BlockStep(old(Now()), now)
        case Ok(w) => r == Ok(()) && Now() == w
        case Err(e) => r == Err(e)
    {
      var pos :- LookUp(names.bonding);
      var due :- StepBoth(now);
      var aborted := PayAny(pos, due);
      r := if aborted then Err(Panicked) else Ok(());
    }

    method FinalizeCall(callerIsSystem: bool, spent: Amount, account: PublicKey) returns (r: Result<(), PosError>)
      modifies this, mint
      ensures match FinalizePayment(old(Now()), callerIsSystem, spent, account)
        case Ok(w) => r == Ok(()) && Now() == w
        case Err(e) => r == Err(e)
    {
      if !callerIsSystem { return Err(SystemFunctionCalledByUserAccount); }
      var shares :- Divide(spent);
      r := PayRewards(shares.0, shares.1, spent, shares.2, account);
    }

    /** Looks up the payment purse, its balance and the rewards purse. */
    method Divide(spent: Amount) returns (r: Result<(Purse, Purse, Amount), PosError>)
      ensures r == Shares(Now(), spent)
    {
      var payment :- LookUp(names.payment);
      var total :- PaymentBalance(mint.Contents(), payment);
      if total < spent { return Err(InsufficientPaymentForAmountSpent); }
      var rewards :- LookUp(names.rewards);
      if names.refund == Some(NotAPurse) { return Err(PurseKeyUnexpectedType); }
      r := Ok((payment, rewards, total - spent));
    }

    /** Unsets the refund purse, pays the rewards, and gives the refund if there is any. */
    method PayRewards(payment: Purse, rewards: Purse, spent: Amount, refundAmount: Amount, account: PublicKey)
      returns (r: Result<(), PosError>)
      requires names.refund != Some(NotAPurse)
      modifies this, mint
      ensures match PayOut(old(Now()), payment, rewards, spent, refundAmount, account)
        case Ok(w) => r == Ok(()) && Now() == w
        case Err(e) => r == Err(e)
    {
      var refund := names.refund;
      names := names.(refund := None);
      var rewarded := mint.Transfer(payment, rewards, spent);
      if rewarded.Err? { return Err(FailedTransferToRewardsPurse); }
      if refundAmount == 0 { return Ok(()); }
      r := GiveRefund(payment, refund, account, refundAmount);
    }

    /** The refund: to the purse that was set, if there is one and the transfer succeeds, else to the account. */
    method GiveRefund(payment: Purse, refund: Option<NamedKey>, account: PublicKey, amount: Amount)
      returns (r: Result<(), PosError>)
      requires refund != Some(NotAPurse)
      modifies this, mint
      ensures match RefundTo(old(Now()), payment, refund, account, amount)
        case Ok(w) => r == Ok(()) && Now() == w
        case Err(e) => r == Err(e)
    {
      if refund.Some? {
        var refunded := mint.Transfer(payment, refund.value.purse, amount);
        if refunded.Ok? { return Ok(()); }
      }
      var o := TransferToAccount(payment, account, amount);
      r := if o.Paid? then Ok(()) else Err(PayError(o, FailedTransferToAccountPurse));
    }

    /** A call as its caller sees it: after an error everything is as before. */
    method Perform(c: PosCall) returns (r: Result<(), PosError>)
      modifies this, mint
      ensures Now() == After(old(Now()), c)
      ensures r.Ok? <==> Attempt(old(Now()), c).Ok?
      ensures r.Err? ==> r.error == Attempt(old(Now()), c).error
    {
      var before := Now();
      match c {
        case DoBond(v, amount, source, now) => r := BondCall(v, amount, source, now);
        case DoUnbond(v, request, now) => r := UnbondCall(v, request, now);
        case DoStep(now) => r := StepCall(now);
        case DoFinalize(system, spent, account) => r := FinalizeCall(system, spent, account);
        case DoSetRefund(purse, inPaymentPhase) =>
          if inPaymentPhase {
            names := names.(refund := Some(PurseKey(purse)));
            r := Ok(());
          } else {
            r := Err(SetRefundPurseCalledOutsidePayment);
          }
        case DoTransfer(source, dest, amount) =>
          var sent := mint.Transfer(source, dest, amount);
          r := if sent.Ok? then Ok(()) else Err(Panicked);
        case DoPay(source, target, amount) =>
          var _ := TransferToAccount(source, target, amount);
          r := Ok(());
        case DoMint(initial, callerIsSystem) =>
          var minted := mint.Mint(initial, callerIsSystem);
          r := if minted.Ok? then Ok(()) else Err(Panicked);
      }
      if r.Err? { Restore(before); }
    }

    method Restore(w: World)
      modifies this, mint
      ensures Now() == w
    {
      mint.refs, mint.store, mint.next := w.purses.ledger.refs, w.purses.ledger.store, w.purses.ledger.next;
      accounts, others, stakes := w.purses.accounts, w.purses.others, w.stakes;
      bonding, unbonding, names := w.bonding, w.unbonding, w.names;
    }
  }

  lemma PayNext(w: Purses, pos: Purse, due: seq<Entry>, i: nat)
    requires i < |due|
    ensures var (w', o) := Pay(w, pos, due[i].validator, due[i].amount);
      var all, rest := PayEach(w, pos, due[i..]), PayEach(w', pos, due[i + 1..]);
      && all.0 == rest.0
      && FirstFailure(all.1) == (if o.Paid? then FirstFailure(rest.1) else o)
      && (Aborted in all.1 <==> o.Aborted? || Aborted in rest.1)
  {
    var (w', o) := Pay(w, pos, due[i].validator, due[i].amount);
    assert due[i..][1..] == due[i + 1..];
    var os := PayEach(w', pos, due[i + 1..]).1;
    assert PayEach(w, pos, due[i..]).1 == [o] + os;
    FirstOf(o, os);
  }

  lemma FirstOf(o: PayOutcome, os: seq<PayOutcome>)
    ensures FirstFailure([o] + os) == (if o.Paid? then FirstFailure(os) else o)
    ensures Aborted in [o] + os <==> o.Aborted? || Aborted in os
  {
    assert ([o] + os)[1..] == os;
  }

  lemma {:induction false} NothingDue(q: seq<Entry>, t: Time)
    ensures Due(q, t) == [] ==> Later(q, t) == q
  {
    if q != [] {
      NothingDue(q[..|q| - 1], t);
      assert q == q[..|q| - 1] + [q[|q| - 1]];
    }
  }
}
