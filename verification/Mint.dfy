/** The mint: purses, the balances they refer to, and transfers between them. */
module Mint {
  import opened Outcomes
  import opened MapSum

  /** 2^512: amounts are 512-bit. */
  const BOUND: nat := 0x1_0000000000000000_0000000000000000_0000000000000000_0000000000000000
                    * 0x1_0000000000000000_0000000000000000_0000000000000000_0000000000000000

  type Amount = x: nat | x < BOUND

  /** Addresses stand for themselves; the generator hands out each one once. */
  type Addr = nat

  /** A reference to a purse with the rights its holder has been given. */
  datatype Purse = Purse(addr: Addr, readable: bool, writeable: bool, addable: bool)

  /** What the mint stores under a purse: the reference to its balance, unless something else got there. */
  datatype BalanceKey = BalanceRef(at: Addr) | OtherKey

  datatype MintError =
    | InvalidNonEmptyPurseCreation | InvalidAccessRights
    | SourceNotFound | DestNotFound | InsufficientFunds | PurseNotFound

  datatype Ledger = Ledger(refs: map<Addr, BalanceKey>, store: map<Addr, Amount>, next: Addr)

  // ----- the operations as functions of the ledger -----

  /** 512-bit addition. */
  function AddWrapped(x: Amount, y: Amount): Amount {
    if x + y < BOUND then x + y else x + y - BOUND
  }

  function BalanceAddr(l: Ledger, p: Addr, missing: MintError): Result<Addr, MintError> {
    if p !in l.refs then Err(missing)
    else match l.refs[p]
      case BalanceRef(at) => Ok(at)
      case OtherKey => Err(InvalidAccessRights)
  }

  function AfterTransfer(l: Ledger, source: Purse, dest: Purse, amount: Amount): Result<Ledger, MintError> {
    if !source.writeable || !dest.addable then Err(InvalidAccessRights)
    else
      var s :- BalanceAddr(l, source.addr, SourceNotFound);
      if s !in l.store then Err(SourceNotFound)
      else if amount > l.store[s] then Err(InsufficientFunds)
      else
        var d :- BalanceAddr(l, dest.addr, DestNotFound);
        var debited := l.store[s := l.store[s] - amount];
        if d !in debited then Err(DestNotFound)
        else Ok(l.(store := debited[d := AddWrapped(debited[d], amount)]))
  }

  /** A new purse with its own balance, under two addresses never used before. */
  function Create(l: Ledger, initial: Amount): (Ledger, Purse) {
    var balance, purse := l.next, l.next + 1;
    (Ledger(l.refs[purse := BalanceRef(balance)], l.store[balance := initial], l.next + 2),
     Purse(purse, true, true, true))
  }

  function MintNew(l: Ledger, initial: Amount, callerIsSystem: bool): Result<(Ledger, Purse), MintError> {
    if initial != 0 && !callerIsSystem then Err(InvalidNonEmptyPurseCreation) else Ok(Create(l, initial))
  }

  function Balance(l: Ledger, p: Addr): Result<Option<Amount>, MintError> {
    if p !in l.refs then Ok(None)
    else match l.refs[p]
      case OtherKey => Err(InvalidAccessRights)
      case BalanceRef(at) => if at in l.store then Ok(Some(l.store[at])) else Err(PurseNotFound)
  }

  // ----- what every ledger keeps -----

  /** Each purse has a balance of its own, and the generator is ahead of every address in use. */
  ghost predicate WellFormed(l: Ledger) {
    && (forall p :: p in l.refs ==> l.refs[p].BalanceRef? && l.refs[p].at in l.store && p < l.next)
    && (forall p, q :: p in l.refs && q in l.refs && p != q ==> l.refs[p] != l.refs[q])
    && (forall a :: a in l.store ==> a < l.next)
    && Total(l) < BOUND
  }

  ghost function Total(l: Ledger): nat {
    Sum(l.store)
  }

  /** The balance of a purse, zero if it has none. */
  ghost function Funds(l: Ledger, p: Addr): nat {
    if p in l.refs && l.refs[p].BalanceRef? && l.refs[p].at in l.store then l.store[l.refs[p].at] else 0
  }

  lemma FundsIsBalance(l: Ledger, p: Addr)
    requires WellFormed(l)
    ensures Balance(l, p) == if p in l.refs then Ok(Some(Funds(l, p))) else Ok(None)
  {
  }

  /** A transfer succeeds exactly when the rights, the purses and the funds are there. */
  lemma TransferSucceeds(l: Ledger, source: Purse, dest: Purse, amount: Amount)
    requires WellFormed(l)
    ensures AfterTransfer(l, source, dest, amount).Ok? <==>
      && source.writeable && dest.addable && source.addr in l.refs && dest.addr in l.refs
      && amount <= Funds(l, source.addr)
  {
  }

  /**
    A successful transfer takes the amount from one purse and puts it in the other, touches no third purse,
    and keeps the total: no addition wraps. A transfer from a purse to itself changes nothing.
   */
  lemma TransferMoves(l: Ledger, source: Purse, dest: Purse, amount: Amount)
    requires WellFormed(l) && AfterTransfer(l, source, dest, amount).Ok?
    ensures var l' := AfterTransfer(l, source, dest, amount).value;
      && WellFormed(l') && l'.refs == l.refs && l'.next == l.next && Total(l') == Total(l)
      && forall p :: Funds(l', p) == Funds(l, p) + Moved(p, source.addr, dest.addr, amount)
  {
    var l' := AfterTransfer(l, source, dest, amount).value;
    var s, d := l.refs[source.addr].at, l.refs[dest.addr].at;
    StoreMoves(l.store, s, d, amount);
    forall p ensures Funds(l', p) == Funds(l, p) + Moved(p, source.addr, dest.addr, amount) {
      assert p in l.refs && p != source.addr ==> l.refs[p] != l.refs[source.addr];
      assert p in l.refs && p != dest.addr ==> l.refs[p] != l.refs[dest.addr];
    }
  }

  /** What a transfer does to the balance of p. */
  ghost function Moved(p: Addr, source: Addr, dest: Addr, amount: int): int {
    (if p == dest then amount else 0) - (if p == source then amount else 0)
  }

  lemma StoreMoves(store: map<Addr, Amount>, s: Addr, d: Addr, amount: Amount)
    requires s in store && d in store && amount <= store[s] && Sum(store) < BOUND
    ensures var debited: map<Addr, nat> := store[s := store[s] - amount];
      && debited[d] + amount < BOUND
      && Sum(debited[d := debited[d] + amount]) == Sum(store)
  {
    var debited: map<Addr, nat> := store[s := store[s] - amount];
    SumInsert(store, s, store[s] - amount);
    SumInsert(debited, d, debited[d] + amount);
    if s == d {
      SumAtLeast(store, s);
    } else {
      SumAtLeastTwo(store, s, d);
    }
  }

  lemma CreateAdds(l: Ledger, initial: Amount)
    requires WellFormed(l) && Total(l) + initial < BOUND
    ensures var (l', p) := Create(l, initial);
      && WellFormed(l') && Total(l') == Total(l) + initial && p.addr !in l.refs && p.addr in l'.refs
      && Funds(l', p.addr) == initial && l.refs.Keys <= l'.refs.Keys
      && forall q :: q in l.refs ==> Funds(l', q) == Funds(l, q)
  {
    SumInsert(l.store, l.next, initial);
  }

  // ----- the contract -----

  class MintContract {
    var refs: map<Addr, BalanceKey>
    var store: map<Addr, Amount>
    var next: Addr

    constructor (l: Ledger)
      ensures Contents() == l
    {
      refs, store, next := l.refs, l.store, l.next;
    }

    function Contents(): Ledger
      reads this
    {
      Ledger(refs, store, next)
    }

    method Mint(initial: Amount, callerIsSystem: bool) returns (r: Result<Purse, MintError>)
      modifies this
      ensures match MintNew(old(Contents()), initial, callerIsSystem)
        case Ok(p) => r == Ok(p.1) && Contents() == p.0
        case Err(e) => r == Err(e) && Contents() == old(Contents())
    {
      if initial != 0 && !callerIsSystem {
        return Err(InvalidNonEmptyPurseCreation);
      }
      var balance := next;
      store, next := store[balance := initial], next + 1;
      var purse := next;
      next := next + 1;
      refs := refs[purse := BalanceRef(balance)];
      r := Ok(Purse(purse, true, true, true));
    }

    /** Writes the debited source, then adds to the destination; an error reverts the call. */
    method Transfer(source: Purse, dest: Purse, amount: Amount) returns (r: Result<(), MintError>)
      modifies this
      ensures match AfterTransfer(old(Contents()), source, dest, amount)
        case Ok(l) => r == Ok(()) && Contents() == l
        case Err(e) => r == Err(e) && Contents() == old(Contents())
    {
      if !source.writeable || !dest.addable {
        return Err(InvalidAccessRights);
      }
      var s := BalanceAddr(Contents(), source.addr, SourceNotFound);
      if s.Err? { return Err(s.error); }
      if s.value !in store { return Err(SourceNotFound); }
      var sourceValue := store[s.value];
      if amount > sourceValue { return Err(InsufficientFunds); }
      var d := BalanceAddr(Contents(), dest.addr, DestNotFound);
      if d.Err? { return Err(d.error); }
      var before := store;
      store := store[s.value := sourceValue - amount];
      if d.value !in store {
        store := before;
        return Err(DestNotFound);
      }
      store := store[d.value := AddWrapped(store[d.value], amount)];
      r := Ok(());
    }
  }

  // ----- whole runs -----

  datatype Call =
    | CallMint(initial: Amount, callerIsSystem: bool)
    | CallTransfer(source: Purse, dest: Purse, amount: Amount)

  /** A call; one that fails changes nothing. */
  function AfterCall(l: Ledger, c: Call): Ledger {
    match c
    case CallMint(initial, system) =>
      (match MintNew(l, initial, system) case Ok(p) => p.0 case Err(_) => l)
    case CallTransfer(source, dest, amount) =>
      (match AfterTransfer(l, source, dest, amount) case Ok(l') => l' case Err(_) => l)
  }

  function Run(l: Ledger, calls: seq<Call>): Ledger
    decreases |calls|
  {
    if calls == [] then l else Run(AfterCall(l, calls[0]), calls[1..])
  }

  /** What the system account minted. */
  function Minted(calls: seq<Call>): nat {
    if calls == [] then 0
    else (if calls[0].CallMint? && calls[0].callerIsSystem then calls[0].initial else 0) + Minted(calls[1..])
  }

  /** Over every run the supply grows by exactly what the system account mints, and purses stay apart. */
  lemma {:induction false} SupplyOverRuns(l: Ledger, calls: seq<Call>)
    requires WellFormed(l) && Total(l) + Minted(calls) < BOUND
    ensures WellFormed(Run(l, calls)) && Total(Run(l, calls)) == Total(l) + Minted(calls)
    decreases |calls|
  {
    if calls != [] {
      match calls[0] {
        case CallMint(initial, system) =>
          if initial == 0 || system { CreateAdds(l, initial); }
        case CallTransfer(source, dest, amount) =>
          if AfterTransfer(l, source, dest, amount).Ok? { TransferMoves(l, source, dest, amount); }
      }
      SupplyOverRuns(AfterCall(l, calls[0]), calls[1..]);
    }
  }
}
