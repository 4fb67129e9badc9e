/** The stakes map of the proof-of-stake contract: who may bond and unbond how much. */
module Stakes {
  import opened Outcomes
  import opened MapSum
  import opened Mint
  import opened Arith
  import Keys

  type PublicKey = Keys.Addr

  /** Contract errors; Panicked is an arithmetic overflow, which aborts the call. */
  datatype PosError =
    | BondTooSmall | BondTooLarge | BondTransferFailed | SpreadTooHigh
    | NotBonded | UnbondTooLarge | CannotUnbondLastValidator | UnbondTransferFailed
    | TooManyEventsInQueue | MultipleRequests | TimeWentBackwards | StakesNotFound
    | PurseKeyNotFound | PurseKeyUnexpectedType
    | SystemFunctionCalledByUserAccount | PaymentPurseBalanceNotFound | InsufficientPaymentForAmountSpent
    | FailedTransferToRewardsPurse | FailedTransferToAccountPurse | SetRefundPurseCalledOutsidePayment
    | Panicked

  const MAX: Amount := BOUND - 1
  const MAX_SPREAD: Amount := MAX
  const MAX_INCREASE: Amount := MAX
  const MAX_DECREASE: Amount := MAX
  const MAX_REL_INCREASE: nat := 1_000_000_000
  const MAX_REL_DECREASE: nat := 900_000
  const MILLION: nat := 1_000_000

  type StakeMap = map<PublicKey, Amount>

  function SaturatingAdd(x: Amount, y: Amount): Amount {
    if x + y < BOUND then x + y else MAX
  }

  function SaturatingSub(x: Amount, y: Amount): Amount {
    if x >= y then x - y else 0
  }

  function Min(x: nat, y: nat): nat {
    if x <= y then x else y
  }

  // ----- what the checks amount to -----

  /** A relative limit: total * rate / 10^6, unless the product overflows. */
  ghost function Limit(m: StakeMap, rate: nat): Option<nat> {
    if Sum(m) * rate < BOUND then Some(Sum(m) * rate / MILLION) else None
  }

  /**
    The payout of an unbonding request. The spread limit is the largest amount there is, so it never bites:
    what counts is the share of the total, and that somebody stays bonded.
   */
  ghost function Payout(m: StakeMap, v: PublicKey, request: Option<Amount>): Result<Amount, PosError> {
    match Limit(m, MAX_REL_DECREASE)
    case None => Err(Panicked)
    case Some(limit) =>
      var partial := request.Some? && v in m && request.value < m[v];
      if request.Some? && v !in m then Err(NotBonded)
      else if partial then (if request.value <= limit then Ok(request.value) else Err(UnbondTooLarge))
      else if |m| == 1 then Err(CannotUnbondLastValidator)
      else if v !in m then Err(NotBonded)
      else if (request.Some? && request.value > m[v]) || m[v] > limit then Err(UnbondTooLarge)
      else Ok(m[v])
  }

  ghost function Unbonded(m: StakeMap, v: PublicKey, payout: Amount): StakeMap
    requires v in m && payout <= m[v]
  {
    if payout < m[v] then m[v := m[v] - payout] else m - {v}
  }

  /** Adding a bond; None when the stake overflows. */
  function Bonded(m: StakeMap, v: PublicKey, amount: Amount): Option<StakeMap> {
    if v !in m then Some(m[v := amount])
    else if m[v] + amount < BOUND then Some(m[v := m[v] + amount])
    else None
  }

  /** A bond is admitted up to a thousand times the total stakes. */
  ghost function Admission(m: StakeMap, v: PublicKey, amount: Amount): Result<(), PosError> {
    if v in m && m[v] + amount >= BOUND then Err(Panicked)
    else match Limit(m, MAX_REL_INCREASE)
      case None => Err(Panicked)
      case Some(limit) => if amount <= limit then Ok(()) else Err(BondTooLarge)
  }

  // ----- the operations -----

  class StakesTable {
    var stakes: StakeMap

    constructor (stakes: StakeMap)
      ensures this.stakes == stakes
    {
      this.stakes := stakes;
    }

    /** The saturating total. */
    method Total() returns (sum: Amount)
      ensures sum == Min(Sum(stakes), MAX)
    {
      sum := 0;
      var todo := stakes;
      while todo != map[]
        invariant todo.Keys <= stakes.Keys && forall k :: k in todo ==> todo[k] == stakes[k]
        invariant Min(sum + Sum(todo), MAX) == Min(Sum(stakes), MAX)
        decreases todo.Keys
      {
        var k :| k in todo;
        SumWithout(todo, k);
        sum := SaturatingAdd(sum, todo[k]);
        todo := todo - {k};
      }
    }

    /** The largest stake of the others. */
    method MaxWithout(v: PublicKey) returns (r: Option<Amount>)
      ensures r.None? <==> stakes.Keys <= {v}
      ensures r.Some? ==> (exists k :: k in stakes && k != v && stakes[k] == r.value)
      ensures r.Some? ==> forall k :: k in stakes && k != v ==> stakes[k] <= r.value
    {
      r := None;
      var todo := stakes.Keys - {v};
      while todo != {}
        invariant todo <= stakes.Keys - {v}
        invariant r.None? <==> todo == stakes.Keys - {v}
        invariant r.Some? ==> exists k :: k in stakes && k != v && stakes[k] == r.value
        invariant r.Some? ==> forall k :: k in stakes && k != v && k !in todo ==> stakes[k] <= r.value
        decreases todo
      {
        var k :| k in todo;
        todo := todo - {k};
        if r.None? || stakes[k] > r.value {
          r := Some(stakes[k]);
        }
      }
    }

    /** The smallest stake of the others. */
    method MinWithout(v: PublicKey) returns (r: Option<Amount>)
      ensures r.None? <==> stakes.Keys <= {v}
      ensures r.Some? ==> (exists k :: k in stakes && k != v && stakes[k] == r.value)
      ensures r.Some? ==> forall k :: k in stakes && k != v ==> stakes[k] >= r.value
    {
      r := None;
      var todo := stakes.Keys - {v};
      while todo != {}
        invariant todo <= stakes.Keys - {v}
        invariant r.None? <==> todo == stakes.Keys - {v}
        invariant r.Some? ==> exists k :: k in stakes && k != v && stakes[k] == r.value
        invariant r.Some? ==> forall k :: k in stakes && k != v && k !in todo ==> stakes[k] >= r.value
        decreases todo
      {
        var k :| k in todo;
        todo := todo - {k};
        if r.None? || stakes[k] < r.value {
          r := Some(stakes[k]);
        }
      }
    }

    /** total * rate / 10^6, or nothing when the 512-bit product overflows. */
    method RelativeLimit(rate: nat, cap: Amount) returns (r: Option<Amount>)
      requires rate >= 2 && cap == MAX
      ensures r == Limit(stakes, rate)
    {
      var total := Total();
      SaturatedProduct(Sum(stakes), total, rate, BOUND);
      if total * rate >= BOUND {
        return None;
      }
      QuotientAtMost(total * rate, MILLION);
      r := Some(Min(cap, total * rate / MILLION));
    }

    /**
      Takes a request off the validator's stakes and returns what is to be paid out. After an error the table
      is either unchanged or already lacks the validator; callers drop it then.
     */
    method Unbond(v: PublicKey, request: Option<Amount>) returns (r: Result<Amount, PosError>)
      modifies this
      ensures r == Payout(old(stakes), v, request)
      ensures r.Ok? ==> v in old(stakes) && r.value <= old(stakes)[v] && stakes == Unbonded(old(stakes), v, r.value)
      ensures r.Err? ==> stakes == old(stakes) || stakes == old(stakes) - {v}
    {
      var largest := MaxWithout(v);
      var min := SaturatingSub(if largest.Some? then largest.value else 0, MAX_SPREAD);
      var maxDecrease := RelativeLimit(MAX_REL_DECREASE, MAX_DECREASE);
      if maxDecrease.None? { return Err(Panicked); }
      if request.Some? {
        if v !in stakes { return Err(NotBonded); }
        var stake, amount := stakes[v], request.value;
        if stake > amount {
          if stake - amount < min { return Err(SpreadTooHigh); }
          if amount > maxDecrease.value { return Err(UnbondTooLarge); }
          stakes := stakes[v := stake - amount];
          return Ok(amount);
        }
      }
      if |stakes| == 1 { return Err(CannotUnbondLastValidator); }
      if v !in stakes { return Err(NotBonded); }
      var stake := stakes[v];
      stakes := stakes - {v};
      if request.Some? && request.value > stake { return Err(UnbondTooLarge); }
      if stake > SaturatingAdd(min, maxDecrease.value) && stake > maxDecrease.value { return Err(UnbondTooLarge); }
      r := Ok(stake);
    }

    /** Adds to the validator's stakes; false when the sum overflows and the call aborts. */
    method Bond(v: PublicKey, amount: Amount) returns (ok: bool)
      modifies this
      ensures ok <==> Bonded(old(stakes), v, amount).Some?
      ensures stakes == if ok then Bonded(old(stakes), v, amount).value else old(stakes)
    {
      if v in stakes {
        if stakes[v] + amount >= BOUND { return false; }
        stakes := stakes[v := stakes[v] + amount];
      } else {
        stakes := stakes[v := amount];
      }
      ok := true;
    }

    method ValidateBonding(v: PublicKey, amount: Amount) returns (r: Result<(), PosError>)
      ensures r == Admission(stakes, v, amount)
    {
      var smallest := MinWithout(v);
      var largest := MaxWithout(v);
      var max := SaturatingAdd(if smallest.Some? then smallest.value else MAX, MAX_SPREAD);
      var min := SaturatingSub(if largest.Some? then largest.value else 0, MAX_SPREAD);
      if v in stakes && stakes[v] + amount >= BOUND { return Err(Panicked); }
      var stake := if v in stakes then stakes[v] + amount else amount;
      if stake > max || stake < min { return Err(SpreadTooHigh); }
      var maxIncrease := RelativeLimit(MAX_REL_INCREASE, MAX_INCREASE);
      if maxIncrease.None? { return Err(Panicked); }
      if (stake == 0 && amount > SaturatingAdd(min, maxIncrease.value)) || (stake != 0 && amount > maxIncrease.value) {
        return Err(BondTooLarge);
      }
      r := Ok(());
    }
  }

  /** Saturating a factor does not hide the overflow of a product. */
  lemma SaturatedProduct(sum: nat, total: nat, rate: nat, bound: nat)
    requires rate >= 2 && bound >= 2 && total == (if sum < bound then sum else bound - 1)
    ensures total * rate < bound ==> total == sum
    ensures total * rate >= bound ==> sum * rate >= bound
  {
    MulMono(total, sum, rate);
    MulMono(2, rate, total);
  }

  lemma QuotientAtMost(x: nat, d: nat)
    requires d > 0
    ensures 0 <= x / d <= x
  {
    MulMono(1, d, x / d);
  }

  // ----- properties -----

  ghost predicate AllPositive(m: StakeMap) {
    forall v :: v in m ==> m[v] > 0
  }

  /** A successful unbonding is one of exactly two requests, within nine tenths of a total that does not overflow. */
  lemma PayoutIff(m: StakeMap, v: PublicKey, request: Option<Amount>)
    ensures Payout(m, v, request).Ok? <==>
      && v in m && Sum(m) * MAX_REL_DECREASE < BOUND
      && (|| (request.Some? && request.value < m[v] && 10 * request.value <= 9 * Sum(m))
          || ((request.None? || request.value == m[v]) && |m| != 1 && 10 * m[v] <= 9 * Sum(m)))
  {
  }

  /** It removes exactly its payout from one validator, pays at most nine tenths, and never empties the table. */
  lemma UnbondKeeps(m: StakeMap, v: PublicKey, request: Option<Amount>)
    requires Payout(m, v, request).Ok?
    ensures v in m && Payout(m, v, request).value <= m[v]
    ensures var p := Payout(m, v, request).value;
      var m' := Unbonded(m, v, p);
      && Sum(m') == Sum(m) - p
      && 10 * p <= 9 * Sum(m)
      && m' != map[]
      && m' - {v} == m - {v}
      && (AllPositive(m) ==> AllPositive(m'))
  {
    var p := Payout(m, v, request).value;
    UnbondedSum(m, v, p);
    if p == m[v] {
      NotAlone(m, v);
    }
  }

  lemma UnbondedSum(m: StakeMap, v: PublicKey, p: Amount)
    requires v in m && p <= m[v]
    ensures Sum(Unbonded(m, v, p)) == Sum(m) - p && Unbonded(m, v, p) - {v} == m - {v}
  {
    if p < m[v] {
      SumInsert(m, v, m[v] - p);
      assert m[v := m[v] - p] - {v} == m - {v};
    } else {
      SumWithout(m, v);
      assert m - {v} - {v} == m - {v};
    }
  }

  lemma NotAlone(m: StakeMap, v: PublicKey)
    requires v in m && |m| != 1
    ensures m - {v} != map[]
  {
    assert |m| == |m.Keys| && |m.Keys - {v}| == |m.Keys| - 1;
    assert (m - {v}).Keys == m.Keys - {v};
  }

  /** The table after a list of unbonding requests, the refused ones skipped; and how many succeeded. */
  ghost function AfterUnbonds(m: StakeMap, requests: seq<(PublicKey, Option<Amount>)>): (StakeMap, nat)
    decreases |requests|
  {
    if requests == [] then (m, 0)
    else
      var (v, request) := requests[0];
      match Payout(m, v, request)
      case Err(_) => AfterUnbonds(m, requests[1..])
      case Ok(p) =>
        UnbondKeeps(m, v, request);
        var (m', k) := AfterUnbonds(Unbonded(m, v, p), requests[1..]);
        (m', k + 1)
  }

  /** After k successful unbondings at least a 10^k-th of the stakes is left, and never nothing. */
  lemma {:induction false} StakesSurviveUnbonding(m: StakeMap, requests: seq<(PublicKey, Option<Amount>)>)
    requires m != map[] && AllPositive(m)
    ensures var (m', k) := AfterUnbonds(m, requests);
      && Sum(m') * Pow(10, k) >= Sum(m)
      && m' != map[] && AllPositive(m') && Sum(m') > 0
    decreases |requests|
  {
    if requests == [] {
      SumPositive(m);
    } else {
      var (v, request) := requests[0];
      if Payout(m, v, request).Ok? {
        var p := Payout(m, v, request).value;
        UnbondKeeps(m, v, request);
        StakesSurviveUnbonding(Unbonded(m, v, p), requests[1..]);
        var (m', k) := AfterUnbonds(Unbonded(m, v, p), requests[1..]);
        TenthLeft(Sum(m), p, Sum(m'), Pow(10, k));
      } else {
        StakesSurviveUnbonding(m, requests[1..]);
      }
    }
  }

  lemma TenthLeft(total: nat, p: nat, left: nat, pow: nat)
    requires p <= total && 10 * p <= 9 * total && left * pow >= total - p
    ensures left * (10 * pow) >= total
  {
    assert left * (10 * pow) == 10 * (left * pow);
  }

  /** A bond is admitted up to a thousand times the total, if nothing overflows; with no stakes nobody gets in. */
  lemma AdmissionIff(m: StakeMap, v: PublicKey, amount: Amount)
    ensures Admission(m, v, amount).Ok? <==>
      amount <= 1000 * Sum(m) && Sum(m) * MAX_REL_INCREASE < BOUND && (v in m ==> m[v] + amount < BOUND)
  {
  }

  lemma BondedAdds(m: StakeMap, v: PublicKey, amount: Amount)
    requires Bonded(m, v, amount).Some?
    ensures Sum(Bonded(m, v, amount).value) == Sum(m) + amount
  {
    SumInsert(m, v, if v in m then m[v] + amount else amount);
  }
}
