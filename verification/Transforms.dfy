/** Transforms of stored values: applying one, and combining two into one. */
module Transforms {
  import opened Arith
  import opened Outcomes
  import Bytesrepr
  import opened CLTypes
  import opened Ints
  import Keys

  /** Names are UTF-8 byte strings. */
  type NamedKeys = map<seq<Bytesrepr.u8>, Keys.Key>

  /** An account or a contract: its named keys, and the rest, which no transform looks into. */
  datatype Entity = Entity(namedKeys: NamedKeys, rest: seq<Bytesrepr.u8>)

  datatype StoredValue = Plain(value: CLValue) | Account(account: Entity) | Contract(contract: Entity)

  datatype Error = Serialization(error: Bytesrepr.Error) | TypeMismatch

  datatype RawTransform =
    | Identity
    | Write(written: StoredValue)
    | AddNum(kind: IntType, amount: int)  // AddInt32, AddUInt64, AddUInt128, AddUInt256, AddUInt512
    | AddKeys(keys: NamedKeys)
    | Failure(error: Error)

  /** The integer types a transform can carry an amount of. */
  predicate IsAddKind(t: IntType) {
    t == INT32 || t == UINT64 || t.IsBig()
  }

  type Transform = t: RawTransform | t.AddNum? ==> IsAddKind(t.kind) && InRange(t.kind, t.amount) witness Identity

  // ----- applying -----

  /** The type of a stored integer. */
  function StoredIntType(v: StoredValue): Option<IntType> {
    if v.Plain? then AsIntType(v.value.clType) else None
  }

  /** The stored form of an integer x of type t, described as d. */
  function IntValue(d: CLType, t: IntType, x: int): (v: StoredValue)
    requires InRange(t, x)
  {
    Plain(CLValue(d, EncodeInt(t, x)))
  }

  /** Wrapping addition at the width of the stored integer. */
  function WrappingAddition(v: StoredValue, amount: int): Result<StoredValue, Error> {
    match StoredIntType(v)
    case None => Err(TypeMismatch)
    case Some(t) =>
      match IntoInt(t, v.value.bytes)
      case Err(e) => Err(Serialization(e))
      case Ok(x) => Ok(IntValue(v.value.clType, t, Wrap(t, x + Wrap(t, amount))))
  }

  function Apply(t: Transform, v: StoredValue): Result<StoredValue, Error> {
    match t
    case Identity => Ok(v)
    case Write(w) => Ok(w)
    case AddNum(_, amount) => WrappingAddition(v, amount)
    case AddKeys(keys) =>
      (match v
       case Contract(c) => Ok(Contract(c.(namedKeys := c.namedKeys + keys)))
       case Account(a) => Ok(Account(a.(namedKeys := a.namedKeys + keys)))
       case Plain(_) => Err(TypeMismatch))
    case Failure(e) => Err(e)
  }

  // ----- combining -----

  /** The variant that adding a second amount to a first ends in; wide unsigned variants do not mix. */
  function CombinedKind(a: IntType, b: IntType): Option<IntType>
    requires IsAddKind(a) && IsAddKind(b)
  {
    if !a.IsBig() then Some(b)
    else if !b.IsBig() || a == b then Some(a)
    else None
  }

  function Combine(a: Transform, b: Transform): Transform {
    if b.Identity? then a
    else if a.Identity? then b
    else if a.Failure? then a
    else if b.Failure? then b
    else if b.Write? then b
    else if a.Write? then
      match Apply(b, a.written)
      case Err(e) => Failure(e)
      case Ok(v) => Write(v)
    else if a.AddNum? && b.AddNum? then
      match CombinedKind(a.kind, b.kind)
      case None => Failure(TypeMismatch)
      case Some(k) => AddNum(k, Wrap(k, Wrap(k, a.amount) + Wrap(k, b.amount)))
    else if a.AddKeys? && b.AddKeys? then AddKeys(a.keys + b.keys)
    else Failure(TypeMismatch)
  }

  // ----- when combining loses nothing -----

  /**
    Two amounts may be merged before they meet an integer of type t: the variant they merge into is at least
    as wide as t, or their exact sum fits it. The one other case is a 64-bit integer and an unsigned 64-bit
    amount followed by a signed 32-bit one, where a sum within 2^31 of 2^64 wraps twice to the right value.
   */
  predicate MergeExact(t: IntType, a: IntType, x: int, b: IntType, y: int)
    requires IsAddKind(a) && IsAddKind(b)
  {
    match CombinedKind(a, b)
    case None => false
    case Some(k) =>
      || t.width <= k.width
      || InRange(k, x + y)
      || (k == INT32 && t.width == 8 && x + y >= 0x1_0000_0000_0000_0000 - 0x8000_0000)
  }

  /** Merging is only ever in question for two numeric additions to a stored integer. */
  predicate Mergeable(a: Transform, b: Transform, v: StoredValue) {
    a.AddNum? && b.AddNum? && StoredIntType(v).Some? ==>
      MergeExact(StoredIntType(v).value, a.kind, a.amount, b.kind, b.amount)
  }

  lemma CastSum(k: IntType, x: int, y: int)
    ensures Wrap(k, Wrap(k, x) + Wrap(k, y)) == Wrap(k, x + y)
  {
    WrapTwice(k, 0, x, y);
    WrapOnce(k, 0, x);
    WrapInRange(k, Wrap(k, x));
  }

  /** A wider type's congruences hold at every narrower width. */
  lemma NarrowerCongruence(t: IntType, k: IntType, x: int, y: int)
    requires t.width <= k.width && Congruent(x, y, Size(k))
    ensures Congruent(x, y, Size(t))
  {
    PowAdd(256, k.width - t.width, t.width);
    CongruentDivisor(x, y, Pow(256, k.width - t.width), Size(t));
  }

  lemma CloseNotCongruent(x: int, y: int, m: int)
    requires m > 0 && x != y && -m < x - y < m
    ensures !Congruent(x, y, m)
  {
    if Congruent(x, y, m) {
      var k := CongruentWitness(x, y, m);
      if k >= 1 { MulMono(1, k, m); } else if k <= -1 { MulMono(k, -1, m); }
    }
  }

  lemma SmallSizes()
    ensures Size(INT32) == 0x1_0000_0000 && Size(UINT64) == Size(INT64) == 0x1_0000_0000_0000_0000
  {
    Bytesrepr.Pow256();
  }

  /** A type wider than k has at least four times as many values. */
  lemma WiderBy4(t: IntType, k: IntType)
    requires IsAddKind(k) && t.width > k.width
    ensures Size(t) >= 4 * Size(k) && (k == INT32 && t.width != 8 ==> Size(t) >= 4 * Size(UINT64))
  {
    PowMono(256, k.width + 1, t.width);
    if k == INT32 && t.width != 8 { PowMono(256, UINT64.width + 1, t.width); }
  }

  lemma AmountBounds(a: IntType, x: int, k: IntType)
    requires IsAddKind(a) && IsAddKind(k) && a.width <= k.width && InRange(a, x)
    ensures -Size(k) <= 2 * x < 2 * Size(k)
  {
    PowMono(256, a.width, k.width);
  }

  lemma CombinedWidth(a: IntType, b: IntType, k: IntType)
    requires IsAddKind(a) && IsAddKind(b) && CombinedKind(a, b) == Some(k) && !(a == UINT64 && b == INT32)
    ensures IsAddKind(k) && a.width <= k.width && b.width <= k.width
  {
  }

  /** A sum beyond the merged variant by less than twice its size never comes out right at a wider type. */
  lemma NarrowMergeLoses(t: IntType, k: IntType, s: int, c: int)
    requires IsAddKind(k) && t.width > k.width
    requires InRange(k, c) && s != c && -2 * Size(k) <= 2 * s < 4 * Size(k)
    ensures !Congruent(s, c, Size(t))
  {
    WiderBy4(t, k);
    CloseNotCongruent(s, c, Size(t));
  }

  /** The merged amount acts on t like the two amounts in turn exactly under MergeExact. */
  lemma MergeExactIff(t: IntType, a: IntType, x: int, b: IntType, y: int, k: IntType)
    requires IsAddKind(a) && IsAddKind(b) && InRange(a, x) && InRange(b, y)
    requires CombinedKind(a, b) == Some(k)
    ensures Congruent(x + y, Wrap(k, x + y), Size(t)) <==> MergeExact(t, a, x, b, y)
  {
    WrapCongruent(k, x + y);
    if t.width <= k.width {
      NarrowerCongruence(t, k, x + y, Wrap(k, x + y));
    } else if InRange(k, x + y) {
      WrapInRange(k, x + y);
    } else if a == UINT64 && b == INT32 {
      MixedMerge(t, x, y, Wrap(k, x + y));
    } else {
      PlainMerge(t, a, x, b, y, k);
    }
  }

  lemma PlainMerge(t: IntType, a: IntType, x: int, b: IntType, y: int, k: IntType)
    requires IsAddKind(a) && IsAddKind(b) && InRange(a, x) && InRange(b, y)
    requires CombinedKind(a, b) == Some(k) && !(a == UINT64 && b == INT32)
    requires t.width > k.width && !InRange(k, x + y)
    ensures !Congruent(x + y, Wrap(k, x + y), Size(t)) && !MergeExact(t, a, x, b, y)
  {
    CombinedWidth(a, b, k);
    AmountBounds(a, x, k);
    AmountBounds(b, y, k);
    NarrowMergeLoses(t, k, x + y, Wrap(k, x + y));
    NotMixed(t, a, x, b, y, k);
  }

  lemma NotMixed(t: IntType, a: IntType, x: int, b: IntType, y: int, k: IntType)
    requires IsAddKind(a) && IsAddKind(b) && InRange(a, x) && InRange(b, y)
    requires CombinedKind(a, b) == Some(k) && !(a == UINT64 && b == INT32)
    requires t.width > k.width && !InRange(k, x + y)
    ensures !MergeExact(t, a, x, b, y)
  {
    SmallSizes();
  }

  lemma MixedMerge(t: IntType, x: int, y: int, c: int)
    requires t.width > 4 && InRange(UINT64, x) && InRange(INT32, y) && !InRange(INT32, x + y)
    requires c == Wrap(INT32, x + y) && Congruent(x + y, c, Size(INT32))
    ensures Congruent(x + y, c, Size(t)) <==> MergeExact(t, UINT64, x, INT32, y)
  {
    SmallSizes();
    if t.width == 8 {
      TwiceWrapped(t, x + y, c);
    } else {
      WiderBy4(t, INT32);
      CloseNotCongruent(x + y, c, Size(t));
    }
  }

  lemma TwiceWrapped(t: IntType, s: int, c: int)
    requires t.width == 8 && InRange(INT32, c) && !InRange(INT32, s)
    requires -Size(INT32) <= 2 * s < 2 * Size(UINT64) + Size(INT32)
    requires Congruent(s, c, Size(INT32)) && c == Wrap(INT32, s)
    ensures Congruent(s, c, Size(t)) <==> s >= 0x1_0000_0000_0000_0000 - 0x8000_0000
  {
    SmallSizes();
    var m := Size(t);
    assert m == Size(UINT64);
    if s >= 0x1_0000_0000_0000_0000 - 0x8000_0000 {
      assert InRange(INT32, s - m);
      assert s - m == s + (-0x1_0000_0000) * Size(INT32);
      CongruentFromMultiple(s - m, s, -0x1_0000_0000, Size(INT32));
      RangeUnique(INT32, s - m, c);
      CongruentFromMultiple(s, c, 1, m);
    } else {
      CloseNotCongruent(s, c, m);
    }
  }

  /**
    Combining refines doing one after the other: when both transforms apply in turn, the combined one gives
    the same value if and only if no amount was cut on the way.
   */
  lemma CombineRefinesSequence(a: Transform, b: Transform, v: StoredValue)
    requires Apply(a, v).Ok? && Apply(b, Apply(a, v).value).Ok?
    ensures Apply(Combine(a, b), v) == Apply(b, Apply(a, v).value) <==> Mergeable(a, b, v)
  {
    if a.AddNum? && b.AddNum? {
      var t := StoredIntType(v).value;
      NumbersMerge(a, b, v, v.value.clType, t, IntoInt(t, v.value.bytes).value);
    } else if a.AddKeys? && b.AddKeys? {
      KeysMerge(a.keys, b.keys, v);
    }
  }

  lemma KeysMerge(ks: NamedKeys, ls: NamedKeys, v: StoredValue)
    ensures !v.Plain? ==> Apply(AddKeys(ks + ls), v) == Apply(AddKeys(ls), Apply(AddKeys(ks), v).value)
  {
    if !v.Plain? {
      var m := (if v.Account? then v.account else v.contract).namedKeys;
      assert (m + ks) + ls == m + (ks + ls);
    }
  }

  /** v holds the integer x of type t, described as d. */
  ghost predicate Holds(v: StoredValue, d: CLType, t: IntType, x: int) {
    v.Plain? && v.value.clType == d && AsIntType(d) == Some(t) && IntoInt(t, v.value.bytes) == Ok(x)
  }

  lemma IntValueHolds(d: CLType, t: IntType, x: int)
    requires AsIntType(d) == Some(t) && InRange(t, x)
    ensures Holds(IntValue(d, t, x), d, t, x)
  {
    IntoIntInverts(t, x);
  }

  lemma AddOnce(v: StoredValue, d: CLType, t: IntType, x: int, c: int)
    requires Holds(v, d, t, x)
    ensures WrappingAddition(v, c) == Ok(IntValue(d, t, Wrap(t, x + c)))
  {
    WrapOnce(t, x, c);
  }

  /** An addition that stays in range does not wrap. */
  lemma AddWithin(v: StoredValue, d: CLType, t: IntType, x: int, c: int)
    requires Holds(v, d, t, x) && IsAddKind(t) && InRange(t, c) && InRange(t, x + c)
    ensures Apply(AddNum(t, c), v) == Ok(IntValue(d, t, x + c))
  {
    AddOnce(v, d, t, x, c);
    WrapInRange(t, x + c);
  }

  lemma AddHolds(v: StoredValue, d: CLType, t: IntType, x: int, c: int) returns (v': StoredValue)
    requires Holds(v, d, t, x)
    ensures WrappingAddition(v, c) == Ok(v') && Holds(v', d, t, Wrap(t, x + c))
  {
    AddOnce(v, d, t, x, c);
    v' := IntValue(d, t, Wrap(t, x + c));
    IntValueHolds(d, t, Wrap(t, x + c));
  }

  /** Wrapping on the way makes no difference. */
  lemma WrapOnTheWay(t: IntType, x: int, a: int, b: int)
    ensures Wrap(t, Wrap(t, x + a) + b) == Wrap(t, x + (a + b))
  {
    WrapCongruent(t, x + a);
    CongruentAdd(Wrap(t, x + a), x + a, b, b, Size(t));
    WrapEqual(t, Wrap(t, x + a) + b, x + (a + b));
  }

  /** Two additions in turn store the exact sum, wrapped once. */
  lemma AddTwice(v: StoredValue, d: CLType, t: IntType, x: int, a: int, b: int)
    requires Holds(v, d, t, x)
    ensures WrappingAddition(v, a).Ok?
    ensures WrappingAddition(WrappingAddition(v, a).value, b) == Ok(IntValue(d, t, Wrap(t, x + (a + b))))
  {
    var v' := AddHolds(v, d, t, x, a);
    AddOnce(v', d, t, Wrap(t, x + a), b);
    WrapOnTheWay(t, x, a, b);
  }

  lemma SameBytes(t: IntType, x: int, y: int)
    ensures EncodeInt(t, Wrap(t, x)) == EncodeInt(t, Wrap(t, y)) <==> Congruent(x, y, Size(t))
  {
    WrapEqual(t, x, y);
    if EncodeInt(t, Wrap(t, x)) == EncodeInt(t, Wrap(t, y)) {
      EncodeInjective(t, Wrap(t, x), Wrap(t, y));
    }
  }

  /** The bytes stored after two amounts in turn and after their merged amount agree exactly under MergeExact. */
  lemma StoredSumsAgree(a: Transform, b: Transform, t: IntType, x: int, k: IntType,
                        r: seq<Bytesrepr.u8>, m: seq<Bytesrepr.u8>)
    requires a.AddNum? && b.AddNum? && CombinedKind(a.kind, b.kind) == Some(k)
    requires r == EncodeInt(t, Wrap(t, x + (a.amount + b.amount)))
    requires m == EncodeInt(t, Wrap(t, x + Wrap(k, a.amount + b.amount)))
    ensures r == m <==> MergeExact(t, a.kind, a.amount, b.kind, b.amount)
  {
    SumsAgree(t, x, a.amount + b.amount, k, r, m);
    MergeExactIff(t, a.kind, a.amount, b.kind, b.amount, k);
  }

  lemma SumsAgree(t: IntType, x: int, s: int, k: IntType, r: seq<Bytesrepr.u8>, m: seq<Bytesrepr.u8>)
    requires r == EncodeInt(t, Wrap(t, x + s)) && m == EncodeInt(t, Wrap(t, x + Wrap(k, s)))
    ensures r == m <==> Congruent(s, Wrap(k, s), Size(t))
  {
    SameBytes(t, x + s, x + Wrap(k, s));
    ShiftCongruence(x, s, Wrap(k, s), Size(t));
  }

  lemma CombinedApplies(a: Transform, b: Transform, v: StoredValue, d: CLType, t: IntType, x: int, k: IntType)
    returns (m: seq<Bytesrepr.u8>)
    requires a.AddNum? && b.AddNum? && Holds(v, d, t, x) && CombinedKind(a.kind, b.kind) == Some(k)
    ensures Apply(Combine(a, b), v) == Ok(Plain(CLValue(d, m)))
    ensures m == EncodeInt(t, Wrap(t, x + Wrap(k, a.amount + b.amount)))
  {
    CastSum(k, a.amount, b.amount);
    AddOnce(v, d, t, x, Wrap(k, a.amount + b.amount));
    m := EncodeInt(t, Wrap(t, x + Wrap(k, a.amount + b.amount)));
  }

  lemma ApplyTwice(a: Transform, b: Transform, v: StoredValue, d: CLType, t: IntType, x: int)
    returns (r: seq<Bytesrepr.u8>)
    requires a.AddNum? && b.AddNum? && Holds(v, d, t, x)
    ensures Apply(a, v).Ok? && Apply(b, Apply(a, v).value) == Ok(Plain(CLValue(d, r)))
    ensures r == EncodeInt(t, Wrap(t, x + (a.amount + b.amount)))
  {
    AddTwice(v, d, t, x, a.amount, b.amount);
    r := EncodeInt(t, Wrap(t, x + (a.amount + b.amount)));
  }

  /** The bytes that two amounts in turn leave, and those that their merged amount leaves. */
  lemma BothWays(a: Transform, b: Transform, v: StoredValue, d: CLType, t: IntType, x: int, k: IntType)
    returns (r: seq<Bytesrepr.u8>, m: seq<Bytesrepr.u8>)
    requires a.AddNum? && b.AddNum? && Holds(v, d, t, x) && CombinedKind(a.kind, b.kind) == Some(k)
    ensures Apply(a, v).Ok? && Apply(b, Apply(a, v).value) == Ok(Plain(CLValue(d, r)))
    ensures Apply(Combine(a, b), v) == Ok(Plain(CLValue(d, m)))
    ensures r == m <==> MergeExact(t, a.kind, a.amount, b.kind, b.amount)
  {
    r := ApplyTwice(a, b, v, d, t, x);
    m := CombinedApplies(a, b, v, d, t, x, k);
    StoredSumsAgree(a, b, t, x, k, r, m);
  }

  lemma NumbersMerge(a: Transform, b: Transform, v: StoredValue, d: CLType, t: IntType, x: int)
    requires a.AddNum? && b.AddNum? && Holds(v, d, t, x)
    ensures Apply(a, v).Ok? && Apply(b, Apply(a, v).value).Ok?
    ensures Apply(Combine(a, b), v) == Apply(b, Apply(a, v).value)
            <==> MergeExact(t, a.kind, a.amount, b.kind, b.amount)
  {
    match CombinedKind(a.kind, b.kind)
    case None =>
      Unmerged(a, b, v);
      var _ := ApplyTwice(a, b, v, d, t, x);
    case Some(k) =>
      var _, _ := BothWays(a, b, v, d, t, x, k);
  }

  lemma Unmerged(a: Transform, b: Transform, v: StoredValue)
    requires a.AddNum? && b.AddNum? && CombinedKind(a.kind, b.kind).None?
    ensures Apply(Combine(a, b), v).Err?
  {
  }

  lemma ShiftCongruence(x: int, s: int, c: int, m: int)
    requires m > 0
    ensures Congruent(x + s, x + c, m) <==> Congruent(s, c, m)
  {
    if Congruent(s, c, m) { CongruentAdd(x, x, s, c, m); }
    if Congruent(x + s, x + c, m) { CongruentAdd(-x, -x, x + s, x + c, m); }
  }

  /** Merging is not always exact: a 64-bit amount cut to 32 bits changes a stored 64-bit integer. */
  lemma MergeCanLose() returns (a: Transform, b: Transform, v: StoredValue)
    ensures Apply(a, v).Ok? && Apply(b, Apply(a, v).value).Ok? && !Combine(a, b).Failure?
    ensures Apply(Combine(a, b), v) != Apply(b, Apply(a, v).value)
  {
    SmallSizes();
    a, b, v := AddNum(UINT64, 0x1_0000_0000), AddNum(INT32, 1), IntValue(U64, UINT64, 0);
    IntValueHolds(U64, UINT64, 0);
    NumbersMerge(a, b, v, U64, UINT64, 0);
  }

  /** Balances are 512-bit, and adding 512-bit amounts to them always merges. */
  lemma BalancesMerge(a: Transform, b: Transform, v: StoredValue)
    requires StoredIntType(v) == Some(UINT512)
    requires a.AddNum? && b.AddNum? ==> a.kind == UINT512 && b.kind == UINT512
    ensures Mergeable(a, b, v)
  {
  }
}
