/** The integer types of stored values: ranges, wrapping, casts, and their bytes. */
module Ints {
  import opened Arith
  import opened Outcomes
  import opened Bytesrepr
  import opened CLTypes
  import Uint

  /** An integer type: its width in bytes and whether it is signed. There is none between four and eight bytes. */
  datatype RawIntType = RawIntType(width: nat, signed: bool) {
    /** The wide unsigned types, encoded with a length prefix. */
    predicate IsBig() { width >= 16 }
  }

  type IntType = t: RawIntType | 0 < t.width < 256 && !(4 < t.width < 8) && (t.IsBig() ==> !t.signed)
    witness RawIntType(1, false)

  const INT32: IntType := RawIntType(4, true)
  const INT64: IntType := RawIntType(8, true)
  const UINT8: IntType := RawIntType(1, false)
  const UINT32: IntType := RawIntType(4, false)
  const UINT64: IntType := RawIntType(8, false)
  const UINT128: IntType := RawIntType(16, false)
  const UINT256: IntType := RawIntType(32, false)
  const UINT512: IntType := RawIntType(WIDEST, false)

  /** 64 bytes, named through its bounds: written out, the solver would compute 2^512. */
  type Widest = n: nat | 63 < n < 65 witness 64
  const WIDEST: Widest

  /** The integer type a type description names, if it names one. */
  function AsIntType(t: CLType): Option<IntType> {
    match t
    case I32 => Some(INT32)
    case I64 => Some(INT64)
    case U8 => Some(UINT8)
    case U32 => Some(UINT32)
    case U64 => Some(UINT64)
    case U128 => Some(UINT128)
    case U256 => Some(UINT256)
    case U512 => Some(UINT512)
    case _ => None
  }

  /** The number of values of the type. */
  function Size(t: IntType): (m: int)
    ensures m >= 256 && m % 2 == 0
  {
    Bytesrepr.Pow256();
    PowMono(256, 1, t.width);
    EvenPower(t.width);
    Pow(256, t.width)
  }

  lemma EvenPower(w: nat)
    requires w > 0
    ensures Pow(256, w) % 2 == 0
  {
    assert Pow(256, w) == 2 * (128 * Pow(256, w - 1));
  }

  predicate InRange(t: IntType, v: int)
  {
    if t.signed then -Size(t) <= 2 * v < Size(t) else 0 <= v < Size(t)
  }

  /** The value of the type congruent to v: what wrapping arithmetic and `as` casts give. */
  function Wrap(t: IntType, v: int): (r: int)
    ensures InRange(t, r)
  {
    var m := v % Size(t);
    if t.signed && 2 * m >= Size(t) then m - Size(t) else m
  }

  lemma WrapCongruent(t: IntType, v: int)
    ensures Congruent(Wrap(t, v), v, Size(t))
  {
    var m := Size(t);
    ModIdem(v, m);
    ModShift(v % m, -1, m);
  }

  lemma RangeUnique(t: IntType, x: int, y: int)
    requires InRange(t, x) && InRange(t, y) && Congruent(x, y, Size(t))
    ensures x == y
  {
    var k := CongruentWitness(x, y, Size(t));
    if k >= 1 {
      MulMono(1, k, Size(t));
    } else if k <= -1 {
      MulMono(k, -1, Size(t));
    }
  }

  /** Two numbers wrap to the same value exactly when they are congruent. */
  lemma WrapEqual(t: IntType, x: int, y: int)
    ensures Wrap(t, x) == Wrap(t, y) <==> Congruent(x, y, Size(t))
  {
    WrapCongruent(t, x);
    WrapCongruent(t, y);
  }

  lemma WrapInRange(t: IntType, x: int)
    requires InRange(t, x)
    ensures Wrap(t, x) == x
  {
    WrapCongruent(t, x);
    RangeUnique(t, Wrap(t, x), x);
  }

  /** Wrapping after each addition or once at the end gives the same value. */
  lemma WrapTwice(t: IntType, x: int, a: int, b: int)
    ensures Wrap(t, Wrap(t, x + Wrap(t, a)) + Wrap(t, b)) == Wrap(t, x + (a + b))
  {
    var m := Size(t);
    WrapCongruent(t, a);
    WrapCongruent(t, b);
    CongruentAdd(x, x, Wrap(t, a), a, m);
    WrapCongruent(t, x + Wrap(t, a));
    CongruentAdd(Wrap(t, x + Wrap(t, a)), x + a, Wrap(t, b), b, m);
    WrapEqual(t, Wrap(t, x + Wrap(t, a)) + Wrap(t, b), x + (a + b));
  }

  lemma WrapOnce(t: IntType, x: int, c: int)
    ensures Wrap(t, x + Wrap(t, c)) == Wrap(t, x + c)
  {
    WrapCongruent(t, c);
    CongruentAdd(x, x, Wrap(t, c), c, Size(t));
    WrapEqual(t, x + Wrap(t, c), x + c);
  }

  // ----- bytes -----

  function EncodeInt(t: IntType, v: int): (bytes: seq<u8>)
    requires InRange(t, v)
  {
    if t.IsBig() then Uint.ToBytes(v, t.width) else ToLe(v % Size(t), t.width)
  }

  function DecodeInt(t: IntType, bytes: seq<u8>): (r: Decoded<int>)
  {
    if t.IsBig() then
      var (v, rem) :- Uint.FromBytes(t.width, bytes);
      Ok((v, rem))
    else
      var (v, rem) :- DecodeUnsigned(t.width, bytes);
      Ok((if t.signed && 2 * v >= Size(t) then v - Size(t) else v, rem))
  }

  /** Reading an integer out of a whole buffer. */
  function IntoInt(t: IntType, bytes: seq<u8>): (r: Result<int, Error>)
  {
    var (v, remainder) :- DecodeInt(t, bytes);
    if remainder == [] then Ok(v) else Err(LeftOverBytes)
  }

  /** Signed and unsigned integers of every width are read back from their own bytes. */
  lemma IntRoundTrip(t: IntType, v: int, rest: seq<u8>)
    requires InRange(t, v)
    ensures DecodeInt(t, EncodeInt(t, v) + rest) == Ok((v, rest))
  {
    if t.IsBig() {
      Uint.RoundTrip(v, t.width, rest);
    } else {
      UnsignedRoundTrip(t.width, v % Size(t), rest);
      ModSmall(v % Size(t), Size(t));
      WrapInRange(t, v);
    }
  }

  lemma IntoIntInverts(t: IntType, v: int)
    requires InRange(t, v)
    ensures IntoInt(t, EncodeInt(t, v)) == Ok(v)
  {
    IntRoundTrip(t, v, []);
    assert EncodeInt(t, v) + [] == EncodeInt(t, v);
  }

  lemma DecodeInRange(t: IntType, bytes: seq<u8>)
    requires DecodeInt(t, bytes).Ok?
    ensures InRange(t, DecodeInt(t, bytes).value.0)
  {
    if t.IsBig() {
      Uint.Reencodes(t.width, bytes);
    } else {
      UnsignedReencodes(t.width, bytes);
    }
  }

  lemma EncodeInjective(t: IntType, x: int, y: int)
    requires InRange(t, x) && InRange(t, y) && EncodeInt(t, x) == EncodeInt(t, y)
    ensures x == y
  {
    IntoIntInverts(t, x);
    IntoIntInverts(t, y);
  }

  /** Casting a negative number to an unsigned type: the two's complement at that width. */
  lemma SignExtension(t: IntType, x: int)
    requires !t.signed && -Size(t) <= x < Size(t)
    ensures Wrap(t, x) == if x >= 0 then x else Size(t) + x
  {
    if x >= 0 {
      ModSmall(x, Size(t));
    } else {
      DivModUnique(x, Size(t), -1, Size(t) + x);
    }
  }
}
