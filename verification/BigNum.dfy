/** The 512-bit unsigned integer of the AssemblyScript contract library: sixteen 32-bit limbs, updated in place. */
module BigNum {
  import opened Arith
  import opened Digits
  import opened Limbs
  import opened LimbLoops
  import opened LimbText
  import opened Outcomes
  import Bytesrepr
  import Uint

  /** Sixteen limbs. Given by bounds, so that proofs treat the width as a symbol and never expand 2^512. */
  type LimbCount = n: nat | 15 < n < 17 witness 16
  const LIMBS: LimbCount

  /** 2^512. */
  ghost function Modulus(): (m: int)
    ensures m > 0
  {
    Pow(BASE, LIMBS)
  }

  datatype Pair<+A, +B> = Pair(first: A, second: B)

  class U512 {
    const pn: array<u32>

    ghost predicate Valid() {
      pn.Length == LIMBS
    }

    /** The number the limbs denote. */
    ghost function Val(): (v: int)
      reads pn
      ensures v >= 0
    {
      Value(pn[..], BASE)
    }

    lemma ValBound()
      requires Valid()
      ensures Val() < Modulus()
    {
      ValueBound(pn[..], BASE);
    }

    constructor ()
      ensures Valid() && fresh(pn) && Val() == 0
      ensures forall i :: 0 <= i < LIMBS ==> pn[i] == 0
    {
      pn := new u32[LIMBS](_ => 0);
      new;
      ValueZeros(pn[..], BASE);
    }

    /** this += other, modulo 2^512; other may be this. */
    method Add(other: U512) returns (r: U512)
      requires Valid() && other.Valid()
      modifies pn
      ensures r == this
      ensures Val() == (old(Val()) + old(other.Val())) % Modulus()
    {
      ghost var a, b := pn[..], other.pn[..];
      var carry := 0;
      var i := 0;
      while i < pn.Length
        invariant 0 <= i <= LIMBS && carry == AddCarry(a, b, i)
        invariant pn[..i] == AddDigits(a, b, i)
        invariant forall j :: i <= j < LIMBS ==> pn[j] == a[j] && other.pn[j] == b[j]
      {
        var n := carry + pn[i] + other.pn[i];
        ghost var done := pn[..i];
        pn[i] := n % BASE;
        assert pn[..i + 1] == done + [n % BASE];
        carry := n / BASE;
        i := i + 1;
      }
      assert pn[..i] == pn[..];
      AddValue(a, b, LIMBS);
      r := this;
    }

    /** ++this, modulo 2^512. */
    method Increment()
      requires Valid()
      modifies pn
      ensures Val() == (old(Val()) + 1) % Modulus()
    {
      ghost var p := pn[..];
      var i := 0;
      while i < pn.Length
        invariant 0 <= i <= LIMBS
        invariant forall j :: 0 <= j < i ==> p[j] == BASE - 1 && pn[j] == 0
        invariant forall j :: i <= j < LIMBS ==> pn[j] == p[j]
      {
        pn[i] := (pn[i] + 1) % BASE;
        if pn[i] != 0 {
          IncrementStops(p, pn[..], i);
          return;
        }
        i := i + 1;
      }
      IncrementWraps(p, pn[..]);
    }

    /** --this, modulo 2^512. */
    method Decrement()
      requires Valid()
      modifies pn
      ensures Val() == (old(Val()) - 1) % Modulus()
    {
      ghost var p := pn[..];
      var i := 0;
      while i < pn.Length
        invariant 0 <= i <= LIMBS
        invariant forall j :: 0 <= j < i ==> p[j] == 0 && pn[j] == BASE - 1
        invariant forall j :: i <= j < LIMBS ==> pn[j] == p[j]
      {
        pn[i] := if pn[i] == 0 then BASE - 1 else pn[i] - 1;
        if pn[i] != BASE - 1 {
          DecrementStops(p, pn[..], i);
          return;
        }
        i := i + 1;
      }
      DecrementWraps(p, pn[..]);
    }

    /** -this, the two's complement. */
    method Neg() returns (r: U512)
      requires Valid()
      ensures fresh(r) && fresh(r.pn) && r.Valid()
      ensures r.Val() == (-Val()) % Modulus()
    {
      r := new U512();
      var i := 0;
      while i < pn.Length
        invariant 0 <= i <= LIMBS
        invariant forall j :: 0 <= j < i ==> r.pn[j] == BASE - 1 - pn[j]
      {
        r.pn[i] := BASE - 1 - pn[i];
        i := i + 1;
      }
      ComplementValue(pn[..], r.pn[..]);
      r.Increment();
      ModShift(-Val(), 1, Modulus());
    }

    /** this -= other, modulo 2^512. */
    method Sub(other: U512) returns (r: U512)
      requires Valid() && other.Valid()
      modifies pn
      ensures r == this
      ensures Val() == (old(Val()) - old(other.Val())) % Modulus()
    {
      var m := other.Neg();
      ghost var a, b := Val(), other.Val();
      ModIdem(-b, Modulus());
      CongruentAdd(a, a, m.Val(), -b, Modulus());
      r := Add(m);
    }

    /** One pass of the nested multiplication loop: adds t * other into this from limb j up. */
    method AddRow(t: u32, other: U512, j: nat)
      requires Valid() && other.Valid() && other.pn != pn && j <= LIMBS
      modifies pn
      ensures pn[..] == RowDigits(old(pn[..]), t, other.pn[..], j, LIMBS - j)
    {
      ghost var o, b := pn[..], other.pn[..];
      var carry: u32 := 0;
      var i := 0;
      while i + j < pn.Length
        invariant 0 <= i && i + j <= LIMBS && carry == RowCarry(o, t, b, j, i)
        invariant pn[..i + j] == RowDigits(o, t, b, j, i)
        invariant forall m :: i + j <= m < LIMBS ==> pn[m] == o[m]
      {
        var n := Accumulate(carry, pn[i + j], t, other.pn[i]);
        ghost var done := pn[..i + j];
        pn[i + j] := n % BASE;
        assert pn[..i + j + 1] == done + [n % BASE];
        carry := n / BASE;
        i := i + 1;
      }
      assert pn[..i + j] == pn[..];
    }

    /** this * other, modulo 2^512. */
    method Mul(other: U512) returns (r: U512)
      requires Valid() && other.Valid()
      ensures fresh(r) && fresh(r.pn) && r.Valid()
      ensures r.Val() == (Val() * other.Val()) % Modulus()
    {
      r := new U512();
      ghost var a, b := pn[..], other.pn[..];
      var j := 0;
      while j < pn.Length
        invariant 0 <= j <= LIMBS
        invariant r.pn[..] == MulRows(a, b, j)
      {
        r.AddRow(pn[j], other, j);
        j := j + 1;
      }
      MulValue(a, b);
    }

    /** A copy sharing no storage. */
    method Clone() returns (r: U512)
      requires Valid()
      ensures fresh(r) && fresh(r.pn) && r.Valid() && r.pn[..] == pn[..]
    {
      r := new U512();
      for i := 0 to pn.Length
        invariant forall j :: 0 <= j < i ==> r.pn[j] == pn[j]
      {
        r.pn[i] := pn[i];
      }
    }

    /** The length of the number in bits. */
    method Bits() returns (b: nat)
      requires Valid()
      ensures IsBitLength(Val(), b)
    {
      var i := pn.Length - 1;
      while i >= 0
        invariant -1 <= i < LIMBS
        invariant forall j :: i < j < LIMBS ==> pn[j] == 0
      {
        if pn[i] > 0 {
          TopLimbBits(pn[..], i);
          return 32 * i + BitLen(pn[i]);
        }
        i := i - 1;
      }
      ValueZeros(pn[..], BASE);
      b := 0;
    }

    /** this << shift, modulo 2^512. */
    method Shl(shift: nat) returns (r: U512)
      requires Valid()
      ensures fresh(r) && fresh(r.pn) && r.Valid()
      ensures r.Val() == (Val() * Pow(2, shift)) % Modulus()
    {
      r := new U512();
      var k, s := shift / 32, shift % 32;
      for i := 0 to pn.Length
        invariant forall m :: 0 <= m < LIMBS ==> r.pn[m] == ShlPartial(pn[..], k, s, i, m)
      {
        ShlLimbInto(r, k, s, i);
      }
      ShlDone(pn[..], k, s, r.pn[..], shift);
    }

    /** Moves one limb into a left shift. */
    method ShlLimbInto(r: U512, k: nat, s: nat, i: nat)
      requires Valid() && r.Valid() && r.pn != pn && s < 32 && i < LIMBS
      requires forall m :: 0 <= m < LIMBS ==> r.pn[m] == ShlPartial(pn[..], k, s, i, m)
      modifies r.pn
      ensures forall m :: 0 <= m < LIMBS ==> r.pn[m] == ShlPartial(pn[..], k, s, i + 1, m)
    {
      ShlMove(pn[..], k, s, i);
      if i + k + 1 < pn.Length && s != 0 {
        r.pn[i + k + 1] := Or(r.pn[i + k + 1], Hi(pn[i], s));
      }
      if i + k < pn.Length {
        r.pn[i + k] := Or(r.pn[i + k], Lo(pn[i], s));
      }
    }

    /** this >> shift. */
    method Shr(shift: nat) returns (r: U512)
      requires Valid()
      ensures fresh(r) && fresh(r.pn) && r.Valid()
      ensures r.Val() == Val() / Pow(2, shift)
    {
      r := new U512();
      var k, s := shift / 32, shift % 32;
      for i := 0 to pn.Length
        invariant forall m :: 0 <= m < LIMBS ==> r.pn[m] == ShrPartial(pn[..], k, s, i, m)
      {
        ShrLimbInto(r, k, s, i);
      }
      ShrDone(pn[..], k, s, r.pn[..], shift);
    }

    /** Moves one limb into a right shift. */
    method ShrLimbInto(r: U512, k: nat, s: nat, i: nat)
      requires Valid() && r.Valid() && r.pn != pn && s < 32 && i < LIMBS
      requires forall m :: 0 <= m < LIMBS ==> r.pn[m] == ShrPartial(pn[..], k, s, i, m)
      modifies r.pn
      ensures forall m :: 0 <= m < LIMBS ==> r.pn[m] == ShrPartial(pn[..], k, s, i + 1, m)
    {
      ShrMove(pn[..], s, i);
      if i - k - 1 >= 0 && s != 0 {
        r.pn[i - k - 1] := Or(r.pn[i - k - 1], Lo(pn[i], 32 - s));
      }
      if i - k >= 0 {
        r.pn[i - k] := Or(r.pn[i - k], Arith.Shr(pn[i], s));
      }
    }

    /** -1, 0 or 1 as this is below, equal to or above other. */
    method Cmp(other: U512) returns (c: int)
      requires Valid() && other.Valid()
      ensures c == (if Val() < other.Val() then -1 else if Val() > other.Val() then 1 else 0)
    {
      ghost var p, q := pn[..], other.pn[..];
      var i := pn.Length - 1;
      while i >= 0
        invariant -1 <= i < LIMBS
        invariant forall j :: i < j < LIMBS ==> pn[j] == other.pn[j]
      {
        if pn[i] < other.pn[i] {
          HighLimbDecides(p, q, i);
          return -1;
        }
        if pn[i] > other.pn[i] {
          HighLimbDecides(q, p, i);
          return 1;
        }
        i := i - 1;
      }
      assert p == q;
      c := 0;
    }

    /** Sets bit t of a number whose bits up to t are clear. */
    method SetBitAt(t: nat)
      requires Valid() && t / 32 < LIMBS && LowClear(pn[..], t + 1)
      modifies pn
      ensures LowClear(pn[..], t) && Val() == old(Val()) + Pow(2, t)
    {
      ghost var p := pn[..];
      ghost var limb := SetBit(p, t);
      pn[t / 32] := Or(pn[t / 32], Pow(2, t % 32));
      assert pn[..] == p[t / 32 := limb];
    }

    /** One quotient bit: takes div off this and sets the bit of res, if div fits. */
    method TakeOff(div: U512, res: U512, shift: nat, ghost d: int)
      requires Valid() && div.Valid() && res.Valid() && pn != res.pn && pn != div.pn && res.pn != div.pn
      requires shift / 32 < LIMBS && div.Val() == d * Pow(2, shift) && Val() < d * Pow(2, shift + 1)
      requires LowClear(res.pn[..], shift + 1)
      modifies pn, res.pn
      ensures old(res.Val() * d + Val()) == res.Val() * d + Val()
      ensures Val() < d * Pow(2, shift) && LowClear(res.pn[..], shift)
    {
      var c := Cmp(div);
      ghost var a, b := Val(), res.Val();
      QuotientBit(b * d + a, d, a, b, shift);
      if c >= 0 {
        ValBound();
        ModSmall(a - div.Val(), Modulus());
        var _ := Sub(div);
        res.SetBitAt(shift);
      } else {
        ClearDown(res.pn[..], shift);
      }
    }

    /** The shift-subtract loop: takes d * 2^top, d * 2^(top-1), ..., d off this, collecting the quotient in res. */
    method SubtractDown(aligned: U512, res: U512, top: nat, ghost d: int)
      requires Valid() && aligned.Valid() && res.Valid() && pn != res.pn && pn != aligned.pn && res.pn != aligned.pn
      requires top / 32 < LIMBS && aligned.Val() == d * Pow(2, top) && Val() < d * Pow(2, top + 1)
      requires LowClear(res.pn[..], top + 1)
      modifies pn, res.pn
      ensures old(res.Val() * d + Val()) == res.Val() * d + Val()
      ensures Val() < d
    {
      var div, shift: int := aligned, top;
      ghost var n := res.Val() * d + Val();
      while shift >= 0
        invariant -1 <= shift <= top
        invariant div.Valid() && div.pn != pn && div.pn != res.pn
        invariant shift >= 0 ==> div.Val() == d * Pow(2, shift)
        invariant LowClear(res.pn[..], shift + 1)
        invariant n == res.Val() * d + Val() && Val() < d * Pow(2, shift + 1)
      {
        TakeOff(div, res, shift, d);
        div := div.Halve(shift, d);
        shift := shift - 1;
      }
    }

    /** The divisor for the next lower bit of the quotient. */
    method Halve(shift: nat, ghost d: int) returns (r: U512)
      requires Valid() && Val() == d * Pow(2, shift)
      ensures fresh(r) && fresh(r.pn) && r.Valid()
      ensures shift > 0 ==> r.Val() == d * Pow(2, shift - 1)
    {
      r := Shr(1);
      if shift > 0 { HalvedDivisor(d, shift, r.Val()); }
    }

    /** Divides this by div in place, leaving the remainder; returns the quotient. */
    method Reduce(div: U512, numBits: nat, divBits: nat) returns (res: U512)
      requires Valid() && div.Valid() && div.pn != pn
      requires IsBitLength(Val(), numBits) && IsBitLength(div.Val(), divBits) && 0 < divBits <= numBits
      modifies pn
      ensures fresh(res) && fresh(res.pn) && res.Valid()
      ensures old(Val()) == res.Val() * div.Val() + Val()
      ensures Val() < div.Val()
    {
      ghost var d := div.Val();
      res := new U512();
      var shift := numBits - divBits;
      ValBound();
      AlignedShift(Val(), d, numBits, divBits, LIMBS);
      var aligned := div.Shl(shift);
      ZeroIsClear(res.pn[..], shift + 1);
      ZeroTimes(res.Val(), d);
      SubtractDown(aligned, res, shift, d);
    }

    /** Quotient and remainder; None exactly for a zero divisor. Neither operand changes. */
    method DivMod(other: U512) returns (result: Option<Pair<U512, U512>>)
      requires Valid() && other.Valid()
      ensures result.None? <==> other.Val() == 0
      ensures result.Some? ==>
        var q, r := result.value.first, result.value.second;
        && fresh(q) && fresh(q.pn) && fresh(r) && fresh(r.pn) && q.Valid() && r.Valid()
        && Val() == q.Val() * other.Val() + r.Val()
        && r.Val() < other.Val()
    {
      var div := other.Clone();
      var num := Clone();
      var numBits := num.Bits();
      var divBits := div.Bits();
      if divBits == 0 {
        return None;
      }
      if divBits > numBits {
        FewerBits(Val(), other.Val(), numBits, divBits);
        var zero := new U512();
        ZeroTimes(zero.Val(), other.Val());
        return Some(Pair(zero, num));
      }
      var res := num.Reduce(div, numBits, divBits);
      result := Some(Pair(res, num));
    }

    // ----- bytes and text -----

    /** All the bytes of the number, least significant first. */
    method ToBytesLE() returns (bytes: seq<u8>)
      requires Valid()
      ensures bytes == Bytesrepr.ToLe(Val(), Width())
    {
      bytes := [];
      var i := 0;
      while i < pn.Length
        invariant 0 <= i <= LIMBS
        invariant bytes == BytesOf(pn[..i])
      {
        assert pn[..i + 1][..i] == pn[..i];
        bytes := bytes + Bytesrepr.ToLe(pn[i], 4);
        i := i + 1;
      }
      assert pn[..i] == pn[..];
      BytesOfIsToLe(pn[..]);
    }

    method SetBytesLE(bytes: seq<u8>)
      requires Valid() && |bytes| == Width()
      modifies pn
      ensures Val() == Bytesrepr.FromLe(bytes)
    {
      var i := 0;
      while i < pn.Length
        invariant 0 <= i <= LIMBS
        invariant forall j :: 0 <= j < i ==> pn[j] == Load(bytes, j)
      {
        pn[i] := Load(bytes, i);
        i := i + 1;
      }
      LoadedValue(pn[..], bytes);
    }

    /** The length-prefixed encoding; the same bytes as the Rust encoder writes for the number. */
    method ToBytes() returns (result: seq<u8>)
      requires Valid()
      ensures result == Uint.ToBytes(Val(), Width())
    {
      var bytes := ToBytesLE();
      result := LengthPrefixed(bytes);
      Uint.ToBytesShape(Val(), Width(), result[0]);
    }

    /** Reads text in base 16; false when the lookup of a character traps, and then nothing changes. */
    method SetHex(text: string) returns (ok: bool)
      requires Valid()
      modifies pn
      ensures ok <==> Scannable(StripPrefix(text))
      ensures Val() == if ok then ReadHex(text) % Modulus() else old(Val())
    {
      var value := StripPrefix(text);
      var digits;
      digits, ok := CountDigits(value);
      if !ok { return; }
      DigitRunAllHex(value);
      var bytes := HexBytes(value, digits, Width());
      SetBytesLE(bytes);
      LimbIsFourBytes(LIMBS);
    }

    /** Lower-case hexadecimal digits without leading zeros; "0" for zero. */
    method ToHex() returns (result: string)
      requires Valid()
      ensures AllHex(result) && HexVal(result) == Val()
      ensures |result| > 0 && (|result| > 1 ==> result[0] != '0')
    {
      var bytes := ToBytesLE();
      LimbIsFourBytes(LIMBS);
      ValBound();
      Bytesrepr.ToLeFromLe(Val(), Width());
      var backZeros := TopByteIndex(bytes);
      ZerosBeyond(bytes, backZeros + 1);
      result := HexText(bytes, backZeros);
      ValueFromIs(bytes, 0);
      assert bytes[0..] == bytes;
    }

    /** Parses a length-prefixed number: exactly the inputs the Rust decoder accepts, with the value it gives them. */
    static method FromBytes(bytes: seq<u8>) returns (result: Parsed)
      ensures result.Null? <==> bytes == []
      ensures result.Number? <==> Uint.FromBytes(Width(), bytes).Ok?
      ensures result.Number? ==> result.number.Valid() && result.number.Val() == Uint.FromBytes(Width(), bytes).value.0
    {
      if |bytes| < 1 {
        return Null;
      }
      var lengthPrefix := bytes[0];
      var res := new U512();
      var buffer: seq<u8> := Uint.Zeros(Width());
      for i := 0 to lengthPrefix
        invariant i <= Width() && i < |bytes|
        invariant buffer == bytes[1..][..i] + Uint.Zeros(Width() - i)
      {
        if i >= |buffer| || i + 1 >= |bytes| {
          return Trap;
        }
        buffer := buffer[i := bytes[i + 1]];
      }
      Uint.DropZerosValue(bytes[1..][..lengthPrefix], Uint.Zeros(Width() - lengthPrefix));
      res.SetBytesLE(buffer);
      result := Number(res);
    }
  }

  /** Reading back the text that ToHex writes for v gives v, in full. */
  lemma HexRoundTrip(v: int, text: string)
    requires 0 <= v < Modulus() && AllHex(text) && HexVal(text) == v
    ensures Scannable(StripPrefix(text)) && ReadHex(text) % Modulus() == v
  {
    DigitsReadWhole(text);
    ModSmall(v, Modulus());
  }

  /** What reading a number can end in: nothing to read, a runtime trap on a bad index, or a number. */
  datatype Parsed = Null | Trap | Number(number: U512)

  /** The width in bytes. */
  function Width(): (w: nat)
    ensures w < 256
  {
    4 * LIMBS
  }

  /** The digits still to read, above the bytes already filled, make up the whole number. */
  ghost predicate HexFilled(whole: nat, value: string, digits: nat, bytes: seq<u8>, i: nat) {
    digits <= |value| && AllHex(value[..digits])
    && whole == HexVal(value[..digits]) * Pow(256, i) + Value(bytes, 256)
  }

  lemma FillTwo(whole: nat, value: string, digits: nat, bytes: seq<u8>, i: nat, hi: nat, lo: nat)
    requires HexFilled(whole, value, digits, bytes, i) && digits >= 2 && i < |bytes| && bytes[i] == 0
    requires hi == HexDigit(value[digits - 2]) && lo == HexDigit(value[digits - 1]) && lo + 16 * hi < 256
    ensures HexFilled(whole, value, digits - 2, bytes[i := lo + 16 * hi], i + 1)
  {
    HexValTake(value, digits - 1);
    HexValTake(value, digits - 2);
    ValueUpdate(bytes, i, lo + 16 * hi, 256);
    TwoDigits(whole, HexVal(value[..digits]), HexVal(value[..digits - 2]), hi, lo,
              Value(bytes, 256), Value(bytes[i := lo + 16 * hi], 256), Pow(256, i));
  }

  lemma FillOne(whole: nat, value: string, bytes: seq<u8>, i: nat, lo: nat)
    requires HexFilled(whole, value, 1, bytes, i) && i < |bytes| && bytes[i] == 0 && lo == HexDigit(value[0])
    ensures HexFilled(whole, value, 0, bytes[i := lo], i)
  {
    HexValTake(value, 0);
    ValueUpdate(bytes, i, lo, 256);
    assert value[..0] == [];
  }

  lemma FillDone(whole: nat, value: string, digits: nat, bytes: seq<u8>, i: nat)
    requires HexFilled(whole, value, digits, bytes, i) && (digits == 0 || i == |bytes|)
    ensures Bytesrepr.FromLe(bytes) == whole % Pow(256, |bytes|)
  {
    Bytesrepr.FromLeIsValue(bytes);
    ValueBound(bytes, 256);
    if digits == 0 {
      assert value[..0] == [];
      ModSmall(whole, Pow(256, |bytes|));
    } else {
      DivModUnique(whole, Pow(256, i), HexVal(value[..digits]), Value(bytes, 256));
    }
  }

  /** How many digits the text starts with; not ok when the lookup of the character after them traps. */
  method CountDigits(value: string) returns (digits: nat, ok: bool)
    ensures digits == DigitRun(value) && (ok <==> Scannable(value))
  {
    digits := 0;
    assert value[..0] == [];
    while digits < |value| && value[digits] as int < 256 && HexDigit(value[digits]) != -1
      invariant 0 <= digits <= |value| && AllHex(value[..digits])
    {
      digits := digits + 1;
    }
    DigitRunIs(value, digits);
    ok := digits == |value| || value[digits] as int < 256;
  }

  /** Fills a byte buffer from the last digits of the text, two to a byte; what does not fit is dropped. */
  method HexBytes(value: string, count: nat, width: nat) returns (bytes: seq<u8>)
    requires count <= |value| && AllHex(value[..count])
    ensures |bytes| == width && Bytesrepr.FromLe(bytes) == HexVal(value[..count]) % Pow(256, width)
  {
    ghost var whole := HexVal(value[..count]);
    bytes := Uint.Zeros(width);
    ValueZeros(bytes, 256);
    var digits, i := count, 0;
    while digits > 0 && i < width
      invariant 0 <= digits <= count && 0 <= i <= width && |bytes| == width
      invariant digits > 0 ==> forall j :: i <= j < width ==> bytes[j] == 0
      invariant HexFilled(whole, value, digits, bytes, i)
    {
      var was := digits;
      ghost var before := bytes;
      var b;
      b, digits := LastByte(value, digits);
      bytes := bytes[i := b];
      if was > 1 {
        FillTwo(whole, value, was, before, i, HexDigit(value[was - 2]), HexDigit(value[was - 1]));
        i := i + 1;
      } else {
        FillOne(whole, value, before, i, b);
      }
    }
    FillDone(whole, value, digits, bytes, i);
  }

  /** The byte that the last two digits make, or the last one if there is only one. */
  method LastByte(value: string, digits: nat) returns (b: u8, left: nat)
    requires 0 < digits <= |value| && AllHex(value[..digits])
    ensures left == if digits == 1 then 0 else digits - 2
    ensures HexDigit(value[digits - 1]) >= 0
    ensures digits == 1 ==> b == HexDigit(value[0])
    ensures digits > 1 ==>
      HexDigit(value[digits - 2]) >= 0 && b == HexDigit(value[digits - 1]) + 16 * HexDigit(value[digits - 2])
  {
    assert value[..digits][digits - 1] == value[digits - 1];
    b, left := HexDigit(value[digits - 1]), digits - 1;
    if left > 0 {
      left := left - 1;
      assert value[..digits][left] == value[left];
      ShiftedNibble(b, HexDigit(value[left]));
      b := Or(b, HexDigit(value[left]) * 16);
    }
  }

  lemma ShiftedNibble(lo: nat, hi: nat)
    requires lo < 16 && hi < 16
    ensures Or(lo, hi * 16) == lo + 16 * hi < 256
  {
    assert Pow(2, 4) == 16;
    DivModUnique(hi * 16, 16, hi, 0);
    OrDisjoint(hi * 16, lo, 4);
  }

  /** The index of the highest byte that is not zero; 0 if there is none. */
  method TopByteIndex(bytes: seq<u8>) returns (k: nat)
    requires bytes != []
    ensures k < |bytes| && (forall i :: k < i < |bytes| ==> bytes[i] == 0) && (k > 0 ==> bytes[k] != 0)
  {
    var backZeros := |bytes| - 1;
    while backZeros >= 0
      invariant -1 <= backZeros < |bytes|
      invariant forall i :: backZeros < i < |bytes| ==> bytes[i] == 0
    {
      backZeros := backZeros - 1;
      if bytes[backZeros + 1] != 0 { break; }
    }
    k := backZeros + 1;
  }

  /** Drops the zeros at the end and puts the remaining length in front. */
  method LengthPrefixed(bytes: seq<u8>) returns (result: seq<u8>)
    requires |bytes| < 256
    ensures result != [] && Uint.Significant(bytes, result[0]) && result == [result[0]] + bytes[..result[0]]
  {
    var skipZeros := |bytes| - 1;
    while skipZeros >= 0 && bytes[skipZeros] == 0
      invariant -1 <= skipZeros < |bytes|
      invariant forall i :: skipZeros < i < |bytes| ==> bytes[i] == 0
    {
      skipZeros := skipZeros - 1;
    }
    var lengthPrefix := skipZeros + 1;
    result := [lengthPrefix];
    for i := 0 to lengthPrefix
      invariant result == [lengthPrefix] + bytes[..i]
    {
      result := result + [bytes[i]];
    }
  }

  /** The text of one byte without a leading zero. */
  method FirstByteText(b: u8) returns (text: string)
    ensures Spells(text, b) && |text| > 0 && (b != 0 ==> text[0] != '0') && (|text| > 1 ==> text[0] != '0')
  {
    SpellDigit([], 0, b % 16);
    assert [] + [HexLower(b % 16)] == [HexLower(b % 16)];
    if b / 16 == 0 {
      return [HexLower(b % 16)];
    }
    SpellByte([], 0, b);
    text := [] + [HexLower(b / 16)] + [HexLower(b % 16)];
  }

  method AppendByteText(text: string, ghost n: nat, b: u8) returns (r: string)
    requires Spells(text, n)
    ensures Spells(r, 256 * n + b) && text <= r
  {
    SpellByte(text, n, b);
    r := text + [HexLower(b / 16)] + [HexLower(b % 16)];
  }

  /** The text of bytes[..k+1], where all beyond is zero and the top byte is too only if it is the lowest. */
  method HexText(bytes: seq<u8>, k: nat) returns (result: string)
    requires k < |bytes| && ValueFrom(bytes, k) == bytes[k] && (k > 0 ==> bytes[k] != 0)
    ensures Spells(result, ValueFrom(bytes, 0))
    ensures |result| > 0 && (|result| > 1 ==> result[0] != '0')
  {
    result := FirstByteText(bytes[k]);
    var i := k;
    while i > 0
      invariant 0 <= i <= k
      invariant Spells(result, ValueFrom(bytes, i))
      invariant |result| > 0 && (k > 0 || |result| > 1 ==> result[0] != '0')
    {
      i := i - 1;
      result := AppendByteText(result, ValueFrom(bytes, i + 1), bytes[i]);
    }
  }

  /** The number the bytes from i on denote. */
  ghost function ValueFrom(bytes: seq<u8>, i: nat): nat
    requires i <= |bytes|
    decreases |bytes| - i
  {
    if i == |bytes| then 0 else 256 * ValueFrom(bytes, i + 1) + bytes[i]
  }

  lemma {:induction false} ValueFromIs(bytes: seq<u8>, i: nat)
    requires i <= |bytes|
    ensures ValueFrom(bytes, i) == Bytesrepr.FromLe(bytes[i..])
    decreases |bytes| - i
  {
    if i < |bytes| {
      ValueFromIs(bytes, i + 1);
      assert bytes[i..][1..] == bytes[i + 1..];
    }
  }

  lemma {:induction false} ZerosBeyond(bytes: seq<u8>, i: nat)
    requires i <= |bytes| && forall j :: i <= j < |bytes| ==> bytes[j] == 0
    ensures ValueFrom(bytes, i) == 0
    decreases |bytes| - i
  {
    if i < |bytes| {
      ZerosBeyond(bytes, i + 1);
    }
  }
}
