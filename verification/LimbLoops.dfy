/**
  What each carry loop of the 512-bit integer leaves in its limbs, and the number those limbs denote.
  Everything is stated for any number of limbs.
 */
module LimbLoops {
  import opened Arith
  import opened Digits
  import opened Limbs

  // ----- addition -----

  /** The carry into limb i of a + b. */
  ghost function AddCarry(a: seq<u32>, b: seq<u32>, i: nat): (c: nat)
    requires i <= |a| == |b|
    ensures c <= 1
  {
    if i == 0 then 0 else (AddCarry(a, b, i - 1) + a[i - 1] + b[i - 1]) / BASE
  }

  /** The i lowest limbs of a + b. */
  ghost function AddDigits(a: seq<u32>, b: seq<u32>, i: nat): (s: seq<u32>)
    requires i <= |a| == |b|
    ensures |s| == i
  {
    if i == 0 then [] else AddDigits(a, b, i - 1) + [(AddCarry(a, b, i - 1) + a[i - 1] + b[i - 1]) % BASE]
  }

  /** The i lowest limbs of a sum, as numbers. */
  ghost predicate AddIs(a: seq<u32>, b: seq<u32>, i: nat)
    requires i <= |a| == |b|
  {
    Value(AddDigits(a, b, i), BASE) + AddCarry(a, b, i) * Pow(BASE, i) == Value(a[..i], BASE) + Value(b[..i], BASE)
  }

  lemma {:induction false} AddPrefix(a: seq<u32>, b: seq<u32>, i: nat)
    requires i <= |a| == |b|
    ensures AddIs(a, b, i)
    decreases i
  {
    if i > 0 {
      AddPrefix(a, b, i - 1);
      AddNext(a, b, i, i - 1);
    }
  }

  lemma AddNext(a: seq<u32>, b: seq<u32>, i: nat, j: nat)
    requires j + 1 == i <= |a| == |b| && AddIs(a, b, j)
    ensures AddIs(a, b, i)
  {
    var n := AddCarry(a, b, j) + a[j] + b[j];
    var v' := NextDigit(AddDigits(a, b, j), n % BASE, AddDigits(a, b, i));
    var a' := NextLimb(a, j);
    var b' := NextLimb(b, j);
    AddStep(Value(AddDigits(a, b, j), BASE), v', Value(a[..j], BASE), a', Value(b[..j], BASE), b', a[j], b[j],
            AddCarry(a, b, j), AddCarry(a, b, i), n % BASE, Pow(BASE, j), Pow(BASE, i));
  }

  /** Adding limbs x and y with a carry; the sum splits into a limb lo and the next carry. */
  lemma AddStep(r: nat, r': nat, a: nat, a': nat, b: nat, b': nat, x: nat, y: nat,
                carry: nat, carry': nat, lo: nat, w: nat, w': nat)
    requires r + carry * w == a + b && carry + x + y == carry' * BASE + lo
    requires r' == r + lo * w && a' == a + x * w && b' == b + y * w && w' == BASE * w
    ensures r' + carry' * w' == a' + b'
  {
    MulDist(w, carry' * BASE, lo);
    MulAssoc(carry', BASE, w);
    MulDist(w, carry + x, y);
    MulDist(w, carry, x);
  }

  lemma AddValue(a: seq<u32>, b: seq<u32>, n: nat)
    requires |a| == |b| == n
    ensures Value(AddDigits(a, b, n), BASE) == (Value(a, BASE) + Value(b, BASE)) % Pow(BASE, n)
  {
    AddPrefix(a, b, n);
    assert a[..n] == a && b[..n] == b;
    ValueBound(AddDigits(a, b, n), BASE);
    DivModUnique(Value(a, BASE) + Value(b, BASE), Pow(BASE, n), AddCarry(a, b, n), Value(AddDigits(a, b, n), BASE));
  }

  // ----- increment, decrement, complement -----

  /** q is p but for its digits below i, all f in p and all t in q, and for digit i, which is left open. */
  ghost predicate Rippled(p: seq<u32>, q: seq<u32>, i: nat, f: u32, t: u32) {
    && |p| == |q| && i <= |p|
    && (forall j :: 0 <= j < i ==> p[j] == f && q[j] == t)
    && (forall j :: i < j < |p| ==> q[j] == p[j])
  }

  lemma {:induction false} RippleLow(p: seq<u32>, q: seq<u32>, i: nat, f: u32, t: u32)
    requires Rippled(p, q, i, f, t) && f - t == BASE - 1
    ensures Value(p[..i], BASE) == Value(q[..i], BASE) + Pow(BASE, i) - 1
    decreases i
  {
    if i > 0 {
      var j := i - 1;
      assert Rippled(p[..i], q[..i], j, f, t);
      RippleLow(p[..i], q[..i], j, f, t);
      assert p[..i][..j] == p[..j] && q[..i][..j] == q[..j];
      ValueTake(p, j, BASE);
      ValueTake(q, j, BASE);
      assert f * Pow(BASE, j) == t * Pow(BASE, j) + (BASE - 1) * Pow(BASE, j) by {
        MulDist(Pow(BASE, j), t, BASE - 1);
      }
      MulDist(Pow(BASE, j), BASE, -1);
    }
  }

  /** A ripple of 2^32-1 digits into zeros that ends by adding one at i adds one to the number; and back. */
  lemma RippleValue(p: seq<u32>, q: seq<u32>, i: nat)
    requires Rippled(p, q, i, BASE - 1, 0) && i < |p| && q[i] > 0 && p[i] == q[i] - 1
    ensures Value(q, BASE) == Value(p, BASE) + 1
  {
    RippleLow(p, q, i, BASE - 1, 0);
    SameHigh(p, q, i);
    MulDist(Pow(BASE, i), p[i], 1);
  }

  lemma SameHigh(p: seq<u32>, q: seq<u32>, i: nat)
    requires |p| == |q| && i < |p| && forall j :: i < j < |p| ==> q[j] == p[j]
    ensures Value(p, BASE) - Value(p[..i], BASE) - p[i] * Pow(BASE, i)
         == Value(q, BASE) - Value(q[..i], BASE) - q[i] * Pow(BASE, i)
  {
    assert p == p[..i + 1] + p[i + 1..] && q == q[..i + 1] + p[i + 1..];
    ValueConcat(p[..i + 1], p[i + 1..], BASE);
    ValueConcat(q[..i + 1], p[i + 1..], BASE);
    ValueTake(p, i, BASE);
    ValueTake(q, i, BASE);
  }

  lemma RippleAll(p: seq<u32>, q: seq<u32>)
    requires Rippled(p, q, |p|, BASE - 1, 0)
    ensures Value(p, BASE) == Pow(BASE, |p|) - 1 && Value(q, BASE) == 0
  {
    RippleLow(p, q, |p|, BASE - 1, 0);
    assert p[..|p|] == p && q[..|p|] == q;
    ValueZeros(q, BASE);
  }

  lemma IncrementStops(p: seq<u32>, q: seq<u32>, i: nat)
    requires Rippled(p, q, i, BASE - 1, 0) && i < |p| && q[i] == (p[i] + 1) % BASE != 0
    ensures Value(q, BASE) == (Value(p, BASE) + 1) % Pow(BASE, |p|)
  {
    RippleValue(p, q, i);
    ValueBound(q, BASE);
    ModSmall(Value(q, BASE), Pow(BASE, |p|));
  }

  lemma IncrementWraps(p: seq<u32>, q: seq<u32>)
    requires Rippled(p, q, |p|, BASE - 1, 0)
    ensures Value(q, BASE) == (Value(p, BASE) + 1) % Pow(BASE, |p|)
  {
    RippleAll(p, q);
    DivModUnique(Value(p, BASE) + 1, Pow(BASE, |p|), 1, 0);
  }

  lemma DecrementStops(p: seq<u32>, q: seq<u32>, i: nat)
    requires Rippled(q, p, i, BASE - 1, 0) && i < |p| && p[i] > 0 && q[i] == p[i] - 1
    ensures Value(q, BASE) == (Value(p, BASE) as int - 1) % Pow(BASE, |p|)
  {
    RippleValue(q, p, i);
    ValueBound(q, BASE);
    ModSmall(Value(q, BASE), Pow(BASE, |p|));
  }

  lemma DecrementWraps(p: seq<u32>, q: seq<u32>)
    requires Rippled(q, p, |p|, BASE - 1, 0)
    ensures Value(q, BASE) == (Value(p, BASE) as int - 1) % Pow(BASE, |p|)
  {
    RippleAll(q, p);
    DivModUnique(-1, Pow(BASE, |p|), -1, Pow(BASE, |p|) - 1);
  }

  lemma {:induction false} ComplementValue(p: seq<u32>, q: seq<u32>)
    requires |p| == |q| && forall j :: 0 <= j < |p| ==> q[j] == BASE - 1 - p[j]
    ensures Value(q, BASE) + Value(p, BASE) == Pow(BASE, |p|) - 1
  {
    if p != [] {
      var n := |p| - 1;
      ComplementValue(p[..n], q[..n]);
      MulDist(Pow(BASE, n), q[n], p[n]);
      MulDist(Pow(BASE, n), BASE, -1);
    }
  }

  // ----- multiplication -----

  /** The accumulator of the nested loop: 64 bits hold it, so it never overflows, and its upper half is a limb. */
  function Accumulate(carry: u32, z: u32, t: u32, y: u32): (n: nat)
    ensures n < BASE * BASE && n / BASE < BASE
  {
    MulMono(t, BASE - 1, y);
    MulMono(0, t, y);
    carry + z + t * y
  }

  /** The carry into limb i + j while t * b is added to o at limb j. */
  ghost function RowCarry(o: seq<u32>, t: u32, b: seq<u32>, j: nat, i: nat): (c: u32)
    requires i + j <= |o| == |b|
    decreases i
  {
    if i == 0 then 0
    else
      Accumulate(RowCarry(o, t, b, j, i - 1), o[i - 1 + j], t, b[i - 1]) / BASE
  }

  /** The i + j lowest limbs of o with t * b added at limb j. */
  ghost function RowDigits(o: seq<u32>, t: u32, b: seq<u32>, j: nat, i: nat): (s: seq<u32>)
    requires i + j <= |o| == |b|
    ensures |s| == i + j
    decreases i
  {
    if i == 0 then o[..j]
    else
      RowDigits(o, t, b, j, i - 1) + [Accumulate(RowCarry(o, t, b, j, i - 1), o[i - 1 + j], t, b[i - 1]) % BASE]
  }

  /** What a row has come to after i limbs, as numbers: r + carry * w is o plus u times t times s. */
  ghost predicate RowIs(o: seq<u32>, t: u32, b: seq<u32>, j: nat, i: nat)
    requires i + j <= |o| == |b|
  {
    Value(RowDigits(o, t, b, j, i), BASE) + RowCarry(o, t, b, j, i) * Pow(BASE, i + j)
      == Value(o[..i + j], BASE) + Pow(BASE, j) * (t * Value(b[..i], BASE))
  }

  lemma {:induction false} RowPrefix(o: seq<u32>, t: u32, b: seq<u32>, j: nat, i: nat)
    requires i + j <= |o| == |b|
    ensures RowIs(o, t, b, j, i)
    decreases i
  {
    if i == 0 {
      RowStart(o, t, b, j);
    } else {
      RowPrefix(o, t, b, j, i - 1);
      RowStep(o, t, b, j, i, i - 1);
    }
  }

  lemma RowStart(o: seq<u32>, t: u32, b: seq<u32>, j: nat)
    requires j <= |o| == |b|
    ensures RowIs(o, t, b, j, 0)
  {
    assert b[..0] == [];
  }

  lemma RowStep(o: seq<u32>, t: u32, b: seq<u32>, j: nat, i: nat, k: nat)
    requires k + 1 == i && i + j <= |o| == |b| && RowIs(o, t, b, j, k)
    ensures RowIs(o, t, b, j, i)
  {
    var s, c := RowDigits(o, t, b, j, k), RowCarry(o, t, b, j, k);
    var n := Accumulate(c, o[k + j], t, b[k]);
    var s', c' := RowDigits(o, t, b, j, i), RowCarry(o, t, b, j, i);
    var v' := NextDigit(s, n % BASE, s');
    var o' := NextLimb(o, k + j);
    var b' := NextLimb(b, k);
    PowAdd(BASE, j, k);
    MulStep(Value(s, BASE), v', Value(o[..k + j], BASE), o', Value(b[..k], BASE), b', o[k + j], b[k], t, Pow(BASE, j),
            c, c', n % BASE, Pow(BASE, k + j), Pow(BASE, i + j), Pow(BASE, k));
  }

  lemma NextDigit(s: seq<u32>, d: u32, s': seq<u32>) returns (v: nat)
    requires s' == s + [d]
    ensures v == Value(s', BASE) == Value(s, BASE) + d * Pow(BASE, |s|)
  {
    ValueSnoc(s, d, BASE);
    v := Value(s', BASE);
  }

  lemma NextLimb(p: seq<u32>, n: nat) returns (v: nat)
    requires n < |p|
    ensures v == Value(p[..n + 1], BASE) == Value(p[..n], BASE) + p[n] * Pow(BASE, n)
  {
    ValueTake(p, n, BASE);
    v := Value(p[..n + 1], BASE);
  }

  /** Multiplying one limb t of the left operand into row position w of the product. */
  lemma MulStep(r: nat, r': nat, o: nat, o': nat, s: nat, s': nat, z: nat, y: nat, t: nat, u: nat,
                carry: nat, carry': nat, lo: nat, w: nat, w': nat, v: nat)
    requires r + carry * w == o + u * (t * s) && carry + z + t * y == carry' * BASE + lo
    requires r' == r + lo * w && o' == o + z * w && s' == s + y * v && w == u * v && w' == BASE * w
    ensures r' + carry' * w' == o' + u * (t * s')
  {
    MulDist(w, carry' * BASE, lo);
    MulAssoc(carry', BASE, w);
    MulDist(w, carry + z, t * y);
    MulDist(w, carry, z);
    MulDist(t, s, y * v);
    MulDist(u, t * s, t * (y * v));
    assert u * (t * (y * v)) == (t * y) * (u * v);
  }

  /** The product after the first j limbs of a. */
  ghost function MulRows(a: seq<u32>, b: seq<u32>, j: nat): (s: seq<u32>)
    requires j <= |a| == |b|
    ensures |s| == |a|
  {
    if j == 0 then seq(|a|, _ => 0) else RowDigits(MulRows(a, b, j - 1), a[j - 1], b, j - 1, |a| - (j - 1))
  }

  lemma RowValue(o: seq<u32>, t: u32, b: seq<u32>, j: nat, i: nat)
    requires i + j == |o| == |b|
    ensures Value(RowDigits(o, t, b, j, i), BASE) + RowCarry(o, t, b, j, i) * Pow(BASE, i + j)
         == Value(o, BASE) + Pow(BASE, j) * (t * Value(b[..i], BASE))
  {
    RowPrefix(o, t, b, j, i);
    assert o[..i + j] == o;
  }

  lemma {:induction false} MulRowsValue(a: seq<u32>, b: seq<u32>, j: nat)
    requires j <= |a| == |b|
    ensures Congruent(Value(MulRows(a, b, j), BASE), Value(a[..j], BASE) * Value(b, BASE), Pow(BASE, |a|))
    decreases j
  {
    if j == 0 {
      ValueZeros(MulRows(a, b, 0), BASE);
      assert a[..0] == [];
    } else {
      MulRowsValue(a, b, j - 1);
      ValueTake(a, j - 1, BASE);
      MulOneRow(MulRows(a, b, j - 1), Value(a[..j - 1], BASE), Value(a[..j], BASE), a[j - 1], b, j - 1, |a| - (j - 1));
    }
  }

  lemma MulOneRow(o: seq<u32>, a: nat, a': nat, t: u32, b: seq<u32>, j: nat, i: nat)
    requires i + j == |o| == |b| && a' == a + t * Pow(BASE, j)
    requires Congruent(Value(o, BASE), a * Value(b, BASE), Pow(BASE, i + j))
    ensures Congruent(Value(RowDigits(o, t, b, j, i), BASE), a' * Value(b, BASE), Pow(BASE, i + j))
  {
    RowValue(o, t, b, j, i);
    assert b == b[..i] + b[i..];
    ValueConcat(b[..i], b[i..], BASE);
    PowAdd(BASE, j, i);
    MulRow(Value(o, BASE), Value(RowDigits(o, t, b, j, i), BASE), a, a', t, Value(b, BASE), Value(b[..i], BASE),
           Value(b[i..], BASE), Pow(BASE, j), Pow(BASE, i), RowCarry(o, t, b, j, i), Pow(BASE, i + j));
  }

  lemma MulRowEquation(r: nat, r': nat, a: nat, a': nat, t: nat, o: nat, lo: nat, hi: nat, u: nat, w: nat,
                       carry: nat, m: nat, k: int)
    requires m == u * w && o == lo + w * hi && a' == a + t * u
    requires r' + carry * m == r + u * (t * lo) && r == a * o + k * m
    ensures r' == a' * o + (k - carry - t * hi) * m
  {
    MulDist(o, a, t * u);
    MulDist(t * u, lo, w * hi);
    assert (t * u) * lo == u * (t * lo);
    assert (t * u) * (w * hi) == (t * hi) * (u * w);
    assert (k - carry - t * hi) * m == k * m - carry * m - (t * hi) * m;
  }

  /** One row of the product: what falls beyond the top limb is a multiple of the modulus. */
  lemma MulRow(r: nat, r': nat, a: nat, a': nat, t: nat, o: nat, lo: nat, hi: nat, u: nat, w: nat, carry: nat, m: nat)
    requires m > 0 && m == u * w && o == lo + w * hi && a' == a + t * u
    requires r' + carry * m == r + u * (t * lo) && Congruent(r, a * o, m)
    ensures Congruent(r', a' * o, m)
  {
    var k := CongruentWitness(r, a * o, m);
    MulRowEquation(r, r', a, a', t, o, lo, hi, u, w, carry, m, k);
    CongruentFromMultiple(r', a' * o, k - carry - t * hi, m);
  }

  lemma MulValue(a: seq<u32>, b: seq<u32>)
    requires |a| == |b|
    ensures Value(MulRows(a, b, |a|), BASE) == (Value(a, BASE) * Value(b, BASE)) % Pow(BASE, |a|)
  {
    MulRowsValue(a, b, |a|);
    assert a[..|a|] == a;
    ValueBound(MulRows(a, b, |a|), BASE);
    ModSmall(Value(MulRows(a, b, |a|), BASE), Pow(BASE, |a|));
  }

  // ----- bit length -----

  /** b is the number of bits of v. */
  ghost predicate IsBitLength(v: nat, b: nat) {
    v < Pow(2, b) && (b > 0 ==> Pow(2, b - 1) <= v)
  }

  /** 32 minus the count of leading zeros of a limb. */
  function BitLen(x: nat): (r: nat) {
    if x == 0 then 0 else 1 + BitLen(x / 2)
  }

  lemma {:induction false} BitLenIsBitLength(x: nat)
    ensures IsBitLength(x, BitLen(x))
  {
    if x != 0 {
      BitLenIsBitLength(x / 2);
    }
  }

  lemma TopLimbValue(p: seq<u32>, i: nat)
    requires i < |p| && forall j :: i < j < |p| ==> p[j] == 0
    ensures Value(p, BASE) == Value(p[..i], BASE) + p[i] * Pow(BASE, i) && Value(p[..i], BASE) < Pow(BASE, i)
  {
    ZerosAbove(p, i + 1);
    ValueTake(p, i, BASE);
    ValueBound(p[..i], BASE);
  }

  lemma {:induction false} ZerosAbove(p: seq<u32>, i: nat)
    requires i <= |p| && forall j :: i <= j < |p| ==> p[j] == 0
    ensures Value(p, BASE) == Value(p[..i], BASE)
  {
    var n := |p| - 1;
    if i > n {
      assert p[..i] == p;
    } else {
      ZerosAbove(p[..n], i);
      assert p[..n][..i] == p[..i];
      assert p[..n + 1] == p;
      ValueTake(p, n, BASE);
    }
  }

  lemma TopLimbBits(p: seq<u32>, i: nat)
    requires i < |p| && p[i] > 0 && forall j :: i < j < |p| ==> p[j] == 0
    ensures IsBitLength(Value(p, BASE), 32 * i + BitLen(p[i]))
  {
    TopLimbValue(p, i);
    BitLenIsBitLength(p[i]);
    ScaleBits(Value(p, BASE), Value(p[..i], BASE), p[i], i, BitLen(p[i]));
  }

  lemma ScaleBits(v: nat, low: nat, x: nat, i: nat, b: nat)
    requires v == low + x * Pow(BASE, i) && low < Pow(BASE, i) && b > 0 && IsBitLength(x, b)
    ensures IsBitLength(v, 32 * i + b)
  {
    BaseIsPow2();
    PowPow(2, 32, i);
    PowAdd(2, 32 * i, b);
    PowAdd(2, 32 * i, b - 1);
    Between(v, low, x, Pow(BASE, i), Pow(2, b), Pow(2, b - 1));
  }

  lemma Between(v: nat, low: nat, x: nat, w: nat, above: nat, below: nat)
    requires v == low + x * w && low < w && below <= x < above
    ensures w * below <= v < w * above
  {
    MulMono(x + 1, above, w);
    MulDist(w, x, 1);
    MulMono(below, x, w);
  }

  // ----- the quotient bits of a shift-subtract division -----

  /** The t lowest bits of the limbs are clear. */
  ghost predicate LowClear(p: seq<u32>, t: nat) {
    forall j :: 0 <= j < |p| ==> LimbClear(p[j], 32 * j, t)
  }

  ghost predicate LimbClear(x: u32, at: nat, t: nat) {
    if at + 32 <= t then x == 0 else at < t ==> x % Pow(2, t - at) == 0
  }

  lemma ZeroIsClear(p: seq<u32>, t: nat)
    requires forall j :: 0 <= j < |p| ==> p[j] == 0
    ensures LowClear(p, t)
  {
    forall j | 0 <= j < |p| ensures LimbClear(p[j], 32 * j, t) {
      if 32 * j < t < 32 * j + 32 { ModSmall(0, Pow(2, t - 32 * j)); }
    }
  }

  lemma ClearHalf(x: nat, s: nat)
    requires x % Pow(2, s + 1) == 0
    ensures x % Pow(2, s) == 0
  {
    var q := x / Pow(2, s + 1);
    assert x == q * Pow(2, s + 1);
    MulAssoc(q, 2, Pow(2, s));
    DivModUnique(x, Pow(2, s), q * 2, 0);
  }

  lemma SetLimbBit(x: u32, s: nat)
    requires s < 32 && x % Pow(2, s + 1) == 0
    ensures Or(x, Pow(2, s)) == x + Pow(2, s) < BASE
    ensures (x + Pow(2, s)) % Pow(2, s) == 0
  {
    OrDisjoint(x, Pow(2, s), s + 1);
    ClearHalf(x, s);
    ModShift(x, 1, Pow(2, s));
    SplitBase(s + 1);
    MultipleBelow(x, Pow(2, s + 1), Pow(2, 31 - s));
  }

  lemma MultipleBelow(x: nat, p: nat, d: nat)
    requires p > 0 && x % p == 0 && x < p * d
    ensures x + p <= p * d
  {
    var q := x / p;
    assert x == q * p;
    if q >= d {
      MulMono(d, q, p);
    }
    MulMono(q + 1, d, p);
    MulDist(p, q, 1);
  }

  lemma ClearDown(p: seq<u32>, t: nat)
    requires LowClear(p, t + 1)
    ensures LowClear(p, t)
  {
    forall j | 0 <= j < |p| ensures LimbClear(p[j], 32 * j, t) {
      assert LimbClear(p[j], 32 * j, t + 1);
      if 32 * j < t < 32 * j + 32 {
        if 32 * j + 32 <= t + 1 {
          ModSmall(0, Pow(2, t - 32 * j));
        } else {
          ClearHalf(p[j], t - 32 * j);
        }
      }
    }
  }

  lemma SameProduct(x: int, y: int, w: int)
    requires x == y
    ensures x * w == w * y
  {
  }

  lemma BitWeight(p: seq<u32>, k: nat, s: nat, d: u32)
    requires k < |p| && d == p[k] + Pow(2, s)
    ensures Value(p[k := d], BASE) == Value(p, BASE) + Pow(2, 32 * k + s)
  {
    ValueUpdate(p, k, d, BASE);
    PowShift(k, s);
    SameProduct(d - p[k], Pow(2, s), Pow(BASE, k));
  }

  /** Setting bit t of a number whose bits up to t are clear adds 2^t. */
  lemma SetBit(p: seq<u32>, t: nat) returns (d: u32)
    requires LowClear(p, t + 1) && t / 32 < |p|
    ensures d == Or(p[t / 32], Pow(2, t % 32))
    ensures LowClear(p[t / 32 := d], t)
    ensures Value(p[t / 32 := d], BASE) == Value(p, BASE) + Pow(2, t)
  {
    var k, s := t / 32, t % 32;
    ClearLimb(p, t, k, s);
    SetLimbBit(p[k], s);
    d := p[k] + Pow(2, s);
    BitWeight(p, k, s, d);
    SetKeepsClear(p, t, k, s, d);
  }

  lemma ClearLimb(p: seq<u32>, t: nat, k: nat, s: nat)
    requires LowClear(p, t + 1) && t == 32 * k + s && s < 32 && k < |p|
    ensures p[k] % Pow(2, s + 1) == 0
  {
    assert LimbClear(p[k], 32 * k, t + 1);
    if p[k] == 0 { ModSmall(0, Pow(2, s + 1)); }
  }

  lemma SetKeepsClear(p: seq<u32>, t: nat, k: nat, s: nat, d: u32)
    requires LowClear(p, t + 1) && t == 32 * k + s && s < 32 && k < |p| && d % Pow(2, s) == 0
    ensures LowClear(p[k := d], t)
  {
    ClearDown(p, t);
    var q := p[k := d];
    forall j | 0 <= j < |q| ensures LimbClear(q[j], 32 * j, t) {
      assert LimbClear(p[j], 32 * j, t);
    }
  }

  lemma FewerBits(n: nat, d: nat, nb: nat, db: nat)
    requires IsBitLength(n, nb) && IsBitLength(d, db) && nb < db
    ensures n < d
  {
    PowMono(2, nb, db - 1);
  }

  /** Shifting the divisor up to the dividend's bit length loses no bit and leaves it above half the dividend. */
  lemma AlignedShift(n: nat, d: nat, nb: nat, db: nat, len: nat)
    requires IsBitLength(n, nb) && IsBitLength(d, db) && 0 < db <= nb && n < Pow(BASE, len)
    ensures nb <= 32 * len
    ensures (d * Pow(2, nb - db)) % Pow(BASE, len) == d * Pow(2, nb - db)
    ensures n < d * Pow(2, nb - db + 1)
  {
    BaseIsPow2();
    PowPow(2, 32, len);
    if nb > 32 * len {
      PowMono(2, 32 * len, nb - 1);
    }
    PowMono(2, nb, 32 * len);
    var s := nb - db;
    PowAdd(2, db, s);
    PowAdd(2, db - 1, s + 1);
    MulMono(d + 1, Pow(2, db), Pow(2, s));
    MulDist(Pow(2, s), d, 1);
    MulMono(Pow(2, db - 1), d, Pow(2, s + 1));
    MulMono(0, d, Pow(2, s));
    ModSmall(d * Pow(2, s), Pow(BASE, len));
  }

  lemma ZeroTimes(z: int, d: int)
    requires z == 0
    ensures z * d == 0
  {
  }

  lemma DoubledBound(d: int, s: nat)
    ensures d * Pow(2, s + 1) == 2 * (d * Pow(2, s))
  {
    MulSwap(d, 2, Pow(2, s));
  }

  /** One quotient bit: b is the quotient so far, a what is left of the dividend n. */
  lemma QuotientBit(n: int, d: int, a: int, b: int, s: nat)
    requires n == b * d + a && a < d * Pow(2, s + 1)
    ensures n == (b + Pow(2, s)) * d + (a - d * Pow(2, s))
    ensures a - d * Pow(2, s) < d * Pow(2, s)
  {
    MulDist(d, b, Pow(2, s));
    DoubledBound(d, s);
  }

  lemma HalvedDivisor(d: int, s: nat, v: int)
    requires s > 0 && v == (d * Pow(2, s)) / Pow(2, 1)
    ensures v == d * Pow(2, s - 1)
  {
    DoubledBound(d, s - 1);
    assert Pow(2, 1) == 2 * Pow(2, 0) == 2;
  }

  lemma HighLimbDecides(p: seq<u32>, q: seq<u32>, i: nat)
    requires |p| == |q| && i < |p| && p[i] < q[i] && forall j :: i < j < |p| ==> p[j] == q[j]
    ensures Value(p, BASE) < Value(q, BASE)
  {
    ValueOrder(p, q, i, BASE);
  }

  // ----- the shift loops -----

  /** The limbs of a left shift after the first i limbs of p have been moved. */
  ghost function ShlPartial(p: seq<u32>, k: nat, s: nat, i: nat, m: nat): nat
    requires s < 32 && i <= |p| && m < |p|
  {
    if m < k || m > i + k then 0
    else if m == i + k then (if i > 0 then Hi(p[i - 1], s) else 0)
    else ShlLimb(p, s, m - k)
  }

  lemma ShlMove(p: seq<u32>, k: nat, s: nat, i: nat)
    requires s < 32 && i < |p|
    ensures Or(0, Hi(p[i], s)) == Hi(p[i], s) < BASE && (s == 0 ==> Hi(p[i], s) == 0)
    ensures i + k < |p| ==> Or(ShlPartial(p, k, s, i, i + k), Lo(p[i], s)) == ShlLimb(p, s, i) < BASE
  {
    LoHi(p[i], s);
    SplitBase(s);
    if i > 0 {
      OrLoHi(p[i], p[i - 1], s);
    }
  }

  lemma ShlDone(p: seq<u32>, k: nat, s: nat, q: seq<u32>, shift: nat)
    requires s < 32 && |q| == |p| && forall m :: 0 <= m < |p| ==> q[m] == ShlPartial(p, k, s, |p|, m)
    requires shift == 32 * k + s
    ensures Value(q, BASE) == (Value(p, BASE) * Pow(2, shift)) % Pow(BASE, |p|)
  {
    ShlIsSeq(p, k, s, q);
    ShlValue(p, k, s);
  }

  lemma ShlIsSeq(p: seq<u32>, k: nat, s: nat, q: seq<u32>)
    requires s < 32 && |q| == |p| && forall m :: 0 <= m < |p| ==> q[m] == ShlPartial(p, k, s, |p|, m)
    ensures q == ShlSeq(p, k, s)
  {
    forall m | 0 <= m < |p| ensures q[m] == ShlSeq(p, k, s)[m] {
      ShlSeqAt(p, k, s, m);
    }
  }

  /** The limbs of a right shift after the first i limbs of p have been moved. */
  ghost function ShrPartial(p: seq<u32>, k: nat, s: nat, i: nat, m: nat): nat
    requires s < 32 && i <= |p| && m < |p|
  {
    if m + k >= i then 0
    else if m + k + 1 == i then Shr(p[m + k], s)
    else ShrLimb(p, s, m + k)
  }

  lemma ShrMove(p: seq<u32>, s: nat, i: nat)
    requires s < 32 && i < |p|
    ensures Or(0, Shr(p[i], s)) == Shr(p[i], s) < BASE && (s == 0 ==> Lo(p[i], 32) == 0)
    ensures i > 0 ==> Or(Shr(p[i - 1], s), Lo(p[i], 32 - s)) == ShrLimb(p, s, i - 1) < BASE
  {
    ShrLimbFits(p[i], s);
    if i > 0 {
      OrLoHi(p[i], p[i - 1], 32 - s);
    }
  }

  lemma ShrLimbFits(x: u32, s: nat)
    requires s < 32
    ensures Shr(x, s) < BASE && Lo(x, 32) == 0
  {
    LoHi(x, 32 - s);
    LoHi(x, 32);
    SplitBase(32 - s);
  }

  lemma ShrDone(p: seq<u32>, k: nat, s: nat, q: seq<u32>, shift: nat)
    requires s < 32 && |q| == |p| && forall m :: 0 <= m < |p| ==> q[m] == ShrPartial(p, k, s, |p|, m)
    requires shift == 32 * k + s
    ensures Value(q, BASE) == Value(p, BASE) / Pow(2, shift)
  {
    ShrIsSeq(p, k, s, q);
    ShrValue(p, k, s);
  }

  lemma ShrIsSeq(p: seq<u32>, k: nat, s: nat, q: seq<u32>)
    requires s < 32 && |q| == |p| && forall m :: 0 <= m < |p| ==> q[m] == ShrPartial(p, k, s, |p|, m)
    ensures q == ShrSeq(p, k, s)
  {
    forall m | 0 <= m < |p| ensures q[m] == ShrSeq(p, k, s)[m] {
      ShrSeqAt(p, k, s, m);
    }
  }
}
