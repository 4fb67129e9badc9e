/** What a shift does to a sequence of 32-bit limbs, limb by limb, and what that means for the number. */
module Limbs {
  import opened Arith
  import opened Digits

  const BASE: nat := 0x1_0000_0000

  type u32 = x: nat | x < BASE

  lemma BaseIsPow2()
    ensures Pow(2, 32) == BASE
  {
    assert Pow(2, 8) == 256;
    PowAdd(2, 8, 8);
    PowAdd(2, 16, 16);
  }

  /** The bits below and above position s of a limb: 2^s * 2^(32-s) is the base. */
  lemma SplitBase(s: nat)
    requires s <= 32
    ensures Pow(2, s) * Pow(2, 32 - s) == BASE
    ensures Pow(2, s) <= BASE && Pow(2, 32 - s) <= BASE
  {
    BaseIsPow2();
    PowAdd(2, s, 32 - s);
    PowMono(2, s, 32);
    PowMono(2, 32 - s, 32);
  }

  // ----- one limb -----

  /** x << s, cut to 32 bits. */
  function Lo(x: u32, s: nat): (r: u32)
    decreases s
  {
    if s == 0 then x else Lo((2 * x) % BASE, s - 1)
  }

  /** x >> (32 - s), the bits that x << s pushes out of the limb. */
  function Hi(x: u32, s: nat): (r: nat)
    requires s <= 32
  {
    Shr(x, 32 - s)
  }

  lemma {:induction false} LoIsMod(x: u32, s: nat)
    ensures Lo(x, s) == (x * Pow(2, s)) % BASE
    decreases s
  {
    if s > 0 {
      LoIsMod((2 * x) % BASE, s - 1);
      ModIdem(2 * x, BASE);
      CongruentMul((2 * x) % BASE, 2 * x, Pow(2, s - 1), BASE);
      assert (2 * x) * Pow(2, s - 1) == x * (2 * Pow(2, s - 1));
    } else {
      ModSmall(x, BASE);
    }
  }

  lemma LoHi(x: u32, s: nat)
    requires s <= 32
    ensures x * Pow(2, s) == Hi(x, s) * BASE + Lo(x, s)
    ensures Hi(x, s) < Pow(2, s)
    ensures Lo(x, s) == Low(x, 32 - s) * Pow(2, s)
    ensures Lo(x, s) + Pow(2, s) <= BASE
  {
    SplitBase(s);
    LoIsMod(x, s);
    ShrLow(x, 32 - s);
    LimbSplit(x, Hi(x, s), Low(x, 32 - s), Pow(2, s), Pow(2, 32 - s));
    DivModUnique(x * Pow(2, s), BASE, Hi(x, s), Low(x, 32 - s) * Pow(2, s));
  }

  lemma LimbSplit(x: u32, h: nat, l: nat, c: nat, d: nat)
    requires c * d == BASE && x == h * d + l && l < d
    ensures x * c == h * BASE + l * c
    ensures 0 <= l * c && l * c + c <= BASE
    ensures h < c
  {
    MulDist(c, h * d, l);
    MulSwap(c, h, d);
    MulMono(l + 1, d, c);
    MulDist(c, l, 1);
    if h >= c {
      MulMono(c, h, d);
    }
  }

  lemma OrLoHi(x: u32, y: u32, s: nat)
    requires s <= 32
    ensures Or(Hi(y, s), Lo(x, s)) == Lo(x, s) + Hi(y, s) < BASE
  {
    LoHi(x, s);
    LoHi(y, s);
    DivModUnique(Lo(x, s), Pow(2, s), Low(x, 32 - s), 0);
    OrDisjoint(Lo(x, s), Hi(y, s), s);
  }

  // ----- shift left -----

  /** What a left shift pushes out of the n lowest limbs. */
  function PushedOut(p: seq<u32>, s: nat, n: nat): nat
    requires s <= 32 && n <= |p|
  {
    if n > 0 then Hi(p[n - 1], s) else 0
  }

  /** Limb m of p << s for a shift within one limb. */
  function ShlLimb(p: seq<u32>, s: nat, m: nat): (r: nat)
    requires s <= 32 && m < |p|
  {
    Lo(p[m], s) + PushedOut(p, s, m)
  }

  function ShlSmall(p: seq<u32>, s: nat): (q: seq<nat>)
    requires s <= 32
    ensures |q| == |p|
  {
    seq(|p|, m requires 0 <= m < |p| => ShlLimb(p, s, m))
  }

  /** The n lowest limbs of a left shift, as numbers. */
  ghost predicate ShlPrefixIs(p: seq<u32>, s: nat, n: nat)
    requires s <= 32 && n <= |p|
  {
    Value(ShlSmall(p, s)[..n], BASE) + PushedOut(p, s, n) * Pow(BASE, n) == Value(p[..n], BASE) * Pow(2, s)
  }

  lemma {:induction false} ShlSmallPrefix(p: seq<u32>, s: nat, n: nat)
    requires s <= 32 && n <= |p|
    ensures ShlPrefixIs(p, s, n)
    decreases n
  {
    if n == 0 {
      ShlSmallStart(p, s);
    } else {
      ShlSmallPrefix(p, s, n - 1);
      ShlSmallNext(p, s, n, n - 1);
    }
  }

  lemma ShlSmallStart(p: seq<u32>, s: nat)
    requires s <= 32
    ensures ShlPrefixIs(p, s, 0)
  {
    assert ShlSmall(p, s)[..0] == [] && p[..0] == [];
  }

  lemma ShlSmallNext(p: seq<u32>, s: nat, n: nat, k: nat)
    requires s <= 32 && k + 1 == n <= |p| && ShlPrefixIs(p, s, k)
    ensures ShlPrefixIs(p, s, n)
  {
    var q := ShlSmall(p, s);
    assert q[k] == Lo(p[k], s) + PushedOut(p, s, k);
    ValueTake(p, k, BASE);
    ValueTake(q, k, BASE);
    LoHi(p[k], s);
    assert Pow(BASE, n) == BASE * Pow(BASE, k);
    assert Value(p[..n], BASE) == Value(p[..k], BASE) + p[k] * Pow(BASE, k);
    assert Value(q[..n], BASE) == Value(q[..k], BASE) + q[k] * Pow(BASE, k);
    assert p[k] * Pow(2, s) == Hi(p[k], s) * BASE + Lo(p[k], s);
    assert Value(q[..k], BASE) + PushedOut(p, s, k) * Pow(BASE, k) == Value(p[..k], BASE) * Pow(2, s);
    ShlStep(Value(p[..k], BASE), Value(p[..n], BASE), Value(q[..k], BASE), Value(q[..n], BASE),
            PushedOut(p, s, k), p[k], q[k], Lo(p[k], s), Hi(p[k], s), Pow(2, s), Pow(BASE, k), Pow(BASE, n));
  }

  lemma ShlStep(v: nat, v': nat, q: nat, q': nat, h: nat,
                x: nat, y: nat, lo: nat, hi: nat, c: nat, w: nat, w': nat)
    requires q + h * w == v * c && x * c == hi * BASE + lo && y == lo + h
    requires v' == v + x * w && q' == q + y * w && w' == BASE * w
    ensures q' + hi * w' == v' * c
  {
    MulDist(w, lo, h);
    MulDist(c, v, x * w);
    MulDist(w, hi * BASE, lo);
    MulAssoc(hi, BASE, w);
    assert c * (x * w) == (x * c) * w;
  }

  /** p << (32 * k + s), as a sequence of |p| limbs. */
  function ShlSeq(p: seq<u32>, k: nat, s: nat): (q: seq<nat>)
    requires s <= 32
    ensures |q| == |p|
  {
    if k >= |p| then seq(|p|, _ => 0) else seq(k, _ => 0) + ShlSmall(p[..|p| - k], s)
  }

  lemma ShlSeqAt(p: seq<u32>, k: nat, s: nat, m: nat)
    requires s <= 32 && m < |p|
    ensures ShlSeq(p, k, s)[m] == if m < k then 0 else ShlLimb(p, s, m - k)
  {
    if k <= m {
      var l := p[..|p| - k];
      assert l[m - k] == p[m - k] && (m > k ==> l[m - k - 1] == p[m - k - 1]);
    }
  }

  lemma ShlSmallInBase(p: seq<u32>, s: nat)
    requires s <= 32
    ensures InBase(ShlSmall(p, s), BASE)
  {
    forall m | 0 <= m < |p| ensures ShlSmall(p, s)[m] < BASE {
      LoHi(p[m], s);
      if m > 0 { LoHi(p[m - 1], s); }
    }
  }

  lemma PowShift(k: nat, s: nat)
    ensures Pow(2, 32 * k + s) == Pow(BASE, k) * Pow(2, s)
  {
    PowAdd(2, 32 * k, s);
    PowPow(2, 32, k);
    BaseIsPow2();
  }

  lemma ShlValue(p: seq<u32>, k: nat, s: nat)
    requires s <= 32
    ensures Value(ShlSeq(p, k, s), BASE) == (Value(p, BASE) * Pow(2, 32 * k + s)) % Pow(BASE, |p|)
  {
    if k >= |p| {
      ShlAll(p, k, s);
    } else {
      ShlPart(p, k, |p| - k, s);
    }
  }

  lemma ShlPart(p: seq<u32>, k: nat, n: nat, s: nat)
    requires s <= 32 && 0 < n && n + k == |p|
    ensures Value(ShlSeq(p, k, s), BASE) == (Value(p, BASE) * Pow(2, 32 * k + s)) % Pow(BASE, n + k)
  {
    PowShift(k, s);
    PowAdd(BASE, n, k);
    ShlWhole(p, k, n, s);
    ShlKept(p, n, s);
    assert p == p[..n] + p[n..];
    ValueConcat(p[..n], p[n..], BASE);
    ShlAlgebra(Value(p, BASE), Value(p[..n], BASE), Value(p[n..], BASE), Value(ShlSmall(p[..n], s), BASE),
               Hi(p[n - 1], s), Pow(BASE, k), Pow(BASE, n), Pow(2, s),
               Pow(2, 32 * k + s), Pow(BASE, n + k), Value(ShlSeq(p, k, s), BASE));
  }

  lemma ShlAll(p: seq<u32>, k: nat, s: nat)
    requires s <= 32 && k >= |p|
    ensures Value(ShlSeq(p, k, s), BASE) == (Value(p, BASE) * Pow(2, 32 * k + s)) % Pow(BASE, |p|)
  {
    PowShift(k, s);
    ValueZeros(ShlSeq(p, k, s), BASE);
    PowAdd(BASE, |p|, k - |p|);
    MultipleIsZero(Value(p, BASE), Pow(BASE, |p|), Pow(BASE, k - |p|), Pow(2, s));
  }

  lemma MultipleIsZero(v: nat, m: nat, a: nat, c: nat)
    requires m > 0
    ensures (v * ((m * a) * c)) % m == 0
  {
    assert v * ((m * a) * c) == (v * (a * c)) * m;
    DivModUnique(v * ((m * a) * c), m, v * (a * c), 0);
  }

  lemma ShlWhole(p: seq<u32>, k: nat, n: nat, s: nat)
    requires s <= 32 && 0 < n && n + k == |p|
    ensures Value(ShlSeq(p, k, s), BASE) == Pow(BASE, k) * Value(ShlSmall(p[..n], s), BASE) < Pow(BASE, n + k)
  {
    var z := seq(k, _ => 0);
    ValueZeros(z, BASE);
    ValueConcat(z, ShlSmall(p[..n], s), BASE);
    assert ShlSeq(p, k, s) == z + ShlSmall(p[..n], s);
    ShlSmallInBase(p[..n], s);
    ValueBound(ShlSeq(p, k, s), BASE);
  }

  lemma ShlKept(p: seq<u32>, n: nat, s: nat)
    requires s <= 32 && 0 < n <= |p|
    ensures Value(ShlSmall(p[..n], s), BASE) + Hi(p[n - 1], s) * Pow(BASE, n) == Value(p[..n], BASE) * Pow(2, s)
  {
    var l := p[..n];
    ShlSmallPrefix(l, s, n);
    assert ShlSmall(l, s)[..n] == ShlSmall(l, s);
    assert l[..n] == l;
    assert PushedOut(l, s, n) == Hi(p[n - 1], s);
    assert Value(ShlSmall(l, s), BASE) + PushedOut(l, s, n) * Pow(BASE, n) == Value(l, BASE) * Pow(2, s);
  }

  /** The product (l + w*h) * (u*c), when l*c is q plus a carry out of the top, is u*q modulo w*u. */
  lemma ShlAlgebra(v: nat, l: nat, h: nat, q: nat, carry: nat, u: nat, w: nat, c: nat, e: nat, m: nat, r: nat)
    requires q + carry * w == l * c && v == l + w * h && e == u * c && m == w * u && r == u * q < m
    ensures (v * e) % m == r
  {
    MulDist(e, l, w * h);
    assert l * (u * c) == u * (l * c);
    MulDist(u, q, carry * w);
    assert u * (carry * w) == carry * (w * u);
    assert (w * h) * (u * c) == (h * c) * (w * u);
    MulDist(w * u, carry, h * c);
    DivModUnique(v * e, m, carry + h * c, r);
  }

  // ----- shift right -----

  /** Limb m of p >> s for a shift within one limb. */
  function ShrLimb(p: seq<u32>, s: nat, m: nat): (r: nat)
    requires s <= 32 && m < |p|
  {
    Shr(p[m], s) + (if m + 1 < |p| then Lo(p[m + 1], 32 - s) else 0)
  }

  function ShrSmall(p: seq<u32>, s: nat): (q: seq<nat>)
    requires s <= 32
    ensures |q| == |p|
  {
    seq(|p|, m requires 0 <= m < |p| => ShrLimb(p, s, m))
  }

  /** The n lowest limbs of a right shift, as numbers. */
  ghost predicate ShrPrefixIs(p: seq<u32>, s: nat, n: nat)
    requires s <= 32 && n < |p|
  {
    Value(ShrSmall(p, s)[..n], BASE) * Pow(2, s) + Low(p[0], s) == Value(p[..n], BASE) + Low(p[n], s) * Pow(BASE, n)
  }

  lemma {:induction false} ShrSmallPrefix(p: seq<u32>, s: nat, n: nat)
    requires s <= 32 && n < |p|
    ensures ShrPrefixIs(p, s, n)
    decreases n
  {
    if n == 0 {
      ShrSmallStart(p, s);
    } else {
      ShrSmallPrefix(p, s, n - 1);
      ShrSmallNext(p, s, n, n - 1);
    }
  }

  lemma ShrSmallStart(p: seq<u32>, s: nat)
    requires s <= 32 && p != []
    ensures ShrPrefixIs(p, s, 0)
  {
    assert ShrSmall(p, s)[..0] == [] && p[..0] == [];
  }

  lemma ShrSmallNext(p: seq<u32>, s: nat, n: nat, k: nat)
    requires s <= 32 && k + 1 == n < |p| && ShrPrefixIs(p, s, k)
    ensures ShrPrefixIs(p, s, n)
  {
    var q, x := ShrSmall(p, s), p[k];
    ValueTake(p, k, BASE);
    ValueTake(q, k, BASE);
    LoHi(p[n], 32 - s);
    SplitBase(s);
    ShrLow(x, s);
    ShrStep(Value(p[..k], BASE), Value(p[..n], BASE), Value(q[..k], BASE), Value(q[..n], BASE),
            Low(p[0], s), x, q[k], Shr(x, s), Low(x, s), Low(p[n], s),
            Pow(2, s), Pow(2, 32 - s), Pow(BASE, k), Pow(BASE, n));
  }

  lemma ShrStep(v: nat, v': nat, q: nat, q': nat, r: nat, x: nat, z: nat, h: nat, l: nat, y: nat,
                c: nat, d: nat, w: nat, w': nat)
    requires q * c + r == v + l * w
    requires x == h * c + l && z == h + y * d && c * d == BASE
    requires v' == v + x * w && q' == q + z * w && w' == BASE * w
    ensures q' * c + r == v' + y * w'
  {
    MulDist(w, h, y * d);
    MulDist(c, q, h * w + (y * d) * w);
    MulDist(c, h * w, (y * d) * w);
    assert c * (h * w) == (h * c) * w;
    assert c * ((y * d) * w) == y * ((c * d) * w);
    MulDist(w, h * c, l);
  }

  lemma ShrSmallValue(p: seq<u32>, s: nat)
    requires s <= 32 && p != []
    ensures Value(ShrSmall(p, s), BASE) == Value(p, BASE) / Pow(2, s)
  {
    var n, q := |p| - 1, ShrSmall(p, s);
    ShrSmallPrefix(p, s, n);
    ShrLow(p[n], s);
    ShrLow(p[0], s);
    SplitBase(s);
    ValueTake(p, n, BASE);
    ValueTake(q, n, BASE);
    assert p[..n + 1] == p && q[..n + 1] == q;
    ShrStep(Value(p[..n], BASE), Value(p, BASE), Value(q[..n], BASE), Value(q, BASE),
            Low(p[0], s), p[n], q[n], Shr(p[n], s), Low(p[n], s), 0,
            Pow(2, s), Pow(2, 32 - s), Pow(BASE, n), Pow(BASE, n + 1));
    DivModUnique(Value(p, BASE), Pow(2, s), Value(q, BASE), Low(p[0], s));
  }

  /** p >> (32 * k + s), as a sequence of |p| limbs. */
  function ShrSeq(p: seq<u32>, k: nat, s: nat): (q: seq<nat>)
    requires s <= 32
    ensures |q| == |p|
  {
    if k >= |p| then seq(|p|, _ => 0) else ShrSmall(p[k..], s) + seq(k, _ => 0)
  }

  lemma ShrSeqAt(p: seq<u32>, k: nat, s: nat, m: nat)
    requires s <= 32 && m < |p|
    ensures ShrSeq(p, k, s)[m] == if m + k < |p| then ShrLimb(p, s, m + k) else 0
  {
    if m + k < |p| {
      var h := p[k..];
      assert h[m] == p[m + k] && (m + k + 1 < |p| ==> h[m + 1] == p[m + k + 1]);
    }
  }

  lemma ShrValue(p: seq<u32>, k: nat, s: nat)
    requires s <= 32
    ensures Value(ShrSeq(p, k, s), BASE) == Value(p, BASE) / Pow(2, 32 * k + s)
  {
    PowShift(k, s);
    if k >= |p| {
      ValueZeros(ShrSeq(p, k, s), BASE);
      ShrAll(p, k, s);
    } else {
      ShrValueInside(p, k, s);
      DivDiv(Value(p, BASE), Pow(BASE, k), Pow(2, s));
    }
  }

  lemma ShrAll(p: seq<u32>, k: nat, s: nat)
    requires k >= |p|
    ensures Value(p, BASE) / Pow(2, 32 * k + s) == 0
  {
    ValueBound(p, BASE);
    BaseIsPow2();
    PowPow(2, 32, |p|);
    PowMono(2, 32 * |p|, 32 * k + s);
    DivModUnique(Value(p, BASE), Pow(2, 32 * k + s), 0, Value(p, BASE));
  }

  lemma ShrValueInside(p: seq<u32>, k: nat, s: nat)
    requires s <= 32 && k < |p|
    ensures Value(ShrSeq(p, k, s), BASE) == Value(p, BASE) / Pow(BASE, k) / Pow(2, s)
  {
    var z := seq(k, _ => 0);
    ValueZeros(z, BASE);
    ValueConcat(ShrSmall(p[k..], s), z, BASE);
    ShrSmallValue(p[k..], s);
    ValueSplit(p, k, BASE);
  }

  lemma DivDiv(v: nat, a: nat, b: nat)
    requires a > 0 && b > 0
    ensures a * b > 0 && v / a / b == v / (a * b)
  {
    var q, r := v / a, v % a;
    var h, l := q / b, q % b;
    MulMono(1, a, b);
    assert v == q * a + r && q == h * b + l;
    MulDist(a, h * b, l);
    assert (h * b) * a == h * (a * b);
    MulMono(l + 1, b, a);
    MulDist(a, l, 1);
    DivModUnique(v, a * b, h, l * a + r);
  }
}
