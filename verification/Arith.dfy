/** Powers, quotients and remainders: the arithmetic the limb and width proofs rest on. */
module Arith {

  function Pow(b: nat, e: nat): (r: nat)
    ensures b > 0 ==> r > 0
  {
    if e == 0 then 1 else b * Pow(b, e - 1)
  }

  lemma {:induction false} PowAdd(b: nat, m: nat, n: nat)
    ensures Pow(b, m + n) == Pow(b, m) * Pow(b, n)
  {
    if m > 0 {
      PowAdd(b, m - 1, n);
      MulAssoc(b, Pow(b, m - 1), Pow(b, n));
      assert m + n - 1 == m - 1 + n;
    }
  }

  lemma {:induction false} PowPow(b: nat, m: nat, n: nat)
    ensures Pow(Pow(b, m), n) == Pow(b, m * n)
  {
    if n > 0 {
      PowPow(b, m, n - 1);
      assert m * n == m + m * (n - 1);
      PowAdd(b, m, m * (n - 1));
    }
  }

  lemma {:induction false} PowMono(b: nat, m: nat, n: nat)
    requires b > 0 && m <= n
    ensures Pow(b, m) <= Pow(b, n)
  {
    PowAdd(b, m, n - m);
    MulMono(1, Pow(b, n - m), Pow(b, m));
  }

  lemma MulAssoc(x: int, y: int, z: int)
    ensures x * (y * z) == (x * y) * z
  {
  }

  lemma MulDist(x: int, y: int, z: int)
    ensures x * (y + z) == x * y + x * z
    ensures (y + z) * x == y * x + z * x
  {
  }

  lemma MulSwap(x: int, y: int, z: int)
    ensures x * (y * z) == y * (x * z)
  {
  }

  lemma MulMono(x: int, y: int, z: nat)
    requires x <= y
    ensures x * z <= y * z
  {
  }

  /** Quotient and remainder are the only pair with the Euclidean property. */
  lemma DivModUnique(x: int, m: int, q: int, r: int)
    requires m > 0 && x == q * m + r && 0 <= r < m
    ensures x / m == q && x % m == r
  {
    var d := x / m - q;
    assert x == (x / m) * m + x % m;
    assert d * m == r - x % m by {
      assert d * m == (x / m) * m - q * m;
    }
    if d >= 1 {
      MulMono(1, d, m);
    } else if d <= -1 {
      MulMono(d, -1, m);
    }
  }

  /** Adding a multiple of the modulus changes nothing. */
  lemma ModShift(x: int, k: int, m: int)
    requires m > 0
    ensures (x + k * m) % m == x % m
  {
    assert x == (x / m) * m + x % m;
    assert x + k * m == (x / m + k) * m + x % m by {
      assert (x / m + k) * m == (x / m) * m + k * m;
    }
    DivModUnique(x + k * m, m, x / m + k, x % m);
  }

  lemma ModSmall(x: int, m: int)
    requires 0 <= x < m
    ensures x % m == x && x / m == 0
  {
    DivModUnique(x, m, 0, x);
  }

  /** Equal remainders modulo m. */
  ghost predicate Congruent(x: int, y: int, m: int)
    requires m > 0
  {
    x % m == y % m
  }

  lemma CongruentFromMultiple(x: int, y: int, k: int, m: int)
    requires m > 0 && x == y + k * m
    ensures Congruent(x, y, m)
  {
    ModShift(y, k, m);
  }

  lemma CongruentWitness(x: int, y: int, m: int) returns (k: int)
    requires m > 0 && Congruent(x, y, m)
    ensures x == y + k * m
  {
    k := x / m - y / m;
    assert x == (x / m) * m + x % m;
    assert y == (y / m) * m + y % m;
    assert k * m == (x / m) * m - (y / m) * m;
  }

  lemma CongruentAdd(a: int, b: int, c: int, d: int, m: int)
    requires m > 0 && Congruent(a, b, m) && Congruent(c, d, m)
    ensures Congruent(a + c, b + d, m)
  {
    var k := CongruentWitness(a, b, m);
    var l := CongruentWitness(c, d, m);
    assert (k + l) * m == k * m + l * m;
    CongruentFromMultiple(a + c, b + d, k + l, m);
  }

  lemma CongruentMul(a: int, b: int, c: int, m: int)
    requires m > 0 && Congruent(a, b, m)
    ensures Congruent(a * c, b * c, m)
  {
    var k := CongruentWitness(a, b, m);
    assert a * c == b * c + (k * c) * m by {
      assert (b + k * m) * c == b * c + (k * m) * c;
      assert (k * m) * c == (k * c) * m;
    }
    CongruentFromMultiple(a * c, b * c, k * c, m);
  }

  /** A congruence modulo a multiple of m is a congruence modulo m. */
  lemma CongruentDivisor(x: int, y: int, c: int, m: int)
    requires m > 0 && c > 0 && c * m > 0 && Congruent(x, y, c * m)
    ensures Congruent(x, y, m)
  {
    var k := CongruentWitness(x, y, c * m);
    MulAssoc(k, c, m);
    CongruentFromMultiple(x, y, k * c, m);
  }

  lemma ModIdem(x: int, m: int)
    requires m > 0
    ensures Congruent(x % m, x, m)
  {
    ModSmall(x % m, m);
  }

  // ----- shifts and bitwise or on naturals -----

  /** x >> s, one bit at a time. */
  function Shr(x: nat, s: nat): (r: nat)
    decreases s
  {
    if s == 0 then x else Shr(x / 2, s - 1)
  }

  /** The s lowest bits of x. */
  function Low(x: nat, s: nat): (r: nat)
    decreases s
  {
    if s == 0 then 0 else x % 2 + 2 * Low(x / 2, s - 1)
  }

  lemma {:induction false} ShrLow(x: nat, s: nat)
    ensures x == Shr(x, s) * Pow(2, s) + Low(x, s)
    ensures Low(x, s) < Pow(2, s)
    decreases s
  {
    if s > 0 {
      ShrLow(x / 2, s - 1);
      MulSwap(Shr(x, s), 2, Pow(2, s - 1));
    }
  }

  /** Bitwise or, bit by bit. */
  function Or(x: nat, y: nat): (r: nat)
    decreases x + y
  {
    if x == 0 then y
    else if y == 0 then x
    else 2 * Or(x / 2, y / 2) + (if x % 2 == 1 || y % 2 == 1 then 1 else 0)
  }

  /** Where the operands share no bit, bitwise or is addition. */
  lemma {:induction false} OrDisjoint(x: nat, y: nat, k: nat)
    requires x % Pow(2, k) == 0 && y < Pow(2, k)
    ensures Or(x, y) == x + y && Or(y, x) == x + y
    decreases k
  {
    if x != 0 && y != 0 && k > 0 {
      var p := Pow(2, k - 1);
      var q := x / (2 * p);
      assert x == q * (2 * p) + x % (2 * p);
      MulAssoc(q, p, 2);
      assert x == 2 * (q * p);
      assert x / 2 == q * p;
      DivModUnique(x / 2, p, q, 0);
      OrDisjoint(x / 2, y / 2, k - 1);
    }
  }
}
