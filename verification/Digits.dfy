/** Little-endian positional notation in any base: the meaning of limb arrays, byte buffers and hex strings. */
module Digits {
  import opened Arith

  /** Every entry is a digit of the base. */
  ghost predicate InBase(s: seq<nat>, b: nat) {
    forall i :: 0 <= i < |s| ==> s[i] < b
  }

  /** The number a digit sequence denotes, least significant digit first. */
  ghost function Value(s: seq<nat>, b: nat): nat {
    if s == [] then 0
    else Value(s[..|s| - 1], b) + s[|s| - 1] * Pow(b, |s| - 1)
  }

  lemma ValueSnoc(s: seq<nat>, d: nat, b: nat)
    ensures Value(s + [d], b) == Value(s, b) + d * Pow(b, |s|)
  {
    assert (s + [d])[..|s|] == s;
  }

  lemma ValueTake(s: seq<nat>, i: nat, b: nat)
    requires i < |s|
    ensures Value(s[..i + 1], b) == Value(s[..i], b) + s[i] * Pow(b, i)
  {
    assert s[..i + 1] == s[..i] + [s[i]];
    ValueSnoc(s[..i], s[i], b);
  }

  lemma {:induction false} ValueConcat(s: seq<nat>, t: seq<nat>, b: nat)
    ensures Value(s + t, b) == Value(s, b) + Pow(b, |s|) * Value(t, b)
  {
    if t == [] {
      assert s + t == s;
    } else {
      var n := |t| - 1;
      assert s + t == (s + t[..n]) + [t[n]];
      ValueSnoc(s + t[..n], t[n], b);
      ValueConcat(s, t[..n], b);
      PowAdd(b, |s|, n);
      var p, q := Pow(b, |s|), Pow(b, n);
      MulDist(p, Value(t[..n], b), t[n] * q);
      MulSwap(p, t[n], q);
    }
  }

  lemma {:induction false} ValueBound(s: seq<nat>, b: nat)
    requires b > 0 && InBase(s, b)
    ensures Value(s, b) < Pow(b, |s|)
  {
    if s != [] {
      var n := |s| - 1;
      ValueBound(s[..n], b);
      MulMono(s[n], b - 1, Pow(b, n));
      assert (b - 1) * Pow(b, n) == b * Pow(b, n) - Pow(b, n);
    }
  }

  lemma {:induction false} ValueZeros(s: seq<nat>, b: nat)
    requires forall i :: 0 <= i < |s| ==> s[i] == 0
    ensures Value(s, b) == 0
  {
    if s != [] {
      ValueZeros(s[..|s| - 1], b);
    }
  }

  /** Two digit sequences of one length that denote one number are equal. */
  lemma {:induction false} ValueInjective(s: seq<nat>, t: seq<nat>, b: nat)
    requires b > 0 && |s| == |t| && InBase(s, b) && InBase(t, b)
    requires Value(s, b) == Value(t, b)
    ensures s == t
  {
    if s != [] {
      var n := |s| - 1;
      ValueBound(s[..n], b);
      ValueBound(t[..n], b);
      var p := Pow(b, n);
      DivModUnique(Value(s, b), p, s[n], Value(s[..n], b));
      DivModUnique(Value(t, b), p, t[n], Value(t[..n], b));
      ValueInjective(s[..n], t[..n], b);
      assert s == s[..n] + [s[n]] && t == t[..n] + [t[n]];
    }
  }

  /** The order of two numbers is decided at the highest digit where they differ. */
  lemma ValueOrder(s: seq<nat>, t: seq<nat>, i: nat, b: nat)
    requires b > 0 && |s| == |t| && InBase(s, b) && InBase(t, b)
    requires i < |s| && s[i] < t[i] && s[i + 1..] == t[i + 1..]
    ensures Value(s, b) < Value(t, b)
  {
    assert s == s[..i + 1] + s[i + 1..] && t == t[..i + 1] + t[i + 1..];
    ValueConcat(s[..i + 1], s[i + 1..], b);
    ValueConcat(t[..i + 1], t[i + 1..], b);
    ValueTake(s, i, b);
    ValueTake(t, i, b);
    ValueBound(s[..i], b);
    MulMono(s[i] + 1, t[i], Pow(b, i));
    assert (s[i] + 1) * Pow(b, i) == s[i] * Pow(b, i) + Pow(b, i);
  }

  /** Replacing one digit moves the number by the difference at that place. */
  lemma ValueUpdate(s: seq<nat>, i: nat, d: nat, b: nat)
    requires i < |s|
    ensures Value(s[i := d], b) == Value(s, b) + (d - s[i]) * Pow(b, i)
  {
    var u := s[i := d];
    assert s == s[..i + 1] + s[i + 1..] && u == u[..i + 1] + s[i + 1..];
    ValueConcat(s[..i + 1], s[i + 1..], b);
    ValueConcat(u[..i + 1], s[i + 1..], b);
    ValueTake(s, i, b);
    ValueTake(u, i, b);
    assert u[..i] == s[..i];
    assert (d - s[i]) * Pow(b, i) == d * Pow(b, i) - s[i] * Pow(b, i);
  }

  /** The low digits are the number modulo a power of the base, the high digits its quotient. */
  lemma ValueSplit(s: seq<nat>, i: nat, b: nat)
    requires b > 0 && InBase(s, b) && i <= |s|
    ensures Value(s[..i], b) == Value(s, b) % Pow(b, i)
    ensures Value(s[i..], b) == Value(s, b) / Pow(b, i)
  {
    assert s == s[..i] + s[i..];
    ValueConcat(s[..i], s[i..], b);
    ValueBound(s[..i], b);
    DivModUnique(Value(s, b), Pow(b, i), Value(s[i..], b), Value(s[..i], b));
  }

  // ----- the digits of a number -----

  /** The n lowest digits of v. */
  function DigitsOf(v: nat, n: nat, b: nat): (s: seq<nat>)
    requires b > 0
    ensures |s| == n && forall i :: 0 <= i < n ==> s[i] < b
    decreases n, v
  {
    if n == 0 then [] else [v % b] + DigitsOf(v / b, n - 1, b)
  }

  lemma {:induction false} DigitsOfValue(v: nat, n: nat, b: nat)
    requires b > 0
    ensures Value(DigitsOf(v, n, b), b) == v % Pow(b, n)
    decreases n
  {
    if n == 0 {
      DivModUnique(v, 1, v, 0);
    } else {
      var d := v % b;
      DigitsOfValue(v / b, n - 1, b);
      ValueConcat([d], DigitsOf(v / b, n - 1, b), b);
      ValueSnoc([], d, b);
      assert [] + [d] == [d];
      assert Pow(b, 1) == b * Pow(b, 0) == b;
      ModStep(v, b, Pow(b, n - 1));
    }
  }

  /** A remainder modulo b * p is the last digit and a remainder modulo p of the rest. */
  lemma ModStep(v: nat, b: nat, p: nat)
    requires b > 0 && p > 0
    ensures b * p > 0 && v % (b * p) == v % b + b * ((v / b) % p)
  {
    var w, d := v / b, v % b;
    var q, r := w / p, w % p;
    MulMono(1, b, p);
    assert v == b * w + d && w == q * p + r;
    MulDist(b, q * p, r);
    MulSwap(b, q, p);
    MulMono(r + 1, p, b);
    MulDist(b, r, 1);
    DivModUnique(v, b * p, q, d + b * r);
  }
}
