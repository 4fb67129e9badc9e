/** Limbs as bytes and as hexadecimal text. */
module LimbText {
  import opened Arith
  import opened Digits
  import opened Limbs
  import Bytesrepr

  type u8 = Bytesrepr.u8

  /** The limbs stored one after the other, each little-endian. */
  ghost function BytesOf(p: seq<u32>): (s: seq<u8>)
    ensures |s| == 4 * |p|
  {
    if p == [] then [] else BytesOf(p[..|p| - 1]) + Bytesrepr.ToLe(p[|p| - 1], 4)
  }

  lemma LimbIsFourBytes(n: nat)
    ensures Pow(256, 4) == BASE && Pow(256, 4 * n) == Pow(BASE, n)
  {
    Bytesrepr.Pow256();
    PowPow(256, 4, n);
  }

  lemma {:induction false} BytesOfValue(p: seq<u32>)
    ensures Value(BytesOf(p), 256) == Value(p, BASE)
  {
    if p != [] {
      var n := |p| - 1;
      BytesOfValue(p[..n]);
      ValueConcat(BytesOf(p[..n]), Bytesrepr.ToLe(p[n], 4), 256);
      LimbIsFourBytes(n);
      LimbAsBytes(p[n]);
      Commute(Pow(256, 4 * n), Value(Bytesrepr.ToLe(p[n], 4), 256), p[n], Pow(BASE, n));
    }
  }

  lemma Commute(a: int, b: int, x: int, w: int)
    requires a == w && b == x
    ensures a * b == x * w
  {
  }

  lemma LimbAsBytes(x: u32)
    ensures Value(Bytesrepr.ToLe(x, 4), 256) == x
  {
    LimbIsFourBytes(1);
    DigitsOfValue(x, 4, 256);
    ModSmall(x, BASE);
  }

  /** The stored bytes are the little-endian bytes of the number. */
  lemma BytesOfIsToLe(p: seq<u32>)
    ensures BytesOf(p) == Bytesrepr.ToLe(Value(p, BASE), 4 * |p|)
  {
    BytesOfValue(p);
    Bytesrepr.FromLeIsValue(BytesOf(p));
    Bytesrepr.FromLeToLe(BytesOf(p));
  }

  lemma LoadStore(s: seq<u8>)
    requires |s| == 4
    ensures Bytesrepr.FromLe(s) < BASE && Bytesrepr.ToLe(Bytesrepr.FromLe(s), 4) == s
  {
    Bytesrepr.FromLeBound(s);
    Bytesrepr.FromLeToLe(s);
    LimbIsFourBytes(1);
  }

  /** Limb i of a byte buffer. */
  function Load(bytes: seq<u8>, i: nat): (x: u32)
    requires 4 * i + 4 <= |bytes|
  {
    LoadStore(bytes[4 * i..4 * i + 4]);
    Bytesrepr.FromLe(bytes[4 * i..4 * i + 4])
  }

  lemma {:induction false} LoadedPrefix(p: seq<u32>, bytes: seq<u8>, n: nat)
    requires n <= |p| && |bytes| == 4 * |p| && forall j :: 0 <= j < |p| ==> p[j] == Load(bytes, j)
    ensures BytesOf(p[..n]) == bytes[..4 * n]
    decreases n
  {
    if n > 0 {
      LoadedPrefix(p, bytes, n - 1);
      LoadedNext(p, bytes, n, n - 1);
    }
  }

  lemma LoadedNext(p: seq<u32>, bytes: seq<u8>, n: nat, k: nat)
    requires k + 1 == n <= |p| && |bytes| == 4 * |p| && p[k] == Load(bytes, k) && BytesOf(p[..k]) == bytes[..4 * k]
    ensures BytesOf(p[..n]) == bytes[..4 * n]
  {
    assert p[..n][..k] == p[..k];
    LoadStore(bytes[4 * k..4 * k + 4]);
    assert bytes[..4 * n] == bytes[..4 * k] + bytes[4 * k..4 * k + 4];
  }

  lemma LoadedBytes(p: seq<u32>, bytes: seq<u8>)
    requires |bytes| == 4 * |p| && forall j :: 0 <= j < |p| ==> p[j] == Load(bytes, j)
    ensures BytesOf(p) == bytes
  {
    LoadedPrefix(p, bytes, |p|);
    assert p[..|p|] == p && bytes[..4 * |p|] == bytes;
  }

  lemma LoadedValue(p: seq<u32>, bytes: seq<u8>)
    requires |bytes| == 4 * |p| && forall j :: 0 <= j < |p| ==> p[j] == Load(bytes, j)
    ensures Value(p, BASE) == Bytesrepr.FromLe(bytes)
  {
    LoadedBytes(p, bytes);
    BytesOfValue(p);
    Bytesrepr.FromLeIsValue(bytes);
  }

  // ----- hexadecimal digits -----

  /** The value of a digit, in either case; -1 for any other character. */
  function HexDigit(c: char): (d: int)
    ensures -1 <= d < 16
  {
    if '0' <= c <= '9' then c as int - '0' as int
    else if 'A' <= c <= 'F' then c as int - 'A' as int + 10
    else if 'a' <= c <= 'f' then c as int - 'a' as int + 10
    else -1
  }

  function HexLower(d: nat): (c: char)
    requires d < 16
    ensures HexDigit(c) == d
  {
    if d < 10 then d as char + '0' else (d - 10) as char + 'a'
  }

  ghost predicate AllHex(s: string) {
    forall i :: 0 <= i < |s| ==> HexDigit(s[i]) != -1
  }

  /** The number a hexadecimal string denotes, most significant digit first. */
  ghost function HexVal(s: string): nat
    requires AllHex(s)
  {
    if s == [] then 0 else 16 * HexVal(s[..|s| - 1]) + HexDigit(s[|s| - 1])
  }

  lemma HexValSnoc(s: string, c: char)
    requires AllHex(s) && HexDigit(c) != -1
    ensures AllHex(s + [c]) && HexVal(s + [c]) == 16 * HexVal(s) + HexDigit(c)
  {
    assert (s + [c])[..|s|] == s;
  }

  /** The text is made of digits and denotes n. */
  ghost predicate Spells(s: string, n: nat) {
    AllHex(s) && HexVal(s) == n
  }

  lemma SpellDigit(s: string, n: nat, d: nat)
    requires Spells(s, n) && d < 16
    ensures Spells(s + [HexLower(d)], 16 * n + d) && (HexLower(d) == '0' <==> d == 0)
  {
    HexValSnoc(s, HexLower(d));
  }

  /** Two more digits are one more byte at the low end. */
  lemma SpellByte(s: string, n: nat, b: u8)
    requires Spells(s, n)
    ensures Spells(s + [HexLower(b / 16)] + [HexLower(b % 16)], 256 * n + b)
    ensures HexLower(b / 16) == '0' <==> b / 16 == 0
  {
    SpellDigit(s, n, b / 16);
    SpellDigit(s + [HexLower(b / 16)], 16 * n + b / 16, b % 16);
  }

  lemma HexValTake(s: string, n: nat)
    requires n < |s| && AllHex(s[..n + 1])
    ensures AllHex(s[..n]) && HexVal(s[..n + 1]) == 16 * HexVal(s[..n]) + HexDigit(s[n])
  {
    assert s[..n + 1][..n] == s[..n];
    assert AllHex(s[..n]) by {
      forall i | 0 <= i < n ensures HexDigit(s[..n][i]) != -1 {
        assert s[..n][i] == s[..n + 1][i];
      }
    }
  }

  /** A leading 0x or 0X is dropped. */
  function StripPrefix(s: string): string {
    if |s| >= 2 && s[0] == '0' && (s[1] == 'x' || s[1] == 'X') then s[2..] else s
  }

  /** How many digits the text starts with. */
  function DigitRun(s: string): (n: nat)
    ensures n <= |s|
  {
    if s != [] && HexDigit(s[0]) != -1 then 1 + DigitRun(s[1..]) else 0
  }

  lemma {:induction false} DigitRunIs(s: string, n: nat)
    requires n <= |s| && AllHex(s[..n]) && (n < |s| ==> HexDigit(s[n]) == -1)
    ensures DigitRun(s) == n
  {
    if n > 0 {
      assert s[..n][0] == s[0];
      assert s[1..][..n - 1] == s[..n][1..];
      DigitRunIs(s[1..], n - 1);
    }
  }

  lemma {:induction false} DigitRunAllHex(s: string)
    ensures AllHex(s[..DigitRun(s)])
  {
    if s != [] && HexDigit(s[0]) != -1 {
      DigitRunAllHex(s[1..]);
      var n := DigitRun(s);
      assert s[..n] == [s[0]] + s[1..][..n - 1];
    }
  }

  /** The digit table has 256 entries: looking up the character after the digits traps beyond it. */
  predicate Scannable(s: string) {
    DigitRun(s) < |s| ==> s[DigitRun(s)] as int < 256
  }

  /** The number text is read as, before it is cut to the width of the integer. */
  ghost function ReadHex(s: string): nat {
    var t := StripPrefix(s);
    DigitRunAllHex(t);
    HexVal(t[..DigitRun(t)])
  }

  /** Text made of digits only is read whole. */
  lemma DigitsReadWhole(s: string)
    requires AllHex(s)
    ensures Scannable(StripPrefix(s)) && ReadHex(s) == HexVal(s)
  {
    assert s[..|s|] == s;
    assert |s| >= 2 ==> HexDigit(s[1]) != -1;
    DigitRunIs(s, |s|);
  }

  /** Two digits of text are one byte of the number. */
  lemma TwoDigits(whole: nat, more: nat, rest: nat, hi: nat, lo: nat, low: nat, low': nat, w: nat)
    requires whole == more * w + low && more == 256 * rest + (16 * hi + lo)
    requires low' == low + (lo + 16 * hi) * w
    ensures whole == rest * (256 * w) + low'
  {
    MulDist(w, 256 * rest, 16 * hi + lo);
    MulAssoc(rest, 256, w);
  }
}
