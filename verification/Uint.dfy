/** The variable-length encoding of U128, U256 and U512: a length byte and that many significant bytes. */
module Uint {
  import opened Arith
  import opened Digits
  import opened Outcomes
  import opened Bytesrepr

  function Reverse(s: seq<u8>): (r: seq<u8>) {
    if s == [] then [] else Reverse(s[1..]) + [s[0]]
  }

  lemma {:induction false} ReverseAt(s: seq<u8>)
    ensures |Reverse(s)| == |s| && forall i :: 0 <= i < |s| ==> Reverse(s)[i] == s[|s| - 1 - i]
  {
    if s != [] {
      ReverseAt(s[1..]);
    }
  }

  function SkipZeros(s: seq<u8>): (r: seq<u8>) {
    if s != [] && s[0] == 0 then SkipZeros(s[1..]) else s
  }

  /** The little-endian buffer backwards without its leading zeros, the count pushed behind, and all turned round. */
  function ToBytes(v: nat, total: nat): (r: seq<u8>)
    requires total < 256
  {
    var nonZeroBytes := SkipZeros(Reverse(ToLe(v, total)));
    SkipZerosSuffix(Reverse(ToLe(v, total)));
    ReverseAt(ToLe(v, total));
    Reverse(nonZeroBytes + [|nonZeroBytes|])
  }

  function FromBytes(total: nat, bytes: seq<u8>): Decoded<nat> {
    var (numBytes, rem) :- DecodeU8(bytes);
    if numBytes > total then Err(FormattingError)
    else
      var (value, rem') :- SafeSplitAt(rem, numBytes);
      Ok((FromLe(value), rem'))
  }

  lemma {:induction false} SkipZerosSuffix(s: seq<u8>)
    ensures |SkipZeros(s)| <= |s| && SkipZeros(s) == s[|s| - |SkipZeros(s)|..]
    ensures forall i :: 0 <= i < |s| - |SkipZeros(s)| ==> s[i] == 0
    ensures SkipZeros(s) != [] ==> SkipZeros(s)[0] != 0
  {
    if s != [] && s[0] == 0 {
      SkipZerosSuffix(s[1..]);
      assert forall i :: 0 < i < |s| ==> s[i] == s[1..][i - 1];
    }
  }

  /** n is the number of significant bytes of s: the last one kept is not zero, all beyond are. */
  ghost predicate Significant(s: seq<u8>, n: nat) {
    && n <= |s|
    && (forall i :: n <= i < |s| ==> s[i] == 0)
    && (n > 0 ==> s[n - 1] != 0)
  }

  lemma SignificantUnique(s: seq<u8>, n: nat, m: nat)
    requires Significant(s, n) && Significant(s, m)
    ensures n == m
  {
  }

  /** Skipping the zeros of the buffer backwards keeps its significant bytes. */
  lemma KeptIsSignificant(buf: seq<u8>, k: nat)
    requires k == |SkipZeros(Reverse(buf))|
    ensures |Reverse(buf)| == |buf| && Significant(buf, k) && SkipZeros(Reverse(buf)) == Reverse(buf)[|buf| - k..]
  {
    var rev := Reverse(buf);
    ReverseAt(buf);
    SkipZerosSuffix(rev);
    forall i | k <= i < |buf| ensures buf[i] == 0 {
      assert rev[|buf| - 1 - i] == buf[i];
    }
    if k > 0 {
      assert SkipZeros(rev)[0] == rev[|buf| - k] == buf[k - 1];
    }
  }

  /** Turning the kept bytes and their count round puts the count in front of the significant bytes. */
  lemma TurnedRound(buf: seq<u8>, kept: seq<u8>, k: nat)
    requires |Reverse(buf)| == |buf| && k <= |buf| && kept == Reverse(buf)[|buf| - k..] && k < 256
    ensures Reverse(kept + [k]) == [k] + buf[..k]
  {
    ReverseAt(buf);
    ReverseAt(kept + [k]);
    var r := Reverse(kept + [k]);
    forall i | 0 <= i < k ensures r[i + 1] == buf[i] {
      assert r[i + 1] == kept[k - 1 - i] == Reverse(buf)[|buf| - 1 - i];
    }
  }

  /** The encoding is the count of significant bytes followed by those bytes, least significant first. */
  lemma ToBytesShape(v: nat, total: nat, n: nat)
    requires total < 256 && Significant(ToLe(v, total), n)
    ensures ToBytes(v, total) == [n] + ToLe(v, total)[..n]
  {
    var buf := ToLe(v, total);
    var kept := SkipZeros(Reverse(buf));
    KeptIsSignificant(buf, |kept|);
    SignificantUnique(buf, n, |kept|);
    TurnedRound(buf, kept, n);
  }

  lemma {:induction false} SignificantExists(s: seq<u8>) returns (n: nat)
    ensures Significant(s, n)
  {
    n := |s|;
    while n > 0 && s[n - 1] == 0
      invariant 0 <= n <= |s| && forall i :: n <= i < |s| ==> s[i] == 0
    {
      n := n - 1;
    }
  }

  lemma DropZeros(s: seq<u8>, n: nat)
    requires Significant(s, n)
    ensures FromLe(s[..n]) == FromLe(s)
  {
    assert s == s[..n] + s[n..];
    DropZerosValue(s[..n], s[n..]);
  }

  /** Decoding an encoding followed by anything gives the number back and leaves the rest. */
  lemma RoundTrip(v: nat, total: nat, rest: seq<u8>)
    requires total < 256 && v < Pow(256, total)
    ensures FromBytes(total, ToBytes(v, total) + rest) == Ok((v, rest))
  {
    var buf := ToLe(v, total);
    var n := SignificantExists(buf);
    ToBytesShape(v, total, n);
    DropZeros(buf, n);
    ToLeFromLe(v, total);
    var s := [n] + buf[..n] + rest;
    assert s[1..] == buf[..n] + rest;
    assert s[1..][..n] == buf[..n] && s[1..][n..] == rest;
  }

  /** A parsed number re-encodes to the bytes it came from exactly when their last significant byte is not zero. */
  lemma Reencodes(total: nat, bytes: seq<u8>)
    requires total < 256 && FromBytes(total, bytes).Ok?
    ensures var (v, rem) := FromBytes(total, bytes).value;
      && v < Pow(256, total)
      && (ToBytes(v, total) + rem == bytes <==> bytes[0] == 0 || bytes[bytes[0]] != 0)
  {
    var k := bytes[0];
    var value, rem := bytes[1..][..k], bytes[1..][k..];
    var v := FromLe(value);
    FromLeBound(value);
    PowMono(256, k, total);
    var buf := ToLe(v, total);
    var n := SignificantExists(buf);
    ToBytesShape(v, total, n);
    ToLeFromLe(v, total);
    PadZeros(value, total);
    assert buf == value + Zeros(total - k);
    assert bytes == [k] + value + rem;
    if k == 0 || value[k - 1] != 0 {
      SignificantUnique(buf, n, k);
      assert buf[..k] == value;
    } else {
      assert buf[k - 1] == value[k - 1] == 0;
      assert ([n] + buf[..n] + rem)[0] == n != k;
    }
  }

  function Zeros(n: nat): (z: seq<u8>)
    ensures |z| == n && forall i :: 0 <= i < n ==> z[i] == 0
  {
    seq(n, _ => 0)
  }

  lemma PadZeros(s: seq<u8>, total: nat)
    requires |s| <= total
    ensures ToLe(FromLe(s), total) == s + Zeros(total - |s|)
  {
    var z := Zeros(total - |s|);
    DropZerosValue(s, z);
    FromLeToLe(s + z);
  }

  lemma DropZerosValue(s: seq<u8>, z: seq<u8>)
    requires forall i :: 0 <= i < |z| ==> z[i] == 0
    ensures FromLe(s + z) == FromLe(s)
  {
    FromLeIsValue(s);
    FromLeIsValue(s + z);
    ValueConcat(s, z, 256);
    ValueZeros(z, 256);
  }
}
