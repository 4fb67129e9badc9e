/**
  The byte format: an encoder and a decoder for each type, and the laws that tie them together.
  A decoder returns the value and the bytes it did not consume.
 */
module Bytesrepr {
  import opened Arith
  import opened Digits
  import opened Outcomes

  type u8 = x: nat | x < 256

  const U32_BOUND: nat := 0x1_0000_0000
  const U64_BOUND: nat := 0x1_0000_0000_0000_0000

  datatype Error = EarlyEndOfStream | FormattingError | LeftOverBytes | OutOfMemoryError

  type Encoded = Result<seq<u8>, Error>
  type Decoded<T> = Result<(T, seq<u8>), Error>

  datatype Codec<!T> = Codec(enc: T -> Encoded, dec: seq<u8> -> Decoded<T>)

  lemma ConcatAssoc(a: seq<u8>, b: seq<u8>, c: seq<u8>)
    ensures (a + b) + c == a + (b + c)
  {
  }

  // ----- the laws -----

  /** Decoding an encoding followed by anything gives the value back and leaves the rest. */
  ghost predicate RoundTrips<T>(c: Codec<T>, x: T, rest: seq<u8>) {
    c.enc(x).Ok? ==> c.dec(c.enc(x).value + rest) == Ok((x, rest))
  }

  ghost predicate Lawful<T(!new)>(c: Codec<T>) {
    forall x, rest :: RoundTrips(c, x, rest)
  }

  /** A successful parse consumed exactly the encoding of what it returned, if that value can be encoded. */
  ghost predicate Reencodes<T>(c: Codec<T>, bytes: seq<u8>) {
    c.dec(bytes).Ok? && c.enc(c.dec(bytes).value.0).Ok? ==>
      c.enc(c.dec(bytes).value.0).value + c.dec(bytes).value.1 == bytes
  }

  ghost predicate Canonical<T(!new)>(c: Codec<T>) {
    forall bytes :: Reencodes(c, bytes)
  }

  /** Decodes a whole buffer: left-over bytes are an error. */
  function Deserialize<T>(c: Codec<T>, bytes: seq<u8>): Result<T, Error> {
    var (t, remainder) :- c.dec(bytes);
    if remainder == [] then Ok(t) else Err(LeftOverBytes)
  }

  lemma DeserializeInverts<T(!new)>(c: Codec<T>, x: T)
    requires Lawful(c) && c.enc(x).Ok?
    ensures Deserialize(c, c.enc(x).value) == Ok(x)
  {
    assert RoundTrips(c, x, []);
    assert c.enc(x).value + [] == c.enc(x).value;
  }

  /** No encoding is a proper prefix of another: a lawful format is self-delimiting. */
  lemma PrefixFree<T(!new)>(c: Codec<T>, x: T, y: T, rest: seq<u8>)
    requires Lawful(c) && c.enc(x).Ok? && c.enc(y).Ok? && c.enc(y).value == c.enc(x).value + rest
    ensures x == y && rest == []
  {
    assert RoundTrips(c, x, rest);
    assert RoundTrips(c, y, []);
    assert c.enc(y).value + [] == c.enc(y).value;
  }

  // ----- fixed-width integers -----

  function SafeSplitAt(bytes: seq<u8>, n: nat): Result<(seq<u8>, seq<u8>), Error> {
    if n > |bytes| then Err(EarlyEndOfStream) else Ok((bytes[..n], bytes[n..]))
  }

  /** The number a byte sequence denotes, least significant byte first. */
  function FromLe(s: seq<u8>): (v: nat) {
    if s == [] then 0 else s[0] + 256 * FromLe(s[1..])
  }

  lemma {:induction false} FromLeIsValue(s: seq<u8>)
    ensures FromLe(s) == Value(s, 256)
  {
    if s != [] {
      FromLeIsValue(s[1..]);
      assert s == [s[0]] + s[1..];
      ValueConcat([s[0]], s[1..], 256);
      ValueSnoc([], s[0], 256);
      assert [] + [s[0]] == [s[0]];
      assert Pow(256, 1) == 256 * Pow(256, 0) == 256;
    }
  }

  lemma FromLeBound(s: seq<u8>)
    ensures FromLe(s) < Pow(256, |s|)
  {
    FromLeIsValue(s);
    ValueBound(s, 256);
  }

  function ToLe(v: nat, n: nat): (s: seq<u8>)
    ensures |s| == n
  {
    DigitsOf(v, n, 256)
  }

  lemma ToLeFromLe(v: nat, n: nat)
    requires v < Pow(256, n)
    ensures FromLe(ToLe(v, n)) == v
  {
    FromLeIsValue(ToLe(v, n));
    DigitsOfValue(v, n, 256);
    ModSmall(v, Pow(256, n));
  }

  lemma FromLeToLe(s: seq<u8>)
    ensures ToLe(FromLe(s), |s|) == s
  {
    FromLeBound(s);
    ToLeFromLe(FromLe(s), |s|);
    FromLeIsValue(s);
    FromLeIsValue(ToLe(FromLe(s), |s|));
    ValueInjective(ToLe(FromLe(s), |s|), s, 256);
  }

  function DecodeUnsigned(n: nat, bytes: seq<u8>): Decoded<nat> {
    var (head, rem) :- SafeSplitAt(bytes, n);
    Ok((FromLe(head), rem))
  }

  /** Decoding what an n-byte write left of x: x itself, cut to n bytes. */
  lemma UnsignedRoundTrip(n: nat, x: nat, rest: seq<u8>)
    ensures DecodeUnsigned(n, ToLe(x, n) + rest) == Ok((x % Pow(256, n), rest))
  {
    var s := ToLe(x, n);
    assert (s + rest)[..n] == s && (s + rest)[n..] == rest;
    FromLeIsValue(s);
    DigitsOfValue(x, n, 256);
  }

  lemma UnsignedReencodes(n: nat, bytes: seq<u8>)
    requires DecodeUnsigned(n, bytes).Ok?
    ensures var (v, rem) := DecodeUnsigned(n, bytes).value;
      v < Pow(256, n) && ToLe(v, n) + rem == bytes
  {
    FromLeToLe(bytes[..n]);
    FromLeBound(bytes[..n]);
  }

  // ----- scalars -----

  type u32 = x: nat | x < U32_BOUND
  type u64 = x: nat | x < U64_BOUND

  lemma Pow256()
    ensures Pow(256, 1) == 256 && Pow(256, 4) == U32_BOUND && Pow(256, 8) == U64_BOUND
  {
    PowAdd(256, 4, 4);
  }

  function DecodeU8(bytes: seq<u8>): Decoded<u8> {
    if bytes == [] then Err(EarlyEndOfStream) else Ok((bytes[0], bytes[1..]))
  }

  function U8Codec(): Codec<u8> {
    Codec((x: u8) => Ok([x]), DecodeU8)
  }

  function BoolCodec(): Codec<bool> {
    Codec((x: bool) => Ok([if x then 1 else 0]),
          (bytes: seq<u8>) =>
            if bytes == [] then Err(EarlyEndOfStream)
            else if bytes[0] == 1 then Ok((true, bytes[1..]))
            else if bytes[0] == 0 then Ok((false, bytes[1..]))
            else Err(FormattingError))
  }

  function DecodeU32(bytes: seq<u8>): Decoded<u32> {
    var (v, rem) :- DecodeUnsigned(4, bytes);
    UnsignedReencodes(4, bytes);
    Pow256();
    Ok((v, rem))
  }

  function U32Codec(): Codec<u32> {
    Codec((x: u32) => Ok(ToLe(x, 4)), DecodeU32)
  }

  function DecodeU64(bytes: seq<u8>): Decoded<u64> {
    var (v, rem) :- DecodeUnsigned(8, bytes);
    UnsignedReencodes(8, bytes);
    Pow256();
    Ok((v, rem))
  }

  function U64Codec(): Codec<u64> {
    Codec((x: u64) => Ok(ToLe(x, 8)), DecodeU64)
  }

  lemma ScalarsLawful()
    ensures Lawful(U8Codec()) && Canonical(U8Codec())
    ensures Lawful(BoolCodec()) && Canonical(BoolCodec())
    ensures Lawful(U32Codec()) && Canonical(U32Codec())
    ensures Lawful(U64Codec()) && Canonical(U64Codec())
  {
    forall x: u32, rest: seq<u8> ensures RoundTrips(U32Codec(), x, rest) {
      UnsignedRoundTrip(4, x, rest);
      Pow256();
      ModSmall(x, U32_BOUND);
    }
    forall x: u64, rest: seq<u8> ensures RoundTrips(U64Codec(), x, rest) {
      UnsignedRoundTrip(8, x, rest);
      Pow256();
      ModSmall(x, U64_BOUND);
    }
    forall bytes: seq<u8> ensures Reencodes(U32Codec(), bytes) && Reencodes(U64Codec(), bytes) {
      if |bytes| >= 4 { UnsignedReencodes(4, bytes); }
      if |bytes| >= 8 { UnsignedReencodes(8, bytes); }
    }
  }

  // ----- containers -----

  function EncodePair<A, B>(a: Codec<A>, b: Codec<B>, x: (A, B)): Encoded {
    var l :- a.enc(x.0);
    var r :- b.enc(x.1);
    Ok(l + r)
  }

  function DecodePair<A, B>(a: Codec<A>, b: Codec<B>, bytes: seq<u8>): Decoded<(A, B)> {
    var (l, rem) :- a.dec(bytes);
    var (r, rem') :- b.dec(rem);
    Ok(((l, r), rem'))
  }

  /** A tuple of two; a tuple of three is a pair whose second part is a pair. */
  function PairCodec<A, B>(a: Codec<A>, b: Codec<B>): Codec<(A, B)> {
    Codec(x => EncodePair(a, b, x), bytes => DecodePair(a, b, bytes))
  }

  lemma PairLawful<A(!new), B(!new)>(a: Codec<A>, b: Codec<B>)
    requires Lawful(a) && Lawful(b)
    ensures Lawful(PairCodec(a, b))
    ensures Canonical(a) && Canonical(b) ==> Canonical(PairCodec(a, b))
  {
    forall x: (A, B), rest: seq<u8> ensures RoundTrips(PairCodec(a, b), x, rest) {
      if a.enc(x.0).Ok? && b.enc(x.1).Ok? {
        var l, r := a.enc(x.0).value, b.enc(x.1).value;
        assert RoundTrips(a, x.0, r + rest) && RoundTrips(b, x.1, rest);
        assert (l + r) + rest == l + (r + rest);
      }
    }
    if Canonical(a) && Canonical(b) {
      forall bytes: seq<u8> ensures Reencodes(PairCodec(a, b), bytes) {
        assert Reencodes(a, bytes);
        if a.dec(bytes).Ok? {
          assert Reencodes(b, a.dec(bytes).value.1);
        }
      }
    }
  }

  function EncodeOption<T>(c: Codec<T>, x: Option<T>): Encoded {
    match x
    case None => Ok([0])
    case Some(v) =>
      var value :- c.enc(v);
      if |value| >= U32_BOUND - 2 then Err(OutOfMemoryError) else Ok([1] + value)
  }

  function DecodeOption<T>(c: Codec<T>, bytes: seq<u8>): Decoded<Option<T>> {
    var (tag, rem) :- DecodeU8(bytes);
    if tag == 0 then Ok((None, rem))
    else if tag == 1 then
      var (t, rem') :- c.dec(rem);
      Ok((Some(t), rem'))
    else Err(FormattingError)
  }

  function OptionCodec<T>(c: Codec<T>): Codec<Option<T>> {
    Codec(x => EncodeOption(c, x), bytes => DecodeOption(c, bytes))
  }

  lemma OptionLawful<T(!new)>(c: Codec<T>)
    requires Lawful(c)
    ensures Lawful(OptionCodec(c))
    ensures Canonical(c) ==> Canonical(OptionCodec(c))
  {
    forall x: Option<T>, rest: seq<u8> ensures RoundTrips(OptionCodec(c), x, rest) {
      if x.Some? && c.enc(x.value).Ok? {
        assert RoundTrips(c, x.value, rest);
        TagSplit(1, c.enc(x.value).value, rest);
      } else {
        TagSplit(0, [], rest);
      }
    }
    if Canonical(c) {
      forall bytes: seq<u8> ensures Reencodes(OptionCodec(c), bytes) {
        if bytes != [] {
          assert Reencodes(c, bytes[1..]);
          assert bytes == [bytes[0]] + bytes[1..];
        }
      }
    }
  }

  lemma TagSplit(tag: u8, body: seq<u8>, rest: seq<u8>)
    ensures var s := [tag] + body + rest; s[0] == tag && s[1..] == body + rest && [tag] + (body + rest) == s
  {
  }

  function EncodeResult<T, E>(c: Codec<T>, e: Codec<E>, x: Result<T, E>): Encoded {
    match x
    case Ok(v) => var value :- c.enc(v); Ok([1] + value)
    case Err(v) => var value :- e.enc(v); Ok([0] + value)
  }

  function DecodeResult<T, E>(c: Codec<T>, e: Codec<E>, bytes: seq<u8>): Decoded<Result<T, E>> {
    var (variant, rem) :- DecodeU8(bytes);
    if variant == 0 then
      var (v, rem') :- e.dec(rem);
      Ok((Err(v), rem'))
    else if variant == 1 then
      var (v, rem') :- c.dec(rem);
      Ok((Ok(v), rem'))
    else Err(FormattingError)
  }

  function ResultCodec<T, E>(c: Codec<T>, e: Codec<E>): Codec<Result<T, E>> {
    Codec(x => EncodeResult(c, e, x), bytes => DecodeResult(c, e, bytes))
  }

  lemma ResultLawful<T(!new), E(!new)>(c: Codec<T>, e: Codec<E>)
    requires Lawful(c) && Lawful(e)
    ensures Lawful(ResultCodec(c, e))
    ensures Canonical(c) && Canonical(e) ==> Canonical(ResultCodec(c, e))
  {
    forall x: Result<T, E>, rest: seq<u8> ensures RoundTrips(ResultCodec(c, e), x, rest) {
      match x
      case Ok(v) =>
        assert RoundTrips(c, v, rest);
        if c.enc(v).Ok? { TagSplit(1, c.enc(v).value, rest); }
      case Err(v) =>
        assert RoundTrips(e, v, rest);
        if e.enc(v).Ok? { TagSplit(0, e.enc(v).value, rest); }
    }
    if Canonical(c) && Canonical(e) {
      forall bytes: seq<u8> ensures Reencodes(ResultCodec(c, e), bytes) {
        if bytes != [] {
          assert Reencodes(c, bytes[1..]) && Reencodes(e, bytes[1..]);
          assert bytes == [bytes[0]] + bytes[1..];
        }
      }
    }
  }

  // ----- vectors -----

  function EncodeItems<T>(c: Codec<T>, xs: seq<T>): Encoded {
    if xs == [] then Ok([])
    else
      var head :- c.enc(xs[0]);
      var tail :- EncodeItems(c, xs[1..]);
      Ok(head + tail)
  }

  /** count items, one after the other. */
  function DecodeItems<T>(c: Codec<T>, count: nat, bytes: seq<u8>): (r: Decoded<seq<T>>)
    ensures r.Ok? ==> |r.value.0| == count
    decreases count
  {
    if count == 0 then Ok(([], bytes))
    else
      var (head, rem) :- c.dec(bytes);
      var (tail, rem') :- DecodeItems(c, count - 1, rem);
      Ok(([head] + tail, rem'))
  }

  lemma {:induction false} ItemsRoundTrip<T(!new)>(c: Codec<T>, xs: seq<T>, rest: seq<u8>)
    requires Lawful(c) && EncodeItems(c, xs).Ok?
    ensures DecodeItems(c, |xs|, EncodeItems(c, xs).value + rest) == Ok((xs, rest))
    decreases |xs|
  {
    if xs == [] {
      assert [] + rest == rest;
    } else {
      var head, tail := c.enc(xs[0]).value, EncodeItems(c, xs[1..]).value;
      assert RoundTrips(c, xs[0], tail + rest);
      assert (head + tail) + rest == head + (tail + rest);
      ItemsRoundTrip(c, xs[1..], rest);
      assert [xs[0]] + xs[1..] == xs;
    }
  }

  lemma {:induction false} ItemsReencode<T(!new)>(c: Codec<T>, count: nat, bytes: seq<u8>)
    requires Canonical(c) && DecodeItems(c, count, bytes).Ok?
    requires EncodeItems(c, DecodeItems(c, count, bytes).value.0).Ok?
    ensures EncodeItems(c, DecodeItems(c, count, bytes).value.0).value + DecodeItems(c, count, bytes).value.1 == bytes
    decreases count
  {
    if count > 0 {
      assert Reencodes(c, bytes);
      var (head, rem) := c.dec(bytes).value;
      var (tail, rem') := DecodeItems(c, count - 1, rem).value;
      assert ([head] + tail)[1..] == tail;
      ItemsReencode(c, count - 1, rem);
    }
  }

  /** A vector: its length as a u32, cut if it does not fit, then the items. */
  function EncodeVec<T>(c: Codec<T>, xs: seq<T>): Encoded {
    var items :- EncodeItems(c, xs);
    Ok(ToLe(|xs|, 4) + items)
  }

  function DecodeVec<T>(c: Codec<T>, bytes: seq<u8>): Decoded<seq<T>> {
    var (count, rem) :- DecodeU32(bytes);
    DecodeItems(c, count, rem)
  }

  function VecCodec<T>(c: Codec<T>): Codec<seq<T>> {
    Codec(xs => EncodeVec(c, xs), bytes => DecodeVec(c, bytes))
  }

  /** The decoder as the sources write it: a loop over the remaining slice. */
  method DecodeVecLoop<T>(c: Codec<T>, bytes: seq<u8>) returns (r: Decoded<seq<T>>)
    ensures r == DecodeVec(c, bytes)
  {
    var header :- DecodeU32(bytes);
    var size, stream := header.0, header.1;
    ghost var all := stream;
    var result: seq<T> := [];
    ghost var items := DecodeItems(c, size, all);
    assert items.Ok? ==> [] + items.value.0 == items.value.0;
    for i := 0 to size
      invariant |result| == i
      invariant items == Appended(result, DecodeItems(c, size - i, stream))
    {
      var item :- c.dec(stream);
      ghost var after := DecodeItems(c, size - i - 1, item.1);
      if after.Ok? {
        assert result + ([item.0] + after.value.0) == (result + [item.0]) + after.value.0;
      }
      result := result + [item.0];
      stream := item.1;
    }
    r := Ok((result, stream));
    assert result + [] == result;
  }

  ghost function Appended<T>(prefix: seq<T>, r: Decoded<seq<T>>): Decoded<seq<T>> {
    if r.Ok? then Ok((prefix + r.value.0, r.value.1)) else r
  }

  /** A decoded vector has as many items as the length prefix says: the length written, modulo 2^32. */
  lemma VecCount<T>(c: Codec<T>, xs: seq<T>, rest: seq<u8>)
    requires EncodeItems(c, xs).Ok?
    ensures var bytes := EncodeVec(c, xs).value + rest;
      DecodeVec(c, bytes) == DecodeItems(c, |xs| % U32_BOUND, EncodeItems(c, xs).value + rest)
  {
    var items := EncodeItems(c, xs).value;
    assert (ToLe(|xs|, 4) + items) + rest == ToLe(|xs|, 4) + (items + rest);
    UnsignedRoundTrip(4, |xs|, items + rest);
    Pow256();
  }

  /** Vectors round trip exactly when their length fits the u32 prefix. */
  lemma VecRoundTrip<T(!new)>(c: Codec<T>, xs: seq<T>, rest: seq<u8>)
    requires Lawful(c) && EncodeItems(c, xs).Ok?
    ensures DecodeVec(c, EncodeVec(c, xs).value + rest) == Ok((xs, rest)) <==> |xs| < U32_BOUND
  {
    VecCount(c, xs, rest);
    if |xs| < U32_BOUND {
      ModSmall(|xs|, U32_BOUND);
      ItemsRoundTrip(c, xs, rest);
    }
  }

  lemma VecReencodes<T(!new)>(c: Codec<T>, bytes: seq<u8>)
    requires Canonical(c)
    ensures Reencodes(VecCodec(c), bytes)
  {
    if DecodeVec(c, bytes).Ok? && EncodeVec(c, DecodeVec(c, bytes).value.0).Ok? {
      var (count, rem) := DecodeU32(bytes).value;
      UnsignedReencodes(4, bytes);
      ItemsReencode(c, count, rem);
    }
  }

  // ----- byte vectors -----

  function EncodeByteVec(x: seq<u8>): Encoded {
    if |x| >= U32_BOUND - 1 - 4 then Err(OutOfMemoryError) else Ok(ToLe(|x|, 4) + x)
  }

  function DecodeByteVec(bytes: seq<u8>): Decoded<seq<u8>> {
    var (size, rem) :- DecodeU32(bytes);
    SafeSplitAt(rem, size)
  }

  function ByteVecCodec(): Codec<seq<u8>> {
    Codec(EncodeByteVec, DecodeByteVec)
  }

  lemma ByteVecLawful()
    ensures Lawful(ByteVecCodec()) && Canonical(ByteVecCodec())
  {
    forall x: seq<u8>, rest: seq<u8> ensures RoundTrips(ByteVecCodec(), x, rest) {
      assert (ToLe(|x|, 4) + x) + rest == ToLe(|x|, 4) + (x + rest);
      UnsignedRoundTrip(4, |x|, x + rest);
      Pow256();
      if |x| < U32_BOUND { ModSmall(|x|, U32_BOUND); }
    }
    forall bytes: seq<u8> ensures Reencodes(ByteVecCodec(), bytes) {
      if |bytes| >= 4 { UnsignedReencodes(4, bytes); }
    }
  }

  // ----- maps -----

  ghost predicate StrictOrder<K(!new)>(lt: (K, K) -> bool) {
    && (forall x :: !lt(x, x))
    && (forall x, y, z :: lt(x, y) && lt(y, z) ==> lt(x, z))
    && (forall x, y :: lt(x, y) || x == y || lt(y, x))
  }

  /** The entries of an ordered map, in key order. */
  ghost predicate Ascending<K, V>(lt: (K, K) -> bool, m: seq<(K, V)>) {
    forall i, j :: 0 <= i < j < |m| ==> lt(m[i].0, m[j].0)
  }

  /** Insertion into an ordered map: a present key gets the new value. */
  function Insert<K(==), V>(lt: (K, K) -> bool, m: seq<(K, V)>, k: K, v: V): (r: seq<(K, V)>)
    ensures |r| <= |m| + 1
  {
    if m == [] then [(k, v)]
    else if m[0].0 == k then [(k, v)] + m[1..]
    else if lt(k, m[0].0) then [(k, v)] + m
    else [m[0]] + Insert(lt, m[1..], k, v)
  }

  /** The ordered map that inserting the pairs one after the other builds. */
  function MapOf<K(==), V>(lt: (K, K) -> bool, ps: seq<(K, V)>): (m: seq<(K, V)>)
    ensures |m| <= |ps|
  {
    if ps == [] then [] else
      var last := ps[|ps| - 1];
      Insert(lt, MapOf(lt, ps[..|ps| - 1]), last.0, last.1)
  }

  function EncodeMap<K(==), V>(k: Codec<K>, v: Codec<V>, m: seq<(K, V)>): Encoded {
    EncodeVec(PairCodec(k, v), m)
  }

  function DecodeMap<K(==), V>(lt: (K, K) -> bool, k: Codec<K>, v: Codec<V>, bytes: seq<u8>): Decoded<seq<(K, V)>> {
    var (ps, rem) :- DecodeVec(PairCodec(k, v), bytes);
    Ok((MapOf(lt, ps), rem))
  }

  lemma {:induction false} InsertAscending<K(!new), V>(lt: (K, K) -> bool, m: seq<(K, V)>, k: K, v: V)
    requires StrictOrder(lt) && Ascending(lt, m)
    ensures Ascending(lt, Insert(lt, m, k, v))
    ensures forall p :: p in Insert(lt, m, k, v) ==> p == (k, v) || p in m
  {
    if m != [] && m[0].0 != k && !lt(k, m[0].0) {
      InsertAscending(lt, m[1..], k, v);
      var r := Insert(lt, m[1..], k, v);
      forall j | 0 <= j < |r| ensures lt(m[0].0, r[j].0) {
        assert r[j] in r;
      }
    }
  }

  lemma {:induction false} InsertLast<K(!new), V>(lt: (K, K) -> bool, m: seq<(K, V)>, k: K, v: V)
    requires StrictOrder(lt) && forall i :: 0 <= i < |m| ==> lt(m[i].0, k)
    ensures Insert(lt, m, k, v) == m + [(k, v)]
  {
    if m != [] {
      assert lt(m[0].0, k);
      InsertLast(lt, m[1..], k, v);
    }
  }

  /** Building a map from pairs changes nothing exactly when the keys already ascend. */
  lemma {:induction false} MapOfFixed<K(!new), V>(lt: (K, K) -> bool, ps: seq<(K, V)>)
    requires StrictOrder(lt)
    ensures Ascending(lt, MapOf(lt, ps))
    ensures MapOf(lt, ps) == ps <==> Ascending(lt, ps)
  {
    if ps != [] {
      var n := |ps| - 1;
      MapOfFixed(lt, ps[..n]);
      InsertAscending(lt, MapOf(lt, ps[..n]), ps[n].0, ps[n].1);
      if Ascending(lt, ps) {
        InsertLast(lt, ps[..n], ps[n].0, ps[n].1);
        assert ps == ps[..n] + [ps[n]];
      }
    }
  }

  /** Ordered maps round trip exactly when their size fits the u32 prefix. */
  lemma MapRoundTrip<K(!new), V(!new)>(lt: (K, K) -> bool, k: Codec<K>, v: Codec<V>, m: seq<(K, V)>, rest: seq<u8>)
    requires StrictOrder(lt) && Ascending(lt, m) && Lawful(k) && Lawful(v) && EncodeMap(k, v, m).Ok?
    ensures DecodeMap(lt, k, v, EncodeMap(k, v, m).value + rest) == Ok((m, rest)) <==> |m| < U32_BOUND
  {
    PairLawful(k, v);
    VecCount(PairCodec(k, v), m, rest);
    VecRoundTrip(PairCodec(k, v), m, rest);
    MapOfFixed(lt, m);
  }

  /** A parsed map re-encodes to the bytes it came from exactly when their keys ascended. */
  lemma MapReencodes<K(!new), V(!new)>(lt: (K, K) -> bool, k: Codec<K>, v: Codec<V>, bytes: seq<u8>)
    requires StrictOrder(lt) && Lawful(k) && Lawful(v) && Canonical(k) && Canonical(v)
    requires DecodeMap(lt, k, v, bytes).Ok?
    requires var ps := DecodeVec(PairCodec(k, v), bytes).value.0;
      EncodeMap(k, v, ps).Ok? && EncodeMap(k, v, MapOf(lt, ps)).Ok?
    ensures var ps := DecodeVec(PairCodec(k, v), bytes).value.0;
      var (m, rem) := DecodeMap(lt, k, v, bytes).value;
      EncodeMap(k, v, m).value + rem == bytes <==> Ascending(lt, ps)
  {
    var c := PairCodec(k, v);
    var (ps, rem) := DecodeVec(c, bytes).value;
    var m := MapOf(lt, ps);
    PairLawful(k, v);
    VecReencodes(c, bytes);
    assert Reencodes(VecCodec(c), bytes);
    MapOfFixed(lt, ps);
    VecRoundTrip(c, ps, rem);
    VecRoundTrip(c, m, rem);
  }
}
