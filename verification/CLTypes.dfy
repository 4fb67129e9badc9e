/** The self-describing type language of stored values, its prefix encoding and its parser. */
module CLTypes {
  import opened Outcomes
  import opened Bytesrepr

  datatype CLType =
    | Bool | I32 | I64 | U8 | U32 | U64 | U128 | U256 | U512 | Unit | String | Key | URef
    | Opt(inner: CLType)
    | List(inner: CLType)
    | FixedList(inner: CLType, len: u32)
    | Res(ok: CLType, err: CLType)
    | Map(key: CLType, value: CLType)
    | Tuple1(t1: CLType)
    | Tuple2(t1: CLType, t2: CLType)
    | Tuple3(t1: CLType, t2: CLType, t3: CLType)
    | Any

  function Tag(t: CLType): (tag: u8) {
    match t
    case Bool => 0 case I32 => 1 case I64 => 2 case U8 => 3 case U32 => 4 case U64 => 5
    case U128 => 6 case U256 => 7 case U512 => 8 case Unit => 9 case String => 10
    case Key => 11 case URef => 12 case Opt(_) => 13 case List(_) => 14 case FixedList(_, _) => 15
    case Res(_, _) => 16 case Map(_, _) => 17
    case Tuple1(_) => 18 case Tuple2(_, _) => 19 case Tuple3(_, _, _) => 20 case Any => 21
  }

  /** The component types, in the order they are written. */
  function Parts(t: CLType): (ps: seq<CLType>)
    ensures forall p :: p in ps ==> p < t
  {
    match t
    case Opt(a) => [a]
    case List(a) => [a]
    case FixedList(a, _) => [a]
    case Res(a, b) => [a, b]
    case Map(a, b) => [a, b]
    case Tuple1(a) => [a]
    case Tuple2(a, b) => [a, b]
    case Tuple3(a, b, c) => [a, b, c]
    case _ => []
  }

  /** Appends the encoding to a stream: the tag, then the component types, then the length of a fixed list. */
  function AppendBytes(t: CLType, stream: seq<u8>): (r: seq<u8>)
    decreases t, 1
  {
    var s := AppendAll(Parts(t), stream + [Tag(t)], t);
    if t.FixedList? then s + ToLe(t.len, 4) else s
  }

  function AppendAll(ts: seq<CLType>, stream: seq<u8>, ghost bound: CLType): (r: seq<u8>)
    requires forall i :: 0 <= i < |ts| ==> ts[i] < bound
    decreases bound, 0, |ts|
  {
    if ts == [] then stream else AppendAll(ts[1..], AppendBytes(ts[0], stream), bound)
  }

  /** The length of the encoding, computed without encoding. */
  function SerializedLen(t: CLType): (n: nat)
    decreases t, 1
  {
    1 + SerializedLenAll(Parts(t), t) + (if t.FixedList? then 4 else 0)
  }

  function SerializedLenAll(ts: seq<CLType>, ghost bound: CLType): (n: nat)
    requires forall i :: 0 <= i < |ts| ==> ts[i] < bound
    decreases bound, 0, |ts|
  {
    if ts == [] then 0 else SerializedLen(ts[0]) + SerializedLenAll(ts[1..], bound)
  }

  /** How many component types follow a tag. */
  function Arity(tag: u8): (n: nat) {
    if tag <= 12 || tag >= 21 then 0
    else if tag <= 15 || tag == 18 then 1
    else if tag == 20 then 3
    else 2
  }

  function Build(tag: u8, ps: seq<CLType>, len: u32): (t: CLType)
    requires tag <= 21 && |ps| == Arity(tag)
    ensures Tag(t) == tag && Parts(t) == ps && (t.FixedList? ==> t.len == len)
  {
    match tag
    case 0 => Bool case 1 => I32 case 2 => I64 case 3 => U8 case 4 => U32 case 5 => U64
    case 6 => U128 case 7 => U256 case 8 => U512 case 9 => Unit case 10 => String
    case 11 => Key case 12 => URef
    case 13 => Opt(ps[0])
    case 14 => List(ps[0])
    case 15 => FixedList(ps[0], len)
    case 16 => Res(ps[0], ps[1])
    case 17 => Map(ps[0], ps[1])
    case 18 => Tuple1(ps[0])
    case 19 => Tuple2(ps[0], ps[1])
    case 20 => Tuple3(ps[0], ps[1], ps[2])
    case _ => Any
  }

  /** Parses one type. Every parse consumes at least its tag, so nesting ends with the input. */
  function FromBytes(bytes: seq<u8>): (r: Decoded<CLType>)
    ensures r.Ok? ==> |r.value.1| < |bytes|
    decreases |bytes|, 4
  {
    var (tag, remainder) :- DecodeU8(bytes);
    if tag > 21 then Err(FormattingError)
    else
      var (ps, remainder) :- ParseTypes(Arity(tag), remainder);
      if tag == 15 then
        var (len, remainder) :- DecodeU32(remainder);
        Ok((Build(tag, ps, len), remainder))
      else Ok((Build(tag, ps, 0), remainder))
  }

  function ParseTypes(count: nat, bytes: seq<u8>): (r: Decoded<seq<CLType>>)
    requires count <= 3
    ensures r.Ok? ==> |r.value.0| == count && |r.value.1| <= |bytes|
    decreases |bytes| + 1, count
  {
    if count == 0 then Ok(([], bytes))
    else
      var (t, remainder) :- FromBytes(bytes);
      var (ts, remainder) :- ParseTypes(count - 1, remainder);
      Ok(([t] + ts, remainder))
  }

  /** The encoding by itself: the tag, the encodings of the parts, and the length of a fixed list. */
  function Encode(t: CLType): (r: seq<u8>)
    decreases t, 1
  {
    [Tag(t)] + (EncodeAll(Parts(t), t) + Suffix(t))
  }

  function EncodeAll(ts: seq<CLType>, ghost bound: CLType): (r: seq<u8>)
    requires forall i :: 0 <= i < |ts| ==> ts[i] < bound
    decreases bound, 0, |ts|
  {
    if ts == [] then [] else Encode(ts[0]) + EncodeAll(ts[1..], bound)
  }

  function Suffix(t: CLType): (r: seq<u8>) {
    if t.FixedList? then ToLe(t.len, 4) else []
  }

  /** Appending to a stream adds the encoding and leaves what is already there alone. */
  lemma {:induction false} AppendOnto(t: CLType, stream: seq<u8>)
    ensures AppendBytes(t, stream) == stream + Encode(t)
    decreases t, 1
  {
    AppendAllOnto(Parts(t), stream + [Tag(t)], t);
    AppendShape(t, stream, EncodeAll(Parts(t), t));
  }

  lemma AppendShape(t: CLType, stream: seq<u8>, all: seq<u8>)
    ensures stream + [Tag(t)] + all + Suffix(t) == stream + ([Tag(t)] + (all + Suffix(t)))
    ensures !t.FixedList? ==> stream + [Tag(t)] + all + Suffix(t) == stream + [Tag(t)] + all
  {
    ConcatAssoc(stream + [Tag(t)], all, Suffix(t));
    ConcatAssoc(stream, [Tag(t)], all + Suffix(t));
    assert forall s: seq<u8> :: s + [] == s;
  }

  lemma {:induction false} AppendAllOnto(ts: seq<CLType>, stream: seq<u8>, bound: CLType)
    requires forall i :: 0 <= i < |ts| ==> ts[i] < bound
    ensures AppendAll(ts, stream, bound) == stream + EncodeAll(ts, bound)
    decreases bound, 0, |ts|
  {
    if ts != [] {
      AppendOnto(ts[0], stream);
      AppendAllOnto(ts[1..], AppendBytes(ts[0], stream), bound);
      ConcatAssoc(stream, Encode(ts[0]), EncodeAll(ts[1..], bound));
    }
  }

  /** The cheap length is the length of the encoding. */
  lemma {:induction false} SerializedLenCorrect(t: CLType)
    ensures SerializedLen(t) == |Encode(t)|
    decreases t, 1
  {
    SerializedLenAllCorrect(Parts(t), t);
  }

  lemma {:induction false} SerializedLenAllCorrect(ts: seq<CLType>, bound: CLType)
    requires forall i :: 0 <= i < |ts| ==> ts[i] < bound
    ensures SerializedLenAll(ts, bound) == |EncodeAll(ts, bound)|
    decreases bound, 0, |ts|
  {
    if ts != [] {
      SerializedLenCorrect(ts[0]);
      SerializedLenAllCorrect(ts[1..], bound);
    }
  }

  /** A type is determined by its tag, its parts and the length of a fixed list. */
  lemma BuildInverts(t: CLType)
    ensures Tag(t) <= 21 && |Parts(t)| == Arity(Tag(t)) <= 3 && (Tag(t) == 15 <==> t.FixedList?)
    ensures Build(Tag(t), Parts(t), if t.FixedList? then t.len else 0) == t
  {
  }

  /** One parse step: once the parts are read, only the length of a fixed list is left. */
  lemma ParseStep(tag: u8, ps: seq<CLType>, len: u32, bytes: seq<u8>, rem: seq<u8>, rest: seq<u8>)
    requires tag <= 21 && bytes != [] && bytes[0] == tag && ParseTypes(Arity(tag), bytes[1..]) == Ok((ps, rem))
    requires if tag == 15 then DecodeU32(rem) == Ok((len, rest)) else len == 0 && rest == rem
    ensures FromBytes(bytes) == Ok((Build(tag, ps, len), rest))
  {
  }

  /** Parsing an encoding followed by anything gives the type back and leaves the rest. */
  lemma {:induction false} ParseInvertsEncode(t: CLType, rest: seq<u8>)
    ensures FromBytes(Encode(t) + rest) == Ok((t, rest))
    decreases t, 1
  {
    var parts, suffix := EncodeAll(Parts(t), t), Suffix(t);
    BuildInverts(t);
    ParseTypesInverts(Parts(t), suffix + rest, t);
    SuffixParses(t, rest);
    TagSplit(Tag(t), parts + suffix, rest);
    ConcatAssoc(parts, suffix, rest);
    ParseStep(Tag(t), Parts(t), if t.FixedList? then t.len else 0, Encode(t) + rest, suffix + rest, rest);
  }

  lemma SuffixParses(t: CLType, rest: seq<u8>)
    ensures if t.FixedList? then DecodeU32(Suffix(t) + rest) == Ok((t.len, rest)) else Suffix(t) + rest == rest
  {
    if t.FixedList? {
      ScalarsLawful();
      assert RoundTrips(U32Codec(), t.len, rest);
    }
  }

  lemma {:induction false} ParseTypesInverts(ts: seq<CLType>, rest: seq<u8>, bound: CLType)
    requires |ts| <= 3 && forall i :: 0 <= i < |ts| ==> ts[i] < bound
    ensures ParseTypes(|ts|, EncodeAll(ts, bound) + rest) == Ok((ts, rest))
    decreases bound, 0, |ts|
  {
    if ts == [] {
      assert [] + rest == rest;
    } else {
      var head, tail := Encode(ts[0]), EncodeAll(ts[1..], bound);
      ParseInvertsEncode(ts[0], tail + rest);
      ParseTypesInverts(ts[1..], rest, bound);
      ConcatAssoc(head, tail, rest);
      ParseTypesStep(|ts|, EncodeAll(ts, bound) + rest, ts[0], tail + rest, ts[1..], rest);
      HeadTail(ts[0], ts[1..], ts);
    }
  }

  lemma HeadTail(t: CLType, tail: seq<CLType>, ts: seq<CLType>)
    requires ts != [] && t == ts[0] && tail == ts[1..]
    ensures [t] + tail == ts
  {
  }

  lemma TailBelow(t: CLType, tail: seq<CLType>, ts: seq<CLType>, bound: CLType)
    requires ts == [t] + tail && forall i :: 0 <= i < |ts| ==> ts[i] < bound
    ensures ts[0] == t && ts[1..] == tail && forall i :: 0 <= i < |tail| ==> tail[i] < bound
  {
    forall i | 0 <= i < |tail| ensures tail[i] < bound {
      assert tail[i] == ts[i + 1];
    }
  }

  lemma ParseTypesStep(count: nat, bytes: seq<u8>, t: CLType, rem: seq<u8>, ts: seq<CLType>, rest: seq<u8>)
    requires 0 < count <= 3 && FromBytes(bytes) == Ok((t, rem)) && ParseTypes(count - 1, rem) == Ok((ts, rest))
    ensures ParseTypes(count, bytes) == Ok(([t] + ts, rest))
  {
  }

  /** What a successful parse read: the converse of ParseStep. */
  lemma ParsedParts(bytes: seq<u8>) returns (ps: seq<CLType>, rem: seq<u8>)
    requires FromBytes(bytes).Ok?
    ensures bytes != [] && bytes[0] <= 21 && ParseTypes(Arity(bytes[0]), bytes[1..]) == Ok((ps, rem))
    ensures var (t, rest) := FromBytes(bytes).value;
      && Tag(t) == bytes[0] && Parts(t) == ps
      && (if t.FixedList? then DecodeU32(rem) == Ok((t.len, rest)) else rest == rem)
  {
    ps, rem := ParseTypes(Arity(bytes[0]), bytes[1..]).value.0, ParseTypes(Arity(bytes[0]), bytes[1..]).value.1;
  }

  /** A successful parse consumed exactly the encoding of the type it returned. */
  lemma {:induction false} EncodeInvertsParse(bytes: seq<u8>)
    requires FromBytes(bytes).Ok?
    ensures Encode(FromBytes(bytes).value.0) + FromBytes(bytes).value.1 == bytes
    decreases |bytes|, 4
  {
    var (t, rest) := FromBytes(bytes).value;
    var ps, rem := ParsedParts(bytes);
    BuildInverts(t);
    ParseTypesReencode(Arity(bytes[0]), bytes[1..], ps, rem, t);
    if t.FixedList? { UnsignedReencodes(4, rem); }
    Reassemble(bytes, EncodeAll(ps, t), Suffix(t), rem, rest);
  }

  lemma Reassemble(bytes: seq<u8>, parts: seq<u8>, suffix: seq<u8>, rem: seq<u8>, rest: seq<u8>)
    requires bytes != [] && bytes[1..] == parts + rem && rem == suffix + rest
    ensures [bytes[0]] + (parts + suffix) + rest == bytes
  {
  }

  lemma {:induction false} ParseTypesReencode(count: nat, bytes: seq<u8>, ts: seq<CLType>, rest: seq<u8>, bound: CLType)
    requires count <= 3 && ParseTypes(count, bytes) == Ok((ts, rest)) && forall i :: 0 <= i < |ts| ==> ts[i] < bound
    ensures EncodeAll(ts, bound) + rest == bytes
    decreases |bytes| + 1, count
  {
    if count > 0 {
      var t, rem, tail := ParsedTypes(count, bytes, ts, rest);
      TailBelow(t, tail, ts, bound);
      EncodeInvertsParse(bytes);
      ParseTypesReencode(count - 1, rem, tail, rest, bound);
      AllReencode(t, tail, ts, bound, rem, rest);
    }
  }

  lemma ParsedTypes(count: nat, bytes: seq<u8>, ts: seq<CLType>, rest: seq<u8>)
    returns (t: CLType, rem: seq<u8>, tail: seq<CLType>)
    requires 0 < count <= 3 && ParseTypes(count, bytes) == Ok((ts, rest))
    ensures FromBytes(bytes) == Ok((t, rem)) && ParseTypes(count - 1, rem) == Ok((tail, rest))
    ensures ts == [t] + tail && |rem| < |bytes|
  {
    t, rem := FromBytes(bytes).value.0, FromBytes(bytes).value.1;
    tail := ParseTypes(count - 1, rem).value.0;
  }

  lemma AllReencode(t: CLType, tail: seq<CLType>, ts: seq<CLType>, bound: CLType, rem: seq<u8>, rest: seq<u8>)
    requires ts == [t] + tail && ts[1..] == tail && (forall i :: 0 <= i < |ts| ==> ts[i] < bound)
    requires forall i :: 0 <= i < |tail| ==> tail[i] < bound
    requires EncodeAll(tail, bound) + rest == rem
    ensures EncodeAll(ts, bound) + rest == Encode(t) + rem
  {
    ConcatAssoc(Encode(t), EncodeAll(tail, bound), rest);
  }

  function CLTypeCodec(): Codec<CLType> {
    Codec(t => Ok(Encode(t)), FromBytes)
  }

  /** The encoding of types is a bijection onto the inputs the parser accepts. */
  lemma CLTypeLawful()
    ensures Lawful(CLTypeCodec()) && Canonical(CLTypeCodec())
  {
    forall t: CLType, rest: seq<u8> ensures RoundTrips(CLTypeCodec(), t, rest) {
      ParseInvertsEncode(t, rest);
    }
    forall bytes: seq<u8> ensures Reencodes(CLTypeCodec(), bytes) {
      if FromBytes(bytes).Ok? { EncodeInvertsParse(bytes); }
    }
  }

  // ----- stored values -----

  /** A value with its type: the bytes of the value and the description of how to read them. */
  datatype CLValue = CLValue(clType: CLType, bytes: seq<u8>)

  function EncodeValue(v: CLValue): Encoded {
    var result :- EncodeByteVec(v.bytes);
    Ok(AppendBytes(v.clType, result))
  }

  function DecodeValue(bytes: seq<u8>): Decoded<CLValue> {
    var (inner, remainder) :- DecodeByteVec(bytes);
    var (clType, remainder) :- FromBytes(remainder);
    Ok((CLValue(clType, inner), remainder))
  }

  function CLValueCodec(): Codec<CLValue> {
    Codec(EncodeValue, DecodeValue)
  }

  function ValueSerializedLen(v: CLValue): (n: nat) {
    SerializedLen(v.clType) + 4 + |v.bytes|
  }

  lemma CLValueLawful()
    ensures Lawful(CLValueCodec()) && Canonical(CLValueCodec())
    ensures forall v :: EncodeValue(v).Ok? ==> |EncodeValue(v).value| == ValueSerializedLen(v)
  {
    ByteVecLawful();
    forall v: CLValue, rest: seq<u8> ensures RoundTrips(CLValueCodec(), v, rest) {
      if EncodeValue(v).Ok? {
        var head, tail := EncodeByteVec(v.bytes).value, Encode(v.clType);
        AppendOnto(v.clType, head);
        assert RoundTrips(ByteVecCodec(), v.bytes, tail + rest);
        ParseInvertsEncode(v.clType, rest);
        ConcatAssoc(head, tail, rest);
      }
    }
    forall bytes: seq<u8> ensures Reencodes(CLValueCodec(), bytes) {
      if DecodeValue(bytes).Ok? && EncodeValue(DecodeValue(bytes).value.0).Ok? {
        var (inner, rem) := DecodeByteVec(bytes).value;
        assert Reencodes(ByteVecCodec(), bytes);
        var (t, rest) := FromBytes(rem).value;
        EncodeInvertsParse(rem);
        AppendOnto(t, EncodeByteVec(inner).value);
        ConcatAssoc(EncodeByteVec(inner).value, Encode(t), rest);
      }
    }
    forall v | EncodeValue(v).Ok? ensures |EncodeValue(v).value| == ValueSerializedLen(v) {
      SerializedLenCorrect(v.clType);
      AppendOnto(v.clType, EncodeByteVec(v.bytes).value);
    }
  }

  function SumLen(vs: seq<CLValue>): (n: nat) {
    if vs == [] then 0 else ValueSerializedLen(vs[0]) + SumLen(vs[1..])
  }

  /** Argument lists: refused before encoding when the precomputed length passes what a u32 can count. */
  function EncodeValues(vs: seq<CLValue>): Encoded {
    if SumLen(vs) > U32_BOUND - 1 - 4 then Err(OutOfMemoryError)
    else EncodeVec(CLValueCodec(), vs)
  }

  lemma {:induction false} SumLenCorrect(vs: seq<CLValue>)
    requires EncodeItems(CLValueCodec(), vs).Ok?
    ensures |EncodeItems(CLValueCodec(), vs).value| == SumLen(vs)
    ensures |vs| <= SumLen(vs)
  {
    if vs != [] {
      CLValueLawful();
      SumLenCorrect(vs[1..]);
    }
  }

  /** Every argument list that is encoded at all is read back whole, and its length prefix never wraps. */
  lemma ValuesRoundTrip(vs: seq<CLValue>, rest: seq<u8>)
    requires EncodeValues(vs).Ok?
    ensures DecodeVec(CLValueCodec(), EncodeValues(vs).value + rest) == Ok((vs, rest))
    ensures |EncodeValues(vs).value| == 4 + SumLen(vs) < U32_BOUND
  {
    CLValueLawful();
    SumLenCorrect(vs);
    VecRoundTrip(CLValueCodec(), vs, rest);
  }
}
