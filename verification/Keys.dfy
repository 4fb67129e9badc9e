/** Addresses, unforgeable references with access rights, and the keys of global state. */
module Keys {
  import opened Outcomes
  import opened Bytesrepr

  type Addr = s: seq<u8> | |s| == 32 witness seq(32, _ => 0)

  /** Bit 0 grants reading, bit 1 writing, bit 2 adding. */
  type AccessRights = x: nat | x < 8

  datatype URef = URef(addr: Addr, rights: Option<AccessRights>) {
    function RemoveAccessRights(): URef { URef(addr, None) }
  }

  datatype Key =
    | Account(addr: Addr)
    | Hash(addr: Addr)
    | URefKey(uref: URef)
    | Local(addr: Addr)
  {
    /** Global state is indexed by keys without access rights. */
    function Normalize(): Key {
      match this
      case URefKey(u) => URefKey(u.RemoveAccessRights())
      case _ => this
    }
  }

  function DecodeAddr(bytes: seq<u8>): Decoded<Addr> {
    var (head, rem) :- SafeSplitAt(bytes, 32);
    var addr: Addr := head;
    Ok((addr, rem))
  }

  function AddrCodec(): Codec<Addr> {
    Codec((a: Addr) => Ok(a), DecodeAddr)
  }

  function DecodeRights(bytes: seq<u8>): Decoded<AccessRights> {
    var (id, rem) :- DecodeU8(bytes);
    if id < 8 then
      var rights: AccessRights := id;
      Ok((rights, rem))
    else Err(FormattingError)
  }

  function RightsCodec(): Codec<AccessRights> {
    Codec((r: AccessRights) => Ok([r]), DecodeRights)
  }

  lemma AddrLawful()
    ensures Lawful(AddrCodec()) && Canonical(AddrCodec())
  {
    forall a: Addr, rest: seq<u8> ensures RoundTrips(AddrCodec(), a, rest) {
      assert (a + rest)[..32] == a && (a + rest)[32..] == rest;
    }
    forall bytes: seq<u8> ensures Reencodes(AddrCodec(), bytes) {
    }
  }

  lemma RightsLawful()
    ensures Lawful(RightsCodec()) && Canonical(RightsCodec())
  {
    forall r: AccessRights, rest: seq<u8> ensures RoundTrips(RightsCodec(), r, rest) {
      assert ([r] + rest)[1..] == rest;
    }
    forall bytes: seq<u8> ensures Reencodes(RightsCodec(), bytes) {
      if bytes != [] { assert [bytes[0]] + bytes[1..] == bytes; }
    }
  }

  function EncodeURef(u: URef): Encoded {
    EncodePair(AddrCodec(), OptionCodec(RightsCodec()), (u.addr, u.rights))
  }

  function DecodeURef(bytes: seq<u8>): Decoded<URef> {
    var (p, rem) :- DecodePair(AddrCodec(), OptionCodec(RightsCodec()), bytes);
    Ok((URef(p.0, p.1), rem))
  }

  function URefCodec(): Codec<URef> {
    Codec(EncodeURef, DecodeURef)
  }

  lemma URefLawful()
    ensures Lawful(URefCodec()) && Canonical(URefCodec())
  {
    AddrLawful();
    RightsLawful();
    OptionLawful(RightsCodec());
    var c := PairCodec(AddrCodec(), OptionCodec(RightsCodec()));
    PairLawful(AddrCodec(), OptionCodec(RightsCodec()));
    forall u: URef, rest: seq<u8> ensures RoundTrips(URefCodec(), u, rest) {
      assert RoundTrips(c, (u.addr, u.rights), rest);
    }
    forall bytes: seq<u8> ensures Reencodes(URefCodec(), bytes) {
      assert Reencodes(c, bytes);
    }
  }

  function EncodeKey(k: Key): Encoded {
    match k
    case Account(a) => Ok([0] + a)
    case Hash(a) => Ok([1] + a)
    case URefKey(u) => var body :- EncodeURef(u); Ok([2] + body)
    case Local(a) => Ok([3] + a)
  }

  function DecodeKey(bytes: seq<u8>): Decoded<Key> {
    var (id, rest) :- DecodeU8(bytes);
    if id == 0 then var (a, rem) :- DecodeAddr(rest); Ok((Account(a), rem))
    else if id == 1 then var (a, rem) :- DecodeAddr(rest); Ok((Hash(a), rem))
    else if id == 2 then var (u, rem) :- DecodeURef(rest); Ok((URefKey(u), rem))
    else if id == 3 then var (a, rem) :- DecodeAddr(rest); Ok((Local(a), rem))
    else Err(FormattingError)
  }

  function KeyCodec(): Codec<Key> {
    Codec(EncodeKey, DecodeKey)
  }

  lemma KeyRoundTrip(k: Key, rest: seq<u8>)
    ensures RoundTrips(KeyCodec(), k, rest)
  {
    AddrLawful();
    match k
    case Account(a) => TagSplit(0, a, rest); assert RoundTrips(AddrCodec(), a, rest);
    case Hash(a) => TagSplit(1, a, rest); assert RoundTrips(AddrCodec(), a, rest);
    case URefKey(u) =>
      URefLawful();
      assert RoundTrips(URefCodec(), u, rest);
      if EncodeURef(u).Ok? { TagSplit(2, EncodeURef(u).value, rest); }
    case Local(a) => TagSplit(3, a, rest); assert RoundTrips(AddrCodec(), a, rest);
  }

  lemma KeyReencodes(bytes: seq<u8>)
    ensures Reencodes(KeyCodec(), bytes)
  {
    if bytes != [] {
      assert bytes == [bytes[0]] + bytes[1..];
      if bytes[0] == 2 {
        URefLawful();
        assert Reencodes(URefCodec(), bytes[1..]);
      } else {
        AddrLawful();
        assert Reencodes(AddrCodec(), bytes[1..]);
      }
    }
  }

  lemma KeyLawful()
    ensures Lawful(KeyCodec()) && Canonical(KeyCodec())
  {
    forall k: Key, rest: seq<u8> ensures RoundTrips(KeyCodec(), k, rest) {
      KeyRoundTrip(k, rest);
    }
    forall bytes: seq<u8> ensures Reencodes(KeyCodec(), bytes) {
      KeyReencodes(bytes);
    }
  }

  /** Vectors of keys write their length as a u32 without checking it: they round trip exactly below 2^32 entries. */
  lemma KeyVecRoundTrip(ks: seq<Key>, rest: seq<u8>)
    requires EncodeItems(KeyCodec(), ks).Ok?
    ensures DecodeVec(KeyCodec(), EncodeVec(KeyCodec(), ks).value + rest) == Ok((ks, rest)) <==> |ks| < U32_BOUND
  {
    KeyLawful();
    VecRoundTrip(KeyCodec(), ks, rest);
  }
}
