/** The queues of pending bonding and unbonding requests, and how they are stored. */
module Queue {
  import opened Outcomes
  import opened Mint
  import opened Stakes
  import Arith
  import Bytesrepr
  import Keys
  import Uint

  type Time = Bytesrepr.u64

  datatype Entry = Entry(validator: PublicKey, amount: Amount, timestamp: Time)

  // ----- what a queue keeps -----

  ghost predicate Sorted(q: seq<Entry>) {
    forall i, j :: 0 <= i < j < |q| ==> q[i].timestamp <= q[j].timestamp
  }

  ghost predicate Distinct(q: seq<Entry>) {
    forall i, j :: 0 <= i < j < |q| ==> q[i].validator != q[j].validator
  }

  predicate HasEntry(q: seq<Entry>, v: PublicKey) {
    exists i :: 0 <= i < |q| && q[i].validator == v
  }

  function Pushed(q: seq<Entry>, v: PublicKey, amount: Amount, now: Time): Result<seq<Entry>, PosError> {
    if HasEntry(q, v) then Err(MultipleRequests)
    else if q != [] && q[|q| - 1].timestamp > now then Err(TimeWentBackwards)
    else Ok(q + [Entry(v, amount, now)])
  }

  /** The entries at least as old as t, in order; and the others. */
  function Due(q: seq<Entry>, t: Time): seq<Entry> {
    if q == [] then [] else
      var rest := Due(q[..|q| - 1], t);
      if q[|q| - 1].timestamp <= t then rest + [q[|q| - 1]] else rest
  }

  function Later(q: seq<Entry>, t: Time): seq<Entry> {
    if q == [] then [] else
      var rest := Later(q[..|q| - 1], t);
      if q[|q| - 1].timestamp <= t then rest else rest + [q[|q| - 1]]
  }

  class PendingQueue {
    var entries: seq<Entry>

    constructor (entries: seq<Entry>)
      ensures this.entries == entries
    {
      this.entries := entries;
    }

    method Push(v: PublicKey, amount: Amount, now: Time) returns (r: Result<(), PosError>)
      modifies this
      ensures match Pushed(old(entries), v, amount, now)
        case Ok(q) => r == Ok(()) && entries == q
        case Err(e) => r == Err(e) && entries == old(entries)
    {
      for i := 0 to |entries|
        invariant forall j :: 0 <= j < i ==> entries[j].validator != v
      {
        if entries[i].validator == v { return Err(MultipleRequests); }
      }
      if entries != [] && entries[|entries| - 1].timestamp > now { return Err(TimeWentBackwards); }
      entries := entries + [Entry(v, amount, now)];
      r := Ok(());
    }

    /** Partitions the queue by age. */
    method PopDue(t: Time) returns (due: seq<Entry>)
      modifies this
      ensures due == Due(old(entries), t) && entries == Later(old(entries), t)
    {
      due := [];
      var rest := [];
      for i := 0 to |entries|
        invariant due == Due(entries[..i], t) && rest == Later(entries[..i], t)
      {
        assert entries[..i + 1][..i] == entries[..i];
        if entries[i].timestamp <= t {
          due := due + [entries[i]];
        } else {
          rest := rest + [entries[i]];
        }
      }
      assert entries[..|entries|] == entries;
      entries := rest;
    }
  }

  /** A push keeps the queue sorted by time and without a second request of one validator. */
  lemma PushKeeps(q: seq<Entry>, v: PublicKey, amount: Amount, now: Time)
    requires Sorted(q) && Distinct(q) && Pushed(q, v, amount, now).Ok?
    ensures Sorted(Pushed(q, v, amount, now).value) && Distinct(Pushed(q, v, amount, now).value)
  {
    var q' := Pushed(q, v, amount, now).value;
    forall i, j | 0 <= i < j < |q'| ensures q'[i].timestamp <= q'[j].timestamp && q'[i].validator != q'[j].validator {
      assert q[i] == q'[i];
      assert j < |q| ==> q[j] == q'[j];
    }
  }

  /** On a sorted queue the partition is a split: what is due is a prefix. */
  lemma {:induction false} PopSplits(q: seq<Entry>, t: Time)
    requires Sorted(q)
    ensures Due(q, t) + Later(q, t) == q
    ensures forall e :: e in Due(q, t) ==> e.timestamp <= t
    ensures forall e :: e in Later(q, t) ==> e.timestamp > t
  {
    if q != [] {
      var n := |q| - 1;
      PopSplits(q[..n], t);
      assert q == q[..n] + [q[n]];
      if q[n].timestamp <= t {
        NothingLater(q[..n], t);
      }
    }
  }

  lemma {:induction false} NothingLater(q: seq<Entry>, t: Time)
    requires forall i :: 0 <= i < |q| ==> q[i].timestamp <= t
    ensures Later(q, t) == [] && Due(q, t) == q
  {
    if q != [] {
      NothingLater(q[..|q| - 1], t);
      assert q == q[..|q| - 1] + [q[|q| - 1]];
    }
  }

  /** The total of the amounts in a queue. */
  ghost function Owed(q: seq<Entry>): nat {
    if q == [] then 0 else q[0].amount + Owed(q[1..])
  }

  lemma {:induction false} OwedConcat(p: seq<Entry>, q: seq<Entry>)
    ensures Owed(p + q) == Owed(p) + Owed(q)
  {
    if p == [] {
      assert p + q == q;
    } else {
      OwedConcat(p[1..], q);
      assert (p + q)[1..] == p[1..] + q;
    }
  }

  /** Popping divides what is owed between the two parts, sorted or not. */
  lemma {:induction false} PopConserves(q: seq<Entry>, t: Time)
    ensures Owed(Due(q, t)) + Owed(Later(q, t)) == Owed(q)
  {
    if q != [] {
      var n := |q| - 1;
      PopConserves(q[..n], t);
      assert q == q[..n] + [q[n]];
      OwedConcat(q[..n], [q[n]]);
      OwedConcat(Due(q[..n], t), [q[n]]);
      OwedConcat(Later(q[..n], t), [q[n]]);
    }
  }

  // ----- the stored form -----

  function EncodeEntry(e: Entry): Bytesrepr.Encoded {
    Ok(e.validator + Uint.ToBytes(e.amount, 64) + Bytesrepr.ToLe(e.timestamp, 8))
  }

  function DecodeEntry(bytes: seq<Bytesrepr.u8>): Bytesrepr.Decoded<Entry> {
    var (validator, bytes) :- Keys.DecodeAddr(bytes);
    var (amount, bytes) :- DecodeAmount(bytes);
    var (timestamp, bytes) :- Bytesrepr.DecodeU64(bytes);
    Ok((Entry(validator, amount, timestamp), bytes))
  }

  function DecodeAmount(bytes: seq<Bytesrepr.u8>): Bytesrepr.Decoded<Amount> {
    var (v, rem) :- Uint.FromBytes(64, bytes);
    Uint.Reencodes(64, bytes);
    BoundIsPow();
    Ok((v, rem))
  }

  lemma BoundIsPow()
    ensures Arith.Pow(256, 64) == BOUND
  {
    Bytesrepr.Pow256();
    Arith.PowAdd(256, 8, 8);
    Arith.PowAdd(256, 16, 16);
    Arith.PowAdd(256, 32, 32);
  }

  function EntryCodec(): Bytesrepr.Codec<Entry> {
    Bytesrepr.Codec(EncodeEntry, DecodeEntry)
  }

  lemma EntryLawful()
    ensures Bytesrepr.Lawful(EntryCodec())
  {
    forall e: Entry, rest: seq<Bytesrepr.u8> ensures Bytesrepr.RoundTrips(EntryCodec(), e, rest) {
      var a, t := Uint.ToBytes(e.amount, 64), Bytesrepr.ToLe(e.timestamp, 8);
      assert e.validator + a + t + rest == e.validator + (a + (t + rest));
      Keys.AddrLawful();
      assert Bytesrepr.RoundTrips(Keys.AddrCodec(), e.validator, a + (t + rest));
      BoundIsPow();
      Uint.RoundTrip(e.amount, 64, t + rest);
      Bytesrepr.ScalarsLawful();
      assert Bytesrepr.RoundTrips(Bytesrepr.U64Codec(), e.timestamp, rest);
    }
  }

  /** A queue: its length as a u64, then the entries. */
  function EncodeQueue(q: seq<Entry>): Bytesrepr.Encoded {
    var items :- Bytesrepr.EncodeItems(EntryCodec(), q);
    Ok(Bytesrepr.ToLe(|q|, 8) + items)
  }

  function DecodeQueue(bytes: seq<Bytesrepr.u8>): Bytesrepr.Decoded<seq<Entry>> {
    var (len, rem) :- Bytesrepr.DecodeU64(bytes);
    Bytesrepr.DecodeItems(EntryCodec(), len, rem)
  }

  lemma {:induction false} EntriesEncode(q: seq<Entry>)
    ensures Bytesrepr.EncodeItems(EntryCodec(), q).Ok?
  {
    if q != [] { EntriesEncode(q[1..]); }
  }

  /** A stored queue is read back whole. */
  lemma QueueRoundTrip(q: seq<Entry>, rest: seq<Bytesrepr.u8>)
    requires |q| < Bytesrepr.U64_BOUND
    ensures EncodeQueue(q).Ok? && DecodeQueue(EncodeQueue(q).value + rest) == Ok((q, rest))
  {
    EntriesEncode(q);
    EntryLawful();
    var items := Bytesrepr.EncodeItems(EntryCodec(), q).value;
    Bytesrepr.ConcatAssoc(Bytesrepr.ToLe(|q|, 8), items, rest);
    Bytesrepr.ScalarsLawful();
    assert Bytesrepr.RoundTrips(Bytesrepr.U64Codec(), |q|, items + rest);
    Bytesrepr.ItemsRoundTrip(EntryCodec(), q, rest);
  }
}
