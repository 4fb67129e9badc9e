/**
  What a record of transforms loses. Merging two amounts may cut their sum to a narrower width. A trace is a
  record together with what has been cut under each key since it was last written, and the record replays
  exactly if the cuts of each key add up to nothing at the width of the integer stored there.
 */
module Cuts {
  import opened Arith
  import opened Outcomes
  import opened Additive
  import opened CLTypes
  import opened Ints
  import opened Transforms
  import opened Effects

  // ----- adding to stored values -----

  ghost predicate IsWrapping(f: (StoredValue, int) -> Result<StoredValue, Error>, v: StoredValue, a: int) {
    f(v, a) == WrappingAddition(v, a)
  }

  type Addition = f: (StoredValue, int) -> Result<StoredValue, Error> | forall v, a :: IsWrapping(f, v, a)
    ghost witness WrappingAddition

  /** Wrapping addition, named through this property: written out, the solver would look into the bytes. */
  ghost const PLUS: Addition

  lemma PlusWraps(v: StoredValue, a: int)
    ensures PLUS(v, a) == WrappingAddition(v, a)
  {
    assert IsWrapping(PLUS, v, a);
  }

  /** Where an amount can be added any can, and two in turn are their sum at once. */
  lemma PlusAddsUp(v: StoredValue, a: int, b: int)
    requires PLUS(v, a).Ok?
    ensures PLUS(v, b).Ok? && PLUS(PLUS(v, a).value, b) == PLUS(v, a + b)
  {
    PlusWraps(v, a);
    PlusWraps(v, b);
    PlusWraps(v, a + b);
    PlusWraps(PLUS(v, a).value, b);
    WrappingAddsUp(v, a, b);
  }

  lemma WrappingAddsUp(v: StoredValue, a: int, b: int)
    requires WrappingAddition(v, a).Ok?
    ensures WrappingAddition(v, b).Ok?
    ensures WrappingAddition(WrappingAddition(v, a).value, b) == WrappingAddition(v, a + b)
  {
    var d, t, x := HeldBy(v, a);
    AddTwice(v, d, t, x, a, b);
    AddOnce(v, d, t, x, b);
    AddOnce(v, d, t, x, a + b);
  }

  lemma HeldBy(v: StoredValue, c: int) returns (d: CLType, t: IntType, x: int)
    requires WrappingAddition(v, c).Ok?
    ensures Holds(v, d, t, x)
  {
    d, t := v.value.clType, StoredIntType(v).value;
    x := IntoInt(t, v.value.bytes).value;
  }

  // ----- values that are off by an amount -----

  /** Adding cut to u gives w. */
  ghost predicate OffBy(u: StoredValue, cut: int, w: StoredValue) {
    (cut == 0 && u == w) || (PLUS(u, 0) == Ok(u) && PLUS(u, cut) == Ok(w))
  }

  lemma CutsAddUp(u: StoredValue, c: int, v: StoredValue, d: int, w: StoredValue)
    requires OffBy(u, c, v) && OffBy(v, d, w)
    ensures OffBy(u, c + d, w)
  {
    if PLUS(u, c).Ok? { PlusAddsUp(u, c, d); }
  }

  /** An addition keeps two values apart by the same amount. */
  lemma BothAdd(u: StoredValue, cut: int, w: StoredValue, c: int)
    requires OffBy(u, cut, w) && PLUS(w, c).Ok?
    ensures PLUS(u, c).Ok? && OffBy(PLUS(u, c).value, cut, PLUS(w, c).value)
  {
    if !(cut == 0 && u == w) {
      PlusAddsUp(u, cut, c);
      PlusAddsUp(u, c, cut);
      PlusAddsUp(u, c, 0);
      assert c + cut == cut + c && c + 0 == c;
    }
  }

  /** Adding another amount instead leaves a value off by the difference. */
  lemma AddInstead(v: StoredValue, a: int, m: int)
    requires PLUS(v, a).Ok?
    ensures PLUS(v, m).Ok? && OffBy(PLUS(v, m).value, a - m, PLUS(v, a).value)
  {
    PlusAddsUp(v, a, m);
    PlusAddsUp(v, m, 0);
    PlusAddsUp(v, m, a - m);
    assert m + 0 == m && m + (a - m) == a;
  }

  /** An amount on top of a value that is off, with a further cut. */
  lemma AmountOnTop(u: StoredValue, cut: int, w: StoredValue, c: int, more: int, next: StoredValue)
    requires OffBy(u, cut, w) && PLUS(w, c).Ok? && OffBy(PLUS(w, c).value, more, next)
    ensures PLUS(u, c).Ok? && OffBy(PLUS(u, c).value, cut + more, next)
  {
    BothAdd(u, cut, w, c);
    CutsAddUp(PLUS(u, c).value, cut, PLUS(w, c).value, more, next);
  }

  /** The amounts a and c in turn, with cuts on the way, and m in their place. */
  lemma AmountsInTurn(v: StoredValue, a: int, cut: int, w: StoredValue, c: int, more: int, next: StoredValue, m: int)
    requires PLUS(v, a).Ok? && OffBy(PLUS(v, a).value, cut, w)
    requires PLUS(w, c).Ok? && OffBy(PLUS(w, c).value, more, next)
    ensures PLUS(v, m).Ok? && OffBy(PLUS(v, m).value, cut + (a + c - m) + more, next)
  {
    AmountOnTop(PLUS(v, a).value, cut, w, c, more, next);
    PlusAddsUp(v, a, c);
    AddInstead(v, a + c, m);
    CutsAddUp(PLUS(v, m).value, a + c - m, PLUS(v, a + c).value, cut + more, next);
  }

  /** What is off by a cut is right if and only if the cut is nothing at the stored width. */
  lemma OffByNothing(u: StoredValue, cut: int, w: StoredValue)
    requires OffBy(u, cut, w)
    ensures u == w <==> (StoredIntType(w).Some? ==> Congruent(cut, 0, Size(StoredIntType(w).value)))
  {
    if !(cut == 0 && u == w) {
      PlusWraps(u, 0);
      PlusWraps(u, cut);
      var d, t, x := HeldBy(u, 0);
      StoredCut(u, d, t, x, cut, w);
    }
  }

  lemma StoredCut(u: StoredValue, d: CLType, t: IntType, x: int, cut: int, w: StoredValue)
    requires Holds(u, d, t, x) && WrappingAddition(u, 0) == Ok(u) && WrappingAddition(u, cut) == Ok(w)
    ensures StoredIntType(w) == Some(t) && (u == w <==> Congruent(cut, 0, Size(t)))
  {
    AddOnce(u, d, t, x, 0);
    AddOnce(u, d, t, x, cut);
    assert u == IntValue(d, t, Wrap(t, x + 0)) && w == IntValue(d, t, Wrap(t, x + cut));
    SameBytes(t, x + cut, x + 0);
    ShiftCongruence(x, cut, 0, Size(t));
  }

  lemma OnlyNumbersAreOff(u: StoredValue, cut: int, w: StoredValue)
    requires OffBy(u, cut, w)
    ensures !w.Plain? ==> cut == 0 && u == w
  {
    PlusWraps(u, 0);
    PlusWraps(u, cut);
  }

  // ----- one key -----

  /** What merging two transforms cuts off the sum of their amounts. */
  function CutBy(t: Transform, r: Transform): int {
    if t.AddNum? && r.AddNum? && Combine(t, r).AddNum? then t.amount + r.amount - Combine(t, r).amount else 0
  }

  /** What has been cut once r is merged into t, where cut and more were cut on the way to t and to r. */
  function JoinCuts(t: Transform, cut: int, r: Transform, more: int): int {
    if r.Write? then more else cut + CutBy(t, r) + more
  }

  /** The transform t leads from before to a value that is off from now by the cut. */
  ghost predicate LeadsTo(k: Key, before: Option<StoredValue>, t: Transform, cut: int, now: Option<StoredValue>) {
    if t.Identity? then cut == 0 && before == now
    else !t.Failure? ==>
      now.Some? && ApplyAt(k, before, t).Ok? && OffBy(ApplyAt(k, before, t).value, cut, now.value)
  }

  /** Doing one after the other leads to where the second leads, with the cuts of both and of the merge. */
  lemma LeadsOn(k: Key, before: Option<StoredValue>, t: Transform, cut: int, now: Option<StoredValue>,
                r: Transform, more: int, next: Option<StoredValue>)
    requires LeadsTo(k, before, t, cut, now) && LeadsTo(k, now, r, more, next)
    ensures LeadsTo(k, before, Combine(t, r), JoinCuts(t, cut, r, more), next)
  {
    if r.Identity? || r.Write? || r.Failure? || t.Identity? || t.Failure? {
    } else if r.AddNum? {
      if t.AddNum? {
        AmountsLeadOn(k, before, t, cut, now, r, more, next);
      } else if t.Write? {
        WriteLeadsOn(k, before, t, cut, now, r, more, next);
      }
    } else {
      KeysLeadOn(k, before, t, cut, now, r, more, next);
    }
  }

  lemma AmountsLeadOn(k: Key, before: Option<StoredValue>, t: Transform, cut: int, now: Option<StoredValue>,
                      r: Transform, more: int, next: Option<StoredValue>)
    requires t.AddNum? && r.AddNum? && LeadsTo(k, before, t, cut, now) && LeadsTo(k, now, r, more, next)
    ensures LeadsTo(k, before, Combine(t, r), JoinCuts(t, cut, r, more), next)
  {
    var c := Combine(t, r);
    if c.AddNum? {
      PlusWraps(before.value, t.amount);
      PlusWraps(now.value, r.amount);
      PlusWraps(before.value, c.amount);
      AmountsInTurn(before.value, t.amount, cut, now.value, r.amount, more, next.value, c.amount);
    }
  }

  lemma WriteLeadsOn(k: Key, before: Option<StoredValue>, t: Transform, cut: int, now: Option<StoredValue>,
                     r: Transform, more: int, next: Option<StoredValue>)
    requires t.Write? && r.AddNum? && LeadsTo(k, before, t, cut, now) && LeadsTo(k, now, r, more, next)
    ensures LeadsTo(k, before, Combine(t, r), JoinCuts(t, cut, r, more), next)
  {
    var _ := AddsTo(k, now, r, more, next);
    AmountOnTop(t.written, cut, now.value, r.amount, more, next.value);
    var u := PLUS(t.written, r.amount).value;
    WriteAbsorbs(t, r, u);
    WrittenLeadsTo(k, before, u, cut + more, next);
  }

  /** What an amount leads to, in terms of the addition. */
  lemma AddsTo(k: Key, before: Option<StoredValue>, t: Transform, cut: int, now: Option<StoredValue>)
    returns (u: StoredValue)
    requires t.AddNum? && LeadsTo(k, before, t, cut, now)
    ensures before.Some? && now.Some? && PLUS(before.value, t.amount) == Ok(u) && OffBy(u, cut, now.value)
  {
    PlusWraps(before.value, t.amount);
    u := PLUS(before.value, t.amount).value;
  }

  lemma WriteAbsorbs(t: Transform, r: Transform, u: StoredValue)
    requires t.Write? && r.AddNum? && PLUS(t.written, r.amount) == Ok(u)
    ensures Combine(t, r) == Write(u)
  {
    PlusWraps(t.written, r.amount);
  }

  lemma WrittenLeadsTo(k: Key, before: Option<StoredValue>, u: StoredValue, cut: int, now: Option<StoredValue>)
    requires now.Some? && OffBy(u, cut, now.value)
    ensures LeadsTo(k, before, Write(u), cut, now)
  {
  }

  lemma KeysLeadOn(k: Key, before: Option<StoredValue>, t: Transform, cut: int, now: Option<StoredValue>,
                   r: Transform, more: int, next: Option<StoredValue>)
    requires r.AddKeys? && LeadsTo(k, before, t, cut, now) && LeadsTo(k, now, r, more, next)
    ensures LeadsTo(k, before, Combine(t, r), JoinCuts(t, cut, r, more), next)
  {
    if t.Write? {
      OnlyNumbersAreOff(t.written, cut, now.value);
    } else if t.AddKeys? {
      OnlyNumbersAreOff(Apply(t, before.value).value, cut, now.value);
      KeysMerge(t.keys, r.keys, before.value);
    }
  }

  /** The transform leads exactly there if and only if it has not failed and the cut is nothing. */
  lemma ArrivesIff(k: Key, before: Option<StoredValue>, t: Transform, cut: int, now: StoredValue)
    requires LeadsTo(k, before, t, cut, Some(now))
    ensures ApplyAt(k, before, t) == Ok(now) <==> Whole(t, cut, now)
  {
    if !t.Identity? && !t.Failure? {
      OffByNothing(ApplyAt(k, before, t).value, cut, now);
    }
  }

  /** The merge has not failed, and what was cut comes to nothing at the width of the stored integer. */
  ghost predicate Whole(t: Transform, cut: int, now: StoredValue) {
    !t.Failure? && (StoredIntType(now).Some? ==> Congruent(cut, 0, Size(StoredIntType(now).value)))
  }

  // ----- whole records -----

  /** A record, and what has been cut under its keys. */
  datatype Trace = Trace(fns: Fns, cuts: map<Key, int>) {
    function Fn(k: Key): Transform {
      At(fns, k, Identity)
    }

    function Cut(k: Key): int {
      At(cuts, k, 0)
    }

    /** One more transform under k. */
    function With(k: Key, r: Transform): Trace {
      Trace(fns[k := Combine(Fn(k), r)], cuts[k := JoinCuts(Fn(k), Cut(k), r, 0)])
    }

    /** The trace n after this one. */
    function Then(n: Trace): Trace {
      Trace(MergeFns(fns, n.fns),
            map k | k in fns.Keys + n.fns.Keys :: JoinCuts(Fn(k), Cut(k), n.Fn(k), n.Cut(k)))
    }

    /** Nothing is lost: of no key that is named, in the state now. */
    ghost predicate Lossless(now: State) {
      forall k :: k in fns && k in now ==> Whole(fns[k], Cut(k), now[k])
    }

    /** The trace of what turned before into now. */
    ghost predicate Follows(before: State, now: State) {
      && now.Keys == before.Keys + fns.Keys && cuts.Keys <= fns.Keys
      && forall k :: LeadsTo(k, Find(before, k), Fn(k), Cut(k), Find(now, k))
    }
  }

  const NO_TRACE := Trace(map[], map[])

  /** The record replays if and only if nothing is lost. */
  lemma ReplaysIff(before: State, tr: Trace, now: State)
    requires tr.Follows(before, now)
    ensures CommitsTo(before, tr.fns, now) <==> tr.Lossless(now)
  {
    forall k | k in tr.fns ensures ApplyAt(k, Find(before, k), tr.fns[k]) == Ok(now[k])
                                   <==> Whole(tr.fns[k], tr.Cut(k), now[k])
    {
      assert LeadsTo(k, Find(before, k), tr.Fn(k), tr.Cut(k), Find(now, k));
      ArrivesIff(k, Find(before, k), tr.fns[k], tr.Cut(k), now[k]);
    }
    forall k | k in before && k !in tr.fns ensures now[k] == before[k] {
      assert LeadsTo(k, Find(before, k), tr.Fn(k), tr.Cut(k), Find(now, k));
    }
  }

  /** A record that replays has cut nothing so far. */
  lemma CommittedFollows(before: State, fns: Fns, now: State)
    requires CommitsTo(before, fns, now)
    ensures Trace(fns, map[]).Follows(before, now)
  {
    var tr := Trace(fns, map[]);
    forall k ensures LeadsTo(k, Find(before, k), tr.Fn(k), tr.Cut(k), Find(now, k)) {
      if k in fns { assert ApplyAt(k, Find(before, k), fns[k]) == Ok(now[k]); }
    }
  }

  lemma WithFollows(before: State, tr: Trace, now: State, k: Key, r: Transform, v: StoredValue)
    requires tr.Follows(before, now) && ApplyAt(k, Find(now, k), r) == Ok(v)
    ensures tr.With(k, r).Follows(before, now[k := v])
  {
    forall j ensures LeadsTo(j, Find(before, j), tr.With(k, r).Fn(j), tr.With(k, r).Cut(j), Find(now[k := v], j)) {
      assert LeadsTo(j, Find(before, j), tr.Fn(j), tr.Cut(j), Find(now, j));
      if j == k { LeadsOn(k, Find(before, k), tr.Fn(k), tr.Cut(k), Find(now, k), r, 0, Some(v)); }
    }
  }

  /** Traces join like the effects they trace. */
  lemma ThenFollows(s0: State, m: Trace, s1: State, n: Trace, s2: State)
    requires m.Follows(s0, s1) && n.Follows(s1, s2)
    ensures m.Then(n).Follows(s0, s2)
  {
    forall k ensures LeadsTo(k, Find(s0, k), m.Then(n).Fn(k), m.Then(n).Cut(k), Find(s2, k)) {
      ThenAt(s0, m, s1, n, s2, k);
    }
  }

  lemma ThenAt(s0: State, m: Trace, s1: State, n: Trace, s2: State, k: Key)
    requires m.Follows(s0, s1) && n.Follows(s1, s2)
    ensures LeadsTo(k, Find(s0, k), m.Then(n).Fn(k), m.Then(n).Cut(k), Find(s2, k))
  {
    assert LeadsTo(k, Find(s0, k), m.Fn(k), m.Cut(k), Find(s1, k));
    assert LeadsTo(k, Find(s1, k), n.Fn(k), n.Cut(k), Find(s2, k));
    LeadsOn(k, Find(s0, k), m.Fn(k), m.Cut(k), Find(s1, k), n.Fn(k), n.Cut(k), Find(s2, k));
  }

  // ----- three effects in turn -----

  function AmountOf(t: Transform): int {
    if t.AddNum? then t.amount else 0
  }

  /** The merge has not failed, and its amount is the sum of the three at the width of the integer v. */
  ghost predicate SumKept(a: Transform, b: Transform, c: Transform, v: StoredValue) {
    var m := Combine(Combine(a, b), c);
    && !m.Failure?
    && (m.AddNum? && StoredIntType(v).Some? ==>
          Congruent(AmountOf(a) + AmountOf(b) + AmountOf(c), m.amount, Size(StoredIntType(v).value)))
  }

  /** So it is under every key of s that one of three effects names. */
  ghost predicate SumsKept(s: State, p: Fns, q: Fns, f: Fns) {
    forall k :: k in s && (k in p || k in q || k in f) ==>
      SumKept(At(p, k, Identity), At(q, k, Identity), At(f, k, Identity), s[k])
  }

  /** Only amounts are cut, and what is cut is what their sum has over the merged amount. */
  lemma CutIsShortfall(a: Transform, b: Transform, c: Transform)
    ensures var m, ab := Combine(Combine(a, b), c), Combine(a, b);
      !m.Failure? ==> JoinCuts(ab, JoinCuts(a, 0, b, 0), c, 0)
                      == if m.AddNum? then AmountOf(a) + AmountOf(b) + AmountOf(c) - m.amount else 0
  {
  }

  lemma SameIntType(k: Key, before: StoredValue, t: Transform, cut: int, now: StoredValue)
    requires t.AddNum? && LeadsTo(k, Some(before), t, cut, Some(now))
    ensures StoredIntType(before).Some? && StoredIntType(now) == StoredIntType(before)
  {
    var u := WrappingAddition(before, t.amount).value;
    PlusWraps(u, 0);
    PlusWraps(u, cut);
  }

  lemma ShortfallCongruence(sum: int, amount: int, m: int)
    requires m > 0
    ensures Congruent(sum - amount, 0, m) <==> Congruent(sum, amount, m)
  {
    ShiftCongruence(amount, sum - amount, 0, m);
  }

  lemma StepLeadsTo(k: Key, before: Option<StoredValue>, t: Transform, now: Option<StoredValue>)
    requires (t.Identity? && before == now) || (now.Some? && ApplyAt(k, before, t) == Ok(now.value))
    ensures LeadsTo(k, before, t, 0, now)
  {
  }

  /** Three transforms that act in turn under one key, where there was a value before. */
  lemma ThreeUnderKey(k: Key, v: StoredValue, a: Transform, v1: StoredValue, b: Transform, v2: StoredValue,
                      c: Transform, v3: StoredValue)
    requires Apply(a, v) == Ok(v1) && Apply(b, v1) == Ok(v2) && Apply(c, v2) == Ok(v3)
    ensures ApplyAt(k, Some(v), Combine(Combine(a, b), c)) == Ok(v3) <==> SumKept(a, b, c, v)
  {
    var ab, m := Combine(a, b), Combine(Combine(a, b), c);
    var cut := JoinCuts(ab, JoinCuts(a, 0, b, 0), c, 0);
    StepLeadsTo(k, Some(v), a, Some(v1));
    StepLeadsTo(k, Some(v1), b, Some(v2));
    StepLeadsTo(k, Some(v2), c, Some(v3));
    LeadsOn(k, Some(v), a, 0, Some(v1), b, 0, Some(v2));
    LeadsOn(k, Some(v), ab, JoinCuts(a, 0, b, 0), Some(v2), c, 0, Some(v3));
    ArrivesIff(k, Some(v), m, cut, v3);
    WholeIsSumKept(k, v, a, b, c, m, cut, v3);
  }

  lemma WholeIsSumKept(k: Key, v: StoredValue, a: Transform, b: Transform, c: Transform, m: Transform, cut: int,
                       v3: StoredValue)
    requires m == Combine(Combine(a, b), c) && cut == JoinCuts(Combine(a, b), JoinCuts(a, 0, b, 0), c, 0)
    requires LeadsTo(k, Some(v), m, cut, Some(v3))
    ensures Whole(m, cut, v3) <==> SumKept(a, b, c, v)
  {
    CutIsShortfall(a, b, c);
    if m.AddNum? {
      SameIntType(k, v, m, cut, v3);
      ShortfallCongruence(AmountOf(a) + AmountOf(b) + AmountOf(c), m.amount, Size(StoredIntType(v).value));
    }
  }

  /**
    For three effects that commit in turn, the merged effect leaves the same state if and only if under every
    key that was there before no merge failed and the merged amount is the sum at the stored width.
   */
  lemma ThreeInTurn(s0: State, p: Fns, s1: State, q: Fns, s2: State, f: Fns, s3: State)
    requires CommitsTo(s0, p, s1) && CommitsTo(s1, q, s2) && CommitsTo(s2, f, s3)
    ensures CommitsTo(s0, MergeFns(MergeFns(p, q), f), s3) <==> SumsKept(s0, p, q, f)
  {
    var m := MergeFns(MergeFns(p, q), f);
    MergedElsewhere(s0, p, s1, q, s2, f, s3, m);
    if CommitsTo(s0, m, s3) {
      forall k | k in s0 && (k in p || k in q || k in f)
        ensures SumKept(At(p, k, Identity), At(q, k, Identity), At(f, k, Identity), s0[k])
      {
        ThreeAt(s0, p, s1, q, s2, f, s3, k);
      }
    }
    if SumsKept(s0, p, q, f) {
      forall k | k in m ensures ApplyAt(k, Find(s0, k), m[k]) == Ok(s3[k]) {
        ThreeAt(s0, p, s1, q, s2, f, s3, k);
      }
    }
  }

  lemma MergedElsewhere(s0: State, p: Fns, s1: State, q: Fns, s2: State, f: Fns, s3: State, m: Fns)
    requires CommitsTo(s0, p, s1) && CommitsTo(s1, q, s2) && CommitsTo(s2, f, s3)
    requires m == MergeFns(MergeFns(p, q), f)
    ensures s3.Keys == s0.Keys + m.Keys && m.Keys == p.Keys + q.Keys + f.Keys
    ensures forall k :: k in s0 && k !in m ==> s3[k] == s0[k]
  {
  }

  lemma ThreeAt(s0: State, p: Fns, s1: State, q: Fns, s2: State, f: Fns, s3: State, k: Key)
    requires CommitsTo(s0, p, s1) && CommitsTo(s1, q, s2) && CommitsTo(s2, f, s3) && (k in p || k in q || k in f)
    ensures k in s3
    ensures ApplyAt(k, Find(s0, k), MergeFns(MergeFns(p, q), f)[k]) == Ok(s3[k]) <==>
      (k in s0 ==> SumKept(At(p, k, Identity), At(q, k, Identity), At(f, k, Identity), s0[k]))
  {
    var a, b, c := At(p, k, Identity), At(q, k, Identity), At(f, k, Identity);
    MergedIs(p, q, f, k);
    if k in s0 {
      ActsAs(s0, p, s1, k);
      ActsAs(s1, q, s2, k);
      ActsAs(s2, f, s3, k);
      ThreeUnderKey(k, s0[k], a, s1[k], b, s2[k], c, s3[k]);
    } else {
      NewKey(s0, p, s1, k);
      NewKey(s1, q, s2, k);
      NewKey(s2, f, s3, k);
      NewInTurn(k, a, Find(s1, k), b, Find(s2, k), c, s3[k]);
    }
  }

  lemma MergedIs(p: Fns, q: Fns, f: Fns, k: Key)
    requires k in p || k in q || k in f
    ensures MergeFns(MergeFns(p, q), f)[k]
            == Combine(Combine(At(p, k, Identity), At(q, k, Identity)), At(f, k, Identity))
  {
    assert k in q ==> MergeFns(p, q)[k] == Combine(At(p, k, Identity), q[k]);
  }

  lemma ActsAs(s: State, fns: Fns, s': State, k: Key)
    requires CommitsTo(s, fns, s') && k in s
    ensures k in s' && Apply(At(fns, k, Identity), s[k]) == Ok(s'[k])
  {
    if k in fns { assert ApplyAt(k, Find(s, k), fns[k]) == Ok(s'[k]); }
  }

  /** Under a key that may be new. */
  lemma NewKey(s: State, fns: Fns, s': State, k: Key)
    requires CommitsTo(s, fns, s')
    ensures if k in fns then k in s' && ApplyAt(k, Find(s, k), fns[k]) == Ok(s'[k]) else Find(s', k) == Find(s, k)
  {
  }

  /** A key that was not there begins with a write, and every merge onto a write is exact. */
  lemma NewInTurn(k: Key, a: Transform, v1: Option<StoredValue>, b: Transform, v2: Option<StoredValue>,
                  c: Transform, v3: StoredValue)
    requires if v1.Some? then ApplyAt(k, None, a) == Ok(v1.value) else a.Identity?
    requires (v2 == v1 && b.Identity?) || (v2.Some? && ApplyAt(k, v1, b) == Ok(v2.value))
    requires (v2 == Some(v3) && c.Identity?) || ApplyAt(k, v2, c) == Ok(v3)
    ensures ApplyAt(k, None, Combine(Combine(a, b), c)) == Ok(v3)
  {
  }

  /** Cuts can make up for each other: here the first merge loses and the whole record is right. */
  lemma CutsCanCancel() returns (a: Transform, b: Transform, c: Transform, v: StoredValue)
    ensures Apply(a, v).Ok? && Apply(b, Apply(a, v).value).Ok? && !Mergeable(a, b, v)
    ensures Apply(c, Apply(b, Apply(a, v).value).value).Ok?
    ensures Apply(Combine(Combine(a, b), c), v) == Apply(c, Apply(b, Apply(a, v).value).value)
  {
    SmallSizes();
    a, b, c, v := AddNum(UINT64, 0x8000_0000), AddNum(INT32, 0), AddNum(INT32, -1), IntValue(U64, UINT64, 0);
    IntValueHolds(U64, UINT64, 0);
    FirstMergeLoses(a, b, v);
    CancelledSums(a, b, c);
    AddedInTurn(v, 0, a, b, c, AddNum(INT32, 0x7FFF_FFFF));
  }

  lemma FirstMergeLoses(a: Transform, b: Transform, v: StoredValue)
    requires a == AddNum(UINT64, 0x8000_0000) && b == AddNum(INT32, 0) && StoredIntType(v) == Some(UINT64)
    ensures !Mergeable(a, b, v)
  {
    SmallSizes();
  }

  lemma CancelledSums(a: Transform, b: Transform, c: Transform)
    requires a == AddNum(UINT64, 0x8000_0000) && b == AddNum(INT32, 0) && c == AddNum(INT32, -1)
    ensures Combine(Combine(a, b), c) == AddNum(INT32, 0x7FFF_FFFF)
  {
    SmallSizes();
    CastSum(INT32, 0x8000_0000, 0);
    CastSum(INT32, -0x8000_0000, -1);
  }

  lemma AddedInTurn(v: StoredValue, x: int, a: Transform, b: Transform, c: Transform, m: Transform)
    requires a.AddNum? && b.AddNum? && c.AddNum? && m.AddNum? && m.amount == a.amount + b.amount + c.amount
    requires Holds(v, U64, UINT64, x)
    ensures Apply(a, v).Ok? && Apply(b, Apply(a, v).value).Ok?
    ensures Apply(c, Apply(b, Apply(a, v).value).value).Ok?
    ensures Apply(m, v) == Apply(c, Apply(b, Apply(a, v).value).value)
  {
    AddOnce(v, U64, UINT64, x, a.amount);
    WrappingAddsUp(v, a.amount, b.amount);
    WrappingAddsUp(v, a.amount + b.amount, c.amount);
    WrappingAddsUp(v, a.amount, m.amount);
  }
}
