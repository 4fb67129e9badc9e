/** The metrics queue: one pusher, any number of drainers, two buffers and a timer, each behind its own lock. */
module Accumulator {
  import opened Outcomes

  // ----- the buffers -----

  /** Main, the side buffer, and the time of the last drain. */
  datatype Store<T> = Store(main: seq<T>, alt: seq<T>, timer: nat)

  /** The side buffer moved to the end of main. */
  function Merged<T>(b: Store<T>): Store<T> {
    b.(main := b.main + b.alt, alt := [])
  }

  /** An item at the end of main; the oldest item goes first if the queue has expired. */
  function Appended<T>(b: Store<T>, item: T, expired: bool): Store<T> {
    b.(main := (if expired && b.main != [] then b.main[1..] else b.main) + [item])
  }

  function AppendedAside<T>(b: Store<T>, item: T): Store<T> {
    b.(alt := b.alt + [item])
  }

  /** Main taken out, the timer set. */
  function Emptied<T>(b: Store<T>, now: nat): Store<T> {
    b.(main := [], timer := now)
  }

  predicate Expired<T>(b: Store<T>, now: nat, expiration: nat) {
    now - b.timer > expiration
  }

  /** The buffers as they are changed in place; each method is one step of the protocol below. */
  class Buffers<T> {
    var main: seq<T>
    var alt: seq<T>
    var timer: nat
    const expiration: nat

    constructor (expiration: nat, now: nat)
      ensures Contents() == Store([], [], now) && this.expiration == expiration
    {
      main, alt, timer, this.expiration := [], [], now, expiration;
    }

    function Contents(): Store<T>
      reads this
    {
      Store(main, alt, timer)
    }

    /** With main and alt held. */
    method MergeAlt()
      modifies this`main, this`alt
      ensures Contents() == Merged(old(Contents()))
    {
      if alt != [] {
        main, alt := main + alt, [];
      } else {
        assert main + alt == main;
      }
    }

    /** With the timer held for reading. */
    method IsExpired(now: nat) returns (expired: bool)
      ensures expired == Expired(Contents(), now, expiration)
    {
      expired := now - timer > expiration;
    }

    /** With main and alt held. */
    method Append(item: T, expired: bool)
      modifies this`main
      ensures Contents() == Appended(old(Contents()), item, expired)
    {
      if expired && main != [] {
        main := main[1..];
      }
      main := main + [item];
    }

    /** With alt held. */
    method AppendAside(item: T)
      modifies this`alt
      ensures Contents() == AppendedAside(old(Contents()), item)
    {
      alt := alt + [item];
    }

    /** With main and the timer held. */
    method Drain(now: nat) returns (items: seq<T>)
      modifies this`main, this`timer
      ensures items == old(main) && Contents() == Emptied(old(Contents()), now)
    {
      items, main, timer := main, [], now;
    }

    /** A push that got hold of main, undisturbed. */
    method PushMain(item: T, now: nat)
      modifies this`main, this`alt
      ensures Contents() == PushedMain(old(Contents()), item, now, expiration)
    {
      MergeAlt();
      var expired := IsExpired(now);
      Append(item, expired);
    }
  }

  function PushedMain<T>(b: Store<T>, item: T, now: nat, expiration: nat): Store<T> {
    Appended(Merged(b), item, Expired(b, now, expiration))
  }

  // ----- the protocol -----

  datatype Owner = Free | ByPusher | ByDrainer(id: nat)

  /** Where the pusher stands: the locks it holds follow from it. */
  datatype PushPc<T> =
    | PushIdle
    | GotMain(item: T)                  // holds main, wants alt
    | GotBoth(item: T)                  // holds main and alt, buffers merged, wants to read the timer
    | Reading(item: T)                  // holds main, alt and the timer for reading
    | Timed(item: T, expired: bool)     // holds main and alt
    | MissedMain(item: T)               // main was taken, wants alt
    | GotAlt(item: T)                   // holds alt

  datatype DrainPc =
    | DrainIdle
    | WantsMain
    | WantsTimer                        // holds main
    | Draining                          // holds main and the timer for writing

  /** An item that left the queue: it was drained, or it expired. */
  datatype Left<T> = Left(item: T, expired: bool)

  datatype Machine<T> = Machine(
    store: Store<T>, now: nat, expiration: nat,
    mainLock: Owner, altLock: Owner, timerReader: bool, timerWriter: Option<nat>,
    pusher: PushPc<T>, drainers: map<nat, DrainPc>,
    pushed: seq<T>, left: seq<Left<T>>)

  datatype Action<T> = BeginPush(item: T) | AdvancePush | AdvanceDrain(id: nat) | Tick(time: nat)

  function Marked<T>(items: seq<T>, expired: bool): seq<Left<T>> {
    seq(|items|, i requires 0 <= i < |items| => Left(items[i], expired))
  }

  /** The next step of a push under way; None while it has to wait. A reader also waits for a waiting writer. */
  function NextPush<T>(s: Machine<T>): Option<Machine<T>>
    requires !s.pusher.PushIdle?
  {
    match s.pusher
    case GotMain(item) =>
      if s.altLock.Free?
      then Some(s.(altLock := ByPusher, store := Merged(s.store), pusher := GotBoth(item)))
      else None
    case GotBoth(item) =>
      if s.timerWriter.None? && forall d :: d in s.drainers ==> !s.drainers[d].WantsTimer?
      then Some(s.(timerReader := true, pusher := Reading(item)))
      else None
    case Reading(item) =>
      Some(s.(timerReader := false, pusher := Timed(item, Expired(s.store, s.now, s.expiration))))
    case Timed(item, expired) =>
      Some(s.(store := Appended(s.store, item, expired),
              left := s.left + (if expired && s.store.main != [] then [Left(s.store.main[0], true)] else []),
              pushed := s.pushed + [item], mainLock := Free, altLock := Free, pusher := PushIdle))
    case MissedMain(item) =>
      if s.altLock.Free? then Some(s.(altLock := ByPusher, pusher := GotAlt(item))) else None
    case GotAlt(item) =>
      Some(s.(store := AppendedAside(s.store, item), pushed := s.pushed + [item], altLock := Free, pusher := PushIdle))
  }

  /** A push begins by trying main; it never waits for it. */
  function Begin<T>(s: Machine<T>, item: T): Machine<T> {
    if s.mainLock.Free? then s.(mainLock := ByPusher, pusher := GotMain(item)) else s.(pusher := MissedMain(item))
  }

  function NextDrain<T>(s: Machine<T>, d: nat): Option<Machine<T>>
    requires d in s.drainers
  {
    match s.drainers[d]
    case DrainIdle => Some(s.(drainers := s.drainers[d := WantsMain]))
    case WantsMain =>
      if s.mainLock.Free? then Some(s.(mainLock := ByDrainer(d), drainers := s.drainers[d := WantsTimer])) else None
    case WantsTimer =>
      if s.timerWriter.None? && !s.timerReader
      then Some(s.(timerWriter := Some(d), drainers := s.drainers[d := Draining]))
      else None
    case Draining =>
      Some(s.(left := s.left + Marked(s.store.main, false), store := Emptied(s.store, s.now),
              timerWriter := None, mainLock := Free, drainers := s.drainers[d := DrainIdle]))
  }

  /** One step of anyone; an action that does not apply or has to wait leaves the state as it is. */
  function Next<T>(s: Machine<T>, a: Action<T>): Machine<T> {
    match a
    case BeginPush(item) => if s.pusher.PushIdle? then Begin(s, item) else s
    case AdvancePush => if s.pusher.PushIdle? then s else (match NextPush(s) case Some(s') => s' case None => s)
    case AdvanceDrain(d) => if d !in s.drainers then s else (match NextDrain(s, d) case Some(s') => s' case None => s)
    case Tick(time) => s.(now := s.now + time)
  }

  function Run<T>(s: Machine<T>, actions: seq<Action<T>>): Machine<T>
    decreases |actions|
  {
    if actions == [] then s else Run(Next(s, actions[0]), actions[1..])
  }

  ghost predicate Initial<T>(s: Machine<T>) {
    && s.store.main == s.store.alt == s.pushed == [] && s.left == [] && s.store.timer == s.now
    && s.mainLock.Free? && s.altLock.Free? && !s.timerReader && s.timerWriter.None?
    && s.pusher.PushIdle? && forall d :: d in s.drainers ==> s.drainers[d].DrainIdle?
  }

  // ----- who holds what -----

  /** Alt is taken only by the pusher, main by one thread, the timer for writing only by the drainer that holds main. */
  ghost predicate LocksOk<T>(s: Machine<T>) {
    && (s.altLock.ByPusher? <==> s.pusher.GotBoth? || s.pusher.Reading? || s.pusher.Timed? || s.pusher.GotAlt?)
    && !s.altLock.ByDrainer?
    && (s.mainLock.ByPusher? <==> s.pusher.GotMain? || s.pusher.GotBoth? || s.pusher.Reading? || s.pusher.Timed?)
    && (s.mainLock.ByDrainer? ==> s.mainLock.id in s.drainers)
    && (forall d :: d in s.drainers ==>
          (s.mainLock == ByDrainer(d) <==> s.drainers[d].WantsTimer? || s.drainers[d].Draining?))
    && (s.timerWriter.Some? ==> s.timerWriter.value in s.drainers)
    && (forall d :: d in s.drainers ==> (s.timerWriter == Some(d) <==> s.drainers[d].Draining?))
    && (s.timerReader <==> s.pusher.Reading?)
    && s.store.timer <= s.now
  }

  // ----- what the buffers hold -----

  function Items<T>(left: seq<Left<T>>): seq<T> {
    seq(|left|, i requires 0 <= i < |left| => left[i].item)
  }

  /** What the drainers got, in the order they got it. */
  function Drained<T>(left: seq<Left<T>>): seq<T> {
    if left == [] then []
    else Drained(left[..|left| - 1]) + (if left[|left| - 1].expired then [] else [left[|left| - 1].item])
  }

  /** Everything pushed so far, in order: first what has left the queue, then main, then alt. */
  ghost predicate InOrder<T>(s: Machine<T>) {
    Items(s.left) + s.store.main + s.store.alt == s.pushed
  }

  ghost predicate Inv<T>(s: Machine<T>) {
    LocksOk(s) && InOrder(s) && AltMerged(s) && ExpiryIsDue(s)
  }

  /** Main was left undrained for longer than the expiration whenever the pusher is about to drop its oldest item. */
  ghost predicate ExpiryIsDue<T>(s: Machine<T>) {
    s.pusher.Timed? && s.pusher.expired ==> s.now - s.store.timer > s.expiration
  }

  /** While the pusher holds both buffers after merging them, the side buffer is empty. */
  ghost predicate AltMerged<T>(s: Machine<T>) {
    s.pusher.GotBoth? || s.pusher.Reading? || s.pusher.Timed? ==> s.store.alt == []
  }

  lemma ItemsConcat<T>(p: seq<Left<T>>, q: seq<Left<T>>)
    ensures Items(p + q) == Items(p) + Items(q)
  {
  }

  lemma MarkedItems<T>(items: seq<T>, expired: bool)
    ensures Items(Marked(items, expired)) == items
  {
  }

  lemma PushKeepsInv<T>(s: Machine<T>)
    requires Inv(s) && !s.pusher.PushIdle? && NextPush(s).Some?
    ensures Inv(NextPush(s).value)
  {
    var s' := NextPush(s).value;
    match s.pusher
    case GotMain(_) =>
      assert Items(s.left) + (s.store.main + s.store.alt) + [] == Items(s.left) + s.store.main + s.store.alt;
    case GotBoth(_) =>
    case Reading(_) =>
    case Timed(item, expired) => FinishKeepsOrder(s, item, expired);
    case MissedMain(_) =>
    case GotAlt(item) =>
      var before := Items(s.left) + s.store.main;
      assert before + (s.store.alt + [item]) == before + s.store.alt + [item];
  }

  lemma FinishKeepsOrder<T>(s: Machine<T>, item: T, expired: bool)
    requires InOrder(s) && s.store.alt == [] && s.pusher == Timed(item, expired)
    ensures InOrder(NextPush(s).value)
  {
    if expired && s.store.main != [] {
      ItemsConcat(s.left, [Left(s.store.main[0], true)]);
      assert s.store.main == [s.store.main[0]] + s.store.main[1..];
      assert Items([Left(s.store.main[0], true)]) == [s.store.main[0]];
    } else {
      assert s.left + [] == s.left;
    }
  }

  lemma DrainKeepsInv<T>(s: Machine<T>, d: nat)
    requires Inv(s) && d in s.drainers && NextDrain(s, d).Some?
    ensures Inv(NextDrain(s, d).value)
  {
    if s.drainers[d].Draining? {
      ItemsConcat(s.left, Marked(s.store.main, false));
      MarkedItems(s.store.main, false);
      assert s.mainLock == ByDrainer(d);
      assert Items(s.left) + s.store.main + [] + s.store.alt == Items(s.left) + s.store.main + s.store.alt;
    }
  }

  lemma NextKeepsInv<T>(s: Machine<T>, a: Action<T>)
    requires Inv(s)
    ensures Inv(Next(s, a))
  {
    match a
    case BeginPush(_) =>
    case AdvancePush => if !s.pusher.PushIdle? && NextPush(s).Some? { PushKeepsInv(s); }
    case AdvanceDrain(d) => if d in s.drainers && NextDrain(s, d).Some? { DrainKeepsInv(s, d); }
    case Tick(_) =>
  }

  lemma {:induction false} RunKeepsInv<T>(s: Machine<T>, actions: seq<Action<T>>)
    requires Inv(s)
    ensures Inv(Run(s, actions))
    decreases |actions|
  {
    if actions != [] {
      NextKeepsInv(s, actions[0]);
      RunKeepsInv(Next(s, actions[0]), actions[1..]);
    }
  }

  // ----- the queue over every interleaving -----

  /** p is what q has at the increasing positions at. */
  ghost predicate Picks<T(!new)>(p: seq<T>, q: seq<T>, at: seq<nat>) {
    && |at| == |p|
    && (forall i :: 0 <= i < |at| ==> at[i] < |q| && p[i] == q[at[i]])
    && (forall i, j :: 0 <= i < j < |at| ==> at[i] < at[j])
  }

  lemma PickMore<T(!new)>(p: seq<T>, q: seq<T>, at: seq<nat>, x: T)
    requires Picks(p, q, at)
    ensures Picks(p, q + [x], at) && Picks(p + [x], q + [x], at + [|q|])
  {
  }

  lemma {:induction false} DrainedPicks<T(!new)>(left: seq<Left<T>>) returns (at: seq<nat>)
    ensures Picks(Drained(left), Items(left), at)
  {
    if left == [] {
      at := [];
    } else {
      var n := |left| - 1;
      at := DrainedPicks(left[..n]);
      assert Items(left) == Items(left[..n]) + [left[n].item];
      PickMore(Drained(left[..n]), Items(left[..n]), at, left[n].item);
      if left[n].expired {
        assert Drained(left) == Drained(left[..n]);
      } else {
        at := at + [n];
      }
    }
  }

  lemma {:induction false} NothingExpired<T>(left: seq<Left<T>>)
    requires forall i :: 0 <= i < |left| ==> !left[i].expired
    ensures Drained(left) == Items(left)
  {
    if left != [] {
      var n := |left| - 1;
      NothingExpired(left[..n]);
      assert Items(left) == Items(left[..n]) + [left[n].item];
    }
  }

  /**
    Whatever the interleaving: main followed by alt is a suffix of everything pushed so far; what was drained is,
    in order, part of what came before it; and when nothing expired it is all of that.
   */
  lemma QueueOverRuns<T(!new)>(s: Machine<T>, actions: seq<Action<T>>) returns (k: nat, at: seq<nat>)
    requires Initial(s)
    ensures var s' := Run(s, actions);
      && k <= |s'.pushed| && s'.store.main + s'.store.alt == s'.pushed[k..]
      && Picks(Drained(s'.left), s'.pushed[..k], at)
      && ((forall i :: 0 <= i < |s'.left| ==> !s'.left[i].expired) ==>
            Drained(s'.left) + s'.store.main + s'.store.alt == s'.pushed)
  {
    assert Items(s.left) == [];
    RunKeepsInv(s, actions);
    var s' := Run(s, actions);
    k := |s'.left|;
    assert s'.pushed == Items(s'.left) + (s'.store.main + s'.store.alt);
    assert s'.pushed[..k] == Items(s'.left);
    at := DrainedPicks(s'.left);
    if forall i :: 0 <= i < |s'.left| ==> !s'.left[i].expired {
      NothingExpired(s'.left);
    }
  }

  /**
    An item is lost only by a push, only one at a time, and only if the last drain is longer ago than the
    expiration; the timer moves only when a drain empties main.
   */
  lemma LossIsDue<T>(s: Machine<T>, a: Action<T>)
    requires Inv(s)
    ensures var s' := Next(s, a);
      && (forall i :: |s.left| <= i < |s'.left| && s'.left[i].expired ==>
            a.AdvancePush? && i == |s.left| && s.now - s.store.timer > s.expiration)
      && (s'.store.timer == s.store.timer || (s'.store.timer == s'.now && s'.store.main == [] && a.AdvanceDrain?))
  {
  }

  // ----- waiting -----

  /** A push under way can always take its next step: it never waits for a drainer. */
  lemma PushNeverWaits<T>(s: Machine<T>)
    requires Inv(s) && !s.pusher.PushIdle?
    ensures NextPush(s).Some?
  {
    if s.pusher.GotBoth? {
      assert s.mainLock.ByPusher?;
    }
  }

  /** The thread that holds main can take its next step. */
  ghost predicate HolderMoves<T>(s: Machine<T>) {
    match s.mainLock
    case Free => false
    case ByPusher => !s.pusher.PushIdle? && NextPush(s).Some?
    case ByDrainer(e) => e in s.drainers && NextDrain(s, e).Some?
  }

  /** A drainer at work can take its next step, or waits for main while the holder of main can take one. */
  lemma NoDeadlock<T>(s: Machine<T>, d: nat)
    requires Inv(s) && d in s.drainers
    ensures NextDrain(s, d).Some? || (s.drainers[d].WantsMain? && HolderMoves(s))
  {
    match s.mainLock
    case Free =>
    case ByPusher =>
      PushNeverWaits(s);
      assert s.mainLock != ByDrainer(d);
    case ByDrainer(e) =>
      assert s.drainers[e].WantsTimer? || s.drainers[e].Draining?;
      if s.drainers[e].WantsTimer? { TimerIsFree(s, e); }
      assert d != e ==> s.mainLock != ByDrainer(d);
  }

  lemma TimerIsFree<T>(s: Machine<T>, e: nat)
    requires LocksOk(s) && e in s.drainers && s.drainers[e].WantsTimer?
    ensures s.timerWriter.None? && !s.timerReader
  {
    assert s.mainLock == ByDrainer(e);
  }

  /** The steps a push still needs. */
  function StepsLeft<T>(pc: PushPc<T>): nat {
    match pc
    case PushIdle => 0
    case GotMain(_) => 4
    case GotBoth(_) => 3
    case Reading(_) => 2
    case Timed(_, _) => 1
    case MissedMain(_) => 2
    case GotAlt(_) => 1
  }

  /** How often the pusher is given a turn. */
  function Turns<T>(actions: seq<Action<T>>): nat {
    if actions == [] then 0 else (if actions[0].AdvancePush? then 1 else 0) + Turns(actions[1..])
  }

  /** A turn of the pusher brings the push one step nearer to its end; nobody else's turn touches it. */
  lemma NextMovesPush<T>(s: Machine<T>, a: Action<T>)
    requires Inv(s) && !s.pusher.PushIdle?
    ensures var s' := Next(s, a);
      && StepsLeft(s'.pusher) == StepsLeft(s.pusher) - (if a.AdvancePush? then 1 else 0)
      && s'.pushed == s.pushed + (if s'.pusher.PushIdle? then [s.pusher.item] else [])
      && (!s'.pusher.PushIdle? ==> s'.pusher.item == s.pusher.item)
  {
    PushNeverWaits(s);
  }

  /** A push is over after at most four turns of its own, whatever the drainers and the clock do in between. */
  lemma {:induction false} PushIsWaitFree<T>(s: Machine<T>, actions: seq<Action<T>>) returns (n: nat)
    requires Inv(s) && !s.pusher.PushIdle? && Turns(actions) >= StepsLeft(s.pusher)
    ensures n <= |actions| && Run(s, actions[..n]).pusher.PushIdle?
    ensures Run(s, actions[..n]).pushed == s.pushed + [s.pusher.item]
    decreases |actions|
  {
    var s' := Next(s, actions[0]);
    NextKeepsInv(s, actions[0]);
    NextMovesPush(s, actions[0]);
    if s'.pusher.PushIdle? {
      n := 1;
      assert actions[..1][1..] == [];
    } else {
      var m := PushIsWaitFree(s', actions[1..]);
      n := m + 1;
      assert actions[..n][1..] == actions[1..][..m];
    }
    assert actions[..n][0] == actions[0];
  }

  /** In every reachable state a push under way can go on, and a drainer can or waits for one that can. */
  lemma ReachableStatesMove<T>(s: Machine<T>, actions: seq<Action<T>>, d: nat)
    requires Initial(s) && d in Run(s, actions).drainers
    ensures var s' := Run(s, actions);
      && (!s'.pusher.PushIdle? ==> NextPush(s').Some?)
      && (NextDrain(s', d).Some? || (s'.drainers[d].WantsMain? && HolderMoves(s')))
  {
    assert Items(s.left) == [];
    RunKeepsInv(s, actions);
    var s' := Run(s, actions);
    if !s'.pusher.PushIdle? { PushNeverWaits(s'); }
    NoDeadlock(s', d);
  }

  // ----- undisturbed, the steps add up to the critical sections -----

  lemma PushAlone<T>(s: Machine<T>, item: T)
    requires Inv(s) && s.pusher.PushIdle? && s.mainLock.Free?
    ensures var s' := Next(Next(Next(Next(Begin(s, item), AdvancePush), AdvancePush), AdvancePush), AdvancePush);
      && s'.store == PushedMain(s.store, item, s.now, s.expiration)
      && s'.pusher.PushIdle? && s'.pushed == s.pushed + [item]
  {
    var s1 := Begin(s, item);
    var s2 := Next(s1, AdvancePush);
    NextKeepsInv(s, BeginPush(item));
    NextKeepsInv(s1, AdvancePush);
    PushNeverWaits(s1);
    PushNeverWaits(s2);
  }

  lemma DrainAlone<T>(s: Machine<T>, d: nat)
    requires Inv(s) && d in s.drainers && s.drainers[d].WantsMain? && s.mainLock.Free?
    ensures var s' := Next(Next(Next(s, AdvanceDrain(d)), AdvanceDrain(d)), AdvanceDrain(d));
      && s'.left == s.left + Marked(s.store.main, false) && s'.store == Emptied(s.store, s.now)
      && s'.drainers == s.drainers[d := DrainIdle]
  {
    var s1 := Next(s, AdvanceDrain(d));
    NextKeepsInv(s, AdvanceDrain(d));
    TimerIsFree(s1, d);
  }
}
