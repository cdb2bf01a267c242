/**
 The replicas a rollingset's standby scheduling works on, how they are counted, and what becomes of one that is
 converted to a standby mode. A replica is known by its identity; conversion changes its other fields.
 */
module StandbyReplicas {

  datatype Mode = Unset | Active | Hot | Warm | Cold | Inactive

  datatype Id = Existing(name: string) | Created(index: nat)

  datatype Replica = Replica(
    id: Id,
    mode: Mode,           // spec.workerMode
    statusMode: Mode,     // status.workerMode
    version: string,
    releasing: bool,
    persisted: bool,      // has a UID
    silentMark: bool,     // the "silent node" annotation is "true"
    silentWindow: bool,   // the silence start time is recorded and still recent
    fed: bool,            // status.isFedWorker
    resUpdating: bool,    // the cold resource update annotation is present
    resReached: bool)     // its target resource version is reached and the worker is complete

  predicate IsStandby(m: Mode) { m != Unset && m != Active }

  function Min(a: int, b: int): int { if a < b then a else b }

  function Max0(a: int): nat { if a < 0 then 0 else a }

  // ----- counting

  function IdsOf(s: seq<Replica>): (r: seq<Id>)
    ensures |r| == |s|
  {
    seq(|s|, i requires 0 <= i < |s| => s[i].id)
  }

  function ModesOf(s: seq<Replica>): (r: seq<Mode>)
    ensures |r| == |s|
  {
    seq(|s|, i requires 0 <= i < |s| => s[i].mode)
  }

  ghost function Count(s: seq<Replica>, m: Mode): nat { multiset(ModesOf(s))[m] }

  lemma CountConcat(a: seq<Replica>, b: seq<Replica>, m: Mode)
    ensures Count(a + b, m) == Count(a, m) + Count(b, m)
  {
    assert ModesOf(a + b) == ModesOf(a) + ModesOf(b);
  }

  ghost function Ids(s: seq<Replica>): multiset<Id> { multiset(IdsOf(s)) }

  lemma IdsConcat(a: seq<Replica>, b: seq<Replica>)
    ensures Ids(a + b) == Ids(a) + Ids(b)
  {
    assert IdsOf(a + b) == IdsOf(a) + IdsOf(b);
  }

  lemma IdsOne(s: seq<Replica>, r: Replica)
    ensures Ids(s + [r]) == Ids(s) + multiset{r.id}
  {
    IdsConcat(s, [r]);
    assert IdsOf([r]) == [r.id];
  }

  lemma CountOne(s: seq<Replica>, r: Replica, m: Mode)
    ensures Count(s + [r], m) == Count(s, m) + if r.mode == m then 1 else 0
  {
    CountConcat(s, [r], m);
    assert ModesOf([r]) == [r.mode];
  }

  /** The replicas that are not being released, in order. */
  function Usable(s: seq<Replica>): (u: seq<Replica>)
    ensures |u| <= |s|
  {
    if s == [] then []
    else Usable(s[..|s| - 1]) + if s[|s| - 1].releasing then [] else [s[|s| - 1]]
  }

  lemma UsableOne(s: seq<Replica>, r: Replica)
    ensures Usable(s + [r]) == if r.releasing then Usable(s) else Usable(s) + [r]
  {
    assert (s + [r])[..|s|] == s;
  }

  /** A list has no replica being released exactly when all of it is usable. */
  lemma {:induction false} AllUsable(s: seq<Replica>)
    ensures (forall r :: r in s ==> !r.releasing) <==> |Usable(s)| == |s|
    ensures |Usable(s)| == |s| ==> Usable(s) == s
  {
    if s != [] {
      var front, r := s[..|s| - 1], s[|s| - 1];
      AllUsable(front);
      assert s == front + [r];
    }
  }

  /** The standby modes count at most everything, and everything when there is no other mode. */
  lemma {:induction false} CountsSum(s: seq<Replica>)
    ensures Count(s, Hot) + Count(s, Warm) + Count(s, Cold) + Count(s, Inactive) <= |s|
    ensures (forall r :: r in s ==> IsStandby(r.mode)) ==>
            Count(s, Hot) + Count(s, Warm) + Count(s, Cold) + Count(s, Inactive) == |s|
  {
    if s == [] {
      assert ModesOf(s) == [];
    } else {
      var front, r := s[..|s| - 1], s[|s| - 1];
      assert s == front + [r];
      CountsSum(front);
      CountOne(front, r, Hot);
      CountOne(front, r, Warm);
      CountOne(front, r, Cold);
      CountOne(front, r, Inactive);
      hide Count;
    }
  }

  // ----- converting one replica

  predicate SilenceNode(r: Replica) { r.silentMark && (r.mode == Hot || r.statusMode == Hot) }

  predicate InSilence(r: Replica) {
    r.silentWindow && (r.statusMode == Active || r.statusMode == Hot || r.statusMode == Unset)
  }

  /** The replica after `SyncSilence`, and whether its mode must be left alone. */
  function SyncSilence(r: Replica, target: Mode): (Replica, bool)
    requires IsStandby(target)
  {
    if !r.persisted || target == Inactive then (r, false)
    else if !IsStandby(r.mode) && !SilenceNode(r) then
      (r.(silentMark := true, silentWindow := r.silentWindow || !r.silentMark, mode := Hot), true)
    else (r, InSilence(r))
  }

  /** The mode is set unless it must be left alone; a federated replica is not left cold. */
  function Place(r: Replica, silent: bool, target: Mode): (c: Replica)
    ensures c == r.(mode := c.mode)
  {
    var m := if silent then r.mode else target;
    r.(mode := if m == Cold && r.fed then Warm else m)
  }

  /** A cold resource update ends, holds the replica warm, or does not matter. */
  function Renew(r: Replica, latest: string): (c: Replica)
    ensures c == r.(mode := c.mode, version := c.version, resUpdating := r.resUpdating && !r.resReached)
  {
    if r.resUpdating && r.resReached then r.(resUpdating := false, version := latest)
    else if r.resUpdating && r.mode == Cold then r.(mode := Warm)
    else r.(version := latest)
  }

  function Convert(r: Replica, target: Mode, latest: string): (c: Replica)
    requires IsStandby(target)
    ensures c.id == r.id && c.releasing == r.releasing && c.persisted == r.persisted && c.statusMode == r.statusMode
  {
    var (a, silent) := SyncSilence(r, target);
    Renew(Place(a, silent, target), latest)
  }

  /** A replica that the code does not leave cold: federated, or in an unfinished cold resource update. */
  predicate NotCold(r: Replica) { r.fed || (r.resUpdating && !r.resReached) }

  /** An ordinary running replica: stored, in no standby mode, and not going silent yet. */
  predicate Running(r: Replica) { r.persisted && (r.mode == Active || r.mode == Unset) && !(r.silentMark && r.statusMode == Hot) }

  /** Still within its silence, as its status tells. */
  predicate Silent(r: Replica) { r.silentWindow && r.statusMode != Warm && r.statusMode != Cold && r.statusMode != Inactive }

  /** Nothing holds the replica back: no silence to sit out, no federation rule, no unfinished cold resource update. */
  predicate Free(r: Replica) {
    !r.fed && !(r.resUpdating && !r.resReached) && !(r.persisted && Silent(r)) && !Running(r)
  }

  /** The mode before the rules for cold replicas: a running one goes hot first, a silent one sits its silence out. */
  function FirstMode(r: Replica, target: Mode): Mode {
    if target == Inactive || !r.persisted then target
    else if Running(r) then Hot
    else if Silent(r) then r.mode
    else target
  }

  /** The mode a replica ends in when it is given `target`. */
  function Becomes(r: Replica, target: Mode): Mode {
    if FirstMode(r, target) == Cold && NotCold(r) then Warm else FirstMode(r, target)
  }

  /** What the silence rules alone make of the mode. */
  lemma SilenceMode(r: Replica, target: Mode)
    requires IsStandby(target)
    ensures var (a, silent) := SyncSilence(r, target);
            && (if silent then a.mode else target) == FirstMode(r, target)
            && a.fed == r.fed && a.resUpdating == r.resUpdating && a.resReached == r.resReached && a.version == r.version
  {
  }

  lemma ConvertBecomes(r: Replica, target: Mode, latest: string)
    requires IsStandby(target)
    ensures Convert(r, target, latest).mode == Becomes(r, target)
  {
    SilenceMode(r, target);
    hide SyncSilence, FirstMode;
  }

  /** What conversion leaves on a replica: a running one that goes hot is marked silent, its time starting if it had none. */
  lemma ConvertMarks(r: Replica, target: Mode, latest: string)
    requires IsStandby(target)
    ensures var c := Convert(r, target, latest);
            && (c.silentMark <==> r.silentMark || (Running(r) && target != Inactive))
            && (c.silentWindow <==> r.silentWindow || (Running(r) && target != Inactive && !r.silentMark))
            && (c.resUpdating <==> r.resUpdating && !r.resReached) && c.resReached == r.resReached && c.fed == r.fed
  {
    SilenceMarks(r, target);
    hide SyncSilence, Running, Place, Renew;
  }

  lemma SilenceMarks(r: Replica, target: Mode)
    requires IsStandby(target)
    ensures var a := SyncSilence(r, target).0;
            && (a.silentMark <==> r.silentMark || (Running(r) && target != Inactive))
            && (a.silentWindow <==> r.silentWindow || (Running(r) && target != Inactive && !r.silentMark))
            && a.resUpdating == r.resUpdating && a.resReached == r.resReached && a.fed == r.fed
  {
  }

  /** A running replica that was not silent before stays hot however often it is converted while its silence lasts. */
  lemma StaysHot(r: Replica, first: Mode, second: Mode, latest: string, later: string)
    requires IsStandby(first) && first != Inactive && IsStandby(second) && second != Inactive
    requires Running(r) && !r.silentMark && (r.statusMode == Active || r.statusMode == Unset)
    ensures Convert(r, first, latest).mode == Hot && Convert(Convert(r, first, latest), second, later).mode == Hot
  {
    ConvertBecomes(r, first, latest);
    ConvertMarks(r, first, latest);
    ConvertBecomes(Convert(r, first, latest), second, later);
    hide Convert;
  }

  /** The version is brought up to date unless an unfinished resource update keeps the replica from going cold. */
  predicate Renews(r: Replica, target: Mode, latest: string) {
    r.version == latest || !(r.resUpdating && !r.resReached && !r.fed && FirstMode(r, target) == Cold)
  }

  lemma RenewsExactly(r: Replica, target: Mode, latest: string)
    requires IsStandby(target)
    ensures Convert(r, target, latest).version == latest <==> Renews(r, target, latest)
  {
    SilenceMode(r, target);
    hide SyncSilence, FirstMode;
  }

  /**
   When a replica takes the mode it is given: a running one takes hot and inactive, a silent one only what it has,
   and any other every mode but, under the rules for them, cold.
   */
  predicate Takes(r: Replica, target: Mode) {
    if Running(r) && target != Inactive then target == Hot
    else if r.persisted && Silent(r) && target != Inactive then
      if r.mode == Cold && NotCold(r) then target == Warm else target == r.mode
    else target == Cold ==> !NotCold(r)
  }

  lemma TakesExactly(r: Replica, target: Mode, latest: string)
    requires IsStandby(target)
    ensures Convert(r, target, latest).mode == target <==> Takes(r, target)
    ensures Becomes(r, target) == target <==> Takes(r, target)
  {
    ConvertBecomes(r, target, latest);
    hide Convert;
  }

  /** A replica takes every standby mode it is given exactly when nothing holds it back. */
  lemma FreeConverts(r: Replica, latest: string)
    ensures Free(r) <==> forall m :: IsStandby(m) ==> Convert(r, m, latest).mode == m
  {
    hide Convert;
    TakesExactly(r, Hot, latest);
    TakesExactly(r, Warm, latest);
    TakesExactly(r, Cold, latest);
    TakesExactly(r, Inactive, latest);
    assert Free(r) <==> Takes(r, Hot) && Takes(r, Warm) && Takes(r, Cold) && Takes(r, Inactive);
    hide Free, Takes, Becomes;
    assert IsStandby(Hot) && IsStandby(Warm) && IsStandby(Cold) && IsStandby(Inactive);
  }

  function Converted(s: seq<Replica>, target: Mode, latest: string): (r: seq<Replica>)
    requires IsStandby(target)
    ensures |r| == |s|
  {
    seq(|s|, i requires 0 <= i < |s| => Convert(s[i], target, latest))
  }

  lemma ConvertedIds(s: seq<Replica>, target: Mode, latest: string)
    requires IsStandby(target)
    ensures IdsOf(Converted(s, target, latest)) == IdsOf(s)
    ensures (forall r :: r in s ==> !r.releasing) ==> forall r :: r in Converted(s, target, latest) ==> !r.releasing
  {
    hide Convert;
  }

  lemma ConvertedInMode(s: seq<Replica>, target: Mode, latest: string)
    requires IsStandby(target)
    ensures (forall r :: r in Converted(s, target, latest) ==> r.mode == target) <==> forall r :: r in s ==> Takes(r, target)
    ensures (forall r :: r in Converted(s, target, latest) ==> r.version == latest) <==> forall r :: r in s ==> Renews(r, target, latest)
  {
    var c := Converted(s, target, latest);
    assert forall i :: 0 <= i < |s| ==> c[i] == Convert(s[i], target, latest) && c[i] in c && s[i] in s;
    hide Converted, Convert, Takes, Renews;
    forall i | 0 <= i < |s|
      ensures (c[i].mode == target <==> Takes(s[i], target)) && (c[i].version == latest <==> Renews(s[i], target, latest))
    {
      TakesExactly(s[i], target, latest);
      RenewsExactly(s[i], target, latest);
    }
  }

  /** How many of `s`, all given `target`, end in mode `x`. */
  function Yield(s: seq<Replica>, target: Mode, x: Mode): (n: nat)
    ensures n <= |s|
  {
    if s == [] then 0 else Yield(s[..|s| - 1], target, x) + if Becomes(s[|s| - 1], target) == x then 1 else 0
  }

  lemma {:induction false} ConvertedYield(s: seq<Replica>, target: Mode, latest: string, x: Mode)
    requires IsStandby(target)
    ensures Count(Converted(s, target, latest), x) == Yield(s, target, x)
  {
    if s == [] {
      assert ModesOf(Converted(s, target, latest)) == [];
    } else {
      var front, r := s[..|s| - 1], s[|s| - 1];
      ConvertedYield(front, target, latest, x);
      ConvertBecomes(r, target, latest);
      assert Converted(s, target, latest) == Converted(front, target, latest) + [Convert(r, target, latest)];
      CountOne(Converted(front, target, latest), Convert(r, target, latest), x);
      hide Convert, Converted, Count, Becomes;
    }
  }

  lemma {:induction false} YieldConcat(a: seq<Replica>, b: seq<Replica>, target: Mode, x: Mode)
    ensures Yield(a + b, target, x) == Yield(a, target, x) + Yield(b, target, x)
  {
    hide Becomes;
    if b == [] {
      assert a + b == a;
    } else {
      var n := |b| - 1;
      assert (a + b)[..|a + b| - 1] == a + b[..n];
      YieldConcat(a, b[..n], target, x);
    }
  }

  /** All of `s` end in the mode they are given exactly when each takes it. */
  lemma {:induction false} YieldAll(s: seq<Replica>, target: Mode)
    requires IsStandby(target)
    ensures Yield(s, target, target) == |s| <==> forall r :: r in s ==> Takes(r, target)
  {
    if s != [] {
      var front, r := s[..|s| - 1], s[|s| - 1];
      YieldAll(front, target);
      TakesExactly(r, target, "");
      hide Becomes, Takes, Convert;
      assert s == front + [r];
    }
  }

  /** Where every replica takes its mode, none ends in another. */
  lemma {:induction false} YieldOther(s: seq<Replica>, target: Mode, x: Mode)
    requires IsStandby(target) && x != target && forall r :: r in s ==> Takes(r, target)
    ensures Yield(s, target, x) == 0
  {
    if s != [] {
      var front, r := s[..|s| - 1], s[|s| - 1];
      YieldOther(front, target, x);
      TakesExactly(r, target, "");
      hide Becomes, Takes, Convert;
    }
  }
}
