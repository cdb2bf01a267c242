/**
 Keeping the standby replicas of a rollingset at their targets: redundant replicas that already are standbys
 of the right version are kept, shortfalls are filled by converting other redundants and then by creating
 replicas.
 */
module StandbySupplement {
  import opened Wrappers
  import opened StandbyReplicas

  const MAX_BATCH := 4000

  // ----- targets per mode

  datatype Ratios = Ratios(hot: int, warm: int, inactive: int)

  datatype Targets = Targets(hot: int, warm: int, cold: int, inactive: int) {
    function Of(m: Mode): int {
      match m case Hot => hot case Warm => warm case Cold => cold case Inactive => inactive case _ => 0
    }
    predicate NonNegative() { hot >= 0 && warm >= 0 && cold >= 0 && inactive >= 0 }
    function Sum(): int { hot + warm + cold + inactive }
  }

  /** The least integer that is at least `x / 100`. */
  function CeilPercent(x: int): (r: int)
    ensures 100 * (r - 1) < x <= 100 * r
  {
    -((-x) / 100)
  }

  function CountsByRatio(standbys: int, ratios: Ratios): Targets {
    var hot := CeilPercent(standbys * ratios.hot);
    var warm := Min(standbys - hot, CeilPercent(standbys * ratios.warm));
    if ratios.inactive == 100 then Targets(hot, warm, 0, standbys) else Targets(hot, warm, standbys - hot - warm, 0)
  }

  /** Hot is the rounded-up share; warm is too, as far as hot leaves room; the rest is cold, or all of it inactive. */
  lemma CountsAreCeilings(standbys: int, ratios: Ratios)
    ensures var t := CountsByRatio(standbys, ratios);
            && 100 * (t.hot - 1) < standbys * ratios.hot <= 100 * t.hot
            && t.hot + t.warm <= standbys && 100 * (t.warm - 1) < standbys * ratios.warm
            && (standbys * ratios.warm <= 100 * t.warm || t.hot + t.warm == standbys)
            && (ratios.inactive != 100 ==> t.inactive == 0 && t.Sum() == standbys)
            && (ratios.inactive == 100 ==> t.inactive == standbys && t.cold == 0)
  {
  }

  lemma CeilSign(standbys: nat, ratio: nat)
    ensures CeilPercent(standbys * ratio) >= 0
    ensures CeilPercent(standbys * ratio) == 0 <==> standbys == 0 || ratio == 0
    ensures ratio <= 100 ==> CeilPercent(standbys * ratio) <= standbys
  {
    var x := standbys * ratio;
    assert x >= 0;
    if standbys > 0 && ratio > 0 {
      assert x > 0;
    }
    if ratio <= 100 {
      assert x <= standbys * 100;
    }
  }

  /** The targets share out the standbys exactly unless everything is inactive while hot or warm ones are asked for too. */
  lemma TargetsSum(standbys: int, ratios: Ratios)
    ensures CountsByRatio(standbys, ratios).Sum() == standbys <==>
            ratios.inactive != 100 || CountsByRatio(standbys, ratios).hot + CountsByRatio(standbys, ratios).warm == 0
    ensures standbys > 0 && 0 <= ratios.hot <= 100 && 0 <= ratios.warm ==>
      (CountsByRatio(standbys, ratios).Sum() == standbys <==> ratios.inactive != 100 || ratios.hot == ratios.warm == 0)
  {
    if standbys > 0 && 0 <= ratios.hot <= 100 && 0 <= ratios.warm {
      CeilSign(standbys, ratios.hot);
      CeilSign(standbys, ratios.warm);
    }
  }

  /** No target is negative for ratios in range. */
  lemma TargetsNonNegative(standbys: nat, ratios: Ratios)
    requires 0 <= ratios.hot <= 100 && 0 <= ratios.warm
    ensures CountsByRatio(standbys, ratios).NonNegative()
  {
    CeilSign(standbys, ratios.hot);
    CeilSign(standbys, ratios.warm);
  }

  // ----- keeping standbys among the redundants

  datatype Split = Split(taken: seq<Replica>, left: seq<Replica>)

  predicate Eligible(r: Replica, latest: string) { IsStandby(r.mode) && r.version == latest }

  ghost function Keep(s: seq<Replica>, targets: Targets, standbys: int, latest: string): Split {
    if s == [] then Split([], [])
    else
      var p := Keep(s[..|s| - 1], targets, standbys, latest);
      var r := s[|s| - 1];
      if Eligible(r, latest) && |p.taken| < standbys && Count(p.taken, r.mode) < targets.Of(r.mode)
      then Split(p.taken + [r], p.left) else Split(p.taken, p.left + [r])
  }

  lemma {:induction false} KeepIds(s: seq<Replica>, targets: Targets, standbys: int, latest: string)
    ensures var k := Keep(s, targets, standbys, latest);
            multiset(k.taken) + multiset(k.left) == multiset(s) && Ids(k.taken) + Ids(k.left) == Ids(s)
  {
    if s != [] {
      var front, r := s[..|s| - 1], s[|s| - 1];
      KeepIds(front, targets, standbys, latest);
      assert s == front + [r];
      var p := Keep(front, targets, standbys, latest);
      var k := Keep(s, targets, standbys, latest);
      assert k == Split(p.taken + [r], p.left) || k == Split(p.taken, p.left + [r]);
      IdsOne(front, r);
      IdsOne(p.taken, r);
      IdsOne(p.left, r);
      hide Keep, Ids;
    }
  }

  ghost predicate Room(taken: seq<Replica>, m: Mode, targets: Targets, standbys: int) {
    |taken| < standbys && Count(taken, m) < targets.Of(m)
  }

  ghost predicate WithinTargets(taken: seq<Replica>, targets: Targets) {
    forall m :: Count(taken, m) <= Max0(targets.Of(m))
  }

  lemma OneMore(taken: seq<Replica>, r: Replica, targets: Targets, standbys: int)
    requires WithinTargets(taken, targets) && Room(taken, r.mode, targets, standbys)
    ensures WithinTargets(taken + [r], targets)
    ensures forall m :: !Room(taken, m, targets, standbys) ==> !Room(taken + [r], m, targets, standbys)
  {
    forall m ensures Count(taken + [r], m) == Count(taken, m) + if r.mode == m then 1 else 0 {
      CountOne(taken, r, m);
    }
    hide Count;
  }

  /** Keeping never exceeds a target, and turns no eligible replica away while there is room for its mode. */
  lemma {:induction false} KeepBounds(s: seq<Replica>, targets: Targets, standbys: int, latest: string)
    ensures var k := Keep(s, targets, standbys, latest);
            && (forall r :: r in k.taken ==> Eligible(r, latest))
            && |k.taken| <= Max0(standbys) && WithinTargets(k.taken, targets)
            && (forall r :: r in k.left && Eligible(r, latest) ==> !Room(k.taken, r.mode, targets, standbys))
  {
    if s == [] {
      assert ModesOf([]) == [];
    } else {
      var front, r := s[..|s| - 1], s[|s| - 1];
      KeepBounds(front, targets, standbys, latest);
      var p := Keep(front, targets, standbys, latest);
      var k := Keep(s, targets, standbys, latest);
      if Eligible(r, latest) && Room(p.taken, r.mode, targets, standbys) {
        assert k == Split(p.taken + [r], p.left);
        OneMore(p.taken, r, targets, standbys);
        hide Keep, Room, WithinTargets;
      } else {
        assert k == Split(p.taken, p.left + [r]);
        hide Keep, Room, WithinTargets;
      }
    }
  }

  // ----- who is kept

  /** How many replicas of mode `m` qualify for being kept. */
  function Eligibles(s: seq<Replica>, m: Mode, latest: string): nat {
    if s == [] then 0
    else Eligibles(s[..|s| - 1], m, latest) + if Eligible(s[|s| - 1], latest) && s[|s| - 1].mode == m then 1 else 0
  }

  function KeptOf(s: seq<Replica>, m: Mode, targets: Targets, latest: string): nat {
    Min(Eligibles(s, m, latest), Max0(targets.Of(m)))
  }

  /** How many the targets alone would keep. */
  function KeptOfAll(s: seq<Replica>, targets: Targets, latest: string): nat {
    KeptOf(s, Hot, targets, latest) + KeptOf(s, Warm, targets, latest) +
    KeptOf(s, Cold, targets, latest) + KeptOf(s, Inactive, targets, latest)
  }

  /** Whether `r`, coming after `before`, is kept: it qualifies, its mode still lacks one, and so does the total. */
  predicate Wins(before: seq<Replica>, r: Replica, targets: Targets, standbys: int, latest: string) {
    && Eligible(r, latest) && Eligibles(before, r.mode, latest) < targets.Of(r.mode)
    && KeptOfAll(before, targets, latest) < standbys
  }

  lemma KeptOfLast(s: seq<Replica>, targets: Targets, latest: string)
    requires s != []
    ensures var front, r := s[..|s| - 1], s[|s| - 1];
            var more := Eligible(r, latest) && Eligibles(front, r.mode, latest) < targets.Of(r.mode);
            && (forall m :: KeptOf(s, m, targets, latest) == KeptOf(front, m, targets, latest) + if more && r.mode == m then 1 else 0)
            && KeptOfAll(s, targets, latest) == KeptOfAll(front, targets, latest) + if more then 1 else 0
  {
  }

  /** Until the total is reached the kept replicas are the first ones of each mode; then no more are kept. */
  lemma {:induction false} KeepCounts(s: seq<Replica>, targets: Targets, standbys: int, latest: string)
    ensures var taken := Keep(s, targets, standbys, latest).taken;
            && (KeptOfAll(s, targets, latest) <= standbys ==>
                  && |taken| == KeptOfAll(s, targets, latest)
                  && forall m :: IsStandby(m) ==> Count(taken, m) == KeptOf(s, m, targets, latest))
            && (KeptOfAll(s, targets, latest) >= standbys ==> |taken| >= standbys)
  {
    if s == [] {
      assert ModesOf([]) == [];
    } else {
      var front, r := s[..|s| - 1], s[|s| - 1];
      KeepCounts(front, targets, standbys, latest);
      KeptOfLast(s, targets, latest);
      var p, k := Keep(front, targets, standbys, latest), Keep(s, targets, standbys, latest);
      assert k.taken == if Eligible(r, latest) && |p.taken| < standbys && Count(p.taken, r.mode) < targets.Of(r.mode)
                        then p.taken + [r] else p.taken;
      forall m ensures Count(p.taken + [r], m) == Count(p.taken, m) + if r.mode == m then 1 else 0 {
        CountOne(p.taken, r, m);
      }
      hide Keep, Count, KeptOfAll;
    }
  }

  ghost function Winners(s: seq<Replica>, targets: Targets, standbys: int, latest: string): seq<Replica> {
    if s == [] then []
    else
      var front, r := s[..|s| - 1], s[|s| - 1];
      Winners(front, targets, standbys, latest) + if Wins(front, r, targets, standbys, latest) then [r] else []
  }

  /** Exactly the winners are kept, in order; whether a replica is being released plays no part. */
  lemma {:induction false} KeptExactly(s: seq<Replica>, targets: Targets, standbys: int, latest: string)
    ensures Keep(s, targets, standbys, latest).taken == Winners(s, targets, standbys, latest)
  {
    if s != [] {
      var front, r := s[..|s| - 1], s[|s| - 1];
      KeptExactly(front, targets, standbys, latest);
      KeepCounts(front, targets, standbys, latest);
      hide Count, KeptOfAll;
    }
  }

  /** A replica being released is kept exactly when one wins. */
  lemma {:induction false} ReleasingKeptExactly(s: seq<Replica>, targets: Targets, standbys: int, latest: string)
    ensures (exists r :: r in Keep(s, targets, standbys, latest).taken && r.releasing) <==>
            exists i :: 0 <= i < |s| && s[i].releasing && Wins(s[..i], s[i], targets, standbys, latest)
  {
    KeptExactly(s, targets, standbys, latest);
    ReleasingWinners(s, targets, standbys, latest);
  }

  lemma {:induction false} ReleasingWinners(s: seq<Replica>, targets: Targets, standbys: int, latest: string)
    ensures (exists r :: r in Winners(s, targets, standbys, latest) && r.releasing) <==>
            exists i :: 0 <= i < |s| && s[i].releasing && Wins(s[..i], s[i], targets, standbys, latest)
  {
    hide Wins;
    if s != [] {
      var n := |s| - 1;
      var front := s[..n];
      ReleasingWinners(front, targets, standbys, latest);
      assert forall i :: 0 <= i < n ==> front[..i] == s[..i] && front[i] == s[i];
    }
  }

  /** A hot standby of the latest version that is being released is kept as a standby. */
  lemma ReleasingStandbyKept() returns (r: Replica)
    ensures r.releasing && Keep([r], Targets(1, 0, 0, 0), 1, r.version) == Split([r], [])
  {
    r := Replica(Existing("a"), Hot, Hot, "v", true, true, false, false, false, false, false);
    assert [r][..0] == [] && ModesOf([]) == [];
    assert Keep([r][..0], Targets(1, 0, 0, 0), 1, "v") == Split([], []);
  }

  // ----- filling a shortfall from the redundants

  /** The first `count` replicas not being released, and all the others. */
  function Take(s: seq<Replica>, count: int): Split {
    if s == [] then Split([], [])
    else
      var p := Take(s[..|s| - 1], count);
      var r := s[|s| - 1];
      if !r.releasing && |p.taken| < count then Split(p.taken + [r], p.left) else Split(p.taken, p.left + [r])
  }

  lemma {:induction false} TakeIds(s: seq<Replica>, count: int)
    ensures var t := Take(s, count);
            multiset(t.taken) + multiset(t.left) == multiset(s) && Ids(t.taken) + Ids(t.left) == Ids(s)
  {
    if s != [] {
      var front, r := s[..|s| - 1], s[|s| - 1];
      TakeIds(front, count);
      assert s == front + [r];
      var p := Take(front, count);
      var t := Take(s, count);
      assert t == Split(p.taken + [r], p.left) || t == Split(p.taken, p.left + [r]);
      IdsOne(front, r);
      IdsOne(p.taken, r);
      IdsOne(p.left, r);
      hide Take, Ids;
    }
  }

  lemma {:induction false} UsableOnly(s: seq<Replica>)
    ensures forall r :: r in Usable(s) ==> !r.releasing
  {
    if s != [] { UsableOnly(s[..|s| - 1]); }
  }

  lemma {:induction false} TakeFront(s: seq<Replica>, count: nat)
    ensures var t := Take(s, count);
            var n := Min(count, |Usable(s)|);
            t.taken == Usable(s)[..n] && Usable(t.left) == Usable(s)[n..]
  {
    if s != [] {
      var front, r := s[..|s| - 1], s[|s| - 1];
      TakeFront(front, count);
      var p, u := Take(front, count), Usable(front);
      assert Take(s, count) == if !r.releasing && |p.taken| < count then Split(p.taken + [r], p.left) else Split(p.taken, p.left + [r]);
      assert Usable(s) == if r.releasing then u else u + [r];
      hide Take, Usable;
      UsableOne(p.left, r);
      if !r.releasing { NextUsable(u, r, count); }
      hide Min;
    } else {
      assert Usable(s) == [] && Take(s, count) == Split([], []);
      hide Take, Usable;
    }
  }

  /** Taking is from the front of the usable replicas, and leaves the rest of them. */
  lemma TakeCounts(s: seq<Replica>, count: nat)
    ensures var t := Take(s, count);
            var n := Min(count, |Usable(s)|);
            && t.taken == Usable(s)[..n] && Usable(t.left) == Usable(s)[n..] && forall r :: r in t.taken ==> !r.releasing
  {
    TakeFront(s, count);
    UsableOnly(s);
    hide Take, Usable;
  }

  /** One more usable replica is taken if there is need for it and joins the rest otherwise. */
  lemma NextUsable(u: seq<Replica>, r: Replica, count: nat)
    ensures var n, m := Min(count, |u|), Min(count, |u| + 1);
            && (n < count ==> (u + [r])[..m] == u[..n] + [r] && (u + [r])[m..] == u[n..])
            && (n == count ==> (u + [r])[..m] == u[..n] && (u + [r])[m..] == u[n..] + [r])
  {
  }

  /** The replicas at hand: still redundant, chosen as standbys, and the identities of all known ones. */
  datatype Pool = Pool(redundants: seq<Replica>, standbys: seq<Replica>, known: seq<Id>)

  function NewReplica(id: Id): (r: Replica)
    ensures !r.persisted && !r.releasing && !NotCold(r) && r.id == id
  {
    Replica(id, Unset, Unset, "", false, false, false, false, false, false, false)
  }

  function NewReplicas(from: nat, n: nat): (r: seq<Replica>)
    ensures |r| == n && forall i :: 0 <= i < n ==>
      !r[i].persisted && !r[i].releasing && !NotCold(r[i]) && r[i].id == Created(from + i)
  {
    if n == 0 then [] else NewReplicas(from, n - 1) + [NewReplica(Created(from + n - 1))]
  }

  /** One mode's shortfall filled: redundants first, then at most one batch of new replicas. */
  function Supply(pool: Pool, count: int, target: Mode, latest: string): Pool
    requires IsStandby(target)
  {
    if count <= 0 then pool
    else
      var t := Take(pool.redundants, count);
      var added := NewReplicas(|pool.known|, Min(Max0(count - |t.taken|), MAX_BATCH));
      Pool(t.left, pool.standbys + Converted(t.taken + added, target, latest), pool.known + IdsOf(added))
  }

  ghost predicate Grows(before: Pool, after: Pool) {
    before.known <= after.known &&
    (forall i :: |before.known| <= i < |after.known| ==> after.known[i] == Created(i)) &&
    Ids(after.standbys) + Ids(after.redundants) ==
      Ids(before.standbys) + Ids(before.redundants) + multiset(after.known[|before.known|..])
  }

  lemma SupplyIds(pool: Pool, count: int, target: Mode, latest: string, t: Split, added: seq<Replica>)
    requires IsStandby(target) && Ids(t.taken) + Ids(t.left) == Ids(pool.redundants)
    ensures Ids(pool.standbys + Converted(t.taken + added, target, latest)) + Ids(t.left) ==
            Ids(pool.standbys) + Ids(pool.redundants) + multiset(IdsOf(added))
  {
    ConvertedIds(t.taken + added, target, latest);
    IdsConcat(t.taken, added);
    IdsConcat(pool.standbys, Converted(t.taken + added, target, latest));
    hide Converted, IdsOf;
  }

  lemma NewIds(known: seq<Id>, n: nat)
    ensures var ids := IdsOf(NewReplicas(|known|, n)); var after := known + ids;
            known <= after && after[|known|..] == ids && forall i :: |known| <= i < |after| ==> after[i] == Created(i)
  {
    var ids := IdsOf(NewReplicas(|known|, n));
    forall i | |known| <= i < |known| + n ensures (known + ids)[i] == Created(i) {
      assert (known + ids)[i] == ids[i - |known|];
    }
  }

  lemma GrowsBy(before: Pool, after: Pool, n: nat)
    requires var ids := IdsOf(NewReplicas(|before.known|, n));
             && after.known == before.known + ids
             && Ids(after.standbys) + Ids(after.redundants) == Ids(before.standbys) + Ids(before.redundants) + multiset(ids)
    ensures Grows(before, after)
  {
    hide Ids, NewReplicas;
    NewIds(before.known, n);
    hide IdsOf;
  }

  lemma GrowsNot(pool: Pool)
    ensures Grows(pool, pool)
  {
    hide Ids;
    assert pool.known[|pool.known|..] == [];
  }

  /** Filling a mode loses no replica and invents none but those recorded; new ones are made only when no usable redundant is left. */
  lemma SupplyGrows(pool: Pool, count: int, target: Mode, latest: string)
    requires IsStandby(target)
    ensures var p := Supply(pool, count, target, latest);
            Grows(pool, p) && (p.known != pool.known ==> Usable(p.redundants) == [])
  {
    hide Take, Convert, Converted, Usable, NewReplicas, Ids, IdsOf, Grows;
    SupplyIs(pool, count, target, latest);
    if count > 0 {
      var t := Take(pool.redundants, count);
      var made := Min(Max0(count - |t.taken|), MAX_BATCH);
      TakeIds(pool.redundants, count);
      SupplyIds(pool, count, target, latest, t, NewReplicas(|pool.known|, made));
      GrowsBy(pool, Supply(pool, count, target, latest), made);
      var u, n := Usable(pool.redundants), Min(count, |Usable(pool.redundants)|);
      assert n == |u| ==> u[n..] == [];
    } else {
      GrowsNot(pool);
    }
  }

  // ----- all modes

  datatype Order = Order(mode: Mode, count: int)

  predicate StandbyOrders(orders: seq<Order>) { forall o :: o in orders ==> IsStandby(o.mode) }

  predicate DistinctModes(orders: seq<Order>) {
    forall i, j :: 0 <= i < j < |orders| ==> orders[i].mode != orders[j].mode
  }

  ghost function Fill(pool: Pool, orders: seq<Order>, latest: string): Pool
    requires StandbyOrders(orders)
  {
    if orders == [] then pool
    else
      var n := |orders| - 1;
      Supply(Fill(pool, orders[..n], latest), orders[n].count, orders[n].mode, latest)
  }

  ghost function Orders(targets: Targets, kept: seq<Replica>): (o: seq<Order>)
    ensures |o| == 4 && o[0].mode == Hot && o[1].mode == Warm && o[2].mode == Cold && o[3].mode == Inactive
    ensures StandbyOrders(o) && DistinctModes(o)
  {
    [ Order(Hot, targets.hot - Count(kept, Hot)), Order(Warm, targets.warm - Count(kept, Warm)),
      Order(Cold, targets.cold - Count(kept, Cold)), Order(Inactive, targets.inactive - Count(kept, Inactive)) ]
  }

  /** How many usable redundants remain after the orders. */
  function Remaining(usable: nat, orders: seq<Order>): (r: nat)
    ensures r <= usable
  {
    if orders == [] then usable else Max0(Remaining(usable, orders[..|orders| - 1]) - Max0(orders[|orders| - 1].count))
  }

  /** The usable redundants that go to the last order. */
  function Given(u: seq<Replica>, orders: seq<Order>): (g: seq<Replica>)
    requires orders != []
    ensures forall r :: r in g ==> r in u
  {
    u[|u| - Remaining(|u|, orders[..|orders| - 1])..|u| - Remaining(|u|, orders)]
  }

  /** How many replicas are created for the last order. */
  function MadeLast(usable: nat, orders: seq<Order>): nat
    requires orders != []
  {
    var n := |orders| - 1;
    Min(Max0(orders[n].count - Remaining(usable, orders[..n])), MAX_BATCH)
  }

  function MadeAll(usable: nat, orders: seq<Order>): nat {
    if orders == [] then 0 else MadeAll(usable, orders[..|orders| - 1]) + MadeLast(usable, orders)
  }

  /** The standbys that fill the last order. */
  function Slot(u: seq<Replica>, known: nat, orders: seq<Order>, latest: string): seq<Replica>
    requires orders != [] && StandbyOrders(orders)
  {
    var n := |orders| - 1;
    Converted(Given(u, orders) + NewReplicas(known + MadeAll(|u|, orders[..n]), MadeLast(|u|, orders)), orders[n].mode, latest)
  }

  function Slots(u: seq<Replica>, known: nat, orders: seq<Order>, latest: string): seq<Replica>
    requires StandbyOrders(orders)
  {
    if orders == [] then [] else Slots(u, known, orders[..|orders| - 1], latest) + Slot(u, known, orders, latest)
  }

  lemma SupplyIs(pool: Pool, count: int, target: Mode, latest: string)
    requires IsStandby(target)
    ensures var p := Supply(pool, count, target, latest);
            var u := Usable(pool.redundants);
            var n := Min(Max0(count), |u|);
            var made := Min(Max0(count - |u|), MAX_BATCH);
            && Usable(p.redundants) == u[n..] && |p.known| == |pool.known| + made
            && p.standbys == pool.standbys + Converted(u[..n] + NewReplicas(|pool.known|, made), target, latest)
  {
    var u := Usable(pool.redundants);
    hide Take, Usable, Convert;
    if count > 0 {
      TakeCounts(pool.redundants, count);
    } else {
      assert u[..0] == [] && u[0..] == u;
      assert Converted([] + NewReplicas(|pool.known|, 0), target, latest) == [];
    }
  }

  lemma {:induction false} FillLeaves(pool: Pool, orders: seq<Order>, latest: string)
    requires StandbyOrders(orders)
    ensures var p := Fill(pool, orders, latest);
            var u := Usable(pool.redundants);
            Usable(p.redundants) == u[|u| - Remaining(|u|, orders)..] && |p.known| == |pool.known| + MadeAll(|u|, orders)
  {
    hide Supply, Usable, Converted;
    var u := Usable(pool.redundants);
    if orders == [] {
      assert u[0..] == u;
    } else {
      var n := |orders| - 1;
      FillLeaves(pool, orders[..n], latest);
      SupplyIs(Fill(pool, orders[..n], latest), orders[n].count, orders[n].mode, latest);
      GivenIs(u, orders);
      hide Given, NewReplicas;
    }
  }

  /** The whole filling in closed form: each order gets the next usable redundants and then new replicas. */
  lemma {:induction false} FillIs(pool: Pool, orders: seq<Order>, latest: string)
    requires StandbyOrders(orders)
    ensures Fill(pool, orders, latest).standbys == pool.standbys + Slots(Usable(pool.redundants), |pool.known|, orders, latest)
  {
    hide Supply, Usable, Slot, Converted, NewReplicas, Remaining, MadeAll, Given;
    if orders != [] {
      var u, n := Usable(pool.redundants), |orders| - 1;
      FillIs(pool, orders[..n], latest);
      FillLeaves(pool, orders[..n], latest);
      var q := Fill(pool, orders[..n], latest);
      SupplyIs(q, orders[n].count, orders[n].mode, latest);
      SlotIs(u, |pool.known|, orders, latest);
      var front, slot := Slots(u, |pool.known|, orders[..n], latest), Slot(u, |pool.known|, orders, latest);
      assert Fill(pool, orders, latest).standbys == q.standbys + slot;
      assert pool.standbys + (front + slot) == (pool.standbys + front) + slot;
    }
  }

  lemma SlotIs(u: seq<Replica>, known: nat, orders: seq<Order>, latest: string)
    requires orders != [] && StandbyOrders(orders)
    ensures var n := |orders| - 1;
            var rest := u[|u| - Remaining(|u|, orders[..n])..];
            var made := Min(Max0(orders[n].count - |rest|), MAX_BATCH);
            && made == MadeLast(|u|, orders)
            && Slot(u, known, orders, latest) ==
               Converted(rest[..Min(Max0(orders[n].count), |rest|)] + NewReplicas(known + MadeAll(|u|, orders[..n]), made),
                         orders[n].mode, latest)
  {
    GivenIs(u, orders);
    hide Remaining, Converted, NewReplicas, Given, MadeAll;
  }

  lemma GivenIs(u: seq<Replica>, orders: seq<Order>)
    requires orders != []
    ensures var n := |orders| - 1;
            var rest := u[|u| - Remaining(|u|, orders[..n])..];
            var k := Min(Max0(orders[n].count), |rest|);
            Given(u, orders) == rest[..k] && u[|u| - Remaining(|u|, orders)..] == rest[k..]
  {
  }

  lemma GrowsOn(a: Pool, b: Pool, c: Pool)
    requires Grows(a, b) && Grows(b, c)
    ensures Grows(a, c)
  {
    assert c.known[|a.known|..] == b.known[|a.known|..] + c.known[|b.known|..];
    hide Ids;
  }

  lemma {:induction false} FillGrows(pool: Pool, orders: seq<Order>, latest: string)
    requires StandbyOrders(orders)
    ensures var p := Fill(pool, orders, latest);
            Grows(pool, p) && (p.known != pool.known ==> Usable(p.redundants) == [])
  {
    hide Supply, Usable, Converted, NewReplicas;
    if orders == [] {
      assert pool.known[|pool.known|..] == [];
    } else {
      hide Grows;
      var n := |orders| - 1;
      FillGrows(pool, orders[..n], latest);
      var q := Fill(pool, orders[..n], latest);
      SupplyGrows(q, orders[n].count, orders[n].mode, latest);
      var p := Supply(q, orders[n].count, orders[n].mode, latest);
      GrowsOn(pool, q, p);
      SupplyIs(q, orders[n].count, orders[n].mode, latest);
      assert p == Fill(pool, orders, latest);
    }
  }

  /** Replicas already chosen stay as they are, and a replica being released is never converted. */
  lemma {:induction false} FillSpares(pool: Pool, orders: seq<Order>, latest: string, r: Replica)
    requires StandbyOrders(orders)
    ensures var p := Fill(pool, orders, latest);
            pool.standbys <= p.standbys && (r.releasing ==> multiset(p.redundants)[r] == multiset(pool.redundants)[r])
  {
    if orders != [] {
      var n := |orders| - 1;
      FillSpares(pool, orders[..n], latest, r);
      var q := Fill(pool, orders[..n], latest);
      if orders[n].count > 0 {
        TakeIds(q.redundants, orders[n].count);
        TakeCounts(q.redundants, orders[n].count);
        hide Take;
      }
    }
  }

  // ----- how many each mode receives

  /** How many usable redundants end in mode `x`, whatever order they were given to. */
  function Became(u: seq<Replica>, orders: seq<Order>, x: Mode): nat {
    if orders == [] then 0
    else
      var n := |orders| - 1;
      Became(u, orders[..n], x) + Yield(Given(u, orders), orders[n].mode, x)
  }

  function Made(usable: nat, orders: seq<Order>, x: Mode): nat {
    if orders == [] then 0
    else
      var n := |orders| - 1;
      Made(usable, orders[..n], x) + if orders[n].mode == x then MadeLast(usable, orders) else 0
  }

  lemma NewTake(from: nat, n: nat, target: Mode, latest: string)
    ensures forall r :: r in NewReplicas(from, n) ==> Takes(r, target) && Renews(r, target, latest)
  {
    hide NewReplicas;
  }

  lemma NewYield(from: nat, n: nat, target: Mode, x: Mode)
    requires IsStandby(target)
    ensures Yield(NewReplicas(from, n), target, x) == if x == target then n else 0
  {
    hide NewReplicas, Takes, Yield;
    var s := NewReplicas(from, n);
    NewTake(from, n, target, "");
    YieldAll(s, target);
    if x != target { YieldOther(s, target, x); }
  }

  lemma SlotCount(u: seq<Replica>, known: nat, orders: seq<Order>, latest: string, x: Mode)
    requires orders != [] && StandbyOrders(orders)
    ensures var m := orders[|orders| - 1].mode;
            Count(Slot(u, known, orders, latest), x) ==
            Yield(Given(u, orders), m, x) + if x == m then MadeLast(|u|, orders) else 0
  {
    hide Count, Yield, Converted, NewReplicas, Given, MadeLast, MadeAll, Remaining;
    var n := |orders| - 1;
    var m, from := orders[n].mode, known + MadeAll(|u|, orders[..n]);
    var added := NewReplicas(from, MadeLast(|u|, orders));
    ConvertedYield(Given(u, orders) + added, m, latest, x);
    YieldConcat(Given(u, orders), added, m, x);
    NewYield(from, MadeLast(|u|, orders), m, x);
  }

  lemma {:induction false} SlotsCount(u: seq<Replica>, known: nat, orders: seq<Order>, latest: string, x: Mode)
    requires StandbyOrders(orders)
    ensures Count(Slots(u, known, orders, latest), x) == Became(u, orders, x) + Made(|u|, orders, x)
  {
    if orders == [] {
      assert ModesOf([]) == [];
    } else {
      var n := |orders| - 1;
      SlotsCount(u, known, orders[..n], latest, x);
      SlotCount(u, known, orders, latest, x);
      CountConcat(Slots(u, known, orders[..n], latest), Slot(u, known, orders, latest), x);
      hide Count, Slot, Given, Yield, MadeLast;
    }
  }

  /** What each mode ends up with: what was kept, the redundants that became it, and those made for it. */
  lemma FillCounts(pool: Pool, orders: seq<Order>, latest: string, x: Mode)
    requires StandbyOrders(orders)
    ensures var u := Usable(pool.redundants);
            Count(Fill(pool, orders, latest).standbys, x) ==
            Count(pool.standbys, x) + Became(u, orders, x) + Made(|u|, orders, x)
  {
    var u := Usable(pool.redundants);
    FillIs(pool, orders, latest);
    SlotsCount(u, |pool.known|, orders, latest, x);
    CountConcat(pool.standbys, Slots(u, |pool.known|, orders, latest), x);
    hide Count, Slots, Became, Made, Fill, Usable;
  }

  /** Everything that fills an order is in its mode exactly when each redundant given to it takes that mode. */
  lemma SlotInMode(u: seq<Replica>, known: nat, orders: seq<Order>, latest: string)
    requires orders != [] && StandbyOrders(orders)
    ensures var m := orders[|orders| - 1].mode;
            (forall r :: r in Slot(u, known, orders, latest) ==> r.mode == m) <==> forall r :: r in Given(u, orders) ==> Takes(r, m)
  {
    hide Takes, Renews, Converted, NewReplicas, Given, MadeAll, MadeLast, Remaining;
    var n := |orders| - 1;
    var m, given := orders[n].mode, Given(u, orders);
    var from, made := known + MadeAll(|u|, orders[..n]), MadeLast(|u|, orders);
    var added := NewReplicas(from, made);
    NewTake(from, made, m, latest);
    ConvertedInMode(given + added, m, latest);
    assert Slot(u, known, orders, latest) == Converted(given + added, m, latest);
    hide Slot;
  }

  /** Every shortfall beyond what the remaining redundants cover fits one batch. */
  predicate Coverable(usable: nat, orders: seq<Order>) {
    forall i :: 0 <= i < |orders| ==> orders[i].count - Remaining(usable, orders[..i]) <= MAX_BATCH
  }

  /** A batch is 4000 replicas: shortfalls up to that are covered by creation alone, and no larger one is. */
  lemma BatchCovers(usable: nat, orders: seq<Order>, m: Mode, count: int)
    ensures (forall i :: 0 <= i < |orders| ==> orders[i].count <= 4000) ==> Coverable(usable, orders)
    ensures Coverable(0, [Order(m, count)]) <==> count <= 4000
  {
    var one := [Order(m, count)];
    assert one[..0] == [] && one[0].count == count;
  }

  /** What one shortfall receives, from the number of usable redundants alone. */
  function Received(count: int, usable: nat): nat {
    Min(Max0(count), usable) + Min(Max0(count - usable), MAX_BATCH)
  }

  function TotalReceived(usable: nat, orders: seq<Order>): nat {
    if orders == [] then 0
    else
      var n := |orders| - 1;
      TotalReceived(usable, orders[..n]) + Received(orders[n].count, Remaining(usable, orders[..n]))
  }

  function TotalWanted(orders: seq<Order>): nat {
    if orders == [] then 0 else TotalWanted(orders[..|orders| - 1]) + Max0(orders[|orders| - 1].count)
  }

  /** Everything asked for is received exactly when every shortfall is coverable. */
  lemma {:induction false} ReceivedExactly(usable: nat, orders: seq<Order>)
    ensures TotalReceived(usable, orders) <= TotalWanted(orders)
    ensures TotalReceived(usable, orders) == TotalWanted(orders) <==> Coverable(usable, orders)
  {
    hide Remaining;
    if orders != [] {
      var n := |orders| - 1;
      ReceivedExactly(usable, orders[..n]);
      assert forall i :: 0 <= i < n ==> orders[..n][..i] == orders[..i] && orders[..n][i] == orders[i];
      assert Coverable(usable, orders) <==>
             Coverable(usable, orders[..n]) && orders[n].count - Remaining(usable, orders[..n]) <= MAX_BATCH;
      hide Coverable;
    }
  }

  lemma {:induction false} SlotsLength(u: seq<Replica>, known: nat, orders: seq<Order>, latest: string)
    requires StandbyOrders(orders)
    ensures |Slots(u, known, orders, latest)| == TotalReceived(|u|, orders)
    ensures (forall r :: r in u ==> !r.releasing) ==> forall r :: r in Slots(u, known, orders, latest) ==> !r.releasing
  {
    hide Convert, Converted, NewReplicas, Given, Remaining, MadeAll;
    if orders != [] {
      var n := |orders| - 1;
      SlotsLength(u, known, orders[..n], latest);
      var added := NewReplicas(known + MadeAll(|u|, orders[..n]), MadeLast(|u|, orders));
      ConvertedIds(Given(u, orders) + added, orders[n].mode, latest);
      GivenIs(u, orders);
    }
  }

  // ----- the whole step

  ghost function Supplemented(redundants: seq<Replica>, known: seq<Id>, targets: Targets, standbys: int, latest: string): Pool {
    var k := Keep(redundants, targets, standbys, latest);
    Fill(Pool(k.left, k.taken, known), Orders(targets, k.taken), latest)
  }

  /** Old redundants and created replicas are together exactly the standbys and the remaining redundants. */
  lemma Conservation(redundants: seq<Replica>, known: seq<Id>, targets: Targets, standbys: int, latest: string)
    ensures var p := Supplemented(redundants, known, targets, standbys, latest);
            && known <= p.known
            && Ids(p.standbys) + Ids(p.redundants) == Ids(redundants) + multiset(p.known[|known|..])
            && (p.known != known ==> Usable(p.redundants) == [])
  {
    var k := Keep(redundants, targets, standbys, latest);
    KeepIds(redundants, targets, standbys, latest);
    FillGrows(Pool(k.left, k.taken, known), Orders(targets, k.taken), latest);
    hide Keep, Fill, Usable, Ids;
  }

  /**
   The standbys are never more than the targets add up to, and exactly as many exactly when every shortfall is
   coverable.
   */
  lemma SizeAtTarget(redundants: seq<Replica>, known: seq<Id>, targets: Targets, standbys: int, latest: string)
    requires targets.NonNegative()
    ensures var p := Supplemented(redundants, known, targets, standbys, latest);
            var k := Keep(redundants, targets, standbys, latest);
            && |p.standbys| <= targets.Sum()
            && (|p.standbys| == targets.Sum() <==> Coverable(|Usable(k.left)|, Orders(targets, k.taken)))
  {
    var k := Keep(redundants, targets, standbys, latest);
    KeepBounds(redundants, targets, standbys, latest);
    var orders := Orders(targets, k.taken);
    FillIs(Pool(k.left, k.taken, known), orders, latest);
    SlotsLength(Usable(k.left), |known|, orders, latest);
    ReceivedExactly(|Usable(k.left)|, orders);
    CountsSum(k.taken);
    FourOrders(targets, k.taken);
    hide Keep, Fill, Usable, Coverable, TotalReceived, TotalWanted, Orders, Slots, Count;
  }

  lemma FourOrders(targets: Targets, kept: seq<Replica>)
    requires targets.NonNegative() && WithinTargets(kept, targets)
    ensures TotalWanted(Orders(targets, kept)) == targets.Sum() -
            (Count(kept, Hot) + Count(kept, Warm) + Count(kept, Cold) + Count(kept, Inactive))
  {
    var o := Orders(targets, kept);
    assert o[..0] == [] && o[..1][..0] == o[..0] && o[..2][..1] == o[..1] && o[..3][..2] == o[..2];
    assert forall i :: 0 <= i < 4 ==> Count(kept, o[i].mode) <= Max0(targets.Of(o[i].mode));
    assert o[0].count >= 0 && o[1].count >= 0 && o[2].count >= 0 && o[3].count >= 0;
    assert TotalWanted(o[..1]) == o[0].count;
    assert TotalWanted(o[..2]) == o[0].count + o[1].count;
    assert TotalWanted(o[..3]) == o[0].count + o[1].count + o[2].count;
    assert TotalWanted(o) == TotalWanted(o[..3]) + o[3].count;
  }

  /** As many redundants end in each mode as were given to its order. */
  predicate Balanced(u: seq<Replica>, orders: seq<Order>) {
    forall i :: 0 <= i < |orders| ==> Became(u, orders, orders[i].mode) == |Given(u, orders[..i + 1])|
  }

  /** Every redundant takes the mode of the order it is given to. */
  predicate AllTake(u: seq<Replica>, orders: seq<Order>) {
    forall i :: 0 <= i < |orders| ==> forall r :: r in Given(u, orders[..i + 1]) ==> Takes(r, orders[i].mode)
  }

  lemma {:induction false} MadeFor(usable: nat, orders: seq<Order>, x: Mode)
    requires DistinctModes(orders)
    ensures forall i :: 0 <= i < |orders| && orders[i].mode == x ==> Made(usable, orders, x) == MadeLast(usable, orders[..i + 1])
    ensures (forall i :: 0 <= i < |orders| ==> orders[i].mode != x) ==> Made(usable, orders, x) == 0
  {
    hide MadeLast;
    if orders != [] {
      var n := |orders| - 1;
      var front := orders[..n];
      MadeFor(usable, front, x);
      assert forall i :: 0 <= i < n ==> front[i] == orders[i] && front[..i + 1] == orders[..i + 1] && orders[i].mode != orders[n].mode;
      assert orders[..n + 1] == orders;
    }
  }

  /** What holds of all orders holds of all but the last, and of the last. */
  lemma FrontTakes(u: seq<Replica>, orders: seq<Order>)
    requires orders != [] && DistinctModes(orders) && StandbyOrders(orders) && AllTake(u, orders)
    ensures var n := |orders| - 1;
            && DistinctModes(orders[..n]) && StandbyOrders(orders[..n]) && AllTake(u, orders[..n])
            && IsStandby(orders[n].mode) && (forall r :: r in Given(u, orders) ==> Takes(r, orders[n].mode))
            && forall k :: 0 <= k < n ==> orders[..n][k] == orders[k] && orders[k].mode != orders[n].mode
  {
    hide Takes, Given;
    var n := |orders| - 1;
    assert orders[..n + 1] == orders;
    assert forall i :: 0 <= i < n ==> orders[..n][i] == orders[i] && orders[..n][..i + 1] == orders[..i + 1];
  }

  lemma {:induction false} BecameNone(u: seq<Replica>, orders: seq<Order>, x: Mode)
    requires DistinctModes(orders) && StandbyOrders(orders) && AllTake(u, orders)
    requires forall i :: 0 <= i < |orders| ==> orders[i].mode != x
    ensures Became(u, orders, x) == 0
  {
    hide Takes, Given, Yield, DistinctModes, StandbyOrders, AllTake;
    if orders != [] {
      FrontTakes(u, orders);
      BecameNone(u, orders[..|orders| - 1], x);
      YieldOther(Given(u, orders), orders[|orders| - 1].mode, x);
    }
  }

  lemma {:induction false} BecameFor(u: seq<Replica>, orders: seq<Order>, i: nat)
    requires DistinctModes(orders) && StandbyOrders(orders) && AllTake(u, orders) && i < |orders|
    ensures Became(u, orders, orders[i].mode) == |Given(u, orders[..i + 1])|
  {
    hide Takes, Given, Yield, DistinctModes, StandbyOrders, AllTake;
    var n, x := |orders| - 1, orders[i].mode;
    var front := orders[..n];
    FrontTakes(u, orders);
    assert Became(u, orders, x) == Became(u, front, x) + Yield(Given(u, orders), orders[n].mode, x);
    hide Became;
    if i == n {
      assert orders[..n + 1] == orders;
      BecameNone(u, front, x);
      YieldAll(Given(u, orders), x);
    } else {
      assert front[..i + 1] == orders[..i + 1] && front[i] == orders[i];
      BecameFor(u, front, i);
      YieldOther(Given(u, orders), orders[n].mode, x);
    }
  }

  /** Nothing needs making up for where every redundant takes its order's mode. */
  lemma TakersBalance(u: seq<Replica>, orders: seq<Order>)
    requires DistinctModes(orders) && StandbyOrders(orders) && AllTake(u, orders)
    ensures Balanced(u, orders)
  {
    hide Became, Given, AllTake;
    forall i | 0 <= i < |orders| ensures Became(u, orders, orders[i].mode) == |Given(u, orders[..i + 1])| {
      BecameFor(u, orders, i);
    }
  }

  lemma OrderAt(targets: Targets, kept: seq<Replica>, i: nat)
    requires i < 4 && WithinTargets(kept, targets)
    ensures var o := Orders(targets, kept);
            && o[i].count == targets.Of(o[i].mode) - Count(kept, o[i].mode)
            && (targets.Of(o[i].mode) >= 0 ==> o[i].count >= 0)
  {
    var o := Orders(targets, kept);
    assert Count(kept, o[i].mode) <= Max0(targets.Of(o[i].mode));
    hide Count, WithinTargets;
  }

  lemma GivenSize(u: seq<Replica>, orders: seq<Order>, i: nat)
    requires i < |orders|
    ensures var left := Remaining(|u|, orders[..i]);
            && |Given(u, orders[..i + 1])| == Min(Max0(orders[i].count), left)
            && MadeLast(|u|, orders[..i + 1]) == Min(Max0(orders[i].count - left), MAX_BATCH)
  {
    assert orders[..i + 1][..i] == orders[..i] && orders[..i + 1][i] == orders[i];
    GivenIs(u, orders[..i + 1]);
    hide Given, Remaining;
  }

  lemma OneMode(pool: Pool, orders: seq<Order>, latest: string, i: nat)
    requires StandbyOrders(orders) && DistinctModes(orders) && i < |orders|
    ensures var m, u := orders[i].mode, Usable(pool.redundants);
            Count(Fill(pool, orders, latest).standbys, m) ==
            Count(pool.standbys, m) + Became(u, orders, m) + MadeLast(|u|, orders[..i + 1])
  {
    hide Fill, Usable, Count, Became, MadeLast;
    FillCounts(pool, orders, latest, orders[i].mode);
    MadeFor(|Usable(pool.redundants)|, orders, orders[i].mode);
  }

  ghost predicate ModesMatch(s: seq<Replica>, targets: Targets) {
    forall m :: IsStandby(m) ==> Count(s, m) == targets.Of(m)
  }

  /** Counts at their targets add up to at least all of them. */
  lemma MatchSize(s: seq<Replica>, targets: Targets)
    requires ModesMatch(s, targets)
    ensures targets.NonNegative() && targets.Sum() <= |s|
  {
    CountsSum(s);
    assert Count(s, Hot) == targets.Of(Hot) && Count(s, Warm) == targets.Of(Warm);
    assert Count(s, Cold) == targets.Of(Cold) && Count(s, Inactive) == targets.Of(Inactive);
  }

  /**
   Each mode is exactly at its target if and only if no target is negative, every shortfall is coverable, and as many
   redundants end in each mode as were given to it; the last holds wherever each takes the mode it is given.
   */
  lemma ModesAtTarget(redundants: seq<Replica>, known: seq<Id>, targets: Targets, standbys: int, latest: string)
    ensures var p := Supplemented(redundants, known, targets, standbys, latest);
            var k := Keep(redundants, targets, standbys, latest);
            var u, orders := Usable(k.left), Orders(targets, k.taken);
            && (ModesMatch(p.standbys, targets) <==> targets.NonNegative() && Coverable(|u|, orders) && Balanced(u, orders))
            && (AllTake(u, orders) ==> Balanced(u, orders))
  {
    hide Keep, Fill, Orders, Usable, StandbyOrders, DistinctModes, Coverable, Balanced, AllTake, ModesMatch, WithinTargets;
    var k := Keep(redundants, targets, standbys, latest);
    var u, orders := Usable(k.left), Orders(targets, k.taken);
    KeepBounds(redundants, targets, standbys, latest);
    var p := Fill(Pool(k.left, k.taken, known), orders, latest);
    assert p == Supplemented(redundants, known, targets, standbys, latest);
    hide Supplemented;
    if AllTake(u, orders) { TakersBalance(u, orders); }
    if ModesMatch(p.standbys, targets) {
      MatchSize(p.standbys, targets);
      SizeAtTarget(redundants, known, targets, standbys, latest);
    }
    if targets.NonNegative() && Coverable(|u|, orders) {
      CoveredModes(Pool(k.left, k.taken, known), targets, latest);
    }
  }

  /** With everything covered, the counts match exactly when the conversions balance. */
  lemma CoveredModes(pool: Pool, targets: Targets, latest: string)
    requires WithinTargets(pool.standbys, targets) && targets.NonNegative()
    requires Coverable(|Usable(pool.redundants)|, Orders(targets, pool.standbys))
    ensures var orders := Orders(targets, pool.standbys);
            ModesMatch(Fill(pool, orders, latest).standbys, targets) <==> Balanced(Usable(pool.redundants), orders)
  {
    var orders := Orders(targets, pool.standbys);
    var u := Usable(pool.redundants);
    var s := Fill(pool, orders, latest).standbys;
    hide Count, Became, Given, Fill, Usable, Orders, WithinTargets, Coverable, ModesMatch, Balanced, StandbyOrders, DistinctModes;
    hide Remaining, IsStandby;
    CoveredMode(pool, targets, latest, 0);
    CoveredMode(pool, targets, latest, 1);
    CoveredMode(pool, targets, latest, 2);
    CoveredMode(pool, targets, latest, 3);
    FourModes(s, targets);
    FourGiven(u, orders);
  }

  lemma FourModes(s: seq<Replica>, targets: Targets)
    ensures ModesMatch(s, targets) <==>
            && Count(s, Hot) == targets.hot && Count(s, Warm) == targets.warm
            && Count(s, Cold) == targets.cold && Count(s, Inactive) == targets.inactive
  {
    assert IsStandby(Hot) && IsStandby(Warm) && IsStandby(Cold) && IsStandby(Inactive);
    hide Count;
  }

  lemma FourGiven(u: seq<Replica>, orders: seq<Order>)
    requires |orders| == 4
    ensures Balanced(u, orders) <==>
            && Became(u, orders, orders[0].mode) == |Given(u, orders[..1])| && Became(u, orders, orders[1].mode) == |Given(u, orders[..2])|
            && Became(u, orders, orders[2].mode) == |Given(u, orders[..3])| && Became(u, orders, orders[3].mode) == |Given(u, orders[..4])|
  {
    hide Became, Given;
  }

  lemma CoveredMode(pool: Pool, targets: Targets, latest: string, i: nat)
    requires i < 4 && WithinTargets(pool.standbys, targets) && targets.NonNegative()
    requires Coverable(|Usable(pool.redundants)|, Orders(targets, pool.standbys))
    ensures var orders := Orders(targets, pool.standbys);
            var m, u := orders[i].mode, Usable(pool.redundants);
            Count(Fill(pool, orders, latest).standbys, m) == targets.Of(m) <==> Became(u, orders, m) == |Given(u, orders[..i + 1])|
  {
    hide Count, Became, Given, Fill, Usable, Orders, Remaining, WithinTargets, MadeLast, StandbyOrders, DistinctModes;
    var orders, u := Orders(targets, pool.standbys), Usable(pool.redundants);
    OrderAt(targets, pool.standbys, i);
    OneMode(pool, orders, latest, i);
    GivenSize(u, orders, i);
    assert orders[i].count - Remaining(|u|, orders[..i]) <= MAX_BATCH;
    hide Coverable;
  }

  lemma SlotVersions(u: seq<Replica>, known: nat, orders: seq<Order>, latest: string)
    requires orders != [] && StandbyOrders(orders)
    ensures var m := orders[|orders| - 1].mode;
            (forall r :: r in Slot(u, known, orders, latest) ==> r.version == latest) <==>
            forall r :: r in Given(u, orders) ==> Renews(r, m, latest)
  {
    hide Takes, Renews, Converted, NewReplicas, Given, MadeAll, MadeLast, Remaining;
    var n := |orders| - 1;
    var m, given := orders[n].mode, Given(u, orders);
    var from, made := known + MadeAll(|u|, orders[..n]), MadeLast(|u|, orders);
    var added := NewReplicas(from, made);
    NewTake(from, made, m, latest);
    ConvertedInMode(given + added, m, latest);
    assert Slot(u, known, orders, latest) == Converted(given + added, m, latest);
    hide Slot;
  }

  predicate AllRenew(u: seq<Replica>, orders: seq<Order>, latest: string) {
    forall i :: 0 <= i < |orders| ==> forall r :: r in Given(u, orders[..i + 1]) ==> Renews(r, orders[i].mode, latest)
  }

  lemma {:induction false} SlotsVersions(u: seq<Replica>, known: nat, orders: seq<Order>, latest: string)
    requires StandbyOrders(orders)
    ensures (forall r :: r in Slots(u, known, orders, latest) ==> r.version == latest) <==> AllRenew(u, orders, latest)
  {
    hide Slot, Given, Renews;
    if orders != [] {
      var n := |orders| - 1;
      SlotsVersions(u, known, orders[..n], latest);
      SlotVersions(u, known, orders, latest);
      assert orders[..n + 1] == orders;
      assert forall i :: 0 <= i < n ==> orders[..n][i] == orders[i] && orders[..n][..i + 1] == orders[..i + 1];
    }
  }

  /** Every standby is at the latest version if and only if each redundant is renewed by the order it is given to. */
  lemma StandbysUpToDate(redundants: seq<Replica>, known: seq<Id>, targets: Targets, standbys: int, latest: string)
    ensures var p := Supplemented(redundants, known, targets, standbys, latest);
            var k := Keep(redundants, targets, standbys, latest);
            (forall r :: r in p.standbys ==> r.version == latest) <==> AllRenew(Usable(k.left), Orders(targets, k.taken), latest)
  {
    hide Keep, Fill, Usable, Orders, Slots, AllRenew;
    var k := Keep(redundants, targets, standbys, latest);
    var orders := Orders(targets, k.taken);
    KeepBounds(redundants, targets, standbys, latest);
    FillIs(Pool(k.left, k.taken, known), orders, latest);
    SlotsVersions(Usable(k.left), |known|, orders, latest);
  }

  lemma SupplyOne(r: Replica, target: Mode, latest: string)
    requires IsStandby(target) && !r.releasing
    ensures Supply(Pool([r], [], []), 1, target, latest) == Pool([], [Convert(r, target, latest)], [])
  {
    hide Convert;
    assert [r][..0] == [] && Take([], 1) == Split([], []);
    var t := Take([r], 1);
    assert t == Split([r], []);
    var added := NewReplicas(0, 0);
    assert added == [] && IdsOf(added) == [] && [r] + added == [r];
    assert Converted([r], target, latest) == [Convert(r, target, latest)];
    hide Take, Converted, NewReplicas, IdsOf;
  }

  /** A running redundant that is given a cold order becomes a hot standby: the code misses both targets. */
  lemma RunningBecomesHot() returns (r: Replica)
    ensures Running(r) && !r.releasing && !Takes(r, Cold)
    ensures var p := Supply(Pool([r], [], []), 1, Cold, "v"); |p.standbys| == 1 && p.standbys[0].mode == Hot && p.known == []
  {
    hide Supply, Convert;
    r := Replica(Existing("a"), Active, Active, "v", false, true, false, false, false, false, false);
    SupplyOne(r, Cold, "v");
    ConvertBecomes(r, Cold, "v");
  }

  /**
   Not counting the standbys that are being released: each mode is exactly at its target if and only if it is with
   them and none was kept.
   */
  lemma StayingAtTarget(redundants: seq<Replica>, known: seq<Id>, targets: Targets, standbys: int, latest: string)
    ensures var p := Supplemented(redundants, known, targets, standbys, latest);
            var k := Keep(redundants, targets, standbys, latest);
            ModesMatch(Usable(p.standbys), targets) <==>
            ModesMatch(p.standbys, targets) && forall r :: r in k.taken ==> !r.releasing
  {
    var p := Supplemented(redundants, known, targets, standbys, latest);
    var k := Keep(redundants, targets, standbys, latest);
    var u, orders := Usable(k.left), Orders(targets, k.taken);
    FillIs(Pool(k.left, k.taken, known), orders, latest);
    SlotsLength(u, |known|, orders, latest);
    UsableOnly(k.left);
    AllUsable(p.standbys);
    assert (forall r :: r in k.taken ==> !r.releasing) <==> |Usable(p.standbys)| == |p.standbys|;
    if ModesMatch(Usable(p.standbys), targets) {
      MatchSize(Usable(p.standbys), targets);
      SizeAtTarget(redundants, known, targets, standbys, latest);
    }
  }

  lemma UnknownIsAbsent(s: seq<Replica>, n: nat, id: Id)
    requires forall r :: r in s && r.id.Created? ==> r.id.index < n
    ensures id.Created? && id.index >= n ==> id !in Ids(s)
  {
    assert forall x :: x in IdsOf(s) && x.Created? ==> x.index < n;
  }

  /** No replica ends up twice, provided none was there twice and every created identity is on record. */
  lemma NoReplicaTwice(redundants: seq<Replica>, known: seq<Id>, targets: Targets, standbys: int, latest: string, id: Id)
    requires forall x :: Ids(redundants)[x] <= 1
    requires forall r :: r in redundants && r.id.Created? ==> r.id.index < |known|
    ensures var p := Supplemented(redundants, known, targets, standbys, latest);
            (Ids(p.standbys) + Ids(p.redundants))[id] <= 1
  {
    var p := Supplemented(redundants, known, targets, standbys, latest);
    var k := Keep(redundants, targets, standbys, latest);
    Conservation(redundants, known, targets, standbys, latest);
    FillGrows(Pool(k.left, k.taken, known), Orders(targets, k.taken), latest);
    var added := p.known[|known|..];
    assert forall i :: 0 <= i < |added| ==> added[i] == Created(|known| + i);
    AtMostOnce(added, id);
    UnknownIsAbsent(redundants, |known|, id);
    hide Keep, Fill, Supplemented, Ids, Orders;
  }

  lemma {:induction false} AtMostOnce(s: seq<Id>, id: Id)
    requires forall i, j :: 0 <= i < j < |s| ==> s[i] != s[j]
    ensures multiset(s)[id] <= 1
  {
    if s != [] {
      var n := |s| - 1;
      AtMostOnce(s[..n], id);
      assert s == s[..n] + [s[n]];
    }
  }

  datatype ScaleParams = ScaleParams(standbys: int, active: int, ratios: Ratios)

  /** The standby target, less the active replicas asked for beyond the plan for availability's sake. */
  function StandbyTarget(params: ScaleParams, active: nat, quickOnline: bool): int {
    if active > params.active && !quickOnline then params.standbys - (active - params.active) else params.standbys
  }

  /** The active replicas beyond the plan; quick online does not count them. */
  function Overshoot(params: ScaleParams, active: nat, quickOnline: bool): nat {
    if quickOnline then 0 else Max0(active - params.active)
  }

  /** Together with the active replicas there are exactly as many standbys as planned in all. */
  predicate TotalAsPlanned(params: ScaleParams, active: nat, quickOnline: bool, standbys: nat) {
    if active > params.active && !quickOnline then active + standbys == params.active + params.standbys
    else standbys == params.standbys
  }

  /** `Supplemented` for a standby count shared out exactly has that count exactly when every shortfall is coverable. */
  lemma SuppliedTotal(redundants: seq<Replica>, known: seq<Id>, ratios: Ratios, n: nat, latest: string)
    requires ratios.inactive != 100 && CountsByRatio(n, ratios).NonNegative()
    ensures var targets := CountsByRatio(n, ratios);
            var k := Keep(redundants, targets, n, latest);
            |Supplemented(redundants, known, targets, n, latest).standbys| == n <==>
            Coverable(|Usable(k.left)|, Orders(targets, k.taken))
  {
    hide Keep, Supplemented, Usable, Coverable, Orders, CountsByRatio;
    CountsAreCeilings(n, ratios);
    SizeAtTarget(redundants, known, CountsByRatio(n, ratios), n, latest);
  }

  /** The total is as planned exactly when every shortfall is coverable. */
  lemma PlannedTotal(params: ScaleParams, active: nat, quickOnline: bool, redundants: seq<Replica>, known: seq<Id>, latest: string)
    requires Overshoot(params, active, quickOnline) <= params.standbys
    ensures var n := params.standbys - Overshoot(params, active, quickOnline);
            var targets := CountsByRatio(n, params.ratios);
            var k := Keep(redundants, targets, n, latest);
            params.ratios.inactive != 100 && targets.NonNegative() ==>
              (TotalAsPlanned(params, active, quickOnline, |Supplemented(redundants, known, targets, n, latest).standbys|) <==>
               Coverable(|Usable(k.left)|, Orders(targets, k.taken)))
  {
    hide CountsByRatio, Supplemented, Keep, Orders, Usable, Coverable;
    var n := params.standbys - Overshoot(params, active, quickOnline);
    if params.ratios.inactive != 100 && CountsByRatio(n, params.ratios).NonNegative() {
      SuppliedTotal(redundants, known, params.ratios, n, latest);
    }
  }

  /** The lists the scheduling step works on; `redundants` is in the order the sort left it. */
  class StandbyArgs {
    var redundants: seq<Replica>
    var standbys: seq<Replica>
    var replicaSet: seq<Id>

    function State(): Pool
      reads this
    {
      Pool(redundants, standbys, replicaSet)
    }

    /** The first loop: usable redundants, as many as are wanted. */
    method TakeUsable(count: int) returns (chosen: seq<Replica>, left: seq<Replica>)
      ensures Split(chosen, left) == Take(redundants, count)
    {
      chosen, left := [], [];
      for i := 0 to |redundants|
        invariant Split(chosen, left) == Take(redundants[..i], count)
      {
        var r := redundants[i];
        assert redundants[..i + 1][..i] == redundants[..i];
        if r.releasing || |chosen| >= count {
          left := left + [r];
        } else {
          chosen := chosen + [r];
        }
      }
      assert redundants[..|redundants|] == redundants;
    }

    /** The second loop: new replicas, each on record. */
    method Create(n: nat) returns (added: seq<Replica>)
      modifies this`replicaSet
      ensures added == NewReplicas(|old(replicaSet)|, n) && replicaSet == old(replicaSet) + IdsOf(added)
    {
      added := [];
      assert IdsOf([]) == [];
      for i := 0 to n
        invariant added == NewReplicas(|old(replicaSet)|, i) && replicaSet == old(replicaSet) + IdsOf(added)
      {
        var r := NewReplica(Created(|replicaSet|));
        assert IdsOf(added + [r]) == IdsOf(added) + [r.id];
        replicaSet := replicaSet + [r.id];
        added := added + [r];
      }
    }

    /** Takes usable redundants for one mode and creates what is missing, up to one batch. */
    method SupplementNodes(count: int, target: Mode, latest: string) returns (nodes: seq<Replica>)
      requires IsStandby(target) && count > 0
      modifies this`redundants, this`replicaSet
      ensures Pool(redundants, standbys + nodes, replicaSet) == Supply(old(State()), count, target, latest)
    {
      hide Take, NewReplicas, Convert;
      var chosen, left := TakeUsable(count);
      var added := Create(Min(Max0(count - |chosen|), MAX_BATCH));
      chosen := chosen + added;
      nodes := [];
      for i := 0 to |chosen|
        invariant |nodes| == i && forall j :: 0 <= j < i ==> nodes[j] == Convert(chosen[j], target, latest)
      {
        nodes := nodes + [Convert(chosen[i], target, latest)];
      }
      assert nodes == Converted(chosen, target, latest);
      redundants := left;
    }

    /** Splits the redundants into standbys worth keeping and the rest, counting the kept ones by mode. */
    method KeepStandbys(targets: Targets, limit: int, latest: string) returns (counts: map<Mode, nat>)
      modifies this`redundants, this`standbys
      ensures Split(standbys, redundants) == Keep(old(redundants), targets, limit, latest)
      ensures forall m :: Count(standbys, m) == if m in counts then counts[m] else 0
    {
      var kept, rest := [], [];
      counts := map[];
      assert ModesOf([]) == [];
      for i := 0 to |redundants|
        invariant redundants == old(redundants)
        invariant Split(kept, rest) == Keep(redundants[..i], targets, limit, latest)
        invariant forall m :: Count(kept, m) == if m in counts then counts[m] else 0
      {
        var r := redundants[i];
        assert redundants[..i + 1][..i] == redundants[..i];
        var n := if r.mode in counts then counts[r.mode] else 0;
        hide Count;
        if Eligible(r, latest) && |kept| < limit && n < targets.Of(r.mode) {
          forall m ensures Count(kept + [r], m) == Count(kept, m) + if r.mode == m then 1 else 0 {
            CountOne(kept, r, m);
          }
          kept := kept + [r];
          counts := counts[r.mode := n + 1];
        } else {
          rest := rest + [r];
        }
      }
      assert redundants[..|redundants|] == redundants;
      standbys, redundants := kept, rest;
    }

    method FillMode(lack: int, target: Mode, latest: string)
      requires IsStandby(target)
      modifies this
      ensures State() == Supply(old(State()), lack, target, latest)
    {
      if lack > 0 {
        var nodes := SupplementNodes(lack, target, latest);
        standbys := standbys + nodes;
      }
    }

    /** Fills the four standby modes in turn. */
    method FillModes(targets: Targets, counts: map<Mode, nat>, latest: string)
      requires forall m :: Count(standbys, m) == if m in counts then counts[m] else 0
      modifies this
      ensures State() == Fill(old(State()), Orders(targets, old(standbys)), latest)
    {
      hide Count, Supply;
      var modes := [Hot, Warm, Cold, Inactive];
      ghost var orders := Orders(targets, standbys);
      for i := 0 to 4
        invariant State() == Fill(old(State()), orders[..i], latest)
      {
        var m := modes[i];
        var lack := targets.Of(m) - if m in counts then counts[m] else 0;
        assert orders[..i + 1][..i] == orders[..i] && orders[i] == Order(m, lack);
        FillMode(lack, m, latest);
      }
      assert orders[..4] == orders;
    }

    /**
     `ok` is false where the original panics: it allocates a list with the negative target as its capacity. That is
     exactly when the active replicas overshoot the plan by more than the standbys. Otherwise, with targets that share
     out the standbys, the total is as planned exactly when every shortfall is coverable.
     */
    method SupplementStandby(params: Option<ScaleParams>, active: nat, quickOnline: bool, latest: string) returns (ok: bool)
      modifies this
      ensures params.None? || params.value.standbys == 0 ==> ok && State() == old(State())
      ensures params.Some? && params.value.standbys != 0 ==>
        var over := Overshoot(params.value, active, quickOnline);
        var n := params.value.standbys - over;
        var targets := CountsByRatio(n, params.value.ratios);
        var k := Keep(old(redundants), targets, n, latest);
        && (ok <==> over <= params.value.standbys)
        && State() == (if ok then Supplemented(old(redundants), old(replicaSet), targets, n, latest) else old(State()))
        && (ok && params.value.ratios.inactive != 100 && targets.NonNegative() ==>
              (TotalAsPlanned(params.value, active, quickOnline, |standbys|) <==>
               Coverable(|Usable(k.left)|, Orders(targets, k.taken))))
    {
      if params.None? || params.value.standbys == 0 {
        return true;
      }
      hide CountsByRatio, Supplemented, Keep, Orders, Usable, Coverable, TotalAsPlanned;
      var limit := StandbyTarget(params.value, active, quickOnline);
      if limit < 0 {
        return false;
      }
      KeepAndFill(CountsByRatio(limit, params.value.ratios), limit, latest);
      PlannedTotal(params.value, active, quickOnline, old(redundants), old(replicaSet), latest);
      ok := true;
    }

    method KeepAndFill(targets: Targets, limit: int, latest: string)
      modifies this
      ensures State() == Supplemented(old(redundants), old(replicaSet), targets, limit, latest)
    {
      hide Keep, Count, Fill, Orders;
      var counts := KeepStandbys(targets, limit, latest);
      FillModes(targets, counts, latest);
    }
  }
}
