/**
 Rolling a group rollingset out to its sub rollingsets: each sub set has a target ratio of replicas at the
 latest version, and a budget of unavailable replicas limits how many sub sets start updating in one round.
 Sub sets are named by their position in the group's list.
 */
module SubRollout {
  import opened Wrappers

  datatype Group = Group(
    version: string,
    ratios: Option<map<string, int>>,   // latest version ratios by sub set name or pattern
    blacklist: seq<string>,
    paused: bool,
    canRollback: bool)

  datatype SubSet = SubSet(
    name: string,
    key: string,              // short unique key
    version: string,
    ratio: Option<int>,       // the saved latest version ratio
    paused: bool,
    replicas: Option<int>,
    updated: int,             // replicas already updated
    cost: int,                // replicas the strategy may take down during an update
    keysMatch: bool,          // unversioned template keys agree with the group's
    matched: bool)            // enough replicas are ready at the latest version

  // ----- the ratio asked for

  function SplitDots(s: string): (parts: seq<string>)
    ensures |parts| >= 1
  {
    if s == [] then [[]]
    else if s[0] == '.' then [[]] + SplitDots(s[1..])
    else var rest := SplitDots(s[1..]); [[s[0]] + rest[0]] + rest[1..]
  }

  /** The names under which a ratio may be given, most specific first. */
  function Patterns(s: SubSet): seq<string> {
    var parts := SplitDots(s.key);
    [s.name, s.key] + (if |parts| == 2 then [parts[0] + ".*"] else []) + ["*"]
  }

  function LatestRatio(g: Group, s: SubSet): int {
    if g.ratios.None? || s.key in g.blacklist then 0
    else if s.name in g.ratios.value then g.ratios.value[s.name]
    else if s.key in g.ratios.value then g.ratios.value[s.key]
    else
      var parts := SplitDots(s.key);
      if |parts| == 2 && parts[0] + ".*" in g.ratios.value then g.ratios.value[parts[0] + ".*"]
      else if "*" in g.ratios.value then g.ratios.value["*"]
      else 0
  }

  /** The ratio is that of the most specific pattern present, and 0 where there is none. */
  lemma MostSpecific(g: Group, s: SubSet, i: nat)
    requires g.ratios.Some? && s.key !in g.blacklist
    requires i < |Patterns(s)| && forall j :: 0 <= j < i ==> Patterns(s)[j] !in g.ratios.value
    ensures Patterns(s)[i] in g.ratios.value ==> LatestRatio(g, s) == g.ratios.value[Patterns(s)[i]]
    ensures i == |Patterns(s)| - 1 && Patterns(s)[i] !in g.ratios.value ==> LatestRatio(g, s) == 0
  {
    var p := Patterns(s);
    assert p[0] == s.name && p[1] == s.key && p[|p| - 1] == "*";
    var two := |SplitDots(s.key)| == 2;
    assert |p| == if two then 4 else 3;
    if i > 0 { assert p[0] !in g.ratios.value; }
    if i > 1 { assert p[1] !in g.ratios.value; }
    if i > 2 { assert p[2] !in g.ratios.value; }
  }

  /**
   The ratio a group asks of a sub set, as its settings say it: none without any ratios and none of a blacklisted one;
   otherwise that of the first pattern that has one.
   */
  ghost predicate Asks(g: Group, s: SubSet, r: int) {
    if g.ratios.None? || s.key in g.blacklist then r == 0
    else
      var p := Patterns(s);
      || (r == 0 && forall j :: 0 <= j < |p| ==> p[j] !in g.ratios.value)
      || exists i :: 0 <= i < |p| && p[i] in g.ratios.value && r == g.ratios.value[p[i]] && forall j :: 0 <= j < i ==> p[j] !in g.ratios.value
  }

  lemma AsksExactly(g: Group, s: SubSet, r: int)
    ensures Asks(g, s, r) <==> r == LatestRatio(g, s)
  {
    if g.ratios.Some? && s.key !in g.blacklist {
      var p, m := Patterns(s), g.ratios.value;
      var n := |p|;
      assert p[0] == s.name && p[1] == s.key && p[n - 1] == "*" && n == (if |SplitDots(s.key)| == 2 then 4 else 3);
      hide Patterns;
      if i :| 0 <= i < n && p[i] in m && forall j :: 0 <= j < i ==> p[j] !in m {
        MostSpecific(g, s, i);
        assert forall k :: 0 <= k < n && p[k] in m && (forall j :: 0 <= j < k ==> p[j] !in m) ==> k == i;
      } else {
        NonePresent(p, m);
        MostSpecific(g, s, n - 1);
      }
    }
  }

  /** If no element is the first one present, none is present. */
  lemma NonePresent(p: seq<string>, m: map<string, int>)
    requires forall i :: 0 <= i < |p| && p[i] in m ==> exists j :: 0 <= j < i && p[j] in m
    ensures forall i :: 0 <= i < |p| ==> p[i] !in m
  {
    var i := 0;
    while i < |p|
      invariant 0 <= i <= |p| && forall j :: 0 <= j < i ==> p[j] !in m
    {
      i := i + 1;
    }
  }

  predicate Dotless(s: string) { '.' !in s }

  lemma {:induction false} SplitDotless(s: string)
    ensures |SplitDots(s)| == 1 <==> Dotless(s)
    ensures Dotless(s) ==> SplitDots(s) == [s]
  {
    if s != [] {
      SplitDotless(s[1..]);
      assert s == [s[0]] + s[1..];
    }
  }

  /** A group pattern `a.*` is looked up exactly for keys of the form `a.b` with no further dot. */
  lemma {:induction false} SplitInTwo(a: string, b: string)
    requires Dotless(a)
    ensures SplitDots(a + "." + b)[0] == a
    ensures |SplitDots(a + "." + b)| == 2 <==> Dotless(b)
  {
    var s := a + "." + b;
    if a == [] {
      assert s[1..] == b;
      SplitDotless(b);
    } else {
      assert s[1..] == a[1..] + "." + b;
      SplitInTwo(a[1..], b);
      assert a == [a[0]] + a[1..];
    }
  }

  // ----- one sub set

  predicate Skipped(g: Group, s: SubSet) { s.key in g.blacklist || (s.paused && g.paused) }

  /** While pausing, the ratio follows what is already updated. */
  predicate Pausing(g: Group, s: SubSet) { g.paused && s.replicas.Some? && !s.paused }

  /** The original divides by the number of replicas. */
  predicate Crashes(g: Group, s: SubSet) { !Skipped(g, s) && Pausing(g, s) && s.replicas.value == 0 }

  /** Go's integer division. */
  function Quotient(a: int, b: int): int
    requires b != 0
  {
    if a >= 0 then a / b else -((-a) / b)
  }

  function Target(g: Group, s: SubSet): int
    requires !Skipped(g, s) && !Crashes(g, s)
  {
    var r := LatestRatio(g, s);
    if Pausing(g, s) then Quotient(s.updated * 100, s.replicas.value)
    else if !g.canRollback && s.version == g.version && r > 0 && s.ratio.Some? && r < s.ratio.value then s.ratio.value
    else r
  }

  predicate Wants(g: Group, s: SubSet)
    requires !Crashes(g, s)
  {
    !Skipped(g, s) &&
    var t := Target(g, s);
    s.version == "" || s.ratio.None? || Pausing(g, s) || (LatestRatio(g, s) != 0 && !s.keysMatch) ||
    (s.ratio.value != t && t != 0) || (s.version != g.version && t != 0)
  }

  predicate Rolling(g: Group, s: SubSet)
    requires !Crashes(g, s)
  {
    !Skipped(g, s) && s.version == g.version && s.ratio == Some(Target(g, s)) && !s.matched
  }

  predicate NoCrash(g: Group, subs: seq<SubSet>) { forall i :: 0 <= i < |subs| ==> !Crashes(g, subs[i]) }

  /** The sums of the whole choice also need every replica count, and the ratio of every blacklisted sub set. */
  predicate Breaks(g: Group, s: SubSet) {
    Crashes(g, s) || s.replicas.None? || (s.key in g.blacklist && s.ratio.None?)
  }

  predicate NoPanic(g: Group, subs: seq<SubSet>) { forall i :: 0 <= i < |subs| ==> !Breaks(g, subs[i]) }

  /** A chosen sub set as it is stored. */
  function Saved(g: Group, s: SubSet): SubSet
    requires !Skipped(g, s) && !Crashes(g, s)
  {
    s.(ratio := Some(Target(g, s)), version := g.version, paused := g.paused, keysMatch := true)
  }

  /** While the group pauses, an active sub set with a replica count takes the ratio it has reached. */
  predicate TakesReached(g: Group, s: SubSet) { g.paused && !s.paused && s.replicas.Some? }

  /** Rollback is off and the sub set, at the group's version, has more than the positive ratio asked for. */
  predicate HoldsOn(g: Group, s: SubSet, r: int) {
    !g.canRollback && s.version == g.version && s.ratio.Some? && 0 < r < s.ratio.value
  }

  /**
   When a sub set is to be updated, over the fields and the ratio asked for: never one that is blacklisted or was paused
   with the group; while pausing every other with a replica count; else one without a version or a ratio, and one that a
   ratio is asked of and that has another template, another version, or another ratio it may not hold on to.
   */
  lemma WantedExactly(g: Group, s: SubSet, r: int)
    requires Asks(g, s, r)
    ensures Crashes(g, s) <==> s.key !in g.blacklist && g.paused && !s.paused && s.replicas == Some(0)
    ensures !Crashes(g, s) ==>
            (Wants(g, s) <==>
               && s.key !in g.blacklist && !(g.paused && s.paused)
               && (|| TakesReached(g, s) || s.version == "" || s.ratio.None?
                   || (r != 0 && (!s.keysMatch || s.version != g.version || (s.ratio.value != r && !HoldsOn(g, s, r))))))
  {
    AsksExactly(g, s, r);
    hide Asks, LatestRatio;
  }

  /** What is stored, over the fields and the ratio asked for. */
  lemma StoredExactly(g: Group, s: SubSet, r: int)
    requires Asks(g, s, r) && !Crashes(g, s) && s.key !in g.blacklist && !(g.paused && s.paused)
    ensures var t := Saved(g, s);
            && t.ratio.Some? && t == s.(version := g.version, paused := g.paused, keysMatch := true, ratio := t.ratio)
            && (!TakesReached(g, s) ==> t.ratio.value == if HoldsOn(g, s, r) then s.ratio.value else r)
            && (TakesReached(g, s) && s.updated >= 0 && s.replicas.value > 0 ==>
                  0 <= s.updated * 100 - t.ratio.value * s.replicas.value < s.replicas.value)
  {
    AsksExactly(g, s, r);
    hide Asks, LatestRatio;
  }

  /** When a sub set counts as rolling: at the group's version and the ratio it would get, but not there yet. */
  lemma RollingExactly(g: Group, s: SubSet, r: int)
    requires Asks(g, s, r) && !g.paused
    ensures !Crashes(g, s)
    ensures Rolling(g, s) <==>
            s.key !in g.blacklist && s.version == g.version && s.ratio.Some? && !s.matched && (s.ratio.value == r || HoldsOn(g, s, r))
  {
    AsksExactly(g, s, r);
    hide Asks, LatestRatio;
  }

  // ----- choosing

  predicate Within(indices: seq<nat>, subs: seq<SubSet>) { forall k :: 0 <= k < |indices| ==> indices[k] < |subs| }

  function Wanted(g: Group, subs: seq<SubSet>): (r: seq<nat>)
    requires NoCrash(g, subs)
    ensures Within(r, subs) && forall i :: i in r <==> 0 <= i < |subs| && Wants(g, subs[i])
  {
    if subs == [] then []
    else
      var n := |subs| - 1;
      Wanted(g, subs[..n]) + if Wants(g, subs[n]) then [n] else []
  }

  function InRolling(g: Group, subs: seq<SubSet>): (r: seq<nat>)
    requires NoCrash(g, subs)
    ensures Within(r, subs) && forall i :: i in r <==> 0 <= i < |subs| && Rolling(g, subs[i])
  {
    if subs == [] then []
    else
      var n := |subs| - 1;
      InRolling(g, subs[..n]) + if Rolling(g, subs[n]) then [n] else []
  }

  function Cost(subs: seq<SubSet>, indices: seq<nat>): int
    requires Within(indices, subs)
  {
    if indices == [] then 0
    else var n := |indices| - 1; Cost(subs, indices[..n]) + subs[indices[n]].cost
  }

  /** The first `n` proper prefixes fit the allowance. */
  ghost predicate Affordable(subs: seq<SubSet>, wanted: seq<nat>, n: nat, allowance: int)
    requires Within(wanted, subs) && n <= |wanted|
  {
    forall k :: 0 <= k < n ==> Cost(subs, wanted[..k]) <= allowance
  }

  /** `chosen` is the shortest prefix of `wanted` that costs more than the allowance, or all of it. */
  ghost predicate ShortestExceeding(subs: seq<SubSet>, wanted: seq<nat>, chosen: seq<nat>, allowance: int)
    requires Within(wanted, subs)
  {
    && chosen <= wanted
    && Affordable(subs, wanted, |chosen|, allowance)
    && (chosen == wanted || Cost(subs, chosen) > allowance)
  }

  /** There is only one such prefix; all but its last element fit, and a negative allowance chooses nothing. */
  lemma ShortestIsUnique(subs: seq<SubSet>, wanted: seq<nat>, a: seq<nat>, b: seq<nat>, allowance: int)
    requires Within(wanted, subs)
    requires ShortestExceeding(subs, wanted, a, allowance) && ShortestExceeding(subs, wanted, b, allowance)
    ensures a == b
    ensures allowance < 0 ==> a == []
    ensures a != [] ==> Cost(subs, a[..|a| - 1]) <= allowance
  {
    assert a == wanted[..|a|] && b == wanted[..|b|];
    if a != [] {
      assert a[..|a| - 1] == wanted[..|a| - 1];
      assert Cost(subs, wanted[..0]) <= allowance;
    }
  }

  method ComputeSubRollingSet(g: Group, subs: seq<SubSet>) returns (ok: bool, inRolling: seq<nat>, toUpdate: seq<nat>)
    ensures ok <==> NoCrash(g, subs)
    ensures ok ==> inRolling == InRolling(g, subs) && toUpdate == Wanted(g, subs)
  {
    ok, inRolling, toUpdate := true, [], [];
    for i := 0 to |subs|
      invariant NoCrash(g, subs[..i]) && inRolling == InRolling(g, subs[..i]) && toUpdate == Wanted(g, subs[..i])
    {
      var s := subs[i];
      assert subs[..i + 1][..i] == subs[..i];
      if Crashes(g, s) {
        return false, [], [];
      }
      if Wants(g, s) {
        toUpdate := toUpdate + [i];
      }
      if Rolling(g, s) {
        inRolling := inRolling + [i];
      }
    }
    assert subs[..|subs|] == subs;
  }

  method SumCost(subs: seq<SubSet>, indices: seq<nat>) returns (c: int)
    requires Within(indices, subs)
    ensures c == Cost(subs, indices)
  {
    c := 0;
    for i := 0 to |indices|
      invariant c == Cost(subs, indices[..i])
    {
      assert indices[..i + 1][..i] == indices[..i];
      c := c + subs[indices[i]].cost;
    }
    assert indices[..|indices|] == indices;
  }

  /** Takes sub sets for as long as the allowance is not negative. */
  method TakeWithin(subs: seq<SubSet>, toUpdate: seq<nat>, allowance: int) returns (chosen: seq<nat>)
    requires Within(toUpdate, subs)
    ensures ShortestExceeding(subs, toUpdate, chosen, allowance)
  {
    hide Cost, Affordable;
    TakeStart(subs, toUpdate, allowance);
    chosen := [];
    var i, need := 0, allowance;
    while i < |toUpdate| && need >= 0
      invariant 0 <= i <= |toUpdate| && chosen == toUpdate[..i] && need == allowance - Cost(subs, chosen)
      invariant Affordable(subs, toUpdate, i, allowance)
    {
      TakeStep(subs, toUpdate, i, allowance);
      chosen := chosen + [toUpdate[i]];
      need := need - subs[toUpdate[i]].cost;
      i := i + 1;
    }
  }

  lemma TakeStart(subs: seq<SubSet>, toUpdate: seq<nat>, allowance: int)
    requires Within(toUpdate, subs)
    ensures Affordable(subs, toUpdate, 0, allowance) && toUpdate[..0] == [] && Cost(subs, []) == 0
  {
  }

  lemma TakeStep(subs: seq<SubSet>, toUpdate: seq<nat>, i: nat, allowance: int)
    requires Within(toUpdate, subs) && i < |toUpdate|
    requires Affordable(subs, toUpdate, i, allowance) && Cost(subs, toUpdate[..i]) <= allowance
    ensures Affordable(subs, toUpdate, i + 1, allowance)
    ensures toUpdate[..i + 1] == toUpdate[..i] + [toUpdate[i]]
    ensures Cost(subs, toUpdate[..i + 1]) == Cost(subs, toUpdate[..i]) + subs[toUpdate[i]].cost
  {
    hide Cost;
    assert toUpdate[..i + 1] == toUpdate[..i] + [toUpdate[i]];
    CostOne(subs, toUpdate[..i], toUpdate[i]);
  }

  function TotalReplicas(subs: seq<SubSet>): int
    requires forall s :: s in subs ==> s.replicas.Some?
  {
    if subs == [] then 0 else TotalReplicas(subs[..|subs| - 1]) + subs[|subs| - 1].replicas.value
  }

  /** The replicas of all sub sets; fails on a missing count and on a blacklisted sub set without a ratio. */
  method SumReplicas(g: Group, subs: seq<SubSet>) returns (total: Option<int>)
    ensures total.Some? <==> forall s :: s in subs ==> s.replicas.Some? && (s.key in g.blacklist ==> s.ratio.Some?)
    ensures total.Some? ==> total.value == TotalReplicas(subs)
  {
    var sum := 0;
    for i := 0 to |subs|
      invariant forall s :: s in subs[..i] ==> s.replicas.Some? && (s.key in g.blacklist ==> s.ratio.Some?)
      invariant sum == TotalReplicas(subs[..i])
    {
      var s := subs[i];
      assert subs[..i + 1] == subs[..i] + [s];
      if s.replicas.None? || (s.key in g.blacklist && s.ratio.None?) {
        assert s in subs;
        return None;
      }
      sum := sum + s.replicas.value;
    }
    assert subs[..|subs|] == subs;
    return Some(sum);
  }

  /**
   The sub sets to update: none where the allowed count cannot be computed from the total, all that want it while
   paused, and otherwise as many as the allowance left by those still rolling permits.
   */
  method SubRollingSetsToUpdate(g: Group, subs: seq<SubSet>, allow: int -> Option<int>) returns (ok: bool, chosen: seq<nat>)
    ensures ok <==> NoPanic(g, subs)
    ensures ok ==> Selected(g, subs, allow(TotalReplicas(subs)), chosen)
  {
    var inRolling, toUpdate;
    ok, inRolling, toUpdate := ComputeSubRollingSet(g, subs);
    chosen := [];
    if !ok { return; }
    var total := SumReplicas(g, subs);
    if total.None? { return false, []; }
    var allowed := allow(total.value);
    if allowed.None? {
      return;
    } else if g.paused {
      chosen := toUpdate;
    } else {
      var inUpdate := SumCost(subs, inRolling);
      chosen := TakeWithin(subs, toUpdate, allowed.value - inUpdate);
    }
  }

  /** An unpaused group fails as a whole on a sub set without a replica count. */
  lemma MissingReplicas() returns (g: Group, subs: seq<SubSet>)
    ensures !g.paused && g.blacklist == [] && |subs| == 1 && subs[0].ratio.Some?
    ensures NoCrash(g, subs) && !NoPanic(g, subs)
  {
    g := Group("v", None, [], false, false);
    subs := [SubSet("a", "a", "v", Some(100), false, None, 0, 1, true, true)];
    assert Breaks(g, subs[0]);
  }

  /** And on a blacklisted sub set that never got a ratio. */
  lemma BlacklistedWithoutRatio() returns (g: Group, subs: seq<SubSet>)
    ensures !g.paused && |subs| == 1 && subs[0].replicas.Some?
    ensures NoCrash(g, subs) && !NoPanic(g, subs)
  {
    g := Group("v", None, ["a"], false, false);
    subs := [SubSet("a", "a", "", None, false, Some(1), 0, 1, true, true)];
    assert Breaks(g, subs[0]);
  }

  ghost predicate Selected(g: Group, subs: seq<SubSet>, allowed: Option<int>, chosen: seq<nat>)
    requires NoCrash(g, subs)
  {
    if allowed.None? then chosen == []
    else if g.paused then chosen == Wanted(g, subs)
    else ShortestExceeding(subs, Wanted(g, subs), chosen, allowed.value - Cost(subs, InRolling(g, subs)))
  }

  // ----- rounds

  /** What the rest of the system changes between rounds. */
  datatype Seen = Seen(replicas: Option<int>, updated: int, keysMatch: bool, matched: bool)

  /** One round: the sub sets chosen, how many of them were stored before an error, and what is seen afterwards. */
  datatype Round = Round(g: Group, allowed: Option<int>, chosen: seq<nat>, saves: nat, seen: nat -> Seen)

  /** What a round stores: nothing when it panics. */
  function SavedIn(e: Round, subs: seq<SubSet>): seq<nat> {
    if !NoPanic(e.g, subs) then [] else if e.saves < |e.chosen| then e.chosen[..e.saves] else e.chosen
  }

  ghost predicate Follows(e: Round, subs: seq<SubSet>) { NoPanic(e.g, subs) ==> Selected(e.g, subs, e.allowed, e.chosen) }

  function Observe(s: SubSet, seen: Seen): SubSet {
    s.(replicas := seen.replicas, updated := seen.updated, keysMatch := seen.keysMatch, matched := seen.matched)
  }

  function NextSub(e: Round, subs: seq<SubSet>, i: nat): SubSet
    requires i < |subs|
  {
    var s := subs[i];
    Observe(if i in SavedIn(e, subs) && Wants(e.g, s) then Saved(e.g, s) else s, e.seen(i))
  }

  function Next(e: Round, subs: seq<SubSet>): (next: seq<SubSet>)
    ensures |next| == |subs|
  {
    seq(|subs|, i requires 0 <= i < |subs| => NextSub(e, subs, i))
  }

  function Run(rounds: seq<Round>, subs: seq<SubSet>): (r: seq<SubSet>)
    ensures |r| == |subs|
  {
    if rounds == [] then subs else Next(rounds[|rounds| - 1], Run(rounds[..|rounds| - 1], subs))
  }

  // ----- the saved ratio

  /** When a stored sub set of the current version can lose ratio. */
  predicate MayDrop(g: Group, s: SubSet)
    requires s.ratio.Some? && !Skipped(g, s) && !Crashes(g, s)
  {
    var r := LatestRatio(g, s);
    if Pausing(g, s) then Quotient(s.updated * 100, s.replicas.value) < s.ratio.value
    else r < s.ratio.value && (r < 0 || (g.canRollback && r > 0) || (r == 0 && g.version == ""))
  }

  lemma DropsExactly(g: Group, s: SubSet)
    requires s.version == g.version && s.ratio.Some? && !Skipped(g, s) && !Crashes(g, s)
    ensures Wants(g, s) && Saved(g, s).ratio.value < s.ratio.value <==> MayDrop(g, s)
  {
  }

  /** The group's settings in a round without pause, rollback or negative ratios. */
  predicate Steady(g: Group, version: string) {
    && g.version == version != "" && !g.paused && !g.canRollback
    && (g.ratios.Some? ==> forall k :: k in g.ratios.value ==> g.ratios.value[k] >= 0)
  }

  lemma RatioNonNegative(g: Group, s: SubSet)
    requires g.ratios.Some? ==> forall k :: k in g.ratios.value ==> g.ratios.value[k] >= 0
    ensures LatestRatio(g, s) >= 0
  {
  }

  ghost predicate HasRatio(s: SubSet, version: string, ratio: int) {
    s.version == version && s.ratio.Some? && s.ratio.value >= ratio
  }

  lemma NextKeepsRatio(e: Round, subs: seq<SubSet>, i: nat, version: string, ratio: int)
    requires i < |subs| && Steady(e.g, version) && HasRatio(subs[i], version, ratio)
    ensures HasRatio(NextSub(e, subs, i), version, ratio)
  {
    RatioNonNegative(e.g, subs[i]);
  }

  /** While the version stands, ratios may change as they like but a sub set that has the version never loses ratio. */
  lemma {:induction false} RatioNeverDrops(rounds: seq<Round>, subs: seq<SubSet>, i: nat, version: string, ratio: int)
    requires i < |subs| && HasRatio(subs[i], version, ratio)
    requires forall k :: 0 <= k < |rounds| ==> Steady(rounds[k].g, version)
    ensures HasRatio(Run(rounds, subs)[i], version, ratio)
  {
    if rounds != [] {
      var n := |rounds| - 1;
      RatioNeverDrops(rounds[..n], subs, i, version, ratio);
      NextKeepsRatio(rounds[n], Run(rounds[..n], subs), i, version, ratio);
    }
  }

  /** A group that gives no ratios asks for nothing. */
  predicate AsksNothing(g: Group) { g.ratios.None? && !g.paused }

  /** Over any run in which the group gives no ratios, a sub set that has a version and a ratio keeps both. */
  lemma {:induction false} NothingAskedNothingStored(rounds: seq<Round>, subs: seq<SubSet>, i: nat)
    requires i < |subs| && subs[i].version != "" && subs[i].ratio.Some?
    requires forall k :: 0 <= k < |rounds| ==> AsksNothing(rounds[k].g)
    ensures Run(rounds, subs)[i].version == subs[i].version && Run(rounds, subs)[i].ratio == subs[i].ratio
  {
    if rounds != [] {
      var n := |rounds| - 1;
      NothingAskedNothingStored(rounds[..n], subs, i);
      var s := Run(rounds[..n], subs)[i];
      WantedExactly(rounds[n].g, s, 0);
      hide Wants, LatestRatio;
    }
  }

  // ----- the budget over whole runs

  lemma {:induction false} CostPrefix(subs: seq<SubSet>, n: nat, indices: seq<nat>)
    requires n <= |subs| && Within(indices, subs[..n])
    ensures Cost(subs[..n], indices) == Cost(subs, indices)
  {
    if indices != [] {
      CostPrefix(subs, n, indices[..|indices| - 1]);
    }
  }

  lemma CostOne(subs: seq<SubSet>, indices: seq<nat>, i: nat)
    requires Within(indices, subs) && i < |subs|
    ensures Cost(subs, indices + [i]) == Cost(subs, indices) + subs[i].cost
  {
    assert (indices + [i])[..|indices|] == indices;
  }

  ghost function InFlight(g: Group, subs: seq<SubSet>): int
    requires NoCrash(g, subs)
  {
    Cost(subs, InRolling(g, subs))
  }

  lemma InFlightLast(g: Group, subs: seq<SubSet>, n: nat)
    requires n < |subs| && NoCrash(g, subs)
    ensures InFlight(g, subs[..n + 1]) == InFlight(g, subs[..n]) + if Rolling(g, subs[n]) then subs[n].cost else 0
  {
    var t := subs[..n + 1];
    assert t[..n] == subs[..n];
    var before := InRolling(g, t[..n]);
    CostPrefix(t, n, before);
    CostOne(t, before, n);
    assert InRolling(g, t) == if Rolling(g, subs[n]) then before + [n] else before;
    hide InRolling, Cost, Rolling;
  }

  /** A prefix of the wanted sub sets is what a prefix of the list wants. */
  lemma {:induction false} WantedPrefix(g: Group, subs: seq<SubSet>, chosen: seq<nat>) returns (c: nat)
    requires NoCrash(g, subs) && chosen <= Wanted(g, subs)
    ensures c <= |subs| && chosen == Wanted(g, subs[..c])
  {
    if chosen == Wanted(g, subs) {
      c := |subs|;
      assert subs[..c] == subs;
    } else {
      var n := |subs| - 1;
      c := WantedPrefix(g, subs[..n], chosen);
      assert subs[..n][..c] == subs[..c];
    }
  }

  lemma SavedCost(g: Group, subs: seq<SubSet>, c: nat)
    requires NoCrash(g, subs) && c < |subs|
    ensures Cost(subs, Wanted(g, subs[..c + 1])) == Cost(subs, Wanted(g, subs[..c])) + if Wants(g, subs[c]) then subs[c].cost else 0
  {
    assert subs[..c + 1][..c] == subs[..c];
    var before := Wanted(g, subs[..c]);
    CostOne(subs, before, c);
    assert Wanted(g, subs[..c + 1]) == if Wants(g, subs[c]) then before + [c] else before;
    hide Wanted, Cost, Wants;
  }

  /** Between rounds, a sub set that was done and not touched stays done. */
  ghost predicate Calm(e: Round, subs: seq<SubSet>) {
    forall i :: 0 <= i < |subs| && subs[i].matched && i !in SavedIn(e, subs) ==> e.seen(i).matched
  }

  lemma NotPaused(g: Group, subs: seq<SubSet>)
    requires !g.paused
    ensures NoCrash(g, subs)
  {
  }

  lemma RollingAfter(e: Round, subs: seq<SubSet>, i: nat)
    requires !e.g.paused && i < |subs| && Calm(e, subs) && (i in SavedIn(e, subs) ==> Wants(e.g, subs[i]))
    ensures !Crashes(e.g, subs[i]) && !Crashes(e.g, NextSub(e, subs, i))
    ensures Rolling(e.g, NextSub(e, subs, i)) ==> Rolling(e.g, subs[i]) || i in SavedIn(e, subs)
    ensures NextSub(e, subs, i).cost == subs[i].cost
  {
  }

  lemma NothingFlies(g: Group, subs: seq<SubSet>, next: seq<SubSet>)
    requires NoCrash(g, subs) && NoCrash(g, next)
    ensures InFlight(g, subs[..0]) == InFlight(g, next[..0]) == 0 && Wanted(g, subs[..0]) == [] && Cost(subs, []) == 0
  {
    assert subs[..0] == [] && next[..0] == [];
  }

  lemma SavedAre(g: Group, subs: seq<SubSet>, c: nat, i: nat)
    requires NoCrash(g, subs) && c <= |subs| && i < |subs|
    ensures i in Wanted(g, subs[..c]) <==> i < c && Wants(g, subs[i])
  {
  }

  /** One more sub set adds to what is in flight only what it added before, or its cost if it was stored. */
  lemma FlightStep(e: Round, subs: seq<SubSet>, c: nat, m: nat)
    requires !e.g.paused && Calm(e, subs) && NoCrash(e.g, subs) && NoCrash(e.g, Next(e, subs)) && m < |subs|
    requires c <= |subs| && SavedIn(e, subs) == Wanted(e.g, subs[..c]) && subs[m].cost >= 0
    ensures InFlight(e.g, Next(e, subs)[..m + 1]) - InFlight(e.g, Next(e, subs)[..m]) <=
            InFlight(e.g, subs[..m + 1]) - InFlight(e.g, subs[..m]) + if m < c && Wants(e.g, subs[m]) then subs[m].cost else 0
  {
    hide InFlight, Rolling, Wants, Calm, NextSub, Crashes, NoCrash, SavedIn, Wanted;
    InFlightLast(e.g, subs, m);
    InFlightLast(e.g, Next(e, subs), m);
    SavedAre(e.g, subs, c, m);
    RollingAfter(e, subs, m);
  }

  lemma {:induction false} FlightGrowth(e: Round, subs: seq<SubSet>, c: nat, n: nat)
    requires !e.g.paused && Calm(e, subs) && NoCrash(e.g, subs) && NoCrash(e.g, Next(e, subs)) && n <= |subs|
    requires c <= |subs| && SavedIn(e, subs) == Wanted(e.g, subs[..c])
    requires forall i :: 0 <= i < |subs| ==> subs[i].cost >= 0
    ensures InFlight(e.g, Next(e, subs)[..n]) <=
            InFlight(e.g, subs[..n]) + Cost(subs, Wanted(e.g, subs[..if n < c then n else c]))
  {
    hide InFlight, Rolling, Cost, Wants, Calm, Next, Crashes, Wanted, SavedIn;
    if n == 0 {
      NothingFlies(e.g, subs, Next(e, subs));
    } else {
      var m := n - 1;
      FlightGrowth(e, subs, c, m);
      FlightStep(e, subs, c, m);
      if m < c {
        SavedCost(e.g, subs, m);
      }
    }
  }

  lemma SavedWithin(subs: seq<SubSet>, wanted: seq<nat>, chosen: seq<nat>, saved: seq<nat>, allowance: int, most: nat)
    requires Within(wanted, subs) && ShortestExceeding(subs, wanted, chosen, allowance) && saved <= chosen
    requires forall i :: 0 <= i < |subs| ==> 0 <= subs[i].cost <= most
    ensures Within(saved, subs) && saved <= wanted && (saved == [] || Cost(subs, saved) <= allowance + most)
  {
    if saved != [] {
      var n := |saved| - 1;
      assert saved[..n] == wanted[..n];
    }
  }

  lemma StoredWithin(e: Round, subs: seq<SubSet>, allowed: int, most: nat)
    requires !e.g.paused && e.allowed == Some(allowed) && Follows(e, subs) && NoCrash(e.g, subs)
    requires forall i :: 0 <= i < |subs| ==> 0 <= subs[i].cost <= most
    ensures var saved := SavedIn(e, subs);
            && Within(saved, subs) && saved <= Wanted(e.g, subs)
            && (saved == [] || Cost(subs, saved) <= allowed - InFlight(e.g, subs) + most)
  {
    hide Wanted, NoCrash, NoPanic, ShortestExceeding, Cost, SavedIn, InFlight, Selected, Within;
    SavedPrefix(e, subs);
    if NoPanic(e.g, subs) {
      SelectedMeans(e.g, subs, allowed, e.chosen);
      SavedWithin(subs, Wanted(e.g, subs), e.chosen, SavedIn(e, subs), allowed - InFlight(e.g, subs), most);
    } else {
      NoneWithin(subs);
    }
  }

  lemma SavedPrefix(e: Round, subs: seq<SubSet>)
    ensures SavedIn(e, subs) <= e.chosen && (!NoPanic(e.g, subs) ==> SavedIn(e, subs) == [])
  {
    hide NoPanic;
  }

  lemma NoneWithin(subs: seq<SubSet>)
    ensures Within([], subs)
  {
  }

  lemma SelectedMeans(g: Group, subs: seq<SubSet>, allowed: int, chosen: seq<nat>)
    requires !g.paused && NoCrash(g, subs) && Selected(g, subs, Some(allowed), chosen)
    ensures ShortestExceeding(subs, Wanted(g, subs), chosen, allowed - InFlight(g, subs))
  {
    hide Wanted, InRolling, NoCrash, ShortestExceeding, Cost, Within;
  }

  /** What is in flight grows by no more than what was stored. */
  lemma FlightAfter(e: Round, subs: seq<SubSet>)
    requires !e.g.paused && Calm(e, subs) && NoCrash(e.g, subs) && NoCrash(e.g, Next(e, subs))
    requires SavedIn(e, subs) <= Wanted(e.g, subs) && Within(SavedIn(e, subs), subs)
    requires forall i :: 0 <= i < |subs| ==> subs[i].cost >= 0
    ensures InFlight(e.g, Next(e, subs)) <= InFlight(e.g, subs) + Cost(subs, SavedIn(e, subs))
  {
    hide Calm, Next, Wanted, NoCrash, Cost, InFlight, SavedIn;
    var c := WantedPrefix(e.g, subs, SavedIn(e, subs));
    FlightGrowth(e, subs, c, |subs|);
    assert subs[..|subs|] == subs && Next(e, subs)[..|subs|] == Next(e, subs);
  }

  /** What is being updated never costs more than the allowance plus one sub set, unless it already did. */
  lemma NextWithinBudget(e: Round, subs: seq<SubSet>, allowed: int, most: nat)
    requires !e.g.paused && e.allowed == Some(allowed) && Calm(e, subs) && Follows(e, subs)
    requires forall i :: 0 <= i < |subs| ==> 0 <= subs[i].cost <= most
    ensures NoCrash(e.g, subs) && NoCrash(e.g, Next(e, subs))
    ensures InFlight(e.g, Next(e, subs)) <= InFlight(e.g, subs) || InFlight(e.g, Next(e, subs)) <= allowed + most
  {
    hide Calm, Follows, Next, Wanted, NoCrash, InFlight, SavedIn, Within;
    NotPaused(e.g, subs);
    NotPaused(e.g, Next(e, subs));
    StoredWithin(e, subs, allowed, most);
    FlightAfter(e, subs);
  }

  lemma {:induction false} RunKeepsCost(rounds: seq<Round>, subs: seq<SubSet>)
    ensures forall i :: 0 <= i < |subs| ==> Run(rounds, subs)[i].cost == subs[i].cost
  {
    if rounds != [] {
      RunKeepsCost(rounds[..|rounds| - 1], subs);
    }
  }

  /** Every round follows the choice for the same group and allowance, and is calm. */
  ghost predicate CalmRun(rounds: seq<Round>, subs: seq<SubSet>, g: Group, allowed: int) {
    rounds == [] ||
    var n := |rounds| - 1;
    var now := Run(rounds[..n], subs);
    && CalmRun(rounds[..n], subs, g, allowed)
    && rounds[n].g == g && rounds[n].allowed == Some(allowed) && Follows(rounds[n], now) && Calm(rounds[n], now)
  }

  /** Over any run of calm rounds with the group unchanged, the budget is exceeded by at most one sub set's cost, unless it was at the start. */
  lemma {:induction false} RolloutWithinBudget(rounds: seq<Round>, subs: seq<SubSet>, g: Group, allowed: int, most: nat)
    requires !g.paused && CalmRun(rounds, subs, g, allowed)
    requires forall i :: 0 <= i < |subs| ==> 0 <= subs[i].cost <= most
    ensures NoCrash(g, subs) && NoCrash(g, Run(rounds, subs))
    ensures InFlight(g, Run(rounds, subs)) <= InFlight(g, subs) || InFlight(g, Run(rounds, subs)) <= allowed + most
  {
    NotPaused(g, subs);
    NotPaused(g, Run(rounds, subs));
    if rounds != [] {
      var n := |rounds| - 1;
      RolloutWithinBudget(rounds[..n], subs, g, allowed, most);
      RunKeepsCost(rounds[..n], subs);
      hide Calm, Follows, Next, InFlight, NoCrash;
      NextWithinBudget(rounds[n], Run(rounds[..n], subs), allowed, most);
    }
  }

  // ----- the rollout ends

  /** A stored sub set wants nothing more, unless the group has no version. */
  lemma SavedIsDone(g: Group, s: SubSet)
    requires !Crashes(g, s) && Wants(g, s)
    ensures !Crashes(g, Saved(g, s)) && (Wants(g, Saved(g, s)) <==> g.version == "" && !g.paused)
  {
  }

  /** Every chosen sub set is stored, its update is complete by the next round, and templates stay in step. */
  ghost predicate Finishing(e: Round, subs: seq<SubSet>) {
    && |e.chosen| <= e.saves
    && forall i :: 0 <= i < |subs| ==>
         e.seen(i).replicas.Some? && e.seen(i).matched && (subs[i].keysMatch || i in e.chosen ==> e.seen(i).keysMatch)
  }

  lemma WantsAfter(e: Round, subs: seq<SubSet>, i: nat)
    requires !e.g.paused && e.g.version != "" && i < |subs| && Finishing(e, subs) && NoPanic(e.g, subs)
    requires i in e.chosen ==> Wants(e.g, subs[i])
    ensures !Breaks(e.g, NextSub(e, subs, i)) && !Rolling(e.g, NextSub(e, subs, i))
    ensures Wants(e.g, NextSub(e, subs, i)) ==> Wants(e.g, subs[i]) && i !in e.chosen
  {
    assert !Breaks(e.g, subs[i]);
    if i in e.chosen { SavedIsDone(e.g, subs[i]); }
  }

  lemma WantedLast(g: Group, subs: seq<SubSet>, n: nat)
    requires n < |subs| && NoCrash(g, subs)
    ensures |Wanted(g, subs[..n + 1])| == |Wanted(g, subs[..n])| + if Wants(g, subs[n]) then 1 else 0
  {
    assert subs[..n + 1][..n] == subs[..n];
  }

  lemma {:induction false} WantedShrinks(e: Round, subs: seq<SubSet>, c: nat, n: nat)
    requires !e.g.paused && e.g.version != "" && Finishing(e, subs) && n <= |subs|
    requires NoPanic(e.g, subs) && NoCrash(e.g, subs) && NoCrash(e.g, Next(e, subs))
    requires c <= |subs| && e.chosen == Wanted(e.g, subs[..c])
    ensures |Wanted(e.g, Next(e, subs)[..n])| <= |Wanted(e.g, subs[..n])| - |Wanted(e.g, subs[..if n < c then n else c])|
  {
    if n == 0 {
      assert subs[..0] == [] && Next(e, subs)[..0] == [];
    } else {
      var m := n - 1;
      WantedShrinks(e, subs, c, m);
      hide Wants, NextSub, Crashes, Finishing, Breaks, NoPanic;
      WantedLast(e.g, subs, m);
      WantedLast(e.g, Next(e, subs), m);
      WantsAfter(e, subs, m);
    }
  }

  /** Once nothing is rolling, every round that does not panic brings at least one more sub set to its target. */
  lemma NextProgresses(e: Round, subs: seq<SubSet>, allowed: nat)
    requires !e.g.paused && e.g.version != "" && e.allowed == Some(allowed) && Follows(e, subs) && Finishing(e, subs)
    requires NoPanic(e.g, subs)
    ensures NoPanic(e.g, Next(e, subs)) && NoCrash(e.g, subs) && NoCrash(e.g, Next(e, subs))
    ensures InRolling(e.g, Next(e, subs)) == [] && |Wanted(e.g, Next(e, subs))| <= |Wanted(e.g, subs)|
    ensures InRolling(e.g, subs) == [] && Wanted(e.g, subs) != [] ==> |Wanted(e.g, Next(e, subs))| < |Wanted(e.g, subs)|
  {
    NotPaused(e.g, subs);
    NotPaused(e.g, Next(e, subs));
    var c := WantedPrefix(e.g, subs, e.chosen);
    WantedShrinks(e, subs, c, |subs|);
    assert subs[..|subs|] == subs && Next(e, subs)[..|subs|] == Next(e, subs);
    forall i | 0 <= i < |subs| ensures !Rolling(e.g, Next(e, subs)[i]) && !Breaks(e.g, Next(e, subs)[i]) {
      WantsAfter(e, subs, i);
    }
    NothingRolls(e.g, Next(e, subs));
    hide Rolling, Breaks, Finishing, Next;
  }

  lemma {:induction false} NothingRolls(g: Group, subs: seq<SubSet>)
    requires NoCrash(g, subs) && forall i :: 0 <= i < |subs| ==> !Rolling(g, subs[i])
    ensures InRolling(g, subs) == []
  {
    if subs != [] { NothingRolls(g, subs[..|subs| - 1]); }
  }

  ghost predicate FinishingRun(rounds: seq<Round>, subs: seq<SubSet>, g: Group, allowed: nat) {
    rounds == [] ||
    var n := |rounds| - 1;
    var now := Run(rounds[..n], subs);
    && FinishingRun(rounds[..n], subs, g, allowed)
    && rounds[n].g == g && rounds[n].allowed == Some(allowed) && Follows(rounds[n], now) && Finishing(rounds[n], now)
  }

  lemma {:induction false} RoundsProgress(rounds: seq<Round>, subs: seq<SubSet>, g: Group, allowed: nat)
    requires !g.paused && g.version != "" && FinishingRun(rounds, subs, g, allowed) && rounds != [] && NoPanic(g, subs)
    ensures NoCrash(g, subs) && NoPanic(g, Run(rounds, subs)) && NoCrash(g, Run(rounds, subs))
    ensures InRolling(g, Run(rounds, subs)) == []
    ensures Wanted(g, Run(rounds, subs)) == [] || |Wanted(g, Run(rounds, subs))| <= |Wanted(g, subs)| - (|rounds| - 1)
  {
    NotPaused(g, subs);
    NotPaused(g, Run(rounds, subs));
    var n := |rounds| - 1;
    hide Wanted, InRolling, NoCrash, NoPanic, Next, Follows, Finishing;
    if n == 0 {
      assert Run(rounds[..0], subs) == subs;
    } else {
      RoundsProgress(rounds[..n], subs, g, allowed);
    }
    NextProgresses(rounds[n], Run(rounds[..n], subs), allowed);
  }

  lemma {:induction false} WantedFew(g: Group, subs: seq<SubSet>)
    requires NoCrash(g, subs)
    ensures |Wanted(g, subs)| <= |subs|
  {
    if subs != [] { WantedFew(g, subs[..|subs| - 1]); }
  }

  /** Stored at the group's version with exactly the ratio it is to reach, if it is to reach one. */
  predicate AtTarget(g: Group, s: SubSet)
    requires !g.paused
  {
    !Skipped(g, s) && Target(g, s) != 0 ==> s.version == g.version && s.ratio == Some(Target(g, s))
  }

  predicate AllAtTarget(g: Group, subs: seq<SubSet>)
    requires !g.paused
  {
    forall i :: 0 <= i < |subs| ==> AtTarget(g, subs[i])
  }

  predicate BlacklistHasRatios(g: Group, subs: seq<SubSet>) {
    forall i :: 0 <= i < |subs| ==> (subs[i].key in g.blacklist ==> subs[i].ratio.Some?)
  }

  lemma RolloutReaches(rounds: seq<Round>, subs: seq<SubSet>, g: Group, allowed: nat, i: nat)
    requires !g.paused && g.version != "" && FinishingRun(rounds, subs, g, allowed) && |rounds| > |subs| && i < |subs|
    requires NoPanic(g, subs)
    ensures AtTarget(g, Run(rounds, subs)[i])
  {
    RoundsProgress(rounds, subs, g, allowed);
    WantedFew(g, subs);
    assert i !in Wanted(g, Run(rounds, subs));
  }

  /** A round that panics stores nothing. */
  lemma PanicStoresNothing(e: Round, subs: seq<SubSet>, i: nat)
    requires !NoPanic(e.g, subs) && i < |subs|
    ensures NextSub(e, subs, i) == Observe(subs[i], e.seen(i))
  {
  }

  /** A blacklisted sub set without a ratio stops the whole group for as long as it is blacklisted, whatever else changes. */
  lemma {:induction false} BlockedForever(rounds: seq<Round>, subs: seq<SubSet>, j: nat, i: nat)
    requires j < |subs| && i < |subs| && subs[j].ratio.None?
    requires forall k :: 0 <= k < |rounds| ==> subs[j].key in rounds[k].g.blacklist
    ensures var s := Run(rounds, subs)[i];
            s == subs[i].(replicas := s.replicas, updated := s.updated, keysMatch := s.keysMatch, matched := s.matched)
  {
    if rounds != [] {
      var n := |rounds| - 1;
      BlockedForever(rounds[..n], subs, j, i);
      BlockedForever(rounds[..n], subs, j, j);
      var now := Run(rounds[..n], subs);
      assert Breaks(rounds[n].g, now[j]);
      PanicStoresNothing(rounds[n], now, i);
    }
  }

  /**
   However small a non-negative allowance, with rounds that finish and one round more than there are sub sets: all sub
   sets reach their target if and only if no blacklisted one lacks a ratio, or all were there from the start.
   */
  lemma RolloutCompletes(rounds: seq<Round>, subs: seq<SubSet>, g: Group, allowed: nat)
    requires !g.paused && g.version != "" && FinishingRun(rounds, subs, g, allowed) && |rounds| > |subs|
    requires forall i :: 0 <= i < |subs| ==> subs[i].replicas.Some?
    ensures AllAtTarget(g, Run(rounds, subs)) <==> BlacklistHasRatios(g, subs) || AllAtTarget(g, subs)
  {
    hide AtTarget, Run, FinishingRun;
    if !BlacklistHasRatios(g, subs) {
      var j :| 0 <= j < |subs| && subs[j].key in g.blacklist && subs[j].ratio.None?;
      AllSameGroup(rounds, subs, g, allowed);
      forall i | 0 <= i < |subs| ensures AtTarget(g, Run(rounds, subs)[i]) <==> AtTarget(g, subs[i]) {
        BlockedForever(rounds, subs, j, i);
        ObservingKeepsTarget(g, subs[i], Run(rounds, subs)[i]);
      }
    } else {
      assert NoPanic(g, subs);
      forall i | 0 <= i < |subs| ensures AtTarget(g, Run(rounds, subs)[i]) {
        RolloutReaches(rounds, subs, g, allowed, i);
      }
    }
  }

  lemma ObservingKeepsTarget(g: Group, s: SubSet, t: SubSet)
    requires !g.paused && t == s.(replicas := t.replicas, updated := t.updated, keysMatch := t.keysMatch, matched := t.matched)
    ensures AtTarget(g, t) <==> AtTarget(g, s)
  {
  }

  lemma {:induction false} AllSameGroup(rounds: seq<Round>, subs: seq<SubSet>, g: Group, allowed: nat)
    requires FinishingRun(rounds, subs, g, allowed)
    ensures forall k :: 0 <= k < |rounds| ==> rounds[k].g == g
  {
    if rounds != [] {
      AllSameGroup(rounds[..|rounds| - 1], subs, g, allowed);
      assert forall k :: 0 <= k < |rounds| - 1 ==> rounds[k] == rounds[..|rounds| - 1][k];
    }
  }
}
