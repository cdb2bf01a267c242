/**
 Splitting a role's resources over the containers of its processes: a process that
 names its resources gets them, the others share what remains. Quantities are
 counted in milli-units.
 */
module ContainerResources {
  import opened Wrappers

  type Resources = map<string, int>

  const CPU := "cpu"
  const MEMORY := "memory"

  function At(r: Resources, k: string): int {
    if k in r then r[k] else 0
  }

  /** What the processes that name their resources take of `k`. */
  function Spent(procs: seq<Option<Resources>>, k: string): int {
    if procs == [] then 0 else
    Spent(procs[..|procs| - 1], k) + if procs[|procs| - 1].Some? then At(procs[|procs| - 1].value, k) else 0
  }

  function Unspecified(procs: seq<Option<Resources>>): nat {
    if procs == [] then 0 else Unspecified(procs[..|procs| - 1]) + if procs[|procs| - 1].None? then 1 else 0
  }

  /** The index of the last process that names no resources; 0 when all do. */
  function LastUnspecified(procs: seq<Option<Resources>>): nat {
    if procs == [] then 0
    else if procs[|procs| - 1].None? then |procs| - 1
    else LastUnspecified(procs[..|procs| - 1])
  }

  function Remain(limits: Resources, procs: seq<Option<Resources>>): Resources {
    map k | k in limits :: limits[k] - Spent(procs, k)
  }

  /** No process, in order, overdraws a limit. */
  predicate Fits(limits: Resources, procs: seq<Option<Resources>>) {
    procs == [] ||
    (var last := procs[|procs| - 1];
     && Fits(limits, procs[..|procs| - 1])
     && (last.Some? ==> forall k :: k in limits && k in last.value ==> limits[k] - Spent(procs, k) >= 0))
  }

  /** Subtracts the amounts that one process names; an overdrawn limit is an error. */
  method Subtract(limits: Resources, named: Resources) returns (r: Option<Resources>)
    ensures r.Some? <==> forall k :: k in limits && k in named ==> limits[k] - named[k] >= 0
    ensures r.Some? ==> r.value == map k | k in limits :: limits[k] - At(named, k)
  {
    var copy := limits;
    var todo := named.Keys;
    while todo != {}
      invariant todo <= named.Keys
      invariant copy == map k | k in limits :: if k in todo then limits[k] else limits[k] - At(named, k)
      invariant forall k :: k in limits && k in named && k !in todo ==> limits[k] - named[k] >= 0
    {
      var k :| k in todo;
      todo := todo - {k};
      if k in copy {
        var quantity := copy[k] - named[k];
        if quantity < 0 { return None; }
        copy := copy[k := quantity];
      }
    }
    return Some(copy);
  }

  method GetRemainRequirements(limits: Resources, procs: seq<Option<Resources>>) returns (r: Option<Resources>)
    ensures r.Some? <==> Fits(limits, procs)
    ensures r.Some? ==> r.value == Remain(limits, procs)
  {
    var copy := limits;
    for i := 0 to |procs|
      invariant copy == Remain(limits, procs[..i]) && Fits(limits, procs[..i])
    {
      assert procs[..i + 1][..i] == procs[..i];
      if procs[i].None? { continue; }
      var left := Subtract(copy, procs[i].value);
      if left.None? {
        FitsPrefix(limits, procs, i + 1);
        return None;
      }
      copy := left.value;
    }
    assert procs[..|procs|] == procs;
    return Some(copy);
  }

  lemma {:induction false} FitsPrefix(limits: Resources, procs: seq<Option<Resources>>, n: nat)
    requires n <= |procs|
    ensures Fits(limits, procs) ==> Fits(limits, procs[..n])
    decreases |procs|
  {
    if n == |procs| {
      assert procs[..n] == procs;
    } else {
      FitsPrefix(limits, procs[..|procs| - 1], n);
      assert procs[..|procs| - 1][..n] == procs[..n];
    }
  }

  /** Division that rounds toward zero. */
  function Quotient(total: int, n: int): int
    requires n > 0
  {
    if total >= 0 then total / n else -((-total) / n)
  }

  /** One share of `total` among `n`: rounded down, and the rest for the last. */
  function Share(total: int, n: nat, isLast: bool): int {
    if n <= 1 then total else if isLast then total - (n - 1) * Quotient(total, n) else Quotient(total, n)
  }

  function Split(base: Resources, n: nat, isLast: bool): Resources {
    map k | k in base :: if k == CPU || k == MEMORY then Share(base[k], n, isLast) else base[k]
  }

  method SplitResource(base: Resources, n: nat, isLast: bool) returns (r: Resources)
    requires n > 1
    ensures r == Split(base, n, isLast)
  {
    r := base;
    var todo := base.Keys;
    while todo != {}
      invariant todo <= base.Keys
      invariant r == map k | k in base :: if (k == CPU || k == MEMORY) && k !in todo then Share(base[k], n, isLast) else base[k]
    {
      var k :| k in todo;
      todo := todo - {k};
      if k == CPU || k == MEMORY {
        var value := Quotient(base[k], n);
        if isLast { value := base[k] - (n - 1) * value; }
        r := r[k := value];
      }
    }
  }

  /** The limits of container `i`; all but the first get only cpu and memory. */
  function LimitsOf(remain: Resources, procs: seq<Option<Resources>>, i: nat): Resources
    requires i < |procs|
  {
    if procs[i].Some? then procs[i].value else
    Split(if i == 0 then remain else map[CPU := At(remain, CPU), MEMORY := At(remain, MEMORY)],
          Unspecified(procs), i == LastUnspecified(procs))
  }

  method GetResourceRequirements(remain: Resources, procs: seq<Option<Resources>>, i: nat) returns (r: Resources)
    requires i < |procs|
    ensures r == LimitsOf(remain, procs, i)
  {
    if procs[i].Some? { return procs[i].value; }
    var remainLen, remainLast := 0, 0;
    for j := 0 to |procs|
      invariant remainLen == Unspecified(procs[..j]) && remainLast == LastUnspecified(procs[..j])
    {
      assert procs[..j + 1][..j] == procs[..j];
      if procs[j].None? { remainLast, remainLen := j, remainLen + 1; }
    }
    assert procs[..|procs|] == procs;
    r := remain;
    if i != 0 { r := map[CPU := At(remain, CPU), MEMORY := At(remain, MEMORY)]; }
    if remainLen > 1 {
      r := SplitResource(r, remainLen, i == remainLast);
    } else {
      assert Split(r, remainLen, i == remainLast) == r;
    }
  }

  /** The limits of every container of a role, or an error when a process overdraws. */
  method ContainerLimits(limits: Resources, procs: seq<Option<Resources>>) returns (r: Option<seq<Resources>>)
    ensures r.Some? <==> Fits(limits, procs)
    ensures r.Some? ==> |r.value| == |procs| && forall i :: 0 <= i < |procs| ==> r.value[i] == LimitsOf(Remain(limits, procs), procs, i)
  {
    var remain := GetRemainRequirements(limits, procs);
    if remain.None? { return None; }
    var containers := [];
    for i := 0 to |procs|
      invariant |containers| == i
      invariant forall j :: 0 <= j < i ==> containers[j] == LimitsOf(remain.value, procs, j)
    {
      var c := GetResourceRequirements(remain.value, procs, i);
      containers := containers + [c];
    }
    return Some(containers);
  }

  // ---------------------------------------------------------------- conservation

  /** The sum of `k` over the first `m` containers. */
  function Total(remain: Resources, procs: seq<Option<Resources>>, k: string, m: nat): int
    requires m <= |procs|
  {
    if m == 0 then 0 else Total(remain, procs, k, m - 1) + At(LimitsOf(remain, procs, m - 1), k)
  }

  predicate Divided(k: string) {
    k == CPU || k == MEMORY
  }

  lemma ShareOf(remain: Resources, procs: seq<Option<Resources>>, k: string, i: nat)
    requires i < |procs| && Divided(k) && k in remain && procs[i].None?
    ensures At(LimitsOf(remain, procs, i), k) == Share(remain[k], Unspecified(procs), i == LastUnspecified(procs))
  {
  }

  lemma {:induction false} UnspecifiedPrefix(procs: seq<Option<Resources>>, m: nat)
    requires m <= |procs|
    ensures Unspecified(procs[..m]) <= Unspecified(procs)
    ensures Unspecified(procs) > 0 ==> LastUnspecified(procs) < |procs| && procs[LastUnspecified(procs)].None?
    ensures Unspecified(procs) > 0 && m <= LastUnspecified(procs) ==> Unspecified(procs[..m]) < Unspecified(procs)
    ensures Unspecified(procs) > 0 && m > LastUnspecified(procs) ==> Unspecified(procs[..m]) == Unspecified(procs)
    decreases |procs|
  {
    if m == |procs| {
      assert procs[..m] == procs;
      if procs != [] {
        UnspecifiedPrefix(procs[..m - 1], m - 1);
      }
    } else {
      var init := procs[..|procs| - 1];
      UnspecifiedPrefix(init, m);
      assert init[..m] == procs[..m];
    }
  }

  lemma LastShare(total: int, n: nat)
    requires n >= 1
    ensures (n - 1) * Share(total, n, false) + Share(total, n, true) == total
  {
  }

  lemma Distribute(a: int, v: int)
    ensures (a + 1) * v == a * v + v
  {
  }

  /** The unspecified containers seen so far hold one rounded share each, or, once the last is among them, everything. */
  lemma {:induction false} PartialTotal(remain: Resources, procs: seq<Option<Resources>>, k: string, m: nat)
    requires m <= |procs| && Divided(k) && k in remain && Unspecified(procs) > 0
    ensures Total(remain, procs, k, m) == Spent(procs[..m], k) +
              if m > LastUnspecified(procs) then remain[k] else Unspecified(procs[..m]) * Share(remain[k], Unspecified(procs), false)
  {
    if m > 0 {
      PartialTotal(remain, procs, k, m - 1);
      UnspecifiedPrefix(procs, m);
      UnspecifiedPrefix(procs, m - 1);
      assert procs[..m][..m - 1] == procs[..m - 1];
      if procs[m - 1].None? {
        ShareOf(remain, procs, k, m - 1);
        var before, n := Unspecified(procs[..m - 1]), Unspecified(procs);
        hide LimitsOf;
        LastShare(remain[k], n);
        Distribute(before, Share(remain[k], n, false));
        assert m - 1 == LastUnspecified(procs) ==> before == n - 1;
      }
    }
  }

  /**
   When nothing is overdrawn and some process leaves its resources open, the containers' cpu and memory
   sum exactly to the role's limit.
   */
  lemma Conserves(limits: Resources, procs: seq<Option<Resources>>, k: string)
    requires Divided(k) && k in limits && Unspecified(procs) > 0
    ensures Total(Remain(limits, procs), procs, k, |procs|) == limits[k]
  {
    PartialTotal(Remain(limits, procs), procs, k, |procs|);
    UnspecifiedPrefix(procs, |procs|);
    assert procs[..|procs|] == procs;
  }

  lemma {:induction false} AllSpecified(remain: Resources, procs: seq<Option<Resources>>, k: string, m: nat)
    requires m <= |procs| && Unspecified(procs) == 0
    ensures Total(remain, procs, k, m) == Spent(procs[..m], k)
  {
    if m > 0 {
      AllSpecified(remain, procs, k, m - 1);
      NoneUnspecified(procs, m - 1);
      assert procs[..m][..m - 1] == procs[..m - 1];
    }
  }

  lemma {:induction false} NoneUnspecified(procs: seq<Option<Resources>>, i: nat)
    requires i < |procs| && Unspecified(procs) == 0
    ensures procs[i].Some?
  {
    if i < |procs| - 1 { NoneUnspecified(procs[..|procs| - 1], i); }
  }

  /** With every process naming its resources, the sum is the limit only if they take it all. */
  lemma ConservesExactly(limits: Resources, procs: seq<Option<Resources>>, k: string)
    requires Divided(k) && k in limits
    ensures Total(Remain(limits, procs), procs, k, |procs|) == limits[k] <==> Unspecified(procs) > 0 || Spent(procs, k) == limits[k]
  {
    assert procs[..|procs|] == procs;
    if Unspecified(procs) > 0 { Conserves(limits, procs, k); } else { AllSpecified(Remain(limits, procs), procs, k, |procs|); }
  }

  lemma ShareIs(total: int, n: nat)
    requires total >= 0 && n >= 1
    ensures Share(total, n, false) == total / n && Share(total, n, true) == total / n + total % n
  {
    Distribute(n - 1, total / n);
  }

  /** Shares of a non-negative rest are non-negative and differ by less than the number of shares. */
  lemma SharesFair(total: int, n: nat, a: bool, b: bool)
    requires total >= 0 && n >= 1
    ensures 0 <= Share(total, n, a) && Share(total, n, a) - Share(total, n, b) < n
  {
    ShareIs(total, n);
    hide Share;
  }

  /** Where amounts are not negative, whatever fits leaves a non-negative rest to share. */
  lemma {:induction false} RestNonNegative(limits: Resources, procs: seq<Option<Resources>>, k: string)
    requires Fits(limits, procs) && k in limits && limits[k] >= 0
    ensures Remain(limits, procs)[k] >= 0
  {
    if procs != [] { RestNonNegative(limits, procs[..|procs| - 1], k); }
  }

  /** Whether some later process leaves its resources open as well. */
  predicate OpenLater(procs: seq<Option<Resources>>, i: nat) {
    exists j :: i < j < |procs| && procs[j].None?
  }

  lemma {:induction false} LastIsLast(procs: seq<Option<Resources>>, i: nat)
    requires i < |procs| && procs[i].None?
    ensures i == LastUnspecified(procs) <==> !OpenLater(procs, i)
    ensures i <= LastUnspecified(procs) && Unspecified(procs) >= 1
  {
    var n := |procs| - 1;
    if procs[n].None? {
      assert i < n ==> OpenLater(procs, i);
    } else {
      var init := procs[..n];
      LastIsLast(init, i);
      assert OpenLater(procs, i) <==> OpenLater(init, i) by {
        if j :| i < j < |procs| && procs[j].None? { assert init[j].None?; }
        if j :| i < j < |init| && init[j].None? { assert procs[j].None?; }
      }
    }
  }

  /**
   What each container gets: a process that names its resources gets exactly those; the others share cpu and memory, the
   remainder going to the last of them; everything else goes to the first container alone, if it is one of them.
   */
  lemma ContainerGets(remain: Resources, procs: seq<Option<Resources>>, i: nat, k: string)
    requires i < |procs| && (Divided(k) && k in remain ==> remain[k] >= 0)
    ensures var got, open := At(LimitsOf(remain, procs, i), k), Unspecified(procs);
            && (procs[i].Some? ==> got == At(procs[i].value, k))
            && (procs[i].None? && Divided(k) ==>
                  open >= 1 && got == At(remain, k) / open + if OpenLater(procs, i) then 0 else At(remain, k) % open)
            && (procs[i].None? && !Divided(k) ==> got == if i == 0 then At(remain, k) else 0)
  {
    if procs[i].None? {
      LastIsLast(procs, i);
      if k in remain && Divided(k) { ShareIs(remain[k], Unspecified(procs)); }
      if k !in remain && Divided(k) { ShareIs(0, Unspecified(procs)); }
      hide Share, OpenLater, LastUnspecified, Unspecified;
    }
  }
}
