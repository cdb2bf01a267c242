/**
 The layer-7 health check: each probe moves a worker's health condition between
 unknown, alive, lost and dead; a change of the worker's version makes it unknown.
 */
module HealthCheck {

  datatype Health = Unknown | Alive | Lost | Dead

  datatype Condition = Condition(status: Health, lostCount: int, lastLostTime: int, version: string)

  datatype Config = Config(lostCountThreshold: int, lostTimeout: int)

  /** The condition after one probe at time `now`. */
  function Transfer(c: Condition, ok: bool, now: int, cfg: Config): Condition {
    if ok then
      if c.status.Alive? then c.(lostCount := 0) else Condition(Alive, 0, 0, c.version)
    else
      var count := c.lostCount + 1;
      match c.status
      case Alive | Unknown =>
        if count < cfg.lostCountThreshold then c.(lostCount := count) else Condition(Lost, count, now, c.version)
      case Lost =>
        if now - c.lastLostTime < cfg.lostTimeout then c else Condition(Dead, count, c.lastLostTime, c.version)
      case Dead => c
  }

  /** What the worker's phase says when it is not probed: keep the condition, or declare a status. */
  datatype Phase = Keep | NotReady | Finished | Failed

  datatype Check = Probe(now: int, ok: bool, version: string) | Skip(phase: Phase, version: string)

  /** A declared status forgets the count and the time of the loss. */
  function Declare(c: Condition, phase: Phase): Condition {
    match phase
    case Keep => c
    case NotReady => Condition(Unknown, 0, 0, c.version)
    case Finished => Condition(Alive, 0, 0, c.version)
    case Failed => Condition(Dead, 0, 0, c.version)
  }

  datatype PodPhase = Running | Terminated | PodFailed | OtherPhase

  /** What a check sees of the worker: `cold` is a standby that is neither hot nor still running as hot. */
  datatype WorkerView = WorkerView(cold: bool, lost: bool, phase: PodPhase, processReady: bool, daemon: bool)

  /** Whether the worker is probed, and otherwise what its phase says. */
  method NeedHealthCheck(w: WorkerView) returns (probe: bool, phase: Phase)
    ensures probe <==> !w.cold && !w.lost && w.phase.Running? && w.processReady
    ensures !probe ==> (phase.Keep? <==> w.lost && !w.cold)
    ensures !probe ==> (phase.Failed? <==> !w.cold && !w.lost && (w.phase.PodFailed? || (w.phase.Terminated? && w.daemon)))
    ensures !probe ==> (phase.Finished? <==> !w.cold && !w.lost && w.phase.Terminated? && !w.daemon)
  {
    if w.cold { return false, NotReady; }
    if w.lost { return false, Keep; }
    match w.phase
    case Running => if !w.processReady { return false, NotReady; } return true, Keep;
    case Terminated => return false, if w.daemon then Failed else Finished;
    case PodFailed => return false, Failed;
    case OtherPhase => return false, NotReady;
  }

  predicate Fails(k: Check) {
    k.Probe? && !k.ok
  }

  function Step(c: Condition, k: Check, cfg: Config): Condition {
    var d := match k
      case Probe(now, ok, _) => Transfer(c, ok, now, cfg)
      case Skip(phase, _) => Declare(c, phase);
    Condition(if k.version != c.version then Unknown else d.status, d.lostCount, d.lastLostTime, k.version)
  }

  class Checker {
    var condition: Condition
    const cfg: Config

    constructor (cfg: Config, version: string)
      ensures this.cfg == cfg && condition == Condition(Unknown, 0, 0, version)
    {
      this.cfg := cfg;
      condition := Condition(Unknown, 0, 0, version);
    }

    method DoCheck(k: Check)
      modifies `condition
      ensures condition == Step(old(condition), k, cfg)
    {
      var before := condition;
      if k.Probe? {
        condition := Transfer(condition, k.ok, k.now, cfg);
      } else {
        condition := Declare(condition, k.phase);
      }
      if k.version != before.version {
        condition := condition.(status := Unknown);
      }
      condition := condition.(version := k.version);
    }
  }

  // ---------------------------------------------------------------- whole runs

  function Run(checks: seq<Check>, cfg: Config, version: string): Condition {
    if checks == [] then Condition(Unknown, 0, 0, version)
    else Step(Run(checks[..|checks| - 1], cfg, version), checks[|checks| - 1], cfg)
  }

  /** The condition after some checks from `c` on. */
  function RunFrom(c: Condition, checks: seq<Check>, cfg: Config): Condition {
    if checks == [] then c else Step(RunFrom(c, checks[..|checks| - 1], cfg), checks[|checks| - 1], cfg)
  }

  lemma {:induction false} RunSplits(checks: seq<Check>, i: nat, cfg: Config, version: string)
    requires i <= |checks|
    ensures Run(checks, cfg, version) == RunFrom(Run(checks[..i], cfg, version), checks[i..], cfg)
  {
    if i == |checks| {
      assert checks[..i] == checks && checks[i..] == [];
    } else {
      var n := |checks| - 1;
      RunSplits(checks[..n], i, cfg, version);
      assert checks[..n][..i] == checks[..i] && checks[i..][..|checks[i..]| - 1] == checks[..n][i..];
    }
  }

  /** Every check is a failed probe or keeps the condition, and the version stays. */
  predicate OnlyFailures(checks: seq<Check>, version: string) {
    forall k :: 0 <= k < |checks| ==> checks[k].version == version && (checks[k] == Skip(Keep, version) || Fails(checks[k]))
  }

  function Failures(checks: seq<Check>): nat {
    if checks == [] then 0 else Failures(checks[..|checks| - 1]) + if Fails(checks[|checks| - 1]) then 1 else 0
  }

  /**
   An alive or unknown worker that only fails keeps its status, with the failures added to its count, exactly as long
   as it has not failed or the count stays below the threshold; then it is lost with the count that took it there, or
   dead with one more. A lost one stays as it is or dies, and a dead one stays as it is.
   */
  lemma {:induction false} FailingFrom(c: Condition, checks: seq<Check>, cfg: Config)
    requires OnlyFailures(checks, c.version)
    ensures var d, n := RunFrom(c, checks, cfg), Failures(checks);
            && d.version == c.version
            && (c.status.Alive? || c.status.Unknown? ==>
                  && (d.status == c.status <==> n == 0 || c.lostCount + n < cfg.lostCountThreshold)
                  && (d.status == c.status ==> d == c.(lostCount := c.lostCount + n))
                  && (d.status != c.status ==>
                        var taken := if c.lostCount + 1 < cfg.lostCountThreshold then cfg.lostCountThreshold else c.lostCount + 1;
                        || (d.status.Lost? && d.lostCount == taken) || (d.status.Dead? && d.lostCount == taken + 1)))
            && (c.status.Lost? ==>
                  d == c || (d.status.Dead? && d == c.(status := Dead, lostCount := c.lostCount + 1)))
            && (c.status.Dead? ==> d == c)
  {
    if checks != [] {
      var n := |checks| - 1;
      assert checks[n].version == c.version;
      FailingFrom(c, checks[..n], cfg);
    }
  }

  /**
   In any run, from its last successful probe on (or from a version change with it): while only failures follow, the
   worker keeps the status the success gave it exactly below the threshold, with the failures since as its count.
   */
  lemma FailingSinceSuccess(checks: seq<Check>, i: nat, cfg: Config, version: string)
    requires i < |checks| && checks[i].Probe? && checks[i].ok && OnlyFailures(checks[i + 1..], checks[i].version)
    ensures var since, c, n := Run(checks[..i + 1], cfg, version), Run(checks, cfg, version), Failures(checks[i + 1..]);
            && since.lostCount == 0 && since.version == checks[i].version
            && since.status == (if Run(checks[..i], cfg, version).version == checks[i].version then Alive else Unknown)
            && (c.status == since.status <==> n == 0 || n < cfg.lostCountThreshold)
            && (c.status == since.status ==> c.lostCount == n)
            && (c.status != since.status ==> c.status.Lost? || c.status.Dead?)
  {
    var first := checks[..i + 1];
    assert first[..i] == checks[..i];
    RunSplits(checks, i + 1, cfg, version);
    FailingFrom(Run(first, cfg, version), checks[i + 1..], cfg);
  }

  /** A change of the version makes the condition unknown and otherwise leaves what the check alone would have made of it. */
  lemma VersionChangeExactly(c: Condition, k: Check, cfg: Config)
    ensures var same := k.(version := c.version);
            Step(c, k, cfg) == if k.version == c.version then Step(c, same, cfg)
                               else Step(c, same, cfg).(status := Unknown, version := k.version)
  {
  }

  /** A worker declared dead, its version unchanged, stays dead with count 0 until a probe succeeds or a phase says otherwise. */
  lemma DeclaredDeadHolds(c: Condition, checks: seq<Check>, cfg: Config)
    requires OnlyFailures(checks, c.version)
    ensures RunFrom(Step(c, Skip(Failed, c.version), cfg), checks, cfg) == Condition(Dead, 0, 0, c.version)
  {
    FailingFrom(Step(c, Skip(Failed, c.version), cfg), checks, cfg);
  }

  /** Failed probes since the last successful one. */
  function Streak(checks: seq<Check>): nat {
    if checks == [] then 0 else
    var before := Streak(checks[..|checks| - 1]);
    match checks[|checks| - 1]
    case Probe(_, ok, _) => if ok then 0 else before + 1
    case Skip(_, _) => before
  }

  /**
   The stored count never exceeds the failure streak, and a worker that is lost, or dead by its probes, has
   failed at least the threshold in a row. A worker dead by its phase has count 0.
   */
  lemma {:induction false} CountWithinStreak(checks: seq<Check>, cfg: Config, version: string)
    ensures var c := Run(checks, cfg, version);
            && 0 <= c.lostCount <= Streak(checks)
            && (c.status.Lost? ==> 0 < c.lostCount)
            && (c.status.Lost? || (c.status.Dead? && c.lostCount > 0) ==> cfg.lostCountThreshold <= c.lostCount)
  {
    if checks != [] { CountWithinStreak(checks[..|checks| - 1], cfg, version); }
  }

  /** Check `i` made the worker lost, and every later check was a failed probe or kept the condition. */
  predicate LostAt(checks: seq<Check>, i: nat, cfg: Config, version: string) {
    && i < |checks| && Fails(checks[i])
    && !Run(checks[..i], cfg, version).status.Lost? && Run(checks[..i + 1], cfg, version).status.Lost?
    && forall k :: i < k < |checks| ==> checks[k] == Skip(Keep, checks[k].version) || Fails(checks[k])
  }

  lemma LostAtExtends(checks: seq<Check>, i: nat, cfg: Config, version: string)
    requires checks != [] && LostAt(checks[..|checks| - 1], i, cfg, version)
    requires var last := checks[|checks| - 1]; last == Skip(Keep, last.version) || Fails(last)
    ensures LostAt(checks, i, cfg, version)
  {
    hide Run;
    var init := checks[..|checks| - 1];
    assert init[..i] == checks[..i] && init[..i + 1] == checks[..i + 1];
    forall k | i < k < |checks| ensures checks[k] == Skip(Keep, checks[k].version) || Fails(checks[k]) {
      if k < |init| { assert init[k] == checks[k]; }
    }
  }

  /** A lost worker became lost at some failed probe, whose time is stored, and no probe succeeded since. */
  lemma {:induction false} LostHistory(checks: seq<Check>, cfg: Config, version: string) returns (i: nat)
    requires Run(checks, cfg, version).status.Lost?
    ensures LostAt(checks, i, cfg, version) && Run(checks, cfg, version).lastLostTime == checks[i].now
  {
    var n := |checks| - 1;
    var init := checks[..n];
    if Run(init, cfg, version).status.Lost? {
      i := LostHistory(init, cfg, version);
      LostAtExtends(checks, i, cfg, version);
    } else {
      i := n;
      assert checks[..n + 1] == checks;
    }
  }

  /** A check that leaves a worker dead by its probes found it so, or found it lost for at least the timeout. */
  lemma DeadBefore(c: Condition, k: Check, cfg: Config)
    requires Step(c, k, cfg).status.Dead? && Step(c, k, cfg).lostCount > 0
    ensures k == Skip(Keep, k.version) || Fails(k)
    ensures (c.status.Dead? && c.lostCount > 0) || (c.status.Lost? && Fails(k) && k.now - c.lastLostTime >= cfg.lostTimeout)
  {
  }

  /**
   A worker dead by its probes became lost at probe `i` and dead at a later failed probe `d`, at least the timeout
   after it, and every probe since `i` failed.
   */
  lemma {:induction false} DeadHistory(checks: seq<Check>, cfg: Config, version: string) returns (i: nat, d: nat)
    requires Run(checks, cfg, version).status.Dead? && Run(checks, cfg, version).lostCount > 0
    ensures LostAt(checks, i, cfg, version) && i < d < |checks| && Fails(checks[d])
    ensures Run(checks[..d], cfg, version).status.Lost? && Run(checks[..d + 1], cfg, version).status.Dead?
    ensures checks[d].now - checks[i].now >= cfg.lostTimeout
  {
    var n := |checks| - 1;
    var init := checks[..n];
    var c := Run(init, cfg, version);
    assert Run(checks, cfg, version) == Step(c, checks[n], cfg);
    hide Run;
    DeadBefore(c, checks[n], cfg);
    hide Step;
    if c.status.Dead? {
      i, d := DeadHistory(init, cfg, version);
      assert init[..d] == checks[..d] && init[..d + 1] == checks[..d + 1];
      assert init[d] == checks[d] && init[i] == checks[i];
    } else {
      i := LostHistory(init, cfg, version);
      d := n;
      assert checks[..n + 1] == checks && init[i] == checks[i];
    }
    LostAtExtends(checks, i, cfg, version);
  }

  /**
   A worker that became lost at check `i` and, with its version unchanged, only failed since is dead exactly when
   some later probe failed at least the timeout after it; until then it is lost.
   */
  lemma {:induction false} DeadExactlyAfterTimeout(checks: seq<Check>, i: nat, cfg: Config, version: string)
    requires LostAt(checks, i, cfg, version) && forall k :: i < k < |checks| ==> checks[k].version == checks[i].version
    ensures var c := Run(checks, cfg, version);
            && c.version == checks[i].version
            && ((c.status.Lost? && c.lastLostTime == checks[i].now) || c.status.Dead?)
            && (c.status.Dead? <==> exists d :: i < d < |checks| && Fails(checks[d]) && checks[d].now - checks[i].now >= cfg.lostTimeout)
  {
    var n := |checks| - 1;
    var init := checks[..n];
    if i == n {
      assert checks[..n + 1] == checks;
    } else {
      assert init[..i] == checks[..i] && init[..i + 1] == checks[..i + 1];
      DeadExactlyAfterTimeout(init, i, cfg, version);
      assert forall d :: 0 <= d < n ==> init[d] == checks[d];
      hide Run;
      assert checks[n] == Skip(Keep, checks[n].version) || Fails(checks[n]);
    }
  }

  /** A successful probe with the version unchanged restores a worker from any state. */
  lemma SuccessRestores(c: Condition, now: int, cfg: Config)
    ensures var d := Step(c, Probe(now, true, c.version), cfg);
            d.status.Alive? && d.lostCount == 0
  {
  }

  /** Nothing is declared lost early or late: under failures alone the status holds below the threshold and is left at it. */
  lemma {:induction false} LostExactlyAtThreshold(checks: seq<Check>, cfg: Config, version: string)
    requires forall k :: k in checks ==> Fails(k) && k.version == version
    ensures var c := Run(checks, cfg, version);
            && (c.status.Unknown? <==> |checks| == 0 || |checks| < cfg.lostCountThreshold)
            && (c.status.Unknown? ==> c.lostCount == |checks|)
            && !c.status.Alive? && c.version == version
  {
    if checks != [] { LostExactlyAtThreshold(checks[..|checks| - 1], cfg, version); }
  }
}
