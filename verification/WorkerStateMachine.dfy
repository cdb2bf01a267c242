/**
 The worker state machine: one pass takes a worker through the stages of its
 allocation status, updates its pod, takes it out of service before a restart and
 deletes the pod when it is released. The passes are given as functions over the
 worker, and the class at the end runs them in place and is proved equal to them.
 */
module WorkerStateMachine {
  import opened WorkerNode

  /** Feature gates. */
  datatype Features = Features(unPubRestarting: bool, warmupNewStarting: bool, warmupUnavailable: bool)

  datatype Executor = InPlace | Recreate

  datatype Pod = NoPod | Pod(bound: bool, deleting: bool, failedWithIP: bool)

  datatype UpdateOutcome = Applied | Rejected | Broken

  /**
   What one pass observes besides the worker's own status: the spec and the service conditions as
   others have left them, the pod and how it compares with the target, and how each call turns out.
   `recreateScheduler` is the scheduler type, which is set apart from the executor.
   */
  datatype Pass = Pass(
    features: Features, executor: Executor, recreateScheduler: bool, spec: Spec, toRelease: bool,
    conditions: seq<ServiceCondition>, service: ServiceStatus, pod: Pod,
    processMatch: bool, podUpdated: bool, resourceUpdated: bool, updateAll: bool,
    resourceReached: bool, versionSettles: bool, phaseFailed: bool,
    healthReady: bool, latestAvailable: bool, complete: bool, warmupOver: bool,
    couldNotInplace: bool, specChanged: bool,
    services: seq<ServiceCondition>, servicesFail: bool, deleteFails: bool, createFails: bool,
    resourceFails: bool, processFails: bool, mergeFails: bool, update: UpdateOutcome)

  /** What a pass does that can be seen from outside, with the worker as it was at that moment. */
  datatype Event =
    | Placed(w: Worker)
    | SpecSynced(w: Worker)
    | PodUpdated(w: Worker, processChange: bool)
    | PodRecreated(w: Worker, processChange: bool)
    | LeftOffline(w: Worker)
    | PodDeleted(w: Worker)

  /** `pod` is the pod of the machine, `current` that of its allocator. */
  datatype Machine = Machine(w: Worker, pod: bool, current: bool, log: seq<Event>)

  function Log(m: Machine, e: Event): Machine {
    m.(log := m.log + [e])
  }

  function With(m: Machine, s: Status): Machine {
    m.(w := m.w.(status := s))
  }

  function SetTraffic(w: Worker, t: Traffic): Worker {
    w.(status := w.status.(traffic := t))
  }

  function SetOffline(w: Worker, offline: bool): Worker {
    SetTraffic(w, w.status.traffic.(offline := offline))
  }

  function SetAlloced(w: Worker, alloced: bool): Worker {
    w.(status := w.status.(entity := w.status.entity.(alloced := alloced)))
  }

  function SetFailed(s: Status, failed: bool): Status {
    s.(flags := s.flags.(failed := failed))
  }

  function SetReclaim(m: Machine, reclaim: bool): Machine {
    With(m, m.w.status.(flags := m.w.status.flags.(internalReclaim := reclaim)))
  }

  // ---------------------------------------------------------------- allocator

  predicate ShouldGracefullyRestart(w: Worker, f: Features) {
    f.unPubRestarting || (f.warmupNewStarting && NeedWarmup(w))
  }

  /** A recreated worker starts over. */
  function StartOver(w: Worker): Worker {
    Worker(w.spec.(releasing := false), FRESH)
  }

  function SyncAllocStatus(m: Machine, p: Pass): Machine {
    var w := if m.w.status.service.Unset? then m.w.(status := m.w.status.(service := UnAvailable)) else m.w;
    if !m.current || !p.pod.Pod? then m.(w := SetEntity(w, false, false))
    else if !p.pod.bound then m.(w := w.(status := SetFailed(w.status, w.status.flags.failed || p.pod.failedWithIP)))
    else
      var alloced := !(w.status.alloc.Assigned? && p.pod.deleting);
      var w := SetEntity(SetAlloced(w, alloced), true, true);
      m.(w := if p.recreateScheduler && !EntityAlloced(w) && w.status.alloc.Assigned? then StartOver(w) else w)
  }

  function SyncWorkerStatus(m: Machine, p: Pass): Machine {
    var n := SyncAllocStatus(m, p);
    if !n.current then n else
    var s := SetFailed(n.w.status, p.phaseFailed);
    var s := if p.resourceReached then s.(resVersion := n.w.spec.resVersion) else s;
    var s := if p.processMatch && p.podUpdated && p.versionSettles then s.(version := n.w.spec.version) else s;
    With(n, s)
  }

  datatype Outcome = Outcome(m: Machine, err: bool)

  /** The restart branch of `SyncPodSpec`: the worker after it, and whether the update has to wait. */
  function PrepareRestart(w: Worker, p: Pass): (Worker, bool) {
    if p.processMatch then (w, false) else
    var t := w.status.traffic.(inRestarting := true);
    var t := if p.features.warmupNewStarting then t.(needWarmup := NeedWarmup(w)) else t;
    var v := SetTraffic(w, t);
    (v, ShouldGracefullyRestart(v, p.features) && !UnAvailableNow(v) && !t.offline)
  }

  function UpdatePod(m: Machine, p: Pass, processChange: bool): Outcome {
    match p.executor
    case InPlace => (
      var n := Log(m, PodUpdated(m.w, processChange));
      match p.update
      case Applied => Outcome(SetReclaim(n, false), false)
      case Rejected => Outcome(SetReclaim(n, VersionMisMatch(n.w) || n.w.status.flags.internalReclaim), false)
      case Broken => Outcome(n.(current := false), true))
    case Recreate =>
      if !VersionMisMatch(m.w) || !p.specChanged then Outcome(m.(current := false), false)
      else
        var n := Log(m, PodRecreated(m.w, processChange));
        if p.update.Broken? then Outcome(n.(current := false), true)
        else Outcome(n.(current := false, w := StartOver(n.w)), false)
  }

  function SyncPodSpec(m: Machine, p: Pass): Outcome {
    var w := m.w;
    if !m.current then Outcome(m, false) else
    var m := Log(m, SpecSynced(w));
    var resMM := ResVersionMisMatch(w);
    if (!VersionMisMatch(w) && !resMM && !ModeMisMatch(w)) || (p.podUpdated && p.resourceUpdated) then
      Outcome(SetReclaim(m, false), false)
    else
    var resource := !p.resourceUpdated && (resMM || ModeMisMatch(w));
    if resource && w.spec.quickOnline then Outcome(SetReclaim(m, true), false)
    else if resource && p.resourceFails then Outcome(m, true)
    else
    UpdateSpec(m, p, resource)
  }

  /** The process is updated only once the resources are in place. */
  predicate ProcessDue(w: Worker, p: Pass, resource: bool) {
    || ModeMisMatch(w)
    || ((!ResVersionMisMatch(w) || (resource && p.updateAll) || w.status.alloc.UnAssigned?) && VersionMisMatch(w) && !p.podUpdated)
  }

  function UpdateSpec(m: Machine, p: Pass, resource: bool): Outcome {
    if !ProcessDue(m.w, p, resource) then CommitSpec(m, p, resource, false) else
    var (v, wait) := PrepareRestart(m.w, p);
    if wait then Outcome(m.(w := v), false) else CommitSpec(m.(w := v), p, resource, true)
  }

  function CommitSpec(m: Machine, p: Pass, resource: bool, process: bool): Outcome {
    if process && p.processFails then Outcome(m, true)
    else if !resource && !process then Outcome(m, false)
    else if p.mergeFails then Outcome(m, true)
    else if VersionMisMatch(m.w) && p.couldNotInplace then Outcome(SetReclaim(m, true), false)
    else UpdatePod(SetReclaim(m, false), p, process && !p.processMatch)
  }

  /** Deletes the pod once the worker is out of service; otherwise it reports success and deletes nothing. */
  function DeletePod(m: Machine, p: Pass): Outcome {
    var n := m.(w := SyncService(m.w));
    if !CouldDeletePod(n.w) then Outcome(n, false)
    else if !n.current then Outcome(n.(w := SetEntity(n.w.(status := SetFailed(n.w.status, false)), false, false)), false)
    else if p.deleteFails then Outcome(n, true)
    else Outcome(Log(n, PodDeleted(n.w)), false)
  }

  // ---------------------------------------------------------------- assigned

  predicate NeedOfflineForRestart(w: Worker, f: Features) {
    ShouldGracefullyRestart(w, f) && w.status.traffic.inRestarting
  }

  predicate OfflineForRestart(w: Worker, f: Features) {
    NeedOfflineForRestart(w, f) && !w.status.traffic.offline && MisMatch(w)
  }

  function ProcessNeedWarmUp(w: Worker, p: Pass): Worker {
    var t := w.status.traffic;
    var t := if p.features.warmupUnavailable && !t.warmup && w.status.flags.inUpdating && Unserviceable(w) && !HealthInfoReady(w, p)
             then t.(needWarmup := NeedWarmup(w)) else t;
    SetTraffic(w, if t.needWarmup && !w.spec.graceful then t.(offline := true) else t)
  }

  predicate HealthInfoReady(w: Worker, p: Pass) {
    w.status.alloc.Assigned? && p.healthReady
  }

  function ProcessUpdateGracefully(w: Worker, p: Pass): (Worker, bool) {
    if w.spec.graceful || NeedOfflineForRestart(w, p.features) then
      if MisMatch(w) then
        var v := SyncService(SetOffline(w, true));
        (v, Unpublished(v))
      else (ProcessNeedWarmUp(w, p), true)
    else (ProcessNeedWarmUp(SetOffline(w, !w.spec.online), p), true)
  }

  datatype Plan = Ready | Failed | NotYet

  function ProcessPlan(m: Machine, p: Pass): (Machine, Plan) {
    var w := m.w;
    if VersionRollback(w.spec.version, w.status.version) then
      (With(m, w.status.(version := NoVersion)), NotYet)
    else if VersionInnerMatch(w.spec.version, w.status.version) then
      (With(m, w.status.(version := w.spec.version)), Ready)
    else
    var o := SyncPodSpec(m, p);
    if o.err then (o.m, Failed)
    else if OfflineForRestart(o.m.w, p.features) then (o.m, NotYet)
    else
    var n := SyncWorkerStatus(o.m, p);
    (n, if MisMatch(n.w) || !n.w.spec.dependencyReady then NotYet else Ready)
  }

  function ProcessHealthInfo(w: Worker, p: Pass): (Worker, bool) {
    if HealthInfoReady(w, p) then (w, w.spec.dependencyReady)
    else (ProcessNeedWarmUp(w, p), false)
  }

  function ProcessServiceInfo(w: Worker, p: Pass): (Worker, bool) {
    var t := w.status.traffic;
    if w.spec.graceful || ShouldGracefullyRestart(w, p.features) || t.needWarmup || t.warmup then
      if t.needWarmup && !w.spec.rowComplete && p.features.warmupUnavailable then (w, false) else
      var t := if t.needWarmup then t.(warmup := true, needWarmup := false) else t;
      var t := if t.offline != !w.spec.online then t.(inRestarting := false, offline := !w.spec.online) else t;
      var t := if !t.offline && t.warmup && p.warmupOver then t.(warmup := false) else t;
      ServiceVerdict(SyncService(SetTraffic(w, t)), p)
    else ServiceVerdict(SyncService(w), p)
  }

  function ServiceVerdict(w: Worker, p: Pass): (Worker, bool) {
    (w, if !w.spec.online then UnAvailableNow(w) else p.latestAvailable)
  }

  datatype Verdict = Stop | Retry | Go

  /** One run of the loop body of the assigned stage: take offline, then plan. */
  function AssignedBody(m: Machine, p: Pass): (Machine, Verdict) {
    var (w, unpublished) := ProcessUpdateGracefully(m.w, p);
    var m := m.(w := w);
    if !unpublished then (m, Stop) else
    var (n, plan) := ProcessPlan(m, p);
    (n, match plan
        case Failed => Stop
        case NotYet => if OfflineForRestart(n.w, p.features) then Retry else Stop
        case Ready => Go)
  }

  function AssignedTail(m: Machine, p: Pass): Machine {
    var (w, healthy) := ProcessHealthInfo(m.w, p);
    if !healthy then m.(w := w) else
    var (v, served) := ProcessServiceInfo(w, p);
    if !served then m.(w := v) else m.(w := SetTraffic(v, v.status.traffic.(inRestarting := false)))
  }

  /** The loop, unrolled twice. */
  function AssignedLoop(m: Machine, p: Pass): (Machine, Verdict) {
    var (n, v) := AssignedBody(m, p);
    if v.Retry? then AssignedBody(n, p) else (n, v)
  }

  function TryToRelease(w: Worker): Worker {
    w.(status := w.status.(alloc := if w.spec.graceful then Offlining else Releasing))
  }

  function Settle(m: Machine, p: Pass): Machine {
    m.(w := SyncInUpdating(m.w.(status := m.w.status.(flags := m.w.status.flags.(complete := p.complete)))))
  }

  function DealAssigned(m: Machine, p: Pass): Machine {
    if ToRelease(m.w) then Settle(m.(w := TryToRelease(m.w)), p)
    else if !EntityAlloced(m.w) then Settle(With(m, m.w.status.(alloc := Lost)), p)
    else
    var (n, v) := AssignedLoop(m, p);
    Settle(if v.Go? then AssignedTail(n, p) else n, p)
  }

  // ---------------------------------------------------------------- other stages

  function InitConditions(w: Worker, p: Pass): Worker {
    if ToRelease(w) || p.services == [] || w.status.conditions != [] then w
    else SyncService(w.(status := w.status.(conditions := p.services)))
  }

  function DealUnAssigned(m: Machine, p: Pass): Machine {
    if !ToRelease(m.w) && p.servicesFail then m else Route(m.(w := InitConditions(m.w, p)), p)
  }

  function Route(m: Machine, p: Pass): Machine {
    var w := m.w;
    if EntityAlloced(w) then
      var t := w.status.traffic.(inRestarting := true);
      var t := if p.features.warmupNewStarting then t.(needWarmup := NeedWarmup(w)) else t;
      Log(With(m, w.status.(traffic := t, alloc := Assigned)), Placed(w))
    else if !w.status.entity.named && ToRelease(w) then
      var o := if m.pod then DeletePod(m, p) else Outcome(m, false);
      if o.err then o.m else With(o.m, o.m.w.status.(alloc := Released)).(pod := false)
    else if ToRelease(w) then m.(w := TryToRelease(w))
    else if !w.status.entity.named && w.spec.mode != Cold && !m.pod then
      if p.createFails then m else m.(w := SetEntity(w, true, true), current := true)
    else if m.pod then SyncPodSpec(m, p).m
    else m
  }

  function DealLost(m: Machine): Machine {
    if ToRelease(m.w) then m.(w := TryToRelease(m.w)) else m
  }

  function DealOfflining(m: Machine): Machine {
    var n := m.(w := SyncService(SetOffline(m.w, true)));
    if Offlined(n.w) || Irrecoverable(n.w) then Log(With(n, n.w.status.(alloc := Releasing)), LeftOffline(n.w)) else n
  }

  function DealReleasing(m: Machine, p: Pass): Machine {
    var o := if m.pod then DeletePod(m, p) else Outcome(m, false);
    if o.err then o.m else
    var n := if m.pod then
               o.m.(pod := false, w := SetEntity(SetAlloced(o.m.w, false), false, false))
             else o.m;
    if n.w.status.entity.named then n else With(n, n.w.status.(alloc := Released))
  }

  // ---------------------------------------------------------------- one pass

  function Start(s: Status, p: Pass, log: seq<Event>): Machine {
    var seen := s.(conditions := p.conditions, service := p.service, flags := s.flags.(toRelease := p.toRelease));
    var m := SyncAllocStatus(Machine(Worker(p.spec, seen), p.pod.Pod?, p.pod.Pod?, log), p);
    m.(w := SyncInUpdating(m.w))
  }

  /** The earlier stages of a pass. */
  function Enter(m: Machine, p: Pass): Machine {
    var m := if m.w.status.alloc.UnAssigned? then DealUnAssigned(m, p) else m;
    if m.w.status.alloc.Assigned? then DealAssigned(m, p) else m
  }

  /** The later stages, from a lost worker on; nothing is left to do for a released one. */
  function Leave(m: Machine, p: Pass): Machine {
    var m := if m.w.status.alloc.Lost? then DealLost(m) else m;
    var m := if m.w.status.alloc.Offlining? then DealOfflining(m) else m;
    if m.w.status.alloc.Releasing? then DealReleasing(m, p) else m
  }

  function Process(s: Status, p: Pass, log: seq<Event>): Machine {
    Leave(Enter(Start(s, p, log), p), p)
  }

  datatype History = History(status: Status, log: seq<Event>)

  function Run(h: History, passes: seq<Pass>): History
    decreases |passes|
  {
    if passes == [] then h else Run(Next(h, passes[0]), passes[1..])
  }

  function Next(h: History, p: Pass): History {
    var m := Process(h.status, p, h.log);
    History(m.w.status, m.log)
  }

  // ---------------------------------------------------------------- safe events

  /**
   A pod update is cleared when a graceful assigned worker whose version or mode differs is unpublished and,
   where graceful restart applies, a change of the process finds the worker unavailable or marked offline.
   */
  predicate Cleared(w: Worker, processChange: bool, f: Features) {
    && (w.status.alloc.Assigned? && w.spec.graceful && MisMatch(w) ==> Unpublished(w))
    && (processChange && ShouldGracefullyRestart(w, f) ==> UnAvailableNow(w) || w.status.traffic.offline)
  }

  /**
   A graceful worker whose version or mode differs is handed to the allocator only when unpublished; pod updates
   and recreations are cleared, and a recreation replaces another version; a worker leaves the offlining stage only
   offlined or irrecoverable; a release deletes the pod only when unavailable or released without grace.
   */
  predicate Safe(e: Event, f: Features) {
    match e
    case Placed(_) => true
    case SpecSynced(w) => w.status.alloc.Assigned? && w.spec.graceful && MisMatch(w) ==> Unpublished(w)
    case PodUpdated(w, processChange) => Cleared(w, processChange, f)
    case PodRecreated(w, processChange) => Cleared(w, processChange, f) && VersionMisMatch(w)
    case LeftOffline(w) => Offlined(w) || Irrecoverable(w)
    case PodDeleted(w) => UnAvailableNow(w) || (!w.spec.graceful && ToRelease(w))
  }

  /** `n` continues the log of `m` with safe events only. */
  predicate SafeFrom(m: Machine, n: Machine, f: Features) {
    m.log <= n.log && forall i :: |m.log| <= i < |n.log| ==> Safe(n.log[i], f)
  }

  /** The events of the allocator's spec updates. */
  predicate Routine(e: Event) {
    e.SpecSynced? || e.PodUpdated? || e.PodRecreated?
  }

  /** `n` continues the log of `m` with safe spec updates, in the same place of the pod. */
  predicate Updates(m: Machine, n: Machine, p: Pass) {
    SafeFrom(m, n, p.features) && n.pod == m.pod && forall i :: |m.log| <= i < |n.log| ==> Routine(n.log[i])
  }

  /** The allocator only restarts, reclaims or, with the recreate executor, resets a worker. */
  predicate Carried(a: Worker, b: Worker, e: Executor) {
    if b.status == FRESH && e.Recreate? then true
    else
      && a.spec == b.spec && a.status.alloc == b.status.alloc && a.status.conditions == b.status.conditions
      && a.status.traffic.offline == b.status.traffic.offline && a.status.entity == b.status.entity
      && a.status.flags.toRelease == b.status.flags.toRelease
  }

  lemma RestartWaits(w: Worker, p: Pass)
    ensures var (v, wait) := PrepareRestart(w, p);
            && Carried(w, v, p.executor) && v.status.version == w.status.version
            && v.status.mode == w.status.mode && v.status.resVersion == w.status.resVersion && v.status.service == w.status.service
            && (wait <==> !p.processMatch && ShouldGracefullyRestart(w, p.features) && !UnAvailableNow(w) && !w.status.traffic.offline)
            && (ShouldGracefullyRestart(v, p.features) <==> ShouldGracefullyRestart(w, p.features))
  {
  }

  /** One more safe event of the allocator, with the worker carried over. */
  lemma LogsOne(m: Machine, n: Machine, e: Event, p: Pass)
    requires n.log == m.log + [e] && n.pod == m.pod && Safe(e, p.features) && Routine(e)
    ensures Updates(m, n, p)
  {
    hide Safe, Routine;
  }

  lemma UpdatePodSafe(m: Machine, p: Pass, processChange: bool)
    requires Cleared(m.w, processChange, p.features)
    ensures var o := UpdatePod(m, p, processChange);
            Updates(m, o.m, p) && Carried(m.w, o.m.w, p.executor)
  {
    hide VersionMisMatch, Cleared, SafeFrom, Updates;
    var o := UpdatePod(m, p, processChange);
    if p.executor.InPlace? {
      LogsOne(m, o.m, PodUpdated(m.w, processChange), p);
    } else if VersionMisMatch(m.w) && p.specChanged {
      LogsOne(m, o.m, PodRecreated(m.w, processChange), p);
    } else {
      LogsNothing(m, o.m, p);
    }
  }

  lemma LogsNothing(m: Machine, n: Machine, p: Pass)
    requires n.log == m.log && n.pod == m.pod
    ensures Updates(m, n, p)
  {
  }

  lemma CommitSpecSafe(m: Machine, p: Pass, resource: bool, process: bool)
    requires Cleared(m.w, process && !p.processMatch, p.features)
    ensures var o := CommitSpec(m, p, resource, process);
            Updates(m, o.m, p) && Carried(m.w, o.m.w, p.executor)
  {
    UpdatePodSafe(SetReclaim(m, false), p, process && !p.processMatch);
  }

  lemma UpdateSpecSafe(m: Machine, p: Pass, resource: bool)
    requires Safe(SpecSynced(m.w), p.features)
    ensures var o := UpdateSpec(m, p, resource);
            Updates(m, o.m, p) && Carried(m.w, o.m.w, p.executor)
  {
    if ProcessDue(m.w, p, resource) {
      RestartWaits(m.w, p);
      var (v, wait) := PrepareRestart(m.w, p);
      if !wait {
        assert Cleared(v, !p.processMatch, p.features);
        CommitSpecSafe(m.(w := v), p, resource, true);
      }
    } else {
      CommitSpecSafe(m, p, resource, false);
    }
  }

  lemma SyncPodSpecSafe(m: Machine, p: Pass)
    requires Safe(SpecSynced(m.w), p.features)
    ensures var o := SyncPodSpec(m, p);
            Updates(m, o.m, p) && Carried(m.w, o.m.w, p.executor)
  {
    hide UpdateSpec, VersionMisMatch, ModeMisMatch, ResVersionMisMatch;
    var n := Log(m, SpecSynced(m.w));
    UpdateSpecSafe(n, p, !p.resourceUpdated && (ResVersionMisMatch(m.w) || ModeMisMatch(m.w)));
  }

  // ---------------------------------------------------------------- the retry loop ends

  lemma SyncStatusKeeps(m: Machine, p: Pass)
    ensures var n := SyncWorkerStatus(m, p);
            && n.pod == m.pod && n.current == m.current && n.log == m.log
            && ((n.w.status.traffic == m.w.status.traffic && n.w.status.alloc == m.w.status.alloc && n.w.spec == m.w.spec)
                || (p.recreateScheduler && n.w.status.alloc.UnAssigned? && n.w.status.traffic == FRESH.traffic))
  {
    var n := SyncAllocStatus(m, p);
    assert (n.w.status.traffic == m.w.status.traffic && n.w.status.alloc == m.w.status.alloc && n.w.spec == m.w.spec)
        || (p.recreateScheduler && n.w.status == FRESH);
  }

  lemma AllocIgnoresLog(m: Machine, p: Pass, log: seq<Event>)
    ensures SyncAllocStatus(m.(log := log), p) == SyncAllocStatus(m, p).(log := log)
    ensures SyncAllocStatus(m, p) == m.(w := SyncAllocStatus(m, p).w)
  {
  }

  lemma SyncStatusIgnoresLog(m: Machine, p: Pass)
    ensures SyncWorkerStatus(m, p) == SyncWorkerStatus(m.(log := []), p).(log := m.log)
  {
    assert SyncAllocStatus(m, p).w == SyncAllocStatus(m.(log := []), p).w;
  }

  /** Planning never puts an offline worker back in service while it is restarting, with either executor. */
  lemma PlanKeepsOffline(m: Machine, p: Pass)
    requires m.w.status.traffic.offline
    requires Safe(SpecSynced(m.w), p.features)
    ensures var t := ProcessPlan(m, p).0.w.status.traffic; t.offline || !t.inRestarting
  {
    SyncPodSpecSafe(m, p);
    SyncStatusKeeps(SyncPodSpec(m, p).m, p);
  }

  lemma GracefulUpdateFacts(w: Worker, p: Pass)
    ensures var (v, ok) := ProcessUpdateGracefully(w, p);
            && v.spec == w.spec && v.status.alloc == w.status.alloc
            && (OfflineForRestart(w, p.features) ==> v.status.traffic.offline)
            && (ok ==> Safe(SpecSynced(v), p.features))
  {
  }

  /** Whatever the worker, the feature gates and the executor, the loop body runs at most twice. */
  lemma AtMostTwoRuns(m: Machine, p: Pass)
    requires AssignedBody(m, p).1.Retry?
    ensures !AssignedBody(AssignedBody(m, p).0, p).1.Retry?
  {
    var n := AssignedBody(m, p).0;
    GracefulUpdateFacts(n.w, p);
    var (v, ok) := ProcessUpdateGracefully(n.w, p);
    if ok { PlanKeepsOffline(n.(w := v), p); }
  }

  // ---------------------------------------------------------------- stages

  lemma UpdatesTransitive(a: Machine, b: Machine, c: Machine, p: Pass)
    requires Updates(a, b, p) && Updates(b, c, p)
    ensures Updates(a, c, p)
  {
    forall i | |a.log| <= i < |c.log|
      ensures Safe(c.log[i], p.features) && Routine(c.log[i])
    {
      if i < |b.log| { assert c.log[i] == b.log[i]; }
    }
  }

  /** Neither the executor nor the scheduler starts a worker over. */
  predicate KeepsWorkers(p: Pass) {
    p.executor.InPlace? && !p.recreateScheduler
  }

  predicate SameStage(a: Worker, b: Worker, p: Pass) {
    KeepsWorkers(p) ==> a.spec == b.spec && a.status.alloc == b.status.alloc
  }

  lemma PlanUpdates(m: Machine, p: Pass)
    requires Safe(SpecSynced(m.w), p.features)
    ensures var n := ProcessPlan(m, p).0; Updates(m, n, p) && SameStage(m.w, n.w, p)
  {
    hide SyncPodSpec, SyncWorkerStatus;
    SyncPodSpecSafe(m, p);
    SyncStatusKeeps(SyncPodSpec(m, p).m, p);
  }

  lemma BodyUpdates(m: Machine, p: Pass)
    ensures var n := AssignedBody(m, p).0; Updates(m, n, p) && SameStage(m.w, n.w, p)
  {
    GracefulUpdateFacts(m.w, p);
    var (v, ok) := ProcessUpdateGracefully(m.w, p);
    if ok { PlanUpdates(m.(w := v), p); }
  }

  lemma LoopUpdates(m: Machine, p: Pass)
    ensures var n := AssignedLoop(m, p).0; Updates(m, n, p) && SameStage(m.w, n.w, p)
  {
    BodyUpdates(m, p);
    var (n, v) := AssignedBody(m, p);
    if v.Retry? {
      BodyUpdates(n, p);
      UpdatesTransitive(m, n, AssignedBody(n, p).0, p);
    }
  }

  lemma TailKeeps(m: Machine, p: Pass)
    ensures var n := AssignedTail(m, p);
            n.log == m.log && n.pod == m.pod && n.w.spec == m.w.spec && n.w.status.alloc == m.w.status.alloc
  {
  }

  lemma SettleKeeps(m: Machine, p: Pass)
    ensures var n := Settle(m, p);
            n.log == m.log && n.pod == m.pod && n.w.spec == m.w.spec && n.w.status.alloc == m.w.status.alloc
  {
  }

  /** What the assigned stage may do: safe spec updates, and in place only losing or releasing the worker. */
  predicate AssignedTo(m: Machine, n: Machine, p: Pass) {
    && Updates(m, n, p)
    && (KeepsWorkers(p) ==>
          && n.w.spec == m.w.spec
          && (n.w.status.alloc.Assigned? || n.w.status.alloc.Lost? || n.w.status.alloc == TryToRelease(m.w).status.alloc))
  }

  /** Restart safety on every path of the assigned stage, with either executor. */
  lemma AssignedStageSafe(m: Machine, p: Pass)
    requires m.w.status.alloc.Assigned?
    ensures AssignedTo(m, DealAssigned(m, p), p)
  {
    if ToRelease(m.w) {
      SettleKeeps(m.(w := TryToRelease(m.w)), p);
    } else if !EntityAlloced(m.w) {
      SettleKeeps(With(m, m.w.status.(alloc := Lost)), p);
    } else {
      LoopUpdates(m, p);
      var (n, v) := AssignedLoop(m, p);
      TailKeeps(n, p);
      SettleKeeps(if v.Go? then AssignedTail(n, p) else n, p);
    }
  }

  lemma DeleteSafe(m: Machine, p: Pass)
    ensures var o := DeletePod(m, p);
            && o.m.w.spec == m.w.spec && o.m.w.status.alloc == m.w.status.alloc && o.m.pod == m.pod
            && (o.m.log == m.log || (o.m.log == m.log + [PodDeleted(o.m.w)] && Safe(PodDeleted(o.m.w), p.features)))
  {
  }

  /** What the unassigned stage may do: place, release, or update the worker. */
  predicate UnAssignedTo(m: Machine, n: Machine, p: Pass) {
    var a := n.w.status.alloc;
    && SafeFrom(m, n, p.features)
    && (a.Assigned? ==> |n.log| == |m.log| + 1 && n.log[|m.log|].Placed?)
    && (!a.Assigned? ==> forall i :: |m.log| <= i < |n.log| ==> !n.log[i].Placed? && !n.log[i].LeftOffline?)
    && (p.executor.InPlace? ==> n.w.spec == m.w.spec)
    && (a.UnAssigned? || a.Assigned? || a.Released? || a == TryToRelease(m.w).status.alloc)
  }

  lemma RouteSafe(m: Machine, p: Pass)
    requires m.w.status.alloc.UnAssigned?
    ensures UnAssignedTo(m, Route(m, p), p)
  {
    hide SyncPodSpec, DeletePod, SyncService, NeedWarmup, ToRelease, EntityAlloced;
    DeleteSafe(m, p);
    SyncPodSpecSafe(m, p);
  }

  lemma UnAssignedStageSafe(m: Machine, p: Pass)
    requires m.w.status.alloc.UnAssigned?
    ensures UnAssignedTo(m, DealUnAssigned(m, p), p)
  {
    hide Route;
    RouteSafe(m.(w := InitConditions(m.w, p)), p);
  }

  // ---------------------------------------------------------------- whole runs

  lemma StartKeeps(s: Status, p: Pass, log: seq<Event>)
    ensures var m := Start(s, p, log); m.log == log && (!p.recreateScheduler ==> m.w.spec == p.spec && m.w.status.alloc == s.alloc)
  {
  }

  predicate OffliningTo(m: Machine, n: Machine) {
    && n.w.spec == m.w.spec
    && (n.w.status.alloc.Offlining? ==> n.log == m.log)
    && (!n.w.status.alloc.Offlining? ==>
          && n.w.status.alloc.Releasing? && |n.log| == |m.log| + 1 && m.log <= n.log && n.log[|m.log|].LeftOffline?
          && (Offlined(n.log[|m.log|].w) || Irrecoverable(n.log[|m.log|].w)))
  }

  lemma OffliningStage(m: Machine)
    requires m.w.status.alloc.Offlining?
    ensures OffliningTo(m, DealOfflining(m))
  {
  }

  predicate ReleasingTo(m: Machine, n: Machine, p: Pass) {
    && n.w.spec == m.w.spec && (n.w.status.alloc.Releasing? || n.w.status.alloc.Released?)
    && SafeFrom(m, n, p.features)
    && (n.log == m.log || (|n.log| == |m.log| + 1 && n.log[|m.log|].PodDeleted?))
  }

  lemma ReleasingStage(m: Machine, p: Pass)
    requires m.w.status.alloc.Releasing?
    ensures ReleasingTo(m, DealReleasing(m, p), p)
  {
    DeleteSafe(m, p);
  }

  lemma SafeTransitive(a: Machine, b: Machine, c: Machine, f: Features)
    requires SafeFrom(a, b, f) && SafeFrom(b, c, f)
    ensures SafeFrom(a, c, f)
  {
    forall i | |a.log| <= i < |c.log| ensures Safe(c.log[i], f) {
      if i < |b.log| { assert c.log[i] == b.log[i]; }
    }
  }

  lemma LeaveSafe(m: Machine, p: Pass)
    ensures SafeFrom(m, Leave(m, p), p.features)
    ensures Rank(m.w.status.alloc) <= Rank(Leave(m, p).w.status.alloc)
  {
    hide DealOfflining, DealReleasing;
    var m1 := if m.w.status.alloc.Lost? then DealLost(m) else m;
    var m2 := if m1.w.status.alloc.Offlining? then DealOfflining(m1) else m1;
    if m1.w.status.alloc.Offlining? { OffliningStage(m1); }
    if m2.w.status.alloc.Releasing? { ReleasingStage(m2, p); }
    SafeTransitive(m, m2, Leave(m, p), p.features);
  }

  lemma EnterSafe(m: Machine, p: Pass)
    ensures SafeFrom(m, Enter(m, p), p.features)
    ensures KeepsWorkers(p) ==> Rank(m.w.status.alloc) <= Rank(Enter(m, p).w.status.alloc)
  {
    var m1 := if m.w.status.alloc.UnAssigned? then DealUnAssigned(m, p) else m;
    if m.w.status.alloc.UnAssigned? { UnAssignedStageSafe(m, p); }
    if m1.w.status.alloc.Assigned? { AssignedStageSafe(m1, p); }
    SafeTransitive(m, m1, Enter(m, p), p.features);
  }

  /** Every event of a pass is safe, with either executor; with the in-place executor the status never goes back. */
  lemma PassSafe(s: Status, p: Pass, log: seq<Event>)
    ensures var m := Process(s, p, log);
            && log <= m.log && (forall i :: |log| <= i < |m.log| ==> Safe(m.log[i], p.features))
            && (KeepsWorkers(p) ==> Rank(s.alloc) <= Rank(m.w.status.alloc))
  {
    StartKeeps(s, p, log);
    var m := Start(s, p, log);
    EnterSafe(m, p);
    LeaveSafe(Enter(m, p), p);
    SafeTransitive(m, Enter(m, p), Leave(Enter(m, p), p), p.features);
  }

  /** One pass seen from its history. */
  predicate SafeNext(h: History, n: History, f: Features, inPlace: bool) {
    && h.log <= n.log && (forall i :: |h.log| <= i < |n.log| ==> Safe(n.log[i], f))
    && (inPlace ==> Rank(h.status.alloc) <= Rank(n.status.alloc))
  }

  lemma SafeNextTransitive(a: History, b: History, c: History, f: Features, inPlace: bool)
    requires SafeNext(a, b, f, inPlace) && SafeNext(b, c, f, inPlace)
    ensures SafeNext(a, c, f, inPlace)
  {
    forall i | |a.log| <= i < |c.log| ensures Safe(c.log[i], f) {
      if i < |b.log| { assert c.log[i] == b.log[i]; }
    }
  }

  lemma NextSafe(h: History, p: Pass, inPlace: bool) returns (n: History)
    requires inPlace ==> KeepsWorkers(p)
    ensures n == Next(h, p) && SafeNext(h, n, p.features, inPlace)
  {
    PassSafe(h.status, p, h.log);
    n := Next(h, p);
  }

  /** Over every run the events are safe; with the in-place executor the status only moves forward, so Released stays. */
  lemma {:induction false} RunSafe(h: History, passes: seq<Pass>, f: Features, inPlace: bool) returns (r: History)
    requires forall p :: p in passes ==> p.features == f && (inPlace ==> KeepsWorkers(p))
    ensures r == Run(h, passes) && SafeNext(h, r, f, inPlace)
    ensures inPlace && h.status.alloc.Released? ==> r.status.alloc.Released?
    decreases |passes|
  {
    hide Process;
    if passes == [] {
      r := h;
    } else {
      var n := NextSafe(h, passes[0], inPlace);
      r := RunSafe(n, passes[1..], f, inPlace);
      SafeNextTransitive(h, n, r, f, inPlace);
    }
  }

  // ---------------------------------------------------------------- deletion comes after going offline

  predicate HasPlaced(log: seq<Event>) {
    exists i :: 0 <= i < |log| && log[i].Placed?
  }

  predicate HasLeft(log: seq<Event>) {
    exists i :: 0 <= i < |log| && log[i].LeftOffline?
  }

  /** Every deletion of the pod of a worker that had been placed comes after it left the offlining stage. */
  predicate Orderly(log: seq<Event>) {
    forall i :: 0 <= i < |log| && log[i].PodDeleted? && HasPlaced(log[..i]) ==> HasLeft(log[..i])
  }

  /** What a run of a graceful worker keeps. */
  predicate Ledger(alloc: AllocStatus, log: seq<Event>) {
    && Orderly(log)
    && (alloc.UnAssigned? ==> !HasPlaced(log))
    && (HasPlaced(log) && Rank(alloc) >= 4 ==> HasLeft(log))
  }

  lemma LogGrows(log: seq<Event>, e: Event)
    ensures HasPlaced(log + [e]) <==> HasPlaced(log) || e.Placed?
    ensures HasLeft(log + [e]) <==> HasLeft(log) || e.LeftOffline?
    ensures Orderly(log + [e]) <==> Orderly(log) && (e.PodDeleted? && HasPlaced(log) ==> HasLeft(log))
  {
    var grown := log + [e];
    assert forall i :: 0 <= i < |log| ==> grown[i] == log[i] && grown[..i] == log[..i];
    assert grown[..|log|] == log && grown[|log|] == e;
  }

  /** Events that are neither placements nor departures, and no deletion once placed, leave the ledger alone. */
  lemma {:induction false} LogGrowsQuietly(log: seq<Event>, grown: seq<Event>)
    requires log <= grown && Orderly(log)
    requires forall i :: |log| <= i < |grown| ==> !grown[i].Placed? && !grown[i].LeftOffline?
    requires HasPlaced(log) ==> forall i :: |log| <= i < |grown| ==> !grown[i].PodDeleted?
    ensures Orderly(grown) && (HasPlaced(grown) <==> HasPlaced(log)) && (HasLeft(grown) <==> HasLeft(log))
    decreases |grown|
  {
    if |log| == |grown| {
      assert log == grown;
    } else {
      var k := |grown| - 1;
      LogGrowsQuietly(log, grown[..k]);
      LogGrows(grown[..k], grown[k]);
      assert grown == grown[..k] + [grown[k]];
    }
  }

  lemma UnAssignedLedger(m: Machine, n: Machine, p: Pass)
    requires KeepsWorkers(p) && m.w.spec.graceful && m.w.status.alloc.UnAssigned?
    requires Ledger(UnAssigned, m.log) && UnAssignedTo(m, n, p)
    ensures Ledger(n.w.status.alloc, n.log)
  {
    hide Orderly, HasPlaced, HasLeft;
    if n.w.status.alloc.Assigned? {
      LogGrows(m.log, n.log[|m.log|]);
      assert n.log == m.log + [n.log[|m.log|]];
    } else {
      LogGrowsQuietly(m.log, n.log);
    }
  }

  lemma AssignedLedger(m: Machine, n: Machine, p: Pass)
    requires KeepsWorkers(p) && m.w.spec.graceful && Ledger(Assigned, m.log) && AssignedTo(m, n, p)
    ensures Ledger(n.w.status.alloc, n.log)
  {
    hide Orderly, HasPlaced, HasLeft;
    LogGrowsQuietly(m.log, n.log);
  }

  lemma EnterLedger(m: Machine, p: Pass)
    requires KeepsWorkers(p) && m.w.spec.graceful && Ledger(m.w.status.alloc, m.log)
    ensures Ledger(Enter(m, p).w.status.alloc, Enter(m, p).log) && Enter(m, p).w.spec.graceful
  {
    var m1 := if m.w.status.alloc.UnAssigned? then DealUnAssigned(m, p) else m;
    if m.w.status.alloc.UnAssigned? {
      UnAssignedStageSafe(m, p);
      UnAssignedLedger(m, m1, p);
    }
    if m1.w.status.alloc.Assigned? {
      AssignedStageSafe(m1, p);
      AssignedLedger(m1, DealAssigned(m1, p), p);
    }
  }

  lemma OffliningLedger(m: Machine, n: Machine)
    requires Ledger(Offlining, m.log) && OffliningTo(m, n)
    ensures Ledger(n.w.status.alloc, n.log)
  {
    hide Orderly, HasPlaced, HasLeft;
    if !n.w.status.alloc.Offlining? {
      LogGrows(m.log, n.log[|m.log|]);
      assert n.log == m.log + [n.log[|m.log|]];
    }
  }

  lemma ReleasingLedger(m: Machine, n: Machine, p: Pass)
    requires Ledger(Releasing, m.log) && ReleasingTo(m, n, p)
    ensures Ledger(n.w.status.alloc, n.log)
  {
    hide Orderly, HasPlaced, HasLeft;
    if n.log != m.log {
      LogGrows(m.log, n.log[|m.log|]);
      assert n.log == m.log + [n.log[|m.log|]];
    }
  }

  lemma LeaveLedger(m: Machine, p: Pass)
    requires m.w.spec.graceful && Ledger(m.w.status.alloc, m.log)
    ensures Ledger(Leave(m, p).w.status.alloc, Leave(m, p).log)
  {
    var m1 := if m.w.status.alloc.Lost? then DealLost(m) else m;
    var m2 := if m1.w.status.alloc.Offlining? then DealOfflining(m1) else m1;
    if m1.w.status.alloc.Offlining? {
      OffliningStage(m1);
      OffliningLedger(m1, m2);
    }
    if m2.w.status.alloc.Releasing? {
      ReleasingStage(m2, p);
      ReleasingLedger(m2, DealReleasing(m2, p), p);
    }
  }

  /**
   A worker that stays graceful and was once assigned has its pod deleted only after it left the
   offlining stage, which (by `RunSafe`) it does only offlined or irrecoverable.
   */
  lemma {:induction false} DeletedAfterOffline(h: History, passes: seq<Pass>)
    requires Ledger(h.status.alloc, h.log)
    requires forall p :: p in passes ==> KeepsWorkers(p) && p.spec.graceful
    ensures Ledger(Run(h, passes).status.alloc, Run(h, passes).log)
    decreases |passes|
  {
    if passes != [] {
      var p := passes[0];
      StartKeeps(h.status, p, h.log);
      var m := Start(h.status, p, h.log);
      EnterLedger(m, p);
      LeaveLedger(Enter(m, p), p);
      DeletedAfterOffline(Next(h, p), passes[1..]);
    }
  }

  // ---------------------------------------------------------------- released without a deletion

  /**
   The releasing stage reports a graceful worker released whether or not its pod was deleted:
   it was if and only if the service conditions then make the worker unavailable.
   */
  lemma ReleasedWithoutDeletion(m: Machine, p: Pass)
    requires m.w.status.alloc.Releasing? && m.pod && m.current && m.w.spec.graceful && !p.deleteFails
    ensures var n := DealReleasing(m, p);
            && n.w.status.alloc.Released?
            && (n.log != m.log <==> ServiceStatusOf(m.w.status) == UnAvailable)
            && (n.log != m.log ==> n.log == m.log + [PodDeleted(SyncService(m.w))])
  {
  }

  /** A failed worker that is still published is released in one pass with its pod left running. */
  lemma ReleasedPodRemains() returns (h: History, p: Pass)
    ensures h.status.alloc.Offlining? && p.spec.graceful && p.pod.Pod? && !p.deleteFails
    ensures Next(h, p).status.alloc.Released? && forall e :: e in Next(h, p).log ==> !e.PodDeleted?
  {
    var published := ServiceCondition(true, false, true, false, false);
    var spec := Spec(Plain("v"), "r", Active, true, true, true, true, false, false, false, true);
    h := History(Status(Offlining, Plain("v"), "r", Active, Available, [published], Traffic(true, false, false, false),
                        Entity(true, true, true), Flags(false, false, false, false, true)), []);
    p := Pass(Features(false, false, false), InPlace, false, spec, false, [published], Available, Pod(true, false, false),
              true, true, true, false, true, true, true, false, false, false, false, false, false,
              [], false, false, false, false, false, false, Applied);
    var m := Start(h.status, p, h.log);
    assert Enter(m, p) == m;
    var n := DealOfflining(m);
    assert published in n.w.status.conditions;
    assert n.w.status.alloc.Releasing? && n.log == [LeftOffline(n.log[0].w)];
    ReleasedWithoutDeletion(n, p);
  }

  // ---------------------------------------------------------------- what a recreation hits

  predicate InService(w: Worker) {
    !UnAvailableNow(w) && !w.status.traffic.offline
  }

  /** Whether a commit gets as far as recreating the pod. */
  predicate Recreates(w: Worker, p: Pass, resource: bool, process: bool) {
    && !(process && p.processFails) && (resource || process) && !p.mergeFails
    && VersionMisMatch(w) && !p.couldNotInplace && p.specChanged
  }

  /** The guards between a spec sync and the recreation of the pod of a worker in service. */
  predicate RecreatesServing(w: Worker, p: Pass) {
    var resource := !p.resourceUpdated && (ResVersionMisMatch(w) || ModeMisMatch(w));
    var process := ProcessDue(w, p, resource);
    && InService(w) && Recreates(w, p, resource, process)
    && !(p.podUpdated && p.resourceUpdated) && !(resource && (w.spec.quickOnline || p.resourceFails))
    && !(process && !p.processMatch && ShouldGracefullyRestart(w, p.features))
  }

  lemma CommitRecreates(m: Machine, p: Pass, resource: bool, process: bool)
    requires p.executor.Recreate?
    ensures CommitSpec(m, p, resource, process).m.log == m.log +
            if Recreates(m.w, p, resource, process)
            then [PodRecreated(SetReclaim(m, false).w, process && !p.processMatch)] else []
  {
    assert m.log + [] == m.log;
  }

  /** An update of the spec waits for a serving worker where graceful restart applies, and otherwise recreates it. */
  lemma UpdateRecreates(m: Machine, p: Pass, resource: bool)
    requires p.executor.Recreate?
    ensures var o := UpdateSpec(m, p, resource).m;
            var process := ProcessDue(m.w, p, resource);
            && m.log <= o.log
            && ((exists i :: |m.log| <= i < |o.log| && o.log[i].PodRecreated? && InService(o.log[i].w)) <==>
                && InService(m.w) && Recreates(m.w, p, resource, process)
                && !(process && !p.processMatch && ShouldGracefullyRestart(m.w, p.features)))
  {
    var o := UpdateSpec(m, p, resource).m;
    if ProcessDue(m.w, p, resource) {
      RestartWaits(m.w, p);
      var (v, wait) := PrepareRestart(m.w, p);
      var n := m.(w := v);
      assert Recreates(v, p, resource, true) <==> Recreates(m.w, p, resource, true);
      CommitRecreates(n, p, resource, true);
      hide CommitSpec, Recreates, PrepareRestart, ShouldGracefullyRestart;
      assert !wait && Recreates(v, p, resource, true) ==> o.log[|m.log|] == PodRecreated(SetReclaim(n, false).w, !p.processMatch);
    } else {
      CommitRecreates(m, p, resource, false);
      hide CommitSpec, Recreates;
      assert Recreates(m.w, p, resource, false) ==> o.log[|m.log|] == PodRecreated(SetReclaim(m, false).w, false);
    }
  }

  /** A sync either gives up before any update or goes on to update the spec. */
  lemma SyncReaches(m: Machine, p: Pass)
    requires m.current
    ensures var n := Log(m, SpecSynced(m.w));
            var resource := !p.resourceUpdated && (ResVersionMisMatch(m.w) || ModeMisMatch(m.w));
            var stops := (!VersionMisMatch(m.w) && !ResVersionMisMatch(m.w) && !ModeMisMatch(m.w))
                         || (p.podUpdated && p.resourceUpdated) || (resource && (m.w.spec.quickOnline || p.resourceFails));
            if stops then SyncPodSpec(m, p).m.log == n.log else SyncPodSpec(m, p) == UpdateSpec(n, p, resource)
  {
    hide UpdateSpec, VersionMisMatch, ModeMisMatch, ResVersionMisMatch;
  }

  /**
   The recreate executor deletes the pod of a worker in service exactly under these guards; in particular a process
   change never does where graceful restart applies.
   */
  lemma RecreatesServingExactly(m: Machine, p: Pass)
    requires p.executor.Recreate? && m.current
    ensures var o := SyncPodSpec(m, p).m;
            (exists i :: |m.log| <= i < |o.log| && o.log[i].PodRecreated? && InService(o.log[i].w)) <==> RecreatesServing(m.w, p)
  {
    SyncReaches(m, p);
    var n := Log(m, SpecSynced(m.w));
    var resource := !p.resourceUpdated && (ResVersionMisMatch(m.w) || ModeMisMatch(m.w));
    UpdateRecreates(n, p, resource);
    var o := SyncPodSpec(m, p).m;
    hide SyncPodSpec, UpdateSpec, ProcessDue, VersionMisMatch, ModeMisMatch, ResVersionMisMatch, ShouldGracefullyRestart, InService;
    assert n.log <= o.log && n.log[|m.log|] == SpecSynced(m.w) && o.log[|m.log|] == SpecSynced(m.w);
    assert forall i :: |m.log| <= i < |o.log| && o.log[i].PodRecreated? ==> |n.log| <= i;
  }

  /** A serving worker without grace whose process matches is recreated although graceful restart applies. */
  lemma ServingPodRecreated() returns (m: Machine, p: Pass)
    ensures p.executor.Recreate? && p.features.unPubRestarting && !m.w.spec.graceful && InService(m.w)
    ensures RecreatesServing(m.w, p) && SyncPodSpec(m, p).m.w.status == FRESH
    ensures exists c :: c in m.w.status.conditions && c.graceful && c.ok
  {
    var published := ServiceCondition(true, false, true, false, false);
    var spec := Spec(Plain("v2"), "r", Active, false, true, true, false, false, false, false, true);
    var status := Status(Assigned, Plain("v1"), "r", Active, Available, [published], Traffic(false, false, false, false),
                         Entity(true, true, true), Flags(false, false, false, false, false));
    m := Machine(Worker(spec, status), true, true, []);
    p := Pass(Features(true, false, false), Recreate, false, spec, false, [published], Available, Pod(true, false, false),
              true, false, true, false, true, true, false, false, false, false, false, false, true,
              [], false, false, false, false, false, false, Applied);
    assert published in m.w.status.conditions;
  }

  // ---------------------------------------------------------------- what a release takes

  lemma OfflineService(s: Status)
    requires s.traffic.offline
    ensures ServiceStatusOf(s) == UnAvailable <==> forall c :: c in s.conditions && c.graceful ==> !c.ok
  {
  }

  /** Marked offline, a worker is offlined exactly when no graceful service is published. */
  lemma OffliningOutcome(m: Machine)
    requires m.w.status.alloc.Offlining?
    ensures var n := DealOfflining(m);
            && (n.w.status.alloc.Releasing? <==> Unpublished(m.w) || m.w.status.flags.failed)
            && n.w.spec == m.w.spec && n.w.status.conditions == m.w.status.conditions && n.w.status.traffic.offline
            && n.pod == m.pod && n.current == m.current
  {
    OfflineService(SetOffline(m.w, true).status);
    hide ServiceStatusOf;
  }

  /** The assigned stage hands a graceful worker that is to be released on to offlining, and changes nothing a release looks at. */
  lemma EnterRelease(m: Machine, p: Pass)
    requires m.w.status.alloc.Assigned? || m.w.status.alloc.Offlining?
    requires m.w.spec.graceful && ToRelease(m.w)
    ensures var n := Enter(m, p);
            && n.w.status.alloc.Offlining? && n.w.spec == m.w.spec && n.w.status.conditions == m.w.status.conditions
            && n.w.status.flags.failed == m.w.status.flags.failed
            && n.pod == m.pod && n.current == m.current && n.log == m.log
  {
  }

  /** A worker of the recreate scheduler is started over when its pod is being deleted under it. */
  predicate StartsOver(s: Status, p: Pass) {
    p.recreateScheduler && s.alloc.Assigned? && p.pod.Pod? && p.pod.bound && p.pod.deleting
  }

  lemma AllocObserves(m: Machine, p: Pass)
    requires m.current && p.pod.Pod? && p.pod.bound
    ensures var n := SyncAllocStatus(m, p);
            var over := StartsOver(m.w.status, p);
            && n == m.(w := n.w)
            && (over ==> n.w == StartOver(m.w))
            && (!over ==>
                  && n.w.spec == m.w.spec && n.w.status.alloc == m.w.status.alloc
                  && n.w.status.conditions == m.w.status.conditions && n.w.status.flags == m.w.status.flags)
            && (!over && m.w.status.alloc.Assigned? ==> (EntityAlloced(n.w) <==> !p.pod.deleting))
  {
  }

  lemma StartObserves(s: Status, p: Pass, log: seq<Event>)
    requires p.pod.Pod? && p.pod.bound
    ensures var m := Start(s, p, log);
            && m.pod && m.current && m.log == log
            && (!StartsOver(s, p) ==>
                  && m.w.spec == p.spec && m.w.status.alloc == s.alloc && m.w.status.conditions == p.conditions
                  && m.w.status.flags.failed == s.flags.failed && m.w.status.flags.toRelease == p.toRelease)
            && (!StartsOver(s, p) && s.alloc.Assigned? ==> (EntityAlloced(m.w) <==> !p.pod.deleting))
            && (StartsOver(s, p) ==>
                  && m.w.spec == p.spec.(releasing := false)
                  && m.w.status == FRESH.(flags := m.w.status.flags) && !m.w.status.flags.toRelease)
  {
    hide SyncAllocStatus;
    var seen := s.(conditions := p.conditions, service := p.service, flags := s.flags.(toRelease := p.toRelease));
    AllocObserves(Machine(Worker(p.spec, seen), true, true, log), p);
  }

  /** The pass of a worker that is started over: it stays unassigned, or is released at once if it is to be deleted. */
  lemma StartOverPass(s: Status, p: Pass, log: seq<Event>)
    requires StartsOver(s, p) && p.spec.graceful
    ensures var m := Process(s, p, log);
            && m.w.status.alloc == (if p.spec.toDelete then Released else UnAssigned)
            && log <= m.log && forall i :: |log| <= i < |m.log| ==> !m.log[i].PodDeleted?
  {
    StartObserves(s, p, log);
    var m := Start(s, p, log);
    hide Start, SyncPodSpec;
    var n := DealUnAssigned(m, p);
    if p.spec.toDelete {
      assert n == With(DeletePod(m, p).m, DeletePod(m, p).m.w.status.(alloc := Released)).(pod := false);
    } else if !p.servicesFail {
      var v := m.(w := InitConditions(m.w, p));
      assert n == SyncPodSpec(v, p).m;
      SyncPodSpecSafe(v, p);
    }
    assert Process(s, p, log) == n;
  }

  /**
   A worker whose bound pod is being deleted while it is assigned and not to be released: the recreate scheduler
   starts it over, any other loses it.
   */
  lemma PodDeletedUnderWorker(s: Status, p: Pass, log: seq<Event>)
    requires s.alloc.Assigned? && p.pod.Pod? && p.pod.bound && p.pod.deleting
    requires p.spec.graceful && !p.spec.toDelete && !p.spec.releasing && !p.toRelease
    ensures Process(s, p, log).w.status.alloc == if p.recreateScheduler then UnAssigned else Lost
  {
    if p.recreateScheduler {
      StartOverPass(s, p, log);
    } else {
      StartObserves(s, p, log);
      var m := Start(s, p, log);
      hide Start;
      assert Enter(m, p) == Settle(With(m, m.w.status.(alloc := Lost)), p);
      SettleKeeps(With(m, m.w.status.(alloc := Lost)), p);
      assert !ToRelease(Enter(m, p).w);
    }
  }

  /**
   A graceful worker with a bound pod, to be released from Assigned or Offlining, with the deletion going through:
   one pass releases it if and only if no graceful service is published or the worker has failed, and otherwise
   leaves it offlining; the pod is deleted if and only if moreover no graceful service is true. Only a worker that is
   started over goes another way.
   */
  lemma ReleaseInOnePass(s: Status, p: Pass, log: seq<Event>)
    requires s.alloc.Assigned? || s.alloc.Offlining?
    requires p.spec.graceful && (p.spec.toDelete || p.toRelease || p.spec.releasing)
    requires p.pod.Pod? && p.pod.bound && !p.deleteFails
    ensures var m := Process(s, p, log);
            var leaves := s.flags.failed || forall c :: c in p.conditions && c.graceful ==> !c.ok && c.absent;
            var over := StartsOver(s, p);
            && m.w.status.alloc ==
               (if over then if p.spec.toDelete then Released else UnAssigned else if leaves then Released else Offlining)
            && ((exists i :: |log| <= i < |m.log| && m.log[i].PodDeleted?) <==>
                !over && leaves && forall c :: c in p.conditions && c.graceful ==> !c.ok)
  {
    hide Start, Enter, Leave, DealOfflining, DealReleasing, ServiceStatusOf;
    if StartsOver(s, p) {
      StartOverPass(s, p, log);
    } else {
      StartObserves(s, p, log);
      var m := Start(s, p, log);
      EnterRelease(m, p);
      var n := Enter(m, p);
      OffliningOutcome(n);
      OffliningStage(n);
      LeaveOffline(n, p);
      var o := DealOfflining(n);
      if o.w.status.alloc.Releasing? {
        OfflineService(o.w.status);
        ReleasedWithoutDeletion(o, p);
        var r := DealReleasing(o, p);
        assert r == Process(s, p, log) && r.log[|log|] == o.log[|log|];
        if ServiceStatusOf(o.w.status) == UnAvailable { assert r.log[|o.log|].PodDeleted?; }
      }
    }
  }

  lemma LeaveOffline(m: Machine, p: Pass)
    requires m.w.status.alloc.Offlining?
    ensures var o := DealOfflining(m); Leave(m, p) == if o.w.status.alloc.Releasing? then DealReleasing(o, p) else o
  {
    hide DealOfflining, DealReleasing;
  }

  // ---------------------------------------------------------------- in place

  /** The state machine of one pass, working on the worker in place. */
  class Processor {
    var w: Worker
    var pod: bool
    var current: bool
    ghost var log: seq<Event>

    ghost function State(): Machine
      reads this
    {
      Machine(w, pod, current, log)
    }

    constructor (status: Status, p: Pass, ghost log: seq<Event>)
      ensures State() == Start(status, p, log)
    {
      var seen := status.(conditions := p.conditions, service := p.service, flags := status.flags.(toRelease := p.toRelease));
      var before := Machine(Worker(p.spec, seen), p.pod.Pod?, p.pod.Pod?, []);
      var m := SyncAllocStatus(before, p);
      AllocIgnoresLog(before, p, log);
      hide SyncAllocStatus, SyncInUpdating;
      this.w := SyncInUpdating(m.w);
      this.pod, this.current := p.pod.Pod?, p.pod.Pod?;
      this.log := log;
    }

    method Update(p: Pass, processChange: bool) returns (err: bool)
      modifies this
      ensures Outcome(State(), err) == UpdatePod(old(State()), p, processChange)
    {
      err := false;
      if p.executor.InPlace? {
        log := log + [PodUpdated(w, processChange)];
        if p.update.Broken? {
          current := false;
          return true;
        }
        w := w.(status := w.status.(flags := w.status.flags.(internalReclaim :=
                                      p.update.Rejected? && (VersionMisMatch(w) || w.status.flags.internalReclaim))));
      } else {
        current := false;
        if VersionMisMatch(w) && p.specChanged {
          log := log + [PodRecreated(w, processChange)];
          if p.update.Broken? { return true; }
          w := StartOver(w);
        }
      }
    }

    method Commit(p: Pass, resource: bool, process: bool) returns (err: bool)
      modifies this
      ensures Outcome(State(), err) == CommitSpec(old(State()), p, resource, process)
    {
      if process && p.processFails { return true; }
      if !resource && !process { return false; }
      if p.mergeFails { return true; }
      var blocked := VersionMisMatch(w) && p.couldNotInplace;
      w := w.(status := w.status.(flags := w.status.flags.(internalReclaim := blocked)));
      if blocked { return false; }
      err := Update(p, process && !p.processMatch);
    }

    method SyncSpec(p: Pass) returns (err: bool)
      modifies this
      ensures Outcome(State(), err) == SyncPodSpec(old(State()), p)
    {
      if !current { return false; }
      log := log + [SpecSynced(w)];
      var resMM := ResVersionMisMatch(w);
      if (!VersionMisMatch(w) && !resMM && !ModeMisMatch(w)) || (p.podUpdated && p.resourceUpdated) {
        w := w.(status := w.status.(flags := w.status.flags.(internalReclaim := false)));
        return false;
      }
      var resource := false;
      if !p.resourceUpdated && (resMM || ModeMisMatch(w)) {
        if w.spec.quickOnline {
          w := w.(status := w.status.(flags := w.status.flags.(internalReclaim := true)));
          return false;
        }
        if p.resourceFails { return true; }
        resource := true;
      }
      var process := ProcessDue(w, p, resource);
      if process {
        var (v, wait) := PrepareRestart(w, p);
        w := v;
        if wait { return false; }
      }
      err := Commit(p, resource, process);
    }

    method Delete(p: Pass) returns (err: bool)
      modifies this
      ensures Outcome(State(), err) == DeletePod(old(State()), p)
    {
      w := SyncService(w);
      if !CouldDeletePod(w) { return false; }
      if !current {
        w := SetEntity(w.(status := SetFailed(w.status, false)), false, false);
        return false;
      }
      if p.deleteFails { return true; }
      log := log + [PodDeleted(w)];
      return false;
    }

    method PlanStep(p: Pass) returns (plan: Plan)
      modifies this
      ensures (State(), plan) == ProcessPlan(old(State()), p)
    {
      hide SyncPodSpec, SyncWorkerStatus;
      if VersionRollback(w.spec.version, w.status.version) {
        w := w.(status := w.status.(version := NoVersion));
        return NotYet;
      }
      if VersionInnerMatch(w.spec.version, w.status.version) {
        w := w.(status := w.status.(version := w.spec.version));
        return Ready;
      }
      var err := SyncSpec(p);
      if err { return Failed; }
      if OfflineForRestart(w, p.features) { return NotYet; }
      SyncStatusIgnoresLog(State(), p);
      SyncStatusKeeps(State(), p);
      var synced := SyncWorkerStatus(Machine(w, pod, current, []), p);
      w := synced.w;
      if MisMatch(w) || !w.spec.dependencyReady { return NotYet; }
      return Ready;
    }

    /** The assigned stage: the source jumps back to the graceful update; the loop ends after two runs at most. */
    method Assigned(p: Pass) returns (ghost runs: nat)
      modifies this
      ensures State() == DealAssigned(old(State()), p)
      ensures runs <= 2
    {
      runs := 0;
      if ToRelease(w) {
        w := TryToRelease(w);
      } else if !EntityAlloced(w) {
        w := w.(status := w.status.(alloc := Lost));
      } else {
        ghost var first := State();
        var verdict := Retry;
        while verdict.Retry?
          invariant runs <= 2
          invariant runs == 0 ==> verdict == Retry && State() == first
          invariant runs == 1 ==> (State(), verdict) == AssignedBody(first, p)
          invariant runs == 2 ==> AssignedBody(first, p).1.Retry? && (State(), verdict) == AssignedBody(AssignedBody(first, p).0, p)
          decreases 2 - runs
        {
          if runs == 2 { AtMostTwoRuns(first, p); }
          verdict := Body(p);
          runs := runs + 1;
        }
        if verdict.Go? { Tail(p); }
      }
      w := SyncInUpdating(w.(status := w.status.(flags := w.status.flags.(complete := p.complete))));
    }

    method Body(p: Pass) returns (verdict: Verdict)
      modifies this
      ensures (State(), verdict) == AssignedBody(old(State()), p)
    {
      var (v, unpublished) := ProcessUpdateGracefully(w, p);
      w := v;
      if !unpublished { return Stop; }
      var plan := PlanStep(p);
      if plan.Failed? { return Stop; }
      if plan.NotYet? {
        if OfflineForRestart(w, p.features) { return Retry; }
        return Stop;
      }
      return Go;
    }

    method Tail(p: Pass)
      modifies `w
      ensures State() == AssignedTail(old(State()), p)
    {
      var (v, healthy) := ProcessHealthInfo(w, p);
      w := v;
      if !healthy { return; }
      var (u, served) := ProcessServiceInfo(w, p);
      w := u;
      if !served { return; }
      w := SetTraffic(w, w.status.traffic.(inRestarting := false));
    }

    method UnAssigned(p: Pass)
      modifies this
      ensures State() == DealUnAssigned(old(State()), p)
    {
      if !ToRelease(w) {
        if p.servicesFail { return; }
        w := InitConditions(w, p);
      }
      if EntityAlloced(w) {
        log := log + [Placed(w)];
        var t := w.status.traffic.(inRestarting := true);
        if p.features.warmupNewStarting { t := t.(needWarmup := NeedWarmup(w)); }
        w := w.(status := w.status.(traffic := t, alloc := AllocStatus.Assigned));
      } else if !w.status.entity.named && ToRelease(w) {
        if pod {
          var err := Delete(p);
          if err { return; }
          pod := false;
        }
        w := w.(status := w.status.(alloc := Released));
      } else if ToRelease(w) {
        w := TryToRelease(w);
      } else if !w.status.entity.named && w.spec.mode != Cold && !pod {
        if !p.createFails {
          w := SetEntity(w, true, true);
          current := true;
        }
      } else if pod {
        var _ := SyncSpec(p);
      }
    }

    method Releasing(p: Pass)
      modifies this
      ensures State() == DealReleasing(old(State()), p)
    {
      if pod {
        var err := Delete(p);
        if err { return; }
        pod := false;
        w := SetEntity(SetAlloced(w, false), false, false);
      }
      if !w.status.entity.named {
        w := w.(status := w.status.(alloc := Released));
      }
    }

    method Offlining()
      modifies this
      ensures State() == DealOfflining(old(State()))
    {
      w := SyncService(SetOffline(w, true));
      if Offlined(w) || Irrecoverable(w) {
        log := log + [LeftOffline(w)];
        w := w.(status := w.status.(alloc := AllocStatus.Releasing));
      }
    }

    /** The stages in order; each looks at the status the previous one left. */
    method Stages(p: Pass)
      modifies this
      ensures State() == Leave(Enter(old(State()), p), p)
    {
      hide DealUnAssigned, DealAssigned, DealOfflining, DealReleasing;
      if w.status.alloc.UnAssigned? { UnAssigned(p); }
      if w.status.alloc.Assigned? { ghost var _ := Assigned(p); }
      if w.status.alloc.Lost? && ToRelease(w) { w := TryToRelease(w); }
      if w.status.alloc.Offlining? { Offlining(); }
      if w.status.alloc.Releasing? { Releasing(p); }
    }
  }
}
