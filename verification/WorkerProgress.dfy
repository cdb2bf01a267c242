/**
 What the worker state machine gets done, over the fields of the worker and of the pass: when exactly a pod update is
 issued and what it leaves, how a worker is taken out of service for an update and comes back, and where each stage ends.
 */
module WorkerProgress {
  import opened Wrappers
  import opened WorkerNode
  import opened WorkerStateMachine

  // ---------------------------------------------------------------- what differs

  predicate VersionDiffers(w: Worker) {
    var a, b := w.spec.version, w.status.version;
    a != b && !(a.Dashed? && b.Dashed? && a.hash == b.hash)
  }

  predicate ResDiffers(w: Worker) {
    w.spec.resVersion != w.status.resVersion
  }

  /** Warm, cold and inactive always count as different; hot must be hot, and no mode means active. */
  predicate ModeDiffers(w: Worker) {
    match w.spec.mode
    case Warm | Cold | Inactive => true
    case Hot => w.status.mode != Hot
    case Active | NoMode => w.status.mode != Active && w.status.mode != NoMode
  }

  lemma DiffersExactly(w: Worker)
    ensures VersionMisMatch(w) <==> VersionDiffers(w)
    ensures ResVersionMisMatch(w) <==> ResDiffers(w)
    ensures ModeMisMatch(w) <==> ModeDiffers(w)
  {
  }

  predicate Serves(w: Worker) {
    w.status.service != UnAvailable && !w.status.traffic.offline
  }

  predicate RestartsGracefully(w: Worker, f: Features) {
    f.unPubRestarting || (f.warmupNewStarting && w.spec.warmup && exists c :: c in w.status.conditions && c.cm2)
  }

  // ---------------------------------------------------------------- when an update is issued

  predicate ResourceDue(w: Worker, p: Pass) {
    !p.resourceUpdated && (ResDiffers(w) || ModeDiffers(w))
  }

  /** The process is due with the mode, or with the version once the resources are in place. */
  predicate ProcessWanted(w: Worker, p: Pass) {
    || ModeDiffers(w)
    || (&& VersionDiffers(w) && !p.podUpdated
        && (!ResDiffers(w) || w.status.alloc.UnAssigned? || (ResourceDue(w, p) && p.updateAll)))
  }

  predicate NothingToDo(w: Worker, p: Pass) {
    (!VersionDiffers(w) && !ResDiffers(w) && !ModeDiffers(w)) || (p.podUpdated && p.resourceUpdated)
  }

  /** The sync ends before the process is looked at. */
  predicate StopsEarly(w: Worker, p: Pass) {
    NothingToDo(w, p) || (ResourceDue(w, p) && (w.spec.quickOnline || p.resourceFails))
  }

  predicate WaitsForOffline(w: Worker, p: Pass) {
    ProcessWanted(w, p) && !p.processMatch && RestartsGracefully(w, p.features) && Serves(w)
  }

  /** Everything a pod update needs. */
  predicate Issues(w: Worker, p: Pass) {
    && !StopsEarly(w, p) && (ResourceDue(w, p) || ProcessWanted(w, p)) && !WaitsForOffline(w, p)
    && !(ProcessWanted(w, p) && p.processFails) && !p.mergeFails && !(VersionDiffers(w) && p.couldNotInplace)
  }

  /** A call of the sync fails, before the update itself. */
  predicate FailsBefore(w: Worker, p: Pass) {
    && !NothingToDo(w, p)
    && (if ResourceDue(w, p) && w.spec.quickOnline then false
        else if ResourceDue(w, p) && p.resourceFails then true
        else !WaitsForOffline(w, p)
             && ((ProcessWanted(w, p) && p.processFails) || ((ResourceDue(w, p) || ProcessWanted(w, p)) && p.mergeFails)))
  }

  /** The worker is given up to be reclaimed instead of updated. */
  predicate GivesUp(w: Worker, p: Pass) {
    && !NothingToDo(w, p)
    && (|| (ResourceDue(w, p) && w.spec.quickOnline)
        || (&& !StopsEarly(w, p) && !WaitsForOffline(w, p) && !FailsBefore(w, p)
            && (ResourceDue(w, p) || ProcessWanted(w, p)) && VersionDiffers(w) && p.couldNotInplace))
  }

  /** The traffic fields after the restart branch. */
  function RestartTraffic(w: Worker, p: Pass): Traffic {
    if StopsEarly(w, p) || !ProcessWanted(w, p) || p.processMatch then w.status.traffic
    else
      var warm := w.spec.warmup && exists c :: c in w.status.conditions && c.cm2;
      w.status.traffic.(inRestarting := true,
                        needWarmup := if p.features.warmupNewStarting then warm else w.status.traffic.needWarmup)
  }

  lemma DueExactly(w: Worker, p: Pass)
    ensures ResourceDue(w, p) <==> !p.resourceUpdated && (ResVersionMisMatch(w) || ModeMisMatch(w))
    ensures ProcessDue(w, p, ResourceDue(w, p)) <==> ProcessWanted(w, p)
    ensures ShouldGracefullyRestart(w, p.features) <==> RestartsGracefully(w, p.features)
  {
    DiffersExactly(w);
    hide VersionMisMatch, ResVersionMisMatch, ModeMisMatch, VersionDiffers, ResDiffers, ModeDiffers;
  }

  /** How an update by the in-place executor ends. */
  lemma UpdateInPlace(m: Machine, p: Pass, processChange: bool)
    requires p.executor.InPlace? && !m.w.status.flags.internalReclaim
    ensures var o := UpdatePod(m, p, processChange);
            && o.m.log == m.log + [PodUpdated(m.w, processChange)] && o.m.pod == m.pod && o.m.w.status.traffic == m.w.status.traffic
            && o.err == p.update.Broken? && o.m.current == (m.current && !p.update.Broken?)
            && o.m.w.status.flags.internalReclaim == (p.update.Rejected? && VersionMisMatch(m.w))
  {
    hide VersionMisMatch;
  }

  predicate CommitFails(p: Pass, resource: bool, process: bool) {
    (process && p.processFails) || ((resource || process) && p.mergeFails)
  }

  /** A commit gets as far as the update. */
  predicate Commits(w: Worker, p: Pass, resource: bool, process: bool) {
    !CommitFails(p, resource, process) && (resource || process) && !(VersionMisMatch(w) && p.couldNotInplace)
  }

  lemma CommitInPlace(m: Machine, p: Pass, resource: bool, process: bool)
    requires p.executor.InPlace? && m.current && Commits(m.w, p, resource, process)
    ensures var o := CommitSpec(m, p, resource, process);
            && o.m.log == m.log + [PodUpdated(SetReclaim(m, false).w, process && !p.processMatch)]
            && o.m.pod == m.pod && o.m.w.status.traffic == m.w.status.traffic
            && o.err == p.update.Broken? && o.m.current == !p.update.Broken?
            && o.m.w.status.flags.internalReclaim == (p.update.Rejected? && VersionMisMatch(m.w))
  {
    var n := SetReclaim(m, false);
    assert VersionMisMatch(n.w) <==> VersionMisMatch(m.w);
    hide VersionMisMatch;
    UpdateInPlace(n, p, process && !p.processMatch);
    hide UpdatePod;
  }

  /** Without an update a commit fails, gives the worker up, or does nothing; the executor does not matter. */
  lemma CommitNothing(m: Machine, p: Pass, resource: bool, process: bool)
    requires !Commits(m.w, p, resource, process)
    ensures var o := CommitSpec(m, p, resource, process);
            var blocked := !CommitFails(p, resource, process) && (resource || process);
            && o.err == CommitFails(p, resource, process)
            && o.m == (if blocked then SetReclaim(m, true) else m)
  {
    hide VersionMisMatch, UpdatePod;
  }

  /** The part of a sync after the resource step, for the in-place executor. */
  lemma SpecInPlace(m: Machine, p: Pass)
    requires p.executor.InPlace? && m.current && !StopsEarly(m.w, p)
    ensures var o := UpdateSpec(m, p, ResourceDue(m.w, p));
            && o.m.w.status.traffic == RestartTraffic(m.w, p) && o.m.pod == m.pod
            && (if Issues(m.w, p) then
                  && |o.m.log| == |m.log| + 1 && m.log <= o.m.log && o.m.log[|m.log|].PodUpdated?
                  && o.m.log[|m.log|].processChange == (ProcessWanted(m.w, p) && !p.processMatch)
                  && o.err == p.update.Broken? && o.m.current == !p.update.Broken?
                  && o.m.w.status.flags.internalReclaim == (p.update.Rejected? && VersionDiffers(m.w))
                else
                  && o.m.log == m.log && o.m.current && o.err == FailsBefore(m.w, p)
                  && o.m.w.status.flags.internalReclaim == (GivesUp(m.w, p) || m.w.status.flags.internalReclaim))
  {
    DueExactly(m.w, p);
    DiffersExactly(m.w);
    RestartWaits(m.w, p);
    var resource, process := ResourceDue(m.w, p), ProcessWanted(m.w, p);
    var (v, wait) := PrepareRestart(m.w, p);
    var n := if process then m.(w := v) else m;
    assert n.w.status.traffic == RestartTraffic(m.w, p) && n.w.status.flags == m.w.status.flags;
    assert VersionMisMatch(n.w) <==> VersionMisMatch(m.w);
    assert process ==> (wait <==> WaitsForOffline(m.w, p));
    hide PrepareRestart, VersionMisMatch, ProcessDue, ShouldGracefullyRestart, RestartTraffic;
    if process && wait {
      assert UpdateSpec(m, p, resource) == Outcome(n, false);
    } else {
      assert UpdateSpec(m, p, resource) == CommitSpec(n, p, resource, process);
      if Commits(n.w, p, resource, process) {
        CommitInPlace(n, p, resource, process);
      } else {
        CommitNothing(n, p, resource, process);
      }
      hide CommitSpec;
    }
  }

  /**
   A spec sync with the in-place executor logs itself and, if and only if everything for it is there, one pod update;
   and what it leaves: the error, whether the allocator still holds the pod, the reclaim mark and the traffic fields.
   */
  lemma SyncInPlace(m: Machine, p: Pass)
    requires p.executor.InPlace? && m.current
    ensures var o := SyncPodSpec(m, p);
            var issued := Issues(m.w, p);
            && m.log + [SpecSynced(m.w)] <= o.m.log && |o.m.log| == |m.log| + (if issued then 2 else 1)
            && (issued ==> o.m.log[|m.log| + 1].PodUpdated?
                           && o.m.log[|m.log| + 1].processChange == (ProcessWanted(m.w, p) && !p.processMatch))
            && o.err == (if issued then p.update.Broken? else FailsBefore(m.w, p))
            && o.m.current == !(issued && p.update.Broken?) && o.m.pod == m.pod
            && o.m.w.status.traffic == RestartTraffic(m.w, p)
            && o.m.w.status.flags.internalReclaim ==
               (if issued then p.update.Rejected? && VersionDiffers(m.w)
                else if NothingToDo(m.w, p) then false else GivesUp(m.w, p) || m.w.status.flags.internalReclaim)
  {
    DueExactly(m.w, p);
    DiffersExactly(m.w);
    var n := Log(m, SpecSynced(m.w));
    hide VersionMisMatch, ResVersionMisMatch, ModeMisMatch, UpdateSpec;
    if !StopsEarly(m.w, p) {
      assert SyncPodSpec(m, p) == UpdateSpec(n, p, ResourceDue(m.w, p));
      SpecInPlace(n, p);
    }
    hide VersionDiffers, ModeDiffers;
  }

  // ---------------------------------------------------------------- the recreate executor

  lemma CommitRecreate(m: Machine, p: Pass, resource: bool, process: bool)
    requires p.executor.Recreate? && m.current && Commits(m.w, p, resource, process)
    ensures var o := CommitSpec(m, p, resource, process);
            var issued := VersionMisMatch(m.w) && p.specChanged;
            && o.m.log == m.log + (if issued then [PodRecreated(SetReclaim(m, false).w, process && !p.processMatch)] else [])
            && o.m.pod == m.pod && !o.m.current && o.err == (issued && p.update.Broken?)
            && o.m.w == (if issued && !p.update.Broken? then StartOver(m.w) else SetReclaim(m, false).w)
  {
    assert m.log + [] == m.log;
    assert VersionMisMatch(SetReclaim(m, false).w) <==> VersionMisMatch(m.w);
    hide VersionMisMatch;
  }

  lemma SpecRecreate(m: Machine, p: Pass)
    requires p.executor.Recreate? && m.current && !StopsEarly(m.w, p)
    ensures var o := UpdateSpec(m, p, ResourceDue(m.w, p));
            var issued := Issues(m.w, p) && VersionDiffers(m.w) && p.specChanged;
            && m.log <= o.m.log && |o.m.log| == |m.log| + (if issued then 1 else 0)
            && (issued ==> o.m.log[|m.log|].PodRecreated?
                           && o.m.log[|m.log|].processChange == (ProcessWanted(m.w, p) && !p.processMatch))
            && o.err == (if Issues(m.w, p) then issued && p.update.Broken? else FailsBefore(m.w, p))
            && o.m.current == !Issues(m.w, p) && o.m.pod == m.pod
            && (if issued && !p.update.Broken? then o.m.w == StartOver(m.w) else o.m.w.status.traffic == RestartTraffic(m.w, p))
  {
    DueExactly(m.w, p);
    DiffersExactly(m.w);
    RestartWaits(m.w, p);
    var resource, process := ResourceDue(m.w, p), ProcessWanted(m.w, p);
    var (v, wait) := PrepareRestart(m.w, p);
    var n := if process then m.(w := v) else m;
    assert n.w.status.traffic == RestartTraffic(m.w, p) && StartOver(n.w) == StartOver(m.w);
    assert VersionMisMatch(n.w) <==> VersionMisMatch(m.w);
    assert process ==> (wait <==> WaitsForOffline(m.w, p));
    hide PrepareRestart, VersionMisMatch, ProcessDue, ShouldGracefullyRestart, RestartTraffic, StartOver;
    if process && wait {
      assert UpdateSpec(m, p, resource) == Outcome(n, false);
    } else {
      assert UpdateSpec(m, p, resource) == CommitSpec(n, p, resource, process);
      if Commits(n.w, p, resource, process) {
        CommitRecreate(n, p, resource, process);
      } else {
        CommitNothing(n, p, resource, process);
      }
      hide CommitSpec;
    }
  }

  /** The same with the recreate executor: the pod is recreated if and only if moreover the version differs and the spec changed. */
  lemma SyncRecreate(m: Machine, p: Pass)
    requires p.executor.Recreate? && m.current
    ensures var o := SyncPodSpec(m, p);
            var issued := Issues(m.w, p) && VersionDiffers(m.w) && p.specChanged;
            && m.log + [SpecSynced(m.w)] <= o.m.log && |o.m.log| == |m.log| + (if issued then 2 else 1)
            && (issued ==> o.m.log[|m.log| + 1].PodRecreated?
                           && o.m.log[|m.log| + 1].processChange == (ProcessWanted(m.w, p) && !p.processMatch))
            && o.err == (if Issues(m.w, p) then issued && p.update.Broken? else FailsBefore(m.w, p))
            && o.m.current == !Issues(m.w, p) && o.m.pod == m.pod
            && (if issued && !p.update.Broken? then o.m.w == StartOver(m.w) else o.m.w.status.traffic == RestartTraffic(m.w, p))
  {
    DueExactly(m.w, p);
    DiffersExactly(m.w);
    var n := Log(m, SpecSynced(m.w));
    hide VersionMisMatch, ResVersionMisMatch, ModeMisMatch, UpdateSpec;
    if !StopsEarly(m.w, p) {
      assert SyncPodSpec(m, p) == UpdateSpec(n, p, ResourceDue(m.w, p));
      SpecRecreate(n, p);
    }
    hide VersionDiffers, ModeDiffers;
  }

  // ---------------------------------------------------------------- services

  predicate NoneTrue(conditions: seq<ServiceCondition>, gracefulOnly: bool) {
    forall c :: c in conditions && (c.graceful || !gracefulOnly) ==> !c.ok
  }

  /** No graceful service is true and each says the node is absent. */
  predicate AllAbsent(conditions: seq<ServiceCondition>) {
    forall c :: c in conditions && c.graceful ==> !c.ok && c.absent
  }

  /**
   The service status over the conditions: unavailable when there are some and none is true, or when the worker is
   offline and no graceful one is; otherwise available exactly when all are true.
   */
  lemma ServiceExactly(s: Status)
    ensures var out := (s.conditions != [] && NoneTrue(s.conditions, false)) || (s.traffic.offline && NoneTrue(s.conditions, true));
            && (ServiceStatusOf(s) == UnAvailable <==> out)
            && (ServiceStatusOf(s) == Available <==> !out && forall c :: c in s.conditions ==> c.ok)
            && (ServiceStatusOf(s) == PartAvailable <==> !out && exists c :: c in s.conditions && !c.ok)
  {
  }

  // ---------------------------------------------------------------- out of service

  /** The worker is taken out of service before it changes: by its own grace, or because it restarts gracefully. */
  predicate Graceful(w: Worker, p: Pass) {
    w.spec.graceful || (RestartsGracefully(w, p.features) && w.status.traffic.inRestarting)
  }

  predicate Differs(w: Worker) {
    VersionDiffers(w) || ModeDiffers(w)
  }

  /** A worker that needs warming up and has no grace is kept offline. */
  function WarmTraffic(w: Worker, p: Pass, t: Traffic): Traffic {
    var due := && p.features.warmupUnavailable && !t.warmup && w.status.flags.inUpdating
               && (exists c :: c in w.status.conditions && c.graceful)
               && (forall c :: c in w.status.conditions && c.graceful ==> !c.ok && c.checkFalse)
               && !(w.status.alloc.Assigned? && p.healthReady);
    var need := if due then w.spec.warmup && exists c :: c in w.status.conditions && c.cm2 else t.needWarmup;
    t.(needWarmup := need, offline := t.offline || (need && !w.spec.graceful))
  }

  lemma WarmUpExactly(w: Worker, p: Pass)
    ensures ProcessNeedWarmUp(w, p) == w.(status := w.status.(traffic := WarmTraffic(w, p, w.status.traffic)))
  {
  }

  lemma GateAsks(w: Worker, p: Pass)
    ensures MisMatch(w) <==> Differs(w)
    ensures w.spec.graceful || NeedOfflineForRestart(w, p.features) <==> Graceful(w, p)
  {
    DiffersExactly(w);
    hide VersionMisMatch, ModeMisMatch, VersionDiffers, ModeDiffers;
  }

  /**
   The gate before planning: a graceful worker that differs is marked offline and passes exactly when no graceful
   service is published.
   */
  lemma GateHolds(w: Worker, p: Pass)
    requires Graceful(w, p) && Differs(w)
    ensures ProcessUpdateGracefully(w, p) == (SyncService(SetOffline(w, true)), AllAbsent(w.status.conditions))
  {
    GateAsks(w, p);
    hide ProcessNeedWarmUp, MisMatch, NeedOfflineForRestart, Graceful, Differs, ServiceStatusOf;
  }

  /** Any other worker passes, its offline mark following the spec unless it is graceful. */
  lemma GateOpens(w: Worker, p: Pass)
    requires !(Graceful(w, p) && Differs(w))
    ensures var t := if Graceful(w, p) then w.status.traffic else w.status.traffic.(offline := !w.spec.online);
            ProcessUpdateGracefully(w, p) == (w.(status := w.status.(traffic := WarmTraffic(w, p, t))), true)
  {
    GateAsks(w, p);
    var v := SetOffline(w, !w.spec.online);
    WarmUpExactly(w, p);
    WarmUpExactly(v, p);
    assert forall t :: WarmTraffic(v, p, t) == WarmTraffic(w, p, t);
    hide ProcessNeedWarmUp, MisMatch, NeedOfflineForRestart, Graceful, Differs, WarmTraffic;
  }

  /** Assigned, with its entity allocated and not to be released: the stage goes into its loop. */
  predicate InLoop(w: Worker) {
    w.status.alloc.Assigned? && w.status.entity == Entity(true, true, true)
    && !(w.spec.toDelete || w.spec.releasing || w.status.flags.toRelease)
  }

  /** A graceful worker that differs and is still published is marked offline, and nothing else is done in this pass. */
  lemma TakenOffline(m: Machine, p: Pass)
    requires InLoop(m.w) && Graceful(m.w, p) && Differs(m.w) && !AllAbsent(m.w.status.conditions)
    ensures var n := DealAssigned(m, p);
            n.log == m.log && n.w.status.traffic == m.w.status.traffic.(offline := true) && n.w.status.alloc.Assigned?
            && n.w.status.service == ServiceStatusOf(m.w.status.(traffic := m.w.status.traffic.(offline := true)))
  {
    GateHolds(m.w, p);
    hide ProcessUpdateGracefully, ProcessPlan, ServiceStatusOf, AssignedTail, Graceful, Differs, AllAbsent;
  }

  /** The worker as the gate leaves it. */
  function Offline(w: Worker): Worker {
    SyncService(SetOffline(w, true))
  }

  /** Planning an offline worker that differs: one sync, and no retry after it. */
  lemma PlanOffline(m: Machine, p: Pass)
    requires p.executor.InPlace? && m.current && m.w.status.traffic.offline
    requires !VersionRollback(m.w.spec.version, m.w.status.version) && !VersionInnerMatch(m.w.spec.version, m.w.status.version)
    ensures var n := ProcessPlan(m, p).0;
            && n.log == SyncPodSpec(m, p).m.log && (n.w.status.traffic.offline || !n.w.status.traffic.inRestarting)
            && (ProcessPlan(m, p).1.Failed? <==> SyncPodSpec(m, p).err)
  {
    SyncInPlace(m, p);
    SyncStatusKeeps(SyncPodSpec(m, p).m, p);
    hide SyncPodSpec, SyncWorkerStatus, VersionRollback, VersionInnerMatch, Issues, FailsBefore, GivesUp, MisMatch;
  }

  /**
   Once no graceful service is published, the stage syncs the spec of the worker marked offline and issues exactly the
   update that is due; being offline it never waits.
   */
  lemma UpdatedOffline(m: Machine, p: Pass)
    requires InLoop(m.w) && Graceful(m.w, p) && Differs(m.w) && AllAbsent(m.w.status.conditions)
    requires p.executor.InPlace? && m.current
    requires !VersionRollback(m.w.spec.version, m.w.status.version) && !VersionInnerMatch(m.w.spec.version, m.w.status.version)
    ensures var n, v := DealAssigned(m, p), Offline(m.w);
            && m.log + [SpecSynced(v)] <= n.log && |n.log| == |m.log| + (if Issues(v, p) then 2 else 1)
            && (Issues(v, p) ==> n.log[|m.log| + 1].PodUpdated?) && !WaitsForOffline(v, p)
  {
    GateHolds(m.w, p);
    var v := m.(w := Offline(m.w));
    assert v.w.status.traffic.offline && v.w.spec == m.w.spec && v.w.status.version == m.w.status.version;
    PlanOffline(v, p);
    SyncInPlace(v, p);
    var (n, plan) := ProcessPlan(v, p);
    TailKeeps(n, p);
    hide ProcessUpdateGracefully, ProcessPlan, SyncPodSpec, ServiceStatusOf, AssignedTail, Graceful, Differs, AllAbsent,
         VersionRollback, VersionInnerMatch, Issues, FailsBefore, GivesUp, MisMatch, ShouldGracefullyRestart;
  }

  /**
   An offline worker whose version does not settle in this pass, or whose mode still differs, is not put back into
   service: planning is not done and the stage ends with the worker offline.
   */
  lemma StaysOffline(m: Machine, p: Pass)
    requires InLoop(m.w) && Graceful(m.w, p) && Differs(m.w) && AllAbsent(m.w.status.conditions)
    requires p.executor.InPlace? && m.current && p.pod.Pod? && p.pod.bound && !p.pod.deleting
    requires !VersionRollback(m.w.spec.version, m.w.status.version) && !VersionInnerMatch(m.w.spec.version, m.w.status.version)
    requires ModeDiffers(m.w) || !(p.processMatch && p.podUpdated && p.versionSettles)
    ensures DealAssigned(m, p).w.status.traffic.offline
  {
    GateHolds(m.w, p);
    var v := m.(w := Offline(m.w));
    assert v.w.status.traffic.offline && v.w.spec == m.w.spec && v.w.status.version == m.w.status.version && v.w.status.mode == m.w.status.mode;
    assert Differs(v.w) && (ModeDiffers(v.w) <==> ModeDiffers(m.w));
    PlanStays(v, p);
    hide ProcessUpdateGracefully, ProcessPlan, ServiceStatusOf, AssignedTail, Graceful, Differs, AllAbsent, ModeDiffers,
         VersionRollback, VersionInnerMatch;
  }

  lemma PlanStays(m: Machine, p: Pass)
    requires m.w.status.traffic.offline && Differs(m.w)
    requires p.executor.InPlace? && m.current && p.pod.Pod? && p.pod.bound && !p.pod.deleting
    requires !VersionRollback(m.w.spec.version, m.w.status.version) && !VersionInnerMatch(m.w.spec.version, m.w.status.version)
    requires ModeDiffers(m.w) || !(p.processMatch && p.podUpdated && p.versionSettles)
    ensures var (n, plan) := ProcessPlan(m, p);
            n.w.status.traffic.offline && !plan.Ready? && !OfflineForRestart(n.w, p.features)
  {
    SyncInPlace(m, p);
    SyncKeepsVersions(m, p);
    var o := SyncPodSpec(m, p);
    var n := SyncWorkerStatus(o.m, p);
    if o.m.current {
      StatusExactly(o.m, p);
      assert Differs(n.w);
    }
    GateAsks(n.w, p);
    hide SyncPodSpec, SyncWorkerStatus, VersionRollback, VersionInnerMatch, Issues, FailsBefore, GivesUp, MisMatch, Differs,
         NeedOfflineForRestart, RestartTraffic;
  }

  /** `b` is `a` with other traffic fields and flags. */
  predicate SameButMarks(a: Worker, b: Worker) {
    b == a.(status := a.status.(traffic := b.status.traffic, flags := b.status.flags))
  }

  lemma CommitKeeps(m: Machine, p: Pass, resource: bool, process: bool)
    requires p.executor.InPlace?
    ensures SameButMarks(m.w, CommitSpec(m, p, resource, process).m.w)
  {
    hide VersionMisMatch;
  }

  lemma SpecKeeps(m: Machine, p: Pass, resource: bool)
    requires p.executor.InPlace?
    ensures SameButMarks(m.w, UpdateSpec(m, p, resource).m.w)
  {
    var (v, wait) := PrepareRestart(m.w, p);
    assert SameButMarks(m.w, v);
    CommitKeeps(m, p, resource, false);
    CommitKeeps(m.(w := v), p, resource, true);
    hide CommitSpec, ProcessDue, PrepareRestart;
  }

  /** An in-place sync leaves the spec and the versions and mode reached alone; it fails when it loses the pod. */
  lemma SyncKeepsVersions(m: Machine, p: Pass)
    requires p.executor.InPlace? && m.current
    ensures SameButMarks(m.w, SyncPodSpec(m, p).m.w)
    ensures RestartTraffic(m.w, p).offline == m.w.status.traffic.offline && (!SyncPodSpec(m, p).m.current ==> SyncPodSpec(m, p).err)
  {
    SyncInPlace(m, p);
    assert RestartTraffic(m.w, p).offline == m.w.status.traffic.offline;
    SpecKeeps(Log(m, SpecSynced(m.w)), p, !p.resourceUpdated && (ResVersionMisMatch(m.w) || ModeMisMatch(m.w)));
    hide Issues, FailsBefore, GivesUp, UpdateSpec, ResVersionMisMatch, ModeMisMatch, VersionMisMatch, RestartTraffic;
  }

  /** A worker without grace as the gate lets it through. */
  function Through(w: Worker, p: Pass): Worker {
    w.(status := w.status.(traffic := WarmTraffic(w, p, w.status.traffic.(offline := !w.spec.online))))
  }

  /** The first run for a worker that has to wait: it is marked as restarting and the body asks to be run again. */
  lemma RestartRetries(m: Machine, p: Pass)
    requires InLoop(m.w) && !Graceful(m.w, p) && Differs(m.w) && p.executor.InPlace? && m.current
    requires !VersionRollback(m.w.spec.version, m.w.status.version) && !VersionInnerMatch(m.w.spec.version, m.w.status.version)
    requires var v := Through(m.w, p); WaitsForOffline(v, p) && !StopsEarly(v, p)
    ensures var (n, verdict) := AssignedBody(m, p);
            && verdict == Retry && n.log == m.log + [SpecSynced(Through(m.w, p))]
            && n.w.status.traffic.inRestarting && n.w.spec == m.w.spec && n.w.status.conditions == m.w.status.conditions
            && n.w.status.alloc == m.w.status.alloc && n.w.status.entity == m.w.status.entity
            && Graceful(n.w, p) && Differs(n.w)
  {
    GateOpens(m.w, p);
    var v := m.(w := Through(m.w, p));
    assert v.w == m.w.(status := m.w.status.(traffic := v.w.status.traffic));
    hide WarmTraffic, Through;
    WaitingPlan(v, p);
    hide ProcessUpdateGracefully, ProcessPlan, VersionRollback, VersionInnerMatch, WaitsForOffline, StopsEarly;
  }

  lemma WaitingPlan(m: Machine, p: Pass)
    requires Differs(m.w) && p.executor.InPlace? && m.current && WaitsForOffline(m.w, p) && !StopsEarly(m.w, p)
    requires !VersionRollback(m.w.spec.version, m.w.status.version) && !VersionInnerMatch(m.w.spec.version, m.w.status.version)
    ensures var (n, plan) := ProcessPlan(m, p);
            && plan == NotYet && OfflineForRestart(n.w, p.features) && n.log == m.log + [SpecSynced(m.w)]
            && n.w.status.traffic.inRestarting && SameButMarks(m.w, n.w) && Graceful(n.w, p) && Differs(n.w)
  {
    SyncInPlace(m, p);
    SyncKeepsVersions(m, p);
    var o := SyncPodSpec(m, p);
    assert !Issues(m.w, p) && !FailsBefore(m.w, p);
    assert o.m.w.status.traffic.inRestarting && !o.m.w.status.traffic.offline;
    assert Differs(o.m.w) && RestartsGracefully(o.m.w, p.features);
    DiffersExactly(o.m.w);
    assert ShouldGracefullyRestart(o.m.w, p.features);
    hide SyncPodSpec, VersionRollback, VersionInnerMatch, Issues, FailsBefore, GivesUp, StopsEarly, WaitsForOffline, RestartTraffic,
         VersionMisMatch, ModeMisMatch, VersionDiffers, ModeDiffers, ShouldGracefullyRestart, RestartsGracefully;
  }

  /**
   Where graceful restart applies, a serving worker without grace is taken offline in the very pass that finds its
   process out of date: the first run of the loop waits, the second marks it offline and stops while it is published.
   */
  lemma RestartTakenOffline(m: Machine, p: Pass)
    requires InLoop(m.w) && !Graceful(m.w, p) && Differs(m.w) && p.executor.InPlace? && m.current
    requires !VersionRollback(m.w.spec.version, m.w.status.version) && !VersionInnerMatch(m.w.spec.version, m.w.status.version)
    requires var v := Through(m.w, p); WaitsForOffline(v, p) && !StopsEarly(v, p)
    requires !AllAbsent(m.w.status.conditions)
    ensures var n := DealAssigned(m, p);
            n.log == m.log + [SpecSynced(Through(m.w, p))] && n.w.status.traffic.offline && n.w.status.traffic.inRestarting
  {
    RestartRetries(m, p);
    var n := AssignedBody(m, p).0;
    GateHolds(n.w, p);
    assert AssignedBody(n, p) == (n.(w := Offline(n.w)), Stop);
    hide AssignedBody, ServiceStatusOf, Graceful, Differs, AllAbsent, VersionRollback, VersionInnerMatch, Through, WaitsForOffline, StopsEarly;
  }

  // ---------------------------------------------------------------- back in service

  /** Whether the traffic of a ready worker is managed here. */
  predicate Managed(w: Worker, p: Pass) {
    w.spec.graceful || RestartsGracefully(w, p.features) || w.status.traffic.needWarmup || w.status.traffic.warmup
  }

  predicate AwaitsRow(w: Worker, p: Pass) {
    Managed(w, p) && w.status.traffic.needWarmup && !w.spec.rowComplete && p.features.warmupUnavailable
  }

  /** A ready worker's traffic: offline exactly as the spec says, warming up from when it is due until the time is over. */
  function ReadyTraffic(w: Worker, p: Pass): Traffic {
    var t := w.status.traffic;
    if !Managed(w, p) then t
    else Traffic(!w.spec.online, t.inRestarting && t.offline != w.spec.online, false,
                 (t.warmup || t.needWarmup) && !(w.spec.online && p.warmupOver))
  }

  lemma ServiceInfoExactly(w: Worker, p: Pass)
    requires !AwaitsRow(w, p)
    ensures var (v, served) := ProcessServiceInfo(w, p);
            && v == SyncService(w.(status := w.status.(traffic := ReadyTraffic(w, p))))
            && (served <==> if w.spec.online then p.latestAvailable else v.status.service == UnAvailable)
  {
    assert ShouldGracefullyRestart(w, p.features) <==> RestartsGracefully(w, p.features);
    hide ShouldGracefullyRestart, RestartsGracefully, ServiceStatusOf;
  }

  /**
   The end of the stage for a ready worker: its traffic becomes as the spec says, so that an online worker comes back
   into service, and the restart is over once it is served.
   */
  lemma TailExactly(m: Machine, p: Pass)
    requires m.w.status.alloc.Assigned?
    ensures var n := AssignedTail(m, p);
            var ready := p.healthReady && m.w.spec.dependencyReady && !AwaitsRow(m.w, p);
            && (!p.healthReady ==> n.w.status.traffic == WarmTraffic(m.w, p, m.w.status.traffic))
            && (p.healthReady && !ready ==> n.w == m.w)
            && (ready ==>
                  var v := SyncService(m.w.(status := m.w.status.(traffic := ReadyTraffic(m.w, p))));
                  var served := if m.w.spec.online then p.latestAvailable else v.status.service == UnAvailable;
                  n.w == if served then SetTraffic(v, v.status.traffic.(inRestarting := false)) else v)
  {
    WarmUpExactly(m.w, p);
    assert ShouldGracefullyRestart(m.w, p.features) <==> RestartsGracefully(m.w, p.features);
    if AwaitsRow(m.w, p) {
      assert ProcessServiceInfo(m.w, p) == (m.w, false);
    } else {
      ServiceInfoExactly(m.w, p);
    }
    hide ProcessNeedWarmUp, WarmTraffic, ProcessServiceInfo, ServiceStatusOf, ReadyTraffic, AwaitsRow, ShouldGracefullyRestart, RestartsGracefully;
  }

  /** What a status sync takes over from a bound pod that is not being deleted. */
  lemma StatusExactly(m: Machine, p: Pass)
    requires m.current && p.pod.Pod? && p.pod.bound && !p.pod.deleting
    ensures var n, s := SyncWorkerStatus(m, p), m.w.status;
            var settled := p.processMatch && p.podUpdated && p.versionSettles;
            && n == m.(w := n.w) && n.w.spec == m.w.spec
            && n.w.status == s.(version := if settled then m.w.spec.version else s.version,
                                resVersion := if p.resourceReached then m.w.spec.resVersion else s.resVersion,
                                service := if s.service.Unset? then UnAvailable else s.service,
                                entity := if s.alloc.Lost? then Entity(s.entity.named, s.entity.uid, true) else Entity(true, true, true),
                                flags := s.flags.(failed := p.phaseFailed))
  {
  }

  /** The alloc status without a pod or with one that is not bound yet. */
  lemma AllocExactly(m: Machine, p: Pass)
    requires !m.current || !p.pod.Pod? || !p.pod.bound
    ensures var n, s := SyncAllocStatus(m, p), m.w.status;
            var gone := !m.current || !p.pod.Pod?;
            && n == m.(w := n.w) && n.w.spec == m.w.spec
            && n.w.status == s.(service := if s.service.Unset? then UnAvailable else s.service,
                                entity := if gone && !s.alloc.Lost? then Entity(false, false, s.entity.alloced) else s.entity,
                                flags := s.flags.(failed := s.flags.failed || (!gone && p.pod.failedWithIP)))
  {
  }

  /** Nothing differs and nothing is missing. */
  predicate UpToDate(w: Worker) {
    w.spec.version == w.status.version && !ResDiffers(w) && !ModeDiffers(w)
  }

  lemma PlanUpToDate(m: Machine, p: Pass)
    requires UpToDate(m.w) && m.current && p.pod.Pod? && p.pod.bound && !p.pod.deleting
    ensures var (n, plan) := ProcessPlan(m, p);
            && n.log == m.log + [SpecSynced(m.w)] && n.w.spec == m.w.spec && n.w.status.alloc == m.w.status.alloc
            && n.w.status.traffic == m.w.status.traffic && n.w.status.conditions == m.w.status.conditions
            && plan == if m.w.spec.dependencyReady then Ready else NotYet
  {
    DiffersExactly(m.w);
    var n := SetReclaim(Log(m, SpecSynced(m.w)), false);
    assert SyncPodSpec(m, p) == Outcome(n, false);
    assert !MisMatch(n.w) by { DiffersExactly(n.w); }
    StatusExactly(n, p);
    assert !MisMatch(SyncWorkerStatus(n, p).w) by { DiffersExactly(SyncWorkerStatus(n, p).w); }
    hide SyncPodSpec, SyncWorkerStatus, MisMatch, VersionMisMatch, ModeMisMatch, ShouldGracefullyRestart;
  }

  /**
   A graceful worker that is up to date, healthy and ready follows its spec: an online one comes back into service
   whatever its offline mark was, and its restart is over once it is available; nothing is updated.
   */
  lemma BackInService(m: Machine, p: Pass)
    requires InLoop(m.w) && UpToDate(m.w) && m.w.spec.graceful && m.w.spec.dependencyReady && p.healthReady && !AwaitsRow(m.w, p)
    requires m.current && p.pod.Pod? && p.pod.bound && !p.pod.deleting
    ensures var n := DealAssigned(m, p);
            && n.log == m.log + [SpecSynced(m.w)] && n.w.status.alloc.Assigned?
            && n.w.status.traffic.offline == !m.w.spec.online && !n.w.status.traffic.needWarmup
            && (m.w.spec.online && p.latestAvailable ==> !n.w.status.traffic.inRestarting)
  {
    BodyUpToDate(m, p);
    var n := AssignedBody(m, p).0;
    SameReadiness(m.w, n.w, p);
    TailExactly(n, p);
    TailKeeps(n, p);
    assert ReadyTraffic(m.w, p).offline == !m.w.spec.online && !ReadyTraffic(m.w, p).needWarmup;
    SettleKeeps(AssignedTail(n, p), p);
    assert DealAssigned(m, p) == Settle(AssignedTail(n, p), p);
    assert DealAssigned(m, p).w.status.traffic == AssignedTail(n, p).w.status.traffic;
    hide AssignedBody, AssignedTail, AwaitsRow, ServiceStatusOf, UpToDate, ReadyTraffic, Settle, DealAssigned;
  }

  /** The body of the loop for such a worker: through the gate, nothing to update, ready. */
  lemma BodyUpToDate(m: Machine, p: Pass)
    requires InLoop(m.w) && UpToDate(m.w) && m.w.spec.graceful && m.w.spec.dependencyReady && p.healthReady
    requires m.current && p.pod.Pod? && p.pod.bound && !p.pod.deleting
    ensures var (n, verdict) := AssignedBody(m, p);
            && verdict == Go && n.log == m.log + [SpecSynced(m.w)] && n.w.spec == m.w.spec && n.w.status.alloc.Assigned?
            && n.w.status.traffic == m.w.status.traffic && n.w.status.conditions == m.w.status.conditions
  {
    GateOpens(m.w, p);
    assert WarmTraffic(m.w, p, m.w.status.traffic) == m.w.status.traffic;
    assert m.w.(status := m.w.status.(traffic := m.w.status.traffic)) == m.w;
    PlanUpToDate(m, p);
    hide ProcessUpdateGracefully, ProcessPlan, WarmTraffic, UpToDate;
  }

  lemma SameReadiness(a: Worker, b: Worker, p: Pass)
    requires a.spec == b.spec && a.status.traffic == b.status.traffic && a.status.conditions == b.status.conditions
    ensures (AwaitsRow(a, p) <==> AwaitsRow(b, p)) && ReadyTraffic(a, p) == ReadyTraffic(b, p)
  {
  }

  // ---------------------------------------------------------------- where the stages end

  predicate Leaving(w: Worker) {
    w.spec.toDelete || w.spec.releasing || w.status.flags.toRelease
  }

  /** A deletion that was tried and failed; it is tried for a worker out of service, or one released without grace. */
  predicate DeletionFails(m: Machine, p: Pass) {
    && m.pod && m.current && p.deleteFails
    && (ServiceStatusOf(m.w.status) == UnAvailable || (!m.w.spec.graceful && Leaving(m.w)))
  }

  /** The stage a worker is released through. */
  function WayOut(w: Worker): AllocStatus {
    if w.spec.graceful then Offlining else Releasing
  }

  /**
   Where the unassigned stage ends: assigned exactly with an allocated entity; to be released, released unless it is
   named or the deletion fails, and on its way out when it is named; and otherwise unassigned, with a pod created
   exactly for a nameless worker without one that is not cold.
   */
  lemma UnassignedOutcome(m: Machine, p: Pass)
    requires m.w.status.alloc.UnAssigned?
    ensures var n, w := Route(m, p), m.w;
            var placed := w.status.entity == Entity(true, true, true);
            && (n.w.status.alloc.Assigned? <==> placed)
            && (!placed && Leaving(w) ==>
                  n.w.status.alloc == if w.status.entity.named then WayOut(w) else if DeletionFails(m, p) then UnAssigned else Released)
            && (!placed && !Leaving(w) ==> n.w.status.alloc.UnAssigned?)
            && (placed ==> n.w.status.traffic == w.status.traffic.(inRestarting := true,
                  needWarmup := if p.features.warmupNewStarting then NeedWarmup(w) else w.status.traffic.needWarmup))
            && (!m.current ==> (n.current <==> !placed && !Leaving(w) && !w.status.entity.named && w.spec.mode != Cold && !m.pod && !p.createFails))
  {
    SyncPodSpecSafe(m, p);
    hide SyncPodSpec, ServiceStatusOf, NeedWarmup;
    if !m.current { assert SyncPodSpec(m, p) == Outcome(m, false) by { NoPodNoSync(m, p); } }
  }

  lemma NoPodNoSync(m: Machine, p: Pass)
    requires !m.current
    ensures SyncPodSpec(m, p) == Outcome(m, false)
  {
  }

  /** A lost worker stays lost until it is to be released; an assigned one is lost exactly when its entity is gone. */
  lemma LostOutcome(m: Machine, p: Pass)
    ensures m.w.status.alloc.Lost? ==> DealLost(m).w.status.alloc == if Leaving(m.w) then WayOut(m.w) else Lost
    ensures m.w.status.alloc.Assigned? && Leaving(m.w) ==> DealAssigned(m, p).w.status.alloc == WayOut(m.w)
    ensures m.w.status.alloc.Assigned? && !Leaving(m.w) && m.w.status.entity != Entity(true, true, true) ==>
            DealAssigned(m, p).w.status.alloc == Lost
  {
    hide AssignedLoop, AssignedTail;
  }

  /** Where the releasing stage ends: released, unless the deletion fails or there is no pod to a named worker. */
  lemma ReleasingOutcome(m: Machine, p: Pass)
    requires m.w.status.alloc.Releasing?
    ensures var n := DealReleasing(m, p);
            && (n.w.status.alloc.Released? <==> if m.pod then !DeletionFails(m, p) else !m.w.status.entity.named)
            && (m.pod && n.w.status.alloc.Released? ==> !n.pod && !n.w.status.entity.named && !n.w.status.entity.alloced)
            && ((exists i :: |m.log| <= i < |n.log| && n.log[i].PodDeleted?) <==>
                m.pod && m.current && !p.deleteFails
                && (ServiceStatusOf(m.w.status) == UnAvailable || (!m.w.spec.graceful && Leaving(m.w))))
  {
    hide ServiceStatusOf;
    var o := DeletePod(m, p);
    if m.pod && o.m.log != m.log { assert o.m.log[|m.log|].PodDeleted?; }
  }

  /** The unassigned stage first takes over the services of a worker that has none, and does nothing when it cannot read them. */
  lemma ServicesTakenOver(m: Machine, p: Pass)
    ensures !Leaving(m.w) && p.servicesFail ==> DealUnAssigned(m, p) == m
    ensures Leaving(m.w) || !p.servicesFail ==>
            var taken := !Leaving(m.w) && p.services != [] && m.w.status.conditions == [];
            exists v :: DealUnAssigned(m, p) == Route(m.(w := v), p) && v.spec == m.w.spec && v.status.alloc == m.w.status.alloc
                        && v.status.conditions == (if taken then p.services else m.w.status.conditions)
                        && (!taken ==> v == m.w)
  {
    var v := InitConditions(m.w, p);
    hide Route, ServiceStatusOf;
    assert Leaving(m.w) || !p.servicesFail ==> DealUnAssigned(m, p) == Route(m.(w := v), p);
  }

  /** A worker is updating from when its version differs until it is complete. */
  lemma UpdatingExactly(m: Machine, p: Pass)
    ensures var f := Settle(m, p).w.status.flags;
            f.complete == p.complete
            && (f.inUpdating <==> m.w.spec.version != m.w.status.version || (m.w.status.flags.inUpdating && !p.complete))
  {
  }

  /**
   The shortcuts of planning for versions of the form generation-hash: going back to a smaller generation forgets the
   version reached, and the same hash under another generation is taken as reached; neither touches the pod.
   */
  lemma PlanShortcuts(m: Machine, p: Pass, a: string, b: string, g: string, h: string)
    requires m.w.spec.version == Dashed(g, a) && m.w.status.version == Dashed(h, b) && (g != h || a != b)
    ensures var back := Atoi(g).Some? && Atoi(h).Some? && Atoi(g).value < Atoi(h).value;
            var (n, plan) := ProcessPlan(m, p);
            && (back ==> n == With(m, m.w.status.(version := NoVersion)) && plan == NotYet)
            && (!back && a == b ==> n == With(m, m.w.status.(version := m.w.spec.version)) && plan == Ready)
  {
    hide Atoi, SyncPodSpec, SyncWorkerStatus;
  }

  /** Generations compare as numbers. */
  lemma GenerationsAreNumbers()
    ensures Atoi("9") == Some(9) && Atoi("10") == Some(10) && Atoi("-3") == Some(-3) && Atoi("1x").None?
    ensures VersionRollback(Dashed("9", "a"), Dashed("10", "b")) && !VersionRollback(Dashed("10", "b"), Dashed("9", "a"))
  {
    assert "10"[..1] == "1" && "1"[..0] == "" && "9"[..0] == "" && "-3"[1..] == "3" && "3"[..0] == "";
    assert DigitsValue("1") == 1 && DigitsValue("9") == 9 && DigitsValue("3") == 3;
    assert "1x"[1] == 'x';
  }
}
