/**
 The worker node as the state machine sees it, with the status helpers of the
 carbon v1 API: version and mode mismatch, publication, availability.
 */
module WorkerNode {
  import opened Wrappers

  // ---------------------------------------------------------------- versions

  /** A version text, split at its first dash when it has one. */
  datatype Version = NoVersion | Plain(text: string) | Dashed(generation: string, hash: string)

  predicate Digits(s: string) {
    s != [] && forall i :: 0 <= i < |s| ==> '0' <= s[i] <= '9'
  }

  function DigitsValue(s: string): nat
    requires forall i :: 0 <= i < |s| ==> '0' <= s[i] <= '9'
  {
    if s == [] then 0 else DigitsValue(s[..|s| - 1]) * 10 + (s[|s| - 1] as int - '0' as int)
  }

  /** A decimal 64-bit integer with an optional sign. */
  function Atoi(s: string): Option<int> {
    var neg := s != [] && s[0] == '-';
    var body := if s != [] && (s[0] == '-' || s[0] == '+') then s[1..] else s;
    if !Digits(body) then None else
    var v: int := DigitsValue(body) * if neg then -1 else 1;
    if -0x8000_0000_0000_0000 <= v < 0x8000_0000_0000_0000 then Some(v) else None
  }

  predicate VersionInnerMatch(a: Version, b: Version) {
    a != b && a.Dashed? && b.Dashed? && a.hash == b.hash
  }

  predicate VersionRollback(spec: Version, status: Version) {
    && spec.Dashed? && status.Dashed? && spec != status
    && Atoi(spec.generation).Some? && Atoi(status.generation).Some?
    && Atoi(spec.generation).value < Atoi(status.generation).value
  }

  // ---------------------------------------------------------------- worker

  datatype AllocStatus = UnAssigned | Assigned | Lost | Offlining | Releasing | Released

  function Rank(a: AllocStatus): nat {
    match a
    case UnAssigned => 0
    case Assigned => 1
    case Lost => 2
    case Offlining => 3
    case Releasing => 4
    case Released => 5
  }

  datatype ServiceStatus = Unset | UnAvailable | PartAvailable | Available

  datatype Mode = NoMode | Active | Hot | Warm | Cold | Inactive

  /**
   One service condition: whether its registry type is graceful (all but skyline), whether it is a
   cm2 service, whether it is true, and, when false, whether its reason says that the node is not
   in the registry and whether the registry check failed on it.
   */
  datatype ServiceCondition = ServiceCondition(graceful: bool, cm2: bool, ok: bool, absent: bool, checkFalse: bool)

  datatype Spec = Spec(
    version: Version, resVersion: string, mode: Mode, graceful: bool, online: bool, dependencyReady: bool,
    releasing: bool, toDelete: bool, quickOnline: bool, warmup: bool, rowComplete: bool)

  /** The fields that take a worker in and out of service. */
  datatype Traffic = Traffic(offline: bool, inRestarting: bool, needWarmup: bool, warmup: bool)

  datatype Entity = Entity(named: bool, uid: bool, alloced: bool)

  datatype Flags = Flags(internalReclaim: bool, inUpdating: bool, complete: bool, toRelease: bool, failed: bool)

  datatype Status = Status(
    alloc: AllocStatus, version: Version, resVersion: string, mode: Mode,
    service: ServiceStatus, conditions: seq<ServiceCondition>,
    traffic: Traffic, entity: Entity, flags: Flags)

  datatype Worker = Worker(spec: Spec, status: Status)

  /** The zero status that a recreated worker starts from. */
  const FRESH := Status(UnAssigned, NoVersion, "", NoMode, Unset, [], Traffic(false, false, false, false),
                        Entity(false, false, false), Flags(false, false, false, false, false))

  predicate ToRelease(w: Worker) {
    w.spec.toDelete || w.status.flags.toRelease || w.spec.releasing
  }

  predicate VersionMisMatch(w: Worker) {
    w.spec.version != w.status.version && !VersionInnerMatch(w.spec.version, w.status.version)
  }

  predicate ResVersionMisMatch(w: Worker) {
    w.spec.resVersion != w.status.resVersion
  }

  function ModeOf(m: Mode): Mode {
    if m.NoMode? then Active else m
  }

  predicate ModeMisMatch(w: Worker) {
    (w.spec.mode != NoMode && w.spec.mode != Active && w.spec.mode != Hot) || ModeOf(w.spec.mode) != ModeOf(w.status.mode)
  }

  predicate MisMatch(w: Worker) {
    VersionMisMatch(w) || ModeMisMatch(w)
  }

  predicate EntityAlloced(w: Worker) {
    w.status.entity == Entity(true, true, true)
  }

  predicate UnAvailableNow(w: Worker) {
    w.status.service == UnAvailable
  }

  /** No graceful service is published: none is true and each says the node is absent. */
  predicate Unpublished(w: Worker) {
    forall c :: c in w.status.conditions && c.graceful ==> !c.ok && c.absent
  }

  predicate Unserviceable(w: Worker) {
    && (exists c :: c in w.status.conditions && c.graceful)
    && forall c :: c in w.status.conditions && c.graceful ==> !c.ok && c.checkFalse
  }

  predicate Offlined(w: Worker) {
    UnAvailableNow(w) && (Unpublished(w) || forall c :: c in w.status.conditions ==> !c.graceful)
  }

  predicate Irrecoverable(w: Worker) {
    w.status.alloc.Lost? || w.status.flags.failed
  }

  function ServiceStatusOf(s: Status): ServiceStatus {
    if s.conditions != [] && forall c :: c in s.conditions ==> !c.ok then UnAvailable
    else if s.traffic.offline && forall c :: c in s.conditions && c.graceful ==> !c.ok then UnAvailable
    else if exists c :: c in s.conditions && !c.ok then PartAvailable
    else Available
  }

  function SyncService(w: Worker): Worker {
    w.(status := w.status.(service := ServiceStatusOf(w.status)))
  }

  predicate CouldDeletePod(w: Worker) {
    UnAvailableNow(w) || (!w.spec.graceful && ToRelease(w))
  }

  predicate NeedWarmup(w: Worker) {
    w.spec.warmup && exists c :: c in w.status.conditions && c.cm2
  }

  /** The entity of a lost worker is kept. */
  function SetEntity(w: Worker, named: bool, uid: bool): Worker {
    if w.status.alloc.Lost? then w else w.(status := w.status.(entity := w.status.entity.(named := named, uid := uid)))
  }

  function SyncInUpdating(w: Worker): Worker {
    if w.spec.version != w.status.version then w.(status := w.status.(flags := w.status.flags.(inUpdating := true)))
    else if w.status.flags.complete then w.(status := w.status.(flags := w.status.flags.(inUpdating := false)))
    else w
  }
}
