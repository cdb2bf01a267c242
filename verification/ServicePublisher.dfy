/**
 The service publisher: it keeps the nodes of one service registered in a name
 service that other publishers share, and finalises the service once its own
 nodes are gone. The slice builders and the round are imperative; each is proved
 equal to a function, and the whole-run properties are lemmas about those functions.
 */
module ServicePublisher {

  type IP = string

  datatype IPNode = IPNode(ip: IP, lost: bool, failed: bool, newAdded: bool)

  function IPs(nodes: seq<IPNode>): set<IP> {
    if nodes == [] then {} else IPs(nodes[..|nodes| - 1]) + {nodes[|nodes| - 1].ip}
  }

  // ---------------------------------------------------------------- slices

  /** The nodes whose address is in `s`, in order. */
  function Pick(s: set<IP>, nodes: seq<IPNode>): seq<IPNode> {
    if nodes == [] then [] else
    var last := nodes[|nodes| - 1];
    Pick(s, nodes[..|nodes| - 1]) + if last.ip in s then [last] else []
  }

  /** As `Pick`, but only the first node of each address. */
  function PickOnce(s: set<IP>, nodes: seq<IPNode>): seq<IPNode> {
    if nodes == [] then [] else
    var done := PickOnce(s, nodes[..|nodes| - 1]);
    var last := nodes[|nodes| - 1];
    if last.ip in s && last.ip !in IPs(done) then done + [last] else done
  }

  function Healthy(nodes: seq<IPNode>): seq<IPNode> {
    if nodes == [] then [] else
    var last := nodes[|nodes| - 1];
    Healthy(nodes[..|nodes| - 1]) + if last.lost || last.failed then [] else [last]
  }

  function Flatten(lists: seq<seq<IPNode>>): seq<IPNode> {
    if lists == [] then [] else Flatten(lists[..|lists| - 1]) + lists[|lists| - 1]
  }

  lemma {:induction false} AppendIPs(a: seq<IPNode>, b: seq<IPNode>)
    ensures IPs(a + b) == IPs(a) + IPs(b)
  {
    if b == [] {
      assert a + b == a;
    } else {
      var k := |b| - 1;
      assert (a + b)[..|a + b| - 1] == a + b[..k];
      AppendIPs(a, b[..k]);
    }
  }

  lemma {:induction false} PickIPs(s: set<IP>, nodes: seq<IPNode>)
    ensures IPs(Pick(s, nodes)) == s * IPs(nodes)
  {
    if nodes != [] {
      var k := |nodes| - 1;
      PickIPs(s, nodes[..k]);
      AppendIPs(Pick(s, nodes[..k]), if nodes[k].ip in s then [nodes[k]] else []);
    }
  }

  lemma {:induction false} PickOnceIPs(s: set<IP>, nodes: seq<IPNode>)
    ensures IPs(PickOnce(s, nodes)) == s * IPs(nodes)
    ensures forall i, j :: 0 <= i < j < |PickOnce(s, nodes)| ==> PickOnce(s, nodes)[i].ip != PickOnce(s, nodes)[j].ip
  {
    if nodes != [] {
      var k := |nodes| - 1;
      var done := PickOnce(s, nodes[..k]);
      PickOnceIPs(s, nodes[..k]);
      AppendIPs(done, [nodes[k]]);
      forall i | 0 <= i < |done| ensures done[i].ip in IPs(done) { MemberIPs(done, i); }
    }
  }

  lemma {:induction false} MemberIPs(nodes: seq<IPNode>, i: nat)
    requires i < |nodes|
    ensures nodes[i].ip in IPs(nodes)
  {
    if i < |nodes| - 1 { MemberIPs(nodes[..|nodes| - 1], i); }
  }

  lemma HealthySnoc(nodes: seq<IPNode>, n: IPNode)
    ensures IPs(Healthy(nodes + [n])) == IPs(Healthy(nodes)) + if n.lost || n.failed then {} else {n.ip}
  {
    assert (nodes + [n])[..|nodes|] == nodes;
    AppendIPs(Healthy(nodes), if n.lost || n.failed then [] else [n]);
  }

  lemma PickSnoc(s: set<IP>, nodes: seq<IPNode>, n: IPNode)
    ensures Pick(s, nodes + [n]) == if n.ip in s then Pick(s, nodes) + [n] else Pick(s, nodes)
  {
    assert (nodes + [n])[..|nodes|] == nodes;
  }

  lemma HealthyPickSnoc(s: set<IP>, init: seq<IPNode>, last: IPNode)
    requires IPs(Healthy(Pick(s, init))) == s * IPs(Healthy(init))
    ensures IPs(Healthy(Pick(s, init + [last]))) == s * IPs(Healthy(init + [last]))
  {
    hide IPs, Healthy, Pick;
    PickSnoc(s, init, last);
    HealthySnoc(init, last);
    HealthySnoc(Pick(s, init), last);
  }

  /** Filtering by health commutes with picking by address. */
  lemma {:induction false} HealthyPickIPs(s: set<IP>, nodes: seq<IPNode>)
    ensures IPs(Healthy(Pick(s, nodes))) == s * IPs(Healthy(nodes))
  {
    if nodes != [] {
      var init, last := nodes[..|nodes| - 1], nodes[|nodes| - 1];
      HealthyPickIPs(s, init);
      HealthyPickSnoc(s, init, last);
      assert nodes == init + [last];
    }
  }

  lemma {:induction false} HealthySubset(nodes: seq<IPNode>)
    ensures IPs(Healthy(nodes)) <= IPs(nodes)
  {
    if nodes != [] {
      var k := |nodes| - 1;
      HealthySubset(nodes[..k]);
      HealthySnoc(nodes[..k], nodes[k]);
      assert nodes == nodes[..k] + [nodes[k]];
    }
  }

  method SetToSlice(s: set<IP>, nodes: seq<IPNode>) returns (r: seq<IPNode>)
    ensures r == Pick(s, nodes)
  {
    r := [];
    for i := 0 to |nodes|
      invariant r == Pick(s, nodes[..i])
    {
      assert nodes[..i + 1][..i] == nodes[..i];
      if nodes[i].ip in s {
        r := r + [nodes[i]];
      }
    }
    assert nodes[..|nodes|] == nodes;
  }

  lemma PickOnceSnoc(s: set<IP>, nodes: seq<IPNode>, n: IPNode)
    ensures var done := PickOnce(s, nodes);
            PickOnce(s, nodes + [n]) == if n.ip in s && n.ip !in IPs(done) then done + [n] else done
    ensures IPs(PickOnce(s, nodes) + [n]) == IPs(PickOnce(s, nodes)) + {n.ip}
  {
    assert (nodes + [n])[..|nodes|] == nodes;
    AppendIPs(PickOnce(s, nodes), [n]);
  }

  /** The inner loop: one more list. */
  method AddOnce(s: set<IP>, ghost before: seq<IPNode>, nodes: seq<IPNode>, start: seq<IPNode>, seen: set<IP>)
    returns (r: seq<IPNode>, recorder: set<IP>)
    requires start == PickOnce(s, before) && seen == IPs(start)
    ensures r == PickOnce(s, before + nodes) && recorder == IPs(r)
  {
    hide PickOnce, IPs;
    r, recorder := start, seen;
    assert before + nodes[..0] == before;
    for j := 0 to |nodes|
      invariant r == PickOnce(s, before + nodes[..j]) && recorder == IPs(r)
    {
      PickOnceSnoc(s, before + nodes[..j], nodes[j]);
      assert before + nodes[..j + 1] == before + nodes[..j] + [nodes[j]];
      if nodes[j].ip in s {
        if nodes[j].ip !in recorder {
          recorder := recorder + {nodes[j].ip};
          r := r + [nodes[j]];
        }
      }
    }
    assert nodes[..|nodes|] == nodes;
  }

  method SetToSliceBoth(s: set<IP>, lists: seq<seq<IPNode>>) returns (r: seq<IPNode>)
    ensures r == PickOnce(s, Flatten(lists))
  {
    r := [];
    var recorder: set<IP> := {};
    for i := 0 to |lists|
      invariant r == PickOnce(s, Flatten(lists[..i])) && recorder == IPs(r)
    {
      assert lists[..i + 1][..i] == lists[..i];
      r, recorder := AddOnce(s, Flatten(lists[..i]), lists[i], r, recorder);
    }
    assert lists[..|lists|] == lists;
  }

  method FilterLostFailed(nodes: seq<IPNode>) returns (r: seq<IPNode>)
    ensures r == Healthy(nodes)
    ensures forall n :: n in r <==> n in nodes && !n.lost && !n.failed
  {
    r := [];
    for i := 0 to |nodes|
      invariant r == Healthy(nodes[..i])
      invariant forall n :: n in r <==> n in nodes[..i] && !n.lost && !n.failed
    {
      assert nodes[..i + 1][..i] == nodes[..i];
      if !(nodes[i].lost || nodes[i].failed) {
        r := r + [nodes[i]];
      }
    }
    assert nodes[..|nodes|] == nodes;
  }

  // ---------------------------------------------------------------- local nodes

  datatype Worker = Worker(ip: IP, lost: bool, failed: bool, podV3: bool,
                           serviceOffline: bool, online: bool, standby: bool)

  predicate Hosted(w: Worker, skyline: bool) {
    w.ip != "" && !(skyline && w.podV3)
  }

  predicate Publishable(w: Worker, skyline: bool) {
    Hosted(w, skyline) && (skyline || (!w.serviceOffline && w.online)) && !w.standby
  }

  /** Skyline is the one registry type that is not updated gracefully. */
  method GetLocalNodes(workers: seq<Worker>, skyline: bool) returns (publish: seq<IPNode>, all: seq<IPNode>)
    ensures forall ip :: ip in IPs(all) <==> exists w :: w in workers && Hosted(w, skyline) && w.ip == ip
    ensures forall ip :: ip in IPs(publish) <==> exists w :: w in workers && Publishable(w, skyline) && w.ip == ip
    ensures IPs(publish) <= IPs(all)
  {
    publish, all := [], [];
    var graceful := !skyline;
    for i := 0 to |workers|
      invariant forall ip :: ip in IPs(all) <==> exists w :: w in workers[..i] && Hosted(w, skyline) && w.ip == ip
      invariant forall ip :: ip in IPs(publish) <==> exists w :: w in workers[..i] && Publishable(w, skyline) && w.ip == ip
    {
      var w := workers[i];
      assert workers[..i + 1] == workers[..i] + [w];
      if w.ip == "" { continue; }
      var node := IPNode(w.ip, w.lost, w.failed, false);
      if skyline && w.podV3 { continue; }
      AppendIPs(all, [node]);
      all := all + [node];
      if graceful && w.serviceOffline { continue; }
      if graceful && !w.online { continue; }
      if w.standby { continue; }
      AppendIPs(publish, [node]);
      publish := publish + [node];
    }
    assert workers[..|workers|] == workers;
  }

  // ---------------------------------------------------------------- one sync

  function NeedAdd(T: seq<IPNode>, L: seq<IPNode>, R: seq<IPNode>): seq<IPNode> {
    Pick(IPs(T) - IPs(L) * IPs(R), L)
  }

  function NeedDelete(P: seq<IPNode>, T: seq<IPNode>, L: seq<IPNode>, R: seq<IPNode>): seq<IPNode> {
    Pick((IPs(L) * IPs(R) - IPs(T)) * IPs(P) + (IPs(P) - IPs(L)), R)
  }

  function NeedUpdate(T: seq<IPNode>, L: seq<IPNode>, R: seq<IPNode>): seq<IPNode> {
    Pick(IPs(T) * (IPs(L) * IPs(R)), L)
  }

  function Intersect(a: seq<IPNode>, b: seq<IPNode>): seq<IPNode> {
    Pick(IPs(a) * IPs(b), a)
  }

  function Union(a: seq<IPNode>, b: seq<IPNode>): seq<IPNode> {
    PickOnce(IPs(a) + IPs(b), Flatten([a, b]))
  }

  function Marked(nodes: seq<IPNode>): seq<IPNode> {
    seq(|nodes|, i requires 0 <= i < |nodes| => nodes[i].(newAdded := true))
  }

  lemma {:induction false} MarkedIPs(nodes: seq<IPNode>)
    ensures IPs(Marked(nodes)) == IPs(nodes)
  {
    if nodes != [] {
      var k := |nodes| - 1;
      assert Marked(nodes)[..k] == Marked(nodes[..k]);
      MarkedIPs(nodes[..k]);
    }
  }

  lemma UnionIPs(a: seq<IPNode>, b: seq<IPNode>)
    ensures IPs(Union(a, b)) == IPs(a) + IPs(b)
  {
    PickOnceIPs(IPs(a) + IPs(b), Flatten([a, b]));
    assert [a, b][..1] == [a] && [a][..0] == [];
    assert Flatten([a]) == a;
    assert Flatten([a, b]) == a + b;
    AppendIPs(a, b);
  }

  /** Which registry calls succeed; a failed call changes nothing. */
  datatype Calls = Calls(add: bool, update: bool, delete: bool)

  /** What a sync really added and deleted, and the node list it returns. */
  datatype Effect = Effect(added: seq<IPNode>, deleted: seq<IPNode>, remotes: seq<IPNode>)

  function Kept(seen: seq<IPNode>, L: seq<IPNode>, P: seq<IPNode>): seq<IPNode> {
    Union(Intersect(seen, L), Intersect(seen, P))
  }

  function SyncEffect(P: seq<IPNode>, T: seq<IPNode>, L: seq<IPNode>, R: seq<IPNode>, softDelete: bool, calls: Calls): Effect {
    var adds := NeedAdd(T, L, R);
    var dels := NeedDelete(P, T, L, R);
    var upds := NeedUpdate(T, L, R);
    if adds == [] && dels == [] && upds == [] then Effect([], [], Intersect(R, L)) else
    var adding := Healthy(adds) != [] && !softDelete;
    if adding && !calls.add then Effect([], [], Kept(R, L, P)) else
    var added := if adding then Marked(Healthy(adds)) else [];
    var cut := (Healthy(upds) != [] && !calls.update) || (dels != [] && !calls.delete);
    Effect(added, if cut then [] else dels, Kept(R + added, L, P))
  }

  lemma NeedSets(P: seq<IPNode>, T: seq<IPNode>, L: seq<IPNode>, R: seq<IPNode>)
    ensures IPs(NeedAdd(T, L, R)) == IPs(T) * IPs(L) - IPs(R)
    ensures IPs(Healthy(NeedAdd(T, L, R))) == (IPs(T) - IPs(R)) * IPs(Healthy(L))
    ensures IPs(NeedDelete(P, T, L, R)) == IPs(R) * ((IPs(L) - IPs(T)) * IPs(P) + (IPs(P) - IPs(L)))
    ensures IPs(NeedUpdate(T, L, R)) == IPs(T) * IPs(L) * IPs(R)
    ensures IPs(Healthy(NeedUpdate(T, L, R))) == IPs(T) * IPs(R) * IPs(Healthy(L))
    ensures Healthy(NeedAdd(T, L, R)) == [] <==> (IPs(T) - IPs(R)) * IPs(Healthy(L)) == {}
    ensures NeedDelete(P, T, L, R) == [] <==> IPs(NeedDelete(P, T, L, R)) == {}
    ensures Healthy(NeedUpdate(T, L, R)) == [] <==> IPs(T) * IPs(R) * IPs(Healthy(L)) == {}
  {
    NeedAddSets(T, L, R);
    NeedUpdateSets(T, L, R);
    PickIPs((IPs(L) * IPs(R) - IPs(T)) * IPs(P) + (IPs(P) - IPs(L)), R);
    NoIPs(Healthy(NeedAdd(T, L, R)));
    NoIPs(Healthy(NeedUpdate(T, L, R)));
    NoIPs(NeedDelete(P, T, L, R));
    hide IPs, Pick, Healthy, NeedAdd, NeedUpdate;
  }

  lemma NoIPs(nodes: seq<IPNode>)
    ensures nodes == [] <==> IPs(nodes) == {}
  {
  }

  lemma NeedAddSets(T: seq<IPNode>, L: seq<IPNode>, R: seq<IPNode>)
    ensures IPs(NeedAdd(T, L, R)) == IPs(T) * IPs(L) - IPs(R)
    ensures IPs(Healthy(NeedAdd(T, L, R))) == (IPs(T) - IPs(R)) * IPs(Healthy(L))
  {
    PickIPs(IPs(T) - IPs(L) * IPs(R), L);
    HealthyPickIPs(IPs(T) - IPs(L) * IPs(R), L);
    HealthySubset(L);
    hide IPs, Pick, Healthy;
  }

  lemma NeedUpdateSets(T: seq<IPNode>, L: seq<IPNode>, R: seq<IPNode>)
    ensures IPs(NeedUpdate(T, L, R)) == IPs(T) * IPs(L) * IPs(R)
    ensures IPs(Healthy(NeedUpdate(T, L, R))) == IPs(T) * IPs(R) * IPs(Healthy(L))
  {
    PickIPs(IPs(T) * (IPs(L) * IPs(R)), L);
    HealthyPickIPs(IPs(T) * (IPs(L) * IPs(R)), L);
    HealthySubset(L);
    hide IPs, Pick, Healthy;
  }

  lemma KeptIPs(seen: seq<IPNode>, L: seq<IPNode>, P: seq<IPNode>)
    ensures IPs(Kept(seen, L, P)) == IPs(seen) * (IPs(L) + IPs(P))
  {
    UnionIPs(Intersect(seen, L), Intersect(seen, P));
    PickIPs(IPs(seen) * IPs(L), seen);
    PickIPs(IPs(seen) * IPs(P), seen);
  }

  /** What one sync may do: add planned local nodes that are absent, delete recorded nodes it saw and never a planned one. */
  predicate SyncWithin(e: Effect, P: seq<IPNode>, T: seq<IPNode>, L: seq<IPNode>, R: seq<IPNode>) {
    && IPs(e.added) <= IPs(T) * IPs(L) - IPs(R)
    && IPs(e.deleted) <= IPs(P) * IPs(R) && IPs(e.deleted) !! IPs(T) * IPs(L)
    && IPs(e.remotes) == (IPs(R) + IPs(e.added)) * (IPs(L) + IPs(P))
  }

  /** With nothing to do, the registered nodes of the record are local, so the short answer is the full one. */
  lemma SyncEarly(P: seq<IPNode>, T: seq<IPNode>, L: seq<IPNode>, R: seq<IPNode>)
    requires NeedDelete(P, T, L, R) == []
    ensures SyncWithin(Effect([], [], Intersect(R, L)), P, T, L, R)
  {
    NeedSets(P, T, L, R);
    PickIPs(IPs(R) * IPs(L), R);
    assert IPs([]) == {} && IPs(Intersect(R, L)) == IPs(R) * IPs(L);
    hide IPs, Pick, NeedDelete, NeedAdd, Healthy;
  }

  lemma SyncFull(P: seq<IPNode>, T: seq<IPNode>, L: seq<IPNode>, R: seq<IPNode>, added: seq<IPNode>, deleted: seq<IPNode>)
    requires added == [] || added == Marked(Healthy(NeedAdd(T, L, R)))
    requires deleted == [] || deleted == NeedDelete(P, T, L, R)
    ensures SyncWithin(Effect(added, deleted, Kept(R + added, L, P)), P, T, L, R)
  {
    NeedSets(P, T, L, R);
    HealthySubset(NeedAdd(T, L, R));
    MarkedIPs(Healthy(NeedAdd(T, L, R)));
    AppendIPs(R, added);
    KeptIPs(R + added, L, P);
    assert IPs([]) == {};
    hide IPs, Pick, NeedDelete, NeedAdd, Healthy, Marked, Kept;
  }

  /** The sets behind one sync, whatever calls fail. */
  lemma SyncSets(P: seq<IPNode>, T: seq<IPNode>, L: seq<IPNode>, R: seq<IPNode>, softDelete: bool, calls: Calls)
    ensures SyncWithin(SyncEffect(P, T, L, R, softDelete, calls), P, T, L, R)
  {
    hide SyncWithin, NeedAdd, NeedDelete, NeedUpdate, Healthy, Marked, Kept, Intersect;
    var e := SyncEffect(P, T, L, R, softDelete, calls);
    if NeedAdd(T, L, R) == [] && NeedDelete(P, T, L, R) == [] && NeedUpdate(T, L, R) == [] {
      SyncEarly(P, T, L, R);
    } else {
      assert R + [] == R;
      SyncFull(P, T, L, R, e.added, e.deleted);
    }
  }

  /**
   Exactly what a sync does, in sets: it adds the planned healthy nodes that are absent, unless soft delete is on or the
   add fails, marked as new; and it deletes the registered nodes of the record that are unplanned or no longer local,
   soft delete or not, unless an add, update or delete that was due failed.
   */
  lemma SyncExact(P: seq<IPNode>, T: seq<IPNode>, L: seq<IPNode>, R: seq<IPNode>, softDelete: bool, calls: Calls)
    ensures var e := SyncEffect(P, T, L, R, softDelete, calls);
            var adds := (IPs(T) - IPs(R)) * IPs(Healthy(L));
            var upds := IPs(T) * IPs(R) * IPs(Healthy(L));
            var dels := IPs(R) * ((IPs(L) - IPs(T)) * IPs(P) + (IPs(P) - IPs(L)));
            var failed := || (adds != {} && !softDelete && !calls.add) || (upds != {} && !calls.update) || (dels != {} && !calls.delete);
            && IPs(e.added) == (if softDelete || !calls.add then {} else adds)
            && IPs(e.deleted) == (if failed then {} else dels)
            && forall n :: n in e.added ==> n.newAdded
  {
    NeedSets(P, T, L, R);
    MarkedIPs(Healthy(NeedAdd(T, L, R)));
    assert forall n :: n in Marked(Healthy(NeedAdd(T, L, R))) ==> n.newAdded;
    NoIPs(NeedAdd(T, L, R));
    assert IPs([]) == {} && Healthy([]) == [];
    hide IPs, Pick, NeedDelete, NeedAdd, NeedUpdate, Healthy, Marked, Kept;
  }

  /** With every call succeeding, nothing is held back but lost and failed nodes and, under soft delete, additions. */
  lemma SyncAllDone(P: seq<IPNode>, T: seq<IPNode>, L: seq<IPNode>, R: seq<IPNode>, softDelete: bool)
    ensures var e := SyncEffect(P, T, L, R, softDelete, Calls(true, true, true));
            && IPs(e.added) == (if softDelete then {} else (IPs(T) - IPs(R)) * IPs(Healthy(L)))
            && IPs(e.deleted) == IPs(R) * ((IPs(L) - IPs(T)) * IPs(P) + (IPs(P) - IPs(L)))
  {
    SyncExact(P, T, L, R, softDelete, Calls(true, true, true));
    hide SyncEffect, IPs, Healthy;
  }

  // ---------------------------------------------------------------- rounds

  /** Edits that other publishers make to the shared registry at some moment. */
  datatype Foreign = Foreign(removed: set<IP>, added: seq<IPNode>)

  datatype Query = Answered | Unavailable | Errored

  /**
   Everything one round of the publish task depends on besides the saved record:
   the workers, the flags of the service, which calls succeed, and what others do
   to the registry before the query, before the add and before the delete.
   */
  datatype Round = Round(
    local: seq<IPNode>, toPublish: seq<IPNode>, releasing: bool, softDelete: bool,
    created: bool, query: Query, calls: Calls, saved: bool,
    workersUpdated: bool, conditionsRemoved: bool, softCleared: bool, finalizerRemoved: bool, deleted: bool,
    beforeQuery: Foreign, beforeAdd: Foreign, beforeDelete: Foreign)

  /**
   `nodes` is the shared registry, `mine` the addresses this publisher added that have
   stayed registered since, `ips` and the older `ipList` the saved record.
   */
  datatype World = World(nodes: seq<IPNode>, mine: set<IP>, ips: seq<IP>, ipList: seq<IPNode>, finalised: bool)

  function Nodes(ips: seq<IP>): seq<IPNode> {
    seq(|ips|, i requires 0 <= i < |ips| => IPNode(ips[i], false, false, false))
  }

  function Addresses(nodes: seq<IPNode>): seq<IP> {
    seq(|nodes|, i requires 0 <= i < |nodes| => nodes[i].ip)
  }

  function Published(w: World): seq<IPNode> {
    w.ipList + Nodes(w.ips)
  }

  function Record(w: World): set<IP> {
    IPs(Published(w))
  }

  function Without(nodes: seq<IPNode>, s: set<IP>): seq<IPNode> {
    Pick(IPs(nodes) - s, nodes)
  }

  function Disturb(w: World, f: Foreign): World {
    w.(nodes := Without(w.nodes, f.removed) + f.added, mine := w.mine - f.removed)
  }

  function Add(w: World, nodes: seq<IPNode>): World {
    w.(nodes := w.nodes + nodes, mine := w.mine + IPs(nodes))
  }

  function Delete(w: World, nodes: seq<IPNode>): World {
    w.(nodes := Without(w.nodes, IPs(nodes)), mine := w.mine - IPs(nodes))
  }

  /** The status is written only when the address list differs; `ipList` is not compared. */
  function Save(w: World, remotes: seq<IPNode>): World {
    if Addresses(remotes) == w.ips then w else w.(ips := Addresses(remotes), ipList := [])
  }

  function Local(r: Round): seq<IPNode> {
    if r.releasing then [] else r.local
  }

  function ToPublish(r: Round): seq<IPNode> {
    if r.releasing then [] else r.toPublish
  }

  /** What the sync of round `r` does when the registry is `R` at the query. */
  function EffectOf(w: World, r: Round): Effect {
    if r.created && r.query.Answered? then
      SyncEffect(Published(w), ToPublish(r), Local(r), Disturb(w, r.beforeQuery).nodes, r.softDelete, r.calls)
    else Effect([], [], [])
  }

  function Registered(w: World, r: Round): World {
    var e := EffectOf(w, r);
    Delete(Disturb(Add(Disturb(Disturb(w, r.beforeQuery), r.beforeAdd), e.added), r.beforeDelete), e.deleted)
  }

  /** The releasing exit and the soft-delete exit of a round. */
  predicate Releases(w: World, r: Round) {
    r.releasing && Published(w) == [] && EffectOf(w, r).remotes == [] && r.conditionsRemoved
  }

  /** A service being released is gone with its finalizer; any other has to be deleted as well. */
  predicate Finalises(w: World, r: Round) {
    && !(r.created && r.query.Unavailable?)
    && r.workersUpdated && r.finalizerRemoved
    && (Releases(w, r) || (r.softDelete && r.softCleared && EffectOf(w, r).remotes == [] && (r.deleted || r.releasing)))
  }

  function Bystander(w: World, r: Round): World {
    Disturb(Disturb(Disturb(w, r.beforeQuery), r.beforeAdd), r.beforeDelete)
  }

  /** Registry and record after the calls of a round. */
  function Recorded(w: World, r: Round): World {
    if r.created && r.query.Answered? && r.saved then Save(Registered(w, r), EffectOf(w, r).remotes) else Registered(w, r)
  }

  function Step(w: World, r: Round): World {
    if w.finalised then Bystander(w, r) else Recorded(w, r).(finalised := Finalises(w, r))
  }

  function Run(w: World, rounds: seq<Round>): World
    decreases |rounds|
  {
    if rounds == [] then w else Run(Step(w, rounds[0]), rounds[1..])
  }

  // ---------------------------------------------------------------- no leak

  /** Every address this publisher added and that is still registered is in its record. */
  predicate NoLeak(w: World) {
    w.mine <= IPs(w.nodes) && w.mine <= Record(w)
  }

  lemma {:induction false} NodesIPs(ips: seq<IP>)
    ensures forall ip :: ip in ips <==> ip in IPs(Nodes(ips))
  {
    if ips != [] {
      var k := |ips| - 1;
      assert Nodes(ips)[..k] == Nodes(ips[..k]);
      NodesIPs(ips[..k]);
      assert ips == ips[..k] + [ips[k]];
    }
  }

  lemma {:induction false} AddressesIPs(nodes: seq<IPNode>)
    ensures IPs(Nodes(Addresses(nodes))) == IPs(nodes)
  {
    if nodes != [] {
      var k := |nodes| - 1;
      assert Nodes(Addresses(nodes))[..k] == Nodes(Addresses(nodes[..k]));
      AddressesIPs(nodes[..k]);
    }
  }

  /** A save leaves a record that covers the returned nodes and invents nothing. */
  lemma SaveCovers(w: World, remotes: seq<IPNode>)
    ensures var s := Save(w, remotes);
            && s.nodes == w.nodes && s.mine == w.mine
            && IPs(remotes) <= Record(s) <= IPs(remotes) + Record(w)
            && (Addresses(remotes) != w.ips ==> Record(s) == IPs(remotes))
  {
    AddressesIPs(remotes);
    AppendIPs(w.ipList, Nodes(w.ips));
    assert [] + Nodes(Addresses(remotes)) == Nodes(Addresses(remotes));
  }

  /** Registry contents and ownership after the calls of one round. */
  lemma RegisteredSets(w: World, r: Round)
    ensures var e := EffectOf(w, r);
            var g := Registered(w, r);
            && g.mine == (((w.mine - r.beforeQuery.removed - r.beforeAdd.removed) + IPs(e.added)) - r.beforeDelete.removed) - IPs(e.deleted)
            && IPs(g.nodes) == ((((((IPs(w.nodes) - r.beforeQuery.removed) + IPs(r.beforeQuery.added))
                                  - r.beforeAdd.removed) + IPs(r.beforeAdd.added)) + IPs(e.added)
                                - r.beforeDelete.removed) + IPs(r.beforeDelete.added)) - IPs(e.deleted)
            && Published(g) == Published(w)
  {
    var e := EffectOf(w, r);
    var w1 := Disturb(w, r.beforeQuery);
    DisturbIPs(w, r.beforeQuery);
    var w2 := Disturb(w1, r.beforeAdd);
    DisturbIPs(w1, r.beforeAdd);
    var w3 := Add(w2, e.added);
    AppendIPs(w2.nodes, e.added);
    var w4 := Disturb(w3, r.beforeDelete);
    DisturbIPs(w3, r.beforeDelete);
    PickIPs(IPs(w4.nodes) - IPs(e.deleted), w4.nodes);
  }

  lemma DisturbIPs(w: World, f: Foreign)
    ensures IPs(Disturb(w, f).nodes) == (IPs(w.nodes) - f.removed) + IPs(f.added)
  {
    PickIPs(IPs(w.nodes) - f.removed, w.nodes);
    AppendIPs(Without(w.nodes, f.removed), f.added);
  }

  /** What is mine after the calls was either mine, recorded and registered before, or just added. */
  lemma OwnedIsReturned(w: World, r: Round)
    requires NoLeak(w) && !w.finalised && r.created && r.query.Answered?
    ensures Registered(w, r).mine <= IPs(EffectOf(w, r).remotes)
  {
    RegisteredSets(w, r);
    DisturbIPs(w, r.beforeQuery);
    SyncSets(Published(w), ToPublish(r), Local(r), Disturb(w, r.beforeQuery).nodes, r.softDelete, r.calls);
  }

  /**
   A round keeps the record complete if and only if it saves it or adds no node that
   would be missing from the old one.
   */
  lemma StepNoLeak(w: World, r: Round)
    requires NoLeak(w) && !w.finalised
    ensures NoLeak(Step(w, r)) <==>
            (r.saved || IPs(EffectOf(w, r).added) - r.beforeDelete.removed <= Record(w))
  {
    var e := EffectOf(w, r);
    RegisteredSets(w, r);
    SaveCovers(Registered(w, r), e.remotes);
    assert IPs([]) == {};
    hide SyncEffect, IPs, Registered, Disturb, Save;
    if r.created && r.query.Answered? {
      OwnedIsReturned(w, r);
      DisturbIPs(w, r.beforeQuery);
      SyncSets(Published(w), ToPublish(r), Local(r), Disturb(w, r.beforeQuery).nodes, r.softDelete, r.calls);
    }
  }

  lemma BystanderIPs(w: World, r: Round)
    ensures var b := Bystander(w, r);
            && b.mine == w.mine - r.beforeQuery.removed - r.beforeAdd.removed - r.beforeDelete.removed
            && IPs(b.nodes) == (((((IPs(w.nodes) - r.beforeQuery.removed) + IPs(r.beforeQuery.added))
                                - r.beforeAdd.removed) + IPs(r.beforeAdd.added))
                              - r.beforeDelete.removed) + IPs(r.beforeDelete.added)
  {
    DisturbIPs(w, r.beforeQuery);
    DisturbIPs(Disturb(w, r.beforeQuery), r.beforeAdd);
    DisturbIPs(Disturb(Disturb(w, r.beforeQuery), r.beforeAdd), r.beforeDelete);
  }

  /** Over any run that saves its records, whatever calls fail and whatever others do. */
  lemma {:induction false} RunNoLeak(w: World, rounds: seq<Round>)
    requires NoLeak(w)
    requires forall r :: r in rounds ==> r.saved
    ensures NoLeak(Run(w, rounds))
    decreases |rounds|
  {
    if rounds != [] {
      if w.finalised { BystanderIPs(w, rounds[0]); } else { StepNoLeak(w, rounds[0]); }
      RunNoLeak(Step(w, rounds[0]), rounds[1..]);
    }
  }

  /** An address this publisher added, still registered, and missing from its record. */
  predicate Unrecorded(w: World, ip: IP) {
    ip in w.mine && ip !in Record(w)
  }

  /**
   A round of a service whose record may have holes: only an unsaved round opens a new one, by adding the address;
   and a hole that is still registered afterwards is closed if and only if the round was answered and saved and the
   address was local.
   */
  lemma StepRecords(w: World, r: Round, ip: IP)
    requires w.mine <= IPs(w.nodes) && !w.finalised
    ensures Step(w, r).mine <= IPs(Step(w, r).nodes)
    ensures Unrecorded(Step(w, r), ip) ==> Unrecorded(w, ip) || (!r.saved && ip in IPs(EffectOf(w, r).added))
    ensures Unrecorded(w, ip) && ip in Step(w, r).mine ==>
            (ip in Record(Step(w, r)) <==> r.created && r.query.Answered? && r.saved && ip in IPs(Local(r)))
  {
    var e := EffectOf(w, r);
    RegisteredSets(w, r);
    SaveCovers(Registered(w, r), e.remotes);
    DisturbIPs(w, r.beforeQuery);
    SyncSets(Published(w), ToPublish(r), Local(r), Disturb(w, r.beforeQuery).nodes, r.softDelete, r.calls);
    assert IPs([]) == {};
    hide SyncEffect, IPs, Registered, Disturb, Save;
  }

  /** Over any run, saved or not: an address missing from the record was missing at the start or added by an unsaved round. */
  lemma {:induction false} HoleOrigin(w: World, rounds: seq<Round>, ip: IP) returns (k: nat)
    requires w.mine <= IPs(w.nodes) && Unrecorded(Run(w, rounds), ip) && !Unrecorded(w, ip)
    ensures k < |rounds| && !rounds[k].saved
    ensures ip in IPs(EffectOf(Run(w, rounds[..k]), rounds[k]).added)
    decreases |rounds|
  {
    var r, next := rounds[0], Step(w, rounds[0]);
    if w.finalised {
      BystanderIPs(w, r);
      assert Published(next) == Published(w);
    } else {
      StepRecords(w, r, ip);
    }
    hide Step, IPs, EffectOf, Record;
    if Unrecorded(next, ip) {
      k := 0;
      assert Run(w, rounds[..0]) == w;
    } else {
      var j := HoleOrigin(next, rounds[1..], ip);
      k := j + 1;
      assert rounds[..k][1..] == rounds[1..][..j] && rounds[..k][0] == r;
    }
  }

  lemma StepFinalisesClean(w: World, r: Round)
    requires NoLeak(w) && !w.finalised && Finalises(w, r)
    requires Releases(w, r) || (r.created && r.query.Answered?)
    ensures Step(w, r).mine == {}
  {
    RegisteredSets(w, r);
    DisturbIPs(w, r.beforeQuery);
    SyncSets(Published(w), ToPublish(r), Local(r), Disturb(w, r.beforeQuery).nodes, r.softDelete, r.calls);
    if r.created && r.query.Answered? { OwnedIsReturned(w, r); }
  }

  /**
   A service is finalised only when none of its nodes remain registered: always on the
   releasing path, and on the soft-delete path as long as the registry answered.
   */
  lemma {:induction false} FinalisedClean(w: World, rounds: seq<Round>)
    requires NoLeak(w) && (w.finalised ==> w.mine == {})
    requires forall r :: r in rounds ==> r.saved && (r.softDelete ==> r.created && r.query.Answered?)
    ensures Run(w, rounds).finalised ==> Run(w, rounds).mine == {}
    decreases |rounds|
  {
    if rounds != [] {
      var r := rounds[0];
      if w.finalised {
        BystanderIPs(w, r);
      } else {
        StepNoLeak(w, r);
        if Finalises(w, r) { StepFinalisesClean(w, r); }
      }
      FinalisedClean(Step(w, r), rounds[1..]);
    }
  }

  /**
   When a round finalises a service, over what it is given: the name service was not unavailable, the workers were
   updated, nothing of the record or of the local nodes is registered as far as the round knows, and either the service
   is released with an empty record and no condition left, or it is soft deleted and cleared.
   */
  lemma FinalisedExactly(w: World, r: Round)
    requires !w.finalised
    ensures var R := IPs(Disturb(w, r.beforeQuery).nodes);
            var L, T := if r.releasing then {} else IPs(r.local), if r.releasing then {} else IPs(r.toPublish);
            var HL := if r.releasing then {} else IPs(Healthy(r.local));
            var added := if r.softDelete || !r.calls.add then {} else (T - R) * HL;
            var answered := r.created && r.query.Answered?;
            Step(w, r).finalised <==>
              && !(r.created && r.query.Unavailable?) && r.workersUpdated && r.finalizerRemoved
              && (answered ==> (R + added) * (L + Record(w)) == {})
              && (|| (r.releasing && w.ips == [] && w.ipList == [] && r.conditionsRemoved)
                  || (r.softDelete && r.softCleared && (r.releasing || r.deleted)))
  {
    var seen := Disturb(w, r.beforeQuery).nodes;
    SyncExact(Published(w), ToPublish(r), Local(r), seen, r.softDelete, r.calls);
    SyncSets(Published(w), ToPublish(r), Local(r), seen, r.softDelete, r.calls);
    NoIPs(EffectOf(w, r).remotes);
    assert IPs([]) == {} && Healthy([]) == [];
    assert Published(w) == [] <==> w.ips == [] && w.ipList == [];
    hide SyncEffect, IPs, Disturb, Healthy, Registered, Published;
  }

  /** The soft-delete exit leaves nodes behind exactly when the registry gave no answer and still held some. */
  lemma SoftDeleteExit(w: World, r: Round)
    requires NoLeak(w) && !w.finalised && Finalises(w, r) && !Releases(w, r)
    ensures Step(w, r).mine != {} <==>
            !(r.created && r.query.Answered?) && w.mine - r.beforeQuery.removed - r.beforeAdd.removed - r.beforeDelete.removed != {}
  {
    RegisteredSets(w, r);
    if r.created && r.query.Answered? { StepFinalisesClean(w, r); }
  }

  const QUIET := Foreign({}, [])

  /** A query error during soft delete finalises a service whose node stays registered. */
  lemma SoftDeleteLeaks() returns (w: World, r: Round)
    ensures NoLeak(w) && !w.finalised && r.saved && r.softDelete
    ensures Step(w, r).finalised && Step(w, r).mine == {"10.0.0.1"} && "10.0.0.1" in IPs(Step(w, r).nodes)
  {
    var n := IPNode("10.0.0.1", false, false, false);
    w := World([n], {"10.0.0.1"}, ["10.0.0.1"], [], false);
    r := Round([n], [n], false, true, true, Errored, Calls(true, true, true), true, true, true, true, true, true, QUIET, QUIET, QUIET);
    assert IPs([n]) == {n.ip};
    NodesIPs(w.ips);
    assert Published(w) == Nodes(w.ips);
    RegisteredSets(w, r);
  }

  // ---------------------------------------------------------------- isolation

  function BystanderRun(w: World, rounds: seq<Round>): World
    decreases |rounds|
  {
    if rounds == [] then w else BystanderRun(Bystander(w, rounds[0]), rounds[1..])
  }

  /** A round neither adds, deletes nor records an address that is not local and not recorded. */
  lemma ForeignUntouched(w: World, r: Round, ip: IP)
    requires ip !in Record(w) && ip !in IPs(r.local)
    ensures ip !in IPs(EffectOf(w, r).added) && ip !in IPs(EffectOf(w, r).deleted) && ip !in IPs(EffectOf(w, r).remotes)
  {
    SyncSets(Published(w), ToPublish(r), Local(r), Disturb(w, r.beforeQuery).nodes, r.softDelete, r.calls);
  }

  lemma IsolatedStep(w: World, r: Round, ip: IP)
    requires ip !in Record(w) && ip !in IPs(r.local)
    ensures ip in IPs(Step(w, r).nodes) <==> ip in IPs(Bystander(w, r).nodes)
    ensures ip !in Record(Step(w, r))
  {
    if !w.finalised {
      ForeignUntouched(w, r, ip);
      RegisteredSets(w, r);
      BystanderIPs(w, r);
      SaveCovers(Registered(w, r), EffectOf(w, r).remotes);
    }
  }

  /**
   An address that is never a local node and was not recorded at the start is handled by others
   alone: whole runs leave it registered or not exactly as the other publishers' edits do.
   */
  lemma {:induction false} Isolation(w: World, others: World, rounds: seq<Round>, ip: IP)
    requires ip !in Record(w) && forall r :: r in rounds ==> ip !in IPs(r.local)
    requires ip in IPs(w.nodes) <==> ip in IPs(others.nodes)
    ensures ip in IPs(Run(w, rounds).nodes) <==> ip in IPs(BystanderRun(others, rounds).nodes)
    ensures ip !in Record(Run(w, rounds))
    decreases |rounds|
  {
    if rounds != [] {
      IsolatedStep(w, rounds[0], ip);
      BystanderIPs(w, rounds[0]);
      BystanderIPs(others, rounds[0]);
      Isolation(Step(w, rounds[0]), Bystander(others, rounds[0]), rounds[1..], ip);
    }
  }

  // ---------------------------------------------------------------- convergence

  function Repeat(w: World, r: Round, n: nat): World {
    if n == 0 then w else Step(Repeat(w, r, n - 1), r)
  }

  predicate Undisturbed(r: Round) {
    && r.created && r.query.Answered? && r.calls == Calls(true, true, true) && r.saved
    && r.beforeQuery == QUIET && r.beforeAdd == QUIET && r.beforeDelete == QUIET
  }

  /** A round of a fixed plan; under soft delete, one that does not end the service. */
  predicate Calm(r: Round) {
    Undisturbed(r) && (r.softDelete ==> !r.softCleared) && !r.releasing && IPs(r.toPublish) <= IPs(r.local)
  }

  /** What may be added: nothing under soft delete. */
  function Addable(r: Round): set<IP> {
    if r.softDelete then {} else IPs(Healthy(r.local))
  }

  lemma UndisturbedSets(w: World, r: Round)
    requires Undisturbed(r)
    ensures var e := EffectOf(w, r);
            && IPs(Disturb(w, r.beforeQuery).nodes) == IPs(w.nodes)
            && IPs(Registered(w, r).nodes) == IPs(w.nodes) + IPs(e.added) - IPs(e.deleted)
            && Published(Registered(w, r)) == Published(w)
  {
    RegisteredSets(w, r);
    DisturbIPs(w, QUIET);
  }

  lemma CalmStep(w: World, r: Round)
    requires !w.finalised && Calm(r)
    ensures var R, P, T, L := IPs(w.nodes), Record(w), IPs(r.toPublish), IPs(r.local);
            var added := (T - R) * Addable(r);
            var s := Step(w, r);
            && !s.finalised
            && IPs(s.nodes) == R + added - ((L - T) * P + (P - L))
            && (R + added) * (L + P) <= Record(s) <= L + P
  {
    UndisturbedSets(w, r);
    var seen := Disturb(w, r.beforeQuery).nodes;
    SyncAllDone(Published(w), r.toPublish, r.local, seen, r.softDelete);
    SyncSets(Published(w), r.toPublish, r.local, seen, r.softDelete, r.calls);
    SaveCovers(Registered(w, r), EffectOf(w, r).remotes);
    HealthySubset(r.local);
    assert !Finalises(w, r);
    hide SyncEffect, IPs, Healthy, Registered, Disturb, Save, Finalises;
  }

  /** The registry a fixed plan settles on: the plan's nodes, and whatever was never this publisher's. */
  function Goal(w: World, r: Round): set<IP> {
    var R, P, T, L := IPs(w.nodes), Record(w), IPs(r.toPublish), IPs(r.local);
    T * (R + Addable(r)) + (R - L - P)
  }

  /** What holds after any round but the first: local nodes seen in the registry are recorded, garbage is gone. */
  predicate Caught(w: World, r: Round) {
    var R, P, T, L := IPs(w.nodes), Record(w), IPs(r.toPublish), IPs(r.local);
    !w.finalised && R * L <= P && (P - L) !! R && T * Addable(r) <= R
  }

  lemma LaterRound(w: World, r: Round)
    requires Calm(r) && Caught(w, r)
    ensures Caught(Step(w, r), r)
    ensures IPs(Step(w, r).nodes) == IPs(w.nodes) - (IPs(r.local) - IPs(r.toPublish))
  {
    hide IPs, Healthy, Record, Step;
    CalmStep(w, r);
  }

  lemma FirstRound(w: World, r: Round)
    requires !w.finalised && Calm(r)
    ensures Caught(Step(w, r), r)
    ensures IPs(Step(w, r).nodes) - (IPs(r.local) - IPs(r.toPublish)) == Goal(w, r)
    ensures IPs(Step(w, r).nodes) == Goal(w, r) <==> IPs(w.nodes) * IPs(r.local) - IPs(r.toPublish) <= Record(w)
  {
    hide IPs, Healthy, Record, Step;
    CalmStep(w, r);
    HealthySubset(r.local);
    var R, P, T, L := IPs(w.nodes), Record(w), IPs(r.toPublish), IPs(r.local);
    if R * L - T <= P {
      assert IPs(Step(w, r).nodes) == Goal(w, r);
    } else {
      var ip :| ip in R * L - T && ip !in P;
      assert ip in IPs(Step(w, r).nodes) && ip !in Goal(w, r);
    }
  }

  /**
   From any start, two or more undisturbed rounds of a fixed plan leave exactly the goal registered;
   one round is enough if and only if every unwanted local node in the registry was recorded.
   */
  lemma {:induction false} Converges(w: World, r: Round, n: nat)
    requires !w.finalised && Calm(r) && n >= 1
    ensures Caught(Repeat(w, r, n), r)
    ensures n >= 2 ==> IPs(Repeat(w, r, n).nodes) == Goal(w, r)
    ensures n == 1 ==> (IPs(Repeat(w, r, n).nodes) == Goal(w, r) <==> IPs(w.nodes) * IPs(r.local) - IPs(r.toPublish) <= Record(w))
  {
    hide Step, IPs, Record, Goal, Caught, Calm;
    FirstRound(w, r);
    if n == 1 {
      assert Repeat(w, r, 0) == w;
    } else {
      Converges(w, r, n - 1);
      LaterRound(Repeat(w, r, n - 1), r);
      if n == 2 { assert Repeat(w, r, 0) == w; assert Repeat(w, r, 1) == Step(w, r); }
    }
  }

  /** With no lost or failed node, the registered local nodes become exactly the plan. */
  lemma ConvergesToPlan(w: World, r: Round, n: nat)
    requires !w.finalised && Calm(r) && !r.softDelete && n >= 2 && Healthy(r.local) == r.local
    ensures IPs(Repeat(w, r, n).nodes) * IPs(r.local) == IPs(r.toPublish)
  {
    Converges(w, r, n);
  }

  // ---------------------------------------------------------------- releasing

  predicate CalmRelease(r: Round) {
    Undisturbed(r) && r.releasing && r.workersUpdated && r.conditionsRemoved && r.finalizerRemoved
  }

  /** A legacy record whose nodes are all gone from the registry is never rewritten. */
  predicate Stuck(w: World) {
    w.ips == [] && w.ipList != [] && IPs(w.ipList) !! IPs(w.nodes)
  }

  /** The soft-delete exit is open. */
  predicate SoftClears(r: Round) {
    r.softDelete && r.softCleared
  }

  lemma ReleaseStep(w: World, r: Round)
    requires !w.finalised && CalmRelease(r)
    ensures var s := Step(w, r);
            var remotes := EffectOf(w, r).remotes;
            && IPs(remotes) == IPs(w.nodes) * Record(w)
            && IPs(s.nodes) == IPs(w.nodes) - Record(w)
            && s.ips == Addresses(remotes) && s.ipList == (if Addresses(remotes) == w.ips then w.ipList else [])
            && (s.finalised <==> Published(w) == [] || (SoftClears(r) && IPs(w.nodes) !! Record(w)))
            && IPs(s.nodes) !! Record(s)
  {
    ReleaseSync(w, r);
    FinalisedExactly(w, r);
    DisturbIPs(w, QUIET);
    SaveCovers(Registered(w, r), EffectOf(w, r).remotes);
    NoIPs(Published(w));
    assert IPs([]) == {};
    assert Published(w) == [] <==> w.ips == [] && w.ipList == [];
    assert Registered(w, r).ips == w.ips && Registered(w, r).ipList == w.ipList;
    hide SyncEffect, IPs, Healthy, EffectOf, Registered, Disturb, Addresses;
  }

  lemma ReleaseSync(w: World, r: Round)
    requires !w.finalised && CalmRelease(r)
    ensures IPs(EffectOf(w, r).remotes) == IPs(w.nodes) * Record(w)
    ensures IPs(Registered(w, r).nodes) == IPs(w.nodes) - Record(w)
    ensures Record(Registered(w, r)) == Record(w)
  {
    UndisturbedSets(w, r);
    var seen := Disturb(w, r.beforeQuery).nodes;
    SyncAllDone(Published(w), [], [], seen, r.softDelete);
    SyncSets(Published(w), [], [], seen, r.softDelete, r.calls);
    assert IPs([]) == {};
    hide SyncEffect, IPs, Healthy, Registered, Disturb;
  }

  lemma ReleaseEmpties(w: World, r: Round)
    requires !w.finalised && CalmRelease(r) && IPs(w.nodes) !! Record(w)
    ensures w.ips != [] ==> Published(Step(w, r)) == []
    ensures Stuck(w) && !SoftClears(r) ==> Stuck(Step(w, r)) && !Step(w, r).finalised
  {
    ReleaseStep(w, r);
    assert EffectOf(w, r).remotes == [];
    AppendIPs(w.ipList, Nodes(w.ips));
  }

  lemma StuckStep(w: World, r: Round)
    requires !w.finalised && CalmRelease(r) && Stuck(w) && !SoftClears(r)
    ensures Stuck(Step(w, r)) && !Step(w, r).finalised
  {
    assert Published(w) == w.ipList;
    ReleaseEmpties(w, r);
  }

  lemma {:induction false} StuckForever(w: World, r: Round, n: nat)
    requires !w.finalised && CalmRelease(r) && Stuck(w) && !SoftClears(r)
    ensures Stuck(Repeat(w, r, n)) && !Repeat(w, r, n).finalised
  {
    hide Step, Stuck;
    if n > 0 {
      StuckForever(w, r, n - 1);
      StuckStep(Repeat(w, r, n - 1), r);
    }
  }

  /** Once no recorded node is registered, a rewritable record is emptied and the service finalised. */
  lemma ReleaseEnds(w: World, r: Round)
    requires !w.finalised && CalmRelease(r) && IPs(w.nodes) !! Record(w) && (!Stuck(w) || SoftClears(r))
    ensures Step(w, r).finalised || Step(Step(w, r), r).finalised
  {
    ReleaseStep(w, r);
    ReleaseEmpties(w, r);
    if !Step(w, r).finalised {
      AppendIPs(w.ipList, Nodes(w.ips));
      ReleaseStep(Step(w, r), r);
    }
  }

  /** A round that still finds recorded nodes deletes them and leaves a rewritable record. */
  lemma ReleaseDeletes(w: World, r: Round)
    requires !w.finalised && CalmRelease(r) && !(IPs(w.nodes) !! Record(w))
    ensures !Step(w, r).finalised && !Stuck(Step(w, r)) && IPs(Step(w, r).nodes) !! Record(Step(w, r))
  {
    ReleaseStep(w, r);
  }

  /**
   Releasing an undisturbed service, soft delete or not, finalises it within three rounds, unless its record is a
   legacy list with no node left in the registry and the soft-delete exit is closed; then no number of rounds does.
   */
  lemma ReleaseFinalises(w: World, r: Round)
    requires !w.finalised && CalmRelease(r)
    ensures !Stuck(w) || SoftClears(r) <==> exists k: nat :: Repeat(w, r, k).finalised
    ensures !Stuck(w) || SoftClears(r) ==> exists k: nat :: 1 <= k <= 3 && Repeat(w, r, k).finalised
  {
    if Stuck(w) && !SoftClears(r) {
      forall k: nat ensures !Repeat(w, r, k).finalised { StuckForever(w, r, k); }
    } else {
      assert Repeat(w, r, 1) == Step(Repeat(w, r, 0), r) == Step(w, r);
      assert Repeat(w, r, 2) == Step(Repeat(w, r, 1), r);
      assert Repeat(w, r, 3) == Step(Repeat(w, r, 2), r);
      if IPs(w.nodes) !! Record(w) {
        ReleaseEnds(w, r);
      } else {
        ReleaseDeletes(w, r);
        ReleaseEnds(Step(w, r), r);
      }
    }
  }

  // ---------------------------------------------------------------- the publish task

  method Diff(P: seq<IPNode>, T: seq<IPNode>, L: seq<IPNode>, R: seq<IPNode>)
    returns (adds: seq<IPNode>, dels: seq<IPNode>, upds: seq<IPNode>)
    ensures adds == NeedAdd(T, L, R) && dels == NeedDelete(P, T, L, R) && upds == NeedUpdate(T, L, R)
  {
    var present := IPs(L) * IPs(R);
    var garbage := IPs(P) - IPs(L);
    adds := SetToSlice(IPs(T) - present, L);
    dels := SetToSlice((present - IPs(T)) * IPs(P) + garbage, R);
    upds := SetToSlice(IPs(T) * present, L);
  }

  /** The list a sync returns: early when there was nothing to do, otherwise what it saw and keeps recorded. */
  method Remaining(early: bool, seen: seq<IPNode>, L: seq<IPNode>, P: seq<IPNode>) returns (remotes: seq<IPNode>)
    ensures remotes == if early then Intersect(seen, L) else Kept(seen, L, P)
  {
    if early {
      remotes := SetToSlice(IPs(seen) * IPs(L), seen);
    } else {
      var ours := SetToSlice(IPs(seen) * IPs(L), seen);
      var recorded := SetToSlice(IPs(seen) * IPs(P), seen);
      remotes := SetToSliceBoth(IPs(ours) + IPs(recorded), [ours, recorded]);
    }
  }

  /** How one attempt to write the status ends: stored, the service gone, a conflict and whether it could be reloaded, another error. */
  datatype Attempt = Stored | Gone | Conflict(reloaded: bool) | Refused

  predicate Retried(a: Attempt) {
    a.Refused? || (a.Conflict? && a.reloaded)
  }

  /** One of the ten attempts stores the record and no earlier one gave up. */
  predicate Lands(attempts: nat -> Attempt) {
    exists k: nat :: k < 10 && attempts(k).Stored? && forall j: nat :: j < k ==> Retried(attempts(j))
  }

  class PublishTask {
    var nodes: seq<IPNode>
    ghost var mine: set<IP>
    var ips: seq<IP>
    var ipList: seq<IPNode>
    var finalised: bool

    ghost function State(): World
      reads this
    {
      World(nodes, mine, ips, ipList, finalised)
    }

    method Meanwhile(f: Foreign)
      modifies `nodes, `mine
      ensures State() == Disturb(old(State()), f)
    {
      var left := SetToSlice(IPs(nodes) - f.removed, nodes);
      nodes, mine := left + f.added, mine - f.removed;
    }

    method AddNodes(added: seq<IPNode>)
      modifies `nodes, `mine
      ensures State() == Add(old(State()), added)
    {
      nodes, mine := nodes + added, mine + IPs(added);
    }

    method DelNodes(gone: seq<IPNode>)
      modifies `nodes, `mine
      ensures State() == Delete(old(State()), gone)
    {
      var left := SetToSlice(IPs(nodes) - IPs(gone), nodes);
      nodes, mine := left, mine - IPs(gone);
    }

    /** The sync proper: add, update, delete, stopping at the first call that fails. */
    method Sync(P: seq<IPNode>, T: seq<IPNode>, L: seq<IPNode>, softDelete: bool,
                calls: Calls, beforeAdd: Foreign, beforeDelete: Foreign) returns (remotes: seq<IPNode>)
      modifies `nodes, `mine
      ensures var e := SyncEffect(P, T, L, old(nodes), softDelete, calls);
              && State() == Delete(Disturb(Add(Disturb(old(State()), beforeAdd), e.added), beforeDelete), e.deleted)
              && remotes == e.remotes
    {
      hide NeedAdd, NeedDelete, NeedUpdate, Healthy, Kept, Intersect, Marked, Pick;
      var R := nodes;
      var adds, dels, upds := Diff(P, T, L, R);
      var seen, removed, early := R, [], false;
      Meanwhile(beforeAdd);
      assert nodes + [] == nodes && R + [] == R;
      label End: {
        if adds == [] && dels == [] && upds == [] {
          early := true;
          break End;
        }
        adds := FilterLostFailed(adds);
        if adds != [] && !softDelete {
          if !calls.add { break End; }
          adds := Marked(adds);
          AddNodes(adds);
          seen := seen + adds;
        }
        upds := FilterLostFailed(upds);
        if upds != [] && !calls.update { break End; }
        if dels != [] && calls.delete { removed := dels; }
      }
      ghost var e := SyncEffect(P, T, L, R, softDelete, calls);
      assert e.deleted == removed && (early || seen == R + e.added);
      assert State() == Add(Disturb(old(State()), beforeAdd), e.added);
      Meanwhile(beforeDelete);
      DelNodes(removed);
      remotes := Remaining(early, seen, L, P);
    }

    /** Up to ten attempts; a status that compares equal is not written at all. */
    method SaveRemoteNodes(remotes: seq<IPNode>, attempts: nat -> Attempt)
      modifies `ips, `ipList
      ensures State() == if Lands(attempts) then Save(old(State()), remotes) else old(State())
    {
      var current := Addresses(remotes);
      if current == ips { return; }
      for i := 0 to 10
        invariant ips == old(ips) && ipList == old(ipList)
        invariant forall j: nat :: j < i ==> Retried(attempts(j))
      {
        var a := attempts(i);
        if a.Stored? {
          assert Lands(attempts);
          ips, ipList := current, [];
          return;
        }
        if !Retried(a) {
          assert forall k: nat :: attempts(k).Stored? && k > i ==> !Retried(attempts(i));
          return;
        }
      }
    }

    /** The calls of a round: query, sync and save. */
    method Publish(r: Round, attempts: nat -> Attempt) returns (remotes: seq<IPNode>)
      requires r.saved == Lands(attempts)
      modifies `nodes, `mine, `ips, `ipList
      ensures State() == Recorded(old(State()), r) && remotes == EffectOf(old(State()), r).remotes
    {
      hide SyncEffect, IPs, Pick, Nodes, Addresses, Lands;
      var published := ipList + Nodes(ips);
      var T, L := [], [];
      if !r.releasing { T, L := r.toPublish, r.local; }
      Meanwhile(r.beforeQuery);
      if r.created && r.query.Answered? {
        remotes := Sync(published, T, L, r.softDelete, r.calls, r.beforeAdd, r.beforeDelete);
        SaveRemoteNodes(remotes, attempts);
      } else {
        remotes := [];
        Meanwhile(r.beforeAdd);
        AddNodes([]);
        Meanwhile(r.beforeDelete);
        DelNodes([]);
      }
    }

    /** Removing the finalizer, and deleting a service that is not being deleted already. */
    method DeleteService(r: Round)
      modifies `finalised
      ensures finalised == (old(finalised) || (r.finalizerRemoved && (r.releasing || r.deleted)))
    {
      if !r.finalizerRemoved { return; }
      if r.releasing || r.deleted { finalised := true; }
    }

    /** One round of the publish task. */
    method SyncRound(r: Round, attempts: nat -> Attempt)
      requires r.saved == Lands(attempts)
      modifies this
      ensures State() == Step(old(State()), r)
    {
      hide SyncEffect, Recorded, EffectOf, Lands, Disturb;
      if finalised {
        Meanwhile(r.beforeQuery);
        Meanwhile(r.beforeAdd);
        Meanwhile(r.beforeDelete);
        return;
      }
      var published := ipList + Nodes(ips);
      var remotes := Publish(r, attempts);
      if r.created && r.query.Unavailable? { return; }
      if !r.workersUpdated { return; }
      if r.releasing && published == [] && remotes == [] && r.conditionsRemoved {
        DeleteService(r);
        return;
      }
      if r.softDelete && r.softCleared && remotes == [] {
        DeleteService(r);
      }
    }
  }
}
