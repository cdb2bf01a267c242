/**
 The three-way pod merge: what the pod holds now, what was declared for it last
 time, and what is declared for it now. Keyed sections (labels, annotations,
 resources) merge as maps; volumes, mounts, tolerations, envs and containers merge
 as ordered lists of keyed entries.
 */
module PodSpecMerger {
  import opened Wrappers

  type Key = string

  // ---------------------------------------------------------------- maps

  /** Everything declared last time and no longer is removed, then the target overrides. */
  function MergeKVs<V>(target: map<Key, V>, current: map<Key, V>, last: set<Key>): map<Key, V> {
    (current - (last - target.Keys)) + target
  }

  method MergeGenericKVs<V>(target: map<Key, V>, current: map<Key, V>, last: set<Key>) returns (r: map<Key, V>)
    ensures r == MergeKVs(target, current, last)
  {
    var toDelete := last - target.Keys;
    r := map[];
    var todo := current.Keys;
    while todo != {}
      invariant todo <= current.Keys
      invariant r == map k | k in current && k !in todo && k !in toDelete :: current[k]
    {
      var k :| k in todo;
      todo := todo - {k};
      if k in toDelete { continue; }
      r := r[k := current[k]];
    }
    assert r == current - toDelete;
    ghost var kept := r;
    todo := target.Keys;
    while todo != {}
      invariant todo <= target.Keys
      invariant r == kept + map k | k in target && k !in todo :: target[k]
    {
      var k :| k in todo;
      todo := todo - {k};
      r := r[k := target[k]];
    }
    assert (map k | k in target && k !in todo :: target[k]) == target;
  }

  // ---------------------------------------------------------------- reconciling a section

  /** A keyed section of a pod, with the keys recorded as declared in it (absent or unreadable: None). */
  datatype Section<V> = Section(kvs: map<Key, V>, declared: Option<set<Key>>)

  /**
   Without a readable record the target is taken as it is. What is recorded is given apart: the target's own keys for
   labels, tolerations and containers, one key more for annotations, the keys of all containers for resources and
   environments, and the mount keys for volumes.
   */
  function Reconcile<V>(s: Section<V>, target: map<Key, V>, recorded: set<Key>): Section<V> {
    Section(if s.declared.None? then target else MergeKVs(target, s.kvs, s.declared.value), Some(recorded))
  }

  method MergeSection<V>(s: Section<V>, target: map<Key, V>, recorded: set<Key>) returns (r: Section<V>)
    ensures r == Reconcile(s, target, recorded)
  {
    var kvs := target;
    if s.declared.Some? {
      var merged := MergeGenericKVs(target, s.kvs, s.declared.value);
      // an empty merge leaves the target's own section, which is then empty as well
      if |merged| > 0 { kvs := merged; }
      else { assert target.Keys <= merged.Keys; assert target == merged; }
    }
    r := Section(kvs, Some(recorded));
  }

  /** A reconcile, or an edit by anyone else (which leaves the record alone). */
  datatype Event<V> = Declare(target: map<Key, V>, recorded: set<Key>) | Put(key: Key, value: V) | Drop(key: Key)

  function Apply<V>(s: Section<V>, e: Event<V>): Section<V> {
    match e
    case Declare(target, recorded) => Reconcile(s, target, recorded)
    case Put(key, value) => s.(kvs := s.kvs[key := value])
    case Drop(key) => s.(kvs := s.kvs - {key})
  }

  function Run<V>(s: Section<V>, events: seq<Event<V>>): Section<V> {
    if events == [] then s else Apply(Run(s, events[..|events| - 1]), events[|events| - 1])
  }

  /** The edits of others alone, every reconcile left out. */
  function OthersOnly<V>(kvs: map<Key, V>, events: seq<Event<V>>): map<Key, V> {
    if events == [] then kvs else
    var before := OthersOnly(kvs, events[..|events| - 1]);
    match events[|events| - 1]
    case Declare(_, _) => before
    case Put(key, value) => before[key := value]
    case Drop(key) => before - {key}
  }

  function Look<V>(m: map<Key, V>, k: Key): Option<V> {
    if k in m then Some(m[k]) else None
  }

  /** What one key goes through: its value, and whether the last reconcile recorded it. */
  datatype View<V> = View(value: Option<V>, owned: bool)

  function KeyStep<V>(v: View<V>, e: Event<V>, k: Key): View<V> {
    match e
    case Declare(target, recorded) => View(if k in target then Some(target[k]) else if v.owned then None else v.value, k in recorded)
    case Put(key, value) => if key == k then v.(value := Some(value)) else v
    case Drop(key) => if key == k then v.(value := None) else v
  }

  function KeyRun<V>(v: View<V>, events: seq<Event<V>>, k: Key): View<V> {
    if events == [] then v else KeyStep(KeyRun(v, events[..|events| - 1], k), events[|events| - 1], k)
  }

  /**
   One reconcile at one key: declared keys take the target's value, keys recorded last time and not declared now
   are gone, and any other key survives if and only if the record of the last time was readable.
   */
  lemma ReconcileAtKey<V>(s: Section<V>, target: map<Key, V>, recorded: set<Key>, k: Key)
    ensures var r := Reconcile(s, target, recorded);
            && r.declared == Some(recorded)
            && (k in target ==> Look(r.kvs, k) == Some(target[k]))
            && (k !in target && s.declared.Some? ==> Look(r.kvs, k) == if k in s.declared.value then None else Look(s.kvs, k))
            && (k !in target && s.declared.None? ==> Look(r.kvs, k) == None)
            && (k !in target && k in s.kvs ==> (k in r.kvs <==> s.declared.Some? && k !in s.declared.value))
  {
  }

  /** Any sequence of reconciles and outside edits treats each key on its own, as `KeyRun` says. */
  lemma {:induction false} RunAtKey<V>(s: Section<V>, events: seq<Event<V>>, k: Key)
    requires s.declared.Some?
    ensures var r := Run(s, events);
            r.declared.Some? && View(Look(r.kvs, k), k in r.declared.value) == KeyRun(View(Look(s.kvs, k), k in s.declared.value), events, k)
  {
    if events != [] {
      var init, last := events[..|events| - 1], events[|events| - 1];
      RunAtKey(s, init, k);
      if last.Declare? { ReconcileAtKey(Run(s, init), last.target, last.recorded, k); }
    }
  }

  /** A key that no reconcile ever declares or records holds exactly what the others made it. */
  lemma {:induction false} OthersKeysSurvive<V>(s: Section<V>, events: seq<Event<V>>, k: Key)
    requires s.declared.Some? && k !in s.declared.value
    requires forall e :: e in events && e.Declare? ==> k !in e.target && k !in e.recorded
    ensures Run(s, events).declared.Some? && k !in Run(s, events).declared.value
    ensures Look(Run(s, events).kvs, k) == Look(OthersOnly(s.kvs, events), k)
  {
    if events != [] {
      var init, last := events[..|events| - 1], events[|events| - 1];
      OthersKeysSurvive(s, init, k);
      if last.Declare? { ReconcileAtKey(Run(s, init), last.target, last.recorded, k); }
    }
  }

  /**
   Two reconciles with edits between: afterwards the new target holds; what the old one recorded and the new one does
   not declare is gone, and what it did not record is exactly as the edits left it.
   */
  lemma {:induction false} ReconcileAfterEdits<V>(s: Section<V>, previous: map<Key, V>, recorded: set<Key>, edits: seq<Event<V>>,
                                                  target: map<Key, V>, next: set<Key>)
    requires forall e :: e in edits ==> !e.Declare?
    ensures var before := Run(s, [Declare(previous, recorded)] + edits);
            var r := Run(s, [Declare(previous, recorded)] + edits + [Declare(target, next)]);
            && (forall k :: k in target ==> k in r.kvs && r.kvs[k] == target[k])
            && (forall k :: k in recorded && k !in target ==> k !in r.kvs)
            && (forall k :: k !in recorded && k !in target ==> Look(r.kvs, k) == Look(before.kvs, k))
  {
    var prefix := [Declare(previous, recorded)] + edits;
    assert (prefix + [Declare(target, next)])[..|prefix|] == prefix;
    EditsKeepRecord(s, previous, recorded, edits);
  }

  lemma {:induction false} EditsKeepRecord<V>(s: Section<V>, previous: map<Key, V>, recorded: set<Key>, edits: seq<Event<V>>)
    requires forall e :: e in edits ==> !e.Declare?
    ensures Run(s, [Declare(previous, recorded)] + edits).declared == Some(recorded)
  {
    if edits == [] {
      var first := Declare(previous, recorded);
      assert [first] + edits == [first] && [first][..0] == [];
      assert Run(s, [first]) == Apply(Run(s, []), first);
    } else {
      var init := edits[..|edits| - 1];
      EditsKeepRecord(s, previous, recorded, init);
      var all := [Declare(previous, recorded)] + edits;
      assert all[..|all| - 1] == [Declare(previous, recorded)] + init;
    }
  }

  // ---------------------------------------------------------------- lists

  datatype Entry<V> = Entry(key: Key, value: V)

  function Keys<V>(list: seq<Entry<V>>): seq<Key> {
    if list == [] then [] else [list[0].key] + Keys(list[1..])
  }

  function KeySet<V>(list: seq<Entry<V>>): set<Key> {
    if list == [] then {} else {list[0].key} + KeySet(list[1..])
  }

  predicate Unique<V>(list: seq<Entry<V>>) {
    list == [] || (list[0].key !in KeySet(list[1..]) && Unique(list[1..]))
  }

  /** The first entry of a key counts. */
  function AsMap<V>(list: seq<Entry<V>>): map<Key, V> {
    if list == [] then map[] else AsMap(list[1..])[list[0].key := list[0].value]
  }

  /** Replace the first entry of the same key, or append. */
  function Upsert<V>(list: seq<Entry<V>>, e: Entry<V>): seq<Entry<V>> {
    if list == [] then [e]
    else if list[0].key == e.key then [e] + list[1..]
    else [list[0]] + Upsert(list[1..], e)
  }

  function Patch<V>(from: seq<Entry<V>>, to: seq<Entry<V>>): seq<Entry<V>> {
    if from == [] then to else Patch(from[1..], Upsert(to, from[0]))
  }

  function Survivors<V>(list: seq<Entry<V>>, gone: set<Key>): seq<Entry<V>> {
    if list == [] then [] else
    (if list[0].key in gone then [] else [list[0]]) + Survivors(list[1..], gone)
  }

  function MergeList<V>(target: seq<Entry<V>>, current: seq<Entry<V>>, last: set<Key>): seq<Entry<V>> {
    Patch(target, Survivors(current, last - KeySet(target)))
  }

  lemma {:induction false} SurvivorsAppend<V>(a: seq<Entry<V>>, b: seq<Entry<V>>, gone: set<Key>)
    ensures Survivors(a + b, gone) == Survivors(a, gone) + Survivors(b, gone)
  {
    if a == [] {
      assert a + b == b;
    } else {
      assert (a + b)[1..] == a[1..] + b;
      SurvivorsAppend(a[1..], b, gone);
    }
  }

  lemma {:induction false} UpsertAt<V>(list: seq<Entry<V>>, e: Entry<V>, j: nat)
    requires j <= |list| && (forall i :: 0 <= i < j ==> list[i].key != e.key)
    requires j < |list| ==> list[j].key == e.key
    ensures Upsert(list, e) == if j < |list| then list[j := e] else list + [e]
  {
    if 0 < j {
      UpsertAt(list[1..], e, j - 1);
      assert list == [list[0]] + list[1..] && Upsert(list, e) == [list[0]] + Upsert(list[1..], e);
      hide Upsert;
    } else if list != [] {
      assert list[0 := e] == [e] + list[1..];
    }
  }

  method StablePatchSlice<V>(from: seq<Entry<V>>, to: seq<Entry<V>>, toDelete: set<Key>) returns (r: seq<Entry<V>>)
    ensures r == Patch(from, Survivors(to, toDelete))
  {
    if |from| == 0 && toDelete == {} {
      NothingGone(to);
      return to;
    }
    r := [];
    for i := 0 to |to|
      invariant r == Survivors(to[..i], toDelete)
    {
      SurvivorsAppend(to[..i], [to[i]], toDelete);
      assert to[..i + 1] == to[..i] + [to[i]];
      if to[i].key in toDelete { continue; }
      r := r + [to[i]];
    }
    assert to[..|to|] == to;
    for i := 0 to |from|
      invariant Patch(from[i..], r) == Patch(from, Survivors(to, toDelete))
    {
      assert from[i..][1..] == from[i + 1..];
      var e := from[i];
      var j := 0;
      while j < |r| && r[j].key != e.key
        invariant 0 <= j <= |r|
        invariant forall x :: 0 <= x < j ==> r[x].key != e.key
      {
        j := j + 1;
      }
      UpsertAt(r, e, j);
      if j < |r| {
        r := r[j := e];
      } else {
        r := r + [e];
      }
    }
  }

  method MergeSlice<V>(target: seq<Entry<V>>, current: seq<Entry<V>>, last: seq<Key>) returns (r: seq<Entry<V>>)
    ensures r == MergeList(target, current, set k | k in last)
  {
    var targetSet: set<Key> := {};
    for i := 0 to |target|
      invariant targetSet + KeySet(target[i..]) == KeySet(target)
    {
      assert target[i..][1..] == target[i + 1..];
      targetSet := targetSet + {target[i].key};
    }
    r := StablePatchSlice(target, current, (set k | k in last) - targetSet);
  }

  lemma {:induction false} NothingGone<V>(list: seq<Entry<V>>)
    ensures Survivors(list, {}) == list
  {
    if list != [] { NothingGone(list[1..]); }
  }

  // ---------------------------------------------------------------- the list form refines the map form

  lemma {:induction false} UpsertAsMap<V>(list: seq<Entry<V>>, e: Entry<V>)
    ensures AsMap(Upsert(list, e)) == AsMap(list)[e.key := e.value]
  {
    if list != [] {
      var u := Upsert(list, e);
      if list[0].key == e.key {
        assert u[1..] == list[1..];
      } else {
        assert u[1..] == Upsert(list[1..], e);
        UpsertAsMap(list[1..], e);
      }
    }
  }

  lemma {:induction false} SurvivorsAsMap<V>(list: seq<Entry<V>>, gone: set<Key>)
    ensures AsMap(Survivors(list, gone)) == AsMap(list) - gone
  {
    if list != [] {
      SurvivorsAsMap(list[1..], gone);
      var rest := Survivors(list[1..], gone);
      if list[0].key in gone {
        assert Survivors(list, gone) == rest;
      } else {
        assert Survivors(list, gone)[1..] == rest;
      }
    }
  }

  lemma {:induction false} AsMapKeys<V>(list: seq<Entry<V>>)
    ensures AsMap(list).Keys == KeySet(list)
  {
    if list != [] { AsMapKeys(list[1..]); }
  }

  /** The last entry of a key counts. */
  function LastAsMap<V>(list: seq<Entry<V>>): map<Key, V> {
    if list == [] then map[] else map[list[0].key := list[0].value] + LastAsMap(list[1..])
  }

  lemma {:induction false} LastAsMapKeys<V>(list: seq<Entry<V>>)
    ensures LastAsMap(list).Keys == KeySet(list)
    ensures Unique(list) ==> LastAsMap(list) == AsMap(list)
  {
    if list != [] {
      LastAsMapKeys(list[1..]);
      AsMapKeys(list[1..]);
    }
  }

  lemma PutThenAdd<V>(m: map<Key, V>, k: Key, v: V, rest: map<Key, V>)
    ensures m[k := v] + rest == m + (map[k := v] + rest)
  {
  }

  lemma {:induction false} PatchAsMap<V>(from: seq<Entry<V>>, to: seq<Entry<V>>)
    ensures AsMap(Patch(from, to)) == AsMap(to) + LastAsMap(from)
  {
    if from != [] {
      var e, next := from[0], Upsert(to, from[0]);
      PatchAsMap(from[1..], next);
      UpsertAsMap(to, e);
      assert Patch(from, to) == Patch(from[1..], next);
      assert LastAsMap(from) == map[e.key := e.value] + LastAsMap(from[1..]);
      hide AsMap, Upsert, Patch, LastAsMap;
      PutThenAdd(AsMap(to), e.key, e.value, LastAsMap(from[1..]));
    }
  }

  /**
   Read as maps, for any current list the two merges agree if and only if the target says the same in the
   first and the last entry of each key; so they do for a target without duplicate keys.
   */
  lemma ListRefinesMap<V>(target: seq<Entry<V>>, current: seq<Entry<V>>, last: set<Key>)
    ensures AsMap(MergeList(target, current, last)) == MergeKVs(AsMap(target), AsMap(current), last)
            <==> LastAsMap(target) == AsMap(target)
    ensures Unique(target) ==> LastAsMap(target) == AsMap(target)
  {
    var gone := last - KeySet(target);
    var stay := AsMap(current) - gone;
    PatchAsMap(target, Survivors(current, gone));
    SurvivorsAsMap(current, gone);
    AsMapKeys(target);
    LastAsMapKeys(target);
    assert forall k :: k in KeySet(target) ==> (stay + LastAsMap(target))[k] == LastAsMap(target)[k] && (stay + AsMap(target))[k] == AsMap(target)[k];
  }

  // ---------------------------------------------------------------- order

  lemma {:induction false} UpsertKeys<V>(list: seq<Entry<V>>, e: Entry<V>)
    ensures Keys(Upsert(list, e)) == if e.key in KeySet(list) then Keys(list) else Keys(list) + [e.key]
    ensures KeySet(Upsert(list, e)) == KeySet(list) + {e.key}
  {
    if list == [] {
      assert [e][1..] == [];
    } else if list[0].key == e.key {
      assert Upsert(list, e)[1..] == list[1..];
    } else {
      UpsertKeys(list[1..], e);
      assert Upsert(list, e)[1..] == Upsert(list[1..], e);
    }
  }

  lemma {:induction false} SurvivorsIgnore<V>(list: seq<Entry<V>>, gone: set<Key>, k: Key)
    requires k !in KeySet(list)
    ensures Survivors(list, gone + {k}) == Survivors(list, gone)
  {
    if list != [] { SurvivorsIgnore(list[1..], gone, k); }
  }

  lemma {:induction false} PatchKeys<V>(from: seq<Entry<V>>, to: seq<Entry<V>>)
    requires Unique(from)
    ensures Keys(Patch(from, to)) == Keys(to) + Keys(Survivors(from, KeySet(to)))
  {
    if from != [] {
      PatchKeys(from[1..], Upsert(to, from[0]));
      UpsertKeys(to, from[0]);
      var rest := Survivors(from[1..], KeySet(to));
      if from[0].key in KeySet(to) {
        assert KeySet(to) + {from[0].key} == KeySet(to);
        assert Survivors(from, KeySet(to)) == rest;
      } else {
        SurvivorsIgnore(from[1..], KeySet(to), from[0].key);
        assert Survivors(from, KeySet(to)) == [from[0]] + rest && ([from[0]] + rest)[1..] == rest;
      }
    }
  }

  /**
   Surviving current entries keep their places; target entries with a new key follow them in the
   target's own order.
   */
  lemma ListOrder<V>(target: seq<Entry<V>>, current: seq<Entry<V>>, last: set<Key>)
    requires Unique(target)
    ensures var stay := Survivors(current, last - KeySet(target));
            Keys(MergeList(target, current, last)) == Keys(stay) + Keys(Survivors(target, KeySet(stay)))
  {
    PatchKeys(target, Survivors(current, last - KeySet(target)));
  }

  // ---------------------------------------------------------------- merging again

  lemma {:induction false} UpsertSame<V>(list: seq<Entry<V>>, e: Entry<V>)
    requires Look(AsMap(list), e.key) == Some(e.value)
    ensures Upsert(list, e) == list
  {
    if list != [] && list[0].key != e.key { UpsertSame(list[1..], e); }
  }

  /** A list that already agrees with `from` at every key is not changed by it. */
  lemma {:induction false} PatchSame<V>(from: seq<Entry<V>>, to: seq<Entry<V>>)
    requires Unique(from) && forall k :: k in AsMap(from) ==> Look(AsMap(to), k) == Some(AsMap(from)[k])
    ensures Patch(from, to) == to
  {
    if from != [] {
      assert AsMap(from)[from[0].key] == from[0].value;
      UpsertSame(to, from[0]);
      AsMapKeys(from[1..]);
      PatchSame(from[1..], to);
    }
  }

  /** Merging the result once more, with the target's own keys as last declared, changes nothing. */
  lemma MergeAgain<V>(target: seq<Entry<V>>, current: seq<Entry<V>>, last: set<Key>)
    requires Unique(target)
    ensures MergeList(target, MergeList(target, current, last), KeySet(target)) == MergeList(target, current, last)
  {
    var r := MergeList(target, current, last);
    NothingGone(r);
    assert KeySet(target) - KeySet(target) == {};
    ListRefinesMap(target, current, last);
    PatchSame(target, r);
  }

  /** With a key twice in the target, the last entry wins in the list and the first in the map. */
  lemma DuplicateTarget() returns (target: seq<Entry<int>>)
    ensures !Unique(target)
    ensures AsMap(MergeList(target, [], {})) != MergeKVs(AsMap(target), AsMap<int>([]), {})
  {
    var first, second := Entry("v", 1), Entry("v", 2);
    target := [first, second];
    assert target[1..] == [second] && [second][1..] == [] && [first][1..] == [];
    var merged := MergeList(target, [], {});
    assert merged == Patch([second], Upsert([], first)) == Patch([], Upsert([first], second)) == [second];
    assert AsMap(merged)["v"] == 2 && AsMap(target)["v"] == 1;
  }

  // ---------------------------------------------------------------- reconciling a list

  datatype ListSection<V> = ListSection(list: seq<Entry<V>>, declared: Option<set<Key>>)

  datatype ListEvent<V> =
    | DeclareList(target: seq<Entry<V>>, recorded: set<Key>)
    | PutEntry(entry: Entry<V>)
    | DropEntry(key: Key)

  function ApplyList<V>(s: ListSection<V>, e: ListEvent<V>): ListSection<V> {
    match e
    case DeclareList(target, recorded) =>
      ListSection(if s.declared.None? then target else MergeList(target, s.list, s.declared.value), Some(recorded))
    case PutEntry(entry) => s.(list := Upsert(s.list, entry))
    case DropEntry(key) => s.(list := Survivors(s.list, {key}))
  }

  function RunList<V>(s: ListSection<V>, events: seq<ListEvent<V>>): ListSection<V> {
    if events == [] then s else ApplyList(RunList(s, events[..|events| - 1]), events[|events| - 1])
  }

  function AsSection<V>(s: ListSection<V>): Section<V> {
    Section(AsMap(s.list), s.declared)
  }

  function AsEvent<V>(e: ListEvent<V>): Event<V> {
    match e
    case DeclareList(target, recorded) => Declare(AsMap(target), recorded)
    case PutEntry(entry) => Put(entry.key, entry.value)
    case DropEntry(key) => Drop(key)
  }

  function AsEvents<V>(events: seq<ListEvent<V>>): (r: seq<Event<V>>)
    ensures |r| == |events|
  {
    seq(|events|, i requires 0 <= i < |events| => AsEvent(events[i]))
  }

  lemma ApplyListRefines<V>(s: ListSection<V>, e: ListEvent<V>)
    requires e.DeclareList? ==> Unique(e.target)
    ensures AsSection(ApplyList(s, e)) == Apply(AsSection(s), AsEvent(e))
  {
    match e
    case DeclareList(target, recorded) =>
      if s.declared.Some? { ListRefinesMap(target, s.list, s.declared.value); }
    case PutEntry(entry) => UpsertAsMap(s.list, entry);
    case DropEntry(key) => SurvivorsAsMap(s.list, {key});
  }

  /**
   Read as a map, a list section goes through any sequence of reconciles (with unique target keys) and outside edits
   exactly as a keyed section does; so everything said about those runs holds of lists.
   */
  lemma {:induction false} RunListRefines<V>(s: ListSection<V>, events: seq<ListEvent<V>>)
    requires forall e :: e in events && e.DeclareList? ==> Unique(e.target)
    ensures AsSection(RunList(s, events)) == Run(AsSection(s), AsEvents(events))
  {
    if events != [] {
      var n := |events| - 1;
      RunListRefines(s, events[..n]);
      ApplyListRefines(RunList(s, events[..n]), events[n]);
      assert AsEvents(events)[..n] == AsEvents(events[..n]) && AsEvents(events)[n] == AsEvent(events[n]);
      hide ApplyList, Apply, AsEvent;
    }
  }

  // ---------------------------------------------------------------- what is recorded for volumes

  /** A mount; storage that was injected is mounted under one common name, with the volume in the sub path. */
  datatype Mount = Mount(injected: bool, name: Key, subPath: Key, signature: Key)

  predicate Mounts(m: Mount, volume: Key) {
    if m.injected then m.subPath == volume else m.name == volume
  }

  /** The key recorded for a volume: that of its first mount, or nothing. */
  function MountKey(volume: Key, mounts: seq<Mount>): Option<Key> {
    if mounts == [] then None
    else if Mounts(mounts[0], volume) then Some(if mounts[0].injected then mounts[0].signature else volume)
    else MountKey(volume, mounts[1..])
  }

  method VolMntDeclaredKey(volume: Key, mounts: seq<Mount>) returns (key: Option<Key>)
    ensures key == MountKey(volume, mounts)
  {
    for i := 0 to |mounts|
      invariant MountKey(volume, mounts[i..]) == MountKey(volume, mounts)
    {
      assert mounts[i..][1..] == mounts[i + 1..];
      var m := mounts[i];
      if m.injected && m.subPath == volume { return Some(m.signature); }
      if !m.injected && m.name == volume { return Some(volume); }
    }
    return None;
  }

  function VolumeRecord<V>(volumes: seq<Entry<V>>, mounts: seq<Mount>): set<Key> {
    set i | 0 <= i < |volumes| && MountKey(volumes[i].key, mounts).Some? && MountKey(volumes[i].key, mounts) != Some("")
      :: MountKey(volumes[i].key, mounts).value
  }

  /** Mount `i` is the first of the volume: injected storage names it in the sub path, any other mount by its own name. */
  ghost predicate FirstMount(volume: Key, mounts: seq<Mount>, i: nat) {
    && i < |mounts| && (if mounts[i].injected then mounts[i].subPath else mounts[i].name) == volume
    && forall j :: 0 <= j < i ==> (if mounts[j].injected then mounts[j].subPath else mounts[j].name) != volume
  }

  /** The recorded key is the first mount's: the volume's name, or on injected storage the signature; nothing without one. */
  lemma {:induction false} MountKeyExactly(volume: Key, mounts: seq<Mount>, i: nat)
    ensures FirstMount(volume, mounts, i) ==> MountKey(volume, mounts) == Some(if mounts[i].injected then mounts[i].signature else volume)
    ensures MountKey(volume, mounts).None? <==>
            forall m :: m in mounts ==> (if m.injected then m.subPath else m.name) != volume
  {
    if mounts != [] {
      var rest := mounts[1..];
      MountKeyExactly(volume, rest, if i > 0 then i - 1 else 0);
      assert mounts == [mounts[0]] + rest;
      if i > 0 && FirstMount(volume, mounts, i) {
        assert (if mounts[0].injected then mounts[0].subPath else mounts[0].name) != volume;
        assert forall j :: 0 <= j < i - 1 ==> rest[j] == mounts[j + 1];
      }
    }
  }

  /** What is recorded is the keys of the mounted volumes. */
  lemma RecordIs<V>(volumes: seq<Entry<V>>, mounts: seq<Mount>, k: Key)
    ensures k in VolumeRecord(volumes, mounts) <==>
            k != "" && exists i :: 0 <= i < |volumes| && MountKey(volumes[i].key, mounts) == Some(k)
  {
  }

  lemma {:induction false} Mounted(volume: Key, mounts: seq<Mount>)
    ensures MountKey(volume, mounts).Some? <==> exists m :: m in mounts && Mounts(m, volume)
    ensures MountKey(volume, mounts).Some? && MountKey(volume, mounts).value != volume ==>
            exists m :: m in mounts && m.injected && m.signature == MountKey(volume, mounts).value
  {
    if mounts != [] { Mounted(volume, mounts[1..]); }
  }

  /**
   As long as no signature is the name of a volume, a volume dropped from the target is removed by the next reconcile
   if and only if its first mount was a plain one when it was last declared: an unmounted one, or one on injected
   storage, stays.
   */
  lemma VolumeRemovedExactly<V>(s: ListSection<V>, mounts: seq<Mount>, volumes: seq<Entry<V>>, target: seq<Entry<V>>, next: set<Key>, v: Key)
    requires s.declared.Some? && Unique(volumes) && Unique(target) && v in KeySet(volumes) && v !in KeySet(target)
    requires forall m :: m in mounts && m.injected ==> m.signature != v
    ensures var r := RunList(s, [DeclareList(volumes, VolumeRecord(volumes, mounts)), DeclareList(target, next)]);
            v !in KeySet(r.list) <==> MountKey(v, mounts) == Some(v) && v != ""
  {
    var record := VolumeRecord(volumes, mounts);
    var first, second := DeclareList(volumes, record), DeclareList(target, next);
    RecordedExactly(volumes, mounts, v);
    var one := ApplyList(s, first);
    ApplyListRefines(s, first);
    ApplyListRefines(one, second);
    var two := ApplyList(one, second);
    assert [first, second][..1] == [first] && [first][..0] == [];
    assert RunList(s, [first]) == ApplyList(RunList(s, []), first) == one;
    assert RunList(s, [first, second]) == ApplyList(RunList(s, [first]), second) == two;
    AsMapKeys(volumes);
    AsMapKeys(target);
    AsMapKeys(two.list);
    ReconcileAtKey(AsSection(s), AsMap(volumes), record, v);
    ReconcileAtKey(AsSection(one), AsMap(target), next, v);
  }

  lemma RecordedExactly<V>(volumes: seq<Entry<V>>, mounts: seq<Mount>, v: Key)
    requires v in KeySet(volumes) && forall m :: m in mounts && m.injected ==> m.signature != v
    ensures v in VolumeRecord(volumes, mounts) <==> MountKey(v, mounts) == Some(v) && v != ""
  {
    var i := IndexOf(volumes, v);
    forall j | 0 <= j < |volumes| ensures MountKey(volumes[j].key, mounts) == Some(v) ==> volumes[j].key == v {
      Mounted(volumes[j].key, mounts);
    }
    assert volumes[i].key == v;
  }

  lemma {:induction false} IndexOf<V>(list: seq<Entry<V>>, k: Key) returns (i: nat)
    requires k in KeySet(list)
    ensures i < |list| && list[i].key == k
  {
    if list[0].key == k {
      i := 0;
    } else {
      i := IndexOf(list[1..], k);
      i := i + 1;
    }
  }
}
