/**
 Enqueue pacing: each resource key remembers when its next work is due, so that
 work for one key fires at most once per delay period however often it is asked for.
 */
module EnqueuePacing {

  type Key = string

  class Pacer {
    var resourceUpdateTime: map<Key, int>
    const delay: int

    constructor (delay: int)
      ensures this.delay == delay && resourceUpdateTime == map[]
    {
      this.delay := delay;
      resourceUpdateTime := map[];
    }

    method WaitTime(key: Key, now: int) returns (wait: int)
      modifies this
      ensures (resourceUpdateTime, now + wait) == Enqueue(old(resourceUpdateTime), key, now, delay)
    {
      if key !in resourceUpdateTime {
        resourceUpdateTime := resourceUpdateTime[key := now];
        return 0;
      }
      var updateTime := resourceUpdateTime[key];
      if updateTime > now {
        assert resourceUpdateTime[key := updateTime] == resourceUpdateTime;
        return updateTime - now;
      }
      var next := updateTime + delay;
      if next > now {
        resourceUpdateTime := resourceUpdateTime[key := next];
        return next - now;
      }
      resourceUpdateTime := resourceUpdateTime[key := now];
      return 0;
    }

    method DeleteResource(key: Key)
      modifies this
      ensures resourceUpdateTime == old(resourceUpdateTime) - {key}
    {
      resourceUpdateTime := resourceUpdateTime - {key};
    }
  }

  /** The record after asking for `key` at time `now`, and the instant the work fires. */
  function Enqueue(due: map<Key, int>, key: Key, now: int, delay: int): (map<Key, int>, int) {
    var fire :=
      if key !in due then now
      else if due[key] > now then due[key]
      else if due[key] + delay > now then due[key] + delay
      else now;
    (due[key := fire], fire)
  }

  // ---------------------------------------------------------------- whole runs

  datatype Event = Ask(key: Key, now: int) | Forget(key: Key)

  function Apply(due: map<Key, int>, e: Event, delay: int): map<Key, int> {
    match e
    case Ask(key, now) => Enqueue(due, key, now, delay).0
    case Forget(key) => due - {key}
  }

  function Record(events: seq<Event>, delay: int): map<Key, int> {
    if events == [] then map[] else Apply(Record(events[..|events| - 1], delay), events[|events| - 1], delay)
  }

  /** When the `i`-th request fires. */
  function Fire(events: seq<Event>, i: nat, delay: int): int
    requires i < |events| && events[i].Ask?
  {
    Enqueue(Record(events[..i], delay), events[i].key, events[i].now, delay).1
  }

  predicate Forward(events: seq<Event>) {
    forall i, j :: 0 <= i < j < |events| && events[i].Ask? && events[j].Ask? ==> events[i].now <= events[j].now
  }

  /** The record of a key is due at most one delay after any later moment. */
  lemma {:induction false} DueSoon(events: seq<Event>, key: Key, t: int, delay: int)
    requires delay >= 0 && Forward(events)
    requires forall i :: 0 <= i < |events| && events[i].Ask? ==> events[i].now <= t
    ensures key in Record(events, delay) ==> Record(events, delay)[key] <= t + delay
  {
    if events != [] {
      var init, last := events[..|events| - 1], events[|events| - 1];
      DueSoon(init, key, if last.Ask? then last.now else t, delay);
    }
  }

  /** Until the key is forgotten, its record is the instant at which its latest request fires. */
  lemma {:induction false} RecordIsFire(events: seq<Event>, i: nat, delay: int)
    requires i < |events| && events[i].Ask?
    requires forall k :: i < k < |events| ==> events[k].key != events[i].key
    ensures var r := Record(events, delay); events[i].key in r && r[events[i].key] == Fire(events, i, delay)
    decreases |events|
  {
    var n := |events| - 1;
    var init := events[..n];
    if i == n {
    } else {
      RecordIsFire(init, i, delay);
      assert events[..i] == init[..i];
      assert events[n].key != events[i].key;
    }
  }

  /** No wait is negative or longer than the delay, whatever other keys do and even after a reset. */
  lemma WaitBounded(events: seq<Event>, i: nat, delay: int)
    requires delay >= 0 && Forward(events) && i < |events| && events[i].Ask?
    ensures 0 <= Fire(events, i, delay) - events[i].now <= delay
  {
    DueSoon(events[..i], events[i].key, events[i].now, delay);
  }

  /**
   Two successive requests for one key, with requests for other keys between them: they fire at the
   same instant or at least one delay apart, in order.
   */
  lemma SuccessiveFires(events: seq<Event>, i: nat, j: nat, delay: int)
    requires delay >= 0 && Forward(events) && i < j < |events|
    requires events[i].Ask? && events[j].Ask? && events[i].key == events[j].key
    requires forall k :: i < k < j ==> events[k].key != events[i].key
    ensures Fire(events, j, delay) == Fire(events, i, delay) || Fire(events, j, delay) >= Fire(events, i, delay) + delay
  {
    var before := events[..j];
    assert before[..i] == events[..i];
    RecordIsFire(before, i, delay);
  }

  /** The same for any two requests of a key that is not forgotten between them. */
  lemma {:induction false} AnyTwoFires(events: seq<Event>, i: nat, j: nat, delay: int)
    requires delay >= 0 && Forward(events) && i < j < |events|
    requires events[i].Ask? && events[j].Ask? && events[i].key == events[j].key
    requires forall k :: i < k < j && events[k].key == events[i].key ==> events[k].Ask?
    ensures Fire(events, j, delay) == Fire(events, i, delay) || Fire(events, j, delay) >= Fire(events, i, delay) + delay
    decreases j - i
  {
    if k :| i < k < j && events[k].key == events[i].key {
      AnyTwoFires(events, i, k, delay);
      AnyTwoFires(events, k, j, delay);
    } else {
      SuccessiveFires(events, i, j, delay);
    }
  }

  /**
   No request waits longer than the pace needs: it joins a fire that is still ahead, or fires at the earliest
   instant a delay after the previous one. A fire due at this very moment counts as past.
   */
  lemma FiresEarliest(events: seq<Event>, i: nat, j: nat, delay: int, t: int)
    requires delay >= 0 && i < j < |events|
    requires events[i].Ask? && events[j].Ask? && events[i].key == events[j].key
    requires forall k :: i < k < j ==> events[k].key != events[i].key
    requires events[j].now <= t && (events[j].now < t == Fire(events, i, delay) || t >= Fire(events, i, delay) + delay)
    ensures Fire(events, j, delay) <= t
  {
    var before := events[..j];
    assert before[..i] == events[..i];
    RecordIsFire(before, i, delay);
  }

  /** Every request for `key` is followed by a reset of it. */
  predicate Forgotten(events: seq<Event>, key: Key) {
    forall k :: 0 <= k < |events| && events[k].key == key && events[k].Ask? ==> exists f :: k < f < |events| && events[f] == Forget(key)
  }

  lemma {:induction false} ForgottenIsAbsent(events: seq<Event>, key: Key, delay: int)
    requires Forgotten(events, key)
    ensures key !in Record(events, delay)
  {
    if events != [] {
      var n := |events| - 1;
      var init := events[..n];
      if events[n] != Forget(key) {
        forall k | 0 <= k < n && init[k].key == key && init[k].Ask? ensures exists f :: k < f < n && init[f] == Forget(key) {
          var f :| k < f < |events| && events[f] == Forget(key);
          assert init[f] == Forget(key);
        }
        ForgottenIsAbsent(init, key, delay);
      }
    }
  }

  /** The first request of a key, or the first after a reset, fires at once. */
  lemma FirstFiresAtOnce(events: seq<Event>, j: nat, delay: int)
    requires j < |events| && events[j].Ask? && Forgotten(events[..j], events[j].key)
    ensures Fire(events, j, delay) == events[j].now
  {
    ForgottenIsAbsent(events[..j], events[j].key, delay);
  }

  /** Nothing but resets of the key lies between two of its requests. */
  predicate Adjacent(events: seq<Event>, i: nat, j: nat) {
    && i < j < |events| && events[i].Ask? && events[j].Ask? && events[i].key == events[j].key
    && forall k :: i < k < j && events[k].key == events[i].key ==> events[k].Forget?
  }

  lemma ForgottenBetween(events: seq<Event>, i: nat, j: nat, f: nat)
    requires Adjacent(events, i, j) && i < f < j && events[f] == Forget(events[i].key)
    ensures Forgotten(events[..j], events[i].key)
  {
    var before := events[..j];
    forall k | 0 <= k < j && before[k].key == events[i].key && before[k].Ask?
      ensures exists f :: k < f < j && before[f] == Forget(events[i].key)
    {
      assert before[f] == Forget(events[i].key) && k <= i;
    }
  }

  /**
   Two successive requests of a key keep the pace if and only if the key was not forgotten between them, or the
   second comes at the very instant the first fires, or at least a delay after it.
   */
  lemma PaceKeptExactly(events: seq<Event>, i: nat, j: nat, delay: int)
    requires delay >= 0 && Forward(events) && Adjacent(events, i, j)
    ensures Fire(events, j, delay) == Fire(events, i, delay) || Fire(events, j, delay) >= Fire(events, i, delay) + delay
            <==>
            || (forall k :: i < k < j ==> events[k].key != events[i].key)
            || events[j].now == Fire(events, i, delay) || events[j].now >= Fire(events, i, delay) + delay
  {
    if f :| i < f < j && events[f].key == events[i].key {
      ForgottenBetween(events, i, j, f);
      FirstFiresAtOnce(events, j, delay);
    } else {
      SuccessiveFires(events, i, j, delay);
    }
  }

  /** After a reset a request can even fire before an earlier one that is still pending. */
  lemma FiresGoBackwards() returns (events: seq<Event>)
    ensures Forward(events) && Adjacent(events, 1, 3) && events[2] == Forget(events[1].key)
    ensures Fire(events, 1, 10) == 10 && Fire(events, 3, 10) == 2
  {
    events := [Ask("k", 0), Ask("k", 1), Forget("k"), Ask("k", 2)];
    ForgottenBetween(events, 1, 3, 2);
    FirstFiresAtOnce(events, 3, 10);
    assert events[..1][..0] == [] && events[..1][0] == Ask("k", 0);
    assert Record(events[..1], 10) == map["k" := 0];
  }

  /** Forgetting the key is what breaks the pace: two requests can then fire less than a delay apart. */
  lemma ForgetBreaksPace(delay: int) returns (events: seq<Event>)
    requires delay >= 2
    ensures Forward(events) && |events| == 3 && events[0].Ask? && events[1] == Forget(events[0].key) && events[2].Ask? && events[2].key == events[0].key
    ensures Fire(events, 0, delay) < Fire(events, 2, delay) < Fire(events, 0, delay) + delay
  {
    events := [Ask("k", 0), Forget("k"), Ask("k", 1)];
    assert events[..2][..1] == [Ask("k", 0)] && events[..2][1] == Forget("k");
    assert Record(events[..2], delay) == Record([Ask("k", 0)], delay) - {"k"};
    assert events[..0] == [];
  }
}
