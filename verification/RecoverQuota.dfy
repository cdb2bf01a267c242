/**
 The sliding-window recovery quota: at most `limit` recoveries are granted within
 any `window` seconds. The clock is read once per look at the list and once for the
 record of a grant, and never runs backwards.
 */
module RecoverQuota {
  import opened Wrappers

  class Clock {
    var now: int

    method Read() returns (t: int)
      modifies this
      ensures old(now) <= now == t
    {
      var elapsed :| elapsed >= 0;
      now := now + elapsed;
      t := now;
    }
  }

  /** Drops from the front every grant that is older than the window at time `t`. */
  function Prune(q: seq<int>, window: int, t: int): seq<int> {
    if q == [] || t - q[0] <= window then q else Prune(q[1..], window, t)
  }

  class TimeRecoverQuota {
    var recovers: seq<int>

    constructor ()
      ensures recovers == []
    {
      recovers := [];
    }

    /** `scan` is the last time the list was looked at. */
    method Require(limit: Option<int>, window: Option<int>, clock: Clock) returns (ok: bool, ghost scan: int)
      modifies this, clock
      ensures old(clock.now) <= scan <= clock.now
      ensures limit.None? ==> ok && recovers == old(recovers)
      ensures limit == Some(0) ==> !ok && recovers == old(recovers)
      ensures limit.Some? && limit.value != 0 && (window.None? || window.value == 0) ==> ok && recovers == old(recovers)
      ensures limit.Some? && limit.value != 0 && window.Some? && window.value != 0 ==>
                var q, c := Quota(old(recovers), []), Call(scan, clock.now);
                && ok == Grants(q, c, limit.value, window.value)
                && recovers == Step(q, c, limit.value, window.value).recovers
    {
      scan := clock.now;
      if limit.None? { return true, scan; }
      if limit.value == 0 { return false, scan; }
      if window.None? || window.value == 0 { return true, scan; }
      while true
        invariant old(clock.now) <= scan == clock.now
        invariant forall t :: scan <= t ==> Prune(recovers, window.value, t) == Prune(old(recovers), window.value, t)
        decreases |recovers|
      {
        if recovers == [] { break; }
        var front := recovers[0];
        var now := clock.Read();
        scan := now;
        if now - front > window.value {
          recovers := recovers[1..];
          continue;
        }
        break;
      }
      assert recovers == Prune(recovers, window.value, scan);
      if |recovers| >= limit.value { return false, scan; }
      var now := clock.Read();
      recovers := recovers + [now];
      ok := true;
    }
  }

  // ---------------------------------------------------------------- whole runs

  /** One call, by the time it last looked at the list and the time it recorded a grant. */
  datatype Call = Call(scan: int, push: int)

  /** The list, and every grant ever made. */
  datatype Quota = Quota(recovers: seq<int>, granted: seq<int>)

  predicate Grants(q: Quota, c: Call, limit: int, window: int) {
    |Prune(q.recovers, window, c.scan)| < limit
  }

  function Step(q: Quota, c: Call, limit: int, window: int): Quota {
    var kept := Prune(q.recovers, window, c.scan);
    if Grants(q, c, limit, window) then Quota(kept + [c.push], q.granted + [c.push]) else Quota(kept, q.granted)
  }

  function Run(calls: seq<Call>, limit: int, window: int): Quota {
    if calls == [] then Quota([], []) else Step(Run(calls[..|calls| - 1], limit, window), calls[|calls| - 1], limit, window)
  }

  /** The clock never runs backwards, within a call or between calls. */
  predicate Forward(calls: seq<Call>) {
    && (forall i :: 0 <= i < |calls| ==> calls[i].scan <= calls[i].push)
    && (forall i, j :: 0 <= i < j < |calls| ==> calls[i].push <= calls[j].scan)
  }

  predicate Sorted(g: seq<int>) {
    forall i, j :: 0 <= i < j < |g| ==> g[i] <= g[j]
  }

  /** Any `limit + 1` consecutive grants span more than the window. */
  ghost predicate Spaced(g: seq<int>, limit: int, window: int)
    requires limit >= 1
  {
    forall i, j :: 0 <= i < j < |g| && j - i == limit ==> g[j] - g[i] > window
  }

  /** The list is the end of the grant history; what it dropped is out of the window at time `t`. */
  ghost predicate Tracks(q: Quota, limit: int, window: int, t: int)
    requires limit >= 1
  {
    var d := |q.granted| - |q.recovers|;
    && 0 <= d && q.recovers == q.granted[d..]
    && Sorted(q.granted) && (forall i :: 0 <= i < |q.granted| ==> q.granted[i] <= t)
    && (forall i :: 0 <= i < d ==> t - q.granted[i] > window)
    && Spaced(q.granted, limit, window)
  }

  /** Pruning the end of a history from `d` on leaves its end from `e` on, where the window starts. */
  lemma {:induction false} PruneFrom(g: seq<int>, d: nat, window: int, t: int) returns (e: nat)
    requires Sorted(g) && d <= |g|
    ensures d <= e <= |g| && Prune(g[d..], window, t) == g[e..]
    ensures (forall i :: d <= i < e ==> t - g[i] > window) && (forall i :: e <= i < |g| ==> t - g[i] <= window)
    decreases |g| - d
  {
    if d < |g| && t - g[d] > window {
      assert g[d..][1..] == g[d + 1..];
      e := PruneFrom(g, d + 1, window, t);
    } else {
      e := d;
    }
  }

  /** Tracking is kept as time passes. */
  lemma LaterTracks(q: Quota, limit: int, window: int, t: int, later: int)
    requires limit >= 1 && Tracks(q, limit, window, t) && t <= later
    ensures Tracks(q, limit, window, later)
  {
    hide Sorted, Spaced;
  }

  lemma PruneTracks(q: Quota, limit: int, window: int, t: int)
    requires limit >= 1 && Tracks(q, limit, window, t)
    ensures Tracks(q.(recovers := Prune(q.recovers, window, t)), limit, window, t)
  {
    hide Spaced, Prune;
    var e := PruneFrom(q.granted, |q.granted| - |q.recovers|, window, t);
    hide Sorted;
  }

  lemma GrantTracks(q: Quota, limit: int, window: int, scan: int, push: int)
    requires limit >= 1 && Tracks(q, limit, window, scan) && scan <= push && |q.recovers| < limit
    ensures Tracks(Quota(q.recovers + [push], q.granted + [push]), limit, window, push)
  {
    var n := |q.granted|;
    assert n >= limit ==> scan - q.granted[n - limit] > window;
  }

  lemma StepTracks(q: Quota, c: Call, limit: int, window: int, t: int)
    requires limit >= 1 && Tracks(q, limit, window, t) && t <= c.scan <= c.push
    ensures Tracks(Step(q, c, limit, window), limit, window, c.push)
  {
    hide Tracks;
    var kept := q.(recovers := Prune(q.recovers, window, c.scan));
    LaterTracks(q, limit, window, t, c.scan);
    PruneTracks(q, limit, window, c.scan);
    if Grants(q, c, limit, window) {
      GrantTracks(kept, limit, window, c.scan, c.push);
    } else {
      LaterTracks(kept, limit, window, c.scan, c.push);
    }
  }

  lemma ForwardInit(calls: seq<Call>)
    requires calls != [] && Forward(calls)
    ensures var init, last := calls[..|calls| - 1], calls[|calls| - 1];
            Forward(init) && (init != [] ==> init[|init| - 1].push <= last.scan) && last.scan <= last.push
  {
  }

  /** Tracked at the time of the last call, and so ever after. */
  lemma {:induction false} RunTracks(calls: seq<Call>, limit: int, window: int, t: int)
    requires limit >= 1 && Forward(calls) && (calls != [] ==> calls[|calls| - 1].push <= t)
    ensures Tracks(Run(calls, limit, window), limit, window, t)
  {
    hide Sorted, Spaced, Prune;
    if calls == [] {
      NothingTracks(limit, window, t);
    } else {
      var init, last := calls[..|calls| - 1], calls[|calls| - 1];
      ForwardInit(calls);
      assert Run(calls, limit, window) == Step(Run(init, limit, window), last, limit, window);
      hide Tracks, Step, Forward, Run;
      RunTracks(init, limit, window, last.scan);
      StepTracks(Run(init, limit, window), last, limit, window, last.scan);
      LaterTracks(Run(calls, limit, window), limit, window, last.push, t);
    }
  }

  lemma NothingTracks(limit: int, window: int, t: int)
    requires limit >= 1
    ensures Tracks(Quota([], []), limit, window, t)
  {
    var q := Quota([], []);
    assert Sorted(q.granted) && Spaced(q.granted, limit, window) && q.granted[0..] == q.recovers;
    hide Sorted, Spaced;
  }

  /** How many grants lie in `[from, to]`. */
  function CountIn(g: seq<int>, from: int, to: int): nat {
    if g == [] then 0 else CountIn(g[..|g| - 1], from, to) + if from <= g[|g| - 1] <= to then 1 else 0
  }

  lemma {:induction false} CountAfter(g: seq<int>, k: nat, from: int, to: int)
    requires k <= |g| && forall i :: 0 <= i < k ==> g[i] < from
    ensures CountIn(g, from, to) <= |g| - k
  {
    if k < |g| { CountAfter(g[..|g| - 1], k, from, to); }
    else if g != [] { CountAfter(g[..|g| - 1], k - 1, from, to); }
  }

  lemma {:induction false} SpacedCounts(g: seq<int>, limit: int, window: int, from: int)
    requires limit >= 1 && Sorted(g) && Spaced(g, limit, window)
    ensures CountIn(g, from, from + window) <= limit
  {
    if g != [] {
      var n := |g| - 1;
      var init := g[..n];
      SpacedCounts(init, limit, window, from);
      if from <= g[n] <= from + window && n >= limit {
        assert g[n] - g[n - limit] > window;
        CountAfter(g, n - limit + 1, from, from + window);
      } else {
        CountAfter(g, 0, from, from + window);
      }
    }
  }

  /** In every run, every closed interval of the window's length contains at most `limit` grants. */
  lemma WindowNeverExceeded(calls: seq<Call>, limit: int, window: int, from: int)
    requires limit >= 1 && Forward(calls)
    ensures CountIn(Run(calls, limit, window).granted, from, from + window) <= limit
  {
    var t := if calls == [] then 0 else calls[|calls| - 1].push;
    RunTracks(calls, limit, window, t);
    SpacedCounts(Run(calls, limit, window).granted, limit, window, from);
  }

  lemma {:induction false} CountSuffix(g: seq<int>, d: nat, from: int, to: int)
    requires d <= |g| && (forall i :: 0 <= i < d ==> g[i] < from) && (forall i :: d <= i < |g| ==> from <= g[i] <= to)
    ensures CountIn(g, from, to) == |g| - d
  {
    if d < |g| { CountSuffix(g[..|g| - 1], d, from, to); }
    else if g != [] { CountSuffix(g[..|g| - 1], d - 1, from, to); }
  }

  /** A call is refused exactly when the limit was already granted within the window that ends at its look. */
  lemma RefusesExactly(calls: seq<Call>, c: Call, limit: int, window: int)
    requires limit >= 1 && Forward(calls + [c])
    ensures var q := Run(calls, limit, window);
            Grants(q, c, limit, window) <==> CountIn(q.granted, c.scan - window, c.scan) < limit
  {
    var q := Run(calls, limit, window);
    ForwardPrefix(calls, c);
    hide Run, Tracks, Forward;
    RunTracks(calls, limit, window, c.scan);
    RefusesTracked(q, c, limit, window);
  }

  lemma ForwardPrefix(calls: seq<Call>, c: Call)
    requires Forward(calls + [c])
    ensures Forward(calls) && forall i :: 0 <= i < |calls| ==> calls[i].push <= c.scan
  {
    var all := calls + [c];
    assert all[|calls|] == c && forall i :: 0 <= i < |calls| ==> all[i] == calls[i];
  }

  lemma RefusesTracked(q: Quota, c: Call, limit: int, window: int)
    requires limit >= 1 && Tracks(q, limit, window, c.scan)
    ensures |Prune(q.recovers, window, c.scan)| == CountIn(q.granted, c.scan - window, c.scan)
  {
    hide Spaced;
    var e := PruneFrom(q.granted, |q.granted| - |q.recovers|, window, c.scan);
    CountSuffix(q.granted, e, c.scan - window, c.scan);
  }
}
