/**
 The standby-hours table: from an hourly forecast of how many replicas are needed,
 the hours of the coming day at which each replica may be on standby.
 */
module StandbyHours {

  function Forecast(predict: map<int, int>, hour: int): int {
    if hour in predict then predict[hour] else 0
  }

  /** Replica `j` of `n` is not needed at `hour`. */
  predicate Standby(predict: map<int, int>, n: nat, hour: int, j: nat) {
    var d := Forecast(predict, hour);
    0 < d < n && d <= j
  }

  /** The clock hour of the `i`-th hour from now on, counted from today's midnight. */
  function ClockHour(i: nat): nat {
    if i >= 24 then i - 24 else i
  }

  ghost predicate Visited(start: nat, i: nat, hour: int) {
    0 <= hour < 24 && (start < hour < i || start < hour + 24 < i)
  }

  ghost predicate Distinct(s: seq<int>) {
    forall a, b :: 0 <= a < b < |s| ==> s[a] != s[b]
  }

  /** Row `j` holds exactly the hours seen so far at which replica `j` is on standby, each once. */
  ghost predicate Filled(table: seq<seq<int>>, predict: map<int, int>, start: nat, i: nat) {
    forall j :: 0 <= j < |table| ==>
      Distinct(table[j]) && forall h :: h in table[j] <==> Visited(start, i, h) && Standby(predict, |table|, h, j)
  }

  lemma VisitNext(start: nat, i: nat)
    requires start < 24 && start < i <= start + 24
    ensures !Visited(start, i, ClockHour(i))
    ensures forall h :: Visited(start, i + 1, h) <==> Visited(start, i, h) || h == ClockHour(i)
  {
  }

  /** Appends `hour` to the rows from `from` on. */
  method AppendFrom(table: seq<seq<int>>, from: nat, hour: int) returns (r: seq<seq<int>>)
    ensures |r| == |table|
    ensures forall j :: 0 <= j < |table| ==> r[j] == if from <= j then table[j] + [hour] else table[j]
  {
    r := table;
    var j := from;
    while j < |table|
      invariant from <= j && |r| == |table|
      invariant forall x :: 0 <= x < |table| ==> r[x] == if from <= x < j then table[x] + [hour] else table[x]
    {
      r := r[j := r[j] + [hour]];
      j := j + 1;
    }
  }

  lemma FillNext(table: seq<seq<int>>, next: seq<seq<int>>, predict: map<int, int>, start: nat, i: nat)
    requires start < 24 && start < i <= start + 24 && Filled(table, predict, start, i) && |next| == |table|
    requires var h := ClockHour(i);
             forall j :: 0 <= j < |table| ==> next[j] == if Standby(predict, |table|, h, j) then table[j] + [h] else table[j]
    ensures Filled(next, predict, start, i + 1)
  {
    VisitNext(start, i);
    var hour := ClockHour(i);
    forall j | 0 <= j < |next|
      ensures Distinct(next[j]) && forall h :: h in next[j] <==> Visited(start, i + 1, h) && Standby(predict, |next|, h, j)
    {
      assert hour !in table[j];
    }
  }

  /** What becomes of the step: nothing to do, an index before the start of the table, or the table. */
  datatype Outcome = Skipped | Panicked | Hours(table: seq<seq<int>>)

  /**
   Each row holds its hours once: replica `j` is on standby at an hour exactly when the forecast lies strictly between
   0 and the number of replicas and does not reach `j`. So each row is contained in every later one, and at an hour
   with such a forecast `d` exactly the first `d` replicas stay on duty.
   */
  ghost predicate IsTable(table: seq<seq<int>>, predict: map<int, int>, n: nat) {
    && |table| == n && (forall j :: 0 <= j < n ==> Distinct(table[j]))
    && (forall j, h :: 0 <= j < n ==> (h in table[j] <==> 0 <= h < 24 && Standby(predict, n, h, j)))
    && (forall j, k, h :: 0 <= j <= k < n && h in table[j] ==> h in table[k])
    && (forall h :: 0 <= h < 24 && 0 < Forecast(predict, h) < n ==>
          forall j :: 0 <= j < n ==> (h !in table[j] <==> j < Forecast(predict, h)))
  }

  /**
   Over the coming 24 hours each clock hour is visited once. Without fixed replicas nothing is computed; a negative
   forecast for any hour of the day is an index out of range.
   */
  method CalcStandbyHours(fixedCount: int, start: nat, predict: map<int, int>, n: nat) returns (r: Outcome)
    requires start < 24
    ensures r.Skipped? <==> fixedCount == 0
    ensures r.Panicked? <==> fixedCount != 0 && exists h :: 0 <= h < 24 && Forecast(predict, h) < 0
    ensures r.Hours? ==> IsTable(r.table, predict, n)
  {
    if fixedCount == 0 { return Skipped; }
    var table := seq(n, _ => []);
    for i := start + 1 to start + 25
      invariant |table| == n && Filled(table, predict, start, i)
      invariant forall h :: Visited(start, i, h) ==> Forecast(predict, h) >= 0
    {
      VisitNext(start, i);
      var hour := ClockHour(i);
      var desired := Forecast(predict, hour);
      ghost var before := table;
      if desired != 0 && desired < n {
        if desired < 0 { return Panicked; }
        table := AppendFrom(table, desired, hour);
      }
      FillNext(before, table, predict, start, i);
    }
    ghost var end := start + 25;
    assert forall h :: 0 <= h < 24 ==> Visited(start, end, h);
    return Hours(table);
  }
}
