/**
 The deletion-cost allocator of a resource pool: costs are handed out downwards from
 the pool's smallest cost in use, then from the gaps the bitmap still shows.
 */
module CostPool {
  import opened BitMap

  /** The allocator as a value; `used` are the offsets from the pool's lowest cost that are taken. */
  datatype Pool = Pool(curMin: int, poolMin: int, used: set<nat>, index: int)

  /** The free offsets the allocator can still reach: all below the current minimum, and the gaps up to the index. */
  function Available(p: Pool): set<nat> {
    set o: nat | o < Bound(p) && Reachable(p, o)
  }

  predicate Reachable(p: Pool, o: nat) {
    o < p.curMin - p.poolMin || (o <= p.index && o !in p.used)
  }

  function Bound(p: Pool): nat {
    var a := if p.curMin > p.poolMin then p.curMin - p.poolMin else 0;
    if p.index >= a then p.index + 1 else a
  }

  /** Every offset below the current minimum is free. */
  predicate Valid(p: Pool) {
    forall o: nat :: o < p.curMin - p.poolMin ==> o !in p.used
  }

  /** The highest free offset at or below `i`, or -1. */
  function FreeBelow(used: set<nat>, i: int): int
    ensures -1 <= FreeBelow(used, i)
    ensures FreeBelow(used, i) >= 0 ==> FreeBelow(used, i) <= i && FreeBelow(used, i) !in used
    ensures forall o: nat :: FreeBelow(used, i) < o <= i ==> o in used
    decreases i + 1
  {
    if i < 0 then -1 else if i !in used then i else FreeBelow(used, i - 1)
  }

  function Next(p: Pool): (Pool, int) {
    if p.curMin > p.poolMin then
      (p.(curMin := p.curMin - 1, used := p.used + {p.curMin - 1 - p.poolMin}), p.curMin - 1)
    else
      var i := FreeBelow(p.used, p.index);
      if i >= 0 then (p.(index := i, used := p.used + {i}), p.poolMin + i) else (p, p.curMin)
  }

  class PoolState {
    var curMinCost: int
    const poolMinCost: int
    const costBitMap: BitMap
    var curBitMinIndex: int

    ghost function State(): Pool
      reads this, costBitMap.bits
    {
      Pool(curMinCost, poolMinCost, costBitMap.Contents(), curBitMinIndex)
    }

    constructor (curMinCost: int, poolMinCost: int, costBitMap: BitMap, curBitMinIndex: int)
      ensures this.costBitMap == costBitMap
      ensures State() == Pool(curMinCost, poolMinCost, costBitMap.Contents(), curBitMinIndex)
    {
      this.curMinCost, this.poolMinCost, this.costBitMap, this.curBitMinIndex := curMinCost, poolMinCost, costBitMap, curBitMinIndex;
    }

    /** The search downwards through the bitmap; -1 when nothing is free. */
    method FindFree() returns (i: int)
      requires curBitMinIndex < 8 * costBitMap.bits.Length
      ensures i == FreeBelow(costBitMap.Contents(), curBitMinIndex)
    {
      hide FreeBelow;
      ghost var used := costBitMap.Contents();
      i := curBitMinIndex;
      while i >= 0
        invariant i <= curBitMinIndex && FreeBelow(used, i) == FreeBelow(used, curBitMinIndex)
        decreases i
      {
        FreeBelowStep(used, i);
        var taken := costBitMap.IsExist(i);
        if !taken { return; }
        i := i - 1;
      }
      i := -1;
    }

    /** The bitmap must be long enough for every offset that is looked at. */
    method GetNextCost() returns (cost: int)
      requires curMinCost - poolMinCost <= 8 * costBitMap.bits.Length && curBitMinIndex < 8 * costBitMap.bits.Length
      modifies this, costBitMap.bits
      ensures (State(), cost) == Next(old(State()))
    {
      hide FreeBelow;
      if curMinCost > poolMinCost {
        curMinCost := curMinCost - 1;
        costBitMap.Add(curMinCost - poolMinCost);
        return curMinCost;
      }
      var i := FindFree();
      if i >= 0 {
        curBitMinIndex := i;
        costBitMap.Add(i);
        return poolMinCost + curBitMinIndex;
      }
      return curMinCost;
    }
  }

  lemma FreeBelowStep(used: set<nat>, i: nat)
    ensures FreeBelow(used, i) == if i in used then FreeBelow(used, i - 1) else i
  {
  }

  // ---------------------------------------------------------------- whole runs

  /** The pool after `n` calls. */
  function After(p: Pool, n: nat): Pool {
    if n == 0 then p else Next(After(p, n - 1)).0
  }

  /** The cost that call `n` (from 0) returns. */
  function Cost(p: Pool, n: nat): int {
    Next(After(p, n)).1
  }

  lemma AvailableIs(p: Pool, o: nat)
    ensures o in Available(p) <==> Reachable(p, o)
  {
    if Reachable(p, o) { assert o < Bound(p); }
  }

  /** While an offset is available, a call takes a free one out of them; afterwards it repeats the minimum and changes nothing. */
  lemma NextTakes(p: Pool)
    requires Valid(p)
    ensures var (q, cost) := Next(p);
            && Valid(q) && q.poolMin == p.poolMin
            && (Available(p) != {} ==>
                  cost >= p.poolMin && (cost - p.poolMin) in Available(p) && (cost - p.poolMin) !in p.used
                  && Available(q) == Available(p) - {cost - p.poolMin})
            && (Available(p) == {} ==> q == p && cost == p.curMin)
            && (p.curMin > p.poolMin ==> cost == p.curMin - 1 && q.curMin == cost && q.index == p.index)
            && (p.curMin <= p.poolMin ==> q.curMin == p.curMin && forall o :: o in Available(p) ==> o <= cost - p.poolMin)
  {
    var (q, cost) := Next(p);
    if p.curMin > p.poolMin {
      var o: nat := p.curMin - 1 - p.poolMin;
      AvailableIs(p, o);
      forall x: nat ensures x in Available(q) <==> x in Available(p) && x != o { AvailableIs(p, x); AvailableIs(q, x); }
    } else {
      var i := FreeBelow(p.used, p.index);
      if i >= 0 {
        AvailableIs(p, i);
        forall x: nat ensures x in Available(q) <==> x in Available(p) && x != i { AvailableIs(p, x); AvailableIs(q, x); }
        forall x: nat | x in Available(p) ensures x <= i { AvailableIs(p, x); }
      } else {
        forall x: nat ensures x !in Available(p) { AvailableIs(p, x); }
      }
    }
  }

  lemma {:induction false} AvailableAfter(p: Pool, n: nat)
    requires Valid(p) && n <= |Available(p)|
    ensures var q := After(p, n);
            Valid(q) && q.poolMin == p.poolMin && Available(q) <= Available(p) && |Available(q)| == |Available(p)| - n
  {
    hide Available, Valid, Next;
    if n > 0 {
      AvailableAfter(p, n - 1);
      NextTakes(After(p, n - 1));
    }
  }

  /** An offset once handed out is not available again. */
  lemma {:induction false} StaysTaken(p: Pool, i: nat, n: nat)
    requires Valid(p) && i < n <= |Available(p)|
    ensures Cost(p, i) >= p.poolMin && Cost(p, i) - p.poolMin in Available(p) && Cost(p, i) - p.poolMin !in Available(After(p, n))
  {
    hide Available, Valid, Next;
    AvailableAfter(p, n - 1);
    NextTakes(After(p, n - 1));
    if i < n - 1 { StaysTaken(p, i, n - 1); }
  }

  lemma {:induction false} UsedGrows(p: Pool, n: nat)
    ensures p.used <= After(p, n).used
  {
    if n > 0 { UsedGrows(p, n - 1); }
  }

  /**
   As many calls as there are available offsets return pairwise different costs of the pool, each of them
   free before; the next call is the first that repeats.
   */
  lemma NeverRepeats(p: Pool, i: nat, j: nat)
    requires Valid(p) && i < j < |Available(p)|
    ensures Cost(p, i) != Cost(p, j)
    ensures Cost(p, j) >= p.poolMin && Cost(p, j) - p.poolMin in Available(p) && Cost(p, j) - p.poolMin !in p.used
  {
    hide Available, Valid, Next;
    AvailableAfter(p, j);
    NextTakes(After(p, j));
    StaysTaken(p, i, j);
    UsedGrows(p, j);
  }

  lemma {:induction false} RepeatsWhenExhausted(p: Pool, n: nat)
    requires Valid(p) && n >= |Available(p)|
    ensures Cost(p, n) == After(p, |Available(p)|).curMin && After(p, n) == After(p, |Available(p)|)
    ensures Available(After(p, n)) == {}
  {
    hide Available, Valid, Next;
    AvailableAfter(p, |Available(p)|);
    var end := After(p, |Available(p)|);
    if n == |Available(p)| {
      NextTakes(end);
    } else {
      RepeatsWhenExhausted(p, n - 1);
      NextTakes(end);
    }
  }
}
