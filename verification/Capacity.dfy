/** In-flight work per agent, and choosing an agent by it. */
module Capacity {
  import opened Wrappers

  type Loads = map<string, nat>

  function LoadOf(load: Loads, agent: string): nat {
    if agent in load then load[agent] else 0
  }

  /** What concurrent dispatchers and finishing invocations do to one capacity, in the order in
      which the lock admits them. */
  datatype Step = Reserve(agent: string) | Finish(agent: string)

  class AgentCapacity {
    var load: Loads
    /** The agents of the guards that have not been dropped. */
    ghost var live: multiset<string>

    constructor ()
      ensures Valid() && live == multiset{}
    {
      load := map[];
      live := multiset{};
    }

    /** Every agent's load is the number of its live guards. */
    ghost predicate Valid()
      reads this
    {
      forall a :: LoadOf(load, a) == live[a]
    }

    ghost predicate Within(limit: nat)
      reads this
    {
      forall a :: live[a] <= limit
    }

    /** Takes a slot whatever the limit. */
    method Acquire(agent: string)
      requires Valid()
      modifies this
      ensures Valid() && live == old(live) + multiset{agent}
    {
      load := load[agent := LoadOf(load, agent) + 1];
      live := live + multiset{agent};
    }

    method TryAcquire(agent: string, limit: nat) returns (reserved: bool)
      requires Valid()
      modifies this
      ensures Valid()
      ensures reserved <==> old(live)[agent] < limit
      ensures live == if reserved then old(live) + multiset{agent} else old(live)
    {
      if limit == 0 { return false; }
      var current := LoadOf(load, agent);
      if current >= limit { return false; }
      load := load[agent := current + 1];
      live := live + multiset{agent};
      reserved := true;
    }

    /** Gives a slot back; a load never goes below zero. */
    method Release(agent: string)
      modifies this`load
      ensures LoadOf(load, agent) == if LoadOf(old(load), agent) == 0 then 0 else LoadOf(old(load), agent) - 1
      ensures forall a :: a != agent ==> LoadOf(load, a) == LoadOf(old(load), a)
    {
      var current := LoadOf(load, agent);
      load := load[agent := if current == 0 then 0 else current - 1];
    }

    /** Dropping a guard releases its slot. */
    method DropGuard(agent: string)
      requires Valid() && agent in live
      modifies this
      ensures Valid() && live == old(live) - multiset{agent}
    {
      Release(agent);
      live := live - multiset{agent};
    }

    /** Under one limit, no order of reservations and drops takes an agent beyond it. */
    method Interleave(steps: seq<Step>, limit: nat)
      requires Valid() && Within(limit)
      modifies this
      ensures Valid() && Within(limit)
    {
      for i := 0 to |steps|
        invariant Valid() && Within(limit)
      {
        match steps[i]
        case Reserve(agent) => var _ := TryAcquire(agent, limit);
        case Finish(agent) => if LoadOf(load, agent) > 0 { DropGuard(agent); }
      }
    }

    // ---- Selection ---------------------------------------------------------------------------

    /** A least loaded member of the pool, the `index`-th of them counted around. */
    method SelectAgent(pool: seq<string>, index: nat) returns (choice: Option<string>)
      ensures choice.None? <==> pool == []
      ensures choice.Some? ==>
        LeastLoaded(load, pool) != [] && choice.value == pool[Turn(LeastLoaded(load, pool), index)]
      ensures choice.Some? ==>
        choice.value in pool && forall a :: a in pool ==> LoadOf(load, choice.value) <= LoadOf(load, a)
    {
      if pool == [] { return None; }
      var least := LoadOf(load, pool[0]);
      for i := 1 to |pool|
        invariant exists j :: 0 <= j < i && LoadOf(load, pool[j]) == least
        invariant forall j :: 0 <= j < i ==> least <= LoadOf(load, pool[j])
      {
        if LoadOf(load, pool[i]) < least { least := LoadOf(load, pool[i]); }
      }
      var candidates: seq<nat> := [];
      for i := 0 to |pool|
        invariant candidates == PositionsWith(load, pool[..i], least)
      {
        assert pool[..i + 1][..i] == pool[..i];
        if LoadOf(load, pool[i]) == least { candidates := candidates + [i]; }
      }
      assert pool[..|pool|] == pool;
      LeastIsMinimum(load, pool, least);
      PositionsMeaning(load, pool, least);
      var j :| 0 <= j < |pool| && LoadOf(load, pool[j]) == least;
      assert j in candidates;
      var turn := candidates[index % |candidates|];
      assert turn in candidates;
      choice := Some(pool[turn]);
    }

    /** An eligible member of the pool, the selected one if it is eligible. */
    method SelectAgentForTask(pool: seq<string>, index: nat, eligible: string -> bool) returns (choice: Option<string>)
      ensures choice.Some? <==> exists a :: a in pool && eligible(a)
      ensures choice.Some? ==> choice.value in pool && eligible(choice.value)
      ensures LeastLoaded(load, pool) != [] && eligible(pool[Turn(LeastLoaded(load, pool), index)])
        ==> choice == Some(pool[Turn(LeastLoaded(load, pool), index)])
      ensures LeastLoaded(load, pool) != [] && choice.Some? && !eligible(pool[Turn(LeastLoaded(load, pool), index)])
        ==> NextEligible(pool, index, eligible, choice.value)
    {
      hide Around, LeastLoaded, Turn;
      if pool == [] {
        EmptyPool(load);
        return None;
      }
      var preferred := SelectAgent(pool, index);
      if eligible(preferred.value) { return preferred; }
      for offset := 0 to |pool|
        invariant NoneBefore(pool, index, eligible, offset)
      {
        var candidate := pool[Around(|pool|, index, offset)];
        if eligible(candidate) { return Some(candidate); }
      }
      choice := None;
      forall a | a in pool
        ensures !eligible(a)
      {
        var i :| 0 <= i < |pool| && pool[i] == a;
        ReachedAround(|pool|, index, i);
        var k: nat :| k < |pool| && Around(|pool|, index, k) == i;
      }
    }

    /** Selecting and acquiring keeps the loads of a pool within one of each other, and takes one
        slot of a least loaded member. */
    method Dispatch(pool: seq<string>, index: nat)
      requires Valid() && pool != []
      modifies this
      ensures Valid() && (old(Balanced(load, pool)) ==> Balanced(load, pool))
      ensures exists a :: a in pool && live == old(live) + multiset{a}
    {
      var choice := SelectAgent(pool, index);
      Acquire(choice.value);
    }

    /** However often the pool is asked, and whichever turn each request takes, an idle or balanced
        pool stays balanced; every request takes one slot, all of them in the pool. */
    method DispatchAll(pool: seq<string>, turns: seq<nat>)
      requires Valid() && pool != []
      modifies this
      ensures Valid() && |live| == |old(live)| + |turns|
      ensures old(live) == multiset{} || old(Balanced(load, pool)) ==> Balanced(load, pool)
      ensures forall a :: a !in pool ==> live[a] == old(live)[a]
    {
      if live == multiset{} { assert forall a :: LoadOf(load, a) == 0; }
      for i := 0 to |turns|
        invariant Valid() && |live| == |old(live)| + i
        invariant old(live) == multiset{} || old(Balanced(load, pool)) ==> Balanced(load, pool)
        invariant forall a :: a !in pool ==> live[a] == old(live)[a]
      {
        Dispatch(pool, turns[i]);
      }
    }
  }

  predicate Balanced(load: Loads, pool: seq<string>) {
    forall a, b :: a in pool && b in pool ==> LoadOf(load, a) <= LoadOf(load, b) + 1
  }

  function Minimum(load: Loads, pool: seq<string>): (m: nat)
    ensures pool != [] ==> exists i :: 0 <= i < |pool| && LoadOf(load, pool[i]) == m
    ensures forall i :: 0 <= i < |pool| ==> m <= LoadOf(load, pool[i])
  {
    if pool == [] then 0
    else if |pool| == 1 then LoadOf(load, pool[0])
    else
      var rest := Minimum(load, pool[..|pool| - 1]);
      assert forall i :: 0 <= i < |pool| - 1 ==> pool[..|pool| - 1][i] == pool[i];
      var last := LoadOf(load, pool[|pool| - 1]);
      if last < rest then last else rest
  }

  function PositionsWith(load: Loads, pool: seq<string>, amount: nat): (r: seq<nat>)
    ensures forall i :: i in r ==> i < |pool|
  {
    if pool == [] then []
    else
      var last := |pool| - 1;
      PositionsWith(load, pool[..last], amount) + if LoadOf(load, pool[last]) == amount then [last] else []
  }

  /** The positions of the least loaded members, in pool order. */
  function LeastLoaded(load: Loads, pool: seq<string>): (r: seq<nat>)
    ensures forall i :: i in r ==> i < |pool|
  {
    PositionsWith(load, pool, Minimum(load, pool))
  }

  function Turn(positions: seq<nat>, index: nat): (r: nat)
    requires positions != []
    ensures r in positions
  {
    positions[index % |positions|]
  }

  /** As many turns as there are positions take each of them once, in order, and then begin again. */
  lemma TurnsGoAround(positions: seq<nat>, index: nat)
    requires positions != []
    ensures index < |positions| ==> Turn(positions, index) == positions[index]
    ensures Turn(positions, index + |positions|) == Turn(positions, index)
  {
    var n := |positions|;
    EuclideanParts(n, index);
    Distribute(n, index / n);
    Remainder(n, index + n, index / n + 1, index % n);
  }

  lemma {:induction false} PositionsMeaning(load: Loads, pool: seq<string>, amount: nat)
    ensures forall i: nat :: i in PositionsWith(load, pool, amount) <==> i < |pool| && LoadOf(load, pool[i]) == amount
  {
    if pool != [] {
      PositionsMeaning(load, pool[..|pool| - 1], amount);
    }
  }

  lemma EmptyPool(load: Loads)
    ensures LeastLoaded(load, []) == []
  {}

  lemma LeastIsMinimum(load: Loads, pool: seq<string>, least: nat)
    requires exists j :: 0 <= j < |pool| && LoadOf(load, pool[j]) == least
    requires forall j :: 0 <= j < |pool| ==> least <= LoadOf(load, pool[j])
    ensures least == Minimum(load, pool)
  {
    var j :| 0 <= j < |pool| && LoadOf(load, pool[j]) == least;
    var i :| 0 <= i < |pool| && LoadOf(load, pool[i]) == Minimum(load, pool);
  }

  /** The `k`-th position counted around from `index`. */
  function Around(n: nat, index: nat, k: nat): (r: nat)
    requires n > 0
    ensures r < n
  {
    (index + k) % n
  }

  /** `a` is the first eligible member counted around from `index`. */
  ghost predicate NextEligible(pool: seq<string>, index: nat, eligible: string -> bool, a: string) {
    && eligible(a)
    && exists k: nat :: k < |pool| && pool[Around(|pool|, index, k)] == a && NoneBefore(pool, index, eligible, k)
  }

  ghost predicate NoneBefore(pool: seq<string>, index: nat, eligible: string -> bool, k: nat)
    requires pool != []
  {
    forall j: nat :: j < k ==> !eligible(pool[Around(|pool|, index, j)])
  }

  /** Counting starts at the index and goes on to the next position, the first after the last. */
  lemma AroundIsNext(n: nat, index: nat, k: nat)
    requires n > 0
    ensures index < n ==> Around(n, index, 0) == index
    ensures Around(n, index, k + 1) == if Around(n, index, k) + 1 == n then 0 else Around(n, index, k) + 1
  {
    NextRemainder(n, index + k);
    if index < n { Remainder(n, index, 0, index); }
  }

  lemma NextRemainder(n: nat, x: nat)
    requires n > 0
    ensures (x + 1) % n == if x % n + 1 == n then 0 else x % n + 1
  {
    var q, i := x / n, x % n;
    EuclideanParts(n, x);
    if i + 1 == n {
      Distribute(n, q);
      Remainder(n, x + 1, q + 1, 0);
    } else {
      Remainder(n, x + 1, q, i + 1);
    }
  }

  /** Counting around from any index reaches every position. */
  lemma ReachedAround(n: nat, index: nat, i: nat)
    requires i < n
    ensures exists k: nat :: k < n && Around(n, index, k) == i
  {
    var r := index % n;
    var k := if i >= r then i - r else i - r + n;
    var q := if i >= r then index / n else index / n + 1;
    EuclideanParts(n, index);
    Distribute(n, index / n);
    assert index + k == n * q + i;
    Remainder(n, index + k, q, i);
    assert Around(n, index, k) == i;
  }

  lemma EuclideanParts(n: nat, x: nat)
    requires n > 0
    ensures x == n * (x / n) + x % n
  {}

  lemma Distribute(n: nat, q: nat)
    ensures n * (q + 1) == n * q + n
  {}

  lemma {:induction false} TimesAtLeast(n: nat, d: nat)
    requires d > 0
    ensures n * d >= n
  {
    if d > 1 {
      TimesAtLeast(n, d - 1);
      Distribute(n, d - 1);
    }
  }

  lemma TimesDifference(n: nat, a: nat, b: nat)
    requires a < b
    ensures n * a + n <= n * b
  {
    TimesAtLeast(n, b - a);
    assert n * b == n * a + n * (b - a);
  }

  lemma Remainder(n: nat, x: nat, q: nat, i: nat)
    requires i < n && x == n * q + i
    ensures x % n == i
  {
    EuclideanParts(n, x);
    if q < x / n {
      TimesDifference(n, q, x / n);
    } else if q > x / n {
      TimesDifference(n, x / n, q);
    }
  }
}
