// The placement allocator, as functions on values.
//
// The region keeps its machines in one array indexed by machine index and its
// racks' free-machine counters in another array indexed by rack index.  Rack
// j owns the machines [j*m, j*m+m) and datacenter d owns the racks
// [d*r, d*r+r), where m is the number of machines per rack and r the number
// of racks per datacenter: that is the order in which the constructors hand
// out indices.  A `Pool` is a snapshot of everything an allocation touches:
// the machines, the rack capacities and the placement of the cluster being
// allocated.  The methods of Region are proved to compute these functions.

module Placement {
  import opened Machines

  datatype Option<T> = None | Some(value: T)

  /** The two errors Region.allocate_smaug_cluster can return. */
  datatype AllocError = HostsNotDivisible | NotEnoughMachines

  function Min(a: int, b: int): (r: int) {
    if a <= b then a else b
  }

  /** Where block j starts when blocks of m indices are laid end to end (that
      is j * m, written as repeated addition so that every proof about it
      stays linear). */
  function Offset(j: nat, m: nat): (r: nat)
    decreases j
  {
    if j == 0 then 0 else Offset(j - 1, m) + m
  }

  lemma {:induction false} OffsetProduct(j: nat, m: nat)
    ensures Offset(j, m) == j * m
    decreases j
  {
    if j > 0 {
      OffsetProduct(j - 1, m);
    }
  }

  /** Block j of n blocks of m lies inside the first n blocks. */
  lemma {:induction false} BlockWithin(j: nat, n: nat, m: nat)
    requires j < n
    ensures Offset(j, m) + m <= Offset(n, m)
    decreases n
  {
    if j < n - 1 {
      BlockWithin(j, n - 1, m);
    }
  }

  predicate Increasing(s: seq<nat>) {
    forall a, b :: 0 <= a < b < |s| ==> s[a] < s[b]
  }

  lemma IncreasingSnoc(s: seq<nat>, x: nat)
    requires Increasing(s) && forall e :: e in s ==> e < x
    ensures Increasing(s + [x])
  {
    forall a, b | 0 <= a < b < |s| + 1
      ensures (s + [x])[a] < (s + [x])[b]
    {
      assert s[a] in s;
    }
  }

  /** Distinct blocks are disjoint. */
  lemma BlocksApart(i: nat, j: nat, m: nat)
    requires i != j
    ensures Offset(i, m) + m <= Offset(j, m) || Offset(j, m) + m <= Offset(i, m)
  {
    if i < j {
      BlockWithin(i, j, m);
    } else {
      BlockWithin(j, i, m);
    }
  }

  // ------------------------------------------------------------------ racks

  /** How many machines of ms[lo..hi] are not allocated. */
  function FreeCount(ms: seq<Machine>, lo: nat, hi: nat): (r: nat)
    requires lo <= hi <= |ms|
    decreases hi
  {
    if hi == lo then 0 else FreeCount(ms, lo, hi - 1) + (if ms[hi - 1].IsAllocated() then 0 else 1)
  }

  /** The machines Rack.allocate_machines takes when asked for k: walking
      ms[lo..hi] in order, every unallocated machine while fewer than k are
      taken. */
  function Pick(ms: seq<Machine>, lo: nat, hi: nat, k: int): (p: seq<nat>)
    requires lo <= hi <= |ms|
    decreases hi
  {
    if hi == lo then []
    else
      var prev := Pick(ms, lo, hi - 1, k);
      if !ms[hi - 1].IsAllocated() && |prev| < k then prev + [hi - 1] else prev
  }

  /** The machines picked are free machines of ms[lo..hi], in increasing order. */
  lemma {:induction false} PickSound(ms: seq<Machine>, lo: nat, hi: nat, k: int)
    requires lo <= hi <= |ms|
    ensures Increasing(Pick(ms, lo, hi, k))
    ensures forall e :: e in Pick(ms, lo, hi, k) ==> lo <= e < hi && !ms[e].IsAllocated()
    decreases hi
  {
    if hi != lo {
      var prev := Pick(ms, lo, hi - 1, k);
      PickSound(ms, lo, hi - 1, k);
      if !ms[hi - 1].IsAllocated() && |prev| < k {
        IncreasingSnoc(prev, hi - 1);
      }
    }
  }

  /** The machines `picked` allocated to `cluster`, one after another; every
      other machine as it was. */
  function Mark(ms: seq<Machine>, picked: seq<nat>, cluster: nat): (r: seq<Machine>)
    ensures |r| == |ms|
    decreases |picked|
  {
    if picked == [] then ms
    else
      var prev := Mark(ms, picked[..|picked| - 1], cluster);
      var x := picked[|picked| - 1];
      if x < |ms| then prev[x := ms[x].Allocate(cluster)] else prev
  }

  /** Machine i ends up allocated to the cluster exactly when it was picked. */
  lemma {:induction false} MarkAt(ms: seq<Machine>, picked: seq<nat>, cluster: nat, i: nat)
    requires i < |ms|
    ensures Mark(ms, picked, cluster)[i] == if i in picked then ms[i].Allocate(cluster) else ms[i]
    decreases |picked|
  {
    if picked != [] {
      var prefix := picked[..|picked| - 1];
      MarkAt(ms, prefix, cluster, i);
      assert i in picked <==> i in prefix || i == picked[|picked| - 1] by {
        assert picked == prefix + [picked[|picked| - 1]];
      }
    }
  }

  /** The machines of ms[lo..hi] allocated to `cluster` released, every other
      machine as it was (Rack.deallocate_machines). */
  function Release(ms: seq<Machine>, lo: nat, hi: nat, cluster: nat): (r: seq<Machine>)
    ensures |r| == |ms|
  {
    seq(|ms|, i requires 0 <= i < |ms| =>
      if lo <= i < hi && ms[i].clusterIdx == cluster then ms[i].Deallocate() else ms[i])
  }

  /** How many of the indices lo .. hi-1 occur in `s`. */
  function Hits(s: seq<nat>, lo: nat, hi: nat): (r: nat)
    requires lo <= hi
    decreases hi
  {
    if hi == lo then 0 else Hits(s, lo, hi - 1) + (if hi - 1 in s then 1 else 0)
  }

  /** How many machines of ms[lo..hi] are allocated to `cluster`. */
  function HeldCount(ms: seq<Machine>, lo: nat, hi: nat, cluster: nat): (r: nat)
    requires lo <= hi <= |ms|
    decreases hi
  {
    if hi == lo then 0 else HeldCount(ms, lo, hi - 1, cluster) + (if ms[hi - 1].clusterIdx == cluster then 1 else 0)
  }

  /** Rack.allocate_machines takes the first k free machines of its rack, in
      rack order: k of them when there are that many, else every free one; a
      free machine is passed over only once k are taken, and then it comes
      after all taken ones. */
  lemma {:induction false} PickFirstFree(ms: seq<Machine>, lo: nat, hi: nat, k: int)
    requires lo <= hi <= |ms|
    ensures var p := Pick(ms, lo, hi, k);
            && |p| == (if k <= 0 then 0 else Min(k, FreeCount(ms, lo, hi)))
            && forall i :: lo <= i < hi && !ms[i].IsAllocated() && i !in p ==>
                 |p| >= k && forall e :: e in p ==> e < i
    decreases hi
  {
    if hi != lo {
      PickFirstFree(ms, lo, hi - 1, k);
      PickSound(ms, lo, hi - 1, k);
    }
  }

  lemma {:induction false} FreeCountFrame(ms: seq<Machine>, ms': seq<Machine>, lo: nat, hi: nat)
    requires lo <= hi <= |ms| && hi <= |ms'|
    requires forall x :: lo <= x < hi ==> ms'[x] == ms[x]
    ensures FreeCount(ms', lo, hi) == FreeCount(ms, lo, hi)
    decreases hi
  {
    if hi != lo {
      FreeCountFrame(ms, ms', lo, hi - 1);
    }
  }

  /** A range whose machines are all free counts every one of them. */
  lemma {:induction false} FreeCountAll(ms: seq<Machine>, lo: nat, hi: nat)
    requires lo <= hi <= |ms|
    requires forall x :: lo <= x < hi ==> !ms[x].IsAllocated()
    ensures FreeCount(ms, lo, hi) == hi - lo
    decreases hi
  {
    if hi != lo {
      FreeCountAll(ms, lo, hi - 1);
    }
  }

  lemma {:induction false} HitsFrame(s: seq<nat>, t: seq<nat>, lo: nat, hi: nat)
    requires lo <= hi
    requires forall x :: lo <= x < hi ==> (x in s <==> x in t)
    ensures Hits(s, lo, hi) == Hits(t, lo, hi)
    decreases hi
  {
    if hi != lo {
      HitsFrame(s, t, lo, hi - 1);
    }
  }

  lemma {:induction false} HitsNone(s: seq<nat>, lo: nat, hi: nat)
    requires lo <= hi
    requires forall e :: e in s ==> e < lo || hi <= e
    ensures Hits(s, lo, hi) == 0
    decreases hi
  {
    if hi != lo {
      HitsNone(s, lo, hi - 1);
    }
  }

  /** Every machine Pick takes is counted once. */
  lemma {:induction false} HitsPick(ms: seq<Machine>, lo: nat, hi: nat, k: int)
    requires lo <= hi <= |ms|
    ensures Hits(Pick(ms, lo, hi, k), lo, hi) == |Pick(ms, lo, hi, k)|
    decreases hi
  {
    if hi != lo {
      var prev := Pick(ms, lo, hi - 1, k);
      HitsPick(ms, lo, hi - 1, k);
      PickSound(ms, lo, hi - 1, k);
      HitsFrame(prev, Pick(ms, lo, hi, k), lo, hi - 1);
    }
  }

  /** Allocating free machines lowers the free count of a range by the number
      of them inside it. */
  lemma {:induction false} MarkFreeCount(ms: seq<Machine>, picked: seq<nat>, cluster: nat, lo: nat, hi: nat)
    requires lo <= hi <= |ms|
    requires forall e :: e in picked ==> e < |ms| && !ms[e].IsAllocated()
    ensures FreeCount(Mark(ms, picked, cluster), lo, hi) == FreeCount(ms, lo, hi) - Hits(picked, lo, hi)
    decreases hi
  {
    if hi != lo {
      MarkFreeCount(ms, picked, cluster, lo, hi - 1);
      MarkAt(ms, picked, cluster, hi - 1);
    }
  }

  /** Releasing a cluster's machines raises the free count of the rack by the
      number of machines it held there. */
  lemma {:induction false} ReleaseFreeCount(ms: seq<Machine>, lo: nat, hi: nat, cluster: nat, a: nat, b: nat)
    requires lo <= hi <= |ms| && a <= b <= |ms|
    requires lo <= a && b <= hi
    ensures FreeCount(Release(ms, lo, hi, cluster), a, b) == FreeCount(ms, a, b) + HeldCount(ms, a, b, cluster)
    decreases b
  {
    if b != a {
      ReleaseFreeCount(ms, lo, hi, cluster, a, b - 1);
    }
  }

  // ------------------------------------------------------------------ pools

  /** What a cluster allocation reads and changes: every machine, every rack's
      capacity, and the placement of the cluster being allocated. */
  datatype Pool = Pool(machines: seq<Machine>, capacity: seq<int>, placement: seq<nat>)

  /** `m` machines per rack. */
  predicate Shaped(p: Pool, m: nat) {
    |p.machines| == Offset(|p.capacity|, m)
  }

  /** Rack j's free machines minus its capacity counter. */
  function Slack(p: Pool, m: nat, j: nat): (r: int)
    requires Shaped(p, m) && j < |p.capacity|
  {
    BlockWithin(j, |p.capacity|, m);
    FreeCount(p.machines, Offset(j, m), Offset(j, m) + m) - p.capacity[j]
  }

  /** How many machines of rack j are allocated to `cluster`. */
  function RackHeld(p: Pool, m: nat, j: nat, cluster: nat): (r: nat)
    requires Shaped(p, m) && j < |p.capacity|
  {
    BlockWithin(j, |p.capacity|, m);
    HeldCount(p.machines, Offset(j, m), Offset(j, m) + m, cluster)
  }

  /** Rack j's capacity counts its free machines exactly. */
  predicate CapacityExact(p: Pool, m: nat)
    requires Shaped(p, m)
  {
    forall j :: 0 <= j < |p.capacity| ==> Slack(p, m, j) == 0
  }

  /** Rack j's capacity never promises more machines than are free. */
  predicate CapacityBounded(p: Pool, m: nat)
    requires Shaped(p, m)
  {
    forall j :: 0 <= j < |p.capacity| ==> Slack(p, m, j) >= 0
  }

  /** The pool once the machines `picked` of rack j have been taken. */
  function Taken(p: Pool, j: nat, picked: seq<nat>, cluster: nat): (r: Pool)
    requires j < |p.capacity|
  {
    Pool(Mark(p.machines, picked, cluster), p.capacity[j := p.capacity[j] - |picked|], p.placement + picked)
  }

  /** Rack.allocate_machines(cluster, k) on rack j: the picked machines are
      allocated to the cluster and appended to its placement in rack order,
      and the capacity drops once per machine taken. */
  function RackAlloc(p: Pool, m: nat, j: nat, k: int, cluster: nat): (r: Pool)
    requires Shaped(p, m) && j < |p.capacity|
    ensures Shaped(r, m) && |r.capacity| == |p.capacity|
  {
    BlockWithin(j, |p.capacity|, m);
    Taken(p, j, Pick(p.machines, Offset(j, m), Offset(j, m) + m, k), cluster)
  }

  /** Rack.deallocate_machines(cluster) on rack j: capacity is left alone. */
  function RackRelease(p: Pool, m: nat, j: nat, cluster: nat): (r: Pool)
    requires Shaped(p, m) && j < |p.capacity|
    ensures Shaped(r, m) && |r.capacity| == |p.capacity|
  {
    Pool(Release(p.machines, Offset(j, m), Offset(j, m) + m, cluster), p.capacity, p.placement)
  }

  /** Allocation keeps every rack's slack, so the capacity counter stays exact
      (or bounded) across any number of allocations. */
  lemma RackAllocSlack(p: Pool, m: nat, j: nat, k: int, cluster: nat, i: nat)
    requires Shaped(p, m) && j < |p.capacity| && i < |p.capacity|
    ensures Slack(RackAlloc(p, m, j, k, cluster), m, i) == Slack(p, m, i)
  {
    BlockWithin(j, |p.capacity|, m);
    var lo, hi := Offset(j, m), Offset(j, m) + m;
    var picked := Pick(p.machines, lo, hi, k);
    HitsPick(p.machines, lo, hi, k);
    PickSound(p.machines, lo, hi, k);
    TakenSlack(p, m, j, picked, cluster, i);
  }

  /** Taking free machines of rack j, and counting each off its capacity,
      keeps the slack of every rack. */
  lemma TakenSlack(p: Pool, m: nat, j: nat, picked: seq<nat>, cluster: nat, i: nat)
    requires Shaped(p, m) && j < |p.capacity| && i < |p.capacity|
    requires forall e :: e in picked ==> Offset(j, m) <= e < Offset(j, m) + m && e < |p.machines| && !p.machines[e].IsAllocated()
    requires Hits(picked, Offset(j, m), Offset(j, m) + m) == |picked|
    ensures Shaped(Taken(p, j, picked, cluster), m)
    ensures Slack(Taken(p, j, picked, cluster), m, i) == Slack(p, m, i)
  {
    var q := Taken(p, j, picked, cluster);
    TakenFree(p, m, j, picked, cluster, i);
    SlackIs(q, m, i);
    SlackIs(p, m, i);
  }

  /** Rack i loses exactly the machines taken from it: all of them when it is
      rack j, none otherwise. */
  lemma TakenFree(p: Pool, m: nat, j: nat, picked: seq<nat>, cluster: nat, i: nat)
    requires Shaped(p, m) && j < |p.capacity| && i < |p.capacity|
    requires forall e :: e in picked ==> Offset(j, m) <= e < Offset(j, m) + m && e < |p.machines| && !p.machines[e].IsAllocated()
    requires Hits(picked, Offset(j, m), Offset(j, m) + m) == |picked|
    ensures Offset(i, m) + m <= |p.machines|
    ensures FreeCount(Mark(p.machines, picked, cluster), Offset(i, m), Offset(i, m) + m)
         == FreeCount(p.machines, Offset(i, m), Offset(i, m) + m) - (if i == j then |picked| else 0)
  {
    BlockWithin(i, |p.capacity|, m);
    var a, b := Offset(i, m), Offset(i, m) + m;
    MarkFreeCount(p.machines, picked, cluster, a, b);
    if i != j {
      BlocksApart(i, j, m);
      HitsNone(picked, a, b);
    }
  }

  lemma SlackIs(p: Pool, m: nat, i: nat)
    requires Shaped(p, m) && i < |p.capacity|
    ensures Offset(i, m) + m <= |p.machines|
    ensures Slack(p, m, i) == FreeCount(p.machines, Offset(i, m), Offset(i, m) + m) - p.capacity[i]
  {
    BlockWithin(i, |p.capacity|, m);
  }

  /** What allocation can do to one machine: leave it alone, or allocate it
      to the cluster when it was free.  An allocated machine is never taken. */
  predicate Fate(before: Machine, after: Machine, cluster: nat) {
    after == before || (!before.IsAllocated() && after == before.Allocate(cluster))
  }

  lemma RackAllocFate(p: Pool, m: nat, j: nat, k: int, cluster: nat, x: nat)
    requires Shaped(p, m) && j < |p.capacity| && x < |p.machines|
    ensures Fate(p.machines[x], RackAlloc(p, m, j, k, cluster).machines[x], cluster)
  {
    BlockWithin(j, |p.capacity|, m);
    PickSound(p.machines, Offset(j, m), Offset(j, m) + m, k);
    MarkAt(p.machines, Pick(p.machines, Offset(j, m), Offset(j, m) + m, k), cluster, x);
  }

  /** Asked for k machines when its capacity is at least k, a rack whose
      capacity is bounded by its free machines hands out exactly k. */
  lemma RackAllocCount(p: Pool, m: nat, j: nat, k: int, cluster: nat)
    requires Shaped(p, m) && j < |p.capacity|
    requires Slack(p, m, j) >= 0 && 0 <= k <= p.capacity[j]
    ensures |RackAlloc(p, m, j, k, cluster).placement| == |p.placement| + k
  {
    BlockWithin(j, |p.capacity|, m);
    PickFirstFree(p.machines, Offset(j, m), Offset(j, m) + m, k);
  }

  /** Allocation on rack j stays inside rack j: the placement only grows, by
      machines of rack j that are now allocated to the cluster; rack j's
      capacity drops by their number; every other rack's capacity and every
      machine outside rack j are left as they were. */
  lemma RackAllocConfined(p: Pool, m: nat, j: nat, k: int, cluster: nat)
    requires Shaped(p, m) && j < |p.capacity|
    ensures var q := RackAlloc(p, m, j, k, cluster);
            && Offset(j, m) + m <= |p.machines|
            && |p.placement| <= |q.placement| && q.placement[..|p.placement|] == p.placement
            && q.capacity[j] == p.capacity[j] - (|q.placement| - |p.placement|)
            && (forall i :: 0 <= i < |p.capacity| && i != j ==> q.capacity[i] == p.capacity[i])
            && (forall x :: 0 <= x < |p.machines| && !(Offset(j, m) <= x < Offset(j, m) + m) ==> q.machines[x] == p.machines[x])
            && forall e :: e in q.placement[|p.placement|..] ==>
                 Offset(j, m) <= e < Offset(j, m) + m && q.machines[e] == p.machines[e].Allocate(cluster)
  {
    BlockWithin(j, |p.capacity|, m);
    var lo, hi := Offset(j, m), Offset(j, m) + m;
    var picked := Pick(p.machines, lo, hi, k);
    var q := RackAlloc(p, m, j, k, cluster);
    PickSound(p.machines, lo, hi, k);
    assert q.placement[|p.placement|..] == picked;
    forall x | 0 <= x < |p.machines|
      ensures q.machines[x] == if x in picked then p.machines[x].Allocate(cluster) else p.machines[x]
    {
      MarkAt(p.machines, picked, cluster, x);
    }
  }

  /** Releasing keeps the capacity and frees exactly the machines the cluster
      held in that rack, so a bounded capacity stays bounded and the slack of
      that rack grows by their number. */
  lemma RackReleaseSlack(p: Pool, m: nat, j: nat, cluster: nat, i: nat)
    requires Shaped(p, m) && j < |p.capacity| && i < |p.capacity|
    ensures var q := RackRelease(p, m, j, cluster);
            Slack(q, m, i) == Slack(p, m, i) + (if i == j then RackHeld(p, m, j, cluster) else 0)
  {
    var n := |p.capacity|;
    BlockWithin(j, n, m);
    BlockWithin(i, n, m);
    var lo, hi, a, b := Offset(j, m), Offset(j, m) + m, Offset(i, m), Offset(i, m) + m;
    var q := RackRelease(p, m, j, cluster);
    assert q.machines == Release(p.machines, lo, hi, cluster);
    if i == j {
      assert FreeCount(q.machines, a, b) == FreeCount(p.machines, a, b) + HeldCount(p.machines, a, b, cluster) by {
        ReleaseFreeCount(p.machines, lo, hi, cluster, a, b);
      }
    } else {
      assert FreeCount(q.machines, a, b) == FreeCount(p.machines, a, b) by {
        BlocksApart(i, j, m);
        FreeCountFrame(p.machines, q.machines, a, b);
      }
    }
  }

  /** After releasing, no machine of the range is left allocated to the cluster. */
  lemma {:induction false} ReleaseHeldNone(ms: seq<Machine>, lo: nat, hi: nat, cluster: nat, a: nat, b: nat)
    requires lo <= a <= b <= hi <= |ms|
    ensures HeldCount(Release(ms, lo, hi, cluster), a, b, cluster) == 0
    decreases b
  {
    if b != a {
      ReleaseHeldNone(ms, lo, hi, cluster, a, b - 1);
    }
  }

  /** Once rack j has released the cluster, the cluster holds none of rack
      j's machines; the capacity counters are left as they were. */
  lemma RackReleaseClears(p: Pool, m: nat, j: nat, cluster: nat)
    requires Shaped(p, m) && j < |p.capacity|
    ensures var q := RackRelease(p, m, j, cluster);
            RackHeld(q, m, j, cluster) == 0 && q.capacity == p.capacity && q.placement == p.placement
  {
    BlockWithin(j, |p.capacity|, m);
    ReleaseHeldNone(p.machines, Offset(j, m), Offset(j, m) + m, cluster, Offset(j, m), Offset(j, m) + m);
  }

  // ------------------------------------------------------------ datacenters

  /** The rack that rack-locality mode hands a datacenter's whole share to:
      the first of racks lo .. hi-1 whose capacity is at least h. */
  function FirstFit(capacity: seq<int>, lo: nat, hi: nat, h: int): (r: Option<nat>)
    requires lo <= hi <= |capacity|
    ensures r.Some? ==> lo <= r.value < hi && capacity[r.value] >= h
                        && forall i :: lo <= i < r.value ==> capacity[i] < h
    ensures r.None? ==> forall i :: lo <= i < hi ==> capacity[i] < h
    decreases hi - lo
  {
    if lo == hi then None
    else if capacity[lo] >= h then Some(lo)
    else FirstFit(capacity, lo + 1, hi, h)
  }

  /** Spread mode stops once it has taken h machines; with h <= 0 that test
      never fires. */
  predicate Stopped(taken: nat, h: int) {
    0 < h <= taken
  }

  /** The racks spread mode takes one machine from: racks lo .. hi-1 in order,
      each with capacity at least 1, until h are taken. */
  function SpreadRacks(capacity: seq<int>, lo: nat, hi: nat, h: int): (s: seq<nat>)
    requires lo <= hi <= |capacity|
    decreases hi
  {
    if hi == lo then []
    else
      var prev := SpreadRacks(capacity, lo, hi - 1, h);
      if !Stopped(|prev|, h) && capacity[hi - 1] >= 1 then prev + [hi - 1] else prev
  }

  /** The racks spread mode takes are racks of lo .. hi-1 with capacity. */
  lemma {:induction false} SpreadRacksIn(capacity: seq<int>, lo: nat, hi: nat, h: int)
    requires lo <= hi <= |capacity|
    ensures forall i :: 0 <= i < |SpreadRacks(capacity, lo, hi, h)| ==>
              lo <= SpreadRacks(capacity, lo, hi, h)[i] < hi && capacity[SpreadRacks(capacity, lo, hi, h)[i]] >= 1
    decreases hi
  {
    if hi != lo {
      var prev := SpreadRacks(capacity, lo, hi - 1, h);
      SpreadRacksIn(capacity, lo, hi - 1, h);
      var s := SpreadRacks(capacity, lo, hi, h);
      forall i | 0 <= i < |s|
        ensures lo <= s[i] < hi && capacity[s[i]] >= 1
      {
        if i < |prev| {
          assert s[i] == prev[i];
        }
      }
    }
  }

  /** The racks spread mode takes come in increasing order, so no rack is
      taken twice. */
  lemma {:induction false} SpreadRacksSound(capacity: seq<int>, lo: nat, hi: nat, h: int)
    requires lo <= hi <= |capacity|
    ensures var s := SpreadRacks(capacity, lo, hi, h);
            Increasing(s) && forall i :: 0 <= i < |s| ==> lo <= s[i] < hi && capacity[s[i]] >= 1
    decreases hi
  {
    SpreadRacksIn(capacity, lo, hi, h);
    if hi != lo {
      var prev := SpreadRacks(capacity, lo, hi - 1, h);
      SpreadRacksSound(capacity, lo, hi - 1, h);
      if !Stopped(|prev|, h) && capacity[hi - 1] >= 1 {
        IncreasingSnoc(prev, hi - 1);
      }
    }
  }


  /** How many of racks lo .. hi-1 have capacity at least 1. */
  function Fitting(capacity: seq<int>, lo: nat, hi: nat): (r: nat)
    requires lo <= hi <= |capacity|
    decreases hi
  {
    if hi == lo then 0 else Fitting(capacity, lo, hi - 1) + (if capacity[hi - 1] >= 1 then 1 else 0)
  }

  /** Spread mode takes every rack with capacity until h are taken: h of
      them when there are that many (any number when h <= 0). */
  lemma {:induction false} SpreadRacksCount(capacity: seq<int>, lo: nat, hi: nat, h: int)
    requires lo <= hi <= |capacity|
    ensures |SpreadRacks(capacity, lo, hi, h)|
         == (if h <= 0 then Fitting(capacity, lo, hi) else Min(h, Fitting(capacity, lo, hi)))
    decreases hi
  {
    if hi != lo {
      SpreadRacksCount(capacity, lo, hi - 1, h);
    }
  }

  /** Spread mode takes the racks with capacity in order: a rack with capacity
      is passed over only after the stop, behind every taken one. */
  lemma {:induction false} SpreadRacksFirst(capacity: seq<int>, lo: nat, hi: nat, h: int)
    requires lo <= hi <= |capacity|
    ensures var s := SpreadRacks(capacity, lo, hi, h);
            forall i :: lo <= i < hi && capacity[i] >= 1 && i !in s ==>
              Stopped(|s|, h) && forall e :: e in s ==> e < i
    decreases hi
  {
    if hi != lo {
      var s, prev := SpreadRacks(capacity, lo, hi, h), SpreadRacks(capacity, lo, hi - 1, h);
      SpreadRacksFirst(capacity, lo, hi - 1, h);
      SpreadRacksSound(capacity, lo, hi - 1, h);
      forall i | lo <= i < hi && capacity[i] >= 1 && i !in s
        ensures Stopped(|s|, h) && forall e :: e in s ==> e < i
      {
        if i == hi - 1 {
          assert s == prev && Stopped(|prev|, h);
        } else {
          assert i !in prev && Stopped(|prev|, h);
          assert s == prev;
        }
      }
    }
  }

  /** Rack.allocate_machines(cluster, k) on each of `racks`, in order. */
  function RacksAlloc(p: Pool, m: nat, racks: seq<nat>, k: int, cluster: nat): (r: Pool)
    requires Shaped(p, m)
    ensures Shaped(r, m) && |r.capacity| == |p.capacity|
    decreases |racks|
  {
    if racks == [] then p
    else
      var prev := RacksAlloc(p, m, racks[..|racks| - 1], k, cluster);
      if racks[|racks| - 1] < |p.capacity| then RackAlloc(prev, m, racks[|racks| - 1], k, cluster) else prev
  }

  lemma {:induction false} RacksAllocSlack(p: Pool, m: nat, racks: seq<nat>, k: int, cluster: nat, i: nat)
    requires Shaped(p, m) && (forall e :: 0 <= e < |racks| ==> racks[e] < |p.capacity|) && i < |p.capacity|
    ensures Slack(RacksAlloc(p, m, racks, k, cluster), m, i) == Slack(p, m, i)
    decreases |racks|
  {
    if racks != [] {
      var prefix := racks[..|racks| - 1];
      RacksAllocSlack(p, m, prefix, k, cluster, i);
      RackAllocSlack(RacksAlloc(p, m, prefix, k, cluster), m, racks[|racks| - 1], k, cluster, i);
    }
  }

  /** Allocating on some racks leaves the capacity of every other rack alone. */
  lemma {:induction false} RacksAllocCapacity(p: Pool, m: nat, racks: seq<nat>, k: int, cluster: nat, i: nat)
    requires Shaped(p, m) && i < |p.capacity| && i !in racks
    ensures RacksAlloc(p, m, racks, k, cluster).capacity[i] == p.capacity[i]
    decreases |racks|
  {
    if racks != [] {
      var prefix := racks[..|racks| - 1];
      RacksAllocCapacity(p, m, prefix, k, cluster, i);
    }
  }

  /** One machine from each of `racks` (distinct racks, each with capacity
      at least 1, every capacity bounded): the placement grows by one machine
      per rack. */
  lemma {:induction false} RacksAllocOneEach(p: Pool, m: nat, racks: seq<nat>, cluster: nat)
    requires Shaped(p, m) && CapacityBounded(p, m)
    requires Increasing(racks)
    requires forall i :: 0 <= i < |racks| ==> racks[i] < |p.capacity| && p.capacity[racks[i]] >= 1
    ensures |RacksAlloc(p, m, racks, 1, cluster).placement| == |p.placement| + |racks|
    decreases |racks|
  {
    if racks != [] {
      var prefix := racks[..|racks| - 1];
      var j := racks[|racks| - 1];
      var q := RacksAlloc(p, m, prefix, 1, cluster);
      assert |q.placement| == |p.placement| + |prefix| by {
        RacksAllocOneEach(p, m, prefix, cluster);
      }
      assert q.capacity[j] == p.capacity[j] by {
        assert j !in prefix;
        RacksAllocCapacity(p, m, prefix, 1, cluster, j);
      }
      assert Slack(q, m, j) == Slack(p, m, j) by {
        RacksAllocSlack(p, m, prefix, 1, cluster, j);
      }
      assert Slack(p, m, j) >= 0;
      RackAllocCount(q, m, j, 1, cluster);
    }
  }

  /** Rack-locality mode on racks lo .. hi-1: the whole share of h machines
      goes to the first rack with capacity for it; when there is none,
      nothing happens and nothing is reported. */
  function LocalityDc(p: Pool, m: nat, lo: nat, hi: nat, h: int, cluster: nat): (r: Pool)
    requires Shaped(p, m) && lo <= hi <= |p.capacity|
    ensures Shaped(r, m) && |r.capacity| == |p.capacity|
  {
    var fit := FirstFit(p.capacity, lo, hi, h);
    if fit.Some? then RackAlloc(p, m, fit.value, h, cluster) else p
  }

  /** Rack-locality mode touches only the rack it picks: every other rack's
      capacity and every machine outside the picked rack stay as they were. */
  lemma LocalityConfined(p: Pool, m: nat, lo: nat, hi: nat, h: int, cluster: nat)
    requires Shaped(p, m) && lo <= hi <= |p.capacity|
    ensures var q := LocalityDc(p, m, lo, hi, h, cluster);
            var fit := FirstFit(p.capacity, lo, hi, h);
            fit.Some? ==>
              && (forall i :: 0 <= i < |p.capacity| && i != fit.value ==> q.capacity[i] == p.capacity[i])
              && (forall x :: 0 <= x < |p.machines| && !(Offset(fit.value, m) <= x < Offset(fit.value, m) + m) ==>
                    q.machines[x] == p.machines[x])
  {
    var fit := FirstFit(p.capacity, lo, hi, h);
    if fit.Some? {
      RackAllocConfined(p, m, fit.value, h, cluster);
    }
  }

  /** Spread mode on racks lo .. hi-1: one machine from each rack with
      capacity until h are taken, and a shortfall reported when fewer than h
      racks gave one.  The rollback the source attempts on a shortfall is a
      lazy `map` that never runs, so the machines taken stay taken. */
  function SpreadDc(p: Pool, m: nat, lo: nat, hi: nat, h: int, cluster: nat): (res: (Pool, Option<AllocError>))
    requires Shaped(p, m) && lo <= hi <= |p.capacity|
    ensures Shaped(res.0, m) && |res.0.capacity| == |p.capacity|
  {
    var racks := SpreadRacks(p.capacity, lo, hi, h);
    (RacksAlloc(p, m, racks, 1, cluster), if |racks| < h then Some(NotEnoughMachines) else None)
  }

  lemma SpreadDcOf(p: Pool, m: nat, lo: nat, hi: nat, h: int, cluster: nat, racks: seq<nat>)
    requires Shaped(p, m) && lo <= hi <= |p.capacity| && racks == SpreadRacks(p.capacity, lo, hi, h)
    ensures SpreadDc(p, m, lo, hi, h, cluster).0 == RacksAlloc(p, m, racks, 1, cluster)
    ensures SpreadDc(p, m, lo, hi, h, cluster).1 == if |racks| < h then Some(NotEnoughMachines) else None
  {
  }

  /** Datacenter.allocate_smaug_cluster for datacenter d, whose racks are
      d*r .. d*r+r-1, with h machines to place. */
  function DcAlloc(p: Pool, m: nat, r: nat, d: nat, h: int, locality: bool, cluster: nat): (res: (Pool, Option<AllocError>))
    requires Shaped(p, m) && Offset(d, r) + r <= |p.capacity|
    ensures Shaped(res.0, m) && |res.0.capacity| == |p.capacity|
  {
    if locality then (LocalityDc(p, m, Offset(d, r), Offset(d, r) + r, h, cluster), None)
    else SpreadDc(p, m, Offset(d, r), Offset(d, r) + r, h, cluster)
  }

  lemma LocalityDcSlack(p: Pool, m: nat, lo: nat, hi: nat, h: int, cluster: nat, i: nat)
    requires Shaped(p, m) && lo <= hi <= |p.capacity| && i < |p.capacity|
    ensures Slack(LocalityDc(p, m, lo, hi, h, cluster), m, i) == Slack(p, m, i)
  {
    var fit := FirstFit(p.capacity, lo, hi, h);
    if fit.Some? {
      RackAllocSlack(p, m, fit.value, h, cluster, i);
    }
  }

  lemma SpreadDcSlack(p: Pool, m: nat, lo: nat, hi: nat, h: int, cluster: nat, i: nat)
    requires Shaped(p, m) && lo <= hi <= |p.capacity| && i < |p.capacity|
    ensures Slack(SpreadDc(p, m, lo, hi, h, cluster).0, m, i) == Slack(p, m, i)
  {
    SpreadRacksSound(p.capacity, lo, hi, h);
    RacksAllocSlack(p, m, SpreadRacks(p.capacity, lo, hi, h), 1, cluster, i);
  }

  /** A datacenter allocation keeps every rack's slack. */
  lemma DcAllocSlack(p: Pool, m: nat, r: nat, d: nat, h: int, locality: bool, cluster: nat, i: nat)
    requires Shaped(p, m) && Offset(d, r) + r <= |p.capacity| && i < |p.capacity|
    ensures Slack(DcAlloc(p, m, r, d, h, locality, cluster).0, m, i) == Slack(p, m, i)
  {
    var lo, hi := Offset(d, r), Offset(d, r) + r;
    var q := DcAlloc(p, m, r, d, h, locality, cluster).0;
    if locality {
      assert q == LocalityDc(p, m, lo, hi, h, cluster);
      LocalityDcSlack(p, m, lo, hi, h, cluster, i);
    } else {
      assert q == SpreadDc(p, m, lo, hi, h, cluster).0;
      SpreadDcSlack(p, m, lo, hi, h, cluster, i);
    }
  }

  /** Rack-locality mode, with bounded capacities and h >= 0: when one of the
      racks has capacity for h machines, exactly h are placed; when none has,
      nothing changes at all. */
  lemma LocalityAlloc(p: Pool, m: nat, lo: nat, hi: nat, h: int, cluster: nat)
    requires Shaped(p, m) && lo <= hi <= |p.capacity| && CapacityBounded(p, m)
    requires h >= 0
    ensures var q := LocalityDc(p, m, lo, hi, h, cluster);
            && ((exists j :: lo <= j < hi && p.capacity[j] >= h) ==> |q.placement| == |p.placement| + h)
            && ((forall j :: lo <= j < hi ==> p.capacity[j] < h) ==> q == p)
  {
    var fit := FirstFit(p.capacity, lo, hi, h);
    if fit.Some? {
      RackAllocCount(p, m, fit.value, h, cluster);
    }
  }

  /** Spread mode reports NotEnoughMachines exactly when fewer of the racks
      have capacity than h; with bounded capacities it places h machines when
      h > 0 and that many racks have capacity, else one per rack with
      capacity. */
  lemma SpreadAlloc(p: Pool, m: nat, lo: nat, hi: nat, h: int, cluster: nat)
    requires Shaped(p, m) && lo <= hi <= |p.capacity| && CapacityBounded(p, m)
    ensures var fitting := Fitting(p.capacity, lo, hi);
            var res := SpreadDc(p, m, lo, hi, h, cluster);
            && (res.1 == Some(NotEnoughMachines) <==> fitting < h)
            && (res.1 == None <==> h <= fitting)
            && |res.0.placement| == |p.placement| + (if h <= 0 then fitting else Min(h, fitting))
  {
    var racks := SpreadRacks(p.capacity, lo, hi, h);
    var fitting := Fitting(p.capacity, lo, hi);
    SpreadRacksSound(p.capacity, lo, hi, h);
    assert |racks| == (if h <= 0 then fitting else Min(h, fitting)) by {
      SpreadRacksCount(p.capacity, lo, hi, h);
    }
    assert |RacksAlloc(p, m, racks, 1, cluster).placement| == |p.placement| + |racks| by {
      RacksAllocOneEach(p, m, racks, cluster);
    }
  }

  /** Region.allocate_smaug_cluster's walk over datacenters d .. D-1: every
      datacenter in order, stopping at the first that reports an error. */
  function DcsAlloc(p: Pool, m: nat, r: nat, d: nat, dcs: nat, h: int, locality: bool, cluster: nat): (res: (Pool, Option<AllocError>))
    requires Shaped(p, m) && Offset(dcs, r) <= |p.capacity|
    ensures Shaped(res.0, m) && |res.0.capacity| == |p.capacity|
    decreases dcs - d
  {
    if d >= dcs then (p, None)
    else
      BlockWithin(d, dcs, r);
      var (q, err) := DcAlloc(p, m, r, d, h, locality, cluster);
      if err.Some? then (q, err) else DcsAlloc(q, m, r, d + 1, dcs, h, locality, cluster)
  }

  lemma {:induction false} DcsAllocSlack(p: Pool, m: nat, r: nat, d: nat, dcs: nat, h: int, locality: bool, cluster: nat, i: nat)
    requires Shaped(p, m) && Offset(dcs, r) <= |p.capacity| && i < |p.capacity|
    ensures Slack(DcsAlloc(p, m, r, d, dcs, h, locality, cluster).0, m, i) == Slack(p, m, i)
    decreases dcs - d
  {
    if d < dcs {
      BlockWithin(d, dcs, r);
      var (q, err) := DcAlloc(p, m, r, d, h, locality, cluster);
      DcAllocSlack(p, m, r, d, h, locality, cluster, i);
      if err.None? {
        DcsAllocSlack(q, m, r, d + 1, dcs, h, locality, cluster, i);
      }
    }
  }

  /** A whole cluster allocation keeps every rack's capacity counting its
      free machines exactly. */
  lemma DcsAllocExact(p: Pool, m: nat, r: nat, d: nat, dcs: nat, h: int, locality: bool, cluster: nat)
    requires Shaped(p, m) && Offset(dcs, r) <= |p.capacity| && CapacityExact(p, m)
    ensures CapacityExact(DcsAlloc(p, m, r, d, dcs, h, locality, cluster).0, m)
  {
    var q := DcsAlloc(p, m, r, d, dcs, h, locality, cluster).0;
    forall i | 0 <= i < |q.capacity|
      ensures Slack(q, m, i) == 0
    {
      DcsAllocSlack(p, m, r, d, dcs, h, locality, cluster, i);
    }
  }

  lemma ExactBounded(p: Pool, m: nat)
    requires Shaped(p, m) && CapacityExact(p, m)
    ensures CapacityBounded(p, m)
  {
    forall j | 0 <= j < |p.capacity|
      ensures Slack(p, m, j) >= 0
    {
      assert Slack(p, m, j) == 0;
    }
  }

  lemma DcAllocExact(p: Pool, m: nat, r: nat, d: nat, h: int, locality: bool, cluster: nat)
    requires Shaped(p, m) && Offset(d, r) + r <= |p.capacity| && CapacityExact(p, m)
    ensures CapacityExact(DcAlloc(p, m, r, d, h, locality, cluster).0, m)
  {
    var q := DcAlloc(p, m, r, d, h, locality, cluster).0;
    forall i | 0 <= i < |q.capacity|
      ensures Slack(q, m, i) == 0
    {
      DcAllocSlack(p, m, r, d, h, locality, cluster, i);
    }
  }

  /** Spread mode with h > 0 that reports no error has placed exactly h machines. */
  lemma SpreadDcPlaces(p: Pool, m: nat, lo: nat, hi: nat, h: int, cluster: nat)
    requires Shaped(p, m) && lo <= hi <= |p.capacity| && CapacityBounded(p, m)
    requires 0 < h && SpreadDc(p, m, lo, hi, h, cluster).1 == None
    ensures |SpreadDc(p, m, lo, hi, h, cluster).0.placement| == |p.placement| + h
  {
    SpreadAlloc(p, m, lo, hi, h, cluster);
  }

  /** The pool spread mode starts from: shaped, holding datacenters 0 .. dcs-1,
      with exact rack capacities. */
  predicate SpreadReady(p: Pool, m: nat, r: nat, dcs: nat) {
    Shaped(p, m) && Offset(dcs, r) <= |p.capacity| && CapacityExact(p, m)
  }

  /** One datacenter in spread mode with h > 0 and exact capacities: no error
      means h machines placed, and the capacities stay exact. */
  lemma SpreadDcStep(p: Pool, m: nat, r: nat, d: nat, dcs: nat, h: int, cluster: nat)
    requires SpreadReady(p, m, r, dcs) && 0 < h && d < dcs
    ensures Offset(d, r) + r <= |p.capacity|
    ensures var step := DcAlloc(p, m, r, d, h, false, cluster);
            && SpreadReady(step.0, m, r, dcs)
            && (step.1 == None ==> |step.0.placement| == |p.placement| + h)
  {
    BlockWithin(d, dcs, r);
    DcAllocExact(p, m, r, d, h, false, cluster);
    SpreadDcCount(p, m, r, d, h, cluster);
  }

  lemma SpreadDcCount(p: Pool, m: nat, r: nat, d: nat, h: int, cluster: nat)
    requires Shaped(p, m) && Offset(d, r) + r <= |p.capacity| && CapacityExact(p, m) && 0 < h
    ensures var step := DcAlloc(p, m, r, d, h, false, cluster);
            step.1 == None ==> |step.0.placement| == |p.placement| + h
  {
    var lo, hi := Offset(d, r), Offset(d, r) + r;
    assert DcAlloc(p, m, r, d, h, false, cluster) == SpreadDc(p, m, lo, hi, h, cluster);
    if SpreadDc(p, m, lo, hi, h, cluster).1 == None {
      ExactBounded(p, m);
      SpreadDcPlaces(p, m, lo, hi, h, cluster);
    }
  }

  /** s[from .. from+count] exists and names machines of lo .. hi-1 only. */
  predicate Within(s: seq<nat>, from: nat, count: nat, lo: nat, hi: nat) {
    from + count <= |s| && forall i :: from <= i < from + count ==> lo <= s[i] < hi
  }

  /** q's placement is p's followed by machines of lo .. hi-1 only. */
  predicate GrowsWithin(p: Pool, q: Pool, lo: nat, hi: nat) {
    && |p.placement| <= |q.placement| && q.placement[..|p.placement|] == p.placement
    && Within(q.placement, |p.placement|, |q.placement| - |p.placement|, lo, hi)
  }

  lemma {:induction false} OffsetMono(a: nat, b: nat, m: nat)
    requires a <= b
    ensures Offset(a, m) <= Offset(b, m)
    decreases b
  {
    if a < b {
      OffsetMono(a, b - 1, m);
    }
  }

  lemma GrowsSelf(p: Pool, lo: nat, hi: nat)
    ensures GrowsWithin(p, p, lo, hi)
  {
    assert p.placement[..|p.placement|] == p.placement;
  }

  /** Growing twice, each time inside lo .. hi-1, grows inside lo .. hi-1. */
  lemma GrowsTrans(p: Pool, q: Pool, s: Pool, lo: nat, hi: nat, a: nat, b: nat, c: nat, e: nat)
    requires GrowsWithin(p, q, a, b) && GrowsWithin(q, s, c, e)
    requires lo <= a && b <= hi && lo <= c && e <= hi
    ensures GrowsWithin(p, s, lo, hi)
  {
    assert s.placement[..|p.placement|] == q.placement[..|q.placement|][..|p.placement|];
    forall i | |p.placement| <= i < |s.placement|
      ensures lo <= s.placement[i] < hi
    {
      if i < |q.placement| {
        assert s.placement[i] == s.placement[..|q.placement|][i];
      }
    }
  }

  /** Rack.allocate_machines on rack j grows the placement with machines of rack j only. */
  lemma RackAllocGrows(p: Pool, m: nat, j: nat, k: int, cluster: nat)
    requires Shaped(p, m) && j < |p.capacity|
    ensures GrowsWithin(p, RackAlloc(p, m, j, k, cluster), Offset(j, m), Offset(j, m) + m)
  {
    var q := RackAlloc(p, m, j, k, cluster);
    RackAllocConfined(p, m, j, k, cluster);
    forall i | |p.placement| <= i < |q.placement|
      ensures Offset(j, m) <= q.placement[i] < Offset(j, m) + m
    {
      assert q.placement[i] in q.placement[|p.placement|..] by {
        assert q.placement[|p.placement|..][i - |p.placement|] == q.placement[i];
      }
    }
  }

  /** Allocating on racks of lo .. hi-1 grows the placement with their machines only. */
  lemma {:induction false} RacksAllocGrows(p: Pool, m: nat, racks: seq<nat>, k: int, cluster: nat, lo: nat, hi: nat)
    requires Shaped(p, m) && lo <= hi <= |p.capacity|
    requires forall i :: 0 <= i < |racks| ==> lo <= racks[i] < hi
    ensures GrowsWithin(p, RacksAlloc(p, m, racks, k, cluster), Offset(lo, m), Offset(hi, m))
    decreases |racks|
  {
    if racks == [] {
      GrowsSelf(p, Offset(lo, m), Offset(hi, m));
    } else {
      var prefix, j := racks[..|racks| - 1], racks[|racks| - 1];
      var prev := RacksAlloc(p, m, prefix, k, cluster);
      RacksAllocGrows(p, m, prefix, k, cluster, lo, hi);
      RackAllocGrows(prev, m, j, k, cluster);
      OffsetMono(lo, j, m);
      BlockWithin(j, hi, m);
      GrowsTrans(p, prev, RackAlloc(prev, m, j, k, cluster), Offset(lo, m), Offset(hi, m),
                 Offset(lo, m), Offset(hi, m), Offset(j, m), Offset(j, m) + m);
    }
  }

  /** Rack-locality mode on racks lo .. hi-1 only appends their machines to the placement. */
  lemma LocalityDcGrows(p: Pool, m: nat, lo: nat, hi: nat, h: int, cluster: nat)
    requires Shaped(p, m) && lo <= hi <= |p.capacity|
    ensures GrowsWithin(p, LocalityDc(p, m, lo, hi, h, cluster), Offset(lo, m), Offset(hi, m))
  {
    var fit := FirstFit(p.capacity, lo, hi, h);
    GrowsSelf(p, Offset(lo, m), Offset(hi, m));
    if fit.Some? {
      var j := fit.value;
      RackAllocGrows(p, m, j, h, cluster);
      OffsetMono(lo, j, m);
      BlockWithin(j, hi, m);
      GrowsTrans(p, p, RackAlloc(p, m, j, h, cluster), Offset(lo, m), Offset(hi, m),
                 Offset(lo, m), Offset(hi, m), Offset(j, m), Offset(j, m) + m);
    }
  }

  /** Datacenter.allocate_smaug_cluster on datacenter d, in either mode, only
      appends machines of datacenter d to the placement. */
  lemma DcAllocGrows(p: Pool, m: nat, r: nat, d: nat, h: int, locality: bool, cluster: nat)
    requires Shaped(p, m) && Offset(d, r) + r <= |p.capacity|
    ensures GrowsWithin(p, DcAlloc(p, m, r, d, h, locality, cluster).0, Offset(Offset(d, r), m), Offset(Offset(d, r) + r, m))
  {
    var lo, hi := Offset(d, r), Offset(d, r) + r;
    if locality {
      LocalityDcGrows(p, m, lo, hi, h, cluster);
    } else {
      SpreadRacksSound(p.capacity, lo, hi, h);
      RacksAllocGrows(p, m, SpreadRacks(p.capacity, lo, hi, h), 1, cluster, lo, hi);
    }
  }

  /** A cluster allocation over datacenters d .. dcs-1 keeps the placement
      it started from and appends machines of those datacenters only. */
  lemma {:induction false} DcsAllocGrows(p: Pool, m: nat, r: nat, d: nat, dcs: nat, h: int, locality: bool, cluster: nat)
    requires Shaped(p, m) && Offset(dcs, r) <= |p.capacity| && d <= dcs
    ensures GrowsWithin(p, DcsAlloc(p, m, r, d, dcs, h, locality, cluster).0, Offset(Offset(d, r), m), Offset(Offset(dcs, r), m))
    decreases dcs - d
  {
    var lo, hi := Offset(Offset(d, r), m), Offset(Offset(dcs, r), m);
    if d == dcs {
      GrowsSelf(p, lo, hi);
    } else {
      BlockWithin(d, dcs, r);
      OffsetMono(Offset(d, r) + r, Offset(dcs, r), m);
      var (q, err) := DcAlloc(p, m, r, d, h, locality, cluster);
      DcAllocGrows(p, m, r, d, h, locality, cluster);
      if err.Some? {
        GrowsSelf(q, lo, hi);
        GrowsTrans(p, q, q, lo, hi, lo, Offset(Offset(d, r) + r, m), lo, hi);
      } else {
        var res := DcsAlloc(q, m, r, d + 1, dcs, h, locality, cluster).0;
        DcsAllocGrows(q, m, r, d + 1, dcs, h, locality, cluster);
        assert Offset(d + 1, r) == Offset(d, r) + r;
        OffsetMono(Offset(d, r), Offset(d + 1, r), m);
        GrowsTrans(p, q, res, lo, hi, lo, Offset(Offset(d, r) + r, m), Offset(Offset(d + 1, r), m), hi);
      }
    }
  }

  lemma WithinPrefix(s: seq<nat>, t: seq<nat>, from: nat, count: nat, lo: nat, hi: nat)
    requires |t| <= |s| && s[..|t|] == t && Within(t, from, count, lo, hi)
    ensures Within(s, from, count, lo, hi)
  {
    forall i | from <= i < from + count
      ensures lo <= s[i] < hi
    {
      assert s[i] == s[..|t|][i];
    }
  }

  /** s, from position `from` on, is h machines of datacenter d, then h of
      datacenter d+1, and so on for `count` datacenters of r racks of m
      machines, and nothing after. */
  predicate Segments(s: seq<nat>, from: nat, d: nat, count: nat, h: nat, r: nat, m: nat)
    decreases count
  {
    if count == 0 then |s| == from
    else
      && Within(s, from, h, Offset(Offset(d, r), m), Offset(Offset(d, r) + r, m))
      && Segments(s, from + h, d + 1, count - 1, h, r, m)
  }

  /** Segment k of a Segments run, by multiplication: positions
      from + k*h .. from + k*h + h - 1 hold machines of datacenter d+k. */
  lemma {:induction false} SegmentAt(s: seq<nat>, from: nat, d: nat, count: nat, h: nat, r: nat, m: nat, k: nat)
    requires Segments(s, from, d, count, h, r, m) && k < count
    ensures Within(s, from + k * h, h, (d + k) * r * m, (d + k + 1) * r * m)
    decreases k
  {
    if k == 0 {
      OffsetProduct(d, r);
      OffsetProduct(Offset(d, r), m);
      OffsetProduct(Offset(d, r) + r, m);
      assert (d + 1) * r * m == (d * r + r) * m;
    } else {
      SegmentAt(s, from + h, d + 1, count - 1, h, r, m, k - 1);
      assert from + h + (k - 1) * h == from + k * h;
      assert d + 1 + (k - 1) == d + k;
    }
  }

  /** A Segments run of `count` datacenters is exactly count*h long. */
  lemma {:induction false} SegmentsLength(s: seq<nat>, from: nat, d: nat, count: nat, h: nat, r: nat, m: nat)
    requires Segments(s, from, d, count, h, r, m)
    ensures |s| == from + count * h
    decreases count
  {
    if count > 0 {
      SegmentsLength(s, from + h, d + 1, count - 1, h, r, m);
    }
  }

  /** What spread mode places over datacenters d .. dcs-1 when it reports no
      error: h machines for each datacenter in turn, each one a machine of
      that datacenter's racks. */
  predicate PlacesAll(p: Pool, m: nat, r: nat, d: nat, dcs: nat, h: int, cluster: nat)
    requires Shaped(p, m) && Offset(dcs, r) <= |p.capacity| && 0 < h && d <= dcs
  {
    var res := DcsAlloc(p, m, r, d, dcs, h, false, cluster);
    res.1 == None ==> Segments(res.0.placement, |p.placement|, d, dcs - d, h, r, m)
  }

  /** In spread mode with h > 0 and exact capacities, an allocation that
      reports no error has placed, for every datacenter in turn, exactly h
      machines of that datacenter. */
  lemma {:induction false} SpreadPlacesAll(p: Pool, m: nat, r: nat, d: nat, dcs: nat, h: int, cluster: nat)
    requires SpreadReady(p, m, r, dcs) && 0 < h && d <= dcs
    ensures PlacesAll(p, m, r, d, dcs, h, cluster)
    decreases dcs - d, 1
  {
    if d < dcs {
      SpreadPlacesNext(p, m, r, d, dcs, h, cluster);
    }
  }

  /** The step of SpreadPlacesAll: datacenter d, then the rest. */
  lemma {:induction false} SpreadPlacesNext(p: Pool, m: nat, r: nat, d: nat, dcs: nat, h: int, cluster: nat)
    requires SpreadReady(p, m, r, dcs) && 0 < h && d < dcs
    ensures PlacesAll(p, m, r, d, dcs, h, cluster)
    decreases dcs - d, 0
  {
    SpreadDcStep(p, m, r, d, dcs, h, cluster);
    var step := DcAlloc(p, m, r, d, h, false, cluster);
    SpreadPlacesAll(step.0, m, r, d + 1, dcs, h, cluster);
    DcAllocGrows(p, m, r, d, h, false, cluster);
    DcsAllocGrows(step.0, m, r, d + 1, dcs, h, false, cluster);
    SpreadPlacesLink(p, m, r, d, dcs, h, cluster);
  }

  lemma SpreadPlacesLink(p: Pool, m: nat, r: nat, d: nat, dcs: nat, h: int, cluster: nat)
    requires Shaped(p, m) && Offset(dcs, r) <= |p.capacity| && 0 < h && d < dcs
    requires Offset(d, r) + r <= |p.capacity|
    requires var step := DcAlloc(p, m, r, d, h, false, cluster);
             && (step.1 == None ==> |step.0.placement| == |p.placement| + h)
             && GrowsWithin(p, step.0, Offset(Offset(d, r), m), Offset(Offset(d, r) + r, m))
             && GrowsWithin(step.0, DcsAlloc(step.0, m, r, d + 1, dcs, h, false, cluster).0,
                            Offset(Offset(d + 1, r), m), Offset(Offset(dcs, r), m))
             && PlacesAll(step.0, m, r, d + 1, dcs, h, cluster)
    ensures PlacesAll(p, m, r, d, dcs, h, cluster)
  {
    var step := DcAlloc(p, m, r, d, h, false, cluster);
    var q := step.0;
    var res := DcsAlloc(p, m, r, d, dcs, h, false, cluster);
    if res.1 == None {
      assert step.1 == None;
      assert res == DcsAlloc(q, m, r, d + 1, dcs, h, false, cluster);
      LinkSegments(res.0.placement, q.placement, |p.placement|, d, dcs, h, r, m);
    }
  }

  /** Datacenter d's h machines, followed by h machines for each later
      datacenter, are h machines for each datacenter from d on. */
  lemma LinkSegments(s: seq<nat>, t: seq<nat>, from: nat, d: nat, dcs: nat, h: nat, r: nat, m: nat)
    requires d < dcs && from + h == |t| && |t| <= |s| && s[..|t|] == t
    requires Within(t, from, h, Offset(Offset(d, r), m), Offset(Offset(d, r) + r, m))
    requires Segments(s, |t|, d + 1, dcs - (d + 1), h, r, m)
    ensures Segments(s, from, d, dcs - d, h, r, m)
  {
    WithinPrefix(s, t, from, h, Offset(Offset(d, r), m), Offset(Offset(d, r) + r, m));
  }


  /** Rack-locality mode never reports an error, whatever the capacities. */
  lemma {:induction false} LocalityNeverFails(p: Pool, m: nat, r: nat, d: nat, dcs: nat, h: int, cluster: nat)
    requires Shaped(p, m) && Offset(dcs, r) <= |p.capacity|
    ensures DcsAlloc(p, m, r, d, dcs, h, true, cluster).1 == None
    decreases dcs - d
  {
    if d < dcs {
      BlockWithin(d, dcs, r);
      var (q, err) := DcAlloc(p, m, r, d, h, true, cluster);
      LocalityNeverFails(q, m, r, d + 1, dcs, h, cluster);
    }
  }

  // ------------------------------------------------------------ membership

  predicate Distinct(s: seq<nat>) {
    forall a, b :: 0 <= a < b < |s| ==> s[a] != s[b]
  }

  /** The cluster's placement lists each machine once, and every machine it
      lists is allocated to the cluster. */
  predicate Holds(p: Pool, cluster: nat) {
    && Distinct(p.placement)
    && forall i :: 0 <= i < |p.placement| ==>
         p.placement[i] < |p.machines| && p.machines[p.placement[i]].clusterIdx == cluster
  }

  lemma RackAllocHolds(p: Pool, m: nat, j: nat, k: int, cluster: nat)
    requires Shaped(p, m) && j < |p.capacity| && Holds(p, cluster)
    ensures Holds(RackAlloc(p, m, j, k, cluster), cluster)
  {
    BlockWithin(j, |p.capacity|, m);
    var picked := Pick(p.machines, Offset(j, m), Offset(j, m) + m, k);
    var q := RackAlloc(p, m, j, k, cluster);
    assert q.placement == p.placement + picked;
    PickSound(p.machines, Offset(j, m), Offset(j, m) + m, k);
    forall a | 0 <= a < |p.placement|
      ensures p.placement[a] !in picked
    {
      assert p.machines[p.placement[a]].IsAllocated();
    }
    forall a, b | 0 <= a < b < |q.placement|
      ensures q.placement[a] != q.placement[b]
    {
      if b >= |p.placement| && a < |p.placement| {
        assert q.placement[b] in picked;
      }
    }
    forall i | 0 <= i < |q.placement|
      ensures q.placement[i] < |q.machines| && q.machines[q.placement[i]].clusterIdx == cluster
    {
      if i >= |p.placement| {
        assert q.placement[i] in picked;
      }
      MarkAt(p.machines, picked, cluster, q.placement[i]);
    }
  }

  lemma {:induction false} RacksAllocHolds(p: Pool, m: nat, racks: seq<nat>, k: int, cluster: nat)
    requires Shaped(p, m) && (forall e :: 0 <= e < |racks| ==> racks[e] < |p.capacity|) && Holds(p, cluster)
    ensures Holds(RacksAlloc(p, m, racks, k, cluster), cluster)
    decreases |racks|
  {
    if racks != [] {
      var prefix := racks[..|racks| - 1];
      RacksAllocHolds(p, m, prefix, k, cluster);
      RackAllocHolds(RacksAlloc(p, m, prefix, k, cluster), m, racks[|racks| - 1], k, cluster);
    }
  }

  lemma {:induction false} RacksAllocFate(p: Pool, m: nat, racks: seq<nat>, k: int, cluster: nat, x: nat)
    requires Shaped(p, m) && (forall e :: 0 <= e < |racks| ==> racks[e] < |p.capacity|) && x < |p.machines|
    ensures Fate(p.machines[x], RacksAlloc(p, m, racks, k, cluster).machines[x], cluster)
    decreases |racks|
  {
    if racks != [] {
      var prefix := racks[..|racks| - 1];
      RacksAllocFate(p, m, prefix, k, cluster, x);
      RackAllocFate(RacksAlloc(p, m, prefix, k, cluster), m, racks[|racks| - 1], k, cluster, x);
    }
  }

  lemma LocalityDcHolds(p: Pool, m: nat, lo: nat, hi: nat, h: int, cluster: nat)
    requires Shaped(p, m) && lo <= hi <= |p.capacity| && Holds(p, cluster)
    ensures Holds(LocalityDc(p, m, lo, hi, h, cluster), cluster)
  {
    var fit := FirstFit(p.capacity, lo, hi, h);
    if fit.Some? {
      RackAllocHolds(p, m, fit.value, h, cluster);
    }
  }

  lemma SpreadDcHolds(p: Pool, m: nat, lo: nat, hi: nat, h: int, cluster: nat)
    requires Shaped(p, m) && lo <= hi <= |p.capacity| && Holds(p, cluster)
    ensures Holds(SpreadDc(p, m, lo, hi, h, cluster).0, cluster)
  {
    SpreadRacksSound(p.capacity, lo, hi, h);
    RacksAllocHolds(p, m, SpreadRacks(p.capacity, lo, hi, h), 1, cluster);
  }

  lemma DcAllocHolds(p: Pool, m: nat, r: nat, d: nat, h: int, locality: bool, cluster: nat)
    requires Shaped(p, m) && Offset(d, r) + r <= |p.capacity| && Holds(p, cluster)
    ensures Holds(DcAlloc(p, m, r, d, h, locality, cluster).0, cluster)
  {
    var lo, hi := Offset(d, r), Offset(d, r) + r;
    var q := DcAlloc(p, m, r, d, h, locality, cluster).0;
    if locality {
      assert q == LocalityDc(p, m, lo, hi, h, cluster);
      LocalityDcHolds(p, m, lo, hi, h, cluster);
    } else {
      assert q == SpreadDc(p, m, lo, hi, h, cluster).0;
      SpreadDcHolds(p, m, lo, hi, h, cluster);
    }
  }

  lemma LocalityDcFate(p: Pool, m: nat, lo: nat, hi: nat, h: int, cluster: nat, x: nat)
    requires Shaped(p, m) && lo <= hi <= |p.capacity| && x < |p.machines|
    ensures Fate(p.machines[x], LocalityDc(p, m, lo, hi, h, cluster).machines[x], cluster)
  {
    var fit := FirstFit(p.capacity, lo, hi, h);
    if fit.Some? {
      RackAllocFate(p, m, fit.value, h, cluster, x);
    }
  }

  lemma SpreadDcFate(p: Pool, m: nat, lo: nat, hi: nat, h: int, cluster: nat, x: nat)
    requires Shaped(p, m) && lo <= hi <= |p.capacity| && x < |p.machines|
    ensures Fate(p.machines[x], SpreadDc(p, m, lo, hi, h, cluster).0.machines[x], cluster)
  {
    SpreadRacksSound(p.capacity, lo, hi, h);
    RacksAllocFate(p, m, SpreadRacks(p.capacity, lo, hi, h), 1, cluster, x);
  }

  lemma DcAllocFate(p: Pool, m: nat, r: nat, d: nat, h: int, locality: bool, cluster: nat, x: nat)
    requires Shaped(p, m) && Offset(d, r) + r <= |p.capacity| && x < |p.machines|
    ensures Fate(p.machines[x], DcAlloc(p, m, r, d, h, locality, cluster).0.machines[x], cluster)
  {
    var lo, hi := Offset(d, r), Offset(d, r) + r;
    var q := DcAlloc(p, m, r, d, h, locality, cluster).0;
    if locality {
      assert q == LocalityDc(p, m, lo, hi, h, cluster);
      LocalityDcFate(p, m, lo, hi, h, cluster, x);
    } else {
      assert q == SpreadDc(p, m, lo, hi, h, cluster).0;
      SpreadDcFate(p, m, lo, hi, h, cluster, x);
    }
  }

  /** A cluster allocation keeps the new cluster's placement free of repeats
      and made of machines allocated to it. */
  lemma {:induction false} DcsAllocHolds(p: Pool, m: nat, r: nat, d: nat, dcs: nat, h: int, locality: bool, cluster: nat)
    requires Shaped(p, m) && Offset(dcs, r) <= |p.capacity| && Holds(p, cluster)
    ensures Holds(DcsAlloc(p, m, r, d, dcs, h, locality, cluster).0, cluster)
    decreases dcs - d
  {
    if d < dcs {
      BlockWithin(d, dcs, r);
      var (q, err) := DcAlloc(p, m, r, d, h, locality, cluster);
      DcAllocHolds(p, m, r, d, h, locality, cluster);
      if err.None? {
        DcsAllocHolds(q, m, r, d + 1, dcs, h, locality, cluster);
      }
    }
  }

  /** A cluster allocation never takes a machine that is already allocated:
      each machine either stays as it was or, when it was free, becomes
      allocated to the new cluster with nothing else about it changed. */
  lemma {:induction false} DcsAllocFate(p: Pool, m: nat, r: nat, d: nat, dcs: nat, h: int, locality: bool, cluster: nat, x: nat)
    requires Shaped(p, m) && Offset(dcs, r) <= |p.capacity| && x < |p.machines|
    ensures Fate(p.machines[x], DcsAlloc(p, m, r, d, dcs, h, locality, cluster).0.machines[x], cluster)
    decreases dcs - d
  {
    if d < dcs {
      BlockWithin(d, dcs, r);
      var (q, err) := DcAlloc(p, m, r, d, h, locality, cluster);
      DcAllocFate(p, m, r, d, h, locality, cluster, x);
      if err.None? {
        DcsAllocFate(q, m, r, d + 1, dcs, h, locality, cluster, x);
      }
    }
  }

  // ------------------------------------------------------- the walks' steps

  /** Machine x allocated to the cluster, appended to its placement and
      counted off rack j's capacity. */
  function Take(p: Pool, j: nat, x: nat, cluster: nat): (r: Pool)
    requires j < |p.capacity| && x < |p.machines|
    ensures |r.machines| == |p.machines| && |r.capacity| == |p.capacity|
  {
    Pool(p.machines[x := p.machines[x].Allocate(cluster)], p.capacity[j := p.capacity[j] - 1], p.placement + [x])
  }

  /** One machine of Rack.allocate_machines' walk over machines lo .. : machine
      x is taken when it is free and fewer than k are taken. */
  lemma PickStep(p: Pool, lo: nat, j: nat, x: nat, next: nat, k: int, cluster: nat, picked: seq<nat>, cur: Pool, after: Pool)
    requires next == x + 1 && lo <= x < |p.machines| && j < |p.capacity|
    requires picked == Pick(p.machines, lo, x, k) && cur == Taken(p, j, picked, cluster)
    requires after == (if !cur.machines[x].IsAllocated() && |picked| < k then Take(cur, j, x, cluster) else cur)
    ensures Pick(p.machines, lo, next, k) == (if !cur.machines[x].IsAllocated() && |picked| < k then picked + [x] else picked)
    ensures after == Taken(p, j, Pick(p.machines, lo, next, k), cluster)
  {
    PickSound(p.machines, lo, x, k);
    assert x !in picked;
    MarkAt(p.machines, picked, cluster, x);
    assert cur.machines[x] == p.machines[x];
    PickNext(p.machines, lo, x, next, k);
    if !p.machines[x].IsAllocated() && |picked| < k {
      TakeNext(p, j, x, cluster, picked);
    }
  }

  lemma PickNext(ms: seq<Machine>, lo: nat, x: nat, next: nat, k: int)
    requires next == x + 1 && lo <= x < |ms|
    ensures var prev := Pick(ms, lo, x, k);
            Pick(ms, lo, next, k) == if !ms[x].IsAllocated() && |prev| < k then prev + [x] else prev
  {
  }

  lemma TakeNext(p: Pool, j: nat, x: nat, cluster: nat, picked: seq<nat>)
    requires x < |p.machines| && j < |p.capacity| && x !in picked
    ensures Take(Taken(p, j, picked, cluster), j, x, cluster) == Taken(p, j, picked + [x], cluster)
  {
    MarkAt(p.machines, picked, cluster, x);
    assert (picked + [x])[..|picked|] == picked;
    assert p.placement + (picked + [x]) == p.placement + picked + [x];
  }

  /** One machine of Rack.deallocate_machines' walk: machine x is still as it
      was, and it is released when the cluster holds it. */
  lemma ReleaseStep(ms: seq<Machine>, lo: nat, x: nat, next: nat, cluster: nat)
    requires next == x + 1 && lo <= x < |ms|
    ensures Release(ms, lo, x, cluster)[x] == ms[x]
    ensures var cur := Release(ms, lo, x, cluster);
            Release(ms, lo, next, cluster)
              == (if ms[x].clusterIdx == cluster then cur[x := ms[x].Deallocate()] else cur)
  {
  }

  /** Datacenter d's allocation is the mode's walk over its racks. */
  lemma DcAllocModes(p: Pool, m: nat, r: nat, d: nat, h: int, locality: bool, cluster: nat)
    requires Shaped(p, m) && Offset(d, r) + r <= |p.capacity|
    ensures DcAlloc(p, m, r, d, h, locality, cluster)
         == if locality then (LocalityDc(p, m, Offset(d, r), Offset(d, r) + r, h, cluster), None)
            else SpreadDc(p, m, Offset(d, r), Offset(d, r) + r, h, cluster)
  {
  }

  /** One rack of rack-locality mode's walk: a rack without capacity for h
      is passed over, and one with capacity for h is the one chosen. */
  lemma FirstFitStep(capacity: seq<int>, j: nat, next: nat, hi: nat, h: int)
    requires next == j + 1 && j < hi <= |capacity|
    ensures FirstFit(capacity, j, hi, h) == (if capacity[j] >= h then Some(j) else FirstFit(capacity, next, hi, h))
  {
  }

  /** One rack of spread mode's walk. */
  lemma SpreadRacksStep(capacity: seq<int>, lo: nat, j: nat, next: nat, h: int)
    requires next == j + 1 && lo <= j < |capacity|
    ensures var s := SpreadRacks(capacity, lo, j, h);
            SpreadRacks(capacity, lo, next, h) == (if !Stopped(|s|, h) && capacity[j] >= 1 then s + [j] else s)
  {
  }

  /** One rack of spread mode's walk, on the pool: a rack with capacity
      gives one machine, and the walk may stop only right after a rack gave
      its machine and h are taken. */
  lemma SpreadPoolStep(start: Pool, m: nat, lo: nat, j: nat, next: nat, h: int, cluster: nat,
                       used: seq<nat>, cur: Pool, usedAfter: seq<nat>, after: Pool)
    requires next == j + 1 && lo <= j < |start.capacity| && Shaped(start, m)
    requires used == SpreadRacks(start.capacity, lo, j, h) && !Stopped(|used|, h)
    requires cur == RacksAlloc(start, m, used, 1, cluster)
    requires cur.capacity[j] >= 1 ==> usedAfter == used + [j] && after == RackAlloc(cur, m, j, 1, cluster)
    requires cur.capacity[j] < 1 ==> usedAfter == used && after == cur
    ensures usedAfter == SpreadRacks(start.capacity, lo, next, h)
    ensures after == RacksAlloc(start, m, usedAfter, 1, cluster)
    ensures Stopped(|usedAfter|, h) ==> usedAfter != used && |usedAfter| == h
  {
    SpreadRacksSound(start.capacity, lo, j, h);
    RacksAllocCapacity(start, m, used, 1, cluster, j);
    SpreadRacksStep(start.capacity, lo, j, next, h);
    if cur.capacity[j] >= 1 {
      RacksAllocSnoc(start, m, used, j, 1, cluster);
    }
  }

  /** Once spread mode has stopped, the racks after it change nothing. */
  lemma {:induction false} SpreadRacksStopped(capacity: seq<int>, lo: nat, a: nat, hi: nat, h: int)
    requires lo <= a <= hi <= |capacity| && Stopped(|SpreadRacks(capacity, lo, a, h)|, h)
    ensures SpreadRacks(capacity, lo, hi, h) == SpreadRacks(capacity, lo, a, h)
    decreases hi
  {
    if hi > a {
      SpreadRacksStopped(capacity, lo, a, hi - 1, h);
    }
  }

  lemma RacksAllocSnoc(p: Pool, m: nat, racks: seq<nat>, j: nat, k: int, cluster: nat)
    requires Shaped(p, m) && j < |p.capacity|
    ensures RacksAlloc(p, m, racks + [j], k, cluster) == RackAlloc(RacksAlloc(p, m, racks, k, cluster), m, j, k, cluster)
  {
    assert (racks + [j])[..|racks|] == racks;
  }

  /** One datacenter of the region's walk. */
  lemma DcsAllocStep(p: Pool, m: nat, r: nat, d: nat, next: nat, dcs: nat, h: int, locality: bool, cluster: nat)
    requires next == d + 1 && d < dcs && Shaped(p, m) && Offset(dcs, r) <= |p.capacity|
    ensures Offset(d, r) + r <= |p.capacity|
    ensures var step := DcAlloc(p, m, r, d, h, locality, cluster);
            DcsAlloc(p, m, r, d, dcs, h, locality, cluster)
              == (if step.1.Some? then step else DcsAlloc(step.0, m, r, next, dcs, h, locality, cluster))
  {
    BlockWithin(d, dcs, r);
  }

  // ---------------------------------------------------- what the region keeps

  /** Every machine sits at its own index and is free or allocated to one of
      the first `clusters` clusters. */
  predicate Indexed(ms: seq<Machine>, clusters: nat) {
    forall x :: 0 <= x < |ms| ==> ms[x].idx == x && Unallocated <= ms[x].clusterIdx < clusters
  }

  /** A placement whose machines are all allocated keeps holding when
      allocation only takes free machines. */
  lemma HoldsFate(p: Pool, ms: seq<Machine>, holder: nat, cluster: nat)
    requires Holds(p, holder) && |ms| == |p.machines|
    requires forall x :: 0 <= x < |ms| ==> Fate(p.machines[x], ms[x], cluster)
    ensures Holds(Pool(ms, p.capacity, p.placement), holder)
  {
  }

  /** Allocating cluster number `cluster` when `cluster` clusters exist keeps
      every machine indexed among cluster + 1 clusters and every capacity
      bounded (exact when it was), and takes only free machines. */
  lemma DcsAllocKeeps(p: Pool, m: nat, r: nat, dcs: nat, h: int, locality: bool, cluster: nat)
    requires Shaped(p, m) && Offset(dcs, r) <= |p.capacity|
    requires Indexed(p.machines, cluster) && CapacityBounded(p, m)
    ensures var q := DcsAlloc(p, m, r, 0, dcs, h, locality, cluster).0;
            && Indexed(q.machines, cluster + 1) && CapacityBounded(q, m)
            && (CapacityExact(p, m) ==> CapacityExact(q, m))
            && forall x :: 0 <= x < |p.machines| ==> Fate(p.machines[x], q.machines[x], cluster)
  {
    var q := DcsAlloc(p, m, r, 0, dcs, h, locality, cluster).0;
    forall x | 0 <= x < |p.machines|
      ensures Fate(p.machines[x], q.machines[x], cluster)
    {
      DcsAllocFate(p, m, r, 0, dcs, h, locality, cluster, x);
    }
    forall i | 0 <= i < |q.capacity|
      ensures Slack(q, m, i) == Slack(p, m, i)
    {
      DcsAllocSlack(p, m, r, 0, dcs, h, locality, cluster, i);
    }
  }

  /** Releasing keeps every machine indexed and every capacity bounded. */
  lemma RackReleaseKeeps(p: Pool, m: nat, j: nat, cluster: nat, clusters: nat)
    requires Shaped(p, m) && j < |p.capacity|
    requires Indexed(p.machines, clusters) && CapacityBounded(p, m)
    ensures var q := RackRelease(p, m, j, cluster);
            Indexed(q.machines, clusters) && CapacityBounded(q, m)
  {
    var q := RackRelease(p, m, j, cluster);
    forall i | 0 <= i < |q.capacity|
      ensures Slack(q, m, i) >= 0
    {
      RackReleaseSlack(p, m, j, cluster, i);
    }
  }

  lemma {:induction false} FreeCountSame(ms: seq<Machine>, ms': seq<Machine>, lo: nat, hi: nat)
    requires lo <= hi <= |ms| && SameAllocation(ms, ms')
    ensures FreeCount(ms', lo, hi) == FreeCount(ms, lo, hi)
    decreases hi
  {
    if hi != lo {
      FreeCountSame(ms, ms', lo, hi - 1);
    }
  }

  /** Machines that agree on allocation leave every rack's slack, every
      index and every placement's holding as they were. */
  lemma SameAllocationKeeps(p: Pool, ms: seq<Machine>, m: nat, clusters: nat)
    requires Shaped(p, m) && SameAllocation(p.machines, ms)
    ensures Indexed(p.machines, clusters) ==> Indexed(ms, clusters)
    ensures forall j :: 0 <= j < |p.capacity| ==> Slack(Pool(ms, p.capacity, p.placement), m, j) == Slack(p, m, j)
    ensures CapacityBounded(p, m) ==> CapacityBounded(Pool(ms, p.capacity, p.placement), m)
    ensures CapacityExact(p, m) ==> CapacityExact(Pool(ms, p.capacity, p.placement), m)
    ensures Holds(p, clusters) ==> Holds(Pool(ms, p.capacity, p.placement), clusters)
  {
    forall j | 0 <= j < |p.capacity|
      ensures Slack(Pool(ms, p.capacity, p.placement), m, j) == Slack(p, m, j)
    {
      BlockWithin(j, |p.capacity|, m);
      FreeCountSame(p.machines, ms, Offset(j, m), Offset(j, m) + m);
    }
  }

  /** Capacity counters say nothing about a placement. */
  lemma PlacementAside(p: Pool, m: nat, placement: seq<nat>)
    requires Shaped(p, m)
    ensures CapacityBounded(p, m) ==> CapacityBounded(Pool(p.machines, p.capacity, placement), m)
    ensures CapacityExact(p, m) ==> CapacityExact(Pool(p.machines, p.capacity, placement), m)
  {
    forall j | 0 <= j < |p.capacity|
      ensures Slack(Pool(p.machines, p.capacity, placement), m, j) == Slack(p, m, j)
    {
      SlackIs(p, m, j);
      SlackIs(Pool(p.machines, p.capacity, placement), m, j);
    }
  }
}
