// The region: datacenters of racks of machines, the storage clusters placed
// on them, and the operations that build the topology, place a cluster and
// push client traffic through every cluster.
//
// Every datacenter has `racksPerDc` racks and every rack `machinesPerRack`
// machines.  The region hands out datacenter, rack and machine indices from
// its counters in construction order, so rack j is the j-th rack built and
// holds machines j*machinesPerRack .. j*machinesPerRack+machinesPerRack-1,
// and datacenter d holds racks d*racksPerDc .. d*racksPerDc+racksPerDc-1.
// The machines live in one array indexed by machine index and the racks'
// capacity counters in one array indexed by rack index.

module Regions {
  import opened Machines
  import opened Traffic
  import opened TrafficLaws
  import opened Placement
  import opened Clusters

  /** The traffic layout of each cluster of `cs`, in order. */
  function LayoutsOf(cs: seq<StorageCluster>): (r: seq<Layout>)
    reads cs
    ensures |r| == |cs|
    ensures forall k :: 0 <= k < |cs| ==> r[k] == cs[k].Shape()
    decreases |cs|
  {
    if cs == [] then [] else LayoutsOf(cs[..|cs| - 1]) + [cs[|cs| - 1].Shape()]
  }

  /** One cluster of Region.upload's walk. */
  lemma UploadStep(start: seq<Machine>, cur: seq<Machine>, after: seq<Machine>, layouts: seq<Layout>, k: nat, next: nat, perCluster: real)
    requires next == k + 1 && next <= |layouts| && Uploadable(layouts)
    requires cur == Apply(start, UploadTrace(layouts[..k], perCluster))
    requires after == Apply(cur, IngressTrace(layouts[k].placement, layouts[k].parity, perCluster))
    ensures after == Apply(start, UploadTrace(layouts[..next], perCluster))
  {
    assert layouts[..next][..k] == layouts[..k];
    ApplyAppend(start, UploadTrace(layouts[..k], perCluster), IngressTrace(layouts[k].placement, layouts[k].parity, perCluster));
  }

  /** One cluster of Region.download's walk. */
  lemma DownloadStep(start: seq<Machine>, cur: seq<Machine>, after: seq<Machine>, layouts: seq<Layout>,
                     shuffles: seq<seq<seq<nat>>>, k: nat, next: nat, perCluster: real)
    requires next == k + 1 && next <= |layouts| && Downloadable(layouts, shuffles)
    requires cur == Apply(start, DownloadTrace(layouts[..k], shuffles[..k], perCluster))
    requires after == Apply(cur, EgressTrace(layouts[k].placement, layouts[k].parity, shuffles[k], perCluster))
    ensures after == Apply(start, DownloadTrace(layouts[..next], shuffles[..next], perCluster))
  {
    DownloadTraceSnoc(layouts, shuffles, k, next, perCluster);
    ApplyAppend(start, DownloadTrace(layouts[..k], shuffles[..k], perCluster),
                EgressTrace(layouts[k].placement, layouts[k].parity, shuffles[k], perCluster));
  }

  class Region {
    const racksPerDc: nat
    const machinesPerRack: nat

    var dcIdx: nat
    var machineIdx: nat
    var rackIdx: nat
    var clusterIdx: nat

    /** The index of each datacenter, in construction order. */
    var datacenters: seq<nat>
    /** The index of each rack, in construction order. */
    var racks: seq<nat>
    /** Every machine, at its index. */
    const machines: array<Machine>
    /** Each rack's capacity counter, at the rack's index. */
    const capacity: array<int>
    /** The storage clusters, in creation order. */
    var clusters: seq<StorageCluster>

    /** The allocator's view of the region and of one cluster's placement. */
    function Snapshot(c: StorageCluster): (r: Pool)
      reads machines, capacity, c
    {
      Pool(machines[..], capacity[..], c.placement)
    }

    /** The racks built so far: indices handed out without gaps, each rack's
        machines fresh from construction and its capacity all of them. */
    predicate Built()
      reads this, machines, capacity
    {
      && machines.Length == Offset(capacity.Length, machinesPerRack)
      && rackIdx <= capacity.Length && machineIdx <= machines.Length
      && |datacenters| == dcIdx && |racks| == rackIdx && machineIdx == Offset(rackIdx, machinesPerRack)
      && (forall d :: 0 <= d < |datacenters| ==> datacenters[d] == d)
      && (forall j :: 0 <= j < |racks| ==> racks[j] == j)
      && (forall x :: 0 <= x < machineIdx ==> machines[x] == NewMachine(x))
      && (forall j :: 0 <= j < rackIdx ==> capacity[j] == machinesPerRack)
    }

    /** What holds of every region between operations: the topology is
        complete and its indices are gap-free, every machine is free or
        allocated to an existing cluster, every cluster's index is its
        position, every placed machine exists, and no rack's capacity promises
        more machines than it has free. */
    predicate Valid()
      reads this, machines, capacity, clusters
    {
      && capacity.Length == |racks| && |racks| == Offset(|datacenters|, racksPerDc)
      && machines.Length == Offset(capacity.Length, machinesPerRack)
      && dcIdx == |datacenters| && rackIdx == |racks| && machineIdx == machines.Length
      && (forall d :: 0 <= d < |datacenters| ==> datacenters[d] == d)
      && (forall j :: 0 <= j < |racks| ==> racks[j] == j)
      && Indexed(machines[..], clusterIdx)
      && clusterIdx == |clusters|
      && (forall k :: 0 <= k < |clusters| ==> clusters[k].idx == k)
      && (forall k, i :: 0 <= k < |clusters| && 0 <= i < |clusters[k].placement| ==>
            clusters[k].placement[i] < machines.Length)
      && CapacityBounded(Pool(machines[..], capacity[..], []), machinesPerRack)
    }

    /** The stronger invariant that holds as long as nothing is deallocated:
        each rack's capacity is exactly its number of free machines, and each
        cluster's placement lists distinct machines, all allocated to it. */
    predicate Exact()
      requires Valid()
      reads this, machines, capacity, clusters
    {
      && CapacityExact(Pool(machines[..], capacity[..], []), machinesPerRack)
      && forall k :: 0 <= k < |clusters| ==> Holds(Snapshot(clusters[k]), k)
    }

    constructor (dcCount: nat, racksPerDc: nat, machinesPerRack: nat)
      ensures Valid() && Exact()
      ensures this.racksPerDc == racksPerDc && this.machinesPerRack == machinesPerRack
      ensures |datacenters| == dcCount && clusters == []
      ensures forall x :: 0 <= x < machines.Length ==> machines[x] == NewMachine(x)
      ensures forall j :: 0 <= j < capacity.Length ==> capacity[j] == machinesPerRack
      ensures fresh(machines) && fresh(capacity)
    {
      this.racksPerDc := racksPerDc;
      this.machinesPerRack := machinesPerRack;
      // Slots are filled in as the machines are built.
      var rackCount := dcCount * racksPerDc;
      OffsetProduct(dcCount, racksPerDc);
      OffsetProduct(rackCount, machinesPerRack);
      machines := new Machine[rackCount * machinesPerRack](_ => NewMachine(0));
      capacity := new int[rackCount](_ => 0);
      dcIdx, machineIdx, rackIdx, clusterIdx := 0, 0, 0, 0;
      datacenters, racks, clusters := [], [], [];
      new;
      var d := 0;
      while d < dcCount
        invariant d <= dcCount && dcIdx == d && rackIdx == Offset(d, racksPerDc)
        invariant Built() && clusterIdx == 0 && clusters == []
      {
        BlockWithin(d, dcCount, racksPerDc);
        ghost var built := d;
        AddDatacenter();
        d := d + 1;
        assert Offset(d, racksPerDc) == Offset(built, racksPerDc) + racksPerDc;
      }
      BuiltValid();
    }

    /** A region whose topology is completely built and that has no clusters
        yet is valid, and its capacities are exact. */
    lemma BuiltValid()
      requires Built() && rackIdx == capacity.Length && |racks| == Offset(|datacenters|, racksPerDc)
      requires clusterIdx == 0 && clusters == []
      ensures Valid() && Exact()
    {
      var p := Pool(machines[..], capacity[..], []);
      forall j | 0 <= j < capacity.Length
        ensures Slack(p, machinesPerRack, j) == 0
      {
        BlockWithin(j, capacity.Length, machinesPerRack);
        FreeCountAll(machines[..], Offset(j, machinesPerRack), Offset(j, machinesPerRack) + machinesPerRack);
      }
      ExactBounded(p, machinesPerRack);
    }

    /** Datacenter construction: the datacenter takes the next datacenter
        index, then builds its racks. */
    method AddDatacenter()
      requires Built() && rackIdx == Offset(dcIdx, racksPerDc) && rackIdx + racksPerDc <= capacity.Length
      modifies this, machines, capacity
      ensures Built() && dcIdx == old(dcIdx) + 1 && rackIdx == old(rackIdx) + racksPerDc
      ensures clusterIdx == old(clusterIdx) && clusters == old(clusters)
    {
      var idx := AllocateDcIdx();
      datacenters := datacenters + [idx];
      var j := 0;
      while j < racksPerDc
        invariant j <= racksPerDc && rackIdx == old(rackIdx) + j && dcIdx == old(dcIdx) + 1
        invariant Built() && clusterIdx == old(clusterIdx) && clusters == old(clusters)
      {
        AddRack();
        j := j + 1;
      }
    }

    /** Rack construction: the rack takes the next rack index, then builds
        its machines, each taking the next machine index; its capacity is the
        number of machines built. */
    method AddRack()
      requires Built() && rackIdx < capacity.Length
      modifies this, machines, capacity
      ensures Built() && rackIdx == old(rackIdx) + 1 && dcIdx == old(dcIdx)
      ensures clusterIdx == old(clusterIdx) && clusters == old(clusters)
    {
      BlockWithin(rackIdx, capacity.Length, machinesPerRack);
      var idx := AllocateRackIdx();
      racks := racks + [idx];
      var x := 0;
      while x < machinesPerRack
        invariant x <= machinesPerRack && machineIdx == Offset(idx, machinesPerRack) + x
        invariant rackIdx == idx + 1 && |racks| == rackIdx && dcIdx == old(dcIdx)
        invariant forall y :: 0 <= y < machineIdx ==> machines[y] == NewMachine(y)
        invariant forall j :: 0 <= j < idx ==> capacity[j] == machinesPerRack
        invariant clusterIdx == old(clusterIdx) && clusters == old(clusters)
        invariant datacenters == old(datacenters) && racks == old(racks) + [idx]
      {
        var machine := AllocateMachineIdx();
        machines[machine] := NewMachine(machine);
        x := x + 1;
      }
      capacity[idx] := machinesPerRack;
    }

    /** Rack.allocate_machines(c, k) on rack j: the rack's machines are
        walked in order and every free one is taken while fewer than k are.
        Allocating a machine cannot fail, so the source's error return is
        always None. */
    method RackAllocateMachines(c: StorageCluster, j: nat, k: int)
      requires j < capacity.Length && machines.Length == Offset(capacity.Length, machinesPerRack)
      modifies machines, capacity, c
      ensures Snapshot(c) == RackAlloc(old(Snapshot(c)), machinesPerRack, j, k, c.idx)
    {
      BlockWithin(j, capacity.Length, machinesPerRack);
      var lo := Offset(j, machinesPerRack);
      ghost var start := Snapshot(c);
      var picked: seq<nat> := [];
      var x := lo;
      while x < lo + machinesPerRack
        invariant lo <= x <= lo + machinesPerRack
        invariant picked == Pick(start.machines, lo, x, k)
        invariant Snapshot(c) == Taken(start, j, picked, c.idx)
      {
        ghost var prev, cur, before := x, Snapshot(c), picked;
        if !machines[x].IsAllocated() && |picked| < k {
          TakeMachine(c, j, x);
          picked := picked + [x];
        }
        x := x + 1;
        PickStep(start, lo, j, prev, x, k, c.idx, before, cur, Snapshot(c));
      }
    }

    /** One machine taken by Rack.allocate_machines: allocated to the
        cluster, added to its placement, and counted off the rack's capacity. */
    method TakeMachine(c: StorageCluster, j: nat, x: nat)
      requires j < capacity.Length && x < machines.Length
      modifies machines, capacity, c
      ensures Snapshot(c) == Take(old(Snapshot(c)), j, x, c.idx)
    {
      machines[x] := machines[x].Allocate(c.idx);
      c.AddPlacement(x);
      capacity[j] := capacity[j] - 1;
    }

    /** Rack.deallocate_machines(c) on rack j: every machine of the rack that
        the cluster holds is released; the capacity is left as it is. */
    method RackDeallocateMachines(c: StorageCluster, j: nat)
      requires j < capacity.Length && machines.Length == Offset(capacity.Length, machinesPerRack)
      modifies machines
      ensures Snapshot(c) == RackRelease(old(Snapshot(c)), machinesPerRack, j, c.idx)
    {
      BlockWithin(j, capacity.Length, machinesPerRack);
      var lo := Offset(j, machinesPerRack);
      ghost var start := machines[..];
      var x := lo;
      while x < lo + machinesPerRack
        invariant lo <= x <= lo + machinesPerRack
        invariant machines[..] == Release(start, lo, x, c.idx)
      {
        ghost var prev := x;
        if machines[x].IsAllocated() && machines[x].clusterIdx == c.idx {
          machines[x] := machines[x].Deallocate();
        }
        x := x + 1;
        ReleaseStep(start, lo, prev, x, c.idx);
      }
    }

    /** Datacenter.allocate_smaug_cluster for datacenter d with h machines to
        place.  The source tests the mode at every rack of one walk; the mode
        does not change during the walk, so each mode has its own loop here. */
    method DatacenterAllocate(c: StorageCluster, d: nat, h: int, locality: bool) returns (err: Option<AllocError>)
      requires Offset(d, racksPerDc) + racksPerDc <= capacity.Length
      requires machines.Length == Offset(capacity.Length, machinesPerRack)
      modifies machines, capacity, c
      ensures (Snapshot(c), err) == DcAlloc(old(Snapshot(c)), machinesPerRack, racksPerDc, d, h, locality, c.idx)
    {
      DcAllocModes(Snapshot(c), machinesPerRack, racksPerDc, d, h, locality, c.idx);
      var lo, hi := Offset(d, racksPerDc), Offset(d, racksPerDc) + racksPerDc;
      if locality {
        LocalityAllocate(c, lo, hi, h);
        err := None;
      } else {
        err := SpreadAllocate(c, lo, hi, h);
      }
    }

    /** Rack-locality mode over racks lo .. hi-1: the first rack whose
        capacity is at least h allocates all h machines and the walk stops;
        when no rack has the capacity, nothing happens and no error is
        reported. */
    method LocalityAllocate(c: StorageCluster, lo: nat, hi: nat, h: int)
      requires lo <= hi <= capacity.Length && machines.Length == Offset(capacity.Length, machinesPerRack)
      modifies machines, capacity, c
      ensures Snapshot(c) == LocalityDc(old(Snapshot(c)), machinesPerRack, lo, hi, h, c.idx)
    {
      ghost var start := Snapshot(c);
      var j := lo;
      while j < hi
        invariant lo <= j <= hi && Snapshot(c) == start
        invariant FirstFit(start.capacity, lo, hi, h) == FirstFit(start.capacity, j, hi, h)
      {
        FirstFitStep(start.capacity, j, j + 1, hi, h);
        if capacity[j] >= h {
          RackAllocateMachines(c, j, h);
          return;
        }
        j := j + 1;
      }
    }

    /** Spread mode over racks lo .. hi-1: each rack with capacity allocates
        one machine, until h are allocated; fewer than h is reported as
        NotEnoughMachines.  The source's rollback on a shortfall is a lazy
        `map` that is never consumed, so the machines stay allocated. */
    method SpreadAllocate(c: StorageCluster, lo: nat, hi: nat, h: int) returns (err: Option<AllocError>)
      requires lo <= hi <= capacity.Length && machines.Length == Offset(capacity.Length, machinesPerRack)
      modifies machines, capacity, c
      ensures (Snapshot(c), err) == SpreadDc(old(Snapshot(c)), machinesPerRack, lo, hi, h, c.idx)
    {
      ghost var start := Snapshot(c);
      var used := SpreadRacksAllocate(c, start, lo, hi, h);
      err := None;
      if |used| < h {
        err := Some(NotEnoughMachines);
      }
      SpreadDcOf(start, machinesPerRack, lo, hi, h, c.idx, used);
    }

    /** The walk of spread mode, which stops once h machines are allocated;
        it returns the racks that gave a machine. */
    method SpreadRacksAllocate(c: StorageCluster, ghost start: Pool, lo: nat, hi: nat, h: int) returns (used: seq<nat>)
      requires lo <= hi <= capacity.Length && machines.Length == Offset(capacity.Length, machinesPerRack)
      requires Snapshot(c) == start
      modifies machines, capacity, c
      ensures used == SpreadRacks(start.capacity, lo, hi, h)
      ensures Snapshot(c) == RacksAlloc(start, machinesPerRack, used, 1, c.idx)
    {
      used := [];
      var j, stop := lo, false;
      while j < hi && !stop
        invariant lo <= j <= hi
        invariant Shaped(start, machinesPerRack) && |start.capacity| == capacity.Length
        invariant used == SpreadRacks(start.capacity, lo, j, h) && (stop <==> Stopped(|used|, h))
        invariant Snapshot(c) == RacksAlloc(start, machinesPerRack, used, 1, c.idx)
      {
        used, stop := SpreadRack(c, start, lo, j, j + 1, h, used);
        j := j + 1;
      }
      if stop {
        SpreadRacksStopped(start.capacity, lo, j, hi, h);
      }
    }

    /** One rack of spread mode: a rack with capacity allocates one machine,
        and the walk stops once h machines are allocated. */
    method SpreadRack(c: StorageCluster, ghost start: Pool, lo: nat, j: nat, ghost next: nat, h: int, used: seq<nat>)
      returns (after: seq<nat>, stop: bool)
      requires next == j + 1 && lo <= j < capacity.Length && machines.Length == Offset(capacity.Length, machinesPerRack)
      requires Shaped(start, machinesPerRack) && |start.capacity| == capacity.Length
      requires used == SpreadRacks(start.capacity, lo, j, h) && !Stopped(|used|, h)
      requires Snapshot(c) == RacksAlloc(start, machinesPerRack, used, 1, c.idx)
      modifies machines, capacity, c
      ensures after == SpreadRacks(start.capacity, lo, next, h)
      ensures Snapshot(c) == RacksAlloc(start, machinesPerRack, after, 1, c.idx)
      ensures stop <==> Stopped(|after|, h)
    {
      ghost var cur := Snapshot(c);
      after, stop := used, false;
      if capacity[j] >= 1 {
        RackAllocateMachines(c, j, 1);
        after := used + [j];
        stop := |after| == h;
      }
      SpreadPoolStep(start, machinesPerRack, lo, j, next, h, c.idx, used, cur, after, Snapshot(c));
    }

    /** Region.allocate_smaug_cluster: `nodes` machines split evenly over
        `dcs` datacenters.  An uneven split is refused before anything
        changes; otherwise the cluster takes the next cluster index, joins
        the region's clusters, and every datacenter in turn allocates its
        share until one reports an error.  The cluster stays registered
        whatever the datacenters report. */
    method AllocateSmaugCluster(nodes: int, dcs: int, locality: bool, parity: int) returns (err: Option<AllocError>)
      requires Valid() && dcs != 0
      modifies this, machines, capacity
      ensures Valid() && (old(Exact()) ==> Exact())
      ensures datacenters == old(datacenters) && racks == old(racks)
      ensures nodes % dcs != 0 ==>
                && err == Some(HostsNotDivisible) && clusters == old(clusters) && clusterIdx == old(clusterIdx)
                && machines[..] == old(machines[..]) && capacity[..] == old(capacity[..])
      ensures nodes % dcs == 0 ==>
                var n := |old(clusters)|;
                && |clusters| == n + 1 && clusters[..n] == old(clusters)
                && fresh(clusters[n]) && clusters[n].idx == n && clusters[n].parity == parity
                && (Snapshot(clusters[n]), err)
                   == DcsAlloc(Pool(old(machines[..]), old(capacity[..]), []), machinesPerRack, racksPerDc,
                               0, |datacenters|, nodes / dcs, locality, n)
    {
      if nodes % dcs != 0 {
        return Some(HostsNotDivisible);
      }
      err := PlaceCluster(nodes / dcs, locality, parity);
    }

    /** A new storage cluster with `h` machines per datacenter. */
    method PlaceCluster(h: int, locality: bool, parity: int) returns (err: Option<AllocError>)
      requires Valid()
      modifies this, machines, capacity
      ensures Valid() && (old(Exact()) ==> Exact())
      ensures datacenters == old(datacenters) && racks == old(racks)
      ensures var n := |old(clusters)|;
              && |clusters| == n + 1 && clusters[..n] == old(clusters)
              && fresh(clusters[n]) && clusters[n].idx == n && clusters[n].parity == parity
              && (Snapshot(clusters[n]), err)
                 == DcsAlloc(Pool(old(machines[..]), old(capacity[..]), []), machinesPerRack, racksPerDc,
                             0, |datacenters|, h, locality, n)
    {
      var idx := AllocateClusterIdx();
      var c := new StorageCluster(idx, parity);
      clusters := clusters + [c];
      ghost var start := Snapshot(c);
      ghost var before := clusters;
      err := AllocateInDatacenters(c, h, locality);
      ghost var q := Snapshot(c);
      DcsAllocKeeps(start, machinesPerRack, racksPerDc, |datacenters|, h, locality, idx);
      DcsAllocHolds(start, machinesPerRack, racksPerDc, 0, |datacenters|, h, locality, idx);
      PlacementAside(q, machinesPerRack, []);
      if old(Exact()) {
        forall k | 0 <= k < |clusters|
          ensures Holds(Snapshot(clusters[k]), k)
        {
          if k < idx {
            HoldsFate(Pool(start.machines, start.capacity, before[k].placement), machines[..], k, idx);
          }
        }
      }
    }

    /** The walk of Region.allocate_smaug_cluster over the datacenters, in
        order, stopping at the first error. */
    method AllocateInDatacenters(c: StorageCluster, h: int, locality: bool) returns (err: Option<AllocError>)
      requires machines.Length == Offset(capacity.Length, machinesPerRack)
      requires Offset(|datacenters|, racksPerDc) <= capacity.Length
      modifies machines, capacity, c
      ensures (Snapshot(c), err) == DcsAlloc(old(Snapshot(c)), machinesPerRack, racksPerDc, 0, |datacenters|, h, locality, c.idx)
    {
      ghost var start := Snapshot(c);
      var d := 0;
      err := None;
      while d < |datacenters| && err.None?
        invariant d <= |datacenters|
        invariant err.None? ==> DcsAlloc(start, machinesPerRack, racksPerDc, 0, |datacenters|, h, locality, c.idx)
                                == DcsAlloc(Snapshot(c), machinesPerRack, racksPerDc, d, |datacenters|, h, locality, c.idx)
        invariant err.Some? ==> DcsAlloc(start, machinesPerRack, racksPerDc, 0, |datacenters|, h, locality, c.idx)
                                == (Snapshot(c), err)
      {
        DcsAllocStep(Snapshot(c), machinesPerRack, racksPerDc, d, d + 1, |datacenters|, h, locality, c.idx);
        err := DatacenterAllocate(c, d, h, locality);
        d := d + 1;
      }
    }

    /** Region.upload: every cluster takes in an equal part of `volume`. */
    method Upload(volume: real)
      requires Valid() && |clusters| > 0
      requires Uploadable(LayoutsOf(clusters))
      modifies machines
      ensures machines[..] == Apply(old(machines[..]), UploadTrace(old(LayoutsOf(clusters)), volume / |clusters| as real))
      ensures Valid() && (old(Exact()) ==> Exact())
    {
      ghost var start := machines[..];
      ghost var layouts := LayoutsOf(clusters);
      var perCluster := volume / |clusters| as real;
      IngressAll(perCluster);
      // Traffic changes no machine's allocation, so the region keeps its invariants.
      assert SameAllocation(start, machines[..]) by {
        ApplySameAllocation(start, UploadTrace(layouts, perCluster));
      }
      assert Valid() by {
        SameAllocationKeeps(Pool(start, capacity[..], []), machines[..], machinesPerRack, clusterIdx);
      }
      assert old(Exact()) ==> Exact() by {
        if old(Exact()) {
          SameAllocationKeeps(Pool(start, capacity[..], []), machines[..], machinesPerRack, clusterIdx);
          forall j | 0 <= j < |clusters|
            ensures Holds(Snapshot(clusters[j]), j)
          {
            SameAllocationKeeps(Pool(start, capacity[..], clusters[j].placement), machines[..], machinesPerRack, j);
          }
        }
      }
    }

    /** The walk of Region.upload: cluster after cluster takes in `perCluster`. */
    method IngressAll(perCluster: real)
      requires Uploadable(LayoutsOf(clusters))
      requires forall k, i :: 0 <= k < |clusters| && 0 <= i < |clusters[k].placement| ==>
                 clusters[k].placement[i] < machines.Length
      modifies machines
      ensures machines[..] == Apply(old(machines[..]), UploadTrace(old(LayoutsOf(clusters)), perCluster))
    {
      ghost var start := machines[..];
      ghost var layouts := LayoutsOf(clusters);
      var k := 0;
      while k < |clusters|
        invariant k <= |clusters|
        invariant machines[..] == Apply(start, UploadTrace(layouts[..k], perCluster))
      {
        ghost var cur := machines[..];
        clusters[k].Ingress(machines, perCluster);
        UploadStep(start, cur, machines[..], layouts, k, k + 1, perCluster);
        k := k + 1;
      }
      assert layouts[..k] == layouts;
    }

    /** Region.download: every cluster gives out an equal part of `volume`,
        cluster k reading in the chunk orders `shuffles[k]`. */
    method Download(volume: real, shuffles: seq<seq<seq<nat>>>)
      requires Valid() && |clusters| > 0 && Downloadable(LayoutsOf(clusters), shuffles)
      modifies machines
      ensures machines[..] == Apply(old(machines[..]), DownloadTrace(old(LayoutsOf(clusters)), shuffles, volume / |clusters| as real))
      ensures Valid() && (old(Exact()) ==> Exact())
    {
      ghost var start := machines[..];
      ghost var layouts := LayoutsOf(clusters);
      var perCluster := volume / |clusters| as real;
      EgressAll(perCluster, shuffles);
      // Traffic changes no machine's allocation, so the region keeps its invariants.
      assert SameAllocation(start, machines[..]) by {
        ApplySameAllocation(start, DownloadTrace(layouts, shuffles, perCluster));
      }
      assert Valid() by {
        SameAllocationKeeps(Pool(start, capacity[..], []), machines[..], machinesPerRack, clusterIdx);
      }
      assert old(Exact()) ==> Exact() by {
        if old(Exact()) {
          SameAllocationKeeps(Pool(start, capacity[..], []), machines[..], machinesPerRack, clusterIdx);
          forall j | 0 <= j < |clusters|
            ensures Holds(Snapshot(clusters[j]), j)
          {
            SameAllocationKeeps(Pool(start, capacity[..], clusters[j].placement), machines[..], machinesPerRack, j);
          }
        }
      }
    }

    /** The walk of Region.download: cluster after cluster gives out
        `perCluster`. */
    method EgressAll(perCluster: real, shuffles: seq<seq<seq<nat>>>)
      requires Downloadable(LayoutsOf(clusters), shuffles)
      requires forall k, i :: 0 <= k < |clusters| && 0 <= i < |clusters[k].placement| ==>
                 clusters[k].placement[i] < machines.Length
      modifies machines
      ensures machines[..] == Apply(old(machines[..]), DownloadTrace(old(LayoutsOf(clusters)), shuffles, perCluster))
    {
      ghost var start := machines[..];
      ghost var layouts := LayoutsOf(clusters);
      var k := 0;
      while k < |clusters|
        invariant k <= |clusters|
        invariant machines[..] == Apply(start, DownloadTrace(layouts[..k], shuffles[..k], perCluster))
      {
        ghost var cur := machines[..];
        clusters[k].Egress(machines, perCluster, shuffles[k]);
        DownloadStep(start, cur, machines[..], layouts, shuffles, k, k + 1, perCluster);
        k := k + 1;
      }
      assert layouts[..k] == layouts && shuffles[..k] == shuffles;
    }

    method AllocateDcIdx() returns (idx: nat)
      modifies this`dcIdx
      ensures idx == old(dcIdx) && dcIdx == old(dcIdx) + 1
    {
      idx := dcIdx;
      dcIdx := dcIdx + 1;
    }

    method AllocateMachineIdx() returns (idx: nat)
      modifies this`machineIdx
      ensures idx == old(machineIdx) && machineIdx == old(machineIdx) + 1
    {
      idx := machineIdx;
      machineIdx := machineIdx + 1;
    }

    method AllocateRackIdx() returns (idx: nat)
      modifies this`rackIdx
      ensures idx == old(rackIdx) && rackIdx == old(rackIdx) + 1
    {
      idx := rackIdx;
      rackIdx := rackIdx + 1;
    }

    method AllocateClusterIdx() returns (idx: nat)
      modifies this`clusterIdx
      ensures idx == old(clusterIdx) && clusterIdx == old(clusterIdx) + 1
    {
      idx := clusterIdx;
      clusterIdx := clusterIdx + 1;
    }
  }
}
