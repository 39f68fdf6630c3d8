// Machines and the traffic counters they accumulate.
//
// A machine is a record; the topology keeps all of them in one array indexed
// by machine index, and every change to a machine replaces its slot.  The
// traffic accounting engine changes machines only through Machine.ingress and
// Machine.egress; a run of those calls is modelled as a trace of `Transfer`s
// that `Apply` performs in order.

module Machines {

  /** The `cluster_idx` of a machine that belongs to no storage cluster. */
  const Unallocated: int := -1

  /** A machine: its index, the storage cluster it is allocated to (or
      `Unallocated`), and its network-receive, network-transmit, disk-write
      and disk-read counters. */
  datatype Machine = Machine(idx: nat, clusterIdx: int, rx: real, tx: real, write: real, read: real)
  {
    predicate IsAllocated() {
      clusterIdx >= 0
    }

    function Allocate(cluster: nat): (r: Machine) {
      this.(clusterIdx := cluster)
    }

    function Deallocate(): (r: Machine) {
      this.(clusterIdx := Unallocated)
    }

    /** Data arriving at this machine: over the network, onto its disks, or both. */
    function Ingress(size: real, net: bool, disk: bool): (r: Machine) {
      this.(rx := if net then rx + size else rx, write := if disk then write + size else write)
    }

    /** Data leaving this machine: over the network, off its disks, or both. */
    function Egress(size: real, net: bool, disk: bool): (r: Machine) {
      this.(tx := if net then tx + size else tx, read := if disk then read + size else read)
    }
  }

  /** A machine as the topology builder creates it. */
  function NewMachine(idx: nat): (r: Machine) {
    Machine(idx, Unallocated, 0.0, 0.0, 0.0, 0.0)
  }

  datatype Counter = Rx | Tx | Write | Read

  function Get(m: Machine, c: Counter): (r: real) {
    match c
    case Rx => m.rx
    case Tx => m.tx
    case Write => m.write
    case Read => m.read
  }

  datatype Direction = In | Out

  /** One call of Machine.ingress (In) or Machine.egress (Out) on machine `machine`. */
  datatype Transfer = Transfer(machine: nat, dir: Direction, size: real, net: bool, disk: bool)

  function Perform(m: Machine, t: Transfer): (r: Machine) {
    if t.dir == In then m.Ingress(t.size, t.net, t.disk) else m.Egress(t.size, t.net, t.disk)
  }

  /** What `t` adds to counter `c` of the machine it is performed on. */
  function Amount(t: Transfer, c: Counter): (r: real) {
    match c
    case Rx => if t.dir == In && t.net then t.size else 0.0
    case Write => if t.dir == In && t.disk then t.size else 0.0
    case Tx => if t.dir == Out && t.net then t.size else 0.0
    case Read => if t.dir == Out && t.disk then t.size else 0.0
  }

  /** Every transfer of `ts` names one of the first `n` machines. */
  predicate InRange(ts: seq<Transfer>, n: nat) {
    forall i :: 0 <= i < |ts| ==> ts[i].machine < n
  }

  /** Every transfer of `ts` names a machine of `placement`. */
  predicate Touches(ts: seq<Transfer>, placement: seq<nat>) {
    forall i :: 0 <= i < |ts| ==> ts[i].machine in placement
  }

  /** The machines after performing the transfers of `ts` in order. */
  function Apply(ms: seq<Machine>, ts: seq<Transfer>): (r: seq<Machine>)
    ensures |r| == |ms|
    decreases |ts|
  {
    if ts == [] then ms
    else
      var prev := Apply(ms, ts[..|ts| - 1]);
      var t := ts[|ts| - 1];
      if t.machine < |prev| then prev[t.machine := Perform(prev[t.machine], t)] else prev
  }

  /** Sum of what the transfers of `ts` add to counter `c`, over all machines. */
  function Sum(ts: seq<Transfer>, c: Counter): (r: real)
    decreases |ts|
  {
    if ts == [] then 0.0 else Sum(ts[..|ts| - 1], c) + Amount(ts[|ts| - 1], c)
  }

  /** Sum of what the transfers of `ts` add to counter `c` of machine `x`. */
  function SumAt(ts: seq<Transfer>, x: nat, c: Counter): (r: real)
    decreases |ts|
  {
    if ts == [] then 0.0
    else SumAt(ts[..|ts| - 1], x, c) + (if ts[|ts| - 1].machine == x then Amount(ts[|ts| - 1], c) else 0.0)
  }

  /** Counter `c` summed over machines ms[lo..hi] (the reduce of Rack.get_tx and friends). */
  function RangeTotal(ms: seq<Machine>, lo: nat, hi: nat, c: Counter): (r: real)
    requires lo <= hi <= |ms|
    decreases hi
  {
    if hi == lo then 0.0 else RangeTotal(ms, lo, hi - 1, c) + Get(ms[hi - 1], c)
  }

  /** Counter `c` summed over every machine. */
  function Total(ms: seq<Machine>, c: Counter): (r: real) {
    RangeTotal(ms, 0, |ms|, c)
  }

  /** The machine `m` with `dr`, `dt`, `dw`, `dd` added to its rx, tx, write and read counters. */
  function Bumped(m: Machine, dr: real, dt: real, dw: real, dd: real): (r: Machine) {
    m.(rx := m.rx + dr, tx := m.tx + dt, write := m.write + dw, read := m.read + dd)
  }

  /** Performing a trace changes machine `x` by exactly what the trace sends to `x`:
      its index and allocation state stay as they were. */
  lemma {:induction false} ApplyAt(ms: seq<Machine>, ts: seq<Transfer>, x: nat)
    requires x < |ms|
    ensures Apply(ms, ts)[x] == Bumped(ms[x], SumAt(ts, x, Rx), SumAt(ts, x, Tx), SumAt(ts, x, Write), SumAt(ts, x, Read))
    decreases |ts|
  {
    if ts != [] {
      ApplyAt(ms, ts[..|ts| - 1], x);
    }
  }

  /** A machine that no transfer names sees no change. */
  lemma {:induction false} SumAtUntouched(ts: seq<Transfer>, x: nat, c: Counter)
    requires forall i :: 0 <= i < |ts| ==> ts[i].machine != x
    ensures SumAt(ts, x, c) == 0.0
    decreases |ts|
  {
    if ts != [] {
      SumAtUntouched(ts[..|ts| - 1], x, c);
    }
  }

  lemma {:induction false} RangeTotalUpdate(ms: seq<Machine>, lo: nat, hi: nat, x: nat, m: Machine, c: Counter)
    requires lo <= hi <= |ms| && x < |ms|
    ensures RangeTotal(ms[x := m], lo, hi, c)
         == RangeTotal(ms, lo, hi, c) + (if lo <= x < hi then Get(m, c) - Get(ms[x], c) else 0.0)
    decreases hi
  {
    if hi != lo {
      RangeTotalUpdate(ms, lo, hi - 1, x, m, c);
    }
  }

  /** Performing a trace raises the total of every counter by the trace's sum:
      no traffic is created or lost. */
  lemma {:induction false} ApplyTotal(ms: seq<Machine>, ts: seq<Transfer>, c: Counter)
    requires InRange(ts, |ms|)
    ensures Total(Apply(ms, ts), c) == Total(ms, c) + Sum(ts, c)
    decreases |ts|
  {
    if ts != [] {
      var prefix := ts[..|ts| - 1];
      var t := ts[|ts| - 1];
      ApplyTotal(ms, prefix, c);
      var prev := Apply(ms, prefix);
      RangeTotalUpdate(prev, 0, |prev|, t.machine, Perform(prev[t.machine], t), c);
    }
  }

  lemma {:induction false} SumAppend(a: seq<Transfer>, b: seq<Transfer>, c: Counter)
    ensures Sum(a + b, c) == Sum(a, c) + Sum(b, c)
    decreases |b|
  {
    if b == [] {
      assert a + b == a;
    } else {
      assert (a + b)[..|a + b| - 1] == a + b[..|b| - 1];
      SumAppend(a, b[..|b| - 1], c);
    }
  }

  lemma {:induction false} SumAtAppend(a: seq<Transfer>, b: seq<Transfer>, x: nat, c: Counter)
    ensures SumAt(a + b, x, c) == SumAt(a, x, c) + SumAt(b, x, c)
    decreases |b|
  {
    if b == [] {
      assert a + b == a;
    } else {
      assert (a + b)[..|a + b| - 1] == a + b[..|b| - 1];
      SumAtAppend(a, b[..|b| - 1], x, c);
    }
  }

  lemma {:induction false} ApplyAppend(ms: seq<Machine>, a: seq<Transfer>, b: seq<Transfer>)
    ensures Apply(ms, a + b) == Apply(Apply(ms, a), b)
    decreases |b|
  {
    if b == [] {
      assert a + b == a;
    } else {
      assert (a + b)[..|a + b| - 1] == a + b[..|b| - 1];
      ApplyAppend(ms, a, b[..|b| - 1]);
    }
  }

  /** Performing one more transfer on a machine of the array. */
  lemma ApplySnoc(ms: seq<Machine>, ts: seq<Transfer>, t: Transfer)
    requires t.machine < |ms|
    ensures Apply(ms, ts + [t]) == Apply(ms, ts)[t.machine := Perform(Apply(ms, ts)[t.machine], t)]
  {
    assert (ts + [t])[..|ts|] == ts;
  }

  lemma ApplyOne(ms: seq<Machine>, t: Transfer)
    requires t.machine < |ms|
    ensures Apply(ms, [t]) == ms[t.machine := Perform(ms[t.machine], t)]
  {
    assert [t][..0] == [];
  }

  lemma ApplyTwo(ms: seq<Machine>, t: Transfer, u: Transfer)
    requires t.machine < |ms| && u.machine < |ms|
    ensures var first := ms[t.machine := Perform(ms[t.machine], t)];
            Apply(ms, [t, u]) == first[u.machine := Perform(first[u.machine], u)]
  {
    assert [t, u][..1] == [t];
    ApplyOne(ms, t);
  }

  /** Two machine arrays that agree on every machine's index and allocation. */
  predicate SameAllocation(ms: seq<Machine>, ms': seq<Machine>) {
    |ms'| == |ms| && forall x :: 0 <= x < |ms| ==> ms'[x].idx == ms[x].idx && ms'[x].clusterIdx == ms[x].clusterIdx
  }

  /** Traffic never changes which machine is which or where it is allocated. */
  lemma ApplySameAllocation(ms: seq<Machine>, ts: seq<Transfer>)
    ensures SameAllocation(ms, Apply(ms, ts))
  {
    forall x | 0 <= x < |ms|
      ensures Apply(ms, ts)[x].idx == ms[x].idx && Apply(ms, ts)[x].clusterIdx == ms[x].clusterIdx
    {
      ApplyAt(ms, ts, x);
    }
  }
}
