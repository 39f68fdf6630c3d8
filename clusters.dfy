// StorageCluster: an erasure-coded storage cluster placed on machines of the
// region.  Its machines are named by index; two machines are the same
// machine exactly when their indices are equal, since the region hands out
// every machine index once.

module Clusters {
  import opened Machines
  import opened Traffic

  /** One stored chunk, performed on the machine array. */
  lemma ChunkWriteEffect(ms: seq<Machine>, server: nat, remote: nat, chunk: real)
    requires server < |ms| && remote < |ms|
    ensures Apply(ms, ChunkWrite(server, remote, chunk))
         == if remote == server then ms[remote := ms[remote].Ingress(chunk, false, true)]
            else
              var sent := ms[server := ms[server].Egress(chunk, true, false)];
              sent[remote := sent[remote].Ingress(chunk, true, true)]
  {
    if remote == server {
      ApplyOne(ms, Transfer(remote, In, chunk, false, true));
    } else {
      ApplyTwo(ms, Transfer(server, Out, chunk, true, false), Transfer(remote, In, chunk, true, true));
    }
  }

  /** One fetched chunk, performed on the machine array. */
  lemma ChunkReadEffect(ms: seq<Machine>, server: nat, remote: nat, chunk: real)
    requires server < |ms| && remote < |ms|
    ensures Apply(ms, ChunkRead(server, remote, chunk))
         == if remote == server then ms[remote := ms[remote].Egress(chunk, false, true)]
            else
              var fetched := ms[remote := ms[remote].Egress(chunk, true, true)];
              fetched[server := fetched[server].Ingress(chunk, true, false)]
  {
    if remote == server {
      ApplyOne(ms, Transfer(remote, Out, chunk, false, true));
    } else {
      ApplyTwo(ms, Transfer(remote, Out, chunk, true, true), Transfer(server, In, chunk, true, false));
    }
  }

  lemma ChunkWritesSnoc(server: nat, remotes: seq<nat>, j: nat, chunk: real)
    requires j < |remotes|
    ensures ChunkWrites(server, remotes[..j + 1], chunk) == ChunkWrites(server, remotes[..j], chunk) + ChunkWrite(server, remotes[j], chunk)
  {
    assert remotes[..j + 1][..j] == remotes[..j];
  }

  lemma ChunkReadsSnoc(server: nat, placement: seq<nat>, order: seq<nat>, k: nat, chunk: real)
    requires k < |order| && Positions(order, |placement|)
    ensures Positions(order[..k], |placement|) && Positions(order[..k + 1], |placement|)
    ensures ChunkReads(server, placement, order[..k + 1], chunk)
         == ChunkReads(server, placement, order[..k], chunk) + ChunkRead(server, placement[order[k]], chunk)
  {
    assert order[..k + 1][..k] == order[..k];
  }

  /** The outer loop of ingress has run over every placed machine. */
  lemma IngressDone(start: seq<Machine>, cur: seq<Machine>, placement: seq<nat>, parity: int, volume: real)
    requires |placement| > 0 && parity != |placement|
    requires var share := volume / |placement| as real;
             cur == Apply(start, IngressFrom(placement[..|placement|], placement, share, share / (|placement| - parity) as real))
    ensures cur == Apply(start, IngressTrace(placement, parity, volume))
  {
    assert placement[..|placement|] == placement;
  }

  /** The outer loop of egress has run over every placed machine. */
  lemma EgressDone(start: seq<Machine>, cur: seq<Machine>, placement: seq<nat>, parity: int, shuffles: seq<seq<nat>>, volume: real)
    requires |placement| > 0 && 0 <= parity && parity != |placement|
    requires Orders(shuffles, |placement|)
    requires var share := volume / |placement| as real;
             cur == Apply(start, EgressFrom(|placement|, placement, shuffles, DataChunks(|placement|, parity), share, share / (|placement| - parity) as real))
    ensures cur == Apply(start, EgressTrace(placement, parity, shuffles, volume))
  {
  }

  /** One more iteration of the inner loop of ingress. */
  lemma StoreStep(start: seq<Machine>, cur: seq<Machine>, after: seq<Machine>, server: nat, remotes: seq<nat>, j: nat, next: nat, chunk: real)
    requires next == j + 1 && next <= |remotes|
    requires cur == Apply(start, ChunkWrites(server, remotes[..j], chunk))
    requires after == Apply(cur, ChunkWrite(server, remotes[j], chunk))
    ensures after == Apply(start, ChunkWrites(server, remotes[..next], chunk))
  {
    ChunkWritesSnoc(server, remotes, j, chunk);
    ApplyAppend(start, ChunkWrites(server, remotes[..j], chunk), ChunkWrite(server, remotes[j], chunk));
  }

  lemma IngressFromSnoc(placement: seq<nat>, i: nat, share: real, chunk: real)
    requires i < |placement|
    ensures IngressFrom(placement[..i + 1], placement, share, chunk)
         == IngressFrom(placement[..i], placement, share, chunk)
            + [Transfer(placement[i], In, share, true, false)] + ChunkWrites(placement[i], placement, chunk)
  {
    assert placement[..i + 1][..i] == placement[..i];
  }

  /** One more iteration of the outer loop of ingress. */
  lemma IngressStep(start: seq<Machine>, cur: seq<Machine>, got: seq<Machine>, after: seq<Machine>,
                    placement: seq<nat>, i: nat, next: nat, share: real, chunk: real)
    requires next == i + 1 && next <= |placement| && placement[i] < |start|
    requires cur == Apply(start, IngressFrom(placement[..i], placement, share, chunk))
    requires got == cur[placement[i] := cur[placement[i]].Ingress(share, true, false)]
    requires after == Apply(got, ChunkWrites(placement[i], placement, chunk))
    ensures after == Apply(start, IngressFrom(placement[..next], placement, share, chunk))
  {
    var done := IngressFrom(placement[..i], placement, share, chunk);
    var received := Transfer(placement[i], In, share, true, false);
    var stored := ChunkWrites(placement[i], placement, chunk);
    IngressFromSnoc(placement, i, share, chunk);
    ApplySnoc(start, done, received);
    ApplyAppend(start, done + [received], stored);
  }

  /** One more iteration of the inner loop of egress. */
  lemma FetchStep(start: seq<Machine>, cur: seq<Machine>, after: seq<Machine>, server: nat, placement: seq<nat>, order: seq<nat>, k: nat, next: nat, chunk: real)
    requires next == k + 1 && next <= |order| && Positions(order, |placement|)
    requires cur == Apply(start, ChunkReads(server, placement, order[..k], chunk))
    requires after == Apply(cur, ChunkRead(server, placement[order[k]], chunk))
    ensures Positions(order[..next], |placement|)
    ensures after == Apply(start, ChunkReads(server, placement, order[..next], chunk))
  {
    ChunkReadsSnoc(server, placement, order, k, chunk);
    ApplyAppend(start, ChunkReads(server, placement, order[..k], chunk), ChunkRead(server, placement[order[k]], chunk));
  }

  /** Egress over the first i + 1 machines: over the first i, then machine i
      sends its share and fetches its chunks. */
  lemma EgressFromNext(placement: seq<nat>, shuffles: seq<seq<nat>>, data: nat, i: nat, next: nat, share: real, chunk: real)
    requires next == i + 1 && next <= |placement| && Orders(shuffles, |placement|) && data <= |placement|
    ensures Positions(shuffles[i][..data], |placement|)
    ensures EgressFrom(next, placement, shuffles, data, share, chunk)
         == EgressFrom(i, placement, shuffles, data, share, chunk) + [Transfer(placement[i], Out, share, true, false)]
            + ChunkReads(placement[i], placement, shuffles[i][..data], chunk)
  {
  }

  /** One more iteration of the outer loop of egress: machine `i` has served,
      so the first `next` = i + 1 machines have. */
  lemma EgressStep(start: seq<Machine>, cur: seq<Machine>, after: seq<Machine>,
                   placement: seq<nat>, shuffles: seq<seq<nat>>, data: nat, i: nat, next: nat, share: real, chunk: real)
    requires next == i + 1 && next <= |placement| && Orders(shuffles, |placement|) && data <= |placement|
    requires cur == Apply(start, EgressFrom(i, placement, shuffles, data, share, chunk))
    requires after == Apply(cur, [Transfer(placement[i], Out, share, true, false)]
                                 + ChunkReads(placement[i], placement, shuffles[i][..data], chunk))
    ensures after == Apply(start, EgressFrom(next, placement, shuffles, data, share, chunk))
  {
    EgressFromNext(placement, shuffles, data, i, next, share, chunk);
    var done := EgressFrom(i, placement, shuffles, data, share, chunk);
    var sent := [Transfer(placement[i], Out, share, true, false)];
    var fetched := ChunkReads(placement[i], placement, shuffles[i][..data], chunk);
    ApplyAppend(cur, sent, fetched);
    ApplyAppend(start, done, sent);
    ApplyAppend(start, done + sent, fetched);
  }

  /** One iteration of the outer loop of egress: `server` sends its share to
      the client, then fetches its data chunks. */
  method Serve(machines: array<Machine>, placement: seq<nat>, server: nat, order: seq<nat>, count: int, share: real, chunk: real)
    requires server < machines.Length
    requires forall i :: 0 <= i < |placement| ==> placement[i] < machines.Length
    requires Positions(order, |placement|) && count <= |order|
    modifies machines
    ensures machines[..] == Apply(old(machines[..]), [Transfer(server, Out, share, true, false)]
                                  + ChunkReads(server, placement, order[..if count < 0 then 0 else count], chunk))
  {
    var sent := Transfer(server, Out, share, true, false);
    ghost var start := machines[..];
    ApplyOne(start, sent);
    machines[server] := machines[server].Egress(share, true, false);
    FetchChunks(machines, placement, server, order, count, chunk);
    ApplyAppend(start, [sent], ChunkReads(server, placement, order[..if count < 0 then 0 else count], chunk));
  }

  /** One chunk stored by `server` on `remote`: written to its own disks when
      the remote is itself, else sent over the network and written there. */
  method StoreChunk(machines: array<Machine>, server: nat, remote: nat, chunk: real)
    requires server < machines.Length && remote < machines.Length
    modifies machines
    ensures machines[..] == Apply(old(machines[..]), ChunkWrite(server, remote, chunk))
  {
    ChunkWriteEffect(machines[..], server, remote, chunk);
    if remote == server {
      machines[remote] := machines[remote].Ingress(chunk, false, true);
    } else {
      machines[server] := machines[server].Egress(chunk, true, false);
      machines[remote] := machines[remote].Ingress(chunk, true, true);
    }
  }

  /** One chunk fetched by `server` from `remote`: read from its own disks
      when the remote is itself, else read there and received over the
      network. */
  method FetchChunk(machines: array<Machine>, server: nat, remote: nat, chunk: real)
    requires server < machines.Length && remote < machines.Length
    modifies machines
    ensures machines[..] == Apply(old(machines[..]), ChunkRead(server, remote, chunk))
  {
    ChunkReadEffect(machines[..], server, remote, chunk);
    if remote == server {
      machines[remote] := machines[remote].Egress(chunk, false, true);
    } else {
      machines[remote] := machines[remote].Egress(chunk, true, true);
      machines[server] := machines[server].Ingress(chunk, true, false);
    }
  }

  /** The inner loop of ingress: `server` stores one chunk on every placed
      machine, locally when the remote is itself. */
  method StoreChunks(machines: array<Machine>, placement: seq<nat>, server: nat, chunk: real)
    requires server < machines.Length
    requires forall i :: 0 <= i < |placement| ==> placement[i] < machines.Length
    modifies machines
    ensures machines[..] == Apply(old(machines[..]), ChunkWrites(server, placement, chunk))
  {
    ghost var start := machines[..];
    var j := 0;
    assert placement[..0] == [];
    while j < |placement|
      invariant 0 <= j <= |placement|
      invariant machines[..] == Apply(start, ChunkWrites(server, placement[..j], chunk))
    {
      ghost var cur, stored := machines[..], j;
      StoreChunk(machines, server, placement[j], chunk);
      j := j + 1;
      StoreStep(start, cur, machines[..], server, placement, stored, j, chunk);
    }
    assert placement[..j] == placement;
  }

  /** The inner loop of egress: `server` fetches the chunks at the first
      `count` positions of `order` (none when `count` is not positive), from
      its own disks when the chunk is local. */
  method FetchChunks(machines: array<Machine>, placement: seq<nat>, server: nat, order: seq<nat>, count: int, chunk: real)
    requires server < machines.Length
    requires forall i :: 0 <= i < |placement| ==> placement[i] < machines.Length
    requires Positions(order, |placement|) && count <= |order|
    modifies machines
    ensures machines[..] == Apply(old(machines[..]), ChunkReads(server, placement, order[..if count < 0 then 0 else count], chunk))
  {
    ghost var start := machines[..];
    var k := 0;
    assert order[..0] == [];
    while k < count
      invariant 0 <= k && (k <= count || k == 0)
      invariant machines[..] == Apply(start, ChunkReads(server, placement, order[..k], chunk))
    {
      ghost var cur, fetched := machines[..], k;
      FetchChunk(machines, server, placement[order[k]], chunk);
      k := k + 1;
      FetchStep(start, cur, machines[..], server, placement, order, fetched, k, chunk);
    }
  }

  class StorageCluster {
    /** The cluster's index, handed out by the region's cluster counter. */
    const idx: nat
    /** The number of parity chunks each share is coded with. */
    const parity: int
    /** The machines placed in the cluster, in the order they were added. */
    var placement: seq<nat>

    constructor (idx: nat, parity: int)
      ensures this.idx == idx && this.parity == parity && placement == []
    {
      this.idx := idx;
      this.parity := parity;
      placement := [];
    }

    /** What the traffic engine needs of the cluster. */
    function Shape(): (r: Layout)
      reads this
    {
      Layout(placement, parity)
    }

    method AddPlacement(machine: nat)
      modifies this
      ensures placement == old(placement) + [machine]
    {
      placement := placement + [machine];
    }

    /** Writing `volume` into the cluster: each placed machine receives its
        share from the client, then stores one chunk of it on every placed
        machine. */
    method Ingress(machines: array<Machine>, volume: real)
      requires |placement| > 0 && parity != |placement|
      requires forall i :: 0 <= i < |placement| ==> placement[i] < machines.Length
      modifies machines
      ensures machines[..] == Apply(old(machines[..]), IngressTrace(placement, parity, volume))
    {
      ghost var start := machines[..];
      var servers := placement;
      var n := |servers|;
      var share := volume / n as real;
      var chunk := share / (n - parity) as real;
      var i := 0;
      while i < n
        invariant 0 <= i <= n
        invariant machines[..] == Apply(start, IngressFrom(servers[..i], servers, share, chunk))
      {
        var server := servers[i];
        ghost var cur, served := machines[..], i;
        machines[server] := machines[server].Ingress(share, true, false);
        ghost var got := machines[..];
        StoreChunks(machines, servers, server, chunk);
        i := i + 1;
        IngressStep(start, cur, got, machines[..], servers, served, i, share, chunk);
      }
      IngressDone(start, machines[..], servers, parity, volume);
    }

    /** Reading `volume` back: each placed machine sends its share to the
        client and fetches the chunks at the first n - parity positions of its
        chunk order.  `shuffles[i]` is the chunk order after the i-th shuffle
        of the source's random generator. */
    method Egress(machines: array<Machine>, volume: real, shuffles: seq<seq<nat>>)
      requires |placement| > 0 && 0 <= parity && parity != |placement|
      requires Orders(shuffles, |placement|)
      requires forall i :: 0 <= i < |placement| ==> placement[i] < machines.Length
      modifies machines
      ensures machines[..] == Apply(old(machines[..]), EgressTrace(placement, parity, shuffles, volume))
    {
      ghost var start := machines[..];
      var servers := placement;
      var n := |servers|;
      var share := volume / n as real;
      var chunk := share / (n - parity) as real;
      // A negative count leaves the loop over the data chunks empty.
      var dataChunkCount := n - parity;
      ghost var data := DataChunks(n, parity);
      assert (if dataChunkCount < 0 then 0 else dataChunkCount) == data;
      var i := 0;
      while i < n
        invariant 0 <= i <= n
        invariant machines[..] == Apply(start, EgressFrom(i, servers, shuffles, data, share, chunk))
      {
        ghost var cur, served := machines[..], i;
        Serve(machines, servers, servers[i], shuffles[i], dataChunkCount, share, chunk);
        i := i + 1;
        EgressStep(start, cur, machines[..], servers, shuffles, data, served, i, share, chunk);
      }
      EgressDone(start, machines[..], servers, parity, shuffles, volume);
    }
  }
}
