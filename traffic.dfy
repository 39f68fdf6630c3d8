// The erasure-coding traffic accounting engine: the sequence of
// Machine.ingress / Machine.egress calls that StorageCluster.ingress and
// StorageCluster.egress make, and what those calls add up to.
//
// A cluster of n placed machines with p parity chunks splits a volume V
// evenly across its machines (share = V / n) and cuts each share into
// chunks of share / (n - p).

module Traffic {
  import opened Machines

  /** How often machine `x` occurs in `s`. */
  function Count(s: seq<nat>, x: nat): (r: nat)
    ensures r <= |s|
    decreases |s|
  {
    if s == [] then 0 else Count(s[..|s| - 1], x) + (if s[|s| - 1] == x then 1 else 0)
  }

  /** The part of a volume that each placed machine handles. */
  function ShareSize(volume: real, n: nat): (r: real)
    requires n > 0
  {
    volume / n as real
  }

  /** The size of one erasure-coded chunk of a share. */
  function ChunkSize(volume: real, n: nat, parity: int): (r: real)
    requires n > 0 && parity != n
  {
    ShareSize(volume, n) / (n - parity) as real
  }

  // ---------------------------------------------------------------- ingress

  /** `server` stores one chunk on `remote`: on its own disk when `remote` is
      itself, else it sends the chunk and `remote` receives and writes it. */
  function ChunkWrite(server: nat, remote: nat, chunk: real): (r: seq<Transfer>) {
    if remote == server then [Transfer(remote, In, chunk, false, true)]
    else [Transfer(server, Out, chunk, true, false), Transfer(remote, In, chunk, true, true)]
  }

  /** `server` stores one chunk on each machine of `remotes`, in order. */
  function ChunkWrites(server: nat, remotes: seq<nat>, chunk: real): (r: seq<Transfer>)
    decreases |remotes|
  {
    if remotes == [] then []
    else ChunkWrites(server, remotes[..|remotes| - 1], chunk) + ChunkWrite(server, remotes[|remotes| - 1], chunk)
  }

  /** Each machine of `servers` receives its share from the client, then
      stores one chunk on every machine of `placement`. */
  function IngressFrom(servers: seq<nat>, placement: seq<nat>, share: real, chunk: real): (r: seq<Transfer>)
    decreases |servers|
  {
    if servers == [] then []
    else
      var server := servers[|servers| - 1];
      IngressFrom(servers[..|servers| - 1], placement, share, chunk)
        + [Transfer(server, In, share, true, false)]
        + ChunkWrites(server, placement, chunk)
  }

  /** The calls StorageCluster.ingress makes for `volume`. */
  function IngressTrace(placement: seq<nat>, parity: int, volume: real): (r: seq<Transfer>)
    requires |placement| > 0 && parity != |placement|
  {
    IngressFrom(placement, placement, ShareSize(volume, |placement|), ChunkSize(volume, |placement|, parity))
  }

  // ----------------------------------------------------------------- egress

  /** `server` fetches one chunk from `remote`: a local disk read when `remote`
      is itself, else `remote` reads and sends it and `server` receives it. */
  function ChunkRead(server: nat, remote: nat, chunk: real): (r: seq<Transfer>) {
    if remote == server then [Transfer(remote, Out, chunk, false, true)]
    else [Transfer(remote, Out, chunk, true, true), Transfer(server, In, chunk, true, false)]
  }

  predicate Positions(positions: seq<nat>, n: nat) {
    forall i :: 0 <= i < |positions| ==> positions[i] < n
  }

  /** `server` fetches one chunk from the machine at each of `positions` of `placement`. */
  function ChunkReads(server: nat, placement: seq<nat>, positions: seq<nat>, chunk: real): (r: seq<Transfer>)
    requires Positions(positions, |placement|)
    decreases |positions|
  {
    if positions == [] then []
    else
      ChunkReads(server, placement, positions[..|positions| - 1], chunk)
        + ChunkRead(server, placement[positions[|positions| - 1]], chunk)
  }

  /** `order` is a permutation of the positions 0 .. n-1. */
  predicate IsPermutation(order: seq<nat>, n: nat) {
    && |order| == n
    && (forall i :: 0 <= i < n ==> order[i] < n)
    && (forall i, j :: 0 <= i < j < n ==> order[i] != order[j])
  }

  /** One chunk order per placed machine: the list of positions after each
      successive shuffle. */
  predicate ValidShuffles(shuffles: seq<seq<nat>>, n: nat) {
    |shuffles| == n && forall i :: 0 <= i < n ==> IsPermutation(shuffles[i], n)
  }

  /** One chunk order per placed machine, each of n positions below n: what
      the reads need of the shuffles to stay inside the placement. */
  predicate Orders(shuffles: seq<seq<nat>>, n: nat) {
    |shuffles| == n && forall i :: 0 <= i < n ==> |shuffles[i]| == n && Positions(shuffles[i], n)
  }

  /** Shuffled permutations are such orders. */
  lemma ShufflesAreOrders(shuffles: seq<seq<nat>>, n: nat)
    requires ValidShuffles(shuffles, n)
    ensures Orders(shuffles, n)
  {
  }

  /** How many chunks a read fetches: n - p, or none when that is not positive
      (a range over a negative count is empty). */
  function DataChunks(n: nat, parity: int): (r: nat) {
    if parity < n then n - parity else 0
  }

  /** The first `k` placed machines each send their share to the client after
      fetching the chunks at the first `data` positions of their shuffle. */
  function EgressFrom(k: nat, placement: seq<nat>, shuffles: seq<seq<nat>>, data: nat, share: real, chunk: real): (r: seq<Transfer>)
    requires k <= |placement| && Orders(shuffles, |placement|) && data <= |placement|
    decreases k
  {
    if k == 0 then []
    else
      var server := placement[k - 1];
      EgressFrom(k - 1, placement, shuffles, data, share, chunk)
        + [Transfer(server, Out, share, true, false)]
        + ChunkReads(server, placement, shuffles[k - 1][..data], chunk)
  }

  /** The calls StorageCluster.egress makes for `volume` when the shuffle
      produces the chunk orders `shuffles`. */
  function EgressTrace(placement: seq<nat>, parity: int, shuffles: seq<seq<nat>>, volume: real): (r: seq<Transfer>)
    requires |placement| > 0 && 0 <= parity && parity != |placement|
    requires Orders(shuffles, |placement|)
  {
    var n := |placement|;
    EgressFrom(n, placement, shuffles, DataChunks(n, parity), ShareSize(volume, n), ChunkSize(volume, n, parity))
  }

  // ---------------------------------------------------------- whole region

  /** What the traffic engine needs of one storage cluster. */
  datatype Layout = Layout(placement: seq<nat>, parity: int)

  /** StorageCluster.ingress does not divide by zero on this cluster. */
  predicate CanIngress(l: Layout) {
    |l.placement| > 0 && l.parity != |l.placement|
  }

  /** StorageCluster.egress neither divides by zero nor indexes past its chunk list. */
  predicate CanEgress(l: Layout) {
    |l.placement| > 0 && 0 <= l.parity && l.parity != |l.placement|
  }

  /** Every cluster can take in data. */
  predicate Uploadable(layouts: seq<Layout>) {
    forall k :: 0 <= k < |layouts| ==> CanIngress(layouts[k])
  }

  /** Region.upload: every cluster takes in `perCluster`. */
  function UploadTrace(layouts: seq<Layout>, perCluster: real): (r: seq<Transfer>)
    requires Uploadable(layouts)
    decreases |layouts|
  {
    if layouts == [] then []
    else
      var l := layouts[|layouts| - 1];
      assert CanIngress(l);
      UploadTrace(layouts[..|layouts| - 1], perCluster) + IngressTrace(l.placement, l.parity, perCluster)
  }

  /** Every cluster can give out data, cluster k reading in the chunk orders
      `shuffles[k]`. */
  predicate Downloadable(layouts: seq<Layout>, shuffles: seq<seq<seq<nat>>>) {
    |shuffles| == |layouts| &&
    forall k :: 0 <= k < |layouts| ==> CanEgress(layouts[k]) && Orders(shuffles[k], |layouts[k].placement|)
  }

  /** Region.download: every cluster gives out `perCluster`, cluster k reading
      in the chunk orders `shuffles[k]`. */
  function DownloadTrace(layouts: seq<Layout>, shuffles: seq<seq<seq<nat>>>, perCluster: real): (r: seq<Transfer>)
    requires Downloadable(layouts, shuffles)
    decreases |layouts|
  {
    if layouts == [] then []
    else
      var k := |layouts| - 1;
      assert CanEgress(layouts[k]);
      DownloadTrace(layouts[..k], shuffles[..k], perCluster)
        + EgressTrace(layouts[k].placement, layouts[k].parity, shuffles[k], perCluster)
  }

  /** The walk's trace over clusters 0 .. k is its trace over 0 .. k-1 and
      then cluster k's. */
  lemma DownloadTraceSnoc(layouts: seq<Layout>, shuffles: seq<seq<seq<nat>>>, k: nat, next: nat, perCluster: real)
    requires next == k + 1 && next <= |layouts| && Downloadable(layouts, shuffles)
    ensures DownloadTrace(layouts[..next], shuffles[..next], perCluster)
         == DownloadTrace(layouts[..k], shuffles[..k], perCluster)
              + EgressTrace(layouts[k].placement, layouts[k].parity, shuffles[k], perCluster)
  {
    var ls, ss := layouts[..next], shuffles[..next];
    assert ls[..k] == layouts[..k] && ss[..k] == shuffles[..k];
    assert ls[k] == layouts[k] && ss[k] == shuffles[k];
  }
}
