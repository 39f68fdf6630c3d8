// What the ingress and egress traces add up to: per machine and in total.

module TrafficLaws {
  import opened Machines
  import opened Traffic

  // ------------------------------------------------------------ small steps

  lemma SumSingle(t: Transfer, c: Counter)
    ensures Sum([t], c) == Amount(t, c)
  {
    assert [t][..0] == [];
  }

  lemma SumAtSingle(t: Transfer, x: nat, c: Counter)
    ensures SumAt([t], x, c) == if t.machine == x then Amount(t, c) else 0.0
  {
    assert [t][..0] == [];
  }

  lemma SumPair(t1: Transfer, t2: Transfer, c: Counter)
    ensures Sum([t1, t2], c) == Amount(t1, c) + Amount(t2, c)
  {
    assert [t1, t2][..1] == [t1];
    SumSingle(t1, c);
  }

  lemma SumAtPair(t1: Transfer, t2: Transfer, x: nat, c: Counter)
    ensures SumAt([t1, t2], x, c)
         == (if t1.machine == x then Amount(t1, c) else 0.0) + (if t2.machine == x then Amount(t2, c) else 0.0)
  {
    assert [t1, t2][..1] == [t1];
    SumAtSingle(t1, x, c);
  }

  /** The sums of a block made of a trace, one transfer and another trace. */
  lemma Sum3(a: seq<Transfer>, t: Transfer, b: seq<Transfer>, c: Counter)
    ensures Sum(a + [t] + b, c) == Sum(a, c) + Amount(t, c) + Sum(b, c)
  {
    SumAppend(a + [t], b, c);
    SumAppend(a, [t], c);
    SumSingle(t, c);
  }

  lemma SumAt3(a: seq<Transfer>, t: Transfer, b: seq<Transfer>, x: nat, c: Counter)
    ensures SumAt(a + [t] + b, x, c) == SumAt(a, x, c) + (if t.machine == x then Amount(t, c) else 0.0) + SumAt(b, x, c)
  {
    SumAtAppend(a + [t], b, x, c);
    SumAtAppend(a, [t], x, c);
    SumAtSingle(t, x, c);
  }

  lemma ChunkWriteSums(server: nat, remote: nat, chunk: real)
    ensures Sum(ChunkWrite(server, remote, chunk), Rx) == if remote == server then 0.0 else chunk
    ensures Sum(ChunkWrite(server, remote, chunk), Tx) == if remote == server then 0.0 else chunk
    ensures Sum(ChunkWrite(server, remote, chunk), Write) == chunk
    ensures Sum(ChunkWrite(server, remote, chunk), Read) == 0.0
  {
    var t := Transfer(remote, In, chunk, false, true);
    var t1, t2 := Transfer(server, Out, chunk, true, false), Transfer(remote, In, chunk, true, true);
    if remote == server {
      SumSingle(t, Rx); SumSingle(t, Tx); SumSingle(t, Write); SumSingle(t, Read);
    } else {
      SumPair(t1, t2, Rx); SumPair(t1, t2, Tx); SumPair(t1, t2, Write); SumPair(t1, t2, Read);
    }
  }

  lemma ChunkWriteAt(server: nat, remote: nat, chunk: real, x: nat)
    ensures SumAt(ChunkWrite(server, remote, chunk), x, Rx) == if remote == x && remote != server then chunk else 0.0
    ensures SumAt(ChunkWrite(server, remote, chunk), x, Tx) == if server == x && remote != server then chunk else 0.0
    ensures SumAt(ChunkWrite(server, remote, chunk), x, Write) == if remote == x then chunk else 0.0
    ensures SumAt(ChunkWrite(server, remote, chunk), x, Read) == 0.0
  {
    var t := Transfer(remote, In, chunk, false, true);
    var t1, t2 := Transfer(server, Out, chunk, true, false), Transfer(remote, In, chunk, true, true);
    if remote == server {
      SumAtSingle(t, x, Rx); SumAtSingle(t, x, Tx); SumAtSingle(t, x, Write); SumAtSingle(t, x, Read);
    } else {
      SumAtPair(t1, t2, x, Rx); SumAtPair(t1, t2, x, Tx); SumAtPair(t1, t2, x, Write); SumAtPair(t1, t2, x, Read);
    }
  }

  lemma ChunkReadSums(server: nat, remote: nat, chunk: real)
    ensures Sum(ChunkRead(server, remote, chunk), Rx) == if remote == server then 0.0 else chunk
    ensures Sum(ChunkRead(server, remote, chunk), Tx) == if remote == server then 0.0 else chunk
    ensures Sum(ChunkRead(server, remote, chunk), Write) == 0.0
    ensures Sum(ChunkRead(server, remote, chunk), Read) == chunk
  {
    var t := Transfer(remote, Out, chunk, false, true);
    var t1, t2 := Transfer(remote, Out, chunk, true, true), Transfer(server, In, chunk, true, false);
    if remote == server {
      SumSingle(t, Rx); SumSingle(t, Tx); SumSingle(t, Write); SumSingle(t, Read);
    } else {
      SumPair(t1, t2, Rx); SumPair(t1, t2, Tx); SumPair(t1, t2, Write); SumPair(t1, t2, Read);
    }
  }

  lemma ChunkReadAt(server: nat, remote: nat, chunk: real, x: nat)
    ensures SumAt(ChunkRead(server, remote, chunk), x, Tx) == if remote == x && remote != server then chunk else 0.0
    ensures SumAt(ChunkRead(server, remote, chunk), x, Write) == 0.0
  {
    var t := Transfer(remote, Out, chunk, false, true);
    var t1, t2 := Transfer(remote, Out, chunk, true, true), Transfer(server, In, chunk, true, false);
    if remote == server {
      SumAtSingle(t, x, Tx); SumAtSingle(t, x, Write);
    } else {
      SumAtPair(t1, t2, x, Tx); SumAtPair(t1, t2, x, Write);
    }
  }

  /** Counting in one more element of a prefix. */
  lemma CountPrefix(s: seq<nat>, k: nat, x: nat)
    requires 0 < k <= |s|
    ensures Count(s[..k], x) == Count(s[..k - 1], x) + (if s[k - 1] == x then 1 else 0)
  {
    assert s[..k][..k - 1] == s[..k - 1];
  }

  /** A machine that is not placed is counted zero times. */
  lemma {:induction false} CountAbsent(s: seq<nat>, x: nat)
    requires x !in s
    ensures Count(s, x) == 0
    decreases |s|
  {
    if s != [] {
      assert x !in s[..|s| - 1];
      CountAbsent(s[..|s| - 1], x);
    }
  }

  /** In a placement without repeats every placed machine occurs once. */
  lemma {:induction false} CountDistinct(s: seq<nat>, i: nat)
    requires i < |s|
    requires forall a, b :: 0 <= a < b < |s| ==> s[a] != s[b]
    ensures Count(s, s[i]) == 1
    decreases |s|
  {
    var last := |s| - 1;
    if i < last {
      CountDistinct(s[..last], i);
    } else {
      assert s[i] !in s[..last];
      CountAbsent(s[..last], s[i]);
    }
  }

  /** `k` copies of `r` added up; the traces add chunks one at a time, and
      counting them this way keeps every inductive step linear. */
  function Times(k: nat, r: real): (res: real)
    decreases k
  {
    if k == 0 then 0.0 else Times(k - 1, r) + r
  }

  lemma {:induction false} TimesProduct(k: nat, r: real)
    ensures Times(k, r) == k as real * r
    decreases k
  {
    if k > 0 {
      TimesProduct(k - 1, r);
      var j := (k - 1) as real;
      assert k as real * r == j * r + r;
    }
  }

  lemma TimesNested(a: nat, b: nat, r: real)
    ensures Times(a, Times(b, r)) == a as real * (b as real * r)
  {
    TimesProduct(b, r);
    TimesProduct(a, b as real * r);
  }

  /** The n shares of a volume add up to the volume. */
  lemma TimesShare(volume: real, n: nat)
    requires n > 0
    ensures Times(n, ShareSize(volume, n)) == volume
  {
    TimesProduct(n, ShareSize(volume, n));
    DivMul(volume, n as real, ShareSize(volume, n));
  }

  /** The n - p data chunks of a share add up to the share. */
  lemma TimesChunk(volume: real, n: nat, parity: int)
    requires n > 0 && parity < n
    ensures Times(n - parity, ChunkSize(volume, n, parity)) == ShareSize(volume, n)
  {
    var d := (n - parity) as real;
    var share := ShareSize(volume, n);
    TimesProduct(n - parity, ChunkSize(volume, n, parity));
    DivMul(share, d, ChunkSize(volume, n, parity));
  }

  // ---------------------------------------------------------------- ingress

  lemma {:induction false} ChunkWritesAt(server: nat, remotes: seq<nat>, chunk: real, x: nat)
    ensures SumAt(ChunkWrites(server, remotes, chunk), x, Rx)
         == if x != server then Times(Count(remotes, x), chunk) else 0.0
    ensures SumAt(ChunkWrites(server, remotes, chunk), x, Tx)
         == if x == server then Times(|remotes| - Count(remotes, x), chunk) else 0.0
    ensures SumAt(ChunkWrites(server, remotes, chunk), x, Write) == Times(Count(remotes, x), chunk)
    ensures SumAt(ChunkWrites(server, remotes, chunk), x, Read) == 0.0
    decreases |remotes|
  {
    if remotes != [] {
      var prefix := remotes[..|remotes| - 1];
      var r := remotes[|remotes| - 1];
      var a, b := ChunkWrites(server, prefix, chunk), ChunkWrite(server, r, chunk);
      ChunkWritesAt(server, prefix, chunk, x);
      ChunkWriteAt(server, r, chunk, x);
      SumAtAppend(a, b, x, Rx);
      SumAtAppend(a, b, x, Tx);
      SumAtAppend(a, b, x, Write);
      SumAtAppend(a, b, x, Read);
    }
  }

  /** One more server of the ingress loop, seen from machine `x`. */
  lemma IngressFromStep(servers: seq<nat>, placement: seq<nat>, share: real, chunk: real, x: nat, c: Counter)
    requires servers != []
    ensures var s := servers[|servers| - 1];
            SumAt(IngressFrom(servers, placement, share, chunk), x, c)
              == SumAt(IngressFrom(servers[..|servers| - 1], placement, share, chunk), x, c)
               + (if s == x then Amount(Transfer(s, In, share, true, false), c) else 0.0)
               + SumAt(ChunkWrites(s, placement, chunk), x, c)
  {
    var s := servers[|servers| - 1];
    SumAt3(IngressFrom(servers[..|servers| - 1], placement, share, chunk), Transfer(s, In, share, true, false),
           ChunkWrites(s, placement, chunk), x, c);
  }

  /** What machine `x` receives over the network during the ingress loop
      over `servers`: its share for each time it is a server, and a chunk
      for each time it is placed in a stripe another server writes. */
  function RxAt(servers: seq<nat>, placement: seq<nat>, share: real, chunk: real, x: nat): (r: real) {
    Times(Count(servers, x), share) + Times(|servers| - Count(servers, x), Times(Count(placement, x), chunk))
  }

  lemma {:induction false} IngressFromRx(servers: seq<nat>, placement: seq<nat>, share: real, chunk: real, x: nat)
    ensures SumAt(IngressFrom(servers, placement, share, chunk), x, Rx) == RxAt(servers, placement, share, chunk, x)
    decreases |servers|
  {
    if servers != [] {
      IngressFromRx(servers[..|servers| - 1], placement, share, chunk, x);
      IngressFromRxStep(servers, placement, share, chunk, x);
    }
  }

  lemma IngressFromRxStep(servers: seq<nat>, placement: seq<nat>, share: real, chunk: real, x: nat)
    requires servers != []
    requires var prefix := servers[..|servers| - 1];
             SumAt(IngressFrom(prefix, placement, share, chunk), x, Rx) == RxAt(prefix, placement, share, chunk, x)
    ensures SumAt(IngressFrom(servers, placement, share, chunk), x, Rx) == RxAt(servers, placement, share, chunk, x)
  {
    var prefix := servers[..|servers| - 1];
    var s := servers[|servers| - 1];
    var rx := Times(Count(placement, x), chunk);
    var writes := SumAt(ChunkWrites(s, placement, chunk), x, Rx);
    assert writes == if s == x then 0.0 else rx by {
      ChunkWritesAt(s, placement, chunk, x);
    }
    assert SumAt(IngressFrom(servers, placement, share, chunk), x, Rx)
        == SumAt(IngressFrom(prefix, placement, share, chunk), x, Rx) + (if s == x then share else 0.0) + writes by {
      IngressFromStep(servers, placement, share, chunk, x, Rx);
    }
    RxStep(servers, placement, share, chunk, x,
           SumAt(IngressFrom(servers, placement, share, chunk), x, Rx), SumAt(IngressFrom(prefix, placement, share, chunk), x, Rx), writes);
  }

  /** The arithmetic of one ingress step at a machine that receives either
      the share (when it is the server) or a chunk (when it is not). */
  lemma RxStep(servers: seq<nat>, placement: seq<nat>, share: real, chunk: real, x: nat, total: real, prev: real, writes: real)
    requires servers != []
    requires prev == RxAt(servers[..|servers| - 1], placement, share, chunk, x)
    requires writes == if servers[|servers| - 1] == x then 0.0 else Times(Count(placement, x), chunk)
    requires total == prev + (if servers[|servers| - 1] == x then share else 0.0) + writes
    ensures total == RxAt(servers, placement, share, chunk, x)
  {
    var prefix := servers[..|servers| - 1];
    var c, n, rx := Count(prefix, x), |prefix|, Times(Count(placement, x), chunk);
    if servers[|servers| - 1] == x {
      assert Times(c + 1, share) == Times(c, share) + share;
    } else {
      assert Times(n - c + 1, rx) == Times(n - c, rx) + rx;
    }
  }

  lemma {:induction false} IngressFromTx(servers: seq<nat>, placement: seq<nat>, share: real, chunk: real, x: nat)
    ensures SumAt(IngressFrom(servers, placement, share, chunk), x, Tx)
         == Times(Count(servers, x), Times(|placement| - Count(placement, x), chunk))
    decreases |servers|
  {
    if servers != [] {
      var prefix := servers[..|servers| - 1];
      var s := servers[|servers| - 1];
      IngressFromTx(prefix, placement, share, chunk, x);
      ChunkWritesAt(s, placement, chunk, x);
      IngressFromStep(servers, placement, share, chunk, x, Tx);
      var cs, tx := Count(prefix, x), Times(|placement| - Count(placement, x), chunk);
      assert Count(servers, x) == cs + (if s == x then 1 else 0);
      assert Times(cs + 1, tx) == Times(cs, tx) + tx;
    }
  }

  lemma {:induction false} IngressFromWrite(servers: seq<nat>, placement: seq<nat>, share: real, chunk: real, x: nat)
    ensures SumAt(IngressFrom(servers, placement, share, chunk), x, Write)
         == Times(|servers|, Times(Count(placement, x), chunk))
    ensures SumAt(IngressFrom(servers, placement, share, chunk), x, Read) == 0.0
    decreases |servers|
  {
    if servers != [] {
      var prefix := servers[..|servers| - 1];
      var s := servers[|servers| - 1];
      IngressFromWrite(prefix, placement, share, chunk, x);
      ChunkWritesAt(s, placement, chunk, x);
      IngressFromStep(servers, placement, share, chunk, x, Write);
      IngressFromStep(servers, placement, share, chunk, x, Read);
      var rx := Times(Count(placement, x), chunk);
      assert Times(|prefix| + 1, rx) == Times(|prefix|, rx) + rx;
    }
  }

  /** The ingress loop over `servers`, seen from machine `x`. */
  lemma IngressFromAt(servers: seq<nat>, placement: seq<nat>, share: real, chunk: real, x: nat)
    ensures SumAt(IngressFrom(servers, placement, share, chunk), x, Rx)
         == Times(Count(servers, x), share)
          + Times(|servers| - Count(servers, x), Times(Count(placement, x), chunk))
    ensures SumAt(IngressFrom(servers, placement, share, chunk), x, Tx)
         == Times(Count(servers, x), Times(|placement| - Count(placement, x), chunk))
    ensures SumAt(IngressFrom(servers, placement, share, chunk), x, Write)
         == Times(|servers|, Times(Count(placement, x), chunk))
    ensures SumAt(IngressFrom(servers, placement, share, chunk), x, Read) == 0.0
  {
    IngressFromRx(servers, placement, share, chunk, x);
    IngressFromTx(servers, placement, share, chunk, x);
    IngressFromWrite(servers, placement, share, chunk, x);
  }

  /** StorageCluster.ingress, machine by machine: a machine occurring c times
      in a placement of n machines receives c shares from the client and
      (n - c) * c chunks from its peers, sends c * (n - c) chunks, writes n * c
      chunks and reads nothing. */
  lemma IngressPerMachine(placement: seq<nat>, parity: int, volume: real, x: nat)
    requires |placement| > 0 && parity != |placement|
    ensures var n, c := |placement|, Count(placement, x);
            var share, chunk := ShareSize(volume, n), ChunkSize(volume, n, parity);
            var trace := IngressTrace(placement, parity, volume);
            && SumAt(trace, x, Rx) == Times(c, share) + Times(n - c, Times(c, chunk))
            && SumAt(trace, x, Tx) == Times(c, Times(n - c, chunk))
            && SumAt(trace, x, Write) == Times(n, Times(c, chunk))
            && SumAt(trace, x, Read) == 0.0
  {
    var n := |placement|;
    IngressFromAt(placement, placement, ShareSize(volume, n), ChunkSize(volume, n, parity), x);
  }

  /** With a placement that holds each machine once, every placed machine
      receives its share plus n - 1 chunks, sends n - 1 chunks and writes n
      chunks; every other machine is untouched. */
  lemma IngressPlacedMachine(placement: seq<nat>, parity: int, volume: real, x: nat)
    requires |placement| > 0 && parity != |placement|
    requires forall a, b :: 0 <= a < b < |placement| ==> placement[a] != placement[b]
    ensures var n := |placement|;
            var share, chunk := ShareSize(volume, n), ChunkSize(volume, n, parity);
            var trace := IngressTrace(placement, parity, volume);
            if x in placement then
              && SumAt(trace, x, Rx) == share + Times(n - 1, chunk)
              && SumAt(trace, x, Tx) == Times(n - 1, chunk)
              && SumAt(trace, x, Write) == Times(n, chunk)
              && SumAt(trace, x, Read) == 0.0
            else
              && SumAt(trace, x, Rx) == 0.0
              && SumAt(trace, x, Tx) == 0.0
              && SumAt(trace, x, Write) == 0.0
              && SumAt(trace, x, Read) == 0.0
  {
    var n := |placement|;
    var share, chunk := ShareSize(volume, n), ChunkSize(volume, n, parity);
    IngressPerMachine(placement, parity, volume, x);
    if x in placement {
      var i :| 0 <= i < |placement| && placement[i] == x;
      CountDistinct(placement, i);
      assert Times(1, chunk) == chunk;
      assert Times(1, share) == share;
    } else {
      CountAbsent(placement, x);
      assert Times(0, chunk) == 0.0;
      assert Times(n, 0.0) == 0.0 by { TimesProduct(n, 0.0); }
    }
  }

  lemma {:induction false} ChunkWritesSums(server: nat, remotes: seq<nat>, chunk: real)
    ensures Sum(ChunkWrites(server, remotes, chunk), Rx) == Sum(ChunkWrites(server, remotes, chunk), Tx)
    ensures Sum(ChunkWrites(server, remotes, chunk), Write) == Times(|remotes|, chunk)
    ensures Sum(ChunkWrites(server, remotes, chunk), Read) == 0.0
    decreases |remotes|
  {
    if remotes != [] {
      var prefix := remotes[..|remotes| - 1];
      var r := remotes[|remotes| - 1];
      var a, b := ChunkWrites(server, prefix, chunk), ChunkWrite(server, r, chunk);
      ChunkWritesSums(server, prefix, chunk);
      ChunkWriteSums(server, r, chunk);
      SumAppend(a, b, Rx);
      SumAppend(a, b, Tx);
      SumAppend(a, b, Write);
      SumAppend(a, b, Read);
    }
  }

  /** The sums of the ingress loop over `servers`. */
  predicate IngressSums(servers: seq<nat>, placement: seq<nat>, share: real, chunk: real) {
    var trace := IngressFrom(servers, placement, share, chunk);
    && Sum(trace, Rx) - Sum(trace, Tx) == Times(|servers|, share)
    && Sum(trace, Write) == Times(|servers|, Times(|placement|, chunk))
    && Sum(trace, Read) == 0.0
  }

  lemma {:induction false} IngressFromSums(servers: seq<nat>, placement: seq<nat>, share: real, chunk: real)
    ensures IngressSums(servers, placement, share, chunk)
    decreases |servers|
  {
    if servers != [] {
      IngressFromSums(servers[..|servers| - 1], placement, share, chunk);
      IngressFromSumsStep(servers, placement, share, chunk);
    }
  }

  lemma IngressFromSumsStep(servers: seq<nat>, placement: seq<nat>, share: real, chunk: real)
    requires servers != []
    requires IngressSums(servers[..|servers| - 1], placement, share, chunk)
    ensures IngressSums(servers, placement, share, chunk)
  {
    var prefix := servers[..|servers| - 1];
    var s := servers[|servers| - 1];
    var before := IngressFrom(prefix, placement, share, chunk);
    var received := Transfer(s, In, share, true, false);
    var writes := ChunkWrites(s, placement, chunk);
    assert IngressFrom(servers, placement, share, chunk) == before + [received] + writes;
    ChunkWritesSums(s, placement, chunk);
    Sum3(before, received, writes, Rx);
    Sum3(before, received, writes, Tx);
    Sum3(before, received, writes, Write);
    Sum3(before, received, writes, Read);
  }

  /** StorageCluster.ingress in total: the received traffic exceeds the sent
      traffic by exactly the volume, and the disks take n / (n - p) times the
      volume. */
  lemma IngressConservation(placement: seq<nat>, parity: int, volume: real)
    requires |placement| > 0 && parity != |placement|
    ensures var trace := IngressTrace(placement, parity, volume);
            var n := |placement| as real;
            && Sum(trace, Rx) - Sum(trace, Tx) == volume
            && Sum(trace, Write) * (n - parity as real) == n * volume
            && Sum(trace, Read) == 0.0
  {
    var n := |placement|;
    var share, chunk := ShareSize(volume, n), ChunkSize(volume, n, parity);
    assert IngressSums(placement, placement, share, chunk) by {
      IngressFromSums(placement, placement, share, chunk);
    }
    TimesShare(volume, n);
    var trace := IngressFrom(placement, placement, share, chunk);
    assert Sum(trace, Write) == n as real * (n as real * chunk) by {
      TimesNested(n, n, chunk);
    }
    DivMul(volume, n as real, share);
    DivMul(share, (n - parity) as real, chunk);
    WriteAmplification(n as real, (n - parity) as real, volume, share, chunk, Sum(trace, Write));
  }

  lemma DivMul(a: real, b: real, q: real)
    requires b != 0.0 && q == a / b
    ensures b * q == a
  {
  }

  /** Every one of the n servers writes a chunk to each of the n placed
      machines, and d chunks make a share: n * n chunks are n / d volumes. */
  lemma WriteAmplification(n: real, d: real, volume: real, share: real, chunk: real, written: real)
    requires n * share == volume && d * chunk == share && written == n * (n * chunk)
    ensures written * d == n * volume
  {
    assert written * d == n * (n * (d * chunk));
  }

  lemma {:induction false} ChunkWritesTouch(server: nat, remotes: seq<nat>, chunk: real, placement: seq<nat>)
    requires server in placement
    requires forall i :: 0 <= i < |remotes| ==> remotes[i] in placement
    ensures Touches(ChunkWrites(server, remotes, chunk), placement)
    decreases |remotes|
  {
    if remotes != [] {
      ChunkWritesTouch(server, remotes[..|remotes| - 1], chunk, placement);
    }
  }

  lemma {:induction false} IngressFromTouch(servers: seq<nat>, placement: seq<nat>, share: real, chunk: real)
    requires forall i :: 0 <= i < |servers| ==> servers[i] in placement
    ensures Touches(IngressFrom(servers, placement, share, chunk), placement)
    decreases |servers|
  {
    if servers != [] {
      var s := servers[|servers| - 1];
      IngressFromTouch(servers[..|servers| - 1], placement, share, chunk);
      ChunkWritesTouch(s, placement, chunk, placement);
    }
  }

  /** StorageCluster.ingress calls Machine.ingress/egress only on placed machines. */
  lemma IngressTouchesPlacement(placement: seq<nat>, parity: int, volume: real)
    requires |placement| > 0 && parity != |placement|
    ensures Touches(IngressTrace(placement, parity, volume), placement)
  {
    var n := |placement|;
    IngressFromTouch(placement, placement, ShareSize(volume, n), ChunkSize(volume, n, parity));
  }

  // ----------------------------------------------------------------- egress

  lemma {:induction false} ChunkReadsSums(server: nat, placement: seq<nat>, positions: seq<nat>, chunk: real)
    requires Positions(positions, |placement|)
    ensures Sum(ChunkReads(server, placement, positions, chunk), Tx) == Sum(ChunkReads(server, placement, positions, chunk), Rx)
    ensures Sum(ChunkReads(server, placement, positions, chunk), Read) == Times(|positions|, chunk)
    ensures Sum(ChunkReads(server, placement, positions, chunk), Write) == 0.0
    decreases |positions|
  {
    if positions != [] {
      var prefix := positions[..|positions| - 1];
      var r := placement[positions[|positions| - 1]];
      var a, b := ChunkReads(server, placement, prefix, chunk), ChunkRead(server, r, chunk);
      ChunkReadsSums(server, placement, prefix, chunk);
      ChunkReadSums(server, r, chunk);
      SumAppend(a, b, Rx);
      SumAppend(a, b, Tx);
      SumAppend(a, b, Write);
      SumAppend(a, b, Read);
    }
  }

  /** The sums of the egress loop over the first `k` placed machines. */
  predicate EgressSums(k: nat, placement: seq<nat>, shuffles: seq<seq<nat>>, data: nat, share: real, chunk: real)
    requires k <= |placement| && Orders(shuffles, |placement|) && data <= |placement|
  {
    var trace := EgressFrom(k, placement, shuffles, data, share, chunk);
    && Sum(trace, Tx) - Sum(trace, Rx) == Times(k, share)
    && Sum(trace, Read) == Times(k, Times(data, chunk))
    && Sum(trace, Write) == 0.0
  }

  lemma {:induction false} EgressFromSums(k: nat, placement: seq<nat>, shuffles: seq<seq<nat>>, data: nat, share: real, chunk: real)
    requires k <= |placement| && Orders(shuffles, |placement|) && data <= |placement|
    ensures EgressSums(k, placement, shuffles, data, share, chunk)
    decreases k
  {
    if k > 0 {
      var prev := k - 1;
      EgressFromSums(prev, placement, shuffles, data, share, chunk);
      EgressFromSumsStep(prev, k, placement, shuffles, data, share, chunk);
    }
  }

  lemma EgressFromSumsStep(prev: nat, k: nat, placement: seq<nat>, shuffles: seq<seq<nat>>, data: nat, share: real, chunk: real)
    requires k == prev + 1 && k <= |placement| && Orders(shuffles, |placement|) && data <= |placement|
    requires EgressSums(prev, placement, shuffles, data, share, chunk)
    ensures EgressSums(k, placement, shuffles, data, share, chunk)
  {
    var s := placement[prev];
    var before := EgressFrom(prev, placement, shuffles, data, share, chunk);
    var sent := Transfer(s, Out, share, true, false);
    var positions := shuffles[prev][..data];
    var fetched := ChunkReads(s, placement, positions, chunk);
    var trace := EgressFrom(k, placement, shuffles, data, share, chunk);
    assert trace == before + [sent] + fetched;
    ChunkReadsSums(s, placement, positions, chunk);
    assert Sum(trace, Tx) - Sum(trace, Rx) == Times(k, share) by {
      Sum3(before, sent, fetched, Rx);
      Sum3(before, sent, fetched, Tx);
      assert Times(k, share) == Times(prev, share) + share;
    }
    assert Sum(trace, Read) == Times(k, Times(data, chunk)) by {
      Sum3(before, sent, fetched, Read);
      assert Times(k, Times(data, chunk)) == Times(prev, Times(data, chunk)) + Times(data, chunk);
    }
    assert Sum(trace, Write) == 0.0 by {
      Sum3(before, sent, fetched, Write);
    }
  }

  /** StorageCluster.egress in total, whatever orders the shuffle produces:
      the sent traffic exceeds the received traffic by exactly the volume,
      nothing is written, and (when there are fewer parity chunks than
      machines) exactly the volume is read from disk. */
  lemma EgressConservation(placement: seq<nat>, parity: int, shuffles: seq<seq<nat>>, volume: real)
    requires |placement| > 0 && 0 <= parity && parity != |placement|
    requires Orders(shuffles, |placement|)
    ensures var trace := EgressTrace(placement, parity, shuffles, volume);
            && Sum(trace, Tx) - Sum(trace, Rx) == volume
            && Sum(trace, Write) == 0.0
            && (parity < |placement| ==> Sum(trace, Read) == volume)
  {
    var n := |placement|;
    var share, chunk := ShareSize(volume, n), ChunkSize(volume, n, parity);
    var d := DataChunks(n, parity);
    EgressFromSums(n, placement, shuffles, d, share, chunk);
    TimesShare(volume, n);
    if parity < n {
      TimesChunk(volume, n, parity);
    }
  }

  /** StorageCluster.egress with the chunk orders random.shuffle can produce
      (a permutation of the positions per server): the client receives the
      volume, nothing is written, and the disks read the volume whenever the
      cluster has fewer parity chunks than machines. */
  lemma ShuffledEgressConservation(placement: seq<nat>, parity: int, shuffles: seq<seq<nat>>, volume: real)
    requires |placement| > 0 && 0 <= parity && parity != |placement|
    requires ValidShuffles(shuffles, |placement|)
    ensures Orders(shuffles, |placement|)
    ensures var trace := EgressTrace(placement, parity, shuffles, volume);
            && Sum(trace, Tx) - Sum(trace, Rx) == volume
            && Sum(trace, Write) == 0.0
            && (parity < |placement| ==> Sum(trace, Read) == volume)
  {
    ShufflesAreOrders(shuffles, |placement|);
    EgressConservation(placement, parity, shuffles, volume);
  }

  lemma {:induction false} ChunkReadsAt(server: nat, placement: seq<nat>, positions: seq<nat>, chunk: real, x: nat)
    requires Positions(positions, |placement|)
    requires chunk >= 0.0
    ensures SumAt(ChunkReads(server, placement, positions, chunk), x, Tx) >= 0.0
    ensures SumAt(ChunkReads(server, placement, positions, chunk), x, Write) == 0.0
    decreases |positions|
  {
    if positions != [] {
      var prefix := positions[..|positions| - 1];
      var r := placement[positions[|positions| - 1]];
      var a, b := ChunkReads(server, placement, prefix, chunk), ChunkRead(server, r, chunk);
      ChunkReadsAt(server, placement, prefix, chunk, x);
      ChunkReadAt(server, r, chunk, x);
      SumAtAppend(a, b, x, Tx);
      SumAtAppend(a, b, x, Write);
    }
  }

  /** What the first `k` placed machines of the egress loop send from, and
      write to, machine `x`: at least its share for each time it is among them,
      and no writes. */
  predicate EgressTxAt(k: nat, placement: seq<nat>, shuffles: seq<seq<nat>>, data: nat, share: real, chunk: real, x: nat)
    requires k <= |placement| && Orders(shuffles, |placement|) && data <= |placement|
  {
    var trace := EgressFrom(k, placement, shuffles, data, share, chunk);
    SumAt(trace, x, Tx) >= Times(Count(placement[..k], x), share) && SumAt(trace, x, Write) == 0.0
  }

  lemma {:induction false} EgressFromTx(k: nat, placement: seq<nat>, shuffles: seq<seq<nat>>, data: nat, share: real, chunk: real, x: nat)
    requires k <= |placement| && Orders(shuffles, |placement|) && data <= |placement|
    requires share >= 0.0 && chunk >= 0.0
    ensures EgressTxAt(k, placement, shuffles, data, share, chunk, x)
    decreases k
  {
    if k > 0 {
      EgressFromTx(k - 1, placement, shuffles, data, share, chunk, x);
      EgressFromTxStep(k, placement, shuffles, data, share, chunk, x);
    } else {
      assert placement[..0] == [];
    }
  }

  lemma EgressFromTxStep(k: nat, placement: seq<nat>, shuffles: seq<seq<nat>>, data: nat, share: real, chunk: real, x: nat)
    requires 0 < k <= |placement| && Orders(shuffles, |placement|) && data <= |placement|
    requires share >= 0.0 && chunk >= 0.0
    requires EgressTxAt(k - 1, placement, shuffles, data, share, chunk, x)
    ensures EgressTxAt(k, placement, shuffles, data, share, chunk, x)
  {
    var s := placement[k - 1];
    var before := EgressFrom(k - 1, placement, shuffles, data, share, chunk);
    var sent := Transfer(s, Out, share, true, false);
    var positions := shuffles[k - 1][..data];
    var fetched := ChunkReads(s, placement, positions, chunk);
    var trace := EgressFrom(k, placement, shuffles, data, share, chunk);
    assert trace == before + [sent] + fetched;
    var got := SumAt(fetched, x, Tx);
    assert got >= 0.0 && SumAt(fetched, x, Write) == 0.0 by {
      ChunkReadsAt(s, placement, positions, chunk, x);
    }
    assert SumAt(trace, x, Tx) == SumAt(before, x, Tx) + (if s == x then share else 0.0) + got by {
      SumAt3(before, sent, fetched, x, Tx);
    }
    assert SumAt(trace, x, Write) == 0.0 by {
      SumAt3(before, sent, fetched, x, Write);
    }
    var c := Count(placement[..k - 1], x);
    assert Count(placement[..k], x) == c + (if s == x then 1 else 0) by {
      CountPrefix(placement, k, x);
    }
    TxStep(SumAt(trace, x, Tx), SumAt(before, x, Tx), got, c, Count(placement[..k], x), s == x, share);
  }

  /** The arithmetic of one egress step at a machine that sends the share
      when it is the server, and possibly chunks besides. */
  lemma TxStep(total: real, prev: real, got: real, c: nat, c': nat, hit: bool, share: real)
    requires c' == c + (if hit then 1 else 0) && got >= 0.0
    requires prev >= Times(c, share)
    requires total == prev + (if hit then share else 0.0) + got
    ensures total >= Times(c', share)
  {
    assert Times(c + 1, share) == Times(c, share) + share;
  }

  lemma {:induction false} ChunkReadsTouch(server: nat, placement: seq<nat>, positions: seq<nat>, chunk: real)
    requires server in placement
    requires Positions(positions, |placement|)
    ensures Touches(ChunkReads(server, placement, positions, chunk), placement)
    decreases |positions|
  {
    if positions != [] {
      ChunkReadsTouch(server, placement, positions[..|positions| - 1], chunk);
    }
  }

  lemma {:induction false} EgressFromTouch(k: nat, placement: seq<nat>, shuffles: seq<seq<nat>>, data: nat, share: real, chunk: real)
    requires k <= |placement| && Orders(shuffles, |placement|) && data <= |placement|
    ensures Touches(EgressFrom(k, placement, shuffles, data, share, chunk), placement)
    decreases k
  {
    if k > 0 {
      EgressFromTouch(k - 1, placement, shuffles, data, share, chunk);
      ChunkReadsTouch(placement[k - 1], placement, shuffles[k - 1][..data], chunk);
    }
  }

  /** StorageCluster.egress, machine by machine, whatever orders the shuffle
      produces: for a non-negative volume and fewer parity chunks than machines,
      every placed machine sends at least its share to the client for each
      time it is placed, and no machine writes. */
  lemma EgressPerMachine(placement: seq<nat>, parity: int, shuffles: seq<seq<nat>>, volume: real, x: nat)
    requires |placement| > 0 && 0 <= parity < |placement|
    requires Orders(shuffles, |placement|)
    requires volume >= 0.0
    ensures var trace := EgressTrace(placement, parity, shuffles, volume);
            && SumAt(trace, x, Tx) >= Count(placement, x) as real * ShareSize(volume, |placement|)
            && SumAt(trace, x, Write) == 0.0
  {
    var n := |placement|;
    var share, chunk := ShareSize(volume, n), ChunkSize(volume, n, parity);
    assert share >= 0.0 && chunk >= 0.0;
    var trace := EgressFrom(n, placement, shuffles, DataChunks(n, parity), share, chunk);
    assert SumAt(trace, x, Tx) >= Times(Count(placement, x), share) && SumAt(trace, x, Write) == 0.0 by {
      EgressFromTx(n, placement, shuffles, DataChunks(n, parity), share, chunk, x);
      assert placement[..n] == placement;
    }
    TimesProduct(Count(placement, x), share);
  }

  /** StorageCluster.egress leaves every machine outside the placement untouched. */
  lemma EgressUnplaced(placement: seq<nat>, parity: int, shuffles: seq<seq<nat>>, volume: real, x: nat)
    requires |placement| > 0 && 0 <= parity && parity != |placement|
    requires Orders(shuffles, |placement|)
    requires x !in placement
    ensures var trace := EgressTrace(placement, parity, shuffles, volume);
            SumAt(trace, x, Rx) == 0.0 && SumAt(trace, x, Tx) == 0.0 && SumAt(trace, x, Write) == 0.0 && SumAt(trace, x, Read) == 0.0
  {
    var trace := EgressTrace(placement, parity, shuffles, volume);
    EgressTouchesPlacement(placement, parity, shuffles, volume);
    SumAtUntouched(trace, x, Rx);
    SumAtUntouched(trace, x, Tx);
    SumAtUntouched(trace, x, Write);
    SumAtUntouched(trace, x, Read);
  }

  /** StorageCluster.egress calls Machine.ingress/egress only on placed machines. */
  lemma EgressTouchesPlacement(placement: seq<nat>, parity: int, shuffles: seq<seq<nat>>, volume: real)
    requires |placement| > 0 && 0 <= parity && parity != |placement|
    requires Orders(shuffles, |placement|)
    ensures Touches(EgressTrace(placement, parity, shuffles, volume), placement)
  {
    var n := |placement|;
    EgressFromTouch(n, placement, shuffles, DataChunks(n, parity), ShareSize(volume, n), ChunkSize(volume, n, parity));
  }

  // ---------------------------------------------------------- whole region

  lemma {:induction false} UploadSums(layouts: seq<Layout>, perCluster: real)
    requires Uploadable(layouts)
    ensures Sum(UploadTrace(layouts, perCluster), Rx) - Sum(UploadTrace(layouts, perCluster), Tx)
         == Times(|layouts|, perCluster)
    decreases |layouts|
  {
    if layouts != [] {
      var l := layouts[|layouts| - 1];
      assert CanIngress(l);
      var a, b := UploadTrace(layouts[..|layouts| - 1], perCluster), IngressTrace(l.placement, l.parity, perCluster);
      UploadSums(layouts[..|layouts| - 1], perCluster);
      IngressConservation(l.placement, l.parity, perCluster);
      SumAppend(a, b, Rx);
      SumAppend(a, b, Tx);
    }
  }

  /** Region.upload: the volume is divided among the clusters, not multiplied
      by them; over the whole region the received traffic exceeds the sent
      traffic by exactly the uploaded volume. */
  lemma UploadConservation(layouts: seq<Layout>, volume: real)
    requires |layouts| > 0 && Uploadable(layouts)
    ensures var trace := UploadTrace(layouts, volume / |layouts| as real);
            Sum(trace, Rx) - Sum(trace, Tx) == volume
  {
    UploadSums(layouts, volume / |layouts| as real);
    TimesShare(volume, |layouts|);
  }

  lemma {:induction false} DownloadSums(layouts: seq<Layout>, shuffles: seq<seq<seq<nat>>>, perCluster: real)
    requires Downloadable(layouts, shuffles)
    ensures var trace := DownloadTrace(layouts, shuffles, perCluster);
            && Sum(trace, Tx) - Sum(trace, Rx) == Times(|layouts|, perCluster)
            && ((forall k :: 0 <= k < |layouts| ==> layouts[k].parity < |layouts[k].placement|)
                ==> Sum(trace, Read) == Times(|layouts|, perCluster))
    decreases |layouts|
  {
    if layouts != [] {
      var k := |layouts| - 1;
      assert CanEgress(layouts[k]);
      var a := DownloadTrace(layouts[..k], shuffles[..k], perCluster);
      var b := EgressTrace(layouts[k].placement, layouts[k].parity, shuffles[k], perCluster);
      DownloadSums(layouts[..k], shuffles[..k], perCluster);
      EgressConservation(layouts[k].placement, layouts[k].parity, shuffles[k], perCluster);
      SumAppend(a, b, Rx);
      SumAppend(a, b, Tx);
      SumAppend(a, b, Read);
    }
  }

  /** Region.download: over the whole region the sent traffic exceeds the
      received traffic by exactly the downloaded volume, and when every cluster
      has fewer parity chunks than machines the disks read exactly that volume. */
  lemma DownloadConservation(layouts: seq<Layout>, shuffles: seq<seq<seq<nat>>>, volume: real)
    requires |layouts| > 0 && Downloadable(layouts, shuffles)
    ensures var trace := DownloadTrace(layouts, shuffles, volume / |layouts| as real);
            && Sum(trace, Tx) - Sum(trace, Rx) == volume
            && ((forall k :: 0 <= k < |layouts| ==> layouts[k].parity < |layouts[k].placement|)
                ==> Sum(trace, Read) == volume)
  {
    DownloadSums(layouts, shuffles, volume / |layouts| as real);
    TimesShare(volume, |layouts|);
  }

  /** Every machine a cluster is placed on is one of the first n. */
  predicate PlacedWithin(layouts: seq<Layout>, n: nat) {
    forall k, i :: 0 <= k < |layouts| && 0 <= i < |layouts[k].placement| ==> layouts[k].placement[i] < n
  }

  /** Every transfer of `ts` names a machine that some cluster of `layouts`
      is placed on. */
  predicate InPlacements(ts: seq<Transfer>, layouts: seq<Layout>) {
    forall i :: 0 <= i < |ts| ==>
      exists c :: 0 <= c < |layouts| && ts[i].machine in layouts[c].placement
  }

  /** Appending the last cluster's transfers to those of the clusters before it. */
  lemma InPlacementsSnoc(a: seq<Transfer>, b: seq<Transfer>, layouts: seq<Layout>)
    requires |layouts| > 0
    requires InPlacements(a, layouts[..|layouts| - 1])
    requires Touches(b, layouts[|layouts| - 1].placement)
    ensures InPlacements(a + b, layouts)
  {
    var k := |layouts| - 1;
    forall i | 0 <= i < |a + b|
      ensures exists c :: 0 <= c < |layouts| && (a + b)[i].machine in layouts[c].placement
    {
      if i < |a| {
        assert (a + b)[i] == a[i];
        var c :| 0 <= c < k && a[i].machine in layouts[..k][c].placement;
        assert layouts[..k][c] == layouts[c];
      } else {
        assert (a + b)[i] == b[i - |a|];
        assert b[i - |a|].machine in layouts[k].placement;
      }
    }
  }

  /** Machines of some placement are below any bound all placements respect. */
  lemma InPlacementsWithin(ts: seq<Transfer>, layouts: seq<Layout>, n: nat)
    requires InPlacements(ts, layouts) && PlacedWithin(layouts, n)
    ensures InRange(ts, n)
  {
    forall i | 0 <= i < |ts|
      ensures ts[i].machine < n
    {
      var c :| 0 <= c < |layouts| && ts[i].machine in layouts[c].placement;
      var j :| 0 <= j < |layouts[c].placement| && layouts[c].placement[j] == ts[i].machine;
    }
  }

  /** Region.upload only touches machines that clusters are placed on. */
  lemma {:induction false} UploadTouchesPlacements(layouts: seq<Layout>, perCluster: real)
    requires Uploadable(layouts)
    ensures InPlacements(UploadTrace(layouts, perCluster), layouts)
    decreases |layouts|
  {
    if layouts != [] {
      var k := |layouts| - 1;
      var l := layouts[k];
      assert CanIngress(l);
      UploadTouchesPlacements(layouts[..k], perCluster);
      IngressTouchesPlacement(l.placement, l.parity, perCluster);
      InPlacementsSnoc(UploadTrace(layouts[..k], perCluster), IngressTrace(l.placement, l.parity, perCluster), layouts);
    }
  }

  /** Region.download only touches machines that clusters are placed on. */
  lemma {:induction false} DownloadTouchesPlacements(layouts: seq<Layout>, shuffles: seq<seq<seq<nat>>>, perCluster: real)
    requires Downloadable(layouts, shuffles)
    ensures InPlacements(DownloadTrace(layouts, shuffles, perCluster), layouts)
    decreases |layouts|
  {
    if layouts != [] {
      var k := |layouts| - 1;
      var l := layouts[k];
      assert CanEgress(l) && Orders(shuffles[k], |l.placement|);
      DownloadTouchesPlacements(layouts[..k], shuffles[..k], perCluster);
      EgressTouchesPlacement(l.placement, l.parity, shuffles[k], perCluster);
      InPlacementsSnoc(DownloadTrace(layouts[..k], shuffles[..k], perCluster), EgressTrace(l.placement, l.parity, shuffles[k], perCluster), layouts);
    }
  }

  /** Region.upload addresses only machines below any bound that all
      placements respect, such as the length of the machine array. */
  lemma UploadInRange(layouts: seq<Layout>, perCluster: real, n: nat)
    requires Uploadable(layouts) && PlacedWithin(layouts, n)
    ensures InRange(UploadTrace(layouts, perCluster), n)
  {
    UploadTouchesPlacements(layouts, perCluster);
    InPlacementsWithin(UploadTrace(layouts, perCluster), layouts, n);
  }

  /** Region.download addresses only machines below any bound that all
      placements respect, such as the length of the machine array. */
  lemma DownloadInRange(layouts: seq<Layout>, shuffles: seq<seq<seq<nat>>>, perCluster: real, n: nat)
    requires Downloadable(layouts, shuffles) && PlacedWithin(layouts, n)
    ensures InRange(DownloadTrace(layouts, shuffles, perCluster), n)
  {
    DownloadTouchesPlacements(layouts, shuffles, perCluster);
    InPlacementsWithin(DownloadTrace(layouts, shuffles, perCluster), layouts, n);
  }

  /** Region.upload over the machine array: the machines' received traffic
      grows by exactly the uploaded volume more than their sent traffic. */
  lemma UploadTotals(ms: seq<Machine>, layouts: seq<Layout>, volume: real)
    requires |layouts| > 0 && Uploadable(layouts) && PlacedWithin(layouts, |ms|)
    ensures var after := Apply(ms, UploadTrace(layouts, volume / |layouts| as real));
            (Total(after, Rx) - Total(ms, Rx)) - (Total(after, Tx) - Total(ms, Tx)) == volume
  {
    var trace := UploadTrace(layouts, volume / |layouts| as real);
    UploadInRange(layouts, volume / |layouts| as real, |ms|);
    ApplyTotal(ms, trace, Rx);
    ApplyTotal(ms, trace, Tx);
    UploadConservation(layouts, volume);
  }

  /** Region.download over the machine array: the machines' sent traffic grows
      by exactly the downloaded volume more than their received traffic, and
      when every cluster has fewer parity chunks than machines their disks
      read exactly that volume. */
  lemma DownloadTotals(ms: seq<Machine>, layouts: seq<Layout>, shuffles: seq<seq<seq<nat>>>, volume: real)
    requires |layouts| > 0 && Downloadable(layouts, shuffles) && PlacedWithin(layouts, |ms|)
    ensures var after := Apply(ms, DownloadTrace(layouts, shuffles, volume / |layouts| as real));
            && (Total(after, Tx) - Total(ms, Tx)) - (Total(after, Rx) - Total(ms, Rx)) == volume
            && ((forall k :: 0 <= k < |layouts| ==> layouts[k].parity < |layouts[k].placement|)
                ==> Total(after, Read) - Total(ms, Read) == volume)
  {
    var trace := DownloadTrace(layouts, shuffles, volume / |layouts| as real);
    DownloadInRange(layouts, shuffles, volume / |layouts| as real, |ms|);
    ApplyTotal(ms, trace, Rx);
    ApplyTotal(ms, trace, Tx);
    ApplyTotal(ms, trace, Read);
    DownloadConservation(layouts, shuffles, volume);
  }
}
