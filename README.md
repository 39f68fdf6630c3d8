# Storage cluster simulator, in Dafny

This project models the storage cluster simulator of `simulators/storage_cluster.py`. The simulator has two coupled parts:

- a **placement allocator**, which lays storage clusters out over a region of datacenters, racks and machines;
- an **erasure-coding traffic accounting engine**, which turns a volume uploaded into or downloaded from the region into per-machine network (rx/tx) and disk (write/read) counters.

## How the model is laid out

- `machines.dfy` (module `Machines`) holds the Machine record, its allocation state and its four counters.
  - `cluster_idx == -1` is the "unallocated" sentinel.
  - A run of `Machine.ingress` / `Machine.egress` calls is a trace of `Transfer`s, which `Apply` performs in order on the machine array.
  - `RangeTotal` and `Total` are the `reduce` sums behind `get_tx` / `get_rx`.
- `traffic.dfy` (module `Traffic`) gives the exact traces that `StorageCluster.ingress` and `StorageCluster.egress` produce for a volume.
  - It also gives the traces that `Region.upload` and `Region.download` produce: the volume is split evenly over the clusters.
- `traffic_laws.dfy` (module `TrafficLaws`) proves what those traces add up to:
  - per-machine closed forms;
  - conservation of the client's volume;
  - the write amplification of erasure coding;
  - the same laws over the whole machine array.
- `clusters.dfy` (module `Clusters`) holds the `StorageCluster` class.
  - Its `placement` list is appended to in place.
  - Its `Ingress` and `Egress` methods run the source's nested loops over the machine array and are proved to perform exactly the traces of `Traffic`.
- `placement.dfy` (module `Placement`) gives the allocator as functions on a value snapshot, a `Pool` made of:
  - the machines;
  - each rack's capacity counter;
  - the placement of the cluster being allocated.

  It covers `Rack.allocate_machines` (`RackAlloc`), `Rack.deallocate_machines` (`RackRelease`), the two modes of `Datacenter.allocate_smaug_cluster` (`LocalityDc`, `SpreadDc`) and the walk over all datacenters (`DcsAlloc`). It also proves what they promise.
- `region.dfy` (module `Regions`) holds the `Region` class.
  - It owns the index counters, one array of every machine indexed by machine index, and one array of rack capacities indexed by rack index.
  - Its methods build the topology leaf-first, allocate clusters, and push uploads and downloads through every cluster.
  - The constructor, the building steps (`AddDatacenter`, `AddRack`) and the index counters (`Allocate*Idx`) are specified by `Built()`, which gives every machine built so far as a fresh machine with its own index and every capacity of a rack built so far as the rack's machine count, and by equations on the counters.
  - The allocation, release, ingress/egress and upload/download methods are each proved to compute the matching function of `Placement` or `Traffic` on the region's snapshot.
  - The region's invariant `Valid()` says: gap-free indices, every placed machine existing, and no rack capacity exceeding the rack's free machines. The stronger `Exact()` adds that every capacity equals its rack's free-machine count and every placement lists distinct machines allocated to its cluster.
  - The constructor establishes both. `AllocateSmaugCluster`, `PlaceCluster`, `Upload` and `Download` require `Valid()`, keep it, and keep `Exact()` when it held before.
  - `RackDeallocateMachines` is specified by `RackRelease` on the snapshot. Releasing keeps only the bounded capacity of `Valid()`, not `Exact()` (`RackReleaseKeeps`, `RackReleaseSlack`).
  - The building steps, the index counters and the per-rack and per-datacenter helpers neither require nor ensure `Valid()`.

Because the constructors hand out indices in construction order, rack `j` holds machines `j*m .. j*m+m-1` and datacenter `d` holds racks `d*r .. d*r+r-1`. Here `m` is the number of machines per rack and `r` the number of racks per datacenter. The model therefore keeps the tree flat: a rack is an index range of the machine array, and a datacenter is an index range of the rack array.

## Behaviour modelled as the code has it

- The rollbacks that `Datacenter.allocate_smaug_cluster` and `Rack.allocate_machines` attempt are calls to Python 3's lazy `map` that are never consumed. They are modelled as no-ops: machines taken by a failed attempt stay allocated and stay in the cluster's placement.
- `Machine.allocate` returns nothing, so `Rack.allocate_machines` never reports an error. Because of that, the error branch inside the datacenter loop is unreachable, and rack-locality mode never fails (`LocalityNeverFails`). This holds even when no rack has room for the share: that datacenter then places nothing (`LocalityAlloc`).
- `Region.allocate_smaug_cluster` registers the cluster before placing it. It then walks every datacenter of the region, not only the number it divided by, and returns the first datacenter error.
- In spread mode, a share of 0 never meets the stop test `len(allocated) == hosts_per_dc`, so one machine is taken from every rack with capacity (`Stopped`).
- `Rack.deallocate_machines` leaves the capacity counter alone, so releasing keeps the capacity bounded but not exact (`RackReleaseSlack`).
- `hosts_per_dc` is the float `nodes / dcs`, checked with `is_integer()`. For integers that check is exactly `nodes % dcs == 0`, and the share is then the integer `nodes / dcs`.

## Model

| member | source | states |
|---|---|---|
| Regions.Region.constructor | simulators/storage_cluster.py:44-56 | a new region has the requested datacenters, every machine fresh (`NewMachine(x)` at index x, unallocated, zero counters), every rack's capacity equal to its machine count, no clusters, and the invariants `Valid` and `Exact` |
| Regions.Region.BuiltValid | simulators/storage_cluster.py:44-56 | a fully built topology with no clusters satisfies `Valid` and `Exact`: every rack's capacity is its number of free machines |
| Regions.Region.AddDatacenter | simulators/storage_cluster.py:113-118 | a datacenter takes the next datacenter index and builds exactly `racksPerDc` racks with the next rack indices |
| Regions.Region.AddRack | simulators/storage_cluster.py:165-171 | a rack takes the next rack index, builds its machines with the next machine indices, and sets its capacity to their number |
| Regions.Region.AllocateDcIdx | simulators/storage_cluster.py:61-64 | returns the counter's value and increments it by exactly one |
| Regions.Region.AllocateMachineIdx | simulators/storage_cluster.py:66-69 | returns the counter's value and increments it by exactly one |
| Regions.Region.AllocateRackIdx | simulators/storage_cluster.py:71-74 | returns the counter's value and increments it by exactly one |
| Regions.Region.AllocateClusterIdx | simulators/storage_cluster.py:76-79 | returns the counter's value and increments it by exactly one |
| Regions.Region.AllocateSmaugCluster | simulators/storage_cluster.py:81-93 | non-divisible nodes: returns the divisibility error and changes no cluster, counter, machine or capacity. Otherwise: appends one fresh cluster whose index is its position, and the placement, machines, capacities and error are those of `DcsAlloc` over every datacenter. Keeps `Valid`, and keeps `Exact` when it held before |
| Regions.Region.PlaceCluster | simulators/storage_cluster.py:86-93 | registers the new cluster with the next cluster index before placing it, then places it by `DcsAlloc`, keeping `Valid` and `Exact` |
| Regions.Region.AllocateInDatacenters | simulators/storage_cluster.py:90-93 | the loop over datacenters computes `DcsAlloc`: datacenters are visited in order and the first error is returned |
| Regions.Region.DatacenterAllocate | simulators/storage_cluster.py:126-154 | one datacenter computes `DcAlloc`: locality mode when asked, spread mode otherwise |
| Regions.Region.LocalityAllocate | simulators/storage_cluster.py:131-141 | the rack walk in locality mode computes `LocalityDc` |
| Regions.Region.SpreadAllocate | simulators/storage_cluster.py:142-154 | the rack walk in spread mode computes `SpreadDc`, including the "not enough machines" error |
| Regions.Region.SpreadRacksAllocate | simulators/storage_cluster.py:131-146 | the racks used are `SpreadRacks` of the starting capacities, and the state is one machine taken from each of them |
| Regions.Region.RackAllocateMachines | simulators/storage_cluster.py:182-198 | the rack's machine walk computes `RackAlloc` on the region snapshot |
| Regions.Region.RackDeallocateMachines | simulators/storage_cluster.py:200-203 | the rack's machine walk computes `RackRelease` on the region snapshot |
| Regions.Region.Upload | simulators/storage_cluster.py:95-98 | the machine array afterwards is the old one with every cluster's ingress of the volume divided by the number of clusters performed in cluster order; the allocation invariants are kept |
| Regions.Region.IngressAll | simulators/storage_cluster.py:97-98 | the loop over clusters performs `UploadTrace` |
| Regions.Region.Download | simulators/storage_cluster.py:100-103 | the machine array afterwards is the old one with every cluster's egress of the volume divided by the number of clusters performed in cluster order under the given shuffles; the allocation invariants are kept |
| Regions.Region.EgressAll | simulators/storage_cluster.py:102-103 | the loop over clusters performs `DownloadTrace` |
| Clusters.StorageCluster.constructor | simulators/storage_cluster.py:277-280 | a cluster starts with its index, its parity and an empty placement |
| Clusters.StorageCluster.AddPlacement | simulators/storage_cluster.py:285-286 | the placement grows by exactly the machine added, at its end |
| Clusters.StorageCluster.Ingress | simulators/storage_cluster.py:289-313 | the nested loops perform exactly `IngressTrace`: each placed machine receives its share, then stores one chunk on every placed machine, locally or over the network |
| Clusters.StorageCluster.Egress | simulators/storage_cluster.py:315-356 | the loops perform exactly `EgressTrace`: each placed machine sends its share, then fetches the chunks at the first n - parity positions of its shuffled order |
| Clusters.StoreChunks | simulators/storage_cluster.py:304-313 | the inner ingress loop performs `ChunkWrites` |
| Clusters.FetchChunks | simulators/storage_cluster.py:346-356 | the inner egress loop performs `ChunkReads` over the first `count` positions, none when the count is negative |
| Clusters.Serve | simulators/storage_cluster.py:338-356 | one server's egress step: its share sent, then its chunk reads |
| Machines.ApplyAt | simulators/storage_cluster.py:246-256 | after a run of ingress/egress calls, machine x differs only in its four counters, each grown by exactly what the calls addressed to x |
| Machines.ApplyTotal | simulators/storage_cluster.py:246-256 | the array-wide total of each counter grows by the trace's sum for it: traffic is neither created nor lost |
| Machines.ApplySameAllocation | simulators/storage_cluster.py:246-256 | traffic never changes a machine's index or its `cluster_idx` |
| Traffic.ShufflesAreOrders | simulators/storage_cluster.py:335-347 | orders produced by shuffling the positions 0 .. n-1 index inside the placement |
| TrafficLaws.ChunkWriteSums | simulators/storage_cluster.py:309-313 | storing one chunk writes it once, and sends and receives it once unless the chunk is local |
| TrafficLaws.ChunkReadSums | simulators/storage_cluster.py:352-356 | fetching one chunk reads it once, and sends and receives it once unless the chunk is local |
| TrafficLaws.IngressPerMachine | simulators/storage_cluster.py:294-313 | closed form of each counter's growth on any machine, in terms of how often it is placed (duplicates allowed) |
| TrafficLaws.IngressPlacedMachine | simulators/storage_cluster.py:294-313 | with distinct placements, a placed machine gains `V/n + (n-1)*chunk` rx, `(n-1)*chunk` tx, `n*chunk` write and no read; an unplaced machine gains nothing |
| TrafficLaws.IngressConservation | simulators/storage_cluster.py:294-313 | total rx minus total tx gained is the volume V; total write times (n - parity) is n*V; nothing is read |
| TrafficLaws.IngressTouchesPlacement | simulators/storage_cluster.py:301-313 | ingress touches only placed machines |
| TrafficLaws.EgressConservation | simulators/storage_cluster.py:315-356 | for any shuffles: total tx minus total rx gained is V, nothing is written, and with parity < n the total read is V |
| TrafficLaws.ShuffledEgressConservation | simulators/storage_cluster.py:335-356 | for chunk orders that are shuffles of 0 .. n-1: each is an in-range order, total tx minus total rx gained is V, nothing is written, and with parity < n the total read is V |
| TrafficLaws.EgressPerMachine | simulators/storage_cluster.py:337-338 | for a non-negative volume, every placed machine's tx grows by at least its share V/n per placement, and nothing is written |
| TrafficLaws.EgressUnplaced | simulators/storage_cluster.py:337-356 | egress leaves every unplaced machine's counters unchanged |
| TrafficLaws.EgressTouchesPlacement | simulators/storage_cluster.py:346-356 | egress touches only placed machines |
| TrafficLaws.UploadConservation | simulators/storage_cluster.py:95-98 | over all clusters, rx minus tx gained is the uploaded volume |
| TrafficLaws.DownloadConservation | simulators/storage_cluster.py:100-103 | over all clusters, tx minus rx gained is the downloaded volume, and the disks read that volume when every cluster has fewer parity chunks than machines |
| TrafficLaws.UploadTouchesPlacements | simulators/storage_cluster.py:95-98 | every machine the region-wide upload addresses is in the placement of some cluster |
| TrafficLaws.DownloadTouchesPlacements | simulators/storage_cluster.py:100-103 | every machine the region-wide download addresses is in the placement of some cluster |
| TrafficLaws.UploadInRange | simulators/storage_cluster.py:95-98 | upload addresses only machines below any bound that all placements respect, such as the length of the machine array |
| TrafficLaws.DownloadInRange | simulators/storage_cluster.py:100-103 | download addresses only machines below any bound that all placements respect, such as the length of the machine array |
| TrafficLaws.UploadTotals | simulators/storage_cluster.py:95-98 | on the machine array, the region's rx total grows by exactly the uploaded volume more than its tx total |
| TrafficLaws.DownloadTotals | simulators/storage_cluster.py:100-103 | on the machine array, the region's tx total grows by exactly the downloaded volume more than its rx total, and its read total by the volume when parity < n everywhere |
| Placement.PickSound | simulators/storage_cluster.py:186-189 | the machines a rack takes are free machines of that rack, in increasing (rack) order |
| Placement.PickFirstFree | simulators/storage_cluster.py:186-189 | a rack takes min(k, free) machines (none for k <= 0), and a free machine is passed over only once k are taken and only after every taken one |
| Placement.MarkAt | simulators/storage_cluster.py:186-190 | a machine ends up allocated to the cluster exactly when it was taken; every other machine is unchanged |
| Placement.RackAllocCount | simulators/storage_cluster.py:186-193 | asked for 0 <= k <= capacity with a bounded capacity, a rack hands out exactly k machines |
| Placement.RackAllocSlack | simulators/storage_cluster.py:186-193 | the capacity drops once per machine taken, so every rack's free count minus capacity is unchanged, and `capacity == free machines` is kept |
| Placement.RackAllocFate | simulators/storage_cluster.py:186-190 | every machine is either unchanged or was free and is now allocated to the cluster; an allocated machine is never taken |
| Placement.RackAllocConfined | simulators/storage_cluster.py:182-198 | the placement only grows, by machines of that rack now allocated to the cluster; only that rack's capacity drops, by their number; machines of other racks are untouched |
| Placement.RackAllocHolds | simulators/storage_cluster.py:186-190 | a placement of distinct machines allocated to the cluster stays so |
| Placement.RackReleaseSlack | simulators/storage_cluster.py:200-203 | releasing keeps every capacity, and the released rack's slack grows by the number of machines the cluster held there |
| Placement.RackReleaseClears | simulators/storage_cluster.py:200-203 | afterwards the cluster holds no machine of the rack, and the capacities and the placement are unchanged |
| Placement.RackReleaseKeeps | simulators/storage_cluster.py:200-203 | releasing keeps machine indices and allocations well-formed and the capacity bounded |
| Placement.FirstFit | simulators/storage_cluster.py:131-141 | the rack locality mode picks is the first rack of the datacenter with capacity >= h; none is picked exactly when no rack has that capacity |
| Placement.LocalityAlloc | simulators/storage_cluster.py:131-141 | when some rack has capacity >= h, exactly h machines are placed; when none has, nothing changes at all |
| Placement.LocalityConfined | simulators/storage_cluster.py:131-141 | locality mode touches only the rack it picks: other racks' capacities and machines are unchanged |
| Placement.SpreadRacksSound | simulators/storage_cluster.py:142-146 | spread mode uses racks of the datacenter, each with capacity >= 1, in increasing order |
| Placement.SpreadRacksCount | simulators/storage_cluster.py:142-146 | spread mode uses min(h, fitting racks) racks, or every fitting rack when h <= 0 |
| Placement.SpreadRacksFirst | simulators/storage_cluster.py:142-146 | a rack with capacity is skipped only after h machines are taken, and only after every rack used |
| Placement.RacksAllocOneEach | simulators/storage_cluster.py:142-146 | taking one machine from each of those racks places exactly one machine per rack |
| Placement.SpreadAlloc | simulators/storage_cluster.py:142-154 | the "not enough machines" error is returned exactly when fewer than h racks have capacity; the placement grows by min(h, fitting racks) |
| Placement.SpreadDcPlaces | simulators/storage_cluster.py:142-153 | spread mode with h > 0 that reports no error has placed exactly h machines |
| Placement.DcAllocSlack | simulators/storage_cluster.py:126-154 | one datacenter's allocation keeps every rack's free count minus capacity |
| Placement.DcsAllocSlack | simulators/storage_cluster.py:90-93 | the walk over datacenters keeps every rack's free count minus capacity |
| Placement.DcsAllocExact | simulators/storage_cluster.py:90-93 | exact capacities stay exact across a cluster allocation |
| Placement.LocalityNeverFails | simulators/storage_cluster.py:90-93 | in locality mode the walk over datacenters never reports an error |
| Placement.SpreadPlacesAll | simulators/storage_cluster.py:90-93 | in spread mode with h > 0 and exact capacities, success means the placement grew by h machines of datacenter d, then h of datacenter d+1, and so on for every datacenter walked, and by nothing else |
| Placement.SegmentAt | simulators/storage_cluster.py:90-93 | in such a run, positions from+k*h .. from+k*h+h-1 hold machines of datacenter d+k, whose machine indices are (d+k)*r*m .. (d+k+1)*r*m-1 |
| Placement.SegmentsLength | simulators/storage_cluster.py:90-93 | such a run over count datacenters is exactly count*h machines long |
| Placement.RackAllocGrows | simulators/storage_cluster.py:186-190 | allocating on rack j keeps the placement's prefix and appends only machines of rack j |
| Placement.RacksAllocGrows | simulators/storage_cluster.py:142-146 | the spread walk over racks lo .. hi-1 keeps the placement's prefix and appends only machines of those racks |
| Placement.LocalityDcGrows | simulators/storage_cluster.py:131-141 | locality mode over racks lo .. hi-1 keeps the placement's prefix and appends only machines of those racks |
| Placement.DcAllocGrows | simulators/storage_cluster.py:126-154 | one datacenter's allocation, in either mode, keeps the placement's prefix and appends only machines of that datacenter |
| Placement.DcsAllocGrows | simulators/storage_cluster.py:90-93 | the walk over datacenters d .. dcs-1 keeps the placement's prefix and appends only machines of those datacenters |
| Placement.DcsAllocHolds | simulators/storage_cluster.py:90-93 | after allocation the new cluster's placement lists distinct machines, all allocated to it |
| Placement.DcsAllocFate | simulators/storage_cluster.py:90-93 | allocation only ever turns free machines into the new cluster's machines |
| Placement.DcsAllocKeeps | simulators/storage_cluster.py:81-93 | a cluster allocation keeps machine indices, makes allocations range over the clusters including the new one, keeps capacities bounded (exact if they were), and changes machines only from free to allocated |
| Placement.HoldsFate | simulators/storage_cluster.py:86-93 | earlier clusters keep holding their placements when an allocation takes only free machines |
| Placement.SameAllocationKeeps | simulators/storage_cluster.py:95-103 | traffic that leaves every machine's allocation alone keeps all allocation invariants |

## Left out

- Report formatting (`__str__` of every class) and the `unit_divisor` getters are not modelled: they are presentation only. `RangeTotal` and `Total` give the sums that `get_tx` / `get_rx` compute.
- `get_number_of_datacenters` and the accessors `get_idx`, `get_cluster_idx` and `get_capacity` are read directly as fields.
- The `__main__` driver and the module-level constants are not modelled; the model takes the sizes, the cluster options and the volumes as parameters. `disks_per_machine` is unused in the source.
- The random number generator behind `random.shuffle` is not modelled. Egress takes the chunk order after each shuffle as a parameter. `ValidShuffles` says those orders are permutations. The laws hold for any in-range orders (`EgressConservation`), so in particular for permutations (`ShuffledEgressConservation`).
- Floating point is not modelled: volumes and counters are exact `real`s, and the divisibility test is exact integer divisibility.
- `server/dynamic_dns/main.go` is not part of this model: it is HTTP, file and JSON plumbing.
- Inputs on which the source raises an exception are excluded by preconditions:
  - zero datacenters in the options (division by zero);
  - a cluster with no placed machines, or with parity equal to its machine count (division by zero in ingress and egress);
  - negative parity in egress (the chunk list is indexed past its end);
  - download or upload with no clusters.
- The "intended" rollback that the lazy `map` calls were meant to perform is not modelled: the model follows the code, in which those calls never run.
- The Datacenter and Rack objects are not separate classes: they are index ranges of the region's arrays, with their constructors as `Region.AddDatacenter` and `Region.AddRack`.
- Regions.Region.Upload: the region-wide conservation of the uploaded volume is stated by `TrafficLaws.UploadTotals` on the trace the method is proved to perform, not in the method's own contract.
- Regions.Region.Download: the region-wide conservation of the downloaded volume is stated by `TrafficLaws.DownloadTotals` on the trace the method is proved to perform, not in the method's own contract.
- TrafficLaws.EgressPerMachine: states a lower bound on a placed machine's tx (its share plus whatever chunks it sends), not a closed form, because the chunks a machine sends depend on the shuffles.
