# Value iteration, its hardware kernels, and the belief filter: a Dafny model

The repository plans paths by value iteration over a grid of cells times 60
headings. It holds one 16-bit definition of the update and three engines that
compute "the same sweep" in very different ways (a plain reference, a tile
kernel and a streaming kernel on an FPGA), a 64-bit fixed-point solver, grid
distance fields, a sparse histogram filter, and map readers. This project
models those parts and proves what they are for.

**The 16-bit core.** `Bellman` defines the update of one state on an abstract
table and what an engine is: a sequence of such updates. It proves that every
visiting order that comes to rest rests at the same table. `Paths` says what
that table holds: the cheapest of all action paths to a seeded goal, saturating
at 0xFFFE, and 0xFFFF exactly where there is none; and that as many covering
sweeps as there are free states always suffice. `Contract` and `Reference` tie
this to the packed buffers and to the reference loops, and `Transitions` computes
the host's transition table.

**The engines.** `Mock`, `Hls`, `TileKernel` and `StreamKernel` are the kernels
over arrays, loop by loop, each proved equal to the in-place update of its cells
in its own order, values and reported maximum change alike: the tile kernel
through its halo buffer, the stream kernel through its 13-slot circular window,
its prefetched costs and its three register chains. What the stream kernel
computes, stale prefetched costs included, is defined in `StreamLoop` without any
assumption on the values; `StreamExact` says for which transition tables that is
the in-place update. `TwoUnits` interleaves two compute units word by word between
barriers, and `UnitKernel` shows that each of its steps is the tile kernel's step
on its on-chip buffers. `Driver` is the host object that starts both, waits and
tests the change. `Engines` compares the three engines with tolerance 0 on every
map.

**The solver.** `FixedPoint` and `FixedPointOrder` are the 64-bit update with
its wrapping sums: exact, monotone and order independent where nothing wraps.

**Fields.** `Distance`, `DistanceScan` and `ObstacleBfs` are the two-pass
chessboard and 3-4 chamfer distances and the breadth-first search they must
agree with. `MinPlus`, `MinPlusField` and `MinPlusExact` are the in-place
min-plus erosion with its circular axis.

**The filter.** `SparseBelief`, `BeliefMotion`, `BeliefUpdate`, `BeliefObserve`,
`BeliefReseed` and `BeliefRun` are the sparse belief: a dense weight array, an
active list and a scratch array rewritten in place. Every operation is proved
against the dense operation it stands for, and `BeliefSpread` says what arrives
in each cell.

**Maps and the window.** `Pooling`, `Pgm` and `MapOccupancy` are downsampling,
the PGM reader and writer, and the occupancy built from them. `WindowAxes` is
the local window whose half axes follow the motion.

`Basics` and `Sums` hold arithmetic and finite sums. Loops nested in the source
are written as one method per level.

## What the proofs found

- The stream kernel reads the costs of its two move-and-turn actions before it
  updates the cell. If such an action stays in its cell and turns back to an
  earlier theta, the cost read is stale. The kernel therefore equals the in-place
  update on every map and every table if and only if the transition table has no
  such entry, which its 120 move-and-turn entries show
  (`StreamExact.ExactIffTimely`); with one, a single free cell and a table that is 0
  at the earlier theta make the kernel write at most 1 where the update gives at
  least 2 (`StreamExact.StaleWrite`). On every table a solve can reach even such an
  entry is harmless, because values only go down and the stale action has the same
  target as a turn (`StreamExact.CacheAbove`), so all engines agree for every
  transition table.
- The comment at vi_fpga/hls/stream/src/vi_sweep_stream_top.cpp:43 says the
  second unit takes the smaller half of the strips. The code gives both units
  the larger half; with an odd number of strips both visit the middle one
  (`Engines.StreamCovers`). The model follows the code.
- The action table minimises the successor's value and leaves out the cost of
  entering it. Following it never goes up, and reaches value 0 when every free
  cell costs something (`ActionTable.FollowReachesZero`), but entering a goal is
  free, so an exact table may be 0 on free states, and there the table can turn on
  the spot for ever one move from the goal (`ActionTable.PolicyCanSpin`). Following
  it leads every state of finite value to a goal if and only if no free state of
  finite value is led back to itself (`ActionTable.ArrivesIff`); where every free
  cell costs something only the free states of value 0 need to be looked at, and a
  state arrives within its value plus their number (`ActionTable.ArrivesIffZero`).
- In the 64-bit solver the result is the floored mean if and only if the exact
  sum is below 2^64. The initial value of an unreached state is outside that
  region: a state whose successors are all unreached gets a finite value below
  MAX_COST (`FixedPointOrder.EqualTolls`, `FixedPointOrder.WrapLooksReached`).
- The comment at vi_rs/vi_lib/src/belief.rs:1674 says mixing keeps the total at
  1. That holds exactly for a belief that is not empty
  (`BeliefUpdate.MixUniform`); `observe` only mixes then.
- Reseeding brings the surviving belief's peak to the injected one, so the best
  injected cell holds half of the maximum. The next scan weights before it prunes:
  the cell is kept when its likelihood is above twice the pruning ratio times the
  largest, and the factor 2 cannot be improved (`BeliefRun.InjectionSurvives`,
  `BeliefRun.InjectionCanDrop`).
- The comment at vi_rs/vi_lib/src/local.rs:321-326 calls for three limits on the
  window's axis. The first, on the normalised displacement, is never felt: without
  it the limits on the axis give the same goal (`WindowAxes.GoalIs`).
- The host's transition table meets what the kernels hard-code at 5 cm or coarser
  (`Transitions.HostMeetsKernels`), and up to about 21 cm no move-and-turn
  entry stays in its cell, so that the stream kernel is exact on it without any
  assumption on the values (`Transitions.HostIsTimely`).
- The window's bounding radius is truncated to whole cells, so a half axis, a
  stretched one or the lateral one, can exceed it by less than a cell. It covers
  all of them exactly when the longest is at most the truncated radius
  (`WindowAxes.RadiusCoversIff`, `WindowAxes.RadiusCanBeShort`).
- The PGM reader checks the product of the two declared sizes for overflow, but not
  the sum of header length and raster size: on exactly the files where that sum is
  2^64 or more it stops instead of reporting a short raster (`Pgm.StopsIff`).

## Model

| member | source | states |
|---|---|---|
| Bellman.OrderIndependence | vi_fpga/driver/uio/vi_bellman_cell.h:24-51 | From a table no update can raise, every visiting order that comes to rest ends in the same table, the greatest one that no update lowers |
| Bellman.RunSettlesOn | vi_fpga/driver/uio/vi_bellman_cell.h:24-51 | A run from such a table never raises a value and lowers each visited state to at most its Bellman value in the starting table |
| Bellman.RunAboveRising | vi_fpga/driver/uio/vi_bellman_cell.h:24-51 | No run drops below a table that no update lowers, in particular below no fixed point |
| Bellman.DeltaIsLargest | vi_fpga/driver/uio/vi_bellman_cell.h:48-53 | The change a run reports is the largest absolute difference any of its updates made |
| Bellman.ZeroDeltaCertifies | vi_fpga/host/src/vi_reference_c.c:10-18 | A run that reports change 0 changed nothing, and every state it visited already had its Bellman value |
| Paths.RestMeansShortestPaths | vi_fpga/driver/uio/vi_bellman_cell.h:17-53 | At rest from goal seeds a free state holds the minimum over action paths to a seeded goal of min(0xFFFE, sum of entered penalties, goals costing 0), and 0xFFFF exactly when there is no such path |
| Paths.FixedIsShortestPaths | vi_fpga/driver/uio/vi_bellman_cell.h:17-53 | Any fixed point with the seeds' pinned entries whose finite values are paid for by a path is that shortest-path table |
| Paths.Shorten | vi_fpga/driver/uio/vi_bellman_cell.h:29-47 | Every path to a seed can be shortened to at most as many moves as there are free states without costing more |
| Paths.AdvanceCovers | vi_fpga/host/src/vi_reference_c.c:9-20 | After one more covering sweep each value is at most the best path of one more move |
| Paths.ProgressEnds | vi_fpga/host/src/vi_reference_c.c:9-20 | After as many covering sweeps as there are free states the table is exact |
| Contract.BlockOrderMembers | vi_fpga/host/src/vi_reference_c.c:11-17 | The nested row, column and theta loops visit exactly the states of the block |
| Contract.BlockOrderAt | vi_fpga/host/src/vi_reference_c.c:11-17 | Every place of that order: theta runs fastest, then x, then y |
| Contract.UnpackWord | vi_fpga/host/src/transitions.h:6-10 | For all signed bytes and any top byte: byte 0 of a packed word is the step in x, byte 1 the step in y, byte 2 the turn |
| Contract.MoveCost | vi_fpga/driver/uio/vi_bellman_cell.h:29-47 | For a word packed from (dix, diy, dit) the cost of the move is 0xFFFF off the map or at a sentinel, else the buffer entry at (x+dix, y+diy) and the turned theta plus that cell's penalty, a goal's being 0, at most 0xFFFE |
| Contract.BellIsLeast | vi_fpga/driver/uio/vi_bellman_cell.h:27-47 | The update of a free state is attained by one of the six moves and above none |
| Transitions.TransitionsCompute | vi_fpga/host/src/transitions.c:9-39 | Each word packs the rounded-down steps of the action along the cell's heading and the turn of 0, 0, 3, -3, 3, -3 theta cells |
| Transitions.HostMeetsKernels | vi_fpga/host/src/transitions.c:9-39 | At 5 cm or coarser that table stays within the halo of six cells and turns as the kernels hard-code |
| Reference.ActionCost | vi_fpga/driver/uio/vi_bellman_cell.h:30-46 | Unpacking, signed bytes, one theta wrap, bounds, sentinels and saturation give the cost of the abstract move |
| Reference.BellmanCell | vi_fpga/driver/uio/vi_bellman_cell.h:17-53 | The in-place theta loop is the 60 single-state updates in order; the result is the largest change; goal and obstacle cells are left alone |
| Reference.ReferenceRun | vi_fpga/host/src/vi_reference_c.c:5-21 | The table is that of the counted sweeps; the run stops after the first sweep that changes at most the threshold; an early stop at threshold 0 is an exact fixed point; from seeds it stops within one sweep more than there are free states, with the shortest-path table |
| Mock.MockRunSweep | vi_fpga/driver/uio/vi_device_mock.c:26-60 | The mock sweep is the in-place update of the unit's tiles in order, with the exact maximum change |
| Mock.TileOrderMembers | vi_fpga/driver/uio/vi_device_mock.c:41-57 | A unit visits exactly the map states of the tiles of its own colour, clipped tiles included |
| Hls.LoadTransitions | vi_fpga/hls/common/vi_hls_common.h:43-57 | The registers hold the signed bytes of the packed table |
| Hls.RegisterBytes | vi_fpga/hls/common/vi_hls_common.h:43-57 | The three registers of a word packed from (dix, diy, dit) are those three numbers |
| Hls.TreeIsBell | vi_fpga/hls/common/vi_hls_common.h:34-40 | The tree of six sentinel costs is the Bellman value of a free state |
| TileKernel.LoadTile | vi_fpga/hls/tile/src/load_tiles.cpp:3-71 | The buffer mirrors the map around the tile, sentinels outside it |
| TileKernel.ComputeBellman | vi_fpga/hls/tile/src/compute_bellman.cpp:5-128 | Updating inside the buffer is updating the map in place, cell by cell, with the exact maximum change |
| TileKernel.StoreTile | vi_fpga/hls/tile/src/store_tiles.cpp:3-27 | Exactly the inner cells are written back |
| TileKernel.ViSweep | vi_fpga/hls/tile/src/vi_sweep_top.cpp:55-94 | Load, compute and store over a unit's tiles give the same table and maximum change as the direct sweep of the mock |
| TwoUnits.SysStepKeeps | vi_fpga/hls/tile/src/vi_sweep_top.cpp:60-91 | In every interleaving a step of a unit changes only states of its own tiles, never raises the shared table, and keeps the system invariant |
| TwoUnits.ExecKeeps | vi_fpga/hls/tile/src/vi_sweep_top.cpp:60-91 | So does every schedule of load, compute and store steps, of any length |
| TwoUnits.Round | vi_fpga/driver/uio/libvi_sweep.c:121-138 | In every schedule of a round of a solve the table stays below where it began and above every rising table; at the barrier the round advanced like a covering sweep |
| TwoUnits.Certificate | vi_fpga/driver/uio/libvi_sweep.c:121-143 | From any table and for every schedule: at the barrier both changes are 0 if and only if the round began at an exact fixed point, and then the table is unchanged |
| TwoUnits.BarrierAdvances | vi_fpga/driver/uio/libvi_sweep.c:121-138 | Each barrier covers paths of one more move |
| UnitKernel.HoldsIsMirrors | vi_fpga/hls/tile/src/load_tiles.cpp:3-71 | A fully loaded job buffer is exactly what the on-chip buffer mirrors, whatever the other unit has meanwhile stored to the shared table |
| UnitKernel.LoadNext | vi_fpga/hls/tile/src/load_tiles.cpp:48-69 | Writing one word of the shared table at its halo position is the loading step of the protocol |
| UnitKernel.ComputeTile | vi_fpga/hls/tile/src/compute_bellman.cpp:5-128 | The kernel's triple loop on the on-chip buffer is the computing step of the protocol, change included |
| UnitKernel.StoreNext | vi_fpga/hls/tile/src/store_tiles.cpp:3-27 | The word read back from the buffer is the one the storing step of the protocol writes |
| Driver.CheckerboardOk | vi_fpga/driver/uio/libvi_sweep.c:107-116 | The two units' tile lists give every free state exactly one writer, and each tile's halo holds every successor its cells need |
| Driver.Accelerator.StartAndWait | vi_fpga/driver/uio/libvi_sweep.c:122-130 | From any table and in any interleaving: the wait fails exactly when a unit is late, at any moment; otherwise both changes are 0 if and only if the round began at a fixed point, and a complete round advances |
| Driver.Accelerator.RunUntilConverged | vi_fpga/driver/uio/libvi_sweep.c:97-148 | Which rounds were run, with the changes of both units in each; the interrupt error exactly when the next round is late, success exactly when the last change is at most the threshold, no convergence exactly when the sweeps are used up; refused arguments change nothing; success at threshold 0 means an exact fixed point from any value buffer, and from goal seeds the shortest-path table; with no late round one round more than there are free states always succeeds |
| StreamKernel.LoadRow | vi_fpga/hls/stream/src/load_store_row.cpp:3-67 | A slot mirrors a map row, sentinels outside the map; other slots are untouched |
| StreamKernel.StoreRow | vi_fpga/hls/stream/src/load_store_row.cpp:69-88 | Exactly the strip's cells of the row are written back |
| StreamKernel.PrecompNy | vi_fpga/hls/stream/src/compute_row.cpp:38-48 | The lookup is the window slot of the scan row each action enters, mirrored for the second unit |
| StreamKernel.ChainSources | vi_fpga/hls/stream/src/compute_row.cpp:97-118 | The three register chains feed the two turns with the values of the table updated so far, wrap-around included, for any values |
| StreamKernel.ChainIsKernelValue | vi_fpga/hls/stream/src/compute_row.cpp:104-131 | The reduction over the four caches and the two chains is min over four costs of the table before the cell and two of the table updated so far, for any values |
| StreamKernel.ComputeRow | vi_fpga/hls/stream/src/compute_row.cpp:5-148 | A row is the kernel's theta loop cell by cell in scan direction, from any values, idle columns changing nothing |
| StreamKernel.StreamStrip | vi_fpga/hls/stream/src/stream_strip.cpp:5-76 | The circular window with eviction gives the table and maximum change of that scan over the whole strip, from any values |
| StreamLoop.StripOrderAt | vi_fpga/hls/stream/src/stream_strip.cpp:36-76 | Every place of that scan: unit 0 from the lower left upwards, the other unit from the upper right downwards, theta fastest |
| StreamKernel.ViSweepStream | vi_fpga/hls/stream/src/vi_sweep_stream_top.cpp:36-71 | So does a unit's half of the strips; this is the in-place update of its states wherever the transition table is timely or the table cannot rise |
| StreamExact.CacheAbove | vi_fpga/hls/stream/src/compute_row.cpp:80-95 | A prefetched move-and-turn that stays in its cell and turns back costs at least the turn with the same target, on a table no update can raise |
| StreamExact.KernelValueIsBell | vi_fpga/hls/stream/src/compute_row.cpp:104-131 | The kernel's value of each theta is the Bellman value of the table updated so far, on every table if no entry reads back, on a settling table always |
| StreamExact.StreamIsRun | vi_fpga/hls/stream/src/vi_sweep_stream_top.cpp:36-71 | Under the same condition the whole scan of a unit is the in-place update in scan order, maximum change included |
| StreamExact.StaleWrite | vi_fpga/hls/stream/src/compute_row.cpp:80-131 | For every transition table with an entry that reads back: on one free cell the kernel writes at most 1 at that theta where the in-place update gives at least 2 |
| StreamExact.ExactIffTimely | vi_fpga/hls/stream/src/compute_row.cpp:80-131 | The theta loop, and the whole scan, equal the in-place update on every map and every table if and only if no move-and-turn entry stays in its cell and targets an earlier theta |
| Transitions.HostIsTimely | vi_fpga/host/src/transitions.c:9-39 | For the host's own table this holds at every resolution from 5 cm to 0.3 m divided by the square root of 2 |
| Engines.StreamCovers | vi_fpga/hls/stream/src/vi_sweep_stream_top.cpp:41-68 | The two units together visit every state; both visit it exactly in the middle strip of an odd number |
| Engines.TilesCoverOnce | vi_fpga/hls/tile/src/vi_sweep_top.cpp:60-75 | The two units' tiles together visit every state, and never both |
| Engines.StreamRun | vi_fpga/hls/stream/tb/vi_sweep_stream_tb.cpp:34-54 | Alternating the two stream units from seeds comes to rest at the shortest-path table within one sweep more than there are free states |
| Engines.CrossCheck | vi_fpga/hls/stream/tb/vi_sweep_stream_tb.cpp:30-54 | From the same table, goal-seeded or any other that no update can raise, the reference, the tile kernel and the stream kernel come to rest at the same table, on every map, with tolerance 0; from goal seeds they always do within the bound |
| Engines.RestAgrees | vi_fpga/hls/stream/tb/vi_sweep_stream_tb.cpp:30-54 | Two runs of repeated sweeps, in any two orders, that rest after starting from the same such table rest at the same one |
| ActionTable.ComputeActionTable | vi_fpga/driver/uio/libvi_sweep.c:151-196 | Each entry of a free state is the first action whose successor value, blocked ones excluded, is least; other entries are 0 |
| ActionTable.NextValueIn | vi_fpga/driver/uio/libvi_sweep.c:170-190 | For a word packed from (dix, diy, dit) the value compared is the buffer entry at (x+dix, y+diy) and the turned theta, 0xFFFF off the map |
| ActionTable.FilledIsChosen | vi_fpga/driver/uio/libvi_sweep.c:151-196 | The array the driver fills, read as a policy, is one the statements about following the table hold for |
| ActionTable.ActionDescends | vi_fpga/driver/uio/libvi_sweep.c:151-196 | On an exact table with obstacles at 0xFFFF the chosen action stays on the map, enters no obstacle, and does not go up, whatever the goals hold |
| ActionTable.FollowReachesZero | vi_fpga/driver/uio/libvi_sweep.c:151-196 | When every free cell costs something, following the table from a value below 0xFFFE reaches value 0 within as many moves as the value |
| ActionTable.ArrivesIff | vi_fpga/driver/uio/libvi_sweep.c:151-196 | On an exact table every state of finite value is led to a goal, within as many moves as there are free ones, if and only if none of them is led back to itself |
| ActionTable.ArrivesIffZero | vi_fpga/driver/uio/libvi_sweep.c:151-196 | When every free cell costs something, every state of value below 0xFFFE is led to a goal, within its value plus the number of free states of value 0, if and only if none of those is led back to itself |
| ActionTable.PolicyCanSpin | vi_fpga/driver/uio/libvi_sweep.c:151-196 | A concrete problem whose exact shortest-path table is 0 and whose goal is one move from every free state, on which every action table of that exact table stays on free states for ever |
| FixedPoint.ActionCostRaw | vi_rs/vi_lib/src/value_iterator.rs:555-588 | The wrapping loop is the exact weighted sum modulo 2^64, shifted; MAX_COST exactly when an outcome leaves the map or is not free |
| FixedPoint.CostMaxIff | vi_rs/vi_lib/src/value_iterator.rs:564-577 | The cost is MAX_COST if and only if some outcome leaves the map in x or y, or the cell at angle + x*nt + y*nt*nx is not free |
| FixedPoint.SumIn | vi_rs/vi_lib/src/value_iterator.rs:578-586 | The exact sum grows by value plus penalty plus local penalty of the cell at those coordinates, times the probability |
| FixedPoint.CertainCost | vi_rs/vi_lib/src/value_iterator.rs:555-588 | An outcome of probability 2^18 costs what the cell it enters costs, below 2^46 |
| FixedPoint.CheapestMeaning | vi_rs/vi_lib/src/value_iterator.rs:592-614 | No action is cheaper, the recorded one costs as much, no earlier one does, and none is recorded only at MAX_COST |
| FixedPoint.ValueIterationRaw | vi_rs/vi_lib/src/value_iterator.rs:616-632 | One cell's value and action are replaced, nothing else; the change returned is the true distance although it is computed in signed 64 bits |
| FixedPointOrder.ExactIff | vi_rs/vi_lib/src/value_iterator.rs:555-588 | The code's cost is the exact floored mean if and only if the exact sum is below 2^64 |
| FixedPointOrder.MeanBetween | vi_rs/vi_lib/src/value_iterator.rs:555-588 | With probabilities adding up to 2^18 and tolls below 2^46 the cost is exact and between the cheapest and the dearest successor |
| FixedPointOrder.BelowIsSafe | vi_rs/vi_lib/src/value_iterator.rs:555-588 | So when every free cell is below 2^46 no sum of any cell and action wraps |
| FixedPointOrder.RawMonotone | vi_rs/vi_lib/src/value_iterator.rs:555-588 | Where the dearer table does not wrap, the cost is monotone in the table |
| FixedPointOrder.RunDescends | vi_rs/vi_lib/src/value_iterator.rs:616-632 | From a table no update can raise and no sum wraps, no run ever raises a value, and both stay true |
| FixedPointOrder.OrdersAgree | vi_rs/vi_lib/src/value_iterator.rs:616-632 | From such a table all orders that come to rest give the same values and the same recorded actions |
| FixedPointOrder.ComesToRest | vi_rs/vi_lib/src/value_iterator.rs:616-632 | From such a table a covering sweep in any order, repeated more often than the values add up to, is at rest, recorded actions included |
| FixedPointOrder.SweepsAgree | vi_rs/vi_lib/src/value_iterator.rs:211-240 | So any two covering sweep orders end in the same values and recorded actions |
| FixedPointOrder.EqualTolls | vi_rs/vi_lib/src/value_iterator.rs:555-588 | When all successors cost c the code computes c modulo 2^46: right exactly below 2^46, and always below MAX_COST |
| FixedPointOrder.WrapLooksReached | vi_rs/vi_lib/src/value_iterator.rs:616-632 | One never-reached cell with no goal that a single update makes look reached |
| DistanceScan.DistLinf | vi_rs/vi_lib/src/local.rs:546-598 | Every cell is min(65535, chessboard distance to the nearest obstacle), 65535 when there is none, for every grid |
| DistanceScan.ChamferDist | vi_rs/vi_bench/src/sim.rs:36-77 | Every cell is the least 3-4 chamfer distance to an obstacle, saturated |
| Distance.TwoScansReach | vi_rs/vi_lib/src/local.rs:560-597 | Two tight scans reach every cell from every obstacle, through a turning cell where one cone does not |
| ObstacleBfs.ObstacleDist | vi_rs/vi_bench/src/bin/vi_det_compare.rs:127-153 | The search terminates and every cell is its chessboard distance to the nearest blocked cell |
| ObstacleBfs.CrossCheck | vi_rs/vi_bench/src/bin/vi_det_compare.rs:127-153 | The scan is min(65535, search) on every grid, the two "no obstacle" sentinels corresponding |
| MinPlus.RingDone | vi_rs/vi_lib/src/belief.rs:2158-2186 | Two laps up and two laps down a ring give the minimum over all positions of value plus circular distance |
| MinPlusExact.MinPlusRelax | vi_rs/vi_lib/src/belief.rs:2132-2187 | Every cell becomes the minimum over all cells of the old value plus l_xy times the Manhattan distance plus l_t times the circular distance |
| MinPlusExact.ErosionIn | vi_rs/vi_lib/src/belief.rs:2132-2187 | The same in the array itself, its index and both distances written out |
| MinPlusExact.ErosionIdempotent | vi_rs/vi_lib/src/belief.rs:2132-2187 | Eroding twice is eroding once |
| Sums.SparseSum | vi_rs/vi_lib/src/belief.rs:1352 | A sum over a repetition-free list covering the support is the sum over all cells |
| SparseBelief.Deposit | vi_rs/vi_lib/src/belief.rs:216-224 | Adds a positive mass to one cell, listing it exactly on its first touch |
| SparseBelief.Store.Scatter | vi_rs/vi_lib/src/belief.rs:1444-1527 | Scattering the active cells is the dense transport of the whole vector; the scratch vector is zero again and the active list is the new support |
| SparseBelief.MassAccount | vi_rs/vi_lib/src/belief.rs:1444-1527 | The mass lost is exactly what was aimed at blocked or outside cells |
| SparseBelief.Store.NormalizeActive | vi_rs/vi_lib/src/belief.rs:1351-1368 | Total mass 1, or an empty belief |
| BeliefMotion.ShiftProper | vi_rs/vi_lib/src/belief.rs:1444-1491 | The eight trilinear weights of a move add up to 1, blocked corners included |
| BeliefMotion.DiffuseProper | vi_rs/vi_lib/src/belief.rs:1495-1527 | So do the centre and neighbour weights of a diffusion pass |
| BeliefMotion.Passes | vi_rs/vi_lib/src/belief.rs:1425-1431 | The least number of passes that keeps a centre weight of at least one half in each |
| BeliefMotion.Flush | vi_rs/vi_lib/src/belief.rs:1386-1437 | Applies the shift, if there was a move, and then the computed number of equal diffusion passes, each the dense transport with its loss, and normalises |
| BeliefSpread.MoveArrives | vi_rs/vi_lib/src/belief.rs:1444-1491 | What reaches a free cell from another is the product of three triangles of half width 1 around the position the move aims at, theta taken around the circle |
| BeliefSpread.WholeMoveArrives | vi_rs/vi_lib/src/belief.rs:1444-1491 | A move by whole cells sends everything to the one cell at that displacement |
| BeliefSpread.DiffuseArrives | vi_rs/vi_lib/src/belief.rs:1495-1527 | Exactly the four neighbours in the plane get the plane share, the two theta neighbours the theta share, the cell itself the rest, and no other cell anything |
| BeliefSpread.FlushAimsAre | vi_rs/vi_lib/src/belief.rs:1386-1437 | The operators of a flush are the shift first and then equal passes |
| BeliefUpdate.Seed | vi_rs/vi_lib/src/belief.rs:693-758 | The belief is the product of the three axis weights on the free states, nothing elsewhere, normalised |
| BeliefSpread.SeedWeightAt | vi_rs/vi_lib/src/belief.rs:693-758 | The x weight goes with the column, the y weight with the row, the theta weight with the angle; weights of at most 1e-9 are cut |
| BeliefUpdate.FreeTotal | vi_rs/vi_lib/src/belief.rs:583 | As many states are free as free cells times angles |
| BeliefUpdate.EnterUniformFree | vi_rs/vi_lib/src/belief.rs:763-794 | Each free state gets the same share of mass 1, others nothing |
| BeliefUpdate.MixUniform | vi_rs/vi_lib/src/belief.rs:1640-1697 | Half of every weight plus an equal share on the free states; a normalised belief stays normalised exactly when it was not empty or nothing is free |
| BeliefObserve.SumObserve | vi_rs/vi_lib/src/belief.rs:1535-1634 | Weighting by the likelihood, pruning relative to the peak and normalising, as the dense operation; the quality is the weighted mean of the fits |
| BeliefObserve.Survives | vi_rs/vi_lib/src/belief.rs:1619-1632 | A belief outlives an observation exactly when the pruning ratio is below 1 and some cell has mass and likelihood |
| BeliefObserve.QualityIsMean | vi_rs/vi_lib/src/belief.rs:1615 | The quality of a normalised belief lies between the least and the greatest fit |
| BeliefReseed.ReseedWith | vi_rs/vi_lib/src/belief.rs:1871-1949 | The old belief scaled to the injected peak, plus the 3x3x3 blobs of all candidates, normalised; the scratch vector is zero again |
| BeliefReseed.BlobProper | vi_rs/vi_lib/src/belief.rs:1880-1904 | A blob has weight 8, its blocked part being lost |
| BeliefSpread.BlobArrives | vi_rs/vi_lib/src/belief.rs:1880-1904 | A blob brings 1 to its centre, half for each of the three coordinates that is one off, nothing beyond |
| BeliefRun.InjectionSurvives | vi_rs/vi_lib/src/belief.rs:1906-1924 | After equalising and normalising, the best injected cell outlives the next scan if its likelihood is above twice the pruning ratio times the largest likelihood |
| BeliefRun.InjectionCanDrop | vi_rs/vi_lib/src/belief.rs:1619-1632 | At or below that bound the cell of the normalised belief can be dropped |
| BeliefRun.Observe | vi_rs/vi_lib/src/belief.rs:832-1042 | The belief passes through the flush, a restart if nothing is left, the weighting by the scan and the verdict, each being the relation it stands for, with the quality of the scan; the invariant is kept, and without the global matcher the mass is 1 afterwards whenever anything is free |
| BeliefRun.Run | vi_rs/vi_lib/src/belief.rs:693-1062 | Each operation of any run of seed, uniform reset, failed probation and observe does to the belief what it stands for; the scratch vector stays zero, the active list is exactly the support without repetition and on free states, and the mass is 1 or nothing is left |
| Pooling.Downsample | vi_rs/vi_lib/src/bridge.rs:113-153 | Each output cell shows whether its block, cut at the map's edge, has a free cell (optimistic) or only free cells (conservative) |
| Pooling.DownsampleComposes | vi_rs/vi_lib/src/bridge.rs:113-153 | Downsampling by a and then b is downsampling by a*b, for every size and both rules |
| Pooling.ConservativeIsSafer | vi_rs/vi_lib/src/bridge.rs:94-109 | What is free conservatively is free optimistically |
| Pgm.NextToken | vi_rs/vi_bench/src/pgm.rs:153-174 | The loops return the next token past white space and comments, and the position after it |
| Pgm.ParsePgmP5 | vi_rs/vi_bench/src/pgm.rs:120-150 | The parser's result, every error case and the overflow of the raster's end included, is that of its specification |
| Pgm.WordExamples | vi_rs/vi_bench/src/pgm.rs:176-182 | "+0384" is read as 384, a sign alone is refused |
| Pgm.StopsIff | vi_rs/vi_bench/src/pgm.rs:120-150 | The program stops on exactly the files whose header is well-formed, whose sizes multiply to less than 2^64, and whose raster would end at 2^64 or beyond |
| Pgm.HeaderDecides | vi_rs/vi_bench/src/pgm.rs:120-150 | After a well-formed header: which of too large a maxval, size overflow, stop, short raster or image results, for all sizes |
| Pgm.MagicDecides | vi_rs/vi_bench/src/pgm.rs:120-128 | White space and comments alone are an empty file; another first token than "P5" is refused as such |
| Pgm.ParseIff | vi_rs/vi_bench/src/pgm.rs:120-150 | The parser accepts exactly the files made of a header of four tokens with any gaps, a maxval up to 255, an optional separator byte, a full raster and any tail, and returns that size and raster |
| Pgm.ParseWritten | vi_rs/vi_bench/src/pgm.rs:120-150 | Any well-formed file is read back exactly, however its header is spaced and commented and whatever its raster starts with; a larger maxval is refused |
| MapOccupancy.BuildOccupancy | vi_rs/vi_bench/src/pgm.rs:213-253 | A cell is blocked exactly when a pixel of its block, rows flipped, counts as an obstacle |
| MapOccupancy.ObstacleWhen | vi_rs/vi_bench/src/pgm.rs:302-318 | A pixel is an obstacle when its darkness reaches the threshold that applies; a negated map reads the inverted picture |
| MapOccupancy.BuildIsDownsample | vi_rs/vi_bench/src/pgm.rs:213-253 | Building at any scale is conservative downsampling of the unscaled result |
| MapOccupancy.MapRoundTrip | vi_ml/vi_ml/vi.py:22-33 | A grid written and read back at scale 1 is the same grid, the row flip being undone |
| WindowAxes.Window.UpdateAxes | vi_rs/vi_lib/src/local.rs:327-349 | The half axes keep their sum 2r and their range; a call moves them towards the goal of the motion by at most the slew, or not at all inside the dead band |
| WindowAxes.Window.Drive | vi_rs/vi_lib/src/local.rs:327-349 | So after any drive, n calls moving an axis by at most n times the slew |
| WindowAxes.UpperIsSum | vi_rs/vi_lib/src/local.rs:341-342 | The second candidate of the upper clamp never applies |
| WindowAxes.NextSide | vi_rs/vi_lib/src/local.rs:339-347 | Driving forward never shortens a forward axis at or below rest length, backing up never lengthens one at or above it |
| WindowAxes.GoalIs | vi_rs/vi_lib/src/local.rs:336-343 | The goal is the resting length changed in proportion to the speed between the two limits, which full speed forwards and backwards reach; cutting off the speed before is never felt |
| WindowAxes.NextReaches | vi_rs/vi_lib/src/local.rs:343-348 | A call reaches the goal when it is within the slew and otherwise moves towards it by exactly the slew |
| WindowAxes.ForwardAlong | vi_rs/vi_lib/src/local.rs:327-335 | Driving d along the heading counts d, whatever is added across it |
| WindowAxes.WithinRadius | vi_rs/vi_lib/src/local.rs:125-152 | Every half axis of every shape, fore, aft or lateral, is between the minimum radius and the length the bounding radius truncates, and less than a cell above the bounding radius |
| WindowAxes.WindowHasAxes | vi_rs/vi_lib/src/local.rs:327-349 | The fore and the aft half axis of a window that was driven in any way are among those |
| WindowAxes.RadiusCoversIff | vi_rs/vi_lib/src/local.rs:125-155 | For every shape the bounding radius covers all half axes, fore, aft and lateral, exactly when the truncated radius covers the longest of them; where that is the length truncated, exactly when it is a whole number of cells |

## Left out

- Trigonometry and sensor likelihoods are inputs with the bounds the code relies on; how the beam models and the scan matcher compute them is not modelled.
- Floating point: weights, costs and lengths are reals (with infinity in the erosion), so rounding, subnormals and not-a-number values do not occur. The branch of `normalize_active` for a non-finite sum therefore has no counterpart.
- TwoUnits.Round: the concurrent protocol is on abstract tables, word by word; `UnitKernel` ties each step to the array-level kernel. Bus transactions wider than a word are not modelled.
- StreamKernel.ViSweepStream: the two stream units run one after the other, as in the testbench, because with an odd number of strips both write the middle one. The read port and the write port are one memory.
- Device registers, interrupts, memory mapping, clocks and statistics; a wait that times out is a nondeterministic outcome.
- ActionTable.ComputeActionTable: does not model the driver's argument and buffer checks.
- FixedPointOrder.OrdersAgree: claims nothing about tables with a wrapping sum; there the code's results are what `FixedPointOrder.EqualTolls` shows.
- BeliefRun.Observe: whether a scan is skipped, whether a quality counts as a mismatch, and which candidates the matcher proposes are inputs; the ESS, lost and probation bookkeeping and changes of the map during a run are not modelled.
- BeliefUpdate.Seed: iterates over all cells and skips those whose axis weight is cut, where the code precomputes the lists of kept indices; the order of the visited cells is the same.
- Belief in min-plus mode other than the erosion itself.
- Pgm.ParsePgmP5: text conversion of a number is its specification (optional plus, digits, below 2^64); a stop of the program is a result like the errors. Yaml metadata and three-valued occupancy are left out.
- Window shapes other than through their half axes and bounding radius; `in_local_area` and the sigma inflation.
- Frontier, sparse, compact and Schur solvers, the planner core, and thresholds above 0 beyond what the contracts say.
- Neural networks, sampling controllers, QMDP, benches, HTTP and ROS layers: numeric tuning or plumbing that would add only easy members.
