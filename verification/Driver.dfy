// The driver: start both tile-kernel units, wait for both, stop on the
// largest change. The units run concurrently between barriers.
module Driver {
  import opened Basics
  import opened Bellman
  import opened Contract
  import opened Hls
  import opened Mock
  import opened Paths
  import opened TwoUnits

  function Floor0(a: int): int { if a < 0 then 0 else a }

  // The window and block of tile (tx, ty), in the word order of the kernel.
  function JobAt(p: Problem, tx: int, ty: int): Job {
    var ox, oy := tx * TILE, ty * TILE;
    Job(BlockOrder(Floor0(ox - HALO), Clip(ox + TILE + HALO, p.w), Floor0(oy - HALO), Clip(oy + TILE + HALO, p.h)),
        TileBlock(p, tx, ty))
  }

  function RowJobs(p: Problem, cu: int, ty: int, n: nat): seq<Job> {
    if n == 0 then []
    else RowJobs(p, cu, ty, n - 1) + (if (n - 1 + ty) % 2 == cu then [JobAt(p, n - 1, ty)] else [])
  }

  function Jobs(p: Problem, cu: int, ntx: nat, n: nat): seq<Job> {
    if n == 0 then [] else Jobs(p, cu, ntx, n - 1) + RowJobs(p, cu, n - 1, ntx)
  }

  function Plan(p: Problem): seq<seq<Job>> {
    [Jobs(p, 0, NumTiles(p.w), NumTiles(p.h)), Jobs(p, 1, NumTiles(p.w), NumTiles(p.h))]
  }

  lemma MineAppend(a: seq<Job>, b: seq<Job>, s: State)
    ensures Mine(a + b, s) <==> Mine(a, s) || Mine(b, s)
  {
    if Mine(a, s) {
      var j :| 0 <= j < |a| && s in a[j].block;
      assert (a + b)[j] == a[j];
    }
    if Mine(b, s) {
      var j :| 0 <= j < |b| && s in b[j].block;
      assert (a + b)[|a| + j] == b[j];
    }
  }

  lemma MineOne(job: Job, s: State)
    ensures Mine([job], s) <==> s in job.block
    ensures !Mine([], s)
  {
    if s in job.block {
      assert s in [job][0].block;
    }
  }

  lemma {:induction false} RowJobsOwn(p: Problem, cu: int, ty: int, n: nat, s: State)
    ensures Mine(RowJobs(p, cu, ty, n), s) <==> s in TileRow(p, cu, ty, n)
  {
    hide Mine, TileBlock;
    MineOne(JobAt(p, n - 1, ty), s);
    if n > 0 {
      RowJobsOwn(p, cu, ty, n - 1, s);
      MineAppend(RowJobs(p, cu, ty, n - 1), if (n - 1 + ty) % 2 == cu then [JobAt(p, n - 1, ty)] else [], s);
    }
  }

  // The blocks of a unit's jobs are exactly the states of its sweep order.
  lemma {:induction false} JobsOwn(p: Problem, cu: int, ntx: nat, n: nat, s: State)
    ensures Mine(Jobs(p, cu, ntx, n), s) <==> s in TileOrder(p, cu, ntx, n)
  {
    hide Mine, TileRow, RowJobs;
    if n > 0 {
      JobsOwn(p, cu, ntx, n - 1, s);
      RowJobsOwn(p, cu, n - 1, ntx, s);
      MineAppend(Jobs(p, cu, ntx, n - 1), RowJobs(p, cu, n - 1, ntx), s);
    } else {
      MineOne(Job([], []), s);
    }
  }

  lemma JobAtOk(p: Problem, tx: int, ty: int)
    requires p.Valid() && KernelTrans(p) && 0 <= tx && 0 <= ty
    ensures p.Net().Valid() && JobOk(p.Net(), JobAt(p, tx, ty))
  {
    p.NetValid();
    var job := JobAt(p, tx, ty);
    var ox, oy := tx * TILE, ty * TILE;
    forall s
      ensures s in job.load <==> ox - HALO <= s.x < ox + TILE + HALO && oy - HALO <= s.y < oy + TILE + HALO && s in p.States()
      ensures s in job.block <==> ox <= s.x < ox + TILE && oy <= s.y < oy + TILE && s in p.States()
    {
      JobAtMembers(p, tx, ty, s);
    }
    forall s, a | s in job.block && s in p.Net().free && 0 <= a < |p.Net().moves[s]| && p.Net().moves[s][a].Step?
      ensures p.Net().moves[s][a].to in job.load
    {
      assert p.Net().moves[s][a] == p.MoveAt(s, a);
      assert -HALO <= p.DeltaAt(a, s.t).dix <= HALO && -HALO <= p.DeltaAt(a, s.t).diy <= HALO;
      assert p.MoveAt(s, a).to in p.States();
    }
  }

  lemma JobAtMembers(p: Problem, tx: int, ty: int, s: State)
    requires p.Valid() && 0 <= tx && 0 <= ty
    ensures s in JobAt(p, tx, ty).load <==>
      tx * TILE - HALO <= s.x < tx * TILE + TILE + HALO && ty * TILE - HALO <= s.y < ty * TILE + TILE + HALO
      && s in p.States()
    ensures s in JobAt(p, tx, ty).block <==>
      tx * TILE <= s.x < tx * TILE + TILE && ty * TILE <= s.y < ty * TILE + TILE && s in p.States()
  {
    hide BlockOrder, Problem.Valid;
    var ox, oy := tx * TILE, ty * TILE;
    BlockOrderMembers(Floor0(ox - HALO), Clip(ox + TILE + HALO, p.w), Floor0(oy - HALO), Clip(oy + TILE + HALO, p.h), s);
    BlockOrderMembers(ox, Clip(ox + TILE, p.w), oy, Clip(oy + TILE, p.h), s);
    assert s in p.States() <==> 0 <= s.x < p.w && 0 <= s.y < p.h && 0 <= s.t < N_THETA;
  }

  lemma {:induction false} RowJobsOk(p: Problem, cu: int, ty: nat, n: nat)
    requires p.Valid() && KernelTrans(p) && p.Net().Valid()
    ensures JobsOk(p.Net(), RowJobs(p, cu, ty, n))
  {
    hide JobOk;
    if n > 0 {
      RowJobsOk(p, cu, ty, n - 1);
      JobAtOk(p, n - 1, ty);
    }
  }

  lemma {:induction false} AllJobsOk(p: Problem, cu: int, ntx: nat, n: nat)
    requires p.Valid() && KernelTrans(p) && p.Net().Valid()
    ensures JobsOk(p.Net(), Jobs(p, cu, ntx, n))
  {
    hide JobOk, RowJobs;
    if n > 0 {
      AllJobsOk(p, cu, ntx, n - 1);
      RowJobsOk(p, cu, n - 1, ntx);
    }
  }

  lemma TilesCover(len: nat)
    ensures len <= NumTiles(len) * TILE
  {
  }

  // The checkerboard of tiles gives every free state exactly one writer, and
  // each tile's window holds everything its update reads.
  lemma CheckerboardOk(p: Problem)
    requires p.Valid() && KernelTrans(p)
    ensures PlanOk(p.Net(), Plan(p))
  {
    hide JobsOk, Mine, Jobs;
    p.NetValid();
    var ntx, nty := NumTiles(p.w), NumTiles(p.h);
    AllJobsOk(p, 0, ntx, nty);
    AllJobsOk(p, 1, ntx, nty);
    TilesCover(p.w);
    TilesCover(p.h);
    forall s
      ensures !(Mine(Plan(p)[0], s) && Mine(Plan(p)[1], s))
      ensures s in p.Net().free ==> Mine(Plan(p)[0], s) || Mine(Plan(p)[1], s)
    {
      JobsOwn(p, 0, ntx, nty, s);
      JobsOwn(p, 1, ntx, nty, s);
      TileOrderMembers(p, 0, ntx, nty, s);
      TileOrderMembers(p, 1, ntx, nty, s);
    }
  }

  // ------------------------------------------------------------ the sweep loop

  datatype Status = Ok | NotConverged | BadArg | BufSize | IrqError

  // The sizes the driver accepts: two bytes per state and two per cell.
  predicate Accepted(mapX: int, mapY: int, valueSize: nat, penSize: nat) {
    mapX > 0 && mapY > 0 && mapX * mapY * N_THETA * 2 <= valueSize && mapX * mapY * 2 <= penSize
  }

  // T lies below V0 and above every rising table that V0 is above.
  ghost predicate Bracketed(net: Net, V0: Table, T: Table) {
    Leq(T, V0) && forall F: Table :: Rising(net, F) && Leq(F, V0) ==> Leq(F, T)
  }

  // T and u are what some interleaving of the two units makes of B: their
  // buffers and changes, and the words stored so far.
  ghost predicate Reached(p: Problem, B: Table, T: Table, u: seq<CU>, done: bool)
    requires p.Valid()
  {
    exists schedule :: Outcome(p, B, T, u, done, schedule)
  }

  ghost predicate Outcome(p: Problem, B: Table, T: Table, u: seq<CU>, done: bool, schedule: seq<nat>)
    requires p.Valid()
  {
    && |u| == 2 && |Plan(p)| == 2 && (forall i :: 0 <= i < |schedule| ==> schedule[i] < 2)
    && Sys(T, u) == Exec(p.Net(), Plan(p), Start(B), schedule)
    && (done ==> Barrier(Plan(p), Sys(T, u)))
  }

  // Which waits fail: late(k, c) says that unit c does not raise its interrupt
  // in time in round k.
  type Clock = (nat, nat) -> bool

  predicate Late(late: Clock, k: nat) { late(k, 0) || late(k, 1) }

  // The statistics the caller may ask for.
  datatype Stats = Stats(sweeps: int, finalDelta: U16, converged: bool)

  // A complete round: the table before and after, and the changes of the units.
  datatype Lap = Lap(before: Table, after: Table, d0: U16, d1: U16) {
    function Delta(): U16 { Max(d0, d1) }
  }

  // Complete rounds from table V to table T, none of them late.
  ghost predicate Laps(p: Problem, V: Table, T: Table, late: Clock, rounds: seq<Lap>)
    requires p.Valid()
  {
    && (if |rounds| == 0 then T == V else rounds[0].before == V && rounds[|rounds| - 1].after == T)
    && (forall k :: 0 < k < |rounds| ==> rounds[k].before == rounds[k - 1].after)
    && (forall k :: 0 <= k < |rounds| ==> !Late(late, k) && IsLap(p, rounds[k]))
  }

  ghost predicate IsLap(p: Problem, r: Lap)
    requires p.Valid()
  {
    exists u: seq<CU> :: |u| == 2 && Reached(p, r.before, r.after, u, true) && u[0].delta == r.d0 && u[1].delta == r.d1
  }

  class Accelerator {
    var table: Table
    var units: seq<CU>

    constructor (V: Table)
      ensures table == V && units == Start(V).units
    {
      table := V;
      units := Start(V).units;
    }

    // Start both units and let them run, in any interleaving, until both have
    // raised their interrupt. When one of them is late the wait fails at some
    // moment, whatever the units have done by then.
    method StartAndWait(p: Problem, late0: bool, late1: bool) returns (timeout: bool)
      requires p.Valid() && KernelTrans(p) && table.Keys == p.States()
      modifies this
      ensures |units| == 2 && table.Keys == p.States()
      ensures timeout == (late0 || late1) && Reached(p, old(table), table, units, !timeout)
      // The certificate, from any table.
      ensures !timeout ==>
        && (units[0].delta == 0 && units[1].delta == 0 <==> Fixed(p.Net(), old(table)))
        && (Fixed(p.Net(), old(table)) ==> table == old(table))
      // The progress of a solve.
      ensures forall V0: Table, k: nat :: V0.Keys == p.States() && Progress(p.Net(), V0, old(table), k) ==>
        Bracketed(p.Net(), old(table), table) && (!timeout ==> Progress(p.Net(), V0, table, k + 1))
    {
      hide Progress, Fixed, Rising, PlanOk, Tick, Plan, Leq, Work, Finished, Problem.Net;
      ghost var B := table;
      var net, plan := p.Net(), Plan(p);
      CheckerboardOk(p);
      PlanShape(net, plan);
      p.NetValid();
      units := Start(table).units;
      ghost var schedule: seq<nat> := [];
      while !(Finished(plan[0], units[0]) && Finished(plan[1], units[1]))
        invariant |units| == 2
        invariant forall i :: 0 <= i < |schedule| ==> schedule[i] < 2
        invariant Sys(table, units) == Exec(net, plan, Start(B), schedule)
        decreases Work(plan[0], units[0]) + Work(plan[1], units[1])
      {
        if late0 || late1 {
          if * { break; }
        }
        var c: nat :| c < 2 && !Finished(plan[c], units[c]);
        StepWorks(net, plan[c], table, units[c]);
        assert (schedule + [c])[..|schedule|] == schedule;
        schedule := schedule + [c];
        var sys := SysStep(net, plan, Sys(table, units), c);
        table, units := sys.V, sys.units;
      }
      RoundOutcome(net, plan, B, schedule);
      timeout := late0 || late1;
      assert Outcome(p, B, table, units, !timeout, schedule);
    }

    // Sweep until the largest change is at most the threshold. The statistics
    // are untouched where the arguments are refused, and zero after a late round.
    method RunUntilConverged(p: Problem, mapX: int, mapY: int, valueSize: nat, penSize: nat, threshold: U16, maxSweeps: int, late: Clock)
      returns (status: Status, stats: Option<Stats>, ghost rounds: seq<Lap>)
      // Accepted buffers hold a map of the given sizes; the values are arbitrary.
      requires Accepted(mapX, mapY, valueSize, penSize) ==>
        p.Valid() && KernelTrans(p) && p.w == mapX && p.h == mapY && table.Keys == p.States()
      modifies this
      ensures status == BadArg <==> mapX <= 0 || mapY <= 0
      ensures status == BufSize <==> mapX > 0 && mapY > 0 && !Accepted(mapX, mapY, valueSize, penSize)
      ensures status == BadArg || status == BufSize ==> table == old(table) && stats == None && rounds == []
      // What was run: complete rounds, one after the other, and after them at
      // most one that failed.
      ensures Accepted(mapX, mapY, valueSize, penSize) && status != IrqError ==> Laps(p, old(table), table, late, rounds)
      ensures status == IrqError ==> exists T :: Laps(p, old(table), T, late, rounds) && Reached(p, T, table, units, false)
      // Every round but one that ends the run changed more than the threshold.
      ensures forall k :: 0 <= k < |rounds| - 1 ==> rounds[k].Delta() > threshold
      ensures |rounds| <= Max0(maxSweeps)
      // How it ended.
      ensures Accepted(mapX, mapY, valueSize, penSize) ==>
        && (status == Ok <==> rounds != [] && rounds[|rounds| - 1].Delta() <= threshold)
        && (status == NotConverged <==> |rounds| == Max0(maxSweeps) && (rounds == [] || rounds[|rounds| - 1].Delta() > threshold))
        && (status == IrqError <==>
              |rounds| < maxSweeps && Late(late, |rounds|) && (rounds == [] || rounds[|rounds| - 1].Delta() > threshold))
      ensures status == Ok ==> stats == Some(Stats(|rounds|, rounds[|rounds| - 1].Delta(), true))
      ensures status == NotConverged ==>
        stats == Some(Stats(|rounds|, if rounds == [] then 0xFFFF else rounds[|rounds| - 1].Delta(), false))
      ensures status == IrqError ==> stats == Some(Stats(0, 0, false))
      // Converged with threshold 0: an exact fixed point, from any values.
      ensures status == Ok && threshold == 0 ==> p.Valid() && Fixed(p.Net(), table)
      // From goal seeds: whatever happens, the table stays between every rising
      // table below the seeds and the seeds; success at threshold 0 is the exact
      // shortest-path table; one round more than there are free states suffices.
      ensures Accepted(mapX, mapY, valueSize, penSize) && Seeded(p.Net(), old(table)) ==>
        && Bracketed(p.Net(), old(table), table)
        && (status == Ok && threshold == 0 ==> ShortestPaths(p.Net(), old(table), table))
        && (status == Ok ==> |rounds| <= |p.Net().free| + 1)
        && (maxSweeps > |p.Net().free| && (forall k: nat :: k <= |p.Net().free| ==> !Late(late, k)) ==> status == Ok)
    {
      hide Progress, Fixed, Seeded, ShortestPaths, Bracketed, Accepted, Problem.Net, Problem.Valid, KernelTrans, Laps, Reached, Late;
      rounds, stats := [], None;
      if mapX <= 0 || mapY <= 0 { Refused(mapX, mapY, valueSize, penSize); return BadArg, stats, rounds; }
      AcceptedIs(mapX, mapY, valueSize, penSize);
      if mapX * mapY * N_THETA * 2 > valueSize { return BufSize, stats, rounds; }
      if mapX * mapY * 2 > penSize { return BufSize, stats, rounds; }
      stats := Some(Stats(0, 0, false));
      ghost var net := p.Net();
      ghost var V0 := table;
      StartOfRun(p, V0);
      LapsNone(p, V0, late);
      var sweeps, lastDelta: U16 := 0, 0xFFFF;
      while sweeps < maxSweeps
        invariant sweeps == |rounds| <= Max0(maxSweeps) && table.Keys == p.States()
        invariant Laps(p, V0, table, late, rounds)
        invariant forall k :: 0 <= k < |rounds| ==> rounds[k].Delta() > threshold
        invariant lastDelta == if rounds == [] then 0xFFFF else rounds[|rounds| - 1].Delta()
        invariant Seeded(net, V0) ==> sweeps <= |net.free| && Bracketed(net, V0, table) && Progress(net, V0, table, sweeps)
        decreases maxSweeps - sweeps
      {
        ghost var B := table;
        if Seeded(net, V0) && sweeps >= |net.free| { SolveEnds(p, V0, B, sweeps); }
        LateIs(late, sweeps);
        var timeout := StartAndWait(p, late(sweeps, 0), late(sweeps, 1));
        if Seeded(net, V0) { BracketedTransitive(net, V0, B, table); }
        if timeout { return IrqError, stats, rounds; }
        var d0, d1 := units[0].delta, units[1].delta;
        LapsNext(p, V0, B, table, units, late, rounds);
        rounds := rounds + [Lap(B, table, d0, d1)];
        lastDelta := if d0 > d1 then d0 else d1;
        if lastDelta <= threshold {
          if threshold == 0 && Seeded(net, V0) { SolveIsExact(p, V0, table, sweeps + 1); }
          return Ok, Some(Stats(sweeps + 1, lastDelta, true)), rounds;
        }
        sweeps := sweeps + 1;
      }
      return NotConverged, Some(Stats(sweeps, lastDelta, false)), rounds;
    }
  }

  function Max0(n: int): nat { if n < 0 then 0 else n }

  lemma LateIs(late: Clock, k: nat)
    ensures Late(late, k) <==> late(k, 0) || late(k, 1)
  {
  }

  lemma LapsNone(p: Problem, V: Table, late: Clock)
    requires p.Valid()
    ensures Laps(p, V, V, late, [])
  {
  }

  lemma LapsNext(p: Problem, V: Table, B: Table, T: Table, u: seq<CU>, late: Clock, rounds: seq<Lap>)
    requires p.Valid() && Laps(p, V, B, late, rounds) && Reached(p, B, T, u, true) && |u| == 2 && !Late(late, |rounds|)
    ensures Laps(p, V, T, late, rounds + [Lap(B, T, u[0].delta, u[1].delta)])
  {
    hide Reached, Late;
    assert IsLap(p, Lap(B, T, u[0].delta, u[1].delta));
  }

  // The value buffer holds 60 words of two bytes for every cell, the penalty buffer one.
  lemma AcceptedIs(mapX: int, mapY: int, valueSize: nat, penSize: nat)
    ensures Accepted(mapX, mapY, valueSize, penSize) <==>
      mapX > 0 && mapY > 0 && mapX * mapY * N_THETA * 2 <= valueSize && mapX * mapY * 2 <= penSize
    ensures Accepted(mapX, mapY, valueSize, penSize) <==>
      mapX > 0 && mapY > 0 && mapX * mapY * 60 <= valueSize / 2 && mapX * mapY <= penSize / 2
  {
  }

  lemma Refused(mapX: int, mapY: int, valueSize: nat, penSize: nat)
    requires mapX <= 0 || mapY <= 0
    ensures !Accepted(mapX, mapY, valueSize, penSize)
  {
  }

  // What a schedule of a round gives, from any table and for any solve.
  lemma RoundOutcome(net: Net, plan: seq<seq<Job>>, B: Table, schedule: seq<nat>)
    requires PlanOk(net, plan) && B.Keys == net.states && forall i :: 0 <= i < |schedule| ==> schedule[i] < 2
    ensures var sys := Exec(net, plan, Start(B), schedule);
      && sys.V.Keys == net.states
      && (Barrier(plan, sys) ==>
            && (sys.units[0].delta == 0 && sys.units[1].delta == 0 <==> Fixed(net, B))
            && (Fixed(net, B) ==> sys.V == B))
      && forall V0: Table, k: nat :: V0.Keys == net.states && Progress(net, V0, B, k) ==>
           Bracketed(net, B, sys.V) && (Barrier(plan, sys) ==> Progress(net, V0, sys.V, k + 1))
  {
    hide Exec, Progress, Fixed, Barrier, Leq, Rising;
    Certificate(net, plan, B, schedule);
    var sys := Exec(net, plan, Start(B), schedule);
    forall V0: Table, k: nat | V0.Keys == net.states && Progress(net, V0, B, k)
      ensures Bracketed(net, B, sys.V) && (Barrier(plan, sys) ==> Progress(net, V0, sys.V, k + 1))
    {
      Round(net, plan, V0, B, k, schedule);
    }
  }

  lemma StartOfRun(p: Problem, V0: Table)
    requires p.Valid()
    ensures p.Net().states == p.States() && Bracketed(p.Net(), V0, V0)
    ensures Seeded(p.Net(), V0) ==> Progress(p.Net(), V0, V0, 0)
  {
    hide Progress;
    p.NetValid();
    if Seeded(p.Net(), V0) { ProgressStarts(p.Net(), V0); }
  }

  lemma SolveEnds(p: Problem, V0: Table, V: Table, k: nat)
    requires p.Valid() && Progress(p.Net(), V0, V, k) && k >= |p.Net().free|
    ensures Fixed(p.Net(), V)
  {
    hide Progress;
    p.NetValid();
    ProgressEnds(p.Net(), V0, V, k);
  }

  lemma SolveIsExact(p: Problem, V0: Table, V: Table, k: nat)
    requires p.Valid() && Seeded(p.Net(), V0) && Progress(p.Net(), V0, V, k) && Fixed(p.Net(), V)
    ensures ShortestPaths(p.Net(), V0, V)
  {
    p.NetValid();
    FixedIsShortestPaths(p.Net(), V0, V);
  }

  lemma BracketedTransitive(net: Net, U: Table, V: Table, W: Table)
    requires Bracketed(net, U, V) && Bracketed(net, V, W)
    ensures Bracketed(net, U, W)
  {
  }

  lemma PlanShape(net: Net, plan: seq<seq<Job>>)
    requires PlanOk(net, plan)
    ensures |plan| == 2 && net.Valid()
  {
  }
}
