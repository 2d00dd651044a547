// The host reference: in-place update of one cell, and Gauss-Seidel sweeps.
module Reference {
  import opened Bellman
  import opened Contract
  import opened Paths

  // The cost of one action of one state; 0xFFFF when the action is skipped.
  method ActionCost(value: array<U16>, p: Problem, x: int, y: int, it: nat, a: nat) returns (c: U16)
    requires p.Valid() && value.Length >= p.Size()
    requires p.InMap(x, y) && it < N_THETA && a < N_ACTIONS
    ensures c == Cand(p.MoveAt(State(x, y, it), a), p.Tab(value[..]))
  {
    var d := p.DeltaAt(a, it);
    var nx, ny, nt := x + d.dix, y + d.diy, it + d.dit;
    if nt < 0 { nt := nt + N_THETA; }
    if nt >= N_THETA { nt := nt - N_THETA; }
    if nx < 0 || nx >= p.w || ny < 0 || ny >= p.h { return 0xFFFF; }
    p.CellBound(nx, ny);
    p.IdxBound(nx, ny, nt);
    var nv := value[p.Idx(nx, ny, nt)];
    assert p.Tab(value[..])[State(nx, ny, nt)] == nv;
    var npRaw := p.pen[ny * p.w + nx];
    if nv == 0xFFFF || npRaw == 0xFFFF { return 0xFFFF; }
    var np := if npRaw == 0xFFFE then 0 else npRaw;
    var s: U32 := nv as int + np;
    c := if s >= 0xFFFF then 0xFFFE else s;
  }

  // The running minimum over the actions of one state.
  method BestAction(value: array<U16>, p: Problem, x: int, y: int, it: nat) returns (best: U16)
    requires p.Valid() && value.Length >= p.Size()
    requires p.InMap(x, y) && it < N_THETA && p.PenAt(x, y) < PENALTY_GOAL
    ensures best == Bell(p.Net(), p.Tab(value[..]), State(x, y, it))
  {
    hide Cand, Problem.MoveAt, Problem.Tab, Unpack;
    best := 0xFFFF;
    ghost var V := p.Tab(value[..]);
    ghost var ms := p.MovesAt(State(x, y, it));
    for a := 0 to N_ACTIONS
      invariant best == Best(ms[..a], V)
    {
      assert ms[..a + 1][..a] == ms[..a];
      var c := ActionCost(value, p, x, y, it, a);
      if c < best { best := c; }
    }
    assert ms[..N_ACTIONS] == ms;
    assert State(x, y, it) in p.Free();
  }

  // Update one cell over all theta in place; `maxDelta` is the largest change.
  method BellmanCell(value: array<U16>, p: Problem, x: int, y: int) returns (maxDelta: U16)
    requires p.Valid() && value.Length >= p.Size() && p.InMap(x, y)
    modifies value
    ensures p.Tab(value[..]) == Run(p.Net(), old(p.Tab(value[..])), Thetas(x, y, N_THETA))
    ensures maxDelta == RunDelta(p.Net(), old(p.Tab(value[..])), Thetas(x, y, N_THETA))
  {
    p.CellBound(x, y);
    ghost var V0 := p.Tab(value[..]);
    ghost var net := p.Net();
    if p.pen[y * p.w + x] >= 0xFFFE {
      PinnedCell(net, V0, Thetas(x, y, N_THETA));
      return 0;
    }
    maxDelta := 0;
    for it := 0 to N_THETA
      invariant p.Tab(value[..]) == Run(net, V0, Thetas(x, y, it))
      invariant maxDelta == RunDelta(net, V0, Thetas(x, y, it))
    {
      p.IdxBound(x, y, it);
      var idx := p.Idx(x, y, it);
      ghost var s := State(x, y, it);
      var prev := value[idx];
      var best := BestAction(value, p, x, y, it);
      WriteWord(value, p, idx, best, s);
      var d := if best > prev then best - prev else prev - best;
      ThetasSnoc(x, y, it);
      RunSnoc(net, V0, Thetas(x, y, it), s);
      if d > maxDelta { maxDelta := d; }
    }
  }

  // Goal and obstacle states are never changed.
  lemma {:induction false} PinnedCell(net: Net, V: Table, order: seq<State>)
    requires forall s :: s in order ==> s !in net.free
    ensures Run(net, V, order) == V && RunDelta(net, V, order) == 0
  {
    if |order| > 0 {
      PinnedCell(net, V, order[..|order| - 1]);
    }
  }

  // Cells (x0, y) .. (x1 - 1, y) in increasing x.
  method SweepRow(value: array<U16>, p: Problem, y: int, x0: int, x1: int) returns (maxDelta: U16)
    requires p.Valid() && value.Length >= p.Size() && 0 <= y < p.h && 0 <= x0 && x1 <= p.w
    modifies value
    ensures p.Tab(value[..]) == Run(p.Net(), old(p.Tab(value[..])), RowOrder(y, x0, x1))
    ensures maxDelta == RunDelta(p.Net(), old(p.Tab(value[..])), RowOrder(y, x0, x1))
  {
    hide Thetas, Run, RunDelta, Problem.Tab;
    maxDelta := 0;
    ghost var V0 := p.Tab(value[..]);
    ghost var net := p.Net();
    RunNone(net, V0);
    if x1 <= x0 { return; }
    for x := x0 to x1
      invariant p.Tab(value[..]) == Run(net, V0, RowOrder(y, x0, x))
      invariant maxDelta == RunDelta(net, V0, RowOrder(y, x0, x))
    {
      RunAppend(net, V0, RowOrder(y, x0, x), Thetas(x, y, N_THETA));
      var d := BellmanCell(value, p, x, y);
      if d > maxDelta { maxDelta := d; }
    }
  }

  // The cells of a block, row by row.
  method SweepBlock(value: array<U16>, p: Problem, x0: int, x1: int, y0: int, y1: int) returns (maxDelta: U16)
    requires p.Valid() && value.Length >= p.Size() && 0 <= y0 && y1 <= p.h && 0 <= x0 && x1 <= p.w
    modifies value
    ensures p.Tab(value[..]) == Run(p.Net(), old(p.Tab(value[..])), BlockOrder(x0, x1, y0, y1))
    ensures maxDelta == RunDelta(p.Net(), old(p.Tab(value[..])), BlockOrder(x0, x1, y0, y1))
  {
    hide RowOrder, Run, RunDelta, Problem.Tab;
    maxDelta := 0;
    ghost var V0 := p.Tab(value[..]);
    ghost var net := p.Net();
    RunNone(net, V0);
    if y1 <= y0 { return; }
    for y := y0 to y1
      invariant p.Tab(value[..]) == Run(net, V0, BlockOrder(x0, x1, y0, y))
      invariant maxDelta == RunDelta(net, V0, BlockOrder(x0, x1, y0, y))
    {
      RunAppend(net, V0, BlockOrder(x0, x1, y0, y), RowOrder(y, x0, x1));
      var d := SweepRow(value, p, y, x0, x1);
      if d > maxDelta { maxDelta := d; }
    }
  }

  // The table after n sweeps in the given order (none when n is not positive).
  ghost function AfterSweeps(net: Net, V: Table, o: seq<State>, n: int): Table
    decreases n
  {
    if n <= 0 then V else Run(net, AfterSweeps(net, V, o, n - 1), o)
  }

  // Sweeping n times is one long run, so everything proved of runs applies.
  lemma {:induction false} AfterSweepsIsRun(net: Net, V: Table, o: seq<State>, n: int) returns (all: seq<State>)
    ensures AfterSweeps(net, V, o, n) == Run(net, V, all)
    ensures |all| == (if n <= 0 then 0 else n) * |o|
    decreases n
  {
    if n <= 0 {
      all := [];
    } else {
      var before := AfterSweepsIsRun(net, V, o, n - 1);
      RunAppend(net, V, before, o);
      all := before + o;
      assert (n - 1) * |o| + |o| == n * |o|;
    }
  }

  // The largest change of sweep k (counted from 0) of repeated sweeps.
  ghost function SweepDelta(net: Net, V: Table, o: seq<State>, k: int): U16 { RunDelta(net, AfterSweeps(net, V, o, k), o) }

  lemma NoSweeps(net: Net, V: Table, o: seq<State>, n: int)
    requires n <= 0
    ensures AfterSweeps(net, V, o, n) == V
  {
  }

  lemma OneMoreSweep(net: Net, V: Table, o: seq<State>, k: nat)
    ensures AfterSweeps(net, V, o, k + 1) == Run(net, AfterSweeps(net, V, o, k), o)
    ensures SweepDelta(net, V, o, k) == RunDelta(net, AfterSweeps(net, V, o, k), o)
  {
  }

  ghost function MapOrder(p: Problem): seq<State> { BlockOrder(0, p.w, 0, p.h) }

  lemma MapOrderCovers(p: Problem)
    requires p.Valid()
    ensures forall s :: s in p.Net().free ==> s in MapOrder(p)
  {
    forall s | s in p.Net().free
      ensures s in MapOrder(p)
    {
      BlockOrderMembers(0, p.w, 0, p.h, s);
    }
  }

  // Gauss-Seidel sweeps until the largest change is at most `threshold`.
  method ReferenceRun(value: array<U16>, p: Problem, threshold: U16, maxSweeps: int) returns (sweeps: int)
    requires p.Valid() && value.Length >= p.Size()
    modifies value
    ensures if maxSweeps < 0 then sweeps == maxSweeps else 0 <= sweeps <= maxSweeps
    ensures p.Tab(value[..]) == AfterSweeps(p.Net(), old(p.Tab(value[..])), MapOrder(p), sweeps)
    // It stops after the first sweep that changes at most the threshold.
    ensures forall k :: 0 <= k < sweeps - 1 ==> SweepDelta(p.Net(), old(p.Tab(value[..])), MapOrder(p), k) > threshold
    ensures sweeps < maxSweeps ==>
      sweeps > 0 && SweepDelta(p.Net(), old(p.Tab(value[..])), MapOrder(p), sweeps - 1) <= threshold
    // A run that stopped early with threshold 0 left an exact fixed point.
    ensures threshold == 0 && sweeps < maxSweeps ==> Fixed(p.Net(), p.Tab(value[..]))
    // From a seeded table it always stops early: one sweep more than there are free states.
    ensures Seeded(p.Net(), old(p.Tab(value[..]))) && maxSweeps > |p.Net().free| ==>
      sweeps <= |p.Net().free| + 1
      && (threshold == 0 ==> ShortestPaths(p.Net(), old(p.Tab(value[..])), p.Tab(value[..])))
  {
    hide Problem.Tab, Problem.Net, Seeded, Progress, Fixed, Run, RunDelta, ShortestPaths, BlockOrder, AfterSweeps, SweepDelta;
    ghost var V0 := p.Tab(value[..]);
    ghost var net := p.Net();
    ghost var o := MapOrder(p);
    p.NetValid();
    MapOrderCovers(p);
    if Seeded(net, V0) { ProgressStarts(net, V0); }
    NoSweeps(net, V0, o, 0);
    if maxSweeps < 0 { NoSweeps(net, V0, o, maxSweeps); }
    var sweep := 0;
    while sweep < maxSweeps
      invariant 0 <= sweep && (if 0 <= maxSweeps then sweep <= maxSweeps else sweep == 0)
      invariant p.Tab(value[..]) == AfterSweeps(net, V0, o, sweep)
      invariant forall k :: 0 <= k < sweep ==> SweepDelta(net, V0, o, k) > threshold
      invariant Seeded(net, V0) ==> sweep <= |net.free| && Progress(net, V0, p.Tab(value[..]), sweep)
    {
      ghost var V := p.Tab(value[..]);
      SweepOutcome(net, V0, V, sweep, o);
      OneMoreSweep(net, V0, o, sweep);
      var maxDelta := SweepBlock(value, p, 0, p.w, 0, p.h);
      if maxDelta <= threshold {
        return sweep + 1;
      }
      sweep := sweep + 1;
    }
    return maxSweeps;
  }

  // One covering sweep: a zero delta certifies a fixed point, and after |free|
  // rounds from a seeded table the delta is zero.
  lemma SweepOutcome(net: Net, V0: Table, V: Table, k: nat, o: seq<State>)
    requires net.Valid() && V.Keys == net.states
    requires forall s :: s in net.free ==> s in o
    ensures RunDelta(net, V, o) == 0 ==> Run(net, V, o) == V && Fixed(net, V)
    ensures Seeded(net, V0) && Progress(net, V0, V, k) ==> Progress(net, V0, Run(net, V, o), k + 1)
    ensures Seeded(net, V0) && Progress(net, V0, V, k) && k >= |net.free| ==> RunDelta(net, V, o) == 0
    ensures Seeded(net, V0) && Progress(net, V0, V, k) && Fixed(net, V) ==> ShortestPaths(net, V0, V)
  {
    if RunDelta(net, V, o) == 0 {
      ZeroDeltaCertifies(net, V, o);
    }
    if Seeded(net, V0) && Progress(net, V0, V, k) {
      ProgressSweep(net, V0, V, k, o);
      if k >= |net.free| {
        ProgressEnds(net, V0, V, k);
        FixedStays(net, V, o);
      }
      if Fixed(net, V) {
        FixedIsShortestPaths(net, V0, V);
      }
    }
  }
}
