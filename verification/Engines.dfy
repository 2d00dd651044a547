// All engines come to rest at the same table: the reference, the mock device
// or tile kernel run unit after unit, the stream kernel run unit after unit.
// (The two tile units running concurrently are in Driver.)
module Engines {
  import opened Bellman
  import opened Contract
  import opened Paths
  import opened Reference
  import opened Mock
  import opened Hls
  import TileKernel
  import opened StreamLoop
  import opened StreamExact
  import opened StreamKernel

  // ------------------------------------------------------------ coverage

  lemma {:induction false} StripOrderMembers(p: Problem, cu: int, x0: int, w: nat, n: nat, s: State)
    requires n <= p.h
    ensures s in StripOrder(p, cu, x0, w, n) <==>
      x0 <= s.x < x0 + w && 0 <= s.t < N_THETA && (if cu == 0 then 0 <= s.y < n else p.h - n <= s.y < p.h)
  {
    if n > 0 {
      StripOrderMembers(p, cu, x0, w, n - 1, s);
      DirRowMembers(cu, RowOf(p, cu, n - 1), x0, w, w, s);
    }
  }

  lemma StripSpan(x: int, k: int)
    ensures x / STRIP == k <==> k * STRIP <= x < k * STRIP + STRIP
  {
  }

  // The first n strips of a unit hold exactly the map states of those columns.
  lemma {:induction false} StreamOrderMembers(p: Problem, cu: int, n: nat, s: State)
    requires n <= NumStrips(p)
    ensures s in StreamOrder(p, cu, n) <==> InColumns(p, cu, n, s)
  {
    hide StripOrder;
    if n > 0 {
      StreamOrderMembers(p, cu, n - 1, s);
      var sx := StripAt(p, cu, n - 1);
      WidthPositive(p, sx);
      StripOrderMembers(p, cu, sx * STRIP, StripWidth(p, sx), p.h, s);
      StripSpan(s.x, sx);
    }
  }

  ghost predicate InColumns(p: Problem, cu: int, n: nat, s: State) {
    && p.InMap(s.x, s.y) && 0 <= s.t < N_THETA
    && if cu == 0 then s.x / STRIP < n else NumStrips(p) - n <= s.x / STRIP
  }

  function Half(p: Problem): (n: nat)
    ensures n <= NumStrips(p)
  {
    (NumStrips(p) + 1) / 2
  }

  // The order of unit 0 followed by unit 1.
  function StreamBoth(p: Problem): seq<State> { StreamOrder(p, 0, Half(p)) + StreamOrder(p, 1, Half(p)) }

  // The two units together visit every map state, and both visit a state
  // exactly when the number of strips is odd and it lies in the middle one.
  lemma StreamCovers(p: Problem, s: State)
    requires p.InMap(s.x, s.y) && 0 <= s.t < N_THETA
    ensures s in StreamBoth(p)
    ensures s in StreamOrder(p, 0, Half(p)) && s in StreamOrder(p, 1, Half(p))
       <==> NumStrips(p) % 2 == 1 && s.x / STRIP == NumStrips(p) / 2
  {
    hide StreamOrder;
    StreamOrderMembers(p, 0, Half(p), s);
    StreamOrderMembers(p, 1, Half(p), s);
    StripSpan(s.x, s.x / STRIP);
    assert s.x < p.w <= NumStrips(p) * STRIP;
  }

  function TilesBoth(p: Problem): seq<State> {
    TileOrder(p, 0, NumTiles(p.w), NumTiles(p.h)) + TileOrder(p, 1, NumTiles(p.w), NumTiles(p.h))
  }

  // The two halves of the checkerboard partition the map.
  lemma TilesCoverOnce(p: Problem, s: State)
    requires p.InMap(s.x, s.y) && 0 <= s.t < N_THETA
    ensures s in TilesBoth(p)
    ensures !(s in TileOrder(p, 0, NumTiles(p.w), NumTiles(p.h)) && s in TileOrder(p, 1, NumTiles(p.w), NumTiles(p.h)))
  {
    hide TileOrder;
    TileOrderMembers(p, 0, NumTiles(p.w), NumTiles(p.h), s);
    TileOrderMembers(p, 1, NumTiles(p.w), NumTiles(p.h), s);
    assert p.w <= NumTiles(p.w) * TILE && p.h <= NumTiles(p.h) * TILE;
  }

  lemma BothCover(p: Problem)
    requires p.Valid()
    ensures forall s :: s in p.Net().free ==> s in StreamBoth(p) && s in TilesBoth(p)
  {
    hide StreamBoth, TilesBoth;
    forall s | s in p.Net().free
      ensures s in StreamBoth(p) && s in TilesBoth(p)
    {
      StreamCovers(p, s);
      TilesCoverOnce(p, s);
    }
  }

  // ------------------------------------------------------------ runs to rest

  // What a run of covering sweeps with threshold 0 promises.
  ghost predicate RanToRest(net: Net, V0: Table, V: Table, o: seq<State>, sweeps: int, maxSweeps: int) {
    && (if maxSweeps < 0 then sweeps == 0 else 0 <= sweeps <= maxSweeps)
    && V == AfterSweeps(net, V0, o, sweeps)
    && (forall k :: 0 <= k < sweeps - 1 ==> SweepDelta(net, V0, o, k) > 0)
    && (sweeps < maxSweeps ==> sweeps > 0 && SweepDelta(net, V0, o, sweeps - 1) == 0 && Fixed(net, V))
    && (Seeded(net, V0) && maxSweeps > |net.free| ==> sweeps <= |net.free| + 1 && ShortestPaths(net, V0, V))
  }

  // The state of such a run after `sweeps` sweeps that all changed something.
  ghost predicate Sweeping(net: Net, V0: Table, V: Table, o: seq<State>, sweeps: int, maxSweeps: int) {
    && (if maxSweeps < 0 then sweeps == 0 else 0 <= sweeps <= maxSweeps)
    && V == AfterSweeps(net, V0, o, sweeps)
    && (forall k :: 0 <= k < sweeps ==> SweepDelta(net, V0, o, k) > 0)
    && (Seeded(net, V0) ==> 0 <= sweeps <= |net.free| && Progress(net, V0, V, sweeps))
  }

  lemma SweepingStarts(p: Problem, V0: Table, o: seq<State>, maxSweeps: int)
    requires p.Valid() && V0.Keys == p.States()
    ensures Sweeping(p.Net(), V0, V0, o, 0, maxSweeps)
  {
    hide Progress;
    p.NetValid();
    if Seeded(p.Net(), V0) { ProgressStarts(p.Net(), V0); }
  }

  lemma SweepingStep(p: Problem, V0: Table, V: Table, o: seq<State>, sweeps: int, maxSweeps: int)
    requires p.Valid() && V0.Keys == p.States() == V.Keys && sweeps < maxSweeps
    requires Sweeping(p.Net(), V0, V, o, sweeps, maxSweeps)
    requires forall s :: s in p.Net().free ==> s in o
    ensures RunDelta(p.Net(), V, o) == 0 ==> RanToRest(p.Net(), V0, Run(p.Net(), V, o), o, sweeps + 1, maxSweeps)
    ensures RunDelta(p.Net(), V, o) != 0 ==> Sweeping(p.Net(), V0, Run(p.Net(), V, o), o, sweeps + 1, maxSweeps)
  {
    hide Progress, Seeded, ShortestPaths, Fixed, Run, RunDelta, AfterSweeps, SweepDelta;
    p.NetValid();
    OneMoreSweep(p.Net(), V0, o, sweeps);
    SweepOutcome(p.Net(), V0, V, sweeps, o);
  }

  lemma SweepingEnds(net: Net, V0: Table, V: Table, o: seq<State>, sweeps: int, maxSweeps: int)
    requires Sweeping(net, V0, V, o, sweeps, maxSweeps) && sweeps >= maxSweeps
    ensures RanToRest(net, V0, V, o, sweeps, maxSweeps)
  {
    hide Progress, Seeded, ShortestPaths;
  }

  method StreamSweep(value: array<U16>, p: Problem) returns (maxDelta: U16)
    requires p.Valid() && value.Length >= p.Size() && StreamSafe(p, p.Tab(value[..]))
    modifies value
    ensures p.Tab(value[..]) == Run(p.Net(), old(p.Tab(value[..])), StreamBoth(p))
    ensures maxDelta == RunDelta(p.Net(), old(p.Tab(value[..])), StreamBoth(p))
  {
    hide Problem.Tab, Problem.Net, Run, RunDelta, StreamOrder, KernelTrans, Timely, Settling;
    RunAppend(p.Net(), p.Tab(value[..]), StreamOrder(p, 0, Half(p)), StreamOrder(p, 1, Half(p)));
    SafeStays(p, p.Tab(value[..]), StreamOrder(p, 0, Half(p)));
    var d0 := ViSweepStream(value, p, 0);
    var d1 := ViSweepStream(value, p, 1);
    maxDelta := if d0 > d1 then d0 else d1;
  }

  method TileSweep(value: array<U16>, p: Problem) returns (lastDelta: U16)
    requires p.Valid() && KernelTrans(p) && value.Length >= p.Size()
    modifies value
    ensures p.Tab(value[..]) == Run(p.Net(), old(p.Tab(value[..])), TilesBoth(p))
    ensures lastDelta == RunDelta(p.Net(), old(p.Tab(value[..])), TilesBoth(p))
  {
    hide Problem.Tab, Problem.Net, Run, RunDelta, TileOrder, KernelTrans;
    var ntx, nty := (p.w + TILE - 1) / TILE, (p.h + TILE - 1) / TILE;
    RunAppend(p.Net(), p.Tab(value[..]), TileOrder(p, 0, ntx, nty), TileOrder(p, 1, ntx, nty));
    var d0 := TileKernel.ViSweep(value, p, ntx, nty, 0);
    var d1 := TileKernel.ViSweep(value, p, ntx, nty, 1);
    lastDelta := if d0 > d1 then d0 else d1;
  }

  // The stream testbench loop: unit 0, then unit 1, until neither changes anything.
  method StreamRun(value: array<U16>, p: Problem, maxSweeps: int) returns (sweeps: int)
    requires p.Valid() && value.Length >= p.Size() && StreamSafe(p, p.Tab(value[..]))
    modifies value
    ensures RanToRest(p.Net(), old(p.Tab(value[..])), p.Tab(value[..]), StreamBoth(p), sweeps, maxSweeps)
  {
    hide Problem.Tab, Problem.Net, StreamSafe, StreamBoth, Run, RunDelta, RanToRest, Sweeping;
    ghost var V0 := p.Tab(value[..]);
    ghost var net := p.Net();
    BothCover(p);
    SweepingStarts(p, V0, StreamBoth(p), maxSweeps);
    sweeps := 0;
    while sweeps < maxSweeps
      invariant 0 <= sweeps
      invariant Sweeping(net, V0, p.Tab(value[..]), StreamBoth(p), sweeps, maxSweeps)
      invariant StreamSafe(p, p.Tab(value[..]))
    {
      SafeStays(p, p.Tab(value[..]), StreamBoth(p));
      SweepingStep(p, V0, p.Tab(value[..]), StreamBoth(p), sweeps, maxSweeps);
      var maxDelta := StreamSweep(value, p);
      if maxDelta == 0 {
        return sweeps + 1;
      }
      sweeps := sweeps + 1;
    }
    SweepingEnds(net, V0, p.Tab(value[..]), StreamBoth(p), sweeps, maxSweeps);
  }

  // The driver loop on a device that sweeps synchronously: the tile kernel (or
  // the mock device, whose contract is the same) as unit 0, then as unit 1.
  method TileRun(value: array<U16>, p: Problem, maxSweeps: int) returns (sweeps: int)
    requires p.Valid() && KernelTrans(p) && value.Length >= p.Size()
    modifies value
    ensures RanToRest(p.Net(), old(p.Tab(value[..])), p.Tab(value[..]), TilesBoth(p), sweeps, maxSweeps)
  {
    hide Problem.Tab, Problem.Net, KernelTrans, TilesBoth, Run, RunDelta, RanToRest, Sweeping;
    ghost var V0 := p.Tab(value[..]);
    ghost var net := p.Net();
    BothCover(p);
    SweepingStarts(p, V0, TilesBoth(p), maxSweeps);
    sweeps := 0;
    while sweeps < maxSweeps
      invariant 0 <= sweeps
      invariant Sweeping(net, V0, p.Tab(value[..]), TilesBoth(p), sweeps, maxSweeps)
    {
      SweepingStep(p, V0, p.Tab(value[..]), TilesBoth(p), sweeps, maxSweeps);
      var maxDelta := TileSweep(value, p);
      if maxDelta == 0 {
        return sweeps + 1;
      }
      sweeps := sweeps + 1;
    }
    SweepingEnds(net, V0, p.Tab(value[..]), TilesBoth(p), sweeps, maxSweeps);
  }

  // Two engines that came to rest on the same settling table agree.
  lemma RestAgrees(p: Problem, V0: Table, V: Table, o: seq<State>, m: int, W: Table, o': seq<State>, n: int)
    requires p.Valid() && V0.Keys == p.States() && Settling(p.Net(), V0)
    requires V == AfterSweeps(p.Net(), V0, o, m) && Fixed(p.Net(), V)
    requires W == AfterSweeps(p.Net(), V0, o', n) && Fixed(p.Net(), W)
    ensures V == W
  {
    hide AfterSweeps, Fixed, Settling, Run;
    var x := AfterSweepsIsRun(p.Net(), V0, o, m);
    var y := AfterSweepsIsRun(p.Net(), V0, o', n);
    OrderIndependence(p.Net(), V0, x, y);
  }

  // The comparison the testbenches make, on every map and with tolerance 0:
  // the reference, the tile kernel and the stream kernel agree on every state,
  // from goal seeds and from any other table no update can raise.
  method CrossCheck(ref: array<U16>, tile: array<U16>, stream: array<U16>, p: Problem, maxSweeps: int)
    returns (n0: int, n1: int, n2: int)
    requires p.Valid() && KernelTrans(p)
    requires ref.Length >= p.Size() && tile.Length >= p.Size() && stream.Length >= p.Size()
    requires ref != tile && ref != stream && tile != stream
    requires p.Tab(ref[..]) == p.Tab(tile[..]) == p.Tab(stream[..]) && Settling(p.Net(), p.Tab(ref[..]))
    modifies ref, tile, stream
    ensures n0 < maxSweeps && n1 < maxSweeps && n2 < maxSweeps ==> p.Tab(ref[..]) == p.Tab(tile[..]) == p.Tab(stream[..])
    ensures Seeded(p.Net(), old(p.Tab(ref[..]))) && maxSweeps > |p.Net().free| ==>
      && p.Tab(ref[..]) == p.Tab(tile[..]) == p.Tab(stream[..])
      && ShortestPaths(p.Net(), old(p.Tab(ref[..])), p.Tab(ref[..]))
  {
    hide Problem.Tab, Seeded, Settling, Fixed, ShortestPaths, TilesBoth, StreamBoth, MapOrder, AfterSweeps;
    ghost var V0 := p.Tab(ref[..]);
    ghost var net := p.Net();
    n0 := ReferenceRun(ref, p, 0, maxSweeps);
    assert p.Tab(tile[..]) == V0;
    n1 := TileRun(tile, p, maxSweeps);
    assert p.Tab(stream[..]) == V0;
    n2 := StreamRun(stream, p, maxSweeps);
    if n0 < maxSweeps && n1 < maxSweeps && n2 < maxSweeps {
      RestAgrees(p, V0, p.Tab(ref[..]), MapOrder(p), n0, p.Tab(tile[..]), TilesBoth(p), n1);
      RestAgrees(p, V0, p.Tab(ref[..]), MapOrder(p), n0, p.Tab(stream[..]), StreamBoth(p), n2);
    }
    if Seeded(net, V0) && maxSweeps > |net.free| {
      ShortestPathsUnique(net, V0, p.Tab(ref[..]), p.Tab(tile[..]));
      ShortestPathsUnique(net, V0, p.Tab(ref[..]), p.Tab(stream[..]));
    }
  }
}
