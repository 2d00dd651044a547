// The mock device: one compute unit sweeps its half of a checkerboard of
// 32 x 32 tiles directly in the shared table.
module Mock {
  import opened Bellman
  import opened Contract
  import opened Reference

  const TILE: int := 32

  function Clip(a: int, b: int): int { if a > b then b else a }

  // The cells of tile (tx, ty), cut off at the map border.
  function TileBlock(p: Problem, tx: int, ty: int): seq<State> {
    BlockOrder(tx * TILE, Clip(tx * TILE + TILE, p.w), ty * TILE, Clip(ty * TILE + TILE, p.h))
  }

  // The first n tiles of tile row ty that belong to unit cu.
  function TileRow(p: Problem, cu: int, ty: int, n: nat): seq<State> {
    if n == 0 then []
    else TileRow(p, cu, ty, n - 1) + (if (n - 1 + ty) % 2 == cu then TileBlock(p, n - 1, ty) else [])
  }

  // The visiting order of unit cu over the first n tile rows.
  function TileOrder(p: Problem, cu: int, ntx: nat, n: nat): seq<State> {
    if n == 0 then [] else TileOrder(p, cu, ntx, n - 1) + TileRow(p, cu, n - 1, ntx)
  }

  function NumTiles(len: nat): nat { (len + TILE - 1) / TILE }

  method MockRow(value: array<U16>, p: Problem, ntx: nat, ty: nat, cu: int) returns (localMax: U16)
    requires p.Valid() && value.Length >= p.Size()
    modifies value
    ensures p.Tab(value[..]) == Run(p.Net(), old(p.Tab(value[..])), TileRow(p, cu, ty, ntx))
    ensures localMax == RunDelta(p.Net(), old(p.Tab(value[..])), TileRow(p, cu, ty, ntx))
  {
    hide BlockOrder, Run, RunDelta, Problem.Tab;
    localMax := 0;
    ghost var V0 := p.Tab(value[..]);
    ghost var net := p.Net();
    RunNone(net, V0);
    for tx := 0 to ntx
      invariant p.Tab(value[..]) == Run(net, V0, TileRow(p, cu, ty, tx))
      invariant localMax == RunDelta(net, V0, TileRow(p, cu, ty, tx))
    {
      if (tx + ty) % 2 != cu {
        assert TileRow(p, cu, ty, tx + 1) == TileRow(p, cu, ty, tx);
        continue;
      }
      RunAppend(net, V0, TileRow(p, cu, ty, tx), TileBlock(p, tx, ty));
      var y0 := ty * TILE;
      var y1 := y0 + TILE;
      if y1 > p.h { y1 := p.h; }
      var x0 := tx * TILE;
      var x1 := x0 + TILE;
      if x1 > p.w { x1 := p.w; }
      var d := SweepBlock(value, p, x0, x1, y0, y1);
      if d > localMax { localMax := d; }
    }
  }

  method MockRunSweep(value: array<U16>, p: Problem, ntx: nat, nty: nat, cu: int) returns (localMax: U16)
    requires p.Valid() && value.Length >= p.Size()
    modifies value
    ensures p.Tab(value[..]) == Run(p.Net(), old(p.Tab(value[..])), TileOrder(p, cu, ntx, nty))
    ensures localMax == RunDelta(p.Net(), old(p.Tab(value[..])), TileOrder(p, cu, ntx, nty))
  {
    ghost var V0 := p.Tab(value[..]);
    ghost var net := p.Net();
    if p.w <= 0 || p.h <= 0 {
      NoCells(p, cu, ntx, nty);
      return 0;
    }
    hide TileRow, Run, RunDelta, Problem.Tab;
    RunNone(net, V0);
    localMax := 0;
    for ty := 0 to nty
      invariant p.Tab(value[..]) == Run(net, V0, TileOrder(p, cu, ntx, ty))
      invariant localMax == RunDelta(net, V0, TileOrder(p, cu, ntx, ty))
    {
      RunAppend(net, V0, TileOrder(p, cu, ntx, ty), TileRow(p, cu, ty, ntx));
      var d := MockRow(value, p, ntx, ty, cu);
      if d > localMax { localMax := d; }
    }
  }

  lemma {:induction false} NoCellsInRow(p: Problem, cu: int, ty: nat, n: nat)
    requires p.w == 0 || p.h == 0
    ensures TileRow(p, cu, ty, n) == []
  {
    if n > 0 {
      NoCellsInRow(p, cu, ty, n - 1);
      if TileBlock(p, n - 1, ty) != [] {
        var s := TileBlock(p, n - 1, ty)[0];
        BlockOrderMembers((n - 1) * TILE, Clip((n - 1) * TILE + TILE, p.w), ty * TILE, Clip(ty * TILE + TILE, p.h), s);
      }
    }
  }

  lemma {:induction false} NoCells(p: Problem, cu: int, ntx: nat, n: nat)
    requires p.w == 0 || p.h == 0
    ensures TileOrder(p, cu, ntx, n) == []
  {
    if n > 0 {
      NoCells(p, cu, ntx, n - 1);
      NoCellsInRow(p, cu, n - 1, ntx);
    }
  }

  // ------------------------------------------------------------ who owns what

  lemma TileSpan(x: int, k: int)
    ensures x / TILE == k <==> k * TILE <= x < k * TILE + TILE
  {
  }

  // Tile (tx, ty) belongs to unit cu.
  predicate Takes(cu: int, tx: int, ty: int) { (tx + ty) % 2 == cu }

  predicate OnMap(p: Problem, s: State) { 0 <= s.x < p.w && 0 <= s.y < p.h && 0 <= s.t < N_THETA }

  // Tile (qx, qy) is the one that holds s.
  ghost predicate OnTile(p: Problem, s: State, qx: int, qy: int) {
    forall k: nat, ty: nat :: s in TileBlock(p, k, ty) <==> OnMap(p, s) && qx == k && qy == ty
  }

  lemma TileMembers(p: Problem, s: State)
    ensures OnTile(p, s, s.x / TILE, s.y / TILE)
  {
    hide BlockOrder;
    forall k: nat, ty: nat
      ensures s in TileBlock(p, k, ty) <==> OnMap(p, s) && s.x / TILE == k && s.y / TILE == ty
    {
      TileSpan(s.x, k);
      TileSpan(s.y, ty);
      BlockOrderMembers(k * TILE, Clip(k * TILE + TILE, p.w), ty * TILE, Clip(ty * TILE + TILE, p.h), s);
    }
  }

  lemma TileRowSnoc(p: Problem, cu: int, ty: nat, n: nat, s: State)
    ensures s !in TileRow(p, cu, ty, 0)
    ensures n > 0 ==>
      (s in TileRow(p, cu, ty, n) <==> s in TileRow(p, cu, ty, n - 1) || (Takes(cu, n - 1, ty) && s in TileBlock(p, n - 1, ty)))
  {
    hide TileBlock;
  }

  lemma {:induction false} RowMembers(p: Problem, cu: int, ty: nat, n: nat, s: State, qx: nat, qy: int)
    requires OnTile(p, s, qx, qy)
    ensures s in TileRow(p, cu, ty, n) <==> OnMap(p, s) && qx < n && qy == ty && Takes(cu, qx, qy)
  {
    hide TileBlock, TileRow, Takes, OnMap;
    TileRowSnoc(p, cu, ty, n, s);
    if n > 0 {
      RowMembers(p, cu, ty, n - 1, s, qx, qy);
    }
  }

  lemma {:induction false} OrderMembers(p: Problem, cu: int, ntx: nat, n: nat, s: State, qx: nat, qy: nat)
    requires OnTile(p, s, qx, qy)
    ensures s in TileOrder(p, cu, ntx, n) <==> OnMap(p, s) && qx < ntx && qy < n && Takes(cu, qx, qy)
  {
    hide TileRow, Takes, OnMap, OnTile;
    if n > 0 {
      OrderMembers(p, cu, ntx, n - 1, s, qx, qy);
      RowMembers(p, cu, n - 1, ntx, s, qx, qy);
    }
  }

  // Outside the map no tile holds s.
  lemma Outside(p: Problem, s: State)
    requires !OnMap(p, s)
    ensures OnTile(p, s, 0, 0)
  {
    hide TileBlock;
    TileMembers(p, s);
  }

  // Unit cu visits exactly the map states of its own tiles.
  lemma TileOrderMembers(p: Problem, cu: int, ntx: nat, n: nat, s: State)
    ensures s in TileOrder(p, cu, ntx, n) <==>
      0 <= s.x < p.w && s.x / 32 < ntx && 0 <= s.y < p.h && s.y / 32 < n
      && 0 <= s.t < N_THETA && (s.x / 32 + s.y / 32) % 2 == cu
  {
    hide TileOrder, OnTile;
    if OnMap(p, s) {
      TileMembers(p, s);
      OrderMembers(p, cu, ntx, n, s, s.x / TILE, s.y / TILE);
    } else {
      Outside(p, s);
      OrderMembers(p, cu, ntx, n, s, 0, 0);
    }
  }
}
