// The tile kernel: load a tile with its halo into on-chip buffers, update it
// there in place, store the inner cells back.
module TileKernel {
  import opened Bellman
  import opened Contract
  import opened Hls
  import opened Mock

  const SIDE := TILE + 2 * HALO

  // Buffer cell (ly, lx) holds map cell (ox - HALO + lx, oy - HALO + ly), with
  // sentinels outside the map; this for the first `rows` buffer rows.
  ghost predicate Mirrors(val: array3<U16>, p: Problem, V: Table, ox: int, oy: int, rows: int)
    reads val
  {
    && val.Length0 == SIDE && val.Length1 == SIDE && val.Length2 == N_THETA
    && forall ly, lx, it :: 0 <= ly < rows && ly < SIDE && 0 <= lx < SIDE && 0 <= it < N_THETA ==>
         val[ly, lx, it] == ValAt(p, V, ox - HALO + lx, oy - HALO + ly, it)
  }

  ghost predicate PenMirrors(pen: array2<U16>, p: Problem, ox: int, oy: int, rows: int)
    requires p.Valid()
    reads pen
  {
    && pen.Length0 == SIDE && pen.Length1 == SIDE
    && forall ly, lx :: 0 <= ly < rows && ly < SIDE && 0 <= lx < SIDE ==>
         pen[ly, lx] == p.PenAt(ox - HALO + lx, oy - HALO + ly)
  }

  // ------------------------------------------------------------ load

  method FillValRow(val: array3<U16>, ly: int)
    requires val.Length0 == SIDE && val.Length1 == SIDE && val.Length2 == N_THETA && 0 <= ly < SIDE
    modifies val
    ensures forall lx, it :: 0 <= lx < SIDE && 0 <= it < N_THETA ==> val[ly, lx, it] == MAX_VALUE
    ensures forall r, c, t :: 0 <= r < SIDE && 0 <= c < SIDE && 0 <= t < N_THETA && r != ly ==>
      val[r, c, t] == old(val[r, c, t])
  {
    for lx := 0 to SIDE
      invariant forall c, t :: 0 <= c < lx && 0 <= t < N_THETA ==> val[ly, c, t] == MAX_VALUE
      invariant forall r, c, t :: 0 <= r < SIDE && 0 <= c < SIDE && 0 <= t < N_THETA && r != ly ==>
        val[r, c, t] == old(val[r, c, t])
    {
      for it := 0 to N_THETA
        invariant forall c, t :: 0 <= c < lx && 0 <= t < N_THETA ==> val[ly, c, t] == MAX_VALUE
        invariant forall t :: 0 <= t < it ==> val[ly, lx, t] == MAX_VALUE
        invariant forall r, c, t :: 0 <= r < SIDE && 0 <= c < SIDE && 0 <= t < N_THETA && r != ly ==>
          val[r, c, t] == old(val[r, c, t])
      {
        val[ly, lx, it] := MAX_VALUE;
      }
    }
  }

  // Copy the in-map cells gx0 .. gx0 + count - 1 of map row gy behind lxOff sentinels.
  method LoadValRow(value: array<U16>, p: Problem, val: array3<U16>, ly: int, gy: int, gx0: int, lxOff: int, count: int)
    requires p.Valid() && value.Length >= p.Size() && val.Length0 == SIDE && val.Length1 == SIDE && val.Length2 == N_THETA
    requires 0 <= ly < SIDE && 0 <= gy < p.h && 0 <= gx0 && 0 <= count && gx0 + count <= p.w
    requires 0 <= lxOff && lxOff + count <= SIDE
    modifies val
    ensures forall lx, it :: 0 <= lx < SIDE && 0 <= it < N_THETA ==>
      val[ly, lx, it] == if lxOff <= lx < lxOff + count
                         then ValAt(p, p.Tab(value[..]), gx0 + lx - lxOff, gy, it) else old(val[ly, lx, it])
    ensures forall r, c, t :: 0 <= r < SIDE && 0 <= c < SIDE && 0 <= t < N_THETA && r != ly ==>
      val[r, c, t] == old(val[r, c, t])
  {
    var valBase := (gy * p.w + gx0) * N_THETA;
    ghost var V := p.Tab(value[..]);
    for i := 0 to count
      invariant forall lx, t :: 0 <= lx < SIDE && 0 <= t < N_THETA ==>
        val[ly, lx, t] == if lxOff <= lx < lxOff + i then ValAt(p, V, gx0 + lx - lxOff, gy, t) else old(val[ly, lx, t])
      invariant forall r, c, t :: 0 <= r < SIDE && 0 <= c < SIDE && 0 <= t < N_THETA && r != ly ==>
        val[r, c, t] == old(val[r, c, t])
    {
      for it := 0 to N_THETA
        invariant forall lx, t :: 0 <= lx < SIDE && 0 <= t < N_THETA ==>
          val[ly, lx, t] == if lxOff <= lx < lxOff + i || (lx == lxOff + i && t < it)
                            then ValAt(p, V, gx0 + lx - lxOff, gy, t) else old(val[ly, lx, t])
        invariant forall r, c, t :: 0 <= r < SIDE && 0 <= c < SIDE && 0 <= t < N_THETA && r != ly ==>
          val[r, c, t] == old(val[r, c, t])
      {
        p.IdxBound(gx0 + i, gy, it);
        assert valBase + i * N_THETA + it == p.Idx(gx0 + i, gy, it);
        val[ly, lxOff + i, it] := value[valBase + i * N_THETA + it];
        assert State(gx0 + i, gy, it) in V;
      }
    }
  }

  method LoadPenRow(p: Problem, pen: array2<U16>, ly: int, gy: int, gx0: int, lxOff: int, count: int)
    requires p.Valid() && pen.Length0 == SIDE && pen.Length1 == SIDE
    requires 0 <= ly < SIDE
    requires count > 0 ==> 0 <= gy < p.h && 0 <= gx0 && gx0 + count <= p.w && 0 <= lxOff && lxOff + count <= SIDE
    modifies pen
    ensures forall lx :: 0 <= lx < SIDE ==>
      pen[ly, lx] == if lxOff <= lx < lxOff + count then p.PenAt(gx0 + lx - lxOff, gy) else PENALTY_OBSTACLE
    ensures forall r, c :: 0 <= r < SIDE && 0 <= c < SIDE && r != ly ==> pen[r, c] == old(pen[r, c])
  {
    for lx := 0 to SIDE
      invariant forall c :: 0 <= c < lx ==> pen[ly, c] == PENALTY_OBSTACLE
      invariant forall r, c :: 0 <= r < SIDE && 0 <= c < SIDE && r != ly ==> pen[r, c] == old(pen[r, c])
    {
      pen[ly, lx] := PENALTY_OBSTACLE;
    }
    if count <= 0 { return; }
    var penBase := gy * p.w + gx0;
    for i := 0 to count
      invariant forall lx :: 0 <= lx < SIDE ==>
        pen[ly, lx] == if lxOff <= lx < lxOff + i then p.PenAt(gx0 + lx - lxOff, gy) else PENALTY_OBSTACLE
      invariant forall r, c :: 0 <= r < SIDE && 0 <= c < SIDE && r != ly ==> pen[r, c] == old(pen[r, c])
    {
      p.CellBound(gx0 + i, gy);
      assert penBase + i == gy * p.w + (gx0 + i);
      pen[ly, lxOff + i] := p.pen[penBase + i];
    }
  }

  // Load the tile at (ox, oy) with its halo; three copies of the penalties.
  method LoadTile(value: array<U16>, p: Problem, val: array3<U16>,
                  pen0: array2<U16>, pen1: array2<U16>, pen2: array2<U16>, ox: int, oy: int)
    requires p.Valid() && value.Length >= p.Size() && val.Length0 == SIDE && val.Length1 == SIDE && val.Length2 == N_THETA
    requires PenShape(pen0, pen1, pen2)
    modifies val, pen0, pen1, pen2
    ensures Mirrors(val, p, p.Tab(value[..]), ox, oy, SIDE)
    ensures PensMirror(pen0, pen1, pen2, p, ox, oy, SIDE)
  {
    ghost var V := p.Tab(value[..]);
    for ly := 0 to SIDE
      invariant Mirrors(val, p, V, ox, oy, ly)
      invariant PensMirror(pen0, pen1, pen2, p, ox, oy, ly)
    {
      LoadTileRow(value, p, val, pen0, pen1, pen2, ox, oy, ly);
    }
  }

  ghost predicate PenShape(pen0: array2<U16>, pen1: array2<U16>, pen2: array2<U16>) {
    && pen0.Length0 == SIDE && pen0.Length1 == SIDE
    && pen1.Length0 == SIDE && pen1.Length1 == SIDE
    && pen2.Length0 == SIDE && pen2.Length1 == SIDE
    && pen0 != pen1 && pen0 != pen2 && pen1 != pen2
  }

  ghost predicate PensMirror(pen0: array2<U16>, pen1: array2<U16>, pen2: array2<U16>, p: Problem, ox: int, oy: int, rows: int)
    requires p.Valid()
    reads pen0, pen1, pen2
  {
    && PenMirrors(pen0, p, ox, oy, rows)
    && PenMirrors(pen1, p, ox, oy, rows)
    && PenMirrors(pen2, p, ox, oy, rows)
  }

  method LoadTileRow(value: array<U16>, p: Problem, val: array3<U16>,
                     pen0: array2<U16>, pen1: array2<U16>, pen2: array2<U16>, ox: int, oy: int, ly: int)
    requires p.Valid() && value.Length >= p.Size() && val.Length0 == SIDE && val.Length1 == SIDE && val.Length2 == N_THETA
    requires PenShape(pen0, pen1, pen2) && 0 <= ly < SIDE
    requires Mirrors(val, p, p.Tab(value[..]), ox, oy, ly)
    requires PensMirror(pen0, pen1, pen2, p, ox, oy, ly)
    modifies val, pen0, pen1, pen2
    ensures Mirrors(val, p, p.Tab(value[..]), ox, oy, ly + 1)
    ensures PensMirror(pen0, pen1, pen2, p, ox, oy, ly + 1)
  {
    hide Problem.Tab, Problem.Valid;
    var gy := oy - HALO + ly;
    var yOob := gy < 0 || gy >= p.h;
    var gxStart := ox - HALO;
    var x0 := if gxStart < 0 then 0 else gxStart;
    var x1 := if gxStart + SIDE > p.w then p.w else gxStart + SIDE;
    var xCount := if yOob then 0 else x1 - x0;
    var lxOff := x0 - gxStart;
    LoadPenCopy(p, pen0, ox, oy, ly, gy, x0, lxOff, xCount);
    LoadPenCopy(p, pen1, ox, oy, ly, gy, x0, lxOff, xCount);
    LoadPenCopy(p, pen2, ox, oy, ly, gy, x0, lxOff, xCount);
    FillValRow(val, ly);
    if xCount > 0 {
      LoadValRow(value, p, val, ly, gy, x0, lxOff, xCount);
    }
  }

  // The part of buffer row ly that lies inside the map.
  ghost predicate Span(p: Problem, ox: int, oy: int, ly: int, gy: int, gx0: int, lxOff: int, count: int) {
    && gy == oy - HALO + ly
    && gx0 == (if ox - HALO < 0 then 0 else ox - HALO)
    && lxOff == gx0 - (ox - HALO)
    && count == if 0 <= gy < p.h then Clip(ox - HALO + SIDE, p.w) - gx0 else 0
  }

  method LoadPenCopy(p: Problem, pen: array2<U16>, ox: int, oy: int, ly: int, gy: int, gx0: int, lxOff: int, count: int)
    requires p.Valid() && 0 <= ly < SIDE && Span(p, ox, oy, ly, gy, gx0, lxOff, count)
    requires PenMirrors(pen, p, ox, oy, ly)
    modifies pen
    ensures PenMirrors(pen, p, ox, oy, ly + 1)
  {
    LoadPenRow(p, pen, ly, gy, gx0, lxOff, count);
  }

  // ------------------------------------------------------------ compute

  // One theta of one cell. V is the table the buffer stands for.
  method TileBest(val: array3<U16>, pen0: array2<U16>, pen1: array2<U16>, pen2: array2<U16>,
                  delta: array3<int>, p: Problem, ox: int, oy: int, cy: int, cx: int, it: int, ghost V: Table)
    returns (best: U16)
    requires p.Valid() && KernelTrans(p) && Registers(delta, p) && V.Keys == p.States()
    requires Mirrors(val, p, V, ox, oy, SIDE) && PensMirror(pen0, pen1, pen2, p, ox, oy, SIDE)
    requires HALO <= cy < SIDE - HALO && HALO <= cx < SIDE - HALO && 0 <= it < N_THETA
    ensures best == TreeAt(p, V, State(ox - HALO + cx, oy - HALO + cy, it))
  {
    hide CostRaw, MinTree, Unpack, KernelTrans, Registers, RawCand, ValAt;
    ghost var s := State(ox - HALO + cx, oy - HALO + cy, it);
    var itL := it + 3;
    if itL >= N_THETA { itL := itL - N_THETA; }
    var itR := it - 3;
    if itR < 0 { itR := itR + N_THETA; }
    TurnsWrap(it);
    var c0 := TileCand(val, pen0, delta, p, ox, oy, cy, cx, it, 0, it, V);
    var c1 := TileCand(val, pen0, delta, p, ox, oy, cy, cx, it, 1, it, V);
    var c2 := CostRaw(val[cy, cx, itL], pen1[cy, cx]);
    var c3 := CostRaw(val[cy, cx, itR], pen1[cy, cx]);
    MirroredTurn(val, pen1, p, ox, oy, cy, cx, it, 2, itL, V);
    MirroredTurn(val, pen1, p, ox, oy, cy, cx, it, 3, itR, V);
    var c4 := TileCand(val, pen2, delta, p, ox, oy, cy, cx, it, 4, itL, V);
    var c5 := TileCand(val, pen2, delta, p, ox, oy, cy, cx, it, 5, itR, V);
    best := MinTree(c0, c1, c2, c3, c4, c5);
  }

  ghost function TreeAt(p: Problem, V: Table, s: State): U16
    requires p.Valid() && 0 <= s.t < N_THETA
  {
    MinTree(RawCand(p, V, s, 0), RawCand(p, V, s, 1), RawCand(p, V, s, 2),
            RawCand(p, V, s, 3), RawCand(p, V, s, 4), RawCand(p, V, s, 5))
  }

  lemma TurnsWrap(it: int)
    requires 0 <= it < N_THETA
    ensures WrapTheta(it) == it
    ensures WrapTheta(it + 3) == if it + 3 >= N_THETA then it + 3 - N_THETA else it + 3
    ensures WrapTheta(it - 3) == if it - 3 < 0 then it - 3 + N_THETA else it - 3
  {
  }

  // A turn reads the cell itself.
  lemma MirroredTurn(val: array3<U16>, pen: array2<U16>, p: Problem, ox: int, oy: int, cy: int, cx: int, it: int, a: int, nt: int, V: Table)
    requires p.Valid() && KernelTrans(p) && 2 <= a < 4 && Mirrors(val, p, V, ox, oy, SIDE) && PenMirrors(pen, p, ox, oy, SIDE)
    requires 0 <= cy < SIDE && 0 <= cx < SIDE && 0 <= it < N_THETA && nt == WrapTheta(it + Turn(a)) && 0 <= nt < N_THETA
    ensures CostRaw(val[cy, cx, nt], pen[cy, cx]) == RawCand(p, V, State(ox - HALO + cx, oy - HALO + cy, it), a)
  {
    hide CostRaw, Unpack, ValAt;
    assert p.DeltaAt(a, it) == Delta(0, 0, Turn(a));
  }

  // The candidate of a translating action, read from the buffers.
  method TileCand(val: array3<U16>, pen: array2<U16>, delta: array3<int>, p: Problem,
                  ox: int, oy: int, cy: int, cx: int, it: int, a: int, nt: int, ghost V: Table)
    returns (c: U16)
    requires p.Valid() && KernelTrans(p) && Registers(delta, p) && 0 <= a < N_ACTIONS
    requires Mirrors(val, p, V, ox, oy, SIDE) && PenMirrors(pen, p, ox, oy, SIDE)
    requires HALO <= cy < SIDE - HALO && HALO <= cx < SIDE - HALO && 0 <= it < N_THETA
    requires nt == WrapTheta(it + Turn(a)) && 0 <= nt < N_THETA
    ensures c == RawCand(p, V, State(ox - HALO + cx, oy - HALO + cy, it), a)
  {
    assert Delta(delta[a, it, 0], delta[a, it, 1], delta[a, it, 2]) == p.DeltaAt(a, it);
    var ny := cy + delta[a, it, 1];
    var nx := cx + delta[a, it, 0];
    c := CostRaw(val[ny, nx, nt], pen[ny, nx]);
  }

  method TileTheta(val: array3<U16>, pen0: array2<U16>, pen1: array2<U16>, pen2: array2<U16>,
                   delta: array3<int>, p: Problem, ox: int, oy: int, cy: int, cx: int, it: int, skip: bool, ghost V: Table)
    returns (maskedD: U16)
    requires p.Valid() && KernelTrans(p) && Registers(delta, p) && V.Keys == p.States()
    requires Mirrors(val, p, V, ox, oy, SIDE) && PensMirror(pen0, pen1, pen2, p, ox, oy, SIDE)
    requires HALO <= cy < SIDE - HALO && HALO <= cx < SIDE - HALO && 0 <= it < N_THETA
    requires p.InMap(ox - HALO + cx, oy - HALO + cy)
    requires skip <==> p.PenAt(ox - HALO + cx, oy - HALO + cy) >= PENALTY_GOAL
    modifies val
    ensures Mirrors(val, p, Upd(p.Net(), V, State(ox - HALO + cx, oy - HALO + cy, it)), ox, oy, SIDE)
    ensures maskedD == UpdDelta(p.Net(), V, State(ox - HALO + cx, oy - HALO + cy, it))
  {
    hide CostRaw, RawCand, MinTree, Bell, KernelTrans;
    ghost var s := State(ox - HALO + cx, oy - HALO + cy, it);
    assert s in p.States();
    var oldVal := val[cy, cx, it];
    var minCost := TileBest(val, pen0, pen1, pen2, delta, p, ox, oy, cy, cx, it, V);
    assert s in p.Free() <==> !skip;
    if s in p.Free() {
      TreeIsBell(p, V, s);
    }
    var newVal := if skip then oldVal else minCost;
    val[cy, cx, it] := newVal;
    var d := if newVal > oldVal then newVal - oldVal else oldVal - newVal;
    maskedD := if skip then 0 else d;
  }

  // The buffers stand for table V around the tile at (ox, oy).
  ghost predicate Ready(val: array3<U16>, pen0: array2<U16>, pen1: array2<U16>, pen2: array2<U16>,
                        delta: array3<int>, p: Problem, ox: int, oy: int, V: Table)
    reads val, pen0, pen1, pen2, delta
  {
    && p.Valid() && KernelTrans(p) && Registers(delta, p) && V.Keys == p.States()
    && Mirrors(val, p, V, ox, oy, SIDE) && PensMirror(pen0, pen1, pen2, p, ox, oy, SIDE)
  }

  method ComputeCell(val: array3<U16>, pen0: array2<U16>, pen1: array2<U16>, pen2: array2<U16>,
                     delta: array3<int>, p: Problem, ox: int, oy: int, ix: int, iy: int, ghost V0: Table)
    returns (localMax: U16)
    requires Ready(val, pen0, pen1, pen2, delta, p, ox, oy, V0)
    requires 0 <= ix < TILE && 0 <= iy < TILE && p.InMap(ox + ix, oy + iy)
    modifies val
    ensures Ready(val, pen0, pen1, pen2, delta, p, ox, oy, Run(p.Net(), V0, Thetas(ox + ix, oy + iy, N_THETA)))
    ensures localMax == RunDelta(p.Net(), V0, Thetas(ox + ix, oy + iy, N_THETA))
  {
    hide Run, RunDelta, Upd, UpdDelta, Mirrors, KernelTrans, PenMirrors, Registers, Problem.Valid;
    localMax := 0;
    var cy, cx := iy + HALO, ix + HALO;
    ghost var net := p.Net();
    RunNone(net, V0);
    CenterPen(pen0, pen1, pen2, p, ox, oy, cy, cx);
    var skip := pen0[cy, cx] >= PENALTY_GOAL;
    for it := 0 to N_THETA
      invariant Ready(val, pen0, pen1, pen2, delta, p, ox, oy, Run(net, V0, Thetas(ox + ix, oy + iy, it)))
      invariant localMax == RunDelta(net, V0, Thetas(ox + ix, oy + iy, it))
    {
      ghost var o := Thetas(ox + ix, oy + iy, it);
      var d := TileTheta(val, pen0, pen1, pen2, delta, p, ox, oy, cy, cx, it, skip, Run(net, V0, o));
      ThetasSnoc(ox + ix, oy + iy, it);
      RunSnoc(net, V0, o, State(ox + ix, oy + iy, it));
      RunKeys(net, V0, o + [State(ox + ix, oy + iy, it)]);
      if d > localMax { localMax := d; }
    }
  }

  lemma CenterPen(pen0: array2<U16>, pen1: array2<U16>, pen2: array2<U16>, p: Problem, ox: int, oy: int, cy: int, cx: int)
    requires p.Valid() && PensMirror(pen0, pen1, pen2, p, ox, oy, SIDE)
    requires 0 <= cy < SIDE && 0 <= cx < SIDE
    ensures pen0.Length0 == SIDE && pen0.Length1 == SIDE
    ensures pen0[cy, cx] == p.PenAt(ox - HALO + cx, oy - HALO + cy)
  {
  }

  method ComputeRow(val: array3<U16>, pen0: array2<U16>, pen1: array2<U16>, pen2: array2<U16>,
                    delta: array3<int>, p: Problem, ox: int, oy: int, tileW: int, iy: int, ghost V0: Table)
    returns (localMax: U16)
    requires p.Valid() && Ready(val, pen0, pen1, pen2, delta, p, ox, oy, V0)
    requires 0 <= ox && tileW <= TILE && ox + tileW <= p.w && 0 <= iy < TILE && 0 <= oy && oy + iy < p.h
    modifies val
    ensures Ready(val, pen0, pen1, pen2, delta, p, ox, oy, Run(p.Net(), V0, RowOrder(oy + iy, ox, ox + tileW)))
    ensures localMax == RunDelta(p.Net(), V0, RowOrder(oy + iy, ox, ox + tileW))
  {
    hide Run, RunDelta, Ready, Thetas;
    localMax := 0;
    ghost var net := p.Net();
    RunNone(net, V0);
    if tileW <= 0 { return; }
    for ix := 0 to tileW
      invariant Ready(val, pen0, pen1, pen2, delta, p, ox, oy, Run(net, V0, RowOrder(oy + iy, ox, ox + ix)))
      invariant localMax == RunDelta(net, V0, RowOrder(oy + iy, ox, ox + ix))
    {
      ghost var o := RowOrder(oy + iy, ox, ox + ix);
      RunAppend(net, V0, o, Thetas(ox + ix, oy + iy, N_THETA));
      var d := ComputeCell(val, pen0, pen1, pen2, delta, p, ox, oy, ix, iy, Run(net, V0, o));
      if d > localMax { localMax := d; }
    }
  }

  // Update the tile inside the buffers: exactly the in-place sweep of its cells.
  method ComputeBellman(val: array3<U16>, pen0: array2<U16>, pen1: array2<U16>, pen2: array2<U16>,
                        delta: array3<int>, p: Problem, ox: int, oy: int, tileW: int, tileH: int, ghost V0: Table)
    returns (maxDelta: U16)
    requires p.Valid() && Ready(val, pen0, pen1, pen2, delta, p, ox, oy, V0)
    requires 0 <= ox && tileW <= TILE && ox + tileW <= p.w && 0 <= oy && tileH <= TILE && oy + tileH <= p.h
    modifies val
    ensures Ready(val, pen0, pen1, pen2, delta, p, ox, oy, Run(p.Net(), V0, BlockOrder(ox, ox + tileW, oy, oy + tileH)))
    ensures maxDelta == RunDelta(p.Net(), V0, BlockOrder(ox, ox + tileW, oy, oy + tileH))
  {
    hide Run, RunDelta, Ready, RowOrder;
    maxDelta := 0;
    ghost var net := p.Net();
    RunNone(net, V0);
    if tileH <= 0 { return; }
    for iy := 0 to tileH
      invariant Ready(val, pen0, pen1, pen2, delta, p, ox, oy, Run(net, V0, BlockOrder(ox, ox + tileW, oy, oy + iy)))
      invariant maxDelta == RunDelta(net, V0, BlockOrder(ox, ox + tileW, oy, oy + iy))
    {
      ghost var o := BlockOrder(ox, ox + tileW, oy, oy + iy);
      RunAppend(net, V0, o, RowOrder(oy + iy, ox, ox + tileW));
      var d := ComputeRow(val, pen0, pen1, pen2, delta, p, ox, oy, tileW, iy, Run(net, V0, o));
      if d > maxDelta { maxDelta := d; }
    }
  }

  // ------------------------------------------------------------ store

  // T agrees with W inside the block and with V0 outside it.
  ghost predicate Stored(p: Problem, T: Table, V0: Table, W: Table, x0: int, x1: int, y0: int, y1: int) {
    && T.Keys == V0.Keys == W.Keys
    && forall s :: s in T ==> T[s] == if x0 <= s.x < x1 && y0 <= s.y < y1 then W[s] else V0[s]
  }

  method StoreCell(value: array<U16>, p: Problem, val: array3<U16>, ox: int, oy: int, ix: int, iy: int,
                   base: int, ghost W: Table)
    requires p.Valid() && value.Length >= p.Size() && W.Keys == p.States()
    requires Mirrors(val, p, W, ox, oy, SIDE) && 0 <= ix < TILE && 0 <= iy < TILE && p.InMap(ox + ix, oy + iy)
    requires base == ((oy + iy) * p.w + ox) * N_THETA
    modifies value
    ensures Stored(p, p.Tab(value[..]), old(p.Tab(value[..])), W, ox + ix, ox + ix + 1, oy + iy, oy + iy + 1)
  {
    hide Problem.Tab;
    ghost var T0 := p.Tab(value[..]);
    var cy, cx := iy + HALO, ix + HALO;
    for it := 0 to N_THETA
      invariant CellCopied(p.Tab(value[..]), T0, W, ox + ix, oy + iy, it)
    {
      ghost var s := State(ox + ix, oy + iy, it);
      assert s in p.States() && val[cy, cx, it] == W[s];
      assert base + ix * N_THETA + it == p.Idx(s.x, s.y, it);
      WriteWord(value, p, base + ix * N_THETA + it, val[cy, cx, it], s);
    }
  }

  // The first n thetas of cell (x, y) are those of W, everything else is T0.
  ghost predicate CellCopied(T: Table, T0: Table, W: Table, x: int, y: int, n: int) {
    && T.Keys == T0.Keys == W.Keys
    && forall s :: s in T0 ==> T[s] == (if s.x == x && s.y == y && s.t < n then W[s] else T0[s])
  }

  method StoreTile(value: array<U16>, p: Problem, val: array3<U16>, ox: int, oy: int, tileW: int, tileH: int,
                   ghost W: Table)
    requires p.Valid() && value.Length >= p.Size() && W.Keys == p.States()
    requires Mirrors(val, p, W, ox, oy, SIDE)
    requires 0 <= ox && tileW <= TILE && ox + tileW <= p.w && 0 <= oy && tileH <= TILE && oy + tileH <= p.h
    modifies value
    ensures Stored(p, p.Tab(value[..]), old(p.Tab(value[..])), W, ox, ox + tileW, oy, oy + tileH)
  {
    hide Mirrors, Problem.Tab, Problem.Valid;
    ghost var T0 := p.Tab(value[..]);
    if tileH <= 0 { return; }
    for iy := 0 to tileH
      invariant Stored(p, p.Tab(value[..]), T0, W, ox, ox + tileW, oy, oy + iy)
    {
      var base := ((oy + iy) * p.w + ox) * N_THETA;
      ghost var T1 := p.Tab(value[..]);
      var ix := 0;
      while ix < tileW
        invariant 0 <= ix && (ix <= tileW || ix == 0)
        invariant Stored(p, p.Tab(value[..]), T1, W, ox, ox + ix, oy + iy, oy + iy + 1)
      {
        StoreCell(value, p, val, ox, oy, ix, iy, base, W);
        ix := ix + 1;
      }
    }
  }

  // ------------------------------------------------------------ the kernel

  method KernelTile(value: array<U16>, p: Problem, val: array3<U16>, pen0: array2<U16>, pen1: array2<U16>,
                    pen2: array2<U16>, delta: array3<int>, tx: nat, ty: nat)
    returns (tileDelta: U16)
    requires p.Valid() && KernelTrans(p) && Registers(delta, p) && value.Length >= p.Size()
    requires val.Length0 == SIDE && val.Length1 == SIDE && val.Length2 == N_THETA && PenShape(pen0, pen1, pen2)
    modifies value, val, pen0, pen1, pen2
    ensures p.Tab(value[..]) == Run(p.Net(), old(p.Tab(value[..])), TileBlock(p, tx, ty))
    ensures tileDelta == RunDelta(p.Net(), old(p.Tab(value[..])), TileBlock(p, tx, ty))
  {
    hide Mirrors, PenMirrors, Problem.Tab, Run, RunDelta, Registers, KernelTrans, BlockOrder;
    ghost var V0 := p.Tab(value[..]);
    ghost var W := Run(p.Net(), V0, TileBlock(p, tx, ty));
    var ox, oy := tx * TILE, ty * TILE;
    var tileW := TILE;
    if ox + TILE > p.w { tileW := p.w - ox; }
    var tileH := TILE;
    if oy + TILE > p.h { tileH := p.h - oy; }
    LoadTile(value, p, val, pen0, pen1, pen2, ox, oy);
    assert TileBlock(p, tx, ty) == BlockOrder(ox, ox + tileW, oy, oy + tileH);
    tileDelta := ComputeBellman(val, pen0, pen1, pen2, delta, p, ox, oy, tileW, tileH, V0);
    StoreTile(value, p, val, ox, oy, tileW, tileH, W);
    StoredAll(p, p.Tab(value[..]), V0, ox, ox + tileW, oy, oy + tileH);
  }

  // A run over a block changes nothing outside it, so storing the block stores the run.
  lemma StoredAll(p: Problem, T: Table, V0: Table, x0: int, x1: int, y0: int, y1: int)
    requires p.Valid() && V0.Keys == p.States()
    requires Stored(p, T, V0, Run(p.Net(), V0, BlockOrder(x0, x1, y0, y1)), x0, x1, y0, y1)
    ensures T == Run(p.Net(), V0, BlockOrder(x0, x1, y0, y1))
  {
    var o := BlockOrder(x0, x1, y0, y1);
    forall s | s in T
      ensures T[s] == Run(p.Net(), V0, o)[s]
    {
      BlockOrderMembers(x0, x1, y0, y1, s);
      if s !in o {
        RunFrame(p.Net(), V0, o, s);
      }
    }
  }

  method KernelRow(value: array<U16>, p: Problem, val: array3<U16>, pen0: array2<U16>, pen1: array2<U16>,
                   pen2: array2<U16>, delta: array3<int>, ntx: nat, ty: nat, cu: int)
    returns (rowDelta: U16)
    requires p.Valid() && KernelTrans(p) && Registers(delta, p) && value.Length >= p.Size()
    requires val.Length0 == SIDE && val.Length1 == SIDE && val.Length2 == N_THETA && PenShape(pen0, pen1, pen2)
    modifies value, val, pen0, pen1, pen2
    ensures p.Tab(value[..]) == Run(p.Net(), old(p.Tab(value[..])), TileRow(p, cu, ty, ntx))
    ensures rowDelta == RunDelta(p.Net(), old(p.Tab(value[..])), TileRow(p, cu, ty, ntx))
  {
    hide Problem.Tab, Run, RunDelta, Registers, KernelTrans, TileBlock;
    rowDelta := 0;
    ghost var V0 := p.Tab(value[..]);
    ghost var net := p.Net();
    RunNone(net, V0);
    for tx := 0 to ntx
      invariant Registers(delta, p)
      invariant p.Tab(value[..]) == Run(net, V0, TileRow(p, cu, ty, tx))
      invariant rowDelta == RunDelta(net, V0, TileRow(p, cu, ty, tx))
    {
      if (tx + ty) % 2 != cu {
        assert TileRow(p, cu, ty, tx + 1) == TileRow(p, cu, ty, tx);
        continue;
      }
      RunAppend(net, V0, TileRow(p, cu, ty, tx), TileBlock(p, tx, ty));
      var d := KernelTile(value, p, val, pen0, pen1, pen2, delta, tx, ty);
      if d > rowDelta { rowDelta := d; }
    }
  }

  // One invocation of the kernel. The contract is that of the mock device, so
  // the two produce the same table and the same largest change on every map.
  method ViSweep(value: array<U16>, p: Problem, ntx: nat, nty: nat, cu: int) returns (maxDelta: U16)
    requires p.Valid() && KernelTrans(p) && value.Length >= p.Size()
    modifies value
    ensures p.Tab(value[..]) == Run(p.Net(), old(p.Tab(value[..])), TileOrder(p, cu, ntx, nty))
    ensures maxDelta == RunDelta(p.Net(), old(p.Tab(value[..])), TileOrder(p, cu, ntx, nty))
  {
    hide Problem.Tab, Run, RunDelta, Registers, KernelTrans, TileRow;
    var delta := new int[N_ACTIONS, N_THETA, 3];
    LoadTransitions(p, delta);
    var val := new U16[SIDE, SIDE, N_THETA];
    var pen0 := new U16[SIDE, SIDE];
    var pen1 := new U16[SIDE, SIDE];
    var pen2 := new U16[SIDE, SIDE];
    maxDelta := 0;
    ghost var V0 := p.Tab(value[..]);
    ghost var net := p.Net();
    RunNone(net, V0);
    for ty := 0 to nty
      invariant Registers(delta, p)
      invariant p.Tab(value[..]) == Run(net, V0, TileOrder(p, cu, ntx, ty))
      invariant maxDelta == RunDelta(net, V0, TileOrder(p, cu, ntx, ty))
    {
      RunAppend(net, V0, TileOrder(p, cu, ntx, ty), TileRow(p, cu, ty, ntx));
      var d := KernelRow(value, p, val, pen0, pen1, pen2, delta, ntx, ty, cu);
      if d > maxDelta { maxDelta := d; }
    }
  }
}
