// The words of the two-unit protocol and the on-chip buffers of the tile kernel:
// every step of a unit is the step of the kernel on its buffers.
module UnitKernel {
  import opened Bellman
  import opened Contract
  import opened Hls
  import opened Mock
  import opened TwoUnits
  import opened Driver
  import opened TileKernel

  // The on-chip buffer holds the words loaded so far, sentinels elsewhere.
  ghost predicate Holds(val: array3<U16>, buf: Table, tx: nat, ty: nat)
    reads val
  {
    && val.Length0 == SIDE && val.Length1 == SIDE && val.Length2 == N_THETA
    && forall ly, lx, it :: 0 <= ly < SIDE && 0 <= lx < SIDE && 0 <= it < N_THETA ==>
         val[ly, lx, it] == Word(buf, State(tx * TILE - HALO + lx, ty * TILE - HALO + ly, it))
  }

  ghost function Word(buf: Table, s: State): U16 { if s in buf then buf[s] else MAX_VALUE }

  // The buffer is fully loaded.
  ghost predicate Loaded(p: Problem, buf: Table, tx: nat, ty: nat) {
    forall s :: s in buf <==> s in JobAt(p, tx, ty).load
  }

  // A fully loaded job buffer is what the kernel's on-chip buffer mirrors:
  // buffered words inside the map, sentinels outside, whatever the shared
  // table holds by then.
  lemma LoadedWindow(p: Problem, tx: nat, ty: nat, V: Table, buf: Table, ly: int, lx: int, it: int)
    requires p.Valid() && V.Keys == p.States() && Loaded(p, buf, tx, ty)
    requires 0 <= ly < SIDE && 0 <= lx < SIDE && 0 <= it < N_THETA
    ensures var s := State(tx * TILE - HALO + lx, ty * TILE - HALO + ly, it);
            ValAt(p, View(V, buf), s.x, s.y, it) == Word(buf, s)
  {
    JobAtMembers(p, tx, ty, State(tx * TILE - HALO + lx, ty * TILE - HALO + ly, it));
  }

  lemma HoldsIsMirrors(val: array3<U16>, p: Problem, tx: nat, ty: nat, V: Table, buf: Table)
    requires p.Valid() && V.Keys == p.States() && Loaded(p, buf, tx, ty)
    ensures Holds(val, buf, tx, ty) <==> Mirrors(val, p, View(V, buf), tx * TILE, ty * TILE, SIDE)
  {
    hide Loaded, ValAt, View, Word, Problem.Valid;
    if Holds(val, buf, tx, ty) {
      forall ly, lx, it | 0 <= ly < SIDE && 0 <= lx < SIDE && 0 <= it < N_THETA
        ensures val[ly, lx, it] == ValAt(p, View(V, buf), tx * TILE - HALO + lx, ty * TILE - HALO + ly, it)
      {
        LoadedWindow(p, tx, ty, V, buf, ly, lx, it);
      }
    }
    if Mirrors(val, p, View(V, buf), tx * TILE, ty * TILE, SIDE) {
      forall ly, lx, it | 0 <= ly < SIDE && 0 <= lx < SIDE && 0 <= it < N_THETA
        ensures val[ly, lx, it] == Word(buf, State(tx * TILE - HALO + lx, ty * TILE - HALO + ly, it))
      {
        LoadedWindow(p, tx, ty, V, buf, ly, lx, it);
      }
    }
  }

  // ------------------------------------------------------------ the steps of a unit

  // A new job starts from sentinels everywhere: the empty buffer.
  method StartJob(val: array3<U16>, tx: nat, ty: nat)
    requires val.Length0 == SIDE && val.Length1 == SIDE && val.Length2 == N_THETA
    modifies val
    ensures Holds(val, map[], tx, ty)
  {
    for ly := 0 to SIDE
      invariant forall r, c, t :: 0 <= r < ly && 0 <= c < SIDE && 0 <= t < N_THETA ==> val[r, c, t] == MAX_VALUE
    {
      FillValRow(val, ly);
    }
  }

  // Load the next word of the window from the shared table.
  method LoadNext(val: array3<U16>, p: Problem, tx: nat, ty: nat, V: Table, ghost u: CU, k: nat)
    requires p.Valid() && V.Keys == p.States() && Holds(val, u.buf, tx, ty)
    requires u.phase == Loading(k) && k < |JobAt(p, tx, ty).load|
    modifies val
    ensures Holds(val, LoadWord(V, JobAt(p, tx, ty), u).buf, tx, ty)
  {
    var s := JobAt(p, tx, ty).load[k];
    JobAtMembers(p, tx, ty, s);
    val[s.y - ty * TILE + HALO, s.x - tx * TILE + HALO, s.t] := V[s];
  }

  // Update the tile in the on-chip buffer: the unit's computing step.
  method ComputeTile(val: array3<U16>, pen0: array2<U16>, pen1: array2<U16>, pen2: array2<U16>, delta: array3<int>,
                     p: Problem, tx: nat, ty: nat, ghost V: Table, ghost u: CU)
    returns (tileDelta: U16)
    requires p.Valid() && KernelTrans(p) && Registers(delta, p) && V.Keys == p.States()
    requires Holds(val, u.buf, tx, ty) && Loaded(p, u.buf, tx, ty)
    requires PensMirror(pen0, pen1, pen2, p, tx * TILE, ty * TILE, SIDE)
    modifies val
    ensures Holds(val, Compute(p.Net(), JobAt(p, tx, ty), u).buf, tx, ty)
    ensures Loaded(p, Compute(p.Net(), JobAt(p, tx, ty), u).buf, tx, ty)
    ensures Compute(p.Net(), JobAt(p, tx, ty), u).delta == Max(u.delta, tileDelta)
  {
    hide Mirrors, PenMirrors, Holds, Loaded, View, Run, RunDelta, Registers, KernelTrans, BlockOrder;
    var ox, oy := tx * TILE, ty * TILE;
    var tileW := TILE;
    if ox + TILE > p.w { tileW := p.w - ox; }
    var tileH := TILE;
    if oy + TILE > p.h { tileH := p.h - oy; }
    HoldsIsMirrors(val, p, tx, ty, V, u.buf);
    ViewKeys(p, tx, ty, V, u.buf);
    assert TileBlock(p, tx, ty) == BlockOrder(ox, ox + tileW, oy, oy + tileH);
    tileDelta := ComputeBellman(val, pen0, pen1, pen2, delta, p, ox, oy, tileW, tileH, View(V, u.buf));
    Overlay(p, tx, ty, V, u.buf);
    HoldsIsMirrors(val, p, tx, ty, V, Run(p.Net(), u.buf, TileBlock(p, tx, ty)));
  }

  lemma ViewKeys(p: Problem, tx: nat, ty: nat, V: Table, buf: Table)
    requires p.Valid() && V.Keys == p.States() && Loaded(p, buf, tx, ty)
    ensures View(V, buf).Keys == p.States() && buf.Keys <= V.Keys
  {
    forall s | s in buf
      ensures s in V
    {
      JobAtMembers(p, tx, ty, s);
    }
  }

  // Computing in the buffer is computing in the table overlaid with it.
  lemma Overlay(p: Problem, tx: nat, ty: nat, V: Table, buf: Table)
    requires p.Valid() && KernelTrans(p) && V.Keys == p.States() && Loaded(p, buf, tx, ty)
    ensures Loaded(p, Run(p.Net(), buf, TileBlock(p, tx, ty)), tx, ty)
    ensures View(V, Run(p.Net(), buf, TileBlock(p, tx, ty))) == Run(p.Net(), View(V, buf), TileBlock(p, tx, ty))
    ensures RunDelta(p.Net(), buf, TileBlock(p, tx, ty)) == RunDelta(p.Net(), View(V, buf), TileBlock(p, tx, ty))
  {
    ViewKeys(p, tx, ty, V, buf);
    JobAtOk(p, tx, ty);
    hide Run, RunDelta, KernelTrans, View, BlockOrder;
    RunOverlay(p.Net(), V, buf, JobAt(p, tx, ty).block);
  }

  // The value of the next word to store: the unit's storing step writes it and
  // nothing else to the shared table.
  method StoreNext(val: array3<U16>, p: Problem, tx: nat, ty: nat, V: Table, ghost u: CU, k: nat) returns (W: Table)
    requires p.Valid() && V.Keys == p.States() && Holds(val, u.buf, tx, ty) && Loaded(p, u.buf, tx, ty)
    requires u.phase == Storing(k) && k < |JobAt(p, tx, ty).block|
    ensures W == StoreWord(V, JobAt(p, tx, ty), u)
  {
    var s := JobAt(p, tx, ty).block[k];
    JobAtMembers(p, tx, ty, s);
    W := V[s := val[s.y - ty * TILE + HALO, s.x - tx * TILE + HALO, s.t]];
  }
}
