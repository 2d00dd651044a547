// The stream kernel: a vertical strip of the map passes through a circular
// window of 13 rows. Each row is updated from prefetched translation costs and
// three register chains for the rotations, stored, and the oldest row is
// replaced by the next one. Unit 1 scans mirrored.
module StreamKernel {
  import opened Bellman
  import opened Contract
  import opened Hls
  import opened StreamLoop
  import StreamExact

  const WINDOW := 2 * HALO + 1
  const BUF_W := STRIP + 2 * HALO

  // The window slot of scan row q.
  function Slot(q: int): int { (q + HALO) % WINDOW }

  // ------------------------------------------------------------ window contents

  ghost predicate ValShape(val: array3<U16>) {
    val.Length0 == WINDOW && val.Length1 == BUF_W && val.Length2 == N_THETA
  }

  ghost predicate PenShape(pen0: array2<U16>, pen1: array2<U16>, pen2: array2<U16>) {
    && pen0.Length0 == WINDOW && pen0.Length1 == BUF_W
    && pen1.Length0 == WINDOW && pen1.Length1 == BUF_W
    && pen2.Length0 == WINDOW && pen2.Length1 == BUF_W
    && pen0 != pen1 && pen0 != pen2 && pen1 != pen2
  }

  // Slot `slot` holds map row gy of table V, with sentinels outside the map.
  ghost predicate ValSlot(val: array3<U16>, p: Problem, V: Table, x0: int, w: int, slot: int, gy: int)
    requires ValShape(val)
    reads val
  {
    forall lx, it :: 0 <= slot < WINDOW && 0 <= lx < w + 2 * HALO && lx < BUF_W && 0 <= it < N_THETA ==>
      val[slot, lx, it] == ValAt(p, V, x0 - HALO + lx, gy, it)
  }

  ghost predicate PenSlot(pen: array2<U16>, p: Problem, x0: int, w: int, slot: int, gy: int)
    requires p.Valid() && pen.Length0 == WINDOW && pen.Length1 == BUF_W
    reads pen
  {
    forall lx :: 0 <= slot < WINDOW && 0 <= lx < w + 2 * HALO && lx < BUF_W ==>
      pen[slot, lx] == p.PenAt(x0 - HALO + lx, gy)
  }

  // Slot (q + 6) mod 13 holds scan row q, for every row q from lo to hi.
  ghost predicate ValWindow(val: array3<U16>, p: Problem, V: Table, cu: int, x0: int, w: int, lo: int, hi: int)
    requires ValShape(val)
    reads val
  {
    forall q :: lo <= q <= hi ==> ValSlot(val, p, V, x0, w, Slot(q), RowOf(p, cu, q))
  }

  ghost predicate PenWindow(pen: array2<U16>, p: Problem, cu: int, x0: int, w: int, lo: int, hi: int)
    requires p.Valid() && pen.Length0 == WINDOW && pen.Length1 == BUF_W
    reads pen
  {
    forall q :: lo <= q <= hi ==> PenSlot(pen, p, x0, w, Slot(q), RowOf(p, cu, q))
  }

  lemma SlotsDistinct(q: int, r: int)
    requires q != r && -WINDOW < q - r < WINDOW
    ensures Slot(q) != Slot(r)
  {
  }

  // ------------------------------------------------------------ load one row

  method FillRow(val: array3<U16>, slot: int)
    requires ValShape(val) && 0 <= slot < WINDOW
    modifies val
    ensures forall lx, it :: 0 <= lx < BUF_W && 0 <= it < N_THETA ==> val[slot, lx, it] == MAX_VALUE
    ensures forall r, c, t :: 0 <= r < WINDOW && 0 <= c < BUF_W && 0 <= t < N_THETA && r != slot ==>
      val[r, c, t] == old(val[r, c, t])
  {
    for lx := 0 to BUF_W
      invariant forall c, t :: 0 <= c < lx && 0 <= t < N_THETA ==> val[slot, c, t] == MAX_VALUE
      invariant forall r, c, t :: 0 <= r < WINDOW && 0 <= c < BUF_W && 0 <= t < N_THETA && r != slot ==>
        val[r, c, t] == old(val[r, c, t])
    {
      for it := 0 to N_THETA
        invariant forall c, t :: 0 <= c < lx && 0 <= t < N_THETA ==> val[slot, c, t] == MAX_VALUE
        invariant forall t :: 0 <= t < it ==> val[slot, lx, t] == MAX_VALUE
        invariant forall r, c, t :: 0 <= r < WINDOW && 0 <= c < BUF_W && 0 <= t < N_THETA && r != slot ==>
          val[r, c, t] == old(val[r, c, t])
      {
        val[slot, lx, it] := MAX_VALUE;
      }
    }
  }

  // The flattened copy of `count` cells of map row gy from column gx0 on.
  method CopyRow(value: array<U16>, p: Problem, val: array3<U16>, slot: int, gy: int, gx0: int, lxOff: int, count: int)
    requires p.Valid() && value.Length >= p.Size() && ValShape(val)
    requires 0 <= slot < WINDOW && 0 <= gy < p.h && 0 <= gx0 && 0 <= count && gx0 + count <= p.w
    requires 0 <= lxOff && lxOff + count <= BUF_W
    modifies val
    ensures forall lx, it :: 0 <= lx < BUF_W && 0 <= it < N_THETA ==>
      val[slot, lx, it] == if lxOff <= lx < lxOff + count
                           then ValAt(p, p.Tab(value[..]), gx0 + lx - lxOff, gy, it) else old(val[slot, lx, it])
    ensures forall r, c, t :: 0 <= r < WINDOW && 0 <= c < BUF_W && 0 <= t < N_THETA && r != slot ==>
      val[r, c, t] == old(val[r, c, t])
  {
    var valBase := (gy * p.w + gx0) * N_THETA;
    var valTotal := count * N_THETA;
    ghost var V := p.Tab(value[..]);
    RanksBelow(count);
    hide Problem.Tab, Problem.Idx, Rank;
    for k := 0 to valTotal
      invariant forall lx, t :: 0 <= lx < BUF_W && 0 <= t < N_THETA ==>
        val[slot, lx, t] == if lxOff <= lx < lxOff + count && Rank(lx - lxOff, t) < k
                            then ValAt(p, V, gx0 + lx - lxOff, gy, t) else old(val[slot, lx, t])
      invariant forall r, c, t :: 0 <= r < WINDOW && 0 <= c < BUF_W && 0 <= t < N_THETA && r != slot ==>
        val[r, c, t] == old(val[r, c, t])
    {
      var i, it := k / N_THETA, k % N_THETA;
      MapWord(p, value[..], gx0, gy, i, it, k);
      RankStep(k);
      val[slot, lxOff + i, it] := value[valBase + k];
    }
  }

  // The place of angle t of the c-th copied cell in the copying order.
  function Rank(c: int, t: int): int { c * N_THETA + t }

  lemma RankStep(k: nat)
    ensures forall c, t :: 0 <= t < N_THETA ==> (Rank(c, t) < k + 1 <==> Rank(c, t) < k || (c == k / N_THETA && t == k % N_THETA))
  {
  }

  lemma RanksBelow(count: nat)
    ensures forall c, t :: 0 <= c < count && 0 <= t < N_THETA ==> 0 <= Rank(c, t) < count * N_THETA
  {
  }

  // The k-th word of a map row copied from column gx0 on.
  lemma MapWord(p: Problem, v: seq<U16>, gx0: nat, gy: nat, i: nat, it: nat, k: nat)
    requires p.Valid() && |v| >= p.Size() && gy < p.h && gx0 + i < p.w && it < N_THETA && k == i * N_THETA + it
    ensures 0 <= (gy * p.w + gx0) * N_THETA + k < |v|
    ensures v[(gy * p.w + gx0) * N_THETA + k] == ValAt(p, p.Tab(v), gx0 + i, gy, it)
  {
    p.IdxBound(gx0 + i, gy, it);
    assert (gy * p.w + gx0) * N_THETA + k == p.Idx(gx0 + i, gy, it);
    assert State(gx0 + i, gy, it) in p.Tab(v);
  }

  method LoadPenRow(p: Problem, pen: array2<U16>, slot: int, gy: int, gx0: int, lxOff: int, count: int)
    requires p.Valid() && pen.Length0 == WINDOW && pen.Length1 == BUF_W && 0 <= slot < WINDOW
    requires count > 0 ==> 0 <= gy < p.h && 0 <= gx0 && gx0 + count <= p.w && 0 <= lxOff && lxOff + count <= BUF_W
    modifies pen
    ensures forall lx :: 0 <= lx < BUF_W ==>
      pen[slot, lx] == if lxOff <= lx < lxOff + count then p.PenAt(gx0 + lx - lxOff, gy) else PENALTY_OBSTACLE
    ensures forall r, c :: 0 <= r < WINDOW && 0 <= c < BUF_W && r != slot ==> pen[r, c] == old(pen[r, c])
  {
    for lx := 0 to BUF_W
      invariant forall c :: 0 <= c < lx ==> pen[slot, c] == PENALTY_OBSTACLE
      invariant forall r, c :: 0 <= r < WINDOW && 0 <= c < BUF_W && r != slot ==> pen[r, c] == old(pen[r, c])
    {
      pen[slot, lx] := PENALTY_OBSTACLE;
    }
    if count <= 0 { return; }
    var penBase := gy * p.w + gx0;
    for i := 0 to count
      invariant forall lx :: 0 <= lx < BUF_W ==>
        pen[slot, lx] == if lxOff <= lx < lxOff + i then p.PenAt(gx0 + lx - lxOff, gy) else PENALTY_OBSTACLE
      invariant forall r, c :: 0 <= r < WINDOW && 0 <= c < BUF_W && r != slot ==> pen[r, c] == old(pen[r, c])
    {
      p.CellBound(gx0 + i, gy);
      assert penBase + i == gy * p.w + (gx0 + i);
      pen[slot, lxOff + i] := p.pen[penBase + i];
    }
  }

  // The part of buffer row `gy` that lies inside the map.
  ghost predicate Span(p: Problem, x0: int, w: int, gy: int, gx0: int, lxOff: int, count: int) {
    && 0 <= x0 && 0 < w <= STRIP && x0 + w <= p.w
    && gx0 == (if x0 - HALO < 0 then 0 else x0 - HALO)
    && lxOff == gx0 - (x0 - HALO)
    && count == if 0 <= gy < p.h
                then (if x0 - HALO + w + 2 * HALO > p.w then p.w else x0 - HALO + w + 2 * HALO) - gx0 else 0
  }

  method LoadPenSlot(p: Problem, pen: array2<U16>, slot: int, x0: int, w: int, gy: int, gx0: int, lxOff: int, count: int)
    requires p.Valid() && pen.Length0 == WINDOW && pen.Length1 == BUF_W && 0 <= slot < WINDOW
    requires Span(p, x0, w, gy, gx0, lxOff, count)
    modifies pen
    ensures PenSlot(pen, p, x0, w, slot, gy)
    ensures forall r, c :: 0 <= r < WINDOW && 0 <= c < BUF_W && r != slot ==> pen[r, c] == old(pen[r, c])
  {
    LoadPenRow(p, pen, slot, gy, gx0, lxOff, count);
  }

  method LoadValSlot(value: array<U16>, p: Problem, val: array3<U16>, slot: int, x0: int, w: int,
                     gy: int, gx0: int, lxOff: int, count: int)
    requires p.Valid() && value.Length >= p.Size() && ValShape(val) && 0 <= slot < WINDOW
    requires Span(p, x0, w, gy, gx0, lxOff, count)
    modifies val
    ensures ValSlot(val, p, p.Tab(value[..]), x0, w, slot, gy)
    ensures forall r, c, t :: 0 <= r < WINDOW && 0 <= c < BUF_W && 0 <= t < N_THETA && r != slot ==>
      val[r, c, t] == old(val[r, c, t])
  {
    FillRow(val, slot);
    if count > 0 {
      CopyRow(value, p, val, slot, gy, gx0, lxOff, count);
    }
  }

  // Load map row gy of the strip into a slot: sentinels, then the in-map cells.
  method LoadRow(value: array<U16>, p: Problem, val: array3<U16>, pen0: array2<U16>, pen1: array2<U16>,
                 pen2: array2<U16>, slot: int, gy: int, x0: int, w: int)
    requires p.Valid() && value.Length >= p.Size() && ValShape(val) && PenShape(pen0, pen1, pen2)
    requires 0 <= slot < WINDOW && 0 <= x0 && 0 < w <= STRIP && x0 + w <= p.w
    modifies val, pen0, pen1, pen2
    ensures ValSlot(val, p, p.Tab(value[..]), x0, w, slot, gy)
    ensures PenSlot(pen0, p, x0, w, slot, gy) && PenSlot(pen1, p, x0, w, slot, gy) && PenSlot(pen2, p, x0, w, slot, gy)
    ensures forall r, c, t :: 0 <= r < WINDOW && 0 <= c < BUF_W && 0 <= t < N_THETA && r != slot ==>
      val[r, c, t] == old(val[r, c, t])
    ensures forall r, c :: 0 <= r < WINDOW && 0 <= c < BUF_W && r != slot ==>
      pen0[r, c] == old(pen0[r, c]) && pen1[r, c] == old(pen1[r, c]) && pen2[r, c] == old(pen2[r, c])
  {
    var bufW := w + 2 * HALO;
    var gxStart := x0 - HALO;
    var yOob := gy < 0 || gy >= p.h;
    var gx0 := if gxStart < 0 then 0 else gxStart;
    var gx1 := if gxStart + bufW > p.w then p.w else gxStart + bufW;
    var count := if yOob then 0 else gx1 - gx0;
    var lxOff := gx0 - gxStart;
    hide ValSlot, PenSlot, Problem.Tab, Problem.Valid;
    LoadPenSlot(p, pen0, slot, x0, w, gy, gx0, lxOff, count);
    LoadPenSlot(p, pen1, slot, x0, w, gy, gx0, lxOff, count);
    LoadPenSlot(p, pen2, slot, x0, w, gy, gx0, lxOff, count);
    LoadValSlot(value, p, val, slot, x0, w, gy, gx0, lxOff, count);
  }

  // ------------------------------------------------------------ compute one row

  // Everything the compute stage reads at scan row q.
  ghost predicate Ready(val: array3<U16>, pen0: array2<U16>, pen1: array2<U16>, pen2: array2<U16>,
                        p: Problem, V: Table, cu: int, x0: int, w: int, q: int)
    reads val, pen0, pen1, pen2
  {
    && p.Valid() && KernelTrans(p) && V.Keys == p.States()
    && ValShape(val) && PenShape(pen0, pen1, pen2)
    && 0 <= x0 && 0 < w <= STRIP && x0 + w <= p.w && 0 <= q < p.h
    && ValWindow(val, p, V, cu, x0, w, q - HALO, q + HALO)
    && PenWindow(pen0, p, cu, x0, w, q - HALO, q + HALO)
    && PenWindow(pen1, p, cu, x0, w, q - HALO, q + HALO)
    && PenWindow(pen2, p, cu, x0, w, q - HALO, q + HALO)
  }

  function Sign(cu: int): int { if cu == 0 then 1 else -1 }

  // The row lookup: the slot of the row a move of action a at theta it enters.
  ghost predicate Lookup(lut: array2<int>, p: Problem, cu: int, q: int)
    requires p.Valid()
    reads lut
  {
    && lut.Length0 == N_ACTIONS && lut.Length1 == N_THETA
    && forall a, it :: 0 <= a < N_ACTIONS && 0 <= it < N_THETA ==>
         lut[a, it] == Slot(q + Sign(cu) * p.DeltaAt(a, it).diy)
  }

  lemma RegisterAt(delta: array3<int>, p: Problem, a: nat, it: nat)
    requires p.Valid() && KernelTrans(p) && Registers(delta, p) && a < N_ACTIONS && it < N_THETA
    ensures delta.Length0 == N_ACTIONS && delta.Length1 == N_THETA && delta.Length2 == 3
    ensures delta[a, it, 1] == p.DeltaAt(a, it).diy && -HALO <= p.DeltaAt(a, it).diy <= HALO
  {
    hide Unpack;
    assert Delta(delta[a, it, 0], delta[a, it, 1], delta[a, it, 2]) == p.DeltaAt(a, it);
  }

  method PrecompNy(delta: array3<int>, p: Problem, cu: int, q: int, winCenter: int) returns (lut: array2<int>)
    requires p.Valid() && KernelTrans(p) && Registers(delta, p) && 0 <= q && winCenter == Slot(q)
    ensures fresh(lut) && Lookup(lut, p, cu, q)
  {
    hide Unpack, KernelTrans, Registers, Slot;
    lut := new int[N_ACTIONS, N_THETA];
    var ySign := if cu == 0 then 1 else -1;
    for a := 0 to N_ACTIONS
      invariant forall b, t :: 0 <= b < a && 0 <= t < N_THETA ==> lut[b, t] == Slot(q + Sign(cu) * p.DeltaAt(b, t).diy)
    {
      for it := 0 to N_THETA
        invariant forall b, t :: 0 <= b < a && 0 <= t < N_THETA ==> lut[b, t] == Slot(q + Sign(cu) * p.DeltaAt(b, t).diy)
        invariant forall t :: 0 <= t < it ==> lut[a, t] == Slot(q + Sign(cu) * p.DeltaAt(a, t).diy)
      {
        RegisterAt(delta, p, a, it);
        var diy := ySign * delta[a, it, 1];
        var ny := winCenter + diy;
        if ny < 0 { ny := ny + WINDOW; }
        else if ny >= WINDOW { ny := ny - WINDOW; }
        SlotShift(q, diy);
        lut[a, it] := ny;
      }
    }
  }

  lemma SlotShift(q: int, d: int)
    requires -HALO <= d <= HALO
    ensures var ny := Slot(q) + d;
            Slot(q + d) == if ny < 0 then ny + WINDOW else if ny >= WINDOW then ny - WINDOW else ny
  {
  }

  // The cost of a translating action, read from the window.
  method WindowCand(val: array3<U16>, pen: array2<U16>, lut: array2<int>, delta: array3<int>, p: Problem,
                    cu: int, x0: int, w: int, q: int, cx: int, it: int, a: int, nt: int, ghost V: Table)
    returns (c: U16)
    requires p.Valid() && KernelTrans(p) && Registers(delta, p) && Lookup(lut, p, cu, q) && 0 <= a < N_ACTIONS
    requires ValShape(val) && ValWindow(val, p, V, cu, x0, w, q - HALO, q + HALO)
    requires pen.Length0 == WINDOW && pen.Length1 == BUF_W && PenWindow(pen, p, cu, x0, w, q - HALO, q + HALO)
    requires 0 < w <= STRIP && HALO <= cx < w + HALO && 0 <= it < N_THETA
    requires nt == WrapTheta(it + Turn(a)) && 0 <= nt < N_THETA
    ensures c == RawCand(p, V, State(x0 - HALO + cx, RowOf(p, cu, q), it), a)
  {
    hide Unpack, CostRaw, Slot;
    assert Delta(delta[a, it, 0], delta[a, it, 1], delta[a, it, 2]) == p.DeltaAt(a, it);
    var nx := cx + delta[a, it, 0];
    ghost var r := q + Sign(cu) * p.DeltaAt(a, it).diy;
    assert RowOf(p, cu, r) == RowOf(p, cu, q) + p.DeltaAt(a, it).diy;
    SlotRange(r);
    assert ValSlot(val, p, V, x0, w, Slot(r), RowOf(p, cu, r));
    assert PenSlot(pen, p, x0, w, Slot(r), RowOf(p, cu, r));
    c := CostRaw(val[lut[a, it], nx, nt], pen[lut[a, it], nx]);
  }

  lemma SlotRange(q: int)
    ensures 0 <= Slot(q) < WINDOW
  {
  }

  // cache[it] is the cost of action a at theta it of the cell (x, y).
  ghost predicate Prefetched(cache: seq<U16>, p: Problem, V: Table, x: int, y: int, a: int, n: int)
    requires p.Valid() && 0 <= a < N_ACTIONS
  {
    |cache| == n && forall it :: 0 <= it < n && it < N_THETA ==> cache[it] == RawCand(p, V, State(x, y, it), a)
  }

  method Prefetch(val: array3<U16>, pen: array2<U16>, lut: array2<int>, delta: array3<int>, p: Problem,
                  cu: int, x0: int, w: int, q: int, cx: int, a: int, ghost V: Table)
    returns (cache: seq<U16>)
    requires p.Valid() && KernelTrans(p) && Registers(delta, p) && Lookup(lut, p, cu, q) && 0 <= a < N_ACTIONS
    requires ValShape(val) && ValWindow(val, p, V, cu, x0, w, q - HALO, q + HALO)
    requires pen.Length0 == WINDOW && pen.Length1 == BUF_W && PenWindow(pen, p, cu, x0, w, q - HALO, q + HALO)
    requires 0 < w <= STRIP && HALO <= cx < w + HALO
    ensures Prefetched(cache, p, V, x0 - HALO + cx, RowOf(p, cu, q), a, N_THETA)
  {
    hide RawCand, ValWindow, PenWindow, KernelTrans, Lookup, Registers;
    cache := [];
    for it := 0 to N_THETA
      invariant Prefetched(cache, p, V, x0 - HALO + cx, RowOf(p, cu, q), a, it)
    {
      var nt := it + Turn(a);
      if nt >= N_THETA { nt := nt - N_THETA; }
      if nt < 0 { nt := nt + N_THETA; }
      var c := WindowCand(val, pen, lut, delta, p, cu, x0, w, q, cx, it, a, nt, V);
      cache := cache + [c];
    }
  }

  // ------------------------------------------------------------ rotation chains

  // The theta whose value lane l of `prevRot` holds before theta n is computed.
  function PrevTheta(n: int, l: int): (t: int)
    requires 0 <= n <= N_THETA && 0 <= l < 3
    ensures 0 <= t < N_THETA && (t % 3 == l)
  {
    var step, lane := n / 3, n % 3;
    if l < lane then 3 * step + l else if step == 0 then N_THETA - 3 + l else 3 * (step - 1) + l
  }

  // What the registers hold before theta n of the cell (x, y).
  ghost predicate Registered(p: Problem, V: Table, x: int, y: int, n: nat,
                             centerOld: seq<U16>, prevRot: seq<U16>, firstNew: seq<U16>)
    requires p.Valid()
  {
    && n <= N_THETA && |centerOld| == N_THETA && |prevRot| == 3 && |firstNew| == 3
    && p.InMap(x, y) && V.Keys == p.States() && Chained(p, V, x, y, n).Keys == p.States()
    && (forall t :: 0 <= t < N_THETA ==> centerOld[t] == V[State(x, y, t)])
    && (forall l :: 0 <= l < 3 ==> prevRot[l] == Chained(p, V, x, y, n)[State(x, y, PrevTheta(n, l))])
    && (forall l :: 0 <= l < 3 ==> firstNew[l] == Chained(p, V, x, y, n)[State(x, y, l)])
  }

  lemma RegistersStart(p: Problem, V: Table, x: int, y: int, centerOld: seq<U16>)
    requires p.Valid() && p.InMap(x, y) && V.Keys == p.States() && |centerOld| == N_THETA
    requires forall t :: 0 <= t < N_THETA ==> centerOld[t] == V[State(x, y, t)]
    ensures Registered(p, V, x, y, 0, centerOld, centerOld[N_THETA - 3..], centerOld[..3])
  {
  }

  // The values the chains feed into the two turning actions of theta n are
  // those of the table updated so far.
  lemma ChainSources(p: Problem, V: Table, x: int, y: int, n: nat,
                     centerOld: seq<U16>, prevRot: seq<U16>, firstNew: seq<U16>)
    requires p.Valid() && n < N_THETA && Registered(p, V, x, y, n, centerOld, prevRot, firstNew)
    ensures (if n / 3 == N_THETA / 3 - 1 then firstNew[n % 3] else centerOld[n + 3])
         == ValAt(p, Chained(p, V, x, y, n), x, y, WrapTheta(n + 3))
    ensures prevRot[n % 3] == ValAt(p, Chained(p, V, x, y, n), x, y, WrapTheta(n - 3))
    ensures State(x, y, n) in Chained(p, V, x, y, n) && centerOld[n] == Chained(p, V, x, y, n)[State(x, y, n)]
  {
    hide Chained;
    assert PrevTheta(n, n % 3) == WrapTheta(n - 3);
    ChainedFrame(p, V, x, y, n);
    if n / 3 == N_THETA / 3 - 1 {
      assert WrapTheta(n + 3) == n % 3;
    }
  }

  lemma RegistersNext(p: Problem, V: Table, x: int, y: int, n: nat, newVal: U16,
                      centerOld: seq<U16>, prevRot: seq<U16>, firstNew: seq<U16>)
    requires p.Valid() && n < N_THETA && Registered(p, V, x, y, n, centerOld, prevRot, firstNew)
    requires State(x, y, n) in Chained(p, V, x, y, n + 1) && newVal == Chained(p, V, x, y, n + 1)[State(x, y, n)]
    ensures Registered(p, V, x, y, n + 1, centerOld, prevRot[n % 3 := newVal],
                       if n / 3 == 0 then firstNew[n % 3 := newVal] else firstNew)
  {
    hide KernelValue;
    ChainedFrame(p, V, x, y, n + 1);
    var prev' := prevRot[n % 3 := newVal];
    forall l | 0 <= l < 3
      ensures prev'[l] == Chained(p, V, x, y, n + 1)[State(x, y, PrevTheta(n + 1, l))]
    {
      PrevThetaNext(n, l);
    }
  }

  lemma PrevThetaNext(n: int, l: int)
    requires 0 <= n < N_THETA && 0 <= l < 3
    ensures PrevTheta(n + 1, l) == if l == n % 3 then n else PrevTheta(n, l)
    ensures l != n % 3 ==> PrevTheta(n, l) != n
  {
  }

  // The reduction over the caches and the registers is the kernel's value.
  lemma ChainIsKernelValue(p: Problem, V: Table, x: int, y: int, n: nat, rotPen: U16, c: seq<seq<U16>>,
                           centerOld: seq<U16>, prevRot: seq<U16>, firstNew: seq<U16>)
    requires p.Valid() && KernelTrans(p) && n < N_THETA
    requires Registered(p, V, x, y, n, centerOld, prevRot, firstNew) && rotPen == p.PenAt(x, y)
    requires |c| == 4 && Prefetched(c[0], p, V, x, y, 0, N_THETA) && Prefetched(c[1], p, V, x, y, 1, N_THETA)
    requires Prefetched(c[2], p, V, x, y, 4, N_THETA) && Prefetched(c[3], p, V, x, y, 5, N_THETA)
    ensures MinTree(c[0][n], c[1][n],
                    CostRaw(if n / 3 == N_THETA / 3 - 1 then firstNew[n % 3] else centerOld[n + 3], rotPen),
                    CostRaw(prevRot[n % 3], rotPen), c[2][n], c[3][n])
         == KernelValue(p, V, Chained(p, V, x, y, n), State(x, y, n))
  {
    hide RawCand, MinTree, CostRaw, Chained, ValAt, KernelTrans;
    ChainSources(p, V, x, y, n, centerOld, prevRot, firstNew);
    TurnCands(p, Chained(p, V, x, y, n), State(x, y, n));
  }

  lemma TurnCands(p: Problem, W: Table, s: State)
    requires p.Valid() && KernelTrans(p) && 0 <= s.t < N_THETA
    ensures RawCand(p, W, s, 2) == CostRaw(ValAt(p, W, s.x, s.y, WrapTheta(s.t + 3)), p.PenAt(s.x, s.y))
    ensures RawCand(p, W, s, 3) == CostRaw(ValAt(p, W, s.x, s.y, WrapTheta(s.t - 3)), p.PenAt(s.x, s.y))
  {
    hide Unpack, CostRaw;
    assert p.DeltaAt(2, s.t) == Delta(0, 0, 3);
    assert p.DeltaAt(3, s.t) == Delta(0, 0, -3);
  }

  // Writing one theta of the current cell into the centre row of the window.
  method WriteCenter(val: array3<U16>, p: Problem, cu: int, x0: int, w: int, q: int, cx: int, it: int, v: U16,
                     ghost V: Table)
    requires p.Valid() && ValShape(val) && ValWindow(val, p, V, cu, x0, w, q - HALO, q + HALO)
    requires 0 < w <= STRIP && HALO <= cx < w + HALO && 0 <= it < N_THETA && 0 <= Slot(q) < WINDOW
    requires State(x0 - HALO + cx, RowOf(p, cu, q), it) in V
    modifies val
    ensures ValWindow(val, p, V[State(x0 - HALO + cx, RowOf(p, cu, q), it) := v], cu, x0, w, q - HALO, q + HALO)
  {
    ghost var W := V[State(x0 - HALO + cx, RowOf(p, cu, q), it) := v];
    assert ValSlot(val, p, V, x0, w, Slot(q), RowOf(p, cu, q));
    val[Slot(q), cx, it] := v;
    forall r | q - HALO <= r <= q + HALO
      ensures ValSlot(val, p, W, x0, w, Slot(r), RowOf(p, cu, r))
    {
      assert old(ValSlot(val, p, V, x0, w, Slot(r), RowOf(p, cu, r)));
      if r != q {
        SlotsDistinct(q, r);
      }
    }
  }

  lemma ChainedNext(p: Problem, V: Table, x: int, y: int, n: nat, u: U16, v: U16)
    requires p.Valid() && n < N_THETA && V.Keys == p.States() && p.InMap(x, y)
    requires State(x, y, n) in Chained(p, V, x, y, n) && u == Chained(p, V, x, y, n)[State(x, y, n)]
    requires v == if State(x, y, n) in p.Free() then KernelValue(p, V, Chained(p, V, x, y, n), State(x, y, n)) else u
    ensures Chained(p, V, x, y, n).Keys == V.Keys == Chained(p, V, x, y, n + 1).Keys && State(x, y, n) in V
    ensures Chained(p, V, x, y, n)[State(x, y, n) := v] == Chained(p, V, x, y, n + 1)
    ensures ChainedDelta(p, V, x, y, n + 1)
         == Max(ChainedDelta(p, V, x, y, n), if State(x, y, n) in p.Free() then Diff(v, u) else 0)
  {
    hide KernelValue;
    assert State(x, y, n) in p.States();
    ChainedFrame(p, V, x, y, n);
  }

  // One lane of one step of the rotation loop.
  method ChainStep(val: array3<U16>, p: Problem, cu: int, x0: int, w: int, q: int, cx: int, step: int, lane: int,
                   c: seq<seq<U16>>, rotPen: U16, skip: bool,
                   centerOld: seq<U16>, prevRot: seq<U16>, firstNew: seq<U16>, ghost V: Table)
    returns (prev': seq<U16>, first': seq<U16>, maskedD: U16)
    requires 0 <= step < N_THETA / 3 && 0 <= lane < 3
    requires CellReady(val, p, cu, x0, w, q, cx, 3 * step + lane, c, rotPen, skip, centerOld, prevRot, firstNew, V)
    modifies val
    ensures CellReady(val, p, cu, x0, w, q, cx, 3 * step + lane + 1, c, rotPen, skip, centerOld, prev', first', V)
    ensures var x, y := x0 - HALO + cx, RowOf(p, cu, q);
            Max(ChainedDelta(p, V, x, y, 3 * step + lane), maskedD) == ChainedDelta(p, V, x, y, 3 * step + lane + 1)
  {
    hide KernelTrans, KernelValue, Chained, ChainedDelta, CostRaw, MinTree, Prefetched, ValWindow, Registered;
    var it := 3 * step + lane;
    ghost var x, y := x0 - HALO + cx, RowOf(p, cu, q);
    ghost var s := State(x, y, it);
    RegisterShapes(p, V, x, y, it, centerOld, prevRot, firstNew);
    assert it / 3 == step && it % 3 == lane;
    var oldVal := centerOld[it];
    var leftSrc := if step == N_THETA / 3 - 1 then firstNew[lane] else centerOld[it + 3];
    var rightSrc := prevRot[lane];
    CacheShapes(p, V, x, y, c);
    var minCost := MinTree(c[0][it], c[1][it], CostRaw(leftSrc, rotPen), CostRaw(rightSrc, rotPen), c[2][it], c[3][it]);
    var newVal := if skip then oldVal else minCost;
    assert s in p.States();
    assert s in p.Free() <==> !skip;
    ChainSources(p, V, x, y, it, centerOld, prevRot, firstNew);
    ChainIsKernelValue(p, V, x, y, it, rotPen, c, centerOld, prevRot, firstNew);
    ChainedNext(p, V, x, y, it, oldVal, newVal);
    SlotRange(q);
    WriteCenter(val, p, cu, x0, w, q, cx, it, newVal, Chained(p, V, x, y, it));
    assert Chained(p, V, x, y, it)[s := newVal] == Chained(p, V, x, y, it + 1);
    RegistersNext(p, V, x, y, it, newVal, centerOld, prevRot, firstNew);
    prev' := prevRot[lane := newVal];
    first' := if step == 0 then firstNew[lane := newVal] else firstNew;
    var d := if newVal > oldVal then newVal - oldVal else oldVal - newVal;
    maskedD := if skip then 0 else d;
  }

  // The state of the rotation loop before theta n of the cell at buffer column cx.
  ghost predicate CellReady(val: array3<U16>, p: Problem, cu: int, x0: int, w: int, q: int, cx: int, n: int,
                            c: seq<seq<U16>>, rotPen: U16, skip: bool,
                            centerOld: seq<U16>, prevRot: seq<U16>, firstNew: seq<U16>, V: Table)
    reads val
  {
    var x, y := x0 - HALO + cx, RowOf(p, cu, q);
    && p.Valid() && KernelTrans(p) && 0 <= n && 0 < w <= STRIP && HALO <= cx < w + HALO
    && p.InMap(x, y) && rotPen == p.PenAt(x, y) && (skip <==> rotPen >= PENALTY_GOAL)
    && |c| == 4 && Prefetched(c[0], p, V, x, y, 0, N_THETA) && Prefetched(c[1], p, V, x, y, 1, N_THETA)
    && Prefetched(c[2], p, V, x, y, 4, N_THETA) && Prefetched(c[3], p, V, x, y, 5, N_THETA)
    && Registered(p, V, x, y, n, centerOld, prevRot, firstNew)
    && ValShape(val) && ValWindow(val, p, Chained(p, V, x, y, n), cu, x0, w, q - HALO, q + HALO)
  }

  lemma RegisterShapes(p: Problem, V: Table, x: int, y: int, n: nat, centerOld: seq<U16>, prevRot: seq<U16>, firstNew: seq<U16>)
    requires p.Valid() && Registered(p, V, x, y, n, centerOld, prevRot, firstNew)
    ensures |centerOld| == N_THETA && |prevRot| == 3 && |firstNew| == 3 && V.Keys == p.States()
  {
  }

  lemma CacheShapes(p: Problem, V: Table, x: int, y: int, c: seq<seq<U16>>)
    requires p.Valid() && |c| == 4
    requires Prefetched(c[0], p, V, x, y, 0, N_THETA) && Prefetched(c[1], p, V, x, y, 1, N_THETA)
    requires Prefetched(c[2], p, V, x, y, 4, N_THETA) && Prefetched(c[3], p, V, x, y, 5, N_THETA)
    ensures forall i :: 0 <= i < 4 ==> |c[i]| == N_THETA
  {
  }

  method LoadCenter(val: array3<U16>, slot: int, cx: int) returns (centerOld: seq<U16>)
    requires ValShape(val) && 0 <= slot < WINDOW && 0 <= cx < BUF_W
    ensures |centerOld| == N_THETA && forall t :: 0 <= t < N_THETA ==> centerOld[t] == val[slot, cx, t]
  {
    centerOld := [];
    for it := 0 to N_THETA
      invariant |centerOld| == it && forall t :: 0 <= t < it ==> centerOld[t] == val[slot, cx, t]
    {
      centerOld := centerOld + [val[slot, cx, it]];
    }
  }

  // The 20 steps of the three chains over one cell.
  method RotationLoop(val: array3<U16>, p: Problem, cu: int, x0: int, w: int, q: int, cx: int,
                      c: seq<seq<U16>>, rotPen: U16, skip: bool, centerOld: seq<U16>, localMax0: U16, ghost V: Table)
    returns (localMax: U16)
    requires |centerOld| == N_THETA
    requires CellReady(val, p, cu, x0, w, q, cx, 0, c, rotPen, skip, centerOld, centerOld[N_THETA - 3..], centerOld[..3], V)
    modifies val
    ensures ValShape(val) && p.Valid() && V.Keys == p.States()
    ensures ValWindow(val, p, Chained(p, V, x0 - HALO + cx, RowOf(p, cu, q), N_THETA), cu, x0, w, q - HALO, q + HALO)
    ensures localMax == Max(localMax0, ChainedDelta(p, V, x0 - HALO + cx, RowOf(p, cu, q), N_THETA))
  {
    hide KernelTrans, Chained, ChainedDelta, Prefetched, ValWindow, Registered;
    localMax := localMax0;
    ghost var x, y := x0 - HALO + cx, RowOf(p, cu, q);
    var prevRot, firstNew := centerOld[N_THETA - 3..], centerOld[..3];
    RegisterShapes(p, V, x, y, 0, centerOld, prevRot, firstNew);
    assert ChainedDelta(p, V, x, y, 0) == 0 by { DeltaStart(p, V, x, y); }
    for step := 0 to N_THETA / 3
      invariant CellReady(val, p, cu, x0, w, q, cx, 3 * step, c, rotPen, skip, centerOld, prevRot, firstNew, V)
      invariant localMax == Max(localMax0, ChainedDelta(p, V, x, y, 3 * step))
    {
      for lane := 0 to 3
        invariant CellReady(val, p, cu, x0, w, q, cx, 3 * step + lane, c, rotPen, skip, centerOld, prevRot, firstNew, V)
        invariant localMax == Max(localMax0, ChainedDelta(p, V, x, y, 3 * step + lane))
      {
        var d;
        prevRot, firstNew, d := ChainStep(val, p, cu, x0, w, q, cx, step, lane, c, rotPen, skip, centerOld, prevRot, firstNew, V);
        if d > localMax { localMax := d; }
      }
    }
  }

  lemma DeltaStart(p: Problem, V: Table, x: int, y: int)
    requires p.Valid()
    ensures ChainedDelta(p, V, x, y, 0) == 0
  {
  }

  // What the window holds of the cell at column cx of row q.
  lemma CenterHeld(val: array3<U16>, pen0: array2<U16>, pen1: array2<U16>, pen2: array2<U16>, p: Problem, V: Table,
                   cu: int, x0: int, w: int, q: int, cx: int)
    requires p.Valid() && Ready(val, pen0, pen1, pen2, p, V, cu, x0, w, q) && HALO <= cx < w + HALO
    ensures 0 <= Slot(q) < WINDOW && cx < BUF_W && p.InMap(x0 - HALO + cx, RowOf(p, cu, q))
    ensures pen0[Slot(q), cx] == pen1[Slot(q), cx] == p.PenAt(x0 - HALO + cx, RowOf(p, cu, q))
    ensures forall t :: 0 <= t < N_THETA ==>
      var s := State(x0 - HALO + cx, RowOf(p, cu, q), t); s in V && val[Slot(q), cx, t] == V[s]
  {
    hide KernelTrans, Slot, Problem.PenAt;
    SlotRange(q);
    var y := RowOf(p, cu, q);
    assert ValSlot(val, p, V, x0, w, Slot(q), y);
    assert PenSlot(pen0, p, x0, w, Slot(q), y) && PenSlot(pen1, p, x0, w, Slot(q), y);
  }

  // One active column of the row: prefetch, then rotate.
  method ComputeColumn(val: array3<U16>, pen0: array2<U16>, pen1: array2<U16>, pen2: array2<U16>, delta: array3<int>,
                       lut: array2<int>, p: Problem, cu: int, x0: int, w: int, q: int, ix: int, localMax0: U16,
                       ghost V: Table)
    returns (localMax: U16)
    requires p.Valid() && Ready(val, pen0, pen1, pen2, p, V, cu, x0, w, q)
    requires Registers(delta, p) && Lookup(lut, p, cu, q) && 0 <= ix < w
    modifies val
    ensures var c := CellSwept(p, V, x0 + ix, RowOf(p, cu, q));
            && Ready(val, pen0, pen1, pen2, p, c.V, cu, x0, w, q)
            && localMax == Max(localMax0, c.delta)
  {
    hide KernelTrans, Chained, ChainedDelta, Registers, Lookup, ValWindow, PenWindow, Slot, RowOf;
    var cx := ix + HALO;
    ghost var x, y := x0 + ix, RowOf(p, cu, q);
    CenterHeld(val, pen0, pen1, pen2, p, V, cu, x0, w, q, cx);
    var cellPen := pen0[Slot(q), cx];
    var rotPen := pen1[Slot(q), cx];
    var skip := cellPen >= PENALTY_GOAL;
    var centerOld := LoadCenter(val, Slot(q), cx);
    var fw := Prefetch(val, pen0, lut, delta, p, cu, x0, w, q, cx, 0, V);
    var bw := Prefetch(val, pen0, lut, delta, p, cu, x0, w, q, cx, 1, V);
    var fl := Prefetch(val, pen2, lut, delta, p, cu, x0, w, q, cx, 4, V);
    var fr := Prefetch(val, pen2, lut, delta, p, cu, x0, w, q, cx, 5, V);
    var c := [fw, bw, fl, fr];
    CellStarts(val, p, cu, x0, w, q, cx, c, rotPen, skip, centerOld, V);
    localMax := RotationLoop(val, p, cu, x0, w, q, cx, c, rotPen, skip, centerOld, localMax0, V);
    ChainedFrame(p, V, x, y, N_THETA);
  }

  lemma CellStarts(val: array3<U16>, p: Problem, cu: int, x0: int, w: int, q: int, cx: int,
                   c: seq<seq<U16>>, rotPen: U16, skip: bool, centerOld: seq<U16>, V: Table)
    requires p.Valid() && KernelTrans(p) && 0 < w <= STRIP && HALO <= cx < w + HALO && V.Keys == p.States()
    requires ValShape(val) && ValWindow(val, p, V, cu, x0, w, q - HALO, q + HALO)
    requires var x, y := x0 - HALO + cx, RowOf(p, cu, q);
      && p.InMap(x, y) && rotPen == p.PenAt(x, y) && (skip <==> rotPen >= PENALTY_GOAL)
      && |centerOld| == N_THETA && (forall t :: 0 <= t < N_THETA ==> centerOld[t] == V[State(x, y, t)])
      && |c| == 4 && Prefetched(c[0], p, V, x, y, 0, N_THETA) && Prefetched(c[1], p, V, x, y, 1, N_THETA)
      && Prefetched(c[2], p, V, x, y, 4, N_THETA) && Prefetched(c[3], p, V, x, y, 5, N_THETA)
    ensures CellReady(val, p, cu, x0, w, q, cx, 0, c, rotPen, skip, centerOld, centerOld[N_THETA - 3..], centerOld[..3], V)
  {
    hide KernelTrans, Prefetched, ValWindow, Registered;
    var x, y := x0 - HALO + cx, RowOf(p, cu, q);
    RegistersStart(p, V, x, y, centerOld);
  }

  // An inactive column of the fixed-length loop writes back what it read.
  method IdleColumn(val: array3<U16>, slot: int)
    requires ValShape(val) && 0 <= slot < WINDOW
    modifies val
    ensures forall r, c, t :: 0 <= r < WINDOW && 0 <= c < BUF_W && 0 <= t < N_THETA ==> val[r, c, t] == old(val[r, c, t])
  {
    var centerOld := LoadCenter(val, slot, HALO);
    for it := 0 to N_THETA
      invariant forall r, c, t :: 0 <= r < WINDOW && 0 <= c < BUF_W && 0 <= t < N_THETA ==> val[r, c, t] == old(val[r, c, t])
    {
      val[slot, HALO, it] := centerOld[it];
    }
  }

  // One row: exactly the in-place update of its cells in scan direction.
  method ComputeRow(val: array3<U16>, pen0: array2<U16>, pen1: array2<U16>, pen2: array2<U16>, delta: array3<int>,
                    p: Problem, cu: int, x0: int, w: nat, q: int, winCenter: int, ghost V0: Table)
    returns (localMax: U16)
    requires p.Valid() && Ready(val, pen0, pen1, pen2, p, V0, cu, x0, w, q)
    requires Registers(delta, p) && winCenter == Slot(q)
    modifies val
    ensures var r := RowSwept(p, V0, cu, RowOf(p, cu, q), x0, w, w);
            && Ready(val, pen0, pen1, pen2, p, r.V, cu, x0, w, q)
            && localMax == r.delta
  {
    hide CellSwept, Registers, KernelTrans, ValWindow, PenWindow;
    var lut := PrecompNy(delta, p, cu, q, winCenter);
    localMax := 0;
    ghost var y := RowOf(p, cu, q);
    SlotRange(q);
    for ixRaw := 0 to STRIP
      invariant Lookup(lut, p, cu, q) && Registers(delta, p)
      invariant var n := if ixRaw < w then ixRaw else w;
        && Ready(val, pen0, pen1, pen2, p, RowSwept(p, V0, cu, y, x0, w, n).V, cu, x0, w, q)
        && localMax == RowSwept(p, V0, cu, y, x0, w, n).delta
    {
      if ixRaw < w {
        var ix := if cu == 0 then ixRaw else w - 1 - ixRaw;
        localMax := ComputeColumn(val, pen0, pen1, pen2, delta, lut, p, cu, x0, w, q, ix, localMax,
                                  RowSwept(p, V0, cu, y, x0, w, ixRaw).V);
      } else {
        IdleKeeps(val, pen0, pen1, pen2, p, RowSwept(p, V0, cu, y, x0, w, w).V, cu, x0, w, q);
      }
    }
  }

  method IdleKeeps(val: array3<U16>, pen0: array2<U16>, pen1: array2<U16>, pen2: array2<U16>,
                   p: Problem, ghost V: Table, cu: int, x0: int, w: int, q: int)
    requires Ready(val, pen0, pen1, pen2, p, V, cu, x0, w, q)
    modifies val
    ensures Ready(val, pen0, pen1, pen2, p, V, cu, x0, w, q)
  {
    hide KernelTrans, PenWindow, Slot;
    SlotRange(q);
    IdleColumn(val, Slot(q));
    forall r | q - HALO <= r <= q + HALO
      ensures ValSlot(val, p, V, x0, w, Slot(r), RowOf(p, cu, r))
    {
      assert old(ValSlot(val, p, V, x0, w, Slot(r), RowOf(p, cu, r)));
    }
  }

  // ------------------------------------------------------------ store one row

  // The flattened copy of the strip's cells of one slot back to map row gy.
  method StoreRow(value: array<U16>, p: Problem, val: array3<U16>, slot: int, gy: int, x0: int, w: int, ghost W: Table)
    requires p.Valid() && value.Length >= p.Size() && W.Keys == p.States() && ValShape(val)
    requires 0 <= slot < WINDOW && ValSlot(val, p, W, x0, w, slot, gy)
    requires 0 <= gy < p.h && 0 <= x0 && 0 < w <= STRIP && x0 + w <= p.w
    modifies value
    ensures forall s :: s in W ==>
      p.Tab(value[..])[s] == (if s.y == gy && x0 <= s.x < x0 + w then W[s] else old(p.Tab(value[..]))[s])
  {
    hide Problem.Tab, Problem.Idx, Rank;
    ghost var T0 := p.Tab(value[..]);
    var valBase := (gy * p.w + x0) * N_THETA;
    var valTotal := w * N_THETA;
    RanksBelow(w);
    for k := 0 to valTotal
      invariant RowCopied(p.Tab(value[..]), T0, W, gy, x0, w, k)
    {
      var ix, it := k / N_THETA, k % N_THETA;
      ghost var s := State(x0 + ix, gy, it);
      WordPlace(p, x0, gy, ix, it, k);
      RankStep(k);
      assert val[slot, ix + HALO, it] == W[s];
      WriteWord(value, p, valBase + k, val[slot, ix + HALO, it], s);
    }
  }

  lemma WordPlace(p: Problem, x0: nat, gy: nat, i: nat, it: nat, k: nat)
    requires k == i * N_THETA + it
    ensures (gy * p.w + x0) * N_THETA + k == p.Idx(x0 + i, gy, it)
  {
  }

  // The first k words of the strip's row gy are those of W, the others those of T0.
  ghost predicate RowCopied(T: Table, T0: Table, W: Table, gy: int, x0: int, w: int, k: int) {
    && T.Keys == T0.Keys == W.Keys
    && forall s :: s in W ==>
         T[s] == (if s.y == gy && x0 <= s.x < x0 + w && Rank(s.x - x0, s.t) < k then W[s] else T0[s])
  }

  // A row update changes nothing outside the strip's cells of that row.
  lemma RowStored(p: Problem, T: Table, V: Table, cu: int, y: int, x0: int, w: nat)
    requires p.Valid() && V.Keys == p.States() == T.Keys
    requires RowSwept(p, V, cu, y, x0, w, w).V.Keys == V.Keys
    requires forall s :: s in T ==>
      T[s] == (if s.y == y && x0 <= s.x < x0 + w then RowSwept(p, V, cu, y, x0, w, w).V[s] else V[s])
    ensures T == RowSwept(p, V, cu, y, x0, w, w).V
  {
    hide RowSwept;
    RowSweptFrame(p, V, cu, y, x0, w, w);
  }

  // ------------------------------------------------------------ a strip

  // Extend the window by scan row q, reusing the slot 13 rows back.
  method LoadScanRow(value: array<U16>, p: Problem, val: array3<U16>, pen0: array2<U16>, pen1: array2<U16>,
                     pen2: array2<U16>, cu: int, x0: int, w: int, lo: int, q: int, slot: int, gy: int)
    requires p.Valid() && value.Length >= p.Size() && ValShape(val) && PenShape(pen0, pen1, pen2)
    requires 0 <= x0 && 0 < w <= STRIP && x0 + w <= p.w
    requires lo <= q < lo + WINDOW && slot == Slot(q) && gy == RowOf(p, cu, q)
    requires Windows(val, pen0, pen1, pen2, p, p.Tab(value[..]), cu, x0, w, lo, q - 1)
    modifies val, pen0, pen1, pen2
    ensures Windows(val, pen0, pen1, pen2, p, p.Tab(value[..]), cu, x0, w, lo, q)
  {
    hide Slot, Problem.Tab, Problem.Valid;
    SlotRange(q);
    ghost var V := p.Tab(value[..]);
    LoadRow(value, p, val, pen0, pen1, pen2, slot, gy, x0, w);
    forall r | lo <= r <= q
      ensures ValSlot(val, p, V, x0, w, Slot(r), RowOf(p, cu, r))
      ensures PenSlot(pen0, p, x0, w, Slot(r), RowOf(p, cu, r))
      ensures PenSlot(pen1, p, x0, w, Slot(r), RowOf(p, cu, r))
      ensures PenSlot(pen2, p, x0, w, Slot(r), RowOf(p, cu, r))
    {
      if r < q {
        SlotsDistinct(q, r);
        assert old(ValSlot(val, p, V, x0, w, Slot(r), RowOf(p, cu, r)));
        assert old(PenSlot(pen0, p, x0, w, Slot(r), RowOf(p, cu, r)));
        assert old(PenSlot(pen1, p, x0, w, Slot(r), RowOf(p, cu, r)));
        assert old(PenSlot(pen2, p, x0, w, Slot(r), RowOf(p, cu, r)));
      }
    }
  }

  ghost predicate Windows(val: array3<U16>, pen0: array2<U16>, pen1: array2<U16>, pen2: array2<U16>,
                          p: Problem, V: Table, cu: int, x0: int, w: int, lo: int, hi: int)
    requires p.Valid() && ValShape(val) && PenShape(pen0, pen1, pen2)
    reads val, pen0, pen1, pen2
  {
    && ValWindow(val, p, V, cu, x0, w, lo, hi)
    && PenWindow(pen0, p, cu, x0, w, lo, hi)
    && PenWindow(pen1, p, cu, x0, w, lo, hi)
    && PenWindow(pen2, p, cu, x0, w, lo, hi)
  }

  // One row of the strip: compute it in the window, store it, load the row
  // seven ahead into the slot of the row six behind.
  method StripStep(value: array<U16>, p: Problem, val: array3<U16>, pen0: array2<U16>, pen1: array2<U16>,
                   pen2: array2<U16>, delta: array3<int>, cu: int, x0: int, w: nat, iyRaw: nat)
    returns (rowDelta: U16)
    requires p.Valid() && value.Length >= p.Size() && KernelTrans(p) && Registers(delta, p)
    requires ValShape(val) && PenShape(pen0, pen1, pen2)
    requires 0 <= x0 && 0 < w <= STRIP && x0 + w <= p.w && iyRaw < p.h
    requires Windows(val, pen0, pen1, pen2, p, p.Tab(value[..]), cu, x0, w, iyRaw - HALO, iyRaw + HALO)
    modifies value, val, pen0, pen1, pen2
    ensures Windows(val, pen0, pen1, pen2, p, p.Tab(value[..]), cu, x0, w, iyRaw + 1 - HALO, iyRaw + 1 + HALO)
    ensures var r := RowSwept(p, old(p.Tab(value[..])), cu, RowOf(p, cu, iyRaw), x0, w, w);
      && p.Tab(value[..]) == r.V && rowDelta == r.delta
  {
    hide RowSwept, Registers, KernelTrans, Problem.Tab, ValSlot, PenSlot;
    ghost var V := p.Tab(value[..]);
    var iy := if cu == 0 then iyRaw else p.h - 1 - iyRaw;
    var winCenter := (iyRaw + HALO) % WINDOW;
    rowDelta := ComputeRow(val, pen0, pen1, pen2, delta, p, cu, x0, w, iyRaw, winCenter, V);
    ghost var W := RowSwept(p, V, cu, iy, x0, w, w).V;
    assert ValSlot(val, p, W, x0, w, Slot(iyRaw), RowOf(p, cu, iyRaw));
    StoreRow(value, p, val, winCenter, iy, x0, w, W);
    RowStored(p, p.Tab(value[..]), V, cu, iy, x0, w);
    var nextGy := if cu == 0 then iyRaw + HALO + 1 else (p.h - 1) - (iyRaw + HALO + 1);
    SlotEvicts(iyRaw);
    LoadScanRow(value, p, val, pen0, pen1, pen2, cu, x0, w, iyRaw + 1 - HALO, iyRaw + 1 + HALO, iyRaw % WINDOW, nextGy);
  }

  // The slot of the row six behind is the slot of the row seven ahead.
  lemma SlotEvicts(q: nat)
    ensures q % WINDOW == Slot(q + HALO + 1) == Slot(q - HALO)
  {
  }

  lemma WindowsNone(val: array3<U16>, pen0: array2<U16>, pen1: array2<U16>, pen2: array2<U16>,
                    p: Problem, V: Table, cu: int, x0: int, w: int)
    requires p.Valid() && ValShape(val) && PenShape(pen0, pen1, pen2)
    ensures Windows(val, pen0, pen1, pen2, p, V, cu, x0, w, -HALO, -HALO - 1)
  {
  }

  lemma StripNone(p: Problem, V: Table, cu: int, x0: int, w: nat)
    requires p.Valid()
    ensures StripSwept(p, V, cu, x0, w, 0) == Swept(V, 0)
  {
  }

  lemma StripNext(p: Problem, V: Table, cu: int, x0: int, w: nat, n: nat)
    requires p.Valid()
    ensures var a := StripSwept(p, V, cu, x0, w, n);
            var r := RowSwept(p, a.V, cu, RowOf(p, cu, n), x0, w, w);
            StripSwept(p, V, cu, x0, w, n + 1) == Swept(r.V, Max(a.delta, r.delta))
  {
    hide RowSwept;
  }

  // Stream one strip through the window: exactly the in-place update of its
  // cells in scan order.
  method StreamStrip(value: array<U16>, p: Problem, delta: array3<int>, x0: int, w: nat, cu: int)
    returns (localMax: U16)
    requires p.Valid() && value.Length >= p.Size() && KernelTrans(p) && Registers(delta, p)
    requires 0 <= x0 && 0 < w <= STRIP && x0 + w <= p.w
    modifies value
    ensures Swept(p.Tab(value[..]), localMax) == StripSwept(p, old(p.Tab(value[..])), cu, x0, w, p.h)
  {
    hide RowSwept, StripSwept, Registers, KernelTrans, Problem.Tab, Windows, RowOf, Slot;
    var val := new U16[WINDOW, BUF_W, N_THETA];
    var pen0 := new U16[WINDOW, BUF_W];
    var pen1 := new U16[WINDOW, BUF_W];
    var pen2 := new U16[WINDOW, BUF_W];
    localMax := 0;
    ghost var V0 := p.Tab(value[..]);
    WindowsNone(val, pen0, pen1, pen2, p, V0, cu, x0, w);
    StripNone(p, V0, cu, x0, w);
    for wr := 0 to WINDOW
      invariant p.Tab(value[..]) == V0
      invariant Windows(val, pen0, pen1, pen2, p, V0, cu, x0, w, -HALO, wr - HALO - 1)
    {
      var gy := if cu == 0 then -HALO + wr else (p.h - 1) + HALO - wr;
      InitRow(p, cu, wr, gy);
      LoadScanRow(value, p, val, pen0, pen1, pen2, cu, x0, w, -HALO, wr - HALO, wr, gy);
    }
    for iyRaw := 0 to p.h
      invariant Registers(delta, p)
      invariant Windows(val, pen0, pen1, pen2, p, p.Tab(value[..]), cu, x0, w, iyRaw - HALO, iyRaw + HALO)
      invariant Swept(p.Tab(value[..]), localMax) == StripSwept(p, V0, cu, x0, w, iyRaw)
    {
      StripNext(p, V0, cu, x0, w, iyRaw);
      var d := StripStep(value, p, val, pen0, pen1, pen2, delta, cu, x0, w, iyRaw);
      if d > localMax { localMax := d; }
    }
  }

  lemma InitRow(p: Problem, cu: int, wr: nat, gy: int)
    requires wr < WINDOW && gy == if cu == 0 then -HALO + wr else (p.h - 1) + HALO - wr
    ensures Slot(wr - HALO) == wr && gy == RowOf(p, cu, wr - HALO)
  {
  }

  // ------------------------------------------------------------ the kernel

  // The strip sx, cut off at the map's edge.
  method StreamAt(value: array<U16>, p: Problem, delta: array3<int>, sx: int, cu: int) returns (localMax: U16)
    requires p.Valid() && value.Length >= p.Size() && KernelTrans(p) && Registers(delta, p) && 0 <= sx < NumStrips(p)
    modifies value
    ensures StripWidth(p, sx) > 0
    ensures Swept(p.Tab(value[..]), localMax) == StripSwept(p, old(p.Tab(value[..])), cu, sx * STRIP, StripWidth(p, sx), p.h)
  {
    hide Registers, KernelTrans, StripSwept, Problem.Tab;
    WidthPositive(p, sx);
    var x0 := sx * STRIP;
    var w := if x0 + STRIP > p.w then p.w - x0 else STRIP;
    localMax := StreamStrip(value, p, delta, x0, w, cu);
  }

  lemma StreamNone(p: Problem, V: Table, cu: int)
    requires p.Valid()
    ensures StreamSwept(p, V, cu, 0) == Swept(V, 0)
  {
  }

  lemma StreamNext(p: Problem, V: Table, cu: int, n: nat)
    requires p.Valid() && n < NumStrips(p)
    ensures var a, sx := StreamSwept(p, V, cu, n), StripAt(p, cu, n);
            0 <= sx < NumStrips(p) && 0 < StripWidth(p, sx)
            && var r := StripSwept(p, a.V, cu, sx * STRIP, StripWidth(p, sx), p.h);
            StreamSwept(p, V, cu, n + 1) == Swept(r.V, Max(a.delta, r.delta))
  {
    hide StripSwept;
    WidthPositive(p, StripAt(p, cu, n));
  }

  // One invocation: unit 0 takes the left half of the strips from the left,
  // any other unit the right half from the right.
  method ViSweepStream(value: array<U16>, p: Problem, cu: int) returns (maxDelta: U16)
    requires p.Valid() && value.Length >= p.Size() && KernelTrans(p)
    modifies value
    ensures (NumStrips(p) + 1) / 2 <= NumStrips(p)
    ensures Swept(p.Tab(value[..]), maxDelta) == StreamSwept(p, old(p.Tab(value[..])), cu, (NumStrips(p) + 1) / 2)
    // The in-place update, except where a stale cost may be read.
    ensures StreamExact.StreamSafe(p, old(p.Tab(value[..]))) ==>
      && p.Tab(value[..]) == Run(p.Net(), old(p.Tab(value[..])), StreamOrder(p, cu, (NumStrips(p) + 1) / 2))
      && maxDelta == RunDelta(p.Net(), old(p.Tab(value[..])), StreamOrder(p, cu, (NumStrips(p) + 1) / 2))
  {
    hide Registers, KernelTrans, StreamSwept, StripSwept, Problem.Tab, Run, RunDelta, StreamExact.StreamSafe, StreamOrder, StripWidth;
    var delta := new int[N_ACTIONS, N_THETA, 3];
    LoadTransitions(p, delta);
    var numStrips := (p.w + STRIP - 1) / STRIP;
    var halfStrips := (numStrips + 1) / 2;
    maxDelta := 0;
    ghost var V0 := p.Tab(value[..]);
    StreamNone(p, V0, cu);
    for si := 0 to halfStrips
      invariant Registers(delta, p)
      invariant Swept(p.Tab(value[..]), maxDelta) == StreamSwept(p, V0, cu, si)
    {
      var sx := if cu == 0 then si else numStrips - 1 - si;
      if sx < 0 || sx >= numStrips { assert false; break; }
      StreamNext(p, V0, cu, si);
      var d := StreamAt(value, p, delta, sx, cu);
      if d > maxDelta { maxDelta := d; }
    }
    if StreamExact.StreamSafe(p, V0) {
      StreamExact.StreamIsRun(p, V0, cu, halfStrips);
    }
  }
}
