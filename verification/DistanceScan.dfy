// The two-pass scans: the chessboard distance of the local window module and
// the 3-4 chamfer distance of the simulator.
module DistanceScan {
  import opened Basics
  import opened Distance

  // Where a neighbour of a cell lies in the flat array.
  lemma Neighbour(d: seq<nat>, w: nat, h: nat, x: int, y: int, ox: int, oy: int, j: int)
    requires |d| == w * h && InGrid(w, h, x, y) && InGrid(w, h, x + ox, y + oy) && -1 <= oy <= 1
    requires j == y * w + x + (if oy == 1 then w as int else if oy == -1 then 0 - w else 0) + ox
    ensures 0 <= j < |d| && d[j] == At(d, w, h, x + ox, y + oy)
  {
    RowBelow(y + oy, h, w, x + ox);
    assert (y + oy) * w == y * w + oy * w;
  }

  // One neighbour's share of the scan, or none if it is outside.
  lemma Relaxed(m: Metric, v: nat, d: seq<nat>, w: nat, h: nat, x: int, y: int, ox: int, oy: int, k: nat, j: int)
    requires |d| == w * h && InGrid(w, h, x, y) && -1 <= oy <= 1
    requires j == y * w + x + (if oy == 1 then w as int else if oy == -1 then 0 - w else 0) + ox
    ensures if InGrid(w, h, x + ox, y + oy)
            then 0 <= j < |d| && Relax(m, v, d, w, h, x + ox, y + oy, k) == MinOf(v, m.Add(d[j], k))
            else Relax(m, v, d, w, h, x + ox, y + oy, k) == v
  {
    hide MinOf, Metric.Add;
    if InGrid(w, h, x + ox, y + oy) { Neighbour(d, w, h, x, y, ox, oy, j); }
  }

  method ForwardCell(m: Metric, d: array<nat>, w: nat, h: nat, x: nat, y: nat)
    requires d.Length == w * h && InGrid(w, h, x, y)
    modifies d
    ensures 0 <= y * w + x < d.Length && d[..] == old(d[..])[y * w + x := Scanned(m, 1, old(d[..]), w, h, x, y)]
  {
    hide Relax, MinOf, Metric.Add, Metric.Axial, Metric.Diagonal;
    ghost var e := d[..];
    var i := y * w + x;
    Neighbour(e, w, h, x, y, 0, 0, i);
    var v := d[i];
    Relaxed(m, v, e, w, h, x, y, -1, 0, m.Axial(), i - 1);
    if x > 0 { v := MinOf(v, m.Add(d[i - 1], m.Axial())); }
    Relaxed(m, v, e, w, h, x, y, 0, -1, m.Axial(), i - w);
    ghost var u := if y > 0 then MinOf(v, m.Add(d[i - w], m.Axial())) else v;
    Relaxed(m, u, e, w, h, x, y, -1, -1, m.Diagonal(), i - w - 1);
    ghost var t := if y > 0 && x > 0 then MinOf(u, m.Add(d[i - w - 1], m.Diagonal())) else u;
    Relaxed(m, t, e, w, h, x, y, 1, -1, m.Diagonal(), i - w + 1);
    if y > 0 {
      v := MinOf(v, m.Add(d[i - w], m.Axial()));
      if x > 0 { v := MinOf(v, m.Add(d[i - w - 1], m.Diagonal())); }
      if x + 1 < w { v := MinOf(v, m.Add(d[i - w + 1], m.Diagonal())); }
    }
    d[i] := v;
  }

  method BackwardCell(m: Metric, d: array<nat>, w: nat, h: nat, x: nat, y: nat)
    requires d.Length == w * h && InGrid(w, h, x, y)
    modifies d
    ensures 0 <= y * w + x < d.Length && d[..] == old(d[..])[y * w + x := Scanned(m, -1, old(d[..]), w, h, x, y)]
  {
    hide Relax, MinOf, Metric.Add, Metric.Axial, Metric.Diagonal;
    ghost var e := d[..];
    var i := y * w + x;
    Neighbour(e, w, h, x, y, 0, 0, i);
    var v := d[i];
    Relaxed(m, v, e, w, h, x, y, 1, 0, m.Axial(), i + 1);
    if x + 1 < w { v := MinOf(v, m.Add(d[i + 1], m.Axial())); }
    Relaxed(m, v, e, w, h, x, y, 0, 1, m.Axial(), i + w);
    ghost var u := if y + 1 < h then MinOf(v, m.Add(d[i + w], m.Axial())) else v;
    Relaxed(m, u, e, w, h, x, y, 1, 1, m.Diagonal(), i + w + 1);
    ghost var t := if y + 1 < h && x + 1 < w then MinOf(u, m.Add(d[i + w + 1], m.Diagonal())) else u;
    Relaxed(m, t, e, w, h, x, y, -1, 1, m.Diagonal(), i + w - 1);
    if y + 1 < h {
      v := MinOf(v, m.Add(d[i + w], m.Axial()));
      if x + 1 < w { v := MinOf(v, m.Add(d[i + w + 1], m.Diagonal())); }
      if x > 0 { v := MinOf(v, m.Add(d[i + w - 1], m.Diagonal())); }
    }
    d[i] := v;
  }

  method ForwardPass(m: Metric, d: array<nat>, obs: seq<bool>, w: nat, h: nat)
    requires d.Length == |obs| == w * h && Sound(m, m.Cap(), d[..], obs, w, h)
    modifies d
    ensures Sound(m, m.Cap(), d[..], obs, w, h) && LeqField(d[..], old(d[..]), w, h)
    ensures TightBehind(m, 1, d[..], w, h, 0, h)
  {
    hide Sound, At, Scanned, Tight;
    ghost var e := d[..];
    for y := 0 to h
      invariant Sound(m, m.Cap(), d[..], obs, w, h) && LeqField(d[..], e, w, h)
      invariant TightBehind(m, 1, d[..], w, h, 0, y)
    {
      for x := 0 to w
        invariant Sound(m, m.Cap(), d[..], obs, w, h) && LeqField(d[..], e, w, h)
        invariant TightBehind(m, 1, d[..], w, h, x, y)
      {
        ScanStep(m, 1, d[..], obs, w, h, x, y);
        ForwardCell(m, d, w, h, x, y);
      }
    }
  }

  method BackwardPass(m: Metric, d: array<nat>, obs: seq<bool>, w: nat, h: nat)
    requires d.Length == |obs| == w * h && Sound(m, m.Cap(), d[..], obs, w, h)
    modifies d
    ensures Sound(m, m.Cap(), d[..], obs, w, h) && LeqField(d[..], old(d[..]), w, h)
    ensures TightBehind(m, -1, d[..], w, h, w - 1, -1)
  {
    hide Sound, At, Scanned, Tight;
    ghost var e := d[..];
    for y := h downto 0
      invariant Sound(m, m.Cap(), d[..], obs, w, h) && LeqField(d[..], e, w, h)
      invariant TightBehind(m, -1, d[..], w, h, w - 1, y - 1)
    {
      for x := w downto 0
        invariant Sound(m, m.Cap(), d[..], obs, w, h) && LeqField(d[..], e, w, h)
        invariant TightBehind(m, -1, d[..], w, h, x - 1, y)
      {
        ScanStep(m, -1, d[..], obs, w, h, x, y);
        BackwardCell(m, d, w, h, x, y);
      }
    }
  }

  // The cells of the obstacles start at 0, all others at the cap.
  method InitField(m: Metric, obs: seq<bool>, w: nat, h: nat) returns (d: array<nat>)
    requires |obs| == w * h
    ensures fresh(d) && d.Length == w * h && Sound(m, m.Cap(), d[..], obs, w, h)
    ensures forall x, y :: InGrid(w, h, x, y) && At(obs, w, h, x, y) ==> At(d[..], w, h, x, y) == 0
  {
    d := new nat[w * h](i => m.Cap());
    for i := 0 to w * h
      invariant forall j :: 0 <= j < w * h ==> d[j] == if j < i && obs[j] then 0 else m.Cap()
    {
      if obs[i] { d[i] := 0; }
    }
    ghost var e := d[..];
    forall x, y | InGrid(w, h, x, y)
      ensures At(e, w, h, x, y) == if At(obs, w, h, x, y) then 0 else m.Cap()
    {
      RowBelow(y, h, w, x);
    }
    InitSound(m, e, obs, w, h);
  }

  lemma InitSound(m: Metric, e: seq<nat>, obs: seq<bool>, w: nat, h: nat)
    requires |e| == |obs| == w * h
    requires forall x, y :: InGrid(w, h, x, y) ==> At(e, w, h, x, y) == if At(obs, w, h, x, y) then 0 else m.Cap()
    ensures Sound(m, m.Cap(), e, obs, w, h)
  {
    forall x, y | InGrid(w, h, x, y)
      ensures At(e, w, h, x, y) <= m.Cap()
      ensures At(e, w, h, x, y) < m.Cap() ==> Near(m, obs, w, h, x, y, At(e, w, h, x, y))
    {
      assert Norm(m, x - x, y - y) == 0;
    }
  }

  // Both passes together: exactly the capped distance to the nearest obstacle.
  method TwoPasses(m: Metric, obs: seq<bool>, w: nat, h: nat) returns (d: array<nat>)
    requires |obs| == w * h
    ensures fresh(d) && IsDistance(m, m.Cap(), d[..], obs, w, h)
  {
    d := InitField(m, obs, w, h);
    hide Sound, At, TightBehind, Norm, IsDistance;
    ForwardPass(m, d, obs, w, h);
    ghost var d1 := d[..];
    BackwardPass(m, d, obs, w, h);
    PassesExact(m, d1, d[..], obs, w, h);
  }

  lemma PassesExact(m: Metric, d1: seq<nat>, d2: seq<nat>, obs: seq<bool>, w: nat, h: nat)
    requires |d1| == |d2| == |obs| == w * h && Sound(m, m.Cap(), d2, obs, w, h)
    requires TightBehind(m, 1, d1, w, h, 0, h)
    requires TightBehind(m, -1, d2, w, h, w - 1, -1) && LeqField(d2, d1, w, h)
    requires forall x, y :: InGrid(w, h, x, y) && At(obs, w, h, x, y) ==> At(d1, w, h, x, y) == 0
    ensures IsDistance(m, m.Cap(), d2, obs, w, h)
  {
    hide Norm, TightBehind, LeqField, Sound;
    forall x, y, qx, qy | InGrid(w, h, x, y) && InGrid(w, h, qx, qy) && At(obs, w, h, qx, qy)
      ensures At(d2, w, h, x, y) <= Norm(m, x - qx, y - qy)
    {
      TwoScansReach(m, d1, d2, w, h, qx, qy, x, y);
    }
  }

  // Chessboard distance to the nearest obstacle, u16 saturating; negative
  // sizes count as zero and give an empty field.
  method DistLinf(nx: int, ny: int, obs: seq<bool>) returns (d: seq<nat>)
    requires |obs| == Size(nx, ny)
    ensures |d| == Size(nx, ny)
    ensures nx > 0 && ny > 0 ==> IsDistance(Linf, 65535, d, obs, nx, ny)
  {
    if nx <= 0 || ny <= 0 { return []; }
    var field := TwoPasses(Linf, obs, nx, ny);
    return field[..];
  }

  function Size(nx: int, ny: int): int { if nx <= 0 || ny <= 0 then 0 else nx * ny }

  // 3-4 chamfer distance; a cell is an obstacle when its occupancy is not 0.
  method ChamferDist(occ: seq<int>, w: nat, h: nat) returns (d: seq<nat>)
    requires |occ| == w * h
    ensures IsDistance(Chamfer34, 2147483647, d, Blocked(occ), w, h)
  {
    var field := TwoPasses(Chamfer34, Blocked(occ), w, h);
    return field[..];
  }

  function Blocked(occ: seq<int>): (obs: seq<bool>)
    ensures |obs| == |occ| && forall i :: 0 <= i < |occ| ==> obs[i] == (occ[i] != 0)
  {
    seq(|occ|, i requires 0 <= i < |occ| => occ[i] != 0)
  }
}
