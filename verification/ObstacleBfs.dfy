// The breadth-first obstacle distance of the determinism comparison, and its
// agreement with the two-pass scan.
module ObstacleBfs {
  import opened Basics
  import opened Distance
  import opened DistanceScan

  const I32_MAX := 2147483647

  datatype Cell = Cell(x: int, y: int)

  // The eight neighbour offsets in the order they are tried.
  function Off(k: nat): (int, int)
    requires k < 8
  {
    if k == 0 then (-1, -1) else if k == 1 then (0, -1) else if k == 2 then (1, -1)
    else if k == 3 then (-1, 0) else if k == 4 then (1, 0)
    else if k == 5 then (-1, 1) else if k == 6 then (0, 1) else (1, 1)
  }

  // The neighbour (nx, ny), if there is one, is at most one step further than (x, y).
  ghost predicate Close(d: seq<nat>, w: nat, h: nat, x: int, y: int, nx: int, ny: int)
    requires |d| == w * h && InGrid(w, h, x, y)
  {
    InGrid(w, h, nx, ny) ==> At(d, w, h, nx, ny) <= At(d, w, h, x, y) + 1
  }

  // No neighbour is more than one step further than (x, y).
  ghost predicate Settled(d: seq<nat>, w: nat, h: nat, x: int, y: int)
    requires |d| == w * h && InGrid(w, h, x, y)
  {
    forall nx, ny :: x - 1 <= nx <= x + 1 && y - 1 <= ny <= y + 1 ==> Close(d, w, h, x, y, nx, ny)
  }

  // Cells of finite value are queued, settled, or the one being expanded.
  ghost predicate Frontier(d: seq<nat>, q: seq<Cell>, w: nat, h: nat, busy: Cell)
    requires |d| == w * h
  {
    && (forall c :: c in q ==> InGrid(w, h, c.x, c.y) && At(d, w, h, c.x, c.y) < I32_MAX)
    && (forall x, y :: InGrid(w, h, x, y) && At(d, w, h, x, y) < I32_MAX && Cell(x, y) !in q && Cell(x, y) != busy ==>
          Settled(d, w, h, x, y))
  }

  const NOBODY := Cell(-1, -1)

  ghost predicate ZeroAtObstacles(d: seq<nat>, obs: seq<bool>, w: nat, h: nat)
    requires |d| == |obs| == w * h
  {
    forall x, y :: InGrid(w, h, x, y) && At(obs, w, h, x, y) ==> At(d, w, h, x, y) == 0
  }

  // ------------------------------------------------------------ termination

  ghost function Total(d: seq<nat>): nat { if |d| == 0 then 0 else d[|d| - 1] + Total(d[..|d| - 1]) }

  lemma {:induction false} TotalDrops(d: seq<nat>, i: nat, v: nat)
    requires i < |d| && v < d[i]
    ensures Total(d[i := v]) < Total(d)
  {
    var n := |d| - 1;
    if i == n {
      assert d[i := v][..n] == d[..n];
    } else {
      assert d[i := v][..n] == d[..n][i := v];
      TotalDrops(d[..n], i, v);
    }
  }

  // ------------------------------------------------------------ one improvement

  // Everything the search keeps while it expands `busy`.
  ghost predicate Searching(d: seq<nat>, q: seq<Cell>, obs: seq<bool>, w: nat, h: nat, busy: Cell) {
    && |d| == |obs| == w * h
    && Sound(Linf, I32_MAX, d, obs, w, h) && Frontier(d, q, w, h, busy) && ZeroAtObstacles(d, obs, w, h)
  }

  lemma ImproveSound(d: seq<nat>, d': seq<nat>, obs: seq<bool>, w: nat, h: nat, x: int, y: int, nx: int, ny: int, r: nat)
    requires |d| == |d'| == |obs| == w * h && InGrid(w, h, x, y) && InGrid(w, h, nx, ny)
    requires -1 <= nx - x <= 1 && -1 <= ny - y <= 1 && (nx != x || ny != y)
    requires Sound(Linf, I32_MAX, d, obs, w, h) && At(d, w, h, x, y) + 1 == r <= I32_MAX
    requires Written(d, d', w, h, nx, ny, r)
    ensures Sound(Linf, I32_MAX, d', obs, w, h)
  {
    NearStep(obs, w, h, x, y, nx, ny, r - 1);
    hide Norm, Near;
  }

  lemma NearStep(obs: seq<bool>, w: nat, h: nat, x: int, y: int, nx: int, ny: int, r: nat)
    requires |obs| == w * h && -1 <= nx - x <= 1 && -1 <= ny - y <= 1 && (nx != x || ny != y)
    ensures Near(Linf, obs, w, h, x, y, r) ==> Near(Linf, obs, w, h, nx, ny, r + 1)
  {
    hide Norm, At;
    if Near(Linf, obs, w, h, x, y, r) {
      var qx, qy :| InGrid(w, h, qx, qy) && At(obs, w, h, qx, qy) && Norm(Linf, x - qx, y - qy) <= r;
      NormLipschitz(Linf, x - qx, y - qy, nx - x, ny - y);
      assert x - qx + (nx - x) == nx - qx && y - qy + (ny - y) == ny - qy;
    }
  }

  lemma SettledStays(d: seq<nat>, d': seq<nat>, w: nat, h: nat, nx: int, ny: int, r: nat, px: int, py: int)
    requires |d| == |d'| == w * h && InGrid(w, h, nx, ny) && InGrid(w, h, px, py) && (px != nx || py != ny)
    requires Written(d, d', w, h, nx, ny, r) && At(d, w, h, nx, ny) > r && Settled(d, w, h, px, py)
    ensures Settled(d', w, h, px, py)
  {
    forall ux, uy | px - 1 <= ux <= px + 1 && py - 1 <= uy <= py + 1
      ensures Close(d', w, h, px, py, ux, uy)
    {
      assert Close(d, w, h, px, py, ux, uy);
    }
  }

  lemma ImproveFrontier(d: seq<nat>, d': seq<nat>, q: seq<Cell>, w: nat, h: nat, busy: Cell, nx: int, ny: int, r: nat)
    requires |d| == |d'| == w * h && InGrid(w, h, nx, ny)
    requires Frontier(d, q, w, h, busy) && Written(d, d', w, h, nx, ny, r)
    requires At(d, w, h, nx, ny) > r && r < I32_MAX
    ensures Frontier(d', q + [Cell(nx, ny)], w, h, busy)
  {
    var q' := q + [Cell(nx, ny)];
    forall px, py | InGrid(w, h, px, py) && At(d', w, h, px, py) < I32_MAX && Cell(px, py) !in q' && Cell(px, py) != busy
      ensures Settled(d', w, h, px, py)
    {
      assert q'[|q|] == Cell(nx, ny);
      assert px != nx || py != ny;
      assert Cell(px, py) !in q;
      SettledStays(d, d', w, h, nx, ny, r, px, py);
    }
    hide Settled;
  }

  // Lowering a neighbour of the busy cell to one more than its value, and
  // queueing it, keeps the search going and shrinks the total.
  lemma Improve(d: seq<nat>, q: seq<Cell>, obs: seq<bool>, w: nat, h: nat, x: int, y: int, nx: int, ny: int, r: nat)
    requires Searching(d, q, obs, w, h, Cell(x, y)) && InGrid(w, h, x, y) && InGrid(w, h, nx, ny)
    requires -1 <= nx - x <= 1 && -1 <= ny - y <= 1 && (nx != x || ny != y)
    requires At(d, w, h, x, y) + 1 == r && At(d, w, h, nx, ny) > r
    ensures 0 <= ny * w + nx < |d|
    ensures Searching(d[ny * w + nx := r], q + [Cell(nx, ny)], obs, w, h, Cell(x, y))
    ensures Written(d, d[ny * w + nx := r], w, h, nx, ny, r)
    ensures Total(d[ny * w + nx := r]) < Total(d)
  {
    hide Total, Sound, Frontier, ZeroAtObstacles, Written;
    var i := ny * w + nx;
    WriteAt(d, w, h, nx, ny, r);
    TotalDrops(d, i, r);
    BelowCap(d, obs, w, h, nx, ny);
    ImproveSound(d, d[i := r], obs, w, h, x, y, nx, ny, r);
    ImproveFrontier(d, d[i := r], q, w, h, Cell(x, y), nx, ny, r);
    ImproveZero(d, d[i := r], obs, w, h, nx, ny, r);
  }

  lemma WriteAt(d: seq<nat>, w: nat, h: nat, x: int, y: int, v: nat)
    requires |d| == w * h && InGrid(w, h, x, y)
    ensures 0 <= y * w + x < |d| && At(d, w, h, x, y) == d[y * w + x] && Written(d, d[y * w + x := v], w, h, x, y, v)
  {
    AtWrite(d, w, h, x, y, v);
  }

  lemma BelowCap(d: seq<nat>, obs: seq<bool>, w: nat, h: nat, x: int, y: int)
    requires |d| == |obs| == w * h && Sound(Linf, I32_MAX, d, obs, w, h) && InGrid(w, h, x, y)
    ensures At(d, w, h, x, y) <= I32_MAX
  {
    hide Near;
  }

  lemma ImproveZero(d: seq<nat>, d': seq<nat>, obs: seq<bool>, w: nat, h: nat, nx: int, ny: int, r: nat)
    requires |d| == |d'| == |obs| == w * h && InGrid(w, h, nx, ny) && Written(d, d', w, h, nx, ny, r)
    requires ZeroAtObstacles(d, obs, w, h) && At(d, w, h, nx, ny) > r
    ensures ZeroAtObstacles(d', obs, w, h)
  {
  }

  // ------------------------------------------------------------ the search

  method Expand(d: array<nat>, q: seq<Cell>, ghost obs: seq<bool>, w: nat, h: nat, x: int, y: int) returns (q': seq<Cell>)
    requires d.Length == w * h && InGrid(w, h, x, y)
    requires Searching(d[..], q, obs, w, h, Cell(x, y)) && At(d[..], w, h, x, y) < I32_MAX
    modifies d
    ensures d.Length == w * h && Searching(d[..], q', obs, w, h, NOBODY)
    ensures Total(d[..]) < Total(old(d[..])) || (d[..] == old(d[..]) && q' == q)
  {
    hide Sound, Frontier, ZeroAtObstacles, Total;
    ghost var d0 := d[..];
    q' := q;
    RowBelow(y, h, w, x);
    var dd := d[y * w + x] + 1;
    for k := 0 to 8
      invariant Searching(d[..], q', obs, w, h, Cell(x, y))
      invariant At(d[..], w, h, x, y) + 1 == dd
      invariant forall j :: 0 <= j < k ==> Close(d[..], w, h, x, y, x + Off(j).0, y + Off(j).1)
      invariant Total(d[..]) < Total(d0) || (d[..] == d0 && q' == q)
    {
      var x2, y2 := x + Off(k).0, y + Off(k).1;
      if x2 < 0 || y2 < 0 || x2 >= w || y2 >= h { continue; }
      RowBelow(y2, h, w, x2);
      var i := y2 * w + x2;
      if d[i] > dd {
        Improve(d[..], q', obs, w, h, x, y, x2, y2, dd);
        d[i] := dd;
        q' := q' + [Cell(x2, y2)];
      }
    }
    ExpandDone(d[..], q', obs, w, h, x, y);
  }

  lemma OffsetsSettle(d: seq<nat>, w: nat, h: nat, x: int, y: int)
    requires |d| == w * h && InGrid(w, h, x, y)
    requires forall j :: 0 <= j < 8 ==> Close(d, w, h, x, y, x + Off(j).0, y + Off(j).1)
    ensures Settled(d, w, h, x, y)
  {
    forall nx, ny | x - 1 <= nx <= x + 1 && y - 1 <= ny <= y + 1
      ensures Close(d, w, h, x, y, nx, ny)
    {
      if nx != x || ny != y {
        var k := OffIndex(nx - x, ny - y);
        assert Close(d, w, h, x, y, x + Off(k).0, y + Off(k).1);
      }
    }
  }

  lemma ExpandDone(d: seq<nat>, q: seq<Cell>, obs: seq<bool>, w: nat, h: nat, x: int, y: int)
    requires Searching(d, q, obs, w, h, Cell(x, y)) && InGrid(w, h, x, y)
    requires forall j :: 0 <= j < 8 ==> Close(d, w, h, x, y, x + Off(j).0, y + Off(j).1)
    ensures Searching(d, q, obs, w, h, NOBODY)
  {
    OffsetsSettle(d, w, h, x, y);
    hide Settled, Sound, Off, Close, ZeroAtObstacles, At;
  }

  function OffIndex(ox: int, oy: int): (k: nat)
    requires -1 <= ox <= 1 && -1 <= oy <= 1 && (ox != 0 || oy != 0)
    ensures k < 8 && Off(k) == (ox, oy)
  {
    if oy == -1 then ox + 1 else if oy == 1 then ox + 6 else if ox == -1 then 3 else 4
  }

  // The front of the queue becomes the busy cell.
  lemma PopFront(d: seq<nat>, q: seq<Cell>, obs: seq<bool>, w: nat, h: nat)
    requires Searching(d, q, obs, w, h, NOBODY) && |q| > 0
    ensures InGrid(w, h, q[0].x, q[0].y) && At(d, w, h, q[0].x, q[0].y) < I32_MAX
    ensures Searching(d, q[1..], obs, w, h, q[0])
  {
    hide Settled, Sound, ZeroAtObstacles, At;
    assert forall c :: c in q <==> c == q[0] || c in q[1..];
  }

  // With an empty queue every finite value is settled, so no value exceeds the
  // distance to any obstacle.
  lemma {:induction false} SettledReach(d: seq<nat>, obs: seq<bool>, w: nat, h: nat, qx: int, qy: int, x: int, y: int)
    requires Searching(d, [], obs, w, h, NOBODY) && w <= I32_MAX && h <= I32_MAX
    requires InGrid(w, h, qx, qy) && InGrid(w, h, x, y) && At(obs, w, h, qx, qy)
    ensures At(d, w, h, x, y) <= Norm(Linf, x - qx, y - qy)
    decreases Norm(Linf, x - qx, y - qy)
  {
    hide Sound, Frontier, Norm;
    if x == qx && y == qy {
      assert At(d, w, h, x, y) == 0;
    } else {
      var px, py := x - TowardX(x - qx), y - TowardX(y - qy);
      StepBack(w, h, qx, qy, x, y);
      SettledReach(d, obs, w, h, qx, qy, px, py);
      hide Norm, Searching, TowardX;
      IdleSettled(d, obs, w, h, px, py);
      assert Close(d, w, h, px, py, x, y);
    }
  }

  // The cell before (x, y) on a best path from (qx, qy).
  lemma StepBack(w: nat, h: nat, qx: int, qy: int, x: int, y: int)
    requires InGrid(w, h, qx, qy) && InGrid(w, h, x, y) && (x != qx || y != qy) && w <= I32_MAX && h <= I32_MAX
    ensures var px, py := x - TowardX(x - qx), y - TowardX(y - qy);
      && InGrid(w, h, px, py) && px - 1 <= x <= px + 1 && py - 1 <= y <= py + 1
      && Norm(Linf, px - qx, py - qy) + 1 == Norm(Linf, x - qx, y - qy) < I32_MAX
  {
    var sx, sy := TowardX(x - qx), TowardX(y - qy);
    NormToward(Linf, x - qx, y - qy);
    NormBound(w, h, x, y, qx, qy);
    assert x - qx - sx == x - sx - qx && y - qy - sy == y - sy - qy;
  }

  lemma NormBound(w: nat, h: nat, x: int, y: int, qx: int, qy: int)
    requires InGrid(w, h, x, y) && InGrid(w, h, qx, qy) && w <= I32_MAX && h <= I32_MAX
    ensures Norm(Linf, x - qx, y - qy) < I32_MAX
  {
  }

  lemma IdleSettled(d: seq<nat>, obs: seq<bool>, w: nat, h: nat, x: int, y: int)
    requires Searching(d, [], obs, w, h, NOBODY) && InGrid(w, h, x, y) && At(d, w, h, x, y) < I32_MAX
    ensures Settled(d, w, h, x, y)
  {
    hide Settled, Sound, ZeroAtObstacles, At;
  }

  // Multi-source breadth-first search: the exact chessboard distance to the
  // nearest obstacle, i32::MAX where there is none.
  method ObstacleDist(free: seq<bool>, nx: nat, ny: nat) returns (d: array<nat>)
    requires |free| == nx * ny && nx <= I32_MAX && ny <= I32_MAX
    ensures IsDistance(Linf, I32_MAX, d[..], Obstacles(free), nx, ny)
  {
    ghost var obs := Obstacles(free);
    var q;
    d, q := Sources(free, nx, ny);
    hide Searching, Total;
    while |q| > 0
      invariant d.Length == nx * ny && fresh(d) && Searching(d[..], q, obs, nx, ny, NOBODY)
      decreases Total(d[..]), |q|
    {
      PopFront(d[..], q, obs, nx, ny);
      var c := q[0];
      q := Expand(d, q[1..], obs, nx, ny, c.x, c.y);
    }
    SearchExact(d[..], obs, nx, ny);
  }

  lemma SearchExact(d: seq<nat>, obs: seq<bool>, w: nat, h: nat)
    requires Searching(d, [], obs, w, h, NOBODY) && w <= I32_MAX && h <= I32_MAX
    ensures IsDistance(Linf, I32_MAX, d, obs, w, h)
  {
    forall x, y, qx, qy | InGrid(w, h, x, y) && InGrid(w, h, qx, qy) && At(obs, w, h, qx, qy)
      ensures At(d, w, h, x, y) <= Norm(Linf, x - qx, y - qy)
    {
      SettledReach(d, obs, w, h, qx, qy, x, y);
    }
    hide Sound, Norm, At;
  }

  function Obstacles(free: seq<bool>): (obs: seq<bool>)
    ensures |obs| == |free| && forall i :: 0 <= i < |free| ==> obs[i] == !free[i]
  {
    seq(|free|, i requires 0 <= i < |free| => !free[i])
  }

  // All obstacles at distance 0 and in the queue, everything else at i32::MAX.
  method Sources(free: seq<bool>, w: nat, h: nat) returns (d: array<nat>, q: seq<Cell>)
    requires |free| == w * h
    ensures fresh(d) && d.Length == w * h && Searching(d[..], q, Obstacles(free), w, h, NOBODY)
  {
    hide Obstacles;
    ghost var obs := Obstacles(free);
    d := new nat[w * h](i => I32_MAX);
    q := [];
    AllMax(d[..], w, h);
    for iy := 0 to h
      invariant Sourced(d[..], q, obs, w, h, 0, iy)
    {
      for ix := 0 to w
        invariant Sourced(d[..], q, obs, w, h, ix, iy)
      {
        RowBelow(iy, h, w, ix);
        assert At(obs, w, h, ix, iy) == !free[iy * w + ix];
        if !free[iy * w + ix] {
          AtWrite(d[..], w, h, ix, iy, 0);
          d[iy * w + ix] := 0;
          q := q + [Cell(ix, iy)];
        }
      }
    }
    SourcedSearching(d[..], q, obs, w, h);
  }

  lemma AllMax(d: seq<nat>, w: nat, h: nat)
    requires |d| == w * h && forall i :: 0 <= i < |d| ==> d[i] == I32_MAX
    ensures forall x, y :: InGrid(w, h, x, y) ==> At(d, w, h, x, y) == I32_MAX
  {
    forall x, y | InGrid(w, h, x, y)
      ensures At(d, w, h, x, y) == I32_MAX
    {
      RowBelow(y, h, w, x);
    }
  }

  // The cells before (ix, iy) are initialised: obstacles at 0 and queued.
  ghost predicate Sourced(d: seq<nat>, q: seq<Cell>, obs: seq<bool>, w: nat, h: nat, ix: int, iy: int) {
    && |d| == |obs| == w * h
    && (forall x, y :: InGrid(w, h, x, y) ==>
         At(d, w, h, x, y) == if Behind(1, x, y, ix, iy) && At(obs, w, h, x, y) then 0 else I32_MAX)
    && (forall c :: c in q <==> InGrid(w, h, c.x, c.y) && Behind(1, c.x, c.y, ix, iy) && At(obs, w, h, c.x, c.y))
  }

  lemma SourcedSearching(d: seq<nat>, q: seq<Cell>, obs: seq<bool>, w: nat, h: nat)
    requires Sourced(d, q, obs, w, h, 0, h)
    ensures Searching(d, q, obs, w, h, NOBODY)
  {
    forall x, y | InGrid(w, h, x, y)
      ensures At(d, w, h, x, y) <= I32_MAX
      ensures At(d, w, h, x, y) < I32_MAX ==> Near(Linf, obs, w, h, x, y, At(d, w, h, x, y)) && Cell(x, y) in q
      ensures At(obs, w, h, x, y) ==> At(d, w, h, x, y) == 0
    {
      assert Behind(1, x, y, 0, h);
      assert Norm(Linf, x - x, y - y) == 0;
    }
    hide At, Near, Settled;
  }

  // The search and the scan agree everywhere: the u16 field is the i32 field
  // cut off at 65535, whose "no obstacle" sentinels correspond.
  method CrossCheck(free: seq<bool>, nx: nat, ny: nat) returns (bfs: array<nat>, scan: seq<nat>)
    requires |free| == nx * ny && 0 < nx <= I32_MAX && 0 < ny <= I32_MAX
    ensures bfs.Length == |scan| == nx * ny
    ensures forall i :: 0 <= i < nx * ny ==> scan[i] == if bfs[i] < 65535 then bfs[i] else 65535
  {
    bfs := ObstacleDist(free, nx, ny);
    scan := DistLinf(nx, ny, Obstacles(free));
    hide IsDistance;
    FieldsAgree(scan, bfs[..], Obstacles(free), nx, ny);
  }

  lemma FieldsAgree(d: seq<nat>, e: seq<nat>, obs: seq<bool>, w: nat, h: nat)
    requires |obs| == w * h && w > 0
    requires IsDistance(Linf, 65535, d, obs, w, h) && IsDistance(Linf, I32_MAX, e, obs, w, h)
    ensures |d| == |e| == w * h && forall i :: 0 <= i < w * h ==> d[i] == if e[i] < 65535 then e[i] else 65535
  {
    hide Sound, Below, At, InGrid;
    forall i | 0 <= i < w * h
      ensures d[i] == if e[i] < 65535 then e[i] else 65535
    {
      var x, y := CellOf(w, h, i);
      AtIndex(d, w, h, x, y);
      AtIndex(e, w, h, x, y);
      DistanceUnique(Linf, 65535, I32_MAX, d, e, obs, w, h, x, y);
    }
  }

  lemma AtIndex(d: seq<nat>, w: nat, h: nat, x: int, y: int)
    requires |d| == w * h && InGrid(w, h, x, y)
    ensures 0 <= y * w + x < |d| && At(d, w, h, x, y) == d[y * w + x]
  {
    RowBelow(y, h, w, x);
  }

  lemma CellOf(w: nat, h: nat, i: nat) returns (x: int, y: int)
    requires w > 0 && i < w * h
    ensures InGrid(w, h, x, y) && y * w + x == i
  {
    x, y := i % w, i / w;
    if y >= h {
      Grow(h, y, w);
    }
  }
}
