// Where a move, a diffusion pass and a blob send mass, cell by cell.
module BeliefSpread {
  import opened Sums
  import opened Basics
  import opened Belief
  import opened SparseBelief
  import opened BeliefMotion
  import opened BeliefUpdate
  import opened BeliefReseed

  // The triangle of height and half width 1.
  function Tri(d: real): real { if d <= -1.0 || d >= 1.0 then 0.0 else if d < 0.0 then 1.0 + d else 1.0 - d }

  // ------------------------------------------------------------ lists of aims

  lemma {:induction false} ArriveAppend(a: seq<Aim>, b: seq<Aim>, j: nat)
    ensures Arrive(a + b, j) == Arrive(a, j) + Arrive(b, j)
    decreases |b|
  {
    if |b| == 0 {
      assert a + b == a;
    } else {
      assert (a + b)[..|a + b| - 1] == a + b[..|b| - 1];
      ArriveAppend(a, b[..|b| - 1], j);
    }
  }

  lemma ArriveOne(a: Aim, j: nat)
    ensures Arrive([a], j) == if a.to == Some(j) then a.w else 0.0
  {
    assert [a][..0] == [];
    assert Arrive([a], j) == Arrive([], j) + if a.to == Some(j) then a.w else 0.0;
  }

  // A target is the free cell (x, y, t) exactly when its coordinates, theta
  // taken around the circle, are those.
  lemma TargetIs(g: Grid, x': int, y': int, t': int, x: int, y: int, t: int)
    requires g.Valid() && g.nt > 0 && g.InMap(x, y) && g.FreeXY(x, y) && 0 <= t < g.nt
    ensures 0 <= g.Idx(x, y, t) < g.Size()
    ensures Target(g, x', y', t') == Some(g.Idx(x, y, t)) <==> x' == x && y' == y && t' % g.nt == t
  {
    g.DecodeIdx(x, y, t);
    if g.InMap(x', y') { g.DecodeIdx(x', y', t' % g.nt); }
  }

  // ------------------------------------------------------------ the shift

  // The weight that reaches coordinate x from the neighbours of position x0 + f.
  function Near(x0: int, f: real, x: int): real { if x == x0 then 1.0 - f else if x == x0 + 1 then f else 0.0 }

  lemma NearIsTri(u: real, x: int)
    ensures Near(u.Floor, u - u.Floor as real, x) == Tri(x as real - u)
  {
    var x0 := u.Floor;
    if x > x0 + 1 { assert x as real >= x0 as real + 2.0; }
    if x < x0 { assert x as real <= x0 as real - 1.0; }
  }

  // The weight that reaches theta t of the circle.
  function NearTheta(t0: int, f: real, t: int, nt: nat): real
    requires nt > 0
  {
    (if t0 % nt == t then 1.0 - f else 0.0) + (if (t0 + 1) % nt == t then f else 0.0)
  }

  // For the representative c nearest to u of its class, that is the triangle again.
  lemma ThetaIsTri(u: real, c: int, nt: nat)
    requires nt >= 2 && -(nt as real) <= 2.0 * (c as real - u) <= nt as real
    ensures NearTheta(u.Floor, u - u.Floor as real, c % nt, nt) == Tri(c as real - u)
  {
    var t0 := u.Floor;
    var f := u - t0 as real;
    var d := c - t0;
    assert d as real - f == c as real - u;
    SameClass(t0, c, nt);
    SameClass(t0 + 1, c, nt);
  }

  // Two thetas less than a turn apart are in one class only if equal.
  lemma SameClass(a: int, c: int, nt: nat)
    requires nt > 0
    ensures a == c ==> a % nt == c % nt
    ensures a % nt == c % nt && -(nt as int) < a - c < nt ==> a == c
    ensures a - c == nt || c - a == nt ==> a % nt == c % nt
  {
    var (p, q) := (a / nt, c / nt);
    assert a == p * nt + a % nt && c == q * nt + c % nt;
    if a % nt == c % nt && -(nt as int) < a - c < nt {
      if p > q { Grow(1, p - q, nt); Spread(p, q, nt); }
      if q > p { Grow(1, q - p, nt); Spread(q, p, nt); }
    }
    if a - c == nt { DivMod1(c, nt); }
    if c - a == nt { DivMod1(a, nt); }
  }

  lemma Spread(p: int, q: int, n: int)
    ensures (p - q) * n == p * n - q * n
  {
  }

  lemma DivMod1(c: int, nt: nat)
    requires nt > 0
    ensures (c + nt) % nt == c % nt
  {
    var (q, q') := (c / nt, (c + nt) / nt);
    assert (c + nt) == q' * nt + (c + nt) % nt && c == q * nt + c % nt;
    Spread(q + 1, 1, nt);
    RowUnique(nt, q', (c + nt) % nt, q + 1, c % nt);
  }

  lemma ArriveX(g: Grid, x0: int, fx: real, y': int, t': int, w: real, x: int, y: int, t: int)
    requires g.Valid() && g.nt > 0 && g.InMap(x, y) && g.FreeXY(x, y) && 0 <= t < g.nt && 0 <= g.Idx(x, y, t)
    ensures Arrive(AimsX(g, x0, fx, y', t', w), g.Idx(x, y, t))
         == if y' == y && t' % g.nt == t then Times(w, Near(x0, fx, x)) else 0.0
  {
    hide Target, Arrive, Grid.Idx, Near;
    NearCases(x0, fx, x);
    ZeroBoth(w, 1.0);
    var j := g.Idx(x, y, t);
    var a, b := Aim(Target(g, x0, y', t'), w * (1.0 - fx)), Aim(Target(g, x0 + 1, y', t'), w * fx);
    TargetIs(g, x0, y', t', x, y, t);
    TargetIs(g, x0 + 1, y', t', x, y, t);
    ArriveOne(a, j);
    ArriveOne(b, j);
    assert AimsX(g, x0, fx, y', t', w) == [a] + [b];
    ArriveAppend([a], [b], j);
  }

  lemma ArriveXY(g: Grid, x0: int, fx: real, y0: int, fy: real, t': int, w: real, x: int, y: int, t: int)
    requires g.Valid() && g.nt > 0 && g.InMap(x, y) && g.FreeXY(x, y) && 0 <= t < g.nt && 0 <= g.Idx(x, y, t)
    ensures Arrive(AimsXY(g, x0, fx, y0, fy, t', w), g.Idx(x, y, t))
         == if t' % g.nt == t then Times(Times(w, Near(y0, fy, y)), Near(x0, fx, x)) else 0.0
  {
    hide AimsX, Arrive, Grid.Idx, Near;
    ArriveX(g, x0, fx, y0, t', w * (1.0 - fy), x, y, t);
    ArriveX(g, x0, fx, y0 + 1, t', w * fy, x, y, t);
    ArriveAppend(AimsX(g, x0, fx, y0, t', w * (1.0 - fy)), AimsX(g, x0, fx, y0 + 1, t', w * fy), g.Idx(x, y, t));
    NearCases(y0, fy, y);
    ZeroBoth(w, Near(x0, fx, x));
  }

  lemma NearCases(x0: int, f: real, x: int)
    ensures Near(x0, f, x) == if x == x0 then 1.0 - f else if x == x0 + 1 then f else 0.0
  {
  }

  lemma ZeroBoth(w: real, c: real)
    ensures Times(Times(w, 0.0), c) == 0.0
  {
  }

  lemma ArriveShift(g: Grid, ux: real, uy: real, ut: real, x: int, y: int, t: int)
    requires g.Valid() && g.nt > 0 && g.InMap(x, y) && g.FreeXY(x, y) && 0 <= t < g.nt && 0 <= g.Idx(x, y, t)
    ensures Arrive(ShiftAims(g, ux, uy, ut), g.Idx(x, y, t))
         == Times(Times(NearTheta(ut.Floor, ut - ut.Floor as real, t, g.nt), Tri(y as real - uy)), Tri(x as real - ux))
  {
    hide AimsXY, Arrive, Grid.Idx, Near, Tri;
    var (x0, y0, t0) := (ux.Floor, uy.Floor, ut.Floor);
    var (fx, fy, ft) := (ux - x0 as real, uy - y0 as real, ut - t0 as real);
    ArriveXY(g, x0, fx, y0, fy, t0, 1.0 - ft, x, y, t);
    ArriveXY(g, x0, fx, y0, fy, t0 + 1, ft, x, y, t);
    ArriveAppend(AimsXY(g, x0, fx, y0, fy, t0, 1.0 - ft), AimsXY(g, x0, fx, y0, fy, t0 + 1, ft), g.Idx(x, y, t));
    NearIsTri(ux, x);
    NearIsTri(uy, y);
    AddTwo(1.0 - ft, ft, Tri(y as real - uy), Tri(x as real - ux));
  }

  lemma AddTwo(a: real, b: real, c: real, d: real)
    ensures Times(Times(a + b, c), d) == Times(Times(a, c), d) + Times(Times(b, c), d)
    ensures Times(Times(a, c), d) == Times(Times(a + 0.0, c), d) && Times(Times(b, c), d) == Times(Times(0.0 + b, c), d)
    ensures Times(Times(0.0, c), d) == 0.0
  {
  }

  // The mass that reaches a free cell from cell (x, y, t): the product of three
  // triangles around the real position the move aims at. Any c may stand for the
  // theta, as long as it is the nearest of its class on the circle.
  lemma MoveArrives(g: Grid, move: Heading, rot: real, x: int, y: int, t: nat, x': int, y': int, c: int)
    requires g.Valid() && g.InMap(x, y) && t < g.nt && g.InMap(x', y') && g.FreeXY(x', y')
    requires -(g.nt as real) <= 2.0 * (c as real - (t as real + rot)) <= g.nt as real
    ensures 0 <= (t * g.ny + y) * g.nx + x && 0 <= (c % g.nt * g.ny + y') * g.nx + x'
    ensures var m := Arrive(ShiftOf(g, move, rot)((t * g.ny + y) * g.nx + x), (c % g.nt * g.ny + y') * g.nx + x');
            var plane := Tri(y' as real - (y as real + move(t).1)) * Tri(x' as real - (x as real + move(t).0));
            m == if g.nt == 1 then plane else Tri(c as real - (t as real + rot)) * plane
  {
    g.IdxRange(x, y, t);
    g.IdxRange(x', y', c % g.nt);
    MovedArrives(g, move, rot, x, y, t, x', y', c, (t * g.ny + y) * g.nx + x, (c % g.nt * g.ny + y') * g.nx + x');
    hide *;
  }

  lemma MovedArrives(g: Grid, move: Heading, rot: real, x: int, y: int, t: nat, x': int, y': int, c: int, i: nat, j: nat)
    requires g.Valid() && g.InMap(x, y) && t < g.nt && g.InMap(x', y') && g.FreeXY(x', y')
    requires -(g.nt as real) <= 2.0 * (c as real - (t as real + rot)) <= g.nt as real
    requires i == g.Idx(x, y, t) && j == g.Idx(x', y', c % g.nt)
    ensures var plane := Tri(y' as real - (y as real + move(t).1)) * Tri(x' as real - (x as real + move(t).0));
            Arrive(ShiftOf(g, move, rot)(i), j) == if g.nt == 1 then plane else Tri(c as real - (t as real + rot)) * plane
  {
    hide Arrive, Tri, ShiftAims, Grid.Idx, Grid.X, Grid.Y, Grid.T, Times;
    var (ux, uy, ut) := (x as real + move(t).0, y as real + move(t).1, t as real + rot);
    g.DecodeIdx(x, y, t);
    assert ShiftOf(g, move, rot)(i) == ShiftAims(g, ux, uy, ut);
    hide ShiftOf;
    ArriveShift(g, ux, uy, ut, x', y', c % g.nt);
    if g.nt == 1 { OneTheta(ut, c); } else { ThetaIsTri(ut, c, g.nt); }
    Triple(NearTheta(ut.Floor, ut - ut.Floor as real, c % g.nt, g.nt), Tri(y' as real - uy), Tri(x' as real - ux));
    hide NearTheta;
  }

  lemma Triple(a: real, b: real, c: real)
    ensures Times(Times(a, b), c) == a * (b * c)
  {
  }

  lemma OneTheta(u: real, c: int)
    ensures NearTheta(u.Floor, u - u.Floor as real, c % 1, 1) == 1.0
  {
  }

  // A move by whole cells sends everything to the one cell at that displacement.
  lemma WholeMoveArrives(g: Grid, move: Heading, x: int, y: int, t: nat, dx: int, dy: int, dt: int)
    requires g.Valid() && g.InMap(x, y) && t < g.nt && move(t) == (dx as real, dy as real)
    requires g.InMap(x + dx, y + dy) && g.FreeXY(x + dx, y + dy)
    ensures 0 <= (t * g.ny + y) * g.nx + x && 0 <= ((t + dt) % g.nt * g.ny + y + dy) * g.nx + x + dx
    ensures Arrive(ShiftOf(g, move, dt as real)((t * g.ny + y) * g.nx + x), ((t + dt) % g.nt * g.ny + y + dy) * g.nx + x + dx) == 1.0
  {
    hide Arrive, ShiftOf;
    MoveArrives(g, move, dt as real, x, y, t, x + dx, y + dy, t + dt);
  }

  // ------------------------------------------------------------ diffusion

  // What a diffusion pass sends from (x, y, t) to the free cell (x', y', t').
  function Spill(nt: nat, dx: int, dy: int, t: int, t': int, aXy: real, aT: real): real
    requires nt > 0
  {
    if dx == 0 && dy == 0 && t' == t then 1.0 - 4.0 * aXy - 2.0 * aT
    else if t' == t && ((dx == 0 && (dy == 1 || dy == -1)) || (dy == 0 && (dx == 1 || dx == -1))) then aXy
    else if dx == 0 && dy == 0 && aT > 0.0 && (t' == (t + 1) % nt || t == (t' + 1) % nt) then aT
    else 0.0
  }

  lemma DiffuseArrives(g: Grid, x: int, y: int, t: int, x': int, y': int, t': int, aXy: real, aT: real)
    requires g.Valid() && g.InMap(x, y) && 0 <= t < g.nt && g.FreeXY(x, y)
    requires g.InMap(x', y') && 0 <= t' < g.nt && g.FreeXY(x', y') && (aT > 0.0 ==> g.nt > 2)
    ensures 0 <= (t * g.ny + y) * g.nx + x && 0 <= (t' * g.ny + y') * g.nx + x'
    ensures Arrive(DiffuseOf(g, aXy, aT)((t * g.ny + y) * g.nx + x), (t' * g.ny + y') * g.nx + x')
         == Spill(g.nt, x' - x, y' - y, t, t', aXy, aT)
  {
    hide Arrive, AimsAround, AimsTurned;
    g.DecodeIdx(x, y, t);
    g.DecodeIdx(x', y', t');
    var i, j := g.Idx(x, y, t), g.Idx(x', y', t');
    assert i == (t * g.ny + y) * g.nx + x && j == (t' * g.ny + y') * g.nx + x';
    assert DiffuseOf(g, aXy, aT)(i) == DiffuseAims(g, i, aXy, aT);
    var c, plane, turned := Aim(Some(i), 1.0 - 4.0 * aXy - 2.0 * aT), AimsAround(g, x, y, t, aXy), AimsTurned(g, x, y, t, aT);
    hide DiffuseOf;
    assert DiffuseAims(g, i, aXy, aT) == [c] + plane + if aT > 0.0 then turned else [];
    assert i == j <==> x == x' && y == y' && t == t';
    hide DiffuseAims, Grid.Idx, Grid.X, Grid.Y, Grid.T;
    ArriveOne(c, j);
    ArriveAppend([c], plane, j);
    ArriveAppend([c] + plane, turned, j);
    ArriveAppend([c] + plane, [], j);
    ArriveNone(j);
    AroundArrives(g, x, y, t, aXy, x', y', t');
    if aT > 0.0 { TurnedArrives(g, x, y, t, aT, x', y', t'); }
  }

  lemma ArriveNone(j: nat)
    ensures Arrive([], j) == 0.0
  {
  }

  lemma ModSmall(t: int, nt: nat)
    requires 0 <= t < nt
    ensures t % nt == t
  {
  }

  lemma AroundArrives(g: Grid, x: int, y: int, t: int, a: real, x': int, y': int, t': int)
    requires g.Valid() && g.nt > 0 && 0 <= t < g.nt && g.InMap(x', y') && 0 <= t' < g.nt && g.FreeXY(x', y') && 0 <= g.Idx(x', y', t')
    ensures Arrive(AimsAround(g, x, y, t, a), g.Idx(x', y', t'))
         == if t' == t && ((x' == x && (y' - y == 1 || y' - y == -1)) || (y' == y && (x' - x == 1 || x' - x == -1))) then a else 0.0
  {
    hide Arrive, Target, Grid.Idx;
    var j := g.Idx(x', y', t');
    ModSmall(t, g.nt);
    var e0, e1 := Aim(Target(g, x - 1, y, t), a), Aim(Target(g, x + 1, y, t), a);
    var e2, e3 := Aim(Target(g, x, y - 1, t), a), Aim(Target(g, x, y + 1, t), a);
    TargetIs(g, x - 1, y, t, x', y', t');
    TargetIs(g, x + 1, y, t, x', y', t');
    TargetIs(g, x, y - 1, t, x', y', t');
    TargetIs(g, x, y + 1, t, x', y', t');
    ArriveOne(e0, j);
    ArriveOne(e1, j);
    ArriveOne(e2, j);
    ArriveOne(e3, j);
    ArriveAppend([e0], [e1], j);
    ArriveAppend([e2], [e3], j);
    ArriveAppend([e0] + [e1], [e2] + [e3], j);
  }

  lemma TurnedArrives(g: Grid, x: int, y: int, t: int, a: real, x': int, y': int, t': int)
    requires g.Valid() && g.nt > 2 && 0 <= t < g.nt && g.InMap(x', y') && 0 <= t' < g.nt && g.FreeXY(x', y') && 0 <= g.Idx(x', y', t')
    ensures Arrive(AimsTurned(g, x, y, t, a), g.Idx(x', y', t'))
         == if x' == x && y' == y && (t' == (t + 1) % g.nt || t == (t' + 1) % g.nt) then a else 0.0
  {
    hide Arrive, Target, Grid.Idx;
    var j := g.Idx(x', y', t');
    var e0, e1 := Aim(Target(g, x, y, t + g.nt - 1), a), Aim(Target(g, x, y, t + 1), a);
    TargetIs(g, x, y, t + g.nt - 1, x', y', t');
    TargetIs(g, x, y, t + 1, x', y', t');
    ArriveOne(e0, j);
    ArriveOne(e1, j);
    ArriveAppend([e0], [e1], j);
    Neighbours(t, t', g.nt);
  }

  // On a circle of more than two places the two neighbours of t differ.
  lemma Neighbours(t: int, t': int, nt: nat)
    requires nt > 2 && 0 <= t < nt && 0 <= t' < nt
    ensures (t + nt - 1) % nt == t' <==> t == (t' + 1) % nt
    ensures !((t + nt - 1) % nt == t' && (t + 1) % nt == t')
  {
    assert (t + nt - 1) % nt == if t == 0 then nt - 1 else t - 1 by {
      if t == 0 { ModSmall(nt - 1, nt); } else { DivMod1(t - 1, nt); ModSmall(t - 1, nt); }
    }
    Successor(t, nt);
    Successor(t', nt);
  }

  lemma Successor(t: int, nt: nat)
    requires 0 <= t < nt
    ensures (t + 1) % nt == if t + 1 == nt then 0 else t + 1
  {
    if t + 1 < nt { ModSmall(t + 1, nt); } else { DivMod1(0, nt); }
  }

  // The dense operators of a flush: the shift first, if there was a move, and
  // then the given number of equal diffusion passes.
  lemma {:induction false} FlushAimsAre(g: Grid, moved: bool, move: Heading, rot: real, pXy: real, pT: real, passes: nat)
    requires g.Valid()
    ensures var aims := FlushAims(g, moved, move, rot, pXy, pT, passes);
            var n := if moved then 1 else 0;
            |aims| == n + passes && (moved ==> aims[0] == ShiftOf(g, move, rot))
            && forall k :: n <= k < |aims| ==> aims[k] == DiffuseOf(g, pXy, pT)
  {
    hide ShiftOf, DiffuseOf;
    if passes > 0 { FlushAimsAre(g, moved, move, rot, pXy, pT, passes - 1); }
  }

  // ------------------------------------------------------------ blobs

  // 1 at the centre, 1/2 beside it.
  function Hat(d: int): real { if d == 0 then 1.0 else if d == 1 || d == -1 then 0.5 else 0.0 }

  // The same on the circle of nt thetas.
  function HatTheta(nt: nat, t: int, t': int): real
    requires nt > 0
  {
    (if t' == t then 1.0 else 0.0) + (if t' == (t + 1) % nt then 0.5 else 0.0) + (if t == (t' + 1) % nt then 0.5 else 0.0)
  }

  lemma ThreeAims(a: seq<Aim>, b: seq<Aim>, c: seq<Aim>, j: nat)
    ensures Arrive(a + b + c, j) == Arrive(a, j) + Arrive(b, j) + Arrive(c, j)
  {
    ArriveAppend(a, b, j);
    ArriveAppend(a + b, c, j);
  }

  lemma BlobXArrives(g: Grid, x: int, y: int, t: int, w: real, x': int, y': int, t': int)
    requires g.Valid() && g.nt > 0 && g.InMap(x', y') && 0 <= t' < g.nt && g.FreeXY(x', y') && 0 <= g.Idx(x', y', t')
    ensures Arrive(BlobX(g, x, y, t, w), g.Idx(x', y', t')) == if y' == y && t % g.nt == t' then w * Hat(x' - x) else 0.0
  {
    hide Arrive, Target, Grid.Idx;
    var j := g.Idx(x', y', t');
    var a, b, c := Aim(Target(g, x - 1, y, t), w * 0.5), Aim(Target(g, x, y, t), w), Aim(Target(g, x + 1, y, t), w * 0.5);
    TargetIs(g, x - 1, y, t, x', y', t');
    TargetIs(g, x, y, t, x', y', t');
    TargetIs(g, x + 1, y, t, x', y', t');
    ArriveOne(a, j);
    ArriveOne(b, j);
    ArriveOne(c, j);
    ThreeAims([a], [b], [c], j);
  }

  lemma BlobXYArrives(g: Grid, x: int, y: int, t: int, w: real, x': int, y': int, t': int)
    requires g.Valid() && g.nt > 0 && g.InMap(x', y') && 0 <= t' < g.nt && g.FreeXY(x', y') && 0 <= g.Idx(x', y', t')
    ensures Arrive(BlobXY(g, x, y, t, w), g.Idx(x', y', t')) == if t % g.nt == t' then w * (Hat(y' - y) * Hat(x' - x)) else 0.0
  {
    hide Arrive, BlobX, Grid.Idx;
    BlobXArrives(g, x, y - 1, t, w * 0.5, x', y', t');
    BlobXArrives(g, x, y, t, w, x', y', t');
    BlobXArrives(g, x, y + 1, t, w * 0.5, x', y', t');
    ThreeAims(BlobX(g, x, y - 1, t, w * 0.5), BlobX(g, x, y, t, w), BlobX(g, x, y + 1, t, w * 0.5), g.Idx(x', y', t'));
  }

  // What the blob around (x, y, t) brings to a free cell: 1 at its centre,
  // halved for each of the three coordinates that is one off, 0 beyond.
  lemma BlobArrives(g: Grid, x: int, y: int, t: int, x': int, y': int, t': int)
    requires g.Valid() && g.InMap(x, y) && 0 <= t < g.nt && g.InMap(x', y') && 0 <= t' < g.nt && g.FreeXY(x', y')
    ensures 0 <= (t * g.ny + y) * g.nx + x < g.Size() && 0 <= (t' * g.ny + y') * g.nx + x'
    ensures Arrive(Blob(g, (t * g.ny + y) * g.nx + x), (t' * g.ny + y') * g.nx + x')
         == HatTheta(g.nt, t, t') * (Hat(y' - y) * Hat(x' - x))
  {
    g.IdxRange(x, y, t);
    g.IdxRange(x', y', t');
    g.DecodeIdx(x, y, t);
    BlobArrivesAt(g, x, y, t, x', y', t', (t' * g.ny + y') * g.nx + x');
    hide Arrive, BlobAt, HatTheta, Hat;
  }

  lemma BlobArrivesAt(g: Grid, x: int, y: int, t: int, x': int, y': int, t': int, j: nat)
    requires g.Valid() && 0 <= t < g.nt && g.InMap(x', y') && 0 <= t' < g.nt && g.FreeXY(x', y') && j == g.Idx(x', y', t')
    ensures Arrive(BlobAt(g, x, y, t), j) == HatTheta(g.nt, t, t') * (Hat(y' - y) * Hat(x' - x))
  {
    hide Arrive, BlobXY, Grid.Idx, Hat;
    BlobXYArrives(g, x, y, t - 1 + g.nt, 0.5, x', y', t');
    BlobXYArrives(g, x, y, t, 1.0, x', y', t');
    BlobXYArrives(g, x, y, t + 1, 0.5, x', y', t');
    ThreeAims(BlobXY(g, x, y, t - 1 + g.nt, 0.5), BlobXY(g, x, y, t, 1.0), BlobXY(g, x, y, t + 1, 0.5), j);
    ModSmall(t, g.nt);
    Before(t, t', g.nt);
    Share3(if (t - 1 + g.nt) % g.nt == t' then 0.5 else 0.0, if t == t' then 1.0 else 0.0,
           if (t + 1) % g.nt == t' then 0.5 else 0.0, Hat(y' - y) * Hat(x' - x));
  }

  lemma Share3(a: real, b: real, c: real, w: real)
    ensures a * w + b * w + c * w == (b + c + a) * w
  {
  }

  // t' comes before t on the circle exactly when t comes after t'.
  lemma Before(t: int, t': int, nt: nat)
    requires 0 <= t < nt && 0 <= t' < nt
    ensures (t - 1 + nt) % nt == t' <==> t == (t' + 1) % nt
  {
    if t == 0 { ModSmall(nt - 1, nt); } else { DivMod1(t - 1, nt); ModSmall(t - 1, nt); }
    Successor(t', nt);
  }

  // ------------------------------------------------------------ seeding

  // Which weight function goes with which coordinate.
  lemma SeedWeightAt(g: Grid, wx: nat -> real, wy: nat -> real, wt: nat -> real, x: nat, y: nat, t: nat)
    requires g.Valid() && g.InMap(x, y) && t < g.nt
    ensures 0 <= (t * g.ny + y) * g.nx + x < g.Size()
    ensures SeedWeight(g, wx, wy, wt)((t * g.ny + y) * g.nx + x) == Kept(wt(t)) * Kept(wy(y)) * Kept(wx(x))
    ensures forall w: real :: Kept(w) == if w > 0.000000001 then w else 0.0
  {
    hide Grid.X, Grid.Y, Grid.T;
    g.DecodeIdx(x, y, t);
  }
}
