// Applying the accumulated motion to the belief: a trilinear shift, then
// diffusion passes over the six neighbours, then normalisation.
module BeliefMotion {
  import opened Sums
  import opened Basics
  import opened Belief
  import opened SparseBelief

  // The cell (x, y, t) as a target: theta wraps, blocked and outside cells get nothing.
  function Target(g: Grid, x: int, y: int, t: int): (r: Option<nat>)
    requires g.Valid() && g.nt > 0
    ensures r.Some? ==> r.value < g.Size() && g.FreeAt(r.value)
    ensures r.Some? <==> g.InMap(x, y) && g.FreeXY(x, y)
  {
    if g.InMap(x, y) && g.FreeXY(x, y) then
      g.DecodeIdx(x, y, t % g.nt);
      Some(g.Idx(x, y, t % g.nt))
    else None
  }

  // ------------------------------------------------------------ total weights

  ghost function Weight(ts: seq<Aim>): real { if |ts| == 0 then 0.0 else Weight(ts[..|ts| - 1]) + ts[|ts| - 1].w }

  lemma {:induction false} WeightSplits(ts: seq<Aim>)
    ensures Landed(ts) + Missed(ts) == Weight(ts)
  {
    if |ts| > 0 {
      WeightSplits(ts[..|ts| - 1]);
    }
  }

  lemma {:induction false} WeightAppend(a: seq<Aim>, b: seq<Aim>)
    ensures Weight(a + b) == Weight(a) + Weight(b)
    decreases |b|
  {
    if |b| == 0 {
      assert a + b == a;
    } else {
      assert (a + b)[..|a + b| - 1] == a + b[..|b| - 1];
      WeightAppend(a, b[..|b| - 1]);
    }
  }

  lemma GoodAppend(g: Grid, a: seq<Aim>, b: seq<Aim>)
    requires g.Valid() && GoodAims(g, a) && GoodAims(g, b)
    ensures GoodAims(g, a + b)
  {
  }

  // A distribution over free cells and nowhere.
  ghost predicate Proper(g: Grid, ts: seq<Aim>, w: real)
    requires g.Valid()
  {
    GoodAims(g, ts) && Weight(ts) == w
  }

  lemma ProperAppend(g: Grid, a: seq<Aim>, b: seq<Aim>, u: real, w: real)
    requires g.Valid() && Proper(g, a, u) && Proper(g, b, w)
    ensures Proper(g, a + b, u + w)
  {
    WeightAppend(a, b);
    GoodAppend(g, a, b);
  }

  lemma ProperOne(g: Grid, a: Aim)
    requires g.Valid() && a.w >= 0.0 && (a.to.Some? ==> a.to.value < g.Size() && g.FreeAt(a.to.value))
    ensures Proper(g, [a], a.w)
  {
    assert [a][..0] == [];
    assert Weight([a]) == Weight([]) + a.w;
  }

  // ------------------------------------------------------------ shift

  // The two x neighbours of a real position, weighted linearly; likewise y and theta.
  function AimsX(g: Grid, x0: int, fx: real, y: int, t: int, w: real): seq<Aim>
    requires g.Valid() && g.nt > 0
  {
    [Aim(Target(g, x0, y, t), w * (1.0 - fx)), Aim(Target(g, x0 + 1, y, t), w * fx)]
  }

  function AimsXY(g: Grid, x0: int, fx: real, y0: int, fy: real, t: int, w: real): seq<Aim>
    requires g.Valid() && g.nt > 0
  {
    AimsX(g, x0, fx, y0, t, w * (1.0 - fy)) + AimsX(g, x0, fx, y0 + 1, t, w * fy)
  }

  // The eight cells around the real position (ux, uy, ut), trilinear.
  function ShiftAims(g: Grid, ux: real, uy: real, ut: real): seq<Aim>
    requires g.Valid() && g.nt > 0
  {
    var (x0, y0, t0) := (ux.Floor, uy.Floor, ut.Floor);
    var (fx, fy, ft) := (ux - x0 as real, uy - y0 as real, ut - t0 as real);
    AimsXY(g, x0, fx, y0, fy, t0, 1.0 - ft) + AimsXY(g, x0, fx, y0, fy, t0 + 1, ft)
  }

  lemma AimsXProper(g: Grid, x0: int, fx: real, y: int, t: int, w: real)
    requires g.Valid() && g.nt > 0 && 0.0 <= fx <= 1.0 && w >= 0.0
    ensures Proper(g, AimsX(g, x0, fx, y, t, w), w)
  {
    var a, b := Aim(Target(g, x0, y, t), w * (1.0 - fx)), Aim(Target(g, x0 + 1, y, t), w * fx);
    assert w * (1.0 - fx) >= 0.0 && w * fx >= 0.0 && w * (1.0 - fx) + w * fx == w;
    hide Target;
    ProperOne(g, a);
    ProperOne(g, b);
    ProperAppend(g, [a], [b], a.w, b.w);
    assert [a] + [b] == [a, b];
  }

  lemma AimsXYProper(g: Grid, x0: int, fx: real, y0: int, fy: real, t: int, w: real)
    requires g.Valid() && g.nt > 0 && 0.0 <= fx <= 1.0 && 0.0 <= fy <= 1.0 && w >= 0.0
    ensures Proper(g, AimsXY(g, x0, fx, y0, fy, t, w), w)
  {
    assert w * (1.0 - fy) >= 0.0 && w * fy >= 0.0 && w * (1.0 - fy) + w * fy == w;
    hide AimsX, Proper;
    AimsXProper(g, x0, fx, y0, t, w * (1.0 - fy));
    AimsXProper(g, x0, fx, y0 + 1, t, w * fy);
    ProperAppend(g, AimsX(g, x0, fx, y0, t, w * (1.0 - fy)), AimsX(g, x0, fx, y0 + 1, t, w * fy), w * (1.0 - fy), w * fy);
  }

  // The trilinear weights always sum to 1.
  lemma ShiftProper(g: Grid, ux: real, uy: real, ut: real)
    requires g.Valid() && g.nt > 0
    ensures Proper(g, ShiftAims(g, ux, uy, ut), 1.0)
  {
    hide AimsXY, Proper;
    var (x0, y0, t0) := (ux.Floor, uy.Floor, ut.Floor);
    var (fx, fy, ft) := (ux - x0 as real, uy - y0 as real, ut - t0 as real);
    AimsXYProper(g, x0, fx, y0, fy, t0, 1.0 - ft);
    AimsXYProper(g, x0, fx, y0, fy, t0 + 1, ft);
    ProperAppend(g, AimsXY(g, x0, fx, y0, fy, t0, 1.0 - ft), AimsXY(g, x0, fx, y0, fy, t0 + 1, ft), 1.0 - ft, ft);
  }

  // The world displacement, in cells, that a forward move means at each theta.
  type Heading = nat -> (real, real)

  // Where every cell goes under a move: `rot` is the turn in theta cells.
  function ShiftOf(g: Grid, move: Heading, rot: real): nat -> seq<Aim>
    requires g.Valid()
  {
    (i: nat) =>
      if i < g.Size() then
        g.Decode(i);
        ShiftAims(g, g.X(i) as real + move(g.T(i)).0, g.Y(i) as real + move(g.T(i)).1, g.T(i) as real + rot)
      else []
  }

  // ------------------------------------------------------------ diffusion

  // The four neighbours in the plane.
  function AimsAround(g: Grid, x: int, y: int, t: int, a: real): seq<Aim>
    requires g.Valid() && g.nt > 0
  {
    [Aim(Target(g, x - 1, y, t), a)] + [Aim(Target(g, x + 1, y, t), a)]
    + ([Aim(Target(g, x, y - 1, t), a)] + [Aim(Target(g, x, y + 1, t), a)])
  }

  function AimsTurned(g: Grid, x: int, y: int, t: int, a: real): seq<Aim>
    requires g.Valid() && g.nt > 0
  {
    [Aim(Target(g, x, y, t + g.nt - 1), a)] + [Aim(Target(g, x, y, t + 1), a)]
  }

  // Centre, the four neighbours in the plane, and the two theta neighbours.
  function DiffuseAims(g: Grid, i: nat, aXy: real, aT: real): seq<Aim>
    requires g.Valid() && i < g.Size()
  {
    g.Decode(i);
    [Aim(Some(i), 1.0 - 4.0 * aXy - 2.0 * aT)] + AimsAround(g, g.X(i), g.Y(i), g.T(i), aXy)
    + if aT > 0.0 then AimsTurned(g, g.X(i), g.Y(i), g.T(i), aT) else []
  }

  lemma ProperPair(g: Grid, a: Aim, b: Aim, w: real)
    requires g.Valid() && a.w == b.w == w >= 0.0
    requires a.to.Some? ==> a.to.value < g.Size() && g.FreeAt(a.to.value)
    requires b.to.Some? ==> b.to.value < g.Size() && g.FreeAt(b.to.value)
    ensures Proper(g, [a] + [b], w + w)
  {
    hide Proper, Grid.FreeAt;
    ProperOne(g, a);
    ProperOne(g, b);
    ProperAppend(g, [a], [b], w, w);
  }

  lemma AroundProper(g: Grid, x: int, y: int, t: int, a: real)
    requires g.Valid() && g.nt > 0 && a >= 0.0
    ensures Proper(g, AimsAround(g, x, y, t, a), 4.0 * a)
    ensures Proper(g, AimsTurned(g, x, y, t, a), 2.0 * a)
  {
    hide Proper, Target;
    var e0, e1 := Aim(Target(g, x - 1, y, t), a), Aim(Target(g, x + 1, y, t), a);
    var e2, e3 := Aim(Target(g, x, y - 1, t), a), Aim(Target(g, x, y + 1, t), a);
    ProperPair(g, e0, e1, a);
    ProperPair(g, e2, e3, a);
    ProperAppend(g, [e0] + [e1], [e2] + [e3], a + a, a + a);
    ProperPair(g, Aim(Target(g, x, y, t + g.nt - 1), a), Aim(Target(g, x, y, t + 1), a), a);
  }

  lemma DiffuseProper(g: Grid, i: nat, aXy: real, aT: real)
    requires g.Valid() && i < g.Size() && g.FreeAt(i) && aXy >= 0.0 && aT >= 0.0 && 4.0 * aXy + 2.0 * aT <= 1.0
    ensures Proper(g, DiffuseAims(g, i, aXy, aT), 1.0)
  {
    g.Decode(i);
    hide Proper, AimsAround, AimsTurned, Grid.FreeAt, Grid.X, Grid.Y, Grid.T;
    var c := Aim(Some(i), 1.0 - 4.0 * aXy - 2.0 * aT);
    var plane := AimsAround(g, g.X(i), g.Y(i), g.T(i), aXy);
    var turned := AimsTurned(g, g.X(i), g.Y(i), g.T(i), aT);
    ProperOne(g, c);
    AroundProper(g, g.X(i), g.Y(i), g.T(i), aXy);
    AroundProper(g, g.X(i), g.Y(i), g.T(i), aT);
    ProperAppend(g, [c], plane, c.w, 4.0 * aXy);
    ProperAppend(g, [c] + plane, turned, c.w + 4.0 * aXy, 2.0 * aT);
    assert [c] + plane + [] == [c] + plane;
  }

  function DiffuseOf(g: Grid, aXy: real, aT: real): nat -> seq<Aim>
    requires g.Valid()
  {
    (i: nat) => if i < g.Size() then DiffuseAims(g, i, aXy, aT) else []
  }

  // ------------------------------------------------------------ the two scatters

  lemma ProperLands(g: Grid, ts: seq<Aim>)
    requires g.Valid() && Proper(g, ts, 1.0)
    ensures GoodAims(g, ts) && Landed(ts) + Missed(ts) == 1.0
  {
    WeightSplits(ts);
  }

  // Move every active cell; mass aimed at blocked or outside cells is lost.
  method ShiftScatter(s: Store, move: Heading, rot: real)
    requires s.Valid()
    modifies s, s.b, s.scratch
    ensures s.Valid() && s.b == old(s.scratch) && s.scratch == old(s.b)
    ensures Transported(old(s.b[..]), ShiftOf(s.g, move, rot), s.b[..])
    ensures Lossy(old(s.b[..]), ShiftOf(s.g, move, rot), s.b[..])
  {
    hide Transported, Lossy, Landed, Missed, Proper, ShiftAims;
    var aims := ShiftOf(s.g, move, rot);
    ghost var v, act := s.b[..], s.active;
    forall i | i in s.active
      ensures GoodAims(s.g, aims(i)) && Landed(aims(i)) + Missed(aims(i)) == 1.0
    {
      s.g.Decode(i);
      ShiftProper(s.g, s.g.X(i) as real + move(s.g.T(i)).0, s.g.Y(i) as real + move(s.g.T(i)).1, s.g.T(i) as real + rot);
      ProperLands(s.g, aims(i));
    }
    hide ShiftOf, GoodAims;
    s.Scatter(aims);
    MassAccount(s.g, v, act, aims, s.b[..]);
  }

  // One diffusion pass.
  method DiffuseScatter(s: Store, aXy: real, aT: real)
    requires s.Valid() && aXy >= 0.0 && aT >= 0.0 && 4.0 * aXy + 2.0 * aT <= 1.0
    modifies s, s.b, s.scratch
    ensures s.Valid() && s.b == old(s.scratch) && s.scratch == old(s.b)
    ensures Transported(old(s.b[..]), DiffuseOf(s.g, aXy, aT), s.b[..])
    ensures Lossy(old(s.b[..]), DiffuseOf(s.g, aXy, aT), s.b[..])
  {
    hide Transported, Lossy, Landed, Missed, Proper, DiffuseAims;
    var aims := DiffuseOf(s.g, aXy, aT);
    ghost var v, act := s.b[..], s.active;
    forall i | i in s.active
      ensures GoodAims(s.g, aims(i)) && Landed(aims(i)) + Missed(aims(i)) == 1.0
    {
      DiffuseProper(s.g, i, aXy, aT);
      ProperLands(s.g, aims(i));
    }
    hide DiffuseOf, GoodAims;
    s.Scatter(aims);
    MassAccount(s.g, v, act, aims, s.b[..]);
  }

  // ------------------------------------------------------------ flush

  // The dense steps of a flush: each vector is the transport of the one before.
  ghost predicate Chain(steps: seq<seq<real>>, aims: seq<nat -> seq<Aim>>) {
    && |steps| == |aims| + 1
    && forall k :: 0 <= k < |aims| ==> Transported(steps[k], aims[k], steps[k + 1]) && Lossy(steps[k], aims[k], steps[k + 1])
  }

  lemma ChainNone(v: seq<real>)
    ensures Chain([v], [])
  {
  }

  lemma BlurGrows(blurXy: real, blurT: real, ticks: nat)
    requires blurXy >= 0.0 && blurT >= 0.0
    ensures blurXy * ticks as real >= 0.0 && blurT * ticks as real >= 0.0
  {
  }

  lemma ChainSnoc(steps: seq<seq<real>>, aims: seq<nat -> seq<Aim>>, v: seq<real>, a: nat -> seq<Aim>)
    requires Chain(steps, aims) && Transported(steps[|aims|], a, v) && Lossy(steps[|aims|], a, v)
    ensures Chain(steps + [v], aims + [a])
  {
    hide Transported, Lossy;
  }

  // The dense operators a flush applies: the shift if there was a move, then
  // `passes` equal diffusion passes.
  ghost function FlushAims(g: Grid, moved: bool, move: Heading, rot: real, pXy: real, pT: real, passes: nat): seq<nat -> seq<Aim>>
    requires g.Valid()
  {
    if passes == 0 then (if moved then [ShiftOf(g, move, rot)] else [])
    else FlushAims(g, moved, move, rot, pXy, pT, passes - 1) + [DiffuseOf(g, pXy, pT)]
  }

  function Ceil(x: real): int { -((-x).Floor) }

  // Just enough passes to keep the centre weight of each at one half or more.
  function Passes(aXy: real, aT: real): (n: nat)
    requires aXy >= 0.0 && aT >= 0.0
    ensures n >= 1 && 4.0 * (aXy / n as real) + 2.0 * (aT / n as real) <= 0.5
    ensures n > 1 ==> 4.0 * (aXy / (n - 1) as real) + 2.0 * (aT / (n - 1) as real) > 0.5
  {
    var need := (4.0 * aXy + 2.0 * aT) / 0.5;
    var n := if Ceil(need) < 1 then 1 else Ceil(need);
    PassesEnough(aXy, aT, n);
    if n > 1 then PassesNeeded(aXy, aT, n - 1); n else n
  }

  lemma PassesNeeded(aXy: real, aT: real, n: int)
    requires n >= 1 && (n as real) < (4.0 * aXy + 2.0 * aT) / 0.5
    ensures 4.0 * (aXy / n as real) + 2.0 * (aT / n as real) > 0.5
  {
    var r := n as real;
    assert aXy / r * r == aXy && aT / r * r == aT;
    var s := 4.0 * (aXy / r) + 2.0 * (aT / r);
    assert s * r == 4.0 * aXy + 2.0 * aT > 0.5 * r;
    Exceeds(s, 0.5, r);
  }

  lemma Exceeds(a: real, b: real, k: real)
    requires k > 0.0 && a * k > b * k
    ensures a > b
  {
    if a < b { Stretch(b, a, k); }
  }

  lemma PassesEnough(aXy: real, aT: real, n: int)
    requires aXy >= 0.0 && aT >= 0.0 && n >= 1 && n as real >= (4.0 * aXy + 2.0 * aT) / 0.5
    ensures 4.0 * (aXy / n as real) + 2.0 * (aT / n as real) <= 0.5
    ensures aXy / n as real >= 0.0 && aT / n as real >= 0.0
  {
    var r := n as real;
    assert aXy / r * r == aXy && aT / r * r == aT;
    var s := 4.0 * (aXy / r) + 2.0 * (aT / r);
    assert s * r == 4.0 * aXy + 2.0 * aT <= 0.5 * r;
    if s > 0.5 {
      Stretch(s, 0.5, r);
    }
  }

  // The dense operators of a whole flush: theta only blurs where the circle has
  // more than two places, and the blur is spread evenly over the passes.
  ghost function MotionAims(g: Grid, moved: bool, move: Heading, rot: real, ticks: nat, blurXy: real, blurT: real): seq<nat -> seq<Aim>>
    requires g.Valid() && blurXy >= 0.0 && blurT >= 0.0
  {
    BlurGrows(blurXy, blurT, ticks);
    var aXy := blurXy * ticks as real;
    var aT := if g.nt > 2 then blurT * ticks as real else 0.0;
    if aXy > 0.0 || aT > 0.0
    then FlushAims(g, moved, move, rot, aXy / Passes(aXy, aT) as real, aT / Passes(aXy, aT) as real, Passes(aXy, aT))
    else FlushAims(g, moved, move, rot, 0.0, 0.0, 0)
  }

  // Apply the accumulated motion: `moved` says whether there is any, `ticks`
  // for how many ticks, `blurXy` and `blurT` the diffusion of one tick.
  method Flush(s: Store, moved: bool, move: Heading, rot: real, ticks: nat, blurXy: real, blurT: real)
    returns (ghost steps: seq<seq<real>>, ghost aims: seq<nat -> seq<Aim>>)
    requires s.Normal() && blurXy >= 0.0 && blurT >= 0.0
    modifies s, s.b, s.scratch
    ensures s.Normal() && {s.b, s.scratch} == old({s.b, s.scratch})
    ensures Chain(steps, aims) && steps[0] == old(s.b[..])
    ensures ticks == 0 && !moved ==> aims == [] && s.b[..] == old(s.b[..])
    ensures ticks != 0 || moved ==> Normalized(steps[|aims|], s.b[..])
    ensures ticks != 0 || moved ==> aims == MotionAims(s.g, moved, move, rot, ticks, blurXy, blurT)
  {
    hide Transported, Lossy, Normalized, ShiftOf, DiffuseOf, Passes, Chain, Sparse, Total;
    steps, aims := [s.b[..]], [];
    ChainNone(s.b[..]);
    if ticks == 0 && !moved { return; }
    if moved {
      ShiftScatter(s, move, rot);
      ChainSnoc(steps, aims, s.b[..], ShiftOf(s.g, move, rot));
      steps, aims := steps + [s.b[..]], aims + [ShiftOf(s.g, move, rot)];
    }
    BlurGrows(blurXy, blurT, ticks);
    ChainShape(steps, aims);
    var aXy := blurXy * ticks as real;
    var aT := if s.g.nt > 2 then blurT * ticks as real else 0.0;
    if aXy > 0.0 || aT > 0.0 {
      steps, aims := Diffuse(s, moved, move, rot, aXy, aT, steps, aims);
    }
    s.NormalizeActive();
  }

  method Diffuse(s: Store, ghost moved: bool, ghost move: Heading, ghost rot: real, aXy: real, aT: real,
                 ghost steps0: seq<seq<real>>, ghost aims0: seq<nat -> seq<Aim>>)
    returns (ghost steps: seq<seq<real>>, ghost aims: seq<nat -> seq<Aim>>)
    requires s.Valid() && aXy >= 0.0 && aT >= 0.0
    requires aims0 == FlushAims(s.g, moved, move, rot, 0.0, 0.0, 0) && Chain(steps0, aims0) && steps0[|aims0|] == s.b[..]
    modifies s, s.b, s.scratch
    ensures s.Valid() && {s.b, s.scratch} == old({s.b, s.scratch})
    ensures Chain(steps, aims) && steps[|aims|] == s.b[..] && steps[0] == steps0[0]
    ensures aims == FlushAims(s.g, moved, move, rot, aXy / Passes(aXy, aT) as real, aT / Passes(aXy, aT) as real, Passes(aXy, aT))
  {
    hide Transported, Lossy, ShiftOf, DiffuseOf, Chain;
    steps, aims := steps0, aims0;
    ChainShape(steps, aims);
    var passes := Passes(aXy, aT);
    var pXy, pT := aXy / passes as real, aT / passes as real;
    assert pXy >= 0.0 && pT >= 0.0;
    hide Passes;
    for k := 0 to passes
      invariant s.Valid() && {s.b, s.scratch} == old({s.b, s.scratch})
      invariant |steps| == |aims| + 1 && Chain(steps, aims) && steps[|aims|] == s.b[..] && steps[0] == steps0[0]
      invariant aims == FlushAims(s.g, moved, move, rot, pXy, pT, k)
    {
      DiffuseScatter(s, pXy, pT);
      ChainSnoc(steps, aims, s.b[..], DiffuseOf(s.g, pXy, pT));
      steps, aims := steps + [s.b[..]], aims + [DiffuseOf(s.g, pXy, pT)];
    }
  }

  lemma ChainShape(steps: seq<seq<real>>, aims: seq<nat -> seq<Aim>>)
    requires Chain(steps, aims)
    ensures |steps| == |aims| + 1
  {
  }
}
