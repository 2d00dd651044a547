// The whole relaxation: each plane along x then y, then every theta ring. The
// result is the exact erosion under the sum of the three axis distances.
module MinPlusExact {
  import opened MinPlus
  import opened MinPlusField

  // The cost of reaching c from d.
  function Cost(g: Box, lxy: real, lt: real, c: Cell, d: Cell): real
    requires g.Has(c) && g.Has(d)
  {
    Times(lxy, Dist(false, g.nx, c.x, d.x) + Dist(false, g.ny, c.y, d.y)) + Times(lt, Dist(true, g.nt, c.t, d.t))
  }

  ghost predicate Reach(g: Box, lxy: real, lt: real, f: Field, c: Cell, d: Cell, v: Ext)
    requires g.Has(c) && g.Has(d) && Whole(g, f)
  {
    Leq(Plus(f[d], Cost(g, lxy, lt, c, d)), v)
  }

  // e at c is the least cost of reaching c from any cell of f allowed.
  ghost predicate ExactAt(g: Box, lxy: real, lt: real, f: Field, v: Ext, c: Cell, plane: bool)
    requires g.Has(c) && Whole(g, f)
  {
    && (forall d :: g.Has(d) && (plane ==> d.t == c.t) ==> Leq(v, Plus(f[d], Cost(g, lxy, lt, c, d))))
    && (v.Inf? || exists d :: g.Has(d) && (plane ==> d.t == c.t) && Reach(g, lxy, lt, f, c, d, v))
  }

  // e is the erosion of f.
  ghost predicate Erosion(g: Box, lxy: real, lt: real, f: Field, e: Field) {
    && Whole(g, f) && Whole(g, e)
    && forall c :: g.Has(c) ==> ExactAt(g, lxy, lt, f, e[c], c, false)
  }

  // The lines `sel` selects are eroded, all other cells unchanged.
  ghost predicate Part(g: Box, a: Axis, ring: bool, l: real, f: Field, e: Field, sel: Cell -> bool) {
    && Whole(g, f) && Whole(g, e)
    && (forall c :: g.Has(c) && sel(c) ==> Eroded(ring, l, Line(g, f, a, c), Line(g, e, a, c)))
    && (forall c :: g.Has(c) && !sel(c) ==> e[c] == f[c])
  }

  ghost predicate Closed(g: Box, a: Axis, sel: Cell -> bool) {
    forall c, d :: g.Has(c) && g.Has(d) && Put(a, c, 0) == Put(a, d, 0) ==> sel(c) == sel(d)
  }

  lemma PartStarts(g: Box, a: Axis, ring: bool, l: real, f: Field, sel: Cell -> bool)
    requires Whole(g, f) && forall c :: g.Has(c) ==> !sel(c)
    ensures Part(g, a, ring, l, f, f, sel)
  {
  }

  lemma PartStep(g: Box, a: Axis, ring: bool, l: real, f: Field, e: Field, e': Field,
                 sel: Cell -> bool, sel': Cell -> bool, c0: Cell)
    requires Part(g, a, ring, l, f, e, sel) && Closed(g, a, sel) && g.Has(c0) && !sel(c0)
    requires OnlyLine(g, e', e, a, c0) && Eroded(ring, l, Line(g, e, a, c0), Line(g, e', a, c0))
    requires forall c :: g.Has(c) ==> (sel'(c) <==> sel(c) || Put(a, c, 0) == Put(a, c0, 0))
    ensures Part(g, a, ring, l, f, e', sel')
  {
    hide Eroded;
    forall c | g.Has(c) && sel'(c)
      ensures Eroded(ring, l, Line(g, f, a, c), Line(g, e', a, c))
    {
      if Put(a, c, 0) == Put(a, c0, 0) {
        SameLine(g, e', a, c, c0);
        LineUntouched(g, a, f, e, sel, c0);
        SameLine(g, f, a, c, c0);
      } else {
        LineKept(g, a, e, e', c, c0);
      }
    }
  }

  lemma SameLine(g: Box, f: Field, a: Axis, c: Cell, d: Cell)
    requires g.Has(c) && g.Has(d) && Whole(g, f) && Put(a, c, 0) == Put(a, d, 0)
    ensures Line(g, f, a, c) == Line(g, f, a, d)
  {
    assert forall k :: 0 <= k < g.Len(a) ==> Put(a, c, k) == Put(a, d, k);
  }

  lemma LineUntouched(g: Box, a: Axis, f: Field, e: Field, sel: Cell -> bool, c0: Cell)
    requires Whole(g, f) && Whole(g, e) && Closed(g, a, sel) && g.Has(c0) && !sel(c0)
    requires forall c :: g.Has(c) && !sel(c) ==> e[c] == f[c]
    ensures Line(g, e, a, c0) == Line(g, f, a, c0)
  {
    forall k | 0 <= k < g.Len(a)
      ensures Line(g, e, a, c0)[k] == Line(g, f, a, c0)[k]
    {
      assert Put(a, Put(a, c0, k), 0) == Put(a, c0, 0);
    }
  }

  lemma LineKept(g: Box, a: Axis, e: Field, e': Field, c: Cell, c0: Cell)
    requires OnlyLine(g, e', e, a, c0) && g.Has(c) && Put(a, c, 0) != Put(a, c0, 0)
    ensures Whole(g, e) && Whole(g, e') && Line(g, e', a, c) == Line(g, e, a, c)
  {
    forall k | 0 <= k < g.Len(a)
      ensures Line(g, e', a, c)[k] == Line(g, e, a, c)[k]
    {
      assert Put(a, Put(a, c, k), 0) == Put(a, c, 0);
    }
  }

  // ------------------------------------------------------------ composing the axes

  lemma PlusLeq(a: Ext, b: Ext, c: Ext, x: real, y: real)
    requires Leq(a, Plus(b, x)) && Leq(b, Plus(c, y))
    ensures Leq(a, Plus(c, x + y))
  {
  }

  lemma PlusGeq(a: Ext, b: Ext, c: Ext, x: real, y: real)
    requires Leq(Plus(b, x), a) && Leq(Plus(c, y), b)
    ensures Leq(Plus(c, x + y), a)
  {
  }

  lemma CostSplits(g: Box, lxy: real, lt: real, c: Cell, d: Cell)
    requires g.Has(c) && g.Has(d)
    ensures Cost(g, lxy, lt, c, d) == Times(lt, Dist(true, g.nt, c.t, d.t))
         + (Times(lxy, Dist(false, g.ny, c.y, d.y)) + Times(lxy, Dist(false, g.nx, c.x, d.x)))
  {
    TimesAdd(lxy, Dist(false, g.nx, c.x, d.x), Dist(false, g.ny, c.y, d.y));
  }

  // Erosion of one axis, cell by cell.
  lemma PartUnder(g: Box, a: Axis, ring: bool, l: real, f: Field, e: Field, sel: Cell -> bool, c: Cell, k: nat)
    requires Part(g, a, ring, l, f, e, sel) && g.Has(c) && sel(c) && k < g.Len(a)
    ensures g.Has(Put(a, c, k))
    ensures Leq(e[c], Plus(f[Put(a, c, k)], Times(l, Dist(ring, g.Len(a), Coord(a, c), k))))
  {
    hide Times, Dist;
    var lf, le := Line(g, f, a, c), Line(g, e, a, c);
    assert Put(a, c, Coord(a, c)) == c;
    assert le[Coord(a, c)] == e[c] && lf[k] == f[Put(a, c, k)];
    assert Under(ring, l, lf, le, Coord(a, c), k);
  }

  lemma PartSourced(g: Box, a: Axis, ring: bool, l: real, f: Field, e: Field, sel: Cell -> bool, c: Cell) returns (k: nat)
    requires Part(g, a, ring, l, f, e, sel) && g.Has(c) && sel(c) && e[c].Fin?
    ensures k < g.Len(a) && g.Has(Put(a, c, k))
    ensures Leq(Plus(f[Put(a, c, k)], Times(l, Dist(ring, g.Len(a), Coord(a, c), k))), e[c])
  {
    hide Times, Dist;
    var lf, le := Line(g, f, a, c), Line(g, e, a, c);
    assert Put(a, c, Coord(a, c)) == c;
    assert le[Coord(a, c)] == e[c];
    assert Sourced(ring, l, lf, Coord(a, c), le[Coord(a, c)]);
    k :| 0 <= k < |lf| && Leq(Plus(lf[k], Times(l, Dist(ring, |lf|, Coord(a, c), k))), e[c]);
    assert lf[k] == f[Put(a, c, k)];
  }

  lemma PlaneUnder(g: Box, lxy: real, lt: real, f: Field, m: Field, e: Field, sel: Cell -> bool, c: Cell, d: Cell)
    requires Part(g, X, false, lxy, f, m, sel) && Part(g, Y, false, lxy, m, e, sel)
    requires g.Has(c) && g.Has(d) && d.t == c.t && sel(c) && sel(c.(y := d.y))
    ensures Leq(e[c], Plus(f[d], Cost(g, lxy, lt, c, d)))
  {
    hide Times, Part, Dist;
    var p := c.(y := d.y);
    PartUnder(g, Y, false, lxy, m, e, sel, c, d.y);
    PartUnder(g, X, false, lxy, f, m, sel, p, d.x);
    assert Put(Y, c, d.y) == p && Put(X, p, d.x) == d;
    PartWhole(g, X, false, lxy, f, m, sel);
    PartWhole(g, Y, false, lxy, m, e, sel);
    PlusLeq(e[c], m[p], f[d], Times(lxy, Dist(false, g.ny, c.y, d.y)), Times(lxy, Dist(false, g.nx, c.x, d.x)));
    PlaneCost(g, lxy, lt, c, d);
  }

  lemma PlaneCost(g: Box, lxy: real, lt: real, c: Cell, d: Cell)
    requires g.Has(c) && g.Has(d) && d.t == c.t
    ensures Cost(g, lxy, lt, c, d) == Times(lxy, Dist(false, g.ny, c.y, d.y)) + Times(lxy, Dist(false, g.nx, c.x, d.x))
  {
    CostSplits(g, lxy, lt, c, d);
    TimesZero(lt);
  }

  lemma PlaneSourced(g: Box, lxy: real, lt: real, f: Field, m: Field, e: Field, sel: Cell -> bool, c: Cell)
    returns (d: Cell)
    requires Part(g, X, false, lxy, f, m, sel) && Part(g, Y, false, lxy, m, e, sel)
    requires g.Has(c) && (forall p :: g.Has(p) && p.t == c.t ==> sel(p)) && e[c].Fin?
    ensures Whole(g, f) && g.Has(d) && d.t == c.t && Reach(g, lxy, lt, f, c, d, e[c])
  {
    hide Times, Part, Dist;
    PartWhole(g, X, false, lxy, f, m, sel);
    PartWhole(g, Y, false, lxy, m, e, sel);
    var y := PartSourced(g, Y, false, lxy, m, e, sel, c);
    var p := c.(y := y);
    assert Put(Y, c, y) == p;
    var x := PartSourced(g, X, false, lxy, f, m, sel, p);
    d := p.(x := x);
    assert Put(X, p, x) == d;
    PlusGeq(e[c], m[p], f[d], Times(lxy, Dist(false, g.ny, c.y, y)), Times(lxy, Dist(false, g.nx, c.x, x)));
    PlaneCost(g, lxy, lt, c, d);
  }

  // Eroding the lines along x and then along y erodes the plane.
  lemma PlaneExact(g: Box, lxy: real, lt: real, f: Field, m: Field, e: Field, sel: Cell -> bool, c: Cell)
    requires Part(g, X, false, lxy, f, m, sel) && Part(g, Y, false, lxy, m, e, sel)
    requires g.Has(c) && forall d :: g.Has(d) && d.t == c.t ==> sel(d)
    ensures Whole(g, f) && Whole(g, e) && ExactAt(g, lxy, lt, f, e[c], c, true)
  {
    PartWhole(g, X, false, lxy, f, m, sel);
    PartWhole(g, Y, false, lxy, m, e, sel);
    hide Part, Cost;
    forall d | g.Has(d) && d.t == c.t
      ensures Leq(e[c], Plus(f[d], Cost(g, lxy, lt, c, d)))
    {
      PlaneUnder(g, lxy, lt, f, m, e, sel, c, d);
    }
    if e[c].Fin? {
      var d := PlaneSourced(g, lxy, lt, f, m, e, sel, c);
    }
  }

  lemma TimesZero(l: real)
    ensures Times(l, 0) == 0.0
  {
  }

  // Eroding every theta ring after the planes erodes the whole field.
  lemma FieldExact(g: Box, lxy: real, lt: real, f: Field, e: Field, r: Field, sel: Cell -> bool)
    requires Whole(g, f) && Part(g, T, true, lt, e, r, sel) && forall c :: g.Has(c) ==> sel(c)
    requires forall c :: g.Has(c) ==> ExactAt(g, lxy, lt, f, e[c], c, true)
    ensures Erosion(g, lxy, lt, f, r)
  {
    hide Times, Part, ExactAt;
    assert Whole(g, e) && Whole(g, r) by { PartWhole(g, T, true, lt, e, r, sel); }
    forall c | g.Has(c)
      ensures ExactAt(g, lxy, lt, f, r[c], c, false)
    {
      CellExact(g, lxy, lt, f, e, r, sel, c);
    }
  }

  lemma PartWhole(g: Box, a: Axis, ring: bool, l: real, f: Field, e: Field, sel: Cell -> bool)
    requires Part(g, a, ring, l, f, e, sel)
    ensures Whole(g, f) && Whole(g, e)
  {
  }

  lemma RingUnderPlane(g: Box, lxy: real, lt: real, f: Field, e: Field, r: Field, sel: Cell -> bool, c: Cell, d: Cell)
    requires Whole(g, f) && Part(g, T, true, lt, e, r, sel) && g.Has(c) && g.Has(d) && sel(c)
    requires ExactAt(g, lxy, lt, f, e[c.(t := d.t)], c.(t := d.t), true)
    ensures Leq(r[c], Plus(f[d], Cost(g, lxy, lt, c, d)))
  {
    PartWhole(g, T, true, lt, e, r, sel);
    hide Times, Part, Cost, Dist;
    var p := c.(t := d.t);
    PartUnder(g, T, true, lt, e, r, sel, c, d.t);
    assert Put(T, c, d.t) == p;
    RingThenPlane(g, lxy, lt, c, d);
    PlusLeq(r[c], e[p], f[d], Times(lt, Dist(true, g.nt, c.t, d.t)), Cost(g, lxy, lt, p, d));
  }

  lemma RingSourcedPlane(g: Box, lxy: real, lt: real, f: Field, e: Field, r: Field, sel: Cell -> bool, c: Cell)
    returns (d: Cell)
    requires Whole(g, f) && Part(g, T, true, lt, e, r, sel) && g.Has(c) && sel(c) && r[c].Fin?
    requires forall p :: g.Has(p) ==> ExactAt(g, lxy, lt, f, e[p], p, true)
    ensures g.Has(d) && Reach(g, lxy, lt, f, c, d, r[c])
  {
    hide Times, Part, Cost, Dist, Plus, Leq;
    PartWhole(g, T, true, lt, e, r, sel);
    var t := PartSourced(g, T, true, lt, e, r, sel, c);
    var p := c.(t := t);
    assert Put(T, c, t) == p;
    SourceFinite(e[p], Times(lt, Dist(true, g.nt, c.t, t)), r[c]);
    d := PlaneSource(g, lxy, lt, f, e[p], p);
    RingThenPlane(g, lxy, lt, c, d);
    PlusGeq(r[c], e[p], f[d], Times(lt, Dist(true, g.nt, c.t, t)), Cost(g, lxy, lt, p, d));
  }

  lemma PlaneSource(g: Box, lxy: real, lt: real, f: Field, v: Ext, p: Cell) returns (d: Cell)
    requires g.Has(p) && Whole(g, f) && ExactAt(g, lxy, lt, f, v, p, true) && v.Fin?
    ensures g.Has(d) && d.t == p.t && Leq(Plus(f[d], Cost(g, lxy, lt, p, d)), v)
  {
    hide Cost, Plus, Leq;
    d :| g.Has(d) && d.t == p.t && Reach(g, lxy, lt, f, p, d, v);
  }

  lemma CellExact(g: Box, lxy: real, lt: real, f: Field, e: Field, r: Field, sel: Cell -> bool, c: Cell)
    requires Whole(g, f) && Part(g, T, true, lt, e, r, sel) && g.Has(c) && sel(c)
    requires forall d :: g.Has(d) ==> ExactAt(g, lxy, lt, f, e[d], d, true)
    ensures ExactAt(g, lxy, lt, f, r[c], c, false)
  {
    hide Times, Part, Cost, Dist;
    PartWhole(g, T, true, lt, e, r, sel);
    forall d | g.Has(d)
      ensures Leq(r[c], Plus(f[d], Cost(g, lxy, lt, c, d)))
    {
      RingUnderPlane(g, lxy, lt, f, e, r, sel, c, d);
    }
    if r[c].Fin? {
      var d := RingSourcedPlane(g, lxy, lt, f, e, r, sel, c);
    }
  }

  lemma RingThenPlane(g: Box, lxy: real, lt: real, c: Cell, d: Cell)
    requires g.Has(c) && g.Has(d)
    ensures g.Has(c.(t := d.t))
    ensures Cost(g, lxy, lt, c, d) == Times(lt, Dist(true, g.nt, c.t, d.t)) + Cost(g, lxy, lt, c.(t := d.t), d)
  {
    TimesZero(lt);
  }

  // ------------------------------------------------------------ the loops

  // One theta plane: all lines along x, then all lines along y.
  method RelaxPlane(delta: array<Ext>, g: Box, it: int, l: real, ghost lt: real)
    requires delta.Length == g.Size() && 0 <= it < g.nt && l >= 0.0
    modifies delta
    ensures forall c :: g.Has(c) && c.t == it ==>
      ExactAt(g, l, lt, old(g.View(delta[..])), g.View(delta[..])[c], c, true)
    ensures forall c :: g.Has(c) && c.t != it ==> g.View(delta[..])[c] == old(g.View(delta[..]))[c]
  {
    hide Box.View, Eroded, Line, Part, OnlyLine, ExactAt;
    ghost var f := g.View(delta[..]);
    PartStarts(g, X, false, l, f, (c: Cell) => c.t == it && c.y < 0);
    for iy := 0 to g.ny
      invariant Part(g, X, false, l, f, g.View(delta[..]), (c: Cell) => c.t == it && c.y < iy)
    {
      ghost var e := g.View(delta[..]);
      if g.nx > 0 {
        RelaxLine(delta, g, X, Cell(0, iy, it), l, false);
        PartStep(g, X, false, l, f, e, g.View(delta[..]),
                 (c: Cell) => c.t == it && c.y < iy, (c: Cell) => c.t == it && c.y < iy + 1, Cell(0, iy, it));
      } else {
        PartEmpty(g, X, false, l, f, e, (c: Cell) => c.t == it && c.y < iy, (c: Cell) => c.t == it && c.y < iy + 1);
      }
    }
    ghost var m := g.View(delta[..]);
    PartStarts(g, Y, false, l, m, (c: Cell) => c.t == it && c.x < 0);
    for ix := 0 to g.nx
      invariant Part(g, Y, false, l, m, g.View(delta[..]), (c: Cell) => c.t == it && c.x < ix)
    {
      ghost var e := g.View(delta[..]);
      if g.ny > 0 {
        RelaxLine(delta, g, Y, Cell(ix, 0, it), l, false);
        PartStep(g, Y, false, l, m, e, g.View(delta[..]),
                 (c: Cell) => c.t == it && c.x < ix, (c: Cell) => c.t == it && c.x < ix + 1, Cell(ix, 0, it));
      } else {
        PartEmpty(g, Y, false, l, m, e, (c: Cell) => c.t == it && c.x < ix, (c: Cell) => c.t == it && c.x < ix + 1);
      }
    }
    PlaneDone(g, l, lt, f, m, g.View(delta[..]), it);
  }

  lemma PartEmpty(g: Box, a: Axis, ring: bool, l: real, f: Field, e: Field, sel: Cell -> bool, sel': Cell -> bool)
    requires Part(g, a, ring, l, f, e, sel) && forall c :: !g.Has(c)
    ensures Part(g, a, ring, l, f, e, sel')
  {
  }

  lemma PartSame(g: Box, a: Axis, ring: bool, l: real, f: Field, e: Field, sel: Cell -> bool, sel': Cell -> bool)
    requires Part(g, a, ring, l, f, e, sel) && forall c :: g.Has(c) ==> sel(c) == sel'(c)
    ensures Part(g, a, ring, l, f, e, sel')
  {
  }

  lemma PlaneDone(g: Box, l: real, lt: real, f: Field, m: Field, e: Field, it: int)
    requires Part(g, X, false, l, f, m, (c: Cell) => c.t == it && c.y < g.ny)
    requires Part(g, Y, false, l, m, e, (c: Cell) => c.t == it && c.x < g.nx)
    ensures Whole(g, f) && Whole(g, e)
    ensures forall c :: g.Has(c) && c.t == it ==> ExactAt(g, l, lt, f, e[c], c, true)
    ensures forall c :: g.Has(c) && c.t != it ==> e[c] == f[c]
  {
    var sel := (c: Cell) => c.t == it;
    PartSame(g, X, false, l, f, m, (c: Cell) => c.t == it && c.y < g.ny, sel);
    PartSame(g, Y, false, l, m, e, (c: Cell) => c.t == it && c.x < g.nx, sel);
    PartWhole(g, X, false, l, f, m, sel);
    PartWhole(g, Y, false, l, m, e, sel);
    hide Eroded, Line, ExactAt;
    forall c | g.Has(c) && c.t == it
      ensures ExactAt(g, l, lt, f, e[c], c, true)
    {
      PlaneExact(g, l, lt, f, m, e, sel, c);
    }
  }

  method RelaxPlanes(delta: array<Ext>, g: Box, l: real, ghost lt: real)
    requires delta.Length == g.Size() && l >= 0.0
    modifies delta
    ensures forall c :: g.Has(c) ==> ExactAt(g, l, lt, old(g.View(delta[..])), g.View(delta[..])[c], c, true)
  {
    ghost var f := g.View(delta[..]);
    hide Box.View, ExactAt;
    for it := 0 to g.nt
      invariant forall c :: g.Has(c) && c.t < it ==> ExactAt(g, l, lt, f, g.View(delta[..])[c], c, true)
      invariant forall c :: g.Has(c) && c.t >= it ==> g.View(delta[..])[c] == f[c]
    {
      ghost var e := g.View(delta[..]);
      RelaxPlane(delta, g, it, l, lt);
      ghost var e' := g.View(delta[..]);
      forall c | g.Has(c) && c.t == it
        ensures ExactAt(g, l, lt, f, e'[c], c, true)
      {
        ExactSamePlane(g, l, lt, e, f, e'[c], c);
      }
    }
  }

  lemma ExactSamePlane(g: Box, lxy: real, lt: real, e: Field, f: Field, v: Ext, c: Cell)
    requires Whole(g, e) && Whole(g, f) && g.Has(c) && ExactAt(g, lxy, lt, e, v, c, true)
    requires forall d :: g.Has(d) && d.t == c.t ==> e[d] == f[d]
    ensures ExactAt(g, lxy, lt, f, v, c, true)
  {
    hide Cost;
    if v.Fin? {
      var d :| g.Has(d) && d.t == c.t && Reach(g, lxy, lt, e, c, d, v);
      assert Reach(g, lxy, lt, f, c, d, v);
    }
  }

  // The cells whose theta ring comes before (ix, iy).
  function Before(ix: int, iy: int): Cell -> bool { (c: Cell) => Behind(c, ix, iy) }

  method RelaxRingRow(delta: array<Ext>, g: Box, l: real, iy: int, ghost e: Field)
    requires delta.Length == g.Size() && l >= 0.0 && g.nt > 0 && 0 <= iy < g.ny
    requires Part(g, T, true, l, e, g.View(delta[..]), Before(0, iy))
    modifies delta
    ensures Part(g, T, true, l, e, g.View(delta[..]), Before(g.nx, iy))
  {
    hide Box.View, Part, OnlyLine, Eroded, Line;
    for ix := 0 to g.nx
      invariant Part(g, T, true, l, e, g.View(delta[..]), Before(ix, iy))
    {
      ghost var e0 := g.View(delta[..]);
      RelaxLine(delta, g, T, Cell(ix, iy, 0), l, true);
      PartStep(g, T, true, l, e, e0, g.View(delta[..]), Before(ix, iy), Before(ix + 1, iy), Cell(ix, iy, 0));
    }
  }

  // All theta rings.
  method RelaxRings(delta: array<Ext>, g: Box, l: real)
    requires delta.Length == g.Size() && l >= 0.0 && g.nt > 0
    modifies delta
    ensures Part(g, T, true, l, old(g.View(delta[..])), g.View(delta[..]), Before(0, g.ny))
  {
    ghost var e := g.View(delta[..]);
    PartStarts(g, T, true, l, e, Before(0, 0));
    hide Box.View, Part;
    for iy := 0 to g.ny
      invariant Part(g, T, true, l, e, g.View(delta[..]), Before(0, iy))
    {
      RelaxRingRow(delta, g, l, iy, e);
      PartSame(g, T, true, l, e, g.View(delta[..]), Before(g.nx, iy), Before(0, iy + 1));
    }
  }

  // The relaxation: the exact erosion of the whole field.
  method MinPlusRelax(delta: array<Ext>, g: Box, lxy: real, lt: real)
    requires delta.Length == g.Size() && lxy >= 0.0 && lt >= 0.0
    modifies delta
    ensures Erosion(g, lxy, lt, old(g.View(delta[..])), g.View(delta[..]))
  {
    ghost var f := g.View(delta[..]);
    hide Box.View, ExactAt, Part, Erosion;
    RelaxPlanes(delta, g, lxy, lt);
    ghost var e := g.View(delta[..]);
    if g.nt > 1 {
      RelaxRings(delta, g, lt);
      FieldExact(g, lxy, lt, f, e, g.View(delta[..]), Before(0, g.ny));
    } else {
      OnePlane(g, lxy, lt, f, e);
    }
  }

  predicate Behind(c: Cell, ix: int, iy: int) { c.y < iy || (c.y == iy && c.x < ix) }

  lemma OnePlane(g: Box, lxy: real, lt: real, f: Field, e: Field)
    requires g.nt <= 1 && Whole(g, f) && Whole(g, e)
    requires forall c :: g.Has(c) ==> ExactAt(g, lxy, lt, f, e[c], c, true)
    ensures Erosion(g, lxy, lt, f, e)
  {
    hide Cost, Leq, Plus;
    forall c | g.Has(c)
      ensures ExactAt(g, lxy, lt, f, e[c], c, false)
    {
      if e[c].Fin? {
        var d :| g.Has(d) && d.t == c.t && Reach(g, lxy, lt, f, c, d, e[c]);
      }
    }
  }

  // The erosion in the array itself: e at (x, y, t) is at most f at (x', y', t')
  // plus l_xy per step of the Manhattan distance and l_t per step around the
  // ring, and where it is finite it is at least that for one of them.
  lemma ErosionIn(g: Box, lxy: real, lt: real, f: seq<Ext>, e: seq<Ext>)
    requires |f| == |e| == g.Size() && Erosion(g, lxy, lt, g.View(f), g.View(e))
    ensures forall c, d :: g.Has(c) && g.Has(d) ==>
      0 <= (c.t * g.ny + c.y) * g.nx + c.x < |e| && 0 <= (d.t * g.ny + d.y) * g.nx + d.x < |f|
      && Leq(e[(c.t * g.ny + c.y) * g.nx + c.x], Plus(f[(d.t * g.ny + d.y) * g.nx + d.x], Price(g, lxy, lt, c, d)))
    ensures forall c :: g.Has(c) && g.View(e)[c].Fin? ==>
      exists d :: g.Has(d) && Leq(Plus(g.View(f)[d], Price(g, lxy, lt, c, d)), g.View(e)[c])
  {
    hide Plus, Leq, Box.View, Price, Cost;
    forall c, d | g.Has(c) && g.Has(d)
      ensures 0 <= (c.t * g.ny + c.y) * g.nx + c.x < |e| && 0 <= (d.t * g.ny + d.y) * g.nx + d.x < |f|
      ensures Leq(e[(c.t * g.ny + c.y) * g.nx + c.x], Plus(f[(d.t * g.ny + d.y) * g.nx + d.x], Price(g, lxy, lt, c, d)))
    {
      g.ViewAt(e, c);
      g.ViewAt(f, d);
      PriceIsCost(g, lxy, lt, c, d);
      ExactBound(g, lxy, lt, g.View(f), g.View(e)[c], c, d);
    }
    forall c | g.Has(c) && g.View(e)[c].Fin?
      ensures exists d :: g.Has(d) && Leq(Plus(g.View(f)[d], Price(g, lxy, lt, c, d)), g.View(e)[c])
    {
      var d := ExactSource(g, lxy, lt, g.View(f), g.View(e)[c], c);
      PriceIsCost(g, lxy, lt, c, d);
    }
  }

  function Apart(a: int, b: int): nat { if a < b then b - a else a - b }

  function Price(g: Box, lxy: real, lt: real, c: Cell, d: Cell): real {
    var turn := Apart(c.t, d.t);
    lxy * (Apart(c.x, d.x) + Apart(c.y, d.y)) as real + lt * (if g.nt - turn < turn then g.nt - turn else turn) as real
  }

  lemma PriceIsCost(g: Box, lxy: real, lt: real, c: Cell, d: Cell)
    requires g.Has(c) && g.Has(d)
    ensures Price(g, lxy, lt, c, d) == Cost(g, lxy, lt, c, d)
  {
    hide Times, Dist, Apart;
    DistIs(g.nx, c.x, d.x);
    DistIs(g.ny, c.y, d.y);
    DistIs(g.nt, c.t, d.t);
    TimesIs(lxy, Dist(false, g.nx, c.x, d.x) + Dist(false, g.ny, c.y, d.y));
    TimesIs(lt, Dist(true, g.nt, c.t, d.t));
  }

  lemma DistIs(n: nat, a: nat, b: nat)
    requires a < n && b < n
    ensures Dist(false, n, a, b) == Apart(a, b)
    ensures Dist(true, n, a, b) == if n - Apart(a, b) < Apart(a, b) then n - Apart(a, b) else Apart(a, b)
  {
  }

  lemma {:induction false} TimesIs(l: real, k: nat)
    ensures Times(l, k) == l * k as real
  {
    if k > 0 {
      TimesIs(l, k - 1);
      assert l * (k - 1) as real + l == l * k as real;
    }
  }

  // ------------------------------------------------------------ idempotence

  lemma DistTriangle(ring: bool, n: nat, i: nat, j: nat, k: nat)
    requires i < n && j < n && k < n
    ensures Dist(ring, n, i, k) <= Dist(ring, n, i, j) + Dist(ring, n, j, k)
  {
  }

  lemma CostTriangle(g: Box, lxy: real, lt: real, a: Cell, b: Cell, c: Cell)
    requires g.Has(a) && g.Has(b) && g.Has(c) && lxy >= 0.0 && lt >= 0.0
    ensures Cost(g, lxy, lt, a, c) <= Cost(g, lxy, lt, a, b) + Cost(g, lxy, lt, b, c)
  {
    DistTriangle(false, g.nx, a.x, b.x, c.x);
    DistTriangle(false, g.ny, a.y, b.y, c.y);
    DistTriangle(true, g.nt, a.t, b.t, c.t);
    var ab := Dist(false, g.nx, a.x, b.x) + Dist(false, g.ny, a.y, b.y);
    var bc := Dist(false, g.nx, b.x, c.x) + Dist(false, g.ny, b.y, c.y);
    TimesMonotone(lxy, Dist(false, g.nx, a.x, c.x) + Dist(false, g.ny, a.y, c.y), ab + bc);
    TimesAdd(lxy, ab, bc);
    TimesMonotone(lt, Dist(true, g.nt, a.t, c.t), Dist(true, g.nt, a.t, b.t) + Dist(true, g.nt, b.t, c.t));
    TimesAdd(lt, Dist(true, g.nt, a.t, b.t), Dist(true, g.nt, b.t, c.t));
  }

  // Eroding an erosion changes nothing.
  lemma ErosionIdempotent(g: Box, lxy: real, lt: real, f: Field, e: Field, r: Field)
    requires lxy >= 0.0 && lt >= 0.0 && Erosion(g, lxy, lt, f, e) && Erosion(g, lxy, lt, e, r)
    ensures r == e
  {
    hide ExactAt;
    forall c | g.Has(c)
      ensures r[c] == e[c]
    {
      ErodedTwice(g, lxy, lt, f, e, r, c);
    }
  }

  lemma ExactBound(g: Box, lxy: real, lt: real, f: Field, v: Ext, c: Cell, d: Cell)
    requires g.Has(c) && g.Has(d) && Whole(g, f) && ExactAt(g, lxy, lt, f, v, c, false)
    ensures Leq(v, Plus(f[d], Cost(g, lxy, lt, c, d)))
  {
    hide Cost;
  }

  lemma ExactSource(g: Box, lxy: real, lt: real, f: Field, v: Ext, c: Cell) returns (d: Cell)
    requires g.Has(c) && Whole(g, f) && ExactAt(g, lxy, lt, f, v, c, false) && v.Fin?
    ensures g.Has(d) && Leq(Plus(f[d], Cost(g, lxy, lt, c, d)), v)
  {
    hide Cost;
    d :| g.Has(d) && Reach(g, lxy, lt, f, c, d, v);
  }

  lemma ErodedTwice(g: Box, lxy: real, lt: real, f: Field, e: Field, r: Field, c: Cell)
    requires lxy >= 0.0 && lt >= 0.0 && Whole(g, f) && Whole(g, e) && Whole(g, r) && g.Has(c)
    requires ExactAt(g, lxy, lt, f, e[c], c, false) && ExactAt(g, lxy, lt, e, r[c], c, false)
    requires forall d :: g.Has(d) ==> ExactAt(g, lxy, lt, f, e[d], d, false)
    ensures r[c] == e[c]
  {
    hide ExactAt, Cost, Leq, Plus, Box.Has;
    CostNone(g, lxy, lt, c);
    ExactBound(g, lxy, lt, e, r[c], c, c);
    PlusNone(r[c], e[c]);
    if r[c].Fin? {
      var d := ExactSource(g, lxy, lt, e, r[c], c);
      var cd := Cost(g, lxy, lt, c, d);
      SourceFinite(e[d], cd, r[c]);
      var b := ExactSource(g, lxy, lt, f, e[d], d);
      var db := Cost(g, lxy, lt, d, b);
      CostTriangle(g, lxy, lt, c, d, b);
      PlusGeq(r[c], e[d], f[b], cd, db);
      ExactBound(g, lxy, lt, f, e[c], c, b);
      LeqBack(e[c], f[b], r[c], Cost(g, lxy, lt, c, b), cd + db);
    }
    LeqBoth(r[c], e[c]);
  }

  lemma CostNone(g: Box, lxy: real, lt: real, c: Cell)
    requires g.Has(c)
    ensures Cost(g, lxy, lt, c, c) == 0.0
  {
    hide Times;
    TimesZero(lt);
    TimesZero(lxy);
  }

  lemma PlusNone(a: Ext, b: Ext)
    requires Leq(a, Plus(b, 0.0))
    ensures Leq(a, b)
  {
  }

  lemma SourceFinite(a: Ext, x: real, b: Ext)
    requires Leq(Plus(a, x), b) && b.Fin?
    ensures a.Fin?
  {
  }

  lemma LeqBack(a: Ext, b: Ext, c: Ext, x: real, y: real)
    requires Leq(a, Plus(b, x)) && x <= y && Leq(Plus(b, y), c)
    ensures Leq(a, c)
  {
  }

  lemma LeqBoth(a: Ext, b: Ext)
    ensures Leq(a, b) && (a.Fin? ==> Leq(b, a)) ==> a == b
  {
  }
}
