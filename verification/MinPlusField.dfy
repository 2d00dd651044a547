// The relaxation of a whole (theta, y, x) field in a flat array, axis by axis,
// and its meaning: the exact erosion under the sum of the axis distances.
module MinPlusField {
  import opened Basics
  import opened MinPlus

  datatype Cell = Cell(x: int, y: int, t: int)

  datatype Axis = X | Y | T

  type Field = map<Cell, Ext>

  function Put(a: Axis, c: Cell, k: int): Cell {
    match a case X => c.(x := k) case Y => c.(y := k) case T => c.(t := k)
  }

  function Coord(a: Axis, c: Cell): int {
    match a case X => c.x case Y => c.y case T => c.t
  }

  datatype Box = Box(nx: nat, ny: nat, nt: nat) {
    predicate Has(c: Cell) { 0 <= c.x < nx && 0 <= c.y < ny && 0 <= c.t < nt }

    function Len(a: Axis): nat { match a case X => nx case Y => ny case T => nt }

    function Size(): nat { nt * ny * nx }

    // The flat index, theta plane by theta plane.
    function Idx(c: Cell): int { (c.t * ny + c.y) * nx + c.x }

    lemma IdxRange(c: Cell)
      requires Has(c)
      ensures 0 <= Idx(c) < Size()
    {
      RowBelow(c.t, nt, ny, c.y);
      RowBelow(c.t * ny + c.y, nt * ny, nx, c.x);
    }

    lemma IdxUnique(c: Cell, d: Cell)
      requires Has(c) && Has(d) && Idx(c) == Idx(d)
      ensures c == d
    {
      RowUnique(nx, c.t * ny + c.y, c.x, d.t * ny + d.y, d.x);
      RowUnique(ny, c.t, c.y, d.t, d.y);
    }

    ghost function View(a: seq<Ext>): (f: Field)
      requires |a| == Size()
      ensures Whole(this, f)
    {
      map x, y, t | 0 <= x < nx && 0 <= y < ny && 0 <= t < nt ::
        Cell(x, y, t) := (IdxRange(Cell(x, y, t)); a[Idx(Cell(x, y, t))])
    }

    lemma ViewAt(a: seq<Ext>, c: Cell)
      requires |a| == Size() && Has(c)
      ensures 0 <= Idx(c) < |a| && View(a)[c] == a[Idx(c)]
    {
      IdxRange(c);
      assert c == Cell(c.x, c.y, c.t);
    }

    lemma ViewWrite(a: seq<Ext>, c: Cell, v: Ext)
      requires |a| == Size() && Has(c)
      ensures 0 <= Idx(c) < |a| && View(a[Idx(c) := v]) == View(a)[c := v]
    {
      ViewAt(a, c);
      var b := a[Idx(c) := v];
      forall d | Has(d)
        ensures View(b)[d] == View(a)[c := v][d]
      {
        ViewAt(a, d);
        ViewAt(b, d);
        if Idx(d) == Idx(c) {
          IdxUnique(c, d);
        }
      }
    }
  }

  ghost predicate Whole(g: Box, f: Field) { forall d :: d in f <==> g.Has(d) }

  // The values of the line through c along an axis.
  ghost function Line(g: Box, f: Field, a: Axis, c: Cell): (s: seq<Ext>)
    requires g.Has(c) && Whole(g, f)
    ensures |s| == g.Len(a) && forall k :: 0 <= k < g.Len(a) ==> g.Has(Put(a, c, k)) && s[k] == f[Put(a, c, k)]
  {
    assert forall k :: 0 <= k < g.Len(a) ==> g.Has(Put(a, c, k));
    seq(g.Len(a), k requires 0 <= k < g.Len(a) => f[Put(a, c, k)])
  }

  // f and e differ at most on the line through c.
  ghost predicate OnlyLine(g: Box, f: Field, e: Field, a: Axis, c: Cell) {
    && Whole(g, f) && Whole(g, e)
    && forall d :: g.Has(d) && Put(a, d, 0) != Put(a, c, 0) ==> f[d] == e[d]
  }

  lemma LineWrite(g: Box, f: Field, a: Axis, c: Cell, i: nat, v: Ext)
    requires g.Has(c) && Whole(g, f) && i < g.Len(a)
    ensures g.Has(Put(a, c, i)) && Whole(g, f[Put(a, c, i) := v])
    ensures Line(g, f[Put(a, c, i) := v], a, c) == Line(g, f, a, c)[i := v]
    ensures OnlyLine(g, f[Put(a, c, i) := v], f, a, c)
  {
    var to := Put(a, c, i);
    assert Line(g, f, a, c)[i] == f[to];
    assert forall j :: 0 <= j < g.Len(a) && j != i ==> Put(a, c, j) != to;
    assert Put(a, to, 0) == Put(a, c, 0);
  }

  // Relax one cell of a line from a neighbour on it.
  method RelaxCell(delta: array<Ext>, g: Box, a: Axis, c: Cell, i: nat, k: nat, l: real)
    requires delta.Length == g.Size() && g.Has(c) && i < g.Len(a) && k < g.Len(a)
    modifies delta
    ensures Line(g, g.View(delta[..]), a, c) == Relax(Line(g, old(g.View(delta[..])), a, c), i, k, l)
    ensures OnlyLine(g, g.View(delta[..]), old(g.View(delta[..])), a, c)
  {
    ghost var d0 := delta[..];
    ghost var f := g.View(d0);
    var from, to := Put(a, c, k), Put(a, c, i);
    ghost var s := Line(g, f, a, c);
    assert g.Has(from) && s[k] == f[from] && g.Has(to) && s[i] == f[to];
    g.ViewAt(d0, from);
    g.ViewAt(d0, to);
    hide Put, Box.Idx, Box.View, Line, Box.Has;
    var p := Plus(delta[g.Idx(from)], l);
    if Less(p, delta[g.Idx(to)]) {
      g.ViewWrite(d0, to, p);
      LineWrite(g, f, a, c, i, p);
      delta[g.Idx(to)] := p;
      assert delta[..] == d0[g.Idx(to) := p];
    }
  }

  // How far a pass goes: once along a position line, twice round the theta ring.
  function Span(ring: bool, n: nat): nat { if ring then 2 * n else n }

  method Mod(k: nat, n: nat) returns (i: nat)
    requires k < 2 * n
    ensures i == Pos(n, k)
  {
    PosIsMod(n, k);
    i := k % n;
  }

  // Relax the position after `to` from `to`.
  method PassCell(delta: array<Ext>, g: Box, a: Axis, c: Cell, l: real, ring: bool,
                  ghost inn: seq<Ext>, ghost base: seq<Ext>, up: bool, ghost from: int, to: int, ghost f0: Field)
    requires delta.Length == g.Size() && g.Has(c) && l >= 0.0
    requires OnlyLine(g, g.View(delta[..]), f0, a, c)
    requires PassState(ring, l, inn, base, Line(g, g.View(delta[..]), a, c), up, from, to)
    requires 0 <= to < Span(ring, g.Len(a)) && 0 <= Ahead(up, to, 1) < Span(ring, g.Len(a))
    requires if up then from <= to else to <= from < 2 * g.Len(a)
    modifies delta
    ensures OnlyLine(g, g.View(delta[..]), f0, a, c)
    ensures PassState(ring, l, inn, base, Line(g, g.View(delta[..]), a, c), up, from, Ahead(up, to, 1))
  {
    hide Line, Box.View, Box.Has, OnlyLine, PassState, Relax;
    ghost var f := g.View(delta[..]);
    var n := g.Len(a);
    var i := Mod(if up then to + 1 else to - 1, n);
    var k := Mod(to, n);
    PassStep(ring, l, inn, base, Line(g, f, a, c), up, from, to);
    RelaxCell(delta, g, a, c, i, k, l);
    OnlyLineTransitive(g, f0, f, g.View(delta[..]), a, c);
  }

  method PassUp(delta: array<Ext>, g: Box, a: Axis, c: Cell, l: real, ring: bool, ghost inn: seq<Ext>)
    requires delta.Length == g.Size() && g.Has(c) && l >= 0.0 && inn == Line(g, g.View(delta[..]), a, c)
    modifies delta
    ensures OnlyLine(g, g.View(delta[..]), old(g.View(delta[..])), a, c)
    ensures PassState(ring, l, inn, inn, Line(g, g.View(delta[..]), a, c), true, 0, Span(ring, g.Len(a)) - 1)
  {
    hide Line, Box.View, Box.Has, OnlyLine, PassState, Relax, Whole;
    ghost var f0 := g.View(delta[..]);
    LineAlive(g, a, c);
    PassBegins(ring, l, inn);
    OnlyLineSelf(g, f0, a, c);
    var n := g.Len(a);
    for k := 1 to Span(ring, n)
      invariant OnlyLine(g, g.View(delta[..]), f0, a, c)
      invariant PassState(ring, l, inn, inn, Line(g, g.View(delta[..]), a, c), true, 0, k - 1)
    {
      PassCell(delta, g, a, c, l, ring, inn, inn, true, 0, k - 1, f0);
    }
  }

  method PassDown(delta: array<Ext>, g: Box, a: Axis, c: Cell, l: real, ring: bool, ghost inn: seq<Ext>, ghost mid: seq<Ext>)
    requires delta.Length == g.Size() && g.Has(c) && l >= 0.0 && mid == Line(g, g.View(delta[..]), a, c)
    requires var last := Span(ring, g.Len(a)) - 1; PassState(ring, l, inn, mid, mid, false, last, last)
    modifies delta
    ensures OnlyLine(g, g.View(delta[..]), old(g.View(delta[..])), a, c)
    ensures PassState(ring, l, inn, mid, Line(g, g.View(delta[..]), a, c), false, Span(ring, g.Len(a)) - 1, 0)
  {
    hide Line, Box.View, Box.Has, OnlyLine, PassState, Relax, Whole;
    ghost var f0 := g.View(delta[..]);
    LineAlive(g, a, c);
    OnlyLineSelf(g, f0, a, c);
    var n := g.Len(a);
    var last := Span(ring, n) - 1;
    for k := last downto 0
      invariant OnlyLine(g, g.View(delta[..]), f0, a, c)
      invariant PassState(ring, l, inn, mid, Line(g, g.View(delta[..]), a, c), false, last, k)
    {
      PassCell(delta, g, a, c, l, ring, inn, mid, false, last, k + 1, f0);
    }
  }

  // A pass up and a pass down: the exact erosion of the line or ring.
  method RelaxLine(delta: array<Ext>, g: Box, a: Axis, c: Cell, l: real, ring: bool)
    requires delta.Length == g.Size() && g.Has(c) && l >= 0.0
    modifies delta
    ensures Eroded(ring, l, Line(g, old(g.View(delta[..])), a, c), Line(g, g.View(delta[..]), a, c))
    ensures OnlyLine(g, g.View(delta[..]), old(g.View(delta[..])), a, c)
  {
    hide Line, Box.View, Box.Has, OnlyLine, PassState, Eroded, Whole;
    LineAlive(g, a, c);
    ghost var f0 := g.View(delta[..]);
    ghost var inn := Line(g, f0, a, c);
    PassUp(delta, g, a, c, l, ring, inn);
    ghost var f1 := g.View(delta[..]);
    ghost var mid := Line(g, f1, a, c);
    PassTurns(ring, l, inn, mid, Span(ring, g.Len(a)) - 1);
    PassDown(delta, g, a, c, l, ring, inn, mid);
    OnlyLineTransitive(g, f0, f1, g.View(delta[..]), a, c);
    PassEnds(ring, l, inn, mid, Line(g, g.View(delta[..]), a, c));
  }

  // What holds after each relaxation of a pass whose walks start from `base`.
  ghost predicate PassState(ring: bool, l: real, inn: seq<Ext>, base: seq<Ext>, s: seq<Ext>, up: bool, from: int, to: int) {
    && |s| == |inn| == |base|
    && AllSourced(ring, l, inn, s) && Lowered(s, base) && Lowered(base, inn) && Walked(l, base, s, up, from, to)
  }

  lemma PassStep(ring: bool, l: real, inn: seq<Ext>, base: seq<Ext>, s: seq<Ext>, up: bool, from: int, to: int)
    requires l >= 0.0 && PassState(ring, l, inn, base, s, up, from, to)
    requires Within(|s|, up, from, to, to) && 0 <= Ahead(up, to, 1) < 2 * |s|
    requires Adjacent(ring, |s|, Pos(|s|, Ahead(up, to, 1)), Pos(|s|, to))
    ensures PassState(ring, l, inn, base, Relax(s, Pos(|s|, Ahead(up, to, 1)), Pos(|s|, to), l), up, from, Ahead(up, to, 1))
  {
    hide Walked, AllSourced, Lowered, Relax;
    WalkStep(l, base, s, up, from, to);
    RelaxSourced(ring, l, inn, s, Pos(|s|, Ahead(up, to, 1)), Pos(|s|, to));
  }

  lemma PassBegins(ring: bool, l: real, inn: seq<Ext>)
    requires |inn| > 0
    ensures PassState(ring, l, inn, inn, inn, true, 0, 0)
  {
    SelfSourced(ring, l, inn);
    WalkStarts(l, inn, true, 0);
    LoweredSelf(inn);
  }

  // The end of the pass up is the start of the pass down.
  lemma PassTurns(ring: bool, l: real, inn: seq<Ext>, mid: seq<Ext>, last: int)
    requires PassState(ring, l, inn, inn, mid, true, 0, last) && 0 <= last < 2 * |inn|
    ensures PassState(ring, l, inn, mid, mid, false, last, last)
    ensures Walked(l, inn, mid, true, 0, last)
  {
    WalkStarts(l, mid, false, last);
    LoweredSelf(mid);
  }

  lemma PassEnds(ring: bool, l: real, inn: seq<Ext>, mid: seq<Ext>, s: seq<Ext>)
    requires |inn| > 0 && Walked(l, inn, mid, true, 0, Span(ring, |inn|) - 1)
    requires PassState(ring, l, inn, mid, s, false, Span(ring, |inn|) - 1, 0)
    ensures Eroded(ring, l, inn, s)
  {
    hide Walked, AllSourced, Lowered, Eroded;
    if ring {
      RingDone(l, inn, mid, s);
    } else {
      LineDone(l, inn, mid, s);
    }
  }

  lemma LoweredSelf(s: seq<Ext>)
    ensures Lowered(s, s)
  {
  }

  lemma LineAlive(g: Box, a: Axis, c: Cell)
    requires g.Has(c)
    ensures g.Len(a) > 0
  {
  }

  lemma OnlyLineSelf(g: Box, f: Field, a: Axis, c: Cell)
    requires Whole(g, f)
    ensures OnlyLine(g, f, f, a, c)
  {
  }

  lemma OnlyLineTransitive(g: Box, f0: Field, f: Field, e: Field, a: Axis, c: Cell)
    requires OnlyLine(g, f, f0, a, c) && OnlyLine(g, e, f, a, c)
    ensures OnlyLine(g, e, f0, a, c)
  {
  }
}
