// Downsampling an occupancy grid by blocks, conservatively (any obstacle blocks)
// or optimistically (any free cell frees).
module Pooling {
  import opened Basics

  // data[y * w + x]; 0 is free, anything else is not.
  datatype Grid = Grid(w: nat, h: nat, res: real, data: seq<int>) {
    predicate Valid() { |data| == w * h }

    function At(x: nat, y: nat): int
      requires Valid() && x < w && y < h
    {
      RowBelow(y, h, w, x);
      data[y * w + x]
    }

    predicate Free(x: nat, y: nat)
      requires Valid() && x < w && y < h
    {
      At(x, y) == 0
    }
  }

  function CeilDiv(n: nat, s: nat): nat
    requires s > 0
  {
    (n + s - 1) / s
  }

  // Cell (x, y) of g is in block (ox, oy) of size s and shows what is looked for.
  ghost predicate Shows(g: Grid, s: nat, free: bool, ox: nat, oy: nat, x: nat, y: nat)
    requires g.Valid() && s > 0
  {
    x < g.w && y < g.h && x / s == ox && y / s == oy && g.Free(x, y) == free
  }

  // Some cell of the block (ox, oy) is free (or is not).
  ghost predicate BlockHas(g: Grid, s: nat, free: bool, ox: nat, oy: nat)
    requires g.Valid() && s > 0
  {
    exists x: nat, y: nat :: Shows(g, s, free, ox, oy, x, y)
  }

  // r is g pooled by s.
  ghost predicate Pooled(g: Grid, s: nat, optimistic: bool, r: Grid)
    requires g.Valid() && s > 0
  {
    && r.Valid() && r.w == CeilDiv(g.w, s) && r.h == CeilDiv(g.h, s) && r.res == g.res * s as real
    && forall ox: nat, oy: nat :: ox < r.w && oy < r.h ==>
         r.At(ox, oy) == PooledAt(g, s, optimistic, ox, oy)
  }

  // ------------------------------------------------------------ the loops

  lemma DivBlock(x: nat, s: nat, o: nat)
    requires s > 0
    ensures x / s == o <==> o * s <= x < o * s + s
  {
    assert x == (x / s) * s + x % s;
    if x / s < o { Grow(x / s + 1, o, s); }
    if x / s > o { Grow(o + 1, x / s, s); }
  }

  // The cells of row y from x0 up to x1, as far as there are any, are not what is looked for.
  ghost predicate RowLacks(g: Grid, free: bool, x0: nat, x1: nat, y: nat)
    requires g.Valid()
  {
    y < g.h ==> forall x: nat :: x0 <= x < x1 && x < g.w ==> g.Free(x, y) != free
  }

  // Scan one row of a block.
  method RowHit(g: Grid, s: nat, optimistic: bool, ox: nat, iy: nat) returns (hit: bool)
    requires g.Valid() && s > 0 && iy < g.h
    ensures hit <==> !RowLacks(g, optimistic, ox * s, ox * s + s, iy)
  {
    hit := false;
    for dx := 0 to s
      invariant RowLacks(g, optimistic, ox * s, ox * s + dx, iy)
    {
      var ix := ox * s + dx;
      if ix >= g.w { return; }
      RowBelow(iy, g.h, g.w, ix);
      var free := g.data[iy * g.w + ix] == 0;
      assert free == g.Free(ix, iy);
      if free == optimistic { return true; }
    }
  }

  // Scan a block.
  method BlockHit(g: Grid, s: nat, optimistic: bool, ox: nat, oy: nat) returns (hit: bool)
    requires g.Valid() && s > 0
    ensures hit == BlockHas(g, s, optimistic, ox, oy)
  {
    hit := false;
    var y0, x0 := oy * s, ox * s;
    ghost var x1 := x0 + s;
    hide BlockHas, RowLacks;
    for dy := 0 to s
      invariant forall y: nat :: y0 <= y < y0 + dy && y < g.h ==> RowLacks(g, optimistic, x0, x1, y)
    {
      var iy := y0 + dy;
      if iy >= g.h { break; }
      var rowHit := RowHit(g, s, optimistic, ox, iy);
      if rowHit {
        RowHits(g, s, optimistic, ox, oy, iy);
        return true;
      }
    }
    RowsLack(g, s, optimistic, ox, oy, x0, x1);
  }

  lemma RowHits(g: Grid, s: nat, free: bool, ox: nat, oy: nat, y: nat)
    requires g.Valid() && s > 0 && y < g.h && oy * s <= y < oy * s + s && !RowLacks(g, free, ox * s, ox * s + s, y)
    ensures BlockHas(g, s, free, ox, oy)
  {
    var x: nat :| ox * s <= x < ox * s + s && x < g.w && g.Free(x, y) == free;
    DivBlock(x, s, ox);
    DivBlock(y, s, oy);
    assert Shows(g, s, free, ox, oy, x, y);
  }

  lemma RowsLack(g: Grid, s: nat, free: bool, ox: nat, oy: nat, x0: nat, x1: nat)
    requires g.Valid() && s > 0 && x0 == ox * s && x1 == x0 + s
    requires forall y: nat :: oy * s <= y < oy * s + s && y < g.h ==> RowLacks(g, free, x0, x1, y)
    ensures !BlockHas(g, s, free, ox, oy)
  {
    forall x: nat, y: nat | x < g.w && y < g.h && x / s == ox && y / s == oy
      ensures g.Free(x, y) != free
    {
      DivBlock(x, s, ox);
      DivBlock(y, s, oy);
      assert RowLacks(g, free, x0, x1, y);
    }
  }

  // The value of an output cell.
  ghost function PooledAt(g: Grid, s: nat, optimistic: bool, ox: nat, oy: nat): int
    requires g.Valid() && s > 0
  {
    if BlockHas(g, s, optimistic, ox, oy) == optimistic then 0 else 100
  }

  // The first n output cells, row by row.
  ghost predicate FilledTo(g: Grid, s: nat, optimistic: bool, d: seq<int>, ow: nat, n: nat)
    requires g.Valid() && s > 0 && ow > 0
  {
    n <= |d| && forall k :: 0 <= k < n ==> d[k] == PooledAt(g, s, optimistic, k % ow, k / ow)
  }

  method FillRow(g: Grid, s: nat, optimistic: bool, data: array<int>, ow: nat, oy: nat)
    requires g.Valid() && s > 0 && ow > 0 && oy * ow + ow <= data.Length
    requires FilledTo(g, s, optimistic, data[..], ow, oy * ow)
    modifies data
    ensures FilledTo(g, s, optimistic, data[..], ow, oy * ow + ow)
  {
    hide BlockHas;
    for ox := 0 to ow
      invariant FilledTo(g, s, optimistic, data[..], ow, oy * ow + ox)
    {
      DivMod(oy, ow, ox);
      var hit := BlockHit(g, s, optimistic, ox, oy);
      data[oy * ow + ox] := if hit == optimistic then 0 else 100;
    }
  }

  // The result for a scale: the grid itself for 1 or less, else the pooled grid.
  ghost predicate IsDownsample(g: Grid, scale: int, optimistic: bool, r: Grid)
    requires g.Valid()
  {
    if scale <= 1 then r == g else Pooled(g, scale, optimistic, r)
  }

  method Downsample(g: Grid, scale: int, optimistic: bool) returns (r: Grid)
    requires g.Valid()
    ensures IsDownsample(g, scale, optimistic, r)
  {
    if scale <= 1 { return g; }
    var s: nat := scale;
    var ow, oh := CeilDiv(g.w, s), CeilDiv(g.h, s);
    var data := new int[ow * oh](i => 0);
    hide PooledAt;
    assert ow > 0 ==> FilledTo(g, s, optimistic, data[..], ow, 0);
    hide FilledTo, Grid.At;
    if ow > 0 {
      for oy := 0 to oh
        invariant FilledTo(g, s, optimistic, data[..], ow, oy * ow)
      {
        RowFits(oy, oh, ow);
        FillRow(g, s, optimistic, data, ow, oy);
      }
    }
    r := Grid(ow, oh, g.res * s as real, data[..]);
    FilledAll(g, s, optimistic, r);
  }

  lemma RowFits(oy: nat, oh: nat, ow: nat)
    requires oy < oh
    ensures oy * ow + ow == (oy + 1) * ow <= ow * oh
  {
    Grow(oy + 1, oh, ow);
  }

  lemma FilledAll(g: Grid, s: nat, optimistic: bool, r: Grid)
    requires g.Valid() && s > 0 && r.Valid() && (r.w > 0 ==> FilledTo(g, s, optimistic, r.data, r.w, r.h * r.w))
    ensures forall x: nat, y: nat :: x < r.w && y < r.h ==> r.At(x, y) == PooledAt(g, s, optimistic, x, y)
  {
    forall x: nat, y: nat | x < r.w && y < r.h
      ensures r.At(x, y) == PooledAt(g, s, optimistic, x, y)
    {
      RowBelow(y, r.h, r.w, x);
      DivMod(y, r.w, x);
    }
  }

  // ------------------------------------------------------------ composition

  // Dividing up by s: the least k with k*s >= n.
  lemma CeilMeaning(n: nat, s: nat, k: nat)
    requires s > 0
    ensures k == CeilDiv(n, s) <==> k * s >= n && (k == 0 || (k - 1) * s < n)
  {
    var c := CeilDiv(n, s);
    var t := n + s - 1;
    assert t == c * s + t % s;
    assert c * s >= n && (c == 0 || (c - 1) * s < n) by {
      assert (c - 1) * s == c * s - s;
    }
    if k < c { Grow(k, c - 1, s); }
    if k > c { Grow(c, k - 1, s); }
  }

  lemma CeilCompose(n: nat, a: nat, b: nat)
    requires a > 0 && b > 0
    ensures a * b > 0 && CeilDiv(CeilDiv(n, a), b) == CeilDiv(n, a * b)
  {
    Grow(1, b, a);
    var m := CeilDiv(n, a);
    var k := CeilDiv(m, b);
    CeilMeaning(n, a, m);
    CeilMeaning(m, b, k);
    Regroup(k, a, b);
    Grow(m, k * b, a);
    if k > 0 {
      Regroup(k - 1, a, b);
      Grow((k - 1) * b, m - 1, a);
    }
    hide CeilDiv;
    CeilMeaning(n, a * b, k);
  }

  lemma Regroup(k: int, a: int, b: int)
    ensures k * (a * b) == (k * b) * a
  {
  }

  lemma DivCompose(x: nat, a: nat, b: nat)
    requires a > 0 && b > 0
    ensures a * b > 0 && (x / a) / b == x / (a * b)
  {
    Grow(1, b, a);
    var (q, o) := (x / a, x / a / b);
    DivBlock(x, a, q);
    DivBlock(q, b, o);
    Regroup(o, a, b);
    Grow(o * b, q, a);
    Grow(q + 1, o * b + b, a);
    assert (o * b + b) * a == (o * b) * a + a * b;
    assert (q + 1) * a == q * a + a;
    DivBlock(x, a * b, o);
  }

  lemma InCeil(x: nat, n: nat, s: nat)
    requires s > 0
    ensures x / s < CeilDiv(n, s) <==> (x / s) * s < n
    ensures x < n ==> x / s < CeilDiv(n, s)
  {
    CeilMeaning(n, s, CeilDiv(n, s));
    DivBlock(x, s, x / s);
    var (q, c) := (x / s, CeilDiv(n, s));
    if q < c { Grow(q, c - 1, s); } else { Grow(c, q, s); }
  }

  // A pooled cell shows what is looked for exactly when its block has it.
  lemma PooledShows(g: Grid, s: nat, optimistic: bool, m: Grid, x: nat, y: nat)
    requires g.Valid() && s > 0 && Pooled(g, s, optimistic, m) && x < m.w && y < m.h
    ensures m.Free(x, y) == optimistic <==> BlockHas(g, s, optimistic, x, y)
  {
    hide BlockHas;
    assert m.At(x, y) == PooledAt(g, s, optimistic, x, y);
  }

  lemma BlocksCompose(g: Grid, a: nat, b: nat, optimistic: bool, m: Grid, ox: nat, oy: nat)
    requires g.Valid() && a > 0 && b > 0 && a * b > 0 && Pooled(g, a, optimistic, m)
    ensures BlockHas(m, b, optimistic, ox, oy) <==> BlockHas(g, a * b, optimistic, ox, oy)
  {
    if BlockHas(m, b, optimistic, ox, oy) {
      var mx: nat, my: nat :| Shows(m, b, optimistic, ox, oy, mx, my);
      Refine(g, a, b, optimistic, m, ox, oy, mx, my);
    }
    if BlockHas(g, a * b, optimistic, ox, oy) {
      var x: nat, y: nat :| Shows(g, a * b, optimistic, ox, oy, x, y);
      Coarsen(g, a, b, optimistic, m, ox, oy, x, y);
    }
  }

  lemma Refine(g: Grid, a: nat, b: nat, free: bool, m: Grid, ox: nat, oy: nat, mx: nat, my: nat)
    requires g.Valid() && a > 0 && b > 0 && a * b > 0 && Pooled(g, a, free, m) && Shows(m, b, free, ox, oy, mx, my)
    ensures BlockHas(g, a * b, free, ox, oy)
  {
    PooledShows(g, a, free, m, mx, my);
    var x: nat, y: nat :| Shows(g, a, free, mx, my, x, y);
    DivCompose(x, a, b);
    DivCompose(y, a, b);
    hide Pooled;
    assert Shows(g, a * b, free, ox, oy, x, y);
  }

  lemma Coarsen(g: Grid, a: nat, b: nat, free: bool, m: Grid, ox: nat, oy: nat, x: nat, y: nat)
    requires g.Valid() && a > 0 && b > 0 && a * b > 0 && Pooled(g, a, free, m) && Shows(g, a * b, free, ox, oy, x, y)
    ensures BlockHas(m, b, free, ox, oy)
  {
    DivCompose(x, a, b);
    DivCompose(y, a, b);
    InMiddle(g, a, free, m, x, y);
    assert Shows(g, a, free, x / a, y / a, x, y);
    PooledShows(g, a, free, m, x / a, y / a);
    hide Pooled;
    assert Shows(m, b, free, ox, oy, x / a, y / a);
  }

  lemma InMiddle(g: Grid, a: nat, optimistic: bool, m: Grid, x: nat, y: nat)
    requires g.Valid() && a > 0 && Pooled(g, a, optimistic, m) && x < g.w && y < g.h
    ensures x / a < m.w && y / a < m.h && m.Valid()
  {
    InCeil(x, g.w, a);
    InCeil(y, g.h, a);
  }

  lemma PooledShape(g: Grid, a: nat, b: nat, optimistic: bool, m: Grid, r: Grid)
    requires g.Valid() && a > 0 && b > 0 && Pooled(g, a, optimistic, m) && Pooled(m, b, optimistic, r)
    ensures m.Valid() && r.Valid() && r.w == CeilDiv(CeilDiv(g.w, a), b) && r.h == CeilDiv(CeilDiv(g.h, a), b)
    ensures r.res == g.res * (a * b) as real
    ensures forall ox: nat, oy: nat :: ox < r.w && oy < r.h ==> r.At(ox, oy) == PooledAt(m, b, optimistic, ox, oy)
  {
    hide BlockHas, CeilDiv, Grid.At, PooledAt;
    ScaleTwice(g.res, a, b);
  }

  lemma PooledIs(g: Grid, s: nat, optimistic: bool, r: Grid)
    requires g.Valid() && s > 0 && r.Valid() && r.w == CeilDiv(g.w, s) && r.h == CeilDiv(g.h, s) && r.res == g.res * s as real
    requires forall ox: nat, oy: nat :: ox < r.w && oy < r.h ==> r.At(ox, oy) == PooledAt(g, s, optimistic, ox, oy)
    ensures Pooled(g, s, optimistic, r)
  {
  }

  lemma PooledCompose(g: Grid, a: nat, b: nat, optimistic: bool, m: Grid, r: Grid)
    requires g.Valid() && a > 0 && b > 0 && Pooled(g, a, optimistic, m) && Pooled(m, b, optimistic, r)
    ensures a * b > 0 && Pooled(g, a * b, optimistic, r)
  {
    hide BlockHas, CeilDiv, Grid.At;
    CeilCompose(g.w, a, b);
    CeilCompose(g.h, a, b);
    PooledShape(g, a, b, optimistic, m, r);
    hide Pooled;
    forall ox: nat, oy: nat | ox < r.w && oy < r.h
      ensures r.At(ox, oy) == PooledAt(g, a * b, optimistic, ox, oy)
    {
      BlocksCompose(g, a, b, optimistic, m, ox, oy);
      assert r.At(ox, oy) == PooledAt(m, b, optimistic, ox, oy);
    }
    PooledIs(g, a * b, optimistic, r);
  }

  lemma ScaleTwice(res: real, a: nat, b: nat)
    ensures (res * a as real) * b as real == res * (a * b) as real
  {
    assert (a * b) as real == a as real * b as real;
  }

  lemma PooledUnique(g: Grid, s: nat, optimistic: bool, r: Grid, q: Grid)
    requires g.Valid() && s > 0 && Pooled(g, s, optimistic, r) && Pooled(g, s, optimistic, q)
    ensures r == q
  {
    hide PooledAt;
    forall k | 0 <= k < |r.data|
      ensures r.data[k] == q.data[k]
    {
      DivRange(k, r.w, r.h);
      var (x, y) := (k % r.w, k / r.w);
      assert r.At(x, y) == PooledAt(g, s, optimistic, x, y) && q.At(x, y) == PooledAt(g, s, optimistic, x, y);
    }
  }

  // Downsampling by a and then by b is downsampling by a*b: the same size, the
  // same cells and the same resolution, for ragged edges too.
  lemma DownsampleComposes(g: Grid, a: int, b: int, optimistic: bool, m: Grid, r: Grid, q: Grid)
    requires g.Valid() && a >= 1 && b >= 1
    requires IsDownsample(g, a, optimistic, m) && m.Valid() && IsDownsample(m, b, optimistic, r)
    requires IsDownsample(g, a * b, optimistic, q)
    ensures r == q
  {
    hide Pooled;
    if a >= 2 && b >= 2 {
      Grow(2, b, a);
      PooledCompose(g, a, b, optimistic, m, r);
      PooledUnique(g, a * b, optimistic, r, q);
    } else if a == 1 {
      assert a * b == b;
      if b >= 2 { PooledUnique(g, b, optimistic, r, q); }
    } else {
      assert b == 1 && a * b == a;
      PooledUnique(g, a, optimistic, r, q);
    }
  }

  // What is free when pooled conservatively is free when pooled optimistically.
  lemma ConservativeIsSafer(g: Grid, s: nat, c: Grid, o: Grid, x: nat, y: nat)
    requires g.Valid() && s > 0 && Pooled(g, s, false, c) && Pooled(g, s, true, o) && x < c.w && y < c.h
    ensures c.w == o.w && c.h == o.h
    ensures c.Free(x, y) ==> o.Free(x, y)
  {
    PooledShows(g, s, false, c, x, y);
    PooledShows(g, s, true, o, x, y);
    DivBlock(x * s, s, x);
    DivBlock(y * s, s, y);
    InCeil(x * s, g.w, s);
    InCeil(y * s, g.h, s);
    var free := g.Free(x * s, y * s);
    hide Pooled;
    assert Shows(g, s, free, x, y, x * s, y * s);
  }
}
