// From a grey-scale map to an occupancy grid, and back through the map writer.
module MapOccupancy {
  import opened Basics
  import opened Pooling
  import Pgm

  datatype Occupancy = Obstacle | Free | Unknown

  datatype Meta = Meta(occupiedThresh: real, freeThresh: real, negate: bool)

  // Image row 0 is the top; grid row 0 is the bottom.
  datatype PgmMap = PgmMap(w: nat, h: nat, pixels: seq<Pgm.Byte>, meta: Meta) {
    predicate Valid() { |pixels| == w * h }
  }

  function Classify(pixel: Pgm.Byte, m: Meta): Occupancy {
    var p := pixel as real;
    var occ := if m.negate then p / 255.0 else (255.0 - p) / 255.0;
    if occ >= m.occupiedThresh then Obstacle else if occ < m.freeThresh then Free else Unknown
  }

  predicate IsObstacle(pixel: Pgm.Byte, m: Meta, unknown: bool) {
    Classify(pixel, m) == Obstacle || (Classify(pixel, m) == Unknown && unknown)
  }

  // Unless negated, dark pixels are obstacles: a pixel is one when its darkness,
  // out of 255, is at least the occupied threshold, or above the free one while
  // unknown cells count. A negated map reads the inverted picture.
  lemma ObstacleWhen(pixel: Pgm.Byte, m: Meta, unknown: bool)
    ensures !m.negate ==> (IsObstacle(pixel, m, unknown) <==>
      (255 - pixel) as real >= 255.0 * m.occupiedThresh || (unknown && (255 - pixel) as real >= 255.0 * m.freeThresh))
    ensures m.negate ==> (IsObstacle(pixel, m, unknown) <==> IsObstacle(255 - pixel, m.(negate := false), unknown))
  {
    var p := pixel as real;
    Fraction(255.0 - p, m.occupiedThresh);
    Fraction(255.0 - p, m.freeThresh);
  }

  lemma Fraction(a: real, b: real)
    ensures a / 255.0 >= b <==> a >= 255.0 * b
  {
  }

  // Grid row y is image row h - 1 - y.
  function PixelAt(img: PgmMap, x: nat, y: nat): Pgm.Byte
    requires img.Valid() && x < img.w && y < img.h
  {
    RowBelow(img.h - 1 - y, img.h, img.w, x);
    img.pixels[(img.h - 1 - y) * img.w + x]
  }

  // g is the grid of the map at full resolution.
  ghost predicate IsBase(img: PgmMap, unknown: bool, g: Grid)
    requires img.Valid()
  {
    && g.Valid() && g.w == img.w && g.h == img.h
    && forall x: nat, y: nat :: x < g.w && y < g.h ==>
         g.At(x, y) == if IsObstacle(PixelAt(img, x, y), img.meta, unknown) then 100 else 0
  }

  ghost function Base(img: PgmMap, unknown: bool): (g: Grid)
    requires img.Valid()
    ensures IsBase(img, unknown, g)
  {
    var f := (k: nat) requires k < img.w * img.h =>
      (DivRange(k, img.w, img.h);
       if IsObstacle(PixelAt(img, k % img.w, k / img.w), img.meta, unknown) then 100 else 0);
    var g := Grid(img.w, img.h, 1.0, seq(img.w * img.h, f));
    BaseFacts(img, unknown, g);
    g
  }

  lemma BaseFacts(img: PgmMap, unknown: bool, g: Grid)
    requires img.Valid() && g.w == img.w && g.h == img.h && |g.data| == g.w * g.h
    requires forall k :: 0 <= k < |g.data| ==>
      (DivRange(k, img.w, img.h);
       g.data[k] == if IsObstacle(PixelAt(img, k % img.w, k / img.w), img.meta, unknown) then 100 else 0)
    ensures IsBase(img, unknown, g)
  {
    hide IsObstacle, PixelAt;
    forall x: nat, y: nat | x < g.w && y < g.h
      ensures g.At(x, y) == if IsObstacle(PixelAt(img, x, y), img.meta, unknown) then 100 else 0
    {
      RowBelow(y, g.h, g.w, x);
      DivMod(y, g.w, x);
    }
  }

  // ------------------------------------------------------------ the loops

  method MapRowHit(img: PgmMap, ghost g: Grid, scale: nat, unknown: bool, ox: nat, iy: nat) returns (hit: bool)
    requires img.Valid() && IsBase(img, unknown, g) && scale > 0 && iy < img.h
    ensures hit <==> !RowLacks(g, false, ox * scale, ox * scale + scale, iy)
  {
    hit := false;
    var row := img.h - 1 - iy;
    hide Classify;
    for dx := 0 to scale
      invariant RowLacks(g, false, ox * scale, ox * scale + dx, iy)
    {
      var ix := ox * scale + dx;
      if ix >= img.w { return; }
      RowBelow(row, img.h, img.w, ix);
      var pixel := img.pixels[row * img.w + ix];
      assert pixel == PixelAt(img, ix, iy);
      assert g.At(ix, iy) == if IsObstacle(pixel, img.meta, unknown) then 100 else 0;
      assert g.Free(ix, iy) <==> !IsObstacle(pixel, img.meta, unknown);
      if IsObstacle(pixel, img.meta, unknown) { return true; }
    }
  }

  method MapBlockHit(img: PgmMap, ghost g: Grid, scale: nat, unknown: bool, ox: nat, oy: nat) returns (hit: bool)
    requires img.Valid() && IsBase(img, unknown, g) && scale > 0
    ensures hit == BlockHas(g, scale, false, ox, oy)
  {
    hit := false;
    var y0, x0 := oy * scale, ox * scale;
    ghost var x1 := x0 + scale;
    hide BlockHas, RowLacks;
    for dy := 0 to scale
      invariant forall y: nat :: y0 <= y < y0 + dy && y < g.h ==> RowLacks(g, false, x0, x1, y)
    {
      var iy := y0 + dy;
      if iy >= img.h { break; }
      var rowHit := MapRowHit(img, g, scale, unknown, ox, iy);
      if rowHit {
        RowHits(g, scale, false, ox, oy, iy);
        return true;
      }
    }
    RowsLack(g, scale, false, ox, oy, x0, x1);
  }

  method BuildRow(img: PgmMap, ghost g: Grid, scale: nat, unknown: bool, occ: array<int>, ow: nat, oy: nat)
    requires img.Valid() && IsBase(img, unknown, g) && scale > 0 && ow > 0 && oy * ow + ow <= occ.Length
    requires FilledTo(g, scale, false, occ[..], ow, oy * ow)
    modifies occ
    ensures FilledTo(g, scale, false, occ[..], ow, oy * ow + ow)
  {
    assert g.Valid();
    hide BlockHas, IsBase;
    for ox := 0 to ow
      invariant FilledTo(g, scale, false, occ[..], ow, oy * ow + ox)
    {
      DivMod(oy, ow, ox);
      var blocked := MapBlockHit(img, g, scale, unknown, ox, oy);
      occ[oy * ow + ox] := if blocked then 100 else 0;
    }
  }

  // ------------------------------------------------------------ what is built

  // Some pixel of the block counts as an obstacle.
  ghost predicate BlockBlocked(img: PgmMap, unknown: bool, scale: nat, ox: nat, oy: nat)
    requires img.Valid() && scale > 0
  {
    exists x: nat, y: nat :: x < img.w && y < img.h && x / scale == ox && y / scale == oy
      && IsObstacle(PixelAt(img, x, y), img.meta, unknown)
  }

  ghost predicate IsBuilt(img: PgmMap, unknown: bool, scale: nat, r: Grid)
    requires img.Valid() && scale > 0
  {
    && r.Valid() && r.w == CeilDiv(img.w, scale) && r.h == CeilDiv(img.h, scale)
    && forall x: nat, y: nat :: x < r.w && y < r.h ==>
         r.At(x, y) == if BlockBlocked(img, unknown, scale, x, y) then 100 else 0
  }

  lemma BlockedIsHas(img: PgmMap, unknown: bool, scale: nat, g: Grid, ox: nat, oy: nat)
    requires img.Valid() && scale > 0 && IsBase(img, unknown, g)
    ensures BlockBlocked(img, unknown, scale, ox, oy) <==> BlockHas(g, scale, false, ox, oy)
  {
    hide PixelAt, IsObstacle, Grid.At;
    if BlockBlocked(img, unknown, scale, ox, oy) {
      var x: nat, y: nat :| x < img.w && y < img.h && x / scale == ox && y / scale == oy
        && IsObstacle(PixelAt(img, x, y), img.meta, unknown);
      assert g.At(x, y) == 100;
      assert Shows(g, scale, false, ox, oy, x, y);
    }
    if BlockHas(g, scale, false, ox, oy) {
      var x: nat, y: nat :| Shows(g, scale, false, ox, oy, x, y);
      assert g.At(x, y) != 0;
    }
  }

  method BuildOccupancy(img: PgmMap, scale: nat, unknown: bool) returns (occ: seq<int>, ow: nat, oh: nat)
    requires img.Valid() && scale > 0
    ensures |occ| == ow * oh && IsBuilt(img, unknown, scale, Grid(ow, oh, 1.0, occ))
  {
    ghost var g := Base(img, unknown);
    assert g.Valid();
    ow, oh := CeilDiv(img.w, scale), CeilDiv(img.h, scale);
    hide FilledTo, IsBase, IsBuilt, PooledAt, CeilDiv, Grid.At;
    CellsNatural(ow, oh);
    var data := new int[ow * oh](i => 0);
    if ow > 0 {
      FilledNone(g, scale, data[..], ow);
      for oy := 0 to oh
        invariant FilledTo(g, scale, false, data[..], ow, oy * ow)
      {
        RowFits(oy, oh, ow);
        BuildRow(img, g, scale, unknown, data, ow, oy);
      }
    }
    occ := data[..];
    FilledIsBuilt(img, unknown, scale, g, Grid(ow, oh, 1.0, occ));
  }

  lemma CellsNatural(ow: nat, oh: nat)
    ensures ow * oh >= 0
  {
  }

  lemma FilledNone(g: Grid, scale: nat, d: seq<int>, ow: nat)
    requires g.Valid() && scale > 0 && ow > 0
    ensures FilledTo(g, scale, false, d, ow, 0 * ow)
  {
    assert 0 * ow == 0;
  }

  lemma FilledIsBuilt(img: PgmMap, unknown: bool, scale: nat, g: Grid, r: Grid)
    requires img.Valid() && scale > 0 && IsBase(img, unknown, g) && r.Valid()
    requires r.w == CeilDiv(img.w, scale) && r.h == CeilDiv(img.h, scale)
    requires r.w > 0 ==> FilledTo(g, scale, false, r.data, r.w, r.h * r.w)
    ensures IsBuilt(img, unknown, scale, r)
  {
    FilledAll(g, scale, false, r);
    hide BlockBlocked, BlockHas, IsBase, FilledTo;
    forall x: nat, y: nat | x < r.w && y < r.h
      ensures r.At(x, y) == if BlockBlocked(img, unknown, scale, x, y) then 100 else 0
    {
      BlockedIsHas(img, unknown, scale, g, x, y);
      assert r.At(x, y) == PooledAt(g, scale, false, x, y);
    }
  }

  lemma BuiltUnscaled(img: PgmMap, unknown: bool, g: Grid)
    requires img.Valid() && IsBuilt(img, unknown, 1, g)
    ensures g.w == img.w && g.h == img.h && IsBase(img, unknown, g)
  {
    hide IsObstacle, PixelAt;
    assert forall x: nat :: x / 1 == x;
    forall x: nat, y: nat | x < g.w && y < g.h
      ensures g.At(x, y) == if IsObstacle(PixelAt(img, x, y), img.meta, unknown) then 100 else 0
    {
      assert BlockBlocked(img, unknown, 1, x, y) <==> IsObstacle(PixelAt(img, x, y), img.meta, unknown);
    }
  }

  // Building at any scale is conservative downsampling of the unscaled grid.
  lemma BuildIsDownsample(img: PgmMap, unknown: bool, scale: nat, g: Grid, r: Grid, q: Grid)
    requires img.Valid() && scale > 0 && IsBuilt(img, unknown, 1, g) && IsBuilt(img, unknown, scale, r)
    requires IsDownsample(g, scale, false, q)
    ensures q.w == r.w && q.h == r.h && q.data == r.data
  {
    BuiltUnscaled(img, unknown, g);
    hide IsBase, BlockBlocked, BlockHas;
    if scale == 1 {
      BuiltUnique(img, unknown, 1, g, r);
    } else {
      forall x: nat, y: nat | x < r.w && y < r.h
        ensures q.At(x, y) == r.At(x, y)
      {
        BlockedIsHas(img, unknown, scale, g, x, y);
        assert q.At(x, y) == PooledAt(g, scale, false, x, y);
      }
      SameData(q, r);
    }
  }

  lemma SameData(q: Grid, r: Grid)
    requires q.Valid() && r.Valid() && q.w == r.w && q.h == r.h
    requires forall x: nat, y: nat :: x < r.w && y < r.h ==> q.At(x, y) == r.At(x, y)
    ensures q.data == r.data
  {
    forall k | 0 <= k < |r.data|
      ensures q.data[k] == r.data[k]
    {
      DivRange(k, r.w, r.h);
      var (x, y) := (k % r.w, k / r.w);
      assert q.At(x, y) == r.At(x, y);
    }
  }

  lemma BuiltUnique(img: PgmMap, unknown: bool, scale: nat, q: Grid, r: Grid)
    requires img.Valid() && scale > 0 && IsBuilt(img, unknown, scale, q) && IsBuilt(img, unknown, scale, r)
    ensures q.w == r.w && q.h == r.h && q.data == r.data
  {
    hide BlockBlocked;
    SameData(q, r);
  }

  // ------------------------------------------------------------ writing a map and reading it back

  // The writer's raster: free cells bright, the rest black, rows from the top.
  function Raster(w: nat, h: nat, free: seq<bool>): (s: seq<Pgm.Byte>)
    requires |free| == w * h
    ensures |s| == w * h
  {
    seq(w * h, (k: nat) requires k < w * h =>
      (FlipRange(k, w, h);
       if free[(h - 1 - k / w) * w + k % w] then 254 else 0))
  }

  lemma FlipRange(k: nat, w: nat, h: nat)
    requires k < w * h
    ensures w > 0 && k / w < h && 0 <= (h - 1 - k / w) * w + k % w < w * h
  {
    DivRange(k, w, h);
    RowBelow(h - 1 - k / w, h, w, k % w);
  }

  // Whether cell (x, y) of the array given to the writer is free.
  function FreeCell(w: nat, h: nat, free: seq<bool>, x: nat, y: nat): bool
    requires |free| == w * h && x < w && y < h
  {
    RowBelow(y, h, w, x);
    free[y * w + x]
  }

  // g is free exactly where the array is.
  ghost predicate SameFree(w: nat, h: nat, free: seq<bool>, g: Grid)
    requires |free| == w * h
  {
    g.Valid() && g.w == w && g.h == h
    && forall x: nat, y: nat :: x < w && y < h ==> (g.Free(x, y) <==> FreeCell(w, h, free, x, y))
  }

  const WriterLayout: Pgm.Layout := Pgm.Layout([], [10], [32], [10], 10)

  const WriterMeta: Meta := Meta(0.65, 0.196, false)

  function WriteMap(w: nat, h: nat, free: seq<bool>): seq<Pgm.Byte>
    requires |free| == w * h
  {
    WriterLayout.Header(w, h, 255) + Raster(w, h, free)
  }

  lemma WriterProper()
    ensures WriterLayout.Proper()
  {
    assert forall c: Pgm.Byte :: [c][1..] == [];
    assert Pgm.IsGap([10][1..]) && Pgm.IsGap([32][1..]);
  }

  lemma RasterFlips(w: nat, h: nat, free: seq<bool>, x: nat, y: nat)
    requires |free| == w * h && x < w && y < h
    ensures var img := PgmMap(w, h, Raster(w, h, free), WriterMeta);
            PixelAt(img, x, y) == if FreeCell(w, h, free, x, y) then 254 else 0
  {
    hide Pgm.Layout.Header;
    RowBelow(h - 1 - y, h, w, x);
    RowBelow(y, h, w, x);
    DivMod(h - 1 - y, w, x);
  }

  lemma WriterShades(unknown: bool)
    ensures !IsObstacle(254, WriterMeta, unknown) && IsObstacle(0, WriterMeta, unknown)
  {
  }

  lemma WrittenRead(w: nat, h: nat, free: seq<bool>)
    requires |free| == w * h && w < Pgm.USIZE && h < Pgm.USIZE && |WriteMap(w, h, free)| < Pgm.USIZE
    ensures Pgm.Parse(WriteMap(w, h, free)) == Pgm.Ok(Pgm.Image(w, h, Raster(w, h, free)))
  {
    hide Pgm.Parse, Raster, Pgm.Layout.Header;
    WriterProper();
    assert WriteMap(w, h, free) + [] == WriteMap(w, h, free);
    Pgm.ParseWritten(WriterLayout, w, h, 255, Raster(w, h, free), []);
  }

  // A written grid can always be read, and built at scale 1 the picture that
  // was read gives the grid back, the row flip being undone.
  lemma MapRoundTrip(w: nat, h: nat, free: seq<bool>, unknown: bool, pic: Pgm.Image, g: Grid)
    requires |free| == w * h && w < Pgm.USIZE && h < Pgm.USIZE && |WriteMap(w, h, free)| < Pgm.USIZE
    requires Pgm.Parse(WriteMap(w, h, free)) == Pgm.Ok(pic)
    requires |pic.pixels| == pic.w * pic.h && IsBuilt(PgmMap(pic.w, pic.h, pic.pixels, WriterMeta), unknown, 1, g)
    ensures SameFree(w, h, free, g)
  {
    hide Pgm.Parse, Raster, IsBuilt, PixelAt, IsObstacle, FreeCell, WriteMap;
    WrittenRead(w, h, free);
    var img := PgmMap(w, h, Raster(w, h, free), WriterMeta);
    BuiltUnscaled(img, unknown, g);
    WriterShades(unknown);
    forall x: nat, y: nat | x < w && y < h
      ensures g.Free(x, y) <==> FreeCell(w, h, free, x, y)
    {
      RasterFlips(w, h, free, x, y);
      assert g.At(x, y) == if IsObstacle(PixelAt(img, x, y), img.meta, unknown) then 100 else 0;
    }
  }
}
