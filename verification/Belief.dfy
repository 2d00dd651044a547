// The sparse belief store: a dense weight vector, the list of its active
// cells, and a scratch vector that is all zero between uses.
module Belief {
  import opened Basics

  // A fraction of a cell's mass on its way to a cell, or to nowhere (a blocked
  // cell or outside the map).
  datatype Aim = Aim(to: Option<nat>, w: real)

  datatype Grid = Grid(nx: nat, ny: nat, nt: nat, free: seq<bool>) {
    predicate Valid() { |free| == nx * ny }

    function Size(): nat { nt * (nx * ny) }

    predicate InMap(x: int, y: int) { 0 <= x < nx && 0 <= y < ny }

    // theta plane by theta plane, row by row.
    function Idx(x: int, y: int, t: int): int { (t * ny + y) * nx + x }

    function FreeXY(x: int, y: int): bool
      requires Valid() && InMap(x, y)
    {
      PlaneRange(x, y);
      free[y * nx + x]
    }

    lemma PlaneRange(x: int, y: int)
      requires InMap(x, y)
      ensures 0 <= y * nx + x < nx * ny
    {
      assert (y + 1) * nx <= ny * nx;
    }

    lemma IdxRange(x: int, y: int, t: int)
      requires InMap(x, y) && 0 <= t < nt
      ensures 0 <= Idx(x, y, t) < Size() && Idx(x, y, t) == t * (nx * ny) + (y * nx + x)
    {
      PlaneRange(x, y);
      RowBelow(t, nt, nx * ny, y * nx + x);
    }

    // The cell an index stands for.
    function X(i: nat): int requires nx > 0 && ny > 0 { i % (nx * ny) % nx }
    function Y(i: nat): int requires nx > 0 && ny > 0 { i % (nx * ny) / nx }
    function T(i: nat): int requires nx > 0 && ny > 0 { i / (nx * ny) }

    lemma Decode(i: nat)
      requires i < Size()
      ensures nx > 0 && ny > 0 && InMap(X(i), Y(i)) && 0 <= T(i) < nt && Idx(X(i), Y(i), T(i)) == i
    {
      var plane := nx * ny;
      DivRange(i, plane, nt);
      DivRange(i % plane, nx, ny);
      IdxRange(X(i), Y(i), T(i));
    }

    lemma DecodeIdx(x: int, y: int, t: int)
      requires InMap(x, y) && 0 <= t < nt
      ensures 0 <= Idx(x, y, t) < Size() && X(Idx(x, y, t)) == x && Y(Idx(x, y, t)) == y && T(Idx(x, y, t)) == t
    {
      IdxRange(x, y, t);
      PlaneRange(x, y);
      DivMod(t, nx * ny, y * nx + x);
      DivMod(y, nx, x);
    }

    // Whether the cell of index i may carry mass.
    predicate FreeAt(i: nat)
      requires Valid() && i < Size()
    {
      Decode(i);
      FreeXY(X(i), Y(i))
    }
  }
}
