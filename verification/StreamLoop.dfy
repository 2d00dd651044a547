// What the stream kernel computes, as functions on tables: its theta loop, with
// the translation costs read before the cell is updated, and its scan order.
module StreamLoop {
  import opened Bellman
  import opened Contract
  import opened Hls

  const STRIP := 145

  // Row q of the scan (q counts from 0 in scan direction) is this map row.
  function RowOf(p: Problem, cu: int, q: int): int { if cu == 0 then q else p.h - 1 - q }

  // Column i of the scan of a strip.
  function ColOf(cu: int, x0: int, w: int, i: int): int { if cu == 0 then x0 + i else x0 + w - 1 - i }

  function NumStrips(p: Problem): nat { (p.w + STRIP - 1) / STRIP }

  function StripAt(p: Problem, cu: int, si: nat): int { if cu == 0 then si else NumStrips(p) - 1 - si }

  function StripWidth(p: Problem, sx: int): int {
    if sx * STRIP + STRIP > p.w then p.w - sx * STRIP else STRIP
  }

  lemma WidthPositive(p: Problem, sx: int)
    requires 0 <= sx < NumStrips(p)
    ensures 0 < StripWidth(p, sx) <= STRIP && sx * STRIP + StripWidth(p, sx) <= p.w
  {
  }

  // ------------------------------------------------------------ the theta loop

  // The value written at state s: translations as they were in V, when the cell
  // was entered, turns as they are in W, the table updated so far.
  ghost function KernelValue(p: Problem, V: Table, W: Table, s: State): U16
    requires p.Valid() && 0 <= s.t < N_THETA
  {
    MinTree(RawCand(p, V, s, 0), RawCand(p, V, s, 1), RawCand(p, W, s, 2),
            RawCand(p, W, s, 3), RawCand(p, V, s, 4), RawCand(p, V, s, 5))
  }

  // The table after the first n thetas of the cell, as the kernel leaves it.
  ghost function Chained(p: Problem, V: Table, x: int, y: int, n: nat): Table
    requires p.Valid() && n <= N_THETA
  {
    if n == 0 then V
    else
      var W := Chained(p, V, x, y, n - 1);
      var s := State(x, y, n - 1);
      if s in p.Free() then W[s := KernelValue(p, V, W, s)] else W
  }

  // The largest change of those thetas.
  ghost function ChainedDelta(p: Problem, V: Table, x: int, y: int, n: nat): U16
    requires p.Valid() && n <= N_THETA
  {
    if n == 0 then 0
    else
      var W := Chained(p, V, x, y, n - 1);
      var s := State(x, y, n - 1);
      Max(ChainedDelta(p, V, x, y, n - 1), if s in p.Free() && s in W then Diff(KernelValue(p, V, W, s), W[s]) else 0)
  }

  lemma {:induction false} ChainedFrame(p: Problem, V: Table, x: int, y: int, n: nat)
    requires p.Valid() && n <= N_THETA && V.Keys == p.States()
    ensures Chained(p, V, x, y, n).Keys == V.Keys
    ensures forall s :: s in V && (s.x != x || s.y != y || s.t >= n) ==> Chained(p, V, x, y, n)[s] == V[s]
  {
    hide KernelValue;
    if n > 0 {
      ChainedFrame(p, V, x, y, n - 1);
    }
  }

  // ------------------------------------------------------------ the scan

  // A table and the largest change made to reach it.
  datatype Swept = Swept(V: Table, delta: U16)

  ghost function CellSwept(p: Problem, V: Table, x: int, y: int): Swept
    requires p.Valid()
  {
    Swept(Chained(p, V, x, y, N_THETA), ChainedDelta(p, V, x, y, N_THETA))
  }

  // The first n cells of a row of the strip, in scan direction.
  ghost function RowSwept(p: Problem, V: Table, cu: int, y: int, x0: int, w: int, n: nat): Swept
    requires p.Valid()
  {
    if n == 0 then Swept(V, 0)
    else
      var a := RowSwept(p, V, cu, y, x0, w, n - 1);
      var c := CellSwept(p, a.V, ColOf(cu, x0, w, n - 1), y);
      Swept(c.V, Max(a.delta, c.delta))
  }

  // The first n rows of a strip.
  ghost function StripSwept(p: Problem, V: Table, cu: int, x0: int, w: nat, n: nat): Swept
    requires p.Valid()
  {
    if n == 0 then Swept(V, 0)
    else
      var a := StripSwept(p, V, cu, x0, w, n - 1);
      var r := RowSwept(p, a.V, cu, RowOf(p, cu, n - 1), x0, w, w);
      Swept(r.V, Max(a.delta, r.delta))
  }

  // The first n strips of a unit.
  ghost function StreamSwept(p: Problem, V: Table, cu: int, n: nat): Swept
    requires p.Valid() && n <= NumStrips(p)
  {
    if n == 0 then Swept(V, 0)
    else
      var a := StreamSwept(p, V, cu, n - 1);
      var sx := StripAt(p, cu, n - 1);
      WidthPositive(p, sx);
      var r := StripSwept(p, a.V, cu, sx * STRIP, StripWidth(p, sx), p.h);
      Swept(r.V, Max(a.delta, r.delta))
  }

  // A row changes nothing outside its first n cells.
  lemma {:induction false} RowSweptFrame(p: Problem, V: Table, cu: int, y: int, x0: int, w: int, n: nat)
    requires p.Valid() && V.Keys == p.States() && n <= w
    ensures RowSwept(p, V, cu, y, x0, w, n).V.Keys == V.Keys
    ensures forall s :: s in V && !(s.y == y && x0 <= s.x < x0 + w) ==> RowSwept(p, V, cu, y, x0, w, n).V[s] == V[s]
  {
    hide Chained, ChainedDelta;
    if n > 0 {
      RowSweptFrame(p, V, cu, y, x0, w, n - 1);
      ChainedFrame(p, RowSwept(p, V, cu, y, x0, w, n - 1).V, ColOf(cu, x0, w, n - 1), y, N_THETA);
    }
  }

  // ------------------------------------------------------------ the same order, in place

  // The first n cells of a row of the strip.
  function DirRow(cu: int, y: int, x0: int, w: int, n: nat): seq<State> {
    if n == 0 then [] else DirRow(cu, y, x0, w, n - 1) + Thetas(ColOf(cu, x0, w, n - 1), y, N_THETA)
  }

  // The first n rows of a strip.
  function StripOrder(p: Problem, cu: int, x0: int, w: nat, n: nat): seq<State> {
    if n == 0 then [] else StripOrder(p, cu, x0, w, n - 1) + DirRow(cu, RowOf(p, cu, n - 1), x0, w, w)
  }

  // The visiting order of the first n strips of a unit.
  function StreamOrder(p: Problem, cu: int, n: nat): seq<State>
    requires n <= NumStrips(p)
  {
    if n == 0 then []
    else
      var sx := StripAt(p, cu, n - 1);
      WidthPositive(p, sx);
      StreamOrder(p, cu, n - 1) + StripOrder(p, cu, sx * STRIP, StripWidth(p, sx), p.h)
  }

  // The scan of a strip, place by place: unit 0 from the lower left, row by row
  // upwards, the other unit from the upper right downwards; theta fastest.
  lemma {:induction false} DirRowAt(cu: int, y: int, x0: int, w: int, n: nat, i: nat, t: nat)
    requires i < n && t < N_THETA
    ensures |DirRow(cu, y, x0, w, n)| == n * 60
    ensures DirRow(cu, y, x0, w, n)[i * 60 + t] == State(if cu == 0 then x0 + i else x0 + w - 1 - i, y, t)
  {
    hide Thetas;
    if n > 1 { DirRowAt(cu, y, x0, w, n - 1, if i < n - 1 then i else 0, t); }
  }

  lemma {:induction false} StripOrderAt(p: Problem, cu: int, x0: int, w: nat, n: nat, q: nat, i: nat, t: nat)
    requires q < n && i < w && t < N_THETA
    ensures |StripOrder(p, cu, x0, w, n)| == n * (w * 60) && 0 <= q * (w * 60) + i * 60 + t < |StripOrder(p, cu, x0, w, n)|
    ensures StripOrder(p, cu, x0, w, n)[q * (w * 60) + i * 60 + t]
         == State(if cu == 0 then x0 + i else x0 + w - 1 - i, if cu == 0 then q else p.h - 1 - q, t)
  {
    hide DirRow;
    var row := w * 60;
    DirRowAt(cu, RowOf(p, cu, n - 1), x0, w, w, i, t);
    assert (n - 1) * row + row == n * row;
    MulMono(q, n - 1, row);
    if n > 1 {
      StripOrderAt(p, cu, x0, w, n - 1, if q < n - 1 then q else 0, i, t);
      if q < n - 1 { MulMono(q + 1, n - 1, row); assert (q + 1) * row == q * row + row; }
    }
  }

  lemma {:induction false} DirRowMembers(cu: int, y: int, x0: int, w: int, n: nat, s: State)
    ensures s in DirRow(cu, y, x0, w, n) <==>
      s.y == y && 0 <= s.t < N_THETA && (if cu == 0 then x0 <= s.x < x0 + n else x0 + w - n <= s.x < x0 + w)
  {
    if n > 0 {
      DirRowMembers(cu, y, x0, w, n - 1, s);
      var x := ColOf(cu, x0, w, n - 1);
      if s.x == x && s.y == y && 0 <= s.t < N_THETA {
        assert Thetas(x, y, N_THETA)[s.t] == s;
      }
    }
  }
}
