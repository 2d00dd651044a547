// The 16-bit data contract shared by the host reference, the mock device and
// both hardware kernels: packed transitions, penalty sentinels, table layout.
module Contract {
  import opened Bellman

  type U32 = n: nat | n <= 0xFFFF_FFFF

  const N_THETA := 60
  const N_ACTIONS := 6
  const PENALTY_OBSTACLE: U16 := 0xFFFF
  const PENALTY_GOAL: U16 := 0xFFFE

  datatype Delta = Delta(dix: int, diy: int, dit: int)

  // The signed byte at bit position 0, 8 or 16 of a packed transition word.
  function Signed8(b: nat): int
    requires b < 256
  {
    if b >= 128 then b - 256 else b
  }

  function Unpack(u: U32): Delta {
    Delta(Signed8(u % 256), Signed8(u / 256 % 256), Signed8(u / 65536 % 256))
  }

  // The word with the given signed bytes and top byte.
  function Word(dix: int, diy: int, dit: int, top: nat): U32
    requires top < 256
  {
    dix % 256 + 256 * (diy % 256) + 65536 * (dit % 256) + 16777216 * top
  }

  predicate IsSigned8(b: int) { -128 <= b <= 127 }

  // Byte 0 is the step in x, byte 1 the step in y, byte 2 the turn; byte 3 is ignored.
  lemma UnpackWord(dix: int, diy: int, dit: int, top: nat)
    requires IsSigned8(dix) && IsSigned8(diy) && IsSigned8(dit) && top < 256
    ensures Unpack(Word(dix, diy, dit, top)) == Delta(dix, diy, dit)
  {
    var (a, b, c) := (dix % 256, diy % 256, dit % 256);
    Bytes(a, b, c, top);
    SignedBack(dix);
    SignedBack(diy);
    SignedBack(dit);
    hide Signed8;
  }

  lemma SignedBack(b: int)
    requires IsSigned8(b)
    ensures Signed8(b % 256) == b
  {
  }

  lemma Bytes(a: nat, b: nat, c: nat, d: nat)
    requires a < 256 && b < 256 && c < 256 && d < 256
    ensures var u := a + 256 * b + 65536 * c + 16777216 * d;
            u % 256 == a && u / 256 % 256 == b && u / 65536 % 256 == c
  {
    var u := a + 256 * b + 65536 * c + 16777216 * d;
    assert u / 256 == b + 256 * c + 65536 * d;
    assert u / 65536 == c + 256 * d;
  }

  function WrapTheta(t: int): int {
    var u := if t < 0 then t + N_THETA else t;
    if u >= N_THETA then u - N_THETA else u
  }

  // A map of w x h cells with its penalty table (row-major) and the packed
  // transition table (action-major).
  datatype Problem = Problem(w: nat, h: nat, pen: seq<U16>, trans: seq<U32>) {

    predicate Valid() {
      && |pen| == w * h
      && |trans| == N_ACTIONS * N_THETA
      && forall a, it :: 0 <= a < N_ACTIONS && 0 <= it < N_THETA ==> -N_THETA <= DeltaAt(a, it).dit <= N_THETA
    }

    function DeltaAt(a: nat, it: nat): Delta
      requires |trans| == N_ACTIONS * N_THETA && a < N_ACTIONS && it < N_THETA
    {
      Unpack(trans[a * N_THETA + it])
    }

    predicate InMap(x: int, y: int) { 0 <= x < w && 0 <= y < h }

    // The penalty of a cell; outside the map it reads as an obstacle.
    function PenAt(x: int, y: int): U16
      requires |pen| == w * h
    {
      if InMap(x, y) then CellBound(x, y); pen[y * w + x] else PENALTY_OBSTACLE
    }

    lemma CellBound(x: int, y: int)
      requires InMap(x, y)
      ensures 0 <= y * w + x < w * h
    {
      assert y * w + w <= h * w by { MulMono(y + 1, h, w); }
    }

    function States(): set<State> {
      set x, y, t | 0 <= x < w && 0 <= y < h && 0 <= t < N_THETA :: State(x, y, t)
    }

    function Free(): set<State>
      requires |pen| == w * h
    {
      set s | s in States() && PenAt(s.x, s.y) < PENALTY_GOAL
    }

    function MoveAt(s: State, a: nat): Move
      requires Valid() && 0 <= s.t < N_THETA && a < N_ACTIONS
    {
      var d := DeltaAt(a, s.t);
      var nx, ny, nt := s.x + d.dix, s.y + d.diy, WrapTheta(s.t + d.dit);
      var np := PenAt(nx, ny);
      if np == PENALTY_OBSTACLE then Blocked
      else Step(State(nx, ny, nt), if np == PENALTY_GOAL then 0 else np)
    }

    function MovesAt(s: State): seq<Move>
      requires Valid() && 0 <= s.t < N_THETA
    {
      seq(N_ACTIONS, a requires 0 <= a < N_ACTIONS => MoveAt(s, a))
    }

    function Net(): Net
      requires Valid()
    {
      Bellman.Net(States(), Free(), map s | s in Free() :: MovesAt(s))
    }

    lemma NetValid()
      requires Valid()
      ensures Net().Valid() && Net().states == States()
    {
      forall s, i | s in Net().free && 0 <= i < N_ACTIONS && MovesAt(s)[i].Step?
        ensures MovesAt(s)[i].to in States()
      {
        assert MovesAt(s)[i] == MoveAt(s, i);
        assert DeltaAt(i, s.t).dit <= N_THETA;
      }
    }

    // ------------------------------------------------------------ flat layout

    function Size(): nat { w * h * N_THETA }

    function Idx(x: int, y: int, t: int): int { (y * w + x) * N_THETA + t }

    lemma IdxBound(x: int, y: int, t: int)
      requires InMap(x, y) && 0 <= t < N_THETA
      ensures 0 <= Idx(x, y, t) < Size()
    {
      CellBound(x, y);
    }

    lemma IdxInjective(x: int, y: int, t: int, x': int, y': int, t': int)
      requires InMap(x, y) && 0 <= t < N_THETA
      requires InMap(x', y') && 0 <= t' < N_THETA
      requires Idx(x, y, t) == Idx(x', y', t')
      ensures x == x' && y == y' && t == t'
    {
      assert y * w + x == y' * w + x';
      if y < y' {
        MulMono(y + 1, y', w);
      } else if y' < y {
        MulMono(y' + 1, y, w);
      }
    }

    // The abstract table held by a flat buffer.
    ghost function Tab(a: seq<U16>): (V: Table)
      requires |a| >= Size()
      ensures V.Keys == States()
    {
      map s | s in States() :: IdxBound(s.x, s.y, s.t); a[Idx(s.x, s.y, s.t)]
    }

    lemma TabWrite(a: seq<U16>, s: State, v: U16)
      requires |a| >= Size() && s in States()
      ensures 0 <= Idx(s.x, s.y, s.t) < Size()
      ensures Tab(a[Idx(s.x, s.y, s.t) := v]) == Tab(a)[s := v]
    {
      IdxBound(s.x, s.y, s.t);
      var b := a[Idx(s.x, s.y, s.t) := v];
      forall u | u in States()
        ensures Tab(b)[u] == Tab(a)[s := v][u]
      {
        IdxBound(u.x, u.y, u.t);
        if Idx(u.x, u.y, u.t) == Idx(s.x, s.y, s.t) {
          IdxInjective(u.x, u.y, u.t, s.x, s.y, s.t);
        }
      }
    }
  }

  // The cost of an action, from the buffers themselves: 0xFFFF off the map or
  // where a sentinel is read, otherwise the value at (x + dix, y + diy) and the
  // turned theta plus the penalty of that cell, a goal's being 0, saturating.
  function CostIn(value: seq<U16>, p: Problem, nx: int, ny: int, nt: int): U16
    requires p.Valid() && |value| >= p.Size() && 0 <= nt < N_THETA
  {
    if !(0 <= nx < p.w && 0 <= ny < p.h) then 0xFFFF
    else
      p.CellBound(nx, ny);
      p.IdxBound(nx, ny, nt);
      var nv, np := value[(ny * p.w + nx) * 60 + nt], p.pen[ny * p.w + nx];
      if nv == 0xFFFF || np == 0xFFFF then 0xFFFF
      else if np == 0xFFFE then (if nv > 0xFFFE then 0xFFFE else nv)
      else if nv as int + np > 0xFFFE then 0xFFFE else nv + np
  }

  lemma WrapIsMod(t: int)
    requires -N_THETA <= t < 2 * N_THETA
    ensures WrapTheta(t) == t % 60
  {
  }

  lemma MoveCost(value: seq<U16>, p: Problem, x: int, y: int, it: nat, a: nat, dix: int, diy: int, dit: int, top: nat)
    requires p.Valid() && |value| >= p.Size() && p.InMap(x, y) && it < N_THETA && a < N_ACTIONS
    requires IsSigned8(dix) && IsSigned8(diy) && IsSigned8(dit) && top < 256
    requires p.trans[a * 60 + it] == Word(dix, diy, dit, top)
    ensures Cand(p.MoveAt(State(x, y, it), a), p.Tab(value)) == CostIn(value, p, x + dix, y + diy, (it + dit) % 60)
  {
    hide Unpack, Word, Problem.Tab;
    UnpackWord(dix, diy, dit, top);
    assert p.DeltaAt(a, it) == Delta(dix, diy, dit);
    WrapIsMod(it + dit);
    var nx, ny, nt := x + dix, y + diy, (it + dit) % 60;
    if p.InMap(nx, ny) { TabAt(value, p, nx, ny, nt); }
  }

  lemma TabAt(value: seq<U16>, p: Problem, x: int, y: int, t: int)
    requires |value| >= p.Size() && p.InMap(x, y) && 0 <= t < N_THETA
    ensures 0 <= (y * p.w + x) * 60 + t < |value|
    ensures State(x, y, t) in p.Tab(value) && p.Tab(value)[State(x, y, t)] == value[(y * p.w + x) * 60 + t]
  {
    p.IdxBound(x, y, t);
  }

  // The update of a free state is the least cost of its six actions.
  lemma BellIsLeast(V: Table, p: Problem, s: State)
    requires p.Valid() && s in p.Free() && V.Keys == p.States()
    ensures forall a :: 0 <= a < N_ACTIONS ==> Bell(p.Net(), V, s) <= Cand(p.MoveAt(s, a), V)
    ensures exists a :: 0 <= a < N_ACTIONS && Bell(p.Net(), V, s) == Cand(p.MoveAt(s, a), V)
  {
    hide Cand, Problem.MoveAt, Best;
    var ms := p.MovesAt(s);
    assert p.Net().moves[s] == ms;
    BestAttained(ms, V);
    assert Cand(ms[0], V) <= MAX_VALUE;
    forall a | 0 <= a < N_ACTIONS
      ensures ms[a] == p.MoveAt(s, a)
    {
    }
  }

  // Write one word of a table buffer.
  method WriteWord(value: array<U16>, p: Problem, idx: int, v: U16, ghost s: State)
    requires value.Length >= p.Size() && s in p.States()
    requires idx == p.Idx(s.x, s.y, s.t)
    modifies value
    ensures p.Tab(value[..]) == old(p.Tab(value[..]))[s := v]
  {
    ghost var before := value[..];
    p.TabWrite(before, s, v);
    value[idx] := v;
    assert value[..] == before[idx := v];
  }

  lemma MulMono(a: int, b: int, c: int)
    requires a <= b && 0 <= c
    ensures a * c <= b * c
  {
  }

  // ---------------------------------------------------------------- orders

  // The visiting order inside one cell: theta from 0 up to n - 1.
  function Thetas(x: int, y: int, n: nat): (o: seq<State>)
    ensures |o| == n && forall t :: 0 <= t < n ==> o[t] == State(x, y, t)
  {
    seq(n, t => State(x, y, t))
  }

  lemma ThetasSnoc(x: int, y: int, n: nat)
    ensures Thetas(x, y, n + 1) == Thetas(x, y, n) + [State(x, y, n)]
  {
  }

  // Cells (x0, y) .. (x1 - 1, y), each over all theta.
  function RowOrder(y: int, x0: int, x1: int): seq<State>
    decreases x1 - x0
  {
    if x1 <= x0 then [] else RowOrder(y, x0, x1 - 1) + Thetas(x1 - 1, y, N_THETA)
  }

  // Rows y0 .. y1 - 1 of the columns x0 .. x1 - 1.
  function BlockOrder(x0: int, x1: int, y0: int, y1: int): seq<State>
    decreases y1 - y0
  {
    if y1 <= y0 then [] else BlockOrder(x0, x1, y0, y1 - 1) + RowOrder(y1 - 1, x0, x1)
  }

  lemma {:induction false} RowOrderMembers(y: int, x0: int, x1: int, s: State)
    ensures s in RowOrder(y, x0, x1) <==> s.y == y && x0 <= s.x < x1 && 0 <= s.t < N_THETA
    decreases x1 - x0
  {
    if x0 < x1 {
      RowOrderMembers(y, x0, x1 - 1, s);
      if s.x == x1 - 1 && s.y == y && 0 <= s.t < N_THETA {
        assert Thetas(x1 - 1, y, N_THETA)[s.t] == s;
      }
    }
  }

  lemma {:induction false} BlockOrderMembers(x0: int, x1: int, y0: int, y1: int, s: State)
    ensures s in BlockOrder(x0, x1, y0, y1) <==> x0 <= s.x < x1 && y0 <= s.y < y1 && 0 <= s.t < N_THETA
    decreases y1 - y0
  {
    if y0 < y1 {
      BlockOrderMembers(x0, x1, y0, y1 - 1, s);
      RowOrderMembers(y1 - 1, x0, x1, s);
    }
  }

  // The order of a row and of a block, place by place: theta fastest, then x, then y.
  lemma {:induction false} RowOrderAt(y: int, x0: int, x1: int, x: int, t: int)
    requires x0 <= x < x1 && 0 <= t < N_THETA
    ensures |RowOrder(y, x0, x1)| == (x1 - x0) * 60 && RowOrder(y, x0, x1)[(x - x0) * 60 + t] == State(x, y, t)
    decreases x1 - x0
  {
    hide Thetas;
    if x0 < x1 - 1 {
      RowOrderAt(y, x0, x1 - 1, if x < x1 - 1 then x else x0, t);
    }
  }

  lemma BlockOrderAt(x0: int, x1: int, y0: int, y1: int, x: int, y: int, t: int)
    requires x0 <= x < x1 && y0 <= y < y1 && 0 <= t < N_THETA
    ensures |BlockOrder(x0, x1, y0, y1)| == (y1 - y0) * ((x1 - x0) * 60)
    ensures 0 <= (y - y0) * ((x1 - x0) * 60) + (x - x0) * 60 + t < |BlockOrder(x0, x1, y0, y1)|
    ensures BlockOrder(x0, x1, y0, y1)[(y - y0) * ((x1 - x0) * 60) + (x - x0) * 60 + t] == State(x, y, t)
  {
    BlockPlace(x0, x1, y0, y1, x, y, t);
    hide BlockOrder;
  }

  function Rows(n: int, row: int): int { n * row }

  lemma RowsGrow(a: int, b: int, row: int)
    requires 0 <= a < b && 0 <= row
    ensures 0 <= Rows(a, row) && Rows(a, row) + row <= Rows(b, row) && Rows(b, row) == Rows(b - 1, row) + row && Rows(0, row) == 0
  {
    MulMono(a + 1, b, row);
    assert (b - 1) * row + row == b * row && (a + 1) * row == a * row + row;
  }

  lemma {:induction false} BlockPlace(x0: int, x1: int, y0: int, y1: int, x: int, y: int, t: int)
    requires x0 <= x < x1 && y0 <= y < y1 && 0 <= t < N_THETA
    ensures |BlockOrder(x0, x1, y0, y1)| == Rows(y1 - y0, (x1 - x0) * 60)
    ensures 0 <= Rows(y - y0, (x1 - x0) * 60) + (x - x0) * 60 + t < |BlockOrder(x0, x1, y0, y1)|
    ensures BlockOrder(x0, x1, y0, y1)[Rows(y - y0, (x1 - x0) * 60) + (x - x0) * 60 + t] == State(x, y, t)
    decreases y1 - y0
  {
    hide RowOrder, Rows;
    var row := (x1 - x0) * 60;
    RowOrderAt(y1 - 1, x0, x1, x, t);
    RowsGrow(y - y0, y1 - y0, row);
    if y0 < y1 - 1 {
      BlockPlace(x0, x1, y0, y1 - 1, x, if y < y1 - 1 then y else y0, t);
    } else {
      assert BlockOrder(x0, x1, y0, y1 - 1) == [];
    }
  }
}
