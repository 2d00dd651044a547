// The probabilistic Bellman update in 64-bit fixed point: costs carry 18
// fraction bits, probabilities are counts out of 2^18, and sums wrap.
module FixedPoint {
  import opened Basics

  const TWO64: nat := 0x1_0000_0000_0000_0000
  const TWO46: nat := 0x4000_0000_0000
  const PROB_BASE: nat := 0x4_0000
  const MAX_COST: nat := 1_000_000_000 * PROB_BASE

  type U64 = n: nat | n < TWO64

  function Wrap(n: nat): U64 { n % TWO64 }

  datatype Transition = Transition(dix: int, diy: int, dit: int, prob: nat)

  datatype Cell = Cell(total: U64, penalty: U64, local: U64, ix: int, iy: int, it: int,
                       free: bool, final: bool, optimal: Option<nat>)
  {
    // The exact cost of entering the cell.
    function Toll(): nat { total + penalty + local }
  }

  // actions[a][it]: where action `a` may lead from angle `it`; angles are absolute.
  datatype World = World(nx: nat, ny: nat, nt: nat, actions: seq<seq<seq<Transition>>>) {
    predicate Valid() {
      && (forall a :: 0 <= a < |actions| ==> |actions[a]| == nt)
      && (forall a, t, k :: 0 <= a < |actions| && 0 <= t < |actions[a]| && 0 <= k < |actions[a][t]|
            ==> actions[a][t][k].dit + nt >= 0)
    }

    function Index(ix: int, iy: int, it: int): int { it + ix * nt + iy * (nt * nx) }

    predicate InMap(ix: int, iy: int) { 0 <= ix < nx && 0 <= iy < ny }

    predicate Fits(cells: seq<Cell>) {
      |cells| == nx * ny * nt && forall i :: 0 <= i < |cells| ==> 0 <= cells[i].it < nt
    }

    lemma IndexRange(ix: int, iy: int, it: int)
      requires InMap(ix, iy) && 0 <= it < nt
      ensures 0 <= Index(ix, iy, it) < nx * ny * nt
    {
      Grow(ix + 1, nx, nt);
      Grow(iy + 1, ny, nt * nx);
      assert ny * (nt * nx) == nx * ny * nt;
    }

    // The cell a transition enters, unless it leaves the map or is not free.
    function Successor(cells: seq<Cell>, s: Cell, tr: Transition): (r: Option<nat>)
      requires Fits(cells) && nt > 0 && tr.dit + nt >= 0
      ensures r.Some? ==> r.value < |cells| && cells[r.value].free
    {
      var (ix, iy) := (s.ix + tr.dix, s.iy + tr.diy);
      if !InMap(ix, iy) then None
      else
        IndexRange(ix, iy, (tr.dit + nt) % nt);
        var i := Index(ix, iy, (tr.dit + nt) % nt);
        if cells[i].free then Some(i) else None
    }
  }

  predicate Turning(w: World, trs: seq<Transition>) { forall k :: 0 <= k < |trs| ==> trs[k].dit + w.nt >= 0 }

  // Some outcome leaves the map or enters a blocked cell.
  predicate Barred(w: World, cells: seq<Cell>, s: Cell, trs: seq<Transition>)
    requires w.Fits(cells) && w.nt > 0 && Turning(w, trs)
  {
    exists k :: 0 <= k < |trs| && w.Successor(cells, s, trs[k]).None?
  }

  function Term(toll: nat, prob: nat): nat { toll * prob }

  // The exact weighted sum of the successors' tolls, in units of 2^-18.
  function ExactSum(w: World, cells: seq<Cell>, s: Cell, trs: seq<Transition>): nat
    requires w.Fits(cells) && w.nt > 0 && Turning(w, trs)
  {
    if |trs| == 0 then 0
    else
      var to := w.Successor(cells, s, trs[|trs| - 1]);
      ExactSum(w, cells, s, trs[..|trs| - 1]) + if to.Some? then Term(cells[to.value].Toll(), trs[|trs| - 1].prob) else 0
  }

  // What the code computes for one action.
  function RawCost(w: World, cells: seq<Cell>, s: Cell, trs: seq<Transition>): U64
    requires w.Fits(cells) && w.nt > 0 && Turning(w, trs)
  {
    if Barred(w, cells, s, trs) then MAX_COST
    else Wrap(ExactSum(w, cells, s, trs)) / PROB_BASE
  }

  // ------------------------------------------------------------ wrapping

  lemma WrapOf(n: nat, k: nat)
    ensures Wrap(n + k * TWO64) == Wrap(n)
  {
    DivMod(n / TWO64 + k, TWO64, n % TWO64);
    assert n + k * TWO64 == (n / TWO64 + k) * TWO64 + n % TWO64;
  }

  lemma WrapAdd(a: nat, b: nat)
    ensures Wrap(Wrap(a) + b) == Wrap(a + b)
  {
    WrapOf(Wrap(a) + b, a / TWO64);
  }

  lemma WrapMul(a: nat, q: nat)
    ensures Wrap(Wrap(a) * q) == Wrap(a * q)
  {
    var d := a / TWO64;
    assert a == Wrap(a) + d * TWO64;
    Spread(Wrap(a), d, q);
    WrapOf(Wrap(a) * q, d * q);
  }

  lemma Spread(r: nat, d: nat, q: nat)
    ensures (r + d * TWO64) * q == r * q + (d * q) * TWO64
  {
  }

  // One term of the sum: every intermediate wrap is harmless modulo 2^64.
  lemma WrapTerm(sum: nat, t: nat, p: nat, l: nat, q: nat)
    ensures Wrap(Wrap(sum) + Wrap(Term(Wrap(Wrap(t + p) + l), q))) == Wrap(sum + Term(t + p + l, q))
  {
    WrapAdd(t + p, l);
    WrapMul(t + p + l, q);
    var term := (t + p + l) * q;
    WrapAdd(sum, Wrap(term));
    WrapAdd(term, sum);
  }

  // The shift after the wrap gives the floored mean exactly when nothing wrapped.
  lemma WrapExact(n: nat)
    ensures Wrap(n) / PROB_BASE == n / PROB_BASE <==> n < TWO64
  {
    if n >= TWO64 {
      assert n / PROB_BASE >= TWO46 > Wrap(n) / PROB_BASE;
    }
  }

  // ------------------------------------------------------------ action cost

  // The cell one outcome enters.
  method Enter(states: array<Cell>, w: World, s: Cell, tran: Transition) returns (after: Option<Cell>)
    requires w.Fits(states[..]) && w.nt > 0 && tran.dit + w.nt >= 0
    ensures after.None? <==> w.Successor(states[..], s, tran).None?
    ensures after.Some? ==> after.value == states[..][w.Successor(states[..], s, tran).value]
  {
    hide World.Index;
    after := None;
    var ix := s.ix + tran.dix;
    if ix < 0 || ix >= w.nx { return; }
    var iy := s.iy + tran.diy;
    if iy < 0 || iy >= w.ny { return; }
    var it := (tran.dit + w.nt) % w.nt;
    w.IndexRange(ix, iy, it);
    var cell := states[w.Index(ix, iy, it)];
    if !cell.free { return; }
    after := Some(cell);
  }

  lemma SumNone(w: World, cells: seq<Cell>, s: Cell, trs: seq<Transition>)
    requires w.Fits(cells) && w.nt > 0 && Turning(w, trs)
    ensures Wrap(ExactSum(w, cells, s, trs[..0])) == 0
  {
  }

  lemma SumNext(w: World, cells: seq<Cell>, s: Cell, trs: seq<Transition>, k: nat)
    requires w.Fits(cells) && w.nt > 0 && Turning(w, trs) && k < |trs| && w.Successor(cells, s, trs[k]).Some?
    ensures ExactSum(w, cells, s, trs[..k + 1]) ==
            ExactSum(w, cells, s, trs[..k]) + Term(cells[w.Successor(cells, s, trs[k]).value].Toll(), trs[k].prob)
  {
    assert trs[..k + 1][..k] == trs[..k];
    hide World.Successor, Term;
  }

  method ActionCostRaw(states: array<Cell>, w: World, a: nat, s: Cell) returns (cost: U64)
    requires w.Valid() && w.Fits(states[..]) && a < |w.actions| && 0 <= s.it < w.nt
    ensures cost == RawCost(w, states[..], s, w.actions[a][s.it])
  {
    hide World.Successor, Wrap, Term, ExactSum;
    var trs := w.actions[a][s.it];
    ghost var cells := states[..];
    cost := 0;
    assert trs[..|trs|] == trs;
    SumNone(w, cells, s, trs);
    for k := 0 to |trs|
      invariant cost == Wrap(ExactSum(w, cells, s, trs[..k]))
      invariant forall j :: 0 <= j < k ==> w.Successor(cells, s, trs[j]).Some?
    {
      var tran := trs[k];
      var after := Enter(states, w, s, tran);
      if after.None? { return MAX_COST; }
      SumNext(w, cells, s, trs, k);
      WrapTerm(ExactSum(w, cells, s, trs[..k]), after.value.total, after.value.penalty, after.value.local, tran.prob);
      cost := Wrap(cost + Wrap(Term(Wrap(Wrap(after.value.total + after.value.penalty) + after.value.local), tran.prob)));
    }
    cost := cost / PROB_BASE;
  }

  // ------------------------------------------------------------ the cost, from the cells

  // The outcome leaves the map, or the cell it enters is not free.
  predicate Stuck(w: World, cells: seq<Cell>, s: Cell, tr: Transition)
    requires w.Fits(cells) && w.nt > 0
  {
    if 0 <= s.ix + tr.dix < w.nx && 0 <= s.iy + tr.diy < w.ny
    then !Entered(w, cells, s.ix + tr.dix, s.iy + tr.diy, tr.dit).free else true
  }

  // The cell of the map at column x and row y whose angle is dit.
  function Entered(w: World, cells: seq<Cell>, x: int, y: int, dit: int): Cell
    requires w.Fits(cells) && w.nt > 0 && 0 <= x < w.nx && 0 <= y < w.ny
  {
    w.IndexRange(x, y, (dit + w.nt) % w.nt);
    cells[(dit + w.nt) % w.nt + x * w.nt + y * (w.nt * w.nx)]
  }

  lemma SuccessorIn(w: World, cells: seq<Cell>, s: Cell, tr: Transition)
    requires w.Fits(cells) && w.nt > 0 && tr.dit + w.nt >= 0
    ensures w.Successor(cells, s, tr).None? <==> Stuck(w, cells, s, tr)
    ensures !Stuck(w, cells, s, tr) ==>
      cells[w.Successor(cells, s, tr).value] == Entered(w, cells, s.ix + tr.dix, s.iy + tr.diy, tr.dit)
  {
  }

  // The cost is MAX_COST exactly when some outcome is stuck, since a wrapped sum
  // is below 2^46 after the shift.
  lemma CostMaxIff(w: World, cells: seq<Cell>, s: Cell, trs: seq<Transition>)
    requires w.Fits(cells) && w.nt > 0 && Turning(w, trs)
    ensures RawCost(w, cells, s, trs) == MAX_COST <==> exists k :: 0 <= k < |trs| && Stuck(w, cells, s, trs[k])
  {
    hide World.Successor, Stuck, ExactSum;
    forall k | 0 <= k < |trs|
      ensures w.Successor(cells, s, trs[k]).None? <==> Stuck(w, cells, s, trs[k])
    {
      SuccessorIn(w, cells, s, trs[k]);
    }
  }

  // The exact sum adds up value, penalty and local penalty of the cells entered,
  // each times its probability.
  lemma SumIn(w: World, cells: seq<Cell>, s: Cell, trs: seq<Transition>, tr: Transition)
    requires w.Fits(cells) && w.nt > 0 && Turning(w, trs) && tr.dit + w.nt >= 0 && !Stuck(w, cells, s, tr)
    ensures ExactSum(w, cells, s, []) == 0
    ensures var c := Entered(w, cells, s.ix + tr.dix, s.iy + tr.diy, tr.dit);
            ExactSum(w, cells, s, trs + [tr]) == ExactSum(w, cells, s, trs) + (c.total + c.penalty + c.local) * tr.prob
  {
    hide World.Successor, Stuck, Entered;
    SuccessorIn(w, cells, s, tr);
    assert (trs + [tr])[..|trs|] == trs;
  }

  // A certain outcome costs what the cell entered costs.
  lemma CertainCost(w: World, cells: seq<Cell>, s: Cell, tr: Transition)
    requires w.Fits(cells) && w.nt > 0 && tr.dit + w.nt >= 0 && tr.prob == 0x4_0000 && !Stuck(w, cells, s, tr)
    ensures var c := Entered(w, cells, s.ix + tr.dix, s.iy + tr.diy, tr.dit);
            c.total + c.penalty + c.local < TWO46 ==> RawCost(w, cells, s, [tr]) == c.total + c.penalty + c.local
  {
    hide World.Successor, Entered, Stuck;
    SuccessorIn(w, cells, s, tr);
    SumIn(w, cells, s, [], tr);
    assert [] + [tr] == [tr];
  }

  // ------------------------------------------------------------ the best action

  // The first cheapest of the first n actions, if any is cheaper than MAX_COST.
  function Cheapest(w: World, cells: seq<Cell>, s: Cell, n: nat): (U64, Option<nat>)
    requires w.Valid() && w.Fits(cells) && n <= |w.actions| && 0 <= s.it < w.nt
  {
    if n == 0 then (MAX_COST, None)
    else
      var best := Cheapest(w, cells, s, n - 1);
      var c := RawCost(w, cells, s, w.actions[n - 1][s.it]);
      if c < best.0 then (c, Some(n - 1)) else best
  }

  // No action is cheaper, the recorded one costs as much, and no earlier one does.
  lemma {:induction false} CheapestMeaning(w: World, cells: seq<Cell>, s: Cell, n: nat)
    requires w.Valid() && w.Fits(cells) && n <= |w.actions| && 0 <= s.it < w.nt
    ensures var (c, best) := Cheapest(w, cells, s, n);
            && c <= MAX_COST
            && (forall a :: 0 <= a < n ==> c <= RawCost(w, cells, s, w.actions[a][s.it]))
            && (best.None? ==> c == MAX_COST)
            && (best.Some? ==>
                  && best.value < n && c == RawCost(w, cells, s, w.actions[best.value][s.it]) < MAX_COST
                  && forall a :: 0 <= a < best.value ==> c < RawCost(w, cells, s, w.actions[a][s.it]))
  {
    if n > 0 {
      CheapestMeaning(w, cells, s, n - 1);
    }
  }

  method MinActionCost(states: array<Cell>, w: World, idx: nat) returns (r: Option<(U64, Option<nat>)>)
    requires w.Valid() && w.Fits(states[..]) && idx < states.Length
    ensures r == if !states[idx].free || states[idx].final then None
                 else Some(Cheapest(w, states[..], states[idx], |w.actions|))
  {
    if !states[idx].free || states[idx].final { return None; }
    var minCost: U64 := MAX_COST;
    var minAction: Option<nat> := None;
    var s := states[idx];
    hide RawCost;
    for ai := 0 to |w.actions|
      invariant (minCost, minAction) == Cheapest(w, states[..], s, ai)
    {
      var c := ActionCostRaw(states, w, ai, s);
      if c < minCost {
        minCost, minAction := c, Some(ai);
      }
    }
    r := Some((minCost, minAction));
  }

  // ------------------------------------------------------------ one update

  function Upd(w: World, cells: seq<Cell>, idx: nat): (r: seq<Cell>)
    requires w.Valid() && w.Fits(cells)
    ensures |r| == |cells| && w.Fits(r)
  {
    if idx < |cells| && cells[idx].free && !cells[idx].final then
      var best := Cheapest(w, cells, cells[idx], |w.actions|);
      cells[idx := cells[idx].(total := best.0, optimal := best.1)]
    else cells
  }

  // As a signed 64-bit number.
  function Signed(n: U64): int { if n < TWO64 / 2 then n else n - TWO64 }

  // Values stay at most MAX_COST, so the signed difference is the true one.
  method ValueIterationRaw(states: array<Cell>, w: World, idx: nat) returns (delta: U64)
    requires w.Valid() && w.Fits(states[..]) && idx < states.Length && states[idx].total <= MAX_COST
    modifies states
    ensures states[..] == Upd(w, old(states[..]), idx)
    ensures states[idx].total <= MAX_COST
    ensures delta == if states[idx].total > old(states[idx].total) then states[idx].total - old(states[idx].total)
                     else old(states[idx].total) - states[idx].total
  {
    var best := MinActionCost(states, w, idx);
    if best.None? { return 0; }
    var (minCost, minAction) := best.value;
    CheapestMeaning(w, states[..], states[idx], |w.actions|);
    hide Cheapest, RawCost;
    var was := states[idx].total;
    var diff := Signed(minCost) - Signed(was);
    states[idx] := states[idx].(total := minCost, optimal := minAction);
    delta := if diff < 0 then -diff else diff;
  }
}
