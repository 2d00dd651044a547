// The fixed-point update where nothing wraps: exact means, monotone updates,
// runs that never raise a value and do not depend on the visiting order; and
// what the wrap does outside that region.
module FixedPointOrder {
  import opened Basics
  import opened FixedPoint

  // ------------------------------------------------------------ exactness

  // The code's cost is the exact floored mean if and only if the exact sum fits 64 bits.
  lemma ExactIff(w: World, cells: seq<Cell>, s: Cell, trs: seq<Transition>)
    requires w.Fits(cells) && w.nt > 0 && Turning(w, trs) && !Barred(w, cells, s, trs)
    ensures RawCost(w, cells, s, trs) == ExactSum(w, cells, s, trs) / PROB_BASE <==> ExactSum(w, cells, s, trs) < TWO64
  {
    WrapExact(ExactSum(w, cells, s, trs));
    hide Wrap, ExactSum;
  }

  function ProbSum(trs: seq<Transition>): nat { if |trs| == 0 then 0 else ProbSum(trs[..|trs| - 1]) + trs[|trs| - 1].prob }

  // Every outcome enters a free cell whose toll is between lo and hi.
  ghost predicate TollsWithin(w: World, cells: seq<Cell>, s: Cell, trs: seq<Transition>, lo: nat, hi: nat)
    requires w.Fits(cells) && w.nt > 0 && Turning(w, trs)
  {
    forall k :: 0 <= k < |trs| ==>
      w.Successor(cells, s, trs[k]).Some? && lo <= cells[w.Successor(cells, s, trs[k]).value].Toll() <= hi
  }

  lemma TermStep(lo: nat, toll: nat, hi: nat, q: nat, p: nat)
    requires lo <= toll <= hi
    ensures Term(lo, p + q) == Term(lo, p) + Term(lo, q) && Term(hi, p + q) == Term(hi, p) + Term(hi, q)
    ensures Term(lo, q) <= Term(toll, q) <= Term(hi, q)
  {
    Grow(lo, toll, q);
    Grow(toll, hi, q);
  }

  lemma {:induction false} SumBetween(w: World, cells: seq<Cell>, s: Cell, trs: seq<Transition>, lo: nat, hi: nat)
    requires w.Fits(cells) && w.nt > 0 && Turning(w, trs) && TollsWithin(w, cells, s, trs, lo, hi) && lo <= hi
    ensures Term(lo, ProbSum(trs)) <= ExactSum(w, cells, s, trs) <= Term(hi, ProbSum(trs))
  {
    if |trs| > 0 {
      var n := |trs| - 1;
      SumBetween(w, cells, s, trs[..n], lo, hi);
      TermStep(lo, cells[w.Successor(cells, s, trs[n]).value].Toll(), hi, trs[n].prob, ProbSum(trs[..n]));
      hide Term, World.Successor;
    }
  }

  // With probabilities adding up to 1 and tolls below 2^46, the cost is a mean:
  // it lies between the cheapest and the dearest successor.
  lemma MeanBetween(w: World, cells: seq<Cell>, s: Cell, trs: seq<Transition>, lo: nat, hi: nat)
    requires w.Fits(cells) && w.nt > 0 && Turning(w, trs) && TollsWithin(w, cells, s, trs, lo, hi) && lo <= hi < TWO46
    requires ProbSum(trs) == PROB_BASE
    ensures ExactSum(w, cells, s, trs) < TWO64
    ensures lo <= RawCost(w, cells, s, trs) == ExactSum(w, cells, s, trs) / PROB_BASE <= hi
  {
    SumBetween(w, cells, s, trs, lo, hi);
    ExactIff(w, cells, s, trs);
    hide ExactSum, RawCost;
  }

  // ------------------------------------------------------------ the wrap region

  // When all successors cost the same c, the code computes c modulo 2^46: too
  // little whenever c is 2^46 or more, and always less than MAX_COST.
  lemma EqualTolls(w: World, cells: seq<Cell>, s: Cell, trs: seq<Transition>, c: nat)
    requires w.Fits(cells) && w.nt > 0 && Turning(w, trs) && TollsWithin(w, cells, s, trs, c, c)
    requires ProbSum(trs) == PROB_BASE
    ensures RawCost(w, cells, s, trs) == c % TWO46 < MAX_COST
    ensures RawCost(w, cells, s, trs) == c <==> c < TWO46
  {
    SumBetween(w, cells, s, trs, c, c);
    ModScale(c);
  }

  lemma ModScale(c: nat)
    ensures Wrap(Term(c, PROB_BASE)) / PROB_BASE == c % TWO46
  {
    var d := c / TWO46;
    assert Term(c, PROB_BASE) == c % TWO46 * PROB_BASE + d * TWO64;
    WrapOf(c % TWO46 * PROB_BASE, d);
  }

  // A map of one free cell, one angle, and one action that stays: the cell has
  // no goal to reach.
  const Alone: World := World(1, 1, 1, [[[Transition(0, 0, 0, PROB_BASE)]]])
  const Unreached: Cell := Cell(MAX_COST, PROB_BASE, 0, 0, 0, 0, true, false, None)

  // Its value is MAX_COST, "never reached", yet one update makes it look reached.
  lemma WrapLooksReached()
    ensures Alone.Valid() && Alone.Fits([Unreached])
    ensures Upd(Alone, [Unreached], 0)[0].total == 194693633 * PROB_BASE < MAX_COST
    ensures Upd(Alone, [Unreached], 0)[0].optimal == Some(0)
  {
    var cells, trs := [Unreached], [Transition(0, 0, 0, PROB_BASE)];
    assert Alone.Successor(cells, Unreached, trs[0]) == Some(0);
    assert trs[..0] == [] && ProbSum(trs) == ProbSum([]) + PROB_BASE;
    EqualTolls(Alone, cells, Unreached, trs, Unreached.Toll());
    assert Alone.actions[0][0] == trs;
    assert Cheapest(Alone, cells, Unreached, 0) == (MAX_COST, None);
  }

  // ------------------------------------------------------------ order

  predicate Updatable(c: Cell) { c.free && !c.final }

  function Bare(c: Cell): Cell { c.(total := 0, optimal := None) }

  // The same cells, at values nowhere higher.
  ghost predicate Leq(cs: seq<Cell>, ds: seq<Cell>) {
    |cs| == |ds| && forall i :: 0 <= i < |cs| ==> Bare(cs[i]) == Bare(ds[i]) && cs[i].total <= ds[i].total
  }

  // No action of the cell overflows.
  ghost predicate SafeAt(w: World, cells: seq<Cell>, s: Cell)
    requires w.Valid() && w.Fits(cells) && 0 <= s.it < w.nt
  {
    forall a :: 0 <= a < |w.actions| && !Barred(w, cells, s, w.actions[a][s.it]) ==>
      ExactSum(w, cells, s, w.actions[a][s.it]) < TWO64
  }

  ghost predicate Safe(w: World, cells: seq<Cell>)
    requires w.Valid() && w.Fits(cells)
  {
    forall i :: 0 <= i < |cells| && Updatable(cells[i]) ==> SafeAt(w, cells, cells[i])
  }

  // Free cells below 2^46 with probabilities adding up to 1 are safe.
  lemma BelowIsSafe(w: World, cells: seq<Cell>)
    requires w.Valid() && w.Fits(cells)
    requires forall i :: 0 <= i < |cells| && cells[i].free ==> cells[i].Toll() < TWO46
    requires forall a, t :: 0 <= a < |w.actions| && 0 <= t < |w.actions[a]| ==> ProbSum(w.actions[a][t]) == PROB_BASE
    ensures Safe(w, cells)
  {
    forall i, a | 0 <= i < |cells| && 0 <= a < |w.actions| && !Barred(w, cells, cells[i], w.actions[a][cells[i].it])
      ensures ExactSum(w, cells, cells[i], w.actions[a][cells[i].it]) < TWO64
    {
      hide ExactSum, World.Successor;
      MeanBetween(w, cells, cells[i], w.actions[a][cells[i].it], 0, TWO46 - 1);
    }
  }

  lemma SuccessorSame(w: World, cs: seq<Cell>, ds: seq<Cell>, s: Cell, s': Cell, tr: Transition)
    requires w.Fits(cs) && w.Fits(ds) && w.nt > 0 && tr.dit + w.nt >= 0 && Leq(cs, ds) && Bare(s) == Bare(s')
    ensures w.Successor(cs, s, tr) == w.Successor(ds, s', tr)
    ensures w.Successor(cs, s, tr).Some? ==>
      cs[w.Successor(cs, s, tr).value].Toll() <= ds[w.Successor(cs, s, tr).value].Toll()
  {
    assert Bare(s).ix == Bare(s').ix && Bare(s).iy == Bare(s').iy;
    assert forall i :: 0 <= i < |cs| ==> Bare(cs[i]).free == Bare(ds[i]).free;
    assert forall i :: 0 <= i < |cs| ==> Bare(cs[i]).penalty == Bare(ds[i]).penalty && Bare(cs[i]).local == Bare(ds[i]).local;
    hide World.Index;
  }

  lemma {:induction false} SumMonotone(w: World, cs: seq<Cell>, ds: seq<Cell>, s: Cell, s': Cell, trs: seq<Transition>)
    requires w.Fits(cs) && w.Fits(ds) && w.nt > 0 && Turning(w, trs) && Leq(cs, ds) && Bare(s) == Bare(s')
    ensures ExactSum(w, cs, s, trs) <= ExactSum(w, ds, s', trs)
    ensures Barred(w, cs, s, trs) <==> Barred(w, ds, s', trs)
  {
    hide World.Successor, Leq, Bare, Term;
    forall k | 0 <= k < |trs|
      ensures w.Successor(cs, s, trs[k]).None? <==> w.Successor(ds, s', trs[k]).None?
    {
      SuccessorSame(w, cs, ds, s, s', trs[k]);
    }
    if |trs| > 0 {
      var n := |trs| - 1;
      SumMonotone(w, cs, ds, s, s', trs[..n]);
      SuccessorSame(w, cs, ds, s, s', trs[n]);
      var to := w.Successor(cs, s, trs[n]);
      if to.Some? { TermStep(cs[to.value].Toll(), ds[to.value].Toll(), ds[to.value].Toll(), trs[n].prob, 0); }
    }
  }

  lemma RawMonotone(w: World, cs: seq<Cell>, ds: seq<Cell>, s: Cell, s': Cell, trs: seq<Transition>)
    requires w.Fits(cs) && w.Fits(ds) && w.nt > 0 && Turning(w, trs) && Leq(cs, ds) && Bare(s) == Bare(s')
    requires !Barred(w, ds, s', trs) ==> ExactSum(w, ds, s', trs) < TWO64
    ensures RawCost(w, cs, s, trs) <= RawCost(w, ds, s', trs)
    ensures !Barred(w, cs, s, trs) ==> ExactSum(w, cs, s, trs) < TWO64
  {
    SumMonotone(w, cs, ds, s, s', trs);
    hide Barred, ExactSum, Leq, Bare;
    var a, b := ExactSum(w, cs, s, trs), ExactSum(w, ds, s', trs);
    WrapExact(a);
    WrapExact(b);
  }

  lemma {:induction false} CheapestMonotone(w: World, cs: seq<Cell>, ds: seq<Cell>, s: Cell, s': Cell, n: nat)
    requires w.Valid() && w.Fits(cs) && w.Fits(ds) && n <= |w.actions| && 0 <= s.it < w.nt
    requires Leq(cs, ds) && Bare(s) == Bare(s') && s.it == s'.it && SafeAt(w, ds, s')
    ensures Cheapest(w, cs, s, n).0 <= Cheapest(w, ds, s', n).0 && SafeAt(w, cs, s)
  {
    hide RawCost, Barred, ExactSum, Leq, Bare;
    forall a | 0 <= a < |w.actions| && !Barred(w, cs, s, w.actions[a][s.it])
      ensures ExactSum(w, cs, s, w.actions[a][s.it]) < TWO64
    {
      RawMonotone(w, cs, ds, s, s', w.actions[a][s.it]);
    }
    if n > 0 {
      CheapestMonotone(w, cs, ds, s, s', n - 1);
      RawMonotone(w, cs, ds, s, s', w.actions[n - 1][s.it]);
    }
  }

  // No update can raise a value.
  ghost predicate Settling(w: World, cells: seq<Cell>)
    requires w.Valid() && w.Fits(cells)
  {
    forall i :: 0 <= i < |cells| && Updatable(cells[i]) ==> Cheapest(w, cells, cells[i], |w.actions|).0 <= cells[i].total
  }

  // No update can lower a value.
  ghost predicate Rising(w: World, cells: seq<Cell>)
    requires w.Valid() && w.Fits(cells)
  {
    forall i :: 0 <= i < |cells| && Updatable(cells[i]) ==> cells[i].total <= Cheapest(w, cells, cells[i], |w.actions|).0
  }

  // No update changes anything.
  ghost predicate AtRest(w: World, cells: seq<Cell>)
    requires w.Valid() && w.Fits(cells)
  {
    forall i: nat :: Upd(w, cells, i) == cells
  }

  function Run(w: World, cells: seq<Cell>, order: seq<nat>): (r: seq<Cell>)
    requires w.Valid() && w.Fits(cells)
    ensures |r| == |cells| && w.Fits(r)
  {
    if |order| == 0 then cells else Upd(w, Run(w, cells, order[..|order| - 1]), order[|order| - 1])
  }

  ghost predicate Descending(w: World, cells: seq<Cell>)
    requires w.Valid() && w.Fits(cells)
  {
    Safe(w, cells) && Settling(w, cells)
  }

  // Leq between the same cells, cell by cell.
  lemma LeqAt(cs: seq<Cell>, ds: seq<Cell>, i: nat)
    requires Leq(cs, ds) && i < |cs|
    ensures Bare(cs[i]) == Bare(ds[i]) && cs[i].total <= ds[i].total && cs[i].it == ds[i].it
    ensures Updatable(cs[i]) == Updatable(ds[i])
  {
    var (c, d) := (Bare(cs[i]), Bare(ds[i]));
    assert c.it == d.it && c.free == d.free && c.final == d.final;
  }

  lemma DescendsTo(w: World, cs: seq<Cell>, ds: seq<Cell>, i: nat)
    requires w.Valid() && w.Fits(cs) && w.Fits(ds) && Leq(cs, ds) && Safe(w, ds) && i < |cs| && Updatable(ds[i])
    ensures Updatable(cs[i]) && SafeAt(w, cs, cs[i])
    ensures Cheapest(w, cs, cs[i], |w.actions|).0 <= Cheapest(w, ds, ds[i], |w.actions|).0
  {
    LeqAt(cs, ds, i);
    hide Leq, Bare, SafeAt, Cheapest, Updatable;
    CheapestMonotone(w, cs, ds, cs[i], ds[i], |w.actions|);
  }

  lemma UpdLowers(w: World, cells: seq<Cell>, idx: nat)
    requires w.Valid() && w.Fits(cells) && Settling(w, cells)
    ensures Leq(Upd(w, cells, idx), cells)
  {
    hide Cheapest;
  }

  // One update of a descending table lowers it, and leaves it descending.
  lemma UpdDescends(w: World, cells: seq<Cell>, idx: nat)
    requires w.Valid() && w.Fits(cells) && Descending(w, cells)
    ensures Leq(Upd(w, cells, idx), cells) && Descending(w, Upd(w, cells, idx))
  {
    var r := Upd(w, cells, idx);
    UpdLowers(w, cells, idx);
    hide Leq, SafeAt, Cheapest, Updatable;
    forall i | 0 <= i < |r| && Updatable(r[i])
      ensures SafeAt(w, r, r[i]) && Cheapest(w, r, r[i], |w.actions|).0 <= r[i].total
    {
      LeqAt(r, cells, i);
      DescendsTo(w, r, cells, i);
    }
  }

  lemma LeqTrans(a: seq<Cell>, b: seq<Cell>, c: seq<Cell>)
    requires Leq(a, b) && Leq(b, c)
    ensures Leq(a, c)
  {
    hide Bare;
  }

  // A run from a descending table never raises a value.
  lemma {:induction false} RunDescends(w: World, cells: seq<Cell>, order: seq<nat>)
    requires w.Valid() && w.Fits(cells) && Descending(w, cells)
    ensures Leq(Run(w, cells, order), cells) && Descending(w, Run(w, cells, order))
  {
    if |order| > 0 {
      var n := |order| - 1;
      var P := Run(w, cells, order[..n]);
      RunDescends(w, cells, order[..n]);
      hide Descending, Leq, Upd;
      UpdDescends(w, P, order[n]);
      LeqTrans(Upd(w, P, order[n]), P, cells);
    }
  }

  lemma UpdAbove(w: World, F: seq<Cell>, cells: seq<Cell>, idx: nat)
    requires w.Valid() && w.Fits(F) && w.Fits(cells) && Rising(w, F) && Leq(F, cells) && Safe(w, cells)
    ensures Leq(F, Upd(w, cells, idx))
  {
    if idx < |cells| && Updatable(cells[idx]) {
      LeqAt(F, cells, idx);
      DescendsTo(w, F, cells, idx);
    }
    hide Cheapest, Safe;
  }

  // It never drops below a rising table either.
  lemma {:induction false} RunAbove(w: World, F: seq<Cell>, cells: seq<Cell>, order: seq<nat>)
    requires w.Valid() && w.Fits(F) && w.Fits(cells) && Rising(w, F) && Leq(F, cells) && Descending(w, cells)
    ensures Leq(F, Run(w, cells, order))
  {
    if |order| > 0 {
      var n := |order| - 1;
      RunAbove(w, F, cells, order[..n]);
      RunDescends(w, cells, order[..n]);
      hide Leq, Rising, Upd;
      UpdAbove(w, F, Run(w, cells, order[..n]), order[n]);
    }
  }

  lemma {:induction false} CheapestSame(w: World, cs: seq<Cell>, ds: seq<Cell>, s: Cell, s': Cell, n: nat)
    requires w.Valid() && w.Fits(cs) && w.Fits(ds) && n <= |w.actions| && 0 <= s.it < w.nt && s.it == s'.it
    requires Leq(cs, ds) && Leq(ds, cs) && Bare(s) == Bare(s') && SafeAt(w, ds, s') && SafeAt(w, cs, s)
    ensures Cheapest(w, cs, s, n) == Cheapest(w, ds, s', n)
  {
    hide RawCost, Barred, ExactSum, Leq, Bare;
    if n > 0 {
      CheapestSame(w, cs, ds, s, s', n - 1);
      var trs := w.actions[n - 1][s.it];
      assert RawCost(w, cs, s, trs) == RawCost(w, ds, s', trs) by {
        RawMonotone(w, cs, ds, s, s', trs);
        RawMonotone(w, ds, cs, s', s, trs);
      }
      hide SafeAt, World.Valid, World.Fits;
    }
  }

  lemma RestRises(w: World, cells: seq<Cell>)
    requires w.Valid() && w.Fits(cells) && AtRest(w, cells)
    ensures Rising(w, cells)
    ensures forall i :: 0 <= i < |cells| && Updatable(cells[i]) ==>
      cells[i].optimal == Cheapest(w, cells, cells[i], |w.actions|).1
  {
    hide Cheapest;
    forall i | 0 <= i < |cells| && Updatable(cells[i])
      ensures cells[i].total == Cheapest(w, cells, cells[i], |w.actions|).0
      ensures cells[i].optimal == Cheapest(w, cells, cells[i], |w.actions|).1
    {
      assert Upd(w, cells, i)[i] == cells[i];
    }
  }

  // Cells that are never updated keep even their recorded action.
  lemma {:induction false} RunKeeps(w: World, cells: seq<Cell>, order: seq<nat>, i: nat)
    requires w.Valid() && w.Fits(cells) && i < |cells| && !Updatable(cells[i])
    ensures Run(w, cells, order)[i] == cells[i]
  {
    if |order| > 0 {
      RunKeeps(w, cells, order[..|order| - 1], i);
      hide Cheapest;
    }
  }

  lemma LeqBoth(a: seq<Cell>, b: seq<Cell>, i: nat)
    requires Leq(a, b) && Leq(b, a) && i < |a| && a[i].optimal == b[i].optimal
    ensures a[i] == b[i]
  {
    LeqAt(a, b, i);
    var (c, d) := (Bare(a[i]), Bare(b[i]));
    assert c.penalty == d.penalty && c.local == d.local && c.ix == d.ix && c.iy == d.iy && c.free == d.free && c.final == d.final;
  }

  // From a descending table all visiting orders that come to rest give the same
  // values and the same recorded actions.
  lemma {:induction false} OrdersAgree(w: World, cells: seq<Cell>, x: seq<nat>, y: seq<nat>)
    requires w.Valid() && w.Fits(cells) && Descending(w, cells)
    requires AtRest(w, Run(w, cells, x)) && AtRest(w, Run(w, cells, y))
    ensures Run(w, cells, x) == Run(w, cells, y)
  {
    var A, B := Run(w, cells, x), Run(w, cells, y);
    RunDescends(w, cells, x);
    RunDescends(w, cells, y);
    RestRises(w, A);
    RestRises(w, B);
    RunAbove(w, A, cells, y);
    RunAbove(w, B, cells, x);
    hide Leq, Cheapest, AtRest, Rising, Settling, SafeAt, Updatable, Run;
    forall i | 0 <= i < |A|
      ensures A[i] == B[i]
    {
      LeqAt(A, B, i);
      LeqAt(A, cells, i);
      if Updatable(A[i]) {
        CheapestSame(w, A, B, A[i], B[i], |w.actions|);
      } else {
        RunKeeps(w, cells, x, i);
        RunKeeps(w, cells, y, i);
      }
      LeqBoth(A, B, i);
    }
  }

  // ------------------------------------------------------------ coming to rest

  // The order o, m times.
  function Repeat(o: seq<nat>, m: nat): seq<nat> { if m == 0 then [] else o + Repeat(o, m - 1) }

  function Mass(cells: seq<Cell>): nat {
    if |cells| == 0 then 0 else Mass(cells[..|cells| - 1]) + cells[|cells| - 1].total
  }

  ghost predicate Covers(cells: seq<Cell>, o: seq<nat>) { forall i: nat :: i < |cells| && Updatable(cells[i]) ==> i in o }

  lemma {:induction false} RunAppend(w: World, cells: seq<Cell>, x: seq<nat>, y: seq<nat>)
    requires w.Valid() && w.Fits(cells)
    ensures Run(w, cells, x + y) == Run(w, Run(w, cells, x), y)
  {
    hide Upd;
    if |y| == 0 {
      assert x + y == x;
    } else {
      RunAppend(w, cells, x, y[..|y| - 1]);
      assert (x + y)[..|x + y| - 1] == x + y[..|y| - 1];
    }
  }

  // A lower table has the smaller sum of values, and the same one only if no
  // value differs.
  lemma {:induction false} MassLeq(cs: seq<Cell>, ds: seq<Cell>)
    requires Leq(cs, ds)
    ensures Mass(cs) <= Mass(ds) && (Mass(cs) == Mass(ds) ==> Leq(ds, cs))
  {
    hide Bare;
    if |cs| > 0 {
      var n := |cs| - 1;
      MassLeq(cs[..n], ds[..n]);
      assert cs == cs[..n] + [cs[n]] && ds == ds[..n] + [ds[n]];
    }
  }

  // Cell i of r holds what one update from `cells` would record.
  ghost predicate Recorded(w: World, cells: seq<Cell>, r: seq<Cell>, i: nat)
    requires w.Valid() && w.Fits(cells) && i < |cells| && i < |r|
  {
    (r[i].total, r[i].optimal) == Cheapest(w, cells, cells[i], |w.actions|)
  }

  // The same values: the same best actions.
  lemma SameBest(w: World, cells: seq<Cell>, r: seq<Cell>, i: nat)
    requires w.Valid() && w.Fits(cells) && w.Fits(r) && Descending(w, cells) && Descending(w, r)
    requires Leq(cells, r) && Leq(r, cells) && i < |r| && Updatable(r[i])
    ensures Updatable(cells[i]) && Cheapest(w, r, r[i], |w.actions|) == Cheapest(w, cells, cells[i], |w.actions|)
  {
    LeqAt(r, cells, i);
    hide Leq, Bare, Cheapest, SafeAt, Settling, Updatable;
    CheapestSame(w, r, cells, r[i], cells[i], |w.actions|);
  }

  // Where a run changes no value, each visited cell holds its best action.
  lemma {:induction false} QuietRun(w: World, cells: seq<Cell>, o: seq<nat>, n: nat)
    requires w.Valid() && w.Fits(cells) && Descending(w, cells) && n <= |o| && Leq(cells, Run(w, cells, o))
    ensures var r := Run(w, cells, o[..n]);
            && Leq(cells, r) && Leq(r, cells) && Descending(w, r)
            && forall i: nat :: i in o[..n] && i < |r| && Updatable(r[i]) ==> Recorded(w, cells, r, i)
  {
    hide Leq, Descending, Cheapest, Updatable, Upd, Recorded;
    var r := Run(w, cells, o[..n]);
    RunDescends(w, cells, o[..n]);
    assert o[..n] + o[n..] == o;
    RunAppend(w, cells, o[..n], o[n..]);
    RunDescends(w, r, o[n..]);
    LeqTrans(cells, Run(w, cells, o), r);
    if n > 0 {
      QuietRun(w, cells, o, n - 1);
      assert o[..n][..n - 1] == o[..n - 1] && o[..n] == o[..n - 1] + [o[n - 1]];
      QuietStep(w, cells, Run(w, cells, o[..n - 1]), o[..n - 1], o[n - 1]);
    }
  }

  lemma QuietStep(w: World, cells: seq<Cell>, P: seq<Cell>, seen: seq<nat>, k: nat)
    requires w.Valid() && w.Fits(cells) && w.Fits(P) && Descending(w, cells) && Descending(w, P) && Leq(cells, P) && Leq(P, cells)
    requires forall i: nat :: i in seen && i < |P| && Updatable(P[i]) ==> i < |cells| && Recorded(w, cells, P, i)
    ensures var r := Upd(w, P, k);
            forall i: nat :: i in seen + [k] && i < |r| && Updatable(r[i]) ==> i < |cells| && Recorded(w, cells, r, i)
  {
    hide Leq, Descending, Cheapest, Bare;
    assert |P| == |cells|;
    if k < |P| && Updatable(P[k]) {
      SameBest(w, cells, P, k);
    }
  }

  // A covering sweep that changes no value leaves a table at rest.
  lemma QuietSweep(w: World, cells: seq<Cell>, o: seq<nat>)
    requires w.Valid() && w.Fits(cells) && Descending(w, cells) && Covers(cells, o) && Leq(cells, Run(w, cells, o))
    ensures AtRest(w, Run(w, cells, o))
  {
    var r := Run(w, cells, o);
    assert o[..|o|] == o;
    QuietRun(w, cells, o, |o|);
    hide Leq, Descending, Cheapest, Run, Updatable;
    forall i: nat
      ensures Upd(w, r, i) == r
    {
      if i < |r| && Updatable(r[i]) {
        SameBest(w, cells, r, i);
        assert Recorded(w, cells, r, i);
        RecordedStays(w, r, i);
      } else {
        PinnedStays(w, r, i);
      }
    }
  }

  lemma RecordedStays(w: World, r: seq<Cell>, i: nat)
    requires w.Valid() && w.Fits(r) && i < |r| && (r[i].total, r[i].optimal) == Cheapest(w, r, r[i], |w.actions|)
    ensures Upd(w, r, i) == r
  {
    hide Cheapest;
  }

  lemma PinnedStays(w: World, r: seq<Cell>, i: nat)
    requires w.Valid() && w.Fits(r) && (i >= |r| || !Updatable(r[i]))
    ensures Upd(w, r, i) == r
  {
  }

  lemma {:induction false} RestStays(w: World, cells: seq<Cell>, o: seq<nat>)
    requires w.Valid() && w.Fits(cells) && AtRest(w, cells)
    ensures Run(w, cells, o) == cells
  {
    hide Upd;
    if |o| > 0 { RestStays(w, cells, o[..|o| - 1]); }
  }

  lemma CoversSame(cs: seq<Cell>, ds: seq<Cell>, o: seq<nat>)
    requires Leq(cs, ds) && Covers(ds, o)
    ensures Covers(cs, o)
  {
    hide Bare, Updatable;
    forall i: nat | i < |cs| && Updatable(cs[i])
      ensures i in o
    {
      assert |cs| == |ds|;
      LeqAt(cs, ds, i);
    }
  }

  // From a descending table every covering sweep, repeated, comes to rest: once
  // it was made more often than the values add up to.
  lemma {:induction false} ComesToRest(w: World, cells: seq<Cell>, o: seq<nat>, m: nat)
    requires w.Valid() && w.Fits(cells) && Descending(w, cells) && Covers(cells, o) && m > Mass(cells)
    ensures AtRest(w, Run(w, cells, Repeat(o, m)))
    decreases m
  {
    hide Leq, Descending, Covers, Run, AtRest, Mass;
    var r := Run(w, cells, o);
    RunDescends(w, cells, o);
    MassLeq(r, cells);
    RunAppend(w, cells, o, Repeat(o, m - 1));
    if Mass(r) == Mass(cells) {
      QuietSweep(w, cells, o);
      RestStays(w, r, Repeat(o, m - 1));
    } else {
      CoversSame(r, cells, o);
      ComesToRest(w, r, o, m - 1);
    }
  }

  // So any two covering sweeps end in the same values and recorded actions.
  lemma SweepsAgree(w: World, cells: seq<Cell>, o: seq<nat>, o': seq<nat>, m: nat, m': nat)
    requires w.Valid() && w.Fits(cells) && Descending(w, cells) && Covers(cells, o) && Covers(cells, o')
    requires m > Mass(cells) && m' > Mass(cells)
    ensures Run(w, cells, Repeat(o, m)) == Run(w, cells, Repeat(o', m'))
  {
    hide Descending, Covers, Run, AtRest, Mass;
    ComesToRest(w, cells, o, m);
    ComesToRest(w, cells, o', m');
    OrdersAgree(w, cells, Repeat(o, m), Repeat(o', m'));
  }
}
