// The operations of the sparse belief, in sum-product mode, over reals. Each
// is proved against the dense operation it stands for.
module SparseBelief {
  import opened Sums
  import opened Basics
  import opened Belief

  // The active list is exactly the support of a non-negative vector, without
  // repetition, and only free cells carry mass.
  ghost predicate Sparse(g: Grid, v: seq<real>, active: seq<nat>)
    requires g.Valid()
  {
    && |v| == g.Size() && Distinct(active)
    && (forall i :: i in active ==> i < |v|)
    && (forall i :: 0 <= i < |v| ==> v[i] >= 0.0 && (i in active <==> v[i] > 0.0))
    && (forall i :: i in active && i < |v| ==> g.FreeAt(i))
  }

  ghost predicate AllZero(v: seq<real>) { forall i :: 0 <= i < |v| ==> v[i] == 0.0 }

  function Times(a: real, b: real): real { a * b }

  lemma ProductSign(a: real, b: real)
    requires a >= 0.0 && b >= 0.0
    ensures Times(a, b) >= 0.0 && (Times(a, b) > 0.0 <==> a > 0.0 && b > 0.0) && (a == 0.0 ==> Times(a, b) == 0.0)
  {
  }

  lemma ZeroTimes(a: real, b: real)
    requires a == 0.0
    ensures Times(a, b) == 0.0
  {
  }

  // ------------------------------------------------------------ aims

  // Mass of the list that arrives at j, anywhere, and nowhere.
  ghost function Arrive(ts: seq<Aim>, j: nat): real {
    if |ts| == 0 then 0.0
    else Arrive(ts[..|ts| - 1], j) + if ts[|ts| - 1].to == Some(j) then ts[|ts| - 1].w else 0.0
  }

  ghost function Landed(ts: seq<Aim>): real {
    if |ts| == 0 then 0.0 else Landed(ts[..|ts| - 1]) + if ts[|ts| - 1].to.Some? then ts[|ts| - 1].w else 0.0
  }

  ghost function Missed(ts: seq<Aim>): real {
    if |ts| == 0 then 0.0 else Missed(ts[..|ts| - 1]) + if ts[|ts| - 1].to.None? then ts[|ts| - 1].w else 0.0
  }

  // Aims go to free cells of the grid, with non-negative weights.
  ghost predicate GoodAims(g: Grid, ts: seq<Aim>)
    requires g.Valid()
  {
    forall k :: 0 <= k < |ts| ==>
      ts[k].w >= 0.0 && (ts[k].to.Some? ==> ts[k].to.value < g.Size() && g.FreeAt(ts[k].to.value))
  }

  // ------------------------------------------------------------ deposit

  function Positive(m: real): real { if m > 0.0 then m else 0.0 }

  // Add a positive mass to a cell; its first touch records the cell.
  method Deposit(g: Grid, s: array<real>, cand: seq<nat>, j: nat, m: real) returns (cand': seq<nat>)
    requires g.Valid() && Sparse(g, s[..], cand) && j < g.Size() && g.FreeAt(j)
    modifies s
    ensures Sparse(g, s[..], cand') && s[..] == old(s[..])[j := old(s[j]) + Positive(m)]
    ensures Total(s[..]) == Total(old(s[..])) + Positive(m)
  {
    hide Grid.FreeAt, Grid.Valid;
    cand' := cand;
    TotalWrite(s[..], j, s[j] + Positive(m));
    if m > 0.0 {
      if s[j] == 0.0 {
        cand' := cand' + [j];
      }
      s[j] := s[j] + m;
    }
    assert s[..] == old(s[..])[j := old(s[j]) + Positive(m)];
  }

  // s1 is s0 with the mass w deposited along the aims.
  ghost predicate Grown(s0: seq<real>, s1: seq<real>, w: real, ts: seq<Aim>) {
    && |s1| == |s0|
    && (forall j :: 0 <= j < |s0| ==> s1[j] == s0[j] + Times(w, Arrive(ts, j)))
    && Total(s1) == Total(s0) + Times(w, Landed(ts))
  }

  lemma GrownNext(s0: seq<real>, s1: seq<real>, s2: seq<real>, w: real, ts: seq<Aim>, k: nat)
    requires k < |ts| && Grown(s0, s1, w, ts[..k]) && Grown(s1, s2, w, [ts[k]])
    ensures Grown(s0, s2, w, ts[..k + 1])
  {
    hide Times, Total;
    assert ts[..k + 1][..k] == ts[..k] && [ts[k]][..0] == [];
    forall j | 0 <= j < |s0|
      ensures s2[j] == s0[j] + Times(w, Arrive(ts[..k + 1], j))
    {
      assert Arrive([ts[k]], j) == 0.0 + if ts[k].to == Some(j) then ts[k].w else 0.0;
      ScaleAdd(w, Arrive(ts[..k], j), Arrive([ts[k]], j));
    }
    assert Landed([ts[k]]) == 0.0 + if ts[k].to.Some? then ts[k].w else 0.0;
    ScaleAdd(w, Landed(ts[..k]), Landed([ts[k]]));
  }

  lemma GrownNone(s: seq<real>, w: real)
    ensures Grown(s, s, w, [])
  {
  }

  lemma GrownOne(s0: seq<real>, s1: seq<real>, w: real, a: Aim)
    requires |s1| == |s0| && w > 0.0 && a.w >= 0.0
    requires if a.to.None? then s1 == s0
             else a.to.value < |s0| && s1 == s0[a.to.value := s0[a.to.value] + Positive(w * a.w)]
                  && Total(s1) == Total(s0) + Positive(w * a.w)
    ensures Grown(s0, s1, w, [a])
  {
    assert [a][..0] == [];
    assert forall j: nat :: Arrive([a], j) == 0.0 + if a.to == Some(j) then a.w else 0.0;
    assert Landed([a]) == 0.0 + if a.to.Some? then a.w else 0.0;
    ScaleAdd(w, 0.0, a.w);
    assert w * 0.0 == 0.0 && Positive(w * a.w) == w * a.w;
    hide Total;
  }

  method DepositAim(g: Grid, s: array<real>, cand: seq<nat>, w: real, a: Aim) returns (cand': seq<nat>)
    requires g.Valid() && Sparse(g, s[..], cand) && GoodAims(g, [a]) && w > 0.0
    modifies s
    ensures Sparse(g, s[..], cand') && Grown(old(s[..]), s[..], w, [a])
  {
    assert [a][0] == a;
    ghost var s0 := s[..];
    hide Total, Grid.FreeAt, Grown;
    if a.to.None? {
      cand' := cand;
    } else {
      assert a.to.value < s.Length && g.FreeAt(a.to.value);
      cand' := Deposit(g, s, cand, a.to.value, w * a.w);
    }
    GrownOne(s0, s[..], w, a);
  }

  // Deposit the mass w of one cell along its aims.
  method ScatterCell(g: Grid, s: array<real>, cand: seq<nat>, w: real, ts: seq<Aim>) returns (cand': seq<nat>)
    requires g.Valid() && Sparse(g, s[..], cand) && GoodAims(g, ts) && w > 0.0
    modifies s
    ensures Sparse(g, s[..], cand') && Grown(old(s[..]), s[..], w, ts)
  {
    cand' := cand;
    ghost var s0 := s[..];
    GrownNone(s0, w);
    assert ts[..|ts|] == ts && ts[..0] == [];
    hide Sparse, Grown;
    for k := 0 to |ts|
      invariant Sparse(g, s[..], cand') && Grown(s0, s[..], w, ts[..k])
    {
      ghost var s1 := s[..];
      cand' := DepositAim(g, s, cand', w, ts[k]);
      GrownNext(s0, s1, s[..], w, ts, k);
    }
  }

  lemma ScaleAdd(w: real, a: real, b: real)
    ensures Times(w, a + b) == Times(w, a) + Times(w, b)
    ensures w > 0.0 && b >= 0.0 ==> w * b >= 0.0
  {
  }

  // ------------------------------------------------------------ dense transport

  // What cell i of v sends to j, sends anywhere, and loses.
  ghost function Flow(v: seq<real>, aims: nat -> seq<Aim>, j: nat): nat -> real {
    (i: nat) => if i < |v| then Times(v[i], Arrive(aims(i), j)) else 0.0
  }

  ghost function Carry(v: seq<real>, aims: nat -> seq<Aim>): nat -> real {
    (i: nat) => if i < |v| then Times(v[i], Landed(aims(i))) else 0.0
  }

  ghost function Loss(v: seq<real>, aims: nat -> seq<Aim>): nat -> real {
    (i: nat) => if i < |v| then Times(v[i], Missed(aims(i))) else 0.0
  }

  // r is the dense transport of v: every cell collects what all cells send it.
  ghost predicate Transported(v: seq<real>, aims: nat -> seq<Aim>, r: seq<real>) {
    && |r| == |v|
    && (forall j :: 0 <= j < |v| ==> r[j] == SumOver(Iota(|v|), Flow(v, aims, j)))
    && Total(r) == SumOver(Iota(|v|), Carry(v, aims))
  }

  ghost predicate Lossy(v: seq<real>, aims: nat -> seq<Aim>, r: seq<real>) {
    Total(r) == Total(v) - SumOver(Iota(|v|), Loss(v, aims))
  }

  // When each cell's aims have total weight 1, the mass lost is exactly what
  // was aimed at blocked cells or outside the map.
  lemma MassAccount(g: Grid, v: seq<real>, active: seq<nat>, aims: nat -> seq<Aim>, r: seq<real>)
    requires g.Valid() && Sparse(g, v, active) && Transported(v, aims, r)
    requires forall i :: i in active ==> Landed(aims(i)) + Missed(aims(i)) == 1.0
    ensures Lossy(v, aims, r)
  {
    var o := Iota(|v|);
    forall i | i in o
      ensures Carry(v, aims)(i) == 1.0 * Entry(v)(i) + -1.0 * Loss(v, aims)(i)
    {
      if i in active {
        ScaleAdd(v[i], Landed(aims(i)), Missed(aims(i)));
      } else {
        assert v[i] == 0.0;
      }
    }
    SumLinear(o, Entry(v), Loss(v, aims), Carry(v, aims), 1.0, -1.0);
  }

  // ------------------------------------------------------------ moving all active cells

  // The vector after the first k active cells were taken out.
  ghost predicate TakenOut(v0: seq<real>, v: seq<real>, active: seq<nat>, k: nat)
    requires k <= |active|
  {
    |v| == |v0| && forall i :: 0 <= i < |v| ==> v[i] == if i in active[..k] then 0.0 else v0[i]
  }

  // The scratch vector after the first k active cells were scattered.
  ghost predicate ScatteredSo(v0: seq<real>, s: seq<real>, aims: nat -> seq<Aim>, order: seq<nat>) {
    && |s| == |v0|
    && (forall j :: 0 <= j < |s| ==> s[j] == SumOver(order, Flow(v0, aims, j)))
    && Total(s) == SumOver(order, Carry(v0, aims))
  }

  lemma ScatteredNext(v0: seq<real>, s: seq<real>, s': seq<real>, aims: nat -> seq<Aim>, order: seq<nat>, i: nat)
    requires ScatteredSo(v0, s, aims, order) && i < |v0| && Grown(s, s', v0[i], aims(i))
    ensures ScatteredSo(v0, s', aims, order + [i])
  {
    hide Total, Arrive, Landed;
    forall j | 0 <= j < |s'|
      ensures s'[j] == SumOver(order + [i], Flow(v0, aims, j))
    {
      SumSnoc(order, i, Flow(v0, aims, j));
    }
    SumSnoc(order, i, Carry(v0, aims));
  }

  lemma ScatteredNone(v0: seq<real>, s: seq<real>, aims: nat -> seq<Aim>)
    requires |s| == |v0| && AllZero(s)
    ensures ScatteredSo(v0, s, aims, [])
  {
    TotalZero(s);
  }

  // Scattering the support scatters everything.
  lemma ScatteredAll(g: Grid, v0: seq<real>, active: seq<nat>, s: seq<real>, aims: nat -> seq<Aim>)
    requires g.Valid() && Sparse(g, v0, active) && ScatteredSo(v0, s, aims, active)
    ensures Transported(v0, aims, s)
  {
    hide Total, Arrive, Landed, Grid.FreeAt;
    forall j | 0 <= j < |v0|
      ensures s[j] == SumOver(Iota(|v0|), Flow(v0, aims, j))
    {
      ZeroOutside(g, v0, active, aims, j);
      SparseSum(active, |v0|, Flow(v0, aims, j));
    }
    ZeroOutside(g, v0, active, aims, 0);
    SparseSum(active, |v0|, Carry(v0, aims));
  }

  // Empty cells send nothing.
  lemma ZeroOutside(g: Grid, v: seq<real>, active: seq<nat>, aims: nat -> seq<Aim>, j: nat)
    requires g.Valid() && Sparse(g, v, active)
    ensures forall i :: 0 <= i < |v| && i !in active ==> Flow(v, aims, j)(i) == 0.0 && Carry(v, aims)(i) == 0.0
  {
    hide Grid.FreeAt, Arrive, Landed, Times;
    forall i | 0 <= i < |v| && i !in active
      ensures Flow(v, aims, j)(i) == 0.0 && Carry(v, aims)(i) == 0.0
    {
      ZeroTimes(v[i], Arrive(aims(i), j));
      ZeroTimes(v[i], Landed(aims(i)));
    }
  }

  class Store {
    const g: Grid
    var b: array<real>
    var scratch: array<real>
    var active: seq<nat>

    ghost predicate Valid()
      reads this, b, scratch
    {
      && g.Valid() && b != scratch && b.Length == scratch.Length == g.Size()
      && Sparse(g, b[..], active) && AllZero(scratch[..])
    }

    // Total mass 1, or nothing at all.
    ghost predicate Normal()
      reads this, b, scratch
    {
      Valid() && (active == [] || Total(b[..]) == 1.0)
    }

    // Scatter every active cell along its aims into the scratch vector, swap
    // the two vectors, and make the touched cells the active ones.
    method Scatter(aims: nat -> seq<Aim>)
      requires Valid()
      requires forall i :: i in active ==> GoodAims(g, aims(i))
      modifies this, b, scratch
      ensures Valid() && b == old(scratch) && scratch == old(b)
      ensures Transported(old(b[..]), aims, b[..])
    {
      hide Transported, ScatteredSo, Grown, GoodAims, Arrive, Landed, Grid.FreeAt;
      ghost var v0 := b[..];
      ghost var all := active;
      var cand := [];
      var act := active;
      active := [];
      EmptySparse(g, scratch[..]);
      ScatteredNone(v0, scratch[..], aims);
      assert act[..0] == [] && act[..|act|] == act;
      for k := 0 to |act|
        invariant b == old(b) && scratch == old(scratch) && active == []
        invariant TakenOut(v0, b[..], act, k)
        invariant Sparse(g, scratch[..], cand)
        invariant ScatteredSo(v0, scratch[..], aims, act[..k])
      {
        var i := act[k];
        assert i in all && v0[i] > 0.0 && i !in act[..k];
        assert act[..k + 1] == act[..k] + [i];
        var w := b[i];
        b[i] := 0.0;
        if w <= 0.0 { assert false; continue; }
        ghost var s := scratch[..];
        cand := ScatterCell(g, scratch, cand, w, aims(i));
        ScatteredNext(v0, s, scratch[..], aims, act[..k], i);
      }
      ScatteredAll(g, v0, all, scratch[..], aims);
      assert AllZero(b[..]);
      b, scratch := scratch, b;
      active := cand;
    }

    method SumActive() returns (sum: real)
      requires Valid()
      ensures sum == Total(b[..]) && sum >= 0.0 && (sum > 0.0 <==> active != [])
    {
      sum := 0.0;
      ghost var v := b[..];
      assert active[..0] == [] && active[..|active|] == active;
      hide Total, Sparse, AllZero;
      for k := 0 to |active|
        invariant sum == SumOver(active[..k], Entry(v))
      {
        ActiveAt(g, v, active, k);
        SumSnoc(active[..k], active[k], Entry(v));
        sum := sum + b[active[k]];
      }
      SupportTotal(g, v, active);
    }

    method DivideActive(sum: real)
      requires Valid() && sum > 0.0
      modifies b
      ensures Valid() && b.Length == |old(b[..])|
      ensures forall i :: 0 <= i < b.Length ==> b[i] == old(b[i]) / sum
      ensures sum == Total(old(b[..])) ==> Total(b[..]) == 1.0
    {
      ghost var v0 := b[..];
      assert active[..0] == [] && active[..|active|] == active;
      hide Total, Sparse;
      for k := 0 to |active|
        invariant forall i :: 0 <= i < b.Length ==> b[i] == if i in active[..k] then v0[i] / sum else v0[i]
      {
        ActiveAt(g, v0, active, k);
        b[active[k]] := b[active[k]] / sum;
      }
      DividedSparse(g, v0, b[..], active, sum);
    }

    // Divide the active cells by the total mass, if there is any.
    method NormalizeActive()
      requires Valid()
      modifies b
      ensures Normal() && Normalized(old(b[..]), b[..])
    {
      hide Total, Sparse;
      var sum := SumActive();
      if sum > 0.0 {
        DivideActive(sum);
      }
    }
  }

  lemma ActiveAt(g: Grid, v: seq<real>, active: seq<nat>, k: nat)
    requires g.Valid() && Sparse(g, v, active) && k < |active|
    ensures active[k] < |v| && v[active[k]] > 0.0 && g.FreeAt(active[k])
    ensures active[k] !in active[..k] && active[..k + 1] == active[..k] + [active[k]]
  {
    assert active[k] in active;
  }

  lemma EmptySparse(g: Grid, v: seq<real>)
    requires g.Valid() && |v| == g.Size() && AllZero(v)
    ensures Sparse(g, v, [])
  {
  }

  // r is v scaled to total mass 1, or v itself when it has no mass.
  ghost predicate Normalized(v: seq<real>, r: seq<real>) {
    && |r| == |v|
    && if Total(v) > 0.0 then forall i :: 0 <= i < |v| ==> r[i] == v[i] / Total(v) else r == v
  }

  // The mass of the active cells is the total mass; it is positive unless
  // there is no active cell.
  lemma SupportTotal(g: Grid, v: seq<real>, active: seq<nat>)
    requires g.Valid() && Sparse(g, v, active)
    ensures SumOver(active, Entry(v)) == Total(v)
    ensures Total(v) >= 0.0 && (Total(v) > 0.0 <==> active != [])
  {
    SparseSum(active, |v|, Entry(v));
    SumNonNegative(active, Entry(v));
    if active != [] {
      assert active[0] in active;
    }
  }

  lemma DividedSparse(g: Grid, v: seq<real>, r: seq<real>, active: seq<nat>, sum: real)
    requires g.Valid() && Sparse(g, v, active) && |r| == |v| && sum > 0.0
    requires forall i :: 0 <= i < |v| ==> r[i] == if i in active then v[i] / sum else v[i]
    ensures Sparse(g, r, active)
    ensures forall i :: 0 <= i < |v| ==> r[i] == v[i] / sum
    ensures sum == Total(v) ==> Total(r) == 1.0
  {
    forall i | 0 <= i < |v|
      ensures r[i] == v[i] / sum && (r[i] > 0.0 <==> v[i] > 0.0) && r[i] >= 0.0
    {
      DivideSign(v[i], sum);
    }
    if sum == Total(v) {
      hide Sparse, Total;
      DividedTotal(v, r, sum);
    }
  }

  // Dividing by the total leaves a total of 1.
  lemma DividedTotal(v: seq<real>, r: seq<real>, sum: real)
    requires |r| == |v| && sum == Total(v) > 0.0 && forall i :: 0 <= i < |v| ==> r[i] == v[i] / sum
    ensures Total(r) == 1.0
  {
    var share := 1.0 / sum;
    forall i | i in Iota(|v|)
      ensures Entry(r)(i) == share * Entry(v)(i) + 0.0 * Entry(v)(i)
    {
      ShareOf(v[i], sum);
    }
    Weighted(|v|, v, r, Entry(v), share, 0.0, sum);
    ShareOf(sum, sum);
  }

  lemma ShareOf(x: real, sum: real)
    requires sum > 0.0
    ensures x / sum == (1.0 / sum) * x && sum / sum == 1.0
  {
  }

  // A total whose entries combine two others.
  lemma Weighted(n: nat, v: seq<real>, r: seq<real>, one: nat -> real, a: real, u: real, c: real)
    requires |v| == |r| == n && SumOver(Iota(n), one) == c
    requires forall i :: i in Iota(n) ==> Entry(r)(i) == a * Entry(v)(i) + u * one(i)
    ensures Total(r) == a * Total(v) + u * c
  {
    SumLinear(Iota(n), Entry(v), one, Entry(r), a, u);
  }

  lemma DivideSign(x: real, y: real)
    requires y > 0.0 && x >= 0.0
    ensures x / y >= 0.0 && (x / y > 0.0 <==> x > 0.0) && x / y == (1.0 / y) * x
  {
  }
}
