// The operations that rewrite the belief in place: seeding, the uniform reset,
// mixing with the uniform, observing with pruning, and reseeding.
module BeliefUpdate {
  import opened Sums
  import opened Basics
  import opened Belief
  import opened SparseBelief
  import opened BeliefMotion

  // ------------------------------------------------------------ clearing

  // Zero the active cells and forget them.
  method ClearActive(s: Store)
    requires s.Valid()
    modifies s`active, s.b
    ensures s.Valid() && s.active == [] && AllZero(s.b[..])
  {
    ghost var v := s.b[..];
    assert s.active[..|s.active|] == s.active;
    for k := 0 to |s.active|
      invariant s.active == old(s.active)
      invariant forall i :: 0 <= i < s.b.Length ==> s.b[i] == if i in s.active[..k] then 0.0 else v[i]
    {
      ActiveAt(s.g, v, s.active, k);
      s.b[s.active[k]] := 0.0;
    }
    s.active := [];
    EmptySparse(s.g, s.b[..]);
  }

  // ------------------------------------------------------------ filling the free states

  ghost function Share(g: Grid, w: nat -> real, i: nat): real
    requires g.Valid() && i < g.Size()
  {
    if g.FreeAt(i) then w(i) else 0.0
  }

  // Every state below p got its share; `active` lists those with one.
  ghost predicate LaidTo(g: Grid, v0: seq<real>, v: seq<real>, active: seq<nat>, w: nat -> real, p: nat)
    requires g.Valid()
  {
    && |v| == |v0| == g.Size() && Distinct(active)
    && (forall i :: 0 <= i < |v| ==> v[i] == if i < p then v0[i] + Share(g, w, i) else v0[i])
    && (forall i: nat :: i in active <==> i < p && i < g.Size() && g.FreeAt(i) && w(i) > 0.0)
  }

  // One state of the fill: skip blocked cells and zero weights.
  method LayCell(s: Store, ghost v0: seq<real>, w: nat -> real, x: nat, y: nat, t: nat)
    requires s.g.Valid() && s.g.InMap(x, y) && t < s.g.nt && (forall i :: w(i) >= 0.0)
    requires s.g.Idx(x, y, t) >= 0 && LaidTo(s.g, v0, s.b[..], s.active, w, s.g.Idx(x, y, t))
    modifies s`active, s.b
    ensures LaidTo(s.g, v0, s.b[..], s.active, w, s.g.Idx(x, y, t) + 1)
  {
    var i := s.g.Idx(x, y, t);
    s.g.DecodeIdx(x, y, t);
    s.g.PlaneRange(x, y);
    hide Grid.Idx, Grid.X, Grid.Y, Grid.T;
    if !s.g.free[y * s.g.nx + x] { return; }
    if w(i) > 0.0 {
      s.b[i] := s.b[i] + w(i);
      s.active := s.active + [i];
    }
  }

  method LayRow(s: Store, ghost v0: seq<real>, w: nat -> real, y: nat, t: nat)
    requires s.g.Valid() && y < s.g.ny && t < s.g.nt && (forall i :: w(i) >= 0.0)
    requires s.g.Idx(0, y, t) >= 0 && LaidTo(s.g, v0, s.b[..], s.active, w, s.g.Idx(0, y, t))
    modifies s`active, s.b
    ensures s.g.Idx(0, y + 1, t) >= 0 && LaidTo(s.g, v0, s.b[..], s.active, w, s.g.Idx(0, y + 1, t))
  {
    RowStarts(s.g, y, t);
    hide LaidTo, Grid.Idx;
    for x := 0 to s.g.nx
      invariant s.g.Idx(x, y, t) == s.g.Idx(0, y, t) + x && LaidTo(s.g, v0, s.b[..], s.active, w, s.g.Idx(x, y, t))
    {
      IdxStep(s.g, x, y, t);
      LayCell(s, v0, w, x, y, t);
    }
  }

  method LayPlane(s: Store, ghost v0: seq<real>, w: nat -> real, t: nat)
    requires s.g.Valid() && t < s.g.nt && (forall i :: w(i) >= 0.0)
    requires s.g.Idx(0, 0, t) >= 0 && LaidTo(s.g, v0, s.b[..], s.active, w, s.g.Idx(0, 0, t))
    modifies s`active, s.b
    ensures s.g.Idx(0, 0, t + 1) >= 0 && LaidTo(s.g, v0, s.b[..], s.active, w, s.g.Idx(0, 0, t + 1))
  {
    PlaneStarts(s.g, t);
    hide LaidTo, Grid.Idx;
    for y := 0 to s.g.ny
      invariant s.g.Idx(0, y, t) >= 0 && LaidTo(s.g, v0, s.b[..], s.active, w, s.g.Idx(0, y, t))
    {
      LayRow(s, v0, w, y, t);
    }
  }

  // Give every free state its weight and list it as active. Mass that was
  // already there must sit on free states with a positive weight.
  method LayFree(s: Store, w: nat -> real)
    requires s.g.Valid() && s.b != s.scratch && s.b.Length == s.scratch.Length == s.g.Size() && AllZero(s.scratch[..])
    requires s.active == [] && (forall i :: w(i) >= 0.0)
    requires forall i :: 0 <= i < s.b.Length ==> s.b[i] >= 0.0 && (s.b[i] > 0.0 ==> s.g.FreeAt(i) && w(i) > 0.0)
    modifies s`active, s.b
    ensures s.Valid()
    ensures forall i :: 0 <= i < s.b.Length ==> s.b[i] == old(s.b[i]) + Share(s.g, w, i)
  {
    ghost var v0 := s.b[..];
    assert s.g.Idx(0, 0, 0) == 0;
    StatesEnd(s.g);
    assert LaidTo(s.g, v0, s.b[..], s.active, w, 0);
    hide Grid.Idx;
    for t := 0 to s.g.nt
      invariant s.g.Idx(0, 0, t) >= 0 && LaidTo(s.g, v0, s.b[..], s.active, w, s.g.Idx(0, 0, t))
    {
      LayPlane(s, v0, w, t);
    }
    LaidSparse(s.g, v0, s.b[..], s.active, w);
  }

  lemma LaidSparse(g: Grid, v0: seq<real>, v: seq<real>, active: seq<nat>, w: nat -> real)
    requires g.Valid() && LaidTo(g, v0, v, active, w, g.Size()) && (forall i :: w(i) >= 0.0)
    requires forall i :: 0 <= i < |v0| ==> v0[i] >= 0.0 && (v0[i] > 0.0 ==> g.FreeAt(i) && w(i) > 0.0)
    ensures Sparse(g, v, active)
  {
    hide Grid.FreeAt;
  }

  lemma IdxStep(g: Grid, x: int, y: int, t: int)
    ensures g.Idx(x + 1, y, t) == g.Idx(x, y, t) + 1
  {
  }

  lemma RowStarts(g: Grid, y: int, t: int)
    ensures g.Idx(g.nx, y, t) == g.Idx(0, y + 1, t)
  {
  }

  lemma PlaneStarts(g: Grid, t: int)
    ensures g.Idx(0, g.ny, t) == g.Idx(0, 0, t + 1)
  {
  }

  lemma StatesEnd(g: Grid)
    ensures g.Idx(0, 0, g.nt) == g.Size()
  {
  }

  // ------------------------------------------------------------ counting free states

  // Free cells among the first k of the plane.
  function CountFree(free: seq<bool>, k: nat): nat
    requires k <= |free|
  {
    if k == 0 then 0 else CountFree(free, k - 1) + if free[k - 1] then 1 else 0
  }

  function FreeStates(g: Grid): nat
    requires g.Valid()
  {
    CountFree(g.free, |g.free|) * g.nt
  }

  ghost function Indicator(g: Grid): nat -> real
    requires g.Valid()
  {
    (i: nat) => if i < g.Size() then Share(g, (k: nat) => 1.0, i) else 0.0
  }

  lemma FreeInPlane(g: Grid, t: nat, k: nat)
    requires g.Valid() && t < g.nt && k < g.nx * g.ny
    ensures t * (g.nx * g.ny) + k < g.Size()
    ensures g.FreeAt(t * (g.nx * g.ny) + k) == g.free[k]
  {
    var plane := g.nx * g.ny;
    var i := t * plane + k;
    Grow(t + 1, g.nt, plane);
    DivMod(t, plane, k);
    g.Decode(i);
    DivRange(k, g.nx, g.ny);
  }

  lemma OneMore(t: int, c: int)
    ensures (t - 1) * c + c == t * c
  {
  }

  lemma {:induction false} FreeBelow(g: Grid, t: nat, k: nat)
    requires g.Valid() && k <= g.nx * g.ny && (t < g.nt || (t == g.nt && k == 0))
    ensures SumOver(Iota(t * (g.nx * g.ny) + k), Indicator(g)) == (t * CountFree(g.free, |g.free|) + CountFree(g.free, k)) as real
    decreases t, k
  {
    var plane := g.nx * g.ny;
    if k > 0 {
      var n := t * plane + (k - 1);
      FreeBelow(g, t, k - 1);
      FreeInPlane(g, t, k - 1);
      assert Iota(n + 1) == Iota(n) + [n];
      assert Indicator(g)(n) == if g.free[k - 1] then 1.0 else 0.0;
      assert CountFree(g.free, k) == CountFree(g.free, k - 1) + if g.free[k - 1] then 1 else 0;
      hide Grid.FreeAt, Iota, Grid.Size, Indicator, CountFree, SumOver;
      SumSnoc(Iota(n), n, Indicator(g));
    } else if t > 0 {
      FreeBelow(g, t - 1, plane);
      OneMore(t, plane);
      OneMore(t, CountFree(g.free, plane));
    }
  }

  // As many states are free as the count of free cells times the angles.
  lemma FreeTotal(g: Grid)
    requires g.Valid()
    ensures SumOver(Iota(g.Size()), Indicator(g)) == FreeStates(g) as real
  {
    var n, c := g.nt * (g.nx * g.ny), CountFree(g.free, |g.free|);
    FreeBelow(g, g.nt, 0);
    assert n + 0 == g.Size();
    hide *;
    assert g.nt * c + 0 == c * g.nt;
  }

  // The total of v plus u on every free state.
  lemma FreeSum(g: Grid, v: seq<real>, r: seq<real>, a: real, u: real)
    requires g.Valid() && |v| == |r| == g.Size()
    requires forall i :: 0 <= i < |v| ==> r[i] == a * v[i] + if g.FreeAt(i) then u else 0.0
    ensures Total(r) == a * Total(v) + u * FreeStates(g) as real
  {
    hide Grid.FreeAt, SumOver, Iota, FreeStates;
    FreeTotal(g);
    FreeEntries(g, v, r, a, u);
    Weighted(g.Size(), v, r, Indicator(g), a, u, FreeStates(g) as real);
  }

  lemma FreeEntries(g: Grid, v: seq<real>, r: seq<real>, a: real, u: real)
    requires g.Valid() && |v| == |r| == g.Size()
    requires forall i :: 0 <= i < |v| ==> r[i] == a * v[i] + if g.FreeAt(i) then u else 0.0
    ensures forall i :: i in Iota(g.Size()) ==> Entry(r)(i) == a * Entry(v)(i) + u * Indicator(g)(i)
  {
    forall i | i in Iota(g.Size())
      ensures Entry(r)(i) == a * Entry(v)(i) + u * Indicator(g)(i)
    {
      FreeEntry(g, v, r, a, u, i);
    }
  }

  lemma FreeEntry(g: Grid, v: seq<real>, r: seq<real>, a: real, u: real, i: nat)
    requires g.Valid() && |v| == |r| == g.Size() && i < |v|
    requires r[i] == a * v[i] + if g.FreeAt(i) then u else 0.0
    ensures Entry(r)(i) == a * Entry(v)(i) + u * Indicator(g)(i)
  {
    hide Grid.FreeAt, Grid.Size;
  }

  // ------------------------------------------------------------ seed and uniform

  // Relative weights: w on the free states, nothing elsewhere.
  ghost predicate LaidOut(g: Grid, w: nat -> real, v: seq<real>)
    requires g.Valid()
  {
    |v| == g.Size() && forall i :: 0 <= i < |v| ==> v[i] == Share(g, w, i)
  }

  // Lay the weights on the free states and normalise.
  method LayFresh(s: Store, w: nat -> real) returns (ghost v: seq<real>)
    requires s.Valid() && (forall i :: w(i) >= 0.0)
    modifies s`active, s.b
    ensures s.Normal() && LaidOut(s.g, w, v) && Normalized(v, s.b[..])
  {
    hide Normalized, Grid.FreeAt;
    ClearActive(s);
    LayFree(s, w);
    v := s.b[..];
    s.NormalizeActive();
  }

  // Per-axis weights; entries not above CUT are skipped.
  const CUT: real := 0.000000001

  function Kept(w: real): real { if w > CUT then w else 0.0 }

  function SeedWeight(g: Grid, wx: nat -> real, wy: nat -> real, wt: nat -> real): nat -> real {
    (i: nat) =>
      if g.nx > 0 && g.ny > 0 && g.X(i) >= 0 && g.Y(i) >= 0
      then Kept(wt(g.T(i))) * Kept(wy(g.Y(i))) * Kept(wx(g.X(i)))
      else 0.0
  }

  lemma SeedWeightSign(g: Grid, wx: nat -> real, wy: nat -> real, wt: nat -> real)
    ensures forall i :: SeedWeight(g, wx, wy, wt)(i) >= 0.0
  {
    forall i: nat
      ensures SeedWeight(g, wx, wy, wt)(i) >= 0.0
    {
      if g.nx > 0 && g.ny > 0 && g.X(i) >= 0 && g.Y(i) >= 0 {
        var a, b, c := Kept(wt(g.T(i))), Kept(wy(g.Y(i))), Kept(wx(g.X(i)));
        ScaleAdd(a, 0.0, b);
        ScaleAdd(a * b, 0.0, c);
      }
    }
  }

  // Put the belief around a pose.
  method Seed(s: Store, wx: nat -> real, wy: nat -> real, wt: nat -> real) returns (ghost v: seq<real>)
    requires s.Valid()
    modifies s`active, s.b
    ensures s.Normal() && LaidOut(s.g, SeedWeight(s.g, wx, wy, wt), v) && Normalized(v, s.b[..])
  {
    hide Normalized, LaidOut, Grid.X, Grid.Y, Grid.T;
    SeedWeightSign(s.g, wx, wy, wt);
    v := LayFresh(s, SeedWeight(s.g, wx, wy, wt));
  }

  lemma {:induction false} NoneCounted(free: seq<bool>, n: nat, k: nat)
    requires k < n <= |free| && CountFree(free, n) == 0
    ensures !free[k]
  {
    if k < n - 1 { NoneCounted(free, n - 1, k); }
  }

  // Without free states a belief is empty.
  lemma NoneFree(g: Grid, v: seq<real>, active: seq<nat>)
    requires g.Valid() && Sparse(g, v, active) && FreeStates(g) == 0
    ensures AllZero(v)
  {
    forall i | 0 <= i < |v|
      ensures v[i] == 0.0
    {
      g.Decode(i);
      g.PlaneRange(g.X(i), g.Y(i));
      ZeroFactor(CountFree(g.free, |g.free|), g.nt);
      NoneCounted(g.free, |g.free|, g.Y(i) * g.nx + g.X(i));
      hide Grid.X, Grid.Y, Grid.T, Grid.Idx;
      assert !g.FreeAt(i);
    }
  }

  lemma ZeroFactor(a: nat, b: nat)
    requires a * b == 0 && b > 0
    ensures a == 0
  {
  }

  // The uniform over the free states, or nothing where nothing is free.
  ghost predicate Restarted(g: Grid, v: seq<real>)
    requires g.Valid()
  {
    if FreeStates(g) != 0 then UniformFree(g, v) else |v| == g.Size() && AllZero(v)
  }

  ghost predicate UniformFree(g: Grid, v: seq<real>)
    requires g.Valid() && FreeStates(g) != 0
  {
    && |v| == g.Size()
    && forall i :: 0 <= i < |v| ==> v[i] == if g.FreeAt(i) then 1.0 / FreeStates(g) as real else 0.0
  }

  lemma LaidUniform(g: Grid, v: seq<real>, r: seq<real>)
    requires g.Valid() && FreeStates(g) != 0 && LaidOut(g, (i: nat) => 1.0, v) && Normalized(v, r)
    ensures UniformFree(g, r) && Total(r) == 1.0
  {
    hide FreeStates, Grid.Size, Grid.FreeAt, Total;
    var n := FreeStates(g) as real;
    assert forall i :: 0 <= i < |v| ==> v[i] == 0.0 * v[i] + if g.FreeAt(i) then 1.0 else 0.0;
    FreeSum(g, v, v, 0.0, 1.0);
    assert Total(v) == n;
    assert forall i :: 0 <= i < |v| ==> r[i] == 0.0 * v[i] + if g.FreeAt(i) then 1.0 / n else 0.0;
    FreeSum(g, v, r, 0.0, 1.0 / n);
    assert (1.0 / n) * n == 1.0;
  }

  // The uniform belief over the free states; none when nothing is free.
  method EnterUniformFree(s: Store)
    requires s.Valid()
    modifies s`active, s.b
    ensures s.Normal()
    ensures Restarted(s.g, s.b[..])
    ensures FreeStates(s.g) != 0 ==> UniformFree(s.g, s.b[..]) && Total(s.b[..]) == 1.0 && s.active != []
  {
    hide Normalized, LaidOut, UniformFree, Total, Sparse, AllZero;
    ghost var v := LayFresh(s, (i: nat) => 1.0);
    if FreeStates(s.g) != 0 { LaidUniform(s.g, v, s.b[..]); } else { NoneFree(s.g, s.b[..], s.active); }
    SupportTotal(s.g, s.b[..], s.active);
  }

  // ------------------------------------------------------------ mixing with the uniform

  const ALPHA: real := 0.5

  ghost predicate Mixed(g: Grid, v: seq<real>, r: seq<real>)
    requires g.Valid() && FreeStates(g) != 0
  {
    && |r| == |v| == g.Size()
    && forall i :: 0 <= i < |v| ==>
         r[i] == 0.5 * v[i] + if g.FreeAt(i) then 0.5 / FreeStates(g) as real else 0.0
  }

  lemma MixedTotal(g: Grid, v: seq<real>, r: seq<real>)
    requires g.Valid() && FreeStates(g) != 0 && Mixed(g, v, r)
    ensures Total(r) == (1.0 - ALPHA) * Total(v) + ALPHA
  {
    var n := FreeStates(g) as real;
    hide FreeStates, Grid.FreeAt, Grid.Size, Total;
    FreeSum(g, v, r, 1.0 - ALPHA, ALPHA / n);
    assert ALPHA / n * n == ALPHA;
  }

  // Scale the active cells.
  method ScaleActive(s: Store, f: real)
    requires s.g.Valid() && s.b.Length == s.g.Size() && Sparse(s.g, s.b[..], s.active) && f > 0.0
    modifies s.b
    ensures Sparse(s.g, s.b[..], s.active) && forall i :: 0 <= i < s.b.Length ==> s.b[i] == Times(old(s.b[i]), f)
  {
    ghost var v := s.b[..];
    assert s.active[..|s.active|] == s.active;
    hide Sparse, Times;
    for k := 0 to |s.active|
      invariant forall i :: 0 <= i < s.b.Length ==> s.b[i] == if i in s.active[..k] then Times(v[i], f) else v[i]
    {
      ActiveAt(s.g, v, s.active, k);
      s.b[s.active[k]] := Times(s.b[s.active[k]], f);
    }
    ScaledSparse(s.g, v, s.b[..], s.active, f);
  }

  lemma ScaledSparse(g: Grid, v: seq<real>, r: seq<real>, active: seq<nat>, f: real)
    requires g.Valid() && Sparse(g, v, active) && |r| == |v| && f > 0.0
    requires forall i :: 0 <= i < |v| ==> r[i] == if i in active then Times(v[i], f) else v[i]
    ensures Sparse(g, r, active) && forall i :: 0 <= i < |v| ==> r[i] == Times(v[i], f)
  {
    hide Grid.FreeAt, Times;
    forall i | 0 <= i < |v|
      ensures r[i] == Times(v[i], f) && r[i] >= 0.0 && (r[i] > 0.0 <==> v[i] > 0.0)
    {
      ProductSign(v[i], f);
    }
  }

  method AddUniform(s: Store, u: real)
    requires s.Valid() && FreeStates(s.g) != 0 && u == ALPHA / FreeStates(s.g) as real
    modifies s`active, s.b
    ensures s.Valid() && Mixed(s.g, old(s.b[..]), s.b[..])
  {
    ghost var scratch := s.scratch[..];
    hide Total, Grid.FreeAt, FreeStates;
    ScaleActive(s, 1.0 - ALPHA);
    assert s.scratch[..] == scratch;
    s.active := [];
    assert u > 0.0;
    LayFree(s, (i: nat) => u);
  }

  // Mix in the uniform. A normalised belief stays normalised exactly when it
  // was not empty (or nothing is free): an empty one would be left with mass ALPHA.
  method MixUniform(s: Store)
    requires s.Normal()
    modifies s`active, s.b
    ensures s.Valid()
    ensures FreeStates(s.g) == 0 ==> s.b[..] == old(s.b[..])
    ensures FreeStates(s.g) != 0 ==> Mixed(s.g, old(s.b[..]), s.b[..]) && s.active != []
    ensures FreeStates(s.g) != 0 ==> Total(s.b[..]) == (1.0 - ALPHA) * Total(old(s.b[..])) + ALPHA
    ensures s.Normal() <==> old(s.active) != [] || FreeStates(s.g) == 0
  {
    ghost var v := s.b[..];
    SupportTotal(s.g, v, s.active);
    if FreeStates(s.g) == 0 { return; }
    AddUniform(s, ALPHA / FreeStates(s.g) as real);
    MixedTotal(s.g, v, s.b[..]);
    hide Total, Sparse, Mixed, FreeStates;
    SupportTotal(s.g, s.b[..], s.active);
  }
}
