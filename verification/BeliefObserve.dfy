// Observing a scan (weighting, pruning, normalising), reseeding from scan
// matches, and whole runs of the belief.
module BeliefObserve {
  import opened Sums
  import opened Basics
  import opened Belief
  import opened SparseBelief
  import opened BeliefMotion
  import opened BeliefUpdate

  // ------------------------------------------------------------ peaks

  // The largest entry, or 0.
  ghost function PeakOf(v: seq<real>): real {
    if |v| == 0 then 0.0
    else
      var p := PeakOf(v[..|v| - 1]);
      if v[|v| - 1] > p then v[|v| - 1] else p
  }

  lemma {:induction false} PeakBounds(v: seq<real>)
    ensures PeakOf(v) >= 0.0 && forall i :: 0 <= i < |v| ==> v[i] <= PeakOf(v)
    ensures PeakOf(v) == 0.0 || PeakOf(v) in v
  {
    if |v| > 0 {
      PeakBounds(v[..|v| - 1]);
      assert v == v[..|v| - 1] + [v[|v| - 1]];
    }
  }

  lemma PeakIs(v: seq<real>, m: real)
    requires forall i :: 0 <= i < |v| ==> v[i] <= m
    requires m == 0.0 || m in v
    requires m >= 0.0
    ensures PeakOf(v) == m
  {
    PeakBounds(v);
  }

  // The cells that may carry mass are listed once, and lie on free states.
  ghost predicate Listed(g: Grid, v: seq<real>, active: seq<nat>)
    requires g.Valid()
  {
    && |v| == g.Size() && Distinct(active)
    && (forall i :: i in active ==> i < |v|)
    && (forall i :: 0 <= i < |v| ==> v[i] >= 0.0 && (v[i] > 0.0 ==> i in active))
    && (forall i :: i in active && i < |v| ==> g.FreeAt(i))
  }

  // The largest of the listed cells, which is the largest of all.
  method Peak(g: Grid, a: array<real>, active: seq<nat>) returns (m: real)
    requires g.Valid() && Listed(g, a[..], active)
    ensures m == PeakOf(a[..])
  {
    m := 0.0;
    ghost var v := a[..];
    hide Grid.FreeAt, Distinct;
    for k := 0 to |active|
      invariant m >= 0.0 && (m == 0.0 || m in v)
      invariant forall i :: i in active[..k] && i < |v| ==> v[i] <= m
    {
      assert active[k] in active && v[active[k]] in v;
      assert active[..k + 1] == active[..k] + [active[k]];
      m := if a[active[k]] > m then a[active[k]] else m;
    }
    assert active[..|active|] == active;
    PeakIs(v, m);
  }

  // ------------------------------------------------------------ weighting

  // Every cell times its likelihood.
  ghost function Weighed(v: seq<real>, like: nat -> real): seq<real> {
    seq(|v|, i requires 0 <= i < |v| => Times(v[i], like(i)))
  }

  ghost function Agreement(v: seq<real>, fit: nat -> real): nat -> real {
    (i: nat) => if i < |v| then Times(v[i], fit(i)) else 0.0
  }

  // The first k listed cells were weighted.
  ghost predicate WeighedSo(v: seq<real>, r: seq<real>, active: seq<nat>, like: nat -> real, k: nat)
    requires k <= |active|
  {
    |r| == |v| && forall i :: 0 <= i < |v| ==> r[i] == if i in active[..k] then Times(v[i], like(i)) else v[i]
  }

  // One cell: weight it by l and return its share of the fit f.
  method WeighCell(s: Store, i: nat, l: real, f: real) returns (q: real)
    requires s.g.Valid() && i < s.b.Length == s.g.Size() && s.b[i] > 0.0 && s.g.FreeAt(i)
    modifies s.b
    ensures s.b[..] == old(s.b[..])[i := Times(old(s.b[i]), l)] && q == Times(old(s.b[i]), f)
  {
    var w := s.b[i];
    if w <= 0.0 || !s.g.FreeAt(i) { assert false; }
    s.b[i] := Times(w, l);
    q := Times(w, f);
  }

  // Multiply every active cell by its likelihood; the quality is the mean fit.
  // By the invariant of the store no active cell is empty or blocked, so all are kept.
  method Weigh(s: Store, like: nat -> real, fit: nat -> real) returns (quality: real)
    requires s.Valid() && (forall i :: like(i) >= 0.0)
    modifies s`active, s.b
    ensures s.active == old(s.active) && Listed(s.g, s.b[..], s.active)
    ensures s.b[..] == Weighed(old(s.b[..]), like)
    ensures quality == SumOver(Iota(s.g.Size()), Agreement(old(s.b[..]), fit))
  {
    ghost var v := s.b[..];
    var active, kept := s.active, [];
    s.active := [];
    quality := 0.0;
    assert active[..0] == [] && active[..|active|] == active;
    hide Sparse, Grid.FreeAt, SumOver, Times;
    assert SumOver([], Agreement(v, fit)) == 0.0 by { SumNone(Agreement(v, fit)); }
    for k := 0 to |active|
      invariant kept == active[..k] && s.active == [] && s.b == old(s.b)
      invariant WeighedSo(v, s.b[..], active, like, k)
      invariant quality == SumOver(active[..k], Agreement(v, fit))
    {
      var i := active[k];
      ActiveAt(s.g, v, active, k);
      ghost var r := s.b[..];
      var q := WeighCell(s, i, like(i), fit(i));
      WeighedNext(v, r, s.b[..], active, like, k);
      SumSnoc(active[..k], i, Agreement(v, fit));
      quality := quality + q;
      kept := kept + [i];
    }
    s.active := kept;
    WeighedListed(s.g, v, s.b[..], active, like);
    SupportSum(s.g, v, active, fit);
  }

  lemma SumNone(f: nat -> real)
    ensures SumOver([], f) == 0.0
  {
  }

  lemma WeighedNext(v: seq<real>, r: seq<real>, r': seq<real>, active: seq<nat>, like: nat -> real, k: nat)
    requires k < |active| && WeighedSo(v, r, active, like, k) && active[k] < |v| && active[k] !in active[..k]
    requires r' == r[active[k] := Times(r[active[k]], like(active[k]))]
    ensures WeighedSo(v, r', active, like, k + 1)
  {
    assert active[..k + 1] == active[..k] + [active[k]];
  }

  lemma SupportSum(g: Grid, v: seq<real>, active: seq<nat>, fit: nat -> real)
    requires g.Valid() && Sparse(g, v, active)
    ensures SumOver(active, Agreement(v, fit)) == SumOver(Iota(|v|), Agreement(v, fit))
  {
    hide Grid.FreeAt;
    forall i | 0 <= i < |v| && i !in active
      ensures Agreement(v, fit)(i) == 0.0
    {
      ZeroTimes(v[i], fit(i));
    }
    SparseSum(active, |v|, Agreement(v, fit));
  }

  lemma WeighedListed(g: Grid, v: seq<real>, r: seq<real>, active: seq<nat>, like: nat -> real)
    requires g.Valid() && Sparse(g, v, active) && WeighedSo(v, r, active, like, |active|) && (forall i :: like(i) >= 0.0)
    ensures Listed(g, r, active) && r == Weighed(v, like)
  {
    hide Grid.FreeAt;
    assert active[..|active|] == active;
    forall i | 0 <= i < |v|
      ensures r[i] == Times(v[i], like(i)) && r[i] >= 0.0 && (r[i] > 0.0 ==> i in active)
    {
      ProductSign(v[i], like(i));
    }
    assert forall i :: 0 <= i < |v| ==> r[i] == Weighed(v, like)[i];
  }

  // ------------------------------------------------------------ pruning

  // Cells at or below the threshold lose their mass.
  ghost function Cut(v: seq<real>, thr: real): seq<real> {
    seq(|v|, i requires 0 <= i < |v| => if v[i] <= thr then 0.0 else v[i])
  }

  // Only cells above the given share of the peak keep their mass.
  ghost function Pruned(v: seq<real>, ratio: real): seq<real> { Cut(v, Times(PeakOf(v), ratio)) }

  method Prune(s: Store, ratio: real)
    requires s.g.Valid() && s.b != s.scratch && s.b.Length == s.scratch.Length == s.g.Size() && AllZero(s.scratch[..])
    requires Listed(s.g, s.b[..], s.active) && ratio >= 0.0
    modifies s`active, s.b
    ensures s.Valid() && s.b[..] == Pruned(old(s.b[..]), ratio)
  {
    PeakBounds(s.b[..]);
    var maxw := Peak(s.g, s.b, s.active);
    ProductSign(maxw, ratio);
    ghost var scratch := s.scratch[..];
    hide Listed, Sparse, Cut, AllZero, Times;
    DropBelow(s, Times(maxw, ratio));
    assert s.scratch[..] == scratch;
  }

  // Keep the active cells above the threshold.
  method DropBelow(s: Store, thr: real)
    requires s.g.Valid() && s.b.Length == s.g.Size() && Listed(s.g, s.b[..], s.active) && thr >= 0.0
    modifies s`active, s.b
    ensures Sparse(s.g, s.b[..], s.active) && s.b[..] == Cut(old(s.b[..]), thr)
  {
    ghost var v := s.b[..];
    var active, kept := s.active, [];
    KeptNone(v, active, thr);
    hide Listed, KeptSo, Cut, Sparse;
    for k := 0 to |active|
      invariant s.active == active && s.b.Length == |v|
      invariant KeptSo(v, s.b[..], active, kept, thr, k)
    {
      var i := active[k];
      ListedAt(s.g, v, active, k);
      KeptNext(v, s.b[..], active, kept, thr, k);
      if s.b[i] <= thr {
        ghost var r := s.b[..];
        s.b[i] := 0.0;
        assert s.b[..] == r[i := 0.0];
      } else {
        kept := kept + [i];
      }
    }
    s.active := kept;
    KeptAll(s.g, v, s.b[..], active, kept, thr);
  }

  // The first k listed cells were either dropped or kept.
  ghost predicate KeptSo(v: seq<real>, r: seq<real>, active: seq<nat>, kept: seq<nat>, thr: real, k: nat)
    requires k <= |active|
  {
    && |r| == |v| && Distinct(kept)
    && (forall i :: 0 <= i < |v| ==> r[i] == if i in active[..k] && v[i] <= thr then 0.0 else v[i])
    && (forall i: nat :: i in kept <==> i in active[..k] && i < |v| && v[i] > thr)
  }

  lemma KeptNone(v: seq<real>, active: seq<nat>, thr: real)
    ensures KeptSo(v, v, active, [], thr, 0)
  {
  }

  lemma KeptNext(v: seq<real>, r: seq<real>, active: seq<nat>, kept: seq<nat>, thr: real, k: nat)
    requires k < |active| && KeptSo(v, r, active, kept, thr, k) && active[k] < |v| && active[k] !in active[..k]
    ensures active[k] < |r| && r[active[k]] <= thr ==> KeptSo(v, r[active[k] := 0.0], active, kept, thr, k + 1)
    ensures active[k] < |r| && r[active[k]] > thr ==> KeptSo(v, r, active, kept + [active[k]], thr, k + 1)
  {
    assert active[..k + 1] == active[..k] + [active[k]];
    assert active[k] !in kept;
  }

  lemma ListedAt(g: Grid, v: seq<real>, active: seq<nat>, k: nat)
    requires g.Valid() && Listed(g, v, active) && k < |active|
    ensures active[k] < |v| && active[k] !in active[..k]
  {
    assert active[k] in active;
  }

  lemma KeptAll(g: Grid, v: seq<real>, r: seq<real>, active: seq<nat>, kept: seq<nat>, thr: real)
    requires g.Valid() && Listed(g, v, active) && thr >= 0.0 && KeptSo(v, r, active, kept, thr, |active|)
    ensures Sparse(g, r, kept) && r == Cut(v, thr)
  {
    hide Grid.FreeAt;
    assert active[..|active|] == active;
    assert forall i :: 0 <= i < |v| ==> r[i] == Cut(v, thr)[i];
  }

  // ------------------------------------------------------------ observing

  // The dense meaning of an observation, before normalisation.
  ghost function Observed(v: seq<real>, like: nat -> real, ratio: real): seq<real> { Pruned(Weighed(v, like), ratio) }

  // Weight, prune and normalise.
  method SumObserve(s: Store, like: nat -> real, fit: nat -> real, ratio: real) returns (quality: real)
    requires s.Valid() && ratio >= 0.0 && (forall i :: like(i) >= 0.0)
    modifies s`active, s.b
    ensures s.Normal() && Normalized(Observed(old(s.b[..]), like, ratio), s.b[..])
    ensures quality == SumOver(Iota(s.g.Size()), Agreement(old(s.b[..]), fit))
  {
    hide Sparse, Listed, Weighed, Pruned, Normalized, Total;
    quality := Weigh(s, like, fit);
    Prune(s, ratio);
    s.NormalizeActive();
  }

  // Something is above a share of the peak exactly when the share is below 1
  // and the peak is not 0.
  lemma PruneLeaves(u: seq<real>, ratio: real)
    requires ratio >= 0.0 && (forall i :: 0 <= i < |u| ==> u[i] >= 0.0)
    ensures !AllZero(Pruned(u, ratio)) <==> ratio < 1.0 && !AllZero(u)
  {
    PeakBounds(u);
    CutLeaves(u, PeakOf(u), ratio);
  }

  lemma CutLeaves(u: seq<real>, p: real, ratio: real)
    requires ratio >= 0.0 && (forall i :: 0 <= i < |u| ==> 0.0 <= u[i] <= p) && (p == 0.0 || p in u) && p >= 0.0
    ensures !AllZero(Cut(u, Times(p, ratio))) <==> ratio < 1.0 && !AllZero(u)
  {
    if p > 0.0 && ratio < 1.0 {
      var i :| 0 <= i < |u| && u[i] == p;
      Stretch(1.0, ratio, p);
      assert Cut(u, Times(p, ratio))[i] == p;
    } else {
      if p > 0.0 && ratio > 1.0 { Stretch(ratio, 1.0, p); }
      assert Times(p, ratio) >= p;
    }
  }

  // A belief outlives an observation exactly when the pruning ratio is below 1
  // and some cell has both mass and likelihood.
  lemma Survives(v: seq<real>, like: nat -> real, ratio: real)
    requires ratio >= 0.0 && (forall i :: like(i) >= 0.0) && (forall i :: 0 <= i < |v| ==> v[i] >= 0.0)
    ensures !AllZero(Observed(v, like, ratio)) <==> ratio < 1.0 && exists i :: 0 <= i < |v| && v[i] > 0.0 && like(i) > 0.0
  {
    var u := Weighed(v, like);
    forall i | 0 <= i < |v|
      ensures u[i] >= 0.0 && (u[i] > 0.0 <==> v[i] > 0.0 && like(i) > 0.0)
    {
      ProductSign(v[i], like(i));
    }
    hide Pruned;
    PruneLeaves(u, ratio);
  }

  // The quality of a normalised belief is a weighted mean of the fits.
  lemma QualityIsMean(v: seq<real>, fit: nat -> real, lo: real, hi: real)
    requires (forall i :: 0 <= i < |v| ==> v[i] >= 0.0 && lo <= fit(i) <= hi) && Total(v) == 1.0
    ensures lo <= SumOver(Iota(|v|), Agreement(v, fit)) <= hi
  {
    MeanAbove(v, fit, 1.0, lo);
    MeanAbove(v, fit, -1.0, -hi);
  }

  lemma MeanAbove(v: seq<real>, fit: nat -> real, c: real, lo: real)
    requires (forall i :: 0 <= i < |v| ==> v[i] >= 0.0 && lo <= c * fit(i)) && Total(v) == 1.0
    ensures lo <= c * SumOver(Iota(|v|), Agreement(v, fit))
  {
    var o := Iota(|v|);
    var excess := (i: nat) => if i < |v| then Times(v[i], Times(c, fit(i)) - lo) else 0.0;
    forall i | i in o
      ensures excess(i) == c * Agreement(v, fit)(i) + (-lo) * Entry(v)(i) && excess(i) >= 0.0
    {
      Spread(v[i], c, fit(i), lo);
    }
    hide Agreement, Entry, Iota;
    SumLinear(o, Agreement(v, fit), Entry(v), excess, c, -lo);
    SumNonNegative(o, excess);
  }

  lemma Spread(w: real, c: real, a: real, b: real)
    requires w >= 0.0 && c * a >= b
    ensures Times(w, Times(c, a) - b) >= 0.0 && Times(w, Times(c, a) - b) == c * Times(w, a) + (-b) * w
  {
    ProductSign(w, c * a - b);
  }
}
