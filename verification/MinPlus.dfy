// The min-plus relaxation of the Viterbi belief: an erosion of a 3-D field,
// one axis after the other, in place. Positions are lines, theta is a ring.
module MinPlus {

  // Costs are reals or infinite.
  datatype Ext = Inf | Fin(v: real)

  function Plus(e: Ext, l: real): Ext { if e.Inf? then Inf else Fin(e.v + l) }

  predicate Less(a: Ext, b: Ext) { a.Fin? && (b.Inf? || a.v < b.v) }

  predicate Leq(a: Ext, b: Ext) { !Less(b, a) }

  // k steps of cost l.
  function Times(l: real, k: nat): real { if k == 0 then 0.0 else Times(l, k - 1) + l }

  lemma {:induction false} TimesAdd(l: real, a: nat, b: nat)
    ensures Times(l, a + b) == Times(l, a) + Times(l, b)
  {
    if b > 0 {
      TimesAdd(l, a, b - 1);
    }
  }

  lemma {:induction false} TimesMonotone(l: real, a: nat, b: nat)
    requires l >= 0.0 && a <= b
    ensures 0.0 <= Times(l, a) <= Times(l, b)
  {
    if a < b {
      TimesMonotone(l, a, b - 1);
    } else if a > 0 {
      TimesMonotone(l, a - 1, b - 1);
    }
  }

  // Distance on a line of n cells, or around a ring of n cells.
  function Dist(ring: bool, n: nat, i: nat, j: nat): nat {
    var d := if i < j then j - i else i - j;
    if ring && d <= n && n - d < d then n - d else d
  }

  // v is at least the cost of reaching cell i from some cell.
  ghost predicate Sourced(ring: bool, l: real, inn: seq<Ext>, i: nat, v: Ext) {
    v.Inf? || exists j :: 0 <= j < |inn| && Leq(Plus(inn[j], Times(l, Dist(ring, |inn|, i, j))), v)
  }

  ghost predicate AllSourced(ring: bool, l: real, inn: seq<Ext>, s: seq<Ext>) {
    |s| == |inn| && forall i :: 0 <= i < |s| ==> Sourced(ring, l, inn, i, s[i])
  }

  // s[i] is at most the cost of reaching i from j.
  ghost predicate Under(ring: bool, l: real, inn: seq<Ext>, s: seq<Ext>, i: nat, j: nat)
    requires i < |s| && j < |inn|
  {
    Leq(s[i], Plus(inn[j], Times(l, Dist(ring, |inn|, i, j))))
  }

  // s is exactly the erosion of inn along one line or ring.
  ghost predicate Eroded(ring: bool, l: real, inn: seq<Ext>, s: seq<Ext>) {
    AllSourced(ring, l, inn, s) && forall i, j :: 0 <= i < |s| && 0 <= j < |inn| ==> Under(ring, l, inn, s, i, j)
  }

  // One relaxation: cell i from its neighbour k.
  function Relax(s: seq<Ext>, i: nat, k: nat, l: real): (r: seq<Ext>)
    requires i < |s| && k < |s|
    ensures |r| == |s|
  {
    if Less(Plus(s[k], l), s[i]) then s[i := Plus(s[k], l)] else s
  }

  ghost predicate Lowered(r: seq<Ext>, s: seq<Ext>) { |r| == |s| && forall i :: 0 <= i < |s| ==> Leq(r[i], s[i]) }

  lemma RelaxLowers(s: seq<Ext>, i: nat, k: nat, l: real)
    requires i < |s| && k < |s|
    ensures Lowered(Relax(s, i, k, l), s) && Leq(Relax(s, i, k, l)[i], Plus(s[k], l))
  {
  }

  predicate Adjacent(ring: bool, n: nat, i: nat, k: nat) {
    i == k + 1 || k == i + 1 || (ring && n > 0 && ((i == 0 && k == n - 1) || (k == 0 && i == n - 1)))
  }

  lemma DistStep(ring: bool, n: nat, i: nat, k: nat, j: nat)
    requires i < n && k < n && j < n && Adjacent(ring, n, i, k)
    ensures Dist(ring, n, i, j) <= Dist(ring, n, k, j) + 1
  {
  }

  lemma RelaxSourced(ring: bool, l: real, inn: seq<Ext>, s: seq<Ext>, i: nat, k: nat)
    requires l >= 0.0 && AllSourced(ring, l, inn, s) && i < |s| && k < |s| && Adjacent(ring, |s|, i, k)
    ensures AllSourced(ring, l, inn, Relax(s, i, k, l))
  {
    hide Sourced, Dist, Leq, Adjacent;
    if Less(Plus(s[k], l), s[i]) {
      assert s[k].Fin? && Sourced(ring, l, inn, k, s[k]);
      StepSourced(ring, l, inn, i, k, s[k]);
    }
  }

  // What reaches k reaches its neighbour i at one step more.
  lemma StepSourced(ring: bool, l: real, inn: seq<Ext>, i: nat, k: nat, v: Ext)
    requires l >= 0.0 && i < |inn| && k < |inn| && Adjacent(ring, |inn|, i, k) && v.Fin? && Sourced(ring, l, inn, k, v)
    ensures Sourced(ring, l, inn, i, Plus(v, l))
  {
    hide Dist, Times, Adjacent;
    var j :| 0 <= j < |inn| && Leq(Plus(inn[j], Times(l, Dist(ring, |inn|, k, j))), v);
    DistStep(ring, |inn|, i, k, j);
    TimesMonotone(l, Dist(ring, |inn|, i, j), Dist(ring, |inn|, k, j) + 1);
    TimesNext(l, Dist(ring, |inn|, k, j));
    assert Leq(Plus(inn[j], Times(l, Dist(ring, |inn|, i, j))), Plus(v, l));
  }

  lemma TimesNext(l: real, n: nat)
    ensures Times(l, n + 1) == Times(l, n) + l
  {
  }

  lemma SelfSourced(ring: bool, l: real, s: seq<Ext>)
    ensures AllSourced(ring, l, s, s)
  {
    forall i | 0 <= i < |s|
      ensures Sourced(ring, l, s, i, s[i])
    {
      assert Leq(Plus(s[i], Times(l, Dist(ring, |s|, i, i))), s[i]);
    }
  }

  // ------------------------------------------------------------ passes

  // The cell at position k of a pass of at most two laps.
  function Pos(n: nat, k: int): (i: int)
    requires 0 <= k < 2 * n
    ensures 0 <= i < n
  {
    if k < n then k else k - n
  }

  lemma PosIsMod(n: nat, k: int)
    requires 0 <= k < 2 * n
    ensures k % n == Pos(n, k)
  {
    if k >= n {
      assert k == n + (k - n);
    }
  }

  predicate Within(n: nat, up: bool, from: int, to: int, k: int) {
    0 <= k < 2 * n && if up then from <= k <= to else to <= k <= from
  }

  function Ahead(up: bool, k: int, m: int): int { if up then k + m else k - m }

  // A pass moves from one end to the other, relaxing each position from the one
  // visited just before. So far every value is at most the cost of walking m
  // steps in the pass direction from any position visited.
  ghost predicate Walked(l: real, inn: seq<Ext>, s: seq<Ext>, up: bool, from: int, to: int) {
    && |s| == |inn|
    && forall k, m {:trigger Ahead(up, k, m)} ::
         Within(|s|, up, from, to, k) && 0 <= m < |s| && Within(|s|, up, from, to, Ahead(up, k, m)) ==>
         Leq(s[Pos(|s|, Ahead(up, k, m))], Plus(inn[Pos(|s|, k)], Times(l, m)))
  }

  lemma WalkStarts(l: real, inn: seq<Ext>, up: bool, from: int)
    requires 0 <= from < 2 * |inn|
    ensures Walked(l, inn, inn, up, from, from)
  {
    forall k, m | Within(|inn|, up, from, from, k) && 0 <= m < |inn| && Within(|inn|, up, from, from, Ahead(up, k, m))
      ensures Leq(inn[Pos(|inn|, Ahead(up, k, m))], Plus(inn[Pos(|inn|, k)], Times(l, m)))
    {
      assert m == 0;
    }
  }

  lemma WalkStep(l: real, inn: seq<Ext>, s: seq<Ext>, up: bool, from: int, to: int)
    requires Walked(l, inn, s, up, from, to) && Lowered(s, inn)
    requires Within(|s|, up, from, to, to) && 0 <= Ahead(up, to, 1) < 2 * |s|
    ensures var r := Relax(s, Pos(|s|, Ahead(up, to, 1)), Pos(|s|, to), l);
            Walked(l, inn, r, up, from, Ahead(up, to, 1)) && Lowered(r, inn)
  {
    var n := |s|;
    var next := Ahead(up, to, 1);
    var r := Relax(s, Pos(n, next), Pos(n, to), l);
    RelaxLowers(s, Pos(n, next), Pos(n, to), l);
    forall k, m | Within(n, up, from, next, k) && 0 <= m < n && Within(n, up, from, next, Ahead(up, k, m))
      ensures Leq(r[Pos(n, Ahead(up, k, m))], Plus(inn[Pos(n, k)], Times(l, m)))
    {
      if k == next {
        assert m == 0;
      } else if Ahead(up, k, m) == next {
        assert Ahead(up, k, m - 1) == to;
        assert Leq(s[Pos(n, to)], Plus(inn[Pos(n, k)], Times(l, m - 1)));
      } else {
        assert Leq(s[Pos(n, Ahead(up, k, m))], Plus(inn[Pos(n, k)], Times(l, m)));
      }
    }
  }

  // One lap up and one lap down erode a line exactly.
  lemma LineDone(l: real, inn: seq<Ext>, f: seq<Ext>, s: seq<Ext>)
    requires |inn| > 0 && AllSourced(false, l, inn, s) && Lowered(f, inn) && Lowered(s, f)
    requires Walked(l, inn, f, true, 0, |inn| - 1) && Walked(l, f, s, false, |inn| - 1, 0)
    ensures Eroded(false, l, inn, s)
  {
    forall i, j | 0 <= i < |s| && 0 <= j < |inn|
      ensures Under(false, l, inn, s, i, j)
    {
      if j <= i {
        assert Ahead(true, j, i - j) == i;
        assert Leq(f[i], Plus(inn[j], Times(l, i - j)));
      } else {
        assert Ahead(false, j, j - i) == i;
        assert Leq(s[i], Plus(f[j], Times(l, j - i)));
      }
    }
  }

  lemma WalkReaches(l: real, inn: seq<Ext>, s: seq<Ext>, up: bool, from: int, to: int, k: int, m: nat, i: nat, j: nat)
    requires Walked(l, inn, s, up, from, to) && i < |s| && j < |s| && m < |s|
    requires Within(|s|, up, from, to, k) && Within(|s|, up, from, to, Ahead(up, k, m))
    requires Pos(|s|, k) == j && Pos(|s|, Ahead(up, k, m)) == i
    ensures Leq(s[i], Plus(inn[j], Times(l, m)))
  {
  }

  lemma RingUnder(l: real, inn: seq<Ext>, f: seq<Ext>, s: seq<Ext>, i: nat, j: nat)
    requires |s| == |f| == |inn| > 0 && Lowered(f, inn) && Lowered(s, f) && i < |s| && j < |s|
    requires Walked(l, inn, f, true, 0, 2 * |inn| - 1) && Walked(l, f, s, false, 2 * |inn| - 1, 0)
    ensures Under(true, l, inn, s, i, j)
  {
    var n := |inn|;
    var m := if j <= i then i - j else i - j + n;
    WalkReaches(l, inn, f, true, 0, 2 * n - 1, j, m, i, j);
    assert Leq(s[i], f[i]) && Leq(f[j], inn[j]);
    if i != j {
      WalkReaches(l, f, s, false, 2 * n - 1, 0, j + n, n - m, i, j);
    }
    hide Walked, Times, Lowered;
  }

  // Two laps up and two laps down erode a ring exactly.
  lemma RingDone(l: real, inn: seq<Ext>, f: seq<Ext>, s: seq<Ext>)
    requires |inn| > 0 && AllSourced(true, l, inn, s) && Lowered(f, inn) && Lowered(s, f)
    requires Walked(l, inn, f, true, 0, 2 * |inn| - 1) && Walked(l, f, s, false, 2 * |inn| - 1, 0)
    ensures Eroded(true, l, inn, s)
  {
    hide Walked, Under;
    forall i, j | 0 <= i < |s| && 0 <= j < |inn|
      ensures Under(true, l, inn, s, i, j)
    {
      RingUnder(l, inn, f, s, i, j);
    }
  }
}
