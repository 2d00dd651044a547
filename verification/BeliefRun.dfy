// A whole observation, and any run of the belief's operations.
module BeliefRun {
  import opened Sums
  import opened Basics
  import opened Belief
  import opened SparseBelief
  import opened BeliefMotion
  import opened BeliefUpdate
  import opened BeliefObserve
  import opened BeliefReseed

  // ------------------------------------------------------------ what equalising is for

  // The survivors' peak is brought to the injected peak exactly, so the best
  // injected cell holds at least half of the new maximum.
  lemma InjectedHoldsHalf(v: seq<real>, inj: seq<real>, r: seq<real>, j: nat)
    requires Reseeded(v, inj, r) && (forall i :: 0 <= i < |v| ==> v[i] >= 0.0 && inj[i] >= 0.0)
    requires j < |inj| && inj[j] == PeakOf(inj) > 0.0
    ensures 2.0 * r[j] >= PeakOf(r) && r[j] > 0.0 && forall i :: 0 <= i < |r| ==> r[i] >= 0.0
    ensures forall i :: 0 <= i < |v| ==> Times(v[i], Equaliser(v, inj)) <= PeakOf(inj)
    ensures PeakOf(v) > 0.0 ==> exists i :: 0 <= i < |v| && v[i] == PeakOf(v) && Times(v[i], Equaliser(v, inj)) == PeakOf(inj)
  {
    var (p, q) := (PeakOf(inj), PeakOf(v));
    PeakBounds(v);
    PeakBounds(inj);
    PeakBounds(r);
    hide PeakOf;
    forall i | 0 <= i < |v|
      ensures 0.0 <= Times(v[i], Equaliser(v, inj)) <= p && (q > 0.0 && v[i] == q ==> Times(v[i], Equaliser(v, inj)) == p)
    {
      if q > 0.0 { ScaledBelow(v[i], p, q); } else { ZeroTimes(v[i], Equaliser(v, inj)); }
    }
    if q > 0.0 {
      var i :| 0 <= i < |v| && v[i] == q;
    }
  }

  // The next scan weights before it prunes: the best injected cell of the
  // normalised belief b outlives it when its likelihood is above twice the
  // pruning ratio times the largest one.
  lemma InjectionSurvives(v: seq<real>, inj: seq<real>, r: seq<real>, b: seq<real>, j: nat, like: nat -> real, top: real, ratio: real)
    requires Reseeded(v, inj, r) && Normalized(r, b) && (forall i :: 0 <= i < |v| ==> v[i] >= 0.0 && inj[i] >= 0.0)
    requires j < |inj| && inj[j] == PeakOf(inj) > 0.0
    requires ratio >= 0.0 && (forall i :: 0.0 <= like(i) <= top) && like(j) > 2.0 * Times(top, ratio)
    ensures Observed(b, like, ratio)[j] == Times(b[j], like(j)) > 0.0
  {
    InjectedHoldsHalf(v, inj, r, j);
    PeakBounds(r);
    hide PeakOf, Total, Observed;
    var t := Total(r);
    forall i | 0 <= i < |b|
      ensures 0.0 <= b[i] <= 2.0 * b[j] && b[j] > 0.0
    {
      if t > 0.0 { Shares(r[i], r[j], t); }
    }
    HalfOutlives(b, j, like, top, ratio);
  }

  lemma Shares(x: real, y: real, t: real)
    requires 0.0 <= x <= 2.0 * y && y > 0.0 && t > 0.0
    ensures 0.0 <= x / t <= 2.0 * (y / t) && y / t > 0.0
  {
    assert 2.0 * (y / t) == (2.0 * y) / t;
  }

  // A cell of at least half the peak, weighted and pruned.
  lemma HalfOutlives(b: seq<real>, j: nat, like: nat -> real, top: real, ratio: real)
    requires j < |b| && b[j] > 0.0 && (forall i :: 0 <= i < |b| ==> 0.0 <= b[i] <= 2.0 * b[j])
    requires ratio >= 0.0 && (forall i :: 0.0 <= like(i) <= top) && like(j) > 2.0 * Times(top, ratio)
    ensures Observed(b, like, ratio)[j] == Times(b[j], like(j)) > 0.0
  {
    var u := Weighed(b, like);
    var cap := Times(2.0 * b[j], top);
    forall i | 0 <= i < |u|
      ensures u[i] <= cap
    {
      TimesUpTo(b[i], 2.0 * b[j], like(i), top);
    }
    PeakBounds(u);
    hide PeakOf;
    ProductSign(2.0 * b[j], top);
    ProductSign(top, ratio);
    TimesUpTo(PeakOf(u), cap, ratio, ratio);
    TimesGrows(b[j], top, ratio, like(j));
  }

  lemma TimesUpTo(a: real, b: real, c: real, d: real)
    requires 0.0 <= a <= b && 0.0 <= c <= d
    ensures Times(a, c) <= Times(b, d)
  {
    ProductSign(b - a, c);
    ProductSign(b, d - c);
  }

  lemma TimesGrows(w: real, top: real, ratio: real, l: real)
    requires w > 0.0 && l > 2.0 * Times(top, ratio) >= 0.0
    ensures Times(w, l) > Times(Times(2.0 * w, top), ratio)
    ensures Times(w, l) > 0.0
  {
    ProductSign(w, l - 2.0 * Times(top, ratio));
    ProductSign(w, l);
    assert Times(Times(2.0 * w, top), ratio) == 2.0 * w * Times(top, ratio);
  }

  // The factor 2 cannot be improved: with any smaller likelihood the cell is
  // dropped when the best surviving cell was injected into as well.
  lemma InjectionCanDrop(b: seq<real>, like: nat -> real, ratio: real)
    requires Normalized([2.0, 1.0], b)
    requires ratio >= 0.0 && 0.0 <= like(1) <= like(0) && like(1) <= 2.0 * Times(like(0), ratio)
    ensures var (v, inj, r) := ([1.0, 0.0], [1.0, 1.0], [2.0, 1.0]);
            Reseeded(v, inj, r) && PeakOf(inj) == inj[1] > 0.0 && b[1] > 0.0 && Observed(b, like, ratio)[1] == 0.0
  {
    hide Total;
    var (v, inj, r) := ([1.0, 0.0], [1.0, 1.0], [2.0, 1.0]);
    if Total(r) > 0.0 { Twice(Total(r)); }
    PeakIs(v, 1.0);
    PeakIs(inj, 1.0);
    assert b[0] == 2.0 * b[1] && b[1] > 0.0;
    PairCut(b, like, ratio);
  }

  lemma Twice(t: real)
    requires t > 0.0
    ensures 2.0 / t == 2.0 * (1.0 / t) && 1.0 / t > 0.0
  {
  }

  // Of two cells, one with twice the weight of the other.
  lemma PairCut(b: seq<real>, like: nat -> real, ratio: real)
    requires |b| == 2 && b[0] == 2.0 * b[1] && b[1] > 0.0
    requires ratio >= 0.0 && 0.0 <= like(1) <= like(0) && like(1) <= 2.0 * Times(like(0), ratio)
    ensures Observed(b, like, ratio)[1] == 0.0
  {
    var u := Weighed(b, like);
    var top := Times(b[0], like(0));
    ProductSign(b[0], like(0));
    TimesUpTo(b[1], b[0], like(1), like(0));
    assert u[0] == top && u[1] == Times(b[1], like(1));
    PeakIs(u, top);
    TimesUpTo(b[1], b[1], like(1), 2.0 * Times(like(0), ratio));
    Regroup(b[1], like(0), ratio);
    hide PeakOf;
  }

  lemma Regroup(x: real, l: real, ratio: real)
    ensures Times(x, 2.0 * Times(l, ratio)) == Times(Times(2.0 * x, l), ratio)
  {
  }

  lemma ScaledBelow(x: real, p: real, q: real)
    requires 0.0 <= x <= q && p > 0.0 && q > 0.0
    ensures 0.0 <= Times(x, p / q) <= p && (x == q ==> Times(x, p / q) == p)
  {
    ProductSign(x, p / q);
    ProductSign(q - x, p / q);
    assert q * (p / q) == p;
  }

  // ------------------------------------------------------------ observing

  // What the run of quality scores makes the filter do after an observation.
  datatype Verdict = Keep | Reset(lost: bool) | ProbationFailed

  // A scan together with the motion since the last one.
  datatype Observation = Observation(
    moved: bool, move: Heading, rot: real, ticks: nat, blurXy: real, blurT: real,
    beams: bool, like: nat -> real, fit: nat -> real, ratio: real,
    globalMatch: bool, cands: seq<Candidate>, verdict: Verdict)

  ghost predicate Sensible(g: Grid, o: Observation) {
    && o.blurXy >= 0.0 && o.blurT >= 0.0 && o.ratio >= 0.0
    && (forall i :: o.like(i) >= 0.0) && Within(g, o.cands)
  }

  // ------------------------------------------------------------ what an observation does

  // The motion was applied to v: steps and aims are the dense transports, u the
  // belief after them.
  ghost predicate Flushed(g: Grid, o: Observation, v: seq<real>, steps: seq<seq<real>>, aims: seq<nat -> seq<Aim>>, u: seq<real>)
    requires g.Valid() && Sensible(g, o)
  {
    if o.ticks == 0 && !o.moved then u == v
    else Chain(steps, aims) && steps[0] == v && aims == MotionAims(g, o.moved, o.move, o.rot, o.ticks, o.blurXy, o.blurT) && Normalized(steps[|aims|], u)
  }

  // r is v equalised with the blobs of the candidates, normalised.
  ghost predicate Matched(g: Grid, cands: seq<Candidate>, v: seq<real>, r: seq<real>)
    requires g.Valid() && Within(g, cands)
  {
    exists inj, m :: InjectedSo(g, cands, inj) && Reseeded(v, inj, m) && Normalized(m, r)
  }

  // Starting over from v: from the candidates, or from the uniform.
  ghost predicate Recovered(g: Grid, o: Observation, v: seq<real>, r: seq<real>)
    requires g.Valid() && Sensible(g, o)
  {
    if o.globalMatch then Matched(g, o.cands, v, r) else Restarted(g, r)
  }

  ghost predicate Failed(g: Grid, globalMatch: bool, r: seq<real>)
    requires g.Valid()
  {
    if globalMatch then AllZero(r) else Restarted(g, r)
  }

  // From the weighted belief w to r, by the verdict; an empty w always recovers.
  ghost predicate Decided(g: Grid, o: Observation, w: seq<real>, r: seq<real>)
    requires g.Valid() && Sensible(g, o)
  {
    if AllZero(w) then Recovered(g, o, w, r)
    else match o.verdict
      case Keep => r == w
      case Reset(true) => Recovered(g, o, w, r)
      case Reset(false) => if o.globalMatch then Matched(g, o.cands, w, r) else if FreeStates(g) == 0 then r == w else Mixed(g, w, r)
      case ProbationFailed => Failed(g, o.globalMatch, r)
  }

  // The beliefs an observation passes through: after the motion, before the scan
  // and after it.
  datatype Trace = Trace(steps: seq<seq<real>>, aims: seq<nat -> seq<Aim>>, moved: seq<real>, prior: seq<real>, weighted: seq<real>)

  // The whole observation, from v to r.
  ghost predicate ObservedSo(g: Grid, o: Observation, v: seq<real>, r: seq<real>, quality: real, tr: Trace)
    requires g.Valid() && Sensible(g, o)
  {
    && Flushed(g, o, v, tr.steps, tr.aims, tr.moved)
    && (if AllZero(tr.moved) && !o.globalMatch then Restarted(g, tr.prior) else tr.prior == tr.moved)
    && (if !o.beams then r == tr.prior && quality == 0.0
        else if AllZero(tr.prior) then (if o.globalMatch then Matched(g, o.cands, tr.prior, r) else r == tr.prior) && quality == 0.0
        else
          && Normalized(Observed(tr.prior, o.like, o.ratio), tr.weighted)
          && quality == SumOver(Iota(g.Size()), Agreement(tr.prior, o.fit))
          && Decided(g, o, tr.weighted, r))
  }

  // No cell is active exactly when there is no mass.
  lemma EmptyIsZero(g: Grid, v: seq<real>, active: seq<nat>)
    requires g.Valid() && Sparse(g, v, active)
    ensures active == [] <==> AllZero(v)
  {
    hide Grid.FreeAt;
    if active != [] { assert active[0] in active; }
  }

  // Nothing is left of the belief: restart from the scan, or from the uniform.
  method Recover(s: Store, o: Observation)
    requires s.Normal() && Sensible(s.g, o)
    modifies s, s.b, s.scratch
    ensures s.Normal() && s.b == old(s.b) && s.scratch == old(s.scratch)
    ensures Recovered(s.g, o, old(s.b[..]), s.b[..])
    ensures !o.globalMatch && FreeStates(s.g) != 0 ==> Total(s.b[..]) == 1.0
  {
    hide Sparse, AllZero, Total, FreeStates, InjectedSo, Reseeded, Normalized;
    if o.globalMatch {
      var _, _ := ReseedWith(s, o.cands);
    } else {
      EnterUniformFree(s);
    }
  }

  // A trial period failed: start over, empty if the matcher will reseed.
  method FailProbation(s: Store, globalMatch: bool)
    requires s.Valid()
    modifies s, s.b, s.scratch
    ensures s.Normal() && s.b == old(s.b) && s.scratch == old(s.scratch)
    ensures Failed(s.g, globalMatch, s.b[..])
    ensures !globalMatch && FreeStates(s.g) != 0 ==> Total(s.b[..]) == 1.0
  {
    hide Sparse, AllZero, Total, FreeStates, Restarted;
    if globalMatch {
      ClearActive(s);
    } else {
      EnterUniformFree(s);
    }
  }

  // Apply the motion, weight by the scan, and reset if the scan disagrees. The
  // uniform is only ever mixed into a belief that still has mass.
  method Observe(s: Store, o: Observation) returns (quality: real, ghost tr: Trace)
    requires s.Normal() && Sensible(s.g, o)
    modifies s, s.b, s.scratch
    ensures s.Normal() && {s.b, s.scratch} == old({s.b, s.scratch})
    ensures ObservedSo(s.g, o, old(s.b[..]), s.b[..], quality, tr)
    ensures !o.globalMatch && FreeStates(s.g) != 0 ==> Total(s.b[..]) == 1.0
  {
    quality := 0.0;
    hide Total, Sparse, AllZero, FreeStates, Within, Normalized, Restarted, Matched, Flushed, Observed, Mixed, Failed;
    ghost var steps, aims := Move(s, o);
    ghost var moved := s.b[..];
    EmptyIsZero(s.g, s.b[..], s.active);
    if s.active == [] && !o.globalMatch { EnterUniformFree(s); }
    tr := Trace(steps, aims, moved, s.b[..], []);
    EmptyIsZero(s.g, s.b[..], s.active);
    if !o.beams { return; }
    if s.active == [] {
      if o.globalMatch { Recover(s, o); }
      return;
    }
    quality := SumObserve(s, o.like, o.fit, o.ratio);
    tr := tr.(weighted := s.b[..]);
    EmptyIsZero(s.g, s.b[..], s.active);
    Decide(s, o);
  }

  // The motion since the last scan.
  method Move(s: Store, o: Observation) returns (ghost steps: seq<seq<real>>, ghost aims: seq<nat -> seq<Aim>>)
    requires s.Normal() && Sensible(s.g, o)
    modifies s, s.b, s.scratch
    ensures s.Normal() && {s.b, s.scratch} == old({s.b, s.scratch})
    ensures Flushed(s.g, o, old(s.b[..]), steps, aims, s.b[..])
  {
    hide Total, Sparse, AllZero, Normalized, Within, MotionAims, Chain;
    steps, aims := Flush(s, o.moved, o.move, o.rot, o.ticks, o.blurXy, o.blurT);
  }

  // What the quality of the scan makes of the weighted belief.
  method Decide(s: Store, o: Observation)
    requires s.Normal() && Sensible(s.g, o)
    modifies s, s.b, s.scratch
    ensures s.Normal() && s.b == old(s.b) && s.scratch == old(s.scratch)
    ensures Decided(s.g, o, old(s.b[..]), s.b[..])
    ensures !o.globalMatch && FreeStates(s.g) != 0 ==> Total(s.b[..]) == 1.0
  {
    hide Total, Sparse, AllZero, FreeStates, Within, Restarted, Matched, Mixed, Failed;
    EmptyIsZero(s.g, s.b[..], s.active);
    if s.active == [] || o.verdict == Reset(true) {
      Recover(s, o);
    } else if o.verdict == Reset(false) {
      if o.globalMatch {
        Recover(s, o);
      } else {
        MixUniform(s);
      }
    } else if o.verdict == ProbationFailed {
      FailProbation(s, o.globalMatch);
    }
  }

  // ------------------------------------------------------------ runs

  datatype Op =
    | SeedOp(wx: nat -> real, wy: nat -> real, wt: nat -> real)
    | UniformOp
    | FailOp(globalMatch: bool)
    | ObserveOp(o: Observation)

  // What each operation does to the belief.
  ghost predicate Did(g: Grid, op: Op, v: seq<real>, r: seq<real>)
    requires g.Valid() && (op.ObserveOp? ==> Sensible(g, op.o))
  {
    match op
    case SeedOp(wx, wy, wt) => exists w :: LaidOut(g, SeedWeight(g, wx, wy, wt), w) && Normalized(w, r)
    case UniformOp => Restarted(g, r)
    case FailOp(globalMatch) => Failed(g, globalMatch, r)
    case ObserveOp(o) => exists quality, tr :: ObservedSo(g, o, v, r, quality, tr)
  }

  // states are the beliefs between the operations.
  ghost predicate Through(g: Grid, ops: seq<Op>, states: seq<seq<real>>)
    requires g.Valid() && forall op :: op in ops && op.ObserveOp? ==> Sensible(g, op.o)
  {
    |states| == |ops| + 1 && forall k :: 0 <= k < |ops| ==> Did(g, ops[k], states[k], states[k + 1])
  }

  lemma ThroughNext(g: Grid, ops: seq<Op>, k: nat, states: seq<seq<real>>, r: seq<real>)
    requires g.Valid() && k < |ops| && forall op :: op in ops && op.ObserveOp? ==> Sensible(g, op.o)
    requires Through(g, ops[..k], states) && (ops[k] in ops ==> Did(g, ops[k], states[k], r))
    ensures Through(g, ops[..k + 1], states + [r])
  {
    hide Did, Sensible;
    assert ops[..k + 1] == ops[..k] + [ops[k]];
  }

  // However the belief is driven, its invariant holds: the scratch vector is
  // zero, the active list is exactly the support, without repetition and on
  // free states, and the mass is 1 or nothing is left. And each operation did
  // to the belief what it stands for.
  method Run(s: Store, ops: seq<Op>) returns (ghost states: seq<seq<real>>)
    requires s.Normal() && forall op :: op in ops && op.ObserveOp? ==> Sensible(s.g, op.o)
    modifies s, s.b, s.scratch
    ensures s.Normal() && {s.b, s.scratch} == old({s.b, s.scratch})
    ensures Through(s.g, ops, states) && states[0] == old(s.b[..]) && states[|ops|] == s.b[..]
  {
    hide Total, Sparse, AllZero, FreeStates, Sensible, LaidOut, Normalized, Did, Restarted, Failed;
    states := [s.b[..]];
    assert ops[..|ops|] == ops;
    for k := 0 to |ops|
      invariant s.Normal() && {s.b, s.scratch} == old({s.b, s.scratch})
      invariant Through(s.g, ops[..k], states) && states[0] == old(s.b[..]) && states[k] == s.b[..]
    {
      assert ops[k] in ops;
      Apply(s, ops[k]);
      ThroughNext(s.g, ops, k, states, s.b[..]);
      states := states + [s.b[..]];
    }
  }

  method Apply(s: Store, op: Op)
    requires s.Normal() && (op.ObserveOp? ==> Sensible(s.g, op.o))
    modifies s, s.b, s.scratch
    ensures s.Normal() && {s.b, s.scratch} == old({s.b, s.scratch})
    ensures Did(s.g, op, old(s.b[..]), s.b[..])
  {
    hide Total, Sparse, AllZero, FreeStates, Sensible, LaidOut, Normalized, Restarted, Failed, ObservedSo, SeedWeight;
    match op
    case SeedOp(wx, wy, wt) => var _ := Seed(s, wx, wy, wt);
    case UniformOp => EnterUniformFree(s);
    case FailOp(globalMatch) => FailProbation(s, globalMatch);
    case ObserveOp(o) => var _, _ := Observe(s, o);
  }
}
