// Reseeding from scored candidates: the surviving belief is scaled to the peak
// of the injected blobs before the two are added.
module BeliefReseed {
  import opened Sums
  import opened Basics
  import opened Belief
  import opened SparseBelief
  import opened BeliefMotion
  import opened BeliefUpdate
  import opened BeliefObserve

  // ------------------------------------------------------------ blobs

  // Three cells along x, weighted 1/2, 1, 1/2.
  function BlobX(g: Grid, x: int, y: int, t: int, w: real): seq<Aim>
    requires g.Valid() && g.nt > 0
  {
    [Aim(Target(g, x - 1, y, t), w * 0.5)] + [Aim(Target(g, x, y, t), w)] + [Aim(Target(g, x + 1, y, t), w * 0.5)]
  }

  function BlobXY(g: Grid, x: int, y: int, t: int, w: real): seq<Aim>
    requires g.Valid() && g.nt > 0
  {
    BlobX(g, x, y - 1, t, w * 0.5) + BlobX(g, x, y, t, w) + BlobX(g, x, y + 1, t, w * 0.5)
  }

  // The 3 x 3 x 3 block around state i; blocked and outside cells get nothing.
  function Blob(g: Grid, i: nat): seq<Aim>
    requires g.Valid() && i < g.Size()
  {
    g.Decode(i);
    BlobAt(g, g.X(i), g.Y(i), g.T(i))
  }

  function BlobAt(g: Grid, x: int, y: int, t: int): seq<Aim>
    requires g.Valid() && g.nt > 0
  {
    BlobXY(g, x, y, t - 1 + g.nt, 0.5) + BlobXY(g, x, y, t, 1.0) + BlobXY(g, x, y, t + 1, 0.5)
  }

  lemma BlobXProper(g: Grid, x: int, y: int, t: int, w: real)
    requires g.Valid() && g.nt > 0 && w >= 0.0
    ensures Proper(g, BlobX(g, x, y, t, w), w + w)
  {
    hide Proper, Target;
    var a, b, c := Aim(Target(g, x - 1, y, t), w * 0.5), Aim(Target(g, x, y, t), w), Aim(Target(g, x + 1, y, t), w * 0.5);
    ProperOne(g, a);
    ProperOne(g, b);
    ProperOne(g, c);
    ProperAppend(g, [a], [b], a.w, b.w);
    ProperAppend(g, [a] + [b], [c], a.w + b.w, c.w);
  }

  lemma BlobXYProper(g: Grid, x: int, y: int, t: int, w: real)
    requires g.Valid() && g.nt > 0 && w >= 0.0
    ensures Proper(g, BlobXY(g, x, y, t, w), 4.0 * w)
  {
    hide Proper, BlobX;
    BlobXProper(g, x, y - 1, t, w * 0.5);
    BlobXProper(g, x, y, t, w);
    BlobXProper(g, x, y + 1, t, w * 0.5);
    var a, b, c := BlobX(g, x, y - 1, t, w * 0.5), BlobX(g, x, y, t, w), BlobX(g, x, y + 1, t, w * 0.5);
    ProperAppend(g, a, b, w, w + w);
    ProperAppend(g, a + b, c, w + (w + w), w);
  }

  // A blob has weight 8, of which the blocked part is lost.
  lemma BlobProper(g: Grid, x: int, y: int, t: int)
    requires g.Valid() && g.nt > 0
    ensures Proper(g, BlobAt(g, x, y, t), 8.0)
  {
    hide Proper, BlobXY;
    var (a, b, c) := (BlobXY(g, x, y, t - 1 + g.nt, 0.5), BlobXY(g, x, y, t, 1.0), BlobXY(g, x, y, t + 1, 0.5));
    assert Proper(g, a, 2.0) by { BlobXYProper(g, x, y, t - 1 + g.nt, 0.5); }
    assert Proper(g, b, 4.0) by { BlobXYProper(g, x, y, t, 1.0); }
    assert Proper(g, c, 2.0) by { BlobXYProper(g, x, y, t + 1, 0.5); }
    ProperAppend(g, a, b, 2.0, 4.0);
    ProperAppend(g, a + b, c, 6.0, 2.0);
  }

  // ------------------------------------------------------------ injection

  datatype Candidate = Candidate(score: real, at: nat)

  ghost predicate Within(g: Grid, cands: seq<Candidate>) { forall k :: 0 <= k < |cands| ==> cands[k].at < g.Size() }

  // What the blobs of all candidates bring to cell j.
  ghost function Injected(g: Grid, cands: seq<Candidate>, j: nat): real
    requires g.Valid() && Within(g, cands)
  {
    if |cands| == 0 then 0.0
    else
      var c := cands[|cands| - 1];
      Injected(g, cands[..|cands| - 1], j) + Times(Positive(c.score), Arrive(Blob(g, c.at), j))
  }

  ghost predicate InjectedSo(g: Grid, cands: seq<Candidate>, v: seq<real>)
    requires g.Valid() && Within(g, cands)
  {
    |v| == g.Size() && forall j :: 0 <= j < |v| ==> v[j] == Injected(g, cands, j)
  }

  lemma InjectedNext(g: Grid, cands: seq<Candidate>, k: nat, v: seq<real>, v': seq<real>)
    requires g.Valid() && Within(g, cands) && k < |cands| && InjectedSo(g, cands[..k], v) && |v'| == |v|
    requires forall j :: 0 <= j < |v| ==> v'[j] == v[j] + Times(Positive(cands[k].score), Arrive(Blob(g, cands[k].at), j))
    ensures InjectedSo(g, cands[..k + 1], v')
  {
    assert cands[..k + 1][..k] == cands[..k];
    hide Blob, Arrive, Times, Positive;
  }

  lemma InjectedNone(g: Grid, cands: seq<Candidate>, v: seq<real>)
    requires g.Valid() && Within(g, cands) && |v| == g.Size() && AllZero(v)
    ensures InjectedSo(g, cands[..0], v)
  {
  }

  // The blob of one candidate; deposits of no mass are skipped.
  method InjectOne(s: Store, newc: seq<nat>, c: Candidate) returns (newc': seq<nat>)
    requires s.g.Valid() && c.at < s.g.Size() && Sparse(s.g, s.scratch[..], newc)
    modifies s.scratch
    ensures Sparse(s.g, s.scratch[..], newc')
    ensures forall j :: 0 <= j < s.scratch.Length ==>
      s.scratch[j] == old(s.scratch[j]) + Times(Positive(c.score), Arrive(Blob(s.g, c.at), j))
  {
    newc' := newc;
    if c.score > 0.0 {
      BlobGood(s.g, c.at);
      hide Sparse, Blob, Times;
      newc' := ScatterCell(s.g, s.scratch, newc, c.score, Blob(s.g, c.at));
    } else {
      hide Blob;
      forall j | 0 <= j < s.scratch.Length
        ensures Times(Positive(c.score), Arrive(Blob(s.g, c.at), j)) == 0.0
      {
        ZeroTimes(Positive(c.score), Arrive(Blob(s.g, c.at), j));
      }
    }
  }

  // Assemble the blobs in the scratch vector.
  method Inject(s: Store, cands: seq<Candidate>) returns (newc: seq<nat>)
    requires s.Valid() && Within(s.g, cands)
    modifies s.scratch
    ensures Sparse(s.g, s.scratch[..], newc) && InjectedSo(s.g, cands, s.scratch[..])
  {
    hide Sparse, InjectedSo, Blob, Arrive, Times, Positive, AllZero;
    newc := [];
    EmptySparse(s.g, s.scratch[..]);
    assert cands[..|cands|] == cands;
    InjectedNone(s.g, cands, s.scratch[..]);
    for k := 0 to |cands|
      invariant s.scratch.Length == s.g.Size()
      invariant Sparse(s.g, s.scratch[..], newc) && InjectedSo(s.g, cands[..k], s.scratch[..])
    {
      ghost var v := s.scratch[..];
      newc := InjectOne(s, newc, cands[k]);
      InjectedNext(s.g, cands, k, v, s.scratch[..]);
    }
  }

  lemma BlobGood(g: Grid, i: nat)
    requires g.Valid() && i < g.Size()
    ensures GoodAims(g, Blob(g, i))
  {
    g.Decode(i);
    BlobProper(g, g.X(i), g.Y(i), g.T(i));
    hide BlobAt;
  }

  // ------------------------------------------------------------ the equalised sum

  // What the surviving belief is scaled by: it brings its peak to the injected peak.
  ghost function Equaliser(v: seq<real>, inj: seq<real>): real {
    if PeakOf(inj) > 0.0 && PeakOf(v) > 0.0 then PeakOf(inj) / PeakOf(v) else 1.0
  }

  ghost predicate Reseeded(v: seq<real>, inj: seq<real>, r: seq<real>) {
    |r| == |v| == |inj| && forall i :: 0 <= i < |v| ==> r[i] == Times(v[i], Equaliser(v, inj)) + inj[i]
  }

  lemma SparseListed(g: Grid, v: seq<real>, active: seq<nat>)
    requires g.Valid() && Sparse(g, v, active)
    ensures Listed(g, v, active)
  {
  }

  // The belief after the first k blob cells were folded in.
  ghost predicate FoldedTo(b0: seq<real>, c0: seq<real>, b: seq<real>, c: seq<real>, newc: seq<nat>, k: nat)
    requires k <= |newc|
  {
    && |b| == |b0| == |c| == |c0|
    && (forall i :: 0 <= i < |b| ==> b[i] == if i in newc[..k] then b0[i] + c0[i] else b0[i])
    && (forall i :: 0 <= i < |b| ==> c[i] == if i in newc[..k] then 0.0 else c0[i])
  }

  lemma FoldedNext(g: Grid, b0: seq<real>, c0: seq<real>, b: seq<real>, c: seq<real>, newc: seq<nat>, k: nat)
    requires g.Valid() && Sparse(g, c0, newc) && k < |newc| && FoldedTo(b0, c0, b, c, newc, k)
    ensures newc[k] < |b| && g.FreeAt(newc[k])
    ensures FoldedTo(b0, c0, b[newc[k] := b[newc[k]] + Positive(c[newc[k]])], c[newc[k] := 0.0], newc, k + 1)
  {
    ActiveAt(g, c0, newc, k);
    hide Sparse, Grid.FreeAt;
  }

  // Move the blobs from the scratch vector into the belief, clearing the scratch.
  method Fold(s: Store, newc: seq<nat>)
    requires s.g.Valid() && s.b != s.scratch && s.b.Length == s.scratch.Length == s.g.Size()
    requires Sparse(s.g, s.b[..], s.active) && Sparse(s.g, s.scratch[..], newc)
    modifies s`active, s.b, s.scratch
    ensures s.Valid()
    ensures forall i :: 0 <= i < s.b.Length ==> s.b[i] == old(s.b[i]) + old(s.scratch[i])
  {
    ghost var b0, c0 := s.b[..], s.scratch[..];
    hide Sparse, FoldedTo, Total;
    assert FoldedTo(b0, c0, b0, c0, newc, 0) by { FoldedNone(b0, c0, newc); }
    for k := 0 to |newc|
      invariant Sparse(s.g, s.b[..], s.active) && FoldedTo(b0, c0, s.b[..], s.scratch[..], newc, k)
    {
      var j := newc[k];
      FoldedNext(s.g, b0, c0, s.b[..], s.scratch[..], newc, k);
      ghost var c := s.scratch[..];
      var add := s.scratch[j];
      s.scratch[j] := 0.0;
      assert s.scratch[..] == c[j := 0.0];
      s.active := Deposit(s.g, s.b, s.active, j, add);
      assert s.scratch[..] == c[j := 0.0];
    }
    FoldedAll(s.g, b0, c0, s.b[..], s.scratch[..], newc);
  }

  lemma FoldedNone(b0: seq<real>, c0: seq<real>, newc: seq<nat>)
    requires |b0| == |c0|
    ensures FoldedTo(b0, c0, b0, c0, newc, 0)
  {
  }

  lemma FoldedAll(g: Grid, b0: seq<real>, c0: seq<real>, b: seq<real>, c: seq<real>, newc: seq<nat>)
    requires g.Valid() && Sparse(g, c0, newc) && FoldedTo(b0, c0, b, c, newc, |newc|)
    ensures AllZero(c) && |b| == |b0| && forall i :: 0 <= i < |b| ==> b[i] == b0[i] + c0[i]
  {
    hide Grid.FreeAt;
    assert newc[..|newc|] == newc;
  }

  // Add the candidates' blobs to the belief, equalised, and normalise.
  method ReseedWith(s: Store, cands: seq<Candidate>) returns (ghost inj: seq<real>, ghost r: seq<real>)
    requires s.Valid() && Within(s.g, cands)
    modifies s`active, s.b, s.scratch
    ensures s.Normal() && InjectedSo(s.g, cands, inj)
    ensures Reseeded(old(s.b[..]), inj, r) && Normalized(r, s.b[..])
  {
    hide Sparse, InjectedSo, Normalized, Total;
    ghost var v := s.b[..];
    var newc := Inject(s, cands);
    assert s.b[..] == v;
    inj := s.scratch[..];
    Equalise(s, newc);
    r := s.b[..];
    s.NormalizeActive();
  }

  method Equalise(s: Store, newc: seq<nat>)
    requires s.g.Valid() && s.b != s.scratch && s.b.Length == s.scratch.Length == s.g.Size()
    requires Sparse(s.g, s.b[..], s.active) && Sparse(s.g, s.scratch[..], newc)
    modifies s`active, s.b, s.scratch
    ensures s.Valid() && Reseeded(old(s.b[..]), old(s.scratch[..]), s.b[..])
  {
    ghost var v, inj := s.b[..], s.scratch[..];
    SparseListed(s.g, v, s.active);
    SparseListed(s.g, inj, newc);
    hide Sparse, Listed, Times;
    var newMax := Peak(s.g, s.scratch, newc);
    var oldMax := Peak(s.g, s.b, s.active);
    if newMax > 0.0 && oldMax > 0.0 {
      assert newMax / oldMax > 0.0;
      ScaleActive(s, newMax / oldMax);
    } else {
      forall i | 0 <= i < |v|
        ensures Times(v[i], 1.0) == v[i]
      {
        TimesOne(v[i]);
      }
    }
    assert s.scratch[..] == inj;
    assert forall i :: 0 <= i < |v| ==> s.b[i] == Times(v[i], Equaliser(v, inj));
    Fold(s, newc);
  }

  lemma TimesOne(a: real)
    ensures Times(a, 1.0) == a
  {
  }
}
