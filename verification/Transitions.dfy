// The transition table the host computes for a map resolution, and that it meets
// what the kernels hard-code.
module Transitions {
  import opened Basics
  import opened Bellman
  import opened Contract
  import opened Hls
  import opened StreamExact

  // Metres forward and degrees of turn of the six actions.
  function Forward(a: nat): real
    requires a < N_ACTIONS
  {
    [0.3, -0.2, 0.0, 0.0, 0.3, 0.3][a]
  }

  function Rotation(a: nat): real
    requires a < N_ACTIONS
  {
    [0.0, 0.0, 20.0, -20.0, 20.0, -20.0][a]
  }

  // Cosine and sine of the centre of each theta cell.
  type Trig = nat -> real

  // Cells entered along one axis, rounded down.
  function CellStep(fw: real, c: real, res: real): int
    requires res > 0.0
  {
    (fw * c / res).Floor
  }

  // The table for a resolution.
  ghost predicate IsTable(out: seq<U32>, res: real, cosine: Trig, sine: Trig, n: nat)
    requires res > 0.0
  {
    && |out| == N_ACTIONS * N_THETA && n <= |out|
    && forall k :: 0 <= k < n ==>
         var (a, it) := (k / N_THETA, k % N_THETA);
         out[k] == Word(CellStep(Forward(a), cosine(it), res), CellStep(Forward(a), sine(it), res), Turn(a), 0)
  }

  // The index of the theta cell an action turns to, relative to the present one.
  method ThetaStep(it: nat, rot: real) returns (dit: int)
    requires it < N_THETA && -360.0 < rot < 360.0
    ensures -30 <= dit <= 30
    ensures exists turns: int :: dit == ((it as real * 6.0 + 3.0 + rot) / 6.0).Floor - it + 60 * turns
  {
    var tRes := 360.0 / N_THETA as real;
    assert tRes == 6.0;
    var deg := it as real * tRes + tRes * 0.5;
    var nt := deg + rot;
    ghost var turns := 0;
    while nt < 0.0
      invariant nt == deg + rot + 360.0 * turns as real && -360.0 < nt < 720.0 && turns >= 0
      decreases 2 - turns
    {
      nt := nt + 360.0;
      turns := turns + 1;
    }
    while nt >= 360.0
      invariant nt == deg + rot + 360.0 * turns as real && 0.0 <= nt < 720.0
      decreases nt.Floor
    {
      nt := nt - 360.0;
      turns := turns - 1;
    }
    var newIt := (nt / tRes).Floor;
    Turned((deg + rot) / 6.0, turns);
    assert nt / 6.0 == (deg + rot) / 6.0 + 60.0 * turns as real;
    dit := newIt - it;
    if dit > N_THETA / 2 { dit := dit - N_THETA; turns := turns - 1; }
    if dit < -N_THETA / 2 { dit := dit + N_THETA; turns := turns + 1; }
    assert dit == ((it as real * 6.0 + 3.0 + rot) / 6.0).Floor - it + 60 * turns;
  }

  lemma Turned(x: real, turns: int)
    ensures (x + 60.0 * turns as real).Floor == x.Floor + 60 * turns
  {
  }

  // Turning by 20 degrees is turning by three theta cells of 6 degrees.
  lemma TurnIs(a: nat, it: nat, dit: int, turns: int)
    requires a < N_ACTIONS && it < N_THETA && -30 <= dit <= 30
    requires dit == ((it as real * 6.0 + 3.0 + Rotation(a)) / 6.0).Floor - it + 60 * turns
    ensures dit == Turn(a)
  {
    var f := ((it as real * 6.0 + 3.0 + Rotation(a)) / 6.0).Floor;
    assert (it as real * 6.0 + 3.0 + Rotation(a)) / 6.0 == it as real + (3.0 + Rotation(a)) / 6.0;
    assert f == it + Turn(a);
  }

  // One word of the table.
  method Packed(res: real, cosine: Trig, sine: Trig, a: nat, it: nat) returns (packed: U32)
    requires res > 0.0 && a < N_ACTIONS && it < N_THETA
    ensures packed == Word(CellStep(Forward(a), cosine(it), res), CellStep(Forward(a), sine(it), res), Turn(a), 0)
  {
    var dx, dy := Forward(a) * cosine(it), Forward(a) * sine(it);
    var dix, diy := (dx / res).Floor, (dy / res).Floor;
    var dit := ThetaStep(it, Rotation(a));
    ghost var turns :| dit == ((it as real * 6.0 + 3.0 + Rotation(a)) / 6.0).Floor - it + 60 * turns;
    TurnIs(a, it, dit, turns);
    packed := dix % 256 + 256 * (diy % 256) + 65536 * (dit % 256);
  }

  method TransitionsCompute(res: real, cosine: Trig, sine: Trig, out: array<U32>)
    requires res > 0.0 && out.Length == N_ACTIONS * N_THETA
    modifies out
    ensures IsTable(out[..], res, cosine, sine, out.Length)
  {
    hide Word, CellStep;
    for a := 0 to N_ACTIONS
      invariant IsTable(out[..], res, cosine, sine, a * N_THETA)
    {
      for it := 0 to N_THETA
        invariant IsTable(out[..], res, cosine, sine, a * N_THETA + it)
      {
        var packed := Packed(res, cosine, sine, a, it);
        DivMod(a, N_THETA, it);
        out[a * N_THETA + it] := packed;
      }
    }
  }

  // ------------------------------------------------------------ what the kernels rely on

  lemma StepBound(fw: real, c: real, res: real)
    requires -0.3 <= fw <= 0.3 && -1.0 <= c <= 1.0 && res >= 0.05
    ensures -6 <= CellStep(fw, c, res) <= 6
    ensures fw == 0.0 ==> CellStep(fw, c, res) == 0
  {
    var d := fw * c;
    assert -0.3 <= d <= 0.3 by { Within(fw, c); }
    var q := d / res;
    assert q * res == d;
    if q > 6.0 { Stretch(q, 6.0, res); }
    if q < -6.0 { Stretch(-6.0, q, res); }
  }

  lemma Within(a: real, c: real)
    requires -0.3 <= a <= 0.3 && -1.0 <= c <= 1.0
    ensures -0.3 <= a * c <= 0.3
  {
    if a >= 0.0 { Scaled(a, c); } else { Scaled(-a, c); }
  }

  lemma Scaled(a: real, c: real)
    requires 0.0 <= a && -1.0 <= c <= 1.0
    ensures -a <= a * c <= a
  {
  }

  lemma EntryOf(p: Problem, res: real, cosine: Trig, sine: Trig, a: nat, it: nat)
    requires |p.pen| == p.w * p.h && res >= 0.05 && IsTable(p.trans, res, cosine, sine, N_ACTIONS * N_THETA)
    requires a < N_ACTIONS && it < N_THETA && -1.0 <= cosine(it) <= 1.0 && -1.0 <= sine(it) <= 1.0
    ensures p.DeltaAt(a, it) == Delta(CellStep(Forward(a), cosine(it), res), CellStep(Forward(a), sine(it), res), Turn(a))
    ensures -6 <= p.DeltaAt(a, it).dix <= 6 && -6 <= p.DeltaAt(a, it).diy <= 6
    ensures 2 <= a <= 3 ==> p.DeltaAt(a, it).dix == 0 && p.DeltaAt(a, it).diy == 0
  {
    hide Word, Unpack, CellStep;
    DivMod(a, N_THETA, it);
    StepBound(Forward(a), cosine(it), res);
    StepBound(Forward(a), sine(it), res);
    UnpackWord(CellStep(Forward(a), cosine(it), res), CellStep(Forward(a), sine(it), res), Turn(a), 0);
  }

  // At 5 cm or coarser the host's table stays within the halo and turns as the
  // kernels hard-code.
  lemma HostMeetsKernels(p: Problem, res: real, cosine: Trig, sine: Trig)
    requires |p.pen| == p.w * p.h && res >= 0.05 && IsTable(p.trans, res, cosine, sine, N_ACTIONS * N_THETA)
    requires forall it :: -1.0 <= cosine(it) <= 1.0 && -1.0 <= sine(it) <= 1.0
    ensures p.Valid() && KernelTrans(p)
  {
    hide Unpack, Word, CellStep;
    forall a, it | 0 <= a < N_ACTIONS && 0 <= it < N_THETA
      ensures p.DeltaAt(a, it).dit == Turn(a) && -6 <= p.DeltaAt(a, it).dix <= 6 && -6 <= p.DeltaAt(a, it).diy <= 6
      ensures 2 <= a <= 3 ==> p.DeltaAt(a, it).dix == 0 && p.DeltaAt(a, it).diy == 0
    {
      EntryOf(p, res, cosine, sine, a, it);
    }
  }

  // A move of 0.3 m leaves the cell in some axis while the diagonal of a cell is
  // no longer than that.
  lemma Leaves(c: real, s: real, res: real)
    requires c * c + s * s == 1.0 && res > 0.0 && 2.0 * res * res <= 0.09
    ensures CellStep(0.3, c, res) != 0 || CellStep(0.3, s, res) != 0
  {
    if CellStep(0.3, c, res) == 0 && CellStep(0.3, s, res) == 0 {
      Shares(c, s);
      Inside(c, res);
      Inside(s, res);
    }
  }

  lemma Shares(c: real, s: real)
    requires c * c + s * s == 1.0
    ensures 0.09 * (c * c) + 0.09 * (s * s) == 0.09
  {
  }

  lemma Inside(c: real, res: real)
    requires res > 0.0 && CellStep(0.3, c, res) == 0
    ensures 0.09 * (c * c) < res * res
  {
    var q := 0.3 * c / res;
    assert q * res == 0.3 * c && 0.0 <= q < 1.0;
    var d := 0.3 * c;
    Stretch(1.0, q, res);
    assert 0.0 <= d < res;
    Squares(d, res);
    assert d * d == 0.09 * (c * c);
  }

  lemma Squares(a: real, b: real)
    requires 0.0 <= a < b
    ensures a * a < b * b
  {
    Stretch(b - a, 0.0, b + a);
    assert (b - a) * (b + a) == b * b - a * a;
  }

  // So from 5 cm up to about 21 cm the stream kernel is exact on every map and
  // every table, whatever the values.
  lemma HostIsTimely(p: Problem, res: real, cosine: Trig, sine: Trig)
    requires |p.pen| == p.w * p.h && res >= 0.05 && IsTable(p.trans, res, cosine, sine, N_ACTIONS * N_THETA)
    requires forall it :: -1.0 <= cosine(it) <= 1.0 && -1.0 <= sine(it) <= 1.0
    requires (forall it :: cosine(it) * cosine(it) + sine(it) * sine(it) == 1.0) && 2.0 * res * res <= 0.09
    ensures p.Valid() && KernelTrans(p) && Timely(p) && ScanExact(p)
  {
    HostMeetsKernels(p, res, cosine, sine);
    NeverBack(p, res, cosine, sine);
    hide KernelTrans, Timely, ScanExact, LoopExact, IsTable;
    ExactIffTimely(p);
  }

  lemma NeverBack(p: Problem, res: real, cosine: Trig, sine: Trig)
    requires p.Valid() && res >= 0.05 && IsTable(p.trans, res, cosine, sine, N_ACTIONS * N_THETA)
    requires forall it :: -1.0 <= cosine(it) <= 1.0 && -1.0 <= sine(it) <= 1.0
    requires (forall it :: cosine(it) * cosine(it) + sine(it) * sine(it) == 1.0) && 2.0 * res * res <= 0.09
    ensures Timely(p)
  {
    hide Unpack, IsTable, CellStep, Turn, WrapTheta;
    forall a, it | 4 <= a < N_ACTIONS && 0 <= it < N_THETA
      ensures !ReadsBack(p, a, it)
    {
      assert Forward(a) == 0.3;
      EntryOf(p, res, cosine, sine, a, it);
      Leaves(cosine(it), sine(it), res);
    }
  }
}
