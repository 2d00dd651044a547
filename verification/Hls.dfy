// What the two hardware kernels share: the sentinel cost, the unpacked
// transition registers, and what a window of on-chip memory holds.
module Hls {
  import opened Bellman
  import opened Contract

  const HALO := 6

  // The saturating cost as the kernels compute it, sentinels included.
  function CostRaw(nv: U16, npRaw: U16): U16 {
    if nv == MAX_VALUE || npRaw == PENALTY_OBSTACLE then MAX_VALUE
    else
      var np := if npRaw == PENALTY_GOAL then 0 else npRaw;
      var sum: int := nv as int + np;
      if sum >= MAX_VALUE then MAX_VALUE - 1 else sum
  }

  // The bounds the kernels hard-code: moves stay within the halo, actions 2
  // and 3 turn on the spot, and the actions turn by 0, 0, +3, -3, +3, -3.
  ghost predicate KernelTrans(p: Problem)
    requires p.Valid()
  {
    && (forall a, it :: 0 <= a < N_ACTIONS && 0 <= it < N_THETA ==>
         var d := p.DeltaAt(a, it);
         -HALO <= d.dix <= HALO && -HALO <= d.diy <= HALO && d.dit == Turn(a))
    && (forall a, it :: 2 <= a <= 3 && 0 <= it < N_THETA ==> p.DeltaAt(a, it).dix == 0 && p.DeltaAt(a, it).diy == 0)
  }

  function Turn(a: int): int { if a == 2 || a == 4 then 3 else if a == 3 || a == 5 then -3 else 0 }

  // A table read with sentinels outside the map.
  ghost function ValAt(p: Problem, V: Table, x: int, y: int, t: int): U16 {
    if State(x, y, t) in V then V[State(x, y, t)] else MAX_VALUE
  }

  // ------------------------------------------------------- transition registers

  ghost predicate Registers(delta: array3<int>, p: Problem)
    requires p.Valid()
    reads delta
  {
    && delta.Length0 == N_ACTIONS && delta.Length1 == N_THETA && delta.Length2 == 3
    && forall a, it :: 0 <= a < N_ACTIONS && 0 <= it < N_THETA ==>
         Delta(delta[a, it, 0], delta[a, it, 1], delta[a, it, 2]) == p.DeltaAt(a, it)
  }

  method LoadTransitions(p: Problem, delta: array3<int>)
    requires p.Valid()
    requires delta.Length0 == N_ACTIONS && delta.Length1 == N_THETA && delta.Length2 == 3
    modifies delta
    ensures Registers(delta, p)
  {
    for i := 0 to N_ACTIONS * N_THETA
      invariant forall a, it :: 0 <= a < N_ACTIONS && 0 <= it < N_THETA && a * N_THETA + it < i ==>
        Delta(delta[a, it, 0], delta[a, it, 1], delta[a, it, 2]) == p.DeltaAt(a, it)
    {
      var d := Unpack(p.trans[i]);
      var a, t := i / N_THETA, i % N_THETA;
      delta[a, t, 0] := d.dix;
      delta[a, t, 1] := d.diy;
      delta[a, t, 2] := d.dit;
    }
  }

  // The registers of a packed word: its steps in x and y and its turn.
  lemma RegisterBytes(p: Problem, delta: array3<int>, a: nat, it: nat, dix: int, diy: int, dit: int, top: nat)
    requires p.Valid() && Registers(delta, p) && a < N_ACTIONS && it < N_THETA
    requires IsSigned8(dix) && IsSigned8(diy) && IsSigned8(dit) && top < 256
    requires p.trans[a * 60 + it] == Word(dix, diy, dit, top)
    ensures delta[a, it, 0] == dix && delta[a, it, 1] == diy && delta[a, it, 2] == dit
  {
    hide Unpack, Word;
    UnpackWord(dix, diy, dit, top);
    assert Delta(delta[a, it, 0], delta[a, it, 1], delta[a, it, 2]) == p.DeltaAt(a, it);
  }

  // ------------------------------------------------------------ six candidates

  // The candidate of action a, in terms of values and penalties with sentinels.
  ghost function RawCand(p: Problem, V: Table, s: State, a: nat): U16
    requires p.Valid() && 0 <= s.t < N_THETA && a < N_ACTIONS
  {
    var d := p.DeltaAt(a, s.t);
    CostRaw(ValAt(p, V, s.x + d.dix, s.y + d.diy, WrapTheta(s.t + d.dit)), p.PenAt(s.x + d.dix, s.y + d.diy))
  }

  lemma RawCandIsCand(p: Problem, V: Table, s: State, a: nat)
    requires p.Valid() && 0 <= s.t < N_THETA && a < N_ACTIONS && V.Keys == p.States()
    ensures RawCand(p, V, s, a) == Cand(p.MoveAt(s, a), V)
  {
    hide Unpack;
    var d := p.DeltaAt(a, s.t);
    assert -60 <= d.dit <= 60;
    var nx, ny, nt := s.x + d.dix, s.y + d.diy, WrapTheta(s.t + d.dit);
    assert 0 <= nt < N_THETA;
    assert p.InMap(nx, ny) ==> State(nx, ny, nt) in p.States();
  }

  // The reduction tree of the kernels.
  function MinTree(c0: U16, c1: U16, c2: U16, c3: U16, c4: U16, c5: U16): U16 {
    var min01 := if c0 < c1 then c0 else c1;
    var min23 := if c2 < c3 then c2 else c3;
    var min45 := if c4 < c5 then c4 else c5;
    var min03 := if min01 < min23 then min01 else min23;
    if min03 < min45 then min03 else min45
  }

  lemma BestOfSix(ms: seq<Move>, V: Table)
    requires |ms| == 6
    ensures Best(ms, V)
         == MinTree(Cand(ms[0], V), Cand(ms[1], V), Cand(ms[2], V), Cand(ms[3], V), Cand(ms[4], V), Cand(ms[5], V))
  {
    assert ms[..5][..4] == ms[..4];
    assert ms[..4][..3] == ms[..3];
    assert ms[..3][..2] == ms[..2];
    assert ms[..2][..1] == ms[..1];
    assert ms[..1][..0] == [];
    assert Best(ms[..1], V) == Min(MAX_VALUE, Cand(ms[0], V));
    assert Best(ms[..2], V) == Min(Best(ms[..1], V), Cand(ms[1], V));
    assert Best(ms[..3], V) == Min(Best(ms[..2], V), Cand(ms[2], V));
    assert Best(ms[..4], V) == Min(Best(ms[..3], V), Cand(ms[3], V));
    assert Best(ms[..5], V) == Min(Best(ms[..4], V), Cand(ms[4], V));
  }

  // The reduction tree over the six sentinel candidates is the Bellman value.
  lemma TreeIsBell(p: Problem, V: Table, s: State)
    requires p.Valid() && s in p.Free() && V.Keys == p.States()
    ensures Bell(p.Net(), V, s)
         == MinTree(RawCand(p, V, s, 0), RawCand(p, V, s, 1), RawCand(p, V, s, 2),
                    RawCand(p, V, s, 3), RawCand(p, V, s, 4), RawCand(p, V, s, 5))
  {
    hide RawCand, Cand, MinTree, Best, Problem.MoveAt;
    var ms := p.MovesAt(s);
    assert p.Net().moves[s] == ms;
    assert Bell(p.Net(), V, s) == Best(ms, V);
    BestOfSix(ms, V);
    RawCandIsCand(p, V, s, 0);
    RawCandIsCand(p, V, s, 1);
    RawCandIsCand(p, V, s, 2);
    RawCandIsCand(p, V, s, 3);
    RawCandIsCand(p, V, s, 4);
    RawCandIsCand(p, V, s, 5);
  }
}
