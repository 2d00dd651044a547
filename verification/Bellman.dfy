// The 16-bit Bellman update and its order-free theory.
//
// A table gives every state (x, y, theta) of the map a 16-bit value. Updating
// one state replaces its value by the minimum, over its actions, of the
// saturating cost of the successor. Everything an engine does to the table is
// a sequence of such updates, so an engine is specified by the order in which
// it visits states.
module Bellman {

  type U16 = n: nat | n <= 0xFFFF

  const MAX_VALUE: U16 := 0xFFFF

  datatype State = State(x: int, y: int, t: int)

  // One action seen from one state: it leaves the map or hits an obstacle, or
  // it enters a state whose cell costs `pen` (0 for a goal cell).
  datatype Move = Blocked | Step(to: State, pen: nat)

  type Table = map<State, U16>

  // States that are not free (goals, obstacles) keep their value for ever.
  datatype Net = Net(states: set<State>, free: set<State>, moves: map<State, seq<Move>>) {
    ghost predicate Valid() {
      && free <= states
      && moves.Keys == free
      && forall s, i :: s in free && 0 <= i < |moves[s]| && moves[s][i].Step? ==> moves[s][i].to in states
    }
  }

  function Min(a: U16, b: U16): U16 { if a < b then a else b }

  function Max(a: U16, b: U16): U16 { if a < b then b else a }

  function Diff(a: U16, b: U16): U16 { if a > b then a - b else b - a }

  // Saturating cost of entering a cell of penalty `pen` whose value is `nv`.
  function CostOf(nv: U16, pen: nat): U16 {
    if nv == MAX_VALUE then MAX_VALUE
    else if nv + pen >= MAX_VALUE then MAX_VALUE - 1
    else nv + pen
  }

  function Cand(m: Move, V: Table): U16 {
    if m.Step? && m.to in V then CostOf(V[m.to], m.pen) else MAX_VALUE
  }

  function Best(ms: seq<Move>, V: Table): U16 {
    if |ms| == 0 then MAX_VALUE
    else Min(Best(ms[..|ms| - 1], V), Cand(ms[|ms| - 1], V))
  }

  function Bell(net: Net, V: Table, s: State): U16 {
    if s in net.moves then Best(net.moves[s], V) else MAX_VALUE
  }

  function Upd(net: Net, V: Table, s: State): Table {
    if s in net.free then V[s := Bell(net, V, s)] else V
  }

  // The amount by which updating `s` changes its value.
  function UpdDelta(net: Net, V: Table, s: State): U16 {
    if s in net.free && s in V then Diff(Bell(net, V, s), V[s]) else 0
  }

  function Run(net: Net, V: Table, order: seq<State>): Table {
    if |order| == 0 then V
    else Upd(net, Run(net, V, order[..|order| - 1]), order[|order| - 1])
  }

  // The largest change made by any update of the run.
  function RunDelta(net: Net, V: Table, order: seq<State>): U16 {
    if |order| == 0 then 0
    else
      var n := |order| - 1;
      Max(RunDelta(net, V, order[..n]), UpdDelta(net, Run(net, V, order[..n]), order[n]))
  }

  function Members(order: seq<State>): set<State> { set s | s in order }

  ghost predicate Leq(U: Table, V: Table) {
    U.Keys == V.Keys && forall s :: s in U ==> U[s] <= V[s]
  }

  ghost predicate SamePins(net: Net, U: Table, V: Table) {
    U.Keys == V.Keys && forall s :: s in U && s !in net.free ==> U[s] == V[s]
  }

  // No update of a state of B can raise its value.
  ghost predicate SettlingOn(net: Net, V: Table, B: set<State>) {
    forall s :: s in net.free && s in B && s in V ==> Bell(net, V, s) <= V[s]
  }

  // No update can raise a value of V.
  ghost predicate Settling(net: Net, V: Table) {
    forall s :: s in net.free && s in V ==> Bell(net, V, s) <= V[s]
  }

  ghost predicate Fixed(net: Net, V: Table) {
    forall s :: s in net.free && s in V ==> Bell(net, V, s) == V[s]
  }

  // A table no update would leave below itself; every fixed point is one.
  ghost predicate Rising(net: Net, F: Table) {
    forall s :: s in net.free && s in F ==> F[s] <= Bell(net, F, s)
  }

  // The table every solve starts from: free states at the maximum.
  ghost predicate Seeded(net: Net, V: Table) {
    V.Keys == net.states && forall s :: s in net.free && s in V ==> V[s] == MAX_VALUE
  }

  // ---------------------------------------------------------------- monotone

  lemma {:induction false} BestMonotone(ms: seq<Move>, U: Table, V: Table)
    requires Leq(U, V)
    ensures Best(ms, U) <= Best(ms, V)
  {
    if |ms| > 0 {
      BestMonotone(ms[..|ms| - 1], U, V);
    }
  }

  lemma {:induction false} BestAttained(ms: seq<Move>, V: Table)
    ensures forall i :: 0 <= i < |ms| ==> Best(ms, V) <= Cand(ms[i], V)
    ensures Best(ms, V) == MAX_VALUE || exists i :: 0 <= i < |ms| && Best(ms, V) == Cand(ms[i], V)
  {
    if |ms| > 0 {
      var n := |ms| - 1;
      BestAttained(ms[..n], V);
      forall i | 0 <= i < |ms|
        ensures Best(ms, V) <= Cand(ms[i], V)
      {
        if i < n {
          assert ms[..n][i] == ms[i];
        }
      }
      if Best(ms, V) != MAX_VALUE && Best(ms, V) != Cand(ms[n], V) {
        var i :| 0 <= i < n && Best(ms[..n], V) == Cand(ms[..n][i], V);
        assert ms[..n][i] == ms[i];
      }
    }
  }

  // ---------------------------------------------------------------- runs

  lemma RunNone(net: Net, V: Table)
    ensures Run(net, V, []) == V && RunDelta(net, V, []) == 0
  {
  }

  lemma RunSnoc(net: Net, V: Table, order: seq<State>, s: State)
    ensures Run(net, V, order + [s]) == Upd(net, Run(net, V, order), s)
    ensures RunDelta(net, V, order + [s]) == Max(RunDelta(net, V, order), UpdDelta(net, Run(net, V, order), s))
  {
    assert (order + [s])[..|order|] == order;
  }

  lemma {:induction false} RunAppend(net: Net, V: Table, a: seq<State>, b: seq<State>)
    ensures Run(net, V, a + b) == Run(net, Run(net, V, a), b)
    ensures RunDelta(net, V, a + b) == Max(RunDelta(net, V, a), RunDelta(net, Run(net, V, a), b))
    decreases |b|
  {
    if |b| == 0 {
      assert a + b == a;
    } else {
      var n := |b| - 1;
      assert (a + b)[..|a + b| - 1] == a + b[..n];
      RunAppend(net, V, a, b[..n]);
    }
  }

  lemma {:induction false} RunKeys(net: Net, V: Table, order: seq<State>)
    requires net.free <= V.Keys
    ensures Run(net, V, order).Keys == V.Keys
    ensures SamePins(net, V, Run(net, V, order))
  {
    if |order| > 0 {
      RunKeys(net, V, order[..|order| - 1]);
    }
  }

  // States outside the order keep their value.
  lemma {:induction false} RunFrame(net: Net, V: Table, order: seq<State>, s: State)
    requires net.free <= V.Keys
    requires s in V && s !in order
    ensures s in Run(net, V, order) && Run(net, V, order)[s] == V[s]
  {
    RunKeys(net, V, order);
    if |order| > 0 {
      RunKeys(net, V, order[..|order| - 1]);
      RunFrame(net, V, order[..|order| - 1], s);
    }
  }

  lemma UpdSettlesOn(net: Net, V: Table, B: set<State>, s: State)
    requires net.free <= V.Keys && SettlingOn(net, V, B) && s in B
    ensures SettlingOn(net, Upd(net, V, s), B) && Leq(Upd(net, V, s), V)
  {
    var W := Upd(net, V, s);
    assert Leq(W, V);
    forall u | u in net.free && u in B && u in W
      ensures Bell(net, W, u) <= W[u]
    {
      if u in net.moves {
        BestMonotone(net.moves[u], W, V);
      }
    }
  }

  // A run over states of B that starts settling on B never raises a value,
  // stays settling on B, and lowers every free state it visits to at most its
  // Bellman value in the starting table.
  lemma {:induction false} RunSettlesOn(net: Net, V: Table, B: set<State>, order: seq<State>)
    requires net.free <= V.Keys && SettlingOn(net, V, B)
    requires forall s :: s in order ==> s in B
    ensures Run(net, V, order).Keys == V.Keys
    ensures SettlingOn(net, Run(net, V, order), B) && Leq(Run(net, V, order), V)
    ensures forall s :: s in order && s in net.free ==> Run(net, V, order)[s] <= Bell(net, V, s)
  {
    if |order| > 0 {
      var n := |order| - 1;
      var P := Run(net, V, order[..n]);
      RunSettlesOn(net, V, B, order[..n]);
      UpdSettlesOn(net, P, B, order[n]);
      forall s | s in order && s in net.free
        ensures Run(net, V, order)[s] <= Bell(net, V, s)
      {
        if s == order[n] {
          if s in net.moves { BestMonotone(net.moves[s], P, V); }
        } else {
          var i :| 0 <= i < |order| && order[i] == s;
          assert order[..n][i] == s;
        }
      }
    }
  }

  // The same for a table that settles everywhere.
  lemma RunSettles(net: Net, V: Table, order: seq<State>)
    requires net.free <= V.Keys && Settling(net, V)
    ensures Run(net, V, order).Keys == V.Keys
    ensures Settling(net, Run(net, V, order)) && Leq(Run(net, V, order), V)
    ensures forall s :: s in order && s in net.free ==> Run(net, V, order)[s] <= Bell(net, V, s)
  {
    RunSettlesOn(net, V, net.free + Members(order), order);
  }

  lemma UpdAboveRising(net: Net, F: Table, V: Table, s: State)
    requires net.free <= V.Keys && Rising(net, F) && Leq(F, V)
    ensures Leq(F, Upd(net, V, s))
  {
    if s in net.free && s in net.moves {
      BestMonotone(net.moves[s], F, V);
    }
  }

  // No run drops below a rising table it starts above.
  lemma {:induction false} RunAboveRising(net: Net, F: Table, V: Table, order: seq<State>)
    requires net.free <= V.Keys && Rising(net, F) && Leq(F, V)
    ensures Leq(F, Run(net, V, order))
  {
    if |order| > 0 {
      RunAboveRising(net, F, V, order[..|order| - 1]);
      RunKeys(net, V, order[..|order| - 1]);
      UpdAboveRising(net, F, Run(net, V, order[..|order| - 1]), order[|order| - 1]);
    }
  }

  // Order independence: whatever the visiting order, a run that comes to rest
  // rests at the greatest fixed point below its starting table.
  lemma {:induction false} OrderIndependence(net: Net, V: Table, a: seq<State>, b: seq<State>)
    requires net.free <= V.Keys && Settling(net, V)
    requires Fixed(net, Run(net, V, a))
    ensures forall F: Table :: Rising(net, F) && Leq(F, V) ==> Leq(F, Run(net, V, a))
    ensures Fixed(net, Run(net, V, b)) ==> Run(net, V, a) == Run(net, V, b)
  {
    forall F: Table | Rising(net, F) && Leq(F, V)
      ensures Leq(F, Run(net, V, a))
    {
      RunAboveRising(net, F, V, a);
    }
    if Fixed(net, Run(net, V, b)) {
      RunSettles(net, V, a);
      RunSettles(net, V, b);
      RunAboveRising(net, Run(net, V, a), V, b);
      RunAboveRising(net, Run(net, V, b), V, a);
    }
  }

  // The change of step k of a run: the absolute difference of the visited
  // state's value before and after.
  function StepDelta(net: Net, V: Table, order: seq<State>, k: nat): int
    requires k < |order|
  {
    var (P, W, s) := (Run(net, V, order[..k]), Run(net, V, order[..k + 1]), order[k]);
    if s in P && s in W then (if W[s] >= P[s] then W[s] - P[s] else P[s] - W[s]) else 0
  }

  // What a run reports is the largest of these.
  lemma {:induction false} DeltaIsLargest(net: Net, V: Table, order: seq<State>)
    requires net.free <= V.Keys
    ensures forall k :: 0 <= k < |order| ==> StepDelta(net, V, order, k) <= RunDelta(net, V, order)
    ensures RunDelta(net, V, order) == 0 || exists k :: 0 <= k < |order| && StepDelta(net, V, order, k) == RunDelta(net, V, order)
  {
    if |order| > 0 {
      var n := |order| - 1;
      DeltaIsLargest(net, V, order[..n]);
      LastDelta(net, V, order);
      forall k | 0 <= k < n
        ensures StepDelta(net, V, order, k) == StepDelta(net, V, order[..n], k)
      {
        StepSame(net, V, order, n, k);
      }
      hide Run, RunDelta, StepDelta;
      if RunDelta(net, V, order) != 0 && RunDelta(net, V, order) != StepDelta(net, V, order, n) {
        var k :| 0 <= k < n && StepDelta(net, V, order[..n], k) == RunDelta(net, V, order[..n]);
        assert StepDelta(net, V, order, k) == RunDelta(net, V, order);
      }
    }
  }

  lemma StepSame(net: Net, V: Table, order: seq<State>, n: nat, k: nat)
    requires k < n <= |order|
    ensures StepDelta(net, V, order, k) == StepDelta(net, V, order[..n], k)
  {
    hide Run;
    assert order[..n][..k] == order[..k] && order[..n][..k + 1] == order[..k + 1];
  }

  lemma LastDelta(net: Net, V: Table, order: seq<State>)
    requires net.free <= V.Keys && |order| > 0
    ensures var d := StepDelta(net, V, order, |order| - 1);
            d >= 0 && RunDelta(net, V, order[..|order| - 1]) <= RunDelta(net, V, order)
            && (RunDelta(net, V, order) == d || RunDelta(net, V, order) == RunDelta(net, V, order[..|order| - 1]))
            && d <= RunDelta(net, V, order)
  {
    var n := |order| - 1;
    assert order[..n + 1] == order;
    RunKeys(net, V, order[..n]);
    hide Bell;
  }

  // A run that changed nothing and visited every free state certifies an
  // exact fixed point.
  lemma {:induction false} ZeroDeltaCertifies(net: Net, V: Table, order: seq<State>)
    requires net.free <= V.Keys && RunDelta(net, V, order) == 0
    ensures Run(net, V, order) == V
    ensures forall s :: s in order && s in net.free ==> Bell(net, V, s) == V[s]
  {
    if |order| > 0 {
      var n := |order| - 1;
      ZeroDeltaCertifies(net, V, order[..n]);
      assert V[order[n] := if order[n] in V then V[order[n]] else 0] == V || order[n] !in V;
      forall s | s in order && s in net.free
        ensures Bell(net, V, s) == V[s]
      {
        var i :| 0 <= i < |order| && order[i] == s;
        if i < n {
          assert order[..n][i] == s;
        }
      }
    }
  }

  lemma {:induction false} FixedStays(net: Net, V: Table, order: seq<State>)
    requires net.free <= V.Keys && Fixed(net, V)
    ensures Run(net, V, order) == V && RunDelta(net, V, order) == 0
  {
    if |order| > 0 {
      FixedStays(net, V, order[..|order| - 1]);
    }
  }
}
