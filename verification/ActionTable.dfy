// The action table computed from a converged value table.
//
// For every free state the driver picks the action whose successor has the
// least value. Unlike the Bellman update it does not add the penalty of the
// cell entered, and it does not look at the penalty of the successor at all.
module ActionTable {
  import opened Bellman
  import opened Contract
  import opened Paths

  // The value of the successor of action a, 0xFFFF outside the map.
  function NextValue(p: Problem, V: Table, s: State, a: nat): U16
    requires p.Valid() && 0 <= s.t < N_THETA && a < N_ACTIONS
  {
    var t := Target(p, s, a);
    if p.InMap(t.x, t.y) && t in V then V[t] else MAX_VALUE
  }

  function Target(p: Problem, s: State, a: nat): State
    requires p.Valid() && 0 <= s.t < N_THETA && a < N_ACTIONS
  {
    var d := p.DeltaAt(a, s.t);
    State(s.x + d.dix, s.y + d.diy, WrapTheta(s.t + d.dit))
  }

  // The value the driver compares, from the buffers themselves.
  lemma NextValueIn(value: seq<U16>, p: Problem, x: int, y: int, it: nat, a: nat, dix: int, diy: int, dit: int, top: nat)
    requires p.Valid() && |value| >= p.Size() && p.InMap(x, y) && it < N_THETA && a < N_ACTIONS
    requires IsSigned8(dix) && IsSigned8(diy) && IsSigned8(dit) && top < 256
    requires p.trans[a * 60 + it] == Word(dix, diy, dit, top)
    ensures p.InMap(x + dix, y + diy) ==>
      var k := ((y + diy) * p.w + x + dix) * 60 + (it + dit) % 60;
      0 <= k < |value| && NextValue(p, p.Tab(value), State(x, y, it), a) == value[k]
    ensures !p.InMap(x + dix, y + diy) ==> NextValue(p, p.Tab(value), State(x, y, it), a) == 0xFFFF
  {
    hide Unpack, Word, Problem.Tab;
    UnpackWord(dix, diy, dit, top);
    assert p.DeltaAt(a, it) == Delta(dix, diy, dit);
    WrapIsMod(it + dit);
    if p.InMap(x + dix, y + diy) { TabAt(value, p, x + dix, y + diy, (it + dit) % 60); }
  }

  // Action b is the first of the first n actions with the least successor
  // value, or 0 if none of them has a successor below 0xFFFF.
  ghost predicate FirstLeast(p: Problem, V: Table, s: State, n: nat, b: nat)
    requires p.Valid() && 0 <= s.t < N_THETA && n <= N_ACTIONS && b < N_ACTIONS
  {
    if forall a :: 0 <= a < n ==> NextValue(p, V, s, a) == MAX_VALUE then b == 0
    else
      && b < n && NextValue(p, V, s, b) < MAX_VALUE
      && (forall a :: 0 <= a < n ==> NextValue(p, V, s, b) <= NextValue(p, V, s, a))
      && (forall a :: 0 <= a < b ==> NextValue(p, V, s, b) < NextValue(p, V, s, a))
  }

  // What the table must hold at state s.
  ghost predicate IsEntry(p: Problem, V: Table, s: State, b: nat)
    requires p.Valid() && 0 <= s.t < N_THETA && b < N_ACTIONS
  {
    if p.PenAt(s.x, s.y) >= PENALTY_GOAL then b == 0 else FirstLeast(p, V, s, N_ACTIONS, b)
  }

  method BestSuccessor(value: array<U16>, p: Problem, x: int, y: int, it: nat) returns (bestAct: nat)
    requires p.Valid() && value.Length >= p.Size() && p.InMap(x, y) && it < N_THETA
    ensures bestAct < N_ACTIONS && FirstLeast(p, p.Tab(value[..]), State(x, y, it), N_ACTIONS, bestAct)
  {
    hide Unpack, NextValue, Problem.Tab;
    ghost var V := p.Tab(value[..]);
    ghost var s := State(x, y, it);
    var bestCost: U16 := 0xFFFF;
    bestAct := 0;
    for a := 0 to N_ACTIONS
      invariant bestAct < N_ACTIONS && FirstLeast(p, V, s, a, bestAct)
      invariant bestCost == 0xFFFF ==> forall b :: 0 <= b < a ==> NextValue(p, V, s, b) == MAX_VALUE
      invariant bestCost < 0xFFFF ==> bestAct < a && bestCost == NextValue(p, V, s, bestAct)
    {
      var nv := SuccessorValue(value, p, x, y, it, a);
      if nv >= bestCost { continue; }
      bestCost := nv;
      bestAct := a;
    }
  }

  method SuccessorValue(value: array<U16>, p: Problem, x: int, y: int, it: nat, a: nat) returns (nv: U16)
    requires p.Valid() && value.Length >= p.Size() && p.InMap(x, y) && it < N_THETA && a < N_ACTIONS
    ensures nv == NextValue(p, p.Tab(value[..]), State(x, y, it), a)
  {
    var d := p.DeltaAt(a, it);
    var nx, ny, nt := x + d.dix, y + d.diy, it + d.dit;
    if nt < 0 { nt := nt + N_THETA; }
    if nt >= N_THETA { nt := nt - N_THETA; }
    if nx < 0 || nx >= p.w || ny < 0 || ny >= p.h { return 0xFFFF; }
    p.IdxBound(nx, ny, nt);
    nv := value[p.Idx(nx, ny, nt)];
    assert p.Tab(value[..])[State(nx, ny, nt)] == nv;
  }

  // The first `done` cells (row-major) of the table are filled.
  ghost predicate Filled(out: seq<nat>, p: Problem, V: Table, rows: int, cols: int)
    requires p.Valid()
  {
    && |out| == p.Size()
    && forall x, y, t :: p.InMap(x, y) && 0 <= t < N_THETA && (y < rows || (y == rows && x < cols)) ==>
         0 <= p.Idx(x, y, t) < |out| && out[p.Idx(x, y, t)] < N_ACTIONS
         && IsEntry(p, V, State(x, y, t), out[p.Idx(x, y, t)])
  }

  method CellActions(value: array<U16>, p: Problem, out: array<nat>, x: int, y: int)
    requires p.Valid() && value.Length >= p.Size() && out.Length == p.Size() && p.InMap(x, y)
    requires Filled(out[..], p, p.Tab(value[..]), y, x)
    modifies out
    ensures Filled(out[..], p, p.Tab(value[..]), y, x + 1)
  {
    hide FirstLeast, Problem.Tab, Problem.Idx;
    ghost var V := p.Tab(value[..]);
    p.CellBound(x, y);
    var cellPen := p.pen[y * p.w + x];
    for it := 0 to N_THETA
      invariant Filled(out[..], p, V, y, x)
      invariant forall t :: 0 <= t < it ==>
        0 <= p.Idx(x, y, t) < out.Length && out[p.Idx(x, y, t)] < N_ACTIONS && IsEntry(p, V, State(x, y, t), out[p.Idx(x, y, t)])
    {
      p.IdxBound(x, y, it);
      var act := 0;
      if cellPen < 0xFFFE {
        act := BestSuccessor(value, p, x, y, it);
      }
      FreshIdx(p, x, y, it);
      out[p.Idx(x, y, it)] := act;
    }
  }

  lemma FreshIdx(p: Problem, x: int, y: int, t: int)
    requires p.InMap(x, y) && 0 <= t < N_THETA
    ensures forall x', y', t' :: p.InMap(x', y') && 0 <= t' < N_THETA && p.Idx(x', y', t') == p.Idx(x, y, t) ==>
      x' == x && y' == y && t' == t
  {
    forall x', y', t' | p.InMap(x', y') && 0 <= t' < N_THETA && p.Idx(x', y', t') == p.Idx(x, y, t)
      ensures x' == x && y' == y && t' == t
    {
      p.IdxInjective(x', y', t', x, y, t);
    }
  }

  // Fill the action table of every state.
  method ComputeActionTable(value: array<U16>, p: Problem, out: array<nat>)
    requires p.Valid() && value.Length >= p.Size() && out.Length == p.Size()
    modifies out
    ensures Filled(out[..], p, p.Tab(value[..]), p.h, 0)
  {
    hide IsEntry, Problem.Tab, Problem.Idx;
    for y := 0 to p.h
      invariant Filled(out[..], p, p.Tab(value[..]), y, 0)
    {
      for x := 0 to p.w
        invariant Filled(out[..], p, p.Tab(value[..]), y, x)
      {
        CellActions(value, p, out, x, y);
      }
    }
  }

  // ------------------------------------------------------------ what it is worth

  // Obstacle states hold the maximum, goal states the maximum or zero.
  ghost predicate GoalsZero(p: Problem, V: Table)
    requires p.Valid()
  {
    forall s :: s in p.States() && s in V && p.PenAt(s.x, s.y) >= PENALTY_GOAL ==>
      V[s] == MAX_VALUE || (V[s] == 0 && p.PenAt(s.x, s.y) == PENALTY_GOAL)
  }

  // Obstacle states hold the maximum.
  ghost predicate ObstaclesMax(p: Problem, V: Table)
    requires p.Valid()
  {
    forall s :: s in p.States() && s in V && p.PenAt(s.x, s.y) == PENALTY_OBSTACLE ==> V[s] == MAX_VALUE
  }

  lemma CandAtLeastNext(p: Problem, V: Table, s: State, a: nat)
    requires p.Valid() && s in p.Free() && a < N_ACTIONS && V.Keys == p.States()
    ensures NextValue(p, V, s, a) <= Cand(p.MoveAt(s, a), V)
  {
    hide Unpack;
  }

  // On a fixed point with obstacles at the maximum, the chosen action of a
  // free state of finite value stays on the map, enters no obstacle, and leads
  // to a value not larger than the current one.
  lemma ActionDescends(p: Problem, V: Table, s: State, b: nat)
    requires p.Valid() && V.Keys == p.States() && Fixed(p.Net(), V) && ObstaclesMax(p, V)
    requires s in p.Free() && V[s] < MAX_VALUE && b < N_ACTIONS && IsEntry(p, V, s, b)
    ensures Target(p, s, b) in p.States()
    ensures p.PenAt(Target(p, s, b).x, Target(p, s, b).y) != PENALTY_OBSTACLE
    ensures V[Target(p, s, b)] <= V[s]
  {
    hide Unpack;
    var a := BestMove(p, V, s);
    CandAtLeastNext(p, V, s, a);
    assert NextValue(p, V, s, b) <= NextValue(p, V, s, a);
  }

  // Some action attains the value of a free state of a fixed point.
  lemma BestMove(p: Problem, V: Table, s: State) returns (a: nat)
    requires p.Valid() && V.Keys == p.States() && Fixed(p.Net(), V) && s in p.Free() && V[s] < MAX_VALUE
    ensures a < N_ACTIONS && V[s] == Cand(p.MoveAt(s, a), V)
  {
    hide Best, Cand;
    var ms := p.MovesAt(s);
    assert p.Net().moves[s] == ms;
    assert Bell(p.Net(), V, s) == Best(ms, V);
    BestAttained(ms, V);
    a :| 0 <= a < |ms| && Best(ms, V) == Cand(ms[a], V);
    assert ms[a] == p.MoveAt(s, a);
  }

  lemma LeastNext(p: Problem, V: Table, s: State, b: nat, a: nat)
    requires p.Valid() && 0 <= s.t < N_THETA && a < N_ACTIONS && b < N_ACTIONS && p.PenAt(s.x, s.y) < PENALTY_GOAL
    requires IsEntry(p, V, s, b)
    ensures NextValue(p, V, s, b) <= NextValue(p, V, s, a)
  {
    hide NextValue;
  }

  // An unsaturated positive cost lies strictly above the successor's value,
  // unless the cell entered is free of charge.
  lemma CandStrict(p: Problem, V: Table, s: State, a: nat)
    requires p.Valid() && V.Keys == p.States() && GoalsZero(p, V) && s in p.Free() && a < N_ACTIONS
    requires forall u :: u in p.Free() ==> p.PenAt(u.x, u.y) > 0
    requires 0 < Cand(p.MoveAt(s, a), V) < MAX_VALUE - 1
    ensures NextValue(p, V, s, a) < Cand(p.MoveAt(s, a), V)
  {
    hide Unpack;
    var t := Target(p, s, a);
    assert t in p.States();
    if p.PenAt(t.x, t.y) < PENALTY_GOAL {
      assert t in p.Free();
    }
  }

  // Where every free cell costs something and the value is not saturated, the
  // chosen action strictly descends until the value is zero.
  lemma ActionStrictlyDescends(p: Problem, V: Table, s: State, b: nat)
    requires p.Valid() && V.Keys == p.States() && Fixed(p.Net(), V) && GoalsZero(p, V)
    requires forall u :: u in p.Free() ==> p.PenAt(u.x, u.y) > 0
    requires s in p.Free() && 0 < V[s] < MAX_VALUE - 1 && b < N_ACTIONS && IsEntry(p, V, s, b)
    ensures Target(p, s, b) in p.States() && V[Target(p, s, b)] < V[s]
  {
    ActionDescends(p, V, s, b);
    var a := BestMove(p, V, s);
    CandStrict(p, V, s, a);
    LeastNext(p, V, s, b, a);
    hide Unpack, IsEntry, Fixed, Cand, GoalsZero;
  }

  // An action for every state, at free states the one the driver computes.
  ghost predicate Chosen(p: Problem, V: Table, act: State -> nat)
    requires p.Valid()
  {
    (forall u :: act(u) < N_ACTIONS) && forall u :: u in p.Free() ==> IsEntry(p, V, u, act(u))
  }

  // The policy read from the table the driver fills.
  function Policy(out: seq<nat>, p: Problem): State -> nat {
    (u: State) =>
      if p.InMap(u.x, u.y) && 0 <= u.t < N_THETA && 0 <= p.Idx(u.x, u.y, u.t) < |out| && out[p.Idx(u.x, u.y, u.t)] < N_ACTIONS
      then out[p.Idx(u.x, u.y, u.t)] else 0
  }

  // What ComputeActionTable leaves is such a choice.
  lemma FilledIsChosen(out: seq<nat>, p: Problem, V: Table)
    requires p.Valid() && Filled(out, p, V, p.h, 0)
    ensures Chosen(p, V, Policy(out, p))
  {
    hide IsEntry, Problem.Idx;
    forall u | u in p.Free()
      ensures IsEntry(p, V, u, Policy(out, p)(u))
    {
      assert p.InMap(u.x, u.y) && 0 <= u.t < N_THETA;
      assert State(u.x, u.y, u.t) == u;
    }
  }

  // The state reached by n chosen actions; pinned states are never left.
  ghost function Follow(p: Problem, act: State -> nat, s: State, n: nat): State
    requires p.Valid() && forall u :: act(u) < N_ACTIONS
  {
    if n == 0 then s
    else
      var u := Follow(p, act, s, n - 1);
      if u in p.Free() then Target(p, u, act(u)) else u
  }

  // Following the table from any unsaturated finite value reaches a state of
  // value zero within as many actions as the value.
  lemma {:induction false} FollowReachesZero(p: Problem, V: Table, act: State -> nat, s: State, n: nat) returns (k: nat)
    requires p.Valid() && V.Keys == p.States() && Fixed(p.Net(), V) && GoalsZero(p, V) && Chosen(p, V, act)
    requires forall u :: u in p.Free() ==> p.PenAt(u.x, u.y) > 0
    requires s in p.States() && n == V[s] < MAX_VALUE - 1
    ensures k <= n && Follow(p, act, s, k) in V && V[Follow(p, act, s, k)] == 0
    decreases n
  {
    hide IsEntry, Fixed, Target, Problem.PenAt, Problem.Net;
    if n == 0 {
      k := 0;
    } else {
      assert s in p.Free();
      var t := Target(p, s, act(s));
      ActionStrictlyDescends(p, V, s, act(s));
      var j := FollowReachesZero(p, V, act, t, V[t]);
      k := 1 + j;
      assert Follow(p, act, s, 0) == s && Follow(p, act, s, 1) == t;
      FollowAdd(p, act, s, 1, j);
    }
  }

  lemma {:induction false} FollowAdd(p: Problem, act: State -> nat, s: State, m: nat, n: nat)
    requires p.Valid() && forall u :: act(u) < N_ACTIONS
    ensures Follow(p, act, s, m + n) == Follow(p, act, Follow(p, act, s, m), n)
  {
    hide Target;
    if n > 0 {
      FollowAdd(p, act, s, m, n - 1);
    }
  }

  // ------------------------------------------------------------ arriving

  // Following the table from s ends in a goal state after at most `bound` actions.
  ghost predicate Arriving(p: Problem, act: State -> nat, s: State, bound: nat)
    requires p.Valid() && forall u :: act(u) < N_ACTIONS
  {
    exists k: nat :: k <= bound && IsGoal(p, Follow(p, act, s, k))
  }

  predicate IsGoal(p: Problem, s: State)
    requires p.Valid()
  {
    s in p.States() && p.PenAt(s.x, s.y) == PENALTY_GOAL
  }

  // Following the table from u comes back to u.
  ghost predicate Returning(p: Problem, act: State -> nat, u: State)
    requires p.Valid() && forall v :: act(v) < N_ACTIONS
  {
    exists k: nat :: k > 0 && Follow(p, act, u, k) == u
  }

  // A set of free states that the table leaves only into goals.
  ghost predicate Closed(p: Problem, act: State -> nat, z: set<State>)
    requires p.Valid() && forall u :: act(u) < N_ACTIONS
  {
    z <= p.Free() && forall u :: u in z && u in p.Free() ==> Target(p, u, act(u)) in z || IsGoal(p, Target(p, u, act(u)))
  }

  // A free state that comes back to itself stays free for ever.
  lemma {:induction false} ReturningRepeats(p: Problem, act: State -> nat, u: State, k: nat, n: nat)
    requires p.Valid() && (forall v :: act(v) < N_ACTIONS) && Follow(p, act, u, k) == u
    ensures Follow(p, act, u, n * k) == u
  {
    hide Follow;
    if n == 0 {
      assert 0 * k == 0;
      FollowNone(p, act, u);
    } else {
      ReturningRepeats(p, act, u, k, n - 1);
      assert n * k == (n - 1) * k + k;
      FollowAdd(p, act, u, (n - 1) * k, k);
    }
  }

  lemma FollowNone(p: Problem, act: State -> nat, u: State)
    requires p.Valid() && forall v :: act(v) < N_ACTIONS
    ensures Follow(p, act, u, 0) == u
  {
  }

  lemma {:induction false} PinnedStays(p: Problem, act: State -> nat, s: State, n: nat)
    requires p.Valid() && (forall u :: act(u) < N_ACTIONS) && s !in p.Free()
    ensures Follow(p, act, s, n) == s
  {
    if n > 0 {
      PinnedStays(p, act, s, n - 1);
    }
  }

  lemma ReturningNeverArrives(p: Problem, act: State -> nat, u: State, bound: nat)
    requires p.Valid() && (forall v :: act(v) < N_ACTIONS) && u in p.Free() && Returning(p, act, u)
    ensures !Arriving(p, act, u, bound)
  {
    hide Follow;
    var k: nat :| k > 0 && Follow(p, act, u, k) == u;
    forall m: nat | m <= bound
      ensures !IsGoal(p, Follow(p, act, u, m))
    {
      var g := Follow(p, act, u, m);
      if IsGoal(p, g) {
        ReturningRepeats(p, act, u, k, m);
        AtLeast(m, k);
        PinnedStays(p, act, g, m * k - m);
        FollowAdd(p, act, u, m, m * k - m);
      }
    }
  }

  lemma AtLeast(m: nat, k: nat)
    requires k > 0
    ensures m * k >= m
  {
  }

  // Inside a closed set the table arrives or visits one more state of it.
  lemma {:induction false} StaysClosed(p: Problem, act: State -> nat, z: set<State>, s: State, n: nat)
    requires p.Valid() && (forall u :: act(u) < N_ACTIONS) && Closed(p, act, z) && s in z
    ensures Follow(p, act, s, n) in z || Arriving(p, act, s, n)
  {
    hide Target, IsGoal, Closed, Arriving, Follow;
    if n == 0 {
      FollowNone(p, act, s);
    } else {
      StaysClosed(p, act, z, s, n - 1);
      if Arriving(p, act, s, n - 1) {
        NotYet(p, act, s, n - 1, n);
      } else {
        ClosedStep(p, act, z, s, n);
      }
    }
  }

  lemma ClosedStep(p: Problem, act: State -> nat, z: set<State>, s: State, n: nat)
    requires p.Valid() && (forall u :: act(u) < N_ACTIONS) && Closed(p, act, z) && n > 0 && Follow(p, act, s, n - 1) in z
    ensures Follow(p, act, s, n) in z || Arriving(p, act, s, n)
  {
    hide Target, IsGoal;
  }

  lemma NotYet(p: Problem, act: State -> nat, s: State, m: nat, n: nat)
    requires p.Valid() && (forall u :: act(u) < N_ACTIONS) && m <= n
    ensures Arriving(p, act, s, m) ==> Arriving(p, act, s, n)
  {
    hide Follow, IsGoal;
  }

  lemma FreeNeverArrives(p: Problem, act: State -> nat, s: State, bound: nat)
    requires p.Valid() && (forall u :: act(u) < N_ACTIONS) && forall n: nat :: Follow(p, act, s, n) in p.Free()
    ensures !Arriving(p, act, s, bound)
  {
    hide Follow;
  }

  // A closed set no state of which comes back is left within as many actions
  // as it has states.
  lemma ClosedArrives(p: Problem, act: State -> nat, z: set<State>, s: State)
    requires p.Valid() && (forall u :: act(u) < N_ACTIONS) && Closed(p, act, z) && s in z
    requires forall u :: u in z ==> !Returning(p, act, u)
    ensures Arriving(p, act, s, |z|)
  {
    hide Follow, Closed, IsGoal;
    if !Arriving(p, act, s, |z|) {
      var q := seq(|z| + 1, i requires 0 <= i <= |z| => Follow(p, act, s, i));
      forall i | 0 <= i <= |z|
        ensures q[i] in z
      {
        NotYet(p, act, s, i, |z|);
        StaysClosed(p, act, z, s, i);
      }
      forall i, j | 0 <= i < j <= |z|
        ensures q[i] != q[j]
      {
        FollowAdd(p, act, s, i, j - i);
        assert !Returning(p, act, q[i]);
      }
      DistinctFits(q, z);
    }
  }

  // The free states of finite value, and those of value zero.
  ghost function Reached(p: Problem, V: Table): set<State>
    requires p.Valid()
  {
    set s | s in p.Free() && s in V && V[s] < MAX_VALUE
  }

  ghost function ZeroFree(p: Problem, V: Table): set<State>
    requires p.Valid()
  {
    set s | s in p.Free() && s in V && V[s] == 0
  }

  lemma BelowClosed(p: Problem, V: Table, act: State -> nat, z: set<State>)
    requires p.Valid() && V.Keys == p.States() && Fixed(p.Net(), V) && ObstaclesMax(p, V) && Chosen(p, V, act)
    requires z == Reached(p, V) || z == ZeroFree(p, V)
    ensures Closed(p, act, z)
  {
    hide Target, IsEntry, Fixed, Problem.PenAt, ObstaclesMax;
    forall u | u in z
      ensures Target(p, u, act(u)) in z || IsGoal(p, Target(p, u, act(u)))
    {
      ActionDescends(p, V, u, act(u));
      Pinned(p, Target(p, u, act(u)));
    }
  }

  lemma Pinned(p: Problem, s: State)
    requires p.Valid() && s in p.States() && p.PenAt(s.x, s.y) != PENALTY_OBSTACLE
    ensures s in p.Free() || IsGoal(p, s)
  {
  }

  lemma PinnedIsGoal(p: Problem, V: Table, s: State)
    requires p.Valid() && V.Keys == p.States() && ObstaclesMax(p, V) && s in p.States() && V[s] < MAX_VALUE && s !in p.Free()
    ensures IsGoal(p, s)
  {
  }

  // On an exact table every state of finite value is led to a goal, within as
  // many actions as there are free states of finite value, if and only if none
  // of those states is led back to itself.
  lemma ArrivesIff(p: Problem, V: Table, act: State -> nat)
    requires p.Valid() && V.Keys == p.States() && Fixed(p.Net(), V) && ObstaclesMax(p, V) && Chosen(p, V, act)
    ensures (forall s :: s in V && V[s] < MAX_VALUE ==> Arriving(p, act, s, |Reached(p, V)|))
       <==> (forall u :: u in Reached(p, V) ==> !Returning(p, act, u))
  {
    hide Arriving, Returning, Closed, Follow, Fixed, IsEntry;
    var z := Reached(p, V);
    if forall u :: u in z ==> !Returning(p, act, u) {
      BelowClosed(p, V, act, z);
      forall s | s in V && V[s] < MAX_VALUE
        ensures Arriving(p, act, s, |z|)
      {
        if s in p.Free() {
          ClosedArrives(p, act, z, s);
        } else {
          PinnedIsGoal(p, V, s);
          GoalArrives(p, act, s, |z|);
        }
      }
    } else {
      var u :| u in z && Returning(p, act, u);
      ReturningNeverArrives(p, act, u, |z|);
    }
  }

  lemma GoalArrives(p: Problem, act: State -> nat, s: State, bound: nat)
    requires p.Valid() && (forall u :: act(u) < N_ACTIONS) && IsGoal(p, s)
    ensures Arriving(p, act, s, bound)
  {
    assert Follow(p, act, s, 0) == s;
  }

  // Where every free cell costs something only the free states of value zero
  // matter: every state of unsaturated finite value is led to a goal, within its
  // value plus their number, if and only if none of them is led back to itself.
  lemma ArrivesIffZero(p: Problem, V: Table, act: State -> nat)
    requires p.Valid() && V.Keys == p.States() && Fixed(p.Net(), V) && GoalsZero(p, V) && Chosen(p, V, act)
    requires forall u :: u in p.Free() ==> p.PenAt(u.x, u.y) > 0
    ensures (forall s :: s in V && V[s] < MAX_VALUE - 1 ==> Arriving(p, act, s, V[s] + |ZeroFree(p, V)|))
       <==> (forall u :: u in ZeroFree(p, V) ==> !Returning(p, act, u))
  {
    GoalsAreMax(p, V);
    hide Arriving, Returning, Closed, Follow, Fixed, IsEntry, ObstaclesMax, GoalsZero;
    var z := ZeroFree(p, V);
    if forall u :: u in z ==> !Returning(p, act, u) {
      BelowClosed(p, V, act, z);
      forall s | s in V && V[s] < MAX_VALUE - 1
        ensures Arriving(p, act, s, V[s] + |z|)
      {
        var k := FollowReachesZero(p, V, act, s, V[s]);
        var t := Follow(p, act, s, k);
        if t in p.Free() {
          ClosedArrives(p, act, z, t);
        } else {
          PinnedIsGoal(p, V, t);
          GoalArrives(p, act, t, |z|);
        }
        ArrivesLater(p, act, s, k, V[s], |z|);
      }
    } else {
      var u :| u in z && Returning(p, act, u);
      ReturningNeverArrives(p, act, u, V[u] + |z|);
    }
  }

  lemma GoalsAreMax(p: Problem, V: Table)
    requires p.Valid() && GoalsZero(p, V)
    ensures ObstaclesMax(p, V)
  {
  }

  lemma ArrivesLater(p: Problem, act: State -> nat, s: State, k: nat, m: nat, n: nat)
    requires p.Valid() && (forall u :: act(u) < N_ACTIONS) && k <= m && Arriving(p, act, Follow(p, act, s, k), n)
    ensures Arriving(p, act, s, m + n)
  {
    hide Follow, IsGoal;
    var j: nat :| j <= n && IsGoal(p, Follow(p, act, Follow(p, act, s, k), j));
    FollowAdd(p, act, s, k, j);
  }

  // ------------------------------------------------------------ where it can fail

  // A free cell beside a goal cell. Actions 0 and 1 leave the map, 2 and 3
  // turn on the spot, 4 and 5 turn and enter the goal.
  function SpinWord(a: nat): U32 {
    if a <= 1 then 255
    else if a == 2 then 3 * 65536
    else if a == 3 then 253 * 65536
    else if a == 4 then 3 * 65536 + 1
    else 253 * 65536 + 1
  }

  function SpinProblem(): Problem {
    Problem(2, 1, [1, PENALTY_GOAL], seq(N_ACTIONS * N_THETA, i requires 0 <= i < N_ACTIONS * N_THETA => SpinWord(i / N_THETA)))
  }

  function SpinDelta(a: nat): Delta {
    if a <= 1 then Delta(-1, 0, 0)
    else if a == 2 then Delta(0, 0, 3)
    else if a == 3 then Delta(0, 0, -3)
    else if a == 4 then Delta(1, 0, 3)
    else Delta(1, 0, -3)
  }

  lemma SpinDeltas(a: nat, it: nat)
    requires a < N_ACTIONS && it < N_THETA
    ensures SpinProblem().DeltaAt(a, it) == SpinDelta(a)
  {
    assert (a * N_THETA + it) / N_THETA == a;
  }

  lemma SpinValid()
    ensures SpinProblem().Valid()
    ensures forall x, y :: SpinProblem().PenAt(x, y)
                        == if x == 0 && y == 0 then 1 else if x == 1 && y == 0 then PENALTY_GOAL else PENALTY_OBSTACLE
  {
    hide Unpack;
    var p := SpinProblem();
    forall a, it | 0 <= a < N_ACTIONS && 0 <= it < N_THETA
      ensures -N_THETA <= p.DeltaAt(a, it).dit <= N_THETA
    {
      SpinDeltas(a, it);
    }
  }

  // The table that solves the problem: zero everywhere.
  ghost function SpinTable(): Table { map s | s in SpinProblem().States() :: 0 }

  ghost function SpinSeeds(): Table { map s | s in SpinProblem().States() :: if s.x == 0 then MAX_VALUE else 0 }

  lemma SpinMoves(s: State, a: nat)
    requires SpinProblem().Valid() && s in SpinProblem().Free() && a < N_ACTIONS
    ensures s.x == 0 && s.y == 0
    ensures a <= 1 ==> SpinProblem().MoveAt(s, a) == Blocked && NextValue(SpinProblem(), SpinTable(), s, a) == MAX_VALUE
    ensures a > 1 ==> NextValue(SpinProblem(), SpinTable(), s, a) == 0
    ensures a == 2 ==> Target(SpinProblem(), s, a) in SpinProblem().Free()
    ensures a == 4 ==> SpinProblem().MoveAt(s, a) == Step(State(1, 0, WrapTheta(s.t + 3)), 0)
  {
    hide Unpack;
    SpinValid();
    SpinDeltas(a, s.t);
  }

  lemma SpinBell(s: State)
    requires SpinProblem().Valid() && s in SpinProblem().Free()
    ensures Bell(SpinProblem().Net(), SpinTable(), s) == 0
  {
    hide SpinWord, Unpack, Problem.DeltaAt, Problem.MoveAt;
    var p := SpinProblem();
    SpinValid();
    SpinMoves(s, 4);
    var ms := p.MovesAt(s);
    assert p.Net().moves[s] == ms && ms[4] == p.MoveAt(s, 4);
    assert ms[4].to in SpinTable();
    BestAttained(ms, SpinTable());
  }

  lemma SpinSolved()
    requires SpinProblem().Valid()
    ensures Fixed(SpinProblem().Net(), SpinTable()) && GoalsZero(SpinProblem(), SpinTable())
    ensures Seeded(SpinProblem().Net(), SpinSeeds())
  {
    hide Bell;
    SpinValid();
    hide SpinProblem, Problem.PenAt;
    forall s | s in SpinProblem().Free()
      ensures Bell(SpinProblem().Net(), SpinTable(), s) == 0
    {
      SpinBell(s);
    }
  }

  lemma SpinShortest()
    requires SpinProblem().Valid()
    ensures ShortestPaths(SpinProblem().Net(), SpinSeeds(), SpinTable())
  {
    hide SpinProblem, Arrives, Price, Problem.Valid;
    var net := SpinProblem().Net();
    forall s | s in SpinTable()
      ensures exists acts :: Arrives(net, SpinSeeds(), s, acts) && Price(net, SpinSeeds(), s, acts) == 0
    {
      if s in SpinProblem().Free() {
        SpinArrives(s);
      } else {
        SpinGoal(s);
      }
    }
  }

  lemma SpinGoal(s: State)
    requires SpinProblem().Valid() && s in SpinProblem().States() && s !in SpinProblem().Free()
    ensures Arrives(SpinProblem().Net(), SpinSeeds(), s, []) && Price(SpinProblem().Net(), SpinSeeds(), s, []) == 0
  {
    SpinValid();
  }

  lemma SpinArrives(s: State)
    requires SpinProblem().Valid() && s in SpinProblem().Free()
    ensures Arrives(SpinProblem().Net(), SpinSeeds(), s, [4]) && Price(SpinProblem().Net(), SpinSeeds(), s, [4]) == 0
  {
    hide SpinWord, Unpack, Problem.DeltaAt, Problem.MoveAt;
    var p := SpinProblem();
    var net := p.Net();
    SpinValid();
    SpinMoves(s, 4);
    var g := State(1, 0, WrapTheta(s.t + 3));
    var ms := p.MovesAt(s);
    assert net.moves[s] == ms && ms[4] == p.MoveAt(s, 4) && ms[4].to == g;
    assert g in SpinSeeds() && g !in net.free;
    assert [4][1..] == [];
    assert Walk(net, g, []) && Stop(net, g, []) == g && Toll(net, g, []) == 0;
  }

  // Descending is not arriving: here the table is the exact shortest-path
  // table, zero everywhere, and the goal is one move away from every free
  // state, yet every table the driver can compute turns on the spot for ever.
  lemma PolicyCanSpin(act: State -> nat, s: State)
    requires SpinProblem().Valid() && s in SpinProblem().Free() && Chosen(SpinProblem(), SpinTable(), act)
    ensures Seeded(SpinProblem().Net(), SpinSeeds()) && Fixed(SpinProblem().Net(), SpinTable())
    ensures ShortestPaths(SpinProblem().Net(), SpinSeeds(), SpinTable()) && GoalsZero(SpinProblem(), SpinTable())
    ensures SpinProblem().MoveAt(s, 4).Step? && IsGoal(SpinProblem(), SpinProblem().MoveAt(s, 4).to)
    ensures forall n: nat :: Follow(SpinProblem(), act, s, n) in SpinProblem().Free()
    ensures exists u :: u in ZeroFree(SpinProblem(), SpinTable()) && Returning(SpinProblem(), act, u)
  {
    hide Follow, Fixed, Seeded, ShortestPaths, GoalsZero, ObstaclesMax, IsEntry, Returning, Arriving, Target, Reached;
    SpinSolved();
    SpinShortest();
    SpinGoalAhead(s);
    GoalsAreMax(SpinProblem(), SpinTable());
    hide SpinProblem, Problem.MoveAt, IsGoal;
    forall n: nat
      ensures Follow(SpinProblem(), act, s, n) in SpinProblem().Free()
    {
      SpinStays(act, s, n);
    }
    ArrivesIff(SpinProblem(), SpinTable(), act);
    SpinReached();
    FreeNeverArrives(SpinProblem(), act, s, |Reached(SpinProblem(), SpinTable())|);
  }

  lemma SpinGoalAhead(s: State)
    requires SpinProblem().Valid() && s in SpinProblem().Free()
    ensures SpinProblem().MoveAt(s, 4).Step? && IsGoal(SpinProblem(), SpinProblem().MoveAt(s, 4).to)
  {
    SpinValid();
    SpinMoves(s, 4);
  }

  lemma SpinReached()
    requires SpinProblem().Valid()
    ensures Reached(SpinProblem(), SpinTable()) == ZeroFree(SpinProblem(), SpinTable())
    ensures forall s :: s in SpinProblem().Free() ==> s in SpinTable() && SpinTable()[s] == 0
  {
    hide SpinProblem;
  }

  lemma {:induction false} SpinStays(act: State -> nat, s: State, n: nat)
    requires SpinProblem().Valid() && s in SpinProblem().Free() && Chosen(SpinProblem(), SpinTable(), act)
    ensures Follow(SpinProblem(), act, s, n) in SpinProblem().Free()
  {
    hide SpinProblem, SpinTable, Unpack, IsEntry;
    if n > 0 {
      SpinStays(act, s, n - 1);
      var u := Follow(SpinProblem(), act, s, n - 1);
      SpinEntry(u, act(u));
    }
  }

  // The only entry the driver can compute at a free state is "turn".
  lemma SpinEntry(u: State, b: nat)
    requires SpinProblem().Valid() && u in SpinProblem().Free() && b < N_ACTIONS
    requires IsEntry(SpinProblem(), SpinTable(), u, b)
    ensures b == 2 && Target(SpinProblem(), u, b) in SpinProblem().Free()
  {
    SpinMoves(u, 0);
    SpinMoves(u, 1);
    SpinMoves(u, 2);
    hide SpinProblem, SpinTable, Unpack, NextValue, Target;
  }
}
