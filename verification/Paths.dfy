// What a table at rest means: shortest action paths, and how many sweeps it
// takes to get there.
module Paths {
  import opened Bellman

  // `acts` can be executed from `s`: every state acted from is free and no
  // action is blocked.
  ghost predicate Walk(net: Net, s: State, acts: seq<nat>)
    decreases |acts|
  {
    |acts| > 0 ==>
      && s in net.free && s in net.moves
      && acts[0] < |net.moves[s]|
      && net.moves[s][acts[0]].Step?
      && Walk(net, net.moves[s][acts[0]].to, acts[1..])
  }

  ghost function Stop(net: Net, s: State, acts: seq<nat>): State
    requires Walk(net, s, acts)
    decreases |acts|
  {
    if |acts| == 0 then s else Stop(net, net.moves[s][acts[0]].to, acts[1..])
  }

  // The sum of the penalties of the cells entered.
  ghost function Toll(net: Net, s: State, acts: seq<nat>): nat
    requires Walk(net, s, acts)
    decreases |acts|
  {
    if |acts| == 0 then 0
    else net.moves[s][acts[0]].pen + Toll(net, net.moves[s][acts[0]].to, acts[1..])
  }

  // A walk that ends in a pinned state whose value is not the maximum (a seeded goal).
  ghost predicate Arrives(net: Net, V0: Table, s: State, acts: seq<nat>) {
    && Walk(net, s, acts)
    && Stop(net, s, acts) !in net.free
    && Stop(net, s, acts) in V0
    && V0[Stop(net, s, acts)] != MAX_VALUE
  }

  ghost function Price(net: Net, V0: Table, s: State, acts: seq<nat>): U16
    requires Arrives(net, V0, s, acts)
  {
    var sum := V0[Stop(net, s, acts)] + Toll(net, s, acts);
    if sum >= MAX_VALUE then MAX_VALUE - 1 else sum
  }

  // V is at most the price of every arriving path of at most k moves.
  ghost predicate Covers(net: Net, V0: Table, V: Table, k: nat) {
    forall s, acts :: s in V && |acts| <= k && Arrives(net, V0, s, acts) ==> V[s] <= Price(net, V0, s, acts)
  }

  // Every value of V below the maximum is the price of some path.
  ghost predicate Attained(net: Net, V0: Table, V: Table) {
    forall s :: s in V && V[s] != MAX_VALUE ==>
      exists acts :: Arrives(net, V0, s, acts) && Price(net, V0, s, acts) == V[s]
  }

  // W is at least one full Jacobi step below V.
  ghost predicate Advances(net: Net, V: Table, W: Table) {
    && Leq(W, V) && SamePins(net, V, W)
    && forall s :: s in net.free && s in V ==> W[s] <= Bell(net, V, s)
  }

  // The exact meaning of a table: minimum over paths to a seeded goal.
  ghost predicate ShortestPaths(net: Net, V0: Table, V: Table) {
    && V.Keys == V0.Keys
    && (forall s, acts :: s in V && Arrives(net, V0, s, acts) ==> V[s] <= Price(net, V0, s, acts))
    && (forall s :: s in V && V[s] != MAX_VALUE ==>
      exists acts :: Arrives(net, V0, s, acts) && Price(net, V0, s, acts) == V[s])
  }

  // ------------------------------------------------------------- one move

  lemma PrependMove(net: Net, V0: Table, s: State, i: nat, acts: seq<nat>)
    requires net.Valid() && s in net.free && i < |net.moves[s]| && net.moves[s][i].Step?
    requires Arrives(net, V0, net.moves[s][i].to, acts)
    ensures Arrives(net, V0, s, [i] + acts)
    ensures Price(net, V0, s, [i] + acts)
         == CostOf(Price(net, V0, net.moves[s][i].to, acts), net.moves[s][i].pen)
  {
    assert ([i] + acts)[1..] == acts;
  }

  // A Bellman value over attained values is attained.
  lemma BellAttained(net: Net, V0: Table, V: Table, s: State)
    requires net.Valid() && s in net.free && net.states <= V.Keys
    requires Attained(net, V0, V)
    ensures Bell(net, V, s) != MAX_VALUE ==>
      exists acts :: Arrives(net, V0, s, acts) && Price(net, V0, s, acts) == Bell(net, V, s)
  {
    var ms := net.moves[s];
    BestAttained(ms, V);
    if Bell(net, V, s) != MAX_VALUE {
      var i :| 0 <= i < |ms| && Best(ms, V) == Cand(ms[i], V);
      var to := ms[i].to;
      assert V[to] != MAX_VALUE;
      var acts :| Arrives(net, V0, to, acts) && Price(net, V0, to, acts) == V[to];
      PrependMove(net, V0, s, i, acts);
    }
  }

  lemma UpdAttained(net: Net, V0: Table, V: Table, s: State)
    requires net.Valid() && net.states <= V.Keys && Attained(net, V0, V)
    ensures Attained(net, V0, Upd(net, V, s))
  {
    if s in net.free {
      BellAttained(net, V0, V, s);
    }
  }

  lemma {:induction false} RunAttained(net: Net, V0: Table, V: Table, order: seq<State>)
    requires net.Valid() && net.states <= V.Keys && Attained(net, V0, V)
    ensures Attained(net, V0, Run(net, V, order))
  {
    if |order| > 0 {
      var n := |order| - 1;
      RunAttained(net, V0, V, order[..n]);
      RunKeys(net, V, order[..n]);
      UpdAttained(net, V0, Run(net, V, order[..n]), order[n]);
    }
  }

  lemma SeededAttained(net: Net, V0: Table)
    requires net.Valid() && Seeded(net, V0)
    ensures Attained(net, V0, V0)
    ensures Covers(net, V0, V0, 0)
  {
    forall s | s in V0 && V0[s] != MAX_VALUE
      ensures exists acts :: Arrives(net, V0, s, acts) && Price(net, V0, s, acts) == V0[s]
    {
      assert Arrives(net, V0, s, []) && Price(net, V0, s, []) == V0[s];
    }
  }

  // ------------------------------------------------------------- lower bound

  // One advancing round lets the table see one move further.
  lemma AdvanceCovers(net: Net, V0: Table, V: Table, W: Table, k: nat)
    requires net.Valid() && V.Keys == net.states
    requires Covers(net, V0, V, k) && Advances(net, V, W) && SamePins(net, V0, V)
    ensures Covers(net, V0, W, k + 1)
  {
    forall s, acts | s in W && |acts| <= k + 1 && Arrives(net, V0, s, acts)
      ensures W[s] <= Price(net, V0, s, acts)
    {
      if |acts| == 0 {
        assert Price(net, V0, s, acts) == V0[s];
      } else {
        var i, rest := acts[0], acts[1..];
        assert acts == [i] + rest;
        var m := net.moves[s][i];
        PrependMove(net, V0, s, i, rest);
        BestAttained(net.moves[s], V);
        assert V[m.to] <= Price(net, V0, m.to, rest);
        assert W[s] <= Cand(m, V);
      }
    }
  }

  // A fixed point is at most the price of every path.
  lemma {:induction false} FixedBelowPath(net: Net, V0: Table, V: Table, s: State, acts: seq<nat>)
    requires net.Valid() && V.Keys == net.states && SamePins(net, V0, V) && Fixed(net, V)
    requires s in V && Arrives(net, V0, s, acts)
    ensures V[s] <= Price(net, V0, s, acts)
    decreases |acts|
  {
    if |acts| > 0 {
      var i, rest := acts[0], acts[1..];
      assert acts == [i] + rest;
      var m := net.moves[s][i];
      PrependMove(net, V0, s, i, rest);
      BestAttained(net.moves[s], V);
      FixedBelowPath(net, V0, V, m.to, rest);
      assert V[s] <= Cand(m, V);
    }
  }

  // Exact meaning: a run from a seeded table that comes to rest holds, for
  // every state, the minimum over arriving paths of min(0xFFFE, sum of entered
  // penalties plus the seed), and 0xFFFF exactly where there is none.
  lemma RestMeansShortestPaths(net: Net, V0: Table, order: seq<State>)
    requires net.Valid() && Seeded(net, V0) && Fixed(net, Run(net, V0, order))
    ensures ShortestPaths(net, V0, Run(net, V0, order))
  {
    var V := Run(net, V0, order);
    RunKeys(net, V0, order);
    SeededAttained(net, V0);
    RunAttained(net, V0, V0, order);
    FixedIsShortestPaths(net, V0, V);
  }

  lemma FixedIsShortestPaths(net: Net, V0: Table, V: Table)
    requires net.Valid() && V.Keys == V0.Keys == net.states && SamePins(net, V0, V)
    requires Fixed(net, V) && Attained(net, V0, V)
    ensures ShortestPaths(net, V0, V)
  {
    forall s, acts | s in V && Arrives(net, V0, s, acts)
      ensures V[s] <= Price(net, V0, s, acts)
    {
      FixedBelowPath(net, V0, V, s, acts);
    }
  }

  lemma ShortestPathsUnique(net: Net, V0: Table, V: Table, W: Table)
    requires ShortestPaths(net, V0, V) && ShortestPaths(net, V0, W)
    ensures V == W
  {
    forall s | s in V
      ensures V[s] == W[s]
    {
      if V[s] != MAX_VALUE {
        var acts :| Arrives(net, V0, s, acts) && Price(net, V0, s, acts) == V[s];
      }
      if W[s] != MAX_VALUE {
        var acts :| Arrives(net, V0, s, acts) && Price(net, V0, s, acts) == W[s];
      }
    }
  }

  // ------------------------------------------------------------- simple paths

  lemma {:induction false} WalkSplit(net: Net, s: State, a: seq<nat>, b: seq<nat>)
    ensures Walk(net, s, a + b) <==> Walk(net, s, a) && Walk(net, Stop(net, s, a), b)
    ensures Walk(net, s, a + b) ==>
      && Stop(net, s, a + b) == Stop(net, Stop(net, s, a), b)
      && Toll(net, s, a + b) == Toll(net, s, a) + Toll(net, Stop(net, s, a), b)
    decreases |a|
  {
    if |a| == 0 {
      assert a + b == b;
    } else {
      assert (a + b)[1..] == a[1..] + b;
      if s in net.free && s in net.moves && a[0] < |net.moves[s]| && net.moves[s][a[0]].Step? {
        WalkSplit(net, net.moves[s][a[0]].to, a[1..], b);
      }
    }
  }

  // The i-th state acted from on a walk.
  ghost function Seen(net: Net, s: State, acts: seq<nat>, i: nat): (u: State)
    requires Walk(net, s, acts) && i < |acts|
    ensures u in net.free
    decreases |acts|
  {
    if i == 0 then s else Seen(net, net.moves[s][acts[0]].to, acts[1..], i - 1)
  }

  lemma {:induction false} SeenIsStop(net: Net, s: State, acts: seq<nat>, i: nat)
    requires Walk(net, s, acts) && i < |acts|
    ensures Walk(net, s, acts[..i])
    ensures Seen(net, s, acts, i) == Stop(net, s, acts[..i])
    decreases |acts|
  {
    if i > 0 {
      SeenIsStop(net, net.moves[s][acts[0]].to, acts[1..], i - 1);
      assert acts[..i][1..] == acts[1..][..i - 1];
    }
  }

  lemma {:induction false} DistinctFits(q: seq<State>, box: set<State>)
    requires forall i :: 0 <= i < |q| ==> q[i] in box
    requires forall i, j :: 0 <= i < j < |q| ==> q[i] != q[j]
    ensures |q| <= |box|
  {
    if |q| > 0 {
      var n := |q| - 1;
      DistinctFits(q[..n], box - {q[n]});
    }
  }

  // Cutting a loop out of an arriving walk keeps it arriving and never costs more.
  lemma CutLoop(net: Net, V0: Table, s: State, acts: seq<nat>, i: nat, j: nat)
    requires Arrives(net, V0, s, acts) && i < j < |acts|
    requires Seen(net, s, acts, i) == Seen(net, s, acts, j)
    ensures Arrives(net, V0, s, acts[..i] + acts[j..])
    ensures Price(net, V0, s, acts[..i] + acts[j..]) <= Price(net, V0, s, acts)
  {
    SeenIsStop(net, s, acts, i);
    SeenIsStop(net, s, acts, j);
    assert acts == acts[..j] + acts[j..] == acts[..i] + acts[i..];
    WalkSplit(net, s, acts[..j], acts[j..]);
    WalkSplit(net, s, acts[..i], acts[j..]);
    assert acts[..j] == acts[..i] + acts[i..j];
    WalkSplit(net, s, acts[..i], acts[i..j]);
  }

  // Some best path visits no free state twice, so it has at most |free| moves.
  lemma {:induction false} Shorten(net: Net, V0: Table, s: State, acts: seq<nat>) returns (short: seq<nat>)
    requires Arrives(net, V0, s, acts)
    ensures Arrives(net, V0, s, short) && |short| <= |net.free|
    ensures Price(net, V0, s, short) <= Price(net, V0, s, acts)
    decreases |acts|
  {
    if i, j :| 0 <= i < j < |acts| && Seen(net, s, acts, i) == Seen(net, s, acts, j) {
      CutLoop(net, V0, s, acts, i, j);
      short := Shorten(net, V0, s, acts[..i] + acts[j..]);
    } else {
      short := acts;
      var q := seq(|acts|, i requires 0 <= i < |acts| => Seen(net, s, acts, i));
      DistinctFits(q, net.free);
    }
  }

  // A settling, attained table that sees |free| moves far is a fixed point.
  lemma CoveredIsFixed(net: Net, V0: Table, V: Table)
    requires net.Valid() && V.Keys == net.states && SamePins(net, V0, V)
    requires Settling(net, V) && Attained(net, V0, V) && Covers(net, V0, V, |net.free|)
    ensures Fixed(net, V)
  {
    forall s | s in net.free && s in V
      ensures Bell(net, V, s) == V[s]
    {
      BellAttained(net, V0, V, s);
      if Bell(net, V, s) != MAX_VALUE {
        var acts :| Arrives(net, V0, s, acts) && Price(net, V0, s, acts) == Bell(net, V, s);
        var short := Shorten(net, V0, s, acts);
      }
    }
  }

  // ------------------------------------------------------------- convergence

  // What k full rounds from the seeded table V0 guarantee.
  ghost predicate Progress(net: Net, V0: Table, V: Table, k: nat) {
    && V.Keys == net.states
    && SamePins(net, V0, V)
    && Settling(net, V)
    && Leq(V, V0)
    && Attained(net, V0, V)
    && Covers(net, V0, V, k)
  }

  lemma ProgressStarts(net: Net, V0: Table)
    requires net.Valid() && Seeded(net, V0)
    ensures Progress(net, V0, V0, 0)
  {
    SeededAttained(net, V0);
  }

  lemma ProgressSweep(net: Net, V0: Table, V: Table, k: nat, order: seq<State>)
    requires net.Valid() && Progress(net, V0, V, k)
    requires forall s :: s in net.free ==> s in order
    ensures Progress(net, V0, Run(net, V, order), k + 1)
  {
    var W := Run(net, V, order);
    RunSettles(net, V, order);
    RunKeys(net, V, order);
    RunAttained(net, V0, V, order);
    AdvanceCovers(net, V0, V, W, k);
  }

  // As many rounds as there are free states always suffice.
  lemma ProgressEnds(net: Net, V0: Table, V: Table, k: nat)
    requires net.Valid() && Progress(net, V0, V, k) && k >= |net.free|
    ensures Fixed(net, V) && ShortestPaths(net, V0, V)
  {
    CoveredIsFixed(net, V0, V);
    FixedIsShortestPaths(net, V0, V);
  }
}
