// When the stream kernel is exact. Its theta loop reads the two move-and-turn
// costs before it updates the cell, so an action that stays in its cell and
// turns back to an already updated theta reads a stale value. The kernel equals
// the in-place update on every map and every table exactly when the transition
// table has no such entry; and it does so for every transition table on the
// tables a solve can reach, whose values no update can raise.
module StreamExact {
  import opened Bellman
  import opened Contract
  import opened Hls
  import opened StreamLoop

  // Entry (a, it) stays in its cell and targets an earlier theta.
  predicate ReadsBack(p: Problem, a: nat, it: nat)
    requires p.Valid() && a < N_ACTIONS && it < N_THETA
  {
    p.DeltaAt(a, it).dix == 0 && p.DeltaAt(a, it).diy == 0 && WrapTheta(it + Turn(a)) < it
  }

  // No move-and-turn entry of the transition table reads back.
  predicate Timely(p: Problem)
    requires p.Valid()
  {
    forall a, it :: 4 <= a < N_ACTIONS && 0 <= it < N_THETA ==> !ReadsBack(p, a, it)
  }

  // ------------------------------------------------------------ the theta loop

  // The table after the first n thetas of the cell.
  ghost function After(p: Problem, V: Table, x: int, y: int, n: nat): Table
    requires p.Valid()
  {
    Run(p.Net(), V, Thetas(x, y, n))
  }

  lemma AfterNext(p: Problem, V: Table, x: int, y: int, n: nat)
    requires p.Valid() && V.Keys == p.States()
    ensures After(p, V, x, y, n + 1) == Upd(p.Net(), After(p, V, x, y, n), State(x, y, n))
    ensures RunDelta(p.Net(), V, Thetas(x, y, n + 1))
         == Max(RunDelta(p.Net(), V, Thetas(x, y, n)), UpdDelta(p.Net(), After(p, V, x, y, n), State(x, y, n)))
    ensures After(p, V, x, y, n).Keys == p.States() == After(p, V, x, y, n + 1).Keys
  {
    hide Run, RunDelta, Upd, UpdDelta;
    ThetasSnoc(x, y, n);
    RunSnoc(p.Net(), V, Thetas(x, y, n), State(x, y, n));
    RunKeys(p.Net(), V, Thetas(x, y, n));
    RunKeys(p.Net(), V, Thetas(x, y, n + 1));
  }

  lemma AfterFrame(p: Problem, V: Table, x: int, y: int, n: nat, s: State)
    requires p.Valid() && V.Keys == p.States() && s in V
    requires s.x != x || s.y != y || s.t >= n
    ensures After(p, V, x, y, n).Keys == V.Keys && After(p, V, x, y, n)[s] == V[s]
  {
    hide Run;
    RunKeys(p.Net(), V, Thetas(x, y, n));
    RunFrame(p.Net(), V, Thetas(x, y, n), s);
  }

  // A prefetched cost is still right after part of the cell changed, if the
  // action keeps theta, leaves the cell, or targets a theta not yet updated.
  lemma CacheStays(p: Problem, V: Table, x: int, y: int, n: nat, a: nat)
    requires p.Valid() && KernelTrans(p) && V.Keys == p.States() && n < N_THETA && a < N_ACTIONS
    requires a < 2 || !ReadsBack(p, a, n)
    ensures RawCand(p, After(p, V, x, y, n), State(x, y, n), a) == RawCand(p, V, State(x, y, n), a)
  {
    hide After, Unpack, CostRaw, Run;
    var d := p.DeltaAt(a, n);
    assert d.dit == Turn(a);
    var s := State(x + d.dix, y + d.diy, WrapTheta(n + d.dit));
    RunKeysAfter(p, V, x, y, n);
    if s in V {
      AfterFrame(p, V, x, y, n, s);
    }
  }

  lemma CostRawMonotone(u: U16, v: U16, pen: U16)
    requires u <= v
    ensures CostRaw(u, pen) <= CostRaw(v, pen)
  {
  }

  // A prefetched cost of action 4 or 5 that stays in the cell is at least the
  // current cost of the turn with the same target, when values only go down.
  lemma CacheAbove(p: Problem, V: Table, x: int, y: int, n: nat, a: nat)
    requires p.Valid() && KernelTrans(p) && Settling(p.Net(), V) && V.Keys == p.States() && n < N_THETA && 4 <= a < N_ACTIONS
    requires ReadsBack(p, a, n)
    ensures RawCand(p, After(p, V, x, y, n), State(x, y, n), a - 2) == RawCand(p, After(p, V, x, y, n), State(x, y, n), a)
    ensures RawCand(p, After(p, V, x, y, n), State(x, y, n), a) <= RawCand(p, V, State(x, y, n), a)
  {
    hide After, Unpack, CostRaw, Run, Bell;
    var W := After(p, V, x, y, n);
    var t := WrapTheta(n + Turn(a));
    assert p.DeltaAt(a, n).dit == Turn(a) == p.DeltaAt(a - 2, n).dit;
    assert p.DeltaAt(a - 2, n).dix == 0 && p.DeltaAt(a - 2, n).diy == 0;
    AfterBelow(p, V, x, y, n);
    CostRawMonotone(ValAt(p, W, x, y, t), ValAt(p, V, x, y, t), p.PenAt(x, y));
  }

  lemma AfterBelow(p: Problem, V: Table, x: int, y: int, n: nat)
    requires p.Valid() && Settling(p.Net(), V) && V.Keys == p.States()
    ensures Leq(After(p, V, x, y, n), V)
  {
    hide Run, Settling;
    RunSettles(p.Net(), V, Thetas(x, y, n));
  }

  // Either the prefetched cost is current, or it cannot win against a turn.
  lemma CacheServes(p: Problem, V: Table, x: int, y: int, n: nat, a: nat)
    requires p.Valid() && KernelTrans(p) && (Timely(p) || Settling(p.Net(), V)) && V.Keys == p.States() && n < N_THETA && 4 <= a < N_ACTIONS
    ensures var (now, before, turn) := (RawCand(p, After(p, V, x, y, n), State(x, y, n), a), RawCand(p, V, State(x, y, n), a),
                                       RawCand(p, After(p, V, x, y, n), State(x, y, n), a - 2));
            before == now || (turn == now <= before)
  {
    hide RawCand, After, Settling, KernelTrans, ReadsBack;
    if !ReadsBack(p, a, n) {
      CacheStays(p, V, x, y, n, a);
    } else {
      CacheAbove(p, V, x, y, n, a);
    }
  }

  lemma RunKeysAfter(p: Problem, V: Table, x: int, y: int, n: nat)
    requires p.Valid() && V.Keys == p.States()
    ensures After(p, V, x, y, n).Keys == V.Keys
  {
    RunKeys(p.Net(), V, Thetas(x, y, n));
  }

  // Replacing a move-and-turn candidate by one that cannot win changes nothing.
  lemma MinTreeServes(c0: U16, c1: U16, c2: U16, c3: U16, c4: U16, c5: U16, d4: U16, d5: U16)
    requires (d4 == c4 || c2 == c4 <= d4) && (d5 == c5 || c3 == c5 <= d5)
    ensures MinTree(c0, c1, c2, c3, d4, d5) == MinTree(c0, c1, c2, c3, c4, c5)
  {
  }

  // The kernel's value is the Bellman value of the table updated so far.
  lemma KernelValueIsBell(p: Problem, V: Table, x: int, y: int, n: nat)
    requires p.Valid() && KernelTrans(p) && (Timely(p) || Settling(p.Net(), V))
    requires V.Keys == p.States() && n < N_THETA && State(x, y, n) in p.Free()
    ensures KernelValue(p, V, After(p, V, x, y, n), State(x, y, n)) == Bell(p.Net(), After(p, V, x, y, n), State(x, y, n))
  {
    hide RawCand, MinTree, Bell, After, Settling, Timely, KernelTrans;
    var W, s := After(p, V, x, y, n), State(x, y, n);
    RunKeysAfter(p, V, x, y, n);
    TreeIsBell(p, W, s);
    CacheStays(p, V, x, y, n, 0);
    CacheStays(p, V, x, y, n, 1);
    CacheServes(p, V, x, y, n, 4);
    CacheServes(p, V, x, y, n, 5);
    MinTreeServes(RawCand(p, W, s, 0), RawCand(p, W, s, 1), RawCand(p, W, s, 2), RawCand(p, W, s, 3),
                  RawCand(p, W, s, 4), RawCand(p, W, s, 5), RawCand(p, V, s, 4), RawCand(p, V, s, 5));
  }

  // The kernel's theta loop is the sequential one.
  lemma {:induction false} ChainedIsRun(p: Problem, V: Table, x: int, y: int, n: nat)
    requires p.Valid() && KernelTrans(p) && (Timely(p) || Settling(p.Net(), V))
    requires V.Keys == p.States() && n <= N_THETA
    ensures Chained(p, V, x, y, n) == After(p, V, x, y, n)
    ensures ChainedDelta(p, V, x, y, n) == RunDelta(p.Net(), V, Thetas(x, y, n))
  {
    hide KernelValue, Bell, Settling, Timely, KernelTrans, RunDelta, After;
    if n == 0 {
      AfterNone(p, V, x, y);
    } else {
      ChainedIsRun(p, V, x, y, n - 1);
      AfterNext(p, V, x, y, n - 1);
      if State(x, y, n - 1) in p.Free() {
        KernelValueIsBell(p, V, x, y, n - 1);
      }
    }
  }

  lemma AfterNone(p: Problem, V: Table, x: int, y: int)
    requires p.Valid()
    ensures After(p, V, x, y, 0) == V && RunDelta(p.Net(), V, Thetas(x, y, 0)) == 0
  {
    assert Thetas(x, y, 0) == [];
  }

  // ------------------------------------------------------------ the whole scan

  // The kernel may be run on V.
  ghost predicate StreamSafe(p: Problem, V: Table)
    requires p.Valid()
  {
    KernelTrans(p) && V.Keys == p.States() && (Timely(p) || Settling(p.Net(), V))
  }

  lemma SafeStays(p: Problem, V: Table, o: seq<State>)
    requires p.Valid() && StreamSafe(p, V)
    ensures StreamSafe(p, Run(p.Net(), V, o))
  {
    hide Run, Settling, Timely, KernelTrans, Bell;
    RunKeys(p.Net(), V, o);
    if Settling(p.Net(), V) {
      RunSettles(p.Net(), V, o);
    }
  }

  // A sweep that is the in-place run of an order.
  ghost predicate IsRun(p: Problem, V: Table, o: seq<State>, r: Swept)
    requires p.Valid()
  {
    r == Swept(Run(p.Net(), V, o), RunDelta(p.Net(), V, o))
  }

  lemma RunsAppend(p: Problem, V: Table, o: seq<State>, o': seq<State>, a: Swept, r: Swept)
    requires p.Valid() && StreamSafe(p, V) && IsRun(p, V, o, a) && IsRun(p, a.V, o', r)
    ensures IsRun(p, V, o + o', Swept(r.V, Max(a.delta, r.delta)))
  {
    RunAppend(p.Net(), V, o, o');
    hide Run, RunDelta;
  }

  lemma RunsNone(p: Problem, V: Table)
    requires p.Valid()
    ensures IsRun(p, V, [], Swept(V, 0))
  {
  }

  lemma CellIsRun(p: Problem, V: Table, x: int, y: int)
    requires p.Valid() && StreamSafe(p, V)
    ensures IsRun(p, V, Thetas(x, y, N_THETA), CellSwept(p, V, x, y))
  {
    hide Run, RunDelta, Chained, ChainedDelta, KernelTrans, Timely, Settling;
    ChainedIsRun(p, V, x, y, N_THETA);
  }

  lemma {:induction false} RowIsRun(p: Problem, V: Table, cu: int, y: int, x0: int, w: int, n: nat)
    requires p.Valid() && StreamSafe(p, V)
    ensures IsRun(p, V, DirRow(cu, y, x0, w, n), RowSwept(p, V, cu, y, x0, w, n))
  {
    hide IsRun, StreamSafe, CellSwept;
    if n == 0 {
      RunsNone(p, V);
    } else {
      RowIsRun(p, V, cu, y, x0, w, n - 1);
      var a := RowSwept(p, V, cu, y, x0, w, n - 1);
      RunTable(p, V, DirRow(cu, y, x0, w, n - 1), a);
      CellIsRun(p, a.V, ColOf(cu, x0, w, n - 1), y);
      RunsAppend(p, V, DirRow(cu, y, x0, w, n - 1), Thetas(ColOf(cu, x0, w, n - 1), y, N_THETA), a,
                 CellSwept(p, a.V, ColOf(cu, x0, w, n - 1), y));
    }
  }

  lemma RunTable(p: Problem, V: Table, o: seq<State>, a: Swept)
    requires p.Valid() && StreamSafe(p, V) && IsRun(p, V, o, a)
    ensures StreamSafe(p, a.V)
  {
    SafeStays(p, V, o);
    hide Run, RunDelta;
  }

  lemma {:induction false} StripIsRun(p: Problem, V: Table, cu: int, x0: int, w: nat, n: nat)
    requires p.Valid() && StreamSafe(p, V)
    ensures IsRun(p, V, StripOrder(p, cu, x0, w, n), StripSwept(p, V, cu, x0, w, n))
  {
    hide IsRun, StreamSafe, RowSwept, DirRow;
    if n == 0 {
      RunsNone(p, V);
    } else {
      StripIsRun(p, V, cu, x0, w, n - 1);
      var a := StripSwept(p, V, cu, x0, w, n - 1);
      RunTable(p, V, StripOrder(p, cu, x0, w, n - 1), a);
      RowIsRun(p, a.V, cu, RowOf(p, cu, n - 1), x0, w, w);
      RunsAppend(p, V, StripOrder(p, cu, x0, w, n - 1), DirRow(cu, RowOf(p, cu, n - 1), x0, w, w), a,
                 RowSwept(p, a.V, cu, RowOf(p, cu, n - 1), x0, w, w));
    }
  }

  // A unit's scan is the in-place update of its states in scan order, on every
  // table for a timely transition table, and on every settling table for any.
  lemma {:induction false} StreamIsRun(p: Problem, V: Table, cu: int, n: nat)
    requires p.Valid() && StreamSafe(p, V) && n <= NumStrips(p)
    ensures IsRun(p, V, StreamOrder(p, cu, n), StreamSwept(p, V, cu, n))
  {
    hide IsRun, StreamSafe, StripSwept, StripOrder;
    if n == 0 {
      RunsNone(p, V);
    } else {
      StreamIsRun(p, V, cu, n - 1);
      var a := StreamSwept(p, V, cu, n - 1);
      var sx := StripAt(p, cu, n - 1);
      WidthPositive(p, sx);
      RunTable(p, V, StreamOrder(p, cu, n - 1), a);
      StripIsRun(p, a.V, cu, sx * STRIP, StripWidth(p, sx), p.h);
      RunsAppend(p, V, StreamOrder(p, cu, n - 1), StripOrder(p, cu, sx * STRIP, StripWidth(p, sx), p.h), a,
                 StripSwept(p, a.V, cu, sx * STRIP, StripWidth(p, sx), p.h));
    }
  }

  // ------------------------------------------------------------ the exact condition

  // The kernel's theta loop is the in-place one, whatever the map and the values.
  ghost predicate LoopExact(q: Problem)
    requires q.Valid()
  {
    forall p: Problem, V: Table, x: int, y: int ::
      p.Valid() && p.trans == q.trans && V.Keys == p.States() && p.InMap(x, y) ==>
        IsRun(p, V, Thetas(x, y, N_THETA), CellSwept(p, V, x, y))
  }

  // A unit's whole scan is the in-place one, whatever the map and the values.
  ghost predicate ScanExact(q: Problem)
    requires q.Valid()
  {
    forall p: Problem, V: Table, cu: int, n: nat ::
      p.Valid() && p.trans == q.trans && V.Keys == p.States() && n <= NumStrips(p) ==>
        IsRun(p, V, StreamOrder(p, cu, n), StreamSwept(p, V, cu, n))
  }

  // One free cell, with the transition table of q.
  function Lone(q: Problem): (p: Problem)
    requires q.Valid()
    ensures p.Valid()
  {
    SameTurns(q, Problem(1, 1, [1], q.trans));
    Problem(1, 1, [1], q.trans)
  }

  lemma SameTurns(q: Problem, p: Problem)
    requires q.Valid() && p.trans == q.trans && |p.pen| == p.w * p.h
    ensures p.Valid()
  {
    hide Unpack;
    forall a, it | 0 <= a < N_ACTIONS && 0 <= it < N_THETA
      ensures p.DeltaAt(a, it) == q.DeltaAt(a, it)
    {
    }
  }

  // Theta t of that cell is worth 0, the others nothing.
  ghost function LoneTable(q: Problem, t: int): Table
    requires q.Valid()
  {
    map s | s in Lone(q).States() :: if s.t == t then 0 else MAX_VALUE
  }

  lemma LoneFacts(q: Problem)
    requires q.Valid()
    ensures KernelTrans(q) ==> KernelTrans(Lone(q))
    ensures forall x, y :: Lone(q).PenAt(x, y) == if x == 0 && y == 0 then 1 else PENALTY_OBSTACLE
    ensures forall s :: s in Lone(q).Free() <==> s.x == 0 && s.y == 0 && 0 <= s.t < N_THETA
    ensures forall s :: s in Lone(q).States() <==> s.x == 0 && s.y == 0 && 0 <= s.t < N_THETA
    ensures Lone(q).trans == q.trans
  {
    hide Unpack;
    forall a, it | 0 <= a < N_ACTIONS && 0 <= it < N_THETA
      ensures Lone(q).DeltaAt(a, it) == q.DeltaAt(a, it)
    {
    }
  }

  // In the lone cell an update is at least 1 above the least value.
  lemma LoneBell(q: Problem, W: Table, s: State, m: U16)
    requires q.Valid() && W.Keys == Lone(q).States() && s in Lone(q).Free()
    requires m < MAX_VALUE - 1 && forall u :: u in W ==> W[u] >= m
    ensures Bell(Lone(q).Net(), W, s) >= m + 1
  {
    LoneFacts(q);
    hide Unpack, Lone, Cand;
    var p := Lone(q);
    var ms := p.MovesAt(s);
    assert p.Net().moves[s] == ms;
    BestAttained(ms, W);
    forall a | 0 <= a < N_ACTIONS
      ensures Cand(ms[a], W) >= m + 1
    {
      LoneCand(q, W, s, a, m);
    }
  }

  lemma LoneCand(q: Problem, W: Table, s: State, a: nat, m: U16)
    requires q.Valid() && s in Lone(q).Free() && a < N_ACTIONS
    requires m < MAX_VALUE - 1 && forall u :: u in W ==> W[u] >= m
    ensures Cand(Lone(q).MoveAt(s, a), W) >= m + 1
  {
    LoneFacts(q);
    hide Unpack, Lone;
  }

  // Once theta t has been updated no value of the lone cell is 0.
  lemma {:induction false} LonePositive(q: Problem, t: nat, n: nat)
    requires q.Valid() && n <= N_THETA
    ensures After(Lone(q), LoneTable(q, t), 0, 0, n).Keys == Lone(q).States()
    ensures forall u :: u in Lone(q).States() ==> (u.t == t && n <= t) || After(Lone(q), LoneTable(q, t), 0, 0, n)[u] >= 1
  {
    LoneFacts(q);
    hide Lone, Bell, After, Problem.Valid;
    var (p, V) := (Lone(q), LoneTable(q, t));
    if n == 0 {
      AfterNone(p, V, 0, 0);
    } else {
      var W, s := After(p, V, 0, 0, n - 1), State(0, 0, n - 1);
      LonePositive(q, t, n - 1);
      AfterNext(p, V, 0, 0, n - 1);
      LoneBell(q, W, s, 0);
    }
  }

  // Entry (a, n) reads back: at theta n the kernel writes at most 1, from the
  // stale 0, and the in-place update at least 2.
  lemma StaleWrite(q: Problem, a: nat, n: nat)
    requires q.Valid() && KernelTrans(q) && 4 <= a < N_ACTIONS && n < N_THETA && ReadsBack(q, a, n)
    ensures var (p, V, s) := (Lone(q), LoneTable(q, WrapTheta(n + Turn(a))), State(0, 0, n));
            && V.Keys == p.States() && s in p.Free()
            && KernelValue(p, V, Chained(p, V, 0, 0, n), s) <= 1
            && Bell(p.Net(), After(p, V, 0, 0, n), s) >= 2
  {
    hide Lone, Bell, After, Chained, RawCand, MinTree, Problem.Valid, KernelTrans, ReadsBack;
    var t := WrapTheta(n + Turn(a));
    LoneFacts(q);
    LoneStale(q, a, n);
    LonePositive(q, t, n);
    LoneBell(q, After(Lone(q), LoneTable(q, t), 0, 0, n), State(0, 0, n), 1);
    var (p, V, W, s) := (Lone(q), LoneTable(q, t), Chained(Lone(q), LoneTable(q, t), 0, 0, n), State(0, 0, n));
    MinTreeBelow(RawCand(p, V, s, 0), RawCand(p, V, s, 1), RawCand(p, W, s, 2), RawCand(p, W, s, 3),
                 RawCand(p, V, s, 4), RawCand(p, V, s, 5));
  }

  lemma MinTreeBelow(c0: U16, c1: U16, c2: U16, c3: U16, c4: U16, c5: U16)
    ensures MinTree(c0, c1, c2, c3, c4, c5) <= c4 && MinTree(c0, c1, c2, c3, c4, c5) <= c5
  {
  }

  lemma LoneStale(q: Problem, a: nat, n: nat)
    requires q.Valid() && KernelTrans(q) && 4 <= a < N_ACTIONS && n < N_THETA && ReadsBack(q, a, n)
    ensures 0 <= WrapTheta(n + Turn(a)) < n
    ensures RawCand(Lone(q), LoneTable(q, WrapTheta(n + Turn(a))), State(0, 0, n), a) == 1
  {
    LoneFacts(q);
    hide Unpack;
    assert Lone(q).DeltaAt(a, n) == q.DeltaAt(a, n);
    assert q.DeltaAt(a, n).dit == Turn(a);
  }

  // What the kernel and the in-place update leave at theta n differ.
  lemma LoneDiffers(q: Problem, a: nat, n: nat)
    requires q.Valid() && KernelTrans(q) && 4 <= a < N_ACTIONS && n < N_THETA && ReadsBack(q, a, n)
    ensures var (p, V, s) := (Lone(q), LoneTable(q, WrapTheta(n + Turn(a))), State(0, 0, n));
            && V.Keys == p.States()
            && s in CellSwept(p, V, 0, 0).V && CellSwept(p, V, 0, 0).V[s] <= 1
            && s in After(p, V, 0, 0, N_THETA) && After(p, V, 0, 0, N_THETA)[s] >= 2
  {
    var (p, V, s) := (Lone(q), LoneTable(q, WrapTheta(n + Turn(a))), State(0, 0, n));
    LoneFacts(q);
    StaleWrite(q, a, n);
    hide Lone, LoneTable, Bell, KernelValue, After, Problem.Valid, KernelTrans, ReadsBack;
    KeepsTheta(p, V, n, N_THETA);
  }

  // Neither loop touches theta n again after it.
  lemma {:induction false} KeepsTheta(p: Problem, V: Table, n: nat, m: nat)
    requires p.Valid() && V.Keys == p.States() && n < m <= N_THETA && State(0, 0, n) in p.Free()
    ensures State(0, 0, n) in Chained(p, V, 0, 0, m) && State(0, 0, n) in After(p, V, 0, 0, m)
    ensures Chained(p, V, 0, 0, m)[State(0, 0, n)] == KernelValue(p, V, Chained(p, V, 0, 0, n), State(0, 0, n))
    ensures After(p, V, 0, 0, m)[State(0, 0, n)] == Bell(p.Net(), After(p, V, 0, 0, n), State(0, 0, n))
  {
    hide KernelValue, Bell, After, Problem.Valid;
    AfterNext(p, V, 0, 0, m - 1);
    if m > n + 1 {
      KeepsTheta(p, V, n, m - 1);
    }
  }

  // The scan of the lone cell is its theta loop.
  lemma LoneScan(q: Problem, V: Table)
    requires q.Valid()
    ensures NumStrips(Lone(q)) == 1
    ensures StreamSwept(Lone(q), V, 0, 1) == CellSwept(Lone(q), V, 0, 0)
    ensures StreamOrder(Lone(q), 0, 1) == Thetas(0, 0, N_THETA)
  {
    hide Problem.Valid, CellSwept, Thetas;
    var p := Lone(q);
    assert NumStrips(p) == 1 && StripAt(p, 0, 0) == 0 && StripWidth(p, 0) == 1 && p.h == 1;
    assert RowSwept(p, V, 0, 0, 0, 1, 0) == Swept(V, 0);
    assert RowSwept(p, V, 0, 0, 0, 1, 1) == CellSwept(p, V, 0, 0);
    assert StripSwept(p, V, 0, 0, 1, 0) == Swept(V, 0);
    assert StripSwept(p, V, 0, 0, 1, 1) == CellSwept(p, V, 0, 0);
    assert StreamSwept(p, V, 0, 0) == Swept(V, 0);
    assert DirRow(0, 0, 0, 1, 1) == Thetas(0, 0, N_THETA);
    assert StripOrder(p, 0, 0, 1, 1) == Thetas(0, 0, N_THETA);
  }

  lemma TimelyLike(p: Problem, q: Problem)
    requires p.Valid() && q.Valid() && p.trans == q.trans && KernelTrans(q) && Timely(q)
    ensures KernelTrans(p) && Timely(p)
  {
    hide Unpack;
    forall a, it | 0 <= a < N_ACTIONS && 0 <= it < N_THETA
      ensures p.DeltaAt(a, it) == q.DeltaAt(a, it) && ReadsBack(p, a, it) == ReadsBack(q, a, it)
    {
    }
  }

  // The kernel is the in-place update on every map and every table, theta loop
  // and whole scan alike, if and only if no entry of the transition table
  // stays in its cell and turns back to an earlier theta.
  lemma ExactIffTimely(q: Problem)
    requires q.Valid() && KernelTrans(q)
    ensures LoopExact(q) <==> Timely(q)
    ensures ScanExact(q) <==> Timely(q)
  {
    if Timely(q) {
      forall p: Problem, V: Table | p.Valid() && p.trans == q.trans && V.Keys == p.States()
        ensures StreamSafe(p, V)
      {
        TimelyLike(p, q);
      }
      forall p: Problem, V: Table, x: int, y: int | p.Valid() && p.trans == q.trans && V.Keys == p.States() && p.InMap(x, y)
        ensures IsRun(p, V, Thetas(x, y, N_THETA), CellSwept(p, V, x, y))
      {
        CellIsRun(p, V, x, y);
      }
      forall p: Problem, V: Table, cu: int, n: nat | p.Valid() && p.trans == q.trans && V.Keys == p.States() && n <= NumStrips(p)
        ensures IsRun(p, V, StreamOrder(p, cu, n), StreamSwept(p, V, cu, n))
      {
        StreamIsRun(p, V, cu, n);
      }
    } else {
      var a, n :| 4 <= a < N_ACTIONS && 0 <= n < N_THETA && ReadsBack(q, a, n);
      NotExact(q, a, n);
    }
  }

  lemma NotExact(q: Problem, a: nat, n: nat)
    requires q.Valid() && KernelTrans(q) && 4 <= a < N_ACTIONS && n < N_THETA && ReadsBack(q, a, n)
    ensures !LoopExact(q) && !ScanExact(q)
  {
    LoneFacts(q);
    var (p, V) := (Lone(q), LoneTable(q, WrapTheta(n + Turn(a))));
    LoneDiffers(q, a, n);
    LoneScan(q, V);
    hide LoneTable, CellSwept, StreamSwept, StreamOrder, Thetas, Run, RunDelta, KernelTrans, ReadsBack;
    assert p.InMap(0, 0);
    assert !IsRun(p, V, Thetas(0, 0, N_THETA), CellSwept(p, V, 0, 0));
    assert !IsRun(p, V, StreamOrder(p, 0, 1), StreamSwept(p, V, 0, 1));
  }
}
