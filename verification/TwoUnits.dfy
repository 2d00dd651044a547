// Two compute units sharing one table between barriers.
//
// A unit works through its jobs. For each it copies the job's window from the
// shared table into its private buffer one word at a time, updates the block
// in the buffer, and writes the block back one word at a time. The two units
// take their steps in any order. Everything here holds under every
// interleaving of those single-word steps.
module TwoUnits {
  import opened Bellman
  import opened Paths

  datatype Job = Job(load: seq<State>, block: seq<State>)

  datatype Phase = Loading(k: nat) | Storing(k: nat)

  datatype CU = CU(i: nat, phase: Phase, buf: Table, delta: U16)

  datatype Sys = Sys(V: Table, units: seq<CU>)

  ghost predicate Mine(jobs: seq<Job>, s: State) {
    exists j :: 0 <= j < |jobs| && s in jobs[j].block
  }

  // A job loads its block and everything the block's free states look at.
  ghost predicate JobOk(net: Net, job: Job)
    requires net.Valid()
  {
    && (forall s :: s in job.load ==> s in net.states)
    && (forall s :: s in job.block ==> s in job.load)
    && (forall s, a :: s in job.block && s in net.free && 0 <= a < |net.moves[s]| && net.moves[s][a].Step?
          ==> net.moves[s][a].to in job.load)
  }

  ghost predicate JobsOk(net: Net, jobs: seq<Job>)
    requires net.Valid()
  {
    forall j :: 0 <= j < |jobs| ==> JobOk(net, jobs[j])
  }

  // Every state has at most one writer, every free state exactly one.
  ghost predicate PlanOk(net: Net, plan: seq<seq<Job>>) {
    && net.Valid() && |plan| == 2
    && JobsOk(net, plan[0]) && JobsOk(net, plan[1])
    && (forall s :: !(Mine(plan[0], s) && Mine(plan[1], s)))
    && (forall s :: s in net.free ==> Mine(plan[0], s) || Mine(plan[1], s))
  }

  // ------------------------------------------------------------ steps

  predicate Finished(jobs: seq<Job>, u: CU) { u.i >= |jobs| }

  function LoadWord(V: Table, job: Job, u: CU): CU
    requires u.phase.Loading? && u.phase.k < |job.load|
  {
    var s := job.load[u.phase.k];
    u.(buf := if s in V then u.buf[s := V[s]] else u.buf, phase := Loading(u.phase.k + 1))
  }

  function Compute(net: Net, job: Job, u: CU): CU {
    u.(buf := Run(net, u.buf, job.block),
       delta := Max(u.delta, RunDelta(net, u.buf, job.block)),
       phase := Storing(0))
  }

  function StoreWord(V: Table, job: Job, u: CU): Table
    requires u.phase.Storing? && u.phase.k < |job.block|
  {
    var s := job.block[u.phase.k];
    if s in u.buf then V[s := u.buf[s]] else V
  }

  function NextJob(u: CU): CU { u.(i := u.i + 1, phase := Loading(0), buf := map[]) }

  // One step of one unit; a finished unit idles.
  function Tick(net: Net, jobs: seq<Job>, V: Table, u: CU): (Table, CU) {
    if Finished(jobs, u) then (V, u)
    else
      var job := jobs[u.i];
      match u.phase
      case Loading(k) => if k < |job.load| then (V, LoadWord(V, job, u)) else (V, Compute(net, job, u))
      case Storing(k) =>
        if k < |job.block| then (StoreWord(V, job, u), u.(phase := Storing(k + 1))) else (V, NextJob(u))
  }

  function SysStep(net: Net, plan: seq<seq<Job>>, sys: Sys, c: nat): Sys
    requires |plan| == |sys.units| && c < |plan|
  {
    var (V, u) := Tick(net, plan[c], sys.V, sys.units[c]);
    Sys(V, sys.units[c := u])
  }

  // Both units freshly started on a table.
  function Start(V: Table): Sys {
    Sys(V, [CU(0, Loading(0), map[], 0), CU(0, Loading(0), map[], 0)])
  }

  predicate Barrier(plan: seq<seq<Job>>, sys: Sys)
    requires |plan| == 2 && |sys.units| == 2
  {
    Finished(plan[0], sys.units[0]) && Finished(plan[1], sys.units[1])
  }

  // ------------------------------------------------------------ invariant

  // The table as the unit will leave it: its pending block applied.
  ghost function Own(V: Table, block: seq<State>, buf: Table): Table {
    map s | s in V :: if s in block && s in buf then buf[s] else V[s]
  }

  // The table as the unit sees it while loading: loaded words from the buffer.
  ghost function View(V: Table, buf: Table): Table { V + buf }

  // What any holder of table values keeps, relative to the barrier table B,
  // the seeded table V0 and a rising table F below B.
  ghost predicate Sound(net: Net, V0: Table, B: Table, F: Table, T: Table) {
    && Attained(net, V0, T)
    && forall s :: s in T ==> s in F && s in B && F[s] <= T[s] <= B[s] && (s !in net.free ==> T[s] == B[s])
  }

  // The unit's own states cannot be raised by an update.
  ghost predicate MineSettled(net: Net, jobs: seq<Job>, V: Table) {
    forall s :: Mine(jobs, s) && s in net.free && s in V ==> Bell(net, V, s) <= V[s]
  }

  ghost predicate LoadInv(net: Net, job: Job, jobs: seq<Job>, V: Table, buf: Table, k: nat) {
    && k <= |job.load|
    && (forall s :: s in buf <==> s in job.load[..k])
    && (forall s :: s in buf && s in V ==> V[s] <= buf[s])
    && (forall s :: s in buf && s in V && s in job.block ==> V[s] == buf[s])
    && SettlingOn(net, View(V, buf), Members(job.block))
    && MineSettled(net, jobs, V)
  }

  ghost predicate StoreInv(net: Net, job: Job, jobs: seq<Job>, B: Table, V: Table, buf: Table, k: nat) {
    && k <= |job.block|
    && (forall s :: s in buf <==> s in job.load)
    && (forall j :: 0 <= j < k ==> job.block[j] in V && job.block[j] in buf && V[job.block[j]] == buf[job.block[j]])
    && (forall s :: s in buf && s in V && s in job.block ==> buf[s] <= V[s])
    && (forall s :: s in job.block && s in buf && s in net.free ==> buf[s] <= Bell(net, B, s))
    && MineSettled(net, jobs, Own(V, job.block, buf))
  }

  ghost predicate UnitInv(net: Net, V0: Table, B: Table, F: Table, jobs: seq<Job>, V: Table, u: CU) {
    && u.i <= |jobs|
    && Sound(net, V0, B, F, u.buf)
    && (forall j, s :: 0 <= j < u.i && j < |jobs| && s in jobs[j].block && s in net.free && s in V ==>
          V[s] <= Bell(net, B, s))
    && (if u.i == |jobs| then
          MineSettled(net, jobs, V)
        else if u.phase.Loading? then
          LoadInv(net, jobs[u.i], jobs, V, u.buf, u.phase.k)
        else
          StoreInv(net, jobs[u.i], jobs, B, V, u.buf, u.phase.k))
  }

  ghost predicate TableInv(net: Net, V0: Table, B: Table, F: Table, V: Table) {
    && V.Keys == net.states == B.Keys == F.Keys == V0.Keys
    && Rising(net, F)
    && Sound(net, V0, B, F, V)
  }

  // ------------------------------------------------------------ buffers

  // Computing in the buffer is computing in the table overlaid with the buffer.
  lemma {:induction false} BestOverlay(ms: seq<Move>, V: Table, buf: Table)
    requires forall a :: 0 <= a < |ms| && ms[a].Step? ==> ms[a].to in buf
    ensures Best(ms, buf) == Best(ms, View(V, buf))
  {
    if |ms| > 0 {
      BestOverlay(ms[..|ms| - 1], V, buf);
    }
  }

  lemma {:induction false} RunOverlay(net: Net, V: Table, buf: Table, order: seq<State>)
    requires net.Valid() && buf.Keys <= V.Keys
    requires forall s :: s in order ==> s in buf
    requires forall s, a :: s in order && s in net.free && 0 <= a < |net.moves[s]| && net.moves[s][a].Step?
               ==> net.moves[s][a].to in buf
    ensures Run(net, buf, order).Keys == buf.Keys
    ensures View(V, Run(net, buf, order)) == Run(net, View(V, buf), order)
    ensures RunDelta(net, buf, order) == RunDelta(net, View(V, buf), order)
  {
    if |order| > 0 {
      var n := |order| - 1;
      RunOverlay(net, V, buf, order[..n]);
      var s := order[n];
      var P := Run(net, buf, order[..n]);
      if s in net.free {
        BestOverlay(net.moves[s], V, P);
      }
    }
  }

  // Lowering values outside B keeps the states of B settled.
  lemma SettleUnder(net: Net, M: Table, N: Table, B: set<State>)
    requires SettlingOn(net, M, B) && Leq(N, M)
    requires forall s :: s in B && s in M ==> N[s] == M[s]
    ensures SettlingOn(net, N, B)
  {
    forall s | s in net.free && s in B && s in N
      ensures Bell(net, N, s) <= N[s]
    {
      if s in net.moves {
        BestMonotone(net.moves[s], N, M);
      }
    }
  }

  // ------------------------------------------------------------ soundness

  lemma SoundWrite(net: Net, V0: Table, B: Table, F: Table, T: Table, S: Table, s: State)
    requires Sound(net, V0, B, F, T) && Sound(net, V0, B, F, S) && s in S
    ensures Sound(net, V0, B, F, T[s := S[s]])
  {
  }

  lemma SoundView(net: Net, V0: Table, B: Table, F: Table, V: Table, buf: Table)
    requires Sound(net, V0, B, F, V) && Sound(net, V0, B, F, buf)
    ensures Sound(net, V0, B, F, View(V, buf))
  {
  }

  lemma SoundPart(net: Net, V0: Table, B: Table, F: Table, R: Table, T: Table)
    requires Sound(net, V0, B, F, R)
    requires forall s :: s in T ==> s in R && R[s] == T[s]
    ensures Sound(net, V0, B, F, T)
  {
  }

  // A run that settles on the states it visits keeps a table sound.
  lemma SoundRun(net: Net, V0: Table, B: Table, F: Table, M: Table, order: seq<State>)
    requires net.Valid() && M.Keys == net.states == B.Keys == F.Keys
    requires Rising(net, F) && Sound(net, V0, B, F, M) && SettlingOn(net, M, Members(order))
    ensures Sound(net, V0, B, F, Run(net, M, order))
  {
    hide Run, Price, Arrives;
    RunAttained(net, V0, M, order);
    RunAboveRising(net, F, M, order);
    RunSettlesOn(net, M, Members(order), order);
    RunKeys(net, M, order);
  }

  // ------------------------------------------------------------ loading

  lemma LoadInvStarts(net: Net, jobs: seq<Job>, i: nat, V: Table)
    requires i < |jobs| && MineSettled(net, jobs, V)
    ensures LoadInv(net, jobs[i], jobs, V, map[], 0)
  {
    hide Bell;
    assert View(V, map[]) == V;
    assert forall s :: s in jobs[i].block ==> Mine(jobs, s);
  }

  lemma LoadInvWord(net: Net, job: Job, jobs: seq<Job>, V: Table, buf: Table, k: nat)
    requires LoadInv(net, job, jobs, V, buf, k) && k < |job.load| && job.load[k] in V
    ensures LoadInv(net, job, jobs, V, buf[job.load[k] := V[job.load[k]]], k + 1)
  {
    hide Bell;
    var s := job.load[k];
    var buf' := buf[s := V[s]];
    assert job.load[..k + 1] == job.load[..k] + [s];
    SettleUnder(net, View(V, buf), View(V, buf'), Members(job.block));
  }

  lemma LoadInvOther(net: Net, job: Job, jobs: seq<Job>, V: Table, W: Table, buf: Table, k: nat)
    requires net.Valid() && LoadInv(net, job, jobs, V, buf, k) && job in jobs
    requires Leq(W, V) && forall s :: s in V && Mine(jobs, s) ==> W[s] == V[s]
    ensures LoadInv(net, job, jobs, W, buf, k)
  {
    MineSettledOther(net, jobs, V, W);
    hide Bell;
    assert forall s :: s in job.block ==> Mine(jobs, s);
    SettleUnder(net, View(V, buf), View(W, buf), Members(job.block));
  }

  lemma MineSettledOther(net: Net, jobs: seq<Job>, V: Table, W: Table)
    requires net.Valid() && MineSettled(net, jobs, V)
    requires Leq(W, V) && forall s :: s in V && Mine(jobs, s) ==> W[s] == V[s]
    ensures MineSettled(net, jobs, W)
  {
    forall s | Mine(jobs, s) && s in net.free && s in W
      ensures Bell(net, W, s) <= W[s]
    {
      BestMonotone(net.moves[s], W, V);
    }
  }

  // ------------------------------------------------------------ computing and storing

  // What the overlay of a fully loaded buffer gives about computing in it.
  lemma ComputeFacts(net: Net, V0: Table, B: Table, F: Table, job: Job, jobs: seq<Job>, V: Table, buf: Table)
    requires net.Valid() && JobOk(net, job) && TableInv(net, V0, B, F, V) && Sound(net, V0, B, F, buf)
    requires LoadInv(net, job, jobs, V, buf, |job.load|)
    ensures Run(net, buf, job.block).Keys == buf.Keys
    ensures View(V, Run(net, buf, job.block)) == Run(net, View(V, buf), job.block)
    ensures RunDelta(net, buf, job.block) == RunDelta(net, View(V, buf), job.block)
    ensures View(V, buf).Keys == net.states && Leq(View(V, buf), B)
    ensures Sound(net, V0, B, F, Run(net, buf, job.block))
  {
    hide Bell, Run, RunDelta, Attained;
    assert job.load[..|job.load|] == job.load;
    var M := View(V, buf);
    RunOverlay(net, V, buf, job.block);
    SoundView(net, V0, B, F, V, buf);
    SoundRun(net, V0, B, F, M, job.block);
    SoundPart(net, V0, B, F, Run(net, M, job.block), Run(net, buf, job.block));
  }

  lemma StoreInvStarts(net: Net, V0: Table, B: Table, F: Table, job: Job, jobs: seq<Job>, V: Table, buf: Table)
    requires net.Valid() && JobOk(net, job) && TableInv(net, V0, B, F, V) && Sound(net, V0, B, F, buf)
    requires LoadInv(net, job, jobs, V, buf, |job.load|)
    ensures StoreInv(net, job, jobs, B, V, Run(net, buf, job.block), 0)
  {
    var M := View(V, buf);
    var T := Run(net, buf, job.block);
    ComputeFacts(net, V0, B, F, job, jobs, V, buf);
    LoadedBlock(net, V0, B, F, job, jobs, V, buf);
    hide Bell, Run, RunDelta, SettlingOn, Sound, TableInv, MineSettled, StoreInv, JobOk, LoadInv, View;
    BlockBelow(net, B, M, job.block);
    OwnSettles(net, job, jobs, V, M, T);
    BlockOfView(net, job, V, M, T);
    StoreInvFrom(net, job, jobs, B, V, T);
  }

  lemma BlockOfView(net: Net, job: Job, V: Table, M: Table, T: Table)
    requires forall s :: s in job.block ==> s in T && s in M
    requires View(V, T) == Run(net, M, job.block) && Leq(Run(net, M, job.block), M)
    ensures forall s :: s in job.block ==> T[s] == Run(net, M, job.block)[s] && T[s] <= M[s]
  {
    assert forall s :: s in job.block ==> T[s] == View(V, T)[s];
  }

  lemma StoreInvFrom(net: Net, job: Job, jobs: seq<Job>, B: Table, V: Table, T: Table)
    requires forall s :: s in T <==> s in job.load
    requires forall s :: s in T && s in V && s in job.block ==> T[s] <= V[s]
    requires forall s :: s in job.block && s in T && s in net.free ==> T[s] <= Bell(net, B, s)
    requires MineSettled(net, jobs, Own(V, job.block, T))
    ensures StoreInv(net, job, jobs, B, V, T, 0)
  {
  }

  lemma LoadedBlock(net: Net, V0: Table, B: Table, F: Table, job: Job, jobs: seq<Job>, V: Table, buf: Table)
    requires net.Valid() && JobOk(net, job) && TableInv(net, V0, B, F, V)
    requires LoadInv(net, job, jobs, V, buf, |job.load|)
    ensures V.Keys == net.states && Leq(V, View(V, buf)) && MineSettled(net, jobs, V)
    ensures SettlingOn(net, View(V, buf), Members(job.block))
    ensures forall s :: s in buf <==> s in job.load
    ensures forall s :: s in job.block ==> s in buf && s in V && s in View(V, buf) && V[s] == View(V, buf)[s]
  {
    assert job.load[..|job.load|] == job.load;
    hide Bell;
    LoadedView(net, job, jobs, V, buf);
  }

  lemma LoadedView(net: Net, job: Job, jobs: seq<Job>, V: Table, buf: Table)
    requires LoadInv(net, job, jobs, V, buf, |job.load|) && buf.Keys <= V.Keys
    ensures Leq(V, View(V, buf))
    ensures forall s :: s in job.block && s in V ==> V[s] == View(V, buf)[s]
  {
    hide Bell;
  }

  lemma BlockBelow(net: Net, B: Table, M: Table, block: seq<State>)
    requires net.free <= M.Keys && Leq(M, B) && SettlingOn(net, M, Members(block))
    ensures Run(net, M, block).Keys == M.Keys && Leq(Run(net, M, block), M)
    ensures forall s :: s in block && s in net.free ==> Run(net, M, block)[s] <= Bell(net, B, s)
  {
    RunSettlesOn(net, M, Members(block), block);
    forall s | s in block && s in net.free
      ensures Run(net, M, block)[s] <= Bell(net, B, s)
    {
      BellMonotone(net, M, B, s);
    }
  }

  lemma BellMonotone(net: Net, U: Table, V: Table, s: State)
    requires Leq(U, V)
    ensures Bell(net, U, s) <= Bell(net, V, s)
  {
    if s in net.moves {
      BestMonotone(net.moves[s], U, V);
    }
  }

  lemma OwnSettles(net: Net, job: Job, jobs: seq<Job>, V: Table, M: Table, T: Table)
    requires net.free <= V.Keys && MineSettled(net, jobs, V)
    requires Leq(V, M) && SettlingOn(net, M, Members(job.block))
    requires forall s :: s in job.block && s in V ==> V[s] == M[s]
    requires View(V, T) == Run(net, M, job.block)
    ensures MineSettled(net, jobs, Own(V, job.block, T))
  {
    hide Run;
    var R := Run(net, M, job.block);
    var O := Own(V, job.block, T);
    RunSettlesOn(net, M, Members(job.block), job.block);
    forall s | s in O && s !in job.block
      ensures O[s] <= R[s]
    {
      RunFrame(net, M, job.block, s);
    }
    assert Leq(O, R) && Leq(O, V);
    SettleUnder(net, R, O, Members(job.block));
    forall s | Mine(jobs, s) && s in net.free && s in O
      ensures Bell(net, O, s) <= O[s]
    {
      if s in job.block {
        assert s in Members(job.block);
      } else {
        BellMonotone(net, O, V, s);
      }
    }
  }

  lemma StoreInvWord(net: Net, job: Job, jobs: seq<Job>, B: Table, V: Table, buf: Table, k: nat)
    requires StoreInv(net, job, jobs, B, V, buf, k) && k < |job.block| && job.block[k] in V && job.block[k] in buf
    ensures StoreInv(net, job, jobs, B, V[job.block[k] := buf[job.block[k]]], buf, k + 1)
  {
    hide Bell;
    var W := V[job.block[k] := buf[job.block[k]]];
    assert Own(W, job.block, buf) == Own(V, job.block, buf);
  }

  lemma StoreInvEnds(net: Net, job: Job, jobs: seq<Job>, B: Table, V: Table, buf: Table)
    requires StoreInv(net, job, jobs, B, V, buf, |job.block|)
    ensures MineSettled(net, jobs, V)
    ensures forall s :: s in job.block && s in net.free ==> s in V && V[s] <= Bell(net, B, s)
  {
    hide Bell;
    forall s | s in job.block
      ensures s in V && s in buf && V[s] == buf[s]
    {
      var j :| 0 <= j < |job.block| && job.block[j] == s;
    }
    assert Own(V, job.block, buf) == V;
  }

  lemma StoreInvOther(net: Net, job: Job, jobs: seq<Job>, B: Table, V: Table, W: Table, buf: Table, k: nat)
    requires net.Valid() && StoreInv(net, job, jobs, B, V, buf, k) && job in jobs
    requires Leq(W, V) && forall s :: s in V && Mine(jobs, s) ==> W[s] == V[s]
    ensures StoreInv(net, job, jobs, B, W, buf, k)
  {
    hide Bell;
    assert forall s :: s in job.block ==> Mine(jobs, s);
    MineSettledOther(net, jobs, Own(V, job.block, buf), Own(W, job.block, buf));
  }

  // ------------------------------------------------------------ a unit's own steps

  lemma LoadStep(net: Net, V0: Table, B: Table, F: Table, jobs: seq<Job>, V: Table, u: CU)
    requires net.Valid() && JobsOk(net, jobs) && TableInv(net, V0, B, F, V) && UnitInv(net, V0, B, F, jobs, V, u)
    requires !Finished(jobs, u) && u.phase.Loading? && u.phase.k < |jobs[u.i].load|
    ensures UnitInv(net, V0, B, F, jobs, V, LoadWord(V, jobs[u.i], u))
  {
    hide Bell, Sound, LoadInv, StoreInv;
    var job := jobs[u.i];
    var k := u.phase.k;
    assert JobOk(net, job) && job.load[k] in V;
    LoadInvWord(net, job, jobs, V, u.buf, k);
    SoundWrite(net, V0, B, F, u.buf, V, job.load[k]);
  }

  lemma ComputeStep(net: Net, V0: Table, B: Table, F: Table, jobs: seq<Job>, V: Table, u: CU)
    requires net.Valid() && JobsOk(net, jobs) && TableInv(net, V0, B, F, V) && UnitInv(net, V0, B, F, jobs, V, u)
    requires !Finished(jobs, u) && u.phase.Loading? && u.phase.k >= |jobs[u.i].load|
    ensures UnitInv(net, V0, B, F, jobs, V, Compute(net, jobs[u.i], u))
  {
    hide Bell, Sound, StoreInv, Run, RunDelta, SettlingOn;
    var job := jobs[u.i];
    assert JobOk(net, job) && u.phase.k == |job.load|;
    ComputeFacts(net, V0, B, F, job, jobs, V, u.buf);
    StoreInvStarts(net, V0, B, F, job, jobs, V, u.buf);
  }

  lemma StoreStep(net: Net, V0: Table, B: Table, F: Table, jobs: seq<Job>, V: Table, u: CU)
    requires net.Valid() && JobsOk(net, jobs) && TableInv(net, V0, B, F, V) && UnitInv(net, V0, B, F, jobs, V, u)
    requires !Finished(jobs, u) && u.phase.Storing? && u.phase.k < |jobs[u.i].block|
    ensures var W := StoreWord(V, jobs[u.i], u);
            && TableInv(net, V0, B, F, W) && Leq(W, V)
            && (forall s :: s in V && !Mine(jobs, s) ==> W[s] == V[s])
            && UnitInv(net, V0, B, F, jobs, W, u.(phase := Storing(u.phase.k + 1)))
  {
    hide Bell, Sound, LoadInv, SettlingOn, Rising, MineSettled, Run, RunDelta;
    var job := jobs[u.i];
    var k := u.phase.k;
    var s := job.block[k];
    assert JobOk(net, job) && s in job.load && s in u.buf && s in V;
    assert StoreWord(V, job, u) == V[s := u.buf[s]];
    StoreInvWord(net, job, jobs, B, V, u.buf, k);
    SoundWrite(net, V0, B, F, V, u.buf, s);
    assert Mine(jobs, s);
  }

  lemma StoreFull(net: Net, job: Job, jobs: seq<Job>, B: Table, V: Table, buf: Table, k: nat)
    requires StoreInv(net, job, jobs, B, V, buf, k) && k >= |job.block|
    ensures k == |job.block|
  {
  }

  lemma NextStep(net: Net, V0: Table, B: Table, F: Table, jobs: seq<Job>, V: Table, u: CU)
    requires net.Valid() && JobsOk(net, jobs) && TableInv(net, V0, B, F, V) && UnitInv(net, V0, B, F, jobs, V, u)
    requires !Finished(jobs, u) && u.phase.Storing? && u.phase.k >= |jobs[u.i].block|
    ensures UnitInv(net, V0, B, F, jobs, V, NextJob(u))
  {
    hide Bell, LoadInv, StoreInv, MineSettled, SettlingOn, Arrives, Price, TableInv, Rising;
    StoreFull(net, jobs[u.i], jobs, B, V, u.buf, u.phase.k);
    StoreInvEnds(net, jobs[u.i], jobs, B, V, u.buf);
    if u.i + 1 < |jobs| {
      LoadInvStarts(net, jobs, u.i + 1, V);
    }
  }

  // ------------------------------------------------------------ the other unit's steps

  // Lowering a state that is not the unit's own keeps its invariant.
  lemma OtherStep(net: Net, V0: Table, B: Table, F: Table, jobs: seq<Job>, V: Table, W: Table, u: CU)
    requires net.Valid() && UnitInv(net, V0, B, F, jobs, V, u)
    requires Leq(W, V) && forall s :: s in V && Mine(jobs, s) ==> W[s] == V[s]
    ensures UnitInv(net, V0, B, F, jobs, W, u)
  {
    hide Bell, LoadInv, StoreInv, Sound;
    if u.i == |jobs| {
      MineSettledOther(net, jobs, V, W);
    } else if u.phase.Loading? {
      LoadInvOther(net, jobs[u.i], jobs, V, W, u.buf, u.phase.k);
    } else {
      StoreInvOther(net, jobs[u.i], jobs, B, V, W, u.buf, u.phase.k);
    }
  }

  // ------------------------------------------------------------ the system

  ghost predicate SysInv(net: Net, plan: seq<seq<Job>>, V0: Table, B: Table, F: Table, sys: Sys)
    requires PlanOk(net, plan)
  {
    && |sys.units| == 2
    && TableInv(net, V0, B, F, sys.V)
    && UnitInv(net, V0, B, F, plan[0], sys.V, sys.units[0])
    && UnitInv(net, V0, B, F, plan[1], sys.V, sys.units[1])
  }

  // A step of one unit keeps its invariant and only lowers states of its own.
  lemma UnitStep(net: Net, V0: Table, B: Table, F: Table, jobs: seq<Job>, V: Table, u: CU)
    requires net.Valid() && JobsOk(net, jobs) && TableInv(net, V0, B, F, V) && UnitInv(net, V0, B, F, jobs, V, u)
    ensures var (W, w) := Tick(net, jobs, V, u);
            && TableInv(net, V0, B, F, W) && Leq(W, V)
            && (forall s :: s in V && !Mine(jobs, s) ==> W[s] == V[s])
            && UnitInv(net, V0, B, F, jobs, W, w)
  {
    hide UnitInv, TableInv, JobsOk;
    assert V.Keys == net.states by { TableKeys(net, V0, B, F, V); }
    if Finished(jobs, u) {
    } else if u.phase.Loading? {
      if u.phase.k < |jobs[u.i].load| {
        LoadStep(net, V0, B, F, jobs, V, u);
      } else {
        ComputeStep(net, V0, B, F, jobs, V, u);
      }
    } else if u.phase.k < |jobs[u.i].block| {
      StoreStep(net, V0, B, F, jobs, V, u);
    } else {
      NextStep(net, V0, B, F, jobs, V, u);
    }
  }

  lemma TableKeys(net: Net, V0: Table, B: Table, F: Table, V: Table)
    requires TableInv(net, V0, B, F, V)
    ensures V.Keys == net.states
  {
  }

  lemma SysStepKeeps(net: Net, plan: seq<seq<Job>>, V0: Table, B: Table, F: Table, sys: Sys, c: nat)
    requires PlanOk(net, plan) && SysInv(net, plan, V0, B, F, sys) && c < 2
    ensures SysInv(net, plan, V0, B, F, SysStep(net, plan, sys, c))
    ensures Leq(SysStep(net, plan, sys, c).V, sys.V)
    // One writer per state: only the stepping unit's own states can change.
    ensures forall s :: s in sys.V && !Mine(plan[c], s) ==> SysStep(net, plan, sys, c).V[s] == sys.V[s]
  {
    hide UnitInv, TableInv, Tick, JobsOk;
    var d := 1 - c;
    UnitStep(net, V0, B, F, plan[c], sys.V, sys.units[c]);
    var (W, w) := Tick(net, plan[c], sys.V, sys.units[c]);
    TableKeys(net, V0, B, F, sys.V);
    assert forall s :: s in sys.V && Mine(plan[d], s) ==> !Mine(plan[c], s);
    OtherStep(net, V0, B, F, plan[d], sys.V, W, sys.units[d]);
  }

  // Any interleaving: entry i of the schedule names the unit that steps.
  function Exec(net: Net, plan: seq<seq<Job>>, sys: Sys, schedule: seq<nat>): (r: Sys)
    requires |plan| == |sys.units| == 2 && forall i :: 0 <= i < |schedule| ==> schedule[i] < 2
    ensures |r.units| == 2
  {
    if |schedule| == 0 then sys
    else
      var n := |schedule| - 1;
      SysStep(net, plan, Exec(net, plan, sys, schedule[..n]), schedule[n])
  }

  lemma {:induction false} ExecKeeps(net: Net, plan: seq<seq<Job>>, V0: Table, B: Table, F: Table, sys: Sys, schedule: seq<nat>)
    requires PlanOk(net, plan) && SysInv(net, plan, V0, B, F, sys)
    requires forall i :: 0 <= i < |schedule| ==> schedule[i] < 2
    ensures SysInv(net, plan, V0, B, F, Exec(net, plan, sys, schedule))
  {
    hide SysInv, SysStep;
    assert |sys.units| == 2 by { SysShape(net, plan, V0, B, F, sys); }
    if |schedule| > 0 {
      var n := |schedule| - 1;
      ExecKeeps(net, plan, V0, B, F, sys, schedule[..n]);
      SysStepKeeps(net, plan, V0, B, F, Exec(net, plan, sys, schedule[..n]), schedule[n]);
    }
  }

  lemma SysShape(net: Net, plan: seq<seq<Job>>, V0: Table, B: Table, F: Table, sys: Sys)
    requires PlanOk(net, plan) && SysInv(net, plan, V0, B, F, sys)
    ensures |sys.units| == 2
  {
  }

  // ------------------------------------------------------------ the certificate

  ghost predicate Computed(u: CU, j: nat) { j < u.i || (j == u.i && u.phase.Storing?) }

  // How far a unit's buffer is filled, on whatever table it works.
  ghost predicate Wired(jobs: seq<Job>, u: CU) {
    && u.i <= |jobs|
    && (u.i < |jobs| ==>
          match u.phase
          case Loading(k) => k <= |jobs[u.i].load| && forall s :: s in u.buf <==> s in jobs[u.i].load[..k]
          case Storing(k) => k <= |jobs[u.i].block| && forall s :: s in u.buf <==> s in jobs[u.i].load)
  }

  // The unit's buffer agrees with B, and the blocks it has computed are at rest there.
  ghost predicate QuietUnit(net: Net, B: Table, jobs: seq<Job>, u: CU) {
    && (forall s :: s in u.buf ==> s in B && u.buf[s] == B[s])
    && (forall j, s :: 0 <= j < |jobs| && Computed(u, j) && s in jobs[j].block && s in net.free && s in B ==>
          Bell(net, B, s) == B[s])
  }

  lemma QuietCompute(net: Net, B: Table, jobs: seq<Job>, u: CU)
    requires net.Valid() && JobsOk(net, jobs) && B.Keys == net.states && Wired(jobs, u)
    requires !Finished(jobs, u) && u.phase.Loading? && u.phase.k >= |jobs[u.i].load|
    requires QuietUnit(net, B, jobs, u)
    ensures RunDelta(net, u.buf, jobs[u.i].block) == 0 ==> QuietUnit(net, B, jobs, Compute(net, jobs[u.i], u))
    ensures Fixed(net, B) ==> RunDelta(net, u.buf, jobs[u.i].block) == 0
    ensures Run(net, u.buf, jobs[u.i].block).Keys == u.buf.Keys
  {
    hide Run, RunDelta, Bell;
    var job := jobs[u.i];
    assert JobOk(net, job) && job.load[..|job.load|] == job.load;
    RunOverlay(net, B, u.buf, job.block);
    assert View(B, u.buf) == B;
    if Fixed(net, B) { FixedStays(net, B, job.block); }
    if RunDelta(net, u.buf, job.block) == 0 {
      ZeroDeltaCertifies(net, B, job.block);
      var T := Run(net, u.buf, job.block);
      assert forall s :: s in T ==> T[s] == View(B, T)[s];
    }
  }

  // A unit stays wired, its change only grows, and the table keeps its states.
  lemma WiredStep(net: Net, jobs: seq<Job>, V: Table, u: CU)
    requires net.Valid() && JobsOk(net, jobs) && V.Keys == net.states && Wired(jobs, u)
    ensures var (W, w) := Tick(net, jobs, V, u);
            Wired(jobs, w) && u.delta <= w.delta && W.Keys == V.Keys
  {
    hide Bell, Run, RunDelta;
    if !Finished(jobs, u) {
      var job := jobs[u.i];
      assert JobOk(net, job) && job.load[..|job.load|] == job.load;
      if u.phase.Loading? && u.phase.k < |job.load| {
        assert job.load[..u.phase.k + 1] == job.load[..u.phase.k] + [job.load[u.phase.k]];
      } else if u.phase.Loading? {
        BufferKeys(net, u.buf, job);
      }
    }
  }

  lemma BufferKeys(net: Net, buf: Table, job: Job)
    requires net.Valid() && JobOk(net, job) && forall s :: s in buf <==> s in job.load
    ensures Run(net, buf, job.block).Keys == buf.Keys
  {
    hide Run, RunDelta;
    RunOverlay(net, buf, buf, job.block);
  }

  // One step of a unit on a table at rest so far.
  lemma QuietStep(net: Net, B: Table, jobs: seq<Job>, u: CU)
    requires net.Valid() && JobsOk(net, jobs) && B.Keys == net.states && Wired(jobs, u) && QuietUnit(net, B, jobs, u)
    ensures Tick(net, jobs, B, u).1.delta == 0 ==> Tick(net, jobs, B, u).0 == B && QuietUnit(net, B, jobs, Tick(net, jobs, B, u).1)
    ensures Fixed(net, B) && u.delta == 0 ==> Tick(net, jobs, B, u).1.delta == 0
  {
    hide Bell, Run, RunDelta, Fixed;
    if !Finished(jobs, u) && u.phase.Loading? && u.phase.k >= |jobs[u.i].load| {
      QuietCompute(net, B, jobs, u);
    }
  }

  // What every interleaving keeps, on any table: as long as neither unit has
  // seen a change the table is the barrier table, at rest on all blocks computed
  // so far; and on a fixed point no unit ever sees a change.
  ghost predicate CertInv(net: Net, plan: seq<seq<Job>>, B: Table, sys: Sys)
    requires PlanOk(net, plan)
  {
    && |sys.units| == 2 && sys.V.Keys == net.states == B.Keys
    && Wired(plan[0], sys.units[0]) && Wired(plan[1], sys.units[1])
    && (sys.units[0].delta == 0 && sys.units[1].delta == 0 ==>
          sys.V == B && QuietUnit(net, B, plan[0], sys.units[0]) && QuietUnit(net, B, plan[1], sys.units[1]))
    && (Fixed(net, B) ==> sys.units[0].delta == 0 && sys.units[1].delta == 0)
  }

  lemma CertStep(net: Net, plan: seq<seq<Job>>, B: Table, sys: Sys, c: nat)
    requires PlanOk(net, plan) && CertInv(net, plan, B, sys) && c < 2
    ensures CertInv(net, plan, B, SysStep(net, plan, sys, c))
  {
    hide Wired, QuietUnit, Tick, JobsOk, Fixed;
    WiredStep(net, plan[c], sys.V, sys.units[c]);
    if sys.units[0].delta == 0 && sys.units[1].delta == 0 {
      QuietStep(net, B, plan[c], sys.units[c]);
    }
  }

  lemma {:induction false} CertExec(net: Net, plan: seq<seq<Job>>, B: Table, schedule: seq<nat>)
    requires PlanOk(net, plan) && B.Keys == net.states
    requires forall i :: 0 <= i < |schedule| ==> schedule[i] < 2
    ensures CertInv(net, plan, B, Exec(net, plan, Start(B), schedule))
  {
    hide SysStep;
    if |schedule| > 0 {
      var n := |schedule| - 1;
      CertExec(net, plan, B, schedule[..n]);
      CertStep(net, plan, B, Exec(net, plan, Start(B), schedule[..n]), schedule[n]);
    }
  }

  // The certificate of a barrier, from any table and for every interleaving:
  // both changes are zero if and only if the round began at an exact fixed
  // point, and then the table is still that fixed point.
  lemma Certificate(net: Net, plan: seq<seq<Job>>, B: Table, schedule: seq<nat>)
    requires PlanOk(net, plan) && B.Keys == net.states
    requires forall i :: 0 <= i < |schedule| ==> schedule[i] < 2
    ensures var sys := Exec(net, plan, Start(B), schedule);
      && sys.V.Keys == net.states
      && (Barrier(plan, sys) ==>
            && (sys.units[0].delta == 0 && sys.units[1].delta == 0 <==> Fixed(net, B))
            && (Fixed(net, B) ==> sys.V == B))
  {
    hide Exec, Bell;
    var sys := Exec(net, plan, Start(B), schedule);
    CertExec(net, plan, B, schedule);
    if Barrier(plan, sys) && sys.units[0].delta == 0 && sys.units[1].delta == 0 {
      forall s | s in net.free && s in B
        ensures Bell(net, B, s) == B[s]
      {
        var c := if Mine(plan[0], s) then 0 else 1;
        assert Mine(plan[c], s) && QuietUnit(net, B, plan[c], sys.units[c]);
        var j :| 0 <= j < |plan[c]| && s in plan[c][j].block;
        assert Computed(sys.units[c], j);
      }
    }
  }

  // ------------------------------------------------------------ rounds

  lemma StartKeeps(net: Net, plan: seq<seq<Job>>, V0: Table, B: Table, F: Table, k: nat)
    requires PlanOk(net, plan) && V0.Keys == net.states && Progress(net, V0, B, k)
    requires Rising(net, F) && Leq(F, B)
    ensures SysInv(net, plan, V0, B, F, Start(B))
  {
    hide Bell, Covers, Arrives, Price, LoadInv;
    assert MineSettled(net, plan[0], B) && MineSettled(net, plan[1], B);
    if |plan[0]| > 0 {
      LoadInvStarts(net, plan[0], 0, B);
    }
    if |plan[1]| > 0 {
      LoadInvStarts(net, plan[1], 0, B);
    }
  }

  // A table that is zero wherever it may be: a floor under every run.
  ghost function Floor(net: Net, B: Table): (F: Table)
    ensures Rising(net, F) && Leq(F, B)
  {
    map s | s in B :: if s in net.free then 0 else B[s]
  }

  lemma BarrierAdvances(net: Net, plan: seq<seq<Job>>, V0: Table, B: Table, F: Table, sys: Sys, k: nat)
    requires PlanOk(net, plan) && SysInv(net, plan, V0, B, F, sys) && Barrier(plan, sys)
    requires Progress(net, V0, B, k)
    ensures Progress(net, V0, sys.V, k + 1)
  {
    hide Bell, Covers, Arrives, Price, Attained, JobsOk, Rising;
    forall s | s in net.free && s in sys.V
      ensures Bell(net, sys.V, s) <= sys.V[s] && sys.V[s] <= Bell(net, B, s)
    {
      var c := if Mine(plan[0], s) then 0 else 1;
      assert Mine(plan[c], s) && MineSettled(net, plan[c], sys.V);
      var j :| 0 <= j < |plan[c]| && s in plan[c][j].block;
    }
    AdvanceCovers(net, V0, B, sys.V, k);
  }

  lemma SysAbove(net: Net, plan: seq<seq<Job>>, V0: Table, B: Table, F: Table, sys: Sys)
    requires PlanOk(net, plan) && SysInv(net, plan, V0, B, F, sys)
    ensures Leq(F, sys.V) && Leq(sys.V, B)
  {
    hide UnitInv, Attained;
  }

  // Safety and certificate of one round, for every interleaving. At every
  // moment the shared table lies between any rising table it started above
  // and the table of the last barrier. At the next barrier the round has
  // advanced one full Bellman step; two zero deltas certify an exact fixed
  // point, and from a fixed point both deltas are zero.
  lemma Round(net: Net, plan: seq<seq<Job>>, V0: Table, B: Table, k: nat, schedule: seq<nat>)
    requires PlanOk(net, plan) && V0.Keys == net.states && Progress(net, V0, B, k)
    requires forall i :: 0 <= i < |schedule| ==> schedule[i] < 2
    ensures var sys := Exec(net, plan, Start(B), schedule);
      && Leq(sys.V, B)
      && (forall F: Table :: Rising(net, F) && Leq(F, B) ==> Leq(F, sys.V))
      && (Barrier(plan, sys) ==>
            && Progress(net, V0, sys.V, k + 1)
            && (sys.units[0].delta == 0 && sys.units[1].delta == 0 <==> Fixed(net, B))
            && (Fixed(net, B) ==> sys.V == B))
  {
    hide SysInv, Progress, Rising, Fixed, Exec, Floor;
    var sys := Exec(net, plan, Start(B), schedule);
    forall F: Table | Rising(net, F) && Leq(F, B)
      ensures SysInv(net, plan, V0, B, F, sys) && Leq(F, sys.V) && Leq(sys.V, B)
    {
      StartKeeps(net, plan, V0, B, F, k);
      ExecKeeps(net, plan, V0, B, F, Start(B), schedule);
      SysAbove(net, plan, V0, B, F, sys);
    }
    var F := Floor(net, B);
    assert SysInv(net, plan, V0, B, F, sys) && Leq(sys.V, B);
    if Barrier(plan, sys) {
      BarrierAdvances(net, plan, V0, B, F, sys, k);
      ProgressKeys(net, V0, B, k);
      Certificate(net, plan, B, schedule);
    }
  }

  lemma ProgressKeys(net: Net, V0: Table, B: Table, k: nat)
    requires V0.Keys == net.states && Progress(net, V0, B, k)
    ensures B.Keys == net.states
  {
  }

  // ------------------------------------------------------------ termination

  ghost function JobsWork(jobs: seq<Job>, i: nat): nat
    decreases |jobs| - i
  {
    if i >= |jobs| then 0 else |jobs[i].load| + |jobs[i].block| + 2 + JobsWork(jobs, i + 1)
  }

  // The number of steps a unit still has to take.
  ghost function Work(jobs: seq<Job>, u: CU): nat {
    if Finished(jobs, u) then 0
    else
      var job := jobs[u.i];
      JobsWork(jobs, u.i + 1) + match u.phase
      case Loading(k) => (if k < |job.load| then |job.load| - k else 0) + 1 + |job.block| + 1
      case Storing(k) => (if k < |job.block| then |job.block| - k else 0) + 1
  }

  lemma StepWorks(net: Net, jobs: seq<Job>, V: Table, u: CU)
    requires !Finished(jobs, u)
    ensures Work(jobs, Tick(net, jobs, V, u).1) < Work(jobs, u)
  {
    hide Run, RunDelta;
  }
}
