/** The parallel walk (proc_scan.c): splitting the pids, workers under any schedule, merging, sorting. */
module ParallelScan {
  import opened Words
  import opened ProcScan

  const HSED_MAX_AUTO_SCAN_THREADS := 32

  /** At least one thread, no more than pids, and 32 at most when the count is chosen from the processors online. */
  function PickThreadCount(requested: int, cpus: int, npids: nat): (n: nat)
    ensures n >= 1 && n <= if npids == 0 then 1 else npids
    ensures requested <= 0 ==> n <= HSED_MAX_AUTO_SCAN_THREADS
    ensures 0 < requested <= npids ==> n == requested
    ensures 0 < npids <= requested ==> n == npids
    ensures requested <= 0 && 1 <= cpus <= HSED_MAX_AUTO_SCAN_THREADS && cpus <= npids ==> n == cpus
  {
    var n := if requested > 0 then requested
             else if cpus < 1 then 1
             else Min(cpus, HSED_MAX_AUTO_SCAN_THREADS);
    if npids == 0 then 1 else Min(n, npids)
  }

  // ---- Splitting ----

  function ChunkSize(npids: nat, n: nat, i: nat): nat
    requires n > 0
  {
    npids / n + if i < npids % n then 1 else 0
  }

  /** Where chunk `i` starts: the sizes of the chunks before it. */
  function Offset(npids: nat, n: nat, i: nat): nat
    requires n > 0
  {
    if i == 0 then 0 else Offset(npids, n, i - 1) + ChunkSize(npids, n, i - 1)
  }

  lemma {:induction false} OffsetValue(npids: nat, n: nat, i: nat)
    requires n > 0
    ensures Offset(npids, n, i) == i * (npids / n) + Min(i, npids % n)
  {
    if i > 0 {
      OffsetValue(npids, n, i - 1);
      assert i * (npids / n) == (i - 1) * (npids / n) + npids / n;
    }
  }

  lemma {:induction false} OffsetGrows(npids: nat, n: nat, i: nat, j: nat)
    requires n > 0 && i <= j
    ensures Offset(npids, n, i) <= Offset(npids, n, j)
  {
    if i < j { OffsetGrows(npids, n, i, j - 1); }
  }

  /** The chunks cover the pids exactly and differ by at most one in size. */
  lemma ChunksTile(npids: nat, n: nat)
    requires n > 0
    ensures Offset(npids, n, n) == npids
    ensures forall i, j | 0 <= i < n && 0 <= j < n :: ChunkSize(npids, n, i) <= ChunkSize(npids, n, j) + 1
  {
    OffsetValue(npids, n, n);
    assert n * (npids / n) + npids % n == npids;
  }

  function Chunk(pids: seq<int32>, n: nat, i: nat): (r: seq<int32>)
    requires i < n
    ensures |r| == ChunkSize(|pids|, n, i)
  {
    ChunksTile(|pids|, n);
    OffsetGrows(|pids|, n, i + 1, n);
    pids[Offset(|pids|, n, i)..Offset(|pids|, n, i + 1)]
  }

  // ---- Workers and their schedule ----

  datatype Job = Job(snap: Snapshot, filter: Filter, useStats: bool)

  /** What a worker is given: its pids, and how far its list can grow. As a worker stops at the first growth that fails,
      a limit for each list stands for any way in which allocations can fail. */
  datatype Load = Load(pids: seq<int32>, budget: nat)

  /** A worker's private state. `pos` counts the pids of its load it has finished. */
  datatype Worker = Worker(load: Load, pos: nat, list: seq<Entry>, stats: Stats, failed: bool, spawned: bool)

  /** Where the main thread is: creating worker `i`, running it inline because that failed, running worker 0,
      joining worker `i`, or past the joins. */
  datatype Main = Creating(i: nat) | Inline(i: nat) | Own | Joining(i: nat) | Joined

  datatype State = State(workers: seq<Worker>, main: Main)

  datatype Actor = MainThread | WorkerThread(i: nat)

  predicate Finished(w: Worker) {
    w.failed || w.pos >= |w.load.pids|
  }

  /** One pid of one worker. */
  function WorkerStep(job: Job, w: Worker): Worker
    requires !Finished(w)
  {
    var found := ScanPid(job.snap, w.load.pids[w.pos], job.filter);
    if job.useStats then w.(pos := w.pos + 1, stats := Plus(w.stats, StatsOf(found)))
    else if |w.list| + |found| > Most(w.load.budget) then w.(failed := true)
    else w.(pos := w.pos + 1, list := w.list + found)
  }

  function Step(job: Job, s: State, i: nat): State
    requires i < |s.workers| && !Finished(s.workers[i])
  {
    s.(workers := s.workers[i := WorkerStep(job, s.workers[i])])
  }

  /** `spawns` are the workers whose pthread_create succeeds. An actor that cannot move leaves the state alone. */
  function Next(job: Job, spawns: set<nat>, s: State, a: Actor): (t: State)
    requires |s.workers| > 0
    ensures |t.workers| == |s.workers|
  {
    var n := |s.workers|;
    match a
    case WorkerThread(i) =>
      if i < n && s.workers[i].spawned && !Finished(s.workers[i]) then Step(job, s, i) else s
    case MainThread =>
      match s.main
      case Creating(i) =>
        if i >= n then s.(main := Own)
        else if i in spawns then
          State(s.workers[i := s.workers[i].(spawned := true)], Creating(i + 1))
        else s.(main := Inline(i))
      case Inline(i) =>
        if i >= n || Finished(s.workers[i]) then s.(main := Creating(i + 1)) else Step(job, s, i)
      case Own =>
        if Finished(s.workers[0]) then s.(main := Joining(1)) else Step(job, s, 0)
      case Joining(i) =>
        if i >= n then s.(main := Joined)
        else if !s.workers[i].spawned || Finished(s.workers[i]) then s.(main := Joining(i + 1))
        else s
      case Joined => s
  }

  function Init(loads: seq<Load>): (s: State)
    ensures |s.workers| == |loads|
  {
    State(seq(|loads|, i requires 0 <= i < |loads| => Worker(loads[i], 0, [], Stats(0, 0), false, false)), Creating(1))
  }

  function Execute(job: Job, spawns: set<nat>, s: State, schedule: seq<Actor>): (r: State)
    requires |s.workers| > 0
    ensures |r.workers| == |s.workers|
    decreases |schedule|
  {
    if schedule == [] then s else Execute(job, spawns, Next(job, spawns, s, schedule[0]), schedule[1..])
  }

  // ---- What every reachable state keeps ----

  /** A worker has done exactly the first `pos` of its pids; a failed one met a pid it had no room for. */
  ghost predicate WorkerOk(job: Job, w: Worker) {
    && w.pos <= |w.load.pids|
    && (job.useStats ==> !w.failed && w.stats == StatsOf(ScanPids(job.snap, w.load.pids[..w.pos], job.filter)))
    && (!job.useStats ==> w.list == ScanPids(job.snap, w.load.pids[..w.pos], job.filter))
    && (!job.useStats ==> |w.list| <= Most(w.load.budget))
    && (!job.useStats && w.failed ==> |ScanPids(job.snap, w.load.pids, job.filter)| > Most(w.load.budget))
  }

  /** Workers the main thread has passed are spawned or finished; those it has not reached are untouched by it. */
  ghost predicate MainOk(s: State) {
    var n := |s.workers|;
    match s.main
    case Creating(i) => 1 <= i && (forall k | 1 <= k < n && k < i :: Settled(s.workers[k]))
    case Inline(i) => 1 <= i < n && (forall k | 1 <= k < i :: Settled(s.workers[k]))
    case Own => forall k | 1 <= k < n :: Settled(s.workers[k])
    case Joining(i) =>
      1 <= i && (forall k | 1 <= k < n :: Settled(s.workers[k]))
      && (forall k | 0 <= k < n && k < i :: Finished(s.workers[k]))
    case Joined => forall k | 0 <= k < n :: Finished(s.workers[k])
  }

  predicate Settled(w: Worker) {
    w.spawned || Finished(w)
  }

  /** The workers, on the loads they were given. */
  ghost predicate WorkersOk(job: Job, loads: seq<Load>, ws: seq<Worker>) {
    |ws| == |loads| && forall k | 0 <= k < |ws| :: WorkerOk(job, ws[k]) && ws[k].load == loads[k]
  }

  ghost predicate Inv(job: Job, loads: seq<Load>, s: State) {
    s.workers != [] && WorkersOk(job, loads, s.workers) && MainOk(s)
  }

  /** One more pid adds what is found there, and the whole chunk holds at least that. */
  lemma OnePidMore(job: Job, chunk: seq<int32>, pos: nat)
    requires pos < |chunk|
    ensures ScanPids(job.snap, chunk[..pos + 1], job.filter)
         == ScanPids(job.snap, chunk[..pos], job.filter) + ScanPid(job.snap, chunk[pos], job.filter)
    ensures |ScanPids(job.snap, chunk[..pos + 1], job.filter)| <= |ScanPids(job.snap, chunk, job.filter)|
  {
    var pid := chunk[pos];
    assert chunk[..pos + 1] == chunk[..pos] + [pid] && [pid][1..] == [];
    assert ScanPids(job.snap, [pid], job.filter) == ScanPid(job.snap, pid, job.filter);
    ScanPidsSplit(job.snap, chunk[..pos], [pid], job.filter);
    assert chunk == chunk[..pos + 1] + chunk[pos + 1..];
    ScanPidsSplit(job.snap, chunk[..pos + 1], chunk[pos + 1..], job.filter);
  }

  lemma WorkerStepOk(job: Job, w: Worker)
    requires WorkerOk(job, w) && !Finished(w)
    ensures WorkerOk(job, WorkerStep(job, w)) && WorkerStep(job, w).load == w.load
    ensures WorkerStep(job, w).spawned == w.spawned
  {
    OnePidMore(job, w.load.pids, w.pos);
    StatsSplit(ScanPids(job.snap, w.load.pids[..w.pos], job.filter), ScanPid(job.snap, w.load.pids[w.pos], job.filter));
  }

  lemma WorkerReplaced(job: Job, loads: seq<Load>, ws: seq<Worker>, i: nat, w: Worker)
    requires WorkersOk(job, loads, ws) && i < |ws| && WorkerOk(job, w) && w.load == loads[i]
    ensures WorkersOk(job, loads, ws[i := w])
  {
    var ws' := ws[i := w];
    forall k | 0 <= k < |ws'| ensures WorkerOk(job, ws'[k]) && ws'[k].load == loads[k] {
      assert WorkerOk(job, ws[k]);
    }
  }

  /** The main thread waits for no worker that still has work and was not spawned. */
  lemma MainStaysOk(s: State, i: nat, w: Worker)
    requires MainOk(s) && i < |s.workers| && !Finished(s.workers[i]) && w.spawned == s.workers[i].spawned
    ensures MainOk(s.(workers := s.workers[i := w]))
  {
  }

  lemma StepKeepsInv(job: Job, loads: seq<Load>, s: State, i: nat)
    requires Inv(job, loads, s) && i < |s.workers| && !Finished(s.workers[i])
    ensures Inv(job, loads, Step(job, s, i))
  {
    var w := s.workers[i];
    assert WorkerOk(job, w);
    WorkerStepOk(job, w);
    WorkerReplaced(job, loads, s.workers, i, WorkerStep(job, w));
    MainStaysOk(s, i, WorkerStep(job, w));
  }

  lemma SpawnKeepsInv(job: Job, loads: seq<Load>, s: State, i: nat)
    requires Inv(job, loads, s) && s.main == Creating(i) && i < |s.workers|
    ensures Inv(job, loads, State(s.workers[i := s.workers[i].(spawned := true)], Creating(i + 1)))
  {
    assert WorkerOk(job, s.workers[i]);
    WorkerReplaced(job, loads, s.workers, i, s.workers[i].(spawned := true));
  }

  /** Where the main thread goes next when no worker moves. */
  lemma MainMovesOn(job: Job, spawns: set<nat>, s: State)
    requires MainOk(s) && s.workers != []
    requires s.main.Creating? && s.main.i < |s.workers| ==> s.main.i !in spawns
    requires s.main.Inline? ==> Finished(s.workers[s.main.i])
    requires s.main.Own? ==> Finished(s.workers[0])
    ensures var t := Next(job, spawns, s, MainThread); t.workers == s.workers && MainOk(t)
  {
  }

  lemma MainKeepsInv(job: Job, spawns: set<nat>, loads: seq<Load>, s: State)
    requires Inv(job, loads, s)
    ensures Inv(job, loads, Next(job, spawns, s, MainThread))
  {
    if s.main.Inline? && !Finished(s.workers[s.main.i]) {
      StepKeepsInv(job, loads, s, s.main.i);
    } else if s.main.Own? && !Finished(s.workers[0]) {
      StepKeepsInv(job, loads, s, 0);
    } else if s.main.Creating? && s.main.i < |s.workers| && s.main.i in spawns {
      SpawnKeepsInv(job, loads, s, s.main.i);
    } else {
      MainMovesOn(job, spawns, s);
    }
  }

  lemma NextKeepsInv(job: Job, spawns: set<nat>, loads: seq<Load>, s: State, a: Actor)
    requires Inv(job, loads, s)
    ensures Inv(job, loads, Next(job, spawns, s, a))
  {
    if a.MainThread? {
      MainKeepsInv(job, spawns, loads, s);
    } else if a.i < |s.workers| && s.workers[a.i].spawned && !Finished(s.workers[a.i]) {
      StepKeepsInv(job, loads, s, a.i);
    }
  }

  lemma {:induction false} ExecuteKeepsInv(job: Job, spawns: set<nat>, loads: seq<Load>, s: State,
                                           schedule: seq<Actor>)
    requires Inv(job, loads, s)
    ensures Inv(job, loads, Execute(job, spawns, s, schedule))
    decreases |schedule|
  {
    if schedule != [] {
      NextKeepsInv(job, spawns, loads, s, schedule[0]);
      ExecuteKeepsInv(job, spawns, loads, Next(job, spawns, s, schedule[0]), schedule[1..]);
    }
  }

  // ---- Merging ----

  datatype Outcome = Failed | Listed(list: seq<Entry>) | Counted(stats: Stats)

  function Lists(ws: seq<Worker>): seq<Entry> {
    if ws == [] then [] else Lists(ws[..|ws| - 1]) + ws[|ws| - 1].list
  }

  function SumStats(ws: seq<Worker>): Stats {
    if ws == [] then Stats(0, 0) else Plus(SumStats(ws[..|ws| - 1]), ws[|ws| - 1].stats)
  }

  /** What the main thread makes of the joined workers; `budget` is how far the merged list can grow. */
  function Merge(job: Job, ws: seq<Worker>, budget: nat): Outcome {
    if exists w | w in ws :: w.failed then Failed
    else if job.useStats then Counted(SumStats(ws))
    else if |Lists(ws)| > Most(budget) then Failed
    else Listed(Lists(ws))
  }

  /** The same by one thread in pid order. */
  function Sequential(job: Job, pids: seq<int32>): (o: Outcome)
    ensures !o.Failed?
  {
    var found := ScanPids(job.snap, pids, job.filter);
    if job.useStats then Counted(StatsOf(found)) else Listed(found)
  }

  /** Each worker can hold what its pids give, and the merged list what all give. Counting needs no room. */
  predicate RoomForAll(job: Job, loads: seq<Load>, pids: seq<int32>, budget: nat) {
    job.useStats ||
    (&& (forall k | 0 <= k < |loads| :: |ScanPids(job.snap, loads[k].pids, job.filter)| <= Most(loads[k].budget))
     && |ScanPids(job.snap, pids, job.filter)| <= Most(budget))
  }

  lemma ChunkExtends(pids: seq<int32>, n: nat, k: nat)
    requires k < n
    ensures Offset(|pids|, n, k) <= Offset(|pids|, n, k + 1) <= |pids|
    ensures pids[..Offset(|pids|, n, k + 1)] == pids[..Offset(|pids|, n, k)] + Chunk(pids, n, k)
  {
    ChunksTile(|pids|, n);
    OffsetGrows(|pids|, n, k, k + 1);
    OffsetGrows(|pids|, n, k + 1, n);
  }

  /** The merged lists, or counters, are those of a scan of `pids`. */
  ghost predicate MergesTo(job: Job, ws: seq<Worker>, pids: seq<int32>) {
    var found := ScanPids(job.snap, pids, job.filter);
    if job.useStats then SumStats(ws) == StatsOf(found) else Lists(ws) == found
  }

  lemma OneMoreWorker(job: Job, ws: seq<Worker>, w: Worker, pids: seq<int32>)
    requires MergesTo(job, ws, pids) && WorkerOk(job, w) && w.pos == |w.load.pids| && !w.failed
    ensures MergesTo(job, ws + [w], pids + w.load.pids)
  {
    assert (ws + [w])[..|ws|] == ws && w.load.pids[..w.pos] == w.load.pids;
    ScanPidsSplit(job.snap, pids, w.load.pids, job.filter);
    StatsSplit(ScanPids(job.snap, pids, job.filter), ScanPids(job.snap, w.load.pids, job.filter));
  }

  function Concat(chunks: seq<seq<int32>>): seq<int32> {
    if chunks == [] then [] else Concat(chunks[..|chunks| - 1]) + chunks[|chunks| - 1]
  }

  lemma {:induction false} MergedSoFar(job: Job, ws: seq<Worker>)
    requires forall i | 0 <= i < |ws| :: WorkerOk(job, ws[i]) && !ws[i].failed && Finished(ws[i])
    ensures MergesTo(job, ws, Concat(ChunksOf(ws)))
  {
    if ws != [] {
      var n := |ws| - 1;
      MergedSoFar(job, ws[..n]);
      assert ChunksOf(ws)[..n] == ChunksOf(ws[..n]);
      OneMoreWorker(job, ws[..n], ws[n], Concat(ChunksOf(ws[..n])));
      assert ws[..n] + [ws[n]] == ws;
    }
  }

  function ChunksOf(ws: seq<Worker>): (chunks: seq<seq<int32>>)
    ensures |chunks| == |ws|
  {
    seq(|ws|, i requires 0 <= i < |ws| => ws[i].load.pids)
  }

  function Chunks(pids: seq<int32>, n: nat): (chunks: seq<seq<int32>>)
    ensures |chunks| == n
  {
    seq(n, k requires 0 <= k < n => Chunk(pids, n, k))
  }

  /** The loads of `n` threads, with any limits on their lists. */
  function Loads(pids: seq<int32>, n: nat, budgets: nat -> nat): (loads: seq<Load>)
    ensures |loads| == n
  {
    seq(n, k requires 0 <= k < n => Load(Chunk(pids, n, k), budgets(k)))
  }

  lemma {:induction false} ChunksSoFar(pids: seq<int32>, n: nat, k: nat)
    requires k <= n && n > 0
    ensures Offset(|pids|, n, k) <= |pids| && Concat(Chunks(pids, n)[..k]) == pids[..Offset(|pids|, n, k)]
  {
    if k > 0 {
      ChunksSoFar(pids, n, k - 1);
      ChunkExtends(pids, n, k - 1);
      assert Chunks(pids, n)[..k][..k - 1] == Chunks(pids, n)[..k - 1];
    }
  }

  /** The chunks in order are the pids. */
  lemma ChunksAreThePids(pids: seq<int32>, n: nat)
    requires n > 0
    ensures Concat(Chunks(pids, n)) == pids
  {
    ChunksSoFar(pids, n, n);
    ChunksTile(|pids|, n);
    assert Chunks(pids, n)[..n] == Chunks(pids, n) && pids[..|pids|] == pids;
  }

  lemma FailedHadNoRoom(job: Job, loads: seq<Load>, ws: seq<Worker>, pids: seq<int32>, budget: nat, i: nat)
    requires WorkersOk(job, loads, ws) && i < |ws| && ws[i].failed
    ensures !RoomForAll(job, loads, pids, budget)
  {
    assert WorkerOk(job, ws[i]) && ws[i].load == loads[i];
  }

  lemma UnfailedHadRoom(job: Job, loads: seq<Load>, ws: seq<Worker>)
    requires WorkersOk(job, loads, ws) && !job.useStats
    requires forall i | 0 <= i < |ws| :: !ws[i].failed && Finished(ws[i])
    ensures forall k | 0 <= k < |loads| :: |ScanPids(job.snap, loads[k].pids, job.filter)| <= Most(loads[k].budget)
  {
    forall k | 0 <= k < |loads|
      ensures |ScanPids(job.snap, loads[k].pids, job.filter)| <= Most(loads[k].budget) {
      var w := ws[k];
      assert WorkerOk(job, w) && w.load.pids[..w.pos] == w.load.pids;
    }
  }

  /** Finished workers merge to the sequential result, whoever ran them, or fail: exactly when some list had no room. */
  lemma FinishedMerge(job: Job, pids: seq<int32>, budgets: nat -> nat, ws: seq<Worker>, budget: nat)
    requires |ws| > 0 && WorkersOk(job, Loads(pids, |ws|, budgets), ws)
    requires forall i | 0 <= i < |ws| :: Finished(ws[i])
    ensures Merge(job, ws, budget)
         == if RoomForAll(job, Loads(pids, |ws|, budgets), pids, budget) then Sequential(job, pids) else Failed
  {
    var loads := Loads(pids, |ws|, budgets);
    if w :| w in ws && w.failed {
      var i :| 0 <= i < |ws| && ws[i] == w;
      FailedHadNoRoom(job, loads, ws, pids, budget, i);
    } else {
      forall i | 0 <= i < |ws| ensures !ws[i].failed { assert ws[i] in ws; }
      MergedSoFar(job, ws);
      assert ChunksOf(ws) == Chunks(pids, |ws|);
      ChunksAreThePids(pids, |ws|);
      if !job.useStats { UnfailedHadRoom(job, loads, ws); }
    }
  }

  lemma InitInv(job: Job, loads: seq<Load>)
    requires loads != []
    ensures Inv(job, loads, Init(loads))
  {
    forall k | 0 <= k < |loads| ensures WorkerOk(job, Init(loads).workers[k]) {
      assert loads[k].pids[..0] == [];
    }
  }

  /** For every number of threads, every choice of failed pthread_create calls, all allocations that fail, and every
      schedule that gets past the joins, the merged result is the sequential one, or a failure: exactly when some list
      had no room. */
  lemma AnyScheduleIsSequential(job: Job, spawns: set<nat>, pids: seq<int32>, n: nat, budgets: nat -> nat, budget: nat,
                                schedule: seq<Actor>)
    requires n > 0
    requires Execute(job, spawns, Init(Loads(pids, n, budgets)), schedule).main.Joined?
    ensures var loads := Loads(pids, n, budgets);
            Merge(job, Execute(job, spawns, Init(loads), schedule).workers, budget)
            == if RoomForAll(job, loads, pids, budget) then Sequential(job, pids) else Failed
  {
    var loads := Loads(pids, n, budgets);
    InitInv(job, loads);
    ExecuteKeepsInv(job, spawns, loads, Init(loads), schedule);
    FinishedMerge(job, pids, budgets, Execute(job, spawns, Init(loads), schedule).workers, budget);
  }

  // ---- Every schedule gets there ----

  function Left(w: Worker): nat {
    if Finished(w) then 0 else |w.load.pids| - w.pos
  }

  function LeftOver(ws: seq<Worker>): nat {
    if ws == [] then 0 else Left(ws[0]) + LeftOver(ws[1..])
  }

  function MainLeft(n: nat, main: Main): nat {
    match main
    case Creating(i) => n + 3 + if i < n then 2 * (n - i) else 0
    case Inline(i) => n + 2 + if i < n then 2 * (n - i) else 0
    case Own => n + 2
    case Joining(i) => 1 + if i < n then n - i else 0
    case Joined => 0
  }

  /** Bounds the steps still to come. */
  function WorkLeft(s: State): nat {
    LeftOver(s.workers) + MainLeft(|s.workers|, s.main)
  }

  lemma {:induction false} LeftOverUpdate(ws: seq<Worker>, i: nat, w: Worker)
    requires i < |ws|
    ensures LeftOver(ws[i := w]) == LeftOver(ws) - Left(ws[i]) + Left(w)
  {
    if i == 0 {
      assert ws[0 := w][1..] == ws[1..];
    } else {
      assert ws[i := w][1..] == ws[1..][i - 1 := w];
      LeftOverUpdate(ws[1..], i - 1, w);
    }
  }

  lemma StepDoesWork(job: Job, s: State, i: nat)
    requires i < |s.workers| && !Finished(s.workers[i])
    ensures WorkLeft(Step(job, s, i)) < WorkLeft(s)
  {
    LeftOverUpdate(s.workers, i, WorkerStep(job, s.workers[i]));
  }

  lemma SpawningDoesWork(s: State, i: nat)
    requires s.main == Creating(i) && i < |s.workers|
    ensures WorkLeft(State(s.workers[i := s.workers[i].(spawned := true)], Creating(i + 1))) < WorkLeft(s)
  {
    LeftOverUpdate(s.workers, i, s.workers[i].(spawned := true));
  }

  lemma MainDoesWork(job: Job, spawns: set<nat>, loads: seq<Load>, s: State)
    requires Inv(job, loads, s)
    ensures var t := Next(job, spawns, s, MainThread); t != s ==> WorkLeft(t) < WorkLeft(s)
  {
    match s.main
    case Inline(i) => if !Finished(s.workers[i]) { StepDoesWork(job, s, i); }
    case Own => if !Finished(s.workers[0]) { StepDoesWork(job, s, 0); }
    case Creating(i) => if i < |s.workers| { SpawningDoesWork(s, i); }
    case _ =>
  }

  /** Whatever moves does work, and until the joins are over something can move. */
  lemma ProgressIsMade(job: Job, spawns: set<nat>, loads: seq<Load>, s: State, a: Actor)
    requires Inv(job, loads, s)
    ensures Next(job, spawns, s, a) != s ==> WorkLeft(Next(job, spawns, s, a)) < WorkLeft(s)
    ensures !s.main.Joined? ==> exists b :: Next(job, spawns, s, b) != s
  {
    if a.MainThread? {
      MainDoesWork(job, spawns, loads, s);
    } else if a.i < |s.workers| && !Finished(s.workers[a.i]) {
      StepDoesWork(job, s, a.i);
    }
    if !s.main.Joined? { SomethingMoves(job, spawns, loads, s); }
  }

  lemma SomethingMoves(job: Job, spawns: set<nat>, loads: seq<Load>, s: State)
    requires Inv(job, loads, s) && !s.main.Joined?
    ensures exists b :: Next(job, spawns, s, b) != s
  {
    if s.main.Joining? && s.main.i < |s.workers| && s.workers[s.main.i].spawned && !Finished(s.workers[s.main.i]) {
      var i := s.main.i;
      StepDoesWork(job, s, i);
      assert Next(job, spawns, s, WorkerThread(i)) != s;
    } else {
      if s.main.Inline? && !Finished(s.workers[s.main.i]) { StepDoesWork(job, s, s.main.i); }
      if s.main.Own? && !Finished(s.workers[0]) { StepDoesWork(job, s, 0); }
      assert Next(job, spawns, s, MainThread) != s;
    }
  }

  /** Steps of the schedule that changed something. */
  function Moves(job: Job, spawns: set<nat>, s: State, schedule: seq<Actor>): nat
    requires |s.workers| > 0
    decreases |schedule|
  {
    if schedule == [] then 0
    else
      var s' := Next(job, spawns, s, schedule[0]);
      (if s' != s then 1 else 0) + Moves(job, spawns, s', schedule[1..])
  }

  /** No schedule moves for ever: with its moves the work left runs out, and then the joins are over. */
  lemma {:induction false} MovesAreBounded(job: Job, spawns: set<nat>, loads: seq<Load>, s: State,
                                           schedule: seq<Actor>)
    requires Inv(job, loads, s)
    ensures Moves(job, spawns, s, schedule) + WorkLeft(Execute(job, spawns, s, schedule)) <= WorkLeft(s)
    decreases |schedule|
  {
    if schedule != [] {
      ProgressIsMade(job, spawns, loads, s, schedule[0]);
      NextKeepsInv(job, spawns, loads, s, schedule[0]);
      MovesAreBounded(job, spawns, loads, Next(job, spawns, s, schedule[0]), schedule[1..]);
    }
  }
}
