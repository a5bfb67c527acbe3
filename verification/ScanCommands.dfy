/** SCAN and STATS as the daemon computes them (proc_scan.c, hsed_scan and hsed_scan_stats), and how they agree. */
module ScanCommands {
  import opened Words
  import opened ProcScan
  import opened ParallelScan

  // ---- Workers and merging, on the growable lists ----

  /** scan_worker_fn, from start to end. */
  method RunWorker(job: Job, load: Load) returns (w: Worker)
    ensures WorkerOk(job, w) && Finished(w) && w.load == load
  {
    var chunk := load.pids;
    w := Worker(load, |chunk|, [], Stats(0, 0), false, false);
    assert chunk[..|chunk|] == chunk && chunk[..0] == [];
    if job.useStats {
      var stats := CountPids(job, chunk);
      w := w.(stats := stats);
    } else {
      var list := new EntryList(load.budget);
      var ok := ListPids(job, chunk, list);
      w := if ok then w.(list := list.items[..list.count]) else w.(pos := 0, failed := true);
    }
  }

  method CountPids(job: Job, chunk: seq<int32>) returns (stats: Stats)
    ensures stats == StatsOf(ScanPids(job.snap, chunk, job.filter))
  {
    stats := Stats(0, 0);
    for i := 0 to |chunk|
      invariant stats == StatsOf(ScanPids(job.snap, chunk[..i], job.filter))
    {
      OnePidMore(job, chunk, i);
      StatsSplit(ScanPids(job.snap, chunk[..i], job.filter), ScanPid(job.snap, chunk[i], job.filter));
      stats := ScanOnePidStats(job.snap, stats, chunk[i], job.filter);
    }
    assert chunk[..|chunk|] == chunk;
  }

  method ListPids(job: Job, chunk: seq<int32>, list: EntryList) returns (ok: bool)
    requires list.Valid() && list.Contents() == []
    modifies list, list.items
    ensures list.Valid() && (list.items == old(list.items) || fresh(list.items))
    ensures ok <==> |ScanPids(job.snap, chunk, job.filter)| <= Most(list.budget)
    ensures ok ==> list.Contents() == ScanPids(job.snap, chunk, job.filter)
  {
    ok := true;
    for i := 0 to |chunk|
      invariant list.Valid() && (list.items == old(list.items) || fresh(list.items))
      invariant list.Contents() == ScanPids(job.snap, chunk[..i], job.filter)
    {
      OnePidMore(job, chunk, i);
      ok := ScanOnePid(job.snap, list, chunk[i], job.filter);
      if !ok { return; }
    }
    assert chunk[..|chunk|] == chunk;
  }

  /** Appends `items[..count]` of one list to another. */
  method Append(out: EntryList, items: seq<Entry>) returns (ok: bool)
    requires out.Valid()
    modifies out, out.items
    ensures out.Valid() && (out.items == old(out.items) || fresh(out.items))
    ensures ok <==> |old(out.Contents())| + |items| <= Most(out.budget)
    ensures ok ==> out.Contents() == old(out.Contents()) + items
  {
    ok := true;
    for j := 0 to |items|
      invariant out.Valid() && (out.items == old(out.items) || fresh(out.items))
      invariant out.Contents() == old(out.Contents()) + items[..j]
    {
      assert items[..j + 1] == items[..j] + [items[j]];
      ok := out.Push(items[j]);
      if !ok { return; }
    }
    assert items[..|items|] == items;
  }

  /** Hands out the chunks and runs each worker to its end. */
  method RunWorkers(job: Job, pids: seq<int32>, n: nat, budgets: nat -> nat) returns (ws: seq<Worker>)
    requires n > 0
    ensures WorkersOk(job, Loads(pids, n, budgets), ws)
    ensures forall i | 0 <= i < n :: Finished(ws[i])
  {
    var base, rem, offset := |pids| / n, |pids| % n, 0;
    ws := [];
    for i := 0 to n
      invariant |ws| == i && offset == Offset(|pids|, n, i)
      invariant forall k | 0 <= k < i :: WorkerOk(job, ws[k]) && Finished(ws[k])
      invariant forall k | 0 <= k < i :: ws[k].load == Load(Chunk(pids, n, k), budgets(k))
    {
      var size := base + if i < rem then 1 else 0;
      ChunkExtends(pids, n, i);
      var w := RunWorker(job, Load(pids[offset..offset + size], budgets(i)));
      ws := ws + [w];
      offset := offset + size;
    }
  }

  lemma {:induction false} ListsGrow(ws: seq<Worker>, i: nat)
    requires i <= |ws|
    ensures |Lists(ws[..i])| <= |Lists(ws)|
  {
    if i < |ws| {
      ListsGrow(ws[..|ws| - 1], i);
      assert ws[..|ws| - 1][..i] == ws[..i];
    } else {
      assert ws[..i] == ws;
    }
  }

  /** The merge after the joins: copies every worker's list, in worker order. */
  method MergeLists(job: Job, ws: seq<Worker>, out: EntryList) returns (ok: bool)
    requires out.Valid() && out.Contents() == []
    modifies out, out.items
    ensures out.Valid() && (out.items == old(out.items) || fresh(out.items))
    ensures ok <==> |Lists(ws)| <= Most(out.budget)
    ensures ok ==> out.Contents() == Lists(ws)
  {
    ok := true;
    for i := 0 to |ws|
      invariant out.Valid() && (out.items == old(out.items) || fresh(out.items))
      invariant out.Contents() == Lists(ws[..i])
    {
      assert ws[..i + 1][..i] == ws[..i];
      ListsGrow(ws, i + 1);
      ok := Append(out, ws[i].list);
      if !ok { return; }
    }
    assert ws[..|ws|] == ws;
  }

  method AnyFailed(ws: seq<Worker>) returns (failed: bool)
    ensures failed <==> exists w | w in ws :: w.failed
  {
    failed := false;
    for i := 0 to |ws|
      invariant failed <==> exists w | w in ws[..i] :: w.failed
    {
      assert ws[..i + 1] == ws[..i] + [ws[i]];
      if ws[i].failed { failed := true; }
    }
    assert ws[..|ws|] == ws;
  }

  method MergeStats(ws: seq<Worker>) returns (stats: Stats)
    ensures stats == SumStats(ws)
  {
    var count: nat, bytes: int := 0, 0;
    for i := 0 to |ws|
      invariant Stats(count, bytes) == SumStats(ws[..i])
    {
      assert ws[..i + 1][..i] == ws[..i];
      count, bytes := count + ws[i].stats.count, bytes + ws[i].stats.bytes;
    }
    assert ws[..|ws|] == ws;
    stats := Stats(count, bytes);
  }

  /** The loads for the threads that are picked. */
  function PickedLoads(pids: seq<int32>, requested: int, cpus: int, budgets: nat -> nat): seq<Load> {
    Loads(pids, PickThreadCount(requested, cpus, |pids|), budgets)
  }

  /** run_parallel_scan with every worker run by the calling thread; any other schedule merges to the same
      (AnyScheduleIsSequential). `callocOk` says that the arrays of workers and thread ids can be had. On success `out`
      or `stats` is the sequential result. */
  method RunParallelScan(job: Job, pids: seq<int32>, requested: int, cpus: int, callocOk: bool, budgets: nat -> nat,
                         out: EntryList)
    returns (ok: bool, stats: Stats)
    requires out.Valid() && out.Contents() == []
    modifies out, out.items
    ensures out.Valid() && (out.items == old(out.items) || fresh(out.items))
    ensures ok <==> callocOk && RoomForAll(job, PickedLoads(pids, requested, cpus, budgets), pids, out.budget)
    ensures ok && job.useStats ==> Counted(stats) == Sequential(job, pids)
    ensures ok && !job.useStats ==> Listed(out.Contents()) == Sequential(job, pids)
  {
    var n := PickThreadCount(requested, cpus, |pids|);
    ok, stats := true, Stats(0, 0);
    if !callocOk { return false, stats; }
    var ws := RunWorkers(job, pids, n, budgets);
    FinishedMerge(job, pids, budgets, ws, out.budget);
    var failed := AnyFailed(ws);
    if failed { return false, stats; }
    if job.useStats {
      stats := MergeStats(ws);
    } else {
      ok := MergeLists(job, ws, out);
    }
  }

  // ---- Sorting ----

  predicate BySizeDescending(es: seq<Entry>) {
    forall i, j | 0 <= i < j < |es| :: es[i].size >= es[j].size
  }

  predicate StepsDown(es: seq<Entry>) {
    |es| < 2 || (es[0].size >= es[1].size && StepsDown(es[1..]))
  }

  lemma {:induction false} StepsDownIsSorted(es: seq<Entry>)
    requires StepsDown(es)
    ensures BySizeDescending(es)
  {
    if |es| >= 2 {
      StepsDownIsSorted(es[1..]);
      forall i, j | 0 <= i < j < |es| ensures es[i].size >= es[j].size {
        if i > 0 {
          assert es[1..][i - 1].size >= es[1..][j - 1].size;
        } else if j > 1 {
          assert es[1..][0].size >= es[1..][j - 1].size;
        }
      }
    }
  }

  function InsertBySize(e: Entry, es: seq<Entry>): (r: seq<Entry>)
    requires StepsDown(es)
    ensures StepsDown(r) && |r| == |es| + 1
    ensures r[0] == e || (es != [] && r[0] == es[0])
  {
    if es == [] || e.size >= es[0].size then
      assert ([e] + es)[1..] == es;
      [e] + es
    else
      var rest := InsertBySize(e, es[1..]);
      assert ([es[0]] + rest)[1..] == rest;
      [es[0]] + rest
  }

  lemma {:induction false} InsertBySizeAdds(e: Entry, es: seq<Entry>)
    requires StepsDown(es)
    ensures multiset(InsertBySize(e, es)) == multiset{e} + multiset(es)
  {
    if es != [] && e.size < es[0].size {
      var rest := InsertBySize(e, es[1..]);
      InsertBySizeAdds(e, es[1..]);
      assert multiset([es[0]] + rest) == multiset{es[0]} + multiset(rest);
      assert multiset([es[0]] + es[1..]) == multiset{es[0]} + multiset(es[1..]);
      assert es == [es[0]] + es[1..] && InsertBySize(e, es) == [es[0]] + rest;
    }
  }

  /** Any sort by size will do; the library's order of equal sizes is unspecified. */
  function SortBySize(es: seq<Entry>): (r: seq<Entry>)
    ensures StepsDown(r) && |r| == |es|
  {
    if es == [] then [] else InsertBySize(es[0], SortBySize(es[1..]))
  }

  lemma {:induction false} SortBySizePermutes(es: seq<Entry>)
    ensures multiset(SortBySize(es)) == multiset(es)
  {
    if es != [] {
      SortBySizePermutes(es[1..]);
      InsertBySizeAdds(es[0], SortBySize(es[1..]));
      assert es == [es[0]] + es[1..];
    }
  }

  method SortInPlace(out: EntryList)
    requires out.Valid()
    modifies out.items
    ensures out.Valid() && BySizeDescending(out.Contents())
    ensures multiset(out.Contents()) == old(multiset(out.Contents()))
  {
    var sorted := SortBySize(out.items[..out.count]);
    SortBySizePermutes(out.items[..out.count]);
    StepsDownIsSorted(sorted);
    forall i | 0 <= i < out.count { out.items[i] := sorted[i]; }
    assert out.items[..out.count] == sorted;
  }

  // ---- The two commands ----

  /** The allocations of one command: the pids that could be gathered, the arrays of the threads, the workers' lists. */
  datatype Supply = Supply(pids: Option<seq<int32>>, callocOk: bool, budgets: nat -> nat)

  /** The pids a SCAN looks at. */
  function Asked(pids: Option<seq<int32>>, onlyPid: int32): seq<int32> {
    if onlyPid > 0 then [onlyPid] else if pids.Some? then pids.value else []
  }

  /** A SCAN succeeds: with one pid when its list has room, with all when nothing fails on the way. */
  predicate Scannable(snap: Snapshot, f: Filter, onlyPid: int32, requested: int, cpus: int, supply: Supply,
                      budget: nat) {
    if onlyPid > 0 then |ScanPids(snap, [onlyPid], f)| <= Most(budget)
    else
      && supply.pids.Some? && supply.callocOk
      && RoomForAll(Job(snap, f, false), PickedLoads(supply.pids.value, requested, cpus, supply.budgets),
                    supply.pids.value, budget)
  }

  /** hsed_scan: on success `out` holds what the filter keeps, largest first. */
  method Scan(snap: Snapshot, f: Filter, onlyPid: int32, requested: int, cpus: int, supply: Supply, out: EntryList)
    returns (ok: bool)
    requires out.Valid() && out.Contents() == []
    modifies out, out.items
    ensures out.Valid()
    ensures ok <==> Scannable(snap, f, onlyPid, requested, cpus, supply, out.budget)
    ensures ok ==> BySizeDescending(out.Contents())
    ensures ok ==> multiset(out.Contents()) == multiset(ScanPids(snap, Asked(supply.pids, onlyPid), f))
  {
    if onlyPid > 0 {
      assert [onlyPid][1..] == [] && ScanPids(snap, [onlyPid], f) == ScanPid(snap, onlyPid, f);
      ok := ScanOnePid(snap, out, onlyPid, f);
    } else {
      if supply.pids.None? { return false; }
      var stats: Stats;
      ok, stats := RunParallelScan(Job(snap, f, false), supply.pids.value, requested, cpus, supply.callocOk,
                                   supply.budgets, out);
    }
    if ok && out.count > 1 { SortInPlace(out); }
  }

  /** hsed_scan_stats. */
  method ScanStats(snap: Snapshot, f: Filter, requested: int, cpus: int, supply: Supply)
    returns (ok: bool, stats: Stats)
    ensures ok <==> supply.pids.Some? && supply.callocOk
    ensures ok ==> stats == StatsOf(ScanPids(snap, supply.pids.value, f))
  {
    if supply.pids.None? { return false, Stats(0, 0); }
    var unused := new EntryList(0);
    ok, stats := RunParallelScan(Job(snap, f, true), supply.pids.value, requested, cpus, supply.callocOk,
                                 supply.budgets, unused);
  }

  // ---- How they agree ----

  lemma SumAround(a: seq<Entry>, x: Entry, b: seq<Entry>)
    ensures SumSizes(a + ([x] + b)) == x.size + SumSizes(a + b)
  {
    SumSizesSplit(a, [x] + b);
    SumSizesSplit(a, b);
    assert ([x] + b)[1..] == b;
  }

  lemma AroundOne(es: seq<Entry>, i: nat)
    requires i < |es|
    ensures es == es[..i] + ([es[i]] + es[i + 1..])
    ensures multiset(es) == multiset{es[i]} + multiset(es[..i] + es[i + 1..])
  {
    assert es == es[..i] + ([es[i]] + es[i + 1..]);
  }

  lemma SumSizesRemove(es: seq<Entry>, i: nat)
    requires i < |es|
    ensures SumSizes(es) == es[i].size + SumSizes(es[..i] + es[i + 1..])
    ensures multiset(es) == multiset{es[i]} + multiset(es[..i] + es[i + 1..])
  {
    AroundOne(es, i);
    SumAround(es[..i], es[i], es[i + 1..]);
  }

  lemma FirstElsewhere(a: seq<Entry>, b: seq<Entry>) returns (i: nat)
    requires a != [] && multiset(a) == multiset(b)
    ensures i < |b| && b[i] == a[0] && multiset(a[1..]) == multiset(b[..i] + b[i + 1..])
  {
    assert a[0] in multiset(b);
    i :| 0 <= i < |b| && b[i] == a[0];
    AroundOne(b, i);
    assert a == [a[0]] + a[1..];
    assert multiset(a[1..]) == multiset(a) - multiset{a[0]};
  }

  lemma {:induction false} SumSizesOfPermutation(a: seq<Entry>, b: seq<Entry>)
    requires multiset(a) == multiset(b)
    ensures SumSizes(a) == SumSizes(b) && |a| == |b|
  {
    assert |a| == |multiset(a)| == |multiset(b)| == |b|;
    if a != [] {
      var i := FirstElsewhere(a, b);
      SumSizesRemove(b, i);
      SumSizesOfPermutation(a[1..], b[..i] + b[i + 1..]);
    }
  }

  /** STATS gives the number and the total size of the entries SCAN lists, in whatever order SCAN lists them;
      that total is also the one on SCAN's end line. */
  lemma StatsRefineScan(snap: Snapshot, pids: seq<int32>, f: Filter, listed: seq<Entry>)
    requires multiset(listed) == multiset(ScanPids(snap, pids, f))
    ensures StatsOf(ScanPids(snap, pids, f)) == Stats(|listed|, SumSizes(listed))
  {
    SumSizesOfPermutation(listed, ScanPids(snap, pids, f));
  }

  const NO_FILTER := Filter(-0x8000_0000_0000_0000, UID_ANY)

  lemma {:induction false} NoFilterKeepsAll(es: seq<Entry>)
    ensures Restrict(NO_FILTER, es) == es
  {
    if es != [] { NoFilterKeepsAll(es[1..]); }
  }

  /** Filtering while scanning, with the owner looked at first, is filtering the unfiltered scan. */
  lemma {:induction false} FilteredScan(snap: Snapshot, pids: seq<int32>, f: Filter)
    ensures ScanPids(snap, pids, f) == Restrict(f, ScanPids(snap, pids, NO_FILTER))
  {
    if pids != [] {
      FilteredScan(snap, pids[1..], f);
      NoFilterKeepsAll(AllOf(snap, pids[0]));
      RestrictSplits(f, ScanPid(snap, pids[0], NO_FILTER), ScanPids(snap, pids[1..], NO_FILTER));
    }
  }

  function OfPid(pid: int32, es: seq<Entry>): seq<Entry> {
    if es == [] then [] else (if es[0].pid == pid then [es[0]] else []) + OfPid(pid, es[1..])
  }

  lemma {:induction false} OfPidSplits(pid: int32, a: seq<Entry>, b: seq<Entry>)
    ensures OfPid(pid, a + b) == OfPid(pid, a) + OfPid(pid, b)
  {
    if a == [] {
      assert a + b == b;
    } else {
      assert (a + b)[0] == a[0] && (a + b)[1..] == a[1..] + b;
      OfPidSplits(pid, a[1..], b);
      Reassociate(if a[0].pid == pid then [a[0]] else [], OfPid(pid, a[1..]), OfPid(pid, b));
    }
  }

  lemma {:induction false} OfPidAllOrNothing(pid: int32, owner: int32, es: seq<Entry>)
    requires forall e | e in es :: e.pid == owner
    ensures OfPid(pid, es) == if owner == pid then es else []
  {
    if es != [] {
      assert es[0] in es;
      OfPidAllOrNothing(pid, owner, es[1..]);
    }
  }

  lemma OfPidInScan(snap: Snapshot, pid: int32, owner: int32, f: Filter)
    ensures OfPid(pid, ScanPid(snap, owner, f)) == if owner == pid then ScanPid(snap, pid, f) else []
  {
    if owner in snap && snap[owner].fds.Some? {
      HiddenFilesOwner(owner, snap[owner], snap[owner].fds.value);
    }
    OfPidAllOrNothing(pid, owner, ScanPid(snap, owner, f));
  }

  /** A scan of one pid is the full scan restricted to it, when the pid is listed once. */
  lemma {:induction false} OnePidScan(snap: Snapshot, pids: seq<int32>, pid: int32, f: Filter)
    requires multiset(pids)[pid] <= 1
    ensures OfPid(pid, ScanPids(snap, pids, f)) == if pid in pids then ScanPid(snap, pid, f) else []
  {
    if pids != [] {
      var rest := pids[1..];
      OfPidSplits(pid, ScanPid(snap, pids[0], f), ScanPids(snap, rest, f));
      OfPidInScan(snap, pid, pids[0], f);
      ListedOnce(pids, pid);
      OnePidScan(snap, rest, pid, f);
    }
  }

  lemma ListedOnce(pids: seq<int32>, pid: int32)
    requires pids != [] && multiset(pids)[pid] <= 1
    ensures multiset(pids[1..])[pid] <= 1
    ensures pid in pids <==> pid == pids[0] || pid in pids[1..]
    ensures pid == pids[0] ==> pid !in pids[1..]
  {
    assert pids == [pids[0]] + pids[1..];
  }
}
