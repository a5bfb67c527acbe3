/** SCAN from /proc to the client's list: the walk, the sort, the reply and the client's reading of it together. */
module ScanToClient {
  import opened Words
  import opened JsonString
  import opened ProcScan
  import opened ScanCommands
  import opened EntryWire
  import opened ScanWire

  // ---- Scanned entries fit the C struct ----

  /** What the kernel and the user database answer: texts without NULs, a command line of its buffer's size, and one of
      the modes of fd_mode. */
  predicate WellFormedLink(l: FdLink) {
    (l.target.Some? ==> IsCString(l.target.value)) && l.mode in ["?", "r", "w", "rw"]
  }

  predicate WellFormedProc(p: Proc) {
    && IsCString(p.comm) && IsCString(p.user) && IsCString(p.cmdline) && |p.cmdline| < HSED_CMDLINE_MAX
    && (p.fds.Some? ==> forall i | 0 <= i < |p.fds.value| :: WellFormedLink(p.fds.value[i]))
  }

  predicate WellFormed(snap: Snapshot) {
    forall pid | pid in snap :: WellFormedProc(snap[pid])
  }

  lemma TakeIsCString(s: string, n: nat)
    requires IsCString(s)
    ensures IsCString(Take(s, n)) && |Take(s, n)| <= n
  {
    forall c | c in Take(s, n) ensures c in s {}
  }

  lemma HiddenFileInStruct(pid: int32, p: Proc, l: FdLink)
    requires WellFormedProc(p) && WellFormedLink(l) && HiddenFile(pid, p, l).Some?
    ensures InStruct(HiddenFile(pid, p, l).value)
  {
    var comm := if p.comm == "" then "?" else p.comm;
    TakeIsCString(p.user, HSED_NAME_MAX - 1);
    TakeIsCString(comm, HSED_NAME_MAX - 1);
    PathIsCString(l.target.value);
  }

  lemma PathIsCString(target: string)
    requires IsCString(target) && DeletedPath(target).Some?
    ensures IsCString(DeletedPath(target).value) && |DeletedPath(target).value| < HSED_PATH_MAX
  {
    TakeIsCString(target, HSED_PATH_MAX - 1);
    var t := Take(target, HSED_PATH_MAX - 1);
    forall c | c in DeletedPath(target).value ensures c in t {}
  }

  lemma {:induction false} HiddenFilesInStruct(pid: int32, p: Proc, links: seq<FdLink>)
    requires WellFormedProc(p) && forall i | 0 <= i < |links| :: WellFormedLink(links[i])
    ensures forall e | e in HiddenFiles(pid, p, links) :: InStruct(e)
  {
    if links != [] {
      HiddenFilesInStruct(pid, p, links[1..]);
      if HiddenFile(pid, p, links[0]).Some? { HiddenFileInStruct(pid, p, links[0]); }
      assert HiddenFiles(pid, p, links) == HiddenAt(pid, p, links[0]) + HiddenFiles(pid, p, links[1..]);
    }
  }

  lemma {:induction false} ScannedInStruct(snap: Snapshot, pids: seq<int32>, f: Filter)
    requires WellFormed(snap)
    ensures forall e | e in ScanPids(snap, pids, f) :: InStruct(e)
  {
    if pids != [] {
      var pid := pids[0];
      ScannedInStruct(snap, pids[1..], f);
      if pid in snap && snap[pid].fds.Some? { HiddenFilesInStruct(pid, snap[pid], snap[pid].fds.value); }
      assert forall e | e in ScanPid(snap, pid, f) :: e in AllOf(snap, pid);
      assert ScanPids(snap, pids, f) == ScanPid(snap, pid, f) + ScanPids(snap, pids[1..], f);
    }
  }

  lemma ListedInStruct(snap: Snapshot, pids: seq<int32>, f: Filter, listed: seq<Entry>)
    requires WellFormed(snap) && multiset(listed) == multiset(ScanPids(snap, pids, f))
    ensures forall i | 0 <= i < |listed| :: InStruct(listed[i])
  {
    ScannedInStruct(snap, pids, f);
    forall i | 0 <= i < |listed| ensures InStruct(listed[i]) {
      assert listed[i] in multiset(listed);
      assert listed[i] in ScanPids(snap, pids, f);
    }
  }

  // ---- The command ----

  /** handle_scan with its scan: the list that was sorted goes out whole, or as a strict prefix of its reply. */
  method ServeScan(sock: Socket, snap: Snapshot, f: Filter, onlyPid: int32, requested: int, cpus: int, supply: Supply,
                   budget: nat)
    returns (scanned: bool, ok: bool, ghost listed: seq<Entry>, ghost sent: nat)
    requires WellFormed(snap)
    modifies sock
    ensures scanned <==> Scannable(snap, f, onlyPid, requested, cpus, supply, budget)
    ensures !scanned ==> sock.wire == old(sock.wire)
    ensures scanned ==> BySizeDescending(listed)
    ensures scanned ==> multiset(listed) == multiset(ScanPids(snap, Asked(supply.pids, onlyPid), f))
    ensures scanned ==> sent <= |ScanReply(listed)| && sock.wire == old(sock.wire) + ScanReply(listed)[..sent]
    ensures scanned ==> (ok <==> sent == |ScanReply(listed)|)
  {
    var list := new EntryList(budget);
    scanned := Scan(snap, f, onlyPid, requested, cpus, supply, list);
    ok, listed, sent := false, [], 0;
    if scanned {
      listed := list.Contents();
      ListedInStruct(snap, Asked(supply.pids, onlyPid), f, listed);
      ok, sent := HandleScan(sock, list.items[..list.count]);
    }
  }

  // ---- The client's list ----

  lemma AllReceivedWithout(es: seq<Entry>, i: nat)
    requires i < |es|
    ensures AllReceived(es[..i] + es[i + 1..]) == AllReceived(es)[..i] + AllReceived(es)[i + 1..]
  {
  }

  lemma WithoutOne(all: seq<HiddenEntry>, i: nat)
    requires i < |all|
    ensures multiset(all) == multiset{all[i]} + multiset(all[..i] + all[i + 1..])
  {
    assert all == all[..i] + ([all[i]] + all[i + 1..]);
  }

  lemma AllReceivedRemove(es: seq<Entry>, i: nat)
    requires i < |es|
    ensures multiset(AllReceived(es)) == multiset{AsReceived(es[i])} + multiset(AllReceived(es[..i] + es[i + 1..]))
  {
    AllReceivedWithout(es, i);
    WithoutOne(AllReceived(es), i);
  }

  lemma {:induction false} SameReceived(a: seq<Entry>, b: seq<Entry>)
    requires multiset(a) == multiset(b)
    ensures multiset(AllReceived(a)) == multiset(AllReceived(b))
  {
    if a == [] {
      assert |b| == |multiset(b)| == |multiset(a)| == 0;
    } else {
      var i := FirstElsewhere(a, b);
      AllReceivedRemove(a, 0);
      AllReceivedRemove(b, i);
      assert a[..0] + a[1..] == a[1..];
      SameReceived(a[1..], b[..i] + b[i + 1..]);
    }
  }

  /** The client's list, when Scan succeeds, is largest first, and as a multiset it is what the filter keeps of the
      unfiltered scan, each entry as received; its total is the sum of the sizes. */
  lemma ClientSeesScan(snap: Snapshot, pids: seq<int32>, f: Filter, listed: seq<Entry>, sent: nat)
    requires WellFormed(snap) && BySizeDescending(listed)
    requires multiset(listed) == multiset(ScanPids(snap, pids, f))
    requires InInt64(|listed|) && InInt64(SumSizes(listed)) && sent <= |ScanReply(listed)|
    ensures var r := ScanResultOf(ReadReply, ScanReply(listed)[..sent], []);
            && (r.Scanned? <==> AllFit(listed) && sent + 1 >= |ScanReply(listed)|)
            && (r.Scanned? ==>
                  && (forall i, j | 0 <= i < j < |r.entries| :: r.entries[i].size >= r.entries[j].size)
                  && multiset(r.entries) == multiset(AllReceived(Restrict(f, ScanPids(snap, pids, NO_FILTER))))
                  && r.total == SumSizes(Restrict(f, ScanPids(snap, pids, NO_FILTER))))
  {
    ListedInStruct(snap, pids, f, listed);
    ScanTransfer(listed, sent);
    FilteredScan(snap, pids, f);
    SameReceived(listed, ScanPids(snap, pids, f));
    SumSizesOfPermutation(listed, ScanPids(snap, pids, f));
  }
}
