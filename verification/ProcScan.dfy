/** Finding deleted files that are still open (proc_scan.c), over a frozen picture of /proc. */
module ProcScan {
  import Decimal
  import opened Words

  const UID_ANY: uint32 := 0xFFFF_FFFF
  const HSED_PATH_MAX := 4096
  const HSED_NAME_MAX := 256
  const DELETED_SUFFIX := " (deleted)"

  datatype Entry = Entry(pid: int32, fd: int32, mode: string, size: int64, uid: uint32, user: string, comm: string,
                         cmdline: string, path: string, inode: uint64, devMajor: uint32, devMinor: uint32,
                         mtime: int64)

  datatype FileStat = FileStat(size: int64, inode: uint64, devMajor: uint32, devMinor: uint32, mtime: int64)

  /** One name under /proc/<pid>/fd: what its link says, what stat says of it, and the access mode of the fd. */
  datatype FdLink = FdLink(name: string, target: Option<string>, stat: Option<FileStat>, mode: string)

  /** What /proc says of a process; `fds` is None when its fd directory cannot be opened. */
  datatype Proc = Proc(uid: uint32, fds: Option<seq<FdLink>>, comm: string, cmdline: string, user: string)

  /** Processes that can be looked at; any other pid has gone. */
  type Snapshot = map<int32, Proc>

  datatype Filter = Filter(minSize: int64, uid: uint32)

  // ---- One process ----

  predicate IsVirtualTarget(path: string) {
    || "pipe:" <= path
    || "socket:" <= path
    || "anon_inode:" <= path
    || "/memfd:" <= path
    || path == "/dev/zero"
  }

  /** The former path of a deleted file, if the link says so and the file is a real one. */
  function DeletedPath(target: string): Option<string> {
    var t := Take(target, HSED_PATH_MAX - 1);
    var n := |t| - |DELETED_SUFFIX|;
    if n < 0 || t[n..] != DELETED_SUFFIX || IsVirtualTarget(t[..n]) then None else Some(t[..n])
  }

  /** What readlink returns of a link is one of a deleted file exactly when it is that file's path with the kernel's
      mark behind it, and the path is a real one; the path is found again. A link of more bytes than fit is cut, and
      then overlooked unless the cut leaves a mark at the end. */
  lemma DeletedPathFound(target: string, path: string)
    ensures DeletedPath(target) == Some(path) <==>
            Take(target, HSED_PATH_MAX - 1) == path + DELETED_SUFFIX && !IsVirtualTarget(path)
  {
    var t := Take(target, HSED_PATH_MAX - 1);
    var n := |t| - |DELETED_SUFFIX|;
    if n >= 0 && t[n..] == DELETED_SUFFIX {
      assert t == t[..n] + DELETED_SUFFIX;
    }
    if t == path + DELETED_SUFFIX {
      assert n == |path| && t[..n] == path && t[n..] == DELETED_SUFFIX;
    }
  }

  /** The entry this link stands for when no filter is applied. */
  function HiddenFile(pid: int32, p: Proc, l: FdLink): (r: Option<Entry>)
    ensures r.Some? ==> r.value.pid == pid && r.value.uid == p.uid
  {
    if !Decimal.AllDigits(l.name) || l.target.None? then None
    else
      var path := DeletedPath(l.target.value);
      if path.None? || l.stat.None? then None
      else
        var st := l.stat.value;
        Some(Entry(pid, ToInt32(Decimal.DecimalValue(l.name)), l.mode, st.size, p.uid, Take(p.user, HSED_NAME_MAX - 1),
                   Take(if p.comm == "" then "?" else p.comm, HSED_NAME_MAX - 1), p.cmdline, path.value,
                   st.inode, st.devMajor, st.devMinor, st.mtime))
  }

  function HiddenAt(pid: int32, p: Proc, l: FdLink): seq<Entry> {
    var e := HiddenFile(pid, p, l);
    if e.Some? then [e.value] else []
  }

  function HiddenFiles(pid: int32, p: Proc, links: seq<FdLink>): seq<Entry> {
    if links == [] then [] else HiddenAt(pid, p, links[0]) + HiddenFiles(pid, p, links[1..])
  }

  lemma {:induction false} HiddenFilesOwner(pid: int32, p: Proc, links: seq<FdLink>)
    ensures forall e | e in HiddenFiles(pid, p, links) :: e.pid == pid && e.uid == p.uid
  {
    if links != [] { HiddenFilesOwner(pid, p, links[1..]); }
  }

  /** Every hidden file of the process, whatever its size or owner. */
  function AllOf(snap: Snapshot, pid: int32): seq<Entry> {
    if pid !in snap || snap[pid].fds.None? then [] else HiddenFiles(pid, snap[pid], snap[pid].fds.value)
  }

  predicate Keeps(f: Filter, e: Entry) {
    e.size >= f.minSize && (f.uid == UID_ANY || e.uid == f.uid)
  }

  function Restrict(f: Filter, es: seq<Entry>): (r: seq<Entry>)
    ensures forall e | e in r :: e in es && Keeps(f, e)
  {
    if es == [] then [] else (if Keeps(f, es[0]) then [es[0]] else []) + Restrict(f, es[1..])
  }

  /** What a scan of one process must find. */
  function ScanPid(snap: Snapshot, pid: int32, f: Filter): seq<Entry> {
    Restrict(f, AllOf(snap, pid))
  }

  function ScanPids(snap: Snapshot, pids: seq<int32>, f: Filter): seq<Entry> {
    if pids == [] then [] else ScanPid(snap, pids[0], f) + ScanPids(snap, pids[1..], f)
  }

  datatype Stats = Stats(count: nat, bytes: int)

  function SumSizes(es: seq<Entry>): int {
    if es == [] then 0 else es[0].size + SumSizes(es[1..])
  }

  function StatsOf(es: seq<Entry>): Stats {
    Stats(|es|, SumSizes(es))
  }

  function Plus(a: Stats, b: Stats): Stats {
    Stats(a.count + b.count, a.bytes + b.bytes)
  }

  lemma {:induction false} RestrictSplits(f: Filter, a: seq<Entry>, b: seq<Entry>)
    ensures Restrict(f, a + b) == Restrict(f, a) + Restrict(f, b)
  {
    if a == [] {
      assert a + b == b;
    } else {
      assert (a + b)[0] == a[0] && (a + b)[1..] == a[1..] + b;
      RestrictSplits(f, a[1..], b);
      Reassociate(if Keeps(f, a[0]) then [a[0]] else [], Restrict(f, a[1..]), Restrict(f, b));
    }
  }

  lemma {:induction false} SumSizesSplit(a: seq<Entry>, b: seq<Entry>)
    ensures SumSizes(a + b) == SumSizes(a) + SumSizes(b)
  {
    if a == [] {
      assert a + b == b;
    } else {
      assert (a + b)[0] == a[0] && (a + b)[1..] == a[1..] + b;
      SumSizesSplit(a[1..], b);
    }
  }

  lemma SumOfStats(a: Stats, b: Stats, c: Stats)
    requires c.count == a.count + b.count && c.bytes == a.bytes + b.bytes
    ensures c == Plus(a, b)
  {
  }

  lemma StatsSplit(a: seq<Entry>, b: seq<Entry>)
    ensures StatsOf(a + b) == Plus(StatsOf(a), StatsOf(b))
  {
    SumSizesSplit(a, b);
    SumOfStats(StatsOf(a), StatsOf(b), StatsOf(a + b));
  }

  lemma {:induction false} HiddenFilesSplit(pid: int32, p: Proc, a: seq<FdLink>, b: seq<FdLink>)
    ensures HiddenFiles(pid, p, a + b) == HiddenFiles(pid, p, a) + HiddenFiles(pid, p, b)
  {
    if a == [] {
      assert a + b == b;
    } else {
      assert (a + b)[0] == a[0] && (a + b)[1..] == a[1..] + b;
      HiddenFilesSplit(pid, p, a[1..], b);
      Reassociate(HiddenAt(pid, p, a[0]), HiddenFiles(pid, p, a[1..]), HiddenFiles(pid, p, b));
    }
  }

  lemma {:induction false} ScanPidsSplit(snap: Snapshot, a: seq<int32>, b: seq<int32>, f: Filter)
    ensures ScanPids(snap, a + b, f) == ScanPids(snap, a, f) + ScanPids(snap, b, f)
  {
    if a == [] {
      assert a + b == b;
    } else {
      assert (a + b)[0] == a[0] && (a + b)[1..] == a[1..] + b;
      Reassociate(ScanPid(snap, a[0], f), ScanPids(snap, a[1..], f), ScanPids(snap, b, f));
      ScanPidsSplit(snap, a[1..], b, f);
    }
  }

  // ---- The growable list ----

  /** The largest capacity reached by doubling `cap` while the allocator gives at most `budget` entries. */
  function MostFrom(cap: nat, budget: nat): (r: nat)
    requires 0 < cap <= budget
    ensures cap <= r <= budget
    decreases budget - cap
  {
    if 2 * cap <= budget then MostFrom(2 * cap, budget) else cap
  }

  /** A list can hold this many entries: capacities are 0, 64, 128, ... */
  function Most(budget: nat): nat {
    if budget < 64 then 0 else MostFrom(64, budget)
  }

  class EntryList {
    var items: array<Entry>
    var count: nat
    const budget: nat  // realloc to more entries than this fails

    ghost predicate Valid()
      reads this
    {
      && count <= items.Length <= Most(budget)
      && (items.Length == 0 || (items.Length <= budget && MostFrom(items.Length, budget) == Most(budget)))
    }

    ghost function Contents(): seq<Entry>
      requires Valid()
      reads this, items
    {
      items[..count]
    }

    constructor (budget: nat)
      ensures Valid() && Contents() == [] && this.budget == budget && fresh(items)
    {
      this.budget := budget;
      items, count := new Entry[0], 0;
    }

    method Push(e: Entry) returns (ok: bool)
      requires Valid()
      modifies this, items
      ensures Valid() && (items == old(items) || fresh(items))
      ensures ok <==> old(count) < Most(budget)
      ensures Contents() == if ok then old(Contents()) + [e] else old(Contents())
    {
      if count == items.Length {
        var newCap := if items.Length == 0 then 64 else items.Length * 2;
        if newCap > budget { return false; }
        var grown := new Entry[newCap];
        forall i | 0 <= i < count { grown[i] := items[i]; }
        assert grown[..count] == items[..count];
        items := grown;
      }
      items[count] := e;
      count := count + 1;
      assert items[..count] == items[..count - 1] + [e];
      return true;
    }
  }

  // ---- Scanning ----

  lemma RestrictOne(f: Filter, e: Entry)
    ensures Restrict(f, [e]) == if Keeps(f, e) then [e] else []
  {
    assert [e][1..] == [];
  }

  /** What the first `i` links give. */
  function Found(pid: int32, p: Proc, links: seq<FdLink>, i: nat, f: Filter): seq<Entry>
    requires i <= |links|
  {
    Restrict(f, HiddenFiles(pid, p, links[..i]))
  }

  /** What one link gives. */
  function FoundAt(pid: int32, p: Proc, l: FdLink, f: Filter): seq<Entry> {
    var e := HiddenFile(pid, p, l);
    if e.Some? && Keeps(f, e.value) then [e.value] else []
  }

  lemma OneMoreLink(pid: int32, p: Proc, links: seq<FdLink>, i: nat, f: Filter)
    requires i < |links|
    ensures Found(pid, p, links, i + 1, f) == Found(pid, p, links, i, f) + FoundAt(pid, p, links[i], f)
    ensures FoundAt(pid, p, links[i], f) == [] ==> Found(pid, p, links, i + 1, f) == Found(pid, p, links, i, f)
  {
    var e := HiddenFile(pid, p, links[i]);
    assert links[..i + 1] == links[..i] + [links[i]] && [links[i]][1..] == [];
    HiddenFilesSplit(pid, p, links[..i], [links[i]]);
    var more := HiddenFiles(pid, p, [links[i]]);
    assert more == HiddenAt(pid, p, links[i]);
    RestrictSplits(f, HiddenFiles(pid, p, links[..i]), more);
    if e.Some? { RestrictOne(f, e.value); }
  }

  lemma FoundInAll(snap: Snapshot, pid: int32, f: Filter)
    requires pid in snap && snap[pid].fds.Some?
    ensures var links := snap[pid].fds.value;
            && Found(pid, snap[pid], links, 0, f) == []
            && Found(pid, snap[pid], links, |links|, f) == ScanPid(snap, pid, f)
  {
    var links := snap[pid].fds.value;
    assert links[..|links|] == links && links[..0] == [];
  }

  lemma {:induction false} WrongOwnerKeepsNothing(f: Filter, es: seq<Entry>)
    requires forall e | e in es :: !Keeps(f, e)
    ensures Restrict(f, es) == []
  {
    if es != [] {
      assert es[0] in es;
      WrongOwnerKeepsNothing(f, es[1..]);
    }
  }

  lemma {:induction false} FoundGrows(pid: int32, p: Proc, links: seq<FdLink>, i: nat, f: Filter)
    requires i <= |links|
    ensures |Found(pid, p, links, i, f)| <= |Found(pid, p, links, |links|, f)|
    decreases |links| - i
  {
    if i < |links| {
      OneMoreLink(pid, p, links, i, f);
      FoundGrows(pid, p, links, i + 1, f);
    }
  }

  /** The loop over the fd directory. */
  method ScanLinks(out: EntryList, pid: int32, p: Proc, links: seq<FdLink>, f: Filter) returns (ok: bool)
    requires out.Valid() && (f.uid == UID_ANY || p.uid == f.uid)
    modifies out, out.items
    ensures out.Valid() && (out.items == old(out.items) || fresh(out.items))
    ensures ok <==> |old(out.Contents())| + |Found(pid, p, links, |links|, f)| <= Most(out.budget)
    ensures ok ==> out.Contents() == old(out.Contents()) + Found(pid, p, links, |links|, f)
  {
    ghost var base := out.Contents();
    ok := true;
    NothingFoundYet(base, pid, p, links, f);
    for i := 0 to |links|
      invariant out.Valid() && (out.items == old(out.items) || fresh(out.items))
      invariant out.Contents() == base + Found(pid, p, links, i, f)
    {
      LinkStep(base, pid, p, links, i, f);
      var e := HiddenFile(pid, p, links[i]);
      if e.None? || e.value.size < f.minSize { continue; }
      ok := out.Push(e.value);
      if !ok {
        OneMoreLink(pid, p, links, i, f);
        FoundGrows(pid, p, links, i + 1, f);
        return;
      }
    }
  }

  lemma NothingFoundYet(base: seq<Entry>, pid: int32, p: Proc, links: seq<FdLink>, f: Filter)
    ensures base + Found(pid, p, links, 0, f) == base
  {
    assert links[..0] == [];
  }

  lemma LinkStep(base: seq<Entry>, pid: int32, p: Proc, links: seq<FdLink>, i: nat, f: Filter)
    requires i < |links| && (f.uid == UID_ANY || p.uid == f.uid)
    ensures var e := HiddenFile(pid, p, links[i]);
            base + Found(pid, p, links, i + 1, f) == base + Found(pid, p, links, i, f)
              + if e.None? || e.value.size < f.minSize then [] else [e.value]
  {
    OneMoreLink(pid, p, links, i, f);
  }

  /** Appends the process's entries to `out`; a failure leaves a part of them. */
  method ScanOnePid(snap: Snapshot, out: EntryList, pid: int32, f: Filter) returns (ok: bool)
    requires out.Valid()
    modifies out, out.items
    ensures out.Valid() && (out.items == old(out.items) || fresh(out.items))
    ensures ok <==> |old(out.Contents())| + |ScanPid(snap, pid, f)| <= Most(out.budget)
    ensures ok ==> out.Contents() == old(out.Contents()) + ScanPid(snap, pid, f)
  {
    ok := true;
    if pid !in snap { return; }
    var p := snap[pid];
    if f.uid != UID_ANY && p.uid != f.uid {
      if p.fds.Some? { HiddenFilesOwner(pid, p, p.fds.value); }
      WrongOwnerKeepsNothing(f, AllOf(snap, pid));
      return;
    }
    if p.fds.None? { return; }
    FoundInAll(snap, pid, f);
    ok := ScanLinks(out, pid, p, p.fds.value, f);
  }

  lemma AddToStats(before: Stats, es: seq<Entry>, e: Entry)
    ensures Plus(before, StatsOf(es + [e])) == Stats(before.count + |es| + 1, before.bytes + SumSizes(es) + e.size)
  {
    StatsSplit(es, [e]);
    assert [e][1..] == [];
    assert SumSizes([e]) == e.size + SumSizes([]);
  }

  method CountLinks(before: Stats, pid: int32, p: Proc, links: seq<FdLink>, f: Filter) returns (stats: Stats)
    requires f.uid == UID_ANY || p.uid == f.uid
    ensures stats == Plus(before, StatsOf(Found(pid, p, links, |links|, f)))
  {
    var count, bytes := before.count, before.bytes;
    for i := 0 to |links|
      invariant Stats(count, bytes) == Plus(before, StatsOf(Found(pid, p, links, i, f)))
    {
      OneMoreLink(pid, p, links, i, f);
      var e := HiddenFile(pid, p, links[i]);
      if e.None? || e.value.size < f.minSize { continue; }
      AddToStats(before, Found(pid, p, links, i, f), e.value);
      count, bytes := count + 1, bytes + e.value.size;
    }
    stats := Stats(count, bytes);
  }

  /** The cheap form: the same tests, but only a count and a sum. */
  method ScanOnePidStats(snap: Snapshot, before: Stats, pid: int32, f: Filter) returns (stats: Stats)
    ensures stats == Plus(before, StatsOf(ScanPid(snap, pid, f)))
  {
    stats := before;
    if pid !in snap { return; }
    var p := snap[pid];
    if f.uid != UID_ANY && p.uid != f.uid {
      if p.fds.Some? { HiddenFilesOwner(pid, p, p.fds.value); }
      WrongOwnerKeepsNothing(f, AllOf(snap, pid));
      return;
    }
    if p.fds.None? { return; }
    FoundInAll(snap, pid, f);
    stats := CountLinks(before, pid, p, p.fds.value, f);
  }
}
