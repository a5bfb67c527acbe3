/** The reply to STATS (server.c, handle_stats, and client.go, Stats), against SCAN's. */
module StatsWire {
  import opened Words
  import opened ProcScan
  import opened JsonObject
  import EntryWire
  import ScanCommands
  import opened ScanWire

  function StatsLine(stats: Stats): string {
    TotalsLine("stats", stats.count, stats.bytes)
  }

  /** handle_stats after a successful scan. */
  method HandleStats(sock: Socket, stats: Stats) returns (ok: bool, ghost sent: nat)
    requires InInt64(stats.count) && InInt64(stats.bytes)
    modifies sock
    ensures sent <= |StatsLine(stats)| + 1 && sock.wire == old(sock.wire) + (StatsLine(stats) + "\n")[..sent]
    ensures ok <==> sent == |StatsLine(stats)| + 1
  {
    TotalsRead("stats", stats.count, stats.bytes);
    ok, sent := sock.SendLinef(StatsLine(stats));
  }

  datatype StatsResult = Counted(count: int, total: int) | StatsFailed

  /** What the client makes of the first line of the reply. */
  function ReadStats(line: string): StatsResult {
    var ms := ReadObject(TrimRight(line));
    if ms.None? then StatsFailed
    else
      var env := DecodeEnvelope(ms.value);
      if env.None? || env.value.kind != "stats" then StatsFailed
      else Counted(env.value.count, env.value.totalBytes)
  }

  function ClientStats(stream: string): StatsResult {
    if stream == "" then StatsFailed else ReadStats(FirstLine(stream))
  }

  lemma StatsLineReads(stats: Stats)
    requires InInt64(stats.count) && InInt64(stats.bytes)
    ensures ReadStats(StatsLine(stats)) == Counted(stats.count, stats.bytes)
    ensures NoControls(StatsLine(stats)) && ReadObject(StatsLine(stats)).Some? && StatsLine(stats) != ""
  {
    TotalsRead("stats", stats.count, stats.bytes);
  }

  /** Of a reply of which only `k` bytes arrive: the client's numbers are the daemon's exactly when nothing but the
      newline is missing, and nothing less is taken for other numbers. */
  lemma StatsTransfer(stats: Stats, k: nat)
    requires InInt64(stats.count) && InInt64(stats.bytes) && k <= |StatsLine(stats)| + 1
    ensures ClientStats((StatsLine(stats) + "\n")[..k])
         == if k >= |StatsLine(stats)| then Counted(stats.count, stats.bytes) else StatsFailed
  {
    StatsLineReads(stats);
    CutLineRead(StatsLine(stats), k);
  }

  lemma CutLineRead(line: string, k: nat)
    requires NoControls(line) && ReadObject(line).Some? && line != "" && k <= |line| + 1
    ensures ClientStats((line + "\n")[..k]) == if k >= |line| then ReadStats(line) else StatsFailed
  {
    assert line + "\n" + "" == line + "\n";
    CutInside(line, "", k);
    if k > |line| {
      FirstLineOf(line, "");
    } else {
      NoNewlineInside(line[..k]);
      NothingToTrim(line[..k]);
      if k < |line| { CutObjectIsRejected(line, k); } else { assert line[..k] == line; }
    }
  }

  /** On one snapshot and under one filter, whatever order SCAN lists them in: when the client gets SCAN's reply, which
      it does if every line fits, its length and total are the numbers it gets from STATS. */
  lemma StatsAgreeWithScan(snap: Snapshot, pids: seq<int32>, f: Filter, listed: seq<Entry>)
    requires multiset(listed) == multiset(ScanPids(snap, pids, f))
    requires forall i | 0 <= i < |listed| :: EntryWire.InStruct(listed[i])
    requires InInt64(|listed|) && InInt64(SumSizes(listed))
    ensures var scanned := ScanResultOf(ReadReply, ScanReply(listed), []);
            var counted := ClientStats(StatsLine(StatsOf(ScanPids(snap, pids, f))) + "\n");
            && counted == Counted(|listed|, SumSizes(listed)) && (scanned.Scanned? <==> AllFit(listed))
            && (scanned.Scanned? ==> counted == Counted(|scanned.entries|, scanned.total))
  {
    ScanCommands.StatsRefineScan(snap, pids, f, listed);
    WholeReply(listed);
    WholeStats(StatsOf(ScanPids(snap, pids, f)));
  }

  lemma WholeStats(stats: Stats)
    requires InInt64(stats.count) && InInt64(stats.bytes)
    ensures ClientStats(StatsLine(stats) + "\n") == Counted(stats.count, stats.bytes)
  {
    TakeAll(StatsLine(stats) + "\n");
    StatsTransfer(stats, |StatsLine(stats)| + 1);
  }

  lemma WholeReply(listed: seq<Entry>)
    requires forall i | 0 <= i < |listed| :: EntryWire.InStruct(listed[i])
    requires InInt64(|listed|) && InInt64(SumSizes(listed))
    ensures ScanResultOf(ReadReply, ScanReply(listed), [])
         == if AllFit(listed) then Scanned(AllReceived(listed), SumSizes(listed)) else ScanFailed
  {
    TakeAll(ScanReply(listed));
    ScanTransfer(listed, |ScanReply(listed)|);
  }

  lemma TakeAll(s: string)
    ensures s[..|s|] == s
  {
  }
}
