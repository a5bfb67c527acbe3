/** SCAN over the socket: newline framing over partial sends (protocol.c), the daemon's reply (server.c) and the
    client's reading of it (client.go). */
module ScanWire {
  import opened Words
  import Decimal
  import opened ProcScan
  import opened JsonString
  import opened JsonObject
  import opened EntryWire

  const LINEBUF := HSED_PATH_MAX * 2 + HSED_CMDLINE_MAX * 2 + HSED_NAME_MAX * 4
  const SEND_LINEF_MAX := 2048

  // ---- Sending ----

  /** What send answers: some bytes taken, interrupted, or broken. */
  datatype SendAnswer = Sent(n: nat) | Interrupted | Broken

  /** The daemon's end of a connection: what has been delivered, and how the coming sends will go; when no answers are
      left the connection is broken. */
  class Socket {
    var wire: string
    var answers: seq<SendAnswer>

    constructor (answers: seq<SendAnswer>)
      ensures wire == "" && this.answers == answers
    {
      wire, this.answers := "", answers;
    }

    /** One send of a non-empty chunk. */
    method Send(chunk: string) returns (answer: SendAnswer)
      requires chunk != ""
      modifies this
      ensures answer.Sent? ==> answer.n <= |chunk| && wire == old(wire) + chunk[..answer.n]
      ensures !answer.Sent? ==> wire == old(wire)
      ensures !answer.Broken? ==> |answers| < |old(answers)|
    {
      if answers == [] { return Broken; }
      answer, answers := answers[0], answers[1..];
      if answer.Sent? {
        answer := Sent(Min(answer.n, |chunk|));
        wire := wire + chunk[..answer.n];
      }
    }

    /** hsed_send_line: `sent` bytes of the line and its newline are delivered, all of them exactly on success. */
    method SendLine(line: string) returns (ok: bool, ghost sent: nat)
      modifies this
      ensures sent <= |line| + 1 && wire == old(wire) + (line + "\n")[..sent]
      ensures ok <==> sent == |line| + 1
    {
      ghost var before, all := wire, line + "\n";
      var pos: nat := 0;
      while pos < |line| + 1
        invariant pos <= |line| + 1 && wire == before + all[..pos]
        decreases |answers|
      {
        var chunk := if pos < |line| then line[pos..] else "\n";
        var answer := Send(chunk);
        match answer
        case Broken => return false, pos;
        case Interrupted =>
        case Sent(n) =>
          assert all[..pos] + chunk[..n] == all[..pos + n];
          pos := pos + n;
      }
      return true, pos;
    }

    /** hsed_send_linef: the text is cut to its first 2047 bytes before it is sent. */
    method SendLinef(text: string) returns (ok: bool, ghost sent: nat)
      modifies this
      ensures var line := Take(text, SEND_LINEF_MAX - 1);
              sent <= |line| + 1 && wire == old(wire) + (line + "\n")[..sent] && (ok <==> sent == |line| + 1)
    {
      ok, sent := SendLine(Take(text, SEND_LINEF_MAX - 1));
    }
  }

  // ---- Lines of a stream ----

  /** ReadString('\n'): up to the first newline, or to the end. */
  function FirstLine(stream: string): (line: string)
    ensures line <= stream && OneLine(line)
    ensures |line| < |stream| ==> stream[|line|] == '\n'
  {
    if stream == "" || stream[0] == '\n' then "" else [stream[0]] + FirstLine(stream[1..])
  }

  function AfterFirstLine(stream: string): (rest: string)
    requires stream != ""
    ensures |rest| < |stream|
  {
    var n := |FirstLine(stream)|;
    if n < |stream| then stream[n + 1..] else ""
  }

  lemma {:induction false} FirstLineOf(line: string, rest: string)
    requires OneLine(line)
    ensures FirstLine(line + "\n" + rest) == line && AfterFirstLine(line + "\n" + rest) == rest
  {
    var s := line + "\n" + rest;
    if line != "" {
      assert line[0] in line && s[1..] == line[1..] + "\n" + rest;
      FirstLineOf(line[1..], rest);
    }
    assert s[|line| + 1..] == rest;
  }

  /** Each line with its newline, as a run of successful sends delivers them. */
  function Framed(lines: seq<string>): string {
    if lines == [] then "" else lines[0] + "\n" + Framed(lines[1..])
  }

  function Lines(stream: string): seq<string>
    decreases |stream|
  {
    if stream == "" then [] else [FirstLine(stream)] + Lines(AfterFirstLine(stream))
  }

  /** Splitting at newlines recovers the lines that were sent, in order. */
  lemma {:induction false} LinesRecovered(lines: seq<string>)
    requires forall i | 0 <= i < |lines| :: OneLine(lines[i])
    ensures Lines(Framed(lines)) == lines
  {
    if lines != [] {
      FirstLineOf(lines[0], Framed(lines[1..]));
      LinesRecovered(lines[1..]);
    }
  }

  // ---- The daemon's reply ----

  /** The line that carries a count and a total: SCAN's end line and the reply to STATS. */
  function TotalsFormat(kind: string, count: nat, total: int): PrintedMembers {
    [("type", Text(kind)), ("count", Number(count)), ("total_bytes", Number(total))]
  }

  function TotalsLine(kind: string, count: nat, total: int): string {
    PrintObject(TotalsFormat(kind, count, total))
  }

  function EndLine(count: nat, total: int): string {
    TotalsLine("end", count, total)
  }

  function SentEnd(count: nat, total: int): string {
    Take(EndLine(count, total), SEND_LINEF_MAX - 1)
  }

  function SentEntry(e: Entry): string {
    Take(EntryLine(e), LINEBUF - 1)
  }

  /** The lines SCAN sends for this list. */
  function ReplyLines(es: seq<Entry>): (lines: seq<string>)
    ensures |lines| == |es| + 1
  {
    seq(|es|, i requires 0 <= i < |es| => SentEntry(es[i])) + [SentEnd(|es|, SumSizes(es))]
  }

  function ScanReply(es: seq<Entry>): string {
    Framed(ReplyLines(es))
  }

  lemma {:induction false} FramedSplits(a: seq<string>, b: seq<string>)
    ensures Framed(a + b) == Framed(a) + Framed(b)
  {
    if a == [] {
      assert a + b == b;
    } else {
      assert (a + b)[1..] == a[1..] + b;
      FramedSplits(a[1..], b);
      Regroup(a[0], "\n", Framed(a[1..]), Framed(b));
    }
  }

  lemma FramedOne(line: string)
    ensures Framed([line]) == line + "\n"
  {
    assert [line][1..] == [];
    assert Framed([line]) == line + "\n" + "";
  }

  lemma FramedGrows(lines: seq<string>, i: nat)
    requires i < |lines|
    ensures Framed(lines[..i + 1]) == Framed(lines[..i]) + (lines[i] + "\n")
  {
    assert lines[..i + 1] == lines[..i] + [lines[i]];
    FramedSplits(lines[..i], [lines[i]]);
    FramedOne(lines[i]);
  }

  lemma FramedCut(lines: seq<string>, i: nat)
    requires i <= |lines|
    ensures Framed(lines) == Framed(lines[..i]) + Framed(lines[i..])
  {
    assert lines == lines[..i] + lines[i..];
    FramedSplits(lines[..i], lines[i..]);
  }

  lemma SumSizesGrows(es: seq<Entry>, i: nat)
    requires i < |es|
    ensures SumSizes(es[..i + 1]) == SumSizes(es[..i]) + es[i].size
  {
    var one := [es[i]];
    assert es[..i + 1] == es[..i] + one && one[1..] == [];
    SumSizesSplit(es[..i], one);
    assert SumSizes(one) == es[i].size + SumSizes([]);
  }

  /** Prints one entry and sends it. */
  method SendEntry(sock: Socket, e: Entry, linebuf: array<char>) returns (ok: bool, ghost sent: nat)
    requires InStruct(e) && linebuf.Length == LINEBUF
    modifies sock, linebuf
    ensures var line := SentEntry(e);
            sent <= |line| + 1 && sock.wire == old(sock.wire) + (line + "\n")[..sent] && (ok <==> sent == |line| + 1)
  {
    FormatEntry(e, linebuf);
    ghost var text := SentEntry(e);
    assert linebuf[..][|text|] == '\0';
    EntryLineHasNoControls(e);
    var line := CString(linebuf);
    SameCString(linebuf[..], line, text);
    ok, sent := sock.SendLine(line);
  }

  lemma PrefixOfThree(done: string, piece: string, rest: string, k: nat)
    requires k <= |piece|
    ensures (done + piece + rest)[..|done| + k] == done + piece[..k]
  {
  }

  /** Delivering `k` bytes of line `i` after the lines before it. */
  lemma FramedAt(lines: seq<string>, i: nat, k: nat)
    requires i < |lines| && k <= |lines[i]| + 1
    ensures var pos := |Framed(lines[..i])|;
            pos + k <= |Framed(lines)|
            && Framed(lines)[..pos + k] == Framed(lines)[..pos] + (lines[i] + "\n")[..k]
    ensures |Framed(lines[..i + 1])| == |Framed(lines[..i])| + |lines[i]| + 1
  {
    var done, piece, rest := Framed(lines[..i]), lines[i] + "\n", Framed(lines[i + 1..]);
    FramedGrows(lines, i);
    FramedCut(lines, i + 1);
    PrefixOfThree(done, piece, rest, k);
    PrefixOfThree(done, piece, rest, 0);
    assert piece[..0] == "" && done + "" == done;
  }

  /** `lines` begins with the lines of the entries. */
  ghost predicate Formats(lines: seq<string>, es: seq<Entry>) {
    |es| < |lines| && forall i {:trigger SentEntry(es[i])} | 0 <= i < |es| :: lines[i] == SentEntry(es[i])
  }

  method SendNext(sock: Socket, es: seq<Entry>, i: nat, ghost lines: seq<string>, linebuf: array<char>)
    returns (ok: bool, ghost sent: nat)
    requires i < |es| && InStruct(es[i]) && linebuf.Length == LINEBUF && Formats(lines, es)
    modifies sock, linebuf
    ensures sent <= |lines[i]| + 1 && sock.wire == old(sock.wire) + (lines[i] + "\n")[..sent]
    ensures ok <==> sent == |lines[i]| + 1
  {
    ok, sent := SendEntry(sock, es[i], linebuf);
  }

  /** The loop over the list; the total is kept as the entries go out. */
  method SendEntries(sock: Socket, es: seq<Entry>, ghost lines: seq<string>)
    returns (ok: bool, total: int, ghost sent: nat)
    requires (forall i | 0 <= i < |es| :: InStruct(es[i])) && Formats(lines, es)
    modifies sock
    ensures sent <= |Framed(lines)| && sock.wire == old(sock.wire) + Framed(lines)[..sent]
    ensures ok ==> sent == |Framed(lines[..|es|])| && total == SumSizes(es)
    ensures !ok ==> sent < |Framed(lines)|
  {
    var linebuf := new char[LINEBUF];
    ghost var all := Framed(lines);
    total, sent := 0, 0;
    assert es[..0] == [] && lines[..0] == [];
    for i := 0 to |es|
      invariant sent == |Framed(lines[..i])| <= |all|
      invariant sock.wire == old(sock.wire) + all[..sent]
      invariant total == SumSizes(es[..i])
    {
      SumSizesGrows(es, i);
      ghost var k;
      ok, k := SendNext(sock, es, i, lines, linebuf);
      FramedAt(lines, i, k);
      FramedAt(lines, i, |lines[i]| + 1);
      sent := sent + k;
      if !ok { return; }
      total := total + es[i].size;
    }
    assert es[..|es|] == es;
    ok := true;
  }

  /** The entries' lines, then the end line. */
  ghost predicate IsReply(lines: seq<string>, es: seq<Entry>) {
    Formats(lines, es) && |lines| == |es| + 1 && EndsReply(lines[|es|], es)
  }

  ghost predicate EndsReply(line: string, es: seq<Entry>) {
    forall n: nat, total: int {:trigger SentEnd(n, total)} | n == |es| && total == SumSizes(es) ::
      line == SentEnd(n, total)
  }

  lemma ReplyLinesAreTheReply(es: seq<Entry>)
    ensures IsReply(ReplyLines(es), es)
  {
  }

  /** The end line, after the entries. */
  method SendEndLine(sock: Socket, ghost es: seq<Entry>, count: nat, total: int, ghost line: string)
    returns (ok: bool, ghost sent: nat)
    requires count == |es| && total == SumSizes(es) && EndsReply(line, es)
    modifies sock
    ensures sent <= |line| + 1 && sock.wire == old(sock.wire) + (line + "\n")[..sent]
    ensures ok <==> sent == |line| + 1
  {
    assert line == SentEnd(count, total);
    ok, sent := sock.SendLinef(EndLine(count, total));
  }

  method SendReply(sock: Socket, es: seq<Entry>, ghost lines: seq<string>) returns (ok: bool, ghost sent: nat)
    requires (forall i | 0 <= i < |es| :: InStruct(es[i])) && IsReply(lines, es)
    modifies sock
    ensures sent <= |Framed(lines)| && sock.wire == old(sock.wire) + Framed(lines)[..sent]
    ensures ok <==> sent == |Framed(lines)|
  {
    var total;
    ok, total, sent := SendEntries(sock, es, lines);
    if !ok { return; }
    ghost var k;
    ok, k := SendEndLine(sock, es, |es|, total, lines[|es|]);
    FramedAt(lines, |es|, k);
    assert lines[..|es| + 1] == lines;
    sent := sent + k;
  }

  /** handle_scan after a successful scan: the whole reply, or a strict prefix of it when the connection breaks. */
  method HandleScan(sock: Socket, es: seq<Entry>) returns (ok: bool, ghost sent: nat)
    requires forall i | 0 <= i < |es| :: InStruct(es[i])
    modifies sock
    ensures sent <= |ScanReply(es)| && sock.wire == old(sock.wire) + ScanReply(es)[..sent]
    ensures ok <==> sent == |ScanReply(es)|
  {
    ReplyLinesAreTheReply(es);
    ok, sent := SendReply(sock, es, ReplyLines(es));
  }

  // ---- The client's side ----

  datatype Envelope = Envelope(kind: string, message: string, count: int, totalBytes: int)

  /** The part of the envelope SCAN and STATS use. */
  function DecodeEnvelope(ms: Members): Option<Envelope> {
    var kind, message := TextField(ms, "type"), TextField(ms, "message");
    var count, total := Int64Field(ms, "count"), Int64Field(ms, "total_bytes");
    if kind.None? || message.None? || count.None? || total.None? then None
    else Some(Envelope(kind.value, message.value, count.value, total.value))
  }

  function TrimRight(s: string): string {
    if s != "" && (s[|s| - 1] == '\r' || s[|s| - 1] == '\n') then TrimRight(s[..|s| - 1]) else s
  }

  datatype ScanResult = Scanned(entries: seq<HiddenEntry>, total: int) | ScanFailed

  datatype Reply = More(entry: HiddenEntry) | Done(total: int) | Bad

  /** What the client makes of one line of the reply. */
  function ReadReply(line: string): Reply {
    var ms := ReadObject(TrimRight(line));
    if ms.None? then Bad
    else
      var env := DecodeEnvelope(ms.value);
      if env.None? then Bad
      else if env.value.kind == "entry" then
        var e := DecodeEntry(ms.value);
        if e.None? then Bad else More(e.value)
      else if env.value.kind == "end" then Done(env.value.totalBytes)
      else Bad
  }

  /** The read loop over everything the connection delivers, for any reader of lines. */
  function ScanResultOf(read: string -> Reply, stream: string, sofar: seq<HiddenEntry>): ScanResult
    decreases |stream|
  {
    if stream == "" then ScanFailed
    else
      var r := read(FirstLine(stream));
      if r.More? then ScanResultOf(read, AfterFirstLine(stream), sofar + [r.entry])
      else if r.Done? then Scanned(sofar, r.total)
      else ScanFailed
  }

  /** The response loop of Scan. */
  method ClientScan(stream: string) returns (r: ScanResult)
    ensures r == ScanResultOf(ReadReply, stream, [])
  {
    var rest, entries := stream, [];
    while rest != ""
      invariant ScanResultOf(ReadReply, stream, []) == ScanResultOf(ReadReply, rest, entries)
      decreases |rest|
    {
      match ReadReply(FirstLine(rest)) {
        case More(e) => entries := entries + [e];
        case Done(total) => return Scanned(entries, total);
        case Bad => return ScanFailed;
      }
      rest := AfterFirstLine(rest);
    }
    r := ScanFailed;
  }

  // ---- The reply comes back as the list ----

  lemma NothingToTrim(line: string)
    requires NoControls(line)
    ensures TrimRight(line) == line
  {
  }

  lemma EntryEnvelope(e: Entry, user: string, comm: string, cmdline: string, path: string)
    ensures var ms := EntryValues(e, user, comm, cmdline, path);
            DecodeEnvelope(ms).Some? && DecodeEnvelope(ms).value.kind == Repair("entry")
  {
    var a, b := ValuesHead(e, user), ValuesTail(e, comm, cmdline, path);
    EachMember(e, user, comm, cmdline, path);
    NoMember(a, "message"); NoMember(b, "message"); MemberSplits(a, b, "message");
    NoMember(a, "count"); NoMember(b, "count"); MemberSplits(a, b, "count");
    NoMember(a, "total_bytes"); NoMember(b, "total_bytes"); MemberSplits(a, b, "total_bytes");
  }

  /** The entry's line fits the daemon's buffer. */
  predicate Fits(e: Entry) {
    |EntryLine(e)| < LINEBUF
  }

  lemma EntryKind()
    ensures Repair("entry") == "entry"
  {
    AsciiIsKept("entry");
  }

  lemma EntryLineEnvelope(e: Entry)
    requires InStruct(e)
    ensures var ms := ReadObject(EntryLine(e));
            ms.Some? && DecodeEnvelope(ms.value).Some? && DecodeEnvelope(ms.value).value.kind == "entry"
  {
    var user, comm := Kept(e.user, 0, 2 * HSED_NAME_MAX), Kept(e.comm, 0, 2 * HSED_NAME_MAX);
    var cmdline, path := Kept(e.cmdline, 0, 2 * HSED_CMDLINE_MAX), Kept(e.path, 0, 2 * HSED_PATH_MAX);
    EntryLineReads(e);
    EntryEnvelope(e, user, comm, cmdline, path);
    EntryKind();
  }

  lemma EntryReply(e: Entry)
    requires InStruct(e)
    ensures ReadReply(EntryLine(e)) == More(AsReceived(e)) && NoControls(EntryLine(e)) && ReadObject(EntryLine(e)).Some?
  {
    EntryLineHasNoControls(e);
    NothingToTrim(EntryLine(e));
    EntryLineEnvelope(e);
    EntryRoundTrip(e);
  }

  predicate InInt64(n: int) {
    INT64_MIN <= n <= INT64_MAX
  }

  function TotalsValues(kind: string, count: nat, total: int): Members {
    [("type", Str(kind)), ("count", Num(count)), ("total_bytes", Num(total))]
  }

  /** The kinds of line there are: short, and in need of no escapes or repairs. */
  predicate PlainKind(kind: string) {
    |kind| <= 5 && PlainText(kind) && forall i | 0 <= i < |kind| :: kind[i] as int < 0x80
  }

  lemma TotalsPrint(kind: string, count: nat, total: int)
    requires PlainKind(kind)
    ensures PrintsAll(TotalsFormat(kind, count, total), TotalsValues(kind, count, total))
  {
    PlainTextIsItself(kind);
  }

  lemma TotalsLength(kind: string, count: nat, total: int)
    requires PlainKind(kind) && InInt64(count) && InInt64(total)
    ensures |TotalsLine(kind, count, total)| < SEND_LINEF_MAX
  {
    Decimal.DecLengths(count);
    Decimal.DecLengths(total);
    var ps := TotalsFormat(kind, count, total);
    assert ps[1..] == [ps[1], ps[2]] && ps[1..][1..] == [ps[2]];
    assert |PrintMembers([ps[2]])| <= 60 && |PrintMembers([ps[1], ps[2]])| <= 120;
  }

  lemma TotalsEnvelope(kind: string, count: nat, total: int)
    requires InInt64(count) && InInt64(total)
    ensures var env := DecodeEnvelope(TotalsValues(kind, count, total));
            env.Some? && env.value.kind == Repair(kind) && env.value.count == count && env.value.totalBytes == total
  {
    var ms := TotalsValues(kind, count, total);
    MemberAt(ms, 0);
    MemberAt(ms, 1);
    MemberAt(ms, 2);
    NoMember(ms, "message");
  }

  /** A totals line is never cut, and is read back as it was meant. */
  lemma TotalsRead(kind: string, count: nat, total: int)
    requires PlainKind(kind) && InInt64(count) && InInt64(total)
    ensures var line := TotalsLine(kind, count, total);
            |line| < SEND_LINEF_MAX && NoControls(line) && TrimRight(line) == line && ReadObject(line).Some?
    ensures var env := DecodeEnvelope(ReadObject(TotalsLine(kind, count, total)).value);
            env.Some? && env.value.kind == kind && env.value.count == count && env.value.totalBytes == total
  {
    TotalsLength(kind, count, total);
    TotalsPrint(kind, count, total);
    PrintedHasNoControls(TotalsFormat(kind, count, total), TotalsValues(kind, count, total));
    NothingToTrim(TotalsLine(kind, count, total));
    ReadObjectBack(TotalsFormat(kind, count, total), TotalsValues(kind, count, total));
    TotalsEnvelope(kind, count, total);
    AsciiIsKept(kind);
  }

  lemma EndReply(count: nat, total: int)
    requires InInt64(count) && InInt64(total)
    ensures var line := SentEnd(count, total);
            ReadReply(line) == Done(total) && NoControls(line) && ReadObject(line).Some?
  {
    TotalsRead("end", count, total);
  }

  /** A line that reads as `r` and, cut anywhere, as nothing. */
  ghost predicate ReadsAs(read: string -> Reply, line: string, r: Reply) {
    NoControls(line) && read(line) == r && forall k: nat :: k < |line| ==> read(line[..k]) == Bad
  }

  /** Lines that read as these entries and then this total. */
  ghost predicate Answers(read: string -> Reply, lines: seq<string>, entries: seq<HiddenEntry>, total: int) {
    && |lines| == |entries| + 1
    && (forall i | 0 <= i < |entries| :: ReadsAs(read, lines[i], More(entries[i])))
    && ReadsAs(read, lines[|entries|], Done(total))
  }

  lemma {:induction false} NoNewlineInside(s: string)
    requires NoControls(s)
    ensures FirstLine(s) == s
  {
    if s != "" { NoNewlineInside(s[1..]); }
  }

  /** A stream that ends inside a line, or right behind it. */
  lemma LastLineRead(read: string -> Reply, line: string, r: Reply, k: nat, sofar: seq<HiddenEntry>)
    requires ReadsAs(read, line, r) && k <= |line|
    ensures ScanResultOf(read, line[..k], sofar)
         == if k == |line| && r.Done? && line != "" then Scanned(sofar, r.total) else ScanFailed
  {
    NoNewlineInside(line[..k]);
    if k == |line| { assert line[..k] == line; }
  }

  lemma CutInside(line: string, rest: string, k: nat)
    requires k <= |line| + 1 + |rest|
    ensures (line + "\n" + rest)[..k] == if k <= |line| then line[..k] else line + "\n" + rest[..k - |line| - 1]
  {
  }

  /** A stream that holds the whole first line goes on behind it. */
  lemma WholeLineRead(read: string -> Reply, line: string, rest: string, k: nat,
                                         sofar: seq<HiddenEntry>)
    requires NoControls(line) && |line| < k <= |line| + 1 + |rest|
    ensures var r, more := read(line), rest[..k - |line| - 1];
            ScanResultOf(read, (line + "\n" + rest)[..k], sofar)
            == if r.More? then ScanResultOf(read, more, sofar + [r.entry])
               else if r.Done? then Scanned(sofar, r.total)
               else ScanFailed
  {
    var more := rest[..k - |line| - 1];
    CutInside(line, rest, k);
    FirstLineOf(line, more);
  }

  lemma CutLastLine(read: string -> Reply, line: string, total: int, k: nat, sofar: seq<HiddenEntry>)
    requires ReadsAs(read, line, Done(total)) && line != "" && k <= |line| + 1
    ensures ScanResultOf(read, (line + "\n" + "")[..k], sofar)
         == if k >= |line| then Scanned(sofar, total) else ScanFailed
  {
    CutInside(line, "", k);
    if k <= |line| {
      LastLineRead(read, line, Done(total), k, sofar);
    } else {
      WholeLineRead(read, line, "", k, sofar);
    }
  }

  lemma CutEarlierLine(read: string -> Reply, line: string, rest: string, e: HiddenEntry, k: nat,
                                          sofar: seq<HiddenEntry>)
    requires ReadsAs(read, line, More(e)) && k <= |line| + 1 + |rest|
    ensures ScanResultOf(read, (line + "\n" + rest)[..k], sofar)
         == if k <= |line| then ScanFailed else ScanResultOf(read, rest[..k - |line| - 1], sofar + [e])
  {
    CutInside(line, rest, k);
    if k <= |line| {
      LastLineRead(read, line, More(e), k, sofar);
    } else {
      WholeLineRead(read, line, rest, k, sofar);
    }
  }

  lemma FramedNotEmpty(lines: seq<string>)
    requires lines != []
    ensures Framed(lines) == lines[0] + "\n" + Framed(lines[1..])
  {
  }

  lemma AnswersTail(read: string -> Reply, lines: seq<string>, entries: seq<HiddenEntry>, total: int)
    requires Answers(read, lines, entries, total) && entries != []
    ensures Answers(read, lines[1..], entries[1..], total) && lines[1..][|entries| - 1] == lines[|entries|]
  {
  }

  lemma CutOnlyLine(read: string -> Reply, lines: seq<string>, total: int, k: nat,
                                       sofar: seq<HiddenEntry>)
    requires |lines| == 1 && ReadsAs(read, lines[0], Done(total)) && lines[0] != "" && k <= |Framed(lines)|
    ensures ScanResultOf(read, Framed(lines)[..k], sofar)
         == if k + 1 >= |Framed(lines)| then Scanned(sofar + [], total) else ScanFailed
  {
    FramedNotEmpty(lines);
    assert lines[1..] == [] && sofar + [] == sofar;
    CutLastLine(read, lines[0], total, k, sofar);
  }

  /** Of a reply cut after `k` bytes the client accepts nothing less than everything but the last newline. */
  lemma {:induction false} CutReply(read: string -> Reply, lines: seq<string>, entries: seq<HiddenEntry>, total: int,
                                    k: nat, sofar: seq<HiddenEntry>)
    requires Answers(read, lines, entries, total) && lines[|entries|] != "" && k <= |Framed(lines)|
    ensures ScanResultOf(read, Framed(lines)[..k], sofar)
         == if k + 1 >= |Framed(lines)| then Scanned(sofar + entries, total) else ScanFailed
    decreases |lines|
  {
    if entries == [] {
      CutOnlyLine(read, lines, total, k, sofar);
    } else {
      FramedNotEmpty(lines);
      var k' := k - |lines[0]| - 1;
      AnswersTail(read, lines, entries, total);
      if k' >= 0 { CutReply(read, lines[1..], entries[1..], total, k', sofar + [entries[0]]); }
      CutMore(read, lines, Framed(lines[1..]), entries, total, k, k', sofar);
    }
  }

  lemma CutMore(read: string -> Reply, lines: seq<string>, tail: string, entries: seq<HiddenEntry>,
                                   total: int, k: nat, k': int, sofar: seq<HiddenEntry>)
    requires Answers(read, lines, entries, total) && entries != []
    requires tail == Framed(lines[1..]) && k <= |lines[0]| + 1 + |tail| && k' == k - |lines[0]| - 1
    requires k' >= 0 ==>
               ScanResultOf(read, tail[..k'], sofar + [entries[0]])
               == if k' + 1 >= |tail| then Scanned(sofar + [entries[0]] + entries[1..], total) else ScanFailed
    ensures ScanResultOf(read, Framed(lines)[..k], sofar)
         == if k + 1 >= |Framed(lines)| then Scanned(sofar + entries, total) else ScanFailed
  {
    FramedNotEmpty(lines);
    FramedNotEmpty(lines[1..]);
    CutStep(read, lines[0], tail, entries[0], entries[1..], total, k, sofar);
    HeadAndTail(entries);
  }

  lemma HeadAndTail(entries: seq<HiddenEntry>)
    requires entries != []
    ensures [entries[0]] + entries[1..] == entries
  {
  }

  /** What holds of the reply behind a line holds of the reply with it. */
  lemma CutStep(read: string -> Reply, line: string, tail: string, e: HiddenEntry,
                                   more: seq<HiddenEntry>, total: int, k: nat, sofar: seq<HiddenEntry>)
    requires ReadsAs(read, line, More(e)) && tail != "" && k <= |line| + 1 + |tail|
    requires k > |line| ==> ScanResultOf(read, tail[..k - |line| - 1], sofar + [e])
                            == if k - |line| >= |tail| then Scanned(sofar + [e] + more, total) else ScanFailed
    ensures ScanResultOf(read, (line + "\n" + tail)[..k], sofar)
         == if k >= |line| + |tail| then Scanned(sofar + ([e] + more), total) else ScanFailed
  {
    CutEarlierLine(read, line, tail, e, k, sofar);
    Reassociate(sofar, [e], more);
  }

  /** A line that the client cannot read, however much of it arrives, fails the whole reply. */
  lemma {:induction false} BadLineFails(read: string -> Reply, lines: seq<string>, i: nat, k: nat,
                                        sofar: seq<HiddenEntry>)
    requires i < |lines| && ReadsAs(read, lines[i], Bad) && k <= |Framed(lines)|
    requires forall j | 0 <= j < i :: ReadsAs(read, lines[j], read(lines[j])) && !read(lines[j]).Done?
    ensures ScanResultOf(read, Framed(lines)[..k], sofar) == ScanFailed
    decreases i
  {
    var line, rest := lines[0], Framed(lines[1..]);
    FramedNotEmpty(lines);
    CutInside(line, rest, k);
    if k <= |line| {
      LastLineRead(read, line, read(line), k, sofar);
    } else {
      WholeLineRead(read, line, rest, k, sofar);
      if i > 0 && read(line).More? {
        BadLineFails(read, lines[1..], i - 1, k - |line| - 1, sofar + [read(line).entry]);
      }
    }
  }

  function AllReceived(es: seq<Entry>): (r: seq<HiddenEntry>)
    ensures |r| == |es|
  {
    seq(|es|, i requires 0 <= i < |es| => AsReceived(es[i]))
  }

  predicate AllFit(es: seq<Entry>) {
    forall i | 0 <= i < |es| :: Fits(es[i])
  }

  lemma CutLineIsBad(line: string)
    requires NoControls(line) && ReadObject(line).Some?
    ensures ReadsAs(ReadReply, line, ReadReply(line))
  {
    forall k: nat | k < |line| ensures ReadReply(line[..k]) == Bad {
      PrefixIsBad(line, k);
    }
  }

  lemma PrefixIsBad(line: string, k: nat)
    requires NoControls(line) && ReadObject(line).Some? && k < |line|
    ensures ReadReply(line[..k]) == Bad
  {
    NothingToTrim(line[..k]);
    CutObjectIsRejected(line, k);
  }

  lemma CutLineStaysBad(line: string, n: nat)
    requires NoControls(line) && ReadObject(line).Some? && n < |line|
    ensures ReadsAs(ReadReply, line[..n], Bad)
  {
    PrefixIsBad(line, n);
    forall k: nat | k < n ensures ReadReply(line[..n][..k]) == Bad {
      assert line[..n][..k] == line[..k];
      PrefixIsBad(line, k);
    }
  }

  /** What the client makes of an entry's line: the entry as received, or, of a line that does not fit, nothing. */
  lemma EntryLineAnswers(e: Entry)
    requires InStruct(e)
    ensures ReadsAs(ReadReply, SentEntry(e), if Fits(e) then More(AsReceived(e)) else Bad)
  {
    EntryReply(e);
    if Fits(e) { CutLineIsBad(EntryLine(e)); } else { CutLineStaysBad(EntryLine(e), LINEBUF - 1); }
  }

  lemma EndLineAnswers(lines: seq<string>, es: seq<Entry>)
    requires IsReply(lines, es) && InInt64(|es|) && InInt64(SumSizes(es))
    ensures ReadsAs(ReadReply, lines[|es|], Done(SumSizes(es))) && lines[|es|] != ""
  {
    assert lines[|es|] == SentEnd(|es|, SumSizes(es));
    EndReply(|es|, SumSizes(es));
    CutLineIsBad(lines[|es|]);
  }

  lemma AnswersFromLines(read: string -> Reply, lines: seq<string>, es: seq<Entry>,
                                            seen: seq<HiddenEntry>, total: int)
    requires |lines| == |es| + 1 == |seen| + 1
    requires forall i {:trigger seen[i]} | 0 <= i < |es| :: ReadsAs(read, lines[i], More(seen[i]))
    requires ReadsAs(read, lines[|es|], Done(total))
    ensures Answers(read, lines, seen, total)
  {
  }

  lemma ReplyAnswers(lines: seq<string>, es: seq<Entry>)
    requires IsReply(lines, es) && AllFit(es)
    requires forall i | 0 <= i < |es| :: InStruct(es[i])
    requires InInt64(|es|) && InInt64(SumSizes(es))
    ensures Answers(ReadReply, lines, AllReceived(es), SumSizes(es)) && lines[|es|] != ""
  {
    var seen := AllReceived(es);
    forall i | 0 <= i < |es| ensures ReadsAs(ReadReply, lines[i], More(seen[i])) {
      EntryLineAnswers(es[i]);
    }
    EndLineAnswers(lines, es);
    AnswersFromLines(ReadReply, lines, es, seen, SumSizes(es));
  }

  lemma TooLongFails(lines: seq<string>, es: seq<Entry>, k: nat)
    requires IsReply(lines, es) && !AllFit(es) && k <= |Framed(lines)|
    requires forall i | 0 <= i < |es| :: InStruct(es[i])
    ensures ScanResultOf(ReadReply, Framed(lines)[..k], []) == ScanFailed
  {
    var i :| 0 <= i < |es| && !Fits(es[i]);
    forall j | 0 <= j <= i
      ensures ReadsAs(ReadReply, lines[j], ReadReply(lines[j])) && !ReadReply(lines[j]).Done? {
      EntryLineAnswers(es[j]);
    }
    EntryLineAnswers(es[i]);
    BadLineFails(ReadReply, lines, i, k, []);
  }

  /** Scan succeeds exactly when every entry's line fits the daemon's buffer and the reply arrives whole, give or take
      the last newline. The list is then the daemon's, each entry as received, and the total is the daemon's; a
      shorter delivery is never taken for a shorter list. */
  lemma ScanTransfer(es: seq<Entry>, sent: nat)
    requires forall i | 0 <= i < |es| :: InStruct(es[i])
    requires InInt64(|es|) && InInt64(SumSizes(es)) && sent <= |ScanReply(es)|
    ensures ScanResultOf(ReadReply, ScanReply(es)[..sent], [])
         == if AllFit(es) && sent + 1 >= |ScanReply(es)| then Scanned(AllReceived(es), SumSizes(es)) else ScanFailed
  {
    ReplyLinesAreTheReply(es);
    if AllFit(es) {
      ReplyAnswers(ReplyLines(es), es);
      CutReply(ReadReply, ReplyLines(es), AllReceived(es), SumSizes(es), sent, []);
      assert [] + AllReceived(es) == AllReceived(es);
    } else {
      TooLongFails(ReplyLines(es), es, sent);
    }
  }
}
