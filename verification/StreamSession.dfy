/** A STREAM from the traced run to the client's events: the callbacks of the event loop (tracer.c), their lines
    (server.c, handle_stream) and the client's Next (client.go) together. */
module StreamSession {
  import opened Words
  import opened Tracer
  import opened Interleaving
  import opened Pairing
  import opened JsonObject
  import opened EntryWire
  import opened ScanWire
  import opened StreamWire
  import Base64
  import Decimal
  import JsonString

  // ---- What the client sees ----

  /** The events Next returns, one call after the other, until it reports the end or an error. */
  function ClientEvents(next: string -> Next, stream: string): seq<WriteEvent>
    decreases |stream|
  {
    if stream == "" then []
    else
      var r := next(FirstLine(stream));
      if r.Event? then [r.w] + ClientEvents(next, AfterFirstLine(stream))
      else if r.Ignored? then ClientEvents(next, AfterFirstLine(stream))
      else []
  }

  // ---- What the daemon sends ----

  /** A callback whose numbers are those of the C types. */
  predicate Sized(o: Output) {
    && o.Callback? && -0x8000_0000 <= o.tid < 0x8000_0000
    && INT64_MIN <= o.ret <= INT64_MAX && |o.data| <= INT64_MAX
  }

  predicate AllSized(cs: seq<Output>) {
    forall i | 0 <= i < |cs| :: Sized(cs[i])
  }

  function LineOf(o: Output): string
    requires Sized(o)
  {
    WriteLine(o.tid, o.ret, o.data, o.isWritev)
  }

  /** The line does not fit hsed_send_linef's buffer. */
  predicate Overlong(o: Output)
    requires Sized(o)
  {
    |LineOf(o)| >= SEND_LINEF_MAX
  }

  function SentLines(cs: seq<Output>): (lines: seq<string>)
    requires AllSized(cs)
    ensures |lines| == |cs|
  {
    seq(|cs|, i requires 0 <= i < |cs| => Take(LineOf(cs[i]), SEND_LINEF_MAX - 1))
  }

  const ATTACHED := "attached"
  const STREAM_END := "stream_end"

  function AttachedFormat(kind: string, pid: int32, fd: int32): (ps: PrintedMembers)
    ensures ps != []
  {
    [("type", Text(kind)), ("pid", Number(pid)), ("fd", Number(fd))]
  }

  function EndFormat(kind: string): (ps: PrintedMembers)
    ensures ps != []
  {
    [("type", Text(kind))]
  }

  function AttachedLine(pid: int32, fd: int32): string {
    PrintObject(AttachedFormat(ATTACHED, pid, fd))
  }

  function EndLine(): string {
    PrintObject(EndFormat(STREAM_END))
  }

  /** handle_stream when the trace ends without an error and every send succeeds. */
  function SessionStream(pid: int32, fd: int32, cs: seq<Output>): string
    requires AllSized(cs)
  {
    Framed([AttachedLine(pid, fd)] + (SentLines(cs) + [EndLine()]))
  }

  /** The callbacks whose lines are tried: a large buffer may not be had. */
  function Tried(cs: seq<Output>, mallocs: seq<bool>): seq<Output>
    requires AllSized(cs) && |mallocs| == |cs|
  {
    if cs == [] then []
    else
      var hasBuffer := Base64.EncodedLen(|cs[0].data|) <= STACKBUF || mallocs[0];
      (if hasBuffer then [cs[0]] else []) + Tried(cs[1..], mallocs[1..])
  }

  function EventOf(o: Output): WriteEvent
    requires o.Callback?
  {
    WriteEvent(o.tid, o.ret, |o.data|, o.isWritev, Base64.Encoded(o.data))
  }

  lemma EventKeepsData(o: Output)
    requires o.Callback?
    ensures EventOf(o).Data() == o.data
  {
    Base64.DecodeEncoded(o.data);
  }

  /** The events of the callbacks in a log, in order. */
  function EventsOf(log: seq<Output>): seq<WriteEvent> {
    if log == [] then [] else (if log[0].Callback? then [EventOf(log[0])] else []) + EventsOf(log[1..])
  }

  /** The callbacks before the first overlong line. */
  function BeforeOverlong(cs: seq<Output>): (r: seq<Output>)
    requires AllSized(cs)
    ensures r <= cs && (forall i | 0 <= i < |r| :: !Overlong(r[i])) && (|r| < |cs| ==> Overlong(cs[|r|]))
  {
    if cs == [] || Overlong(cs[0]) then [] else [cs[0]] + BeforeOverlong(cs[1..])
  }

  // ---- Line by line ----

  /** `lines` are read as the callbacks, an overlong one as the end, and end with a line that is read so. */
  ghost predicate ReadAs(next: string -> Next, lines: seq<string>, cs: seq<Output>)
    requires AllSized(cs)
  {
    && |lines| == |cs| + 1 && (forall i | 0 <= i < |lines| :: OneLine(lines[i])) && next(lines[|cs|]) == StreamOver
    && (forall i | 0 <= i < |cs| :: next(lines[i]) == if Overlong(cs[i]) then StreamOver else Event(EventOf(cs[i])))
  }

  lemma NoMore(next: string -> Next, lines: seq<string>)
    requires lines != [] && OneLine(lines[0]) && next(lines[0]) == StreamOver
    ensures ClientEvents(next, Framed(lines)) == []
  {
    FirstLineOf(lines[0], Framed(lines[1..]));
  }

  lemma OneMore(next: string -> Next, lines: seq<string>, w: WriteEvent)
    requires lines != [] && OneLine(lines[0]) && next(lines[0]) == Event(w)
    ensures ClientEvents(next, Framed(lines)) == [w] + ClientEvents(next, Framed(lines[1..]))
  {
    FirstLineOf(lines[0], Framed(lines[1..]));
  }

  lemma EventsHead(c: Output, rest: seq<Output>)
    requires c.Callback?
    ensures EventsOf([c] + rest) == [EventOf(c)] + EventsOf(rest)
  {
    assert ([c] + rest)[1..] == rest;
  }

  lemma ReadAsTail(next: string -> Next, lines: seq<string>, cs: seq<Output>)
    requires AllSized(cs) && ReadAs(next, lines, cs) && cs != []
    ensures AllSized(cs[1..]) && ReadAs(next, lines[1..], cs[1..])
  {
  }

  lemma {:induction false} EventsOfLines(next: string -> Next, lines: seq<string>, cs: seq<Output>)
    requires AllSized(cs) && ReadAs(next, lines, cs)
    ensures ClientEvents(next, Framed(lines)) == EventsOf(BeforeOverlong(cs))
    decreases |cs|
  {
    if cs == [] || Overlong(cs[0]) {
      NoMore(next, lines);
    } else {
      OneMore(next, lines, EventOf(cs[0]));
      ReadAsTail(next, lines, cs);
      EventsOfLines(next, lines[1..], cs[1..]);
      EventsHead(cs[0], BeforeOverlong(cs[1..]));
    }
  }

  lemma LineIsRead(ps: PrintedMembers, ms: Members)
    requires ps != [] && PrintsAll(ps, ms)
    ensures OneLine(PrintObject(ps)) && NextOf(PrintObject(ps)) == NextOfObject(ms)
  {
    PrintedHasNoControls(ps, ms);
    ReadObjectBack(ps, ms);
    NothingToTrim(PrintObject(ps));
  }

  predicate PlainAscii(s: string) {
    PlainText(s) && forall i | 0 <= i < |s| :: s[i] as int < 0x80
  }

  lemma KindIsItself(kind: string)
    requires PlainAscii(kind)
    ensures JsonString.Escape(kind) == kind && JsonString.Repair(kind) == kind
  {
    PlainTextIsItself(kind);
    JsonString.AsciiIsKept(kind);
  }

  lemma KeysArePlain()
    ensures PlainText("type") && PlainText("pid") && PlainText("fd")
  {
  }

  lemma KindsArePlain()
    ensures PlainAscii(ATTACHED) && PlainAscii(STREAM_END)
  {
  }

  function EndValues(kind: string): Members {
    [("type", Str(kind))]
  }

  function AttachedValues(kind: string, pid: int32, fd: int32): Members {
    [("type", Str(kind)), ("pid", Num(pid)), ("fd", Num(fd))]
  }

  lemma EndPrints(kind: string)
    requires PlainAscii(kind)
    ensures PrintsAll(EndFormat(kind), EndValues(kind))
  {
    KeysArePlain();
    KindIsItself(kind);
  }

  lemma AttachedPrints(kind: string, pid: int32, fd: int32)
    requires PlainAscii(kind)
    ensures PrintsAll(AttachedFormat(kind, pid, fd), AttachedValues(kind, pid, fd))
  {
    KeysArePlain();
    KindIsItself(kind);
  }

  /** The part of the envelope Next looks at, of values that hold none of the others. */
  lemma EnvelopeOf(ms: Members, kind: string)
    requires ms != [] && ms[0] == ("type", Str(kind)) && JsonString.Repair(kind) == kind
    requires forall i | 0 < i < |ms| :: ms[i].0 in ["pid", "fd"]
    ensures DecodeEnvelope(ms).Some? && DecodeEnvelope(ms).value.kind == kind
  {
    MemberAt(ms, 0);
    NoMember(ms, "message");
    NoMember(ms, "count");
    NoMember(ms, "total_bytes");
  }

  lemma NextOfKind(ms: Members, kind: string)
    requires DecodeEnvelope(ms).Some? && DecodeEnvelope(ms).value.kind == kind
    ensures kind == STREAM_END ==> NextOfObject(ms) == StreamOver
    ensures kind == ATTACHED ==> NextOfObject(ms) == Ignored
  {
    assert |ATTACHED| == 8 && |STREAM_END| == 10;
    assert |"write"| == 5 && |"error"| == 5 && |"stream_end"| == 10;
  }

  /** Neither line is cut by hsed_send_linef's buffer. */
  lemma FrameIsShort(kind: string, pid: int32, fd: int32)
    requires |kind| <= 10
    ensures |PrintObject(AttachedFormat(kind, pid, fd))| < SEND_LINEF_MAX
    ensures |PrintObject(EndFormat(kind))| < SEND_LINEF_MAX
  {
    Decimal.DecLengths(pid);
    Decimal.DecLengths(fd);
    var ps := AttachedFormat(kind, pid, fd);
    assert ps[1..] == [ps[1], ps[2]] && ps[1..][1..] == [ps[2]];
    assert |PrintMembers([ps[2]])| <= 40 && |PrintMembers([ps[1], ps[2]])| <= 80;
  }

  lemma EndReads(kind: string)
    requires PlainAscii(kind)
    ensures var line, ms := PrintObject(EndFormat(kind)), EndValues(kind);
            && OneLine(line) && NextOf(line) == NextOfObject(ms)
            && DecodeEnvelope(ms).Some? && DecodeEnvelope(ms).value.kind == kind
  {
    EndPrints(kind);
    KindIsItself(kind);
    LineIsRead(EndFormat(kind), EndValues(kind));
    EnvelopeOf(EndValues(kind), kind);
  }

  lemma AttachedReads(kind: string, pid: int32, fd: int32)
    requires PlainAscii(kind)
    ensures var line, ms := PrintObject(AttachedFormat(kind, pid, fd)), AttachedValues(kind, pid, fd);
            && OneLine(line) && NextOf(line) == NextOfObject(ms)
            && DecodeEnvelope(ms).Some? && DecodeEnvelope(ms).value.kind == kind
  {
    AttachedPrints(kind, pid, fd);
    KindIsItself(kind);
    LineIsRead(AttachedFormat(kind, pid, fd), AttachedValues(kind, pid, fd));
    EnvelopeOf(AttachedValues(kind, pid, fd), kind);
  }

  lemma EndIsRead()
    ensures OneLine(EndLine()) && NextOf(EndLine()) == StreamOver
  {
    KindsArePlain();
    EndReads(STREAM_END);
    NextOfKind(EndValues(STREAM_END), STREAM_END);
  }

  lemma AttachedIsRead(pid: int32, fd: int32)
    ensures OneLine(AttachedLine(pid, fd)) && NextOf(AttachedLine(pid, fd)) == Ignored
  {
    KindsArePlain();
    AttachedReads(ATTACHED, pid, fd);
    NextOfKind(AttachedValues(ATTACHED, pid, fd), ATTACHED);
  }

  lemma WriteIsRead(o: Output)
    requires Sized(o)
    ensures var line := Take(LineOf(o), SEND_LINEF_MAX - 1);
            OneLine(line) && NextOf(line) == if Overlong(o) then StreamOver else Event(EventOf(o))
  {
    WriteLineReads(o.tid, o.ret, o.data, o.isWritev);
    WriteEventArrives(o.tid, o.ret, o.data, o.isWritev);
  }

  lemma IgnoredFirst(next: string -> Next, first: string, lines: seq<string>)
    requires OneLine(first) && next(first) == Ignored
    ensures ClientEvents(next, Framed([first] + lines)) == ClientEvents(next, Framed(lines))
  {
    assert ([first] + lines)[1..] == lines;
    FirstLineOf(first, Framed(lines));
  }

  lemma LinesAreRead(cs: seq<Output>)
    requires AllSized(cs)
    ensures ReadAs(NextOf, SentLines(cs) + [EndLine()], cs)
  {
    EndIsRead();
    forall i | 0 <= i < |cs|
      ensures var line := SentLines(cs)[i];
              OneLine(line) && NextOf(line) == if Overlong(cs[i]) then StreamOver else Event(EventOf(cs[i])) {
      WriteIsRead(cs[i]);
    }
  }

  /** Of the callbacks that are sent the client sees exactly those before the first overlong line, each as it was. */
  lemma SessionEvents(pid: int32, fd: int32, cs: seq<Output>)
    requires AllSized(cs)
    ensures ClientEvents(NextOf, SessionStream(pid, fd, cs)) == EventsOf(BeforeOverlong(cs))
  {
    var lines := SentLines(cs) + [EndLine()];
    AttachedIsRead(pid, fd);
    LinesAreRead(cs);
    IgnoredFirst(NextOf, AttachedLine(pid, fd), lines);
    EventsOfLines(NextOf, lines, cs);
  }

  // ---- Whole runs ----

  lemma {:induction false} CallbacksOf(log: seq<Output>)
    ensures forall o | o in Callbacks(log) :: o.Callback? && o in log
  {
    if log != [] { CallbacksOf(log[1..]); }
  }

  predicate Bounded(cfg: Config, log: seq<Output>) {
    forall o | o in log && o.Callback? :: |o.data| <= cfg.maxCapture
  }

  lemma ReportBounded(cfg: Config, m: Threads, w: Wait)
    ensures Bounded(cfg, Handle(cfg, m, w).log)
  {
  }

  lemma {:induction false} RunBounded(cfg: Config, m: Threads, ws: seq<Wait>)
    ensures Bounded(cfg, Run(cfg, m, ws).log)
    decreases |ws|
  {
    if ws != [] {
      ReportBounded(cfg, m, ws[0]);
      var h := Handle(cfg, m, ws[0]);
      if h.outcome.Running? { RunBounded(cfg, h.threads, ws[1..]); }
    }
  }

  lemma {:induction false} TriedAreCallbacks(cs: seq<Output>, mallocs: seq<bool>)
    requires AllSized(cs) && |mallocs| == |cs|
    ensures AllSized(Tried(cs, mallocs))
    ensures (forall i | 0 <= i < |cs| :: Base64.EncodedLen(|cs[i].data|) <= STACKBUF) ==> Tried(cs, mallocs) == cs
  {
    if cs != [] {
      TriedAreCallbacks(cs[1..], mallocs[1..]);
      assert cs == [cs[0]] + cs[1..];
    }
  }

  /** For every run of the loop: the client's events are those of its callbacks, in order, up to the first overlong
      line, less the ones dropped for want of a buffer. */
  lemma RunEvents(cfg: Config, m: Threads, ws: seq<Wait>, cs: seq<Output>, pid: int32, fd: int32, mallocs: seq<bool>)
    requires cs == Callbacks(Run(cfg, m, ws).log) && AllSized(cs) && |mallocs| == |cs|
    ensures var sent := Tried(cs, mallocs);
            AllSized(sent) && ClientEvents(NextOf, SessionStream(pid, fd, sent)) == EventsOf(BeforeOverlong(sent))
  {
    TriedAreCallbacks(cs, mallocs);
    SessionEvents(pid, fd, Tried(cs, mallocs));
  }

  /** The largest capture whose base64 text fits the daemon's stack buffer. */
  const STACK_CAPTURE := 765

  lemma SmallIsNotOverlong(o: Output)
    requires Sized(o) && |o.data| <= STACK_CAPTURE
    ensures !Overlong(o) && Base64.EncodedLen(|o.data|) <= STACKBUF
  {
    WriteLineLength(o.tid, o.ret, o.data, o.isWritev);
  }

  lemma NoneOverlong(cs: seq<Output>)
    requires AllSized(cs) && forall i | 0 <= i < |cs| :: !Overlong(cs[i])
    ensures BeforeOverlong(cs) == cs
  {
  }

  lemma SmallRun(cfg: Config, m: Threads, ws: seq<Wait>, cs: seq<Output>, mallocs: seq<bool>)
    requires cfg.maxCapture <= STACK_CAPTURE
    requires cs == Callbacks(Run(cfg, m, ws).log) && AllSized(cs) && |mallocs| == |cs|
    ensures Tried(cs, mallocs) == cs && BeforeOverlong(cs) == cs
  {
    RunBounded(cfg, m, ws);
    CallbacksOf(Run(cfg, m, ws).log);
    forall i | 0 <= i < |cs| ensures !Overlong(cs[i]) && Base64.EncodedLen(|cs[i].data|) <= STACKBUF {
      assert cs[i] in cs;
      SmallIsNotOverlong(cs[i]);
    }
    TriedAreCallbacks(cs, mallocs);
    NoneOverlong(cs);
  }

  function EventsOfThread(es: seq<WriteEvent>, t: int): seq<WriteEvent> {
    if es == [] then [] else (if es[0].tid == t then [es[0]] else []) + EventsOfThread(es[1..], t)
  }

  lemma {:induction false} EventsSplit(a: seq<Output>, b: seq<Output>)
    ensures EventsOf(a + b) == EventsOf(a) + EventsOf(b)
  {
    if a == [] {
      assert a + b == b;
    } else {
      assert (a + b)[0] == a[0] && (a + b)[1..] == a[1..] + b;
      EventsSplit(a[1..], b);
      Reassociate(if a[0].Callback? then [EventOf(a[0])] else [], EventsOf(a[1..]), EventsOf(b));
    }
  }

  lemma OneEvent(o: Output)
    ensures EventsOf([o]) == if o.Callback? then [EventOf(o)] else []
  {
    assert [o][1..] == [];
  }

  lemma {:induction false} EventsOfCallbacks(log: seq<Output>)
    ensures EventsOf(Callbacks(log)) == EventsOf(log)
  {
    if log != [] {
      var one := if log[0].Callback? then [log[0]] else [];
      EventsOfCallbacks(log[1..]);
      EventsSplit(one, Callbacks(log[1..]));
      if log[0].Callback? { OneEvent(log[0]); }
    }
  }

  lemma {:induction false} ThreadSplits(a: seq<WriteEvent>, b: seq<WriteEvent>, t: int)
    ensures EventsOfThread(a + b, t) == EventsOfThread(a, t) + EventsOfThread(b, t)
  {
    if a == [] {
      assert a + b == b;
    } else {
      assert (a + b)[0] == a[0] && (a + b)[1..] == a[1..] + b;
      ThreadSplits(a[1..], b, t);
      Reassociate(if a[0].tid == t then [a[0]] else [], EventsOfThread(a[1..], t), EventsOfThread(b, t));
    }
  }

  lemma ThreadOfOne(o: Output, t: int)
    ensures EventsOfThread(EventsOf([o]), t) == EventsOf(if o.tid == t then [o] else [])
  {
    OneEvent(o);
    if o.Callback? { assert [EventOf(o)][1..] == []; }
  }

  lemma {:induction false} ThreadOfEvents(log: seq<Output>, t: int)
    ensures EventsOfThread(EventsOf(log), t) == EventsOf(ForThread(log, t))
  {
    if log != [] {
      var head, rest := log[0], log[1..];
      ThreadOfEvents(rest, t);
      ThreadOfOne(head, t);
      assert log == [head] + rest;
      EventsSplit([head], rest);
      ThreadSplits(EventsOf([head]), EventsOf(rest), t);
      EventsSplit(if head.tid == t then [head] else [], ForThread(rest, t));
    }
  }

  /** With captures that fit the stack buffer, as the default of 200 bytes does, the client sees every write of the run,
      in order; and of each thread it sees exactly the writes that thread's syscall stops pair up to. */
  lemma SessionShowsWrites(cfg: Config, m: Threads, ws: seq<Wait>, cs: seq<Output>, pid: int32, fd: int32,
                           mallocs: seq<bool>, t: int)
    requires cfg.maxCapture <= STACK_CAPTURE && NeverFull(cfg, m, ws) && (t in m ==> !m[t].inSyscall)
    requires cs == Callbacks(Run(cfg, m, ws).log) && AllSized(cs) && |mallocs| == |cs|
    ensures AllSized(Tried(cs, mallocs))
    ensures var seen := ClientEvents(NextOf, SessionStream(pid, fd, Tried(cs, mallocs)));
            && seen == EventsOf(cs)
            && EventsOfThread(seen, t) == EventsOf(ExpectedWrites(cfg, t, t in m, InputsOf(cfg, m, ws, t)))
  {
    var log := Run(cfg, m, ws).log;
    SmallRun(cfg, m, ws, cs, mallocs);
    SessionEvents(pid, fd, cs);
    EventsOfCallbacks(log);
    ThreadOfEvents(log, t);
    RunPairsSyscalls(cfg, m, ws, t);
    EventsOfCallbacks(ForThread(log, t));
  }
}
