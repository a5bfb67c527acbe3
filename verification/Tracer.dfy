/** The tracer's event loop on values (tracer.c): one report of waitpid at a time, a map from tracked threads to
    their stepping state, and the log of ptrace requests and write callbacks. */
module Tracer {
  import opened Words
  import Capture

  const MAX_TRACKED_TIDS := 512
  const MAX_CAPTURE_HARD_LIMIT := 65536
  const SIGTRAP := 5
  const SIGSTOP := 19
  const SYSCALL_STOP := 0x85  // SIGTRAP | 0x80
  const PTRACE_EVENT_CLONE := 3

  datatype Syscall = Write | Pwrite64 | Writev | Other

  /** The registers the tracer looks at, already in terms of number, arguments and return value. */
  datatype Regs = Regs(nr: Syscall, arg1: int, arg2: nat, arg3: nat, ret: int)

  /** What one stop lets the tracer see: registers (None: the read failed), event message, memory. */
  datatype Sight = Sight(regs: Option<Regs>, eventMsg: Option<nat>, mem: Capture.Memory)

  datatype Status = Exited | Signaled | NotStopped | Stopped(sig: nat, event: nat)

  /** One answer of waitpid, with the answer of poll_cb when nothing was ready. */
  datatype Wait =
    | Idle(clientAlive: bool)
    | Failed(echild: bool)
    | Reported(tid: int, status: Status, sight: Sight)

  datatype Thread = Thread(inSyscall: bool, capturing: bool, isWritev: bool, bufAddr: nat, iovcnt: nat)
  const ZEROED := Thread(false, false, false, 0, 0)

  type Threads = map<int, Thread>

  datatype Output =
    | SeizeFailed(tid: int)
    | Seized(tid: int)
    | Interrupt(tid: int)
    | Resume(tid: int, sig: nat)   // PTRACE_SYSCALL
    | Continue(tid: int)           // PTRACE_CONT
    | Detach(tid: int)
    | Callback(tid: int, ret: int, data: seq<byte>, isWritev: bool)

  datatype Config = Config(fd: int, maxCapture: nat)

  datatype Outcome = Running | ClientGone | NoChildren | AllExited

  /** 0 means the default of 200 bytes; anything larger than the hard limit is cut to it. */
  function CaptureLimit(requested: nat): (r: nat)
    ensures 0 < r <= MAX_CAPTURE_HARD_LIMIT
    ensures 0 < requested <= MAX_CAPTURE_HARD_LIMIT ==> r == requested
    ensures requested > MAX_CAPTURE_HARD_LIMIT ==> r == MAX_CAPTURE_HARD_LIMIT
  {
    if requested == 0 then 200 else Min(requested, MAX_CAPTURE_HARD_LIMIT)
  }

  // ---- One stop of one tracked thread ----

  predicate TargetsFd(cfg: Config, regs: Option<Regs>) {
    regs.Some? && !regs.value.nr.Other? && regs.value.arg1 == cfg.fd
  }

  function Entered(cfg: Config, th: Thread, sight: Sight): Thread {
    if !TargetsFd(cfg, sight.regs) then th.(inSyscall := true, capturing := false)
    else
      var r := sight.regs.value;
      Thread(true, true, r.nr.Writev?, r.arg2, if r.nr.Writev? then r.arg3 else 0)
  }

  function Payload(cfg: Config, th: Thread, ret: int, mem: Capture.Memory): (r: seq<byte>)
    ensures |r| <= cfg.maxCapture
    ensures !th.isWritev && ret >= 0 ==> |r| <= ret
    ensures ret <= 0 ==> r == []
  {
    if ret <= 0 then []
    else if th.isWritev then Capture.WritevPreview(mem, th.bufAddr, th.iovcnt, cfg.maxCapture)
    else Capture.PlainPreview(mem, th.bufAddr, ret, cfg.maxCapture)
  }

  function CallbackAt(cfg: Config, tid: int, th: Thread, sight: Sight): Output
    requires sight.regs.Some?
  {
    var ret := sight.regs.value.ret;
    Callback(tid, ret, Payload(cfg, th, ret, sight.mem), th.isWritev)
  }

  predicate IsSyscallStop(status: Status) {
    status.Stopped? && status.sig == SYSCALL_STOP
  }

  predicate IsCloneStop(status: Status) {
    status.Stopped? && status.sig == SIGTRAP && status.event == PTRACE_EVENT_CLONE
  }

  /** The signal handed back to the thread when it is resumed. */
  function Reinjected(status: Status): nat {
    if status.Stopped? && status.sig !in {SYSCALL_STOP, SIGTRAP, SIGSTOP} then status.sig else 0
  }

  function AfterStop(cfg: Config, th: Thread, status: Status, sight: Sight): Thread {
    if !IsSyscallStop(status) then th
    else if !th.inSyscall then Entered(cfg, th, sight)
    else th.(inSyscall := false, capturing := false)
  }

  function CallbacksAtStop(cfg: Config, tid: int, th: Thread, status: Status, sight: Sight): seq<Output> {
    if IsSyscallStop(status) && th.inSyscall && th.capturing && sight.regs.Some?
    then [CallbackAt(cfg, tid, th, sight)]
    else []
  }

  function OutputsAtStop(cfg: Config, tid: int, th: Thread, status: Status, sight: Sight): seq<Output> {
    CallbacksAtStop(cfg, tid, th, status, sight) + [Resume(tid, Reinjected(status))]
  }

  // ---- One report, on the whole table ----

  /** The thread a stop of a tracked thread announces, if it is a clone event whose message could be read. */
  function Announced(status: Status, sight: Sight): Option<int> {
    if IsCloneStop(status) && sight.eventMsg.Some? then Some(ToInt32(sight.eventMsg.value)) else None
  }

  /** find_or_add_tid on the map: a new thread starts zeroed, unless the table is full. */
  function FindOrAdd(m: Threads, tid: int): Threads {
    if tid in m || |m| >= MAX_TRACKED_TIDS then m else m[tid := ZEROED]
  }

  function FindOrAddAnnounced(m: Threads, child: Option<int>): Threads {
    if child.Some? then FindOrAdd(m, child.value) else m
  }

  datatype Handled = Handled(threads: Threads, log: seq<Output>, outcome: Outcome)

  /** A report of a thread in the table `m`, to which it may just have been added. */
  function HandleTracked(cfg: Config, m: Threads, tid: int, wasNew: bool, status: Status, sight: Sight): Handled
    requires tid in m
  {
    match status
    case Exited | Signaled =>
      var left := m - {tid};
      Handled(left, [], if left == map[] then AllExited else Running)
    case NotStopped => Handled(m, [], Running)
    case Stopped(_, _) =>
      if wasNew then Handled(m, [Resume(tid, 0)], Running)
      else
        var stepped := m[tid := AfterStop(cfg, m[tid], status, sight)];
        Handled(FindOrAddAnnounced(stepped, Announced(status, sight)),
                OutputsAtStop(cfg, tid, m[tid], status, sight), Running)
  }

  function HandleReport(cfg: Config, m: Threads, tid: int, status: Status, sight: Sight): Handled {
    var known := FindOrAdd(m, tid);
    if tid !in known then Handled(m, [Continue(tid)], Running)
    else HandleTracked(cfg, known, tid, tid !in m, status, sight)
  }

  function Handle(cfg: Config, m: Threads, w: Wait): Handled {
    match w
    case Idle(alive) => Handled(m, [], if alive then Running else ClientGone)
    case Failed(echild) => Handled(m, [], if echild then NoChildren else Running)
    case Reported(tid, status, sight) => HandleReport(cfg, m, tid, status, sight)
  }

  datatype RunResult = RunResult(threads: Threads, log: seq<Output>, outcome: Outcome, consumed: nat)

  /** The loop over the answers of waitpid; `log` leaves out the final detach after ClientGone. */
  function Run(cfg: Config, m: Threads, ws: seq<Wait>): (r: RunResult)
    ensures r.consumed <= |ws|
    ensures r.outcome.Running? ==> r.consumed == |ws|
    decreases |ws|
  {
    if ws == [] then RunResult(m, [], Running, 0)
    else
      var h := Handle(cfg, m, ws[0]);
      if !h.outcome.Running? then RunResult(h.threads, h.log, h.outcome, 1)
      else
        var r := Run(cfg, h.threads, ws[1..]);
        RunResult(r.threads, h.log + r.log, r.outcome, r.consumed + 1)
  }

  /** The requests of the final detach, thread by thread. */
  function StopLog(order: seq<int>): seq<Output> {
    if order == [] then [] else [Interrupt(order[0]), Detach(order[0])] + StopLog(order[1..])
  }
}
