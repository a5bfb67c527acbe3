/** The tracer as it runs (tracer.c): a bounded table of thread states updated in place, the attach phase, the event
    loop and the detach, proved against the loop on values. */
module TraceSession {
  import opened Words
  import Capture
  import opened Tracer

  datatype Slot = Slot(tid: int, st: Thread)

  datatype SeizeAnswer = SeizeOk | SeizeEperm | SeizeOther

  /** How the kernel answers while one discovered thread is attached. */
  datatype AttachAnswers = AttachAnswers(tid: int, seize: seq<SeizeAnswer>, interruptOk: bool, stopped: bool,
                                         resumeOk: bool)

  const SEIZE_ATTEMPTS := 5

  // ---- The table as a sequence of slots standing for a map ----

  /** `s` holds each thread of `m` exactly once. */
  ghost predicate Represents(s: seq<Slot>, m: Threads) {
    && |s| == |m|
    && (forall i | 0 <= i < |s| :: s[i].tid in m && m[s[i].tid] == s[i].st)
    && (forall i, j | 0 <= i < j < |s| :: s[i].tid != s[j].tid)
  }

  lemma {:induction false} EveryThreadHasASlot(s: seq<Slot>, m: Threads, tid: int) returns (i: nat)
    requires Represents(s, m) && tid in m
    ensures i < |s| && s[i].tid == tid
  {
    i := 0;
    if s == [] {
      assert false;
    } else if s[|s| - 1].tid == tid {
      i := |s| - 1;
    } else {
      var last := s[|s| - 1];
      var rest := m - {last.tid};
      assert m == rest[last.tid := last.st];
      i := EveryThreadHasASlot(s[..|s| - 1], rest, tid);
    }
  }

  lemma AppendRepresents(s: seq<Slot>, m: Threads, tid: int)
    requires Represents(s, m) && tid !in m
    ensures Represents(s + [Slot(tid, ZEROED)], m[tid := ZEROED])
  {
  }

  lemma UpdateRepresents(s: seq<Slot>, m: Threads, i: nat, st: Thread)
    requires Represents(s, m) && i < |s|
    ensures Represents(s[i := Slot(s[i].tid, st)], m[s[i].tid := st])
  {
  }

  /** The swap with the last slot: exactly the removed thread goes, and no other state moves to another thread. */
  lemma SwapOutRepresents(s: seq<Slot>, m: Threads, i: nat)
    requires Represents(s, m) && i < |s|
    ensures Represents(s[i := s[|s| - 1]][..|s| - 1], m - {s[i].tid})
  {
    var m' := m - {s[i].tid};
    assert m == m'[s[i].tid := s[i].st];
  }

  function Tids(s: seq<Slot>): (r: seq<int>)
    ensures |r| == |s| && forall i | 0 <= i < |s| :: r[i] == s[i].tid
  {
    if s == [] then [] else [s[0].tid] + Tids(s[1..])
  }

  lemma TidsAreTheKeys(s: seq<Slot>, m: Threads)
    requires Represents(s, m)
    ensures Distinct(Tids(s)) && forall tid :: tid in Tids(s) <==> tid in m
  {
    forall tid | tid in m ensures tid in Tids(s) {
      var i := EveryThreadHasASlot(s, m, tid);
      assert Tids(s)[i] == tid;
    }
  }

  predicate Distinct(s: seq<int>) {
    forall i, j | 0 <= i < j < |s| :: s[i] != s[j]
  }

  lemma {:induction false} StopLogGrows(order: seq<int>, tid: int)
    ensures StopLog(order + [tid]) == StopLog(order) + [Interrupt(tid), Detach(tid)]
  {
    if order == [] {
      assert ([] + [tid])[1..] == [];
    } else {
      assert (order + [tid])[1..] == order[1..] + [tid];
      StopLogGrows(order[1..], tid);
    }
  }

  lemma DetachStep(before: seq<Output>, order: seq<int>, i: nat)
    requires i < |order|
    ensures before + StopLog(order[..i + 1]) == before + StopLog(order[..i]) + [Interrupt(order[i]), Detach(order[i])]
  {
    assert order[..i + 1] == order[..i] + [order[i]];
    StopLogGrows(order[..i], order[i]);
    Reassociate(before, StopLog(order[..i]), [Interrupt(order[i]), Detach(order[i])]);
  }

  function Detaches(log: seq<Output>, tid: int): nat {
    if log == [] then 0 else (if log[0] == Detach(tid) then 1 else 0) + Detaches(log[1..], tid)
  }

  /** The final detach asks for each tracked thread exactly once, and for no other. */
  lemma {:induction false} DetachedOnce(order: seq<int>, tid: int)
    requires Distinct(order)
    ensures Detaches(StopLog(order), tid) == if tid in order then 1 else 0
  {
    if order != [] {
      var log := StopLog(order);
      DetachedOnce(order[1..], tid);
      assert log[1..][1..] == StopLog(order[1..]);
      assert Detaches(log, tid) == Detaches(log[1..], tid);
    }
  }

  // ---- The attach phase on values ----

  function SeizeAnswerAt(seize: seq<SeizeAnswer>, k: nat): SeizeAnswer {
    if k < |seize| then seize[k] else SeizeOther
  }

  /** One of the first five attempts succeeds and all before it failed with EPERM. */
  predicate SeizeSucceeds(seize: seq<SeizeAnswer>) {
    exists k | 0 <= k < SEIZE_ATTEMPTS ::
      SeizeAnswerAt(seize, k).SeizeOk? && forall j | 0 <= j < k :: SeizeAnswerAt(seize, j).SeizeEperm?
  }

  function Failures(tid: int, n: nat): seq<Output> {
    seq(n, _ => SeizeFailed(tid))
  }

  /** Attaching one thread: it ends up resumed, or detached, or never seized. */
  predicate Attachable(a: AttachAnswers) {
    SeizeSucceeds(a.seize) && a.interruptOk && a.stopped && a.resumeOk
  }

  /** What is requested of a thread once it is seized. */
  function AfterSeize(a: AttachAnswers): seq<Output> {
    if !a.interruptOk || !a.stopped then [Interrupt(a.tid), Detach(a.tid)]
    else if a.resumeOk then [Interrupt(a.tid), Resume(a.tid, 0)]
    else [Interrupt(a.tid), Resume(a.tid, 0), Detach(a.tid)]
  }

  function AttachRequests(a: AttachAnswers): seq<Output> {
    if SeizeSucceeds(a.seize) then [Seized(a.tid)] + AfterSeize(a) else []
  }

  lemma AttachLogIs(before: seq<Output>, after: seq<Output>, a: AttachAnswers, failed: nat, ok: bool)
    requires ok <==> SeizeSucceeds(a.seize)
    requires var seized := before + Failures(a.tid, failed) + if ok then [Seized(a.tid)] else [];
             after == if ok then seized + AfterSeize(a) else seized
    ensures after == before + (Failures(a.tid, failed) + AttachRequests(a))
  {
    if ok {
      Reassociate(before + Failures(a.tid, failed), [Seized(a.tid)], AfterSeize(a));
      Reassociate(before, Failures(a.tid, failed), [Seized(a.tid)] + AfterSeize(a));
    } else {
      Reassociate(before, Failures(a.tid, failed), []);
    }
  }

  /** `log` is what attaching this thread requested, after the seize attempts that failed. */
  ghost predicate IsAttachLog(a: AttachAnswers, log: seq<Output>) {
    exists failed: nat :: failed <= SEIZE_ATTEMPTS && log == Failures(a.tid, failed) + AttachRequests(a)
  }

  function AttachedThreads(attempts: seq<AttachAnswers>): (r: Threads)
    ensures forall tid | tid in r :: r[tid] == ZEROED
  {
    if attempts == [] then map[]
    else
      var last := attempts[|attempts| - 1];
      var before := AttachedThreads(attempts[..|attempts| - 1]);
      if Attachable(last) then before[last.tid := ZEROED] else before
  }

  /** The last request that touched the attachment of `tid`; failed seizes leave it alone. */
  function LastRequest(log: seq<Output>, tid: int): Option<Output> {
    if log == [] then None
    else
      var last := log[|log| - 1];
      if last.tid == tid && !last.SeizeFailed? && !last.Callback? then Some(last)
      else LastRequest(log[..|log| - 1], tid)
  }

  /** Tracked threads were resumed last; any other thread that was ever seized was detached last. */
  ghost predicate Accounted(log: seq<Output>, m: Threads) {
    && (forall tid | tid in m :: Seized(tid) in log && LastRequest(log, tid) == Some(Resume(tid, 0)))
    && (forall tid | tid !in m && Seized(tid) in log :: LastRequest(log, tid) == Some(Detach(tid)))
  }

  lemma {:induction false} OthersDoNotCount(log: seq<Output>, more: seq<Output>, tid: int)
    requires forall o | o in more :: o.tid != tid || o.SeizeFailed?
    ensures LastRequest(log + more, tid) == LastRequest(log, tid)
  {
    if more == [] {
      assert log + more == log;
    } else {
      var last := |more| - 1;
      assert (log + more)[..|log + more| - 1] == log + more[..last];
      assert more[last] in more;
      OthersDoNotCount(log, more[..last], tid);
    }
  }

  lemma LastOfSeized(log: seq<Output>, fails: seq<Output>, a: AttachAnswers)
    requires SeizeSucceeds(a.seize)
    ensures var all := log + (fails + AttachRequests(a));
            && Seized(a.tid) in all
            && LastRequest(all, a.tid) == Some(if Attachable(a) then Resume(a.tid, 0) else Detach(a.tid))
  {
    var reqs := AfterSeize(a);
    var all := log + (fails + ([Seized(a.tid)] + reqs));
    assert all[|log| + |fails|] == Seized(a.tid);
    assert all[|all| - 1] == reqs[|reqs| - 1];
  }

  lemma AttachLogConcerns(a: AttachAnswers, fails: seq<Output>, failed: nat)
    requires fails == Failures(a.tid, failed)
    ensures forall o | o in fails + AttachRequests(a) :: o.tid == a.tid && (!SeizeSucceeds(a.seize) ==> o.SeizeFailed?)
  {
  }

  lemma OneMoreAttached(log: seq<Output>, m: Threads, a: AttachAnswers, more: seq<Output>)
    requires Accounted(log, m) && IsAttachLog(a, more)
    requires a.tid !in m && Seized(a.tid) !in log
    ensures Accounted(log + more, if Attachable(a) then m[a.tid := ZEROED] else m)
    ensures forall tid | Seized(tid) in log + more :: tid == a.tid || Seized(tid) in log
  {
    var failed: nat :| failed <= SEIZE_ATTEMPTS && more == Failures(a.tid, failed) + AttachRequests(a);
    var m' := if Attachable(a) then m[a.tid := ZEROED] else m;
    AttachLogConcerns(a, Failures(a.tid, failed), failed);
    if SeizeSucceeds(a.seize) { LastOfSeized(log, Failures(a.tid, failed), a); }
    forall tid ensures tid in m' ==> Seized(tid) in log + more && LastRequest(log + more, tid) == Some(Resume(tid, 0))
               ensures tid !in m' && Seized(tid) in log + more ==> LastRequest(log + more, tid) == Some(Detach(tid)) {
      if tid != a.tid || !SeizeSucceeds(a.seize) { OthersDoNotCount(log, more, tid); }
    }
  }

  ghost predicate AttachedUpTo(attempts: seq<AttachAnswers>, i: nat, log: seq<Output>, m: Threads)
    requires i <= |attempts|
  {
    && Accounted(log, m) && |m| <= i
    && m == AttachedThreads(attempts[..i])
    && (forall j | i <= j < |attempts| :: attempts[j].tid !in m && Seized(attempts[j].tid) !in log)
  }

  lemma AttachStep(attempts: seq<AttachAnswers>, i: nat, log: seq<Output>, m: Threads, more: seq<Output>)
    requires i < |attempts| && AttachedUpTo(attempts, i, log, m)
    requires forall j, k | 0 <= j < k < |attempts| :: attempts[j].tid != attempts[k].tid
    requires IsAttachLog(attempts[i], more)
    ensures AttachedUpTo(attempts, i + 1, log + more,
                         if Attachable(attempts[i]) then m[attempts[i].tid := ZEROED] else m)
  {
    OneMoreAttached(log, m, attempts[i], more);
    assert attempts[..i + 1][..i] == attempts[..i];
  }

  /** A run on its way to (`threads`, `log`, `outcome`): what is left of it from the table `m` completes `sofar`. */
  ghost predicate Midway(cfg: Config, goal: Handled, m: Threads, rest: seq<Wait>, sofar: seq<Output>,
                         outcome: Outcome) {
    if outcome.Running? then
      var left := Run(cfg, m, rest);
      goal == Handled(left.threads, sofar + left.log, left.outcome)
    else goal == Handled(m, sofar, outcome)
  }

  lemma MidwayStep(cfg: Config, goal: Handled, m: Threads, wait: Wait, rest: seq<Wait>, sofar: seq<Output>)
    requires Midway(cfg, goal, m, [wait] + rest, sofar, Running)
    ensures var h := Handle(cfg, m, wait); Midway(cfg, goal, h.threads, rest, sofar + h.log, h.outcome)
  {
    var h := Handle(cfg, m, wait);
    assert ([wait] + rest)[1..] == rest;
    if h.outcome.Running? {
      assert sofar + (h.log + Run(cfg, h.threads, rest).log) == sofar + h.log + Run(cfg, h.threads, rest).log;
    }
  }

  lemma MidwayAtEnd(cfg: Config, goal: Handled, m: Threads, rest: seq<Wait>, sofar: seq<Output>, outcome: Outcome)
    requires Midway(cfg, goal, m, rest, sofar, outcome) && (rest == [] || !outcome.Running?)
    ensures goal == Handled(m, sofar, outcome)
  {
  }

  class Session {
    const slots: array<Slot>
    var ntids: nat
    ghost var threads: Threads
    ghost var log: seq<Output>

    ghost predicate Valid()
      reads this, slots
    {
      slots.Length == MAX_TRACKED_TIDS && ntids <= MAX_TRACKED_TIDS && Represents(slots[..ntids], threads)
    }

    constructor ()
      ensures Valid() && threads == map[] && log == [] && fresh(slots)
    {
      slots := new Slot[MAX_TRACKED_TIDS];
      ntids, threads, log := 0, map[], [];
    }

    /** The slot of `tid`, added zeroed when it is new; None when the table is full. */
    method FindOrAddTid(tid: int) returns (slot: Option<nat>, wasNew: bool)
      requires Valid()
      modifies `ntids, `threads, slots
      ensures Valid() && threads == FindOrAdd(old(threads), tid)
      ensures slot.Some? <==> tid in threads
      ensures slot.Some? ==> slot.value < ntids && slots[slot.value].tid == tid
      ensures wasNew <==> tid !in old(threads) && tid in threads
    {
      for i := 0 to ntids
        invariant forall j | 0 <= j < i :: slots[j].tid != tid
      {
        if slots[i].tid == tid {
          assert slots[..ntids][i].tid in threads;
          return Some(i), false;
        }
      }
      if tid in threads {
        var i := EveryThreadHasASlot(slots[..ntids], threads, tid);
        assert false;
      }
      if ntids >= MAX_TRACKED_TIDS { return None, false; }
      AppendRepresents(slots[..ntids], threads, tid);
      slots[ntids] := Slot(tid, ZEROED);
      threads := threads[tid := ZEROED];
      slot, wasNew := Some(ntids), true;
      ntids := ntids + 1;
      assert slots[..ntids] == old(slots[..ntids]) + [Slot(tid, ZEROED)];
    }

    /** Swaps the last slot into the place of `tid`; only that thread goes. */
    method RemoveTid(tid: int)
      requires Valid()
      modifies `ntids, `threads, slots
      ensures Valid() && threads == old(threads) - {tid}
    {
      var i := 0;
      while i < ntids && slots[i].tid != tid
        invariant i <= ntids && forall j | 0 <= j < i :: slots[j].tid != tid
      {
        i := i + 1;
      }
      if i < ntids {
        SwapOutRepresents(slots[..ntids], threads, i);
        slots[i] := slots[ntids - 1];
        ntids := ntids - 1;
        threads := threads - {tid};
        ghost var s := old(slots[..ntids]);
        assert slots[..ntids] == s[i := s[|s| - 1]][..|s| - 1];
      } else if tid in threads {
        var j := EveryThreadHasASlot(slots[..ntids], threads, tid);
        assert false;
      } else {
        assert threads == threads - {tid};
      }
    }

    method SetThread(i: nat, st: Thread)
      requires Valid() && i < ntids
      modifies `threads, slots
      ensures Valid() && threads == old(threads)[old(slots[i]).tid := st]
      ensures slots[i].tid == old(slots[i]).tid
    {
      UpdateRepresents(slots[..ntids], threads, i, st);
      threads := threads[slots[i].tid := st];
      slots[i] := Slot(slots[i].tid, st);
      assert slots[..ntids] == old(slots[..ntids])[i := slots[i]];
    }

    // ---- Attach ----

    /** Up to five attempts, retried only after EPERM. */
    method Seize(a: AttachAnswers) returns (ok: bool, ghost failed: nat)
      modifies `log
      ensures ok <==> SeizeSucceeds(a.seize)
      ensures failed <= SEIZE_ATTEMPTS
      ensures log == old(log) + Failures(a.tid, failed) + if ok then [Seized(a.tid)] else []
    {
      ok, failed := false, 0;
      var attempt := 0;
      while attempt < SEIZE_ATTEMPTS
        invariant failed == attempt <= SEIZE_ATTEMPTS
        invariant forall j | 0 <= j < attempt :: SeizeAnswerAt(a.seize, j).SeizeEperm?
        invariant log == old(log) + Failures(a.tid, failed)
      {
        var answer := SeizeAnswerAt(a.seize, attempt);
        if answer.SeizeOk? {
          log := log + [Seized(a.tid)];
          return true, failed;
        }
        assert Failures(a.tid, failed) + [SeizeFailed(a.tid)] == Failures(a.tid, failed + 1);
        log := log + [SeizeFailed(a.tid)];
        failed := failed + 1;
        if !answer.SeizeEperm? { break; }
        attempt := attempt + 1;
      }
    }

    /** After a seize that succeeded: the thread ends up tracked and resumed, or detached. */
    method AttachSeized(a: AttachAnswers)
      requires Valid() && a.tid !in threads && |threads| < MAX_TRACKED_TIDS
      modifies this, slots
      ensures Valid()
      ensures threads
           == if a.interruptOk && a.stopped && a.resumeOk then old(threads)[a.tid := ZEROED] else old(threads)
      ensures log == old(log) + AfterSeize(a)
    {
      if !a.interruptOk || !a.stopped {
        log := log + [Interrupt(a.tid), Detach(a.tid)];
      } else {
        var slot, _ := FindOrAddTid(a.tid);
        if a.resumeOk {
          log := log + [Interrupt(a.tid), Resume(a.tid, 0)];
        } else {
          RemoveTid(a.tid);
          assert threads == old(threads);
          log := log + [Interrupt(a.tid), Resume(a.tid, 0), Detach(a.tid)];
        }
      }
    }

    method AttachOne(a: AttachAnswers) returns (ghost more: seq<Output>)
      requires Valid() && a.tid !in threads && |threads| < MAX_TRACKED_TIDS
      modifies this, slots
      ensures Valid() && threads == if Attachable(a) then old(threads)[a.tid := ZEROED] else old(threads)
      ensures log == old(log) + more && IsAttachLog(a, more)
    {
      var ok, failed := Seize(a);
      if ok { AttachSeized(a); }
      more := Failures(a.tid, failed) + AttachRequests(a);
      AttachLogIs(old(log), log, a, failed, ok);
    }

    /** Seizes every discovered thread. The kernel lists each thread of a process once, at most 512 are asked for. */
    method Attach(attempts: seq<AttachAnswers>) returns (attached: bool)
      requires Valid() && threads == map[] && log == []
      requires |attempts| <= MAX_TRACKED_TIDS
      requires forall i, j | 0 <= i < j < |attempts| :: attempts[i].tid != attempts[j].tid
      modifies this, slots
      ensures Valid() && threads == AttachedThreads(attempts)
      ensures Accounted(log, threads)
      ensures attached <==> threads != map[]
    {
      for i := 0 to |attempts|
        invariant Valid() && AttachedUpTo(attempts, i, log, threads)
      {
        ghost var m, before := threads, log;
        ghost var more := AttachOne(attempts[i]);
        AttachStep(attempts, i, before, m, more);
      }
      assert attempts[..|attempts|] == attempts;
      attached := ntids != 0;
    }

    // ---- The event loop ----

    /** One write of a tracked thread, shown through the capture buffer. */
    method ReportWrite(cfg: Config, tid: int, th: Thread, sight: Sight, capture: array<byte>)
      requires sight.regs.Some? && capture.Length == cfg.maxCapture
      modifies `log, capture
      ensures log == old(log) + [CallbackAt(cfg, tid, th, sight)]
    {
      var ret := sight.regs.value.ret;
      var got := 0;
      if ret > 0 {
        if th.isWritev {
          got := Capture.CaptureWritev(sight.mem, th.bufAddr, th.iovcnt, capture);
        } else {
          var want := if ret < cfg.maxCapture then ret else cfg.maxCapture;
          got := Capture.ReadInto(sight.mem, 0, th.bufAddr, capture, 0, want);
        }
      }
      log := log + [Callback(tid, ret, capture[..got], th.isWritev)];
    }

    method HandleSyscallStop(cfg: Config, slot: nat, sight: Sight, capture: array<byte>)
      requires Valid() && slot < ntids && capture.Length == cfg.maxCapture
      modifies this, slots, capture
      ensures Valid() && slot < ntids && slots[slot].tid == old(slots[slot].tid)
      ensures var tid, th, stop := old(slots[slot]).tid, old(slots[slot]).st, Stopped(SYSCALL_STOP, 0);
              threads == old(threads)[tid := AfterStop(cfg, th, stop, sight)] &&
              log == old(log) + CallbacksAtStop(cfg, tid, th, stop, sight)
    {
      var tid, th := slots[slot].tid, slots[slot].st;
      if !th.inSyscall {
        var th' := th.(capturing := false);
        if TargetsFd(cfg, sight.regs) {
          var regs := sight.regs.value;
          th' := th'.(capturing := true, isWritev := regs.nr.Writev?, bufAddr := regs.arg2,
                      iovcnt := if regs.nr.Writev? then regs.arg3 else 0);
        }
        SetThread(slot, th'.(inSyscall := true));
      } else {
        if th.capturing && sight.regs.Some? {
          ReportWrite(cfg, tid, th, sight, capture);
        }
        SetThread(slot, th.(inSyscall := false, capturing := false));
      }
    }

    /** An exit; the answer says whether no thread is left. */
    method Leave(tid: int) returns (last: bool)
      requires Valid()
      modifies this, slots
      ensures Valid() && threads == old(threads) - {tid} && log == old(log) && last == (threads == map[])
    {
      RemoveTid(tid);
      last := ntids == 0;
    }

    /** A report of waitpid; the answer says whether the last thread has gone. */
    method HandleReported(cfg: Config, tid: int, status: Status, sight: Sight, capture: array<byte>)
      returns (done: bool)
      requires Valid() && capture.Length == cfg.maxCapture
      modifies this, slots, capture
      ensures Valid()
      ensures var h := HandleReport(cfg, old(threads), tid, status, sight);
              threads == h.threads && log == old(log) + h.log && done == h.outcome.AllExited?
    {
      var slot, wasNew := FindOrAddTid(tid);
      if slot.None? {
        log := log + [Continue(tid)];
        done := false;
      } else {
        done := HandleSlot(cfg, slot.value, wasNew, status, sight, capture);
      }
    }

    /** The same for the thread in a slot. */
    method HandleSlot(cfg: Config, slot: nat, wasNew: bool, status: Status, sight: Sight, capture: array<byte>)
      returns (done: bool)
      requires Valid() && slot < ntids && slots[slot].tid in threads && capture.Length == cfg.maxCapture
      modifies this, slots, capture
      ensures Valid()
      ensures var h := HandleTracked(cfg, old(threads), old(slots[slot].tid), wasNew, status, sight);
              threads == h.threads && log == old(log) + h.log && done == h.outcome.AllExited?
    {
      var tid := slots[slot].tid;
      assert slots[..ntids][slot].tid == tid && threads[tid] == slots[slot].st;
      done := false;
      match status
      case Exited | Signaled =>
        done := Leave(tid);
      case NotStopped =>
      case Stopped(sig, event) =>
        if wasNew {
          log := log + [Resume(tid, 0)];
        } else {
          HandleStopped(cfg, slot, sig, event, sight, capture);
        }
    }

    method HandleStopped(cfg: Config, slot: nat, sig: nat, event: nat, sight: Sight, capture: array<byte>)
      requires Valid() && slot < ntids && capture.Length == cfg.maxCapture
      modifies this, slots, capture
      ensures Valid()
      ensures var tid, th, stop := old(slots[slot]).tid, old(slots[slot]).st, Stopped(sig, event);
              threads == FindOrAddAnnounced(old(threads)[tid := AfterStop(cfg, th, stop, sight)],
                                            Announced(stop, sight)) &&
              log == old(log) + OutputsAtStop(cfg, tid, th, stop, sight)
    {
      var tid := slots[slot].tid;
      if sig == SYSCALL_STOP {
        HandleSyscallStop(cfg, slot, sight, capture);
        log := log + [Resume(tid, 0)];
      } else {
        assert threads == threads[tid := slots[slot].st];
        if sig == SIGTRAP {
          if event == PTRACE_EVENT_CLONE && sight.eventMsg.Some? {
            var _, _ := FindOrAddTid(ToInt32(sight.eventMsg.value));
          }
          log := log + [Resume(tid, 0)];
        } else if sig == SIGSTOP {
          log := log + [Resume(tid, 0)];
        } else {
          log := log + [Resume(tid, sig)];
        }
      }
    }

    /** The requests for the first `i` slots. */
    method DetachSlots() returns (ghost order: seq<int>)
      requires ntids <= slots.Length
      modifies `log
      ensures order == Tids(slots[..ntids]) && log == old(log) + StopLog(order)
    {
      order := Tids(slots[..ntids]);
      ghost var before := log;
      assert order[..0] == [] && before + [] == before;
      for i := 0 to ntids
        invariant log == before + StopLog(order[..i])
      {
        DetachStep(before, order, i);
        assert order[i] == slots[..ntids][i].tid;
        log := log + [Interrupt(slots[i].tid), Detach(slots[i].tid)];
      }
      assert order[..ntids] == order;
    }

    /** Interrupts and detaches every tracked thread once. */
    method DetachAll()
      requires Valid()
      modifies `log
      ensures var order := Tids(slots[..ntids]);
              Distinct(order) && (forall tid :: tid in order <==> tid in threads) &&
              log == old(log) + StopLog(order)
    {
      TidsAreTheKeys(slots[..ntids], threads);
      ghost var order := DetachSlots();
    }

    method HandleWait(cfg: Config, wait: Wait, capture: array<byte>) returns (outcome: Outcome)
      requires Valid() && capture.Length == cfg.maxCapture
      modifies this, slots, capture
      ensures Valid()
      ensures var h := Handle(cfg, old(threads), wait);
              threads == h.threads && outcome == h.outcome && log == old(log) + h.log
    {
      outcome := Running;
      match wait
      case Idle(alive) =>
        if !alive { outcome := ClientGone; }
      case Failed(echild) =>
        if echild { outcome := NoChildren; }
      case Reported(tid, status, sight) =>
        var last := HandleReported(cfg, tid, status, sight, capture);
        if last { outcome := AllExited; }
    }

    /** The loop over what waitpid answers, until something ends it. */
    method WaitLoop(cfg: Config, waits: seq<Wait>, capture: array<byte>) returns (outcome: Outcome)
      requires Valid() && capture.Length == cfg.maxCapture
      modifies this, slots, capture
      ensures Valid()
      ensures var r := Run(cfg, old(threads), waits);
              outcome == r.outcome && threads == r.threads && log == old(log) + r.log
    {
      ghost var r := Run(cfg, threads, waits);
      ghost var goal := Handled(r.threads, log + r.log, r.outcome);
      outcome := Running;
      var i := 0;
      assert waits[i..] == waits;
      while i < |waits| && outcome.Running?
        invariant 0 <= i <= |waits| && Valid()
        invariant Midway(cfg, goal, threads, waits[i..], log, outcome)
      {
        assert waits[i..] == [waits[i]] + waits[i + 1..];
        MidwayStep(cfg, goal, threads, waits[i], waits[i + 1..], log);
        outcome := HandleWait(cfg, waits[i], capture);
        i := i + 1;
      }
      MidwayAtEnd(cfg, goal, threads, waits[i..], log, outcome);
    }

    /** The event loop, with the final detach when the client has gone: each tracked thread is then interrupted and
        detached exactly once. */
    method EventLoop(cfg: Config, waits: seq<Wait>, capture: array<byte>) returns (outcome: Outcome)
      requires Valid() && capture.Length == cfg.maxCapture
      modifies this, slots, capture
      ensures Valid()
      ensures var r := Run(cfg, old(threads), waits); outcome == r.outcome && threads == r.threads
      ensures var order := Tids(slots[..ntids]);
              Distinct(order) && (forall tid :: tid in order <==> tid in threads) &&
              log == old(log) + Run(cfg, old(threads), waits).log
                     + if outcome.ClientGone? then StopLog(order) else []
    {
      outcome := WaitLoop(cfg, waits, capture);
      TidsAreTheKeys(slots[..ntids], threads);
      if outcome.ClientGone? {
        DetachAll();
      } else {
        assert log == log + [];
      }
    }

    /** hsed_trace_fd: attach, tell the client, trace until something ends it. False is the error return. */
    method TraceFd(fd: int, requested: nat, attempts: seq<AttachAnswers>, allocOk: bool, waits: seq<Wait>)
      returns (ok: bool, outcome: Outcome)
      requires Valid() && threads == map[] && log == []
      requires |attempts| <= MAX_TRACKED_TIDS
      requires forall i, j | 0 <= i < j < |attempts| :: attempts[i].tid != attempts[j].tid
      modifies this, slots
      ensures Valid()
      ensures ok <==> AttachedThreads(attempts) != map[] && allocOk
      ensures ok ==> var r := Run(Config(fd, CaptureLimit(requested)), AttachedThreads(attempts), waits);
                     outcome == r.outcome && threads == r.threads
      ensures ok ==> exists attachLog: seq<Output> ::
                Accounted(attachLog, AttachedThreads(attempts)) &&
                log == attachLog
                       + Run(Config(fd, CaptureLimit(requested)), AttachedThreads(attempts), waits).log
                       + if outcome.ClientGone? then StopLog(Tids(slots[..ntids])) else []
      ensures !ok ==> threads == AttachedThreads(attempts) && exists attachLog: seq<Output> ::
                Accounted(attachLog, AttachedThreads(attempts)) &&
                log == attachLog + if threads == map[] then [] else StopLog(Tids(slots[..ntids]))
    {
      outcome := Running;
      ok := Attach(attempts);
      ghost var attachLog := log;
      if !ok {
        assert log == attachLog + [];
        return;
      }
      if !allocOk {
        DetachAll();
        return false, Running;
      }
      var limit := CaptureLimit(requested);
      var capture := new byte[limit];
      outcome := EventLoop(Config(fd, limit), waits, capture);
      assert Accounted(attachLog, AttachedThreads(attempts));
    }
  }
}
