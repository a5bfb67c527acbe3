/** What the whole event loop does for one thread depends only on what is reported about that thread. */
module Interleaving {
  import opened Words
  import opened Tracer

  // ---- The one-thread stepper ----

  /** What concerns one thread: its own reports, and clone events naming it. */
  datatype Input = Own(status: Status, sight: Sight) | Announcement

  datatype Solo = Solo(state: Option<Thread>, log: seq<Output>)

  function Tracked(th: Option<Thread>): Thread {
    if th.Some? then th.value else ZEROED
  }

  function SoloStep(cfg: Config, t: int, th: Option<Thread>, input: Input): Solo {
    match input
    case Announcement => Solo(Some(Tracked(th)), [])
    case Own(status, sight) =>
      match status
      case Exited | Signaled => Solo(None, [])
      case NotStopped => Solo(Some(Tracked(th)), [])
      case Stopped(_, _) =>
        if th.None? then Solo(Some(ZEROED), [Resume(t, 0)])
        else Solo(Some(AfterStop(cfg, th.value, status, sight)), OutputsAtStop(cfg, t, th.value, status, sight))
  }

  function SoloRun(cfg: Config, t: int, th: Option<Thread>, inputs: seq<Input>): Solo
    decreases |inputs|
  {
    if inputs == [] then Solo(th, [])
    else
      var first := SoloStep(cfg, t, th, inputs[0]);
      var rest := SoloRun(cfg, t, first.state, inputs[1..]);
      Solo(rest.state, first.log + rest.log)
  }

  lemma {:induction false} SoloRunSplits(cfg: Config, t: int, th: Option<Thread>, a: seq<Input>, b: seq<Input>)
    ensures var ra := SoloRun(cfg, t, th, a);
            var rb := SoloRun(cfg, t, ra.state, b);
            SoloRun(cfg, t, th, a + b) == Solo(rb.state, ra.log + rb.log)
    decreases |a|
  {
    if a == [] {
      assert a + b == b;
    } else {
      assert (a + b)[1..] == a[1..] + b;
      var first := SoloStep(cfg, t, th, a[0]);
      SoloRunSplits(cfg, t, first.state, a[1..], b);
      var ra := SoloRun(cfg, t, first.state, a[1..]);
      Reassociate(first.log, ra.log, SoloRun(cfg, t, ra.state, b).log);
    }
  }

  // ---- The part of a run that concerns one thread ----

  function Lookup(m: Threads, t: int): Option<Thread> {
    if t in m then Some(m[t]) else None
  }

  function ForThread(log: seq<Output>, t: int): seq<Output> {
    if log == [] then []
    else (if log[0].tid == t then [log[0]] else []) + ForThread(log[1..], t)
  }

  /** A clone event counts only when the reporting thread was already tracked. */
  predicate Announces(m: Threads, w: Wait, t: int) {
    w.Reported? && w.tid in m && Announced(w.status, w.sight) == Some(t)
  }

  function InputsAt(m: Threads, w: Wait, t: int): seq<Input> {
    (if w.Reported? && w.tid == t then [Own(w.status, w.sight)] else [])
    + (if Announces(m, w, t) then [Announcement] else [])
  }

  function InputsOf(cfg: Config, m: Threads, ws: seq<Wait>, t: int): seq<Input>
    decreases |ws|
  {
    if ws == [] then []
    else
      var h := Handle(cfg, m, ws[0]);
      InputsAt(m, ws[0], t) + if h.outcome.Running? then InputsOf(cfg, h.threads, ws[1..], t) else []
  }

  /** find_or_add_tid is never refused for want of room. */
  predicate Fits(m: Threads, w: Wait) {
    w.Reported? ==>
      && (w.tid in m || |m| < MAX_TRACKED_TIDS)
      && (w.tid in m && Announced(w.status, w.sight).Some? ==>
            Announced(w.status, w.sight).value in m || |m| < MAX_TRACKED_TIDS)
  }

  predicate NeverFull(cfg: Config, m: Threads, ws: seq<Wait>)
    decreases |ws|
  {
    ws == [] ||
    (Fits(m, ws[0]) &&
     var h := Handle(cfg, m, ws[0]);
     h.outcome.Running? ==> NeverFull(cfg, h.threads, ws[1..]))
  }

  // ---- Interleaving independence ----

  lemma {:induction false} ForThreadSplits(a: seq<Output>, b: seq<Output>, t: int)
    ensures ForThread(a + b, t) == ForThread(a, t) + ForThread(b, t)
  {
    if a == [] {
      assert a + b == b;
    } else {
      assert (a + b)[0] == a[0] && (a + b)[1..] == a[1..] + b;
      ForThreadSplits(a[1..], b, t);
      Reassociate(if a[0].tid == t then [a[0]] else [], ForThread(a[1..], t), ForThread(b, t));
    }
  }

  lemma {:induction false} AllOrNothing(log: seq<Output>, tid: int, t: int)
    requires forall o | o in log :: o.tid == tid
    ensures ForThread(log, t) == if t == tid then log else []
  {
    if log != [] {
      assert log[0] in log;
      AllOrNothing(log[1..], tid, t);
    }
  }

  lemma OneInput(cfg: Config, t: int, th: Option<Thread>, input: Input)
    ensures SoloRun(cfg, t, th, [input]) == SoloStep(cfg, t, th, input)
  {
    var first := SoloStep(cfg, t, th, input);
    assert [input][1..] == [] && first.log + [] == first.log;
  }

  lemma ReportToOther(cfg: Config, m: Threads, w: Wait, t: int)
    requires w.Reported? && Fits(m, w) && w.tid != t
    ensures var h := Handle(cfg, m, w);
            SoloRun(cfg, t, Lookup(m, t), InputsAt(m, w, t)) == Solo(Lookup(h.threads, t), [])
  {
    if Announces(m, w, t) {
      assert InputsAt(m, w, t) == [Announcement];
      OneInput(cfg, t, Lookup(m, t), Announcement);
    } else {
      assert InputsAt(m, w, t) == [];
    }
  }

  lemma ReportToSelf(cfg: Config, m: Threads, w: Wait)
    requires w.Reported? && Fits(m, w)
    ensures var h := Handle(cfg, m, w);
            SoloRun(cfg, w.tid, Lookup(m, w.tid), InputsAt(m, w, w.tid)) == Solo(Lookup(h.threads, w.tid), h.log)
  {
    var own := Own(w.status, w.sight);
    var th := Lookup(m, w.tid);
    OneInput(cfg, w.tid, th, own);
    if Announces(m, w, w.tid) {
      assert InputsAt(m, w, w.tid) == [own] + [Announcement];
      var first := SoloStep(cfg, w.tid, th, own);
      OneInput(cfg, w.tid, first.state, Announcement);
      SoloRunSplits(cfg, w.tid, th, [own], [Announcement]);
      assert first.log + [] == first.log;
    } else {
      assert InputsAt(m, w, w.tid) == [own];
    }
  }

  /** One report moves each thread exactly as its own inputs say, and logs only requests about the reported thread. */
  lemma OneReport(cfg: Config, m: Threads, w: Wait, t: int)
    requires Fits(m, w)
    ensures var h := Handle(cfg, m, w);
            SoloRun(cfg, t, Lookup(m, t), InputsAt(m, w, t)) == Solo(Lookup(h.threads, t), ForThread(h.log, t))
  {
    if w.Reported? {
      AllOrNothing(Handle(cfg, m, w).log, w.tid, t);
      if t == w.tid { ReportToSelf(cfg, m, w); } else { ReportToOther(cfg, m, w, t); }
    }
  }

  /** In every run whose table never fills, the final state of `t` and everything requested or reported about `t`
      are those of the one-thread stepper on the inputs of `t`. */
  lemma {:induction false} RunIsSolo(cfg: Config, m: Threads, ws: seq<Wait>, t: int)
    requires NeverFull(cfg, m, ws)
    ensures var r := Run(cfg, m, ws);
            SoloRun(cfg, t, Lookup(m, t), InputsOf(cfg, m, ws, t)) == Solo(Lookup(r.threads, t), ForThread(r.log, t))
    decreases |ws|
  {
    if ws != [] {
      var h := Handle(cfg, m, ws[0]);
      OneReport(cfg, m, ws[0], t);
      if h.outcome.Running? {
        RunIsSolo(cfg, h.threads, ws[1..], t);
        SoloRunSplits(cfg, t, Lookup(m, t), InputsAt(m, ws[0], t), InputsOf(cfg, h.threads, ws[1..], t));
        ForThreadSplits(h.log, Run(cfg, h.threads, ws[1..]).log, t);
      } else {
        assert InputsAt(m, ws[0], t) + [] == InputsAt(m, ws[0], t);
      }
    }
  }

  lemma SameInputsSameThread(cfg: Config, m: Threads, ws: seq<Wait>, ws': seq<Wait>, t: int)
    requires NeverFull(cfg, m, ws) && NeverFull(cfg, m, ws')
    requires InputsOf(cfg, m, ws, t) == InputsOf(cfg, m, ws', t)
    ensures Lookup(Run(cfg, m, ws).threads, t) == Lookup(Run(cfg, m, ws').threads, t)
    ensures ForThread(Run(cfg, m, ws).log, t) == ForThread(Run(cfg, m, ws').log, t)
  {
    RunIsSolo(cfg, m, ws, t);
    RunIsSolo(cfg, m, ws', t);
  }

  lemma SameLookupsSameMap(m: Threads, m': Threads)
    requires forall t :: Lookup(m, t) == Lookup(m', t)
    ensures m == m'
  {
    forall t ensures (t in m <==> t in m') && (t in m ==> m[t] == m'[t]) {
      assert Lookup(m, t) == Lookup(m', t);
    }
  }

  /** Two runs that tell each thread the same things end in the same table and treat each thread alike,
      whatever the interleaving. */
  lemma InterleavingIsIrrelevant(cfg: Config, m: Threads, ws: seq<Wait>, ws': seq<Wait>)
    requires NeverFull(cfg, m, ws) && NeverFull(cfg, m, ws')
    requires forall t :: InputsOf(cfg, m, ws, t) == InputsOf(cfg, m, ws', t)
    ensures Run(cfg, m, ws).threads == Run(cfg, m, ws').threads
    ensures forall t :: ForThread(Run(cfg, m, ws).log, t) == ForThread(Run(cfg, m, ws').log, t)
  {
    forall t ensures Lookup(Run(cfg, m, ws).threads, t) == Lookup(Run(cfg, m, ws').threads, t)
             ensures ForThread(Run(cfg, m, ws).log, t) == ForThread(Run(cfg, m, ws').log, t) {
      SameInputsSameThread(cfg, m, ws, ws', t);
    }
    SameLookupsSameMap(Run(cfg, m, ws).threads, Run(cfg, m, ws').threads);
  }

  lemma RunOne(cfg: Config, m: Threads, w: Wait)
    ensures var h, r := Handle(cfg, m, w), Run(cfg, m, [w]);
            r.threads == h.threads && r.log == h.log
  {
    var h := Handle(cfg, m, w);
    assert [w][1..] == [] && h.log + [] == h.log;
  }

  lemma RunTwo(cfg: Config, m: Threads, a: Wait, b: Wait)
    ensures var ha := Handle(cfg, m, a);
            ha.outcome.Running? ==>
              var hb, r := Handle(cfg, ha.threads, b), Run(cfg, m, [a, b]);
              r.threads == hb.threads && r.log == ha.log + hb.log
  {
    var ha := Handle(cfg, m, a);
    var hb, r := Handle(cfg, ha.threads, b), Run(cfg, ha.threads, [b]);
    assert [a, b][1..] == [b];
    RunOne(cfg, ha.threads, b);
  }

  // ---- Which reports may change places ----

  /** Reports of different threads, neither of which announces the other thread. */
  predicate Independent(a: Wait, b: Wait) {
    && a.Reported? && b.Reported? && a.tid != b.tid
    && Announced(a.status, a.sight) != Some(b.tid) && Announced(b.status, b.sight) != Some(a.tid)
  }

  /** In either order both reports find room, and the first leaves a thread in the table. */
  predicate Swappable(cfg: Config, m: Threads, a: Wait, b: Wait) {
    && Independent(a, b)
    && Fits(m, a) && Handle(cfg, m, a).outcome.Running? && Fits(Handle(cfg, m, a).threads, b)
    && Fits(m, b) && Handle(cfg, m, b).outcome.Running? && Fits(Handle(cfg, m, b).threads, a)
  }

  lemma OtherStaysTracked(cfg: Config, m: Threads, a: Wait, t: int)
    requires a.Reported? && Fits(m, a) && t != a.tid && Announced(a.status, a.sight) != Some(t)
    ensures t in Handle(cfg, m, a).threads <==> t in m
  {
  }

  lemma InputsOfTwo(cfg: Config, m: Threads, a: Wait, b: Wait, rest: seq<Wait>, t: int)
    requires Swappable(cfg, m, a, b)
    ensures var h := Handle(cfg, Handle(cfg, m, a).threads, b);
            var behind := if h.outcome.Running? then InputsOf(cfg, h.threads, rest, t) else [];
            InputsOf(cfg, m, [a, b] + rest, t) == InputsAt(m, a, t) + (InputsAt(m, b, t) + behind)
  {
    var ws := [a, b] + rest;
    assert ws[1..] == [b] + rest && ws[1..][1..] == rest;
    OtherStaysTracked(cfg, m, a, b.tid);
  }

  lemma TwoInputsSwap(m: Threads, a: Wait, b: Wait, t: int)
    requires Independent(a, b)
    ensures InputsAt(m, a, t) + InputsAt(m, b, t) == InputsAt(m, b, t) + InputsAt(m, a, t)
  {
    if InputsAt(m, a, t) != [] && InputsAt(m, b, t) != [] {
      assert InputsAt(m, a, t) == [Announcement] == InputsAt(m, b, t);
    }
  }

  lemma OnlyTwoSwap(cfg: Config, m: Threads, a: Wait, b: Wait, t: int)
    requires Swappable(cfg, m, a, b)
    ensures InputsOf(cfg, m, [a, b], t) == InputsOf(cfg, m, [b, a], t)
  {
    InputsOfTwo(cfg, m, a, b, [], t);
    InputsOfTwo(cfg, m, b, a, [], t);
    assert [a, b] + [] == [a, b] && [b, a] + [] == [b, a];
    assert InputsAt(m, b, t) + [] == InputsAt(m, b, t) && InputsAt(m, a, t) + [] == InputsAt(m, a, t);
    TwoInputsSwap(m, a, b, t);
  }

  lemma TwoCommute(cfg: Config, m: Threads, a: Wait, b: Wait)
    requires Swappable(cfg, m, a, b)
    ensures var ab, ba := Handle(cfg, Handle(cfg, m, a).threads, b), Handle(cfg, Handle(cfg, m, b).threads, a);
            ab.threads == ba.threads && ab.outcome == ba.outcome
  {
    forall t ensures InputsOf(cfg, m, [a, b], t) == InputsOf(cfg, m, [b, a], t) {
      OnlyTwoSwap(cfg, m, a, b, t);
    }
    FitsTwo(cfg, m, a, b);
    FitsTwo(cfg, m, b, a);
    InterleavingIsIrrelevant(cfg, m, [a, b], [b, a]);
    RunTwo(cfg, m, a, b);
    RunTwo(cfg, m, b, a);
    SameEnd(cfg, m, a, b);
  }

  lemma FitsTwo(cfg: Config, m: Threads, a: Wait, b: Wait)
    requires Swappable(cfg, m, a, b)
    ensures NeverFull(cfg, m, [a, b])
  {
    assert [a, b][1..] == [b] && [b][1..] == [];
  }

  /** A report ends the loop exactly when it leaves the table empty. */
  lemma EndsWhenEmpty(cfg: Config, m: Threads, w: Wait)
    requires w.Reported? && Fits(m, w)
    ensures Handle(cfg, m, w).outcome == if Handle(cfg, m, w).threads == map[] then AllExited else Running
  {
    if !w.status.Exited? && !w.status.Signaled? { assert w.tid in Handle(cfg, m, w).threads; }
  }

  lemma SameEnd(cfg: Config, m: Threads, a: Wait, b: Wait)
    requires Swappable(cfg, m, a, b)
    requires Handle(cfg, Handle(cfg, m, a).threads, b).threads == Handle(cfg, Handle(cfg, m, b).threads, a).threads
    ensures Handle(cfg, Handle(cfg, m, a).threads, b).outcome == Handle(cfg, Handle(cfg, m, b).threads, a).outcome
  {
    EndsWhenEmpty(cfg, Handle(cfg, m, a).threads, b);
    EndsWhenEmpty(cfg, Handle(cfg, m, b).threads, a);
  }

  lemma SwapHere(cfg: Config, m: Threads, a: Wait, b: Wait, rest: seq<Wait>, t: int)
    requires Swappable(cfg, m, a, b)
    ensures InputsOf(cfg, m, [a, b] + rest, t) == InputsOf(cfg, m, [b, a] + rest, t)
  {
    var h := Handle(cfg, Handle(cfg, m, a).threads, b);
    var behind := if h.outcome.Running? then InputsOf(cfg, h.threads, rest, t) else [];
    InputsOfTwo(cfg, m, a, b, rest, t);
    InputsOfTwo(cfg, m, b, a, rest, t);
    TwoCommute(cfg, m, a, b);
    TwoInputsSwap(m, a, b, t);
    Reassociate(InputsAt(m, a, t), InputsAt(m, b, t), behind);
    Reassociate(InputsAt(m, b, t), InputsAt(m, a, t), behind);
  }

  /** Anywhere in a run that gets there, two such reports may change places: every thread is told the same. */
  lemma {:induction false} SwapReports(cfg: Config, m: Threads, front: seq<Wait>, a: Wait, b: Wait, rest: seq<Wait>,
                                       t: int)
    requires Run(cfg, m, front).outcome.Running? && Swappable(cfg, Run(cfg, m, front).threads, a, b)
    ensures InputsOf(cfg, m, front + [a, b] + rest, t) == InputsOf(cfg, m, front + [b, a] + rest, t)
    decreases |front|
  {
    if front == [] {
      assert front + [a, b] + rest == [a, b] + rest && front + [b, a] + rest == [b, a] + rest;
      SwapHere(cfg, m, a, b, rest, t);
    } else {
      var ws, ws' := front + [a, b] + rest, front + [b, a] + rest;
      assert ws[0] == ws'[0] == front[0];
      assert ws[1..] == front[1..] + [a, b] + rest && ws'[1..] == front[1..] + [b, a] + rest;
      SwapReports(cfg, Handle(cfg, m, front[0]).threads, front[1..], a, b, rest, t);
    }
  }

  /** So the run ends in the same table, and each thread sees the same requests and callbacks. */
  lemma SwapIsIrrelevant(cfg: Config, m: Threads, front: seq<Wait>, a: Wait, b: Wait, rest: seq<Wait>)
    requires Run(cfg, m, front).outcome.Running? && Swappable(cfg, Run(cfg, m, front).threads, a, b)
    requires NeverFull(cfg, m, front + [a, b] + rest) && NeverFull(cfg, m, front + [b, a] + rest)
    ensures var r, r' := Run(cfg, m, front + [a, b] + rest), Run(cfg, m, front + [b, a] + rest);
            r.threads == r'.threads && forall t :: ForThread(r.log, t) == ForThread(r'.log, t)
  {
    forall t ensures InputsOf(cfg, m, front + [a, b] + rest, t) == InputsOf(cfg, m, front + [b, a] + rest, t) {
      SwapReports(cfg, m, front, a, b, rest, t);
    }
    InterleavingIsIrrelevant(cfg, m, front + [a, b] + rest, front + [b, a] + rest);
  }

  // ---- A clone and the child's first stop ----

  lemma TwoLogs(x: Output, y: Output, t: int)
    requires x.tid != y.tid
    ensures ForThread([x] + [y], t) == if t == x.tid then [x] else if t == y.tid then [y] else []
  {
    ForThreadSplits([x], [y], t);
    assert [x][1..] == [] && [y][1..] == [];
    assert ForThread([x], t) == (if t == x.tid then [x] else []) + ForThread([], t);
    assert ForThread([y], t) == (if t == y.tid then [y] else []) + ForThread([], t);
  }

  lemma SameForEach(p: int, c: int, sig: nat, sig': nat)
    requires p != c
    ensures (forall t :: ForThread([Resume(p, 0)] + [Resume(c, sig)], t)
                      == ForThread([Resume(c, sig')] + [Resume(p, 0)], t)) <==> sig == sig'
  {
    var log, log' := [Resume(p, 0)] + [Resume(c, sig)], [Resume(c, sig')] + [Resume(p, 0)];
    if sig == sig' {
      forall t ensures ForThread(log, t) == ForThread(log', t) {
        TwoLogs(Resume(p, 0), Resume(c, sig), t);
        TwoLogs(Resume(c, sig'), Resume(p, 0), t);
      }
    } else {
      TwoLogs(Resume(p, 0), Resume(c, sig), c);
      TwoLogs(Resume(c, sig'), Resume(p, 0), c);
      assert ForThread(log, c)[0] != ForThread(log', c)[0];
    }
  }

  /** What the child's first stop and the clone event ask for: the stop's signal is handed back exactly when the clone
      event comes first, so each thread is asked the same in either order exactly when there is no signal. */
  lemma CloneAndFirstSignal(cfg: Config, m: Threads, parent: int, p: Status, pSight: Sight,
                            child: int, c: Status, cSight: Sight)
    requires parent in m && child !in m && |m| + 1 < MAX_TRACKED_TIDS
    requires Announced(p, pSight) == Some(child) && c.Stopped?
    ensures var cloneFirst := Run(cfg, m, [Reported(parent, p, pSight), Reported(child, c, cSight)]).log;
            var stopFirst := Run(cfg, m, [Reported(child, c, cSight), Reported(parent, p, pSight)]).log;
            && cloneFirst == [Resume(parent, 0)] + [Resume(child, Reinjected(c))]
            && stopFirst == [Resume(child, 0)] + [Resume(parent, 0)]
            && ((forall t :: ForThread(cloneFirst, t) == ForThread(stopFirst, t)) <==> Reinjected(c) == 0)
  {
    var wp, wc := Reported(parent, p, pSight), Reported(child, c, cSight);
    RunTwo(cfg, m, wp, wc);
    RunTwo(cfg, m, wc, wp);
    var none: seq<Output> := [];
    assert none + [Resume(parent, 0)] == [Resume(parent, 0)];
    assert none + [Resume(child, Reinjected(c))] == [Resume(child, Reinjected(c))];
    assert Handle(cfg, m, wp).log == [Resume(parent, 0)];
    assert Handle(cfg, m, wc).log == [Resume(child, 0)];
    assert m[parent := m[parent]] == m;
    assert Handle(cfg, m, wp).threads == m[child := ZEROED] == Handle(cfg, m, wc).threads;
    assert Handle(cfg, m[child := ZEROED], wc).log == [Resume(child, Reinjected(c))];
    assert Handle(cfg, m[child := ZEROED], wp).log == [Resume(parent, 0)];
    SameForEach(parent, child, Reinjected(c), 0);
  }

  /** And the table is the same in either order exactly when that first stop is neither a syscall stop nor itself the
      announcement of an untracked thread. */
  lemma CloneAndFirstStop(cfg: Config, m: Threads, parent: int, p: Status, pSight: Sight,
                          child: int, c: Status, cSight: Sight)
    requires parent in m && child !in m && |m| + 1 < MAX_TRACKED_TIDS
    requires Announced(p, pSight) == Some(child) && c.Stopped?
    ensures var cloneFirst, stopFirst := [Reported(parent, p, pSight), Reported(child, c, cSight)],
                                         [Reported(child, c, cSight), Reported(parent, p, pSight)];
            Run(cfg, m, cloneFirst).threads == Run(cfg, m, stopFirst).threads
            <==> !IsSyscallStop(c) && (Announced(c, cSight).Some? ==>
                   Announced(c, cSight).value in m || Announced(c, cSight).value == child)
  {
    var wp, wc := Reported(parent, p, pSight), Reported(child, c, cSight);
    var m1 := Handle(cfg, m, wp).threads;
    var m2 := Handle(cfg, m, wc).threads;
    assert m1 == m[child := ZEROED] by { assert m[parent := m[parent]] == m; }
    assert m2 == m[child := ZEROED];
    RunTwo(cfg, m, wp, wc);
    RunTwo(cfg, m, wc, wp);
    assert Handle(cfg, m2, wp).threads == m2 by { assert m2[parent := m2[parent]] == m2; }
    var stepped := m1[child := AfterStop(cfg, ZEROED, c, cSight)];
    assert Handle(cfg, m1, wc).threads == FindOrAddAnnounced(stepped, Announced(c, cSight));
    if IsSyscallStop(c) {
      assert Handle(cfg, m1, wc).threads[child].inSyscall;
    } else {
      assert stepped == m1;
    }
  }
}
