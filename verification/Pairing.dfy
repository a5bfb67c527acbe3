/** Which syscalls of a thread are reported, and which signals it gets back: the stepper against a reading of the
    whole sequence of stops. */
module Pairing {
  import opened Words
  import Capture
  import opened Tracer
  import opened Interleaving

  function Callbacks(log: seq<Output>): seq<Output> {
    if log == [] then []
    else (if log[0].Callback? then [log[0]] else []) + Callbacks(log[1..])
  }

  /** What the thread's syscall stops showed, in order. */
  function SyscallStops(inputs: seq<Input>): seq<Sight> {
    if inputs == [] then []
    else (if inputs[0].Own? && IsSyscallStop(inputs[0].status) then [inputs[0].sight] else [])
         + SyscallStops(inputs[1..])
  }

  /** The write a pair of stops amounts to: entered on the target fd, and still readable when left. */
  function WriteOf(cfg: Config, tid: int, enter: Sight, leave: Sight): seq<Output> {
    if !TargetsFd(cfg, enter.regs) || leave.regs.None? then []
    else
      var call, ret := enter.regs.value, leave.regs.value.ret;
      var data :=
        if ret <= 0 then []
        else if call.nr.Writev? then Capture.WritevPreview(leave.mem, call.arg2, call.arg3, cfg.maxCapture)
        else Capture.PlainPreview(leave.mem, call.arg2, ret, cfg.maxCapture);
      [Callback(tid, ret, data, call.nr.Writev?)]
  }

  /** Syscall stops taken two by two; a last enter-stop without its exit gives nothing. */
  function PairedWrites(cfg: Config, tid: int, stops: seq<Sight>): seq<Output> {
    if |stops| < 2 then [] else WriteOf(cfg, tid, stops[0], stops[1]) + PairedWrites(cfg, tid, stops[2..])
  }

  predicate IsExit(input: Input) {
    input.Own? && (input.status.Exited? || input.status.Signaled?)
  }

  function LifeEnd(inputs: seq<Input>): (k: nat)
    ensures k <= |inputs|
    ensures k < |inputs| ==> IsExit(inputs[k])
    ensures forall i | 0 <= i < k :: !IsExit(inputs[i])
  {
    if inputs == [] || IsExit(inputs[0]) then 0 else 1 + LifeEnd(inputs[1..])
  }

  /** The inputs cut at the thread's exits. A thread met for the first time spends its first input on being added
      to the table, whatever that input is; from then on its syscall stops pair up. */
  function ExpectedWrites(cfg: Config, tid: int, tracked: bool, inputs: seq<Input>): seq<Output>
    decreases |inputs|
  {
    var k := LifeEnd(inputs);
    LifeWrites(cfg, tid, tracked, inputs[..k])
    + if k == |inputs| then [] else ExpectedWrites(cfg, tid, false, inputs[k + 1..])
  }

  function LifeWrites(cfg: Config, tid: int, tracked: bool, life: seq<Input>): seq<Output> {
    PairedWrites(cfg, tid, SyscallStops(if tracked || life == [] then life else life[1..]))
  }

  // ---- Callbacks pair up ----

  lemma {:induction false} CallbacksSplit(a: seq<Output>, b: seq<Output>)
    ensures Callbacks(a + b) == Callbacks(a) + Callbacks(b)
  {
    if a == [] {
      assert a + b == b;
    } else {
      assert (a + b)[0] == a[0] && (a + b)[1..] == a[1..] + b;
      CallbacksSplit(a[1..], b);
      Reassociate(if a[0].Callback? then [a[0]] else [], Callbacks(a[1..]), Callbacks(b));
    }
  }

  lemma CallbacksOfStop(cfg: Config, t: int, th: Thread, status: Status, sight: Sight)
    ensures Callbacks(OutputsAtStop(cfg, t, th, status, sight)) == CallbacksAtStop(cfg, t, th, status, sight)
  {
    var cbs, resume := CallbacksAtStop(cfg, t, th, status, sight), [Resume(t, Reinjected(status))];
    CallbacksSplit(cbs, resume);
    assert resume[1..] == [];
    assert Callbacks(resume) == [];
    if cbs != [] {
      assert cbs[1..] == [];
      assert Callbacks(cbs) == cbs;
    }
  }

  /** What is still owed to a thread stopped inside a syscall, then the pairs. */
  function PendingWrites(cfg: Config, t: int, th: Thread, stops: seq<Sight>): seq<Output> {
    if !th.inSyscall then PairedWrites(cfg, t, stops)
    else if stops == [] then []
    else (if th.capturing && stops[0].regs.Some? then [CallbackAt(cfg, t, th, stops[0])] else [])
         + PairedWrites(cfg, t, stops[1..])
  }

  lemma PendingStep(cfg: Config, t: int, th: Thread, stop: Status, stops: seq<Sight>)
    requires stops != [] && IsSyscallStop(stop)
    ensures PendingWrites(cfg, t, th, stops)
            == CallbacksAtStop(cfg, t, th, stop, stops[0])
               + PendingWrites(cfg, t, AfterStop(cfg, th, stop, stops[0]), stops[1..])
  {
    if !th.inSyscall {
      var entered := Entered(cfg, th, stops[0]);
      if |stops| >= 2 {
        assert stops[1..][0] == stops[1] && stops[1..][1..] == stops[2..];
        assert WriteOf(cfg, t, stops[0], stops[1])
            == if entered.capturing && stops[1].regs.Some? then [CallbackAt(cfg, t, entered, stops[1])] else [];
      }
    }
  }

  /** One input of a tracked thread: what it reports now and what is owed afterwards make up what was owed before. */
  lemma InputPairs(cfg: Config, t: int, th: Thread, input: Input, stops: seq<Sight>)
    requires !IsExit(input)
    ensures SoloStep(cfg, t, Some(th), input).state.Some?
    ensures var first := SoloStep(cfg, t, Some(th), input);
            var own := if input.Own? && IsSyscallStop(input.status) then [input.sight] else [];
            PendingWrites(cfg, t, th, own + stops)
            == Callbacks(first.log) + PendingWrites(cfg, t, first.state.value, stops)
  {
    if input.Own? && input.status.Stopped? {
      CallbacksOfStop(cfg, t, th, input.status, input.sight);
      if IsSyscallStop(input.status) {
        var more := [input.sight] + stops;
        PendingStep(cfg, t, th, input.status, more);
        assert more[1..] == stops;
      } else {
        assert [] + stops == stops;
      }
    } else {
      assert [] + stops == stops;
    }
  }

  lemma {:induction false} LifePairsUp(cfg: Config, t: int, th: Thread, life: seq<Input>)
    requires forall i | 0 <= i < |life| :: !IsExit(life[i])
    ensures Callbacks(SoloRun(cfg, t, Some(th), life).log) == PendingWrites(cfg, t, th, SyscallStops(life))
    ensures SoloRun(cfg, t, Some(th), life).state.Some?
    decreases |life|
  {
    if life != [] {
      var first := SoloStep(cfg, t, Some(th), life[0]);
      InputPairs(cfg, t, th, life[0], SyscallStops(life[1..]));
      LifePairsUp(cfg, t, first.state.value, life[1..]);
      CallbacksSplit(first.log, SoloRun(cfg, t, first.state, life[1..]).log);
    }
  }

  lemma LifeCallbacks(cfg: Config, t: int, th: Option<Thread>, life: seq<Input>)
    requires forall i | 0 <= i < |life| :: !IsExit(life[i])
    requires th.Some? ==> !th.value.inSyscall
    ensures Callbacks(SoloRun(cfg, t, th, life).log) == LifeWrites(cfg, t, th.Some?, life)
  {
    if th.Some? {
      LifePairsUp(cfg, t, th.value, life);
    } else if life != [] {
      var first := SoloStep(cfg, t, th, life[0]);
      LifePairsUp(cfg, t, ZEROED, life[1..]);
      CallbacksSplit(first.log, SoloRun(cfg, t, first.state, life[1..]).log);
      assert Callbacks(first.log) == [];
    }
  }

  lemma ThroughExit(cfg: Config, t: int, th: Option<Thread>, life: seq<Input>, exit: Input, rest: seq<Input>)
    requires IsExit(exit)
    ensures SoloRun(cfg, t, th, life + [exit] + rest).log
         == SoloRun(cfg, t, th, life).log + SoloRun(cfg, t, None, rest).log
  {
    var ra := SoloRun(cfg, t, th, life);
    OneInput(cfg, t, ra.state, exit);
    SoloRunSplits(cfg, t, th, life, [exit]);
    SoloRunSplits(cfg, t, th, life + [exit], rest);
    assert ra.log + [] == ra.log;
  }

  lemma NothingAdded<T>(s: seq<T>)
    ensures s + [] == s
  {
  }

  lemma {:induction false} WritesThroughExit(cfg: Config, t: int, tracked: bool, inputs: seq<Input>, k: nat)
    requires k == LifeEnd(inputs) < |inputs|
    ensures ExpectedWrites(cfg, t, tracked, inputs)
         == LifeWrites(cfg, t, tracked, inputs[..k]) + ExpectedWrites(cfg, t, false, inputs[k + 1..])
  {
  }

  lemma WritesOfOneLife(cfg: Config, t: int, tracked: bool, life: seq<Input>)
    requires LifeEnd(life) == |life|
    ensures ExpectedWrites(cfg, t, tracked, life) == LifeWrites(cfg, t, tracked, life)
  {
    assert life[..|life|] == life;
    NothingAdded(LifeWrites(cfg, t, tracked, life));
  }

  /** For every sequence of inputs, through any number of exits and reappearances of the thread id. */
  lemma {:induction false} StepperPairsSyscalls(cfg: Config, t: int, th: Option<Thread>, inputs: seq<Input>)
    requires th.Some? ==> !th.value.inSyscall
    ensures Callbacks(SoloRun(cfg, t, th, inputs).log) == ExpectedWrites(cfg, t, th.Some?, inputs)
    decreases |inputs|
  {
    var k := LifeEnd(inputs);
    if k < |inputs| {
      var life, rest := inputs[..k], inputs[k + 1..];
      LifeCallbacks(cfg, t, th, life);
      FirstLifeThenRest(cfg, t, th, inputs, k);
      CallbacksSplit(SoloRun(cfg, t, th, life).log, SoloRun(cfg, t, None, rest).log);
      StepperPairsSyscalls(cfg, t, None, rest);
      WritesThroughExit(cfg, t, th.Some?, inputs, k);
    } else {
      LifeCallbacks(cfg, t, th, inputs);
      WritesOfOneLife(cfg, t, th.Some?, inputs);
    }
  }

  lemma FirstLifeThenRest(cfg: Config, t: int, th: Option<Thread>, inputs: seq<Input>, k: nat)
    requires k < |inputs| && IsExit(inputs[k])
    ensures SoloRun(cfg, t, th, inputs).log
         == SoloRun(cfg, t, th, inputs[..k]).log + SoloRun(cfg, t, None, inputs[k + 1..]).log
  {
    assert inputs == inputs[..k] + [inputs[k]] + inputs[k + 1..];
    ThroughExit(cfg, t, th, inputs[..k], inputs[k], inputs[k + 1..]);
  }

  /** Whole runs: the callbacks for `t` are the paired writes of its own stops. */
  lemma RunPairsSyscalls(cfg: Config, m: Threads, ws: seq<Wait>, t: int)
    requires NeverFull(cfg, m, ws)
    requires t in m ==> !m[t].inSyscall
    ensures Callbacks(ForThread(Run(cfg, m, ws).log, t))
         == ExpectedWrites(cfg, t, t in m, InputsOf(cfg, m, ws, t))
  {
    RunIsSolo(cfg, m, ws, t);
    StepperPairsSyscalls(cfg, t, Lookup(m, t), InputsOf(cfg, m, ws, t));
  }

  /** Signal stops, SIGSTOPs and event stops of a tracked thread do not affect what is reported of it. */
  lemma OnlySyscallStopsMatter(cfg: Config, t: int, th: Thread, life: seq<Input>, life': seq<Input>)
    requires forall i | 0 <= i < |life| :: !IsExit(life[i])
    requires forall i | 0 <= i < |life'| :: !IsExit(life'[i])
    requires SyscallStops(life) == SyscallStops(life')
    ensures Callbacks(SoloRun(cfg, t, Some(th), life).log) == Callbacks(SoloRun(cfg, t, Some(th), life').log)
  {
    LifePairsUp(cfg, t, th, life);
    LifePairsUp(cfg, t, th, life');
  }

  // ---- Every stop is resumed once, with the right signal ----

  function Resumptions(log: seq<Output>): seq<nat> {
    if log == [] then []
    else (if log[0].Resume? then [log[0].sig] else []) + Resumptions(log[1..])
  }

  /** The signals of the thread's stops, in order. */
  function StopSignals(inputs: seq<Input>): seq<nat> {
    if inputs == [] then []
    else (if inputs[0].Own? && inputs[0].status.Stopped? then [inputs[0].status.sig] else [])
         + StopSignals(inputs[1..])
  }

  lemma {:induction false} ResumptionsSplit(a: seq<Output>, b: seq<Output>)
    ensures Resumptions(a + b) == Resumptions(a) + Resumptions(b)
  {
    if a == [] {
      assert a + b == b;
    } else {
      assert (a + b)[0] == a[0] && (a + b)[1..] == a[1..] + b;
      ResumptionsSplit(a[1..], b);
      Reassociate(if a[0].Resume? then [a[0].sig] else [], Resumptions(a[1..]), Resumptions(b));
    }
  }

  lemma ResumptionsOfStop(cfg: Config, t: int, th: Thread, status: Status, sight: Sight)
    ensures Resumptions(OutputsAtStop(cfg, t, th, status, sight)) == [Reinjected(status)]
  {
    var cbs, resume := CallbacksAtStop(cfg, t, th, status, sight), [Resume(t, Reinjected(status))];
    ResumptionsSplit(cbs, resume);
    assert resume[1..] == [];
    if cbs != [] {
      assert cbs[1..] == [];
    }
    assert Resumptions(cbs) == [];
  }

  /** One resumption per stop, in order, handing back the stop's signal unless it is SIGTRAP (a syscall stop's too) or
      SIGSTOP. */
  predicate HandedBack(stops: seq<nat>, sigs: seq<nat>) {
    |sigs| == |stops| && forall i | 0 <= i < |stops| ::
      sigs[i] == if stops[i] in {SYSCALL_STOP, SIGTRAP, SIGSTOP} then 0 else stops[i]
  }

  lemma HandedBackTogether(stops: seq<nat>, sigs: seq<nat>, stops': seq<nat>, sigs': seq<nat>)
    requires HandedBack(stops, sigs) && HandedBack(stops', sigs')
    ensures HandedBack(stops + stops', sigs + sigs')
  {
  }

  /** While tracked, the thread is resumed once per stop, in order, and each stop's signal is handed back unless it
      is a syscall stop, SIGTRAP or SIGSTOP. */
  lemma {:induction false} TrackedStopsAreResumed(cfg: Config, t: int, th: Thread, life: seq<Input>)
    requires forall i | 0 <= i < |life| :: !IsExit(life[i])
    ensures HandedBack(StopSignals(life), Resumptions(SoloRun(cfg, t, Some(th), life).log))
    decreases |life|
  {
    if life != [] {
      var first := SoloStep(cfg, t, Some(th), life[0]);
      var rest := SoloRun(cfg, t, first.state, life[1..]);
      TrackedStopsAreResumed(cfg, t, first.state.value, life[1..]);
      ResumptionsSplit(first.log, rest.log);
      if life[0].Own? && life[0].status.Stopped? {
        ResumptionsOfStop(cfg, t, th, life[0].status, life[0].sight);
        HandedBackTogether([life[0].status.sig], [Reinjected(life[0].status)],
                           StopSignals(life[1..]), Resumptions(rest.log));
      } else {
        HandedBackTogether([], [], StopSignals(life[1..]), Resumptions(rest.log));
      }
    }
  }

  /** The signals handed back, stop by stop, in a life whose thread is tracked from the start. */
  function Handed(stops: seq<nat>): (sigs: seq<nat>)
    ensures HandedBack(stops, sigs)
  {
    seq(|stops|, i requires 0 <= i < |stops| => if stops[i] in {SYSCALL_STOP, SIGTRAP, SIGSTOP} then 0 else stops[i])
  }

  lemma HandedBackOnce(stops: seq<nat>, sigs: seq<nat>)
    requires HandedBack(stops, sigs)
    ensures sigs == Handed(stops)
  {
  }

  /** The inputs cut at the thread's exits. The first stop of a thread not met before is resumed without its signal. */
  function ExpectedSignals(tracked: bool, inputs: seq<Input>): seq<nat>
    decreases |inputs|
  {
    var k := LifeEnd(inputs);
    LifeSignals(tracked, inputs[..k]) + if k == |inputs| then [] else ExpectedSignals(false, inputs[k + 1..])
  }

  function LifeSignals(tracked: bool, life: seq<Input>): seq<nat> {
    if tracked || life == [] then Handed(StopSignals(life))
    else (if life[0].Own? && life[0].status.Stopped? then [0] else []) + Handed(StopSignals(life[1..]))
  }

  lemma LifeResumptions(cfg: Config, t: int, th: Option<Thread>, life: seq<Input>)
    requires forall i | 0 <= i < |life| :: !IsExit(life[i])
    ensures Resumptions(SoloRun(cfg, t, th, life).log) == LifeSignals(th.Some?, life)
  {
    if th.Some? {
      TrackedStopsAreResumed(cfg, t, th.value, life);
      HandedBackOnce(StopSignals(life), Resumptions(SoloRun(cfg, t, th, life).log));
    } else if life != [] {
      var first := SoloStep(cfg, t, th, life[0]);
      var rest := SoloRun(cfg, t, first.state, life[1..]);
      TrackedStopsAreResumed(cfg, t, first.state.value, life[1..]);
      HandedBackOnce(StopSignals(life[1..]), Resumptions(rest.log));
      ResumptionsSplit(first.log, rest.log);
      FirstStopResumed(cfg, t, life[0]);
    }
  }

  lemma FirstStopResumed(cfg: Config, t: int, input: Input)
    requires !IsExit(input)
    ensures Resumptions(SoloStep(cfg, t, None, input).log) == if input.Own? && input.status.Stopped? then [0] else []
  {
    var log := SoloStep(cfg, t, None, input).log;
    if log != [] { assert log == [Resume(t, 0)] && log[1..] == []; }
  }

  lemma ExpectedOfOneLife(tracked: bool, life: seq<Input>)
    requires LifeEnd(life) == |life|
    ensures ExpectedSignals(tracked, life) == LifeSignals(tracked, life)
  {
    assert life[..|life|] == life;
    NothingAdded(LifeSignals(tracked, life));
  }

  lemma {:induction false} ExpectedThroughExit(tracked: bool, inputs: seq<Input>, k: nat)
    requires k == LifeEnd(inputs) < |inputs|
    ensures ExpectedSignals(tracked, inputs)
         == LifeSignals(tracked, inputs[..k]) + ExpectedSignals(false, inputs[k + 1..])
  {
  }

  /** For every sequence of inputs, through any number of exits and reappearances of the thread id: one resumption per
      stop, in order, with the signal that is due. */
  lemma {:induction false} StepperHandsBack(cfg: Config, t: int, th: Option<Thread>, inputs: seq<Input>)
    ensures Resumptions(SoloRun(cfg, t, th, inputs).log) == ExpectedSignals(th.Some?, inputs)
    decreases |inputs|
  {
    var k := LifeEnd(inputs);
    if k < |inputs| {
      var life, rest := inputs[..k], inputs[k + 1..];
      LifeResumptions(cfg, t, th, life);
      FirstLifeThenRest(cfg, t, th, inputs, k);
      ResumptionsSplit(SoloRun(cfg, t, th, life).log, SoloRun(cfg, t, None, rest).log);
      StepperHandsBack(cfg, t, None, rest);
      ExpectedThroughExit(th.Some?, inputs, k);
    } else {
      LifeResumptions(cfg, t, th, inputs);
      ExpectedOfOneLife(th.Some?, inputs);
    }
  }

  /** Whole runs: every thread's stops are resumed with the signals due to its own inputs. */
  lemma RunHandsBack(cfg: Config, m: Threads, ws: seq<Wait>, t: int)
    requires NeverFull(cfg, m, ws)
    ensures Resumptions(ForThread(Run(cfg, m, ws).log, t)) == ExpectedSignals(t in m, InputsOf(cfg, m, ws, t))
  {
    RunIsSolo(cfg, m, ws, t);
    StepperHandsBack(cfg, t, Lookup(m, t), InputsOf(cfg, m, ws, t));
  }

  // ---- When a signal is lost ----

  /** The input with which an untracked life of the thread begins. */
  predicate FirstSeen(tracked: bool, inputs: seq<Input>, i: nat)
    requires i < |inputs|
  {
    if i == 0 then !tracked else IsExit(inputs[i - 1])
  }

  /** A stop with a signal to hand back. */
  predicate CarriesSignal(input: Input) {
    input.Own? && Reinjected(input.status) != 0
  }

  predicate NoneFirstSeenWithSignal(tracked: bool, inputs: seq<Input>) {
    forall i | 0 <= i < |inputs| && FirstSeen(tracked, inputs, i) :: !CarriesSignal(inputs[i])
  }

  lemma {:induction false} StopSignalsSplit(a: seq<Input>, b: seq<Input>)
    ensures StopSignals(a + b) == StopSignals(a) + StopSignals(b)
  {
    if a == [] {
      assert a + b == b;
    } else {
      assert (a + b)[0] == a[0] && (a + b)[1..] == a[1..] + b;
      StopSignalsSplit(a[1..], b);
      Reassociate(if a[0].Own? && a[0].status.Stopped? then [a[0].status.sig] else [], StopSignals(a[1..]),
                  StopSignals(b));
    }
  }

  lemma StopsBehindExit(inputs: seq<Input>, k: nat)
    requires k < |inputs| && IsExit(inputs[k])
    ensures StopSignals(inputs) == StopSignals(inputs[..k]) + StopSignals(inputs[k + 1..])
  {
    assert inputs == inputs[..k] + inputs[k..] && inputs[k..][1..] == inputs[k + 1..];
    StopSignalsSplit(inputs[..k], inputs[k..]);
  }

  lemma EqualParts(a: seq<nat>, b: seq<nat>, a': seq<nat>, b': seq<nat>)
    requires |a| == |a'|
    ensures a + b == a' + b' <==> a == a' && b == b'
  {
    assert (a + b)[..|a|] == a && (a' + b')[..|a|] == a' && (a + b)[|a|..] == b && (a' + b')[|a|..] == b';
  }

  lemma HandedSplits(a: seq<nat>, b: seq<nat>)
    ensures Handed(a + b) == Handed(a) + Handed(b)
  {
  }

  lemma LostThroughExit(sigs: seq<nat>, stops: seq<nat>, sigs': seq<nat>, stops': seq<nat>)
    requires |sigs| == |stops| && |sigs'| == |stops'|
    ensures sigs + sigs' == Handed(stops + stops') <==> sigs == Handed(stops) && sigs' == Handed(stops')
  {
    HandedSplits(stops, stops');
    EqualParts(sigs, sigs', Handed(stops), Handed(stops'));
  }

  /** In one life only the first input, of a thread not tracked, can lose its signal. */
  lemma LifeKeepsSignals(tracked: bool, life: seq<Input>)
    ensures |LifeSignals(tracked, life)| == |StopSignals(life)|
    ensures LifeSignals(tracked, life) == Handed(StopSignals(life))
            <==> tracked || life == [] || !CarriesSignal(life[0])
  {
    if !tracked && life != [] {
      var stops := StopSignals(life[1..]);
      if life[0].Own? && life[0].status.Stopped? {
        assert LifeSignals(tracked, life) == [0] + Handed(stops);
        assert StopSignals(life) == [life[0].status.sig] + stops;
        assert Handed([life[0].status.sig]) == [Reinjected(life[0].status)];
        LostThroughExit([0], [life[0].status.sig], Handed(stops), stops);
      } else {
        assert [] + stops == stops && [] + Handed(stops) == Handed(stops);
      }
    }
  }

  lemma FirstSeenByLives(tracked: bool, inputs: seq<Input>, k: nat)
    requires k < |inputs| && IsExit(inputs[k]) && forall i | 0 <= i < k :: !IsExit(inputs[i])
    ensures NoneFirstSeenWithSignal(tracked, inputs) <==>
            (tracked || k == 0 || !CarriesSignal(inputs[0])) && NoneFirstSeenWithSignal(false, inputs[k + 1..])
  {
    var rest := inputs[k + 1..];
    assert forall i | 0 <= i < |rest| :: FirstSeen(false, rest, i) == FirstSeen(tracked, inputs, k + 1 + i);
    if NoneFirstSeenWithSignal(tracked, inputs) {
      forall i | 0 <= i < |rest| && FirstSeen(false, rest, i) ensures !CarriesSignal(rest[i]) {
        assert rest[i] == inputs[k + 1 + i];
      }
    } else {
      var i :| 0 <= i < |inputs| && FirstSeen(tracked, inputs, i) && CarriesSignal(inputs[i]);
      if i > k { assert rest[i - k - 1] == inputs[i]; }
    }
  }

  lemma FirstSeenInOneLife(tracked: bool, life: seq<Input>)
    requires forall i | 0 <= i < |life| :: !IsExit(life[i])
    ensures NoneFirstSeenWithSignal(tracked, life) <==> tracked || life == [] || !CarriesSignal(life[0])
  {
    if !tracked && life != [] { assert FirstSeen(tracked, life, 0); }
  }

  /** Of the signals that are due, exactly those are lost with which a life begins that is not tracked yet. */
  lemma {:induction false} SignalsLost(tracked: bool, inputs: seq<Input>)
    ensures |ExpectedSignals(tracked, inputs)| == |StopSignals(inputs)|
    ensures ExpectedSignals(tracked, inputs) == Handed(StopSignals(inputs))
            <==> NoneFirstSeenWithSignal(tracked, inputs)
    decreases |inputs|
  {
    var k := LifeEnd(inputs);
    if k == |inputs| {
      ExpectedOfOneLife(tracked, inputs);
      LifeKeepsSignals(tracked, inputs);
      FirstSeenInOneLife(tracked, inputs);
    } else {
      var life, rest := inputs[..k], inputs[k + 1..];
      SignalsLost(false, rest);
      ExpectedThroughExit(tracked, inputs, k);
      StopsBehindExit(inputs, k);
      LifeKeepsSignals(tracked, life);
      LostThroughExit(LifeSignals(tracked, life), StopSignals(life), ExpectedSignals(false, rest), StopSignals(rest));
      FirstSeenByLives(tracked, inputs, k);
    }
  }

  /** In a whole run a thread gets back every signal its stops owe it if and only if it was never first seen at a stop
      with such a signal, neither at the start nor behind an exit. */
  lemma RunLosesSignals(cfg: Config, m: Threads, ws: seq<Wait>, t: int)
    requires NeverFull(cfg, m, ws)
    ensures HandedBack(StopSignals(InputsOf(cfg, m, ws, t)), Resumptions(ForThread(Run(cfg, m, ws).log, t)))
            <==> NoneFirstSeenWithSignal(t in m, InputsOf(cfg, m, ws, t))
  {
    var inputs := InputsOf(cfg, m, ws, t);
    RunHandsBack(cfg, m, ws, t);
    SignalsLost(t in m, inputs);
    if HandedBack(StopSignals(inputs), ExpectedSignals(t in m, inputs)) {
      HandedBackOnce(StopSignals(inputs), ExpectedSignals(t in m, inputs));
    }
  }

  // ---- Every report, even with a full table ----

  /** Requests that let a stopped thread go on: PTRACE_SYSCALL and PTRACE_CONT. */
  function Resumes(log: seq<Output>): nat {
    if log == [] then 0
    else (if log[0].Resume? || log[0].Continue? then 1 else 0) + Resumes(log[1..])
  }

  /** Even with a full table: a stop gets exactly one SYSCALL or CONT, and every other report none,
      unless it was refused for want of room. Nothing is asked of any other thread. */
  lemma ReportsAreResumedOnce(cfg: Config, m: Threads, w: Wait)
    requires w.Reported?
    ensures var refused := w.tid !in m && |m| >= MAX_TRACKED_TIDS;
            Resumes(Handle(cfg, m, w).log) == if w.status.Stopped? || refused then 1 else 0
    ensures forall o | o in Handle(cfg, m, w).log :: o.tid == w.tid
  {
    var log := Handle(cfg, m, w).log;
    if |log| == 1 {
      assert log[1..] == [];
    } else if |log| == 2 {
      assert log[0].Callback? && log[1].Resume? && log[1..] == [log[1]] && log[1..][1..] == [];
      assert Resumes(log[1..]) == 1;
    } else {
      assert log == [];
    }
  }

  /** In every reachable table a thread is marked as capturing only inside a syscall. */
  predicate CapturingInsideSyscall(m: Threads) {
    forall t | t in m :: m[t].capturing ==> m[t].inSyscall
  }

  lemma CapturingStep(cfg: Config, m: Threads, w: Wait)
    requires CapturingInsideSyscall(m)
    ensures CapturingInsideSyscall(Handle(cfg, m, w).threads)
  {
    var m' := Handle(cfg, m, w).threads;
    forall t | t in m' ensures m'[t].capturing ==> m'[t].inSyscall {
      if !(w.Reported? && t == w.tid) {
        assert m'[t] == ZEROED || (t in m && m'[t] == m[t]);
      }
    }
  }

  lemma {:induction false} CapturingStaysInsideSyscall(cfg: Config, m: Threads, ws: seq<Wait>)
    requires CapturingInsideSyscall(m)
    ensures CapturingInsideSyscall(Run(cfg, m, ws).threads)
    decreases |ws|
  {
    if ws != [] {
      CapturingStep(cfg, m, ws[0]);
      var h := Handle(cfg, m, ws[0]);
      if h.outcome.Running? { CapturingStaysInsideSyscall(cfg, h.threads, ws[1..]); }
    }
  }
}
