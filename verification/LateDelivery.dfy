/** Runs of the application in which pushes and pops are handled late (app.go): what a screen asks for becomes a message
    of its own, and other messages may be handled before it. */
module LateDelivery {
  import opened Words
  import opened App
  import TreeScreen

  // ---- Runs ----

  /** A push or pop that was asked for and is still to be handled, and the screen that asked for it. */
  datatype Due = Due(msg: Msg<View>, from: View)

  datatype State = State(stack: seq<View>, due: seq<Due>)

  /** A message from outside, or one of the outstanding ones, in any order. */
  datatype Event = Arrives(m: Msg<View>) | Delivers(k: nat)

  datatype Happened = Happened(state: State, cmd: Cmd<View>)

  predicate Outside(evs: seq<Event>) {
    forall i | 0 <= i < |evs| && evs[i].Arrives? :: External(evs[i].m)
  }

  function Outstanding(c: Cmd<View>, from: View): seq<Due> {
    if c.PushCmd? then [Due(Push(c.screen), from)] else if c.PopCmd? then [Due(Pop(c.result), from)] else []
  }

  function Handling(edit: TextInput, s: State, m: Msg<View>, left: seq<Due>): Happened
    requires s.stack != []
  {
    var h := Handle(edit, s.stack, m);
    Happened(State(h.stack, left + Outstanding(h.cmd, Top(s.stack))), h.cmd)
  }

  function Step(edit: TextInput, s: State, ev: Event): (h: Happened)
    requires s.stack != []
    ensures h.state.stack != []
  {
    if ev.Arrives? then Handling(edit, s, ev.m, s.due)
    else if ev.k < |s.due| then Handling(edit, s, s.due[ev.k].msg, s.due[..ev.k] + s.due[ev.k + 1..])
    else Happened(s, Later)
  }

  const START := State([TableView], [])

  /** The state after a run. */
  function Reach(edit: TextInput, evs: seq<Event>): (s: State)
    ensures s.stack != []
  {
    if evs == [] then START else Step(edit, Reach(edit, evs[..|evs| - 1]), evs[|evs| - 1]).state
  }

  lemma ReachStep(edit: TextInput, evs: seq<Event>, ev: Event)
    ensures Reach(edit, evs + [ev]) == Step(edit, Reach(edit, evs), ev).state
  {
    assert (evs + [ev])[..|evs|] == evs;
  }

  // ---- What every run keeps ----

  /** The table is at the bottom and nowhere else. */
  predicate OnGround(stack: seq<View>) {
    stack != [] && stack[0] == TableView && forall i | 0 < i < |stack| :: stack[i] != TableView
  }

  /** And only pushes and pops are outstanding. */
  predicate Grounded(s: State) {
    && OnGround(s.stack)
    && (forall i | 0 <= i < |s.due| :: s.due[i].msg.Pop? || (s.due[i].msg.Push? && s.due[i].msg.screen != TableView))
  }

  lemma UpdateKeepsKind(edit: TextInput, v: View, m: Msg<View>)
    ensures var u := Update(edit, v, m);
            && (u.view.TableView? <==> v.TableView?) && (u.cmd.PopCmd? ==> !v.TableView?)
            && (u.cmd.PushCmd? ==> u.cmd.screen != TableView)
            && (u.view.DetailView? <==> v.DetailView?) && (v.DetailView? ==> u.view.entry == v.entry)
            && (IsQuestion(u.view) <==> IsQuestion(v)) && forall a, e :: Asks(u.view, a, e) <==> Asks(v, a, e)
  {
  }

  predicate IsQuestion(v: View) {
    v.ConfirmView? || v.KillView?
  }

  /** The stack a message leaves: the top updated, one screen more, or one less and its new top updated. */
  lemma HandleShape(edit: TextInput, stack: seq<View>, m: Msg<View>)
    requires stack != []
    ensures var h := Handle(edit, stack, m);
            if m.Push? then h.stack == stack + [m.screen] && h.cmd == Later
            else if m.Pop? then
              var below := if |stack| > 1 then stack[..|stack| - 1] else stack;
              if m.result.None? then h.stack == below && h.cmd == Later
              else h == ToTop(edit, below, Returned(m.result.value))
            else h == ToTop(edit, stack, m) || h == Handled(stack, Quit)
  {
  }

  lemma StepKeepsGrounded(edit: TextInput, s: State, ev: Event)
    requires Grounded(s) && (ev.Arrives? ==> External(ev.m))
    ensures Grounded(Step(edit, s, ev).state)
  {
    if ev.Arrives? || ev.k < |s.due| {
      var m := if ev.Arrives? then ev.m else s.due[ev.k].msg;
      var below := if m.Pop? && |s.stack| > 1 then s.stack[..|s.stack| - 1] else s.stack;
      HandleShape(edit, s.stack, m);
      UpdateKeepsKind(edit, Top(below), if m.Pop? && m.result.Some? then Returned(m.result.value) else m);
    }
  }

  lemma {:induction false} RunsAreGrounded(edit: TextInput, evs: seq<Event>)
    requires Outside(evs)
    ensures Grounded(Reach(edit, evs))
  {
    if evs != [] {
      RunsAreGrounded(edit, evs[..|evs| - 1]);
      StepKeepsGrounded(edit, Reach(edit, evs[..|evs| - 1]), evs[|evs| - 1]);
    }
  }

  // ---- The last action asked for ----

  function ActionOf(key: string): Option<Action> {
    if key == "t" then Some(Truncate) else if key == "h" then Some(Hup) else if key == "k" then Some(Kill) else None
  }

  /** The message an event has handled. */
  function MessageOf(s: State, ev: Event): Option<Msg<View>> {
    if ev.Arrives? then Some(ev.m) else if ev.k < |s.due| then Some(s.due[ev.k].msg) else None
  }

  /** The last action key that the screen at index `k` of the stack handled since it was pushed and since its last
      result, read off the run alone. */
  function LastAction(edit: TextInput, evs: seq<Event>, k: nat): Option<Action> {
    if evs == [] then None
    else
      var before := LastAction(edit, evs[..|evs| - 1], k);
      var s := Reach(edit, evs[..|evs| - 1]);
      var m := MessageOf(s, evs[|evs| - 1]);
      if m.None? then before else ActionAfter(before, |s.stack|, m.value, k)
  }

  function ActionAfter(before: Option<Action>, height: nat, m: Msg<View>, k: nat): Option<Action> {
    if m.Key? && height == k + 1 && ActionOf(m.key).Some? then ActionOf(m.key)
    else if m.Push? && height == k then None
    else if m.Pop? && m.result.Some? && height == k + 2 then None
    else before
  }

  lemma DetailAfter(d: View, m: Msg<View>)
    requires d.DetailView? && !m.Push? && !m.Pop? && !m.Returned?
    ensures DetailUpdate(d, m).view.pending == if m.Key? && ActionOf(m.key).Some? then ActionOf(m.key) else d.pending
  {
  }

  lemma PendingStep(edit: TextInput, stack: seq<View>, m: Msg<View>, k: nat, before: Option<Action>)
    requires stack != [] && stack[0] == TableView && !m.Returned?
    requires m.Push? ==> !m.screen.DetailView? || m.screen.pending.None?
    requires k < |stack| && stack[k].DetailView? ==> stack[k].pending == before
    ensures var h := Handle(edit, stack, m);
            k < |h.stack| && h.stack[k].DetailView? ==> h.stack[k].pending == ActionAfter(before, |stack|, m, k)
  {
    HandleShape(edit, stack, m);
    var n := |stack|;
    if !m.Push? && !m.Pop? && k == n - 1 && stack[k].DetailView? { DetailAfter(stack[k], m); }
  }

  /** New detail screens have nothing pending. */
  predicate FreshDetails(due: seq<Due>) {
    forall i | 0 <= i < |due| && due[i].msg.Push? && due[i].msg.screen.DetailView? :: due[i].msg.screen.pending.None?
  }

  lemma PushedDetailsAreFresh(edit: TextInput, v: View, m: Msg<View>)
    ensures var c := Update(edit, v, m).cmd; c.PushCmd? && c.screen.DetailView? ==> c.screen.pending.None?
  {
  }

  lemma StepKeepsFresh(edit: TextInput, s: State, ev: Event)
    requires s.stack != [] && FreshDetails(s.due)
    ensures FreshDetails(Step(edit, s, ev).state.due)
  {
    if ev.Arrives? || ev.k < |s.due| {
      var m := if ev.Arrives? then ev.m else s.due[ev.k].msg;
      var below := if m.Pop? && |s.stack| > 1 then s.stack[..|s.stack| - 1] else s.stack;
      HandleShape(edit, s.stack, m);
      PushedDetailsAreFresh(edit, Top(below), if m.Pop? && m.result.Some? then Returned(m.result.value) else m);
    }
  }

  lemma {:induction false} RunsPushFresh(edit: TextInput, evs: seq<Event>)
    ensures FreshDetails(Reach(edit, evs).due)
  {
    if evs != [] {
      RunsPushFresh(edit, evs[..|evs| - 1]);
      StepKeepsFresh(edit, Reach(edit, evs[..|evs| - 1]), evs[|evs| - 1]);
    }
  }

  lemma PendingAfter(edit: TextInput, s: State, ev: Event, k: nat, before: Option<Action>)
    requires Grounded(s) && FreshDetails(s.due) && (ev.Arrives? ==> External(ev.m))
    requires k < |s.stack| && s.stack[k].DetailView? ==> s.stack[k].pending == before
    ensures var stack, m := Step(edit, s, ev).state.stack, MessageOf(s, ev);
            k < |stack| && stack[k].DetailView? ==>
              stack[k].pending == if m.None? then before else ActionAfter(before, |s.stack|, m.value, k)
  {
    var m := MessageOf(s, ev);
    if m.Some? { PendingStep(edit, s.stack, m.value, k, before); }
  }

  /** In every run, whatever is handled late: what a detail screen has pending is the last action key it handled since
      its last result. */
  lemma {:induction false} PendingIsLastAction(edit: TextInput, evs: seq<Event>, k: nat)
    requires Outside(evs)
    ensures var stack := Reach(edit, evs).stack;
            k < |stack| && stack[k].DetailView? ==> stack[k].pending == LastAction(edit, evs, k)
  {
    if evs != [] {
      var prior := evs[..|evs| - 1];
      PendingIsLastAction(edit, prior, k);
      RunsAreGrounded(edit, prior);
      RunsPushFresh(edit, prior);
      PendingAfter(edit, Reach(edit, prior), evs[|evs| - 1], k, LastAction(edit, prior, k));
    }
  }

  // ---- Which request goes out ----

  /** The screen a pop uncovers. */
  function Uncovered(stack: seq<View>): View
    requires stack != []
  {
    if |stack| > 1 then stack[|stack| - 2] else stack[0]
  }

  lemma SendsWhen(edit: TextInput, stack: seq<View>, m: Msg<View>, a: Action, e: Entry)
    requires stack != [] && stack[0] == TableView && !m.Returned?
    ensures Handle(edit, stack, m).cmd == Send(a, e) <==>
            && m == Pop(Some(Confirmed(true))) && |stack| > 1
            && Uncovered(stack).DetailView? && Uncovered(stack).pending == Some(a) && Uncovered(stack).entry == e
  {
    HandleShape(edit, stack, m);
  }

  /** A yes that is outstanding was given by the screen it names: "y" to a confirmation, or Enter with the word. */
  predicate YesGiven(edit: TextInput, evs: seq<Event>, j: nat, from: View) {
    && j < |evs| && evs[j].Arrives? && from == Top(Reach(edit, evs[..j]).stack)
    && IsQuestion(from) && Decision(from, evs[j].m) == Some(true)
  }

  predicate IsYes(m: Msg<View>) {
    m == Pop(Some(Confirmed(true)))
  }

  lemma YesOutstanding(edit: TextInput, stack: seq<View>, m: Msg<View>)
    requires stack != [] && !m.Returned? && Handle(edit, stack, m).cmd == PopCmd(Some(Confirmed(true)))
    ensures m.Key? && IsQuestion(Top(stack)) && Decision(Top(stack), m) == Some(true)
  {
    HandleShape(edit, stack, m);
  }

  lemma {:induction false} YesHasAQuestion(edit: TextInput, evs: seq<Event>, k: nat) returns (j: nat)
    requires Outside(evs) && k < |Reach(edit, evs).due| && IsYes(Reach(edit, evs).due[k].msg)
    ensures YesGiven(edit, evs, j, Reach(edit, evs).due[k].from)
  {
    var prior, ev := evs[..|evs| - 1], evs[|evs| - 1];
    RunsAreGrounded(edit, prior);
    var k' := WhereFrom(edit, Reach(edit, prior), ev, k);
    if k'.Some? {
      j := YesHasAQuestion(edit, prior, k'.value);
      assert evs[..j] == prior[..j];
    } else {
      j := |prior|;
    }
  }

  /** An outstanding yes was outstanding before, or was just given. */
  lemma WhereFrom(edit: TextInput, s: State, ev: Event, k: nat) returns (k': Option<nat>)
    requires Grounded(s) && (ev.Arrives? ==> External(ev.m))
    requires var due := Step(edit, s, ev).state.due; k < |due| && IsYes(due[k].msg)
    ensures var due := Step(edit, s, ev).state.due;
            if k'.Some? then k'.value < |s.due| && s.due[k'.value] == due[k]
            else ev.Arrives? && due[k].from == Top(s.stack) && IsQuestion(Top(s.stack))
                 && Decision(Top(s.stack), ev.m) == Some(true)
  {
    var m := MessageOf(s, ev);
    var left := if ev.Delivers? && ev.k < |s.due| then s.due[..ev.k] + s.due[ev.k + 1..] else s.due;
    if k < |left| {
      k' := Some(if ev.Delivers? && ev.k < |s.due| && k >= ev.k then k + 1 else k);
    } else {
      k' := None;
      YesOutstanding(edit, s.stack, m.value);
    }
  }

  /** A yes is handled that uncovers a detail screen on `e` whose last action, `last`, is `a`. */
  predicate GoesOut(stack: seq<View>, m: Msg<View>, last: Option<Action>, a: Action, e: Entry) {
    IsYes(m) && |stack| > 1 && Uncovered(stack).DetailView? && Uncovered(stack).entry == e && last == Some(a)
  }

  lemma SendsLast(edit: TextInput, stack: seq<View>, m: Msg<View>, last: Option<Action>)
    requires OnGround(stack) && !m.Returned?
    requires |stack| > 1 && Uncovered(stack).DetailView? ==> Uncovered(stack).pending == last
    ensures forall a, e :: Handle(edit, stack, m).cmd == Send(a, e) <==> GoesOut(stack, m, last, a, e)
  {
    forall a, e ensures Handle(edit, stack, m).cmd == Send(a, e) <==> GoesOut(stack, m, last, a, e) {
      SendsWhen(edit, stack, m, a, e);
    }
  }

  /** The last action of the screen that a pop uncovers. */
  function LastUncovered(edit: TextInput, evs: seq<Event>): Option<Action> {
    var n := |Reach(edit, evs).stack|;
    if n > 1 then LastAction(edit, evs, n - 2) else None
  }

  lemma UncoveredIs(stack: seq<View>, last: Option<Action>)
    requires |stack| > 1 && (stack[|stack| - 2].DetailView? ==> stack[|stack| - 2].pending == last)
    ensures Uncovered(stack).DetailView? ==> Uncovered(stack).pending == last
  {
  }

  lemma UncoveredPending(edit: TextInput, evs: seq<Event>)
    requires Outside(evs)
    ensures var stack := Reach(edit, evs).stack;
            |stack| > 1 && Uncovered(stack).DetailView? ==> Uncovered(stack).pending == LastUncovered(edit, evs)
  {
    var stack := Reach(edit, evs).stack;
    if |stack| > 1 {
      var last := LastAction(edit, evs, |stack| - 2);
      PendingIsLastAction(edit, evs, |stack| - 2);
      UncoveredIs(stack, last);
    }
  }

  /** For every run, however late pushes and pops are handled: a request goes out exactly when a yes is handled that
      uncovers a detail screen with a last action, and it is that action on that screen's entry. The request is
      therefore the question's own exactly when the question asks for that action on that entry. */
  lemma WhichRequest(edit: TextInput, evs: seq<Event>, ev: Event, m: Msg<View>)
    requires Outside(evs) && (ev.Arrives? ==> External(ev.m))
    requires MessageOf(Reach(edit, evs), ev) == Some(m)
    ensures forall a, e :: Step(edit, Reach(edit, evs), ev).cmd == Send(a, e) <==>
              GoesOut(Reach(edit, evs).stack, m, LastUncovered(edit, evs), a, e)
  {
    RunsAreGrounded(edit, evs);
    UncoveredPending(edit, evs);
    SendsLast(edit, Reach(edit, evs).stack, m, LastUncovered(edit, evs));
  }

  /** A yes whose pop uncovers a detail screen that was last asked for something else than `from` asks. */
  predicate UncoversOther(edit: TextInput, evs: seq<Event>, due: Due) {
    var stack, last := Reach(edit, evs).stack, LastUncovered(edit, evs);
    && IsYes(due.msg) && |stack| > 1 && Uncovered(stack).DetailView?
    && last.Some? && !Asks(due.from, last.value, Uncovered(stack).entry)
  }

  /** So in every run a yes sends a request other than the one its own question asks for exactly when the screen that
      its pop uncovers was last asked for something else. */
  lemma AnswersAnother(edit: TextInput, evs: seq<Event>, k: nat)
    requires Outside(evs) && k < |Reach(edit, evs).due|
    ensures var due, c := Reach(edit, evs).due[k], Step(edit, Reach(edit, evs), Delivers(k)).cmd;
            c.Send? && !Asks(due.from, c.action, c.entry) <==> UncoversOther(edit, evs, due)
  {
    var s := Reach(edit, evs);
    var due, c := s.due[k], Step(edit, s, Delivers(k)).cmd;
    WhichRequest(edit, evs, Delivers(k), due.msg);
    if UncoversOther(edit, evs, due) {
      var a, e := LastUncovered(edit, evs).value, Uncovered(s.stack).entry;
      assert GoesOut(s.stack, due.msg, LastUncovered(edit, evs), a, e);
      assert c == Send(a, e);
    }
    if c.Send? { assert GoesOut(s.stack, due.msg, LastUncovered(edit, evs), c.action, c.entry); }
  }

  /** And some question was answered yes before: "y" to a confirmation, or Enter with exactly the word in the input. */
  lemma RequestHasAYes(edit: TextInput, evs: seq<Event>, ev: Event) returns (j: nat)
    requires Outside(evs) && (ev.Arrives? ==> External(ev.m)) && Step(edit, Reach(edit, evs), ev).cmd.Send?
    ensures ev.Delivers? && ev.k < |Reach(edit, evs).due|
    ensures YesGiven(edit, evs, j, Reach(edit, evs).due[ev.k].from)
  {
    var s, c := Reach(edit, evs), Step(edit, Reach(edit, evs), ev).cmd;
    var m := MessageOf(s, ev).value;
    RunsAreGrounded(edit, evs);
    SendsWhen(edit, s.stack, m, c.action, c.entry);
    j := YesHasAQuestion(edit, evs, ev.k);
  }

  // ---- One event on the stack ----

  lemma PopShape(edit: TextInput, below: seq<View>, d: View, v: View, r: Option<Result>)
    ensures Handle(edit, below + [d] + [v], Pop(r)) ==
      if r.None? then Handled(below + [d], Later)
      else Handled(below + [Update(edit, d, Returned(r.value)).view], Update(edit, d, Returned(r.value)).cmd)
  {
    assert (below + [d] + [v])[..|below| + 1] == below + [d];
    if r.Some? { PopOf(edit, below, d, v, r.value); }
  }

  function OnTop(edit: TextInput, v: View, m: Msg<View>): Updated {
    if m.Key? && m.key == "ctrl+c" then Updated(v, Quit) else Update(edit, v, m)
  }

  lemma ArrivesShape(edit: TextInput, below: seq<View>, v: View, due: seq<Due>, m: Msg<View>)
    requires External(m)
    ensures Step(edit, State(below + [v], due), Arrives(m)).state
         == State(below + [OnTop(edit, v, m).view], due + Outstanding(OnTop(edit, v, m).cmd, v))
  {
    ToTopOf(edit, below, v, m);
  }

  function Pressed(key: string): Msg<View> {
    Key(key, Stay, TreeScreen.Nothing)
  }

  // ---- A run that fails ----

  lemma Extend(edit: TextInput, evs: seq<Event>, ev: Event, s: State)
    requires Step(edit, Reach(edit, evs), ev).state == s
    ensures Reach(edit, evs + [ev]) == s
  {
    ReachStep(edit, evs, ev);
  }

  lemma ExtendArrival(edit: TextInput, evs: seq<Event>, below: seq<View>, v: View, due: seq<Due>,
                                         m: Msg<View>, v': View, asked: seq<Due>)
    requires Reach(edit, evs) == State(below + [v], due) && External(m)
    requires OnTop(edit, v, m).view == v' && Outstanding(OnTop(edit, v, m).cmd, v) == asked
    ensures Reach(edit, evs + [Arrives(m)]) == State(below + [v'], due + asked)
  {
    ArrivesShape(edit, below, v, due, m);
    Extend(edit, evs, Arrives(m), State(below + [v'], due + asked));
  }

  lemma PushDelivered(edit: TextInput, stack: seq<View>, d: Due, rest: seq<Due>)
    requires stack != [] && d.msg.Push?
    ensures Step(edit, State(stack, [d] + rest), Delivers(0)).state == State(stack + [d.msg.screen], rest)
  {
    assert ([d] + rest)[..0] + ([d] + rest)[1..] == rest;
  }

  lemma PopDelivered(edit: TextInput, below: seq<View>, d: View, v: View, due: Due)
    requires due.msg.Pop? && due.msg.result.Some?
    ensures var h := Step(edit, State(below + [d] + [v], [due]), Delivers(0));
            var u := Update(edit, d, Returned(due.msg.result.value));
            && h.cmd == u.cmd && h.state.stack == below + [u.view]
            && (!u.cmd.PushCmd? && !u.cmd.PopCmd? ==> h.state.due == [])
  {
    assert [due][..0] + [due][1..] == [];
    PopShape(edit, below, d, v, due.msg.result);
  }

  /** The entry is opened, "t" and then "k" are pressed before the question that "t" asks for is pushed, and the kill
      question is escaped. */
  function EarlyKeyRun(e: Entry): seq<Event> {
    [Arrives(Key("enter", ShowEntry(e), TreeScreen.Nothing)), Delivers(0)]
    + [Arrives(Pressed("t"))] + [Arrives(Pressed("k"))] + [Delivers(0)] + [Delivers(0)]
    + [Arrives(Pressed("esc"))] + [Delivers(0)] + [Arrives(Pressed("y"))]
  }

  lemma DetailOpened(edit: TextInput, e: Entry)
    ensures Reach(edit, [Arrives(Key("enter", ShowEntry(e), TreeScreen.Nothing)), Delivers(0)])
         == State([TableView] + [DetailView(e, None, "")], [])
  {
    var m := Key("enter", ShowEntry(e), TreeScreen.Nothing);
    var evs := [Arrives(m)];
    var due := Due(Push(DetailView(e, None, "")), TableView);
    assert [] + [TableView] == [TableView] && [] + [Arrives(m)] == evs;
    ArrivesShape(edit, [], TableView, [], m);
    Extend(edit, [], Arrives(m), State([TableView], [due]));
    PushDelivered(edit, [TableView], due, []);
    assert [due] + [] == [due];
    Extend(edit, evs, Delivers(0), State([TableView] + [DetailView(e, None, "")], []));
    assert evs + [Delivers(0)] == [Arrives(m), Delivers(0)];
  }

  lemma TruncateKey(edit: TextInput, d: View)
    requires d.DetailView?
    ensures var u := OnTop(edit, d, Pressed("t"));
            && u.view == d.(pending := Some(Truncate))
            && Outstanding(u.cmd, d) == [Due(Push(ConfirmView(Truncate, d.entry)), d)]
  {
  }

  lemma KillKey(edit: TextInput, d: View)
    requires d.DetailView?
    ensures var u := OnTop(edit, d, Pressed("k"));
            u.view == d.(pending := Some(Kill)) && Outstanding(u.cmd, d) == [Due(Push(KillView(d.entry, "")), d)]
  {
  }

  lemma KeysHandled(edit: TextInput, d: View, c: View, q: View, evs: seq<Event>)
    requires d.DetailView? && c == ConfirmView(Truncate, d.entry) && q == KillView(d.entry, "")
    requires Reach(edit, evs) == State([TableView] + [d], [])
    ensures Reach(edit, evs + [Arrives(Pressed("t"))] + [Arrives(Pressed("k"))])
         == State([TableView] + [d.(pending := Some(Kill))],
                  [Due(Push(c), d)] + [Due(Push(q), d.(pending := Some(Truncate)))])
  {
    var d' := d.(pending := Some(Truncate));
    var t, k := Due(Push(c), d), Due(Push(q), d');
    TruncateKey(edit, d);
    KillKey(edit, d');
    ExtendArrival(edit, evs, [TableView], d, [], Pressed("t"), d', [t]);
    assert [] + [t] == [t];
    ExtendArrival(edit, evs + [Arrives(Pressed("t"))], [TableView], d', [t], Pressed("k"),
                  d.(pending := Some(Kill)), [k]);
  }

  lemma BothPushed(edit: TextInput, stack: seq<View>, p: Due, q: Due, evs: seq<Event>)
    requires stack != [] && p.msg.Push? && q.msg.Push? && Reach(edit, evs) == State(stack, [p] + [q])
    ensures Reach(edit, evs + [Delivers(0)] + [Delivers(0)]) == State(stack + [p.msg.screen] + [q.msg.screen], [])
  {
    PushDelivered(edit, stack, p, [q]);
    Extend(edit, evs, Delivers(0), State(stack + [p.msg.screen], [q]));
    assert [q] + [] == [q];
    PushDelivered(edit, stack + [p.msg.screen], q, []);
    Extend(edit, evs + [Delivers(0)], Delivers(0), State(stack + [p.msg.screen] + [q.msg.screen], []));
  }

  lemma EscapePressed(edit: TextInput, below: seq<View>, q: View, evs: seq<Event>)
    requires q.KillView? && Reach(edit, evs) == State(below + [q], [])
    ensures Reach(edit, evs + [Arrives(Pressed("esc"))]) == State(below + [q], [Due(Pop(Some(Confirmed(false))), q)])
  {
    var no := Due(Pop(Some(Confirmed(false))), q);
    ExtendArrival(edit, evs, below, q, [], Pressed("esc"), q, [no]);
    assert [] + [no] == [no];
  }

  lemma KillEscaped(edit: TextInput, below: seq<View>, c: View, q: View, evs: seq<Event>)
    requires q.KillView? && c.ConfirmView? && Reach(edit, evs) == State(below + [c] + [q], [])
    ensures Reach(edit, evs + [Arrives(Pressed("esc"))] + [Delivers(0)]) == State(below + [c], [])
  {
    EscapePressed(edit, below + [c], q, evs);
    PopDelivered(edit, below, c, q, Due(Pop(Some(Confirmed(false))), q));
    Extend(edit, evs + [Arrives(Pressed("esc"))], Delivers(0), State(below + [c], []));
  }

  lemma YesPressed(edit: TextInput, below: seq<View>, c: View, evs: seq<Event>)
    requires c.ConfirmView? && Reach(edit, evs) == State(below + [c], [])
    ensures Reach(edit, evs + [Arrives(Pressed("y"))]) == State(below + [c], [Due(Pop(Some(Confirmed(true))), c)])
  {
    var yes := Due(Pop(Some(Confirmed(true))), c);
    ExtendArrival(edit, evs, below, c, [], Pressed("y"), c, [yes]);
    assert [] + [yes] == [yes];
  }

  lemma EarlyKeyReached(edit: TextInput, e: Entry)
    ensures Reach(edit, EarlyKeyRun(e))
         == State([TableView] + [DetailView(e, Some(Kill), "")] + [ConfirmView(Truncate, e)],
                  [Due(Pop(Some(Confirmed(true))), ConfirmView(Truncate, e))])
  {
    var evs := [Arrives(Key("enter", ShowEntry(e), TreeScreen.Nothing)), Delivers(0)];
    DetailOpened(edit, e);
    var d, c, q := DetailView(e, None, ""), ConfirmView(Truncate, e), KillView(e, "");
    KeysHandled(edit, d, c, q, evs);
    BothPushed(edit, [TableView] + [d.(pending := Some(Kill))], Due(Push(c), d),
               Due(Push(q), d.(pending := Some(Truncate))), evs + [Arrives(Pressed("t"))] + [Arrives(Pressed("k"))]);
    var evs' := evs + [Arrives(Pressed("t"))] + [Arrives(Pressed("k"))] + [Delivers(0)] + [Delivers(0)];
    var below := [TableView] + [DetailView(e, Some(Kill), "")];
    KillEscaped(edit, below, c, q, evs');
    YesPressed(edit, below, c, evs' + [Arrives(Pressed("esc"))] + [Delivers(0)]);
  }

  lemma EarlyKeyIsOutside(e: Entry)
    ensures Outside(EarlyKeyRun(e))
  {
  }

  /** From the first screen on: with "k" pressed before the push that "t" asked for, "y" to the truncate question
      sends the kill, though no word was typed. */
  lemma EarlyKeyMixesActions(edit: TextInput, e: Entry)
    ensures var run := EarlyKeyRun(e);
            && Outside(run) && Step(edit, Reach(edit, run), Delivers(0)).cmd == Send(Kill, e)
            && Reach(edit, run).due == [Due(Pop(Some(Confirmed(true))), ConfirmView(Truncate, e))]
  {
    EarlyKeyReached(edit, e);
    EarlyKeyIsOutside(e);
    PopDelivered(edit, [TableView], DetailView(e, Some(Kill), ""), ConfirmView(Truncate, e),
                 Due(Pop(Some(Confirmed(true))), ConfirmView(Truncate, e)));
  }

  // ---- Prompt runs are among these ----

  lemma NothingMore(edit: TextInput, stack: seq<View>, m: Msg<View>)
    requires stack != [] && (m.Push? || m.Pop?)
    ensures var c := Handle(edit, stack, m).cmd; !c.PushCmd? && !c.PopCmd?
  {
    HandleShape(edit, stack, m);
  }

  lemma LastOne(edit: TextInput, stack: seq<View>, before: seq<Due>, due: Due)
    requires stack != [] && (due.msg.Push? || due.msg.Pop?)
    ensures Step(edit, State(stack, before + [due]), Delivers(|before|)).state
         == State(Handle(edit, stack, due.msg).stack, before)
  {
    NothingMore(edit, stack, due.msg);
    assert (before + [due])[..|before|] + (before + [due])[|before| + 1..] + [] == before;
  }

  /** A message and at once what it asks for, whatever else is outstanding. */
  lemma PromptIsAmong(edit: TextInput, s: State, m: Msg<View>)
    requires s.stack != [] && External(m)
    ensures var t := Step(edit, s, Arrives(m)).state;
            var r := if t.due == s.due then t else Step(edit, t, Delivers(|s.due|)).state;
            r == State(Prompt(edit, s.stack, m).stack, s.due)
  {
    var h, t := Handle(edit, s.stack, m), Step(edit, s, Arrives(m)).state;
    if h.cmd.PushCmd? || h.cmd.PopCmd? {
      var due := Outstanding(h.cmd, Top(s.stack))[0];
      assert t == State(h.stack, s.due + [due]);
      LastOne(edit, h.stack, s.due, due);
    } else {
      assert s.due + [] == s.due;
    }
  }
}
