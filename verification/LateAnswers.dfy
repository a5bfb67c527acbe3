/** When a yes can send a request other than the one its question asks for, if pushes and pops are handled late
    (app.go, detail_screen.go). */
module LateAnswers {
  import opened Words
  import opened App
  import opened LateDelivery
  import EntryWire
  import TreeScreen

  // ---- When a request can answer another question ----

  /** A question on a detail screen with something else pending: another action, or another entry. */
  predicate Mismatch(d: View, v: View) {
    d.DetailView? && d.pending.Some? && IsQuestion(v) && !Asks(v, d.pending.value, d.entry)
  }

  predicate MixedAt(stack: seq<View>, k: nat) {
    0 < k < |stack| && Mismatch(stack[k - 1], stack[k])
  }

  ghost predicate Mixed(stack: seq<View>) {
    exists k :: MixedAt(stack, k)
  }

  /** A message, its push or pop handled at once, that sends a request other than the one the question on top asks
      for. */
  predicate Misanswers(edit: TextInput, stack: seq<View>, m: Msg<View>)
    requires stack != []
  {
    var c := Prompt(edit, stack, m).cmd;
    c.Send? && !Asks(Top(stack), c.action, c.entry)
  }

  // ---- Without a mixed-up question every answer is its own ----

  lemma UpdatedTopMatches(below: seq<View>, v: View, u: View)
    requires !Mixed(below + [v])
    requires (IsQuestion(u) <==> IsQuestion(v)) && forall a, e :: Asks(u, a, e) <==> Asks(v, a, e)
    ensures !Mixed(below + [u])
  {
    forall k ensures !MixedAt(below + [u], k) {
      assert !MixedAt(below + [v], k);
    }
  }

  lemma PushedTopMatches(stack: seq<View>, s: View)
    requires stack != [] && !Mixed(stack) && !Mismatch(Top(stack), s)
    ensures !Mixed(stack + [s])
  {
    forall k ensures !MixedAt(stack + [s], k) {
      assert !MixedAt(stack, k);
    }
  }

  lemma PoppedStaysUnmixed(stack: seq<View>)
    requires |stack| > 1 && !Mixed(stack)
    ensures !Mixed(stack[..|stack| - 1]) && !Mismatch(Uncovered(stack), Top(stack))
  {
    var below := stack[..|stack| - 1];
    assert !MixedAt(stack, |stack| - 1);
    forall k ensures !MixedAt(below, k) {
      assert !MixedAt(stack, k);
    }
  }

  lemma AskedOfItself(edit: TextInput, v: View, m: Msg<View>)
    requires External(m)
    ensures var u := Update(edit, v, m); u.cmd.PushCmd? ==> !Mismatch(u.view, u.cmd.screen)
    ensures var u := Update(edit, v, m);
            u.cmd == PopCmd(Some(Confirmed(true))) ==> IsQuestion(v) && !u.cmd.PushCmd?
  {
  }

  lemma ResultSends(edit: TextInput, d: View, r: Result)
    ensures var c := Update(edit, d, Returned(r)).cmd;
            !c.PushCmd? && !c.PopCmd? &&
            forall a, e ::
              c == Send(a, e) <==> r == Confirmed(true) && d.DetailView? && d.pending == Some(a) && d.entry == e
  {
  }

  lemma UnmixedPop(edit: TextInput, stack: seq<View>, r: Option<Result>)
    requires |stack| > 1 && !Mixed(stack)
    ensures !Mixed(Handle(edit, stack, Pop(r)).stack)
    ensures forall a, e :: Handle(edit, stack, Pop(r)).cmd == Send(a, e) ==>
              r == Some(Confirmed(true)) && (IsQuestion(Top(stack)) ==> Asks(Top(stack), a, e))
  {
    var n := |stack|;
    var below, d, v := stack[..n - 2], stack[n - 2], stack[n - 1];
    assert stack == below + [d] + [v] && stack[..n - 1] == below + [d];
    PoppedStaysUnmixed(stack);
    PopShape(edit, below, d, v, r);
    if r.Some? {
      UpdateKeepsKind(edit, d, Returned(r.value));
      UpdatedTopMatches(below, d, Update(edit, d, Returned(r.value)).view);
      ResultSends(edit, d, r.value);
    }
  }

  lemma ArrivalKeepsUnmixed(edit: TextInput, stack: seq<View>, m: Msg<View>)
    requires OnGround(stack) && !Mixed(stack) && External(m)
    ensures !Mixed(Handle(edit, stack, m).stack) && OnGround(Handle(edit, stack, m).stack)
  {
    var below, v := stack[..|stack| - 1], Top(stack);
    assert stack == below + [v];
    ToTopOf(edit, below, v, m);
    UpdateKeepsKind(edit, v, m);
    UpdatedTopMatches(below, v, Update(edit, v, m).view);
  }

  /** What the screen on top asks for: a push that suits it, or a pop that leaves the table; a yes is a question's. */
  lemma ArrivalAsks(edit: TextInput, stack: seq<View>, m: Msg<View>)
    requires OnGround(stack) && External(m)
    ensures var h := Handle(edit, stack, m);
            && !h.cmd.Send? && (forall a, e :: Asks(Top(h.stack), a, e) <==> Asks(Top(stack), a, e))
            && (h.cmd.PushCmd? ==> !Mismatch(Top(h.stack), h.cmd.screen) && h.cmd.screen != TableView)
            && (h.cmd.PopCmd? ==> |h.stack| > 1)
            && (h.cmd == PopCmd(Some(Confirmed(true))) ==> IsQuestion(Top(h.stack)))
  {
    var below, v := stack[..|stack| - 1], Top(stack);
    assert stack == below + [v];
    ToTopOf(edit, below, v, m);
    UpdateKeepsKind(edit, v, m);
    AskedOfItself(edit, v, m);
    NothingSentYet(edit, v, m);
  }

  lemma NothingSentYet(edit: TextInput, v: View, m: Msg<View>)
    requires External(m)
    ensures !Update(edit, v, m).cmd.Send?
  {
  }

  /** A prompt step keeps every question on its own screen, and a yes sends what its question asks for. */
  lemma UnmixedStep(edit: TextInput, stack: seq<View>, m: Msg<View>)
    requires OnGround(stack) && !Mixed(stack) && External(m)
    ensures !Mixed(Prompt(edit, stack, m).stack) && OnGround(Prompt(edit, stack, m).stack)
    ensures !Misanswers(edit, stack, m)
  {
    ArrivalKeepsUnmixed(edit, stack, m);
    ArrivalAsks(edit, stack, m);
    var h := Handle(edit, stack, m);
    if h.cmd.PushCmd? {
      PushedTopMatches(h.stack, h.cmd.screen);
    } else if h.cmd.PopCmd? {
      UnmixedPop(edit, h.stack, h.cmd.result);
      PoppedOnGround(edit, h.stack, h.cmd.result);
    }
  }

  lemma PoppedOnGround(edit: TextInput, stack: seq<View>, r: Option<Result>)
    requires OnGround(stack) && |stack| > 1
    ensures OnGround(Handle(edit, stack, Pop(r)).stack)
  {
    var n := |stack|;
    var below, d, v := stack[..n - 2], stack[n - 2], stack[n - 1];
    assert stack == below + [d] + [v];
    PopShape(edit, below, d, v, r);
    if r.Some? { UpdateKeepsKind(edit, d, Returned(r.value)); }
  }

  // ---- How it comes about ----

  /** A question gets mixed up at one kind of event only: its push is handled when a detail screen with something else
      pending is on top. */
  lemma MixedArises(edit: TextInput, s: State, ev: Event)
    requires Grounded(s) && !Mixed(s.stack) && (ev.Arrives? ==> External(ev.m))
    ensures Mixed(Step(edit, s, ev).state.stack) <==>
            && ev.Delivers? && ev.k < |s.due| && s.due[ev.k].msg.Push? && Mismatch(Top(s.stack), s.due[ev.k].msg.screen)
  {
    if ev.Arrives? {
      ArrivalKeepsUnmixed(edit, s.stack, ev.m);
    } else if ev.k < |s.due| {
      DeliveryMixes(edit, s.stack, s.due[ev.k].msg);
    }
  }

  lemma DeliveryMixes(edit: TextInput, stack: seq<View>, m: Msg<View>)
    requires OnGround(stack) && !Mixed(stack) && (m.Pop? || m.Push?)
    ensures Mixed(Handle(edit, stack, m).stack) <==> m.Push? && Mismatch(Top(stack), m.screen)
  {
    HandleShape(edit, stack, m);
    if m.Push? && Mismatch(Top(stack), m.screen) {
      assert MixedAt(stack + [m.screen], |stack|);
    } else if m.Push? {
      PushedTopMatches(stack, m.screen);
    } else if |stack| > 1 {
      UnmixedPop(edit, stack, m.result);
    } else {
      assert forall k :: !MixedAt(Handle(edit, stack, m).stack, k);
    }
  }

  // ---- What may still happen ----

  /** A message from outside, with the push or pop it asks for handled at once, or one of the outstanding messages. */
  datatype Move = Says(m: Msg<View>) | Brings(k: nat)

  function Play(edit: TextInput, s: State, mv: Move): (h: Happened)
    requires s.stack != []
    ensures h.state.stack != []
  {
    if mv.Says? then
      var h := Prompt(edit, s.stack, mv.m);
      Happened(State(h.stack, s.due), h.cmd)
    else Step(edit, s, Delivers(mv.k))
  }

  predicate Outer(mv: Move) {
    mv.Says? ==> External(mv.m)
  }

  function PlayAll(edit: TextInput, s: State, mvs: seq<Move>): (r: State)
    requires s.stack != []
    ensures r.stack != []
    decreases |mvs|
  {
    if mvs == [] then s else PlayAll(edit, Play(edit, s, mvs[0]).state, mvs[1..])
  }

  /** The screen a move lets answer. */
  function Answering(s: State, mv: Move): View
    requires s.stack != []
  {
    if mv.Brings? && mv.k < |s.due| then s.due[mv.k].from else Top(s.stack)
  }

  /** A move that sends a request other than the one its question asks for. */
  predicate SendsOther(edit: TextInput, s: State, mv: Move)
    requires s.stack != []
  {
    var c := Play(edit, s, mv).cmd;
    c.Send? && !Asks(Answering(s, mv), c.action, c.entry)
  }

  ghost predicate Misleads(edit: TextInput, s: State, mvs: seq<Move>, mv: Move)
    requires s.stack != []
  {
    (forall i | 0 <= i < |mvs| :: Outer(mvs[i])) && Outer(mv) && SendsOther(edit, PlayAll(edit, s, mvs), mv)
  }

  /** Some continuation misanswers, even though from now on what a message asks for is handled at once. What is
      outstanding already may come at any time, in any order, or never. */
  ghost predicate CanMisanswer(edit: TextInput, s: State)
    requires s.stack != []
  {
    exists mvs, mv :: Misleads(edit, s, mvs, mv)
  }

  lemma LastMove(edit: TextInput, s: State, mv: Move)
    requires s.stack != [] && Outer(mv) && SendsOther(edit, s, mv)
    ensures CanMisanswer(edit, s)
  {
    assert Misleads(edit, s, [], mv);
  }

  lemma FirstMove(edit: TextInput, s: State, mv: Move)
    requires s.stack != [] && Outer(mv) && CanMisanswer(edit, Play(edit, s, mv).state)
    ensures CanMisanswer(edit, s)
  {
    var mvs, last :| Misleads(edit, Play(edit, s, mv).state, mvs, last);
    assert ([mv] + mvs)[1..] == mvs;
    assert Misleads(edit, s, [mv] + mvs, last);
  }

  // ---- What is at risk ----

  predicate YesAt(due: seq<Due>, j: nat) {
    j < |due| && IsYes(due[j].msg)
  }

  predicate QuestionAt(due: seq<Due>, j: nat) {
    j < |due| && due[j].msg.Push? && IsQuestion(due[j].msg.screen)
  }

  /** A pop without a result. */
  predicate PlainPopAt(due: seq<Due>, j: nat) {
    j < |due| && due[j].msg == Pop(None)
  }

  ghost predicate HasPlainPop(due: seq<Due>) {
    exists j :: PlainPopAt(due, j)
  }

  /** A detail screen with something pending, and no question directly on it. */
  predicate BareAt(stack: seq<View>, i: nat) {
    && i < |stack| && stack[i].DetailView? && stack[i].pending.Some?
    && (i + 1 < |stack| ==> !IsQuestion(stack[i + 1]))
  }

  predicate ClashesAt(stack: seq<View>, i: nat, q: View) {
    BareAt(stack, i) && Mismatch(stack[i], q)
  }

  ghost predicate Clashes(stack: seq<View>, q: View) {
    exists i :: ClashesAt(stack, i, q)
  }

  /** An outstanding message that can still put a yes in the wrong place: a yes, whatever else there is; or a question,
      if some detail screen without one has something else pending, or if a pop without a result can make one so. */
  ghost predicate RiskyAt(s: State, j: nat) {
    YesAt(s.due, j)
    || (QuestionAt(s.due, j) && (HasPlainPop(s.due) || Clashes(s.stack, s.due[j].msg.screen)))
  }

  ghost predicate Risky(s: State) {
    exists j :: RiskyAt(s, j)
  }

  // ---- Without a risk every answer is its own ----

  ghost predicate Safe(s: State) {
    Grounded(s) && FreshDetails(s.due) && !Mixed(s.stack) && !Risky(s)
  }

  /** What is bare after a message was so before, with the same action pending. */
  predicate BareBefore(stack: seq<View>, stack': seq<View>, i: nat) {
    BareAt(stack', i) ==> BareAt(stack, i) && stack[i].pending == stack'[i].pending && stack[i].entry == stack'[i].entry
  }

  lemma StillBare(below: seq<View>, v: View, i: nat)
    requires !IsQuestion(v) && i < |below|
    ensures BareAt(below, i) ==> BareAt(below + [v], i)
  {
  }

  lemma TopOnly(below: seq<View>, u: View, v: View, i: nat)
    requires IsQuestion(u) == IsQuestion(v)
    requires i == |below| ==> BareBefore(below + [v], below + [u], i)
    ensures BareBefore(below + [v], below + [u], i)
  {
  }

  /** A screen pushed on the updated top. */
  lemma BareUnderPush(below: seq<View>, u: View, v: View, x: View, i: nat)
    requires IsQuestion(u) == IsQuestion(v) && !(x.DetailView? && x.pending.Some?)
    requires !IsQuestion(x) ==> BareBefore(below + [v], below + [u], |below|)
    ensures BareBefore(below + [v], below + [u] + [x], i)
  {
    if i == |below| && !IsQuestion(x) {
      assert BareAt(below + [u] + [x], i) ==> BareAt(below + [u], i);
    }
  }

  /** A screen popped, and perhaps the one below told of it. */
  lemma BareAfterPop(edit: TextInput, stack: seq<View>, r: Option<Result>, i: nat)
    requires OnGround(stack) && (r.None? ==> !IsQuestion(Top(stack)))
    ensures BareBefore(stack, Handle(edit, stack, Pop(r)).stack, i)
  {
    var n := |stack|;
    if n > 1 {
      var below, d, v := stack[..n - 2], stack[n - 2], stack[n - 1];
      assert stack == below + [d] + [v];
      PopShape(edit, below, d, v, r);
      if r.Some? {
        UpdateKeepsKind(edit, d, Returned(r.value));
        ResultClears(edit, d, r.value);
      }
    } else {
      HandleShape(edit, stack, Pop(r));
    }
  }

  lemma ResultClears(edit: TextInput, d: View, r: Result)
    ensures var u := Update(edit, d, Returned(r)).view; u.DetailView? ==> u.pending.None?
  {
  }

  /** What the screen on top does with a message: a detail screen that asks for no question keeps what is pending, and a
      question goes with a result. */
  lemma ArrivalOnTop(edit: TextInput, v: View, m: Msg<View>)
    requires External(m)
    ensures var u := Update(edit, v, m);
            && (u.cmd.PushCmd? ==> !(u.cmd.screen.DetailView? && u.cmd.screen.pending.Some?))
            && (v.DetailView? && !(u.cmd.PushCmd? && IsQuestion(u.cmd.screen)) ==> u.view.pending == v.pending)
            && (u.cmd == PopCmd(None) ==> !IsQuestion(v))
  {
  }

  lemma SaysKeepsBare(edit: TextInput, stack: seq<View>, m: Msg<View>, i: nat)
    requires OnGround(stack) && External(m)
    ensures BareBefore(stack, Prompt(edit, stack, m).stack, i)
  {
    var below, v := stack[..|stack| - 1], Top(stack);
    assert stack == below + [v];
    if !(m.Key? && m.key == "ctrl+c") {
      var u := Update(edit, v, m);
      ToTopOf(edit, below, v, m);
      UpdateKeepsKind(edit, v, m);
      ArrivalOnTop(edit, v, m);
      if u.cmd.PushCmd? {
        BareUnderPush(below, u.view, v, u.cmd.screen, i);
      } else {
        TopOnly(below, u.view, v, i);
        if u.cmd.PopCmd? {
          ArrivalKeepsGround(edit, stack, m);
          BareAfterPop(edit, below + [u.view], u.cmd.result, i);
        }
      }
    }
  }

  lemma ArrivalKeepsGround(edit: TextInput, stack: seq<View>, m: Msg<View>)
    requires OnGround(stack) && External(m)
    ensures OnGround(Handle(edit, stack, m).stack)
  {
    HandleShape(edit, stack, m);
    UpdateKeepsKind(edit, Top(stack), m);
  }

  lemma NoNewClash(stack: seq<View>, stack': seq<View>, q: View)
    requires forall i :: BareBefore(stack, stack', i)
    requires Clashes(stack', q)
    ensures Clashes(stack, q)
  {
    var i :| ClashesAt(stack', i, q);
    assert BareBefore(stack, stack', i);
    assert ClashesAt(stack, i, q);
  }

  /** The risk does not grow while nothing new is outstanding and nothing new is bare. */
  lemma StaysRiskless(s: State, s': State)
    requires !Risky(s) && forall i :: BareBefore(s.stack, s'.stack, i)
    requires forall j | 0 <= j < |s'.due| :: s'.due[j] in s.due
    ensures !Risky(s')
  {
    forall j: nat ensures !RiskyAt(s', j) {
      if j < |s'.due| {
        assert s'.due[j] in s.due;
        var j': nat :| j' < |s.due| && s.due[j'] == s'.due[j];
        assert !RiskyAt(s, j');
        if QuestionAt(s'.due, j) {
          if HasPlainPop(s'.due) { PlainPopBefore(s, s'); }
          if Clashes(s'.stack, s'.due[j].msg.screen) { NoNewClash(s.stack, s'.stack, s'.due[j].msg.screen); }
        }
      }
    }
  }

  lemma PlainPopBefore(s: State, s': State)
    requires HasPlainPop(s'.due) && forall j | 0 <= j < |s'.due| :: s'.due[j] in s.due
    ensures HasPlainPop(s.due)
  {
    var i: nat :| PlainPopAt(s'.due, i);
    assert s'.due[i] in s.due;
    var i': nat :| i' < |s.due| && s.due[i'] == s'.due[i];
    assert PlainPopAt(s.due, i');
  }

  lemma SaysStaysSafe(edit: TextInput, s: State, m: Msg<View>)
    requires Safe(s) && External(m)
    ensures Safe(Play(edit, s, Says(m)).state) && !SendsOther(edit, s, Says(m))
  {
    UnmixedStep(edit, s.stack, m);
    forall i ensures BareBefore(s.stack, Prompt(edit, s.stack, m).stack, i) {
      SaysKeepsBare(edit, s.stack, m, i);
    }
    StaysRiskless(s, Play(edit, s, Says(m)).state);
  }

  lemma Remaining(due: seq<Due>, k: nat)
    requires k < |due|
    ensures var left := due[..k] + due[k + 1..]; forall j | 0 <= j < |left| :: left[j] in due
  {
  }

  lemma PushStaysSafe(edit: TextInput, s: State, k: nat)
    requires Safe(s) && k < |s.due| && s.due[k].msg.Push?
    ensures Safe(Play(edit, s, Brings(k)).state) && !SendsOther(edit, s, Brings(k))
  {
    var x, s' := s.due[k].msg.screen, Play(edit, s, Brings(k)).state;
    var below := s.stack[..|s.stack| - 1];
    assert s.stack == below + [Top(s.stack)];
    if Mismatch(Top(s.stack), x) {
      assert ClashesAt(s.stack, |s.stack| - 1, x);
      assert RiskyAt(s, k);
    }
    PushedTopMatches(s.stack, x);
    StepKeepsGrounded(edit, s, Delivers(k));
    StepKeepsFresh(edit, s, Delivers(k));
    Remaining(s.due, k);
    forall i ensures BareBefore(s.stack, s'.stack, i) {
      BareUnderPush(below, Top(s.stack), Top(s.stack), x, i);
    }
    StaysRiskless(s, s');
  }

  lemma NoQuestionLeft(s: State, s': State)
    requires !Risky(s) && HasPlainPop(s.due) && forall j | 0 <= j < |s'.due| :: s'.due[j] in s.due
    ensures !Risky(s')
  {
    forall j: nat ensures !RiskyAt(s', j) {
      if j < |s'.due| {
        assert s'.due[j] in s.due;
        var j': nat :| j' < |s.due| && s.due[j'] == s'.due[j];
        assert !RiskyAt(s, j');
      }
    }
  }

  lemma PopStaysSafe(edit: TextInput, s: State, k: nat)
    requires Safe(s) && k < |s.due| && s.due[k].msg.Pop?
    ensures Safe(Play(edit, s, Brings(k)).state) && !SendsOther(edit, s, Brings(k))
  {
    var r, s' := s.due[k].msg.result, Play(edit, s, Brings(k)).state;
    StepKeepsGrounded(edit, s, Delivers(k));
    StepKeepsFresh(edit, s, Delivers(k));
    Remaining(s.due, k);
    assert !RiskyAt(s, k);
    PopSendsNothing(edit, s.stack, r);
    DeliveryMixes(edit, s.stack, Pop(r));
    if r.None? {
      assert PlainPopAt(s.due, k);
      NoQuestionLeft(s, s');
    } else {
      forall i ensures BareBefore(s.stack, s'.stack, i) {
        BareAfterPop(edit, s.stack, r, i);
      }
      StaysRiskless(s, s');
    }
  }

  lemma PopSendsNothing(edit: TextInput, stack: seq<View>, r: Option<Result>)
    requires OnGround(stack) && r != Some(Confirmed(true))
    ensures var c := Handle(edit, stack, Pop(r)).cmd; !c.Send? && !c.PushCmd? && !c.PopCmd?
  {
    HandleShape(edit, stack, Pop(r));
  }

  lemma SafeMove(edit: TextInput, s: State, mv: Move)
    requires Safe(s) && Outer(mv)
    ensures Safe(Play(edit, s, mv).state) && !SendsOther(edit, s, mv)
  {
    if mv.Says? {
      SaysStaysSafe(edit, s, mv.m);
    } else if mv.k < |s.due| {
      if s.due[mv.k].msg.Push? { PushStaysSafe(edit, s, mv.k); } else { PopStaysSafe(edit, s, mv.k); }
    }
  }

  lemma {:induction false} SafeForEver(edit: TextInput, s: State, mvs: seq<Move>, mv: Move)
    requires Safe(s)
    ensures !Misleads(edit, s, mvs, mv)
    decreases |mvs|
  {
    if (forall i | 0 <= i < |mvs| :: Outer(mvs[i])) && Outer(mv) {
      if mvs == [] {
        SafeMove(edit, s, mv);
      } else {
        SafeMove(edit, s, mvs[0]);
        SafeForEver(edit, Play(edit, s, mvs[0]).state, mvs[1..], mv);
      }
    }
  }

  // ---- With one, a yes can send something else ----

  predicate Typing(ks: seq<string>) {
    forall i | 0 <= i < |ks| :: ks[i] !in {"esc", "enter", "ctrl+c"}
  }

  function TypedKeys(edit: TextInput, text: string, ks: seq<string>): string
    decreases |ks|
  {
    if ks == [] then text else TypedKeys(edit, edit(text, KeyEdit(ks[0])), ks[1..])
  }

  /** The word can be typed into the input, whatever it holds. */
  ghost predicate Typable(edit: TextInput) {
    forall text :: TypableFrom(edit, text)
  }

  ghost predicate TypableFrom(edit: TextInput, text: string) {
    exists ks :: Typing(ks) && TypedKeys(edit, text, ks) == KILL_WORD
  }

  /** A key that makes any screen but the table go. */
  const AWAY := Key("esc", Stay, TreeScreen.Pop)

  lemma AwayPops(edit: TextInput, v: View)
    requires v != TableView
    ensures Update(edit, v, AWAY).view == v && Update(edit, v, AWAY).cmd.PopCmd?
  {
  }

  lemma YesMisanswers(edit: TextInput, below: seq<View>, d: View, q: View, due: seq<Due>,
                                         m: Msg<View>)
    requires Mismatch(d, q) && External(m) && Decision(q, m) == Some(true)
    ensures SendsOther(edit, State(below + [d] + [q], due), Says(m))
  {
    ToTopOf(edit, below + [d], q, m);
    PopShape(edit, below, d, q, Some(Confirmed(true)));
    ResultSends(edit, d, Confirmed(true));
    assert Prompt(edit, below + [d] + [q], m).cmd == Send(d.pending.value, d.entry);
  }

  lemma {:induction false} KillTyped(edit: TextInput, below: seq<View>, d: View, q: View, due: seq<Due>,
                                     ks: seq<string>)
    requires Mismatch(d, q) && q.KillView? && Typing(ks) && TypedKeys(edit, q.input, ks) == KILL_WORD
    ensures CanMisanswer(edit, State(below + [d] + [q], due))
    decreases |ks|
  {
    var s := State(below + [d] + [q], due);
    if ks == [] {
      YesMisanswers(edit, below, d, q, due, Pressed("enter"));
      LastMove(edit, s, Says(Pressed("enter")));
    } else {
      var q' := q.(input := edit(q.input, KeyEdit(ks[0])));
      ToTopOf(edit, below + [d], q, Pressed(ks[0]));
      KillTyped(edit, below, d, q', due, ks[1..]);
      assert Play(edit, s, Says(Pressed(ks[0]))).state == State(below + [d] + [q'], due);
      FirstMove(edit, s, Says(Pressed(ks[0])));
    }
  }

  lemma AnswerOnTop(edit: TextInput, below: seq<View>, d: View, q: View, due: seq<Due>)
    requires Mismatch(d, q) && Typable(edit)
    ensures CanMisanswer(edit, State(below + [d] + [q], due))
  {
    if q.ConfirmView? {
      YesMisanswers(edit, below, d, q, due, Pressed("y"));
      LastMove(edit, State(below + [d] + [q], due), Says(Pressed("y")));
    } else {
      assert TypableFrom(edit, q.input);
      var ks :| Typing(ks) && TypedKeys(edit, q.input, ks) == KILL_WORD;
      KillTyped(edit, below, d, q, due, ks);
    }
  }

  /** Going away from the top leaves the screens below it, the next one aside, as they are. */
  lemma AwayShape(edit: TextInput, below: seq<View>, d: View, v: View)
    requires v != TableView
    ensures var r := Update(edit, v, AWAY).cmd.result;
            && Update(edit, v, AWAY).cmd.PopCmd? && (r.Some? <==> IsQuestion(v))
            && Prompt(edit, below + [d] + [v], AWAY).stack
            == below + [if r.Some? then Update(edit, d, Returned(r.value)).view else d]
  {
    AwayPops(edit, v);
    ToTopOf(edit, below + [d], v, AWAY);
    PopShape(edit, below, d, v, Update(edit, v, AWAY).cmd.result);
  }

  lemma AwayKeeps(edit: TextInput, stack: seq<View>)
    requires OnGround(stack) && |stack| > 1
    ensures var stack' := Prompt(edit, stack, AWAY).stack;
            && OnGround(stack') && |stack'| == |stack| - 1
            && (forall k: nat | k < |stack| - 1 :: MixedAt(stack, k) ==> MixedAt(stack', k))
            && (forall i: nat, q | i < |stack| - 1 :: ClashesAt(stack, i, q) ==> ClashesAt(stack', i, q))
  {
    var n := |stack|;
    var below, d, v := stack[..n - 2], stack[n - 2], stack[n - 1];
    assert stack == below + [d] + [v];
    AwayShape(edit, below, d, v);
    var r := Update(edit, v, AWAY).cmd.result;
    if r.Some? { UpdateKeepsKind(edit, d, Returned(r.value)); }
  }

  lemma {:induction false} MixedCanMisanswer(edit: TextInput, s: State, k: nat)
    requires OnGround(s.stack) && MixedAt(s.stack, k) && Typable(edit)
    ensures CanMisanswer(edit, s)
    decreases |s.stack|
  {
    var stack := s.stack;
    if k < |stack| - 1 {
      AwayKeeps(edit, stack);
      MixedCanMisanswer(edit, Play(edit, s, Says(AWAY)).state, k);
      FirstMove(edit, s, Says(AWAY));
    } else {
      assert stack == stack[..k - 1] + [stack[k - 1]] + [stack[k]];
      AnswerOnTop(edit, stack[..k - 1], stack[k - 1], stack[k], s.due);
      assert s == State(stack, s.due);
    }
  }

  /** An outstanding question that clashes with a bare detail screen. */
  lemma {:induction false} ClashCanMisanswer(edit: TextInput, s: State, j: nat, i: nat)
    requires OnGround(s.stack) && QuestionAt(s.due, j) && ClashesAt(s.stack, i, s.due[j].msg.screen) && Typable(edit)
    ensures CanMisanswer(edit, s)
    decreases |s.stack|
  {
    if i < |s.stack| - 1 {
      AwayKeeps(edit, s.stack);
      ClashCanMisanswer(edit, Play(edit, s, Says(AWAY)).state, j, i);
      FirstMove(edit, s, Says(AWAY));
    } else {
      var s' := Play(edit, s, Brings(j)).state;
      assert s'.stack == s.stack + [s.due[j].msg.screen];
      assert MixedAt(s'.stack, i + 1);
      MixedCanMisanswer(edit, s', i + 1);
      FirstMove(edit, s, Brings(j));
    }
  }

  /** An action that `q` does not ask for. */
  function OtherAction(q: View): (a: Action)
    ensures forall e :: !Asks(q, a, e)
  {
    if q.KillView? then Truncate else Kill
  }

  function QuestionOf(a: Action, e: Entry): View {
    if a == Kill then KillView(e, "") else ConfirmView(a, e)
  }

  const ENTRY: Entry := EntryWire.HiddenEntry(0, 0, "", 0, 0, "", "", "", "", 0, 0, 0, 0)
  const OPEN := Key("enter", ShowEntry(ENTRY), TreeScreen.Nothing)

  lemma Opens(edit: TextInput)
    ensures Prompt(edit, [TableView], OPEN).stack == [TableView] + [DetailView(ENTRY, None, "")]
  {
    var none: seq<View> := [];
    assert none + [TableView] == [TableView];
    ToTopOf(edit, none, TableView, OPEN);
  }

  lemma AsksFor(edit: TextInput, below: seq<View>, d: View, a: Action)
    requires d.DetailView? && a != Hup
    ensures Prompt(edit, below + [d], Pressed(KeyFor(a))).stack
         == below + [d.(pending := Some(a))] + [QuestionOf(a, d.entry)]
  {
    ToTopOf(edit, below, d, Pressed(KeyFor(a)));
  }

  /** From anywhere one can go back to the table, open an entry and ask for an action. */
  lemma {:induction false} AskedFromTable(edit: TextInput, s: State, a: Action)
    requires OnGround(s.stack) && a != Hup
    requires CanMisanswer(edit, State([TableView] + [DetailView(ENTRY, Some(a), "")] + [QuestionOf(a, ENTRY)], s.due))
    ensures CanMisanswer(edit, s)
    decreases |s.stack|
  {
    if |s.stack| > 1 {
      AwayKeeps(edit, s.stack);
      AskedFromTable(edit, Play(edit, s, Says(AWAY)).state, a);
      FirstMove(edit, s, Says(AWAY));
    } else {
      assert s.stack == [TableView];
      Opens(edit);
      var s1 := State([TableView] + [DetailView(ENTRY, None, "")], s.due);
      AsksFor(edit, [TableView], DetailView(ENTRY, None, ""), a);
      FirstMove(edit, s1, Says(Pressed(KeyFor(a))));
      assert Play(edit, s, Says(OPEN)).state == s1;
      FirstMove(edit, s, Says(OPEN));
    }
  }

  /** An outstanding yes can be made to answer any question. */
  lemma YesCanMisanswer(edit: TextInput, s: State, j: nat)
    requires OnGround(s.stack) && YesAt(s.due, j)
    ensures CanMisanswer(edit, s)
  {
    var a := OtherAction(s.due[j].from);
    var d, q := DetailView(ENTRY, Some(a), ""), QuestionOf(a, ENTRY);
    var s' := State([TableView] + [d] + [q], s.due);
    PopShape(edit, [TableView], d, q, Some(Confirmed(true)));
    ResultSends(edit, d, Confirmed(true));
    assert Play(edit, s', Brings(j)).cmd == Send(a, ENTRY);
    LastMove(edit, s', Brings(j));
    AskedFromTable(edit, s, a);
  }

  lemma PlainPopBares(edit: TextInput, below: seq<View>, d: View, q: View, due: seq<Due>, i: nat)
    requires PlainPopAt(due, i)
    ensures Play(edit, State(below + [d] + [q], due), Brings(i)).state
         == State(below + [d], due[..i] + due[i + 1..])
  {
    PopShape(edit, below, d, q, None);
    NothingMore(edit, below + [d] + [q], Pop(None));
    assert due[..i] + due[i + 1..] + [] == due[..i] + due[i + 1..];
  }

  /** An outstanding question, and a pop without a result that can take the question off a detail screen. */
  lemma PlainPopCanMisanswer(edit: TextInput, s: State, j: nat, i: nat)
    requires OnGround(s.stack) && QuestionAt(s.due, j) && PlainPopAt(s.due, i) && Typable(edit)
    ensures CanMisanswer(edit, s)
  {
    var a := OtherAction(s.due[j].msg.screen);
    var d, q := DetailView(ENTRY, Some(a), ""), QuestionOf(a, ENTRY);
    var s' := State([TableView] + [d] + [q], s.due);
    var left := s.due[..i] + s.due[i + 1..];
    var j' := if i < j then j - 1 else j;
    assert left[j'] == s.due[j];
    PlainPopBares(edit, [TableView], d, q, s.due, i);
    ClashCanMisanswer(edit, State([TableView] + [d], left), j', 1);
    FirstMove(edit, s', Brings(i));
    AskedFromTable(edit, s, a);
  }

  lemma RiskyCanMisanswer(edit: TextInput, s: State, j: nat)
    requires OnGround(s.stack) && RiskyAt(s, j) && Typable(edit)
    ensures CanMisanswer(edit, s)
  {
    if YesAt(s.due, j) {
      YesCanMisanswer(edit, s, j);
    } else if HasPlainPop(s.due) {
      var i :| PlainPopAt(s.due, i);
      PlainPopCanMisanswer(edit, s, j, i);
    } else {
      var i :| ClashesAt(s.stack, i, s.due[j].msg.screen);
      ClashCanMisanswer(edit, s, j, i);
    }
  }

  /** Exactly: a question stands on a screen with something else pending, or an outstanding message is a risk. */
  lemma CanMisanswerExactly(edit: TextInput, s: State)
    requires Grounded(s) && FreshDetails(s.due) && Typable(edit)
    ensures CanMisanswer(edit, s) <==> Mixed(s.stack) || Risky(s)
  {
    if Mixed(s.stack) {
      var k :| MixedAt(s.stack, k);
      MixedCanMisanswer(edit, s, k);
    } else if Risky(s) {
      var j :| RiskyAt(s, j);
      RiskyCanMisanswer(edit, s, j);
    } else {
      forall mvs, mv ensures !Misleads(edit, s, mvs, mv) {
        SafeForEver(edit, s, mvs, mv);
      }
    }
  }

  // ---- In terms of the run ----

  /** In the stack after a run, a question stands at index `k`, directly on a detail screen whose last action since its
      last result is another, or which shows another entry. */
  predicate MixedUp(edit: TextInput, evs: seq<Event>, k: nat) {
    var stack := Reach(edit, evs).stack;
    && 0 < k < |stack| && stack[k - 1].DetailView? && IsQuestion(stack[k])
    && LastAction(edit, evs, k - 1).Some?
    && !Asks(stack[k], LastAction(edit, evs, k - 1).value, stack[k - 1].entry)
  }

  /** At index `i` there is a detail screen without a question on it, whose last action since its last result is not the
      one `q` asks for on its entry. */
  predicate LeftOpen(edit: TextInput, evs: seq<Event>, i: nat, q: View) {
    var stack := Reach(edit, evs).stack;
    && i < |stack| && stack[i].DetailView? && (i + 1 < |stack| ==> !IsQuestion(stack[i + 1]))
    && LastAction(edit, evs, i).Some? && !Asks(q, LastAction(edit, evs, i).value, stack[i].entry)
  }

  ghost predicate SomeLeftOpen(edit: TextInput, evs: seq<Event>, q: View) {
    exists i :: LeftOpen(edit, evs, i, q)
  }

  /** Outstanding after the run is a yes; or a question, together with a pop without a result or with a screen left
      open. */
  ghost predicate AtRisk(edit: TextInput, evs: seq<Event>, j: nat) {
    var due := Reach(edit, evs).due;
    YesAt(due, j)
    || (QuestionAt(due, j) && (HasPlainPop(due) || SomeLeftOpen(edit, evs, due[j].msg.screen)))
  }

  lemma {:induction false} MixedIsHistory(edit: TextInput, evs: seq<Event>, k: nat)
    requires Outside(evs)
    ensures MixedAt(Reach(edit, evs).stack, k) <==> MixedUp(edit, evs, k)
  {
    if k > 0 { PendingIsLastAction(edit, evs, k - 1); }
  }

  lemma ClashIsHistory(edit: TextInput, evs: seq<Event>, q: View)
    requires Outside(evs) && IsQuestion(q)
    ensures Clashes(Reach(edit, evs).stack, q) <==> SomeLeftOpen(edit, evs, q)
  {
    forall i: nat ensures ClashesAt(Reach(edit, evs).stack, i, q) <==> LeftOpen(edit, evs, i, q) {
      PendingIsLastAction(edit, evs, i);
    }
  }

  lemma RiskIsHistory(edit: TextInput, evs: seq<Event>, j: nat)
    requires Outside(evs)
    ensures RiskyAt(Reach(edit, evs), j) <==> AtRisk(edit, evs, j)
  {
    if QuestionAt(Reach(edit, evs).due, j) { ClashIsHistory(edit, evs, Reach(edit, evs).due[j].msg.screen); }
  }

  /** For every run, however late its pushes and pops were handled. Let what is asked for from now on be handled at
      once, and what is outstanding come at any time. A yes can then send a request other than its question's if and
      only if a question stands directly on a detail screen whose last action is another, or a yes is outstanding, or a
      question is outstanding along with a pop without a result or with a detail screen left open for another action. */
  lemma MixUpExactly(edit: TextInput, evs: seq<Event>)
    requires Outside(evs) && Typable(edit)
    ensures CanMisanswer(edit, Reach(edit, evs))
            <==> (exists k :: MixedUp(edit, evs, k)) || exists j :: AtRisk(edit, evs, j)
  {
    var s := Reach(edit, evs);
    RunsAreGrounded(edit, evs);
    RunsPushFresh(edit, evs);
    CanMisanswerExactly(edit, s);
    forall k: nat ensures MixedAt(s.stack, k) <==> MixedUp(edit, evs, k) {
      MixedIsHistory(edit, evs, k);
    }
    forall j: nat ensures RiskyAt(s, j) <==> AtRisk(edit, evs, j) {
      RiskIsHistory(edit, evs, j);
    }
  }

  // ---- One late message ----

  /** The outstanding messages handled one after the other. */
  function Deliver(edit: TextInput, stack: seq<View>, due: seq<Due>): (r: seq<View>)
    requires stack != []
    ensures r != []
    decreases |due|
  {
    if due == [] then stack else Deliver(edit, Handle(edit, stack, due[0].msg).stack, due[1..])
  }

  function Swapped(due: seq<Due>): seq<Due> {
    if |due| == 2 then [due[1], due[0]] else due
  }

  /** Both messages before what the first asks for. */
  function Overtaken(edit: TextInput, stack: seq<View>, x: Msg<View>, y: Msg<View>): (s: State)
    requires stack != []
    ensures s.stack != []
  {
    Step(edit, Step(edit, State(stack, []), Arrives(x)).state, Arrives(y)).state
  }

  predicate TwoActions(x: Msg<View>, y: Msg<View>) {
    x.Key? && y.Key? && ActionOf(x.key).Some? && ActionOf(y.key).Some? && ActionOf(x.key) != ActionOf(y.key)
  }

  predicate AsksOnly(v: View, a: Action, e: Entry) {
    Asks(v, a, e) && IsQuestion(v)
  }

  lemma DetailPushes(d: View, m: Msg<View>)
    requires d.DetailView? && External(m)
    ensures var u, a := DetailUpdate(d, m), if m.Key? then ActionOf(m.key) else None;
            && u.view.DetailView? && u.view.entry == d.entry && (a.Some? ==> u.view.pending == a)
            && (a.None? ==> u.view.pending == d.pending)
            && (a.Some? ==> u.cmd.PushCmd? && AsksOnly(u.cmd.screen, a.value, d.entry))
            && (a.None? && u.cmd.PushCmd? ==> !IsQuestion(u.cmd.screen) && !u.cmd.screen.DetailView?)
  {
  }

  lemma OthersPushNoQuestion(edit: TextInput, v: View, m: Msg<View>)
    requires !v.DetailView?
    ensures var u := Update(edit, v, m); u.cmd.PushCmd? ==> !IsQuestion(u.cmd.screen)
  {
  }

  predicate PushesOrPops(due: seq<Due>) {
    forall i | 0 <= i < |due| :: due[i].msg.Pop? || (due[i].msg.Push? && due[i].msg.screen != TableView)
  }

  lemma DeliveryOnGround(edit: TextInput, stack: seq<View>, m: Msg<View>)
    requires OnGround(stack) && (m.Pop? || (m.Push? && m.screen != TableView))
    ensures OnGround(Handle(edit, stack, m).stack)
  {
    if m.Pop? && |stack| > 1 { PoppedOnGround(edit, stack, m.result); } else { HandleShape(edit, stack, m); }
  }

  /** Deliveries that put no question on a mismatched screen. */
  lemma {:induction false} QuestionlessDelivery(edit: TextInput, stack: seq<View>, due: seq<Due>)
    requires OnGround(stack) && !Mixed(stack) && PushesOrPops(due)
    requires forall i | 0 <= i < |due| && due[i].msg.Push? :: !IsQuestion(due[i].msg.screen)
    ensures !Mixed(Deliver(edit, stack, due)) && OnGround(Deliver(edit, stack, due))
    decreases |due|
  {
    if due != [] {
      DeliveryMixes(edit, stack, due[0].msg);
      DeliveryOnGround(edit, stack, due[0].msg);
      QuestionlessDelivery(edit, Handle(edit, stack, due[0].msg).stack, due[1..]);
    }
  }

  lemma OvertakenShape(edit: TextInput, below: seq<View>, v: View, x: Msg<View>, y: Msg<View>)
    requires External(x) && External(y)
    ensures var u := OnTop(edit, v, x);
            var w := OnTop(edit, u.view, y);
            Overtaken(edit, below + [v], x, y)
            == State(below + [w.view], Outstanding(u.cmd, v) + Outstanding(w.cmd, u.view))
  {
    ArrivesShape(edit, below, v, [], x);
    var u := OnTop(edit, v, x);
    ArrivesShape(edit, below, u.view, Outstanding(u.cmd, v), y);
  }

  lemma LayoutUnmixed(l: Layout)
    requires WellLaid(l)
    ensures OnGround(StackOf(l)) && !Mixed(StackOf(l))
  {
    forall k ensures !MixedAt(StackOf(l), k) {}
  }

  lemma OvertakenStaysUnmixed(edit: TextInput, stack: seq<View>, x: Msg<View>, y: Msg<View>)
    requires OnGround(stack) && !Mixed(stack) && External(x) && External(y)
    ensures var s := Overtaken(edit, stack, x, y); OnGround(s.stack) && !Mixed(s.stack)
  {
    ArrivalKeepsUnmixed(edit, stack, x);
    ArrivalKeepsUnmixed(edit, Handle(edit, stack, x).stack, y);
  }

  /** At most two pushes of other screens than the table, or pops. */
  predicate Questionless(due: seq<Due>) {
    |due| <= 2 && PushesOrPops(due) && forall i | 0 <= i < |due| && due[i].msg.Push? :: !IsQuestion(due[i].msg.screen)
  }

  lemma OthersAreQuestionless(edit: TextInput, v: View, m: Msg<View>)
    requires !v.DetailView?
    ensures Questionless(Outstanding(OnTop(edit, v, m).cmd, v)) && |Outstanding(OnTop(edit, v, m).cmd, v)| <= 1
    ensures !OnTop(edit, v, m).view.DetailView?
  {
    UpdateKeepsKind(edit, v, m);
    OthersPushNoQuestion(edit, v, m);
  }

  lemma BothQuestionless(a: seq<Due>, b: seq<Due>)
    requires Questionless(a) && Questionless(b) && |a| <= 1 && |b| <= 1
    ensures Questionless(a + b) && Questionless(Swapped(a + b))
  {
  }

  lemma NoDetailOnTop(edit: TextInput, below: seq<View>, v: View, x: Msg<View>, y: Msg<View>)
    requires OnGround(below + [v]) && !Mixed(below + [v]) && !v.DetailView? && External(x) && External(y)
    ensures var s := Overtaken(edit, below + [v], x, y);
            !Mixed(Deliver(edit, s.stack, s.due)) && !Mixed(Deliver(edit, s.stack, Swapped(s.due)))
  {
    OvertakenStaysUnmixed(edit, below + [v], x, y);
    OvertakenShape(edit, below, v, x, y);
    var u := OnTop(edit, v, x);
    OthersAreQuestionless(edit, v, x);
    OthersAreQuestionless(edit, u.view, y);
    BothQuestionless(Outstanding(u.cmd, v), Outstanding(OnTop(edit, u.view, y).cmd, u.view));
    var s := Overtaken(edit, below + [v], x, y);
    QuestionlessDelivery(edit, s.stack, s.due);
    QuestionlessDelivery(edit, s.stack, Swapped(s.due));
  }

  lemma LandsElsewhere(edit: TextInput, base: seq<View>, d: View, m: Msg<View>)
    requires base != [] && !Top(base).DetailView?
    requires m.Pop? || (m.Push? && !m.screen.DetailView?)
    ensures !Top(Handle(edit, base + [d], m).stack).DetailView?
  {
    if m.Pop? {
      assert base == base[..|base| - 1] + [Top(base)];
      PopShape(edit, base[..|base| - 1], Top(base), d, m.result);
      if m.result.Some? { UpdateKeepsKind(edit, Top(base), Returned(m.result.value)); }
    }
  }

  /** One question and one other message, in either order: the question lands on its own screen, or on none that can
      have anything pending. */
  lemma OneQuestionLands(edit: TextInput, base: seq<View>, d: View, q: Due, o: seq<Due>)
    requires base != [] && !Top(base).DetailView? && OnGround(base + [d]) && !Mixed(base + [d])
    requires q.msg.Push? && q.msg.screen != TableView && !Mismatch(d, q.msg.screen)
    requires |o| <= 1 && PushesOrPops(o) && forall i | 0 <= i < |o| && o[i].msg.Push? ::
               !IsQuestion(o[i].msg.screen) && !o[i].msg.screen.DetailView?
    ensures !Mixed(Deliver(edit, base + [d], [q] + o)) && !Mixed(Deliver(edit, base + [d], o + [q]))
  {
    var stack := base + [d];
    DeliveryMixes(edit, stack, q.msg);
    DeliveryOnGround(edit, stack, q.msg);
    QuestionlessDelivery(edit, Handle(edit, stack, q.msg).stack, o);
    assert ([q] + o)[1..] == o;
    if o == [] {
      assert o + [q] == [q] + o;
    } else {
      DeliveryMixes(edit, stack, o[0].msg);
      DeliveryOnGround(edit, stack, o[0].msg);
      LandsElsewhere(edit, base, d, o[0].msg);
      var after := Handle(edit, stack, o[0].msg).stack;
      DeliveryMixes(edit, after, q.msg);
      assert (o + [q])[1..] == [q] && [q][1..] == [];
      assert Deliver(edit, after, [q]) == Handle(edit, after, q.msg).stack;
    }
  }

  lemma TwoQuestionsLand(edit: TextInput, base: seq<View>, d: View, p: Due, q: Due)
    requires OnGround(base + [d]) && !Mixed(base + [d]) && d.DetailView?
    requires p.msg.Push? && q.msg.Push? && IsQuestion(p.msg.screen) && IsQuestion(q.msg.screen)
    requires !Mismatch(d, q.msg.screen)
    ensures Mixed(Deliver(edit, base + [d], [p, q])) <==> Mismatch(d, p.msg.screen)
    ensures !Mixed(Deliver(edit, base + [d], [q, p]))
  {
    var stack, v, w := base + [d], p.msg.screen, q.msg.screen;
    assert [p, q][1..] == [q] && [q][1..] == [] && [q, p][1..] == [p] && [p][1..] == [];
    assert Deliver(edit, stack, [p, q]) == Deliver(edit, stack + [v], [q]) == stack + [v] + [w];
    assert Deliver(edit, stack, [q, p]) == Deliver(edit, stack + [w], [p]) == stack + [w] + [v];
    PushedTopMatches(stack, w);
    PushedTopMatches(stack + [w], v);
    if Mismatch(d, v) {
      assert MixedAt(stack + [v] + [w], |stack|);
    } else {
      PushedTopMatches(stack, v);
      PushedTopMatches(stack + [v], w);
    }
  }

  function ActionIn(m: Msg<View>): Option<Action> {
    if m.Key? then ActionOf(m.key) else None
  }

  predicate AskedFor(due: seq<Due>, a: Option<Action>, e: Entry) {
    && |due| <= 1 && PushesOrPops(due)
    && (a.Some? ==> due != [] && due[0].msg.Push? && AsksOnly(due[0].msg.screen, a.value, e))
    && (a.None? ==>
          Questionless(due) && forall i | 0 <= i < |due| && due[i].msg.Push? :: !due[i].msg.screen.DetailView?)
  }

  /** What a detail screen asks for: its question on an action key, else nothing that can be mixed up. */
  lemma DetailAsksFor(edit: TextInput, d: View, m: Msg<View>)
    requires d.DetailView? && External(m)
    ensures var u, due := OnTop(edit, d, m), Outstanding(OnTop(edit, d, m).cmd, d);
            && u.view.DetailView? && u.view.entry == d.entry
            && u.view.pending == (if ActionIn(m).Some? then ActionIn(m) else d.pending)
            && AskedFor(due, ActionIn(m), d.entry)
  {
    DetailPushes(d, m);
  }

  lemma DetailOnTop(edit: TextInput, base: seq<View>, d: View, x: Msg<View>, y: Msg<View>)
    requires IsBase(base) && d.DetailView? && d.pending.None? && External(x) && External(y)
    ensures var s := Overtaken(edit, base + [d], x, y);
            Mixed(Deliver(edit, s.stack, s.due)) || Mixed(Deliver(edit, s.stack, Swapped(s.due)))
            <==> TwoActions(x, y)
  {
    LayoutUnmixed(Layout(base, Some(d), None));
    assert StackOf(Layout(base, Some(d), None)) == base + [d];
    OvertakenStaysUnmixed(edit, base + [d], x, y);
    OvertakenShape(edit, base, d, x, y);
    DetailAsksFor(edit, d, x);
    var u := OnTop(edit, d, x);
    DetailAsksFor(edit, u.view, y);
    var w := OnTop(edit, u.view, y);
    TwoAskedFor(edit, base, w.view, Outstanding(u.cmd, d), Outstanding(w.cmd, u.view), ActionIn(x), ActionIn(y));
  }

  lemma TwoAskedFor(edit: TextInput, base: seq<View>, d: View, p: seq<Due>, q: seq<Due>,
                                       a: Option<Action>, b: Option<Action>)
    requires IsBase(base) && d.DetailView? && OnGround(base + [d]) && !Mixed(base + [d])
    requires d.pending == if b.Some? then b else a
    requires AskedFor(p, a, d.entry) && AskedFor(q, b, d.entry)
    ensures (Mixed(Deliver(edit, base + [d], p + q)) || Mixed(Deliver(edit, base + [d], Swapped(p + q))))
            <==> a.Some? && b.Some? && a != b
  {
    if a.Some? && b.Some? {
      assert p + q == [p[0], q[0]] && Swapped(p + q) == [q[0], p[0]];
      TwoQuestionsLand(edit, base, d, p[0], q[0]);
    } else if a.Some? {
      assert p == [p[0]];
      OneQuestionLands(edit, base, d, p[0], q);
      SwappedIs(p, q);
    } else if b.Some? {
      assert q == [q[0]];
      OneQuestionLands(edit, base, d, q[0], p);
      SwappedIs(p, q);
    } else {
      BothQuestionless(p, q);
      QuestionlessDelivery(edit, base + [d], p + q);
      QuestionlessDelivery(edit, base + [d], Swapped(p + q));
    }
  }

  lemma SwappedIs(p: seq<Due>, q: seq<Due>)
    requires |p| <= 1 && |q| <= 1
    ensures Swapped(p + q) == q + p
  {
  }

  lemma OneLateKeyMixes(edit: TextInput, l: Layout, x: Msg<View>, y: Msg<View>)
    requires WellLaid(l) && External(x) && External(y)
    ensures var s := Overtaken(edit, StackOf(l), x, y);
            (Mixed(Deliver(edit, s.stack, s.due)) || Mixed(Deliver(edit, s.stack, Swapped(s.due))))
            <==> l.detail.Some? && l.top.None? && TwoActions(x, y)
  {
    var stack := StackOf(l);
    LayoutUnmixed(l);
    TopOf(l);
    var below := stack[..|stack| - 1];
    assert stack == below + [Top(stack)];
    if l.detail.Some? && l.top.None? {
      assert below == l.base;
      DetailOnTop(edit, l.base, l.detail.value, x, y);
    } else {
      NoDetailOnTop(edit, below, Top(stack), x, y);
    }
  }

  lemma {:induction false} DeliverOnGround(edit: TextInput, stack: seq<View>, due: seq<Due>)
    requires OnGround(stack) && PushesOrPops(due)
    ensures OnGround(Deliver(edit, stack, due))
    decreases |due|
  {
    if due != [] {
      DeliveryOnGround(edit, stack, due[0].msg);
      DeliverOnGround(edit, Handle(edit, stack, due[0].msg).stack, due[1..]);
    }
  }

  /** With nothing outstanding only a mixed-up question is left. */
  lemma MisanswersWhenMixed(edit: TextInput, stack: seq<View>)
    requires OnGround(stack) && Typable(edit)
    ensures CanMisanswer(edit, State(stack, [])) <==> Mixed(stack)
  {
    CanMisanswerExactly(edit, State(stack, []));
  }

  /** One late message, exactly: handle two messages before what the first asks for, what both ask for in either
      order, and everything else at once. A yes can then send a request other than its question's if and only if the
      two messages are different action keys on one detail screen. */
  lemma OneLateKey(edit: TextInput, l: Layout, x: Msg<View>, y: Msg<View>)
    requires WellLaid(l) && External(x) && External(y) && Typable(edit)
    ensures var s := Overtaken(edit, StackOf(l), x, y);
            || CanMisanswer(edit, State(Deliver(edit, s.stack, s.due), []))
            || CanMisanswer(edit, State(Deliver(edit, s.stack, Swapped(s.due)), []))
            <==> l.detail.Some? && l.top.None? && TwoActions(x, y)
  {
    var s0 := State(StackOf(l), []);
    LayoutUnmixed(l);
    StepKeepsGrounded(edit, s0, Arrives(x));
    StepKeepsGrounded(edit, Step(edit, s0, Arrives(x)).state, Arrives(y));
    var s := Overtaken(edit, StackOf(l), x, y);
    DeliverOnGround(edit, s.stack, s.due);
    DeliverOnGround(edit, s.stack, Swapped(s.due));
    MisanswersWhenMixed(edit, Deliver(edit, s.stack, s.due));
    MisanswersWhenMixed(edit, Deliver(edit, s.stack, Swapped(s.due)));
    OneLateKeyMixes(edit, l, x, y);
  }
}
