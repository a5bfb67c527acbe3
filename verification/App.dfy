/** The screen stack and the confirmation of destructive actions (app.go and its screens). */
module App {
  import opened Words
  import EntryWire
  import TreeScreen

  type Entry = EntryWire.HiddenEntry

  datatype Action = Truncate | Hup | Kill

  /** What a popped screen hands to the one below. */
  datatype Result = Confirmed(yes: bool) | Note(text: string)

  /** What the list of entries asks for on a key. */
  datatype TableAnswer = Stay | Leave | ShowTree | ShowEntry(entry: Entry)

  /** The messages of the program; `S` is how a screen is represented. `Background` is any message of a scan, a timer
      or a stream; `table` and `tree` are what the list or the tree answers if it is the one to get the key. */
  datatype Msg<S> =
    | Key(key: string, table: TableAnswer, tree: TreeScreen.Answer)
    | Push(screen: S)
    | Pop(result: Option<Result>)
    | Returned(value: Result)
    | ActionDone(error: Option<string>, note: string)
    | Pasted(text: string)
    | Background

  /** What changes the text of an input: a key, or the clipboard's text once it has been read. */
  datatype Edit = KeyEdit(key: string) | PasteEdit(text: string)

  /** The text input: the text after an edit. */
  type TextInput = (string, Edit) -> string

  /** What handling a message starts. `Later` is nothing, or work whose message may come at any time. */
  datatype Cmd<S> =
    | Later
    | Quit
    | PushCmd(screen: S)
    | PopCmd(result: Option<Result>)
    | Send(action: Action, entry: Entry)

  // ---- Screens as values ----

  datatype View =
    | TableView
    | TreeView
    | DetailView(entry: Entry, pending: Option<Action>, status: string)
    | ConfirmView(action: Action, about: Entry)
    | KillView(about: Entry, input: string)
    | StreamView(entry: Entry)

  datatype Updated = Updated(view: View, cmd: Cmd<View>)

  datatype Handled = Handled(stack: seq<View>, cmd: Cmd<View>)

  const KILL_WORD := "KILL"

  function ShowAnswer(a: TableAnswer): Cmd<View> {
    match a
    case Stay => Later
    case Leave => Quit
    case ShowTree => PushCmd(TreeView)
    case ShowEntry(e) => PushCmd(DetailView(e, None, ""))
  }

  function TreeAnswer(a: TreeScreen.Answer): Cmd<View> {
    match a
    case Nothing => Later
    case Pop => PopCmd(None)
    case OpenDetail(e) => PushCmd(DetailView(e, None, ""))
  }

  function DetailKey(d: View, key: string): Updated
    requires d.DetailView?
  {
    if key == "esc" then Updated(d, PopCmd(None))
    else if key == "s" then Updated(d, PushCmd(StreamView(d.entry)))
    else if key == "t" then Updated(d.(pending := Some(Truncate)), PushCmd(ConfirmView(Truncate, d.entry)))
    else if key == "h" then Updated(d.(pending := Some(Hup)), PushCmd(ConfirmView(Hup, d.entry)))
    else if key == "k" then Updated(d.(pending := Some(Kill)), PushCmd(KillView(d.entry, "")))
    else Updated(d, Later)
  }

  function DetailUpdate(d: View, m: Msg<View>): Updated
    requires d.DetailView?
  {
    match m
    case Returned(v) =>
      var cleared := d.(pending := None);
      if v == Confirmed(true) && d.pending.Some? then Updated(cleared, Send(d.pending.value, d.entry))
      else Updated(cleared, Later)
    case ActionDone(error, note) =>
      if error.Some? then Updated(d.(status := "Error: " + error.value), Later)
      else Updated(d, PopCmd(Some(Note(note))))
    case Key(key, _, _) => DetailKey(d, key)
    case _ => Updated(d, Later)
  }

  function ConfirmUpdate(m: Msg<View>): Cmd<View> {
    if m.Key? && m.key == "y" then PopCmd(Some(Confirmed(true)))
    else if m.Key? && (m.key == "n" || m.key == "esc") then PopCmd(Some(Confirmed(false)))
    else Later
  }

  function KillUpdate(edit: TextInput, v: View, m: Msg<View>): Updated
    requires v.KillView?
  {
    if m.Pasted? then Updated(v.(input := edit(v.input, PasteEdit(m.text))), Later)
    else if !m.Key? then Updated(v, Later)
    else if m.key == "esc" then Updated(v, PopCmd(Some(Confirmed(false))))
    else if m.key == "enter" then Updated(v, PopCmd(Some(Confirmed(v.input == KILL_WORD))))
    else Updated(v.(input := edit(v.input, KeyEdit(m.key))), Later)
  }

  function Update(edit: TextInput, v: View, m: Msg<View>): Updated {
    match v
    case TableView => Updated(v, if m.Key? then ShowAnswer(m.table) else Later)
    case TreeView => Updated(v, if m.Key? then TreeAnswer(m.tree) else Later)
    case DetailView(_, _, _) => DetailUpdate(v, m)
    case ConfirmView(_, _) => Updated(v, ConfirmUpdate(m))
    case KillView(_, _) => KillUpdate(edit, v, m)
    case StreamView(_) => Updated(v, if m.Key? && m.key == "esc" then PopCmd(None) else Later)
  }

  function ToTop(edit: TextInput, stack: seq<View>, m: Msg<View>): Handled
    requires stack != []
  {
    var n := |stack| - 1;
    var u := Update(edit, stack[n], m);
    Handled(stack[n := u.view], u.cmd)
  }

  /** One message handled by the application. */
  function Handle(edit: TextInput, stack: seq<View>, m: Msg<View>): (h: Handled)
    requires stack != []
    ensures h.stack != []
  {
    if m.Key? && m.key == "ctrl+c" then Handled(stack, Quit)
    else if m.Push? then Handled(stack + [m.screen], Later)
    else if m.Pop? then
      var below := if |stack| > 1 then stack[..|stack| - 1] else stack;
      if m.result.Some? then ToTop(edit, below, Returned(m.result.value)) else Handled(below, Later)
    else ToTop(edit, stack, m)
  }

  /** The push or pop a command asks for. */
  function FollowUp(edit: TextInput, h: Handled): (h': Handled)
    requires h.stack != []
    ensures h'.stack != []
  {
    if h.cmd.PushCmd? then Handle(edit, h.stack, Push(h.cmd.screen))
    else if h.cmd.PopCmd? then Handle(edit, h.stack, Pop(h.cmd.result))
    else h
  }

  /** A message and, when it asks to push or pop a screen, that message handled before any other. */
  function Prompt(edit: TextInput, stack: seq<View>, m: Msg<View>): (h: Handled)
    requires stack != []
    ensures h.stack != []
  {
    FollowUp(edit, Handle(edit, stack, m))
  }

  /** Keys, and what scans, timers, streams and requests to the daemon report whenever they please. */
  predicate External(m: Msg<View>) {
    m.Key? || m.ActionDone? || m.Pasted? || m.Background?
  }

  predicate AllExternal(ms: seq<Msg<View>>) {
    forall i | 0 <= i < |ms| :: External(ms[i])
  }

  /** The stack after a run of the program. */
  function After(edit: TextInput, ms: seq<Msg<View>>): (stack: seq<View>)
    ensures stack != []
  {
    if ms == [] then [TableView] else Prompt(edit, After(edit, ms[..|ms| - 1]), ms[|ms| - 1]).stack
  }

  /** The command left over once message `i` of a run is dealt with. */
  function Started(edit: TextInput, ms: seq<Msg<View>>, i: nat): Cmd<View>
    requires i < |ms|
  {
    Prompt(edit, After(edit, ms[..i]), ms[i]).cmd
  }

  // ---- What every reachable stack looks like ----

  predicate IsBase(s: seq<View>) {
    s == [TableView] || s == [TableView, TreeView]
  }

  /** The screen that asks about `a` on `e`. */
  predicate Asks(v: View, a: Action, e: Entry) {
    match a
    case Kill => v.KillView? && v.about == e
    case _ => v == ConfirmView(a, e)
  }

  /** What may stand directly above a detail screen: `pending` is set exactly when its own question does. */
  predicate Above(d: View, v: View)
    requires d.DetailView?
  {
    if d.pending.Some? then Asks(v, d.pending.value, d.entry) else v == StreamView(d.entry)
  }

  datatype Layout = Layout(base: seq<View>, detail: Option<View>, top: Option<View>)

  function StackOf(l: Layout): seq<View> {
    l.base + (if l.detail.Some? then [l.detail.value] else []) + (if l.top.Some? then [l.top.value] else [])
  }

  predicate WellLaid(l: Layout) {
    && IsBase(l.base)
    && (l.top.Some? ==> l.detail.Some?)
    && (l.detail.Some? ==> l.detail.value.DetailView?)
    && (l.detail.Some? && l.top.None? ==> l.detail.value.pending.None?)
    && (l.detail.Some? && l.top.Some? ==> Above(l.detail.value, l.top.value))
  }

  /** The layout after a prompt step, case by case. */
  function Next(edit: TextInput, l: Layout, m: Msg<View>): Layout
    requires WellLaid(l) && External(m)
  {
    if m.Key? && m.key == "ctrl+c" then l
    else if l.top.Some? then NextAsked(edit, l, m)
    else if l.detail.Some? then NextDetail(l, m)
    else if !m.Key? then l
    else if l.base == [TableView] then
      match m.table
      case ShowTree => l.(base := [TableView, TreeView])
      case ShowEntry(e) => l.(detail := Some(DetailView(e, None, "")))
      case _ => l
    else
      match m.tree
      case Nothing => l
      case Pop => l.(base := [TableView])
      case OpenDetail(e) => l.(detail := Some(DetailView(e, None, "")))
  }

  function NextDetail(l: Layout, m: Msg<View>): Layout
    requires WellLaid(l) && l.detail.Some? && l.top.None? && External(m)
  {
    var d := l.detail.value;
    if m.ActionDone? then
      if m.error.Some? then l.(detail := Some(d.(status := "Error: " + m.error.value))) else l.(detail := None)
    else if !m.Key? then l
    else if m.key == "esc" then l.(detail := None)
    else if m.key == "s" then l.(top := Some(StreamView(d.entry)))
    else if m.key == "t" then
      l.(detail := Some(d.(pending := Some(Truncate))), top := Some(ConfirmView(Truncate, d.entry)))
    else if m.key == "h" then
      l.(detail := Some(d.(pending := Some(Hup))), top := Some(ConfirmView(Hup, d.entry)))
    else if m.key == "k" then
      l.(detail := Some(d.(pending := Some(Kill))), top := Some(KillView(d.entry, "")))
    else l
  }

  /** Does the screen on top go with this message, and if it asked, with what answer? */
  function Decision(v: View, m: Msg<View>): Option<bool> {
    if !m.Key? then None
    else if m.key == "esc" then Some(false)
    else if v.ConfirmView? && m.key == "y" then Some(true)
    else if v.ConfirmView? && m.key == "n" then Some(false)
    else if v.KillView? && m.key == "enter" then Some(v.input == KILL_WORD)
    else None
  }

  /** What a message does to the text a question shows. */
  function Retyped(edit: TextInput, text: string, m: Msg<View>): string {
    if m.Key? && m.key != "ctrl+c" then edit(text, KeyEdit(m.key))
    else if m.Pasted? then edit(text, PasteEdit(m.text))
    else text
  }

  function EditedBy(edit: TextInput, v: View, m: Msg<View>): View {
    if v.KillView? then v.(input := Retyped(edit, v.input, m)) else v
  }

  function NextAsked(edit: TextInput, l: Layout, m: Msg<View>): Layout
    requires WellLaid(l) && l.top.Some? && External(m)
  {
    var v := l.top.value;
    if Decision(v, m).Some? then l.(detail := Some(l.detail.value.(pending := None)), top := None)
    else l.(top := Some(EditedBy(edit, v, m)))
  }

  lemma NextKeepsLayout(edit: TextInput, l: Layout, m: Msg<View>)
    requires WellLaid(l) && External(m)
    ensures WellLaid(Next(edit, l, m))
  {
  }

  lemma PromptOnBase(edit: TextInput, l: Layout, m: Msg<View>)
    requires WellLaid(l) && External(m) && l.detail.None?
    ensures Prompt(edit, StackOf(l), m).stack == StackOf(Next(edit, l, m)) && !Prompt(edit, StackOf(l), m).cmd.Send?
  {
  }

  lemma ToTopOf(edit: TextInput, below: seq<View>, v: View, m: Msg<View>)
    ensures ToTop(edit, below + [v], m) == Handled(below + [Update(edit, v, m).view], Update(edit, v, m).cmd)
    ensures below != [] ==> Handle(edit, below + [v], Pop(None)) == Handled(below, Later)
  {
    var s := below + [v];
    assert s[|s| - 1 := Update(edit, v, m).view] == below + [Update(edit, v, m).view];
    assert s[..|s| - 1] == below;
  }

  lemma PopOf(edit: TextInput, below: seq<View>, d: View, v: View, r: Result)
    ensures Handle(edit, below + [d] + [v], Pop(Some(r))) ==
            Handled(below + [Update(edit, d, Returned(r)).view], Update(edit, d, Returned(r)).cmd)
  {
    var s := below + [d] + [v];
    assert s[..|s| - 1] == below + [d];
    ToTopOf(edit, below, d, Returned(r));
  }

  lemma DoneOnDetail(edit: TextInput, base: seq<View>, d: View, m: Msg<View>)
    requires IsBase(base) && d.DetailView? && m.ActionDone?
    ensures Prompt(edit, base + [d], m).cmd == Later
    ensures Prompt(edit, base + [d], m).stack
         == if m.error.Some? then base + [d.(status := "Error: " + m.error.value)] else base
  {
    ToTopOf(edit, base, d, m);
    if m.error.None? {
      var n := |base| - 1;
      ToTopOf(edit, base[..n], base[n], Returned(Note(m.note)));
      assert base[..n] + [base[n]] == base && (base + [d])[..|base|] == base;
    }
  }

  lemma PromptOnDetail(edit: TextInput, base: seq<View>, d: View, m: Msg<View>)
    requires IsBase(base) && d.DetailView? && d.pending.None? && External(m)
    ensures var l := Layout(base, Some(d), None);
            Prompt(edit, base + [d], m).stack == StackOf(Next(edit, l, m)) && !Prompt(edit, base + [d], m).cmd.Send?
  {
    if m.ActionDone? {
      DoneOnDetail(edit, base, d, m);
    } else {
      ToTopOf(edit, base, d, m);
      if m.Key? { ToTopOf(edit, base, DetailKey(d, m.key).view, m); }
    }
  }

  lemma PromptOnTop(edit: TextInput, base: seq<View>, d: View, v: View, m: Msg<View>)
    requires IsBase(base) && d.DetailView? && Above(d, v) && External(m)
    ensures var l, h := Layout(base, Some(d), Some(v)), Prompt(edit, base + [d] + [v], m);
            h.stack == StackOf(Next(edit, l, m)) &&
            h.cmd.Send? == (d.pending.Some? && Decision(v, m) == Some(true)) &&
            (h.cmd.Send? ==> h.cmd == Send(d.pending.value, d.entry))
  {
    ToTopOf(edit, base + [d], v, m);
    ToTopOf(edit, base + [d], Update(edit, v, m).view, m);
    PopOf(edit, base, d, Update(edit, v, m).view, Confirmed(true));
    PopOf(edit, base, d, Update(edit, v, m).view, Confirmed(false));
  }

  // ---- Whole runs ----

  function LayoutAfter(edit: TextInput, ms: seq<Msg<View>>): (l: Layout)
    requires AllExternal(ms)
    ensures WellLaid(l)
  {
    if ms == [] then Layout([TableView], None, None)
    else
      var l, m := LayoutAfter(edit, ms[..|ms| - 1]), ms[|ms| - 1];
      NextKeepsLayout(edit, l, m);
      Next(edit, l, m)
  }

  lemma {:induction false} AfterIsLaidOut(edit: TextInput, ms: seq<Msg<View>>)
    requires AllExternal(ms)
    ensures After(edit, ms) == StackOf(LayoutAfter(edit, ms))
  {
    if ms != [] {
      AfterIsLaidOut(edit, ms[..|ms| - 1]);
      PromptFromLayout(edit, LayoutAfter(edit, ms[..|ms| - 1]), ms[|ms| - 1]);
    }
  }

  /** A destructive request goes out when the question on top is answered yes, and at no other time. */
  predicate SendsNow(l: Layout, m: Msg<View>, a: Action, e: Entry)
    requires WellLaid(l)
  {
    && l.top.Some? && l.detail.value.pending == Some(a) && l.detail.value.entry == e
    && Decision(l.top.value, m) == Some(true)
  }

  lemma PromptFromLayout(edit: TextInput, l: Layout, m: Msg<View>)
    requires WellLaid(l) && External(m)
    ensures Prompt(edit, StackOf(l), m).stack == StackOf(Next(edit, l, m))
    ensures forall a, e :: Prompt(edit, StackOf(l), m).cmd == Send(a, e) <==> SendsNow(l, m, a, e)
  {
    if l.detail.None? {
      PromptOnBase(edit, l, m);
    } else if l.top.None? {
      assert StackOf(l) == l.base + [l.detail.value];
      PromptOnDetail(edit, l.base, l.detail.value, m);
    } else {
      assert StackOf(l) == l.base + [l.detail.value] + [l.top.value];
      PromptOnTop(edit, l.base, l.detail.value, l.top.value, m);
    }
  }

  /** When a detail screen has an action pending, the screen above it asks about that action on its entry; and a
      question always stands on such a screen, on top of the stack. */
  ghost predicate PendingMatches(stack: seq<View>) {
    && (forall k | 0 <= k < |stack| && stack[k].DetailView? && stack[k].pending.Some? :: AskedAbove(stack, k))
    && (forall k | 0 <= k < |stack| && (stack[k].ConfirmView? || stack[k].KillView?) ::
          && k == |stack| - 1 && k > 0 && stack[k - 1].DetailView? && stack[k - 1].pending.Some?
          && AskedAbove(stack, k - 1))
  }

  predicate AskedAbove(stack: seq<View>, k: nat)
    requires k < |stack| && stack[k].DetailView? && stack[k].pending.Some?
  {
    k + 1 < |stack| && Asks(stack[k + 1], stack[k].pending.value, stack[k].entry)
  }

  lemma LaidOutMatches(l: Layout)
    requires WellLaid(l)
    ensures PendingMatches(StackOf(l)) && 1 <= |StackOf(l)| <= 4 && StackOf(l)[0] == TableView
  {
    var s, n := StackOf(l), |l.base|;
    assert forall k | 0 <= k < n :: s[k] == l.base[k];
    if l.detail.Some? { assert s[n] == l.detail.value; }
    if l.top.Some? {
      assert s[n + 1] == l.top.value;
      if l.detail.value.pending.Some? { assert AskedAbove(s, n); }
    }
  }

  /** In every run whose pushes and pops are handled first, the stack rests on the table and `pending` is right. */
  lemma RunsMatch(edit: TextInput, ms: seq<Msg<View>>)
    requires AllExternal(ms)
    ensures PendingMatches(After(edit, ms)) && 1 <= |After(edit, ms)| <= 4 && After(edit, ms)[0] == TableView
  {
    AfterIsLaidOut(edit, ms);
    LaidOutMatches(LayoutAfter(edit, ms));
  }

  // ---- What was keyed before a request goes out ----

  function KeyFor(a: Action): string {
    match a case Truncate => "t" case Hup => "h" case Kill => "k"
  }

  /** The text in the input after these messages. */
  function Typed(edit: TextInput, ms: seq<Msg<View>>): string {
    if ms == [] then ""
    else Retyped(edit, Typed(edit, ms[..|ms| - 1]), ms[|ms| - 1])
  }

  function Top(stack: seq<View>): View
    requires stack != []
  {
    stack[|stack| - 1]
  }

  /** The screen on top before each message of a run, and after the last. */
  function Tops(edit: TextInput, ms: seq<Msg<View>>): (tops: seq<View>)
    ensures |tops| == |ms| + 1
  {
    seq(|ms| + 1, k requires 0 <= k <= |ms| => Top(After(edit, ms[..k])))
  }

  /** At message `j` the action's own key was pressed on the detail screen of `e`, and until message `n` the question
      stayed unanswered on top; the text it shows is what was typed or pasted since. */
  ghost predicate AskedSince(edit: TextInput, tops: seq<View>, ms: seq<Msg<View>>, j: nat, n: nat,
                             a: Action, e: Entry)
    requires |tops| == |ms| + 1
  {
    && j < n <= |ms| && ms[j].Key? && ms[j].key == KeyFor(a)
    && tops[j].DetailView? && tops[j].entry == e
    && (forall k | j < k < n :: Decision(tops[k], ms[k]).None?)
    && Asks(tops[n], a, e)
    && (a == Kill ==> tops[n].input == Typed(edit, ms[j + 1..n]))
  }

  lemma TopOf(l: Layout)
    requires WellLaid(l)
    ensures Top(StackOf(l)) ==
      if l.top.Some? then l.top.value else if l.detail.Some? then l.detail.value else l.base[|l.base| - 1]
  {
  }

  lemma StepTo(edit: TextInput, ms: seq<Msg<View>>, n: nat)
    requires AllExternal(ms) && n < |ms|
    ensures AllExternal(ms[..n]) && AllExternal(ms[..n + 1])
    ensures LayoutAfter(edit, ms[..n + 1]) == Next(edit, LayoutAfter(edit, ms[..n]), ms[n])
    ensures Top(After(edit, ms[..n])) == Top(StackOf(LayoutAfter(edit, ms[..n])))
    ensures After(edit, ms[..n + 1]) == StackOf(LayoutAfter(edit, ms[..n + 1]))
  {
    assert ms[..n + 1][..n] == ms[..n];
    AfterIsLaidOut(edit, ms[..n]);
    AfterIsLaidOut(edit, ms[..n + 1]);
  }

  lemma TypedStep(edit: TextInput, ms: seq<Msg<View>>, j: nat, n: nat)
    requires j < n < |ms|
    ensures Typed(edit, ms[j + 1..n + 1]) == Retyped(edit, Typed(edit, ms[j + 1..n]), ms[n])
  {
    assert ms[j + 1..n + 1][..n - j - 1] == ms[j + 1..n];
  }

  lemma StillAsked(edit: TextInput, l: Layout, m: Msg<View>)
    requires WellLaid(l) && External(m) && l.top.Some?
    requires var l' := Next(edit, l, m); l'.top.Some? && l'.detail.value.pending.Some?
    ensures Next(edit, l, m).detail == l.detail && Decision(l.top.value, m).None?
    ensures Next(edit, l, m).top.value == EditedBy(edit, l.top.value, m)
  {
  }

  lemma JustAsked(edit: TextInput, l: Layout, m: Msg<View>)
    requires WellLaid(l) && External(m) && l.top.None?
    requires var l' := Next(edit, l, m); l'.top.Some? && l'.detail.value.pending.Some?
    ensures var l' := Next(edit, l, m);
            && m.Key? && m.key == KeyFor(l'.detail.value.pending.value)
            && l.detail.Some? && l.detail.value.DetailView? && l.detail.value.entry == l'.detail.value.entry
            && (l'.detail.value.pending.value == Kill ==> l'.top.value.input == "")
  {
  }

  lemma StillTheQuestion(edit: TextInput, v: View, ms: seq<Msg<View>>, j: nat, n: nat, a: Action, e: Entry)
    requires j < n < |ms| && Asks(v, a, e) && (a == Kill ==> v.input == Typed(edit, ms[j + 1..n]))
    ensures var v' := EditedBy(edit, v, ms[n]);
            Asks(v', a, e) && (a == Kill ==> v'.input == Typed(edit, ms[j + 1..n + 1]))
  {
    TypedStep(edit, ms, j, n);
  }

  lemma OneMoreUnanswered(edit: TextInput, tops: seq<View>, ms: seq<Msg<View>>, j: nat, n: nat,
                          a: Action, e: Entry)
    requires |tops| == |ms| + 1 && n < |ms| && AskedSince(edit, tops, ms, j, n, a, e)
    requires Decision(tops[n], ms[n]).None? && tops[n + 1] == EditedBy(edit, tops[n], ms[n])
    ensures AskedSince(edit, tops, ms, j, n + 1, a, e)
  {
    StillTheQuestion(edit, tops[n], ms, j, n, a, e);
  }

  lemma NowAsked(edit: TextInput, tops: seq<View>, ms: seq<Msg<View>>, n: nat, a: Action, e: Entry)
    requires |tops| == |ms| + 1 && n < |ms| && ms[n].Key? && ms[n].key == KeyFor(a)
    requires tops[n].DetailView? && tops[n].entry == e
    requires Asks(tops[n + 1], a, e) && (a == Kill ==> tops[n + 1].input == "")
    ensures AskedSince(edit, tops, ms, n, n + 1, a, e)
  {
    assert ms[n + 1..n + 1] == [];
  }

  /** A question on top was put by its own key, and only keys that leave it open came since. */
  lemma {:induction false} AskedByItsKey(edit: TextInput, ms: seq<Msg<View>>, n: nat, d: View)
    returns (j: nat)
    requires AllExternal(ms) && n <= |ms|
    requires AllExternal(ms[..n])
    requires LayoutAfter(edit, ms[..n]).top.Some? && LayoutAfter(edit, ms[..n]).detail == Some(d)
    requires d.DetailView? && d.pending.Some?
    ensures AskedSince(edit, Tops(edit, ms), ms, j, n, d.pending.value, d.entry)
  {
    StepTo(edit, ms, n - 1);
    var l, l', m := LayoutAfter(edit, ms[..n - 1]), LayoutAfter(edit, ms[..n]), ms[n - 1];
    TopOf(l);
    TopOf(l');
    var tops := Tops(edit, ms);
    assert tops[n - 1] == Top(After(edit, ms[..n - 1])) && tops[n] == Top(After(edit, ms[..n]));
    if l.top.Some? {
      StillAsked(edit, l, m);
      j := AskedByItsKey(edit, ms, n - 1, d);
      OneMoreUnanswered(edit, tops, ms, j, n - 1, d.pending.value, d.entry);
    } else {
      JustAsked(edit, l, m);
      j := n - 1;
      NowAsked(edit, tops, ms, j, d.pending.value, d.entry);
    }
  }

  lemma YesKey(v: View, m: Msg<View>, a: Action, e: Entry)
    requires Asks(v, a, e) && Decision(v, m) == Some(true)
    ensures m.Key? && m.key == (if a == Kill then "enter" else "y") && (a == Kill ==> v.input == KILL_WORD)
  {
  }

  /** The confirmation protocol. A request to truncate, hang up or kill goes out at message `i` only if the action's
      own key was pressed earlier on the detail screen of that entry, the question stood unanswered since, and message
      `i` is its yes: "y" for the first two, and for a kill "enter" with exactly the word in the input. */
  lemma SentOnlyAfterConfirmation(edit: TextInput, ms: seq<Msg<View>>, i: nat, a: Action, e: Entry)
    returns (j: nat)
    requires AllExternal(ms) && i < |ms| && Started(edit, ms, i) == Send(a, e)
    ensures AskedSince(edit, Tops(edit, ms), ms, j, i, a, e)
    ensures ms[i].Key? && ms[i].key == (if a == Kill then "enter" else "y")
    ensures a == Kill ==> Typed(edit, ms[j + 1..i]) == KILL_WORD
  {
    assert AllExternal(ms[..i]);
    AfterIsLaidOut(edit, ms[..i]);
    var l := LayoutAfter(edit, ms[..i]);
    PromptFromLayout(edit, l, ms[i]);
    assert SendsNow(l, ms[i], a, e);
    j := AskedByItsKey(edit, ms, i, l.detail.value);
    assert Tops(edit, ms)[i] == Top(StackOf(l)) by { assert ms[..i] + ms[i..] == ms; }
    TopOf(l);
    YesKey(l.top.value, ms[i], a, e);
  }

  lemma YesGoes(edit: TextInput, l: Layout, m: Msg<View>, a: Action, e: Entry)
    requires WellLaid(l) && External(m)
    requires var v := Top(StackOf(l)); Asks(v, a, e) && Decision(v, m) == Some(true)
    ensures SendsNow(l, m, a, e) && Next(edit, l, m).top.None?
    ensures Next(edit, l, m).detail == Some(l.detail.value.(pending := None)) && l.detail.value.entry == e
  {
    TopOf(l);
  }

  /** Conversely, answering yes does send the request, and the detail screen is back on top with nothing pending. */
  lemma ConfirmedIsSent(edit: TextInput, ms: seq<Msg<View>>, i: nat, a: Action, e: Entry)
    requires AllExternal(ms) && i < |ms| && Asks(Top(After(edit, ms[..i])), a, e)
    requires Decision(Top(After(edit, ms[..i])), ms[i]) == Some(true)
    ensures Started(edit, ms, i) == Send(a, e)
    ensures var d := Top(After(edit, ms[..i + 1])); d.DetailView? && d.entry == e && d.pending.None?
  {
    StepTo(edit, ms, i);
    AfterIsLaidOut(edit, ms[..i]);
    var l := LayoutAfter(edit, ms[..i]);
    TopOf(l);
    YesGoes(edit, l, ms[i], a, e);
    TopOf(Next(edit, l, ms[i]));
    PromptFromLayout(edit, l, ms[i]);
  }

  // ---- The screens in memory ----

  class DetailScreen {
    const entry: Entry
    var pending: Option<Action>
    var status: string

    constructor (entry: Entry)
      ensures this.entry == entry && pending.None? && status == ""
    {
      this.entry, pending, status := entry, None, "";
    }

    function AsView(): View
      reads this
    {
      DetailView(entry, pending, status)
    }

    method Update(m: Msg<Screen>) returns (cmd: Cmd<Screen>)
      modifies this
      ensures Updated(AsView(), CmdView(cmd)) == DetailUpdate(old(AsView()), MsgView(m))
      ensures cmd.PushCmd? ==> fresh(Objects(cmd.screen))
    {
      cmd := Later;
      match m
      case Returned(v) =>
        var action := pending;
        pending := None;
        if v == Confirmed(true) && action.Some? { cmd := Send(action.value, entry); }
      case ActionDone(error, note) =>
        if error.Some? {
          status := "Error: " + error.value;
        } else {
          cmd := PopCmd(Some(Note(note)));
        }
      case Key(key, _, _) =>
        cmd := KeyPressed(key);
      case _ =>
    }

    method KeyPressed(key: string) returns (cmd: Cmd<Screen>)
      modifies this
      ensures Updated(AsView(), CmdView(cmd)) == DetailKey(old(AsView()), key)
      ensures cmd.PushCmd? ==> fresh(Objects(cmd.screen))
    {
      cmd := Later;
      if key == "esc" {
        cmd := PopCmd(None);
      } else if key == "s" {
        cmd := PushCmd(StreamScr(entry));
      } else if key == "t" {
        pending := Some(Truncate);
        cmd := PushCmd(ConfirmScr(Truncate, entry));
      } else if key == "h" {
        pending := Some(Hup);
        cmd := PushCmd(ConfirmScr(Hup, entry));
      } else if key == "k" {
        pending := Some(Kill);
        var k := new KillConfirmScreen(entry);
        cmd := PushCmd(KillScr(k));
      }
    }
  }

  class KillConfirmScreen {
    const about: Entry
    var input: string

    constructor (about: Entry)
      ensures this.about == about && input == ""
    {
      this.about, input := about, "";
    }

    function AsView(): View
      reads this
    {
      KillView(about, input)
    }

    method Update(edit: TextInput, m: Msg<Screen>) returns (cmd: Cmd<Screen>)
      modifies this
      ensures Updated(AsView(), CmdView(cmd)) == KillUpdate(edit, old(AsView()), MsgView(m))
      ensures !cmd.PushCmd?
    {
      cmd := Later;
      if m.Key? {
        if m.key == "esc" {
          cmd := PopCmd(Some(Confirmed(false)));
        } else if m.key == "enter" {
          cmd := PopCmd(Some(Confirmed(input == KILL_WORD)));
        } else {
          input := edit(input, KeyEdit(m.key));
        }
      } else if m.Pasted? {
        input := edit(input, PasteEdit(m.text));
      }
    }
  }

  datatype Screen =
    | TableScr
    | TreeScr
    | DetailScr(detail: DetailScreen)
    | ConfirmScr(action: Action, about: Entry)
    | KillScr(kill: KillConfirmScreen)
    | StreamScr(entry: Entry)

  function Objects(s: Screen): (objects: set<object>)
    ensures forall o | o in objects :: o is DetailScreen || o is KillConfirmScreen
  {
    match s
    case DetailScr(d) => {d}
    case KillScr(k) => {k}
    case _ => {}
  }

  function ScreenView(s: Screen): View
    reads Objects(s)
  {
    match s
    case TableScr => TableView
    case TreeScr => TreeView
    case DetailScr(d) => d.AsView()
    case ConfirmScr(a, e) => ConfirmView(a, e)
    case KillScr(k) => k.AsView()
    case StreamScr(e) => StreamView(e)
  }

  function Pushed(m: Msg<Screen>): set<object> {
    if m.Push? then Objects(m.screen) else {}
  }

  function MsgView(m: Msg<Screen>): Msg<View>
    reads Pushed(m)
  {
    match m
    case Key(key, table, tree) => Key(key, table, tree)
    case Push(s) => Push(ScreenView(s))
    case Pop(r) => Pop(r)
    case Returned(v) => Returned(v)
    case ActionDone(error, note) => ActionDone(error, note)
    case Pasted(text) => Pasted(text)
    case Background => Background
  }

  function AskedToPush(c: Cmd<Screen>): set<object> {
    if c.PushCmd? then Objects(c.screen) else {}
  }

  function CmdView(c: Cmd<Screen>): Cmd<View>
    reads AskedToPush(c)
  {
    match c
    case Later => Later
    case Quit => Quit
    case PushCmd(s) => PushCmd(ScreenView(s))
    case PopCmd(r) => PopCmd(r)
    case Send(a, e) => Send(a, e)
  }

  method TableKey(a: TableAnswer) returns (cmd: Cmd<Screen>)
    ensures CmdView(cmd) == ShowAnswer(a)
    ensures cmd.PushCmd? ==> fresh(Objects(cmd.screen))
  {
    match a
    case Stay => cmd := Later;
    case Leave => cmd := Quit;
    case ShowTree => cmd := PushCmd(TreeScr);
    case ShowEntry(e) =>
      var d := new DetailScreen(e);
      cmd := PushCmd(DetailScr(d));
  }

  method TreeKey(a: TreeScreen.Answer) returns (cmd: Cmd<Screen>)
    ensures CmdView(cmd) == TreeAnswer(a)
    ensures cmd.PushCmd? ==> fresh(Objects(cmd.screen))
  {
    match a
    case Nothing => cmd := Later;
    case Pop => cmd := PopCmd(None);
    case OpenDetail(e) =>
      var d := new DetailScreen(e);
      cmd := PushCmd(DetailScr(d));
  }

  /** A screen's Update. */
  method UpdateScreen(edit: TextInput, s: Screen, m: Msg<Screen>) returns (cmd: Cmd<Screen>)
    requires !m.Push?
    modifies Objects(s)
    ensures Updated(ScreenView(s), CmdView(cmd)) == Update(edit, old(ScreenView(s)), MsgView(m))
    ensures cmd.PushCmd? ==> fresh(Objects(cmd.screen))
  {
    cmd := Later;
    match s {
      case TableScr =>
        if m.Key? { cmd := TableKey(m.table); }
      case TreeScr =>
        if m.Key? { cmd := TreeKey(m.tree); }
      case DetailScr(d) =>
        cmd := d.Update(m);
      case ConfirmScr(_, _) =>
        if m.Key? && m.key == "y" {
          cmd := PopCmd(Some(Confirmed(true)));
        } else if m.Key? && (m.key == "n" || m.key == "esc") {
          cmd := PopCmd(Some(Confirmed(false)));
        }
      case KillScr(k) =>
        cmd := k.Update(edit, m);
      case StreamScr(_) =>
        if m.Key? && m.key == "esc" { cmd := PopCmd(None); }
    }
  }

  // ---- The application ----

  function ObjectsOf(stack: seq<Screen>): (objects: set<object>)
    ensures forall o | o in objects :: o is DetailScreen || o is KillConfirmScreen
  {
    if stack == [] then {} else ObjectsOf(stack[..|stack| - 1]) + Objects(stack[|stack| - 1])
  }

  /** No two screens of the stack share state. */
  ghost predicate Apart(stack: seq<Screen>) {
    stack == [] ||
    (Apart(stack[..|stack| - 1]) && Objects(stack[|stack| - 1]) !! ObjectsOf(stack[..|stack| - 1]))
  }

  ghost function Views(stack: seq<Screen>): (views: seq<View>)
    reads ObjectsOf(stack)
    ensures |views| == |stack|
  {
    if stack == [] then [] else Views(stack[..|stack| - 1]) + [ScreenView(stack[|stack| - 1])]
  }

  lemma StackSplits(below: seq<Screen>, top: Screen)
    ensures ObjectsOf(below + [top]) == ObjectsOf(below) + Objects(top)
    ensures Views(below + [top]) == Views(below) + [ScreenView(top)]
    ensures Apart(below + [top]) <==> Apart(below) && Objects(top) !! ObjectsOf(below)
  {
    assert (below + [top])[..|below|] == below;
  }

  lemma {:induction false} StackIsAllocated(stack: seq<Screen>)
    ensures forall o | o in ObjectsOf(stack) :: allocated(o)
  {
    if stack != [] { StackIsAllocated(stack[..|stack| - 1]); }
  }

  class Application {
    const edit: TextInput
    var stack: seq<Screen>

    ghost predicate Valid()
      reads this
    {
      stack != [] && Apart(stack)
    }

    ghost function AsViews(): seq<View>
      reads this, ObjectsOf(stack)
    {
      Views(stack)
    }

    /** NewApp, with the list of entries as its first screen. */
    constructor (edit: TextInput)
      ensures Valid() && this.edit == edit && AsViews() == [TableView] && ObjectsOf(stack) == {}
    {
      this.edit, stack := edit, [TableScr];
      StackSplits([], TableScr);
    }

    method TopUpdate(m: Msg<Screen>) returns (cmd: Cmd<Screen>)
      requires Valid() && !m.Push?
      modifies ObjectsOf(stack)
      ensures Valid() && stack == old(stack)
      ensures Handled(AsViews(), CmdView(cmd)) == ToTop(edit, old(AsViews()), MsgView(m))
      ensures cmd.PushCmd? ==> fresh(Objects(cmd.screen))
    {
      ghost var below, views := stack[..|stack| - 1], Views(stack[..|stack| - 1]);
      var top := stack[|stack| - 1];
      assert stack == below + [top];
      StackSplits(below, top);
      StackIsAllocated(below);
      ToTopOf(edit, views, ScreenView(top), MsgView(m));
      cmd := UpdateScreen(edit, top, m);
      StackSplits(below, top);
      assert Views(below) == views;
    }

    method PushScreen(s: Screen)
      requires Valid() && Objects(s) !! ObjectsOf(stack)
      modifies this
      ensures Valid() && AsViews() == old(AsViews()) + [ScreenView(s)]
      ensures ObjectsOf(stack) == old(ObjectsOf(stack)) + Objects(s)
    {
      StackSplits(stack, s);
      stack := stack + [s];
    }

    method PopTop()
      requires Valid()
      modifies this
      ensures Valid() && ObjectsOf(stack) <= old(ObjectsOf(stack))
      ensures var views := old(AsViews()); AsViews() == if |views| > 1 then views[..|views| - 1] else views
    {
      if |stack| > 1 {
        assert stack == stack[..|stack| - 1] + [stack[|stack| - 1]];
        StackSplits(stack[..|stack| - 1], stack[|stack| - 1]);
        stack := stack[..|stack| - 1];
      }
    }

    /** One message. */
    method Update(m: Msg<Screen>) returns (cmd: Cmd<Screen>)
      requires Valid() && (m.Push? ==> Objects(m.screen) !! ObjectsOf(stack))
      modifies this, ObjectsOf(stack)
      ensures Valid()
      ensures Handled(AsViews(), CmdView(cmd)) == Handle(edit, old(AsViews()), old(MsgView(m)))
      ensures ObjectsOf(stack) <= old(ObjectsOf(stack)) + Pushed(m)
      ensures cmd.PushCmd? ==> fresh(Objects(cmd.screen))
    {
      if m.Key? && m.key == "ctrl+c" {
        cmd := Quit;
      } else if m.Push? {
        PushScreen(m.screen);
        cmd := Later;
      } else if m.Pop? {
        PopTop();
        cmd := Later;
        if m.result.Some? { cmd := TopUpdate(Returned(m.result.value)); }
      } else {
        cmd := TopUpdate(m);
      }
    }

    method Follow(asked: Cmd<Screen>) returns (cmd: Cmd<Screen>)
      requires Valid() && (asked.PushCmd? ==> Objects(asked.screen) !! ObjectsOf(stack))
      modifies this, ObjectsOf(stack)
      ensures Valid()
      ensures Handled(AsViews(), CmdView(cmd)) == FollowUp(edit, Handled(old(AsViews()), old(CmdView(asked))))
      ensures ObjectsOf(stack) <= old(ObjectsOf(stack)) + if asked.PushCmd? then Objects(asked.screen) else {}
    {
      cmd := asked;
      if asked.PushCmd? {
        cmd := Update(Push(asked.screen));
      } else if asked.PopCmd? {
        cmd := Update(Pop(asked.result));
      }
    }

    /** A message from outside, and the push or pop it asks for handled before any other. */
    method Prompted(m: Msg<Screen>) returns (cmd: Cmd<Screen>)
      requires Valid() && External(MsgView(m))
      modifies this, ObjectsOf(stack)
      ensures Valid() && fresh(ObjectsOf(stack) - old(ObjectsOf(stack)))
      ensures AsViews() == Prompt(edit, old(AsViews()), MsgView(m)).stack
      ensures CmdView(cmd) == Prompt(edit, old(AsViews()), MsgView(m)).cmd
    {
      StackIsAllocated(stack);
      cmd := Update(m);
      cmd := Follow(cmd);
    }

    method RunOne(ms: seq<Msg<View>>, i: nat)
      requires Valid() && i < |ms| && External(ms[i]) && AsViews() == After(edit, ms[..i])
      modifies this, ObjectsOf(stack)
      ensures Valid() && forall o | o in ObjectsOf(stack) :: o in old(ObjectsOf(stack)) || fresh(o)
      ensures AsViews() == After(edit, ms[..i + 1])
    {
      AfterStep(edit, ms, i);
      var _ := Prompted(Incoming(ms[i]));
    }

    /** A whole run: the screens in memory go through the states the lemmas above speak of. */
    method Run(ms: seq<Msg<View>>)
      requires Valid() && AsViews() == [TableView] && AllExternal(ms)
      modifies this, ObjectsOf(stack)
      ensures Valid() && AsViews() == After(edit, ms)
    {
      StackIsAllocated(stack);
      for i := 0 to |ms|
        invariant Valid() && AsViews() == After(edit, ms[..i])
        invariant forall o | o in ObjectsOf(stack) :: o in old(ObjectsOf(stack)) || fresh(o)
      {
        RunOne(ms, i);
      }
      assert ms[..|ms|] == ms;
    }
  }

  function Incoming(m: Msg<View>): (r: Msg<Screen>)
    requires External(m)
    ensures !r.Push? && MsgView(r) == m
  {
    match m
    case Key(key, table, tree) => Key(key, table, tree)
    case ActionDone(error, note) => ActionDone(error, note)
    case Pasted(text) => Pasted(text)
    case _ => Background
  }

  lemma AfterStep(edit: TextInput, ms: seq<Msg<View>>, i: nat)
    requires i < |ms|
    ensures After(edit, ms[..i + 1]) == Prompt(edit, After(edit, ms[..i]), ms[i]).stack
  {
    assert ms[..i + 1][..i] == ms[..i];
  }
}
