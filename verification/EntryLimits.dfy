/** Entries of the C struct that the wire (protocol.c) does not carry: one that loses part of a text, and one whose line
    the daemon's line buffer cuts. */
module EntryLimits {
  import opened ProcScan
  import opened JsonString
  import opened JsonObject
  import opened EntryWire
  import opened ScanWire
  import TextReturn

  function Repeated(c: char, n: nat): (s: string)
    ensures |s| == n && forall i | 0 <= i < n :: s[i] == c
  {
    seq(n, _ => c)
  }

  // ---- A text that is cut ----

  const CONTROL := 1 as char

  lemma {:induction false} ControlsKept(x: string, o: nat, size: nat)
    requires o < size && forall i | 0 <= i < |x| :: x[i] == CONTROL
    ensures o + 6 * |Kept(x, o, size)| < size
  {
    if x != "" && o + 2 < size && o + Need(x[0]) < size {
      ControlsKept(x[1..], o + |EscapeByte(x[0])|, size);
    } else if x != "" && o + 2 < size {
      ControlsKept(x[1..], o, size);
    }
  }

  lemma OtherEnd(x: string, y: string, n: nat, tail: string)
    requires n > 0 && x != "" && tail != "" && x[|x| - 1] != tail[|tail| - 1]
    ensures !TextReturn.CutBefore(x, y, n, tail)
  {
    if n <= |y| < |x| {
      var back := x[|y| - n..];
      assert back[|back| - 1] == x[|x| - 1];
    }
  }

  /** A run of control bytes that takes a third of its field or more does not come back. */
  lemma LongControlsAreLost(n: nat, fieldSize: nat)
    requires fieldSize > 0 && 6 * n >= 2 * fieldSize
    ensures !ComesBack(Repeated(CONTROL, n), fieldSize)
  {
    var x := Repeated(CONTROL, n);
    ControlsKept(x, 0, 2 * fieldSize);
    OtherEnd(x, Kept(x, 0, 2 * fieldSize), 1, REPLACEMENT);
    OtherEnd(x, Kept(x, 0, 2 * fieldSize), 2, REPLACEMENT + REPLACEMENT);
    TextReturn.RoomMeansKept(x, 2 * fieldSize);
  }

  /** Any entry with 2000 such bytes for its path is one that the client sees changed. */
  lemma PathOfControlsIsLost(e: Entry)
    requires InStruct(e)
    ensures var f := e.(path := Repeated(CONTROL, 2000)); InStruct(f) && AsReceived(f) != AsSeen(f)
  {
    var f := e.(path := Repeated(CONTROL, 2000));
    LongControlsAreLost(2000, HSED_PATH_MAX);
    EntryRoundTrip(f);
  }

  // ---- A line that is cut ----

  function TextLength(p: Printed): nat {
    if p.Text? then |p.escaped| + 2 else 0
  }

  /** A lower bound for a printed object: its texts in their quotes, and each key with its quotes and colon. */
  function Weight(ps: PrintedMembers): nat {
    if ps == [] then 0 else 3 + TextLength(ps[0].1) + Weight(ps[1..])
  }

  lemma MemberWeight(m: (string, Printed))
    ensures |PrintMember(m)| >= 3 + TextLength(m.1)
  {
  }

  lemma {:induction false} PrintedWeight(ps: PrintedMembers)
    requires ps != []
    ensures |PrintMembers(ps)| >= Weight(ps)
  {
    MemberWeight(ps[0]);
    if |ps| == 1 { assert Weight(ps[1..]) == 0; } else { PrintedWeight(ps[1..]); }
  }

  lemma {:induction false} WeightSplits(a: PrintedMembers, b: PrintedMembers)
    ensures Weight(a + b) == Weight(a) + Weight(b)
  {
    if a == [] {
      assert a + b == b;
    } else {
      assert (a + b)[1..] == a[1..] + b;
      WeightSplits(a[1..], b);
    }
  }

  lemma WeightAt(ps: PrintedMembers, i: nat)
    requires i < |ps|
    ensures Weight(ps) == Weight(ps[..i]) + 3 + TextLength(ps[i].1) + Weight(ps[i + 1..])
  {
    assert ps == ps[..i] + ps[i..] && ps[i..][1..] == ps[i + 1..];
    WeightSplits(ps[..i], ps[i..]);
  }

  lemma TextsWeigh(e: Entry, user: string, comm: string, cmdline: string, path: string)
    ensures Weight(EntryFormat(e, user, comm, cmdline, path)) >= 12 + |user| + |comm| + |cmdline| + |path|
  {
    var a, b := FormatHead(e, user), FormatTail(e, comm, cmdline, path);
    WeightSplits(a, b);
    WeightAt(a, 6);
    WeightAt(b, 0);
    WeightAt(b[1..], 0);
    WeightAt(b[1..][1..], 0);
    assert b[1..][0] == b[1] && b[1..][1..][0] == b[2];
  }

  lemma {:induction false} QuotesDouble(n: nat)
    ensures |Escape(Repeated('"', n))| == 2 * n
  {
    if n > 0 {
      assert Repeated('"', n)[1..] == Repeated('"', n - 1);
      QuotesDouble(n - 1);
    }
  }

  lemma QuotesFill(fieldSize: nat)
    requires fieldSize > 0
    ensures |EscapedField(Repeated('"', fieldSize - 1), fieldSize)| == 2 * fieldSize - 2
  {
    var x := Repeated('"', fieldSize - 1);
    DoubledBufferIsEnough(x, fieldSize);
    QuotesDouble(fieldSize - 1);
  }

  /** The entry with all four texts filled with quotes. */
  function Filled(e: Entry): Entry {
    e.(user := Repeated('"', HSED_NAME_MAX - 1), comm := Repeated('"', HSED_NAME_MAX - 1),
       cmdline := Repeated('"', HSED_CMDLINE_MAX - 1), path := Repeated('"', HSED_PATH_MAX - 1))
  }

  /** It is one of the C struct, and its line is longer than the line buffer. */
  lemma FilledDoesNotFit(e: Entry)
    requires InStruct(e)
    ensures InStruct(Filled(e)) && !Fits(Filled(e))
  {
    var user, cmdline := EscapedField(Filled(e).user, HSED_NAME_MAX), EscapedField(Filled(e).cmdline, HSED_CMDLINE_MAX);
    var path := EscapedField(Filled(e).path, HSED_PATH_MAX);
    QuotesFill(HSED_NAME_MAX);
    QuotesFill(HSED_CMDLINE_MAX);
    QuotesFill(HSED_PATH_MAX);
    TextsWeigh(Filled(e), user, user, cmdline, path);
    PrintedWeight(EntryFormat(Filled(e), user, user, cmdline, path));
  }

  /** So one such entry fails the whole of a SCAN, even when nothing of the reply is lost. */
  lemma {:induction false} OneFilledFailsAll(es: seq<Entry>, e: Entry)
    requires forall i | 0 <= i < |es| :: InStruct(es[i])
    requires InStruct(e) && Filled(e) in es && InInt64(|es|) && InInt64(SumSizes(es))
    ensures ScanResultOf(ReadReply, ScanReply(es), []) == ScanFailed
  {
    FilledDoesNotFit(e);
    assert !AllFit(es);
    ScanTransfer(es, |ScanReply(es)|);
    assert ScanReply(es)[..|ScanReply(es)|] == ScanReply(es);
  }
}
