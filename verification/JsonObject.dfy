/** Flat JSON objects: the lines the daemon prints with printf formats, and a reader for them after sections 4, 6 and
    7 of RFC 8259 (without optional white space and fractions, which the daemon never prints). */
module JsonObject {
  import opened Words
  import opened Decimal
  import opened JsonString

  /** A value as printed; text has already been escaped. */
  datatype Printed = Text(escaped: string) | Number(n: int) | Truth(b: bool)
  datatype Value = Str(bytes: string) | Num(n: int) | Bool(b: bool)

  type PrintedMembers = seq<(string, Printed)>
  type Members = seq<(string, Value)>

  // ---- Printing ----

  function Quoted(t: string): string {
    "\"" + t + "\""
  }

  function PrintValue(v: Printed): string {
    match v
    case Text(t) => Quoted(t)
    case Number(n) => Dec(n)
    case Truth(b) => if b then "true" else "false"
  }

  function PrintMember(m: (string, Printed)): string {
    Quoted(m.0) + ":" + PrintValue(m.1)
  }

  function PrintMembers(ms: PrintedMembers): string
    requires ms != []
  {
    if |ms| == 1 then PrintMember(ms[0]) else PrintMember(ms[0]) + "," + PrintMembers(ms[1..])
  }

  function PrintObject(ms: PrintedMembers): string
    requires ms != []
  {
    "{" + PrintMembers(ms) + "}"
  }

  // ---- Reading ----

  /** The index of the quote that closes a string content. */
  function ClosingQuote(s: string): (k: Option<nat>)
    ensures k.Some? ==> k.value < |s|
  {
    if s == "" then None
    else if s[0] == '"' then Some(0)
    else if s[0] == '\\' then
      if |s| < 2 then None
      else var k := ClosingQuote(s[2..]); if k.Some? then Some(k.value + 2) else None
    else var k := ClosingQuote(s[1..]); if k.Some? then Some(k.value + 1) else None
  }

  /** A string literal at the front of the text, and what follows it. */
  function ReadString(s: string): (r: Option<(string, string)>)
    ensures r.Some? ==> |r.value.1| < |s|
  {
    if s == "" || s[0] != '"' then None
    else
      var k := ClosingQuote(s[1..]);
      if k.None? then None
      else
        var bytes := Unescape(s[1..][..k.value]);
        if bytes.None? then None else Some((bytes.value, s[1..][k.value + 1..]))
  }

  function ReadNatural(s: string): (r: Option<(nat, string)>)
    ensures r.Some? ==> |r.value.1| < |s|
  {
    var k := DigitRun(s);
    if k == 0 || (k > 1 && s[0] == '0') then None else Some((DecimalValue(s[..k]), s[k..]))
  }

  function ReadValue(s: string): (r: Option<(Value, string)>)
    ensures r.Some? ==> |r.value.1| < |s|
  {
    if s == "" then None
    else if s[0] == '"' then
      var t := ReadString(s);
      if t.None? then None else Some((Str(t.value.0), t.value.1))
    else if s[0] == 't' then if "true" <= s then Some((Bool(true), s[4..])) else None
    else if s[0] == 'f' then if "false" <= s then Some((Bool(false), s[5..])) else None
    else if s[0] == '-' then
      var t := ReadNatural(s[1..]);
      if t.None? then None
      else
        var n: int := t.value.0;
        Some((Num(-n), t.value.1))
    else
      var t := ReadNatural(s);
      if t.None? then None else Some((Num(t.value.0), t.value.1))
  }

  /** The colon and the value after a key. */
  function ReadAfterKey(key: string, s: string): (r: Option<((string, Value), string)>)
    ensures r.Some? ==> |r.value.1| < |s|
  {
    if s == "" || s[0] != ':' then None
    else
      var v := ReadValue(s[1..]);
      if v.None? then None else Some(((key, v.value.0), v.value.1))
  }

  function ReadMember(s: string): (r: Option<((string, Value), string)>)
    ensures r.Some? ==> |r.value.1| < |s|
  {
    var key := ReadString(s);
    if key.None? then None else ReadAfterKey(key.value.0, key.value.1)
  }

  /** Members up to the closing brace, which must end the text. */
  function ReadMembers(s: string): Option<Members>
    decreases |s|
  {
    var m := ReadMember(s);
    if m.None? || m.value.1 == "" then None
    else if m.value.1 == "}" then Some([m.value.0])
    else if m.value.1[0] != ',' then None
    else
      var rest := ReadMembers(m.value.1[1..]);
      if rest.None? then None else Some([m.value.0] + rest.value)
  }

  function ReadObject(s: string): Option<Members> {
    if s == "" || s[0] != '{' then None
    else if s == "{}" then Some([])
    else ReadMembers(s[1..])
  }

  // ---- Reading back what was printed ----

  /** A key needs no escapes. */
  predicate PlainText(s: string) {
    forall i | 0 <= i < |s| :: s[i] >= ' ' && s[i] != '"' && s[i] != '\\'
  }

  lemma {:induction false} PlainTextIsItself(s: string)
    requires PlainText(s)
    ensures Escape(s) == s
  {
    if s != "" {
      PlainTextIsItself(s[1..]);
    }
  }

  lemma {:induction false} ClosingQuoteAfterEscape(s: string, rest: string)
    ensures ClosingQuote(Escape(s) + "\"" + rest) == Some(|Escape(s)|)
  {
    var t := Escape(s) + "\"" + rest;
    if s == "" {
      assert t[0] == '"';
    } else {
      ClosingQuoteAfterEscape(s[1..], rest);
      var tail := Escape(s[1..]) + "\"" + rest;
      assert t == EscapeByte(s[0]) + tail;
      ClosingQuoteSkips(s[0], tail);
    }
  }

  lemma ClosingQuoteSkips(c: char, tail: string)
    requires ClosingQuote(tail).Some?
    ensures ClosingQuote(EscapeByte(c) + tail) == Some(|EscapeByte(c)| + ClosingQuote(tail).value)
  {
    if HasShortEscape(c) || IsOtherControl(c) {
      EscapeShape(c);
      EscapeSkips(EscapeByte(c), tail);
    } else {
      SkipPlain(EscapeByte(c), tail);
    }
  }

  lemma EscapeSkips(e: string, tail: string)
    requires |e| >= 2 && e[0] == '\\' && forall i | 2 <= i < |e| :: e[i] != '"' && e[i] != '\\'
    requires ClosingQuote(tail).Some?
    ensures ClosingQuote(e + tail) == Some(|e| + ClosingQuote(tail).value)
  {
    SkipPlain(e[2..], tail);
    SkipEscape(e[1], e[2..] + tail);
    FirstTwo(e, tail);
  }

  lemma FirstTwo(e: string, tail: string)
    requires |e| >= 2
    ensures [e[0], e[1]] + (e[2..] + tail) == e + tail
  {
  }

  lemma EscapeShape(c: char)
    requires HasShortEscape(c) || IsOtherControl(c)
    ensures var e := EscapeByte(c); |e| >= 2 && e[0] == '\\' && forall i | 2 <= i < |e| :: e[i] != '"' && e[i] != '\\'
  {
  }

  lemma SkipEscape(x: char, tail: string)
    requires ClosingQuote(tail).Some?
    ensures ClosingQuote(['\\', x] + tail) == Some(2 + ClosingQuote(tail).value)
  {
    var t := ['\\', x] + tail;
    assert t[0] == '\\' && t[2..] == tail;
  }

  lemma {:induction false} SkipPlain(s: string, tail: string)
    requires forall i | 0 <= i < |s| :: s[i] != '"' && s[i] != '\\'
    requires ClosingQuote(tail).Some?
    ensures ClosingQuote(s + tail) == Some(|s| + ClosingQuote(tail).value)
  {
    if s == "" {
      assert s + tail == tail;
    } else {
      assert (s + tail)[1..] == s[1..] + tail;
      SkipPlain(s[1..], tail);
    }
  }

  lemma ReadStringBack(s: string, rest: string)
    ensures ReadString(Quoted(Escape(s)) + rest) == Some((s, rest))
  {
    var t := Quoted(Escape(s)) + rest;
    assert t[1..] == Escape(s) + "\"" + rest;
    ClosingQuoteAfterEscape(s, rest);
    UnescapeEscape(s);
    assert t[1..][..|Escape(s)|] == Escape(s);
    assert t[1..][|Escape(s)| + 1..] == rest;
  }

  /** `p` prints `v`. */
  predicate Prints(p: Printed, v: Value) {
    match v
    case Str(bytes) => p == Text(Escape(bytes))
    case Num(n) => p == Number(n)
    case Bool(b) => p == Truth(b)
  }

  lemma ReadNaturalBack(n: nat, rest: string)
    requires rest == "" || !IsDigit(rest[0])
    ensures ReadNatural(Digits(n) + rest) == Some((n, rest))
  {
    DigitRunOf(Digits(n), rest);
    DigitsValue(n);
    var s := Digits(n) + rest;
    assert s[|Digits(n)|..] == rest;
    assert s[0] == Digits(n)[0];
  }

  lemma ReadTextBack(bytes: string, rest: string)
    ensures ReadValue(PrintValue(Text(Escape(bytes))) + rest) == Some((Str(bytes), rest))
  {
    ReadStringBack(bytes, rest);
  }

  lemma ReadNegativeBack(n: int, rest: string)
    requires n > 0 && (rest == "" || !IsDigit(rest[0]))
    ensures ReadValue("-" + Digits(n) + rest) == Some((Num(0 - n), rest))
  {
    var t := "-" + Digits(n) + rest;
    assert t[0] == '-' && t[1..] == Digits(n) + rest;
    ReadNaturalBack(n, rest);
  }

  lemma ReadPositiveBack(n: nat, rest: string)
    requires rest == "" || !IsDigit(rest[0])
    ensures ReadValue(Digits(n) + rest) == Some((Num(n), rest))
  {
    var t := Digits(n) + rest;
    assert t[0] == Digits(n)[0] && t[0] in Digits(n);
    ReadNaturalBack(n, rest);
  }

  lemma ReadNumberBack(n: int, rest: string)
    requires rest == "" || !IsDigit(rest[0])
    ensures ReadValue(Dec(n) + rest) == Some((Num(n), rest))
  {
    if n < 0 { ReadNegativeBack(-n, rest); } else { ReadPositiveBack(n, rest); }
  }

  lemma ReadTruthBack(b: bool, rest: string)
    ensures ReadValue(PrintValue(Truth(b)) + rest) == Some((Bool(b), rest))
  {
    var t := PrintValue(Truth(b)) + rest;
    assert t[|PrintValue(Truth(b))|..] == rest;
  }

  lemma ReadValueBack(p: Printed, v: Value, rest: string)
    requires Prints(p, v) && (rest == "" || !IsDigit(rest[0]))
    ensures ReadValue(PrintValue(p) + rest) == Some((v, rest))
  {
    match v
    case Str(bytes) => ReadTextBack(bytes, rest);
    case Num(n) => ReadNumberBack(n, rest);
    case Bool(b) => ReadTruthBack(b, rest);
  }

  lemma ReadAfterKeyBack(key: string, p: Printed, v: Value, rest: string)
    requires Prints(p, v) && (rest == "" || !IsDigit(rest[0]))
    ensures ReadAfterKey(key, ":" + (PrintValue(p) + rest)) == Some(((key, v), rest))
  {
    var t := ":" + (PrintValue(p) + rest);
    assert t[1..] == PrintValue(p) + rest;
    ReadValueBack(p, v, rest);
  }

  lemma ReadMemberBack(key: string, p: Printed, v: Value, rest: string)
    requires PlainText(key) && Prints(p, v) && (rest == "" || !IsDigit(rest[0]))
    ensures ReadMember(PrintMember((key, p)) + rest) == Some(((key, v), rest))
  {
    var after := ":" + (PrintValue(p) + rest);
    PlainTextIsItself(key);
    Regroup(Quoted(key), ":", PrintValue(p), rest);
    ReadStringBack(key, after);
    ReadAfterKeyBack(key, p, v, rest);
  }

  lemma Regroup(a: string, b: string, c: string, d: string)
    ensures a + b + c + d == a + (b + (c + d)) == a + b + (c + d)
  {
  }

  /** `ps` prints `ms`, member by member, with keys that need no escapes. */
  predicate PrintsAll(ps: PrintedMembers, ms: Members) {
    |ps| == |ms| && forall i | 0 <= i < |ps| :: ps[i].0 == ms[i].0 && PlainText(ps[i].0) && Prints(ps[i].1, ms[i].1)
  }

  /** Reading goes through printed members to whatever follows the comma. */
  lemma ReadPastMember(key: string, p: Printed, v: Value, rest: string)
    requires PlainText(key) && Prints(p, v)
    ensures ReadMembers(PrintMember((key, p)) + "," + rest)
         == if ReadMembers(rest).None? then None else Some([(key, v)] + ReadMembers(rest).value)
  {
    ReadMemberBack(key, p, v, "," + rest);
    assert PrintMember((key, p)) + "," + rest == PrintMember((key, p)) + ("," + rest);
    assert ("," + rest)[1..] == rest;
  }

  lemma LastMemberBack(key: string, p: Printed, v: Value)
    requires PlainText(key) && Prints(p, v)
    ensures ReadMembers(PrintMember((key, p)) + "}") == Some([(key, v)])
  {
    ReadMemberBack(key, p, v, "}");
  }

  lemma PrintedAgain(ps: PrintedMembers)
    requires ps != []
    ensures PrintMembers(ps) + "}" == if |ps| == 1 then PrintMember(ps[0]) + "}"
                                      else PrintMember(ps[0]) + "," + (PrintMembers(ps[1..]) + "}")
  {
    if |ps| > 1 { Regroup(PrintMember(ps[0]), ",", PrintMembers(ps[1..]), "}"); }
  }

  lemma {:induction false} ReadMembersBack(ps: PrintedMembers, ms: Members)
    requires ps != [] && PrintsAll(ps, ms)
    ensures ReadMembers(PrintMembers(ps) + "}") == Some(ms)
  {
    var (key, p) := ps[0];
    PrintedAgain(ps);
    if |ps| == 1 {
      LastMemberBack(key, p, ms[0].1);
      assert ms == [ms[0]];
    } else {
      ReadMembersBack(ps[1..], ms[1..]);
      ReadPastMember(key, p, ms[0].1, PrintMembers(ps[1..]) + "}");
      assert ms == [(key, ms[0].1)] + ms[1..];
    }
  }

  /** Whatever is printed is read back. */
  lemma ReadObjectBack(ps: PrintedMembers, ms: Members)
    requires ps != [] && PrintsAll(ps, ms)
    ensures ReadObject(PrintObject(ps)) == Some(ms)
  {
    ReadMembersBack(ps, ms);
    var t := PrintObject(ps);
    assert t[1..] == PrintMembers(ps) + "}";
    assert t != "{}" by { assert |PrintMembers(ps)| > 0 by { assert |PrintMember(ps[0])| > 0; } }
  }

  // ---- A cut object is no object ----

  lemma {:induction false} ClosingQuoteLocal(s: string, x: string)
    requires ClosingQuote(s).Some?
    ensures ClosingQuote(s + x) == ClosingQuote(s)
    decreases |s|
  {
    if s[0] == '\\' {
      assert (s + x)[2..] == s[2..] + x;
      ClosingQuoteLocal(s[2..], x);
    } else if s[0] != '"' {
      assert (s + x)[1..] == s[1..] + x;
      ClosingQuoteLocal(s[1..], x);
    }
  }

  lemma ReadStringLocal(s: string, x: string)
    requires ReadString(s).Some?
    ensures ReadString(s + x) == Some((ReadString(s).value.0, ReadString(s).value.1 + x))
  {
    var k := ClosingQuote(s[1..]).value;
    assert (s + x)[1..] == s[1..] + x;
    ClosingQuoteLocal(s[1..], x);
    assert (s[1..] + x)[..k] == s[1..][..k] && (s[1..] + x)[k + 1..] == s[1..][k + 1..] + x;
  }

  lemma ReadNaturalLocal(s: string, x: string)
    requires ReadNatural(s).Some? && ReadNatural(s).value.1 != ""
    ensures ReadNatural(s + x) == Some((ReadNatural(s).value.0, ReadNatural(s).value.1 + x))
  {
    var k := DigitRun(s);
    assert s + x == s[..k] + (s[k..] + x);
    DigitRunOf(s[..k], s[k..] + x);
    assert (s + x)[k..] == s[k..] + x;
  }

  lemma ReadValueLocal(s: string, x: string)
    requires ReadValue(s).Some? && ReadValue(s).value.1 != ""
    ensures ReadValue(s + x) == Some((ReadValue(s).value.0, ReadValue(s).value.1 + x))
  {
    if s[0] == '"' {
      ReadStringLocal(s, x);
    } else if s[0] == 't' {
      assert "true" <= s + x && (s + x)[4..] == s[4..] + x;
    } else if s[0] == 'f' {
      assert "false" <= s + x && (s + x)[5..] == s[5..] + x;
    } else if s[0] == '-' {
      assert (s + x)[1..] == s[1..] + x;
      ReadNaturalLocal(s[1..], x);
    } else {
      ReadNaturalLocal(s, x);
    }
  }

  lemma ReadMemberLocal(s: string, x: string)
    requires ReadMember(s).Some? && ReadMember(s).value.1 != ""
    ensures ReadMember(s + x) == Some((ReadMember(s).value.0, ReadMember(s).value.1 + x))
  {
    var after := ReadString(s).value.1;
    ReadStringLocal(s, x);
    assert (after + x)[1..] == after[1..] + x;
    ReadValueLocal(after[1..], x);
  }

  lemma BehindFirst(s: string, x: string)
    requires s != "" && x != ""
    ensures (s + x)[0] == s[0] && (s + x)[1..] == s[1..] + x && |s + x| > 1
  {
  }

  lemma {:induction false} ReadMembersPrefixFree(s: string, x: string)
    requires ReadMembers(s).Some? && x != ""
    ensures ReadMembers(s + x).None?
    decreases |s|
  {
    ReadMemberLocal(s, x);
    var after := ReadMember(s).value.1;
    BehindFirst(after, x);
    if after != "}" { ReadMembersPrefixFree(after[1..], x); }
  }

  lemma ReadObjectPrefixFree(p: string, x: string)
    requires ReadObject(p).Some? && x != ""
    ensures ReadObject(p + x).None?
  {
    assert (p + x)[1..] == p[1..] + x;
    if p == "{}" {
      assert (p + x)[1..][0] == '}' && ReadString((p + x)[1..]).None?;
    } else {
      ReadMembersPrefixFree(p[1..], x);
    }
  }

  /** No text that reads as an object is a strict prefix of another: a line cut anywhere is rejected. */
  lemma CutObjectIsRejected(t: string, k: nat)
    requires ReadObject(t).Some? && k < |t|
    ensures ReadObject(t[..k]).None?
  {
    assert t == t[..k] + t[k..];
    if ReadObject(t[..k]).Some? { ReadObjectPrefixFree(t[..k], t[k..]); }
  }

  // ---- No raw control byte ----

  /** Neither a newline nor a NUL, nor any other byte below the space. */
  predicate NoControls(s: string) {
    forall i | 0 <= i < |s| :: s[i] >= ' '
  }

  predicate OneLine(s: string) {
    '\n' !in s
  }

  lemma {:induction false} EscapedHasNoControls(s: string)
    ensures NoControls(Escape(s))
  {
    if s != "" {
      EscapedHasNoControls(s[1..]);
      assert NoControls(EscapeByte(s[0]));
    }
  }

  lemma PrintedMemberHasNoControls(key: string, p: Printed, v: Value)
    requires PlainText(key) && Prints(p, v)
    ensures NoControls(PrintMember((key, p)))
  {
    match v
    case Str(bytes) => EscapedHasNoControls(bytes);
    case Num(n) => assert forall i | 0 <= i < |Dec(n)| :: Dec(n)[i] in Dec(n);
    case Bool(b) =>
  }

  lemma {:induction false} PrintedMembersHaveNoControls(ps: PrintedMembers, ms: Members)
    requires ps != [] && PrintsAll(ps, ms)
    ensures NoControls(PrintMembers(ps))
  {
    PrintedMemberHasNoControls(ps[0].0, ps[0].1, ms[0].1);
    if |ps| > 1 { PrintedMembersHaveNoControls(ps[1..], ms[1..]); }
  }

  /** However the values look, what is printed of them holds no raw control byte: it is one line and a C string. */
  lemma PrintedHasNoControls(ps: PrintedMembers, ms: Members)
    requires ps != [] && PrintsAll(ps, ms)
    ensures NoControls(PrintObject(ps))
  {
    PrintedMembersHaveNoControls(ps, ms);
  }

  lemma PrintsAllSplits(pa: PrintedMembers, pb: PrintedMembers, ma: Members, mb: Members)
    requires PrintsAll(pa, ma) && PrintsAll(pb, mb)
    ensures PrintsAll(pa + pb, ma + mb)
  {
    var ps, ms := pa + pb, ma + mb;
    forall i | 0 <= i < |ps| ensures ps[i].0 == ms[i].0 && PlainText(ps[i].0) && Prints(ps[i].1, ms[i].1) {
      if i < |pa| {
        assert ps[i] == pa[i] && ms[i] == ma[i];
      } else {
        assert ps[i] == pb[i - |pa|] && ms[i] == mb[i - |pa|];
      }
    }
  }
}
