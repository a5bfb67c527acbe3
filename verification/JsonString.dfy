/** JSON string contents: the daemon's bounded escaping (protocol.c, hsed_json_escape) against the decoding of
    section 7 of RFC 8259 and the client's treatment of UTF-8. A char stands for one byte. */
module JsonString {
  import opened Words

  /** A C string holds no NUL. */
  predicate IsCString(s: string) {
    forall c | c in s :: 0 < c as int < 0x100
  }

  // ---- Escaping ----

  predicate HasShortEscape(c: char) {
    c == '"' || c == '\\' || c == '\n' || c == '\r' || c == '\t'
  }

  /** Control bytes that are written as \u00XX. */
  predicate IsOtherControl(c: char) {
    c < ' ' && !HasShortEscape(c)
  }

  function HexDigit(d: nat): char
    requires d < 16
  {
    "0123456789abcdef"[d]
  }

  function EscapeByte(c: char): (r: string)
    ensures |r| == if HasShortEscape(c) then 2 else if IsOtherControl(c) then 6 else 1
  {
    if c == '"' then "\\\""
    else if c == '\\' then "\\\\"
    else if c == '\n' then "\\n"
    else if c == '\r' then "\\r"
    else if c == '\t' then "\\t"
    else if c < ' ' then "\\u00" + [HexDigit(c as int / 16), HexDigit(c as int % 16)]
    else [c]
  }

  function Escape(s: string): string {
    if s == "" then "" else EscapeByte(s[0]) + Escape(s[1..])
  }

  /** The room the loop wants before it writes this byte. */
  function Need(c: char): nat {
    if IsOtherControl(c) then 6 else 2
  }

  /** The bytes of `src` that make it into a buffer of `size` bytes of which `o` are used: a \u00XX that does not fit
      is skipped, anything else that does not fit ends the text. */
  function Kept(src: string, o: nat, size: nat): (r: string)
    ensures |r| <= |src|
  {
    if src == "" || o + 2 >= size then ""
    else if o + Need(src[0]) >= size then Kept(src[1..], o, size)
    else [src[0]] + Kept(src[1..], o + |EscapeByte(src[0])|, size)
  }

  /** snprintf of \u00XX at `o`, with its terminating NUL. */
  method PrintUnicodeEscape(dst: array<char>, o: nat, c: char)
    requires o + 6 < dst.Length && IsOtherControl(c)
    modifies dst
    ensures dst[..o + 6] == old(dst[..o]) + EscapeByte(c)
    ensures forall j | o + 6 < j < dst.Length :: dst[j] == old(dst[j])
  {
    var text := EscapeByte(c);
    forall j | 0 <= j < 6 { dst[o + j] := text[j]; }
    dst[o + 6] := '\0';
    assert dst[..o + 6] == old(dst[..o]) + text;
  }

  method Put(dst: array<char>, o: nat, text: string)
    requires o + |text| <= dst.Length
    modifies dst
    ensures dst[..o + |text|] == old(dst[..o]) + text
    ensures forall j | o + |text| <= j < dst.Length :: dst[j] == old(dst[j])
  {
    forall j | 0 <= j < |text| { dst[o + j] := text[j]; }
    assert dst[..o + |text|] == old(dst[..o]) + text;
  }

  /** One byte of the source; `o` is the first free index afterwards. */
  method EscapeOne(dst: array<char>, o: nat, c: char) returns (o': nat)
    requires o + 2 < dst.Length
    modifies dst
    ensures o' < dst.Length
    ensures var fits := o + Need(c) < dst.Length;
            dst[..o'] == old(dst[..o]) + (if fits then EscapeByte(c) else "")
            && o' == o + if fits then |EscapeByte(c)| else 0
    ensures forall j | o' < j < dst.Length :: dst[j] == old(dst[j])
  {
    o' := o;
    if HasShortEscape(c) {
      Put(dst, o, EscapeByte(c));
      o' := o + 2;
    } else if c < ' ' {
      if o + 6 < dst.Length {
        PrintUnicodeEscape(dst, o, c);
        o' := o + 6;
      }
    } else {
      Put(dst, o, [c]);
      o' := o + 1;
    }
  }

  /** One turn of the loop, of which `kept` is what it has kept so far. */
  method EscapeNext(dst: array<char>, src: string, p: nat, o: nat, ghost kept: string)
    returns (o': nat, ghost kept': string)
    requires p < |src| && o + 2 < dst.Length && dst[..o] == Escape(kept) && o == |Escape(kept)|
    modifies dst
    ensures o <= o' < dst.Length && dst[..o'] == Escape(kept') && o' == |Escape(kept')|
    ensures kept + Kept(src[p..], o, dst.Length) == kept' + Kept(src[p + 1..], o', dst.Length)
    ensures forall j | o' < j < dst.Length :: dst[j] == old(dst[j])
  {
    KeptStep(src, p, o, dst.Length, kept);
    EscapeOneMore(kept, src[p]);
    kept' := if o + Need(src[p]) < dst.Length then kept + [src[p]] else kept;
    o' := EscapeOne(dst, o, src[p]);
  }

  /** Writes the escaped text and its NUL, stays inside `dst`, and leaves what follows the NUL alone. */
  method JsonEscape(dst: array<char>, src: string)
    requires IsCString(src)
    modifies dst
    ensures dst.Length > 0 ==>
              var text := Escape(Kept(src, 0, dst.Length));
              |text| < dst.Length && dst[..|text|] == text && dst[|text|] == '\0'
              && forall j | |text| < j < dst.Length :: dst[j] == old(dst[j])
  {
    if dst.Length == 0 { return; }
    var o: nat, p := 0, 0;
    ghost var kept := "";
    while p < |src| && o + 2 < dst.Length
      invariant 0 <= p <= |src| && o < dst.Length
      invariant dst[..o] == Escape(kept) && o == |Escape(kept)|
      invariant Kept(src, 0, dst.Length) == kept + Kept(src[p..], o, dst.Length)
      invariant forall j | o < j < dst.Length :: dst[j] == old(dst[j])
    {
      o, kept := EscapeNext(dst, src, p, o, kept);
      p := p + 1;
    }
    dst[o] := '\0';
    assert kept + "" == kept;
  }

  lemma EscapeOneMore(s: string, c: char)
    ensures Escape(s + [c]) == Escape(s) + EscapeByte(c)
  {
    EscapeSplits(s, [c]);
    assert Escape([c]) == EscapeByte([c][0]) + Escape([c][1..]);
    assert [c][1..] == "" && EscapeByte(c) + "" == EscapeByte(c);
  }

  lemma KeptStep(src: string, p: nat, o: nat, size: nat, kept: string)
    requires p < |src| && o + 2 < size
    ensures o + Need(src[p]) < size ==>
              kept + Kept(src[p..], o, size) == kept + [src[p]] + Kept(src[p + 1..], o + |EscapeByte(src[p])|, size)
    ensures o + Need(src[p]) >= size ==> Kept(src[p..], o, size) == Kept(src[p + 1..], o, size)
  {
    var rest := src[p..];
    assert rest[0] == src[p] && rest[1..] == src[p + 1..];
    if o + Need(src[p]) < size {
      assert Kept(rest, o, size) == [rest[0]] + Kept(rest[1..], o + |EscapeByte(rest[0])|, size);
    }
  }

  lemma {:induction false} EscapeSplits(a: string, b: string)
    ensures Escape(a + b) == Escape(a) + Escape(b)
  {
    if a == "" {
      assert a + b == b;
    } else {
      assert (a + b)[1..] == a[1..] + b;
      EscapeSplits(a[1..], b);
    }
  }

  // ---- Decoding ----

  function HexValue(c: char): Option<nat> {
    if '0' <= c <= '9' then Some(c as int - '0' as int)
    else if 'a' <= c <= 'f' then Some(c as int - 'a' as int + 10)
    else if 'A' <= c <= 'F' then Some(c as int - 'A' as int + 10)
    else None
  }

  /** The four hexadecimal digits after \u. */
  function CodeUnit(s: string): (r: Option<nat>)
    ensures r.Some? ==> r.value < 0x10000
  {
    if |s| < 4 then None
    else
      var a, b, c, d := HexValue(s[0]), HexValue(s[1]), HexValue(s[2]), HexValue(s[3]);
      if a.None? || b.None? || c.None? || d.None? then None
      else if a.value > 15 || b.value > 15 || c.value > 15 || d.value > 15 then None
      else Some(((a.value * 16 + b.value) * 16 + c.value) * 16 + d.value)
  }

  const REPLACEMENT := [0xEF as char, 0xBF as char, 0xBD as char]

  /** The UTF-8 bytes of a code point; a lone surrogate becomes the replacement character. */
  function Utf8(code: nat): string
    requires code < 0x110000
  {
    if code < 0x80 then [code as char]
    else if code < 0x800 then [(0xC0 + code / 64) as char, (0x80 + code % 64) as char]
    else if 0xD800 <= code < 0xE000 then REPLACEMENT
    else if code < 0x10000 then
      [(0xE0 + code / 4096) as char, (0x80 + code / 64 % 64) as char, (0x80 + code % 64) as char]
    else
      [(0xF0 + code / 262144) as char, (0x80 + code / 4096 % 64) as char,
       (0x80 + code / 64 % 64) as char, (0x80 + code % 64) as char]
  }

  /** The second half of a surrogate pair, if the text goes on with one. */
  function LowSurrogate(s: string): Option<nat> {
    if |s| >= 2 && s[0] == '\\' && s[1] == 'u' && CodeUnit(s[2..]).Some? && 0xDC00 <= CodeUnit(s[2..]).value < 0xE000
    then Some(CodeUnit(s[2..]).value)
    else None
  }

  function Prepend(a: string, b: Option<string>): Option<string> {
    if b.None? then None else Some(a + b.value)
  }

  /** The bytes a JSON string's content stands for; None when the content is not allowed between quotes. */
  function Unescape(s: string): Option<string>
    decreases |s|
  {
    if s == "" then Some("")
    else if s[0] == '"' || s[0] < ' ' then None
    else if s[0] != '\\' then Prepend([s[0]], Unescape(s[1..]))
    else if |s| < 2 then None
    else match s[1]
      case '"' => Prepend("\"", Unescape(s[2..]))
      case '\\' => Prepend("\\", Unescape(s[2..]))
      case '/' => Prepend("/", Unescape(s[2..]))
      case 'b' => Prepend([8 as char], Unescape(s[2..]))
      case 'f' => Prepend([12 as char], Unescape(s[2..]))
      case 'n' => Prepend("\n", Unescape(s[2..]))
      case 'r' => Prepend("\r", Unescape(s[2..]))
      case 't' => Prepend("\t", Unescape(s[2..]))
      case 'u' =>
        var unit := CodeUnit(s[2..]);
        if unit.None? then None
        else if 0xD800 <= unit.value < 0xDC00 && LowSurrogate(s[6..]).Some? && |s| >= 12 then
          var low := LowSurrogate(s[6..]).value;
          Prepend(Utf8(0x10000 + (unit.value - 0xD800) * 1024 + (low - 0xDC00)), Unescape(s[12..]))
        else Prepend(Utf8(unit.value), Unescape(s[6..]))
      case _ => None
  }

  lemma UnescapeByte(c: char, rest: string)
    ensures Unescape(EscapeByte(c) + rest) == Prepend([c], Unescape(rest))
  {
    var s := EscapeByte(c) + rest;
    assert s[|EscapeByte(c)|..] == rest;
    if IsOtherControl(c) {
      HexRoundTrip(c as int);
      assert s[2..][0] == '0' && s[2..][1] == '0';
      assert s[2..][2] == HexDigit(c as int / 16) && s[2..][3] == HexDigit(c as int % 16);
      assert CodeUnit(s[2..]) == Some(c as int);
    }
  }

  lemma HexRoundTrip(n: nat)
    requires n < 0x100
    ensures HexValue(HexDigit(n / 16)) == Some(n / 16) && HexValue(HexDigit(n % 16)) == Some(n % 16)
  {
  }

  /** Decoding undoes escaping, for every text. */
  lemma {:induction false} UnescapeEscape(s: string)
    ensures Unescape(Escape(s)) == Some(s)
  {
    if s != "" {
      UnescapeByte(s[0], Escape(s[1..]));
      UnescapeEscape(s[1..]);
      assert [s[0]] + s[1..] == s;
    }
  }

  // ---- What the bound keeps ----

  predicate IsSubsequence(a: string, b: string) {
    if a == "" then true
    else if b == "" then false
    else if a[0] == b[0] then IsSubsequence(a[1..], b[1..])
    else IsSubsequence(a, b[1..])
  }

  lemma DroppingHead(a: string, b: string)
    requires b != "" && IsSubsequence(a, b[1..])
    ensures IsSubsequence(a, b)
    decreases |a| + |b|
  {
    if a != "" && a[0] == b[0] { TailToo(a, b[1..]); }
  }

  lemma {:induction false} TailToo(a: string, b: string)
    requires a != "" && IsSubsequence(a, b)
    ensures IsSubsequence(a[1..], b)
    decreases |a| + |b|
  {
    if a[0] == b[0] {
      DroppingHead(a[1..], b);
    } else {
      TailToo(a, b[1..]);
      DroppingHead(a[1..], b);
    }
  }

  /** Whatever the size of the buffer, what is written decodes to a subsequence of the source; to a prefix of it when
      the source has no control bytes besides newline, carriage return and tab. */
  lemma {:induction false} KeptIsSubsequence(src: string, o: nat, size: nat)
    ensures IsSubsequence(Kept(src, o, size), src)
    ensures (forall c | c in src :: !IsOtherControl(c)) ==> Kept(src, o, size) <= src
  {
    if src != "" && o + 2 < size {
      if o + Need(src[0]) >= size {
        KeptIsSubsequence(src[1..], o, size);
        DroppingHead(Kept(src, o, size), src);
      } else {
        KeptIsSubsequence(src[1..], o + |EscapeByte(src[0])|, size);
        assert Kept(src, o, size)[1..] == Kept(src[1..], o + |EscapeByte(src[0])|, size);
      }
    }
  }

  /** Room before each byte, from `o` used bytes on. */
  predicate RoomFor(src: string, o: nat, size: nat) {
    src == "" || (o + Need(src[0]) < size && RoomFor(src[1..], o + |EscapeByte(src[0])|, size))
  }

  lemma {:induction false} KeptWithRoom(src: string, o: nat, size: nat)
    ensures Kept(src, o, size) == src <==> RoomFor(src, o, size)
  {
    if src != "" {
      if o + Need(src[0]) < size {
        KeptWithRoom(src[1..], o + |EscapeByte(src[0])|, size);
        HeadSame(src[0], Kept(src[1..], o + |EscapeByte(src[0])|, size), src);
      } else {
        assert |Kept(src, o, size)| < |src|;
      }
    }
  }

  lemma HeadSame(c: char, rest: string, src: string)
    requires src != "" && src[0] == c
    ensures [c] + rest == src <==> rest == src[1..]
  {
    if [c] + rest == src { assert ([c] + rest)[1..] == rest; }
    assert src == [src[0]] + src[1..];
  }

  predicate RoomBefore(src: string, o: nat, size: nat, i: nat)
    requires i < |src|
  {
    o + |Escape(src[..i])| + Need(src[i]) < size
  }

  lemma RoomBeforeTail(src: string, o: nat, size: nat, i: nat)
    requires 0 < i < |src|
    ensures RoomBefore(src, o, size, i) <==> RoomBefore(src[1..], o + |EscapeByte(src[0])|, size, i - 1)
  {
    assert src[..i][0] == src[0] && src[..i][1..] == src[1..][..i - 1];
  }

  lemma {:induction false} RoomForIsBeforeEach(src: string, o: nat, size: nat)
    ensures RoomFor(src, o, size) <==> forall i | 0 <= i < |src| :: RoomBefore(src, o, size, i)
  {
    if src != "" {
      var rest, o' := src[1..], o + |EscapeByte(src[0])|;
      RoomForIsBeforeEach(rest, o', size);
      assert src[..0] == "" && (RoomBefore(src, o, size, 0) <==> o + Need(src[0]) < size);
      forall i | 0 < i < |src| ensures RoomBefore(src, o, size, i) <==> RoomBefore(rest, o', size, i - 1) {
        RoomBeforeTail(src, o, size, i);
      }
      if forall i | 0 <= i < |src| :: RoomBefore(src, o, size, i) {
        forall i | 0 <= i < |rest| ensures RoomBefore(rest, o', size, i) { assert RoomBefore(src, o, size, i + 1); }
      }
    }
  }

  /** The whole source is kept exactly when there is room before each of its bytes. */
  lemma KeptWhole(src: string, o: nat, size: nat)
    ensures Kept(src, o, size) == src <==> forall i | 0 <= i < |src| :: RoomBefore(src, o, size, i)
  {
    KeptWithRoom(src, o, size);
    RoomForIsBeforeEach(src, o, size);
  }

  lemma EscapeOfPrefix(s: string, i: nat)
    requires i < |s|
    ensures |Escape(s[..i])| + |EscapeByte(s[i])| <= |Escape(s)|
  {
    assert s == s[..i] + ([s[i]] + s[i + 1..]);
    EscapeSplits(s[..i], [s[i]] + s[i + 1..]);
    assert ([s[i]] + s[i + 1..])[1..] == s[i + 1..];
  }

  lemma {:induction false} EscapeLength(s: string)
    requires forall c | c in s :: !IsOtherControl(c)
    ensures |Escape(s)| <= 2 * |s|
  {
    if s != "" { EscapeLength(s[1..]); }
  }

  /** Two bytes more than the escaped text are always enough. */
  lemma RoomEnough(src: string, size: nat)
    requires |Escape(src)| + 2 <= size
    ensures Kept(src, 0, size) == src
  {
    forall i | 0 <= i < |src| ensures RoomBefore(src, 0, size, i) { EscapeOfPrefix(src, i); }
    KeptWhole(src, 0, size);
  }

  /** A buffer twice the size of the field it escapes loses nothing of a field without other control bytes. */
  lemma DoubledBufferIsEnough(src: string, fieldSize: nat)
    requires |src| < fieldSize && forall c | c in src :: !IsOtherControl(c)
    ensures Kept(src, 0, 2 * fieldSize) == src
  {
    EscapeLength(src);
    RoomEnough(src, 2 * fieldSize);
  }

  // ---- UTF-8 on the client's side ----

  predicate InRange(s: string, i: nat, lo: int, hi: int) {
    i < |s| && lo <= s[i] as int <= hi
  }

  /** The length of the well-formed multi-byte sequence at the front (section 4 of RFC 3629), or 0. */
  function RuneLength(s: string): (k: nat)
    ensures k <= |s| && k <= 4 && k != 1
    ensures forall i | 0 <= i < k :: s[i] as int >= 0x80
  {
    if InRange(s, 0, 0xC2, 0xDF) && InRange(s, 1, 0x80, 0xBF) then 2
    else if InRange(s, 0, 0xE0, 0xE0) && InRange(s, 1, 0xA0, 0xBF) && InRange(s, 2, 0x80, 0xBF) then 3
    else if (InRange(s, 0, 0xE1, 0xEC) || InRange(s, 0, 0xEE, 0xEF))
            && InRange(s, 1, 0x80, 0xBF) && InRange(s, 2, 0x80, 0xBF) then 3
    else if InRange(s, 0, 0xED, 0xED) && InRange(s, 1, 0x80, 0x9F) && InRange(s, 2, 0x80, 0xBF) then 3
    else if && InRange(s, 0, 0xF0, 0xF0) && InRange(s, 1, 0x90, 0xBF)
            && InRange(s, 2, 0x80, 0xBF) && InRange(s, 3, 0x80, 0xBF) then 4
    else if && InRange(s, 0, 0xF1, 0xF3) && InRange(s, 1, 0x80, 0xBF)
            && InRange(s, 2, 0x80, 0xBF) && InRange(s, 3, 0x80, 0xBF) then 4
    else if && InRange(s, 0, 0xF4, 0xF4) && InRange(s, 1, 0x80, 0x8F)
            && InRange(s, 2, 0x80, 0xBF) && InRange(s, 3, 0x80, 0xBF) then 4
    else 0
  }

  function FirstLength(s: string): (k: nat)
    requires s != ""
    ensures k <= |s|
  {
    if s[0] as int < 0x80 then 1 else RuneLength(s)
  }

  predicate ValidUtf8(s: string) {
    s == "" || (FirstLength(s) != 0 && ValidUtf8(s[FirstLength(s)..]))
  }

  /** The client's decoder puts the replacement character for each byte that is not UTF-8. */
  function Repair(s: string): (r: string)
    ensures |r| >= |s|
  {
    if s == "" then ""
    else if FirstLength(s) == 0 then REPLACEMENT + Repair(s[1..])
    else s[..FirstLength(s)] + Repair(s[FirstLength(s)..])
  }

  /** Text comes through unchanged exactly when it is UTF-8. */
  lemma {:induction false} RepairIsIdentity(s: string)
    ensures Repair(s) == s <==> ValidUtf8(s)
    ensures !ValidUtf8(s) ==> |Repair(s)| > |s|
    decreases |s|
  {
    if s != "" {
      var k := FirstLength(s);
      if k != 0 {
        RepairIsIdentity(s[k..]);
        assert s == s[..k] + s[k..];
        assert Repair(s)[k..] == Repair(s[k..]);
      }
    }
  }

  lemma {:induction false} AsciiIsKept(s: string)
    requires forall i | 0 <= i < |s| :: s[i] as int < 0x80
    ensures Repair(s) == s
  {
    if s != "" {
      AsciiIsKept(s[1..]);
      assert s[..1] + s[1..] == s;
    }
  }
}
