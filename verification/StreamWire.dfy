/** Live write events on the wire: stream_write_cb (server.c) against the client's Next and Data (client.go). */
module StreamWire {
  import opened Words
  import Decimal
  import JsonString
  import opened JsonObject
  import opened Base64
  import opened EntryWire
  import opened ScanWire

  const STACKBUF := 1024

  // ---- The daemon's side ----

  function WriteFormat(tid: int32, ret: int64, captured: nat, isWritev: bool, b64: string): (ps: PrintedMembers)
    ensures ps != []
  {
    [("type", Text("write")), ("tid", Number(tid)), ("ret", Number(ret)), ("captured", Number(captured)),
     ("is_writev", Truth(isWritev)), ("data_b64", Text(b64))]
  }

  function WriteLine(tid: int32, ret: int64, data: seq<byte>, isWritev: bool): string {
    PrintObject(WriteFormat(tid, ret, |data|, isWritev, Encoded(data)))
  }

  /** stream_write_cb: nothing is sent only when a large buffer could not be allocated. */
  method StreamWrite(sock: Socket, tid: int32, ret: int64, data: seq<byte>, isWritev: bool, mallocOk: bool)
    returns (tried: bool, ghost sent: nat)
    modifies sock
    ensures tried <==> EncodedLen(|data|) <= STACKBUF || mallocOk
    ensures !tried ==> sock.wire == old(sock.wire)
    ensures tried ==> var line := Take(WriteLine(tid, ret, data, isWritev), SEND_LINEF_MAX - 1);
                      sent <= |line| + 1 && sock.wire == old(sock.wire) + (line + "\n")[..sent]
  {
    var need := EncodedLen(|data|);
    tried, sent := true, 0;
    if need > STACKBUF && !mallocOk { return false, 0; }
    var buf := new char[if need <= STACKBUF then STACKBUF else need];
    Encode(data, buf);
    ghost var text := Encoded(data);
    EncodedIsPlain(data);
    assert buf[..][|text|] == '\0';
    var b64 := CString(buf);
    SameCString(buf[..], b64, text);
    var _, k := sock.SendLinef(PrintObject(WriteFormat(tid, ret, |data|, isWritev, b64)));
    sent := k;
  }

  // ---- The client's side ----

  datatype WriteEvent = WriteEvent(tid: int, ret: int, captured: int, isWritev: bool, dataB64: string) {
    /** What could be decoded; errors are ignored. */
    function Data(): seq<byte> {
      var d := Decode(dataB64);
      if d.Some? then d.value else []
    }
  }

  function BoolField(ms: Members, key: string): Option<bool> {
    match Member(ms, key)
    case None => Some(false)
    case Some(Bool(b)) => Some(b)
    case Some(_) => None
  }

  function DecodeWrite(ms: Members): Option<WriteEvent> {
    var tid, ret, captured := Int64Field(ms, "tid"), Int64Field(ms, "ret"), Int64Field(ms, "captured");
    var isWritev, data := BoolField(ms, "is_writev"), TextField(ms, "data_b64");
    if tid.None? || ret.None? || captured.None? || isWritev.None? || data.None? then None
    else Some(WriteEvent(tid.value, ret.value, captured.value, isWritev.value, data.value))
  }

  /** What Next makes of a line. A line it cannot read counts as the end of the stream. */
  datatype Next = Event(w: WriteEvent) | StreamOver | StreamError | Ignored

  function NextOf(line: string): Next {
    var ms := ReadObject(TrimRight(line));
    if ms.None? then StreamOver else NextOfObject(ms.value)
  }

  function NextOfObject(ms: Members): Next {
    var env := DecodeEnvelope(ms);
    if env.None? then StreamOver
    else if env.value.kind == "write" then
      var w := DecodeWrite(ms);
      if w.None? then StreamError else Event(w.value)
    else if env.value.kind == "stream_end" then StreamOver
    else if env.value.kind == "error" then StreamError
    else Ignored
  }

  // ---- What arrives ----

  function WriteValues(tid: int32, ret: int64, captured: nat, isWritev: bool, b64: string): Members {
    [("type", Str("write")), ("tid", Num(tid)), ("ret", Num(ret)), ("captured", Num(captured)),
     ("is_writev", Bool(isWritev)), ("data_b64", Str(b64))]
  }

  lemma WriteKeysArePlain()
    ensures PlainText("type") && PlainText("tid") && PlainText("ret") && PlainText("captured")
    ensures PlainText("is_writev") && PlainText("data_b64")
  {
  }

  lemma WriteIsItself()
    ensures JsonString.Escape("write") == "write"
  {
    PlainTextIsItself("write");
  }

  lemma {:induction false} WritePrints(tid: int32, ret: int64, captured: nat, isWritev: bool, b64: string)
    requires JsonString.Escape(b64) == b64 && JsonString.Escape("write") == "write"
    ensures PrintsAll(WriteFormat(tid, ret, captured, isWritev, b64), WriteValues(tid, ret, captured, isWritev, b64))
  {
    WriteKeysArePlain();
  }

  lemma WriteMembers(tid: int32, ret: int64, captured: nat, isWritev: bool, b64: string)
    ensures var ms := WriteValues(tid, ret, captured, isWritev, b64);
            && Member(ms, "type") == Some(Str("write")) && Member(ms, "tid") == Some(Num(tid))
            && Member(ms, "ret") == Some(Num(ret)) && Member(ms, "captured") == Some(Num(captured))
            && Member(ms, "is_writev") == Some(Bool(isWritev)) && Member(ms, "data_b64") == Some(Str(b64))
            && Member(ms, "message") == None && Member(ms, "count") == None && Member(ms, "total_bytes") == None
  {
    var ms := WriteValues(tid, ret, captured, isWritev, b64);
    MemberAt(ms, 0);
    MemberAt(ms, 1);
    MemberAt(ms, 2);
    MemberAt(ms, 3);
    MemberAt(ms, 4);
    MemberAt(ms, 5);
    NoMember(ms, "message");
    NoMember(ms, "count");
    NoMember(ms, "total_bytes");
  }

  lemma WriteEnvelope(tid: int32, ret: int64, captured: nat, isWritev: bool, b64: string)
    ensures var env := DecodeEnvelope(WriteValues(tid, ret, captured, isWritev, b64));
            env.Some? && env.value.kind == "write"
  {
    WriteMembers(tid, ret, captured, isWritev, b64);
    JsonString.AsciiIsKept("write");
  }

  lemma WriteEventBack(tid: int32, ret: int64, captured: nat, isWritev: bool, b64: string)
    requires InInt64(captured) && JsonString.Repair(b64) == b64
    ensures DecodeWrite(WriteValues(tid, ret, captured, isWritev, b64))
         == Some(WriteEvent(tid, ret, captured, isWritev, b64))
  {
    WriteMembers(tid, ret, captured, isWritev, b64);
  }

  lemma NextOfWrite(line: string, ms: Members, w: WriteEvent)
    requires NoControls(line) && ReadObject(line) == Some(ms)
    requires DecodeEnvelope(ms).Some? && DecodeEnvelope(ms).value.kind == "write" && DecodeWrite(ms) == Some(w)
    ensures NextOf(line) == Event(w)
  {
    NothingToTrim(line);
  }

  lemma {:induction false} EncodedIsAscii(data: seq<byte>)
    ensures forall i | 0 <= i < |Encoded(data)| :: Encoded(data)[i] as int < 0x80
  {
    if |data| > 2 { EncodedIsAscii(data[3..]); }
  }

  lemma WriteLineReads(tid: int32, ret: int64, data: seq<byte>, isWritev: bool)
    ensures var line := WriteLine(tid, ret, data, isWritev);
            NoControls(line) && ReadObject(line) == Some(WriteValues(tid, ret, |data|, isWritev, Encoded(data)))
  {
    var b64 := Encoded(data);
    EncodedIsPlain(data);
    PlainTextIsItself(b64);
    WriteIsItself();
    WritePrints(tid, ret, |data|, isWritev, b64);
    PrintedHasNoControls(WriteFormat(tid, ret, |data|, isWritev, b64), WriteValues(tid, ret, |data|, isWritev, b64));
    ReadObjectBack(WriteFormat(tid, ret, |data|, isWritev, b64), WriteValues(tid, ret, |data|, isWritev, b64));
  }

  lemma WholeWriteArrives(tid: int32, ret: int64, data: seq<byte>, isWritev: bool)
    requires InInt64(|data|)
    ensures NextOf(WriteLine(tid, ret, data, isWritev))
         == Event(WriteEvent(tid, ret, |data|, isWritev, Encoded(data)))
  {
    var b64 := Encoded(data);
    WriteLineReads(tid, ret, data, isWritev);
    EncodedIsAscii(data);
    JsonString.AsciiIsKept(b64);
    WriteEnvelope(tid, ret, |data|, isWritev, b64);
    WriteEventBack(tid, ret, |data|, isWritev, b64);
    NextOfWrite(WriteLine(tid, ret, data, isWritev), WriteValues(tid, ret, |data|, isWritev, b64),
                WriteEvent(tid, ret, |data|, isWritev, b64));
  }

  lemma CutWriteEndsStream(tid: int32, ret: int64, data: seq<byte>, isWritev: bool, k: nat)
    requires k < |WriteLine(tid, ret, data, isWritev)|
    ensures NextOf(WriteLine(tid, ret, data, isWritev)[..k]) == StreamOver
  {
    var line := WriteLine(tid, ret, data, isWritev);
    WriteLineReads(tid, ret, data, isWritev);
    NothingToTrim(line[..k]);
    CutObjectIsRejected(line, k);
  }

  /** The client gets the captured bytes exactly when the line fits hsed_send_linef's buffer; a longer one is cut,
      and the client takes the cut line for the end of the stream. */
  lemma WriteEventArrives(tid: int32, ret: int64, data: seq<byte>, isWritev: bool)
    requires InInt64(|data|)
    ensures var line := WriteLine(tid, ret, data, isWritev);
            var next := NextOf(Take(line, SEND_LINEF_MAX - 1));
            if |line| < SEND_LINEF_MAX
            then next == Event(WriteEvent(tid, ret, |data|, isWritev, Encoded(data))) && next.w.Data() == data
            else next == StreamOver
  {
    var line := WriteLine(tid, ret, data, isWritev);
    if |line| < SEND_LINEF_MAX {
      WholeWriteArrives(tid, ret, data, isWritev);
      DecodeEncoded(data);
    } else {
      CutWriteEndsStream(tid, ret, data, isWritev, SEND_LINEF_MAX - 1);
    }
  }

  lemma MembersLength(ps: PrintedMembers)
    requires |ps| > 1
    ensures |PrintMembers(ps)| == |PrintMember(ps[0])| + 1 + |PrintMembers(ps[1..])|
  {
  }

  lemma WriteMemberLengths(tid: int32, ret: int64, captured: nat, isWritev: bool, b64: string)
    requires captured < 10000
    ensures var ps := WriteFormat(tid, ret, captured, isWritev, b64);
            && |PrintMember(ps[0])| == 14 && |PrintMember(ps[1])| <= 17 && |PrintMember(ps[2])| <= 26
            && |PrintMember(ps[3])| <= 15 && |PrintMember(ps[4])| <= 17 && |PrintMember(ps[5])| == 13 + |b64|
  {
    Decimal.DecLengths(tid);
    Decimal.DecLengths(ret);
    Decimal.DecLengths(captured);
  }

  /** 109 bytes of frame at most, for captures whose length has four digits at most. */
  lemma WriteLineLength(tid: int32, ret: int64, data: seq<byte>, isWritev: bool)
    requires |data| < 10000
    ensures |WriteLine(tid, ret, data, isWritev)| <= 109 + |Encoded(data)|
  {
    var ps := WriteFormat(tid, ret, |data|, isWritev, Encoded(data));
    MembersLength(ps);
    MembersLength(ps[1..]);
    MembersLength(ps[2..]);
    MembersLength(ps[3..]);
    MembersLength(ps[4..]);
    assert ps[1..][1..] == ps[2..] && ps[2..][1..] == ps[3..] && ps[3..][1..] == ps[4..] && ps[4..][1..] == ps[5..];
    WriteMemberLengths(tid, ret, |data|, isWritev, Encoded(data));
    assert ps[5..] == [ps[5]];
  }

  /** Captures of up to 1440 bytes always arrive. */
  lemma SmallCapturesArrive(tid: int32, ret: int64, data: seq<byte>, isWritev: bool)
    requires |data| <= 1440
    ensures var next := NextOf(Take(WriteLine(tid, ret, data, isWritev), SEND_LINEF_MAX - 1));
            && next.Event? && next.w.Data() == data
            && next.w.tid == tid && next.w.ret == ret && next.w.isWritev == isWritev
  {
    WriteLineLength(tid, ret, data, isWritev);
    WriteEventArrives(tid, ret, data, isWritev);
  }
}
