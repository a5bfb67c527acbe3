/** One entry on the wire: hsed_format_entry (protocol.c) against the client's decoding of the line (client.go). */
module EntryWire {
  import opened Words
  import opened ProcScan
  import opened JsonString
  import opened JsonObject
  import TextReturn

  const HSED_CMDLINE_MAX := 1024

  // ---- C strings in buffers ----

  /** The text in front of the first NUL. */
  method CString(buf: array<char>) returns (s: string)
    requires '\0' in buf[..]
    ensures |s| < buf.Length && s == buf[..|s|] && buf[|s|] == '\0' && '\0' !in s
  {
    var k := 0;
    while buf[k] != '\0'
      invariant 0 <= k < buf.Length && '\0' !in buf[..k] && '\0' in buf[k..]
      decreases buf.Length - k
    {
      assert buf[k..] == [buf[k]] + buf[k + 1..];
      k := k + 1;
    }
    s := buf[..k];
  }

  /** snprintf of a finished text: all of it or what fits, and a NUL. */
  method Snprintf(out: array<char>, text: string)
    modifies out
    ensures out.Length > 0 ==>
              var t := Take(text, out.Length - 1); out[..|t|] == t && out[|t|] == '\0'
  {
    if out.Length == 0 { return; }
    var t := Take(text, out.Length - 1);
    forall j | 0 <= j < |t| { out[j] := t[j]; }
    out[|t|] := '\0';
    assert out[..|t|] == t;
  }

  /** Escapes a field into a buffer twice its size and reads the buffer back as a C string. */
  method EscapeField(field: string, fieldSize: nat) returns (text: string)
    requires IsCString(field) && fieldSize > 0
    ensures text == EscapedField(field, fieldSize)
  {
    var buf := new char[2 * fieldSize];
    JsonEscape(buf, field);
    ghost var expected := EscapedField(field, fieldSize);
    EscapedHasNoControls(Kept(field, 0, 2 * fieldSize));
    assert buf[..][|expected|] == '\0';
    text := CString(buf);
    SameCString(buf[..], text, expected);
  }

  lemma SameCString(buf: string, a: string, b: string)
    requires a <= buf && |a| < |buf| && buf[|a|] == '\0' && '\0' !in a
    requires b <= buf && |b| < |buf| && buf[|b|] == '\0' && '\0' !in b
    ensures a == b
  {
    assert forall i | 0 <= i < |a| :: a[i] != '\0';
    assert forall i | 0 <= i < |b| :: b[i] != '\0';
  }

  // ---- The line ----

  function EscapedField(field: string, fieldSize: nat): string {
    Escape(Kept(field, 0, 2 * fieldSize))
  }

  function FormatHead(e: Entry, user: string): PrintedMembers {
    [("type", Text("entry")), ("pid", Number(e.pid)), ("fd", Number(e.fd)), ("mode", Text(e.mode)),
     ("size", Number(e.size)), ("uid", Number(e.uid)), ("user", Text(user))]
  }

  function FormatTail(e: Entry, comm: string, cmdline: string, path: string): PrintedMembers {
    [("comm", Text(comm)), ("cmdline", Text(cmdline)), ("path", Text(path)), ("inode", Number(e.inode)),
     ("dev_major", Number(e.devMajor)), ("dev_minor", Number(e.devMinor)), ("mtime", Number(e.mtime))]
  }

  /** The printf format of an entry, member by member, with its texts escaped. */
  function EntryFormat(e: Entry, user: string, comm: string, cmdline: string, path: string): (ps: PrintedMembers)
    ensures ps != []
  {
    FormatHead(e, user) + FormatTail(e, comm, cmdline, path)
  }

  function EntryLine(e: Entry): string {
    PrintObject(EntryFormat(e, EscapedField(e.user, HSED_NAME_MAX), EscapedField(e.comm, HSED_NAME_MAX),
                            EscapedField(e.cmdline, HSED_CMDLINE_MAX), EscapedField(e.path, HSED_PATH_MAX)))
  }

  /** What the C struct guarantees: NUL-terminated fields within their arrays, and one of the modes of fd_mode. */
  predicate InStruct(e: Entry) {
    && IsCString(e.user) && |e.user| < HSED_NAME_MAX
    && IsCString(e.comm) && |e.comm| < HSED_NAME_MAX
    && IsCString(e.cmdline) && |e.cmdline| < HSED_CMDLINE_MAX
    && IsCString(e.path) && |e.path| < HSED_PATH_MAX
    && e.mode in ["?", "r", "w", "rw"]
  }

  method FormatEntry(e: Entry, out: array<char>)
    requires InStruct(e)
    modifies out
    ensures out.Length > 0 ==>
              var t := Take(EntryLine(e), out.Length - 1); out[..|t|] == t && out[|t|] == '\0'
  {
    var user := EscapeField(e.user, HSED_NAME_MAX);
    var comm := EscapeField(e.comm, HSED_NAME_MAX);
    var cmdline := EscapeField(e.cmdline, HSED_CMDLINE_MAX);
    var path := EscapeField(e.path, HSED_PATH_MAX);
    Snprintf(out, PrintObject(EntryFormat(e, user, comm, cmdline, path)));
  }

  // ---- The client's structures ----

  const INT64_MIN := -0x8000_0000_0000_0000
  const INT64_MAX := 0x7FFF_FFFF_FFFF_FFFF
  const UINT64_MAX := 0xFFFF_FFFF_FFFF_FFFF

  datatype HiddenEntry = HiddenEntry(pid: int, fd: int, mode: string, size: int, uid: int, user: string, comm: string,
                                     cmdline: string, path: string, inode: int, devMajor: int, devMinor: int,
                                     mtime: int)

  /** The value of a key; the last one counts when it is repeated. */
  function Member(ms: Members, key: string): Option<Value> {
    if ms == [] then None
    else if ms[|ms| - 1].0 == key then Some(ms[|ms| - 1].1)
    else Member(ms[..|ms| - 1], key)
  }

  /** A missing number is 0; one of the wrong type or out of range is an error. */
  function IntField(ms: Members, key: string, lo: int, hi: int): Option<int> {
    match Member(ms, key)
    case None => Some(0)
    case Some(Num(n)) => if lo <= n <= hi then Some(n) else None
    case Some(_) => None
  }

  function TextField(ms: Members, key: string): Option<string> {
    match Member(ms, key)
    case None => Some("")
    case Some(Str(bytes)) => Some(Repair(bytes))
    case Some(_) => None
  }

  function Int64Field(ms: Members, key: string): Option<int> {
    IntField(ms, key, INT64_MIN, INT64_MAX)
  }

  function DecodeEntry(ms: Members): Option<HiddenEntry> {
    var pid, fd, mode := Int64Field(ms, "pid"), Int64Field(ms, "fd"), TextField(ms, "mode");
    var size, uid, user := Int64Field(ms, "size"), Int64Field(ms, "uid"), TextField(ms, "user");
    var comm, cmdline, path := TextField(ms, "comm"), TextField(ms, "cmdline"), TextField(ms, "path");
    var inode, devMajor := IntField(ms, "inode", 0, UINT64_MAX), Int64Field(ms, "dev_major");
    var devMinor, mtime := Int64Field(ms, "dev_minor"), Int64Field(ms, "mtime");
    if pid.None? || fd.None? || mode.None? || size.None? || uid.None? || user.None? || comm.None? || cmdline.None?
       || path.None? || inode.None? || devMajor.None? || devMinor.None? || mtime.None?
    then None
    else Some(HiddenEntry(pid.value, fd.value, mode.value, size.value, uid.value, user.value, comm.value,
                          cmdline.value, path.value, inode.value, devMajor.value, devMinor.value, mtime.value))
  }

  function DecodeEntryLine(line: string): Option<HiddenEntry> {
    var ms := ReadObject(line);
    if ms.None? then None else DecodeEntry(ms.value)
  }

  /** The same entry in the client's types, with its texts as given. */
  function OnWire(e: Entry, user: string, comm: string, cmdline: string, path: string): HiddenEntry {
    HiddenEntry(e.pid, e.fd, e.mode, e.size, e.uid, user, comm, cmdline, path, e.inode, e.devMajor, e.devMinor, e.mtime)
  }

  function AsSeen(e: Entry): HiddenEntry {
    OnWire(e, e.user, e.comm, e.cmdline, e.path)
  }

  // ---- Round trip ----

  function ValuesHead(e: Entry, user: string): Members {
    [("type", Str("entry")), ("pid", Num(e.pid)), ("fd", Num(e.fd)), ("mode", Str(e.mode)),
     ("size", Num(e.size)), ("uid", Num(e.uid)), ("user", Str(user))]
  }

  function ValuesTail(e: Entry, comm: string, cmdline: string, path: string): Members {
    [("comm", Str(comm)), ("cmdline", Str(cmdline)), ("path", Str(path)), ("inode", Num(e.inode)),
     ("dev_major", Num(e.devMajor)), ("dev_minor", Num(e.devMinor)), ("mtime", Num(e.mtime))]
  }

  function EntryValues(e: Entry, user: string, comm: string, cmdline: string, path: string): Members {
    ValuesHead(e, user) + ValuesTail(e, comm, cmdline, path)
  }

  lemma ModeIsPlain(mode: string)
    requires mode in ["?", "r", "w", "rw"]
    ensures Escape(mode) == mode && Repair(mode) == mode
  {
    PlainTextIsItself(mode);
    AsciiIsKept(mode);
  }

  lemma KeysArePlain()
    ensures PlainText("type") && PlainText("pid") && PlainText("fd") && PlainText("mode") && PlainText("size")
    ensures PlainText("uid") && PlainText("user") && PlainText("comm") && PlainText("cmdline") && PlainText("path")
    ensures PlainText("inode") && PlainText("dev_major") && PlainText("dev_minor") && PlainText("mtime")
  {
  }

  lemma EntryIsPlain()
    ensures Escape("entry") == "entry"
  {
    PlainTextIsItself("entry");
  }

  lemma {:induction false} HeadPrints(e: Entry, user: string)
    requires Escape(e.mode) == e.mode && Escape("entry") == "entry"
    ensures PrintsAll(FormatHead(e, Escape(user)), ValuesHead(e, user))
  {
    KeysArePlain();
  }

  lemma TailPrints(e: Entry, comm: string, cmdline: string, path: string)
    ensures PrintsAll(FormatTail(e, Escape(comm), Escape(cmdline), Escape(path)), ValuesTail(e, comm, cmdline, path))
  {
    KeysArePlain();
  }

  lemma FormatPrintsValues(e: Entry, user: string, comm: string, cmdline: string, path: string)
    requires InStruct(e)
    ensures PrintsAll(EntryFormat(e, Escape(user), Escape(comm), Escape(cmdline), Escape(path)),
                      EntryValues(e, user, comm, cmdline, path))
  {
    ModeIsPlain(e.mode);
    EntryIsPlain();
    HeadPrints(e, user);
    TailPrints(e, comm, cmdline, path);
    PrintsAllSplits(FormatHead(e, Escape(user)), FormatTail(e, Escape(comm), Escape(cmdline), Escape(path)),
                    ValuesHead(e, user), ValuesTail(e, comm, cmdline, path));
  }

  lemma EntryLineReads(e: Entry)
    requires InStruct(e)
    ensures ReadObject(EntryLine(e))
         == Some(EntryValues(e, Kept(e.user, 0, 2 * HSED_NAME_MAX), Kept(e.comm, 0, 2 * HSED_NAME_MAX),
                             Kept(e.cmdline, 0, 2 * HSED_CMDLINE_MAX), Kept(e.path, 0, 2 * HSED_PATH_MAX)))
  {
    var user, comm := Kept(e.user, 0, 2 * HSED_NAME_MAX), Kept(e.comm, 0, 2 * HSED_NAME_MAX);
    var cmdline, path := Kept(e.cmdline, 0, 2 * HSED_CMDLINE_MAX), Kept(e.path, 0, 2 * HSED_PATH_MAX);
    FormatPrintsValues(e, user, comm, cmdline, path);
    ReadObjectBack(EntryFormat(e, Escape(user), Escape(comm), Escape(cmdline), Escape(path)),
                   EntryValues(e, user, comm, cmdline, path));
  }

  lemma {:induction false} MemberSplits(a: Members, b: Members, key: string)
    ensures Member(a + b, key) == if Member(b, key).Some? then Member(b, key) else Member(a, key)
  {
    if b == [] {
      assert a + b == a;
    } else {
      assert (a + b)[..|a + b| - 1] == a + b[..|b| - 1];
      MemberSplits(a, b[..|b| - 1], key);
    }
  }

  /** The value of a key that is at `i` and nowhere after it. */
  lemma {:induction false} MemberAt(ms: Members, i: nat)
    requires i < |ms|
    requires forall j | i < j < |ms| :: ms[j].0 != ms[i].0
    ensures Member(ms, ms[i].0) == Some(ms[i].1)
  {
    if i < |ms| - 1 { MemberAt(ms[..|ms| - 1], i); }
  }

  lemma {:induction false} NoMember(ms: Members, key: string)
    requires forall i | 0 <= i < |ms| :: ms[i].0 != key
    ensures Member(ms, key) == None
  {
    if ms != [] { NoMember(ms[..|ms| - 1], key); }
  }

  lemma HeadMembers(e: Entry, user: string, comm: string, cmdline: string, path: string)
    ensures var ms := EntryValues(e, user, comm, cmdline, path);
            forall i: nat | i < 7 :: Member(ms, ValuesHead(e, user)[i].0) == Some(ValuesHead(e, user)[i].1)
  {
    var a, b := ValuesHead(e, user), ValuesTail(e, comm, cmdline, path);
    forall i: nat | i < 7 ensures Member(a + b, a[i].0) == Some(a[i].1) {
      MemberAt(a, i);
      NoMember(b, a[i].0);
      MemberSplits(a, b, a[i].0);
    }
  }

  lemma TailMembers(e: Entry, user: string, comm: string, cmdline: string, path: string)
    ensures var ms, tail := EntryValues(e, user, comm, cmdline, path), ValuesTail(e, comm, cmdline, path);
            forall i: nat | i < 7 :: Member(ms, tail[i].0) == Some(tail[i].1)
  {
    var a, b := ValuesHead(e, user), ValuesTail(e, comm, cmdline, path);
    forall i: nat | i < 7 ensures Member(a + b, b[i].0) == Some(b[i].1) {
      MemberAt(b, i);
      MemberSplits(a, b, b[i].0);
    }
  }

  lemma EachMember(e: Entry, user: string, comm: string, cmdline: string, path: string)
    ensures var ms := EntryValues(e, user, comm, cmdline, path);
            && Member(ms, "type") == Some(Str("entry")) && Member(ms, "pid") == Some(Num(e.pid))
            && Member(ms, "fd") == Some(Num(e.fd)) && Member(ms, "mode") == Some(Str(e.mode))
            && Member(ms, "size") == Some(Num(e.size)) && Member(ms, "uid") == Some(Num(e.uid))
            && Member(ms, "user") == Some(Str(user)) && Member(ms, "comm") == Some(Str(comm))
            && Member(ms, "cmdline") == Some(Str(cmdline)) && Member(ms, "path") == Some(Str(path))
            && Member(ms, "inode") == Some(Num(e.inode)) && Member(ms, "dev_major") == Some(Num(e.devMajor))
            && Member(ms, "dev_minor") == Some(Num(e.devMinor)) && Member(ms, "mtime") == Some(Num(e.mtime))
  {
    HeadMembers(e, user, comm, cmdline, path);
    TailMembers(e, user, comm, cmdline, path);
    var a, b := ValuesHead(e, user), ValuesTail(e, comm, cmdline, path);
    assert a[0].0 == "type" && a[1].0 == "pid" && a[2].0 == "fd" && a[3].0 == "mode";
    assert a[4].0 == "size" && a[5].0 == "uid" && a[6].0 == "user";
    assert b[0].0 == "comm" && b[1].0 == "cmdline" && b[2].0 == "path" && b[3].0 == "inode";
    assert b[4].0 == "dev_major" && b[5].0 == "dev_minor" && b[6].0 == "mtime";
  }

  lemma DecodeEntryValues(e: Entry, user: string, comm: string, cmdline: string, path: string)
    requires InStruct(e)
    ensures DecodeEntry(EntryValues(e, user, comm, cmdline, path))
         == Some(OnWire(e, Repair(user), Repair(comm), Repair(cmdline), Repair(path)))
  {
    ModeIsPlain(e.mode);
    EachMember(e, user, comm, cmdline, path);
  }

  /** What the client has of a text: what its buffer kept, with the bytes that are not UTF-8 replaced. */
  function Received(text: string, fieldSize: nat): string {
    Repair(Kept(text, 0, 2 * fieldSize))
  }

  /** The entry as the client has it. */
  function AsReceived(e: Entry): HiddenEntry {
    OnWire(e, Received(e.user, HSED_NAME_MAX), Received(e.comm, HSED_NAME_MAX),
           Received(e.cmdline, HSED_CMDLINE_MAX), Received(e.path, HSED_PATH_MAX))
  }

  /** UTF-8 that the doubled buffer has room for, or for all but the rest of a last replacement character or two. */
  predicate ComesBack(text: string, fieldSize: nat) {
    ValidUtf8(text) && TextReturn.EnoughRoom(text, 2 * fieldSize)
  }

  predicate AllComeBack(e: Entry) {
    && ComesBack(e.user, HSED_NAME_MAX) && ComesBack(e.comm, HSED_NAME_MAX)
    && ComesBack(e.cmdline, HSED_CMDLINE_MAX) && ComesBack(e.path, HSED_PATH_MAX)
  }

  /** Whatever its texts are, the client decodes the entry's line; the entry is the daemon's exactly when its texts come
      back. */
  lemma EntryRoundTrip(e: Entry)
    requires InStruct(e)
    ensures DecodeEntryLine(EntryLine(e)) == Some(AsReceived(e))
    ensures AsReceived(e) == AsSeen(e) <==> AllComeBack(e)
  {
    EntryLineReads(e);
    DecodeEntryValues(e, Kept(e.user, 0, 2 * HSED_NAME_MAX), Kept(e.comm, 0, 2 * HSED_NAME_MAX),
                      Kept(e.cmdline, 0, 2 * HSED_CMDLINE_MAX), Kept(e.path, 0, 2 * HSED_PATH_MAX));
    TextReturn.TextComesBack(e.user, 2 * HSED_NAME_MAX);
    TextReturn.TextComesBack(e.comm, 2 * HSED_NAME_MAX);
    TextReturn.TextComesBack(e.cmdline, 2 * HSED_CMDLINE_MAX);
    TextReturn.TextComesBack(e.path, 2 * HSED_PATH_MAX);
  }

  /** Without control bytes other than newline, carriage return and tab, a text of its field's size comes back exactly
      when it is UTF-8. */
  lemma PlainTextComesBack(text: string, fieldSize: nat)
    requires |text| < fieldSize && forall c | c in text :: !IsOtherControl(c)
    ensures ComesBack(text, fieldSize) <==> ValidUtf8(text)
  {
    DoubledBufferIsEnough(text, fieldSize);
    TextReturn.RoomMeansKept(text, 2 * fieldSize);
  }

  /** Whatever the fields hold, the line is one line and a C string. */
  lemma EntryLineHasNoControls(e: Entry)
    requires InStruct(e)
    ensures NoControls(EntryLine(e))
  {
    var user, comm := Kept(e.user, 0, 2 * HSED_NAME_MAX), Kept(e.comm, 0, 2 * HSED_NAME_MAX);
    var cmdline, path := Kept(e.cmdline, 0, 2 * HSED_CMDLINE_MAX), Kept(e.path, 0, 2 * HSED_PATH_MAX);
    FormatPrintsValues(e, user, comm, cmdline, path);
    PrintedHasNoControls(EntryFormat(e, Escape(user), Escape(comm), Escape(cmdline), Escape(path)),
                         EntryValues(e, user, comm, cmdline, path));
  }
}
