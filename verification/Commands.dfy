/** The command line: what the client prints (client.go) against recv_line, the tokeniser and the dispatch of the
    daemon (server.c). */
module Commands {
  import opened Words
  import opened Decimal
  import JsonObject
  import opened ProcScan
  import ScanWire

  const LINE_SIZE := 512

  // ---- Receiving a line ----

  /** The daemon's end of a connection: the bytes still to be received before the peer closes. */
  class Inbox {
    var pending: string

    constructor (stream: string)
      ensures pending == stream
    {
      pending := stream;
    }

    /** recv of one byte; None when the peer has closed. */
    method Recv() returns (c: Option<char>)
      modifies this
      ensures old(pending) == "" ==> c == None && pending == ""
      ensures old(pending) != "" ==> c == Some(old(pending)[0]) && pending == old(pending)[1..]
    {
      if pending == "" { return None; }
      c, pending := Some(pending[0]), pending[1..];
    }

    /** recv_line: consumes exactly one line and its newline and keeps its first bytes; without a newline it consumes
        everything and fails. */
    method RecvLine(buf: array<char>) returns (n: Option<nat>)
      requires buf.Length > 0
      modifies this, buf
      ensures n.Some? <==> '\n' in old(pending)
      ensures n.Some? ==> var line := ScanWire.FirstLine(old(pending));
                          var kept := Take(line, buf.Length - 1);
                          pending == old(pending)[|line| + 1..] && n.value == |kept| &&
                          buf[..n.value] == kept && buf[n.value] == '\0'
      ensures n.None? ==> pending == ""
    {
      ghost var all := pending;
      ghost var seen: nat := 0;
      var i: nat := 0;
      while true
        invariant seen <= |all| && pending == all[seen..] && JsonObject.OneLine(all[..seen])
        invariant i == |Take(all[..seen], buf.Length - 1)| && buf[..i] == Take(all[..seen], buf.Length - 1)
        decreases |pending|
      {
        var c := Recv();
        if c.None? {
          assert all[..seen] == all;
          return None;
        }
        if c.value == '\n' {
          buf[i] := '\0';
          assert all == all[..seen] + "\n" + all[seen + 1..];
          ScanWire.FirstLineOf(all[..seen], all[seen + 1..]);
          return Some(i);
        }
        assert all[..seen + 1] == all[..seen] + [c.value];
        if i + 1 < buf.Length {
          buf[i] := c.value;
          i := i + 1;
        }
        seen := seen + 1;
      }
    }
  }

  // ---- Tokens ----

  predicate IsDelimiter(c: char) {
    c == ' ' || c == '\t' || c == '\r' || c == '\n'
  }

  function SkipDelimiters(s: string): (r: string)
    ensures |r| <= |s| && (r != "" ==> !IsDelimiter(r[0]))
  {
    if s != "" && IsDelimiter(s[0]) then SkipDelimiters(s[1..]) else s
  }

  function TokenLength(s: string): (n: nat)
    ensures n <= |s|
    ensures s != "" && !IsDelimiter(s[0]) ==> n > 0
  {
    if s == "" || IsDelimiter(s[0]) then 0 else 1 + TokenLength(s[1..])
  }

  /** What repeated calls of strtok_r give. */
  function Tokens(s: string): seq<string>
    decreases |s|
  {
    var t := SkipDelimiters(s);
    if t == "" then [] else [t[..TokenLength(t)]] + Tokens(t[TokenLength(t)..])
  }

  /** One call of strtok_r, with the text it has saved for the next. */
  method NextToken(save: string) returns (token: Option<string>, save': string)
    ensures token.None? <==> Tokens(save) == []
    ensures token.None? ==> save' == ""
    ensures token.Some? ==> Tokens(save) == [token.value] + Tokens(save')
  {
    var t := save;
    while t != "" && IsDelimiter(t[0])
      invariant SkipDelimiters(t) == SkipDelimiters(save)
      decreases |t|
    {
      t := t[1..];
    }
    if t == "" { return None, ""; }
    var n := 0;
    while n < |t| && !IsDelimiter(t[n])
      invariant 0 <= n <= |t| && TokenLength(t) == n + TokenLength(t[n..])
    {
      n := n + 1;
    }
    return Some(t[..n]), t[n..];
  }

  // ---- Numbers ----

  /** isspace on what a token can hold of it: the other blanks delimit tokens. */
  predicate IsSpace(c: char) {
    IsDelimiter(c) || c as int == 11 || c as int == 12
  }

  /** strtol without its range: blanks, an optional sign and the digits that follow. */
  function SignedPrefix(s: string): int {
    if s != "" && IsSpace(s[0]) then SignedPrefix(s[1..])
    else if s != "" && (s[0] == '-' || s[0] == '+') then
      var v: int := DecimalValue(s[1..][..DigitRun(s[1..])]);
      if s[0] == '-' then -v else v
    else DecimalValue(s[..DigitRun(s)])
  }

  function Atoll(s: string): int64 {
    var v := SignedPrefix(s);
    if v < -0x8000_0000_0000_0000 then -0x8000_0000_0000_0000
    else if v > 0x7FFF_FFFF_FFFF_FFFF then 0x7FFF_FFFF_FFFF_FFFF
    else v
  }

  /** strtoul: out of range gives the maximum, a minus sign negates in unsigned arithmetic. */
  function Strtoul(s: string): uint64 {
    var v := SignedPrefix(s);
    if v > 0xFFFF_FFFF_FFFF_FFFF || v < -0xFFFF_FFFF_FFFF_FFFF then 0xFFFF_FFFF_FFFF_FFFF
    else v % 0x1_0000_0000_0000_0000
  }

  // ---- Dispatch ----

  datatype Request =
    | Blank
    | Ping
    | Quit
    | Scan(minSize: int64, onlyPid: int32, uid: uint32)
    | Stats(minSize: int64, uid: uint32)
    | Truncate(pid: int32, fd: int32)
    | Hup(pid: int32)
    | Kill(pid: int32)
    | Stream(pid: int32, fd: int32)
    | Usage
    | Unknown

  function Lower(c: char): char {
    if 'A' <= c <= 'Z' then (c as int + 32) as char else c
  }

  /** strcasecmp. */
  predicate SameWord(a: string, b: string) {
    |a| == |b| && forall i | 0 <= i < |a| :: Lower(a[i]) == Lower(b[i])
  }

  function MinSizeArg(ts: seq<string>, i: nat): int64 {
    if i < |ts| then Atoll(ts[i]) else 0
  }

  function PidArg(ts: seq<string>, i: nat): int32 {
    if i < |ts| then ToInt32(Atoll(ts[i])) else 0
  }

  function UidArg(ts: seq<string>, i: nat): uint32 {
    if i < |ts| then Strtoul(ts[i]) % 0x1_0000_0000 else UID_ANY
  }

  function RequestOf(ts: seq<string>): Request {
    if ts == [] then Blank
    else if SameWord(ts[0], "PING") then Ping
    else if SameWord(ts[0], "QUIT") then Quit
    else if SameWord(ts[0], "SCAN") then Scan(MinSizeArg(ts, 1), PidArg(ts, 2), UidArg(ts, 3))
    else if SameWord(ts[0], "STATS") then Request.Stats(MinSizeArg(ts, 1), UidArg(ts, 2))
    else if SameWord(ts[0], "TRUNCATE") then if |ts| < 3 then Usage else Truncate(PidArg(ts, 1), PidArg(ts, 2))
    else if SameWord(ts[0], "HUP") then if |ts| < 2 then Usage else Hup(PidArg(ts, 1))
    else if SameWord(ts[0], "KILL") then if |ts| < 2 then Usage else Kill(PidArg(ts, 1))
    else if SameWord(ts[0], "STREAM") then if |ts| < 3 then Usage else Stream(PidArg(ts, 1), PidArg(ts, 2))
    else Unknown
  }

  /** The C string a received line amounts to: up to its first NUL. */
  function UpToNul(s: string): (r: string)
    ensures '\0' !in s ==> r == s
  {
    if s == "" || s[0] == '\0' then "" else [s[0]] + UpToNul(s[1..])
  }

  function RequestOnLine(line: string): Request {
    RequestOf(Tokens(UpToNul(Take(line, LINE_SIZE - 1))))
  }

  /** Up to four tokens, as many as the dispatch asks for. */
  method FirstTokens(line: string) returns (ts: seq<string>)
    ensures ts == Take(Tokens(line), 4)
  {
    ts := [];
    var save := line;
    ghost var all := Tokens(line);
    while |ts| < 4
      invariant |ts| <= 4 && all == ts + Tokens(save)
      decreases 4 - |ts|
    {
      ghost var left := save;
      var token;
      token, save := NextToken(save);
      if token.None? {
        assert Tokens(left) == [] && all == ts;
        return;
      }
      Reassociate(ts, [token.value], Tokens(save));
      ts := ts + [token.value];
    }
    assert all[..4] == ts;
  }

  /** The dispatch on a received line. */
  method RequestIn(line: string) returns (r: Request)
    ensures r == RequestOf(Tokens(line))
  {
    var ts := FirstTokens(line);
    r := RequestOf(ts);
    ghost var all := Tokens(line);
    if |all| > 4 {
      FourTokensAreEnough(ts, all[4..]);
      assert all == ts + all[4..];
    }
  }

  /** No command looks beyond its third argument. */
  lemma FourTokensAreEnough(ts: seq<string>, more: seq<string>)
    requires |ts| == 4
    ensures RequestOf(ts + more) == RequestOf(ts)
  {
    var all := ts + more;
    assert all[0] == ts[0] && all[1] == ts[1] && all[2] == ts[2] && all[3] == ts[3];
  }

  // ---- What the client prints ----

  const UID_ANY_ARG := -1

  function UidWords(uid: int64): seq<string> {
    if uid == UID_ANY_ARG then [] else [Dec(uid)]
  }

  function Spaced(words: seq<string>): string {
    if words == [] then "" else if |words| == 1 then words[0] else words[0] + " " + Spaced(words[1..])
  }

  function CommandWord(c: ClientCall): string {
    match c
    case CallScan(_, _, _) => "SCAN"
    case CallStats(_, _) => "STATS"
    case CallTruncate(_, _) => "TRUNCATE"
    case CallHup(_) => "HUP"
    case CallKill(_) => "KILL"
    case CallStream(_, _) => "STREAM"
  }

  function ArgumentWords(c: ClientCall): seq<string> {
    match c
    case CallScan(minSize, onlyPid, uid) => [Dec(minSize), Dec(onlyPid)] + UidWords(uid)
    case CallStats(minSize, uid) => [Dec(minSize)] + UidWords(uid)
    case CallTruncate(pid, fd) => [Dec(pid), Dec(fd)]
    case CallHup(pid) => [Dec(pid)]
    case CallKill(pid) => [Dec(pid)]
    case CallStream(pid, fd) => [Dec(pid), Dec(fd)]
  }

  /** The texts of Scan, Stats, Truncate, Hup, Kill and OpenStream, word by word. */
  function WordsOf(c: ClientCall): seq<string> {
    [CommandWord(c)] + ArgumentWords(c)
  }

  datatype ClientCall =
    | CallScan(minSize: int64, onlyPid: int64, uid: int64)
    | CallStats(minSize: int64, uid: int64)
    | CallTruncate(pid: int64, fd: int64)
    | CallHup(pid: int64)
    | CallKill(pid: int64)
    | CallStream(pid: int64, fd: int64)

  predicate FitsInt32(n: int) {
    -0x8000_0000 <= n < 0x8000_0000
  }

  predicate FitsUid(n: int) {
    n == UID_ANY_ARG || 0 <= n < 0x1_0000_0000
  }

  /** Arguments in the daemon's ranges. */
  predicate ArgumentsFit(c: ClientCall) {
    match c
    case CallScan(_, onlyPid, uid) => FitsInt32(onlyPid) && FitsUid(uid)
    case CallStats(_, uid) => FitsUid(uid)
    case CallTruncate(pid, fd) => FitsInt32(pid) && FitsInt32(fd)
    case CallHup(pid) => FitsInt32(pid)
    case CallKill(pid) => FitsInt32(pid)
    case CallStream(pid, fd) => FitsInt32(pid) && FitsInt32(fd)
  }

  function AsUid(uid: int): uint32
    requires FitsUid(uid)
  {
    if uid == UID_ANY_ARG then UID_ANY else uid
  }

  /** The request that is meant. */
  function Meant(c: ClientCall): Request
    requires ArgumentsFit(c)
  {
    match c
    case CallScan(minSize, onlyPid, uid) => Scan(minSize, onlyPid, AsUid(uid))
    case CallStats(minSize, uid) => Request.Stats(minSize, AsUid(uid))
    case CallTruncate(pid, fd) => Truncate(pid, fd)
    case CallHup(pid) => Hup(pid)
    case CallKill(pid) => Kill(pid)
    case CallStream(pid, fd) => Stream(pid, fd)
  }

  // ---- Round trip ----

  predicate IsWord(s: string) {
    s != "" && forall i | 0 <= i < |s| :: s[i] > ' '
  }

  lemma {:induction false} TokenLengthOf(word: string, rest: string)
    requires forall i | 0 <= i < |word| :: word[i] > ' '
    requires rest == "" || IsDelimiter(rest[0])
    ensures TokenLength(word + rest) == |word|
  {
    if word == "" {
      assert word + rest == rest;
    } else {
      assert (word + rest)[1..] == word[1..] + rest;
      TokenLengthOf(word[1..], rest);
    }
  }

  lemma FirstToken(word: string, rest: string)
    requires IsWord(word) && (rest == "" || IsDelimiter(rest[0]))
    ensures Tokens(word + rest) == [word] + Tokens(rest)
  {
    TokenLengthOf(word, rest);
    assert (word + rest)[..|word|] == word && (word + rest)[|word|..] == rest;
  }

  /** Tokenising undoes joining with spaces. */
  lemma {:induction false} TokensOfSpaced(words: seq<string>)
    requires forall i | 0 <= i < |words| :: IsWord(words[i])
    ensures Tokens(Spaced(words)) == words
  {
    if |words| == 1 {
      FirstToken(words[0], "");
      assert words[0] + "" == words[0] && words == [words[0]];
    } else if |words| > 1 {
      var rest := Spaced(words[1..]);
      TokensOfSpaced(words[1..]);
      FirstToken(words[0], " " + rest);
      assert words[0] + (" " + rest) == words[0] + " " + rest;
      assert (" " + rest)[1..] == rest;
      assert words == [words[0]] + words[1..];
    }
  }

  lemma DecIsWord(n: int)
    ensures IsWord(Dec(n))
  {
    assert forall i | 0 <= i < |Dec(n)| :: Dec(n)[i] in Dec(n);
  }

  lemma SignedPrefixOfDec(n: int)
    ensures SignedPrefix(Dec(n)) == n
  {
    var digits := Digits(if n < 0 then -n else n);
    DigitRunOf(digits, "");
    assert digits + "" == digits;
    DigitsValue(if n < 0 then -n else n);
    if n < 0 {
      assert Dec(n)[1..] == digits;
    } else {
      assert Dec(n)[0] in digits;
    }
  }

  lemma NumbersBack(n: int64)
    ensures Atoll(Dec(n)) == n
    ensures FitsInt32(n) ==> ToInt32(Atoll(Dec(n))) == n
    ensures 0 <= n < 0x1_0000_0000 ==> Strtoul(Dec(n)) % 0x1_0000_0000 == n
  {
    SignedPrefixOfDec(n);
  }

  lemma WhichWord(word: string)
    requires word in ["SCAN", "STATS", "TRUNCATE", "HUP", "KILL", "STREAM"]
    ensures SameWord(word, word) && !SameWord(word, "PING") && !SameWord(word, "QUIT")
    ensures word != "SCAN" ==> !SameWord(word, "SCAN")
    ensures word != "STATS" ==> !SameWord(word, "STATS")
    ensures word != "TRUNCATE" ==> !SameWord(word, "TRUNCATE")
    ensures word != "HUP" ==> !SameWord(word, "HUP")
    ensures word != "KILL" ==> !SameWord(word, "KILL")
    ensures IsWord(word) && |word| <= 8
  {
    if word == "SCAN" { assert word[0] == 'S' && word[1] == 'C'; }
    else if word == "KILL" { assert word[0] == 'K'; }
    else if word == "STATS" { assert |word| == 5; }
    else if word == "HUP" { assert |word| == 3; }
    else if word == "STREAM" { assert |word| == 6; }
    else { assert |word| == 8; }
  }

  lemma ScanDispatch(ts: seq<string>)
    requires ts != []
    ensures ts[0] == "SCAN" ==> RequestOf(ts) == Scan(MinSizeArg(ts, 1), PidArg(ts, 2), UidArg(ts, 3))
    ensures ts[0] == "STATS" ==> RequestOf(ts) == Request.Stats(MinSizeArg(ts, 1), UidArg(ts, 2))
  {
    if ts[0] in ["SCAN", "STATS"] { WhichWord(ts[0]); }
  }

  /** A number printed at place `i` is read there. */
  lemma ArgumentBack(ts: seq<string>, i: nat, n: int64)
    requires i < |ts| && ts[i] == Dec(n)
    ensures MinSizeArg(ts, i) == n && (FitsInt32(n) ==> PidArg(ts, i) == n)
    ensures FitsUid(n) && n != UID_ANY_ARG ==> UidArg(ts, i) == AsUid(n)
  {
    NumbersBack(n);
  }

  lemma ScanWordsMean(c: ClientCall)
    requires ArgumentsFit(c) && c.CallScan?
    ensures RequestOf(WordsOf(c)) == Meant(c)
  {
    var ts := WordsOf(c);
    ScanDispatch(ts);
    ArgumentBack(ts, 1, c.minSize);
    ArgumentBack(ts, 2, c.onlyPid);
    if c.uid != UID_ANY_ARG { ArgumentBack(ts, 3, c.uid); }
  }

  lemma StatsWordsMean(c: ClientCall)
    requires ArgumentsFit(c) && c.CallStats?
    ensures RequestOf(WordsOf(c)) == Meant(c)
  {
    var ts := WordsOf(c);
    ScanDispatch(ts);
    ArgumentBack(ts, 1, c.minSize);
    if c.uid != UID_ANY_ARG { ArgumentBack(ts, 2, c.uid); }
  }

  lemma FdWordsMean(c: ClientCall)
    requires ArgumentsFit(c) && (c.CallTruncate? || c.CallStream?)
    ensures RequestOf(WordsOf(c)) == Meant(c)
  {
    WhichWord(CommandWord(c));
    NumbersBack(c.pid);
    NumbersBack(c.fd);
  }

  lemma SignalWordsMean(c: ClientCall)
    requires ArgumentsFit(c) && (c.CallHup? || c.CallKill?)
    ensures RequestOf(WordsOf(c)) == Meant(c)
  {
    WhichWord(CommandWord(c));
    NumbersBack(c.pid);
  }

  /** Reading the words the client printed gives the request it meant. */
  lemma WordsMean(c: ClientCall)
    requires ArgumentsFit(c)
    ensures RequestOf(WordsOf(c)) == Meant(c)
  {
    if c.CallScan? { ScanWordsMean(c); }
    else if c.CallStats? { StatsWordsMean(c); }
    else if c.CallTruncate? || c.CallStream? { FdWordsMean(c); }
    else { SignalWordsMean(c); }
  }

  lemma {:induction false} SpacedText(words: seq<string>)
    requires forall i | 0 <= i < |words| :: ShortWord(words[i])
    ensures JsonObject.NoControls(Spaced(words)) && |Spaced(words)| <= 21 * |words|
  {
    if |words| > 1 { SpacedText(words[1..]); }
  }

  lemma {:induction false} NothingCutAtNul(s: string)
    requires JsonObject.NoControls(s)
    ensures UpToNul(s) == s
  {
    if s != "" { NothingCutAtNul(s[1..]); }
  }

  predicate ShortWord(s: string) {
    IsWord(s) && |s| <= 20
  }

  lemma DecIsShort(n: int64)
    ensures ShortWord(Dec(n))
  {
    DecIsWord(n);
    DecLengths(n);
  }

  lemma ArgumentsAreShort(c: ClientCall)
    ensures |ArgumentWords(c)| <= 3 && forall i | 0 <= i < |ArgumentWords(c)| :: ShortWord(ArgumentWords(c)[i])
  {
    match c
    case CallScan(minSize, onlyPid, uid) => DecIsShort(minSize); DecIsShort(onlyPid); DecIsShort(uid);
    case CallStats(minSize, uid) => DecIsShort(minSize); DecIsShort(uid);
    case CallTruncate(pid, fd) => DecIsShort(pid); DecIsShort(fd);
    case CallHup(pid) => DecIsShort(pid);
    case CallKill(pid) => DecIsShort(pid);
    case CallStream(pid, fd) => DecIsShort(pid); DecIsShort(fd);
  }

  lemma WordsAreWords(c: ClientCall)
    ensures |WordsOf(c)| <= 4 && forall i | 0 <= i < |WordsOf(c)| :: ShortWord(WordsOf(c)[i])
  {
    WhichWord(CommandWord(c));
    ArgumentsAreShort(c);
  }

  /** What the client prints for a call is one line that the daemon dispatches with the same arguments; an omitted
      uid means any. */
  lemma CommandRoundTrip(c: ClientCall)
    requires ArgumentsFit(c)
    ensures var text := Spaced(WordsOf(c)); JsonObject.OneLine(text) && RequestOnLine(text) == Meant(c)
  {
    var text := Spaced(WordsOf(c));
    WordsAreWords(c);
    SpacedText(WordsOf(c));
    NothingCutAtNul(text);
    TokensOfSpaced(WordsOf(c));
    WordsMean(c);
  }
}
