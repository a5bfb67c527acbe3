/** A connection served (server.c, handle_connection and stream_poll_cb): which lines become requests when STREAM's
    polls take bytes off the same socket. */
module Serving {
  import opened Words
  import opened JsonObject
  import opened ScanWire
  import opened Commands

  const POLL_SIZE := 256

  // ---- Polls of a stream ----

  /** What one poll of a stream finds: an error, or `n` bytes that have arrived and are not yet read. None is EAGAIN;
      some when the client sends nothing more is its closing. */
  datatype Poll = Failed | Arrived(n: nat)

  function PollTakes(rest: string, p: Poll): (n: nat)
    ensures n <= |rest|
  {
    if p.Failed? then 0 else Min(Min(p.n, POLL_SIZE), |rest|)
  }

  predicate StandsAt(s: string, word: string, i: nat) {
    i + |word| <= |s| && s[i..i + |word|] == word
  }

  /** memmem. */
  predicate Mentions(s: string, word: string) {
    exists i :: 0 <= i <= |s| && StandsAt(s, word, i)
  }

  /** The stream goes on: the client has not closed, and what was read does not ask to stop. */
  predicate GoesOn(rest: string, p: Poll) {
    p.Arrived? && (p.n == 0 || (rest != "" && !Mentions(rest[..PollTakes(rest, p)], "STOP")))
  }

  /** What is left for the command loop after a stream whose polls these are. */
  function AfterPolls(rest: string, polls: seq<Poll>): (left: string)
    ensures |left| <= |rest|
    decreases |polls|
  {
    if polls == [] then rest
    else
      var left := rest[PollTakes(rest, polls[0])..];
      if GoesOn(rest, polls[0]) then AfterPolls(left, polls[1..]) else left
  }

  /** The requests a connection carries: one per complete line, until QUIT. `sessions` are the polls of each STREAM, in
      order; one that cannot attach polls nothing. For any reading of lines. */
  function RequestsOn(read: string -> Request, sessions: seq<seq<Poll>>, stream: string): seq<Request>
    decreases |stream|
  {
    if '\n' !in stream then []
    else
      var r, rest := read(FirstLine(stream)), stream[|FirstLine(stream)| + 1..];
      if r.Quit? then [r]
      else if r.Stream? && sessions != [] then [r] + RequestsOn(read, sessions[1..], AfterPolls(rest, sessions[0]))
      else [r] + RequestsOn(read, sessions, rest)
  }

  // ---- The loops ----

  /** stream_poll_cb. */
  method PollClient(inbox: Inbox, p: Poll) returns (go: bool)
    modifies inbox
    ensures go == GoesOn(old(inbox.pending), p)
    ensures inbox.pending == old(inbox.pending)[PollTakes(old(inbox.pending), p)..]
  {
    if p.Failed? { return false; }
    if p.n == 0 { return true; }
    var n := Min(Min(p.n, POLL_SIZE), |inbox.pending|);
    var buf := inbox.pending[..n];
    inbox.pending := inbox.pending[n..];
    if n == 0 { return false; }
    if Mentions(buf, "STOP") { return false; }
    go := true;
  }

  /** The polls of one stream, until one ends it or it ends by itself. */
  method PollStream(inbox: Inbox, polls: seq<Poll>)
    modifies inbox
    ensures inbox.pending == AfterPolls(old(inbox.pending), polls)
  {
    var i := 0;
    assert polls[0..] == polls;
    while i < |polls|
      invariant 0 <= i <= |polls|
      invariant AfterPolls(old(inbox.pending), polls) == AfterPolls(inbox.pending, polls[i..])
    {
      assert polls[i..][0] == polls[i] && polls[i..][1..] == polls[i + 1..];
      var go := PollClient(inbox, polls[i]);
      if !go { return; }
      i := i + 1;
    }
  }

  lemma OneTurn(read: string -> Request, sessions: seq<seq<Poll>>, stream: string)
    requires '\n' in stream
    ensures var r, rest := read(FirstLine(stream)), stream[|FirstLine(stream)| + 1..];
            var polled := r.Stream? && sessions != [];
            RequestsOn(read, sessions, stream)
            == if r.Quit? then [r]
               else [r] + RequestsOn(read, if polled then sessions[1..] else sessions,
                                     if polled then AfterPolls(rest, sessions[0]) else rest)
  {
  }

  /** A line received and dispatched. */
  method Receive(inbox: Inbox, line: array<char>, ghost read: string -> Request) returns (r: Option<Request>)
    requires line.Length == LINE_SIZE
    requires forall s {:trigger read(s)} :: read(s) == RequestOnLine(s)
    modifies inbox, line
    ensures r.Some? <==> '\n' in old(inbox.pending)
    ensures r.Some? ==> var first := FirstLine(old(inbox.pending));
                        r.value == read(first) && inbox.pending == old(inbox.pending)[|first| + 1..]
  {
    ghost var first := FirstLine(inbox.pending);
    assert read(first) == RequestOnLine(first);
    var n := inbox.RecvLine(line);
    if n.None? { return None; }
    var request := RequestIn(UpToNul(line[..n.value]));
    r := Some(request);
  }

  /** One turn of the command loop: a line, and the polls of a stream if it is one. */
  method NextRequest(inbox: Inbox, line: array<char>, sessions: seq<seq<Poll>>, ghost read: string -> Request)
    returns (r: Option<Request>, sessions': seq<seq<Poll>>)
    requires line.Length == LINE_SIZE
    requires forall s {:trigger read(s)} :: read(s) == RequestOnLine(s)
    modifies inbox, line
    ensures r.Some? <==> '\n' in old(inbox.pending)
    ensures r.Some? ==> |inbox.pending| < |old(inbox.pending)|
    ensures r.Some? ==>
              RequestsOn(read, sessions, old(inbox.pending))
              == if r.value.Quit? then [r.value] else [r.value] + RequestsOn(read, sessions', inbox.pending)
  {
    ghost var stream := inbox.pending;
    sessions' := sessions;
    r := Receive(inbox, line, read);
    if r.None? { return; }
    OneTurn(read, sessions, stream);
    if r.value.Stream? && sessions != [] {
      PollStream(inbox, sessions[0]);
      sessions' := sessions[1..];
    }
  }

  /** The loop, for the reading of lines the dispatch does. */
  method Serve(inbox: Inbox, sessions: seq<seq<Poll>>, ghost read: string -> Request) returns (requests: seq<Request>)
    requires forall s {:trigger read(s)} :: read(s) == RequestOnLine(s)
    modifies inbox
    ensures requests == RequestsOn(read, sessions, old(inbox.pending))
  {
    var line := new char[LINE_SIZE];
    var left := sessions;
    requests := [];
    while true
      invariant RequestsOn(read, sessions, old(inbox.pending)) == requests + RequestsOn(read, left, inbox.pending)
      decreases |inbox.pending|
    {
      var r;
      r, left := NextRequest(inbox, line, left, read);
      if r.None? { return; }
      Reassociate(requests, [r.value], RequestsOn(read, left, inbox.pending));
      requests := requests + [r.value];
      if r.value.Quit? { return; }
    }
  }

  /** handle_connection: the requests in the order they are dispatched, whatever the polls of its streams take. */
  method HandleConnection(inbox: Inbox, sessions: seq<seq<Poll>>) returns (requests: seq<Request>)
    modifies inbox
    ensures requests == RequestsOn(RequestOnLine, sessions, old(inbox.pending))
  {
    requests := Serve(inbox, sessions, RequestOnLine);
  }

  // ---- One request per line ----

  function Each(read: string -> Request, lines: seq<string>): (rs: seq<Request>)
    ensures |rs| == |lines|
  {
    seq(|lines|, i requires 0 <= i < |lines| => read(lines[i]))
  }

  predicate WholeLines(lines: seq<string>) {
    forall i | 0 <= i < |lines| :: OneLine(lines[i])
  }

  /** A line behind which others may not be served. */
  predicate Ends(r: Request) {
    r.Stream? || r.Quit?
  }

  predicate EndsLast(read: string -> Request, lines: seq<string>) {
    forall i | 0 <= i < |lines| - 1 :: !Ends(read(lines[i]))
  }

  lemma FirstOfFramed(lines: seq<string>)
    requires lines != [] && OneLine(lines[0])
    ensures var s := Framed(lines); '\n' in s && FirstLine(s) == lines[0] && s[|lines[0]| + 1..] == Framed(lines[1..])
  {
    FirstLineOf(lines[0], Framed(lines[1..]));
    assert Framed(lines)[|lines[0]|] == '\n';
  }

  lemma EachHead(read: string -> Request, lines: seq<string>)
    requires lines != []
    ensures Each(read, lines) == [read(lines[0])] + Each(read, lines[1..])
  {
  }

  lemma {:induction false} ServedOnePerLine(read: string -> Request, sessions: seq<seq<Poll>>, lines: seq<string>)
    requires WholeLines(lines) && EndsLast(read, lines)
    ensures RequestsOn(read, sessions, Framed(lines)) == Each(read, lines)
    decreases |lines|
  {
    if lines != [] {
      FirstOfFramed(lines);
      EachHead(read, lines);
      if |lines| == 1 {
        assert lines[1..] == [] && Framed([]) == "";
      } else {
        ServedOnePerLine(read, sessions, lines[1..]);
      }
    }
  }

  /** Polls that find one byte each take everything: a single byte never asks to stop. */
  function ByteByByte(n: nat): seq<Poll> {
    seq(n, _ => Arrived(1))
  }

  lemma {:induction false} PollsTakeAll(rest: string, n: nat)
    requires n >= |rest|
    ensures AfterPolls(rest, ByteByByte(n)) == ""
  {
    if n > 0 {
      assert ByteByByte(n)[1..] == ByteByByte(n - 1);
      if rest != "" { PollsTakeAll(rest[1..], n - 1); }
    }
  }

  /** Behind the first STREAM or QUIT nothing need be served: the polls can swallow it, or the connection is closed. */
  lemma {:induction false} NothingBehind(read: string -> Request, lines: seq<string>, i: nat, n: nat)
    requires WholeLines(lines) && i < |lines| && Ends(read(lines[i]))
    requires forall j | 0 <= j < i :: !Ends(read(lines[j]))
    requires n >= |Framed(lines)|
    ensures RequestsOn(read, [ByteByByte(n)], Framed(lines)) == Each(read, lines[..i + 1])
    decreases |lines|
  {
    FirstOfFramed(lines);
    EachHead(read, lines[..i + 1]);
    if i == 0 {
      PollsTakeAll(Framed(lines[1..]), n);
      assert lines[..1][1..] == [];
    } else {
      NothingBehind(read, lines[1..], i - 1, n);
      assert lines[..i + 1][1..] == lines[1..][..i];
    }
  }

  lemma {:induction false} FirstEnd(read: string -> Request, lines: seq<string>) returns (i: nat)
    requires !EndsLast(read, lines)
    ensures i + 1 < |lines| && Ends(read(lines[i])) && forall j | 0 <= j < i :: !Ends(read(lines[j]))
  {
    if Ends(read(lines[0])) {
      i := 0;
    } else {
      assert exists j :: 0 < j < |lines| - 1 && Ends(read(lines[j]));
      var j :| 0 < j < |lines| - 1 && Ends(read(lines[j]));
      assert lines[1..][j - 1] == lines[j];
      i := FirstEnd(read, lines[1..]);
      i := i + 1;
    }
  }

  /** Complete lines, of any length, are served as one request each for every behaviour of the streams if and only if no
      line follows a STREAM or a QUIT. */
  lemma OneRequestPerLine(read: string -> Request, lines: seq<string>)
    requires WholeLines(lines)
    ensures (forall sessions: seq<seq<Poll>> :: RequestsOn(read, sessions, Framed(lines)) == Each(read, lines))
            <==> EndsLast(read, lines)
  {
    if EndsLast(read, lines) {
      forall sessions: seq<seq<Poll>> ensures RequestsOn(read, sessions, Framed(lines)) == Each(read, lines) {
        ServedOnePerLine(read, sessions, lines);
      }
    } else {
      var i := FirstEnd(read, lines);
      var sessions := [ByteByByte(|Framed(lines)|)];
      NothingBehind(read, lines, i, |Framed(lines)|);
      assert |RequestsOn(read, sessions, Framed(lines))| == i + 1 < |Each(read, lines)|;
    }
  }

  /** Behind a STREAM a long line can become another command: a poll takes its first 256 bytes, the stream ends, and the
      rest is read as a line of its own. */
  lemma TailBecomesCommand(read: string -> Request, line: string, front: string, tail: string)
    requires OneLine(line) && read(line).Stream? && OneLine(front) && OneLine(tail)
    requires |front| == POLL_SIZE && !Mentions(front, "STOP")
    ensures RequestsOn(read, [[Arrived(POLL_SIZE)]], Framed([line, front + tail])) == [read(line), read(tail)]
  {
    var lines, polls := [line, front + tail], [Arrived(POLL_SIZE)];
    var none: seq<seq<Poll>> := [];
    FirstOfFramed(lines);
    assert lines[1..] == [front + tail] && [polls][1..] == none;
    PollTakesFront(front, tail);
    LastLineServed(read, tail);
  }

  lemma PollTakesFront(front: string, tail: string)
    requires |front| == POLL_SIZE && !Mentions(front, "STOP")
    ensures AfterPolls(Framed([front + tail]), [Arrived(POLL_SIZE)]) == Framed([tail])
  {
    var rest, polls := Framed([front + tail]), [Arrived(POLL_SIZE)];
    assert rest == front + Framed([tail]) by {
      assert |[front + tail][1..]| == 0 && |[tail][1..]| == 0;
      Reassociate(front, tail, "\n");
    }
    assert rest[..POLL_SIZE] == front && rest[POLL_SIZE..] == Framed([tail]) && |polls[1..]| == 0;
  }

  lemma LastLineServed(read: string -> Request, line: string)
    requires OneLine(line)
    ensures RequestsOn(read, [], Framed([line])) == [read(line)]
  {
    FirstOfFramed([line]);
    assert [line][1..] == [] && Framed([]) == "";
  }

  // ---- The client's calls ----

  function Texts(cs: seq<ClientCall>): (texts: seq<string>)
    ensures |texts| == |cs|
  {
    seq(|cs|, i requires 0 <= i < |cs| => Spaced(WordsOf(cs[i])))
  }

  function AllMeant(cs: seq<ClientCall>): (rs: seq<Request>)
    requires forall i | 0 <= i < |cs| :: ArgumentsFit(cs[i])
    ensures |rs| == |cs|
  {
    seq(|cs|, i requires 0 <= i < |cs| && ArgumentsFit(cs[i]) => Meant(cs[i]))
  }

  lemma TextsAreLines(read: string -> Request, cs: seq<ClientCall>)
    requires forall s {:trigger read(s)} :: read(s) == RequestOnLine(s)
    requires forall i | 0 <= i < |cs| :: ArgumentsFit(cs[i])
    ensures WholeLines(Texts(cs)) && Each(read, Texts(cs)) == AllMeant(cs)
    ensures EndsLast(read, Texts(cs)) <==> forall i | 0 <= i < |cs| - 1 :: !cs[i].CallStream?
  {
    forall i | 0 <= i < |cs|
      ensures OneLine(Texts(cs)[i]) && read(Texts(cs)[i]) == Meant(cs[i]) && !Meant(cs[i]).Quit?
      ensures Meant(cs[i]).Stream? <==> cs[i].CallStream? {
      CommandRoundTrip(cs[i]);
      assert read(Texts(cs)[i]) == RequestOnLine(Texts(cs)[i]);
    }
  }

  /** A connection that carries a sequence of calls is served as that sequence, for every behaviour of the streams, if
      and only if no call follows a STREAM. The client opens a connection for each call. */
  lemma CallsArriveInOrder(cs: seq<ClientCall>)
    requires forall i | 0 <= i < |cs| :: ArgumentsFit(cs[i])
    ensures (forall sessions: seq<seq<Poll>> :: RequestsOn(RequestOnLine, sessions, Framed(Texts(cs))) == AllMeant(cs))
            <==> forall i | 0 <= i < |cs| - 1 :: !cs[i].CallStream?
  {
    TextsAreLines(RequestOnLine, cs);
    OneRequestPerLine(RequestOnLine, Texts(cs));
  }

  lemma LaterCallIsLost(read: string -> Request, first: ClientCall, later: ClientCall)
    requires forall s {:trigger read(s)} :: read(s) == RequestOnLine(s)
    requires ArgumentsFit(first) && ArgumentsFit(later) && first.CallStream?
    ensures exists sessions: seq<seq<Poll>> ::
      RequestsOn(read, sessions, Framed(Texts([first, later]))) == [Meant(first)]
  {
    var cs := [first, later];
    var lines := Texts(cs);
    TextsAreLines(read, cs);
    assert read(lines[0]) == Each(read, lines)[0] == AllMeant(cs)[0];
    FirstSwallows(read, lines);
  }

  lemma FirstSwallows(read: string -> Request, lines: seq<string>)
    requires WholeLines(lines) && lines != [] && read(lines[0]).Stream?
    ensures exists sessions: seq<seq<Poll>> :: RequestsOn(read, sessions, Framed(lines)) == [read(lines[0])]
  {
    NothingBehind(read, lines, 0, |Framed(lines)|);
    assert Each(read, lines[..1]) == [read(lines[0])];
  }

  /** A KILL behind a STREAM on one connection can be lost. */
  lemma KillBehindStreamIsLost()
    ensures exists sessions: seq<seq<Poll>> ::
      RequestsOn(RequestOnLine, sessions, Framed(Texts([CallStream(7, 3), CallKill(9)]))) == [Request.Stream(7, 3)]
  {
    LaterCallIsLost(RequestOnLine, CallStream(7, 3), CallKill(9));
  }
}
