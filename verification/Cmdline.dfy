/** How a command line is shown (proc_scan.c, read_cmdline): arguments end in NULs and are joined by blanks. */
module Cmdline {
  import opened Words

  /** Where the text to show ends: at a NUL that begins an empty argument or ends the last one, or at the end. */
  function StopAt(raw: string, k: nat): (stop: nat)
    requires k <= |raw|
    ensures k <= stop <= |raw|
    decreases |raw| - k
  {
    if k == |raw| || (raw[k] == '\0' && (k == 0 || k + 1 == |raw| || raw[k + 1] == '\0')) then k else StopAt(raw, k + 1)
  }

  function Blank(c: char): char {
    if c == '\0' then ' ' else c
  }

  function Blanks(s: string): (r: string)
    ensures |r| == |s|
  {
    seq(|s|, i requires 0 <= i < |s| => Blank(s[i]))
  }

  /** What is shown: byte for byte what was read, with blanks for the NULs inside. */
  function Shown(raw: string): (r: string)
    ensures |r| <= |raw|
  {
    Blanks(raw[..StopAt(raw, 0)])
  }

  /** strlen(raw + i), the bytes read being followed by a NUL. */
  method ArgumentLength(raw: string, i: nat) returns (len: nat)
    requires i <= |raw|
    ensures i + len <= |raw| && '\0' !in raw[i..i + len] && (i + len < |raw| ==> raw[i + len] == '\0')
  {
    len := 0;
    while i + len < |raw| && raw[i + len] != '\0'
      invariant i + len <= |raw| && '\0' !in raw[i..i + len]
    {
      assert raw[i..i + len + 1] == raw[i..i + len] + [raw[i + len]];
      len := len + 1;
    }
  }

  lemma {:induction false} NoStopInside(raw: string, k: nat, z: nat)
    requires k <= z <= |raw| && '\0' !in raw[k..z]
    ensures StopAt(raw, k) == StopAt(raw, z)
    decreases z - k
  {
    if k < z {
      assert raw[k] == raw[k..z][0] && raw[k + 1..z] == raw[k..z][1..];
      NoStopInside(raw, k + 1, z);
    }
  }

  /** The NUL in front of a nonempty argument does not end the text. */
  lemma NextArgument(raw: string, i: nat, len: nat)
    requires len > 0 && i + len <= |raw| && '\0' !in raw[i..i + len] && (i > 0 ==> raw[i - 1] == '\0')
    requires i == 0 || (i > 1 && raw[i - 2] != '\0')
    ensures StopAt(raw, if i == 0 then 0 else i - 1) == StopAt(raw, i + len)
  {
    assert raw[i] == raw[i..i + len][0];
    NoStopInside(raw, i, i + len);
  }

  lemma BlanksGrow(raw: string, end: nat, i: nat, len: nat)
    requires i + len <= |raw| && '\0' !in raw[i..i + len]
    requires (end == 0 && i == 0) || (end + 1 == i && raw[end] == '\0')
    ensures Blanks(raw[..i + len]) == Blanks(raw[..end]) + (if i > 0 then " " else "") + raw[i..i + len]
  {
    forall k | i <= k < i + len ensures Blank(raw[k]) == raw[k] { assert raw[k] == raw[i..i + len][k - i]; }
  }

  /** Appends what fits in front of the place kept for the NUL. */
  method Copy(buf: array<char>, o: nat, text: string) returns (o': nat)
    requires o < buf.Length
    modifies buf
    ensures o <= o' < buf.Length && buf[..o'] == Take(old(buf[..o]) + text, buf.Length - 1)
  {
    var copy := |text|;
    if o + copy >= buf.Length { copy := buf.Length - o - 1; }
    forall k | 0 <= k < copy { buf[o + k] := text[k]; }
    o' := o + copy;
    assert buf[..o'] == old(buf[..o]) + text[..copy];
  }

  lemma TakeMore(s: string, a: string, n: nat)
    ensures Take(Take(s, n) + a, n) == Take(s + a, n)
  {
  }

  /** Between two arguments: the text of raw[..end] is out, and the next argument begins at `i`. */
  predicate Between(raw: string, i: nat, end: nat, wroteAny: bool) {
    && end <= |raw| && StopAt(raw, 0) == StopAt(raw, end) && (wroteAny <==> end > 0)
    && (wroteAny ==> raw[0] != '\0')
    && (i >= |raw| ==> StopAt(raw, 0) == end)
    && (i < |raw| ==> if wroteAny then i == end + 1 && raw[end] == '\0' && raw[end - 1] != '\0' else i == end == 0)
  }

  lemma OneArgument(raw: string, i: nat, end: nat, wroteAny: bool, len: nat)
    requires i < |raw| && Between(raw, i, end, wroteAny)
    requires i + len <= |raw| && '\0' !in raw[i..i + len] && (i + len < |raw| ==> raw[i + len] == '\0')
    ensures len > 0 ==> Between(raw, i + len + 1, i + len, true)
    ensures len == 0 ==> Between(raw, |raw|, end, wroteAny)
  {
    if len > 0 {
      NextArgument(raw, i, len);
      assert raw[i + len - 1] == raw[i..i + len][len - 1] && raw[i] == raw[i..i + len][0];
    }
  }

  /** A blank in front of every argument but the first, then the argument. */
  method AppendArgument(raw: string, i: nat, len: nat, buf: array<char>, o: nat, wroteAny: bool, ghost end: nat)
    returns (o': nat)
    requires i < |raw| && Between(raw, i, end, wroteAny) && i + len <= |raw| && '\0' !in raw[i..i + len]
    requires o < buf.Length && buf[..o] == Take(Blanks(raw[..end]), buf.Length - 1)
    modifies buf
    ensures o' < buf.Length && buf[..o'] == Take(Blanks(raw[..i + len]), buf.Length - 1)
  {
    ghost var before, gap, most := Blanks(raw[..end]), if i > 0 then " " else "", buf.Length - 1;
    BlanksGrow(raw, end, i, len);
    TakeMore(before, gap, most);
    TakeMore(before + gap, raw[i..i + len], most);
    o' := o;
    if wroteAny { o' := Copy(buf, o, " "); }
    assert buf[..o'] == Take(before + gap, most);
    o' := Copy(buf, o', raw[i..i + len]);
  }

  /** The join loop. A read of at most HSED_CMDLINE_MAX - 1 bytes into a buffer of HSED_CMDLINE_MAX is never cut. */
  method JoinArguments(raw: string, buf: array<char>) returns (wroteAny: bool)
    requires buf.Length > 0
    modifies buf
    ensures var t := Take(Shown(raw), buf.Length - 1); buf[..|t|] == t && buf[|t|] == '\0'
    ensures |raw| < buf.Length ==> buf[..|Shown(raw)|] == Shown(raw) && buf[|Shown(raw)|] == '\0'
    ensures wroteAny <==> raw != "" && raw[0] != '\0'
  {
    var i: nat, o: nat := 0, 0;
    wroteAny := false;
    ghost var end: nat := 0;
    while i < |raw|
      invariant o < buf.Length && Between(raw, i, end, wroteAny)
      invariant buf[..o] == Take(Blanks(raw[..end]), buf.Length - 1)
      decreases |raw| - i
    {
      var len := ArgumentLength(raw, i);
      OneArgument(raw, i, end, wroteAny, len);
      if len > 0 {
        o := AppendArgument(raw, i, len, buf, o, wroteAny, end);
        wroteAny, end := true, i + len;
      }
      i := if len == 0 then |raw| else i + len + 1;
    }
    buf[o] := '\0';
    assert buf[..o] == Take(Shown(raw), buf.Length - 1);
  }
}
