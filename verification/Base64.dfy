/** The daemon's base64 encoder (base64.c) against the decoding of section 4 of RFC 4648. */
module Base64 {
  import opened Words
  import JsonObject

  const B64_TABLE := "ABCDEFGHIJKLMNOPQRSTUVWXYZ" + "abcdefghijklmnopqrstuvwxyz" + "0123456789+/"

  /** The size of the encoder's buffer, NUL included. */
  function EncodedLen(len: nat): nat {
    (len + 2) / 3 * 4 + 1
  }

  /** Table 1 of RFC 4648, written as ranges. */
  function SextetChar(n: nat): char
    requires n < 64
  {
    if n < 26 then ('A' as int + n) as char
    else if n < 52 then ('a' as int + n - 26) as char
    else if n < 62 then ('0' as int + n - 52) as char
    else if n == 62 then '+'
    else '/'
  }

  /** The encoder's table is that of the RFC. */
  lemma TableIsRanges(n: nat)
    requires n < 64
    ensures |B64_TABLE| == 64 && B64_TABLE[n] == SextetChar(n)
  {
    var upper, lower, rest := "ABCDEFGHIJKLMNOPQRSTUVWXYZ", "abcdefghijklmnopqrstuvwxyz", "0123456789+/";
    assert B64_TABLE[n] == if n < 26 then upper[n] else if n < 52 then lower[n - 26] else rest[n - 52];
  }

  /** The four characters of three bytes: their 24 bits, six at a time. */
  function Group(a: byte, b: byte, c: byte): (r: string)
    ensures |r| == 4
  {
    [SextetChar(a / 4), SextetChar(a % 4 * 16 + b / 16), SextetChar(b % 16 * 4 + c / 64), SextetChar(c % 64)]
  }

  function Encoded(data: seq<byte>): (r: string)
    ensures |r| == (|data| + 2) / 3 * 4
  {
    if |data| == 0 then ""
    else if |data| == 1 then Group(data[0], 0, 0)[..2] + "=="
    else if |data| == 2 then Group(data[0], data[1], 0)[..3] + "="
    else Group(data[0], data[1], data[2]) + Encoded(data[3..])
  }

  lemma By64(v: nat, q: nat, r: nat)
    requires v == q * 64 + r && r < 64
    ensures v / 64 == q && v % 64 == r
  {
  }

  lemma By4096(v: nat, q: nat, r: nat)
    requires v == q * 0x1000 + r && r < 0x1000
    ensures v / 0x1000 == q
  {
  }

  lemma By262144(v: nat, q: nat, r: nat)
    requires v == q * 0x40000 + r && r < 0x40000
    ensures v / 0x40000 == q
  {
  }

  /** Six bits of the 24-bit value the encoder shifts. */
  lemma Shifts(a: byte, b: byte, c: byte)
    ensures var v := a * 0x10000 + b * 0x100 + c;
            v / 0x40000 % 64 == a / 4 && v / 0x1000 % 64 == a % 4 * 16 + b / 16
            && v / 0x40 % 64 == b % 16 * 4 + c / 64 && v % 64 == c % 64
  {
    var v := a * 0x10000 + b * 0x100 + c;
    var aq, ar, bq, br, cq, cr := a / 4, a % 4, b / 16, b % 16, c / 64, c % 64;
    By262144(v, aq, ar * 0x10000 + b * 0x100 + c);
    By64(aq, 0, aq);
    By4096(v, a * 16 + bq, br * 0x100 + c);
    By64(a * 16 + bq, aq, ar * 16 + bq);
    By64(v, a * 1024 + b * 4 + cq, cr);
    By64(a * 1024 + b * 4 + cq, a * 16 + bq, br * 4 + cq);
  }

  /** The table character for six bits of `v`. */
  method Sextet(v: nat, shift: nat) returns (c: char)
    requires shift > 0
    ensures c == SextetChar(v / shift % 64)
  {
    TableIsRanges(v / shift % 64);
    c := B64_TABLE[v / shift % 64];
  }

  /** The table lookups for a 24-bit value. */
  method Sextets(a: byte, b: byte, c: byte) returns (text: string)
    ensures text == Group(a, b, c)
  {
    var v := a * 0x10000 + b * 0x100 + c;
    Shifts(a, b, c);
    var c0 := Sextet(v, 0x40000);
    var c1 := Sextet(v, 0x1000);
    var c2 := Sextet(v, 0x40);
    var c3 := Sextet(v, 1);
    text := [c0, c1, c2, c3];
  }

  /** Writes the four characters of a 24-bit value at `o`. */
  method PutGroup(out: array<char>, o: nat, a: byte, b: byte, c: byte)
    requires o + 4 <= out.Length
    modifies out
    ensures out[..o + 4] == old(out[..o]) + Group(a, b, c)
    ensures forall j | o + 4 <= j < out.Length :: out[j] == old(out[j])
  {
    var text := Sextets(a, b, c);
    out[o], out[o + 1], out[o + 2], out[o + 3] := text[0], text[1], text[2], text[3];
    assert out[..o + 4] == old(out[..o]) + text;
  }

  lemma EncodedTail(data: seq<byte>, i: nat, done: string)
    requires i + 3 <= |data|
    ensures done + Encoded(data[i..])
         == done + Group(data[i], data[i + 1], data[i + 2]) + Encoded(data[i + 3..])
  {
    assert data[i..][3..] == data[i + 3..];
    Reassociate(done, Group(data[i], data[i + 1], data[i + 2]), Encoded(data[i + 3..]));
  }

  /** The one or two bytes left over, padded. */
  method PutRest(out: array<char>, o: nat, rest: seq<byte>)
    requires |rest| < 3 && o + |Encoded(rest)| <= out.Length
    modifies out
    ensures out[..o + |Encoded(rest)|] == old(out[..o]) + Encoded(rest)
    ensures forall j | o + |Encoded(rest)| <= j < out.Length :: out[j] == old(out[j])
  {
    ghost var before := out[..o];
    if |rest| == 1 {
      PutGroup(out, o, rest[0], 0, 0);
      out[o + 2], out[o + 3] := '=', '=';
      assert out[..o + 4] == before + (Group(rest[0], 0, 0)[..2] + "==");
    } else if |rest| == 2 {
      PutGroup(out, o, rest[0], rest[1], 0);
      out[o + 3] := '=';
      assert out[..o + 4] == before + (Group(rest[0], rest[1], 0)[..3] + "=");
    } else {
      assert out[..o] == before + "";
    }
  }

  /** The loop over whole groups; what is left is shorter than three bytes. */
  method PutGroups(data: seq<byte>, out: array<char>) returns (i: nat, o: nat)
    requires out.Length > |Encoded(data)|
    modifies out
    ensures i <= |data| < i + 3 && o + |Encoded(data[i..])| == |Encoded(data)|
    ensures Encoded(data) == out[..o] + Encoded(data[i..])
    ensures forall j | o <= j < out.Length :: out[j] == old(out[j])
  {
    i, o := 0, 0;
    ghost var done, whole := "", Encoded(data);
    assert data[0..] == data && done + whole == whole;
    while i + 3 <= |data|
      invariant i <= |data| && o == |done| <= |whole|
      invariant out[..o] == done && whole == done + Encoded(data[i..])
      invariant forall j | o <= j < out.Length :: out[j] == old(out[j])
    {
      EncodedTail(data, i, done);
      PutGroup(out, o, data[i], data[i + 1], data[i + 2]);
      done := done + Group(data[i], data[i + 1], data[i + 2]);
      i, o := i + 3, o + 4;
    }
  }

  /** Fills exactly EncodedLen bytes, NUL included, and leaves the rest of the buffer alone. */
  method Encode(data: seq<byte>, out: array<char>)
    requires out.Length >= EncodedLen(|data|)
    modifies out
    ensures |Encoded(data)| + 1 == EncodedLen(|data|)
    ensures out[..|Encoded(data)|] == Encoded(data) && out[|Encoded(data)|] == '\0'
    ensures forall j | EncodedLen(|data|) <= j < out.Length :: out[j] == old(out[j])
  {
    var i, o := PutGroups(data, out);
    PutRest(out, o, data[i..]);
    out[|Encoded(data)|] := '\0';
  }

  // ---- Decoding ----

  /** Table 1 of RFC 4648. */
  function SextetValue(c: char): (r: Option<nat>)
    ensures r.Some? ==> r.value < 64
  {
    if 'A' <= c <= 'Z' then Some(c as int - 'A' as int)
    else if 'a' <= c <= 'z' then Some(c as int - 'a' as int + 26)
    else if '0' <= c <= '9' then Some(c as int - '0' as int + 52)
    else if c == '+' then Some(62)
    else if c == '/' then Some(63)
    else None
  }

  /** The first byte of a quantum, from its first two characters; the second from the second and third, and so on. */
  function Byte0(a: nat, b: nat): byte
    requires a < 64 && b < 64
  {
    a * 4 + b / 16
  }

  function Byte1(b: nat, c: nat): byte
    requires b < 64 && c < 64
  {
    b % 16 * 16 + c / 4
  }

  function Byte2(c: nat, d: nat): byte
    requires c < 64 && d < 64
  {
    c % 4 * 64 + d
  }

  function Decode(s: string): Option<seq<byte>> {
    if s == "" then Some([])
    else if |s| < 4 then None
    else
      var a, b, c, d := SextetValue(s[0]), SextetValue(s[1]), SextetValue(s[2]), SextetValue(s[3]);
      if a.None? || b.None? then None
      else if s[2] == '=' then
        if |s| == 4 && s[3] == '=' then Some([Byte0(a.value, b.value)]) else None
      else if c.None? then None
      else if s[3] == '=' then
        if |s| == 4 then Some([Byte0(a.value, b.value), Byte1(b.value, c.value)]) else None
      else if d.None? then None
      else
        var rest := Decode(s[4..]);
        if rest.None? then None
        else Some([Byte0(a.value, b.value), Byte1(b.value, c.value), Byte2(c.value, d.value)] + rest.value)
  }

  // ---- Round trip ----

  lemma SextetBack(n: nat)
    requires n < 64
    ensures SextetValue(SextetChar(n)) == Some(n) && SextetChar(n) != '='
    ensures SextetChar(n) >= ' ' && SextetChar(n) != '"' && SextetChar(n) != '\\'
  {
  }

  lemma GroupDecodes(a: byte, b: byte, c: byte)
    ensures var g := Group(a, b, c);
            && SextetValue(g[0]) == Some(a / 4) && SextetValue(g[1]) == Some(a % 4 * 16 + b / 16)
            && SextetValue(g[2]) == Some(b % 16 * 4 + c / 64) && SextetValue(g[3]) == Some(c % 64)
            && g[2] != '=' && g[3] != '=' && JsonObject.PlainText(g)
  {
    SextetBack(a / 4);
    SextetBack(a % 4 * 16 + b / 16);
    SextetBack(b % 16 * 4 + c / 64);
    SextetBack(c % 64);
  }

  lemma BytesBack(a: byte, b: byte, c: byte)
    ensures Byte0(a / 4, a % 4 * 16 + b / 16) == a
    ensures Byte1(a % 4 * 16 + b / 16, b % 16 * 4 + c / 64) == b
    ensures Byte2(b % 16 * 4 + c / 64, c % 64) == c
  {
  }

  lemma DecodeFull(g: string, rest: string, w: nat, x: nat, y: nat, z: nat)
    requires |g| == 4 && w < 64 && x < 64 && y < 64 && z < 64 && g[2] != '=' && g[3] != '='
    requires SextetValue(g[0]) == Some(w) && SextetValue(g[1]) == Some(x)
    requires SextetValue(g[2]) == Some(y) && SextetValue(g[3]) == Some(z) && Decode(rest).Some?
    ensures Decode(g + rest) == Some([Byte0(w, x), Byte1(x, y), Byte2(y, z)] + Decode(rest).value)
  {
    assert (g + rest)[4..] == rest;
  }

  lemma DecodeGroup(a: byte, b: byte, c: byte, rest: string)
    requires Decode(rest).Some?
    ensures Decode(Group(a, b, c) + rest) == Some([a, b, c] + Decode(rest).value)
  {
    GroupDecodes(a, b, c);
    BytesBack(a, b, c);
    DecodeFull(Group(a, b, c), rest, a / 4, a % 4 * 16 + b / 16, b % 16 * 4 + c / 64, c % 64);
  }

  lemma DecodePadded(g: string, x: nat, y: nat, z: nat)
    requires |g| == 4 && x < 64 && y < 64 && z < 64 && g[2] != '='
    requires SextetValue(g[0]) == Some(x) && SextetValue(g[1]) == Some(y) && SextetValue(g[2]) == Some(z)
    ensures Decode([g[0], g[1], '=', '=']) == Some([Byte0(x, y)])
    ensures Decode([g[0], g[1], g[2], '=']) == Some([Byte0(x, y), Byte1(y, z)])
  {
  }

  lemma DecodeLast(a: byte, b: byte)
    ensures Decode(Group(a, 0, 0)[..2] + "==") == Some([a])
    ensures Decode(Group(a, b, 0)[..3] + "=") == Some([a, b])
  {
    var g, h := Group(a, 0, 0), Group(a, b, 0);
    GroupDecodes(a, 0, 0);
    GroupDecodes(a, b, 0);
    BytesBack(a, 0, 0);
    BytesBack(a, b, 0);
    DecodePadded(g, a / 4, a % 4 * 16, 0);
    DecodePadded(h, a / 4, a % 4 * 16 + b / 16, b % 16 * 4);
    assert g[..2] + "==" == [g[0], g[1], '=', '='] && h[..3] + "=" == [h[0], h[1], h[2], '='];
  }

  /** Decoding undoes encoding, for every byte string. */
  lemma {:induction false} DecodeEncoded(data: seq<byte>)
    ensures Decode(Encoded(data)) == Some(data)
  {
    if |data| > 2 {
      DecodeEncoded(data[3..]);
      DecodeGroup(data[0], data[1], data[2], Encoded(data[3..]));
      assert data == [data[0], data[1], data[2]] + data[3..];
    } else {
      DecodeShort(data);
    }
  }

  lemma {:induction false} DecodeShort(data: seq<byte>)
    requires |data| <= 2
    ensures Decode(Encoded(data)) == Some(data)
  {
    if |data| == 1 {
      DecodeLast(data[0], 0);
      assert Encoded(data) == Group(data[0], 0, 0)[..2] + "==";
      assert data == [data[0]];
    } else if |data| == 2 {
      DecodeLast(data[0], data[1]);
      assert Encoded(data) == Group(data[0], data[1], 0)[..3] + "=";
      assert data == [data[0], data[1]];
    }
  }

  /** The encoder's characters need no JSON escapes. */
  lemma {:induction false} EncodedIsPlain(data: seq<byte>)
    ensures JsonObject.PlainText(Encoded(data))
  {
    if data != [] {
      var b, c := if |data| > 1 then data[1] else 0, if |data| > 2 then data[2] else 0;
      GroupDecodes(data[0], b, c);
      if |data| > 2 { EncodedIsPlain(data[3..]); }
    }
  }
}
