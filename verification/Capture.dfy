/** What the tracer shows of the bytes a traced thread wrote (tracer.c, read_remote and capture_writev). */
module Capture {
  import opened Words

  const MAX_WRITEV_IOVECS := 16

  /** `mem(k, addr, len)` is what remote read number k of a stop returns for `len` bytes at `addr`: number 0 is the
      first read, number k the one for writev segment k. The empty sequence stands for an error and for a read of
      nothing, which the tracer treats alike. */
  type Memory = (nat, nat, nat) -> seq<byte>

  datatype Iovec = Iovec(base: nat, len: nat)

  function ReadRemote(mem: Memory, k: nat, addr: nat, len: nat): (r: seq<byte>)
    ensures |r| <= len
  {
    Take(mem(k, addr, len), len)
  }

  function LittleEndian(s: seq<byte>): nat {
    if s == [] then 0 else s[0] + 256 * LittleEndian(s[1..])
  }

  /** The complete 16-byte (base, len) records at the start of `raw`. */
  function Iovecs(raw: seq<byte>): (r: seq<Iovec>)
    ensures |r| == |raw| / 16
  {
    seq(|raw| / 16, i requires 0 <= i < |raw| / 16 =>
      Iovec(LittleEndian(raw[16 * i..16 * i + 8]), LittleEndian(raw[16 * i + 8..16 * i + 16])))
  }

  /** What segment number `k` contributes when `space` bytes are left; an empty one contributes nothing. */
  function Piece(mem: Memory, k: nat, v: Iovec, space: nat): (r: seq<byte>)
    ensures |r| <= space && |r| <= v.len
  {
    ReadRemote(mem, k, v.base, Min(v.len, space))
  }

  /** Reading the segments in order, numbered from `k`, into `space` bytes. */
  function Gather(mem: Memory, k: nat, iovs: seq<Iovec>, space: nat): (r: seq<byte>)
    ensures |r| <= space
    decreases |iovs|
  {
    if iovs == [] || space == 0 then []
    else
      var piece := Piece(mem, k, iovs[0], space);
      piece + Gather(mem, k + 1, iovs[1..], space - |piece|)
  }

  function WritevPreview(mem: Memory, iovAddr: nat, iovcnt: nat, maxCapture: nat): (r: seq<byte>)
    ensures |r| <= maxCapture
  {
    if iovcnt == 0 then []
    else Gather(mem, 1, Iovecs(ReadRemote(mem, 0, iovAddr, Min(iovcnt, MAX_WRITEV_IOVECS) * 16)), maxCapture)
  }

  /** A plain write captures at most what the kernel wrote and at most `maxCapture` bytes. */
  function PlainPreview(mem: Memory, addr: nat, ret: nat, maxCapture: nat): (r: seq<byte>)
    ensures |r| <= ret && |r| <= maxCapture
  {
    ReadRemote(mem, 0, addr, Min(ret, maxCapture))
  }

  /** One remote read into `buf[at..]`; nothing else of the buffer changes. */
  method ReadInto(mem: Memory, k: nat, addr: nat, buf: array<byte>, at: nat, len: nat) returns (n: nat)
    requires at + len <= buf.Length
    modifies buf
    ensures n <= len
    ensures buf[at..at + n] == ReadRemote(mem, k, addr, len) && n == |ReadRemote(mem, k, addr, len)|
    ensures forall i | 0 <= i < at || at + n <= i < buf.Length :: buf[i] == old(buf[i])
  {
    var data := ReadRemote(mem, k, addr, len);
    n := |data|;
    for i := 0 to n
      invariant forall j | 0 <= j < i :: buf[at + j] == data[j]
      invariant forall j | 0 <= j < at || at + n <= j < buf.Length :: buf[j] == old(buf[j])
    {
      buf[at + i] := data[i];
    }
    assert buf[at..at + n] == data;
  }

  method ReadSegment(mem: Memory, k: nat, v: Iovec, capture: array<byte>, total: nat) returns (got: nat)
    requires total <= capture.Length
    modifies capture
    ensures total + got <= capture.Length
    ensures capture[..total + got] == old(capture[..total]) + Piece(mem, k, v, capture.Length - total)
    ensures got == |Piece(mem, k, v, capture.Length - total)|
  {
    var want := Min(v.len, capture.Length - total);
    if want == 0 { return 0; }
    got := ReadInto(mem, k, v.base, capture, total, want);
    assert capture[..total + got] == capture[..total] + capture[total..total + got];
  }

  method NextSegment(mem: Memory, iovs: seq<Iovec>, i: nat, capture: array<byte>, total: nat) returns (total': nat)
    requires i < |iovs| && total < capture.Length
    modifies capture
    ensures total <= total' <= capture.Length
    ensures capture[..total'] + Gather(mem, i + 2, iovs[i + 1..], capture.Length - total')
         == old(capture[..total]) + Gather(mem, i + 1, iovs[i..], capture.Length - total)
  {
    GatherUnfolds(mem, i + 1, iovs, i, capture[..total], capture.Length - total);
    var got := ReadSegment(mem, i + 1, iovs[i], capture, total);
    total' := total + got;
  }

  /** The loop of capture_writev over the records it read. */
  method ReadSegments(mem: Memory, iovs: seq<Iovec>, capture: array<byte>) returns (total: nat)
    modifies capture
    ensures total <= capture.Length && capture[..total] == Gather(mem, 1, iovs, capture.Length)
  {
    var i := 0;
    total := 0;
    ghost var whole := Gather(mem, 1, iovs, capture.Length);
    while i < |iovs| && total < capture.Length
      invariant 0 <= i <= |iovs| && total <= capture.Length
      invariant whole == capture[..total] + Gather(mem, i + 1, iovs[i..], capture.Length - total)
    {
      total := NextSegment(mem, iovs, i, capture, total);
      i := i + 1;
    }
  }

  lemma GatherUnfolds(mem: Memory, k: nat, iovs: seq<Iovec>, i: nat, shown: seq<byte>, space: nat)
    requires i < |iovs| && space > 0
    ensures var piece := Piece(mem, k, iovs[i], space);
            shown + Gather(mem, k, iovs[i..], space)
            == shown + piece + Gather(mem, k + 1, iovs[i + 1..], space - |piece|)
  {
    assert iovs[i..][0] == iovs[i] && iovs[i..][1..] == iovs[i + 1..];
    var piece := Piece(mem, k, iovs[i], space);
    Reassociate(shown, piece, Gather(mem, k + 1, iovs[i + 1..], space - |piece|));
  }

  method CaptureWritev(mem: Memory, iovAddr: nat, iovcnt: nat, capture: array<byte>) returns (total: nat)
    modifies capture
    ensures total <= capture.Length
    ensures capture[..total] == WritevPreview(mem, iovAddr, iovcnt, capture.Length)
  {
    if iovcnt == 0 { return 0; }
    var iovs := Iovecs(ReadRemote(mem, 0, iovAddr, Min(iovcnt, MAX_WRITEV_IOVECS) * 16));
    total := ReadSegments(mem, iovs, capture);
  }

  // ---- What the preview means for the tracee's memory ----

  function Ram(ram: nat -> byte, addr: nat, len: nat): (r: seq<byte>)
    ensures |r| == len
  {
    seq(len, i requires 0 <= i < len => ram(addr + i))
  }

  /** Every read returns the first bytes of what is in memory there, possibly none. */
  ghost predicate Honest(mem: Memory, ram: nat -> byte) {
    forall k: nat, a: nat, n: nat :: ReadRemote(mem, k, a, n) <= Ram(ram, a, n)
  }

  /** No read inside [addr, addr + len) that starts at `addr` falls short. */
  ghost predicate Readable(mem: Memory, addr: nat, len: nat) {
    forall k: nat, n: nat :: n <= len ==> |ReadRemote(mem, k, addr, n)| == n
  }

  function Segment(ram: nat -> byte, v: Iovec): seq<byte> {
    Ram(ram, v.base, v.len)
  }

  /** The bytes a writev of these segments writes when it writes everything. */
  function Stream(ram: nat -> byte, iovs: seq<Iovec>): seq<byte> {
    if iovs == [] then [] else Segment(ram, iovs[0]) + Stream(ram, iovs[1..])
  }

  /** The iovec array as it stands in the tracee's memory. */
  function IovecsAt(ram: nat -> byte, addr: nat, count: nat): (r: seq<Iovec>)
    ensures |r| == count
  {
    Iovecs(Ram(ram, addr, count * 16))
  }

  /** `out` is made of a prefix of each segment, in segment order. */
  ghost predicate PrefixesInOrder(ram: nat -> byte, iovs: seq<Iovec>, out: seq<byte>) {
    if iovs == [] then out == []
    else exists n: nat :: n <= |out| && out[..n] <= Segment(ram, iovs[0])
                       && PrefixesInOrder(ram, iovs[1..], out[n..])
  }

  lemma {:induction false} EmptyPrefixes(ram: nat -> byte, iovs: seq<Iovec>)
    ensures PrefixesInOrder(ram, iovs, [])
  {
    if iovs != [] {
      EmptyPrefixes(ram, iovs[1..]);
      var out: seq<byte> := [];
      assert out[..0] <= Segment(ram, iovs[0]) && out[0..] == [];
    }
  }

  lemma PrefixesExtend(ram: nat -> byte, iovs: seq<Iovec>, got: seq<byte>, rest: seq<byte>)
    requires iovs != [] && got <= Segment(ram, iovs[0]) && PrefixesInOrder(ram, iovs[1..], rest)
    ensures PrefixesInOrder(ram, iovs, got + rest)
  {
    var out := got + rest;
    assert out[..|got|] == got && out[|got|..] == rest;
  }

  lemma {:induction false} GatherTakesPrefixes(mem: Memory, ram: nat -> byte, k: nat, iovs: seq<Iovec>, space: nat)
    requires Honest(mem, ram)
    ensures PrefixesInOrder(ram, iovs, Gather(mem, k, iovs, space))
    decreases |iovs|
  {
    if iovs == [] || space == 0 {
      EmptyPrefixes(ram, iovs);
    } else {
      var piece := Piece(mem, k, iovs[0], space);
      assert piece <= Ram(ram, iovs[0].base, Min(iovs[0].len, space)) <= Segment(ram, iovs[0]);
      GatherTakesPrefixes(mem, ram, k + 1, iovs[1..], space - |piece|);
      PrefixesExtend(ram, iovs, piece, Gather(mem, k + 1, iovs[1..], space - |piece|));
    }
  }

  lemma WholePiece(mem: Memory, ram: nat -> byte, k: nat, v: Iovec, space: nat)
    requires Honest(mem, ram) && Readable(mem, v.base, v.len)
    ensures Piece(mem, k, v, space) == Take(Segment(ram, v), space)
  {
    var want := Min(v.len, space);
    var piece := Piece(mem, k, v, space);
    assert |piece| == want && piece <= Ram(ram, v.base, want);
    assert piece == Segment(ram, v)[..want];
  }

  lemma TakeSplits(a: seq<byte>, b: seq<byte>, n: nat)
    ensures Take(a + b, n) == Take(a, n) + Take(b, n - Min(|a|, n))
  {
  }

  lemma {:induction false} GatherIsStreamPrefix(mem: Memory, ram: nat -> byte, k: nat, iovs: seq<Iovec>, space: nat)
    requires Honest(mem, ram)
    requires forall v | v in iovs :: Readable(mem, v.base, v.len)
    ensures Gather(mem, k, iovs, space) == Take(Stream(ram, iovs), space)
    decreases |iovs|
  {
    if iovs != [] && space != 0 {
      assert iovs[0] in iovs;
      WholePiece(mem, ram, k, iovs[0], space);
      GatherIsStreamPrefix(mem, ram, k + 1, iovs[1..], space - Min(iovs[0].len, space));
      TakeSplits(Segment(ram, iovs[0]), Stream(ram, iovs[1..]), space);
    }
  }

  lemma {:induction false} StreamSplits(ram: nat -> byte, a: seq<Iovec>, b: seq<Iovec>)
    ensures Stream(ram, a + b) == Stream(ram, a) + Stream(ram, b)
  {
    if a == [] {
      assert a + b == b;
    } else {
      assert (a + b)[0] == a[0] && (a + b)[1..] == a[1..] + b;
      StreamSplits(ram, a[1..], b);
      Reassociate(Segment(ram, a[0]), Stream(ram, a[1..]), Stream(ram, b));
    }
  }

  lemma IovecArrayPrefix(ram: nat -> byte, addr: nat, m: nat, n: nat)
    requires m <= n
    ensures IovecsAt(ram, addr, m) == IovecsAt(ram, addr, n)[..m]
  {
    var a, b := Ram(ram, addr, m * 16), Ram(ram, addr, n * 16);
    assert a == b[..m * 16];
    forall i | 0 <= i < m ensures Iovecs(a)[i] == Iovecs(b)[i] {
      assert a[16 * i..16 * i + 8] == b[16 * i..16 * i + 8];
      assert a[16 * i + 8..16 * i + 16] == b[16 * i + 8..16 * i + 16];
    }
  }

  /** With readable memory the preview is exactly the first `maxCapture` bytes of the first 16 segments. */
  lemma PreviewIsStreamPrefix(mem: Memory, ram: nat -> byte, iovAddr: nat, iovcnt: nat, maxCapture: nat)
    requires Honest(mem, ram)
    requires Readable(mem, iovAddr, Min(iovcnt, MAX_WRITEV_IOVECS) * 16)
    requires forall v | v in IovecsAt(ram, iovAddr, Min(iovcnt, MAX_WRITEV_IOVECS)) :: Readable(mem, v.base, v.len)
    ensures WritevPreview(mem, iovAddr, iovcnt, maxCapture)
         == Take(Stream(ram, IovecsAt(ram, iovAddr, Min(iovcnt, MAX_WRITEV_IOVECS))), maxCapture)
  {
    if iovcnt != 0 {
      var len := Min(iovcnt, MAX_WRITEV_IOVECS) * 16;
      assert |ReadRemote(mem, 0, iovAddr, len)| == len;
      assert ReadRemote(mem, 0, iovAddr, len) <= Ram(ram, iovAddr, len);
      assert ReadRemote(mem, 0, iovAddr, len) == Ram(ram, iovAddr, len);
      GatherIsStreamPrefix(mem, ram, 1, IovecsAt(ram, iovAddr, Min(iovcnt, MAX_WRITEV_IOVECS)), maxCapture);
    }
  }

  /** The preview and the `ret` bytes the kernel took are prefixes of one stream, so one is a prefix of the other. */
  lemma PreviewAgreesWithKernel(mem: Memory, ram: nat -> byte, iovAddr: nat, iovcnt: nat, maxCapture: nat, ret: nat)
    requires Honest(mem, ram)
    requires Readable(mem, iovAddr, Min(iovcnt, MAX_WRITEV_IOVECS) * 16)
    requires forall v | v in IovecsAt(ram, iovAddr, Min(iovcnt, MAX_WRITEV_IOVECS)) :: Readable(mem, v.base, v.len)
    requires ret <= |Stream(ram, IovecsAt(ram, iovAddr, iovcnt))|
    ensures var preview := WritevPreview(mem, iovAddr, iovcnt, maxCapture);
            var written := Stream(ram, IovecsAt(ram, iovAddr, iovcnt))[..ret];
            preview <= written || written <= preview
  {
    var shown := Min(iovcnt, MAX_WRITEV_IOVECS);
    var all := IovecsAt(ram, iovAddr, iovcnt);
    PreviewIsStreamPrefix(mem, ram, iovAddr, iovcnt, maxCapture);
    IovecArrayPrefix(ram, iovAddr, shown, iovcnt);
    StreamSplits(ram, all[..shown], all[shown..]);
    assert all == all[..shown] + all[shown..];
  }

  /** Whatever reads fail or fall short, the preview is an in-order run of segment prefixes within the limit. */
  lemma PreviewTakesPrefixes(mem: Memory, ram: nat -> byte, iovAddr: nat, iovcnt: nat, maxCapture: nat)
    requires Honest(mem, ram)
    ensures exists got: nat ::
              got <= Min(iovcnt, MAX_WRITEV_IOVECS) &&
              PrefixesInOrder(ram, IovecsAt(ram, iovAddr, got), WritevPreview(mem, iovAddr, iovcnt, maxCapture))
  {
    if iovcnt == 0 {
      EmptyPrefixes(ram, IovecsAt(ram, iovAddr, 0));
    } else {
      var count := Min(iovcnt, MAX_WRITEV_IOVECS);
      var raw := ReadRemote(mem, 0, iovAddr, count * 16);
      var got := |raw| / 16;
      assert raw <= Ram(ram, iovAddr, count * 16);
      var whole := IovecsAt(ram, iovAddr, got);
      forall i | 0 <= i < got ensures Iovecs(raw)[i] == whole[i] {
        var r := Ram(ram, iovAddr, got * 16);
        assert raw[16 * i..16 * i + 8] == r[16 * i..16 * i + 8];
        assert raw[16 * i + 8..16 * i + 16] == r[16 * i + 8..16 * i + 16];
      }
      assert Iovecs(raw) == whole;
      GatherTakesPrefixes(mem, ram, 1, whole, maxCapture);
    }
  }
}
