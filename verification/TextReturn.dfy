/** When a text comes back from the client as it was: the daemon's bounded escaping (protocol.c) and the client's repair
    of bytes that are not UTF-8 together. */
module TextReturn {
  import opened JsonString

  // ---- What the repair makes ----

  lemma {:induction false} FirstLengthLocal(x: string, m: nat)
    requires x != "" && FirstLength(x) != 0 && FirstLength(x) <= m <= |x|
    ensures FirstLength(x[..m]) == FirstLength(x)
  {
    var y := x[..m];
    assert forall i: nat, lo, hi | i < m :: InRange(y, i, lo, hi) == InRange(x, i, lo, hi);
  }

  lemma {:induction false} FirstLengthOfSum(a: string, b: string)
    requires a != "" && FirstLength(a) != 0
    ensures FirstLength(a + b) == FirstLength(a)
  {
    var y := a + b;
    assert forall i: nat, lo, hi | i < |a| :: InRange(y, i, lo, hi) == InRange(a, i, lo, hi);
  }

  lemma {:induction false} RepairIsUtf8(y: string)
    ensures ValidUtf8(Repair(y))
    decreases |y|
  {
    if y != "" {
      var k := FirstLength(y);
      var head, rest := if k == 0 then REPLACEMENT else y[..k], if k == 0 then y[1..] else y[k..];
      RepairIsUtf8(rest);
      if k != 0 { FirstLengthLocal(y, k); }
      FirstLengthOfSum(head, Repair(rest));
      assert (head + Repair(rest))[|head|..] == Repair(rest);
    }
  }

  // ---- What the buffer loses ----

  /** Once six bytes do not fit, no control byte that needs them is kept. */
  lemma {:induction false} NoRoomForControls(x: string, o: nat, size: nat)
    requires o + 6 >= size
    ensures forall c | c in Kept(x, o, size) :: !IsOtherControl(c)
  {
    if x != "" && o + 2 < size && o + Need(x[0]) < size {
      NoRoomForControls(x[1..], o + |EscapeByte(x[0])|, size);
    } else if x != "" && o + 2 < size {
      NoRoomForControls(x[1..], o, size);
    }
  }

  lemma {:induction false} HeadBack(x: string, k: nat, rest: string)
    requires 0 < k <= |x|
    ensures x[1..][k - 1..] == x[k..] && [x[0]] + (x[1..][..k - 1] + rest) == x[..k] + rest
  {
  }

  lemma {:induction false} KeptHighByte(x: string, o: nat, size: nat)
    requires x != "" && x[0] as int >= 0x80 && Kept(x, o, size) != ""
    ensures Kept(x, o, size) == [x[0]] + Kept(x[1..], o + 1, size)
  {
  }

  predicate HighBytes(x: string, k: nat)
    requires k <= |x|
  {
    forall i | 0 <= i < k :: x[i] as int >= 0x80
  }

  lemma {:induction false} HighBytesTail(x: string, k: nat)
    requires 0 < k <= |x| && HighBytes(x, k)
    ensures x[0] as int >= 0x80 && HighBytes(x[1..], k - 1)
  {
  }

  /** High bytes are kept one by one until the text ends. */
  lemma {:induction false} KeptPassesHighBytes(x: string, o: nat, size: nat, k: nat)
    requires k <= |Kept(x, o, size)| && k <= |x| && HighBytes(x, k)
    ensures Kept(x, o, size) == x[..k] + Kept(x[k..], o + k, size)
    decreases k
  {
    if k == 0 {
      assert x[0..] == x && x[..0] + Kept(x, o, size) == Kept(x, o, size);
    } else {
      HighBytesTail(x, k);
      KeptHighByte(x, o, size);
      KeptPassesHighBytes(x[1..], o + 1, size, k - 1);
      HeadBack(x, k, Kept(x[k..], o + k, size));
    }
  }

  /** The text is cut inside a last replacement character, or behind two bytes of the one before the last: the client
      puts as many replacement characters for the fragment as the text has there. */
  predicate CutInReplacement(x: string, y: string) {
    CutBefore(x, y, 1, REPLACEMENT) || CutBefore(x, y, 2, REPLACEMENT + REPLACEMENT)
  }

  predicate CutBefore(x: string, y: string, n: nat, tail: string) {
    n <= |y| < |x| && y == x[..|y|] && x[|y| - n..] == tail
  }

  /** All of `x` was kept, or it was cut where the client puts back what is missing. */
  predicate SameOrCut(x: string, y: string) {
    y == x || CutInReplacement(x, y)
  }

  lemma {:induction false} SameOrCutBehind(head: string, x: string, y: string)
    requires SameOrCut(x, y)
    ensures SameOrCut(head + x, head + y)
  {
    if y != x {
      var n, tail := if CutBefore(x, y, 1, REPLACEMENT) then 1 else 2,
                     if CutBefore(x, y, 1, REPLACEMENT) then REPLACEMENT else REPLACEMENT + REPLACEMENT;
      assert (head + x)[..|head + y|] == head + x[..|y|];
      assert (head + x)[|head + y| - n..] == x[|y| - n..];
      assert CutBefore(head + x, head + y, n, tail);
    }
  }

  lemma {:induction false} RepairStep(y: string)
    requires y != ""
    ensures FirstLength(y) != 0 ==> Repair(y) == y[..FirstLength(y)] + Repair(y[FirstLength(y)..])
    ensures FirstLength(y) == 0 ==> Repair(y) == REPLACEMENT + Repair(y[1..]) && y[0] as int >= 0x80
  {
  }

  lemma {:induction false} NotReplacement(y: string)
    requires |y| >= 3 && FirstLength(y) == 0
    ensures y[..3] != REPLACEMENT
  {
    assert y[..3][0] == y[0] && y[..3][1] == y[1] && y[..3][2] == y[2];
  }

  lemma {:induction false} RepairOfFragment(n: nat)
    requires 1 <= n <= 2
    ensures Repair((REPLACEMENT + REPLACEMENT)[..n]) == if n == 1 then REPLACEMENT else REPLACEMENT + REPLACEMENT
  {
    var y := (REPLACEMENT + REPLACEMENT)[..n];
    assert y == if n == 1 then [0xEF as char] else [0xEF as char, 0xBF as char];
    RepairStep(y);
    assert y[1..] == if n == 1 then "" else [0xBF as char];
    if n == 2 {
      RepairStep(y[1..]);
      assert y[1..][1..] == "";
    }
  }

  lemma {:induction false} FrontsAgree(x: string, n: nat)
    requires |x| >= 3 && x[..3] == REPLACEMENT && n <= 2
    ensures x[..n] == (REPLACEMENT + REPLACEMENT)[..n]
  {
    assert x[..n] == x[..3][..n];
  }

  lemma {:induction false} WholeIsCut(x: string, y: string, n: nat)
    requires |y| == n < |x| && y == x[..n]
    ensures CutBefore(x, y, n, x)
  {
    assert x[0..] == x;
  }

  lemma {:induction false} FragmentShape(x: string, y: string)
    requires 1 <= |y| <= 2 && Repair(y) == x && |x| >= 3 && x[..3] == REPLACEMENT && y == x[..|y|]
    ensures SameOrCut(x, y)
  {
    FrontsAgree(x, |y|);
    RepairOfFragment(|y|);
    WholeIsCut(x, y, |y|);
  }

  /** A fragment at the front that comes back as it was is the beginning of a last replacement character or two. */
  lemma {:induction false} FragmentReturned(x: string, o: nat, size: nat)
    requires var y := Kept(x, o, size); y != "" && FirstLength(y) == 0 && Repair(y) == x
    requires x[0] == Kept(x, o, size)[0] && x[0] as int >= 0x80
    ensures SameOrCut(x, Kept(x, o, size))
  {
    var y := Kept(x, o, size);
    FrontOfRepair(x, y);
    if |y| >= 3 { NotReplacement(y); }
    assert HighBytes(x, 3);
    KeptPassesHighBytes(x, o, size, if |y| < 3 then |y| else 3);
    FragmentShape(x, y);
  }

  lemma {:induction false} FrontOfRepair(x: string, y: string)
    requires y != "" && FirstLength(y) == 0 && Repair(y) == x
    ensures |x| >= 3 && x[..3] == REPLACEMENT && forall i | 0 <= i < 3 :: x[i] as int >= 0x80
  {
    RepairStep(y);
    assert forall i | 0 <= i < 3 :: x[i] == x[..3][i];
  }

  lemma {:induction false} ReturnedMeansKept(x: string, o: nat, size: nat)
    requires Repair(Kept(x, o, size)) == x
    ensures SameOrCut(x, Kept(x, o, size))
    decreases |x|
  {
    var y := Kept(x, o, size);
    if y != "" {
      RepairStep(y);
      assert y[0] in y;
      var k := FirstLength(y);
      if o + Need(x[0]) >= size {
        NoRoomForControls(x, o, size);
      } else if k == 0 {
        FragmentReturned(x, o, size);
      } else {
        SplitAt(x, y[..k], Repair(y[k..]));
        var o' := KeptBehindRune(x, o, size, k);
        ReturnedMeansKept(x[k..], o', size);
        SameOrCutBehind(x[..k], x[k..], y[k..]);
      }
    }
  }

  lemma {:induction false} SplitAt(x: string, a: string, b: string)
    requires x == a + b
    ensures x[..|a|] == a && x[|a|..] == b
  {
  }

  lemma {:induction false} KeptBehindRune(x: string, o: nat, size: nat, k: nat) returns (o': nat)
    requires var y := Kept(x, o, size);
             y != "" && k == FirstLength(y) > 0 && k <= |x| && x[..k] == y[..k] && o + Need(x[0]) < size
    ensures var y := Kept(x, o, size);
            y[k..] == Kept(x[k..], o', size) && x == x[..k] + x[k..] && y == x[..k] + y[k..]
  {
    var y := Kept(x, o, size);
    o' := if k == 1 then o + |EscapeByte(x[0])| else o + k;
    if k > 1 {
      assert forall i | 0 <= i < k :: x[i] == x[..k][i] == y[i];
      assert HighBytes(x, k);
      KeptPassesHighBytes(x, o, size, k);
    }
  }

  // ---- What comes back ----

  lemma {:induction false} BehindFront(z: string, t: string, k: nat)
    requires k <= |z|
    ensures (z + t)[..k] == z[..k] && (z + t)[k..] == z[k..] + t && z[..k] + (z[k..] + t) == z + t
  {
  }

  /** UTF-8 at the front is left alone. */
  lemma {:induction false} RepairSplits(a: string, b: string)
    requires ValidUtf8(a)
    ensures Repair(a + b) == a + Repair(b)
    decreases |a|
  {
    if a == "" {
      assert a + b == b;
    } else {
      var k := FirstLength(a);
      FirstLengthOfSum(a, b);
      RepairStep(a + b);
      BehindFront(a, b, k);
      RepairSplits(a[k..], b);
      BehindFront(a, Repair(b), k);
    }
  }

  /** What stands in front of a rune in UTF-8 is UTF-8. */
  lemma {:induction false} FrontIsUtf8(z: string, tail: string)
    requires ValidUtf8(z + tail) && tail != "" && tail[0] == 0xEF as char
    ensures ValidUtf8(z)
    decreases |z|
  {
    if z != "" {
      var k := FirstLength(z + tail);
      assert (z + tail)[|z|] == 0xEF as char;
      RuneBefore(z + tail, |z|);
      FirstLengthLocal(z + tail, |z|);
      assert (z + tail)[..|z|] == z;
      BehindFront(z, tail, k);
      FrontIsUtf8(z[k..], tail);
    }
  }

  lemma {:induction false} RuneBefore(x: string, at: nat)
    requires ValidUtf8(x) && 0 < at < |x| && x[at] == 0xEF as char
    ensures 0 < FirstLength(x) <= at && ValidUtf8(x[FirstLength(x)..])
  {
  }

  lemma {:induction false} CutAsSum(x: string, y: string, n: nat, tail: string)
    requires CutBefore(x, y, n, tail) && n <= |tail|
    ensures var z := x[..|y| - n]; x == z + tail && y == z + tail[..n]
  {
  }

  lemma {:induction false} CutComesBack(x: string, y: string, n: nat)
    requires ValidUtf8(x) && 1 <= n <= 2
    requires CutBefore(x, y, n, if n == 1 then REPLACEMENT else REPLACEMENT + REPLACEMENT)
    ensures Repair(y) == x
  {
    var twice := REPLACEMENT + REPLACEMENT;
    var tail := if n == 1 then REPLACEMENT else twice;
    RepairOfFragment(n);
    assert twice[..n] == tail[..n];
    CutAsSum(x, y, n, tail);
    FrontIsUtf8(x[..|y| - n], tail);
    RepairSplits(x[..|y| - n], tail[..n]);
  }

  // ---- In terms of the room ----

  /** There is room before each of the first `m` bytes, and before the next one there is none. */
  predicate FullAt(x: string, o: nat, size: nat, m: nat)
    requires m <= |x|
  {
    (forall i | 0 <= i < m :: RoomBefore(x, o, size, i)) && (m < |x| ==> !RoomBefore(x, o, size, m))
  }

  lemma FullAtTail(x: string, o: nat, size: nat, m: nat)
    requires 0 < m <= |x| && RoomBefore(x, o, size, 0)
    ensures FullAt(x, o, size, m) <==> FullAt(x[1..], o + |EscapeByte(x[0])|, size, m - 1)
  {
    var rest, o' := x[1..], o + |EscapeByte(x[0])|;
    forall i | 0 < i < |x| ensures RoomBefore(x, o, size, i) <==> RoomBefore(rest, o', size, i - 1) {
      RoomBeforeTail(x, o, size, i);
    }
    if FullAt(x, o, size, m) {
      forall i | 0 <= i < m - 1 ensures RoomBefore(rest, o', size, i) { assert RoomBefore(x, o, size, i + 1); }
    }
  }

  lemma NothingOfFront(x: string, o: nat, size: nat, m: nat)
    requires 0 < m <= |x| && o + Need(x[0]) >= size
    ensures Kept(x, o, size) != x[..m]
  {
    if IsOtherControl(x[0]) { NoRoomForControls(x, o, size); }
    assert x[..m][0] == x[0] && x[0] in x[..m];
  }

  /** The buffer keeps exactly the bytes in front of `m` when that is where the room ends. */
  lemma {:induction false} KeptFront(x: string, o: nat, size: nat, m: nat)
    requires m < |x| && !IsOtherControl(x[m])
    ensures Kept(x, o, size) == x[..m] <==> FullAt(x, o, size, m)
    decreases m
  {
    assert x[..0] == "" && Escape(x[..0]) == "";
    assert RoomBefore(x, o, size, 0) <==> o + Need(x[0]) < size;
    if m > 0 {
      if o + Need(x[0]) < size {
        FullAtTail(x, o, size, m);
        KeptFront(x[1..], o + |EscapeByte(x[0])|, size, m - 1);
        assert x[..m][1..] == x[1..][..m - 1];
        HeadSame(x[0], Kept(x[1..], o + |EscapeByte(x[0])|, size), x[..m]);
      } else {
        NothingOfFront(x, o, size, m);
      }
    }
  }

  /** `x` ends in `tail`, and the room ends behind the first `n` bytes of it. */
  predicate FullInside(x: string, size: nat, n: nat, tail: string)
    requires n < |tail|
  {
    |tail| <= |x| && x[|x| - |tail|..] == tail && FullAt(x, 0, size, |x| - |tail| + n)
  }

  /** There is room for all of `x`, or for all but the rest of a last replacement character, or of the last two. */
  predicate EnoughRoom(x: string, size: nat) {
    || FullAt(x, 0, size, |x|)
    || FullInside(x, size, 1, REPLACEMENT) || FullInside(x, size, 2, REPLACEMENT + REPLACEMENT)
  }

  lemma CutWhereFull(x: string, size: nat, n: nat, tail: string)
    requires n < |tail| && !IsOtherControl(tail[n])
    ensures FullInside(x, size, n, tail) <==> CutBefore(x, Kept(x, 0, size), n, tail)
  {
    var m, y := |x| - |tail| + n, Kept(x, 0, size);
    if |tail| <= |x| && x[|x| - |tail|..] == tail {
      assert x[m] == x[|x| - |tail|..][n] == tail[n];
      KeptFront(x, 0, size, m);
    }
  }

  lemma RoomMeansKept(x: string, size: nat)
    ensures EnoughRoom(x, size) <==> SameOrCut(x, Kept(x, 0, size))
  {
    KeptWhole(x, 0, size);
    CutWhereFull(x, size, 1, REPLACEMENT);
    CutWhereFull(x, size, 2, REPLACEMENT + REPLACEMENT);
  }

  /** The client has the text as it was if and only if it is UTF-8 and there is room in the buffer for all of it, or for
      all but the rest of a last replacement character (or of the last two). */
  lemma {:induction false} TextComesBack(x: string, size: nat)
    ensures Repair(Kept(x, 0, size)) == x <==> ValidUtf8(x) && EnoughRoom(x, size)
  {
    var y := Kept(x, 0, size);
    RoomMeansKept(x, size);
    if Repair(y) == x {
      RepairIsUtf8(y);
      ReturnedMeansKept(x, 0, size);
    }
    if ValidUtf8(x) && SameOrCut(x, y) {
      RepairIsIdentity(x);
      if y != x { CutComesBack(x, y, if CutBefore(x, y, 1, REPLACEMENT) then 1 else 2); }
    }
  }
}
