/** The order of a preorder walk with sorted siblings: paths compared name by name, prefixes first. */
module PathOrder {
  type Path = seq<string>

  /** Go's order on strings: by bytes, prefixes first. */
  predicate StringLess(a: string, b: string) {
    b != "" && (a == "" || a[0] < b[0] || (a[0] == b[0] && StringLess(a[1..], b[1..])))
  }

  predicate PathLess(p: Path, q: Path) {
    q != [] && (p == [] || StringLess(p[0], q[0]) || (p[0] == q[0] && PathLess(p[1..], q[1..])))
  }

  lemma {:induction false} StringLessOrder(a: string, b: string, c: string)
    ensures !StringLess(a, a)
    ensures StringLess(a, b) && StringLess(b, c) ==> StringLess(a, c)
    ensures a == b || StringLess(a, b) || StringLess(b, a)
    decreases |a| + |b| + |c|
  {
    if a != "" && b != "" && c != "" {
      StringLessOrder(a[1..], b[1..], c[1..]);
    } else if a != "" && b != "" {
      StringLessOrder(a[1..], b[1..], c);
    } else if a != "" {
      StringLessOrder(a[1..], b, c);
    }
    if a != "" && b != "" && a[0] == b[0] && a[1..] == b[1..] {
      assert a == [a[0]] + a[1..] && b == [b[0]] + b[1..];
    }
  }

  lemma {:induction false} PathLessOrder(p: Path, q: Path, r: Path)
    ensures !PathLess(p, p)
    ensures PathLess(p, q) && PathLess(q, r) ==> PathLess(p, r)
    ensures p == q || PathLess(p, q) || PathLess(q, p)
    decreases |p| + |q| + |r|
  {
    if p != [] { StringLessOrder(p[0], p[0], p[0]); }
    if p != [] && q != [] && r != [] {
      StringLessOrder(p[0], q[0], r[0]);
      PathLessOrder(p[1..], q[1..], r[1..]);
    } else if p != [] && q != [] {
      StringLessOrder(p[0], q[0], "");
      PathLessOrder(p[1..], q[1..], r);
    } else if p != [] {
      PathLessOrder(p[1..], q, r);
    }
    if p != [] && q != [] && p[0] == q[0] && p[1..] == q[1..] {
      assert p == [p[0]] + p[1..] && q == [q[0]] + q[1..];
    }
  }

  /** Everything below `p` comes after it. */
  lemma {:induction false} BelowIsAfter(p: Path, q: Path)
    requires p < q
    ensures PathLess(p, q)
  {
    if p != [] {
      assert p[0] == q[0] && p[1..] < q[1..];
      BelowIsAfter(p[1..], q[1..]);
    }
  }

  /** Subtrees of siblings are ordered as the siblings are. */
  lemma {:induction false} SiblingsApart(p: Path, a: string, b: string, q: Path, r: Path)
    requires StringLess(a, b) && p + [a] <= q && p + [b] <= r
    ensures PathLess(q, r)
  {
    if p == [] {
      assert q[0] == (p + [a])[0] && r[0] == (p + [b])[0];
    } else {
      assert (p + [a])[1..] == p[1..] + [a] && (p + [b])[1..] == p[1..] + [b];
      assert q[0] == (p + [a])[0] == p[0] && r[0] == (p + [b])[0] == p[0];
      assert p[1..] + [a] <= q[1..] && p[1..] + [b] <= r[1..];
      SiblingsApart(p[1..], a, b, q[1..], r[1..]);
    }
  }

  /** A subtree is unbroken: what comes between a path and one below it is below it too. */
  lemma {:induction false} SubtreeIsUnbroken(p: Path, q: Path, r: Path)
    requires p < r && PathLess(p, q) && PathLess(q, r)
    ensures p < q
  {
    if p != [] {
      StringLessOrder(p[0], q[0], p[0]);
      assert p[0] == r[0] && p[1..] < r[1..];
      assert p[0] == q[0];
      SubtreeIsUnbroken(p[1..], q[1..], r[1..]);
      assert p == [p[0]] + p[1..] && q == [q[0]] + q[1..];
    }
  }

  /** Siblings come in the order of their names. */
  lemma SiblingsByName(p: Path, a: string, b: string)
    ensures PathLess(p + [a], p + [b]) <==> StringLess(a, b)
  {
    StringLessOrder(a, b, a);
    if StringLess(a, b) { SiblingsApart(p, a, b, p + [a], p + [b]); }
    if StringLess(b, a) { SiblingsApart(p, b, a, p + [b], p + [a]); }
    PathLessOrder(p + [a], p + [b], p + [a]);
  }

  // ---- Ascending sequences ----

  ghost predicate Ascending(ps: seq<Path>) {
    forall i, j | 0 <= i < j < |ps| :: PathLess(ps[i], ps[j])
  }

  lemma AscendingAppend(a: seq<Path>, b: seq<Path>)
    requires Ascending(a) && Ascending(b)
    requires forall p, q | p in a && q in b :: PathLess(p, q)
    ensures Ascending(a + b)
  {
  }

  /** An ascending sequence is determined by its elements. */
  lemma {:induction false} AscendingUnique(a: seq<Path>, b: seq<Path>)
    requires Ascending(a) && Ascending(b)
    requires forall p :: p in a <==> p in b
    ensures a == b
  {
    if a == [] {
      assert forall i | 0 <= i < |b| :: b[i] in b;
    } else {
      assert a[0] in a && a[0] in b;
      assert b[0] in a;
      FirstIsLeast(a, b[0]);
      FirstIsLeast(b, a[0]);
      PathLessOrder(a[0], b[0], a[0]);
      assert a[0] == b[0];
      forall p ensures p in a[1..] <==> p in b[1..] {
        InTail(a, p);
        InTail(b, p);
      }
      AscendingUnique(a[1..], b[1..]);
      assert a == [a[0]] + a[1..] && b == [b[0]] + b[1..];
    }
  }

  lemma FirstIsLeast(a: seq<Path>, p: Path)
    requires Ascending(a) && p in a
    ensures p == a[0] || PathLess(a[0], p)
  {
  }

  lemma InTail(a: seq<Path>, p: Path)
    requires Ascending(a) && a != []
    ensures p in a[1..] <==> p in a && p != a[0]
  {
    PathLessOrder(a[0], a[0], a[0]);
  }

  /** A path keeps its index when nothing in front of it comes or goes. */
  lemma SameIndex(a: seq<Path>, b: seq<Path>, i: nat)
    requires Ascending(a) && Ascending(b) && i < |a| && a[i] in b
    requires forall q | PathLess(q, a[i]) :: q in a <==> q in b
    ensures i < |b| && b[i] == a[i]
  {
    var j :| 0 <= j < |b| && b[j] == a[i];
    forall q ensures q in a[..i] <==> q in b[..j] {
      InFront(a, i, q);
      InFront(b, j, q);
    }
    AscendingUnique(a[..i], b[..j]);
  }

  lemma InFront(a: seq<Path>, i: nat, q: Path)
    requires Ascending(a) && i < |a|
    ensures q in a[..i] <==> q in a && PathLess(q, a[i])
  {
    if q in a && PathLess(q, a[i]) {
      var k :| 0 <= k < |a| && a[k] == q;
      PathLessOrder(a[i], q, a[i]);
      assert k < i;
    }
  }
}
