/** The path tree (client.go, BuildPathTree): a mutable trie with child maps made on demand, against the flat list. */
module PathTree {
  import opened Words
  import opened EntryWire
  import opened PathOrder

  // ---- Paths ----

  /** strings.Trim(s, "/"). */
  function TrimSlashes(s: string): (r: string)
    ensures r == "" || (r[0] != '/' && r[|r| - 1] != '/')
  {
    if s != "" && s[0] == '/' then TrimSlashes(s[1..])
    else if s != "" && s[|s| - 1] == '/' then TrimSlashes(s[..|s| - 1])
    else s
  }

  function FirstSlash(s: string): (k: nat)
    ensures k <= |s| && (k < |s| ==> s[k] == '/') && '/' !in s[..k]
  {
    if s == "" || s[0] == '/' then 0 else 1 + FirstSlash(s[1..])
  }

  /** strings.Split(s, "/"). */
  function Split(s: string): (parts: seq<string>)
    ensures parts != []
    decreases |s|
  {
    var k := FirstSlash(s);
    if k == |s| then [s] else [s[..k]] + Split(s[k + 1..])
  }

  function NonEmpty(parts: seq<string>): Path {
    if parts == [] then [] else OnePart(parts[0]) + NonEmpty(parts[1..])
  }

  function OnePart(part: string): Path {
    if part == "" then [] else [part]
  }

  /** The names BuildPathTree walks through for a path. */
  function Normalised(path: string): Path {
    NonEmpty(Split(TrimSlashes(path)))
  }

  /** The same without trimming: the runs of characters between slashes. */
  function Components(s: string): Path
    decreases |s|
  {
    if s == "" then []
    else if s[0] == '/' then Components(s[1..])
    else
      var k := FirstSlash(s);
      [s[..k]] + Components(s[k..])
  }

  lemma {:induction false} SplitIsComponents(s: string)
    ensures NonEmpty(Split(s)) == Components(s)
    decreases |s|
  {
    var k := FirstSlash(s);
    if k < |s| {
      SplitIsComponents(s[k + 1..]);
      assert s[k..][0] == '/' && s[k..][1..] == s[k + 1..];
      assert Split(s) == [s[..k]] + Split(s[k + 1..]);
      assert Split(s)[1..] == Split(s[k + 1..]);
    } else {
      assert s[..k] == s && s[k..] == "" && [s][1..] == [];
    }
  }

  lemma {:induction false} TrailingSlash(s: string)
    ensures Components(s + "/") == Components(s)
    decreases |s|
  {
    var t := s + "/";
    if s == "" {
      assert t[1..] == "";
    } else if s[0] == '/' {
      assert t[1..] == s[1..] + "/";
      TrailingSlash(s[1..]);
    } else {
      var k := FirstSlash(s);
      FirstSlashOf(s[..k], s[k..] + "/");
      assert t == s[..k] + (s[k..] + "/");
      TrailingSlash(s[k..]);
    }
  }

  lemma {:induction false} FirstSlashOf(a: string, b: string)
    requires '/' !in a && (b == "" || b[0] == '/')
    ensures FirstSlash(a + b) == |a| && (a + b)[..|a|] == a && (a + b)[|a|..] == b
  {
    if a == "" {
      assert a + b == b;
    } else {
      assert a[0] in a && (a + b)[1..] == a[1..] + b;
      FirstSlashOf(a[1..], b);
    }
  }

  /** Trimming and dropping empty parts leaves exactly the components of the path. */
  lemma {:induction false} NormalisedIsComponents(path: string)
    ensures Normalised(path) == Components(path)
    decreases |path|
  {
    if path != "" && path[0] == '/' {
      NormalisedIsComponents(path[1..]);
    } else if path != "" && path[|path| - 1] == '/' {
      NormalisedIsComponents(path[..|path| - 1]);
      TrailingSlash(path[..|path| - 1]);
      assert path == path[..|path| - 1] + "/";
    } else {
      SplitIsComponents(path);
    }
  }

  /** Only empty and all-slash paths have no components. */
  lemma OnlySlashesAreDropped(path: string)
    ensures Normalised(path) == [] <==> forall i | 0 <= i < |path| :: path[i] == '/'
  {
    NormalisedIsComponents(path);
    ComponentsOfSlashes(path);
  }

  lemma {:induction false} ComponentsOfSlashes(s: string)
    ensures Components(s) == [] <==> forall i | 0 <= i < |s| :: s[i] == '/'
  {
    if s != "" && s[0] == '/' {
      ComponentsOfSlashes(s[1..]);
      assert forall i | 1 <= i < |s| :: s[i] == s[1..][i - 1];
    }
  }

  // ---- The tree as a value ----

  /** What is at each path, and which paths have a child map. */
  datatype Shape = Shape(files: map<Path, seq<HiddenEntry>>, dirs: set<Path>)

  const EMPTY_SHAPE := Shape(map[[] := []], {[]})

  function FilesAt(s: Shape, p: Path): seq<HiddenEntry> {
    if p in s.files then s.files[p] else []
  }

  function EnterDir(s: Shape, p: Path): Shape {
    Shape(s.files[p := FilesAt(s, p)], s.dirs + {p})
  }

  function AddFile(s: Shape, p: Path, e: HiddenEntry): Shape {
    s.(files := s.files[p := FilesAt(s, p) + [e]])
  }

  /** Enters the first `d` names of `q`, one below the other. */
  function EnterDirs(s: Shape, q: Path, d: nat): Shape
    requires d <= |q|
  {
    if d == 0 then s else EnterDir(EnterDirs(s, q, d - 1), q[..d])
  }

  function InsertAt(s: Shape, q: Path, e: HiddenEntry): Shape {
    if q == [] then s else AddFile(EnterDirs(s, q, |q| - 1), q, e)
  }

  function Insert(s: Shape, e: HiddenEntry): Shape {
    InsertAt(s, Normalised(e.path), e)
  }

  function BuildShape(es: seq<HiddenEntry>): Shape {
    if es == [] then EMPTY_SHAPE else Insert(BuildShape(es[..|es| - 1]), es[|es| - 1])
  }

  // ---- What the tree says about the list ----

  function EntriesAt(es: seq<HiddenEntry>, p: Path): seq<HiddenEntry> {
    if es == [] then []
    else EntriesAt(es[..|es| - 1], p) + if Normalised(es[|es| - 1].path) == p then [es[|es| - 1]] else []
  }

  ghost predicate IsPrefixOfSome(es: seq<HiddenEntry>, p: Path) {
    exists i :: 0 <= i < |es| && p <= Normalised(es[i].path)
  }

  ghost predicate IsProperPrefixOfSome(es: seq<HiddenEntry>, p: Path) {
    exists i :: 0 <= i < |es| && p < Normalised(es[i].path)
  }

  lemma {:induction false} EnterDirsEffect(s: Shape, q: Path, d: nat, p: Path)
    requires d <= |q|
    ensures p in EnterDirs(s, q, d).files <==> p in s.files || (p != [] && p <= q[..d])
    ensures p in EnterDirs(s, q, d).dirs <==> p in s.dirs || (p != [] && p <= q[..d])
    ensures FilesAt(EnterDirs(s, q, d), p) == FilesAt(s, p)
  {
    if d > 0 {
      EnterDirsEffect(s, q, d - 1, p);
      assert p != [] && p <= q[..d] <==> p == q[..d] || (p != [] && p <= q[..d - 1]) by {
        if p <= q[..d] && |p| < d { assert p == q[..d][..|p|] == q[..d - 1][..|p|]; }
      }
    }
  }

  lemma PrefixSteps(p: Path, q: Path)
    requires q != []
    ensures p <= q <==> p == q || p <= q[..|q| - 1]
    ensures p < q <==> p <= q[..|q| - 1]
  {
    if p <= q && p != q { assert p == q[..|p|] == q[..|q| - 1][..|p|]; }
  }

  lemma InsertEffect(s: Shape, e: HiddenEntry, p: Path)
    requires p != []
    ensures var q, t := Normalised(e.path), Insert(s, e);
            && (p in t.files <==> p in s.files || p <= q)
            && (p in t.dirs <==> p in s.dirs || p < q)
            && FilesAt(t, p) == FilesAt(s, p) + if p == q then [e] else []
  {
    var q := Normalised(e.path);
    if q != [] {
      EnterDirsEffect(s, q, |q| - 1, p);
      EnterDirsEffect(s, q, |q| - 1, q);
      PrefixSteps(p, q);
    }
  }

  lemma PrefixOfSomeSteps(es: seq<HiddenEntry>, p: Path)
    requires es != []
    ensures var n := |es| - 1;
            IsPrefixOfSome(es, p) <==> IsPrefixOfSome(es[..n], p) || p <= Normalised(es[n].path)
  {
    var rest := es[..|es| - 1];
    forall i | 0 <= i < |rest| ensures Normalised(rest[i].path) == Normalised(es[i].path) {
      assert rest[i] == es[i];
    }
  }

  lemma ProperPrefixOfSomeSteps(es: seq<HiddenEntry>, p: Path)
    requires es != []
    ensures var n := |es| - 1;
            IsProperPrefixOfSome(es, p) <==> IsProperPrefixOfSome(es[..n], p) || p < Normalised(es[n].path)
  {
    var rest := es[..|es| - 1];
    forall i | 0 <= i < |rest| ensures Normalised(rest[i].path) == Normalised(es[i].path) {
      assert rest[i] == es[i];
    }
  }

  /** A node exists at `p` exactly when `p` is a nonempty prefix of an entry's path, it has a child map exactly when
      `p` is a proper prefix, and it holds exactly the entries with that path, in list order. */
  lemma {:induction false} TreeAgreesWithList(es: seq<HiddenEntry>, p: Path)
    requires p != []
    ensures p in BuildShape(es).files <==> IsPrefixOfSome(es, p)
    ensures p in BuildShape(es).dirs <==> IsProperPrefixOfSome(es, p)
    ensures FilesAt(BuildShape(es), p) == EntriesAt(es, p)
  {
    if es != [] {
      var n := |es| - 1;
      TreeAgreesWithList(es[..n], p);
      InsertEffect(BuildShape(es[..n]), es[n], p);
      PrefixOfSomeSteps(es, p);
      ProperPrefixOfSomeSteps(es, p);
    }
  }

  /** The root has a child map and no entries, whatever the list. */
  lemma {:induction false} RootStays(es: seq<HiddenEntry>)
    ensures var s := BuildShape(es); [] in s.dirs && [] in s.files && s.files[[]] == []
  {
    if es != [] {
      RootStays(es[..|es| - 1]);
      var s, e := BuildShape(es[..|es| - 1]), es[|es| - 1];
      var q := Normalised(e.path);
      if q != [] { EnterDirsEffect(s, q, |q| - 1, []); }
    }
  }

  // ---- The tree in memory ----

  class TreeNode {
    const name: string
    var children: Option<map<string, TreeNode>>
    var entries: seq<HiddenEntry>

    constructor (name: string, children: Option<map<string, TreeNode>>)
      ensures this.name == name && this.children == children && entries == []
    {
      this.name, this.children, entries := name, children, [];
    }
  }

  /** A node's fields, as a value. */
  datatype Fields = Fields(name: string, children: Option<map<string, TreeNode>>, entries: seq<HiddenEntry>)

  ghost function FieldsOf(nodes: map<Path, TreeNode>): map<Path, Fields>
    reads nodes.Values
  {
    map p | p in nodes :: Fields(nodes[p].name, nodes[p].children, nodes[p].entries)
  }

  ghost predicate Injective(nodes: map<Path, TreeNode>) {
    forall p, q | p in nodes && q in nodes && nodes[p] == nodes[q] :: p == q
  }

  /** The child that `f`, the fields at `p`, has under `name`, is the node at p + [name]; and no other node is there. */
  ghost predicate ChildMatches(nodes: map<Path, TreeNode>, p: Path, f: Fields, name: string) {
    if f.children.Some? && name in f.children.value
    then p + [name] in nodes && nodes[p + [name]] == f.children.value[name]
    else p + [name] !in nodes
  }

  /** Child maps and paths say the same. */
  ghost predicate LinksMatch(nodes: map<Path, TreeNode>, fields: map<Path, Fields>) {
    && nodes.Keys == fields.Keys && [] in nodes
    && (forall p {:trigger fields[p]} | p in nodes && p != [] ::
          p[..|p| - 1] in nodes && fields[p].name == p[|p| - 1])
    && (forall p, name | p in nodes :: ChildMatches(nodes, p, fields[p], name))
  }

  /** `nodes` names every node of the tree below `root` by its path. */
  ghost predicate Linked(root: TreeNode, nodes: map<Path, TreeNode>)
    reads nodes.Values
  {
    Injective(nodes) && LinksMatch(nodes, FieldsOf(nodes)) && nodes[[]] == root
  }

  ghost function ShapeOfFields(fields: map<Path, Fields>): Shape {
    Shape(map p | p in fields :: fields[p].entries, set p | p in fields && fields[p].children.Some?)
  }

  ghost function ShapeOf(nodes: map<Path, TreeNode>): Shape
    reads nodes.Values
  {
    ShapeOfFields(FieldsOf(nodes))
  }

  lemma ShapeUpdate(fields: map<Path, Fields>, q: Path, f: Fields)
    ensures var s, t := ShapeOfFields(fields), ShapeOfFields(fields[q := f]);
            t.files == s.files[q := f.entries] && t.dirs == if f.children.Some? then s.dirs + {q} else s.dirs - {q}
  {
  }

  lemma ExistingChild(nodes: map<Path, TreeNode>, fields: map<Path, Fields>, p: Path, part: string)
    requires LinksMatch(nodes, fields) && p in nodes
    requires fields[p].children.Some? && part in fields[p].children.value
    ensures p + [part] in nodes && nodes[p + [part]] == fields[p].children.value[part]
  {
    assert ChildMatches(nodes, p, fields[p], part);
  }

  /** Giving a node its missing child map, or an entry, keeps the links. */
  lemma UpdateKeepsLinks(nodes: map<Path, TreeNode>, fields: map<Path, Fields>, q: Path, f: Fields)
    requires LinksMatch(nodes, fields) && q in nodes && f.name == fields[q].name
    requires f.children == fields[q].children || (fields[q].children.None? && f.children == Some(map[]))
    ensures LinksMatch(nodes, fields[q := f])
  {
    var fields' := fields[q := f];
    forall p, name | p in nodes ensures ChildMatches(nodes, p, fields'[p], name) {
      assert ChildMatches(nodes, p, fields[p], name);
    }
  }

  /** Hanging a new, childless node below `p` keeps the links. */
  lemma NewChildKeepsLinks(nodes: map<Path, TreeNode>, fields: map<Path, Fields>, p: Path, part: string,
                           child: TreeNode, f: Fields, f': Fields)
    requires LinksMatch(nodes, fields) && p in nodes
    requires fields[p].children.Some? && part !in fields[p].children.value
    requires f == fields[p].(children := Some(fields[p].children.value[part := child]))
    requires f'.name == part && (f'.children.None? || f'.children == Some(map[]))
    ensures p + [part] !in nodes
    ensures LinksMatch(nodes[p + [part] := child], fields[p := f][p + [part] := f'])
  {
    var q := p + [part];
    assert ChildMatches(nodes, p, fields[p], part);
    var nodes', fields' := nodes[q := child], fields[p := f][q := f'];
    forall r, name | r in nodes' ensures ChildMatches(nodes', r, fields'[r], name) {
      if r == q {
        assert (q + [name])[..|q + [name]| - 1] == q;
      } else {
        assert ChildMatches(nodes, r, fields[r], name);
        if r + [name] == q {
          assert r == (r + [name])[..|r|] == q[..|p|] == p && name == part;
        }
      }
    }
    assert q[..|q| - 1] == p;
  }

  lemma NewChildStaysInjective(nodes: map<Path, TreeNode>, q: Path, child: TreeNode)
    requires Injective(nodes) && child !in nodes.Values
    ensures Injective(nodes[q := child])
  {
  }

  /** The tree with a node at `q`, whatever was there, or a new empty one. */
  ghost function WithChild(s: Shape, q: Path, asDir: bool): Shape {
    if q in s.files then s else Shape(s.files[q := []], if asDir then s.dirs + {q} else s.dirs)
  }

  lemma ShapeWithNewChild(fields: map<Path, Fields>, p: Path, q: Path, f: Fields, f': Fields)
    requires p in fields && q !in fields
    requires f.entries == fields[p].entries && f.children.Some? && fields[p].children.Some? && f'.entries == []
    ensures ShapeOfFields(fields[p := f][q := f']) == WithChild(ShapeOfFields(fields), q, f'.children.Some?)
  {
    ShapeUpdate(fields, p, f);
    ShapeUpdate(fields[p := f], q, f');
    var s := ShapeOfFields(fields);
    assert s.files[p := f.entries] == s.files && s.dirs + {p} == s.dirs && s.dirs - {q} == s.dirs;
  }

  lemma FieldsAfterUpdate(nodes: map<Path, TreeNode>, fields: map<Path, Fields>, q: Path, f: Fields)
    requires Injective(nodes) && q in nodes && fields.Keys == nodes.Keys
    requires Fields(nodes[q].name, nodes[q].children, nodes[q].entries) == f
    requires forall r | r in nodes && nodes[r] != nodes[q] ::
               Fields(nodes[r].name, nodes[r].children, nodes[r].entries) == fields[r]
    ensures FieldsOf(nodes) == fields[q := f]
  {
  }

  lemma FieldsWithNode(nodes: map<Path, TreeNode>, q: Path, child: TreeNode)
    requires q !in nodes
    ensures FieldsOf(nodes[q := child]) == FieldsOf(nodes)[q := Fields(child.name, child.children, child.entries)]
  {
  }

  /** A new child of `node`, which has none of that name. */
  method MakeChild(root: TreeNode, ghost nodes: map<Path, TreeNode>, node: TreeNode, ghost p: Path, part: string,
                   newChildren: Option<map<string, TreeNode>>)
    returns (child: TreeNode, ghost nodes': map<Path, TreeNode>)
    requires Linked(root, nodes) && p in nodes && nodes[p] == node
    requires node.children.Some? && part !in node.children.value
    requires newChildren.None? || newChildren == Some(map[])
    modifies node
    ensures nodes' == nodes[p + [part] := child] && Linked(root, nodes') && fresh(child)
    ensures ShapeOf(nodes') == WithChild(old(ShapeOf(nodes)), p + [part], newChildren.Some?)
  {
    ghost var q, fields := p + [part], FieldsOf(nodes);
    ghost var f' := Fields(part, newChildren, []);
    child := new TreeNode(part, newChildren);
    ghost var f := fields[p].(children := Some(node.children.value[part := child]));
    NewChildKeepsLinks(nodes, fields, p, part, child, f, f');
    NewChildStaysInjective(nodes, q, child);
    ShapeWithNewChild(fields, p, q, f, f');
    node.children := Some(node.children.value[part := child]);
    nodes' := nodes[q := child];
    FieldsAfterUpdate(nodes, fields, p, f);
    FieldsWithNode(nodes, q, child);
  }

  /** The child of `node` for a name: found, or made with the given child map. */
  method ChildOf(root: TreeNode, ghost nodes: map<Path, TreeNode>, node: TreeNode, ghost p: Path, part: string,
                 newChildren: Option<map<string, TreeNode>>)
    returns (child: TreeNode, ghost nodes': map<Path, TreeNode>)
    requires Linked(root, nodes) && p in nodes && nodes[p] == node && node.children.Some?
    requires newChildren.None? || newChildren == Some(map[])
    modifies nodes.Values
    ensures nodes' == nodes[p + [part] := child] && Linked(root, nodes')
    ensures child in nodes.Values || fresh(child)
    ensures ShapeOf(nodes') == WithChild(old(ShapeOf(nodes)), p + [part], newChildren.Some?)
  {
    if part in node.children.value {
      child := node.children.value[part];
      ExistingChild(nodes, FieldsOf(nodes), p, part);
      nodes' := nodes;
      assert nodes == nodes[p + [part] := child];
    } else {
      child, nodes' := MakeChild(root, nodes, node, p, part, newChildren);
    }
  }

  /** Gives a node the child map it lacks. */
  method GiveChildMap(root: TreeNode, ghost nodes: map<Path, TreeNode>, child: TreeNode, ghost q: Path)
    requires Linked(root, nodes) && q in nodes && nodes[q] == child && child.children.None?
    modifies child
    ensures Linked(root, nodes) && child.children.Some?
    ensures ShapeOf(nodes) == old(ShapeOf(nodes)).(dirs := old(ShapeOf(nodes)).dirs + {q})
  {
    ghost var fields, shape := FieldsOf(nodes), ShapeOf(nodes);
    ghost var f := fields[q].(children := Some(map[]));
    child.children := Some(map[]);
    UpdateKeepsLinks(nodes, fields, q, f);
    FieldsAfterUpdate(nodes, fields, q, f);
    ShapeUpdate(fields, q, f);
    assert shape.files[q := f.entries] == shape.files;
  }

  lemma ShapeWithEntry(fields: map<Path, Fields>, q: Path, e: HiddenEntry)
    requires q in fields
    ensures ShapeOfFields(fields[q := fields[q].(entries := fields[q].entries + [e])])
         == AddFile(ShapeOfFields(fields), q, e)
  {
    var f := fields[q].(entries := fields[q].entries + [e]);
    ShapeUpdate(fields, q, f);
    var s := ShapeOfFields(fields);
    assert (if f.children.Some? then s.dirs + {q} else s.dirs - {q}) == s.dirs;
  }

  method AppendEntry(root: TreeNode, ghost nodes: map<Path, TreeNode>, child: TreeNode, ghost q: Path, e: HiddenEntry)
    requires Linked(root, nodes) && q in nodes && nodes[q] == child
    modifies child
    ensures Linked(root, nodes)
    ensures ShapeOf(nodes) == AddFile(old(ShapeOf(nodes)), q, e)
  {
    ghost var fields := FieldsOf(nodes);
    ghost var f := fields[q].(entries := child.entries + [e]);
    child.entries := child.entries + [e];
    UpdateKeepsLinks(nodes, fields, q, f);
    FieldsAfterUpdate(nodes, fields, q, f);
    ShapeWithEntry(fields, q, e);
  }

  /** Entering a directory is making its node where it is missing and its child map where that is missing. */
  lemma EnterDirInSteps(s: Shape, q: Path)
    ensures var t := WithChild(s, q, true); EnterDir(s, q) == t.(dirs := t.dirs + {q})
    ensures q in WithChild(s, q, true).dirs ==> EnterDir(s, q) == WithChild(s, q, true)
  {
    var t := WithChild(s, q, true);
    if q in s.files { assert s.files[q := s.files[q]] == s.files; }
    if q in t.dirs { assert t.dirs + {q} == t.dirs; }
  }

  lemma AddFileInSteps(s: Shape, q: Path, e: HiddenEntry)
    ensures AddFile(WithChild(s, q, false), q, e) == AddFile(s, q, e)
  {
    if q !in s.files { assert s.files[q := []][q := [e]] == s.files[q := [e]]; }
  }

  /** Passing through a directory name. */
  method EnterChild(root: TreeNode, ghost nodes: map<Path, TreeNode>, node: TreeNode, ghost p: Path, part: string)
    returns (child: TreeNode, ghost nodes': map<Path, TreeNode>)
    requires Linked(root, nodes) && p in nodes && nodes[p] == node && node.children.Some?
    modifies nodes.Values
    ensures nodes' == nodes[p + [part] := child] && Linked(root, nodes') && child.children.Some?
    ensures child in nodes.Values || fresh(child)
    ensures ShapeOf(nodes') == EnterDir(old(ShapeOf(nodes)), p + [part])
  {
    ghost var q := p + [part];
    EnterDirInSteps(ShapeOf(nodes), q);
    child, nodes' := ChildOf(root, nodes, node, p, part, Some(map[]));
    if child.children.None? {
      GiveChildMap(root, nodes', child, q);
    } else {
      assert q in ShapeOf(nodes').dirs;
    }
  }

  /** Hanging an entry below `node` under a file name. */
  method AddToChild(root: TreeNode, ghost nodes: map<Path, TreeNode>, node: TreeNode, ghost p: Path, part: string,
                    e: HiddenEntry)
    returns (ghost nodes': map<Path, TreeNode>)
    requires Linked(root, nodes) && p in nodes && nodes[p] == node && node.children.Some?
    modifies nodes.Values
    ensures Linked(root, nodes')
    ensures forall n | n in nodes'.Values :: n in nodes.Values || fresh(n)
    ensures ShapeOf(nodes') == AddFile(old(ShapeOf(nodes)), p + [part], e)
  {
    AddFileInSteps(ShapeOf(nodes), p + [part], e);
    var child: TreeNode;
    child, nodes' := ChildOf(root, nodes, node, p, part, None);
    AppendEntry(root, nodes', child, p + [part], e);
  }

  // ---- Building ----

  lemma {:induction false} NonEmptySplits(a: seq<string>, b: seq<string>)
    ensures NonEmpty(a + b) == NonEmpty(a) + NonEmpty(b)
  {
    if a == [] {
      assert a + b == b;
    } else {
      assert (a + b)[1..] == a[1..] + b;
      NonEmptySplits(a[1..], b);
    }
  }

  lemma NonEmptyOne(part: string)
    ensures NonEmpty([part]) == OnePart(part)
  {
    assert [part][1..] == [];
    assert OnePart(part) + [] == OnePart(part);
  }

  lemma OneMorePart(parts: seq<string>, i: nat)
    requires i < |parts|
    ensures NonEmpty(parts[..i + 1]) == NonEmpty(parts[..i]) + OnePart(parts[i])
  {
    var front, last := parts[..i], [parts[i]];
    NonEmptySplits(front, last);
    NonEmptyOne(parts[i]);
    assert parts[..i + 1] == front + last;
  }

  lemma {:induction false} PartsSplit(parts: seq<string>, i: nat)
    requires i <= |parts|
    ensures NonEmpty(parts) == NonEmpty(parts[..i]) + NonEmpty(parts[i..])
  {
    var front, back := parts[..i], parts[i..];
    NonEmptySplits(front, back);
    assert parts == front + back;
  }

  /** After trimming only an empty path ends in an empty part. */
  lemma {:induction false} LastPart(s: string)
    requires s == "" || s[|s| - 1] != '/'
    ensures var parts := Split(s); parts[|parts| - 1] == "" ==> s == ""
    decreases |s|
  {
    var k := FirstSlash(s);
    if k < |s| {
      assert s[k + 1..] != "";
      LastPart(s[k + 1..]);
    }
  }

  /** The names taken so far are the first `d` components of the path. */
  predicate TakenSoFar(parts: seq<string>, i: nat, q: Path, d: nat)
    requires i <= |parts|
  {
    q == NonEmpty(parts) && d <= |q| && q[..d] == NonEmpty(parts[..i])
  }

  lemma TakeOne(parts: seq<string>, i: nat, q: Path, d: nat)
    requires i < |parts| && TakenSoFar(parts, i, q, d)
    ensures if parts[i] == "" then TakenSoFar(parts, i + 1, q, d)
            else d < |q| && q[..d + 1] == q[..d] + [parts[i]] && TakenSoFar(parts, i + 1, q, d + 1)
                 && (i + 1 == |parts| ==> d + 1 == |q|)
  {
    OneMorePart(parts, i);
    PartsSplit(parts, i + 1);
    var taken, rest := NonEmpty(parts[..i + 1]), NonEmpty(parts[i + 1..]);
    assert q == taken + rest && q[..|taken|] == taken;
    if i + 1 == |parts| { assert parts[i + 1..] == []; }
  }

  /** `node` is the directory reached by the first `d` components. */
  ghost predicate Reached(root: TreeNode, nodes: map<Path, TreeNode>, node: TreeNode, shape: Shape, q: Path, d: nat)
    reads nodes.Values
    requires d <= |q|
  {
    && Linked(root, nodes) && ShapeOf(nodes) == EnterDirs(shape, q, d)
    && q[..d] in nodes && nodes[q[..d]] == node && node.children.Some?
  }

  /** One part that is not the last. */
  method PassPart(root: TreeNode, ghost nodes: map<Path, TreeNode>, node: TreeNode, ghost shape: Shape,
                  ghost q: Path, ghost d: nat, part: string)
    returns (child: TreeNode, ghost nodes': map<Path, TreeNode>)
    requires d < |q| && q[..d + 1] == q[..d] + [part] && Reached(root, nodes, node, shape, q, d)
    modifies nodes.Values
    ensures Reached(root, nodes', child, shape, q, d + 1)
    ensures forall n | n in nodes'.Values :: n in nodes.Values || fresh(n)
  {
    child, nodes' := EnterChild(root, nodes, node, q[..d], part);
  }

  /** The parts before the last, each a directory unless it is empty. */
  method PassParts(root: TreeNode, ghost nodes: map<Path, TreeNode>, parts: seq<string>, ghost shape: Shape,
                   ghost q: Path)
    returns (node: TreeNode, ghost nodes': map<Path, TreeNode>, ghost d: nat)
    requires parts != [] && TakenSoFar(parts, 0, q, 0) && Reached(root, nodes, root, shape, q, 0)
    modifies nodes.Values
    ensures TakenSoFar(parts, |parts| - 1, q, d) && Reached(root, nodes', node, shape, q, d)
    ensures forall n | n in nodes'.Values :: n in nodes.Values || fresh(n)
  {
    node, nodes', d := root, nodes, 0;
    for i := 0 to |parts| - 1
      invariant TakenSoFar(parts, i, q, d) && Reached(root, nodes', node, shape, q, d)
      invariant forall n | n in nodes'.Values :: n in nodes.Values || fresh(n)
    {
      TakeOne(parts, i, q, d);
      if parts[i] != "" {
        node, nodes' := PassPart(root, nodes', node, shape, q, d, parts[i]);
        d := d + 1;
      }
    }
  }

  method PlaceLast(root: TreeNode, ghost nodes: map<Path, TreeNode>, node: TreeNode, part: string, e: HiddenEntry,
                   ghost shape: Shape, ghost q: Path, ghost d: nat)
    returns (ghost nodes': map<Path, TreeNode>)
    requires d + 1 == |q| && q[..d + 1] == q[..d] + [part] && Reached(root, nodes, node, shape, q, d)
    modifies nodes.Values
    ensures Linked(root, nodes')
    ensures forall n | n in nodes'.Values :: n in nodes.Values || fresh(n)
    ensures ShapeOf(nodes') == AddFile(EnterDirs(shape, q, |q| - 1), q, e)
  {
    assert q[..d + 1] == q;
    nodes' := AddToChild(root, nodes, node, q[..d], part, e);
  }

  /** The last part: the entry goes there, unless it is empty, which it is only when there are no names at all. */
  method PlaceEntry(root: TreeNode, ghost nodes: map<Path, TreeNode>, parts: seq<string>, e: HiddenEntry,
                    ghost shape: Shape, ghost q: Path)
    returns (ghost nodes': map<Path, TreeNode>)
    requires parts != [] && TakenSoFar(parts, 0, q, 0) && Reached(root, nodes, root, shape, q, 0)
    requires parts[|parts| - 1] == "" ==> q == []
    modifies nodes.Values
    ensures Linked(root, nodes')
    ensures forall n | n in nodes'.Values :: n in nodes.Values || fresh(n)
    ensures ShapeOf(nodes') == InsertAt(shape, q, e)
  {
    var node: TreeNode;
    ghost var d: nat;
    node, nodes', d := PassParts(root, nodes, parts, shape, q);
    var i := |parts| - 1;
    TakeOne(parts, i, q, d);
    if parts[i] != "" {
      nodes' := PlaceLast(root, nodes', node, parts[i], e, shape, q, d);
    } else {
      assert d == 0;
    }
  }

  lemma PartsOfPath(path: string)
    ensures var parts, q := Split(TrimSlashes(path)), Normalised(path);
            TakenSoFar(parts, 0, q, 0) && (parts[|parts| - 1] == "" ==> q == [])
  {
    var s := TrimSlashes(path);
    LastPart(s);
    if s == "" { NonEmptyOne(""); }
    assert Split(s)[..0] == [] && Normalised(path)[..0] == [];
  }

  lemma ReachedRoot(root: TreeNode, nodes: map<Path, TreeNode>, q: Path)
    requires Linked(root, nodes) && root.children.Some?
    ensures Reached(root, nodes, root, ShapeOf(nodes), q, 0)
  {
    assert q[..0] == [];
  }

  /** The walk of one entry through the tree. */
  method InsertEntry(root: TreeNode, ghost nodes: map<Path, TreeNode>, e: HiddenEntry)
    returns (ghost nodes': map<Path, TreeNode>)
    requires Linked(root, nodes) && root.children.Some?
    modifies nodes.Values
    ensures Linked(root, nodes')
    ensures forall n | n in nodes'.Values :: n in nodes.Values || fresh(n)
    ensures ShapeOf(nodes') == Insert(old(ShapeOf(nodes)), e)
  {
    ghost var q, shape := Normalised(e.path), ShapeOf(nodes);
    PartsOfPath(e.path);
    ReachedRoot(root, nodes, q);
    nodes' := PlaceEntry(root, nodes, Split(TrimSlashes(e.path)), e, shape, q);
  }

  method NewRoot() returns (root: TreeNode, ghost nodes: map<Path, TreeNode>)
    ensures Linked(root, nodes) && ShapeOf(nodes) == EMPTY_SHAPE && fresh(nodes.Values)
  {
    root := new TreeNode("", Some(map[]));
    nodes := map[[] := root];
    assert FieldsOf(nodes) == map[[] := Fields("", Some(map[]), [])];
  }

  lemma RootIsDirectory(root: TreeNode, nodes: map<Path, TreeNode>, es: seq<HiddenEntry>)
    requires Linked(root, nodes) && ShapeOf(nodes) == BuildShape(es)
    ensures root.children.Some?
  {
    RootStays(es);
    assert [] in ShapeOf(nodes).dirs;
  }

  /** BuildPathTree: the tree in memory is the one TreeAgreesWithList speaks of. */
  method BuildPathTree(es: seq<HiddenEntry>) returns (root: TreeNode, ghost nodes: map<Path, TreeNode>)
    ensures Linked(root, nodes) && ShapeOf(nodes) == BuildShape(es)
    ensures fresh(nodes.Values)
  {
    root, nodes := NewRoot();
    assert es[..0] == [];
    for i := 0 to |es|
      invariant Linked(root, nodes) && ShapeOf(nodes) == BuildShape(es[..i])
      invariant fresh(nodes.Values)
    {
      RootIsDirectory(root, nodes, es[..i]);
      BuildStep(es, i);
      nodes := InsertEntry(root, nodes, es[i]);
    }
    assert es[..|es|] == es;
  }

  lemma BuildStep(es: seq<HiddenEntry>, i: nat)
    requires i < |es|
    ensures BuildShape(es[..i + 1]) == Insert(BuildShape(es[..i]), es[i])
  {
    assert es[..i + 1][..i] == es[..i];
  }
}
