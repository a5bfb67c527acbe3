/** The flattened view of the path tree (tree_screen.go): rows, cursor and expansion. */
module TreeScreen {
  import opened EntryWire
  import opened PathOrder
  import opened PathTree

  datatype Row = Row(depth: int, labelText: string, node: TreeNode, isDir: bool)

  datatype Key = Up | Down | Toggle | Back | OtherKey

  function Meaning(key: string): Key {
    if key == "esc" || key == "q" then Back
    else if key == "up" || key == "k" then Up
    else if key == "down" || key == "j" then Down
    else if key == "enter" || key == " " then Toggle
    else OtherKey
  }

  /** What a key asks of the application. */
  datatype Answer = Nothing | Pop | OpenDetail(entry: HiddenEntry)

  // ---- Which nodes are on screen ----

  /** A node shows when each directory above it, the root aside, is expanded. */
  ghost predicate Visible(keys: set<Path>, open: set<Path>, p: Path) {
    p in keys && p != [] && forall k :: 0 < k < |p| ==> p[..k] in open
  }

  lemma VisibleChild(keys: set<Path>, open: set<Path>, p: Path, name: string)
    requires p == [] || (Visible(keys, open, p) && p in open)
    ensures Visible(keys, open, p + [name]) <==> p + [name] in keys
  {
    var q := p + [name];
    forall k | 0 < k < |q| && q in keys ensures q[..k] in open {
      if k < |p| { assert q[..k] == p[..k]; } else { assert q[..k] == p; }
    }
  }

  lemma VisibleParent(keys: set<Path>, open: set<Path>, p: Path, q: Path)
    requires Visible(keys, open, q) && p < q && p != []
    ensures p in open
  {
    assert q[..|p|] == p;
  }

  /** What opening or closing `p` shows or hides lies below `p`. */
  lemma ToggleChangesBelow(keys: set<Path>, open: set<Path>, open': set<Path>, p: Path, q: Path)
    requires open - {p} == open' - {p} && p != [] && !(p < q)
    ensures Visible(keys, open, q) <==> Visible(keys, open', q)
  {
    forall k | 0 < k < |q| ensures q[..k] in open <==> q[..k] in open' {
      assert q[..k] != p;
      assert q[..k] in open - {p} <==> q[..k] in open' - {p};
    }
  }

  // ---- Sorting names ----

  ghost predicate SortedNames(names: seq<string>) {
    forall i, j | 0 <= i < j < |names| :: StringLess(names[i], names[j])
  }

  method InsertName(names: seq<string>, name: string) returns (r: seq<string>)
    requires SortedNames(names) && name !in names
    ensures SortedNames(r) && forall x :: x in r <==> x in names || x == name
  {
    var k := 0;
    while k < |names| && StringLess(names[k], name)
      invariant 0 <= k <= |names| && forall i | 0 <= i < k :: StringLess(names[i], name)
    {
      k := k + 1;
    }
    forall i | k <= i < |names| ensures StringLess(name, names[i]) {
      StringLessOrder(name, names[k], name);
      StringLessOrder(name, names[k], names[i]);
    }
    r := names[..k] + [name] + names[k..];
    assert forall x :: x in names <==> x in names[..k] || x in names[k..] by {
      assert names == names[..k] + names[k..];
    }
  }

  /** The keys of a child map in order, however the map is walked. */
  method SortNames(keys: set<string>) returns (names: seq<string>)
    ensures SortedNames(names) && forall x :: x in names <==> x in keys
  {
    names := [];
    var left := keys;
    while left != {}
      invariant left <= keys && SortedNames(names) && forall x :: x in names <==> x in keys - left
      decreases |left|
    {
      var name :| name in left;
      names := InsertName(names, name);
      left := left - {name};
    }
  }

  // ---- Rows ----

  /** The tree below `root` as values: nothing changes it once the screen is built. */
  ghost predicate Settled(root: TreeNode, nodes: map<Path, TreeNode>, fields: map<Path, Fields>,
                          listed: seq<HiddenEntry>) {
    && Injective(nodes) && LinksMatch(nodes, fields) && nodes[[]] == root
    && ShapeOfFields(fields) == BuildShape(listed)
  }

  ghost predicate Stored(nodes: map<Path, TreeNode>, fields: map<Path, Fields>)
    reads nodes.Values
  {
    nodes.Keys == fields.Keys &&
    forall p | p in nodes :: nodes[p].children == fields[p].children && nodes[p].entries == fields[p].entries
  }

  ghost function RowAt(nodes: map<Path, TreeNode>, fields: map<Path, Fields>, p: Path): Row
    requires p in nodes && p in fields && p != []
  {
    Row(|p| - 1, p[|p| - 1], nodes[p], fields[p].children.Some?)
  }

  /** `rows` shows the nodes at `paths`, in that order. */
  ghost predicate Shows(nodes: map<Path, TreeNode>, fields: map<Path, Fields>, rows: seq<Row>, paths: seq<Path>) {
    |rows| == |paths| && forall i | 0 <= i < |paths| ::
      paths[i] in nodes && paths[i] in fields && paths[i] != [] && rows[i] == RowAt(nodes, fields, paths[i])
  }

  /** The visible nodes strictly below `p`, each once, in preorder with siblings sorted by name. */
  ghost predicate BelowInOrder(keys: set<Path>, open: set<Path>, p: Path, paths: seq<Path>) {
    Ascending(paths) && forall q :: q in paths <==> Visible(keys, open, q) && p < q
  }

  /** The part of them below the names walked so far. */
  ghost predicate BelowNames(keys: set<Path>, open: set<Path>, p: Path, names: seq<string>, n: nat, paths: seq<Path>)
    requires n <= |names|
  {
    Ascending(paths) &&
    forall q :: q in paths <==> Visible(keys, open, q) && p < q && q[|p|] in names[..n]
  }

  lemma NameOf(p: Path, q: Path, name: string)
    requires p < q
    ensures q[|p|] == name <==> p + [name] <= q
  {
  }

  /** A name, then everything below it. */
  lemma OneMoreName(keys: set<Path>, open: set<Path>, p: Path, names: seq<string>, n: nat,
                    before: seq<Path>, below: seq<Path>)
    requires n < |names| && SortedNames(names) && BelowNames(keys, open, p, names, n, before)
    requires Visible(keys, open, p + [names[n]])
    requires BelowInOrder(keys, open, p + [names[n]], below)
    ensures BelowNames(keys, open, p, names, n + 1, before + [p + [names[n]]] + below)
  {
    var r := p + [names[n]];
    forall q | q in below ensures PathLess(r, q) { BelowIsAfter(r, q); }
    AscendingAppend([r], below);
    forall q, s | q in before && s in [r] + below ensures PathLess(q, s) {
      var i :| 0 <= i < n && names[..n][i] == q[|p|];
      SiblingsApart(p, names[i], names[n], q, s);
    }
    AscendingAppend(before, [r] + below);
    var all := before + [r] + below;
    assert all == before + ([r] + below);
    forall q ensures q in all <==> Visible(keys, open, q) && p < q && q[|p|] in names[..n + 1] {
      assert names[..n + 1] == names[..n] + [names[n]];
      if p < q { NameOf(p, q, names[n]); }
      assert r <= q <==> q == r || r < q;
    }
  }

  /** No path of the tree is longer than this. */
  ghost predicate Within(nodes: map<Path, TreeNode>, height: nat) {
    forall p | p in nodes :: |p| <= height
  }

  lemma {:induction false} HeightOf(keys: set<Path>) returns (height: nat)
    ensures forall p | p in keys :: |p| <= height
    decreases |keys|
  {
    height := 0;
    if keys != {} {
      var p :| p in keys;
      var h := HeightOf(keys - {p});
      height := if |p| > h then |p| else h;
    }
  }

  lemma HeightOfTree(nodes: map<Path, TreeNode>) returns (height: nat)
    ensures Within(nodes, height)
  {
    height := HeightOf(nodes.Keys);
  }

  lemma RowAdded(nodes: map<Path, TreeNode>, fields: map<Path, Fields>, rows: seq<Row>, paths: seq<Path>, q: Path)
    requires Shows(nodes, fields, rows, paths) && q in nodes && q in fields && q != []
    ensures Shows(nodes, fields, rows + [RowAt(nodes, fields, q)], paths + [q])
  {
  }

  lemma ChildAt(nodes: map<Path, TreeNode>, fields: map<Path, Fields>, p: Path, name: string)
    requires LinksMatch(nodes, fields) && p in nodes && fields[p].children.Some?
    ensures name in fields[p].children.value <==> p + [name] in nodes
    ensures p + [name] in nodes ==> fields[p].children.value[name] == nodes[p + [name]]
  {
    assert ChildMatches(nodes, p, fields[p], name);
  }

  /** A node below another has a child of that on its path. */
  lemma BelowThroughChild(nodes: map<Path, TreeNode>, fields: map<Path, Fields>, p: Path, q: Path)
    requires LinksMatch(nodes, fields) && q in nodes && p < q
    ensures p + [q[|p|]] in nodes
    decreases |q|
  {
    if |q| == |p| + 1 {
      assert p + [q[|p|]] == q;
    } else {
      var up := q[..|q| - 1];
      assert p < up && up[|p|] == q[|p|];
      BelowThroughChild(nodes, fields, p, up);
    }
  }

  lemma ChildOfLeaf(nodes: map<Path, TreeNode>, fields: map<Path, Fields>, q: Path, name: string)
    requires LinksMatch(nodes, fields) && q in nodes && q + [name] in nodes
    ensures fields[q].children.Some?
  {
    assert ChildMatches(nodes, q, fields[q], name);
  }

  /** Nothing shows below a file or a closed directory. */
  lemma NothingInside(nodes: map<Path, TreeNode>, fields: map<Path, Fields>, open: set<Path>, q: Path)
    requires LinksMatch(nodes, fields) && q in nodes && q != []
    requires !(fields[q].children.Some? && q in open)
    ensures BelowInOrder(nodes.Keys, open, q, [])
  {
    forall r | Visible(nodes.Keys, open, r) && q < r ensures false {
      VisibleParent(nodes.Keys, open, q, r);
      BelowThroughChild(nodes, fields, q, r);
      ChildOfLeaf(nodes, fields, q, r[|q|]);
    }
  }

  ghost predicate NamesOf(fields: map<Path, Fields>, p: Path, names: seq<string>)
    requires p in fields && fields[p].children.Some?
  {
    SortedNames(names) && forall x :: x in names <==> x in fields[p].children.value
  }

  /** Walking every name of a directory shows all that is visible below it. */
  lemma AllNames(nodes: map<Path, TreeNode>, fields: map<Path, Fields>, open: set<Path>, p: Path, names: seq<string>,
                 below: seq<Path>)
    requires LinksMatch(nodes, fields) && p in nodes && fields[p].children.Some?
    requires NamesOf(fields, p, names)
    requires BelowNames(nodes.Keys, open, p, names, |names|, below)
    ensures BelowInOrder(nodes.Keys, open, p, below)
  {
    assert names[..|names|] == names;
    forall q | Visible(nodes.Keys, open, q) && p < q ensures q[|p|] in names {
      BelowThroughChild(nodes, fields, p, q);
      ChildAt(nodes, fields, p, q[|p|]);
    }
  }

  /** The rows are exactly the visible nodes: each once, and a node's subtree follows it unbroken, siblings by name. */
  lemma RowsInPreorder(keys: set<Path>, open: set<Path>, paths: seq<Path>, i: nat, j: nat)
    requires BelowInOrder(keys, open, [], paths) && i < |paths| && j < |paths|
    ensures paths[i] == paths[j] ==> i == j
    ensures paths[i] < paths[j] ==> i < j && forall k | i < k < j :: paths[i] < paths[k]
    ensures forall p, a, b | paths[i] == p + [a] && paths[j] == p + [b] :: i < j <==> StringLess(a, b)
  {
    PathLessOrder(paths[i], paths[j], paths[i]);
    if paths[i] < paths[j] {
      BelowIsAfter(paths[i], paths[j]);
      forall k | i < k < j ensures paths[i] < paths[k] {
        SubtreeIsUnbroken(paths[i], paths[k], paths[j]);
      }
    }
    forall p, a, b | paths[i] == p + [a] && paths[j] == p + [b] ensures i < j <==> StringLess(a, b) {
      SiblingsByName(p, a, b);
    }
  }

  /** The tree and the set of open directories determine the rows. */
  lemma RowsDetermined(nodes: map<Path, TreeNode>, fields: map<Path, Fields>, open: set<Path>,
                       rows: seq<Row>, paths: seq<Path>, rows': seq<Row>, paths': seq<Path>)
    requires Shows(nodes, fields, rows, paths) && BelowInOrder(nodes.Keys, open, [], paths)
    requires Shows(nodes, fields, rows', paths') && BelowInOrder(nodes.Keys, open, [], paths')
    ensures paths == paths' && rows == rows'
  {
    AscendingUnique(paths, paths');
  }

  /** The row of the toggled directory keeps its index. */
  lemma ToggledRowStays(keys: set<Path>, open: set<Path>, open': set<Path>, paths: seq<Path>, paths': seq<Path>, i: nat)
    requires BelowInOrder(keys, open, [], paths) && BelowInOrder(keys, open', [], paths') && i < |paths|
    requires open - {paths[i]} == open' - {paths[i]}
    ensures i < |paths'| && paths'[i] == paths[i]
  {
    var p := paths[i];
    assert p in paths && [] < p;
    forall q | q == p || PathLess(q, p) ensures q in paths <==> q in paths' {
      if p < q {
        BelowIsAfter(p, q);
        PathLessOrder(p, q, p);
        PathLessOrder(p, p, p);
      }
      ToggleChangesBelow(keys, open, open', p, q);
    }
    SameIndex(paths, paths', i);
  }

  // ---- The entry a file row opens ----

  ghost predicate FirstLargest(es: seq<HiddenEntry>, best: HiddenEntry) {
    exists i :: 0 <= i < |es| && es[i] == best &&
      (forall j | 0 <= j < |es| :: es[j].size <= best.size) && forall j | 0 <= j < i :: es[j].size < best.size
  }

  method Best(es: seq<HiddenEntry>) returns (best: HiddenEntry)
    requires es != []
    ensures FirstLargest(es, best)
  {
    best := es[0];
    ghost var at := 0;
    for k := 1 to |es|
      invariant 0 <= at < k && es[at] == best
      invariant forall j | 0 <= j < k :: es[j].size <= best.size
      invariant forall j | 0 <= j < at :: es[j].size < best.size
    {
      if es[k].size > best.size { best, at := es[k], k; }
    }
  }

  /** A node without a child map holds an entry. */
  lemma FilesHoldEntries(es: seq<HiddenEntry>, p: Path)
    requires p != [] && p in BuildShape(es).files && p !in BuildShape(es).dirs
    ensures EntriesAt(es, p) != []
  {
    TreeAgreesWithList(es, p);
    var i :| 0 <= i < |es| && p <= Normalised(es[i].path);
    assert p == Normalised(es[i].path);
    ListedAt(es, p, i);
  }

  lemma {:induction false} ListedAt(es: seq<HiddenEntry>, p: Path, i: nat)
    requires i < |es| && p == Normalised(es[i].path)
    ensures EntriesAt(es, p) != []
  {
    if i < |es| - 1 { ListedAt(es[..|es| - 1], p, i); }
  }

  lemma EntriesOfNode(fields: map<Path, Fields>, es: seq<HiddenEntry>, p: Path)
    requires ShapeOfFields(fields) == BuildShape(es) && p in fields && p != []
    ensures fields[p].entries == EntriesAt(es, p)
    ensures fields[p].children.None? ==> EntriesAt(es, p) != []
  {
    TreeAgreesWithList(es, p);
    assert ShapeOfFields(fields).files[p] == fields[p].entries;
    if fields[p].children.None? {
      assert p !in ShapeOfFields(fields).dirs;
      FilesHoldEntries(es, p);
    }
  }

  /** Flipping one node's flag opens or closes its path and no other. */
  ghost function Flipped(open: set<Path>, p: Path): set<Path> {
    if p in open then open - {p} else open + {p}
  }

  /** The paths of the expanded nodes. */
  ghost function OpenPaths(nodes: map<Path, TreeNode>, expanded: map<TreeNode, bool>): set<Path> {
    set p | p in nodes && nodes[p] in expanded && expanded[nodes[p]]
  }

  lemma OpenAfterFlip(nodes: map<Path, TreeNode>, expanded: map<TreeNode, bool>, expanded': map<TreeNode, bool>,
                      p: Path)
    requires Injective(nodes) && p in nodes
    requires expanded' == expanded[nodes[p] := !(nodes[p] in expanded && expanded[nodes[p]])]
    ensures OpenPaths(nodes, expanded') == Flipped(OpenPaths(nodes, expanded), p)
  {
    forall q | q in nodes && q != p ensures nodes[q] != nodes[p] {}
  }

  lemma RootShows(nodes: map<Path, TreeNode>, fields: map<Path, Fields>, listed: seq<HiddenEntry>)
    requires [] in fields && ShapeOfFields(fields) == BuildShape(listed)
    ensures fields[[]].children.Some?
  {
    RootStays(listed);
    assert [] in ShapeOfFields(fields).dirs;
  }

  lemma Regroup(a: seq<Path>, b: seq<Path>, c: seq<Path>, d: seq<Path>)
    ensures a + b + c + d == a + (b + c + d)
  {
  }

  lemma OnlyRootOpen(nodes: map<Path, TreeNode>, root: TreeNode)
    requires Injective(nodes) && [] in nodes && nodes[[]] == root
    ensures OpenPaths(nodes, map[root := true]) == {[]}
  {
  }

  lemma StoredAsBuilt(nodes: map<Path, TreeNode>)
    ensures Stored(nodes, FieldsOf(nodes))
  {
  }

  method BuildSettled(entries: seq<HiddenEntry>)
    returns (root: TreeNode, ghost nodes: map<Path, TreeNode>, ghost fields: map<Path, Fields>)
    ensures Settled(root, nodes, fields, entries) && Stored(nodes, fields)
    ensures OpenPaths(nodes, map[root := true]) == {[]}
    ensures fresh(nodes.Values)
  {
    root, nodes := BuildPathTree(entries);
    fields := FieldsOf(nodes);
    StoredAsBuilt(nodes);
    OnlyRootOpen(nodes, root);
  }

  class Screen {
    const root: TreeNode
    var expanded: map<TreeNode, bool>
    var rows: seq<Row>
    var cursor: int
    ghost const listed: seq<HiddenEntry>
    ghost const nodes: map<Path, TreeNode>
    ghost const fields: map<Path, Fields>
    ghost var paths: seq<Path>

    ghost function Open(): set<Path>
      reads this
    {
      OpenPaths(nodes, expanded)
    }

    predicate CursorOk()
      reads this
    {
      if rows == [] then cursor == 0 else 0 <= cursor < |rows|
    }

    ghost predicate Tree()
      reads nodes.Values
    {
      Settled(root, nodes, fields, listed) && Stored(nodes, fields)
    }

    /** The rows are exactly the visible nodes in preorder. */
    ghost predicate Valid()
      reads this, nodes.Values
    {
      Tree() && CursorOk() && Shows(nodes, fields, rows, paths) && BelowInOrder(nodes.Keys, Open(), [], paths)
    }

    ghost predicate Shown(open: set<Path>, p: Path) {
      p == [] || (Visible(nodes.Keys, open, p) && p in open)
    }

    /** Appends the rows below a directory that shows its children. */
    method Walk(n: TreeNode, ghost p: Path, depth: int, ghost open: set<Path>, ghost height: nat)
      returns (ghost below: seq<Path>)
      requires Tree() && p in nodes && nodes[p] == n && n.children.Some? && depth == |p|
      requires Shown(open, p) && open == OpenPaths(nodes, expanded)
      requires Shows(nodes, fields, rows, paths) && Within(nodes, height)
      modifies `rows, `paths
      ensures Shows(nodes, fields, rows, paths) && paths == old(paths) + below
      ensures BelowInOrder(nodes.Keys, open, p, below)
      decreases height - |p|, 2
    {
      var names := SortNames(n.children.value.Keys);
      below := [];
      ghost var front := paths;
      assert NamesOf(fields, p, names);
      for i := 0 to |names|
        invariant Shows(nodes, fields, rows, paths) && paths == front + below
        invariant BelowNames(nodes.Keys, open, p, names, i, below)
      {
        below := WalkNth(n, p, names, i, depth, front, below, open, height);
      }
      AllNames(nodes, fields, open, p, names, below);
    }

    /** One turn of the loop over the sorted names. */
    method WalkNth(n: TreeNode, ghost p: Path, names: seq<string>, i: nat, depth: int, ghost front: seq<Path>,
                   ghost below: seq<Path>, ghost open: set<Path>, ghost height: nat)
      returns (ghost below': seq<Path>)
      requires Tree() && p in nodes && nodes[p] == n && fields[p].children.Some? && depth == |p|
      requires Shown(open, p) && open == OpenPaths(nodes, expanded) && i < |names| && NamesOf(fields, p, names)
      requires BelowNames(nodes.Keys, open, p, names, i, below) && paths == front + below
      requires Shows(nodes, fields, rows, paths) && Within(nodes, height)
      modifies `rows, `paths
      ensures Shows(nodes, fields, rows, paths) && paths == front + below'
      ensures BelowNames(nodes.Keys, open, p, names, i + 1, below')
      decreases height - |p|, 1
    {
      assert names[i] in fields[p].children.value;
      ghost var inside := WalkName(n, p, names[i], depth, open, height);
      OneMoreName(nodes.Keys, open, p, names, i, below, inside);
      below' := below + [p + [names[i]]] + inside;
      Regroup(front, below, [p + [names[i]]], inside);
    }

    /** The row of one name. */
    method AddRow(n: TreeNode, ghost p: Path, name: string, depth: int) returns (child: TreeNode, isDir: bool)
      requires Tree() && p in nodes && nodes[p] == n && fields[p].children.Some? && depth == |p|
      requires name in fields[p].children.value && Shows(nodes, fields, rows, paths)
      modifies `rows, `paths
      ensures Shows(nodes, fields, rows, paths) && paths == old(paths) + [p + [name]]
      ensures p + [name] in nodes && nodes[p + [name]] == child && isDir == fields[p + [name]].children.Some?
    {
      child := n.children.value[name];
      ghost var q := p + [name];
      ChildAt(nodes, fields, p, name);
      isDir := child.children.Some?;
      RowAdded(nodes, fields, rows, paths, q);
      rows := rows + [Row(depth, name, child, isDir)];
      paths := paths + [q];
    }

    /** One name of it: its row, and the rows below when it is an open directory. */
    method WalkName(n: TreeNode, ghost p: Path, name: string, depth: int, ghost open: set<Path>, ghost height: nat)
      returns (ghost inside: seq<Path>)
      requires Tree() && p in nodes && nodes[p] == n && fields[p].children.Some? && depth == |p|
      requires Shown(open, p) && open == OpenPaths(nodes, expanded) && name in fields[p].children.value
      requires Shows(nodes, fields, rows, paths) && Within(nodes, height)
      modifies `rows, `paths
      ensures Shows(nodes, fields, rows, paths) && paths == old(paths) + [p + [name]] + inside
      ensures Visible(nodes.Keys, open, p + [name])
      ensures BelowInOrder(nodes.Keys, open, p + [name], inside)
      decreases height - |p|, 0
    {
      ghost var q := p + [name];
      var child, isDir := AddRow(n, p, name, depth);
      VisibleChild(nodes.Keys, open, p, name);
      if isDir && child in expanded && expanded[child] {
        inside := Walk(child, q, depth + 1, open, height);
      } else {
        inside := [];
        NothingInside(nodes, fields, open, q);
      }
    }

    /** NewTreeScreen. */
    constructor (entries: seq<HiddenEntry>)
      ensures Valid() && listed == entries && cursor == 0 && Open() == {[]}
      ensures fresh(nodes.Values)
    {
      var r;
      ghost var ns, fs;
      r, ns, fs := BuildSettled(entries);
      root, nodes, fields, listed := r, ns, fs, entries;
      expanded := map[r := true];
      rows, paths, cursor := [], [], 0;
      new;
      Rebuild();
    }

    method WalkTree()
      requires Tree()
      modifies `rows, `paths
      ensures Shows(nodes, fields, rows, paths) && BelowInOrder(nodes.Keys, OpenPaths(nodes, expanded), [], paths)
    {
      RootShows(nodes, fields, listed);
      ghost var height := HeightOfTree(nodes);
      rows, paths := [], [];
      ghost var below := Walk(root, [], 0, OpenPaths(nodes, expanded), height);
      assert paths == below;
    }

    /** The rows anew, and the cursor held inside them. */
    method Rebuild()
      requires Tree()
      modifies `rows, `paths, `cursor
      ensures Tree() && CursorOk() && Shows(nodes, fields, rows, paths)
      ensures BelowInOrder(nodes.Keys, OpenPaths(nodes, expanded), [], paths)
      ensures 0 <= old(cursor) < |rows| ==> cursor == old(cursor)
      ensures old(cursor) >= |rows| > 0 ==> cursor == |rows| - 1
    {
      WalkTree();
      HoldCursor();
    }

    method HoldCursor()
      modifies `cursor
      ensures CursorOk()
      ensures 0 <= old(cursor) < |rows| ==> cursor == old(cursor)
      ensures old(cursor) >= |rows| > 0 ==> cursor == |rows| - 1
    {
      if cursor >= |rows| { cursor := |rows| - 1; }
      if cursor < 0 { cursor := 0; }
    }

    /** Enter on a directory: only that directory opens or closes, and the cursor stays on it. */
    method ToggleRow()
      requires Valid() && rows != [] && rows[cursor].isDir
      modifies this
      ensures Valid()
      ensures Open() == Flipped(old(Open()), old(paths[cursor]))
      ensures cursor == old(cursor) < |rows| && paths[cursor] == old(paths[cursor])
    {
      var row := rows[cursor];
      ghost var p, open, before := paths[cursor], Open(), paths;
      assert row == RowAt(nodes, fields, p);
      var flipped := expanded[row.node := !(row.node in expanded && expanded[row.node])];
      OpenAfterFlip(nodes, expanded, flipped, p);
      expanded := flipped;
      assert Open() == Flipped(open, p);
      ghost var at := cursor;
      Rebuild();
      ToggledRowStays(nodes.Keys, open, Open(), before, paths, at);
    }

    /** Enter on a file: the first entry of the largest size there. */
    method OpenRow() returns (answer: Answer)
      requires Valid() && rows != [] && !rows[cursor].isDir
      ensures answer.OpenDetail? && FirstLargest(EntriesAt(listed, paths[cursor]), answer.entry)
    {
      var row := rows[cursor];
      ghost var p := paths[cursor];
      assert row == RowAt(nodes, fields, p);
      EntriesOfNode(fields, listed, p);
      answer := Nothing;
      if row.node.entries != [] {
        var best := Best(row.node.entries);
        answer := OpenDetail(best);
      }
    }

    method MoveUp()
      requires Valid()
      modifies `cursor
      ensures Valid() && cursor == if old(cursor) > 0 then old(cursor) - 1 else 0
    {
      if cursor > 0 { cursor := cursor - 1; }
    }

    method MoveDown()
      requires Valid()
      modifies `cursor
      ensures Valid()
      ensures rows != [] ==> cursor == if old(cursor) < |rows| - 1 then old(cursor) + 1 else |rows| - 1
      ensures rows == [] ==> cursor == old(cursor)
    {
      if cursor < |rows| - 1 { cursor := cursor + 1; }
    }

    /** Update: what a key does to the view, and what it asks for. */
    method Update(key: string) returns (answer: Answer)
      requires Valid()
      modifies this
      ensures Valid()
      ensures answer == Pop <==> Meaning(key) == Back
      ensures Meaning(key) == Up ==> cursor == if old(cursor) > 0 then old(cursor) - 1 else 0
      ensures Meaning(key) == Down && rows != [] ==>
                cursor == if old(cursor) < |rows| - 1 then old(cursor) + 1 else |rows| - 1
      ensures Meaning(key) != Toggle ==> rows == old(rows) && paths == old(paths) && expanded == old(expanded)
      ensures Meaning(key) == Back || Meaning(key) == OtherKey ==> cursor == old(cursor)
      ensures Meaning(key) == Toggle && old(rows) != [] && old(rows[cursor].isDir) ==>
                && Open() == Flipped(old(Open()), old(paths[cursor])) && answer == Nothing
                && cursor == old(cursor) < |rows| && paths[cursor] == old(paths[cursor])
      ensures answer.OpenDetail? <==> Meaning(key) == Toggle && old(rows) != [] && !old(rows[cursor].isDir)
      ensures answer.OpenDetail? ==>
                && FirstLargest(EntriesAt(listed, old(paths[cursor])), answer.entry)
                && rows == old(rows) && paths == old(paths) && expanded == old(expanded) && cursor == old(cursor)
    {
      answer := Nothing;
      match Meaning(key)
      case Back =>
        answer := Pop;
      case Up =>
        MoveUp();
      case Down =>
        MoveDown();
      case Toggle =>
        if rows == [] { return; }
        if rows[cursor].isDir { ToggleRow(); } else { answer := OpenRow(); }
      case OtherKey =>
    }

    /** Opening and closing a directory, or the reverse, brings back the same rows and cursor. */
    method ToggleTwice()
      requires Valid() && rows != [] && rows[cursor].isDir
      modifies this
      ensures Valid() && rows == old(rows) && paths == old(paths) && cursor == old(cursor) && Open() == old(Open())
    {
      ghost var p := paths[cursor];
      assert rows[cursor] == RowAt(nodes, fields, p);
      ToggleRow();
      assert rows[cursor] == RowAt(nodes, fields, p);
      ToggleRow();
      assert Open() == old(Open());
      RowsDetermined(nodes, fields, Open(), old(rows), old(paths), rows, paths);
    }
  }
}
