/**
 * Properties of the tree projector: which nodes appear (exactly the ends of
 * folder walks from the root directory), that with unique ids the recursion
 * always returns, that the depth is bounded by the number of nodes, and that
 * no node appears twice.
 */
module VfsProps {
  import opened Wrappers
  import opened Vfs

  /** Node ids are unique, as Firestore document ids within one collection are. */
  predicate DistinctIds(nodes: seq<VfsNode>) {
    forall i, j :: 0 <= i < j < |nodes| ==> nodes[i].id != nodes[j].id
  }

  predicate NoDup<T(==)>(xs: seq<T>) {
    forall i, j :: 0 <= i < j < |xs| ==> xs[i] != xs[j]
  }

  /**
   * `path` starts at a node whose parent is `parent`, each later node names
   * the previous one as parent, every node is an input node, and every node but
   * the last is a folder: the route `buildTree` descends along.
   */
  ghost predicate Walk(nodes: seq<VfsNode>, parent: Option<string>, path: seq<VfsNode>) {
    && |path| > 0
    && path[0].parentId == parent
    && (forall i :: 0 <= i < |path| ==> path[i] in nodes)
    && (forall i :: 0 < i < |path| ==> path[i].parentId == Some(path[i - 1].id))
    && (forall i :: 0 <= i < |path| - 1 ==> path[i].kind == Folder)
  }

  /** `path` is a route from the top of forest `ts` down through folders. */
  ghost predicate InForest(ts: seq<Tree>, path: seq<VfsNode>)
    decreases |path|
  {
    && |path| > 0
    && exists i :: 0 <= i < |ts| && ts[i].node == path[0]
                   && (|path| == 1 || (ts[i].FolderTree? && InForest(ts[i].children, path[1..])))
  }

  /** Pre-order listing of every node of a forest. */
  function Flatten(ts: seq<Tree>): seq<VfsNode>
    decreases ts
  {
    if ts == [] then []
    else
      var below := match ts[0] case FileLeaf(_) => [] case FolderTree(_, cs) => Flatten(cs);
      [ts[0].node] + below + Flatten(ts[1..])
  }

  /** The nodes below a folder's own children: empty for a file. */
  function Below(t: Tree): seq<VfsNode> {
    match t
    case FileLeaf(_) => []
    case FolderTree(_, cs) => Flatten(cs)
  }

  /** The filter works piecewise, so it keeps the input order of the nodes it keeps. */
  lemma {:induction false} ChildrenOfConcat(a: seq<VfsNode>, b: seq<VfsNode>, parent: Option<string>)
    ensures ChildrenOf(a + b, parent) == ChildrenOf(a, parent) + ChildrenOf(b, parent)
  {
    if a == [] {
      assert a + b == b;
    } else {
      assert (a + b)[0] == a[0];
      assert (a + b)[1..] == a[1..] + b;
      ChildrenOfConcat(a[1..], b, parent);
    }
  }

  /** On one node, the filter keeps it exactly when it names the parent. */
  lemma ChildrenOfSingle(n: VfsNode, parent: Option<string>)
    ensures ChildrenOf([n], parent) == if n.parentId == parent then [n] else []
  {
    assert [n][1..] == [];
  }

  // ---------------------------------------------------------------------------
  // Unique ids

  lemma SameIdSameNode(nodes: seq<VfsNode>, a: VfsNode, b: VfsNode)
    requires DistinctIds(nodes)
    requires a in nodes && b in nodes
    ensures a.id == b.id ==> a == b
  {
  }

  /** With unique ids the filter for one parent lists no node twice. */
  lemma {:induction false} ChildrenOfNoDup(nodes: seq<VfsNode>, parent: Option<string>)
    requires DistinctIds(nodes)
    ensures NoDup(ChildrenOf(nodes, parent))
  {
    if nodes != [] {
      var tail := nodes[1..];
      assert DistinctIds(tail) by {
        forall i, j | 0 <= i < j < |tail|
          ensures tail[i].id != tail[j].id
        {
          assert tail[i] == nodes[i + 1] && tail[j] == nodes[j + 1];
        }
      }
      ChildrenOfNoDup(tail, parent);
      if nodes[0].parentId == parent {
        var r := ChildrenOf(nodes, parent);
        var rest := ChildrenOf(tail, parent);
        assert r == [nodes[0]] + rest;
        forall j | 0 < j < |r|
          ensures r[0] != r[j]
        {
          assert r[j] in tail;
          var k :| 0 <= k < |tail| && tail[k] == r[j];
          assert nodes[k + 1] == r[j];
        }
      }
    }
  }

  // ---------------------------------------------------------------------------
  // Which nodes appear

  /** Every top-level tree of `ts` is a projected input node naming `parent` as its parent. */
  ghost predicate Grafted(nodes: seq<VfsNode>, ts: seq<Tree>, parent: Option<string>) {
    forall i :: 0 <= i < |ts| ==>
      ts[i].node in nodes && ts[i].node.parentId == parent && ProjectedTree(nodes, ts[i])
  }

  lemma ForestGrafted(nodes: seq<VfsNode>, ts: seq<Tree>, parent: Option<string>)
    requires ProjectedForest(nodes, ts, parent)
    ensures Grafted(nodes, ts, parent)
  {
    forall i | 0 <= i < |ts|
      ensures ts[i].node in nodes && ts[i].node.parentId == parent
    {
      assert Roots(ts)[i] == ts[i].node;
      assert ts[i].node in ChildrenOf(nodes, parent);
    }
  }

  /** Every route down a projected forest is a folder walk from the forest's parent. */
  lemma {:induction false} InForestIsWalk(nodes: seq<VfsNode>, ts: seq<Tree>, parent: Option<string>, path: seq<VfsNode>)
    requires Grafted(nodes, ts, parent)
    requires InForest(ts, path)
    ensures Walk(nodes, parent, path)
    decreases |path|
  {
    var i :| 0 <= i < |ts| && ts[i].node == path[0]
             && (|path| == 1 || (ts[i].FolderTree? && InForest(ts[i].children, path[1..])));
    if |path| > 1 {
      var n := path[0];
      assert ProjectedTree(nodes, ts[i]);
      ForestGrafted(nodes, ts[i].children, Some(n.id));
      InForestIsWalk(nodes, ts[i].children, Some(n.id), path[1..]);
      var rest := path[1..];
      forall k | 0 < k < |path|
        ensures path[k].parentId == Some(path[k - 1].id)
      {
        if k > 1 {
          assert path[k] == rest[k - 1] && path[k - 1] == rest[k - 2];
        }
      }
    }
  }

  /** Every folder walk from the forest's parent is a route down the projected forest. */
  lemma {:induction false} WalkIsInForest(nodes: seq<VfsNode>, ts: seq<Tree>, parent: Option<string>, path: seq<VfsNode>)
    requires ProjectedForest(nodes, ts, parent)
    requires Walk(nodes, parent, path)
    ensures InForest(ts, path)
    decreases |path|
  {
    assert path[0] in Roots(ts);
    var i :| 0 <= i < |ts| && Roots(ts)[i] == path[0];
    assert ts[i].node == path[0];
    if |path| > 1 {
      assert ProjectedTree(nodes, ts[i]);
      assert ts[i].FolderTree?;
      var rest := path[1..];
      assert Walk(nodes, Some(path[0].id), rest) by {
        forall k | 0 < k < |rest|
          ensures rest[k].parentId == Some(rest[k - 1].id)
        {
          assert rest[k] == path[k + 1] && rest[k - 1] == path[k];
        }
      }
      WalkIsInForest(nodes, ts[i].children, Some(path[0].id), rest);
    }
  }

  /**
   * When the projection returns, its routes are exactly the folder walks from
   * the root directory: a node whose parent chain is dangling, cyclic, or passes
   * through a file appears nowhere, and every other node appears.
   */
  lemma RoutesAreRootWalks(nodes: seq<VfsNode>, path: seq<VfsNode>)
    requires BuildTree(nodes, None).Some?
    ensures InForest(BuildTree(nodes, None).value, path) <==> Walk(nodes, None, path)
  {
    var ts := BuildTree(nodes, None).value;
    if InForest(ts, path) {
      ForestGrafted(nodes, ts, None);
      InForestIsWalk(nodes, ts, None, path);
    }
    if Walk(nodes, None, path) {
      WalkIsInForest(nodes, ts, None, path);
    }
  }

  // ---------------------------------------------------------------------------
  // Walks under unique ids

  /** A node never occurs twice on a walk from the root directory. */
  lemma {:induction false} WalkNoRepeat(nodes: seq<VfsNode>, path: seq<VfsNode>, i: nat, j: nat)
    requires DistinctIds(nodes)
    requires Walk(nodes, None, path)
    requires i < j < |path|
    ensures path[i] != path[j]
    decreases i
  {
    if i > 0 {
      WalkNoRepeat(nodes, path, i - 1, j - 1);
      SameIdSameNode(nodes, path[i - 1], path[j - 1]);
    }
  }

  /** A walk from the root directory to a given node is unique. */
  lemma {:induction false} WalkUnique(nodes: seq<VfsNode>, a: seq<VfsNode>, b: seq<VfsNode>)
    requires DistinctIds(nodes)
    requires Walk(nodes, None, a) && Walk(nodes, None, b)
    ensures a[|a| - 1] == b[|b| - 1] ==> a == b
    decreases |a|
  {
    assert |a| > 1 ==> a[|a| - 1].parentId == Some(a[|a| - 2].id);
    assert |b| > 1 ==> b[|b| - 1].parentId == Some(b[|b| - 2].id);
    if a[|a| - 1] == b[|b| - 1] && |a| > 1 && |b| > 1 {
      var a', b' := a[..|a| - 1], b[..|b| - 1];
      SameIdSameNode(nodes, a'[|a'| - 1], b'[|b'| - 1]);
      WalkUnique(nodes, a', b');
      assert a == a' + [a[|a| - 1]] && b == b' + [b[|b| - 1]];
    } else if a[|a| - 1] == b[|b| - 1] {
      assert a == [a[0]] && b == [b[0]];
    }
  }

  lemma {:induction false} SetOfSeqCard<T>(xs: seq<T>)
    ensures |set x | x in xs| <= |xs|
    ensures NoDup(xs) ==> |set x | x in xs| == |xs|
  {
    if xs != [] {
      SetOfSeqCard(xs[1..]);
      assert (set x | x in xs) == (set x | x in xs[1..]) + {xs[0]};
      if NoDup(xs) {
        assert NoDup(xs[1..]) by {
          forall i, j | 0 <= i < j < |xs[1..]|
            ensures xs[1..][i] != xs[1..][j]
          {
            assert xs[1..][i] == xs[i + 1] && xs[1..][j] == xs[j + 1];
          }
        }
        forall k | 0 <= k < |xs[1..]|
          ensures xs[1..][k] != xs[0]
        {
          assert xs[1..][k] == xs[k + 1];
        }
        assert xs[0] !in (set x | x in xs[1..]);
      }
    }
  }

  lemma SubsetCard<T>(a: set<T>, b: set<T>)
    requires a <= b
    ensures |a| <= |b|
  {
    assert b == a + (b - a);
    assert a * (b - a) == {};
  }

  /** With unique ids, no walk from the root directory is longer than the node list. */
  lemma WalkLengthBound(nodes: seq<VfsNode>, path: seq<VfsNode>)
    requires DistinctIds(nodes)
    requires Walk(nodes, None, path)
    ensures |path| <= |nodes|
  {
    forall i, j | 0 <= i < j < |path|
      ensures path[i] != path[j]
    {
      WalkNoRepeat(nodes, path, i, j);
    }
    SetOfSeqCard(path);
    SetOfSeqCard(nodes);
    SubsetCard(set x | x in path, set x | x in nodes);
  }

  // ---------------------------------------------------------------------------
  // The recursion returns under unique ids

  function IdSet(path: seq<VfsNode>): set<string> {
    set p | p in path :: p.id
  }

  function ParentIdOf(path: seq<VfsNode>): Option<string> {
    if path == [] then None else Some(path[|path| - 1].id)
  }

  /** The context of a recursive call: the folders descended through so far. */
  ghost predicate Descent(nodes: seq<VfsNode>, path: seq<VfsNode>) {
    path == [] || (Walk(nodes, None, path) && path[|path| - 1].kind == Folder)
  }

  lemma WalkExtend(nodes: seq<VfsNode>, path: seq<VfsNode>, n: VfsNode)
    requires Descent(nodes, path)
    requires n in nodes && n.parentId == ParentIdOf(path)
    ensures Walk(nodes, None, path + [n])
  {
    var p := path + [n];
    forall i | 0 < i < |p|
      ensures p[i].parentId == Some(p[i - 1].id)
    {
      if i < |path| {
        assert p[i] == path[i] && p[i - 1] == path[i - 1];
      }
    }
  }

  /** Entering folder `n` below `path` extends the descent by an id not yet on it. */
  lemma EnterFolder(nodes: seq<VfsNode>, path: seq<VfsNode>, n: VfsNode)
    requires DistinctIds(nodes)
    requires Descent(nodes, path)
    requires n in nodes && n.parentId == ParentIdOf(path) && n.kind == Folder
    ensures Descent(nodes, path + [n])
    ensures n.id in Ids(nodes) && n.id !in IdSet(path)
    ensures IdSet(path + [n]) == IdSet(path) + {n.id}
  {
    var p := path + [n];
    WalkExtend(nodes, path, n);
    forall k | 0 <= k < |path|
      ensures path[k].id != n.id
    {
      WalkNoRepeat(nodes, p, k, |path|);
      SameIdSameNode(nodes, path[k], n);
    }
  }

  /** A folder not yet on the stack returns once the call on its children returns. */
  lemma BuildFolderReturns(nodes: seq<VfsNode>, n: VfsNode, seen: set<string>)
    requires n in nodes && n.kind == Folder && n.id !in seen
    requires BuildList(nodes, ChildrenOf(nodes, Some(n.id)), seen + {n.id}).Some?
    ensures BuildNode(nodes, n, seen).Some?
  {
  }

  lemma {:induction false} BuildNodeReturns(nodes: seq<VfsNode>, path: seq<VfsNode>, n: VfsNode)
    requires DistinctIds(nodes)
    requires Descent(nodes, path)
    requires n in nodes && n.parentId == ParentIdOf(path)
    ensures BuildNode(nodes, n, IdSet(path)).Some?
    decreases |Ids(nodes) - IdSet(path)|, 0
  {
    if n.kind == Folder {
      var p := path + [n];
      EnterFolder(nodes, path, n);
      assert IdSet(p) == IdSet(path) + {n.id};
      FreshIdShrinks(Ids(nodes), IdSet(path), n.id);
      assert ParentIdOf(p) == Some(n.id);
      BuildListReturns(nodes, p, ChildrenOf(nodes, Some(n.id)));
      BuildFolderReturns(nodes, n, IdSet(path));
    }
  }

  lemma {:induction false} BuildListReturns(nodes: seq<VfsNode>, path: seq<VfsNode>, kids: seq<VfsNode>)
    requires DistinctIds(nodes)
    requires Descent(nodes, path)
    requires forall k :: k in kids ==> k in nodes && k.parentId == ParentIdOf(path)
    ensures BuildList(nodes, kids, IdSet(path)).Some?
    decreases |Ids(nodes) - IdSet(path)|, |kids|
  {
    if kids != [] {
      BuildNodeReturns(nodes, path, kids[0]);
      BuildListReturns(nodes, path, kids[1..]);
    }
  }

  /**
   * With unique ids `buildTree(nodes, null)` always returns: no folder is
   * re-entered while its own call is on the stack.
   */
  lemma BuildTreeReturns(nodes: seq<VfsNode>)
    requires DistinctIds(nodes)
    ensures BuildTree(nodes, None).Some?
    ensures ProjectFileSystem(nodes) == BuildTree(nodes, None).value
  {
    assert IdSet([]) == {};
    BuildListReturns(nodes, [], ChildrenOf(nodes, None));
  }

  // ---------------------------------------------------------------------------
  // Where the recursion never returns

  /**
   * `w` descends from the root directory to a folder whose id an earlier
   * folder on `w` already carries: there the source calls `buildTree` again
   * with a parent id whose own call is still on the stack.
   */
  ghost predicate ReentersFolder(nodes: seq<VfsNode>, w: seq<VfsNode>) {
    && Walk(nodes, None, w)
    && w[|w| - 1].kind == Folder
    && exists i :: 0 <= i < |w| - 1 && w[i].id == w[|w| - 1].id
  }

  /** One element of the `map` that never returns keeps the whole `map` from returning. */
  lemma {:induction false} BuildListStuckAt(nodes: seq<VfsNode>, kids: seq<VfsNode>, seen: set<string>, k: nat)
    requires forall c :: c in kids ==> c in nodes
    requires k < |kids| && BuildNode(nodes, kids[k], seen).None?
    ensures BuildList(nodes, kids, seen).None?
    decreases k
  {
    if k > 0 && BuildNode(nodes, kids[0], seen).Some? {
      assert kids[1..][k - 1] == kids[k];
      BuildListStuckAt(nodes, kids[1..], seen, k - 1);
    }
  }

  lemma BuildListStuckOn(nodes: seq<VfsNode>, kids: seq<VfsNode>, seen: set<string>, c: VfsNode)
    requires forall x :: x in kids ==> x in nodes
    requires c in kids && BuildNode(nodes, c, seen).None?
    ensures BuildList(nodes, kids, seen).None?
  {
    var k :| 0 <= k < |kids| && kids[k] == c;
    BuildListStuckAt(nodes, kids, seen, k);
  }

  /** Every call along a walk, down to a re-entered folder, never returns. */
  lemma {:induction false} WalkStuck(nodes: seq<VfsNode>, w: seq<VfsNode>, k: nat, j: nat)
    requires Walk(nodes, None, w)
    requires k <= j < |w| && w[j].kind == Folder && w[j].id in IdSet(w[..j])
    ensures BuildNode(nodes, w[k], IdSet(w[..k])).None?
    decreases j - k
  {
    assert w[k].kind == Folder by {
      if k < j {
        assert k < |w| - 1;
      }
    }
    if w[k].id !in IdSet(w[..k]) {
      assert k < j;
      WalkStuck(nodes, w, k + 1, j);
      assert w[..k + 1] == w[..k] + [w[k]];
      assert IdSet(w[..k + 1]) == IdSet(w[..k]) + {w[k].id};
      assert w[k + 1] in ChildrenOf(nodes, Some(w[k].id));
      BuildListStuckOn(nodes, ChildrenOf(nodes, Some(w[k].id)), IdSet(w[..k]) + {w[k].id}, w[k + 1]);
    }
  }

  /** A re-entered folder below the root directory keeps `buildTree(nodes, null)` from returning. */
  lemma ReentryDiverges(nodes: seq<VfsNode>, w: seq<VfsNode>)
    requires ReentersFolder(nodes, w)
    ensures BuildTree(nodes, None).None?
  {
    var j := |w| - 1;
    var i :| 0 <= i < j && w[i].id == w[j].id;
    assert w[i] in w[..j];
    WalkStuck(nodes, w, 0, j);
    assert IdSet(w[..0]) == {};
    BuildListStuckOn(nodes, ChildrenOf(nodes, None), {}, w[0]);
  }

  /** A folder whose id is already on the descent closes a re-entering walk. */
  lemma ReenterHere(nodes: seq<VfsNode>, path: seq<VfsNode>, n: VfsNode) returns (w: seq<VfsNode>)
    requires Walk(nodes, None, path + [n]) && n.kind == Folder
    requires n.id in IdSet(path)
    ensures ReentersFolder(nodes, w)
  {
    var x :| x in path && x.id == n.id;
    var i :| 0 <= i < |path| && path[i] == x;
    w := path + [n];
    assert w[i] == x && w[|w| - 1] == n;
  }

  /** Entering a folder whose id is not yet on the descent, with ids not assumed unique. */
  lemma EnterUnseenFolder(nodes: seq<VfsNode>, path: seq<VfsNode>, n: VfsNode)
    requires Descent(nodes, path)
    requires n in nodes && n.parentId == ParentIdOf(path) && n.kind == Folder && n.id !in IdSet(path)
    ensures Descent(nodes, path + [n]) && ParentIdOf(path + [n]) == Some(n.id)
    ensures IdSet(path + [n]) == IdSet(path) + {n.id}
    ensures |Ids(nodes) - IdSet(path + [n])| < |Ids(nodes) - IdSet(path)|
  {
    WalkExtend(nodes, path, n);
    assert n.id in Ids(nodes);
    assert IdSet(path + [n]) == IdSet(path) + {n.id};
    FreshIdShrinks(Ids(nodes), IdSet(path), n.id);
  }

  lemma {:induction false} NodeStuckReenters(nodes: seq<VfsNode>, path: seq<VfsNode>, n: VfsNode) returns (w: seq<VfsNode>)
    requires Descent(nodes, path)
    requires n in nodes && n.parentId == ParentIdOf(path)
    requires BuildNode(nodes, n, IdSet(path)).None?
    ensures ReentersFolder(nodes, w)
    decreases |Ids(nodes) - IdSet(path)|, 0
  {
    assert n.kind == Folder;
    if n.id in IdSet(path) {
      WalkExtend(nodes, path, n);
      w := ReenterHere(nodes, path, n);
    } else {
      EnterUnseenFolder(nodes, path, n);
      w := ListStuckReenters(nodes, path + [n], ChildrenOf(nodes, Some(n.id)));
    }
  }

  lemma {:induction false} ListStuckReenters(nodes: seq<VfsNode>, path: seq<VfsNode>, kids: seq<VfsNode>) returns (w: seq<VfsNode>)
    requires Descent(nodes, path)
    requires forall k :: k in kids ==> k in nodes && k.parentId == ParentIdOf(path)
    requires BuildList(nodes, kids, IdSet(path)).None?
    ensures ReentersFolder(nodes, w)
    decreases |Ids(nodes) - IdSet(path)|, |kids|
  {
    assert kids != [];
    if BuildNode(nodes, kids[0], IdSet(path)).None? {
      w := NodeStuckReenters(nodes, path, kids[0]);
    } else {
      w := ListStuckReenters(nodes, path, kids[1..]);
    }
  }

  /**
   * `buildTree(nodes, null)` fails to return exactly when some walk from the
   * root directory reaches a folder whose id an earlier folder on it carries.
   */
  lemma DivergesIffReentry(nodes: seq<VfsNode>)
    ensures BuildTree(nodes, None).None? <==> exists w :: ReentersFolder(nodes, w)
  {
    if BuildTree(nodes, None).None? {
      assert IdSet([]) == {};
      var w := ListStuckReenters(nodes, [], ChildrenOf(nodes, None));
    }
    if w :| ReentersFolder(nodes, w) {
      ReentryDiverges(nodes, w);
    }
  }

  /** With unique ids, every route down the projection is at most `|nodes|` long. */
  lemma ProjectionDepthBound(nodes: seq<VfsNode>, path: seq<VfsNode>)
    requires DistinctIds(nodes)
    requires InForest(ProjectFileSystem(nodes), path)
    ensures |path| <= |nodes|
  {
    BuildTreeReturns(nodes);
    RoutesAreRootWalks(nodes, path);
    WalkLengthBound(nodes, path);
  }

  // ---------------------------------------------------------------------------
  // No node appears twice

  lemma WalkJoin(nodes: seq<VfsNode>, path: seq<VfsNode>, q: seq<VfsNode>)
    requires Descent(nodes, path)
    requires Walk(nodes, ParentIdOf(path), q)
    ensures Walk(nodes, None, path + q)
  {
    var p := path + q;
    forall i | 0 < i < |p|
      ensures p[i].parentId == Some(p[i - 1].id)
    {
      if i < |path| {
        assert p[i] == path[i] && p[i - 1] == path[i - 1];
      } else if i > |path| {
        assert p[i] == q[i - |path|] && p[i - 1] == q[i - |path| - 1];
      }
    }
    forall i | 0 <= i < |p| - 1
      ensures p[i].kind == Folder
    {
      if i < |path| {
        assert p[i] == path[i];
      } else {
        assert p[i] == q[i - |path|];
      }
    }
  }

  lemma FlattenUnfold(ts: seq<Tree>)
    requires ts != []
    ensures Flatten(ts) == [ts[0].node] + Below(ts[0]) + Flatten(ts[1..])
  {
  }

  /** A listed node is a top-level node or lies below one. */
  lemma {:induction false} FlattenMember(ts: seq<Tree>, m: VfsNode) returns (i: nat)
    requires m in Flatten(ts)
    ensures i < |ts| && (m == ts[i].node || m in Below(ts[i]))
    decreases |ts|
  {
    FlattenUnfold(ts);
    if m == ts[0].node || m in Below(ts[0]) {
      i := 0;
    } else {
      var j := FlattenMember(ts[1..], m);
      assert ts[1..][j] == ts[j + 1];
      i := j + 1;
    }
  }

  lemma {:induction false} FlattenPath(ts: seq<Tree>, m: VfsNode) returns (q: seq<VfsNode>)
    requires m in Flatten(ts)
    ensures InForest(ts, q) && q[|q| - 1] == m
    ensures q[0] in Roots(ts)
    decreases ts
  {
    var i := FlattenMember(ts, m);
    var t := ts[i];
    assert Roots(ts)[i] == t.node;
    if m == t.node {
      q := [m];
    } else {
      assert t.FolderTree? && m in Flatten(t.children);
      var q' := FlattenPath(t.children, m);
      q := [t.node] + q';
      assert q[1..] == q';
      assert q[|q| - 1] == q'[|q'| - 1];
    }
  }

  /** A forest grafted below the folders on `path`, with distinct top-level nodes. */
  ghost predicate Hung(nodes: seq<VfsNode>, path: seq<VfsNode>, ts: seq<Tree>) {
    && Descent(nodes, path)
    && NoDup(Roots(ts))
    && Grafted(nodes, ts, ParentIdOf(path))
  }

  lemma ProjectedHung(nodes: seq<VfsNode>, path: seq<VfsNode>, ts: seq<Tree>)
    requires DistinctIds(nodes)
    requires Descent(nodes, path)
    requires ProjectedForest(nodes, ts, ParentIdOf(path))
    ensures Hung(nodes, path, ts)
  {
    ChildrenOfNoDup(nodes, ParentIdOf(path));
    ForestGrafted(nodes, ts, ParentIdOf(path));
  }

  lemma HungTail(nodes: seq<VfsNode>, path: seq<VfsNode>, ts: seq<Tree>)
    requires Hung(nodes, path, ts) && ts != []
    ensures Hung(nodes, path, ts[1..])
    ensures forall m :: m in Roots(ts[1..]) ==> m != ts[0].node
  {
    var r, r' := Roots(ts), Roots(ts[1..]);
    forall i, j | 0 <= i < j < |r'|
      ensures r'[i] != r'[j]
    {
      assert r'[i] == r[i + 1] && r'[j] == r[j + 1];
    }
    forall m | m in r'
      ensures m != ts[0].node
    {
      var j :| 0 <= j < |r'| && r'[j] == m;
      assert r[j + 1] == m && r[0] == ts[0].node;
    }
    forall i | 0 <= i < |ts[1..]|
      ensures ts[1..][i].node in nodes && ts[1..][i].node.parentId == ParentIdOf(path)
      ensures ProjectedTree(nodes, ts[1..][i])
    {
      assert ts[1..][i] == ts[i + 1];
    }
  }

  /** Two walks from the root directory that part ways somewhere end at different nodes. */
  lemma DivergentWalks(nodes: seq<VfsNode>, a: seq<VfsNode>, b: seq<VfsNode>, k: nat)
    requires DistinctIds(nodes)
    requires Walk(nodes, None, a) && Walk(nodes, None, b)
    requires k < |a| && k < |b| && a[k] != b[k]
    ensures a[|a| - 1] != b[|b| - 1]
  {
    WalkUnique(nodes, a, b);
  }

  lemma NoDupJoin(x: VfsNode, below: seq<VfsNode>, after: seq<VfsNode>)
    requires NoDup(below) && NoDup(after)
    requires x !in below && x !in after
    requires forall m1, m2 :: m1 in below && m2 in after ==> m1 != m2
    ensures NoDup([x] + below + after)
  {
    var all := [x] + below + after;
    forall i, j | 0 <= i < j < |all|
      ensures all[i] != all[j]
    {
      if i == 0 {
        assert all[j] in below || all[j] in after;
      } else if j <= |below| {
        assert all[i] == below[i - 1] && all[j] == below[j - 1];
      } else if i > |below| {
        assert all[i] == after[i - 1 - |below|] && all[j] == after[j - 1 - |below|];
      } else {
        assert all[i] in below && all[j] in after;
      }
    }
  }

  /** A node listed in a forest hung below `path` ends a walk from the root directory through `path` and one of the forest's top-level nodes. */
  lemma RouteThrough(nodes: seq<VfsNode>, path: seq<VfsNode>, ts: seq<Tree>, m: VfsNode) returns (w: seq<VfsNode>)
    requires Hung(nodes, path, ts)
    requires m in Flatten(ts)
    ensures Walk(nodes, None, w) && w[|w| - 1] == m
    ensures |w| > |path| && w[..|path|] == path && w[|path|] in Roots(ts)
  {
    var q := FlattenPath(ts, m);
    InForestIsWalk(nodes, ts, ParentIdOf(path), q);
    WalkJoin(nodes, path, q);
    w := path + q;
    assert w[|path|] == q[0];
    assert w[|w| - 1] == q[|q| - 1];
    assert w[..|path|] == path;
  }

  /** The first top-level node does not reappear among its later siblings' subtrees. */
  lemma HeadNotAfter(nodes: seq<VfsNode>, path: seq<VfsNode>, ts: seq<Tree>)
    requires DistinctIds(nodes)
    requires Hung(nodes, path, ts) && ts != []
    ensures ts[0].node !in Flatten(ts[1..])
  {
    var x := ts[0].node;
    HungTail(nodes, path, ts);
    var px := path + [x];
    WalkExtend(nodes, path, x);
    assert px[|path|] == x;
    forall m | m in Flatten(ts[1..])
      ensures m != x
    {
      var w := RouteThrough(nodes, path, ts[1..], m);
      DivergentWalks(nodes, w, px, |path|);
    }
  }

  /** A folder does not reappear inside its own subtree. */
  lemma HeadNotBelow(nodes: seq<VfsNode>, path: seq<VfsNode>, ts: seq<Tree>)
    requires DistinctIds(nodes)
    requires Hung(nodes, path, ts) && ts != [] && ts[0].FolderTree?
    ensures ts[0].node !in Below(ts[0])
  {
    var x := ts[0].node;
    var cs := ts[0].children;
    var px := path + [x];
    WalkExtend(nodes, path, x);
    assert ProjectedTree(nodes, ts[0]);
    ForestGrafted(nodes, cs, Some(x.id));
    forall m | m in Flatten(cs)
      ensures m != x
    {
      var q := FlattenPath(cs, m);
      InForestIsWalk(nodes, cs, Some(x.id), q);
      WalkJoin(nodes, px, q);
      WalkUnique(nodes, px, px + q);
      assert |px| < |px + q|;
    }
  }

  /** A node below the first top-level node differs from any node in its later siblings' subtrees. */
  lemma BelowAndAfterDiffer(nodes: seq<VfsNode>, path: seq<VfsNode>, ts: seq<Tree>, m1: VfsNode, m2: VfsNode)
    requires DistinctIds(nodes)
    requires Hung(nodes, path, ts) && ts != []
    requires m1 in Below(ts[0]) && m2 in Flatten(ts[1..])
    ensures m1 != m2
  {
    var x := ts[0].node;
    var px := path + [x];
    var cs := ts[0].children;
    HungTail(nodes, path, ts);
    WalkExtend(nodes, path, x);
    assert ProjectedTree(nodes, ts[0]);
    ProjectedHung(nodes, px, cs);
    var w1 := RouteThrough(nodes, px, cs, m1);
    assert w1[|path|] == w1[..|px|][|path|] == x;
    var w2 := RouteThrough(nodes, path, ts[1..], m2);
    DivergentWalks(nodes, w1, w2, |path|);
  }

  /** The subtree of the first top-level node shares no node with its later siblings' subtrees. */
  lemma BelowApartFromAfter(nodes: seq<VfsNode>, path: seq<VfsNode>, ts: seq<Tree>)
    requires DistinctIds(nodes)
    requires Hung(nodes, path, ts) && ts != []
    ensures forall m1, m2 :: m1 in Below(ts[0]) && m2 in Flatten(ts[1..]) ==> m1 != m2
  {
    forall m1, m2 | m1 in Below(ts[0]) && m2 in Flatten(ts[1..])
      ensures m1 != m2
    {
      BelowAndAfterDiffer(nodes, path, ts, m1, m2);
    }
  }

  lemma {:induction false} HungNoDup(nodes: seq<VfsNode>, path: seq<VfsNode>, ts: seq<Tree>)
    requires DistinctIds(nodes)
    requires Hung(nodes, path, ts)
    ensures NoDup(Flatten(ts))
    decreases ts
  {
    if ts != [] {
      var x := ts[0].node;
      assert Flatten(ts) == [x] + Below(ts[0]) + Flatten(ts[1..]);
      HungTail(nodes, path, ts);
      HungNoDup(nodes, path, ts[1..]);
      HeadNotAfter(nodes, path, ts);
      if ts[0].FolderTree? {
        var px := path + [x];
        WalkExtend(nodes, path, x);
        assert ProjectedTree(nodes, ts[0]);
        ProjectedHung(nodes, px, ts[0].children);
        HungNoDup(nodes, px, ts[0].children);
        HeadNotBelow(nodes, path, ts);
      }
      BelowApartFromAfter(nodes, path, ts);
      NoDupJoin(x, Below(ts[0]), Flatten(ts[1..]));
    }
  }

  /** With unique ids, the projection lists every node at most once. */
  lemma ProjectionHasNoDuplicates(nodes: seq<VfsNode>)
    requires DistinctIds(nodes)
    ensures NoDup(Flatten(ProjectFileSystem(nodes)))
  {
    BuildTreeReturns(nodes);
    ProjectedHung(nodes, [], ProjectFileSystem(nodes));
    HungNoDup(nodes, [], ProjectFileSystem(nodes));
  }

  /**
   * Whatever the input, a node that appears in the projection is reached by a
   * folder walk from the root directory; dangling and cyclic parent chains never
   * show up.
   */
  lemma AppearsOnlyOnRootWalk(nodes: seq<VfsNode>, m: VfsNode) returns (q: seq<VfsNode>)
    requires m in Flatten(ProjectFileSystem(nodes))
    ensures Walk(nodes, None, q) && q[|q| - 1] == m
  {
    var ts := ProjectFileSystem(nodes);
    q := FlattenPath(ts, m);
    ForestGrafted(nodes, ts, None);
    InForestIsWalk(nodes, ts, None, q);
  }

  // ---------------------------------------------------------------------------
  // Small inputs

  const ChainRoot := VfsNode("root", "root", Folder, None, 0)
  const ChainA := VfsNode("a", "a", Folder, Some("root"), 0)
  const ChainB := VfsNode("b", "b", File, Some("a"), 0)

  lemma ChainChildren()
    ensures ChildrenOf([ChainRoot, ChainA, ChainB], None) == [ChainRoot]
    ensures ChildrenOf([ChainRoot, ChainA, ChainB], Some("root")) == [ChainA]
    ensures ChildrenOf([ChainRoot, ChainA, ChainB], Some("a")) == [ChainB]
  {
    var nodes := [ChainRoot, ChainA, ChainB];
    assert nodes[1..] == [ChainA, ChainB] && [ChainA, ChainB][1..] == [ChainB] && [ChainB][1..] == [];
    assert ChildrenOf([ChainB], None) == [] && ChildrenOf([ChainA, ChainB], None) == [];
    assert ChildrenOf([ChainB], Some("root")) == [] && ChildrenOf([ChainA, ChainB], Some("root")) == [ChainA];
    assert ChildrenOf([ChainB], Some("a")) == [ChainB] && ChildrenOf([ChainA, ChainB], Some("a")) == [ChainB];
  }

  /** root / a / b projects to one chain of three nodes. */
  lemma ChainProjects()
    ensures ProjectFileSystem([ChainRoot, ChainA, ChainB]) == [FolderTree(ChainRoot, [FolderTree(ChainA, [FileLeaf(ChainB)])])]
  {
    var root, a, b := ChainRoot, ChainA, ChainB;
    var nodes := [root, a, b];
    ChainChildren();
    var s1: set<string> := {"root"};
    var s2: set<string> := {"root", "a"};
    assert s1 + {a.id} == s2;
    assert BuildNode(nodes, b, s2) == Some(FileLeaf(b));
    assert BuildList(nodes, [], s2) == Some([]);
    assert [FileLeaf(b)] + [] == [FileLeaf(b)];
    assert BuildList(nodes, [b], s2) == Some([FileLeaf(b)]);
    assert BuildNode(nodes, a, s1) == Some(FolderTree(a, [FileLeaf(b)]));
    assert BuildList(nodes, [], s1) == Some([]);
    assert [a][1..] == [];
    assert [FolderTree(a, [FileLeaf(b)])] + [] == [FolderTree(a, [FileLeaf(b)])];
    assert BuildList(nodes, [a], s1) == Some([FolderTree(a, [FileLeaf(b)])]);
    var none: set<string> := {};
    assert none + {root.id} == s1;
    assert BuildNode(nodes, root, none) == Some(FolderTree(root, [FolderTree(a, [FileLeaf(b)])]));
    assert BuildList(nodes, [], none) == Some([]);
  }

  /** Two folders naming each other as parent are unreachable: the projection is empty. */
  lemma CycleOmitted()
    ensures var x := VfsNode("x", "x", Folder, Some("y"), 0);
            var y := VfsNode("y", "y", Folder, Some("x"), 0);
            BuildTree([x, y], None) == Some([])
  {
    var x := VfsNode("x", "x", Folder, Some("y"), 0);
    var y := VfsNode("y", "y", Folder, Some("x"), 0);
    assert ChildrenOf([x, y], None) == [];
  }

  /**
   * Two folders sharing an id, one of them its own parent under that id, send
   * `buildTree` into endless recursion; the fetch then reports an empty tree.
   */
  lemma SharedIdDiverges()
    ensures var top := VfsNode("a", "top", Folder, None, 0);
            var loop := VfsNode("a", "loop", Folder, Some("a"), 0);
            BuildTree([top, loop], None) == None && ProjectFileSystem([top, loop]) == []
  {
    var top := VfsNode("a", "top", Folder, None, 0);
    var loop := VfsNode("a", "loop", Folder, Some("a"), 0);
    var nodes := [top, loop];
    assert ChildrenOf(nodes, None) == [top];
    assert ChildrenOf(nodes, Some("a")) == [loop];
    assert BuildNode(nodes, loop, {"a"}) == None;
    assert BuildList(nodes, [loop], {"a"}) == None;
    var none: set<string> := {};
    assert none + {top.id} == {"a"};
    assert BuildNode(nodes, top, none) == None;
    assert BuildNode(nodes, top, {}) == None;
  }
}
