/**
 * The virtual file system's tree projector: a flat list of nodes, each naming
 * its parent by id (`None` for the root directory), is turned into a forest by
 * filtering for the children of a parent and recursing into every folder.
 *
 * The recursion in the source is unguarded and its only arguments are the node
 * list and a parent id, so a call that re-enters the parent id of a call still
 * on the stack repeats forever (a stack overflow at run time). The model
 * carries the set of parent ids on the stack and answers `None` exactly there.
 */
module Vfs {
  import opened Wrappers

  datatype NodeType = Folder | File

  datatype VfsNode = VfsNode(id: string, name: string, kind: NodeType, parentId: Option<string>, createdAt: int)

  /** A projected node: files carry no `children`, folders carry their projected children. */
  datatype Tree =
    | FileLeaf(node: VfsNode)
    | FolderTree(node: VfsNode, children: seq<Tree>)

  function Ids(nodes: seq<VfsNode>): set<string> {
    set n | n in nodes :: n.id
  }

  /** The nodes of a forest's top level, in order. */
  function Roots(ts: seq<Tree>): (r: seq<VfsNode>)
    ensures |r| == |ts|
    ensures forall i :: 0 <= i < |ts| ==> r[i] == ts[i].node
  {
    seq(|ts|, i requires 0 <= i < |ts| => ts[i].node)
  }

  /** `nodes.filter(node => node.parentId === parent)`. */
  function ChildrenOf(nodes: seq<VfsNode>, parent: Option<string>): (r: seq<VfsNode>)
    ensures |r| <= |nodes|
    ensures forall n :: n in r <==> n in nodes && n.parentId == parent
  {
    if nodes == [] then []
    else if nodes[0].parentId == parent then [nodes[0]] + ChildrenOf(nodes[1..], parent)
    else ChildrenOf(nodes[1..], parent)
  }

  /**
   * `ts` is the projection of the children of `parent`: its top level is
   * exactly the nodes whose `parentId` is `parent`, in input order, and every
   * tree in it is projected.
   */
  ghost predicate ProjectedForest(nodes: seq<VfsNode>, ts: seq<Tree>, parent: Option<string>)
    decreases ts, 1
  {
    && Roots(ts) == ChildrenOf(nodes, parent)
    && forall i :: 0 <= i < |ts| ==> ProjectedTree(nodes, ts[i])
  }

  /** Files are leaves; a folder's children are the projection of the nodes naming it as parent. */
  ghost predicate ProjectedTree(nodes: seq<VfsNode>, t: Tree)
    decreases t, 0
  {
    match t
    case FileLeaf(n) => n.kind == File
    case FolderTree(n, cs) => n.kind == Folder && ProjectedForest(nodes, cs, Some(n.id))
  }

  lemma FreshIdShrinks(ids: set<string>, seen: set<string>, x: string)
    requires x in ids && x !in seen
    ensures |ids - (seen + {x})| < |ids - seen|
  {
    var rest := ids - seen;
    assert ids - (seen + {x}) == rest - {x};
    assert rest == (rest - {x}) + {x};
  }

  /**
   * One element of the `map` in `buildTree`: a file becomes a leaf; a folder
   * gets the projection of its own children, unless its id is already the
   * parent id of a call on the stack (`seen`), where the source never returns.
   */
  function BuildNode(nodes: seq<VfsNode>, n: VfsNode, seen: set<string>): (r: Option<Tree>)
    requires n in nodes
    ensures r.Some? ==> r.value.node == n && ProjectedTree(nodes, r.value)
    ensures n.kind == File ==> r.Some?
    decreases |Ids(nodes) - seen|, 0
  {
    if n.kind == File then Some(FileLeaf(n))
    else if n.id in seen then None
    else
      FreshIdShrinks(Ids(nodes), seen, n.id);
      match BuildList(nodes, ChildrenOf(nodes, Some(n.id)), seen + {n.id})
      case None => None
      case Some(cs) => Some(FolderTree(n, cs))
  }

  /** The `map` over a filtered child list; any non-returning element makes the whole call non-returning. */
  function BuildList(nodes: seq<VfsNode>, kids: seq<VfsNode>, seen: set<string>): (r: Option<seq<Tree>>)
    requires forall k :: k in kids ==> k in nodes
    ensures r.Some? ==> Roots(r.value) == kids
    ensures r.Some? ==> forall i :: 0 <= i < |r.value| ==> ProjectedTree(nodes, r.value[i])
    decreases |Ids(nodes) - seen|, |kids|
  {
    if kids == [] then Some([])
    else
      match BuildNode(nodes, kids[0], seen)
      case None => None
      case Some(t) =>
        match BuildList(nodes, kids[1..], seen)
        case None => None
        case Some(ts) => Some([t] + ts)
  }

  /** `buildTree(nodes, parent)`; `None` when the source would recurse without end. */
  function BuildTree(nodes: seq<VfsNode>, parent: Option<string>): (r: Option<seq<Tree>>)
    ensures r.Some? ==> ProjectedForest(nodes, r.value, parent)
  {
    BuildList(nodes, ChildrenOf(nodes, parent), if parent.Some? then {parent.value} else {})
  }

  /**
   * The tail of `getVirtualFileSystem` once the nodes are fetched:
   * `buildTree(nodes, null)` inside the `try`, whose `catch` answers `[]` when
   * the recursion overflows the stack.
   */
  function ProjectFileSystem(nodes: seq<VfsNode>): (r: seq<Tree>)
    ensures BuildTree(nodes, None).Some? ==> ProjectedForest(nodes, r, None)
    ensures BuildTree(nodes, None).None? ==> r == []
  {
    match BuildTree(nodes, None)
    case Some(ts) => ts
    case None => []
  }
}
