/**
 * The file-explorer application: a fixed in-memory file system keyed by id,
 * the listing of the current folder (folders first, then by name), and
 * navigation as a stack of folder ids (enter a folder, go back, jump to a
 * breadcrumb).
 */
module FileExplorer {
  import opened Wrappers

  datatype EntryKind = Folder | File

  /** An entry; folders list their children's ids, files have none. */
  datatype FsNode = FsNode(id: string, name: string, kind: EntryKind, children: Option<seq<string>>, parentId: Option<string>)

  type Fs = map<string, FsNode>

  const RootId := "root"

  /** The explorer's built-in file system. */
  const InitialFs: Fs := map[
    "root" := FsNode("root", "root", Folder, Some(["docs", "pics", "downloads", "projects"]), None),
    "docs" := FsNode("docs", "Documents", Folder, Some(["resume", "notes"]), Some("root")),
    "pics" := FsNode("pics", "Pictures", Folder, Some(["vacation"]), Some("root")),
    "downloads" := FsNode("downloads", "Downloads", Folder, Some(["app"]), Some("root")),
    "projects" := FsNode("projects", "Projects", Folder, Some(["nexus"]), Some("root")),
    "vacation" := FsNode("vacation", "Vacation_Photo.png", File, None, Some("pics")),
    "resume" := FsNode("resume", "Resume.pdf", File, None, Some("docs")),
    "notes" := FsNode("notes", "Notes.txt", File, None, Some("docs")),
    "app" := FsNode("app", "Installer.exe", File, None, Some("downloads")),
    "nexus" := FsNode("nexus", "Agentic_OS_Architecture.pdf", File, None, Some("projects"))
  ]

  /** The path the explorer opens with. */
  const InitialPath := [RootId]

  /** `node.children || []`. */
  function ChildIds(n: FsNode): seq<string> {
    n.children.GetOr([])
  }

  /**
   * Every entry is stored under its own id, every listed child exists, and a
   * child is listed by a folder exactly when it names that folder as parent.
   */
  ghost predicate WellFormed(fs: Fs) {
    && (forall k :: k in fs ==> fs[k].id == k)
    && (forall k, c :: k in fs && c in ChildIds(fs[k]) ==> c in fs)
    && (forall k, c :: k in fs && c in fs ==> (c in ChildIds(fs[k]) <==> fs[c].parentId == Some(k)))
  }

  // ---------------------------------------------------------------------------
  // Listing order

  /** Code-point order on names: the model's `localeCompare`, as -1, 0 or 1. */
  function NameCompare(a: string, b: string): (r: int)
    ensures r == 0 <==> a == b
    ensures -1 <= r <= 1
  {
    if a == [] && b == [] then 0
    else if a == [] then -1
    else if b == [] then 1
    else if a[0] < b[0] then -1
    else if a[0] > b[0] then 1
    else
      var r := NameCompare(a[1..], b[1..]);
      assert r == 0 ==> a == [a[0]] + a[1..] == [b[0]] + b[1..] == b;
      r
  }

  /** The listing comparator: a folder precedes a file, entries of one kind compare by name. */
  function CompareItems(a: FsNode, b: FsNode): int {
    if a.kind != b.kind then (if a.kind == Folder then -1 else 1)
    else NameCompare(a.name, b.name)
  }

  /** `a` may come before `b` in the listing. */
  predicate ItemLe(a: FsNode, b: FsNode) {
    CompareItems(a, b) <= 0
  }

  predicate Sorted(xs: seq<FsNode>) {
    forall i, j :: 0 <= i < j < |xs| ==> ItemLe(xs[i], xs[j])
  }

  lemma {:induction false} NameCompareAntisymmetric(a: string, b: string)
    ensures NameCompare(a, b) == -NameCompare(b, a)
  {
    if a != [] && b != [] && a[0] == b[0] {
      NameCompareAntisymmetric(a[1..], b[1..]);
    }
  }

  lemma {:induction false} NameCompareTransitive(a: string, b: string, c: string)
    requires NameCompare(a, b) <= 0 && NameCompare(b, c) <= 0
    ensures NameCompare(a, c) <= 0
  {
    if a != [] && b != [] && c != [] && a[0] == b[0] && b[0] == c[0] {
      NameCompareTransitive(a[1..], b[1..], c[1..]);
    }
  }

  /** The comparator is a total preorder, as `Array.prototype.sort` needs. */
  lemma ItemLeTotal(a: FsNode, b: FsNode)
    ensures ItemLe(a, b) || ItemLe(b, a)
  {
    NameCompareAntisymmetric(a.name, b.name);
  }

  lemma ItemLeTransitive(a: FsNode, b: FsNode, c: FsNode)
    requires ItemLe(a, b) && ItemLe(b, c)
    ensures ItemLe(a, c)
  {
    if a.kind == b.kind && b.kind == c.kind {
      NameCompareTransitive(a.name, b.name, c.name);
    }
  }

  /** A sorted list stays sorted behind an entry that may precede all of it. */
  lemma SortedCons(x: FsNode, s: seq<FsNode>)
    requires Sorted(s)
    requires forall y :: y in s ==> ItemLe(x, y)
    ensures Sorted([x] + s)
  {
    var r := [x] + s;
    forall i, j | 0 <= i < j < |r|
      ensures ItemLe(r[i], r[j])
    {
      assert r[j] == s[j - 1];
      if i > 0 {
        assert r[i] == s[i - 1];
      }
    }
  }

  /** Inserts `x` before the first entry it may precede; ties keep `x` first. */
  function Insert(x: FsNode, s: seq<FsNode>): (r: seq<FsNode>)
    requires Sorted(s)
    ensures Sorted(r)
    ensures multiset(r) == multiset(s) + multiset{x}
  {
    if s == [] then [x]
    else if ItemLe(x, s[0]) then
      forall y | y in s
        ensures ItemLe(x, y)
      {
        if y != s[0] {
          ItemLeTransitive(x, s[0], y);
        }
      }
      SortedCons(x, s);
      [x] + s
    else
      ItemLeTotal(x, s[0]);
      var rest := Insert(x, s[1..]);
      assert s == [s[0]] + s[1..];
      forall y | y in rest
        ensures ItemLe(s[0], y)
      {
        assert y in multiset(rest);
      }
      SortedCons(s[0], rest);
      [s[0]] + rest
  }

  /** `Array.prototype.sort` with the listing comparator, as a stable insertion sort. */
  function SortItems(xs: seq<FsNode>): (r: seq<FsNode>)
    ensures Sorted(r)
    ensures multiset(r) == multiset(xs)
  {
    if xs == [] then []
    else
      assert xs == [xs[0]] + xs[1..];
      Insert(xs[0], SortItems(xs[1..]))
  }

  /** The entries of a folder's children, in stored order. */
  function ChildItems(fs: Fs, folderId: string): (r: seq<FsNode>)
    requires folderId in fs
    requires forall c :: c in ChildIds(fs[folderId]) ==> c in fs
    ensures |r| == |ChildIds(fs[folderId])|
    ensures forall i :: 0 <= i < |r| ==> r[i] == fs[ChildIds(fs[folderId])[i]]
  {
    var ids := ChildIds(fs[folderId]);
    seq(|ids|, i requires 0 <= i < |ids| => fs[ids[i]])
  }

  /** `currentItems`: the current folder's children, sorted for display. */
  function Listing(fs: Fs, folderId: string): (r: seq<FsNode>)
    requires folderId in fs
    requires forall c :: c in ChildIds(fs[folderId]) ==> c in fs
    ensures multiset(r) == multiset(ChildItems(fs, folderId))
    ensures Sorted(r)
  {
    SortItems(ChildItems(fs, folderId))
  }

  // ---------------------------------------------------------------------------
  // Navigation

  /** The folder whose contents are shown: the last id on the path. */
  function CurrentFolderId(path: seq<string>): string
    requires path != []
  {
    path[|path| - 1]
  }

  /** `handleNavigate`: entering a folder pushes its id; choosing a file only raises an alert. */
  function Navigate(path: seq<string>, id: string, kind: EntryKind): (r: seq<string>)
    ensures kind == Folder ==> |r| == |path| + 1 && r[..|path|] == path && r[|path|] == id
    ensures kind == File ==> r == path
  {
    if kind == Folder then path + [id] else path
  }

  /** `goBack`: pops the last folder unless only the root is left. */
  function GoBack(path: seq<string>): (r: seq<string>)
    ensures |path| > 1 ==> |r| == |path| - 1 && path == r + [path[|path| - 1]]
    ensures |path| <= 1 ==> r == path
  {
    if |path| > 1 then path[..|path| - 1] else path
  }

  /** The end index `Array.prototype.slice(0, end)` actually uses for a list of length `len`. */
  function SliceEnd(len: nat, end: int): (r: nat)
    ensures r <= len
    ensures 0 <= end <= len ==> r == end
  {
    if end < 0 then (if len + end < 0 then 0 else len + end)
    else if end > len then len
    else end
  }

  /** `navigateToBreadcrumb(index)`: `currentPath.slice(0, index + 1)`. */
  function NavigateToBreadcrumb(path: seq<string>, index: int): (r: seq<string>)
    ensures |r| <= |path| && r == path[..|r|]
    ensures 0 <= index < |path| ==> |r| == index + 1
  {
    path[..SliceEnd(|path|, index + 1)]
  }

  /**
   * A path the explorer can be on: it starts at the root, every id on it is a
   * folder of `fs`, and each folder is a listed child of the one before.
   */
  ghost predicate ValidPath(fs: Fs, path: seq<string>) {
    && |path| > 0
    && path[0] == RootId
    && (forall k :: 0 <= k < |path| ==> path[k] in fs && fs[path[k]].kind == Folder)
    && (forall k :: 0 < k < |path| ==> path[k] in ChildIds(fs[path[k - 1]]))
  }
}
