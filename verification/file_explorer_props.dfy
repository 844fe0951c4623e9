/** Properties of the file explorer's data, listing and navigation. */
module FileExplorerProps {
  import opened Wrappers
  import opened FileExplorer

  lemma InitialFsKeyed()
    ensures forall k :: k in InitialFs ==> InitialFs[k].id == k
  {
  }

  lemma InitialFsChildrenExist()
    ensures forall k, c :: k in InitialFs && c in ChildIds(InitialFs[k]) ==> c in InitialFs
  {
  }

  lemma InitialFsLinksAgreeAt(k: string)
    requires k in InitialFs
    ensures forall c :: c in InitialFs ==> (c in ChildIds(InitialFs[k]) <==> InitialFs[c].parentId == Some(k))
  {
  }

  lemma InitialFsLinksAgree()
    ensures forall k, c :: k in InitialFs && c in InitialFs ==>
      (c in ChildIds(InitialFs[k]) <==> InitialFs[c].parentId == Some(k))
  {
    forall k | k in InitialFs
      ensures forall c :: c in InitialFs ==> (c in ChildIds(InitialFs[k]) <==> InitialFs[c].parentId == Some(k))
    {
      InitialFsLinksAgreeAt(k);
    }
  }

  /** In the built-in file system, a folder lists a child exactly when the child names it as parent. */
  lemma InitialFsWellFormed()
    ensures WellFormed(InitialFs)
  {
    InitialFsKeyed();
    InitialFsChildrenExist();
    InitialFsLinksAgree();
  }

  lemma InitialPathValid()
    ensures ValidPath(InitialFs, InitialPath)
  {
  }

  /** The listing shows folders before files, and entries of one kind in name order. */
  lemma ListingFoldersFirst(fs: Fs, folderId: string, i: int, j: int)
    requires folderId in fs
    requires forall c :: c in ChildIds(fs[folderId]) ==> c in fs
    requires 0 <= i < j < |Listing(fs, folderId)|
    ensures var r := Listing(fs, folderId);
            && (r[i].kind == File ==> r[j].kind == File)
            && (r[i].kind == r[j].kind ==> NameCompare(r[i].name, r[j].name) <= 0)
  {
    var r := Listing(fs, folderId);
    assert ItemLe(r[i], r[j]);
  }

  /** An entry is listed exactly when it is one of the current folder's children. */
  lemma ListingShowsChildren(fs: Fs, folderId: string, x: FsNode)
    requires folderId in fs
    requires forall c :: c in ChildIds(fs[folderId]) ==> c in fs
    ensures x in Listing(fs, folderId) <==> exists c :: c in ChildIds(fs[folderId]) && fs[c] == x
  {
    var items := ChildItems(fs, folderId);
    var ids := ChildIds(fs[folderId]);
    assert x in Listing(fs, folderId) <==> x in multiset(items);
    if x in items {
      var i :| 0 <= i < |items| && items[i] == x;
      assert ids[i] in ids && fs[ids[i]] == x;
    }
    if exists c :: c in ids && fs[c] == x {
      var c :| c in ids && fs[c] == x;
      var i :| 0 <= i < |ids| && ids[i] == c;
      assert items[i] == x;
    }
  }

  /** Entering a folder shown in the listing keeps the path valid; choosing a file keeps the path. */
  lemma NavigateKeepsValid(fs: Fs, path: seq<string>, x: FsNode)
    requires WellFormed(fs)
    requires ValidPath(fs, path)
    requires x in Listing(fs, CurrentFolderId(path))
    ensures ValidPath(fs, Navigate(path, x.id, x.kind))
  {
    var cur := CurrentFolderId(path);
    ListingShowsChildren(fs, cur, x);
    var c :| c in ChildIds(fs[cur]) && fs[c] == x;
    assert x.id == c;
  }

  /** Going back keeps the path valid: it never empties the path or drops the root. */
  lemma GoBackKeepsValid(fs: Fs, path: seq<string>)
    requires ValidPath(fs, path)
    ensures ValidPath(fs, GoBack(path))
  {
  }

  /** Jumping to a shown breadcrumb keeps the path valid. */
  lemma BreadcrumbKeepsValid(fs: Fs, path: seq<string>, index: int)
    requires ValidPath(fs, path)
    requires 0 <= index < |path|
    ensures ValidPath(fs, NavigateToBreadcrumb(path, index))
  {
  }

  /** Going back undoes entering a folder. */
  lemma GoBackUndoesNavigate(path: seq<string>, id: string)
    requires path != []
    ensures GoBack(Navigate(path, id, Folder)) == path
  {
    assert (path + [id])[..|path|] == path;
  }

  /** Going back is jumping to the next-to-last breadcrumb. */
  lemma GoBackIsBreadcrumb(path: seq<string>)
    requires |path| > 1
    ensures GoBack(path) == NavigateToBreadcrumb(path, |path| - 2)
  {
  }

  /** The documents folder stores "Resume.pdf" before "Notes.txt" but lists them by name. */
  lemma DocumentsListedByName()
    ensures Listing(InitialFs, "docs") == [InitialFs["notes"], InitialFs["resume"]]
  {
    var resume := InitialFs["resume"];
    var notes := InitialFs["notes"];
    assert ChildItems(InitialFs, "docs") == [resume, notes];
    assert SortItems([notes]) == [notes];
    assert NameCompare(resume.name, notes.name) == 1;
    assert SortItems([resume, notes]) == Insert(resume, [notes]);
  }
}
