/**
 * Client walk-throughs of SelectionMetadata: a selection store and a
 * metadata object driven the way the store drives them, with the answers the
 * menu would see at each stage.
 */
module Scenarios {
  import opened Wrappers
  import opened DocumentsContract
  import opened SelectionCounting
  import opened Dirlist

  const DIR_MIME := "vnd.android.document/directory"

  /** A directory-type test for the walk-throughs. */
  predicate IsDirMime(mimeType: string)
  {
    mimeType == DIR_MIME
  }

  /**
   * A fixed set of documents: a writable directory, a file that can be neither
   * deleted nor renamed, a partially downloaded file; any other id is stale.
   */
  function Finder(id: string): Option<DocRow>
  {
    if id == "photos" then Some(DocRow(DIR_MIME, FLAG_DIR_SUPPORTS_CREATE | FLAG_SUPPORTS_DELETE | FLAG_SUPPORTS_RENAME))
    else if id == "locked.txt" then Some(DocRow("text/plain", 0))
    else if id == "video.mp4" then Some(DocRow("video/mp4", FLAG_PARTIAL | FLAG_SUPPORTS_DELETE | FLAG_SUPPORTS_RENAME))
    else None
  }

  /** The store selects `id` and then notifies the metadata. */
  method Select(mgr: MultiSelectManager, md: SelectionMetadata, id: string)
    requires md.selectionMgr == mgr
    modifies mgr, md
    ensures mgr.selection == old(mgr.selection) + {id}
    ensures md.Selected == old(md.Selected) + {id}
    ensures old(md.InSync()) ==> md.InSync()
    ensures old(md.Valid()) && id !in old(md.Selected) ==> md.Valid()
    ensures md.Counts() == Step(old(md.Counts()), md.docFinder(id), true, md.isDirectoryType)
  {
    mgr.selection := mgr.selection + {id};
    md.OnItemStateChanged(id, true);
  }

  /** The store deselects `id` and then notifies the metadata. */
  method Deselect(mgr: MultiSelectManager, md: SelectionMetadata, id: string)
    requires md.selectionMgr == mgr
    modifies mgr, md
    ensures mgr.selection == old(mgr.selection) - {id}
    ensures md.Selected == old(md.Selected) - {id}
    ensures old(md.InSync()) ==> md.InSync()
    ensures old(md.Valid()) && id in old(md.Selected) ==> md.Valid()
    ensures md.Counts() == Step(old(md.Counts()), md.docFinder(id), false, md.isDirectoryType)
  {
    mgr.selection := mgr.selection - {id};
    md.OnItemStateChanged(id, false);
  }

  /**
   * From an empty selection, the store selects one document: rename is then
   * offered exactly when the document does not lack rename support, and paste
   * exactly when it is a directory that accepts new children.
   */
  method SelectOne(mgr: MultiSelectManager, md: SelectionMetadata, id: string) returns (canRename: bool, canPasteInto: bool)
    requires md.selectionMgr == mgr && md.Valid() && md.InSync() && mgr.selection == {}
    modifies mgr, md
    ensures canRename <==> !md.Marked(id, NoRename)
    ensures canPasteInto <==> md.Marked(id, Directory) && md.Marked(id, WritableDirectory)
  {
    Select(mgr, md, id);
    assert md.Valid() && md.InSync() && md.Selected == {id};
    canRename, canPasteInto := md.CanRename(), md.CanPasteInto();
  }

  /** Nothing selected: delete is allowed (vacuously), rename and paste are not. */
  method EmptySelection() returns (canDelete: bool, canRename: bool, canPasteInto: bool)
    ensures canDelete && !canRename && !canPasteInto
  {
    var mgr := new MultiSelectManager();
    var md := new SelectionMetadata(mgr, Finder, IsDirMime);
    canDelete, canRename, canPasteInto := md.CanDelete(), md.CanRename(), md.CanPasteInto();
  }

  /** A writable directory alone: it is reported, and paste, rename and delete are all offered. */
  method WritableDirectoryAlone() returns (containsDirectories: bool, canPasteInto: bool, canRename: bool, canDelete: bool)
    ensures containsDirectories && canPasteInto && canRename && canDelete
  {
    var mgr := new MultiSelectManager();
    var md := new SelectionMetadata(mgr, Finder, IsDirMime);
    Select(mgr, md, "photos");
    assert md.Counts() == Counters(0, 1, 1, 0, 0) && mgr.selection == {"photos"};
    containsDirectories, canPasteInto := md.ContainsDirectories(), md.CanPasteInto();
    canRename, canDelete := md.CanRename(), md.CanDelete();
  }

  /** The directory plus a file that cannot be deleted: delete, rename and paste are all refused. */
  method DirectoryAndLockedFile() returns (canDelete: bool, canRename: bool, canPasteInto: bool)
    ensures !canDelete && !canRename && !canPasteInto
  {
    var mgr := new MultiSelectManager();
    var md := new SelectionMetadata(mgr, Finder, IsDirMime);
    Select(mgr, md, "photos");
    assert md.Counts() == Counters(0, 1, 1, 0, 0);
    Select(mgr, md, "locked.txt");
    assert md.Counts() == Counters(0, 1, 1, 1, 1) && mgr.selection == {"photos", "locked.txt"};
    canDelete, canRename, canPasteInto := md.CanDelete(), md.CanRename(), md.CanPasteInto();
  }

  /**
   * The directory deselected again, leaving only the file that can be neither
   * deleted nor renamed: no directory, no delete and, though one item is
   * selected, no rename.
   */
  method LockedFileLeft() returns (containsDirectories: bool, canDelete: bool, canRename: bool)
    ensures !containsDirectories && !canDelete && !canRename
  {
    var mgr := new MultiSelectManager();
    var md := new SelectionMetadata(mgr, Finder, IsDirMime);
    Select(mgr, md, "photos");
    assert md.Counts() == Counters(0, 1, 1, 0, 0);
    Select(mgr, md, "locked.txt");
    Deselect(mgr, md, "photos");
    assert md.Counts() == Counters(0, 0, 0, 1, 1) && mgr.selection == {"locked.txt"};
    assert md.Valid() && md.InSync() && md.Selected == {"locked.txt"};
    containsDirectories, canDelete, canRename := md.ContainsDirectories(), md.CanDelete(), md.CanRename();
  }

  /** A partially downloaded file is reported while selected and no longer once deselected. */
  method PartialFile() returns (whileSelected: bool, afterDeselect: bool)
    ensures whileSelected && !afterDeselect
  {
    var mgr := new MultiSelectManager();
    var md := new SelectionMetadata(mgr, Finder, IsDirMime);
    Select(mgr, md, "video.mp4");
    whileSelected := md.ContainsPartialFiles();
    Deselect(mgr, md, "video.mp4");
    afterDeselect := md.ContainsPartialFiles();
  }

  /**
   * A stale id that the finder cannot resolve is skipped by every counter, so
   * when it is the only selected id rename is offered and paste is not.
   */
  method StaleSelection() returns (canDelete: bool, canRename: bool, canPasteInto: bool)
    ensures canDelete && canRename && !canPasteInto
  {
    var mgr := new MultiSelectManager();
    var md := new SelectionMetadata(mgr, Finder, IsDirMime);
    Select(mgr, md, "gone");
    canDelete, canRename, canPasteInto := md.CanDelete(), md.CanRename(), md.CanPasteInto();
  }
}
