/**
 * SelectionMetadata: five counters kept up to date as documents enter and
 * leave the selection, so that menu code can ask what the selection contains
 * and which actions it allows without rescanning it.
 */
module Dirlist {
  import opened Wrappers
  import opened DocumentsContract
  import opened SelectionCounting

  /** The external selection store; only its current selection is modelled. */
  class MultiSelectManager {
    var selection: set<string>

    constructor ()
      ensures selection == {}
    {
      selection := {};
    }
  }

  class SelectionMetadata {
    const selectionMgr: MultiSelectManager
    const docFinder: DocFinder
    const isDirectoryType: MimePredicate

    /** Partial files are files that have not been fully downloaded. */
    var partialCount: int
    var directoryCount: int
    var writableDirectoryCount: int
    var noDeleteCount: int
    var noRenameCount: int

    /** The ids this object has been told are selected and not since deselected. */
    ghost var Selected: set<string>

    ghost function Counts(): Counters
      reads this
    {
      Counters(partialCount, directoryCount, writableDirectoryCount, noDeleteCount, noRenameCount)
    }

    /** The counter invariant: each counter counts the selected documents with its attribute. */
    ghost predicate Valid()
      reads this
    {
      Counts() == Tally(Selected, docFinder, isDirectoryType)
    }

    /** The notifications received so far describe the store's current selection. */
    ghost predicate InSync()
      reads this, selectionMgr
    {
      Selected == selectionMgr.selection
    }

    /** Whether document `id` counts towards attribute `a`. */
    predicate Marked(id: string, a: Attribute)
    {
      Counted(docFinder, isDirectoryType, id, a)
    }

    constructor (selectionMgr: MultiSelectManager, docFinder: DocFinder, isDirectoryType: MimePredicate)
      ensures this.selectionMgr == selectionMgr && this.docFinder == docFinder && this.isDirectoryType == isDirectoryType
      ensures Counts() == ZERO && Selected == {} && Valid()
      ensures !ContainsDirectories() && !ContainsPartialFiles() && CanDelete()
    {
      this.selectionMgr := selectionMgr;
      this.docFinder := docFinder;
      this.isDirectoryType := isDirectoryType;
      partialCount, directoryCount, writableDirectoryCount, noDeleteCount, noRenameCount := 0, 0, 0, 0, 0;
      Selected := {};
      new;
      TallyEmpty(docFinder, isDirectoryType);
    }

    /**
     * The selection store's notification that `modelId` became selected or
     * deselected. It does not check that the notification is a real transition;
     * the counter invariant survives the call only when it is.
     */
    method OnItemStateChanged(modelId: string, selected: bool)
      modifies this
      ensures Selected == Toggle(old(Selected), modelId, selected)
      ensures Counts() == Step(old(Counts()), docFinder(modelId), selected, isDirectoryType)
      ensures docFinder(modelId).None? ==> Counts() == old(Counts())
      ensures old(Valid()) && (selected <==> modelId !in old(Selected)) ==> Valid()
    {
      ghost var before, selectedBefore := Counts(), Selected;
      Selected := Toggle(Selected, modelId, selected);

      var cursor := docFinder(modelId);
      if cursor.None? {
        KeepsTally(before, selectedBefore, modelId, selected);
        return;
      }

      var row := cursor.value;
      if isDirectoryType(row.mimeType) {
        directoryCount := directoryCount + if selected then 1 else -1;
      }
      if row.flags & FLAG_PARTIAL != 0 {
        partialCount := partialCount + if selected then 1 else -1;
      }
      if row.flags & FLAG_DIR_SUPPORTS_CREATE != 0 {
        writableDirectoryCount := writableDirectoryCount + if selected then 1 else -1;
      }
      if row.flags & FLAG_SUPPORTS_DELETE == 0 {
        noDeleteCount := noDeleteCount + if selected then 1 else -1;
      }
      if row.flags & FLAG_SUPPORTS_RENAME == 0 {
        noRenameCount := noRenameCount + if selected then 1 else -1;
      }
      KeepsTally(before, selectedBefore, modelId, selected);
    }

    /** The counter invariant survives a notification that reports a real transition. */
    lemma KeepsTally(before: Counters, selectedBefore: set<string>, modelId: string, selected: bool)
      requires Counts() == Step(before, docFinder(modelId), selected, isDirectoryType)
      requires Selected == Toggle(selectedBefore, modelId, selected)
      ensures before == Tally(selectedBefore, docFinder, isDirectoryType) && (selected <==> modelId !in selectedBefore) ==> Valid()
    {
      if before == Tally(selectedBefore, docFinder, isDirectoryType) && (selected <==> modelId !in selectedBefore) {
        StepTally(selectedBefore, docFinder, isDirectoryType, modelId, selected);
      }
    }

    /** Some selected document is a directory. */
    function ContainsDirectories(): (r: bool)
      reads this
      ensures Valid() ==> (r <==> exists id :: id in Selected && Marked(id, Directory))
    {
      CountZeroIff(Selected, docFinder, isDirectoryType, Directory);
      directoryCount > 0
    }

    /** Some selected document is only partially downloaded. */
    function ContainsPartialFiles(): (r: bool)
      reads this
      ensures Valid() ==> (r <==> exists id :: id in Selected && Marked(id, Partial))
    {
      CountZeroIff(Selected, docFinder, isDirectoryType, Partial);
      partialCount > 0
    }

    /** No selected document lacks delete support; true of an empty selection. */
    function CanDelete(): (r: bool)
      reads this
      ensures Valid() ==> (r <==> forall id :: id in Selected ==> !Marked(id, NoDelete))
    {
      CountZeroIff(Selected, docFinder, isDirectoryType, NoDelete);
      noDeleteCount == 0
    }

    /** Exactly one document is selected and it does not lack rename support. */
    function CanRename(): (r: bool)
      reads this, selectionMgr
      ensures Valid() && InSync() ==>
        (r <==> |Selected| == 1 && forall id :: id in Selected ==> !Marked(id, NoRename))
    {
      CountZeroIff(Selected, docFinder, isDirectoryType, NoRename);
      noRenameCount == 0 && |selectionMgr.selection| == 1
    }

    /** Exactly one document is selected and it is a directory that accepts new children. */
    function CanPasteInto(): (r: bool)
      reads this, selectionMgr
      ensures Valid() && InSync() ==>
        (r <==> |Selected| == 1 && forall id :: id in Selected ==> Marked(id, Directory) && Marked(id, WritableDirectory))
    {
      CountFullIff(Selected, docFinder, isDirectoryType, Directory);
      CountFullIff(Selected, docFinder, isDirectoryType, WritableDirectory);
      directoryCount == 1 && writableDirectoryCount == 1 && |selectionMgr.selection| == 1
    }
  }
}
