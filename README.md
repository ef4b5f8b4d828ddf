# SelectionMetadata, modelled in Dafny

DocumentsUI's directory list keeps a `SelectionMetadata` object beside its
selection. The selection store (`MultiSelectManager`) notifies it each time
a document becomes selected or deselected. The object looks the document up
through a finder that returns a cursor row, or null for a stale id. It then
moves five counters by +1 or −1: partial (not fully downloaded) files,
directories, writable directories (those that accept new children),
documents that cannot be deleted, and documents that cannot be renamed. The
menu asks five O(1) questions of those counters and of the selection size:
`containsDirectories`, `containsPartialFiles`, `canDelete`, `canRename` and
`canPasteInto`.

The model has five modules:

- `Wrappers`: `Option`, the finder's result (None stands for a null cursor).
- `DocumentsContract`: `DocRow`, the two columns read from a cursor (mime
  type and a 32-bit flags word), the four flag bits, and `HasFlag`, the
  source's `(flags & FLAG) != 0`.
- `SelectionCounting`: what the counters mean. `Step` is the effect of one
  notification on the five counters. `Tally(ids)` is what the counters must
  be for a selection `ids`: per attribute, the number of selected ids that
  resolve to a row with that attribute. The lemmas relate the two, for one
  notification (`StepTally`) and for any run of notifications that respects
  the caller contract (`ReplayMatchesTally`).
- `Dirlist`: the class `SelectionMetadata` with its five `int` fields, and a
  stand-in `MultiSelectManager` holding only the current selection. A ghost
  set `Selected` holds the ids the object has been told are selected.
  `Valid()` is the counter invariant `Counts() == Tally(Selected)`.
  `InSync()` says that set is the store's selection. `OnItemStateChanged`
  accepts any call, as the source does. Its contract gives the new counters
  and keeps `Valid()` whenever the call reports a real transition (selecting
  an unselected id, or deselecting a selected one). Each query is a function
  of the object's state. Its contract states what it means about the
  selected documents when the invariant holds.
- `Scenarios`: client walk-throughs in which a store selects and deselects
  documents and then notifies the metadata. Each states the menu answers at
  that stage.

An id the finder cannot resolve counts towards no counter. So a selection
made of one stale id answers `canRename` true and `canDelete` true
(`Scenarios.StaleSelection`). The source behaves the same way.

## Model

| member | source | states |
|---|---|---|
| `Dirlist.SelectionMetadata.constructor` | src/com/android/documentsui/dirlist/SelectionMetadata.java:42-52 | all five counters start at zero and the invariant holds for the empty set of notified ids; so no directories, no partial files, and delete is allowed |
| `Dirlist.SelectionMetadata.OnItemStateChanged` | src/com/android/documentsui/dirlist/SelectionMetadata.java:55-81 | the new counters are `Step` of the old ones for the finder's row; an unresolved id changes no counter; the counter invariant survives every call that reports a real transition |
| `Dirlist.SelectionMetadata.KeepsTally` | src/com/android/documentsui/dirlist/SelectionMetadata.java:64-80 | counters moved by `Step` from a correct tally are the correct tally of the toggled selection, when the notification is a real transition |
| `Dirlist.SelectionMetadata.ContainsDirectories` | src/com/android/documentsui/dirlist/SelectionMetadata.java:84-86 | under the invariant: true iff some selected id resolves to a directory-type row |
| `Dirlist.SelectionMetadata.ContainsPartialFiles` | src/com/android/documentsui/dirlist/SelectionMetadata.java:89-91 | under the invariant: true iff some selected id resolves to a row with the partial flag |
| `Dirlist.SelectionMetadata.CanDelete` | src/com/android/documentsui/dirlist/SelectionMetadata.java:94-96 | under the invariant: true iff no selected id resolves to a row lacking delete support, whatever the selection size (so true when nothing is selected) |
| `Dirlist.SelectionMetadata.CanRename` | src/com/android/documentsui/dirlist/SelectionMetadata.java:99-101 | under the invariant and with the store in sync: true iff exactly one id is selected and it does not lack rename support |
| `Dirlist.SelectionMetadata.CanPasteInto` | src/com/android/documentsui/dirlist/SelectionMetadata.java:104-107 | under the invariant and with the store in sync: true iff exactly one id is selected and it is a directory that supports creating children |
| `SelectionCounting.Count` | src/com/android/documentsui/dirlist/SelectionMetadata.java:42-46 | the intended value of a counter is a natural number no larger than the selection size |
| `SelectionCounting.Tally` | src/com/android/documentsui/dirlist/SelectionMetadata.java:42-46 | every intended counter lies between 0 and the selection size |
| `SelectionCounting.StepChange` | src/com/android/documentsui/dirlist/SelectionMetadata.java:64-80 | one notification moves a counter by exactly +1 (selected) or −1 (deselected) when the resolved row has its attribute and leaves it unchanged otherwise; no counter moves by more than 1 |
| `SelectionCounting.StepUnresolved` | src/com/android/documentsui/dirlist/SelectionMetadata.java:56-61 | a notification whose lookup gives no row changes no counter |
| `SelectionCounting.SelectDeselectRestores` | src/com/android/documentsui/dirlist/SelectionMetadata.java:65-79 | selecting and then deselecting the same row restores all five counters, and so does the reverse order |
| `SelectionCounting.CountAdd` | src/com/android/documentsui/dirlist/SelectionMetadata.java:64-80 | adding a new id to the selection raises a counter's intended value by one exactly when the id counts towards it |
| `SelectionCounting.CountRemove` | src/com/android/documentsui/dirlist/SelectionMetadata.java:64-80 | removing a selected id lowers a counter's intended value by one exactly when the id counts towards it |
| `SelectionCounting.StepTally` | src/com/android/documentsui/dirlist/SelectionMetadata.java:64-80 | for a real transition, `Step` applied to the tally of a selection is the tally of the selection after the transition |
| `SelectionCounting.DuplicateSelectionDrifts` | src/com/android/documentsui/dirlist/SelectionMetadata.java:55-81 | notifying "selected" for an id already selected leaves the counter one above the tally: the caller contract is needed |
| `SelectionCounting.UnmatchedDeselectionDrifts` | src/com/android/documentsui/dirlist/SelectionMetadata.java:55-81 | notifying "deselected" for an id that is not selected leaves the counter one below the tally (below zero from an empty selection): the caller contract is needed |
| `SelectionCounting.CountZeroIff` | src/com/android/documentsui/dirlist/SelectionMetadata.java:84-101 | a counter's intended value is zero iff no selected id counts towards its attribute |
| `SelectionCounting.CountFullIff` | src/com/android/documentsui/dirlist/SelectionMetadata.java:104-107 | a counter's intended value equals the selection size iff every selected id counts towards its attribute |
| `SelectionCounting.ReplayMatchesTally` | src/com/android/documentsui/dirlist/SelectionMetadata.java:55-81 | after any run of notifications that are all real transitions, counters that matched the starting selection match the final selection |
| `SelectionCounting.TallyEmpty` | src/com/android/documentsui/dirlist/SelectionMetadata.java:42-46 | the empty selection tallies to five zero counters, the constructor's state |
| `SelectionCounting.ReplayFromZeroBounded` | src/com/android/documentsui/dirlist/SelectionMetadata.java:42-80 | starting from the constructor's zeros, any run that respects the caller contract keeps every counter between 0 and the selection size |
| `Scenarios.Select` | src/com/android/documentsui/dirlist/SelectionMetadata.java:55-81 | the store adds an id to its selection and notifies the metadata; the counters move by `Step`, the notified set gains the id, the store stays in sync, and the invariant holds afterwards when the id was not selected |
| `Scenarios.Deselect` | src/com/android/documentsui/dirlist/SelectionMetadata.java:55-81 | the store removes an id from its selection and notifies the metadata; the counters move by `Step`, the notified set loses the id, the store stays in sync, and the invariant holds afterwards when the id was selected |
| `Scenarios.SelectOne` | src/com/android/documentsui/dirlist/SelectionMetadata.java:99-107 | selecting one document into an empty selection offers rename iff it does not lack rename support, and paste iff it is a directory that accepts new children |
| `Scenarios.EmptySelection` | src/com/android/documentsui/dirlist/SelectionMetadata.java:94-107 | with nothing selected, delete is allowed and rename and paste are not |
| `Scenarios.WritableDirectoryAlone` | src/com/android/documentsui/dirlist/SelectionMetadata.java:84-107 | one writable, deletable, renamable directory selected: directories present, and paste, rename and delete all allowed |
| `Scenarios.DirectoryAndLockedFile` | src/com/android/documentsui/dirlist/SelectionMetadata.java:94-107 | adding a file that cannot be deleted refuses delete, and two selected items refuse rename and paste |
| `Scenarios.LockedFileLeft` | src/com/android/documentsui/dirlist/SelectionMetadata.java:84-101 | once the directory is deselected, no directory is reported, and delete and rename stay refused for the remaining file |
| `Scenarios.PartialFile` | src/com/android/documentsui/dirlist/SelectionMetadata.java:89-91 | a partial file is reported while selected and not after it is deselected |
| `Scenarios.StaleSelection` | src/com/android/documentsui/dirlist/SelectionMetadata.java:56-61 | a single selected id that the finder cannot resolve leaves every counter at zero, so delete and rename are allowed and paste is not |

## Left out

- Warning log for a null cursor (`Log.w`): the null branch is modelled as "no counter changes".
- Cursor access (`getCursorString`, `getCursorInt`): replaced by the finder `docFinder: string -> Option<DocRow>`. `DocRow` carries the two columns the class reads.
- The finder is a fixed function. In the app it reads a live model, so a document's flags could change between its selection and its deselection. The counters would then drift. The model does not capture this.
- `MimePredicate.isDirectoryType` is not part of this model. It is a constructor parameter of type `string -> bool`. The scenarios supply a directory-type test of their own.
- The `FLAG_*` values (delete `0x4`, create `0x8`, rename `0x40`, partial `0x10000`) come from the platform's document contract, not from the modelled file. The general lemmas do not depend on them; the scenarios rely only on the four being distinct single bits.
- `MultiSelectManager` internals: only its current selection is modelled, as a set of ids. The store's notification order (update the selection, then notify) appears only in `Scenarios.Select` and `Scenarios.Deselect`.
- The Java interfaces `MenuManager.SelectionDetails` and `MultiSelectManager.ItemCallback`: the class simply has the methods they declare.
- Counter overflow: the counters are unbounded integers, while Java's `int` wraps at 2^31. Under the invariant a counter never exceeds the selection size, so this does not matter in practice.
- Thread safety: the class is used from one UI thread only.
