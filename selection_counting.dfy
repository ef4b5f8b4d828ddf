/**
 * What the five counters of SelectionMetadata mean: for a set of selected
 * document ids, how many resolve to a row with each attribute, and how one
 * selection-change notification moves those counts.
 */
module SelectionCounting {
  import opened Wrappers
  import opened DocumentsContract

  /** Looks a document id up; None plays the part of a null cursor. */
  type DocFinder = string -> Option<DocRow>

  /** Classifies a mime type as a directory type or not. */
  type MimePredicate = string -> bool

  /** The attribute each of the five counters tracks. */
  datatype Attribute = Partial | Directory | WritableDirectory | NoDelete | NoRename

  /** Whether a resolved row has attribute `a`. The "No" attributes hold when the flag is missing. */
  predicate Has(row: DocRow, a: Attribute, isDirectoryType: MimePredicate)
  {
    match a
    case Partial => HasFlag(row, FLAG_PARTIAL)
    case Directory => isDirectoryType(row.mimeType)
    case WritableDirectory => HasFlag(row, FLAG_DIR_SUPPORTS_CREATE)
    case NoDelete => !HasFlag(row, FLAG_SUPPORTS_DELETE)
    case NoRename => !HasFlag(row, FLAG_SUPPORTS_RENAME)
  }

  /** Whether document `id` counts towards attribute `a`; an id that does not resolve counts towards none. */
  predicate Counted(finder: DocFinder, isDirectoryType: MimePredicate, id: string, a: Attribute)
  {
    finder(id).Some? && Has(finder(id).value, a, isDirectoryType)
  }

  /** The five counters, one per attribute. */
  datatype Counters = Counters(partial: int, directory: int, writableDirectory: int, noDelete: int, noRename: int)
  {
    function Get(a: Attribute): int
    {
      match a
      case Partial => partial
      case Directory => directory
      case WritableDirectory => writableDirectory
      case NoDelete => noDelete
      case NoRename => noRename
    }
  }

  const ZERO := Counters(0, 0, 0, 0, 0)

  /** How much one notification moves a counter whose attribute the document has. */
  function Delta(selected: bool): int
  {
    if selected then 1 else -1
  }

  /** The counters after one notification about a document whose lookup gave `row`. */
  function Step(c: Counters, row: Option<DocRow>, selected: bool, isDirectoryType: MimePredicate): Counters
  {
    match row
    case None => c
    case Some(d) =>
      Counters(
        c.partial + (if Has(d, Partial, isDirectoryType) then Delta(selected) else 0),
        c.directory + (if Has(d, Directory, isDirectoryType) then Delta(selected) else 0),
        c.writableDirectory + (if Has(d, WritableDirectory, isDirectoryType) then Delta(selected) else 0),
        c.noDelete + (if Has(d, NoDelete, isDirectoryType) then Delta(selected) else 0),
        c.noRename + (if Has(d, NoRename, isDirectoryType) then Delta(selected) else 0))
  }

  /** The selected ids after a notification; a notification for an id already in that state changes nothing. */
  function Toggle(ids: set<string>, id: string, selected: bool): set<string>
  {
    if selected then ids + {id} else ids - {id}
  }

  /** The selected ids that count towards `a`. */
  ghost function Matching(ids: set<string>, finder: DocFinder, isDirectoryType: MimePredicate, a: Attribute): (m: set<string>)
    ensures m <= ids
    ensures forall id :: id in m <==> id in ids && Counted(finder, isDirectoryType, id, a)
  {
    set id | id in ids && Counted(finder, isDirectoryType, id, a)
  }

  /** Number of selected ids that count towards `a`: what the counter for `a` should hold. */
  ghost function Count(ids: set<string>, finder: DocFinder, isDirectoryType: MimePredicate, a: Attribute): (n: nat)
    ensures n <= |ids|
  {
    SubsetCard(Matching(ids, finder, isDirectoryType, a), ids);
    |Matching(ids, finder, isDirectoryType, a)|
  }

  /** The counters a consistent SelectionMetadata holds for the selection `ids`. */
  ghost function Tally(ids: set<string>, finder: DocFinder, isDirectoryType: MimePredicate): (c: Counters)
    ensures forall a :: 0 <= c.Get(a) <= |ids|
  {
    Counters(
      Count(ids, finder, isDirectoryType, Partial),
      Count(ids, finder, isDirectoryType, Directory),
      Count(ids, finder, isDirectoryType, WritableDirectory),
      Count(ids, finder, isDirectoryType, NoDelete),
      Count(ids, finder, isDirectoryType, NoRename))
  }

  lemma {:induction false} SubsetCard(a: set<string>, b: set<string>)
    requires a <= b
    ensures |a| <= |b|
  {
    if a != {} {
      var x :| x in a;
      SubsetCard(a - {x}, b - {x});
    }
  }

  // ---- One notification ------------------------------------------------------------------

  /** A notification moves the counter for `a` by exactly +1 or -1 when the resolved row has `a`, and leaves it alone otherwise. */
  lemma StepChange(c: Counters, row: Option<DocRow>, selected: bool, isDirectoryType: MimePredicate, a: Attribute)
    ensures Step(c, row, selected, isDirectoryType).Get(a) ==
      c.Get(a) + (if row.Some? && Has(row.value, a, isDirectoryType) then (if selected then 1 else -1) else 0)
    ensures -1 <= Step(c, row, selected, isDirectoryType).Get(a) - c.Get(a) <= 1
  {
  }

  /** A notification about an id that does not resolve changes no counter. */
  lemma StepUnresolved(c: Counters, selected: bool, isDirectoryType: MimePredicate)
    ensures Step(c, None, selected, isDirectoryType) == c
  {
  }

  /** Selecting a document and then deselecting it restores every counter, and so does the reverse. */
  lemma SelectDeselectRestores(c: Counters, row: Option<DocRow>, isDirectoryType: MimePredicate)
    ensures Step(Step(c, row, true, isDirectoryType), row, false, isDirectoryType) == c
    ensures Step(Step(c, row, false, isDirectoryType), row, true, isDirectoryType) == c
  {
  }

  lemma CountAdd(ids: set<string>, finder: DocFinder, isDirectoryType: MimePredicate, id: string, a: Attribute)
    requires id !in ids
    ensures Count(ids + {id}, finder, isDirectoryType, a) ==
      Count(ids, finder, isDirectoryType, a) + (if Counted(finder, isDirectoryType, id, a) then 1 else 0)
  {
    var before := Matching(ids, finder, isDirectoryType, a);
    var after := Matching(ids + {id}, finder, isDirectoryType, a);
    if Counted(finder, isDirectoryType, id, a) {
      assert after == before + {id};
    } else {
      assert after == before;
    }
  }

  lemma CountRemove(ids: set<string>, finder: DocFinder, isDirectoryType: MimePredicate, id: string, a: Attribute)
    requires id in ids
    ensures Count(ids - {id}, finder, isDirectoryType, a) ==
      Count(ids, finder, isDirectoryType, a) - (if Counted(finder, isDirectoryType, id, a) then 1 else 0)
  {
    assert (ids - {id}) + {id} == ids;
    CountAdd(ids - {id}, finder, isDirectoryType, id, a);
  }

  /**
   * The counter invariant is preserved by a real transition: selecting an id that
   * was not selected, or deselecting one that was, moves the tallied counters
   * exactly as Step moves them.
   */
  lemma StepTally(ids: set<string>, finder: DocFinder, isDirectoryType: MimePredicate, id: string, selected: bool)
    requires selected <==> id !in ids
    ensures Step(Tally(ids, finder, isDirectoryType), finder(id), selected, isDirectoryType) ==
      Tally(Toggle(ids, id, selected), finder, isDirectoryType)
  {
    var attributes := [Partial, Directory, WritableDirectory, NoDelete, NoRename];
    forall i | 0 <= i < |attributes|
      ensures Count(Toggle(ids, id, selected), finder, isDirectoryType, attributes[i]) ==
        Count(ids, finder, isDirectoryType, attributes[i])
        + (if Counted(finder, isDirectoryType, id, attributes[i]) then Delta(selected) else 0)
    {
      if selected {
        CountAdd(ids, finder, isDirectoryType, id, attributes[i]);
      } else {
        CountRemove(ids, finder, isDirectoryType, id, attributes[i]);
      }
    }
    assert attributes[0] == Partial && attributes[1] == Directory && attributes[2] == WritableDirectory;
    assert attributes[3] == NoDelete && attributes[4] == NoRename;
  }

  /**
   * Without the caller contract the counters drift: notifying "selected" for an id
   * that is already selected counts it twice.
   */
  lemma DuplicateSelectionDrifts(ids: set<string>, finder: DocFinder, isDirectoryType: MimePredicate, id: string, a: Attribute)
    requires id in ids && Counted(finder, isDirectoryType, id, a)
    ensures Step(Tally(ids, finder, isDirectoryType), finder(id), true, isDirectoryType).Get(a) ==
      Tally(Toggle(ids, id, true), finder, isDirectoryType).Get(a) + 1
  {
    assert Toggle(ids, id, true) == ids;
    StepChange(Tally(ids, finder, isDirectoryType), finder(id), true, isDirectoryType, a);
  }

  /**
   * The other half of the caller contract: notifying "deselected" for an id that
   * is not selected takes the counter one below the tally (below zero from an
   * empty selection).
   */
  lemma UnmatchedDeselectionDrifts(ids: set<string>, finder: DocFinder, isDirectoryType: MimePredicate, id: string, a: Attribute)
    requires id !in ids && Counted(finder, isDirectoryType, id, a)
    ensures Step(Tally(ids, finder, isDirectoryType), finder(id), false, isDirectoryType).Get(a) ==
      Tally(Toggle(ids, id, false), finder, isDirectoryType).Get(a) - 1
  {
    assert Toggle(ids, id, false) == ids;
    StepChange(Tally(ids, finder, isDirectoryType), finder(id), false, isDirectoryType, a);
  }

  // ---- What a counter value says about the selection ----------------------------------------

  /** A counter is zero exactly when no selected id counts towards its attribute. */
  lemma CountZeroIff(ids: set<string>, finder: DocFinder, isDirectoryType: MimePredicate, a: Attribute)
    ensures Count(ids, finder, isDirectoryType, a) == 0 <==>
      forall id :: id in ids ==> !Counted(finder, isDirectoryType, id, a)
  {
  }

  /** A counter equals the selection size exactly when every selected id counts towards its attribute. */
  lemma CountFullIff(ids: set<string>, finder: DocFinder, isDirectoryType: MimePredicate, a: Attribute)
    ensures Count(ids, finder, isDirectoryType, a) == |ids| <==>
      forall id :: id in ids ==> Counted(finder, isDirectoryType, id, a)
  {
    var m := Matching(ids, finder, isDirectoryType, a);
    if forall id :: id in ids ==> Counted(finder, isDirectoryType, id, a) {
      assert m == ids;
    } else {
      var x :| x in ids && !Counted(finder, isDirectoryType, x, a);
      SubsetCard(m, ids - {x});
    }
  }

  // ---- Sequences of notifications ---------------------------------------------------------------

  /** One selection-change notification: `onItemStateChanged(id, selected)`. */
  datatype Event = Event(id: string, selected: bool)

  /** The counters after the notifications `events`, in order, starting from `c`. */
  ghost function Replay(c: Counters, events: seq<Event>, finder: DocFinder, isDirectoryType: MimePredicate): Counters
    decreases |events|
  {
    if events == [] then c
    else Replay(Step(c, finder(events[0].id), events[0].selected, isDirectoryType), events[1..], finder, isDirectoryType)
  }

  /** The selection after the notifications `events`, starting from `ids`. */
  function SelectionAfter(ids: set<string>, events: seq<Event>): set<string>
    decreases |events|
  {
    if events == [] then ids
    else SelectionAfter(Toggle(ids, events[0].id, events[0].selected), events[1..])
  }

  /** The caller contract: every notification reports a real transition of the selection. */
  predicate Transitions(ids: set<string>, events: seq<Event>)
    decreases |events|
  {
    events == [] ||
    ((events[0].selected <==> events[0].id !in ids) &&
     Transitions(Toggle(ids, events[0].id, events[0].selected), events[1..]))
  }

  /**
   * The counter invariant over any run: if the counters matched the selection
   * before, and every notification is a real transition, they match after.
   */
  lemma {:induction false} ReplayMatchesTally(ids: set<string>, events: seq<Event>, finder: DocFinder, isDirectoryType: MimePredicate)
    requires Transitions(ids, events)
    ensures Replay(Tally(ids, finder, isDirectoryType), events, finder, isDirectoryType) ==
      Tally(SelectionAfter(ids, events), finder, isDirectoryType)
    decreases |events|
  {
    if events != [] {
      var e := events[0];
      StepTally(ids, finder, isDirectoryType, e.id, e.selected);
      ReplayMatchesTally(Toggle(ids, e.id, e.selected), events[1..], finder, isDirectoryType);
    }
  }

  /** The empty selection tallies to all-zero counters. */
  lemma TallyEmpty(finder: DocFinder, isDirectoryType: MimePredicate)
    ensures Tally({}, finder, isDirectoryType) == ZERO
  {
  }

  /**
   * From freshly constructed (all-zero) counters, any run that respects the
   * caller contract leaves every counter between 0 and the selection size.
   */
  lemma ReplayFromZeroBounded(events: seq<Event>, finder: DocFinder, isDirectoryType: MimePredicate, a: Attribute)
    requires Transitions({}, events)
    ensures 0 <= Replay(ZERO, events, finder, isDirectoryType).Get(a) <= |SelectionAfter({}, events)|
  {
    TallyEmpty(finder, isDirectoryType);
    ReplayMatchesTally({}, events, finder, isDirectoryType);
  }
}
