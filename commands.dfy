/**
 * The commands of the engine: `delete` and `clear` wait for a confirmation, `delete` and
 * `edit` can be undone and redone, `undo` and `redo` drive the tracker, and `find` changes
 * the displayed list.
 */
module Commands {
  import opened Wrappers
  import opened Text
  import P = Person
  import M = Model
  import E = EditPerson
  import T = CommandTracker
  import R = CommandResult
  import Messages

  // ---------------------------------------------------------------------------
  // Positions in the displayed list

  /** Every position is inside a list of `size` entries. */
  predicate InRange(indices: seq<nat>, size: nat) {
    forall k :: 0 <= k < |indices| ==> indices[k] < size
  }

  /** The entries of `shown` at the given positions, in the order of the positions. */
  function At(shown: seq<P.Person>, indices: seq<nat>): (r: seq<P.Person>)
    requires InRange(indices, |shown|)
    ensures |r| == |indices|
    ensures forall k :: 0 <= k < |r| ==> r[k] == shown[indices[k]]
  {
    seq(|indices|, k requires 0 <= k < |indices| => shown[indices[k]])
  }

  /** The persons' names, in order. */
  function Names(persons: seq<P.Person>): (r: seq<string>)
    ensures |r| == |persons|
    ensures forall k :: 0 <= k < |r| ==> r[k] == P.CommandSummary(persons[k])
  {
    seq(|persons|, k requires 0 <= k < |persons| => P.CommandSummary(persons[k]))
  }

  /**
   * The check `delete` and `edit` make before touching anything: the first position that is
   * past the end of the displayed list fails the command.
   */
  method CheckIndices(indices: seq<nat>, size: nat) returns (ok: bool)
    ensures ok <==> InRange(indices, size)
  {
    for k := 0 to |indices|
      invariant forall j :: 0 <= j < k ==> indices[j] < size
    {
      if indices[k] >= size {
        return false;
      }
    }
    return true;
  }

  // ---------------------------------------------------------------------------
  // delete

  const DELETE_COMMAND_WORD := "delete"
  const MESSAGE_DELETE_PERSON_SUCCESS := "Deleted Person: "
  const MESSAGE_ABORTED := "Aborted deletion!"

  /** `MESSAGE_CONFIRM_DELETE` filled in with the names, separated by ", ". */
  function ConfirmDeleteMessage(persons: seq<P.Person>): string {
    "Confirm Deleting Person: " + JoinWith(Names(persons), ", ") + " ? (y/n)"
  }

  /** Deletes each target in turn, as `executeConfirmed` and `redo` do. */
  method DeleteEach(model: M.Model, targets: seq<P.Person>)
    requires model.Valid()
    modifies model
    ensures model.Valid() && model.filter == old(model.filter)
    ensures model.persons == M.RemovedAll(old(model.persons), targets)
  {
    for k := 0 to |targets|
      invariant model.Valid() && model.filter == old(model.filter)
      invariant M.RemovedAll(model.persons, targets[k..]) == M.RemovedAll(old(model.persons), targets)
    {
      assert targets[k..][1..] == targets[k + 1..];
      model.DeletePerson(targets[k]);
    }
    assert targets[|targets|..] == [];
  }

  class DeleteCommand {
    /** The zero-based positions in the displayed list, as parsed. */
    const targetIndices: seq<nat>
    /** The persons found at those positions by the last successful `execute`. */
    var personsToDelete: Option<seq<P.Person>>
    /** The positions recorded alongside them. */
    var originalIndices: Option<seq<nat>>

    /** The two captured lists are set together and have one entry per target. */
    predicate Valid()
      reads this
    {
      personsToDelete.Some? == originalIndices.Some?
      && (personsToDelete.Some? ==> |personsToDelete.value| == |originalIndices.value|)
    }

    constructor (targetIndices: seq<nat>)
      ensures Valid()
      ensures this.targetIndices == targetIndices && personsToDelete == None && originalIndices == None
    {
      this.targetIndices := targetIndices;
      personsToDelete := None;
      originalIndices := None;
    }

    /**
     * `execute`: fails on a position past the displayed list, capturing nothing; otherwise
     * captures the persons at the positions and the positions themselves, leaves the store
     * alone, and asks for confirmation with itself as the waiting command.
     */
    method Execute(model: M.Model) returns (r: Result<R.CommandResult<Confirmable>, string>)
      requires Valid()
      modifies this
      ensures Valid()
      ensures !InRange(targetIndices, |model.Shown()|) ==>
        r == Err(Messages.MESSAGE_INVALID_PERSON_DISPLAYED_INDEX)
        && personsToDelete == old(personsToDelete) && originalIndices == old(originalIndices)
      ensures InRange(targetIndices, |model.Shown()|) ==>
        personsToDelete == Some(At(model.Shown(), targetIndices))
        && originalIndices == Some(targetIndices)
        && r == Ok(R.Confirming(ConfirmDeleteMessage(personsToDelete.value), ConfirmDelete(this)))
    {
      var lastShownList := model.Shown();
      var ok := CheckIndices(targetIndices, |lastShownList|);
      if !ok {
        return Err(Messages.MESSAGE_INVALID_PERSON_DISPLAYED_INDEX);
      }
      personsToDelete := Some(At(lastShownList, targetIndices));
      originalIndices := Some(targetIndices);
      return Ok(R.Confirming(ConfirmDeleteMessage(personsToDelete.value), ConfirmDelete(this)));
    }

    /**
     * `executeConfirmed`: checks the positions again against the list as it is now, and
     * deletes the persons they point at now, one by one.
     */
    method ExecuteConfirmed(model: M.Model) returns (r: Result<R.CommandResult<Confirmable>, string>)
      requires model.Valid()
      modifies model
      ensures model.Valid() && model.filter == old(model.filter)
      ensures !InRange(targetIndices, |old(model.Shown())|) ==>
        r == Err(Messages.MESSAGE_INVALID_PERSON_DISPLAYED_INDEX) && model.persons == old(model.persons)
      ensures InRange(targetIndices, |old(model.Shown())|) ==>
        var gone := At(old(model.Shown()), targetIndices);
        model.persons == M.RemovedAll(old(model.persons), gone)
        && r == Ok(R.Feedback(MESSAGE_DELETE_PERSON_SUCCESS + JoinWith(Names(gone), ",")))
    {
      var lastShownList := model.Shown();
      var ok := CheckIndices(targetIndices, |lastShownList|);
      if !ok {
        return Err(Messages.MESSAGE_INVALID_PERSON_DISPLAYED_INDEX);
      }
      var gone := At(lastShownList, targetIndices);
      DeleteEach(model, gone);
      return Ok(R.Feedback(MESSAGE_DELETE_PERSON_SUCCESS + JoinWith(Names(gone), ",")));
    }

    /** `executeAborted`: nothing changes. */
    function ExecuteAborted(): (r: R.CommandResult<Confirmable>)
      ensures !R.IsToBeConfirmed(r) && r.feedbackToUser == MESSAGE_ABORTED
    {
      R.Feedback(MESSAGE_ABORTED)
    }

    /**
     * `undo`: puts each captured person back at its recorded position, in capture order,
     * skipping those whose name is present; nothing happens if `execute` never succeeded.
     */
    method Undo(model: M.Model)
      requires Valid() && model.Valid()
      modifies model
      ensures model.Valid() && model.filter == old(model.filter)
      ensures personsToDelete.None? ==> model.persons == old(model.persons)
      ensures personsToDelete.Some? ==>
        model.persons == M.RestoredAll(old(model.persons), personsToDelete.value, originalIndices.value)
    {
      if personsToDelete.Some? {
        var persons, indices := personsToDelete.value, originalIndices.value;
        for i := 0 to |persons|
          invariant model.Valid() && model.filter == old(model.filter)
          invariant M.RestoredAll(model.persons, persons[i..], indices[i..])
                    == M.RestoredAll(old(model.persons), persons, indices)
        {
          assert persons[i..][1..] == persons[i + 1..] && indices[i..][1..] == indices[i + 1..];
          if !model.HasPerson(persons[i]) {
            model.AddPersonAt(persons[i], indices[i]);
          }
        }
        assert persons[|persons|..] == [] && indices[|indices|..] == [];
      }
    }

    /** `redo`: deletes the captured persons again; nothing happens if `execute` never succeeded. */
    method Redo(model: M.Model)
      requires model.Valid()
      modifies model
      ensures model.Valid() && model.filter == old(model.filter)
      ensures personsToDelete.None? ==> model.persons == old(model.persons)
      ensures personsToDelete.Some? ==> model.persons == M.RemovedAll(old(model.persons), personsToDelete.value)
    {
      if personsToDelete.Some? {
        DeleteEach(model, personsToDelete.value);
      }
    }

    /** `getCommandString`: "delete " and the captured names, or a placeholder when there are none. */
    function CommandString(): (r: string)
      reads this
      ensures (personsToDelete.None? || personsToDelete.value == []) ==> r == "delete <unknown person(s)>"
      ensures personsToDelete.Some? && personsToDelete.value != [] ==>
        r == "delete " + JoinWith(Names(personsToDelete.value), ", ")
      ensures |r| >= 7 && r[..7] == "delete "
    {
      if personsToDelete.None? || personsToDelete.value == [] then DELETE_COMMAND_WORD + " <unknown person(s)>"
      else DELETE_COMMAND_WORD + " " + JoinWith(Names(personsToDelete.value), ", ")
    }

    /** `equals`: the same positions, whatever was captured. */
    predicate Equals(other: DeleteCommand) {
      targetIndices == other.targetIndices
    }
  }

  /** `getCommandString` of a deletion of one person names that person. */
  lemma DeleteCommandStringNamesPerson(d: DeleteCommand, person: P.Person)
    requires d.personsToDelete == Some([person])
    ensures d.CommandString() == "delete " + person.name
  {
  }

  /** `getCommandString` of a deletion of several persons lists their names in capture order, separated by ", ". */
  lemma {:induction false} DeleteCommandStringListsNames(d: DeleteCommand, first: P.Person, rest: seq<P.Person>)
    requires d.personsToDelete == Some([first] + rest) && rest != []
    ensures d.CommandString() == "delete " + (first.name + ", " + JoinWith(Names(rest), ", "))
  {
    var ws := Names([first] + rest);
    assert ws[1..] == Names(rest);
    assert JoinWith(ws, ", ") == first.name + ", " + JoinWith(Names(rest), ", ");
  }

  /** Two captured persons: "delete A, B". */
  lemma DeleteCommandStringOfTwo(d: DeleteCommand, a: P.Person, b: P.Person)
    requires d.personsToDelete == Some([a, b])
    ensures d.CommandString() == "delete " + (a.name + ", " + b.name)
  {
    assert [a, b] == [a] + [b];
    DeleteCommandStringListsNames(d, a, [b]);
  }

  /**
   * Deleting contacts picked from the full list in increasing position order, and undoing,
   * gives back the list exactly.
   */
  lemma DeleteThenUndoRestores(persons: seq<P.Person>, indices: seq<nat>)
    requires M.UniqueNames(persons) && InRange(indices, |persons|)
    requires forall k, l :: 0 <= k < l < |indices| ==> indices[k] < indices[l]
    ensures M.RestoredAll(M.RemovedAll(persons, At(persons, indices)), At(persons, indices), indices) == persons
  {
    M.UndoRestoresAscendingDelete(persons, At(persons, indices), indices);
  }

  /**
   * After a confirmed deletion none of the deleted names is left, and after its undo every
   * one of them is back.
   */
  lemma DeleteThenUndoNames(persons: seq<P.Person>, filter: M.Filter, indices: seq<nat>)
    requires M.UniqueNames(persons) && InRange(indices, |M.Filtered(persons, filter)|)
    ensures var gone := At(M.Filtered(persons, filter), indices);
      var after := M.RemovedAll(persons, gone);
      && (forall k :: 0 <= k < |gone| ==> !M.HasSame(after, gone[k]))
      && (forall k :: 0 <= k < |gone| ==> M.HasSame(M.RestoredAll(after, gone, indices), gone[k]))
  {
    var shown := M.Filtered(persons, filter);
    var gone := At(shown, indices);
    M.FilteredMembers(persons, filter);
    forall k | 0 <= k < |gone|
      ensures gone[k] in persons
    {
      assert gone[k] in shown;
    }
    M.RemovedAllDropsTargets(persons, gone);
    M.RestoredAllHasTargets(M.RemovedAll(persons, gone), gone, indices);
  }

  // ---------------------------------------------------------------------------
  // edit

  const EDIT_COMMAND_WORD := "edit"
  const MESSAGE_EDIT_PERSON_SUCCESS := "Edited Person: "
  const MESSAGE_DUPLICATE_PERSON := "This person already exists in the address book."

  /** The duplicate check of `edit`: the edited person takes another contact's name. */
  predicate Duplicate(persons: seq<P.Person>, original: P.Person, edited: P.Person) {
    !P.IsSamePerson(original, edited) && M.HasSame(persons, edited)
  }

  class EditCommand {
    /** The zero-based position in the displayed list. */
    const index: nat
    /** A copy of the descriptor taken at construction. */
    const descriptor: E.Patch
    const toRemoveFields: seq<E.Prefix>
    var personToEdit: Option<P.Person>
    var editedPerson: Option<P.Person>

    /** Both persons have been recorded, as a reached duplicate check or success leaves them. */
    predicate Executed()
      reads this
    {
      personToEdit.Some? && editedPerson.Some?
    }

    /** The command copies the descriptor, so later changes to it are not seen. */
    constructor (index: nat, descriptor: E.EditPersonDescriptor, toRemoveFields: seq<E.Prefix>)
      ensures this.index == index && this.descriptor == descriptor.Value()
      ensures this.toRemoveFields == toRemoveFields
      ensures personToEdit == None && editedPerson == None
    {
      this.index := index;
      this.descriptor := descriptor.Value();
      this.toRemoveFields := toRemoveFields;
      personToEdit := None;
      editedPerson := None;
    }

    /**
     * `execute`: fails on a position past the displayed list; otherwise records the person
     * there and the edited person, fails if the edit would duplicate another contact's name,
     * and else replaces the person in the store and pushes itself onto the tracker.
     */
    method Execute(model: M.Model, tracker: T.CommandTracker<Undoable>)
      returns (r: Result<R.CommandResult<Confirmable>, string>)
      requires model.Valid()
      modifies this, model, tracker
      ensures model.Valid() && model.filter == old(model.filter)
      ensures || (tracker.undoStack == old(tracker.undoStack) && tracker.redoStack == old(tracker.redoStack))
              || (&& Executed() && tracker.undoStack == old(tracker.undoStack) + [EditUndo(this)]
                  && (tracker.redoStack == old(tracker.redoStack) || tracker.redoStack == []))
      ensures index >= |old(model.Shown())| ==>
        r == Err(Messages.MESSAGE_INVALID_PERSON_DISPLAYED_INDEX)
        && model.persons == old(model.persons) && tracker.Current() == old(tracker.Current())
        && personToEdit == old(personToEdit) && editedPerson == old(editedPerson)
      ensures index < |old(model.Shown())| ==>
        && Executed()
        && personToEdit.value == old(model.Shown())[index]
        && editedPerson.value == E.CreateEditedPerson(personToEdit.value, descriptor, toRemoveFields)
      ensures index < |old(model.Shown())| && Duplicate(old(model.persons), personToEdit.value, editedPerson.value) ==>
        r == Err(MESSAGE_DUPLICATE_PERSON)
        && model.persons == old(model.persons) && tracker.Current() == old(tracker.Current())
      ensures index < |old(model.Shown())| && !Duplicate(old(model.persons), personToEdit.value, editedPerson.value) ==>
        model.persons == M.Replaced(old(model.persons), personToEdit.value, editedPerson.value)
        && tracker.Current() == T.Pushed(old(tracker.Current()), EditUndo(this))
        && r == Ok(R.Feedback(MESSAGE_EDIT_PERSON_SUCCESS + Messages.Format(editedPerson.value)))
    {
      var lastShownList := model.Shown();
      if index >= |lastShownList| {
        return Err(Messages.MESSAGE_INVALID_PERSON_DISPLAYED_INDEX);
      }
      var original := lastShownList[index];
      var edited := E.CreateEditedPerson(original, descriptor, toRemoveFields);
      personToEdit := Some(original);
      editedPerson := Some(edited);
      if !P.IsSamePerson(original, edited) && model.HasPerson(edited) {
        return Err(MESSAGE_DUPLICATE_PERSON);
      }
      model.SetPerson(original, edited);
      tracker.Push(EditUndo(this));
      return Ok(R.Feedback(MESSAGE_EDIT_PERSON_SUCCESS + Messages.Format(edited)));
    }

    /** `undo`: the edited person is replaced by the original, and everyone is shown. */
    method Undo(model: M.Model)
      requires Executed() && model.Valid()
      modifies model
      ensures model.Valid() && model.filter == M.ShowAll
      ensures model.persons == M.Replaced(old(model.persons), editedPerson.value, personToEdit.value)
    {
      model.SetPerson(editedPerson.value, personToEdit.value);
      model.UpdateFilteredPersonList(M.ShowAll);
    }

    /** `redo`: the original is replaced by the edited person again, and everyone is shown. */
    method Redo(model: M.Model)
      requires Executed() && model.Valid()
      modifies model
      ensures model.Valid() && model.filter == M.ShowAll
      ensures model.persons == M.Replaced(old(model.persons), personToEdit.value, editedPerson.value)
    {
      model.SetPerson(personToEdit.value, editedPerson.value);
      model.UpdateFilteredPersonList(M.ShowAll);
    }

    /** `getCommandString`: "edit", the one-based position, and both names. */
    function CommandString(): (r: string)
      requires Executed()
      reads this
      ensures r == "edit " + NatToString(index + 1) + ": " + personToEdit.value.name + " -> " + editedPerson.value.name
    {
      EDIT_COMMAND_WORD + " " + NatToString(index + 1) + ": " + P.CommandSummary(personToEdit.value)
      + " -> " + P.CommandSummary(editedPerson.value)
    }

    /** `equals`: the same position and descriptor; the removal list is not compared. */
    predicate Equals(other: EditCommand) {
      index == other.index && descriptor == other.descriptor
    }
  }

  /**
   * Two edits that pass their checks, undone in reverse order, give the list back: the
   * second undo finds the first edit's result where it left it.
   */
  lemma TwoEditsUndoneInReverse(persons: seq<P.Person>, i: nat, first: P.Person, j: nat, second: P.Person)
    requires M.UniqueNames(persons) && i < |persons| && j < |persons|
    requires P.IsSamePerson(persons[i], first) || !M.HasSame(persons, first)
    requires var mid := persons[i := first];
      P.IsSamePerson(mid[j], second) || !M.HasSame(mid, second)
    ensures var mid := M.Replaced(persons, persons[i], first);
      var last := M.Replaced(mid, mid[j], second);
      M.Replaced(M.Replaced(last, second, mid[j]), first, persons[i]) == persons
  {
    M.ReplaceThenReplaceBack(persons, i, first);
    var mid := persons[i := first];
    M.ReplacedKeepsNamesUnique(persons, persons[i], first);
    M.ReplaceThenReplaceBack(mid, j, second);
  }

  /** An edit that supplies nothing and removes nothing leaves the list as it was. */
  lemma EmptyEditChangesNothing(persons: seq<P.Person>, i: nat, toRemoveFields: seq<E.Prefix>)
    requires M.UniqueNames(persons) && i < |persons|
    requires forall f :: E.RemovalPrefix(f) !in toRemoveFields
    ensures var edited := E.CreateEditedPerson(persons[i], E.EMPTY, toRemoveFields);
      !Duplicate(persons, persons[i], edited) && M.Replaced(persons, persons[i], edited) == persons
  {
    E.EmptyPatchKeepsPerson(persons[i], E.EMPTY, toRemoveFields);
    M.IndexOfListed(persons, i);
  }

  // ---------------------------------------------------------------------------
  // clear

  const MESSAGE_CLEAR_SUCCESS := "Address book has been cleared!"
  const MESSAGE_CLEAR_CONFIRMATION := "Are you sure you want to clear the address book? (y/n)"
  const MESSAGE_CLEAR_ABORTED := "Clear aborted"

  /** `clear`; it is confirmable but not undoable, and equal only to itself. */
  class ClearCommand {
    constructor ()
    {
    }

    /** `execute`: asks for confirmation with itself as the waiting command; the store is untouched. */
    method Execute() returns (r: R.CommandResult<Confirmable>)
      ensures R.IsToBeConfirmed(r) && r.toBeConfirmed.value == ConfirmClear(this)
      ensures r.feedbackToUser == MESSAGE_CLEAR_CONFIRMATION
    {
      return R.Confirming(MESSAGE_CLEAR_CONFIRMATION, ConfirmClear(this));
    }

    /** `executeConfirmed`: the address book becomes empty. */
    method ExecuteConfirmed(model: M.Model) returns (r: R.CommandResult<Confirmable>)
      requires model.Valid()
      modifies model
      ensures model.Valid() && model.persons == [] && model.filter == old(model.filter)
      ensures r == R.Feedback(MESSAGE_CLEAR_SUCCESS)
    {
      model.ClearAddressBook();
      return R.Feedback(MESSAGE_CLEAR_SUCCESS);
    }

    /** `executeAborted`: nothing changes. */
    function ExecuteAborted(): (r: R.CommandResult<Confirmable>)
      ensures !R.IsToBeConfirmed(r) && r.feedbackToUser == MESSAGE_CLEAR_ABORTED
    {
      R.Feedback(MESSAGE_CLEAR_ABORTED)
    }
  }

  // ---------------------------------------------------------------------------
  // The two capabilities

  /** An `UndoableCommand`: what the tracker holds. */
  datatype Undoable = EditUndo(edit: EditCommand) | DeleteUndo(delete: DeleteCommand)
  {
    function Obj(): object {
      match this
      case EditUndo(e) => e
      case DeleteUndo(d) => d
    }

    /** The command can be undone and redone without failing. */
    predicate Ready()
      reads Obj()
    {
      match this
      case EditUndo(e) => e.Executed()
      case DeleteUndo(d) => d.Valid()
    }

    /** The contacts and filter after `undo`. */
    function Undone(persons: seq<P.Person>, filter: M.Filter): (seq<P.Person>, M.Filter)
      requires Ready()
      reads Obj()
    {
      match this
      case EditUndo(e) => (M.Replaced(persons, e.editedPerson.value, e.personToEdit.value), M.ShowAll)
      case DeleteUndo(d) =>
        (if d.personsToDelete.None? then persons
         else M.RestoredAll(persons, d.personsToDelete.value, d.originalIndices.value), filter)
    }

    /** The contacts and filter after `redo`. */
    function Redone(persons: seq<P.Person>, filter: M.Filter): (seq<P.Person>, M.Filter)
      requires Ready()
      reads Obj()
    {
      match this
      case EditUndo(e) => (M.Replaced(persons, e.personToEdit.value, e.editedPerson.value), M.ShowAll)
      case DeleteUndo(d) =>
        (if d.personsToDelete.None? then persons else M.RemovedAll(persons, d.personsToDelete.value), filter)
    }

    method Undo(model: M.Model)
      requires Ready() && model.Valid()
      modifies model
      ensures model.Valid()
      ensures (model.persons, model.filter) == Undone(old(model.persons), old(model.filter))
    {
      match this
      case EditUndo(e) => e.Undo(model);
      case DeleteUndo(d) => d.Undo(model);
    }

    method Redo(model: M.Model)
      requires Ready() && model.Valid()
      modifies model
      ensures model.Valid()
      ensures (model.persons, model.filter) == Redone(old(model.persons), old(model.filter))
    {
      match this
      case EditUndo(e) => e.Redo(model);
      case DeleteUndo(d) => d.Redo(model);
    }

    function CommandString(): string
      requires Ready()
      reads Obj()
    {
      match this
      case EditUndo(e) => e.CommandString()
      case DeleteUndo(d) => d.CommandString()
    }
  }

  /** A `ConfirmableCommand`: what waits for the user's answer. */
  datatype Confirmable = ConfirmDelete(delete: DeleteCommand) | ConfirmClear(clear: ClearCommand)
  {
    function Obj(): object {
      match this
      case ConfirmDelete(d) => d
      case ConfirmClear(c) => c
    }

    predicate Ready()
      reads Obj()
    {
      match this
      case ConfirmDelete(d) => d.Valid()
      case ConfirmClear(_) => true
    }

    /**
     * The contacts after a "yes": a deletion re-resolves its positions against the list
     * shown now and removes those persons, or fails (`None`) on a position past its end; a
     * clear leaves no one.
     */
    function ConfirmedPersons(persons: seq<P.Person>, filter: M.Filter): Option<seq<P.Person>> {
      match this
      case ConfirmDelete(d) =>
        var shown := M.Filtered(persons, filter);
        if InRange(d.targetIndices, |shown|) then Some(M.RemovedAll(persons, At(shown, d.targetIndices)))
        else None
      case ConfirmClear(_) => Some([])
    }

    /**
     * `executeConfirmed`: the contacts become `ConfirmedPersons` of the old ones, or stay as
     * they were when the command fails; the filter is kept.
     */
    method ExecuteConfirmed(model: M.Model) returns (r: Result<R.CommandResult<Confirmable>, string>)
      requires model.Valid()
      modifies model
      ensures model.Valid() && model.filter == old(model.filter)
      ensures r.Ok? ==> !R.IsToBeConfirmed(r.value)
      ensures var after := old(ConfirmedPersons(model.persons, model.filter));
        && (r.Ok? <==> after.Some?)
        && model.persons == (if after.Some? then after.value else old(model.persons))
      ensures r.Err? ==> r.error == Messages.MESSAGE_INVALID_PERSON_DISPLAYED_INDEX
      ensures ConfirmClear? ==> r == Ok(R.Feedback(MESSAGE_CLEAR_SUCCESS))
      ensures ConfirmDelete? && r.Ok? ==>
        r == Ok(R.Feedback(MESSAGE_DELETE_PERSON_SUCCESS
                           + JoinWith(Names(At(old(model.Shown()), delete.targetIndices)), ",")))
    {
      match this
      case ConfirmDelete(d) =>
        r := d.ExecuteConfirmed(model);
      case ConfirmClear(c) =>
        var result := c.ExecuteConfirmed(model);
        r := Ok(result);
    }

    function ExecuteAborted(): (r: R.CommandResult<Confirmable>)
      ensures !R.IsToBeConfirmed(r)
    {
      match this
      case ConfirmDelete(d) => d.ExecuteAborted()
      case ConfirmClear(c) => c.ExecuteAborted()
    }

    /** The `instanceof UndoableCommand` test: only a deletion can be undone. */
    function AsUndoable(): (u: Option<Undoable>)
      ensures u.Some? <==> ConfirmDelete?
      ensures u.Some? ==> u.value.Obj() == Obj()
    {
      match this
      case ConfirmDelete(d) => Some(DeleteUndo(d))
      case ConfirmClear(_) => None
    }

    /** Command equality: deletions by their positions, clears by identity. */
    predicate Same(other: Confirmable) {
      match (this, other)
      case (ConfirmDelete(a), ConfirmDelete(b)) => a.Equals(b)
      case (ConfirmClear(a), ConfirmClear(b)) => a == b
      case _ => false
    }
  }

  /** Command equality is an equivalence, so result equality is one too. */
  lemma SameIsEquivalence(a: Confirmable, b: Confirmable, c: Confirmable)
    ensures a.Same(a)
    ensures a.Same(b) ==> b.Same(a)
    ensures a.Same(b) && b.Same(c) ==> a.Same(c)
    ensures a.Same(b) ==> a.ConfirmDelete? == b.ConfirmDelete?
  {
  }

  /** Two results asking to confirm deletions at the same positions are equal. */
  lemma ConfirmingSamePositionsEqual(text: string, a: DeleteCommand, b: DeleteCommand)
    requires a.targetIndices == b.targetIndices
    ensures R.Equals(R.Confirming(text, ConfirmDelete(a)), R.Confirming(text, ConfirmDelete(b)),
                     (x: Confirmable, y: Confirmable) => x.Same(y))
  {
  }

  // ---------------------------------------------------------------------------
  // The tracker's contents

  /** The command objects a stack refers to. */
  function Tracked(us: seq<Undoable>): set<object> {
    set k | 0 <= k < |us| :: us[k].Obj()
  }

  /** Every command on the stack is ready to be undone and redone. */
  predicate AllReady(us: seq<Undoable>)
    reads Tracked(us)
  {
    forall k :: 0 <= k < |us| ==> us[k].Ready()
  }

  predicate TrackerReady(tracker: T.CommandTracker<Undoable>)
    reads tracker, Tracked(tracker.undoStack), Tracked(tracker.redoStack)
  {
    AllReady(tracker.undoStack) && AllReady(tracker.redoStack)
  }

  lemma AllReadyAppend(us: seq<Undoable>, u: Undoable)
    requires AllReady(us) && u.Ready()
    ensures AllReady(us + [u])
  {
    assert forall k :: 0 <= k < |us| ==> (us + [u])[k] == us[k];
  }

  lemma AllReadyPrefix(us: seq<Undoable>, n: nat)
    requires AllReady(us) && n <= |us|
    ensures AllReady(us[..n])
  {
    assert forall k :: 0 <= k < n ==> us[..n][k] == us[k];
  }

  // ---------------------------------------------------------------------------
  // undo, redo, find

  const MESSAGE_UNDO_SUCCESS := "Undo successful! Reverted Command: "
  const MESSAGE_NO_UNDO_FAILURE := "Nothing to undo!"
  const MESSAGE_REDO_SUCCESS := "Redo successful! Re-did Command: "
  const MESSAGE_NO_REDO_FAILURE := "Nothing to redo!"
  const MESSAGE_NO_MATCH_BUT_SIMILAR_PREFIX := "No match found, found "

  /**
   * `undo`: with nothing to undo it fails and changes nothing; otherwise the tracker pops
   * its top command, which is undone, and the message names it.
   */
  method ExecuteUndo(model: M.Model, tracker: T.CommandTracker<Undoable>)
    returns (r: Result<R.CommandResult<Confirmable>, string>)
    requires model.Valid() && TrackerReady(tracker)
    modifies model, tracker
    ensures model.Valid() && TrackerReady(tracker)
    ensures old(tracker.undoStack) == [] ==>
      r == Err(MESSAGE_NO_UNDO_FAILURE) && tracker.Current() == old(tracker.Current())
      && model.persons == old(model.persons) && model.filter == old(model.filter)
    ensures old(tracker.undoStack) != [] ==>
      var u := old(tracker.undoStack[|tracker.undoStack| - 1]);
      && tracker.Current() == T.PoppedUndo(old(tracker.Current())).0
      && (model.persons, model.filter) == old(u.Undone(model.persons, model.filter))
      && r == Ok(R.Feedback(MESSAGE_UNDO_SUCCESS + old(u.CommandString())))
  {
    if !tracker.CanUndo() {
      return Err(MESSAGE_NO_UNDO_FAILURE);
    }
    ghost var before := tracker.undoStack;
    ghost var redoBefore := tracker.redoStack;
    StoreNotTracked(before, model, tracker);
    StoreNotTracked(redoBefore, model, tracker);
    var popped := tracker.PopUndo();
    var lastCommand := popped.value;
    assert lastCommand == before[|before| - 1];
    AllReadyPrefix(before, |before| - 1);
    AllReadyAppend(redoBefore, lastCommand);
    StoreNotTracked(tracker.undoStack, model, tracker);
    StoreNotTracked(tracker.redoStack, model, tracker);
    var text := lastCommand.CommandString();
    lastCommand.Undo(model);
    return Ok(R.Feedback(MESSAGE_UNDO_SUCCESS + text));
  }

  /**
   * `redo`: with nothing to redo it fails and changes nothing, flag included; otherwise the
   * tracker moves its redo top back onto the undo stack, and that command is redone.
   */
  method ExecuteRedo(model: M.Model, tracker: T.CommandTracker<Undoable>)
    returns (r: Result<R.CommandResult<Confirmable>, string>)
    requires model.Valid() && TrackerReady(tracker)
    modifies model, tracker
    ensures model.Valid() && TrackerReady(tracker)
    ensures old(tracker.redoStack) == [] ==>
      r == Err(MESSAGE_NO_REDO_FAILURE) && tracker.Current() == old(tracker.Current())
      && model.persons == old(model.persons) && model.filter == old(model.filter)
    ensures old(tracker.redoStack) != [] ==>
      var u := old(tracker.redoStack[|tracker.redoStack| - 1]);
      && tracker.Current() == T.PoppedRedo(old(tracker.Current())).0
      && (model.persons, model.filter) == old(u.Redone(model.persons, model.filter))
      && r == Ok(R.Feedback(MESSAGE_REDO_SUCCESS + old(u.CommandString())))
  {
    ghost var before := tracker.redoStack;
    ghost var undoBefore := tracker.undoStack;
    StoreNotTracked(before, model, tracker);
    StoreNotTracked(undoBefore, model, tracker);
    var popped := tracker.PopRedo();
    if popped.None? {
      return Err(MESSAGE_NO_REDO_FAILURE);
    }
    var lastCommand := popped.value;
    assert lastCommand == before[|before| - 1];
    AllReadyPrefix(before, |before| - 1);
    AllReadyAppend(undoBefore, lastCommand);
    StoreNotTracked(tracker.undoStack, model, tracker);
    StoreNotTracked(tracker.redoStack, model, tracker);
    var text := lastCommand.CommandString();
    lastCommand.Redo(model);
    return Ok(R.Feedback(MESSAGE_REDO_SUCCESS + text));
  }

  /**
   * `find`: shows the exact keyword matches; when there are none, shows the similar names
   * instead. Only the filter changes.
   */
  method ExecuteFind(model: M.Model, keywords: seq<string>) returns (r: R.CommandResult<Confirmable>)
    modifies model
    ensures model.persons == old(model.persons)
    ensures M.Filtered(model.persons, M.NameContainsKeywords(keywords)) != [] ==>
      model.filter == M.NameContainsKeywords(keywords)
      && r == R.Feedback(Messages.PersonsListedOverview(|model.Shown()|))
    ensures M.Filtered(model.persons, M.NameContainsKeywords(keywords)) == [] ==>
      model.filter == M.NameSimilar(keywords)
      && r == R.Feedback(MESSAGE_NO_MATCH_BUT_SIMILAR_PREFIX + NatToString(|model.Shown()|) + " similar entries")
    ensures !R.IsToBeConfirmed(r)
  {
    model.UpdateFilteredPersonList(M.NameContainsKeywords(keywords));
    if model.Shown() == [] {
      model.UpdateFilteredPersonList(M.NameSimilar(keywords));
      return R.Feedback(MESSAGE_NO_MATCH_BUT_SIMILAR_PREFIX + NatToString(|model.Shown()|) + " similar entries");
    } else {
      return R.Feedback(Messages.PersonsListedOverview(|model.Shown()|));
    }
  }

  // ---------------------------------------------------------------------------
  // Dispatch

  /** The commands the engine runs; `undo` and `redo` carry no state, so all of each are equal. */
  datatype Command =
    | DeleteCmd(delete: DeleteCommand)
    | EditCmd(edit: EditCommand)
    | ClearCmd(clear: ClearCommand)
    | UndoCmd
    | RedoCmd
    | FindCmd(keywords: seq<string>)
  {
    /** The command object, if the command has one. */
    function Objs(): set<object> {
      match this
      case DeleteCmd(d) => {d}
      case EditCmd(e) => {e}
      case ClearCmd(c) => {c}
      case _ => {}
    }

    /** A deletion as built by its parser: nothing captured yet, or captured consistently. */
    predicate Ready()
      reads Objs()
    {
      DeleteCmd? ==> delete.Valid()
    }

    /** The command that waits for an answer after a successful `execute`: a deletion or a clear. */
    function AsConfirmable(): (c: Option<Confirmable>)
      ensures c.Some? <==> DeleteCmd? || ClearCmd?
      ensures c.Some? ==> c.value.Obj() in Objs()
    {
      match this
      case DeleteCmd(d) => Some(ConfirmDelete(d))
      case ClearCmd(c) => Some(ConfirmClear(c))
      case _ => None
    }
  }

  /** What `execute` did: whether it succeeded, and the contacts, filter and tracker after it. */
  datatype Outcome = Outcome(ok: bool, persons: seq<P.Person>, filter: M.Filter, tracker: T.State<Undoable>)

  /** The filter `find` leaves: the keyword matches, or the similar names when there are none. */
  function FindFilter(persons: seq<P.Person>, keywords: seq<string>): M.Filter {
    if M.Filtered(persons, M.NameContainsKeywords(keywords)) != [] then M.NameContainsKeywords(keywords)
    else M.NameSimilar(keywords)
  }

  /**
   * The outcome of an edit: it fails on a position past the displayed list or on a name
   * another contact has, changing nothing; otherwise the person shown at the position is
   * replaced by the edited one and the edit is pushed.
   */
  function EditOutcome(e: EditCommand, persons: seq<P.Person>, filter: M.Filter, s: T.State<Undoable>): Outcome {
    var shown := M.Filtered(persons, filter);
    if e.index >= |shown| then Outcome(false, persons, filter, s)
    else
      var edited := E.CreateEditedPerson(shown[e.index], e.descriptor, e.toRemoveFields);
      if Duplicate(persons, shown[e.index], edited) then Outcome(false, persons, filter, s)
      else Outcome(true, M.Replaced(persons, shown[e.index], edited), filter, T.Pushed(s, EditUndo(e)))
  }

  /**
   * The outcome of `command.execute(model)` from the given contacts, filter and tracker:
   * `delete` and `clear` only ask, `edit` is `EditOutcome`, `undo` and `redo` pop the
   * tracker and reverse or replay the popped command, and `find` only sets the filter.
   */
  function RunOutcome(command: Command, persons: seq<P.Person>, filter: M.Filter, s: T.State<Undoable>): Outcome
    requires AllReady(s.undoStack) && AllReady(s.redoStack)
    reads Tracked(s.undoStack), Tracked(s.redoStack)
  {
    match command
    case DeleteCmd(d) => Outcome(InRange(d.targetIndices, |M.Filtered(persons, filter)|), persons, filter, s)
    case EditCmd(e) => EditOutcome(e, persons, filter, s)
    case ClearCmd(_) => Outcome(true, persons, filter, s)
    case UndoCmd =>
      if s.undoStack == [] then Outcome(false, persons, filter, s)
      else
        var after := s.undoStack[|s.undoStack| - 1].Undone(persons, filter);
        Outcome(true, after.0, after.1, T.PoppedUndo(s).0)
    case RedoCmd =>
      if s.redoStack == [] then Outcome(false, persons, filter, s)
      else
        var after := s.redoStack[|s.redoStack| - 1].Redone(persons, filter);
        Outcome(true, after.0, after.1, T.PoppedRedo(s).0)
    case FindCmd(keywords) => Outcome(true, persons, FindFilter(persons, keywords), s)
  }

  /**
   * The undo/redo law for an edit run through the dispatcher: after a successful edit (its
   * two persons recorded as `execute` leaves them), `undo` gives back the contacts, and a
   * `redo` after that gives back the edited contacts.
   */
  lemma EditUndoRedoThroughTracker(e: EditCommand, persons: seq<P.Person>, filter: M.Filter, s: T.State<Undoable>)
    requires M.UniqueNames(persons) && AllReady(s.undoStack) && AllReady(s.redoStack)
    requires var shown := M.Filtered(persons, filter);
      && e.index < |shown| && e.personToEdit == Some(shown[e.index])
      && e.editedPerson == Some(E.CreateEditedPerson(shown[e.index], e.descriptor, e.toRemoveFields))
    requires EditOutcome(e, persons, filter, s).ok
    ensures var o := EditOutcome(e, persons, filter, s);
      && AllReady(o.tracker.undoStack) && AllReady(o.tracker.redoStack)
      && var u := RunOutcome(UndoCmd, o.persons, o.filter, o.tracker);
      && u.ok && u.persons == persons && u.tracker == T.PoppedUndo(o.tracker).0
      && AllReady(u.tracker.undoStack) && AllReady(u.tracker.redoStack)
      && RunOutcome(RedoCmd, u.persons, u.filter, u.tracker).persons == o.persons
  {
    var o := EditOutcome(e, persons, filter, s);
    EditOutcomeSwaps(e, persons, filter, s);
    var pushed := T.Pushed(s, EditUndo(e));
    var popped := T.PoppedUndo(pushed).0;
    PushPopReady(s, EditUndo(e));
    UndoOutcomeOfEdit(e, o.persons, o.filter, pushed);
    RedoOutcomeOfEdit(e, persons, M.ShowAll, popped);
  }

  /** A successful edit swaps one person for the edited one, reversibly, and pushes the edit. */
  lemma EditOutcomeSwaps(e: EditCommand, persons: seq<P.Person>, filter: M.Filter, s: T.State<Undoable>)
    requires M.UniqueNames(persons)
    requires var shown := M.Filtered(persons, filter);
      && e.index < |shown| && e.personToEdit == Some(shown[e.index])
      && e.editedPerson == Some(E.CreateEditedPerson(shown[e.index], e.descriptor, e.toRemoveFields))
    requires EditOutcome(e, persons, filter, s).ok
    ensures var o := EditOutcome(e, persons, filter, s);
      && o.tracker == T.Pushed(s, EditUndo(e)) && o.filter == filter
      && o.persons == M.Replaced(persons, e.personToEdit.value, e.editedPerson.value)
      && M.Replaced(o.persons, e.editedPerson.value, e.personToEdit.value) == persons
  {
    var shown := M.Filtered(persons, filter);
    var original, edited := e.personToEdit.value, e.editedPerson.value;
    M.FilteredMembers(persons, filter);
    assert original in shown;
    var i :| 0 <= i < |persons| && persons[i] == original;
    M.ReplaceThenReplaceBack(persons, i, edited);
  }

  /** Pushing a ready command and popping it again keeps both stacks ready, with the command on top. */
  lemma PushPopReady(s: T.State<Undoable>, u: Undoable)
    requires AllReady(s.undoStack) && AllReady(s.redoStack) && u.Ready()
    ensures var pushed := T.Pushed(s, u);
      && AllReady(pushed.undoStack) && AllReady(pushed.redoStack)
      && pushed.undoStack != [] && pushed.undoStack[|pushed.undoStack| - 1] == u
      && var popped := T.PoppedUndo(pushed).0;
      && AllReady(popped.undoStack) && AllReady(popped.redoStack)
      && popped.redoStack != [] && popped.redoStack[|popped.redoStack| - 1] == u
  {
    var pushed := T.Pushed(s, u);
    PushedReady(s, u);
    AllReadyPrefix(pushed.undoStack, |pushed.undoStack| - 1);
    AllReadyAppend(pushed.redoStack, u);
  }

  /** `undo` with an edit on top of the undo stack swaps the edited person back. */
  lemma UndoOutcomeOfEdit(e: EditCommand, persons: seq<P.Person>, filter: M.Filter, s: T.State<Undoable>)
    requires AllReady(s.undoStack) && AllReady(s.redoStack)
    requires s.undoStack != [] && s.undoStack[|s.undoStack| - 1] == EditUndo(e)
    ensures RunOutcome(UndoCmd, persons, filter, s)
            == Outcome(true, M.Replaced(persons, e.editedPerson.value, e.personToEdit.value), M.ShowAll,
                       T.PoppedUndo(s).0)
  {
  }

  /** `redo` with an edit on top of the redo stack swaps the edit in again. */
  lemma RedoOutcomeOfEdit(e: EditCommand, persons: seq<P.Person>, filter: M.Filter, s: T.State<Undoable>)
    requires AllReady(s.undoStack) && AllReady(s.redoStack)
    requires s.redoStack != [] && s.redoStack[|s.redoStack| - 1] == EditUndo(e)
    ensures RunOutcome(RedoCmd, persons, filter, s)
            == Outcome(true, M.Replaced(persons, e.personToEdit.value, e.editedPerson.value), M.ShowAll,
                       T.PoppedRedo(s).0)
  {
  }

  /** Neither the store nor the tracker is one of the commands a stack refers to. */
  lemma StoreNotTracked(us: seq<Undoable>, model: M.Model, tracker: T.CommandTracker<Undoable>)
    ensures model !in Tracked(us) && tracker !in Tracked(us)
  {
  }

  /** Pushing a ready command keeps the tracker ready. */
  lemma PushedReady(s: T.State<Undoable>, u: Undoable)
    requires AllReady(s.undoStack) && AllReady(s.redoStack) && u.Ready()
    ensures AllReady(T.Pushed(s, u).undoStack) && AllReady(T.Pushed(s, u).redoStack)
  {
    AllReadyAppend(s.undoStack, u);
  }

  /** Stacks left as they were, or with an executed edit pushed, stay ready. */
  lemma PushKeepsReady(undo: seq<Undoable>, redo: seq<Undoable>, undoBefore: seq<Undoable>,
                       redoBefore: seq<Undoable>, e: EditCommand)
    requires AllReady(undoBefore) && AllReady(redoBefore)
    requires || (undo == undoBefore && redo == redoBefore)
             || (&& e.Executed() && undo == undoBefore + [EditUndo(e)]
                 && (redo == redoBefore || redo == []))
    ensures AllReady(undo) && AllReady(redo)
  {
    if undo != undoBefore {
      AllReadyAppend(undoBefore, EditUndo(e));
    }
  }

  /**
   * `execute` of an edit, as the dispatcher sees it: the tracker is left alone, or the edit,
   * now executed, is pushed onto it.
   */
  method RunEdit(e: EditCommand, model: M.Model, tracker: T.CommandTracker<Undoable>)
    returns (r: Result<R.CommandResult<Confirmable>, string>)
    requires model.Valid()
    modifies e, model, tracker
    ensures model.Valid()
    ensures || (tracker.undoStack == old(tracker.undoStack) && tracker.redoStack == old(tracker.redoStack))
            || (&& e.Executed() && tracker.undoStack == old(tracker.undoStack) + [EditUndo(e)]
                && (tracker.redoStack == old(tracker.redoStack) || tracker.redoStack == []))
    ensures r.Ok? ==> !R.IsToBeConfirmed(r.value)
    ensures var o := old(EditOutcome(e, model.persons, model.filter, tracker.Current()));
      && r.Ok? == o.ok && model.persons == o.persons && model.filter == o.filter && tracker.Current() == o.tracker
  {
    r := e.Execute(model, tracker);
  }

  /** `RunEdit` on a ready tracker that does not hold the edit: the tracker stays ready. */
  method RunEditTracked(e: EditCommand, model: M.Model, tracker: T.CommandTracker<Undoable>)
    returns (r: Result<R.CommandResult<Confirmable>, string>)
    requires model.Valid() && TrackerReady(tracker)
    requires e !in Tracked(tracker.undoStack) + Tracked(tracker.redoStack)
    modifies e, model, tracker
    ensures model.Valid() && TrackerReady(tracker)
    ensures r.Ok? ==> !R.IsToBeConfirmed(r.value)
    ensures var o := old(EditOutcome(e, model.persons, model.filter, tracker.Current()));
      && r.Ok? == o.ok && model.persons == o.persons && model.filter == o.filter && tracker.Current() == o.tracker
  {
    ghost var undoBefore, redoBefore := tracker.undoStack, tracker.redoStack;
    StoreNotTracked(undoBefore, model, tracker);
    StoreNotTracked(redoBefore, model, tracker);
    ghost var held := Tracked(undoBefore) + Tracked(redoBefore);
    assert e !in held && model !in held && tracker !in held;
    r := RunEdit(e, model, tracker);
    assert AllReady(undoBefore) && AllReady(redoBefore);
    PushKeepsReady(tracker.undoStack, tracker.redoStack, undoBefore, redoBefore, e);
  }

  /** `delete` run through the dispatcher: it only asks, so nothing but the command changes. */
  method RunDelete(d: DeleteCommand, model: M.Model, tracker: T.CommandTracker<Undoable>)
    returns (r: Result<R.CommandResult<Confirmable>, string>)
    requires d.Valid() && model.Valid() && TrackerReady(tracker)
    requires d !in Tracked(tracker.undoStack) + Tracked(tracker.redoStack)
    modifies d
    ensures d.Valid() && model.Valid() && TrackerReady(tracker)
    ensures r.Ok? ==> r.value.toBeConfirmed == Some(ConfirmDelete(d))
    ensures var o := old(RunOutcome(DeleteCmd(d), model.persons, model.filter, tracker.Current()));
      && r.Ok? == o.ok && model.persons == o.persons && model.filter == o.filter && tracker.Current() == o.tracker
  {
    r := d.Execute(model);
  }

  /** `find` run through the dispatcher: only the filter changes. */
  method RunFind(keywords: seq<string>, model: M.Model, tracker: T.CommandTracker<Undoable>)
    returns (r: Result<R.CommandResult<Confirmable>, string>)
    requires model.Valid() && TrackerReady(tracker)
    modifies model
    ensures model.Valid() && TrackerReady(tracker)
    ensures r.Ok? && r.value.toBeConfirmed == None
    ensures var o := old(RunOutcome(FindCmd(keywords), model.persons, model.filter, tracker.Current()));
      && r.Ok? == o.ok && model.persons == o.persons && model.filter == o.filter && tracker.Current() == o.tracker
  {
    StoreNotTracked(tracker.undoStack, model, tracker);
    StoreNotTracked(tracker.redoStack, model, tracker);
    var result := ExecuteFind(model, keywords);
    r := Ok(result);
  }

  /** `undo` run through the dispatcher: its outcome is `RunOutcome`'s. */
  method RunUndo(model: M.Model, tracker: T.CommandTracker<Undoable>)
    returns (r: Result<R.CommandResult<Confirmable>, string>)
    requires model.Valid() && TrackerReady(tracker)
    modifies model, tracker
    ensures model.Valid() && TrackerReady(tracker)
    ensures r.Ok? ==> r.value.toBeConfirmed == None
    ensures var o := old(RunOutcome(UndoCmd, model.persons, model.filter, tracker.Current()));
      && r.Ok? == o.ok && model.persons == o.persons && model.filter == o.filter && tracker.Current() == o.tracker
  {
    r := ExecuteUndo(model, tracker);
  }

  /** `redo` run through the dispatcher: its outcome is `RunOutcome`'s. */
  method RunRedo(model: M.Model, tracker: T.CommandTracker<Undoable>)
    returns (r: Result<R.CommandResult<Confirmable>, string>)
    requires model.Valid() && TrackerReady(tracker)
    modifies model, tracker
    ensures model.Valid() && TrackerReady(tracker)
    ensures r.Ok? ==> r.value.toBeConfirmed == None
    ensures var o := old(RunOutcome(RedoCmd, model.persons, model.filter, tracker.Current()));
      && r.Ok? == o.ok && model.persons == o.persons && model.filter == o.filter && tracker.Current() == o.tracker
  {
    r := ExecuteRedo(model, tracker);
  }

  /**
   * `command.execute(model)`. The command is a new object, not one the tracker holds; the
   * tracker's commands stay ready, and a command left waiting for confirmation is ready.
   */
  method Run(command: Command, model: M.Model, tracker: T.CommandTracker<Undoable>)
    returns (r: Result<R.CommandResult<Confirmable>, string>)
    requires command.Ready() && model.Valid() && TrackerReady(tracker)
    requires command.Objs() !! (Tracked(tracker.undoStack) + Tracked(tracker.redoStack))
    modifies command.Objs(), model, tracker
    ensures model.Valid() && TrackerReady(tracker)
    ensures r.Ok? && R.IsToBeConfirmed(r.value) ==>
      r.value.toBeConfirmed.value.Ready() && r.value.toBeConfirmed.value.Obj() in command.Objs()
    ensures r.Ok? ==> r.value.toBeConfirmed == command.AsConfirmable()
    ensures var o := old(RunOutcome(command, model.persons, model.filter, tracker.Current()));
      && r.Ok? == o.ok && model.persons == o.persons && model.filter == o.filter && tracker.Current() == o.tracker
  {
    ghost var o := RunOutcome(command, model.persons, model.filter, tracker.Current());
    match command
    case DeleteCmd(d) =>
      r := RunDelete(d, model, tracker);
    case EditCmd(e) =>
      assert o == EditOutcome(e, model.persons, model.filter, tracker.Current());
      r := RunEditTracked(e, model, tracker);
    case ClearCmd(c) =>
      var result := c.Execute();
      r := Ok(result);
    case UndoCmd =>
      r := RunUndo(model, tracker);
    case RedoCmd =>
      r := RunRedo(model, tracker);
    case FindCmd(keywords) =>
      r := RunFind(keywords, model, tracker);
  }
}
