/**
 * The dispatcher. It is idle, or it holds one command waiting for a yes/no answer. While a
 * command waits, the next input is read only as the answer. Otherwise the input is parsed
 * and run, and the contacts and the input history are saved.
 */
module LogicManager {
  import opened Wrappers
  import M = Model
  import T = CommandTracker
  import R = CommandResult
  import C = Commands
  import CommandHistory

  const FILE_OPS_ERROR_PREFIX := "Could not save data due to the following error: "
  const FILE_OPS_PERMISSION_ERROR_PREFIX := "Could not save data to file "
  const FILE_OPS_PERMISSION_ERROR_SUFFIX :=
    " due to insufficient permissions to write to the file or the folder."

  /** What a save to disk reports. */
  datatype SaveOutcome = Saved | AccessDenied(message: string) | IoFailure(message: string)

  /** What `execute` throws: a `ParseException`, a `CommandException`, or one wrapping a failed save. */
  datatype Failure = ParseFailure(message: string) | CommandFailure(message: string) | StorageFailure(message: string)

  /** The message of the `CommandException` that wraps a failed save. */
  function SaveFailureMessage(outcome: SaveOutcome): (m: string)
    requires !outcome.Saved?
    ensures outcome.AccessDenied? ==>
      m == FILE_OPS_PERMISSION_ERROR_PREFIX + outcome.message + FILE_OPS_PERMISSION_ERROR_SUFFIX
    ensures outcome.IoFailure? ==> m == FILE_OPS_ERROR_PREFIX + outcome.message
  {
    match outcome
    case AccessDenied(message) => FILE_OPS_PERMISSION_ERROR_PREFIX + message + FILE_OPS_PERMISSION_ERROR_SUFFIX
    case IoFailure(message) => FILE_OPS_ERROR_PREFIX + message
  }

  /** The tracker after a confirmed command: pushed if it can be undone. */
  function AfterConfirmed(s: T.State<C.Undoable>, command: C.Confirmable): (t: T.State<C.Undoable>)
    ensures command.ConfirmDelete? ==> t == T.Pushed(s, C.DeleteUndo(command.delete))
    ensures command.ConfirmClear? ==> t == s
  {
    match command.AsUndoable()
    case Some(u) => T.Pushed(s, u)
    case None => s
  }

  /** After a confirmed clear, undo finds the commands tracked before it, not the clear. */
  lemma ConfirmedClearIsNotUndoable(s: T.State<C.Undoable>, clear: C.ClearCommand)
    ensures AfterConfirmed(s, C.ConfirmClear(clear)) == s
    ensures T.PoppedUndo(AfterConfirmed(s, C.ConfirmClear(clear))) == T.PoppedUndo(s)
  {
  }

  /** After a confirmed deletion, undo finds that deletion first. */
  lemma ConfirmedDeleteIsUndoneFirst(s: T.State<C.Undoable>, delete: C.DeleteCommand)
    ensures T.PoppedUndo(AfterConfirmed(s, C.ConfirmDelete(delete))).1 == Some(C.DeleteUndo(delete))
  {
  }

  /** The push after a confirmed command: only a command that can be undone is pushed. */
  method PushConfirmed(command: C.Confirmable, tracker: T.CommandTracker<C.Undoable>)
    requires C.TrackerReady(tracker) && command.Ready()
    modifies tracker
    ensures C.TrackerReady(tracker)
    ensures tracker.Current() == AfterConfirmed(old(tracker.Current()), command)
  {
    ghost var before := tracker.Current();
    match command.AsUndoable()
    case Some(u) =>
      C.PushedReady(before, u);
      tracker.Push(u);
    case None =>
  }

  /**
   * The yes branch of a confirmation: the waiting command runs; if it succeeds and can be
   * undone it is pushed, and on failure the tracker is left alone.
   */
  method RunConfirmed(command: C.Confirmable, model: M.Model, tracker: T.CommandTracker<C.Undoable>)
    returns (r: Result<R.CommandResult<C.Confirmable>, string>)
    requires model.Valid() && C.TrackerReady(tracker) && command.Ready()
    modifies model, tracker
    ensures model.Valid() && C.TrackerReady(tracker)
    ensures r.Ok? ==> !R.IsToBeConfirmed(r.value)
                      && tracker.Current() == AfterConfirmed(old(tracker.Current()), command)
    ensures r.Err? ==> tracker.Current() == old(tracker.Current())
    ensures model.filter == old(model.filter)
    ensures var after := old(command.ConfirmedPersons(model.persons, model.filter));
      && (r.Ok? <==> after.Some?)
      && model.persons == (if after.Some? then after.value else old(model.persons))
  {
    ghost var after := command.ConfirmedPersons(model.persons, model.filter);
    r := ExecuteConfirmedTracked(command, model, tracker);
    ghost var persons := model.persons;
    assert persons == (if after.Some? then after.value else old(model.persons));
    if r.Ok? {
      PushConfirmed(command, tracker);
    }
    assert model.persons == persons;
  }

  /** `executeConfirmed` beside a ready tracker: the tracker and the command stay as they were. */
  method ExecuteConfirmedTracked(command: C.Confirmable, model: M.Model, tracker: T.CommandTracker<C.Undoable>)
    returns (r: Result<R.CommandResult<C.Confirmable>, string>)
    requires model.Valid() && C.TrackerReady(tracker) && command.Ready()
    modifies model
    ensures model.Valid() && C.TrackerReady(tracker) && command.Ready()
    ensures tracker.Current() == old(tracker.Current())
    ensures r.Ok? ==> !R.IsToBeConfirmed(r.value)
    ensures model.filter == old(model.filter)
    ensures var after := old(command.ConfirmedPersons(model.persons, model.filter));
      && (r.Ok? <==> after.Some?)
      && model.persons == (if after.Some? then after.value else old(model.persons))
  {
    C.StoreNotTracked(tracker.undoStack, model, tracker);
    C.StoreNotTracked(tracker.redoStack, model, tracker);
    r := ExecuteConfirmedOnStore(command, model);
  }

  /** `executeConfirmed` seen from the store alone: its effect on the contacts and the filter. */
  method ExecuteConfirmedOnStore(command: C.Confirmable, model: M.Model)
    returns (r: Result<R.CommandResult<C.Confirmable>, string>)
    requires model.Valid()
    modifies model
    ensures model.Valid() && model.filter == old(model.filter)
    ensures r.Ok? ==> !R.IsToBeConfirmed(r.value)
    ensures var after := old(command.ConfirmedPersons(model.persons, model.filter));
      && (r.Ok? <==> after.Some?)
      && model.persons == (if after.Some? then after.value else old(model.persons))
  {
    r := command.ExecuteConfirmed(model);
  }

  class LogicManager {
    const model: M.Model
    const tracker: T.CommandTracker<C.Undoable>
    var pendingConfirmation: Option<C.Confirmable>
    var isPendingConfirmation: bool

    /** The objects the invariant depends on, other than the model and the tracker. */
    function Commands(): set<object>
      reads this, tracker
    {
      C.Tracked(tracker.undoStack) + C.Tracked(tracker.redoStack)
      + (if pendingConfirmation.Some? then {pendingConfirmation.value.Obj()} else {})
    }

    /**
     * The flag mirrors the slot, the store is consistent, every tracked command can be
     * undone, and a waiting command can run.
     */
    predicate Valid()
      reads this, model, model.history, tracker, Commands()
    {
      (isPendingConfirmation <==> pendingConfirmation.Some?)
      && model.Valid() && C.TrackerReady(tracker)
      && (pendingConfirmation.Some? ==> pendingConfirmation.value.Ready())
    }

    /** A dispatcher with nothing waiting. */
    constructor (model: M.Model, tracker: T.CommandTracker<C.Undoable>)
      requires model.Valid() && C.TrackerReady(tracker)
      ensures Valid()
      ensures this.model == model && this.tracker == tracker && pendingConfirmation == None
    {
      this.model := model;
      this.tracker := tracker;
      pendingConfirmation := None;
      isPendingConfirmation := false;
    }

    /**
     * `execute(commandText)`. `confirmation` is what `parseConfirmation` makes of the text
     * and `parsed` what `parseCommand` makes of it; each is consulted only in its own branch.
     * `saveBook` and `saveHistory` are what the two saves report.
     */
    method Execute(commandText: string, confirmation: Result<bool, string>, parsed: Result<C.Command, string>,
                   saveBook: SaveOutcome, saveHistory: SaveOutcome)
      returns (r: Result<R.CommandResult<C.Confirmable>, Failure>)
      requires Valid()
      requires parsed.Ok? ==> parsed.value.Ready() && parsed.value.Objs() !! Commands()
      modifies this, model, model.history, tracker, if parsed.Ok? then parsed.value.Objs() else {}
      ensures Valid()
      // While a command waits: the text is only an answer, and nothing is saved.
      ensures old(isPendingConfirmation) ==>
        model.history.commandList == old(model.history.commandList)
      ensures old(isPendingConfirmation) && confirmation.Err? ==>
        r == Err(ParseFailure(confirmation.error))
        && pendingConfirmation == old(pendingConfirmation)
        && model.persons == old(model.persons) && model.filter == old(model.filter)
        && tracker.Current() == old(tracker.Current())
      ensures old(isPendingConfirmation) && confirmation == Ok(false) ==>
        r == Ok(old(pendingConfirmation.value).ExecuteAborted())
        && pendingConfirmation == None
        && model.persons == old(model.persons) && model.filter == old(model.filter)
        && tracker.Current() == old(tracker.Current())
      ensures old(isPendingConfirmation) && confirmation == Ok(true) ==>
        (r.Ok? <==> pendingConfirmation == None)
        && (r.Ok? ==> tracker.Current() == AfterConfirmed(old(tracker.Current()), old(pendingConfirmation.value)))
        && (r.Err? ==> r.error.CommandFailure? && pendingConfirmation == old(pendingConfirmation)
                       && tracker.Current() == old(tracker.Current()))
      ensures old(isPendingConfirmation) && confirmation == Ok(true) ==>
        var after := old(pendingConfirmation.value.ConfirmedPersons(model.persons, model.filter));
        && (r.Ok? <==> after.Some?)
        && model.persons == (if after.Some? then after.value else old(model.persons))
        && model.filter == old(model.filter)
      // When idle: parse, run, keep a waiting command, then save the book, record the text, save the history.
      ensures !old(isPendingConfirmation) && parsed.Err? ==>
        r == Err(ParseFailure(parsed.error))
        && pendingConfirmation == None
        && model.persons == old(model.persons) && model.filter == old(model.filter)
        && tracker.Current() == old(tracker.Current())
        && model.history.commandList == old(model.history.commandList)
      ensures !old(isPendingConfirmation) && r.Ok? ==>
        pendingConfirmation == r.value.toBeConfirmed
        && model.history.commandList == CommandHistory.Recent(old(model.history.commandList) + [commandText])
      ensures !old(isPendingConfirmation) && r.Err? && r.error.CommandFailure? ==>
        pendingConfirmation == None
        && model.history.commandList == old(model.history.commandList)
      ensures !old(isPendingConfirmation) && parsed.Ok? && (r.Ok? || r.error.StorageFailure?) ==>
        (r.Ok? <==> saveBook.Saved? && saveHistory.Saved?)
        && (!saveBook.Saved? ==> r == Err(StorageFailure(SaveFailureMessage(saveBook)))
                                 && model.history.commandList == old(model.history.commandList))
        && (saveBook.Saved? ==>
              model.history.commandList == CommandHistory.Recent(old(model.history.commandList) + [commandText]))
        && (saveBook.Saved? && !saveHistory.Saved? ==> r == Err(StorageFailure(SaveFailureMessage(saveHistory))))
      // The command's effect stands whatever the saves report, and a command that asked for
      // confirmation waits even when a save failed.
      ensures !old(isPendingConfirmation) && parsed.Ok? ==>
        var o := old(C.RunOutcome(parsed.value, model.persons, model.filter, tracker.Current()));
        && (r.Err? && r.error.CommandFailure? <==> !o.ok)
        && model.persons == o.persons && model.filter == o.filter && tracker.Current() == o.tracker
        && (o.ok ==> pendingConfirmation == parsed.value.AsConfirmable())
    {
      if isPendingConfirmation {
        r := Answer(confirmation);
        return;
      }
      if parsed.Err? {
        return Err(ParseFailure(parsed.error));
      }
      r := Dispatch(commandText, parsed.value, saveBook, saveHistory);
    }

    /**
     * The idle branch of `execute`: the parsed command runs; a command that asks for
     * confirmation is kept waiting; then the book is saved, the text recorded and the
     * history saved, and a failed save stops there without undoing anything.
     */
    method Dispatch(commandText: string, command: C.Command, saveBook: SaveOutcome, saveHistory: SaveOutcome)
      returns (r: Result<R.CommandResult<C.Confirmable>, Failure>)
      requires Valid() && !isPendingConfirmation
      requires command.Ready() && command.Objs() !! Commands()
      modifies this, model, model.history, tracker, command.Objs()
      ensures Valid()
      ensures r.Err? ==> !r.error.ParseFailure?
      ensures r.Ok? ==>
        pendingConfirmation == r.value.toBeConfirmed
        && model.history.commandList == CommandHistory.Recent(old(model.history.commandList) + [commandText])
      ensures r.Err? && r.error.CommandFailure? ==>
        pendingConfirmation == None
        && model.history.commandList == old(model.history.commandList)
      ensures r.Ok? || r.error.StorageFailure? ==>
        (r.Ok? <==> saveBook.Saved? && saveHistory.Saved?)
        && (!saveBook.Saved? ==> r == Err(StorageFailure(SaveFailureMessage(saveBook)))
                                 && model.history.commandList == old(model.history.commandList))
        && (saveBook.Saved? ==>
              model.history.commandList == CommandHistory.Recent(old(model.history.commandList) + [commandText]))
        && (saveBook.Saved? && !saveHistory.Saved? ==> r == Err(StorageFailure(SaveFailureMessage(saveHistory))))
      ensures var o := old(C.RunOutcome(command, model.persons, model.filter, tracker.Current()));
        && (r.Err? && r.error.CommandFailure? <==> !o.ok)
        && model.persons == o.persons && model.filter == o.filter && tracker.Current() == o.tracker
        && (o.ok ==> pendingConfirmation == command.AsConfirmable())
    {
      ghost var o := C.RunOutcome(command, model.persons, model.filter, tracker.Current());
      var result := C.Run(command, model, tracker);
      assert result.Ok? == o.ok && model.persons == o.persons && model.filter == o.filter
             && tracker.Current() == o.tracker;
      if result.Err? {
        return Err(CommandFailure(result.error));
      }
      var commandResult := result.value;
      if R.IsToBeConfirmed(commandResult) {
        pendingConfirmation := commandResult.toBeConfirmed;
        isPendingConfirmation := true;
      }
      assert pendingConfirmation == command.AsConfirmable();
      if !saveBook.Saved? {
        return Err(StorageFailure(SaveFailureMessage(saveBook)));
      }
      Record(commandText);
      if !saveHistory.Saved? {
        return Err(StorageFailure(SaveFailureMessage(saveHistory)));
      }
      return Ok(commandResult);
    }

    /** `model.addToCommandHistory`: only the input history changes. */
    method Record(commandText: string)
      requires Valid()
      modifies model.history
      ensures Valid()
      ensures model.history.commandList == CommandHistory.Recent(old(model.history.commandList) + [commandText])
    {
      model.AddToCommandHistory(commandText);
    }

    /**
     * The confirmation branch of `execute`: a yes runs the waiting command and pushes it if
     * it can be undone, a no aborts it; either way the slot is emptied, unless something
     * threw first.
     */
    method Answer(confirmation: Result<bool, string>) returns (r: Result<R.CommandResult<C.Confirmable>, Failure>)
      requires Valid() && isPendingConfirmation
      modifies this, model, tracker
      ensures Valid()
      ensures model.history.commandList == old(model.history.commandList)
      ensures confirmation.Err? ==>
        r == Err(ParseFailure(confirmation.error))
        && pendingConfirmation == old(pendingConfirmation)
        && model.persons == old(model.persons) && model.filter == old(model.filter)
        && tracker.Current() == old(tracker.Current())
      ensures confirmation == Ok(false) ==>
        r == Ok(old(pendingConfirmation.value).ExecuteAborted())
        && pendingConfirmation == None
        && model.persons == old(model.persons) && model.filter == old(model.filter)
        && tracker.Current() == old(tracker.Current())
      ensures confirmation == Ok(true) ==>
        (r.Ok? <==> pendingConfirmation == None)
        && (r.Ok? ==> tracker.Current() == AfterConfirmed(old(tracker.Current()), old(pendingConfirmation.value)))
        && (r.Err? ==> r.error.CommandFailure? && pendingConfirmation == old(pendingConfirmation)
                       && tracker.Current() == old(tracker.Current()))
      ensures confirmation == Ok(true) ==>
        var after := old(pendingConfirmation.value.ConfirmedPersons(model.persons, model.filter));
        && (r.Ok? <==> after.Some?)
        && model.persons == (if after.Some? then after.value else old(model.persons))
        && model.filter == old(model.filter)
    {
      if confirmation.Err? {
        return Err(ParseFailure(confirmation.error));
      }
      var command := pendingConfirmation.value;
      var result;
      if confirmation.value {
        var executed := RunConfirmed(command, model, tracker);
        if executed.Err? {
          return Err(CommandFailure(executed.error));
        }
        result := executed.value;
      } else {
        result := command.ExecuteAborted();
      }
      pendingConfirmation := None;
      isPendingConfirmation := false;
      return Ok(result);
    }
  }
}
