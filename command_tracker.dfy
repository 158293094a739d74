/**
 * The undo/redo bookkeeping: two stacks of commands and a flag recording whether the last
 * tracker action was an undo. The top of a stack is the last element of its sequence.
 */
module CommandTracker {
  import opened Wrappers

  /** The tracker's state as a value: both stacks and the flag. */
  datatype State<C> = State(undoStack: seq<C>, redoStack: seq<C>, wasUndoCalled: bool)

  /**
   * `push`: the command goes on top of the undo stack; the redo stack is cleared unless the
   * previous tracker action was an undo; the flag is reset.
   */
  function Pushed<C>(s: State<C>, command: C): (t: State<C>)
    ensures t.undoStack == s.undoStack + [command]
    ensures t.redoStack == (if s.wasUndoCalled then s.redoStack else [])
    ensures !t.wasUndoCalled
  {
    State(s.undoStack + [command], if s.wasUndoCalled then s.redoStack else [], false)
  }

  /**
   * `popUndo`: with an empty undo stack nothing happens and there is no command; otherwise
   * the top moves onto the redo stack, the flag is set, and that command is returned.
   */
  function PoppedUndo<C>(s: State<C>): (r: (State<C>, Option<C>))
    ensures s.undoStack == [] ==> r == (s, None)
    ensures s.undoStack != [] ==>
      r.1 == Some(s.undoStack[|s.undoStack| - 1])
      && r.0.undoStack == s.undoStack[..|s.undoStack| - 1]
      && r.0.redoStack == s.redoStack + [s.undoStack[|s.undoStack| - 1]]
      && r.0.wasUndoCalled
  {
    if s.undoStack == [] then (s, None)
    else
      var command := s.undoStack[|s.undoStack| - 1];
      (State(s.undoStack[..|s.undoStack| - 1], s.redoStack + [command], true), Some(command))
  }

  /**
   * `popRedo`: with an empty redo stack nothing happens and there is no command; otherwise
   * the top moves back onto the undo stack, the flag is cleared, and that command is returned.
   */
  function PoppedRedo<C>(s: State<C>): (r: (State<C>, Option<C>))
    ensures s.redoStack == [] ==> r == (s, None)
    ensures s.redoStack != [] ==>
      r.1 == Some(s.redoStack[|s.redoStack| - 1])
      && r.0.redoStack == s.redoStack[..|s.redoStack| - 1]
      && r.0.undoStack == s.undoStack + [s.redoStack[|s.redoStack| - 1]]
      && !r.0.wasUndoCalled
  {
    if s.redoStack == [] then (s, None)
    else
      var command := s.redoStack[|s.redoStack| - 1];
      (State(s.undoStack + [command], s.redoStack[..|s.redoStack| - 1], false), Some(command))
  }

  /** Popping moves a command between the stacks, so the number of tracked commands is kept. */
  lemma PopsPreserveSize<C>(s: State<C>)
    ensures |PoppedUndo(s).0.undoStack| + |PoppedUndo(s).0.redoStack| == |s.undoStack| + |s.redoStack|
    ensures |PoppedRedo(s).0.undoStack| + |PoppedRedo(s).0.redoStack| == |s.undoStack| + |s.redoStack|
  {
  }

  /** Undoing and then redoing puts both stacks back as they were, and returns the same command. */
  lemma UndoThenRedoRestoresStacks<C>(s: State<C>)
    requires s.undoStack != []
    ensures var (t, c) := PoppedUndo(s);
      var (u, d) := PoppedRedo(t);
      u.undoStack == s.undoStack && u.redoStack == s.redoStack && !u.wasUndoCalled && c == d
  {
    var (t, c) := PoppedUndo(s);
    assert t.redoStack[..|t.redoStack| - 1] == s.redoStack;
    assert t.undoStack + [t.redoStack[|t.redoStack| - 1]] == s.undoStack;
  }

  /** Redoing and then undoing puts both stacks back as they were, and returns the same command. */
  lemma RedoThenUndoRestoresStacks<C>(s: State<C>)
    requires s.redoStack != []
    ensures var (t, c) := PoppedRedo(s);
      var (u, d) := PoppedUndo(t);
      u.undoStack == s.undoStack && u.redoStack == s.redoStack && u.wasUndoCalled && c == d
  {
    var (t, c) := PoppedRedo(s);
    assert t.undoStack[..|t.undoStack| - 1] == s.undoStack;
    assert t.redoStack + [t.undoStack[|t.undoStack| - 1]] == s.redoStack;
  }

  /**
   * The redo-invalidation rule: a push straight after an undo keeps the redo stack, and a
   * second push then clears it.
   */
  lemma PushAfterUndoKeepsRedoOnce<C>(s: State<C>, a: C, b: C)
    requires s.undoStack != []
    ensures var t := PoppedUndo(s).0;
      Pushed(t, a).redoStack == t.redoStack
      && t.redoStack != []
      && Pushed(Pushed(t, a), b).redoStack == []
  {
  }

  /** A push that does not follow an undo always clears the redo stack. */
  lemma PushWithoutUndoClearsRedo<C>(s: State<C>, c: C)
    requires !s.wasUndoCalled
    ensures Pushed(s, c).redoStack == []
    ensures PoppedRedo(Pushed(s, c)).1 == None
  {
  }

  class CommandTracker<C> {
    var undoStack: seq<C>
    var redoStack: seq<C>
    var wasUndoCalled: bool

    function Current(): State<C>
      reads this
    {
      State(undoStack, redoStack, wasUndoCalled)
    }

    /** A tracker with nothing to undo or redo. */
    constructor ()
      ensures undoStack == [] && redoStack == [] && !wasUndoCalled
    {
      undoStack := [];
      redoStack := [];
      wasUndoCalled := false;
    }

    /** `push`: see `Pushed`. */
    method Push(command: C)
      modifies this
      ensures Current() == Pushed(old(Current()), command)
    {
      undoStack := undoStack + [command];
      if !wasUndoCalled {
        redoStack := [];
      }
      wasUndoCalled := false;
    }

    /** `canUndo`: there is a command to undo exactly when the undo stack is non-empty. */
    predicate CanUndo()
      reads this
      ensures CanUndo() <==> PoppedUndo(Current()).1.Some?
    {
      undoStack != []
    }

    /** `canRedo`: there is a command to redo exactly when the redo stack is non-empty. */
    predicate CanRedo()
      reads this
      ensures CanRedo() <==> PoppedRedo(Current()).1.Some?
    {
      redoStack != []
    }

    /** `popUndo`: see `PoppedUndo`; `None` stands for the `null` of an empty stack. */
    method PopUndo() returns (command: Option<C>)
      modifies this
      ensures (Current(), command) == PoppedUndo(old(Current()))
    {
      if CanUndo() {
        var cmd := undoStack[|undoStack| - 1];
        undoStack := undoStack[..|undoStack| - 1];
        redoStack := redoStack + [cmd];
        wasUndoCalled := true;
        return Some(cmd);
      }
      return None;
    }

    /** `popRedo`: see `PoppedRedo`; `None` stands for the `null` of an empty stack. */
    method PopRedo() returns (command: Option<C>)
      modifies this
      ensures (Current(), command) == PoppedRedo(old(Current()))
    {
      if CanRedo() {
        var cmd := redoStack[|redoStack| - 1];
        redoStack := redoStack[..|redoStack| - 1];
        undoStack := undoStack + [cmd];
        wasUndoCalled := false;
        return Some(cmd);
      }
      return None;
    }
  }
}
