/**
 * The list of command texts the user has entered, most recent last, kept to the last
 * hundred.
 */
module CommandHistory {

  const MAX_HISTORY_SIZE := 100

  /** The most recent `MAX_HISTORY_SIZE` entries of `commands`, in order. */
  function Recent(commands: seq<string>): seq<string> {
    if |commands| > MAX_HISTORY_SIZE then commands[|commands| - MAX_HISTORY_SIZE..] else commands
  }

  /** `Recent` keeps the tail of the list: as many entries as fit, ending with the last one. */
  lemma RecentIsBoundedSuffix(commands: seq<string>)
    ensures |Recent(commands)| == if |commands| < MAX_HISTORY_SIZE then |commands| else MAX_HISTORY_SIZE
    ensures Recent(commands) == commands[|commands| - |Recent(commands)|..]
    ensures |commands| <= MAX_HISTORY_SIZE ==> Recent(commands) == commands
  {
  }

  /** The history after adding each of `commands` in turn, one `addCommand` at a time. */
  function AddAll(history: seq<string>, commands: seq<string>): seq<string>
    decreases |commands|
  {
    if commands == [] then history
    else AddAll(Recent(history + [commands[0]]), commands[1..])
  }

  /**
   * Adding entries one at a time keeps exactly the last hundred of everything entered: the
   * trimming after each addition never loses an entry that a single trim at the end would keep.
   */
  lemma {:induction false} AddAllIsRecent(history: seq<string>, commands: seq<string>)
    requires |history| <= MAX_HISTORY_SIZE
    ensures AddAll(history, commands) == Recent(history + commands)
    decreases |commands|
  {
    if commands == [] {
      assert history + commands == history;
    } else {
      var first := history + [commands[0]];
      var next := Recent(first);
      assert AddAll(history, commands) == AddAll(next, commands[1..]);
      AddAllIsRecent(next, commands[1..]);
      RecentOfAppend(first, commands[1..]);
      SplitFirst(history, commands);
    }
  }

  /** Moving the first of `more` onto `history` leaves the concatenation as it was. */
  lemma SplitFirst(history: seq<string>, more: seq<string>)
    requires more != []
    ensures history + [more[0]] + more[1..] == history + more
  {
    assert more == [more[0]] + more[1..];
  }

  /** Trimming a prefix before appending more entries does not change the final trim. */
  lemma RecentOfAppend(prefix: seq<string>, more: seq<string>)
    ensures Recent(Recent(prefix) + more) == Recent(prefix + more)
  {
    var all := prefix + more;
    if |prefix| > MAX_HISTORY_SIZE {
      var cut := |prefix| - MAX_HISTORY_SIZE;
      assert Recent(prefix) + more == all[cut..];
      assert all[cut..][|all[cut..]| - MAX_HISTORY_SIZE..] == all[|all| - MAX_HISTORY_SIZE..];
    }
  }

  /**
   * Entering 101 or 200 commands into an empty history keeps the last hundred of them: the
   * one dropped for 101, the first hundred dropped for 200.
   */
  lemma LongRunsAreTrimmed(commands: seq<string>)
    requires |commands| > MAX_HISTORY_SIZE
    ensures AddAll([], commands) == commands[|commands| - MAX_HISTORY_SIZE..]
    ensures |AddAll([], commands)| == MAX_HISTORY_SIZE
  {
    var empty: seq<string> := [];
    AddAllIsRecent(empty, commands);
    assert empty + commands == commands;
    assert Recent(commands) == commands[|commands| - MAX_HISTORY_SIZE..];
  }

  class CommandHistory {
    var commandList: seq<string>

    /** The list never holds more than the hundred most recent commands. */
    predicate Valid()
      reads this
    {
      |commandList| <= MAX_HISTORY_SIZE
    }

    /** An empty history. */
    constructor ()
      ensures Valid() && commandList == []
    {
      commandList := [];
    }

    /** A history holding the commands of `toBeCopied`. */
    constructor Copy(toBeCopied: CommandHistory)
      ensures Valid() && commandList == Recent(toBeCopied.commandList)
    {
      commandList := Recent(toBeCopied.commandList);
    }

    /** `setCommands`: the list becomes `commands`, trimmed to the most recent hundred. */
    method SetCommands(commands: seq<string>)
      modifies this
      ensures Valid()
      ensures commandList == Recent(commands)
    {
      commandList := commands;
      TrimToSize();
    }

    /** `resetData`: the list becomes a copy of the other history's list. */
    method ResetData(newData: CommandHistory)
      modifies this
      ensures Valid()
      ensures commandList == Recent(old(newData.commandList))
    {
      SetCommands(newData.GetCommandHistory());
    }

    /** `addCommand`: the command is appended and the oldest entry dropped if over the limit. */
    method AddCommand(command: string)
      requires Valid()
      modifies this
      ensures Valid()
      ensures commandList == Recent(old(commandList) + [command])
      ensures |commandList| == if |old(commandList)| < MAX_HISTORY_SIZE then |old(commandList)| + 1 else MAX_HISTORY_SIZE
      ensures commandList[|commandList| - 1] == command
    {
      commandList := commandList + [command];
      TrimToSize();
    }

    /** `trimToSize`: drops the oldest entries beyond the hundred most recent. */
    method TrimToSize()
      modifies this
      ensures Valid()
      ensures commandList == Recent(old(commandList))
    {
      if |commandList| > MAX_HISTORY_SIZE {
        commandList := commandList[|commandList| - MAX_HISTORY_SIZE..];
      }
    }

    /** `getCommandHistory`: a copy of the list. */
    function GetCommandHistory(): seq<string>
      reads this
    {
      commandList
    }

    /** Two histories are equal when their lists are. */
    predicate Equals(other: CommandHistory)
      reads this, other
    {
      commandList == other.commandList
    }
  }
}
