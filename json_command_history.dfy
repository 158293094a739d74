/**
 * The stored form of the command history: the plain list of command texts, as read from or
 * written to the JSON file.
 */
module JsonSerializableCommandHistory {
  import opened Wrappers
  import CommandHistory

  datatype JsonSerializableCommandHistory = JsonSerializableCommandHistory(commandList: seq<string>)

  /** The JSON creator: a missing `commandList` property reads as the empty list. */
  function FromJson(commandList: Option<seq<string>>): (r: JsonSerializableCommandHistory)
    ensures commandList.None? ==> r.commandList == []
    ensures commandList.Some? ==> r.commandList == commandList.value
  {
    JsonSerializableCommandHistory(commandList.GetOr([]))
  }

  /** Converting a history into its stored form copies its list. */
  function FromSource(source: CommandHistory.CommandHistory): JsonSerializableCommandHistory
    reads source
  {
    JsonSerializableCommandHistory(source.GetCommandHistory())
  }

  /**
   * `toModelType`: a new history holding the stored list, trimmed to the most recent hundred
   * entries. No stored list is rejected.
   */
  method ToModelType(stored: JsonSerializableCommandHistory) returns (h: CommandHistory.CommandHistory)
    ensures fresh(h) && h.Valid()
    ensures h.commandList == CommandHistory.Recent(stored.commandList)
  {
    h := new CommandHistory.CommandHistory();
    h.SetCommands(stored.commandList);
  }

  /**
   * Round trip: a well-formed history put into its stored form and trimmed again on loading
   * keeps its list, entry for entry.
   */
  lemma StoredHistoryRoundTrips(source: CommandHistory.CommandHistory)
    requires source.Valid()
    ensures CommandHistory.Recent(FromSource(source).commandList) == source.commandList
  {
    CommandHistory.RecentIsBoundedSuffix(source.commandList);
  }

  /**
   * Storing a history and converting the stored form back gives a new history equal to the
   * original.
   */
  method RoundTrip(source: CommandHistory.CommandHistory) returns (h: CommandHistory.CommandHistory)
    requires source.Valid()
    ensures fresh(h) && h.Valid()
    ensures h.commandList == source.commandList && h.Equals(source)
  {
    StoredHistoryRoundTrips(source);
    h := ToModelType(FromSource(source));
  }

  /** An absent list loads as an empty history. */
  lemma MissingListLoadsEmpty()
    ensures CommandHistory.Recent(FromJson(None).commandList) == []
  {
  }
}
