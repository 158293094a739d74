/**
 * What a command hands back: the feedback text, whether to show help or exit, and the
 * command, if any, that waits for the user's confirmation. `C` is the type of confirmable
 * commands.
 */
module CommandResult {
  import opened Wrappers

  datatype CommandResult<C> = CommandResult(
    feedbackToUser: string,
    showHelp: bool,
    exit: bool,
    toBeConfirmed: Option<C>)

  /** `CommandResult(feedbackToUser, showHelp, exit)`: nothing waits for confirmation. */
  function WithFlags<C>(feedbackToUser: string, showHelp: bool, exit: bool): (r: CommandResult<C>)
    ensures !IsToBeConfirmed(r)
    ensures r.feedbackToUser == feedbackToUser && r.showHelp == showHelp && r.exit == exit
  {
    CommandResult(feedbackToUser, showHelp, exit, None)
  }

  /** `CommandResult(feedbackToUser)`: plain feedback, no help, no exit, nothing to confirm. */
  function Feedback<C>(feedbackToUser: string): (r: CommandResult<C>)
    ensures !IsToBeConfirmed(r) && !r.showHelp && !r.exit
    ensures r.feedbackToUser == feedbackToUser
  {
    CommandResult(feedbackToUser, false, false, None)
  }

  /** `CommandResult(feedbackToUser, toBeConfirmed)`: a question, with the command that waits on the answer. */
  function Confirming<C>(feedbackToUser: string, toBeConfirmed: C): (r: CommandResult<C>)
    ensures IsToBeConfirmed(r) && r.toBeConfirmed.value == toBeConfirmed
    ensures !r.showHelp && !r.exit && r.feedbackToUser == feedbackToUser
  {
    CommandResult(feedbackToUser, false, false, Some(toBeConfirmed))
  }

  /** `isToBeConfirmed`: some command waits for confirmation. */
  predicate IsToBeConfirmed<C>(r: CommandResult<C>) {
    r.toBeConfirmed.Some?
  }

  /**
   * `equals`: same feedback and flags, and either no command waiting on either side or
   * waiting commands that are equal in the commands' own sense `same`.
   */
  predicate Equals<C>(a: CommandResult<C>, b: CommandResult<C>, same: (C, C) -> bool) {
    a.feedbackToUser == b.feedbackToUser && a.showHelp == b.showHelp && a.exit == b.exit
    && (match (a.toBeConfirmed, b.toBeConfirmed)
        case (None, None) => true
        case (Some(x), Some(y)) => same(x, y)
        case _ => false)
  }

  /** Result equality is an equivalence whenever command equality is. */
  lemma EqualsIsEquivalence<C>(a: CommandResult<C>, b: CommandResult<C>, c: CommandResult<C>, same: (C, C) -> bool)
    requires forall x :: same(x, x)
    requires forall x, y :: same(x, y) ==> same(y, x)
    requires forall x, y, z :: same(x, y) && same(y, z) ==> same(x, z)
    ensures Equals(a, a, same)
    ensures Equals(a, b, same) ==> Equals(b, a, same)
    ensures Equals(a, b, same) && Equals(b, c, same) ==> Equals(a, c, same)
  {
    if Equals(a, b, same) && Equals(b, c, same) && a.toBeConfirmed.Some? {
      assert same(a.toBeConfirmed.value, b.toBeConfirmed.value);
      assert same(b.toBeConfirmed.value, c.toBeConfirmed.value);
    }
  }

  /**
   * A question never equals plain feedback with the same text, and two questions are equal
   * exactly when the commands waiting on them are.
   */
  lemma QuestionsDifferFromFeedback<C>(text: string, command: C, other: C, same: (C, C) -> bool)
    ensures !Equals(Confirming(text, command), Feedback(text), same)
    ensures Equals(Confirming(text, command), Confirming(text, other), same) <==> same(command, other)
  {
  }
}
