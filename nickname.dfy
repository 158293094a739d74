/** A person's nickname: optional free text of printable ASCII, at most 50 characters. */
module Nickname {
  import opened Wrappers
  import opened Text

  const MAX_LENGTH: nat := 50
  const MESSAGE_CONSTRAINTS_LENGTH := "Nicknames should be less than 50 characters long"
  const MESSAGE_CONSTRAINTS_CHARACTERS := "Nicknames can only contain printable ASCII characters"

  /** Equality of nicknames is equality of their text. */
  datatype Nickname = Nickname(nickname: string)

  /**
   * `isValidNickname`: the empty string passes; otherwise the character check runs first and
   * the length check second, each failing with its own message.
   */
  function IsValidNickname(test: string): (r: Outcome<string>)
    ensures r.Pass? <==> AllPrintableAscii(test) && |test| <= MAX_LENGTH
    ensures r.Fail? ==> (r.error ==
      (if !AllPrintableAscii(test) then MESSAGE_CONSTRAINTS_CHARACTERS else MESSAGE_CONSTRAINTS_LENGTH))
  {
    if test == [] then Pass
    else if !AllPrintableAscii(test) then Fail(MESSAGE_CONSTRAINTS_CHARACTERS)
    else if |test| > MAX_LENGTH then Fail(MESSAGE_CONSTRAINTS_LENGTH)
    else Pass
  }

  /** The constructor: it throws exactly when validation fails, and otherwise keeps the text. */
  function Create(s: string): (r: Result<Nickname, string>)
    ensures r.Ok? <==> AllPrintableAscii(s) && |s| <= MAX_LENGTH
    ensures r.Ok? ==> r.value.nickname == s
    ensures r.Err? ==> r.error == IsValidNickname(s).error
  {
    match IsValidNickname(s)
    case Pass => Ok(Nickname(s))
    case Fail(e) => Err(e)
  }

  /** The boundary cases: empty and exactly 50 characters pass, 51 fail on length, a tab fails on characters. */
  lemma NicknameBoundaries(s: string)
    requires AllPrintableAscii(s)
    ensures |s| <= 50 ==> Create(s).Ok?
    ensures |s| == 51 ==> Create(s) == Err(MESSAGE_CONSTRAINTS_LENGTH)
    ensures Create(s + "\t") == Err(MESSAGE_CONSTRAINTS_CHARACTERS)
  {
    assert !IsPrintableAscii((s + "\t")[|s|]);
  }
}
