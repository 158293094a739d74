/** Free-form notes about a person: printable ASCII, at most 300 characters. */
module Notes {
  import opened Wrappers
  import opened Text

  const MAX_LENGTH: nat := 300
  const MESSAGE_CONSTRAINTS_LENGTH := "Notes can be at most 300 characters long"
  const MESSAGE_CONSTRAINTS_CHARACTERS := "Notes can only contain printable ASCII characters"

  /** Equality of notes is equality of their text. */
  datatype Notes = Notes(value: string)

  /**
   * `isValidNotes`: the empty string passes; otherwise the length check runs first and the
   * character check second (the reverse of the nickname order).
   */
  function IsValidNotes(test: string): (r: Outcome<string>)
    ensures r.Pass? <==> AllPrintableAscii(test) && |test| <= MAX_LENGTH
    ensures r.Fail? ==> (r.error ==
      (if |test| > MAX_LENGTH then MESSAGE_CONSTRAINTS_LENGTH else MESSAGE_CONSTRAINTS_CHARACTERS))
  {
    if test == [] then Pass
    else if |test| > MAX_LENGTH then Fail(MESSAGE_CONSTRAINTS_LENGTH)
    else if !AllPrintableAscii(test) then Fail(MESSAGE_CONSTRAINTS_CHARACTERS)
    else Pass
  }

  /** The constructor: it throws exactly when validation fails, and otherwise keeps the text. */
  function Create(s: string): (r: Result<Notes, string>)
    ensures r.Ok? <==> AllPrintableAscii(s) && |s| <= MAX_LENGTH
    ensures r.Ok? ==> r.value.value == s
    ensures r.Err? ==> r.error == IsValidNotes(s).error
  {
    match IsValidNotes(s)
    case Pass => Ok(Notes(s))
    case Fail(e) => Err(e)
  }

  /** Too long and badly encoded at once reports the length, since length is checked first. */
  lemma LengthReportedBeforeCharacters(s: string)
    requires |s| > MAX_LENGTH && !AllPrintableAscii(s)
    ensures Create(s) == Err(MESSAGE_CONSTRAINTS_LENGTH)
  {
  }
}
