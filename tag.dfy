/** A tag on a person: a non-empty ASCII alphanumeric word of at most 30 characters. */
module Tag {
  import opened Wrappers
  import opened Text

  const MAX_LENGTH: nat := 30
  const MAX_NUM: nat := 10
  const MESSAGE_CONSTRAINTS_NUM := "Number of tags cannot exceed 10"
  const MESSAGE_CONSTRAINTS_LENGTH := "Tags should be less than 30 characters long"
  const MESSAGE_CONSTRAINTS_CHARACTERS := "Tags names should be alphanumeric"

  /** Equality of tags is equality of their names. */
  datatype Tag = Tag(tagName: string)

  /** The regular expression `\p{Alnum}+`: one or more ASCII letters or digits. */
  predicate IsAlnumWord(s: string) {
    s != [] && AllAsciiAlnum(s)
  }

  /** `isValidTagName`: the character check runs before the length check. */
  function IsValidTagName(test: string): (r: Outcome<string>)
    ensures r.Pass? <==> IsAlnumWord(test) && |test| <= MAX_LENGTH
    ensures r.Fail? ==> (r.error ==
      (if !IsAlnumWord(test) then MESSAGE_CONSTRAINTS_CHARACTERS else MESSAGE_CONSTRAINTS_LENGTH))
  {
    if !IsAlnumWord(test) then Fail(MESSAGE_CONSTRAINTS_CHARACTERS)
    else if |test| > MAX_LENGTH then Fail(MESSAGE_CONSTRAINTS_LENGTH)
    else Pass
  }

  /** The constructor: it throws exactly when validation fails, and otherwise keeps the name. */
  function Create(s: string): (r: Result<Tag, string>)
    ensures r.Ok? <==> IsAlnumWord(s) && |s| <= MAX_LENGTH
    ensures r.Ok? ==> r.value.tagName == s
    ensures r.Err? ==> r.error == IsValidTagName(s).error
  {
    match IsValidTagName(s)
    case Pass => Ok(Tag(s))
    case Fail(e) => Err(e)
  }

  /** `toString`: the name in square brackets. */
  function ToString(t: Tag): (r: string)
    ensures |r| == |t.tagName| + 2 && r[0] == '[' && r[|r| - 1] == ']'
    ensures r[1..|r| - 1] == t.tagName
  {
    "[" + t.tagName + "]"
  }

  /** Distinct tags print differently, so the rendering can be read back. */
  lemma ToStringInjective(a: Tag, b: Tag)
    requires ToString(a) == ToString(b)
    ensures a == b
  {
    assert a.tagName == ToString(a)[1..|ToString(a)| - 1];
  }

  /** A long name with a bad character reports the characters, since they are checked first. */
  lemma CharactersReportedBeforeLength(s: string)
    requires |s| > MAX_LENGTH && !AllAsciiAlnum(s)
    ensures Create(s) == Err(MESSAGE_CONSTRAINTS_CHARACTERS)
  {
  }
}
