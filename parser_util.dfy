/**
 * Shared parsing helpers: one-based indices, name formatting, escape removal, tags and the
 * optional-field parsers.
 */
module ParserUtil {
  import opened Wrappers
  import opened Text
  import StringUtil
  import Tag
  import Nickname
  import Notes

  const MESSAGE_INVALID_INDEX := "Index is not a non-zero unsigned integer."

  // ---------------------------------------------------------------------------
  // parseIndex

  /**
   * `parseIndex`: the trimmed text must be a non-zero unsigned integer; the result is the
   * zero-based index it denotes.
   */
  function ParseIndex(oneBasedIndex: string): (r: Result<nat, string>)
    ensures r.Ok? <==> StringUtil.IsNonZeroUnsignedInteger(Trim(oneBasedIndex))
    ensures r.Ok? ==> AllDigits(Trim(oneBasedIndex)) && DigitsValue(Trim(oneBasedIndex)) == r.value + 1
    ensures r.Ok? ==> r.value < StringUtil.INT_MAX
    ensures r.Err? ==> r.error == MESSAGE_INVALID_INDEX
  {
    var trimmedIndex := Trim(oneBasedIndex);
    if !StringUtil.IsNonZeroUnsignedInteger(trimmedIndex) then Err(MESSAGE_INVALID_INDEX)
    else
      StringUtil.NonZeroUnsignedIntegerIff(trimmedIndex);
      StringUtil.ParseIntOfDigits(trimmedIndex);
      Ok(StringUtil.ParseInt(trimmedIndex).value - 1)
  }

  /** Printing a one-based index and parsing it gives the zero-based index back. */
  lemma ParseIndexOfPrinted(i: nat)
    requires i < StringUtil.INT_MAX
    ensures ParseIndex(NatToString(i + 1)) == Ok(i)
  {
    var s := NatToString(i + 1);
    assert IsDigit(s[0]) && IsDigit(s[|s| - 1]);
    TrimmedIsFixed(s);
    StringUtil.PrintedNumberIsAccepted(i + 1);
  }

  // ---------------------------------------------------------------------------
  // formatName

  /** A word is capitalised when it starts with a letter and contains no '/'. */
  predicate Capitalisable(w: string) {
    w != [] && IsAsciiLetter(w[0]) && '/' !in w
  }

  /** One word as `formatName` writes it: only the first character may change, to upper case. */
  function FormatWord(w: string): (r: string)
    ensures |r| == |w|
    ensures w != [] ==> r[1..] == w[1..]
    ensures w != [] ==> r[0] == (if Capitalisable(w) then UpperChar(w[0]) else w[0])
  {
    if Capitalisable(w) then [UpperChar(w[0])] + w[1..] else w
  }

  function FormatWords(ws: seq<string>): (r: seq<string>)
    ensures |r| == |ws| && forall i :: 0 <= i < |ws| ==> r[i] == FormatWord(ws[i])
  {
    seq(|ws|, i requires 0 <= i < |ws| => FormatWord(ws[i]))
  }

  /** What `formatName` produces: the formatted whitespace-separated words, joined by single spaces. */
  function Formatted(name: string): string {
    JoinWith(FormatWords(Fields(Trim(name))), " ")
  }

  /** Each word followed by one space, built left to right as the loop does. */
  function Spaced(ws: seq<string>): string {
    if ws == [] then "" else Spaced(ws[..|ws| - 1]) + ws[|ws| - 1] + " "
  }

  /**
   * `formatName`: the trimmed text is split on whitespace runs (collapsing the runs to one
   * space and splitting on that space gives the same pieces), each word is appended followed
   * by a space, and the result is trimmed.
   */
  method FormatName(name: string) returns (r: string)
    ensures r == Formatted(name)
  {
    var words := SplitOnWhitespace(Trim(name));
    var formattedName := AppendFormattedWords(words);
    r := Trim(formattedName);
    FormatNameResult(name, words, formattedName);
  }

  /** The loop of `formatName`: each word, formatted, followed by a space. */
  method AppendFormattedWords(words: seq<string>) returns (formattedName: string)
    ensures formattedName == Spaced(FormatWords(words))
  {
    ghost var formatted := FormatWords(words);
    formattedName := "";
    for k := 0 to |words|
      invariant formattedName == Spaced(formatted[..k])
    {
      ghost var before := formattedName;
      var word := words[k];
      if word != [] && IsAsciiLetter(word[0]) && '/' !in word {
        formattedName := formattedName + [UpperChar(word[0])];
        if |word| > 1 {
          formattedName := formattedName + word[1..];
        }
        assert formattedName == before + [UpperChar(word[0])] + word[1..];
        AppendAssociates(before, [UpperChar(word[0])], word[1..]);
        formattedName := formattedName + " ";
      } else {
        formattedName := formattedName + word + " ";
      }
      SpacedStep(formatted, k);
    }
    assert formatted[..|words|] == formatted;
  }

  /** Appending two pieces one after the other appends their concatenation. */
  lemma AppendAssociates(a: string, b: string, c: string)
    ensures a + b + c == a + (b + c)
  {
  }

  /** One more word adds that word and a space to the spaced text. */
  lemma SpacedStep(ws: seq<string>, k: nat)
    requires k < |ws|
    ensures Spaced(ws[..k + 1]) == Spaced(ws[..k]) + ws[k] + " "
  {
    assert ws[..k + 1][..k] == ws[..k];
  }

  lemma FormatNameResult(name: string, words: seq<string>, built: string)
    requires words == SplitOnWhitespace(Trim(name))
    requires built == Spaced(FormatWords(words))
    ensures Trim(built) == Formatted(name)
  {
    var t := Trim(name);
    FieldsOfTrimmed(t);
    if t == [] {
      assert FormatWords(words) == [""];
      assert Spaced([""]) == " ";
    } else {
      var ws := FormatWords(words);
      FormattedWordsAreSolid(t);
      SpacedIsJoined(ws);
      TrimDropsTrailingSpace(JoinWith(ws, " "));
    }
  }

  /** A word with no blank character at either end. */
  predicate Solid(w: string) {
    w != [] && w[0] > ' ' && w[|w| - 1] > ' '
  }

  lemma FormattedWordsAreSolid(t: string)
    requires IsTrimmed(t) && t != []
    ensures Fields(t) != []
    ensures AreWords(FormatWords(Fields(t)))
    ensures IsTrimmed(JoinWith(FormatWords(Fields(t)), " "))
    ensures JoinWith(FormatWords(Fields(t)), " ") != []
  {
    var fs := Fields(t);
    FieldsEnds(t);
    var ws := FormatWords(fs);
    forall k | 0 <= k < |ws|
      ensures ws[k] != [] && NoSpace(ws[k])
    {
      FormatWordIsWord(fs[k]);
    }
    assert ws[0][0] > ' ';
    assert ws[|ws| - 1][|ws[|ws| - 1]| - 1] > ' ';
    JoinEnds(ws);
  }

  lemma FormatWordIsWord(w: string)
    requires w != [] && NoSpace(w)
    ensures FormatWord(w) != [] && NoSpace(FormatWord(w))
  {
    var r := FormatWord(w);
    forall i | 0 <= i < |r|
      ensures !IsSpace(r[i])
    {
      if i > 0 {
        assert r[i] == r[1..][i - 1] == w[1..][i - 1] == w[i];
      }
    }
  }

  /** The first field starts with the first character, and the last ends with the last one. */
  lemma FieldsEnds(t: string)
    requires t != [] && !IsSpace(t[0]) && !IsSpace(t[|t| - 1])
    ensures Fields(t) != []
    ensures Fields(t)[0][0] == t[0]
    ensures var ws := Fields(t); ws[|ws| - 1][|ws[|ws| - 1]| - 1] == t[|t| - 1]
  {
    FieldsLastEnd(t);
  }

  lemma FieldsLastEnd(t: string)
    requires t != [] && !IsSpace(t[|t| - 1])
    ensures Fields(t) != []
    ensures var ws := Fields(t); ws[|ws| - 1][|ws[|ws| - 1]| - 1] == t[|t| - 1]
    decreases |t|
  {
    FieldsOfNonEmpty(t);
    if IsSpace(t[0]) {
      var rest := t[1..];
      assert rest[|rest| - 1] == t[|t| - 1];
      FieldsLastEnd(rest);
    } else {
      var n := RunLength(t);
      var rest := t[n..];
      if rest == [] {
        assert t[..n] == t;
        assert Fields(rest) == [];
      } else {
        assert rest[|rest| - 1] == t[|t| - 1];
        FieldsLastEnd(rest);
        LastOfAppended([t[..n]], Fields(rest));
      }
    }
  }

  /** `Fields` of a non-empty text: skip one space, or take the first run. */
  lemma FieldsOfNonEmpty(t: string)
    requires t != []
    ensures Fields(t) == if IsSpace(t[0]) then Fields(t[1..]) else [t[..RunLength(t)]] + Fields(t[RunLength(t)..])
  {
  }

  /** The last element of `a + b` is the last of `b` when `b` is not empty. */
  lemma LastOfAppended(a: seq<string>, b: seq<string>)
    requires b != []
    ensures (a + b)[|a + b| - 1] == b[|b| - 1]
  {
  }

  /** A single-space join of words starts with the first word's first character and ends with the last word's last. */
  lemma JoinEnds(ws: seq<string>)
    requires ws != [] && forall k :: 0 <= k < |ws| ==> ws[k] != []
    ensures JoinWith(ws, " ") != []
    ensures JoinWith(ws, " ")[0] == ws[0][0]
    ensures var j := JoinWith(ws, " "); j[|j| - 1] == ws[|ws| - 1][|ws[|ws| - 1]| - 1]
  {
    if |ws| > 1 {
      var rest := ws[1..];
      forall k | 0 <= k < |rest|
        ensures rest[k] != []
      {
        assert rest[k] == ws[k + 1];
      }
      JoinEnds(rest);
      var j, jr := JoinWith(ws, " "), JoinWith(rest, " ");
      assert j == ws[0] + " " + jr;
      assert j[|j| - 1] == jr[|jr| - 1];
      assert rest[|rest| - 1] == ws[|ws| - 1];
    }
  }

  /** Appending one more word to a single-space join. */
  lemma JoinSnoc(ws: seq<string>, w: string)
    requires ws != []
    ensures JoinWith(ws + [w], " ") == JoinWith(ws, " ") + " " + w
  {
    if |ws| > 1 {
      assert (ws + [w])[1..] == ws[1..] + [w];
      JoinSnoc(ws[1..], w);
    } else {
      assert (ws + [w])[1..] == [w];
    }
  }

  lemma SpacedIsJoined(ws: seq<string>)
    requires ws != []
    ensures Spaced(ws) == JoinWith(ws, " ") + " "
  {
    var init := ws[..|ws| - 1];
    if init != [] {
      SpacedIsJoined(init);
      JoinSnoc(init, ws[|ws| - 1]);
      assert init + [ws[|ws| - 1]] == ws;
    }
  }

  lemma TrimDropsTrailingSpace(j: string)
    requires j != [] && IsTrimmed(j)
    ensures Trim(j + " ") == j
  {
    assert (j + " ")[..|j|] == j;
  }

  /**
   * The formatted name is trimmed, its words are the input's words formatted one by one, and
   * those words are separated by exactly one space.
   */
  lemma FormattedShape(name: string)
    ensures IsTrimmed(Formatted(name))
    ensures Fields(Formatted(name)) == FormatWords(Fields(Trim(name)))
    ensures Formatted(name) == JoinWith(Fields(Formatted(name)), " ")
  {
    var t := Trim(name);
    if t != [] {
      FormattedWordsAreSolid(t);
      FieldsOfJoin(FormatWords(Fields(t)));
    }
  }

  lemma FormatWordIdempotent(w: string)
    ensures FormatWord(FormatWord(w)) == FormatWord(w)
  {
    if Capitalisable(w) {
      var r := FormatWord(w);
      assert r[0] == UpperChar(w[0]);
      assert forall i :: 1 <= i < |r| ==> r[i] == w[i];
      assert '/' !in r;
    }
  }

  /** Formatting an already formatted name changes nothing. */
  lemma FormattedIdempotent(name: string)
    ensures Formatted(Formatted(name)) == Formatted(name)
  {
    var f := Formatted(name);
    FormattedShape(name);
    TrimmedIsFixed(f);
    var ws := Fields(Trim(name));
    forall k | 0 <= k < |ws|
      ensures FormatWord(FormatWord(ws[k])) == FormatWord(ws[k])
    {
      FormatWordIdempotent(ws[k]);
    }
    assert FormatWords(FormatWords(ws)) == FormatWords(ws);
  }

  // ---------------------------------------------------------------------------
  // Escape removal

  /** `escapeRemover`: every backslash is deleted. */
  function EscapeRemover(input: string): (r: string)
    ensures forall i :: 0 <= i < |r| ==> r[i] != '\\'
    ensures (forall i :: 0 <= i < |input| ==> input[i] != '\\') ==> r == input
  {
    if input == [] then ""
    else (if input[0] == '\\' then "" else [input[0]]) + EscapeRemover(input[1..])
  }

  /** Deleting backslashes works piece by piece, so it is determined by what it does to one character. */
  lemma {:induction false} EscapeRemoverAppend(a: string, b: string)
    ensures EscapeRemover(a + b) == EscapeRemover(a) + EscapeRemover(b)
  {
    if a != [] {
      var head := if a[0] == '\\' then "" else [a[0]];
      assert (a + b)[0] == a[0] && (a + b)[1..] == a[1..] + b;
      assert EscapeRemover(a + b) == head + EscapeRemover(a[1..] + b);
      EscapeRemoverAppend(a[1..], b);
      assert EscapeRemover(a) == head + EscapeRemover(a[1..]);
    } else {
      assert a + b == b;
    }
  }

  /** `slashEscapeRemover`: each `\/`, scanning left to right without overlap, becomes `/`. */
  function SlashEscapeRemover(input: string): (r: string)
    ensures |r| <= |input|
    ensures (forall i :: 0 <= i < |input| ==> input[i] != '\\') ==> r == input
  {
    if input == [] then ""
    else if |input| >= 2 && input[0] == '\\' && input[1] == '/' then "/" + SlashEscapeRemover(input[2..])
    else [input[0]] + SlashEscapeRemover(input[1..])
  }

  /**
   * Unescaping slashes only deletes backslashes, so removing every backslash afterwards gives
   * the same text as removing them straight away.
   */
  lemma {:induction false} SlashThenEscapeRemover(input: string)
    ensures EscapeRemover(SlashEscapeRemover(input)) == EscapeRemover(input)
    decreases |input|
  {
    if input == [] {
    } else if |input| >= 2 && input[0] == '\\' && input[1] == '/' {
      SlashThenEscapeRemover(input[2..]);
      EscapeRemoverAppend("/", SlashEscapeRemover(input[2..]));
      assert input[1..][1..] == input[2..];
    } else {
      SlashThenEscapeRemover(input[1..]);
      EscapeRemoverAppend([input[0]], SlashEscapeRemover(input[1..]));
    }
  }

  /** A doubled backslash before a slash shows the scan: only the second backslash goes. */
  lemma SlashEscapeRemoverExample()
    ensures SlashEscapeRemover("a\\/b") == "a/b"
    ensures SlashEscapeRemover("\\\\/") == "\\/"
  {
    assert "a\\/b"[1..] == "\\/b";
    assert "\\/b"[2..] == "b";
    assert "\\\\/"[1..] == "\\/";
    assert "\\/"[2..] == "";
  }

  // ---------------------------------------------------------------------------
  // Tags

  /** `parseTag`: the trimmed text must be a valid tag name. */
  function ParseTag(tag: string): Result<Tag.Tag, string> {
    Tag.Create(Trim(tag))
  }

  /** A tag parses exactly when its trimmed text is a short alphanumeric word, and keeps that text. */
  lemma ParseTagMeaning(tag: string)
    ensures ParseTag(tag).Ok? <==> Tag.IsAlnumWord(Trim(tag)) && |Trim(tag)| <= Tag.MAX_LENGTH
    ensures ParseTag(tag).Ok? ==> ParseTag(tag).value.tagName == Trim(tag)
    ensures ParseTag(" " + tag + " ") == ParseTag(tag)
  {
    TrimPadded(tag);
  }

  /** The values of the successful results among `rs`. */
  function Successes<T, E>(rs: seq<Result<T, E>>): set<T> {
    if rs == [] then {}
    else Successes(rs[..|rs| - 1]) + (if rs[|rs| - 1].Ok? then {rs[|rs| - 1].value} else {})
  }

  /** A value is a success exactly when some result carries it; there are no more values than results. */
  lemma {:induction false} SuccessesMembers<T, E>(rs: seq<Result<T, E>>)
    ensures forall t :: t in Successes(rs) <==> Ok(t) in rs
    ensures |Successes(rs)| <= |rs|
  {
    if rs != [] {
      var init := rs[..|rs| - 1];
      SuccessesMembers(init);
      assert rs == init + [rs[|rs| - 1]];
    }
  }

  /** One more successful result adds its value to the successes of the prefix. */
  lemma SuccessesStep<T, E>(rs: seq<Result<T, E>>, k: nat)
    requires k < |rs| && rs[k].Ok?
    ensures Successes(rs[..k + 1]) == Successes(rs[..k]) + {rs[k].value}
  {
    assert rs[..k + 1][..k] == rs[..k];
  }

  /** The result of parsing each name. */
  function ParseEach(names: seq<string>): (rs: seq<Result<Tag.Tag, string>>)
    ensures |rs| == |names| && forall i :: 0 <= i < |names| ==> rs[i] == ParseTag(names[i])
  {
    seq(|names|, i requires 0 <= i < |names| => ParseTag(names[i]))
  }

  /** The tags that the valid names among `names` parse to. */
  function ParsedTags(names: seq<string>): set<Tag.Tag> {
    Successes(ParseEach(names))
  }

  /** The error of the first failed result, scanning from the front. */
  function FirstError<T, E>(rs: seq<Result<T, E>>): Option<E> {
    if rs == [] then None
    else if rs[0].Err? then Some(rs[0].error)
    else FirstError(rs[1..])
  }

  /** No error is found exactly when every result succeeded; a found error is the first one. */
  lemma {:induction false} FirstErrorMeaning<T, E>(rs: seq<Result<T, E>>)
    ensures FirstError(rs).None? <==> forall i :: 0 <= i < |rs| ==> rs[i].Ok?
    ensures FirstError(rs).Some? ==>
      exists k :: 0 <= k < |rs| && rs[k] == Err(FirstError(rs).value) && forall j :: 0 <= j < k ==> rs[j].Ok?
  {
    if rs != [] && rs[0].Ok? {
      FirstErrorMeaning(rs[1..]);
      if FirstError(rs[1..]).Some? {
        var k :| 0 <= k < |rs[1..]| && rs[1..][k] == Err(FirstError(rs[1..]).value)
                 && forall j :: 0 <= j < k ==> rs[1..][j].Ok?;
        assert rs[k + 1] == rs[1..][k];
        assert forall j :: 1 <= j < k + 1 ==> rs[j] == rs[1..][j - 1];
      } else {
        assert forall i :: 1 <= i < |rs| ==> rs[i] == rs[1..][i - 1];
      }
    }
  }

  /** Scanning one more result after an error-free prefix. */
  lemma {:induction false} FirstErrorStep<T, E>(rs: seq<Result<T, E>>, k: nat)
    requires k < |rs| && FirstError(rs[..k]).None?
    ensures rs[k].Ok? ==> FirstError(rs[..k + 1]).None?
    ensures rs[k].Err? ==> FirstError(rs) == Some(rs[k].error)
  {
    if k > 0 {
      assert rs[..k][1..] == rs[1..][..k - 1];
      assert rs[..k + 1][1..] == rs[1..][..k];
      FirstErrorStep(rs[1..], k - 1);
    }
  }

  /**
   * `parseTags`: more than ten inputs fail before any is looked at (duplicates are counted);
   * otherwise the first invalid tag's message is reported, or the set of parsed tags returned.
   */
  method ParseTags(tags: seq<string>) returns (r: Result<set<Tag.Tag>, string>)
    ensures |tags| > Tag.MAX_NUM ==> r == Err(Tag.MESSAGE_CONSTRAINTS_NUM)
    ensures |tags| <= Tag.MAX_NUM ==> r == match FirstError(ParseEach(tags))
                                          case Some(e) => Err(e)
                                          case None => Ok(Successes(ParseEach(tags)))
  {
    if |tags| > Tag.MAX_NUM {
      return Err(Tag.MESSAGE_CONSTRAINTS_NUM);
    }
    ghost var results := ParseEach(tags);
    var tagSet: set<Tag.Tag> := {};
    for k := 0 to |tags|
      invariant FirstError(results[..k]).None?
      invariant tagSet == Successes(results[..k])
    {
      var parsed := ParseTag(tags[k]);
      assert parsed == results[k];
      FirstErrorStep(results, k);
      if parsed.Err? {
        return Err(parsed.error);
      }
      SuccessesStep(results, k);
      tagSet := tagSet + {parsed.value};
    }
    assert results[..|tags|] == results;
    return Ok(tagSet);
  }

  /**
   * What `parseTags` promises, stated outright: it succeeds exactly when there are at most ten
   * names and each parses; a failure reports the first bad name's message; a success holds
   * exactly the parsed tags, never more than there were names.
   */
  lemma ParseTagsOutcome(tags: seq<string>)
    requires |tags| <= Tag.MAX_NUM
    ensures FirstError(ParseEach(tags)).None? <==> forall i :: 0 <= i < |tags| ==> ParseTag(tags[i]).Ok?
    ensures FirstError(ParseEach(tags)).Some? ==>
      exists k :: 0 <= k < |tags| && ParseTag(tags[k]) == Err(FirstError(ParseEach(tags)).value)
              && forall j :: 0 <= j < k ==> ParseTag(tags[j]).Ok?
    ensures forall t :: t in Successes(ParseEach(tags)) <==> exists i :: 0 <= i < |tags| && ParseTag(tags[i]) == Ok(t)
    ensures |Successes(ParseEach(tags))| <= Tag.MAX_NUM
  {
    FirstErrorMeaning(ParseEach(tags));
    ParsedTagsMembers(tags);
  }

  /** A tag is parsed exactly when some name parses to it, and there are never more tags than names. */
  lemma ParsedTagsMembers(names: seq<string>)
    ensures forall t :: t in ParsedTags(names) <==> exists i :: 0 <= i < |names| && ParseTag(names[i]) == Ok(t)
    ensures |ParsedTags(names)| <= |names|
  {
    var rs := ParseEach(names);
    SuccessesMembers(rs);
    forall t | Ok(t) in rs
      ensures exists i :: 0 <= i < |names| && ParseTag(names[i]) == Ok(t)
    {
      var i :| 0 <= i < |rs| && rs[i] == Ok(t);
    }
  }

  /** At most ten names are accepted, so a parsed tag set never holds more than ten tags. */
  lemma ParsedTagSetBounded(tags: seq<string>)
    requires |tags| <= Tag.MAX_NUM
    ensures |ParsedTags(tags)| <= Tag.MAX_NUM
  {
    ParsedTagsMembers(tags);
  }

  // ---------------------------------------------------------------------------
  // Optional fields

  /**
   * The shape shared by `parsePhone`, `parseAddress`, `parseBirthday`, `parseEmail` and
   * `parseRelationship`: an absent value stays absent without validation; a present one is
   * trimmed and handed to the field's constructor, whose failure message is reported.
   */
  function ParseOptional<T>(raw: Option<string>, create: string -> Result<T, string>): (r: Result<Option<T>, string>)
    ensures raw.None? ==> r == Ok(None)
    ensures raw.Some? ==> (r.Ok? <==> create(Trim(raw.value)).Ok?)
    ensures raw.Some? && r.Ok? ==> r.value == Some(create(Trim(raw.value)).value)
    ensures raw.Some? && r.Err? ==> r.error == create(Trim(raw.value)).error
  {
    match raw
    case None => Ok(None)
    case Some(s) =>
      match create(Trim(s))
      case Ok(v) => Ok(Some(v))
      case Err(e) => Err(e)
  }

  /** `parseNickname`: trimmed, slash escapes removed, then validated. */
  function ParseNickname(nickname: Option<string>): (r: Result<Option<Nickname.Nickname>, string>)
    ensures nickname.None? ==> r == Ok(None)
    ensures nickname.Some? ==>
      var text := SlashEscapeRemover(Trim(nickname.value));
      (r.Ok? <==> AllPrintableAscii(text) && |text| <= Nickname.MAX_LENGTH)
      && (r.Ok? ==> r.value == Some(Nickname.Nickname(text)))
      && (r.Err? ==> r.error == Nickname.IsValidNickname(text).error)
  {
    match nickname
    case None => Ok(None)
    case Some(s) =>
      match Nickname.Create(SlashEscapeRemover(Trim(s)))
      case Ok(n) => Ok(Some(n))
      case Err(e) => Err(e)
  }

  /** `parseNotes`: trimmed, slash escapes removed, then validated. */
  function ParseNotes(notes: Option<string>): (r: Result<Option<Notes.Notes>, string>)
    ensures notes.None? ==> r == Ok(None)
    ensures notes.Some? ==>
      var text := SlashEscapeRemover(Trim(notes.value));
      (r.Ok? <==> AllPrintableAscii(text) && |text| <= Notes.MAX_LENGTH)
      && (r.Ok? ==> r.value == Some(Notes.Notes(text)))
      && (r.Err? ==> r.error == Notes.IsValidNotes(text).error)
  {
    match notes
    case None => Ok(None)
    case Some(s) =>
      match Notes.Create(SlashEscapeRemover(Trim(s)))
      case Ok(n) => Ok(Some(n))
      case Err(e) => Err(e)
  }
}
