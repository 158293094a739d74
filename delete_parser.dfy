/**
 * Parsing the arguments of `delete`: one or more one-based indices separated by whitespace,
 * none repeated.
 */
module DeleteCommandParser {
  import opened Wrappers
  import opened Text
  import StringUtil
  import ParserUtil

  const MESSAGE_USAGE := "delete: Deletes the person(s) identified by the index number(s) used in the displayed person list.\n"
    + "Parameters: INDEX/INDICES (must be a positive integer)\n"
    + "Example: delete 1\n"
    + "Example: delete 1 2"

  /** `MESSAGE_INVALID_COMMAND_FORMAT` filled with the usage text. */
  const MESSAGE_INVALID_FORMAT := "Invalid command format! \n" + MESSAGE_USAGE

  /** `MESSAGE_DUPLICATE_INDEX` filled with the echoed arguments. */
  function DuplicateMessage(args: string): string {
    "Duplicate indices are not allowed for this command. Entered: delete " + args
  }

  /** `args.trim().split("\\s+")`. */
  function Tokens(args: string): seq<string> {
    SplitOnWhitespace(Trim(args))
  }

  /** The outcome of `parseIndex` on each token. */
  function Parsed(tokens: seq<string>): (rs: seq<Result<nat, string>>)
    ensures |rs| == |tokens|
    ensures forall j :: 0 <= j < |tokens| ==> rs[j] == ParserUtil.ParseIndex(tokens[j])
  {
    seq(|tokens|, j requires 0 <= j < |tokens| => ParserUtil.ParseIndex(tokens[j]))
  }

  /** The result at `j` is an index that no earlier result carries. */
  predicate FreshAt(rs: seq<Result<nat, string>>, j: nat)
    requires j < |rs|
  {
    rs[j].Ok? && forall i :: 0 <= i < j ==> rs[i] != rs[j]
  }

  /** The first `k` results are indices, pairwise different. */
  predicate CleanPrefix(rs: seq<Result<nat, string>>, k: nat)
    requires k <= |rs|
  {
    forall j :: 0 <= j < k ==> FreshAt(rs, j)
  }

  /** `vs` are the indices the results carry, position by position. */
  predicate Carries(rs: seq<Result<nat, string>>, vs: seq<nat>) {
    |vs| == |rs| && forall j :: 0 <= j < |rs| ==> rs[j] == Ok(vs[j])
  }

  /** The result at `k` is the first one that is not a fresh index. */
  predicate FirstProblemAt(rs: seq<Result<nat, string>>, k: nat) {
    k < |rs| && CleanPrefix(rs, k) && !FreshAt(rs, k)
  }

  /** The message for a problem at `k`: not an index, or a repeated one. */
  function ErrorAt(rs: seq<Result<nat, string>>, k: nat, args: string): string
    requires k < |rs|
  {
    if rs[k].Err? then MESSAGE_INVALID_FORMAT else DuplicateMessage(args)
  }

  /**
   * `parse`: each token is read as an index in turn; the first token that is not an index
   * makes the whole input an invalid command format, the first repeat of an earlier index is
   * reported with the arguments echoed back; otherwise the indices come back in input order.
   */
  method Parse(args: string) returns (r: Result<seq<nat>, string>)
    ensures var rs := Parsed(Tokens(args));
      r.Ok? <==> CleanPrefix(rs, |rs|)
    ensures r.Ok? ==> Carries(Parsed(Tokens(args)), r.value)
    ensures r.Err? ==> exists k: nat :: FirstProblemAt(Parsed(Tokens(args)), k) && r.error == ErrorAt(Parsed(Tokens(args)), k, args)
  {
    var indicesStr := SplitOnWhitespace(Trim(args));
    ghost var rs := Parsed(indicesStr);
    var targetIndices: seq<nat> := [];
    var seenIndices: set<nat> := {};
    for k := 0 to |indicesStr|
      invariant CleanPrefix(rs, k)
      invariant Carries(rs[..k], targetIndices)
      invariant forall v :: v in seenIndices <==> v in targetIndices
    {
      var index := ParserUtil.ParseIndex(indicesStr[k]);
      assert index == rs[k];
      if index.Err? {
        assert FirstProblemAt(rs, k);
        return Err(MESSAGE_INVALID_FORMAT);
      }
      ScanStep(rs, k, targetIndices);
      if index.value in seenIndices {
        return Err(DuplicateMessage(args));
      }
      seenIndices := seenIndices + {index.value};
      targetIndices := targetIndices + [index.value];
    }
    assert rs[..|indicesStr|] == rs;
    return Ok(targetIndices);
  }

  /** One step of the scan: the next result is a problem exactly when it repeats a carried index. */
  lemma ScanStep(rs: seq<Result<nat, string>>, k: nat, vs: seq<nat>)
    requires k < |rs| && CleanPrefix(rs, k) && Carries(rs[..k], vs) && rs[k].Ok?
    ensures rs[k].value in vs ==> FirstProblemAt(rs, k)
    ensures rs[k].value !in vs ==> CleanPrefix(rs, k + 1) && Carries(rs[..k + 1], vs + [rs[k].value])
  {
    if rs[k].value in vs {
      var i :| 0 <= i < k && vs[i] == rs[k].value;
      assert rs[i] == rs[..k][i];
    } else {
      assert FreshAt(rs, k) by {
        forall i | 0 <= i < k ensures rs[i] != rs[k] {
          assert rs[..k][i] == rs[i];
        }
      }
      assert rs[..k + 1] == rs[..k] + [rs[k]];
    }
  }

  /** The tokens are never empty: blank arguments give the single empty token. */
  lemma TokensNonEmpty(args: string)
    ensures Tokens(args) != []
    ensures (forall i :: 0 <= i < |args| ==> args[i] <= ' ') ==> Tokens(args) == [""]
  {
    FieldsOfTrimmed(Trim(args));
    if Trim(args) != [] {
      ParserUtil.FieldsEnds(Trim(args));
    }
  }

  /**
   * A successful parse holds at least one index, the indices are pairwise different, each is
   * below the largest Java `int`, and they follow the order of the tokens.
   */
  lemma SuccessShape(args: string, vs: seq<nat>)
    requires CleanPrefix(Parsed(Tokens(args)), |Tokens(args)|)
    requires Carries(Parsed(Tokens(args)), vs)
    ensures vs != []
    ensures forall i, j :: 0 <= i < j < |vs| ==> vs[i] != vs[j]
    ensures forall j :: 0 <= j < |vs| ==> vs[j] < StringUtil.INT_MAX
    ensures forall j :: 0 <= j < |vs| ==> ParserUtil.ParseIndex(Tokens(args)[j]) == Ok(vs[j])
  {
    TokensNonEmpty(args);
    var rs := Parsed(Tokens(args));
    forall i, j | 0 <= i < j < |vs| ensures vs[i] != vs[j] {
      assert FreshAt(rs, j);
      assert rs[i] != rs[j];
    }
  }

  /** Blank arguments are an invalid command format. */
  lemma BlankIsInvalid(args: string)
    requires forall i :: 0 <= i < |args| ==> args[i] <= ' '
    ensures FirstProblemAt(Parsed(Tokens(args)), 0) && Parsed(Tokens(args))[0].Err?
  {
    TokensNonEmpty(args);
    StringUtil.NonZeroUnsignedIntegerRejects();
    assert Trim("") == "";
  }

  /** The one-based numerals of `indices`. */
  function Numerals(indices: seq<nat>): (ws: seq<string>)
    ensures |ws| == |indices|
    ensures forall j :: 0 <= j < |indices| ==> ws[j] == NatToString(indices[j] + 1)
  {
    seq(|indices|, j requires 0 <= j < |indices| => NatToString(indices[j] + 1))
  }

  /** The arguments `delete` would be given for a list of zero-based indices. */
  function Printed(indices: seq<nat>): string {
    JoinWith(Numerals(indices), " ")
  }

  /** The printed numerals come back as the tokens, each reading as its index. */
  lemma PrintedTokens(indices: seq<nat>)
    requires indices != []
    requires forall j :: 0 <= j < |indices| ==> indices[j] < StringUtil.INT_MAX
    ensures Tokens(Printed(indices)) == Numerals(indices)
    ensures Carries(Parsed(Tokens(Printed(indices))), indices)
  {
    NumeralsAreTokens(indices);
    NumeralsParse(indices);
  }

  lemma NumeralsAreTokens(indices: seq<nat>)
    requires indices != []
    ensures Tokens(Printed(indices)) == Numerals(indices)
  {
    var ws := Numerals(indices);
    var s := Printed(indices);
    assert AreWords(ws) by {
      forall k | 0 <= k < |ws| ensures ws[k] != [] && NoSpace(ws[k]) {
        DigitsHaveNoSpace(ws[k]);
      }
    }
    ParserUtil.JoinEnds(ws);
    assert IsDigit(ws[0][0]) && IsDigit(ws[|ws| - 1][|ws[|ws| - 1]| - 1]);
    TrimmedIsFixed(s);
    FieldsOfTrimmed(s);
    FieldsOfJoin(ws);
  }

  lemma NumeralsParse(indices: seq<nat>)
    requires forall j :: 0 <= j < |indices| ==> indices[j] < StringUtil.INT_MAX
    ensures Carries(Parsed(Numerals(indices)), indices)
  {
    var rs := Parsed(Numerals(indices));
    forall j | 0 <= j < |rs| ensures rs[j] == Ok(indices[j]) {
      ParserUtil.ParseIndexOfPrinted(indices[j]);
    }
  }

  /**
   * Round trip: printing distinct indices one-based, separated by single spaces, and parsing
   * the text gives back exactly those indices.
   */
  lemma PrintedIndicesParse(indices: seq<nat>)
    requires indices != []
    requires forall j :: 0 <= j < |indices| ==> indices[j] < StringUtil.INT_MAX
    requires forall i, j :: 0 <= i < j < |indices| ==> indices[i] != indices[j]
    ensures Carries(Parsed(Tokens(Printed(indices))), indices)
    ensures CleanPrefix(Parsed(Tokens(Printed(indices))), |indices|)
  {
    PrintedTokens(indices);
  }

  lemma DigitsHaveNoSpace(w: string)
    requires AllDigits(w)
    ensures NoSpace(w)
  {
  }

  /** The argument texts of the documented cases, as printed index lists. */
  lemma PrintedExamples()
    ensures Printed([0]) == "1"
    ensures Printed([0, 1]) == "1 2"
    ensures Printed([0, 0]) == "1 1"
    ensures Printed([0, 1, 0]) == "1 2 1"
  {
    assert NatToString(1) == "1" && NatToString(2) == "2";
    assert Numerals([0]) == ["1"];
    assert Numerals([0, 1]) == ["1", "2"];
    assert Numerals([0, 0]) == ["1", "1"];
    assert Numerals([0, 1, 0]) == ["1", "2", "1"];
  }

  /** Results carrying indices that are distinct up to `k` are clean up to `k`. */
  lemma CarriedDistinctIsClean(rs: seq<Result<nat, string>>, vs: seq<nat>, k: nat)
    requires Carries(rs, vs) && k <= |vs|
    requires forall i, j :: 0 <= i < j < k ==> vs[i] != vs[j]
    ensures CleanPrefix(rs, k)
  {
  }

  /**
   * The first repeat in a printed index list is the first problem, so the input is reported
   * as a duplicate rather than as an invalid format.
   */
  lemma PrintedRepeatIsDuplicate(indices: seq<nat>, i: nat, k: nat)
    requires i < k < |indices| && indices[i] == indices[k]
    requires forall j :: 0 <= j < |indices| ==> indices[j] < StringUtil.INT_MAX
    requires forall j, j' :: 0 <= j < j' < k ==> indices[j] != indices[j']
    ensures FirstProblemAt(Parsed(Tokens(Printed(indices))), k)
    ensures Parsed(Tokens(Printed(indices)))[k].Ok?
  {
    PrintedTokens(indices);
    var rs := Parsed(Tokens(Printed(indices)));
    CarriedDistinctIsClean(rs, indices, k);
    assert rs[i] == rs[k];
  }

  /** "1 1" is reported as a duplicate at its second token. */
  lemma DuplicateAdjacentExample()
    ensures FirstProblemAt(Parsed(Tokens(Printed([0, 0]))), 1)
  {
    PrintedRepeatIsDuplicate([0, 0], 0, 1);
  }

  /** "1 2 1" is reported as a duplicate at its third token. */
  lemma DuplicateApartExample()
    ensures FirstProblemAt(Parsed(Tokens(Printed([0, 1, 0]))), 2)
  {
    var indices := [0, 1, 0];
    assert indices[0] == indices[2];
    PrintedRepeatIsDuplicate(indices, 0, 2);
  }
}
