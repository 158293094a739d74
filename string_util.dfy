/**
 * String helpers of the contact book: strict positive-integer recognition, whole-word
 * case-insensitive search, and the three ingredients of the name-similarity score
 * (edit distance, character overlap, length ratio).
 */
module StringUtil {
  import opened Wrappers
  import opened Text

  const INT_MAX: int := 2147483647
  const INT_MIN: int := -2147483648

  // ---------------------------------------------------------------------------
  // isNonZeroUnsignedInteger

  /**
   * `Integer.parseInt`: an optional sign, then one or more decimal digits whose value
   * fits a 32-bit signed int.
   */
  function ParseInt(s: string): (r: Option<int>)
    ensures r.Some? ==> INT_MIN <= r.value <= INT_MAX
  {
    if s == [] then None
    else
      var digits := if s[0] == '-' || s[0] == '+' then s[1..] else s;
      if digits == [] || !AllDigits(digits) then None
      else
        var v := if s[0] == '-' then -(DigitsValue(digits) as int) else DigitsValue(digits) as int;
        if INT_MIN <= v <= INT_MAX then Some(v) else None
  }

  /** True when `s` parses as an int above zero and is not written with a leading '+'. */
  predicate IsNonZeroUnsignedInteger(s: string) {
    match ParseInt(s)
    case Some(v) => v > 0 && !StartsWith(s, "+")
    case None => false
  }

  /** The accepted strings are exactly the unsigned decimal numerals of 1 ..= Integer.MAX_VALUE. */
  lemma NonZeroUnsignedIntegerIff(s: string)
    ensures IsNonZeroUnsignedInteger(s) <==> s != [] && AllDigits(s) && 0 < DigitsValue(s) <= INT_MAX
  {
    if s != [] && (s[0] == '-' || s[0] == '+') {
      assert !IsDigit(s[0]);
      if s[0] == '+' {
        assert s[..1] == "+";
      }
    }
  }

  /** A plain numeral within int range parses to its value. */
  lemma ParseIntOfDigits(s: string)
    requires s != [] && AllDigits(s) && DigitsValue(s) <= INT_MAX
    ensures ParseInt(s) == Some(DigitsValue(s) as int)
  {
    assert IsDigit(s[0]);
  }

  /** The numerals the helper's own tests expect to be accepted. */
  lemma NonZeroUnsignedIntegerAccepts()
    ensures IsNonZeroUnsignedInteger("1") && IsNonZeroUnsignedInteger("10") && IsNonZeroUnsignedInteger("01")
  {
    NonZeroUnsignedIntegerIff("1");
    NonZeroUnsignedIntegerIff("10");
    NonZeroUnsignedIntegerIff("01");
    assert "01"[..1] == "0";
    assert "10"[..1] == "1";
  }

  lemma NonZeroUnsignedIntegerRejects()
    ensures !IsNonZeroUnsignedInteger("") && !IsNonZeroUnsignedInteger("  ") && !IsNonZeroUnsignedInteger("a")
    ensures !IsNonZeroUnsignedInteger("0") && !IsNonZeroUnsignedInteger("-1") && !IsNonZeroUnsignedInteger("+1")
    ensures !IsNonZeroUnsignedInteger(" 10 ") && !IsNonZeroUnsignedInteger("1 0")
  {
    NonZeroUnsignedIntegerIff("  ");
    NonZeroUnsignedIntegerIff("a");
    NonZeroUnsignedIntegerIff("0");
    NonZeroUnsignedIntegerIff("-1");
    NonZeroUnsignedIntegerIff("+1");
    NonZeroUnsignedIntegerIff(" 10 ");
    NonZeroUnsignedIntegerIff("1 0");
  }

  /** A numeral beyond Integer.MAX_VALUE is rejected, since parsing it overflows. */
  lemma OverflowingNumeralRejected(n: nat)
    requires n > INT_MAX
    ensures !IsNonZeroUnsignedInteger(NatToString(n))
  {
    NonZeroUnsignedIntegerIff(NatToString(n));
  }

  /** Printing a number and recognising it again agree: `%d` output of 1 ..= MAX is accepted. */
  lemma PrintedNumberIsAccepted(n: nat)
    requires 0 < n <= INT_MAX
    ensures IsNonZeroUnsignedInteger(NatToString(n))
  {
    NonZeroUnsignedIntegerIff(NatToString(n));
  }

  // ---------------------------------------------------------------------------
  // containsWordIgnoreCase

  const MESSAGE_EMPTY_WORD := "Word parameter cannot be empty"
  const MESSAGE_NOT_SINGLE_WORD := "Word parameter should be a single word"

  /**
   * Whether some whitespace-separated token of `sentence` equals the trimmed `word`, ignoring
   * case; a blank or multi-word `word` is rejected as an illegal argument.
   */
  function ContainsWordIgnoreCase(sentence: string, word: string): Result<bool, string> {
    var preppedWord := Trim(word);
    if preppedWord == [] then Err(MESSAGE_EMPTY_WORD)
    else if |SplitOnWhitespace(preppedWord)| != 1 then Err(MESSAGE_NOT_SINGLE_WORD)
    else
      var tokens := SplitOnWhitespace(sentence);
      Ok(exists i :: 0 <= i < |tokens| && EqualsIgnoreCase(tokens[i], preppedWord))
  }

  /** A non-empty trimmed string splits into one piece exactly when it has no whitespace. */
  lemma SplitOfTrimmedIsSingle(t: string)
    requires IsTrimmed(t) && t != []
    ensures |SplitOnWhitespace(t)| == 1 <==> NoSpace(t)
  {
    FieldsOfTrimmed(t);
    if NoSpace(t) {
      FieldsOfWord(t);
    } else {
      var j :| 0 <= j < |t| && IsSpace(t[j]);
      FieldsHasTwoWords(t, j);
    }
  }

  /** The argument is accepted exactly when its trimmed form is one non-empty word. */
  lemma ContainsWordIgnoreCaseAccepts(sentence: string, word: string)
    ensures ContainsWordIgnoreCase(sentence, word).Ok? <==> Trim(word) != [] && NoSpace(Trim(word))
    ensures ContainsWordIgnoreCase(sentence, word).Err? ==>
      ContainsWordIgnoreCase(sentence, word).error ==
        (if Trim(word) == [] then MESSAGE_EMPTY_WORD else MESSAGE_NOT_SINGLE_WORD)
  {
    var t := Trim(word);
    if t != [] {
      SplitOfTrimmedIsSingle(t);
    }
  }

  /** Matching a non-empty word against the split pieces is matching it against the fields. */
  lemma PiecesMatchIffFieldsMatch(sentence: string, t: string)
    requires t != []
    ensures (exists i :: 0 <= i < |SplitOnWhitespace(sentence)| && EqualsIgnoreCase(SplitOnWhitespace(sentence)[i], t))
        <==> exists w :: w in Fields(sentence) && EqualsIgnoreCase(w, t)
  {
    SplitPiecesAreFields(sentence);
    var tokens := SplitOnWhitespace(sentence);
    if exists i :: 0 <= i < |tokens| && EqualsIgnoreCase(tokens[i], t) {
      var i :| 0 <= i < |tokens| && EqualsIgnoreCase(tokens[i], t);
      assert tokens[i] in tokens;
      assert |ToLower(tokens[i])| == |ToLower(t)|;
      assert tokens[i] in Fields(sentence);
    }
    if exists w :: w in Fields(sentence) && EqualsIgnoreCase(w, t) {
      var w :| w in Fields(sentence) && EqualsIgnoreCase(w, t);
      assert w in tokens;
      var i :| 0 <= i < |tokens| && tokens[i] == w;
    }
  }

  /**
   * When accepted, the answer is whether the trimmed word is one of the sentence's
   * whitespace-separated words, ignoring case.
   */
  lemma ContainsWordIgnoreCaseMeaning(sentence: string, word: string)
    requires Trim(word) != [] && NoSpace(Trim(word))
    ensures ContainsWordIgnoreCase(sentence, word).Ok?
    ensures ContainsWordIgnoreCase(sentence, word).value <==>
      exists w :: w in Fields(sentence) && EqualsIgnoreCase(w, Trim(word))
  {
    ContainsWordIgnoreCaseAccepts(sentence, word);
    PiecesMatchIffFieldsMatch(sentence, Trim(word));
  }

  /** A trimmed string with whitespace inside has at least two fields. */
  lemma FieldsHasTwoWords(t: string, j: nat)
    requires IsTrimmed(t) && j < |t| && IsSpace(t[j])
    ensures |Fields(t)| >= 2
  {
    assert t[0] > ' ' && !IsSpace(t[0]);
    var n := RunLength(t);
    assert n <= j;
    var rest := t[n..];
    assert rest[|rest| - 1] == t[|t| - 1];
    FieldsOfNonBlank(rest);
  }

  /** A string with a non-whitespace character has a field. */
  lemma FieldsOfNonBlank(s: string)
    requires s != [] && !IsSpace(s[|s| - 1])
    ensures Fields(s) != []
    decreases |s|
  {
    if IsSpace(s[0]) {
      FieldsOfNonBlank(s[1..]);
    }
  }

  // ---------------------------------------------------------------------------
  // Levenshtein distance

  /**
   * The edit distance between the prefixes `a[..i]` and `b[..j]` (unit-cost insertion,
   * deletion and substitution).
   */
  function Lev(a: string, b: string, i: nat, j: nat): nat
    requires i <= |a| && j <= |b|
    decreases i + j
  {
    if i == 0 then j
    else if j == 0 then i
    else Min(Lev(a, b, i - 1, j - 1) + (if a[i - 1] == b[j - 1] then 0 else 1),
             Min(Lev(a, b, i - 1, j) + 1, Lev(a, b, i, j - 1) + 1))
  }

  function EditDistance(a: string, b: string): nat {
    Lev(a, b, |a|, |b|)
  }

  /** The table-filling computation of `levenshteinDistance`: row by row, left to right. */
  method LevenshteinDistance(a: string, b: string) returns (d: nat)
    ensures d == EditDistance(a, b)
  {
    var dp := new nat[|a| + 1, |b| + 1];
    var i := 0;
    while i <= |a|
      invariant 0 <= i <= |a| + 1
      invariant forall i', j' :: 0 <= i' < i && 0 <= j' <= |b| ==> dp[i', j'] == Lev(a, b, i', j')
    {
      FillRow(dp, a, b, i);
      i := i + 1;
    }
    d := dp[|a|, |b|];
  }

  /** The recurrence of one table cell. */
  lemma LevCell(a: string, b: string, i: nat, j: nat)
    requires i <= |a| && j <= |b|
    ensures i == 0 ==> Lev(a, b, i, j) == j
    ensures i > 0 && j == 0 ==> Lev(a, b, i, j) == i
    ensures i > 0 && j > 0 ==>
      Lev(a, b, i, j) == Min(Lev(a, b, i - 1, j - 1) + (if a[i - 1] == b[j - 1] then 0 else 1),
                             Min(Lev(a, b, i - 1, j) + 1, Lev(a, b, i, j - 1) + 1))
  {
  }

  /** One cell of the table, from the cells above and to the left of it. */
  method Cell(dp: array2<nat>, a: string, b: string, i: nat, j: nat) returns (cell: nat)
    requires i <= |a| && j <= |b| && dp.Length0 == |a| + 1 && dp.Length1 == |b| + 1
    requires i > 0 && j > 0 ==>
      dp[i - 1, j - 1] == Lev(a, b, i - 1, j - 1) && dp[i - 1, j] == Lev(a, b, i - 1, j)
      && dp[i, j - 1] == Lev(a, b, i, j - 1)
    ensures cell == Lev(a, b, i, j)
  {
    LevCell(a, b, i, j);
    if i == 0 {
      cell := j;
    } else if j == 0 {
      cell := i;
    } else {
      cell := Min(dp[i - 1, j - 1] + (if a[i - 1] == b[j - 1] then 0 else 1),
                  Min(dp[i - 1, j] + 1, dp[i, j - 1] + 1));
    }
  }

  /** One pass of the inner loop: row `i` of the table, from the rows above it. */
  method FillRow(dp: array2<nat>, a: string, b: string, i: nat)
    requires i <= |a| && dp.Length0 == |a| + 1 && dp.Length1 == |b| + 1
    requires forall i', j' {:trigger dp[i', j']} :: 0 <= i' < i && 0 <= j' <= |b| ==> dp[i', j'] == Lev(a, b, i', j')
    modifies dp
    ensures forall i', j' {:trigger dp[i', j']} :: 0 <= i' <= i && 0 <= j' <= |b| ==> dp[i', j'] == Lev(a, b, i', j')
  {
    var j := 0;
    while j <= |b|
      invariant 0 <= j <= |b| + 1
      invariant forall i', j' {:trigger dp[i', j']} :: 0 <= i' < i && 0 <= j' <= |b| ==> dp[i', j'] == Lev(a, b, i', j')
      invariant forall j' {:trigger dp[i, j']} :: 0 <= j' < j ==> dp[i, j'] == Lev(a, b, i, j')
    {
      var cell := Cell(dp, a, b, i, j);
      dp[i, j] := cell;
      j := j + 1;
    }
  }

  /** The distance between prefixes never exceeds the longer prefix. */
  lemma {:induction false} LevAtMostLonger(a: string, b: string, i: nat, j: nat)
    requires i <= |a| && j <= |b|
    ensures Lev(a, b, i, j) <= Max(i, j)
    decreases i + j
  {
    if i > 0 && j > 0 {
      LevAtMostLonger(a, b, i - 1, j - 1);
    }
  }

  /** The distance between prefixes is at least their difference in length. */
  lemma {:induction false} LevAtLeastLengthGap(a: string, b: string, i: nat, j: nat)
    requires i <= |a| && j <= |b|
    ensures Lev(a, b, i, j) >= i - j && Lev(a, b, i, j) >= j - i
    decreases i + j
  {
    if i > 0 && j > 0 {
      LevAtLeastLengthGap(a, b, i - 1, j - 1);
      LevAtLeastLengthGap(a, b, i - 1, j);
      LevAtLeastLengthGap(a, b, i, j - 1);
    }
  }

  /** A prefix is at distance zero from itself. */
  lemma {:induction false} LevSelf(a: string, i: nat)
    requires i <= |a|
    ensures Lev(a, a, i, i) == 0
  {
    if i > 0 {
      LevSelf(a, i - 1);
    }
  }

  /** For equal-length prefixes the distance is at most the number of differing positions. */
  lemma {:induction false} LevAtMostMismatches(a: string, b: string, i: nat)
    requires i <= |a| && i <= |b|
    ensures Lev(a, b, i, i) <= Mismatches(a, b, i)
  {
    if i > 0 {
      LevAtMostMismatches(a, b, i - 1);
    }
  }

  /** The number of positions below `i` where `a` and `b` differ. */
  function Mismatches(a: string, b: string, i: nat): nat
    requires i <= |a| && i <= |b|
  {
    if i == 0 then 0 else Mismatches(a, b, i - 1) + (if a[i - 1] == b[i - 1] then 0 else 1)
  }

  lemma EditDistanceBounds(a: string, b: string)
    ensures EditDistance(a, b) <= Max(|a|, |b|)
    ensures a == b ==> EditDistance(a, b) == 0
    ensures EditDistance(a, b) == 0 ==> |a| == |b|
  {
    LevAtMostLonger(a, b, |a|, |b|);
    LevAtLeastLengthGap(a, b, |a|, |b|);
    if a == b {
      LevSelf(a, |a|);
    }
  }

  // ---------------------------------------------------------------------------
  // The composite similarity score

  function CharSet(s: string): set<char> {
    set i | 0 <= i < |s| :: s[i]
  }

  /** `1 - distance / maxLength`. */
  function EditDistanceScore(a: string, b: string): real
    requires a != [] || b != []
  {
    1.0 - (EditDistance(a, b) as real) / (Max(|a|, |b|) as real)
  }

  /** Jaccard index of the two sets of distinct characters. */
  function OverlapScore(a: string, b: string): real
    requires a != [] || b != []
  {
    assert a != [] ==> a[0] in CharSet(a) + CharSet(b);
    assert b != [] ==> b[0] in CharSet(a) + CharSet(b);
    (|CharSet(a) * CharSet(b)| as real) / (|CharSet(a) + CharSet(b)| as real)
  }

  /** `min(length) / max(length)`. */
  function LengthRatioScore(a: string, b: string): real
    requires a != [] || b != []
  {
    (Min(|a|, |b|) as real) / (Max(|a|, |b|) as real)
  }

  /** `calculateSimilarity`: 0.6 edit score + 0.3 overlap + 0.1 length ratio; zero when either side is empty. */
  function Similarity(a: string, b: string): real {
    if a == [] || b == [] then 0.0
    else 0.6 * EditDistanceScore(a, b) + 0.3 * OverlapScore(a, b) + 0.1 * LengthRatioScore(a, b)
  }

  /** The length ratio of two strings, not both empty, lies in [0, 1]. */
  lemma LengthRatioInUnitRange(a: string, b: string)
    requires a != [] || b != []
    ensures 0.0 <= LengthRatioScore(a, b) <= 1.0
  {
    RatioInUnitRange(Min(|a|, |b|), Max(|a|, |b|));
  }

  /** A ratio of naturals, numerator at most the denominator, lies in [0, 1]. */
  lemma RatioInUnitRange(x: nat, y: nat)
    requires 0 < y && x <= y
    ensures 0.0 <= (x as real) / (y as real) <= 1.0
  {
  }

  lemma IntersectionWithinUnion(s: set<char>, t: set<char>)
    ensures |s * t| <= |s + t|
  {
    assert s * t <= s + t;
    SubsetCardinality(s * t, s + t);
  }

  lemma SubsetCardinality(s: set<char>, t: set<char>)
    requires s <= t
    ensures |s| <= |t|
  {
    assert t == s + (t - s);
  }

  /** Each ingredient lies in [0, 1], and so does their weighted sum. */
  lemma SimilarityInUnitRange(a: string, b: string)
    ensures 0.0 <= Similarity(a, b) <= 1.0
  {
    if a != [] && b != [] {
      EditDistanceBounds(a, b);
      RatioInUnitRange(EditDistance(a, b), Max(|a|, |b|));
      IntersectionWithinUnion(CharSet(a), CharSet(b));
      assert a[0] in CharSet(a) + CharSet(b);
      RatioInUnitRange(|CharSet(a) * CharSet(b)|, |CharSet(a) + CharSet(b)|);
      LengthRatioInUnitRange(a, b);
    }
  }

  /** A non-empty string is fully similar to itself. */
  lemma SimilarityOfSelf(a: string)
    requires a != []
    ensures Similarity(a, a) == 1.0
  {
    EditDistanceBounds(a, a);
    assert EditDistanceScore(a, a) == 1.0;
    assert CharSet(a) * CharSet(a) == CharSet(a) + CharSet(a);
    assert a[0] in CharSet(a);
    assert OverlapScore(a, a) == 1.0;
    assert LengthRatioScore(a, a) == 1.0;
  }

  method CharSetOf(s: string) returns (r: set<char>)
    ensures r == CharSet(s)
  {
    r := {};
    for k := 0 to |s|
      invariant r == set i | 0 <= i < k :: s[i]
    {
      r := r + {s[k]};
    }
  }

  /** The overlap score is a ratio of a subset's size to its superset's size. */
  lemma OverlapScoreInUnitRange(a: string, b: string)
    requires a != [] || b != []
    ensures 0.0 <= OverlapScore(a, b) <= 1.0
  {
    IntersectionWithinUnion(CharSet(a), CharSet(b));
    assert a != [] ==> a[0] in CharSet(a) + CharSet(b);
    assert b != [] ==> b[0] in CharSet(a) + CharSet(b);
    RatioInUnitRange(|CharSet(a) * CharSet(b)|, |CharSet(a) + CharSet(b)|);
  }

  /** `computeOverlapScore`: collect both character sets, then divide intersection by union. */
  method ComputeOverlapScore(a: string, b: string) returns (r: real)
    requires a != [] || b != []
    ensures r == OverlapScore(a, b)
    ensures 0.0 <= r <= 1.0
  {
    OverlapScoreInUnitRange(a, b);
    var setA := CharSetOf(a);
    var setB := CharSetOf(b);
    var union := setA + setB;
    assert a != [] ==> a[0] in union;
    assert b != [] ==> b[0] in union;
    r := (|setA * setB| as real) / (|union| as real);
  }

  /** `calculateSimilarity`, computed through the table-filling distance. */
  method CalculateSimilarity(a: string, b: string) returns (r: real)
    ensures r == Similarity(a, b)
    ensures 0.0 <= r <= 1.0
  {
    SimilarityInUnitRange(a, b);
    if a == [] || b == [] {
      return 0.0;
    }
    var distance := LevenshteinDistance(a, b);
    var maxLength := Max(|a|, |b|) as real;
    var editDistanceScore := 1.0 - (distance as real) / maxLength;
    var overlapScore := ComputeOverlapScore(a, b);
    var lengthRatioScore := (Min(|a|, |b|) as real) / maxLength;
    r := 0.6 * editDistanceScore + 0.3 * overlapScore + 0.1 * lengthRatioScore;
  }
}
