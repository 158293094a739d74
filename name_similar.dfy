/**
 * The fuzzy name search behind `find`: a person matches when some keyword is close, in
 * Levenshtein distance, to some word of their name, both sides lower-cased.
 */
module NameSimilarPredicate {
  import opened Text
  import StringUtil
  import P = Person

  /** The threshold `test` passes to `findSimilarWordsAboveThreshold`. */
  const THRESHOLD: real := 0.6

  /**
   * The score test of `findSimilarWordsAboveThreshold`: `1 - distance / maxLength` reaches the
   * threshold. When both words are empty the score is `0.0 / 0.0`, not a number, and every
   * comparison with it is false.
   */
  predicate AboveThreshold(word: string, target: string, threshold: real) {
    var maxLength := Max(|word|, |target|);
    maxLength > 0
    && 1.0 - (StringUtil.EditDistance(word, target) as real) / (maxLength as real) >= threshold
  }

  /** At the threshold 0.6 the score test is exact integer arithmetic: `5 * distance <= 2 * maxLength`. */
  lemma AboveThresholdIsIntegral(word: string, target: string)
    ensures AboveThreshold(word, target, THRESHOLD)
      <==> Max(|word|, |target|) > 0 && 5 * StringUtil.EditDistance(word, target) <= 2 * Max(|word|, |target|)
  {
    var m := Max(|word|, |target|);
    if m > 0 {
      ScoreThreshold(StringUtil.EditDistance(word, target), m);
    }
  }

  lemma ScoreThreshold(d: nat, m: nat)
    requires m > 0
    ensures 1.0 - (d as real) / (m as real) >= THRESHOLD <==> 5 * d <= 2 * m
  {
    QuotientAtMost(d as real, m as real, 0.4);
    assert (5 * d) as real == 5.0 * (d as real) && (2 * m) as real == 2.0 * (m as real);
  }

  lemma QuotientAtMost(x: real, y: real, c: real)
    requires y > 0.0
    ensures x / y <= c <==> x <= c * y
  {
    var q := x / y;
    assert q * y == x;
    if q <= c {
      assert q * y <= c * y;
    } else {
      assert q * y > c * y;
    }
  }

  /** The words of `words` whose score against `target` reaches `threshold`, in order. */
  function SimilarWords(words: seq<string>, target: string, threshold: real): (r: seq<string>)
    ensures |r| <= |words|
    decreases |words|
  {
    if words == [] then []
    else (if AboveThreshold(words[0], target, threshold) then [words[0]] else [])
         + SimilarWords(words[1..], target, threshold)
  }

  /** A word is kept exactly when it is one of the words and reaches the threshold. */
  lemma {:induction false} SimilarWordsMembers(words: seq<string>, target: string, threshold: real)
    ensures forall w :: (w in SimilarWords(words, target, threshold)
                         <==> w in words && AboveThreshold(w, target, threshold))
    decreases |words|
  {
    if words != [] {
      SimilarWordsMembers(words[1..], target, threshold);
      assert words == [words[0]] + words[1..];
    }
  }

  /**
   * `findSimilarWordsAboveThreshold`: computes each word's distance to the target and keeps
   * the words whose score reaches the threshold. No words gives no result.
   */
  method FindSimilarWordsAboveThreshold(words: seq<string>, target: string, threshold: real)
    returns (similarWords: seq<string>)
    ensures similarWords == SimilarWords(words, target, threshold)
  {
    similarWords := [];
    if |words| == 0 {
      return;
    }
    for k := 0 to |words|
      invariant similarWords + SimilarWords(words[k..], target, threshold) == SimilarWords(words, target, threshold)
    {
      assert words[k..][1..] == words[k + 1..];
      var distance := StringUtil.LevenshteinDistance(words[k], target);
      var maxLength := Max(|words[k]|, |target|);
      if maxLength > 0 && 1.0 - (distance as real) / (maxLength as real) >= threshold {
        similarWords := similarWords + [words[k]];
      }
    }
    assert words[|words|..] == [];
  }

  /** The words of a name: the lower-cased full name split on whitespace runs. */
  function NameWords(name: string): seq<string> {
    SplitOnWhitespace(ToLower(name))
  }

  /** `test`: some keyword, lower-cased, is similar enough to some word of the name. */
  predicate Matches(keywords: seq<string>, person: P.Person) {
    exists i, j :: 0 <= i < |keywords| && 0 <= j < |NameWords(person.name)|
      && AboveThreshold(NameWords(person.name)[j], ToLower(keywords[i]), THRESHOLD)
  }

  /**
   * `test`: for each keyword, for each name word, asks `findSimilarWordsAboveThreshold` about
   * that single word and stops at the first hit.
   */
  method Test(keywords: seq<string>, person: P.Person) returns (b: bool)
    ensures b <==> Matches(keywords, person)
  {
    var nameWords := NameWords(person.name);
    for i := 0 to |keywords|
      invariant forall i', j :: (0 <= i' < i && 0 <= j < |nameWords|
                                 ==> !AboveThreshold(nameWords[j], ToLower(keywords[i']), THRESHOLD))
    {
      var keywordLowerCase := ToLower(keywords[i]);
      for j := 0 to |nameWords|
        invariant forall i', j' :: (0 <= i' < i && 0 <= j' < |nameWords|
                                    ==> !AboveThreshold(nameWords[j'], ToLower(keywords[i']), THRESHOLD))
        invariant forall j' :: 0 <= j' < j ==> !AboveThreshold(nameWords[j'], keywordLowerCase, THRESHOLD)
      {
        var hits := FindSimilarWordsAboveThreshold([nameWords[j]], keywordLowerCase, THRESHOLD);
        assert [nameWords[j]][1..] == [];
        if hits != [] {
          return true;
        }
      }
    }
    return false;
  }

  /** With no keywords nobody matches. */
  lemma NoKeywordsMatchesNobody(person: P.Person)
    ensures !Matches([], person)
  {
  }

  /** A keyword equal to a word of the name, ignoring case, always matches. */
  lemma ExactWordMatches(keywords: seq<string>, person: P.Person, i: nat, j: nat)
    requires i < |keywords| && j < |NameWords(person.name)|
    requires NameWords(person.name)[j] == ToLower(keywords[i]) && keywords[i] != []
    ensures Matches(keywords, person)
  {
    var w := NameWords(person.name)[j];
    StringUtil.EditDistanceBounds(w, w);
    AboveThresholdIsIntegral(w, w);
  }

  /**
   * A single substituted letter in a keyword of three or more letters still matches, which
   * is what makes the search forgiving of typing slips.
   */
  lemma OneSlipMatches(word: string, keyword: string, k: nat)
    requires |word| == |keyword| >= 3 && k < |word|
    requires forall i :: 0 <= i < |word| && i != k ==> word[i] == keyword[i]
    ensures AboveThreshold(word, keyword, THRESHOLD)
  {
    StringUtil.LevAtMostMismatches(word, keyword, |word|);
    MismatchesAtMostOne(word, keyword, k, |word|);
    AboveThresholdIsIntegral(word, keyword);
  }

  lemma {:induction false} MismatchesAtMostOne(a: string, b: string, k: nat, n: nat)
    requires n <= |a| && n <= |b|
    requires forall i :: 0 <= i < n && i != k ==> a[i] == b[i]
    ensures StringUtil.Mismatches(a, b, n) <= 1
    ensures n <= k ==> StringUtil.Mismatches(a, b, n) == 0
  {
    if n > 0 {
      MismatchesAtMostOne(a, b, k, n - 1);
    }
  }

  /**
   * Words of very different lengths never match: when one word is more than two thirds
   * longer than the other, the distance alone is too large.
   */
  lemma LengthGapRejects(word: string, target: string)
    requires 3 * |word| < |target|
    ensures !AboveThreshold(word, target, THRESHOLD)
  {
    StringUtil.LevAtLeastLengthGap(word, target, |word|, |target|);
    AboveThresholdIsIntegral(word, target);
  }
}
