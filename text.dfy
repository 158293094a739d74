/**
 * The parts of Java's string library the contact book relies on, over `seq<char>`:
 * `trim`, splitting on the regex `\s+`, ASCII case mapping, joining, decimal digits.
 */
module Text {

  /** A member of Java's regex class `\s`: space, tab, line feed, vertical tab, form feed, carriage return. */
  predicate IsSpace(c: char) {
    c == ' ' || '\t' <= c <= '\r'
  }

  predicate NoSpace(w: string) {
    forall i :: 0 <= i < |w| ==> !IsSpace(w[i])
  }

  predicate IsDigit(c: char) {
    '0' <= c <= '9'
  }

  predicate AllDigits(s: string) {
    forall i :: 0 <= i < |s| ==> IsDigit(s[i])
  }

  predicate StartsWith(s: string, prefix: string) {
    |prefix| <= |s| && s[..|prefix|] == prefix
  }

  predicate EndsWith(s: string, suffix: string) {
    |suffix| <= |s| && s[|s| - |suffix|..] == suffix
  }

  function Max(a: int, b: int): int { if a < b then b else a }

  function Min(a: int, b: int): int { if a < b then a else b }

  // ---------------------------------------------------------------------------
  // String.trim: strips every leading and trailing character whose code is at most U+0020

  /** The number of characters at most U+0020 that start `s`. */
  function LeadingBlanks(s: string): (n: nat)
    ensures n <= |s|
    ensures forall i :: 0 <= i < n ==> s[i] <= ' '
    ensures n == |s| || s[n] > ' '
  {
    if s != [] && s[0] <= ' ' then 1 + LeadingBlanks(s[1..]) else 0
  }

  /** The number of characters at most U+0020 that end `s`. */
  function TrailingBlanks(s: string): (n: nat)
    ensures n <= |s|
    ensures forall i :: |s| - n <= i < |s| ==> s[i] <= ' '
    ensures n == |s| || s[|s| - n - 1] > ' '
  {
    if s != [] && s[|s| - 1] <= ' ' then 1 + TrailingBlanks(s[..|s| - 1]) else 0
  }

  function TrimStart(s: string): string {
    s[LeadingBlanks(s)..]
  }

  function TrimEnd(s: string): string {
    s[..|s| - TrailingBlanks(s)]
  }

  /** A string is trimmed when it is empty or starts and ends with a character above U+0020. */
  predicate IsTrimmed(s: string) {
    s == [] || (s[0] > ' ' && s[|s| - 1] > ' ')
  }

  function Trim(s: string): (r: string)
    ensures IsTrimmed(r)
    ensures r == [] <==> forall i :: 0 <= i < |s| ==> s[i] <= ' '
  {
    var t := TrimStart(s);
    assert t != [] ==> t[0] > ' ';
    TrimEnd(t)
  }

  lemma TrimmedIsFixed(s: string)
    requires IsTrimmed(s)
    ensures Trim(s) == s
  {
  }

  // ---------------------------------------------------------------------------
  // Whitespace-separated words

  /** The length of the run of non-whitespace characters that starts `s`. */
  function RunLength(s: string): (n: nat)
    ensures n <= |s|
    ensures forall i :: 0 <= i < n ==> !IsSpace(s[i])
    ensures n == |s| || IsSpace(s[n])
  {
    if s == [] || IsSpace(s[0]) then 0 else 1 + RunLength(s[1..])
  }

  /** The maximal runs of non-whitespace characters of `s`, in order. */
  function Fields(s: string): (ws: seq<string>)
    ensures forall k :: 0 <= k < |ws| ==> ws[k] != [] && NoSpace(ws[k])
    decreases |s|
  {
    if s == [] then []
    else if IsSpace(s[0]) then Fields(s[1..])
    else
      var n := RunLength(s);
      [s[..n]] + Fields(s[n..])
  }

  /**
   * `s.split("\\s+")`: the pieces between whitespace runs. Java keeps a leading empty piece
   * when `s` starts with whitespace, drops trailing empty pieces, and returns `[s]` when
   * nothing matches (so `""` splits to `[""]`).
   */
  function SplitOnWhitespace(s: string): seq<string> {
    if NoSpace(s) then [s]
    else if IsSpace(s[0]) && Fields(s) != [] then [""] + Fields(s)
    else Fields(s)
  }

  lemma RunLengthOfWord(w: string, rest: string)
    requires NoSpace(w)
    requires rest == [] || IsSpace(rest[0])
    ensures RunLength(w + rest) == |w|
    decreases |w|
  {
    if w != [] {
      assert (w + rest)[1..] == w[1..] + rest;
      RunLengthOfWord(w[1..], rest);
    }
  }

  lemma FieldsOfWord(w: string)
    requires w != [] && NoSpace(w)
    ensures Fields(w) == [w]
  {
    RunLengthOfWord(w, []);
    assert w + [] == w;
    assert w[|w|..] == [];
  }

  /** A word followed by a space and more text contributes exactly itself as the first field. */
  lemma FieldsOfWordThenSpace(w: string, rest: string)
    requires w != [] && NoSpace(w)
    ensures Fields(w + " " + rest) == [w] + Fields(rest)
  {
    var s := w + " " + rest;
    RunLengthOfWord(w, " " + rest);
    assert s == w + (" " + rest);
    assert s[..|w|] == w;
    assert s[|w|..] == " " + rest;
    assert (" " + rest)[1..] == rest;
  }

  lemma FieldsOfTrimmed(t: string)
    requires IsTrimmed(t)
    ensures SplitOnWhitespace(t) == if t == [] then [""] else Fields(t)
  {
    if t != [] && NoSpace(t) {
      FieldsOfWord(t);
    }
  }

  /** The pieces of `split("\\s+")` are the fields plus, possibly, the empty string. */
  lemma SplitPiecesAreFields(s: string)
    ensures forall w :: w in Fields(s) ==> w in SplitOnWhitespace(s)
    ensures forall w :: w in SplitOnWhitespace(s) ==> w == [] || w in Fields(s)
  {
    if NoSpace(s) && s != [] {
      FieldsOfWord(s);
    }
  }

  // ---------------------------------------------------------------------------
  // Joining

  /** `String.join(sep, ws)`. */
  function JoinWith(ws: seq<string>, sep: string): string {
    if ws == [] then ""
    else if |ws| == 1 then ws[0]
    else ws[0] + sep + JoinWith(ws[1..], sep)
  }

  predicate AreWords(ws: seq<string>) {
    forall k :: 0 <= k < |ws| ==> ws[k] != [] && NoSpace(ws[k])
  }

  /** Joining words with single spaces and splitting the result again gives back the words. */
  lemma {:induction false} FieldsOfJoin(ws: seq<string>)
    requires AreWords(ws)
    ensures Fields(JoinWith(ws, " ")) == ws
    decreases |ws|
  {
    if |ws| == 1 {
      FieldsOfWord(ws[0]);
    } else if |ws| > 1 {
      FieldsOfWordThenSpace(ws[0], JoinWith(ws[1..], " "));
      FieldsOfJoin(ws[1..]);
    }
  }

  // ---------------------------------------------------------------------------
  // Case mapping, restricted to ASCII letters

  predicate IsAsciiLetter(c: char) {
    'a' <= c <= 'z' || 'A' <= c <= 'Z'
  }

  predicate IsAsciiAlnum(c: char) {
    IsAsciiLetter(c) || IsDigit(c)
  }

  /** Printable ASCII, the regex class `[\x20-\x7E]`. */
  predicate IsPrintableAscii(c: char) {
    ' ' <= c <= '~'
  }

  predicate AllPrintableAscii(s: string) {
    forall i :: 0 <= i < |s| ==> IsPrintableAscii(s[i])
  }

  predicate AllAsciiAlnum(s: string) {
    forall i :: 0 <= i < |s| ==> IsAsciiAlnum(s[i])
  }

  function LowerChar(c: char): (r: char)
    ensures IsSpace(r) <==> IsSpace(c)
  {
    if 'A' <= c <= 'Z' then (c as int + 32) as char else c
  }

  function UpperChar(c: char): char {
    if 'a' <= c <= 'z' then (c as int - 32) as char else c
  }

  /** `String.toLowerCase`, for ASCII letters. */
  function ToLower(s: string): (r: string)
    ensures |r| == |s|
    ensures forall i :: 0 <= i < |s| ==> r[i] == LowerChar(s[i])
  {
    seq(|s|, i requires 0 <= i < |s| => LowerChar(s[i]))
  }

  /** `String.equalsIgnoreCase`, for ASCII letters. */
  predicate EqualsIgnoreCase(a: string, b: string) {
    ToLower(a) == ToLower(b)
  }

  // ---------------------------------------------------------------------------
  // Decimal numerals

  function DigitValue(c: char): nat
    requires IsDigit(c)
  {
    c as int - '0' as int
  }

  /** The value of a string of decimal digits, most significant first. */
  function DigitsValue(s: string): nat
    requires AllDigits(s)
  {
    if s == [] then 0 else 10 * DigitsValue(s[..|s| - 1]) + DigitValue(s[|s| - 1])
  }

  function DigitChar(d: nat): (c: char)
    requires d < 10
    ensures IsDigit(c) && DigitValue(c) == d
  {
    ('0' as int + d) as char
  }

  /** The decimal rendering of `n`, as `%d` prints it. */
  function NatToString(n: nat): (s: string)
    ensures s != [] && AllDigits(s)
    ensures DigitsValue(s) == n
    ensures s[0] == '0' ==> n == 0
  {
    if n < 10 then [DigitChar(n)]
    else
      var s := NatToString(n / 10) + [DigitChar(n % 10)];
      assert s[..|s| - 1] == NatToString(n / 10);
      s
  }

  /** Blanks added around a string disappear when it is trimmed. */
  lemma TrimPadded(s: string)
    ensures Trim(" " + s + " ") == Trim(s)
  {
    if forall i :: 0 <= i < |s| ==> s[i] <= ' ' {
      PaddedBlank(s);
    } else {
      PaddedNonBlank(s);
      TrimEndSpace(TrimStart(s));
      assert Trim(" " + s + " ") == TrimEnd(TrimStart(s) + " ");
    }
  }

  /** A blank appended to a string disappears when its end is trimmed. */
  lemma TrimEndSpace(t: string)
    ensures TrimEnd(t + " ") == TrimEnd(t)
  {
    var u := t + " ";
    assert u[..|u| - 1] == t;
    assert TrailingBlanks(u) == 1 + TrailingBlanks(t);
  }

  lemma PaddedBlank(s: string)
    requires forall i :: 0 <= i < |s| ==> s[i] <= ' '
    ensures forall i :: 0 <= i < |" " + s + " "| ==> (" " + s + " ")[i] <= ' '
  {
    var p := " " + s + " ";
    forall i | 0 <= i < |p| ensures p[i] <= ' ' {
      if 0 < i < |p| - 1 { assert p[i] == s[i - 1]; }
    }
  }

  lemma PaddedNonBlank(s: string)
    requires LeadingBlanks(s) < |s|
    ensures TrimStart(" " + s + " ") == TrimStart(s) + " "
  {
    var tail := s + " ";
    assert " " + s + " " == [' '] + tail;
    TrimStartCons(' ', tail);
    TrimStartAppend(s, " ");
  }

  /** A blank in front disappears when the start is trimmed. */
  lemma TrimStartCons(c: char, t: string)
    requires c <= ' '
    ensures TrimStart([c] + t) == TrimStart(t)
  {
    var n := LeadingBlanks(t);
    LeadingBlanksCons(c, t);
    assert ([c] + t)[1 + n..] == t[n..];
  }

  /** A blank put in front adds one to the leading blank count. */
  lemma LeadingBlanksCons(c: char, t: string)
    requires c <= ' '
    ensures LeadingBlanks([c] + t) == 1 + LeadingBlanks(t)
  {
    assert ([c] + t)[1..] == t;
  }

  /** Text after a non-blank character survives trimming the start. */
  lemma TrimStartAppend(s: string, t: string)
    requires LeadingBlanks(s) < |s|
    ensures TrimStart(s + t) == TrimStart(s) + t
  {
    var n := LeadingBlanks(s);
    LeadingBlanksOfAppend(s, t);
    SliceOfAppend(s, t, n);
  }

  lemma SliceOfAppend(a: string, b: string, k: nat)
    requires k <= |a|
    ensures (a + b)[k..] == a[k..] + b
  {
  }

  /** Text after a non-blank character does not change the leading blank count. */
  lemma {:induction false} LeadingBlanksOfAppend(s: string, tail: string)
    requires LeadingBlanks(s) < |s|
    ensures LeadingBlanks(s + tail) == LeadingBlanks(s)
    decreases |s|
  {
    if s[0] <= ' ' {
      assert (s + tail)[1..] == s[1..] + tail;
      LeadingBlanksOfAppend(s[1..], tail);
    }
  }
}
