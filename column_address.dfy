/**
 * Column addressing: `getColumnLetter` of src/Google/Spreadsheet/Sheet.php,
 * which renders a 1-based column number in A1-style letters.
 *
 * The source steps the number with `intval($i / 26)` where the bijective
 * A1 encoding would use `intval(($i - 1) / 26)`. The model keeps the code's
 * behaviour (26 becomes "AZ", not "Z") and relates it to the true A1
 * encoding, `A1Letters`, by `AgreesWithA1Iff`.
 */
module ColumnAddress {

  /** The letter of the digit `d` (0 is 'A', 25 is 'Z'), `chr(65 + d)`. */
  function Letter(d: int): (c: char)
    requires 0 <= d < 26
    ensures 'A' <= c <= 'Z'
  {
    (65 + d) as char
  }

  /** `array_reverse` on a list of characters. */
  function Reverse(s: seq<char>): (r: seq<char>)
    ensures |r| == |s|
  {
    if s == [] then [] else Reverse(s[1..]) + [s[0]]
  }

  lemma {:induction false} ReverseSnoc(s: seq<char>, c: char)
    ensures Reverse(s + [c]) == [c] + Reverse(s)
  {
    if s == [] {
      assert Reverse([c]) == Reverse([]) + [c];
    } else {
      assert (s + [c])[1..] == s[1..] + [c];
      ReverseSnoc(s[1..], c);
    }
  }

  /**
   * The letters `getColumnLetter(n)` returns: one letter per loop step,
   * the step on `i` emitting the letter of `(i - 1) % 26` and moving on to
   * `i / 26`; the first letter emitted is the last one shown.
   */
  function ColumnLetters(n: int): (s: string)
    ensures n >= 1 ==> |s| >= 1
    ensures forall k :: 0 <= k < |s| ==> 'A' <= s[k] <= 'Z'
    decreases n
  {
    if n <= 0 then [] else ColumnLetters(n / 26) + [Letter((n - 1) % 26)]
  }

  /** The loop of `getColumnLetter`: push a letter per step, then reverse. */
  method GetColumnLetter(index: int) returns (s: string)
    ensures s == ColumnLetters(index)
  {
    var pushed: seq<char> := [];
    var i := index;
    while i > 0
      invariant ColumnLetters(index) == ColumnLetters(i) + Reverse(pushed)
      decreases i
    {
      var c := Letter((i - 1) % 26);
      assert ColumnLetters(i) == ColumnLetters(i / 26) + [c];
      ReverseSnoc(pushed, c);
      pushed := pushed + [c];
      i := i / 26;
    }
    s := Reverse(pushed);
  }

  /** The number of base-26 digits of a positive number. */
  function Base26Digits(n: int): (d: nat)
    requires n >= 1
    ensures d >= 1
    decreases n
  {
    if n < 26 then 1 else 1 + Base26Digits(n / 26)
  }

  /** One letter per base-26 digit of the column number. */
  lemma {:induction false} ColumnLettersLength(n: int)
    requires n >= 1
    ensures |ColumnLetters(n)| == Base26Digits(n)
  {
    if n >= 26 {
      ColumnLettersLength(n / 26);
    }
  }

  /** Columns 1 to 25 are the single letters chr(64 + n). */
  lemma SingleLetterColumns(n: int)
    requires 1 <= n <= 25
    ensures ColumnLetters(n) == [(64 + n) as char]
  {
  }

  /** What the code does at the first digit boundaries. */
  lemma BoundaryColumns()
    ensures ColumnLetters(26) == "AZ"
    ensures ColumnLetters(27) == "AA"
    ensures ColumnLetters(52) == "BZ"
    ensures ColumnLetters(702) == "AAZ"
  {
  }

  /** The spreadsheet's own (bijective base-26) column names: 26 is "Z", 27 is "AA". */
  function A1Letters(n: int): (s: string)
    decreases n
  {
    if n <= 0 then [] else A1Letters((n - 1) / 26) + [Letter((n - 1) % 26)]
  }

  /** Every quotient the loop of `getColumnLetter` visits is not a multiple of 26. */
  predicate QuotientsAvoid26(n: int)
    decreases n
  {
    n <= 0 || (n % 26 != 0 && QuotientsAvoid26(n / 26))
  }

  /**
   * The number a string of letters denotes in the bijective base-26
   * numbering ('A' = 1 .. 'Z' = 26). A proof device only: the source has
   * no letters-to-number conversion.
   */
  ghost function LettersValue(s: string): int
  {
    if s == [] then 0 else 26 * LettersValue(s[..|s| - 1]) + (s[|s| - 1] as int - 64)
  }

  lemma {:induction false} A1LettersValue(n: int)
    requires n >= 0
    ensures LettersValue(A1Letters(n)) == n
  {
    if n > 0 {
      var p := A1Letters((n - 1) / 26);
      A1LettersValue((n - 1) / 26);
      assert (p + [Letter((n - 1) % 26)])[..|p|] == p;
    }
  }

  lemma {:induction false} ColumnLettersValue(n: int)
    requires n >= 0
    ensures LettersValue(ColumnLetters(n)) >= n
    ensures LettersValue(ColumnLetters(n)) == n <==> QuotientsAvoid26(n)
  {
    if n > 0 {
      var m, d := n / 26, (n - 1) % 26;
      var p := ColumnLetters(m);
      ColumnLettersValue(m);
      assert (p + [Letter(d)])[..|p|] == p;
      assert LettersValue(ColumnLetters(n)) == 26 * LettersValue(p) + d + 1;
      DigitSplit(n);
    }
  }

  /** How the step of `getColumnLetter` splits a positive number. */
  lemma DigitSplit(n: int)
    requires n > 0
    ensures n == 26 * (n / 26) + n % 26
    ensures n % 26 != 0 ==> (n - 1) % 26 + 1 == n % 26
    ensures n % 26 == 0 ==> (n - 1) % 26 + 1 == 26
  {
  }

  /**
   * `getColumnLetter` gives the spreadsheet's column name exactly when no
   * quotient it steps through is a multiple of 26.
   */
  lemma {:induction false} AgreesWithA1Iff(n: int)
    requires n >= 0
    ensures ColumnLetters(n) == A1Letters(n) <==> QuotientsAvoid26(n)
  {
    if ColumnLetters(n) == A1Letters(n) {
      A1LettersValue(n);
      ColumnLettersValue(n);
    }
    if QuotientsAvoid26(n) {
      AgreesWhenQuotientsAvoid26(n);
    }
  }

  lemma {:induction false} AgreesWhenQuotientsAvoid26(n: int)
    requires n >= 0 && QuotientsAvoid26(n)
    ensures ColumnLetters(n) == A1Letters(n)
  {
    if n > 0 {
      assert (n - 1) / 26 == n / 26;
      AgreesWhenQuotientsAvoid26(n / 26);
    }
  }
}
