/**
 * The character and string predicates the contact book relies on:
 * Kotlin's `isBlank`, `isDigit`, `lowercase` and `contains`.
 * Characters are restricted to their ASCII meaning (see README).
 */
module Text {

  /** Kotlin's `Char.isWhitespace` on the ASCII range: space, tab, line feed,
      vertical tab, form feed, carriage return and the four separators U+001C..U+001F. */
  predicate IsWhitespace(c: char) {
    c == ' ' || c == '\t' || c == '\n' || c == '\U{B}' || c == '\U{C}' || c == '\r'
    || ('\U{1C}' <= c <= '\U{1F}')
  }

  /** `String.isBlank`: empty, or whitespace only. */
  predicate IsBlank(s: string) {
    forall i :: 0 <= i < |s| ==> IsWhitespace(s[i])
  }

  /** `Char.isDigit` restricted to the decimal digits '0'..'9'. */
  predicate IsDigit(c: char) {
    '0' <= c <= '9'
  }

  /** `s.all { it.isDigit() }` */
  predicate AllDigits(s: string) {
    forall i :: 0 <= i < |s| ==> IsDigit(s[i])
  }

  /** `Char.lowercaseChar` on ASCII letters; every other character is kept. */
  function LowerChar(c: char): (r: char)
    ensures 'A' <= c <= 'Z' ==> 'a' <= r <= 'z' && r as int - c as int == 32
    ensures !('A' <= c <= 'Z') ==> r == c
  {
    if 'A' <= c <= 'Z' then (c as int + 32) as char else c
  }

  /** `String.lowercase()`: lower-cases every character, keeping the length. */
  function Lowercase(s: string): (r: string)
    ensures |r| == |s|
    ensures forall i :: 0 <= i < |s| ==> r[i] == LowerChar(s[i])
  {
    seq(|s|, i requires 0 <= i < |s| => LowerChar(s[i]))
  }

  /** `s.contains(t)`: `t` occurs in `s` at some offset; the empty string occurs in every string. */
  predicate Contains(s: string, t: string) {
    exists i | 0 <= i <= |s| :: OccursAt(s, t, i)
  }

  /** `t` is the piece of `s` that starts at offset `i`. */
  predicate OccursAt(s: string, t: string, i: int) {
    0 <= i <= |s| - |t| && s[i..i + |t|] == t
  }

  lemma LowercaseIdempotent(s: string)
    ensures Lowercase(Lowercase(s)) == Lowercase(s)
  {
  }

  /** Lower-casing never turns a non-digit into a digit or the reverse,
      nor whitespace into non-whitespace. */
  lemma LowerCharKeepsClass(c: char)
    ensures IsDigit(LowerChar(c)) <==> IsDigit(c)
    ensures IsWhitespace(LowerChar(c)) <==> IsWhitespace(c)
  {
  }

  /** A query is blank exactly when its lower-cased form is. */
  lemma BlankIgnoresCase(s: string)
    ensures IsBlank(Lowercase(s)) <==> IsBlank(s)
  {
  }

  /** Strings of digits are unchanged by lower-casing. */
  lemma LowercaseOfDigits(s: string)
    requires AllDigits(s)
    ensures Lowercase(s) == s
  {
  }

  /** Every piece of a string of digits is itself a string of digits. */
  lemma ContainedInDigits(s: string, t: string)
    requires AllDigits(s) && Contains(s, t)
    ensures AllDigits(t)
  {
  }

  /**
   * Matching a string of digits against the lower-cased query gives the same
   * answer as matching it against the query itself: the phone-number test of the
   * search lower-cases its query, and this shows that this never changes the outcome.
   */
  lemma DigitsContainLowercase(s: string, q: string)
    requires AllDigits(s)
    ensures Contains(s, Lowercase(q)) <==> Contains(s, q)
  {
    if Contains(s, q) {
      ContainedInDigits(s, q);
      LowercaseOfDigits(q);
    }
    if Contains(s, Lowercase(q)) {
      ContainedInDigits(s, Lowercase(q));
      forall k | 0 <= k < |q| ensures IsDigit(q[k]) {
        LowerCharKeepsClass(q[k]);
      }
      LowercaseOfDigits(q);
    }
  }

  /** A string that lacks the first character of `t` does not contain `t`. */
  lemma MissingFirstChar(s: string, t: string)
    requires |t| > 0 && forall k :: 0 <= k < |s| ==> s[k] != t[0]
    ensures !Contains(s, t)
  {
    forall i | 0 <= i <= |s| ensures !OccursAt(s, t, i) {
      if i <= |s| - |t| {
        assert s[i..i + |t|][0] == s[i] != t[0];
      }
    }
  }

  /** A non-empty string of digits is not blank. */
  lemma DigitsNotBlank(s: string)
    ensures AllDigits(s) && |s| > 0 ==> !IsBlank(s)
  {
    if AllDigits(s) && |s| > 0 {
      assert IsDigit(s[0]);
    }
  }
}
