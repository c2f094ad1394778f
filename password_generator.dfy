/**
 * The password generator: `length` characters, each picked from a fixed
 * 70-character alphabet. The random source is modelled as the sequence of
 * indices it picks, one per character.
 */
module PasswordGenerator {
  import opened PasswordStrength

  /** The `count` consecutive characters starting at `first`, in code-point order. */
  function CharRange(first: char, count: nat): (r: string)
    requires first as int + count <= 0xD800
    ensures |r| == count
    ensures forall c :: c in r <==> first <= c && (c as int) < first as int + count
  {
    var r := seq(count, i requires 0 <= i < count => (first as int + i) as char);
    assert forall c :: c in r <==> first <= c && (c as int) < first as int + count by {
      forall c | first <= c && (c as int) < first as int + count
        ensures c in r
      {
        assert r[c as int - first as int] == c;
      }
    }
    r
  }

  const AsciiLowercase: string := CharRange('a', 26)
  const AsciiUppercase: string := CharRange('A', 26)
  const Digits: string := CharRange('0', 10)

  /** ASCII letters (lower case first), then digits, then the special characters. */
  const Alphabet: string := AsciiLowercase + AsciiUppercase + Digits + SpecialChars

  const AlphabetSize: nat := 70
  const DefaultLength: int := 12

  /** One draw of the random source: a position in the alphabet. */
  type AlphabetIndex = i: int | 0 <= i < AlphabetSize

  /**
   * The generated password, given the draws the random source makes; the length
   * defaults to 12. A length of zero or less means no draws and the empty string.
   */
  function Generate(picks: seq<AlphabetIndex>, length: int := DefaultLength): (r: string)
    requires |picks| >= length
    ensures |r| == if length > 0 then length else 0
    ensures forall i | 0 <= i < |r| :: r[i] == Alphabet[picks[i]]
    decreases length
  {
    AlphabetHasSeventy();
    if length <= 0 then ""
    else Generate(picks, length - 1) + [Alphabet[picks[length - 1]]]
  }

  lemma AlphabetHasSeventy()
    ensures |Alphabet| == AlphabetSize
  {
  }

  /** Every alphabet character is an upper- or lower-case letter, a digit or a special character, and conversely. */
  lemma AlphabetIsTheFourClasses(c: char)
    ensures c in Alphabet <==> IsUpper(c) || IsLower(c) || IsDigit(c) || IsSpecial(c)
  {
  }

  /** Every generated character is drawn from the alphabet. */
  lemma GeneratedCharsInAlphabet(length: int, picks: seq<AlphabetIndex>)
    requires |picks| >= length
    ensures forall c | c in Generate(picks, length) :: c in Alphabet
    ensures forall c | c in Generate(picks, length) :: IsUpper(c) || IsLower(c) || IsDigit(c) || IsSpecial(c)
  {
  }

  /**
   * Nothing checks the output against the evaluator's rules: with the default
   * length, twelve draws of the first alphabet position give a password the
   * evaluator rates Weak.
   */
  lemma GeneratedPasswordMayBeWeak()
    ensures Generate(seq(12, _ => 0)) == "aaaaaaaaaaaa"
    ensures Evaluate("aaaaaaaaaaaa").rating == Weak
  {
  }
}
