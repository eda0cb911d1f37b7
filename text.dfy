// Character classes and substring tests shared by the validators and the key
// generator. Characters are treated as ASCII: the Unicode-wide meaning of the
// regular-expression classes \w and \d and of str.isupper is not modelled.

module Text {

  datatype Option<T> = None | Some(value: T)

  /** The cipher alphabet of is_valid_scryptogram_cipher: the 26 upper-case letters in order. */
  const Alphabet: string := "ABCDEFGHIJKLMNOPQRSTUVWXYZ"

  predicate IsUpper(c: char) { 'A' <= c <= 'Z' }

  predicate IsLower(c: char) { 'a' <= c <= 'z' }

  /** The character class [a-zA-Z]. */
  predicate IsLetter(c: char) { IsUpper(c) || IsLower(c) }

  /** The character class \d. */
  predicate IsDigit(c: char) { '0' <= c <= '9' }

  /** The character class \w: letters, digits and the underscore. */
  predicate IsWordChar(c: char) { IsLetter(c) || IsDigit(c) || c == '_' }

  predicate AllLetters(s: string) {
    forall k :: 0 <= k < |s| ==> IsLetter(s[k])
  }

  predicate StartsWith(s: string, prefix: string) {
    |prefix| <= |s| && s[..|prefix|] == prefix
  }

  /** Python's `sub in s`. */
  predicate Contains(s: string, sub: string) {
    exists i :: 0 <= i <= |s| && StartsWith(s[i..], sub)
  }

  /** Python's str.isupper on ASCII text: no lower-case letter and at least one upper-case one. */
  predicate PyIsUpper(s: string) {
    (forall k :: 0 <= k < |s| ==> !IsLower(s[k])) &&
    (exists k :: 0 <= k < |s| && IsUpper(s[k]))
  }

  /** Position i of the alphabet holds chr(65 + i), the letters of cryptogramKeys.py. */
  lemma AlphabetCodes()
    ensures |Alphabet| == 26
    ensures forall i :: 0 <= i < 26 ==> Alphabet[i] == (65 + i) as char
  {
  }

  lemma StartsWithConcat(s: string, a: string, b: string)
    ensures StartsWith(s, a + b) <==> StartsWith(s, a) && StartsWith(s[|a|..], b)
  {
    if StartsWith(s, a) && StartsWith(s[|a|..], b) {
      assert s[..|a + b|] == s[..|a|] + s[|a|..][..|b|];
    }
    if StartsWith(s, a + b) {
      assert s[..|a|] == (a + b)[..|a|] == a;
      assert s[|a|..][..|b|] == s[..|a + b|][|a|..] == b;
    }
  }
}
