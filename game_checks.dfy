// The four content checks of validate_games.py: a Lingo solution, a
// Scryptogram target sentence, a Scryptogram hint and a Scryptogram cipher.
// Each check returns Pass or the first failing condition, in the order the
// source tests them; the source's error message becomes the error value.

module GameChecks {
  import opened Text

  /** Outcome of one check: (True, None) or (False, message) in the source. */
  datatype Check<E> = Pass | Fail(reason: E)

  datatype LingoError = LingoWrongLength(length: nat) | LingoInvalidCharacters | LingoNotUnique

  datatype TargetError = TargetTooShort(length: nat) | TargetWordTooLong(word: string)
                       | TargetNotUnique | TargetEscapedQuotes

  datatype HintError = HintTooShort(length: nat) | HintMissingColon

  datatype CipherError = CipherWrongLength(length: nat) | CipherNotUppercase
                       | CipherLetterInPlace(letter: char, position: nat)

  // ---------------------------------------------------------------------------
  // Lingo solution

  /** Length of the longest prefix of s made of letters (the greedy [a-zA-Z]+). */
  function LeadingLetters(s: string): (n: nat)
    ensures n <= |s|
    ensures forall k :: 0 <= k < n ==> IsLetter(s[k])
    ensures n < |s| ==> !IsLetter(s[n])
  {
    if s == [] || !IsLetter(s[0]) then 0 else 1 + LeadingLetters(s[1..])
  }

  /**
   * re.match(r'^[a-zA-Z]+$', s). The greedy run takes n letters; `$` then
   * succeeds at the end of the string or just before a final newline.
   * Backing off to fewer letters cannot help, since the character after a
   * shorter run is a letter.
   */
  predicate MatchesLettersPattern(s: string) {
    var n := LeadingLetters(s);
    n >= 1 && (n == |s| || (n == |s| - 1 && s[n] == '\n'))
  }

  /** The pattern accepts a non-empty all-letter string, optionally followed by one newline. */
  lemma LettersPatternMeaning(s: string)
    ensures MatchesLettersPattern(s) <==>
              (s != [] && AllLetters(s)) ||
              (|s| >= 2 && s[|s| - 1] == '\n' && AllLetters(s[..|s| - 1]))
  {
    var n := LeadingLetters(s);
    if |s| >= 2 && s[|s| - 1] == '\n' && AllLetters(s[..|s| - 1]) {
      assert !IsLetter(s[|s| - 1]);
      assert n == |s| - 1;
    }
  }

  /** is_valid_lingo_solution: length 5, then the letters pattern, then uniqueness. */
  function IsValidLingoSolution(solution: string, seen: set<string>): (r: Check<LingoError>)
    ensures r.Pass? <==>
              |solution| == 5 && solution !in seen &&
              (AllLetters(solution) || (AllLetters(solution[..4]) && solution[4] == '\n'))
    ensures (r.Fail? && r.reason.LingoWrongLength?) <==> |solution| != 5
    ensures |solution| != 5 ==> r == Fail(LingoWrongLength(|solution|))
    ensures r == Fail(LingoInvalidCharacters) <==>
              |solution| == 5 && !AllLetters(solution) &&
              !(AllLetters(solution[..4]) && solution[4] == '\n')
    ensures r == Fail(LingoNotUnique) <==>
              |solution| == 5 && MatchesLettersPattern(solution) && solution in seen
  {
    LettersPatternMeaning(solution);
    if |solution| != 5 then Fail(LingoWrongLength(|solution|))
    else if !MatchesLettersPattern(solution) then Fail(LingoInvalidCharacters)
    else if solution in seen then Fail(LingoNotUnique)
    else Pass
  }

  /** Without a trailing newline, a solution passes iff it is 5 letters and unseen. */
  lemma LingoAcceptance(solution: string, seen: set<string>)
    requires solution == [] || solution[|solution| - 1] != '\n'
    ensures IsValidLingoSolution(solution, seen).Pass? <==>
              |solution| == 5 && AllLetters(solution) && solution !in seen
  {
  }

  /** The length check comes first: a duplicate of the wrong length reports the length. */
  lemma LingoLengthReportedFirst(solution: string, seen: set<string>)
    requires solution in seen && |solution| != 5
    ensures IsValidLingoSolution(solution, seen) == Fail(LingoWrongLength(|solution|))
  {
  }

  /** The `$` of the pattern lets four letters and a newline through. */
  lemma LingoTrailingNewlineAccepted()
    ensures IsValidLingoSolution("abcd\n", {}) == Pass
  {
    assert AllLetters("abcd\n"[..4]);
  }

  // ---------------------------------------------------------------------------
  // Scryptogram target

  /** Length of the longest prefix of s made of word characters. */
  function LeadingWordChars(s: string): (n: nat)
    ensures n <= |s|
    ensures forall k :: 0 <= k < n ==> IsWordChar(s[k])
    ensures n < |s| ==> !IsWordChar(s[n])
  {
    if s == [] || !IsWordChar(s[0]) then 0 else 1 + LeadingWordChars(s[1..])
  }

  /** re.findall(r'\w+', s): the maximal runs of word characters, left to right. */
  function Words(s: string): (words: seq<string>)
    ensures forall k :: 0 <= k < |words| ==> |words[k]| >= 1
    decreases |s|
  {
    if s == [] then []
    else if !IsWordChar(s[0]) then Words(s[1..])
    else
      var n := LeadingWordChars(s);
      [s[..n]] + Words(s[n..])
  }

  /** The loop over the words: the first one longer than 12 characters. */
  function FirstLongWord(words: seq<string>): (r: Option<string>)
    ensures r.None? <==> forall k :: 0 <= k < |words| ==> |words[k]| <= 12
    ensures r.Some? ==> exists k :: 0 <= k < |words| && words[k] == r.value &&
                           |r.value| > 12 && forall j :: 0 <= j < k ==> |words[j]| <= 12
  {
    if words == [] then None
    else if |words[0]| > 12 then Some(words[0])
    else
      var r := FirstLongWord(words[1..]);
      if r.Some? then
        assert exists k :: 0 < k < |words| && words[k] == r.value && |r.value| > 12 &&
                 forall j :: 0 <= j < k ==> |words[j]| <= 12 by {
          var k' :| 0 <= k' < |words[1..]| && words[1..][k'] == r.value && |r.value| > 12 &&
                    forall j :: 0 <= j < k' ==> |words[1..][j]| <= 12;
          assert words[k' + 1] == r.value;
          assert forall j :: 1 <= j < k' + 1 ==> |words[j]| <= 12 by {
            forall j | 1 <= j < k' + 1 ensures |words[j]| <= 12 {
              assert words[j] == words[1..][j - 1];
            }
          }
        }
        r
      else r
  }

  /** s[i..i+len] lies within s and consists of word characters only. */
  predicate WordRunAt(s: string, i: nat, len: nat) {
    i + len <= |s| && forall k :: i <= k < i + len ==> IsWordChar(s[k])
  }

  /** Some stretch of `len` consecutive word characters. */
  ghost predicate HasWordRun(s: string, len: nat) {
    exists i: nat :: WordRunAt(s, i, len)
  }

  lemma {:induction false} WordRunShift(s: string, n: nat, i: nat, len: nat)
    requires n <= |s|
    ensures WordRunAt(s[n..], i, len) <==> WordRunAt(s, n + i, len)
  {
    if WordRunAt(s, n + i, len) {
      forall k | i <= k < i + len ensures IsWordChar(s[n..][k]) {
        assert s[n..][k] == s[n + k];
      }
    }
    if WordRunAt(s[n..], i, len) {
      forall k | n + i <= k < n + i + len ensures IsWordChar(s[k]) {
        assert s[k] == s[n..][k - n];
      }
    }
  }

  /**
   * A word of re.findall(r'\w+', s) has at least `len` characters exactly
   * when s has `len` consecutive word characters somewhere.
   */
  lemma {:induction false} LongWordIffLongRun(s: string, len: nat)
    requires len >= 1
    ensures (exists k :: 0 <= k < |Words(s)| && |Words(s)[k]| >= len) <==> HasWordRun(s, len)
    decreases |s|
  {
    if s == [] {
    } else if !IsWordChar(s[0]) {
      assert Words(s) == Words(s[1..]);
      LongWordIffLongRun(s[1..], len);
      if HasWordRun(s, len) {
        var i: nat :| WordRunAt(s, i, len);
        assert i != 0;
        WordRunShift(s, 1, i - 1, len);
        assert WordRunAt(s[1..], i - 1, len);
      }
      if HasWordRun(s[1..], len) {
        var i: nat :| WordRunAt(s[1..], i, len);
        WordRunShift(s, 1, i, len);
        assert WordRunAt(s, 1 + i, len);
      }
    } else {
      var n := LeadingWordChars(s);
      var rest := Words(s[n..]);
      assert Words(s) == [s[..n]] + rest;
      LongWordIffLongRun(s[n..], len);
      if exists k :: 0 <= k < |Words(s)| && |Words(s)[k]| >= len {
        var k :| 0 <= k < |Words(s)| && |Words(s)[k]| >= len;
        if k == 0 {
          assert WordRunAt(s, 0, len);
        } else {
          assert 0 <= k - 1 < |Words(s[n..])| && |Words(s[n..])[k - 1]| >= len;
          var i: nat :| WordRunAt(s[n..], i, len);
          WordRunShift(s, n, i, len);
          assert WordRunAt(s, n + i, len);
        }
      }
      if HasWordRun(s, len) {
        var i: nat :| WordRunAt(s, i, len);
        if i < n {
          // a run crossing s[n] is impossible: s[n] ends the first word
          assert i + len <= n;
          assert |Words(s)[0]| >= len;
        } else {
          WordRunShift(s, n, i - n, len);
          assert WordRunAt(s[n..], i - n, len);
          var k :| 0 <= k < |rest| && |rest[k]| >= len;
          assert Words(s)[k + 1] == rest[k];
        }
      }
    }
  }

  /** The target must not contain the four characters \"\" (two escaped quotes). */
  const EscapedQuotePair: string := "\\\"\\\""

  /** is_valid_scryptogram_target: length, word lengths, uniqueness, escaped quotes. */
  function IsValidScryptogramTarget(target: string, seen: set<string>): (r: Check<TargetError>)
    ensures r.Pass? <==>
              |target| > 25 && !HasWordRun(target, 13) && target !in seen &&
              !Contains(target, EscapedQuotePair)
    ensures (r.Fail? && r.reason.TargetTooShort?) <==> |target| <= 25
    ensures |target| <= 25 ==> r == Fail(TargetTooShort(|target|))
    ensures (r.Fail? && r.reason.TargetWordTooLong?) <==>
              |target| > 25 && HasWordRun(target, 13)
    ensures r.Fail? && r.reason.TargetWordTooLong? ==>
              var words := Words(target);
              exists k :: 0 <= k < |words| && words[k] == r.reason.word && |r.reason.word| > 12 &&
                forall j :: 0 <= j < k ==> |words[j]| <= 12
    ensures r == Fail(TargetNotUnique) <==>
              |target| > 25 && !HasWordRun(target, 13) && target in seen
    ensures r == Fail(TargetEscapedQuotes) <==>
              |target| > 25 && !HasWordRun(target, 13) && target !in seen &&
              Contains(target, EscapedQuotePair)
  {
    LongWordIffLongRun(target, 13);
    if |target| <= 25 then Fail(TargetTooShort(|target|))
    else
      match FirstLongWord(Words(target))
      case Some(word) =>
        assert exists k :: 0 <= k < |Words(target)| && |Words(target)[k]| >= 13;
        Fail(TargetWordTooLong(word))
      case None =>
        if target in seen then Fail(TargetNotUnique)
        else if Contains(target, EscapedQuotePair) then Fail(TargetEscapedQuotes)
        else Pass
  }

  // ---------------------------------------------------------------------------
  // Scryptogram hint

  /** is_valid_scryptogram_hint: longer than 6 characters, then contains ':'. */
  function IsValidScryptogramHint(hint: string): (r: Check<HintError>)
    ensures r.Pass? <==> |hint| > 6 && exists k :: 0 <= k < |hint| && hint[k] == ':'
    ensures (r.Fail? && r.reason.HintTooShort?) <==> |hint| <= 6
    ensures |hint| <= 6 ==> r == Fail(HintTooShort(|hint|))
    ensures r == Fail(HintMissingColon) <==> |hint| > 6 && forall k :: 0 <= k < |hint| ==> hint[k] != ':'
  {
    if |hint| <= 6 then Fail(HintTooShort(|hint|))
    else if ':' !in hint then Fail(HintMissingColon)
    else Pass
  }

  // ---------------------------------------------------------------------------
  // Scryptogram cipher

  /** No position of the cipher holds the alphabet's letter at that position. */
  predicate NoFixedPoint(cipher: string)
    requires |cipher| == 26
  {
    forall i :: 0 <= i < 26 ==> cipher[i] != Alphabet[i]
  }

  /** The loop `for i in range(26)`, from position i on: the first fixed point. */
  function FirstFixedPoint(cipher: string, i: nat): (r: Option<nat>)
    requires |cipher| == 26 && i <= 26
    ensures r.None? <==> forall j :: i <= j < 26 ==> cipher[j] != Alphabet[j]
    ensures r.Some? ==> i <= r.value < 26 && cipher[r.value] == Alphabet[r.value] &&
                        forall j :: i <= j < r.value ==> cipher[j] != Alphabet[j]
    decreases 26 - i
  {
    if i == 26 then None
    else if cipher[i] == Alphabet[i] then Some(i)
    else FirstFixedPoint(cipher, i + 1)
  }

  /** is_valid_scryptogram_cipher: 26 characters, isupper, then no letter in its own place. */
  function IsValidScryptogramCipher(cipher: string): (r: Check<CipherError>)
    ensures r.Pass? <==> |cipher| == 26 && PyIsUpper(cipher) && NoFixedPoint(cipher)
    ensures (r.Fail? && r.reason.CipherWrongLength?) <==> |cipher| != 26
    ensures |cipher| != 26 ==> r == Fail(CipherWrongLength(|cipher|))
    ensures r == Fail(CipherNotUppercase) <==> |cipher| == 26 && !PyIsUpper(cipher)
    ensures (r.Fail? && r.reason.CipherLetterInPlace?) <==>
              |cipher| == 26 && PyIsUpper(cipher) && !NoFixedPoint(cipher)
    ensures r.Fail? && r.reason.CipherLetterInPlace? ==>
              var i := r.reason.position - 1;
              |cipher| == 26 && PyIsUpper(cipher) && 0 <= i < 26 &&
              cipher[i] == Alphabet[i] && r.reason.letter == cipher[i] &&
              forall j :: 0 <= j < i ==> cipher[j] != Alphabet[j]
  {
    if |cipher| != 26 then Fail(CipherWrongLength(|cipher|))
    else if !PyIsUpper(cipher) then Fail(CipherNotUppercase)
    else
      match FirstFixedPoint(cipher, 0)
      case Some(i) => Fail(CipherLetterInPlace(cipher[i], i + 1))
      case None => Pass
  }

  /** Repeated letters are not rejected: only length, case and fixed points are checked. */
  lemma CipherAllowsRepeats()
    ensures IsValidScryptogramCipher("BAAAAAAAAAAAAAAAAAAAAAAAAA") == Pass
  {
    var c := "BAAAAAAAAAAAAAAAAAAAAAAAAA";
    AlphabetCodes();
    assert IsUpper(c[0]);
    assert NoFixedPoint(c);
  }
}
