// cryptogramKeys.py: rejection sampling for a key of the Scryptogram cipher,
// a rearrangement of A-Z in which no letter keeps its own position.
//
// The random source is a parameter: a stream of raw draws. The shuffle is
// the one random.shuffle performs (Fisher-Yates from the last index down,
// one draw per index i, reduced to randbelow(i + 1) as draw % (i + 1)), so
// one attempt consumes 25 draws. The source retries forever; here it retries
// while the stream lasts, and None stands for "still retrying".

module CryptogramKeys {
  import opened Text
  import GameChecks

  /** Draws consumed by one shuffle of 26 letters. */
  const DrawsPerAttempt: nat := 25

  function Swap(s: seq<char>, i: nat, j: nat): (r: seq<char>)
    requires i < |s| && j < |s|
    ensures |r| == |s|
  {
    s[i := s[j]][j := s[i]]
  }

  /** The shuffle steps for indices i, i-1, ..., 1, the one for index i using draws[0]. */
  function ShuffleSteps(s: seq<char>, draws: seq<nat>, i: nat): (r: seq<char>)
    requires i < |s| && i <= |draws|
    ensures |r| == |s|
    decreases i
  {
    if i == 0 then s
    else ShuffleSteps(Swap(s, i, draws[0] % (i + 1)), draws[1..], i - 1)
  }

  /** random.shuffle of s, driven by the given draws. */
  function Shuffled(s: seq<char>, draws: seq<nat>): (r: seq<char>)
    requires |s| <= |draws| + 1
    ensures |r| == |s|
  {
    if s == [] then s else ShuffleSteps(s, draws, |s| - 1)
  }

  lemma SwapPermutes(s: seq<char>, i: nat, j: nat)
    requires i < |s| && j < |s|
    ensures |Swap(s, i, j)| == |s| && multiset(Swap(s, i, j)) == multiset(s)
  {
    var t := s[i := s[j]];
    assert multiset(t) == multiset(s) - multiset{s[i]} + multiset{s[j]};
  }

  lemma {:induction false} ShuffleStepsPermutes(s: seq<char>, draws: seq<nat>, i: nat)
    requires i < |s| && i <= |draws|
    ensures |ShuffleSteps(s, draws, i)| == |s|
    ensures multiset(ShuffleSteps(s, draws, i)) == multiset(s)
    decreases i
  {
    if i > 0 {
      var j := draws[0] % (i + 1);
      SwapPermutes(s, i, j);
      ShuffleStepsPermutes(Swap(s, i, j), draws[1..], i - 1);
    }
  }

  /** Whatever the draws, the shuffle rearranges s: same length, same letters. */
  lemma ShuffledPermutes(s: seq<char>, draws: seq<nat>)
    requires |s| <= |draws| + 1
    ensures |Shuffled(s, draws)| == |s| && multiset(Shuffled(s, draws)) == multiset(s)
  {
    if s != [] {
      ShuffleStepsPermutes(s, draws, |s| - 1);
    }
  }

  /** random.shuffle(shuffled), in place. */
  method Shuffle(a: array<char>, draws: seq<nat>)
    requires a.Length <= |draws| + 1
    modifies a
    ensures a[..] == Shuffled(old(a[..]), draws)
  {
    if a.Length == 0 {
      return;
    }
    var i := a.Length - 1;
    var used := 0;
    while i >= 1
      invariant 0 <= i < a.Length && used == a.Length - 1 - i
      invariant ShuffleSteps(a[..], draws[used..], i) == Shuffled(old(a[..]), draws)
      decreases i
    {
      var j := draws[used] % (i + 1);
      ghost var before := a[..];
      a[i], a[j] := a[j], a[i];
      assert a[..] == Swap(before, i, j);
      assert draws[used..][1..] == draws[used + 1..];
      i, used := i - 1, used + 1;
    }
  }

  /** The scan of the source: valid stays true until a letter is found in its own place. */
  method ScanFixedPoints(shuffled: array<char>, letters: array<char>) returns (valid: bool)
    requires shuffled.Length == 26 && letters.Length == 26
    ensures valid <==> forall i :: 0 <= i < 26 ==> shuffled[i] != letters[i]
  {
    valid := true;
    for i := 0 to 26
      invariant valid
      invariant forall k :: 0 <= k < i ==> shuffled[k] != letters[k]
    {
      if shuffled[i] == letters[i] {
        valid := false;
        break;
      }
    }
  }

  /** The letters chr(65), ..., chr(90) that the source builds, as a property of a sequence. */
  predicate IsLetterRange(s: seq<char>) {
    |s| == 26 && forall i :: 0 <= i < 26 ==> s[i] == (65 + i) as char
  }

  /** The letters the source builds are exactly the alphabet the cipher check compares with. */
  lemma LetterRangeIsAlphabet(s: seq<char>)
    ensures IsLetterRange(s) <==> s == Alphabet
  {
    AlphabetCodes();
    if IsLetterRange(s) {
      assert forall i :: 0 <= i < 26 ==> s[i] == Alphabet[i];
    }
  }

  /**
   * The key the generator returns for the given draws: the first shuffle of
   * `letters` that leaves no letter in its own place.
   */
  function KeyFrom(letters: seq<char>, draws: seq<nat>): (key: Option<string>)
    requires |letters| == 26
    ensures key.Some? ==> |key.value| == 26 && forall i :: 0 <= i < 26 ==> key.value[i] != letters[i]
    ensures |draws| < DrawsPerAttempt ==> key.None?
    decreases |draws|
  {
    if |draws| < DrawsPerAttempt then None
    else
      var candidate := Shuffled(letters, draws[..DrawsPerAttempt]);
      if forall i :: 0 <= i < 26 ==> candidate[i] != letters[i] then Some(candidate)
      else KeyFrom(letters, draws[DrawsPerAttempt..])
  }

  /** A key of the cipher: each upper-case letter exactly once, none in its own place. */
  predicate IsDerangement(key: string) {
    |key| == 26 &&
    (forall c :: multiset(key)[c] == if IsUpper(c) then 1 else 0) &&
    forall i :: 0 <= i < 26 ==> key[i] != (65 + i) as char
  }

  /** Every key the generator returns rearranges `letters` and moves every letter. */
  lemma {:induction false} KeyFromRearranges(letters: seq<char>, draws: seq<nat>)
    requires |letters| == 26
    ensures KeyFrom(letters, draws).Some? ==>
              |KeyFrom(letters, draws).value| == 26 &&
              multiset(KeyFrom(letters, draws).value) == multiset(letters) &&
              forall i :: 0 <= i < 26 ==> KeyFrom(letters, draws).value[i] != letters[i]
    decreases |draws|
  {
    if |draws| >= DrawsPerAttempt {
      var candidate := Shuffled(letters, draws[..DrawsPerAttempt]);
      if forall i :: 0 <= i < 26 ==> candidate[i] != letters[i] {
        ShuffledPermutes(letters, draws[..DrawsPerAttempt]);
      } else {
        KeyFromRearranges(letters, draws[DrawsPerAttempt..]);
      }
    }
  }

  /** In a sequence without repeats, each element occurs once. */
  lemma {:induction false} DistinctCount(s: seq<char>, c: char)
    requires forall i, j :: 0 <= i < j < |s| ==> s[i] != s[j]
    ensures multiset(s)[c] == if c in s then 1 else 0
    decreases |s|
  {
    if s != [] {
      var init, last := s[..|s| - 1], s[|s| - 1];
      assert s == init + [last];
      DistinctCount(init, c);
      assert last !in init by {
        forall i | 0 <= i < |init| ensures init[i] != last {
          assert init[i] == s[i];
        }
      }
      assert c in s <==> c in init || c == last;
    }
  }

  /** chr(65), ..., chr(90) hold each upper-case letter once and nothing else. */
  lemma LetterRangeCount(s: seq<char>, c: char)
    requires IsLetterRange(s)
    ensures multiset(s)[c] == if IsUpper(c) then 1 else 0
  {
    DistinctCount(s, c);
    if IsUpper(c) {
      assert s[c as int - 65] == c;
    }
  }

  /** Whatever the draws, a key generated from chr(65), ..., chr(90) is a derangement of A-Z. */
  lemma KeyFromIsDerangement(letters: seq<char>, draws: seq<nat>)
    requires IsLetterRange(letters)
    ensures KeyFrom(letters, draws).Some? ==> IsDerangement(KeyFrom(letters, draws).value)
  {
    KeyFromRearranges(letters, draws);
    if KeyFrom(letters, draws).Some? {
      forall c ensures multiset(KeyFrom(letters, draws).value)[c] == if IsUpper(c) then 1 else 0 {
        LetterRangeCount(letters, c);
      }
    }
  }

  /** [chr(i) for i in range(65, 91)] */
  method NewLetters() returns (letters: array<char>)
    ensures fresh(letters) && IsLetterRange(letters[..])
  {
    letters := new char[26];
    forall i | 0 <= i < 26 {
      letters[i] := (65 + i) as char;
    }
  }

  /** generate_cryptogram_key. */
  method GenerateKey(draws: seq<nat>) returns (key: Option<string>)
    ensures exists letters :: IsLetterRange(letters) && key == KeyFrom(letters, draws)
    ensures key.Some? ==> IsDerangement(key.value)
  {
    var letters := NewLetters();
    ghost var original := letters[..];
    var rest := draws;
    while |rest| >= DrawsPerAttempt
      invariant letters[..] == original
      invariant KeyFrom(original, rest) == KeyFrom(original, draws)
      decreases |rest|
    {
      var shuffled := new char[26];
      forall i | 0 <= i < 26 {
        shuffled[i] := letters[i];
      }
      assert shuffled[..] == original;
      Shuffle(shuffled, rest[..DrawsPerAttempt]);
      var valid := ScanFixedPoints(shuffled, letters);
      ghost var candidate := Shuffled(original, rest[..DrawsPerAttempt]);
      assert shuffled[..] == candidate;
      assert valid <==> forall i :: 0 <= i < 26 ==> candidate[i] != original[i];
      if valid {
        key := Some(shuffled[..]);
        KeyFromIsDerangement(original, draws);
        return;
      }
      rest := rest[DrawsPerAttempt..];
    }
    key := None;
  }

  // ---------------------------------------------------------------------------
  // The keys against the Scryptogram checks

  /** Every key passes is_valid_scryptogram_cipher of the game validator. */
  lemma DerangementPassesCipherCheck(key: string)
    requires IsDerangement(key)
    ensures GameChecks.IsValidScryptogramCipher(key) == GameChecks.Pass
  {
    forall k | 0 <= k < |key| ensures IsUpper(key[k]) {
      assert key[k] in multiset(key);
    }
    assert IsUpper(key[0]);
    AlphabetCodes();
    assert GameChecks.NoFixedPoint(key);
  }

  /** Whatever the draws, a key the generator returns is accepted by the cipher check. */
  lemma GeneratedKeyPassesCipherCheck(letters: seq<char>, draws: seq<nat>)
    requires IsLetterRange(letters)
    ensures KeyFrom(letters, draws).Some? ==>
              GameChecks.IsValidScryptogramCipher(KeyFrom(letters, draws).value) == GameChecks.Pass
  {
    KeyFromIsDerangement(letters, draws);
    if KeyFrom(letters, draws).Some? {
      DerangementPassesCipherCheck(KeyFrom(letters, draws).value);
    }
  }
}
