# cfm-prompts validators and cryptogram key generator, in Dafny

The repository keeps a JSON file of daily content. Three of its scripts are modelled here.

- **Game validator** (`validate_games.py`). Every calendar day from a fixed start date to a given end date must have a game list. Element 0 of the list is a Lingo game, whose `solution` must be five letters not accepted on an earlier day. Element 1 is a Scryptogram game:
  - its `target` sentence must be longer than 25 characters, have no word of more than 12 characters, repeat no earlier accepted target and hold no pair of escaped quotes;
  - its `hint` must be longer than 6 characters and contain a colon;
  - its `cipher` must be 26 characters that pass `str.isupper` (no lower-case letter, at least one upper-case letter; digits and punctuation are allowed) with no position holding its own alphabet letter.

  For each day, the validator prints the first failing condition of each check, or one error for a missing or short day. It returns one flag that starts true and is only ever cleared.
- **Prompt validator** (`validate_prompts.py`). It collects the dates of the prompt records and returns true exactly when every day from its start date to the end date has a prompt. For each prompt dated inside the range it also runs three checks, which print only their failures:
  - the text is not the placeholder "Prompt for YYYY-MM-DD", and the lesson, week, month and link fields are present;
  - the `PromptLink` contains http(s)://(www.)youtube.com/ or http(s)://(www.)youtu.be/ somewhere;
  - the text has no two adjacent double quotes.
- **Key generator** (`cryptogramKeys.py`). It shuffles A–Z until no letter stays in its own place, and returns the resulting cipher key.

Modules:
- `Text` holds the character classes and substring predicates.
- `GameChecks` holds the four content checks. Each one returns `Pass`, or `Fail` with the first failing condition as a value, standing for the source's message.
- `GameValidation` holds the day loop of the game validator. It is an imperative method, proved equal to a function `Run` over the days; that function's properties are lemmas.
- `PromptValidation` holds the three prompt checks and the date-coverage loops, written as methods.
- `CryptogramKeys` holds the generator. It is an imperative method over arrays: an in-place Fisher–Yates shuffle and the fixed-point scan, both proved against functions on sequences.

Modelling notes:
- **Days are integers.** Consecutive calendar days are consecutive integers. The start date is the parameter `first`: 2025-03-05 for the game validator (`validate_games.py:84`) and 2025-03-03 for the prompt validator (`validate_prompts.py:118`). The comments next to those lines give other dates; the code is followed. The end date is `last`. Parsing a prompt's `Date` string is the parameter `parse`, where `None` stands for a value `strptime` rejects.
- **Regular expressions use the semantics Python gives them, including `$`**, which also matches just before a final newline. As a result:
  - `"abcd\n"` passes the Lingo check (`LingoTrailingNewlineAccepted`);
  - a placeholder prompt followed by a newline is still rejected (`PlaceholderWithNewlineRejected`).

  The pattern `\"+\"+` is read from a raw string. It therefore matches two adjacent plain quotes, not the four characters `\"\"` (`EscapedQuotesNotFlagged`). The target check, on the other hand, looks for those four characters literally.
- **Randomness is a stream of draws.** `random.shuffle` is the Fisher–Yates pass CPython performs: from the last index down to 1, it swaps index `i` with `randbelow(i + 1)`, taken here as `draw % (i + 1)`. One attempt consumes 25 draws.

## Model

| member | source | states |
|---|---|---|
| GameChecks.LettersPatternMeaning | validate_games.py:14 | `^[a-zA-Z]+$` matches exactly a non-empty string of letters, optionally followed by one newline |
| GameChecks.MatchesLettersPattern | validate_games.py:14 | `re.match(r'^[a-zA-Z]+$')` by the greedy run of letters and Python's `$`; its meaning is `LettersPatternMeaning` |
| GameChecks.IsValidLingoSolution | validate_games.py:7-21 | passes iff the solution has 5 characters, fits the letters pattern and is unseen; each error is reported exactly when the checks before it pass and its own fails: the wrong length (with its value), the characters error, the duplicate |
| GameChecks.LingoAcceptance | validate_games.py:7-21 | without a trailing newline, a solution passes iff it is 5 letters and not among the accepted ones |
| GameChecks.LingoLengthReportedFirst | validate_games.py:10-19 | a duplicate of the wrong length is reported as a length error, not as a duplicate |
| GameChecks.LingoTrailingNewlineAccepted | validate_games.py:14 | four letters and a newline pass the Lingo check |
| GameChecks.Words | validate_games.py:31 | `re.findall(r'\w+')`, taken run by run from the left; its contract says only that every word is non-empty, and `LongWordIffLongRun` ties the words to runs of word characters in the text |
| GameChecks.FirstLongWord | validate_games.py:32-34 | None iff no word exceeds 12 characters; otherwise the first such word |
| GameChecks.LongWordIffLongRun | validate_games.py:31-34 | some word of `findall(r'\w+')` has at least `len` characters iff the text has `len` consecutive word characters |
| GameChecks.IsValidScryptogramTarget | validate_games.py:24-44 | passes iff longer than 25, with no run of 13 word characters, unseen, and without `\"\"`; each error is reported exactly when the checks before it pass and its own fails: too short (with its length), a long word, the duplicate, the escaped quotes; the reported word is the first word of the text longer than 12 |
| GameChecks.IsValidScryptogramHint | validate_games.py:47-57 | passes iff longer than 6 characters and containing ':'; a hint of at most 6 characters reports its length, a longer one without ':' reports the missing colon |
| GameChecks.FirstFixedPoint | validate_games.py:72-74 | None iff no position from i on holds its own alphabet letter; otherwise the first such position |
| GameChecks.IsValidScryptogramCipher | validate_games.py:60-76 | passes iff 26 characters, `isupper`, and no letter at its alphabet position; each error is reported exactly when the checks before it pass and its own fails; a fixed-point failure names the first such letter and its 1-based position |
| GameChecks.CipherAllowsRepeats | validate_games.py:60-76 | a cipher with repeated letters can pass: it need not be a permutation |
| GameValidation.StepLingo | validate_games.py:128-142 | the Lingo part of a day: it never touches the target set, only clears the flag, and either leaves the Lingo set alone or adds one new solution without clearing the flag |
| GameValidation.StepScryptogram | validate_games.py:144-172 | the Scryptogram part of a day: it never touches the Lingo set, only clears the flag, and adds at most one new target |
| GameValidation.Step | validate_games.py:110-174 | one day of the loop: the flag is only cleared and both sets only grow |
| GameValidation.Run | validate_games.py:103-174 | the loop variables after the days first..last; the initial state for an empty range |
| GameValidation.ValidateGames | validate_games.py:97-181 | false without a 'games' object; otherwise the flag the day loop leaves, equal to `Run` over the days first..last |
| GameValidation.StepValid | validate_games.py:105-172 | the flag after a day is the flag before it and that day's own checks; the sets do not depend on the flag |
| GameValidation.DayPassesMeaning | validate_games.py:113-172 | a day passes iff it has two or more games, game 0 is a Lingo game whose config has a solution that passes, and game 1 is a Scryptogram game whose config has target, hint and cipher, all three passing |
| GameValidation.FlagOnlyCleared | validate_games.py:105-172 | once a day has cleared the flag, no later day sets it back |
| GameValidation.ResultIffEveryDayPasses | validate_games.py:108-181 | the result is true iff every day in the range passes against the values accepted before it (so an empty range yields true) |
| GameValidation.IncompleteDayFails | validate_games.py:112-126 | a missing day, or one with fewer than two games, clears the flag and leaves both sets unchanged |
| GameValidation.IncompleteDayFailsRun | validate_games.py:112-126 | such a day anywhere in the range makes the result false |
| GameValidation.AcceptedSolution | validate_games.py:136-142 | the solution a day adds: it has 5 characters, fits the pattern and was not in the set |
| GameValidation.AcceptedTarget | validate_games.py:152-160 | the target a day adds: it passes every target check against the set before the day |
| GameValidation.StepSets | validate_games.py:136-160 | a day adds to each set exactly the solution or target it accepted, and nothing else |
| GameValidation.LingoSetIsAccepted | validate_games.py:136-142 | the Lingo set holds exactly the solutions that passed on some day so far |
| GameValidation.TargetSetIsAccepted | validate_games.py:152-160 | the target set holds exactly the targets that passed on some day so far |
| GameValidation.AcceptedSolutionsDistinct | validate_games.py:17-19 | no solution is accepted on two different days |
| GameValidation.AcceptedTargetsDistinct | validate_games.py:36-38 | no target is accepted on two different days |
| GameValidation.LingoSetWellFormed | validate_games.py:137-142 | every solution in the set has 5 characters and fits the letters pattern |
| PromptValidation.MatchesPlaceholder | validate_prompts.py:18-19 | `re.match(r"^Prompt for \d{4}-\d{2}-\d{2}$")`: the 21-character placeholder, optionally followed by one newline |
| PromptValidation.PlaceholderFromParts | validate_prompts.py:18 | every "Prompt for " + 4, 2 and 2 digits, joined by '-', has the placeholder shape |
| PromptValidation.PlaceholderToParts | validate_prompts.py:18 | every string of the placeholder shape is such a text |
| PromptValidation.CheckPromptFormat | validate_prompts.py:6-59 | true without a Prompt; false for the placeholder; otherwise true iff all of Lesson, WeekDay, WeekNum, WeekLabel, Month, Link and PromptLink are present |
| PromptValidation.PlaceholderWithNewlineRejected | validate_prompts.py:18-21 | a placeholder followed by a newline is rejected too |
| PromptValidation.AnyPatternFound | validate_prompts.py:84-86 | the loop over the patterns finds one iff one of them is found in the link |
| PromptValidation.MatchesLinkPattern | validate_prompts.py:79-82 | `https?://(?:www\.)?HOST` anchored at the start, with each optional part tried both ways |
| PromptValidation.SearchLinkPattern | validate_prompts.py:85 | `re.search`: the pattern matches from some position |
| PromptValidation.MatchesLinkPatternMeaning | validate_prompts.py:79-82 | `https?://(?:www\.)?HOST` matches at the start iff the text starts with one of its four expansions |
| PromptValidation.SearchLinkPatternMeaning | validate_prompts.py:79-86 | searching for the pattern is finding one of the four literal URL prefixes |
| PromptValidation.CheckYoutubeLink | validate_prompts.py:61-89 | true without a Date; false without a PromptLink; otherwise true iff the link contains http(s)://(www.)youtube.com/ or youtu.be/ |
| PromptValidation.SearchQuotePattern | validate_prompts.py:105-107 | `re.search(r'\"+\"+')`: a run of two quotes or more from some position |
| PromptValidation.SearchQuotePatternMeaning | validate_prompts.py:105-107 | `\"+\"+` is found iff two plain double quotes are adjacent |
| PromptValidation.CheckEscapedQuotes | validate_prompts.py:91-111 | true without a Prompt or a Date; otherwise false iff the text has two adjacent double quotes |
| PromptValidation.EscapedQuotesNotFlagged | validate_prompts.py:103-107 | the text `\"\"` (backslash, quote, backslash, quote) is not flagged |
| PromptValidation.PromptDates | validate_prompts.py:137-149 | a day is in the set iff some prompt has a Date that parses to it |
| PromptValidation.CheckReports | validate_prompts.py:139-146 | the verdicts of the three checks for the prompts in range; its contract says each report is for a day of the range and there are no more reports than prompts, and `CheckReportsInOrder` fixes order and multiplicity |
| PromptValidation.ReportedIndices | validate_prompts.py:138-143 | the positions of the prompts whose Date parses to a day of the range: strictly increasing, and a position is listed iff its prompt is in range |
| PromptValidation.CheckReportsInOrder | validate_prompts.py:138-146 | one report per in-range prompt, in prompt order: report k carries the three checks' results for the k-th prompt dated inside the range |
| PromptValidation.CheckedExactlyInRange | validate_prompts.py:139-146 | a prompt is checked, with the results of the three checks, iff its Date parses to a day of the range |
| PromptValidation.CollectDates | validate_prompts.py:136-149 | the loop builds exactly `PromptDates`, and reports the checks exactly as `CheckReports` |
| PromptValidation.MissingDates | validate_prompts.py:151-157 | the missing days are strictly increasing and are exactly the days of the range without a prompt |
| PromptValidation.ValidatePrompts | validate_prompts.py:113-166 | false without a 'prompts' array; otherwise true iff every day of the range has a prompt, whatever the checks say |
| PromptValidation.DatesDependOnDateFieldsOnly | validate_prompts.py:137-149 | the date set depends on the prompts' Date fields alone |
| CryptogramKeys.ShuffleSteps | cryptogramKeys.py:10 | the Fisher–Yates swaps for indices i down to 1, one draw each; the length is kept |
| CryptogramKeys.Shuffled | cryptogramKeys.py:10 | `random.shuffle` driven by the draws; the length is kept, and `ShuffledPermutes` shows the letters are too |
| CryptogramKeys.ShuffledPermutes | cryptogramKeys.py:9-10 | whatever the draws, the shuffle keeps the length and the multiset of letters |
| CryptogramKeys.Shuffle | cryptogramKeys.py:10 | shuffling the array in place leaves exactly `Shuffled` of its old contents |
| CryptogramKeys.ScanFixedPoints | cryptogramKeys.py:13-17 | valid iff no position holds the same letter in both arrays |
| CryptogramKeys.LetterRangeIsAlphabet | cryptogramKeys.py:5 | chr(65)..chr(90) is exactly the alphabet of the cipher check |
| CryptogramKeys.LetterRangeCount | cryptogramKeys.py:5 | those letters hold each upper-case letter once and nothing else |
| CryptogramKeys.KeyFrom | cryptogramKeys.py:8-20 | the first 25-draw attempt without a fixed point: a returned key has 26 letters, none in its place; too few draws give none |
| CryptogramKeys.KeyFromRearranges | cryptogramKeys.py:8-20 | a returned key rearranges the letters and moves every one of them |
| CryptogramKeys.KeyFromIsDerangement | cryptogramKeys.py:3-20 | a returned key holds each of A-Z exactly once and none at its own position |
| CryptogramKeys.NewLetters | cryptogramKeys.py:5 | a fresh array holding chr(65)..chr(90) |
| CryptogramKeys.GenerateKey | cryptogramKeys.py:3-20 | the method returns the first attempt without a fixed point, as `KeyFrom` over the letters says, and that key is a derangement of A-Z |
| CryptogramKeys.DerangementPassesCipherCheck | validate_games.py:60-76 | every derangement of A-Z passes the cipher check |
| CryptogramKeys.GeneratedKeyPassesCipherCheck | cryptogramKeys.py:3-20 | every generated key passes the cipher check of the game validator |

## Left out

- Reading the JSON file, its decode errors, the command-line arguments and every `print`. The two `validate_json` methods start from the decoded document, where `None` stands for a missing 'games' object or 'prompts' array. The messages are represented by error values and by the `Report`s that `CollectDates` returns.
- Parsing the end date and rejecting it: the end day is a parameter.
- Calendar arithmetic. A day is an integer, and a prompt's date is whatever the `parse` parameter gives. That is where `strptime`'s acceptance of forms such as "2025-3-5" lives.
- JSON values other than strings in the fields the checks read. Every config field and prompt field is taken as a string. The source also applies its checks to other values. A list-valued `hint` of 7 or more items, one of them `":"`, passes the hint check. A list-valued `solution`, `target` or `cipher` of the wrong length gets the ordinary length error. The model does not cover those cases.
- A game object without a 'type' makes the source raise KeyError, so `Game.kind` is always present.
- PromptValidation.CheckPromptFormat: requires a Date whenever a Prompt is present, because otherwise the source raises KeyError reading it. The only caller passes prompts that have a Date.
- Unicode. `\w`, `\d`, `[a-zA-Z]` and `str.isupper` are taken over ASCII characters. Python's `\w`, `\d` and `isupper` also accept other scripts.
- CryptogramKeys.GenerateKey: the source retries forever. Here it retries while the stream of draws lasts, and returns None when the stream runs out.
- CryptogramKeys.GenerateKey: the draws are arbitrary numbers, so how the keys are distributed, and how likely the retry loop is to stop, is not modelled. `randbelow` is `draw % (i + 1)`.
- CryptogramKeys.GenerateKey: its contract names the letter sequence through `exists letters :: IsLetterRange(letters)`. `LetterRangeIsAlphabet` shows that sequence is the alphabet.
- The loop at the bottom of `cryptogramKeys.py`, which prints 20 keys, and the `main` functions.
