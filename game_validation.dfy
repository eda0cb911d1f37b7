// The day loop of validate_json in validate_games.py. Calendar days are
// consecutive integers; the 'games' object maps a day to that day's list of
// game objects. The loop keeps the Lingo solutions and Scryptogram targets
// accepted so far, for the uniqueness checks, and a flag `valid` that starts
// true and is only ever cleared.

module GameValidation {
  import opened Text
  import opened GameChecks

  /** A game object: its 'type', and its 'config' object when there is one. */
  datatype Game = Game(kind: string, config: Option<map<string, string>>)

  /** The three variables the loop updates. */
  datatype Progress = Progress(lingo: set<string>, targets: set<string>, valid: bool)

  const Start: Progress := Progress({}, {}, true)

  function Lookup(days: map<int, seq<Game>>, day: int): Option<seq<Game>> {
    if day in days then Some(days[day]) else None
  }

  /** The first element of a day must be a Lingo game with a config holding a solution. */
  function StepLingo(p: Progress, g: Game): (r: Progress)
    ensures r.targets == p.targets
    ensures r.valid ==> p.valid
    ensures r.lingo == p.lingo || (r.valid == p.valid && exists x :: x !in p.lingo && r.lingo == p.lingo + {x})
  {
    if g.kind != "lingo" then p.(valid := false)
    else if g.config.None? || "solution" !in g.config.value then p.(valid := false)
    else
      var solution := g.config.value["solution"];
      if IsValidLingoSolution(solution, p.lingo).Fail? then p.(valid := false)
      else p.(lingo := p.lingo + {solution})
  }

  /** Whether a Scryptogram config object holds a target, a hint and a cipher. */
  predicate HasScryptogramFields(config: map<string, string>) {
    "target" in config && "hint" in config && "cipher" in config
  }

  /** The second element must be a Scryptogram game whose target, hint and cipher pass. */
  function StepScryptogram(p: Progress, g: Game): (r: Progress)
    ensures r.lingo == p.lingo
    ensures r.valid ==> p.valid
    ensures r.targets == p.targets || exists x :: x !in p.targets && r.targets == p.targets + {x}
  {
    if g.kind != "scryptogram" then p.(valid := false)
    else if g.config.None? || !HasScryptogramFields(g.config.value) then p.(valid := false)
    else
      var config := g.config.value;
      var afterTarget :=
        if IsValidScryptogramTarget(config["target"], p.targets).Fail? then p.(valid := false)
        else p.(targets := p.targets + {config["target"]});
      var afterHint :=
        if IsValidScryptogramHint(config["hint"]).Fail? then afterTarget.(valid := false)
        else afterTarget;
      if IsValidScryptogramCipher(config["cipher"]).Fail? then afterHint.(valid := false)
      else afterHint
  }

  /** One pass of the loop body: a missing day or one with fewer than two games fails. */
  function Step(p: Progress, entry: Option<seq<Game>>): (r: Progress)
    ensures r.valid ==> p.valid
    ensures p.lingo <= r.lingo && p.targets <= r.targets
  {
    match entry
    case None => p.(valid := false)
    case Some(games) =>
      if |games| < 2 then p.(valid := false)
      else StepScryptogram(StepLingo(p, games[0]), games[1])
  }

  /** The loop variables after the days first..last have been processed. */
  function Run(days: map<int, seq<Game>>, first: int, last: int): (r: Progress)
    ensures last < first ==> r == Start
    decreases last - first
  {
    if last < first then Start
    else Step(Run(days, first, last - 1), Lookup(days, last))
  }

  /**
   * validate_json after the file has been read: None stands for a document
   * without a 'games' object.
   */
  method ValidateGames(games: Option<map<int, seq<Game>>>, first: int, last: int)
    returns (valid: bool)
    ensures games.None? ==> !valid
    ensures games.Some? ==> valid == Run(games.value, first, last).valid
  {
    if games.None? {
      return false;
    }
    var days := games.value;
    var allLingoSolutions: set<string> := {};
    var allScryptogramTargets: set<string> := {};
    valid := true;
    var current := first;
    while current <= last
      invariant current == first || first <= current <= last + 1
      invariant Progress(allLingoSolutions, allScryptogramTargets, valid) ==
                Run(days, first, current - 1)
      decreases last - current
    {
      if current !in days {
        valid := false;
        current := current + 1;
        continue;
      }
      var game := days[current];
      if |game| < 2 {
        valid := false;
        current := current + 1;
        continue;
      }
      if game[0].kind != "lingo" {
        valid := false;
      } else if game[0].config.None? || "solution" !in game[0].config.value {
        valid := false;
      } else {
        var solution := game[0].config.value["solution"];
        var solutionCheck := IsValidLingoSolution(solution, allLingoSolutions);
        if solutionCheck.Fail? {
          valid := false;
        } else {
          allLingoSolutions := allLingoSolutions + {solution};
        }
      }
      if game[1].kind != "scryptogram" {
        valid := false;
      } else if game[1].config.None? || !HasScryptogramFields(game[1].config.value) {
        valid := false;
      } else {
        var config := game[1].config.value;
        var targetCheck := IsValidScryptogramTarget(config["target"], allScryptogramTargets);
        if targetCheck.Fail? {
          valid := false;
        } else {
          allScryptogramTargets := allScryptogramTargets + {config["target"]};
        }
        var hintCheck := IsValidScryptogramHint(config["hint"]);
        if hintCheck.Fail? {
          valid := false;
        }
        var cipherCheck := IsValidScryptogramCipher(config["cipher"]);
        if cipherCheck.Fail? {
          valid := false;
        }
      }
      current := current + 1;
    }
  }

  // ---------------------------------------------------------------------------
  // Properties of the day loop

  /** The checks of one day pass, whatever the flag was before. */
  predicate DayPasses(p: Progress, entry: Option<seq<Game>>) {
    Step(p.(valid := true), entry).valid
  }

  /** The flag after a day is the flag before it and that day's checks. */
  lemma StepValid(p: Progress, entry: Option<seq<Game>>)
    ensures Step(p, entry).valid == (p.valid && DayPasses(p, entry))
    ensures Step(p, entry).lingo == Step(p.(valid := true), entry).lingo
    ensures Step(p, entry).targets == Step(p.(valid := true), entry).targets
  {
  }

  /**
   * A day passes exactly when it has at least two games, element 0 is a
   * Lingo game whose solution passes, and element 1 is a Scryptogram game
   * whose target, hint and cipher all pass.
   */
  lemma DayPassesMeaning(p: Progress, entry: Option<seq<Game>>)
    ensures DayPasses(p, entry) <==>
              entry.Some? && |entry.value| >= 2 &&
              var lingo := entry.value[0];
              var scryptogram := entry.value[1];
              lingo.kind == "lingo" && lingo.config.Some? && "solution" in lingo.config.value &&
              IsValidLingoSolution(lingo.config.value["solution"], p.lingo).Pass? &&
              scryptogram.kind == "scryptogram" && scryptogram.config.Some? &&
              HasScryptogramFields(scryptogram.config.value) &&
              IsValidScryptogramTarget(scryptogram.config.value["target"], p.targets).Pass? &&
              IsValidScryptogramHint(scryptogram.config.value["hint"]).Pass? &&
              IsValidScryptogramCipher(scryptogram.config.value["cipher"]).Pass?
  {
  }

  /** Once cleared, the flag is never set back to true. */
  lemma {:induction false} FlagOnlyCleared(days: map<int, seq<Game>>, first: int, mid: int, last: int)
    requires first - 1 <= mid <= last
    ensures Run(days, first, last).valid ==> Run(days, first, mid).valid
    decreases last - mid
  {
    if mid < last {
      FlagOnlyCleared(days, first, mid, last - 1);
      StepValid(Run(days, first, last - 1), Lookup(days, last));
    }
  }

  /**
   * The overall result is true iff every day from first to last passes its
   * checks against the solutions and targets accepted before it; with
   * last < first there is no day and the result is true.
   */
  lemma {:induction false} ResultIffEveryDayPasses(days: map<int, seq<Game>>, first: int, last: int)
    ensures Run(days, first, last).valid <==>
              forall d :: first <= d <= last ==> DayPasses(Run(days, first, d - 1), Lookup(days, d))
    decreases last - first
  {
    if last >= first {
      ResultIffEveryDayPasses(days, first, last - 1);
      StepValid(Run(days, first, last - 1), Lookup(days, last));
    }
  }

  /** A missing day, or one with fewer than two games, fails and leaves both sets alone. */
  lemma IncompleteDayFails(p: Progress, entry: Option<seq<Game>>)
    requires entry.None? || |entry.value| < 2
    ensures Step(p, entry) == p.(valid := false)
  {
  }

  /** Such a day anywhere in the range makes the overall result false. */
  lemma IncompleteDayFailsRun(days: map<int, seq<Game>>, first: int, d: int, last: int)
    requires first <= d <= last
    requires d !in days || |days[d]| < 2
    ensures !Run(days, first, last).valid
  {
    assert !Run(days, first, d).valid;
    FlagOnlyCleared(days, first, d, last);
  }

  /** The solution a day adds to the Lingo set, if its Lingo game passes. */
  function AcceptedSolution(p: Progress, entry: Option<seq<Game>>): (r: Option<string>)
    ensures r.Some? ==> |r.value| == 5 && MatchesLettersPattern(r.value) && r.value !in p.lingo
  {
    match entry
    case None => None
    case Some(games) =>
      if |games| < 2 || games[0].kind != "lingo" || games[0].config.None? ||
         "solution" !in games[0].config.value then None
      else
        var solution := games[0].config.value["solution"];
        if IsValidLingoSolution(solution, p.lingo).Pass? then Some(solution) else None
  }

  /** The target a day adds to the Scryptogram set, if its target passes. */
  function AcceptedTarget(p: Progress, entry: Option<seq<Game>>): (r: Option<string>)
    ensures r.Some? ==> |r.value| > 25 && !HasWordRun(r.value, 13) && r.value !in p.targets &&
                        !Contains(r.value, EscapedQuotePair)
  {
    match entry
    case None => None
    case Some(games) =>
      if |games| < 2 then None
      else
        var s := games[1];
        if s.kind != "scryptogram" || s.config.None? || !HasScryptogramFields(s.config.value) then None
        else if IsValidScryptogramTarget(s.config.value["target"], p.targets).Pass? then
          Some(s.config.value["target"])
        else None
  }

  /** A day adds to each set exactly the value it accepted, and nothing else. */
  lemma StepSets(p: Progress, entry: Option<seq<Game>>)
    ensures Step(p, entry).lingo ==
              p.lingo + (if AcceptedSolution(p, entry).Some? then {AcceptedSolution(p, entry).value} else {})
    ensures Step(p, entry).targets ==
              p.targets + (if AcceptedTarget(p, entry).Some? then {AcceptedTarget(p, entry).value} else {})
  {
  }

  /**
   * The Lingo set is exactly the set of solutions accepted on the days so far,
   * so a value that was rejected, or sat on a day never checked, blocks no later day.
   */
  lemma {:induction false} LingoSetIsAccepted(days: map<int, seq<Game>>, first: int, last: int, x: string)
    ensures x in Run(days, first, last).lingo <==>
              exists d :: first <= d <= last &&
                AcceptedSolution(Run(days, first, d - 1), Lookup(days, d)) == Some(x)
    decreases last - first
  {
    if last >= first {
      LingoSetIsAccepted(days, first, last - 1, x);
      StepSets(Run(days, first, last - 1), Lookup(days, last));
    }
  }

  /** The Scryptogram set is exactly the set of targets accepted on the days so far. */
  lemma {:induction false} TargetSetIsAccepted(days: map<int, seq<Game>>, first: int, last: int, x: string)
    ensures x in Run(days, first, last).targets <==>
              exists d :: first <= d <= last &&
                AcceptedTarget(Run(days, first, d - 1), Lookup(days, d)) == Some(x)
    decreases last - first
  {
    if last >= first {
      TargetSetIsAccepted(days, first, last - 1, x);
      StepSets(Run(days, first, last - 1), Lookup(days, last));
    }
  }

  /** Uniqueness works across days: no solution is accepted on two different days. */
  lemma AcceptedSolutionsDistinct(days: map<int, seq<Game>>, first: int, d1: int, d2: int, x: string)
    requires first <= d1 < d2
    requires AcceptedSolution(Run(days, first, d1 - 1), Lookup(days, d1)) == Some(x)
    ensures AcceptedSolution(Run(days, first, d2 - 1), Lookup(days, d2)) != Some(x)
  {
    LingoSetIsAccepted(days, first, d2 - 1, x);
  }

  /** Likewise for Scryptogram targets. */
  lemma AcceptedTargetsDistinct(days: map<int, seq<Game>>, first: int, d1: int, d2: int, x: string)
    requires first <= d1 < d2
    requires AcceptedTarget(Run(days, first, d1 - 1), Lookup(days, d1)) == Some(x)
    ensures AcceptedTarget(Run(days, first, d2 - 1), Lookup(days, d2)) != Some(x)
  {
    TargetSetIsAccepted(days, first, d2 - 1, x);
  }

  /** Every accepted Lingo solution has five characters and matches the letters pattern. */
  lemma LingoSetWellFormed(days: map<int, seq<Game>>, first: int, last: int, x: string)
    requires x in Run(days, first, last).lingo
    ensures |x| == 5 && MatchesLettersPattern(x)
  {
    LingoSetIsAccepted(days, first, last, x);
  }
}
