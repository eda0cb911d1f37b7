// validate_prompts.py: three checks on one prompt record and the date
// coverage pass of validate_json. A prompt record is a JSON object whose
// values are strings; days are consecutive integers, and parsing a 'Date'
// string (strptime, then strftime, in the source) is a parameter.

module PromptValidation {
  import opened Text

  type Prompt = map<string, string>

  // ---------------------------------------------------------------------------
  // check_prompt_format

  /** "Prompt for " followed by dddd-dd-dd, 21 characters in all. */
  predicate PlaceholderShape(s: string) {
    |s| == 21 && s[..11] == "Prompt for " &&
    IsDigit(s[11]) && IsDigit(s[12]) && IsDigit(s[13]) && IsDigit(s[14]) && s[15] == '-' &&
    IsDigit(s[16]) && IsDigit(s[17]) && s[18] == '-' &&
    IsDigit(s[19]) && IsDigit(s[20])
  }

  /**
   * re.match(r"^Prompt for \d{4}-\d{2}-\d{2}$", s): the placeholder shape,
   * where `$` also matches just before a final newline.
   */
  predicate MatchesPlaceholder(s: string) {
    PlaceholderShape(s) || (|s| == 22 && s[21] == '\n' && PlaceholderShape(s[..21]))
  }

  predicate AllDigits(s: string) {
    forall k :: 0 <= k < |s| ==> IsDigit(s[k])
  }

  /** Every "Prompt for YYYY-MM-DD" with digit groups of 4, 2 and 2 has the placeholder shape. */
  lemma PlaceholderFromParts(y: string, m: string, d: string)
    requires |y| == 4 && |m| == 2 && |d| == 2 && AllDigits(y) && AllDigits(m) && AllDigits(d)
    ensures PlaceholderShape("Prompt for " + y + "-" + m + "-" + d)
  {
    var s := "Prompt for " + y + "-" + m + "-" + d;
    assert s[..11] == "Prompt for ";
    assert s[11..15] == y && s[16..18] == m && s[19..21] == d;
  }

  /** ... and every string of that shape is such a "Prompt for YYYY-MM-DD". */
  lemma PlaceholderToParts(s: string)
    requires PlaceholderShape(s)
    ensures AllDigits(s[11..15]) && AllDigits(s[16..18]) && AllDigits(s[19..21])
    ensures s == "Prompt for " + s[11..15] + "-" + s[16..18] + "-" + s[19..21]
  {
    assert s == s[..11] + s[11..15] + s[15..16] + s[16..18] + s[18..19] + s[19..21];
  }

  /** The fields a prompt must have once its text is not the placeholder. */
  const RequiredFields: set<string> :=
    {"Lesson", "WeekDay", "WeekNum", "WeekLabel", "Month", "Link", "PromptLink"}

  /**
   * check_prompt_format. The source reads 'Date' for its messages whenever
   * 'Prompt' is present, so a record with a Prompt and no Date is outside
   * what it handles.
   */
  function CheckPromptFormat(p: Prompt): (ok: bool)
    requires "Prompt" in p ==> "Date" in p
    ensures "Prompt" !in p ==> ok
    ensures "Prompt" in p && MatchesPlaceholder(p["Prompt"]) ==> !ok
    ensures "Prompt" in p && !MatchesPlaceholder(p["Prompt"]) ==>
              (ok <==> forall f :: f in RequiredFields ==> f in p)
  {
    if "Prompt" !in p then true
    else if MatchesPlaceholder(p["Prompt"]) then false
    else if "Lesson" !in p then false
    else if "WeekDay" !in p then false
    else if "WeekNum" !in p then false
    else if "WeekLabel" !in p then false
    else if "Month" !in p then false
    else if "Link" !in p then false
    else if "Lesson" !in p then false
    else if "Prompt" !in p then false
    else if "PromptLink" !in p then false
    else true
  }

  /** The `$` of the pattern: a placeholder with a trailing newline is rejected too. */
  lemma PlaceholderWithNewlineRejected(p: Prompt)
    requires "Prompt" in p && "Date" in p && p["Prompt"] == "Prompt for 2025-03-03\n"
    ensures !CheckPromptFormat(p)
  {
    assert p["Prompt"][..21] == "Prompt for 2025-03-03";
  }

  // ---------------------------------------------------------------------------
  // check_youtube_link

  /** The rest of https?://(?:www\.)?HOST after the scheme name "http" or "https". */
  predicate MatchesAfterScheme(u: string, host: string) {
    StartsWith(u, "://") &&
    var v := u[3..];
    (StartsWith(v, "www.") && StartsWith(v[4..], host)) || StartsWith(v, host)
  }

  /** The pattern https?://(?:www\.)?HOST matched at the start of t. */
  predicate MatchesLinkPattern(t: string, host: string) {
    StartsWith(t, "http") &&
    var r := t[4..];
    (StartsWith(r, "s") && MatchesAfterScheme(r[1..], host)) || MatchesAfterScheme(r, host)
  }

  /** re.search: the pattern matches starting at some position of s. */
  predicate SearchLinkPattern(s: string, host: string) {
    exists i :: 0 <= i <= |s| && MatchesLinkPattern(s[i..], host)
  }

  /** The two patterns, in the source's order, with the escaped dot written plainly. */
  const YoutubeHosts: seq<string> := ["youtube.com/", "youtu.be/"]

  /** The loop over the patterns, returning at the first one that is found. */
  function AnyPatternFound(link: string, hosts: seq<string>): (found: bool)
    ensures found <==> exists k :: 0 <= k < |hosts| && SearchLinkPattern(link, hosts[k])
  {
    if hosts == [] then false
    else if SearchLinkPattern(link, hosts[0]) then true
    else
      assert forall k :: 1 <= k < |hosts| ==> hosts[k] == hosts[1..][k - 1];
      AnyPatternFound(link, hosts[1..])
  }

  /** A link to a video: one of the four literal URL prefixes for the host occurs in s. */
  predicate HasLinkTo(s: string, host: string) {
    Contains(s, "http://" + host) || Contains(s, "https://" + host) ||
    Contains(s, "http://www." + host) || Contains(s, "https://www." + host)
  }

  predicate IsYoutubeLink(s: string) {
    HasLinkTo(s, "youtube.com/") || HasLinkTo(s, "youtu.be/")
  }

  /** Matching the pattern at the start of t is starting with one of its four expansions. */
  lemma MatchesLinkPatternMeaning(t: string, host: string)
    ensures MatchesLinkPattern(t, host) <==>
              StartsWith(t, "http://" + host) || StartsWith(t, "https://" + host) ||
              StartsWith(t, "http://www." + host) || StartsWith(t, "https://www." + host)
  {
    assert "http://" + host == "http" + ("://" + host);
    assert "https://" + host == "http" + ("s" + ("://" + host));
    assert "http://www." + host == "http" + ("://" + ("www." + host));
    assert "https://www." + host == "http" + ("s" + ("://" + ("www." + host)));
    StartsWithConcat(t, "http", "://" + host);
    StartsWithConcat(t, "http", "s" + ("://" + host));
    StartsWithConcat(t, "http", "://" + ("www." + host));
    StartsWithConcat(t, "http", "s" + ("://" + ("www." + host)));
    if StartsWith(t, "http") {
      var r := t[4..];
      StartsWithConcat(r, "s", "://" + host);
      StartsWithConcat(r, "s", "://" + ("www." + host));
      StartsWithConcat(r, "://", host);
      StartsWithConcat(r, "://", "www." + host);
      if StartsWith(r, "://") {
        StartsWithConcat(r[3..], "www.", host);
      }
      if |r| >= 1 {
        var r1 := r[1..];
        StartsWithConcat(r1, "://", host);
        StartsWithConcat(r1, "://", "www." + host);
        if StartsWith(r1, "://") {
          StartsWithConcat(r1[3..], "www.", host);
        }
      }
    }
  }

  /** Searching for the pattern is finding one of the four literal prefixes. */
  lemma SearchLinkPatternMeaning(s: string, host: string)
    ensures SearchLinkPattern(s, host) <==> HasLinkTo(s, host)
  {
    forall i | 0 <= i <= |s|
      ensures MatchesLinkPattern(s[i..], host) <==>
                StartsWith(s[i..], "http://" + host) || StartsWith(s[i..], "https://" + host) ||
                StartsWith(s[i..], "http://www." + host) || StartsWith(s[i..], "https://www." + host)
    {
      MatchesLinkPatternMeaning(s[i..], host);
    }
  }

  /**
   * check_youtube_link: true without a Date, false without a PromptLink, and
   * otherwise true iff the link contains one of the YouTube URL forms.
   */
  function CheckYoutubeLink(p: Prompt): (ok: bool)
    ensures "Date" !in p ==> ok
    ensures "Date" in p && "PromptLink" !in p ==> !ok
    ensures "Date" in p && "PromptLink" in p ==> (ok <==> IsYoutubeLink(p["PromptLink"]))
  {
    if "Date" !in p then true
    else if "PromptLink" !in p then false
    else
      var link := p["PromptLink"];
      SearchLinkPatternMeaning(link, YoutubeHosts[0]);
      SearchLinkPatternMeaning(link, YoutubeHosts[1]);
      AnyPatternFound(link, YoutubeHosts)
  }

  // ---------------------------------------------------------------------------
  // check_escaped_quotes

  /** Length of the run of '"' characters at the start of t (the greedy "+). */
  function LeadingQuotes(t: string): (n: nat)
    ensures n <= |t|
    ensures forall k :: 0 <= k < n ==> t[k] == '"'
    ensures n < |t| ==> t[n] != '"'
  {
    if t == [] || t[0] != '"' then 0 else 1 + LeadingQuotes(t[1..])
  }

  /**
   * The raw pattern \"+\"+ is two runs of plain quotes, each of at least one:
   * the first run backs off by one so the second can take the last quote, so
   * it matches at the start of t exactly when t starts with two quotes or more.
   */
  predicate MatchesQuotePattern(t: string) {
    LeadingQuotes(t) >= 2
  }

  predicate SearchQuotePattern(s: string) {
    exists i :: 0 <= i <= |s| && MatchesQuotePattern(s[i..])
  }

  /** The pattern is found exactly when two plain double quotes stand side by side. */
  lemma SearchQuotePatternMeaning(s: string)
    ensures SearchQuotePattern(s) <==> Contains(s, "\"\"")
  {
    forall i | 0 <= i <= |s|
      ensures MatchesQuotePattern(s[i..]) <==> StartsWith(s[i..], "\"\"")
    {
      var t := s[i..];
      if StartsWith(t, "\"\"") {
        assert t[0] == '"' && t[1] == '"';
        assert LeadingQuotes(t) == 1 + LeadingQuotes(t[1..]);
        assert t[1..][0] == '"';
      }
    }
  }

  /** check_escaped_quotes: false iff Prompt and Date are present and the Prompt has "" in it. */
  function CheckEscapedQuotes(p: Prompt): (ok: bool)
    ensures "Prompt" !in p || "Date" !in p ==> ok
    ensures "Prompt" in p && "Date" in p ==> (!ok <==> Contains(p["Prompt"], "\"\""))
  {
    if "Prompt" !in p || "Date" !in p then true
    else
      SearchQuotePatternMeaning(p["Prompt"]);
      !SearchQuotePattern(p["Prompt"])
  }

  /** Despite its name, the check does not flag two escaped quotes \"\": no two quotes touch. */
  lemma EscapedQuotesNotFlagged(p: Prompt)
    requires "Prompt" in p && "Date" in p && p["Prompt"] == "\\\"\\\""
    ensures CheckEscapedQuotes(p)
  {
    var t := p["Prompt"];
    assert |t| == 4 && t[0] == '\\' && t[1] == '"' && t[2] == '\\' && t[3] == '"';
    forall i | 0 <= i <= |t| ensures !StartsWith(t[i..], "\"\"") {
      if i == 0 || i == 2 {
        assert t[i..][0] == '\\';
      } else if i == 1 {
        assert t[i..][1] == '\\';
      }
    }
  }

  // ---------------------------------------------------------------------------
  // validate_json: date coverage

  /** The day a prompt contributes: none without a 'Date' or when the Date does not parse. */
  function DateOf(p: Prompt, parse: string -> Option<int>): Option<int> {
    if "Date" in p then parse(p["Date"]) else None
  }

  /** The set json_dates that the loop over the prompts builds. */
  function PromptDates(prompts: seq<Prompt>, parse: string -> Option<int>): (dates: set<int>)
    ensures forall d :: d in dates <==>
              exists i :: 0 <= i < |prompts| && DateOf(prompts[i], parse) == Some(d)
  {
    if prompts == [] then {}
    else
      var init := prompts[..|prompts| - 1];
      var dates := PromptDates(init, parse);
      assert forall i :: 0 <= i < |init| ==> init[i] == prompts[i];
      match DateOf(prompts[|prompts| - 1], parse)
      case None => dates
      case Some(d) => dates + {d}
  }

  /** What the three checks report about one prompt; the source prints only the failures. */
  datatype Report = Report(prompt: Prompt, day: int, formatOk: bool, linkOk: bool, quotesOk: bool)

  function MakeReport(p: Prompt, day: int): Report
    requires "Date" in p
  {
    Report(p, day, CheckPromptFormat(p), CheckYoutubeLink(p), CheckEscapedQuotes(p))
  }

  /** The reports of the loop over the prompts: one per prompt whose Date parses to a day in range. */
  function CheckReports(prompts: seq<Prompt>, parse: string -> Option<int>, first: int, last: int): (reports: seq<Report>)
    ensures |reports| <= |prompts|
    ensures forall k :: 0 <= k < |reports| ==> first <= reports[k].day <= last
  {
    if prompts == [] then []
    else
      var init := prompts[..|prompts| - 1];
      var p := prompts[|prompts| - 1];
      var reports := CheckReports(init, parse, first, last);
      match DateOf(p, parse)
      case Some(d) => if first <= d <= last then reports + [MakeReport(p, d)] else reports
      case None => reports
  }

  /**
   * A prompt is checked exactly when its Date parses to a day between first
   * and last; one without a Date, or whose Date does not parse, is not.
   */
  lemma {:induction false} CheckedExactlyInRange(prompts: seq<Prompt>, parse: string -> Option<int>,
                                                 first: int, last: int, r: Report)
    ensures r in CheckReports(prompts, parse, first, last) <==>
              exists i :: 0 <= i < |prompts| && DateOf(prompts[i], parse) == Some(r.day) &&
                first <= r.day <= last && r == MakeReport(prompts[i], r.day)
  {
    if prompts != [] {
      var init := prompts[..|prompts| - 1];
      CheckedExactlyInRange(init, parse, first, last, r);
      assert forall i :: 0 <= i < |init| ==> init[i] == prompts[i];
    }
  }

  /** Whether a prompt's Date parses to a day between first and last. */
  predicate InRange(p: Prompt, parse: string -> Option<int>, first: int, last: int) {
    DateOf(p, parse).Some? && first <= DateOf(p, parse).value <= last
  }

  /** The positions of the prompts dated inside the range, in increasing order. */
  function ReportedIndices(prompts: seq<Prompt>, parse: string -> Option<int>, first: int, last: int): (idx: seq<nat>)
    ensures forall k :: 0 <= k < |idx| ==> idx[k] < |prompts|
    ensures forall j, k :: 0 <= j < k < |idx| ==> idx[j] < idx[k]
    ensures forall i :: 0 <= i < |prompts| ==> (i in idx <==> InRange(prompts[i], parse, first, last))
  {
    if prompts == [] then []
    else
      var n := |prompts| - 1;
      var idx := ReportedIndices(prompts[..n], parse, first, last);
      assert forall i :: 0 <= i < n ==> prompts[..n][i] == prompts[i];
      if InRange(prompts[n], parse, first, last) then idx + [n] else idx
  }

  /**
   * The reports come in prompt order, one for each prompt dated inside the
   * range and for no other: report k is the one of the k-th such prompt.
   */
  lemma {:induction false} CheckReportsInOrder(prompts: seq<Prompt>, parse: string -> Option<int>,
                                               first: int, last: int)
    ensures |CheckReports(prompts, parse, first, last)| == |ReportedIndices(prompts, parse, first, last)|
    ensures forall k :: 0 <= k < |ReportedIndices(prompts, parse, first, last)| ==>
              var i := ReportedIndices(prompts, parse, first, last)[k];
              DateOf(prompts[i], parse).Some? &&
              CheckReports(prompts, parse, first, last)[k] == MakeReport(prompts[i], DateOf(prompts[i], parse).value)
  {
    if prompts != [] {
      var n := |prompts| - 1;
      CheckReportsInOrder(prompts[..n], parse, first, last);
      assert forall i :: 0 <= i < n ==> prompts[..n][i] == prompts[i];
    }
  }

  /**
   * The loop over the prompts: collect each parsed date, and run the three
   * checks on the prompts in range, whose verdicts are only reported.
   */
  method CollectDates(prompts: seq<Prompt>, parse: string -> Option<int>, first: int, last: int)
    returns (jsonDates: set<int>, reports: seq<Report>)
    ensures jsonDates == PromptDates(prompts, parse)
    ensures reports == CheckReports(prompts, parse, first, last)
  {
    jsonDates, reports := {}, [];
    for i := 0 to |prompts|
      invariant jsonDates == PromptDates(prompts[..i], parse)
      invariant reports == CheckReports(prompts[..i], parse, first, last)
    {
      var prompt := prompts[i];
      assert prompts[..i + 1][..i] == prompts[..i];
      if "Date" in prompt {
        var parsed := parse(prompt["Date"]);
        if parsed.None? {
          // an unparsable date: skipped, and the prompt is not checked
          continue;
        }
        var day := parsed.value;
        jsonDates := jsonDates + {day};
        if day <= last && day >= first {
          var formatOk := CheckPromptFormat(prompt);
          var linkOk := CheckYoutubeLink(prompt);
          var quotesOk := CheckEscapedQuotes(prompt);
          reports := reports + [Report(prompt, day, formatOk, linkOk, quotesOk)];
        }
      }
    }
    assert prompts[..|prompts|] == prompts;
  }

  predicate StrictlyIncreasing(s: seq<int>) {
    forall i, j :: 0 <= i < j < |s| ==> s[i] < s[j]
  }

  /** The loop over the range: the days from first to last that have no prompt, in order. */
  method MissingDates(jsonDates: set<int>, first: int, last: int) returns (missing: seq<int>)
    ensures StrictlyIncreasing(missing)
    ensures forall d :: d in missing <==> first <= d <= last && d !in jsonDates
  {
    missing := [];
    var current := first;
    while current <= last
      invariant current == first || first <= current <= last + 1
      invariant StrictlyIncreasing(missing)
      invariant forall k :: 0 <= k < |missing| ==> missing[k] < current
      invariant forall d :: d in missing <==> first <= d < current && d !in jsonDates
      decreases last - current
    {
      if current !in jsonDates {
        missing := missing + [current];
      }
      current := current + 1;
    }
  }

  /**
   * validate_json after the file has been read; None stands for a document
   * without a 'prompts' array. The result says only whether every day of the
   * range has a prompt: the three checks never affect it.
   */
  method ValidatePrompts(prompts: Option<seq<Prompt>>, parse: string -> Option<int>, first: int, last: int)
    returns (ok: bool)
    ensures prompts.None? ==> !ok
    ensures prompts.Some? ==>
              (ok <==> forall d :: first <= d <= last ==> d in PromptDates(prompts.value, parse))
  {
    if prompts.None? {
      return false;
    }
    var jsonDates, reports := CollectDates(prompts.value, parse, first, last);
    var missing := MissingDates(jsonDates, first, last);
    if |missing| > 0 {
      assert missing[0] in missing;
      ok := false;
    } else {
      ok := true;
    }
  }

  /** The dates, and so the result, depend on the prompts' Date fields alone. */
  lemma {:induction false} DatesDependOnDateFieldsOnly(xs: seq<Prompt>, ys: seq<Prompt>, parse: string -> Option<int>)
    requires |xs| == |ys|
    requires forall i :: 0 <= i < |xs| ==> DateOf(xs[i], parse) == DateOf(ys[i], parse)
    ensures PromptDates(xs, parse) == PromptDates(ys, parse)
  {
    if xs != [] {
      var n := |xs| - 1;
      DatesDependOnDateFieldsOnly(xs[..n], ys[..n], parse);
    }
  }
}
