/**
 * The pure parts of scripts/ai-review.mjs: clipping the prompt's sections,
 * summarising the CI check runs, reading the PR number from the workflow's
 * event payload, and the texts that stand in for a missing TASK.md or an
 * empty review. The HTTP calls to GitHub and to the model are parameters.
 */
module Review {

  import opened Wrappers
  import opened Strings
  import opened Json

  // ---------------------------------------------------------------------
  // clip

  /** What `clip` appends to a text it cuts short. */
  const TruncatedTag := "\n\n[TRUNCATED]\n"

  /** `clip(s, maxChars)`: the text itself when it fits, otherwise its first
      `maxChars` characters followed by the tag. */
  function Clip(s: string, maxChars: nat): (r: string)
    ensures |s| <= maxChars ==> r == s
    ensures |s| > maxChars ==> |r| == maxChars + |TruncatedTag| && EndsWith(r, TruncatedTag)
  {
    if s == "" then ""
    else if |s| > maxChars then s[..maxChars] + TruncatedTag
    else s
  }

  /** The budgets `openaiReview` gives its three sections. */
  const TaskBudget: nat := 18000
  const ChecksBudget: nat := 6000
  const DiffBudget: nat := 90000

  /** A clipped text agrees with the original on every character the budget
      allows, and never exceeds the budget by more than the tag. */
  lemma ClipKeepsPrefix(s: string, maxChars: nat)
    ensures var r := Clip(s, maxChars);
      var k := if |s| < maxChars then |s| else maxChars;
      && k <= |r| && r[..k] == s[..k]
      && |r| <= maxChars + |TruncatedTag|
  {
  }

  /** Clipping leaves a text unchanged exactly when it fits, or when it
      already is its own first `maxChars` characters plus the tag. */
  lemma ClipFixedIff(s: string, maxChars: nat)
    ensures Clip(s, maxChars) == s <==> |s| <= maxChars || s == s[..maxChars] + TruncatedTag
  {
  }

  /** Clipping a clipped text with the same budget changes it no further
      than appending the tag to its cut once more: the first `maxChars`
      characters survive both rounds. */
  lemma ClipTwice(s: string, maxChars: nat)
    requires |s| > maxChars
    ensures Clip(Clip(s, maxChars), maxChars) == s[..maxChars] + TruncatedTag
  {
    var r := Clip(s, maxChars);
    assert r[..maxChars] == s[..maxChars];
  }

  // ---------------------------------------------------------------------
  // summarizeChecks

  /** The fields of a check run that the summary reads; `None` is a field the
      payload lacks or sets to `null`. */
  datatype CheckRun = CheckRun(name: Option<string>, conclusion: Option<string>, status: Option<string>)

  /** `v || fallback` on a string field. */
  function OrElse(v: Option<string>, fallback: string): (r: string)
    ensures r == fallback || (v.Some? && r == v.value)
    ensures fallback != "" ==> r != ""
  {
    if v.Some? && v.value != "" then v.value else fallback
  }

  const Unnamed := "(unnamed)"
  const Unknown := "unknown"
  const NoChecksFound := "(no checks found)"
  const NoCheckRuns := "(no check-runs)"

  function CheckName(c: CheckRun): (r: string)
    ensures r != ""
  {
    OrElse(c.name, Unnamed)
  }

  function CheckConclusion(c: CheckRun): (r: string)
    ensures r != ""
  {
    OrElse(c.conclusion, OrElse(c.status, Unknown))
  }

  /** The fallbacks in the order the source tries them: a non-empty name,
      else `(unnamed)`; a non-empty conclusion, else a non-empty status, else
      `unknown`. */
  lemma FallbackOrder(c: CheckRun)
    ensures (c.name.Some? && c.name.value != "") ==> CheckName(c) == c.name.value
    ensures !(c.name.Some? && c.name.value != "") ==> CheckName(c) == Unnamed
    ensures (c.conclusion.Some? && c.conclusion.value != "") ==> CheckConclusion(c) == c.conclusion.value
    ensures !(c.conclusion.Some? && c.conclusion.value != "") && c.status.Some? && c.status.value != ""
      ==> CheckConclusion(c) == c.status.value
    ensures !(c.conclusion.Some? && c.conclusion.value != "") && !(c.status.Some? && c.status.value != "")
      ==> CheckConclusion(c) == Unknown
  {
  }

  /** The line `- name: conclusion` of one check run. */
  function CheckLine(c: CheckRun): string {
    "- " + CheckName(c) + ": " + CheckConclusion(c)
  }

  function CheckLines(checks: seq<CheckRun>): (r: seq<string>)
    ensures |r| == |checks|
  {
    seq(|checks|, k requires 0 <= k < |checks| => CheckLine(checks[k]))
  }

  /** `summarizeChecks(checks)`. */
  function SummarizeChecks(checks: seq<CheckRun>): (r: string)
    ensures r != ""
  {
    if |checks| == 0 then NoChecksFound else Join(CheckLines(checks), "\n")
  }

  /** The placeholder appears exactly when there are no check runs: every
      real summary starts with the `- ` of its first line. */
  lemma NoChecksIff(checks: seq<CheckRun>)
    ensures SummarizeChecks(checks) == NoChecksFound <==> |checks| == 0
    ensures |checks| > 0 ==> StartsWith(SummarizeChecks(checks), "- ")
  {
    if |checks| > 0 {
      var lines := CheckLines(checks);
      JoinStartsWithFirst(lines, "\n");
      var r := SummarizeChecks(checks);
      assert r[..|lines[0]|] == lines[0];
      assert r[0] == lines[0][0] == '-';
      assert NoChecksFound[0] == '(';
    }
  }

  /** A check run whose name and status texts hold no line break. */
  predicate SingleLine(c: CheckRun) {
    && '\n' !in CheckName(c)
    && '\n' !in CheckConclusion(c)
  }

  lemma CheckLineSingle(c: CheckRun)
    requires SingleLine(c)
    ensures '\n' !in CheckLine(c)
  {
    assert CheckLine(c) == "- " + CheckName(c) + ": " + CheckConclusion(c);
  }

  /** Splitting the summary at line breaks gives back one line per check
      run, in order, each naming that run and its outcome. */
  lemma SummaryLines(checks: seq<CheckRun>)
    requires |checks| > 0
    requires forall k :: 0 <= k < |checks| ==> SingleLine(checks[k])
    ensures var lines := Lines(SummarizeChecks(checks));
      && |lines| == |checks|
      && forall k :: 0 <= k < |checks| ==>
           lines[k] == "- " + CheckName(checks[k]) + ": " + CheckConclusion(checks[k])
  {
    var lines := CheckLines(checks);
    forall k | 0 <= k < |lines| ensures '\n' !in lines[k] {
      CheckLineSingle(checks[k]);
    }
    SplitJoin(lines, '\n');
  }

  /** The summary `main` hands to the review: the placeholder for a head
      commit without a SHA, else the summary of the `check_runs` array (an
      empty list when the response has none). `runs` is GitHub's answer. */
  function ChecksSummary(headSha: Option<Json>, runs: Option<seq<CheckRun>>): (r: string)
    ensures r != ""
  {
    if !Truthy(headSha) then NoCheckRuns
    else SummarizeChecks(if runs.Some? then runs.value else [])
  }

  /** The three ways the summary can come out are told apart by its text. */
  lemma ChecksSummaryCases(headSha: Option<Json>, runs: Option<seq<CheckRun>>)
    ensures ChecksSummary(headSha, runs) == NoCheckRuns <==> !Truthy(headSha)
    ensures ChecksSummary(headSha, runs) == NoChecksFound <==>
      Truthy(headSha) && (runs.None? || |runs.value| == 0)
  {
    var list := if runs.Some? then runs.value else [];
    NoChecksIff(list);
    if Truthy(headSha) && |list| > 0 {
      var r := SummarizeChecks(list);
      assert r[0] == '-';
      assert NoCheckRuns[0] == '(';
    }
    assert NoCheckRuns != NoChecksFound by {
      assert NoCheckRuns[4] == 'c' && NoChecksFound[4] == 'c';
      assert |NoCheckRuns| != |NoChecksFound|;
    }
  }

  // ---------------------------------------------------------------------
  // getPrNumberFromEvent

  /** A JSON number, as `typeof n === "number"` sees it. */
  function NumberOf(v: Option<Json>): (r: Option<int>)
    ensures r.Some? <==> v.Some? && v.value.JNum?
  {
    if v.Some? && v.value.JNum? then Some(v.value.n) else None
  }

  /** `getPrNumberFromEvent(event)`. */
  function PrNumberFromEvent(event: Json): (r: Option<int>)
  {
    var n := NumberOf(Member(Member(Some(event), "pull_request"), "number"));
    if n.Some? then n else NumberOf(Member(Some(event), "number"))
  }

  /** `pull_request.number` wins whenever it is a number; the top-level
      `number` is read only when it is not; anything else gives `null`. */
  lemma PrNumberPrecedence(event: Json)
    ensures var inner := Member(Member(Some(event), "pull_request"), "number");
      var outer := Member(Some(event), "number");
      && (inner.Some? && inner.value.JNum? ==> PrNumberFromEvent(event) == Some(inner.value.n))
      && (!(inner.Some? && inner.value.JNum?) && outer.Some? && outer.value.JNum?
          ==> PrNumberFromEvent(event) == Some(outer.value.n))
      && (PrNumberFromEvent(event).None? <==>
          !(inner.Some? && inner.value.JNum?) && !(outer.Some? && outer.value.JNum?))
  {
  }

  /** Why `main` stops before contacting GitHub about the PR. */
  datatype EventError = NoPrNumber

  /** `main`'s guard `if (!prNumber) throw`: a missing number and the number
      0 both stop the run. */
  function PrNumberForRun(event: Json): (r: Result<int, EventError>)
    ensures r.Ok? ==> r.value != 0 && PrNumberFromEvent(event) == Some(r.value)
    ensures r.Err? <==> PrNumberFromEvent(event) in {None, Some(0)}
  {
    match PrNumberFromEvent(event)
    case None => Err(NoPrNumber)
    case Some(n) => if n == 0 then Err(NoPrNumber) else Ok(n)
  }

  /** A `pull_request.number` of 0 is still a number, so the top-level
      `number` is never consulted and the run stops. */
  lemma ZeroInnerNumberStops(pr: map<string, Json>, top: map<string, Json>)
    requires "number" in pr && pr["number"] == JNum(0)
    requires "pull_request" in top && top["pull_request"] == JObj(pr)
    ensures PrNumberForRun(JObj(top)).Err?
  {
  }

  /** An event for a pull request with a non-zero number yields that number. */
  lemma PullRequestEventNumber(n: int, rest: map<string, Json>)
    requires n != 0
    ensures PrNumberForRun(JObj(rest["pull_request" := JObj(map["number" := JNum(n)])])) == Ok(n)
  {
  }

  // ---------------------------------------------------------------------
  // readTaskMd, the review text, the comment

  const NoTaskMd := "(no .ai/TASK.md found in repo)"
  const EmptyTaskMd := "(empty .ai/TASK.md)"

  /** `readTaskMd()`: `content` is the file's text, `None` when it does not
      exist. A blank file is replaced by a placeholder, any other file is
      passed on untrimmed. */
  function ReadTaskMd(content: Option<string>): (r: string)
    ensures content.Some? && Trim(content.value) != "" ==> r == content.value
  {
    match content
    case None => NoTaskMd
    case Some(t) => if Trim(t) != "" then t else EmptyTaskMd
  }

  /** The TASK section of the prompt is never blank. */
  lemma TaskMdNeverBlank(content: Option<string>)
    ensures Trim(ReadTaskMd(content)) != ""
  {
    if content.None? {
      TrimKeepsFirst(NoTaskMd);
    } else if Trim(content.value) == "" {
      TrimKeepsFirst(EmptyTaskMd);
    }
  }

  /** Why `openaiReview` throws once the request is answered. */
  datatype ReviewError = ApiFailed | EmptyOutput

  /** The review text: `output_text` (absent reads as "") trimmed, an error
      when nothing is left. `ok` is `res.ok`. */
  function ReviewText(ok: bool, outputText: Option<string>): (r: Result<string, ReviewError>)
    ensures !ok ==> r == Err(ApiFailed)
    ensures r.Ok? ==> r.value != "" && Trim(r.value) == r.value
    ensures var t := if outputText.Some? then outputText.value else "";
      ok && Trim(t) != "" ==> r == Ok(Trim(t))
  {
    if !ok then Err(ApiFailed)
    else
      var out := Trim(if outputText.Some? then outputText.value else "");
      TrimIdempotent(if outputText.Some? then outputText.value else "");
      if out == "" then Err(EmptyOutput) else Ok(out)
  }

  /** A successful answer is refused exactly when it is all whitespace. */
  lemma EmptyOutputIff(outputText: Option<string>)
    ensures var t := if outputText.Some? then outputText.value else "";
      ReviewText(true, outputText) == Err(EmptyOutput) <==> forall i :: 0 <= i < |t| ==> IsWs(t[i])
  {
    TrimEmptyIff(if outputText.Some? then outputText.value else "");
  }

  /** The footer `main` appends to the review before posting it. */
  const CommentFooter := "\n\n---\n\n_This comment was generated by ai-review._"

  function CommentBody(review: string): (r: string)
    ensures EndsWith(r, CommentFooter)
  {
    review + CommentFooter
  }

  /** The posted comment gives back the review when its footer is cut off. */
  lemma CommentBodyRecovers(review: string)
    ensures var c := CommentBody(review);
      c[..|c| - |CommentFooter|] == review
  {
  }
}
