/**
 * The orchestration in `main` of scripts/ai-run.mjs: up to three attempts of
 * generate → validate → dry run, feedback from a failed dry run carried into
 * the next prompt, and a single publishing run of scripts/ai-pr.mjs once a dry
 * run has passed. Subprocesses and the generator are oracles in `World`.
 */
module RetryLoop {

  import opened Wrappers
  import opened Strings
  import opened RequiredFiles
  import opened AgentCall

  // ----- tail -----

  /** `tail(text, n)`: the last `n` lines; `slice(-0)` keeps every line. */
  function Tail(text: string, n: nat): string {
    var arr := Lines(text);
    if n == 0 || n >= |arr| then Join(arr, "\n") else Join(arr[|arr| - n..], "\n")
  }

  /** A join of the lines from index `k` on is a suffix of the whole join. */
  lemma {:induction false} JoinFrom(xs: seq<string>, k: nat, sep: string)
    requires 0 < k < |xs|
    ensures Join(xs, sep) == Join(xs[..k], sep) + sep + Join(xs[k..], sep)
    decreases k
  {
    if k == 1 {
      assert xs[..1] == [xs[0]];
    } else {
      var rest := xs[1..];
      JoinFrom(rest, k - 1, sep);
      assert rest[..k - 1] == xs[1..k] && rest[k - 1..] == xs[k..];
      assert xs[..k][1..] == xs[1..k];
      var a, b, c := Join(xs[1..k], sep), Join(xs[k..], sep), xs[0] + sep;
      assert Join(xs, sep) == c + (a + sep + b);
      assert Join(xs[..k], sep) == c + a;
      AppendAssoc(c, a + sep, b);
      AppendAssoc(c, a, sep);
    }
  }

  /** `tail` returns a suffix of its input. */
  lemma TailSuffix(text: string, n: nat)
    ensures var t := Tail(text, n); |t| <= |text| && text[|text| - |t|..] == t
  {
    var arr := Lines(text);
    JoinSplit(text, '\n');
    if !(n == 0 || n >= |arr|) {
      JoinFrom(arr, |arr| - n, "\n");
    }
  }

  /** `tail(text, n)` has at most `n` lines for a positive `n`, and is the
      whole text when that already has no more than `n`. */
  lemma TailLines(text: string, n: nat)
    requires n > 0
    ensures |Lines(Tail(text, n))| <= n
    ensures |Lines(text)| <= n ==> Tail(text, n) == text
  {
    var arr := Lines(text);
    JoinSplit(text, '\n');
    if n < |arr| {
      var suffix := arr[|arr| - n..];
      forall k | 0 <= k < |suffix| ensures '\n' !in suffix[k] {
        assert suffix[k] == arr[|arr| - n + k];
      }
      SplitJoin(suffix, '\n');
    }
  }

  // ----- the attempt loop -----

  const MaxAttempts := 3

  /** The `extraRules` sentences added from the second attempt on. */
  const RetryRules :=
    "Your previous output was invalid or failed quality gates."
    + " Regenerate a correct unified diff with full headers and at least one @@ hunk per file."
    + " Do not output header-only diffs (e.g., index ...e69de29)."
    + " Include ALL required files listed in the instructions."
    + " Fix issues reported in the gates log if provided."

  /** The `extraRules` text of a prompt: empty on the first attempt. */
  function ExtraRules(p: Prompt): (r: string)
    ensures r == "" <==> !p.retryRules
  {
    if p.retryRules then RetryRules else ""
  }

  const DebugHeader := "# DRY_RUN_FAILED_GATES_LOG_TAIL"
  const GatesLogTailLines := 200

  /** The `previousOut` built after a failed dry run: the generator's last
      output, a blank line, the header and the gate log's last 200 lines. */
  function DryRunFeedback(lastOutput: Option<string>, gatesLog: Option<string>): (r: string)
    ensures lastOutput.Some? ==>
      var log := if gatesLog.Some? then gatesLog.value else "";
      r == lastOutput.value + "\n\n" + DebugHeader + "\n" + Tail(log, GatesLogTailLines) + "\n"
  {
    var log := if gatesLog.Some? then gatesLog.value else "";
    var debug := DebugHeader + "\n" + Tail(log, GatesLogTailLines);
    match lastOutput
    case Some(last) => last + "\n\n" + debug + "\n"
    case None => debug
  }

  /** What varies between the generator requests of one run: the required
      files the prompt lists and `callAgent` enforces, whether the retry
      rules are added (`ExtraRules` gives their text), the attempt number
      and the previous output. */
  datatype Prompt = Prompt(requiredFiles: seq<string>, retryRules: bool, attempt: nat, previousOut: string)

  /** What a dry run of scripts/ai-pr.mjs leaves: its exit status (`null`
      when killed) and `.ai/gates.log`, if written. */
  datatype DryRun = DryRun(status: Option<int>, gatesLog: Option<string>)

  /** The oracles: `callAgent` for each request, the dry run of each
      attempt and the status of the publishing run. */
  datatype World = World(
    agent: Prompt -> CallResult,
    dryRun: nat -> DryRun,
    publish: Option<int>)

  /** The `callAgent` oracle of a given generator, translator and
      `git apply --check`. */
  function AgentOf(generate: Prompt -> Option<string>, translator: string -> Option<string>,
                   applies: string -> bool): Prompt -> CallResult
  {
    p => CallAgent(generate(p), p.requiredFiles, translator, applies)
  }

  /** A dry run of scripts/ai-pr.mjs that exited 0. */
  predicate PassingDryRun(e: Event) {
    e.DryRunExit? && e.code == 0
  }

  datatype Event =
    | Generate(prompt: Prompt)
    | DryRunExit(attempt: nat, code: int)
    | Publish(code: int)

  datatype Reason =
    | Agent(failure: Failure)
    | DryRunFailed
    | BundleMissing
    | TaskMissing
    | TaskEmpty
    | GaveUp

  /** How one pass of the loop body ends: `continue` (or a caught error that
      is not rethrown) with the next `previousOut`, a throw out of `main`, or
      `success = true; break`. */
  datatype Step =
    | Retry(events: seq<Event>, previousOut: string)
    | Fail(events: seq<Event>, reason: Reason)
    | Pass(events: seq<Event>)

  /** The body of the `for` loop for one attempt. */
  function Attempt(w: World, required: seq<string>, attempt: nat, prev: string): (r: Step)
    requires 1 <= attempt <= MaxAttempts
    ensures attempt == MaxAttempts ==> !r.Retry?
    ensures attempt < MaxAttempts ==> !r.Fail?
    ensures |r.events| > 0 && r.events[0] == Generate(Prompt(required, attempt != 1, attempt, prev))
    ensures forall k :: 1 <= k < |r.events| ==> r.events[k] == DryRunExit(attempt, StatusOr1(w.dryRun(attempt).status))
    ensures r.Pass? ==> |r.events| == 2 && r.events[1] == DryRunExit(attempt, 0)
  {
    var prompt := Prompt(required, attempt != 1, attempt, prev);
    var call := w.agent(prompt);
    match call.failure
    case Some(f) =>
      if attempt == MaxAttempts then Fail([Generate(prompt)], Agent(f))
      else Retry([Generate(prompt)], if call.files.lastOutput.Some? then call.files.lastOutput.value else prev)
    case None =>
      var dry := w.dryRun(attempt);
      var code := StatusOr1(dry.status);
      var events := [Generate(prompt), DryRunExit(attempt, code)];
      if code != 0 then
        if attempt == MaxAttempts then Fail(events, DryRunFailed)
        else Retry(events, DryRunFeedback(call.files.lastOutput, dry.gatesLog))
      else Pass(events)
  }

  /** After a failed dry run on attempt 1 or 2 the next prompt carries the
      generator's output and the tail of the gate log; after a failed call it
      carries the raw output, when there was one. */
  lemma RetryFeedback(generate: Prompt -> Option<string>, translator: string -> Option<string>,
                      applies: string -> bool, dryRun: nat -> DryRun, publish: Option<int>,
                      required: seq<string>, attempt: nat, prev: string)
    requires 1 <= attempt < MaxAttempts
    ensures var w := World(AgentOf(generate, translator, applies), dryRun, publish);
      var out := generate(Prompt(required, attempt != 1, attempt, prev));
      var failed := CallAgent(out, required, translator, applies).failure.Some?;
      var log := if dryRun(attempt).gatesLog.Some? then dryRun(attempt).gatesLog.value else "";
      var r := Attempt(w, required, attempt, prev);
      && r.Retry? == (failed || StatusOr1(dryRun(attempt).status) != 0)
      && (!failed && StatusOr1(dryRun(attempt).status) != 0 ==>
            r.previousOut == out.value + "\n\n" + DebugHeader + "\n" + Tail(log, GatesLogTailLines) + "\n")
      && (failed && out.Some? ==> r.previousOut == out.value)
      && (out.None? ==> r.previousOut == prev)
  {
    var out := generate(Prompt(required, attempt != 1, attempt, prev));
    var call := CallAgent(out, required, translator, applies);
    assert AgentOf(generate, translator, applies)(Prompt(required, attempt != 1, attempt, prev)) == call;
  }

  /** How the loop ends: by a throw, by `break` after a passing dry run, or
      by running out of attempts with `success` still false. */
  datatype LoopEnd =
    | Thrown(events: seq<Event>, attempt: nat, reason: Reason)
    | Succeeded(events: seq<Event>)
    | Exhausted(events: seq<Event>, previousOut: string)

  function PrependEvents(ev: seq<Event>, e: LoopEnd): LoopEnd {
    match e
    case Thrown(es, a, why) => Thrown(ev + es, a, why)
    case Succeeded(es) => Succeeded(ev + es)
    case Exhausted(es, p) => Exhausted(ev + es, p)
  }

  /** `for (let attempt = …; attempt <= 3; attempt++)` from `attempt` on. */
  function Loop(w: World, required: seq<string>, attempt: nat, prev: string): LoopEnd
    requires attempt >= 1
    decreases MaxAttempts + 1 - attempt
  {
    if attempt > MaxAttempts then Exhausted([], prev)
    else match Attempt(w, required, attempt, prev)
      case Pass(ev) => Succeeded(ev)
      case Fail(ev, why) => Thrown(ev, attempt, why)
      case Retry(ev, p) => PrependEvents(ev, Loop(w, required, attempt + 1, p))
  }

  /** The loop never runs out of attempts: the third attempt either passes or
      throws, so the `!success` check after the loop can never fire. */
  lemma {:induction false} LoopNeverExhausted(w: World, required: seq<string>, attempt: nat, prev: string)
    requires 1 <= attempt <= MaxAttempts
    ensures !Loop(w, required, attempt, prev).Exhausted?
    decreases MaxAttempts - attempt
  {
    match Attempt(w, required, attempt, prev)
    case Pass(_) =>
    case Fail(_, _) =>
    case Retry(ev, p) =>
      LoopNeverExhausted(w, required, attempt + 1, p);
  }

  function GenerateCount(es: seq<Event>): nat {
    if |es| == 0 then 0 else (if es[0].Generate? then 1 else 0) + GenerateCount(es[1..])
  }

  function PublishCount(es: seq<Event>): nat {
    if |es| == 0 then 0 else (if es[0].Publish? then 1 else 0) + PublishCount(es[1..])
  }

  lemma {:induction false} CountsAppend(a: seq<Event>, b: seq<Event>)
    ensures GenerateCount(a + b) == GenerateCount(a) + GenerateCount(b)
    ensures PublishCount(a + b) == PublishCount(a) + PublishCount(b)
    decreases |a|
  {
    if |a| == 0 {
      AppendEmpty(b);
    } else {
      HeadTailAppend(a, b);
      CountsAppend(a[1..], b);
    }
  }

  /** One attempt asks the generator once and publishes nothing. */
  lemma AttemptCounts(w: World, required: seq<string>, attempt: nat, prev: string)
    requires 1 <= attempt <= MaxAttempts
    ensures GenerateCount(Attempt(w, required, attempt, prev).events) == 1
    ensures PublishCount(Attempt(w, required, attempt, prev).events) == 0
  {
    var es := Attempt(w, required, attempt, prev).events;
    var tl := es[1..];
    assert GenerateCount(es) == 1 + GenerateCount(tl);
    assert PublishCount(es) == PublishCount(tl);
    if |es| == 2 {
      assert tl[0] == es[1] && tl[0].DryRunExit?;
      assert |tl[1..]| == 0;
      assert GenerateCount(tl) == GenerateCount(tl[1..]);
      assert PublishCount(tl) == PublishCount(tl[1..]);
    } else {
      assert |es| == 1;
      assert |tl| == 0;
    }
  }

  /** At most one generator request per remaining attempt, and nothing is
      published inside the loop. */
  lemma {:induction false} LoopCounts(w: World, required: seq<string>, attempt: nat, prev: string)
    requires 1 <= attempt <= MaxAttempts + 1
    ensures GenerateCount(Loop(w, required, attempt, prev).events) <= MaxAttempts + 1 - attempt
    ensures PublishCount(Loop(w, required, attempt, prev).events) == 0
    decreases MaxAttempts + 1 - attempt
  {
    if attempt <= MaxAttempts {
      AttemptCounts(w, required, attempt, prev);
      var step := Attempt(w, required, attempt, prev);
      if step.Retry? {
        var rest := Loop(w, required, attempt + 1, step.previousOut);
        LoopCounts(w, required, attempt + 1, step.previousOut);
        CountsAppend(step.events, rest.events);
      }
    }
  }

  /** Every generator request in `es` names an attempt from `lo` to the
      last, the run's required files, and `extraRules` empty exactly on the
      first attempt. */
  predicate PromptsFrom(es: seq<Event>, lo: nat, required: seq<string>) {
    forall k :: 0 <= k < |es| && es[k].Generate? ==>
      && lo <= es[k].prompt.attempt <= MaxAttempts
      && es[k].prompt.requiredFiles == required
      && (ExtraRules(es[k].prompt) == "" <==> es[k].prompt.attempt == 1)
  }

  lemma PromptsAppend(a: seq<Event>, b: seq<Event>, lo: nat, required: seq<string>)
    requires PromptsFrom(a, lo, required) && PromptsFrom(b, lo, required)
    ensures PromptsFrom(a + b, lo, required)
  {
    forall k | 0 <= k < |a + b| && (a + b)[k].Generate?
      ensures lo <= (a + b)[k].prompt.attempt <= MaxAttempts
      ensures (a + b)[k].prompt.requiredFiles == required
      ensures ExtraRules((a + b)[k].prompt) == "" <==> (a + b)[k].prompt.attempt == 1
    {
      if k >= |a| {
        assert (a + b)[k] == b[k - |a|];
      } else {
        assert (a + b)[k] == a[k];
      }
    }
  }

  lemma AttemptPrompts(w: World, required: seq<string>, attempt: nat, prev: string)
    requires 1 <= attempt <= MaxAttempts
    ensures PromptsFrom(Attempt(w, required, attempt, prev).events, attempt, required)
  {
  }

  /** The attempt numbers of the generator requests in `es`, in order. */
  function AttemptNumbers(es: seq<Event>): (r: seq<nat>)
    ensures |r| == GenerateCount(es)
    decreases |es|
  {
    if |es| == 0 then []
    else (if es[0].Generate? then [es[0].prompt.attempt] else []) + AttemptNumbers(es[1..])
  }

  lemma {:induction false} AttemptNumbersAppend(a: seq<Event>, b: seq<Event>)
    ensures AttemptNumbers(a + b) == AttemptNumbers(a) + AttemptNumbers(b)
    decreases |a|
  {
    if |a| == 0 {
      AppendEmpty(b);
      AppendEmpty(AttemptNumbers(b));
    } else {
      HeadTailAppend(a, b);
      AttemptNumbersAppend(a[1..], b);
      AppendAssoc(if a[0].Generate? then [a[0].prompt.attempt] else [], AttemptNumbers(a[1..]), AttemptNumbers(b));
    }
  }

  /** `ns` is `lo, lo + 1, lo + 2, …`. */
  predicate CountsUpFrom(ns: seq<nat>, lo: nat) {
    forall j :: 0 <= j < |ns| ==> ns[j] == lo + j
  }

  lemma CountsUpCons(lo: nat, ns: seq<nat>)
    requires CountsUpFrom(ns, lo + 1)
    ensures CountsUpFrom([lo] + ns, lo)
  {
    forall j | 0 <= j < |[lo] + ns| ensures ([lo] + ns)[j] == lo + j {
      if j > 0 {
        assert ([lo] + ns)[j] == ns[j - 1];
      }
    }
  }

  /** One attempt makes one request, numbered with the attempt. */
  lemma AttemptNumbered(w: World, required: seq<string>, attempt: nat, prev: string)
    requires 1 <= attempt <= MaxAttempts
    ensures AttemptNumbers(Attempt(w, required, attempt, prev).events) == [attempt]
  {
    var es := Attempt(w, required, attempt, prev).events;
    var tl := es[1..];
    assert AttemptNumbers(es) == [attempt] + AttemptNumbers(tl);
    if |es| == 2 {
      assert tl[0] == es[1] && !tl[0].Generate?;
      assert |tl[1..]| == 0;
      assert AttemptNumbers(tl) == [] + AttemptNumbers(tl[1..]);
    } else {
      assert |tl| == 0;
    }
    AppendEmpty([attempt]);
  }

  /** Every generator request of the loop from `attempt` on names an attempt
      in range, with `extraRules` empty exactly on the first attempt, and the
      requests count the attempts up one by one from `attempt`. */
  lemma {:induction false} LoopPrompts(w: World, required: seq<string>, attempt: nat, prev: string)
    requires 1 <= attempt <= MaxAttempts + 1
    ensures PromptsFrom(Loop(w, required, attempt, prev).events, attempt, required)
    ensures CountsUpFrom(AttemptNumbers(Loop(w, required, attempt, prev).events), attempt)
    decreases MaxAttempts + 1 - attempt
  {
    if attempt <= MaxAttempts {
      var step := Attempt(w, required, attempt, prev);
      AttemptPrompts(w, required, attempt, prev);
      AttemptNumbered(w, required, attempt, prev);
      if step.Retry? {
        var rest := Loop(w, required, attempt + 1, step.previousOut);
        LoopPrompts(w, required, attempt + 1, step.previousOut);
        PromptsAppend(step.events, rest.events, attempt, required);
        AttemptNumbersAppend(step.events, rest.events);
        CountsUpCons(attempt, AttemptNumbers(rest.events));
      }
    }
  }

  /** A passing loop ends with the dry run of its last attempt exiting 0. */
  lemma {:induction false} SucceededAfterPassingDryRun(w: World, required: seq<string>, attempt: nat, prev: string)
    requires attempt >= 1
    requires Loop(w, required, attempt, prev).Succeeded?
    ensures var es := Loop(w, required, attempt, prev).events;
      |es| > 0 && es[|es| - 1].DryRunExit? && es[|es| - 1].code == 0
    decreases MaxAttempts + 1 - attempt
  {
    var step := Attempt(w, required, attempt, prev);
    if step.Retry? {
      SucceededAfterPassingDryRun(w, required, attempt + 1, step.previousOut);
    }
  }

  /** The loop as the source writes it: a counter, `previousOut`, `success`,
      `continue` and `break`. It computes the same end as `Loop`. */
  method RunLoop(w: World, required: seq<string>) returns (end: LoopEnd)
    ensures end == Loop(w, required, 1, "")
    ensures !end.Exhausted?
  {
    var previousOut := "";
    var events: seq<Event> := [];
    var attempt := 1;
    AppendEmpty(events);
    while true
      invariant 1 <= attempt <= MaxAttempts
      invariant Loop(w, required, 1, "") == PrependEvents(events, Loop(w, required, attempt, previousOut))
      decreases MaxAttempts - attempt
    {
      var step := Attempt(w, required, attempt, previousOut);
      match step
      case Pass(ev) =>
        return Succeeded(events + ev);
      case Fail(ev, why) =>
        return Thrown(events + ev, attempt, why);
      case Retry(ev, p) =>
        PrependTwice(events, ev, Loop(w, required, attempt + 1, p));
        events := events + ev;
        previousOut := p;
        attempt := attempt + 1;
    }
  }

  lemma PrependTwice(a: seq<Event>, b: seq<Event>, e: LoopEnd)
    ensures PrependEvents(a, PrependEvents(b, e)) == PrependEvents(a + b, e)
  {
    AppendAssoc(a, b, e.events);
  }

  // ----- main -----

  /** What `main` finds before the loop: the status of `pnpm ai:bundle`,
      whether the bundle file exists, and the task file's text. */
  datatype Setup = Setup(bundleStatus: Option<int>, bundleExists: bool, taskFile: Option<string>)

  datatype Exit = Exited(code: int) | Threw(reason: Reason)

  datatype Run = Run(events: seq<Event>, exit: Exit)

  /** The process exit code: an uncaught error exits 1. */
  function ExitCode(e: Exit): int {
    if e.Exited? then e.code else 1
  }

  /** `main` of scripts/ai-run.mjs. */
  function Main(s: Setup, w: World): (r: Run)
    ensures s.bundleStatus != Some(0) ==> r == Run([], Exited(StatusOr1(s.bundleStatus)))
    ensures r.exit != Threw(GaveUp)
  {
    if s.bundleStatus != Some(0) then Run([], Exited(StatusOr1(s.bundleStatus)))
    else if !s.bundleExists then Run([], Threw(BundleMissing))
    else if s.taskFile.None? then Run([], Threw(TaskMissing))
    else
      var task := Trim(s.taskFile.value);
      if task == "" then Run([], Threw(TaskEmpty))
      else
        LoopAndPublish(w, ParseRequiredFiles(task))
  }

  /** The loop of `main` on the parsed required files, followed by the
      publishing run once a dry run has passed. */
  function LoopAndPublish(w: World, required: seq<string>): (r: Run)
    ensures r.exit != Threw(GaveUp)
  {
    LoopNeverExhausted(w, required, 1, "");
    match Loop(w, required, 1, "")
    case Thrown(ev, _, why) => Run(ev, Threw(why))
    case Exhausted(ev, _) => Run(ev, Threw(GaveUp))
    case Succeeded(ev) =>
      var code := StatusOr1(w.publish);
      Run(ev + [Publish(code)], Exited(code))
  }

  /** The generator is asked at most three times, with retry rules exactly
      from the second request on; publishing happens at most once, as the
      last event, right after a dry run that exited 0, and then the process
      exits with the publishing run's status. */
  lemma LoopAndPublishProperties(w: World, required: seq<string>)
    ensures var r := LoopAndPublish(w, required);
      && GenerateCount(r.events) <= MaxAttempts
      && PublishCount(r.events) <= 1
      && PromptsFrom(r.events, 1, required)
      && CountsUpFrom(AttemptNumbers(r.events), 1)
    ensures var r := LoopAndPublish(w, required);
      PublishCount(r.events) == 1 ==>
        && |r.events| >= 2
        && r.events[|r.events| - 1] == Publish(StatusOr1(w.publish))
        && PassingDryRun(r.events[|r.events| - 2])
        && ExitCode(r.exit) == StatusOr1(w.publish)
  {
    var end := Loop(w, required, 1, "");
    LoopCounts(w, required, 1, "");
    LoopPrompts(w, required, 1, "");
    if end.Succeeded? {
      SucceededAfterPassingDryRun(w, required, 1, "");
      var code := StatusOr1(w.publish);
      CountsAppend(end.events, [Publish(code)]);
      PromptsAppend(end.events, [Publish(code)], 1, required);
      AttemptNumbersAppend(end.events, [Publish(code)]);
      assert AttemptNumbers([Publish(code)]) == [] + AttemptNumbers([]);
      AppendEmpty(AttemptNumbers(end.events));
    }
  }

  /** `main` as a whole: nothing happens before the bundle, the task file
      and its text are in place, and every generator request lists the
      required files parsed from the trimmed task text. */
  lemma MainProperties(s: Setup, w: World)
    ensures var r := Main(s, w);
      && GenerateCount(r.events) <= MaxAttempts
      && PublishCount(r.events) <= 1
    ensures var r := Main(s, w);
      !(s.bundleStatus == Some(0) && s.bundleExists && s.taskFile.Some? && Trim(s.taskFile.value) != "") ==>
        r.events == []
    ensures var r := Main(s, w);
      s.taskFile.Some? ==> PromptsFrom(r.events, 1, ParseRequiredFiles(Trim(s.taskFile.value)))
  {
    if s.bundleStatus == Some(0) && s.bundleExists && s.taskFile.Some? && Trim(s.taskFile.value) != "" {
      LoopAndPublishProperties(w, ParseRequiredFiles(Trim(s.taskFile.value)));
    }
  }

  /** Publishing happens exactly when some attempt's dry run exits 0. */
  lemma {:induction false} PublishIffPassingDryRun(w: World, required: seq<string>, attempt: nat, prev: string)
    requires attempt >= 1
    ensures Loop(w, required, attempt, prev).Succeeded? <==>
      exists k :: 0 <= k < |Loop(w, required, attempt, prev).events| &&
        PassingDryRun(Loop(w, required, attempt, prev).events[k])
    decreases MaxAttempts + 1 - attempt
  {
    if attempt <= MaxAttempts {
      var step := Attempt(w, required, attempt, prev);
      var es := Loop(w, required, attempt, prev).events;
      if step.Retry? {
        var rest := Loop(w, required, attempt + 1, step.previousOut);
        PublishIffPassingDryRun(w, required, attempt + 1, step.previousOut);
        assert es == step.events + rest.events;
        forall k | 0 <= k < |step.events| ensures !PassingDryRun(step.events[k]) {
        }
        if rest.Succeeded? {
          var j :| 0 <= j < |rest.events| && PassingDryRun(rest.events[j]);
          assert es[|step.events| + j] == rest.events[j];
        } else {
          forall k | 0 <= k < |es| ensures !PassingDryRun(es[k]) {
            if k >= |step.events| {
              assert es[k] == rest.events[k - |step.events|];
            }
          }
        }
      } else if step.Pass? {
        assert PassingDryRun(es[1]);
      } else {
        forall k | 0 <= k < |es| ensures !PassingDryRun(es[k]) {
        }
      }
    }
  }

  /** After the loop, the publishing run happens (once) exactly when one of
      the loop's dry runs exited 0. */
  lemma PublishOnceIffPassingDryRun(w: World, required: seq<string>)
    ensures var es := Loop(w, required, 1, "").events;
      PublishCount(LoopAndPublish(w, required).events) == 1 <==>
        exists k :: 0 <= k < |es| && PassingDryRun(es[k])
  {
    var end := Loop(w, required, 1, "");
    LoopCounts(w, required, 1, "");
    LoopNeverExhausted(w, required, 1, "");
    PublishIffPassingDryRun(w, required, 1, "");
    if end.Succeeded? {
      var one := [Publish(StatusOr1(w.publish))];
      CountsAppend(end.events, one);
      assert PublishCount(one) == 1 by { assert one[1..] == []; }
    }
  }
}
