/**
 * The branch transaction of scripts/ai-pr.mjs over an abstract repository:
 * refuse a dirty tree, reset a working branch to the base commit, check and
 * apply `patch.diff`, run the quality gates, and then either roll everything
 * back (on any failure, and always on a dry run) or commit, push and open a
 * pull request. Git's answers that the model does not derive from the
 * repository record, and every other subprocess, are oracles.
 */
module PrTransaction {

  import opened Wrappers
  import opened Strings

  // ----- the repository -----

  /** A commit: a root, or a child of its parent with a message. */
  datatype Sha = Root(id: nat) | Child(parent: Sha, message: string)

  /** `HEAD`: a (possibly unborn) branch, or a detached commit. */
  datatype Head = OnBranch(name: string) | Detached(at: Sha)

  /** The state the script reads and changes: `HEAD`, the local and remote
      branches, whether tracked files differ from `HEAD`, the untracked
      files, and `.ai/gates.log` and `.ai/gates.last.log` (which git does not
      track). */
  datatype Repo = Repo(
    head: Head,
    branches: map<string, Sha>,
    modified: bool,
    untracked: set<string>,
    remote: map<string, Sha>,
    gatesLog: Option<string>,
    gatesLastLog: Option<string>)

  /** What git guarantees of every repository: no branch is called `HEAD`. */
  predicate ValidRepo(r: Repo) {
    "HEAD" !in r.branches && r.head != OnBranch("HEAD")
  }

  /** `git rev-parse HEAD`; `None` on an unborn branch. */
  function HeadSha(r: Repo): (s: Option<Sha>)
    ensures r.head.Detached? ==> s == Some(r.head.at)
    ensures r.head.OnBranch? ==> (s.Some? <==> r.head.name in r.branches)
  {
    match r.head
    case OnBranch(n) => if n in r.branches then Some(r.branches[n]) else None
    case Detached(at) => Some(at)
  }

  /** `git rev-parse --abbrev-ref HEAD`: the branch, or `HEAD` when detached. */
  function AbbrevRef(r: Repo): string {
    match r.head
    case OnBranch(n) => n
    case Detached(_) => "HEAD"
  }

  /** `git status --porcelain` prints something. */
  predicate Dirty(r: Repo) {
    r.modified || r.untracked != {}
  }

  /** `git checkout -B name sha`: create or reset `name` to `sha` and switch
      to it. The tree is clean whenever the script runs it. */
  function CheckoutB(r: Repo, name: string, sha: Sha): (t: Repo)
    ensures t.head == OnBranch(name) && name in t.branches && t.branches[name] == sha
    ensures forall b :: b in r.branches && b != name ==> b in t.branches && t.branches[b] == r.branches[b]
  {
    r.(branches := r.branches[name := sha], head := OnBranch(name))
  }

  /** Resetting a branch twice to the same commit is resetting it once, and
      the result does not depend on whether the branch existed. */
  lemma CheckoutBIdempotent(r: Repo, name: string, sha: Sha)
    ensures CheckoutB(CheckoutB(r, name, sha), name, sha) == CheckoutB(r, name, sha)
    ensures CheckoutB(r.(branches := r.branches - {name}), name, sha) == CheckoutB(r, name, sha)
  {
    var once := CheckoutB(r, name, sha);
    assert once.branches[name := sha] == once.branches;
    assert (r.branches - {name})[name := sha] == r.branches[name := sha];
  }

  /** `git reset --hard sha`: move the current branch (or detached `HEAD`) to
      `sha` and discard tracked changes. */
  function ResetHard(r: Repo, sha: Sha): Repo {
    match r.head
    case OnBranch(n) => r.(branches := r.branches[n := sha], modified := false)
    case Detached(_) => r.(head := Detached(sha), modified := false)
  }

  /** `git clean -fd`: remove untracked files and directories. */
  function CleanFd(r: Repo): Repo {
    r.(untracked := {})
  }

  /** `git checkout name` on a clean tree: `HEAD` names the current state and
      changes nothing; an unknown name fails and changes nothing. */
  function Checkout(r: Repo, name: string): Repo {
    if name == "HEAD" then r
    else if name in r.branches then r.(head := OnBranch(name))
    else r
  }

  /** `git branch -D name`: refused for the branch that is checked out. */
  function DeleteBranch(r: Repo, name: string): Repo {
    if name in r.branches && r.head != OnBranch(name) then r.(branches := r.branches - {name})
    else r
  }

  /** `rollback({ baseBranch, baseSha, branch })`. */
  function Rollback(r: Repo, baseBranch: string, baseSha: Sha, branch: string): (t: Repo)
    ensures t.gatesLog == r.gatesLog && t.remote == r.remote
    ensures t.gatesLastLog == (if r.gatesLog.Some? then r.gatesLog else r.gatesLastLog)
  {
    var saved := if r.gatesLog.Some? then r.(gatesLastLog := r.gatesLog) else r;
    var back := Checkout(CleanFd(ResetHard(saved, baseSha)), baseBranch);
    if branch != "" && branch != baseBranch then DeleteBranch(back, branch) else back
  }

  /** The state `checkout -B` leaves when started from `r0` on its commit
      `baseSha`, before anything else touches the branches. */
  predicate OnWorkingBranch(s: Repo, r0: Repo, branch: string, baseSha: Sha) {
    s.head == OnBranch(branch) && s.branches == r0.branches[branch := baseSha]
  }

  /** From a branch, rollback restores `HEAD`, the base commit and a clean
      tree, and removes the working branch, including a branch of that name
      that existed before the run; it preserves the gate log. */
  lemma RollbackRestores(r0: Repo, s: Repo, branch: string)
    requires ValidRepo(r0) && r0.head.OnBranch? && r0.head.name in r0.branches && branch != ""
    requires OnWorkingBranch(s, r0, branch, r0.branches[r0.head.name])
    ensures var t := Rollback(s, AbbrevRef(r0), r0.branches[r0.head.name], branch);
      && t.head == r0.head
      && HeadSha(t) == HeadSha(r0)
      && !Dirty(t)
      && t.branches == (if branch == r0.head.name then r0.branches else r0.branches - {branch})
      && t.remote == s.remote
      && t.gatesLog == s.gatesLog
      && t.gatesLastLog == (if s.gatesLog.Some? then s.gatesLog else s.gatesLastLog)
  {
    var base := r0.head.name;
    var baseSha := r0.branches[base];
    var saved := if s.gatesLog.Some? then s.(gatesLastLog := s.gatesLog) else s;
    var reset := CleanFd(ResetHard(saved, baseSha));
    assert reset.branches == r0.branches[branch := baseSha];
    var back := Checkout(reset, base);
    assert back.head == r0.head;
    if branch != base {
      assert back.branches - {branch} == r0.branches - {branch};
    } else {
      assert r0.branches[branch := baseSha] == r0.branches;
    }
  }

  /** From a detached `HEAD`, `rollback` checks out `HEAD`, which stays on the
      working branch, and then cannot delete the branch it is on: the
      working branch survives, reset to the base commit. */
  lemma DetachedRollbackKeepsBranch(r0: Repo, s: Repo, branch: string)
    requires r0.head.Detached? && branch != "" && branch != "HEAD"
    requires OnWorkingBranch(s, r0, branch, r0.head.at)
    ensures var t := Rollback(s, AbbrevRef(r0), r0.head.at, branch);
      && t.head == OnBranch(branch) && t.head != r0.head
      && branch in t.branches && t.branches[branch] == r0.head.at
  {
  }

  /** Rollback as evidently intended: return to the recorded `HEAD` (checking
      out the base commit itself when it was detached) and delete the
      working branch unless it is the base branch. */
  function IntendedRollback(r: Repo, baseHead: Head, baseSha: Sha, branch: string): Repo {
    var saved := if r.gatesLog.Some? then r.(gatesLastLog := r.gatesLog) else r;
    var reset := CleanFd(ResetHard(saved, baseSha));
    var back := match baseHead
      case OnBranch(n) => Checkout(reset, n)
      case Detached(at) => reset.(head := Detached(at));
    if branch != "" && baseHead != OnBranch(branch) then DeleteBranch(back, branch) else back
  }

  /** The intended rollback restores `HEAD` exactly, attached or detached. */
  lemma IntendedRollbackRestores(r0: Repo, s: Repo, branch: string)
    requires ValidRepo(r0) && HeadSha(r0).Some? && branch != "" && branch != "HEAD"
    requires OnWorkingBranch(s, r0, branch, HeadSha(r0).value)
    ensures var t := IntendedRollback(s, r0.head, HeadSha(r0).value, branch);
      && t.head == r0.head
      && HeadSha(t) == HeadSha(r0)
      && !Dirty(t)
      && t.branches == (if r0.head == OnBranch(branch) then r0.branches else r0.branches - {branch})
  {
    var baseSha := HeadSha(r0).value;
    var saved := if s.gatesLog.Some? then s.(gatesLastLog := s.gatesLog) else s;
    var reset := CleanFd(ResetHard(saved, baseSha));
    assert reset.branches == r0.branches[branch := baseSha];
    if r0.head.OnBranch? {
      if r0.head.name != branch {
        assert reset.branches - {branch} == r0.branches - {branch};
      } else {
        assert r0.branches[branch := baseSha] == r0.branches;
      }
    } else {
      assert reset.branches - {branch} == r0.branches - {branch};
    }
  }

  /** On a branch the two rollbacks coincide. */
  lemma RollbacksAgreeOnBranch(s: Repo, base: string, baseSha: Sha, branch: string)
    requires base != "HEAD"
    ensures Rollback(s, base, baseSha, branch) == IntendedRollback(s, OnBranch(base), baseSha, branch)
  {
  }

  // ----- the quality gates -----

  /** One gate command and its arguments. */
  datatype GateStep = GateStep(cmd: string, args: seq<string>)

  const GateSteps := [
    GateStep("pnpm", ["test"]),
    GateStep("pnpm", ["lint"]),
    GateStep("pnpm", ["typecheck"]),
    GateStep("pnpm", ["format:check"])
  ]

  /** What a gate step does: its exit code (`null` when killed) and
      everything it wrote to stdout and stderr, in arrival order. */
  datatype GateRun = GateRun(code: Option<int>, output: string)

  /** `{ ok, log, code }` of `runGates`. */
  datatype Gates = Gates(ok: bool, log: string, code: int)

  /** The log line `runStreaming` writes before starting a command. */
  function CommandLine(step: GateStep): string {
    "\n$ " + step.cmd + " " + Join(step.args, " ") + "\n"
  }

  /** What step `k` contributes to the log. */
  function Piece(steps: seq<GateStep>, run: nat -> GateRun, k: nat): string
    requires k < |steps|
  {
    CommandLine(steps[k]) + run(k).output
  }

  /** `runGates` from step `i` on: stop at the first non-zero code. */
  function GatesFrom(steps: seq<GateStep>, run: nat -> GateRun, i: nat): (g: Gates)
    requires i <= |steps|
    ensures g.ok <==> g.code == 0
    decreases |steps| - i
  {
    if i == |steps| then Gates(true, "", 0)
    else
      var code := StatusOr1(run(i).code);
      if code != 0 then Gates(false, Piece(steps, run, i), code)
      else
        var rest := GatesFrom(steps, run, i + 1);
        Gates(rest.ok, Piece(steps, run, i) + rest.log, rest.code)
  }

  function RunGates(run: nat -> GateRun): Gates {
    GatesFrom(GateSteps, run, 0)
  }

  /** The log pieces of steps `i` up to (excluding) `n`, concatenated. */
  function Pieces(steps: seq<GateStep>, run: nat -> GateRun, i: nat, n: nat): string
    requires i <= n <= |steps|
    decreases n - i
  {
    if i == n then "" else Piece(steps, run, i) + Pieces(steps, run, i + 1, n)
  }

  predicate Passes(run: nat -> GateRun, k: nat) {
    StatusOr1(run(k).code) == 0
  }

  /** The number of steps `runGates` starts from `i` on: up to and
      including the first failing one. */
  function StepsRun(steps: seq<GateStep>, run: nat -> GateRun, i: nat): (n: nat)
    requires i <= |steps|
    ensures i <= n <= |steps|
    decreases |steps| - i
  {
    if i == |steps| then i
    else if !Passes(run, i) then i + 1
    else StepsRun(steps, run, i + 1)
  }

  /** `runGates` runs its steps in order and stops at the first failure:
      it succeeds iff every step exits 0; otherwise its code is the first
      failing step's code and every earlier step passed. Its log holds, for
      exactly the steps it ran, the command line and the output. */
  lemma {:induction false} GatesShortCircuit(steps: seq<GateStep>, run: nat -> GateRun, i: nat)
    requires i <= |steps|
    ensures var g := GatesFrom(steps, run, i);
      var n := StepsRun(steps, run, i);
      && (g.ok <==> forall k :: i <= k < |steps| ==> Passes(run, k))
      && (forall k :: i <= k < n - 1 ==> Passes(run, k))
      && (!g.ok ==> i < n && g.code == StatusOr1(run(n - 1).code) && !Passes(run, n - 1))
      && (g.ok ==> n == |steps|)
      && g.log == Pieces(steps, run, i, n)
    decreases |steps| - i
  {
    if i < |steps| {
      if Passes(run, i) {
        GatesShortCircuit(steps, run, i + 1);
      } else {
        assert Pieces(steps, run, i + 1, i + 1) == "";
        AppendEmpty(Piece(steps, run, i));
      }
    }
  }

  // ----- the transaction -----

  /** A captured `spawnSync`: its status (`null` when killed) and stderr. */
  datatype CmdRun = CmdRun(status: Option<int>, stderr: string)

  /** `git apply`: its outcome and what it leaves in the tree, whether it
      succeeded or not. */
  datatype ApplyRun = ApplyRun(run: CmdRun, touches: bool, creates: set<string>)

  /** The answers of the commands whose outcome the repository record does
      not decide. */
  datatype Oracles = Oracles(
    insideWorkTree: Option<int>,
    checkoutB: Option<int>,
    patchExists: bool,
    check: CmdRun,
    apply: ApplyRun,
    gates: nat -> GateRun,
    add: Option<int>,
    commit: Option<int>,
    push: Option<int>,
    prCreate: Option<int>)

  /** The command line: `argv`, the `Date.now()` text for the default
      branch name, and the PR body file's text when `AI_PR_BODY_FILE` names
      an existing file. */
  datatype Invocation = Invocation(argv: seq<string>, stamp: string, bodyFile: Option<string>)

  /** `argv[0] || \`feat/ai-${Date.now()}\``: never empty. */
  function BranchOf(inv: Invocation): (b: string)
    ensures b != ""
    ensures |inv.argv| > 0 && inv.argv[0] != "" ==> b == inv.argv[0]
  {
    if |inv.argv| > 0 && inv.argv[0] != "" then inv.argv[0] else "feat/ai-" + inv.stamp
  }

  function TitleOf(inv: Invocation): string {
    if |inv.argv| > 1 && inv.argv[1] != "" then inv.argv[1] else "chore: ai change"
  }

  predicate IsDryRun(inv: Invocation) {
    "--dry-run" in inv.argv
  }

  function PrBody(inv: Invocation): string {
    if inv.bodyFile.Some? then inv.bodyFile.value else ""
  }

  /** Where the run stopped. */
  datatype Stage =
    | NotARepo | DirtyTree | NoHead | CheckoutFailed
    | NoPatch | CheckFailed | ApplyFailed | GatesFailed | DryRunPassed
    | AddFailed | CommitFailed | PushFailed | PrFailed | Done

  /** The stages that end in `rollback`. */
  predicate RollsBack(st: Stage) {
    st.NoPatch? || st.CheckFailed? || st.ApplyFailed? || st.GatesFailed? || st.DryRunPassed?
  }

  /** The stages of the publishing path. */
  predicate Publishing(st: Stage) {
    st.AddFailed? || st.CommitFailed? || st.PushFailed? || st.PrFailed? || st.Done?
  }

  /** The process exit code, the final repository, and the arguments of
      `gh`, if it was started. */
  datatype Outcome = Outcome(stage: Stage, exit: int, repo: Repo, pr: Option<seq<string>>)

  /** The exit status of a fatal git error, such as `git rev-parse HEAD` in a
      repository with no commit yet; `capture` exits the process with it. */
  const GitFatal := 128

  const CheckFailedHeader := "[git apply --check failed]\n"
  const ApplyFailedHeader := "[git apply failed]\n"

  /** `writeGatesLog(text)`. */
  function WriteGatesLog(r: Repo, text: string): Repo {
    r.(gatesLog := Some(text))
  }

  /** The steps between `checkout -B` and the decision to roll back or
      publish, on the working branch `s`. */
  datatype TxEnd = Abort(stage: Stage, exit: int, repo: Repo) | Ready(repo: Repo)

  function Transact(s: Repo, o: Oracles, dry: bool): (e: TxEnd)
    ensures e.Abort? ==> RollsBack(e.stage) && (e.exit == 0 <==> e.stage.DryRunPassed?)
    ensures e.Abort? <==> (!o.patchExists || StatusOr1(o.check.status) != 0 ||
      StatusOr1(o.apply.run.status) != 0 || !RunGates(o.gates).ok || dry)
    ensures e.repo.head == s.head && e.repo.branches == s.branches && e.repo.remote == s.remote
    ensures e.repo.gatesLastLog == s.gatesLastLog
  {
    if !o.patchExists then Abort(NoPatch, 2, s)
    else
      var check := StatusOr1(o.check.status);
      if check != 0 then Abort(CheckFailed, check, WriteGatesLog(s, CheckFailedHeader + o.check.stderr + "\n"))
      else
        var applied := s.(modified := s.modified || o.apply.touches, untracked := s.untracked + o.apply.creates);
        var apply := StatusOr1(o.apply.run.status);
        if apply != 0 then Abort(ApplyFailed, apply, WriteGatesLog(applied, ApplyFailedHeader + o.apply.run.stderr + "\n"))
        else
          var gates := RunGates(o.gates);
          var logged := WriteGatesLog(applied, gates.log);
          if !gates.ok then Abort(GatesFailed, if gates.code != 0 then gates.code else 1, logged)
          else if dry then Abort(DryRunPassed, 0, logged)
          else Ready(logged)
  }

  /** The arguments of `gh pr create`. */
  function PrArgs(title: string, body: string): (args: seq<string>)
    ensures |args| >= 5 && args[..5] == ["pr", "create", "--title", title, "--fill"]
    ensures |args| > 5 <==> Trim(body) != ""
    ensures |args| > 5 ==> args[5..] == ["--body", body]
  {
    var base := ["pr", "create", "--title", title, "--fill"];
    if Trim(body) != "" then base + ["--body", body] else base
  }

  /** `git add -A`, `git commit -m title`, `git push -u origin branch`,
      `gh pr create`, each through `must`. */
  function Publish(s: Repo, o: Oracles, branch: string, parent: Sha, title: string, body: string): (out: Outcome)
    ensures Publishing(out.stage) && (out.exit == 0 <==> out.stage.Done?)
  {
    var add := StatusOr1(o.add);
    if add != 0 then Outcome(AddFailed, add, s, None)
    else
      var commit := StatusOr1(o.commit);
      if commit != 0 then Outcome(CommitFailed, commit, s, None)
      else
        var sha := Child(parent, title);
        var committed := s.(branches := s.branches[branch := sha], modified := false, untracked := {});
        var push := StatusOr1(o.push);
        if push != 0 then Outcome(PushFailed, push, committed, None)
        else
          var pushed := committed.(remote := committed.remote[branch := sha]);
          var pr := StatusOr1(o.prCreate);
          Outcome(if pr != 0 then PrFailed else Done, pr, pushed, Some(PrArgs(title, body)))
  }

  /** `main` of scripts/ai-pr.mjs. */
  function Main(inv: Invocation, r: Repo, o: Oracles): (out: Outcome)
    ensures out.stage.Done? <==> out.exit == 0 && !out.stage.DryRunPassed?
  {
    var branch := BranchOf(inv);
    var inside := StatusOr1(o.insideWorkTree);
    if inside != 0 then Outcome(NotARepo, inside, r, None)
    else if Dirty(r) then Outcome(DirtyTree, 2, r, None)
    else match HeadSha(r)
      case None => Outcome(NoHead, GitFatal, r, None)
      case Some(baseSha) =>
        var baseBranch := AbbrevRef(r);
        var co := StatusOr1(o.checkoutB);
        if co != 0 then Outcome(CheckoutFailed, co, r, None)
        else
          var s := CheckoutB(r, branch, baseSha);
          match Transact(s, o, IsDryRun(inv))
          case Abort(stage, code, t) => Outcome(stage, code, Rollback(t, baseBranch, baseSha, branch), None)
          case Ready(t) => Publish(t, o, branch, baseSha, TitleOf(inv), PrBody(inv))
  }

  // ----- properties of a whole run -----

  /** The run got past `checkout -B`: inside a work tree, clean, on a
      commit, and the working branch was created. */
  predicate Reached(r: Repo, o: Oracles) {
    StatusOr1(o.insideWorkTree) == 0 && !Dirty(r) && HeadSha(r).Some? && StatusOr1(o.checkoutB) == 0
  }

  /** Nothing is changed before the working branch exists; a dirty tree
      exits 2 without rollback. */
  lemma EarlyExitsUntouched(inv: Invocation, r: Repo, o: Oracles)
    ensures var out := Main(inv, r, o);
      !Reached(r, o) ==> out.repo == r && out.pr.None? && out.exit != 0
    ensures var out := Main(inv, r, o);
      StatusOr1(o.insideWorkTree) == 0 && Dirty(r) ==> out.stage == DirtyTree && out.exit == 2 && out.repo == r
  {
  }

  /** Each failure after the working branch exists, and a passing dry run,
      writes the gate log it is documented to write and exits with its own
      code; passing everything on a real run leads to publishing. */
  lemma FailurePaths(inv: Invocation, r: Repo, o: Oracles)
    requires Reached(r, o)
    ensures var out := Main(inv, r, o);
      var check := StatusOr1(o.check.status);
      var apply := StatusOr1(o.apply.run.status);
      var gates := RunGates(o.gates);
      && (!o.patchExists ==> out.stage == NoPatch && out.exit == 2 && out.repo.gatesLog == r.gatesLog)
      && (o.patchExists && check != 0 ==>
            out.stage == CheckFailed && out.exit == check
            && out.repo.gatesLog == Some(CheckFailedHeader + o.check.stderr + "\n"))
      && (o.patchExists && check == 0 && apply != 0 ==>
            out.stage == ApplyFailed && out.exit == apply
            && out.repo.gatesLog == Some(ApplyFailedHeader + o.apply.run.stderr + "\n"))
      && (o.patchExists && check == 0 && apply == 0 && !gates.ok ==>
            out.stage == GatesFailed && out.exit == gates.code && out.repo.gatesLog == Some(gates.log))
      && (o.patchExists && check == 0 && apply == 0 && gates.ok && IsDryRun(inv) ==>
            out.stage == DryRunPassed && out.exit == 0 && out.repo.gatesLog == Some(gates.log))
      && (o.patchExists && check == 0 && apply == 0 && gates.ok && !IsDryRun(inv) ==>
            Publishing(out.stage) && out.repo.gatesLog == Some(gates.log))
  {
  }

  /** A rollback keeps the gate log it found as `gates.last.log`. */
  lemma RollbackKeepsLastLog(inv: Invocation, r: Repo, o: Oracles)
    ensures var out := Main(inv, r, o);
      RollsBack(out.stage) ==>
        out.repo.gatesLastLog == (if out.repo.gatesLog.Some? then out.repo.gatesLog else r.gatesLastLog)
  {
    var out := Main(inv, r, o);
    if RollsBack(out.stage) {
      var baseSha := HeadSha(r).value;
      var s := CheckoutB(r, BranchOf(inv), baseSha);
      var e := Transact(s, o, IsDryRun(inv));
      assert out.repo == Rollback(e.repo, AbbrevRef(r), baseSha, BranchOf(inv));
    }
  }

  /** Every failure after the working branch exists, and every dry run that
      passes, ends in the base state: the original `HEAD` and commit, a
      clean tree, the remote untouched, and the working branch gone unless
      it is the base branch itself. */
  lemma FailuresRollBack(inv: Invocation, r: Repo, o: Oracles)
    requires ValidRepo(r) && r.head.OnBranch?
    ensures var out := Main(inv, r, o);
      var branch := BranchOf(inv);
      RollsBack(out.stage) ==>
        && out.repo.head == r.head
        && HeadSha(out.repo) == HeadSha(r)
        && !Dirty(out.repo)
        && out.repo.branches == (if branch == r.head.name then r.branches else r.branches - {branch})
        && out.repo.remote == r.remote
        && out.pr.None?
  {
    var out := Main(inv, r, o);
    if RollsBack(out.stage) {
      var baseSha := HeadSha(r).value;
      var s := CheckoutB(r, BranchOf(inv), baseSha);
      var e := Transact(s, o, IsDryRun(inv));
      assert OnWorkingBranch(e.repo, r, BranchOf(inv), baseSha);
      assert out.repo == Rollback(e.repo, AbbrevRef(r), baseSha, BranchOf(inv));
      RollbackRestores(r, e.repo, BranchOf(inv));
    }
  }

  /** A dry run never publishes: from a branch it leaves `HEAD`, the remote
      and every surviving branch as they were, and adds no commit. */
  lemma DryRunLeavesNothing(inv: Invocation, r: Repo, o: Oracles)
    requires ValidRepo(r) && r.head.OnBranch? && IsDryRun(inv)
    ensures var out := Main(inv, r, o);
      && !Publishing(out.stage) && out.pr.None?
      && out.repo.head == r.head && out.repo.remote == r.remote
      && (forall b :: b in out.repo.branches ==> b in r.branches && out.repo.branches[b] == r.branches[b])
      && (out.exit == 0 <==> out.stage == DryRunPassed)
  {
    FailuresRollBack(inv, r, o);
  }

  /** The publishing steps from the working branch `s`: no rollback, the
      branch stays checked out; once `git commit` succeeds the branch holds
      exactly one new commit, titled with the title, on top of `parent`; the
      push publishes that commit; any failing step exits with its own
      status. */
  lemma PublishSteps(s: Repo, o: Oracles, branch: string, parent: Sha, title: string, body: string)
    ensures var out := Publish(s, o, branch, parent, title, body);
      var commit := Child(parent, title);
      && out.repo.head == s.head
      && (forall b :: b in s.branches && b != branch ==> b in out.repo.branches && out.repo.branches[b] == s.branches[b])
      && (out.stage.AddFailed? ==> out.exit == StatusOr1(o.add) && out.repo == s)
      && (out.stage.CommitFailed? ==> out.exit == StatusOr1(o.commit) && out.repo == s)
      && (!out.stage.AddFailed? && !out.stage.CommitFailed? ==>
            branch in out.repo.branches && out.repo.branches[branch] == commit && !Dirty(out.repo))
      && (out.stage.PushFailed? ==> out.exit == StatusOr1(o.push) && out.repo.remote == s.remote)
      && (out.stage.PrFailed? || out.stage.Done? ==>
            && branch in out.repo.remote && out.repo.remote[branch] == commit
            && out.pr == Some(PrArgs(title, body))
            && out.exit == StatusOr1(o.prCreate))
      && (out.pr.None? <==> !(out.stage.PrFailed? || out.stage.Done?))
  {
  }

  /** A run reaches the publishing steps only when it is not a dry run and
      the patch applied and passed every gate; those steps start on the
      working branch at the base commit and open the pull request with the
      title and the body file's text. */
  lemma PublishPath(inv: Invocation, r: Repo, o: Oracles)
    requires Publishing(Main(inv, r, o).stage)
    ensures Reached(r, o) && !IsDryRun(inv) && o.patchExists && RunGates(o.gates).ok
    ensures var out := Main(inv, r, o);
      var branch := BranchOf(inv);
      var s := CheckoutB(r, branch, HeadSha(r).value);
      var t := Transact(s, o, false);
      && t.Ready?
      && out == Publish(t.repo, o, branch, HeadSha(r).value, TitleOf(inv), PrBody(inv))
      && t.repo.head == OnBranch(branch)
      && t.repo.branches == r.branches[branch := HeadSha(r).value]
      && t.repo.remote == r.remote
  {
  }
}
