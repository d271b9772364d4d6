/**
 * The prompt bundle of scripts/ai-bundle.mjs: fenced sections for the file
 * tree, the detected vitest config, the repository's config files that
 * exist and every agent prompt file, in that order. The file system is a
 * map from existing paths to their text; the two listing commands are
 * oracles.
 */
module Bundle {

  import opened Wrappers
  import opened Strings
  import opened PatchExtract

  // ----- fences -----

  /** `fence(lang, content)`: a null content counts as empty. */
  function Fence(lang: string, content: Option<string>): (r: string)
    ensures var body := TrimEnd(if content.Some? then content.value else "");
      && StartsWith(r, Opener(lang))
      && r[|Opener(lang)|..] == body + Closer + "\n\n"
  {
    var body := TrimEnd(if content.Some? then content.value else "");
    "```" + lang + "\n" + body + "\n```\n\n"
  }

  /** No closing fence starts inside the body of a fence whose body holds
      none: the closer's only line break is its first character, and the
      body is followed by a closer. */
  lemma NoCloserInBody(text: string, n: nat, b: string)
    requires n + |b| + |Closer| <= |text|
    requires text[n..n + |b|] == b && text[n + |b|..n + |b| + |Closer|] == Closer
    requires !Contains(b, Closer)
    ensures forall k :: n <= k < n + |b| ==> !OccursAt(text, Closer, k)
  {
    forall k | n <= k < n + |b| ensures !OccursAt(text, Closer, k) {
      if k + |Closer| <= n + |b| {
        SliceOfSlice(text, n, n + |b|, k - n, k - n + |Closer|);
        assert OccursAt(text, Closer, k) ==> OccursAt(b, Closer, k - n);
      } else {
        var d := n + |b| - k;
        assert text[n + |b|] == text[n + |b|..n + |b| + |Closer|][0] == '\n';
        assert text[k..k + |Closer|][d] == text[n + |b|];
        assert Closer[d] == '`';
      }
    }
  }

  /** A text that starts with the opener has its first match at index 0. */
  lemma OpenerAtStart(text: string, lang: string)
    requires |Opener(lang)| <= |text| && text[..|Opener(lang)|] == Opener(lang)
    ensures FindFrom(text, Opener(lang), 0) == Some(0)
  {
    assert text[0..|Opener(lang)|] == text[..|Opener(lang)|];
  }

  /** Too close to the end for another opener, nothing more is extracted. */
  lemma NothingNearEnd(text: string, lang: string, from: nat)
    requires |text| < from + |Opener(lang)|
    ensures ExtractFrom(text, lang, from) == []
  {
    assert FindFrom(text, Opener(lang), from) == None;
    assert NextBlock(text, lang, from) == None;
  }

  /** The first span of a text that starts with the opener is the `m`
      characters after it when a closer follows them and none starts
      among them. */
  lemma FirstSpan(text: string, lang: string, m: nat)
    requires |Opener(lang)| + m + |Closer| <= |text|
    requires text[..|Opener(lang)|] == Opener(lang)
    requires text[|Opener(lang)| + m..|Opener(lang)| + m + |Closer|] == Closer
    requires !Contains(text[|Opener(lang)|..|Opener(lang)| + m], Closer)
    ensures NextBlock(text, lang, 0) == Some((|Opener(lang)|, |Opener(lang)| + m))
  {
    var n := |Opener(lang)|;
    OpenerAtStart(text, lang);
    NoCloserInBody(text, n, text[n..n + m]);
    assert OccursAt(text, Closer, n + m);
    FindFromFirst(text, Closer, 0 + n, n + m);
    NextBlockAt(text, lang, 0, 0, n + m);
  }

  /** A first span whose closer is followed by at most two characters, too
      few for another opener, gives the only block. */
  lemma OnlySpan(text: string, lang: string, lo: nat, j: nat)
    requires NextBlock(text, lang, 0) == Some((lo, j))
    requires |text| <= j + |Closer| + 2
    ensures ExtractAllCodeBlocks(text, lang) == [TrimEnd(text[lo..j])]
  {
    NothingNearEnd(text, lang, j + |Closer|);
    ExtractStep(text, lang, 0, lo, j);
    AppendEmpty([TrimEnd(text[lo..j])]);
  }

  /** Where the parts of `fence(lang, c)` sit in its text. */
  lemma FenceLayout(lang: string, c: string)
    ensures var text, n, m := Fence(lang, Some(c)), |Opener(lang)|, |TrimEnd(c)|;
      && n + m + |Closer| + 2 == |text|
      && text[..n] == Opener(lang)
      && text[n..n + m] == TrimEnd(c)
      && text[n + m..n + m + |Closer|] == Closer
  {
    var text := Fence(lang, Some(c));
    var b := TrimEnd(c);
    var n, m := |Opener(lang)|, |b|;
    assert text[n..][..m] == b;
    assert text[n..n + m] == text[n..][..m];
    assert text[n..][m..m + |Closer|] == Closer;
    assert text[n + m..n + m + |Closer|] == text[n..][m..m + |Closer|];
  }

  /** A text laid out as opener, `m` characters without a closer, closer
      and two more characters yields exactly those `m` characters, trimmed. */
  lemma ExtractSingle(text: string, lang: string, m: nat)
    requires |Opener(lang)| + m + |Closer| + 2 == |text|
    requires text[..|Opener(lang)|] == Opener(lang)
    requires text[|Opener(lang)| + m..|Opener(lang)| + m + |Closer|] == Closer
    requires !Contains(text[|Opener(lang)|..|Opener(lang)| + m], Closer)
    ensures ExtractAllCodeBlocks(text, lang) == [TrimEnd(text[|Opener(lang)|..|Opener(lang)| + m])]
  {
    FirstSpan(text, lang, m);
    OnlySpan(text, lang, |Opener(lang)|, |Opener(lang)| + m);
  }

  /** Extracting `lang` blocks from `fence(lang, c)` gives back the trimmed
      body when that body holds no closing fence. */
  lemma FenceRoundTrip(lang: string, c: string)
    requires !Contains(TrimEnd(c), Closer)
    ensures ExtractAllCodeBlocks(Fence(lang, Some(c)), lang) == [TrimEnd(c)]
  {
    var text, n, m := Fence(lang, Some(c)), |Opener(lang)|, |TrimEnd(c)|;
    FenceLayout(lang, c);
    ExtractSingle(text, lang, m);
    TrimEndIdempotent(c);
    assert TrimEnd(text[n..n + m]) == TrimEnd(c);
  }

  /** When the trimmed body holds a closing fence, extraction cannot give
      it back: every extracted block is free of closers. */
  lemma FenceCutShort(lang: string, c: string)
    requires Contains(TrimEnd(c), Closer)
    ensures ExtractAllCodeBlocks(Fence(lang, Some(c)), lang) != [TrimEnd(c)]
  {
    var blocks := ExtractAllCodeBlocks(Fence(lang, Some(c)), lang);
    ExtractFromClean(Fence(lang, Some(c)), lang, 0);
    if |blocks| > 0 {
      assert CleanBlock(blocks[0]);
    }
  }

  // ----- reading files -----

  /** The files that exist, with their text. */
  type Files = map<string, string>

  /** `read(p)`: the text, or empty for a missing file. */
  function Read(fs: Files, p: string): string {
    if p in fs then fs[p] else ""
  }

  /** The `{ path, content }` of `readFirstMatch`; the path is `undefined`
      (`None`) only for an empty candidate list. */
  datatype Match = Match(path: Option<string>, content: string)

  /** `readFirstMatch(candidates)`. */
  function ReadFirstMatch(fs: Files, candidates: seq<string>): (r: Match)
    ensures |candidates| == 0 <==> r.path.None?
    decreases |candidates|
  {
    if |candidates| == 0 then Match(None, "")
    else if candidates[0] in fs then Match(Some(candidates[0]), fs[candidates[0]])
    else
      var rest := ReadFirstMatch(fs, candidates[1..]);
      if rest.path.Some? && rest.path.value in fs then rest else Match(Some(candidates[0]), "")
  }

  /** The first existing candidate wins, with its text; when none exists the
      result is the first candidate with empty text. */
  lemma {:induction false} ReadFirstMatchSpec(fs: Files, candidates: seq<string>)
    ensures var r := ReadFirstMatch(fs, candidates);
      && (forall k :: 0 <= k < |candidates| ==> candidates[k] !in fs) ==>
           r == (if |candidates| == 0 then Match(None, "") else Match(Some(candidates[0]), ""))
    ensures var r := ReadFirstMatch(fs, candidates);
      forall k :: (0 <= k < |candidates| && candidates[k] in fs &&
          (forall j :: 0 <= j < k ==> candidates[j] !in fs)) ==>
        r == Match(Some(candidates[k]), fs[candidates[k]])
    decreases |candidates|
  {
    if |candidates| > 0 && candidates[0] !in fs {
      var tail := candidates[1..];
      ReadFirstMatchSpec(fs, tail);
      forall k | 0 <= k < |candidates| && candidates[k] in fs && (forall j :: 0 <= j < k ==> candidates[j] !in fs)
        ensures ReadFirstMatch(fs, candidates) == Match(Some(candidates[k]), fs[candidates[k]])
      {
        assert tail[k - 1] == candidates[k];
        assert forall j :: 0 <= j < k - 1 ==> tail[j] == candidates[j + 1];
      }
      if forall k :: 0 <= k < |candidates| ==> candidates[k] !in fs {
        assert forall k :: 0 <= k < |tail| ==> tail[k] == candidates[k + 1];
      }
    }
  }

  // ----- the file tree -----

  /** A captured command: its status (`null` when killed) and stdout. */
  datatype CmdOut = CmdOut(status: Option<int>, stdout: string)

  /** `safeCmd`: the trimmed stdout of a command that exits 0, else empty. */
  function SafeCmd(c: CmdOut): (r: string)
    ensures c.status != Some(0) ==> r == ""
    ensures c.status == Some(0) ==> r == TrimEnd(c.stdout)
  {
    if c.status != Some(0) then "" else TrimEnd(c.stdout)
  }

  /** The paths the tree keeps: non-empty, outside `node_modules/` and `.git/`. */
  predicate KeepPath(p: string) {
    p != "" && !StartsWith(p, "node_modules/") && !StartsWith(p, ".git/")
  }

  /** The three `filter` calls, in order. */
  function KeepPaths(xs: seq<string>): (r: seq<string>)
    ensures |r| <= |xs|
    ensures forall k :: 0 <= k < |r| ==> KeepPath(r[k])
    decreases |xs|
  {
    if |xs| == 0 then []
    else if KeepPath(xs[0]) then [xs[0]] + KeepPaths(xs[1..])
    else KeepPaths(xs[1..])
  }

  /** A path is kept exactly when it is listed and passes the filter. */
  lemma {:induction false} KeepPathsMembers(xs: seq<string>, p: string)
    ensures p in KeepPaths(xs) <==> p in xs && KeepPath(p)
    decreases |xs|
  {
    if |xs| > 0 {
      KeepPathsMembers(xs[1..], p);
      assert xs == [xs[0]] + xs[1..];
    }
  }

  /** Filtering keeps the listing's order. */
  lemma {:induction false} KeepPathsAppend(xs: seq<string>, ys: seq<string>)
    ensures KeepPaths(xs + ys) == KeepPaths(xs) + KeepPaths(ys)
    decreases |xs|
  {
    if |xs| == 0 {
      AppendEmpty(ys);
      AppendEmpty(KeepPaths(ys));
    } else {
      HeadTailAppend(xs, ys);
      KeepPathsAppend(xs[1..], ys);
      if KeepPath(xs[0]) {
        AppendAssoc([xs[0]], KeepPaths(xs[1..]), KeepPaths(ys));
      }
    }
  }

  const TreeLimit := 400

  /** `.split("\n").filter(…).slice(0, 400)`: the first 400 kept paths. */
  function LimitedTree(tree: string): (r: seq<string>)
    ensures |r| <= TreeLimit
    ensures forall k :: 0 <= k < |r| ==> KeepPath(r[k]) && '\n' !in r[k]
  {
    var kept := KeepPaths(Lines(tree));
    KeptHaveNoBreak(Lines(tree));
    if |kept| <= TreeLimit then kept else kept[..TreeLimit]
  }

  lemma KeptHaveNoBreak(xs: seq<string>)
    requires forall k :: 0 <= k < |xs| ==> '\n' !in xs[k]
    ensures forall k :: 0 <= k < |KeepPaths(xs)| ==> '\n' !in KeepPaths(xs)[k]
  {
    forall k | 0 <= k < |KeepPaths(xs)| ensures '\n' !in KeepPaths(xs)[k] {
      KeepPathsMembers(xs, KeepPaths(xs)[k]);
    }
  }

  /** The listing in the bundle is, line by line, the kept paths in listing
      order, cut after the 400th; all of them when there are no more. */
  lemma LimitedTreeListing(tree: string)
    ensures var r := LimitedTree(tree); var kept := KeepPaths(Lines(tree));
      && |r| == (if |kept| <= TreeLimit then |kept| else TreeLimit)
      && r == kept[..|r|]
      && (|r| > 0 ==> Lines(Join(r, "\n")) == r)
  {
    var r := LimitedTree(tree);
    if |r| > 0 {
      SplitJoin(r, '\n');
    }
  }

  /** `safeCmd(git ls-files) || safeCmd(find …)`. */
  function FileTree(lsFiles: CmdOut, find: CmdOut): string {
    var t := SafeCmd(lsFiles);
    if t != "" then t else SafeCmd(find)
  }

  // ----- the bundle -----

  /** `f.endsWith(…)` chain choosing the fence language of a config file. */
  function LangFor(f: string): (lang: string)
    ensures lang == "json" <==> EndsWith(f, ".json")
    ensures lang == "yaml" <==> !EndsWith(f, ".json") && (EndsWith(f, ".yaml") || EndsWith(f, ".yml"))
    ensures lang == "js" <==> (!EndsWith(f, ".json") && !EndsWith(f, ".yaml") && !EndsWith(f, ".yml")
      && (EndsWith(f, ".js") || EndsWith(f, ".mjs")))
    ensures lang in {"json", "yaml", "js", "txt"}
  {
    if EndsWith(f, ".json") then "json"
    else if EndsWith(f, ".yaml") || EndsWith(f, ".yml") then "yaml"
    else if EndsWith(f, ".js") || EndsWith(f, ".mjs") then "js"
    else "txt"
  }

  /** One `---` section of the bundle. */
  datatype Section =
    | TreeSection(listing: string)
    | VitestSection(detected: Option<string>, content: string)
    | ContextFile(path: string, content: string)
    | AgentFile(path: string, content: string)

  /** The text of a section as the script appends it. */
  function SectionText(s: Section): string {
    match s
    case TreeSection(l) =>
      "---\n## REPO CONTEXT: file tree (top 400)\n\n" + Fence("txt", Some(if l != "" then l else "(file tree unavailable)"))
    case VitestSection(p, c) =>
      "---\n## REPO CONTEXT: vitest config\n\n### detected: " + (if p.Some? then p.value else "undefined") + "\n\n"
      + Fence("ts", Some(if c != "" then c else "(not found)"))
    case ContextFile(p, c) => "---\n## REPO CONTEXT FILE: " + p + "\n\n" + Fence(LangFor(p), Some(c))
    case AgentFile(p, c) => "---\n## FILE: " + p + "\n\n" + Fence("md", Some(c))
  }

  /** The `for … if (!exists(f)) continue` loop over the config files. */
  function ContextSections(fs: Files, candidates: seq<string>): (r: seq<Section>)
    ensures |r| <= |candidates|
    ensures forall k :: 0 <= k < |r| ==> r[k].ContextFile?
    decreases |candidates|
  {
    if |candidates| == 0 then []
    else if candidates[0] in fs then [ContextFile(candidates[0], fs[candidates[0]])] + ContextSections(fs, candidates[1..])
    else ContextSections(fs, candidates[1..])
  }

  /** A config file gets a section exactly when it is a candidate that
      exists, and the section holds its text. */
  lemma {:induction false} ContextSectionsMembers(fs: Files, candidates: seq<string>, p: string, c: string)
    ensures ContextFile(p, c) in ContextSections(fs, candidates) <==> p in candidates && p in fs && c == fs[p]
    decreases |candidates|
  {
    if |candidates| > 0 {
      ContextSectionsMembers(fs, candidates[1..], p, c);
      assert candidates == [candidates[0]] + candidates[1..];
    }
  }

  /** The loop over the agent files: every one, missing or not. */
  function AgentSections(fs: Files, files: seq<string>): (r: seq<Section>)
    ensures |r| == |files|
    ensures forall k :: 0 <= k < |r| ==> r[k] == AgentFile(files[k], Read(fs, files[k]))
  {
    seq(|files|, k requires 0 <= k < |files| => AgentFile(files[k], Read(fs, files[k])))
  }

  /** The sections in bundle order; `listing` is the file tree as the
      bundle shows it. */
  function Sections(fs: Files, listing: string, vitestCandidates: seq<string>,
                    contextCandidates: seq<string>, agentFiles: seq<string>): seq<Section>
  {
    var vitest := ReadFirstMatch(fs, vitestCandidates);
    [TreeSection(listing), VitestSection(vitest.path, vitest.content)]
    + ContextSections(fs, contextCandidates) + AgentSections(fs, agentFiles)
  }

  /** How the three groups sit in their concatenation: when the head is
      the tree and the vitest section, the middle holds only config files
      and the tail only agent files, no agent file precedes another kind. */
  lemma GroupsInOrder(head: seq<Section>, ctx: seq<Section>, ag: seq<Section>)
    requires |head| == 2 && head[0].TreeSection? && head[1].VitestSection?
    requires forall k :: 0 <= k < |ctx| ==> ctx[k].ContextFile?
    requires forall k :: 0 <= k < |ag| ==> ag[k].AgentFile?
    ensures var s := head + ctx + ag;
      && |s| == 2 + |ctx| + |ag|
      && s[0] == head[0] && s[1] == head[1]
      && (forall k :: 2 <= k < 2 + |ctx| ==> s[k] == ctx[k - 2])
      && (forall k :: 0 <= k < |ag| ==> s[2 + |ctx| + k] == ag[k])
      && (forall i, j :: 0 <= i < j < |s| && s[i].AgentFile? ==> s[j].AgentFile?)
  {
    var s := head + ctx + ag;
    assert forall k :: 2 + |ctx| <= k < |s| ==> s[k] == ag[k - 2 - |ctx|];
    assert forall k :: 0 <= k < 2 + |ctx| ==> !s[k].AgentFile?;
  }

  /** The tree and the vitest config come first, then the config files that
      exist, then one section per agent file in list order, with empty text
      for a missing one; no agent section precedes a repository-context one. */
  lemma SectionOrder(fs: Files, listing: string, vitestCandidates: seq<string>,
                     contextCandidates: seq<string>, agentFiles: seq<string>)
    ensures var s := Sections(fs, listing, vitestCandidates, contextCandidates, agentFiles);
      && 2 + |agentFiles| <= |s|
      && s[0].TreeSection? && s[1].VitestSection?
    ensures var s := Sections(fs, listing, vitestCandidates, contextCandidates, agentFiles);
      forall k :: 2 <= k < |s| - |agentFiles| ==> s[k].ContextFile?
    ensures var s := Sections(fs, listing, vitestCandidates, contextCandidates, agentFiles);
      forall k :: 0 <= k < |agentFiles| ==>
        s[|s| - |agentFiles| + k] == AgentFile(agentFiles[k], Read(fs, agentFiles[k]))
    ensures var s := Sections(fs, listing, vitestCandidates, contextCandidates, agentFiles);
      forall i, j :: 0 <= i < j < |s| && s[i].AgentFile? ==> s[j].AgentFile?
  {
    var vitest := ReadFirstMatch(fs, vitestCandidates);
    var head := [TreeSection(listing), VitestSection(vitest.path, vitest.content)];
    var ctx := ContextSections(fs, contextCandidates);
    var ag := AgentSections(fs, agentFiles);
    var s := Sections(fs, listing, vitestCandidates, contextCandidates, agentFiles);
    assert s == head + ctx + ag;
    GroupsInOrder(head, ctx, ag);
    var c := |s| - |agentFiles|;
    assert c == 2 + |ctx|;
    forall k | 0 <= k < |agentFiles|
      ensures s[|s| - |agentFiles| + k] == AgentFile(agentFiles[k], Read(fs, agentFiles[k]))
    {
      assert s[c + k] == ag[k];
    }
  }

  const VitestCandidates := ["vitest.config.mts", "vitest.config.ts", "vitest.config.mjs", "vitest.config.js"]

  const RepoContextCandidates := [
    "package.json", "pnpm-lock.yaml", "pnpm-workspace.yaml", "tsconfig.json",
    "next.config.js", "next.config.mjs", "eslint.config.js", "eslint.config.mjs",
    ".eslintrc", ".eslintrc.json", ".prettierrc", ".prettierrc.json", ".prettierignore"
  ]

  const AgentFiles := [
    ".ai/prompts/core/system.md", ".ai/prompts/core/planner.md", ".ai/prompts/core/implementer.md",
    ".ai/prompts/core/reviewer.md", ".ai/prompts/core/qa.md", ".ai/prompts/core/release.md",
    ".ai/project/overlay.md", ".ai/roles/00-overview.md", ".ai/config/commands.json",
    ".ai/config/budget.json", ".ai/TASK.md"
  ]

  /** The fixed text before the first section. */
  const Preamble :=
    "# AI Prompt Bundle (Single PR)\n\n"
    + "## Output requirements\n"
    + "- Return ONE unified diff inside a single ```diff code fence.\n"
    + "- Also include PR body: Summary / How to test / Risk & rollback / Notes.\n"
    + "- IMPORTANT: Respect existing repo config. Do NOT create duplicate config files.\n"
    + "- If vitest.config.mts exists, never create vitest.config.ts.\n\n"

  function Concat(ss: seq<Section>): string
    decreases |ss|
  {
    if |ss| == 0 then "" else SectionText(ss[0]) + Concat(ss[1..])
  }

  /** The text written to `.ai/PROMPT_BUNDLE.md`. */
  function BundleText(fs: Files, lsFiles: CmdOut, find: CmdOut): string {
    var listing := Join(LimitedTree(FileTree(lsFiles, find)), "\n");
    Preamble + Concat(Sections(fs, listing, VitestCandidates, RepoContextCandidates, AgentFiles))
  }
}
