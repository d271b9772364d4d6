# coding-agent pipeline — a Dafny model

This project models the decision logic of the coding-agent pipeline. The pipeline works in five steps:

- It turns a queued work packet into a task file.
- It asks a language model for a patch and a PR body.
- It checks that the patch is a real unified diff that names every required file.
- It applies the patch on a throwaway branch, runs the quality gates, and then either publishes a pull request or rolls everything back.
- A gatekeeper then labels the pull request, and a reviewer script summarises it.

Every script mixes text handling with I/O. The model keeps the text handling as pure functions over `seq<char>`. The language model, the translator, git, pnpm and gh become oracles that are passed in as parameters. Git is modelled as transitions over an immutable repository record.

| module | file | models |
|---|---|---|
| `Strings` | strings.dfy | JavaScript `trim`/`trimStart`/`trimEnd` (the exact JS whitespace set), `split`/`join`, `includes`, `indexOf`, ASCII `toLowerCase` |
| `Json`, `Wrappers` | json.dfy, wrappers.dfy | parsed JSON values with integer numbers; `Option`/`Result`; `status ?? 1` |
| `Normalize` | normalize_input.dfy | `normalizeInput` |
| `TaskRender` | task_render.dfy | `mustString`, `asStringArray`, `formatBullets`, `renderTaskMd` of wp-to-task |
| `RequiredFiles` | required_files.dfy | `parseRequiredFilesFromTask`, `mustIncludeRequiredFiles` |
| `PatchExtract` | patch_extract.dfy | `looksLikeUnifiedDiff`, `extractAllCodeBlocks`, `pickBestDiff`, `pickBestMd` |
| `AgentCall` | agent_call.dfy | the validation and file writes of `callAgent` |
| `RetryLoop` | retry_loop.dfy | `tail`, the three-attempt loop of ai-run and its publish step |
| `PrTransaction` | pr_transaction.dfy | `runGates`, `rollback` and the branch transaction of ai-pr |
| `Bundle` | bundle.dfy | `fence`, `readFirstMatch`, `safeCmd`, the file-tree filter, the language mapping and the section order of ai-bundle |
| `QueueNext` | queue_next.dfy | `sanitizeBranchName`, the branch and commit names, and the cursor step of ai-next |
| `Gatekeeper` | gatekeeper.dfy | `csv`, `containsAny`, `truncateLines`, `evaluatePolicy`, `computeScores`, `labelsFor`, the decision, and the managed-label filter |
| `Review` | review.dfy | `clip`, `summarizeChecks`, `getPrNumberFromEvent`, `readTaskMd`, the empty-output check and the comment footer |

ai-pr's repository record has these parts:
- `head`: a branch name or a detached SHA;
- a branch → SHA map;
- the remote's branch map;
- a dirty flag and untracked files;
- `gates.log` and `gates.last.log`.

Each git command is a total function on this record. Each command's exit code is an oracle value.

The retry loop of ai-run is a function from an oracle `World` to the list of events it causes:
- a generator call with its prompt;
- a dry-run exit;
- a publish.

The queue runner is a function from the queue file, the state file and an oracle that says which child process succeeds to the calls made and the state written.

Where the design description of the pipeline and the code disagree, the model follows the code:
- When the translation request throws, the error leaves `callAgent` and fails the attempt (scripts/ai-run.mjs:355-358). Only a blank translation falls back to the English body (scripts/ai-run.mjs:225-228).
- Empty generator text is not an error of its own. It fails as "no diff block".
- The check `!diff` rejects an empty best diff block as well as a missing one.

## Model

| member | source | states |
|---|---|---|
| Normalize.NormalizeInput | src/domain/normalizeInput.ts:1-9 | fails with "Input is empty" exactly when every character is whitespace (the empty input too); otherwise the result is non-empty, no longer than the input, has no whitespace at either end, every whitespace character is a lone space, it keeps the input's non-whitespace characters in order, and it has exactly the input's words (maximal non-whitespace runs) |
| Normalize.CollapseShape | src/domain/normalizeInput.ts:2 | collapsing `\s+` to one space never lengthens the text, empties only the empty text, keeps the non-whitespace characters, and leaves no two adjacent whitespace characters |
| Normalize.CollapseWords | src/domain/normalizeInput.ts:2 | replacing every whitespace run with one space keeps the words: no word is split or joined |
| Normalize.WordsTrim | src/domain/normalizeInput.ts:2 | trimming keeps the words |
| Normalize.WordsDetermine | src/domain/normalizeInput.ts:1-9 | two single-spaced texts that do not end in whitespace, agree on opening with a space, and have the same words are equal |
| Normalize.NormalizedUnique | src/domain/normalizeInput.ts:1-9 | the result is the only non-empty, single-spaced text with no whitespace at either end that has the input's words, so a whitespace run between two words becomes exactly one space |
| Normalize.CollapseFixed | src/domain/normalizeInput.ts:2 | collapsing changes nothing in a single-spaced text that does not end in whitespace |
| Normalize.NormalizeIdempotent | src/domain/normalizeInput.ts:1-9 | normalizing a normalized input gives it back unchanged |
| TaskRender.MustString | scripts/wp-to-task.mjs:4-7 | succeeds exactly for a string that is not blank, returns it trimmed, and otherwise fails with "Invalid <name>" |
| TaskRender.AsStringArray | scripts/wp-to-task.mjs:9-16 | fails exactly when the value is not an array; otherwise the result is the trimmed non-blank strings of the array |
| TaskRender.KeepCleanStrings | scripts/wp-to-task.mjs:12-15 | an array of already-trimmed, non-blank strings comes back whole and in order |
| TaskRender.KeepStringsAppend | scripts/wp-to-task.mjs:12-15 | the string filter distributes over concatenation, so order is kept and other elements are dropped |
| TaskRender.ReadWorkPacket | scripts/wp-to-task.mjs:22-37 | reading succeeds exactly when `id` and `title` are non-blank strings and `task.acceptance_criteria`, `definition_of_done`, `covers` and `files` are arrays; otherwise the error is that of the first failing read in the order id, title, acceptance_criteria, definition_of_done, covers, files (a `null` packet fails first); on success `id` and `title` are the trimmed strings, `epic` and `description` the trimmed string or "" when absent or not a string, and each list the array's trimmed non-blank strings in order |
| TaskRender.ReadLists | scripts/wp-to-task.mjs:31-37 | the four array reads succeed exactly when all four are arrays, fail with the first non-array's name, and keep each array's trimmed non-blank strings |
| TaskRender.RenderTask | scripts/wp-to-task.mjs:22-65 | a packet renders exactly when it is readable, and otherwise the first read's error is passed on; when the free text keeps to single lines without `##`, the text's level-two headings are Context, Goal, Acceptance Criteria, Definition of Done and Files to create in that order, and the "Files to create" section parses back as the packet's trimmed non-blank `files` strings, or as `(none)` when there are none |
| TaskRender.BulletSection | scripts/wp-to-task.mjs:18-20 | a non-empty list of one-line items gives exactly one `- item` line per item, and the section does not end in whitespace |
| TaskRender.RenderSectionOrder | scripts/wp-to-task.mjs:41-64 | the `##` headings of the task file are Context, Goal, Acceptance Criteria, Definition of Done and Files to create, in that order, so the files section comes last |
| TaskRender.RenderParseRoundTrip | scripts/wp-to-task.mjs:41-65 | for a non-empty file list without `**` or line breaks, parsing the trimmed task file with the ai-run parser gives back exactly the file list |
| TaskRender.EmptyFilesRequireNonePath | scripts/wp-to-task.mjs:59-62 | with an empty file list, the parser reads the single required path `(none)`; any diff, the empty one included, is rejected, naming `(none)`, unless it contains the header `diff --git a/(none) b/(none)` |
| TaskRender.NoneSectionParse | scripts/wp-to-task.mjs:18-20 | the `- (none)` placeholder section parses as the list `["(none)"]` |
| TaskRender.OneBulletSectionParse | scripts/wp-to-task.mjs:59-62 | a files section holding one `- item` line parses as exactly that item |
| TaskRender.IntendedRenderParse | scripts/wp-to-task.mjs:59-62 | with the files section left out for an empty list, parsing gives back the file list for every list, and an empty list enforces nothing |
| RequiredFiles.ParseRequiredFiles | scripts/ai-run.mjs:114-138 | no parsed path contains `**`; without a `## Files to create` heading the result is empty |
| RequiredFiles.CollectSkipsPrefix | scripts/ai-run.mjs:118-130 | lines before the files heading contribute nothing |
| RequiredFiles.SectionEndsAtHeading | scripts/ai-run.mjs:127-128 | inside the section, a `## ` heading other than the files heading ends the collection: nothing after it is read |
| RequiredFiles.SubHeadingContinues | scripts/ai-run.mjs:127-128 | a `###` line does not end the section and contributes no path |
| RequiredFiles.RepeatedHeadingContinues | scripts/ai-run.mjs:122-125 | a repeated files heading (re)opens the section and contributes no path |
| RequiredFiles.CollectBody | scripts/ai-run.mjs:119-134 | a section body with no other `## ` heading contributes, in order, the trimmed items of its bullet lines, and collection then continues after it |
| RequiredFiles.ParseSection | scripts/ai-run.mjs:114-138 | for a text made of lines before the first files heading, that heading, a body, another `## ` heading and anything after, the result is the bold-stripped items of the body's bullets only |
| RequiredFiles.CollectNothingWithoutHeading | scripts/ai-run.mjs:118-134 | a text without the files heading yields no required paths |
| RequiredFiles.BulletItem | scripts/ai-run.mjs:132-133 | a line yields an item only when it is `-` followed by whitespace, and the item is the non-empty, one-line rest of the line |
| RequiredFiles.BulletOfItem | scripts/ai-run.mjs:132-133 | the line `- item` reads back as `item` when the item is one line and starts with a non-space |
| RequiredFiles.RemoveBoldNoBold | scripts/ai-run.mjs:136-137 | removing `**` changes nothing in a path without `**` |
| RequiredFiles.MissingPaths | scripts/ai-run.mjs:143-147 | lists exactly the required paths whose `diff --git a/p b/p` header does not occur in the diff |
| RequiredFiles.MissingPathsAppend | scripts/ai-run.mjs:143-147 | the missing paths of a concatenated list are those of each part, in input order |
| RequiredFiles.MustIncludeRequiredFiles | scripts/ai-run.mjs:140-155 | never fails for an empty list; fails exactly when some header is missing; the error names the missing paths in order |
| RequiredFiles.PassingSurvivesExtension | scripts/ai-run.mjs:144-146 | a diff that passes still passes with any text added before or after it |
| TaskRender.OnePathVerdict | scripts/ai-run.mjs:140-155 | with one required path, a diff passes exactly when it contains that path's header, and otherwise the error names just that path |
| RequiredFiles.SingleMissingNamed | scripts/ai-run.mjs:149-154 | when only one path is missing, the error names that path and nothing else |
| PatchExtract.ScanLineStarts | scripts/ai-run.mjs:65-68 | true exactly when the prefix occurs at the start of some line at or after the given position |
| PatchExtract.LooksLikeUnifiedDiff | scripts/ai-run.mjs:64-70 | true exactly when some line starts with each of `diff --git `, `--- `, `+++ ` and `@@ ` |
| PatchExtract.NoAtSignNoHunk | scripts/ai-run.mjs:68 | a text without `@` is never accepted as a diff |
| PatchExtract.HeaderOnlyDiffRejected | scripts/ai-run.mjs:64-70 | a new-file diff with all headers but no hunk is rejected |
| PatchExtract.NextBlock | scripts/ai-run.mjs:78-81 | a found block lies inside the text and ends past the search position, so the scan always moves forward |
| PatchExtract.NextBlockAt | scripts/ai-run.mjs:78-81 | the block starts after the first opener and ends at the first closer after it |
| PatchExtract.NextBlockSpan | scripts/ai-run.mjs:78-81 | the opener comes right before the body, the closer right after it, and the body contains no closer |
| PatchExtract.ExtractStep | scripts/ai-run.mjs:81-83 | each match adds its right-trimmed body and the scan resumes after its closer |
| PatchExtract.ExtractFromClean | scripts/ai-run.mjs:77-85 | no extracted block contains a closing fence or ends in whitespace |
| PatchExtract.CapturedBodyClean | scripts/ai-run.mjs:78-82 | a body cut at the first closer, and right-trimmed, is a clean block |
| PatchExtract.LongestIndex | scripts/ai-run.mjs:89-92 | points at a block of maximal length, and at the earliest one on ties |
| PatchExtract.PickBestDiff | scripts/ai-run.mjs:87-94 | none exactly for no blocks; otherwise the earliest block of maximal length |
| PatchExtract.PickBestMd | scripts/ai-run.mjs:96-105 | none exactly for no blocks; the first block when it has at least 200 characters; otherwise the earliest longest block |
| AgentCall.Validate | scripts/ai-run.mjs:326-347 | accepts exactly when a non-empty diff block and md block exist, the diff has all four markers and names every required file; the candidate is the best diff and the best md block |
| AgentCall.ValidateOrder | scripts/ai-run.mjs:336-347 | the errors are checked in the order no diff, no md, invalid diff, missing required files, and the last one lists exactly the missing paths |
| AgentCall.Translate | scripts/ai-run.mjs:216-227 | a failed translation stays a failure; a blank translation falls back to the English body; otherwise the right-trimmed translation |
| AgentCall.CallAgent | scripts/ai-run.mjs:323-375 | the raw output is always saved; `patch.diff` and `pr_body.en.md` are written exactly when validation passes; the Korean body only after that; success needs all files |
| AgentCall.NoHunkNothingWritten | scripts/ai-run.mjs:340-349 | a best diff without a `@@ ` line fails the attempt and writes nothing but the raw output |
| AgentCall.WrittenPatchHasRequired | scripts/ai-run.mjs:347-349 | every written patch names every required file |
| AgentCall.SuccessfulCall | scripts/ai-run.mjs:349-375 | a successful call passed validation, the patch applies, the translator answered, and a blank answer wrote the English body |
| RetryLoop.TailSuffix | scripts/ai-run.mjs:386-389 | `tail` returns a suffix of its input |
| RetryLoop.TailLines | scripts/ai-run.mjs:386-389 | `tail` keeps at most n lines, and a text that already has at most n lines comes back unchanged |
| RetryLoop.ExtraRules | scripts/ai-run.mjs:424-433 | the extra rules are empty exactly when the prompt is a first attempt |
| RetryLoop.DryRunFeedback | scripts/ai-run.mjs:459-471 | the feedback is the last output, a blank line, `# DRY_RUN_FAILED_GATES_LOG_TAIL` and the last 200 lines of the gate log |
| RetryLoop.Attempt | scripts/ai-run.mjs:423-492 | an attempt first calls the generator with rules only after attempt 1, may then dry-run once, and fails for good only on attempt 3 |
| RetryLoop.RetryFeedback | scripts/ai-run.mjs:459-490 | attempts 1–2 retry exactly when the call or dry run failed, with the dry-run feedback or the raw output as the next prompt's previous output |
| RetryLoop.LoopNeverExhausted | scripts/ai-run.mjs:495-499 | the loop never leaves without success or an error, so the `!success` throw is unreachable |
| RetryLoop.AttemptCounts | scripts/ai-run.mjs:435-447 | the events of one attempt hold exactly one generator request and no publish |
| RetryLoop.LoopCounts | scripts/ai-run.mjs:422-493 | from attempt a, the loop calls the generator at most 4 − a times and never publishes |
| RetryLoop.AttemptNumbered | scripts/ai-run.mjs:435-447 | one attempt makes exactly one request, numbered with that attempt |
| RetryLoop.LoopPrompts | scripts/ai-run.mjs:422-447 | every request lists the parsed required files and names an attempt from the starting one to 3, the j-th request names the starting attempt plus j, and only attempt 1 lacks the extra rules |
| RetryLoop.SucceededAfterPassingDryRun | scripts/ai-run.mjs:459-480 | a successful loop ends with a dry run that exited 0 |
| RetryLoop.RunLoop | scripts/ai-run.mjs:419-493 | the imperative loop computes the recursive loop's outcome and never leaves exhausted |
| RetryLoop.Main | scripts/ai-run.mjs:391-513 | a failed bundle step exits with its status and does nothing else; the run never ends in the "all attempts failed" error |
| RetryLoop.LoopAndPublish | scripts/ai-run.mjs:419-512 | the loop-then-publish run never ends in the "all attempts failed" error |
| RetryLoop.LoopAndPublishProperties | scripts/ai-run.mjs:506-512 | at most 3 generator calls, numbered 1, 2, 3 in order, and at most one publish; a publish comes right after a passing dry run and the exit code is its status |
| RetryLoop.MainProperties | scripts/ai-run.mjs:395-410 | without a bundle and a non-blank task nothing is called; prompts carry the files parsed from the trimmed task |
| RetryLoop.PublishOnceIffPassingDryRun | scripts/ai-run.mjs:459-512 | the publishing run happens, exactly once, if and only if one of the loop's dry runs exited 0 |
| RetryLoop.PublishIffPassingDryRun | scripts/ai-run.mjs:459-480 | the loop succeeds exactly when some dry run exited 0 |
| PrTransaction.HeadSha | scripts/ai-pr.mjs:150 | `rev-parse HEAD` gives the detached SHA, or the branch's SHA when the branch exists |
| PrTransaction.CheckoutB | scripts/ai-pr.mjs:153 | `checkout -B` puts HEAD on the branch at the given SHA and leaves all other branches alone |
| PrTransaction.CheckoutBIdempotent | scripts/ai-pr.mjs:152-153 | repeating `checkout -B`, or running it when the branch did not exist, gives the same state |
| PrTransaction.Rollback | scripts/ai-pr.mjs:79-101 | rollback keeps `gates.log` and the remote, and copies `gates.log` to `gates.last.log` when it exists |
| PrTransaction.RollbackRestores | scripts/ai-pr.mjs:79-101 | from the working branch, rollback returns HEAD to the base branch and SHA, leaves the tree clean, and deletes the working branch exactly when it differs from the base branch |
| PrTransaction.DetachedRollbackKeepsBranch | scripts/ai-pr.mjs:79-101 | when the run started on a detached HEAD, rollback stays on the working branch, which then survives |
| PrTransaction.IntendedRollbackRestores | scripts/ai-pr.mjs:79-101 | a rollback that checks out the recorded base SHA restores HEAD from either start, and deletes the working branch |
| PrTransaction.RollbacksAgreeOnBranch | scripts/ai-pr.mjs:94-100 | from a named base branch the code's rollback and the corrected one are the same |
| PrTransaction.GatesFrom | scripts/ai-pr.mjs:103-119 | the gate result is ok exactly when its code is 0 |
| PrTransaction.StepsRun | scripts/ai-pr.mjs:112-117 | the number of steps run lies between the start and the end of the list |
| PrTransaction.GatesShortCircuit | scripts/ai-pr.mjs:103-119 | ok exactly when every step exits 0; steps run in order up to and including the first failure, whose `code || 1` is returned; the log is the pieces of exactly the steps run |
| PrTransaction.BranchOf | scripts/ai-pr.mjs:124 | the branch is the first argument when given, otherwise a non-empty `feat/ai-` name |
| PrTransaction.Transact | scripts/ai-pr.mjs:155-201 | aborts, with a rollback, exactly on a missing patch, a failed check, apply or gate run, or a dry run; exit 0 only for a passing dry run; leaves HEAD, branches and remote as they were on the working branch (the rollback itself happens in `main`) |
| PrTransaction.PrArgs | scripts/ai-pr.mjs:208-209 | `gh pr create` always gets the title and `--fill`, and `--body` exactly when the body is not blank |
| PrTransaction.Publish | scripts/ai-pr.mjs:204-210 | publishing stops at the first failing step, and exits 0 only when the PR is created |
| PrTransaction.Main | scripts/ai-pr.mjs:121-213 | the run is done exactly when it exits 0 and is not a dry run |
| PrTransaction.EarlyExitsUntouched | scripts/ai-pr.mjs:137-153 | a failure before the branch exists leaves the repository untouched; a dirty tree exits 2 |
| PrTransaction.FailurePaths | scripts/ai-pr.mjs:155-195 | missing patch exits 2; a failed check or apply exits with its status and writes its stderr to `gates.log`; failed gates exit with the gate code and write the gate log |
| PrTransaction.RollbackKeepsLastLog | scripts/ai-pr.mjs:81-88 | every rolled-back run leaves `gates.last.log` equal to the final `gates.log` when there is one |
| PrTransaction.FailuresRollBack | scripts/ai-pr.mjs:155-201 | every failure after the branch is made, and every dry run, ends with HEAD and branches as before (minus the working branch), a clean tree, an untouched remote and no PR |
| PrTransaction.DryRunLeavesNothing | scripts/ai-pr.mjs:197-201 | a dry run never publishes, adds no branch or commit, and exits 0 exactly when it passed |
| PrTransaction.PublishSteps | scripts/ai-pr.mjs:204-210 | on the publish path, one commit titled with the title is added on the branch and pushed; a failing step exits with its status and nothing is rolled back |
| PrTransaction.PublishPath | scripts/ai-pr.mjs:197-210 | publishing happens only after a real run whose patch, check, apply and gates all passed, from the branch made at the base SHA |
| Bundle.Fence | scripts/ai-bundle.mjs:29-32 | a fence is the opener, the right-trimmed content (empty when missing) and the closer followed by a blank line |
| Bundle.FenceLayout | scripts/ai-bundle.mjs:29-32 | the positions of opener, body and closer inside a fence |
| Bundle.FenceRoundTrip | scripts/ai-bundle.mjs:29-32 | extracting the fenced language from a fence gives back the right-trimmed content when it holds no closing fence |
| Bundle.FenceCutShort | scripts/ai-bundle.mjs:29-32 | content that holds a closing fence does not come back whole |
| Bundle.ReadFirstMatch | scripts/ai-bundle.mjs:16-21 | there is a path exactly when there are candidates |
| Bundle.ReadFirstMatchSpec | scripts/ai-bundle.mjs:16-21 | the first existing candidate is returned with its content; if none exists, the first candidate with empty content |
| Bundle.SafeCmd | scripts/ai-bundle.mjs:23-27 | a command that fails gives "", otherwise its right-trimmed output |
| Bundle.KeepPaths | scripts/ai-bundle.mjs:79-83 | only non-empty paths outside `node_modules/` and `.git/` are kept |
| Bundle.KeepPathsMembers | scripts/ai-bundle.mjs:79-83 | a path is kept exactly when it is listed and passes the filter |
| Bundle.KeepPathsAppend | scripts/ai-bundle.mjs:79-83 | the filter keeps the order of the listing |
| Bundle.LimitedTree | scripts/ai-bundle.mjs:79-85 | at most 400 entries, all passing the filter and one line each |
| Bundle.LimitedTreeListing | scripts/ai-bundle.mjs:79-85 | the tree is the first min(400, n) filtered paths, in order, and its joined text splits back into them |
| Bundle.LangFor | scripts/ai-bundle.mjs:106-112 | `.json` → json, else `.yaml`/`.yml` → yaml, else `.js`/`.mjs` → js, else txt |
| Bundle.ContextSections | scripts/ai-bundle.mjs:103-114 | only context-file sections, at most one per candidate |
| Bundle.ContextSectionsMembers | scripts/ai-bundle.mjs:103-114 | a context section appears exactly for an existing candidate, with its content |
| Bundle.AgentSections | scripts/ai-bundle.mjs:117-120 | one section per agent file, in order, with its content or "" when missing |
| Bundle.SectionOrder | scripts/ai-bundle.mjs:95-120 | tree, then test setup, then context files, then every agent file; no other section follows an agent section |
| QueueNext.ReplaceRunsClass | scripts/ai-next.mjs:23 | after replacing other characters, only `[a-z0-9-_/]` remain |
| QueueNext.CollapseShape | scripts/ai-next.mjs:24 | collapsing dashes leaves no `--` and keeps the character class |
| QueueNext.StripShape | scripts/ai-next.mjs:25 | stripping end dashes keeps the character class and the absence of `--` |
| QueueNext.SanitizeClean | scripts/ai-next.mjs:19-26 | the sanitized name uses only `[a-z0-9-_/]`, has no `--`, and neither starts nor ends with `-` |
| QueueNext.SanitizeFixedIff | scripts/ai-next.mjs:19-26 | a name is left unchanged exactly when it is already clean |
| QueueNext.SanitizeIdempotent | scripts/ai-next.mjs:19-26 | sanitizing twice is sanitizing once |
| QueueNext.SanitizeKeepsNameChars | scripts/ai-next.mjs:19-26 | the letters, digits, `_` and `/` of the lower-cased trimmed name survive, in order |
| QueueNext.SanitizeUnderPrefix | scripts/ai-next.mjs:19-26 | a clean prefix ending in `-` stays in front of the sanitized rest, and loses its dash when the rest is empty |
| QueueNext.BaseName | scripts/ai-next.mjs:55 | a base name holds no `/` |
| QueueNext.BaseNameOfJoin | scripts/ai-next.mjs:55 | the base name of `dir/name` with any trailing slashes is `name` |
| QueueNext.DropJsonSuffix | scripts/ai-next.mjs:55 | the result is the name itself, or the name with a final five-character suffix removed |
| QueueNext.DropJsonSuffixOf | scripts/ai-next.mjs:55 | `.json` in any case is removed |
| QueueNext.DropJsonSuffixKeeps | scripts/ai-next.mjs:55 | a name without a `.json` ending is unchanged |
| QueueNext.BranchForShape | scripts/ai-next.mjs:55-56 | the branch is clean, and is `feat/wp-` + the sanitized base name, or `feat/wp` when that is empty |
| QueueNext.CommitMessageOfPacket | scripts/ai-next.mjs:55-57 | the commit message names the packet file without its `.json` |
| QueueNext.ItemPathTrim | scripts/ai-next.mjs:42-45 | a queue item is usable exactly when it is a non-blank string, and the path is the string as given |
| QueueNext.AdvanceOnlyAfterBothSucceed | scripts/ai-next.mjs:50-67 | the state advances to cursor + 1 only after wp-to-task and ai-run both succeeded on the item at the cursor |
| QueueNext.PipelineAfterTask | scripts/ai-next.mjs:49-62 | at most the two child processes run, and ai-run only after wp-to-task succeeded |
| QueueNext.FailureBlamesLastCall | scripts/ai-next.mjs:50-62 | a failed run after a call failed because of the last call |
| QueueNext.DoneIff | scripts/ai-next.mjs:37-40 | the run is done exactly when the cursor is past the items; it then calls nothing and exits 0 |
| QueueNext.InvalidInputStartsNothing | scripts/ai-next.mjs:29-45 | a bad queue or item fails before any call; the exit code is 1 exactly on failure |
| QueueNext.NonNumericCursorIsZero | scripts/ai-next.mjs:34-35 | a missing or non-numeric cursor behaves as cursor 0 |
| QueueNext.CursorReadBack | scripts/ai-next.mjs:65-67 | the written state reads back as its cursor |
| QueueNext.DrainCursor | scripts/ai-next.mjs:28-71 | when every call succeeds, repeated runs process the remaining items in order and leave the cursor at the end |
| QueueNext.DrainsInOrder | scripts/ai-next.mjs:28-71 | when every call succeeds, repeated runs process the remaining items in order, and the next run is done |
| QueueNext.InvalidItemBlocks | scripts/ai-next.mjs:42-45 | an unusable item at the cursor stops the queue for good: no run calls anything or moves the state |
| Gatekeeper.CsvClean | scripts/ai-gatekeeper.mjs:12-17 | every item is non-empty, trimmed and has no comma |
| Gatekeeper.CsvOfJoin | scripts/ai-gatekeeper.mjs:12-17 | clean items joined with commas read back as the same items |
| Gatekeeper.CsvAppend | scripts/ai-gatekeeper.mjs:12-17 | the items of `a,b` are those of `a` then those of `b` |
| Gatekeeper.TrimmedItemsAppend | scripts/ai-gatekeeper.mjs:15-16 | trimming and dropping empty pieces keeps the order |
| Gatekeeper.ContainsAnyIff | scripts/ai-gatekeeper.mjs:19-22 | true exactly when some lower-cased keyword occurs in the lower-cased text, so false for no keywords |
| Gatekeeper.ContainsAnyIgnoresCase | scripts/ai-gatekeeper.mjs:19-22 | the answer is the same for the text and its lower-cased form |
| Gatekeeper.KeywordHit | scripts/ai-gatekeeper.mjs:88-90 | a keyword found in a part of the haystack is found in the whole |
| Gatekeeper.SliceEnd | scripts/ai-gatekeeper.mjs:27 | the end of `slice(0, n)` never passes the end of the list, and is n itself when 0 <= n <= len |
| Gatekeeper.TruncateLinesShape | scripts/ai-gatekeeper.mjs:24-28 | unchanged within the limit; otherwise the first lines, a blank line and the truncation mark |
| Gatekeeper.ReasonsFollowFlags | scripts/ai-gatekeeper.mjs:88-101 | one reason per set flag, in the order high risk, too large, secret; too large exactly when files or lines exceed the limits |
| Gatekeeper.ScoresBounded | scripts/ai-gatekeeper.mjs:104-126 | risk and safety lie in 0..100 and add up to 100 |
| Gatekeeper.RawRiskMaximum | scripts/ai-gatekeeper.mjs:104-126 | the raw risk never exceeds 100, the clamp never bites, and 100 is reached |
| Gatekeeper.RiskMonotone | scripts/ai-gatekeeper.mjs:104-126 | more lines, more files or another flag never lower the risk |
| Gatekeeper.LabelsShape | scripts/ai-gatekeeper.mjs:128-143 | the two fixed labels first, exactly one safety bucket (96 and 90 thresholds), exactly one review mode with "required" iff a flag, the skipped-secrets and summary-only labels iff their flags, no duplicates |
| Gatekeeper.DecisionMatchesLabels | scripts/ai-gatekeeper.mjs:146-152 | the decision needs review exactly when "review required" is labelled or safety is below 90 |
| Gatekeeper.SafeIffSmallAndClean | scripts/ai-gatekeeper.mjs:104-152 | a PR passes without review exactly when no flag is set and it is at most 50 lines, or at most 200 lines in at most 6 files |
| Gatekeeper.ToRemoveExact | scripts/ai-gatekeeper.mjs:302-304 | removed labels are exactly the current ones starting with `ai-` or `gatekeeper-` |
| Gatekeeper.LabelsAreManaged | scripts/ai-gatekeeper.mjs:128-143 | every label the gatekeeper sets is one it manages |
| Gatekeeper.LabelsAfterUpsert | scripts/ai-gatekeeper.mjs:295-333 | afterwards the managed labels are exactly the new ones and the other labels are unchanged |
| Gatekeeper.FileNames | scripts/ai-gatekeeper.mjs:219 | one name per file, in order |
| Gatekeeper.OverLimitNeedsReview | scripts/ai-gatekeeper.mjs:209-239 | more files than the limit always needs review |
| Gatekeeper.NamedKeywordNeedsReview | scripts/ai-gatekeeper.mjs:216-239 | a high-risk keyword in a counted file name makes the PR high risk and needs review |
| Gatekeeper.LinesIgnoreFilesPastLimit | scripts/ai-gatekeeper.mjs:216-226 | files past the limit do not change the line count |
| Review.Clip | scripts/ai-review.mjs:13-16 | "" stays "", a text within the limit is unchanged, and a longer one is cut to the limit and ends with the `[TRUNCATED]` tag |
| Review.ClipKeepsPrefix | scripts/ai-review.mjs:13-16 | the clipped text begins with the first min(len, max) characters and is at most max + tag long |
| Review.ClipFixedIff | scripts/ai-review.mjs:13-16 | clipping leaves a text unchanged exactly when it fits or is already a clipped text |
| Review.ClipTwice | scripts/ai-review.mjs:13-16 | clipping a too-long text twice with the same limit gives the same text as clipping it once |
| Review.CheckName | scripts/ai-review.mjs:123 | a check's name is never empty |
| Review.CheckConclusion | scripts/ai-review.mjs:124 | a check's conclusion is never empty |
| Review.FallbackOrder | scripts/ai-review.mjs:123-124 | the name falls back to `(unnamed)`; the conclusion falls back to the status and then `unknown` |
| Review.SummarizeChecks | scripts/ai-review.mjs:119-128 | the summary is never empty |
| Review.NoChecksIff | scripts/ai-review.mjs:127 | the summary is `(no checks found)` exactly for an empty list, and otherwise starts with `- ` |
| Review.SummaryLines | scripts/ai-review.mjs:119-128 | one `- name: conclusion` line per check, in order |
| Review.ChecksSummary | scripts/ai-review.mjs:154-160 | the checks section of the prompt is never empty |
| Review.ChecksSummaryCases | scripts/ai-review.mjs:154-160 | `(no check-runs)` exactly when the PR has no head SHA; `(no checks found)` exactly when there is one but the response has no `check_runs` array, or an empty one |
| Review.PrNumberPrecedence | scripts/ai-review.mjs:46-54 | a numeric `pull_request.number` wins, then a numeric top-level `number`, else none |
| Review.PrNumberForRun | scripts/ai-review.mjs:141-142 | the run stops exactly when the event has no PR number or it is 0; otherwise it uses that number |
| Review.ZeroInnerNumberStops | scripts/ai-review.mjs:46-54 | a `pull_request.number` of 0 hides a top-level number and stops the run |
| Review.PullRequestEventNumber | scripts/ai-review.mjs:46-49 | a pull_request event's own number is used |
| Review.ReadTaskMd | scripts/ai-review.mjs:56-61 | a task file with non-blank text is passed on as it is, untrimmed |
| Review.TaskMdNeverBlank | scripts/ai-review.mjs:56-61 | the task text handed to the review is never blank |
| Review.ReviewText | scripts/ai-review.mjs:108-116 | a failed request is an API error; when the answer's `output_text` ("" if absent) has non-whitespace in it, the review is that text trimmed |
| Review.EmptyOutputIff | scripts/ai-review.mjs:113-116 | the review fails for empty output exactly when the trimmed output is empty |
| Review.CommentBody | scripts/ai-review.mjs:175-181 | every comment ends with the fixed ai-review footer |
| Review.CommentBodyRecovers | scripts/ai-review.mjs:175-181 | the comment is the review text followed by the footer, so the text can be read back |

## Left out

- The HTTP calls are not modelled. These are `anthropicMessagesCreate`, `translatePrBodyToKorean`, `ghFetch`, `paginate`, the comment and label upserts past the prefix filter, and the OpenAI review request. The generator, the translator and the GitHub answers are oracles.
- Prompt, comment and bundle-header boilerplate is not modelled (scripts/ai-run.mjs:241-312, scripts/ai-review.mjs:64-89, the `buildComment` body). The retry rules enter a prompt only as a flag.
- git, pnpm, gh and node child processes are oracles with free exit codes. `git apply --check/--recount` semantics are left out. `.ai/` and `patch.diff` are taken to be ignored by git.
- The rollback's own git commands are taken to succeed. Their failures are swallowed by the source and are not modelled.
- The live output streaming of `runStreaming` is not modelled. Each gate step returns its exit code and its output at once.
- `secretHeuristicHit` is a parameter `secretHit`, because its regular expressions are outside the core.
- `Number()`, `parseInt`, `Number.isFinite` and floating-point values are not modelled. JSON numbers are integers, so a fractional cursor or PR number is not modelled.
- `Date.now()`, the default `feat/ai-<time>` stamp and the ISO timestamps are inputs.
- Unicode is not modelled. Lower-casing is ASCII only, and lengths count code points rather than UTF-16 units.
- The `lang` argument of `extractAllCodeBlocks` is taken as literal text rather than as part of a regular expression. The callers pass plain words.
- Label deletes and adds are taken to succeed.
- Check-run fields that are not strings are not modelled.
- The gatekeeper's event-file read and its "Not a pull_request event payload" error are not modelled.
- A queue, state, work-packet or event file that is not valid JSON makes the script throw in `JSON.parse` (scripts/ai-next.mjs:9-12, scripts/wp-to-task.mjs:79, scripts/ai-review.mjs:137, scripts/ai-gatekeeper.mjs:192). The model takes the parsed value as input and does not model that error.
- `mustEnv`, dotenv and `readString`/`readNumber` are not modelled.
- Console logging and eslint.config.mjs are not modelled.
- RetryLoop.Main: the bundle and task files are inputs; reading them is not modelled.

## Findings

| source | as written | input that shows it | evidently intended | confidence | as-written member | corrected member |
|---|---|---|---|---|---|---|
| scripts/wp-to-task.mjs:59-62 | an empty `files` list renders `- (none)` under "Files to create", which the ai-run parser reads as the required path `(none)` | a work packet with `"files": []`, and any diff that does not touch a file named `(none)` | an empty list means no enforcement, as the comment says | not executed | TaskRender.EmptyFilesRequireNonePath | TaskRender.IntendedRenderParse |
| scripts/ai-pr.mjs:95-100 | rollback returns to `git rev-parse --abbrev-ref HEAD`, which is the word `HEAD` when the run started detached; `git checkout HEAD` then stays on the working branch, and the branch is not deleted | running ai-pr from a detached HEAD with a patch that fails `git apply --check` | rollback returns to the starting SHA and removes the working branch | not executed | PrTransaction.DetachedRollbackKeepsBranch | PrTransaction.IntendedRollbackRestores |

Both corrected members are proved next to the code as written. The rest of the model uses the rendering and rollback as written. RollbacksAgreeOnBranch shows that the two rollbacks are identical whenever the run starts on a named branch, and that is the only case FailuresRollBack covers.
