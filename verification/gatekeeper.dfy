/**
 * scripts/ai-gatekeeper.mjs: the pull-request gatekeeper. From the changed
 * files it derives three policy flags, a risk score out of 100, the labels
 * to set and a SAFE / NEEDS_REVIEW decision. The GitHub calls are left out;
 * the secret heuristic is a predicate passed in.
 */
module Gatekeeper {

  import opened Wrappers
  import opened Strings

  // ---------------------------------------------------------------------
  // csv, containsAny, truncateLines

  /** `.map((x) => x.trim()).filter(Boolean)`: the trimmed pieces that are
      not empty, in order. */
  function TrimmedItems(parts: seq<string>): seq<string>
    decreases |parts|
  {
    if |parts| == 0 then []
    else (if Trim(parts[0]) == "" then [] else [Trim(parts[0])]) + TrimmedItems(parts[1..])
  }

  /** `csv(s)`; an unset variable reads as "". */
  function Csv(s: string): seq<string> {
    TrimmedItems(Split(s, ','))
  }

  /** What `csv` can yield: a non-empty, trimmed text without a comma. */
  predicate CsvItem(x: string) {
    x != "" && ',' !in x && Trim(x) == x
  }

  lemma TrimKeepsAbsent(s: string, c: char)
    requires c !in s
    ensures c !in Trim(s)
  {
    var t := TrimStart(s);
    var u := TrimEnd(t);
    forall i | 0 <= i < |u| ensures u[i] != c {
      assert u[i] == t[i] == s[|s| - |t| + i];
    }
  }

  predicate AllCsvItems(xs: seq<string>) {
    forall k :: 0 <= k < |xs| ==> CsvItem(xs[k])
  }

  lemma TrimmedPieceClean(part: string)
    requires ',' !in part && Trim(part) != ""
    ensures CsvItem(Trim(part))
  {
    TrimKeepsAbsent(part, ',');
    TrimIdempotent(part);
  }

  lemma ConsCsvItems(h: seq<string>, rest: seq<string>)
    requires AllCsvItems(h) && AllCsvItems(rest)
    ensures AllCsvItems(h + rest)
  {
    assert forall k :: |h| <= k < |h + rest| ==> (h + rest)[k] == rest[k - |h|];
  }

  lemma {:induction false} TrimmedItemsClean(parts: seq<string>)
    requires forall k :: 0 <= k < |parts| ==> ',' !in parts[k]
    ensures AllCsvItems(TrimmedItems(parts))
    decreases |parts|
  {
    if |parts| > 0 {
      var rest := parts[1..];
      assert forall k :: 0 <= k < |rest| ==> rest[k] == parts[k + 1];
      TrimmedItemsClean(rest);
      var h: seq<string> := [];
      if Trim(parts[0]) != "" {
        TrimmedPieceClean(parts[0]);
        h := [Trim(parts[0])];
      }
      ConsCsvItems(h, TrimmedItems(rest));
      assert TrimmedItems(parts) == h + TrimmedItems(rest);
    }
  }

  /** Every item `csv` yields is non-empty, trimmed and free of commas. */
  lemma CsvClean(s: string)
    ensures forall k :: 0 <= k < |Csv(s)| ==> CsvItem(Csv(s)[k])
  {
    TrimmedItemsClean(Split(s, ','));
  }

  lemma {:induction false} TrimmedItemsKeeps(items: seq<string>)
    requires forall k :: 0 <= k < |items| ==> CsvItem(items[k])
    ensures TrimmedItems(items) == items
    decreases |items|
  {
    if |items| > 0 {
      TrimmedItemsKeeps(items[1..]);
      ConsTail(items);
    }
  }

  lemma {:induction false} TrimmedItemsAppend(xs: seq<string>, ys: seq<string>)
    ensures TrimmedItems(xs + ys) == TrimmedItems(xs) + TrimmedItems(ys)
    decreases |xs|
  {
    if |xs| == 0 {
      AppendEmpty(ys);
      AppendEmpty(TrimmedItems(ys));
    } else {
      HeadTailAppend(xs, ys);
      TrimmedItemsAppend(xs[1..], ys);
      var h := if Trim(xs[0]) == "" then [] else [Trim(xs[0])];
      AppendAssoc(h, TrimmedItems(xs[1..]), TrimmedItems(ys));
    }
  }

  /** Joining clean items with commas and splitting again gives them back. */
  lemma CsvOfJoin(items: seq<string>)
    requires forall k :: 0 <= k < |items| ==> CsvItem(items[k])
    ensures Csv(Join(items, ",")) == items
  {
    if |items| == 0 {
      assert Split("", ',') == [""];
      assert TrimmedItems([""]) == [];
    } else {
      assert "," == [','];
      SplitJoin(items, ',');
      TrimmedItemsKeeps(items);
    }
  }

  /** The items on either side of a comma are read independently. */
  lemma CsvAppend(a: string, b: string)
    ensures Csv(a + "," + b) == Csv(a) + Csv(b)
  {
    assert a + "," + b == a + [','] + b;
    SplitAtSep(a, b, ',');
    TrimmedItemsAppend(Split(a, ','), Split(b, ','));
  }

  /** `containsAny(haystack, keywords)`: some keyword occurs in the haystack,
      both lower-cased. */
  function ContainsAny(haystack: string, keywords: seq<string>): bool
    decreases |keywords|
  {
    |keywords| > 0 && (Contains(Lower(haystack), Lower(keywords[0])) || ContainsAny(haystack, keywords[1..]))
  }

  lemma {:induction false} ContainsAnyIff(haystack: string, keywords: seq<string>)
    ensures ContainsAny(haystack, keywords) <==>
      exists k :: 0 <= k < |keywords| && Contains(Lower(haystack), Lower(keywords[k]))
    decreases |keywords|
  {
    if |keywords| > 0 {
      ContainsAnyIff(haystack, keywords[1..]);
      assert forall k :: 1 <= k < |keywords| ==> keywords[k] == keywords[1..][k - 1];
    }
  }

  lemma LowerIdempotent(s: string)
    ensures Lower(Lower(s)) == Lower(s)
  {
  }

  /** Only the lower-cased haystack matters. */
  lemma ContainsAnyIgnoresCase(haystack: string, keywords: seq<string>)
    ensures ContainsAny(Lower(haystack), keywords) == ContainsAny(haystack, keywords)
  {
    LowerIdempotent(haystack);
    ContainsAnyIff(haystack, keywords);
    ContainsAnyIff(Lower(haystack), keywords);
  }

  lemma ContainsLower(s: string, p: string)
    requires Contains(s, p)
    ensures Contains(Lower(s), Lower(p))
  {
    var i :| 0 <= i <= |s| && OccursAt(s, p, i);
    var w := Lower(s)[i..i + |p|];
    forall j | 0 <= j < |p| ensures w[j] == Lower(p)[j] {
      assert w[j] == LowerChar(s[i + j]) && s[i + j] == p[j];
    }
    assert w == Lower(p);
    assert OccursAt(Lower(s), Lower(p), i);
  }

  lemma ContainsTrans(s: string, p: string, q: string)
    requires Contains(s, p) && Contains(p, q)
    ensures Contains(s, q)
  {
    var i :| 0 <= i <= |s| && OccursAt(s, p, i);
    var j :| 0 <= j <= |p| && OccursAt(p, q, j);
    SliceOfSlice(s, i, i + |p|, j, j + |q|);
    assert OccursAt(s, q, i + j);
  }

  /** A keyword found inside a part of the haystack is found in all of it. */
  lemma KeywordHit(haystack: string, part: string, keywords: seq<string>, k: nat)
    requires k < |keywords| && Contains(haystack, part)
    requires Contains(Lower(part), Lower(keywords[k]))
    ensures ContainsAny(haystack, keywords)
  {
    ContainsLower(haystack, part);
    ContainsTrans(Lower(haystack), Lower(part), Lower(keywords[k]));
    ContainsAnyIff(haystack, keywords);
  }

  lemma {:induction false} JoinContains(xs: seq<string>, sep: string, i: nat)
    requires i < |xs|
    ensures Contains(Join(xs, sep), xs[i])
    decreases |xs|
  {
    if i == 0 {
      JoinStartsWithFirst(xs, sep);
      assert OccursAt(Join(xs, sep), xs[0], 0);
    } else {
      JoinContains(xs[1..], sep, i - 1);
      ContainsExtend(Join(xs[1..], sep), xs[i], xs[0] + sep, "");
      assert xs[0] + sep + Join(xs[1..], sep) + "" == Join(xs, sep);
    }
  }

  /** `Array.prototype.slice(0, n)` on a list of `len` elements: how many it keeps. */
  function SliceEnd(len: nat, n: int): (r: nat)
    ensures r <= len
    ensures 0 <= n <= len ==> r == n
  {
    if n < 0 then (if len + n < 0 then 0 else len + n)
    else if n > len then len
    else n
  }

  const TruncatedMark := "... (truncated)"

  /** `truncateLines(text, maxLines)`. */
  function TruncateLines(text: string, maxLines: int): string {
    var lines := Split(text, '\n');
    if |lines| <= maxLines then text
    else Join(lines[..SliceEnd(|lines|, maxLines)], "\n") + "\n\n" + TruncatedMark
  }

  /** Text within the limit is kept whole; longer text keeps exactly its
      first lines (as many as `slice` keeps), then an empty line and the
      truncation mark. */
  lemma TruncateLinesShape(text: string, maxLines: int)
    ensures var lines := Split(text, '\n');
      |lines| <= maxLines ==> TruncateLines(text, maxLines) == text
    ensures var lines := Split(text, '\n'); var k := SliceEnd(|lines|, maxLines);
      |lines| > maxLines && k > 0 ==>
        Split(TruncateLines(text, maxLines), '\n') == lines[..k] + ["", TruncatedMark]
    ensures var lines := Split(text, '\n'); var k := SliceEnd(|lines|, maxLines);
      |lines| > maxLines && k == 0 ==> TruncateLines(text, maxLines) == "\n\n" + TruncatedMark
  {
    var lines := Split(text, '\n');
    var k := SliceEnd(|lines|, maxLines);
    if |lines| > maxLines && k > 0 {
      var kept := lines[..k];
      assert forall j :: 0 <= j < |kept| ==> kept[j] == lines[j];
      MarkIsOneLine();
      TruncatedSplit(kept, TruncatedMark);
    } else if |lines| > maxLines {
      assert Join([], "\n") == "";
    }
  }

  /** Kept lines followed by a blank line and a one-line note split back
      into those lines, an empty line and the note. */
  lemma TruncatedSplit(kept: seq<string>, note: string)
    requires |kept| > 0 && forall j :: 0 <= j < |kept| ==> '\n' !in kept[j]
    requires '\n' !in note
    ensures Split(Join(kept, "\n") + "\n\n" + note, '\n') == kept + ["", note]
  {
    var j := Join(kept, ['\n']);
    SplitJoin(kept, '\n');
    assert j + "\n\n" + note == j + ['\n'] + (['\n'] + note);
    SplitAtSep(j, ['\n'] + note, '\n');
    LeadingSepSplit(note, '\n');
  }

  /** A separator followed by a piece free of it splits into "" and the piece. */
  lemma LeadingSepSplit(note: string, sep: char)
    requires sep !in note
    ensures Split([sep] + note, sep) == ["", note]
  {
    SplitNoSep(note, sep);
    assert ([sep] + note)[1..] == note;
  }

  lemma MarkIsOneLine()
    ensures '\n' !in TruncatedMark
  {
  }

  // ---------------------------------------------------------------------
  // evaluatePolicy, computeScores, labelsFor, the decision

  /** The reasons `evaluatePolicy` can give, in the order it gives them. */
  datatype Reason = HighRiskReason | TooLargeReason | SecretReason

  function ReasonText(r: Reason): string {
    match r
    case HighRiskReason => "High-risk keyword/path detected"
    case TooLargeReason => "Diff too large (files/lines)"
    case SecretReason => "Secret-like pattern detected (AI review should be skipped)"
  }

  function ReasonRank(r: Reason): nat {
    match r
    case HighRiskReason => 0
    case TooLargeReason => 1
    case SecretReason => 2
  }

  datatype Policy = Policy(highRisk: bool, tooLarge: bool, secretSuspected: bool, reasons: seq<Reason>)

  predicate AnyFlag(p: Policy) {
    p.highRisk || p.tooLarge || p.secretSuspected
  }

  /** `evaluatePolicy`; `secretHit` stands for `secretHeuristicHit`. */
  function EvaluatePolicy(fileNames: seq<string>, linesChanged: int, filesChanged: int, keywords: seq<string>,
                          maxFiles: int, maxDiffLines: int, combinedPatch: string,
                          secretHit: string -> bool): Policy
  {
    var highRisk := ContainsAny(Join(fileNames, "\n"), keywords) || ContainsAny(combinedPatch, keywords);
    var tooLarge := filesChanged > maxFiles || linesChanged > maxDiffLines;
    var secret := secretHit(combinedPatch);
    Policy(highRisk, tooLarge, secret,
      (if highRisk then [HighRiskReason] else []) +
      (if tooLarge then [TooLargeReason] else []) +
      (if secret then [SecretReason] else []))
  }

  /** One reason per flag that is set and none for a flag that is not, in
      the fixed order high risk, size, secret. */
  lemma ReasonsFollowFlags(fileNames: seq<string>, linesChanged: int, filesChanged: int, keywords: seq<string>,
                           maxFiles: int, maxDiffLines: int, combinedPatch: string, secretHit: string -> bool)
    ensures var p := EvaluatePolicy(fileNames, linesChanged, filesChanged, keywords, maxFiles, maxDiffLines,
                                    combinedPatch, secretHit);
      && (p.tooLarge <==> filesChanged > maxFiles || linesChanged > maxDiffLines)
      && (HighRiskReason in p.reasons <==> p.highRisk)
      && (TooLargeReason in p.reasons <==> p.tooLarge)
      && (SecretReason in p.reasons <==> p.secretSuspected)
      && |p.reasons| == (if p.highRisk then 1 else 0) + (if p.tooLarge then 1 else 0) + (if p.secretSuspected then 1 else 0)
      && forall i, j :: 0 <= i < j < |p.reasons| ==> ReasonRank(p.reasons[i]) < ReasonRank(p.reasons[j])
  {
  }

  /** The weight of the changed-line count. */
  function LinesWeight(lines: int): nat {
    if lines <= 50 then 0 else if lines <= 200 then 5 else if lines <= 500 then 12 else 20
  }

  /** The weight of the changed-file count. */
  function FilesWeight(files: int): nat {
    if files <= 2 then 0 else if files <= 6 then 4 else 10
  }

  /** The risk before `Math.max(0, Math.min(100, risk))`. */
  function RawRisk(lines: int, files: int, p: Policy): int {
    LinesWeight(lines) + FilesWeight(files)
      + (if p.highRisk then 25 else 0) + (if p.tooLarge then 15 else 0) + (if p.secretSuspected then 30 else 0)
  }

  datatype Scores = Scores(risk: int, safety: int)

  /** `computeScores`. */
  function ComputeScores(lines: int, files: int, p: Policy): Scores {
    var raw := RawRisk(lines, files, p);
    var risk := if raw < 0 then 0 else if raw > 100 then 100 else raw;
    Scores(risk, 100 - risk)
  }

  /** Both scores lie in 0..100 and add up to 100. */
  lemma ScoresBounded(lines: int, files: int, p: Policy)
    ensures var s := ComputeScores(lines, files, p);
      0 <= s.risk <= 100 && 0 <= s.safety <= 100 && s.risk + s.safety == 100
  {
  }

  /** The weights never add up past 100, and reach it exactly for a huge
      diff with every flag set, so the clamp never changes the risk. */
  lemma RawRiskMaximum(lines: int, files: int, p: Policy)
    ensures 0 <= RawRisk(lines, files, p) <= 100
    ensures ComputeScores(lines, files, p).risk == RawRisk(lines, files, p)
    ensures RawRisk(501, 7, Policy(true, true, true, [])) == 100
  {
  }

  /** More lines, more files or more flags never lower the risk. */
  lemma RiskMonotone(l1: int, f1: int, p1: Policy, l2: int, f2: int, p2: Policy)
    requires l1 <= l2 && f1 <= f2
    requires (p1.highRisk ==> p2.highRisk) && (p1.tooLarge ==> p2.tooLarge)
    requires p1.secretSuspected ==> p2.secretSuspected
    ensures ComputeScores(l1, f1, p1).risk <= ComputeScores(l2, f2, p2).risk
    ensures ComputeScores(l1, f1, p1).safety >= ComputeScores(l2, f2, p2).safety
  {
  }

  /** The labels `labelsFor` can set. */
  datatype Label =
    | GatekeeperReviewed | AiReviewed
    | Safe96Plus | Safe90Plus | SafeBelow90
    | ReviewRequired | ReviewOptional
    | ReviewSkippedSecrets | ReviewSummaryOnly

  function LabelName(l: Label): string {
    match l
    case GatekeeperReviewed => "gatekeeper-reviewed"
    case AiReviewed => "ai-reviewed"
    case Safe96Plus => "ai-safe-96plus"
    case Safe90Plus => "ai-safe-90plus"
    case SafeBelow90 => "ai-safe-below-90"
    case ReviewRequired => "ai-review-required"
    case ReviewOptional => "ai-review-optional"
    case ReviewSkippedSecrets => "ai-review-skipped-secrets"
    case ReviewSummaryOnly => "ai-review-summary-only"
  }

  predicate IsBucket(l: Label) {
    l == Safe96Plus || l == Safe90Plus || l == SafeBelow90
  }

  predicate IsReviewMode(l: Label) {
    l == ReviewRequired || l == ReviewOptional
  }

  /** `labelsFor(scores, policy)`. */
  function LabelsFor(s: Scores, p: Policy): seq<Label> {
    [GatekeeperReviewed, AiReviewed]
    + [if s.safety >= 96 then Safe96Plus else if s.safety >= 90 then Safe90Plus else SafeBelow90]
    + [if AnyFlag(p) then ReviewRequired else ReviewOptional]
    + (if p.secretSuspected then [ReviewSkippedSecrets] else [])
    + (if p.tooLarge then [ReviewSummaryOnly] else [])
  }

  /** The two fixed labels come first; exactly one safety bucket follows,
      chosen by the 96 and 90 thresholds; then exactly one review mode,
      "required" exactly when a flag is set; the secret and size labels
      appear exactly with their flags; no label repeats. */
  lemma LabelsShape(s: Scores, p: Policy)
    ensures var ls := LabelsFor(s, p);
      && 4 <= |ls| <= 6
      && ls[0] == GatekeeperReviewed && ls[1] == AiReviewed
      && IsBucket(ls[2]) && IsReviewMode(ls[3])
      && (forall i :: 0 <= i < |ls| && i != 2 ==> !IsBucket(ls[i]))
      && (forall i :: 0 <= i < |ls| && i != 3 ==> !IsReviewMode(ls[i]))
      && (ls[2] == Safe96Plus <==> s.safety >= 96)
      && (ls[2] == Safe90Plus <==> 90 <= s.safety < 96)
      && (ls[2] == SafeBelow90 <==> s.safety < 90)
      && (ls[3] == ReviewRequired <==> AnyFlag(p))
      && (ReviewSkippedSecrets in ls <==> p.secretSuspected)
      && (ReviewSummaryOnly in ls <==> p.tooLarge)
      && (forall i, j :: 0 <= i < j < |ls| ==> ls[i] != ls[j])
  {
  }

  datatype Decision = NeedsReview | Safe

  /** The decision line of `buildComment`. */
  function DecisionFor(s: Scores, p: Policy): Decision {
    if AnyFlag(p) || s.safety < 90 then NeedsReview else Safe
  }

  /** The decision agrees with the labels: review is needed exactly when the
      labels say "review required" or put the safety below 90. */
  lemma DecisionMatchesLabels(s: Scores, p: Policy)
    ensures DecisionFor(s, p) == NeedsReview <==>
      ReviewRequired in LabelsFor(s, p) || SafeBelow90 in LabelsFor(s, p)
  {
    LabelsShape(s, p);
  }

  /** A pull request is judged SAFE exactly when no flag is set and the diff
      is small: at most 50 changed lines, or at most 200 lines in at most 6
      files. */
  lemma SafeIffSmallAndClean(lines: int, files: int, p: Policy)
    ensures DecisionFor(ComputeScores(lines, files, p), p) == Safe <==>
      !AnyFlag(p) && (lines <= 50 || (lines <= 200 && files <= 6))
  {
  }

  // ---------------------------------------------------------------------
  // The managed-label filter of upsertLabels

  predicate Managed(name: string) {
    StartsWith(name, "ai-") || StartsWith(name, "gatekeeper-")
  }

  /** The current labels `upsertLabels` deletes, in order. */
  function ToRemove(current: seq<string>): seq<string>
    decreases |current|
  {
    if |current| == 0 then []
    else (if Managed(current[0]) then [current[0]] else []) + ToRemove(current[1..])
  }

  lemma {:induction false} ToRemoveExact(current: seq<string>)
    ensures forall x :: x in ToRemove(current) <==> x in current && Managed(x)
    decreases |current|
  {
    if |current| > 0 {
      ToRemoveExact(current[1..]);
      ConsTail(current);
      assert forall x :: x in current <==> x == current[0] || x in current[1..];
    }
  }

  /** Every label the gatekeeper sets is one it manages. */
  lemma LabelsAreManaged(l: Label)
    ensures Managed(LabelName(l))
  {
  }

  function LabelNames(ls: seq<Label>): set<string> {
    set l | l in ls :: LabelName(l)
  }

  /** The labels on the pull request after `upsertLabels`, assuming every
      delete and the final add go through. */
  function LabelsAfter(current: seq<string>, labels: seq<Label>): set<string> {
    (set x | x in current && x !in ToRemove(current)) + LabelNames(labels)
  }

  /** Afterwards the managed labels are exactly the new ones, and every
      label the gatekeeper does not manage is left as it was. */
  lemma LabelsAfterUpsert(current: seq<string>, labels: seq<Label>)
    ensures forall x :: x in LabelsAfter(current, labels) && Managed(x) <==> x in LabelNames(labels)
    ensures forall x :: x in LabelsAfter(current, labels) && !Managed(x) <==> x in current && !Managed(x)
  {
    ToRemoveExact(current);
    forall x | x in LabelNames(labels) ensures Managed(x) {
      var l :| l in labels && LabelName(l) == x;
      LabelsAreManaged(l);
    }
  }

  // ---------------------------------------------------------------------
  // main: from the changed files to the report

  /** One entry of the pull request's file list; a missing count reads as 0. */
  datatype PrFile = PrFile(filename: string, additions: nat, deletions: nat, patch: Option<string>)

  /** The environment: `GK_MAX_DIFF_LINES`, `GK_MAX_FILES` (parsed) and the
      keywords of `GK_HIGH_RISK_KEYWORDS` (read with `csv`). */
  datatype Config = Config(maxDiffLines: int, maxFiles: int, keywords: seq<string>)

  function SumLines(fs: seq<PrFile>): nat
    decreases |fs|
  {
    if |fs| == 0 then 0 else fs[0].additions + fs[0].deletions + SumLines(fs[1..])
  }

  function FileNames(fs: seq<PrFile>): (r: seq<string>)
    ensures |r| == |fs| && forall i :: 0 <= i < |fs| ==> r[i] == fs[i].filename
  {
    seq(|fs|, i requires 0 <= i < |fs| => fs[i].filename)
  }

  /** A file's part of `combinedPatch`: headers and patch, or nothing when
      the patch is missing or empty. */
  function FilePatch(f: PrFile): string {
    if f.patch.Some? && |f.patch.value| > 0 then
      "\n--- a/" + f.filename + "\n+++ b/" + f.filename + "\n" + f.patch.value + "\n"
    else ""
  }

  function CombinedPatch(fs: seq<PrFile>): string
    decreases |fs|
  {
    if |fs| == 0 then "" else FilePatch(fs[0]) + CombinedPatch(fs[1..])
  }

  datatype Report = Report(filesChanged: nat, linesChanged: nat, policy: Policy, scores: Scores,
                           labels: seq<Label>, decision: Decision)

  /** The first `maxFiles` files: only these are counted and scanned. */
  function Counted(files: seq<PrFile>, maxFiles: int): seq<PrFile> {
    files[..SliceEnd(|files|, maxFiles)]
  }

  /** `main()` from the fetched file list on. */
  function Gatekeep(files: seq<PrFile>, cfg: Config, secretHit: string -> bool): Report {
    var counted := Counted(files, cfg.maxFiles);
    var lines := SumLines(counted);
    var patch := TruncateLines(CombinedPatch(counted), cfg.maxDiffLines);
    var policy := EvaluatePolicy(FileNames(counted), lines, |files|, cfg.keywords, cfg.maxFiles,
                                 cfg.maxDiffLines, patch, secretHit);
    var scores := ComputeScores(lines, |files|, policy);
    Report(|files|, lines, policy, scores, LabelsFor(scores, policy), DecisionFor(scores, policy))
  }

  /** More files than the limit always needs review, in summary mode. */
  lemma OverLimitNeedsReview(files: seq<PrFile>, cfg: Config, secretHit: string -> bool)
    requires |files| > cfg.maxFiles
    ensures var r := Gatekeep(files, cfg, secretHit);
      r.policy.tooLarge && r.decision == NeedsReview && ReviewSummaryOnly in r.labels
  {
    var r := Gatekeep(files, cfg, secretHit);
    LabelsShape(r.scores, r.policy);
  }

  /** A keyword in the name of a counted file makes the pull request high
      risk, whatever the letter case. */
  lemma NamedKeywordNeedsReview(files: seq<PrFile>, cfg: Config, secretHit: string -> bool, i: nat, k: nat)
    requires i < |Counted(files, cfg.maxFiles)| && k < |cfg.keywords|
    requires Contains(Lower(files[i].filename), Lower(cfg.keywords[k]))
    ensures Gatekeep(files, cfg, secretHit).policy.highRisk
    ensures Gatekeep(files, cfg, secretHit).decision == NeedsReview
  {
    var names := FileNames(Counted(files, cfg.maxFiles));
    JoinContains(names, "\n", i);
    KeywordHit(Join(names, "\n"), names[i], cfg.keywords, k);
  }

  /** Files past the limit do not change the changed-line count. */
  lemma LinesIgnoreFilesPastLimit(files: seq<PrFile>, more: seq<PrFile>, cfg: Config, secretHit: string -> bool)
    requires 0 <= cfg.maxFiles <= |files|
    ensures Gatekeep(files + more, cfg, secretHit).linesChanged == Gatekeep(files, cfg, secretHit).linesChanged
  {
    assert Counted(files + more, cfg.maxFiles) == Counted(files, cfg.maxFiles);
  }
}
