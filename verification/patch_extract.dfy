/**
 * The pure text logic of scripts/ai-run.mjs that turns a raw generation into
 * a candidate patch: fenced-block extraction, best-candidate selection and the
 * unified-diff shape check.
 */
module PatchExtract {

  import opened Wrappers
  import opened Strings

  /** A multiline `^` matches at index `i` of `s`. */
  predicate LineStart(s: string, i: int)
    requires 0 <= i <= |s|
  {
    i == 0 || IsLineTerminator(s[i - 1])
  }

  /** `/^p/m.test(s)`: some line of `s` starts with `p`. */
  predicate HasLineStartingWith(s: string, p: string) {
    exists i :: 0 <= i <= |s| && LineStart(s, i) && OccursAt(s, p, i)
  }

  /** Scans line starts from `i` onwards, as the regular-expression engine does. */
  function ScanLineStarts(s: string, p: string, i: nat): (b: bool)
    requires i <= |s|
    ensures b <==> exists j :: i <= j <= |s| && LineStart(s, j) && OccursAt(s, p, j)
    decreases |s| - i
  {
    if LineStart(s, i) && OccursAt(s, p, i) then true
    else if i == |s| then false
    else ScanLineStarts(s, p, i + 1)
  }

  const DiffGitMarker := "diff --git "
  const MinusMarker := "--- "
  const PlusMarker := "+++ "
  const HunkMarker := "@@ "

  /** `looksLikeUnifiedDiff`: all four markers of a git unified diff begin some
      line. A diff whose headers are all present but which has no hunk is
      rejected. */
  function LooksLikeUnifiedDiff(diff: string): (ok: bool)
    ensures ok <==>
      && HasLineStartingWith(diff, DiffGitMarker)
      && HasLineStartingWith(diff, MinusMarker)
      && HasLineStartingWith(diff, PlusMarker)
      && HasLineStartingWith(diff, HunkMarker)
  {
    && ScanLineStarts(diff, DiffGitMarker, 0)
    && ScanLineStarts(diff, MinusMarker, 0)
    && ScanLineStarts(diff, PlusMarker, 0)
    && ScanLineStarts(diff, HunkMarker, 0)
  }

  /** A text without any `@` cannot contain a hunk line, whatever headers it has. */
  lemma NoAtSignNoHunk(diff: string)
    requires '@' !in diff
    ensures !LooksLikeUnifiedDiff(diff)
  {
    forall i | 0 <= i <= |diff| ensures !OccursAt(diff, HunkMarker, i) {
      if i + |HunkMarker| <= |diff| {
        assert diff[i..i + |HunkMarker|][0] == diff[i] != '@';
      }
    }
  }

  /** A header-only diff such as a model emits for an empty new file
      (`index 0000000..0000000` and no hunk) is rejected. */
  lemma HeaderOnlyDiffRejected()
    ensures !LooksLikeUnifiedDiff(
      "diff --git a/x b/x\n" + "new file mode 100644\n" + "index 0000000..0000000\n"
      + "--- /dev/null\n" + "+++ b/x\n")
  {
    var a, b, c, d, e := "diff --git a/x b/x\n", "new file mode 100644\n",
      "index 0000000..0000000\n", "--- /dev/null\n", "+++ b/x\n";
    assert '@' !in a && '@' !in b && '@' !in c && '@' !in d && '@' !in e;
    NoAtSignNoHunk(a + b + c + d + e);
  }

  /** The opening fence the extractor looks for. */
  function Opener(lang: string): string {
    "```" + lang + "\n"
  }

  const Closer := "\n```"

  /** What every extracted block satisfies: it holds no closing fence, and
      `trimEnd` has left no trailing whitespace. */
  predicate CleanBlock(b: string) {
    !Contains(b, Closer) && (|b| == 0 || !IsWs(b[|b| - 1]))
  }

  /** The span `(lo, j)` of the next captured body from `from`: just after
      the leftmost opener, up to the nearest closer after it. When the
      leftmost opener has no closer after it, no later opener has one either,
      so matching ends there. */
  function NextBlock(text: string, lang: string, from: nat): (r: Option<(nat, nat)>)
    ensures r.Some? ==> r.value.0 <= r.value.1 <= |text| && from < r.value.1 + |Closer|
  {
    var open := Opener(lang);
    match FindFrom(text, open, from)
    case None => None
    case Some(i) =>
      match FindFrom(text, Closer, i + |open|)
      case None => None
      case Some(j) => Some((i + |open|, j))
  }

  /** The span is found exactly where the opener and the closer first occur. */
  lemma NextBlockAt(text: string, lang: string, from: nat, i: nat, j: nat)
    requires FindFrom(text, Opener(lang), from) == Some(i)
    requires FindFrom(text, Closer, i + |Opener(lang)|) == Some(j)
    ensures NextBlock(text, lang, from) == Some((i + |Opener(lang)|, j))
  {
  }

  /** The span is bounded by an opener and the first closer after it. */
  lemma NextBlockSpan(text: string, lang: string, from: nat, lo: nat, j: nat)
    requires NextBlock(text, lang, from) == Some((lo, j))
    ensures from + |Opener(lang)| <= lo <= j
    ensures OccursAt(text, Opener(lang), lo - |Opener(lang)|)
    ensures OccursAt(text, Closer, j)
    ensures forall k :: lo <= k < j ==> !OccursAt(text, Closer, k)
  {
    FindFromSpec(text, Opener(lang), from);
    FindFromSpec(text, Closer, lo);
  }

  /** The global match loop of `extractAllCodeBlocks` from index `from`: each
      captured body is `trimEnd`-ed, and matching resumes after its closer. */
  function ExtractFrom(text: string, lang: string, from: nat): seq<string>
    decreases |text| - from
  {
    match NextBlock(text, lang, from)
    case None => []
    case Some((lo, j)) => [TrimEnd(text[lo..j])] + ExtractFrom(text, lang, j + |Closer|)
  }

  /** One round of the match loop: the block of the next span, then the
      matches after its closer. */
  lemma {:induction false} ExtractStep(text: string, lang: string, from: nat, lo: nat, j: nat)
    requires NextBlock(text, lang, from) == Some((lo, j))
    ensures lo <= j <= |text|
    ensures ExtractFrom(text, lang, from) == [TrimEnd(text[lo..j])] + ExtractFrom(text, lang, j + |Closer|)
  {
    var rest := ExtractFrom(text, lang, j + |Closer|);
    var blk := TrimEnd(text[lo..j]);
    assert NextBlock(text, lang, from) == Some((lo, j));
    assert ExtractFrom(text, lang, from) == [blk] + rest;
  }

  predicate AllClean(blocks: seq<string>) {
    forall k :: 0 <= k < |blocks| ==> CleanBlock(blocks[k])
  }

  /** Every extracted block holds no closing fence and ends in a non-space. */
  lemma {:induction false} ExtractFromClean(text: string, lang: string, from: nat)
    ensures AllClean(ExtractFrom(text, lang, from))
    decreases |text| - from
  {
    var next := NextBlock(text, lang, from);
    if next.Some? {
      var (lo, j) := next.value;
      var rest := ExtractFrom(text, lang, j + |Closer|);
      SpanClean(text, lang, from, lo, j);
      ExtractFromClean(text, lang, j + |Closer|);
      ConsCleanBlocks(TrimEnd(text[lo..j]), rest);
      ExtractStep(text, lang, from, lo, j);
    }
  }

  lemma SpanClean(text: string, lang: string, from: nat, lo: nat, j: nat)
    requires NextBlock(text, lang, from) == Some((lo, j))
    ensures lo <= j <= |text| && CleanBlock(TrimEnd(text[lo..j]))
  {
    NextBlockSpan(text, lang, from, lo, j);
    CapturedBodyClean(text, lo, j);
  }

  lemma ConsCleanBlocks(b: string, rest: seq<string>)
    requires CleanBlock(b) && AllClean(rest)
    ensures AllClean([b] + rest)
  {
    assert forall k :: 1 <= k < |[b] + rest| ==> ([b] + rest)[k] == rest[k - 1];
  }

  /** `extractAllCodeBlocks(text, lang)`. */
  function ExtractAllCodeBlocks(text: string, lang: string): seq<string> {
    ExtractFrom(text, lang, 0)
  }

  /** A captured body, cut at the first closer, holds no closer. */
  lemma CapturedBodyClean(text: string, lo: nat, j: nat)
    requires lo <= j && OccursAt(text, Closer, j)
    requires forall k :: lo <= k < j ==> !OccursAt(text, Closer, k)
    ensures CleanBlock(TrimEnd(text[lo..j]))
  {
    var body := text[lo..j];
    forall k | 0 <= k <= |body| ensures !OccursAt(body, Closer, k) {
      if k + |Closer| <= |body| {
        SliceOfSlice(text, lo, j, k, k + |Closer|);
        assert !OccursAt(text, Closer, lo + k);
      }
    }
    NotContainsPrefix(body, |TrimEnd(body)|, Closer);
  }

  lemma NotContainsPrefix(s: string, n: nat, p: string)
    requires n <= |s| && !Contains(s, p)
    ensures !Contains(s[..n], p)
  {
    if Contains(s[..n], p) {
      ContainsPrefix(s, p, n);
    }
  }

  /** The index `best` that the loop `if (b.length > best.length) best = b`
      settles on: a longest block, the earliest one on ties. */
  function LongestIndex(blocks: seq<string>): (k: nat)
    requires |blocks| > 0
    ensures k < |blocks|
    ensures forall i :: 0 <= i < |blocks| ==> |blocks[i]| <= |blocks[k]|
    ensures forall i :: 0 <= i < k ==> |blocks[i]| < |blocks[k]|
    decreases |blocks|
  {
    if |blocks| == 1 then 0
    else
      var k := LongestIndex(blocks[..|blocks| - 1]);
      assert forall i :: 0 <= i < |blocks| - 1 ==> blocks[..|blocks| - 1][i] == blocks[i];
      if |blocks[|blocks| - 1]| > |blocks[k]| then |blocks| - 1 else k
  }

  /** `pickBestDiff`: nothing for no blocks; otherwise a longest block, the
      earliest among equally long ones. */
  function PickBestDiff(blocks: seq<string>): (r: Option<string>)
    ensures r.None? <==> |blocks| == 0
    ensures r.Some? ==> exists k :: (0 <= k < |blocks| && blocks[k] == r.value
      && (forall i :: 0 <= i < |blocks| ==> |blocks[i]| <= |r.value|)
      && (forall i :: 0 <= i < k ==> |blocks[i]| < |r.value|))
  {
    if |blocks| == 0 then None else Some(blocks[LongestIndex(blocks)])
  }

  /** The length from which the first description block is accepted as is. */
  const MinFirstMdLength := 200

  /** `pickBestMd`: the first block when it has at least 200 characters,
      otherwise the earliest longest block. */
  function PickBestMd(blocks: seq<string>): (r: Option<string>)
    ensures r.None? <==> |blocks| == 0
    ensures r.Some? && |blocks[0]| >= MinFirstMdLength ==> r.value == blocks[0]
    ensures r.Some? && |blocks[0]| < MinFirstMdLength ==>
      exists k :: (0 <= k < |blocks| && blocks[k] == r.value
        && (forall i :: 0 <= i < |blocks| ==> |blocks[i]| <= |r.value|)
        && (forall i :: 0 <= i < k ==> |blocks[i]| < |r.value|))
  {
    if |blocks| == 0 then None
    else if |blocks[0]| >= MinFirstMdLength then Some(blocks[0])
    else Some(blocks[LongestIndex(blocks)])
  }

  /** The description candidates, in the order the generator's blocks are
      collected: `md`, then `markdown`, then `mdx`. */
  function MdCandidates(out: string): seq<string> {
    ExtractAllCodeBlocks(out, "md") + ExtractAllCodeBlocks(out, "markdown") + ExtractAllCodeBlocks(out, "mdx")
  }
}
