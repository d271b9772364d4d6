/**
 * One attempt of `callAgent` in scripts/ai-run.mjs: the generator's text is
 * validated in a fixed order, and the artifacts (`patch.diff`, the two PR
 * bodies) are written only once validation has passed. The generator, the
 * translator and `git apply --check` are oracles passed in as values.
 */
module AgentCall {

  import opened Wrappers
  import opened Strings
  import opened PatchExtract
  import opened RequiredFiles

  /** Why an attempt fails, one constructor per `throw` of `callAgent`. */
  datatype Failure =
    | GenerateFailed                       // the Messages API call throws
    | NoDiff                               // no (or an empty) ```diff block
    | NoMd                                 // no (or an empty) ```md/markdown/mdx block
    | InvalidDiff                          // `looksLikeUnifiedDiff` is false
    | MissingRequired(missing: seq<string>) // `mustIncludeRequiredFiles` throws
    | TranslateFailed                      // the translation call throws
    | NotApplicable                        // `git apply --check` fails

  /** The validated pair a generation yields. */
  datatype Candidate = Candidate(diff: string, prBodyEn: string)

  /** The files under `.ai/` and `patch.diff` that one attempt may write;
      `cleanupArtifacts` has removed them all before the attempt starts. */
  datatype Artifacts = Artifacts(
    lastOutput: Option<string>,
    patch: Option<string>,
    prBodyEn: Option<string>,
    prBody: Option<string>)

  const NoArtifacts := Artifacts(None, None, None, None)

  /** JavaScript truthiness of a string that may be `null`. */
  predicate Present(v: Option<string>) {
    v.Some? && v.value != ""
  }

  /** The checks of `callAgent` on the generator's text `out`, in source order:
      a diff block, an md block, the diff's shape, the required files. */
  function Validate(out: string, required: seq<string>): (r: Result<Candidate, Failure>)
    ensures r.Ok? <==>
      && Present(PickBestDiff(ExtractAllCodeBlocks(out, "diff")))
      && Present(PickBestMd(MdCandidates(out)))
      && LooksLikeUnifiedDiff(PickBestDiff(ExtractAllCodeBlocks(out, "diff")).value)
      && MustIncludeRequiredFiles(PickBestDiff(ExtractAllCodeBlocks(out, "diff")).value, required).None?
    ensures r.Ok? ==> r.value.diff == PickBestDiff(ExtractAllCodeBlocks(out, "diff")).value
    ensures r.Ok? ==> r.value.prBodyEn == PickBestMd(MdCandidates(out)).value
  {
    var diff := PickBestDiff(ExtractAllCodeBlocks(out, "diff"));
    var md := PickBestMd(MdCandidates(out));
    if !Present(diff) then Err(NoDiff)
    else if !Present(md) then Err(NoMd)
    else if !LooksLikeUnifiedDiff(diff.value) then Err(InvalidDiff)
    else match MustIncludeRequiredFiles(diff.value, required)
      case Some(missing) => Err(MissingRequired(missing))
      case None => Ok(Candidate(diff.value, md.value))
  }

  /** The first failing check decides the error. */
  lemma ValidateOrder(out: string, required: seq<string>)
    ensures var diff := PickBestDiff(ExtractAllCodeBlocks(out, "diff"));
      && (!Present(diff) ==> Validate(out, required) == Err(NoDiff))
      && (Present(diff) && !Present(PickBestMd(MdCandidates(out))) ==> Validate(out, required) == Err(NoMd))
      && (Present(diff) && Present(PickBestMd(MdCandidates(out))) && !LooksLikeUnifiedDiff(diff.value)
          ==> Validate(out, required) == Err(InvalidDiff))
    ensures var diff := PickBestDiff(ExtractAllCodeBlocks(out, "diff"));
      Validate(out, required).Err? && Validate(out, required).error.MissingRequired? ==>
        && LooksLikeUnifiedDiff(diff.value)
        && Validate(out, required).error.missing == MissingPaths(diff.value, required)
        && |Validate(out, required).error.missing| > 0
  {
  }

  /** The outcome of one `callAgent`: `None` when it returns, the failure when
      it throws, and the artifacts it leaves behind either way. */
  datatype CallResult = CallResult(failure: Option<Failure>, files: Artifacts)

  /** `translatePrBodyToKorean`: the trimmed translation, or the English text
      when the translation is blank; `None` when the call throws. */
  function Translate(translation: Option<string>, text: string): (r: Option<string>)
    ensures r.None? <==> translation.None?
    ensures r.Some? ==> r.value == (if TrimEnd(translation.value) == "" then text else TrimEnd(translation.value))
  {
    match translation
    case None => None
    case Some(t) => Some(if TrimEnd(t) != "" then TrimEnd(t) else text)
  }

  /** `callAgent` from the generator's response on: `generated` is `None`
      when the API call throws, `translator` answers the translation request
      (again `None` for a throw) and `applies` is the verdict of
      `git apply --check` on the patch text. */
  function CallAgent(generated: Option<string>, required: seq<string>,
                     translator: string -> Option<string>, applies: string -> bool): (r: CallResult)
    ensures generated.None? ==> r == CallResult(Some(GenerateFailed), NoArtifacts)
    ensures r.files.lastOutput == generated
    ensures r.files.patch.Some? <==> generated.Some? && Validate(generated.value, required).Ok?
    ensures r.files.patch.Some? ==> r.files.patch.value == Validate(generated.value, required).value.diff + "\n"
    ensures r.files.prBodyEn.Some? <==> r.files.patch.Some?
    ensures r.files.prBody.Some? ==> r.files.patch.Some?
    ensures r.failure.None? ==> r.files.patch.Some? && r.files.prBody.Some?
  {
    match generated
    case None => CallResult(Some(GenerateFailed), NoArtifacts)
    case Some(out) =>
      var written := NoArtifacts.(lastOutput := Some(out));
      match Validate(out, required)
      case Err(e) => CallResult(Some(e), written)
      case Ok(c) =>
        var withPatch := written.(patch := Some(c.diff + "\n"), prBodyEn := Some(c.prBodyEn + "\n"));
        match Translate(translator(c.prBodyEn), c.prBodyEn)
        case None => CallResult(Some(TranslateFailed), withPatch)
        case Some(ko) =>
          var all := withPatch.(prBody := Some(ko + "\n"));
          if applies(c.diff + "\n") then CallResult(None, all) else CallResult(Some(NotApplicable), all)
  }

  /** A header-only diff (no line starting with `@@ `) is rejected before
      anything but the raw output is written. */
  lemma NoHunkNothingWritten(out: string, required: seq<string>,
                             translator: string -> Option<string>, applies: string -> bool)
    requires var d := PickBestDiff(ExtractAllCodeBlocks(out, "diff"));
      d.Some? && !HasLineStartingWith(d.value, HunkMarker)
    ensures CallAgent(Some(out), required, translator, applies).failure.Some?
    ensures CallAgent(Some(out), required, translator, applies).files == NoArtifacts.(lastOutput := Some(out))
  {
  }

  /** A written patch carries the `diff --git` header of every required file. */
  lemma WrittenPatchHasRequired(out: string, required: seq<string>,
                                translator: string -> Option<string>, applies: string -> bool)
    requires CallAgent(Some(out), required, translator, applies).files.patch.Some?
    ensures var p := CallAgent(Some(out), required, translator, applies).files.patch.value;
      forall k :: 0 <= k < |required| ==> Contains(p, Header(required[k]))
  {
    var c := Validate(out, required).value;
    PassingSurvivesExtension(c.diff, "", "\n", required);
    assert "" + c.diff + "\n" == c.diff + "\n";
  }

  /** An attempt that returns normally leaves a patch whose diff passed every
      check, and a Korean body that falls back to the English one when the
      translation comes back blank. */
  lemma SuccessfulCall(out: string, required: seq<string>,
                       translator: string -> Option<string>, applies: string -> bool)
    requires CallAgent(Some(out), required, translator, applies).failure.None?
    ensures Validate(out, required).Ok?
    ensures var c := Validate(out, required).value;
      var f := CallAgent(Some(out), required, translator, applies).files;
      && applies(c.diff + "\n")
      && translator(c.prBodyEn).Some?
      && (TrimEnd(translator(c.prBodyEn).value) == "" ==> f.prBody == Some(c.prBodyEn + "\n"))
  {
  }
}
