/**
 * scripts/wp-to-task.mjs: a work-packet JSON object rendered as the task
 * Markdown the generator is driven by. The "Files to create" section it
 * writes is the one `parseRequiredFilesFromTask` of scripts/ai-run.mjs reads
 * back, so the two are proved to agree here.
 */
module TaskRender {

  import opened Wrappers
  import opened Strings
  import opened Json
  import opened RequiredFiles

  /** A non-blank text with no whitespace at either end: what `.trim()` of a
      non-blank string gives. */
  predicate Clean(s: string) {
    |s| > 0 && !IsWs(s[0]) && !IsWs(s[|s| - 1])
  }

  lemma TrimOfNonBlank(s: string)
    requires |Trim(s)| > 0
    ensures Clean(Trim(s))
  {
  }

  lemma ConsClean(t: string, rest: seq<string>)
    requires Clean(t)
    requires forall k :: 0 <= k < |rest| ==> Clean(rest[k])
    ensures forall k :: 0 <= k < |[t] + rest| ==> Clean(([t] + rest)[k])
  {
  }

  /** `mustString(v, name)`: the trimmed string, or `Invalid <name>` when `v`
      is not a string or is blank. */
  function MustString(v: Option<Json>, name: string): (r: Result<string, string>)
    ensures r.Ok? <==> v.Some? && v.value.JStr? && Trim(v.value.s) != ""
    ensures r.Ok? ==> Clean(r.value) && r.value == Trim(v.value.s)
    ensures r.Err? ==> r.error == "Invalid " + name
  {
    if v.Some? && v.value.JStr? && Trim(v.value.s) != "" then Ok(Trim(v.value.s))
    else Err("Invalid " + name)
  }

  /** The loop of `asStringArray`: the trimmed non-blank strings, in order;
      every other element is dropped. */
  function KeepStrings(xs: seq<Json>): (r: seq<string>)
    ensures |r| <= |xs|
    ensures forall k :: 0 <= k < |r| ==> Clean(r[k])
    decreases |xs|
  {
    if |xs| == 0 then []
    else
      var rest := KeepStrings(xs[1..]);
      if xs[0].JStr? && |Trim(xs[0].s)| > 0 then
        TrimOfNonBlank(xs[0].s);
        ConsClean(Trim(xs[0].s), rest);
        [Trim(xs[0].s)] + rest
      else rest
  }

  lemma {:induction false} KeepStringsAppend(a: seq<Json>, b: seq<Json>)
    ensures KeepStrings(a + b) == KeepStrings(a) + KeepStrings(b)
    decreases |a|
  {
    if |a| == 0 {
      AppendEmpty(b);
      AppendEmpty(KeepStrings(b));
    } else {
      HeadTailAppend(a, b);
      KeepStringsAppend(a[1..], b);
      if a[0].JStr? && |Trim(a[0].s)| > 0 {
        AppendAssoc([Trim(a[0].s)], KeepStrings(a[1..]), KeepStrings(b));
      }
    }
  }

  /** An array of already clean strings is kept as it is. */
  lemma {:induction false} KeepCleanStrings(js: seq<Json>, ss: seq<string>)
    requires |js| == |ss|
    requires forall k :: 0 <= k < |ss| ==> js[k] == JStr(ss[k]) && Clean(ss[k])
    ensures KeepStrings(js) == ss
    decreases |ss|
  {
    if |ss| > 0 {
      assert js[0] == JStr(ss[0]);
      TrimNoEnds(ss[0]);
      forall k | 0 <= k < |ss[1..]| ensures js[1..][k] == JStr(ss[1..][k]) && Clean(ss[1..][k]) {
        assert js[1..][k] == js[k + 1] && ss[1..][k] == ss[k + 1];
      }
      KeepCleanStrings(js[1..], ss[1..]);
      assert KeepStrings(js) == [ss[0]] + KeepStrings(js[1..]);
      ConsTail(ss);
    }
  }

  /** `asStringArray(v, name)`. */
  function AsStringArray(v: Option<Json>, name: string): (r: Result<seq<string>, string>)
    ensures r.Err? <==> !(v.Some? && v.value.JArr?)
    ensures r.Err? ==> r.error == "Invalid " + name
    ensures r.Ok? ==> r.value == KeepStrings(v.value.elems)
  {
    if v.Some? && v.value.JArr? then Ok(KeepStrings(v.value.elems)) else Err("Invalid " + name)
  }

  /** The fields `renderTaskMd` reads from a work packet. */
  datatype TaskFields = TaskFields(
    id: string,
    title: string,
    epic: string,
    description: string,
    acceptance: seq<string>,
    done: seq<string>,
    covers: seq<string>,
    files: seq<string>)

  /** What reading a work packet guarantees about its fields. */
  predicate WellFormed(f: TaskFields) {
    && Clean(f.id) && Clean(f.title)
    && (f.epic == "" || Clean(f.epic))
    && (f.description == "" || Clean(f.description))
    && (forall k :: 0 <= k < |f.acceptance| ==> Clean(f.acceptance[k]))
    && (forall k :: 0 <= k < |f.done| ==> Clean(f.done[k]))
    && (forall k :: 0 <= k < |f.covers| ==> Clean(f.covers[k]))
    && (forall k :: 0 <= k < |f.files| ==> Clean(f.files[k]))
  }

  /** The message `wp.id` throws on a `null` work packet. */
  const NullPacketError := "Cannot read properties of null"

  /** `typeof v === "string" ? v.trim() : ""`. */
  function OptionalText(v: Option<Json>): (t: string)
    ensures v.Some? && v.value.JStr? ==> t == Trim(v.value.s)
    ensures !(v.Some? && v.value.JStr?) ==> t == ""
    ensures t == "" || Clean(t)
  {
    if v.Some? && v.value.JStr? then Trim(v.value.s) else ""
  }

  /** A value `mustString` accepts: a string that is not blank. */
  predicate NonBlankString(v: Option<Json>) {
    v.Some? && v.value.JStr? && Trim(v.value.s) != ""
  }

  /** A value `asStringArray` accepts. */
  predicate IsArray(v: Option<Json>) {
    v.Some? && v.value.JArr?
  }

  /** The `task.acceptance_criteria` member of a packet. */
  function Criteria(wp: Json): Option<Json> {
    Member(Member(Some(wp), "task"), "acceptance_criteria")
  }

  /** A work packet whose required string fields are non-blank strings and
      whose four list fields are arrays: every read of `renderTaskMd` passes. */
  predicate ReadablePacket(wp: Json) {
    var p := Some(wp);
    && NonBlankString(Member(p, "id")) && NonBlankString(Member(p, "title"))
    && IsArray(Criteria(wp)) && IsArray(Member(p, "definition_of_done"))
    && IsArray(Member(p, "covers")) && IsArray(Member(p, "files"))
  }

  /** The reads at the top of `renderTaskMd`, in its order: `id`, `title`,
      then the optional `epic` and `task.description`, then the four arrays.
      The first read that fails decides the error; otherwise every field is
      the packet's own value, trimmed, and every list keeps the array's
      non-blank strings. */
  function ReadWorkPacket(wp: Json): (r: Result<TaskFields, string>)
    ensures r.Ok? ==> WellFormed(r.value)
    ensures r.Ok? ==> wp.JObj?
    ensures wp.JObj? && "id" !in wp.fields ==> r == Err("Invalid " + "id")
    ensures r.Ok? <==> ReadablePacket(wp)
    ensures wp.JNull? ==> r == Err(NullPacketError)
    ensures var p := Some(wp);
      !wp.JNull? && !NonBlankString(Member(p, "id")) ==> r == Err("Invalid " + "id")
    ensures var p := Some(wp);
      NonBlankString(Member(p, "id")) && !NonBlankString(Member(p, "title")) ==> r == Err("Invalid " + "title")
    ensures var p := Some(wp);
      NonBlankString(Member(p, "id")) && NonBlankString(Member(p, "title")) && !IsArray(Criteria(wp)) ==>
        r == Err("Invalid " + "acceptance_criteria")
    ensures var p := Some(wp);
      NonBlankString(Member(p, "id")) && NonBlankString(Member(p, "title")) && IsArray(Criteria(wp))
      && !IsArray(Member(p, "definition_of_done")) ==>
        r == Err("Invalid " + "definition_of_done")
    ensures var p := Some(wp);
      NonBlankString(Member(p, "id")) && NonBlankString(Member(p, "title")) && IsArray(Criteria(wp))
      && IsArray(Member(p, "definition_of_done")) && !IsArray(Member(p, "covers")) ==>
        r == Err("Invalid " + "covers")
    ensures var p := Some(wp);
      NonBlankString(Member(p, "id")) && NonBlankString(Member(p, "title")) && IsArray(Criteria(wp))
      && IsArray(Member(p, "definition_of_done")) && IsArray(Member(p, "covers")) && !IsArray(Member(p, "files")) ==>
        r == Err("Invalid " + "files")
    ensures r.Ok? ==> var p := Some(wp);
      && r.value.id == Trim(Member(p, "id").value.s)
      && r.value.title == Trim(Member(p, "title").value.s)
      && r.value.epic == OptionalText(Member(p, "epic"))
      && r.value.description == OptionalText(Member(Member(p, "task"), "description"))
      && r.value.acceptance == KeepStrings(Criteria(wp).value.elems)
      && r.value.done == KeepStrings(Member(p, "definition_of_done").value.elems)
      && r.value.covers == KeepStrings(Member(p, "covers").value.elems)
      && r.value.files == KeepStrings(Member(p, "files").value.elems)
  {
    if wp.JNull? then Err(NullPacketError)
    else
      var p := Some(wp);
      match MustString(Member(p, "id"), "id")
      case Err(e) => Err(e)
      case Ok(id) =>
        match MustString(Member(p, "title"), "title")
        case Err(e) => Err(e)
        case Ok(title) =>
          var epic := OptionalText(Member(p, "epic"));
          var task := Member(p, "task");
          var desc := if Truthy(task) then OptionalText(Member(task, "description")) else "";
          ReadLists(TaskFields(id, title, epic, desc, [], [], [], []), p, task)
  }

  /** The four array reads of `renderTaskMd`, filling in `head`'s lists. */
  function ReadLists(head: TaskFields, p: Option<Json>, task: Option<Json>): (r: Result<TaskFields, string>)
    requires WellFormed(head)
    ensures r.Ok? ==> WellFormed(r.value)
    ensures r.Ok? ==> r.value.id == head.id && r.value.title == head.title
    ensures r.Ok? ==> r.value.epic == head.epic && r.value.description == head.description
    ensures r.Ok? ==> p.Some? && p.value.JObj?
    ensures r.Ok? <==>
      && IsArray(Member(task, "acceptance_criteria")) && IsArray(Member(p, "definition_of_done"))
      && IsArray(Member(p, "covers")) && IsArray(Member(p, "files"))
    ensures !IsArray(Member(task, "acceptance_criteria")) ==> r == Err("Invalid " + "acceptance_criteria")
    ensures IsArray(Member(task, "acceptance_criteria")) && !IsArray(Member(p, "definition_of_done")) ==>
      r == Err("Invalid " + "definition_of_done")
    ensures
      && IsArray(Member(task, "acceptance_criteria")) && IsArray(Member(p, "definition_of_done"))
      && !IsArray(Member(p, "covers"))
      ==> r == Err("Invalid " + "covers")
    ensures
      && IsArray(Member(task, "acceptance_criteria")) && IsArray(Member(p, "definition_of_done"))
      && IsArray(Member(p, "covers")) && !IsArray(Member(p, "files"))
      ==> r == Err("Invalid " + "files")
    ensures r.Ok? ==>
      && r.value.acceptance == KeepStrings(Member(task, "acceptance_criteria").value.elems)
      && r.value.done == KeepStrings(Member(p, "definition_of_done").value.elems)
      && r.value.covers == KeepStrings(Member(p, "covers").value.elems)
      && r.value.files == KeepStrings(Member(p, "files").value.elems)
  {
    match AsStringArray(Member(task, "acceptance_criteria"), "acceptance_criteria")
    case Err(e) => Err(e)
    case Ok(ac) =>
      match AsStringArray(Member(p, "definition_of_done"), "definition_of_done")
      case Err(e) => Err(e)
      case Ok(dod) =>
        match AsStringArray(Member(p, "covers"), "covers")
        case Err(e) => Err(e)
        case Ok(covers) =>
          match AsStringArray(Member(p, "files"), "files")
          case Err(e) => Err(e)
          case Ok(files) => Ok(head.(acceptance := ac, done := dod, covers := covers, files := files))
  }

  /** One `- ` bullet per item. */
  function BulletLines(xs: seq<string>): (r: seq<string>)
    ensures |r| == |xs|
  {
    seq(|xs|, k requires 0 <= k < |xs| => "- " + xs[k])
  }

  /** `formatBullets(lines)`. */
  function FormatBullets(xs: seq<string>): string {
    if |xs| > 0 then Join(BulletLines(xs), "\n") else "- (none)"
  }

  function EpicLine(f: TaskFields): string {
    "- Epic: " + (if f.epic != "" then f.epic else "(none)")
  }

  function WorkPacketLine(f: TaskFields): string {
    "- Work-packet: " + f.id + " - " + f.title
  }

  function CoversLine(f: TaskFields): string {
    "- Covers: " + (if |f.covers| > 0 then Join(f.covers, ", ") else "(none)")
  }

  const NoDescription := "(no description provided)"

  function Goal(f: TaskFields): string {
    if f.description != "" then f.description else NoDescription
  }

  const FilesHeadingLine := "## Files to create"

  function PreambleGroup(): seq<string> {
    ["# TASK", ""]
  }

  function ContextGroup(f: TaskFields, wpPath: string): seq<string> {
    ["## Context", EpicLine(f), WorkPacketLine(f), "- Source: " + wpPath, CoversLine(f), ""]
  }

  function GoalGroup(f: TaskFields): seq<string> {
    ["## Goal", Goal(f), ""]
  }

  function AcceptanceGroup(f: TaskFields): seq<string> {
    ["## Acceptance Criteria", FormatBullets(f.acceptance), ""]
  }

  function DoneGroup(f: TaskFields): seq<string> {
    ["## Definition of Done", FormatBullets(f.done), ""]
  }

  /** The pieces of the rendered task before the "Files to create" section,
      grouped by section; the source's array literal is their concatenation. */
  function BodyPieces(f: TaskFields, wpPath: string): seq<string> {
    PreambleGroup() + ContextGroup(f, wpPath) + GoalGroup(f) + AcceptanceGroup(f) + DoneGroup(f)
  }

  /** The rendered task with a given body for the "Files to create" section. */
  function RenderWith(f: TaskFields, wpPath: string, filesSection: string): string {
    Join(BodyPieces(f, wpPath) + [FilesHeadingLine, filesSection, ""], "\n")
  }

  /** `renderTaskMd` once the fields are read. */
  function RenderTaskMd(f: TaskFields, wpPath: string): string {
    RenderWith(f, wpPath, FormatBullets(f.files))
  }

  /** `renderTaskMd({ wp, wpPath })`: the first failing read's error, or the
      Markdown text. A readable packet renders, and when its free text keeps
      to single lines without `##`, the text has the five sections in order
      and its "Files to create" section reads back, through the parser of
      scripts/ai-run.mjs, as the packet's `files` strings, trimmed, or as
      `(none)` when there are none. */
  function RenderTask(wp: Json, wpPath: string): (r: Result<string, string>)
    ensures r.Ok? <==> ReadablePacket(wp)
    ensures r.Err? ==> ReadWorkPacket(wp) == Err(r.error)
    ensures r.Ok? && FreeTextOk(ReadWorkPacket(wp).value, wpPath) ==>
      var files := KeepStrings(Member(Some(wp), "files").value.elems);
      (forall k :: 0 <= k < |files| ==> NoBold(files[k]) && NoLineTerminator(files[k])) ==>
        ParseRequiredFiles(Trim(r.value)) == if |files| > 0 then files else [NoneItem]
    ensures r.Ok? && FreeTextOk(ReadWorkPacket(wp).value, wpPath) ==>
      var files := KeepStrings(Member(Some(wp), "files").value.elems);
      (forall k :: 0 <= k < |files| ==> NoHeadingLine(files[k])) ==>
        SectionHeadings(Lines(r.value))
          == ["## Context", "## Goal", "## Acceptance Criteria", "## Definition of Done", FilesHeadingLine]
  {
    match ReadWorkPacket(wp)
    case Err(e) => Err(e)
    case Ok(f) =>
      RenderFacts(f, wpPath);
      Ok(RenderTaskMd(f, wpPath))
  }

  /** The read-back facts `RenderTask` states, for fields already read. */
  lemma RenderFacts(f: TaskFields, wpPath: string)
    ensures
      && WellFormed(f) && FreeTextOk(f, wpPath)
      && (forall k :: 0 <= k < |f.files| ==> NoBold(f.files[k]) && NoLineTerminator(f.files[k]))
      ==> ParseRequiredFiles(Trim(RenderTaskMd(f, wpPath))) == if |f.files| > 0 then f.files else [NoneItem]
    ensures FreeTextOk(f, wpPath) && (forall k :: 0 <= k < |f.files| ==> NoHeadingLine(f.files[k])) ==>
      SectionHeadings(Lines(RenderTaskMd(f, wpPath)))
        == ["## Context", "## Goal", "## Acceptance Criteria", "## Definition of Done", FilesHeadingLine]
  {
    if WellFormed(f) && FreeTextOk(f, wpPath) &&
      (forall k :: 0 <= k < |f.files| ==> NoBold(f.files[k]) && NoLineTerminator(f.files[k]))
    {
      if |f.files| > 0 {
        RenderParseRoundTrip(f, wpPath);
      } else {
        NoneSectionParse(f, wpPath);
      }
    }
    if FreeTextOk(f, wpPath) && (forall k :: 0 <= k < |f.files| ==> NoHeadingLine(f.files[k])) {
      RenderSectionOrder(f, wpPath);
    }
  }

  /** The render with an empty "Files to create" section when there are no
      files, which is what the comment at scripts/wp-to-task.mjs:61 says the
      render means ("nothing enforced"). */
  function RenderTaskMdIntended(f: TaskFields, wpPath: string): string {
    RenderWith(f, wpPath, if |f.files| > 0 then FormatBullets(f.files) else "")
  }

  // ----- reading the render back -----

  /** No line of `s`, once trimmed, starts with `##`: free text that cannot
      open or close a Markdown section. */
  predicate NoHeadingLines(lines: seq<string>) {
    forall k :: 0 <= k < |lines| ==> !StartsWith(Trim(lines[k]), "##")
  }

  predicate NoHeadingLine(s: string) {
    NoHeadingLines(Lines(s))
  }

  /** The trimmed level-two headings of `lines`, in order. */
  function SectionHeadings(lines: seq<string>): (r: seq<string>)
    ensures |r| <= |lines|
    decreases |lines|
  {
    if |lines| == 0 then [] else HeadingOf(lines[0]) + SectionHeadings(lines[1..])
  }

  /** The line itself, trimmed, when it is a level-two heading. */
  function HeadingOf(line: string): (r: seq<string>)
    ensures |r| <= 1
  {
    if IsSectionHeading(Trim(line)) then [Trim(line)] else []
  }

  lemma {:induction false} SectionHeadingsAppend(a: seq<string>, b: seq<string>)
    ensures SectionHeadings(a + b) == SectionHeadings(a) + SectionHeadings(b)
    decreases |a|
  {
    if |a| == 0 {
      AppendEmpty(b);
      AppendEmpty(SectionHeadings(b));
    } else {
      HeadTailAppend(a, b);
      SectionHeadingsAppend(a[1..], b);
      var x, y, z := HeadingOf(a[0]), SectionHeadings(a[1..]), SectionHeadings(b);
      assert SectionHeadings(a + b) == x + (y + z);
      assert SectionHeadings(a) == x + y;
      AppendAssoc(x, y, z);
    }
  }

  lemma {:induction false} NoHeadingLinesFacts(lines: seq<string>)
    requires NoHeadingLines(lines)
    ensures NoFilesHeading(lines)
    ensures SectionHeadings(lines) == []
    decreases |lines|
  {
    if |lines| > 0 {
      NoHeadingLinesFacts(lines[1..]);
    }
  }

  lemma {:induction false} SplitAllNoHeading(xs: seq<string>)
    requires forall k :: 0 <= k < |xs| ==> NoHeadingLine(xs[k])
    ensures NoHeadingLines(SplitAll(xs, '\n'))
    decreases |xs|
  {
    if |xs| > 0 {
      SplitAllNoHeading(xs[1..]);
    }
  }

  /** A one-line text that, trimmed, does not start with `##`. */
  lemma OneLine(c: string)
    requires '\n' !in c && !StartsWith(Trim(c), "##")
    ensures NoHeadingLine(c)
  {
    SplitNoSep(c, '\n');
  }

  /** A one-line text starting with a character other than `#` or a space. */
  lemma PlainLine(c: string)
    requires '\n' !in c && |c| > 0 && !IsWs(c[0]) && c[0] != '#'
    ensures NoHeadingLine(c)
  {
    TrimKeepsFirst(c);
    OneLine(c);
  }

  /** A bullet-like one-line prefix keeps the first line of `s` from being a
      heading, and the remaining lines of `s` are its own. */
  lemma PrefixedPiece(c: string, s: string)
    requires '\n' !in c && |c| > 0 && c[0] == '-'
    requires NoHeadingLine(s)
    ensures NoHeadingLine(c + s)
  {
    var ls := Lines(s);
    SplitPrefixNoSep(c, s, '\n');
    var first := c + ls[0];
    var out := [first] + ls[1..];
    assert Lines(c + s) == out;
    DashLine(first);
    forall k | 0 <= k < |out| ensures !StartsWith(Trim(out[k]), "##") {
      if k > 0 {
        assert out[k] == ls[k];
      }
    }
  }

  /** A line starting with `-` is not a heading. */
  lemma DashLine(line: string)
    requires |line| > 0 && line[0] == '-'
    ensures !StartsWith(Trim(line), "##")
  {
    TrimKeepsFirst(line);
    var t := Trim(line);
    assert t[0] == '-';
    if |t| >= 2 {
      assert t[..2][0] == '-';
    }
  }

  lemma BulletsNoHeading(xs: seq<string>)
    requires forall k :: 0 <= k < |xs| ==> NoHeadingLine(xs[k])
    ensures NoHeadingLine(FormatBullets(xs))
  {
    if |xs| == 0 {
      PlainLine("- (none)");
    } else {
      var bs := BulletLines(xs);
      forall k | 0 <= k < |bs| ensures NoHeadingLine(bs[k]) {
        PrefixedPiece("- ", xs[k]);
      }
      SplitJoinAll(bs, '\n');
      SplitAllNoHeading(bs);
    }
  }

  /** The text a render needs to keep its section structure: free text with
      no `##` line, and one-line ids and covered requirement ids. The ids sit
      in the middle of a rendered line (`- Work-packet: <id> - <title>`,
      `- Covers: <a>, <b>`), so this model asks them to be one line rather
      than reasoning about a line break inside them. */
  predicate FreeTextOk(f: TaskFields, wpPath: string) {
    && '\n' !in f.id
    && (forall k :: 0 <= k < |f.covers| ==> '\n' !in f.covers[k])
    && NoHeadingLine(f.title) && NoHeadingLine(f.epic) && NoHeadingLine(f.description)
    && NoHeadingLine(wpPath)
    && (forall k :: 0 <= k < |f.acceptance| ==> NoHeadingLine(f.acceptance[k]))
    && (forall k :: 0 <= k < |f.done| ==> NoHeadingLine(f.done[k]))
  }

  /** The fixed level-two headings the render writes. */
  predicate FixedHeading(h: string) {
    && '\n' !in h && Trim(h) == h
    && IsSectionHeading(h) && !IsFilesHeading(h)
  }

  lemma FixedHeadingOf(title: string)
    requires |title| > 0 && !IsWs(title[0]) && LowerChar(title[0]) != 'f'
    requires '\n' !in title && !IsWs(title[|title| - 1])
    ensures FixedHeading("## " + title)
  {
    var h := "## " + title;
    assert h[3] == title[0] && h[|h| - 1] == title[|title| - 1];
    assert h[..2] == "##";
    TrimNoEnds(h);
    assert WsRunEnd(h, 3) == 3;
    assert WsRunEnd(h, 2) == 3;
    if 3 + |FilesHeadingTitle| <= |h| {
      assert Lower(h[3..3 + |FilesHeadingTitle|])[0] == LowerChar(h[3]);
    }
  }

  lemma ContextHeadingFixed()
    ensures FixedHeading("## Context")
  {
    FixedHeadingOf("Context");
    assert "## " + "Context" == "## Context";
  }

  lemma GoalHeadingFixed()
    ensures FixedHeading("## Goal")
  {
    FixedHeadingOf("Goal");
    assert "## " + "Goal" == "## Goal";
  }

  lemma AcceptanceHeadingFixed()
    ensures FixedHeading("## Acceptance Criteria")
  {
    var a, b := "## Acceptance", " Criteria";
    assert '\n' !in a && '\n' !in b;
    HeadingConcat(a, b);
    assert a + b == "## Acceptance Criteria";
  }

  lemma HeadingConcat(a: string, b: string)
    requires |a| > 3 && a[..3] == "## " && !IsWs(a[3]) && LowerChar(a[3]) != 'f'
    requires '\n' !in a && '\n' !in b && |b| > 0 && !IsWs(b[|b| - 1])
    ensures FixedHeading(a + b)
  {
    FixedHeadingOf((a + b)[3..]);
    assert "## " + (a + b)[3..] == a + b;
  }

  lemma DoneHeadingFixed()
    ensures FixedHeading("## Definition of Done")
  {
    var a, b := "## Definition", " of Done";
    assert '\n' !in a && '\n' !in b;
    HeadingConcat(a, b);
    assert a + b == "## Definition of Done";
  }

  /** A section group: a fixed heading followed by free-text pieces. */
  lemma GroupFacts(h: string, rest: seq<string>)
    requires FixedHeading(h)
    requires forall k :: 0 <= k < |rest| ==> NoHeadingLine(rest[k])
    ensures NoFilesHeading(SplitAll([h] + rest, '\n'))
    ensures SectionHeadings(SplitAll([h] + rest, '\n')) == [h]
  {
    HeadedLines(h, rest);
    HeadedHeadings(h, SplitAll(rest, '\n'));
    HeadedNoFiles(h, SplitAll(rest, '\n'));
  }

  lemma HeadedLines(h: string, rest: seq<string>)
    requires '\n' !in h
    requires forall k :: 0 <= k < |rest| ==> NoHeadingLine(rest[k])
    ensures SplitAll([h] + rest, '\n') == [h] + SplitAll(rest, '\n')
    ensures NoHeadingLines(SplitAll(rest, '\n'))
  {
    SplitNoSep(h, '\n');
    assert ([h] + rest)[0] == h;
    assert ([h] + rest)[1..] == rest;
    SplitAllNoHeading(rest);
  }

  lemma HeadedHeadings(h: string, tail: seq<string>)
    requires Trim(h) == h && IsSectionHeading(h)
    requires NoHeadingLines(tail)
    ensures SectionHeadings([h] + tail) == [h]
  {
    NoHeadingLinesFacts(tail);
    var all := [h] + tail;
    assert all[0] == h && all[1..] == tail;
    assert HeadingOf(h) == [h];
  }

  lemma HeadedNoFiles(h: string, tail: seq<string>)
    requires Trim(h) == h && !IsFilesHeading(h)
    requires NoHeadingLines(tail)
    ensures NoFilesHeading([h] + tail)
  {
    NoHeadingLinesFacts(tail);
    var all := [h] + tail;
    forall k | 0 <= k < |all| ensures !IsFilesHeading(Trim(all[k])) {
      if k > 0 {
        assert all[k] == tail[k - 1];
      }
    }
  }

  lemma EpicLineNoHeading(f: TaskFields)
    requires NoHeadingLine(f.epic)
    ensures NoHeadingLine(EpicLine(f))
  {
    var text := if f.epic != "" then f.epic else "(none)";
    if f.epic == "" {
      PlainLine("(none)");
    }
    PrefixedPiece("- Epic: ", text);
  }

  lemma WorkPacketLineNoHeading(f: TaskFields)
    requires '\n' !in f.id && NoHeadingLine(f.title)
    ensures NoHeadingLine(WorkPacketLine(f))
  {
    var c := "- Work-packet: " + f.id + " - ";
    assert '\n' !in c;
    assert WorkPacketLine(f) == c + f.title;
    PrefixedPiece(c, f.title);
  }

  lemma CoversLineNoHeading(f: TaskFields)
    requires forall k :: 0 <= k < |f.covers| ==> '\n' !in f.covers[k]
    ensures NoHeadingLine(CoversLine(f))
  {
    JoinWithout(f.covers, ", ", '\n');
    var c := CoversLine(f);
    assert '\n' !in c;
    OneLine("");
    PrefixedPiece(c, "");
    assert c + "" == c;
  }

  lemma GoalNoHeading(f: TaskFields)
    requires NoHeadingLine(f.description)
    ensures NoHeadingLine(Goal(f))
  {
    if f.description == "" {
      NoDescriptionNoHeading();
      assert Goal(f) == NoDescription;
    } else {
      assert Goal(f) == f.description;
    }
  }

  lemma NoDescriptionNoHeading()
    ensures NoHeadingLine(NoDescription)
  {
    assert '\n' !in NoDescription;
    PlainLine(NoDescription);
  }

  lemma NoFilesHeadingAppend(a: seq<string>, b: seq<string>)
    requires NoFilesHeading(a) && NoFilesHeading(b)
    ensures NoFilesHeading(a + b)
  {
    forall k | 0 <= k < |a + b| ensures !IsFilesHeading(Trim((a + b)[k])) {
      if k >= |a| {
        assert (a + b)[k] == b[k - |a|];
      }
    }
  }

  /** What a document's section structure is made of: the "Files to create"
      headings it lacks and the level-two headings it has. */
  predicate GroupShape(g: seq<string>, headings: seq<string>) {
    NoFilesHeading(SplitAll(g, '\n')) && SectionHeadings(SplitAll(g, '\n')) == headings
  }

  lemma GroupShapeAppend(g: seq<string>, hs: seq<string>, g2: seq<string>, hs2: seq<string>)
    requires GroupShape(g, hs) && GroupShape(g2, hs2)
    ensures GroupShape(g + g2, hs + hs2)
  {
    SplitAllAppend(g, g2, '\n');
    NoFilesHeadingAppend(SplitAll(g, '\n'), SplitAll(g2, '\n'));
    SectionHeadingsAppend(SplitAll(g, '\n'), SplitAll(g2, '\n'));
  }

  /** A `# ` title line is not a level-two heading. */
  lemma TitleLine(c: string)
    requires '\n' !in c && |c| > 1 && c[0] == '#' && c[1] == ' ' && !IsWs(c[|c| - 1])
    ensures NoHeadingLine(c)
  {
    TrimNoEnds(c);
    assert c[..2][1] == ' ';
    OneLine(c);
  }

  lemma PreambleShape()
    ensures GroupShape(PreambleGroup(), [])
  {
    TitleLine("# TASK");
    OneLine("");
    TwoPieceShape("# TASK", "");
  }

  /** Two free-text pieces make a group without headings. */
  lemma TwoPieceShape(a: string, b: string)
    requires NoHeadingLine(a) && NoHeadingLine(b)
    ensures GroupShape([a, b], [])
  {
    var g := [a, b];
    forall k | 0 <= k < |g| ensures NoHeadingLine(g[k]) {
      if k == 0 { assert g[k] == a; } else { assert g[k] == b; }
    }
    SplitAllNoHeading(g);
    NoHeadingLinesFacts(SplitAll(g, '\n'));
  }

  lemma ContextShape(f: TaskFields, wpPath: string)
    requires FreeTextOk(f, wpPath)
    ensures GroupShape(ContextGroup(f, wpPath), ["## Context"])
  {
    EpicLineNoHeading(f);
    WorkPacketLineNoHeading(f);
    PrefixedPiece("- Source: ", wpPath);
    CoversLineNoHeading(f);
    ContextHeadingFixed();
    FourPieceShape(ContextGroup(f, wpPath), "## Context",
      EpicLine(f), WorkPacketLine(f), "- Source: " + wpPath, CoversLine(f));
  }

  /** A heading, four free-text pieces and an empty piece. */
  lemma FourPieceShape(g: seq<string>, h: string, a: string, b: string, c: string, d: string)
    requires g == [h, a, b, c, d, ""] && FixedHeading(h)
    requires NoHeadingLine(a) && NoHeadingLine(b) && NoHeadingLine(c) && NoHeadingLine(d)
    ensures GroupShape(g, [h])
  {
    var rest := [a, b, c, d, ""];
    OneLine("");
    assert g == [h] + rest;
    forall k | 0 <= k < |rest| ensures NoHeadingLine(rest[k]) {
      if k == 0 { assert rest[k] == a; }
      else if k == 1 { assert rest[k] == b; }
      else if k == 2 { assert rest[k] == c; }
      else if k == 3 { assert rest[k] == d; }
      else { assert rest[k] == ""; }
    }
    GroupFacts(h, rest);
  }

  /** A heading, one free-text piece and an empty piece. */
  lemma OnePieceShape(g: seq<string>, h: string, a: string)
    requires g == [h, a, ""] && FixedHeading(h)
    requires NoHeadingLine(a)
    ensures GroupShape(g, [h])
  {
    var rest := [a, ""];
    OneLine("");
    assert g == [h] + rest;
    forall k | 0 <= k < |rest| ensures NoHeadingLine(rest[k]) {
      if k == 0 { assert rest[k] == a; } else { assert rest[k] == ""; }
    }
    GroupFacts(h, rest);
  }

  lemma GoalShape(f: TaskFields)
    requires NoHeadingLine(f.description)
    ensures GroupShape(GoalGroup(f), ["## Goal"])
  {
    GoalNoHeading(f);
    GoalHeadingFixed();
    OnePieceShape(GoalGroup(f), "## Goal", Goal(f));
  }

  lemma AcceptanceShape(f: TaskFields)
    requires forall k :: 0 <= k < |f.acceptance| ==> NoHeadingLine(f.acceptance[k])
    ensures GroupShape(AcceptanceGroup(f), ["## Acceptance Criteria"])
  {
    BulletsNoHeading(f.acceptance);
    AcceptanceHeadingFixed();
    OnePieceShape(AcceptanceGroup(f), "## Acceptance Criteria", FormatBullets(f.acceptance));
  }

  lemma DoneShape(f: TaskFields)
    requires forall k :: 0 <= k < |f.done| ==> NoHeadingLine(f.done[k])
    ensures GroupShape(DoneGroup(f), ["## Definition of Done"])
  {
    BulletsNoHeading(f.done);
    DoneHeadingFixed();
    OnePieceShape(DoneGroup(f), "## Definition of Done", FormatBullets(f.done));
  }

  /** The four groups before the "Files to create" heading: their level-two
      headings, in order, and no "Files to create" heading among them. */
  lemma BodyFacts(f: TaskFields, wpPath: string)
    requires FreeTextOk(f, wpPath)
    ensures GroupShape(BodyPieces(f, wpPath),
      ["## Context", "## Goal", "## Acceptance Criteria", "## Definition of Done"])
  {
    PreambleShape();
    ContextShape(f, wpPath);
    GoalShape(f);
    AcceptanceShape(f);
    DoneShape(f);
    FiveGroups(PreambleGroup(), ContextGroup(f, wpPath), GoalGroup(f), AcceptanceGroup(f), DoneGroup(f),
      "## Context", "## Goal", "## Acceptance Criteria", "## Definition of Done");
  }

  lemma FiveGroups(g0: seq<string>, g1: seq<string>, g2: seq<string>, g3: seq<string>, g4: seq<string>,
                   h1: string, h2: string, h3: string, h4: string)
    requires GroupShape(g0, []) && GroupShape(g1, [h1]) && GroupShape(g2, [h2])
    requires GroupShape(g3, [h3]) && GroupShape(g4, [h4])
    ensures GroupShape(g0 + g1 + g2 + g3 + g4, [h1, h2, h3, h4])
  {
    Displays(h1, h2, h3, h4);
    AppendEmpty([h1]);
    GroupShapeAppend(g0, [], g1, [h1]);
    GroupShapeAppend(g0 + g1, [h1], g2, [h2]);
    GroupShapeAppend(g0 + g1 + g2, [h1, h2], g3, [h3]);
    GroupShapeAppend(g0 + g1 + g2 + g3, [h1, h2, h3], g4, [h4]);
  }

  lemma FilesHeadingIsOne()
    ensures IsFilesHeading(FilesHeadingLine) && IsSectionHeading(FilesHeadingLine)
    ensures Trim(FilesHeadingLine) == FilesHeadingLine && '\n' !in FilesHeadingLine
  {
    FilesHeadingShape();
    FilesHeadingMatches();
  }

  lemma FilesHeadingShape()
    ensures IsSectionHeading(FilesHeadingLine)
    ensures Trim(FilesHeadingLine) == FilesHeadingLine && '\n' !in FilesHeadingLine
  {
    FilesHeadingOneLine();
    FilesHeadingTrimmed();
  }

  lemma FilesHeadingOneLine()
    ensures '\n' !in FilesHeadingLine
  {
  }

  lemma FilesHeadingTrimmed()
    ensures Trim(FilesHeadingLine) == FilesHeadingLine
  {
    TrimNoEnds(FilesHeadingLine);
  }

  lemma FilesHeadingMatches()
    ensures IsFilesHeading(FilesHeadingLine)
  {
    var h := FilesHeadingLine;
    assert WsRunEnd(h, 3) == 3;
    assert WsRunEnd(h, 2) == 3;
    assert h[3..18] == "Files to create";
    FilesTitleLower();
  }

  lemma FilesTitleLower()
    ensures Lower("Files to create") == FilesHeadingTitle
  {
    var t := "Files to create";
    assert Lower(t)[0] == 'f';
    forall i | 1 <= i < |t| ensures Lower(t)[i] == t[i] {
      assert !('A' <= t[i] <= 'Z');
    }
  }

  /** Each bullet line of clean, single-line items reads back as its item. */
  lemma {:induction false} CollectBullets(xs: seq<string>)
    requires forall k :: 0 <= k < |xs| ==> Clean(xs[k]) && NoLineTerminator(xs[k])
    ensures CollectRequired(BulletLines(xs), true) == xs
    decreases |xs|
  {
    if |xs| > 0 {
      var line := "- " + xs[0];
      BulletLineCollected(xs[0]);
      var bs := BulletLines(xs);
      assert bs[0] == line;
      assert bs[1..] == BulletLines(xs[1..]);
      CollectBullets(xs[1..]);
      assert CollectRequired(bs, true) == [xs[0]] + CollectRequired(bs[1..], true);
      ConsTail(xs);
    }
  }

  /** One bullet line, as the parser sees it inside the section. */
  lemma BulletLineCollected(item: string)
    requires Clean(item) && NoLineTerminator(item)
    ensures var line := "- " + item;
      && Trim(line) == line && !IsFilesHeading(line) && !IsSectionHeading(line)
      && BulletItem(line) == Some(item) && Trim(item) == item
  {
    var line := "- " + item;
    assert line[..2][0] == '-';
    assert !StartsWith(line, "##");
    TrimNoEnds(line);
    BulletOfItem(item);
    TrimNoEnds(item);
  }

  lemma JoinedEnds(body: seq<string>, h: string)
    requires |body| > 0 && |body[0]| > 0 && !IsWs(body[0][0])
    requires |h| > 0 && !IsWs(h[|h| - 1])
    ensures var x := Join(body + [h], "\n"); |x| > 0 && !IsWs(x[0]) && !IsWs(x[|x| - 1])
  {
    var xs := body + [h];
    JoinStartsWithFirst(xs, "\n");
    JoinEndsWithLast(xs, "\n");
    var x := Join(xs, "\n");
    assert x[..|xs[0]|][0] == x[0];
    assert x[|x| - |h|..][|h| - 1] == x[|x| - 1];
  }

  lemma LinesOfJoinedHeading(body: seq<string>, h: string)
    requires '\n' !in h
    ensures Lines(Join(body + [h], "\n")) == SplitAll(body, '\n') + [h]
  {
    SplitJoinAll(body + [h], '\n');
    SplitAllAppend(body, [h], '\n');
    SplitNoSep(h, '\n');
    assert [h][1..] == [];
    assert SplitAll([h], '\n') == [h];
  }

  /** The lines of a trimmed document made of `body`, a heading line `h`,
      the section under it and a final empty piece: trimming removes the
      final line break, and the whole trailing one when the section is empty. */
  lemma TrimmedDocLines(body: seq<string>, h: string, section: string)
    requires |body| > 0 && |body[0]| > 0 && !IsWs(body[0][0])
    requires |h| > 0 && '\n' !in h && !IsWs(h[|h| - 1])
    requires section == "" || !IsWs(section[|section| - 1])
    ensures Lines(Trim(Join(body + [h, section, ""], "\n")))
      == SplitAll(body, '\n') + [h] + (if section == "" then [] else Lines(section))
  {
    var x := Join(body + [h], "\n");
    DocText(body, h, section);
    JoinedEnds(body, h);
    LinesOfJoinedHeading(body, h);
    if section == "" {
      TrimmedEmptySection(x);
    } else {
      TrimmedSection(x, section);
    }
  }

  lemma DocText(body: seq<string>, h: string, section: string)
    requires |body| > 0
    ensures Join(body + [h, section, ""], "\n") == Join(body + [h], "\n") + "\n" + section + "\n"
  {
    var xs := body + [h];
    var ys := xs + [section];
    AppendThree(body, h, section, "");
    JoinAppendOne(xs, section, "\n");
    JoinAppendOne(ys, "", "\n");
    AppendEmpty(Join(ys, "\n") + "\n");
  }

  lemma TrimmedEmptySection(x: string)
    requires |x| > 0 && !IsWs(x[0]) && !IsWs(x[|x| - 1])
    ensures Trim(x + "\n" + "" + "\n") == x
  {
    assert x + "\n" + "" + "\n" == x + "\n\n";
    TrimDropsTrailingWs(x, "\n\n");
  }

  lemma TrimmedSection(x: string, section: string)
    requires |x| > 0 && !IsWs(x[0])
    requires |section| > 0 && !IsWs(section[|section| - 1])
    ensures Lines(Trim(x + "\n" + section + "\n")) == Lines(x) + Lines(section)
  {
    var y := x + "\n" + section;
    assert y[0] == x[0] && y[|y| - 1] == section[|section| - 1];
    TrimDropsTrailingWs(y, "\n");
    SplitAtSep(x, section, '\n');
    assert x + ['\n'] + section == y;
  }

  /** The lines of the trimmed render: the body's lines, the heading, then
      the section's own lines (none for an empty section). */
  lemma RenderLines(f: TaskFields, wpPath: string, section: string)
    requires section == "" || (!IsWs(section[|section| - 1]))
    ensures Lines(Trim(RenderWith(f, wpPath, section)))
      == SplitAll(BodyPieces(f, wpPath), '\n') + [FilesHeadingLine]
         + (if section == "" then [] else Lines(section))
  {
    var body := BodyPieces(f, wpPath);
    assert body[0] == "# TASK";
    FilesHeadingShape();
    assert FilesHeadingLine[17] == 'e';
    TrimmedDocLines(body, FilesHeadingLine, section);
  }

  /** Once the "Files to create" heading is reached after text without one,
      collection goes on in the section. */
  lemma CollectAfterHeading(body: seq<string>, h: string, rest: seq<string>)
    requires NoFilesHeading(body) && IsFilesHeading(Trim(h))
    ensures CollectRequired(body + [h] + rest, false) == CollectRequired(rest, true)
  {
    var t := [h] + rest;
    assert body + [h] + rest == body + t;
    CollectSkipsPrefix(body, t);
    assert t[0] == h && t[1..] == rest;
    assert CollectRequired(t, false) == CollectRequired(t[1..], true);
  }

  /** The parse of a text whose collected items have no bold markers is
      those items. */
  lemma ParseOfCollected(text: string, items: seq<string>)
    requires CollectRequired(Lines(text), false) == items
    requires forall k :: 0 <= k < |items| ==> NoBold(items[k])
    ensures ParseRequiredFiles(text) == items
  {
    forall k | 0 <= k < |items| ensures RemoveBold(items[k]) == items[k] {
      RemoveBoldNoBold(items[k]);
    }
  }

  /** Round trip: the paths a work packet's render declares are exactly the
      paths `parseRequiredFilesFromTask` reads back from the trimmed task
      text, in order, when the packet has at least one file. */
  lemma RenderParseRoundTrip(f: TaskFields, wpPath: string)
    requires WellFormed(f) && FreeTextOk(f, wpPath)
    requires |f.files| > 0
    requires forall k :: 0 <= k < |f.files| ==> NoBold(f.files[k]) && NoLineTerminator(f.files[k])
    ensures ParseRequiredFiles(Trim(RenderTaskMd(f, wpPath))) == f.files
  {
    var text := Trim(RenderTaskMd(f, wpPath));
    var body := SplitAll(BodyPieces(f, wpPath), '\n');
    var bullets := BulletLines(f.files);
    BulletSection(f.files);
    RenderLines(f, wpPath, FormatBullets(f.files));
    assert Lines(text) == body + [FilesHeadingLine] + bullets;
    BodyFacts(f, wpPath);
    FilesHeadingIsOne();
    CollectAfterHeading(body, FilesHeadingLine, bullets);
    CollectBullets(f.files);
    ParseOfCollected(text, f.files);
  }

  /** A non-empty list renders as its bullet lines, ending in a non-space. */
  lemma BulletSection(xs: seq<string>)
    requires |xs| > 0
    requires forall k :: 0 <= k < |xs| ==> Clean(xs[k]) && NoLineTerminator(xs[k])
    ensures var s := FormatBullets(xs); |s| > 0 && !IsWs(s[|s| - 1])
    ensures Lines(FormatBullets(xs)) == BulletLines(xs)
  {
    BulletsEnd(xs);
    BulletsOneLine(xs);
    SplitJoin(BulletLines(xs), '\n');
  }

  lemma BulletsEnd(xs: seq<string>)
    requires |xs| > 0 && Clean(xs[|xs| - 1])
    ensures var s := FormatBullets(xs); |s| > 0 && !IsWs(s[|s| - 1])
  {
    var bullets := BulletLines(xs);
    var section := Join(bullets, "\n");
    var last := bullets[|bullets| - 1];
    JoinEndsWithLast(bullets, "\n");
    assert last == "- " + xs[|xs| - 1];
    assert last[|last| - 1] == xs[|xs| - 1][|xs[|xs| - 1]| - 1];
    assert section[|section| - |last|..][|last| - 1] == section[|section| - 1];
  }

  lemma BulletsOneLine(xs: seq<string>)
    requires forall k :: 0 <= k < |xs| ==> NoLineTerminator(xs[k])
    ensures forall k :: 0 <= k < |BulletLines(xs)| ==> '\n' !in BulletLines(xs)[k]
  {
    var bullets := BulletLines(xs);
    forall k | 0 <= k < |bullets| ensures '\n' !in bullets[k] {
      assert bullets[k] == "- " + xs[k];
      assert IsLineTerminator('\n');
    }
  }

  /** As written, a packet with no files still gets a one-bullet section,
      `- (none)`, and the parser reads it as the required path `(none)`: the
      generated diff must then touch a file literally named `(none)`: every
      diff without that header is rejected, naming `(none)`. */
  lemma EmptyFilesRequireNonePath(f: TaskFields, wpPath: string, diff: string)
    requires FreeTextOk(f, wpPath)
    requires |f.files| == 0
    ensures ParseRequiredFiles(Trim(RenderTaskMd(f, wpPath))) == [NoneItem]
    ensures MustIncludeRequiredFiles("", ParseRequiredFiles(Trim(RenderTaskMd(f, wpPath)))) == Some([NoneItem])
    ensures MustIncludeRequiredFiles(diff, ParseRequiredFiles(Trim(RenderTaskMd(f, wpPath)))) ==
      if Contains(diff, Header(NoneItem)) then None else Some([NoneItem])
  {
    NoneSectionParse(f, wpPath);
    EmptyDiffMissesAll([NoneItem]);
    OnePathVerdict(diff, NoneItem);
  }

  /** With one required path, the verdict depends only on its header. */
  lemma OnePathVerdict(diff: string, p: string)
    ensures MustIncludeRequiredFiles(diff, [p]) ==
      if Contains(diff, Header(p)) then None else Some([p])
  {
    assert [p][0] == p && [p][1..] == [];
    assert MissingPaths(diff, []) == [];
    if !Contains(diff, Header(p)) {
      assert MissingPaths(diff, [p]) == [p] + [] == [p];
      assert |MissingPaths(diff, [p])| > 0;
    }
  }

  lemma NoneSectionParse(f: TaskFields, wpPath: string)
    requires FreeTextOk(f, wpPath)
    requires |f.files| == 0
    ensures ParseRequiredFiles(Trim(RenderTaskMd(f, wpPath))) == [NoneItem]
  {
    assert NoneBullet == "- " + NoneItem;
    assert RenderTaskMd(f, wpPath) == RenderWith(f, wpPath, "- " + NoneItem);
    assert Clean(NoneItem) && NoLineTerminator(NoneItem) && NoBold(NoneItem);
    OneBulletSectionParse(f, wpPath, NoneItem);
  }

  /** A "Files to create" section of one bullet requires exactly its item. */
  lemma OneBulletSectionParse(f: TaskFields, wpPath: string, item: string)
    requires FreeTextOk(f, wpPath)
    requires Clean(item) && NoLineTerminator(item) && NoBold(item)
    ensures ParseRequiredFiles(Trim(RenderWith(f, wpPath, "- " + item))) == [item]
  {
    var text := Trim(RenderWith(f, wpPath, "- " + item));
    OneBulletLines(f, wpPath, item);
    BodyFacts(f, wpPath);
    ParseOneBullet(text, SplitAll(BodyPieces(f, wpPath), '\n'), item);
  }

  lemma OneBulletLines(f: TaskFields, wpPath: string, item: string)
    requires Clean(item) && NoLineTerminator(item)
    ensures Lines(Trim(RenderWith(f, wpPath, "- " + item)))
      == SplitAll(BodyPieces(f, wpPath), '\n') + [FilesHeadingLine] + ["- " + item]
  {
    var bullet := "- " + item;
    SingleBullet(item);
    assert bullet[|bullet| - 1] == item[|item| - 1];
    RenderLines(f, wpPath, bullet);
  }

  lemma ParseOneBullet(text: string, body: seq<string>, item: string)
    requires Lines(text) == body + [FilesHeadingLine] + ["- " + item]
    requires NoFilesHeading(body)
    requires Clean(item) && NoLineTerminator(item) && NoBold(item)
    ensures ParseRequiredFiles(text) == [item]
  {
    FilesHeadingIsOne();
    SingleBullet(item);
    CollectAfterHeading(body, FilesHeadingLine, ["- " + item]);
    ParseOfCollected(text, [item]);
  }

  /** An empty diff lacks every header. */
  lemma EmptyDiffMissesAll(required: seq<string>)
    requires |required| > 0
    ensures MustIncludeRequiredFiles("", required) == Some(required)
  {
    forall k | 0 <= k < |required| ensures !Contains("", Header(required[k])) {
      assert |Header(required[k])| > 0;
    }
    assert MissingPaths("", required) == required by {
      MissingAll(required);
    }
  }

  lemma {:induction false} MissingAll(required: seq<string>)
    ensures MissingPaths("", required) == required
    decreases |required|
  {
    if |required| > 0 {
      assert |Header(required[0])| > 0;
      assert !Contains("", Header(required[0]));
      MissingAll(required[1..]);
      assert [required[0]] + required[1..] == required;
    }
  }

  const NoneItem := "(none)"
  const NoneBullet := "- (none)"

  /** A section of one bullet is one line, read back as its item. */
  lemma SingleBullet(item: string)
    requires Clean(item) && NoLineTerminator(item)
    ensures Lines("- " + item) == ["- " + item]
    ensures CollectRequired(["- " + item], true) == [item]
  {
    assert IsLineTerminator('\n');
    assert '\n' !in "- " + item;
    SplitNoSep("- " + item, '\n');
    CollectBullets([item]);
    assert BulletLines([item]) == ["- " + item];
  }

  /** With the section left empty for no files, nothing is required, and
      otherwise the render reads back its files as before. */
  lemma IntendedRenderParse(f: TaskFields, wpPath: string)
    requires WellFormed(f) && FreeTextOk(f, wpPath)
    requires forall k :: 0 <= k < |f.files| ==> NoBold(f.files[k]) && NoLineTerminator(f.files[k])
    ensures ParseRequiredFiles(Trim(RenderTaskMdIntended(f, wpPath))) == f.files
    ensures MustIncludeRequiredFiles("", ParseRequiredFiles(Trim(RenderTaskMdIntended(f, wpPath)))).None?
      <==> |f.files| == 0
  {
    if |f.files| > 0 {
      RenderParseRoundTrip(f, wpPath);
      assert Header(f.files[0])[0] == 'd';
    } else {
      var body := SplitAll(BodyPieces(f, wpPath), '\n');
      RenderLines(f, wpPath, "");
      BodyFacts(f, wpPath);
      FilesHeadingIsOne();
      CollectAfterHeading(body, FilesHeadingLine, []);
      ParseOfCollected(Trim(RenderTaskMdIntended(f, wpPath)), []);
    }
  }

  /** The render's level-two sections come in a fixed order, with the
      "Files to create" section last. */
  lemma RenderSectionOrder(f: TaskFields, wpPath: string)
    requires FreeTextOk(f, wpPath)
    requires forall k :: 0 <= k < |f.files| ==> NoHeadingLine(f.files[k])
    ensures SectionHeadings(Lines(RenderTaskMd(f, wpPath)))
      == ["## Context", "## Goal", "## Acceptance Criteria", "## Definition of Done", FilesHeadingLine]
  {
    var body := BodyPieces(f, wpPath);
    var tail := [FilesHeadingLine, FormatBullets(f.files), ""];
    BodyFacts(f, wpPath);
    FilesGroupHeadings(f);
    SplitAllAppend(body, tail, '\n');
    SectionHeadingsAppend(SplitAll(body, '\n'), SplitAll(tail, '\n'));
    SplitJoinAll(body + tail, '\n');
  }

  lemma FilesGroupHeadings(f: TaskFields)
    requires forall k :: 0 <= k < |f.files| ==> NoHeadingLine(f.files[k])
    ensures SectionHeadings(SplitAll([FilesHeadingLine, FormatBullets(f.files), ""], '\n')) == [FilesHeadingLine]
  {
    var rest := [FormatBullets(f.files), ""];
    BulletsNoHeading(f.files);
    OneLine("");
    FilesHeadingShape();
    assert [FilesHeadingLine, FormatBullets(f.files), ""] == [FilesHeadingLine] + rest;
    HeadingGroupHeadings(FilesHeadingLine, rest);
  }

  /** A heading followed by free text contributes just that heading. */
  lemma HeadingGroupHeadings(h: string, rest: seq<string>)
    requires '\n' !in h && Trim(h) == h && IsSectionHeading(h)
    requires forall k :: 0 <= k < |rest| ==> NoHeadingLine(rest[k])
    ensures SectionHeadings(SplitAll([h] + rest, '\n')) == [h]
  {
    HeadedLines(h, rest);
    HeadedHeadings(h, SplitAll(rest, '\n'));
  }
}
