/**
 * The "Files to create" contract of scripts/ai-run.mjs: reading the required
 * paths out of the task text (`parseRequiredFilesFromTask`) and insisting
 * that the diff touches each of them (`mustIncludeRequiredFiles`).
 */
module RequiredFiles {

  import opened Wrappers
  import opened Strings

  /** The end of the whitespace run that starts at `i`. */
  function WsRunEnd(s: string, i: nat): (k: nat)
    requires i <= |s|
    ensures i <= k <= |s|
    ensures forall m :: i <= m < k ==> IsWs(s[m])
    ensures k == |s| || !IsWs(s[k])
    decreases |s| - i
  {
    if i < |s| && IsWs(s[i]) then WsRunEnd(s, i + 1) else i
  }

  const FilesHeadingTitle := "files to create"

  /** `/^##\s+Files to create\s*$/i.test(line)`. The greedy `\s+` must stop
      at the end of the whitespace run, since the title starts with a letter. */
  predicate IsFilesHeading(line: string) {
    && StartsWith(line, "##")
    && var k := WsRunEnd(line, 2);
       && k > 2
       && k + |FilesHeadingTitle| <= |line|
       && Lower(line[k..k + |FilesHeadingTitle|]) == FilesHeadingTitle
       && forall m :: k + |FilesHeadingTitle| <= m < |line| ==> IsWs(line[m])
  }

  /** `/^##\s+/.test(line)`: a level-two heading. `###` is not one. */
  predicate IsSectionHeading(line: string) {
    StartsWith(line, "##") && |line| > 2 && IsWs(line[2])
  }

  predicate NoLineTerminator(s: string) {
    forall m :: 0 <= m < |s| ==> !IsLineTerminator(s[m])
  }

  /** The capture of `/^-\s+(.+)$/` on `line`, if it matches. */
  function BulletItem(line: string): (r: Option<string>)
    ensures r.Some? ==>
      && |r.value| > 0 && NoLineTerminator(r.value)
      && |line| - |r.value| >= 2 && line[|line| - |r.value|..] == r.value
      && line[0] == '-'
      && forall m :: 1 <= m < |line| - |r.value| ==> IsWs(line[m])
  {
    if !(|line| >= 2 && line[0] == '-' && IsWs(line[1])) then None
    else
      var k := WsRunEnd(line, 1);
      if k < |line| then
        if NoLineTerminator(line[k..]) then Some(line[k..]) else None
      else if k - 1 >= 2 && !IsLineTerminator(line[k - 1]) then Some(line[k - 1..])
      else None
  }

  /** A bullet whose text starts with a non-space captures exactly that text. */
  lemma BulletOfItem(item: string)
    requires |item| > 0 && !IsWs(item[0]) && NoLineTerminator(item)
    ensures BulletItem("- " + item) == Some(item)
  {
    var line := "- " + item;
    assert line[2..] == item;
    assert WsRunEnd(line, 2) == 2;
    assert WsRunEnd(line, 1) == 2;
  }

  // `p.replace(/[*][*]/g, "")`: left-to-right removal of `**` pairs.
  function RemoveBold(s: string): (r: string)
    ensures |r| <= |s|
    ensures forall m :: 0 <= m < |r| - 1 ==> !(r[m] == '*' && r[m + 1] == '*')
    ensures |s| > 0 && s[0] != '*' ==> |r| > 0 && r[0] == s[0]
    decreases |s|
  {
    if |s| >= 2 && s[0] == '*' && s[1] == '*' then RemoveBold(s[2..])
    else if |s| == 0 then ""
    else [s[0]] + RemoveBold(s[1..])
  }

  predicate NoBold(s: string) {
    forall m :: 0 <= m < |s| - 1 ==> !(s[m] == '*' && s[m + 1] == '*')
  }

  lemma {:induction false} RemoveBoldNoBold(s: string)
    requires NoBold(s)
    ensures RemoveBold(s) == s
    decreases |s|
  {
    if |s| > 0 {
      assert NoBold(s[1..]) by {
        forall m | 0 <= m < |s[1..]| - 1 ensures !(s[1..][m] == '*' && s[1..][m + 1] == '*') {
          assert s[1..][m] == s[m + 1] && s[1..][m + 1] == s[m + 2];
        }
      }
      RemoveBoldNoBold(s[1..]);
      assert [s[0]] + s[1..] == s;
    }
  }

  /** The loop of `parseRequiredFilesFromTask` over the remaining lines, with
      the current `inSection` flag. A repeated "Files to create" heading
      re-enters the section; any other `## ` heading inside it stops the scan. */
  function CollectRequired(lines: seq<string>, inSection: bool): seq<string>
    decreases |lines|
  {
    if |lines| == 0 then []
    else
      var line := Trim(lines[0]);
      if IsFilesHeading(line) then CollectRequired(lines[1..], true)
      else if inSection && IsSectionHeading(line) then []
      else if !inSection then CollectRequired(lines[1..], false)
      else match BulletItem(line)
        case Some(item) => [Trim(item)] + CollectRequired(lines[1..], true)
        case None => CollectRequired(lines[1..], true)
  }

  predicate NoFilesHeading(lines: seq<string>) {
    forall k :: 0 <= k < |lines| ==> !IsFilesHeading(Trim(lines[k]))
  }

  /** Outside the section nothing is collected until a "Files to create"
      heading appears. */
  lemma {:induction false} CollectSkipsPrefix(a: seq<string>, b: seq<string>)
    requires NoFilesHeading(a)
    ensures CollectRequired(a + b, false) == CollectRequired(b, false)
    decreases |a|
  {
    if |a| == 0 {
      AppendEmpty(b);
    } else {
      HeadTailAppend(a, b);
      CollectSkipsPrefix(a[1..], b);
    }
  }

  lemma {:induction false} CollectNothingWithoutHeading(lines: seq<string>)
    ensures NoFilesHeading(lines) ==> CollectRequired(lines, false) == []
    decreases |lines|
  {
    if |lines| > 0 && NoFilesHeading(lines) {
      CollectNothingWithoutHeading(lines[1..]);
    }
  }

  /** Inside the section, a level-two heading other than "Files to create"
      ends the scan: nothing after it is collected. */
  lemma SectionEndsAtHeading(h: string, rest: seq<string>)
    requires IsSectionHeading(Trim(h)) && !IsFilesHeading(Trim(h))
    ensures CollectRequired([h] + rest, true) == []
  {
    assert ([h] + rest)[0] == h;
  }

  /** A `###` line is not a level-two heading: the section goes on past it. */
  lemma SubHeadingContinues(h: string, rest: seq<string>)
    requires |Trim(h)| > 2 && Trim(h)[..3] == "###"
    ensures CollectRequired([h] + rest, true) == CollectRequired(rest, true)
  {
    var line := Trim(h);
    assert line[..2] == "##" && line[2] == '#';
    assert WsRunEnd(line, 2) == 2;
    HeadingNotBullet(line);
    assert ([h] + rest)[0] == h && ([h] + rest)[1..] == rest;
  }

  /** A repeated "Files to create" heading, inside the section or not,
      (re-)enters the section and is not itself an item. */
  lemma RepeatedHeadingContinues(h: string, rest: seq<string>, inSection: bool)
    requires IsFilesHeading(Trim(h))
    ensures CollectRequired([h] + rest, inSection) == CollectRequired(rest, true)
  {
    assert ([h] + rest)[0] == h && ([h] + rest)[1..] == rest;
  }

  /** Every "Files to create" heading is also a level-two heading. */
  lemma FilesHeadingIsSection(line: string)
    requires IsFilesHeading(line)
    ensures IsSectionHeading(line)
  {
    assert WsRunEnd(line, 2) > 2;
  }

  /** What one trimmed section line contributes: its bullet item, trimmed
      once more, or nothing. */
  function Capture(line: string): seq<string> {
    match BulletItem(line)
    case Some(item) => [Trim(item)]
    case None => []
  }

  /** The items of the `- item` lines of `body`, in order: what a section
      made of `body` contributes. */
  function Captures(body: seq<string>): seq<string>
    decreases |body|
  {
    if |body| == 0 then [] else Capture(Trim(body[0])) + Captures(body[1..])
  }

  /** A heading line is no bullet. */
  lemma HeadingNotBullet(line: string)
    requires StartsWith(line, "##")
    ensures Capture(line) == []
  {
    assert line[0] == line[..2][0];
  }

  /** Lines in the section that are not `## ` headings, apart from repeated
      "Files to create" headings. */
  predicate SectionBody(body: seq<string>) {
    forall k :: 0 <= k < |body| ==> IsSectionHeading(Trim(body[k])) ==> IsFilesHeading(Trim(body[k]))
  }

  /** One line of the section: a repeated files heading adds nothing, a
      bullet adds its item, any other line is skipped. */
  lemma CollectOne(h: string, rest: seq<string>)
    requires IsSectionHeading(Trim(h)) ==> IsFilesHeading(Trim(h))
    ensures CollectRequired([h] + rest, true) == Captures([h]) + CollectRequired(rest, true)
  {
    var line := Trim(h);
    assert ([h] + rest)[0] == h && ([h] + rest)[1..] == rest;
    assert Captures([h]) == Capture(line) + Captures([]);
    AppendEmpty(Capture(line));
    if IsFilesHeading(line) {
      HeadingNotBullet(line);
      AppendEmpty(CollectRequired(rest, true));
    }
  }

  lemma {:induction false} CollectBody(body: seq<string>, tail: seq<string>)
    requires SectionBody(body)
    ensures CollectRequired(body + tail, true) == Captures(body) + CollectRequired(tail, true)
    decreases |body|
  {
    if |body| == 0 {
      AppendEmpty(tail);
    } else {
      var b0, bs := body[0], body[1..];
      assert body + tail == [b0] + (bs + tail) by {
        HeadTailAppend(body, tail);
      }
      assert SectionBody(bs) by {
        forall k | 0 <= k < |bs|
          ensures IsSectionHeading(Trim(bs[k])) ==> IsFilesHeading(Trim(bs[k]))
        {
          assert bs[k] == body[k + 1];
        }
      }
      CollectOne(b0, bs + tail);
      CollectBody(bs, tail);
      CapturesCons(body);
      AppendAssoc(Captures([b0]), Captures(bs), CollectRequired(tail, true));
    }
  }

  lemma CapturesCons(body: seq<string>)
    requires |body| > 0
    ensures Captures(body) == Captures([body[0]]) + Captures(body[1..])
  {
    var h := [body[0]];
    var c := Capture(Trim(body[0]));
    assert h[0] == body[0] && h[1..] == [];
    assert Captures(h) == c + Captures([]);
    AppendEmpty(c);
  }

  /** The section runs from the "Files to create" heading to the next
      level-two heading: with no such heading before it, the required paths
      are exactly the trimmed bullet items between the two, with `**`
      removed; nothing before the heading or from the next heading on
      counts. */
  lemma ParseSection(text: string, pre: seq<string>, h: string, body: seq<string>, next: string, post: seq<string>)
    requires Lines(text) == pre + [h] + body + [next] + post
    requires NoFilesHeading(pre) && IsFilesHeading(Trim(h))
    requires SectionBody(body)
    requires IsSectionHeading(Trim(next)) && !IsFilesHeading(Trim(next))
    ensures var c := Captures(body);
      ParseRequiredFiles(text) == seq(|c|, k requires 0 <= k < |c| => RemoveBold(c[k]))
  {
    var tail := [next] + post;
    var after := [h] + (body + tail);
    AppendAssoc(pre + [h] + body, [next], post);
    AppendAssoc(pre + [h], body, tail);
    AppendAssoc(pre, [h], body + tail);
    CollectSkipsPrefix(pre, after);
    RepeatedHeadingContinues(h, body + ([next] + post), false);
    CollectBody(body, [next] + post);
    SectionEndsAtHeading(next, post);
    AppendEmpty(Captures(body));
  }

  /** `parseRequiredFilesFromTask(taskText)`. */
  function ParseRequiredFiles(taskText: string): (r: seq<string>)
    ensures forall k :: 0 <= k < |r| ==> NoBold(r[k])
    ensures NoFilesHeading(Lines(taskText)) ==> r == []
  {
    var items := CollectRequired(Lines(taskText), false);
    CollectNothingWithoutHeading(Lines(taskText));
    seq(|items|, k requires 0 <= k < |items| => RemoveBold(items[k]))
  }

  /** The header `mustIncludeRequiredFiles` looks for. */
  function Header(path: string): string {
    "diff --git a/" + path + " b/" + path
  }

  /** The required paths whose header the diff lacks, in input order. */
  function MissingPaths(diff: string, required: seq<string>): (r: seq<string>)
    ensures |r| <= |required|
    ensures forall k :: 0 <= k < |r| ==> r[k] in required && !Contains(diff, Header(r[k]))
    ensures forall k :: 0 <= k < |required| && !Contains(diff, Header(required[k])) ==> required[k] in r
    decreases |required|
  {
    if |required| == 0 then []
    else
      var rest := MissingPaths(diff, required[1..]);
      assert forall k :: 1 <= k < |required| ==> required[k] == required[1..][k - 1];
      if Contains(diff, Header(required[0])) then rest else [required[0]] + rest
  }

  /** Missing paths of a concatenated list keep the list's order. */
  lemma {:induction false} MissingPathsAppend(diff: string, a: seq<string>, b: seq<string>)
    ensures MissingPaths(diff, a + b) == MissingPaths(diff, a) + MissingPaths(diff, b)
    decreases |a|
  {
    if |a| == 0 {
      AppendEmpty(b);
      AppendEmpty(MissingPaths(diff, b));
    } else {
      HeadTailAppend(a, b);
      MissingPathsAppend(diff, a[1..], b);
      if !Contains(diff, Header(a[0])) {
        AppendAssoc([a[0]], MissingPaths(diff, a[1..]), MissingPaths(diff, b));
      }
    }
  }

  /** `mustIncludeRequiredFiles`: `None` when it returns, `Some(missing)` when
      it throws. It never throws for an empty list, and otherwise throws iff
      some required header is absent, listing exactly the missing paths. */
  function MustIncludeRequiredFiles(diff: string, required: seq<string>): (r: Option<seq<string>>)
    ensures |required| == 0 ==> r.None?
    ensures r.None? <==> forall k :: 0 <= k < |required| ==> Contains(diff, Header(required[k]))
    ensures r.Some? ==> |r.value| > 0 && r.value == MissingPaths(diff, required)
  {
    if |required| == 0 then None
    else
      var missing := MissingPaths(diff, required);
      if |missing| > 0 then
        assert exists k :: 0 <= k < |required| && required[k] == missing[0];
        Some(missing)
      else None
  }

  /** A diff that passes keeps passing when more text is added around it. */
  lemma PassingSurvivesExtension(diff: string, pre: string, post: string, required: seq<string>)
    requires MustIncludeRequiredFiles(diff, required).None?
    ensures MustIncludeRequiredFiles(pre + diff + post, required).None?
  {
    forall k | 0 <= k < |required| ensures Contains(pre + diff + post, Header(required[k])) {
      ContainsExtend(diff, Header(required[k]), pre, post);
    }
  }

  /** When one required path is the only one whose header is absent, the
      error names that path and nothing else. */
  lemma SingleMissingNamed(diff: string, required: seq<string>, p: string)
    requires p in required && !Contains(diff, Header(p))
    requires forall k :: 0 <= k < |required| && required[k] != p ==> Contains(diff, Header(required[k]))
    ensures MustIncludeRequiredFiles(diff, required).Some?
    ensures p in MustIncludeRequiredFiles(diff, required).value
    ensures forall x :: x in MustIncludeRequiredFiles(diff, required).value ==> x == p
  {
  }
}
