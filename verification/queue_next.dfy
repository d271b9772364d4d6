/**
 * scripts/ai-next.mjs: the work-packet queue. One run reads the queue and its
 * cursor, renders the packet at the cursor into the task file, runs the
 * pipeline on a branch named after the packet, and advances the cursor only
 * when both child processes succeed.
 */
module QueueNext {

  import opened Wrappers
  import opened Strings
  import opened Json

  // ---------------------------------------------------------------------
  // sanitizeBranchName: trim, lower-case, then three regular-expression
  // replacements, each modelled as its own function.

  /** The class `[a-z0-9\-_/]`: the characters a branch name keeps. */
  predicate BranchChar(c: char) {
    ('a' <= c <= 'z') || ('0' <= c <= '9') || c == '-' || c == '_' || c == '/'
  }

  predicate AllBranchChars(s: string) {
    forall i :: 0 <= i < |s| ==> BranchChar(s[i])
  }

  predicate NoDoubleDash(s: string) {
    forall i :: 0 <= i < |s| - 1 ==> !(s[i] == '-' && s[i + 1] == '-')
  }

  /** What a sanitized name looks like: class characters only, no two dashes
      in a row, and no dash at either end. */
  predicate CleanBranch(s: string) {
    && AllBranchChars(s)
    && NoDoubleDash(s)
    && (|s| > 0 ==> s[0] != '-' && s[|s| - 1] != '-')
  }

  /** The leading characters outside the class, dropped. */
  function SkipOther(s: string): (r: string)
    ensures |r| <= |s|
    ensures |r| > 0 ==> BranchChar(r[0])
    decreases |s|
  {
    if |s| > 0 && !BranchChar(s[0]) then SkipOther(s[1..]) else s
  }

  /** `.replace(/[^a-z0-9\-_/]+/g, "-")`: each maximal run of characters
      outside the class becomes one dash. */
  function ReplaceRuns(s: string): string
    decreases |s|
  {
    if |s| == 0 then ""
    else if BranchChar(s[0]) then [s[0]] + ReplaceRuns(s[1..])
    else "-" + ReplaceRuns(SkipOther(s[1..]))
  }

  /** Replacing leaves only class characters. */
  lemma {:induction false} ReplaceRunsClass(s: string)
    ensures AllBranchChars(ReplaceRuns(s))
    decreases |s|
  {
    if |s| > 0 {
      var rest := if BranchChar(s[0]) then s[1..] else SkipOther(s[1..]);
      var h := if BranchChar(s[0]) then [s[0]] else "-";
      ReplaceRunsClass(rest);
      assert ReplaceRuns(s) == h + ReplaceRuns(rest);
      assert forall i :: 0 < i < |h + ReplaceRuns(rest)| ==> (h + ReplaceRuns(rest))[i] == ReplaceRuns(rest)[i - 1];
    }
  }

  /** The leading dashes, dropped. */
  function SkipDashes(s: string): (r: string)
    ensures |r| <= |s|
    ensures |r| > 0 ==> r[0] != '-'
    decreases |s|
  {
    if |s| > 0 && s[0] == '-' then SkipDashes(s[1..]) else s
  }

  /** The trailing dashes, dropped. */
  function DropTrailingDashes(s: string): (r: string)
    ensures |r| <= |s|
    ensures |r| > 0 ==> r[|r| - 1] != '-'
    decreases |s|
  {
    if |s| > 0 && s[|s| - 1] == '-' then DropTrailingDashes(s[..|s| - 1]) else s
  }

  lemma {:induction false} SkipDashesSuffix(s: string)
    ensures SkipDashes(s) == s[|s| - |SkipDashes(s)|..]
    decreases |s|
  {
    if |s| > 0 && s[0] == '-' {
      SkipDashesSuffix(s[1..]);
      assert s[1..][|s| - 1 - |SkipDashes(s)|..] == s[|s| - |SkipDashes(s)|..];
    }
  }

  lemma {:induction false} DropTrailingPrefix(s: string)
    ensures DropTrailingDashes(s) == s[..|DropTrailingDashes(s)|]
    decreases |s|
  {
    if |s| > 0 && s[|s| - 1] == '-' {
      DropTrailingPrefix(s[..|s| - 1]);
    }
  }

  /** `.replace(/-{2,}/g, "-")`: each run of dashes becomes a single dash. */
  function CollapseDashes(s: string): (r: string)
    ensures |s| > 0 ==> |r| > 0 && r[0] == s[0]
    decreases |s|
  {
    if |s| == 0 then ""
    else if s[0] == '-' then "-" + CollapseDashes(SkipDashes(s[1..]))
    else [s[0]] + CollapseDashes(s[1..])
  }

  /** Collapsing leaves no two dashes in a row and adds no character outside
      the class. */
  lemma {:induction false} CollapseShape(s: string)
    ensures NoDoubleDash(CollapseDashes(s))
    ensures AllBranchChars(s) ==> AllBranchChars(CollapseDashes(s))
    decreases |s|
  {
    if |s| > 0 {
      var rest := if s[0] == '-' then SkipDashes(s[1..]) else s[1..];
      CollapseShape(rest);
      if AllBranchChars(s) {
        if s[0] == '-' {
          SkipDashesSuffix(s[1..]);
          SliceKeepsShape(s, |s| - |rest|, |s|);
        } else {
          SliceKeepsShape(s, 1, |s|);
        }
      }
      var h := [s[0]];
      var c := CollapseDashes(rest);
      assert CollapseDashes(s) == h + c;
      assert forall i :: 0 < i < |h + c| ==> (h + c)[i] == c[i - 1];
    }
  }

  /** A slice keeps the class and the absence of double dashes. */
  lemma SliceKeepsShape(s: string, a: nat, b: nat)
    requires a <= b <= |s|
    ensures AllBranchChars(s) ==> AllBranchChars(s[a..b])
    ensures NoDoubleDash(s) ==> NoDoubleDash(s[a..b])
  {
    assert forall i :: 0 <= i < b - a ==> s[a..b][i] == s[a + i];
  }

  /** `.replace(/^-+|-+$/g, "")`: the dashes at both ends, dropped. A name of
      dashes only becomes empty. */
  function StripDashes(s: string): (r: string)
    ensures |r| > 0 ==> r[0] != '-' && r[|r| - 1] != '-'
  {
    DropTrailingPrefix(SkipDashes(s));
    DropTrailingDashes(SkipDashes(s))
  }

  /** Stripping takes an infix, so it keeps the class and the absence of
      double dashes. */
  lemma StripShape(s: string)
    ensures AllBranchChars(s) ==> AllBranchChars(StripDashes(s))
    ensures NoDoubleDash(s) ==> NoDoubleDash(StripDashes(s))
  {
    var t := SkipDashes(s);
    var r := DropTrailingDashes(t);
    SkipDashesSuffix(s);
    DropTrailingPrefix(t);
    SliceKeepsShape(s, |s| - |t|, |s| - |t| + |r|);
    assert r == s[|s| - |t|..|s| - |t| + |r|];
  }

  /** `sanitizeBranchName(s)`. */
  function Sanitize(s: string): string {
    StripDashes(CollapseDashes(ReplaceRuns(Lower(Trim(s)))))
  }

  /** A sanitized name has only class characters, no two dashes in a row and
      no dash at either end. */
  lemma SanitizeClean(s: string)
    ensures CleanBranch(Sanitize(s))
  {
    var w := ReplaceRuns(Lower(Trim(s)));
    ReplaceRunsClass(Lower(Trim(s)));
    CollapseShape(w);
    StripShape(CollapseDashes(w));
  }

  // ----- a clean name is a fixed point

  lemma BranchCharUnchanged(c: char)
    requires BranchChar(c)
    ensures !IsWs(c) && LowerChar(c) == c
  {
  }

  lemma {:induction false} ReplaceRunsKeeps(s: string)
    requires AllBranchChars(s)
    ensures ReplaceRuns(s) == s
    decreases |s|
  {
    if |s| > 0 {
      ReplaceRunsKeeps(s[1..]);
      assert [s[0]] + s[1..] == s;
    }
  }

  lemma {:induction false} CollapseKeeps(s: string)
    requires NoDoubleDash(s)
    ensures CollapseDashes(s) == s
    decreases |s|
  {
    if |s| > 0 {
      assert NoDoubleDash(s[1..]) by { SliceKeepsShape(s, 1, |s|); }
      CollapseKeeps(s[1..]);
      if s[0] == '-' {
        assert SkipDashes(s[1..]) == s[1..];
      }
      assert [s[0]] + s[1..] == s;
    }
  }

  /** Sanitizing changes nothing exactly when the name is already clean. */
  lemma SanitizeFixedIff(s: string)
    ensures Sanitize(s) == s <==> CleanBranch(s)
  {
    SanitizeClean(s);
    if CleanBranch(s) {
      CleanIsFixed(s);
    }
  }

  lemma CleanIsFixed(s: string)
    requires CleanBranch(s)
    ensures Sanitize(s) == s
  {
    {
      if |s| > 0 {
        BranchCharUnchanged(s[0]);
        BranchCharUnchanged(s[|s| - 1]);
      }
      TrimNoEnds(s);
      assert Lower(s) == s by {
        forall i | 0 <= i < |s| ensures Lower(s)[i] == s[i] {
          BranchCharUnchanged(s[i]);
        }
      }
      ReplaceRunsKeeps(s);
      CollapseKeeps(s);
    }
  }

  lemma SanitizeIdempotent(s: string)
    ensures Sanitize(Sanitize(s)) == Sanitize(s)
  {
    var t := Sanitize(s);
    SanitizeClean(s);
    CleanIsFixed(t);
  }

  // ----- what sanitizing keeps

  /** The letters, digits, `_` and `/` of `s`, in order. */
  function NameChars(s: string): string
    decreases |s|
  {
    if |s| == 0 then ""
    else (if BranchChar(s[0]) && s[0] != '-' then [s[0]] else "") + NameChars(s[1..])
  }

  lemma {:induction false} NameCharsAppend(a: string, b: string)
    ensures NameChars(a + b) == NameChars(a) + NameChars(b)
    decreases |a|
  {
    if |a| == 0 {
      assert a + b == b;
    } else {
      HeadTailAppend(a, b);
      NameCharsAppend(a[1..], b);
      var h := if BranchChar(a[0]) && a[0] != '-' then [a[0]] else "";
      AppendAssoc(h, NameChars(a[1..]), NameChars(b));
    }
  }

  lemma NameCharsCons(c: char, s: string)
    ensures NameChars([c] + s) == (if BranchChar(c) && c != '-' then [c] else "") + NameChars(s)
  {
    assert ([c] + s)[1..] == s;
  }

  lemma {:induction false} NameCharsSkipOther(s: string)
    ensures NameChars(SkipOther(s)) == NameChars(s)
    decreases |s|
  {
    if |s| > 0 && !BranchChar(s[0]) {
      NameCharsSkipOther(s[1..]);
    }
  }

  lemma {:induction false} NameCharsSkipDashes(s: string)
    ensures NameChars(SkipDashes(s)) == NameChars(s)
    decreases |s|
  {
    if |s| > 0 && s[0] == '-' {
      NameCharsSkipDashes(s[1..]);
    }
  }

  lemma {:induction false} NameCharsDropTrailing(s: string)
    ensures NameChars(DropTrailingDashes(s)) == NameChars(s)
    decreases |s|
  {
    if |s| > 0 && s[|s| - 1] == '-' {
      var init := s[..|s| - 1];
      NameCharsDropTrailing(init);
      assert s == init + "-";
      NameCharsAppend(init, "-");
      AppendEmpty(NameChars(init));
    }
  }

  lemma {:induction false} NameCharsReplaceRuns(s: string)
    ensures NameChars(ReplaceRuns(s)) == NameChars(s)
    decreases |s|
  {
    if |s| > 0 {
      if BranchChar(s[0]) {
        NameCharsReplaceRuns(s[1..]);
        NameCharsCons(s[0], ReplaceRuns(s[1..]));
      } else {
        var rest := SkipOther(s[1..]);
        NameCharsReplaceRuns(rest);
        NameCharsSkipOther(s[1..]);
        NameCharsCons('-', ReplaceRuns(rest));
        assert "-" == ['-'];
        AppendEmpty(NameChars(ReplaceRuns(rest)));
        AppendEmpty(NameChars(s[1..]));
      }
    }
  }

  lemma {:induction false} NameCharsCollapse(s: string)
    ensures NameChars(CollapseDashes(s)) == NameChars(s)
    decreases |s|
  {
    if |s| > 0 {
      if s[0] == '-' {
        var rest := SkipDashes(s[1..]);
        NameCharsCollapse(rest);
        NameCharsSkipDashes(s[1..]);
        NameCharsCons('-', CollapseDashes(rest));
        assert "-" == ['-'];
        AppendEmpty(NameChars(CollapseDashes(rest)));
        AppendEmpty(NameChars(s[1..]));
      } else {
        NameCharsCollapse(s[1..]);
        NameCharsCons(s[0], CollapseDashes(s[1..]));
      }
    }
  }

  /** Sanitizing keeps every letter, digit, `_` and `/` of the trimmed,
      lower-cased name, in order: only separators are rewritten. */
  lemma SanitizeKeepsNameChars(s: string)
    ensures NameChars(Sanitize(s)) == NameChars(Lower(Trim(s)))
  {
    var l := Lower(Trim(s));
    var c := CollapseDashes(ReplaceRuns(l));
    NameCharsReplaceRuns(l);
    NameCharsCollapse(ReplaceRuns(l));
    NameCharsSkipDashes(c);
    NameCharsDropTrailing(SkipDashes(c));
  }

  // ----- sanitizing behind a clean prefix that ends in a dash

  lemma {:induction false} TrimEndAppend(a: string, b: string)
    ensures TrimEnd(b) != "" ==> TrimEnd(a + b) == a + TrimEnd(b)
    ensures TrimEnd(b) == "" ==> TrimEnd(a + b) == TrimEnd(a)
    decreases |b|
  {
    if |b| == 0 {
      assert a + b == a;
    } else if IsWs(b[|b| - 1]) {
      var init := b[..|b| - 1];
      assert (a + b)[..|a + b| - 1] == a + init;
      TrimEndAppend(a, init);
    }
  }

  /** Trimming at the end only keeps the leading whitespace in front of the
      fully trimmed text. */
  lemma TrimEndKeepsLead(x: string)
    ensures Trim(x) == "" ==> TrimEnd(x) == ""
    ensures Trim(x) != "" ==> TrimEnd(x) == x[..|x| - |TrimStart(x)|] + Trim(x)
  {
    var t := TrimStart(x);
    var lead := x[..|x| - |t|];
    assert x == lead + t;
    assert forall i :: 0 <= i < |lead| ==> IsWs(lead[i]) by {
      forall i | 0 <= i < |lead| ensures IsWs(lead[i]) {
        assert lead[i] == x[i];
      }
    }
    assert Trim(x) == TrimEnd(t);
    TrimEndAppend(lead, t);
    TrimEndAllWs(lead);
  }

  lemma {:induction false} TrimEndAllWs(s: string)
    requires forall i :: 0 <= i < |s| ==> IsWs(s[i])
    ensures TrimEnd(s) == ""
    decreases |s|
  {
    if |s| > 0 {
      TrimEndAllWs(s[..|s| - 1]);
    }
  }

  lemma {:induction false} SkipOtherAppend(a: string, u: string)
    requires forall i :: 0 <= i < |a| ==> !BranchChar(a[i])
    ensures SkipOther(a + u) == SkipOther(u)
    decreases |a|
  {
    if |a| == 0 {
      assert a + u == u;
    } else {
      HeadTailAppend(a, u);
      SkipOtherAppend(a[1..], u);
    }
  }

  /** A leading run outside the class turns into one dash. */
  lemma ReplaceLeadingOthers(a: string, u: string)
    requires |a| > 0 && forall i :: 0 <= i < |a| ==> !BranchChar(a[i])
    ensures ReplaceRuns(a + u) == "-" + ReplaceRuns(SkipOther(u))
  {
    HeadTailAppend(a, u);
    SkipOtherAppend(a[1..], u);
  }

  lemma SkipDashesAfterDash(y: string)
    ensures SkipDashes("-" + y) == SkipDashes(y)
  {
    assert ("-" + y)[1..] == y;
  }

  /** Whether or not a run outside the class came first, dropping the
      leading dashes afterwards gives the same text. */
  lemma SkipDashesOfRun(u: string)
    ensures SkipDashes("-" + ReplaceRuns(SkipOther(u))) == SkipDashes(ReplaceRuns(u))
  {
    SkipDashesAfterDash(ReplaceRuns(SkipOther(u)));
    if |u| > 0 && !BranchChar(u[0]) {
      SkipDashesAfterDash(ReplaceRuns(SkipOther(u[1..])));
    }
  }

  /** The whitespace that `trimEnd` leaves in front vanishes once leading
      dashes are dropped. */
  lemma LeadingWsVanishes(x: string)
    ensures SkipDashes(ReplaceRuns(Lower(TrimEnd(x)))) == SkipDashes(ReplaceRuns(Lower(Trim(x))))
  {
    TrimEndKeepsLead(x);
    var t := Trim(x);
    if t != "" {
      var lead := x[..|x| - |TrimStart(x)|];
      assert forall i :: 0 <= i < |lead| ==> IsWs(lead[i]) by {
        forall i | 0 <= i < |lead| ensures IsWs(lead[i]) {
          assert lead[i] == x[i];
        }
      }
      assert TrimEnd(x) == lead + t;
      LeadVanishes(lead, t);
    }
  }

  lemma LeadVanishes(lead: string, t: string)
    requires forall i :: 0 <= i < |lead| ==> IsWs(lead[i])
    ensures SkipDashes(ReplaceRuns(Lower(lead + t))) == SkipDashes(ReplaceRuns(Lower(t)))
  {
    if |lead| > 0 {
      LowerAppend(lead, t);
      assert Lower(lead) == lead;
      ReplaceLeadingOthers(lead, Lower(t));
      SkipDashesOfRun(Lower(t));
    } else {
      assert lead + t == t;
    }
  }

  lemma SkipDashesCollapse(u: string)
    ensures SkipDashes(CollapseDashes(u)) == CollapseDashes(SkipDashes(u))
  {
    if |u| > 0 && u[0] == '-' {
      SkipDashesAfterDash(CollapseDashes(SkipDashes(u[1..])));
    }
  }

  /** A prefix `sanitizeBranchName` passes through and that ends in a dash. */
  predicate DashPrefix(p: string) {
    && |p| > 0
    && AllBranchChars(p)
    && NoDoubleDash(p)
    && p[0] != '-'
    && p[|p| - 1] == '-'
  }

  lemma {:induction false} ReplaceRunsPrefix(p: string, z: string)
    requires AllBranchChars(p)
    ensures ReplaceRuns(p + z) == p + ReplaceRuns(z)
    decreases |p|
  {
    if |p| == 0 {
      assert p + z == z;
    } else {
      HeadTailAppend(p, z);
      ReplaceRunsPrefix(p[1..], z);
      AppendAssoc([p[0]], p[1..], ReplaceRuns(z));
      assert [p[0]] + p[1..] == p;
    }
  }

  lemma {:induction false} CollapsePrefix(p: string, w: string)
    requires |p| > 0 && NoDoubleDash(p) && p[|p| - 1] == '-'
    ensures CollapseDashes(p + w) == p + CollapseDashes(SkipDashes(w))
    decreases |p|
  {
    var v := CollapseDashes(SkipDashes(w));
    HeadTailAppend(p, w);
    if |p| == 1 {
      assert p == "-";
    } else {
      var q := p[1..];
      assert NoDoubleDash(q) by { SliceKeepsShape(p, 1, |p|); }
      CollapsePrefix(q, w);
      if p[0] == '-' {
        assert q[0] != '-';
        assert SkipDashes(q + w) == q + w;
      }
      AppendAssoc([p[0]], q, v);
      assert [p[0]] + q == p;
    }
  }

  lemma {:induction false} DropTrailingAppend(a: string, v: string)
    requires |v| > 0 && v[0] != '-'
    ensures DropTrailingDashes(v) != ""
    ensures DropTrailingDashes(a + v) == a + DropTrailingDashes(v)
    decreases |v|
  {
    if v[|v| - 1] == '-' {
      var init := v[..|v| - 1];
      assert (a + v)[..|a + v| - 1] == a + init;
      DropTrailingAppend(a, init);
    }
  }

  /** Trimming and lower-casing pass a clean prefix through untouched; only
      the end of the rest is trimmed. */
  lemma TrimLowerUnderPrefix(p: string, x: string)
    requires DashPrefix(p)
    ensures Lower(Trim(p + x)) == p + Lower(TrimEnd(x))
  {
    var y := TrimEnd(x);
    BranchCharUnchanged(p[0]);
    BranchCharUnchanged(p[|p| - 1]);
    assert Trim(p + x) == p + y by {
      TrimStartNoLeading(p + x);
      TrimEndAppend(p, x);
      TrimEndNoTrailing(p);
      assert p + "" == p;
    }
    LowerAppend(p, y);
    assert Lower(p) == p by {
      forall i | 0 <= i < |p| ensures Lower(p)[i] == p[i] {
        BranchCharUnchanged(p[i]);
      }
    }
  }

  /** The three replacements behind a clean prefix that ends in a dash. */
  lemma ReplaceUnderPrefix(p: string, z: string)
    requires DashPrefix(p)
    ensures StripDashes(CollapseDashes(ReplaceRuns(p + z)))
         == DropTrailingDashes(p + CollapseDashes(SkipDashes(ReplaceRuns(z))))
  {
    var w := ReplaceRuns(z);
    ReplaceRunsPrefix(p, z);
    CollapsePrefix(p, w);
    var v := CollapseDashes(SkipDashes(w));
    assert (p + v)[0] == p[0];
  }

  /** What follows the prefix, once its leading dashes are gone, strips to
      the sanitized rest. */
  lemma RestSanitized(x: string)
    ensures var v := CollapseDashes(SkipDashes(ReplaceRuns(Lower(TrimEnd(x)))));
      && (|v| > 0 ==> v[0] != '-')
      && DropTrailingDashes(v) == Sanitize(x)
  {
    LeadingWsVanishes(x);
    SkipDashesCollapse(ReplaceRuns(Lower(Trim(x))));
  }

  /** Dropping trailing dashes behind the prefix. */
  lemma DropUnderPrefix(p: string, v: string)
    requires DashPrefix(p)
    requires |v| > 0 ==> v[0] != '-'
    ensures v == "" ==> DropTrailingDashes(p + v) == p[..|p| - 1]
    ensures v != "" ==> DropTrailingDashes(v) != "" && DropTrailingDashes(p + v) == p + DropTrailingDashes(v)
  {
    if v == "" {
      assert p + v == p;
      assert p[|p| - 2] != '-';
      assert DropTrailingDashes(p) == DropTrailingDashes(p[..|p| - 1]);
    } else {
      DropTrailingAppend(p, v);
    }
  }

  /** Sanitizing behind a clean prefix that ends in a dash sanitizes the rest
      on its own; when the rest sanitizes to nothing, the prefix loses its
      dash. */
  lemma SanitizeUnderPrefix(p: string, x: string)
    requires DashPrefix(p)
    ensures Sanitize(p + x) == if Sanitize(x) == "" then p[..|p| - 1] else p + Sanitize(x)
  {
    var z := Lower(TrimEnd(x));
    var v := CollapseDashes(SkipDashes(ReplaceRuns(z)));
    TrimLowerUnderPrefix(p, x);
    ReplaceUnderPrefix(p, z);
    RestSanitized(x);
    DropUnderPrefix(p, v);
  }

  // ---------------------------------------------------------------------
  // Naming a work packet's branch and commit

  /** The text after the last `/`, or all of it when it has none. */
  function AfterLastSlash(p: string): (r: string)
    ensures |r| <= |p| && r == p[|p| - |r|..]
    ensures '/' !in r
    ensures |r| < |p| ==> p[|p| - |r| - 1] == '/'
    decreases |p|
  {
    if |p| == 0 || p[|p| - 1] == '/' then ""
    else AfterLastSlash(p[..|p| - 1]) + [p[|p| - 1]]
  }

  /** The trailing slashes, dropped. */
  function DropTrailingSlashes(p: string): (r: string)
    ensures |r| <= |p| && r == p[..|r|]
    ensures forall i :: |r| <= i < |p| ==> p[i] == '/'
    ensures |r| > 0 ==> r[|r| - 1] != '/'
    decreases |p|
  {
    if |p| > 0 && p[|p| - 1] == '/' then DropTrailingSlashes(p[..|p| - 1]) else p
  }

  /** POSIX `path.basename(p)`: the last non-empty segment, "" when there is none. */
  function BaseName(p: string): (r: string)
    ensures '/' !in r
  {
    AfterLastSlash(DropTrailingSlashes(p))
  }

  lemma {:induction false} AfterLastSlashAppend(q: string, name: string)
    requires |q| > 0 && q[|q| - 1] == '/' && '/' !in name
    ensures AfterLastSlash(q + name) == name
    decreases |name|
  {
    if |name| == 0 {
      assert q + name == q;
    } else {
      var init := name[..|name| - 1];
      assert (q + name)[..|q + name| - 1] == q + init;
      assert '/' !in init by {
        assert forall i :: 0 <= i < |init| ==> init[i] == name[i];
      }
      AfterLastSlashAppend(q, init);
      assert init + [name[|name| - 1]] == name;
    }
  }

  /** The base name of `dir/name` (with or without trailing slashes) is `name`. */
  lemma BaseNameOfJoin(dir: string, name: string, slashes: nat)
    requires |name| > 0 && '/' !in name
    ensures BaseName(dir + "/" + name + Repeat('/', slashes)) == name
  {
    var p := dir + "/" + name;
    var t := p + Repeat('/', slashes);
    DropRepeatedSlashes(p, slashes);
    assert p == (dir + "/") + name;
    AfterLastSlashAppend(dir + "/", name);
  }

  function Repeat(c: char, n: nat): (r: string)
    ensures |r| == n && forall i :: 0 <= i < n ==> r[i] == c
  {
    seq(n, i => c)
  }

  lemma {:induction false} DropRepeatedSlashes(p: string, n: nat)
    requires |p| > 0 && p[|p| - 1] != '/'
    ensures DropTrailingSlashes(p + Repeat('/', n)) == p
    decreases n
  {
    if n == 0 {
      assert p + Repeat('/', 0) == p;
    } else {
      assert (p + Repeat('/', n))[..|p| + n - 1] == p + Repeat('/', n - 1);
      DropRepeatedSlashes(p, n - 1);
    }
  }

  const JsonSuffix := ".json"

  /** `.replace(/\.json$/i, "")`: a final `.json`, in any letter case, dropped. */
  function DropJsonSuffix(b: string): (r: string)
    ensures r == b || (|b| == |r| + |JsonSuffix| && b[..|r|] == r)
  {
    if |b| >= |JsonSuffix| && Lower(b[|b| - |JsonSuffix|..]) == JsonSuffix then b[..|b| - |JsonSuffix|]
    else b
  }

  lemma DropJsonSuffixOf(name: string, ext: string)
    requires Lower(ext) == JsonSuffix
    ensures DropJsonSuffix(name + ext) == name
  {
    assert (name + ext)[|name + ext| - |JsonSuffix|..] == ext;
    assert (name + ext)[..|name|] == name;
  }

  /** A name that does not end in `.json` (in any case) is kept whole. */
  lemma DropJsonSuffixKeeps(b: string)
    requires |b| < |JsonSuffix| || Lower(b[|b| - |JsonSuffix|..]) != JsonSuffix
    ensures DropJsonSuffix(b) == b
  {
  }

  /** `path.basename(wpPath).replace(/\.json$/i, "")`. */
  function PacketBase(wpPath: string): string {
    DropJsonSuffix(BaseName(wpPath))
  }

  const BranchPrefix := "feat/wp-"
  const CommitPrefix := "feat: implement "

  function BranchFor(wpPath: string): string {
    Sanitize(BranchPrefix + PacketBase(wpPath))
  }

  function CommitMessageFor(wpPath: string): string {
    CommitPrefix + PacketBase(wpPath)
  }

  /** The branch of a packet is `feat/wp-` followed by its sanitized base
      name, or just `feat/wp` when nothing of the base name survives. */
  lemma BranchForShape(wpPath: string)
    ensures CleanBranch(BranchFor(wpPath))
    ensures var b := Sanitize(PacketBase(wpPath));
      BranchFor(wpPath) == if b == "" then "feat/wp" else "feat/wp-" + b
  {
    var base := PacketBase(wpPath);
    SanitizeClean(BranchPrefix + base);
    BranchPrefixShape();
    SanitizeUnderPrefix(BranchPrefix, base);
  }

  lemma BranchPrefixShape()
    ensures DashPrefix(BranchPrefix)
    ensures BranchPrefix[..|BranchPrefix| - 1] == "feat/wp"
  {
  }

  /** A packet stored as `dir/name.json` (any case of the suffix) yields the
      commit message `feat: implement name`. */
  lemma CommitMessageOfPacket(dir: string, name: string, ext: string)
    requires '/' !in name && Lower(ext) == JsonSuffix
    ensures CommitMessageFor(dir + "/" + name + ext) == CommitPrefix + name
  {
    assert '/' !in name + ext by {
      assert forall i :: 0 <= i < |ext| ==> ext[i] != '/' by {
        forall i | 0 <= i < |ext| ensures ext[i] != '/' {
          assert Lower(ext)[i] == LowerChar(ext[i]);
        }
      }
    }
    assert dir + "/" + (name + ext) + Repeat('/', 0) == dir + "/" + name + ext;
    BaseNameOfJoin(dir, name + ext, 0);
    DropJsonSuffixOf(name, ext);
  }

  // ---------------------------------------------------------------------
  // One run of ai-next

  const TaskFile := ".ai/TASK.md"

  /** The child processes a run starts, each for one work packet. */
  datatype Call =
    | WpToTask(packet: string)   // renders the packet into the task file
    | AiRun(packet: string)      // runs the pipeline on the packet's branch

  /** The command line of a call. */
  function Argv(c: Call): seq<string> {
    match c
    case WpToTask(p) => ["node", "scripts/wp-to-task.mjs", p, TaskFile]
    case AiRun(p) => ["node", "scripts/ai-run.mjs", BranchFor(p), CommitMessageFor(p)]
  }

  /** The state file a successful run writes (its `updated_at` stamp is left out). */
  datatype QueueState = QueueState(cursor: int, last: string)

  /** Why a run throws; `main().catch` turns every one into exit status 1. */
  datatype Failure =
    | InvalidQueue            // no queue file, or no `items` array in it
    | InvalidItem(index: int) // the item at the cursor is not a non-blank string
    | WpToTaskFailed
    | AiRunFailed

  datatype Outcome = Done | Advanced(next: QueueState) | Failed(failure: Failure)

  /** The child processes started, in order, and how the run ended. */
  datatype RunResult = RunResult(calls: seq<Call>, outcome: Outcome)

  function ExitCode(o: Outcome): int {
    if o.Failed? then 1 else 0
  }

  /** `queue.items` when the queue is truthy and it is an array. */
  function QueueItems(queue: Option<Json>): Option<seq<Json>> {
    match Member(queue, "items")
    case Some(JArr(items)) => Some(items)
    case _ => None
  }

  /** `Number.isFinite(state.cursor) ? state.cursor : 0`, where a missing (or
      `null`) state file reads as `{ cursor: 0 }`. */
  function Cursor(state: Option<Json>): int {
    match Member(state, "cursor")
    case Some(JNum(n)) => n
    case _ => 0
  }

  /** The work-packet path an item names: a string that is not blank. The
      path itself is passed on untrimmed. */
  function ItemPath(item: Json): Option<string> {
    if item.JStr? && !Blank(item.s) then Some(item.s) else None
  }

  /** The item is usable exactly when `item.trim()` is non-empty. */
  lemma ItemPathTrim(item: Json)
    ensures ItemPath(item).Some? <==> item.JStr? && Trim(item.s) != ""
    ensures ItemPath(item).Some? ==> ItemPath(item).value == item.s
  {
    if item.JStr? {
      TrimEmptyIff(item.s);
    }
  }

  /** The two child processes one packet needs, in order. */
  function PacketCalls(wp: string): seq<Call> {
    [WpToTask(wp), AiRun(wp)]
  }

  /** `main()` of ai-next: `queue` and `state` are the parsed files (`None`
      when absent) and `succeeds` says whether a child process exits with
      status 0. */
  function RunNext(queue: Option<Json>, state: Option<Json>, succeeds: Call -> bool): RunResult {
    match QueueItems(queue)
    case None => RunResult([], Failed(InvalidQueue))
    case Some(items) =>
      var cursor := Cursor(state);
      if cursor >= |items| then RunResult([], Done)
      else if cursor < 0 || ItemPath(items[cursor]).None? then RunResult([], Failed(InvalidItem(cursor)))
      else
        var wp := ItemPath(items[cursor]).value;
        if !succeeds(WpToTask(wp)) then RunResult([WpToTask(wp)], Failed(WpToTaskFailed))
        else if !succeeds(AiRun(wp)) then RunResult(PacketCalls(wp), Failed(AiRunFailed))
        else RunResult(PacketCalls(wp), Advanced(QueueState(cursor + 1, wp)))
  }

  /** The state is written only after both child processes succeeded on the
      packet at the cursor, and it moves the cursor by exactly one. */
  lemma AdvanceOnlyAfterBothSucceed(queue: Option<Json>, state: Option<Json>, succeeds: Call -> bool)
    ensures var r := RunNext(queue, state, succeeds);
      r.outcome.Advanced? ==>
        && QueueItems(queue).Some?
        && 0 <= Cursor(state) < |QueueItems(queue).value|
        && ItemPath(QueueItems(queue).value[Cursor(state)]) == Some(r.outcome.next.last)
        && r.outcome.next.cursor == Cursor(state) + 1
        && r.calls == PacketCalls(r.outcome.next.last)
        && succeeds(r.calls[0]) && succeeds(r.calls[1])
  {
  }

  /** The pipeline runs only after the task file was rendered, successfully,
      from the same packet. */
  lemma PipelineAfterTask(queue: Option<Json>, state: Option<Json>, succeeds: Call -> bool)
    ensures var r := RunNext(queue, state, succeeds);
      && |r.calls| <= 2
      && (|r.calls| == 1 ==> r.calls[0].WpToTask?)
      && (|r.calls| == 2 ==> r.calls == PacketCalls(r.calls[1].packet) && succeeds(r.calls[0]))
  {
  }

  /** A run that fails after starting child processes fails because the last
      one it started exited with a non-zero status. */
  lemma FailureBlamesLastCall(queue: Option<Json>, state: Option<Json>, succeeds: Call -> bool)
    ensures var r := RunNext(queue, state, succeeds);
      r.outcome.Failed? && |r.calls| > 0 ==> !succeeds(r.calls[|r.calls| - 1])
  {
  }

  /** A run ends quietly, with nothing started and nothing written, exactly
      when the queue is valid and the cursor is at or past its end. */
  lemma DoneIff(queue: Option<Json>, state: Option<Json>, succeeds: Call -> bool)
    ensures var r := RunNext(queue, state, succeeds);
      r.outcome.Done? <==> QueueItems(queue).Some? && Cursor(state) >= |QueueItems(queue).value|
    ensures var r := RunNext(queue, state, succeeds);
      r.outcome.Done? ==> r.calls == [] && ExitCode(r.outcome) == 0
  {
  }

  /** A missing queue, or an unusable item at the cursor, fails before any
      child process starts. */
  lemma InvalidInputStartsNothing(queue: Option<Json>, state: Option<Json>, succeeds: Call -> bool)
    ensures var r := RunNext(queue, state, succeeds);
      r.outcome.Failed? && (r.outcome.failure.InvalidQueue? || r.outcome.failure.InvalidItem?) <==>
        r.outcome.Failed? && r.calls == []
    ensures QueueItems(queue).None? ==> RunNext(queue, state, succeeds) == RunResult([], Failed(InvalidQueue))
    ensures var r := RunNext(queue, state, succeeds);
      ExitCode(r.outcome) == 1 <==> r.outcome.Failed?
  {
  }

  /** A state file without a numeric cursor behaves like no state file. */
  lemma NonNumericCursorIsZero(queue: Option<Json>, state: Option<Json>, succeeds: Call -> bool)
    requires !(Member(state, "cursor").Some? && Member(state, "cursor").value.JNum?)
    ensures RunNext(queue, state, succeeds) == RunNext(queue, None, succeeds)
  {
  }

  /** The state file as it is read back by the next run. */
  function StateJson(s: QueueState): Json {
    JObj(map["cursor" := JNum(s.cursor), "last" := JStr(s.last)])
  }

  lemma CursorReadBack(s: QueueState)
    ensures Cursor(Some(StateJson(s))) == s.cursor
  {
  }

  /** `n` runs in a row, each reading the state file the previous one left:
      every child process started, and the state file at the end. */
  function Drive(queue: Option<Json>, state: Option<Json>, succeeds: Call -> bool, n: nat): (seq<Call>, Option<Json>)
    decreases n
  {
    if n == 0 then ([], state)
    else
      var r := RunNext(queue, state, succeeds);
      var state' := if r.outcome.Advanced? then Some(StateJson(r.outcome.next)) else state;
      var rest := Drive(queue, state', succeeds, n - 1);
      (r.calls + rest.0, rest.1)
  }

  /** The child processes that processing `paths` in order starts. */
  function Script(paths: seq<string>): seq<Call>
    decreases |paths|
  {
    if |paths| == 0 then [] else PacketCalls(paths[0]) + Script(paths[1..])
  }

  /** One run on a usable item when every child process succeeds. */
  lemma RunAdvances(queue: Option<Json>, items: seq<Json>, state: Option<Json>, succeeds: Call -> bool, p: string)
    requires QueueItems(queue) == Some(items)
    requires 0 <= Cursor(state) < |items| && ItemPath(items[Cursor(state)]) == Some(p)
    requires succeeds(WpToTask(p)) && succeeds(AiRun(p))
    ensures RunNext(queue, state, succeeds) == RunResult(PacketCalls(p), Advanced(QueueState(Cursor(state) + 1, p)))
  {
  }

  lemma DriveAdvance(queue: Option<Json>, state: Option<Json>, succeeds: Call -> bool, n: nat, qs: QueueState)
    requires RunNext(queue, state, succeeds).outcome == Advanced(qs)
    ensures var rest := Drive(queue, Some(StateJson(qs)), succeeds, n);
      Drive(queue, state, succeeds, n + 1) == (RunNext(queue, state, succeeds).calls + rest.0, rest.1)
  {
  }

  /** Driving from a usable item whose child processes succeed starts its two
      calls, then goes on from the state naming the next item. */
  lemma DriveOnUsable(queue: Option<Json>, items: seq<Json>, state: Option<Json>, succeeds: Call -> bool,
                      p: string, n: nat)
    requires QueueItems(queue) == Some(items)
    requires 0 <= Cursor(state) < |items| && ItemPath(items[Cursor(state)]) == Some(p)
    requires succeeds(WpToTask(p)) && succeeds(AiRun(p))
    ensures var rest := Drive(queue, Some(StateJson(QueueState(Cursor(state) + 1, p))), succeeds, n);
      Drive(queue, state, succeeds, n + 1) == (PacketCalls(p) + rest.0, rest.1)
  {
    RunAdvances(queue, items, state, succeeds, p);
    DriveAdvance(queue, state, succeeds, n, QueueState(Cursor(state) + 1, p));
  }

  lemma ScriptFrom(paths: seq<string>, c: nat)
    requires c < |paths|
    ensures Script(paths[c..]) == PacketCalls(paths[c]) + Script(paths[c + 1..])
  {
    assert paths[c..][1..] == paths[c + 1..];
  }

  /** Every child process for the packets in `paths` succeeds. */
  predicate AllSucceed(paths: seq<string>, succeeds: Call -> bool) {
    forall k :: 0 <= k < |paths| ==> succeeds(WpToTask(paths[k])) && succeeds(AiRun(paths[k]))
  }

  /** The induction behind `DrainsInOrder`: the calls, and the cursor the
      last state file holds. */
  lemma {:induction false} DrainCursor(queue: Option<Json>, items: seq<Json>, paths: seq<string>,
                                       state: Option<Json>, succeeds: Call -> bool)
    requires QueueItems(queue) == Some(items) && |items| == |paths|
    requires forall k :: 0 <= k < |paths| ==> ItemPath(items[k]) == Some(paths[k])
    requires AllSucceed(paths, succeeds)
    requires 0 <= Cursor(state) <= |paths|
    ensures var d := Drive(queue, state, succeeds, |paths| - Cursor(state));
      d.0 == Script(paths[Cursor(state)..]) && Cursor(d.1) == |paths|
    decreases |paths| - Cursor(state)
  {
    var c := Cursor(state);
    if c < |paths| {
      var p := paths[c];
      var next := Some(StateJson(QueueState(c + 1, p)));
      var n := |paths| - c - 1;
      CursorReadBack(QueueState(c + 1, p));
      assert |paths| - Cursor(next) == n;
      DrainCursor(queue, items, paths, next, succeeds);
      DriveOnUsable(queue, items, state, succeeds, p, n);
      ScriptFrom(paths, c);
    } else {
      assert Drive(queue, state, succeeds, 0) == ([], state);
      assert paths[c..] == [];
    }
  }

  /** When every child process succeeds and every item is usable, running
      once per remaining item processes the packets from the cursor on, each
      exactly once and in queue order, and leaves the queue done. */
  lemma DrainsInOrder(queue: Option<Json>, items: seq<Json>, paths: seq<string>,
                      state: Option<Json>, succeeds: Call -> bool)
    requires QueueItems(queue) == Some(items) && |items| == |paths|
    requires forall k :: 0 <= k < |paths| ==> ItemPath(items[k]) == Some(paths[k])
    requires AllSucceed(paths, succeeds)
    requires 0 <= Cursor(state) <= |paths|
    ensures var d := Drive(queue, state, succeeds, |paths| - Cursor(state));
      && d.0 == Script(paths[Cursor(state)..])
      && RunNext(queue, d.1, succeeds) == RunResult([], Done)
  {
    DrainCursor(queue, items, paths, state, succeeds);
    DoneIff(queue, Drive(queue, state, succeeds, |paths| - Cursor(state)).1, succeeds);
  }

  /** An unusable item at the cursor blocks the queue: no later run starts
      anything, because a failing run writes no state. */
  lemma {:induction false} InvalidItemBlocks(queue: Option<Json>, state: Option<Json>, succeeds: Call -> bool, n: nat)
    requires QueueItems(queue).Some?
    requires 0 <= Cursor(state) < |QueueItems(queue).value|
    requires ItemPath(QueueItems(queue).value[Cursor(state)]).None?
    ensures Drive(queue, state, succeeds, n) == ([], state)
    decreases n
  {
    if n > 0 {
      var r := RunNext(queue, state, succeeds);
      assert r == RunResult([], Failed(InvalidItem(Cursor(state))));
      InvalidItemBlocks(queue, state, succeeds, n - 1);
      var rest := Drive(queue, state, succeeds, n - 1);
      assert Drive(queue, state, succeeds, n) == (r.calls + rest.0, rest.1);
      assert r.calls + rest.0 == [];
    }
  }
}
