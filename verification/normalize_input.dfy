/** `normalizeInput` (src/domain/normalizeInput.ts): trim, then collapse every
    whitespace run to one space; an input that is all whitespace is an error. */
module Normalize {

  import opened Wrappers
  import opened Strings

  /** `s.replace(/\s+/g, " ")`. */
  function CollapseWs(s: string): string
    decreases |s|
  {
    if |s| == 0 then ""
    else if IsWs(s[0]) then " " + CollapseWs(TrimStart(s))
    else [s[0]] + CollapseWs(s[1..])
  }

  function NormalizeInput(input: string): (r: Result<string, string>)
    ensures r.Err? <==> forall i :: 0 <= i < |input| ==> IsWs(input[i])
    ensures r.Err? ==> r.error == "Input is empty"
    ensures r.Ok? ==> 0 < |r.value| <= |input|
    ensures r.Ok? ==> !IsWs(r.value[0]) && !IsWs(r.value[|r.value| - 1])
    ensures r.Ok? ==> SingleSpaced(r.value)
    ensures r.Ok? ==> NonWs(r.value) == NonWs(input)
    ensures r.Ok? ==> Words(r.value) == Words(input)
  {
    var t := Trim(input);
    TrimEmptyIff(input);
    CollapseShape(t);
    CollapseEnds(t);
    NonWsTrim(input);
    WordsTrim(input);
    CollapseWords(t);
    var normalized := CollapseWs(t);
    if |normalized| == 0 then Err("Input is empty") else Ok(normalized)
  }

  /** Every whitespace character is a single space followed by a non-space. */
  predicate SingleSpaced(s: string) {
    forall i :: 0 <= i < |s| && IsWs(s[i]) ==> s[i] == ' ' && (i + 1 < |s| ==> !IsWs(s[i + 1]))
  }

  /** The non-whitespace characters of `s`, in order. */
  function NonWs(s: string): string
    decreases |s|
  {
    if |s| == 0 then "" else (if IsWs(s[0]) then "" else [s[0]]) + NonWs(s[1..])
  }

  lemma {:induction false} NonWsAppend(a: string, b: string)
    ensures NonWs(a + b) == NonWs(a) + NonWs(b)
    decreases |a|
  {
    if |a| > 0 {
      HeadTailAppend(a, b);
      NonWsAppend(a[1..], b);
      AppendAssoc(if IsWs(a[0]) then "" else [a[0]], NonWs(a[1..]), NonWs(b));
    } else {
      AppendEmpty(b);
      AppendEmpty(NonWs(b));
    }
  }

  lemma {:induction false} NonWsAllWs(s: string)
    requires forall i :: 0 <= i < |s| ==> IsWs(s[i])
    ensures NonWs(s) == ""
    decreases |s|
  {
    if |s| > 0 {
      NonWsAllWs(s[1..]);
    }
  }

  lemma NonWsTrim(s: string)
    ensures NonWs(Trim(s)) == NonWs(s)
  {
    var t := TrimStart(s);
    NonWsDropWs(s, |s| - |t|);
    var u := TrimEnd(t);
    NonWsDropTrailingWs(t, |u|);
  }

  lemma NonWsDropWs(s: string, k: nat)
    requires k <= |s|
    requires forall i :: 0 <= i < k ==> IsWs(s[i])
    ensures NonWs(s[k..]) == NonWs(s)
  {
    var lead := s[..k];
    assert s == lead + s[k..];
    NonWsAppend(lead, s[k..]);
    NonWsAllWs(lead);
    AppendEmpty(NonWs(s[k..]));
  }

  lemma NonWsDropTrailingWs(s: string, k: nat)
    requires k <= |s|
    requires forall i :: k <= i < |s| ==> IsWs(s[i])
    ensures NonWs(s[..k]) == NonWs(s)
  {
    var head, trail := s[..k], s[k..];
    assert forall i :: 0 <= i < |trail| ==> IsWs(trail[i]) by {
      forall i | 0 <= i < |trail| ensures IsWs(trail[i]) {
        assert trail[i] == s[k + i];
      }
    }
    NonWsAllWs(trail);
    calc {
      NonWs(s);
      { assert s == head + trail; }
      NonWs(head + trail);
      { NonWsAppend(head, trail); }
      NonWs(head) + NonWs(trail);
      { AppendEmpty(NonWs(head)); }
      NonWs(head);
    }
  }

  /** What collapsing keeps: length, emptiness, the non-whitespace characters,
      and single spaces. */
  lemma CollapseShape(s: string)
    ensures |CollapseWs(s)| <= |s|
    ensures |CollapseWs(s)| == 0 <==> |s| == 0
    ensures NonWs(CollapseWs(s)) == NonWs(s)
    ensures SingleSpaced(CollapseWs(s))
    ensures |s| > 0 && !IsWs(s[0]) ==> CollapseWs(s)[0] == s[0]
  {
    CollapseLength(s);
    CollapseNonWs(s);
    CollapseSingleSpaced(s);
  }

  lemma {:induction false} CollapseLength(s: string)
    ensures |CollapseWs(s)| <= |s|
    ensures |CollapseWs(s)| == 0 <==> |s| == 0
    ensures |s| > 0 && IsWs(s[0]) ==> CollapseWs(s)[0] == ' '
    ensures |s| > 0 && !IsWs(s[0]) ==> CollapseWs(s)[0] == s[0]
    decreases |s|
  {
    if |s| > 0 {
      if IsWs(s[0]) {
        CollapseLength(TrimStart(s));
      } else {
        CollapseLength(s[1..]);
      }
    }
  }

  lemma {:induction false} CollapseNonWs(s: string)
    ensures NonWs(CollapseWs(s)) == NonWs(s)
    decreases |s|
  {
    if |s| > 0 {
      if IsWs(s[0]) {
        var t := TrimStart(s);
        var lead := s[..|s| - |t|];
        CollapseNonWs(t);
        assert s == lead + t;
        NonWsAppend(lead, t);
        NonWsAllWs(lead);
        NonWsAppend(" ", CollapseWs(t));
        assert NonWs(" ") == "";
        AppendEmpty(NonWs(t));
        AppendEmpty(NonWs(CollapseWs(t)));
      } else {
        CollapseNonWs(s[1..]);
        NonWsAppend([s[0]], CollapseWs(s[1..]));
        NonWsAppend([s[0]], s[1..]);
        assert [s[0]] + s[1..] == s;
      }
    }
  }

  lemma {:induction false} CollapseSingleSpaced(s: string)
    ensures SingleSpaced(CollapseWs(s))
    decreases |s|
  {
    if |s| > 0 {
      if IsWs(s[0]) {
        var t := TrimStart(s);
        CollapseSingleSpaced(t);
        CollapseLength(t);
        SpaceThenSingleSpaced(CollapseWs(t));
      } else {
        CollapseSingleSpaced(s[1..]);
        CharThenSingleSpaced(s[0], CollapseWs(s[1..]));
      }
    }
  }

  /** A space in front of a single-spaced text that starts with a non-space. */
  lemma SpaceThenSingleSpaced(c: string)
    requires SingleSpaced(c)
    requires |c| == 0 || !IsWs(c[0])
    ensures SingleSpaced(" " + c)
  {
    var r := " " + c;
    forall i | 0 <= i < |r| && IsWs(r[i])
      ensures r[i] == ' ' && (i + 1 < |r| ==> !IsWs(r[i + 1]))
    {
      if i > 0 {
        assert r[i] == c[i - 1];
      } else if 1 < |r| {
        assert r[1] == c[0];
      }
    }
  }

  /** A non-space in front of a single-spaced text. */
  lemma CharThenSingleSpaced(x: char, c: string)
    requires !IsWs(x) && SingleSpaced(c)
    ensures SingleSpaced([x] + c)
  {
    var r := [x] + c;
    forall i | 0 <= i < |r| && IsWs(r[i])
      ensures r[i] == ' ' && (i + 1 < |r| ==> !IsWs(r[i + 1]))
    {
      if i > 0 {
        assert r[i] == c[i - 1];
      }
    }
  }

  /** Collapsing keeps a non-whitespace last character last. */
  lemma {:induction false} CollapseEnds(s: string)
    ensures |s| > 0 && !IsWs(s[|s| - 1]) ==>
      |CollapseWs(s)| > 0 && CollapseWs(s)[|CollapseWs(s)| - 1] == s[|s| - 1]
    decreases |s|
  {
    if |s| == 0 || IsWs(s[|s| - 1]) {
    } else if IsWs(s[0]) {
      var t := TrimStart(s);
      assert |t| > 0 && t[|t| - 1] == s[|s| - 1];
      CollapseEnds(t);
    } else if |s| > 1 {
      CollapseEnds(s[1..]);
    }
  }

  /** Text already in normal form is its own collapse. */
  lemma {:induction false} CollapseFixed(s: string)
    requires SingleSpaced(s)
    requires |s| == 0 || !IsWs(s[|s| - 1])
    ensures CollapseWs(s) == s
    decreases |s|
  {
    if |s| > 0 {
      SingleSpacedTail(s);
      CollapseFixed(s[1..]);
      if IsWs(s[0]) {
        OneSpaceTrimStart(s);
        assert CollapseWs(s) == " " + s[1..];
        assert " " == [s[0]];
      } else {
        assert CollapseWs(s) == [s[0]] + s[1..];
      }
      ConsTail(s);
    }
  }

  lemma SingleSpacedTail(s: string)
    requires |s| > 0 && SingleSpaced(s)
    ensures SingleSpaced(s[1..])
  {
    forall i | 0 <= i < |s[1..]| && IsWs(s[1..][i])
      ensures s[1..][i] == ' ' && (i + 1 < |s[1..]| ==> !IsWs(s[1..][i + 1]))
    {
      assert s[1..][i] == s[i + 1];
    }
  }

  /** A lone space before a non-space is all that `TrimStart` removes. */
  lemma OneSpaceTrimStart(s: string)
    requires |s| > 1 && IsWs(s[0]) && !IsWs(s[1])
    ensures TrimStart(s) == s[1..]
  {
  }

  /** A maximal run of non-whitespace characters. */
  predicate IsWord(w: string) {
    |w| > 0 && forall i :: 0 <= i < |w| ==> !IsWs(w[i])
  }

  /** The words of `s`: its maximal runs of non-whitespace characters, in
      order. Whitespace only separates them, so its amount does not matter. */
  function Words(s: string): (r: seq<string>)
    ensures forall k :: 0 <= k < |r| ==> IsWord(r[k])
    ensures |s| > 0 && !IsWs(s[0]) ==> |r| > 0 && |r[0]| > 0 && r[0][0] == s[0]
    decreases |s|
  {
    if |s| == 0 then []
    else if IsWs(s[0]) then Words(s[1..])
    else
      var rest := Words(s[1..]);
      if |s| > 1 && !IsWs(s[1]) then [[s[0]] + rest[0]] + rest[1..] else [[s[0]]] + rest
  }

  lemma {:induction false} WordsAllWs(s: string)
    requires forall i :: 0 <= i < |s| ==> IsWs(s[i])
    ensures Words(s) == []
    decreases |s|
  {
    if |s| > 0 {
      WordsAllWs(s[1..]);
    }
  }

  /** Leading whitespace separates nothing. */
  lemma {:induction false} WordsDropWs(s: string, k: nat)
    requires k <= |s|
    requires forall i :: 0 <= i < k ==> IsWs(s[i])
    ensures Words(s[k..]) == Words(s)
    decreases k
  {
    if k > 0 {
      assert s[1..][k - 1..] == s[k..];
      WordsDropWs(s[1..], k - 1);
    }
  }

  /** Trailing whitespace separates nothing. */
  lemma {:induction false} WordsTrailingWs(a: string, b: string)
    requires forall i :: 0 <= i < |b| ==> IsWs(b[i])
    ensures Words(a + b) == Words(a)
    decreases |a|
  {
    if |a| == 0 {
      AppendEmpty(b);
      WordsAllWs(b);
    } else {
      HeadTailAppend(a, b);
      WordsTrailingWs(a[1..], b);
      if |a| == 1 && |b| > 0 {
        assert (a + b)[1] == b[0];
      } else if |a| > 1 {
        assert (a + b)[1] == a[1];
      }
    }
  }

  lemma WordsDropTrailingWs(s: string, k: nat)
    requires k <= |s|
    requires forall i :: k <= i < |s| ==> IsWs(s[i])
    ensures Words(s[..k]) == Words(s)
  {
    var trail := s[k..];
    assert s[..k] + trail == s;
    forall i | 0 <= i < |trail| ensures IsWs(trail[i]) {
      assert trail[i] == s[k + i];
    }
    WordsTrailingWs(s[..k], trail);
  }

  lemma WordsTrim(s: string)
    ensures Words(Trim(s)) == Words(s)
  {
    var t := TrimStart(s);
    WordsDropWs(s, |s| - |t|);
    var u := TrimEnd(t);
    WordsDropTrailingWs(t, |u|);
  }

  /** Collapsing the whitespace runs keeps the words. */
  lemma {:induction false} CollapseWords(s: string)
    ensures Words(CollapseWs(s)) == Words(s)
    decreases |s|
  {
    if |s| > 0 {
      var c := CollapseWs(s);
      if IsWs(s[0]) {
        var t := TrimStart(s);
        CollapseWords(t);
        WordsDropWs(s, |s| - |t|);
        assert c == " " + CollapseWs(t);
        assert c[1..] == CollapseWs(t);
      } else {
        CollapseWords(s[1..]);
        CollapseLength(s[1..]);
        assert c == [s[0]] + CollapseWs(s[1..]);
        assert c[0] == s[0] && c[1..] == CollapseWs(s[1..]);
        if |s| > 1 {
          assert c[1] == CollapseWs(s[1..])[0];
        }
      }
    }
  }

  /** Single-spaced text is determined by its words, by whether it opens
      with a space, and by not ending in whitespace. */
  lemma {:induction false} WordsDetermine(a: string, b: string)
    requires SingleSpaced(a) && SingleSpaced(b)
    requires (|a| == 0 || !IsWs(a[|a| - 1])) && (|b| == 0 || !IsWs(b[|b| - 1]))
    requires (|a| > 0 && IsWs(a[0])) == (|b| > 0 && IsWs(b[0]))
    requires Words(a) == Words(b)
    ensures a == b
    decreases |a| + |b|
  {
    if |a| == 0 || |b| == 0 {
    } else if IsWs(a[0]) {
      SingleSpacedTail(a);
      SingleSpacedTail(b);
      WordsDetermine(a[1..], b[1..]);
      ConsTail(a);
      ConsTail(b);
    } else {
      SingleSpacedTail(a);
      SingleSpacedTail(b);
      var ra, rb := Words(a[1..]), Words(b[1..]);
      assert a[0] == Words(a)[0][0] == b[0];
      if |a| > 1 && !IsWs(a[1]) {
        if |b| > 1 && !IsWs(b[1]) {
          assert [a[0]] + ra[0] == [b[0]] + rb[0];
          assert ra[0] == ([a[0]] + ra[0])[1..];
          assert rb[0] == ([b[0]] + rb[0])[1..];
          assert ra[1..] == Words(a)[1..] == Words(b)[1..] == rb[1..];
          ConsTail(ra);
          ConsTail(rb);
        }
      } else if !(|b| > 1 && !IsWs(b[1])) {
        assert Words(a) == [[a[0]]] + ra && Words(b) == [[b[0]]] + rb;
        assert ra == Words(a)[1..] == rb;
        if |a| > 1 {
          SpaceThenWords(a);
        }
        if |b| > 1 {
          SpaceThenWords(b);
        }
      }
      WordsDetermine(a[1..], b[1..]);
      ConsTail(a);
      ConsTail(b);
    }
  }

  /** After a non-space, a space always comes before another word. */
  lemma SpaceThenWords(a: string)
    requires SingleSpaced(a) && |a| > 1 && IsWs(a[1]) && !IsWs(a[|a| - 1])
    ensures |Words(a[1..])| > 0
  {
    assert !IsWs(a[2]);
    assert a[1..][1..] == a[2..];
  }

  /** The normalized text is the only non-empty, single-spaced text with no
      whitespace at either end that has the input's words. */
  lemma NormalizedUnique(input: string, s: string)
    requires NormalizeInput(input).Ok?
    requires |s| > 0 && !IsWs(s[0]) && !IsWs(s[|s| - 1]) && SingleSpaced(s)
    requires Words(s) == Words(input)
    ensures s == NormalizeInput(input).value
  {
    WordsDetermine(s, NormalizeInput(input).value);
  }

  /** Normalizing a normalized text returns it unchanged. */
  lemma NormalizeIdempotent(input: string)
    requires NormalizeInput(input).Ok?
    ensures NormalizeInput(NormalizeInput(input).value) == NormalizeInput(input)
  {
    var r := NormalizeInput(input).value;
    TrimNoEnds(r);
    CollapseFixed(r);
  }
}
