/**
 * Text primitives of JavaScript's `String` as the scripts use them:
 * `trim`/`trimStart`/`trimEnd`, `startsWith`, `includes`, `split` on one
 * character, `Array.join`, and ASCII `toLowerCase`.
 */
module Strings {

  import opened Wrappers

  /** JavaScript's WhiteSpace and LineTerminator characters: the set that both
      `String.prototype.trim` and the regular-expression class `\s` use. */
  predicate IsWs(c: char) {
    || ('\t' <= c <= '\r')            // tab, line feed, vertical tab, form feed, carriage return
    || c == ' '
    || c == '\U{00A0}'
    || c == '\U{1680}'
    || ('\U{2000}' <= c <= '\U{200A}')
    || c == '\U{2028}' || c == '\U{2029}'
    || c == '\U{202F}' || c == '\U{205F}'
    || c == '\U{3000}' || c == '\U{FEFF}'
  }

  /** The characters that `.` does not match and after which a multiline `^` matches. */
  predicate IsLineTerminator(c: char) {
    c == '\n' || c == '\r' || c == '\U{2028}' || c == '\U{2029}'
  }

  lemma LineTerminatorIsWs(c: char)
    requires IsLineTerminator(c)
    ensures IsWs(c)
  {
  }

  predicate NoWs(s: string) {
    forall i :: 0 <= i < |s| ==> !IsWs(s[i])
  }

  /** `s.trimStart()`. */
  function TrimStart(s: string): (r: string)
    ensures |r| <= |s| && r == s[|s| - |r|..]
    ensures forall i :: 0 <= i < |s| - |r| ==> IsWs(s[i])
    ensures |r| > 0 ==> !IsWs(r[0])
    decreases |s|
  {
    if |s| > 0 && IsWs(s[0]) then TrimStart(s[1..]) else s
  }

  /** `s.trimEnd()`. */
  function TrimEnd(s: string): (r: string)
    ensures |r| <= |s| && r == s[..|r|]
    ensures forall i :: |r| <= i < |s| ==> IsWs(s[i])
    ensures |r| > 0 ==> !IsWs(r[|r| - 1])
    decreases |s|
  {
    if |s| > 0 && IsWs(s[|s| - 1]) then TrimEnd(s[..|s| - 1]) else s
  }

  /** `s.trim()`: the longest infix with no whitespace at either end. */
  function Trim(s: string): (r: string)
    ensures |r| <= |s|
    ensures |r| > 0 ==> !IsWs(r[0]) && !IsWs(r[|r| - 1])
  {
    TrimEnd(TrimStart(s))
  }

  /** A text with nothing but whitespace in it: `!s.trim()` (see `TrimEmptyIff`). */
  predicate Blank(s: string) {
    forall i :: 0 <= i < |s| ==> IsWs(s[i])
  }

  /** Trimming leaves nothing exactly when the text is all whitespace. */
  lemma TrimEmptyIff(s: string)
    ensures |Trim(s)| == 0 <==> forall i :: 0 <= i < |s| ==> IsWs(s[i])
  {
    var t := TrimStart(s);
    assert |t| > 0 ==> |TrimEnd(t)| > 0;
  }

  /** Trimming text that has no whitespace at either end changes nothing. */
  lemma TrimEndNoTrailing(s: string)
    requires |s| == 0 || !IsWs(s[|s| - 1])
    ensures TrimEnd(s) == s
  {
  }

  lemma TrimStartNoLeading(s: string)
    requires |s| == 0 || !IsWs(s[0])
    ensures TrimStart(s) == s
  {
  }

  lemma TrimNoEnds(s: string)
    requires |s| == 0 || (!IsWs(s[0]) && !IsWs(s[|s| - 1]))
    ensures Trim(s) == s
  {
    TrimStartNoLeading(s);
    TrimEndNoTrailing(s);
  }

  lemma TrimEndIdempotent(s: string)
    ensures TrimEnd(TrimEnd(s)) == TrimEnd(s)
  {
    TrimEndNoTrailing(TrimEnd(s));
  }

  lemma TrimIdempotent(s: string)
    ensures Trim(Trim(s)) == Trim(s)
  {
    TrimNoEnds(Trim(s));
  }

  /** A text whose first character is not whitespace keeps it under trimming. */
  lemma TrimKeepsFirst(s: string)
    requires |s| > 0 && !IsWs(s[0])
    ensures |Trim(s)| > 0 && Trim(s)[0] == s[0]
  {
    TrimStartNoLeading(s);
  }

  /** `s.startsWith(p)`. */
  predicate StartsWith(s: string, p: string) {
    |p| <= |s| && s[..|p|] == p
  }

  /** `s.endsWith(p)`. */
  predicate EndsWith(s: string, p: string) {
    |p| <= |s| && s[|s| - |p|..] == p
  }

  /** `p` occurs in `s` at index `i`. */
  predicate OccursAt(s: string, p: string, i: int) {
    0 <= i && i + |p| <= |s| && s[i..i + |p|] == p
  }

  lemma SliceOfSlice(s: string, a: nat, b: nat, c: nat, d: nat)
    requires a <= b <= |s| && c <= d <= b - a
    ensures s[a..b][c..d] == s[a + c..a + d]
  {
    assert forall m :: 0 <= m < d - c ==> s[a..b][c..d][m] == s[a + c + m];
  }

  /** `s.includes(p)`. */
  predicate Contains(s: string, p: string) {
    exists i :: 0 <= i <= |s| && OccursAt(s, p, i)
  }

  lemma ContainsExtend(s: string, p: string, pre: string, post: string)
    requires Contains(s, p)
    ensures Contains(pre + s + post, p)
  {
    var i :| 0 <= i <= |s| && OccursAt(s, p, i);
    assert (pre + s + post)[|pre| + i..|pre| + i + |p|] == s[i..i + |p|];
    assert OccursAt(pre + s + post, p, |pre| + i);
  }

  lemma ContainsPrefix(s: string, p: string, n: nat)
    requires n <= |s| && Contains(s[..n], p)
    ensures Contains(s, p)
  {
    ContainsExtend(s[..n], p, "", s[n..]);
    assert "" + s[..n] + s[n..] == s;
  }

  /** The leftmost occurrence of `p` in `s` at or after `from`: the search a
      regular-expression engine makes for a literal. */
  function FindFrom(s: string, p: string, from: nat): (r: Option<nat>)
    ensures r.Some? ==> from <= r.value && r.value + |p| <= |s|
    decreases |s| - from
  {
    if from + |p| > |s| then None
    else if s[from..from + |p|] == p then Some(from)
    else FindFrom(s, p, from + 1)
  }

  /** What the search finds is an occurrence with none before it, and when
      it finds nothing there is no occurrence at all. */
  lemma {:induction false} FindFromSpec(s: string, p: string, from: nat)
    ensures var r := FindFrom(s, p, from);
      && (r.Some? ==> OccursAt(s, p, r.value))
      && (r.Some? ==> forall j :: from <= j < r.value ==> !OccursAt(s, p, j))
      && (r.None? ==> forall j :: from <= j ==> !OccursAt(s, p, j))
    decreases |s| - from
  {
    if from + |p| <= |s| && s[from..from + |p|] != p {
      FindFromSpec(s, p, from + 1);
    }
  }

  /** The search finds an occurrence with none before it. */
  lemma {:induction false} FindFromFirst(s: string, p: string, from: nat, i: nat)
    requires from <= i && OccursAt(s, p, i)
    requires forall j :: from <= j < i ==> !OccursAt(s, p, j)
    ensures FindFrom(s, p, from) == Some(i)
    decreases i - from
  {
    if from < i {
      assert !OccursAt(s, p, from);
      FindFromFirst(s, p, from + 1, i);
    }
  }

  /** ASCII `toLowerCase`. */
  function LowerChar(c: char): char {
    if 'A' <= c <= 'Z' then (c as int + 32) as char else c
  }

  function Lower(s: string): (r: string)
    ensures |r| == |s|
    ensures forall i :: 0 <= i < |s| ==> r[i] == LowerChar(s[i])
  {
    seq(|s|, i requires 0 <= i < |s| => LowerChar(s[i]))
  }

  lemma LowerAppend(a: string, b: string)
    ensures Lower(a + b) == Lower(a) + Lower(b)
  {
  }

  /** `s.split(sep)` for a one-character separator: always at least one piece. */
  function Split(s: string, sep: char): (r: seq<string>)
    ensures |r| >= 1
    ensures forall k :: 0 <= k < |r| ==> sep !in r[k]
    decreases |s|
  {
    if |s| == 0 then [""]
    else if s[0] == sep then [""] + Split(s[1..], sep)
    else
      var rest := Split(s[1..], sep);
      [[s[0]] + rest[0]] + rest[1..]
  }

  /** `xs.join(sep)`. */
  function Join(xs: seq<string>, sep: string): string
    decreases |xs|
  {
    if |xs| == 0 then ""
    else if |xs| == 1 then xs[0]
    else xs[0] + sep + Join(xs[1..], sep)
  }

  /** The lines of `s`: `s.split("\n")`. */
  function Lines(s: string): seq<string> {
    Split(s, '\n')
  }

  lemma {:induction false} SplitNoSep(s: string, sep: char)
    requires sep !in s
    ensures Split(s, sep) == [s]
    decreases |s|
  {
    if |s| > 0 {
      SplitNoSep(s[1..], sep);
      assert [s[0]] + s[1..] == s;
    }
  }

  /** Text before a separator-free prefix joins the first piece. */
  lemma {:induction false} SplitPrefixNoSep(a: string, b: string, sep: char)
    requires sep !in a
    ensures Split(a + b, sep) == [a + Split(b, sep)[0]] + Split(b, sep)[1..]
    decreases |a|
  {
    if |a| > 0 {
      assert (a + b)[1..] == a[1..] + b;
      assert (a + b)[0] == a[0];
      SplitPrefixNoSep(a[1..], b, sep);
      assert [a[0]] + (a[1..] + Split(b, sep)[0]) == a + Split(b, sep)[0];
    } else {
      assert a + b == b;
      var r := Split(b, sep);
      assert a + r[0] == r[0];
      assert r == [r[0]] + r[1..];
    }
  }

  /** Splitting distributes over a separator. */
  lemma {:induction false} SplitAtSep(a: string, b: string, sep: char)
    ensures Split(a + [sep] + b, sep) == Split(a, sep) + Split(b, sep)
    decreases |a|
  {
    if |a| == 0 {
      assert a + [sep] + b == [sep] + b;
      assert ([sep] + b)[1..] == b;
    } else {
      assert (a + [sep] + b)[0] == a[0];
      assert (a + [sep] + b)[1..] == a[1..] + [sep] + b;
      SplitAtSep(a[1..], b, sep);
      if a[0] == sep {
      } else {
        var ra := Split(a[1..], sep);
        assert Split(a, sep) == [[a[0]] + ra[0]] + ra[1..];
      }
    }
  }

  /** Joining the pieces of a split gives the text back. */
  lemma {:induction false} JoinSplit(s: string, sep: char)
    ensures Join(Split(s, sep), [sep]) == s
    decreases |s|
  {
    if |s| > 0 {
      JoinSplit(s[1..], sep);
      var rest := Split(s[1..], sep);
      if s[0] == sep {
        assert Split(s, sep) == [""] + rest;
        assert Join([""] + rest, [sep]) == "" + [sep] + Join(rest, [sep]);
        assert [s[0]] + s[1..] == s;
      } else {
        var r := Split(s, sep);
        assert r == [[s[0]] + rest[0]] + rest[1..];
        if |rest| == 1 {
          assert Join(r, [sep]) == [s[0]] + rest[0];
          assert [s[0]] + s[1..] == s;
        } else {
          assert Join(rest, [sep]) == rest[0] + [sep] + Join(rest[1..], [sep]);
          assert r[1..] == rest[1..];
          assert Join(r, [sep]) == ([s[0]] + rest[0]) + [sep] + Join(rest[1..], [sep]);
          assert [s[0]] + s[1..] == s;
        }
      }
    }
  }

  /** Splitting a join of separator-free pieces gives the pieces back. */
  lemma {:induction false} SplitJoin(xs: seq<string>, sep: char)
    requires |xs| > 0
    requires forall k :: 0 <= k < |xs| ==> sep !in xs[k]
    ensures Split(Join(xs, [sep]), sep) == xs
    decreases |xs|
  {
    if |xs| == 1 {
      SplitNoSep(xs[0], sep);
    } else {
      SplitJoin(xs[1..], sep);
      SplitAtSep(xs[0], Join(xs[1..], [sep]), sep);
      SplitNoSep(xs[0], sep);
      assert [xs[0]] + xs[1..] == xs;
    }
  }

  /** The pieces of every element, in order. */
  function SplitAll(xs: seq<string>, sep: char): seq<string>
    decreases |xs|
  {
    if |xs| == 0 then [] else Split(xs[0], sep) + SplitAll(xs[1..], sep)
  }

  lemma {:induction false} SplitAllAppend(xs: seq<string>, ys: seq<string>, sep: char)
    ensures SplitAll(xs + ys, sep) == SplitAll(xs, sep) + SplitAll(ys, sep)
    decreases |xs|
  {
    if |xs| == 0 {
      AppendEmpty(ys);
      AppendEmpty(SplitAll(ys, sep));
    } else {
      HeadTailAppend(xs, ys);
      SplitAllAppend(xs[1..], ys, sep);
      AppendAssoc(Split(xs[0], sep), SplitAll(xs[1..], sep), SplitAll(ys, sep));
    }
  }

  /** Splitting a join of arbitrary pieces gives the pieces of each piece. */
  lemma {:induction false} SplitJoinAll(xs: seq<string>, sep: char)
    requires |xs| > 0
    ensures Split(Join(xs, [sep]), sep) == SplitAll(xs, sep)
    decreases |xs|
  {
    if |xs| == 1 {
      assert SplitAll(xs, sep) == Split(xs[0], sep) + SplitAll([], sep);
    } else {
      SplitJoinAll(xs[1..], sep);
      SplitAtSep(xs[0], Join(xs[1..], [sep]), sep);
    }
  }

  lemma {:induction false} JoinAppendOne(xs: seq<string>, y: string, sep: string)
    requires |xs| > 0
    ensures Join(xs + [y], sep) == Join(xs, sep) + sep + y
    decreases |xs|
  {
    if |xs| == 1 {
      assert xs + [y] == [xs[0], y];
    } else {
      assert (xs + [y])[1..] == xs[1..] + [y];
      JoinAppendOne(xs[1..], y, sep);
    }
  }

  lemma ConsTail<T>(s: seq<T>)
    requires |s| > 0
    ensures [s[0]] + s[1..] == s
  {
  }

  /** The head and tail of a concatenation with a non-empty front. */
  lemma HeadTailAppend<T>(a: seq<T>, b: seq<T>)
    requires |a| > 0
    ensures (a + b)[0] == a[0] && (a + b)[1..] == a[1..] + b
  {
    var l := (a + b)[1..];
    var r := a[1..] + b;
    assert |l| == |r|;
    forall k | 0 <= k < |l| ensures l[k] == r[k] {
      if k < |a| - 1 {} else {}
    }
  }

  lemma AppendAssoc<T>(x: seq<T>, y: seq<T>, z: seq<T>)
    ensures x + (y + z) == (x + y) + z
  {
    var l := x + (y + z);
    var r := (x + y) + z;
    assert |l| == |r|;
    forall k | 0 <= k < |l| ensures l[k] == r[k] {
      if k < |x| {} else if k < |x| + |y| {} else {}
    }
  }

  /** Short displays built one element at a time. */
  lemma Displays<T>(a: T, b: T, c: T, d: T)
    ensures [a] + [b] == [a, b]
    ensures [a, b] + [c] == [a, b, c]
    ensures [a, b, c] + [d] == [a, b, c, d]
  {
    assert ([a] + [b])[1] == b;
    assert ([a, b] + [c])[2] == c;
    assert ([a, b, c] + [d])[3] == d;
  }

  /** Appending a three-element display is appending its elements one by one. */
  lemma AppendThree<T>(a: seq<T>, x: T, y: T, z: T)
    ensures a + [x, y, z] == a + [x] + [y] + [z]
  {
    var l := a + [x, y, z];
    var r := a + [x] + [y] + [z];
    assert |l| == |r|;
    forall k | 0 <= k < |l| ensures l[k] == r[k] {
      if k < |a| {} else if k == |a| {} else if k == |a| + 1 {} else {}
    }
  }

  lemma AppendEmpty<T>(s: seq<T>)
    ensures s + [] == s && [] + s == s
  {
  }

  /** A join ends with its last element. */
  lemma {:induction false} JoinEndsWithLast(xs: seq<string>, sep: string)
    requires |xs| > 0
    ensures var j := Join(xs, sep); var l := xs[|xs| - 1]; |l| <= |j| && j[|j| - |l|..] == l
    decreases |xs|
  {
    if |xs| > 1 {
      JoinEndsWithLast(xs[1..], sep);
    }
  }

  /** Trailing whitespace after a text with non-space ends is all that trimming removes. */
  lemma TrimDropsTrailingWs(x: string, w: string)
    requires |x| > 0 && !IsWs(x[0]) && !IsWs(x[|x| - 1])
    requires forall i :: 0 <= i < |w| ==> IsWs(w[i])
    ensures Trim(x + w) == x
  {
    TrimStartNoLeading(x + w);
    TrimEndDropsWs(x, w);
  }

  lemma {:induction false} TrimEndDropsWs(x: string, w: string)
    requires |x| == 0 || !IsWs(x[|x| - 1])
    requires forall i :: 0 <= i < |w| ==> IsWs(w[i])
    ensures TrimEnd(x + w) == x
    decreases |w|
  {
    if |w| == 0 {
      assert x + w == x;
      TrimEndNoTrailing(x);
    } else {
      var y := x + w;
      assert y[..|y| - 1] == x + w[..|w| - 1];
      TrimEndDropsWs(x, w[..|w| - 1]);
    }
  }

  /** A join of pieces free of a character is free of it when the separator is. */
  lemma {:induction false} JoinWithout(xs: seq<string>, sep: string, c: char)
    requires c !in sep
    requires forall k :: 0 <= k < |xs| ==> c !in xs[k]
    ensures c !in Join(xs, sep)
    decreases |xs|
  {
    if |xs| > 1 {
      JoinWithout(xs[1..], sep, c);
    }
  }

  /** A join starts with its first element. */
  lemma JoinStartsWithFirst(xs: seq<string>, sep: string)
    requires |xs| > 0
    ensures |xs[0]| <= |Join(xs, sep)| && Join(xs, sep)[..|xs[0]|] == xs[0]
  {
  }
}
