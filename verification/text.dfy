/** The few pieces of Python's `str` that the packer relies on:
    `sep.join`, `splitlines`, `strip` and repetition (`"=" * n`). `Split`
    on one character is not called by the packer; it is the inverse of
    `Join` that the parsers reading a serialisation or a path string back
    are built on. Strings are sequences of Unicode scalar values. */
module Text {

  /** `sep.join(xs)`. */
  function Join(xs: seq<string>, sep: string): string
  {
    if |xs| == 0 then ""
    else if |xs| == 1 then xs[0]
    else xs[0] + sep + Join(xs[1..], sep)
  }

  /** `s.split(c)` for a one-character separator: never empty, and the
      pieces hold no `c`. */
  function Split(s: string, c: char): (r: seq<string>)
    ensures |r| > 0
    ensures forall k :: 0 <= k < |r| ==> c !in r[k]
  {
    if s == [] then [""]
    else
      var rest := Split(s[1..], c);
      if s[0] == c then [""] + rest
      else [[s[0]] + rest[0]] + rest[1..]
  }

  /** `c * n` for a single character `c`. */
  function Repeat(c: char, n: nat): (r: string)
    ensures |r| == n
    ensures forall k :: 0 <= k < n ==> r[k] == c
  {
    if n == 0 then "" else [c] + Repeat(c, n - 1)
  }

  predicate EndsWith(s: string, suffix: string)
  {
    |suffix| <= |s| && s[|s| - |suffix|..] == suffix
  }

  /** Total length of the pieces. */
  function TotalLength(xs: seq<string>): nat
  {
    if xs == [] then 0 else |xs[0]| + TotalLength(xs[1..])
  }

  /** `Join` of seven pieces spelled out. */
  lemma JoinUnfold(xs: seq<string>, sep: string)
    requires |xs| == 7
    ensures Join(xs, sep) ==
      xs[0] + sep + xs[1] + sep + xs[2] + sep + xs[3] + sep + xs[4] + sep + xs[5] + sep + xs[6]
  {
    assert xs[5..][1..] == xs[6..];
    assert xs[4..][1..] == xs[5..];
    assert xs[3..][1..] == xs[4..];
    assert xs[2..][1..] == xs[3..];
    assert xs[1..][1..] == xs[2..];
    assert Join(xs[5..], sep) == xs[5] + sep + xs[6];
    assert Join(xs[4..], sep) == xs[4] + sep + Join(xs[5..], sep);
    assert Join(xs[3..], sep) == xs[3] + sep + Join(xs[4..], sep);
    assert Join(xs[2..], sep) == xs[2] + sep + Join(xs[3..], sep);
    assert Join(xs[1..], sep) == xs[1] + sep + Join(xs[2..], sep);
    assert Join(xs, sep) ==
      xs[0] + sep + (xs[1] + sep + (xs[2] + sep + (xs[3] + sep + (xs[4] + sep + (xs[5] + sep + xs[6])))));
  }

  /** `TotalLength` of seven pieces spelled out. */
  lemma TotalLengthUnfold(xs: seq<string>)
    requires |xs| == 7
    ensures TotalLength(xs) == |xs[0]| + |xs[1]| + |xs[2]| + |xs[3]| + |xs[4]| + |xs[5]| + |xs[6]|
  {
    assert xs[6..][1..] == [];
    assert xs[5..][1..] == xs[6..];
    assert xs[4..][1..] == xs[5..];
    assert xs[3..][1..] == xs[4..];
    assert xs[2..][1..] == xs[3..];
    assert xs[1..][1..] == xs[2..];
    assert TotalLength(xs[6..]) == |xs[6]|;
    assert TotalLength(xs[5..]) == |xs[5]| + TotalLength(xs[6..]);
    assert TotalLength(xs[4..]) == |xs[4]| + TotalLength(xs[5..]);
    assert TotalLength(xs[3..]) == |xs[3]| + TotalLength(xs[4..]);
    assert TotalLength(xs[2..]) == |xs[2]| + TotalLength(xs[3..]);
    assert TotalLength(xs[1..]) == |xs[1]| + TotalLength(xs[2..]);
  }

  lemma {:induction false} JoinAppend(xs: seq<string>, ys: seq<string>, sep: string)
    requires |xs| > 0 && |ys| > 0
    ensures Join(xs + ys, sep) == Join(xs, sep) + sep + Join(ys, sep)
    decreases |xs|
  {
    if |xs| == 1 {
      assert (xs + ys)[1..] == ys;
    } else {
      assert (xs + ys)[1..] == xs[1..] + ys;
      JoinAppend(xs[1..], ys, sep);
    }
  }

  lemma JoinThree(xs: seq<string>, ys: seq<string>, zs: seq<string>, sep: string)
    requires |xs| > 0 && |ys| > 0 && |zs| > 0
    ensures Join(xs + ys + zs, sep) == Join(xs, sep) + sep + (Join(ys, sep) + sep + Join(zs, sep))
  {
    assert xs + ys + zs == xs + (ys + zs);
    JoinAppend(xs, ys + zs, sep);
    JoinAppend(ys, zs, sep);
  }

  /** Joining a run of pieces first and then the whole is joining all. */
  lemma JoinFlatten(xs: seq<string>, ys: seq<string>, zs: seq<string>, sep: string)
    requires |xs| > 0 && |ys| > 0 && |zs| > 0
    ensures Join(xs + [Join(ys, sep)] + zs, sep) == Join(xs + ys + zs, sep)
  {
    JoinThree(xs, [Join(ys, sep)], zs, sep);
    JoinThree(xs, ys, zs, sep);
  }

  /** The joined text is the pieces plus one separator between each pair. */
  lemma {:induction false} JoinLength(xs: seq<string>, sep: string)
    ensures |xs| > 0 ==> |Join(xs, sep)| + |sep| == TotalLength(xs) + |xs| * |sep|
    decreases |xs|
  {
    if |xs| > 1 {
      JoinLength(xs[1..], sep);
    }
  }

  lemma {:induction false} JoinStartsWithFirst(xs: seq<string>, sep: string)
    requires |xs| > 0
    ensures |xs[0]| <= |Join(xs, sep)| && Join(xs, sep)[..|xs[0]|] == xs[0]
  {
  }

  lemma {:induction false} JoinEndsWithLast(xs: seq<string>, sep: string)
    requires |xs| > 0
    ensures EndsWith(Join(xs, sep), xs[|xs| - 1])
    decreases |xs|
  {
    if |xs| > 1 {
      JoinEndsWithLast(xs[1..], sep);
    }
  }

  lemma {:induction false} SplitNoSeparator(s: string, c: char)
    requires c !in s
    ensures Split(s, c) == [s]
    decreases |s|
  {
    if s != [] {
      SplitNoSeparator(s[1..], c);
      assert [s[0]] + s[1..] == s;
    }
  }

  lemma {:induction false} SplitAfterPiece(x: string, c: char, t: string)
    requires c !in x
    ensures Split(x + [c] + t, c) == [x] + Split(t, c)
    decreases |x|
  {
    if x == [] {
      assert x + [c] + t == [c] + t;
      assert ([c] + t)[1..] == t;
    } else {
      var s := x + [c] + t;
      assert s[0] == x[0];
      assert s[1..] == x[1..] + [c] + t;
      SplitAfterPiece(x[1..], c, t);
      assert [x[0]] + x[1..] == x;
    }
  }

  /** Splitting undoes joining when no piece holds the separator. */
  lemma {:induction false} SplitJoin(xs: seq<string>, c: char)
    requires |xs| > 0
    requires forall k :: 0 <= k < |xs| ==> c !in xs[k]
    ensures Split(Join(xs, [c]), c) == xs
    decreases |xs|
  {
    if |xs| == 1 {
      SplitNoSeparator(xs[0], c);
    } else {
      SplitJoin(xs[1..], c);
      SplitAfterPiece(xs[0], c, Join(xs[1..], [c]));
      assert [xs[0]] + xs[1..] == xs;
    }
  }

  /** Joining undoes splitting: nothing of the text is lost. */
  lemma {:induction false} JoinSplit(s: string, c: char)
    ensures Join(Split(s, c), [c]) == s
    decreases |s|
  {
    if s != [] {
      var rest := Split(s[1..], c);
      JoinSplit(s[1..], c);
      if s[0] == c {
        assert ([""] + rest)[1..] == rest;
      } else {
        var r := [[s[0]] + rest[0]] + rest[1..];
        if |rest| > 1 {
          assert r[1..] == rest[1..];
          assert Join(rest, [c]) == rest[0] + [c] + Join(rest[1..], [c]);
        }
        assert [s[0]] + s[1..] == s;
      }
    }
  }

  // ---------------------------------------------------------------------
  // `str.splitlines()`

  /** The line boundaries recognised by `str.splitlines`. */
  predicate IsLineBreak(c: char)
  {
    c == '\n' || c == '\r' || c == '\U{0B}' || c == '\U{0C}' || c == '\U{1C}' || c == '\U{1D}' ||
    c == '\U{1E}' || c == '\U{85}' || c == '\U{2028}' || c == '\U{2029}'
  }

  predicate NoLineBreak(s: string)
  {
    forall k :: 0 <= k < |s| ==> !IsLineBreak(s[k])
  }

  /** Length of the first line of `s`: the index of its first line break, or `|s|`. */
  function LineLength(s: string): (k: nat)
    ensures k <= |s|
    ensures forall j :: 0 <= j < k ==> !IsLineBreak(s[j])
    ensures k < |s| ==> IsLineBreak(s[k])
  {
    if s == [] || IsLineBreak(s[0]) then 0 else 1 + LineLength(s[1..])
  }

  /** `s.splitlines()`: lines without their terminators, where `\r\n` is one
      terminator and a final terminator opens no extra line. */
  function SplitLines(s: string): (r: seq<string>)
    ensures r == [] <==> s == []
    ensures forall k :: 0 <= k < |r| ==> NoLineBreak(r[k])
    decreases |s|
  {
    if s == [] then []
    else
      var k := LineLength(s);
      var next :=
        if k == |s| then |s|
        else if s[k] == '\r' && k + 1 < |s| && s[k + 1] == '\n' then k + 2
        else k + 1;
      [s[..k]] + SplitLines(s[next..])
  }

  /** A text whose every line, including the last, ends in `\n`. */
  function Unlines(xs: seq<string>): string
  {
    if xs == [] then "" else xs[0] + "\n" + Unlines(xs[1..])
  }

  /** A line without breaks, followed by a newline, is the first line. */
  lemma SplitLinesFirst(x: string, rest: string)
    requires NoLineBreak(x)
    ensures SplitLines(x + "\n" + rest) == [x] + SplitLines(rest)
  {
    var s := x + "\n" + rest;
    var k := LineLength(s);
    assert s[|x|] == '\n';
    assert forall j :: 0 <= j < |x| ==> s[j] == x[j];
    assert k == |x|;
    assert s[..k] == x;
    assert s[k + 1..] == rest;
  }

  /** `splitlines` recovers the lines of a newline-terminated text. */
  lemma {:induction false} SplitLinesUnlines(xs: seq<string>)
    requires forall k :: 0 <= k < |xs| ==> NoLineBreak(xs[k])
    ensures SplitLines(Unlines(xs)) == xs
    decreases |xs|
  {
    if xs != [] {
      SplitLinesFirst(xs[0], Unlines(xs[1..]));
      SplitLinesUnlines(xs[1..]);
      assert [xs[0]] + xs[1..] == xs;
    }
  }

  /** A non-empty text without line breaks is one line. */
  lemma SplitLinesSingle(x: string)
    requires x != [] && NoLineBreak(x)
    ensures SplitLines(x) == [x]
  {
    assert LineLength(x) == |x|;
    assert x[..|x|] == x;
    assert x[|x|..] == [];
  }

  lemma UnlinesThen(xs: seq<string>, x: string)
    requires xs != []
    ensures Unlines(xs) + x == xs[0] + "\n" + (Unlines(xs[1..]) + x)
  {
  }

  /** `splitlines` recovers the lines of a text whose last line has no
      terminator, as in `"Title\n====="`. */
  lemma {:induction false} SplitLinesUnlinesLast(xs: seq<string>, x: string)
    requires forall k :: 0 <= k < |xs| ==> NoLineBreak(xs[k])
    requires x != [] && NoLineBreak(x)
    ensures SplitLines(Unlines(xs) + x) == xs + [x]
    decreases |xs|
  {
    if xs == [] {
      assert Unlines(xs) + x == x;
      SplitLinesSingle(x);
    } else {
      var ys := xs[1..];
      assert forall k :: 0 <= k < |ys| ==> ys[k] == xs[k + 1];
      calc {
        SplitLines(Unlines(xs) + x);
        { UnlinesThen(xs, x); }
        SplitLines(xs[0] + "\n" + (Unlines(ys) + x));
        { SplitLinesFirst(xs[0], Unlines(ys) + x); }
        [xs[0]] + SplitLines(Unlines(ys) + x);
        { SplitLinesUnlinesLast(ys, x); }
        [xs[0]] + (ys + [x]);
        { assert [xs[0]] + ys == xs; }
        xs + [x];
      }
    }
  }

  // ---------------------------------------------------------------------
  // `str.strip()`

  /** The characters for which Python's `str.isspace()` holds. */
  const WhiteSpace: set<char> := {
    '\U{09}', '\U{0A}', '\U{0B}', '\U{0C}', '\U{0D}',
    '\U{1C}', '\U{1D}', '\U{1E}', '\U{1F}', '\U{20}',
    '\U{85}', '\U{A0}', '\U{1680}',
    '\U{2000}', '\U{2001}', '\U{2002}', '\U{2003}', '\U{2004}', '\U{2005}',
    '\U{2006}', '\U{2007}', '\U{2008}', '\U{2009}', '\U{200A}',
    '\U{2028}', '\U{2029}', '\U{202F}', '\U{205F}', '\U{3000}' }

  predicate IsSpace(c: char)
  {
    c in WhiteSpace
  }

  /** Number of white-space characters at the front of `s`. */
  function LeadingSpace(s: string): (n: nat)
    ensures n <= |s|
    ensures forall k :: 0 <= k < n ==> IsSpace(s[k])
    ensures n < |s| ==> !IsSpace(s[n])
  {
    if s != [] && IsSpace(s[0]) then 1 + LeadingSpace(s[1..]) else 0
  }

  /** Length of `s` without the white space at its end. */
  function TrailingStart(s: string): (m: nat)
    ensures m <= |s|
    ensures forall k :: m <= k < |s| ==> IsSpace(s[k])
    ensures m > 0 ==> !IsSpace(s[m - 1])
  {
    if s != [] && IsSpace(s[|s| - 1]) then TrailingStart(s[..|s| - 1]) else |s|
  }

  /** `s.strip()`: drops the leading, then the trailing white space. */
  function Strip(s: string): string
  {
    var i := LeadingSpace(s);
    s[i..i + TrailingStart(s[i..])]
  }

  /** `strip` removes only white space: what it keeps is one slice of the
      line, and everything before and after that slice is white space. */
  lemma StripDropsOnlySpace(s: string)
    ensures exists i, j ::
              && 0 <= i <= j <= |s|
              && Strip(s) == s[i..j]
              && (forall k :: 0 <= k < i ==> IsSpace(s[k]))
              && (forall k :: j <= k < |s| ==> IsSpace(s[k]))
  {
    var i := LeadingSpace(s);
    var l := s[i..];
    var m := TrailingStart(l);
    forall k | i + m <= k < |s|
      ensures IsSpace(s[k])
    {
      assert s[k] == l[k - i];
    }
    assert Strip(s) == s[i..i + m];
  }

  /** Neither end of what `strip` keeps is white space. */
  lemma StripEnds(s: string)
    ensures var r := Strip(s); r == [] || (!IsSpace(r[0]) && !IsSpace(r[|r| - 1]))
  {
    var i := LeadingSpace(s);
    var l := s[i..];
    var m := TrailingStart(l);
    if 0 < m {
      assert Strip(s)[0] == l[0] && Strip(s)[m - 1] == l[m - 1];
    }
  }

  /** Stripping twice is stripping once. */
  lemma StripIdempotent(s: string)
    ensures Strip(Strip(s)) == Strip(s)
  {
    var r := Strip(s);
    StripEnds(s);
    assert LeadingSpace(r) == 0;
    assert r[0..] == r;
    assert TrailingStart(r) == |r|;
  }
}
