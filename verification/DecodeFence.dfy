/** Fence stripping: what is taken out of a Markdown fence are the lines of the document,
    joined by line feeds. */
module DecodeFence {
  import opened Basics
  import opened Json
  import opened Decode

  const TICKS := Codes("```")
  const LF: Code := 0x0A

  /** `d` in a fence with the info word `info`. */
  function Fenced(info: Text, d: Text): Text {
    TICKS + info + [LF] + d + [LF] + TICKS
  }

  predicate NoLineEnd(t: Text) {
    forall i | 0 <= i < |t| :: !IsLineEnd(t[i])
  }

  predicate OnlyLineFeeds(t: Text) {
    forall i | 0 <= i < |t| :: IsLineEnd(t[i]) ==> t[i] == LF
  }

  lemma {:induction false} LineEndIs(a: Text, c: Code, b: Text, i: nat)
    requires NoLineEnd(a) && IsLineEnd(c) && i <= |a|
    ensures LineEnd(a + [c] + b, i) == |a|
    decreases |a| - i
  {
    if i < |a| { LineEndIs(a, c, b, i + 1); }
  }

  lemma {:induction false} LineEndNone(a: Text, i: nat)
    requires NoLineEnd(a) && i <= |a|
    ensures LineEnd(a, i) == |a|
    decreases |a| - i
  {
    if i < |a| { LineEndNone(a, i + 1); }
  }

  /** The first line of a text, up to a line feed. */
  lemma FirstLine(a: Text, b: Text)
    requires NoLineEnd(a)
    ensures SplitLines(a + [LF] + b) == [a] + SplitLines(b)
  {
    var t := a + [LF] + b;
    LineEndIs(a, LF, b, 0);
    assert t[..|a|] == a && t[|a| + 1..] == b;
  }

  lemma OneLine(a: Text)
    requires NoLineEnd(a) && a != []
    ensures SplitLines(a) == [a]
  {
    LineEndNone(a, 0);
  }

  lemma {:induction false} LineEndBefore(t: Text, i: nat)
    requires i <= |t|
    ensures forall k | i <= k < LineEnd(t, i) :: !IsLineEnd(t[k])
    ensures LineEnd(t, i) < |t| ==> IsLineEnd(t[LineEnd(t, i)])
    decreases |t| - i
  {
    if i < |t| && !IsLineEnd(t[i]) { LineEndBefore(t, i + 1); }
  }

  /** Where a line ends with more text after it. */
  lemma {:induction false} LineEndExtends(t: Text, u: Text, i: nat)
    requires i <= |t| && LineEnd(t, i) < |t|
    ensures LineEnd(t + u, i) == LineEnd(t, i)
    decreases |t| - i
  {
    if !IsLineEnd(t[i]) { LineEndExtends(t, u, i + 1); }
  }

  lemma SplitFirst(t: Text)
    requires LineEnd(t, 0) < |t|
    ensures var n := LineEnd(t, 0);
            SplitLines(t) == [t[..n]] + SplitLines(AfterLine(t, n))
  {
    hide LineEnd, AfterLine;
  }

  lemma WidthInside(d: Text, b: Text, n: nat)
    requires n < |d| && IsLineEnd(d[n]) && !IsLineEnd(d[|d| - 1])
    ensures n + Width(d, n) < |d| && Width(d + [LF] + b, n) == Width(d, n)
  {
  }

  /** A last line that does not end in a line end, then a line feed and more lines. */
  lemma {:induction false} SplitAt(d: Text, b: Text)
    requires d != [] && !IsLineEnd(d[|d| - 1])
    ensures SplitLines(d + [LF] + b) == SplitLines(d) + SplitLines(b)
    decreases |d|
  {
    hide SplitLines, LineEnd, IsLineEnd, Width;
    var n := LineEnd(d, 0);
    LineEndBefore(d, 0);
    if n == |d| {
      FirstLine(d, b);
      OneLine(d);
    } else {
      LineEndExtends(d, [LF] + b, 0);
      var t := d + [LF] + b;
      assert d + ([LF] + b) == t;
      var w := Width(d, n);
      WidthInside(d, b, n);
      SplitFirst(d);
      SplitFirst(t);
      SplitRest(d, b, t, n, w);
      var x, y := SplitLines(d[n + w..]), SplitLines(b);
      assert [d[..n]] + (x + y) == [d[..n]] + x + y;
    }
  }

  lemma {:induction false} SplitRest(d: Text, b: Text, t: Text, n: nat, width: nat)
    requires t == d + [LF] + b && 0 < n + width < |d| && !IsLineEnd(d[|d| - 1])
    ensures t[..n] == d[..n]
    ensures SplitLines(t[n + width..]) == SplitLines(d[n + width..]) + SplitLines(b)
    decreases |d|, 0
  {
    hide SplitLines, IsLineEnd;
    var rest := d[n + width..];
    assert t[n + width..] == rest + [LF] + b;
    assert rest[|rest| - 1] == d[|d| - 1];
    SplitAt(rest, b);
  }

  lemma {:induction false} JoinCons(a: Text, lines: seq<Text>)
    requires lines != []
    ensures JoinLines([a] + lines) == a + [LF] + JoinLines(lines)
  {
    assert ([a] + lines)[1..] == lines;
  }

  lemma SplitNonempty(d: Text)
    requires d != []
    ensures SplitLines(d) != []
  {
  }

  /** Splitting and joining gives the text back. */
  lemma {:induction false} JoinSplit(d: Text)
    requires d != [] && !IsLineEnd(d[|d| - 1]) && OnlyLineFeeds(d)
    ensures JoinLines(SplitLines(d)) == d
    decreases |d|
  {
    var n := LineEnd(d, 0);
    LineEndBefore(d, 0);
    if n < |d| {
      var rest := d[n + 1..];
      assert d[n] == LF;
      JoinSplit(rest);
      SplitNonempty(rest);
      JoinCons(d[..n], SplitLines(rest));
      assert d == d[..n] + [LF] + rest;
    }
  }

  lemma {:induction false} LinesPlain(d: Text)
    ensures forall l | l in SplitLines(d) :: NoLineEnd(l)
    decreases |d|
  {
    if d != [] {
      var n := LineEnd(d, 0);
      LineEndBefore(d, 0);
      if n < |d| {
        LinesPlain(AfterLine(d, n));
      }
    }
  }

  /** Nothing to strip. */
  lemma StripNothing(t: Text)
    requires t != [] && !IsSpace(t[0]) && !IsSpace(t[|t| - 1])
    ensures Strip(t) == t
  {
  }

  lemma FenceEnds(info: Text, d: Text)
    ensures var t := Fenced(info, d); t != [] && t[0] == 0x60 && t[|t| - 1] == 0x60 && TICKS <= t
  {
    var t := Fenced(info, d);
    assert |TICKS| == 3 && TICKS[0] == 0x60 && TICKS[2] == 0x60;
    assert t[..3] == TICKS;
    assert t[|t| - 1] == TICKS[2];
  }

  lemma TicksLine()
    ensures NoLineEnd(TICKS) && SplitLines(TICKS) == [TICKS] && StartsWithFence(Strip(TICKS)) && |TICKS| == 3
  {
    assert |TICKS| == 3 && TICKS[0] == 0x60 && TICKS[1] == 0x60 && TICKS[2] == 0x60;
    OneLine(TICKS);
    StripNothing(TICKS);
  }

  lemma FencedLines(info: Text, d: Text)
    requires NoLineEnd(info) && d != [] && !IsLineEnd(d[|d| - 1])
    ensures SplitLines(Fenced(info, d)) == [TICKS + info] + SplitLines(d) + [TICKS]
  {
    hide SplitLines, TICKS, IsLineEnd, LineEnd;
    TicksLine();
    var head := TICKS + info;
    assert Fenced(info, d) == head + [LF] + (d + [LF] + TICKS);
    assert NoLineEnd(head);
    FirstLine(head, d + [LF] + TICKS);
    SplitAt(d, TICKS);
    assert [head] + (SplitLines(d) + [TICKS]) == [head] + SplitLines(d) + [TICKS];
  }

  /** What is taken out of the fence: the lines of the document, joined by line feeds. */
  lemma FencedStrips(info: Text, d: Text)
    requires NoLineEnd(info) && d != [] && !IsSpace(d[0]) && !IsSpace(d[|d| - 1])
    ensures StripFence(Fenced(info, d)) == Strip(JoinLines(SplitLines(d)))
  {
    hide SplitLines, Strip, JoinLines, StripFence;
    var t := Fenced(info, d);
    FenceEnds(info, d);
    StripNothing(t);
    FencedLines(info, d);
    TicksLine();
    FenceBody(t, TICKS + info, SplitLines(d), TICKS);
  }

  lemma FenceBody(t: Text, first: Text, lines: seq<Text>, last: Text)
    requires Strip(t) == t && StartsWithFence(t) && SplitLines(t) == [first] + lines + [last]
            && StartsWithFence(Strip(last))
    ensures StripFence(t) == Strip(JoinLines(lines))
  {
    hide SplitLines, Strip, JoinLines, StartsWithFence;
    var rest := SplitLines(t)[1..];
    assert rest == lines + [last];
    assert rest[..|rest| - 1] == lines;
  }

  /** A string with the line separator U+2028 is JSON, but out of the
      fence it has a raw line feed in its place and is not. */
  lemma FenceBreaksSeparator()
    ensures ParseDoc(QUOTED_SEPARATOR) == Some(JStr([0x2028]))
    ensures StripFence(Fenced([], QUOTED_SEPARATOR)) == QUOTED_FEED && ParseDoc(QUOTED_FEED) == None
  {
    hide ParseDoc, StripFence, SplitLines, JoinLines, Strip;
    SeparatorLines(QUOTED_SEPARATOR);
    FencedStrips([], QUOTED_SEPARATOR);
    FeedLines();
    StripNothing(QUOTED_FEED);
    SeparatorParses();
    FeedFails();
  }

  lemma FeedLines()
    ensures JoinLines([['"' as int], ['"' as int]]) == QUOTED_FEED
  {
    var q: Text := ['"' as int];
    assert [q, q][1..] == [q];
  }

  lemma SeparatorParses()
    ensures ParseDoc(QUOTED_SEPARATOR) == Some(JStr([0x2028]))
  {
    var d := QUOTED_SEPARATOR;
    assert StringBody(d, 2) == Done([], 3);
    assert StringBody(d, 1) == Prepend(0x2028, StringBody(d, 2));
    assert [0x2028] + [] == [0x2028];
    assert SkipWs(d, 0) == 0 && SkipWs(d, 3) == 3;
  }

  lemma FeedFails()
    ensures ParseDoc(QUOTED_FEED) == None
  {
    assert StringBody(QUOTED_FEED, 1) == Fail;
    assert SkipWs(QUOTED_FEED, 0) == 0;
  }

  const QUOTED_SEPARATOR: Text := ['"' as int, 0x2028, '"' as int]
  const QUOTED_FEED: Text := ['"' as int, 0x0A, '"' as int]

  lemma SeparatorLines(d: Text)
    requires d == QUOTED_SEPARATOR
    ensures SplitLines(d) == [['"' as int], ['"' as int]]
  {
    var q: Text := ['"' as int];
    assert LineEnd(d, 0) == LineEnd(d, 1) == 1;
    assert d[..1] == q && d[1 + 1..] == q;
    OneLine(q);
    assert [q] + [q] == [q, q];
  }
}
