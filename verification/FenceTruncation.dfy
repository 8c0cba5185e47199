/** Where the fence and the truncation meet: a payload whose Markdown fence was opened and
    never closed decodes like the bare payload cut at the same place, if no odd line end
    stands in it; and a payload in a whole fence like the bare one exactly then. */
module FenceTruncation {
  import opened Basics
  import opened Json
  import opened JsonLocal
  import opened Decode
  import opened DecodeScan
  import opened DecodeTruncation
  import opened DecodeFence
  import opened LineEnds

  const TICK: Code := 0x60

  // ----- no line of a JSON text starts with a backtick

  predicate Printed(t: Text, i: nat, j: nat)
    requires j <= |t|
  {
    forall k | i <= k < j :: t[k] >= 0x20
  }

  /** A quote stands before `k`, at or after `i`, and no control code between. */
  ghost predicate QuoteBefore(t: Text, i: nat, k: nat)
    requires k <= |t|
  {
    exists m | i <= m < k :: t[m] == '"' as int && Printed(t, m, k)
  }

  /** From `i` up to `j` every backtick has a quote before it on its line, and every line end
      is a carriage return, a line feed or odd. */
  ghost predicate Guarded(t: Text, i: nat, j: nat)
    requires j <= |t|
  {
    && (forall k | i <= k < j && t[k] == TICK :: QuoteBefore(t, i, k))
    && (forall k | i <= k < j && IsLineEnd(t[k]) :: t[k] == CR || t[k] == LF || Odd(t[k]))
  }

  lemma GuardedJoin(t: Text, i: nat, k: nat, j: nat)
    requires i <= k <= j <= |t| && Guarded(t, i, k) && Guarded(t, k, j)
    ensures Guarded(t, i, j)
  {
    hide Printed;
  }

  lemma HexPrinted(t: Text, i: nat)
    requires Hex4(t, i).Some?
    ensures i + 4 <= |t| && Printed(t, i, i + 4)
  {
    assert Hex(t, i, 4, 0).Some?;
    assert Hex(t, i + 1, 3, HexValue(t[i]).value).Some?;
  }

  /** A string holds no control code. */
  lemma {:induction false} StringPrinted(t: Text, i: nat)
    requires StringBody(t, i).Done?
    ensures Printed(t, i, StringBody(t, i).end)
    decreases |t| - i, 1
  {
    if t[i] == '\\' as int {
      EscapePrinted(t, i + 1);
    } else if t[i] != '"' as int {
      StringPrinted(t, i + 1);
    }
  }

  lemma {:induction false} EscapePrinted(t: Text, i: nat)
    requires EscapeBody(t, i).Done?
    ensures Printed(t, i, EscapeBody(t, i).end)
    decreases |t| - i, 0
  {
    if SimpleEscape(t[i]).Some? {
      StringPrinted(t, i + 1);
    } else {
      HexPrinted(t, i + 1);
      UnicodePrinted(t, i + 5, Hex4(t, i + 1).value);
    }
  }

  lemma {:induction false} UnicodePrinted(t: Text, i: nat, h: nat)
    requires i > 0 && h < 0x10000 && UnicodeBody(t, i, h).Done?
    ensures Printed(t, i, UnicodeBody(t, i, h).end)
    decreases |t| - i, 2
  {
    if IsHigh(h) && At(t, i, '\\') && At(t, i + 1, 'u') && IsLow(Hex4(t, i + 2).value) {
      HexPrinted(t, i + 2);
      StringPrinted(t, i + 6);
    } else {
      StringPrinted(t, i);
    }
  }

  lemma StringGuarded(t: Text, i: nat)
    requires At(t, i, '"') && StringBody(t, i + 1).Done?
    ensures Guarded(t, i, StringBody(t, i + 1).end)
  {
    hide StringBody;
    StringPrinted(t, i + 1);
    var e := StringBody(t, i + 1).end;
    forall k | i <= k < e && t[k] == TICK
      ensures QuoteBefore(t, i, k)
    {
      assert Printed(t, i, k);
    }
  }

  lemma {:induction false} NumberNoTick(t: Text, i: nat, st: NumState, best: Option<nat>)
    requires i <= |t| && (best.Some? ==> best.value <= i) && NumberEnd(t, i, st, best).Some?
    ensures forall k | i <= k < NumberEnd(t, i, st, best).value :: t[k] != TICK && !IsLineEnd(t[k])
    decreases |t| - i
  {
    if i < |t| && NumStep(st, t[i]).Some? {
      NumberNoTick(t, i + 1, NumStep(st, t[i]).value, if NumDone(st) then Some(i) else best);
    }
  }

  lemma {:induction false} WordNoTick(t: Text, i: nat, word: string)
    requires WordAt(t, i, word) && i + |word| <= |t|
    requires forall k | 0 <= k < |word| :: word[k] != '`' && !IsLineEnd(word[k] as int)
    ensures forall k | i <= k < i + |word| :: t[k] != TICK && !IsLineEnd(t[k])
    decreases |word|
  {
    if word != "" {
      assert forall k | 0 <= k < |word[1..]| :: word[1..][k] == word[k + 1];
      WordNoTick(t, i + 1, word[1..]);
    }
  }

  lemma LiteralNoTick(c: Code)
    ensures forall k | 0 <= k < |LiteralWord(c)| :: LiteralWord(c)[k] != '`'
  {
  }

  lemma ScalarGuarded(t: Text, i: nat)
    requires i < |t| && Scalar(t, i).Done?
    ensures Guarded(t, i, Scalar(t, i).end)
  {
    hide NumberEnd, LiteralWord, IsLineEnd;
    var w := LiteralWord(t[i]);
    if w != "" && WordAt(t, i, w) {
      WordIsLine(t[i]);
      LiteralNoTick(t[i]);
      WordNoTick(t, i, w);
    } else {
      NumberNoTick(t, i, Begin, None);
    }
  }

  /** Whitespace and one code point that is no backtick and no line end. */
  lemma GapGuarded(t: Text, i: nat)
    requires i <= |t|
    ensures Guarded(t, i, SkipWs(t, i))
    ensures var j := SkipWs(t, i);
            j < |t| && t[j] != TICK && !IsLineEnd(t[j]) ==> Guarded(t, i, j + 1)
  {
    SkipsWs(t, i);
  }

  lemma {:induction false} ValueGuarded(t: Text, i: nat)
    requires ParseValue(t, i).Done?
    ensures Guarded(t, i, ParseValue(t, i).end)
    decreases |t| - i, 0
  {
    hide Guarded, StringBody, ParseArray, ParseObject, Scalar;
    if t[i] == '"' as int {
      StringGuarded(t, i);
    } else if t[i] == '[' as int {
      ArrayGuarded(t, i + 1);
      OpenGuarded(t, i, ParseArray(t, i + 1).end);
    } else if t[i] == '{' as int {
      ObjectGuarded(t, i + 1);
      OpenGuarded(t, i, ParseObject(t, i + 1).end);
    } else {
      ScalarGuarded(t, i);
    }
  }

  lemma OpenGuarded(t: Text, i: nat, j: nat)
    requires i < j <= |t| && t[i] != TICK && !IsLineEnd(t[i]) && Guarded(t, i + 1, j)
    ensures Guarded(t, i, j)
  {
    GuardedJoin(t, i, i + 1, j);
  }

  lemma {:induction false} ArrayGuarded(t: Text, i: nat)
    requires i <= |t| && ParseArray(t, i).Done?
    ensures Guarded(t, i, ParseArray(t, i).end)
    decreases |t| - i, 3
  {
    hide Guarded, ParseElems, SkipWs;
    var j := SkipWs(t, i);
    GapGuarded(t, i);
    if !At(t, j, ']') {
      ElemsGuarded(t, j);
      GuardedJoin(t, i, j, ParseArray(t, i).end);
    }
  }

  lemma {:induction false} ElemsGuarded(t: Text, i: nat)
    requires ParseElems(t, i).Done?
    ensures Guarded(t, i, ParseElems(t, i).end)
    decreases |t| - i, 2
  {
    hide Guarded, ParseValue, AfterElem;
    var v := ParseValue(t, i);
    ValueGuarded(t, i);
    AfterElemGuarded(t, v.value, v.end);
    GuardedJoin(t, i, v.end, ParseElems(t, i).end);
  }

  lemma {:induction false} AfterElemGuarded(t: Text, v: Json, e: nat)
    requires e <= |t| && AfterElem(t, v, e).Done?
    ensures Guarded(t, e, AfterElem(t, v, e).end)
    decreases |t| - e, 3
  {
    hide Guarded, ParseElems, SkipWs;
    var j := SkipWs(t, e);
    GapGuarded(t, e);
    if !At(t, j, ']') {
      GapGuarded(t, j + 1);
      ElemsGuarded(t, SkipWs(t, j + 1));
      GuardedJoin(t, j + 1, SkipWs(t, j + 1), AfterElem(t, v, e).end);
      GuardedJoin(t, e, j + 1, AfterElem(t, v, e).end);
    }
  }

  lemma {:induction false} ObjectGuarded(t: Text, i: nat)
    requires i <= |t| && ParseObject(t, i).Done?
    ensures Guarded(t, i, ParseObject(t, i).end)
    decreases |t| - i, 3
  {
    hide Guarded, ParseMembers, SkipWs;
    var j := SkipWs(t, i);
    GapGuarded(t, i);
    if !At(t, j, '}') {
      MembersGuarded(t, j);
      GuardedJoin(t, i, j, ParseObject(t, i).end);
    }
  }

  lemma {:induction false} MemberGuarded(t: Text, i: nat)
    requires ParseMember(t, i).Done?
    ensures Guarded(t, i, ParseMember(t, i).end)
    decreases |t| - i, 1
  {
    hide Guarded, ParseValue, StringBody, SkipWs;
    var q, e := StringBody(t, i + 1).end, ParseMember(t, i).end;
    var c := SkipWs(t, q);
    StringGuarded(t, i);
    GapGuarded(t, q);
    GapGuarded(t, c + 1);
    ValueGuarded(t, SkipWs(t, c + 1));
    GuardedJoin(t, c + 1, SkipWs(t, c + 1), e);
    GuardedJoin(t, q, c + 1, e);
    GuardedJoin(t, i, q, e);
  }

  lemma {:induction false} MembersGuarded(t: Text, i: nat)
    requires ParseMembers(t, i).Done?
    ensures Guarded(t, i, ParseMembers(t, i).end)
    decreases |t| - i, 2
  {
    hide Guarded, ParseMember, AfterMember;
    var m := ParseMember(t, i);
    MemberGuarded(t, i);
    AfterMemberGuarded(t, m.value, m.end);
    GuardedJoin(t, i, m.end, ParseMembers(t, i).end);
  }

  lemma {:induction false} AfterMemberGuarded(t: Text, m: (Text, Json), e: nat)
    requires e <= |t| && AfterMember(t, m, e).Done?
    ensures Guarded(t, e, AfterMember(t, m, e).end)
    decreases |t| - e, 3
  {
    hide Guarded, ParseMembers, SkipWs;
    var j := SkipWs(t, e);
    GapGuarded(t, e);
    if !At(t, j, '}') {
      GapGuarded(t, j + 1);
      MembersGuarded(t, SkipWs(t, j + 1));
      GuardedJoin(t, j + 1, SkipWs(t, j + 1), AfterMember(t, m, e).end);
      GuardedJoin(t, e, j + 1, AfterMember(t, m, e).end);
    }
  }

  /** A payload text, with the space after it. */
  lemma PayloadGuarded(d: Text, r: Text, es: seq<Json>, l: Layout)
    requires PayloadAt(d, r, es, l)
    ensures Guarded(d, 0, |d|)
  {
    hide HeadAt, KeyAt, ParseValue, ParseArray, Guarded;
    LayoutParses(d, r, es, l);
    ValueGuarded(d, 0);
    GapGuarded(d, l.j2 + 1);
    GuardedJoin(d, 0, l.j2 + 1, |d|);
  }

  // ----- the last line

  /** The last line starts at `s`. */
  lemma {:induction false} LastLine(t: Text) returns (s: nat)
    requires t != [] && !IsLineEnd(t[|t| - 1])
    ensures s < |t| && (s == 0 || IsLineEnd(t[s - 1]))
    ensures SplitLines(t) != [] && SplitLines(t)[|SplitLines(t)| - 1] == t[s..]
    decreases |t|
  {
    hide LineEnd, IsLineEnd, SplitLines, AfterLine, Width;
    var n := LineEnd(t, 0);
    LineEndBefore(t, 0);
    if n == |t| {
      s := 0;
      OneLineOnly(t);
    } else {
      var k := n + Width(t, n);
      BreakAt(t, n);
      SplitFirst(t);
      var s' := LastLine(t[k..]);
      s := k + s';
      SuffixOf(t, k, s');
    }
  }

  lemma SuffixOf(t: Text, i: nat, j: nat)
    requires i + j < |t|
    ensures t[i..][j..] == t[i + j..] && t[i..][|t| - i - 1] == t[|t| - 1]
    ensures j > 0 ==> t[i..][j - 1] == t[i + j - 1]
  {
  }

  lemma OneLineOnly(t: Text)
    requires t != [] && LineEnd(t, 0) == |t|
    ensures SplitLines(t) == [t]
  {
  }

  lemma BreakAt(t: Text, n: nat)
    requires n < |t| && IsLineEnd(t[n]) && !IsLineEnd(t[|t| - 1])
    ensures var k := n + Width(t, n);
            k < |t| && AfterLine(t, n) == t[k..] && IsLineEnd(t[k - 1]) && t[k..][|t| - k - 1] == t[|t| - 1]
  {
  }

  /** A line that is a fence once stripped has a backtick with only space before it. */
  lemma FenceLine(line: Text) returns (k: nat)
    requires StartsWithFence(Strip(line))
    ensures k < |line| && line[k] == TICK && forall j | 0 <= j < k :: IsSpace(line[j])
  {
    hide LStrip, IsSpace;
    k := LStripFrom(line);
    assert |Strip(line)| <= |LStrip(line)|;
    assert Codes("```")[0] == TICK && |Codes("```")| == 3;
    assert Strip(line)[0] == LStrip(line)[0];
  }

  /** The last line of a prefix of a payload text is no fence. */
  lemma NoFenceLast(d: Text, n: nat, s: nat)
    requires Guarded(d, 0, |d|) && s < n <= |d| && (s == 0 || (IsLineEnd(d[s - 1]) && !Odd(d[s - 1])))
    ensures !StartsWithFence(Strip(d[s..n]))
  {
    hide Strip;
    if StartsWithFence(Strip(d[s..n])) {
      var k := FenceLine(d[s..n]);
      IndentHasNoQuote(d, n, s, k);
    }
  }

  lemma IndentHasNoQuote(d: Text, n: nat, s: nat, k: nat)
    requires s + k < n <= |d| && forall j | 0 <= j < k :: IsSpace(d[s..n][j])
    requires s == 0 || (IsLineEnd(d[s - 1]) && !Odd(d[s - 1]))
    ensures d[s + k] == d[s..n][k] && !QuoteBefore(d, 0, s + k)
  {
    assert forall j | s <= j < s + k :: d[j] == d[s..n][j - s];
  }

  // ----- a fence that is opened and never closed

  function OpenFence(info: Text): Text {
    TICKS + info + [LF]
  }

  lemma OpenStripped(lead: Text, info: Text, t: Text, tail: Text)
    requires t != [] && !IsSpace(t[|t| - 1])
    requires (forall k | 0 <= k < |lead| :: IsSpace(lead[k])) && forall k | 0 <= k < |tail| :: IsSpace(tail[k])
    ensures Strip(lead + (OpenFence(info) + t + tail)) == OpenFence(info) + t
  {
    hide IsSpace;
    var body := OpenFence(info) + t + tail;
    assert TICKS[0] == TICK && body[0] == TICKS[0];
    assert !IsSpace(TICK) by { TickIsNoSpace(); }
    LStripSpaces(lead, body);
    var n := |OpenFence(info) + t|;
    assert body[..n] == OpenFence(info) + t && body[n - 1] == t[|t| - 1];
    RStripIs(body, n);
  }

  lemma TickIsNoSpace()
    ensures !IsSpace(TICK)
  {
  }

  /** Without a closing fence the text after the opening line is all kept. */
  lemma OpenFenceStrips(lead: Text, info: Text, t: Text, tail: Text)
    requires Trimmed(t) && NoLineEnd(info)
    requires (forall k | 0 <= k < |lead| :: IsSpace(lead[k])) && forall k | 0 <= k < |tail| :: IsSpace(tail[k])
    requires SplitLines(t) != [] && !StartsWithFence(Strip(SplitLines(t)[|SplitLines(t)| - 1]))
    ensures Strip(lead + (OpenFence(info) + t + tail)) != []
    ensures StripFence(lead + (OpenFence(info) + t + tail)) == Feeds(t)
  {
    OpenStripped(lead, info, t, tail);
    TicksLine();
    FirstLine(TICKS + info, t);
    SpaceLineEnd(t[|t| - 1]);
    JoinIsFeeds(t);
    StripNothing(t);
    StripFeeds(t);
    hide Strip, SplitLines, JoinLines, IsSpace, Feeds;
    var raw, lines := lead + (OpenFence(info) + t + tail), SplitLines(t);
    assert OpenFence(info) + t == TICKS + info + [LF] + t;
    assert SplitLines(Strip(raw))[1..] == lines;
    assert TICKS <= Strip(raw);
  }

  /** An opening fence line is not seen either, with space around it all, before a tame text
      whose last line is no fence. */
  lemma OpenFenceTransparent(lead: Text, info: Text, t: Text, tail: Text)
    requires Trimmed(t) && Tame(t) && NoLineEnd(info) && !StartsWithFence(t)
    requires (forall k | 0 <= k < |lead| :: IsSpace(lead[k])) && forall k | 0 <= k < |tail| :: IsSpace(tail[k])
    requires SplitLines(t) != [] && !StartsWithFence(Strip(SplitLines(t)[|SplitLines(t)| - 1]))
    ensures DecodeSubmission(lead + (OpenFence(info) + t + tail)) == DecodeSubmission(t)
  {
    OpenFenceStrips(lead, info, t, tail);
    DecodesAlike(lead + (OpenFence(info) + t + tail), t);
  }

  /** A payload text cut anywhere after the `[` of its edits decodes alike after an opening
      fence line, if no odd line end stands in what is left. */
  lemma FencedCutAlike(lead: Text, info: Text, d: Text, r: Text, es: seq<Json>, l: Layout, c: nat)
    requires (forall k | 0 <= k < |lead| :: IsSpace(lead[k])) && NoLineEnd(info)
    requires PayloadAt(d, r, es, l) && l.a < c <= |d| && Calm(d, 0, c)
    ensures DecodeSubmission(lead + (OpenFence(info) + d[..c])) == DecodeSubmission(d[..c])
  {
    hide DecodeSubmission, HeadAt, KeyAt, BodyAt, StripFence, Strip, Guarded, IsSpace, OpenFence, NoLineEnd, Solid, At,
         Tame, Trimmed, Calm;
    PayloadGuarded(d, r, es, l);
    var b := PayloadStop(d, r, es, l, c);
    var c' := CutText(d, c, b);
    CutLast(d, c', c);
    assert d[..c] == d[..c'] + d[c'..c];
    assert OpenFence(info) + d[..c'] + d[c'..c] == OpenFence(info) + d[..c];
    OpenFenceTransparent(lead, info, d[..c'], d[c'..c]);
  }

  lemma PayloadStop(d: Text, r: Text, es: seq<Json>, l: Layout, c: nat) returns (b: nat)
    requires PayloadAt(d, r, es, l) && l.a < c <= |d|
    ensures l.a < b <= c && Solid(d[b - 1]) && At(d, 0, '{')
  {
    hide ParseArray, ParseMember, StringBody, EditEnds;
    b := StopAt(d, es, l.a, l.e2, c);
  }

  /** Where a cut text ends once stripped. */
  lemma CutText(d: Text, c: nat, b: nat) returns (c': nat)
    requires At(d, 0, '{') && 0 < b <= c <= |d| && Solid(d[b - 1])
    ensures 0 < c' <= c && forall k | 0 <= k < c - c' :: IsSpace(d[c'..c][k])
    ensures Trimmed(d[..c']) && !StartsWithFence(d[..c'])
    ensures DecodeSubmission(d[..c']) == DecodeSubmission(d[..c])
  {
    hide DecodeSubmission, StripFence, Strip, IsSpace, Solid, StartsWithFence;
    c' := StripTorn([], d, c, b);
    SpacesOf(d, c', c);
    assert [] + d[..c] == d[..c];
    assert d[..c'][0] == d[0] && d[..c'][c' - 1] == d[c' - 1];
    BraceNoFence(d[..c']);
    StripNothing(d[..c']);
    Unfenced(d[..c']);
    SameText(d[..c'], d[..c]);
  }

  lemma BraceNoFence(t: Text)
    requires At(t, 0, '{')
    ensures !IsSpace(t[0]) && !StartsWithFence(t)
  {
    assert Codes("```")[0] == TICK;
  }

  lemma SpacesOf(d: Text, i: nat, j: nat)
    requires i <= j <= |d| && forall k | i <= k < j :: IsSpace(d[k])
    ensures forall k | 0 <= k < j - i :: IsSpace(d[i..j][k])
  {
    hide IsSpace;
  }

  /** A calm prefix of a payload text is tame, and its last line is no fence. */
  lemma CutLast(d: Text, c': nat, c: nat)
    requires Guarded(d, 0, |d|) && 0 < c' <= c <= |d| && Calm(d, 0, c) && Trimmed(d[..c'])
    ensures Tame(d[..c'])
    ensures var lines := SplitLines(d[..c']); lines != [] && !StartsWithFence(Strip(lines[|lines| - 1]))
  {
    var t := d[..c'];
    assert Tame(t) by { assert forall k | 0 <= k < c' :: t[k] == d[k]; }
    SpaceLineEnd(t[|t| - 1]);
    hide Strip, SplitLines, Guarded, IsLineEnd, IsSpace;
    var s := LastLine(t);
    assert s > 0 ==> t[s - 1] == d[s - 1];
    assert t[s..] == d[s..c'];
    NoFenceLast(d, c', s);
  }

  /** Truncation keeps finished work in a fence too: the payload text `d` after an opening
      fence line, cut at least after the `[` of its edits and so without its closing fence,
      decodes to the reasoning, the finished edits and at most one edit more. */
  lemma FencedCutKeeps(lead: Text, info: Text, d: Text, r: Text, es: seq<Json>, l: Layout, c: nat)
    requires (forall k | 0 <= k < |lead| :: IsSpace(lead[k])) && NoLineEnd(info)
    requires PayloadAt(d, r, es, l) && l.a < c <= |d| && Calm(d, 0, c)
    ensures Contained(d, l, c) <= |es|
    ensures Keeps(DecodeSubmission(lead + (OpenFence(info) + d[..c])), r, es[..Contained(d, l, c)])
  {
    hide DecodeSubmission, Keeps, Contained;
    FencedCutAlike(lead, info, d, r, es, l, c);
    TruncationKeepsFinishedEdits([], d, r, es, l, c);
    assert [] + d[..c] == d[..c];
  }

  // ----- a closing fence cut short

  /** `d`, a line feed and the first `k` backticks of the closing fence. */
  function Half(d: Text, k: nat): (u: Text)
    requires k <= 3
    ensures |u| == |d| + 1 + k && u[..|d|] == d && u[|d|] == LF && forall i | |d| < i < |u| :: u[i] == TICK
  {
    assert |TICKS| == 3 && TICKS[0] == TICK && TICKS[1] == TICK && TICKS[2] == TICK;
    d + [LF] + TICKS[..k]
  }

  /** `d` is a JSON object that ends at `e` and the space after it. */
  ghost predicate ObjectText(d: Text, e: nat) {
    && 0 < e <= |d| && At(d, 0, '{') && d[e - 1] == '}' as int
    && ParseValue(d, 0).Done? && ParseValue(d, 0).end == e && ParseValue(d, 0).value.JObj?
    && SkipWs(d, e) == |d|
  }

  lemma LineAfter(u: Text, n: nat, s: nat)
    requires n < |u| && s < |u| && u[n] == LF && NoLineEnd(u[s..])
    ensures n < s
  {
    assert forall i | s <= i < |u| :: u[i] == u[s..][i - s];
  }

  lemma HalfLast(d: Text, k: nat)
    requires d != [] && 0 < k < 3 && Tame(d)
    ensures Tame(Half(d, k))
    ensures var lines := SplitLines(Half(d, k)); lines != [] && !StartsWithFence(Strip(lines[|lines| - 1]))
  {
    var u := Half(d, k);
    assert forall i | 0 <= i < |d| :: u[i] == u[..|d|][i];
    assert u[|u| - 1] == TICK;
    LinesPlain(u);
    hide SplitLines;
    var s := LastLine(u);
    var lines := SplitLines(u);
    assert lines[|lines| - 1] in lines;
    LineAfter(u, |d|, s);
    assert |Strip(u[s..])| < 3 by { StripShrinks(u[s..]); }
    assert |Codes("```")| == 3;
  }

  lemma {:induction false} LStripShrinks(t: Text)
    ensures |LStrip(t)| <= |t|
  {
    if t != [] && IsSpace(t[0]) { LStripShrinks(t[1..]); }
  }

  lemma StripShrinks(t: Text)
    ensures |Strip(t)| <= |t|
  {
    LStripShrinks(t);
  }

  lemma HalfScan(d: Text, e: nat, k: nat)
    requires ObjectText(d, e) && k < 3
    ensures ScanText(Half(d, k)) == START
  {
    var u := Half(d, k);
    ValueScan(d, 0, START);
    SkipsWs(d, e);
    ScanSpaces(START, d, e, |d|);
    ScanSplit(START, d, 0, e, |d|);
    ScanSame(START, d, u, 0, |d|, 0);
    PlainScan(u, |d|, |u|, START);
    ScanSplit(START, u, 0, |d|, |u|);
  }

  /** With a backtick after it the object is no document, and the repair changes nothing. */
  lemma HalfFails(d: Text, e: nat, k: nat)
    requires ObjectText(d, e) && 0 < k < 3
    ensures Candidate(Half(d, k)) == Half(d, k) && ParseDoc(Half(d, k)).None?
  {
    var u := Half(d, k);
    HalfScan(d, e, k);
    assert StripSeparator(u) == u;
    hide ParseValue, ScanText;
    assert forall i | 0 <= i < |d| :: u[i] == u[..|d|][i];
    ValueLocal(d, u, 0, e);
    SkipsWs(u, e);
    assert u[|u| - 1] == TICK;
    assert SkipWs(u, 0) == 0;
  }

  /** Without the backticks the repair gives the object. */
  lemma HalfParses(d: Text, e: nat)
    requires ObjectText(d, e)
    ensures ParseDoc(Candidate(Half(d, 0))) == Some(ParseValue(d, 0).value)
  {
    var u := Half(d, 0);
    HalfScan(d, e, 0);
    hide ParseValue, ScanText;
    assert forall i | 0 <= i < |d| :: u[i] == u[..|d|][i];
    SkipsWs(d, e);
    RStripIs(u, e);
    assert StripSeparator(u) == u[..e] == d[..e];
    assert Candidate(u) == d[..e] + Closers([]) == d[..e];
    WholeParses(d, e);
  }

  /** The text in the fence repairs to the object, from the prefix before the backticks. */
  lemma HalfRepairs(d: Text, e: nat, k: nat)
    requires ObjectText(d, e) && 0 < k < 3
    ensures ParseDoc(Half(d, k)).None? && Repair(Half(d, k)) == Some(ParseValue(d, 0).value)
  {
    hide ParseDoc, Candidate, ParseValue;
    var u := Half(d, k);
    assert u[..|u|] == u && u[..|d| + 1] == Half(d, 0);
    assert k == 2 ==> u[..|d| + 2] == Half(d, 1);
    HalfParses(d, e);
    HalfFails(d, e, 1);
    HalfFails(d, e, k);
    assert FirstSome(Attempts(u), |d| + 1) == Some(ParseValue(d, 0).value);
    assert FirstSome(Attempts(u), |d| + 2) == FirstSome(Attempts(u), |d| + 1);
  }

  /** A fenced payload cut inside its closing fence decodes to the whole payload, marked
      repaired. */
  lemma HalfFenceRepairs(lead: Text, info: Text, d: Text, r: Text, es: seq<Json>, l: Layout, k: nat)
    requires (forall i | 0 <= i < |lead| :: IsSpace(lead[i])) && NoLineEnd(info)
    requires PayloadAt(d, r, es, l) && Calm(d, 0, |d|) && 0 < k < 3
    ensures DecodeSubmission(lead + (OpenFence(info) + Half(d, k)))
         == Validate(JObj([(REASONING, JStr(r)), (EDITS, JArr(es))]), true)
  {
    LayoutParses(d, r, es, l);
    PayloadIsObject(d, r, es, l);
    PayloadTame(d, r, es, l);
    hide DecodeSubmission, ParseValue, ObjectText, HeadAt, KeyAt, BodyAt, StripFence, Strip, Validate, Repair, ParseDoc,
         Tame, Calm;
    HalfRepairs(d, l.j2 + 1, k);
    HalfAlike(lead, info, d, l.j2 + 1, k);
    DecodesRepaired(Half(d, k), Half(d, k), JObj([(REASONING, JStr(r)), (EDITS, JArr(es))]));
  }

  /** In a payload text only odd line ends are neither carriage returns nor line feeds. */
  lemma PayloadTame(d: Text, r: Text, es: seq<Json>, l: Layout)
    requires PayloadAt(d, r, es, l)
    ensures Tame(d) <==> Calm(d, 0, |d|)
  {
    PayloadGuarded(d, r, es, l);
  }

  lemma HalfAlike(lead: Text, info: Text, d: Text, e: nat, k: nat)
    requires (forall i | 0 <= i < |lead| :: IsSpace(lead[i])) && NoLineEnd(info)
    requires ObjectText(d, e) && Tame(d) && 0 < k < 3
    ensures DecodeSubmission(lead + (OpenFence(info) + Half(d, k))) == DecodeSubmission(Half(d, k))
    ensures Strip(Half(d, k)) != [] && StripFence(Half(d, k)) == Half(d, k)
  {
    hide ParseValue, StripFence, Strip, SplitLines, Tame, DecodeSubmission;
    var u := Half(d, k);
    HalfLast(d, k);
    assert u[0] == u[..|d|][0];
    assert u[|u| - 1] == TICK;
    BraceNoFence(u);
    StripNothing(u);
    Unfenced(u);
    assert OpenFence(info) + u + [] == OpenFence(info) + u;
    OpenFenceTransparent(lead, info, u, []);
  }

  lemma DecodesRepaired(raw: Text, text: Text, x: Json)
    requires Strip(raw) != [] && StripFence(raw) == text && ParseDoc(text).None? && Repair(text) == Some(x) && !x.JNull?
    ensures DecodeSubmission(raw) == Validate(x, true)
  {
  }

  lemma PayloadIsObject(d: Text, r: Text, es: seq<Json>, l: Layout)
    requires PayloadAt(d, r, es, l)
    ensures ObjectText(d, l.j2 + 1)
  {
    hide ParseValue, ParseMember, ParseArray, StringBody;
    LayoutParses(d, r, es, l);
  }

  // ----- a whole fence

  /** A payload text decodes alike in a fence exactly when no odd line end stands in it. */
  lemma FencedPayloadIff(info: Text, d: Text, r: Text, es: seq<Json>, l: Layout)
    requires PayloadAt(d, r, es, l) && NoLineEnd(info) && !IsSpace(d[|d| - 1])
    ensures DecodeSubmission(Fenced(info, d)) == DecodeSubmission(d) <==> forall c | c in d :: !Odd(c)
  {
    hide DecodeSubmission, ParseDoc, HeadAt, KeyAt, BodyAt, Odd, NoLineEnd;
    PayloadAccepted(d, r, es, l);
    PayloadDoc(d, r, es, l);
    FenceDecodesIff(info, d);
  }

  lemma PayloadAccepted(d: Text, r: Text, es: seq<Json>, l: Layout)
    requires PayloadAt(d, r, es, l)
    ensures DecodeSubmission(d).Accepted?
  {
    hide DecodeSubmission, HeadAt, KeyAt, BodyAt, Validate, Contained, IsSpace;
    WholeSubmissionDecodes([], d, r, es, l);
    assert [] + d == d;
    ValidatePair([(REASONING, JStr(r)), (EDITS, JArr(es))], r, es, false);
  }

  lemma PayloadDoc(d: Text, r: Text, es: seq<Json>, l: Layout)
    requires PayloadAt(d, r, es, l)
    ensures d != [] && !IsSpace(d[0]) && ParseDoc(d).Some?
  {
    PayloadIsObject(d, r, es, l);
    BraceNoFence(d);
    hide ParseValue, HeadAt, KeyAt, BodyAt;
    assert SkipWs(d, 0) == 0;
  }
}
