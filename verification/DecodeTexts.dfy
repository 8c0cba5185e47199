/** The decoder told in code points: what Python strips and where it splits lines, which
    texts are empty, and which repair is taken. */
module DecodeTexts {
  import opened Basics
  import opened Json
  import opened Decode

  // ----- stripping

  /** The white space of `str.strip`. */
  const SPACES: seq<Code> := [
    0x09, 0x0A, 0x0B, 0x0C, 0x0D, 0x1C, 0x1D, 0x1E, 0x1F, 0x20, 0x85, 0xA0, 0x1680,
    0x2000, 0x2001, 0x2002, 0x2003, 0x2004, 0x2005, 0x2006, 0x2007, 0x2008, 0x2009, 0x200A,
    0x2028, 0x2029, 0x202F, 0x205F, 0x3000]

  predicate Space(c: Code) {
    c in SPACES
  }

  lemma SpaceIff(c: Code)
    ensures IsSpace(c) <==> Space(c)
  {
    if IsSpace(c) {
      var i := if c <= 0x0D then c - 0x09 else if c <= 0x20 then c - 0x17 else if c == 0x85 then 10
               else if c == 0xA0 then 11 else if c == 0x1680 then 12 else if c <= 0x200A then c - 0x2000 + 13
               else if c <= 0x2029 then c - 0x2028 + 24 else if c == 0x202F then 26 else if c == 0x205F then 27 else 28;
      assert SPACES[i] == c;
    }
  }

  ghost predicate AllSpaces(t: Text) {
    forall k | 0 <= k < |t| :: Space(t[k])
  }

  /** `u` is `t` without the white space at its ends. */
  ghost predicate Stripped(t: Text, u: Text) {
    && (u != [] ==> !Space(u[0]) && !Space(u[|u| - 1]))
    && exists a, b :: AllSpaces(a) && AllSpaces(b) && t == a + u + b
  }

  lemma {:induction false} LStripTakes(t: Text) returns (a: Text)
    ensures AllSpaces(a) && t == a + LStrip(t) && (LStrip(t) != [] ==> !Space(LStrip(t)[0]))
  {
    hide IsSpace, Space;
    a := [];
    if t != [] {
      SpaceIff(t[0]);
      if IsSpace(t[0]) {
        a := LStripTakes(t[1..]);
        a := [t[0]] + a;
      }
    }
  }

  lemma RStripTakes(t: Text) returns (b: Text)
    ensures AllSpaces(b) && t == RStrip(t) + b && (RStrip(t) != [] ==> !Space(RStrip(t)[|RStrip(t)| - 1]))
  {
    hide IsSpace, Space;
    var r := RStrip(t);
    b := t[|r|..];
    forall k | 0 <= k < |b|
      ensures Space(b[k])
    {
      SpaceIff(t[|r| + k]);
    }
    if r != [] { SpaceIff(r[|r| - 1]); }
  }

  lemma StripIs(t: Text)
    ensures Stripped(t, Strip(t))
  {
    hide LStrip, RStrip, AllSpaces;
    var a := LStripTakes(t);
    var b := RStripTakes(LStrip(t));
    var u := Strip(t);
    assert u != [] ==> LStrip(t)[0] == u[0];
    assert t == a + (u + b);
    assert a + (u + b) == a + u + b;
  }

  // ----- lines

  /** The ends of lines of `str.splitlines`. */
  const LINE_ENDS: seq<Text> := [
    [0x0A], [0x0B], [0x0C], [0x0D], [0x0D, 0x0A], [0x1C], [0x1D], [0x1E], [0x85], [0x2028], [0x2029]]

  ghost predicate NoLineEndIn(t: Text) {
    forall k | 0 <= k < |t| :: [t[k]] !in LINE_ENDS
  }

  function Weave(lines: seq<Text>, ends: seq<Text>): Text
    requires |lines| == |ends|
  {
    if lines == [] then [] else lines[0] + ends[0] + Weave(lines[1..], ends[1..])
  }

  /** `t` is its lines, each followed by its end; only the last may lack one, and then it is
      not empty; and a carriage return before a line feed is no end by itself. */
  ghost predicate Lines(t: Text, lines: seq<Text>, ends: seq<Text>) {
    && |lines| == |ends| && t == Weave(lines, ends)
    && (forall k | 0 <= k < |lines| :: NoLineEndIn(lines[k]))
    && (forall k | 0 <= k < |lines| :: ends[k] in LINE_ENDS || (k == |lines| - 1 && ends[k] == [] && lines[k] != []))
    && forall k | 0 <= k < |lines| && ends[k] == [0x0D] ::
         var rest := Weave(lines[k + 1..], ends[k + 1..]); rest == [] || rest[0] != 0x0A
  }

  lemma LineEndIff(c: Code)
    ensures IsLineEnd(c) <==> [c] in LINE_ENDS
  {
    if IsLineEnd(c) {
      var i := if c <= 0x0D then c - 0x0A else if c <= 0x1E then c - 0x1C + 5 else if c == 0x85 then 8
               else c - 0x2028 + 9;
      assert LINE_ENDS[i] == [c];
    }
  }

  lemma WeaveCons(line: Text, end: Text, lines: seq<Text>, ends: seq<Text>)
    requires |lines| == |ends|
    ensures Weave([line] + lines, [end] + ends) == line + end + Weave(lines, ends)
  {
    assert ([line] + lines)[1..] == lines && ([end] + ends)[1..] == ends;
  }

  lemma {:induction false} LineEndFinds(t: Text, i: nat)
    requires i <= |t|
    ensures forall k | i <= k < LineEnd(t, i) :: !IsLineEnd(t[k])
    ensures LineEnd(t, i) < |t| ==> IsLineEnd(t[LineEnd(t, i)])
    decreases |t| - i
  {
    if i < |t| && !IsLineEnd(t[i]) { LineEndFinds(t, i + 1); }
  }

  /** The first line of a text, with its end. */
  lemma FirstLine(t: Text) returns (end: Text)
    requires LineEnd(t, 0) < |t|
    ensures var n := LineEnd(t, 0);
            && NoLineEndIn(t[..n]) && end in LINE_ENDS && t == t[..n] + end + AfterLine(t, n)
            && (end == [0x0D] ==> AfterLine(t, n) == [] || AfterLine(t, n)[0] != 0x0A)
  {
    var n := LineEnd(t, 0);
    LineEndFinds(t, 0);
    forall k | 0 <= k < n
      ensures [t[k]] !in LINE_ENDS
    {
      LineEndIff(t[k]);
    }
    LineEndIff(t[n]);
    end := t[n..n + Width(t, n)];
    if Width(t, n) == 2 {
      assert end == [0x0D, 0x0A] == LINE_ENDS[4];
    } else {
      assert end == [t[n]];
    }
  }

  lemma LinesCons(t: Text, line: Text, end: Text, rest: Text, lines: seq<Text>, ends: seq<Text>)
    requires NoLineEndIn(line) && end in LINE_ENDS && t == line + end + rest
    requires end == [0x0D] ==> rest == [] || rest[0] != 0x0A
    requires Lines(rest, lines, ends)
    ensures Lines(t, [line] + lines, [end] + ends)
  {
    WeaveCons(line, end, lines, ends);
    var ls, es := [line] + lines, [end] + ends;
    forall k | 0 <= k < |ls|
      ensures ls[k + 1..] == lines[k..] && es[k + 1..] == ends[k..]
      ensures k > 0 ==> ls[k] == lines[k - 1] && es[k] == ends[k - 1]
    {
    }
    assert lines[0..] == lines && ends[0..] == ends;
    hide Weave, NoLineEndIn;
  }

  /** Splitting lines gives the lines. */
  lemma {:induction false} SplitLinesIs(t: Text) returns (ends: seq<Text>)
    ensures Lines(t, SplitLines(t), ends)
    decreases |t|
  {
    if t == [] {
      ends := [];
    } else {
      var n := LineEnd(t, 0);
      if n == |t| {
        LineEndFinds(t, 0);
        forall k | 0 <= k < n
          ensures [t[k]] !in LINE_ENDS
        {
          LineEndIff(t[k]);
        }
        ends := [[]];
        assert Weave([t], [[]]) == t + [] + [] by { WeaveCons(t, [], [], []); }
      } else {
        var end := FirstLine(t);
        var rest := SplitLinesIs(AfterLine(t, n));
        ends := [end] + rest;
        LinesCons(t, t[..n], end, AfterLine(t, n), SplitLines(AfterLine(t, n)), rest);
      }
    }
  }

  // ----- the fence

  /** A line feed after every line but the last. */
  function Feeds(n: nat): (ends: seq<Text>)
    ensures |ends| == n
  {
    seq(n, k requires 0 <= k < n => if k == n - 1 then [] else [0x0A])
  }

  lemma {:induction false} JoinLinesIs(lines: seq<Text>)
    ensures JoinLines(lines) == Weave(lines, Feeds(|lines|))
  {
    if |lines| == 1 {
      assert lines[1..] == [] && lines[0] + [] + [] == lines[0];
    } else if lines != [] {
      assert Feeds(|lines|)[1..] == Feeds(|lines| - 1);
      JoinLinesIs(lines[1..]);
    }
  }

  /** A text in a fence, that is one whose stripped text starts with three backticks, loses
      the line of these and, if it starts so too, its last line; the lines left are joined
      with line feeds and stripped. Any other text is stripped. */
  lemma StripFenceIs(t: Text)
    ensures var u := Strip(t);
            if [0x60, 0x60, 0x60] <= u then
              var lines := SplitLines(u);
              && lines != []
              && var inner := if |lines| > 1 && [0x60, 0x60, 0x60] <= Strip(lines[|lines| - 1])
                              then lines[1..|lines| - 1] else lines[1..];
                 StripFence(t) == Strip(Weave(inner, Feeds(|inner|)))
            else StripFence(t) == u
  {
    hide Strip, SplitLines, JoinLines, StartsWithFence, Weave;
    var u := Strip(t);
    StartsIff(u);
    if [0x60, 0x60, 0x60] <= u {
      var lines := SplitLines(u);
      SplitSome(u);
      InnerLines(lines);
      var inner := if |lines| > 1 && [0x60, 0x60, 0x60] <= Strip(lines[|lines| - 1])
                   then lines[1..|lines| - 1] else lines[1..];
      JoinLinesIs(inner);
    }
  }

  lemma StartsIff(t: Text)
    ensures StartsWithFence(t) <==> [0x60, 0x60, 0x60] <= t
  {
    assert Codes("```") == [0x60, 0x60, 0x60];
  }

  lemma SplitSome(t: Text)
    requires t != []
    ensures SplitLines(t) != []
  {
  }

  lemma InnerLines(lines: seq<Text>)
    requires lines != []
    ensures var rest := lines[1..];
            (if rest != [] && StartsWithFence(Strip(rest[|rest| - 1])) then rest[..|rest| - 1] else rest)
            == if |lines| > 1 && [0x60, 0x60, 0x60] <= Strip(lines[|lines| - 1]) then lines[1..|lines| - 1]
               else lines[1..]
  {
    hide Strip, StartsWithFence;
    StartsIff(Strip(lines[|lines| - 1]));
    if |lines| > 1 {
      assert lines[1..][|lines| - 2] == lines[|lines| - 1];
      assert lines[1..][..|lines| - 2] == lines[1..|lines| - 1];
    }
  }

  // ----- decoding

  /** A text is empty exactly if it is nothing but white space. */
  lemma EmptyIff(t: Text)
    ensures DecodeSubmission(t) == Rejected(Empty) <==> AllSpaces(t)
  {
    StripIs(t);
    hide *;
    assert DecodeSubmission(t) == Rejected(Empty) <==> Strip(t) == [] by { RejectedEmpty(t); }
    StrippedEmpty(t, Strip(t));
  }

  lemma RejectedEmpty(t: Text)
    ensures DecodeSubmission(t) == Rejected(Empty) <==> Strip(t) == []
  {
    hide Strip, StripFence, ParseDoc, Repair;
  }

  lemma StrippedEmpty(t: Text, u: Text)
    requires Stripped(t, u)
    ensures u == [] <==> AllSpaces(t)
  {
    hide Space;
    var a, b :| AllSpaces(a) && AllSpaces(b) && t == a + u + b;
    if u != [] {
      assert t[|a|] == u[0];
    } else {
      assert t == a + b;
    }
  }

  lemma {:induction false} FirstSomeIs(attempt: nat -> Option<Json>, n: nat, v: Json)
    ensures FirstSome(attempt, n) == Some(v)
       <==> exists cut: nat :: 0 < cut <= n && attempt(cut) == Some(v) && forall k | cut < k <= n :: attempt(k).None?
    ensures FirstSome(attempt, n).None? <==> forall k | 0 < k <= n :: attempt(k).None?
  {
    if n > 0 && attempt(n).None? {
      FirstSomeIs(attempt, n - 1, v);
    }
  }

  /** The repair taken is that of the longest prefix whose repair parses. */
  lemma RepairIs(t: Text, v: Json)
    ensures Repair(t) == Some(v)
       <==> exists cut: nat :: 0 < cut <= |t| && ParseDoc(Candidate(t[..cut])) == Some(v)
                               && forall k | cut < k <= |t| :: ParseDoc(Candidate(t[..k])).None?
    ensures Repair(t).None? <==> forall k | 0 < k <= |t| :: ParseDoc(Candidate(t[..k])).None?
  {
    hide ParseDoc, Candidate;
    assert forall cut: nat | cut <= |t| :: Attempts(t)(cut) == ParseDoc(Candidate(t[..cut]));
    FirstSomeIs(Attempts(t), |t|, v);
  }

  /** What is neither JSON as it stands nor repaired to anything but `null` is refused. */
  lemma UnparseableIff(t: Text)
    ensures DecodeSubmission(t) == Rejected(Unparseable)
       <==> !AllSpaces(t) && ParseDoc(StripFence(t)).None?
            && (Repair(StripFence(t)).None? || Repair(StripFence(t)) == Some(JNull))
  {
    EmptyIff(t);
    hide Strip, StripFence, ParseDoc, Repair, AllSpaces;
  }
}
