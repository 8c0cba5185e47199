/** Line ends do not matter to the decoder: a text whose line ends are carriage returns and
    line feeds decodes like the text with a line feed for each. */
module LineEnds {
  import opened Basics
  import opened Json
  import opened Decode
  import opened DecodeFence

  const CR: Code := 0x0D

  /** A line feed for each line end. */
  function Feeds(t: Text): Text
    decreases |t|
  {
    if t == [] then []
    else if IsLineEnd(t[0]) then [LF] + Feeds(AfterLine(t, 0))
    else [t[0]] + Feeds(t[1..])
  }

  /** The line ends that may stand inside a JSON string. */
  predicate Odd(c: Code) {
    c == 0x85 || c == 0x2028 || c == 0x2029
  }

  predicate Calm(t: Text, i: nat, j: nat) {
    forall k | i <= k < j && k < |t| :: !Odd(t[k])
  }

  /** Every line end is a carriage return, a line feed or both. */
  predicate Tame(t: Text) {
    forall k | 0 <= k < |t| :: IsLineEnd(t[k]) ==> t[k] == CR || t[k] == LF
  }

  // ----- positions that correspond

  /** From `j` on `u` is what `t` is from `i` on, with line feeds. */
  ghost predicate Aligned(t: Text, i: nat, u: Text, j: nat) {
    i <= |t| && j <= |u| && u[j..] == Feeds(t[i..])
  }

  lemma AlignedEnd(t: Text, i: nat, u: Text, j: nat)
    requires Aligned(t, i, u, j)
    ensures i <= |t| && j <= |u| && (i == |t| <==> j == |u|)
  {
    assert i == |t| ==> t[i..] == [];
    assert j == |u| ==> u[j..] == [];
  }

  lemma AlignedStep(t: Text, i: nat, u: Text, j: nat)
    requires Aligned(t, i, u, j) && i < |t| && !IsLineEnd(t[i])
    ensures j < |u| && u[j] == t[i] && Aligned(t, i + 1, u, j + 1)
  {
    hide IsLineEnd;
    assert t[i..][1..] == t[i + 1..];
    assert u[j..] == [t[i]] + Feeds(t[i + 1..]);
    assert u[j..][1..] == u[j + 1..];
    assert u[j] == u[j..][0];
  }

  lemma AlignedBreak(t: Text, i: nat, u: Text, j: nat)
    requires Aligned(t, i, u, j) && i < |t| && IsLineEnd(t[i])
    ensures j < |u| && u[j] == LF && Aligned(t, i + Width(t, i), u, j + 1)
  {
    hide IsLineEnd;
    var w := Width(t, i);
    assert t[i..][0] == t[i] && Width(t[i..], 0) == w;
    assert AfterLine(t[i..], 0) == t[i + w..];
    assert u[j..] == [LF] + Feeds(t[i + w..]);
    assert u[j..][1..] == u[j + 1..];
    assert u[j] == u[j..][0];
  }

  /** What is no line end stands at both positions or at neither. */
  lemma AlignedAt(t: Text, i: nat, u: Text, j: nat, c: char)
    requires Aligned(t, i, u, j) && !IsLineEnd(c as int)
    ensures At(u, j, c) <==> At(t, i, c)
    ensures At(t, i, c) ==> Aligned(t, i + 1, u, j + 1)
  {
    hide Aligned;
    AlignedEnd(t, i, u, j);
    if i < |t| {
      if IsLineEnd(t[i]) { AlignedBreak(t, i, u, j); } else { AlignedStep(t, i, u, j); }
    }
  }

  /** Whitespace up to something that is no other line end. */
  lemma {:induction false} SkipAligned(t: Text, i: nat, u: Text, j: nat)
    requires Aligned(t, i, u, j)
    requires SkipWs(t, i) < |t| ==> !IsLineEnd(t[SkipWs(t, i)])
    ensures Aligned(t, SkipWs(t, i), u, SkipWs(u, j)) && Calm(t, i, SkipWs(t, i))
    decreases |t| - i
  {
    hide Aligned;
    AlignedEnd(t, i, u, j);
    if i < |t| && IsWs(t[i]) {
      if IsLineEnd(t[i]) {
        var w := Width(t, i);
        AlignedBreak(t, i, u, j);
        assert w == 2 ==> SkipWs(t, i + 1) == SkipWs(t, i + 2);
        SkipAligned(t, i + w, u, j + 1);
      } else {
        AlignedStep(t, i, u, j);
        SkipAligned(t, i + 1, u, j + 1);
      }
    } else if i < |t| {
      AlignedStep(t, i, u, j);
    }
  }

  /** In a tame text no other line end is met. */
  lemma TameSkips(t: Text, i: nat)
    requires Tame(t) && i <= |t|
    ensures SkipWs(t, i) < |t| ==> !IsLineEnd(t[SkipWs(t, i)])
  {
    SkipStops(t, i);
  }

  lemma {:induction false} SkipStops(t: Text, i: nat)
    requires i <= |t|
    ensures SkipWs(t, i) < |t| ==> !IsWs(t[SkipWs(t, i)])
    decreases |t| - i
  {
    if i < |t| && IsWs(t[i]) { SkipStops(t, i + 1); }
  }

  // ----- the parser on corresponding positions

  /** The result `r` from `i` on in `t` and `r'` in `u` correspond: a failure to a failure;
      a value to the same value, ending at corresponding positions, unless it was read over
      an odd line end, which makes the other parse fail. */
  ghost predicate Match<A>(t: Text, i: nat, r: Parsed<A>, u: Text, r': Parsed<A>) {
    if r.Fail? then r'.Fail?
    else if Calm(t, i, r.end) then r'.Done? && r'.value == r.value && Aligned(t, r.end, u, r'.end)
    else r'.Fail?
  }

  lemma HexIsPlain(c: Code)
    ensures HexValue(c).Some? ==> !IsLineEnd(c) && !Odd(c) && c != LF
  {
  }

  lemma {:induction false} HexMatch(t: Text, i: nat, u: Text, j: nat, n: nat, acc: nat)
    requires n <= 4 && (n == 4 ==> acc == 0) && (n == 3 ==> acc < 0x10)
    requires (n == 2 ==> acc < 0x100) && (n == 1 ==> acc < 0x1000) && (n == 0 ==> acc < 0x10000)
    requires Aligned(t, i, u, j)
    ensures Hex(u, j, n, acc) == Hex(t, i, n, acc)
    ensures Hex(t, i, n, acc).Some? ==> Aligned(t, i + n, u, j + n) && Calm(t, i, i + n)
    decreases n
  {
    hide Aligned, HexValue, IsLineEnd;
    AlignedEnd(t, i, u, j);
    if n > 0 && i < |t| {
      HexIsPlain(t[i]);
      assert HexValue(LF).None? by { HexIsPlain(LF); }
      if IsLineEnd(t[i]) {
        AlignedBreak(t, i, u, j);
      } else {
        AlignedStep(t, i, u, j);
        if HexValue(t[i]).Some? { HexMatch(t, i + 1, u, j + 1, n - 1, 16 * acc + HexValue(t[i]).value); }
      }
    }
  }

  lemma {:induction false} StringMatch(t: Text, i: nat, u: Text, j: nat)
    requires Aligned(t, i, u, j) && (Tame(t) || StringBody(t, i).Done?)
    ensures Match(t, i, StringBody(t, i), u, StringBody(u, j))
    decreases if i <= |t| then |t| - i else 0, 1
  {
    hide Aligned;
    AlignedEnd(t, i, u, j);
    if i < |t| {
      if IsLineEnd(t[i]) {
        AlignedBreak(t, i, u, j);
      } else {
        AlignedStep(t, i, u, j);
        if t[i] == '\\' as int {
          EscapeMatch(t, i + 1, u, j + 1);
        } else if t[i] != '"' as int && t[i] >= 0x20 {
          StringMatch(t, i + 1, u, j + 1);
        }
      }
    }
  }

  lemma {:induction false} EscapeMatch(t: Text, i: nat, u: Text, j: nat)
    requires Aligned(t, i, u, j) && (Tame(t) || EscapeBody(t, i).Done?)
    ensures Match(t, i, EscapeBody(t, i), u, EscapeBody(u, j))
    decreases if i <= |t| then |t| - i else 0, 0
  {
    hide Aligned;
    AlignedEnd(t, i, u, j);
    if i < |t| {
      if IsLineEnd(t[i]) {
        AlignedBreak(t, i, u, j);
      } else {
        AlignedStep(t, i, u, j);
        if SimpleEscape(t[i]).Some? {
          StringMatch(t, i + 1, u, j + 1);
        } else if t[i] == 'u' as int {
          HexMatch(t, i + 1, u, j + 1, 4, 0);
          if Hex4(t, i + 1).Some? { UnicodeMatch(t, i + 5, u, j + 5, Hex4(t, i + 1).value); }
        }
      }
    }
  }

  lemma {:induction false} UnicodeMatch(t: Text, i: nat, u: Text, j: nat, h: nat)
    requires i > 0 && j > 0 && h < 0x10000
    requires Aligned(t, i, u, j) && (Tame(t) || UnicodeBody(t, i, h).Done?)
    ensures Match(t, i, UnicodeBody(t, i, h), u, UnicodeBody(u, j, h))
    decreases if i <= |t| then |t| - i else 0, 2
  {
    hide Aligned, StringBody, Match, Tame;
    PairMatch(t, i, u, j);
    if IsHigh(h) && At(t, i, '\\') && At(t, i + 1, 'u') {
      HexMatch(t, i + 2, u, j + 2, 4, 0);
      var low := Hex4(t, i + 2);
      if low.Some? && IsLow(low.value) {
        StringMatch(t, i + 6, u, j + 6);
        assert Calm(t, i, i + 2);
        PrependMatch(t, i, i + 6, StringBody(t, i + 6), u, StringBody(u, j + 6),
                     0x10000 + (h - 0xD800) * 0x400 + (low.value - 0xDC00));
      } else if low.Some? {
        StringMatch(t, i, u, j);
        PrependMatch(t, i, i, StringBody(t, i), u, StringBody(u, j), h);
      } else {
        FailMatch(t, i, u);
      }
    } else {
      StringMatch(t, i, u, j);
      PrependMatch(t, i, i, StringBody(t, i), u, StringBody(u, j), h);
    }
  }

  lemma FailMatch(t: Text, i: nat, u: Text)
    ensures Match<Text>(t, i, Fail, u, Fail)
  {
  }

  /** A pair of escapes begins at both positions or at neither. */
  lemma PairMatch(t: Text, i: nat, u: Text, j: nat)
    requires Aligned(t, i, u, j)
    ensures At(t, i, '\\') && At(t, i + 1, 'u') <==> At(u, j, '\\') && At(u, j + 1, 'u')
    ensures At(t, i, '\\') && At(t, i + 1, 'u') ==> Aligned(t, i + 2, u, j + 2)
  {
    hide Aligned;
    AlignedAt(t, i, u, j, '\\');
    if At(t, i, '\\') { AlignedAt(t, i + 1, u, j + 1, 'u'); }
  }

  /** One code point before a string, read from calm text. */
  lemma PrependMatch(t: Text, i: nat, k: nat, r: Parsed<Text>, u: Text, r': Parsed<Text>, c: Code)
    requires i <= k && Calm(t, i, k) && Match(t, k, r, u, r') && (r.Done? ==> k <= r.end)
    ensures Match(t, i, Prepend(c, r), u, Prepend(c, r'))
  {
    hide Aligned;
  }

  lemma {:induction false} PlainSlice(t: Text, i: nat, n: nat, u: Text, j: nat)
    requires Aligned(t, i, u, j) && i <= n <= |t| && forall k | i <= k < n :: !IsLineEnd(t[k])
    ensures j + n - i <= |u| && u[j..j + n - i] == t[i..n] && Aligned(t, n, u, j + n - i)
    decreases n - i
  {
    AlignedEnd(t, i, u, j);
    if i < n {
      AlignedStep(t, i, u, j);
      hide Aligned;
      PlainSlice(t, i + 1, n, u, j + 1);
      assert t[i..n] == [t[i]] + t[i + 1..n];
      assert u[j..j + n - i] == [u[j]] + u[j + 1..j + n - i];
    }
  }

  /** No line end is part of a number. */
  lemma {:induction false} NumberPlainLine(t: Text, i: nat, s: NumState, best: Option<nat>)
    requires i <= |t| && (best.Some? ==> best.value <= i) && NumberEnd(t, i, s, best).Some?
    ensures forall k | i <= k < NumberEnd(t, i, s, best).value :: !IsLineEnd(t[k])
    decreases |t| - i
  {
    if i < |t| && NumStep(s, t[i]).Some? {
      NumberPlainLine(t, i + 1, NumStep(s, t[i]).value, if NumDone(s) then Some(i) else best);
    }
  }

  lemma LineEndStops(s: NumState, c: Code)
    requires IsLineEnd(c) || c == LF
    ensures NumStep(s, c).None?
  {
  }

  /** A number goes on as far from both positions. */
  lemma {:induction false} NumberMatch(t: Text, i: nat, u: Text, j: nat, s: NumState, best: Option<nat>,
      best': Option<nat>)
    requires Aligned(t, i, u, j) && (best.Some? ==> best.value <= i) && (best'.Some? ==> best'.value <= j)
    requires best.Some? <==> best'.Some?
    requires best.Some? ==> best.value - i == best'.value - j
    ensures var r, r' := NumberEnd(t, i, s, best), NumberEnd(u, j, s, best');
            (r.Some? <==> r'.Some?) && (r.Some? ==> r.value - i == r'.value - j)
    decreases |t| - i
  {
    hide Aligned, NumStep, NumDone, IsLineEnd;
    AlignedEnd(t, i, u, j);
    if i < |t| {
      if IsLineEnd(t[i]) {
        AlignedBreak(t, i, u, j);
        LineEndStops(s, t[i]);
        LineEndStops(s, LF);
      } else {
        AlignedStep(t, i, u, j);
        if NumStep(s, t[i]).Some? {
          NumberMatch(t, i + 1, u, j + 1, NumStep(s, t[i]).value, if NumDone(s) then Some(i) else best,
                      if NumDone(s) then Some(j) else best');
        }
      }
    }
  }

  lemma {:induction false} WordMatch(t: Text, i: nat, u: Text, j: nat, word: string)
    requires Aligned(t, i, u, j) && forall k | 0 <= k < |word| :: !IsLineEnd(word[k] as int)
    ensures WordAt(t, i, word) <==> WordAt(u, j, word)
    ensures WordAt(t, i, word) ==> i + |word| <= |t| && forall k | i <= k < i + |word| :: !IsLineEnd(t[k])
    decreases |word|
  {
    hide Aligned;
    AlignedEnd(t, i, u, j);
    if word != "" {
      AlignedAt(t, i, u, j, word[0]);
      if At(t, i, word[0]) {
        assert forall k | 0 <= k < |word[1..]| :: word[1..][k] == word[k + 1];
        WordMatch(t, i + 1, u, j + 1, word[1..]);
      }
    }
  }

  lemma WordIsLine(c: Code)
    ensures forall k | 0 <= k < |LiteralWord(c)| :: !IsLineEnd(LiteralWord(c)[k] as int)
  {
  }

  lemma NumberTextMatch(t: Text, i: nat, u: Text, j: nat)
    requires Aligned(t, i, u, j)
    ensures Match(t, i, Number(t, i), u, Number(u, j))
  {
    hide NumberEnd;
    AlignedEnd(t, i, u, j);
    NumberMatch(t, i, u, j, Begin, None, None);
    if NumberEnd(t, i, Begin, None).Some? {
      NumberPlainLine(t, i, Begin, None);
      PlainSlice(t, i, NumberEnd(t, i, Begin, None).value, u, j);
    }
  }

  lemma ScalarMatch(t: Text, i: nat, u: Text, j: nat)
    requires Aligned(t, i, u, j) && i < |t| && !IsLineEnd(t[i])
    ensures j < |u| && Match(t, i, Scalar(t, i), u, Scalar(u, j))
  {
    hide Number, WordAt, LiteralWord, LiteralValue;
    AlignedStep(t, i, u, j);
    var w := LiteralWord(t[i]);
    WordIsLine(t[i]);
    WordMatch(t, i, u, j, w);
    NumberTextMatch(t, i, u, j);
    if w != "" && WordAt(t, i, w) { PlainSlice(t, i, i + |w|, u, j); }
  }

  /** What follows matching parses, if it matches where they end. */
  lemma ThenMatch<A, B>(t: Text, i: nat, v: Parsed<A>, u: Text, v': Parsed<A>, r: Parsed<B>, r': Parsed<B>)
    requires Match(t, i, v, u, v')
    requires (v.Fail? ==> r.Fail?) && (v'.Fail? ==> r'.Fail?) && (r.Done? ==> i <= v.end <= r.end)
    requires v.Done? && v'.Done? ==> Match(t, v.end, r, u, r')
    ensures Match(t, i, r, u, r')
  {
    hide Aligned;
  }

  /** The same after calm text that is no value. */
  lemma AfterMatch<B>(t: Text, i: nat, k: nat, r: Parsed<B>, u: Text, r': Parsed<B>)
    requires i <= k && Calm(t, i, k) && Match(t, k, r, u, r') && (r.Done? ==> k <= r.end)
    ensures Match(t, i, r, u, r')
  {
    hide Aligned;
  }

  /** No value starts with a line end. */
  lemma ValueStarts(t: Text, i: nat)
    requires i < |t| && IsLineEnd(t[i])
    ensures ParseValue(t, i).Fail?
  {
    assert NumStep(Begin, t[i]).None?;
    assert NumberEnd(t, i, Begin, None) == None;
  }

  /** Whitespace before a value or before anything in a tame text. */
  lemma GapMatch(t: Text, i: nat, u: Text, j: nat)
    requires Aligned(t, i, u, j)
    requires Tame(t) || ParseValue(t, SkipWs(t, i)).Done? || At(t, SkipWs(t, i), '"')
    ensures Aligned(t, SkipWs(t, i), u, SkipWs(u, j)) && Calm(t, i, SkipWs(t, i))
  {
    hide ParseValue;
    var k := SkipWs(t, i);
    if Tame(t) {
      TameSkips(t, i);
    } else if k < |t| && IsLineEnd(t[k]) {
      ValueStarts(t, k);
    }
    SkipAligned(t, i, u, j);
  }

  /** Whitespace before a separator or closer, or before anything in a tame text. */
  lemma CloserMatch(t: Text, i: nat, u: Text, j: nat, c: char)
    requires Aligned(t, i, u, j) && !IsLineEnd(c as int) && (Tame(t) || At(t, SkipWs(t, i), c))
    ensures Aligned(t, SkipWs(t, i), u, SkipWs(u, j)) && Calm(t, i, SkipWs(t, i))
    ensures At(t, SkipWs(t, i), c) <==> At(u, SkipWs(u, j), c)
    ensures At(t, SkipWs(t, i), c) ==> Aligned(t, SkipWs(t, i) + 1, u, SkipWs(u, j) + 1) && Calm(t, i, SkipWs(t, i) + 1)
  {
    hide Aligned;
    AlignedEnd(t, i, u, j);
    if Tame(t) { TameSkips(t, i); }
    SkipAligned(t, i, u, j);
    AlignedAt(t, SkipWs(t, i), u, SkipWs(u, j), c);
  }

  lemma {:induction false} ValueMatch(t: Text, i: nat, u: Text, j: nat)
    requires Aligned(t, i, u, j) && (Tame(t) || ParseValue(t, i).Done?)
    ensures Match(t, i, ParseValue(t, i), u, ParseValue(u, j))
    decreases |t| - i, 0
  {
    hide Aligned, Tame, StringBody, ParseArray, ParseObject, Scalar;
    AlignedEnd(t, i, u, j);
    if i < |t| {
      if IsLineEnd(t[i]) {
        AlignedBreak(t, i, u, j);
        ValueStarts(t, i);
        ValueStarts(u, j);
      } else {
        AlignedStep(t, i, u, j);
        if t[i] == '"' as int {
          StringMatch(t, i + 1, u, j + 1);
        } else if t[i] == '[' as int {
          ArrayMatch(t, i + 1, u, j + 1);
        } else if t[i] == '{' as int {
          ObjectMatch(t, i + 1, u, j + 1);
        } else {
          ScalarMatch(t, i, u, j);
        }
      }
    }
  }

  lemma {:induction false} ArrayMatch(t: Text, i: nat, u: Text, j: nat)
    requires Aligned(t, i, u, j) && (Tame(t) || (i <= |t| && ParseArray(t, i).Done?))
    ensures i <= |t| && j <= |u| && Match(t, i, ParseArray(t, i), u, ParseArray(u, j))
    decreases |t| - i, 3
  {
    hide Aligned, Tame, SkipWs, ParseElems, ParseValue;
    AlignedEnd(t, i, u, j);
    var k, k' := SkipWs(t, i), SkipWs(u, j);
    if At(t, k, ']') {
      CloserMatch(t, i, u, j, ']');
    } else {
      ElemsStart(t, k);
      GapMatch(t, i, u, j);
      AlignedAt(t, k, u, k', ']');
      ElemsMatch(t, k, u, k');
      AfterMatch(t, i, k, ParseElems(t, k), u, ParseElems(u, k'));
    }
  }

  lemma ElemsStart(t: Text, i: nat)
    ensures ParseElems(t, i).Done? ==> ParseValue(t, i).Done?
  {
  }

  lemma {:induction false} ElemsMatch(t: Text, i: nat, u: Text, j: nat)
    requires Aligned(t, i, u, j) && (Tame(t) || ParseElems(t, i).Done?)
    ensures Match(t, i, ParseElems(t, i), u, ParseElems(u, j))
    decreases |t| - i, 2
  {
    hide Aligned, Tame, ParseValue, AfterElem, Match;
    var v, v' := ParseValue(t, i), ParseValue(u, j);
    ValueMatch(t, i, u, j);
    if v.Done? && v'.Done? {
      DoneMatch(t, i, v, u, v');
      AfterElemMatch(t, v.value, v.end, u, v'.end);
    }
    ThenMatch(t, i, v, u, v', ParseElems(t, i), ParseElems(u, j));
  }

  lemma DoneMatch<A>(t: Text, i: nat, v: Parsed<A>, u: Text, v': Parsed<A>)
    requires Match(t, i, v, u, v') && v'.Done?
    ensures v.Done? && v'.value == v.value && Aligned(t, v.end, u, v'.end)
  {
  }

  lemma {:induction false} AfterElemMatch(t: Text, v: Json, e: nat, u: Text, e': nat)
    requires Aligned(t, e, u, e') && (Tame(t) || (e <= |t| && AfterElem(t, v, e).Done?))
    ensures e <= |t| && e' <= |u| && Match(t, e, AfterElem(t, v, e), u, AfterElem(u, v, e'))
    decreases |t| - e, 3
  {
    hide Aligned, Tame, SkipWs, ParseElems, ParseValue;
    AlignedEnd(t, e, u, e');
    var k, k' := SkipWs(t, e), SkipWs(u, e');
    if At(t, k, ']') {
      CloserMatch(t, e, u, e', ']');
    } else {
      CloserMatch(t, e, u, e', ',');
      AlignedAt(t, k, u, k', ']');
      if At(t, k, ',') {
        var s, s' := SkipWs(t, k + 1), SkipWs(u, k' + 1);
        ElemsStart(t, s);
        GapMatch(t, k + 1, u, k' + 1);
        ElemsMatch(t, s, u, s');
        AfterMatch(t, e, s, ParseElems(t, s), u, ParseElems(u, s'));
      }
    }
  }

  lemma {:induction false} ObjectMatch(t: Text, i: nat, u: Text, j: nat)
    requires Aligned(t, i, u, j) && (Tame(t) || (i <= |t| && ParseObject(t, i).Done?))
    ensures i <= |t| && j <= |u| && Match(t, i, ParseObject(t, i), u, ParseObject(u, j))
    decreases |t| - i, 3
  {
    hide Aligned, Tame, SkipWs, ParseMembers;
    AlignedEnd(t, i, u, j);
    var k, k' := SkipWs(t, i), SkipWs(u, j);
    if At(t, k, '}') {
      CloserMatch(t, i, u, j, '}');
    } else {
      MembersStart(t, k);
      GapMatch(t, i, u, j);
      AlignedAt(t, k, u, k', '}');
      MembersMatch(t, k, u, k');
      AfterMatch(t, i, k, ParseMembers(t, k), u, ParseMembers(u, k'));
    }
  }

  lemma MembersStart(t: Text, i: nat)
    ensures ParseMembers(t, i).Done? ==> At(t, i, '"')
  {
    assert ParseMembers(t, i).Done? ==> ParseMember(t, i).Done?;
  }

  lemma {:induction false} MembersMatch(t: Text, i: nat, u: Text, j: nat)
    requires Aligned(t, i, u, j) && (Tame(t) || ParseMembers(t, i).Done?)
    ensures Match(t, i, ParseMembers(t, i), u, ParseMembers(u, j))
    decreases |t| - i, 2
  {
    hide Aligned, Tame, ParseMember, AfterMember, Match;
    var m, m' := ParseMember(t, i), ParseMember(u, j);
    MemberMatch(t, i, u, j);
    if m.Done? && m'.Done? {
      DoneMatch(t, i, m, u, m');
      AfterMemberMatch(t, m.value, m.end, u, m'.end);
    }
    ThenMatch(t, i, m, u, m', ParseMembers(t, i), ParseMembers(u, j));
  }

  lemma {:induction false} MemberMatch(t: Text, i: nat, u: Text, j: nat)
    requires Aligned(t, i, u, j) && (Tame(t) || ParseMember(t, i).Done?)
    ensures Match(t, i, ParseMember(t, i), u, ParseMember(u, j))
    decreases |t| - i, 1
  {
    hide Aligned, Tame, StringBody, Match, SkipWs, ParseValue;
    AlignedAt(t, i, u, j, '"');
    if At(t, i, '"') {
      var key, key' := StringBody(t, i + 1), StringBody(u, j + 1);
      StringMatch(t, i + 1, u, j + 1);
      AfterMatch(t, i, i + 1, key, u, key');
      if key.Done? && key'.Done? {
        DoneMatch(t, i, key, u, key');
        ColonMatch(t, key.value, key.end, u, key'.end);
      }
      ThenMatch(t, i, key, u, key', ParseMember(t, i), ParseMember(u, j));
    } else {
      NoMatch<(Text, Json)>(t, i, u);
    }
  }

  lemma NoMatch<A>(t: Text, i: nat, u: Text)
    ensures Match<A>(t, i, Fail, u, Fail)
  {
  }

  /** A member from the end of its key on. */
  function AfterKey(t: Text, key: Text, e: nat): Parsed<(Text, Json)>
    requires e <= |t|
  {
    var c := SkipWs(t, e);
    if !At(t, c, ':') then Fail
    else
      var v := ParseValue(t, SkipWs(t, c + 1));
      if v.Done? then Done((key, v.value), v.end) else Fail
  }

  lemma {:induction false} ColonMatch(t: Text, key: Text, e: nat, u: Text, e': nat)
    requires Aligned(t, e, u, e') && (Tame(t) || (e <= |t| && AfterKey(t, key, e).Done?))
    ensures e <= |t| && e' <= |u| && Match(t, e, AfterKey(t, key, e), u, AfterKey(u, key, e'))
    decreases |t| - e, 1
  {
    hide Aligned, Tame, SkipWs, ParseValue;
    AlignedEnd(t, e, u, e');
    var c, c' := SkipWs(t, e), SkipWs(u, e');
    CloserMatch(t, e, u, e', ':');
    if At(t, c, ':') {
      var s, s' := SkipWs(t, c + 1), SkipWs(u, c' + 1);
      GapMatch(t, c + 1, u, c' + 1);
      ValueMatch(t, s, u, s');
      AfterMatch(t, e, s, ParseValue(t, s), u, ParseValue(u, s'));
    }
  }

  lemma {:induction false} AfterMemberMatch(t: Text, m: (Text, Json), e: nat, u: Text, e': nat)
    requires Aligned(t, e, u, e') && (Tame(t) || (e <= |t| && AfterMember(t, m, e).Done?))
    ensures e <= |t| && e' <= |u| && Match(t, e, AfterMember(t, m, e), u, AfterMember(u, m, e'))
    decreases |t| - e, 3
  {
    hide Aligned, Tame, SkipWs, ParseMembers;
    AlignedEnd(t, e, u, e');
    var k, k' := SkipWs(t, e), SkipWs(u, e');
    if At(t, k, '}') {
      CloserMatch(t, e, u, e', '}');
    } else {
      CloserMatch(t, e, u, e', ',');
      AlignedAt(t, k, u, k', '}');
      if At(t, k, ',') {
        var s, s' := SkipWs(t, k + 1), SkipWs(u, k' + 1);
        MembersStart(t, s);
        GapMatch(t, k + 1, u, k' + 1);
        MembersMatch(t, s, u, s');
        AfterMatch(t, e, s, ParseMembers(t, s), u, ParseMembers(u, s'));
      }
    }
  }

  lemma WholeAligned(t: Text)
    ensures Aligned(t, 0, Feeds(t), 0)
  {
    assert t[0..] == t && Feeds(t)[0..] == Feeds(t);
  }

  /** With line feeds for its line ends a document parses to the same value, unless an odd
      line end stands in one of its strings, and then it does not parse; and a tame text
      that is no document does not become one. */
  lemma DocMatch(t: Text)
    requires Tame(t) || ParseDoc(t).Some?
    ensures ParseDoc(Feeds(t)) == if Calm(t, 0, |t|) then ParseDoc(t) else None
  {
    hide Aligned, Tame, SkipWs, ParseValue;
    var u := Feeds(t);
    WholeAligned(t);
    GapMatch(t, 0, u, 0);
    var s, s' := SkipWs(t, 0), SkipWs(u, 0);
    var v, v' := ParseValue(t, s), ParseValue(u, s');
    ValueMatch(t, s, u, s');
    if v.Done? && v'.Done? {
      EndMatch(t, v.end, u, v'.end);
    } else {
      TameCalm(t);
    }
  }

  lemma TameCalm(t: Text)
    ensures Tame(t) ==> Calm(t, 0, |t|)
  {
  }

  /** The end of the text, after whitespace. */
  lemma EndMatch(t: Text, e: nat, u: Text, e': nat)
    requires Aligned(t, e, u, e') && (Tame(t) || (e <= |t| && SkipWs(t, e) == |t|))
    ensures e <= |t| && e' <= |u| && (SkipWs(t, e) == |t| <==> SkipWs(u, e') == |u|)
    ensures Calm(t, e, SkipWs(t, e))
  {
    hide Aligned;
    AlignedEnd(t, e, u, e');
    if Tame(t) { TameSkips(t, e); }
    SkipAligned(t, e, u, e');
    AlignedEnd(t, SkipWs(t, e), u, SkipWs(u, e'));
  }

  // ----- line feeds for the line ends of parts of a text

  /** `a` does not end in a carriage return that `b` completes with a line feed. */
  predicate Apart(a: Text, b: Text) {
    a == [] || b == [] || a[|a| - 1] != CR || b[0] != LF
  }

  lemma {:induction false} FeedsConcat(a: Text, b: Text)
    requires Apart(a, b)
    ensures Feeds(a + b) == Feeds(a) + Feeds(b)
    decreases |a|
  {
    hide IsLineEnd;
    if a == [] {
      assert a + b == b;
    } else {
      var t := a + b;
      var w := if IsLineEnd(a[0]) then Width(a, 0) else 1;
      assert t[0] == a[0] && t[w..] == a[w..] + b;
      FeedsConcat(a[w..], b);
      assert IsLineEnd(a[0]) ==> Width(t, 0) == w by { WidthConcat(a, b); }
    }
  }

  lemma WidthConcat(a: Text, b: Text)
    requires Apart(a, b) && a != []
    ensures Width(a + b, 0) == Width(a, 0)
  {
    assert |a| == 1 && b != [] ==> (a + b)[1] == b[0];
  }

  lemma {:induction false} FeedsPlain(t: Text)
    requires NoLineEnd(t)
    ensures Feeds(t) == t
  {
    if t != [] { FeedsPlain(t[1..]); }
  }

  /** Only line feeds are left, and tame parts. */
  lemma {:induction false} FeedsOnly(t: Text)
    ensures OnlyLineFeeds(Feeds(t)) && (t != [] ==> Feeds(t) != [])
    decreases |t|
  {
    if t != [] {
      if IsLineEnd(t[0]) { FeedsOnly(AfterLine(t, 0)); } else { FeedsOnly(t[1..]); }
    }
  }

  lemma {:induction false} FeedsSpaces(t: Text)
    requires forall k | 0 <= k < |t| :: IsSpace(t[k])
    ensures forall k | 0 <= k < |Feeds(t)| :: IsSpace(Feeds(t)[k])
    decreases |t|
  {
    if t != [] {
      if IsLineEnd(t[0]) { FeedsSpaces(AfterLine(t, 0)); } else { FeedsSpaces(t[1..]); }
    }
  }

  /** A last code point that is no line end stays last. */
  lemma FeedsLast(t: Text)
    requires t != [] && !IsLineEnd(t[|t| - 1])
    ensures Feeds(t) == Feeds(t[..|t| - 1]) + [t[|t| - 1]]
  {
    hide IsLineEnd, Feeds;
    var n := |t| - 1;
    CutAt(t, n);
    assert t[n..] == [t[n]];
    assert t[n] != LF by { LineFeedEnds(); }
    FeedsPlain([t[n]]);
    FeedsConcat(t[..n], [t[n]]);
  }

  lemma LineFeedEnds()
    ensures IsLineEnd(LF)
  {
  }

  lemma CutAt(t: Text, n: nat)
    requires n <= |t|
    ensures t[..n] + t[n..] == t
  {
  }

  lemma FeedsFirst(t: Text)
    requires t != [] && !IsLineEnd(t[0])
    ensures Feeds(t) != [] && Feeds(t)[0] == t[0]
  {
  }

  // ----- stripping

  lemma {:induction false} RStripIs(t: Text, n: nat)
    requires n <= |t| && (n > 0 ==> !IsSpace(t[n - 1])) && forall k | n <= k < |t| :: IsSpace(t[k])
    ensures RStrip(t) == t[..n]
  {
    if n < |t| {
      var u := t[..|t| - 1];
      RStripIs(u, n);
      assert u[..n] == t[..n];
    }
  }

  lemma SpaceLineEnd(c: Code)
    ensures IsLineEnd(c) ==> IsSpace(c)
  {
  }

  lemma RStripFeeds(t: Text)
    ensures RStrip(Feeds(t)) == Feeds(RStrip(t))
  {
    var a := RStrip(t);
    var tail := t[|a|..];
    assert t == a + tail;
    hide IsSpace, RStrip;
    if a != [] {
      SpaceLineEnd(a[|a| - 1]);
      FeedsLast(a);
    }
    FeedsConcat(a, tail);
    FeedsSpaces(tail);
    RStripIs(Feeds(t), |Feeds(a)|);
  }

  lemma {:induction false} LStripIs(t: Text, n: nat)
    requires n <= |t| && (n < |t| ==> !IsSpace(t[n])) && forall k | 0 <= k < n :: IsSpace(t[k])
    ensures LStrip(t) == t[n..]
  {
    if n > 0 {
      LStripIs(t[1..], n - 1);
      assert t[1..][n - 1..] == t[n..];
    }
  }

  lemma {:induction false} LStripFrom(t: Text) returns (k: nat)
    ensures k <= |t| && LStrip(t) == t[k..] && (k < |t| ==> !IsSpace(t[k])) && forall j | 0 <= j < k :: IsSpace(t[j])
  {
    if t != [] && IsSpace(t[0]) {
      var k' := LStripFrom(t[1..]);
      k := k' + 1;
      assert t[1..][k'..] == t[k..];
      assert forall j | 1 <= j < k :: t[1..][j - 1] == t[j];
    } else {
      k := 0;
    }
  }

  lemma LStripFeeds(t: Text)
    ensures LStrip(Feeds(t)) == Feeds(LStrip(t))
  {
    var k := LStripFrom(t);
    var lead, rest := t[..k], t[k..];
    assert t == lead + rest;
    hide IsSpace, LStrip;
    if rest != [] {
      SpaceLineEnd(rest[0]);
      FeedsFirst(rest);
      assert rest[0] != LF by { LineFeedIsSpace(); }
    }
    FeedsConcat(lead, rest);
    FeedsSpaces(lead);
    LStripIs(Feeds(t), |Feeds(lead)|);
  }

  lemma LineFeedIsSpace()
    ensures IsSpace(LF)
  {
  }

  lemma StripFeeds(t: Text)
    ensures Strip(Feeds(t)) == Feeds(Strip(t))
  {
    LStripFeeds(t);
    RStripFeeds(LStrip(t));
  }

  lemma StripSeparatorFeeds(t: Text)
    ensures StripSeparator(Feeds(t)) == Feeds(StripSeparator(t))
  {
    var r := RStrip(t);
    RStripFeeds(t);
    hide RStrip;
    if r != [] {
      SpaceLineEnd(r[|r| - 1]);
      FeedsLast(r);
      RStripFeeds(r[..|r| - 1]);
      assert Feeds(r)[..|Feeds(r)| - 1] == Feeds(r[..|r| - 1]);
    }
  }

  // ----- the repair

  lemma {:induction false} ScanFeeds(s: Scan, t: Text, i: nat, u: Text, j: nat)
    requires Aligned(t, i, u, j)
    ensures i <= |t| && j <= |u| && ScanRange(s, u, j, |u|) == ScanRange(s, t, i, |t|)
    decreases |t| - i
  {
    hide Aligned;
    AlignedEnd(t, i, u, j);
    if i < |t| {
      if IsLineEnd(t[i]) {
        AlignedBreak(t, i, u, j);
        var next := ScanStep(s, LF);
        assert ScanStep(s, t[i]) == next && ScanStep(next, LF) == next;
        ScanFeeds(next, t, i + Width(t, i), u, j + 1);
      } else {
        AlignedStep(t, i, u, j);
        ScanFeeds(ScanStep(s, t[i]), t, i + 1, u, j + 1);
      }
    }
  }

  lemma ClosersPlain(stack: seq<Code>)
    ensures NoLineEnd(Closers(stack))
  {
    ClosersAre(stack);
  }

  lemma CandidateFeeds(t: Text)
    ensures Candidate(Feeds(t)) == Feeds(Candidate(t))
  {
    WholeAligned(t);
    ScanFeeds(START, t, 0, Feeds(t), 0);
    var s := ScanText(t);
    var body := if s.inString then t + ['"' as int] else t;
    var closers := Closers(s.stack);
    hide ScanRange, Closers, StripSeparator;
    FeedsPlain(['"' as int]);
    FeedsConcat(t, ['"' as int]);
    StripSeparatorFeeds(body);
    ClosersPlain(s.stack);
    FeedsPlain(closers);
    FeedsConcat(StripSeparator(body), closers);
  }

  lemma CandidateTame(t: Text)
    requires Tame(t)
    ensures Tame(Candidate(t))
  {
    var s := ScanText(t);
    var body := if s.inString then t + ['"' as int] else t;
    ClosersPlain(s.stack);
    StripDrops(body);
    hide StripSeparator, Closers, ScanText;
    var a, b := StripSeparator(body), Closers(s.stack);
    assert Tame(a) by { assert forall k | 0 <= k < |a| :: a[k] == body[k]; }
    assert forall k | 0 <= k < |a + b| :: (a + b)[k] == if k < |a| then a[k] else b[k - |a|];
  }

  /** Cutting a text and cutting it after. */
  lemma FeedsPrefix(t: Text, k: nat)
    requires k <= |t|
    ensures |Feeds(t[..k])| <= |Feeds(t)| && Feeds(t)[..|Feeds(t[..k])|] == Feeds(t[..k])
    ensures k > 0 ==> |Feeds(t[..k - 1])| <= |Feeds(t[..k])| <= |Feeds(t[..k - 1])| + 1
    ensures k > 0 ==> Feeds(t[..k]) != []
    decreases |t| - k
  {
    FeedsOnly(t[..k]);
    if k > 0 { FeedsSnoc(t[..k - 1], t[k - 1]); }
    if k > 0 { assert t[..k - 1] + [t[k - 1]] == t[..k]; }
    if k < |t| {
      FeedsPrefix(t, k + 1);
      FeedsSnoc(t[..k], t[k]);
      assert t[..k] + [t[k]] == t[..k + 1];
      var a, b, c := Feeds(t[..k]), Feeds(t[..k + 1]), Feeds(t);
      assert c[..|a|] == c[..|b|][..|a|] == b[..|a|];
    } else {
      assert t[..k] == t;
    }
  }

  /** One more code point adds one, or completes a line end. */
  lemma {:induction false} FeedsSnoc(a: Text, c: Code)
    ensures var x, y := Feeds(a), Feeds(a + [c]); |x| <= |y| <= |x| + 1 && y[..|x|] == x
    decreases |a|
  {
    if a == [] {
      assert a + [c] == [c] && [c][1..] == [];
    } else if !Apart(a, [c]) && |a| == 1 {
      assert (a + [c])[2..] == [] && a[1..] == [];
    } else {
      hide IsLineEnd;
      var w := if IsLineEnd(a[0]) then Width(a, 0) else 1;
      assert (a + [c])[0] == a[0] && (a + [c])[w..] == a[w..] + [c];
      assert IsLineEnd(a[0]) ==> Width(a + [c], 0) == w;
      FeedsSnoc(a[w..], c);
    }
  }

  lemma TamePrefix(t: Text, k: nat)
    requires Tame(t) && k <= |t|
    ensures Tame(t[..k])
  {
  }

  /** A prefix repairs like the same prefix with line feeds. */
  lemma AttemptFeeds(t: Text, k: nat)
    requires Tame(t) && k <= |t|
    ensures Attempts(Feeds(t))(|Feeds(t[..k])|) == Attempts(t)(k)
  {
    FeedsPrefix(t, k);
    TamePrefix(t, k);
    hide ParseDoc, Candidate, Tame;
    CandidateFeeds(t[..k]);
    CandidateTame(t[..k]);
    DocMatch(Candidate(t[..k]));
    TameCalm(Candidate(t[..k]));
  }

  lemma {:induction false} RepairFeeds(t: Text, k: nat)
    requires Tame(t) && k <= |t|
    ensures FirstSome(Attempts(Feeds(t)), |Feeds(t[..k])|) == FirstSome(Attempts(t), k)
    decreases k
  {
    hide Tame, Attempts;
    if k > 0 {
      AttemptFeeds(t, k);
      RepairFeeds(t, k - 1);
      FeedsPrefix(t, k);
    } else {
      assert Feeds(t[..0]) == [];
    }
  }

  // ----- the fence

  lemma {:induction false} SplitFeeds(t: Text)
    ensures SplitLines(Feeds(t)) == SplitLines(t)
    decreases |t|
  {
    hide IsLineEnd, LineEnd, SplitLines, AfterLine, Feeds;
    if t == [] {
      assert Feeds(t) == [] by { FeedsPlain(t); }
    } else {
      var n := LineEnd(t, 0);
      LineEndBefore(t, 0);
      var line := t[..n];
      if n == |t| {
        assert line == t;
        FeedsPlain(t);
      } else {
        FeedsLine(t, n);
        SplitFeeds(AfterLine(t, n));
        SplitFirst(t);
        FirstLine(line, Feeds(AfterLine(t, n)));
      }
    }
  }

  /** The first line, a line feed and the rest. */
  lemma FeedsLine(t: Text, n: nat)
    requires n < |t| && NoLineEnd(t[..n]) && IsLineEnd(t[n])
    ensures Feeds(t) == t[..n] + [LF] + Feeds(AfterLine(t, n))
  {
    hide IsLineEnd, Feeds, AfterLine, NoLineEnd;
    FeedsPlain(t[..n]);
    FeedsFront(t, n);
    CutAt(t, n);
    LineApart(t, n);
    FeedsConcat(t[..n], t[n..]);
    var rest := Feeds(AfterLine(t, n));
    assert t[..n] + ([LF] + rest) == t[..n] + [LF] + rest;
  }

  lemma LineApart(t: Text, n: nat)
    requires n < |t| && NoLineEnd(t[..n])
    ensures Apart(t[..n], t[n..])
  {
    assert n > 0 ==> !IsLineEnd(t[..n][n - 1]);
  }

  lemma FeedsFront(t: Text, n: nat)
    requires n < |t| && IsLineEnd(t[n])
    ensures Feeds(t[n..]) == [LF] + Feeds(AfterLine(t, n))
  {
    assert Width(t[n..], 0) == Width(t, n);
    assert AfterLine(t[n..], 0) == AfterLine(t, n);
  }

  /** Splitting and joining puts line feeds for the line ends. */
  lemma JoinIsFeeds(t: Text)
    requires t != [] && !IsLineEnd(t[|t| - 1])
    ensures JoinLines(SplitLines(t)) == Feeds(t)
  {
    SplitFeeds(t);
    FeedsOnly(t);
    FeedsLast(t);
    JoinSplit(Feeds(t));
  }

  lemma TicksPlain()
    ensures NoLineEnd(TICKS) && TICKS != [] && TICKS == Codes("```")
  {
    assert |TICKS| == 3 && TICKS[0] == 0x60 && TICKS[1] == 0x60 && TICKS[2] == 0x60;
  }

  lemma {:induction false} PrefixFeeds(p: Text, t: Text)
    requires NoLineEnd(p)
    ensures p <= Feeds(t) <==> p <= t
  {
    hide IsLineEnd, AfterLine;
    if p != [] && t != [] {
      LineFeedEnds();
      PrefixCons(p, t);
      PrefixCons(p, Feeds(t));
      if !IsLineEnd(t[0]) {
        PrefixFeeds(p[1..], t[1..]);
        assert Feeds(t)[1..] == Feeds(t[1..]);
      }
    }
  }

  lemma FenceFeeds(t: Text)
    ensures StartsWithFence(Feeds(t)) <==> StartsWithFence(t)
  {
    TicksPlain();
    PrefixFeeds(TICKS, t);
  }

  /** What is taken out of a fence, or left where there is none. */
  lemma StripFenceFeeds(t: Text)
    ensures StripFence(Feeds(t)) == if StartsWithFence(Strip(t)) then StripFence(t) else Feeds(StripFence(t))
  {
    StripFeeds(t);
    FenceFeeds(Strip(t));
    SplitFeeds(Strip(t));
    hide Strip, StartsWithFence, SplitLines, JoinLines;
  }

  /** The decoder does not see how the lines of a text end, if its line ends are carriage
      returns and line feeds or if it is in a fence. */
  lemma DecodeFeeds(t: Text)
    requires Tame(t) || StartsWithFence(Strip(t))
    ensures DecodeSubmission(Feeds(t)) == DecodeSubmission(t)
  {
    StripFeeds(t);
    FeedsOnly(Strip(t));
    StripFenceFeeds(t);
    hide StripFence, Validate, ParseDoc, Repair, Tame;
    if !StartsWithFence(Strip(t)) {
      StripTame(t);
      Unfenced(t);
      hide Strip;
      TextFeeds(StripFence(t));
    }
  }

  lemma Unfenced(t: Text)
    requires !StartsWithFence(Strip(t))
    ensures StripFence(t) == Strip(t)
  {
  }

  lemma StripTame(t: Text)
    requires Tame(t)
    ensures Tame(Strip(t))
  {
    var k := LStripFrom(t);
    var u := LStrip(t);
    assert RStrip(u) == u[..|RStrip(u)|];
  }

  lemma TextFeeds(t: Text)
    requires Tame(t)
    ensures ParseDoc(Feeds(t)) == ParseDoc(t) && Repair(Feeds(t)) == Repair(t)
  {
    hide ParseDoc, Tame, Attempts;
    DocMatch(t);
    TameCalm(t);
    RepairFeeds(t, |t|);
    assert t[..|t|] == t;
  }

  // ----- a document in a fence

  predicate Trimmed(d: Text) {
    d != [] && !IsSpace(d[0]) && !IsSpace(d[|d| - 1])
  }

  /** Out of its fence a document comes with line feeds. */
  lemma FencedIsFeeds(info: Text, d: Text)
    requires NoLineEnd(info) && Trimmed(d)
    ensures Strip(Fenced(info, d)) != [] && StripFence(Fenced(info, d)) == Feeds(d)
  {
    SpaceLineEnd(d[|d| - 1]);
    FencedStrips(info, d);
    JoinIsFeeds(d);
    StripNothing(d);
    StripFeeds(d);
    FenceEnds(info, d);
    StripNothing(Fenced(info, d));
  }

  lemma {:induction false} FeedsSame(t: Text)
    requires OnlyLineFeeds(t)
    ensures Feeds(t) == t
  {
    if t != [] {
      assert AfterLine(t, 0) == t[1..];
      FeedsSame(t[1..]);
    }
  }

  /** The fence gives the document back exactly when its only line ends are line feeds. */
  lemma FenceKeepsIff(info: Text, d: Text)
    requires NoLineEnd(info) && Trimmed(d)
    ensures StripFence(Fenced(info, d)) == d <==> OnlyLineFeeds(d)
  {
    FencedIsFeeds(info, d);
    FeedsOnly(d);
    if OnlyLineFeeds(d) { FeedsSame(d); }
  }

  lemma SameText(raw: Text, raw': Text)
    requires Strip(raw) != [] && Strip(raw') != [] && StripFence(raw) == StripFence(raw')
    ensures DecodeSubmission(raw) == DecodeSubmission(raw')
  {
  }

  /** What decodes as `Feeds(d)` does decodes like `d`, if `d` is tame and no fence. */
  lemma DecodesAlike(raw: Text, d: Text)
    requires Trimmed(d) && !StartsWithFence(d) && Tame(d)
    requires Strip(raw) != [] && StripFence(raw) == Feeds(d)
    ensures DecodeSubmission(raw) == DecodeSubmission(d)
  {
    StripNothing(d);
    StripFeeds(d);
    FeedsOnly(d);
    StripFenceFeeds(d);
    Unfenced(d);
    hide Strip, StripFence, DecodeSubmission;
    SameText(raw, Feeds(d));
    DecodeFeeds(d);
  }

  /** A tame document, JSON or not, decodes alike with and without its fence. */
  lemma FenceTransparent(info: Text, d: Text)
    requires NoLineEnd(info) && Trimmed(d) && !StartsWithFence(d) && Tame(d)
    ensures DecodeSubmission(Fenced(info, d)) == DecodeSubmission(d)
  {
    FencedIsFeeds(info, d);
    DecodesAlike(Fenced(info, d), d);
  }

  /** No document starts with a fence. */
  lemma FenceIsNoDoc(d: Text)
    requires StartsWithFence(d)
    ensures ParseDoc(d).None?
  {
    TicksPlain();
    assert d[0] == TICKS[0] == 0x60 && SkipWs(d, 0) == 0;
    assert NumStep(Begin, d[0]).None?;
    assert NumberEnd(d, 0, Begin, None) == None;
  }

  /** A submission that is accepted as it stands decodes alike in a fence exactly when no
      odd line end stands in it. */
  lemma FenceDecodesIff(info: Text, d: Text)
    requires NoLineEnd(info) && Trimmed(d) && ParseDoc(d).Some? && DecodeSubmission(d).Accepted?
    ensures DecodeSubmission(Fenced(info, d)) == DecodeSubmission(d) <==> forall c | c in d :: !Odd(c)
  {
    hide Strip, StripFence, ParseDoc, Repair, Odd, DecodeSubmission, Fenced, Feeds, StartsWithFence, Validate;
    if StartsWithFence(d) { FenceIsNoDoc(d); }
    FencedIsFeeds(info, d);
    StripNothing(d);
    Unfenced(d);
    DocMatch(d);
    var v := ParseDoc(d).value;
    DecodesWhole(d, d, v);
    assert Calm(d, 0, |d|) <==> forall c | c in d :: !Odd(c);
    if Calm(d, 0, |d|) {
      DecodesWhole(Fenced(info, d), Feeds(d), v);
    } else {
      UnparsedRepaired(Fenced(info, d));
      NotRepaired(v);
    }
  }

  lemma NotRepaired(v: Json)
    ensures Validate(v, false).Accepted? ==> !Validate(v, false).repaired
  {
  }
}
