/** The parser is local: what it reads up to some position depends only on the text up
    to there, except that a number must be seen to stop. */
module JsonLocal {
  import opened Basics
  import opened Json

  /** `t` and `u` have the same first `k` code points. */
  ghost predicate Agree(t: Text, u: Text, k: nat) {
    k <= |t| && k <= |u| && forall i | 0 <= i < k :: t[i] == u[i]
  }

  /** No number goes on at `i`. */
  predicate NumStop(t: Text, i: nat) {
    i >= |t| || !(IsDigit(t[i]) || t[i] == '.' as int || t[i] == 'e' as int || t[i] == 'E' as int)
  }

  lemma {:induction false} SkipWsLocal(t: Text, u: Text, i: nat, k: nat)
    requires Agree(t, u, k) && i <= k
    ensures SkipWs(t, i) < k ==> SkipWs(u, i) == SkipWs(t, i)
    ensures SkipWs(t, i) >= k ==> SkipWs(u, i) >= k
    decreases k - i
  {
    if i < k && IsWs(t[i]) { SkipWsLocal(t, u, i + 1, k); }
  }

  lemma {:induction false} HexLocal(t: Text, u: Text, i: nat, n: nat, acc: nat, k: nat)
    requires n <= 4 && (n == 4 ==> acc == 0) && (n == 3 ==> acc < 0x10)
    requires (n == 2 ==> acc < 0x100) && (n == 1 ==> acc < 0x1000) && (n == 0 ==> acc < 0x10000)
    requires Agree(t, u, k) && i + n <= k
    ensures Hex(u, i, n, acc) == Hex(t, i, n, acc)
    decreases n
  {
    if n > 0 && HexValue(t[i]).Some? { HexLocal(t, u, i + 1, n - 1, 16 * acc + HexValue(t[i]).value, k); }
  }

  lemma {:induction false} StringLocal(t: Text, u: Text, i: nat, k: nat)
    requires Agree(t, u, k) && StringBody(t, i).Done? && StringBody(t, i).end <= k
    ensures StringBody(u, i) == StringBody(t, i)
    decreases k - i, 1
  {
    if t[i] == '\\' as int {
      EscapeLocal(t, u, i + 1, k);
    } else if t[i] != '"' as int {
      StringLocal(t, u, i + 1, k);
    }
  }

  lemma {:induction false} EscapeLocal(t: Text, u: Text, i: nat, k: nat)
    requires Agree(t, u, k) && EscapeBody(t, i).Done? && EscapeBody(t, i).end <= k
    ensures EscapeBody(u, i) == EscapeBody(t, i)
    decreases k - i, 0
  {
    if SimpleEscape(t[i]).Some? {
      StringLocal(t, u, i + 1, k);
    } else {
      HexLocal(t, u, i + 1, 4, 0, k);
      UnicodeLocal(t, u, i + 5, Hex4(t, i + 1).value, k);
    }
  }

  lemma {:induction false} UnicodeLocal(t: Text, u: Text, i: nat, h: nat, k: nat)
    requires i > 0 && h < 0x10000
    requires Agree(t, u, k) && UnicodeBody(t, i, h).Done? && UnicodeBody(t, i, h).end <= k
    ensures UnicodeBody(u, i, h) == UnicodeBody(t, i, h)
    decreases k - i, 2
  {
    var pair := IsHigh(h) && At(t, i, '\\') && At(t, i + 1, 'u');
    if pair && IsLow(Hex4(t, i + 2).value) {
      HexLocal(t, u, i + 2, 4, 0, k);
      StringLocal(t, u, i + 6, k);
    } else {
      StringLocal(t, u, i, k);
      StringSecond(t, i);
      if pair { HexLocal(t, u, i + 2, 4, 0, k); }
    }
  }

  /** A string that goes on with an escape goes on past it. */
  lemma StringSecond(t: Text, i: nat)
    requires StringBody(t, i).Done?
    ensures At(t, i, '\\') ==> i + 1 < StringBody(t, i).end
    ensures At(t, i, '\\') && At(t, i + 1, 'u') ==> i + 6 < StringBody(t, i).end
  {
    if At(t, i, '\\') && At(t, i + 1, 'u') {
      assert StringBody(t, i) == UnicodeBody(t, i + 6, Hex4(t, i + 2).value);
    }
  }

  lemma {:induction false} NumberLocal(t: Text, u: Text, i: nat, s: NumState, best: Option<nat>, e: nat)
    requires i <= e && (best.Some? ==> best.value <= i) && Agree(t, u, e)
    requires NumberEnd(t, i, s, best) == Some(e) && NumStop(t, e) && NumStop(u, e) && (i < e || NumDone(s))
    ensures NumberEnd(u, i, s, best) == Some(e)
    decreases e - i
  {
    if i < e {
      var here := if NumDone(s) then Some(i) else best;
      NumberLocal(t, u, i + 1, NumStep(s, t[i]).value, here, e);
    } else if i < |u| {
      assert NumStep(s, u[i]).None?;
    }
  }

  lemma {:induction false} ValueLocal(t: Text, u: Text, i: nat, k: nat)
    requires Agree(t, u, k) && ParseValue(t, i).Done? && ParseValue(t, i).end <= k
    requires var v := ParseValue(t, i); v.value.JNum? ==> NumStop(t, v.end) && NumStop(u, v.end)
    ensures ParseValue(u, i) == ParseValue(t, i)
    decreases k - i, 0
  {
    var v := ParseValue(t, i);
    if t[i] == '"' as int {
      StringLocal(t, u, i + 1, k);
    } else if t[i] == '[' as int {
      ArrayLocal(t, u, i + 1, k);
    } else if t[i] == '{' as int {
      ObjectLocal(t, u, i + 1, k);
    } else {
      ScalarLocal(t, u, i, k);
    }
  }

  lemma {:induction false} WordLocal(t: Text, u: Text, i: nat, k: nat, word: string)
    requires Agree(t, u, k) && i + |word| <= k
    ensures WordAt(u, i, word) <==> WordAt(t, i, word)
    decreases |word|
  {
    if word != "" { WordLocal(t, u, i + 1, k, word[1..]); }
  }

  lemma MinusNeedsDigit(t: Text, i: nat)
    requires i < |t| && t[i] == '-' as int && NumberEnd(t, i, Begin, None).Some?
    ensures NumberEnd(t, i, Begin, None).value > i + 1 && IsDigit(t[i + 1])
  {
    assert NumberEnd(t, i, Begin, None) == NumberEnd(t, i + 1, Sign, None);
  }

  lemma NumberIsNoWord(t: Text, i: nat)
    requires i < |t| && NumberEnd(t, i, Begin, None).Some? && LiteralWord(t[i]) != ""
    ensures !WordAt(t, i, LiteralWord(t[i]))
  {
    assert t[i] == '-' as int;
    assert MINUS_INFINITY_WORD[1..][0] == 'I';
    MinusNeedsDigit(t, i);
  }

  lemma ScalarLocal(t: Text, u: Text, i: nat, k: nat)
    requires Agree(t, u, k) && i < |t| && Scalar(t, i).Done? && Scalar(t, i).end <= k
    requires var v := Scalar(t, i); v.value.JNum? ==> NumStop(t, v.end) && NumStop(u, v.end)
    ensures i < |u| && Scalar(u, i) == Scalar(t, i)
  {
    hide NumStop, NumberEnd, WordAt;
    var e := Scalar(t, i).end;
    var w := LiteralWord(t[i]);
    if w != "" && WordAt(t, i, w) {
      WordLocal(t, u, i, k, w);
      assert t[i..e] == u[i..e];
    } else {
      NumberLocal(t, u, i, Begin, None, e);
      assert t[i..e] == u[i..e];
      if w != "" { NumberIsNoWord(u, i); }
    }
  }

  lemma {:induction false} ArrayLocal(t: Text, u: Text, i: nat, k: nat)
    requires Agree(t, u, k) && i <= k && ParseArray(t, i).Done? && ParseArray(t, i).end <= k
    ensures ParseArray(u, i) == ParseArray(t, i)
    decreases k - i, 3
  {
    SkipWsLocal(t, u, i, k);
    if !At(t, SkipWs(t, i), ']') { ElemsLocal(t, u, SkipWs(t, i), k); }
  }

  lemma {:induction false} ElemsLocal(t: Text, u: Text, i: nat, k: nat)
    requires Agree(t, u, k) && ParseElems(t, i).Done? && ParseElems(t, i).end <= k
    ensures ParseElems(u, i) == ParseElems(t, i)
    decreases k - i, 2
  {
    var v := ParseValue(t, i);
    AfterElemStops(t, v.value, v.end);
    ValueLocal(t, u, i, k);
    AfterElemLocal(t, u, v.value, v.end, k);
  }

  lemma AfterElemStops(t: Text, v: Json, e: nat)
    requires e <= |t| && AfterElem(t, v, e).Done?
    ensures NumStop(t, e)
  {
  }

  lemma {:induction false} AfterElemLocal(t: Text, u: Text, v: Json, e: nat, k: nat)
    requires Agree(t, u, k) && e <= k && AfterElem(t, v, e).Done? && AfterElem(t, v, e).end <= k
    ensures AfterElem(u, v, e) == AfterElem(t, v, e)
    decreases k - e, 3
  {
    hide ParseValue, ParseElems, SkipWs;
    var j := SkipWs(t, e);
    SkipWsLocal(t, u, e, k);
    assert j < k && SkipWs(u, e) == j && t[j] == u[j];
    if At(t, j, ',') {
      SkipWsLocal(t, u, j + 1, k);
      ElemsLocal(t, u, SkipWs(t, j + 1), k);
    }
  }

  lemma {:induction false} ObjectLocal(t: Text, u: Text, i: nat, k: nat)
    requires Agree(t, u, k) && i <= k && ParseObject(t, i).Done? && ParseObject(t, i).end <= k
    ensures ParseObject(u, i) == ParseObject(t, i)
    decreases k - i, 3
  {
    hide ParseMembers, SkipWs;
    SkipWsLocal(t, u, i, k);
    if !At(t, SkipWs(t, i), '}') { MembersLocal(t, u, SkipWs(t, i), k); }
  }

  lemma {:induction false} MemberLocal(t: Text, u: Text, i: nat, k: nat)
    requires Agree(t, u, k) && ParseMember(t, i).Done? && ParseMember(t, i).end <= k
    requires var m := ParseMember(t, i); m.value.1.JNum? ==> NumStop(t, m.end) && NumStop(u, m.end)
    ensures ParseMember(u, i) == ParseMember(t, i)
    decreases k - i, 1
  {
    hide ParseValue, StringBody, SkipWs;
    var key := StringBody(t, i + 1);
    var c := SkipWs(t, key.end);
    StringLocal(t, u, i + 1, k);
    SkipWsLocal(t, u, key.end, k);
    SkipWsLocal(t, u, c + 1, k);
    ValueLocal(t, u, SkipWs(t, c + 1), k);
  }

  lemma {:induction false} MembersLocal(t: Text, u: Text, i: nat, k: nat)
    requires Agree(t, u, k) && ParseMembers(t, i).Done? && ParseMembers(t, i).end <= k
    ensures ParseMembers(u, i) == ParseMembers(t, i)
    decreases k - i, 2
  {
    var m := ParseMember(t, i);
    AfterMemberStops(t, m.value, m.end);
    MemberLocal(t, u, i, k);
    AfterMemberLocal(t, u, m.value, m.end, k);
  }

  lemma AfterMemberStops(t: Text, m: (Text, Json), e: nat)
    requires e <= |t| && AfterMember(t, m, e).Done?
    ensures NumStop(t, e)
  {
  }

  lemma {:induction false} AfterMemberLocal(t: Text, u: Text, m: (Text, Json), e: nat, k: nat)
    requires Agree(t, u, k) && e <= k && AfterMember(t, m, e).Done? && AfterMember(t, m, e).end <= k
    ensures AfterMember(u, m, e) == AfterMember(t, m, e)
    decreases k - e, 3
  {
    hide ParseMember, ParseMembers, SkipWs;
    var j := SkipWs(t, e);
    SkipWsLocal(t, u, e, k);
    assert j < k && SkipWs(u, e) == j && t[j] == u[j];
    if At(t, j, ',') {
      SkipWsLocal(t, u, j + 1, k);
      MembersLocal(t, u, SkipWs(t, j + 1), k);
    }
  }

  // ----- the last code point of a value

  /** Neither whitespace nor a separator: a code point the repair never strips. */
  predicate Solid(c: Code) {
    c == '"' as int || c == '{' as int || c == '}' as int || c == '[' as int || c == ']' as int || IsDigit(c)
    || 'a' as int <= c <= 'z' as int || 'A' as int <= c <= 'Z' as int
  }

  lemma {:induction false} StringEndsInQuote(t: Text, i: nat)
    requires StringBody(t, i).Done?
    ensures t[StringBody(t, i).end - 1] == '"' as int
    decreases |t| - i, 1
  {
    if t[i] == '\\' as int {
      EscapeEndsInQuote(t, i + 1);
    } else if t[i] != '"' as int {
      StringEndsInQuote(t, i + 1);
    }
  }

  lemma {:induction false} EscapeEndsInQuote(t: Text, i: nat)
    requires EscapeBody(t, i).Done?
    ensures t[EscapeBody(t, i).end - 1] == '"' as int
    decreases |t| - i, 0
  {
    if SimpleEscape(t[i]).Some? {
      StringEndsInQuote(t, i + 1);
    } else {
      var h, j := Hex4(t, i + 1).value, i + 5;
      if IsHigh(h) && At(t, j, '\\') && At(t, j + 1, 'u') && IsLow(Hex4(t, j + 2).value) {
        StringEndsInQuote(t, j + 6);
      } else {
        StringEndsInQuote(t, j);
      }
    }
  }

  /** A number ends in a digit. */
  lemma {:induction false} NumberEndsInDigit(t: Text, i: nat, s: NumState, best: Option<nat>)
    requires i <= |t| && (best.Some? ==> 0 < best.value <= i && IsDigit(t[best.value - 1]))
    requires NumDone(s) ==> i > 0 && IsDigit(t[i - 1])
    requires NumberEnd(t, i, s, best).Some?
    ensures 0 < NumberEnd(t, i, s, best).value && IsDigit(t[NumberEnd(t, i, s, best).value - 1])
    decreases |t| - i
  {
    if i < |t| && NumStep(s, t[i]).Some? {
      NumberEndsInDigit(t, i + 1, NumStep(s, t[i]).value, if NumDone(s) then Some(i) else best);
    }
  }

  lemma {:induction false} WordEnds(t: Text, i: nat, word: string)
    requires WordAt(t, i, word) && word != ""
    ensures t[i + |word| - 1] == word[|word| - 1] as int
    decreases |word|
  {
    if |word| > 1 { WordEnds(t, i + 1, word[1..]); }
  }

  lemma ScalarEndsSolid(t: Text, i: nat)
    requires i < |t| && Scalar(t, i).Done?
    ensures Solid(t[Scalar(t, i).end - 1])
  {
    hide NumberEnd;
    var w := LiteralWord(t[i]);
    if w != "" && WordAt(t, i, w) {
      WordEnds(t, i, w);
    } else {
      NumberEndsInDigit(t, i, Begin, None);
    }
  }

  lemma {:induction false} AfterElemEnds(t: Text, v: Json, e: nat)
    requires e <= |t| && AfterElem(t, v, e).Done?
    ensures t[AfterElem(t, v, e).end - 1] == ']' as int
    decreases |t| - e
  {
    hide ParseValue, SkipWs;
    var j := SkipWs(t, e);
    if At(t, j, ',') {
      var w := ParseValue(t, SkipWs(t, j + 1));
      AfterElemEnds(t, w.value, w.end);
    }
  }

  lemma {:induction false} AfterMemberEnds(t: Text, m: (Text, Json), e: nat)
    requires e <= |t| && AfterMember(t, m, e).Done?
    ensures t[AfterMember(t, m, e).end - 1] == '}' as int
    decreases |t| - e
  {
    hide ParseMember, SkipWs;
    var j := SkipWs(t, e);
    if At(t, j, ',') {
      var w := ParseMember(t, SkipWs(t, j + 1));
      AfterMemberEnds(t, w.value, w.end);
    }
  }

  lemma ArrayEnds(t: Text, i: nat)
    requires i <= |t| && ParseArray(t, i).Done?
    ensures t[ParseArray(t, i).end - 1] == ']' as int
  {
    hide ParseValue, AfterElem, SkipWs;
    var j := SkipWs(t, i);
    if !At(t, j, ']') { AfterElemEnds(t, ParseValue(t, j).value, ParseValue(t, j).end); }
  }

  lemma ObjectEnds(t: Text, i: nat)
    requires i <= |t| && ParseObject(t, i).Done?
    ensures t[ParseObject(t, i).end - 1] == '}' as int
  {
    hide ParseMember, AfterMember, SkipWs;
    var j := SkipWs(t, i);
    if !At(t, j, '}') { AfterMemberEnds(t, ParseMember(t, j).value, ParseMember(t, j).end); }
  }

  lemma ValueEndsSolid(t: Text, i: nat)
    requires ParseValue(t, i).Done?
    ensures Solid(t[ParseValue(t, i).end - 1])
  {
    if t[i] == '"' as int {
      StringEndsInQuote(t, i + 1);
    } else if t[i] == '[' as int {
      ArrayEnds(t, i + 1);
    } else if t[i] == '{' as int {
      ObjectEnds(t, i + 1);
    } else {
      ScalarEndsSolid(t, i);
    }
  }
}
