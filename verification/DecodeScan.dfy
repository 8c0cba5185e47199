/** The bracket scanner of the repair and the JSON parser agree: scanning a whole value
    leaves the scanner as it was. */
module DecodeScan {
  import opened Basics
  import opened Json
  import opened Decode

  ghost predicate Outside(s: Scan) {
    !s.inString && !s.escape
  }

  lemma {:induction false} HexScan(t: Text, i: nat, n: nat, acc: nat, s: Scan)
    requires n <= 4 && (n == 4 ==> acc == 0) && (n == 3 ==> acc < 0x10)
    requires (n == 2 ==> acc < 0x100) && (n == 1 ==> acc < 0x1000) && (n == 0 ==> acc < 0x10000)
    requires Hex(t, i, n, acc).Some? && s.inString && !s.escape
    ensures ScanRange(s, t, i, i + n) == s
    decreases n
  {
    if n > 0 { HexScan(t, i + 1, n - 1, 16 * acc + HexValue(t[i]).value, s); }
  }

  function Inside(s: Scan): Scan {
    s.(inString := true)
  }

  /** From inside a string, its rest closes the string. */
  lemma {:induction false} StringScan(t: Text, i: nat, s: Scan)
    requires StringBody(t, i).Done? && Outside(s)
    ensures ScanRange(Inside(s), t, i, StringBody(t, i).end) == s
    decreases |t| - i, 1
  {
    if t[i] == '"' as int {
      assert ScanRange(Inside(s), t, i, i + 1) == ScanStep(Inside(s), t[i]);
    } else if t[i] == '\\' as int {
      EscapeScan(t, i + 1, s);
    } else {
      StringScan(t, i + 1, s);
    }
  }

  lemma {:induction false} EscapeScan(t: Text, i: nat, s: Scan)
    requires EscapeBody(t, i).Done? && Outside(s)
    ensures ScanRange(Inside(s).(escape := true), t, i, EscapeBody(t, i).end) == s
    decreases |t| - i, 0
  {
    assert ScanStep(Inside(s).(escape := true), t[i]) == Inside(s);
    if SimpleEscape(t[i]).Some? {
      StringScan(t, i + 1, s);
    } else {
      HexScan(t, i + 1, 4, 0, Inside(s));
      UnicodeScan(t, i + 5, Hex4(t, i + 1).value, s);
      ScanSplit(Inside(s), t, i + 1, i + 5, EscapeBody(t, i).end);
    }
  }

  lemma {:induction false} UnicodeScan(t: Text, i: nat, h: nat, s: Scan)
    requires i > 0 && h < 0x10000 && UnicodeBody(t, i, h).Done? && Outside(s)
    ensures ScanRange(Inside(s), t, i, UnicodeBody(t, i, h).end) == s
    decreases |t| - i, 2
  {
    if IsHigh(h) && At(t, i, '\\') && At(t, i + 1, 'u') && IsLow(Hex4(t, i + 2).value) {
      LowScan(t, i, Inside(s));
      StringScan(t, i + 6, s);
      ScanSplit(Inside(s), t, i, i + 6, UnicodeBody(t, i, h).end);
    } else {
      StringScan(t, i, s);
    }
  }

  /** The escape of a low surrogate leaves a string open. */
  lemma LowScan(t: Text, i: nat, inside: Scan)
    requires At(t, i, '\\') && i + 2 <= |t| && Hex4(t, i + 2).Some? && inside.inString && !inside.escape
    ensures ScanRange(inside, t, i, i + 6) == inside
  {
    HexScan(t, i + 2, 4, 0, inside);
    assert ScanStep(ScanStep(inside, t[i]), t[i + 1]) == inside;
    assert ScanRange(inside, t, i, i + 6) == ScanRange(ScanStep(inside, t[i]), t, i + 1, i + 6);
  }

  predicate Plain(c: Code) {
    c != '"' as int && c != '{' as int && c != '}' as int && c != '[' as int && c != ']' as int
  }

  lemma {:induction false} PlainScan(t: Text, i: nat, j: nat, s: Scan)
    requires i <= j <= |t| && Outside(s) && forall k | i <= k < j :: Plain(t[k])
    ensures ScanRange(s, t, i, j) == s
    decreases j - i
  {
    if i < j { PlainScan(t, i + 1, j, s); }
  }

  lemma {:induction false} WordScan(t: Text, i: nat, word: string, s: Scan)
    requires WordAt(t, i, word) && i + |word| <= |t| && Outside(s)
    requires forall k | 0 <= k < |word| :: Plain(word[k] as int)
    ensures ScanRange(s, t, i, i + |word|) == s
    decreases |word|
  {
    if word != "" {
      assert forall k | 0 <= k < |word[1..]| :: word[1..][k] == word[k + 1];
      WordScan(t, i + 1, word[1..], s);
    }
  }

  lemma {:induction false} NumberPlain(t: Text, i: nat, st: NumState, best: Option<nat>)
    requires i <= |t| && (best.Some? ==> best.value <= i) && NumberEnd(t, i, st, best).Some?
    ensures forall k | i <= k < NumberEnd(t, i, st, best).value :: Plain(t[k])
    decreases |t| - i
  {
    if i < |t| && NumStep(st, t[i]).Some? {
      NumberPlain(t, i + 1, NumStep(st, t[i]).value, if NumDone(st) then Some(i) else best);
    }
  }

  lemma WordPlain(c: Code)
    ensures forall k | 0 <= k < |LiteralWord(c)| :: Plain(LiteralWord(c)[k] as int)
  {
  }

  lemma ScalarScan(t: Text, i: nat, s: Scan)
    requires i < |t| && Scalar(t, i).Done? && Outside(s)
    ensures ScanRange(s, t, i, Scalar(t, i).end) == s
  {
    hide NumberEnd, LiteralWord, LiteralValue, Plain;
    var w := LiteralWord(t[i]);
    if w != "" && WordAt(t, i, w) {
      WordPlain(t[i]);
      WordScan(t, i, w, s);
    } else {
      NumberPlain(t, i, Begin, None);
      PlainScan(t, i, NumberEnd(t, i, Begin, None).value, s);
    }
  }

  function Push(s: Scan, c: char): Scan {
    s.(stack := s.stack + [c as int])
  }

  lemma WsScan(t: Text, i: nat, s: Scan)
    requires i <= |t| && Outside(s)
    ensures ScanRange(s, t, i, SkipWs(t, i)) == s
  {
    SkipsWs(t, i);
    ScanSpaces(s, t, i, SkipWs(t, i));
  }

  /** Whitespace, one separator, whitespace. */
  lemma GapScan(t: Text, i: nat, s: Scan)
    requires i <= |t| && Outside(s) && SkipWs(t, i) < |t|
    requires t[SkipWs(t, i)] == ',' as int || t[SkipWs(t, i)] == ':' as int
    ensures ScanRange(s, t, i, SkipWs(t, i) + 1) == s
    ensures ScanRange(s, t, i, SkipWs(t, SkipWs(t, i) + 1)) == s
  {
    var j := SkipWs(t, i);
    SkipsWs(t, i);
    SkipsWs(t, j + 1);
    ScanSpaces(s, t, i, j + 1);
    ScanSpaces(s, t, i, SkipWs(t, j + 1));
  }

  /** Whitespace and the closer of the innermost bracket. */
  lemma CloseScan(t: Text, i: nat, s: Scan, open: char)
    requires i <= |t| && Outside(s) && (open == '{' || open == '[')
    requires SkipWs(t, i) < |t| && t[SkipWs(t, i)] == Closer(open as int)
    ensures ScanRange(Push(s, open), t, i, SkipWs(t, i) + 1) == s
  {
    var j := SkipWs(t, i);
    WsScan(t, i, Push(s, open));
    ScanSplit(Push(s, open), t, i, j, j + 1);
    assert ScanRange(Push(s, open), t, j, j + 1) == ScanStep(Push(s, open), t[j]);
    assert (s.stack + [open as int])[..|s.stack|] == s.stack;
  }

  lemma {:induction false} ValueScan(t: Text, i: nat, s: Scan)
    requires ParseValue(t, i).Done? && Outside(s)
    ensures ScanRange(s, t, i, ParseValue(t, i).end) == s
    decreases |t| - i, 0
  {
    if t[i] == '"' as int {
      StringScan(t, i + 1, s);
    } else if t[i] == '[' as int {
      ArrayScan(t, i + 1, s);
    } else if t[i] == '{' as int {
      ObjectScan(t, i + 1, s);
    } else {
      ScalarScan(t, i, s);
    }
  }

  lemma {:induction false} ArrayScan(t: Text, i: nat, s: Scan)
    requires i <= |t| && ParseArray(t, i).Done? && Outside(s)
    ensures ScanRange(Push(s, '['), t, i, ParseArray(t, i).end) == s
    decreases |t| - i, 3
  {
    var j := SkipWs(t, i);
    if At(t, j, ']') {
      CloseScan(t, i, s, '[');
    } else {
      WsScan(t, i, Push(s, '['));
      ElemsScan(t, j, s);
      ScanSplit(Push(s, '['), t, i, j, ParseArray(t, i).end);
    }
  }

  lemma {:induction false} ElemsScan(t: Text, i: nat, s: Scan)
    requires ParseElems(t, i).Done? && Outside(s)
    ensures ScanRange(Push(s, '['), t, i, ParseElems(t, i).end) == s
    decreases |t| - i, 2
  {
    var v := ParseValue(t, i);
    ValueScan(t, i, Push(s, '['));
    AfterElemScan(t, v.value, v.end, s);
    ScanSplit(Push(s, '['), t, i, v.end, ParseElems(t, i).end);
  }

  lemma {:induction false} AfterElemScan(t: Text, v: Json, e: nat, s: Scan)
    requires e <= |t| && AfterElem(t, v, e).Done? && Outside(s)
    ensures ScanRange(Push(s, '['), t, e, AfterElem(t, v, e).end) == s
    decreases |t| - e, 3
  {
    var j := SkipWs(t, e);
    if At(t, j, ']') {
      CloseScan(t, e, s, '[');
    } else {
      GapScan(t, e, Push(s, '['));
      ElemsScan(t, SkipWs(t, j + 1), s);
      ScanSplit(Push(s, '['), t, e, SkipWs(t, j + 1), AfterElem(t, v, e).end);
    }
  }

  lemma {:induction false} ObjectScan(t: Text, i: nat, s: Scan)
    requires i <= |t| && ParseObject(t, i).Done? && Outside(s)
    ensures ScanRange(Push(s, '{'), t, i, ParseObject(t, i).end) == s
    decreases |t| - i, 3
  {
    var j := SkipWs(t, i);
    if At(t, j, '}') {
      CloseScan(t, i, s, '{');
    } else {
      WsScan(t, i, Push(s, '{'));
      MembersScan(t, j, s);
      ScanSplit(Push(s, '{'), t, i, j, ParseObject(t, i).end);
    }
  }

  /** A quoted key, the colon and the space up to the value. */
  lemma KeyScan(t: Text, i: nat, s: Scan)
    requires At(t, i, '"') && StringBody(t, i + 1).Done? && Outside(s)
    requires At(t, SkipWs(t, StringBody(t, i + 1).end), ':')
    ensures ScanRange(s, t, i, SkipWs(t, SkipWs(t, StringBody(t, i + 1).end) + 1)) == s
  {
    var e := StringBody(t, i + 1).end;
    StringScan(t, i + 1, s);
    GapScan(t, e, s);
    ScanSplit(s, t, i, e, SkipWs(t, SkipWs(t, e) + 1));
  }

  lemma {:induction false} MemberScan(t: Text, i: nat, s: Scan)
    requires ParseMember(t, i).Done? && Outside(s)
    ensures ScanRange(s, t, i, ParseMember(t, i).end) == s
    decreases |t| - i, 1
  {
    hide ParseValue, StringBody, SkipWs, ScanRange;
    var k := SkipWs(t, SkipWs(t, StringBody(t, i + 1).end) + 1);
    KeyScan(t, i, s);
    ValueScan(t, k, s);
    ScanSplit(s, t, i, k, ParseMember(t, i).end);
  }

  lemma {:induction false} MembersScan(t: Text, i: nat, s: Scan)
    requires ParseMembers(t, i).Done? && Outside(s)
    ensures ScanRange(Push(s, '{'), t, i, ParseMembers(t, i).end) == s
    decreases |t| - i, 2
  {
    var m := ParseMember(t, i);
    MemberScan(t, i, Push(s, '{'));
    AfterMemberScan(t, m.value, m.end, s);
    ScanSplit(Push(s, '{'), t, i, m.end, ParseMembers(t, i).end);
  }

  lemma {:induction false} AfterMemberScan(t: Text, m: (Text, Json), e: nat, s: Scan)
    requires e <= |t| && AfterMember(t, m, e).Done? && Outside(s)
    ensures ScanRange(Push(s, '{'), t, e, AfterMember(t, m, e).end) == s
    decreases |t| - e, 3
  {
    var j := SkipWs(t, e);
    if At(t, j, '}') {
      CloseScan(t, e, s, '{');
    } else {
      GapScan(t, e, Push(s, '{'));
      MembersScan(t, SkipWs(t, j + 1), s);
      ScanSplit(Push(s, '{'), t, e, SkipWs(t, j + 1), AfterMember(t, m, e).end);
    }
  }
}
