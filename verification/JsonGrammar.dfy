/** What the parser accepts is exactly the JSON grammar: a text parses to a value exactly
    when it is a way to write that value. */
module JsonGrammar {
  import opened Basics
  import opened Json
  import opened JsonText

  // ----- strings

  /** Where a string does not end, the parser reads a spelling of its next code point. */
  lemma PieceOf(t: Text, i: nat) returns (x: Text)
    requires StringBody(t, i).Done? && t[i] != 0x22
    ensures Here(t, i, x)
    ensures var s, rest := StringBody(t, i), StringBody(t, i + |x|);
            && rest.Done? && s.end == rest.end && s.value != [] && s.value[1..] == rest.value
            && Spells(x, s.value[0])
            && (|x| == 6 && 0xD800 <= s.value[0] <= 0xDBFF && At(t, i + 6, '\\') && At(t, i + 7, 'u') ==>
                  Hex4(t, i + 8).Some? && !(0xDC00 <= Hex4(t, i + 8).value <= 0xDFFF))
  {
    hide Hex4, UnicodeEscape;
    var s := StringBody(t, i);
    if t[i] != 0x5C {
      x := [t[i]];
      assert t[i..i + 1] == x;
    } else if SimpleEscape(t[i + 1]).Some? {
      x := t[i..i + 2];
      ShortEscapeIff(t[i + 1], s.value[0]);
    } else {
      var h := Hex4(t, i + 2).value;
      assert s == UnicodeBody(t, i + 6, h);
      UnicodeEscapeIff(t, i, h);
      if IsHigh(h) && At(t, i + 6, '\\') && At(t, i + 7, 'u') && IsLow(Hex4(t, i + 8).value) {
        var l := Hex4(t, i + 8).value;
        UnicodeEscapeIff(t, i + 6, l);
        x := t[i..i + 12];
        assert x[..6] == t[i..i + 6] && x[6..] == t[i + 6..i + 12];
        PairValue(h, l);
      } else {
        x := t[i..i + 6];
      }
    }
  }

  lemma ShortEscapeIff(e: Code, c: Code)
    ensures SimpleEscape(e) == Some(c) <==> ShortEscape(e, c)
  {
  }

  lemma PairValue(h: nat, l: nat)
    requires 0xD800 <= h <= 0xDBFF && 0xDC00 <= l <= 0xDFFF
    ensures var c := 0x10000 + (h - 0xD800) * 0x400 + (l - 0xDC00);
            h == 0xD800 + (c - 0x10000) / 0x400 && l == 0xDC00 + (c - 0x10000) % 0x400
  {
  }

  /** A parsed string is a spelling of its value. */
  lemma {:induction false} StringOf(t: Text, i: nat) returns (w: Spelled)
    requires StringBody(t, i).Done?
    ensures GoodString(w) && w.s == StringBody(t, i).value
    ensures Here(t, i, Flat(w.pieces) + [0x22]) && StringBody(t, i).end == i + |Flat(w.pieces)| + 1
    decreases |t| - i
  {
    hide StringBody, Here, Spells, Hex4, UnicodeEscape;
    StringStarts(t, i);
    if t[i] == 0x22 {
      w := Spelled([], []);
      assert Flat([]) + [0x22] == [0x22];
    } else {
      var x := PieceOf(t, i);
      var rest := StringOf(t, i + |x|);
      var s := StringBody(t, i).value;
      w := Spelled([x] + rest.pieces, [s[0]] + rest.s);
      FlatCons(x, rest.pieces);
      HereJoin(t, i, x, Flat(rest.pieces) + [0x22]);
      assert x + (Flat(rest.pieces) + [0x22]) == Flat(w.pieces) + [0x22];
      if rest.s != [] { NoPairAt(t, i, x, s[0], rest); }
      GoodCons(x, s[0], rest);
    }
  }

  lemma StringStarts(t: Text, i: nat)
    requires StringBody(t, i).Done?
    ensures i < |t|
    ensures t[i] == 0x22 ==> StringBody(t, i) == Done([], i + 1) && Here(t, i, [0x22])
  {
    assert t[i..i + 1] == [t[i]];
  }

  lemma NoPairAt(t: Text, i: nat, x: Text, c: Code, rest: Spelled)
    requires |x| == 6 && 0xD800 <= c <= 0xDBFF && At(t, i + 6, '\\') && At(t, i + 7, 'u') ==>
               Hex4(t, i + 8).Some? && !(0xDC00 <= Hex4(t, i + 8).value <= 0xDFFF)
    requires GoodString(rest) && rest.s != [] && Here(t, i + |x|, Flat(rest.pieces) + [0x22])
    ensures !Pairs(x, c, rest.pieces[0], rest.s[0])
  {
    hide Hex4;
    var y := rest.pieces[0];
    if |x| == 6 && |y| == 6 {
      assert Flat(rest.pieces) + [0x22] == y + (Flat(rest.pieces[1..]) + [0x22]);
      HereSplit(t, i + 6, y, Flat(rest.pieces[1..]) + [0x22]);
      assert Spells(y, rest.s[0]);
      UnicodeEscapeIff(t, i + 6, rest.s[0]);
    }
  }

  lemma GoodCons(x: Text, c: Code, rest: Spelled)
    requires Spells(x, c) && GoodString(rest) && (rest.s != [] ==> !Pairs(x, c, rest.pieces[0], rest.s[0]))
    ensures GoodString(Spelled([x] + rest.pieces, [c] + rest.s))
  {
    hide Spells, Pairs;
    var w := Spelled([x] + rest.pieces, [c] + rest.s);
    forall k | 1 < k < |w.s|
      ensures !PairsAt(w, k)
    {
      assert !PairsAt(rest, k - 1);
    }
  }

  // ----- numbers

  ghost predicate IsNum(x: Text) {
    exists n :: GoodNum(n) && NumText(n) == x
  }

  /** The end of a number is the end of one by the grammar. */
  lemma {:induction false} NumOf(t: Text, i: nat, j: nat, s: NumState, best: Option<nat>, n: Num)
    requires i <= j <= |t| && Reads(s, n) && t[i..j] == NumText(n)
    requires best.Some? ==> i <= best.value <= j && IsNum(t[i..best.value])
    requires NumberEnd(t, j, s, best).Some?
    ensures i <= NumberEnd(t, j, s, best).value && IsNum(t[i..NumberEnd(t, j, s, best).value])
    decreases |t| - j
  {
    hide NumText;
    assert NumDone(s) ==> GoodNum(n);
    hide Reads, NumDone, GoodNum;
    var here := if NumDone(s) then Some(j) else best;
    if j < |t| && NumStep(s, t[j]).Some? {
      LongerReads(s, n, t[j]);
      LongerText(s, n, t[j]);
      assert t[i..j + 1] == t[i..j] + [t[j]];
      NumOf(t, i, j + 1, NumStep(s, t[j]).value, here, Longer(s, n, t[j]));
    }
  }

  // ----- values

  lemma {:induction false} BlankOf(t: Text, i: nat) returns (w: Text)
    requires i <= |t|
    ensures Blank(w) && Here(t, i, w) && SkipWs(t, i) == i + |w|
  {
    SkipsWs(t, i);
    w := t[i..SkipWs(t, i)];
  }

  lemma ScalarOf(t: Text, i: nat) returns (d: Doc)
    requires i < |t| && Scalar(t, i).Done?
    ensures Good(d) && Value(d) == Scalar(t, i).value
    ensures Here(t, i, Render(d)) && Scalar(t, i).end == i + |Render(d)|
  {
    var w := LiteralWord(t[i]);
    if w != "" && WordAt(t, i, w) {
      WordReads(t, i, w);
      d := DWord(w);
      WordIs(t, i, w);
    } else {
      hide NumberEnd;
      NumOf(t, i, i, Begin, None, NO_NUM);
      var n :| GoodNum(n) && NumText(n) == t[i..Scalar(t, i).end];
      d := DNum(n);
    }
  }

  lemma WordIs(t: Text, i: nat, w: string)
    requires i < |t| && w == LiteralWord(t[i]) != "" && Here(t, i, Codes(w))
    ensures w in ["null", "true", "false", "NaN", "Infinity", "-Infinity"]
    ensures LiteralValue(t[i], t[i..i + |w|]) == Value(DWord(w))
  {
    WordStarts(w);
  }

  /** A code point that stands in a text. */
  lemma CodeHere(t: Text, i: nat, c: Code)
    requires i < |t| && t[i] == c
    ensures Here(t, i, [c])
  {
  }

  lemma KeyOf(t: Text, i: nat) returns (w: Spelled)
    requires At(t, i, '"') && StringBody(t, i + 1).Done?
    ensures GoodString(w) && w.s == StringBody(t, i + 1).value
    ensures Here(t, i, Quoted(w)) && StringBody(t, i + 1).end == i + |Quoted(w)|
  {
    hide GoodString, StringBody, Here, Flat;
    w := StringOf(t, i + 1);
    CodeHere(t, i, 0x22);
    HereJoin(t, i, [0x22], Flat(w.pieces) + [0x22]);
    assert Quoted(w) == [0x22] + (Flat(w.pieces) + [0x22]);
  }

  /** A parsed value is written as one of the grammar's texts. */
  lemma {:induction false} DocOf(t: Text, i: nat) returns (d: Doc)
    requires ParseValue(t, i).Done?
    ensures Good(d) && Value(d) == ParseValue(t, i).value
    ensures Here(t, i, Render(d)) && ParseValue(t, i).end == i + |Render(d)|
    decreases Left(t, i), 0
  {
    hide Here;
    if t[i] == 0x22 {
      var w := KeyOf(t, i);
      d := DStr(w);
    } else if t[i] == 0x5B {
      d := ArrayOf(t, i);
    } else if t[i] == 0x7B {
      d := ObjectOf(t, i);
    } else {
      d := ScalarOf(t, i);
    }
  }

  /** A bracket, what stands between, and the closing bracket. */
  lemma Enclosed(t: Text, i: nat, open: Code, body: Text, close: Code)
    requires i < |t| && t[i] == open && Here(t, i + 1, body + [close])
    ensures Here(t, i, [open] + body + [close])
  {
    CodeHere(t, i, open);
    HereJoin(t, i, [open], body + [close]);
    assert [open] + (body + [close]) == [open] + body + [close];
  }

  lemma {:induction false} ArrayOf(t: Text, i: nat) returns (d: Doc)
    requires At(t, i, '[') && ParseArray(t, i + 1).Done?
    ensures d.DArr? && Good(d) && Value(d) == ParseArray(t, i + 1).value
    ensures Here(t, i, Render(d)) && ParseArray(t, i + 1).end == i + |Render(d)|
    decreases Left(t, i + 1), 3
  {
    hide ParseElems, SkipWs, Here, Blank, GoodItem, RenderItems;
    if At(t, SkipWs(t, i + 1), ']') {
      var gap := BlankOf(t, i + 1);
      LastHere(t, i + 1, gap, 0x5D);
      Enclosed(t, i, 0x5B, gap, 0x5D);
      d := DArr(gap, []);
    } else {
      var xs := ItemsOf(t, i + 1);
      Enclosed(t, i, 0x5B, RenderItems(xs), 0x5D);
      d := DArr([], xs);
      EmptyBlank();
    }
  }

  lemma EmptyBlank()
    ensures Blank([])
  {
  }

  /** A value and the whitespace around it. */
  lemma {:induction false} ItemOf(t: Text, i: nat) returns (x: Item)
    requires i <= |t| && ParseValue(t, SkipWs(t, i)).Done?
    ensures var v := ParseValue(t, SkipWs(t, i));
            && GoodItem(x) && Value(x.doc) == v.value && Here(t, i, RenderItem(x))
            && SkipWs(t, v.end) == i + |RenderItem(x)|
    decreases Left(t, i), 1
  {
    hide ParseValue, SkipWs, Here, Blank, Good, Value, Render;
    var b := BlankOf(t, i);
    var p := SkipWs(t, i);
    var d := DocOf(t, p);
    var a := BlankOf(t, ParseValue(t, p).end);
    HereJoin(t, i, b, Render(d));
    HereJoin(t, i, b + Render(d), a);
    x := Item(b, d, a);
  }

  lemma {:induction false} ItemsOf(t: Text, i: nat) returns (xs: seq<Item>)
    requires i <= |t| && ParseElems(t, SkipWs(t, i)).Done?
    ensures var es := ParseElems(t, SkipWs(t, i));
            && xs != [] && (forall x | x in xs :: GoodItem(x)) && Values(xs) == es.value
            && Here(t, i, RenderItems(xs) + [0x5D]) && es.end == i + |RenderItems(xs)| + 1
    decreases Left(t, i), 2
  {
    hide ParseElems, ParseValue, SkipWs, Here, Value, GoodItem, RenderItems, RenderItem;
    var p := SkipWs(t, i);
    FirstElem(t, p);
    var x := ItemOf(t, i);
    var e := i + |RenderItem(x)|;
    if t[e] == 0x5D {
      xs := [x];
      LastElem(t, p, e);
      LastHere(t, i, RenderItem(x), 0x5D);
      assert Values([x]) == [Value(x.doc)] by { assert [x][1..] == []; }
    } else {
      NextElem(t, p, e);
      var rest := ItemsOf(t, e + 1);
      xs := [x] + rest;
      assert xs[1..] == rest;
      MoreHere(t, i, RenderItem(x), RenderItems(rest), 0x5D);
    }
    ItemsUnfold(xs);
  }

  lemma FirstElem(t: Text, p: nat)
    requires ParseElems(t, p).Done?
    ensures ParseValue(t, p).Done?
    ensures var e := SkipWs(t, ParseValue(t, p).end);
            && e < |t| && (t[e] == 0x5D || t[e] == 0x2C)
            && (t[e] == 0x2C ==> ParseElems(t, SkipWs(t, e + 1)).Done?)
  {
    hide ParseValue, SkipWs;
  }

  lemma LastHere(t: Text, i: nat, a: Text, close: Code)
    requires Here(t, i, a) && i + |a| < |t| && t[i + |a|] == close
    ensures Here(t, i, a + [close])
  {
    CodeHere(t, i + |a|, close);
    HereJoin(t, i, a, [close]);
  }

  lemma MoreHere(t: Text, i: nat, a: Text, b: Text, close: Code)
    requires Here(t, i, a) && i + |a| < |t| && t[i + |a|] == 0x2C && Here(t, i + |a| + 1, b + [close])
    ensures Here(t, i, a + ([0x2C] + b) + [close])
  {
    CodeHere(t, i + |a|, 0x2C);
    HereJoin(t, i + |a|, [0x2C], b + [close]);
    HereJoin(t, i, a, [0x2C] + (b + [close]));
    assert a + ([0x2C] + (b + [close])) == a + ([0x2C] + b) + [close];
  }

  lemma {:induction false} ObjectOf(t: Text, i: nat) returns (d: Doc)
    requires At(t, i, '{') && ParseObject(t, i + 1).Done?
    ensures d.DObj? && Good(d) && Value(d) == ParseObject(t, i + 1).value
    ensures Here(t, i, Render(d)) && ParseObject(t, i + 1).end == i + |Render(d)|
    decreases Left(t, i + 1), 4
  {
    hide ParseMembers, SkipWs, Here, Blank, GoodField, RenderFields;
    if At(t, SkipWs(t, i + 1), '}') {
      var gap := BlankOf(t, i + 1);
      LastHere(t, i + 1, gap, 0x7D);
      Enclosed(t, i, 0x7B, gap, 0x7D);
      d := DObj(gap, []);
    } else {
      var ms := FieldsOf(t, i + 1);
      Enclosed(t, i, 0x7B, RenderFields(ms), 0x7D);
      d := DObj([], ms);
      EmptyBlank();
    }
  }

  lemma MemberParts(t: Text, p: nat)
    requires ParseMember(t, p).Done?
    ensures At(t, p, '"') && StringBody(t, p + 1).Done?
    ensures var c := SkipWs(t, StringBody(t, p + 1).end);
            && At(t, c, ':') && ParseValue(t, SkipWs(t, c + 1)).Done?
            && ParseMember(t, p).value == (StringBody(t, p + 1).value, ParseValue(t, SkipWs(t, c + 1)).value)
            && ParseMember(t, p).end == ParseValue(t, SkipWs(t, c + 1)).end
  {
    hide ParseValue, StringBody, SkipWs;
  }

  /** A member and the whitespace around it. */
  lemma {:induction false} FieldOf(t: Text, i: nat) returns (m: Field)
    requires i <= |t| && ParseMember(t, SkipWs(t, i)).Done?
    ensures var r := ParseMember(t, SkipWs(t, i));
            && GoodField(m) && (m.key.s, Value(m.item.doc)) == r.value && Here(t, i, RenderField(m))
            && SkipWs(t, r.end) == i + |RenderField(m)|
    decreases Left(t, i), 2
  {
    hide ParseMember, ParseValue, StringBody, SkipWs, Here, Blank, GoodItem, GoodString, Value, RenderItem, Quoted;
    var lead := BlankOf(t, i);
    var p := SkipWs(t, i);
    MemberParts(t, p);
    var key := KeyOf(t, p);
    var k := p + |Quoted(key)|;
    var mid := BlankOf(t, k);
    var c := k + |mid|;
    var x := ItemOf(t, c + 1);
    m := Field(lead, key, mid, x);
    HereJoin(t, i, lead, Quoted(key));
    HereJoin(t, i, lead + Quoted(key), mid);
    LastHere(t, i, lead + Quoted(key) + mid, 0x3A);
    HereJoin(t, i, lead + Quoted(key) + mid + [0x3A], RenderItem(x));
  }

  lemma {:induction false} FieldsOf(t: Text, i: nat) returns (ms: seq<Field>)
    requires i <= |t| && ParseMembers(t, SkipWs(t, i)).Done?
    ensures var es := ParseMembers(t, SkipWs(t, i));
            && ms != [] && (forall m | m in ms :: GoodField(m)) && Members(ms) == es.value
            && Here(t, i, RenderFields(ms) + [0x7D]) && es.end == i + |RenderFields(ms)| + 1
    decreases Left(t, i), 3
  {
    hide ParseMembers, ParseMember, SkipWs, Here, Value, GoodField, RenderFields, RenderField;
    var p := SkipWs(t, i);
    FirstMember(t, p);
    var m := FieldOf(t, i);
    var e := i + |RenderField(m)|;
    if t[e] == 0x7D {
      ms := [m];
      LastMember(t, p, e);
      LastHere(t, i, RenderField(m), 0x7D);
      assert Members([m]) == [(m.key.s, Value(m.item.doc))] by { assert [m][1..] == []; }
    } else {
      NextMember(t, p, e);
      var rest := FieldsOf(t, e + 1);
      ms := [m] + rest;
      assert ms[1..] == rest;
      MoreHere(t, i, RenderField(m), RenderFields(rest), 0x7D);
    }
    FieldsUnfold(ms);
  }

  lemma FirstMember(t: Text, p: nat)
    requires ParseMembers(t, p).Done?
    ensures ParseMember(t, p).Done?
    ensures var e := SkipWs(t, ParseMember(t, p).end);
            && e < |t| && (t[e] == 0x7D || t[e] == 0x2C)
            && (t[e] == 0x2C ==> ParseMembers(t, SkipWs(t, e + 1)).Done?)
  {
    hide ParseMember, SkipWs;
  }

  // ----- texts

  /** `t` is a way to write `v`. */
  ghost predicate Writes(t: Text, v: Json) {
    exists b, d, a :: TextOf(t, v, b, d, a)
  }

  lemma WrittenAs(t: Text, v: Json) returns (b: Text, d: Doc, a: Text)
    requires ParseDoc(t) == Some(v)
    ensures TextOf(t, v, b, d, a)
  {
    hide ParseValue, SkipWs, Here, Blank, Good, Value, Render;
    b := BlankOf(t, 0);
    var p := SkipWs(t, 0);
    d := DocOf(t, p);
    a := BlankOf(t, ParseValue(t, p).end);
    HereJoin(t, 0, b, Render(d));
    HereJoin(t, 0, b + Render(d), a);
    HereWhole(t, b + Render(d) + a);
  }

  lemma HereWhole(t: Text, x: Text)
    requires Here(t, 0, x) && |x| == |t|
    ensures t == x
  {
    assert t[0..|t|] == t;
  }

  /** A text parses to a value exactly when it is a way to write it. */
  lemma ParseDocIff(t: Text, v: Json)
    ensures ParseDoc(t) == Some(v) <==> Writes(t, v)
  {
    hide ParseDoc, TextOf;
    if ParseDoc(t) == Some(v) {
      var b, d, a := WrittenAs(t, v);
    }
    if Writes(t, v) {
      var b, d, a :| TextOf(t, v, b, d, a);
      TextReads(t, v, b, d, a);
    }
  }

  /** Code points spelled one after the other read as themselves exactly when no escape of a
      high surrogate stands before that of a low one. */
  lemma SpelledReadsIff(w: Spelled)
    requires AllSpelled(w)
    ensures ParseDoc(Quoted(w)) == Some(JStr(w.s))
       <==> forall k | 0 < k < |w.s| :: !PairsAt(w, k)
  {
    hide Spells, StringBody, Pairs, Joined, Flat;
    JoinedIff(w);
    var t := Quoted(w);
    assert t == [0x22] + (Flat(w.pieces) + [0x22]);
    WholeHere(t);
    HereSplit(t, 0, [0x22], Flat(w.pieces) + [0x22]);
    JoinedReads(t, 1, w);
    assert SkipWs(t, 0) == 0 && SkipWs(t, |t|) == |t|;
  }
}
