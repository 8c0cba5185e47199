/** The JSON grammar (RFC 8259, with Python's NaN and infinities) as a syntax of texts: every
    way to write a value, with its choice of spellings and of whitespace; and the parser
    reads each of them back. */
module JsonText {
  import opened Basics
  import opened Json
  import opened JsonLocal

  /** `x` stands in `t` at `i`. */
  predicate Here(t: Text, i: nat, x: Text) {
    i + |x| <= |t| && t[i..i + |x|] == x
  }

  lemma HereSplit(t: Text, i: nat, a: Text, b: Text)
    requires Here(t, i, a + b)
    ensures Here(t, i, a) && Here(t, i + |a|, b)
  {
    var w := t[i..i + |a + b|];
    assert w[..|a|] == a && w[|a|..] == b;
  }

  lemma HereJoin(t: Text, i: nat, a: Text, b: Text)
    requires Here(t, i, a) && Here(t, i + |a|, b)
    ensures Here(t, i, a + b)
  {
    assert t[i..i + |a + b|] == t[i..i + |a|] + t[i + |a|..i + |a| + |b|];
  }

  lemma HereIndex(t: Text, i: nat, x: Text, k: nat)
    requires Here(t, i, x) && k < |x|
    ensures i + k < |t| && t[i + k] == x[k]
  {
    assert t[i + k] == t[i..i + |x|][k];
  }

  lemma HereLast(t: Text, i: nat, c: Code)
    requires Here(t, i, [c])
    ensures i < |t| && t[i] == c
  {
    HereIndex(t, i, [c], 0);
  }

  // ----- strings, section 7

  /** A hexadecimal digit worth `v`, in either case. */
  predicate HexDigit(c: Code, v: nat) {
    (v < 10 && c == 0x30 + v) || (10 <= v < 16 && (c == 0x41 + v - 10 || c == 0x61 + v - 10))
  }

  /** A backslash, `u` and four digits worth `n`. */
  ghost predicate UnicodeEscape(x: Text, n: nat) {
    && |x| == 6 && x[0] == 0x5C && x[1] == 0x75
    && exists a: nat, b: nat, c: nat, d: nat ::
      && HexDigit(x[2], a) && HexDigit(x[3], b) && HexDigit(x[4], c) && HexDigit(x[5], d)
      && n == 0x1000 * a + 0x100 * b + 0x10 * c + d
  }

  /** What a code point after a backslash stands for: quote, backslash, slash, backspace,
      form feed, line feed, carriage return, tab. */
  predicate ShortEscape(e: Code, c: Code) {
    || (e == 0x22 && c == 0x22)
    || (e == 0x5C && c == 0x5C)
    || (e == 0x2F && c == 0x2F)
    || (e == 0x62 && c == 0x08)
    || (e == 0x66 && c == 0x0C)
    || (e == 0x6E && c == 0x0A)
    || (e == 0x72 && c == 0x0D)
    || (e == 0x74 && c == 0x09)
  }

  /** The ways to write one code point: as itself, by a short escape, by a `\u` escape, or
      above U+FFFF by the escapes of a surrogate pair. */
  ghost predicate Spells(x: Text, c: Code) {
    || (x == [c] && c >= 0x20 && c != 0x22 && c != 0x5C)
    || (|x| == 2 && x[0] == 0x5C && ShortEscape(x[1], c))
    || UnicodeEscape(x, c)
    || (|x| == 12 && c >= 0x10000 && UnicodeEscape(x[..6], 0xD800 + (c - 0x10000) / 0x400)
        && UnicodeEscape(x[6..], 0xDC00 + (c - 0x10000) % 0x400))
  }

  /** The escape of a high surrogate before that of a low one: together they are the pair. */
  predicate Pairs(x: Text, c: Code, x': Text, c': Code) {
    |x| == 6 && 0xD800 <= c <= 0xDBFF && |x'| == 6 && 0xDC00 <= c' <= 0xDFFF
  }

  /** A string with the way each of its code points is written. */
  datatype Spelled = Spelled(pieces: seq<Text>, s: Text)

  ghost predicate AllSpelled(w: Spelled) {
    |w.pieces| == |w.s| && forall k | 0 <= k < |w.s| :: Spells(w.pieces[k], w.s[k])
  }

  predicate PairsAt(w: Spelled, k: nat)
    requires |w.pieces| == |w.s| && 0 < k < |w.s|
  {
    Pairs(w.pieces[k - 1], w.s[k - 1], w.pieces[k], w.s[k])
  }

  ghost predicate GoodString(w: Spelled) {
    AllSpelled(w) && forall k | 0 < k < |w.s| :: !PairsAt(w, k)
  }

  function Flat(pieces: seq<Text>): Text {
    if pieces == [] then [] else pieces[0] + Flat(pieces[1..])
  }

  /** The text of a string: its pieces between quotes. */
  function Quoted(w: Spelled): Text {
    [0x22] + Flat(w.pieces) + [0x22]
  }

  // ----- numbers, section 6

  predicate Digits(x: Text) {
    x != [] && forall k | 0 <= k < |x| :: 0x30 <= x[k] <= 0x39
  }

  /** An optional minus, the integer part, the point and the fraction, the `e`, its sign and
      the exponent. */
  datatype Num = Num(minus: bool, whole: Text, point: bool, frac: Text, mark: Text, sign: Text, exp: Text)

  predicate Whole(n: Num) {
    Digits(n.whole) && (|n.whole| > 1 ==> n.whole[0] != 0x30)
  }

  predicate Fraction(n: Num) {
    if n.point then Digits(n.frac) else n.frac == []
  }

  predicate IsMark(x: Text) {
    x == [0x65] || x == [0x45]
  }

  predicate IsSign(x: Text) {
    x == [0x2B] || x == [0x2D]
  }

  predicate GoodNum(n: Num) {
    && Whole(n) && Fraction(n)
    && if n.mark == [] then n.sign == [] && n.exp == []
       else IsMark(n.mark) && (n.sign == [] || IsSign(n.sign)) && Digits(n.exp)
  }

  function NumText(n: Num): Text {
    (if n.minus then [0x2D] else []) + n.whole + (if n.point then [0x2E] else []) + n.frac + n.mark + n.sign + n.exp
  }

  // ----- values, sections 2 to 5

  /** A value as it is written. A gap is the whitespace in an empty array or object. */
  datatype Doc =
    | DWord(word: string)
    | DNum(num: Num)
    | DStr(str: Spelled)
    | DArr(gap: Text, items: seq<Item>)
    | DObj(hole: Text, fields: seq<Field>)

  /** An element, or a member with its key, and the whitespace around their parts. */
  datatype Item = Item(before: Text, doc: Doc, after: Text)

  datatype Field = Field(lead: Text, key: Spelled, mid: Text, item: Item)

  predicate Blank(x: Text) {
    forall k | 0 <= k < |x| :: x[k] == 0x20 || x[k] == 0x09 || x[k] == 0x0A || x[k] == 0x0D
  }

  ghost predicate Good(d: Doc) {
    match d
    case DWord(w) => w in ["null", "true", "false", "NaN", "Infinity", "-Infinity"]
    case DNum(n) => GoodNum(n)
    case DStr(w) => GoodString(w)
    case DArr(gap, items) => Blank(gap) && forall x | x in items :: GoodItem(x)
    case DObj(gap, fields) => Blank(gap) && forall m | m in fields :: GoodField(m)
  }

  ghost predicate GoodItem(x: Item) {
    Blank(x.before) && Good(x.doc) && Blank(x.after)
  }

  ghost predicate GoodField(m: Field) {
    Blank(m.lead) && GoodString(m.key) && Blank(m.mid) && GoodItem(m.item)
  }

  function Render(d: Doc): Text {
    match d
    case DWord(w) => Codes(w)
    case DNum(n) => NumText(n)
    case DStr(w) => Quoted(w)
    case DArr(gap, items) => [0x5B] + (if items == [] then gap else RenderItems(items)) + [0x5D]
    case DObj(gap, fields) => [0x7B] + (if fields == [] then gap else RenderFields(fields)) + [0x7D]
  }

  function RenderItem(x: Item): Text {
    x.before + Render(x.doc) + x.after
  }

  function RenderItems(xs: seq<Item>): Text {
    if xs == [] then []
    else RenderItem(xs[0]) + if |xs| == 1 then [] else [0x2C] + RenderItems(xs[1..])
  }

  function RenderField(m: Field): Text {
    m.lead + Quoted(m.key) + m.mid + [0x3A] + RenderItem(m.item)
  }

  function RenderFields(ms: seq<Field>): Text {
    if ms == [] then []
    else RenderField(ms[0]) + if |ms| == 1 then [] else [0x2C] + RenderFields(ms[1..])
  }

  function Value(d: Doc): Json {
    match d
    case DWord(w) =>
      if w == "null" then JNull
      else if w == "true" then JBool(true)
      else if w == "false" then JBool(false)
      else JNum(Codes(w))
    case DNum(n) => JNum(NumText(n))
    case DStr(w) => JStr(w.s)
    case DArr(_, items) => JArr(Values(items))
    case DObj(_, fields) => JObj(Members(fields))
  }

  function Values(xs: seq<Item>): (vs: seq<Json>)
    ensures |vs| == |xs| && forall i | 0 <= i < |xs| :: vs[i] == Value(xs[i].doc)
  {
    if xs == [] then [] else [Value(xs[0].doc)] + Values(xs[1..])
  }

  function Members(ms: seq<Field>): (vs: seq<(Text, Json)>)
    ensures |vs| == |ms| && forall i | 0 <= i < |ms| :: vs[i] == (ms[i].key.s, Value(ms[i].item.doc))
  {
    if ms == [] then [] else [(ms[0].key.s, Value(ms[0].item.doc))] + Members(ms[1..])
  }

  /** `t` is a text of the value `v`, with the whitespace `b` before and `a` after it. */
  ghost predicate TextOf(t: Text, v: Json, b: Text, d: Doc, a: Text) {
    Blank(b) && Good(d) && Blank(a) && Value(d) == v && t == b + Render(d) + a
  }

  // ----- a string reads back

  lemma HexDigitIff(c: Code, v: nat)
    ensures HexValue(c) == Some(v) <==> HexDigit(c, v)
  {
  }

  lemma HexSteps(t: Text, i: nat)
    requires i + 4 <= |t|
    ensures var a, b, c, d := HexValue(t[i]), HexValue(t[i + 1]), HexValue(t[i + 2]), HexValue(t[i + 3]);
            Hex4(t, i) == if a.Some? && b.Some? && c.Some? && d.Some?
                          then Some(0x1000 * a.value + 0x100 * b.value + 0x10 * c.value + d.value) else None
  {
    hide HexValue;
    assert Hex(t, i, 4, 0) == if HexValue(t[i]).None? then None else Hex(t, i + 1, 3, HexValue(t[i]).value);
  }

  lemma UnicodeEscapeIff(t: Text, i: nat, n: nat)
    requires i + 6 <= |t|
    ensures UnicodeEscape(t[i..i + 6], n) <==> t[i] == 0x5C && t[i + 1] == 0x75 && Hex4(t, i + 2) == Some(n)
  {
    HexSteps(t, i + 2);
    forall c: Code, v: nat
      ensures HexValue(c) == Some(v) <==> HexDigit(c, v)
    {
      HexDigitIff(c, v);
    }
    hide HexValue, HexDigit, Hex4;
    var x := t[i..i + 6];
    assert x[0] == t[i] && x[1] == t[i + 1] && x[2] == t[i + 2] && x[3] == t[i + 3] && x[4] == t[i + 4]
           && x[5] == t[i + 5];
    if Hex4(t, i + 2) == Some(n) {
      assert HexDigit(x[2], HexValue(x[2]).value) && HexDigit(x[3], HexValue(x[3]).value)
             && HexDigit(x[4], HexValue(x[4]).value) && HexDigit(x[5], HexValue(x[5]).value);
    }
  }

  lemma FlatCons(x: Text, xs: seq<Text>)
    ensures Flat([x] + xs) == x + Flat(xs)
  {
    assert ([x] + xs)[1..] == xs;
  }

  lemma QuoteEnds(t: Text, i: nat)
    requires Here(t, i, [0x22])
    ensures StringBody(t, i) == Done([], i + 1)
  {
    HereIndex(t, i, [0x22], 0);
  }

  /** The parser reads one piece and goes on behind it, unless its escape pairs with the
      next. */
  lemma PieceReads(t: Text, i: nat, x: Text, c: Code)
    requires Here(t, i, x) && Spells(x, c)
    requires |x| == 6 && 0xD800 <= c <= 0xDBFF && At(t, i + 6, '\\') && At(t, i + 7, 'u') ==>
               Hex4(t, i + 8).Some? && !(0xDC00 <= Hex4(t, i + 8).value <= 0xDFFF)
    ensures StringBody(t, i) == Prepend(c, StringBody(t, i + |x|))
  {
    hide Hex4;
    HereIndex(t, i, x, 0);
    if |x| == 2 {
      HereIndex(t, i, x, 1);
    } else if |x| == 6 {
      UnicodeEscapeIff(t, i, c);
      assert EscapeBody(t, i + 1) == UnicodeBody(t, i + 6, c);
    } else if |x| == 12 {
      PairReads(t, i, x, c);
    }
  }

  lemma PairReads(t: Text, i: nat, x: Text, c: Code)
    requires Here(t, i, x) && |x| == 12 && c >= 0x10000
    requires UnicodeEscape(x[..6], 0xD800 + (c - 0x10000) / 0x400)
    requires UnicodeEscape(x[6..], 0xDC00 + (c - 0x10000) % 0x400)
    ensures StringBody(t, i) == Prepend(c, StringBody(t, i + 12))
  {
    hide Hex4, UnicodeEscape;
    var h, l := 0xD800 + (c - 0x10000) / 0x400, 0xDC00 + (c - 0x10000) % 0x400;
    assert x == x[..6] + x[6..];
    HereSplit(t, i, x[..6], x[6..]);
    UnicodeEscapeIff(t, i, h);
    UnicodeEscapeIff(t, i + 6, l);
    assert EscapeBody(t, i + 1) == UnicodeBody(t, i + 6, h);
    assert c == 0x10000 + (h - 0xD800) * 0x400 + (l - 0xDC00);
  }

  /** After a high surrogate's escape an escape that follows is not a low surrogate's. */
  lemma NoPair(t: Text, i: nat, pieces: seq<Text>, s: Text)
    requires |pieces| == |s| > 0 && Spells(pieces[0], s[0]) && Here(t, i, pieces[0])
    requires !(|pieces[0]| == 6 && 0xDC00 <= s[0] <= 0xDFFF)
    requires At(t, i, '\\') && At(t, i + 1, 'u')
    ensures Hex4(t, i + 2).Some? && !(0xDC00 <= Hex4(t, i + 2).value <= 0xDFFF)
  {
    hide Hex4;
    var x, c := pieces[0], s[0];
    HereIndex(t, i, x, 0);
    if |x| == 2 {
      HereIndex(t, i, x, 1);
    } else if |x| == 6 {
      UnicodeEscapeIff(t, i, c);
    } else if |x| == 12 {
      assert x == x[..6] + x[6..];
      HereSplit(t, i, x[..6], x[6..]);
      UnicodeEscapeIff(t, i, 0xD800 + (c - 0x10000) / 0x400);
    }
  }

  function Rest(w: Spelled): Spelled
    requires w.pieces != [] && w.s != []
  {
    Spelled(w.pieces[1..], w.s[1..])
  }

  /** What the spelled code points come to once each high surrogate is joined with the low
      one behind it. */
  function Joined(w: Spelled): Text
    requires |w.pieces| == |w.s|
    decreases |w.s|
  {
    if w.s == [] then []
    else if |w.s| > 1 && PairsAt(w, 1) then
      [0x10000 + 0x400 * (w.s[0] - 0xD800) + (w.s[1] - 0xDC00)] + Joined(Rest(Rest(w)))
    else [w.s[0]] + Joined(Rest(w))
  }

  lemma {:induction false} JoinedIff(w: Spelled)
    requires |w.pieces| == |w.s|
    ensures |Joined(w)| <= |w.s|
    ensures Joined(w) == w.s <==> forall k | 0 < k < |w.s| :: !PairsAt(w, k)
    decreases |w.s|
  {
    if |w.s| > 1 && PairsAt(w, 1) {
      JoinedIff(Rest(Rest(w)));
    } else if w.s != [] {
      var r := Rest(w);
      JoinedIff(r);
      assert w.s == [w.s[0]] + r.s;
      assert forall k | 0 < k < |r.s| :: PairsAt(r, k) == PairsAt(w, k + 1);
      assert forall k | 1 < k < |w.s| :: PairsAt(w, k) == PairsAt(r, k - 1);
    }
  }

  lemma PairSpells(x: Text, c: Code, x': Text, c': Code)
    requires Spells(x, c) && Spells(x', c') && Pairs(x, c, x', c')
    ensures Spells(x + x', 0x10000 + 0x400 * (c - 0xD800) + (c' - 0xDC00))
  {
    hide UnicodeEscape;
    var p := 0x10000 + 0x400 * (c - 0xD800) + (c' - 0xDC00);
    assert (x + x')[..6] == x && (x + x')[6..] == x';
    assert c == 0xD800 + (p - 0x10000) / 0x400 && c' == 0xDC00 + (p - 0x10000) % 0x400;
  }

  lemma FirstHere(t: Text, i: nat, pieces: seq<Text>)
    requires pieces != [] && Here(t, i, Flat(pieces) + [0x22])
    ensures Here(t, i, pieces[0]) && Here(t, i + |pieces[0]|, Flat(pieces[1..]) + [0x22])
    ensures |Flat(pieces)| == |pieces[0]| + |Flat(pieces[1..])|
  {
    assert Flat(pieces) == pieces[0] + Flat(pieces[1..]);
    hide *;
    assert pieces[0] + Flat(pieces[1..]) + [0x22] == pieces[0] + (Flat(pieces[1..]) + [0x22]);
    HereSplit(t, i, pieces[0], Flat(pieces[1..]) + [0x22]);
  }

  lemma PairHere(t: Text, i: nat, pieces: seq<Text>)
    requires |pieces| > 1 && Here(t, i, Flat(pieces) + [0x22])
    ensures Here(t, i, pieces[0] + pieces[1])
    ensures Here(t, i + |pieces[0] + pieces[1]|, Flat(pieces[1..][1..]) + [0x22])
    ensures |Flat(pieces)| == |pieces[0] + pieces[1]| + |Flat(pieces[1..][1..])|
  {
    hide *;
    FirstHere(t, i, pieces);
    FirstHere(t, i + |pieces[0]|, pieces[1..]);
    HereJoin(t, i, pieces[0], pieces[1]);
  }

  /** Any spelled code points, closed by a quote, read as what they come to. */
  lemma {:induction false} JoinedReads(t: Text, i: nat, w: Spelled)
    requires AllSpelled(w) && Here(t, i, Flat(w.pieces) + [0x22])
    ensures StringBody(t, i) == Done(Joined(w), i + |Flat(w.pieces)| + 1)
    decreases |w.s|
  {
    hide StringBody, Spells, Here, Hex4, Pairs;
    if w.s == [] {
      assert Flat([]) + [0x22] == [0x22];
      QuoteEnds(t, i);
    } else if |w.s| > 1 && PairsAt(w, 1) {
      hide Flat;
      var x, y := w.pieces[0], w.pieces[1];
      PairHere(t, i, w.pieces);
      JoinedReads(t, i + |x + y|, Rest(Rest(w)));
      PairSpells(x, w.s[0], y, w.s[1]);
      PairWidth(x, w.s[0], y, w.s[1]);
      PieceReads(t, i, x + y, 0x10000 + 0x400 * (w.s[0] - 0xD800) + (w.s[1] - 0xDC00));
    } else {
      hide Flat;
      var x := w.pieces[0];
      FirstHere(t, i, w.pieces);
      JoinedReads(t, i + |x|, Rest(w));
      NoPairAhead(t, i, w);
      PieceReads(t, i, x, w.s[0]);
    }
  }

  lemma PairWidth(x: Text, c: Code, x': Text, c': Code)
    requires Pairs(x, c, x', c')
    ensures |x + x'| == 12 && 0xD800 <= c <= 0xDBFF && 0xDC00 <= c' <= 0xDFFF
  {
  }

  lemma NoPairAhead(t: Text, i: nat, w: Spelled)
    requires AllSpelled(w) && w.s != [] && Here(t, i, w.pieces[0])
    requires Here(t, i + |w.pieces[0]|, Flat(w.pieces[1..]) + [0x22])
    requires |w.s| > 1 ==> !PairsAt(w, 1)
    ensures |w.pieces[0]| == 6 && 0xD800 <= w.s[0] <= 0xDBFF && At(t, i + 6, '\\') && At(t, i + 7, 'u') ==>
              Hex4(t, i + 8).Some? && !(0xDC00 <= Hex4(t, i + 8).value <= 0xDFFF)
  {
    hide Spells, Here, Hex4;
    var tail := Flat(w.pieces[1..]);
    if |w.pieces[0]| == 6 && 0xD800 <= w.s[0] <= 0xDBFF && At(t, i + 6, '\\') && At(t, i + 7, 'u') {
      if |w.s| == 1 {
        assert tail + [0x22] == [0x22];
        HereIndex(t, i + 6, [0x22], 0);
      } else {
        var next := Flat(w.pieces[1..][1..]) + [0x22];
        assert tail + [0x22] == w.pieces[1] + next;
        HereSplit(t, i + 6, w.pieces[1], next);
        NoPair(t, i + 6, w.pieces[1..], w.s[1..]);
      }
    }
  }

  /** Any spelling of a string, closed by a quote, reads as that string. */
  lemma StringReads(t: Text, i: nat, w: Spelled)
    requires GoodString(w) && Here(t, i, Flat(w.pieces) + [0x22])
    ensures StringBody(t, i) == Done(w.s, i + |Flat(w.pieces)| + 1)
  {
    hide Spells, Joined, Pairs;
    JoinedIff(w);
    JoinedReads(t, i, w);
  }

  // ----- a number reads back

  const NO_NUM := Num(false, [], false, [], [], [], [])

  /** The state of the number reader after each part of a number. */
  predicate Reads(s: NumState, n: Num) {
    match s
    case Begin => n == NO_NUM
    case Sign => n == NO_NUM.(minus := true)
    case Zero => n == NO_NUM.(minus := n.minus, whole := [0x30])
    case Int => n == NO_NUM.(minus := n.minus, whole := n.whole) && Digits(n.whole) && n.whole[0] != 0x30
    case Point => Whole(n) && n.point && n.frac == n.mark == n.sign == n.exp == []
    case Frac => Whole(n) && n.point && Digits(n.frac) && n.mark == n.sign == n.exp == []
    case Exp => Whole(n) && Fraction(n) && IsMark(n.mark) && n.sign == n.exp == []
    case ExpSign => Whole(n) && Fraction(n) && IsMark(n.mark) && IsSign(n.sign) && n.exp == []
    case ExpInt => GoodNum(n) && n.mark != []
  }

  /** A number with one code point more, as read in state `s`. */
  function Longer(s: NumState, n: Num, c: Code): Num {
    if IsDigit(c) then
      match s
      case Begin => n.(whole := [c])
      case Sign => n.(whole := [c])
      case Int => n.(whole := n.whole + [c])
      case Point => n.(frac := [c])
      case Frac => n.(frac := n.frac + [c])
      case _ => n.(exp := n.exp + [c])
    else if s.Begin? then n.(minus := true)
    else if s.Exp? then n.(sign := [c])
    else if c == 0x2E then n.(point := true)
    else n.(mark := [c])
  }

  lemma DigitReads(s: NumState, n: Num, c: Code)
    requires Reads(s, n) && NumStep(s, c).Some? && IsDigit(c)
    ensures Reads(NumStep(s, c).value, Longer(s, n, c))
  {
  }

  lemma MarkReads(s: NumState, n: Num, c: Code)
    requires Reads(s, n) && NumStep(s, c).Some? && !IsDigit(c)
    ensures Reads(NumStep(s, c).value, Longer(s, n, c))
  {
    assert Digits([0x30]);
    hide Digits;
  }

  /** Reading a code point keeps that. */
  lemma LongerReads(s: NumState, n: Num, c: Code)
    requires Reads(s, n) && NumStep(s, c).Some?
    ensures Reads(NumStep(s, c).value, Longer(s, n, c))
  {
    hide *;
    if IsDigit(c) { DigitReads(s, n, c); } else { MarkReads(s, n, c); }
  }

  lemma AppendExp(n: Num, c: Code)
    ensures NumText(n.(exp := n.exp + [c])) == NumText(n) + [c]
    ensures n.exp == n.sign == [] ==> NumText(n.(sign := [c])) == NumText(n) + [c]
  {
    assert forall x: Text :: x + [] == x;
    assert forall x: Text :: x + (n.exp + [c]) == x + n.exp + [c];
  }

  lemma AppendFrac(n: Num, c: Code)
    requires n.mark == n.sign == n.exp == []
    ensures NumText(n.(frac := n.frac + [c])) == NumText(n) + [c]
    ensures NumText(n.(mark := [c])) == NumText(n) + [c]
  {
    assert forall x: Text :: x + [] == x;
    assert forall x: Text :: x + (n.frac + [c]) == x + n.frac + [c];
  }

  lemma AppendWhole(n: Num, c: Code)
    requires !n.point && n.frac == n.mark == n.sign == n.exp == []
    ensures NumText(n.(whole := n.whole + [c])) == NumText(n) + [c]
    ensures c == 0x2E ==> NumText(n.(point := true)) == NumText(n) + [c]
    ensures n.whole == [] && !n.minus && c == 0x2D ==> NumText(n.(minus := true)) == NumText(n) + [c]
  {
    assert forall x: Text :: x + [] == x;
    assert forall x: Text :: x + (n.whole + [c]) == x + n.whole + [c];
  }

  lemma LongerText(s: NumState, n: Num, c: Code)
    requires Reads(s, n) && NumStep(s, c).Some?
    ensures NumText(Longer(s, n, c)) == NumText(n) + [c]
  {
    hide NumText, Digits;
    assert [] + [c] == [c];
    AppendExp(n, c);
    if n.mark == n.sign == n.exp == [] {
      AppendFrac(n, c);
      if !n.point && n.frac == [] { AppendWhole(n, c); }
    }
  }

  /** The state after reading all of `x`. */
  function Run(s: NumState, x: Text): Option<NumState>
    decreases |x|
  {
    if x == [] then Some(s)
    else if NumStep(s, x[0]).None? then None
    else Run(NumStep(s, x[0]).value, x[1..])
  }

  lemma {:induction false} RunConcat(s: NumState, a: Text, b: Text)
    requires Run(s, a).Some?
    ensures Run(s, a + b) == Run(Run(s, a).value, b)
    decreases |a|
  {
    if a == [] {
      assert a + b == b;
    } else {
      assert (a + b)[1..] == a[1..] + b;
      RunConcat(NumStep(s, a[0]).value, a[1..], b);
    }
  }

  lemma {:induction false} RunDigits(s: NumState, x: Text)
    requires s.Int? || s.Frac? || s.ExpInt?
    requires forall k | 0 <= k < |x| :: 0x30 <= x[k] <= 0x39
    ensures Run(s, x) == Some(s)
    decreases |x|
  {
    if x != [] { RunDigits(s, x[1..]); }
  }

  /** Digits go on with the part they start. */
  lemma RunPart(s: NumState, x: Text)
    requires Digits(x) && !s.Zero?
    requires s.Begin? || s.Sign? ==> |x| > 1 ==> x[0] != 0x30
    ensures Run(s, x) == Some(if s.Begin? || s.Sign? then (if x[0] == 0x30 then Zero else Int)
                              else if s.Int? then Int else if s.Point? || s.Frac? then Frac else ExpInt)
  {
    var s' := NumStep(s, x[0]).value;
    if s'.Zero? {
      assert x[1..] == [];
    } else {
      RunDigits(s', x[1..]);
    }
  }

  lemma RunOne(s: NumState, c: Code)
    ensures Run(s, [c]) == NumStep(s, c)
  {
    assert [c][1..] == [];
  }

  lemma RunExp(s: NumState, n: Num)
    requires GoodNum(n) && (s.Zero? || s.Int? || s.Frac?)
    ensures Run(s, n.mark + n.sign + n.exp).Some? && NumDone(Run(s, n.mark + n.sign + n.exp).value)
  {
    if n.mark == [] {
      assert n.mark + n.sign + n.exp == [];
    } else {
      RunOne(s, n.mark[0]);
      assert n.mark == [n.mark[0]];
      var sx := n.sign + n.exp;
      assert n.mark + n.sign + n.exp == n.mark + sx;
      RunConcat(s, n.mark, sx);
      if n.sign == [] {
        assert sx == n.exp;
        RunPart(Exp, n.exp);
      } else {
        assert n.sign == [n.sign[0]];
        RunOne(Exp, n.sign[0]);
        RunConcat(Exp, n.sign, n.exp);
        RunPart(ExpSign, n.exp);
      }
    }
  }

  lemma RunFraction(s: NumState, n: Num)
    requires GoodNum(n) && (s.Zero? || s.Int?)
    ensures var x := (if n.point then [0x2E] + n.frac else []) + (n.mark + n.sign + n.exp);
            Run(s, x).Some? && NumDone(Run(s, x).value)
  {
    var tail := n.mark + n.sign + n.exp;
    if n.point {
      RunOne(s, 0x2E);
      RunConcat(s, [0x2E], n.frac);
      RunPart(Point, n.frac);
      RunConcat(s, [0x2E] + n.frac, tail);
      RunExp(Frac, n);
    } else {
      assert [] + tail == tail;
      RunExp(s, n);
    }
  }

  lemma MinusSign()
    ensures Run(Begin, [0x2D]) == Some(Sign)
  {
    RunOne(Begin, 0x2D);
  }

  lemma NumTail(n: Num)
    ensures var tail := (if n.point then [0x2E] + n.frac else []) + (n.mark + n.sign + n.exp);
            Fraction(n) ==> NumText(n) == if n.minus then [0x2D] + (n.whole + tail) else n.whole + tail
  {
    hide Digits;
  }

  /** The reader gets through a number and can stop there. */
  lemma RunNum(n: Num)
    requires GoodNum(n)
    ensures Run(Begin, NumText(n)).Some? && NumDone(Run(Begin, NumText(n)).value)
  {
    hide NumStep, Run, Fraction, NumDone;
    var tail := (if n.point then [0x2E] + n.frac else []) + (n.mark + n.sign + n.exp);
    NumTail(n);
    var s := if n.whole[0] == 0x30 then Zero else Int;
    if n.minus {
      MinusSign();
      RunConcat(Begin, [0x2D], n.whole + tail);
      RunPart(Sign, n.whole);
      RunConcat(Sign, n.whole, tail);
    } else {
      RunPart(Begin, n.whole);
      RunConcat(Begin, n.whole, tail);
    }
    RunFraction(s, n);
  }

  lemma {:induction false} RunEnds(t: Text, i: nat, s: NumState, best: Option<nat>, x: Text)
    requires i <= |t| && (best.Some? ==> best.value <= i) && Here(t, i, x) && NumStop(t, i + |x|)
    requires Run(s, x).Some? && NumDone(Run(s, x).value)
    ensures NumberEnd(t, i, s, best) == Some(i + |x|)
    decreases |x|
  {
    if x != [] {
      HereIndex(t, i, x, 0);
      assert x == [x[0]] + x[1..];
      HereSplit(t, i, [x[0]], x[1..]);
      RunEnds(t, i + 1, NumStep(s, x[0]).value, if NumDone(s) then Some(i) else best, x[1..]);
    }
  }

  lemma NumberStarts(n: Num)
    requires GoodNum(n)
    ensures NumText(n) != []
    ensures var x := NumText(n); IsDigit(x[0]) || (x[0] == 0x2D && |x| > 1 && IsDigit(x[1]))
  {
    NumTail(n);
    hide NumText;
  }

  /** A number in the text is read whole if it is seen to stop. */
  lemma NumReads(t: Text, i: nat, n: Num)
    requires GoodNum(n) && Here(t, i, NumText(n)) && NumStop(t, i + |NumText(n)|)
    ensures ParseValue(t, i) == Done(JNum(NumText(n)), i + |NumText(n)|)
  {
    var x := NumText(n);
    RunNum(n);
    NumberStarts(n);
    RunEnds(t, i, Begin, None, x);
    HereIndex(t, i, x, 0);
    if |x| > 1 { HereIndex(t, i, x, 1); }
    ScalarNumber(t, i, i + |x|);
  }

  lemma ScalarNumber(t: Text, i: nat, e: nat)
    requires i < |t| && NumberEnd(t, i, Begin, None) == Some(e)
    requires IsDigit(t[i]) || (t[i] == 0x2D && i + 1 < |t| && IsDigit(t[i + 1]))
    ensures ParseValue(t, i) == Done(JNum(t[i..e]), e)
  {
    hide NumberEnd;
    var w := LiteralWord(t[i]);
    assert w != "" ==> !WordAt(t, i, w) by {
      assert MINUS_INFINITY_WORD[1..][0] == 'I';
    }
  }

  // ----- literal names

  lemma {:induction false} WordReads(t: Text, i: nat, w: string)
    ensures WordAt(t, i, w) <==> Here(t, i, Codes(w)) || w == ""
    decreases |w|
  {
    if w != "" {
      assert Codes(w) == [w[0] as int] + Codes(w[1..]);
      WordReads(t, i + 1, w[1..]);
      if At(t, i, w[0]) && Here(t, i + 1, Codes(w[1..])) {
        assert t[i..i + 1] == [w[0] as int];
        HereJoin(t, i, [w[0] as int], Codes(w[1..]));
      }
      if Here(t, i, Codes(w)) {
        HereIndex(t, i, Codes(w), 0);
        HereSplit(t, i, [w[0] as int], Codes(w[1..]));
      }
    }
  }

  lemma WordStarts(w: string)
    requires w in ["null", "true", "false", "NaN", "Infinity", "-Infinity"]
    ensures w != "" && w[0] !in "\"[{"
    ensures LiteralWord(w[0] as int) == w
    ensures LiteralValue(w[0] as int, Codes(w)) == Value(DWord(w))
  {
  }

  lemma LiteralReads(t: Text, i: nat, w: string)
    requires w in ["null", "true", "false", "NaN", "Infinity", "-Infinity"] && Here(t, i, Codes(w))
    ensures ParseValue(t, i) == Done(Value(DWord(w)), i + |w|)
  {
    WordStarts(w);
    WordReads(t, i, w);
    HereIndex(t, i, Codes(w), 0);
    assert t[i..i + |w|] == Codes(w);
    assert t[i] != 0x22 && t[i] != 0x5B && t[i] != 0x7B;
    hide WordAt, Here, Value, LiteralValue, LiteralWord, Codes;
  }

  // ----- a value reads back

  lemma {:induction false} BlankSkips(t: Text, i: nat, w: Text)
    requires Here(t, i, w) && Blank(w) && (i + |w| < |t| ==> !IsWs(t[i + |w|]))
    ensures SkipWs(t, i) == i + |w|
    decreases |w|
  {
    if w != [] {
      HereIndex(t, i, w, 0);
      assert w == [w[0]] + w[1..];
      HereSplit(t, i, [w[0]], w[1..]);
      BlankSkips(t, i + 1, w[1..]);
    }
  }

  lemma DocStarts(d: Doc)
    requires Good(d)
    ensures var x := Render(d);
            x != [] && x[0] != 0x20 && x[0] != 0x09 && x[0] != 0x0A && x[0] != 0x0D && x[0] != 0x5D && x[0] != 0x7D
  {
    match d
    case DNum(n) => NumberStarts(n);
    case _ =>
  }

  /** A comma or a closer stops a value. */
  predicate Stops(c: Code) {
    c == 0x2C || c == 0x5D || c == 0x7D
  }

  lemma BlankStops(t: Text, i: nat, w: Text, c: Code)
    requires Here(t, i, w) && Blank(w) && i + |w| < |t| && t[i + |w|] == c && Stops(c)
    ensures NumStop(t, i)
  {
    if w != [] { HereIndex(t, i, w, 0); }
  }

  /** A value with its whitespace, before a comma or a closer. */
  lemma {:induction false} ItemReads(t: Text, i: nat, x: Item, c: Code, d: Doc)
    requires GoodItem(x) && x.doc < d && Here(t, i, RenderItem(x))
    requires i + |RenderItem(x)| < |t| && t[i + |RenderItem(x)|] == c && Stops(c)
    ensures var p := i + |x.before|;
            var q := p + |Render(x.doc)|;
            && SkipWs(t, i) == p && p < |t| && t[p] != 0x5D && t[p] != 0x7D
            && ParseValue(t, p) == Done(Value(x.doc), q) && SkipWs(t, q) == i + |RenderItem(x)|
    decreases d, 0
  {
    hide ParseValue, Here, Value, Good, Render, Blank, SkipWs;
    var body := Render(x.doc);
    var p := i + |x.before|;
    HereSplit(t, i, x.before + body, x.after);
    HereSplit(t, i, x.before, body);
    DocStarts(x.doc);
    HereIndex(t, p, body, 0);
    BlankSkips(t, i, x.before);
    BlankSkips(t, p + |body|, x.after);
    BlankStops(t, p + |body|, x.after, c);
    ValueReads(t, p, x.doc);
  }

  /** The first of a list stands first; then comes the closer, or a comma and the rest. */
  lemma ListHere(t: Text, i: nat, all: Text, a: Text, b: Text, last: bool, close: Code)
    requires if last then all == a else all == a + ([0x2C] + b)
    requires Here(t, i, all + [close])
    ensures var e := i + |a|;
            && Here(t, i, a) && e < |t|
            && if last then t[e] == close && |all| == |a|
               else t[e] == 0x2C && Here(t, e + 1, b + [close]) && |all| == |a| + 1 + |b|
  {
    hide *;
    HereSplit(t, i, all, [close]);
    HereLast(t, i + |all|, close);
    if !last {
      HereSplit(t, i, a, [0x2C] + b);
      HereSplit(t, i + |a|, [0x2C], b);
      HereLast(t, i + |a|, 0x2C);
      HereJoin(t, i + |a| + 1, b, [close]);
    }
  }

  lemma ItemsUnfold(xs: seq<Item>)
    requires xs != []
    ensures var a, all := RenderItem(xs[0]), RenderItems(xs);
            if |xs| == 1 then all == a else all == a + ([0x2C] + RenderItems(xs[1..]))
  {
    hide RenderItem;
    assert RenderItem(xs[0]) + [] == RenderItem(xs[0]);
  }

  /** Elements from the whitespace before the first on, through the bracket. */
  lemma {:induction false} ItemsRead(t: Text, i: nat, xs: seq<Item>, d: Doc)
    requires xs != [] && (forall x | x in xs :: x.doc < d && GoodItem(x)) && Here(t, i, RenderItems(xs) + [0x5D])
    ensures ParseElems(t, SkipWs(t, i)) == Done(Values(xs), i + |RenderItems(xs)| + 1)
    ensures SkipWs(t, i) < |t| && t[SkipWs(t, i)] != 0x5D
    decreases d, 1, |xs|
  {
    hide ParseElems, ParseValue, Here, SkipWs, Value, GoodItem, RenderItems, RenderItem;
    var x := xs[0];
    assert x in xs;
    var e := i + |RenderItem(x)|;
    ItemsUnfold(xs);
    ListHere(t, i, RenderItems(xs), RenderItem(x), RenderItems(xs[1..]), |xs| == 1, 0x5D);
    if |xs| == 1 {
      ItemReads(t, i, x, 0x5D, d);
      LastElem(t, SkipWs(t, i), e);
      assert xs[1..] == [] && Values(xs) == [Value(x.doc)];
    } else {
      ItemReads(t, i, x, 0x2C, d);
      assert forall y | y in xs[1..] :: y in xs;
      ItemsRead(t, e + 1, xs[1..], d);
      NextElem(t, SkipWs(t, i), e);
    }
  }

  lemma LastElem(t: Text, p: nat, e: nat)
    requires ParseValue(t, p).Done? && SkipWs(t, ParseValue(t, p).end) == e && At(t, e, ']')
    ensures ParseElems(t, p) == Done([ParseValue(t, p).value], e + 1)
  {
    hide ParseValue, SkipWs;
  }

  lemma NextElem(t: Text, p: nat, e: nat)
    requires ParseValue(t, p).Done? && SkipWs(t, ParseValue(t, p).end) == e && At(t, e, ',')
    requires ParseElems(t, SkipWs(t, e + 1)).Done?
    ensures var rest := ParseElems(t, SkipWs(t, e + 1));
            ParseElems(t, p) == Done([ParseValue(t, p).value] + rest.value, rest.end)
  {
    hide ParseValue, SkipWs;
  }

  lemma {:induction false} ArrayReads(t: Text, i: nat, d: Doc)
    requires d.DArr? && Good(d) && Here(t, i, Render(d))
    ensures ParseValue(t, i) == Done(Value(d), i + |Render(d)|)
    decreases d, 2
  {
    hide ParseValue, ParseElems, SkipWs, Here, Blank, RenderItems;
    var body := if d.items == [] then d.gap else RenderItems(d.items);
    assert Render(d) == [0x5B] + (body + [0x5D]);
    HereSplit(t, i, [0x5B], body + [0x5D]);
    HereIndex(t, i, [0x5B], 0);
    if d.items == [] {
      HereSplit(t, i + 1, d.gap, [0x5D]);
      HereIndex(t, i + 1 + |d.gap|, [0x5D], 0);
      BlankSkips(t, i + 1, d.gap);
      EmptyArray(t, i);
    } else {
      ItemsRead(t, i + 1, d.items, d);
      SomeArray(t, i);
    }
  }

  lemma EmptyArray(t: Text, i: nat)
    requires At(t, i, '[') && At(t, SkipWs(t, i + 1), ']')
    ensures ParseValue(t, i) == Done(JArr([]), SkipWs(t, i + 1) + 1)
  {
    hide SkipWs;
  }

  lemma SomeArray(t: Text, i: nat)
    requires At(t, i, '[') && !At(t, SkipWs(t, i + 1), ']') && ParseElems(t, SkipWs(t, i + 1)).Done?
    ensures var es := ParseElems(t, SkipWs(t, i + 1)); ParseValue(t, i) == Done(JArr(es.value), es.end)
  {
    hide ParseElems, SkipWs;
  }

  lemma FieldParts(t: Text, i: nat, m: Field)
    requires Here(t, i, RenderField(m))
    ensures var k := i + |m.lead|;
            var q := k + |Quoted(m.key)|;
            var c := q + |m.mid|;
            && Here(t, i, m.lead) && Here(t, k, Quoted(m.key)) && Here(t, q, m.mid) && At(t, c, ':')
            && Here(t, c + 1, RenderItem(m.item)) && i + |RenderField(m)| == c + 1 + |RenderItem(m.item)|
  {
    var key, item := Quoted(m.key), RenderItem(m.item);
    hide Here, RenderItem, Quoted;
    HereSplit(t, i, m.lead + key + m.mid + [0x3A], item);
    HereSplit(t, i, m.lead + key + m.mid, [0x3A]);
    HereSplit(t, i, m.lead + key, m.mid);
    HereSplit(t, i, m.lead, key);
    HereIndex(t, i + |m.lead| + |key| + |m.mid|, [0x3A], 0);
  }

  /** A member with its whitespace, before a comma or a closer. */
  lemma {:induction false} FieldReads(t: Text, i: nat, m: Field, c: Code, d: Doc)
    requires GoodField(m) && m.item.doc < d && Here(t, i, RenderField(m))
    requires i + |RenderField(m)| < |t| && t[i + |RenderField(m)|] == c && Stops(c)
    ensures var p := i + |m.lead|;
            && SkipWs(t, i) == p && p < |t| && t[p] != 0x7D
            && ParseMember(t, p).Done? && ParseMember(t, p).value == (m.key.s, Value(m.item.doc))
            && SkipWs(t, ParseMember(t, p).end) == i + |RenderField(m)|
    decreases d, 1
  {
    hide ParseMember, ParseValue, StringBody, Here, Value, GoodString, GoodItem, Blank, SkipWs, RenderItem, RenderField,
      Quoted;
    var p := i + |m.lead|;
    var k := p + |Quoted(m.key)|;
    var e := k + |m.mid|;
    FieldParts(t, i, m);
    KeyReads(t, p, m.key);
    BlankSkips(t, i, m.lead);
    BlankSkips(t, k, m.mid);
    ItemReads(t, e + 1, m.item, c, d);
    OneMember(t, p, e);
  }

  lemma KeyReads(t: Text, i: nat, w: Spelled)
    requires GoodString(w) && Here(t, i, Quoted(w))
    ensures At(t, i, '"') && StringBody(t, i + 1) == Done(w.s, i + |Quoted(w)|)
  {
    hide GoodString, StringBody;
    assert Quoted(w) == [0x22] + (Flat(w.pieces) + [0x22]);
    HereSplit(t, i, [0x22], Flat(w.pieces) + [0x22]);
    HereIndex(t, i, [0x22], 0);
    StringReads(t, i + 1, w);
  }

  lemma OneMember(t: Text, i: nat, c: nat)
    requires At(t, i, '"') && StringBody(t, i + 1).Done? && SkipWs(t, StringBody(t, i + 1).end) == c && At(t, c, ':')
    requires ParseValue(t, SkipWs(t, c + 1)).Done?
    ensures var v := ParseValue(t, SkipWs(t, c + 1));
            ParseMember(t, i) == Done((StringBody(t, i + 1).value, v.value), v.end)
  {
    hide ParseValue, StringBody, SkipWs;
  }

  lemma FieldsUnfold(ms: seq<Field>)
    requires ms != []
    ensures var a, all := RenderField(ms[0]), RenderFields(ms);
            if |ms| == 1 then all == a else all == a + ([0x2C] + RenderFields(ms[1..]))
  {
    hide RenderField;
    assert RenderField(ms[0]) + [] == RenderField(ms[0]);
  }

  lemma {:induction false} FieldsRead(t: Text, i: nat, ms: seq<Field>, d: Doc)
    requires ms != [] && (forall m | m in ms :: m.item.doc < d && GoodField(m))
            && Here(t, i, RenderFields(ms) + [0x7D])
    ensures ParseMembers(t, SkipWs(t, i)) == Done(Members(ms), i + |RenderFields(ms)| + 1)
    ensures SkipWs(t, i) < |t| && t[SkipWs(t, i)] != 0x7D
    decreases d, 2, |ms|
  {
    hide ParseMembers, ParseMember, Here, SkipWs, Value, GoodField, RenderFields, RenderField;
    var m := ms[0];
    assert m in ms;
    var e := i + |RenderField(m)|;
    FieldsUnfold(ms);
    ListHere(t, i, RenderFields(ms), RenderField(m), RenderFields(ms[1..]), |ms| == 1, 0x7D);
    if |ms| == 1 {
      FieldReads(t, i, m, 0x7D, d);
      LastMember(t, SkipWs(t, i), e);
      assert ms[1..] == [] && Members(ms) == [(m.key.s, Value(m.item.doc))];
    } else {
      FieldReads(t, i, m, 0x2C, d);
      assert forall y | y in ms[1..] :: y in ms;
      FieldsRead(t, e + 1, ms[1..], d);
      NextMember(t, SkipWs(t, i), e);
    }
  }

  lemma LastMember(t: Text, p: nat, e: nat)
    requires ParseMember(t, p).Done? && SkipWs(t, ParseMember(t, p).end) == e && At(t, e, '}')
    ensures ParseMembers(t, p) == Done([ParseMember(t, p).value], e + 1)
  {
    hide ParseMember, SkipWs;
  }

  lemma NextMember(t: Text, p: nat, e: nat)
    requires ParseMember(t, p).Done? && SkipWs(t, ParseMember(t, p).end) == e && At(t, e, ',')
    requires ParseMembers(t, SkipWs(t, e + 1)).Done?
    ensures var rest := ParseMembers(t, SkipWs(t, e + 1));
            ParseMembers(t, p) == Done([ParseMember(t, p).value] + rest.value, rest.end)
  {
    hide ParseMember, SkipWs;
  }

  lemma {:induction false} ObjectReads(t: Text, i: nat, d: Doc)
    requires d.DObj? && Good(d) && Here(t, i, Render(d))
    ensures ParseValue(t, i) == Done(Value(d), i + |Render(d)|)
    decreases d, 3
  {
    hide ParseValue, ParseMembers, SkipWs, Here, Blank, RenderFields;
    var body := if d.fields == [] then d.hole else RenderFields(d.fields);
    assert Render(d) == [0x7B] + (body + [0x7D]);
    HereSplit(t, i, [0x7B], body + [0x7D]);
    HereIndex(t, i, [0x7B], 0);
    if d.fields == [] {
      HereSplit(t, i + 1, d.hole, [0x7D]);
      HereIndex(t, i + 1 + |d.hole|, [0x7D], 0);
      BlankSkips(t, i + 1, d.hole);
      EmptyObject(t, i);
    } else {
      FieldsRead(t, i + 1, d.fields, d);
      SomeObject(t, i);
    }
  }

  lemma EmptyObject(t: Text, i: nat)
    requires At(t, i, '{') && At(t, SkipWs(t, i + 1), '}')
    ensures ParseValue(t, i) == Done(JObj([]), SkipWs(t, i + 1) + 1)
  {
    hide SkipWs;
  }

  lemma SomeObject(t: Text, i: nat)
    requires At(t, i, '{') && !At(t, SkipWs(t, i + 1), '}') && ParseMembers(t, SkipWs(t, i + 1)).Done?
    ensures var ms := ParseMembers(t, SkipWs(t, i + 1)); ParseValue(t, i) == Done(JObj(ms.value), ms.end)
  {
    hide ParseMembers, SkipWs;
  }

  /** However a value is written, it reads back wherever it stands, if a number is seen to
      stop. */
  lemma {:induction false} ValueReads(t: Text, i: nat, d: Doc)
    requires Good(d) && Here(t, i, Render(d)) && (d.DNum? ==> NumStop(t, i + |Render(d)|))
    ensures ParseValue(t, i) == Done(Value(d), i + |Render(d)|)
    decreases d, 4
  {
    match d
    case DWord(w) => LiteralReads(t, i, w);
    case DNum(n) => NumReads(t, i, n);
    case DStr(w) => KeyReads(t, i, w);
    case DArr(_, _) => ArrayReads(t, i, d);
    case DObj(_, _) => ObjectReads(t, i, d);
  }

  /** Every text of a value parses to it. */
  lemma TextReads(t: Text, v: Json, b: Text, d: Doc, a: Text)
    requires TextOf(t, v, b, d, a)
    ensures ParseDoc(t) == Some(v)
  {
    hide ParseValue, Render, Value, Good, Here, Blank, SkipWs, NumStop;
    var x := Render(d);
    var e := |b| + |x|;
    WholeHere(t);
    HereSplit(t, 0, b + x, a);
    HereSplit(t, 0, b, x);
    DocStandsOut(t, |b|, d);
    BlankSkips(t, 0, b);
    BlankSkips(t, e, a);
    EndStops(t, e, a);
    ValueReads(t, |b|, d);
  }

  lemma DocStandsOut(t: Text, i: nat, d: Doc)
    requires Good(d) && Here(t, i, Render(d))
    ensures i < |t| && !IsWs(t[i])
  {
    hide Render, Good;
    DocStarts(d);
    HereIndex(t, i, Render(d), 0);
  }

  lemma WholeHere(t: Text)
    ensures Here(t, 0, t)
  {
    assert t[0..|t|] == t;
  }

  lemma EndStops(t: Text, e: nat, a: Text)
    requires Here(t, e, a) && Blank(a) && e + |a| == |t|
    ensures NumStop(t, e)
  {
    if a != [] { HereIndex(t, e, a, 0); }
  }
}
