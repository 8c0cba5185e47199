/** Decoding texts of JSON, however they are written: what a whole text decodes to, and the
    round trip of a payload. */
module JsonPrint {
  import opened Basics
  import opened Json
  import opened JsonLocal
  import opened JsonText
  import opened JsonGrammar
  import opened Decode
  import opened DecodeTruncation

  // ----- every value of numbers can be written

  /** All its numbers are numbers, NaN or infinite. */
  ghost predicate Printable(v: Json) {
    match v
    case JNum(x) => IsNum(x) || x in [Codes("NaN"), Codes("Infinity"), Codes("-Infinity")]
    case JArr(es) => forall e | e in es :: Printable(e)
    case JObj(ms) => forall m | m in ms :: Printable(m.1)
    case _ => true
  }

  const DIGITS := "0123456789abcdef"

  /** Only the quote, the backslash and control characters are escaped. */
  function PrintCode(c: Code): Text {
    if c == 0x22 || c == 0x5C then [0x5C, c]
    else if c < 0x20 then [0x5C, 0x75, 0x30, 0x30, DIGITS[c / 16] as int, DIGITS[c % 16] as int]
    else [c]
  }

  function PrintCodes(s: Text): (w: Spelled)
    ensures w.s == s && |w.pieces| == |s| && forall k | 0 <= k < |s| :: w.pieces[k] == PrintCode(s[k])
  {
    Spelled(seq(|s|, k requires 0 <= k < |s| => PrintCode(s[k])), s)
  }

  ghost function PrintNum(x: Text): Doc
    requires Printable(JNum(x))
  {
    if IsNum(x) then (var n :| GoodNum(n) && NumText(n) == x; DNum(n))
    else DWord(if x == Codes("NaN") then "NaN" else if x == Codes("Infinity") then "Infinity" else "-Infinity")
  }

  /** A value written without whitespace. */
  ghost function Plain(v: Json): Doc
    requires Printable(v)
  {
    match v
    case JNull => DWord("null")
    case JBool(b) => DWord(if b then "true" else "false")
    case JNum(x) => PrintNum(x)
    case JStr(s) => DStr(PrintCodes(s))
    case JArr(es) => DArr([], seq(|es|, i requires 0 <= i < |es| => Item([], Plain(es[i]), [])))
    case JObj(ms) =>
      DObj([], seq(|ms|, i requires 0 <= i < |ms| => Field([], PrintCodes(ms[i].0), [], Item([], Plain(ms[i].1), []))))
  }

  lemma HexPrints(d: nat)
    requires d < 16
    ensures HexDigit(DIGITS[d] as int, d)
  {
    assert DIGITS[d] == if d < 10 then '0' + d as char else 'a' + (d - 10) as char;
  }

  lemma CodeSpelled(c: Code)
    ensures Spells(PrintCode(c), c)
    ensures |PrintCode(c)| == 6 ==> c < 0x20
  {
    if c < 0x20 {
      var x := PrintCode(c);
      HexPrints(0);
      HexPrints(c / 16);
      HexPrints(c % 16);
      assert HexDigit(x[2], 0) && HexDigit(x[3], 0) && HexDigit(x[4], c / 16) && HexDigit(x[5], c % 16);
      assert c == 0x1000 * 0 + 0x100 * 0 + 0x10 * (c / 16) + c % 16;
      assert UnicodeEscape(x, c);
    }
  }

  lemma StringSpelled(s: Text)
    ensures GoodString(PrintCodes(s))
  {
    hide Spells, PrintCode;
    var w := PrintCodes(s);
    forall k | 0 <= k < |s|
      ensures Spells(w.pieces[k], w.s[k]) && (|w.pieces[k]| == 6 ==> w.s[k] < 0x20)
    {
      CodeSpelled(s[k]);
    }
  }

  lemma {:induction false} PlainWrites(v: Json)
    requires Printable(v)
    ensures Good(Plain(v)) && Value(Plain(v)) == v
    decreases v, 1
  {
    match v
    case JNull =>
    case JBool(_) =>
    case JNum(x) =>
    case JStr(s) => StringSpelled(s);
    case JArr(es) => PlainArray(v);
    case JObj(ms) => PlainObject(v);
  }

  lemma {:induction false} PlainArray(v: Json)
    requires v.JArr? && Printable(v)
    ensures Good(Plain(v)) && Value(Plain(v)) == v
    decreases v, 0
  {
    var es, items := v.elems, Plain(v).items;
    EmptyBlank();
    forall i | 0 <= i < |es|
      ensures GoodItem(items[i]) && Value(items[i].doc) == es[i]
    {
      assert items[i] == Item([], Plain(es[i]), []);
      PlainWrites(es[i]);
    }
    hide Plain, GoodItem;
    WritesArray(items, es);
  }

  lemma WritesArray(items: seq<Item>, es: seq<Json>)
    requires |items| == |es| && forall i | 0 <= i < |es| :: GoodItem(items[i]) && Value(items[i].doc) == es[i]
    ensures Good(DArr([], items)) && Value(DArr([], items)) == JArr(es)
  {
    EmptyBlank();
    hide GoodItem;
    assert Values(items) == es;
  }

  lemma {:induction false} PlainObject(v: Json)
    requires v.JObj? && Printable(v)
    ensures Good(Plain(v)) && Value(Plain(v)) == v
    decreases v, 0
  {
    var ms, fields := v.members, Plain(v).fields;
    EmptyBlank();
    forall i | 0 <= i < |ms|
      ensures GoodField(fields[i]) && fields[i].key.s == ms[i].0 && Value(fields[i].item.doc) == ms[i].1
    {
      assert fields[i] == Field([], PrintCodes(ms[i].0), [], Item([], Plain(ms[i].1), []));
      StringSpelled(ms[i].0);
      PlainWrites(ms[i].1);
    }
    hide Plain, GoodField;
    WritesObject(fields, ms);
  }

  lemma WritesObject(fields: seq<Field>, ms: seq<(Text, Json)>)
    requires |fields| == |ms|
    requires forall i | 0 <= i < |ms| ::
               GoodField(fields[i]) && fields[i].key.s == ms[i].0 && Value(fields[i].item.doc) == ms[i].1
    ensures Good(DObj([], fields)) && Value(DObj([], fields)) == JObj(ms)
  {
    EmptyBlank();
    hide GoodField;
    assert Members(fields) == ms;
  }

  ghost function Print(v: Json): Text
    requires Printable(v)
  {
    Render(Plain(v))
  }

  lemma PrintWrites(v: Json)
    requires Printable(v)
    ensures Writes(Print(v), v)
  {
    PlainWrites(v);
    EmptyBlank();
    hide Good, Value, Render, Plain, Printable;
    assert [] + Render(Plain(v)) + [] == Render(Plain(v));
    assert TextOf(Print(v), v, [], Plain(v), []);
  }

  /** Every printable value parses back from its printed form. */
  lemma ParsePrint(v: Json)
    requires Printable(v)
    ensures ParseDoc(Print(v)) == Some(v)
  {
    hide ParseDoc, Print, Printable;
    PrintWrites(v);
    ParseDocIff(Print(v), v);
  }

  lemma {:induction false} GoodPrints(d: Doc)
    requires Good(d)
    ensures Printable(Value(d))
  {
    match d
    case DWord(w) =>
    case DNum(n) => assert IsNum(NumText(n));
    case DStr(_) =>
    case DArr(_, items) =>
      forall i | 0 <= i < |items|
        ensures Printable(Value(items[i].doc))
      {
        assert GoodItem(items[i]);
        GoodPrints(items[i].doc);
      }
    case DObj(_, fields) =>
      forall i | 0 <= i < |fields|
        ensures Printable(Value(fields[i].item.doc))
      {
        assert GoodField(fields[i]) && GoodItem(fields[i].item);
        GoodPrints(fields[i].item.doc);
      }
  }

  /** Some text parses to a value exactly when all its numbers are numbers. */
  lemma PrintableIff(v: Json)
    ensures Printable(v) <==> exists t :: ParseDoc(t) == Some(v)
  {
    hide ParseDoc, TextOf, Printable;
    if Printable(v) {
      ParsePrint(v);
    } else if t :| ParseDoc(t) == Some(v) {
      var b, d, a := WrittenAs(t, v);
      assert Good(d) && Value(d) == v by { TextIs(t, v, b, d, a); }
      GoodPrints(d);
    }
  }

  lemma TextIs(t: Text, v: Json, b: Text, d: Doc, a: Text)
    requires TextOf(t, v, b, d, a)
    ensures Blank(b) && Good(d) && Blank(a) && Value(d) == v && t == b + Render(d) + a
  {
  }

  // ----- what a whole text decodes to

  lemma RStripBlank(x: Text, a: Text)
    requires x != [] && !IsSpace(x[|x| - 1]) && forall k | 0 <= k < |a| :: IsSpace(a[k])
    ensures RStrip(x + a) == x
  {
    hide IsSpace;
    var t, r := x + a, RStrip(x + a);
    assert t[|x| - 1] == x[|x| - 1];
    assert forall k | |x| <= k < |t| :: t[k] == a[k - |x|];
    assert r == t[..|r|];
    assert t[..|x|] == x;
  }

  /** Any text of JSON decodes, whatever its spelling and spacing, to what its value
      validates to. */
  lemma TextDecodes(t: Text, v: Json)
    requires ParseDoc(t) == Some(v)
    ensures DecodeSubmission(t) == Validate(v, false)
  {
    hide ParseDoc, Strip, Validate, Blank, Render, Good, Value;
    var b, d, a := WrittenAs(t, v);
    TextIs(t, v, b, d, a);
    var x := Render(d);
    TextStrips(b, d, a);
    EmptyBlank();
    assert x == [] + x + [];
    assert TextOf(x, v, [], d, []);
    TextReads(x, v, [], d, []);
    NoFence(d);
  }

  lemma NoFence(d: Doc)
    requires Good(d)
    ensures !StartsWithFence(Render(d))
  {
    DocFirst(d);
    hide Render, Good;
    assert |Codes("```")| == 3 && Codes("```")[0] == 0x60;
  }

  lemma DocFirst(d: Doc)
    requires Good(d)
    ensures Render(d) != [] && !IsSpace(Render(d)[0]) && Render(d)[0] != 0x60
  {
    match d
    case DNum(n) => NumberStarts(n);
    case _ =>
  }

  lemma TextStrips(b: Text, d: Doc, a: Text)
    requires Blank(b) && Good(d) && Blank(a)
    ensures Strip(b + Render(d) + a) == Render(d) != []
  {
    var x := Render(d);
    DocFirst(d);
    WholeHere(x);
    EndStops(x, |x|, []);
    ValueReads(x, 0, d);
    ValueEndsSolid(x, 0);
    hide Render, Good, ParseValue, Value;
    assert b + x + a == b + (x + a);
    LStripSpaces(b, x + a);
    RStripBlank(x, a);
  }

  /** The value a key has: that of its last member. */
  predicate LastMemberIs(ms: seq<(Text, Json)>, key: Text, x: Json) {
    exists i | 0 <= i < |ms| :: ms[i] == (key, x) && forall j | i < j < |ms| :: ms[j].0 != key
  }

  lemma {:induction false} GetIff(ms: seq<(Text, Json)>, key: Text, x: Json)
    ensures Get(ms, key) == Some(x) <==> LastMemberIs(ms, key, x)
  {
    if ms != [] {
      var n := |ms| - 1;
      GetIff(ms[..n], key, x);
      if ms[n].0 == key {
        assert LastMemberIs(ms, key, x) ==> ms[n].1 == x;
        assert ms[n].1 == x ==> ms[n] == (key, x);
      } else if LastMemberIs(ms[..n], key, x) {
        var i :| 0 <= i < n && ms[i] == (key, x) && forall j | i < j < n :: ms[..n][j].0 != key;
        assert forall j | i < j < n :: ms[..n][j] == ms[j];
      }
    }
  }

  /** An edit with a file that is not empty and with code. */
  ghost predicate FullEdit(e: Json) {
    && e.JObj?
    && (exists s: Text :: s != [] && LastMemberIs(e.members, Codes("file"), JStr(s)))
    && exists s: Text :: LastMemberIs(e.members, Codes("code"), JStr(s))
  }

  lemma CompleteIff(e: Json)
    ensures CompleteEdit(e) <==> FullEdit(e)
  {
    if e.JObj? {
      forall key: Text, x: Json
        ensures Get(e.members, key) == Some(x) <==> LastMemberIs(e.members, key, x)
      {
        GetIff(e.members, key, x);
      }
      hide Get, LastMemberIs, Codes;
      if CompleteEdit(e) {
        assert LastMemberIs(e.members, Codes("file"), JStr(Get(e.members, FILE).value.s));
        assert LastMemberIs(e.members, Codes("code"), JStr(Get(e.members, CODE).value.s));
      }
    }
  }

  /** `kept` is the full edits of `es`, in their order: those at the positions `at`. */
  ghost predicate KeepsFull(es: seq<Json>, kept: seq<Json>, at: seq<nat>) {
    && |at| == |kept|
    && (forall k | 0 <= k < |at| :: at[k] < |es| && kept[k] == es[at[k]])
    && (forall j, k | 0 <= j < k < |at| :: at[j] < at[k])
    && forall i | 0 <= i < |es| :: i in at <==> FullEdit(es[i])
  }

  lemma {:induction false} CompleteOnlyKeeps(es: seq<Json>) returns (at: seq<nat>)
    ensures KeepsFull(es, CompleteOnly(es), at)
  {
    hide CompleteEdit, FullEdit;
    at := [];
    if es != [] {
      var n := |es| - 1;
      at := CompleteOnlyKeeps(es[..n]);
      CompleteOnlyConcat(es[..n], [es[n]]);
      CompleteIff(es[n]);
      assert es == es[..n] + [es[n]] && [es[n]][1..] == [];
      assert forall i | 0 <= i < n :: es[..n][i] == es[i];
      if CompleteEdit(es[n]) { at := at + [n]; }
    }
  }

  /** What a value that was parsed or repaired decodes to: an object whose reasoning is a
      string and whose edits are a list is accepted with exactly its full edits, the others
      counted as dropped, at least one of a repaired text; and what lacks them is refused with
      the reason. */
  ghost predicate DecodedAs(v: Json, repaired: bool, o: Outcome) {
    if !v.JObj? then o == Rejected(NotAnObject)
    else if forall r :: !LastMemberIs(v.members, Codes("reasoning"), JStr(r)) then o == Rejected(NoReasoning)
    else if forall es :: !LastMemberIs(v.members, Codes("edits"), JArr(es)) then o == Rejected(NoEdits)
    else
      exists r, es, at ::
        && LastMemberIs(v.members, Codes("reasoning"), JStr(r)) && LastMemberIs(v.members, Codes("edits"), JArr(es))
        && o.Accepted? && o.repaired == repaired && o.payload.reasoning == r && KeepsFull(es, o.payload.edits, at)
        && o.dropped == if repaired && |o.payload.edits| == |es| then 1 else |es| - |o.payload.edits|
  }

  lemma ValidatesTo(v: Json, repaired: bool)
    ensures DecodedAs(v, repaired, Validate(v, repaired))
  {
    if v.JObj? {
      forall key: Text, x: Json
        ensures Get(v.members, key) == Some(x) <==> LastMemberIs(v.members, key, x)
      {
        GetIff(v.members, key, x);
      }
      hide Get, LastMemberIs, KeepsFull, CompleteOnly, Codes;
      var r, es := Get(v.members, REASONING), Get(v.members, EDITS);
      if r.Some? && r.value.JStr? {
        assert LastMemberIs(v.members, Codes("reasoning"), JStr(r.value.s));
        if es.Some? && es.value.JArr? {
          assert LastMemberIs(v.members, Codes("edits"), JArr(es.value.elems));
          var at := CompleteOnlyKeeps(es.value.elems);
        }
      }
    }
  }

  /** What a text of JSON decodes to, said of its value alone. */
  lemma TextDecodesTo(t: Text, v: Json)
    requires ParseDoc(t) == Some(v)
    ensures DecodedAs(v, false, DecodeSubmission(t))
  {
    hide DecodeSubmission, ParseDoc, DecodedAs;
    TextDecodes(t, v);
    ValidatesTo(v, false);
  }

  /** The same of a text in a fence, and of one that is repaired. */
  lemma RawDecodesTo(t: Text, v: Json)
    requires Strip(t) != []
    ensures ParseDoc(StripFence(t)) == Some(v) ==> DecodedAs(v, false, DecodeSubmission(t))
    ensures ParseDoc(StripFence(t)).None? && Repair(StripFence(t)) == Some(v) && v != JNull ==>
              DecodedAs(v, true, DecodeSubmission(t))
  {
    hide ParseDoc, Strip, StripFence, Repair, Validate, DecodedAs;
    ValidatesTo(v, false);
    ValidatesTo(v, true);
  }

  // ----- the round trip

  /** `t` is a text of the payload, in any spelling. */
  ghost predicate WritesPayload(t: Text, r: Text, es: seq<Json>) {
    Writes(t, JObj([(Codes("reasoning"), JStr(r)), (Codes("edits"), JArr(es))]))
  }

  lemma {:induction false} AllComplete(es: seq<Json>)
    requires forall e | e in es :: FullEdit(e)
    ensures CompleteOnly(es) == es
  {
    hide FullEdit, CompleteEdit;
    if es != [] {
      CompleteIff(es[0]);
      AllComplete(es[1..]);
    }
  }

  /** Decoding undoes encoding, however it spells and spaces: a payload of full edits comes
      back whole, unrepaired and with nothing dropped. */
  lemma DecodeEncode(t: Text, r: Text, es: seq<Json>)
    requires WritesPayload(t, r, es) && forall e | e in es :: FullEdit(e)
    ensures DecodeSubmission(t) == Accepted(Payload(r, es), false, 0)
  {
    hide ParseDoc, FullEdit;
    var v := JObj([(REASONING, JStr(r)), (EDITS, JArr(es))]);
    hide DecodeSubmission, Writes;
    ParseDocIff(t, v);
    TextDecodes(t, v);
    AllComplete(es);
    GetPair(v.members);
    hide CompleteOnly, Get;
  }

  /** It can be written, exactly when all numbers in its edits are numbers. */
  lemma PayloadWritable(r: Text, es: seq<Json>)
    ensures (forall e | e in es :: Printable(e)) <==> exists t :: WritesPayload(t, r, es)
  {
    var v := JObj([(REASONING, JStr(r)), (EDITS, JArr(es))]);
    assert Printable(v) <==> forall e | e in es :: Printable(e) by {
      assert v.members[1] == (EDITS, JArr(es)) && v.members[0] == (REASONING, JStr(r));
      assert Printable(JStr(r)) && (Printable(JArr(es)) <==> forall e | e in es :: Printable(e));
      assert forall m | m in v.members :: m == v.members[0] || m == v.members[1];
    }
    PrintableIff(v);
    hide Printable, ParseDoc, Writes;
    forall t
      ensures ParseDoc(t) == Some(v) <==> WritesPayload(t, r, es)
    {
      ParseDocIff(t, v);
    }
  }

  /** A payload, however spelled and spaced, cut anywhere past the bracket of its edits keeps
      the reasoning and the finished edits, and at most one edit more. */
  lemma EncodedSurvivesTruncation(t: Text, r: Text, es: seq<Json>, c: nat) returns (lead: nat, l: Layout)
    requires WritesPayload(t, r, es) && (forall e | e in es :: FullEdit(e)) && c <= |t|
    ensures lead <= |t| && PayloadAt(t[lead..], r, es, l)
    ensures lead + l.a < c ==>
              var o := DecodeSubmission(t[..c]);
              var n := Contained(t[lead..], l, c - lead);
              && n <= |es| && o.Accepted? && o.payload.reasoning == r
              && es[..n] <= o.payload.edits && |o.payload.edits| <= n + 1
  {
    hide DecodeSubmission, PayloadAt, PayloadText, Contained, Writes;
    var d := PayloadStarts(t, r, es);
    lead := |t| - |d|;
    assert t[lead..] == d;
    l := PayloadLayout(d, r, es);
    if lead + l.a < c {
      TruncationKeepsFinishedEdits(t[..lead], d, r, es, l, c - lead);
      assert t[..lead] + d[..c - lead] == t[..c];
      AllComplete(es[..Contained(d, l, c - lead)]);
    }
  }

  lemma PayloadStarts(t: Text, r: Text, es: seq<Json>) returns (d: Text)
    requires WritesPayload(t, r, es)
    ensures |d| <= |t| && d == t[|t| - |d|..] && PayloadText(d, r, es)
    ensures forall k | 0 <= k < |t| - |d| :: IsSpace(t[k])
  {
    hide Render, ParseDoc;
    var v := JObj([(REASONING, JStr(r)), (EDITS, JArr(es))]);
    var b, x, a :| TextOf(t, v, b, x, a);
    d := Render(x) + a;
    assert t == b + d;
    EmptyBlank();
    assert d == [] + Render(x) + a;
    TextReads(d, v, [], x, a);
    ObjectStarts(x);
  }

  lemma ObjectStarts(d: Doc)
    requires Value(d).JObj?
    ensures At(Render(d), 0, '{')
  {
  }
}
