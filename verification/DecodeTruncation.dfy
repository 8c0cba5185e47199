/** Truncation keeps finished work: decoding any prefix of a payload that reaches past
    the `[` of its edits keeps every edit the prefix contains, and adds at most one. */
module DecodeTruncation {
  import opened Basics
  import opened Json
  import opened JsonLocal
  import opened Decode
  import opened DecodeScan

  // ----- payload texts

  /** `d` is an object text whose members are a reasoning string and a list of edits. */
  ghost predicate PayloadText(d: Text, r: Text, es: seq<Json>) {
    && At(d, 0, '{')
    && ParseDoc(d) == Some(JObj([(REASONING, JStr(r)), (EDITS, JArr(es))]))
  }

  /** Where the members of a payload text stand: the first key, its member's end, the
      comma, the second key, that key's end, its colon, the `[` of the edits, the end of
      the edits and the closing brace. */
  datatype Layout = Layout(k1: nat, e1: nat, j1: nat, k2: nat, q: nat, c2: nat, a: nat, e2: nat, j2: nat)

  /** The positions just after each element of the array whose elements start at `i`. */
  function ElemEnds(t: Text, i: nat): seq<nat>
    decreases Left(t, i), 2
  {
    var v := ParseValue(t, i);
    if v.Fail? then [] else EndsFrom(t, v.end)
  }

  /** Those positions, from an element that ends at `e` on. */
  function EndsFrom(t: Text, e: nat): seq<nat>
    requires e <= |t|
    decreases Left(t, e), 3
  {
    var j := SkipWs(t, e);
    [e] + if At(t, j, ',') then ElemEnds(t, SkipWs(t, j + 1)) else []
  }

  /** Those positions for an array whose bracket stands just before `i`. */
  function EditEnds(d: Text, i: nat): seq<nat>
    requires i <= |d|
  {
    var s := SkipWs(d, i);
    if At(d, s, ']') then [] else ElemEnds(d, s)
  }

  function CountUpTo(ends: seq<nat>, c: nat): nat {
    if ends == [] || ends[0] > c then 0 else 1 + CountUpTo(ends[1..], c)
  }

  ghost predicate Ordered(d: Text, l: Layout) {
    0 < l.k1 < l.e1 <= l.j1 < l.k2 < l.q <= l.c2 < l.a < l.e2 <= l.j2 < |d|
  }

  /** The text up to the second key. */
  ghost predicate HeadAt(d: Text, r: Text, l: Layout) {
    && Ordered(d, l) && At(d, 0, '{')
    && SkipWs(d, 1) == l.k1
    && ParseMember(d, l.k1) == Done((REASONING, JStr(r)), l.e1)
    && SkipWs(d, l.e1) == l.j1 && At(d, l.j1, ',')
    && SkipWs(d, l.j1 + 1) == l.k2
  }

  /** The second key, through the `[`. */
  ghost predicate KeyAt(d: Text, l: Layout) {
    && Ordered(d, l)
    && At(d, l.k2, '"') && StringBody(d, l.k2 + 1) == Done(EDITS, l.q)
    && SkipWs(d, l.q) == l.c2 && At(d, l.c2, ':')
    && SkipWs(d, l.c2 + 1) == l.a && At(d, l.a, '[')
  }

  /** The edits and the end of the text. */
  ghost predicate BodyAt(d: Text, es: seq<Json>, l: Layout) {
    && Ordered(d, l)
    && ParseArray(d, l.a + 1) == Done(JArr(es), l.e2)
    && SkipWs(d, l.e2) == l.j2 && At(d, l.j2, '}')
    && SkipWs(d, l.j2 + 1) == |d|
  }

  /** `d` is a payload text laid out as `l`. */
  ghost predicate PayloadAt(d: Text, r: Text, es: seq<Json>, l: Layout) {
    HeadAt(d, r, l) && KeyAt(d, l) && BodyAt(d, es, l)
  }

  /** How many edits lie wholly in the first `c` code points. */
  function Contained(d: Text, l: Layout, c: nat): nat
    requires l.a < |d|
  {
    CountUpTo(EditEnds(d, l.a + 1), c)
  }

  lemma PayloadMembers(d: Text, r: Text, es: seq<Json>) returns (ms: Parsed<seq<(Text, Json)>>)
    requires PayloadText(d, r, es)
    ensures ms == ParseMembers(d, SkipWs(d, 1)) && ms.Done?
    ensures ms.value == [(REASONING, JStr(r)), (EDITS, JArr(es))] && SkipWs(d, ms.end) == |d|
    ensures ParseValue(d, 0) == Done(JObj(ms.value), ms.end)
  {
    assert SkipWs(d, 0) == 0;
    assert ParseValue(d, 0) == ParseObject(d, 1);
    ms := ParseMembers(d, SkipWs(d, 1));
  }

  /** A member list of length two goes on after its first member. */
  lemma AfterFirst(d: Text, m: (Text, Json), e: nat, ms: Parsed<seq<(Text, Json)>>)
      returns (rest: Parsed<seq<(Text, Json)>>)
    requires e <= |d| && ms.Done? && |ms.value| == 2 && AfterMember(d, m, e) == ms
    ensures At(d, SkipWs(d, e), ',') && rest == ParseMembers(d, SkipWs(d, SkipWs(d, e) + 1)) && rest.Done?
    ensures ms.value == [m] + rest.value && ms.end == rest.end
  {
    var j := SkipWs(d, e);
    assert !At(d, j, '}');
    rest := ParseMembers(d, SkipWs(d, j + 1));
  }

  /** A member list of length one ends right after its member. */
  lemma AfterMemberIs(d: Text, m: (Text, Json), e: nat, rest: Parsed<seq<(Text, Json)>>)
    requires e <= |d| && rest.Done? && |rest.value| == 1 && AfterMember(d, m, e) == rest
    ensures rest.value == [m] && At(d, SkipWs(d, e), '}') && rest.end == SkipWs(d, e) + 1
  {
  }

  lemma FirstMember(d: Text, k: nat, ms: Parsed<seq<(Text, Json)>>)
      returns (m: (Text, Json), e: nat, rest: Parsed<seq<(Text, Json)>>)
    requires ms == ParseMembers(d, k) && ms.Done? && |ms.value| == 2
    ensures ParseMember(d, k) == Done(m, e) && k < e <= |d| && m == ms.value[0]
    ensures At(d, SkipWs(d, e), ',') && rest == ParseMembers(d, SkipWs(d, SkipWs(d, e) + 1)) && rest.Done?
    ensures rest.value == [ms.value[1]] && rest.end == ms.end
  {
    var p := ParseMember(d, k);
    m, e := p.value, p.end;
    rest := AfterFirst(d, m, e, ms);
    assert rest.value == ms.value[1..];
  }

  lemma LastMember(d: Text, k: nat, rest: Parsed<seq<(Text, Json)>>) returns (e: nat)
    requires rest == ParseMembers(d, k) && rest.Done? && |rest.value| == 1
    ensures ParseMember(d, k) == Done(rest.value[0], e) && k < e <= |d|
    ensures At(d, SkipWs(d, e), '}') && rest.end == SkipWs(d, e) + 1
  {
    var m := ParseMember(d, k);
    e := m.end;
    AfterMemberIs(d, m.value, e, rest);
  }

  /** A member whose value is an array. */
  lemma ArrayMember(d: Text, k: nat, key: Text, es: seq<Json>, e: nat) returns (q: nat, c: nat, a: nat)
    requires ParseMember(d, k) == Done((key, JArr(es)), e)
    ensures At(d, k, '"') && StringBody(d, k + 1) == Done(key, q) && k < q <= |d|
    ensures SkipWs(d, q) == c && At(d, c, ':') && SkipWs(d, c + 1) == a
    ensures At(d, a, '[') && ParseArray(d, a + 1) == Done(JArr(es), e)
  {
    q := StringBody(d, k + 1).end;
    c := SkipWs(d, q);
    a := SkipWs(d, c + 1);
    assert ParseValue(d, a) == Done(JArr(es), e);
    OnlyArrays(d, a);
  }

  lemma OnlyArrays(d: Text, i: nat)
    requires ParseValue(d, i).Done? && ParseValue(d, i).value.JArr?
    ensures At(d, i, '[') && ParseArray(d, i + 1) == ParseValue(d, i)
  {
  }

  lemma PayloadParts(d: Text, r: Text, es: seq<Json>) returns (k1: nat, e1: nat, k2: nat, e2: nat)
    requires PayloadText(d, r, es)
    ensures SkipWs(d, 1) == k1 && ParseMember(d, k1) == Done((REASONING, JStr(r)), e1) && k1 < e1 <= |d|
    ensures At(d, SkipWs(d, e1), ',') && SkipWs(d, SkipWs(d, e1) + 1) == k2
    ensures ParseMember(d, k2) == Done((EDITS, JArr(es)), e2) && k2 < e2 <= |d|
    ensures At(d, SkipWs(d, e2), '}') && SkipWs(d, SkipWs(d, e2) + 1) == |d|
    ensures ParseValue(d, 0) == Done(JObj([(REASONING, JStr(r)), (EDITS, JArr(es))]), SkipWs(d, e2) + 1)
  {
    hide ParseMember, ParseMembers, AfterMember, SkipWs, ParseValue;
    var ms := PayloadMembers(d, r, es);
    k1 := SkipWs(d, 1);
    var m1, e, rest := FirstMember(d, k1, ms);
    e1 := e;
    k2 := SkipWs(d, SkipWs(d, e1) + 1);
    e2 := LastMember(d, k2, rest);
  }

  lemma HeadFrom(d: Text, r: Text, l: Layout)
    requires Ordered(d, l) && At(d, 0, '{') && SkipWs(d, 1) == l.k1
    requires ParseMember(d, l.k1) == Done((REASONING, JStr(r)), l.e1)
    requires SkipWs(d, l.e1) == l.j1 && At(d, l.j1, ',') && SkipWs(d, l.j1 + 1) == l.k2
    ensures HeadAt(d, r, l)
  {
  }

  lemma LayoutFrom(d: Text, r: Text, es: seq<Json>, k1: nat, e1: nat, k2: nat, e2: nat) returns (l: Layout)
    requires At(d, 0, '{') && SkipWs(d, 1) == k1 && k1 < e1 <= |d|
    requires ParseMember(d, k1) == Done((REASONING, JStr(r)), e1)
    requires At(d, SkipWs(d, e1), ',') && SkipWs(d, SkipWs(d, e1) + 1) == k2
    requires ParseMember(d, k2) == Done((EDITS, JArr(es)), e2) && k2 < e2 <= |d|
    requires At(d, SkipWs(d, e2), '}') && SkipWs(d, SkipWs(d, e2) + 1) == |d|
    ensures PayloadAt(d, r, es, l)
  {
    hide ParseMember, ParseArray, StringBody, SkipWs;
    var q, c2, a := ArrayMember(d, k2, EDITS, es, e2);
    l := Layout(k1, e1, SkipWs(d, e1), k2, q, c2, a, e2, SkipWs(d, e2));
    HeadFrom(d, r, l);
  }

  /** Every payload text has a layout. */
  lemma PayloadLayout(d: Text, r: Text, es: seq<Json>) returns (l: Layout)
    requires PayloadText(d, r, es)
    ensures PayloadAt(d, r, es, l)
  {
    var k1, e1, k2, e2 := PayloadParts(d, r, es);
    l := LayoutFrom(d, r, es, k1, e1, k2, e2);
  }

  // ----- what a torn text parses to

  /** Past `m` the text only closes: an optional quote, then closing brackets. */
  ghost predicate TailOk(u: Text, m: nat) {
    forall k | m <= k < |u| :: u[k] == ']' as int || u[k] == '}' as int || (k == m && u[k] == '"' as int)
  }

  lemma {:induction false} NoStringInTail(u: Text, m: nat, i: nat)
    requires TailOk(u, m) && i > m
    ensures StringBody(u, i).Fail?
    decreases if i <= |u| then |u| - i else 0
  {
    if i < |u| { NoStringInTail(u, m, i + 1); }
  }

  lemma NoValueInTail(u: Text, m: nat, s: nat)
    requires TailOk(u, m) && s >= m
    ensures ParseValue(u, s).Fail?
  {
    if s < |u| && u[s] == '"' as int { NoStringInTail(u, m, s + 1); }
  }

  lemma NoElemsInTail(u: Text, m: nat, s: nat)
    requires TailOk(u, m) && s >= m
    ensures ParseElems(u, s).Fail?
  {
    NoValueInTail(u, m, s);
  }

  lemma NoCommaInTail(u: Text, m: nat, v: Json, e: nat)
    requires TailOk(u, m) && e <= |u| && SkipWs(u, e) >= m && AfterElem(u, v, e).Done?
    ensures AfterElem(u, v, e) == Done([v], SkipWs(u, e) + 1)
  {
  }

  lemma TailStops(d: Text, u: Text, m: nat, e: nat)
    requires Agree(d, u, m) && TailOk(u, m) && e <= m && NumStop(d, e)
    ensures NumStop(u, e)
  {
  }

  /** `xs` is the first `n` of `es` and at most one element more. */
  ghost predicate AtMostOneMore(xs: seq<Json>, es: seq<Json>, n: nat) {
    n <= |es| && n <= |xs| <= n + 1 && xs[..n] == es[..n]
  }

  ghost predicate Ascending(xs: seq<nat>, above: nat) {
    && (forall k | 0 <= k < |xs| :: above < xs[k])
    && (forall k, l | 0 <= k < l < |xs| :: xs[k] < xs[l])
  }

  lemma AscendingCons(x: nat, xs: seq<nat>, above: nat, below: nat)
    requires above < x <= below && Ascending(xs, below)
    ensures Ascending([x] + xs, above)
  {
  }

  lemma {:induction false} EndsGrow(d: Text, s: nat)
    ensures Ascending(ElemEnds(d, s), s)
    decreases Left(d, s), 2
  {
    var v := ParseValue(d, s);
    if v.Done? { EndsFromGrow(d, s, v.end); }
  }

  lemma {:induction false} EndsFromGrow(d: Text, s: nat, e: nat)
    requires s < e <= |d|
    ensures Ascending(EndsFrom(d, e), s)
    decreases Left(d, e), 3
  {
    hide ElemEnds;
    var j := SkipWs(d, e);
    if At(d, j, ',') {
      EndsGrow(d, SkipWs(d, j + 1));
      AscendingCons(e, ElemEnds(d, SkipWs(d, j + 1)), s, SkipWs(d, j + 1));
    }
  }

  /** Ends at or before `c` are at or before `m`. */
  ghost predicate EndBy(ends: seq<nat>, c: nat, m: nat) {
    forall k | 0 <= k < |ends| && ends[k] <= c :: ends[k] <= m
  }

  lemma TailEnds(e: nat, rest: seq<nat>, m: nat, c: nat)
    requires e <= c && EndBy([e] + rest, c, m)
    ensures EndBy(rest, c, m)
    ensures CountUpTo([e] + rest, c) == 1 + CountUpTo(rest, c)
  {
    var ends := [e] + rest;
    assert ends[1..] == rest;
    assert forall k | 0 <= k < |rest| :: rest[k] == ends[k + 1];
  }

  /** The elements read from `u`, which has the first `m` code points of `d` and then
      only closes: those of `d` that end by `c`, and at most one more. */
  lemma {:induction false} ElemsTorn(d: Text, u: Text, m: nat, c: nat, s: nat)
    requires ParseElems(d, s).Done? && ParseElems(u, s).Done?
    requires Agree(d, u, m) && TailOk(u, m) && m <= c && EndBy(ElemEnds(d, s), c, m)
    ensures AtMostOneMore(ParseElems(u, s).value, ParseElems(d, s).value, CountUpTo(ElemEnds(d, s), c))
    ensures ParseElems(u, s).end > m || ParseElems(u, s) == ParseElems(d, s)
    decreases Left(d, s), 2
  {
    var v, w := ParseValue(d, s), ParseValue(u, s);
    AfterElemStops(d, v.value, v.end);
    AfterElemStops(u, w.value, w.end);
    if v.end <= c {
      assert EndsFrom(d, v.end)[0] == v.end;
      TailStops(d, u, m, v.end);
      ValueLocal(d, u, s, m);
      AfterTorn(d, u, m, c, v.value, v.end);
    } else {
      if w.end < m { ValueLocal(u, d, s, w.end); }
      NoCommaInTail(u, m, w.value, w.end);
    }
  }

  lemma {:induction false} AfterTorn(d: Text, u: Text, m: nat, c: nat, v: Json, e: nat)
    requires Agree(d, u, m) && TailOk(u, m) && e <= m <= c
    requires AfterElem(d, v, e).Done? && AfterElem(u, v, e).Done? && EndBy(EndsFrom(d, e), c, m)
    ensures AtMostOneMore(AfterElem(u, v, e).value, AfterElem(d, v, e).value, CountUpTo(EndsFrom(d, e), c))
    ensures AfterElem(u, v, e).end > m || AfterElem(u, v, e) == AfterElem(d, v, e)
    decreases Left(d, e), 3
  {
    hide ParseElems, ElemEnds, ParseValue, EndBy, TailOk;
    var j := SkipWs(d, e);
    SkipWsLocal(d, u, e, m);
    if j >= m {
      NoCommaInTail(u, m, v, e);
      RestAfter(d, e, m, c);
    } else if At(d, j, ',') {
      var s := SkipWs(d, j + 1);
      SkipWsLocal(d, u, j + 1, m);
      TailEnds(e, ElemEnds(d, s), m, c);
      if s >= m { NoElemsInTail(u, m, SkipWs(u, j + 1)); }
      ElemsTorn(d, u, m, c, s);
      OneMoreCons(v, ParseElems(u, s).value, ParseElems(d, s).value, CountUpTo(ElemEnds(d, s), c));
    }
  }

  lemma OneMoreCons(v: Json, xs: seq<Json>, es: seq<Json>, n: nat)
    requires AtMostOneMore(xs, es, n)
    ensures AtMostOneMore([v] + xs, [v] + es, n + 1)
  {
    assert ([v] + xs)[..n + 1] == [v] + xs[..n];
    assert ([v] + es)[..n + 1] == [v] + es[..n];
  }

  /** If the comma after an element lies at or past `m`, no later element ends by `c`. */
  lemma RestAfter(d: Text, e: nat, m: nat, c: nat)
    requires e <= |d| && e <= c && SkipWs(d, e) >= m && EndBy(EndsFrom(d, e), c, m)
    ensures CountUpTo(EndsFrom(d, e), c) == 1
  {
    var j := SkipWs(d, e);
    if At(d, j, ',') {
      var rest := ElemEnds(d, SkipWs(d, j + 1));
      EndsGrow(d, SkipWs(d, j + 1));
      TailEnds(e, rest, m, c);
    } else {
      assert EndsFrom(d, e) == [e] + [];
      TailEnds(e, [], m, c);
    }
  }

  // ----- the text before the edits

  /** The member that holds the edits, in a text torn after their `[`. */
  lemma SecondMember(d: Text, l: Layout, u: Text, m: nat)
    requires KeyAt(d, l) && Agree(d, u, m) && l.a < m
    ensures ParseMember(u, l.k2) == if ParseArray(u, l.a + 1).Done?
            then Done((EDITS, ParseArray(u, l.a + 1).value), ParseArray(u, l.a + 1).end) else Fail
  {
    hide ParseArray, ParseValue, StringBody, SkipWs;
    StringLocal(d, u, l.k2 + 1, m);
    SkipWsLocal(d, u, l.q, m);
    SkipWsLocal(d, u, l.c2 + 1, m);
    BracketOpens(u, l.a);
  }

  lemma BracketOpens(u: Text, a: nat)
    requires At(u, a, '[')
    ensures ParseValue(u, a) == ParseArray(u, a + 1)
  {
    hide ParseArray;
  }

  lemma KeyQuoted(u: Text, k: nat)
    requires ParseMember(u, k).Done?
    ensures At(u, k, '"')
  {
  }

  /** A torn text reads like the whole one up to its second member. */
  lemma HeadTorn(d: Text, r: Text, l: Layout, u: Text, m: nat)
    requires HeadAt(d, r, l) && Agree(d, u, m) && l.k2 < m
    ensures ParseMembers(u, l.k1) == AfterMember(u, (REASONING, JStr(r)), l.e1)
    ensures SkipWs(u, 1) == l.k1 && At(u, l.k1, '"') && At(u, 0, '{')
    ensures SkipWs(u, l.e1) == l.j1 && At(u, l.j1, ',') && SkipWs(u, l.j1 + 1) == l.k2
  {
    hide ParseMember, ParseValue, SkipWs;
    SkipWsLocal(d, u, 1, m);
    MemberLocal(d, u, l.k1, m);
    KeyQuoted(u, l.k1);
    SkipWsLocal(d, u, l.e1, m);
    SkipWsLocal(d, u, l.j1 + 1, m);
  }

  lemma HeadParses(r: Text, l: Layout, u: Text)
    requires l.k1 <= l.e1 <= |u|
    requires ParseMembers(u, l.k1) == AfterMember(u, (REASONING, JStr(r)), l.e1)
    requires At(u, 0, '{') && SkipWs(u, 1) == l.k1 && At(u, l.k1, '"')
    requires SkipWs(u, l.e1) == l.j1 && At(u, l.j1, ',') && SkipWs(u, l.j1 + 1) == l.k2
    ensures SkipWs(u, 0) == 0
    ensures ParseValue(u, 0) == if ParseMembers(u, l.k2).Done?
            then Done(JObj([(REASONING, JStr(r))] + ParseMembers(u, l.k2).value), ParseMembers(u, l.k2).end) else Fail
  {
    assert ParseValue(u, 0) == ParseObject(u, 1);
  }

  lemma {:induction false} EndsCount(d: Text, s: nat)
    requires ParseElems(d, s).Done?
    ensures |ElemEnds(d, s)| == |ParseElems(d, s).value|
    ensures SolidEnds(d, ElemEnds(d, s), ParseElems(d, s).end)
    decreases Left(d, s), 2
  {
    var v := ParseValue(d, s);
    ValueEndsSolid(d, s);
    EndsFromCount(d, v.value, v.end);
  }

  /** Every end is before `limit` and follows something solid. */
  ghost predicate SolidEnds(d: Text, ends: seq<nat>, limit: nat) {
    forall k | 0 <= k < |ends| :: 0 < ends[k] < limit <= |d| && Solid(d[ends[k] - 1])
  }

  lemma {:induction false} EndsFromCount(d: Text, v: Json, e: nat)
    requires 0 < e <= |d| && AfterElem(d, v, e).Done? && Solid(d[e - 1])
    ensures |EndsFrom(d, e)| == |AfterElem(d, v, e).value|
    ensures SolidEnds(d, EndsFrom(d, e), AfterElem(d, v, e).end)
    decreases Left(d, e), 3
  {
    hide ParseElems, ElemEnds, Solid;
    var j := SkipWs(d, e);
    if At(d, j, ',') {
      AfterComma(d, v, e);
      EndsCount(d, SkipWs(d, j + 1));
      SolidCons(d, e, ElemEnds(d, SkipWs(d, j + 1)), AfterElem(d, v, e).end);
    }
  }

  lemma AfterComma(t: Text, v: Json, e: nat)
    requires e <= |t| && AfterElem(t, v, e).Done? && At(t, SkipWs(t, e), ',')
    ensures var rest := ParseElems(t, SkipWs(t, SkipWs(t, e) + 1));
            rest.Done? && AfterElem(t, v, e) == Done([v] + rest.value, rest.end)
  {
  }

  lemma SolidCons(d: Text, e: nat, rest: seq<nat>, limit: nat)
    requires SolidEnds(d, rest, limit) && 0 < e < limit <= |d| && Solid(d[e - 1])
    ensures SolidEnds(d, [e] + rest, limit)
  {
  }

  /** There is one end per element, inside the array, after something solid. */
  lemma ArrayEndsFacts(d: Text, i: nat, es: seq<Json>, e: nat)
    requires i <= |d| && ParseArray(d, i) == Done(JArr(es), e)
    ensures |EditEnds(d, i)| == |es| && Ascending(EditEnds(d, i), i) && SolidEnds(d, EditEnds(d, i), e)
  {
    var s := SkipWs(d, i);
    if !At(d, s, ']') {
      EndsCount(d, s);
      EndsGrow(d, s);
    }
  }

  lemma ArrayTorn(d: Text, u: Text, m: nat, c: nat, i: nat, es: seq<Json>, e: nat)
    requires i <= m <= c && Agree(d, u, m) && TailOk(u, m) && EndBy(EditEnds(d, i), c, m)
    requires ParseArray(d, i) == Done(JArr(es), e) && ParseArray(u, i).Done?
    ensures ParseArray(u, i).value.JArr?
    ensures AtMostOneMore(ParseArray(u, i).value.elems, es, CountUpTo(EditEnds(d, i), c))
    ensures ParseArray(u, i).end > m || ParseArray(u, i).end == e
  {
    var s := SkipWs(d, i);
    SkipWsLocal(d, u, i, m);
    if s < m {
      if !At(d, s, ']') { ElemsTorn(d, u, m, c, s); }
    } else {
      NoValueInTail(u, m, SkipWs(u, i));
      if !At(d, s, ']') { EndsGrow(d, s); }
    }
  }

  /** `x` is a payload with the reasoning and the first `n` edits, and at most one more. */
  ghost predicate Torn(x: Json, r: Text, es: seq<Json>, n: nat) {
    && x.JObj? && |x.members| == 2
    && x.members[0] == (REASONING, JStr(r))
    && x.members[1].0 == EDITS && x.members[1].1.JArr?
    && AtMostOneMore(x.members[1].1.elems, es, n)
  }

  lemma NoMoreMembers(u: Text, m: nat, mem: (Text, Json), e: nat)
    requires TailOk(u, m) && e <= |u| && AfterMember(u, mem, e).Done?
    requires SkipWs(u, e) >= m || At(u, SkipWs(u, e), '}')
    ensures AfterMember(u, mem, e).value == [mem]
  {
  }

  lemma BraceStays(d: Text, u: Text, m: nat, e: nat)
    requires Agree(d, u, m) && e <= |d| && At(d, SkipWs(d, e), '}') && e <= |u|
    ensures SkipWs(u, e) >= m || At(u, SkipWs(u, e), '}')
  {
    if e <= m { SkipWsLocal(d, u, e, m); }
  }

  /** The member list of a torn text holds the edits and nothing after them. */
  lemma TornMembers(d: Text, es: seq<Json>, l: Layout, u: Text, m: nat, c: nat)
    requires KeyAt(d, l) && BodyAt(d, es, l) && Agree(d, u, m) && TailOk(u, m)
    requires l.a < m <= c && EndBy(EditEnds(d, l.a + 1), c, m) && ParseMembers(u, l.k2).Done?
    ensures ParseArray(u, l.a + 1).Done? && ParseArray(u, l.a + 1).value.JArr?
    ensures AtMostOneMore(ParseArray(u, l.a + 1).value.elems, es, Contained(d, l, c))
    ensures ParseMembers(u, l.k2).value == [(EDITS, ParseArray(u, l.a + 1).value)]
  {
    SecondMember(d, l, u, m);
    var arr := ParseArray(u, l.a + 1);
    MembersStart(u, l.k2);
    TornArray(d, es, l, u, m, c);
    NoMoreMembers(u, m, (EDITS, arr.value), arr.end);
  }

  lemma MembersStart(u: Text, k: nat)
    requires ParseMembers(u, k).Done?
    ensures ParseMember(u, k).Done? && ParseMembers(u, k)
            == AfterMember(u, ParseMember(u, k).value, ParseMember(u, k).end)
  {
  }

  lemma TornArray(d: Text, es: seq<Json>, l: Layout, u: Text, m: nat, c: nat)
    requires BodyAt(d, es, l) && Agree(d, u, m) && TailOk(u, m) && l.a < m && ParseArray(u, l.a + 1).Done?
    requires m <= c && EndBy(EditEnds(d, l.a + 1), c, m)
    ensures ParseArray(u, l.a + 1).value.JArr?
    ensures AtMostOneMore(ParseArray(u, l.a + 1).value.elems, es, Contained(d, l, c))
    ensures var e := ParseArray(u, l.a + 1).end; SkipWs(u, e) >= m || At(u, SkipWs(u, e), '}')
  {
    hide ParseArray, SkipWs, EditEnds, EndBy, TailOk;
    ArrayTorn(d, u, m, c, l.a + 1, es, l.e2);
    if ParseArray(u, l.a + 1).end <= m { BraceStays(d, u, m, ParseArray(u, l.a + 1).end); }
  }

  /** Whatever a torn payload parses to keeps the edits that end by `c`. */
  lemma TornDoc(d: Text, r: Text, es: seq<Json>, l: Layout, u: Text, m: nat, c: nat)
    requires HeadAt(d, r, l) && KeyAt(d, l) && BodyAt(d, es, l) && Agree(d, u, m) && TailOk(u, m)
    requires l.a < m <= c && EndBy(EditEnds(d, l.a + 1), c, m) && ParseDoc(u).Some?
    ensures Torn(ParseDoc(u).value, r, es, Contained(d, l, c))
  {
    hide ParseMembers, AfterMember, ParseMember, ParseArray, SkipWs, EditEnds, EndBy, TailOk, ParseValue, StringBody;
    HeadTorn(d, r, l, u, m);
    HeadParses(r, l, u);
    TornMembers(d, es, l, u, m, c);
  }

  // ----- some repair parses

  /** The end of the last of `ends` that `c` reaches, or the position after the `[`. */
  function LastStop(a: nat, ends: seq<nat>, c: nat): (b: nat)
    ensures b == a + 1 || b in ends
  {
    var n := CountUpTo(ends, c);
    if 0 < n <= |ends| then ends[n - 1] else a + 1
  }

  lemma {:induction false} CountFacts(ends: seq<nat>, c: nat, above: nat)
    requires Ascending(ends, above)
    ensures var n := CountUpTo(ends, c);
            n <= |ends| && (forall k | 0 <= k < n :: ends[k] <= c) && (forall k | n <= k < |ends| :: ends[k] > c)
  {
    if ends != [] && ends[0] <= c {
      assert Ascending(ends[1..], ends[0]);
      CountFacts(ends[1..], c, ends[0]);
      assert forall k | 1 <= k < |ends| :: ends[k] == ends[1..][k - 1];
    }
  }

  lemma {:induction false} CountAll(ends: seq<nat>, c: nat)
    requires forall k | 0 <= k < |ends| :: ends[k] <= c
    ensures CountUpTo(ends, c) == |ends|
  {
    if ends != [] { CountAll(ends[1..], c); }
  }

  lemma LastStopFacts(a: nat, ends: seq<nat>, c: nat)
    requires Ascending(ends, a + 1) && a < c
    ensures CountUpTo(ends, c) <= |ends|
    ensures a < LastStop(a, ends, c) <= c && EndBy(ends, c, LastStop(a, ends, c))
  {
    CountFacts(ends, c, a + 1);
  }

  /** Reaching less far, but still the last stop, changes neither count nor stop. */
  lemma SameStop(a: nat, ends: seq<nat>, c: nat, c': nat)
    requires Ascending(ends, a + 1) && a < c' <= c && LastStop(a, ends, c) <= c'
    ensures CountUpTo(ends, c') == CountUpTo(ends, c)
  {
    CountFacts(ends, c, a + 1);
    CountFacts(ends, c', a + 1);
    var n, n' := CountUpTo(ends, c), CountUpTo(ends, c');
    assert n > 0 ==> ends[n - 1] == LastStop(a, ends, c);
    assert n > 0 ==> ends[n - 1] <= c';
  }

  lemma {:induction false} ElemsClosed(d: Text, u: Text, m: nat, s: nat)
    requires ParseElems(d, s).Done? && m in ElemEnds(d, s)
    requires Agree(d, u, m) && TailOk(u, m) && At(u, m, ']')
    ensures ParseElems(u, s).Done? && ParseElems(u, s).end == m + 1
    decreases Left(d, s), 2
  {
    var v := ParseValue(d, s);
    EndsFromFrom(d, v.end, m);
    AfterElemStops(d, v.value, v.end);
    TailStops(d, u, m, v.end);
    ValueLocal(d, u, s, m);
    FromClosed(d, u, m, v.value, v.end);
  }

  lemma EndsFromFrom(d: Text, e: nat, m: nat)
    requires 0 < e <= |d| && m in EndsFrom(d, e)
    ensures e <= m
  {
    EndsFromGrow(d, e - 1, e);
  }

  lemma {:induction false} FromClosed(d: Text, u: Text, m: nat, v: Json, e: nat)
    requires e <= m && Agree(d, u, m) && TailOk(u, m) && At(u, m, ']')
    requires AfterElem(d, v, e).Done? && m in EndsFrom(d, e)
    ensures AfterElem(u, v, e).Done? && AfterElem(u, v, e).end == m + 1
    decreases Left(d, e), 3
  {
    hide AfterElem, EndsFrom, ParseElems, ElemEnds;
    if e < m {
      NextEnd(d, e, m);
      var j := SkipWs(d, e);
      var s := SkipWs(d, j + 1);
      AfterComma(d, v, e);
      SkipWsLocal(d, u, e, m);
      SkipWsLocal(d, u, j + 1, m);
      ElemsClosed(d, u, m, s);
      ClosedComma(u, v, e, s);
    } else {
      ClosedHere(u, v, m);
    }
  }

  lemma ClosedComma(u: Text, v: Json, e: nat, s: nat)
    requires e <= |u| && At(u, SkipWs(u, e), ',') && s == SkipWs(u, SkipWs(u, e) + 1) && ParseElems(u, s).Done?
    ensures AfterElem(u, v, e).Done? && AfterElem(u, v, e).end == ParseElems(u, s).end
  {
    hide ParseElems;
  }

  lemma ClosedHere(u: Text, v: Json, m: nat)
    requires At(u, m, ']')
    ensures AfterElem(u, v, m).Done? && AfterElem(u, v, m).end == m + 1
  {
    assert SkipWs(u, m) == m;
  }

  lemma NextEnd(d: Text, e: nat, m: nat)
    requires e < m && e <= |d| && m in EndsFrom(d, e)
    ensures At(d, SkipWs(d, e), ',')
    ensures var s := SkipWs(d, SkipWs(d, e) + 1); m in ElemEnds(d, s) && s < m
  {
    hide ElemEnds;
    var j := SkipWs(d, e);
    if At(d, j, ',') { EndsGrow(d, SkipWs(d, j + 1)); }
  }

  lemma ArrayClosed(d: Text, u: Text, b: nat, i: nat)
    requires i <= b <= |d| && ParseArray(d, i).Done? && (b == i || b in EditEnds(d, i))
    requires Agree(d, u, b) && TailOk(u, b) && At(u, b, ']')
    ensures ParseArray(u, i).Done? && ParseArray(u, i).end == b + 1
  {
    if b != i {
      var s := SkipWs(d, i);
      EndsGrow(d, s);
      SkipWsLocal(d, u, i, b);
      StartsNoBracket(u, s, b);
      ElemsClosed(d, u, b, s);
    }
  }

  lemma StartsNoBracket(u: Text, s: nat, b: nat)
    ensures At(u, s, ']') ==> ParseElems(u, s).Fail?
  {
  }

  /** Closed right after its last contained edit, a payload parses. */
  lemma ClosedParses(d: Text, r: Text, es: seq<Json>, l: Layout, b: nat)
    requires HeadAt(d, r, l) && KeyAt(d, l) && BodyAt(d, es, l) && l.a < b <= |d|
    requires b == l.a + 1 || b in EditEnds(d, l.a + 1)
    ensures ParseDoc(d[..b] + [']' as int, '}' as int]).Some?
  {
    hide ParseMembers, AfterMember, ParseMember, ParseArray, EditEnds, ParseValue, StringBody;
    var u := d[..b] + [']' as int, '}' as int];
    assert Agree(d, u, b) && TailOk(u, b) && At(u, b, ']') && At(u, b + 1, '}');
    HeadTorn(d, r, l, u, b);
    HeadParses(r, l, u);
    ClosedMembers(d, es, l, u, b);
    assert SkipWs(u, b + 2) == b + 2;
  }

  lemma ClosedMembers(d: Text, es: seq<Json>, l: Layout, u: Text, b: nat)
    requires KeyAt(d, l) && BodyAt(d, es, l) && l.a < b <= |d| && (b == l.a + 1 || b in EditEnds(d, l.a + 1))
    requires Agree(d, u, b) && TailOk(u, b) && At(u, b, ']') && At(u, b + 1, '}') && |u| == b + 2
    ensures ParseMembers(u, l.k2).Done? && ParseMembers(u, l.k2).end == b + 2
  {
    hide ParseMember, ParseMembers, ParseArray, StringBody, EditEnds;
    var x := ClosedMember(d, es, l, u, b);
    MembersFrom(u, l.k2, (EDITS, x), b + 1);
    ClosesMembers(u, b, (EDITS, x));
  }

  lemma ClosedMember(d: Text, es: seq<Json>, l: Layout, u: Text, b: nat) returns (x: Json)
    requires KeyAt(d, l) && BodyAt(d, es, l) && l.a < b <= |d| && (b == l.a + 1 || b in EditEnds(d, l.a + 1))
    requires Agree(d, u, b) && TailOk(u, b) && At(u, b, ']')
    ensures ParseMember(u, l.k2) == Done((EDITS, x), b + 1)
  {
    hide ParseMember, ParseArray, StringBody, EditEnds;
    SecondMember(d, l, u, b);
    ArrayClosed(d, u, b, l.a + 1);
    x := ParseArray(u, l.a + 1).value;
  }

  lemma MembersFrom(u: Text, k: nat, mem: (Text, Json), e: nat)
    requires e <= |u| && ParseMember(u, k) == Done(mem, e)
    ensures ParseMembers(u, k) == AfterMember(u, mem, e)
  {
  }

  lemma ClosesMembers(u: Text, b: nat, mem: (Text, Json))
    requires |u| == b + 2 && At(u, b + 1, '}')
    ensures AfterMember(u, mem, b + 1) == Done([mem], b + 2) && SkipWs(u, b + 2) == b + 2
  {
    assert SkipWs(u, b + 1) == b + 1;
  }

  // ----- the repair of a prefix

  lemma {:induction false} ElemsPrefixScan(d: Text, s: nat, b: nat, st: Scan)
    requires ParseElems(d, s).Done? && b in ElemEnds(d, s) && Outside(st)
    ensures s < b <= |d| && ScanRange(st, d, s, b) == st
    decreases Left(d, s), 2
  {
    var v := ParseValue(d, s);
    ValueScan(d, s, st);
    FromPrefixScan(d, v.value, v.end, b, st);
    ScanSplit(st, d, s, v.end, b);
  }

  lemma {:induction false} FromPrefixScan(d: Text, v: Json, e: nat, b: nat, st: Scan)
    requires e <= |d| && AfterElem(d, v, e).Done? && b in EndsFrom(d, e) && Outside(st)
    ensures e <= b <= |d| && ScanRange(st, d, e, b) == st
    decreases Left(d, e), 3
  {
    hide ParseElems, ElemEnds, ParseValue;
    if b != e {
      var j := SkipWs(d, e);
      var s := SkipWs(d, j + 1);
      GapScan(d, e, st);
      ElemsPrefixScan(d, s, b, st);
      ScanSplit(st, d, e, s, b);
    }
  }

  lemma ArrayPrefixScan(d: Text, i: nat, b: nat, st: Scan)
    requires i <= b <= |d| && ParseArray(d, i).Done? && (b == i || b in EditEnds(d, i)) && Outside(st)
    ensures ScanRange(st, d, i, b) == st
  {
    if b != i {
      var s := SkipWs(d, i);
      WsScan(d, i, st);
      ElemsPrefixScan(d, s, b, st);
      ScanSplit(st, d, i, s, b);
    }
  }

  lemma BraceOpens(d: Text)
    requires At(d, 0, '{')
    ensures ScanRange(START, d, 0, 1) == Push(START, '{')
  {
  }

  /** Up to the second key only the object is open. */
  lemma HeadScan(d: Text, r: Text, l: Layout)
    requires HeadAt(d, r, l)
    ensures ScanRange(START, d, 0, l.k2) == Push(START, '{')
  {
    hide ParseMember, ScanRange, ScanStep;
    var one := Push(START, '{');
    BraceOpens(d);
    ScanSplit(START, d, 0, 1, l.k2);
    WsScan(d, 1, one);
    ScanSplit(one, d, 1, l.k1, l.k2);
    MemberScan(d, l.k1, one);
    ScanSplit(one, d, l.k1, l.e1, l.k2);
    GapScan(d, l.e1, one);
  }

  lemma OpenScan(d: Text, l: Layout)
    requires KeyAt(d, l)
    ensures ScanRange(Push(START, '{'), d, l.k2, l.a + 1) == Push(Push(START, '{'), '[')
  {
    var one := Push(START, '{');
    KeyScan(d, l.k2, one);
    ScanSplit(one, d, l.k2, l.a, l.a + 1);
    assert ScanRange(one, d, l.a, l.a + 1) == ScanStep(one, d[l.a]);
  }

  /** At a stop the object and the list of edits are open, and nothing else. */
  lemma StopScan(d: Text, r: Text, es: seq<Json>, l: Layout, b: nat)
    requires HeadAt(d, r, l) && KeyAt(d, l) && BodyAt(d, es, l) && l.a < b <= |d|
    requires b == l.a + 1 || b in EditEnds(d, l.a + 1)
    ensures ScanRange(START, d, 0, b) == Scan(false, false, ['{' as int, '[' as int])
  {
    hide ParseMember, ParseArray, StringBody, SkipWs, ScanRange, ScanStep, EditEnds;
    var two := Push(Push(START, '{'), '[');
    assert two == Scan(false, false, ['{' as int, '[' as int]);
    HeadScan(d, r, l);
    OpenScan(d, l);
    ArrayPrefixScan(d, l.a + 1, b, two);
    ScanSplit(START, d, 0, l.k2, b);
    ScanSplit(Push(START, '{'), d, l.k2, l.a + 1, b);
  }

  /** Something solid is never stripped, nor what stands before it. */
  lemma StripKeeps(t: Text, b: nat)
    requires 0 < b <= |t| && Solid(t[b - 1])
    ensures b <= |StripSeparator(t)| && StripSeparator(t) <= t
    ensures b == |t| ==> StripSeparator(t) == t
  {
    StripDrops(t);
    hide StripSeparator;
  }

  /** A repair keeps its prefix at least up to anything solid, and then only closes. */
  lemma CandidateShape(p: Text, b: nat) returns (m: nat)
    requires 0 < b <= |p| && Solid(p[b - 1])
    ensures b <= m <= |p| && Agree(p, Candidate(p), m) && TailOk(Candidate(p), m)
  {
    var s := ScanText(p);
    ClosersAre(s.stack);
    hide StripSeparator, ScanText, Closers, Solid;
    if s.inString {
      QuotedStays(p);
      m := |p|;
    } else {
      StripKeeps(p, b);
      m := |StripSeparator(p)|;
    }
  }

  /** The repair of a prefix that ends at a stop closes the list and the object. */
  lemma StopCandidate(d: Text, b: nat)
    requires 0 < b <= |d| && Solid(d[b - 1])
    requires ScanRange(START, d, 0, b) == Scan(false, false, ['{' as int, '[' as int])
    ensures Candidate(d[..b]) == d[..b] + [']' as int, '}' as int]
  {
    var p := d[..b];
    ScanSame(START, p, d, 0, b, 0);
    StripKeeps(p, b);
    var st: seq<Code> := ['{' as int, '[' as int];
    assert st[..1] == ['{' as int];
    assert Closers(['{' as int]) == ['}' as int];
    assert Closers(st) == [']' as int, '}' as int];
  }

  /** The stop a cut reaches, with what makes it one. */
  lemma StopAt(d: Text, es: seq<Json>, a: nat, e: nat, c: nat) returns (b: nat)
    requires a < |d| && At(d, a, '[') && ParseArray(d, a + 1) == Done(JArr(es), e) && a < c <= |d|
    ensures b == LastStop(a, EditEnds(d, a + 1), c)
    ensures a < b <= c && Solid(d[b - 1]) && (b == a + 1 || b in EditEnds(d, a + 1))
    ensures EndBy(EditEnds(d, a + 1), c, b) && Ascending(EditEnds(d, a + 1), a + 1)
    ensures |EditEnds(d, a + 1)| == |es| && CountUpTo(EditEnds(d, a + 1), c) <= |es|
  {
    ArrayEndsFacts(d, a + 1, es, e);
    b := StopOf(d, a, EditEnds(d, a + 1), c, e);
  }

  lemma StopOf(d: Text, a: nat, ends: seq<nat>, c: nat, e: nat) returns (b: nat)
    requires At(d, a, '[') && a < c <= |d| && Ascending(ends, a + 1) && SolidEnds(d, ends, e)
    ensures b == LastStop(a, ends, c) && a < b <= c && Solid(d[b - 1]) && (b == a + 1 || b in ends)
    ensures EndBy(ends, c, b) && CountUpTo(ends, c) <= |ends|
  {
    LastStopFacts(a, ends, c);
    b := LastStop(a, ends, c);
  }

  lemma StopParses(d: Text, r: Text, es: seq<Json>, l: Layout, b: nat)
    requires HeadAt(d, r, l) && KeyAt(d, l) && BodyAt(d, es, l) && l.a < b <= |d| && Solid(d[b - 1])
    requires b == l.a + 1 || b in EditEnds(d, l.a + 1)
    ensures ParseDoc(Candidate(d[..b])).Some?
  {
    StopScan(d, r, es, l, b);
    StopCandidate(d, b);
    ClosedParses(d, r, es, l, b);
  }

  /** A cut past a stop either has a repair that parses to a torn payload, or none. */
  lemma CutTorn(d: Text, r: Text, es: seq<Json>, l: Layout, c: nat, b: nat, cut: nat)
    requires HeadAt(d, r, l) && KeyAt(d, l) && BodyAt(d, es, l) && l.a < b <= cut <= c <= |d| && Solid(d[b - 1])
    requires EndBy(EditEnds(d, l.a + 1), c, b) && ParseDoc(Candidate(d[..cut])).Some?
    ensures Torn(ParseDoc(Candidate(d[..cut])).value, r, es, Contained(d, l, c))
  {
    hide Candidate, ParseDoc, HeadAt, KeyAt, BodyAt, Torn;
    var p := d[..cut];
    var m := CandidateShape(p, b);
    assert Agree(d, Candidate(p), m);
    TornDoc(d, r, es, l, Candidate(p), m, c);
  }

  /** The search, started at or past a success, ends in the first one. */
  lemma {:induction false} SearchFinds(attempt: nat -> Option<Json>, cut: nat, b: nat, good: Json -> bool)
    requires 0 < b <= cut && attempt(b).Some?
    requires forall k: nat | b <= k <= cut && attempt(k).Some? :: good(attempt(k).value)
    ensures FirstSome(attempt, cut).Some? && good(FirstSome(attempt, cut).value)
    decreases cut
  {
    if attempt(cut).None? { SearchFinds(attempt, cut - 1, b, good); }
  }

  lemma RepairTorn(d: Text, r: Text, es: seq<Json>, l: Layout, c: nat, b: nat)
    requires HeadAt(d, r, l) && KeyAt(d, l) && BodyAt(d, es, l) && l.a < b <= c <= |d| && Solid(d[b - 1])
    requires (b == l.a + 1 || b in EditEnds(d, l.a + 1)) && EndBy(EditEnds(d, l.a + 1), c, b)
    ensures Repair(d[..c]).Some? && Torn(Repair(d[..c]).value, r, es, Contained(d, l, c))
  {
    hide ParseDoc, Candidate, HeadAt, KeyAt, BodyAt, Torn, EndBy, EditEnds;
    var n := Contained(d, l, c);
    var attempt := Attempts(d[..c]);
    assert forall k | 0 <= k <= c :: d[..c][..k] == d[..k];
    StopParses(d, r, es, l, b);
    forall k: nat | b <= k <= c && attempt(k).Some?
      ensures Torn(attempt(k).value, r, es, n)
    {
      CutTorn(d, r, es, l, c, b, k);
    }
    SearchFinds(attempt, c, b, x => Torn(x, r, es, n));
  }

  // ----- the theorem

  lemma {:induction false} LStripSpaces(lead: Text, t: Text)
    requires forall k | 0 <= k < |lead| :: IsSpace(lead[k])
    requires t != [] && !IsSpace(t[0])
    ensures LStrip(lead + t) == t
  {
    if lead == [] {
      assert lead + t == t;
    } else {
      assert (lead + t)[1..] == lead[1..] + t;
      LStripSpaces(lead[1..], t);
    }
  }

  lemma {:induction false} CompleteOnlyConcat(a: seq<Json>, b: seq<Json>)
    ensures CompleteOnly(a + b) == CompleteOnly(a) + CompleteOnly(b)
  {
    if a == [] {
      assert a + b == b;
    } else {
      assert (a + b)[1..] == a[1..] + b;
      CompleteOnlyConcat(a[1..], b);
    }
  }

  /** The payload keeps the reasoning and the finished edits, and at most one edit more. */
  ghost predicate Keeps(o: Outcome, r: Text, finished: seq<Json>) {
    && o.Accepted?
    && o.payload.reasoning == r
    && CompleteOnly(finished) <= o.payload.edits
    && |o.payload.edits| <= |CompleteOnly(finished)| + 1
  }

  lemma GetPair(ms: seq<(Text, Json)>)
    requires |ms| == 2 && ms[0].0 == REASONING && ms[1].0 == EDITS
    ensures Get(ms, EDITS) == Some(ms[1].1) && Get(ms, REASONING) == Some(ms[0].1)
  {
    assert |REASONING| == 9 && |EDITS| == 5;
    assert ms[..1] == [ms[0]];
    assert Get(ms, REASONING) == Get(ms[..1], REASONING);
  }

  lemma ValidateTorn(x: Json, r: Text, es: seq<Json>, n: nat, repaired: bool)
    requires Torn(x, r, es, n)
    ensures n <= |es| && Keeps(Validate(x, repaired), r, es[..n]) && Validate(x, repaired).repaired == repaired
    ensures x.members[1].1.elems == es ==> Validate(x, repaired).payload.edits == CompleteOnly(es)
  {
    hide Validate, CompleteOnly, AtMostOneMore;
    ValidatePair(x.members, r, x.members[1].1.elems, repaired);
    KeptTorn(x.members[1].1.elems, es, n);
  }

  lemma ValidatePair(ms: seq<(Text, Json)>, r: Text, xs: seq<Json>, repaired: bool)
    requires |ms| == 2 && ms[0] == (REASONING, JStr(r)) && ms[1] == (EDITS, JArr(xs))
    ensures var o := Validate(JObj(ms), repaired);
            o.Accepted? && o.payload == Payload(r, CompleteOnly(xs)) && o.repaired == repaired
  {
    hide CompleteOnly, Get;
    GetPair(ms);
  }

  lemma KeptTorn(xs: seq<Json>, es: seq<Json>, n: nat)
    requires AtMostOneMore(xs, es, n)
    ensures n <= |es| && CompleteOnly(es[..n]) <= CompleteOnly(xs) && |CompleteOnly(xs)| <= |CompleteOnly(es[..n])| + 1
  {
    hide CompleteOnly;
    assert xs == es[..n] + xs[n..];
    CompleteOnlyConcat(es[..n], xs[n..]);
    CompleteOnlyLength(xs[n..]);
  }

  /** Stripping keeps a cut payload up to its last stop, and there is no fence. */
  lemma StripTorn(lead: Text, d: Text, c: nat, b: nat) returns (c': nat)
    requires forall k | 0 <= k < |lead| :: IsSpace(lead[k])
    requires At(d, 0, '{') && 0 < b <= c <= |d| && Solid(d[b - 1])
    ensures b <= c' <= c && StripFence(lead + d[..c]) == Strip(lead + d[..c]) == d[..c']
    ensures c' < c ==> IsSpace(d[c'])
    ensures forall k | c' <= k < c :: IsSpace(d[k])
    ensures !IsSpace(d[c' - 1])
  {
    var t := d[..c];
    LStripSpaces(lead, t);
    var q := RStrip(t);
    c' := |q|;
    assert t[b - 1] == d[b - 1];
    assert b <= c' && q == d[..c'];
    assert Codes("```")[0] == 0x60;
    assert forall k | c' <= k < c :: t[k] == d[k];
    assert q[c' - 1] == d[c' - 1];
  }

  /** Truncation keeps finished work. `d` is any JSON text of a payload, however spaced
      and escaped; `c` code points of it, at least through the `[` of the edits, with any
      space before them, decode to the full reasoning and to exactly those contained
      edits that are complete, followed by at most one edit more. */
  lemma TruncationKeepsFinishedEdits(lead: Text, d: Text, r: Text, es: seq<Json>, l: Layout, c: nat)
    requires forall k | 0 <= k < |lead| :: IsSpace(lead[k])
    requires PayloadAt(d, r, es, l) && l.a < c <= |d|
    ensures Contained(d, l, c) <= |es|
    ensures Keeps(DecodeSubmission(lead + d[..c]), r, es[..Contained(d, l, c)])
  {
    hide DecodeSubmission, Keeps, ParseArray, ParseMember, StringBody;
    var b := StopAt(d, es, l.a, l.e2, c);
    var c' := StripTorn(lead, d, c, b);
    SameStop(l.a, EditEnds(d, l.a + 1), c, c');
    CutDecodes(lead + d[..c], d, r, es, l, c', b);
  }

  lemma CutDecodes(raw: Text, d: Text, r: Text, es: seq<Json>, l: Layout, c: nat, b: nat)
    requires HeadAt(d, r, l) && KeyAt(d, l) && BodyAt(d, es, l) && l.a < b <= c <= |d| && Solid(d[b - 1])
    requires (b == l.a + 1 || b in EditEnds(d, l.a + 1)) && EndBy(EditEnds(d, l.a + 1), c, b)
    requires StripFence(raw) == d[..c] && Strip(raw) != []
    ensures Contained(d, l, c) <= |es|
    ensures Keeps(DecodeSubmission(raw), r, es[..Contained(d, l, c)])
  {
    hide ParseDoc, Repair, Validate, HeadAt, KeyAt, BodyAt, StripFence, Strip, Keeps, EditEnds;
    var text, n := d[..c], Contained(d, l, c);
    if ParseDoc(text).Some? {
      TornDoc(d, r, es, l, text, c, c);
      ValidateTorn(ParseDoc(text).value, r, es, n, false);
    } else {
      RepairTorn(d, r, es, l, c, b);
      ValidateTorn(Repair(text).value, r, es, n, true);
    }
  }

  /** The whole text decodes to the whole payload and is not marked repaired. */
  lemma WholeSubmissionDecodes(lead: Text, d: Text, r: Text, es: seq<Json>, l: Layout)
    requires forall k | 0 <= k < |lead| :: IsSpace(lead[k])
    requires PayloadAt(d, r, es, l)
    ensures Contained(d, l, |d|) == |es|
    ensures DecodeSubmission(lead + d) == Validate(JObj([(REASONING, JStr(r)), (EDITS, JArr(es))]), false)
  {
    hide ParseDoc, ParseValue, ParseArray, ParseMember, StringBody, StripFence, DecodeSubmission, Validate, Contained;
    AllContained(d, es, l);
    assert d[..|d|] == d;
    var e := l.j2 + 1;
    var c := StripTorn(lead, d, |d|, e);
    SkipsWs(d, e);
    assert c == e;
    LayoutParses(d, r, es, l);
    WholeParses(d, e);
    DecodesWhole(lead + d, d[..e], JObj([(REASONING, JStr(r)), (EDITS, JArr(es))]));
  }

  lemma AllContained(d: Text, es: seq<Json>, l: Layout)
    requires BodyAt(d, es, l)
    ensures Contained(d, l, |d|) == |es|
  {
    hide EditEnds, ParseArray;
    var ends := EditEnds(d, l.a + 1);
    ArrayEndsFacts(d, l.a + 1, es, l.e2);
    CountAll(ends, |d|);
  }

  /** A payload text parses to its payload. */
  lemma LayoutParses(d: Text, r: Text, es: seq<Json>, l: Layout)
    requires PayloadAt(d, r, es, l)
    ensures ParseValue(d, 0) == Done(JObj([(REASONING, JStr(r)), (EDITS, JArr(es))]), l.j2 + 1)
  {
    hide ParseMembers;
    HeadWhole(d, r, l);
    LastMemberParses(d, es, l);
    assert [(REASONING, JStr(r))] + [(EDITS, JArr(es))] == [(REASONING, JStr(r)), (EDITS, JArr(es))];
  }

  lemma HeadWhole(d: Text, r: Text, l: Layout)
    requires HeadAt(d, r, l)
    ensures ParseValue(d, 0) == if ParseMembers(d, l.k2).Done?
            then Done(JObj([(REASONING, JStr(r))] + ParseMembers(d, l.k2).value), ParseMembers(d, l.k2).end) else Fail
  {
    HeadTorn(d, r, l, d, |d|);
    HeadParses(r, l, d);
  }

  lemma LastMemberParses(d: Text, es: seq<Json>, l: Layout)
    requires KeyAt(d, l) && BodyAt(d, es, l)
    ensures ParseMembers(d, l.k2) == Done([(EDITS, JArr(es))], l.j2 + 1)
  {
    SecondMember(d, l, d, |d|);
    MembersFrom(d, l.k2, (EDITS, JArr(es)), l.e2);
    LastCloses(d, (EDITS, JArr(es)), l.e2);
  }

  lemma LastCloses(d: Text, m: (Text, Json), e: nat)
    requires e <= |d| && At(d, SkipWs(d, e), '}')
    ensures AfterMember(d, m, e) == Done([m], SkipWs(d, e) + 1)
  {
  }

  lemma WholeParses(d: Text, e: nat)
    requires ParseValue(d, 0).Done? && ParseValue(d, 0).end == e && ParseValue(d, 0).value.JObj? && At(d, 0, '{')
    ensures ParseDoc(d[..e]) == Some(ParseValue(d, 0).value)
  {
    var t := d[..e];
    assert Agree(d, t, e);
    ValueLocal(d, t, 0, e);
    assert SkipWs(t, 0) == 0;
  }
}
