/** JSON texts (RFC 8259) as sequences of code points, and a parser for them. A `\u`
    escape can denote a lone surrogate, so a code point is a number and not a `char`. */
module Json {
  import opened Basics

  type Code = c: int | 0 <= c <= 0x10FFFF

  type Text = seq<Code>

  /** Numbers, and the constants NaN and Infinity that Python also reads, keep their
      text; object members keep their order and any duplicates. */
  datatype Json =
    | JNull
    | JBool(b: bool)
    | JNum(lexeme: Text)
    | JStr(s: Text)
    | JArr(elems: seq<Json>)
    | JObj(members: seq<(Text, Json)>)

  /** The outcome of parsing from some position: a value and the position after it. */
  datatype Parsed<+T> = Fail | Done(value: T, end: nat)

  function Codes(s: string): Text {
    seq(|s|, i requires 0 <= i < |s| => s[i] as int)
  }

  predicate At(t: Text, i: nat, c: char) {
    i < |t| && t[i] == c as int
  }

  /** RFC 8259 section 2: insignificant whitespace. */
  predicate IsWs(c: Code) {
    c == 0x20 || c == 0x09 || c == 0x0A || c == 0x0D
  }

  function SkipWs(t: Text, i: nat): (j: nat)
    requires i <= |t|
    ensures i <= j <= |t|
    ensures j < |t| ==> !IsWs(t[j])
    decreases |t| - i
  {
    if i < |t| && IsWs(t[i]) then SkipWs(t, i + 1) else i
  }

  lemma {:induction false} SkipsWs(t: Text, i: nat)
    requires i <= |t|
    ensures forall k | i <= k < SkipWs(t, i) :: IsWs(t[k])
    decreases |t| - i
  {
    if i < |t| && IsWs(t[i]) { SkipsWs(t, i + 1); }
  }

  // ----- strings, RFC 8259 section 7

  predicate IsDigit(c: Code) {
    '0' as int <= c <= '9' as int
  }

  function HexValue(c: Code): (r: Option<nat>)
    ensures r.Some? ==> r.value < 16
  {
    if 0x30 <= c <= 0x39 then Some(c - 0x30)
    else if 0x61 <= c <= 0x66 then Some(c - 0x57)
    else if 0x41 <= c <= 0x46 then Some(c - 0x37)
    else None
  }

  /** Reads the last `n` of four hexadecimal digits at `i`, after digits worth `acc`. */
  function Hex(t: Text, i: nat, n: nat, acc: nat): (r: Option<nat>)
    requires n <= 4 && (n == 4 ==> acc == 0) && (n == 3 ==> acc < 0x10)
    requires (n == 2 ==> acc < 0x100) && (n == 1 ==> acc < 0x1000) && (n == 0 ==> acc < 0x10000)
    ensures r.Some? ==> i + n <= |t| && r.value < 0x10000
    decreases n
  {
    if n == 0 then (if i <= |t| then Some(acc) else None)
    else if i >= |t| || HexValue(t[i]).None? then None
    else Hex(t, i + 1, n - 1, 16 * acc + HexValue(t[i]).value)
  }

  function Hex4(t: Text, i: nat): (r: Option<nat>)
    ensures r.Some? ==> i + 4 <= |t| && r.value < 0x10000
  {
    Hex(t, i, 4, 0)
  }

  function SimpleEscape(c: Code): Option<Code> {
    if c == '"' as int then Some('"' as int)
    else if c == '\\' as int then Some('\\' as int)
    else if c == '/' as int then Some('/' as int)
    else if c == 'b' as int then Some(0x08)
    else if c == 'f' as int then Some(0x0C)
    else if c == 'n' as int then Some(0x0A)
    else if c == 'r' as int then Some(0x0D)
    else if c == 't' as int then Some(0x09)
    else None
  }

  predicate IsHigh(c: nat) {
    0xD800 <= c <= 0xDBFF
  }

  predicate IsLow(c: nat) {
    0xDC00 <= c <= 0xDFFF
  }

  function Prepend(c: Code, r: Parsed<Text>): Parsed<Text> {
    if r.Done? then Done([c] + r.value, r.end) else Fail
  }

  /** Reads a string from just after its opening quote. */
  function StringBody(t: Text, i: nat): (r: Parsed<Text>)
    ensures r.Done? ==> i < r.end <= |t|
    decreases if i <= |t| then |t| - i else 0, 1
  {
    if i >= |t| then Fail
    else if t[i] == '"' as int then Done([], i + 1)
    else if t[i] == '\\' as int then EscapeBody(t, i + 1)
    else if t[i] < 0x20 then Fail
    else Prepend(t[i], StringBody(t, i + 1))
  }

  /** The rest of a string from just after a backslash. */
  function EscapeBody(t: Text, i: nat): (r: Parsed<Text>)
    ensures r.Done? ==> i < r.end <= |t|
    decreases if i <= |t| then |t| - i else 0, 0
  {
    if i >= |t| then Fail
    else if SimpleEscape(t[i]).Some? then Prepend(SimpleEscape(t[i]).value, StringBody(t, i + 1))
    else if t[i] == 'u' as int && Hex4(t, i + 1).Some? then UnicodeBody(t, i + 5, Hex4(t, i + 1).value)
    else Fail
  }

  /** The rest of a string from just after the escape of `h`. A high surrogate escape
      followed by a low one is one code point. */
  function UnicodeBody(t: Text, i: nat, h: nat): (r: Parsed<Text>)
    requires i > 0 && h < 0x10000
    ensures r.Done? ==> i < r.end <= |t|
    decreases if i <= |t| then |t| - i else 0, 2
  {
    if IsHigh(h) && At(t, i, '\\') && At(t, i + 1, 'u') then
      var low := Hex4(t, i + 2);
      if low.None? then Fail
      else if IsLow(low.value) then
        Prepend(0x10000 + (h - 0xD800) * 0x400 + (low.value - 0xDC00), StringBody(t, i + 6))
      else Prepend(h, StringBody(t, i))
    else Prepend(h, StringBody(t, i))
  }

  // ----- numbers, RFC 8259 section 6, read greedily

  /** How much of a number has been read: nothing, the sign, a leading zero, integer
      digits, the point, fraction digits, the `e`, its sign, exponent digits. */
  datatype NumState = Begin | Sign | Zero | Int | Point | Frac | Exp | ExpSign | ExpInt

  function NumStep(s: NumState, c: Code): Option<NumState> {
    if IsDigit(c) then
      match s
      case Begin => Some(if c == '0' as int then Zero else Int)
      case Sign => Some(if c == '0' as int then Zero else Int)
      case Zero => None
      case Int => Some(Int)
      case Point => Some(Frac)
      case Frac => Some(Frac)
      case _ => Some(ExpInt)
    else if c == '-' as int then (if s.Begin? then Some(Sign) else if s.Exp? then Some(ExpSign) else None)
    else if c == '+' as int then (if s.Exp? then Some(ExpSign) else None)
    else if c == '.' as int then (if s.Zero? || s.Int? then Some(Point) else None)
    else if c == 'e' as int || c == 'E' as int then (if s.Zero? || s.Int? || s.Frac? then Some(Exp) else None)
    else None
  }

  predicate NumDone(s: NumState) {
    s.Zero? || s.Int? || s.Frac? || s.ExpInt?
  }

  /** The end of the longest number that goes on at `i` from state `s`, where `best` is
      the longest found before. */
  function NumberEnd(t: Text, i: nat, s: NumState, best: Option<nat>): (r: Option<nat>)
    requires i <= |t| && (best.Some? ==> best.value <= i)
    ensures r.Some? ==> r.value <= |t|
    ensures r.Some? ==> r == best || (i <= r.value && (r.value == i ==> NumDone(s)))
    decreases |t| - i
  {
    var here := if NumDone(s) then Some(i) else best;
    if i < |t| && NumStep(s, t[i]).Some? then NumberEnd(t, i + 1, NumStep(s, t[i]).value, here) else here
  }

  // ----- values

  predicate WordAt(t: Text, i: nat, word: string)
    ensures WordAt(t, i, word) ==> word == "" || i + |word| <= |t|
    decreases |word|
  {
    word == "" || (At(t, i, word[0]) && WordAt(t, i + 1, word[1..]))
  }

  const NULL_WORD := "null"
  const TRUE_WORD := "true"
  const FALSE_WORD := "false"
  const NAN_WORD := "NaN"
  const INFINITY_WORD := "Infinity"
  const MINUS_INFINITY_WORD := "-Infinity"

  /** The literal name that starts with a code point, if any; NaN and the two infinities
      are Python's additions. */
  function LiteralWord(c: Code): (word: string)
    ensures word != "" ==> c == word[0] as int
  {
    if c == 'n' as int then NULL_WORD
    else if c == 't' as int then TRUE_WORD
    else if c == 'f' as int then FALSE_WORD
    else if c == 'N' as int then NAN_WORD
    else if c == 'I' as int then INFINITY_WORD
    else if c == '-' as int then MINUS_INFINITY_WORD
    else ""
  }

  /** The value of a literal that starts with `c` and reads `lexeme`. */
  function LiteralValue(c: Code, lexeme: Text): Json {
    if c == 'n' as int then JNull
    else if c == 't' as int then JBool(true)
    else if c == 'f' as int then JBool(false)
    else JNum(lexeme)
  }

  function Number(t: Text, i: nat): (r: Parsed<Json>)
    requires i <= |t|
    ensures r.Done? ==> i < r.end <= |t|
  {
    var n := NumberEnd(t, i, Begin, None);
    if n.None? then Fail else Done(JNum(t[i..n.value]), n.value)
  }

  function Scalar(t: Text, i: nat): (r: Parsed<Json>)
    requires i < |t|
    ensures r.Done? ==> i < r.end <= |t|
  {
    var w := LiteralWord(t[i]);
    if w != "" && WordAt(t, i, w) then Done(LiteralValue(t[i], t[i..i + |w|]), i + |w|) else Number(t, i)
  }

  function Left(t: Text, i: nat): nat {
    if i <= |t| then |t| - i else 0
  }

  function ParseValue(t: Text, i: nat): (r: Parsed<Json>)
    ensures r.Done? ==> i < r.end <= |t|
    decreases Left(t, i), 0
  {
    if i >= |t| then Fail
    else if t[i] == '"' as int then
      var s := StringBody(t, i + 1);
      if s.Done? then Done(JStr(s.value), s.end) else Fail
    else if t[i] == '[' as int then ParseArray(t, i + 1)
    else if t[i] == '{' as int then ParseObject(t, i + 1)
    else Scalar(t, i)
  }

  /** An array from just after its opening bracket. */
  function ParseArray(t: Text, i: nat): (r: Parsed<Json>)
    requires i <= |t|
    ensures r.Done? ==> i < r.end <= |t|
    decreases Left(t, i), 3
  {
    var j := SkipWs(t, i);
    if At(t, j, ']') then Done(JArr([]), j + 1)
    else
      var es := ParseElems(t, j);
      if es.Done? then Done(JArr(es.value), es.end) else Fail
  }

  /** The elements of an array from the first one on, through the closing bracket. */
  function ParseElems(t: Text, i: nat): (r: Parsed<seq<Json>>)
    ensures r.Done? ==> i < r.end <= |t| && r.value != []
    decreases Left(t, i), 2
  {
    var v := ParseValue(t, i);
    if v.Fail? then Fail else AfterElem(t, v.value, v.end)
  }

  /** What follows the element `v`, which ends at `e`. */
  function AfterElem(t: Text, v: Json, e: nat): (r: Parsed<seq<Json>>)
    requires e <= |t|
    ensures r.Done? ==> e < r.end <= |t| && r.value != []
    decreases Left(t, e), 3
  {
    var j := SkipWs(t, e);
    if At(t, j, ']') then Done([v], j + 1)
    else if At(t, j, ',') then
      var rest := ParseElems(t, SkipWs(t, j + 1));
      if rest.Done? then Done([v] + rest.value, rest.end) else Fail
    else Fail
  }

  /** An object from just after its opening brace. */
  function ParseObject(t: Text, i: nat): (r: Parsed<Json>)
    requires i <= |t|
    ensures r.Done? ==> i < r.end <= |t|
    decreases Left(t, i), 3
  {
    var j := SkipWs(t, i);
    if At(t, j, '}') then Done(JObj([]), j + 1)
    else
      var ms := ParseMembers(t, j);
      if ms.Done? then Done(JObj(ms.value), ms.end) else Fail
  }

  /** One member of an object, from its key through its value. */
  function ParseMember(t: Text, i: nat): (r: Parsed<(Text, Json)>)
    ensures r.Done? ==> i < r.end <= |t|
    decreases Left(t, i), 1
  {
    if !At(t, i, '"') then Fail
    else
      var key := StringBody(t, i + 1);
      if key.Fail? then Fail
      else
        var c := SkipWs(t, key.end);
        if !At(t, c, ':') then Fail
        else
          var v := ParseValue(t, SkipWs(t, c + 1));
          if v.Done? then Done((key.value, v.value), v.end) else Fail
  }

  /** The members of an object from the first key on, through the closing brace. */
  function ParseMembers(t: Text, i: nat): (r: Parsed<seq<(Text, Json)>>)
    ensures r.Done? ==> i < r.end <= |t| && r.value != []
    decreases Left(t, i), 2
  {
    var m := ParseMember(t, i);
    if m.Fail? then Fail else AfterMember(t, m.value, m.end)
  }

  /** What follows the member `m`, which ends at `e`. */
  function AfterMember(t: Text, m: (Text, Json), e: nat): (r: Parsed<seq<(Text, Json)>>)
    requires e <= |t|
    ensures r.Done? ==> e < r.end <= |t| && r.value != []
    decreases Left(t, e), 3
  {
    var j := SkipWs(t, e);
    if At(t, j, '}') then Done([m], j + 1)
    else if At(t, j, ',') then
      var rest := ParseMembers(t, SkipWs(t, j + 1));
      if rest.Done? then Done([m] + rest.value, rest.end) else Fail
    else Fail
  }

  /** RFC 8259 section 2: a text is one value with whitespace around it. */
  function ParseDoc(t: Text): Option<Json> {
    var v := ParseValue(t, SkipWs(t, 0));
    if v.Done? && SkipWs(t, v.end) == |t| then Some(v.value) else None
  }

  /** The value a key maps to; of duplicate keys the last one counts, as in Python. */
  function Get(members: seq<(Text, Json)>, key: Text): Option<Json> {
    if members == [] then None
    else if members[|members| - 1].0 == key then Some(members[|members| - 1].1)
    else Get(members[..|members| - 1], key)
  }
}
