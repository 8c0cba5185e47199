/** The post-decode validator: fence stripping, truncation repair and the
    reasoning-first schema check, total over every text. */
module Decode {
  import opened Basics
  import opened Json

  // ----- stripping, as Python's `str.strip` and `str.splitlines` do it

  predicate IsSpace(c: Code) {
    0x09 <= c <= 0x0D || 0x1C <= c <= 0x20 || c == 0x85 || c == 0xA0 || c == 0x1680
    || 0x2000 <= c <= 0x200A || c == 0x2028 || c == 0x2029 || c == 0x202F || c == 0x205F || c == 0x3000
  }

  function RStrip(t: Text): (r: Text)
    ensures r <= t
    ensures r != [] ==> !IsSpace(r[|r| - 1])
    ensures forall i | |r| <= i < |t| :: IsSpace(t[i])
  {
    if t != [] && IsSpace(t[|t| - 1]) then RStrip(t[..|t| - 1]) else t
  }

  function LStrip(t: Text): Text {
    if t != [] && IsSpace(t[0]) then LStrip(t[1..]) else t
  }

  function Strip(t: Text): Text {
    RStrip(LStrip(t))
  }

  predicate IsLineEnd(c: Code) {
    0x0A <= c <= 0x0D || 0x1C <= c <= 0x1E || c == 0x85 || c == 0x2028 || c == 0x2029
  }

  /** The position of the first line end at or after `i`, or the length. */
  function LineEnd(t: Text, i: nat): (j: nat)
    requires i <= |t|
    ensures i <= j <= |t|
    decreases |t| - i
  {
    if i < |t| && !IsLineEnd(t[i]) then LineEnd(t, i + 1) else i
  }

  /** The width of the line end at `n`: a carriage return and a line feed are one. */
  function Width(t: Text, n: nat): (w: nat)
    requires n < |t|
    ensures 1 <= w && n + w <= |t|
  {
    if t[n] == 0x0D && n + 1 < |t| && t[n + 1] == 0x0A then 2 else 1
  }

  /** What follows the line end at `n`. */
  function AfterLine(t: Text, n: nat): (rest: Text)
    requires n < |t|
    ensures |rest| < |t|
  {
    t[n + Width(t, n)..]
  }

  function SplitLines(t: Text): seq<Text>
    decreases |t|
  {
    if t == [] then []
    else
      var n := LineEnd(t, 0);
      if n == |t| then [t] else [t[..n]] + SplitLines(AfterLine(t, n))
  }

  function JoinLines(lines: seq<Text>): Text {
    if lines == [] then []
    else if |lines| == 1 then lines[0]
    else lines[0] + [0x0A] + JoinLines(lines[1..])
  }

  predicate StartsWithFence(t: Text) {
    Codes("```") <= t
  }

  function StripFence(text: Text): Text {
    var stripped := Strip(text);
    if !StartsWithFence(stripped) then stripped
    else
      var all := SplitLines(stripped);
      var lines := if all == [] then [] else all[1..];
      var kept := if lines != [] && StartsWithFence(Strip(lines[|lines| - 1])) then lines[..|lines| - 1] else lines;
      Strip(JoinLines(kept))
  }

  // ----- the scanner of the repair

  /** Inside a string?  After a backslash?  Which brackets are open? */
  datatype Scan = Scan(inString: bool, escape: bool, stack: seq<Code>)

  const START := Scan(false, false, [])

  function ScanStep(s: Scan, c: Code): Scan {
    if s.escape then s.(escape := false)
    else if s.inString then
      if c == '\\' as int then s.(escape := true)
      else if c == '"' as int then s.(inString := false)
      else s
    else if c == '"' as int then s.(inString := true)
    else if c == '{' as int || c == '[' as int then s.(stack := s.stack + [c])
    else if c == '}' as int then
      if s.stack != [] && s.stack[|s.stack| - 1] == '{' as int then s.(stack := s.stack[..|s.stack| - 1]) else s
    else if c == ']' as int then
      if s.stack != [] && s.stack[|s.stack| - 1] == '[' as int then s.(stack := s.stack[..|s.stack| - 1]) else s
    else s
  }

  /** Scans `t[i..j]` from state `s`. */
  function ScanRange(s: Scan, t: Text, i: nat, j: nat): Scan
    requires i <= j <= |t|
    decreases j - i
  {
    if i == j then s else ScanRange(ScanStep(s, t[i]), t, i + 1, j)
  }

  function ScanText(t: Text): Scan {
    ScanRange(START, t, 0, |t|)
  }

  function Closer(opener: Code): Code {
    if opener == '{' as int then '}' as int else ']' as int
  }

  /** The closers of a stack, innermost first. */
  function Closers(stack: seq<Code>): Text {
    if stack == [] then [] else [Closer(stack[|stack| - 1])] + Closers(stack[..|stack| - 1])
  }

  function StripSeparator(t: Text): Text {
    var r := RStrip(t);
    if r != [] && (r[|r| - 1] == ',' as int || r[|r| - 1] == ':' as int) then RStrip(r[..|r| - 1]) else r
  }

  /** The repair of one prefix: close an open string, drop trailing space and one
      separator, close the open brackets. */
  function Candidate(prefix: Text): Text {
    var s := ScanText(prefix);
    StripSeparator(if s.inString then prefix + ['"' as int] else prefix) + Closers(s.stack)
  }

  /** What each prefix of a text repairs to. */
  function Attempts(text: Text): nat -> Option<Json> {
    (cut: nat) => if cut <= |text| then ParseDoc(Candidate(text[..cut])) else None
  }

  /** The first success of `attempt`, from `cut` down to 1. */
  function FirstSome(attempt: nat -> Option<Json>, cut: nat): Option<Json> {
    if cut == 0 then None
    else if attempt(cut).Some? then attempt(cut)
    else FirstSome(attempt, cut - 1)
  }

  /** The first repair that parses, over shrinking prefixes. */
  function Repair(text: Text): Option<Json> {
    FirstSome(Attempts(text), |text|)
  }

  // ----- validation

  const FILE := Codes("file")
  const CODE := Codes("code")
  const REASONING := Codes("reasoning")
  const EDITS := Codes("edits")

  predicate CompleteEdit(e: Json) {
    e.JObj?
    && Get(e.members, FILE).Some? && Get(e.members, FILE).value.JStr? && Get(e.members, FILE).value.s != []
    && Get(e.members, CODE).Some? && Get(e.members, CODE).value.JStr?
  }

  function CompleteOnly(es: seq<Json>): seq<Json> {
    if es == [] then []
    else (if CompleteEdit(es[0]) then [es[0]] else []) + CompleteOnly(es[1..])
  }

  datatype Payload = Payload(reasoning: Text, edits: seq<Json>)

  datatype Reason = Empty | Unparseable | NotAnObject | NoReasoning | NoEdits

  /** `Rejected` is the source's `ok: False` with its reason. */
  datatype Outcome =
    | Accepted(payload: Payload, repaired: bool, dropped: nat)
    | Rejected(reason: Reason)

  function Validate(v: Json, repaired: bool): Outcome {
    if !v.JObj? then Rejected(NotAnObject)
    else
      var r := Get(v.members, REASONING);
      if r.None? || !r.value.JStr? then Rejected(NoReasoning)
      else
        var es := Get(v.members, EDITS);
        if es.None? || !es.value.JArr? then Rejected(NoEdits)
        else
          var kept := CompleteOnly(es.value.elems);
          CompleteOnlyLength(es.value.elems);
          var dropped := |es.value.elems| - |kept|;
          Accepted(Payload(r.value.s, kept), repaired, if repaired && dropped == 0 then 1 else dropped)
  }

  lemma {:induction false} CompleteOnlyLength(es: seq<Json>)
    ensures |CompleteOnly(es)| <= |es|
  {
    if es != [] { CompleteOnlyLength(es[1..]); }
  }

  /** `decode_submission`. A repair that yields JSON `null` counts as no repair, because
      the source cannot tell it from failure. */
  function DecodeSubmission(raw: Text): Outcome {
    if Strip(raw) == [] then Rejected(Empty)
    else
      var text := StripFence(raw);
      if ParseDoc(text).Some? then Validate(ParseDoc(text).value, false)
      else
        var fixed := Repair(text);
        if fixed.None? || fixed.value.JNull? then Rejected(Unparseable) else Validate(fixed.value, true)
  }

  lemma DecodesWhole(raw: Text, text: Text, x: Json)
    requires Strip(raw) != [] && StripFence(raw) == text && ParseDoc(text) == Some(x)
    ensures DecodeSubmission(raw) == Validate(x, false)
  {
  }

  /** What does not parse as it stands is accepted only as repaired. */
  lemma UnparsedRepaired(raw: Text)
    requires ParseDoc(StripFence(raw)).None?
    ensures DecodeSubmission(raw).Accepted? ==> DecodeSubmission(raw).repaired
  {
  }

  // ----- the loops of the source

  lemma {:induction false} ScanSplit(s: Scan, t: Text, i: nat, k: nat, j: nat)
    requires i <= k <= j <= |t|
    ensures ScanRange(s, t, i, j) == ScanRange(ScanRange(s, t, i, k), t, k, j)
    decreases k - i
  {
    if i < k { ScanSplit(ScanStep(s, t[i]), t, i + 1, k, j); }
  }

  lemma ScanSnoc(s: Scan, t: Text, j: nat)
    requires j < |t|
    ensures ScanRange(s, t, 0, j + 1) == ScanStep(ScanRange(s, t, 0, j), t[j])
  {
    ScanSplit(s, t, 0, j, j + 1);
  }

  lemma {:induction false} ClosersSnoc(stack: seq<Code>, i: nat)
    requires i < |stack|
    ensures Closers(stack[..i + 1]) == [Closer(stack[i])] + Closers(stack[..i])
  {
    assert stack[..i + 1][..i] == stack[..i];
  }

  /** The inner loops of `_repair_truncated`: scan a prefix and build its repair. */
  method RepairPrefix(prefix: Text) returns (repaired: Text)
    ensures repaired == Candidate(prefix)
  {
    hide RStrip;
    var inString, escape := false, false;
    var stack: seq<Code> := [];
    for i := 0 to |prefix|
      invariant ScanRange(START, prefix, 0, i) == Scan(inString, escape, stack)
    {
      var ch := prefix[i];
      ScanSnoc(START, prefix, i);
      if escape {
        escape := false;
      } else if inString {
        if ch == '\\' as int {
          escape := true;
        } else if ch == '"' as int {
          inString := false;
        }
      } else if ch == '"' as int {
        inString := true;
      } else if ch == '{' as int || ch == '[' as int {
        stack := stack + [ch];
      } else if ch == '}' as int {
        if stack != [] && stack[|stack| - 1] == '{' as int {
          stack := stack[..|stack| - 1];
        }
      } else if ch == ']' as int {
        if stack != [] && stack[|stack| - 1] == '[' as int {
          stack := stack[..|stack| - 1];
        }
      }
    }
    repaired := prefix;
    if inString {
      repaired := repaired + ['"' as int];
    }
    repaired := RStrip(repaired);
    if repaired != [] && (repaired[|repaired| - 1] == ',' as int || repaired[|repaired| - 1] == ':' as int) {
      repaired := RStrip(repaired[..|repaired| - 1]);
    }
    ghost var body := repaired;
    assert stack[..|stack|] == stack;
    for i := |stack| downto 0
      invariant repaired + Closers(stack[..i]) == body + Closers(stack)
    {
      ClosersSnoc(stack, i);
      repaired := repaired + [Closer(stack[i])];
    }
  }

  /** One turn of the outer loop: repair a prefix and try to read it. */
  method TryPrefix(text: Text, cut: nat) returns (parsed: Option<Json>)
    requires cut <= |text|
    ensures parsed == Attempts(text)(cut)
  {
    var repaired := RepairPrefix(text[..cut]);
    parsed := ParseDoc(repaired);
  }

  /** `_repair_truncated`. */
  method RepairTruncated(text: Text) returns (r: Option<Json>)
    ensures r == Repair(text)
  {
    hide ParseDoc, Candidate;
    ghost var attempt := Attempts(text);
    for cut := |text| downto 0
      invariant FirstSome(attempt, cut) == Repair(text)
    {
      var parsed := TryPrefix(text, cut + 1);
      if parsed.Some? {
        return parsed;
      }
    }
    return None;
  }

  // ----- the repair closes what it opens

  lemma {:induction false} ScanConcat(s: Scan, a: Text, b: Text)
    ensures ScanRange(s, a + b, 0, |a + b|) == ScanRange(ScanRange(s, a, 0, |a|), b, 0, |b|)
  {
    ScanSplit(s, a + b, 0, |a|, |a + b|);
    ScanSame(s, a, a + b, 0, |a|, 0);
    ScanSame(ScanRange(s, a, 0, |a|), b, a + b, 0, |b|, |a|);
  }

  /** Scanning depends only on the code points scanned. */
  lemma {:induction false} ScanSame(s: Scan, t: Text, u: Text, i: nat, j: nat, d: nat)
    requires i <= j <= |t| && j + d <= |u| && forall k | i <= k < j :: t[k] == u[k + d]
    ensures ScanRange(s, t, i, j) == ScanRange(s, u, i + d, j + d)
    decreases j - i
  {
    if i < j { ScanSame(ScanStep(s, t[i]), t, u, i + 1, j, d); }
  }

  lemma {:induction false} ScanSpaces(s: Scan, t: Text, i: nat, j: nat)
    requires i <= j <= |t| && !s.inString && !s.escape
    requires forall k | i <= k < j :: IsSpace(t[k]) || t[k] == ',' as int || t[k] == ':' as int
    ensures ScanRange(s, t, i, j) == s
    decreases j - i
  {
    if i < j { ScanSpaces(s, t, i + 1, j); }
  }

  lemma {:induction false} ScanInvariant(s: Scan, t: Text, i: nat, j: nat)
    requires i <= j <= |t| && (s.escape ==> s.inString)
    requires forall k | 0 <= k < |s.stack| :: s.stack[k] == '{' as int || s.stack[k] == '[' as int
    ensures var r := ScanRange(s, t, i, j);
            (r.escape ==> r.inString)
            && forall k | 0 <= k < |r.stack| :: r.stack[k] == '{' as int || r.stack[k] == '[' as int
    decreases j - i
  {
    if i < j { ScanInvariant(ScanStep(s, t[i]), t, i + 1, j); }
  }

  lemma {:induction false} ScanClosers(stack: seq<Code>)
    requires forall k | 0 <= k < |stack| :: stack[k] == '{' as int || stack[k] == '[' as int
    ensures ScanRange(Scan(false, false, stack), Closers(stack), 0, |Closers(stack)|) == START
  {
    if stack != [] {
      var rest := stack[..|stack| - 1];
      var cs := Closers(stack);
      assert cs[1..] == Closers(rest);
      ScanClosers(rest);
      ScanSame(Scan(false, false, rest), Closers(rest), cs, 0, |Closers(rest)|, 1);
    }
  }

  lemma {:induction false} ClosersInString(s: Scan, stack: seq<Code>, i: nat)
    requires s.inString && !s.escape && i <= |Closers(stack)|
    ensures ScanRange(s, Closers(stack), i, |Closers(stack)|) == s
    decreases |Closers(stack)| - i
  {
    ClosersAre(stack);
    if i < |Closers(stack)| { ClosersInString(s, stack, i + 1); }
  }

  lemma {:induction false} ClosersAre(stack: seq<Code>)
    ensures |Closers(stack)| == |stack|
    ensures forall k | 0 <= k < |Closers(stack)| :: Closers(stack)[k] == '}' as int || Closers(stack)[k] == ']' as int
  {
    if stack != [] {
      ClosersAre(stack[..|stack| - 1]);
      assert Closers(stack)[1..] == Closers(stack[..|stack| - 1]);
    }
  }

  lemma StripDrops(t: Text)
    ensures var r := StripSeparator(t);
            r <= t && forall k | |r| <= k < |t| :: IsSpace(t[k]) || t[k] == ',' as int || t[k] == ':' as int
  {
    hide RStrip, IsSpace;
    var q := RStrip(t);
    if StripSeparator(t) != q { assert q[..|q| - 1] == t[..|q| - 1]; }
  }

  /** Outside a string, dropping trailing space and one separator is not seen by the scan. */
  lemma StripScan(t: Text)
    requires !ScanText(t).inString && !ScanText(t).escape
    ensures ScanText(StripSeparator(t)) == ScanText(t)
  {
    hide ScanRange, StripSeparator, IsSpace;
    var r := StripSeparator(t);
    var n := |r|;
    StripDrops(t);
    var s := ScanRange(START, t, 0, n);
    ScanSplit(START, t, 0, n, |t|);
    ScanInvariant(START, t, 0, n);
    SpacesKeepString(s, t, n, |t|);
    ScanSpaces(s, t, n, |t|);
    ScanSame(START, r, t, 0, n, 0);
  }

  /** A text that ends in a quote is not stripped. */
  lemma QuotedStays(t: Text)
    ensures StripSeparator(t + ['"' as int]) == t + ['"' as int]
  {
  }

  /** Code points that are neither quotes nor backslashes do not end a string. */
  lemma {:induction false} SpacesKeepString(s: Scan, t: Text, i: nat, j: nat)
    requires i <= j <= |t| && (s.escape ==> s.inString)
    requires forall k | i <= k < j :: IsSpace(t[k]) || t[k] == ',' as int || t[k] == ':' as int
    ensures ScanRange(s, t, i, j).inString == s.inString
    decreases j - i
  {
    if i < j { SpacesKeepString(ScanStep(s, t[i]), t, i + 1, j); }
  }

  /** Rescanning a repair ends outside strings with every bracket closed exactly when the
      prefix was not cut between a backslash and the code point it escapes. */
  lemma RepairCloses(prefix: Text)
    ensures ScanText(Candidate(prefix)) == START <==> !ScanText(prefix).escape
  {
    var s := ScanText(prefix);
    var quoted := prefix + ['"' as int];
    var body := if s.inString then quoted else prefix;
    ScanInvariant(START, prefix, 0, |prefix|);
    ScanSame(START, prefix, quoted, 0, |prefix|, 0);
    ScanSnoc(START, quoted, |prefix|);
    QuotedStays(prefix);
    hide StripSeparator, ScanRange, Closers;
    ScanConcat(START, StripSeparator(body), Closers(s.stack));
    if s.escape {
      assert ScanText(quoted) == s.(escape := false);
      ClosersInString(s.(escape := false), s.stack, 0);
    } else {
      StripScan(body);
      ScanClosers(s.stack);
    }
  }
}
