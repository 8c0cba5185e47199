/** The passes of the normaliser told from the statements they take and leave: what a module
    and its normal form have to do with each other. */
module NormalizerPasses {
  import opened Basics
  import opened PySyntax
  import opened PyInterp
  import opened Normalizer
  import opened NormalizerImports
  import opened NormalizerCanonical
  import opened NormalizerIdempotent
  import opened NormalizerKept

  // ----- docstrings

  ghost predicate IsDoc(s: Stmt) {
    exists t :: s == ExprStmt(Lit(CStr(t)))
  }

  /** A body without its docstring; one of nothing else is left with a `pass`. */
  ghost predicate WithoutDoc(b: seq<Stmt>, c: seq<Stmt>) {
    c == if b == [] || !IsDoc(b[0]) then b else if |b| == 1 then [Pass] else b[1..]
  }

  ghost predicate WithoutDocTops(ts: seq<Top>, us: seq<Top>) {
    us == if ts == [] || !ts[0].Plain? || !IsDoc(ts[0].stmt) then ts else if |ts| == 1 then [Plain(Pass)] else ts[1..]
  }

  lemma BareIsDoc(s: Stmt)
    ensures IsBareString(s) <==> IsDoc(s)
  {
    if IsBareString(s) {
      assert s == ExprStmt(Lit(CStr(s.expr.c.s)));
    }
  }

  // ----- redundant `pass`

  /** `at` are the positions of the statements of a body that are no `pass`, in order. */
  ghost predicate NoPass(b: seq<Stmt>, at: seq<nat>) {
    && (forall k | 0 <= k < |at| :: at[k] < |b|)
    && (forall j, k | 0 <= j < k < |at| :: at[j] < at[k])
    && forall i | 0 <= i < |b| :: i in at <==> b[i] != Pass
  }

  /** `c` is `b` without its redundant `pass`, at any depth: a body of more than one statement
      keeps those that are no `pass`, or a single one. */
  ghost predicate Tidy(b: seq<Stmt>, c: seq<Stmt>)
    decreases b, 1
  {
    if |b| <= 1 then |c| == |b| && forall i | 0 <= i < |b| :: TidyStmt(b[i], c[i])
    else if forall i | 0 <= i < |b| :: b[i] == Pass then c == [Pass]
    else
      exists at ::
        NoPass(b, at) && |c| == |at| && forall k | 0 <= k < |at| && at[k] < |b| :: TidyStmt(b[at[k]], c[k])
  }

  ghost predicate TidyStmt(s: Stmt, t: Stmt)
    decreases s, 0
  {
    match s
    case If(e, x, y) => t.If? && t.ifTest == e && Tidy(x, t.body) && Tidy(y, t.orelse)
    case While(e, x, y) => t.While? && t.loopTest == e && Tidy(x, t.loopBody) && Tidy(y, t.loopElse)
    case _ => t == s
  }

  lemma DropPassJoin(a: seq<Stmt>, b: seq<Stmt>)
    ensures DropPass(a + b) == DropPass(a) + DropPass(b)
  {
    if a == [] {
      assert a + b == b;
    } else {
      assert (a + b)[1..] == a[1..] + b;
      DropPassJoin(a[1..], b);
    }
  }

  lemma CleanEachAt(b: seq<Stmt>)
    ensures |CleanEach(b)| == |b| && forall i | 0 <= i < |b| :: CleanEach(b)[i] == CleanStmt(b[i])
  {
    if b != [] { CleanEachAt(b[1..]); }
  }

  /** What is kept stands at the positions of no `pass`. */
  lemma {:induction false} DropPassKeeps(b: seq<Stmt>) returns (at: seq<nat>)
    ensures NoPass(b, at) && |DropPass(b)| == |at| && forall k | 0 <= k < |at| :: DropPass(b)[k] == b[at[k]]
  {
    at := [];
    if b != [] {
      var n := |b| - 1;
      at := DropPassKeeps(b[..n]);
      DropPassJoin(b[..n], [b[n]]);
      assert b == b[..n] + [b[n]] && [b[n]][1..] == [];
      assert forall i | 0 <= i < n :: b[..n][i] == b[i];
      if b[n] != Pass { at := at + [n]; }
    }
  }

  lemma {:induction false} DropPassAll(b: seq<Stmt>)
    requires forall i | 0 <= i < |b| :: b[i] == Pass
    ensures DropPass(b) == []
  {
    if b != [] { DropPassAll(b[1..]); }
  }

  /** Cleaning tidies. */
  lemma {:induction false} CleanIsTidy(b: seq<Stmt>)
    ensures Tidy(b, CleanBlock(b))
    decreases b, 1
  {
    var each := CleanEach(b);
    CleanEachAt(b);
    forall i | 0 <= i < |b|
      ensures TidyStmt(b[i], each[i]) && (each[i] == Pass <==> b[i] == Pass)
    {
      CleanStmtIsTidy(b[i]);
    }
    hide CleanStmt, TidyStmt, CleanEach;
    if |b| > 1 {
      if forall i | 0 <= i < |b| :: b[i] == Pass {
        DropPassAll(each);
      } else {
        var at := DropPassKeeps(each);
        hide DropPass;
        assert NoPass(b, at);
        var i :| 0 <= i < |b| && b[i] != Pass;
        assert i in at;
      }
    }
  }

  lemma {:induction false} CleanStmtIsTidy(s: Stmt)
    ensures TidyStmt(s, CleanStmt(s)) && (CleanStmt(s) == Pass <==> s == Pass)
    decreases s, 0
  {
    match s
    case If(_, x, y) =>
      CleanIsTidy(x);
      CleanIsTidy(y);
    case While(_, x, y) =>
      CleanIsTidy(x);
      CleanIsTidy(y);
    case _ =>
  }

  /** The same of the statements of a module, which are tidied one by one before. */
  ghost predicate NoPassTops(ts: seq<Top>, at: seq<nat>) {
    && (forall k | 0 <= k < |at| :: at[k] < |ts|)
    && (forall j, k | 0 <= j < k < |at| :: at[j] < at[k])
    && forall i | 0 <= i < |ts| :: i in at <==> ts[i] != Plain(Pass)
  }

  ghost predicate TidyTops(ts: seq<Top>, us: seq<Top>) {
    if |ts| <= 1 then us == ts
    else if forall i | 0 <= i < |ts| :: ts[i] == Plain(Pass) then us == [Plain(Pass)]
    else
      exists at :: NoPassTops(ts, at) && |us| == |at| && forall k | 0 <= k < |at| && at[k] < |ts| :: us[k] == ts[at[k]]
  }

  lemma {:induction false} DropPassTopsJoin(a: seq<Top>, b: seq<Top>)
    ensures DropPassTops(a + b) == DropPassTops(a) + DropPassTops(b)
  {
    if a == [] {
      assert a + b == b;
    } else {
      assert (a + b)[1..] == a[1..] + b;
      DropPassTopsJoin(a[1..], b);
    }
  }

  lemma {:induction false} DropPassTopsKeeps(ts: seq<Top>) returns (at: seq<nat>)
    ensures NoPassTops(ts, at) && |DropPassTops(ts)| == |at| && forall k | 0 <= k < |at| ::
            DropPassTops(ts)[k] == ts[at[k]]
  {
    at := [];
    if ts != [] {
      var n := |ts| - 1;
      at := DropPassTopsKeeps(ts[..n]);
      DropPassTopsJoin(ts[..n], [ts[n]]);
      assert ts == ts[..n] + [ts[n]] && [ts[n]][1..] == [];
      assert forall i | 0 <= i < n :: ts[..n][i] == ts[i];
      if ts[n] != Plain(Pass) { at := at + [n]; }
    }
  }

  lemma CleanTopBodyIsTidy(ts: seq<Top>)
    ensures TidyTops(ts, CleanTopBody(ts))
  {
    if |ts| > 1 {
      if forall i | 0 <= i < |ts| :: ts[i] == Plain(Pass) {
        DropPassTopsAll(ts);
      } else {
        var at := DropPassTopsKeeps(ts);
        hide DropPassTops;
        var i :| 0 <= i < |ts| && ts[i] != Plain(Pass);
        assert i in at;
      }
    }
  }

  lemma {:induction false} DropPassTopsAll(ts: seq<Top>)
    requires forall i | 0 <= i < |ts| :: ts[i] == Plain(Pass)
    ensures DropPassTops(ts) == []
  {
    if ts != [] { DropPassTopsAll(ts[1..]); }
  }

  // ----- imports

  predicate Imports(t: Top) {
    t.Import? || t.ImportFrom?
  }

  /** The first module imported, or the one imported from. */
  function KeyOf(t: Top): string {
    match t
    case Import(names) => if names == [] then "" else names[0].name
    case ImportFrom(from, _) => from
    case _ => ""
  }

  function Keyed(k: string, ts: seq<Top>): seq<Top> {
    if ts == [] then [] else (if KeyOf(ts[0]) == k then [ts[0]] else []) + Keyed(k, ts[1..])
  }

  /** `ts[i..j]` is a run of imports that goes no further on either side. */
  predicate RunAt(ts: seq<Top>, i: nat, j: nat) {
    && i <= j <= |ts| && (forall x | i <= x < j :: Imports(ts[x]))
    && (i == 0 || !Imports(ts[i - 1])) && (j == |ts| || !Imports(ts[j]))
  }

  /** `b` is `a` in key order, statements of one key in their old order. */
  ghost predicate SortedBy(a: seq<Top>, b: seq<Top>) {
    && multiset(b) == multiset(a)
    && (forall x, y | 0 <= x < y < |b| :: StrLe(KeyOf(b[x]), KeyOf(b[y])))
    && forall k :: Keyed(k, b) == Keyed(k, a)
  }

  /** `us` is `ts` with every run of imports sorted, and nothing else moved. */
  ghost predicate RunsSorted(ts: seq<Top>, us: seq<Top>) {
    && |us| == |ts|
    && (forall x | 0 <= x < |ts| && !Imports(ts[x]) :: us[x] == ts[x])
    && forall i: nat, j: nat | RunAt(ts, i, j) && j <= |us| :: SortedBy(ts[i..j], us[i..j])
  }

  lemma {:induction false} KeyedIs(k: string, ts: seq<Top>)
    ensures Keyed(k, ts) == WithKey(k, ts)
  {
    if ts != [] { KeyedIs(k, ts[1..]); }
  }

  lemma {:induction false} SortedKeysAt(ts: seq<Top>, x: nat, y: nat)
    requires SortedKeys(ts) && x < y < |ts|
    ensures StrLe(KeyOf(ts[x]), KeyOf(ts[y]))
  {
    if x == 0 {
      assert ts[y] in ts;
    } else {
      SortedKeysAt(ts[1..], x - 1, y - 1);
    }
  }

  lemma StableSortSorts(ts: seq<Top>)
    ensures SortedBy(ts, StableSort(ts))
  {
    var us := StableSort(ts);
    SortMembers(ts);
    SortSortsKeys(ts);
    forall x, y | 0 <= x < y < |us|
      ensures StrLe(KeyOf(us[x]), KeyOf(us[y]))
    {
      SortedKeysAt(us, x, y);
    }
    forall k
      ensures Keyed(k, us) == Keyed(k, ts)
    {
      KeyedIs(k, us);
      KeyedIs(k, ts);
      SortKeepsKeys(k, ts);
    }
  }

  lemma Associate(a: seq<Top>, b: seq<Top>, c: seq<Top>)
    ensures a + b + c == a + (b + c)
  {
  }

  lemma SortJoinRun(run: seq<Top>, rest: seq<Top>, b: seq<Top>)
    requires AllImports(run) && rest != [] && !IsImport(rest[0])
    requires SortImports(rest + b) == SortImports(rest) + SortImports(b)
    ensures SortImports(run + rest + b) == SortImports(run + rest) + SortImports(b)
  {
    FirstOfConcat(rest, b);
    hide SortImports, StableSort;
    SortImportsSplit(run, rest + b);
    SortImportsSplit(run, rest);
    hide *;
    Associate(run, rest, b);
    Associate(StableSort(run), SortImports(rest), SortImports(b));
  }

  lemma FirstOfConcat(a: seq<Top>, b: seq<Top>)
    requires a != []
    ensures (a + b)[0] == a[0]
  {
  }

  /** What comes before a run is sorted by itself. */
  lemma {:induction false} SortJoin(a: seq<Top>, b: seq<Top>)
    requires a == [] || !IsImport(a[|a| - 1])
    ensures SortImports(a + b) == SortImports(a) + SortImports(b)
    decreases |a|
  {
    if a == [] {
      assert a + b == b;
    } else if IsImport(a[0]) {
      hide SortImports, RunLength;
      var n := RunLength(a);
      assert a == a[..n] + a[n..];
      SortJoin(a[n..], b);
      SortJoinRun(a[..n], a[n..], b);
    } else {
      assert (a + b)[1..] == a[1..] + b;
      SortJoin(a[1..], b);
    }
  }

  lemma SortImportsSorts(ts: seq<Top>)
    ensures RunsSorted(ts, SortImports(ts))
  {
    var us := SortImports(ts);
    SortShape(ts);
    forall i: nat, j: nat | RunAt(ts, i, j)
      ensures SortedBy(ts[i..j], us[i..j])
    {
      RunSortsAlone(ts, i, j);
      StableSortSorts(ts[i..j]);
    }
    hide SortImports, SortedBy;
  }

  lemma RunSortsAlone(ts: seq<Top>, i: nat, j: nat)
    requires RunAt(ts, i, j)
    ensures |SortImports(ts)| == |ts| && SortImports(ts)[i..j] == StableSort(ts[i..j])
  {
    hide SortImports, StableSort;
    var a, run, b := ts[..i], ts[i..j], ts[j..];
    assert ts == a + (run + b);
    SortJoin(a, run + b);
    SortImportsSplit(run, b);
    SortShape(ts);
    SortShape(a);
    SortMembers(run);
    assert |StableSort(run)| == |multiset(StableSort(run))| == |multiset(run)| == |run|;
    MiddleIs(SortImports(ts), SortImports(a), StableSort(run), SortImports(b));
  }

  lemma MiddleIs(us: seq<Top>, a: seq<Top>, run: seq<Top>, b: seq<Top>)
    requires us == a + (run + b)
    ensures us[|a|..|a| + |run|] == run
  {
  }

  // ----- the normal form

  /** What becomes of a statement of module `ts`: a function loses its docstring and
      redundant `pass` and has its locals numbered, any other loses redundant `pass`. */
  ghost predicate NormalStep(ts: seq<Top>, t: Top, u: Top) {
    match t
    case Def(f) =>
      && u.Def?
      && exists b, c, rho ::
           WithoutDoc(f.body, b) && Tidy(b, c) && NumbersLocals(ts, f, rho)
           && u.fun == f.(body := RenameBlock(rho, c))
    case Plain(s) => u.Plain? && TidyStmt(s, u.stmt)
    case _ => u == t
  }

  /** The normal form of a module: its docstring goes, its runs of imports are sorted, each
      statement takes its step, and redundant `pass` goes last. */
  lemma NormalFormSteps(m: Module) returns (ts: seq<Top>, us: seq<Top>, vs: seq<Top>)
    ensures WithoutDocTops(m.tops, ts) && RunsSorted(ts, us)
    ensures |vs| == |us| && forall i | 0 <= i < |us| :: NormalStep(m.tops, us[i], vs[i])
    ensures TidyTops(vs, Normalize(m).tops)
  {
    var prot := Protected(m.tops);
    ts := StripTops(m.tops);
    us := SortImports(ts);
    vs := Finish(prot, us);
    NormalizeIs(m);
    if m.tops != [] && m.tops[0].Plain? { BareIsDoc(m.tops[0].stmt); }
    SortImportsSorts(ts);
    FinishAt(prot, us);
    CleanTopBodyIsTidy(vs);
    forall i | 0 <= i < |us|
      ensures NormalStep(m.tops, us[i], vs[i])
    {
      StepOf(m.tops, us[i]);
    }
    hide *;
  }

  lemma StepOf(ts: seq<Top>, t: Top)
    ensures NormalStep(ts, t, FinishTop(Protected(ts), t))
  {
    hide NumbersLocals, Tidy, TidyStmt, CleanBlock, CleanStmt, FunMap, RenameBlock, Protected;
    match t
    case Def(f) =>
      var prot := Protected(ts);
      var b, rho := StripBlock(f.body), FunMap(prot, f);
      if f.body != [] { BareIsDoc(f.body[0]); }
      CleanIsTidy(b);
      FunMapNumbers(ts, f);
      SkeletonRenamed(prot, f);
      assert WithoutDoc(f.body, b) && Tidy(b, CleanBlock(b)) && NumbersLocals(ts, f, rho);
    case Plain(s) => CleanStmtIsTidy(s);
    case _ =>
  }

  // ----- generated names

  function DigitsValue(s: string): int {
    if s == "" then 0 else 10 * DigitsValue(s[..|s| - 1]) + (s[|s| - 1] as int - '0' as int)
  }

  /** Decimal digits without a leading zero. */
  predicate Numeral(s: string) {
    s != "" && (forall i | 0 <= i < |s| :: '0' <= s[i] <= '9') && (|s| > 1 ==> s[0] != '0')
  }

  lemma {:induction false} DigitsValueBounds(s: string)
    requires s != "" && forall i | 0 <= i < |s| :: '0' <= s[i] <= '9'
    ensures DigitsValue(s) >= 0 && (s[0] != '0' ==> DigitsValue(s) >= 1)
    ensures |s| == 1 ==> DigitsValue(s) == s[0] as int - '0' as int
  {
    if |s| > 1 {
      DigitsValueBounds(s[..|s| - 1]);
    } else {
      assert s[..0] == "";
    }
  }

  lemma DigitIs(c: char, n: nat)
    requires n < 10
    ensures c == "0123456789"[n] <==> '0' <= c <= '9' && c as int - '0' as int == n
  {
    assert "0123456789"[n] as int == '0' as int + n;
  }

  lemma NumeralSnoc(init: string, c: char, n: nat)
    requires n >= 10
    ensures Numeral(init + [c]) && DigitsValue(init + [c]) == n
       <==> Numeral(init) && DigitsValue(init) == n / 10 && '0' <= c <= '9' && c as int - '0' as int == n % 10
  {
    var s := init + [c];
    assert s[..|init|] == init && s[|init|] == c;
    assert forall i | 0 <= i < |init| :: s[i] == init[i];
    assert DigitsValue(s) == 10 * DigitsValue(init) + (c as int - '0' as int);
    if init != "" && forall i | 0 <= i < |init| :: '0' <= init[i] <= '9' { DigitsValueBounds(init); }
  }

  lemma NumeralDigit(s: string, n: nat)
    requires n < 10
    ensures s == ["0123456789"[n]] <==> Numeral(s) && DigitsValue(s) == n
  {
    if |s| == 1 {
      DigitIs(s[0], n);
      assert s[..0] == "";
    } else if |s| > 1 {
      if forall i | 0 <= i < |s| :: '0' <= s[i] <= '9' { DigitsValueBounds(s[..|s| - 1]); }
    }
  }

  lemma {:induction false} DecimalIff(s: string, n: nat)
    ensures s == Decimal(n) <==> Numeral(s) && DigitsValue(s) == n
    decreases n
  {
    hide Numeral, DigitsValue;
    if n < 10 {
      NumeralDigit(s, n);
    } else if s == "" {
      assert !Numeral(s) by { NoNumeral(); }
    } else {
      var init, c := s[..|s| - 1], s[|s| - 1];
      assert s == init + [c];
      DecimalIff(init, n / 10);
      NumeralSnoc(init, c, n);
      DigitIs(c, n % 10);
      LastOfConcat(s, init, c, Decimal(n / 10), "0123456789"[n % 10]);
    }
  }

  lemma NoNumeral()
    ensures !Numeral("")
  {
  }

  lemma LastOfConcat(s: string, init: string, c: char, a: string, d: char)
    requires s == init + [c]
    ensures s == a + [d] <==> init == a && c == d
  {
    if s == a + [d] {
      assert init == s[..|s| - 1] == a && c == s[|s| - 1] == d;
    }
  }

  /** The generated names are `v` and a number in decimal. */
  lemma VNameIff(x: string, n: nat)
    ensures x == VName(n) <==> x != "" && x[0] == 'v' && Numeral(x[1..]) && DigitsValue(x[1..]) == n
  {
    if x != "" {
      DecimalIff(x[1..], n);
      assert x == [x[0]] + x[1..];
      assert VName(n)[1..] == Decimal(n);
    }
  }
}
