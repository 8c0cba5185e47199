/** Whole modules: the normal form of a module runs like the module, and modules judged
    structurally equivalent mean the same. */
module NormalizerModule {
  import opened Basics
  import opened PySyntax
  import opened PyInterp
  import opened Normalizer
  import opened NormalizerImports
  import opened NormalizerNames
  import opened NormalizerMeaning

  // ----- renaming by a map that fixes every name

  lemma {:induction false} RenameExprId(m: map<string, string>, e: Expr)
    requires forall x | x in ExprNames(e) :: App(m, x) == x
    ensures RenameExpr(m, e) == e
  {
    match e
    case Walrus(_, b) => RenameExprId(m, b);
    case Attr(o, _) => RenameExprId(m, o);
    case BinOp(_, l, r) => RenameExprId(m, l); RenameExprId(m, r);
    case Call(f, args) => RenameExprId(m, f); RenameExprsId(m, args);
    case _ =>
  }

  lemma {:induction false} RenameExprsId(m: map<string, string>, es: seq<Expr>)
    requires forall x | x in ExprsNames(es) :: App(m, x) == x
    ensures RenameExprs(m, es) == es
  {
    if es != [] {
      RenameExprId(m, es[0]);
      RenameExprsId(m, es[1..]);
    }
  }

  lemma {:induction false} RenameStmtId(m: map<string, string>, s: Stmt)
    requires forall x | x in StmtNames(s) :: App(m, x) == x
    ensures RenameStmt(m, s) == s
    decreases s, 0
  {
    match s
    case Assign(ts, v) =>
      RenameExprId(m, v);
      assert forall i | 0 <= i < |ts| :: ts[i] in Elems(ts);
      assert RenameList(m, ts) == ts;
    case AugAssign(_, _, v) => RenameExprId(m, v);
    case If(c, b, o) => RenameExprId(m, c); RenameBlockId(m, b); RenameBlockId(m, o);
    case While(c, b, o) => RenameExprId(m, c); RenameBlockId(m, b); RenameBlockId(m, o);
    case Return(v) => RenameExprId(m, v);
    case ExprStmt(v) => RenameExprId(m, v);
    case _ =>
  }

  lemma {:induction false} RenameBlockId(m: map<string, string>, b: seq<Stmt>)
    requires forall x | x in BlockNames(b) :: App(m, x) == x
    ensures RenameBlock(m, b) == b
    decreases b, 0
  {
    if b != [] {
      RenameStmtId(m, b[0]);
      RenameBlockId(m, b[1..]);
    }
  }

  // ----- the function table of each stage

  function MapFun(g: Fun -> Fun, fs: seq<Fun>): seq<Fun> {
    if fs == [] then [] else [g(fs[0])] + MapFun(g, fs[1..])
  }

  lemma {:induction false} MapFunAt(g: Fun -> Fun, fs: seq<Fun>)
    ensures |MapFun(g, fs)| == |fs|
    ensures forall k | 0 <= k < |fs| :: MapFun(g, fs)[k] == g(fs[k])
  {
    if fs != [] { MapFunAt(g, fs[1..]); }
  }

  lemma {:induction false} FunsMap(g: Fun -> Fun, ts: seq<Top>)
    ensures Funs(MapFuns(g, ts)) == MapFun(g, Funs(ts))
    ensures |MapFuns(g, ts)| == |ts|
    ensures forall i | 0 <= i < |ts| :: MapFuns(g, ts)[i] == if ts[i].Def? then Def(g(ts[i].fun)) else ts[i]
  {
    if ts != [] {
      FunsMap(g, ts[1..]);
      assert MapFuns(g, ts)[1..] == MapFuns(g, ts[1..]);
    }
  }

  lemma {:induction false} FunsConcat(a: seq<Top>, b: seq<Top>)
    ensures Funs(a + b) == Funs(a) + Funs(b)
    ensures Protected(a + b) == Protected(a) + Protected(b)
  {
    if a == [] {
      assert a + b == b;
    } else {
      assert (a + b)[1..] == a[1..] + b;
      FunsConcat(a[1..], b);
    }
  }

  lemma {:induction false} FunsCleanEach(ts: seq<Top>)
    ensures Funs(CleanTopEach(ts)) == MapFun(CleanFun, Funs(ts))
    ensures |CleanTopEach(ts)| == |ts| && forall i | 0 <= i < |ts| :: CleanTopEach(ts)[i] == CleanTop(ts[i])
  {
    if ts != [] {
      FunsCleanEach(ts[1..]);
      assert CleanTopEach(ts)[1..] == CleanTopEach(ts[1..]);
    }
  }

  lemma {:induction false} FunsDropPass(ts: seq<Top>)
    ensures Funs(DropPassTops(ts)) == Funs(ts)
  {
    if ts != [] {
      FunsDropPass(ts[1..]);
      if !IsPassTop(ts[0]) { assert DropPassTops(ts)[1..] == DropPassTops(ts[1..]); }
    }
  }

  lemma FunsCleanTops(ts: seq<Top>)
    ensures Funs(CleanTops(ts)) == MapFun(CleanFun, Funs(ts))
  {
    FunsCleanEach(ts);
    FunsDropPass(CleanTopEach(ts));
    assert Funs([Plain(Pass)]) == [];
  }

  lemma FunsStripTops(ts: seq<Top>)
    ensures Funs(StripTops(ts)) == Funs(ts)
    ensures Protected(StripTops(ts)) == Protected(ts)
  {
    if ts != [] && IsBareTop(ts[0]) && |ts| == 1 {
      assert ts[1..] == [] && [Plain(Pass)][1..] == [];
    }
  }

  lemma {:induction false} ProtectedMap(g: Fun -> Fun, ts: seq<Top>)
    requires forall f :: g(f).name == f.name
    ensures Protected(MapFuns(g, ts)) == Protected(ts)
  {
    if ts != [] {
      ProtectedMap(g, ts[1..]);
      assert MapFuns(g, ts)[1..] == MapFuns(g, ts[1..]);
    }
  }

  lemma {:induction false} ImportsHaveNoFuns(ts: seq<Top>)
    requires AllImports(ts)
    ensures Funs(ts) == []
  {
    if ts != [] { ImportsHaveNoFuns(ts[1..]); }
  }

  lemma {:induction false} InsertProtected(t: Top, ts: seq<Top>)
    ensures Protected(Insert(t, ts)) == Protected([t]) + Protected(ts)
  {
    if ts == [] || KeyLe(t, ts[0]) {
      FunsConcat([t], ts);
      assert Insert(t, ts) == [t] + ts;
    } else {
      InsertProtected(t, ts[1..]);
      FunsConcat([ts[0]], Insert(t, ts[1..]));
      FunsConcat([ts[0]], ts[1..]);
      assert ts == [ts[0]] + ts[1..];
    }
  }

  lemma {:induction false} SortProtected(ts: seq<Top>)
    ensures Protected(StableSort(ts)) == Protected(ts)
  {
    if ts != [] {
      SortProtected(ts[1..]);
      InsertProtected(ts[0], StableSort(ts[1..]));
      FunsConcat([ts[0]], ts[1..]);
      assert ts == [ts[0]] + ts[1..];
    }
  }

  lemma SortTables(ts: seq<Top>)
    requires AllImports(ts)
    ensures Funs(StableSort(ts)) == [] && Funs(ts) == []
    ensures Protected(StableSort(ts)) == Protected(ts)
  {
    SortElements(ts);
    ImportsHaveNoFuns(StableSort(ts));
    ImportsHaveNoFuns(ts);
    SortProtected(ts);
  }

  lemma {:induction false} SortImportsTables(ts: seq<Top>)
    ensures Funs(SortImports(ts)) == Funs(ts)
    ensures Protected(SortImports(ts)) == Protected(ts)
    decreases |ts|
  {
    hide StableSort, Funs, Protected;
    if ts != [] {
      if IsImport(ts[0]) {
        var n := RunLength(ts);
        SortTables(ts[..n]);
        SortImportsTables(ts[n..]);
        FunsConcat(ts[..n], ts[n..]);
        FunsConcat(StableSort(ts[..n]), SortImports(ts[n..]));
        assert ts == ts[..n] + ts[n..];
      } else {
        SortImportsTables(ts[1..]);
        FunsConcat([ts[0]], ts[1..]);
        FunsConcat([ts[0]], SortImports(ts[1..]));
        assert ts == [ts[0]] + ts[1..];
      }
    }
  }

  /** The k-th function of the normal form is the k-th function normalised with the
      names the original module protects. */
  lemma NormalizedFuns(m: Module)
    ensures |Funs(Normalize(m).tops)| == |Funs(m.tops)|
    ensures forall k | 0 <= k < |Funs(m.tops)| ::
              Funs(Normalize(m).tops)[k] == NormFun(Protected(m.tops), Funs(m.tops)[k])
  {
    var prot := Protected(m.tops);
    var t0 := StripTops(m.tops);
    var t1 := MapFuns(StripFun, t0);
    var t2 := SortImports(t1);
    FunsStripTops(m.tops);
    FunsMap(StripFun, t0);
    ProtectedMap(StripFun, t0);
    SortImportsTables(t1);
    FunsMap(f => RenameFun(prot, f), t2);
    FunsCleanTops(RenameLocals(t2));
    MapFunAt(StripFun, Funs(t0));
    MapFunAt(f => RenameFun(prot, f), Funs(t2));
    MapFunAt(CleanFun, Funs(RenameLocals(t2)));
  }

  // ----- running the other passes

  /** `us` is `ts` with cleaned statements and function bodies replaced. */
  ghost predicate Pointwise(ts: seq<Top>, us: seq<Top>) {
    && |us| == |ts|
    && forall i | 0 <= i < |ts| ::
         if ts[i].Def? then us[i].Def? && us[i].fun.name == ts[i].fun.name
         else us[i] == CleanTop(ts[i])
  }

  lemma {:induction false} SimTops(p: seq<Fun>, q: seq<Fun>, prot: set<string>, w: World, ts: seq<Top>, us: seq<Top>,
      k: nat, st: State, fuel: nat)
    requires Linked(p, q, prot) && Pointwise(ts, us)
    ensures RunTops(p, w, ts, k, st, fuel) == RunTops(q, w, us, k, st, fuel)
    decreases |ts|
  {
    if ts != [] {
      assert Pointwise(ts[1..], us[1..]);
      match ts[0]
      case Def(f) => SimTops(p, q, prot, w, ts[1..], us[1..], k + 1,
          st.(globals := st.globals[f.name := VFun(k)]), fuel);
      case Plain(s) =>
        var fr := Frame(ModuleScope, ModuleScope, map[], StmtNames(s));
        RenameStmtId(map[], s);
        SimStmt(p, q, prot, w, fr, s, st, st, fuel);
        var (fl, st1) := Step(p, w, ModuleScope, s, st, fuel);
        assert st1 == Step(q, w, ModuleScope, CleanStmt(s), st, fuel).1;
        SimTops(p, q, prot, w, ts[1..], us[1..], k, st1, fuel);
      case _ => SimTops(p, q, prot, w, ts[1..], us[1..], k, st.(globals := st.globals + Bindings(ts[0])), fuel);
    }
  }

  lemma {:induction false} RunDropPass(p: seq<Fun>, w: World, ts: seq<Top>, k: nat, st: State, fuel: nat)
    ensures RunTops(p, w, DropPassTops(ts), k, st, fuel) == RunTops(p, w, ts, k, st, fuel)
    decreases |ts|
  {
    if ts != [] {
      if !IsPassTop(ts[0]) { assert DropPassTops(ts)[1..] == DropPassTops(ts[1..]); }
      match ts[0]
      case Def(f) => RunDropPass(p, w, ts[1..], k + 1, st.(globals := st.globals[f.name := VFun(k)]), fuel);
      case Plain(s) => RunDropPass(p, w, ts[1..], k, Step(p, w, ModuleScope, s, st, fuel).1, fuel);
      case _ => RunDropPass(p, w, ts[1..], k, st.(globals := st.globals + Bindings(ts[0])), fuel);
    }
  }

  lemma RunCleanBody(p: seq<Fun>, w: World, ts: seq<Top>, k: nat, st: State, fuel: nat)
    ensures RunTops(p, w, CleanTopBody(ts), k, st, fuel) == RunTops(p, w, ts, k, st, fuel)
  {
    RunDropPass(p, w, ts, k, st, fuel);
    assert [Plain(Pass)][1..] == [];
  }

  lemma RunStripTops(p: seq<Fun>, w: World, ts: seq<Top>, k: nat, st: State, fuel: nat)
    ensures RunTops(p, w, StripTops(ts), k, st, fuel) == RunTops(p, w, ts, k, st, fuel)
  {
    if ts != [] && IsBareTop(ts[0]) {
      assert Step(p, w, ModuleScope, ts[0].stmt, st, fuel) == (Next, st);
      assert Step(p, w, ModuleScope, Pass, st, fuel) == (Next, st);
      assert [Plain(Pass)][1..] == [];
    }
  }

  lemma {:induction false} RunMapFuns(p: seq<Fun>, w: World, g: Fun -> Fun, ts: seq<Top>, k: nat, st: State, fuel: nat)
    requires forall f :: g(f).name == f.name
    ensures RunTops(p, w, MapFuns(g, ts), k, st, fuel) == RunTops(p, w, ts, k, st, fuel)
    decreases |ts|
  {
    if ts != [] {
      assert MapFuns(g, ts)[1..] == MapFuns(g, ts[1..]);
      match ts[0]
      case Def(f) => RunMapFuns(p, w, g, ts[1..], k + 1, st.(globals := st.globals[f.name := VFun(k)]), fuel);
      case Plain(s) => RunMapFuns(p, w, g, ts[1..], k, Step(p, w, ModuleScope, s, st, fuel).1, fuel);
      case _ => RunMapFuns(p, w, g, ts[1..], k, st.(globals := st.globals + Bindings(ts[0])), fuel);
    }
  }

  lemma StripTopsKeepsRunsSafe(ts: seq<Top>)
    requires RunsSafe(ts)
    ensures RunsSafe(StripTops(ts))
  {
    hide RunsSafe;
    if ts != [] && IsBareTop(ts[0]) {
      if |ts| > 1 { RunsSafeTail(ts, 1); } else { NoImportsSafe([Plain(Pass)]); }
    }
  }

  lemma NoImportsSafe(ts: seq<Top>)
    requires forall i | 0 <= i < |ts| :: !IsImport(ts[i])
    ensures RunsSafe(ts)
  {
    forall i: nat, j: nat
      ensures !ImportRun(ts, i, j)
    {
      assert i < j <= |ts| ==> !IsImport(ts[i]);
    }
  }

  lemma StripKeepsRunsSafe(ts: seq<Top>)
    requires RunsSafe(ts)
    ensures RunsSafe(StripDocstrings(ts))
  {
    hide RunsSafe, StripTops;
    StripTopsKeepsRunsSafe(ts);
    FunsMap(StripFun, StripTops(ts));
    SameImportsSafe(StripTops(ts), StripDocstrings(ts));
  }

  // ----- the theorem

  /** No function captures a name. */
  ghost predicate CapturesNothing(m: Module) {
    forall k | 0 <= k < |Funs(m.tops)| :: CaptureFree(Protected(m.tops), Funs(m.tops)[k])
  }

  /** What a module must satisfy to run like its normal form: no function captures a name,
      and sorting leaves what each run of imports binds as it was. */
  ghost predicate Normalizable(m: Module) {
    CapturesNothing(m) && RunsSafe(m.tops)
  }

  lemma NormalizedLinked(m: Module)
    requires CapturesNothing(m)
    ensures Linked(Funs(m.tops), Funs(Normalize(m).tops), Protected(m.tops))
  {
    NormalizedFuns(m);
  }

  /** Running a module and running its normal form end alike: same outcome, same
      globals, same calls to the outside, whatever the outside does and however many
      loop iterations and calls are allowed. */
  lemma NormalizePreservesRun(m: Module, w: World, fuel: nat)
    requires Normalizable(m)
    ensures RunModule(w, Normalize(m), fuel) == RunModule(w, m, fuel)
  {
    var p, q := Funs(m.tops), Funs(Normalize(m).tops);
    var st := State(map[], map[], []);
    var t0 := StripTops(m.tops);
    var t1 := MapFuns(StripFun, t0);
    var t2 := SortImports(t1);
    var t3 := RenameLocals(t2);
    RunStripTops(p, w, m.tops, 0, st, fuel);
    RunMapFuns(p, w, StripFun, t0, 0, st, fuel);
    StripKeepsRunsSafe(m.tops);
    RunSorted(p, w, t1, 0, st, fuel);
    NormalizedLinked(m);
    var prot := Protected(t2);
    FunsMap(f => RenameFun(prot, f), t2);
    FunsCleanEach(t3);
    SimTops(p, q, Protected(m.tops), w, t2, CleanTopEach(t3), 0, st, fuel);
    RunCleanBody(q, w, CleanTopEach(t3), 0, st, fuel);
  }

  /** Calling the k-th function of a module or of its normal form gives the same value
      or the same error, and leaves the same globals and history. */
  lemma NormalizePreservesCalls(m: Module, w: World, k: nat, args: seq<Val>, globals: map<string, Val>,
      trace: seq<Event>, fuel: nat)
    requires CapturesNothing(m)
    ensures CallFun(w, Normalize(m), k, args, globals, trace, fuel) == CallFun(w, m, k, args, globals, trace, fuel)
  {
    NormalizedLinked(m);
    SimInvoke(Funs(m.tops), Funs(Normalize(m).tops), Protected(m.tops), w, k, args,
              State(globals, map[], trace), State(globals, map[], trace), fuel);
  }

  /** Modules judged structurally equivalent have functions of equal meaning, whatever
      they import. */
  lemma EquivalentModulesCallAlike(a: Module, b: Module, w: World, k: nat, args: seq<Val>, globals: map<string, Val>,
      trace: seq<Event>, fuel: nat)
    requires StructurallyEquivalent(a, b) && CapturesNothing(a) && CapturesNothing(b)
    ensures CallFun(w, a, k, args, globals, trace, fuel) == CallFun(w, b, k, args, globals, trace, fuel)
  {
    NormalizePreservesCalls(a, w, k, args, globals, trace, fuel);
    NormalizePreservesCalls(b, w, k, args, globals, trace, fuel);
  }

  /** And if their imports are safe to sort, they run alike. */
  lemma EquivalentModulesMeanTheSame(a: Module, b: Module, w: World, fuel: nat)
    requires StructurallyEquivalent(a, b) && Normalizable(a) && Normalizable(b)
    ensures RunModule(w, a, fuel) == RunModule(w, b, fuel)
  {
    NormalizePreservesRun(a, w, fuel);
    NormalizePreservesRun(b, w, fuel);
  }

  // ----- why the conditions are there

  /** `def f(): <x> = 1; return v0`. */
  function CaptureExample(x: string): Fun {
    Fun("f", [], [Assign([x], Lit(CInt(1))), Return(Name("v0"))])
  }

  lemma CaptureExampleNames()
    ensures LocalOrder({"f"}, CaptureExample("x")) == ["x"]
    ensures FunMap({"f"}, CaptureExample("x")) == map["x" := "v0"]
    ensures "v0" in FunNames(CaptureExample("x"))
  {
    var s0, s1 := Assign(["x"], Lit(CInt(1))), Return(Name("v0"));
    var f := CaptureExample("x");
    assert [s0, s1][1..] == [s1] && [s1][1..] == [];
    assert BlockStores([s1]) == {} && StmtStores(s0) == {"x"};
    assert BlockNames([s1]) == {"v0"} && StmtNames(s0) == {"x"};
    LocalOrderIs({"f"}, f);
    SingletonOrder(LocalOrder({"f"}, f), "x");
    assert Decimal(0) == "0" && VName(0) == "v0";
    assert ["x"][..0] == [];
  }

  lemma CaptureExampleNormalForm()
    ensures NormFun({"f"}, CaptureExample("x")) == CaptureExample("v0")
    ensures !CaptureFree({"f"}, CaptureExample("x"))
  {
    CaptureExampleNames();
    var s0, s1 := Assign(["x"], Lit(CInt(1))), Return(Name("v0"));
    var t0 := Assign(["v0"], Lit(CInt(1)));
    var m := map["x" := "v0"];
    assert VName(0) == "v0" by { assert Decimal(0) == "0"; }
    assert Generated("v0", 1);
    assert [s0, s1][1..] == [s1] && [s1][1..] == [] && [t0, s1][1..] == [t0, s1][1..];
    assert RenameList(m, ["x"]) == ["v0"];
    assert RenameBlock(m, [s1]) == [s1];
    assert RenameBlock(m, [s0, s1]) == [t0, s1];
    assert [t0, s1][1..] == [s1];
    assert CleanEach([s1]) == [s1] && CleanEach([t0, s1]) == [t0, s1];
    assert DropPass([s1]) == [s1] && DropPass([t0, s1]) == [t0, s1];
  }

  /** A function that stores `x` and reads a global `v0` fails when there is no such
      global; its normal form stores `v0` and returns it. */
  lemma CaptureChangesMeaning(w: World)
    requires w.builtins == map[]
    ensures var m := Module([Def(CaptureExample("x"))]);
            && !CaptureFree(Protected(m.tops), CaptureExample("x"))
            && CallFun(w, m, 0, [], map[], [], 0).0 == Raised(NameError("v0"))
            && CallFun(w, Normalize(m), 0, [], map[], [], 0).0 == Ok(VInt(1))
  {
    hide Normalize, Invoke, Funs, Protected, CaptureFree;
    CaptureExampleModule();
    TwoStatementCall(w, [CaptureExample("x")], "x");
    TwoStatementCall(w, [CaptureExample("v0")], "v0");
  }

  lemma CaptureExampleModule()
    ensures var m := Module([Def(CaptureExample("x"))]);
            && !CaptureFree(Protected(m.tops), CaptureExample("x"))
            && Funs(m.tops) == [CaptureExample("x")] && Funs(Normalize(m).tops) == [CaptureExample("v0")]
  {
    hide Normalize, NormFun, CaptureFree;
    var f := CaptureExample("x");
    var m := Module([Def(f)]);
    assert [Def(f)][1..] == [] && Protected([]) == {} && Funs([]) == [];
    assert Protected(m.tops) == {"f"} && Funs(m.tops) == [f];
    NormalizedFuns(m);
    CaptureExampleNormalForm();
  }

  lemma SingletonOrder(order: seq<string>, x: string)
    requires Distinct(order) && Elems(order) == {x}
    ensures order == [x]
  {
    assert x in Elems(order);
    assert x in order;
    assert |order| < 2 || order[0] != order[1];
    forall i | 0 <= i < |order|
      ensures order[i] == x
    {
      assert order[i] in Elems(order);
      assert order[i] in {x};
    }
  }

  lemma TwoStatementCall(w: World, p: seq<Fun>, x: string)
    requires w.builtins == map[] && p == [CaptureExample(x)]
    ensures Invoke(p, w, 0, [], State(map[], map[], []), 0).0
            == if x == "v0" then Ok(VInt(1)) else Raised(NameError("v0"))
  {
    var f := CaptureExample(x);
    var s0, s1 := Assign([x], Lit(CInt(1))), Return(Name("v0"));
    var sc := FunScope(FunLocals(f));
    assert [s0, s1][1..] == [s1] && [s1][1..] == [] && [x][1..] == [];
    assert BlockStores([s1]) == {} && BlockStores([s0, s1]) == {x};
    assert FunLocals(f) == {x};
    assert p[0] == f && BindParams(f.params, []) == map[];
    var st := State(map[], map[], []);
    var st1 := st.(locals := st.locals[x := VInt(1)]);
    assert StoreAll(sc, [x], VInt(1), st) == st1;
    assert Step(p, w, sc, s0, st, 0) == (Next, st1);
    assert Exec(p, w, sc, [s0, s1], st, 0) == Exec(p, w, sc, [s1], st1, 0);
    var out := if x == "v0" then Returned(VInt(1)) else Failed(NameError("v0"));
    assert Step(p, w, sc, s1, st1, 0) == (out, st1);
  }
}
