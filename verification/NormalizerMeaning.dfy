/** Normalising preserves meaning: a module and its normal form run in lockstep, for
    every outside world and every amount of fuel. */
module NormalizerMeaning {
  import opened PySyntax
  import opened PyInterp
  import opened Normalizer
  import opened NormalizerNames

  function NormFun(prot: set<string>, f: Fun): Fun {
    CleanFun(RenameFun(prot, StripFun(f)))
  }

  /** No name the renamer leaves alone in `f` is one of the names it generates for `f`. */
  ghost predicate CaptureFree(prot: set<string>, f: Fun) {
    forall x | x in FunNames(f) && x !in FunMap(prot, f) :: !Generated(x, |LocalOrder(prot, f)|)
  }

  /** `m` maps the names `names` of a function one to one, keeps locals local, and
      leaves every other name alone. */
  ghost predicate Faithful(m: map<string, string>, names: set<string>, loc: set<string>, loc': set<string>) {
    && (forall x, y | x in names && y in names && App(m, x) == App(m, y) :: x == y)
    && (forall x | x in names :: (x in loc <==> App(m, x) in loc') && (x !in loc ==> App(m, x) == x))
  }

  // ----- names of a function under the passes

  lemma StoresAreWalk(b: seq<Stmt>)
    ensures BlockStores(b) == Elems(Walk(BlockNodes(b)))
  {
    BlockNodesStores(b);
    WalkStores(BlockNodes(b));
  }

  lemma {:induction false} ExprStoresNamed(e: Expr)
    ensures ExprStores(e) <= ExprNames(e)
  {
    match e
    case Walrus(_, b) => ExprStoresNamed(b);
    case Attr(o, _) => ExprStoresNamed(o);
    case BinOp(_, l, r) => ExprStoresNamed(l); ExprStoresNamed(r);
    case Call(f, args) => ExprStoresNamed(f); ExprsStoresNamed(args);
    case _ =>
  }

  lemma {:induction false} ExprsStoresNamed(es: seq<Expr>)
    ensures ExprsStores(es) <= ExprsNames(es)
  {
    if es != [] {
      ExprStoresNamed(es[0]);
      ExprsStoresNamed(es[1..]);
    }
  }

  lemma {:induction false} StmtStoresNamed(s: Stmt)
    ensures StmtStores(s) <= StmtNames(s)
    decreases s, 0
  {
    match s
    case Assign(_, v) => ExprStoresNamed(v);
    case AugAssign(_, _, v) => ExprStoresNamed(v);
    case If(c, b, o) => ExprStoresNamed(c); BlockStoresNamed(b); BlockStoresNamed(o);
    case While(c, b, o) => ExprStoresNamed(c); BlockStoresNamed(b); BlockStoresNamed(o);
    case Return(v) => ExprStoresNamed(v);
    case ExprStmt(v) => ExprStoresNamed(v);
    case _ =>
  }

  lemma {:induction false} BlockStoresNamed(b: seq<Stmt>)
    ensures BlockStores(b) <= BlockNames(b)
    decreases b, 0
  {
    if b != [] {
      StmtStoresNamed(b[0]);
      BlockStoresNamed(b[1..]);
    }
  }

  lemma StripNames(prot: set<string>, f: Fun)
    ensures LocalOrder(prot, StripFun(f)) == LocalOrder(prot, f)
    ensures FunNames(StripFun(f)) == FunNames(f)
    ensures FunLocals(StripFun(f)) == FunLocals(f)
  {
    WalkStrip(f.body);
    StoresAreWalk(f.body);
    StoresAreWalk(StripBlock(f.body));
    if f.body != [] && IsBareString(f.body[0]) {
      assert StmtNames(f.body[0]) == {};
      assert BlockNames([Pass]) == {};
      assert |f.body| == 1 ==> f.body[1..] == [];
    }
  }

  lemma CleanLocals(f: Fun)
    ensures FunLocals(CleanFun(f)) == FunLocals(f)
  {
    WalkCleanBlock(f.body);
    StoresAreWalk(f.body);
    StoresAreWalk(CleanBlock(f.body));
  }

  lemma RenamedLocals(m: map<string, string>, f: Fun, x: string)
    requires m.Keys !! Elems(f.params)
    ensures x in FunLocals(f.(body := RenameBlock(m, f.body))) <==> exists y | y in FunLocals(f) :: App(m, y) == x
  {
    StoresAreWalk(f.body);
    StoresAreWalk(RenameBlock(m, f.body));
    WalkRenameBlock(m, f.body);
    var ws := Walk(BlockNodes(f.body));
    if x in RenameList(m, ws) {
      var i :| 0 <= i < |ws| && App(m, ws[i]) == x;
      assert ws[i] in FunLocals(f);
    }
    if x in Elems(f.params) {
      assert App(m, x) == x && x in FunLocals(f);
    }
    forall y | y in FunLocals(f) && App(m, y) == x
      ensures x in FunLocals(f.(body := RenameBlock(m, f.body)))
    {
      if y in ws {
        var i :| 0 <= i < |ws| && ws[i] == y;
        assert RenameList(m, ws)[i] == x;
      }
    }
  }

  /** Without capture the renaming of a function is faithful. */
  lemma RenamingFaithful(prot: set<string>, f: Fun)
    requires CaptureFree(prot, f)
    ensures Faithful(FunMap(prot, f), FunNames(f), FunLocals(f), FunLocals(RenameFun(prot, f)))
    ensures FunMap(prot, f).Keys !! Elems(f.params)
  {
    var m, order := FunMap(prot, f), LocalOrder(prot, f);
    LocalOrderIs(prot, f);
    BlockStoresNamed(f.body);
    forall x | x in m
      ensures exists i :: 0 <= i < |order| && order[i] == x && m[x] == VName(i)
    {
      assert x in order;
    }
    forall x, y | x in FunNames(f) && y in FunNames(f) && App(m, x) == App(m, y)
      ensures x == y
    {
      InjectiveAt(prot, f, x, y);
    }
    forall x | x in FunNames(f)
      ensures x in FunLocals(f) <==> App(m, x) in FunLocals(RenameFun(prot, f))
    {
      RenamedLocals(m, f, App(m, x));
    }
  }

  lemma InjectiveAt(prot: set<string>, f: Fun, x: string, y: string)
    requires CaptureFree(prot, f) && x in FunNames(f) && y in FunNames(f)
    requires App(FunMap(prot, f), x) == App(FunMap(prot, f), y)
    ensures x == y
  {
    var m, order := FunMap(prot, f), LocalOrder(prot, f);
    LocalOrderIs(prot, f);
    if x in m {
      var i :| 0 <= i < |order| && order[i] == x;
      assert m[x] == VName(i);
      if y in m {
        var j :| 0 <= j < |order| && order[j] == y;
        VNameInjective(i, j);
      }
    }
  }

  /** The renamer captures nothing exactly when no two names of the function merge. */
  lemma CaptureFreeIffInjective(prot: set<string>, f: Fun)
    ensures CaptureFree(prot, f) <==>
            forall x, y | x in FunNames(f) && y in FunNames(f)
                && App(FunMap(prot, f), x) == App(FunMap(prot, f), y) :: x == y
  {
    var m, order := FunMap(prot, f), LocalOrder(prot, f);
    LocalOrderIs(prot, f);
    BlockStoresNamed(f.body);
    if CaptureFree(prot, f) {
      RenamingFaithful(prot, f);
    } else {
      var x :| x in FunNames(f) && x !in m && Generated(x, |order|);
      var i :| 0 <= i < |order| && x == VName(i);
      assert order[i] in m && App(m, order[i]) == App(m, x) && order[i] != x;
      assert order[i] in FunNames(f);
    }
  }

  // ----- passes that only drop statements without effect

  lemma {:induction false} DropPassExec(p: seq<Fun>, w: World, sc: Scope, b: seq<Stmt>, st: State, fuel: nat)
    ensures Exec(p, w, sc, DropPass(b), st, fuel) == Exec(p, w, sc, b, st, fuel)
    decreases b
  {
    if b != [] {
      var (fl, st1) := Step(p, w, sc, b[0], st, fuel);
      DropPassExec(p, w, sc, b[1..], st1, fuel);
    }
  }

  lemma CleanBodyExec(p: seq<Fun>, w: World, sc: Scope, b: seq<Stmt>, st: State, fuel: nat)
    ensures Exec(p, w, sc, CleanBody(b), st, fuel) == Exec(p, w, sc, b, st, fuel)
  {
    DropPassExec(p, w, sc, b, st, fuel);
    assert Step(p, w, sc, Pass, st, fuel) == (Next, st);
  }

  lemma StripExec(p: seq<Fun>, w: World, sc: Scope, b: seq<Stmt>, st: State, fuel: nat)
    ensures Exec(p, w, sc, StripBlock(b), st, fuel) == Exec(p, w, sc, b, st, fuel)
  {
    if b != [] && IsBareString(b[0]) {
      assert Step(p, w, sc, b[0], st, fuel) == (Next, st);
      assert Step(p, w, sc, Pass, st, fuel) == (Next, st);
    }
  }

  // ----- the simulation

  /** Two functions tables, the second one the normal form of the first. */
  ghost predicate Linked(p: seq<Fun>, q: seq<Fun>, prot: set<string>) {
    && |q| == |p|
    && forall k | 0 <= k < |p| :: q[k] == NormFun(prot, p[k]) && CaptureFree(prot, p[k])
  }

  /** The scope of a frame before and after renaming. */
  datatype Frame = Frame(sc: Scope, sc': Scope, m: map<string, string>, names: set<string>)

  ghost predicate Framed(fr: Frame) {
    if fr.sc.ModuleScope? then fr.sc'.ModuleScope? && fr.m == map[]
    else fr.sc'.FunScope? && Faithful(fr.m, fr.names, fr.sc.locals, fr.sc'.locals)
  }

  ghost predicate Same(fr: Frame, st: State, st': State) {
    && st.globals == st'.globals
    && st.trace == st'.trace
    && if fr.sc.ModuleScope? then st.locals == st'.locals
       else forall x | x in fr.names ::
              (x in st.locals <==> App(fr.m, x) in st'.locals)
              && (x in st.locals ==> st.locals[x] == st'.locals[App(fr.m, x)])
  }

  lemma SameLookup(w: World, fr: Frame, x: string, st: State, st': State)
    requires Framed(fr) && Same(fr, st, st') && x in fr.names
    ensures Lookup(w, fr.sc, x, st) == Lookup(w, fr.sc', App(fr.m, x), st')
  {
  }

  lemma SameStore(fr: Frame, x: string, v: Val, st: State, st': State)
    requires Framed(fr) && Same(fr, st, st') && x in fr.names
    ensures Same(fr, Store(fr.sc, x, v, st), Store(fr.sc', App(fr.m, x), v, st'))
  {
  }

  lemma {:induction false} SameStoreAll(fr: Frame, xs: seq<string>, v: Val, st: State, st': State)
    requires Framed(fr) && Same(fr, st, st') && Elems(xs) <= fr.names
    ensures Same(fr, StoreAll(fr.sc, xs, v, st), StoreAll(fr.sc', RenameList(fr.m, xs), v, st'))
    decreases xs
  {
    if xs != [] {
      assert xs[0] in Elems(xs);
      SameStore(fr, xs[0], v, st, st');
      assert RenameList(fr.m, xs)[1..] == RenameList(fr.m, xs[1..]);
      SameStoreAll(fr, xs[1..], v, Store(fr.sc, xs[0], v, st), Store(fr.sc', App(fr.m, xs[0]), v, st'));
    }
  }

  lemma {:induction false} SimExpr(p: seq<Fun>, q: seq<Fun>, prot: set<string>, w: World, fr: Frame, e: Expr,
      st: State, st': State, fuel: nat)
    requires Linked(p, q, prot) && Framed(fr) && Same(fr, st, st') && ExprNames(e) <= fr.names
    ensures Eval(p, w, fr.sc, e, st, fuel).0 == Eval(q, w, fr.sc', RenameExpr(fr.m, e), st', fuel).0
    ensures Same(fr, Eval(p, w, fr.sc, e, st, fuel).1, Eval(q, w, fr.sc', RenameExpr(fr.m, e), st', fuel).1)
    decreases fuel, e, 1
  {
    match e
    case Lit(_) =>
    case Name(x) => SameLookup(w, fr, x, st, st');
    case Walrus(t, b) =>
      SimExpr(p, q, prot, w, fr, b, st, st', fuel);
      var (r, st1) := Eval(p, w, fr.sc, b, st, fuel);
      var (r', st1') := Eval(q, w, fr.sc', RenameExpr(fr.m, b), st', fuel);
      if r.Ok? { SameStore(fr, t, r.v, st1, st1'); }
    case Attr(o, _) => SimExpr(p, q, prot, w, fr, o, st, st', fuel);
    case BinOp(_, _, _) => SimBinOp(p, q, prot, w, fr, e, st, st', fuel);
    case Call(_, _) => SimCall(p, q, prot, w, fr, e, st, st', fuel);
  }

  lemma {:induction false} SimBinOp(p: seq<Fun>, q: seq<Fun>, prot: set<string>, w: World, fr: Frame, e: Expr,
      st: State, st': State, fuel: nat)
    requires Linked(p, q, prot) && Framed(fr) && Same(fr, st, st') && ExprNames(e) <= fr.names && e.BinOp?
    ensures Eval(p, w, fr.sc, e, st, fuel).0 == Eval(q, w, fr.sc', RenameExpr(fr.m, e), st', fuel).0
    ensures Same(fr, Eval(p, w, fr.sc, e, st, fuel).1, Eval(q, w, fr.sc', RenameExpr(fr.m, e), st', fuel).1)
    decreases fuel, e, 0
  {
    SimExpr(p, q, prot, w, fr, e.left, st, st', fuel);
    var (_, st1) := Eval(p, w, fr.sc, e.left, st, fuel);
    var (_, st1') := Eval(q, w, fr.sc', RenameExpr(fr.m, e.left), st', fuel);
    SimExpr(p, q, prot, w, fr, e.right, st1, st1', fuel);
  }

  lemma {:induction false} SimCall(p: seq<Fun>, q: seq<Fun>, prot: set<string>, w: World, fr: Frame, e: Expr,
      st: State, st': State, fuel: nat)
    requires Linked(p, q, prot) && Framed(fr) && Same(fr, st, st') && ExprNames(e) <= fr.names && e.Call?
    ensures Eval(p, w, fr.sc, e, st, fuel).0 == Eval(q, w, fr.sc', RenameExpr(fr.m, e), st', fuel).0
    ensures Same(fr, Eval(p, w, fr.sc, e, st, fuel).1, Eval(q, w, fr.sc', RenameExpr(fr.m, e), st', fuel).1)
    decreases fuel, e, 0
  {
    hide Eval, EvalArgs, Invoke, Linked, Framed;
    var Call(f, args) := e;
    var f', args' := RenameExpr(fr.m, f), RenameExprs(fr.m, args);
    SimExpr(p, q, prot, w, fr, f, st, st', fuel);
    var (rf, st1) := Eval(p, w, fr.sc, f, st, fuel);
    var (_, st1') := Eval(q, w, fr.sc', f', st', fuel);
    CallUnfolds(p, w, fr.sc, f, args, st, fuel);
    CallUnfolds(q, w, fr.sc', f', args', st', fuel);
    if rf.Ok? {
      SimExprs(p, q, prot, w, fr, args, st1, st1', fuel);
      var (ra, st2) := EvalArgs(p, w, fr.sc, args, st1, fuel);
      var (_, st2') := EvalArgs(q, w, fr.sc', args', st1', fuel);
      if ra.ArgsOk? && rf.v.VFun? && fuel > 0 {
        SimInvoke(p, q, prot, w, rf.v.index, ra.vs, st2, st2', fuel - 1);
      }
    }
  }

  function AfterArgs(p: seq<Fun>, w: World, callee: Val, out: (ArgsRes, State), fuel: nat): (Res, State) {
    match out.0
    case ArgsRaised(err) => (Raised(err), out.1)
    case ArgsOutOfFuel => (OutOfFuel, out.1)
    case ArgsOk(vs) =>
      if !callee.VFun? then CallOutside(w, callee, vs, out.1)
      else if fuel == 0 then (OutOfFuel, out.1)
      else Invoke(p, w, callee.index, vs, out.1, fuel - 1)
  }

  lemma CallUnfolds(p: seq<Fun>, w: World, sc: Scope, f: Expr, args: seq<Expr>, st: State, fuel: nat)
    ensures var (rf, st1) := Eval(p, w, sc, f, st, fuel);
            Eval(p, w, sc, Call(f, args), st, fuel)
            == if !rf.Ok? then (rf, st1) else AfterArgs(p, w, rf.v, EvalArgs(p, w, sc, args, st1, fuel), fuel)
  {
  }

  lemma {:induction false} SimExprs(p: seq<Fun>, q: seq<Fun>, prot: set<string>, w: World, fr: Frame, es: seq<Expr>,
      st: State, st': State, fuel: nat)
    requires Linked(p, q, prot) && Framed(fr) && Same(fr, st, st') && ExprsNames(es) <= fr.names
    ensures EvalArgs(p, w, fr.sc, es, st, fuel).0 == EvalArgs(q, w, fr.sc', RenameExprs(fr.m, es), st', fuel).0
    ensures Same(fr, EvalArgs(p, w, fr.sc, es, st, fuel).1, EvalArgs(q, w, fr.sc', RenameExprs(fr.m, es), st', fuel).1)
    decreases fuel, es, 0
  {
    if es != [] {
      SimExpr(p, q, prot, w, fr, es[0], st, st', fuel);
      var (r, st1) := Eval(p, w, fr.sc, es[0], st, fuel);
      var (_, st1') := Eval(q, w, fr.sc', RenameExpr(fr.m, es[0]), st', fuel);
      assert RenameExprs(fr.m, es)[1..] == RenameExprs(fr.m, es[1..]);
      if r.Ok? { SimExprs(p, q, prot, w, fr, es[1..], st1, st1', fuel); }
    }
  }

  lemma {:induction false} SimStmt(p: seq<Fun>, q: seq<Fun>, prot: set<string>, w: World, fr: Frame, s: Stmt,
      st: State, st': State, fuel: nat)
    requires Linked(p, q, prot) && Framed(fr) && Same(fr, st, st') && StmtNames(s) <= fr.names
    ensures Step(p, w, fr.sc, s, st, fuel).0 == Step(q, w, fr.sc', CleanStmt(RenameStmt(fr.m, s)), st', fuel).0
    ensures Same(fr, Step(p, w, fr.sc, s, st, fuel).1, Step(q, w, fr.sc', CleanStmt(RenameStmt(fr.m, s)), st', fuel).1)
    decreases fuel, s, 1
  {
    match s
    case Assign(ts, v) =>
      SimExpr(p, q, prot, w, fr, v, st, st', fuel);
      var (r, st1) := Eval(p, w, fr.sc, v, st, fuel);
      var (_, st1') := Eval(q, w, fr.sc', RenameExpr(fr.m, v), st', fuel);
      if r.Ok? { SameStoreAll(fr, ts, r.v, st1, st1'); }
    case AugAssign(_, _, _) => SimAugAssign(p, q, prot, w, fr, s, st, st', fuel);
    case If(_, _, _) => SimIf(p, q, prot, w, fr, s, st, st', fuel);
    case While(c, b, o) => SimWhile(p, q, prot, w, fr, s, st, st', fuel);
    case Return(v) => SimExpr(p, q, prot, w, fr, v, st, st', fuel);
    case ExprStmt(v) => SimExpr(p, q, prot, w, fr, v, st, st', fuel);
    case _ =>
  }

  lemma {:induction false} SimAugAssign(p: seq<Fun>, q: seq<Fun>, prot: set<string>, w: World, fr: Frame, s: Stmt,
      st: State, st': State, fuel: nat)
    requires Linked(p, q, prot) && Framed(fr) && Same(fr, st, st') && StmtNames(s) <= fr.names && s.AugAssign?
    ensures Step(p, w, fr.sc, s, st, fuel).0 == Step(q, w, fr.sc', CleanStmt(RenameStmt(fr.m, s)), st', fuel).0
    ensures Same(fr, Step(p, w, fr.sc, s, st, fuel).1, Step(q, w, fr.sc', CleanStmt(RenameStmt(fr.m, s)), st', fuel).1)
    decreases fuel, s, 0
  {
    var AugAssign(t, op, v) := s;
    SameLookup(w, fr, t, st, st');
    var before := Lookup(w, fr.sc, t, st);
    SimExpr(p, q, prot, w, fr, v, st, st', fuel);
    var (r, st1) := Eval(p, w, fr.sc, v, st, fuel);
    var (_, st1') := Eval(q, w, fr.sc', RenameExpr(fr.m, v), st', fuel);
    if before.Ok? && r.Ok? && w.binop(op, before.v, r.v).Ok? {
      SameStore(fr, t, w.binop(op, before.v, r.v).v, st1, st1');
    }
  }

  lemma {:induction false} SimIf(p: seq<Fun>, q: seq<Fun>, prot: set<string>, w: World, fr: Frame, s: Stmt, st: State,
      st': State, fuel: nat)
    requires Linked(p, q, prot) && Framed(fr) && Same(fr, st, st') && StmtNames(s) <= fr.names && s.If?
    ensures Step(p, w, fr.sc, s, st, fuel).0 == Step(q, w, fr.sc', CleanStmt(RenameStmt(fr.m, s)), st', fuel).0
    ensures Same(fr, Step(p, w, fr.sc, s, st, fuel).1, Step(q, w, fr.sc', CleanStmt(RenameStmt(fr.m, s)), st', fuel).1)
    decreases fuel, s, 0
  {
    SimExpr(p, q, prot, w, fr, s.ifTest, st, st', fuel);
    var (_, st1) := Eval(p, w, fr.sc, s.ifTest, st, fuel);
    var (_, st1') := Eval(q, w, fr.sc', RenameExpr(fr.m, s.ifTest), st', fuel);
    SimBlock(p, q, prot, w, fr, s.body, st1, st1', fuel);
    SimBlock(p, q, prot, w, fr, s.orelse, st1, st1', fuel);
  }

  lemma {:induction false} SimWhile(p: seq<Fun>, q: seq<Fun>, prot: set<string>, w: World, fr: Frame, s: Stmt,
      st: State, st': State, fuel: nat)
    requires Linked(p, q, prot) && Framed(fr) && Same(fr, st, st') && StmtNames(s) <= fr.names && s.While?
    ensures Step(p, w, fr.sc, s, st, fuel).0 == Step(q, w, fr.sc', CleanStmt(RenameStmt(fr.m, s)), st', fuel).0
    ensures Same(fr, Step(p, w, fr.sc, s, st, fuel).1, Step(q, w, fr.sc', CleanStmt(RenameStmt(fr.m, s)), st', fuel).1)
    decreases fuel, s, 0
  {
    var While(c, b, o) := s;
    var c', b', o' := RenameExpr(fr.m, c), CleanBlock(RenameBlock(fr.m, b)), CleanBlock(RenameBlock(fr.m, o));
    assert CleanStmt(RenameStmt(fr.m, s)) == While(c', b', o');
    SimExpr(p, q, prot, w, fr, c, st, st', fuel);
    var (r, st1) := Eval(p, w, fr.sc, c, st, fuel);
    var (_, st1') := Eval(q, w, fr.sc', c', st', fuel);
    WhileUnfolds(p, w, fr.sc, c, b, o, st, fuel);
    WhileUnfolds(q, w, fr.sc', c', b', o', st', fuel);
    SimBlock(p, q, prot, w, fr, o, st1, st1', fuel);
    SimBlock(p, q, prot, w, fr, b, st1, st1', fuel);
    if r.Ok? && Truthy(r.v) && fuel > 0 {
      var (fl, st2) := Exec(p, w, fr.sc, b, st1, fuel);
      var (_, st2') := Exec(q, w, fr.sc', b', st1', fuel);
      if fl.Next? || fl.Continued? { SimWhile(p, q, prot, w, fr, s, st2, st2', fuel - 1); }
    }
  }

  function AfterBody(p: seq<Fun>, w: World, sc: Scope, loop: Stmt, out: (Flow, State), fuel: nat): (Flow, State) {
    if out.0.Broke? then (Next, out.1)
    else if out.0.Next? || out.0.Continued? then
      if fuel == 0 then (Exhausted, out.1) else Step(p, w, sc, loop, out.1, fuel - 1)
    else out
  }

  lemma WhileUnfolds(p: seq<Fun>, w: World, sc: Scope, c: Expr, b: seq<Stmt>, o: seq<Stmt>, st: State, fuel: nat)
    ensures var (r, st1) := Eval(p, w, sc, c, st, fuel);
            Step(p, w, sc, While(c, b, o), st, fuel)
            == if !r.Ok? then (ResFlow(r), st1)
               else if !Truthy(r.v) then Exec(p, w, sc, o, st1, fuel)
               else AfterBody(p, w, sc, While(c, b, o), Exec(p, w, sc, b, st1, fuel), fuel)
  {
  }

  lemma {:induction false} SimEach(p: seq<Fun>, q: seq<Fun>, prot: set<string>, w: World, fr: Frame, b: seq<Stmt>,
      st: State, st': State, fuel: nat)
    requires Linked(p, q, prot) && Framed(fr) && Same(fr, st, st') && BlockNames(b) <= fr.names
    ensures Exec(p, w, fr.sc, b, st, fuel).0 == Exec(q, w, fr.sc', CleanEach(RenameBlock(fr.m, b)), st', fuel).0
    ensures Same(fr, Exec(p, w, fr.sc, b, st, fuel).1, Exec(q, w, fr.sc', CleanEach(RenameBlock(fr.m, b)), st', fuel).1)
    decreases fuel, b, 0
  {
    if b != [] {
      SimStmt(p, q, prot, w, fr, b[0], st, st', fuel);
      var (fl, st1) := Step(p, w, fr.sc, b[0], st, fuel);
      var (_, st1') := Step(q, w, fr.sc', CleanStmt(RenameStmt(fr.m, b[0])), st', fuel);
      assert RenameBlock(fr.m, b)[1..] == RenameBlock(fr.m, b[1..]);
      assert CleanEach(RenameBlock(fr.m, b))[1..] == CleanEach(RenameBlock(fr.m, b[1..]));
      if fl.Next? { SimEach(p, q, prot, w, fr, b[1..], st1, st1', fuel); }
    }
  }

  lemma SimBlock(p: seq<Fun>, q: seq<Fun>, prot: set<string>, w: World, fr: Frame, b: seq<Stmt>, st: State,
      st': State, fuel: nat)
    requires Linked(p, q, prot) && Framed(fr) && Same(fr, st, st') && BlockNames(b) <= fr.names
    ensures Exec(p, w, fr.sc, b, st, fuel).0 == Exec(q, w, fr.sc', CleanBlock(RenameBlock(fr.m, b)), st', fuel).0
    ensures Same(fr, Exec(p, w, fr.sc, b, st, fuel).1,
            Exec(q, w, fr.sc', CleanBlock(RenameBlock(fr.m, b)), st', fuel).1)
    decreases fuel, b, 1
  {
    SimEach(p, q, prot, w, fr, b, st, st', fuel);
    CleanBodyExec(q, w, fr.sc', CleanEach(RenameBlock(fr.m, b)), st', fuel);
  }

  lemma {:induction false} BindParamsKeys(params: seq<string>, args: seq<Val>)
    requires |params| == |args|
    ensures BindParams(params, args).Keys == Elems(params)
  {
    if params != [] {
      BindParamsKeys(params[1..], args[1..]);
      assert params == [params[0]] + params[1..];
    }
  }

  /** The frame in which a function and its normal form run. */
  lemma FunFrame(prot: set<string>, f: Fun, args: seq<Val>, g: map<string, Val>, tr: seq<Event>) returns (fr: Frame)
    requires CaptureFree(prot, f) && |args| == |f.params|
    ensures fr == Frame(FunScope(FunLocals(f)), FunScope(FunLocals(NormFun(prot, f))), FunMap(prot, StripFun(f)),
            FunNames(f))
    ensures Framed(fr)
    ensures Same(fr, State(g, BindParams(f.params, args), tr), State(g, BindParams(f.params, args), tr))
    ensures BlockNames(StripBlock(f.body)) <= fr.names
  {
    var f1 := StripFun(f);
    StripNames(prot, f);
    RenamingFaithful(prot, f1);
    CleanLocals(RenameFun(prot, f1));
    BindParamsKeys(f.params, args);
    fr := Frame(FunScope(FunLocals(f)), FunScope(FunLocals(NormFun(prot, f))), FunMap(prot, f1), FunNames(f));
    var l := BindParams(f.params, args);
    forall x | x in fr.names
      ensures x in l <==> App(fr.m, x) in l
      ensures x in l ==> App(fr.m, x) == x
    {
      if App(fr.m, x) in l {
        assert App(fr.m, App(fr.m, x)) == App(fr.m, x);
      }
    }
  }

  /** Calling the k-th function gives the same result, globals and history. */
  lemma {:induction false} SimInvoke(p: seq<Fun>, q: seq<Fun>, prot: set<string>, w: World, k: nat, args: seq<Val>,
      st: State, st': State, fuel: nat)
    requires Linked(p, q, prot) && st.globals == st'.globals && st.trace == st'.trace
    ensures Invoke(p, w, k, args, st, fuel).0 == Invoke(q, w, k, args, st', fuel).0
    ensures Invoke(p, w, k, args, st, fuel).1.globals == Invoke(q, w, k, args, st', fuel).1.globals
    ensures Invoke(p, w, k, args, st, fuel).1.trace == Invoke(q, w, k, args, st', fuel).1.trace
    ensures Invoke(p, w, k, args, st, fuel).1.locals == st.locals
    ensures Invoke(q, w, k, args, st', fuel).1.locals == st'.locals
    decreases fuel
  {
    if k < |p| && |p[k].params| == |args| {
      var f := p[k];
      var fr := FunFrame(prot, f, args, st.globals, st.trace);
      var s0 := State(st.globals, BindParams(f.params, args), st.trace);
      StripExec(p, w, fr.sc, f.body, s0, fuel);
      SimBlock(p, q, prot, w, fr, StripBlock(f.body), s0, s0, fuel);
    }
  }
}
