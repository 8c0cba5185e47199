/** A fuel-indexed interpreter for the fragment. Locals follow Python's rule: a name
    stored anywhere in a function is local to it, and reading it before it is bound
    is an unbound-local error, never a lookup in the globals. */
module PyInterp {
  import opened PySyntax

  /** Functions are values by their position in the module; imported objects by path. */
  datatype Val = VNone | VBool(b: bool) | VInt(i: int) | VStr(s: string) | VFun(index: nat) | VObj(path: string)

  datatype Err = UnboundLocal | NameError(id: string) | TypeError | Other(msg: string)

  datatype Res = Ok(v: Val) | Raised(err: Err) | OutOfFuel
  datatype ArgsRes = ArgsOk(vs: seq<Val>) | ArgsRaised(err: Err) | ArgsOutOfFuel

  /** A call into code outside the module, as an outside observer sees it. */
  datatype Event = Event(callee: string, args: seq<Val>)

  /** What lies outside the module: operators, attributes, foreign calls and builtins. */
  datatype World = World(
    binop: (string, Val, Val) -> Res,
    attr: (Val, string) -> Res,
    foreign: (string, seq<Val>, seq<Event>) -> Res,
    builtins: map<string, Val>)

  datatype State = State(globals: map<string, Val>, locals: map<string, Val>, trace: seq<Event>)

  datatype Scope = ModuleScope | FunScope(locals: set<string>)

  datatype Flow = Next | Broke | Continued | Returned(v: Val) | Failed(err: Err) | Exhausted

  function ConstVal(c: Const): Val {
    match c
    case CNone => VNone
    case CBool(b) => VBool(b)
    case CInt(i) => VInt(i)
    case CStr(s) => VStr(s)
  }

  predicate Truthy(v: Val) {
    match v
    case VNone => false
    case VBool(b) => b
    case VInt(i) => i != 0
    case VStr(s) => s != ""
    case _ => true
  }

  function Lookup(w: World, sc: Scope, x: string, st: State): Res {
    if sc.FunScope? && x in sc.locals then
      if x in st.locals then Ok(st.locals[x]) else Raised(UnboundLocal)
    else if x in st.globals then Ok(st.globals[x])
    else if x in w.builtins then Ok(w.builtins[x])
    else Raised(NameError(x))
  }

  function Store(sc: Scope, x: string, v: Val, st: State): State {
    if sc.ModuleScope? then st.(globals := st.globals[x := v])
    else st.(locals := st.locals[x := v])
  }

  function StoreAll(sc: Scope, xs: seq<string>, v: Val, st: State): State {
    if xs == [] then st else StoreAll(sc, xs[1..], v, Store(sc, xs[0], v, st))
  }

  function BindParams(params: seq<string>, args: seq<Val>): map<string, Val>
    requires |params| == |args|
  {
    if params == [] then map[]
    else BindParams(params[1..], args[1..])[params[0] := args[0]]
  }

  function Eval(p: seq<Fun>, w: World, sc: Scope, e: Expr, st: State, fuel: nat): (Res, State)
    decreases fuel, e, 0
  {
    match e
    case Lit(c) => (Ok(ConstVal(c)), st)
    case Name(x) => (Lookup(w, sc, x, st), st)
    case Walrus(t, b) =>
      var (r, st1) := Eval(p, w, sc, b, st, fuel);
      if r.Ok? then (r, Store(sc, t, r.v, st1)) else (r, st1)
    case Attr(o, a) =>
      var (r, st1) := Eval(p, w, sc, o, st, fuel);
      if r.Ok? then (w.attr(r.v, a), st1) else (r, st1)
    case BinOp(op, l, r) =>
      var (rl, st1) := Eval(p, w, sc, l, st, fuel);
      if !rl.Ok? then (rl, st1) else
      var (rr, st2) := Eval(p, w, sc, r, st1, fuel);
      if !rr.Ok? then (rr, st2) else (w.binop(op, rl.v, rr.v), st2)
    case Call(f, args) =>
      var (rf, st1) := Eval(p, w, sc, f, st, fuel);
      if !rf.Ok? then (rf, st1) else
      var (ra, st2) := EvalArgs(p, w, sc, args, st1, fuel);
      match ra
      case ArgsRaised(err) => (Raised(err), st2)
      case ArgsOutOfFuel => (OutOfFuel, st2)
      case ArgsOk(vs) =>
        if !rf.v.VFun? then CallOutside(w, rf.v, vs, st2)
        else if fuel == 0 then (OutOfFuel, st2)
        else Invoke(p, w, rf.v.index, vs, st2, fuel - 1)
  }

  function EvalArgs(p: seq<Fun>, w: World, sc: Scope, es: seq<Expr>, st: State, fuel: nat): (ArgsRes, State)
    decreases fuel, es, 0
  {
    if es == [] then (ArgsOk([]), st)
    else
      var (r, st1) := Eval(p, w, sc, es[0], st, fuel);
      match r
      case Raised(err) => (ArgsRaised(err), st1)
      case OutOfFuel => (ArgsOutOfFuel, st1)
      case Ok(v) =>
        var (rs, st2) := EvalArgs(p, w, sc, es[1..], st1, fuel);
        if rs.ArgsOk? then (ArgsOk([v] + rs.vs), st2) else (rs, st2)
  }

  /** Calls a value that is not a function of the module. */
  function CallOutside(w: World, callee: Val, args: seq<Val>, st: State): (Res, State) {
    match callee
    case VObj(path) => (w.foreign(path, args, st.trace), st.(trace := st.trace + [Event(path, args)]))
    case _ => (Raised(TypeError), st)
  }

  /** Calls the k-th function in a fresh frame; the caller's locals come back after it. */
  function Invoke(p: seq<Fun>, w: World, k: nat, args: seq<Val>, st: State, fuel: nat): (Res, State)
    decreases fuel
  {
    if k >= |p| || |p[k].params| != |args| then (Raised(TypeError), st)
    else
      var (fl, st1) := Exec(p, w, FunScope(FunLocals(p[k])), p[k].body,
                            State(st.globals, BindParams(p[k].params, args), st.trace), fuel);
      (FlowResult(fl), State(st1.globals, st.locals, st1.trace))
  }

  function FlowResult(fl: Flow): Res {
    match fl
    case Returned(v) => Ok(v)
    case Failed(err) => Raised(err)
    case Exhausted => OutOfFuel
    case _ => Ok(VNone)
  }

  function ResFlow(r: Res): Flow {
    match r
    case Ok(_) => Next
    case Raised(err) => Failed(err)
    case OutOfFuel => Exhausted
  }

  function Step(p: seq<Fun>, w: World, sc: Scope, s: Stmt, st: State, fuel: nat): (Flow, State)
    decreases fuel, s, 0
  {
    match s
    case Pass => (Next, st)
    case Break => (Broke, st)
    case Continue => (Continued, st)
    case ExprStmt(e) =>
      var (r, st1) := Eval(p, w, sc, e, st, fuel);
      (ResFlow(r), st1)
    case Return(e) =>
      var (r, st1) := Eval(p, w, sc, e, st, fuel);
      if r.Ok? then (Returned(r.v), st1) else (ResFlow(r), st1)
    case Assign(ts, e) =>
      var (r, st1) := Eval(p, w, sc, e, st, fuel);
      if r.Ok? then (Next, StoreAll(sc, ts, r.v, st1)) else (ResFlow(r), st1)
    case AugAssign(t, op, e) =>
      var before := Lookup(w, sc, t, st);
      if !before.Ok? then (ResFlow(before), st) else
      var (r, st1) := Eval(p, w, sc, e, st, fuel);
      if !r.Ok? then (ResFlow(r), st1) else
      var res := w.binop(op, before.v, r.v);
      if res.Ok? then (Next, Store(sc, t, res.v, st1)) else (ResFlow(res), st1)
    case If(c, b, o) =>
      var (r, st1) := Eval(p, w, sc, c, st, fuel);
      if !r.Ok? then (ResFlow(r), st1)
      else if Truthy(r.v) then Exec(p, w, sc, b, st1, fuel)
      else Exec(p, w, sc, o, st1, fuel)
    case While(c, b, o) =>
      var (r, st1) := Eval(p, w, sc, c, st, fuel);
      if !r.Ok? then (ResFlow(r), st1)
      else if !Truthy(r.v) then Exec(p, w, sc, o, st1, fuel)
      else
        var (fl, st2) := Exec(p, w, sc, b, st1, fuel);
        if fl.Broke? then (Next, st2)
        else if fl.Next? || fl.Continued? then
          if fuel == 0 then (Exhausted, st2) else Step(p, w, sc, s, st2, fuel - 1)
        else (fl, st2)
  }

  function Exec(p: seq<Fun>, w: World, sc: Scope, b: seq<Stmt>, st: State, fuel: nat): (Flow, State)
    decreases fuel, b, 0
  {
    if b == [] then (Next, st)
    else
      var (fl, st1) := Step(p, w, sc, b[0], st, fuel);
      if fl.Next? then Exec(p, w, sc, b[1..], st1, fuel) else (fl, st1)
  }

  // ----- modules

  function FirstPart(dotted: string): string {
    if dotted == "" || dotted[0] == '.' then "" else [dotted[0]] + FirstPart(dotted[1..])
  }

  predicate IsImport(t: Top) {
    t.Import? || t.ImportFrom?
  }

  function ImportBinding(a: Alias): (string, Val) {
    if a.asname != "" then (a.asname, VObj(a.name)) else (FirstPart(a.name), VObj(FirstPart(a.name)))
  }

  function FromBinding(m: string, a: Alias): (string, Val) {
    (if a.asname != "" then a.asname else a.name, VObj(m + "." + a.name))
  }

  function ImportBindings(names: seq<Alias>): map<string, Val> {
    if names == [] then map[]
    else map[ImportBinding(names[0]).0 := ImportBinding(names[0]).1] + ImportBindings(names[1..])
  }

  function FromBindings(m: string, names: seq<Alias>): map<string, Val> {
    if names == [] then map[]
    else map[FromBinding(m, names[0]).0 := FromBinding(m, names[0]).1] + FromBindings(m, names[1..])
  }

  /** What an import statement binds, a later alias of the statement winning. */
  function Bindings(t: Top): map<string, Val>
    requires IsImport(t)
  {
    match t
    case Import(names) => ImportBindings(names)
    case ImportFrom(m, names) => FromBindings(m, names)
  }

  /** Runs top-level statements; `k` functions have been defined before `tops`. */
  function RunTops(p: seq<Fun>, w: World, tops: seq<Top>, k: nat, st: State, fuel: nat): (Flow, State)
    decreases tops
  {
    if tops == [] then (Next, st)
    else match tops[0]
      case Def(f) => RunTops(p, w, tops[1..], k + 1, st.(globals := st.globals[f.name := VFun(k)]), fuel)
      case Plain(s) =>
        var (fl, st1) := Step(p, w, ModuleScope, s, st, fuel);
        if fl.Next? then RunTops(p, w, tops[1..], k, st1, fuel) else (fl, st1)
      case _ => RunTops(p, w, tops[1..], k, st.(globals := st.globals + Bindings(tops[0])), fuel)
  }

  /** Runs a module from empty globals. */
  function RunModule(w: World, m: Module, fuel: nat): (Flow, State) {
    RunTops(Funs(m.tops), w, m.tops, 0, State(map[], map[], []), fuel)
  }

  /** Calls the k-th function of a module with given globals and history. */
  function CallFun(w: World, m: Module, k: nat, args: seq<Val>, globals: map<string, Val>, trace: seq<Event>,
      fuel: nat): (Res, State)
  {
    Invoke(Funs(m.tops), w, k, args, State(globals, map[], trace), fuel)
  }
}
