/** Syntax of the fragment of Python that the AST normaliser is modelled on: flat
    functions over imports, assignments, branches, loops, calls and bare expressions. */
module PySyntax {

  datatype Const = CNone | CBool(b: bool) | CInt(i: int) | CStr(s: string)

  /** `Name` is a name read (`ctx=Load`); names written live in `Walrus`, `Assign` and
      `AugAssign` (`ctx=Store`). */
  datatype Expr =
    | Lit(c: Const)
    | Name(id: string)
    | Walrus(target: string, bound: Expr)
    | Attr(obj: Expr, attr: string)
    | BinOp(op: string, left: Expr, right: Expr)
    | Call(fn: Expr, args: seq<Expr>)

  datatype Stmt =
    | Assign(targets: seq<string>, value: Expr)
    | AugAssign(augTarget: string, augOp: string, augValue: Expr)
    | If(ifTest: Expr, body: seq<Stmt>, orelse: seq<Stmt>)
    | While(loopTest: Expr, loopBody: seq<Stmt>, loopElse: seq<Stmt>)
    | Return(result: Expr)
    | ExprStmt(expr: Expr)
    | Break
    | Continue
    | Pass

  datatype Fun = Fun(name: string, params: seq<string>, body: seq<Stmt>)

  /** One imported name: `name` or `name as asname` (`asname == ""` when absent). */
  datatype Alias = Alias(name: string, asname: string)

  datatype Top =
    | Import(names: seq<Alias>)
    | ImportFrom(module_: string, fromNames: seq<Alias>)
    | Def(fun: Fun)
    | Plain(stmt: Stmt)

  datatype Module = Module(tops: seq<Top>)

  // ----- names that occur, and names that are stored

  function ExprNames(e: Expr): set<string> {
    match e
    case Lit(_) => {}
    case Name(id) => {id}
    case Walrus(t, v) => {t} + ExprNames(v)
    case Attr(o, _) => ExprNames(o)
    case BinOp(_, l, r) => ExprNames(l) + ExprNames(r)
    case Call(f, args) => ExprNames(f) + ExprsNames(args)
  }

  function ExprsNames(es: seq<Expr>): set<string> {
    if es == [] then {} else ExprNames(es[0]) + ExprsNames(es[1..])
  }

  function Elems(xs: seq<string>): set<string> {
    set x | x in xs
  }

  function StmtNames(s: Stmt): set<string> {
    match s
    case Assign(ts, v) => Elems(ts) + ExprNames(v)
    case AugAssign(t, _, v) => {t} + ExprNames(v)
    case If(c, b, o) => ExprNames(c) + BlockNames(b) + BlockNames(o)
    case While(c, b, o) => ExprNames(c) + BlockNames(b) + BlockNames(o)
    case Return(v) => ExprNames(v)
    case ExprStmt(v) => ExprNames(v)
    case _ => {}
  }

  function BlockNames(b: seq<Stmt>): set<string> {
    if b == [] then {} else StmtNames(b[0]) + BlockNames(b[1..])
  }

  function ExprStores(e: Expr): set<string> {
    match e
    case Lit(_) => {}
    case Name(_) => {}
    case Walrus(t, v) => {t} + ExprStores(v)
    case Attr(o, _) => ExprStores(o)
    case BinOp(_, l, r) => ExprStores(l) + ExprStores(r)
    case Call(f, args) => ExprStores(f) + ExprsStores(args)
  }

  function ExprsStores(es: seq<Expr>): set<string> {
    if es == [] then {} else ExprStores(es[0]) + ExprsStores(es[1..])
  }

  function StmtStores(s: Stmt): set<string> {
    match s
    case Assign(ts, v) => Elems(ts) + ExprStores(v)
    case AugAssign(t, _, v) => {t} + ExprStores(v)
    case If(c, b, o) => ExprStores(c) + BlockStores(b) + BlockStores(o)
    case While(c, b, o) => ExprStores(c) + BlockStores(b) + BlockStores(o)
    case Return(v) => ExprStores(v)
    case ExprStmt(v) => ExprStores(v)
    case _ => {}
  }

  function BlockStores(b: seq<Stmt>): set<string> {
    if b == [] then {} else StmtStores(b[0]) + BlockStores(b[1..])
  }

  /** Every name a function mentions, its parameters included. */
  function FunNames(f: Fun): set<string> {
    Elems(f.params) + BlockNames(f.body)
  }

  /** The names Python's compiler makes local to a function. */
  function FunLocals(f: Fun): set<string> {
    Elems(f.params) + BlockStores(f.body)
  }

  /** The functions of a module, in order of definition. */
  function Funs(tops: seq<Top>): seq<Fun> {
    if tops == [] then []
    else if tops[0].Def? then [tops[0].fun] + Funs(tops[1..])
    else Funs(tops[1..])
  }
}
