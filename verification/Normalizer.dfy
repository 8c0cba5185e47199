/** The passes of the AST normaliser: docstring removal, import sorting, renaming of
    locals to v0, v1, ... in breadth-first order of first store, and removal of
    redundant `pass`. Loops of the source are methods proved against the functions. */
module Normalizer {
  import opened Basics
  import opened PySyntax
  import opened PyInterp

  // ----- docstrings

  predicate IsBareString(s: Stmt) {
    s.ExprStmt? && s.expr.Lit? && s.expr.c.CStr?
  }

  function StripBlock(b: seq<Stmt>): seq<Stmt> {
    if b == [] || !IsBareString(b[0]) then b
    else if |b| == 1 then [Pass]
    else b[1..]
  }

  predicate IsBareTop(t: Top) {
    t.Plain? && IsBareString(t.stmt)
  }

  function StripTops(ts: seq<Top>): seq<Top> {
    if ts == [] || !IsBareTop(ts[0]) then ts
    else if |ts| == 1 then [Plain(Pass)]
    else ts[1..]
  }

  /** Applies a function to every function definition of a module body. */
  function MapFuns(g: Fun -> Fun, ts: seq<Top>): seq<Top> {
    if ts == [] then []
    else [if ts[0].Def? then Def(g(ts[0].fun)) else ts[0]] + MapFuns(g, ts[1..])
  }

  function StripFun(f: Fun): Fun {
    f.(body := StripBlock(f.body))
  }

  function StripDocstrings(ts: seq<Top>): seq<Top> {
    MapFuns(StripFun, StripTops(ts))
  }

  // ----- imports

  function ImportKey(t: Top): string {
    match t
    case Import(names) => if names == [] then "" else names[0].name
    case ImportFrom(m, _) => m
    case _ => ""
  }

  predicate KeyLe(s: Top, t: Top) {
    StrLe(ImportKey(s), ImportKey(t))
  }

  /** Inserts `t` before the first element it does not exceed. */
  function Insert(t: Top, ts: seq<Top>): seq<Top> {
    if ts == [] then [t]
    else if KeyLe(t, ts[0]) then [t] + ts
    else [ts[0]] + Insert(t, ts[1..])
  }

  /** The stable sort by `ImportKey`. */
  function StableSort(ts: seq<Top>): seq<Top> {
    if ts == [] then [] else Insert(ts[0], StableSort(ts[1..]))
  }

  /** The length of the import run that `ts` starts with. */
  function RunLength(ts: seq<Top>): (n: nat)
    ensures n <= |ts|
    ensures forall i | 0 <= i < n :: IsImport(ts[i])
    ensures n < |ts| ==> !IsImport(ts[n])
  {
    if ts == [] || !IsImport(ts[0]) then 0 else 1 + RunLength(ts[1..])
  }

  /** Every contiguous run of imports sorted, everything else in place. */
  function SortImports(ts: seq<Top>): seq<Top>
    decreases |ts|
  {
    if ts == [] then []
    else if IsImport(ts[0]) then
      var n := RunLength(ts);
      StableSort(ts[..n]) + SortImports(ts[n..])
    else [ts[0]] + SortImports(ts[1..])
  }

  // ----- names

  function Decimal(n: nat): (s: string)
    ensures s != ""
  {
    if n < 10 then ["0123456789"[n]] else Decimal(n / 10) + ["0123456789"[n % 10]]
  }

  function VName(i: nat): string {
    "v" + Decimal(i)
  }

  function AliasName(a: Alias, dotted: bool): string {
    if a.asname != "" then a.asname else if dotted then FirstPart(a.name) else a.name
  }

  function AliasNames(names: seq<Alias>, dotted: bool): set<string> {
    set i | 0 <= i < |names| :: AliasName(names[i], dotted)
  }

  /** The names a module body protects from renaming. */
  function Protected(ts: seq<Top>): set<string> {
    if ts == [] then {}
    else
      (match ts[0]
       case Def(f) => {f.name}
       case Import(names) => AliasNames(names, true)
       case ImportFrom(_, names) => AliasNames(names, false)
       case Plain(s) => if s.Assign? then Elems(s.targets) else {})
      + Protected(ts[1..])
  }

  // ----- breadth-first walk

  datatype Node = NExpr(e: Expr) | NStmt(s: Stmt) | NStore(id: string)

  function ExprNodes(es: seq<Expr>): seq<Node> {
    if es == [] then [] else [NExpr(es[0])] + ExprNodes(es[1..])
  }

  function BlockNodes(b: seq<Stmt>): seq<Node> {
    if b == [] then [] else [NStmt(b[0])] + BlockNodes(b[1..])
  }

  function StoreNodes(xs: seq<string>): seq<Node> {
    if xs == [] then [] else [NStore(xs[0])] + StoreNodes(xs[1..])
  }

  function Children(n: Node): seq<Node> {
    match n
    case NStore(_) => []
    case NExpr(e) => (
      match e
      case Lit(_) => []
      case Name(_) => []
      case Walrus(t, b) => [NStore(t), NExpr(b)]
      case Attr(o, _) => [NExpr(o)]
      case BinOp(_, l, r) => [NExpr(l), NExpr(r)]
      case Call(f, args) => [NExpr(f)] + ExprNodes(args))
    case NStmt(s) => (
      match s
      case Assign(ts, v) => StoreNodes(ts) + [NExpr(v)]
      case AugAssign(t, _, v) => [NStore(t), NExpr(v)]
      case If(c, b, o) => [NExpr(c)] + BlockNodes(b) + BlockNodes(o)
      case While(c, b, o) => [NExpr(c)] + BlockNodes(b) + BlockNodes(o)
      case Return(v) => [NExpr(v)]
      case ExprStmt(v) => [NExpr(v)]
      case _ => [])
  }

  function ExprSize(e: Expr): nat {
    1 + match e
        case Lit(_) => 0
        case Name(_) => 0
        case Walrus(_, b) => 1 + ExprSize(b)
        case Attr(o, _) => ExprSize(o)
        case BinOp(_, l, r) => ExprSize(l) + ExprSize(r)
        case Call(f, args) => ExprSize(f) + ExprsSize(args)
  }

  function ExprsSize(es: seq<Expr>): nat {
    if es == [] then 0 else ExprSize(es[0]) + ExprsSize(es[1..])
  }

  function StmtSize(s: Stmt): nat {
    1 + match s
        case Assign(ts, v) => |ts| + ExprSize(v)
        case AugAssign(_, _, v) => 1 + ExprSize(v)
        case If(c, b, o) => ExprSize(c) + BlockSize(b) + BlockSize(o)
        case While(c, b, o) => ExprSize(c) + BlockSize(b) + BlockSize(o)
        case Return(v) => ExprSize(v)
        case ExprStmt(v) => ExprSize(v)
        case _ => 0
  }

  function BlockSize(b: seq<Stmt>): nat {
    if b == [] then 0 else StmtSize(b[0]) + BlockSize(b[1..])
  }

  function NodeSize(n: Node): nat {
    match n
    case NStore(_) => 1
    case NExpr(e) => ExprSize(e)
    case NStmt(s) => StmtSize(s)
  }

  function QueueSize(q: seq<Node>): nat {
    if q == [] then 0 else NodeSize(q[0]) + QueueSize(q[1..])
  }

  lemma {:induction false} QueueSizeConcat(a: seq<Node>, b: seq<Node>)
    ensures QueueSize(a + b) == QueueSize(a) + QueueSize(b)
  {
    if a == [] {
      assert a + b == b;
    } else {
      assert (a + b)[1..] == a[1..] + b;
      QueueSizeConcat(a[1..], b);
    }
  }

  lemma {:induction false} ExprNodesSize(es: seq<Expr>)
    ensures QueueSize(ExprNodes(es)) == ExprsSize(es)
  {
    if es != [] {
      ExprNodesSize(es[1..]);
      assert ExprNodes(es)[1..] == ExprNodes(es[1..]);
    }
  }

  lemma {:induction false} BlockNodesSize(b: seq<Stmt>)
    ensures QueueSize(BlockNodes(b)) == BlockSize(b)
  {
    if b != [] {
      BlockNodesSize(b[1..]);
      assert BlockNodes(b)[1..] == BlockNodes(b[1..]);
    }
  }

  lemma {:induction false} StoreNodesSize(xs: seq<string>)
    ensures QueueSize(StoreNodes(xs)) == |xs|
  {
    if xs != [] {
      StoreNodesSize(xs[1..]);
      assert StoreNodes(xs)[1..] == StoreNodes(xs[1..]);
    }
  }

  lemma ChildrenSize(n: Node)
    ensures QueueSize(Children(n)) < NodeSize(n)
  {
    match n
    case NStore(_) =>
    case NExpr(e) =>
      match e {
        case Walrus(t, b) => QueueSizeConcat([NStore(t)], [NExpr(b)]);
        case BinOp(_, l, r) => QueueSizeConcat([NExpr(l)], [NExpr(r)]);
        case Call(f, args) =>
          ExprNodesSize(args);
          QueueSizeConcat([NExpr(f)], ExprNodes(args));
        case _ =>
      }
    case NStmt(s) =>
      match s
      case Assign(ts, v) =>
        StoreNodesSize(ts);
        QueueSizeConcat(StoreNodes(ts), [NExpr(v)]);
      case If(c, b, o) => BranchSize(c, b, o);
      case While(c, b, o) => BranchSize(c, b, o);
      case AugAssign(t, _, v) => QueueSizeConcat([NStore(t)], [NExpr(v)]);
      case _ =>
  }

  lemma BranchSize(c: Expr, b: seq<Stmt>, o: seq<Stmt>)
    ensures QueueSize([NExpr(c)] + BlockNodes(b) + BlockNodes(o)) == ExprSize(c) + BlockSize(b) + BlockSize(o)
  {
    BlockNodesSize(b);
    BlockNodesSize(o);
    QueueSizeConcat([NExpr(c)], BlockNodes(b));
    QueueSizeConcat([NExpr(c)] + BlockNodes(b), BlockNodes(o));
  }

  lemma QueueShrinks(q: seq<Node>)
    requires q != []
    ensures QueueSize(q[1..] + Children(q[0])) < QueueSize(q)
  {
    ChildrenSize(q[0]);
    QueueSizeConcat(q[1..], Children(q[0]));
  }

  /** The names stored below a queue of nodes, in breadth-first order. */
  function Walk(q: seq<Node>): seq<string>
    decreases QueueSize(q)
  {
    if q == [] then []
    else
      QueueShrinks(q);
      (if q[0].NStore? then [q[0].id] else []) + Walk(q[1..] + Children(q[0]))
  }

  /** `acc` followed by the new, unprotected names of `names` in order of first sight. */
  function FirstSeen(names: seq<string>, prot: set<string>, acc: seq<string>): seq<string> {
    if names == [] then acc
    else FirstSeen(names[1..], prot,
                   if names[0] !in prot && names[0] !in acc then acc + [names[0]] else acc)
  }

  /** The locals that are renamed, in order of first store. */
  function LocalOrder(prot: set<string>, f: Fun): seq<string> {
    FirstSeen(Walk(BlockNodes(f.body)), Elems(f.params) + prot, [])
  }

  function RenameMap(order: seq<string>): map<string, string> {
    if order == [] then map[]
    else RenameMap(order[..|order| - 1])[order[|order| - 1] := VName(|order| - 1)]
  }

  // ----- renaming

  function App(m: map<string, string>, x: string): string {
    if x in m then m[x] else x
  }

  function RenameList(m: map<string, string>, xs: seq<string>): seq<string> {
    seq(|xs|, i requires 0 <= i < |xs| => App(m, xs[i]))
  }

  function RenameExpr(m: map<string, string>, e: Expr): Expr {
    match e
    case Lit(_) => e
    case Name(x) => Name(App(m, x))
    case Walrus(t, b) => Walrus(App(m, t), RenameExpr(m, b))
    case Attr(o, a) => Attr(RenameExpr(m, o), a)
    case BinOp(op, l, r) => BinOp(op, RenameExpr(m, l), RenameExpr(m, r))
    case Call(f, args) => Call(RenameExpr(m, f), RenameExprs(m, args))
  }

  function RenameExprs(m: map<string, string>, es: seq<Expr>): seq<Expr> {
    if es == [] then [] else [RenameExpr(m, es[0])] + RenameExprs(m, es[1..])
  }

  function RenameStmt(m: map<string, string>, s: Stmt): Stmt {
    match s
    case Assign(ts, v) => Assign(RenameList(m, ts), RenameExpr(m, v))
    case AugAssign(t, op, v) => AugAssign(App(m, t), op, RenameExpr(m, v))
    case If(c, b, o) => If(RenameExpr(m, c), RenameBlock(m, b), RenameBlock(m, o))
    case While(c, b, o) => While(RenameExpr(m, c), RenameBlock(m, b), RenameBlock(m, o))
    case Return(v) => Return(RenameExpr(m, v))
    case ExprStmt(v) => ExprStmt(RenameExpr(m, v))
    case _ => s
  }

  function RenameBlock(m: map<string, string>, b: seq<Stmt>): seq<Stmt> {
    if b == [] then [] else [RenameStmt(m, b[0])] + RenameBlock(m, b[1..])
  }

  function FunMap(prot: set<string>, f: Fun): map<string, string> {
    RenameMap(LocalOrder(prot, f))
  }

  function RenameFun(prot: set<string>, f: Fun): Fun {
    f.(body := RenameBlock(FunMap(prot, f), f.body))
  }

  function RenameLocals(ts: seq<Top>): seq<Top> {
    var prot := Protected(ts);
    MapFuns(f => RenameFun(prot, f), ts)
  }

  // ----- redundant pass

  function DropPass(b: seq<Stmt>): seq<Stmt> {
    if b == [] then []
    else if b[0].Pass? then DropPass(b[1..])
    else [b[0]] + DropPass(b[1..])
  }

  function CleanBody(b: seq<Stmt>): seq<Stmt> {
    if |b| <= 1 then b
    else if DropPass(b) == [] then [Pass]
    else DropPass(b)
  }

  function CleanStmt(s: Stmt): Stmt {
    match s
    case If(c, b, o) => If(c, CleanBlock(b), CleanBlock(o))
    case While(c, b, o) => While(c, CleanBlock(b), CleanBlock(o))
    case _ => s
  }

  function CleanEach(b: seq<Stmt>): seq<Stmt>
    decreases b, 0
  {
    if b == [] then [] else [CleanStmt(b[0])] + CleanEach(b[1..])
  }

  /** A body cleaned at every depth. Cleaning a statement never makes or unmakes a
      `pass`, so cleaning the inside first gives the same body as cleaning it last. */
  function CleanBlock(b: seq<Stmt>): seq<Stmt>
    decreases b, 1
  {
    CleanBody(CleanEach(b))
  }

  function CleanFun(f: Fun): Fun {
    f.(body := CleanBlock(f.body))
  }

  function CleanTop(t: Top): Top {
    match t
    case Def(f) => Def(CleanFun(f))
    case Plain(s) => Plain(CleanStmt(s))
    case _ => t
  }

  function CleanTopEach(ts: seq<Top>): seq<Top> {
    if ts == [] then [] else [CleanTop(ts[0])] + CleanTopEach(ts[1..])
  }

  predicate IsPassTop(t: Top) {
    t.Plain? && t.stmt.Pass?
  }

  function DropPassTops(ts: seq<Top>): seq<Top> {
    if ts == [] then []
    else if IsPassTop(ts[0]) then DropPassTops(ts[1..])
    else [ts[0]] + DropPassTops(ts[1..])
  }

  function CleanTopBody(ts: seq<Top>): seq<Top> {
    if |ts| <= 1 then ts
    else if DropPassTops(ts) == [] then [Plain(Pass)]
    else DropPassTops(ts)
  }

  function CleanTops(ts: seq<Top>): seq<Top> {
    CleanTopBody(CleanTopEach(ts))
  }

  // ----- the pipeline

  function Normalize(m: Module): Module {
    Module(CleanTops(RenameLocals(SortImports(StripDocstrings(m.tops)))))
  }

  predicate StructurallyEquivalent(a: Module, b: Module) {
    Normalize(a) == Normalize(b)
  }

  // ----- the loops of the source

  lemma {:induction false} RunLengthIs(a: seq<Top>, b: seq<Top>)
    requires forall i | 0 <= i < |a| :: IsImport(a[i])
    requires b == [] || !IsImport(b[0])
    ensures RunLength(a + b) == |a|
  {
    if a == [] {
      assert a + b == b;
    } else {
      assert (a + b)[1..] == a[1..] + b;
      RunLengthIs(a[1..], b);
    }
  }

  lemma SortImportsSplit(a: seq<Top>, b: seq<Top>)
    requires forall i | 0 <= i < |a| :: IsImport(a[i])
    requires b == [] || !IsImport(b[0])
    ensures SortImports(a + b) == StableSort(a) + SortImports(b)
  {
    if a == [] {
      assert a + b == b;
    } else {
      RunLengthIs(a, b);
      assert (a + b)[..|a|] == a && (a + b)[|a|..] == b;
    }
  }

  lemma SortImportsBefore(done: seq<Top>, group: seq<Top>, stmt: Top, rest: seq<Top>)
    requires forall i | 0 <= i < |group| :: IsImport(group[i])
    requires rest != [] && rest[0] == stmt && !IsImport(stmt)
    ensures done + SortImports(group + rest)
         == (if group != [] then done + StableSort(group) else done) + [stmt] + SortImports(rest[1..])
  {
    SortImportsSplit(group, rest);
  }

  lemma SortLoopStep(done: seq<Top>, group: seq<Top>, body: seq<Top>, i: nat)
    requires forall j | 0 <= j < |group| :: IsImport(group[j])
    requires i < |body|
    ensures IsImport(body[i]) ==>
              done + SortImports(group + body[i..]) == done + SortImports((group + [body[i]]) + body[i + 1..])
    ensures !IsImport(body[i]) ==>
              done + SortImports(group + body[i..])
              == (if group != [] then done + StableSort(group) else done) + [body[i]] + SortImports([] + body[i + 1..])
  {
    if IsImport(body[i]) {
      assert group + body[i..] == (group + [body[i]]) + body[i + 1..];
    } else {
      SortImportsBefore(done, group, body[i], body[i..]);
      assert body[i..][1..] == [] + body[i + 1..];
    }
  }

  /** `_sort_imports`: groups each run of imports, sorts it and appends it. */
  method SortImportRuns(body: seq<Top>) returns (result: seq<Top>)
    ensures result == SortImports(body)
  {
    result := [];
    var group: seq<Top> := [];
    assert group + body[0..] == body;
    ghost var goal := SortImports(body);
    for i := 0 to |body|
      invariant forall j | 0 <= j < |group| :: IsImport(group[j])
      invariant result + SortImports(group + body[i..]) == goal
    {
      var stmt := body[i];
      SortLoopStep(result, group, body, i);
      if IsImport(stmt) {
        group := group + [stmt];
      } else {
        if group != [] {
          result := result + StableSort(group);
          group := [];
        }
        result := result + [stmt];
      }
    }
    assert group + body[|body|..] == group + [];
    SortImportsSplit(group, []);
    if group != [] {
      result := result + StableSort(group);
    }
  }

  lemma CollectNext(todo: seq<Node>, all: set<string>, order: seq<string>)
    requires todo != []
    ensures var child := todo[0];
            var next := if child.NStore? && child.id !in all && child.id !in order then order + [child.id] else order;
            FirstSeen(Walk(todo), all, order) == FirstSeen(Walk(todo[1..] + Children(child)), all, next)
  {
    hide Children;
    var names, rest := Walk(todo), Walk(todo[1..] + Children(todo[0]));
    assert names == (if todo[0].NStore? then [todo[0].id] else []) + rest;
    assert if todo[0].NStore? then names[1..] == rest else names == rest;
  }

  /** The first loop of `_normalize_function_locals`: walks the tree breadth first and
      collects the names to rename. */
  method CollectLocals(prot: set<string>, f: Fun) returns (localOrder: seq<string>)
    ensures localOrder == LocalOrder(prot, f)
  {
    var all := Elems(f.params) + prot;
    localOrder := [];
    var seen: set<string> := {};
    var todo := BlockNodes(f.body);
    while todo != []
      invariant seen == Elems(localOrder)
      invariant FirstSeen(Walk(todo), all, localOrder) == LocalOrder(prot, f)
      decreases QueueSize(todo)
    {
      QueueShrinks(todo);
      CollectNext(todo, all, localOrder);
      var child := todo[0];
      todo := todo[1..] + Children(child);
      if child.NStore? && child.id !in all && child.id !in seen {
        localOrder := localOrder + [child.id];
        seen := seen + {child.id};
      }
    }
  }

  /** The second loop of `_normalize_function_locals`: numbers the collected names. */
  method BuildRenameMap(localOrder: seq<string>) returns (m: map<string, string>)
    ensures m == RenameMap(localOrder)
  {
    m := map[];
    for idx := 0 to |localOrder|
      invariant m == RenameMap(localOrder[..idx])
    {
      assert localOrder[..idx + 1][..idx] == localOrder[..idx];
      m := m[localOrder[idx] := VName(idx)];
    }
    assert localOrder[..|localOrder|] == localOrder;
  }
}
