/** What the renamer keeps: which stored names of a function survive normalisation, said of
    the statements of the module, and the numbers the others get. */
module NormalizerKept {
  import opened Basics
  import opened PySyntax
  import opened PyInterp
  import opened Normalizer
  import opened NormalizerNames
  import opened NormalizerMeaning
  import opened NormalizerModule
  import opened NormalizerCanonical

  // ----- the names a module binds at its top level

  /** `x` is the part of a dotted name before the first dot. */
  predicate FirstDotted(name: string, x: string) {
    '.' !in x && (name == x || x + "." <= name)
  }

  /** The statement defines a function called `x`, imports something under that name or
      assigns to it. */
  ghost predicate TopBinds(t: Top, x: string) {
    match t
    case Def(f) => f.name == x
    case Import(names) =>
      exists a :: a in names && if a.asname != "" then a.asname == x else FirstDotted(a.name, x)
    case ImportFrom(_, names) =>
      exists a :: a in names && if a.asname != "" then a.asname == x else a.name == x
    case Plain(s) => s.Assign? && x in s.targets
  }

  ghost predicate BoundAtTop(ts: seq<Top>, x: string) {
    exists t :: t in ts && TopBinds(t, x)
  }

  lemma {:induction false} FirstPartIff(name: string, x: string)
    ensures FirstPart(name) == x <==> FirstDotted(name, x)
  {
    if name != "" && name[0] != '.' {
      FirstPartIff(name[1..], if x == "" then "" else x[1..]);
      assert name == [name[0]] + name[1..];
      if x != "" {
        assert x == [x[0]] + x[1..];
        assert x + "." == [x[0]] + (x[1..] + ".");
        PrefixCons(x + ".", name);
      }
    } else if name != "" && x == "" {
      assert "" + "." == [name[0]];
    }
  }

  lemma AliasNamesIff(names: seq<Alias>, dotted: bool, x: string)
    ensures x in AliasNames(names, dotted)
       <==> exists a :: a in names && if a.asname != "" then a.asname == x
                                      else if dotted then FirstDotted(a.name, x) else a.name == x
  {
    forall a: Alias
      ensures FirstPart(a.name) == x <==> FirstDotted(a.name, x)
    {
      FirstPartIff(a.name, x);
    }
    hide FirstPart, FirstDotted;
    if x in AliasNames(names, dotted) {
      var i :| 0 <= i < |names| && AliasName(names[i], dotted) == x;
      assert names[i] in names;
    }
    if a :| a in names && if a.asname != "" then a.asname == x
                          else if dotted then FirstDotted(a.name, x) else a.name == x {
      var i :| 0 <= i < |names| && names[i] == a;
      assert AliasName(names[i], dotted) == x;
    }
  }

  /** The protected names are exactly those bound at the top level. */
  lemma {:induction false} ProtectedIff(ts: seq<Top>, x: string)
    ensures x in Protected(ts) <==> BoundAtTop(ts, x)
  {
    if ts != [] {
      ProtectedIff(ts[1..], x);
      match ts[0] {
        case Import(names) => AliasNamesIff(names, true, x);
        case ImportFrom(_, names) => AliasNamesIff(names, false, x);
        case _ =>
      }
      hide FirstDotted, AliasNames;
      assert ts == [ts[0]] + ts[1..];
      assert BoundAtTop(ts, x) <==> TopBinds(ts[0], x) || BoundAtTop(ts[1..], x);
    }
  }

  /** A name the function stores that is neither a parameter nor bound at the top level. */
  ghost predicate Local(ts: seq<Top>, f: Fun, x: string) {
    x in BlockStores(f.body) && x !in f.params && !BoundAtTop(ts, x)
  }

  /** Exactly those are renamed. */
  lemma LocalIff(ts: seq<Top>, f: Fun, x: string)
    ensures x in FunMap(Protected(ts), f) <==> Local(ts, f, x)
  {
    LocalOrderIs(Protected(ts), f);
    ProtectedIff(ts, x);
  }

  // ----- the order of first store

  /** The names stored exactly `d` levels below, from left to right. */
  function ExprAt(e: Expr, d: nat): seq<string>
    decreases e, 0
  {
    if d == 0 then []
    else
      match e
      case Lit(_) => []
      case Name(_) => []
      case Walrus(t, v) => (if d == 1 then [t] else []) + ExprAt(v, d - 1)
      case Attr(o, _) => ExprAt(o, d - 1)
      case BinOp(_, l, r) => ExprAt(l, d - 1) + ExprAt(r, d - 1)
      case Call(f, args) => ExprAt(f, d - 1) + ExprsAt(args, d - 1)
  }

  function ExprsAt(es: seq<Expr>, d: nat): seq<string> {
    if es == [] then [] else ExprAt(es[0], d) + ExprsAt(es[1..], d)
  }

  function StmtAt(s: Stmt, d: nat): seq<string>
    decreases s, 0
  {
    if d == 0 then []
    else
      match s
      case Assign(ts, v) => (if d == 1 then ts else []) + ExprAt(v, d - 1)
      case AugAssign(t, _, v) => (if d == 1 then [t] else []) + ExprAt(v, d - 1)
      case If(c, b, o) => ExprAt(c, d - 1) + BodyAt(b, d - 1) + BodyAt(o, d - 1)
      case While(c, b, o) => ExprAt(c, d - 1) + BodyAt(b, d - 1) + BodyAt(o, d - 1)
      case Return(v) => ExprAt(v, d - 1)
      case ExprStmt(v) => ExprAt(v, d - 1)
      case _ => []
  }

  function BodyAt(b: seq<Stmt>, d: nat): seq<string> {
    if b == [] then [] else StmtAt(b[0], d) + BodyAt(b[1..], d)
  }

  function NodeAt(n: Node, d: nat): seq<string> {
    match n
    case NExpr(e) => ExprAt(e, d)
    case NStmt(s) => StmtAt(s, d)
    case NStore(x) => if d == 0 then [x] else []
  }

  function QueueAt(q: seq<Node>, d: nat): seq<string> {
    if q == [] then [] else NodeAt(q[0], d) + QueueAt(q[1..], d)
  }

  lemma {:induction false} QueueAtConcat(a: seq<Node>, b: seq<Node>, d: nat)
    ensures QueueAt(a + b, d) == QueueAt(a, d) + QueueAt(b, d)
  {
    if a == [] {
      assert a + b == b;
    } else {
      assert (a + b)[1..] == a[1..] + b;
      QueueAtConcat(a[1..], b, d);
    }
  }

  lemma {:induction false} ExprNodesAt(es: seq<Expr>, d: nat)
    ensures QueueAt(ExprNodes(es), d) == ExprsAt(es, d)
  {
    if es != [] { ExprNodesAt(es[1..], d); }
  }

  lemma {:induction false} BlockNodesAt(b: seq<Stmt>, d: nat)
    ensures QueueAt(BlockNodes(b), d) == BodyAt(b, d)
  {
    if b != [] { BlockNodesAt(b[1..], d); }
  }

  lemma {:induction false} StoreNodesAt(xs: seq<string>, d: nat)
    ensures QueueAt(StoreNodes(xs), d) == if d == 0 then xs else []
  {
    if xs != [] { StoreNodesAt(xs[1..], d); }
  }

  lemma OneAt(n: Node, d: nat)
    ensures QueueAt([n], d) == NodeAt(n, d)
  {
    assert [n][1..] == [];
  }

  /** One level below a node is what its children store. */
  lemma ChildrenAt(n: Node, d: nat)
    ensures QueueAt(Children(n), d) == NodeAt(n, d + 1)
  {
    match n
    case NStore(_) =>
    case NExpr(e) => ExprChildrenAt(e, d);
    case NStmt(s) => StmtChildrenAt(s, d);
  }

  lemma PairAt(a: Node, b: Node, d: nat)
    ensures QueueAt([a, b], d) == NodeAt(a, d) + NodeAt(b, d)
  {
    assert [a, b][1..] == [b];
    OneAt(b, d);
  }

  lemma ExprChildrenAt(e: Expr, d: nat)
    ensures QueueAt(Children(NExpr(e)), d) == ExprAt(e, d + 1)
  {
    match e
    case Lit(_) =>
    case Name(_) =>
    case Walrus(t, b) => PairAt(NStore(t), NExpr(b), d);
    case Attr(o, _) => OneAt(NExpr(o), d);
    case BinOp(_, l, r) => PairAt(NExpr(l), NExpr(r), d);
    case Call(f, args) =>
      OneAt(NExpr(f), d);
      QueueAtConcat([NExpr(f)], ExprNodes(args), d);
      ExprNodesAt(args, d);
  }

  lemma BranchesAt(c: Expr, b: seq<Stmt>, o: seq<Stmt>, d: nat)
    ensures QueueAt([NExpr(c)] + BlockNodes(b) + BlockNodes(o), d) == ExprAt(c, d) + BodyAt(b, d) + BodyAt(o, d)
  {
    OneAt(NExpr(c), d);
    BlockNodesAt(b, d);
    BlockNodesAt(o, d);
    QueueAtConcat([NExpr(c)], BlockNodes(b), d);
    QueueAtConcat([NExpr(c)] + BlockNodes(b), BlockNodes(o), d);
  }

  lemma StmtChildrenAt(s: Stmt, d: nat)
    ensures QueueAt(Children(NStmt(s)), d) == StmtAt(s, d + 1)
  {
    match s
    case Assign(ts, v) =>
      OneAt(NExpr(v), d);
      StoreNodesAt(ts, d);
      QueueAtConcat(StoreNodes(ts), [NExpr(v)], d);
    case AugAssign(t, _, v) => PairAt(NStore(t), NExpr(v), d);
    case If(c, b, o) => BranchesAt(c, b, o, d);
    case While(c, b, o) => BranchesAt(c, b, o, d);
    case Return(v) => OneAt(NExpr(v), d);
    case ExprStmt(v) => OneAt(NExpr(v), d);
    case _ =>
  }

  lemma {:induction false} LevelBelow(q: seq<Node>, d: nat)
    ensures QueueAt(AllChildren(q), d) == QueueAt(q, d + 1)
  {
    if q != [] {
      ChildrenAt(q[0], d);
      LevelBelow(q[1..], d);
      QueueAtConcat(Children(q[0]), AllChildren(q[1..]), d);
    }
  }

  lemma {:induction false} HereAt(q: seq<Node>)
    ensures Here(q) == QueueAt(q, 0)
  {
    if q != [] { HereAt(q[1..]); }
  }

  /** Level after level from `d` on, `n` of them. */
  function Levels(b: seq<Stmt>, d: nat, n: nat): seq<string>
    decreases n
  {
    if n == 0 then [] else BodyAt(b, d) + Levels(b, d + 1, n - 1)
  }

  function QueueLevels(q: seq<Node>, d: nat, n: nat): seq<string>
    decreases n
  {
    if n == 0 then [] else QueueAt(q, d) + QueueLevels(q, d + 1, n - 1)
  }

  lemma {:induction false} NextLevels(q: seq<Node>, d: nat, n: nat)
    ensures QueueLevels(AllChildren(q), d, n) == QueueLevels(q, d + 1, n)
    decreases n
  {
    if n > 0 {
      LevelBelow(q, d);
      NextLevels(q, d + 1, n - 1);
    }
  }

  lemma {:induction false} WalkIsLevels(q: seq<Node>, n: nat)
    requires QueueSize(q) <= n
    ensures Walk(q) == QueueLevels(q, 0, n)
    decreases n
  {
    if q == [] {
      EmptyLevels(0, n);
    } else {
      HereAt(q);
      WalkByLevel(q);
      AllChildrenSize(q);
      if n > 0 {
        WalkIsLevels(AllChildren(q), n - 1);
        NextLevels(q, 0, n - 1);
      }
    }
  }

  lemma {:induction false} EmptyLevels(d: nat, n: nat)
    ensures QueueLevels([], d, n) == []
    decreases n
  {
    if n > 0 { EmptyLevels(d + 1, n - 1); }
  }

  lemma {:induction false} BodyLevels(b: seq<Stmt>, d: nat, n: nat)
    ensures QueueLevels(BlockNodes(b), d, n) == Levels(b, d, n)
    decreases n
  {
    if n > 0 {
      BlockNodesAt(b, d);
      BodyLevels(b, d + 1, n - 1);
    }
  }

  /** The walk meets the stored names of a body level by level, the levels from left to
      right. */
  lemma WalkLevels(b: seq<Stmt>)
    ensures Walk(BlockNodes(b)) == Levels(b, 0, QueueSize(BlockNodes(b)))
  {
    WalkIsLevels(BlockNodes(b), QueueSize(BlockNodes(b)));
    BodyLevels(b, 0, QueueSize(BlockNodes(b)));
  }

  // ----- what is kept, and the numbers of the rest

  /** The stored names of a function in the order in which their numbers are given. */
  function StoredInOrder(f: Fun): seq<string> {
    Levels(f.body, 0, QueueSize(BlockNodes(f.body)))
  }

  lemma {:induction false} FirstSeenConcat(a: seq<string>, b: seq<string>, prot: set<string>, acc: seq<string>)
    ensures FirstSeen(a + b, prot, acc) == FirstSeen(b, prot, FirstSeen(a, prot, acc))
    decreases |a|
  {
    if a == [] {
      assert a + b == b;
    } else {
      assert (a + b)[1..] == a[1..] + b;
      FirstSeenConcat(a[1..], b, prot, if a[0] !in prot && a[0] !in acc then acc + [a[0]] else acc);
    }
  }

  lemma {:induction false} FirstSeenGrows(names: seq<string>, prot: set<string>, acc: seq<string>)
    ensures acc <= FirstSeen(names, prot, acc)
    decreases |names|
  {
    if names != [] {
      FirstSeenGrows(names[1..], prot, if names[0] !in prot && names[0] !in acc then acc + [names[0]] else acc);
    }
  }

  lemma {:induction false} DistinctSize(xs: seq<string>)
    requires Distinct(xs)
    ensures |Elems(xs)| == |xs|
  {
    if xs != [] {
      var n := |xs| - 1;
      DistinctSize(xs[..n]);
      assert xs == xs[..n] + [xs[n]];
      assert Elems(xs) == Elems(xs[..n]) + {xs[n]};
    }
  }

  /** A name first seen at `i` comes after the names kept before it. */
  lemma FirstSeenAt(names: seq<string>, prot: set<string>, i: nat)
    requires i < |names| && names[i] !in prot && names[i] !in names[..i]
    ensures var order, n := FirstSeen(names, prot, []), |Elems(names[..i]) - prot|;
            n < |order| && order[n] == names[i]
  {
    var before := FirstSeen(names[..i], prot, []);
    FirstSeenIs(names[..i], prot, []);
    DistinctSize(before);
    assert Elems(before) == Elems(names[..i]) - prot;
    assert names[i] !in before by { assert names[i] !in Elems(before); }
    assert names == names[..i] + names[i..];
    FirstSeenConcat(names[..i], names[i..], prot, []);
    FirstSeenGrows(names[i..][1..], prot, before + [names[i]]);
  }

  /** The renaming takes exactly the locals, and numbers each by the locals stored before it. */
  ghost predicate NumbersLocals(ts: seq<Top>, f: Fun, rho: map<string, string>) {
    && (forall x :: x in rho <==> Local(ts, f, x))
    && Elems(StoredInOrder(f)) == BlockStores(f.body)
    && var order := StoredInOrder(f);
       forall i | 0 <= i < |order| && order[i] in rho && order[i] !in order[..i] ::
         rho[order[i]] == VName(|Elems(order[..i]) * rho.Keys|)
  }

  lemma FunMapNumbers(ts: seq<Top>, f: Fun)
    ensures NumbersLocals(ts, f, FunMap(Protected(ts), f))
  {
    var rho, order := FunMap(Protected(ts), f), StoredInOrder(f);
    WalkLevels(f.body);
    StoresAreWalk(f.body);
    forall x
      ensures x in rho <==> Local(ts, f, x)
    {
      LocalIff(ts, f, x);
    }
    forall i | 0 <= i < |order| && order[i] in rho && order[i] !in order[..i]
      ensures rho[order[i]] == VName(|Elems(order[..i]) * rho.Keys|)
    {
      NumberAt(Protected(ts), f, i);
    }
  }

  /** Normalising a module renames, in the skeleton of each function, exactly the stored
      names that are neither parameters nor bound at the top level of the module, and
      numbers each by the renamed names stored before it. */
  lemma KeptNames(m: Module, k: nat) returns (rho: map<string, string>)
    requires k < |Funs(m.tops)|
    ensures |Funs(Normalize(m).tops)| == |Funs(m.tops)|
    ensures var f := Funs(m.tops)[k];
            && Funs(Normalize(m).tops)[k] == Skeleton(f).(body := RenameBlock(rho, Skeleton(f).body))
            && NumbersLocals(m.tops, f, rho)
  {
    var f := Funs(m.tops)[k];
    rho := FunMap(Protected(m.tops), f);
    NormalizedFuns(m);
    SkeletonRenamed(Protected(m.tops), f);
    FunMapNumbers(m.tops, f);
  }

  lemma NumberAt(prot: set<string>, f: Fun, i: nat)
    requires i < |StoredInOrder(f)|
    requires var order := StoredInOrder(f); order[i] in FunMap(prot, f) && order[i] !in order[..i]
    ensures var order := StoredInOrder(f);
            FunMap(prot, f)[order[i]] == VName(|Elems(order[..i]) * FunMap(prot, f).Keys|)
  {
    var order, all := StoredInOrder(f), Elems(f.params) + prot;
    WalkLevels(f.body);
    LocalOrderIs(prot, f);
    StoresAreWalk(f.body);
    hide FunMap, Levels, Walk, BlockStores, FirstSeen, QueueSize;
    assert order[i] in Elems(LocalOrder(prot, f));
    FirstSeenAt(order, all, i);
    assert forall y | y in order[..i] :: y in Elems(order);
    assert Elems(order[..i]) - all == Elems(order[..i]) * FunMap(prot, f).Keys;
  }
}
