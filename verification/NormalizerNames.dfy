/** Facts about the names the normaliser handles: generated names are distinct, the
    breadth-first walk finds exactly the stored names, and it does not see statements
    that store nothing. */
module NormalizerNames {
  import opened Basics
  import opened PySyntax
  import opened Normalizer

  // ----- generated names

  function Digit(c: char): nat {
    if '0' <= c <= '9' then (c - '0') as int else 0
  }

  function Undecimal(s: string): nat {
    if s == "" then 0 else 10 * Undecimal(s[..|s| - 1]) + Digit(s[|s| - 1])
  }

  lemma {:induction false} DecimalInverse(n: nat)
    ensures Undecimal(Decimal(n)) == n
  {
    if n < 10 {
      assert Decimal(n)[..0] == "";
    } else {
      DecimalInverse(n / 10);
      assert Decimal(n)[..|Decimal(n)| - 1] == Decimal(n / 10);
    }
  }

  lemma VNameInjective(i: nat, j: nat)
    ensures VName(i) == VName(j) <==> i == j
  {
    if VName(i) == VName(j) {
      assert VName(i)[1..] == Decimal(i) && VName(j)[1..] == Decimal(j);
      DecimalInverse(i);
      DecimalInverse(j);
    }
  }

  /** The generated names v0, ..., v(n-1). */
  predicate Generated(x: string, n: nat) {
    exists i | 0 <= i < n :: x == VName(i)
  }

  lemma {:induction false} RenameMapIs(order: seq<string>)
    requires Distinct(order)
    ensures RenameMap(order).Keys == Elems(order)
    ensures forall i | 0 <= i < |order| :: RenameMap(order)[order[i]] == VName(i)
  {
    if order != [] {
      var n := |order| - 1;
      RenameMapIs(order[..n]);
      assert order == order[..n] + [order[n]];
      forall i | 0 <= i < |order|
        ensures order[i] in RenameMap(order) && RenameMap(order)[order[i]] == VName(i)
      {
        if i < n { assert order[..n][i] == order[i]; }
      }
    }
  }

  // ----- FirstSeen

  lemma {:induction false} FirstSeenIs(names: seq<string>, prot: set<string>, acc: seq<string>)
    requires Distinct(acc)
    ensures Distinct(FirstSeen(names, prot, acc))
    ensures Elems(FirstSeen(names, prot, acc)) == Elems(acc) + (Elems(names) - prot)
  {
    if names != [] {
      var acc' := if names[0] !in prot && names[0] !in acc then acc + [names[0]] else acc;
      FirstSeenIs(names[1..], prot, acc');
      assert names == [names[0]] + names[1..];
      assert Elems(names) == {names[0]} + Elems(names[1..]);
      assert Elems(acc') + (Elems(names[1..]) - prot) == Elems(acc) + (Elems(names) - prot);
    }
  }

  // ----- the walk finds exactly the stores

  function NodeStores(n: Node): set<string> {
    match n
    case NStore(x) => {x}
    case NExpr(e) => ExprStores(e)
    case NStmt(s) => StmtStores(s)
  }

  function QueueStores(q: seq<Node>): set<string> {
    if q == [] then {} else NodeStores(q[0]) + QueueStores(q[1..])
  }

  lemma {:induction false} QueueStoresConcat(a: seq<Node>, b: seq<Node>)
    ensures QueueStores(a + b) == QueueStores(a) + QueueStores(b)
  {
    if a == [] {
      assert a + b == b;
    } else {
      assert (a + b)[1..] == a[1..] + b;
      QueueStoresConcat(a[1..], b);
    }
  }

  lemma {:induction false} ExprNodesStores(es: seq<Expr>)
    ensures QueueStores(ExprNodes(es)) == ExprsStores(es)
  {
    if es != [] {
      ExprNodesStores(es[1..]);
      assert ExprNodes(es)[1..] == ExprNodes(es[1..]);
    }
  }

  lemma {:induction false} BlockNodesStores(b: seq<Stmt>)
    ensures QueueStores(BlockNodes(b)) == BlockStores(b)
  {
    if b != [] {
      BlockNodesStores(b[1..]);
      assert BlockNodes(b)[1..] == BlockNodes(b[1..]);
    }
  }

  lemma {:induction false} StoreNodesStores(xs: seq<string>)
    ensures QueueStores(StoreNodes(xs)) == Elems(xs)
  {
    if xs != [] {
      StoreNodesStores(xs[1..]);
      assert StoreNodes(xs)[1..] == StoreNodes(xs[1..]);
      assert xs == [xs[0]] + xs[1..];
    }
  }

  lemma BranchStores(c: Expr, b: seq<Stmt>, o: seq<Stmt>)
    ensures QueueStores([NExpr(c)] + BlockNodes(b) + BlockNodes(o)) == ExprStores(c) + BlockStores(b) + BlockStores(o)
  {
    BlockNodesStores(b);
    BlockNodesStores(o);
    QueueStoresConcat([NExpr(c)], BlockNodes(b));
    QueueStoresConcat([NExpr(c)] + BlockNodes(b), BlockNodes(o));
  }

  lemma ChildrenStores(n: Node)
    ensures NodeStores(n) == (if n.NStore? then {n.id} else {}) + QueueStores(Children(n))
  {
    match n
    case NStore(_) =>
    case NExpr(e) =>
      match e {
        case Walrus(t, b) => QueueStoresConcat([NStore(t)], [NExpr(b)]);
        case BinOp(_, l, r) => QueueStoresConcat([NExpr(l)], [NExpr(r)]);
        case Call(f, args) =>
          ExprNodesStores(args);
          QueueStoresConcat([NExpr(f)], ExprNodes(args));
        case _ =>
      }
    case NStmt(s) =>
      match s
      case Assign(ts, v) =>
        StoreNodesStores(ts);
        QueueStoresConcat(StoreNodes(ts), [NExpr(v)]);
      case AugAssign(t, _, v) => QueueStoresConcat([NStore(t)], [NExpr(v)]);
      case If(c, b, o) => BranchStores(c, b, o);
      case While(c, b, o) => BranchStores(c, b, o);
      case _ =>
  }

  lemma {:induction false} WalkStores(q: seq<Node>)
    ensures Elems(Walk(q)) == QueueStores(q)
    decreases QueueSize(q)
  {
    if q != [] {
      QueueShrinks(q);
      var rest := q[1..] + Children(q[0]);
      WalkStores(rest);
      ChildrenStores(q[0]);
      QueueStoresConcat(q[1..], Children(q[0]));
      var own := if q[0].NStore? then [q[0].id] else [];
      assert Elems(own + Walk(rest)) == Elems(own) + Elems(Walk(rest));
    }
  }

  /** The renamed locals are exactly the stored names that are neither parameters nor
      protected, each listed once, and they become v0, v1, ... in that order. */
  lemma LocalOrderIs(prot: set<string>, f: Fun)
    ensures Distinct(LocalOrder(prot, f))
    ensures Elems(LocalOrder(prot, f)) == BlockStores(f.body) - Elems(f.params) - prot
    ensures FunMap(prot, f).Keys == Elems(LocalOrder(prot, f))
    ensures forall i | 0 <= i < |LocalOrder(prot, f)| :: FunMap(prot, f)[LocalOrder(prot, f)[i]] == VName(i)
  {
    WalkStores(BlockNodes(f.body));
    BlockNodesStores(f.body);
    FirstSeenIs(Walk(BlockNodes(f.body)), Elems(f.params) + prot, []);
    RenameMapIs(LocalOrder(prot, f));
  }

  // ----- walking by levels, blind to nodes that store nothing

  function AllChildren(q: seq<Node>): seq<Node> {
    if q == [] then [] else Children(q[0]) + AllChildren(q[1..])
  }

  function Here(q: seq<Node>): seq<string> {
    if q == [] then [] else (if q[0].NStore? then [q[0].id] else []) + Here(q[1..])
  }

  lemma WalkStep(q: seq<Node>, rest: seq<Node>)
    requires q != [] && rest == q[1..] + Children(q[0])
    ensures Walk(q) == (if q[0].NStore? then [q[0].id] else []) + Walk(rest)
  {
    QueueShrinks(q);
  }

  lemma WalkFront(a: seq<Node>, b: seq<Node>)
    requires a != []
    ensures Walk(a + b) == (if a[0].NStore? then [a[0].id] else []) + Walk(a[1..] + (b + Children(a[0])))
  {
    assert (a + b)[1..] + Children(a[0]) == a[1..] + (b + Children(a[0]));
    WalkStep(a + b, a[1..] + (b + Children(a[0])));
  }

  lemma LevelFront(a: seq<Node>, b: seq<Node>)
    requires a != []
    ensures Here(a) == (if a[0].NStore? then [a[0].id] else []) + Here(a[1..])
    ensures (b + Children(a[0])) + AllChildren(a[1..]) == b + AllChildren(a)
  {
  }

  lemma Glue(whole: seq<string>, own: seq<string>, rest: seq<string>, here: seq<string>, below: seq<string>)
    requires whole == own + rest && rest == here + below
    ensures whole == (own + here) + below
  {
  }

  /** A queue `a + b` is walked by emitting what `a` stores and queueing its children. */
  lemma {:induction false} WalkLevel(a: seq<Node>, b: seq<Node>)
    ensures Walk(a + b) == Here(a) + Walk(b + AllChildren(a))
    decreases |a|
  {
    if a == [] {
      assert a + b == b && b + AllChildren(a) == b;
    } else {
      var c := b + Children(a[0]);
      WalkFront(a, b);
      WalkLevel(a[1..], c);
      Glue(Walk(a + b), if a[0].NStore? then [a[0].id] else [], Walk(a[1..] + c), Here(a[1..]),
          Walk(c + AllChildren(a[1..])));
      LevelFront(a, b);
    }
  }

  lemma WalkByLevel(q: seq<Node>)
    ensures Walk(q) == Here(q) + Walk(AllChildren(q))
  {
    assert q + [] == q && [] + AllChildren(q) == AllChildren(q);
    WalkLevel(q, []);
  }

  lemma {:induction false} AllChildrenSize(q: seq<Node>)
    ensures QueueSize(AllChildren(q)) <= QueueSize(q)
    ensures q != [] ==> QueueSize(AllChildren(q)) < QueueSize(q)
  {
    if q != [] {
      ChildrenSize(q[0]);
      AllChildrenSize(q[1..]);
      QueueSizeConcat(Children(q[0]), AllChildren(q[1..]));
    }
  }

  /** `q` without the nodes below which nothing is stored. */
  function Storing(q: seq<Node>): seq<Node> {
    if q == [] then []
    else if NodeStores(q[0]) == {} then Storing(q[1..])
    else [q[0]] + Storing(q[1..])
  }

  lemma {:induction false} StoringConcat(a: seq<Node>, b: seq<Node>)
    ensures Storing(a + b) == Storing(a) + Storing(b)
  {
    if a == [] {
      assert a + b == b;
    } else {
      assert (a + b)[1..] == a[1..] + b;
      StoringConcat(a[1..], b);
    }
  }

  lemma {:induction false} SilentStoring(q: seq<Node>)
    requires QueueStores(q) == {}
    ensures Storing(q) == []
  {
    if q != [] { SilentStoring(q[1..]); }
  }

  lemma {:induction false} StoringChildren(q: seq<Node>)
    ensures Storing(AllChildren(Storing(q))) == Storing(AllChildren(q))
    ensures Here(Storing(q)) == Here(q)
  {
    if q != [] {
      StoringChildren(q[1..]);
      StoringConcat(Children(q[0]), AllChildren(q[1..]));
      if NodeStores(q[0]) == {} {
        ChildrenStores(q[0]);
        SilentStoring(Children(q[0]));
      } else {
        assert Storing(q)[1..] == Storing(q[1..]);
        StoringConcat(Children(q[0]), AllChildren(Storing(q[1..])));
      }
    }
  }

  /** The walk depends only on the nodes that store something. */
  lemma {:induction false} WalkBlind(a: seq<Node>, b: seq<Node>)
    requires Storing(a) == Storing(b)
    ensures Walk(a) == Walk(b)
    decreases QueueSize(a) + QueueSize(b)
  {
    WalkByLevel(a);
    WalkByLevel(b);
    StoringChildren(a);
    StoringChildren(b);
    if a != [] || b != [] {
      AllChildrenSize(a);
      AllChildrenSize(b);
      WalkBlind(AllChildren(a), AllChildren(b));
    }
  }

  // ----- cleaning and renaming, seen from the walk

  function CleanNode(n: Node): Node {
    if n.NStmt? then NStmt(CleanStmt(n.s)) else n
  }

  function CleanNodes(q: seq<Node>): seq<Node> {
    if q == [] then [] else [CleanNode(q[0])] + CleanNodes(q[1..])
  }

  lemma {:induction false} CleanNodesConcat(a: seq<Node>, b: seq<Node>)
    ensures CleanNodes(a + b) == CleanNodes(a) + CleanNodes(b)
  {
    if a == [] {
      assert a + b == b;
    } else {
      assert (a + b)[1..] == a[1..] + b;
      CleanNodesConcat(a[1..], b);
    }
  }

  lemma {:induction false} CleanEachNodes(b: seq<Stmt>)
    ensures BlockNodes(CleanEach(b)) == CleanNodes(BlockNodes(b))
  {
    if b != [] {
      CleanEachNodes(b[1..]);
      assert CleanEach(b)[1..] == CleanEach(b[1..]);
      assert BlockNodes(b)[1..] == BlockNodes(b[1..]);
    }
  }

  lemma {:induction false} DropPassStoring(b: seq<Stmt>)
    ensures Storing(BlockNodes(DropPass(b))) == Storing(BlockNodes(b))
  {
    if b != [] {
      DropPassStoring(b[1..]);
      assert BlockNodes(b)[1..] == BlockNodes(b[1..]);
      if !b[0].Pass? {
        assert BlockNodes(DropPass(b))[1..] == BlockNodes(DropPass(b[1..]));
      }
    }
  }

  lemma CleanBodyStoring(b: seq<Stmt>)
    ensures Storing(BlockNodes(CleanBody(b))) == Storing(BlockNodes(b))
  {
    DropPassStoring(b);
  }

  lemma CleanPair(x: Node, y: Node)
    ensures CleanNodes([x]) == [CleanNode(x)]
    ensures CleanNodes([x, y]) == [CleanNode(x), CleanNode(y)]
  {
    assert [x][1..] == [] && [y][1..] == [] && [x, y][1..] == [y];
  }

  lemma CleanChildren(n: Node)
    ensures Storing(Children(CleanNode(n))) == Storing(CleanNodes(Children(n)))
  {
    match n
    case NStore(_) =>
    case NExpr(e) =>
      match e {
        case Lit(_) =>
        case Name(_) =>
        case Walrus(t, b) => CleanPair(NStore(t), NExpr(b));
        case Attr(o, _) => CleanPair(NExpr(o), NExpr(o));
        case BinOp(_, l, r) => CleanPair(NExpr(l), NExpr(r));
        case Call(f, args) =>
          CleanPair(NExpr(f), NExpr(f));
          CleanExprNodes(args);
          CleanNodesConcat([NExpr(f)], ExprNodes(args));
      }
    case NStmt(s) =>
      match s
      case If(c, b, o) => CleanBranch(c, b, o);
      case While(c, b, o) => CleanBranch(c, b, o);
      case Assign(ts, v) =>
        CleanStoreNodes(ts);
        CleanPair(NExpr(v), NExpr(v));
        CleanNodesConcat(StoreNodes(ts), [NExpr(v)]);
      case AugAssign(t, _, v) => CleanPair(NStore(t), NExpr(v));
      case Return(v) => CleanPair(NExpr(v), NExpr(v));
      case ExprStmt(v) => CleanPair(NExpr(v), NExpr(v));
      case _ =>
  }

  lemma {:induction false} CleanExprNodes(es: seq<Expr>)
    ensures CleanNodes(ExprNodes(es)) == ExprNodes(es)
  {
    if es != [] {
      CleanExprNodes(es[1..]);
      assert ExprNodes(es)[1..] == ExprNodes(es[1..]);
    }
  }

  lemma {:induction false} CleanStoreNodes(xs: seq<string>)
    ensures CleanNodes(StoreNodes(xs)) == StoreNodes(xs)
  {
    if xs != [] {
      CleanStoreNodes(xs[1..]);
      assert StoreNodes(xs)[1..] == StoreNodes(xs[1..]);
    }
  }

  lemma CleanBranch(c: Expr, b: seq<Stmt>, o: seq<Stmt>)
    ensures Storing([NExpr(c)] + BlockNodes(CleanBlock(b)) + BlockNodes(CleanBlock(o)))
         == Storing(CleanNodes([NExpr(c)] + BlockNodes(b) + BlockNodes(o)))
  {
    var h := [NExpr(c)];
    assert CleanNodes(h) == h;
    CleanNodesConcat(h, BlockNodes(b));
    CleanNodesConcat(h + BlockNodes(b), BlockNodes(o));
    CleanEachNodes(b);
    CleanEachNodes(o);
    CleanBodyStoring(CleanEach(b));
    CleanBodyStoring(CleanEach(o));
    StoringConcat(h, BlockNodes(CleanBlock(b)));
    StoringConcat(h + BlockNodes(CleanBlock(b)), BlockNodes(CleanBlock(o)));
    StoringConcat(h, BlockNodes(CleanEach(b)));
    StoringConcat(h + BlockNodes(CleanEach(b)), BlockNodes(CleanEach(o)));
  }

  lemma {:induction false} CleanAllChildren(q: seq<Node>)
    ensures Storing(AllChildren(CleanNodes(q))) == Storing(CleanNodes(AllChildren(q)))
    ensures Here(CleanNodes(q)) == Here(q)
  {
    if q != [] {
      CleanAllChildren(q[1..]);
      CleanChildren(q[0]);
      assert CleanNodes(q)[1..] == CleanNodes(q[1..]);
      CleanNodesConcat(Children(q[0]), AllChildren(q[1..]));
      StoringConcat(CleanNodes(Children(q[0])), CleanNodes(AllChildren(q[1..])));
      StoringConcat(Children(CleanNode(q[0])), AllChildren(CleanNodes(q[1..])));
    }
  }

  /** Removing redundant `pass` changes no store and no order of stores. */
  lemma {:induction false} WalkClean(q: seq<Node>)
    ensures Walk(CleanNodes(q)) == Walk(q)
    decreases QueueSize(q)
  {
    if q != [] {
      WalkByLevel(q);
      WalkByLevel(CleanNodes(q));
      var c := AllChildren(q);
      CleanAllChildren(q);
      AllChildrenSize(q);
      WalkClean(c);
      WalkBlind(AllChildren(CleanNodes(q)), CleanNodes(c));
    }
  }

  lemma WalkCleanBlock(b: seq<Stmt>)
    ensures Walk(BlockNodes(CleanBlock(b))) == Walk(BlockNodes(b))
  {
    CleanBodyStoring(CleanEach(b));
    WalkBlind(BlockNodes(CleanBlock(b)), BlockNodes(CleanEach(b)));
    CleanEachNodes(b);
    WalkClean(BlockNodes(b));
  }

  /** A docstring stores nothing, so removing it leaves the numbering alone. */
  lemma WalkStrip(b: seq<Stmt>)
    ensures Walk(BlockNodes(StripBlock(b))) == Walk(BlockNodes(b))
  {
    if b != [] && IsBareString(b[0]) {
      assert BlockNodes(b)[1..] == BlockNodes(b[1..]);
      assert Storing(BlockNodes(b)) == Storing(BlockNodes(b[1..]));
      assert BlockNodes([Pass]) == [NStmt(Pass)] && Storing([NStmt(Pass)]) == [];
      assert |b| == 1 ==> b[1..] == [];
      WalkBlind(BlockNodes(StripBlock(b)), BlockNodes(b));
    }
  }

  function RenameNode(m: map<string, string>, n: Node): Node {
    match n
    case NStore(x) => NStore(App(m, x))
    case NExpr(e) => NExpr(RenameExpr(m, e))
    case NStmt(s) => NStmt(RenameStmt(m, s))
  }

  function RenameNodes(m: map<string, string>, q: seq<Node>): seq<Node> {
    seq(|q|, i requires 0 <= i < |q| => RenameNode(m, q[i]))
  }

  lemma {:induction false} RenameExprNodes(m: map<string, string>, es: seq<Expr>)
    ensures ExprNodes(RenameExprs(m, es)) == RenameNodes(m, ExprNodes(es))
  {
    if es != [] {
      RenameExprNodes(m, es[1..]);
      assert RenameExprs(m, es)[1..] == RenameExprs(m, es[1..]);
      assert RenameNodes(m, ExprNodes(es)) == [RenameNode(m, NExpr(es[0]))] + RenameNodes(m, ExprNodes(es[1..]));
    }
  }

  lemma {:induction false} RenameBlockNodes(m: map<string, string>, b: seq<Stmt>)
    ensures BlockNodes(RenameBlock(m, b)) == RenameNodes(m, BlockNodes(b))
  {
    if b != [] {
      RenameBlockNodes(m, b[1..]);
      assert RenameBlock(m, b)[1..] == RenameBlock(m, b[1..]);
      assert RenameNodes(m, BlockNodes(b)) == [RenameNode(m, NStmt(b[0]))] + RenameNodes(m, BlockNodes(b[1..]));
    }
  }

  lemma {:induction false} RenameStoreNodes(m: map<string, string>, xs: seq<string>)
    ensures StoreNodes(RenameList(m, xs)) == RenameNodes(m, StoreNodes(xs))
  {
    if xs != [] {
      RenameStoreNodes(m, xs[1..]);
      assert RenameList(m, xs)[1..] == RenameList(m, xs[1..]);
      assert RenameNodes(m, StoreNodes(xs)) == [NStore(App(m, xs[0]))] + RenameNodes(m, StoreNodes(xs[1..]));
    }
  }

  lemma RenameNodesConcat(m: map<string, string>, a: seq<Node>, b: seq<Node>)
    ensures RenameNodes(m, a + b) == RenameNodes(m, a) + RenameNodes(m, b)
  {
  }

  lemma RenameBranch(m: map<string, string>, c: Expr, b: seq<Stmt>, o: seq<Stmt>)
    ensures [NExpr(RenameExpr(m, c))] + BlockNodes(RenameBlock(m, b)) + BlockNodes(RenameBlock(m, o))
         == RenameNodes(m, [NExpr(c)] + BlockNodes(b) + BlockNodes(o))
  {
    var h := [NExpr(c)];
    RenameBlockNodes(m, b);
    RenameBlockNodes(m, o);
    RenameNodesConcat(m, h, BlockNodes(b));
    RenameNodesConcat(m, h + BlockNodes(b), BlockNodes(o));
    assert RenameNodes(m, h) == [NExpr(RenameExpr(m, c))];
  }

  lemma RenameExprChildren(m: map<string, string>, e: Expr)
    ensures Children(NExpr(RenameExpr(m, e))) == RenameNodes(m, Children(NExpr(e)))
  {
    match e
    case Call(f, args) =>
      RenameExprNodes(m, args);
      RenameNodesConcat(m, [NExpr(f)], ExprNodes(args));
      assert RenameNodes(m, [NExpr(f)]) == [NExpr(RenameExpr(m, f))];
    case _ =>
  }

  lemma RenameStmtChildren(m: map<string, string>, s: Stmt)
    ensures Children(NStmt(RenameStmt(m, s))) == RenameNodes(m, Children(NStmt(s)))
  {
    match s
    case Assign(ts, v) =>
      RenameStoreNodes(m, ts);
      RenameNodesConcat(m, StoreNodes(ts), [NExpr(v)]);
      assert RenameNodes(m, [NExpr(v)]) == [NExpr(RenameExpr(m, v))];
    case If(c, b, o) => RenameBranch(m, c, b, o);
    case While(c, b, o) => RenameBranch(m, c, b, o);
    case _ =>
  }

  lemma RenameChildren(m: map<string, string>, n: Node)
    ensures Children(RenameNode(m, n)) == RenameNodes(m, Children(n))
  {
    match n
    case NStore(_) =>
    case NExpr(e) => RenameExprChildren(m, e);
    case NStmt(s) => RenameStmtChildren(m, s);
  }

  lemma RenameFront(m: map<string, string>, q: seq<Node>)
    requires q != []
    ensures Walk(RenameNodes(m, q))
         == (if q[0].NStore? then [App(m, q[0].id)] else []) + Walk(RenameNodes(m, q[1..] + Children(q[0])))
  {
    RenameChildren(m, q[0]);
    RenameNodesConcat(m, q[1..], Children(q[0]));
    assert RenameNodes(m, q)[1..] == RenameNodes(m, q[1..]);
    WalkStep(RenameNodes(m, q), RenameNodes(m, q[1..] + Children(q[0])));
  }

  lemma RenameWalkFront(m: map<string, string>, q: seq<Node>)
    requires q != []
    ensures RenameList(m, Walk(q))
         == (if q[0].NStore? then [App(m, q[0].id)] else []) + RenameList(m, Walk(q[1..] + Children(q[0])))
  {
    WalkStep(q, q[1..] + Children(q[0]));
    RenameListFront(m, q[0], Walk(q), Walk(q[1..] + Children(q[0])));
  }

  lemma RenameListFront(m: map<string, string>, n: Node, whole: seq<string>, rest: seq<string>)
    requires whole == (if n.NStore? then [n.id] else []) + rest
    ensures RenameList(m, whole) == (if n.NStore? then [App(m, n.id)] else []) + RenameList(m, rest)
  {
  }

  /** The walk of a renamed tree is the renamed walk. */
  lemma {:induction false} WalkRename(m: map<string, string>, q: seq<Node>)
    ensures Walk(RenameNodes(m, q)) == RenameList(m, Walk(q))
    decreases QueueSize(q)
  {
    if q != [] {
      var rest := q[1..] + Children(q[0]);
      QueueShrinks(q);
      WalkRename(m, rest);
      RenameFront(m, q);
      RenameWalkFront(m, q);
    }
  }

  lemma WalkRenameBlock(m: map<string, string>, b: seq<Stmt>)
    ensures Walk(BlockNodes(RenameBlock(m, b))) == RenameList(m, Walk(BlockNodes(b)))
  {
    RenameBlockNodes(m, b);
    WalkRename(m, BlockNodes(b));
  }
}
