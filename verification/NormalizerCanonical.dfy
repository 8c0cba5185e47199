/** The normal form of one function is canonical: it does not depend on the names of the
    locals, equal normal forms come from functions equal up to such names, and
    normalising again changes nothing exactly under two conditions on the input. */
module NormalizerCanonical {
  import opened PySyntax
  import opened Normalizer
  import opened NormalizerNames
  import opened NormalizerMeaning
  import opened NormalizerModule

  // ----- renaming twice

  lemma {:induction false} ComposeExpr(m1: map<string, string>, m2: map<string, string>,
      m3: map<string, string>, e: Expr)
    requires forall x | x in ExprNames(e) :: App(m2, App(m1, x)) == App(m3, x)
    ensures RenameExpr(m2, RenameExpr(m1, e)) == RenameExpr(m3, e)
  {
    match e
    case Walrus(_, b) => ComposeExpr(m1, m2, m3, b);
    case Attr(o, _) => ComposeExpr(m1, m2, m3, o);
    case BinOp(_, l, r) => ComposeExpr(m1, m2, m3, l); ComposeExpr(m1, m2, m3, r);
    case Call(f, args) => ComposeExpr(m1, m2, m3, f); ComposeExprs(m1, m2, m3, args);
    case _ =>
  }

  lemma {:induction false} ComposeExprs(m1: map<string, string>, m2: map<string, string>, m3: map<string, string>,
      es: seq<Expr>)
    requires forall x | x in ExprsNames(es) :: App(m2, App(m1, x)) == App(m3, x)
    ensures RenameExprs(m2, RenameExprs(m1, es)) == RenameExprs(m3, es)
  {
    if es != [] {
      ComposeExpr(m1, m2, m3, es[0]);
      ComposeExprs(m1, m2, m3, es[1..]);
      assert RenameExprs(m1, es)[1..] == RenameExprs(m1, es[1..]);
    }
  }

  lemma {:induction false} ComposeStmt(m1: map<string, string>, m2: map<string, string>,
      m3: map<string, string>, s: Stmt)
    requires forall x | x in StmtNames(s) :: App(m2, App(m1, x)) == App(m3, x)
    ensures RenameStmt(m2, RenameStmt(m1, s)) == RenameStmt(m3, s)
    decreases s, 0
  {
    match s
    case Assign(ts, v) =>
      ComposeExpr(m1, m2, m3, v);
      assert forall i | 0 <= i < |ts| :: ts[i] in Elems(ts);
      assert RenameList(m2, RenameList(m1, ts)) == RenameList(m3, ts);
    case AugAssign(_, _, v) => ComposeExpr(m1, m2, m3, v);
    case If(c, b, o) => ComposeExpr(m1, m2, m3, c); ComposeBlock(m1, m2, m3, b); ComposeBlock(m1, m2, m3, o);
    case While(c, b, o) => ComposeExpr(m1, m2, m3, c); ComposeBlock(m1, m2, m3, b); ComposeBlock(m1, m2, m3, o);
    case Return(v) => ComposeExpr(m1, m2, m3, v);
    case ExprStmt(v) => ComposeExpr(m1, m2, m3, v);
    case _ =>
  }

  lemma {:induction false} ComposeBlock(m1: map<string, string>, m2: map<string, string>, m3: map<string, string>,
      b: seq<Stmt>)
    requires forall x | x in BlockNames(b) :: App(m2, App(m1, x)) == App(m3, x)
    ensures RenameBlock(m2, RenameBlock(m1, b)) == RenameBlock(m3, b)
    decreases b, 0
  {
    if b != [] {
      ComposeStmt(m1, m2, m3, b[0]);
      ComposeBlock(m1, m2, m3, b[1..]);
      assert RenameBlock(m1, b)[1..] == RenameBlock(m1, b[1..]);
    }
  }

  // ----- cleaning commutes with renaming and is idempotent

  lemma {:induction false} DropPassRename(m: map<string, string>, b: seq<Stmt>)
    ensures DropPass(RenameBlock(m, b)) == RenameBlock(m, DropPass(b))
    ensures |RenameBlock(m, b)| == |b|
  {
    if b != [] {
      DropPassRename(m, b[1..]);
      assert RenameBlock(m, b)[1..] == RenameBlock(m, b[1..]);
      if !b[0].Pass? { assert RenameBlock(m, DropPass(b))[1..] == RenameBlock(m, DropPass(b[1..])); }
    }
  }

  lemma {:induction false} CleanRenameStmt(m: map<string, string>, s: Stmt)
    ensures CleanStmt(RenameStmt(m, s)) == RenameStmt(m, CleanStmt(s))
    decreases s, 0
  {
    match s
    case If(_, b, o) => CleanRenameBlock(m, b); CleanRenameBlock(m, o);
    case While(_, b, o) => CleanRenameBlock(m, b); CleanRenameBlock(m, o);
    case _ =>
  }

  lemma {:induction false} CleanRenameEach(m: map<string, string>, b: seq<Stmt>)
    ensures CleanEach(RenameBlock(m, b)) == RenameBlock(m, CleanEach(b))
    decreases b, 0
  {
    if b != [] {
      CleanRenameStmt(m, b[0]);
      CleanRenameEach(m, b[1..]);
      assert RenameBlock(m, b)[1..] == RenameBlock(m, b[1..]);
      assert CleanEach(b)[1..] == CleanEach(b[1..]);
    }
  }

  lemma CleanRenameBlock(m: map<string, string>, b: seq<Stmt>)
    ensures CleanBlock(RenameBlock(m, b)) == RenameBlock(m, CleanBlock(b))
    decreases b, 1
  {
    CleanRenameEach(m, b);
    DropPassRename(m, CleanEach(b));
    assert RenameBlock(m, [Pass]) == [Pass];
  }

  lemma {:induction false} DropPassFree(b: seq<Stmt>)
    ensures forall i | 0 <= i < |DropPass(b)| :: !DropPass(b)[i].Pass?
    ensures |DropPass(b)| <= |b|
  {
    if b != [] { DropPassFree(b[1..]); }
  }

  lemma {:induction false} DropPassNothing(b: seq<Stmt>)
    requires forall i | 0 <= i < |b| :: !b[i].Pass?
    ensures DropPass(b) == b
  {
    if b != [] { DropPassNothing(b[1..]); }
  }

  lemma CleanBodyTwice(b: seq<Stmt>)
    ensures CleanBody(CleanBody(b)) == CleanBody(b)
    ensures |CleanBody(b)| <= |b|
  {
    DropPassFree(b);
    DropPassNothing(DropPass(b));
  }

  lemma {:induction false} CleanEachDrop(b: seq<Stmt>)
    ensures CleanEach(DropPass(b)) == DropPass(CleanEach(b))
    ensures |CleanEach(b)| == |b|
  {
    if b != [] {
      CleanEachDrop(b[1..]);
      assert CleanEach(b)[1..] == CleanEach(b[1..]);
      if !b[0].Pass? { assert CleanEach(DropPass(b))[1..] == CleanEach(DropPass(b[1..])); }
    }
  }

  lemma CleanEachBody(b: seq<Stmt>)
    ensures CleanEach(CleanBody(b)) == CleanBody(CleanEach(b))
  {
    CleanEachDrop(b);
    assert CleanEach([Pass]) == [Pass];
  }

  lemma {:induction false} CleanStmtTwice(s: Stmt)
    ensures CleanStmt(CleanStmt(s)) == CleanStmt(s)
    decreases s, 0
  {
    match s
    case If(_, b, o) => CleanBlockTwice(b); CleanBlockTwice(o);
    case While(_, b, o) => CleanBlockTwice(b); CleanBlockTwice(o);
    case _ =>
  }

  lemma {:induction false} CleanEachTwice(b: seq<Stmt>)
    ensures CleanEach(CleanEach(b)) == CleanEach(b)
    decreases b, 0
  {
    if b != [] {
      CleanStmtTwice(b[0]);
      CleanEachTwice(b[1..]);
      assert CleanEach(b)[1..] == CleanEach(b[1..]);
    }
  }

  lemma CleanBlockTwice(b: seq<Stmt>)
    ensures CleanBlock(CleanBlock(b)) == CleanBlock(b)
    decreases b, 1
  {
    CleanEachBody(CleanEach(b));
    CleanEachTwice(b);
    CleanBodyTwice(CleanEach(b));
  }

  // ----- first stores of a renamed walk

  function Keep(prot: set<string>, xs: seq<string>): seq<string> {
    if xs == [] then []
    else (if xs[0] in prot then [] else [xs[0]]) + Keep(prot, xs[1..])
  }

  lemma {:induction false} KeepIs(prot: set<string>, xs: seq<string>)
    ensures Elems(Keep(prot, xs)) == Elems(xs) - prot
  {
    if xs != [] {
      KeepIs(prot, xs[1..]);
      assert xs == [xs[0]] + xs[1..];
      var h := if xs[0] in prot then [] else [xs[0]];
      assert Elems(h + Keep(prot, xs[1..])) == Elems(h) + Elems(Keep(prot, xs[1..]));
    }
  }

  lemma {:induction false} KeepSnoc(prot: set<string>, xs: seq<string>, x: string)
    ensures Keep(prot, xs + [x]) == Keep(prot, xs) + (if x in prot then [] else [x])
  {
    if xs == [] {
      assert xs + [x] == [x] && [x][1..] == [];
    } else {
      assert (xs + [x])[1..] == xs[1..] + [x];
      KeepSnoc(prot, xs[1..], x);
    }
  }

  lemma {:induction false} KeepAll(prot: set<string>, xs: seq<string>)
    requires forall x | x in xs :: x !in prot
    ensures Keep(prot, xs) == xs
  {
    if xs != [] { KeepAll(prot, xs[1..]); }
  }

  /** `m` fixes protected names and is one to one on the other names of `xs`. */
  ghost predicate Separates(m: map<string, string>, prot: set<string>, xs: set<string>) {
    && (forall x | x in xs && x in prot :: App(m, x) == x)
    && (forall x, y | x in xs - prot && y in xs - prot && App(m, x) == App(m, y) :: x == y)
  }

  lemma {:induction false} FirstSeenImage(m: map<string, string>, prot: set<string>, names: seq<string>,
      acc: seq<string>)
    requires Separates(m, prot, Elems(names) + Elems(acc)) && forall x | x in acc :: x !in prot
    ensures FirstSeen(RenameList(m, names), prot, Keep(prot, RenameList(m, acc)))
         == Keep(prot, RenameList(m, FirstSeen(names, prot, acc)))
    decreases |names|
  {
    hide Keep;
    if names != [] {
      var x := names[0];
      var next := if x !in prot && x !in acc then acc + [x] else acc;
      assert names == [x] + names[1..];
      assert RenameList(m, names)[1..] == RenameList(m, names[1..]);
      assert Elems(names) + Elems(acc) == Elems(names[1..]) + Elems(next) + {x};
      SeenImage(m, prot, x, acc);
      FirstSeenImage(m, prot, names[1..], next);
    }
  }

  /** Seeing `x` and then renaming is renaming and then seeing its image. */
  lemma SeenImage(m: map<string, string>, prot: set<string>, x: string, acc: seq<string>)
    requires Separates(m, prot, {x} + Elems(acc)) && forall y | y in acc :: y !in prot
    ensures var image := Keep(prot, RenameList(m, acc));
            Keep(prot, RenameList(m, if x !in prot && x !in acc then acc + [x] else acc))
            == if App(m, x) !in prot && App(m, x) !in image then image + [App(m, x)] else image
  {
    var image := Keep(prot, RenameList(m, acc));
    KeepIs(prot, RenameList(m, acc));
    assert App(m, x) in image <==> App(m, x) in Elems(image);
    if x !in prot && x !in acc {
      assert RenameList(m, acc + [x]) == RenameList(m, acc) + [App(m, x)];
      KeepSnoc(prot, RenameList(m, acc), App(m, x));
      forall i | 0 <= i < |acc|
        ensures App(m, acc[i]) != App(m, x)
      {
        assert acc[i] in Elems(acc);
      }
    } else if x in acc {
      var i :| 0 <= i < |acc| && acc[i] == x;
      assert RenameList(m, acc)[i] == App(m, x);
    }
  }

  // ----- the names of locals do not matter

  /** `g` is `f` with its renamed locals given other names by `rho`. */
  ghost predicate Variant(prot: set<string>, f: Fun, g: Fun, rho: map<string, string>) {
    && g == f.(body := RenameBlock(rho, f.body))
    && rho.Keys == Elems(LocalOrder(prot, f))
    && (forall x, y | x in FunNames(f) && y in FunNames(f) && App(rho, x) == App(rho, y) :: x == y)
    && (forall x | x in rho :: rho[x] !in prot && rho[x] !in f.params)
  }

  lemma WalkNamed(f: Fun)
    ensures Elems(Walk(BlockNodes(f.body))) <= FunNames(f)
  {
    StoresAreWalk(f.body);
    BlockStoresNamed(f.body);
  }

  lemma VariantOrder(prot: set<string>, f: Fun, g: Fun, rho: map<string, string>)
    requires Variant(prot, f, g, rho)
    ensures LocalOrder(prot, g) == RenameList(rho, LocalOrder(prot, f))
  {
    hide FirstSeen, Walk, BlockNodes, RenameBlock;
    var all := Elems(f.params) + prot;
    var walk := Walk(BlockNodes(f.body));
    LocalOrderIs(prot, f);
    WalkNamed(f);
    WalkRenameBlock(rho, f.body);
    FirstSeenImage(rho, all, walk, []);
    var order := RenameList(rho, LocalOrder(prot, f));
    assert forall i | 0 <= i < |LocalOrder(prot, f)| :: LocalOrder(prot, f)[i] in Elems(LocalOrder(prot, f));
    KeepAll(all, order);
    assert Keep(all, RenameList(rho, [])) == [];
  }

  lemma VariantMaps(prot: set<string>, f: Fun, g: Fun, rho: map<string, string>, x: string)
    requires Variant(prot, f, g, rho) && x in FunNames(f)
    ensures App(FunMap(prot, g), App(rho, x)) == App(FunMap(prot, f), x)
  {
    hide LocalOrder, Walk, FunMap;
    LocalOrderIs(prot, f);
    LocalOrderIs(prot, g);
    VariantOrder(prot, f, g, rho);
    WalkNamed(f);
    StoresAreWalk(f.body);
    RenumberedApp(FunNames(f), LocalOrder(prot, f), rho, FunMap(prot, f), FunMap(prot, g), x);
  }

  /** Numbering the images of a list of names numbers each name as its image. */
  lemma RenumberedApp(names: set<string>, order: seq<string>, rho: map<string, string>,
      mf: map<string, string>, mg: map<string, string>, x: string)
    requires mf.Keys == rho.Keys == Elems(order) <= names && mg.Keys == Elems(RenameList(rho, order))
    requires forall i | 0 <= i < |order| :: mf[order[i]] == VName(i)
    requires forall i | 0 <= i < |order| :: mg[RenameList(rho, order)[i]] == VName(i)
    requires forall y, z | y in names && z in names && App(rho, y) == App(rho, z) :: y == z
    requires x in names
    ensures App(mg, App(rho, x)) == App(mf, x)
  {
    hide VName;
    if x in rho {
      var i :| 0 <= i < |order| && order[i] == x;
      assert RenameList(rho, order)[i] == rho[x];
    } else {
      forall i | 0 <= i < |order|
        ensures RenameList(rho, order)[i] != x
      {
        assert order[i] in Elems(order);
        assert App(rho, x) == x;
      }
    }
  }

  lemma {:induction false} RenameStrip(m: map<string, string>, b: seq<Stmt>)
    ensures StripBlock(RenameBlock(m, b)) == RenameBlock(m, StripBlock(b))
    ensures |RenameBlock(m, b)| == |b|
  {
    DropPassRename(m, b);
    if b != [] {
      assert RenameBlock(m, b)[1..] == RenameBlock(m, b[1..]);
      assert RenameBlock(m, [Pass]) == [Pass];
    }
  }

  lemma StripVariant(prot: set<string>, f: Fun, g: Fun, rho: map<string, string>)
    requires Variant(prot, f, g, rho)
    ensures Variant(prot, StripFun(f), StripFun(g), rho)
  {
    StripNames(prot, f);
    RenameStrip(rho, f.body);
  }

  lemma RenamedAlike(prot: set<string>, f: Fun, g: Fun, rho: map<string, string>)
    requires Variant(prot, f, g, rho)
    ensures RenameFun(prot, g) == RenameFun(prot, f)
  {
    forall x | x in BlockNames(f.body)
      ensures App(FunMap(prot, g), App(rho, x)) == App(FunMap(prot, f), x)
    {
      VariantMaps(prot, f, g, rho, x);
    }
    ComposeBlock(rho, FunMap(prot, g), FunMap(prot, f), f.body);
  }

  /** Functions that differ only by an injective renaming of their locals have the same
      normal form. */
  lemma VariantsNormalizeAlike(prot: set<string>, f: Fun, g: Fun, rho: map<string, string>)
    requires Variant(prot, f, g, rho)
    ensures NormFun(prot, g) == NormFun(prot, f)
  {
    StripVariant(prot, f, g, rho);
    RenamedAlike(prot, StripFun(f), StripFun(g), rho);
  }

  /** What a function is apart from its docstring and redundant `pass`. */
  function Skeleton(f: Fun): Fun {
    CleanFun(StripFun(f))
  }

  /** The normal form depends on nothing else: adding or removing a docstring or redundant
      `pass`, at any depth, does not show. */
  lemma SkeletonDecides(prot: set<string>, f: Fun, g: Fun)
    requires Skeleton(f) == Skeleton(g)
    ensures NormFun(prot, f) == NormFun(prot, g)
  {
    NormIsRenamedSkeleton(prot, f);
    NormIsRenamedSkeleton(prot, g);
  }

  /** Cleaning first and renaming last gives the same normal form. */
  lemma NormIsRenamedSkeleton(prot: set<string>, f: Fun)
    ensures LocalOrder(prot, StripFun(f)) == LocalOrder(prot, Skeleton(f))
    ensures NormFun(prot, f) == RenameFun(prot, Skeleton(f))
  {
    WalkCleanBlock(StripFun(f).body);
    CleanRenameBlock(FunMap(prot, StripFun(f)), StripFun(f).body);
  }

  /** Undoes the renaming of a capture-free function. */
  ghost function Undo(prot: set<string>, f: Fun): map<string, string> {
    var order := LocalOrder(prot, f);
    map y | Generated(y, |order|) && y in GeneratedNames(|order|) :: order[IndexOf(y, |order|)]
  }

  function GeneratedNames(n: nat): set<string> {
    set i | 0 <= i < n :: VName(i)
  }

  ghost function IndexOf(y: string, n: nat): (i: nat)
    requires Generated(y, n)
    ensures i < n && VName(i) == y
  {
    var i: nat :| i < n && VName(i) == y;
    i
  }

  lemma UndoRenaming(prot: set<string>, f: Fun, x: string)
    requires CaptureFree(prot, f) && x in FunNames(f)
    ensures App(Undo(prot, f), App(FunMap(prot, f), x)) == x
  {
    var order := LocalOrder(prot, f);
    LocalOrderIs(prot, f);
    if x in FunMap(prot, f) {
      var i :| 0 <= i < |order| && order[i] == x;
      assert FunMap(prot, f)[x] == VName(i);
      assert Generated(VName(i), |order|);
      VNameInjective(i, IndexOf(VName(i), |order|));
    }
  }

  function Image(m: map<string, string>, xs: set<string>): set<string> {
    set x | x in xs :: App(m, x)
  }

  lemma ImageUnion(m: map<string, string>, a: set<string>, b: set<string>)
    ensures Image(m, a + b) == Image(m, a) + Image(m, b)
  {
  }

  lemma {:induction false} ImageExpr(m: map<string, string>, e: Expr)
    ensures ExprNames(RenameExpr(m, e)) == Image(m, ExprNames(e))
  {
    match e
    case Walrus(_, b) => ImageExpr(m, b);
    case Attr(o, _) => ImageExpr(m, o);
    case BinOp(_, l, r) => ImageExpr(m, l); ImageExpr(m, r);
    case Call(f, args) => ImageExpr(m, f); ImageExprs(m, args);
    case _ =>
  }

  lemma {:induction false} ImageExprs(m: map<string, string>, es: seq<Expr>)
    ensures ExprsNames(RenameExprs(m, es)) == Image(m, ExprsNames(es))
  {
    if es != [] {
      ImageExpr(m, es[0]);
      ImageExprs(m, es[1..]);
      assert RenameExprs(m, es)[1..] == RenameExprs(m, es[1..]);
    }
  }

  lemma ImageList(m: map<string, string>, xs: seq<string>)
    ensures Elems(RenameList(m, xs)) == Image(m, Elems(xs))
  {
    forall y | y in Image(m, Elems(xs))
      ensures y in RenameList(m, xs)
    {
      var x :| x in Elems(xs) && App(m, x) == y;
      var i :| 0 <= i < |xs| && xs[i] == x;
      assert RenameList(m, xs)[i] == y;
    }
    forall i | 0 <= i < |xs|
      ensures RenameList(m, xs)[i] in Image(m, Elems(xs))
    {
      assert xs[i] in Elems(xs);
    }
  }

  lemma {:induction false} ImageStmt(m: map<string, string>, s: Stmt)
    ensures StmtNames(RenameStmt(m, s)) == Image(m, StmtNames(s))
    decreases s, 1
  {
    hide RenameExpr, ExprNames, RenameBlock, BlockNames, RenameList, Elems;
    match s
    case Assign(ts, v) =>
      ImageList(m, ts);
      ImageExpr(m, v);
      ImageUnion(m, Elems(ts), ExprNames(v));
    case AugAssign(_, _, v) => ImageExpr(m, v);
    case If(c, b, o) => ImageBranches(m, c, b, o, s);
    case While(c, b, o) => ImageBranches(m, c, b, o, s);
    case Return(v) => ImageExpr(m, v);
    case ExprStmt(v) => ImageExpr(m, v);
    case _ =>
  }

  lemma {:induction false} ImageBranches(m: map<string, string>, c: Expr, b: seq<Stmt>, o: seq<Stmt>, s: Stmt)
    requires s == If(c, b, o) || s == While(c, b, o)
    ensures ExprNames(RenameExpr(m, c)) + BlockNames(RenameBlock(m, b)) + BlockNames(RenameBlock(m, o))
         == Image(m, ExprNames(c) + BlockNames(b) + BlockNames(o))
    decreases s, 0
  {
    ImageExpr(m, c);
    ImageBlock(m, b);
    ImageBlock(m, o);
    hide Image, ExprNames, BlockNames, RenameExpr, RenameBlock;
    ImageUnion(m, ExprNames(c), BlockNames(b));
    ImageUnion(m, ExprNames(c) + BlockNames(b), BlockNames(o));
  }

  lemma {:induction false} ImageBlock(m: map<string, string>, b: seq<Stmt>)
    ensures BlockNames(RenameBlock(m, b)) == Image(m, BlockNames(b))
    decreases b, 0
  {
    if b != [] {
      ImageStmt(m, b[0]);
      ImageBlock(m, b[1..]);
      assert RenameBlock(m, b)[1..] == RenameBlock(m, b[1..]);
    }
  }

  lemma {:induction false} CleanNames(b: seq<Stmt>)
    ensures BlockNames(CleanBlock(b)) <= BlockNames(b)
    decreases b, 1
  {
    CleanEachNames(b);
    DropPassNames(CleanEach(b));
    assert BlockNames([Pass]) == {};
  }

  lemma {:induction false} DropPassNames(b: seq<Stmt>)
    ensures BlockNames(DropPass(b)) == BlockNames(b)
  {
    if b != [] {
      DropPassNames(b[1..]);
      if !b[0].Pass? { assert DropPass(b)[1..] == DropPass(b[1..]); }
    }
  }

  lemma {:induction false} CleanEachNames(b: seq<Stmt>)
    ensures BlockNames(CleanEach(b)) <= BlockNames(b)
    decreases b, 0
  {
    if b != [] {
      CleanEachNames(b[1..]);
      assert CleanEach(b)[1..] == CleanEach(b[1..]);
      match b[0] {
        case If(_, c, o) => CleanNames(c); CleanNames(o);
        case While(_, c, o) => CleanNames(c); CleanNames(o);
        case _ =>
      }
    }
  }

  lemma SkeletonRenamed(prot: set<string>, f: Fun)
    ensures NormFun(prot, f).body == RenameBlock(FunMap(prot, f), Skeleton(f).body)
    ensures BlockNames(Skeleton(f).body) <= FunNames(f)
  {
    StripNames(prot, f);
    CleanRenameBlock(FunMap(prot, f), StripFun(f).body);
    CleanNames(StripFun(f).body);
  }

  /** Conversely, capture-free functions with the same normal form are equal, docstring
      and redundant `pass` aside, up to a renaming that is one to one on the names of
      the body, fixes the parameters, and moves a name only if the normaliser renames
      that name in `f` or its image in `g`. */
  lemma EqualNormalFormsAreVariants(prot: set<string>, f: Fun, g: Fun) returns (rho: map<string, string>)
    requires CaptureFree(prot, f) && CaptureFree(prot, g)
    requires NormFun(prot, f) == NormFun(prot, g)
    ensures Skeleton(g) == Skeleton(f).(body := RenameBlock(rho, Skeleton(f).body))
    ensures forall x, y | x in BlockNames(Skeleton(f).body) && y in BlockNames(Skeleton(f).body)
            && App(rho, x) == App(rho, y) :: x == y
    ensures forall x | x in f.params :: App(rho, x) == x
    ensures forall x | x in BlockNames(Skeleton(f).body) && App(rho, x) != x ::
            x in FunMap(prot, f) || App(rho, x) in FunMap(prot, g)
    ensures forall x | x in BlockNames(Skeleton(f).body) ::
            App(FunMap(prot, g), App(rho, x)) == App(FunMap(prot, f), x)
  {
    var mf, mg, back := FunMap(prot, f), FunMap(prot, g), Undo(prot, g);
    var fb, gb := Skeleton(f).body, Skeleton(g).body;
    SkeletonRenamed(prot, f);
    SkeletonRenamed(prot, g);
    rho := map x | x in FunNames(f) :: App(back, App(mf, x));
    forall x | x in BlockNames(gb)
      ensures App(back, App(mg, x)) == App(map[], x)
    {
      UndoRenaming(prot, g, x);
    }
    ComposeBlock(mg, back, map[], gb);
    RenameBlockId(map[], gb);
    ComposeBlock(mf, back, rho, fb);
    forall x | x in BlockNames(fb)
      ensures App(rho, x) in BlockNames(gb) && App(mg, App(rho, x)) == App(mf, x)
    {
      Counterpart(prot, f, g, x);
    }
    forall x, y | x in BlockNames(fb) && y in BlockNames(fb) && App(rho, x) == App(rho, y)
      ensures x == y
    {
      InjectiveAt(prot, f, x, y);
    }
    forall x | x in f.params
      ensures App(rho, x) == x
    {
      LocalOrderIs(prot, f);
      LocalOrderIs(prot, g);
      assert x in FunNames(g) && App(mg, x) == x;
      UndoRenaming(prot, g, x);
    }
  }

  /** Each name of the body of `f` has a counterpart in `g` that normalises alike. */
  lemma Counterpart(prot: set<string>, f: Fun, g: Fun, x: string)
    requires CaptureFree(prot, f) && CaptureFree(prot, g)
    requires NormFun(prot, f) == NormFun(prot, g) && x in BlockNames(Skeleton(f).body)
    ensures var y := App(Undo(prot, g), App(FunMap(prot, f), x));
            y in BlockNames(Skeleton(g).body) && App(FunMap(prot, g), y) == App(FunMap(prot, f), x)
  {
    var mf, mg := FunMap(prot, f), FunMap(prot, g);
    SkeletonRenamed(prot, f);
    SkeletonRenamed(prot, g);
    ImageBlock(mf, Skeleton(f).body);
    ImageBlock(mg, Skeleton(g).body);
    assert App(mf, x) in Image(mg, BlockNames(Skeleton(g).body));
    var y :| y in BlockNames(Skeleton(g).body) && App(mg, y) == App(mf, x);
    UndoRenaming(prot, g, y);
  }

  // ----- normalising twice

  lemma NormWalk(prot: set<string>, f: Fun)
    ensures Walk(BlockNodes(NormFun(prot, f).body)) == RenameList(FunMap(prot, f), Walk(BlockNodes(f.body)))
  {
    StripNames(prot, f);
    WalkStrip(f.body);
    WalkRenameBlock(FunMap(prot, f), StripBlock(f.body));
    WalkCleanBlock(RenameBlock(FunMap(prot, f), StripBlock(f.body)));
  }

  function GeneratedSeq(n: nat): seq<string> {
    seq(n, i requires 0 <= i < n => VName(i))
  }

  /** The names collected by a second pass are the generated ones that are neither
      protected nor parameters. */
  lemma SecondOrder(prot: set<string>, f: Fun)
    ensures LocalOrder(prot, NormFun(prot, f)) == Keep(Elems(f.params) + prot, GeneratedSeq(|LocalOrder(prot, f)|))
  {
    var all, m, order := Elems(f.params) + prot, FunMap(prot, f), LocalOrder(prot, f);
    var walk := Walk(BlockNodes(f.body));
    NormWalk(prot, f);
    MapSeparates(prot, f);
    assert Keep(all, RenameList(m, [])) == [];
    FirstSeenImage(m, all, walk, []);
    OrderRenamed(prot, f);
  }

  lemma OrderRenamed(prot: set<string>, f: Fun)
    ensures RenameList(FunMap(prot, f), LocalOrder(prot, f)) == GeneratedSeq(|LocalOrder(prot, f)|)
  {
    var order := LocalOrder(prot, f);
    LocalOrderIs(prot, f);
    assert forall i | 0 <= i < |order| :: order[i] in Elems(order);
  }

  lemma MapSeparates(prot: set<string>, f: Fun)
    ensures Separates(FunMap(prot, f), Elems(f.params) + prot, Elems(Walk(BlockNodes(f.body))) + Elems([]))
  {
    var all, m, order := Elems(f.params) + prot, FunMap(prot, f), LocalOrder(prot, f);
    var walk := Walk(BlockNodes(f.body));
    LocalOrderIs(prot, f);
    StoresAreWalk(f.body);
    forall x, y | x in Elems(walk) - all && y in Elems(walk) - all && App(m, x) == App(m, y)
      ensures x == y
    {
      assert x in Elems(order) && y in Elems(order);
      var i :| 0 <= i < |order| && order[i] == x;
      var j :| 0 <= j < |order| && order[j] == y;
      VNameInjective(i, j);
    }
  }

  /** The generated names that are protected or parameters come last, if any. */
  ghost predicate ReservedLast(prot: set<string>, f: Fun) {
    var all := Elems(f.params) + prot;
    forall i, j | 0 <= i < j < |LocalOrder(prot, f)| && VName(i) in all :: VName(j) in all
  }

  ghost predicate Prefix(ks: seq<string>) {
    forall i | 0 <= i < |ks| :: ks[i] == VName(i)
  }

  ghost predicate Suffix(all: set<string>, n: nat) {
    forall i, j | 0 <= i < j < n && VName(i) in all :: VName(j) in all
  }

  lemma {:induction false} KeepLength(all: set<string>, xs: seq<string>)
    ensures |Keep(all, xs)| <= |xs|
    ensures |Keep(all, xs)| == |xs| <==> forall i | 0 <= i < |xs| :: xs[i] !in all
  {
    if xs != [] {
      KeepLength(all, xs[1..]);
      assert (forall i | 0 <= i < |xs| :: xs[i] !in all)
          <==> xs[0] !in all && (forall i | 0 <= i < |xs[1..]| :: xs[1..][i] !in all);
    }
  }

  lemma {:induction false} KeepGenerated(all: set<string>, n: nat)
    ensures Prefix(Keep(all, GeneratedSeq(n))) <==> Suffix(all, n)
  {
    hide Prefix, Suffix, Keep, VName;
    if n == 0 {
      KeepNone(all);
    } else {
      KeepGenerated(all, n - 1);
      var before, x := Keep(all, GeneratedSeq(n - 1)), VName(n - 1);
      assert GeneratedSeq(n) == GeneratedSeq(n - 1) + [x];
      KeepSnoc(all, GeneratedSeq(n - 1), x);
      if x in all {
        assert before + [] == before;
        SuffixReserved(all, n);
      } else {
        PrefixGrows(all, n, before);
        NoneReserved(all, n);
      }
    }
  }

  lemma KeepNone(all: set<string>)
    ensures Prefix(Keep(all, GeneratedSeq(0))) && Suffix(all, 0)
  {
  }

  lemma SuffixReserved(all: set<string>, n: nat)
    requires n > 0 && VName(n - 1) in all
    ensures Suffix(all, n) <==> Suffix(all, n - 1)
  {
  }

  lemma PrefixGrows(all: set<string>, n: nat, before: seq<string>)
    requires n > 0 && VName(n - 1) !in all && before == Keep(all, GeneratedSeq(n - 1))
    ensures Prefix(before + [VName(n - 1)]) <==> Prefix(before) && forall i: nat | i < n - 1 :: VName(i) !in all
  {
    var x := VName(n - 1);
    KeepLength(all, GeneratedSeq(n - 1));
    assert forall i | 0 <= i < n - 1 :: GeneratedSeq(n - 1)[i] == VName(i);
    VNameInjective(|before|, n - 1);
    assert (before + [x])[|before|] == x;
    assert forall i | 0 <= i < |before| :: (before + [x])[i] == before[i];
  }

  lemma NoneReserved(all: set<string>, n: nat)
    requires n > 0 && VName(n - 1) !in all
    ensures Suffix(all, n) <==> forall i: nat | i < n - 1 :: VName(i) !in all
    ensures Suffix(all, n) ==> Suffix(all, n - 1)
  {
    var last := VName(n - 1);
    if Suffix(all, n) {
      forall i: nat | i < n - 1
        ensures VName(i) !in all
      {
        assert VName(i) in all ==> last in all;
      }
    }
  }

  /** The first statement of `b` that is not a `pass` is a bare string. */
  predicate BareFirst(b: seq<Stmt>) {
    b != [] && (if b[0].Pass? then BareFirst(b[1..]) else IsBareString(b[0]))
  }

  lemma {:induction false} BareFirstDrop(b: seq<Stmt>)
    ensures BareFirst(b) <==> DropPass(b) != [] && IsBareString(DropPass(b)[0])
  {
    if b != [] { BareFirstDrop(b[1..]); }
  }

  lemma {:induction false} BareFirstKept(m: map<string, string>, b: seq<Stmt>)
    ensures BareFirst(CleanEach(RenameBlock(m, b))) <==> BareFirst(b)
    ensures |CleanEach(RenameBlock(m, b))| == |b|
  {
    if b != [] {
      BareFirstKept(m, b[1..]);
      assert RenameBlock(m, b)[1..] == RenameBlock(m, b[1..]);
      assert CleanEach(RenameBlock(m, b))[1..] == CleanEach(RenameBlock(m, b[1..]));
    }
  }

  lemma NormStartsBare(prot: set<string>, f: Fun)
    ensures var b := NormFun(prot, f).body;
            (b != [] && IsBareString(b[0])) <==> BareFirst(StripBlock(f.body))
  {
    var m := FunMap(prot, StripFun(f));
    var b := CleanEach(RenameBlock(m, StripBlock(f.body)));
    BareFirstKept(m, StripBlock(f.body));
    BareFirstDrop(b);
    if |b| == 1 { assert b[1..] == []; }
  }

  /** A second normalisation leaves a function alone exactly when its body, docstring
      aside, does not begin with a bare string, and no reserved name sits among the
      generated ones except at the end. */
  ghost predicate StableFun(prot: set<string>, f: Fun) {
    !BareFirst(StripBlock(f.body)) && ReservedLast(prot, f)
  }

  lemma IdentityIffPrefix(prot: set<string>, g: Fun)
    ensures RenameBlock(FunMap(prot, g), g.body) == g.body <==> Prefix(LocalOrder(prot, g))
  {
    var m, order := FunMap(prot, g), LocalOrder(prot, g);
    LocalOrderIs(prot, g);
    assert forall i | 0 <= i < |order| :: order[i] in Elems(order);
    if Prefix(order) {
      assert forall x | x in BlockNames(g.body) :: App(m, x) == x;
      RenameBlockId(m, g.body);
    }
    if RenameBlock(m, g.body) == g.body {
      WalkRenameBlock(m, g.body);
      StoresAreWalk(g.body);
      var walk := Walk(BlockNodes(g.body));
      forall i | 0 <= i < |order|
        ensures order[i] == VName(i)
      {
        var k :| 0 <= k < |walk| && walk[k] == order[i];
        assert RenameList(m, walk)[k] == walk[k];
      }
    }
  }

  lemma NormFunLength(prot: set<string>, f: Fun)
    ensures |NormFun(prot, f).body| <= |StripBlock(f.body)|
  {
    var m := FunMap(prot, StripFun(f));
    BareFirstKept(m, StripBlock(f.body));
    CleanBodyTwice(CleanEach(RenameBlock(m, StripBlock(f.body))));
  }

  lemma NormPass(m: map<string, string>)
    ensures CleanBlock(RenameBlock(m, [Pass])) == [Pass]
  {
    assert RenameBlock(m, [Pass]) == [Pass];
    assert CleanEach([Pass]) == [Pass];
  }

  lemma FunStableIff(prot: set<string>, f: Fun)
    ensures NormFun(prot, NormFun(prot, f)) == NormFun(prot, f) <==> StableFun(prot, f)
  {
    var g := NormFun(prot, f);
    var b := g.body;
    NormStartsBare(prot, f);
    if BareFirst(StripBlock(f.body)) {
      NormFunLength(prot, g);
      if |b| == 1 {
        NormPass(FunMap(prot, StripFun(g)));
      }
    } else {
      var m := FunMap(prot, g);
      assert StripFun(g) == g;
      CleanRenameBlock(m, b);
      CleanBlockTwice(RenameBlock(FunMap(prot, StripFun(f)), StripBlock(f.body)));
      assert NormFun(prot, g).body == RenameBlock(m, b);
      IdentityIffPrefix(prot, g);
      SecondOrder(prot, f);
      KeepGenerated(Elems(f.params) + prot, |LocalOrder(prot, f)|);
    }
  }
}
