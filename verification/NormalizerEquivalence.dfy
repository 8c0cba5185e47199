/** What structural equivalence of whole modules comes to: equal module skeletons, up to a
    one-to-one renaming of the locals of each function. */
module NormalizerEquivalence {
  import opened PySyntax
  import opened Normalizer
  import opened NormalizerNames
  import opened NormalizerMeaning
  import opened NormalizerModule
  import opened NormalizerCanonical
  import opened NormalizerIdempotent
  import opened NormalizerKept

  function SkeletonTop(t: Top): Top {
    match t
    case Def(f) => Def(Skeleton(f))
    case Plain(s) => Plain(CleanStmt(s))
    case _ => t
  }

  function SkeletonEach(ts: seq<Top>): (us: seq<Top>)
    ensures |us| == |ts| && forall i | 0 <= i < |ts| :: us[i] == SkeletonTop(ts[i])
  {
    if ts == [] then [] else [SkeletonTop(ts[0])] + SkeletonEach(ts[1..])
  }

  /** What a module is apart from docstrings, redundant `pass` and the order of the imports
      in each run. */
  function ModuleSkeleton(m: Module): seq<Top> {
    CleanTopBody(SkeletonEach(SortImports(StripTops(m.tops))))
  }

  function RenameWith(prot: set<string>): Fun -> Fun {
    f => RenameFun(prot, f)
  }

  lemma FinishRenames(prot: set<string>, ts: seq<Top>)
    ensures Finish(prot, ts) == MapFuns(RenameWith(prot), SkeletonEach(ts))
  {
    FinishAt(prot, ts);
    FunsMap(RenameWith(prot), SkeletonEach(ts));
    forall i | 0 <= i < |ts|
      ensures Finish(prot, ts)[i] == MapFuns(RenameWith(prot), SkeletonEach(ts))[i]
    {
      if ts[i].Def? { NormIsRenamedSkeleton(prot, ts[i].fun); }
    }
  }

  lemma {:induction false} DropPassMap(g: Fun -> Fun, ts: seq<Top>)
    ensures DropPassTops(MapFuns(g, ts)) == MapFuns(g, DropPassTops(ts))
    ensures |MapFuns(g, ts)| == |ts|
  {
    if ts != [] {
      DropPassMap(g, ts[1..]);
      assert MapFuns(g, ts)[1..] == MapFuns(g, ts[1..]);
      if !IsPassTop(ts[0]) { assert DropPassTops(ts)[1..] == DropPassTops(ts[1..]); }
    }
  }

  lemma CleanBodyMap(g: Fun -> Fun, ts: seq<Top>)
    ensures CleanTopBody(MapFuns(g, ts)) == MapFuns(g, CleanTopBody(ts))
  {
    DropPassMap(g, ts);
    FunsMap(g, DropPassTops(ts));
    assert [Plain(Pass)][1..] == [];
    assert MapFuns(g, []) == [] && MapFuns(g, [Plain(Pass)]) == [Plain(Pass)];
  }

  /** A normal form is the skeleton of its module with the locals of each function
      numbered. */
  lemma NormalFormIsRenamedSkeleton(m: Module)
    ensures Normalize(m).tops == MapFuns(RenameWith(Protected(m.tops)), ModuleSkeleton(m))
  {
    var s := SortImports(StripTops(m.tops));
    NormalizeIs(m);
    FinishRenames(Protected(m.tops), s);
    CleanBodyMap(RenameWith(Protected(m.tops)), SkeletonEach(s));
  }

  lemma SkeletonProtects(m: Module)
    ensures Protected(ModuleSkeleton(m)) == Protected(m.tops)
  {
    NormalForm(m);
    NormalFormIsRenamedSkeleton(m);
    ProtectedMap(RenameWith(Protected(m.tops)), ModuleSkeleton(m));
  }

  // ----- equal skeletons, equal normal forms

  /** `g` is `f` with its locals renamed one to one, to names that are neither parameters nor
      bound at the top level. */
  ghost predicate LocalsRenamed(ts: seq<Top>, f: Fun, g: Fun, rho: map<string, string>) {
    && g == f.(body := RenameBlock(rho, f.body))
    && (forall x :: x in rho <==> Local(ts, f, x))
    && (forall x, y | x in FunNames(f) && y in FunNames(f) && App(rho, x) == App(rho, y) :: x == y)
    && (forall x | x in rho :: !BoundAtTop(ts, rho[x]) && rho[x] !in f.params)
  }

  lemma VariantIff(ts: seq<Top>, f: Fun, g: Fun, rho: map<string, string>)
    ensures Variant(Protected(ts), f, g, rho) <==> LocalsRenamed(ts, f, g, rho)
  {
    LocalOrderIs(Protected(ts), f);
    forall x
      ensures x in Protected(ts) <==> BoundAtTop(ts, x)
      ensures x in Elems(LocalOrder(Protected(ts), f)) <==> Local(ts, f, x)
    {
      ProtectedIff(ts, x);
      LocalIff(ts, f, x);
    }
    hide BoundAtTop, Local, RenameBlock, LocalOrder, FunNames;
  }

  /** Skeletons that differ only by an injective renaming of each function's locals. */
  ghost predicate SkeletonVariants(ts: seq<Top>, a: seq<Top>, b: seq<Top>, rhos: seq<map<string, string>>) {
    && |b| == |a| == |rhos|
    && forall i | 0 <= i < |a| ::
         if a[i].Def? then b[i].Def? && LocalsRenamed(ts, a[i].fun, b[i].fun, rhos[i]) else b[i] == a[i]
  }

  /** Modules that are the same but for docstrings, redundant `pass`, the order of imports
      with different keys in a run and the names of locals normalise to the same tree. */
  lemma VariantSkeletonsNormalizeAlike(a: Module, b: Module, rhos: seq<map<string, string>>)
    requires SkeletonVariants(a.tops, ModuleSkeleton(a), ModuleSkeleton(b), rhos)
    ensures StructurallyEquivalent(a, b)
  {
    hide ModuleSkeleton;
    var prot, sa, sb := Protected(a.tops), ModuleSkeleton(a), ModuleSkeleton(b);
    SkeletonProtects(a);
    SkeletonProtects(b);
    SameProtected(sa, sb);
    NormalFormIsRenamedSkeleton(a);
    NormalFormIsRenamedSkeleton(b);
    forall i | 0 <= i < |sa| && sa[i].Def?
      ensures RenameWith(prot)(sa[i].fun) == RenameWith(prot)(sb[i].fun)
    {
      VariantIff(a.tops, sa[i].fun, sb[i].fun, rhos[i]);
      RenamedAlike(prot, sa[i].fun, sb[i].fun, rhos[i]);
    }
    MapFunsAlike(RenameWith(prot), sa, sb);
  }

  // ----- equal normal forms, equal skeletons up to names

  lemma {:induction false} DefsAreFuns(ts: seq<Top>, i: nat)
    requires i < |ts| && ts[i].Def?
    ensures ts[i].fun in Funs(ts)
  {
    if i > 0 { DefsAreFuns(ts[1..], i - 1); }
  }

  /** The functions of a module skeleton are skeletons of functions of the module. */
  lemma SkeletonOf(m: Module, i: nat) returns (f: Fun)
    requires i < |ModuleSkeleton(m)| && ModuleSkeleton(m)[i].Def?
    ensures f in Funs(m.tops) && ModuleSkeleton(m)[i].fun == Skeleton(f)
  {
    hide Skeleton, Funs;
    var s := SortImports(StripTops(m.tops));
    CleanTopBodyFacts(SkeletonEach(s));
    SortImportsTables(StripTops(m.tops));
    FunsStripTops(m.tops);
    assert ModuleSkeleton(m)[i] in ModuleSkeleton(m);
    var j :| 0 <= j < |s| && SkeletonTop(s[j]) == ModuleSkeleton(m)[i];
    DefsAreFuns(s, j);
    f := s[j].fun;
  }

  /** `g` is `f` with the names of its body changed one to one: parameters stay, and a name
      moves only if it, or what it becomes, is in the rename map. */
  ghost predicate MapRenamed(prot: set<string>, f: Fun, g: Fun, rho: map<string, string>) {
    && g == f.(body := RenameBlock(rho, f.body))
    && (forall x, y | x in BlockNames(f.body) && y in BlockNames(f.body) && App(rho, x) == App(rho, y) :: x == y)
    && (forall x | x in f.params :: App(rho, x) == x)
    && (forall x | x in BlockNames(f.body) && App(rho, x) != x ::
        x in FunMap(prot, f) || App(rho, x) in FunMap(prot, g))
  }

  /** The same said of two modules: a name moves only if it is a local of the one function or
      becomes a local of the other. */
  ghost predicate Renamed(ts: seq<Top>, us: seq<Top>, f: Fun, g: Fun, rho: map<string, string>) {
    && g == f.(body := RenameBlock(rho, f.body))
    && (forall x, y | x in BlockNames(f.body) && y in BlockNames(f.body) && App(rho, x) == App(rho, y) :: x == y)
    && (forall x | x in f.params :: App(rho, x) == x)
    && (forall x | x in BlockNames(f.body) && App(rho, x) != x :: Local(ts, f, x) || Local(us, g, App(rho, x)))
  }

  ghost predicate SameButNames(ts: seq<Top>, us: seq<Top>, t: Top, u: Top) {
    if t.Def? then u.Def? && exists rho :: Renamed(ts, us, t.fun, u.fun, rho) else u == t
  }

  lemma SkeletonLocals(prot: set<string>, f: Fun)
    ensures FunMap(prot, Skeleton(f)) == FunMap(prot, f)
  {
    NormIsRenamedSkeleton(prot, f);
    StripNames(prot, f);
  }

  lemma AlikeFuns(ts: seq<Top>, us: seq<Top>, f: Fun, g: Fun)
    requires Protected(us) == Protected(ts)
    requires CaptureFree(Protected(ts), f) && CaptureFree(Protected(ts), g)
    requires RenameFun(Protected(ts), Skeleton(f)) == RenameFun(Protected(ts), Skeleton(g))
    ensures exists rho :: Renamed(ts, us, Skeleton(f), Skeleton(g), rho)
  {
    var prot := Protected(ts);
    NormIsRenamedSkeleton(prot, f);
    NormIsRenamedSkeleton(prot, g);
    var rho := EqualNormalFormsAreVariants(prot, f, g);
    SkeletonLocals(prot, f);
    SkeletonLocals(prot, g);
    hide FunMap;
    assert MapRenamed(prot, Skeleton(f), Skeleton(g), rho);
    forall x
      ensures x in FunMap(prot, Skeleton(f)) <==> Local(ts, Skeleton(f), x)
      ensures x in FunMap(prot, Skeleton(g)) <==> Local(us, Skeleton(g), x)
    {
      LocalIff(ts, Skeleton(f), x);
      LocalIff(us, Skeleton(g), x);
    }
    hide Local, Skeleton, RenameBlock, CaptureFree;
    assert Renamed(ts, us, Skeleton(f), Skeleton(g), rho);
  }

  /** Structurally equivalent modules that capture nothing bind the same names at the top
      level and have, statement by statement, the same skeleton up to a one-to-one renaming
      inside each function. */
  lemma EquivalentModulesAreVariants(a: Module, b: Module)
    requires StructurallyEquivalent(a, b) && CapturesNothing(a) && CapturesNothing(b)
    ensures forall x :: BoundAtTop(a.tops, x) <==> BoundAtTop(b.tops, x)
    ensures |ModuleSkeleton(a)| == |ModuleSkeleton(b)|
    ensures forall i | 0 <= i < |ModuleSkeleton(a)| ::
              SameButNames(a.tops, b.tops, ModuleSkeleton(a)[i], ModuleSkeleton(b)[i])
  {
    NormalForm(a);
    NormalForm(b);
    forall x
      ensures BoundAtTop(a.tops, x) <==> BoundAtTop(b.tops, x)
    {
      ProtectedIff(a.tops, x);
      ProtectedIff(b.tops, x);
    }
    hide ModuleSkeleton, Normalize, Renamed, BoundAtTop;
    var prot, sa, sb := Protected(a.tops), ModuleSkeleton(a), ModuleSkeleton(b);
    NormalFormIsRenamedSkeleton(a);
    NormalFormIsRenamedSkeleton(b);
    FunsMap(RenameWith(prot), sa);
    FunsMap(RenameWith(prot), sb);
    forall i | 0 <= i < |sa|
      ensures SameButNames(a.tops, b.tops, sa[i], sb[i])
    {
      assert MapFuns(RenameWith(prot), sa)[i] == MapFuns(RenameWith(prot), sb)[i];
      if sa[i].Def? {
        var f := SkeletonOf(a, i);
        var g := SkeletonOf(b, i);
        AlikeFuns(a.tops, b.tops, f, g);
      }
    }
  }

  // ----- both ways, when no generated name in use is reserved

  /** No name the normaliser generates for `f` is protected or a parameter. */
  ghost predicate Fresh(prot: set<string>, f: Fun) {
    forall x | Generated(x, |LocalOrder(prot, f)|) :: x !in prot && x !in f.params
  }

  /** Every name gets the number of the name it is renamed to. */
  ghost predicate Numbered(prot: set<string>, f: Fun, g: Fun, rho: map<string, string>) {
    && MapRenamed(prot, f, g, rho)
    && forall x | x in BlockNames(f.body) :: App(FunMap(prot, g), App(rho, x)) == App(FunMap(prot, f), x)
  }

  /** A stored name that is no local is a parameter or protected. */
  lemma StoredNames(prot: set<string>, f: Fun)
    ensures FunMap(prot, f).Keys == BlockStores(f.body) - Elems(f.params) - prot
    ensures forall x | x in FunMap(prot, f) :: Generated(FunMap(prot, f)[x], |LocalOrder(prot, f)|)
    ensures BlockStores(f.body) <= BlockNames(f.body)
  {
    LocalOrderIs(prot, f);
    BlockStoresNamed(f.body);
    forall x | x in FunMap(prot, f)
      ensures Generated(FunMap(prot, f)[x], |LocalOrder(prot, f)|)
    {
      var i :| 0 <= i < |LocalOrder(prot, f)| && LocalOrder(prot, f)[i] == x;
    }
  }

  /** Exactly the stored names are renamed to stored names. */
  lemma StoredIff(rho: map<string, string>, b: seq<Stmt>, x: string)
    requires forall y, z | y in BlockNames(b) && z in BlockNames(b) && App(rho, y) == App(rho, z) :: y == z
    requires x in BlockNames(b)
    ensures App(rho, x) in BlockStores(RenameBlock(rho, b)) <==> x in BlockStores(b)
  {
    StoresAreWalk(b);
    StoresAreWalk(RenameBlock(rho, b));
    WalkRenameBlock(rho, b);
    ImageList(rho, Walk(BlockNodes(b)));
    BlockStoresNamed(b);
    hide BlockStores, Walk, BlockNodes, RenameBlock, BlockNames;
    assert BlockStores(RenameBlock(rho, b)) == Image(rho, BlockStores(b));
  }

  /** Then locals go to locals and everything else stays. */
  lemma LocalsToLocals(prot: set<string>, f: Fun, g: Fun, rho: map<string, string>, x: string)
    requires CaptureFree(prot, g) && Fresh(prot, f) && Fresh(prot, g) && Numbered(prot, f, g, rho)
    requires x in BlockNames(f.body)
    ensures if x in FunMap(prot, f) then App(rho, x) in FunMap(prot, g) else App(rho, x) == x
  {
    hide LocalOrder, RenameBlock, Generated;
    StoredNames(prot, f);
    StoredNames(prot, g);
    StoredIff(rho, f.body, x);
    hide FunMap;
  }

  /** So the renaming, kept to the locals, makes `g` a variant of `f`. */
  lemma NumberedVariant(prot: set<string>, f: Fun, g: Fun, rho: map<string, string>) returns (own: map<string, string>)
    requires CaptureFree(prot, g) && Fresh(prot, f) && Fresh(prot, g) && Numbered(prot, f, g, rho)
    ensures Variant(prot, f, g, own)
  {
    hide LocalOrder, RenameBlock, Generated;
    LocalOrderIs(prot, f);
    StoredNames(prot, f);
    StoredNames(prot, g);
    hide FunMap, BlockStores, BlockNames;
    own := map x | x in FunMap(prot, f) :: App(rho, x);
    forall x | x in BlockNames(f.body)
      ensures App(own, x) == App(rho, x)
      ensures if x in FunMap(prot, f) then App(rho, x) in FunMap(prot, g) else App(rho, x) == x
    {
      LocalsToLocals(prot, f, g, rho, x);
    }
    SameRenaming(rho, own, f.body);
  }

  lemma SameRenaming(m: map<string, string>, m': map<string, string>, b: seq<Stmt>)
    requires forall x | x in BlockNames(b) :: App(m', x) == App(m, x)
    ensures RenameBlock(m', b) == RenameBlock(m, b)
  {
    ComposeBlock(m', map[], m, b);
    RenameBlockId(map[], RenameBlock(m', b));
  }

  lemma AlikeFreshFuns(prot: set<string>, f: Fun, g: Fun)
    requires CaptureFree(prot, f) && CaptureFree(prot, g) && Fresh(prot, f) && Fresh(prot, g)
    requires RenameFun(prot, Skeleton(f)) == RenameFun(prot, Skeleton(g))
    ensures exists rho :: Variant(prot, Skeleton(f), Skeleton(g), rho)
  {
    NormIsRenamedSkeleton(prot, f);
    NormIsRenamedSkeleton(prot, g);
    var rho := EqualNormalFormsAreVariants(prot, f, g);
    SkeletonLocals(prot, f);
    SkeletonLocals(prot, g);
    SkeletonFree(prot, f);
    SkeletonFree(prot, g);
    hide FunMap, Skeleton, Variant, CaptureFree, Fresh;
    var own := NumberedVariant(prot, Skeleton(f), Skeleton(g), rho);
  }

  lemma SkeletonFree(prot: set<string>, f: Fun)
    ensures LocalOrder(prot, Skeleton(f)) == LocalOrder(prot, f)
    ensures CaptureFree(prot, f) ==> CaptureFree(prot, Skeleton(f))
    ensures Fresh(prot, f) ==> Fresh(prot, Skeleton(f))
  {
    NormIsRenamedSkeleton(prot, f);
    StripNames(prot, f);
    SkeletonRenamed(prot, f);
    SkeletonLocals(prot, f);
    hide FunMap, LocalOrder, Generated, BlockNames;
    assert Skeleton(f).params == f.params;
  }

  ghost predicate AllFresh(m: Module) {
    forall k | 0 <= k < |Funs(m.tops)| :: Fresh(Protected(m.tops), Funs(m.tops)[k])
  }

  ghost function VariantNames(prot: set<string>, t: Top, u: Top): (rho: map<string, string>)
    ensures t.Def? && u.Def? && (exists r :: Variant(prot, t.fun, u.fun, r)) ==> Variant(prot, t.fun, u.fun, rho)
  {
    if r :| t.Def? && u.Def? && Variant(prot, t.fun, u.fun, r) then r else map[]
  }

  /** Structural equivalence is exactly equality up to docstrings, redundant `pass`, the
      order of imports and the names of locals, for modules that capture nothing and in
      which no generated name in use is protected or a parameter. */
  lemma EquivalentIff(a: Module, b: Module)
    requires CapturesNothing(a) && CapturesNothing(b) && AllFresh(a) && AllFresh(b)
    ensures StructurallyEquivalent(a, b)
       <==> exists rhos :: SkeletonVariants(a.tops, ModuleSkeleton(a), ModuleSkeleton(b), rhos)
  {
    hide ModuleSkeleton, StructurallyEquivalent;
    if StructurallyEquivalent(a, b) {
      var rhos := EquivalentHaveVariants(a, b);
    } else if rhos :| SkeletonVariants(a.tops, ModuleSkeleton(a), ModuleSkeleton(b), rhos) {
      VariantSkeletonsNormalizeAlike(a, b, rhos);
    }
  }

  lemma EquivalentHaveVariants(a: Module, b: Module) returns (rhos: seq<map<string, string>>)
    requires StructurallyEquivalent(a, b)
    requires CapturesNothing(a) && CapturesNothing(b) && AllFresh(a) && AllFresh(b)
    ensures SkeletonVariants(a.tops, ModuleSkeleton(a), ModuleSkeleton(b), rhos)
  {
    NormalForm(a);
    NormalForm(b);
    hide ModuleSkeleton, Normalize, Variant, LocalsRenamed, Fresh, CaptureFree;
    var prot, sa, sb := Protected(a.tops), ModuleSkeleton(a), ModuleSkeleton(b);
    NormalFormIsRenamedSkeleton(a);
    NormalFormIsRenamedSkeleton(b);
    FunsMap(RenameWith(prot), sa);
    FunsMap(RenameWith(prot), sb);
    rhos := seq(|sa|, i requires 0 <= i < |sa| && i < |sb| => VariantNames(prot, sa[i], sb[i]));
    forall i | 0 <= i < |sa|
      ensures if sa[i].Def? then sb[i].Def? && LocalsRenamed(a.tops, sa[i].fun, sb[i].fun, rhos[i]) else sb[i] == sa[i]
    {
      assert MapFuns(RenameWith(prot), sa)[i] == MapFuns(RenameWith(prot), sb)[i];
      if sa[i].Def? {
        var f := SkeletonOf(a, i);
        var g := SkeletonOf(b, i);
        AlikeFreshFuns(prot, f, g);
        VariantIff(a.tops, sa[i].fun, sb[i].fun, rhos[i]);
      }
    }
  }
}
