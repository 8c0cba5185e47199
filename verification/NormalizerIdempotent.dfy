/** Normal forms of whole modules: they do not depend on the names of locals, and
    normalising twice equals normalising once under an exact condition on the module. */
module NormalizerIdempotent {
  import opened Basics
  import opened PySyntax
  import opened PyInterp
  import opened Normalizer
  import opened NormalizerImports
  import opened NormalizerMeaning
  import opened NormalizerModule
  import opened NormalizerCanonical

  // ----- the sort

  /** `t` does not exceed the next statement of `ts` that is not a `pass`, if that is
      an import. */
  predicate LeNext(t: Top, ts: seq<Top>) {
    ts == [] || if IsPassTop(ts[0]) then LeNext(t, ts[1..]) else IsImport(ts[0]) ==> KeyLe(t, ts[0])
  }

  /** Imports with nothing but `pass` between them are in key order. */
  predicate RunsInOrder(ts: seq<Top>) {
    ts == [] || ((IsImport(ts[0]) ==> LeNext(ts[0], ts[1..])) && RunsInOrder(ts[1..]))
  }

  lemma {:induction false} InsertInOrder(t: Top, ts: seq<Top>)
    requires IsImport(t) && AllImports(ts) && RunsInOrder(ts)
    ensures RunsInOrder(Insert(t, ts))
  {
    if ts != [] {
      StrLeTotal(ImportKey(t), ImportKey(ts[0]));
      if !KeyLe(t, ts[0]) {
        InsertInOrder(t, ts[1..]);
        assert Insert(t, ts)[1..] == Insert(t, ts[1..]);
      } else {
        assert Insert(t, ts)[1..] == ts;
      }
    } else {
      assert [t][1..] == [];
    }
  }

  lemma {:induction false} SortInOrder(ts: seq<Top>)
    requires AllImports(ts)
    ensures RunsInOrder(StableSort(ts))
  {
    if ts != [] {
      SortElements(ts[1..]);
      SortInOrder(ts[1..]);
      InsertInOrder(ts[0], StableSort(ts[1..]));
    }
  }

  /** The run is sorted as Python's `sort` does it: same statements, in key order, and
      statements of equal key in their old order. */
  lemma StableSortIsStable(ts: seq<Top>, k: string)
    requires AllImports(ts)
    ensures multiset(StableSort(ts)) == multiset(ts)
    ensures RunsInOrder(StableSort(ts))
    ensures WithKey(k, StableSort(ts)) == WithKey(k, ts)
  {
    SortMembers(ts);
    SortInOrder(ts);
    SortKeepsKeys(k, ts);
  }

  lemma {:induction false} SortedIsFixed(ts: seq<Top>)
    requires AllImports(ts)
    ensures StableSort(ts) == ts <==> RunsInOrder(ts)
  {
    SortInOrder(ts);
    if ts != [] && RunsInOrder(ts) { SortedIsFixed(ts[1..]); }
  }

  lemma {:induction false} OrderSplits(run: seq<Top>, rest: seq<Top>)
    requires AllImports(run) && (rest == [] || (!IsImport(rest[0]) && !IsPassTop(rest[0])))
    ensures RunsInOrder(run + rest) <==> RunsInOrder(run) && RunsInOrder(rest)
  {
    if run == [] {
      assert run + rest == rest;
    } else {
      assert (run + rest)[1..] == run[1..] + rest;
      OrderSplits(run[1..], rest);
      if run[1..] == [] { assert run[1..] + rest == rest; }
    }
  }

  ghost predicate PassFree(ts: seq<Top>) {
    forall i | 0 <= i < |ts| :: !IsPassTop(ts[i])
  }

  lemma {:induction false} SortFixedIff(ts: seq<Top>)
    requires PassFree(ts)
    ensures SortImports(ts) == ts <==> RunsInOrder(ts)
    decreases |ts|
  {
    if ts != [] {
      if IsImport(ts[0]) {
        var n := RunLength(ts);
        SortFixedIff(ts[n..]);
        SortedIsFixed(ts[..n]);
        OrderSplits(ts[..n], ts[n..]);
        SortMembers(ts[..n]);
        assert ts == ts[..n] + ts[n..];
        SameParts(StableSort(ts[..n]), SortImports(ts[n..]), ts[..n], ts[n..]);
      } else {
        SortFixedIff(ts[1..]);
        assert SortImports(ts)[1..] == SortImports(ts[1..]);
        assert ts == [ts[0]] + ts[1..];
      }
    }
  }

  lemma SameParts(a: seq<Top>, b: seq<Top>, c: seq<Top>, d: seq<Top>)
    requires multiset(a) == multiset(c)
    ensures a + b == c + d <==> a == c && b == d
  {
    assert |a| == |multiset(a)| == |multiset(c)| == |c|;
    if a + b == c + d {
      assert a == (a + b)[..|a|] && c == (c + d)[..|a|];
      assert b == (a + b)[|a|..] && d == (c + d)[|a|..];
    }
  }

  /** Sorting imports moves only imports. */
  lemma {:induction false} SortShape(ts: seq<Top>)
    ensures |SortImports(ts)| == |ts|
    ensures forall i | 0 <= i < |ts| ::
              if IsImport(ts[i]) then IsImport(SortImports(ts)[i]) else SortImports(ts)[i] == ts[i]
    decreases |ts|
  {
    if ts != [] {
      if IsImport(ts[0]) {
        var n := RunLength(ts);
        SortShape(ts[n..]);
        SortMembers(ts[..n]);
        SortElements(ts[..n]);
        var s := StableSort(ts[..n]);
        assert |s| == |multiset(s)| == |multiset(ts[..n])| == n;
        forall i | 0 <= i < |ts|
          ensures if IsImport(ts[i]) then IsImport(SortImports(ts)[i]) else SortImports(ts)[i] == ts[i]
        {
          if i < n {
            assert SortImports(ts)[i] == s[i];
          } else {
            assert SortImports(ts)[i] == SortImports(ts[n..])[i - n] && ts[n..][i - n] == ts[i];
          }
        }
      } else {
        SortShape(ts[1..]);
        assert SortImports(ts)[1..] == SortImports(ts[1..]);
      }
    }
  }

  // ----- the pipeline in one step per statement

  function CleanPlains(ts: seq<Top>): seq<Top> {
    if ts == [] then []
    else [if ts[0].Plain? then Plain(CleanStmt(ts[0].stmt)) else ts[0]] + CleanPlains(ts[1..])
  }

  function Finish(prot: set<string>, ts: seq<Top>): seq<Top> {
    CleanPlains(MapFuns(f => NormFun(prot, f), ts))
  }

  function FinishTop(prot: set<string>, t: Top): Top {
    match t
    case Def(f) => Def(NormFun(prot, f))
    case Plain(s) => Plain(CleanStmt(s))
    case _ => t
  }

  lemma {:induction false} FinishAt(prot: set<string>, ts: seq<Top>)
    ensures |Finish(prot, ts)| == |ts|
    ensures forall i | 0 <= i < |ts| :: Finish(prot, ts)[i] == FinishTop(prot, ts[i])
  {
    if ts != [] {
      FinishAt(prot, ts[1..]);
      assert MapFuns(f => NormFun(prot, f), ts)[1..] == MapFuns(f => NormFun(prot, f), ts[1..]);
      assert Finish(prot, ts)[1..] == Finish(prot, ts[1..]);
    }
  }

  lemma {:induction false} MapFunsConcat(g: Fun -> Fun, a: seq<Top>, b: seq<Top>)
    ensures MapFuns(g, a + b) == MapFuns(g, a) + MapFuns(g, b)
  {
    if a == [] {
      assert a + b == b;
    } else {
      assert (a + b)[1..] == a[1..] + b;
      MapFunsConcat(g, a[1..], b);
    }
  }

  lemma {:induction false} MapFunsImports(g: Fun -> Fun, ts: seq<Top>)
    requires AllImports(ts)
    ensures MapFuns(g, ts) == ts
  {
    if ts != [] { MapFunsImports(g, ts[1..]); }
  }

  /** Rewriting functions and sorting imports commute. */
  lemma {:induction false} SortMapFuns(g: Fun -> Fun, ts: seq<Top>)
    ensures SortImports(MapFuns(g, ts)) == MapFuns(g, SortImports(ts))
    decreases |ts|
  {
    if ts != [] {
      if IsImport(ts[0]) {
        var n := RunLength(ts);
        var run, rest := ts[..n], ts[n..];
        assert ts == run + rest;
        MapFunsConcat(g, run, rest);
        MapFunsImports(g, run);
        SortElements(run);
        MapFunsImports(g, StableSort(run));
        MapFunsConcat(g, StableSort(run), SortImports(rest));
        SortMapFuns(g, rest);
        FunsMap(g, rest);
        SortImportsSplit(run, MapFuns(g, rest));
      } else {
        SortMapFuns(g, ts[1..]);
        assert MapFuns(g, ts)[1..] == MapFuns(g, ts[1..]);
        assert SortImports(ts)[1..] == SortImports(ts[1..]);
      }
    }
  }

  lemma {:induction false} FinishIs(prot: set<string>, ts: seq<Top>)
    ensures CleanTopEach(MapFuns(f => RenameFun(prot, f), MapFuns(StripFun, ts))) == Finish(prot, ts)
  {
    FunsMap(StripFun, ts);
    FunsMap(f => RenameFun(prot, f), MapFuns(StripFun, ts));
    FunsCleanEach(MapFuns(f => RenameFun(prot, f), MapFuns(StripFun, ts)));
    FinishAt(prot, ts);
  }

  /** The whole pipeline: strip the module docstring, sort, finish each statement,
      drop redundant `pass`. */
  lemma NormalizeIs(m: Module)
    ensures Normalize(m).tops == CleanTopBody(Finish(Protected(m.tops), SortImports(StripTops(m.tops))))
  {
    var t0 := StripTops(m.tops);
    FunsStripTops(m.tops);
    SortMapFuns(StripFun, t0);
    ProtectedMap(StripFun, t0);
    SortImportsTables(MapFuns(StripFun, t0));
    FinishIs(Protected(m.tops), SortImports(t0));
  }

  // ----- the names of locals do not matter

  /** `b` is `a` with the locals of each function renamed one to one. */
  ghost predicate ModuleVariant(a: Module, b: Module, rhos: seq<map<string, string>>) {
    && |b.tops| == |a.tops| == |rhos|
    && forall i | 0 <= i < |a.tops| ::
         if a.tops[i].Def? then b.tops[i].Def? && Variant(Protected(a.tops), a.tops[i].fun, b.tops[i].fun, rhos[i])
         else b.tops[i] == a.tops[i]
  }

  lemma {:induction false} SameProtected(ts: seq<Top>, us: seq<Top>)
    requires |ts| == |us|
    requires forall i | 0 <= i < |ts| ::
               if ts[i].Def? then us[i].Def? && us[i].fun.name == ts[i].fun.name else us[i] == ts[i]
    ensures Protected(us) == Protected(ts)
  {
    if ts != [] { SameProtected(ts[1..], us[1..]); }
  }

  /** Modules that differ only by an injective renaming of each function's locals
      normalise to the same tree. */
  lemma VariantModulesNormalizeAlike(a: Module, b: Module, rhos: seq<map<string, string>>)
    requires ModuleVariant(a, b, rhos)
    ensures Normalize(b) == Normalize(a) && StructurallyEquivalent(a, b)
  {
    SameProtected(a.tops, b.tops);
    var prot := Protected(a.tops);
    var g := f => NormFun(prot, f);
    var ta, tb := StripTops(a.tops), StripTops(b.tops);
    VariantFinish(a, b, rhos, g);
    SortMapFuns(g, ta);
    SortMapFuns(g, tb);
    NormalizeIs(a);
    NormalizeIs(b);
  }

  lemma VariantFinish(a: Module, b: Module, rhos: seq<map<string, string>>, g: Fun -> Fun)
    requires ModuleVariant(a, b, rhos)
    requires forall f :: g(f) == NormFun(Protected(a.tops), f)
    ensures MapFuns(g, StripTops(a.tops)) == MapFuns(g, StripTops(b.tops))
  {
    var ta, tb := StripTops(a.tops), StripTops(b.tops);
    var d := |a.tops| - |ta|;
    assert forall i | 0 <= i < |ta| && ta[i].Def? :: ta[i] == a.tops[i + d] && tb[i] == b.tops[i + d];
    forall i | 0 <= i < |ta| && ta[i].Def?
      ensures tb[i].Def? && g(ta[i].fun) == g(tb[i].fun)
    {
      VariantsNormalizeAlike(Protected(a.tops), a.tops[i + d].fun, b.tops[i + d].fun, rhos[i + d]);
    }
    MapFunsAlike(g, ta, tb);
  }

  lemma {:induction false} MapFunsAlike(g: Fun -> Fun, ts: seq<Top>, us: seq<Top>)
    requires |ts| == |us|
    requires forall i | 0 <= i < |ts| ::
               if ts[i].Def? then us[i].Def? && g(ts[i].fun) == g(us[i].fun) else us[i] == ts[i]
    ensures MapFuns(g, ts) == MapFuns(g, us)
  {
    if ts != [] { MapFunsAlike(g, ts[1..], us[1..]); }
  }

  // ----- normalising twice

  /** The first top-level statement that is not a `pass` is a bare string. */
  predicate BareTopFirst(ts: seq<Top>) {
    ts != [] && (if IsPassTop(ts[0]) then BareTopFirst(ts[1..]) else IsBareTop(ts[0]))
  }

  /** The exact condition for a second normalisation to change nothing: no body begins
      with a bare string once its docstring is gone, no two import runs that only
      `pass` separates are out of key order, and reserved names never precede a free
      generated name. */
  ghost predicate StableModule(m: Module) {
    && !BareTopFirst(StripTops(m.tops))
    && RunsInOrder(SortImports(StripTops(m.tops)))
    && forall k | 0 <= k < |Funs(m.tops)| :: StableFun(Protected(m.tops), Funs(m.tops)[k])
  }

  lemma {:induction false} DropPassTopsIs(ts: seq<Top>)
    ensures PassFree(DropPassTops(ts)) && |DropPassTops(ts)| <= |ts|
    ensures PassFree(ts) ==> DropPassTops(ts) == ts
    ensures Protected(DropPassTops(ts)) == Protected(ts)
    ensures BareTopFirst(ts) <==> DropPassTops(ts) != [] && IsBareTop(DropPassTops(ts)[0])
  {
    if ts != [] {
      DropPassTopsIs(ts[1..]);
      if !IsPassTop(ts[0]) { assert DropPassTops(ts)[1..] == DropPassTops(ts[1..]); }
    }
  }

  lemma {:induction false} DropPassOrder(ts: seq<Top>)
    ensures RunsInOrder(DropPassTops(ts)) <==> RunsInOrder(ts)
  {
    if ts != [] {
      DropPassOrder(ts[1..]);
      if !IsPassTop(ts[0]) {
        assert DropPassTops(ts)[1..] == DropPassTops(ts[1..]);
        LeNextDrop(ts[0], ts[1..]);
      }
    }
  }

  lemma {:induction false} LeNextDrop(t: Top, ts: seq<Top>)
    ensures LeNext(t, DropPassTops(ts)) <==> LeNext(t, ts)
  {
    if ts != [] && IsPassTop(ts[0]) { LeNextDrop(t, ts[1..]); }
  }

  ghost predicate SameTop(t: Top, u: Top) {
    && (IsPassTop(u) <==> IsPassTop(t))
    && (IsBareTop(u) <==> IsBareTop(t))
    && (IsImport(u) <==> IsImport(t))
    && (IsImport(t) ==> u == t)
  }

  /** What the finishing pass keeps. */
  ghost predicate SameShape(ts: seq<Top>, us: seq<Top>) {
    |us| == |ts| && forall i | 0 <= i < |ts| :: SameTop(ts[i], us[i])
  }

  lemma {:induction false} ShapeKeeps(ts: seq<Top>, us: seq<Top>)
    requires SameShape(ts, us)
    ensures BareTopFirst(us) <==> BareTopFirst(ts)
    ensures RunsInOrder(us) <==> RunsInOrder(ts)
  {
    if ts != [] {
      assert SameShape(ts[1..], us[1..]);
      ShapeKeeps(ts[1..], us[1..]);
      if IsImport(ts[0]) { LeNextKeeps(ts[0], ts[1..], us[1..]); }
    }
  }

  lemma {:induction false} LeNextKeeps(t: Top, ts: seq<Top>, us: seq<Top>)
    requires SameShape(ts, us)
    ensures LeNext(t, us) <==> LeNext(t, ts)
  {
    if ts != [] {
      assert SameShape(ts[1..], us[1..]);
      LeNextKeeps(t, ts[1..], us[1..]);
    }
  }

  lemma {:induction false} BareFirstSort(ts: seq<Top>)
    ensures BareTopFirst(SortImports(ts)) <==> BareTopFirst(ts)
    decreases |ts|
  {
    SortShape(ts);
    if ts != [] && IsPassTop(ts[0]) {
      BareFirstSort(ts[1..]);
      assert SortImports(ts)[1..] == SortImports(ts[1..]);
    }
  }

  lemma FinishedTop(prot: set<string>, t: Top)
    ensures SameTop(t, FinishTop(prot, t))
    ensures t.Plain? ==> CleanStmt(FinishTop(prot, t).stmt) == FinishTop(prot, t).stmt
  {
    if t.Plain? { CleanStmtTwice(t.stmt); }
  }

  lemma FinishedShape(prot: set<string>, s: seq<Top>)
    ensures SameShape(s, Finish(prot, s))
    ensures Protected(Finish(prot, s)) == Protected(s)
    ensures forall u | u in Finish(prot, s) && u.Plain? :: CleanStmt(u.stmt) == u.stmt
  {
    FinishAt(prot, s);
    FinishProtected(prot, s, Finish(prot, s));
    forall i | 0 <= i < |s|
      ensures SameTop(s[i], Finish(prot, s)[i])
    {
      FinishedTop(prot, s[i]);
    }
    forall u | u in Finish(prot, s) && u.Plain?
      ensures CleanStmt(u.stmt) == u.stmt
    {
      var i :| 0 <= i < |s| && Finish(prot, s)[i] == u;
      FinishedTop(prot, s[i]);
    }
  }

  lemma CleanTopBodyFacts(u: seq<Top>)
    ensures var x := CleanTopBody(u);
            && Protected(x) == Protected(u)
            && (|x| > 1 ==> PassFree(x))
            && ((x != [] && IsBareTop(x[0])) <==> BareTopFirst(u))
            && (RunsInOrder(x) <==> RunsInOrder(u))
            && forall t | t in x :: t in u || t == Plain(Pass)
  {
    DropPassTopsIs(u);
    DropPassOrder(u);
    DropElements(u);
    SmallBody(u);
  }

  /** Facts about a normal form needed to normalise it again. */
  lemma NormalForm(m: Module)
    ensures var x := Normalize(m).tops;
            && Protected(x) == Protected(m.tops)
            && (|x| > 1 ==> PassFree(x))
            && ((x != [] && IsBareTop(x[0])) <==> BareTopFirst(StripTops(m.tops)))
            && (RunsInOrder(x) <==> RunsInOrder(SortImports(StripTops(m.tops))))
            && forall i | 0 <= i < |x| && x[i].Plain? :: CleanStmt(x[i].stmt) == x[i].stmt
  {
    var s := SortImports(StripTops(m.tops));
    var u := Finish(Protected(m.tops), s);
    NormalizeIs(m);
    FinishedShape(Protected(m.tops), s);
    ShapeKeeps(s, u);
    BareFirstSort(StripTops(m.tops));
    CleanTopBodyFacts(u);
    SortImportsTables(StripTops(m.tops));
    FunsStripTops(m.tops);
    var x := CleanTopBody(u);
    forall i | 0 <= i < |x| && x[i].Plain?
      ensures CleanStmt(x[i].stmt) == x[i].stmt
    {
      assert x[i] in x;
    }
  }

  lemma SmallBody(u: seq<Top>)
    ensures |u| == 1 ==> (BareTopFirst(u) <==> IsBareTop(u[0])) && RunsInOrder(u)
    ensures RunsInOrder([Plain(Pass)]) && Protected([Plain(Pass)]) == {} && Protected([]) == {}
  {
    assert |u| == 1 ==> u[1..] == [];
    assert [Plain(Pass)][1..] == [];
  }

  lemma {:induction false} DropElements(ts: seq<Top>)
    ensures forall t | t in DropPassTops(ts) :: t in ts
  {
    if ts != [] { DropElements(ts[1..]); }
  }

  lemma {:induction false} FinishProtected(prot: set<string>, ts: seq<Top>, us: seq<Top>)
    requires |us| == |ts| && forall i | 0 <= i < |ts| :: us[i] == FinishTop(prot, ts[i])
    ensures Protected(us) == Protected(ts)
  {
    if ts != [] {
      assert us[0] == FinishTop(prot, ts[0]);
      FinishProtected(prot, ts[1..], us[1..]);
    }
  }

  lemma {:induction false} FunsOfTops(ts: seq<Top>, f: Fun)
    ensures f in Funs(ts) <==> Def(f) in ts
  {
    if ts != [] { FunsOfTops(ts[1..], f); }
  }

  /** Finishing a sorted normal form gives it back exactly when it was sorted and its
      functions are stable. */
  lemma FinishFixedIff(prot: set<string>, x: seq<Top>)
    requires forall i | 0 <= i < |x| && x[i].Plain? :: CleanStmt(x[i].stmt) == x[i].stmt
    ensures Finish(prot, SortImports(x)) == x
            <==> SortImports(x) == x && forall f | f in Funs(x) :: NormFun(prot, f) == f
  {
    var s := SortImports(x);
    SortShape(x);
    FinishAt(prot, s);
    forall f
      ensures f in Funs(x) <==> Def(f) in x
    {
      FunsOfTops(x, f);
    }
    if Finish(prot, s) == x {
      forall i | 0 <= i < |x|
        ensures s[i] == x[i]
      {
        if IsImport(x[i]) { assert Finish(prot, s)[i] == s[i]; }
      }
      forall f | f in Funs(x)
        ensures NormFun(prot, f) == f
      {
        var i :| 0 <= i < |x| && x[i] == Def(f);
        assert Finish(prot, s)[i] == Def(NormFun(prot, f));
      }
    }
    if s == x && forall f | f in Funs(x) :: NormFun(prot, f) == f {
      forall i | 0 <= i < |x|
        ensures Finish(prot, s)[i] == x[i]
      {
        if x[i].Def? { assert x[i].fun in Funs(x); }
      }
    }
  }

  lemma StableFunsIff(m: Module)
    ensures (forall f | f in Funs(Normalize(m).tops) :: NormFun(Protected(m.tops), f) == f)
            <==> forall k | 0 <= k < |Funs(m.tops)| :: StableFun(Protected(m.tops), Funs(m.tops)[k])
  {
    var prot, fs, gs := Protected(m.tops), Funs(m.tops), Funs(Normalize(m).tops);
    NormalizedFuns(m);
    forall k | 0 <= k < |fs|
      ensures NormFun(prot, gs[k]) == gs[k] <==> StableFun(prot, fs[k])
    {
      FunStableIff(prot, fs[k]);
    }
  }

  /** A normal form that begins with a bare string loses it to a second pass. */
  lemma BareNormalForm(m: Module)
    requires BareTopFirst(StripTops(m.tops))
    ensures Normalize(Normalize(m)) != Normalize(m)
  {
    var prot, x := Protected(m.tops), Normalize(m).tops;
    NormalForm(m);
    NormalizeIs(Normalize(m));
    var t := StripTops(x);
    SortShape(t);
    FinishAt(prot, SortImports(t));
    DropPassTopsIs(Finish(prot, SortImports(t)));
    if |x| == 1 {
      assert t == [Plain(Pass)];
      assert Finish(prot, SortImports(t)) == [Plain(Pass)];
    }
  }

  lemma FinishedStaysClean(prot: set<string>, x: seq<Top>)
    requires |x| > 1 ==> PassFree(x)
    ensures CleanTopBody(Finish(prot, SortImports(x))) == Finish(prot, SortImports(x))
  {
    var s := SortImports(x);
    var z := Finish(prot, s);
    SortShape(x);
    FinishAt(prot, s);
    if |x| > 1 {
      FinishedPassFree(prot, x, s, z);
      DropPassTopsIs(z);
    }
  }

  lemma FinishedPassFree(prot: set<string>, x: seq<Top>, s: seq<Top>, z: seq<Top>)
    requires |s| == |x| == |z| && PassFree(x)
    requires forall i | 0 <= i < |x| :: if IsImport(x[i]) then IsImport(s[i]) else s[i] == x[i]
    requires forall i | 0 <= i < |s| :: z[i] == FinishTop(prot, s[i])
    ensures PassFree(z)
  {
    forall i | 0 <= i < |z|
      ensures !IsPassTop(z[i])
    {
      assert !IsPassTop(x[i]);
      FinishedTop(prot, s[i]);
    }
  }

  lemma SortedNormalForm(x: seq<Top>)
    requires |x| > 1 ==> PassFree(x)
    ensures SortImports(x) == x <==> RunsInOrder(x)
  {
    if PassFree(x) {
      SortFixedIff(x);
    } else {
      SortShape(x);
      SmallBody(x);
      assert SortImports(x) == x;
    }
  }

  /** The second pass only sorts and renames. */
  lemma SecondPass(m: Module)
    requires !BareTopFirst(StripTops(m.tops))
    ensures var x := Normalize(m).tops;
            Normalize(Normalize(m)).tops == Finish(Protected(m.tops), SortImports(x))
  {
    hide Normalize, RunsInOrder, Finish, CleanTopBody, SortImports, Protected, CleanStmt, BareTopFirst, PassFree;
    var x := Normalize(m).tops;
    NormalForm(m);
    NormalizeIs(Normalize(m));
    assert StripTops(x) == x;
    FinishedStaysClean(Protected(m.tops), x);
  }

  /** A module is its statements. */
  lemma SameModule(a: Module, b: Module)
    ensures a == b <==> a.tops == b.tops
  {
  }

  /** Normalising twice equals normalising once exactly for stable modules. */
  lemma NormalizeTwiceIff(m: Module)
    ensures Normalize(Normalize(m)) == Normalize(m) <==> StableModule(m)
  {
    hide Normalize, RunsInOrder, Finish, SortImports, Protected, CleanStmt, BareTopFirst, PassFree, StripTops, NormFun,
        StableFun, Funs;
    if BareTopFirst(StripTops(m.tops)) {
      BareNormalForm(m);
    } else {
      NormalForm(m);
      SecondPass(m);
      SameModule(Normalize(Normalize(m)), Normalize(m));
      FinishFixedIff(Protected(m.tops), Normalize(m).tops);
      StableFunsIff(m);
      SortedNormalForm(Normalize(m).tops);
    }
  }

  /** `import b; pass; import a`: the `pass` keeps the runs apart the first time only. */
  lemma PassBetweenImports(a: Alias, b: Alias)
    requires a.name == "a" && b.name == "b"
    ensures var m := Module([Import([b]), Plain(Pass), Import([a])]);
            Normalize(Normalize(m)) != Normalize(m)
  {
    var m := Module([Import([b]), Plain(Pass), Import([a])]);
    var ts := m.tops;
    assert ts[1..] == [Plain(Pass), Import([a])] && ts[1..][1..] == [Import([a])] && ts[1..][1..][1..] == [];
    SortShape(ts);
    assert ts[..1] == [Import([b])];
    assert RunLength(ts) == 1 && RunLength([Import([a])]) == 1;
    assert StableSort([Import([a])]) == [Import([a])] by { assert [Import([a])][1..] == []; }
    assert SortImports([Import([a])]) == [Import([a])] by {
      assert [Import([a])][..1] == [Import([a])] && [Import([a])][1..] == [];
    }
    assert StableSort([Import([b])]) == [Import([b])] by { assert [Import([b])][1..] == []; }
    assert SortImports(ts[1..]) == [Plain(Pass)] + SortImports([Import([a])]);
    assert ts[1..] == ts[1..][..];
    assert SortImports(ts) == ts;
    assert !KeyLe(Import([b]), Import([a]));
    assert !LeNext(ts[0], ts[1..]) by { assert !LeNext(ts[0], ts[1..][1..]); }
    assert StripTops(ts) == ts && !RunsInOrder(ts);
    NormalizeTwiceIff(m);
  }

  // ----- modules of imports

  lemma {:induction false} RunLengthAll(ts: seq<Top>)
    requires AllImports(ts)
    ensures RunLength(ts) == |ts|
  {
    if ts != [] { RunLengthAll(ts[1..]); }
  }

  /** Imports and nothing else come out sorted. */
  lemma ImportsNormalize(ts: seq<Top>)
    requires AllImports(ts)
    ensures Normalize(Module(ts)) == Module(StableSort(ts))
  {
    var s := StableSort(ts);
    RunLengthAll(ts);
    SortElements(ts);
    assert ts[..|ts|] == ts && ts[|ts|..] == [];
    assert SortImports(ts) == s;
    NormalizeIs(Module(ts));
    FinishAt(Protected(ts), s);
    assert Finish(Protected(ts), s) == s;
    DropPassTopsIs(s);
    CleanTopBodyFacts(s);
  }

  lemma RunImportModule(w: World, ts: seq<Top>, fuel: nat)
    requires AllImports(ts)
    ensures RunModule(w, Module(ts), fuel) == (Next, State(BindAll(map[], ts), map[], []))
  {
    RunImports(Funs(ts), w, ts, [], 0, State(map[], map[], []), fuel);
    assert ts + [] == ts;
  }

  /** Normalising a module of imports keeps what it does exactly when they are safe to
      sort. */
  lemma ImportModuleIff(w: World, ts: seq<Top>, fuel: nat)
    requires AllImports(ts)
    ensures RunModule(w, Normalize(Module(ts)), fuel) == RunModule(w, Module(ts), fuel) <==> SortSafe(ts)
  {
    ImportsNormalize(ts);
    SortBindsIff(map[], ts);
    RunImportModule(w, ts, fuel);
    RunImportModule(w, StableSort(ts), fuel);
    hide SortSafe, RunModule, Normalize, BindAll;
  }
}
