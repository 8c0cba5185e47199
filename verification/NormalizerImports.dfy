/** The import sorter: what the stable sort of a run keeps, and exactly when a sorted run
    binds what the run binds. */
module NormalizerImports {
  import opened Basics
  import opened PySyntax
  import opened PyInterp
  import opened Normalizer

  ghost predicate AllImports(ts: seq<Top>) {
    forall i | 0 <= i < |ts| :: IsImport(ts[i])
  }

  lemma {:induction false} InsertMembers(t: Top, ts: seq<Top>)
    ensures multiset(Insert(t, ts)) == multiset{t} + multiset(ts)
  {
    if ts != [] && !KeyLe(t, ts[0]) {
      InsertMembers(t, ts[1..]);
      assert ts == [ts[0]] + ts[1..];
    }
  }

  lemma {:induction false} SortMembers(ts: seq<Top>)
    ensures multiset(StableSort(ts)) == multiset(ts)
  {
    if ts != [] {
      SortMembers(ts[1..]);
      InsertMembers(ts[0], StableSort(ts[1..]));
      assert ts == [ts[0]] + ts[1..];
    }
  }

  lemma SortElements(ts: seq<Top>)
    ensures forall x | x in StableSort(ts) :: x in ts
    ensures AllImports(ts) ==> AllImports(StableSort(ts))
  {
    SortMembers(ts);
    forall x | x in StableSort(ts)
      ensures x in ts
    {
      assert x in multiset(StableSort(ts));
    }
    if AllImports(ts) {
      forall i | 0 <= i < |StableSort(ts)|
        ensures IsImport(StableSort(ts)[i])
      {
        assert StableSort(ts)[i] in ts;
      }
    }
  }

  // ----- the stable sort, key by key

  function WithKey(k: string, ts: seq<Top>): seq<Top> {
    if ts == [] then []
    else (if ImportKey(ts[0]) == k then [ts[0]] else []) + WithKey(k, ts[1..])
  }

  lemma WithKeyCons(k: string, t: Top, ts: seq<Top>)
    ensures WithKey(k, [t] + ts) == (if ImportKey(t) == k then [t] else []) + WithKey(k, ts)
  {
    assert ([t] + ts)[1..] == ts;
  }

  lemma {:induction false} InsertStable(k: string, t: Top, ts: seq<Top>)
    ensures WithKey(k, Insert(t, ts)) == WithKey(k, [t] + ts)
  {
    if ts == [] {
      assert [t] + ts == [t];
    } else if !KeyLe(t, ts[0]) {
      InsertStable(k, t, ts[1..]);
      KeysDiffer(t, ts[0]);
      WithKeySwap(k, ts[0], t, ts[1..], Insert(t, ts[1..]));
      assert ts == [ts[0]] + ts[1..];
    }
  }

  lemma WithKeySwap(k: string, s: Top, t: Top, rest: seq<Top>, inserted: seq<Top>)
    requires ImportKey(s) != ImportKey(t) && WithKey(k, inserted) == WithKey(k, [t] + rest)
    ensures WithKey(k, [s] + inserted) == WithKey(k, [t] + ([s] + rest))
  {
    hide WithKey, ImportKey;
    WithKeyCons(k, s, inserted);
    WithKeyCons(k, s, rest);
    WithKeyCons(k, t, rest);
    WithKeyCons(k, t, [s] + rest);
  }

  lemma KeysDiffer(s: Top, t: Top)
    requires !KeyLe(s, t)
    ensures ImportKey(s) != ImportKey(t)
  {
    StrLeTotal(ImportKey(s), ImportKey(s));
  }

  lemma {:induction false} SortKeepsKeys(k: string, ts: seq<Top>)
    ensures WithKey(k, StableSort(ts)) == WithKey(k, ts)
  {
    if ts != [] {
      SortKeepsKeys(k, ts[1..]);
      InsertStable(k, ts[0], StableSort(ts[1..]));
      WithKeyCons(k, ts[0], StableSort(ts[1..]));
    }
  }

  /** The first key is the least, and so on. */
  ghost predicate SortedKeys(ts: seq<Top>) {
    ts == [] || ((forall t | t in ts :: KeyLe(ts[0], t)) && SortedKeys(ts[1..]))
  }

  lemma {:induction false} InsertSortedKeys(t: Top, ts: seq<Top>)
    requires SortedKeys(ts)
    ensures SortedKeys(Insert(t, ts)) && forall u :: u in Insert(t, ts) <==> u == t || u in ts
  {
    StrLeTotal(ImportKey(t), ImportKey(t));
    if ts == [] {
      assert [t][1..] == [];
    } else if KeyLe(t, ts[0]) {
      assert ([t] + ts)[1..] == ts;
      forall u | u in ts
        ensures KeyLe(t, u)
      {
        StrLeTransitive(ImportKey(t), ImportKey(ts[0]), ImportKey(u));
      }
    } else {
      InsertSortedKeys(t, ts[1..]);
      StrLeTotal(ImportKey(t), ImportKey(ts[0]));
      assert Insert(t, ts)[1..] == Insert(t, ts[1..]);
    }
  }

  lemma {:induction false} SortSortsKeys(ts: seq<Top>)
    ensures SortedKeys(StableSort(ts))
  {
    if ts != [] {
      SortSortsKeys(ts[1..]);
      InsertSortedKeys(ts[0], StableSort(ts[1..]));
    }
  }

  lemma {:induction false} WithKeyMembers(k: string, ts: seq<Top>)
    ensures forall t :: t in WithKey(k, ts) <==> t in ts && ImportKey(t) == k
  {
    if ts != [] { WithKeyMembers(k, ts[1..]); }
  }

  /** Sorted lists with the same statements, key by key, have the same first one. */
  lemma SameFirst(x: seq<Top>, y: seq<Top>)
    requires SortedKeys(x) && SortedKeys(y) && x != [] && y != []
    requires WithKey(ImportKey(x[0]), x) == WithKey(ImportKey(x[0]), y)
            && WithKey(ImportKey(y[0]), x) == WithKey(ImportKey(y[0]), y)
    ensures x[0] == y[0]
  {
    FirstLeast(x, y);
    FirstLeast(y, x);
    FirstWithKey(x);
    FirstWithKey(y);
    StrLeTotal(ImportKey(x[0]), ImportKey(y[0]));
    hide WithKey, SortedKeys, StrLe, ImportKey;
  }

  lemma FirstLeast(x: seq<Top>, y: seq<Top>)
    requires SortedKeys(x) && x != [] && y != [] && WithKey(ImportKey(y[0]), x) == WithKey(ImportKey(y[0]), y)
    ensures KeyLe(x[0], y[0])
  {
    hide ImportKey, WithKey, StrLe;
    WithKeyMembers(ImportKey(y[0]), x);
    WithKeyMembers(ImportKey(y[0]), y);
    assert y[0] in x;
  }

  lemma FirstWithKey(x: seq<Top>)
    requires x != []
    ensures WithKey(ImportKey(x[0]), x) != [] && WithKey(ImportKey(x[0]), x)[0] == x[0]
  {
  }

  lemma {:induction false} SortedDetermined(x: seq<Top>, y: seq<Top>)
    requires SortedKeys(x) && SortedKeys(y) && forall k :: WithKey(k, x) == WithKey(k, y)
    ensures x == y
    decreases |x|
  {
    if x == [] {
      assert y != [] ==> WithKey(ImportKey(y[0]), y) != [];
    } else {
      assert WithKey(ImportKey(x[0]), x) != [];
      assert y != [];
      SameFirst(x, y);
      forall k
        ensures WithKey(k, x[1..]) == WithKey(k, y[1..])
      {
        SameTail(k, x, y);
      }
      SortedDetermined(x[1..], y[1..]);
      assert x == [x[0]] + x[1..] && y == [y[0]] + y[1..];
    }
  }

  lemma SameTail(k: string, x: seq<Top>, y: seq<Top>)
    requires x != [] && y != [] && x[0] == y[0] && WithKey(k, x) == WithKey(k, y)
    ensures WithKey(k, x[1..]) == WithKey(k, y[1..])
  {
    var h := if ImportKey(x[0]) == k then [x[0]] else [];
    assert WithKey(k, x[1..]) == WithKey(k, x)[|h|..];
    assert WithKey(k, y[1..]) == WithKey(k, y)[|h|..];
  }

  lemma DifferentKeysSortApart(a: seq<Top>, b: seq<Top>, k: string)
    requires WithKey(k, a) != WithKey(k, b)
    ensures StableSort(a) != StableSort(b)
  {
    hide WithKey, StableSort;
    SortKeepsKeys(k, a);
    SortKeepsKeys(k, b);
    SameKeys(StableSort(a), StableSort(b), k);
  }

  lemma SameKeys(x: seq<Top>, y: seq<Top>, k: string)
    ensures x == y ==> WithKey(k, x) == WithKey(k, y)
  {
  }

  lemma SameKeysSortAlike(a: seq<Top>, b: seq<Top>)
    requires forall k :: WithKey(k, a) == WithKey(k, b)
    ensures StableSort(a) == StableSort(b)
  {
    hide WithKey, StableSort, SortedKeys;
    forall k
      ensures WithKey(k, StableSort(a)) == WithKey(k, StableSort(b))
    {
      SortKeepsKeys(k, a);
      SortKeepsKeys(k, b);
    }
    SortSortsKeys(a);
    SortSortsKeys(b);
    SortedDetermined(StableSort(a), StableSort(b));
  }

  /** Two runs of imports sort alike exactly when, key by key, they have the same
      statements in the same order. */
  lemma SortAlikeIff(a: seq<Top>, b: seq<Top>)
    ensures StableSort(a) == StableSort(b) <==> forall k :: WithKey(k, a) == WithKey(k, b)
  {
    hide WithKey, StableSort;
    if forall k :: WithKey(k, a) == WithKey(k, b) {
      SameKeysSortAlike(a, b);
    } else {
      var k :| WithKey(k, a) != WithKey(k, b);
      DifferentKeysSortApart(a, b, k);
    }
  }

  // ----- what a run binds

  ghost function BindAll(g: map<string, Val>, ts: seq<Top>): map<string, Val>
    requires AllImports(ts)
    decreases |ts|
  {
    if ts == [] then g else BindAll(g + Bindings(ts[0]), ts[1..])
  }

  /** The last statement that binds a name. */
  function LastBinder(ts: seq<Top>, x: string): (r: Option<Top>)
    requires AllImports(ts)
    ensures r.Some? ==> IsImport(r.value) && x in Bindings(r.value) && r.value in ts
  {
    if ts == [] then None
    else
      var r := LastBinder(ts[1..], x);
      if r.None? && x in Bindings(ts[0]) then Some(ts[0]) else r
  }

  /** Of the statements that bind a name, the last of those with the greatest key: an
      earlier one counts only if its key exceeds that of every later one. */
  function GreatestBinder(ts: seq<Top>, x: string): (r: Option<Top>)
    requires AllImports(ts)
    ensures r.Some? ==> IsImport(r.value) && x in Bindings(r.value) && r.value in ts
    ensures r.Some? <==> LastBinder(ts, x).Some?
  {
    if ts == [] then None
    else
      var r := GreatestBinder(ts[1..], x);
      if x in Bindings(ts[0]) && (r.None? || !KeyLe(ts[0], r.value)) then Some(ts[0]) else r
  }

  /** `x` is bound alike by the last statement of the run that binds it and by the last of
      those with the greatest key. */
  predicate BindsAlike(ts: seq<Top>, x: string)
    requires AllImports(ts)
  {
    LastBinder(ts, x).Some? ==>
      Bindings(LastBinder(ts, x).value)[x] == Bindings(GreatestBinder(ts, x).value)[x]
  }

  ghost predicate SortSafe(ts: seq<Top>)
    requires AllImports(ts)
  {
    forall x :: BindsAlike(ts, x)
  }

  lemma {:induction false} BindAllAt(g: map<string, Val>, ts: seq<Top>, x: string)
    requires AllImports(ts)
    ensures x in BindAll(g, ts) <==> LastBinder(ts, x).Some? || x in g
    ensures x in BindAll(g, ts) ==>
              BindAll(g, ts)[x] == if LastBinder(ts, x).Some? then Bindings(LastBinder(ts, x).value)[x] else g[x]
    decreases |ts|
  {
    if ts != [] { BindAllAt(g + Bindings(ts[0]), ts[1..], x); }
  }

  /** Inserting into a sorted run: a later binder with a key no less stays the last one. */
  lemma {:induction false} InsertLastBinder(t: Top, ts: seq<Top>, x: string)
    requires IsImport(t) && AllImports(ts) && AllImports(Insert(t, ts)) && SortedKeys(ts)
    ensures var r := LastBinder(ts, x);
            LastBinder(Insert(t, ts), x)
            == if x in Bindings(t) && (r.None? || !KeyLe(t, r.value)) then Some(t) else r
  {
    if ts == [] {
      assert [t][1..] == [];
    } else if KeyLe(t, ts[0]) {
      assert ([t] + ts)[1..] == ts;
      if LastBinder(ts, x).Some? {
        StrLeTransitive(ImportKey(t), ImportKey(ts[0]), ImportKey(LastBinder(ts, x).value));
      }
    } else {
      assert Insert(t, ts)[1..] == Insert(t, ts[1..]);
      InsertLastBinder(t, ts[1..], x);
    }
  }

  /** After the sort the last binder is the greatest one. */
  lemma {:induction false} SortedBinder(ts: seq<Top>, x: string)
    requires AllImports(ts) && AllImports(StableSort(ts))
    ensures LastBinder(StableSort(ts), x) == GreatestBinder(ts, x)
  {
    if ts != [] {
      SortElements(ts[1..]);
      SortSortsKeys(ts[1..]);
      SortedBinder(ts[1..], x);
      InsertLastBinder(ts[0], StableSort(ts[1..]), x);
    }
  }

  /** Sorting a run of imports leaves what it binds as it was exactly when the run is safe
      to sort. */
  lemma SortBindsIff(g: map<string, Val>, ts: seq<Top>)
    requires AllImports(ts)
    ensures AllImports(StableSort(ts))
    ensures BindAll(g, StableSort(ts)) == BindAll(g, ts) <==> SortSafe(ts)
  {
    SortElements(ts);
    var a, b := BindAll(g, StableSort(ts)), BindAll(g, ts);
    forall x
      ensures x in a <==> x in b
      ensures x in b ==> (a[x] == b[x] <==> BindsAlike(ts, x))
      ensures LastBinder(ts, x).Some? ==> x in b
    {
      BindAllAt(g, ts, x);
      BindAllAt(g, StableSort(ts), x);
      SortedBinder(ts, x);
    }
    hide BindAll, StableSort, LastBinder, GreatestBinder, Bindings;
    if a == b {
      assert forall x | x in b :: a[x] == b[x];
    }
  }

  /** In particular when any two statements that bind a common name bind it alike. */
  lemma AgreeingIsSafe(ts: seq<Top>)
    requires AllImports(ts)
    requires forall s, t, x | s in ts && t in ts && x in Bindings(s) && x in Bindings(t) ::
            Bindings(s)[x] == Bindings(t)[x]
    ensures SortSafe(ts)
  {
  }

  /** And when the run is in key order already. */
  lemma {:induction false} SortedIsSafe(ts: seq<Top>)
    requires AllImports(ts) && SortedKeys(ts)
    ensures SortSafe(ts)
  {
    forall x | LastBinder(ts, x).Some?
      ensures LastBinder(ts, x) == GreatestBinder(ts, x)
    {
      SortedGreatest(ts, x);
    }
  }

  lemma {:induction false} SortedGreatest(ts: seq<Top>, x: string)
    requires AllImports(ts) && SortedKeys(ts)
    ensures LastBinder(ts, x) == GreatestBinder(ts, x)
  {
    if ts != [] { SortedGreatest(ts[1..], x); }
  }

  // ----- running a module with its runs sorted

  lemma {:induction false} RunImports(p: seq<Fun>, w: World, run: seq<Top>, rest: seq<Top>, k: nat,
      st: State, fuel: nat)
    requires AllImports(run)
    ensures RunTops(p, w, run + rest, k, st, fuel)
            == RunTops(p, w, rest, k, st.(globals := BindAll(st.globals, run)), fuel)
    decreases |run|
  {
    if run == [] {
      assert run + rest == rest;
    } else {
      assert (run + rest)[1..] == run[1..] + rest;
      RunImports(p, w, run[1..], rest, k, st.(globals := st.globals + Bindings(run[0])), fuel);
    }
  }

  /** `ts[i..j]` is a contiguous run of imports that cannot be made longer. */
  ghost predicate ImportRun(ts: seq<Top>, i: nat, j: nat) {
    && i < j <= |ts| && (forall k | i <= k < j :: IsImport(ts[k]))
    && (i == 0 || !IsImport(ts[i - 1]))
    && (j == |ts| || !IsImport(ts[j]))
  }

  /** Every run of imports is safe to sort. */
  ghost predicate RunsSafe(ts: seq<Top>) {
    forall i: nat, j: nat | ImportRun(ts, i, j) :: SortSafe(ts[i..j])
  }

  lemma RunsSafeTail(ts: seq<Top>, n: nat)
    requires RunsSafe(ts) && 0 < n <= |ts| && (!IsImport(ts[n - 1]) || n == |ts| || !IsImport(ts[n]))
    ensures RunsSafe(ts[n..])
  {
    hide SortSafe;
    var us := ts[n..];
    forall i: nat, j: nat | ImportRun(us, i, j)
      ensures AllImports(us[i..j]) && SortSafe(us[i..j])
    {
      assert forall k | i + n <= k < j + n :: IsImport(us[k - n]) && us[k - n] == ts[k];
      assert ImportRun(ts, i + n, j + n);
      assert us[i..j] == ts[i + n..j + n];
    }
  }

  /** Only the imports matter. */
  lemma SameImportsSafe(ts: seq<Top>, us: seq<Top>)
    requires RunsSafe(ts) && |us| == |ts|
    requires forall k | 0 <= k < |ts| :: if IsImport(ts[k]) then us[k] == ts[k] else !IsImport(us[k])
    ensures RunsSafe(us)
  {
    hide SortSafe;
    forall i: nat, j: nat | ImportRun(us, i, j)
      ensures AllImports(us[i..j]) && SortSafe(us[i..j])
    {
      assert ImportRun(ts, i, j);
      assert us[i..j] == ts[i..j];
    }
  }

  /** Sorting the runs leaves the run of a module as it was. */
  lemma {:induction false} RunSorted(p: seq<Fun>, w: World, ts: seq<Top>, k: nat, st: State, fuel: nat)
    requires RunsSafe(ts)
    ensures RunTops(p, w, SortImports(ts), k, st, fuel) == RunTops(p, w, ts, k, st, fuel)
    decreases |ts|
  {
    hide RunsSafe, SortSafe;
    if ts != [] {
      if IsImport(ts[0]) {
        var n := RunLength(ts);
        RunsSafeTail(ts, n);
        RunSorted(p, w, ts[n..], k, st.(globals := BindAll(st.globals, ts[..n])), fuel);
        RunSortedRun(p, w, ts, n, k, st, fuel);
      } else {
        assert SortImports(ts)[1..] == SortImports(ts[1..]);
        RunsSafeTail(ts, 1);
        match ts[0]
        case Def(f) => RunSorted(p, w, ts[1..], k + 1, st.(globals := st.globals[f.name := VFun(k)]), fuel);
        case Plain(s) => RunSorted(p, w, ts[1..], k, Step(p, w, ModuleScope, s, st, fuel).1, fuel);
      }
    }
  }

  lemma RunSortedRun(p: seq<Fun>, w: World, ts: seq<Top>, n: nat, k: nat, st: State, fuel: nat)
    requires RunsSafe(ts) && ImportRun(ts, 0, n) && AllImports(ts[..n])
    ensures RunTops(p, w, ts, k, st, fuel)
         == RunTops(p, w, ts[n..], k, st.(globals := BindAll(st.globals, ts[..n])), fuel)
    ensures RunTops(p, w, StableSort(ts[..n]) + SortImports(ts[n..]), k, st, fuel)
         == RunTops(p, w, SortImports(ts[n..]), k, st.(globals := BindAll(st.globals, ts[..n])), fuel)
  {
    hide SortSafe, RunTops, SortImports, BindAll, StableSort;
    var run := ts[..n];
    assert run == ts[0..n];
    SortBindsIff(st.globals, run);
    RunImports(p, w, run, ts[n..], k, st, fuel);
    RunImports(p, w, StableSort(run), SortImports(ts[n..]), k, st, fuel);
    assert ts == run + ts[n..];
  }
}
