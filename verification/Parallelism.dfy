/** When two tasks may run at the same time: no shared files, no isolated project in
    common and no dependency, direct or not, in either direction. */
module Parallelism {
  import opened Basics

  /** A path in canonical form. A directory's text ends in a slash and stands for
      everything below it. */
  datatype Path = Path(text: string, dir: bool)

  datatype Priority = Critical | High | Medium | Low | Unset

  /** A task record; `files` is absent when the record has no list of them, and `deps` are
      its dependencies that are strings. */
  datatype TaskSpec = TaskSpec(
    id: Option<Id>,
    deps: seq<Id>,
    files: Option<seq<Path>>,
    project: string,
    priority: Priority,
    mtime: real)

  // ----- files

  predicate PathsMeet(a: Path, b: Path) {
    a.text == b.text || (a.dir && a.text <= b.text) || (b.dir && b.text <= a.text)
  }

  predicate FilesOverlap(a: seq<Path>, b: seq<Path>) {
    exists i, j | 0 <= i < |a| && 0 <= j < |b| :: PathsMeet(a[i], b[j])
  }

  /** The strings a path stands for: a file its own text, a directory all that start with
      its text. */
  predicate Denotes(p: Path, s: string) {
    if p.dir then p.text <= s else s == p.text
  }

  ghost predicate DenotesAny(ps: seq<Path>, s: string) {
    exists i | 0 <= i < |ps| :: Denotes(ps[i], s)
  }

  /** Of two prefixes of one string, one is a prefix of the other. */
  lemma PrefixesCompare(a: string, b: string, s: string)
    requires a <= s && b <= s
    ensures a <= b || b <= a
  {
    assert a == s[..|a|] && b == s[..|b|];
    if |a| <= |b| {
      assert b[..|a|] == a;
    } else {
      assert a[..|b|] == b;
    }
  }

  lemma PathsMeetIff(a: Path, b: Path)
    ensures PathsMeet(a, b) <==> exists s :: Denotes(a, s) && Denotes(b, s)
  {
    if PathsMeet(a, b) {
      var s := if a.dir && a.text <= b.text then b.text else a.text;
      assert Denotes(a, s) && Denotes(b, s);
    }
    if s :| Denotes(a, s) && Denotes(b, s) {
      PrefixesCompare(a.text, b.text, s);
      assert a.text <= b.text <= a.text ==> a.text == b.text;
    }
  }

  /** Two file lists overlap exactly when the sets they denote intersect. */
  lemma OverlapIff(a: seq<Path>, b: seq<Path>)
    ensures FilesOverlap(a, b) <==> exists s :: DenotesAny(a, s) && DenotesAny(b, s)
  {
    if i, j :| 0 <= i < |a| && 0 <= j < |b| && PathsMeet(a[i], b[j]) {
      PathsMeetIff(a[i], b[j]);
      var s :| Denotes(a[i], s) && Denotes(b[j], s);
      assert DenotesAny(a, s) && DenotesAny(b, s);
    }
    if s :| DenotesAny(a, s) && DenotesAny(b, s) {
      var i :| 0 <= i < |a| && Denotes(a[i], s);
      var j :| 0 <= j < |b| && Denotes(b[j], s);
      PathsMeetIff(a[i], b[j]);
    }
  }

  // ----- dependencies

  /** The records by id; of several with one id the last counts. */
  function Index(tasks: seq<TaskSpec>): map<Id, TaskSpec> {
    if tasks == [] then map[]
    else
      var t := tasks[|tasks| - 1];
      var rest := Index(tasks[..|tasks| - 1]);
      if t.id.Some? then rest[t.id.value := t] else rest
  }

  lemma {:induction false} IndexIsLast(tasks: seq<TaskSpec>, id: Id)
    ensures id in Index(tasks) <==> exists i :: 0 <= i < |tasks| && tasks[i].id == Some(id)
    ensures id in Index(tasks) ==>
              exists i :: 0 <= i < |tasks| && tasks[i].id == Some(id) && Index(tasks)[id] == tasks[i]
                          && forall j | i < j < |tasks| :: tasks[j].id != Some(id)
  {
    if tasks != [] {
      var n := |tasks| - 1;
      IndexIsLast(tasks[..n], id);
      if tasks[n].id == Some(id) {
        assert Index(tasks)[id] == tasks[n];
      } else {
        assert id in Index(tasks) <==> id in Index(tasks[..n]);
        if id in Index(tasks) {
          var i :| 0 <= i < n && tasks[..n][i].id == Some(id) && Index(tasks[..n])[id] == tasks[..n][i]
                   && forall j | i < j < n :: tasks[..n][j].id != Some(id);
          assert forall j | i < j < |tasks| :: j < n ==> tasks[j] == tasks[..n][j];
          assert tasks[i] == tasks[..n][i];
        } else {
          assert forall i | 0 <= i < n :: tasks[i] == tasks[..n][i];
        }
      }
    }
  }

  /** A path of one or more dependency edges. */
  ghost predicate DepPath(idx: map<Id, TaskSpec>, p: seq<Id>) {
    |p| >= 2 && forall k | 0 <= k < |p| - 1 :: p[k] in idx && p[k + 1] in idx[p[k]].deps
  }

  ghost predicate DependsOn(idx: map<Id, TaskSpec>, a: Id, b: Id) {
    exists p :: DepPath(idx, p) && p[0] == a && p[|p| - 1] == b
  }

  /** `r` is what `start` depends on by one or more edges, without `start` itself. */
  ghost predicate IsTransitiveDeps(tasks: seq<TaskSpec>, start: Option<Id>, r: set<Id>) {
    forall x :: x in r <==> start.Some? && x != start.value && DependsOn(Index(tasks), start.value, x)
  }

  function AllDeps(idx: map<Id, TaskSpec>): set<Id> {
    set k, x | k in idx && x in idx[k].deps :: x
  }

  lemma ExtendDepPath(idx: map<Id, TaskSpec>, a: Id, b: Id, c: Id)
    requires a == b || DependsOn(idx, a, b)
    requires b in idx && c in idx[b].deps
    ensures DependsOn(idx, a, c)
  {
    if a == b {
      var p := [a, c];
      assert DepPath(idx, p) && p[0] == a && p[|p| - 1] == c;
    } else {
      var p :| DepPath(idx, p) && p[0] == a && p[|p| - 1] == b;
      var q := p + [c];
      assert DepPath(idx, q) && q[0] == a && q[|q| - 1] == c;
    }
  }

  ghost predicate Closed(idx: map<Id, TaskSpec>, visited: set<Id>, pending: seq<Id>) {
    forall y, d | y in visited && y in idx && d in idx[y].deps :: d in visited || d in pending
  }

  /** A closed set that holds the start of a path holds its end. */
  lemma {:induction false} PathStaysInside(idx: map<Id, TaskSpec>, visited: set<Id>, p: seq<Id>)
    requires Closed(idx, visited, []) && DepPath(idx, p) && p[0] in visited
    ensures p[|p| - 1] in visited
    decreases |p|
  {
    assert p[1] in idx[p[0]].deps;
    if |p| > 2 { PathStaysInside(idx, visited, p[1..]); }
  }

  /** Everything queued is a dependency of `a`. */
  ghost predicate Pending(idx: map<Id, TaskSpec>, a: Id, queue: seq<Id>) {
    forall x | x in queue :: DependsOn(idx, a, x) && x in AllDeps(idx)
  }

  lemma StartsPending(idx: map<Id, TaskSpec>, a: Id)
    requires a in idx
    ensures Pending(idx, a, idx[a].deps) && Closed(idx, {a}, idx[a].deps)
  {
    forall x | x in idx[a].deps
      ensures DependsOn(idx, a, x)
    {
      ExtendDepPath(idx, a, a, x);
    }
  }

  /** Taking the first of the queue: it is skipped if visited, and else visited, with its
      own dependencies queued. */
  lemma PendingNext(idx: map<Id, TaskSpec>, a: Id, visited: set<Id>, queue: seq<Id>)
    requires queue != [] && Pending(idx, a, queue) && Closed(idx, visited, queue)
    ensures DependsOn(idx, a, queue[0])
    ensures queue[0] in visited ==> Pending(idx, a, queue[1..]) && Closed(idx, visited, queue[1..])
    ensures queue[0] !in visited ==> |AllDeps(idx) - (visited + {queue[0]})| < |AllDeps(idx) - visited|
    ensures queue[0] !in visited && queue[0] !in idx
            ==> Pending(idx, a, queue[1..]) && Closed(idx, visited + {queue[0]}, queue[1..])
    ensures forall longer |
              && queue[0] !in visited && queue[0] in idx
              && (forall x :: x in longer
                       <==> x in queue[1..] || (x in idx[queue[0]].deps && x !in visited + {queue[0]})) ::
              Pending(idx, a, longer) && Closed(idx, visited + {queue[0]}, longer)
  {
    hide DependsOn;
    var dep := queue[0];
    assert dep in queue;
    assert forall d | d in queue :: d == dep || d in queue[1..];
    if dep !in visited {
      ProperSubsetSize(AllDeps(idx) - (visited + {dep}), AllDeps(idx) - visited, dep);
      if dep in idx {
        forall c | c in idx[dep].deps
          ensures DependsOn(idx, a, c)
        {
          ExtendDepPath(idx, a, dep, c);
        }
      }
    }
  }

  lemma ClosedHasAll(idx: map<Id, TaskSpec>, visited: set<Id>, a: Id)
    requires Closed(idx, visited, []) && a in visited
    ensures forall x | DependsOn(idx, a, x) :: x in visited
  {
    forall x | DependsOn(idx, a, x)
      ensures x in visited
    {
      var p :| DepPath(idx, p) && p[0] == a && p[|p| - 1] == x;
      PathStaysInside(idx, visited, p);
    }
  }

  lemma NoDepsOutside(idx: map<Id, TaskSpec>, a: Id)
    requires a !in idx
    ensures forall x :: !DependsOn(idx, a, x)
  {
  }

  /** Appends the dependencies not visited yet. */
  method Enqueue(queue: seq<Id>, deps: seq<Id>, visited: set<Id>) returns (longer: seq<Id>)
    ensures forall x :: x in longer <==> x in queue || (x in deps && x !in visited)
  {
    longer := queue;
    for i := 0 to |deps|
      invariant forall x :: x in longer <==> x in queue || (x in deps[..i] && x !in visited)
    {
      if deps[i] !in visited {
        longer := longer + [deps[i]];
      }
    }
    assert deps[..|deps|] == deps;
  }

  /** `transitive_deps`; it ends on every list of tasks, cyclic or with dangling ids. */
  method TransitiveDeps(start: Option<Id>, tasks: seq<TaskSpec>) returns (result: set<Id>)
    ensures IsTransitiveDeps(tasks, start, result)
  {
    hide DependsOn, Index, Pending, Closed, AllDeps;
    var idx := Index(tasks);
    if start.None? || start.value !in idx {
      if start.Some? { NoDepsOutside(idx, start.value); }
      return {};
    }
    var a := start.value;
    var visited := {a};
    result := {};
    var queue := idx[a].deps;
    StartsPending(idx, a);
    while queue != []
      invariant visited == result + {a} && a !in result
      invariant forall x | x in result :: DependsOn(idx, a, x)
      invariant Pending(idx, a, queue) && Closed(idx, visited, queue)
      decreases |AllDeps(idx) - visited|, |queue|
    {
      var dep := queue[0];
      PendingNext(idx, a, visited, queue);
      queue := queue[1..];
      if dep in visited {
        continue;
      }
      visited := visited + {dep};
      result := result + {dep};
      if dep in idx {
        queue := Enqueue(queue, idx[dep].deps, visited);
      }
    }
    ClosedHasAll(idx, visited, a);
  }

  // ----- the decision

  const ISOLATED: set<string> := {"/home/xnihil0zer0/NobleGreedv2"}
  const SELFHEAL := "selfheal_"

  predicate IsSelfheal(t: TaskSpec) {
    t.id.Some? && SELFHEAL <= t.id.value
  }

  predicate FilesKnown(t: TaskSpec) {
    t.files.Some? && t.files.value != []
  }

  /** `x` is among the transitive dependencies of `start`. */
  ghost predicate AmongDeps(x: Option<Id>, start: Option<Id>, tasks: seq<TaskSpec>) {
    x.Some? && start.Some? && x != start && DependsOn(Index(tasks), start.value, x.value)
  }

  /** The two tasks may run at the same time. A self-heal task may run beside any other; of
      two others a conservative check wants to know the files, and both must not work in the
      one isolated project. */
  ghost predicate ParallelSafe(a: TaskSpec, b: TaskSpec, tasks: Option<seq<TaskSpec>>, conservative: bool) {
    && a.id != b.id
    && ((a.id.Some? && "selfheal_" <= a.id.value) || (b.id.Some? && "selfheal_" <= b.id.value)
        || (&& !(a.project == b.project == "/home/xnihil0zer0/NobleGreedv2")
            && (conservative ==> a.files.Some? && b.files.Some? && a.files.value != [] && b.files.value != [])
            && (a.files.Some? && b.files.Some? ==>
                  forall s :: !(DenotesAny(a.files.value, s) && DenotesAny(b.files.value, s)))
            && (tasks.Some? ==> !AmongDeps(a.id, b.id, tasks.value) && !AmongDeps(b.id, a.id, tasks.value))))
  }

  /** `can_run_parallel`. */
  method CanRunParallel(a: TaskSpec, b: TaskSpec, tasks: Option<seq<TaskSpec>>, conservative: bool) returns (ok: bool)
    ensures ok <==> ParallelSafe(a, b, tasks, conservative)
  {
    if a.id == b.id {
      return false;
    }
    if IsSelfheal(a) || IsSelfheal(b) {
      return true;
    }
    if a.project == b.project && a.project in ISOLATED {
      return false;
    }
    if conservative && (!FilesKnown(a) || !FilesKnown(b)) {
      return false;
    }
    if a.files.Some? && b.files.Some? {
      OverlapIff(a.files.value, b.files.value);
      if FilesOverlap(a.files.value, b.files.value) {
        return false;
      }
    }
    if tasks.Some? {
      var ofB := TransitiveDeps(b.id, tasks.value);
      if a.id.Some? && a.id.value in ofB {
        return false;
      }
      var ofA := TransitiveDeps(a.id, tasks.value);
      if b.id.Some? && b.id.value in ofA {
        return false;
      }
    }
    return true;
  }

  /** The order of the two tasks does not matter. */
  lemma ParallelSafeSymmetric(a: TaskSpec, b: TaskSpec, tasks: Option<seq<TaskSpec>>, conservative: bool)
    ensures ParallelSafe(a, b, tasks, conservative) <==> ParallelSafe(b, a, tasks, conservative)
  {
  }
}
