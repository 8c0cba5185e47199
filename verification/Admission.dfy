/** Which tasks the daemon launches next: the dispatchable ones in priority order, each
    admitted if it can run beside the running ones and those admitted before it. */
module Admission {
  import opened Basics
  import opened Parallelism

  function Rank(p: Priority): nat {
    match p
    case Critical => 0
    case High => 1
    case Medium => 2
    case Low => 3
    case Unset => 4
  }

  /** The sort key of `a` is at most that of `b`. */
  predicate KeyLeq(a: TaskSpec, b: TaskSpec) {
    Rank(a.priority) < Rank(b.priority) || (a.priority == b.priority && a.mtime <= b.mtime)
  }

  // ----- collecting

  /** The record of a running task, or a stand-in with an empty list of files. */
  function RunningSpec(tasks: seq<TaskSpec>, id: Id): TaskSpec {
    if id in Index(tasks) then Index(tasks)[id] else TaskSpec(Some(id), [], Some([]), "", Unset, 0.0)
  }

  function RunningSpecs(tasks: seq<TaskSpec>, running: seq<Id>): (specs: seq<TaskSpec>)
    ensures |specs| == |running|
    ensures forall i | 0 <= i < |running| :: specs[i] == RunningSpec(tasks, running[i])
  {
    seq(|running|, i requires 0 <= i < |running| => RunningSpec(tasks, running[i]))
  }

  ghost predicate SafeWithAll(t: TaskSpec, others: seq<TaskSpec>, tasks: seq<TaskSpec>) {
    forall i | 0 <= i < |others| :: ParallelSafe(t, others[i], Some(tasks), true)
  }

  predicate DepsAccepted(t: TaskSpec, accepted: set<Id>) {
    forall i | 0 <= i < |t.deps| :: t.deps[i] in accepted
  }

  predicate IsRunning(t: TaskSpec, running: seq<Id>) {
    t.id.Some? && t.id.value in running
  }

  ghost predicate Dispatchable(t: TaskSpec, tasks: seq<TaskSpec>, accepted: set<Id>, running: seq<Id>) {
    && !IsRunning(t, running)
    && DepsAccepted(t, accepted)
    && SafeWithAll(t, RunningSpecs(tasks, running), tasks)
  }

  /** Some parallel check of `t` with one of `others` fails. */
  method ConflictsWithAny(t: TaskSpec, others: seq<TaskSpec>, tasks: seq<TaskSpec>) returns (conflict: bool)
    ensures conflict <==> !SafeWithAll(t, others, tasks)
  {
    for i := 0 to |others|
      invariant forall j | 0 <= j < i :: ParallelSafe(t, others[j], Some(tasks), true)
    {
      var ok := CanRunParallel(t, others[i], Some(tasks), true);
      if !ok {
        return true;
      }
    }
    return false;
  }

  /** The tasks to keep, in order. */
  function Filter(ts: seq<TaskSpec>, keep: TaskSpec -> bool): seq<TaskSpec> {
    if ts == [] then []
    else
      var rest := Filter(ts[..|ts| - 1], keep);
      if keep(ts[|ts| - 1]) then rest + [ts[|ts| - 1]] else rest
  }

  lemma {:induction false} FilterMembers(ts: seq<TaskSpec>, keep: TaskSpec -> bool)
    ensures forall t :: t in Filter(ts, keep) <==> t in ts && keep(t)
  {
    if ts != [] {
      FilterMembers(ts[..|ts| - 1], keep);
      assert ts == ts[..|ts| - 1] + [ts[|ts| - 1]];
    }
  }

  ghost function CanDispatch(tasks: seq<TaskSpec>, accepted: set<Id>, running: seq<Id>): TaskSpec -> bool {
    t => Dispatchable(t, tasks, accepted, running)
  }

  /** `collect_dispatchable_tasks`, from the records that read, in the order of their
      files. */
  method CollectDispatchable(tasks: seq<TaskSpec>, accepted: set<Id>, running: seq<Id>)
      returns (candidates: seq<TaskSpec>)
    ensures candidates == Filter(tasks, CanDispatch(tasks, accepted, running))
  {
    hide Dispatchable, ParallelSafe, Index;
    candidates := [];
    var specs := RunningSpecs(tasks, running);
    ghost var keep := CanDispatch(tasks, accepted, running);
    for i := 0 to |tasks|
      invariant candidates == Filter(tasks[..i], keep)
    {
      var task := tasks[i];
      assert tasks[..i + 1][..i] == tasks[..i];
      DispatchableIs(task, tasks, accepted, running);
      if IsRunning(task, running) {
        continue;
      }
      if !DepsAccepted(task, accepted) {
        continue;
      }
      var conflict := ConflictsWithAny(task, specs, tasks);
      if conflict {
        continue;
      }
      candidates := candidates + [task];
    }
    assert tasks[..|tasks|] == tasks;
  }

  lemma DispatchableIs(t: TaskSpec, tasks: seq<TaskSpec>, accepted: set<Id>, running: seq<Id>)
    ensures Dispatchable(t, tasks, accepted, running)
       <==> !IsRunning(t, running) && DepsAccepted(t, accepted) && SafeWithAll(t, RunningSpecs(tasks, running), tasks)
  {
  }

  /** `t` is the last record of an id in the list. */
  ghost predicate IsLast(tasks: seq<TaskSpec>, id: Id, t: TaskSpec) {
    exists i :: 0 <= i < |tasks| && tasks[i] == t && t.id == Some(id)
                && forall j | i < j < |tasks| :: tasks[j].id != Some(id)
  }

  lemma RecordOf(tasks: seq<TaskSpec>, id: Id, t: TaskSpec)
    ensures id in Index(tasks) <==> exists u :: u in tasks && u.id == Some(id)
    ensures IsLast(tasks, id, t) <==> id in Index(tasks) && Index(tasks)[id] == t
  {
    IndexIsLast(tasks, id);
    hide Index;
    if i :| 0 <= i < |tasks| && tasks[i].id == Some(id) {
      assert tasks[i] in tasks;
    }
    if u :| u in tasks && u.id == Some(id) {
      var i :| 0 <= i < |tasks| && tasks[i] == u;
      assert tasks[i].id == Some(id);
    }
  }

  /** Without a record of its own a running task has no files that are known. */
  lemma StandIn(t: TaskSpec, tasks: seq<TaskSpec>, r: Id)
    requires r !in Index(tasks)
    ensures ParallelSafe(t, RunningSpec(tasks, r), Some(tasks), true)
       <==> t.id != Some(r) && ("selfheal_" <= r || (t.id.Some? && "selfheal_" <= t.id.value))
  {
  }

  lemma SafeBesideOne(t: TaskSpec, tasks: seq<TaskSpec>, r: Id)
    requires t.id != Some(r)
    ensures ParallelSafe(t, RunningSpec(tasks, r), Some(tasks), true)
       <==> && (forall u | IsLast(tasks, r, u) :: ParallelSafe(t, u, Some(tasks), true))
            && ((forall u | u in tasks :: u.id != Some(r)) ==>
                  "selfheal_" <= r || (t.id.Some? && "selfheal_" <= t.id.value))
  {
    var own := RunningSpec(tasks, r);
    RecordOf(tasks, r, own);
    if r !in Index(tasks) { StandIn(t, tasks, r); }
    forall u | IsLast(tasks, r, u)
      ensures r in Index(tasks) && u == own
    {
      RecordOf(tasks, r, u);
    }
    hide ParallelSafe, Index, IsLast;
  }

  lemma SafeBesideAll(t: TaskSpec, tasks: seq<TaskSpec>, running: seq<Id>)
    ensures SafeWithAll(t, RunningSpecs(tasks, running), tasks)
       <==> forall r | r in running :: ParallelSafe(t, RunningSpec(tasks, r), Some(tasks), true)
  {
    hide ParallelSafe, RunningSpec;
    var specs := RunningSpecs(tasks, running);
    assert forall i | 0 <= i < |running| :: running[i] in running && specs[i] == RunningSpec(tasks, running[i]);
  }

  /** The candidates are exactly the records that are not running, whose dependencies are all
      accepted and that can run beside each running task: beside the last record of its id,
      and if it has none, only where one of the two is a self-heal task. */
  lemma CandidatesIff(tasks: seq<TaskSpec>, accepted: set<Id>, running: seq<Id>, t: TaskSpec)
    ensures t in Filter(tasks, CanDispatch(tasks, accepted, running))
       <==> && t in tasks && (t.id.Some? ==> t.id.value !in running) && (forall d | d in t.deps :: d in accepted)
            && (forall r, u | r in running && IsLast(tasks, r, u) :: ParallelSafe(t, u, Some(tasks), true))
            && (forall r | r in running && (forall u | u in tasks :: u.id != Some(r)) ::
                  "selfheal_" <= r || (t.id.Some? && "selfheal_" <= t.id.value))
  {
    FilterMembers(tasks, CanDispatch(tasks, accepted, running));
    SafeBesideAll(t, tasks, running);
    hide ParallelSafe, Filter, SafeWithAll, RunningSpec, IsLast;
    if t.id.Some? ==> t.id.value !in running {
      forall r | r in running
        ensures ParallelSafe(t, RunningSpec(tasks, r), Some(tasks), true)
           <==> && (forall u | IsLast(tasks, r, u) :: ParallelSafe(t, u, Some(tasks), true))
                && ((forall u | u in tasks :: u.id != Some(r)) ==>
                      "selfheal_" <= r || (t.id.Some? && "selfheal_" <= t.id.value))
      {
        SafeBesideOne(t, tasks, r);
      }
    }
  }

  // ----- ordering

  function Insert(t: TaskSpec, ts: seq<TaskSpec>): seq<TaskSpec> {
    if ts == [] || KeyLeq(t, ts[0]) then [t] + ts else [ts[0]] + Insert(t, ts[1..])
  }

  /** `prioritize`: the stable sort by rank, then modification time. */
  function Prioritize(ts: seq<TaskSpec>): seq<TaskSpec> {
    if ts == [] then [] else Insert(ts[0], Prioritize(ts[1..]))
  }

  predicate Ordered(ts: seq<TaskSpec>) {
    forall i, j | 0 <= i < j < |ts| :: KeyLeq(ts[i], ts[j])
  }

  /** The tasks with the key of `t`, in order. */
  function SameKey(t: TaskSpec): TaskSpec -> bool {
    u => KeyLeq(t, u) && KeyLeq(u, t)
  }

  lemma OrderedCons(t: TaskSpec, ts: seq<TaskSpec>)
    requires Ordered(ts) && forall u | u in ts :: KeyLeq(t, u)
    ensures Ordered([t] + ts)
  {
    hide KeyLeq;
  }

  lemma OrderedFront(t: TaskSpec, ts: seq<TaskSpec>)
    requires Ordered(ts) && ts != [] && KeyLeq(t, ts[0])
    ensures forall u | u in ts :: KeyLeq(t, u)
  {
  }

  lemma {:induction false} InsertOrdered(t: TaskSpec, ts: seq<TaskSpec>)
    requires Ordered(ts)
    ensures Ordered(Insert(t, ts)) && multiset(Insert(t, ts)) == multiset{t} + multiset(ts)
  {
    if ts == [] {
    } else if KeyLeq(t, ts[0]) {
      OrderedFront(t, ts);
      OrderedCons(t, ts);
    } else {
      assert KeyLeq(ts[0], t);
      hide KeyLeq;
      assert ts == [ts[0]] + ts[1..];
      InsertOrdered(t, ts[1..]);
      var r := Insert(t, ts[1..]);
      forall u | u in r
        ensures KeyLeq(ts[0], u)
      {
        assert u in multiset(r);
      }
      OrderedCons(ts[0], r);
    }
  }

  lemma {:induction false} FilterCons(t: TaskSpec, ts: seq<TaskSpec>, keep: TaskSpec -> bool)
    ensures Filter([t] + ts, keep) == (if keep(t) then [t] else []) + Filter(ts, keep)
  {
    if ts == [] {
      assert [t] + ts == [t] && [t][..0] == [];
    } else {
      var n := |ts| - 1;
      assert ([t] + ts)[..n + 1] == [t] + ts[..n];
      FilterCons(t, ts[..n], keep);
    }
  }

  lemma {:induction false} InsertStable(t: TaskSpec, ts: seq<TaskSpec>, k: TaskSpec)
    ensures Filter(Insert(t, ts), SameKey(k)) == Filter([t] + ts, SameKey(k))
  {
    if ts != [] && !KeyLeq(t, ts[0]) {
      var same := SameKey(k);
      InsertStable(t, ts[1..], k);
      FilterCons(ts[0], Insert(t, ts[1..]), same);
      FilterCons(t, ts[1..], same);
      FilterCons(t, ts, same);
      FilterCons(ts[0], ts[1..], same);
      assert ts == [ts[0]] + ts[1..];
      assert !(same(t) && same(ts[0]));
    }
  }

  /** The sort orders, permutes and keeps the order of tasks with equal keys. */
  lemma {:induction false} PrioritizeIsStableSort(ts: seq<TaskSpec>, k: TaskSpec)
    ensures Ordered(Prioritize(ts)) && multiset(Prioritize(ts)) == multiset(ts)
    ensures Filter(Prioritize(ts), SameKey(k)) == Filter(ts, SameKey(k))
  {
    if ts != [] {
      PrioritizeIsStableSort(ts[1..], k);
      InsertOrdered(ts[0], Prioritize(ts[1..]));
      InsertStable(ts[0], Prioritize(ts[1..]), k);
      FilterCons(ts[0], Prioritize(ts[1..]), SameKey(k));
      FilterCons(ts[0], ts[1..], SameKey(k));
      assert ts == [ts[0]] + ts[1..];
    }
  }

  /** No task comes before a more urgent one. */
  lemma UrgentFirst(ts: seq<TaskSpec>, i: nat, j: nat)
    requires i < j < |ts|
    ensures var a := Prioritize(ts);
            && |a| == |ts|
            && (a[j].priority.Critical? ==> a[i].priority.Critical?)
            && (a[j].priority.High? ==> a[i].priority.Critical? || a[i].priority.High?)
            && (a[i].priority.Low? ==> a[j].priority.Low? || a[j].priority.Unset?)
            && (a[i].priority.Unset? ==> a[j].priority.Unset?)
            && (a[i].priority == a[j].priority ==> a[i].mtime <= a[j].mtime)
  {
    PrioritizeIsStableSort(ts, ts[0]);
    assert |multiset(Prioritize(ts))| == |multiset(ts)|;
    assert KeyLeq(Prioritize(ts)[i], Prioritize(ts)[j]);
  }

  // ----- admission

  /** `t` conflicts with a running task or with one picked before position `i`. */
  ghost predicate Blocked(i: nat, ordered: seq<TaskSpec>, picks: seq<nat>, running: seq<TaskSpec>, tasks: seq<TaskSpec>)
    requires i < |ordered| && forall k | 0 <= k < |picks| :: picks[k] < |ordered|
  {
    || (exists r | 0 <= r < |running| :: !ParallelSafe(ordered[i], running[r], Some(tasks), true))
    || (exists k | 0 <= k < |picks| :: picks[k] < i && !ParallelSafe(ordered[i], ordered[picks[k]], Some(tasks), true))
  }

  /** `picks` are the positions a greedy pass over `ordered` admits: ascending, none
      blocked, at most `free`, and each position passed over is blocked, unless all free
      slots were taken before it. */
  ghost predicate GreedyPicks(picks: seq<nat>, upTo: nat, ordered: seq<TaskSpec>, running: seq<TaskSpec>,
      tasks: seq<TaskSpec>, free: nat)
  {
    && upTo <= |ordered|
    && (forall k | 0 <= k < |picks| :: picks[k] < upTo)
    && (forall j, k | 0 <= j < k < |picks| :: picks[j] < picks[k])
    && |picks| <= free
    && (forall k | 0 <= k < |picks| :: !Blocked(picks[k], ordered, picks, running, tasks))
    && (forall i | 0 <= i < upTo && i !in picks :: Blocked(i, ordered, picks, running, tasks)
                                                  || (|picks| == free && (picks == [] || i > picks[free - 1])))
  }

  function Taken(ordered: seq<TaskSpec>, picks: seq<nat>): (chosen: seq<TaskSpec>)
    requires forall k | 0 <= k < |picks| :: picks[k] < |ordered|
    ensures |chosen| == |picks| && forall k | 0 <= k < |picks| :: chosen[k] == ordered[picks[k]]
  {
    seq(|picks|, k requires 0 <= k < |picks| => ordered[picks[k]])
  }

  /** Positions picked at or after `i` do not block `i`. */
  lemma BlockedBefore(i: nat, n: nat, ordered: seq<TaskSpec>, p: seq<nat>, q: seq<nat>, running: seq<TaskSpec>,
      tasks: seq<TaskSpec>)
    requires i < |ordered| && n <= |p| && n <= |q| && p[..n] == q[..n]
    requires forall k | 0 <= k < |p| :: p[k] < |ordered|
    requires forall k | 0 <= k < |q| :: q[k] < |ordered|
    requires (forall k | n <= k < |p| :: p[k] >= i) && (forall k | n <= k < |q| :: q[k] >= i)
    ensures Blocked(i, ordered, p, running, tasks) <==> Blocked(i, ordered, q, running, tasks)
  {
    hide ParallelSafe;
    assert forall k | 0 <= k < n :: p[k] == p[..n][k] == q[..n][k] == q[k];
  }

  lemma BlockedIff(i: nat, ordered: seq<TaskSpec>, picks: seq<nat>, running: seq<TaskSpec>, tasks: seq<TaskSpec>)
    requires i < |ordered| && forall k | 0 <= k < |picks| :: picks[k] < i
    ensures Blocked(i, ordered, picks, running, tasks)
       <==> !SafeWithAll(ordered[i], Taken(ordered, picks), tasks) || !SafeWithAll(ordered[i], running, tasks)
  {
    hide ParallelSafe;
  }

  /** One more position. */
  lemma GreedyNext(picks: seq<nat>, i: nat, ordered: seq<TaskSpec>, running: seq<TaskSpec>,
      tasks: seq<TaskSpec>, free: nat)
    requires GreedyPicks(picks, i, ordered, running, tasks, free) && i < |ordered| && |picks| < free
    ensures var next := if Blocked(i, ordered, picks, running, tasks) then picks else picks + [i];
            GreedyPicks(next, i + 1, ordered, running, tasks, free)
  {
    hide Blocked;
    var longer := picks + [i];
    forall j | 0 <= j < |ordered| && j <= i
      ensures Blocked(j, ordered, longer, running, tasks) <==> Blocked(j, ordered, picks, running, tasks)
    {
      BlockedBefore(j, |picks|, ordered, longer, picks, running, tasks);
    }
    assert forall j | 0 <= j < i + 1 && j !in longer :: j !in picks && j < i;
  }

  /** Once the slots are taken the rest is passed over. */
  lemma GreedyFull(picks: seq<nat>, i: nat, ordered: seq<TaskSpec>, running: seq<TaskSpec>,
      tasks: seq<TaskSpec>, free: nat)
    requires GreedyPicks(picks, i, ordered, running, tasks, free) && |picks| == free
    ensures GreedyPicks(picks, |ordered|, ordered, running, tasks, free)
  {
    hide Blocked;
  }

  /** The positions are determined. */
  lemma GreedyUnique(p: seq<nat>, q: seq<nat>, ordered: seq<TaskSpec>, running: seq<TaskSpec>,
      tasks: seq<TaskSpec>, free: nat)
    requires GreedyPicks(p, |ordered|, ordered, running, tasks, free)
    requires GreedyPicks(q, |ordered|, ordered, running, tasks, free)
    ensures p == q
  {
    hide GreedyPicks, Blocked;
    SamePrefix(p, q, |p|, ordered, running, tasks, free);
    SamePrefix(q, p, |q|, ordered, running, tasks, free);
  }

  lemma {:induction false} SamePrefix(p: seq<nat>, q: seq<nat>, n: nat, ordered: seq<TaskSpec>, running: seq<TaskSpec>,
      tasks: seq<TaskSpec>, free: nat)
    requires GreedyPicks(p, |ordered|, ordered, running, tasks, free)
    requires GreedyPicks(q, |ordered|, ordered, running, tasks, free)
    requires n <= |p|
    ensures n <= |q| && p[..n] == q[..n]
  {
    hide GreedyPicks, Blocked;
    if n > 0 {
      SamePrefix(p, q, n - 1, ordered, running, tasks, free);
      NextAgrees(p, q, n - 1, ordered, running, tasks, free);
    }
  }

  /** If `p` and `q` agree before position `n` and `p` goes on, `q` goes on to the same. */
  lemma NextAgrees(p: seq<nat>, q: seq<nat>, n: nat, ordered: seq<TaskSpec>, running: seq<TaskSpec>,
      tasks: seq<TaskSpec>, free: nat)
    requires GreedyPicks(p, |ordered|, ordered, running, tasks, free)
    requires GreedyPicks(q, |ordered|, ordered, running, tasks, free)
    requires n < |p| && n <= |q| && p[..n] == q[..n]
    ensures n < |q| && q[n] == p[n]
  {
    hide GreedyPicks, Blocked;
    NextBy(p, q, n, ordered, running, tasks, free);
    NextBy(q, p, n, ordered, running, tasks, free);
  }

  lemma NextBy(p: seq<nat>, q: seq<nat>, n: nat, ordered: seq<TaskSpec>, running: seq<TaskSpec>,
      tasks: seq<TaskSpec>, free: nat)
    requires GreedyPicks(p, |ordered|, ordered, running, tasks, free)
    requires GreedyPicks(q, |ordered|, ordered, running, tasks, free)
    requires n <= |p| && n <= |q| && p[..n] == q[..n]
    ensures n < |p| ==> n < |q| && q[n] <= p[n]
  {
    hide Blocked;
    if n < |p| {
      var i := p[n];
      assert forall k | 0 <= k < n :: p[k] == p[..n][k] == q[..n][k] == q[k];
      if n == |q| || q[n] > i { BlockedBefore(i, n, ordered, p, q, running, tasks); }
    }
  }

  lemma TakenNext(ordered: seq<TaskSpec>, picks: seq<nat>, i: nat)
    requires i < |ordered| && forall k | 0 <= k < |picks| :: picks[k] < i
    ensures Taken(ordered, picks + [i]) == Taken(ordered, picks) + [ordered[i]]
  {
  }

  /** The admission loop of `_decide`. */
  method Admit(ordered: seq<TaskSpec>, specs: seq<TaskSpec>, all: seq<TaskSpec>, free: nat)
    returns (chosen: seq<TaskSpec>, ghost picks: seq<nat>)
    requires free > 0
    ensures GreedyPicks(picks, |ordered|, ordered, specs, all, free)
    ensures chosen == Taken(ordered, picks)
    ensures |chosen| <= free && forall t | t in chosen :: t in ordered && SafeWithAll(t, specs, all)
  {
    chosen, picks := [], [];
    GreedyStart(ordered, specs, all, free);
    hide ParallelSafe, GreedyPicks, Blocked, SafeWithAll, Taken;
    for i := 0 to |ordered|
      invariant GreedyPicks(picks, i, ordered, specs, all, free) && |picks| < free
      invariant (forall k | 0 <= k < |picks| :: picks[k] < i) && chosen == Taken(ordered, picks)
      invariant |chosen| < free && forall t | t in chosen :: t in ordered && SafeWithAll(t, specs, all)
    {
      BlockedIff(i, ordered, picks, specs, all);
      GreedyNext(picks, i, ordered, specs, all, free);
      TakenNext(ordered, picks, i);
      var conflict := ConflictsWithAny(ordered[i], chosen, all);
      if !conflict {
        conflict := ConflictsWithAny(ordered[i], specs, all);
      }
      if conflict {
        continue;
      }
      chosen, picks := chosen + [ordered[i]], picks + [i];
      if |chosen| >= free {
        GreedyFull(picks, i + 1, ordered, specs, all, free);
        return;
      }
    }
  }

  /** `_decide`. `running` lists the ids of the running tasks and `specs` the records read
      for them; `gate` is the brief gate. */
  method Decide(tasks: seq<TaskSpec>, accepted: set<Id>, running: seq<Id>, specs: seq<TaskSpec>,
                gate: TaskSpec -> bool, cap: int, paused: bool)
    returns (chosen: seq<TaskSpec>, free: nat, ghost ordered: seq<TaskSpec>, ghost picks: seq<nat>)
    ensures free == if cap > |running| then cap - |running| else 0
    ensures paused || free == 0 ==> chosen == []
    ensures ordered == Prioritize(Filter(Filter(tasks, CanDispatch(tasks, accepted, running)), gate))
    ensures !paused && free > 0 ==>
              && GreedyPicks(picks, |ordered|, ordered, specs, ordered + specs, free)
              && chosen == Taken(ordered, picks)
  {
    var candidates := CollectDispatchable(tasks, accepted, running);
    var queue := Prioritize(Filter(candidates, gate));
    ordered, picks := queue, [];
    free := if cap > |running| then cap - |running| else 0;
    chosen := [];
    if paused || free == 0 {
      return;
    }
    hide *;
    chosen, picks := Admit(queue, specs, queue + specs, free);
  }

  lemma GreedyStart(ordered: seq<TaskSpec>, running: seq<TaskSpec>, tasks: seq<TaskSpec>, free: nat)
    ensures GreedyPicks([], 0, ordered, running, tasks, free)
  {
  }

  // ----- what admission guarantees

  /** Every launched task reads, is not running, has all its dependencies accepted, passes
      the gate and can run beside every running task and every other launched one, in
      either order; the launched tasks are in priority order; and if slots stay free,
      every candidate left out conflicts with a running task or with one picked before. */
  lemma AdmissionSound(tasks: seq<TaskSpec>, accepted: set<Id>, running: seq<Id>, specs: seq<TaskSpec>,
                       gate: TaskSpec -> bool, free: nat, ordered: seq<TaskSpec>, picks: seq<nat>)
    requires ordered == Prioritize(Filter(Filter(tasks, CanDispatch(tasks, accepted, running)), gate))
    requires GreedyPicks(picks, |ordered|, ordered, specs, ordered + specs, free)
    ensures |Taken(ordered, picks)| <= free && Ordered(Taken(ordered, picks))
    ensures forall t | t in Taken(ordered, picks) ::
              && t in tasks && gate(t) && (t.id.Some? ==> t.id.value !in running)
              && (forall d | d in t.deps :: d in accepted)
              && forall r | r in specs :: ParallelSafe(t, r, Some(ordered + specs), true)
                  && ParallelSafe(r, t, Some(ordered + specs), true)
    ensures forall j, k | 0 <= j < |picks| && 0 <= k < |picks| && j != k ::
              ParallelSafe(ordered[picks[j]], ordered[picks[k]], Some(ordered + specs), true)
    ensures |picks| < free ==> forall i | 0 <= i < |ordered| && i !in picks ::
            Blocked(i, ordered, picks, specs, ordered + specs)
  {
    PickedSafe(ordered, specs, ordered + specs, free, picks);
    hide ParallelSafe, Blocked, KeyLeq;
    var gated := Filter(Filter(tasks, CanDispatch(tasks, accepted, running)), gate);
    if gated != [] { PrioritizeIsStableSort(gated, gated[0]); }
    FilterMembers(Filter(tasks, CanDispatch(tasks, accepted, running)), gate);
    FilterMembers(tasks, CanDispatch(tasks, accepted, running));
    forall t | t in Taken(ordered, picks)
      ensures t in gated
    {
      assert t in multiset(ordered);
    }
  }

  lemma PickedSafe(ordered: seq<TaskSpec>, specs: seq<TaskSpec>, all: seq<TaskSpec>, free: nat, picks: seq<nat>)
    requires GreedyPicks(picks, |ordered|, ordered, specs, all, free)
    ensures forall k, r | 0 <= k < |picks| && r in specs ::
              ParallelSafe(ordered[picks[k]], r, Some(all), true) && ParallelSafe(r, ordered[picks[k]], Some(all), true)
    ensures forall j, k | 0 <= j < |picks| && 0 <= k < |picks| && j != k ::
              ParallelSafe(ordered[picks[j]], ordered[picks[k]], Some(all), true)
  {
    hide ParallelSafe;
    forall k, r | 0 <= k < |picks| && r in specs
      ensures ParallelSafe(ordered[picks[k]], r, Some(all), true) && ParallelSafe(r, ordered[picks[k]], Some(all), true)
    {
      assert !Blocked(picks[k], ordered, picks, specs, all);
      ParallelSafeSymmetric(ordered[picks[k]], r, Some(all), true);
    }
    forall j, k | 0 <= j < |picks| && 0 <= k < |picks| && j != k
      ensures ParallelSafe(ordered[picks[j]], ordered[picks[k]], Some(all), true)
    {
      assert !Blocked(picks[j], ordered, picks, specs, all);
      assert !Blocked(picks[k], ordered, picks, specs, all);
      ParallelSafeSymmetric(ordered[picks[j]], ordered[picks[k]], Some(all), true);
    }
  }

}
