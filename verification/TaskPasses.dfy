/** What the passes over the queue and the moves of a worker do to each task, in the names,
    outcomes and times of the source; and what that means for whole runs. */
module TaskPasses {
  import opened Basics
  import opened TaskQueue
  import opened TaskLifecycle

  // ----- names

  lemma EndsWithIff(s: string, suffix: string)
    ensures EndsWith(s, suffix) <==> exists p :: s == p + suffix
  {
    if EndsWith(s, suffix) {
      assert s == s[..|s| - |suffix|] + suffix;
    }
  }

  ghost predicate NamedLike(id: Id, suffix: string) {
    exists p :: id == p + suffix
  }

  // ----- the retry pass

  /** The counters of a task, as the passes read them. */
  function Counters(s: Queue, id: Id): Sidecar {
    if id in s.sidecars then s.sidecars[id] else Sidecar(0, "", 0.0)
  }

  /** A failure that trying again will not change. */
  predicate Final(outcome: string) {
    outcome in ["synthesis_or_ast_failed", "embedded_tests_failed", "narrow_fuzz_failed"]
  }

  function Tries(outcome: string, max: int): int {
    if Final(outcome) then 1 else max
  }

  /** When a blocked task may be tried again: 300 s, an hour or a day after its last block. */
  function RetryTime(c: Sidecar): real {
    c.ts + if c.attempts <= 1 then 300.0 else if c.attempts == 2 then 3600.0 else 86400.0
  }

  /** A blocked task whose file is no sidecar's and that is not marked exhausted. */
  ghost predicate Open(s: Queue, id: Id) {
    id in s.blocked && id !in s.exhausted && !NamedLike(id, ".retry")
  }

  ghost predicate Retries(s: Queue, id: Id, now: real, max: int) {
    var c := Counters(s, id);
    Open(s, id) && c.attempts < Tries(c.outcome, max) && RetryTime(c) <= now && id !in s.queued
  }

  ghost predicate GivesUp(s: Queue, id: Id, max: int) {
    var c := Counters(s, id);
    Open(s, id) && c.attempts >= Tries(c.outcome, max)
  }

  lemma DueIff(s: Queue, id: Id, now: real, max: int)
    ensures Due(s, id, now, max) <==> Retries(s, id, now, max)
    ensures Spent(s, id, max) <==> GivesUp(s, id, max)
    ensures Eligible(s, id, max) <==> Open(s, id) && Counters(s, id).attempts < Tries(Counters(s, id).outcome, max)
    ensures Deadline(s, id) == RetryTime(Counters(s, id))
  {
    EndsWithIff(id, ".retry");
    hide EndsWith;
  }

  /** The retry pass re-stages exactly the tasks with a try and their waiting time behind
      them whose name is free, and marks exactly those without a try left. */
  lemma RetriedIff(s: Queue, at: Id -> real, max: int, id: Id)
    ensures var t := Retried(s, s.blocked.Keys, at, max);
            && (id in t.queued <==> id in s.queued || Retries(s, id, at(id), max))
            && (id in t.queued ==> t.queued[id] == if id in s.queued then s.queued[id] else s.blocked[id])
            && (id in t.blocked <==> id in s.blocked && !Retries(s, id, at(id), max))
            && (id in t.blocked ==> t.blocked[id] == s.blocked[id])
            && (id in t.exhausted <==> id in s.exhausted || GivesUp(s, id, max))
            && (id in t.skip <==> id in s.skip || GivesUp(s, id, max))
            && t.processing == s.processing && t.processed == s.processed && t.sidecars == s.sidecars
            && t.quarantined == s.quarantined
  {
    DueIff(s, id, at(id), max);
    hide Due, Spent, Counters, Tries, RetryTime;
  }

  /** The soonest deadline is the least time at which an open task with a try left, of the
      default three, may be tried again. */
  lemma SoonestIff(s: Queue, soonest: Option<real>)
    ensures IsSoonest(s, soonest) <==>
              match soonest
              case None => forall id | Open(s, id) :: Counters(s, id).attempts >= Tries(Counters(s, id).outcome, 3)
              case Some(d) =>
                && (exists id :: Open(s, id) && Counters(s, id).attempts < Tries(Counters(s, id).outcome, 3)
                                 && RetryTime(Counters(s, id)) == d)
                && forall id | Open(s, id) && Counters(s, id).attempts < Tries(Counters(s, id).outcome, 3) ::
                     d <= RetryTime(Counters(s, id))
  {
    forall id
      ensures Eligible(s, id, 3) <==> Open(s, id) && Counters(s, id).attempts < Tries(Counters(s, id).outcome, 3)
      ensures Deadline(s, id) == RetryTime(Counters(s, id))
    {
      DueIff(s, id, 0.0, 3);
    }
    hide Eligible, Deadline, Open, Tries, RetryTime;
  }

  // ----- the reclaim pass

  /** A claimed file whose task no live worker has. */
  predicate Orphan(s: Queue, live: set<Id>, id: Id) {
    id in s.processing && id != "" && id !in live
  }

  /** The reclaim pass takes away exactly the orphans' files, and blocks and charges those
      that were not blocked. */
  lemma ReclaimedIff(s: Queue, live: set<Id>, at: Id -> real, id: Id)
    ensures var t := Reclaimed(s, s.processing.Keys, live, at);
            var moved := Orphan(s, live, id) && id !in s.blocked;
            && (id in t.processing <==> id in s.processing && !Orphan(s, live, id))
            && (id in t.processing ==> t.processing[id] == s.processing[id])
            && (id in t.blocked <==> id in s.blocked || moved)
            && (id in t.blocked ==> t.blocked[id] == if moved then s.processing[id] else s.blocked[id])
            && (id in t.queued <==> id in s.queued && forall x | Orphan(s, live, x) && x !in s.blocked ::
                  id != "current_task_" + x)
            && (id in t.queued ==> t.queued[id] == s.queued[id])
            && (id in t.sidecars <==> id in s.sidecars || moved)
            && (id in t.sidecars ==>
                  t.sidecars[id] == if moved then Sidecar(Counters(s, id).attempts + 1, "orphaned", at(id))
                                    else s.sidecars[id])
            && t.processed == s.processed && t.exhausted == s.exhausted && t.skip == s.skip
            && t.quarantined == s.quarantined
  {
    assert forall x :: Marker(x) == "current_task_" + x;
    hide Marker;
  }

  // ----- the dependency pass

  /** A live task that depends on an exhausted one. */
  ghost predicate Hopeless(s: Queue, id: Id) {
    && id in s.queued && !("current_task" <= id) && !NamedLike(id, ".retry")
    && s.queued[id].Task? && exists d :: d in s.queued[id].deps && d in s.exhausted
  }

  /** The dependency pass blocks, marks and charges exactly the tasks that depend on an
      exhausted one. */
  lemma DependencyIff(s: Queue, at: Id -> real, id: Id)
    ensures var t := DependencyBlocked(s, s.queued.Keys, at);
            && (id in t.queued <==> id in s.queued && !Hopeless(s, id) && forall x | Hopeless(s, x) ::
                  id != "current_task_" + x)
            && (id in t.queued ==> t.queued[id] == s.queued[id])
            && (id in t.blocked <==> id in s.blocked || Hopeless(s, id))
            && (id in t.blocked ==> t.blocked[id] == if id in s.blocked then s.blocked[id] else s.queued[id])
            && (id in t.exhausted <==> id in s.exhausted || Hopeless(s, id))
            && (id in t.sidecars <==> id in s.sidecars || Hopeless(s, id))
            && (id in t.sidecars ==>
                  t.sidecars[id]
                  == if Hopeless(s, id) then Sidecar(Counters(s, id).attempts + 1, "dependency_failed", at(id))
                     else s.sidecars[id])
            && t.processing == s.processing && t.processed == s.processed && t.skip == s.skip
            && t.quarantined == s.quarantined
  {
    forall x
      ensures Doomed(s, s.exhausted, x) <==> Hopeless(s, x)
      ensures Marker(x) == "current_task_" + x
    {
      EndsWithIff(x, ".retry");
    }
    hide Doomed, Hopeless, Marker;
  }

  // ----- the moves of a worker

  /** The move picks a claimed file whose name ends with the task's, or else a live one. */
  lemma PickIff(s: Queue, id: Id, pick: Pick)
    ensures PickOk(s, id, pick) <==>
              match pick
              case FromProcessing(x) => x in s.processing && NamedLike(x, id)
              case FromQueued(x) =>
                x in s.queued && NamedLike(x, id) && forall y | y in s.processing :: !NamedLike(y, id)
              case Nothing => forall y | y in s.processing.Keys + s.queued.Keys :: !NamedLike(y, id)
  {
    forall x: Id
      ensures EndsWith(x, id) <==> NamedLike(x, id)
    {
      EndsWithIff(x, id);
    }
    hide EndsWith, NamedLike;
    if PickOk(s, id, pick) && pick.Nothing? {
      assert forall y | y in s.processing.Keys + s.queued.Keys :: !EndsWith(y, id);
    }
  }

  /** The file a move picks, as it is written back: a file that does not read becomes a
      record without dependencies. */
  function PickedFile(s: Queue, pick: Pick): Task
    requires pick.FromProcessing? ==> pick.id in s.processing
    requires pick.FromQueued? ==> pick.id in s.queued
  {
    var file := if pick.FromProcessing? then s.processing[pick.id]
                else if pick.FromQueued? then s.queued[pick.id] else Unreadable;
    Task(if file.Task? then file.deps else [])
  }

  /** A failure moves the picked file to the blocked directory, counts one attempt with its
      outcome and time, and takes the marker of the running task away. */
  lemma BlockedIff(s: Queue, id: Id, pick: Pick, outcome: string, now: real, x: Id)
    requires PickOk(s, id, pick)
    ensures var t := MarkedBlocked(s, id, pick, outcome, now);
            && (x in t.processing <==> x in s.processing && pick != FromProcessing(x))
            && (x in t.queued <==> x in s.queued && pick != FromQueued(x) && x != "current_task_" + id)
            && (x in t.blocked <==> x in s.blocked || (x == id && !pick.Nothing?))
            && (x in t.blocked ==>
                  t.blocked[x] == if x == id && !pick.Nothing? then PickedFile(s, pick) else s.blocked[x])
            && (x in t.processing ==> t.processing[x] == s.processing[x])
            && (x in t.queued ==> t.queued[x] == s.queued[x])
            && (x in t.sidecars <==> x == id || x in s.sidecars)
            && (x in t.sidecars ==>
                  t.sidecars[x] == if x == id then Sidecar(Counters(s, id).attempts + 1, outcome, now)
                                   else s.sidecars[x])
            && t.processed == s.processed && t.exhausted == s.exhausted && t.skip == s.skip
            && t.quarantined == s.quarantined
  {
    assert Marker(id) == "current_task_" + id;
    hide Marker, EndsWith;
  }

  /** An acceptance moves the picked file to the processed directory and takes the marker
      away. */
  lemma ProcessedIff(s: Queue, id: Id, pick: Pick, x: Id)
    requires PickOk(s, id, pick)
    ensures var t := MarkedProcessed(s, id, pick);
            && (x in t.processing <==> x in s.processing && pick != FromProcessing(x))
            && (x in t.queued <==> x in s.queued && pick != FromQueued(x) && x != "current_task_" + id)
            && (x in t.processing ==> t.processing[x] == s.processing[x])
            && (x in t.queued ==> t.queued[x] == s.queued[x])
            && (x in t.processed <==> x in s.processed || (x == id && !pick.Nothing?))
            && t.blocked == s.blocked && t.sidecars == s.sidecars && t.exhausted == s.exhausted && t.skip == s.skip
            && t.quarantined == s.quarantined
  {
    assert Marker(id) == "current_task_" + id;
    hide Marker, EndsWith;
  }

  // ----- over runs

  /** The step blocks the task, and with which outcome. */
  ghost predicate Blocks(m: Queue, step: Step, id: Id, outcome: string) {
    match step
    case Fail(x, _, o, _) => x == id && o == outcome
    case ReclaimPass(live, _) => Orphan(m, live, id) && id !in m.blocked && outcome == "orphaned"
    case DependencyPass(_) => Hopeless(m, id) && outcome == "dependency_failed"
    case _ => false
  }

  /** The step blocks the task with an outcome that leaves more tries. */
  ghost predicate Reopens(m: Queue, step: Step, id: Id) {
    exists outcome :: Blocks(m, step, id, outcome) && !Final(outcome)
  }

  predicate OutOfTries(m: Queue, id: Id) {
    Counters(m, id).attempts >= 1 && Final(Counters(m, id).outcome)
  }

  lemma StepKeepsOut(m: Queue, step: Step, max: int, id: Id)
    requires Enabled(m, step) && OutOfTries(m, id) && !Reopens(m, step, id)
    ensures OutOfTries(Next(m, step, max), id)
  {
    match step
    case Fail(x, pick, o, now) =>
      assert Blocks(m, step, x, o);
      BlockedIff(m, x, pick, o, now, id);
      hide MarkedBlocked;
    case Accept(x, pick) => ProcessedIff(m, x, pick, id);
    case RetryPass(at) => RetriedIff(m, at, max, id);
    case ReclaimPass(live, at) =>
      assert !Final("orphaned");
      ReclaimedIff(m, live, at, id);
      hide Reclaimed;
      assert Orphan(m, live, id) && id !in m.blocked ==> Blocks(m, step, id, "orphaned");
    case DependencyPass(at) =>
      assert !Final("dependency_failed");
      DependencyIff(m, at, id);
      hide DependencyBlocked, Hopeless;
      assert Hopeless(m, id) ==> Blocks(m, step, id, "dependency_failed");
    case _ =>
  }

  lemma {:induction false} ReopenedBefore(s: Queue, steps: seq<Step>, i: nat, j: nat, max: int, id: Id)
      returns (k: nat)
    requires Run(s, steps, max) && i <= j <= |steps| && Run(s, steps[..i], max) && Run(s, steps[..j], max)
    requires OutOfTries(End(s, steps[..i], max), id) && !OutOfTries(End(s, steps[..j], max), id)
    ensures i <= k < j && Run(s, steps[..k], max) && Reopens(End(s, steps[..k], max), steps[k], id)
    decreases j - i
  {
    hide Run, End, Next, Reopens, OutOfTries;
    var m := End(s, steps[..i], max);
    OneStep(s, steps, i, max);
    if Reopens(m, steps[i], id) {
      k := i;
    } else {
      StepKeepsOut(m, steps[i], max, id);
      k := ReopenedBefore(s, steps, i + 1, j, max, id);
    }
  }

  /** A task that failed with a final outcome is not re-staged before it is blocked with
      another one, whatever the budget. */
  lemma FinalFailureParks(s: Queue, steps: seq<Step>, i: nat, j: nat, max: int, id: Id) returns (k: nat)
    requires Run(s, steps, max) && i < j && RestagesAt(s, steps, j, max, id) && Run(s, steps[..i], max)
    requires steps[i].Fail? && steps[i].id == id
    requires steps[i].outcome in ["synthesis_or_ast_failed", "embedded_tests_failed", "narrow_fuzz_failed"]
    requires Counters(End(s, steps[..i], max), id).attempts >= 0
    ensures i < k < j && Run(s, steps[..k], max) && Reopens(End(s, steps[..k], max), steps[k], id)
  {
    hide Run, End, Reopens, DueSet;
    var m := End(s, steps[..i], max);
    OneStep(s, steps, i, max);
    BlockedIff(m, id, steps[i].pick, steps[i].outcome, steps[i].now, id);
    hide MarkedBlocked, Retried;
    assert OutOfTries(End(s, steps[..i + 1], max), id);
    DueIn(End(s, steps[..j], max), steps[j].at, max, id);
    k := ReopenedBefore(s, steps, i + 1, j, max, id);
  }

  lemma DueIn(m: Queue, at: Id -> real, max: int, id: Id)
    requires id in DueSet(m, m.blocked.Keys, at, max)
    ensures Retries(m, id, at(id), max)
  {
    DueIff(m, id, at(id), max);
    hide Due;
  }

  // ----- a failed task comes back with its dependencies

  /** The step puts another file of the task into the blocked directory. */
  predicate Refiles(step: Step, id: Id) {
    (step.Fail? && step.id == id && !step.pick.Nothing?) || (step.Interrupt? && step.id == id)
  }

  lemma StepKeepsFile(m: Queue, step: Step, max: int, id: Id)
    requires Enabled(m, step) && id in m.blocked && !Refiles(step, id)
    requires step.RetryPass? ==> id !in DueSet(m, m.blocked.Keys, step.at, max)
    ensures id in Next(m, step, max).blocked && Next(m, step, max).blocked[id] == m.blocked[id]
  {
    match step
    case Fail(x, pick, o, now) => BlockedIff(m, x, pick, o, now, id);
    case Accept(x, pick) => ProcessedIff(m, x, pick, id);
    case RetryPass(at) =>
      RetriedIff(m, at, max, id);
      DueIff(m, id, at(id), max);
      hide Retries, Due;
    case ReclaimPass(live, at) =>
      ReclaimedIff(m, live, at, id);
      hide Reclaimed;
    case DependencyPass(at) =>
      DependencyIff(m, at, id);
      hide DependencyBlocked, Hopeless;
    case _ =>
  }

  lemma {:induction false} FileStays(s: Queue, steps: seq<Step>, i: nat, j: nat, max: int, id: Id)
    requires Run(s, steps, max) && i <= j <= |steps| && Run(s, steps[..i], max) && id in End(s, steps[..i], max).blocked
    requires forall k | i <= k < j :: !Refiles(steps[k], id) && !RestagesAt(s, steps, k, max, id)
    ensures Run(s, steps[..j], max)
    ensures var m, t := End(s, steps[..i], max), End(s, steps[..j], max);
            id in t.blocked && t.blocked[id] == m.blocked[id]
    decreases j - i
  {
    hide Run, End, Next, Enabled, DueSet;
    if i < j {
      OneStep(s, steps, i, max);
      assert !RestagesAt(s, steps, i, max, id);
      StepKeepsFile(End(s, steps[..i], max), steps[i], max, id);
      FileStays(s, steps, i + 1, j, max, id);
    }
  }

  /** A task that fails and is re-staged comes back with the dependencies of the file it was
      picked with. */
  lemma RestagedAsPicked(s: Queue, steps: seq<Step>, i: nat, j: nat, max: int, id: Id)
    requires Run(s, steps, max) && i < j < |steps| && Run(s, steps[..i], max) && RestagesAt(s, steps, j, max, id)
    requires steps[i].Fail? && steps[i].id == id && !steps[i].pick.Nothing?
    requires forall k | i < k < j :: !Refiles(steps[k], id) && !RestagesAt(s, steps, k, max, id)
    ensures PickOk(End(s, steps[..i], max), id, steps[i].pick) && Run(s, steps[..j + 1], max)
    ensures var m, t := End(s, steps[..i], max), End(s, steps[..j + 1], max);
            id in t.queued && id !in t.blocked && t.queued[id] == PickedFile(m, steps[i].pick)
  {
    hide Run, End, DueSet, PickedFile;
    var m := End(s, steps[..i], max);
    OneStep(s, steps, i, max);
    BlockedIff(m, id, steps[i].pick, steps[i].outcome, steps[i].now, id);
    hide MarkedBlocked;
    FileStays(s, steps, i + 1, j, max, id);
    OneStep(s, steps, j, max);
    var q := End(s, steps[..j], max);
    RetriedIff(q, steps[j].at, max, id);
    DueIn(q, steps[j].at, max, id);
    hide Retried, Retries;
  }
}
