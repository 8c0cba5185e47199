/** Whole runs of the task queue: passes of the daemon in any order, interleaved with
    staging, workers and crashes. */
module TaskLifecycle {
  import opened Basics
  import opened TaskQueue

  /** `Interrupt` is a crash after a claimed file was moved to the blocked directory and
      before its attempt was counted. A crash anywhere else leaves the claimed file, and
      is no step. */
  datatype Step =
    | Stage(id: Id, task: Task)
    | Claim(id: Id)
    | Fail(id: Id, pick: Pick, outcome: string, now: real)
    | Accept(id: Id, pick: Pick)
    | Interrupt(id: Id)
    | Quarantine(id: Id)
    | RetryPass(at: Id -> real)
    | ReclaimPass(live: set<Id>, at: Id -> real)
    | DependencyPass(at: Id -> real)

  ghost predicate Enabled(s: Queue, step: Step) {
    match step
    case Fail(id, pick, _, _) => PickOk(s, id, pick)
    case Accept(id, pick) => PickOk(s, id, pick)
    case Interrupt(id) => id in s.processing
    case _ => true
  }

  ghost function Next(s: Queue, step: Step, max: int): Queue
    requires Enabled(s, step)
  {
    match step
    case Stage(id, task) => s.(queued := s.queued[id := task])
    case Claim(id) => Claimed(s, id)
    case Fail(id, pick, outcome, now) => MarkedBlocked(s, id, pick, outcome, now)
    case Accept(id, pick) => MarkedProcessed(s, id, pick)
    case Interrupt(id) => s.(processing := s.processing - {id}, blocked := s.blocked[id := s.processing[id]])
    case Quarantine(id) => Quarantined(s, id)
    case RetryPass(at) => Retried(s, s.blocked.Keys, at, max)
    case ReclaimPass(live, at) => Reclaimed(s, s.processing.Keys, live, at)
    case DependencyPass(at) => DependencyBlocked(s, s.queued.Keys, at)
  }

  /** `steps` is a run from `s`. */
  ghost predicate Run(s: Queue, steps: seq<Step>, max: int)
    decreases |steps|
  {
    steps == [] || (Enabled(s, steps[0]) && Run(Next(s, steps[0], max), steps[1..], max))
  }

  ghost function End(s: Queue, steps: seq<Step>, max: int): Queue
    requires Run(s, steps, max)
    decreases |steps|
  {
    if steps == [] then s else End(Next(s, steps[0], max), steps[1..], max)
  }

  // ----- no task is lost

  /** The task ids the directories know; the marker files of running tasks are not tasks. */
  ghost function Known(s: Queue): set<Id> {
    set x | x in s.queued.Keys + s.processing.Keys + s.blocked.Keys + s.processed + s.quarantined && !IsMarker(x)
  }

  /** The move picked the task's own file, or none, or a file that holds no other task. */
  predicate Harmless(s: Queue, id: Id, pick: Pick) {
    match pick
    case Nothing => true
    case FromProcessing(x) => x == id || IsMarker(x) || x in s.queued || Kept(s, x)
    case FromQueued(x) => x == id || IsMarker(x) || x in s.processing || Kept(s, x)
  }

  /** A file of the task lies where no worker takes it. */
  predicate Kept(s: Queue, x: Id) {
    x in s.blocked || x in s.processed || x in s.quarantined
  }

  /** A worker's failure loses a task exactly when the suffix match picks the only file of
      another task. */
  lemma FailLosesIff(s: Queue, id: Id, pick: Pick, outcome: string, now: real)
    requires PickOk(s, id, pick)
    ensures Known(s) <= Known(MarkedBlocked(s, id, pick, outcome, now)) <==> Harmless(s, id, pick)
  {
    var t := MarkedBlocked(s, id, pick, outcome, now);
    if !Harmless(s, id, pick) {
      assert pick.id in Known(s) && pick.id !in Known(t);
    }
  }

  lemma AcceptLosesIff(s: Queue, id: Id, pick: Pick)
    requires PickOk(s, id, pick)
    ensures Known(s) <= Known(MarkedProcessed(s, id, pick)) <==> Harmless(s, id, pick)
  {
    var t := MarkedProcessed(s, id, pick);
    if !Harmless(s, id, pick) {
      assert pick.id in Known(s) && pick.id !in Known(t);
    }
  }

  /** No other task's only file bears a name that the move for `id` can match: not among
      the claimed files, nor, if no claimed name matches, among the live ones. */
  ghost predicate SafeMove(s: Queue, id: Id) {
    && (forall x | x in s.processing && EndsWith(x, id) && x != id && !IsMarker(x) :: x in s.queued || Kept(s, x))
    && ((forall x | x in s.processing :: !EndsWith(x, id)) ==>
          forall x | x in s.queued && EndsWith(x, id) && x != id && !IsMarker(x) :: Kept(s, x))
  }

  /** Whatever file the move picks is harmless exactly when the move is safe. */
  lemma SafeMoveIff(s: Queue, id: Id)
    ensures (forall pick | PickOk(s, id, pick) :: Harmless(s, id, pick)) <==> SafeMove(s, id)
  {
    if !SafeMove(s, id) {
      if x :| x in s.processing && EndsWith(x, id) && x != id && !IsMarker(x) && x !in s.queued && !Kept(s, x) {
        assert PickOk(s, id, FromProcessing(x)) && !Harmless(s, id, FromProcessing(x));
      } else {
        var y :| y in s.queued && EndsWith(y, id) && y != id && !IsMarker(y) && !Kept(s, y);
        assert PickOk(s, id, FromQueued(y)) && !Harmless(s, id, FromQueued(y));
      }
    }
  }

  /** A failure of `id` keeps every task, whichever file the directory lists first, exactly
      when the move is safe, which is seen before it. */
  lemma FailSafeIff(s: Queue, id: Id, outcome: string, now: real)
    ensures (forall pick | PickOk(s, id, pick) :: Known(s) <= Known(MarkedBlocked(s, id, pick, outcome, now)))
            <==> SafeMove(s, id)
  {
    SafeMoveIff(s, id);
    forall pick | PickOk(s, id, pick)
      ensures Known(s) <= Known(MarkedBlocked(s, id, pick, outcome, now)) <==> Harmless(s, id, pick)
    {
      FailLosesIff(s, id, pick, outcome, now);
    }
    hide Known, Harmless, SafeMove, MarkedBlocked, PickOk;
  }

  /** The same for an acceptance. */
  lemma AcceptSafeIff(s: Queue, id: Id)
    ensures (forall pick | PickOk(s, id, pick) :: Known(s) <= Known(MarkedProcessed(s, id, pick))) <==> SafeMove(s, id)
  {
    SafeMoveIff(s, id);
    forall pick | PickOk(s, id, pick)
      ensures Known(s) <= Known(MarkedProcessed(s, id, pick)) <==> Harmless(s, id, pick)
    {
      AcceptLosesIff(s, id, pick);
    }
    hide Known, Harmless, SafeMove, MarkedProcessed, PickOk;
  }

  /** No name ends with another one. */
  ghost predicate SuffixFree(names: set<Id>) {
    forall x, y | x in names && y in names && EndsWith(x, y) :: x == y
  }

  /** All files not yet processed are named in `names` or are markers. */
  ghost predicate Named(s: Queue, names: set<Id>) {
    forall x | x in s.queued.Keys + s.processing.Keys + s.blocked.Keys && !IsMarker(x) :: x in names
  }

  /** A step of staging, failing or accepting speaks of a task in `names`. */
  ghost predicate NamedStep(step: Step, names: set<Id>) {
    match step
    case Stage(id, _) => id in names
    case Fail(id, _, _, _) => id in names
    case Accept(id, _) => id in names
    case _ => true
  }

  ghost predicate NamedRun(steps: seq<Step>, names: set<Id>) {
    forall k | 0 <= k < |steps| :: NamedStep(steps[k], names)
  }

  lemma NamedMovesAreSafe(s: Queue, id: Id, names: set<Id>)
    requires SuffixFree(names) && Named(s, names) && id in names
    ensures SafeMove(s, id)
  {
    hide IsMarker, EndsWith;
    forall x | x in s.queued.Keys + s.processing.Keys && EndsWith(x, id) && !IsMarker(x)
      ensures x == id
    {
      assert x in names;
    }
  }

  lemma StepKeepsNamed(s: Queue, step: Step, max: int, names: set<Id>)
    requires Enabled(s, step) && Named(s, names) && NamedStep(step, names)
    ensures Named(Next(s, step, max), names)
  {
    hide IsMarker, Due, Spent, Doomed, Bumped;
  }

  lemma StepKeepsTasks(s: Queue, step: Step, max: int, names: set<Id>)
    requires Enabled(s, step) && SuffixFree(names) && Named(s, names) && NamedStep(step, names)
    ensures Known(s) <= Known(Next(s, step, max))
  {
    match step
    case Fail(id, pick, outcome, now) =>
      NamedMovesAreSafe(s, id, names);
      FailSafeIff(s, id, outcome, now);
    case Accept(id, pick) =>
      NamedMovesAreSafe(s, id, names);
      AcceptSafeIff(s, id);
    case RetryPass(at) => RetryKeepsTasks(s, at, max);
    case ReclaimPass(live, at) => ReclaimKeepsTasks(s, live, at);
    case DependencyPass(at) => DependencyKeepsTasks(s, at);
    case _ =>
  }

  lemma RetryKeepsTasks(s: Queue, at: Id -> real, max: int)
    ensures Known(Retried(s, s.blocked.Keys, at, max)) == Known(s)
  {
    hide Due, Spent;
    assert forall x | x in DueSet(s, s.blocked.Keys, at, max) :: x in s.blocked;
  }

  lemma ReclaimKeepsTasks(s: Queue, live: set<Id>, at: Id -> real)
    ensures Known(Reclaimed(s, s.processing.Keys, live, at)) == Known(s)
  {
    var t := Reclaimed(s, s.processing.Keys, live, at);
    forall x | x in Known(s)
      ensures x in Known(t)
    {
    }
  }

  lemma DependencyKeepsTasks(s: Queue, at: Id -> real)
    ensures Known(DependencyBlocked(s, s.queued.Keys, at)) == Known(s)
  {
    hide Doomed;
  }

  /** Over every run of tasks of which none's name ends with another's no task is lost: it
      stays queued, claimed, blocked, processed or quarantined. */
  lemma {:induction false} NoTaskLost(s: Queue, steps: seq<Step>, max: int, names: set<Id>)
    requires Run(s, steps, max) && SuffixFree(names) && Named(s, names) && NamedRun(steps, names)
    ensures Known(s) <= Known(End(s, steps, max))
    decreases |steps|
  {
    hide Known, Next, Enabled, Named, NamedStep, SuffixFree;
    if steps != [] {
      StepKeepsTasks(s, steps[0], max, names);
      StepKeepsNamed(s, steps[0], max, names);
      assert NamedRun(steps[1..], names);
      NoTaskLost(Next(s, steps[0], max), steps[1..], max, names);
    }
  }

  /** Any other names can lose one: if `x` ends with `y` and both are claimed, failing `y`
      can move the file of `x` and leave no file of `x` anywhere. */
  lemma SuffixCapturesTask(x: Id, y: Id, max: int) returns (s: Queue, step: Step)
    requires EndsWith(x, y) && x != y && !IsMarker(x)
    ensures Named(s, {x, y}) && NamedStep(step, {x, y}) && Enabled(s, step)
    ensures y in s.processing && x in Known(s) && x !in Known(Next(s, step, max))
  {
    s := Queue(map[], map[x := Task([]), y := Task([])], map[], {}, map[], {}, {}, {});
    step := Fail(y, FromProcessing(x), ORPHANED, 0.0);
  }

  /** So exactly the suffix-free sets of names are safe for every state and run. */
  lemma SafeNamesIff(names: set<Id>, max: int)
    requires forall x | x in names :: !IsMarker(x)
    ensures SuffixFree(names) <==>
              forall s, steps | Run(s, steps, max) && Named(s, names) && NamedRun(steps, names) ::
                Known(s) <= Known(End(s, steps, max))
  {
    if SuffixFree(names) {
      forall s, steps | Run(s, steps, max) && Named(s, names) && NamedRun(steps, names)
        ensures Known(s) <= Known(End(s, steps, max))
      {
        NoTaskLost(s, steps, max, names);
      }
    } else {
      var x, y :| x in names && y in names && EndsWith(x, y) && x != y;
      var s, step := SuffixCapturesTask(x, y, max);
      NamedMore(s, step, {x, y}, names);
      OneStepRun(s, step, max);
      assert NamedRun([step], names);
    }
  }

  lemma NamedMore(s: Queue, step: Step, few: set<Id>, names: set<Id>)
    requires few <= names && Named(s, few) && NamedStep(step, few)
    ensures Named(s, names) && NamedStep(step, names)
  {
    hide IsMarker;
  }

  lemma OneStepRun(s: Queue, step: Step, max: int)
    requires Enabled(s, step)
    ensures Run(s, [step], max) && End(s, [step], max) == Next(s, step, max)
  {
    hide Next, Enabled;
    assert [step][1..] == [];
  }

  // ----- attempts and markers only grow

  lemma StepGrows(s: Queue, step: Step, max: int, id: Id)
    requires Enabled(s, step)
    ensures Attempts(Next(s, step, max), id) >= Attempts(s, id)
    ensures s.exhausted <= Next(s, step, max).exhausted
  {
  }

  /** Attempts never decrease and exhausted markers stay. */
  lemma {:induction false} AttemptsNeverDecrease(s: Queue, steps: seq<Step>, max: int, id: Id)
    requires Run(s, steps, max)
    ensures Attempts(End(s, steps, max), id) >= Attempts(s, id)
    ensures s.exhausted <= End(s, steps, max).exhausted
    decreases |steps|
  {
    if steps != [] {
      StepGrows(s, steps[0], max, id);
      AttemptsNeverDecrease(Next(s, steps[0], max), steps[1..], max, id);
    }
  }

  // ----- how often a task is re-staged

  /** How often the retry passes of a run re-stage a task. */
  ghost function Restages(s: Queue, steps: seq<Step>, max: int, id: Id): nat
    requires Run(s, steps, max)
    decreases |steps|
  {
    if steps == [] then 0
    else
      (if steps[0].RetryPass? && id in DueSet(s, s.blocked.Keys, steps[0].at, max) then 1 else 0)
      + Restages(Next(s, steps[0], max), steps[1..], max, id)
  }

  function Interrupts(steps: seq<Step>, id: Id): nat {
    if steps == [] then 0
    else (if steps[0].Interrupt? && steps[0].id == id then 1 else 0) + Interrupts(steps[1..], id)
  }

  /** An exhausted task is never re-staged, whatever the budget later becomes. */
  lemma {:induction false} ExhaustedStaysParked(s: Queue, steps: seq<Step>, max: int, id: Id)
    requires Run(s, steps, max) && id in s.exhausted
    ensures Restages(s, steps, max, id) == 0
    decreases |steps|
  {
    if steps != [] {
      StepGrows(s, steps[0], max, id);
      ExhaustedStaysParked(Next(s, steps[0], max), steps[1..], max, id);
    }
  }

  /** One if the task is blocked: it may be re-staged once without failing again. */
  function Parked(s: Queue, id: Id): nat {
    if id in s.blocked then 1 else 0
  }

  /** A task comes to be blocked only with an attempt counted or by an interrupt, and a
      re-staging takes it out. */
  lemma StepCharges(s: Queue, step: Step, max: int, id: Id)
    requires Enabled(s, step)
    ensures var t := Next(s, step, max);
            var restaged := if step.RetryPass? && id in DueSet(s, s.blocked.Keys, step.at, max) then 1 else 0;
            && restaged + Parked(t, id) - Attempts(t, id) <= Parked(s, id) - Attempts(s, id) + Interrupts([step], id)
            && (restaged == 1 ==>
                  Attempts(s, id) < Budget(max) && Attempts(t, id) == Attempts(s, id) && id !in t.blocked)
  {
    assert [step][1..] == [];
  }

  /** The budget, which is at least the one try a deterministic failure leaves. */
  function Budget(max: int): int {
    if max < 1 then 1 else max
  }

  /** The re-stagings of a run are paid for by the attempts it counts, its interrupts and
      the task being blocked at the start. */
  lemma {:induction false} RestagesPaid(s: Queue, steps: seq<Step>, max: int, id: Id)
    requires Run(s, steps, max)
    ensures var t := End(s, steps, max);
            Restages(s, steps, max, id) + Parked(t, id) - Attempts(t, id)
            <= Parked(s, id) - Attempts(s, id) + Interrupts(steps, id)
    decreases |steps|
  {
    if steps != [] {
      StepCharges(s, steps[0], max, id);
      assert [steps[0]][1..] == [];
      RestagesPaid(Next(s, steps[0], max), steps[1..], max, id);
    }
  }

  /** A run that re-stages a task has a last step that does. */
  lemma {:induction false} LastRestage(s: Queue, steps: seq<Step>, max: int, id: Id) returns (k: nat)
    requires Run(s, steps, max) && Restages(s, steps, max, id) > 0
    ensures k < |steps| && steps[k].RetryPass?
    ensures Run(s, steps[..k], max)
    ensures var m := End(s, steps[..k], max);
            Enabled(m, steps[k]) && id in DueSet(m, m.blocked.Keys, steps[k].at, max)
            && Restages(s, steps, max, id) == Restages(s, steps[..k], max, id) + 1
            && Interrupts(steps[..k], id) <= Interrupts(steps, id)
    decreases |steps|
  {
    var t := Next(s, steps[0], max);
    if Restages(t, steps[1..], max, id) > 0 {
      var j := LastRestage(t, steps[1..], max, id);
      k := j + 1;
      assert steps[..k][1..] == steps[1..][..j] && steps[..k][0] == steps[0];
    } else {
      k := 0;
      assert steps[..0] == [];
    }
  }

  /** The retry budget over every run: when each block counts an attempt, a task that was
      never blocked is re-staged at most `max - 1` times. In general the attempts already
      counted come off, and each interrupt and being blocked at the start allow one more. */
  lemma RestageBudget(s: Queue, steps: seq<Step>, max: int, id: Id)
    requires Run(s, steps, max)
    ensures Restages(s, steps, max, id) > 0 ==>
              Restages(s, steps, max, id) <= Budget(max) - 1 - Attempts(s, id) + Parked(s, id) + Interrupts(steps, id)
    ensures max >= 1 && id !in s.blocked && id !in s.sidecars && Interrupts(steps, id) == 0
            ==> Restages(s, steps, max, id) <= max - 1
  {
    if Restages(s, steps, max, id) > 0 {
      var k := LastRestage(s, steps, max, id);
      var m := End(s, steps[..k], max);
      RestagesPaid(s, steps[..k], max, id);
      StepCharges(m, steps[k], max, id);
    }
  }

  // ----- how far apart the re-stagings are

  /** The clock reading a step makes for a task, if any. */
  function Reading(step: Step, id: Id): Option<real> {
    match step
    case Fail(x, _, _, now) => if x == id then Some(now) else None
    case RetryPass(at) => Some(at(id))
    case ReclaimPass(_, at) => Some(at(id))
    case DependencyPass(at) => Some(at(id))
    case _ => None
  }

  /** No reading for the task is before `t`. */
  ghost predicate NotBefore(steps: seq<Step>, id: Id, t: real) {
    forall k | 0 <= k < |steps| && Reading(steps[k], id).Some? :: Reading(steps[k], id).value >= t
  }

  ghost predicate Uninterrupted(steps: seq<Step>, id: Id) {
    forall k | 0 <= k < |steps| :: !(steps[k].Interrupt? && steps[k].id == id)
  }

  /** While it is blocked, at least `a` attempts are counted, the last at `t` or later. */
  ghost predicate Charged(s: Queue, id: Id, a: int, t: real) {
    Attempts(s, id) >= a - 1 && (id in s.blocked ==> Attempts(s, id) >= a && LastTs(s, id) >= t)
  }

  lemma StepKeepsCharged(s: Queue, step: Step, max: int, id: Id, a: int, t: real)
    requires Enabled(s, step) && Charged(s, id, a, t) && !(step.Interrupt? && step.id == id)
    requires Reading(step, id).Some? ==> Reading(step, id).value >= t
    ensures Charged(Next(s, step, max), id, a, t)
  {
  }

  lemma {:induction false} RunKeepsCharged(s: Queue, steps: seq<Step>, k: nat, max: int, id: Id, a: int, t: real)
    requires Run(s, steps, max) && k <= |steps| && Charged(s, id, a, t)
    requires NotBefore(steps, id, t) && Uninterrupted(steps, id)
    ensures Run(s, steps[..k], max) && Charged(End(s, steps[..k], max), id, a, t)
    ensures Run(End(s, steps[..k], max), steps[k..], max)
    decreases |steps|
  {
    hide Charged, Next, Enabled, Reading;
    if k > 0 {
      assert steps[..k][1..] == steps[1..][..k - 1] && steps[1..][k - 1..] == steps[k..];
      StepKeepsCharged(s, steps[0], max, id, a, t);
      assert NotBefore(steps[1..], id, t) && Uninterrupted(steps[1..], id);
      RunKeepsCharged(Next(s, steps[0], max), steps[1..], k - 1, max, id, a, t);
    } else {
      assert steps[k..] == steps;
    }
  }

  /** Step `k` of the run is a retry pass that re-stages the task. */
  ghost predicate RestagesAt(s: Queue, steps: seq<Step>, k: nat, max: int, id: Id) {
    k < |steps| && steps[k].RetryPass? && Run(s, steps[..k], max)
    && var m := End(s, steps[..k], max);
       id in DueSet(m, m.blocked.Keys, steps[k].at, max)
  }

  lemma RestageWaits(m: Queue, at: Id -> real, max: int, id: Id, a: int, t: real)
    requires Charged(m, id, a, t) && a >= 1 && id in DueSet(m, m.blocked.Keys, at, max)
    ensures at(id) >= t + if a == 1 then 300.0 else if a == 2 then 3600.0 else 86400.0
    ensures Attempts(m, id) >= a && id in m.blocked && id !in Retried(m, m.blocked.Keys, at, max).blocked
    ensures Attempts(Retried(m, m.blocked.Keys, at, max), id) == Attempts(m, id)
  {
  }

  /** The backoff over every run: a task never blocked before is first re-staged no sooner
      than 300 s after the run begins, the second time no sooner than an hour after the
      first, and every later time no sooner than a day after the one before. */
  lemma RestagesApart(s: Queue, steps: seq<Step>, i: nat, j: nat, max: int, id: Id, t0: real)
    requires Run(s, steps, max) && id !in s.blocked && id !in s.sidecars
    requires NotBefore(steps, id, t0) && Uninterrupted(steps, id) && i < j
    requires RestagesAt(s, steps, i, max, id) && RestagesAt(s, steps, j, max, id)
    requires NotBefore(steps[i..], id, steps[i].at(id))
    ensures steps[i].at(id) >= t0 + 300.0
    ensures steps[j].at(id) >= steps[i].at(id) + 3600.0
    ensures Restages(s, steps[..i], max, id) > 0 ==> steps[j].at(id) >= steps[i].at(id) + 86400.0
  {
    hide Next, Enabled, Reading, Charged, Run, End, DueSet, Retried, Attempts, Restages;
    Fresh(s, id, t0);
    RunKeepsCharged(s, steps, i, max, id, 1, t0);
    var m, t := End(s, steps[..i], max), steps[i].at(id);
    var a := if Restages(s, steps[..i], max, id) > 0 then 2 else 1;
    RestageWaits(m, steps[i].at, max, id, 1, t0);
    ChargedForRestages(s, steps, i, max, id);
    RestagedCharged(m, steps[i], max, id, a + 1, t);
    OneStep(s, steps, i, max);
    EndSplit(s, steps, i + 1, max);
    RestLater(steps, i, id, t);
    ChargedUntil(s, steps, i + 1, j, max, id, a + 1, t);
    RestageWaits(End(s, steps[..j], max), steps[j].at, max, id, a + 1, t);
  }

  /** A blocked task has one attempt counted more than it was re-staged. */
  lemma ChargedForRestages(s: Queue, steps: seq<Step>, i: nat, max: int, id: Id)
    requires i <= |steps| && Run(s, steps[..i], max) && Uninterrupted(steps, id)
    requires id !in s.blocked && id !in s.sidecars && id in End(s, steps[..i], max).blocked
    ensures Attempts(End(s, steps[..i], max), id) > Restages(s, steps[..i], max, id)
  {
    RestagesPaid(s, steps[..i], max, id);
    NoInterrupts(steps[..i], id);
    hide Run, End, Restages, Interrupts;
  }

  lemma {:induction false} NoInterrupts(steps: seq<Step>, id: Id)
    requires Uninterrupted(steps, id)
    ensures Interrupts(steps, id) == 0
    decreases |steps|
  {
    if steps != [] { NoInterrupts(steps[1..], id); }
  }

  lemma RestLater(steps: seq<Step>, i: nat, id: Id, t: real)
    requires i < |steps| && NotBefore(steps[i..], id, t) && Uninterrupted(steps, id)
    ensures NotBefore(steps[i + 1..], id, t) && Uninterrupted(steps[i + 1..], id)
  {
    hide Reading;
    var later := steps[i..];
    assert steps[i + 1..] == later[1..];
  }

  /** What is charged after `i` steps is charged after `j`. */
  lemma ChargedUntil(s: Queue, steps: seq<Step>, i: nat, j: nat, max: int, id: Id, a: int, t: real)
    requires i <= j <= |steps| && Run(s, steps, max) && Run(s, steps[..i], max) && Run(s, steps[..j], max)
    requires Run(End(s, steps[..i], max), steps[i..], max) && Charged(End(s, steps[..i], max), id, a, t)
    requires NotBefore(steps[i..], id, t) && Uninterrupted(steps[i..], id)
    ensures Charged(End(s, steps[..j], max), id, a, t)
  {
    hide Next, Enabled, Reading, Charged, Run, End;
    RunKeepsCharged(End(s, steps[..i], max), steps[i..], j - i, max, id, a, t);
    assert steps[..j][..i] == steps[..i] && steps[..j][i..] == steps[i..][..j - i];
    EndSplit(s, steps[..j], i, max);
  }

  lemma Fresh(s: Queue, id: Id, t: real)
    requires id !in s.blocked && id !in s.sidecars
    ensures Charged(s, id, 1, t)
  {
  }

  lemma RestagedCharged(m: Queue, step: Step, max: int, id: Id, a: int, t: real)
    requires step.RetryPass? && Attempts(m, id) >= a - 1
    requires id !in Retried(m, m.blocked.Keys, step.at, max).blocked
    ensures Enabled(m, step) && Charged(Next(m, step, max), id, a, t)
  {
  }

  lemma {:induction false} EndSplit(s: Queue, steps: seq<Step>, k: nat, max: int)
    requires Run(s, steps, max) && k <= |steps|
    ensures Run(s, steps[..k], max) && Run(End(s, steps[..k], max), steps[k..], max)
    ensures End(s, steps, max) == End(End(s, steps[..k], max), steps[k..], max)
    decreases |steps|
  {
    hide Next, Enabled;
    if k > 0 {
      assert steps[..k][1..] == steps[1..][..k - 1] && steps[1..][k - 1..] == steps[k..];
      EndSplit(Next(s, steps[0], max), steps[1..], k - 1, max);
    } else {
      assert steps[k..] == steps;
    }
  }

  lemma OneStep(s: Queue, steps: seq<Step>, i: nat, max: int)
    requires Run(s, steps, max) && i < |steps|
    ensures Run(s, steps[..i], max) && Enabled(End(s, steps[..i], max), steps[i])
    ensures Run(s, steps[..i + 1], max) && End(s, steps[..i + 1], max) == Next(End(s, steps[..i], max), steps[i], max)
  {
    hide Next, Enabled;
    EndSplit(s, steps, i + 1, max);
    var front := steps[..i + 1];
    assert front[..i] == steps[..i] && front[i..] == [steps[i]];
    EndSplit(s, front, i, max);
    assert [steps[i]][1..] == [];
  }

  // ----- an orphan comes back

  /** A claimed file whose worker died is live again after a reclaim pass and a retry pass
      one backoff later, unless its budget is spent. */
  lemma OrphanComesBack(s: Queue, id: Id, live: set<Id>, at: Id -> real, later: Id -> real, max: int)
    requires id in s.processing && id != "" && id !in live && id !in s.blocked && id !in s.exhausted
    requires Listed(id) && !IsMarker(id) && id !in s.queued
    requires 0 <= Attempts(s, id) && Attempts(s, id) + 1 < max
    requires later(id) >= at(id) + if Attempts(s, id) == 0 then 300.0 else if Attempts(s, id) == 1 then 3600.0
            else 86400.0
    ensures var t := Reclaimed(s, s.processing.Keys, live, at);
            && id !in t.processing && id in t.blocked && Attempts(t, id) == Attempts(s, id) + 1
            && id in Retried(t, t.blocked.Keys, later, max).queued
            && Retried(t, t.blocked.Keys, later, max).queued[id] == s.processing[id]
  {
    var t := Reclaimed(s, s.processing.Keys, live, at);
    assert id in MovedSet(s, s.processing.Keys, live);
    assert t.sidecars[id] == Sidecar(Attempts(s, id) + 1, ORPHANED, at(id));
    assert !Deterministic(ORPHANED);
    assert Due(t, id, later(id), max);
  }

  // ----- the index of the idle sleep

  /** Some live file bears the name of an eligible task. */
  ghost predicate Collides(s: Queue, t: real) {
    forall id | Eligible(s, id, 3) && Deadline(s, id) <= t :: id in s.queued
  }

  /** The soonest deadline agrees with the scan it stands for. A pass at time `t`
      re-stages something exactly when the deadline is some `d <= t` and not every task
      past its deadline has a live file of its name; and afterwards every deadline left,
      but those of such tasks, is later than `t`. */
  lemma IndexAgrees(s: Queue, soonest: Option<real>, t: real)
    requires IsSoonest(s, soonest)
    ensures DueSet(s, s.blocked.Keys, _ => t, 3) != {} <==> soonest.Some? && soonest.value <= t && !Collides(s, t)
    ensures var after := Retried(s, s.blocked.Keys, _ => t, 3);
            forall id | Eligible(after, id, 3) && id !in s.queued :: Deadline(after, id) > t
  {
    var at := (_: Id) => t;
    var due := DueSet(s, s.blocked.Keys, at, 3);
    if soonest.Some? && soonest.value <= t && !Collides(s, t) {
      var id :| Eligible(s, id, 3) && Deadline(s, id) <= t && id !in s.queued;
      assert id in due;
    }
    if due != {} {
      var id :| id in due;
      assert Eligible(s, id, 3) && Deadline(s, id) <= t;
    }
  }

  /** Without collisions the index and the scan agree outright. */
  lemma IndexAgreesWithoutCollisions(s: Queue, soonest: Option<real>, t: real)
    requires IsSoonest(s, soonest) && s.queued.Keys !! s.blocked.Keys
    ensures DueSet(s, s.blocked.Keys, _ => t, 3) != {} <==> soonest.Some? && soonest.value <= t
    ensures forall d :: IsSoonest(Retried(s, s.blocked.Keys, _ => t, 3), Some(d)) ==> d > t
  {
    IndexAgrees(s, soonest, t);
  }

  /** A pass is not instantaneous: with clock readings between `t0` and `t1` it re-stages
      something if the deadline is by `t0`, and nothing if it is after `t1`. */
  lemma IndexBrackets(s: Queue, soonest: Option<real>, at: Id -> real, t0: real, t1: real)
    requires IsSoonest(s, soonest) && s.queued.Keys !! s.blocked.Keys
    requires forall id :: t0 <= at(id) <= t1
    ensures soonest.Some? && soonest.value <= t0 ==> DueSet(s, s.blocked.Keys, at, 3) != {}
    ensures DueSet(s, s.blocked.Keys, at, 3) != {} ==> soonest.Some? && soonest.value <= t1
    ensures forall id | Eligible(Retried(s, s.blocked.Keys, at, 3), id, 3) ::
              Deadline(Retried(s, s.blocked.Keys, at, 3), id) > t0
  {
    var due := DueSet(s, s.blocked.Keys, at, 3);
    if soonest.Some? && soonest.value <= t0 {
      var id :| Eligible(s, id, 3) && Deadline(s, id) == soonest.value;
      assert id in due;
    }
    if due != {} {
      var id :| id in due;
      assert Eligible(s, id, 3) && Deadline(s, id) <= at(id);
    }
  }

  /** The index writes its budget out as 3, so with any other one it can disagree. */
  lemma IndexNeedsDefaultBudget(max: int) returns (s: Queue, soonest: Option<real>, t: real)
    requires max != 3
    ensures IsSoonest(s, soonest) && s.queued == map[]
    ensures !(DueSet(s, s.blocked.Keys, _ => t, max) != {} <==> soonest.Some? && soonest.value <= t)
  {
    var a := if max < 3 then max else 3;
    s := Queue(map[], map[], map["x" := Task([])], {}, map["x" := Sidecar(a, "", 0.0)], {}, {}, {});
    t := 86400.0;
    assert Eligible(s, "x", 3) <==> max < 3;
    if max < 3 {
      soonest := Some(Deadline(s, "x"));
      assert Eligible(s, "x", 3);
    } else {
      soonest := None;
      assert "x" in DueSet(s, s.blocked.Keys, _ => t, max);
    }
  }
}
