/** The task queue on disk: live files `<id>.json`, claimed files
    `<id>.json.processing`, the blocked directory with its retry sidecars and exhausted
    markers, and the passes of the daemon and the moves of the worker over them. A file
    name without its extension is the key of a map; a directory listing and the clock
    readings made while it is walked are parameters. */
module TaskQueue {
  import opened Basics

  /** A task file: one that reads as a record, with the strings among its dependencies,
      or one that does not read. */
  datatype Task = Task(deps: seq<Id>) | Unreadable

  datatype Sidecar = Sidecar(attempts: int, outcome: string, ts: real)

  /** `queued` holds every `*.json` of the queue directory, so also the marker
      `current_task_<id>.json` of a running task. `sidecars` holds those that read. */
  datatype Queue = Queue(
    queued: map<Id, Task>,
    processing: map<Id, Task>,
    blocked: map<Id, Task>,
    processed: set<Id>,
    sidecars: map<Id, Sidecar>,
    exhausted: set<Id>,
    skip: set<Id>,
    quarantined: set<Id>)

  predicate StartsWith(s: string, prefix: string) {
    prefix <= s
  }

  predicate EndsWith(s: string, suffix: string) {
    |suffix| <= |s| && s[|s| - |suffix|..] == suffix
  }

  const CURRENT := "current_task"
  const RETRY := ".retry"

  predicate IsMarker(id: Id) {
    StartsWith(id, CURRENT)
  }

  function Marker(id: Id): (m: Id)
    ensures IsMarker(m)
  {
    CURRENT + "_" + id
  }

  /** The name `<id>.json` is not the name of a sidecar. */
  predicate Listed(id: Id) {
    !EndsWith(id, RETRY)
  }

  // ----- the retry budget

  function Attempts(s: Queue, id: Id): int {
    if id in s.sidecars then s.sidecars[id].attempts else 0
  }

  function LastTs(s: Queue, id: Id): real {
    if id in s.sidecars then s.sidecars[id].ts else 0.0
  }

  predicate Deterministic(outcome: string) {
    outcome == "synthesis_or_ast_failed" || outcome == "embedded_tests_failed" || outcome == "narrow_fuzz_failed"
  }

  function EffectiveMax(s: Queue, id: Id, maxAttempts: int): int {
    if id in s.sidecars && Deterministic(s.sidecars[id].outcome) then 1 else maxAttempts
  }

  function Threshold(attempts: int): (t: real)
    ensures t >= 300.0
  {
    if attempts <= 1 then 300.0 else if attempts == 2 then 3600.0 else 86400.0
  }

  /** A blocked task whose budget the pass still considers. */
  predicate Pending(s: Queue, id: Id) {
    id in s.blocked && Listed(id) && id !in s.exhausted
  }

  predicate Spent(s: Queue, id: Id, maxAttempts: int) {
    Pending(s, id) && Attempts(s, id) >= EffectiveMax(s, id, maxAttempts)
  }

  predicate Eligible(s: Queue, id: Id, maxAttempts: int) {
    Pending(s, id) && Attempts(s, id) < EffectiveMax(s, id, maxAttempts)
  }

  function Deadline(s: Queue, id: Id): real {
    LastTs(s, id) + Threshold(Attempts(s, id))
  }

  /** `soonest` is the least deadline of the eligible tasks, or none if there are none;
      the budget is the default one of 3. */
  ghost predicate IsSoonest(s: Queue, soonest: Option<real>) {
    match soonest
    case None => forall id :: !Eligible(s, id, 3)
    case Some(d) => (exists id :: Eligible(s, id, 3) && Deadline(s, id) == d) && forall id | Eligible(s, id, 3) ::
        d <= Deadline(s, id)
  }

  /** Looked at when the clock reads `now`, the task goes back to the live queue. */
  predicate Due(s: Queue, id: Id, now: real, maxAttempts: int) {
    Eligible(s, id, maxAttempts) && now >= Deadline(s, id) && id !in s.queued
  }

  function DueSet(s: Queue, done: set<Id>, at: Id -> real, maxAttempts: int): set<Id> {
    set x | x in done && Due(s, x, at(x), maxAttempts)
  }

  function SpentSet(s: Queue, done: set<Id>, maxAttempts: int): set<Id> {
    set x | x in done && Spent(s, x, maxAttempts)
  }

  /** The files of `m` named in `ids`. */
  function Select(m: map<Id, Task>, ids: set<Id>): map<Id, Task> {
    map x | x in ids && x in m :: m[x]
  }

  function Restage(s: Queue, due: set<Id>, spent: set<Id>): Queue {
    s.(queued := s.queued + Select(s.blocked, due),
       blocked := s.blocked - due,
       exhausted := s.exhausted + spent,
       skip := s.skip + spent)
  }

  /** The queue after the retry pass has looked at `done`, each when the clock read `at`
      of it: the due tasks are live again and the spent ones marked. */
  function Retried(s: Queue, done: set<Id>, at: Id -> real, maxAttempts: int): Queue {
    Restage(s, DueSet(s, done, at, maxAttempts), SpentSet(s, done, maxAttempts))
  }

  // ----- blocking

  function Bumped(s: Queue, ids: set<Id>, outcome: string, at: Id -> real): map<Id, Sidecar> {
    map x | x in s.sidecars.Keys + ids ::
      if x in ids then Sidecar(Attempts(s, x) + 1, outcome, at(x)) else s.sidecars[x]
  }

  function Markers(ids: set<Id>): set<Id> {
    set x | x in ids :: Marker(x)
  }

  const ORPHANED := "orphaned"
  const DEPENDENCY_FAILED := "dependency_failed"

  function Orphans(s: Queue, done: set<Id>, live: set<Id>): set<Id> {
    set x | x in done && x in s.processing && x != "" && x !in live
  }

  function MovedSet(s: Queue, done: set<Id>, live: set<Id>): set<Id> {
    Orphans(s, done, live) - s.blocked.Keys
  }

  /** The queue after the reclaim pass has looked at the claimed files `done`: no orphan
      is left among them, and each one not blocked before is blocked and has its
      attempt counted. */
  function Reclaimed(s: Queue, done: set<Id>, live: set<Id>, at: Id -> real): Queue {
    var orphans := Orphans(s, done, live);
    var moved := MovedSet(s, done, live);
    s.(processing := s.processing - orphans,
       blocked := s.blocked + Select(s.processing, moved),
       queued := s.queued - Markers(moved),
       sidecars := Bumped(s, moved, ORPHANED, at))
  }

  /** A live task that reads and has a dependency in `terminal`. */
  predicate Doomed(s: Queue, terminal: set<Id>, id: Id) {
    id in s.queued && !IsMarker(id) && Listed(id) && s.queued[id].Task?
    && exists d :: d in s.queued[id].deps && d in terminal
  }

  function DoomedSet(s: Queue, done: set<Id>): set<Id> {
    set x | x in done && Doomed(s, s.exhausted, x)
  }

  function DropDoomed(s: Queue, doomed: set<Id>, at: Id -> real): Queue {
    s.(queued := s.queued - doomed - Markers(doomed),
       blocked := Select(s.queued, doomed) + s.blocked,
       exhausted := s.exhausted + doomed,
       sidecars := Bumped(s, doomed, DEPENDENCY_FAILED, at))
  }

  /** The queue after the dependency pass has looked at the live files `done`. */
  function DependencyBlocked(s: Queue, done: set<Id>, at: Id -> real): Queue {
    DropDoomed(s, DoomedSet(s, done), at)
  }

  // ----- the worker

  function Claimed(s: Queue, id: Id): Queue {
    if id !in s.queued then s
    else s.(queued := s.queued - {id}, processing := s.processing[id := s.queued[id]])
  }

  /** The dispatch loop puts the live file of a task that spins aside. */
  function Quarantined(s: Queue, id: Id): Queue {
    if id !in s.queued then s else s.(queued := s.queued - {id}, quarantined := s.quarantined + {id})
  }

  /** The file a worker's move picks for a task: the first one listed among the claimed
      files whose name ends with the task's, else among the live ones, else none. */
  datatype Pick = FromProcessing(id: Id) | FromQueued(id: Id) | Nothing

  predicate PickOk(s: Queue, id: Id, pick: Pick) {
    var claimed := exists x :: x in s.processing && EndsWith(x, id);
    match pick
    case FromProcessing(x) => x in s.processing && EndsWith(x, id)
    case FromQueued(x) => !claimed && x in s.queued && EndsWith(x, id)
    case Nothing => !claimed && forall x | x in s.queued :: !EndsWith(x, id)
  }

  function Removed(s: Queue, pick: Pick): Queue {
    match pick
    case FromProcessing(x) => s.(processing := s.processing - {x})
    case FromQueued(x) => s.(queued := s.queued - {x})
    case Nothing => s
  }

  function Picked(s: Queue, id: Id, pick: Pick): Task
    requires PickOk(s, id, pick) && !pick.Nothing?
  {
    if pick.FromProcessing? then s.processing[pick.id] else s.queued[pick.id]
  }

  /** A blocked file is written back with its counters, as a record in any case. */
  function Rewritten(t: Task): Task {
    if t.Unreadable? then Task([]) else t
  }

  function MarkedBlocked(s: Queue, id: Id, pick: Pick, outcome: string, now: real): Queue
    requires PickOk(s, id, pick)
  {
    var moved :=
      if pick.Nothing? then s
      else Removed(s, pick).(blocked := s.blocked[id := Rewritten(Picked(s, id, pick))]);
    moved.(queued := moved.queued - {Marker(id)},
           sidecars := s.sidecars[id := Sidecar(Attempts(s, id) + 1, outcome, now)])
  }

  function MarkedProcessed(s: Queue, id: Id, pick: Pick): Queue
    requires PickOk(s, id, pick)
  {
    var moved := if pick.Nothing? then s else Removed(s, pick).(processed := s.processed + {id});
    moved.(queued := moved.queued - {Marker(id)})
  }

  // ----- one more entry of a pass

  /** `entries` lists exactly the file names of a directory, in some order. */
  ghost predicate Lists(entries: seq<Id>, names: set<Id>) {
    (forall x :: x in entries <==> x in names)
    && (forall i, j | 0 <= i < j < |entries| :: entries[i] != entries[j])
  }

  function Done(entries: seq<Id>, i: nat): set<Id>
    requires i <= |entries|
  {
    set x | x in entries[..i]
  }

  lemma DoneNext(entries: seq<Id>, i: nat, names: set<Id>)
    requires i < |entries| && Lists(entries, names)
    ensures Done(entries, i + 1) == Done(entries, i) + {entries[i]} && entries[i] !in Done(entries, i)
            && entries[i] in names
  {
    assert entries[i] in entries;
    assert entries[..i + 1] == entries[..i] + [entries[i]];
  }

  lemma DoneNone(entries: seq<Id>)
    ensures Done(entries, 0) == {}
  {
  }

  lemma DoneAll(entries: seq<Id>, names: set<Id>)
    requires Lists(entries, names)
    ensures Done(entries, |entries|) == names
  {
    assert entries[..|entries|] == entries;
  }

  lemma SelectNext(m: map<Id, Task>, n: map<Id, Task>, ids: set<Id>, x: Id)
    requires x in m
    ensures n + Select(m, ids + {x}) == (n + Select(m, ids))[x := m[x]]
    ensures Select(m, ids + {x}) + n == if x in n then Select(m, ids) + n else (Select(m, ids) + n)[x := m[x]]
  {
  }

  lemma BumpedNext(s: Queue, ids: set<Id>, x: Id, outcome: string, at: Id -> real)
    requires x !in ids
    ensures Bumped(s, ids + {x}, outcome, at)
            == Bumped(s, ids, outcome, at)[x := Sidecar(Attempts(s, x) + 1, outcome, at(x))]
  {
  }

  lemma MarkersNext(ids: set<Id>, x: Id)
    ensures Markers(ids + {x}) == Markers(ids) + {Marker(x)}
  {
  }

  /** The retry pass at one more entry. */
  function RetryStep(q: Queue, s: Queue, x: Id, now: real, maxAttempts: int): Queue
    requires x in s.blocked
  {
    if Spent(s, x, maxAttempts) then q.(exhausted := q.exhausted + {x}, skip := q.skip + {x})
    else if Due(s, x, now, maxAttempts) then q.(queued := q.queued[x := s.blocked[x]], blocked := q.blocked - {x})
    else q
  }

  lemma RetriedStart(s: Queue, at: Id -> real, maxAttempts: int)
    ensures Retried(s, {}, at, maxAttempts) == s
    ensures |DueSet(s, {}, at, maxAttempts)| == 0
  {
    assert s.queued + Select(s.blocked, {}) == s.queued;
    assert s.blocked - {} == s.blocked;
  }

  lemma DueNext(s: Queue, done: set<Id>, x: Id, at: Id -> real, maxAttempts: int)
    requires x !in done
    ensures DueSet(s, done + {x}, at, maxAttempts) == DueSet(s, done, at, maxAttempts)
            + if Due(s, x, at(x), maxAttempts) then {x} else {}
    ensures SpentSet(s, done + {x}, maxAttempts)
            == SpentSet(s, done, maxAttempts) + if Spent(s, x, maxAttempts) then {x} else {}
  {
    hide Due, Spent;
  }

  lemma DueCount(s: Queue, done: set<Id>, x: Id, at: Id -> real, maxAttempts: int)
    requires x !in done
    ensures |DueSet(s, done + {x}, at, maxAttempts)| == |DueSet(s, done, at, maxAttempts)|
            + if Due(s, x, at(x), maxAttempts) then 1 else 0
  {
    hide Due;
    DueNext(s, done, x, at, maxAttempts);
    assert x !in DueSet(s, done, at, maxAttempts);
  }

  lemma DueNotSpent(s: Queue, x: Id, now: real, maxAttempts: int)
    ensures Due(s, x, now, maxAttempts) ==> !Spent(s, x, maxAttempts)
  {
  }

  lemma RetriedNext(s: Queue, done: set<Id>, x: Id, at: Id -> real, maxAttempts: int)
    requires x !in done && x in s.blocked
    ensures Retried(s, done + {x}, at, maxAttempts)
            == RetryStep(Retried(s, done, at, maxAttempts), s, x, at(x), maxAttempts)
  {
    hide DueSet, SpentSet, Select, Due, Spent;
    DueNext(s, done, x, at, maxAttempts);
    DueNotSpent(s, x, at(x), maxAttempts);
    var due, spent := DueSet(s, done, at, maxAttempts), SpentSet(s, done, maxAttempts);
    if Due(s, x, at(x), maxAttempts) {
      SelectNext(s.blocked, s.queued, due, x);
      assert s.blocked - (due + {x}) == s.blocked - due - {x};
      assert spent + {} == spent;
    } else {
      assert due + {} == due;
      if Spent(s, x, maxAttempts) {
        assert s.exhausted + (spent + {x}) == s.exhausted + spent + {x};
        assert s.skip + (spent + {x}) == s.skip + spent + {x};
      } else {
        assert spent + {} == spent;
      }
    }
  }

  /** What the retry pass has done so far does not touch the entries ahead. */
  lemma RetriedKeeps(s: Queue, done: set<Id>, x: Id, at: Id -> real, maxAttempts: int)
    requires x !in done && x in s.blocked
    ensures var q := Retried(s, done, at, maxAttempts);
            && (x in q.exhausted <==> x in s.exhausted) && (x in q.queued <==> x in s.queued)
            && x in q.blocked && q.blocked[x] == s.blocked[x] && q.sidecars == s.sidecars
  {
  }

  /** The reclaim pass at one more entry. */
  function ReclaimStep(q: Queue, x: Id, live: set<Id>, now: real): Queue
    requires x in q.processing
  {
    if x == "" || x in live then q
    else if x in q.blocked then q.(processing := q.processing - {x})
    else q.(processing := q.processing - {x}, blocked := q.blocked[x := q.processing[x]],
            queued := q.queued - {Marker(x)}, sidecars := q.sidecars[x := Sidecar(Attempts(q, x) + 1, ORPHANED, now)])
  }

  lemma ReclaimedStart(s: Queue, live: set<Id>, at: Id -> real)
    ensures Reclaimed(s, {}, live, at) == s && MovedSet(s, {}, live) == {}
  {
    assert Orphans(s, {}, live) == {};
    assert s.queued - Markers({}) == s.queued;
    assert s.processing - {} == s.processing;
    assert Bumped(s, {}, ORPHANED, at) == s.sidecars;
  }

  lemma OrphansNext(s: Queue, done: set<Id>, x: Id, live: set<Id>)
    requires x in s.processing
    ensures Orphans(s, done + {x}, live) == Orphans(s, done, live) + if x == "" || x in live then {} else {x}
  {
  }

  lemma MovedCount(s: Queue, done: set<Id>, x: Id, live: set<Id>)
    requires x !in done && x in s.processing
    ensures |MovedSet(s, done + {x}, live)|
            == |MovedSet(s, done, live)| + if x == "" || x in live || x in s.blocked then 0 else 1
  {
    var moved := MovedSet(s, done, live);
    MovedNext(s, done, x, live);
    hide MovedSet;
    if !(x == "" || x in live || x in s.blocked) { ProperSubsetSize(moved, moved + {x}, x); }
  }

  lemma MovedNext(s: Queue, done: set<Id>, x: Id, live: set<Id>)
    requires x !in done && x in s.processing
    ensures x !in MovedSet(s, done, live)
    ensures MovedSet(s, done + {x}, live)
         == MovedSet(s, done, live) + if x == "" || x in live || x in s.blocked then {} else {x}
  {
    assert x !in Orphans(s, done, live);
    hide Orphans;
    OrphansNext(s, done, x, live);
  }

  lemma ReclaimedNext(s: Queue, done: set<Id>, x: Id, live: set<Id>, at: Id -> real)
    requires x !in done && x in s.processing
    ensures x in Reclaimed(s, done, live, at).processing
    ensures Reclaimed(s, done + {x}, live, at) == ReclaimStep(Reclaimed(s, done, live, at), x, live, at(x))
  {
    ReclaimedKeeps(s, done, x, live, at);
    var orphans := Orphans(s, done, live);
    assert x !in orphans;
    hide Orphans, Bumped, Select, Markers, Attempts, Marker;
    OrphansNext(s, done, x, live);
    if x == "" || x in live {
      assert orphans + {} == orphans;
    } else {
      var moved := orphans - s.blocked.Keys;
      assert s.processing - (orphans + {x}) == s.processing - orphans - {x};
      if x in s.blocked {
        assert orphans + {x} - s.blocked.Keys == moved;
      } else {
        assert orphans + {x} - s.blocked.Keys == moved + {x};
        MarkersNext(moved, x);
        assert s.queued - (Markers(moved) + {Marker(x)}) == s.queued - Markers(moved) - {Marker(x)};
        SelectNext(s.processing, s.blocked, moved, x);
        BumpedNext(s, moved, x, ORPHANED, at);
      }
    }
  }

  lemma ReclaimedKeeps(s: Queue, done: set<Id>, x: Id, live: set<Id>, at: Id -> real)
    requires x !in done && x in s.processing
    ensures var q := Reclaimed(s, done, live, at);
            && x in q.processing && q.processing[x] == s.processing[x] && (x in q.blocked <==> x in s.blocked)
            && Attempts(q, x) == Attempts(s, x)
  {
  }

  /** The dependency pass at one more entry. */
  function DependencyStep(q: Queue, terminal: set<Id>, x: Id, now: real): Queue {
    if !Doomed(q, terminal, x) then q
    else q.(queued := q.queued - {x} - {Marker(x)},
            blocked := if x in q.blocked then q.blocked else q.blocked[x := q.queued[x]],
            exhausted := q.exhausted + {x},
            sidecars := q.sidecars[x := Sidecar(Attempts(q, x) + 1, DEPENDENCY_FAILED, now)])
  }

  lemma DependencyStart(s: Queue, at: Id -> real)
    ensures DependencyBlocked(s, {}, at) == s && DoomedSet(s, {}) == {}
  {
    assert DoomedSet(s, {}) == {};
    assert s.queued - {} - Markers({}) == s.queued;
    assert Bumped(s, {}, DEPENDENCY_FAILED, at) == s.sidecars;
  }

  lemma DoomedNext(s: Queue, done: set<Id>, x: Id)
    ensures x !in done ==> x !in DoomedSet(s, done)
    ensures Doomed(s, s.exhausted, x) ==> !IsMarker(x)
    ensures DoomedSet(s, done + {x}) == DoomedSet(s, done) + if Doomed(s, s.exhausted, x) then {x} else {}
  {
  }

  lemma DoomedCount(s: Queue, done: set<Id>, x: Id)
    requires x !in done
    ensures |DoomedSet(s, done + {x})| == |DoomedSet(s, done)| + if Doomed(s, s.exhausted, x) then 1 else 0
  {
    DoomedNext(s, done, x);
    assert x !in DoomedSet(s, done);
  }

  lemma MinusNext(m: map<Id, Task>, a: set<Id>, b: set<Id>, x: Id, y: Id)
    ensures m - (a + {x}) - (b + {y}) == m - a - b - {x} - {y}
  {
  }

  lemma DropNext(s: Queue, doomed: set<Id>, x: Id, at: Id -> real)
    requires x !in doomed && x in s.queued
    ensures var q := DropDoomed(s, doomed, at);
            DropDoomed(s, doomed + {x}, at)
            == q.(queued := q.queued - {x} - {Marker(x)},
                  blocked := if x in s.blocked then q.blocked else q.blocked[x := s.queued[x]],
                  exhausted := q.exhausted + {x},
                  sidecars := q.sidecars[x := Sidecar(Attempts(s, x) + 1, DEPENDENCY_FAILED, at(x))])
  {
    hide Bumped, Select, Markers, Attempts, Marker;
    MarkersNext(doomed, x);
    MinusNext(s.queued, doomed, Markers(doomed), x, Marker(x));
    assert s.exhausted + (doomed + {x}) == s.exhausted + doomed + {x};
    SelectNext(s.queued, s.blocked, doomed, x);
    BumpedNext(s, doomed, x, DEPENDENCY_FAILED, at);
  }

  lemma DependencyNext(s: Queue, done: set<Id>, x: Id, at: Id -> real)
    requires x !in done && x in s.queued
    ensures DependencyBlocked(s, done + {x}, at)
            == DependencyStep(DependencyBlocked(s, done, at), s.exhausted, x, at(x))
  {
    hide DoomedSet, Doomed, DropDoomed, Attempts, Marker, IsMarker;
    var doomed := DoomedSet(s, done);
    DependencyKeeps(s, done, x, at);
    DoomedNext(s, done, x);
    if Doomed(s, s.exhausted, x) {
      DropNext(s, doomed, x, at);
    } else {
      assert doomed + {} == doomed;
    }
  }

  lemma DependencyKeeps(s: Queue, done: set<Id>, x: Id, at: Id -> real)
    requires x !in done && x in s.queued
    ensures var q := DependencyBlocked(s, done, at);
            && (!IsMarker(x) ==> x in q.queued && q.queued[x] == s.queued[x])
            && (x in q.blocked <==> x in s.blocked) && Attempts(q, x) == Attempts(s, x)
            && (Doomed(q, s.exhausted, x) <==> Doomed(s, s.exhausted, x))
  {
  }

  /** The queue directory as the daemon and the workers change it in place. */
  class TaskDirectory {
    var queued: map<Id, Task>
    var processing: map<Id, Task>
    var blocked: map<Id, Task>
    var processed: set<Id>
    var sidecars: map<Id, Sidecar>
    var exhausted: set<Id>
    var skip: set<Id>
    var quarantined: set<Id>

    ghost function State(): Queue
      reads this
    {
      Queue(queued, processing, blocked, processed, sidecars, exhausted, skip, quarantined)
    }

    /** `_bump_blocked_sidecar`. */
    method BumpSidecar(id: Id, outcome: string, now: real) returns (attempts: int)
      modifies this`sidecars
      ensures attempts == Attempts(old(State()), id) + 1
      ensures sidecars == old(sidecars)[id := Sidecar(attempts, outcome, now)]
    {
      attempts := 0;
      if id in sidecars {
        attempts := sidecars[id].attempts;
      }
      attempts := attempts + 1;
      sidecars := sidecars[id := Sidecar(attempts, outcome, now)];
    }

    /** The move of the dispatch loop for a task that spins. */
    method Quarantine(id: Id)
      modifies this`queued, this`quarantined
      ensures State() == Quarantined(old(State()), id)
    {
      if id in queued {
        queued, quarantined := queued - {id}, quarantined + {id};
      }
    }

    /** `_retry_blocked_tasks`, over a listing of the blocked directory. */
    method RetryBlocked(entries: seq<Id>, at: Id -> real, maxAttempts: int) returns (restaged: nat)
      requires Lists(entries, blocked.Keys)
      modifies this
      ensures State() == Retried(old(State()), old(blocked).Keys, at, maxAttempts)
      ensures restaged == |DueSet(old(State()), old(blocked).Keys, at, maxAttempts)|
    {
      hide Retried, DueSet, SpentSet, Done, Lists;
      restaged := 0;
      ghost var s := State();
      DoneNone(entries);
      RetriedStart(s, at, maxAttempts);
      for i := 0 to |entries|
        invariant State() == Retried(s, Done(entries, i), at, maxAttempts)
        invariant restaged == |DueSet(s, Done(entries, i), at, maxAttempts)|
      {
        var id := entries[i];
        DoneNext(entries, i, s.blocked.Keys);
        DueCount(s, Done(entries, i), id, at, maxAttempts);
        RetriedNext(s, Done(entries, i), id, at, maxAttempts);
        RetriedKeeps(s, Done(entries, i), id, at, maxAttempts);
        if EndsWith(id, RETRY) {
          continue;
        }
        if id in exhausted {
          continue;
        }
        var attempts, lastTs, lastOutcome := 0, 0.0, "";
        if id in sidecars {
          attempts, lastTs, lastOutcome := sidecars[id].attempts, sidecars[id].ts, sidecars[id].outcome;
        }
        var effectiveMax := if Deterministic(lastOutcome) then 1 else maxAttempts;
        if attempts >= effectiveMax {
          exhausted := exhausted + {id};
          skip := skip + {id};
          continue;
        }
        if at(id) - lastTs < Threshold(attempts) {
          continue;
        }
        if id in queued {
          continue;
        }
        queued, blocked := queued[id := blocked[id]], blocked - {id};
        restaged := restaged + 1;
      }
      DoneAll(entries, s.blocked.Keys);
    }

    /** `_soonest_blocked_retry_deadline`, over a listing of the blocked directory; its
        budget is written out as 3. */
    method SoonestDeadline(entries: seq<Id>) returns (soonest: Option<real>)
      requires Lists(entries, blocked.Keys)
      ensures IsSoonest(State(), soonest)
    {
      soonest := None;
      for i := 0 to |entries|
        invariant soonest.None? ==> forall j | 0 <= j < i :: !Eligible(State(), entries[j], 3)
        invariant soonest.Some? ==> exists j | 0 <= j < i ::
                Eligible(State(), entries[j], 3) && Deadline(State(), entries[j]) == soonest.value
        invariant soonest.Some? ==> forall j | 0 <= j < i && Eligible(State(), entries[j], 3) ::
                soonest.value <= Deadline(State(), entries[j])
      {
        var id := entries[i];
        if EndsWith(id, RETRY) {
          continue;
        }
        if id in exhausted {
          continue;
        }
        var attempts, lastTs, lastOutcome := 0, 0.0, "";
        if id in sidecars {
          attempts, lastTs, lastOutcome := sidecars[id].attempts, sidecars[id].ts, sidecars[id].outcome;
        }
        var effectiveMax := if Deterministic(lastOutcome) then 1 else 3;
        if attempts >= effectiveMax {
          continue;
        }
        var dl := lastTs + Threshold(attempts);
        soonest := Some(if soonest.None? || dl < soonest.value then dl else soonest.value);
      }
      forall id | Eligible(State(), id, 3)
        ensures exists j | 0 <= j < |entries| :: entries[j] == id
      {
        assert id in entries;
      }
    }

    /** The body of the loop of `_reclaim_orphan_processing`. */
    method ReclaimOne(id: Id, live: set<Id>, now: real) returns (moved: bool)
      requires id in processing
      modifies this
      ensures State() == ReclaimStep(old(State()), id, live, now)
      ensures moved == (id != "" && id !in live && id !in old(blocked))
    {
      if id == "" || id in live {
        return false;
      }
      if id in blocked {
        processing := processing - {id};
        return false;
      }
      processing, blocked := processing - {id}, blocked[id := processing[id]];
      queued := queued - {Marker(id)};
      var _ := BumpSidecar(id, ORPHANED, now);
      return true;
    }

    /** `_reclaim_orphan_processing`, over a listing of the claimed files. */
    method ReclaimOrphans(entries: seq<Id>, live: set<Id>, at: Id -> real) returns (reclaimed: nat)
      requires Lists(entries, processing.Keys)
      modifies this
      ensures State() == Reclaimed(old(State()), old(processing).Keys, live, at)
      ensures reclaimed == |MovedSet(old(State()), old(processing).Keys, live)|
    {
      hide Reclaimed, MovedSet, Done, Lists, ReclaimStep;
      reclaimed := 0;
      ghost var s := State();
      DoneNone(entries);
      ReclaimedStart(s, live, at);
      for i := 0 to |entries|
        invariant State() == Reclaimed(s, Done(entries, i), live, at)
        invariant reclaimed == |MovedSet(s, Done(entries, i), live)|
      {
        DoneNext(entries, i, s.processing.Keys);
        ReclaimedNext(s, Done(entries, i), entries[i], live, at);
        ReclaimedKeeps(s, Done(entries, i), entries[i], live, at);
        MovedCount(s, Done(entries, i), entries[i], live);
        var moved := ReclaimOne(entries[i], live, at(entries[i]));
        if moved {
          reclaimed := reclaimed + 1;
        }
      }
      DoneAll(entries, s.processing.Keys);
    }

    /** The body of the loop of `_block_dependency_failed_tasks`. */
    method BlockOne(id: Id, terminal: set<Id>, now: real) returns (doomed: bool)
      requires IsMarker(id) || id in queued
      modifies this
      ensures State() == DependencyStep(old(State()), terminal, id, now)
      ensures doomed == Doomed(old(State()), terminal, id)
    {
      if IsMarker(id) || EndsWith(id, RETRY) {
        return false;
      }
      if queued[id].Unreadable? {
        return false;
      }
      if forall d | d in queued[id].deps :: d !in terminal {
        return false;
      }
      if id !in blocked {
        blocked := blocked[id := queued[id]];
      }
      queued := queued - {id};
      exhausted := exhausted + {id};
      var _ := BumpSidecar(id, DEPENDENCY_FAILED, now);
      queued := queued - {Marker(id)};
      return true;
    }

    /** `_block_dependency_failed_tasks`, over a listing of the live files. */
    method BlockDependencyFailed(entries: seq<Id>, at: Id -> real) returns (count: nat)
      requires Lists(entries, queued.Keys)
      modifies this
      ensures State() == DependencyBlocked(old(State()), old(queued).Keys, at)
      ensures count == |DoomedSet(old(State()), old(queued).Keys)|
    {
      hide DependencyBlocked, DoomedSet, Done, Lists, DependencyStep, Doomed;
      count := 0;
      ghost var s := State();
      DoneNone(entries);
      DependencyStart(s, at);
      var terminal := exhausted;
      for i := 0 to |entries|
        invariant State() == DependencyBlocked(s, Done(entries, i), at)
        invariant count == |DoomedSet(s, Done(entries, i))|
      {
        DoneNext(entries, i, s.queued.Keys);
        DependencyNext(s, Done(entries, i), entries[i], at);
        DependencyKeeps(s, Done(entries, i), entries[i], at);
        DoomedCount(s, Done(entries, i), entries[i]);
        var doomed := BlockOne(entries[i], terminal, at(entries[i]));
        if doomed {
          count := count + 1;
        }
      }
      DoneAll(entries, s.queued.Keys);
    }

    /** A worker renames a live file to its claimed name, or finds none and leaves. */
    method Claim(id: Id) returns (claimed: bool)
      modifies this
      ensures claimed == (id in old(queued)) && State() == Claimed(old(State()), id)
    {
      claimed := id in queued;
      if claimed {
        queued, processing := queued - {id}, processing[id := queued[id]];
      }
    }

    /** `_mark_blocked`. */
    method MarkBlocked(id: Id, pick: Pick, outcome: string, now: real)
      requires PickOk(State(), id, pick)
      modifies this
      ensures State() == MarkedBlocked(old(State()), id, pick, outcome, now)
    {
      match pick {
        case FromProcessing(x) =>
          processing, blocked := processing - {x}, blocked[id := Rewritten(processing[x])];
        case FromQueued(x) =>
          queued, blocked := queued - {x}, blocked[id := Rewritten(queued[x])];
        case Nothing =>
      }
      var _ := BumpSidecar(id, outcome, now);
      queued := queued - {Marker(id)};
    }

    /** `_mark_processed`. */
    method MarkProcessed(id: Id, pick: Pick)
      requires PickOk(State(), id, pick)
      modifies this
      ensures State() == MarkedProcessed(old(State()), id, pick)
    {
      match pick {
        case FromProcessing(x) =>
          processing, processed := processing - {x}, processed + {id};
        case FromQueued(x) =>
          queued, processed := queued - {x}, processed + {id};
        case Nothing =>
      }
      queued := queued - {Marker(id)};
    }
  }
}
