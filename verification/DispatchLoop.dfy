/** The daemon's iterations, where admission and the worker slots meet: every round the
    admission decides keeps slots private, and a pool no smaller than the cap never raises. */
module DispatchLoop {
  import opened Basics
  import opened Parallelism
  import opened Admission
  import opened AgyPool

  /** The id of a record that has one. */
  function TaskId(t: TaskSpec): Id {
    if t.id.Some? then t.id.value else ""
  }

  function TaskIds(ts: seq<TaskSpec>): (ids: seq<Id>)
    ensures |ids| == |ts| && forall i | 0 <= i < |ts| :: ids[i] == TaskId(ts[i])
  {
    seq(|ts|, i requires 0 <= i < |ts| => TaskId(ts[i]))
  }

  /** One iteration: what happens in the running directory up to the listing `running` of
      its live ids, the records and settings admission reads, what happens up to the
      dispatch loop, and what the loop does with the chosen tasks. */
  datatype Iteration = Iteration(
    before: seq<Event>,
    running: seq<Id>,
    tasks: seq<TaskSpec>,
    accepted: set<Id>,
    specs: seq<TaskSpec>,
    gate: TaskSpec -> bool,
    cap: int,
    paused: bool,
    between: seq<Event>,
    chosen: seq<TaskSpec>,
    how: seq<Dispatch>,
    size: int)

  /** Outside the dispatch loop workers end, and only helpers that are no tasks start. */
  predicate Quiet(events: seq<Event>, names: set<Id>) {
    forall i | 0 <= i < |events| :: events[i].Leave? || (events[i].Plain? && events[i].id !in names)
  }

  /** `running` lists `ids`, each once. */
  ghost predicate Lists(running: seq<Id>, ids: set<Id>) {
    |running| == |ids| && forall x :: x in running <==> x in ids
  }

  ghost function Candidates(it: Iteration): seq<TaskSpec> {
    Prioritize(Filter(Filter(it.tasks, CanDispatch(it.tasks, it.accepted, it.running)), it.gate))
  }

  ghost predicate ChosenAt(it: Iteration, picks: seq<nat>) {
    var ordered := Candidates(it);
    && it.cap > |it.running|
    && GreedyPicks(picks, |ordered|, ordered, it.specs, ordered + it.specs, it.cap - |it.running|)
    && it.chosen == Taken(ordered, picks)
  }

  /** `chosen` is what `Decide` returns. */
  ghost predicate Decided(it: Iteration) {
    if it.paused || it.cap <= |it.running| then it.chosen == [] else exists picks :: ChosenAt(it, picks)
  }

  /** The iteration can happen in state `s`, when the tasks are called `names`. */
  ghost predicate Happens(s: Running, it: Iteration, names: set<Id>) {
    && Quiet(it.before, names) && Quiet(it.between, names)
    && Lists(it.running, End(s, it.before).pids)
    && (forall t | t in it.tasks :: t.id.Some? && t.id.value in names)
    && Decided(it) && |it.how| == |it.chosen|
  }

  function AtDispatch(s: Running, it: Iteration): Running {
    End(End(s, it.before), it.between)
  }

  predicate RoundRaises(s: Running, it: Iteration)
    requires |it.how| == |it.chosen|
  {
    Raises(AtDispatch(s, it), TaskIds(it.chosen), it.how, it.size)
  }

  function After(s: Running, it: Iteration): Running
    requires |it.how| == |it.chosen|
  {
    RoundEnd(AtDispatch(s, it), TaskIds(it.chosen), it.how, it.size)
  }

  lemma {:induction false} QuietKeeps(s: Running, events: seq<Event>, names: set<Id>)
    requires Private(s) && Quiet(events, names)
    ensures var t := End(s, events);
            Private(t) && t.slots == s.slots && t.pids * names <= s.pids
    decreases |events|
  {
    if events != [] { QuietKeeps(Next(s, events[0]), events[1..], names); }
  }

  /** The chosen tasks are different tasks, none of them live at the listing, and no more
      than the cap leaves free. */
  lemma ChosenAdmitted(it: Iteration)
    requires Decided(it) && forall t | t in it.tasks :: t.id.Some?
    ensures |it.chosen| <= if it.cap > |it.running| then it.cap - |it.running| else 0
    ensures forall t | t in it.chosen :: t in it.tasks && t.id.Some? && t.id.value !in it.running
    ensures Distinct(TaskIds(it.chosen))
  {
    if !it.paused && it.cap > |it.running| {
      var picks :| ChosenAt(it, picks);
      PicksAdmitted(it, picks);
    }
  }

  lemma PicksAdmitted(it: Iteration, picks: seq<nat>)
    requires ChosenAt(it, picks) && forall t | t in it.tasks :: t.id.Some?
    ensures |it.chosen| <= it.cap - |it.running|
    ensures forall t | t in it.chosen :: t in it.tasks && t.id.Some? && t.id.value !in it.running
    ensures Distinct(TaskIds(it.chosen))
  {
    hide SafeWithAll, Ordered, Blocked, Prioritize, Filter, CanDispatch;
    var ordered := Candidates(it);
    AdmissionSound(it.tasks, it.accepted, it.running, it.specs, it.gate, it.cap - |it.running|, ordered, picks);
    forall i, j | 0 <= i < j < |it.chosen|
      ensures TaskIds(it.chosen)[i] != TaskIds(it.chosen)[j]
    {
      assert ParallelSafe(ordered[picks[i]], ordered[picks[j]], Some(ordered + it.specs), true);
      assert it.chosen[i] in it.chosen && it.chosen[j] in it.chosen;
    }
  }

  lemma Listed(s: Running, it: Iteration, names: set<Id>)
    requires Private(s) && s.slots.Keys <= names && Happens(s, it, names)
    ensures AdmittedRound(AtDispatch(s, it), End(s, it.before).pids, TaskIds(it.chosen), it.how, it.cap)
    ensures Private(AtDispatch(s, it)) && AtDispatch(s, it).slots.Keys <= names
    ensures forall i | 0 <= i < |it.chosen| :: TaskIds(it.chosen)[i] in names
  {
    hide Decided;
    ChosenAdmitted(it);
    QuietKeeps(s, it.before, names);
    QuietKeeps(End(s, it.before), it.between, names);
    var ids := TaskIds(it.chosen);
    forall i | 0 <= i < |ids|
      ensures ids[i] in names && ids[i] !in AtDispatch(s, it).pids
    {
      assert it.chosen[i] in it.chosen;
    }
  }

  lemma {:induction false} RoundSlots(s: Running, chosen: seq<Id>, how: seq<Dispatch>, size: int, names: set<Id>)
    requires |how| == |chosen| && s.slots.Keys <= names && forall i | 0 <= i < |chosen| :: chosen[i] in names
    ensures RoundEnd(s, chosen, how, size).slots.Keys <= names
    decreases |chosen|
  {
    if chosen != [] && !Refused(s, how[0], size) {
      DispatchFiles(s, chosen[0], how[0], size);
      RoundSlots(Dispatched(s, chosen[0], how[0], size), chosen[1..], how[1..], size, names);
    }
  }

  /** An iteration keeps slots private, and with a pool no smaller than the cap every
      pooled worker of its round finds a slot. */
  lemma IterationSafe(s: Running, it: Iteration, names: set<Id>)
    requires Private(s) && s.slots.Keys <= names && Happens(s, it, names)
    ensures Private(After(s, it)) && After(s, it).slots.Keys <= names
    ensures it.size >= it.cap ==> AllFind(AtDispatch(s, it), TaskIds(it.chosen), it.how, it.size)
    ensures it.size <= 0 || it.size >= it.cap ==> !RoundRaises(s, it)
  {
    Listed(s, it, names);
    hide Happens, AtDispatch, End;
    var t, ids := AtDispatch(s, it), TaskIds(it.chosen);
    RoundKeepsPrivate(t, ids, it.how, it.size);
    RoundSlots(t, ids, it.how, it.size, names);
    if it.size >= it.cap { AdmittedFindSlots(t, End(s, it.before).pids, ids, it.how, it.size, it.cap); }
    if it.size <= 0 || it.size >= it.cap { AllFindNoRaise(t, ids, it.how, it.size); }
  }

  // ----- over a run

  ghost predicate Goes(s: Running, its: seq<Iteration>, names: set<Id>)
    decreases |its|
  {
    its == [] || (Happens(s, its[0], names) && Goes(After(s, its[0]), its[1..], names))
  }

  ghost function EndOf(s: Running, its: seq<Iteration>, names: set<Id>): Running
    requires Goes(s, its, names)
    decreases |its|
  {
    if its == [] then s else EndOf(After(s, its[0]), its[1..], names)
  }

  ghost predicate NoneRaises(s: Running, its: seq<Iteration>, names: set<Id>)
    requires Goes(s, its, names)
    decreases |its|
  {
    its == [] || (!RoundRaises(s, its[0]) && NoneRaises(After(s, its[0]), its[1..], names))
  }

  /** Over every run of iterations no two live pooled workers hold the same slot, and no
      allocation raises while the pool is off or no smaller than the cap. */
  lemma {:induction false} IterationsSafe(s: Running, its: seq<Iteration>, names: set<Id>)
    requires Private(s) && s.slots.Keys <= names && Goes(s, its, names)
    ensures Private(EndOf(s, its, names))
    ensures (forall i | 0 <= i < |its| :: its[i].size <= 0 || its[i].size >= its[i].cap) ==> NoneRaises(s, its, names)
    decreases |its|
  {
    hide Private, After, RoundRaises, Decided;
    if its != [] {
      IterationSafe(s, its[0], names);
      IterationsSafe(After(s, its[0]), its[1..], names);
    }
  }
}
