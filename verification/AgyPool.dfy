/** Private homes for pooled workers: a slot is the number in the file `<id>.slot` of the
    running directory, and is in use while the file `<id>.pid` stands beside it. */
module AgyPool {
  import opened Basics

  /** The outcome of an allocation: a slot, none because the pool is empty, or the
      exception raised when every slot is busy. */
  datatype Allocation = Slot(slot: nat) | NoPool | Raised

  /** `r` is what a search for the lowest free slot of `size` yields. */
  predicate Allocates(busy: set<int>, size: int, r: Allocation) {
    match r
    case Slot(i) => i < size && i !in busy && forall j | 0 <= j < i :: j in busy
    case NoPool => size <= 0
    case Raised => size > 0 && forall j | 0 <= j < size :: j in busy
  }

  /** `allocate_slot` without lock files and without the fallback to a shared home. */
  method AllocateSlot(busy: set<int>, size: int) returns (r: Allocation)
    ensures r.Slot? ==> r.slot < size && r.slot !in busy && forall j | 0 <= j < r.slot :: j in busy
    ensures r.NoPool? <==> size <= 0
    ensures r.Raised? <==> size > 0 && forall j | 0 <= j < size :: j in busy
  {
    if size <= 0 {
      return NoPool;
    }
    for i := 0 to size
      invariant forall j | 0 <= j < i :: j in busy
    {
      if i in busy {
        continue;
      }
      return Slot(i);
    }
    return Raised;
  }

  // ----- the running directory

  /** `held` is not on disk: the slot each live pooled worker was started with. */
  datatype Running = Running(pids: set<Id>, slots: map<Id, int>, held: map<Id, nat>)

  /** The tasks with both files. */
  function Marked(s: Running): set<Id> {
    s.pids * s.slots.Keys
  }

  function Busy(s: Running): set<int> {
    set x | x in Marked(s) :: s.slots[x]
  }

  /** `_agy_pool_busy_slots`, over a listing of the slot files. */
  method BusySlots(pids: set<Id>, slots: map<Id, int>, entries: seq<Id>) returns (busy: set<int>)
    requires forall x :: x in entries <==> x in slots
    ensures busy == Busy(Running(pids, slots, map[]))
  {
    busy := {};
    for i := 0 to |entries|
      invariant forall n :: n in busy <==> exists j :: 0 <= j < i && entries[j] in pids && n == slots[entries[j]]
    {
      var x := entries[i];
      assert x in entries;
      if x !in pids {
        continue;
      }
      busy := busy + {slots[x]};
    }
    forall n | n in busy
      ensures n in Busy(Running(pids, slots, map[]))
    {
      var j :| 0 <= j < |entries| && entries[j] in pids && n == slots[entries[j]];
      assert entries[j] in Marked(Running(pids, slots, map[]));
    }
    forall n | n in Busy(Running(pids, slots, map[]))
      ensures n in busy
    {
      var x :| x in pids && x in slots && n == slots[x];
      assert x in entries;
    }
  }

  /** One event in the life of the directory. `Launch` starts a pooled worker, `started`
      telling whether the process came up; `Plain` starts one without a slot; `Leave` is
      the end of a worker and the removal of its `.pid`. */
  datatype Event = Launch(id: Id, size: int, started: bool) | Plain(id: Id) | Leave(id: Id)

  function Allocated(s: Running, size: int): (r: Allocation)
    ensures Allocates(Busy(s), size, r)
  {
    if size <= 0 then NoPool else Lowest(Busy(s), size, 0)
  }

  function Lowest(busy: set<int>, size: int, i: nat): (r: Allocation)
    requires i <= size && size > 0 && forall j | 0 <= j < i :: j in busy
    ensures Allocates(busy, size, r)
    decreases size - i
  {
    if i == size then Raised else if i in busy then Lowest(busy, size, i + 1) else Slot(i)
  }

  /** A task is launched only while it has no `.pid`. */
  predicate Enabled(s: Running, e: Event) {
    match e
    case Launch(id, _, _) => id !in s.pids
    case Plain(id) => id !in s.pids
    case Leave(_) => true
  }

  function Next(s: Running, e: Event): Running {
    match e
    case Launch(id, size, started) =>
      (match Allocated(s, size)
       case Slot(i) =>
         if started then Running(s.pids + {id}, s.slots[id := i], s.held[id := i]) else s.(slots := s.slots[id := i])
       case NoPool => if started then s.(pids := s.pids + {id}) else s
       case Raised => s)
    case Plain(id) => s.(pids := s.pids + {id})
    case Leave(id) => Running(s.pids - {id}, s.slots, s.held - {id})
  }

  /** Some task with both files is in slot `n`. */
  ghost predicate InUse(s: Running, n: int) {
    exists x :: x in s.pids && x in s.slots && s.slots[x] == n
  }

  /** A launch takes the lowest slot that no task with both files is in and writes its `.slot`
      file, and its `.pid` file once the worker is up; with no slot free nothing changes, and
      without a pool the worker has no slot. */
  lemma LaunchIs(s: Running, id: Id, size: int, started: bool, n: nat)
    ensures size > 0 && n < size && !InUse(s, n) && (forall j | 0 <= j < n :: InUse(s, j)) ==>
              Next(s, Launch(id, size, started))
              == s.(slots := s.slots[id := n],
                    pids := if started then s.pids + {id} else s.pids,
                    held := if started then s.held[id := n] else s.held)
    ensures size > 0 && (forall j | 0 <= j < size :: InUse(s, j)) ==> Next(s, Launch(id, size, started)) == s
    ensures size <= 0 ==>
              Next(s, Launch(id, size, started)) == s.(pids := if started then s.pids + {id} else s.pids)
  {
    forall j: int
      ensures j in Busy(s) <==> InUse(s, j)
    {
      assert forall x :: x in Marked(s) <==> x in s.pids && x in s.slots;
    }
    hide Busy, InUse;
  }

  ghost predicate Run(s: Running, events: seq<Event>)
    decreases |events|
  {
    events == [] || (Enabled(s, events[0]) && Run(Next(s, events[0]), events[1..]))
  }

  function End(s: Running, events: seq<Event>): Running
    decreases |events|
  {
    if events == [] then s else End(Next(s, events[0]), events[1..])
  }

  /** A run goes on from where it ends. */
  lemma {:induction false} EndGoesOn(s: Running, events: seq<Event>, e: Event)
    ensures End(s, []) == s && End(s, events + [e]) == Next(End(s, events), e)
    decreases |events|
  {
    if events == [] {
      assert [] + [e] == [e] && [e][1..] == [];
    } else {
      assert (events + [e])[1..] == events[1..] + [e];
      EndGoesOn(Next(s, events[0]), events[1..], e);
    }
  }

  /** Every live pooled worker has both files, the `.slot` saying what it holds, and no two
      hold the same slot. */
  ghost predicate Private(s: Running) {
    && (forall x | x in s.held :: x in s.pids && x in s.slots && s.slots[x] == s.held[x])
    && (forall x, y | x in s.held && y in s.held && x != y :: s.held[x] != s.held[y])
  }

  lemma StepKeepsPrivate(s: Running, e: Event)
    requires Private(s) && Enabled(s, e)
    ensures Private(Next(s, e))
  {
    if e.Launch? && Allocated(s, e.size).Slot? && e.started {
      var i := Allocated(s, e.size).slot;
      forall x | x in s.held
        ensures s.held[x] != i
      {
        assert s.slots[x] in Busy(s);
      }
    }
  }

  /** Over every run no two live pooled workers hold the same slot. */
  lemma {:induction false} SlotsStayPrivate(s: Running, events: seq<Event>)
    requires Private(s) && Run(s, events)
    ensures Private(End(s, events))
    decreases |events|
  {
    if events != [] {
      StepKeepsPrivate(s, events[0]);
      SlotsStayPrivate(Next(s, events[0]), events[1..]);
    }
  }

  // ----- a pool as large as the cap never runs out

  lemma {:induction false} ImageSize(s: Running, ids: set<Id>)
    requires ids <= s.slots.Keys
    ensures |set x | x in ids :: s.slots[x]| <= |ids|
    decreases |ids|
  {
    if ids != {} {
      var y :| y in ids;
      ImageSize(s, ids - {y});
      assert (set x | x in ids :: s.slots[x]) == (set x | x in ids - {y} :: s.slots[x]) + {s.slots[y]};
    }
  }

  lemma {:induction false} AllBusySize(busy: set<int>, size: nat)
    requires forall j | 0 <= j < size :: j in busy
    ensures |busy| >= size
  {
    if size > 0 { AllBusySize(busy - {size - 1}, size - 1); }
  }

  /** With fewer marked tasks than slots one is free. */
  lemma Pigeonhole(s: Running, size: int)
    requires |Marked(s)| < size
    ensures Allocated(s, size).Slot?
  {
    ImageSize(s, Marked(s));
    if forall j | 0 <= j < size :: j in Busy(s) { AllBusySize(Busy(s), size); }
  }

  /** What the dispatch loop does with an admitted task: launch it from the pool, run it
      to its end in the foreground, or skip it. */
  datatype Dispatch = Pooled(started: bool) | Foreground | Skipped

  function Dispatched(s: Running, id: Id, how: Dispatch, size: int): Running {
    match how
    case Pooled(started) => Next(s, Launch(id, size, started))
    case Foreground => Next(Next(s, Plain(id)), Leave(id))
    case Skipped => s
  }

  /** Every pooled launch of the round finds a slot. */
  predicate AllFind(s: Running, chosen: seq<Id>, how: seq<Dispatch>, size: int)
    requires |how| == |chosen|
    decreases |chosen|
  {
    chosen == []
    || ((how[0].Pooled? ==> Allocated(s, size).Slot?)
        && AllFind(Dispatched(s, chosen[0], how[0], size), chosen[1..], how[1..], size))
  }

  lemma DispatchFiles(s: Running, id: Id, how: Dispatch, size: int)
    ensures var t := Dispatched(s, id, how, size);
            t.pids <= s.pids + {id} && forall x | x in t.slots :: x in s.slots || x == id
  {
    hide Allocated;
  }

  lemma DispatchMarks(s: Running, id: Id, how: Dispatch, size: int)
    ensures |Marked(Dispatched(s, id, how, size))| <= |Marked(s)| + 1
  {
    DispatchFiles(s, id, how, size);
    hide Dispatched;
    var t := Dispatched(s, id, how, size);
    assert Marked(t) <= Marked(s) + {id};
    SubsetSize(Marked(t), Marked(s) + {id});
  }

  /** When the pool has at least as many slots as tasks may run at once, and the round
      launches no more than the cap leaves free, every pooled worker finds a slot. */
  lemma {:induction false} RoundFindsSlots(s: Running, chosen: seq<Id>, how: seq<Dispatch>, size: int, cap: int)
    requires |how| == |chosen| && size >= cap
    requires |Marked(s)| + |chosen| <= cap
    ensures AllFind(s, chosen, how, size)
    decreases |chosen|
  {
    if chosen != [] {
      Pigeonhole(s, size);
      DispatchMarks(s, chosen[0], how[0], size);
      RoundFindsSlots(Dispatched(s, chosen[0], how[0], size), chosen[1..], how[1..], size, cap);
    }
  }

  /** The admission cap gives that: with `running` counting at least the marked tasks, a
      round of at most `max(0, cap - running)` tasks never makes the allocation raise. */
  lemma AdmittedFindSlots(s: Running, running: set<Id>, chosen: seq<Id>, how: seq<Dispatch>, size: int, cap: int)
    requires Marked(s) <= running && |how| == |chosen| && size >= cap
    requires |chosen| <= if cap > |running| then cap - |running| else 0
    ensures AllFind(s, chosen, how, size)
  {
    SubsetSize(Marked(s), running);
    if chosen != [] { RoundFindsSlots(s, chosen, how, size, cap); }
  }

  /** The task is to be pooled and the allocation raises. */
  predicate Refused(s: Running, how: Dispatch, size: int) {
    how.Pooled? && Allocated(s, size).Raised?
  }

  /** Some allocation of the round raises. */
  predicate Raises(s: Running, chosen: seq<Id>, how: seq<Dispatch>, size: int)
    requires |how| == |chosen|
    decreases |chosen|
  {
    && chosen != []
    && (Refused(s, how[0], size) || Raises(Dispatched(s, chosen[0], how[0], size), chosen[1..], how[1..], size))
  }

  /** The directory after the round; the exception of an allocation ends it. */
  function RoundEnd(s: Running, chosen: seq<Id>, how: seq<Dispatch>, size: int): Running
    requires |how| == |chosen|
    decreases |chosen|
  {
    if chosen == [] || Refused(s, how[0], size) then s
    else RoundEnd(Dispatched(s, chosen[0], how[0], size), chosen[1..], how[1..], size)
  }

  /** A round goes on with the next task, unless an allocation raised before or does now. */
  lemma {:induction false} RoundGoesOn(s: Running, chosen: seq<Id>, how: seq<Dispatch>, size: int, id: Id, d: Dispatch)
    requires |how| == |chosen|
    ensures RoundEnd(s, [], [], size) == s
    ensures var t := RoundEnd(s, chosen, how, size);
            RoundEnd(s, chosen + [id], how + [d], size)
            == if Raises(s, chosen, how, size) || Refused(t, d, size) then t else Dispatched(t, id, d, size)
    decreases |chosen|
  {
    hide Dispatched, Refused;
    if chosen == [] {
      assert [] + [id] == [id] && [] + [d] == [d] && [id][1..] == [];
    } else {
      assert (chosen + [id])[1..] == chosen[1..] + [id] && (how + [d])[1..] == how[1..] + [d];
      RoundGoesOn(Dispatched(s, chosen[0], how[0], size), chosen[1..], how[1..], size, id, d);
    }
  }

  predicate NoneLive(s: Running, ids: seq<Id>) {
    forall i | 0 <= i < |ids| :: ids[i] !in s.pids
  }

  /** A round launches different tasks of which none is live, so it keeps slots private. */
  lemma {:induction false} RoundKeepsPrivate(s: Running, chosen: seq<Id>, how: seq<Dispatch>, size: int)
    requires |how| == |chosen| && Private(s) && Distinct(chosen) && NoneLive(s, chosen)
    ensures Private(RoundEnd(s, chosen, how, size))
    decreases |chosen|
  {
    if chosen != [] && !Refused(s, how[0], size) {
      DispatchKeepsPrivate(s, chosen[0], how[0], size);
      RestIdle(s, chosen, how[0], size);
      RoundKeepsPrivate(Dispatched(s, chosen[0], how[0], size), chosen[1..], how[1..], size);
    }
  }

  /** Dispatching the first task leaves the others without a `.pid`. */
  lemma RestIdle(s: Running, chosen: seq<Id>, how: Dispatch, size: int)
    requires chosen != [] && Distinct(chosen) && NoneLive(s, chosen)
    ensures Distinct(chosen[1..]) && NoneLive(Dispatched(s, chosen[0], how, size), chosen[1..])
  {
    DispatchFiles(s, chosen[0], how, size);
    hide Dispatched;
    assert forall i | 0 <= i < |chosen| - 1 :: chosen[1..][i] == chosen[i + 1];
  }

  lemma DispatchKeepsPrivate(s: Running, id: Id, how: Dispatch, size: int)
    requires Private(s) && id !in s.pids
    ensures Private(Dispatched(s, id, how, size))
  {
    hide Allocated;
    match how
    case Pooled(started) => StepKeepsPrivate(s, Launch(id, size, started));
    case Foreground =>
      StepKeepsPrivate(s, Plain(id));
      StepKeepsPrivate(Next(s, Plain(id)), Leave(id));
    case Skipped =>
  }

  // ----- a smaller pool does run out

  /** The slots in use are the first `k`. */
  ghost predicate FirstBusy(s: Running, k: nat) {
    forall n :: n in Busy(s) <==> 0 <= n < k
  }

  /** When the slots in use are the first `k`, the next launch takes slot `k`. */
  lemma TakesNext(s: Running, id: Id, size: int, k: nat)
    requires FirstBusy(s, k) && k < size && id !in s.pids
    ensures FirstBusy(Dispatched(s, id, Pooled(true), size), k + 1)
    ensures !Allocated(s, size).Raised?
  {
    var r := Allocated(s, size);
    assert r == Slot(k) by { assert k !in Busy(s); }
    hide Allocated;
    var t := Dispatched(s, id, Pooled(true), size);
    assert Marked(t) == Marked(s) + {id};
    assert id !in Marked(s);
    assert Busy(t) == Busy(s) + {k} by {
      forall n | n in Busy(s) + {k}
        ensures n in Busy(t)
      {
        if n == k {
          assert t.slots[id] == n;
        } else {
          var x :| x in Marked(s) && s.slots[x] == n;
          assert x in Marked(t) && t.slots[x] == n;
        }
      }
    }
  }

  lemma {:induction false} FillsUp(s: Running, chosen: seq<Id>, how: seq<Dispatch>, size: int, k: nat)
    requires |how| == |chosen| && forall i | 0 <= i < |how| :: how[i] == Pooled(true)
    requires Distinct(chosen) && NoneLive(s, chosen)
    requires 0 < size < k + |chosen| && k <= size && FirstBusy(s, k)
    ensures Raises(s, chosen, how, size)
    decreases |chosen|
  {
    if k < size {
      TakesNext(s, chosen[0], size, k);
      RestIdle(s, chosen, how[0], size);
      FillsUp(Dispatched(s, chosen[0], how[0], size), chosen[1..], how[1..], size, k + 1);
    } else {
      assert Allocated(s, size).Raised?;
    }
  }

  /** Launching more workers than a pool has slots, from an empty directory, raises. */
  lemma SmallPoolRaises(chosen: seq<Id>, how: seq<Dispatch>, size: int)
    requires |how| == |chosen| && forall i | 0 <= i < |how| :: how[i] == Pooled(true)
    requires Distinct(chosen) && 0 < size < |chosen|
    ensures Raises(Running({}, map[], map[]), chosen, how, size)
  {
    var s := Running({}, map[], map[]);
    assert Busy(s) == {};
    FillsUp(s, chosen, how, size, 0);
  }

  lemma {:induction false} AllFindNoRaise(s: Running, chosen: seq<Id>, how: seq<Dispatch>, size: int)
    requires |how| == |chosen| && (size <= 0 || AllFind(s, chosen, how, size))
    ensures !Raises(s, chosen, how, size)
    decreases |chosen|
  {
    if chosen != [] { AllFindNoRaise(Dispatched(s, chosen[0], how[0], size), chosen[1..], how[1..], size); }
  }

  /** A round of different idle tasks, no more than the cap leaves free beside `running`. */
  ghost predicate AdmittedRound(s: Running, running: set<Id>, chosen: seq<Id>, how: seq<Dispatch>, cap: int) {
    && Marked(s) <= running && |how| == |chosen| && Distinct(chosen) && NoneLive(s, chosen)
    && |chosen| <= if cap > |running| then cap - |running| else 0
  }

  /** `n` different ids. */
  function SomeIds(n: nat): (ids: seq<Id>)
    ensures |ids| == n && Distinct(ids)
  {
    var ids := seq(n, i requires 0 <= i < n => seq(i, _ => 'a'));
    assert forall i | 0 <= i < n :: |ids[i]| == i;
    ids
  }

  /** The sizes that never make an admitted round raise: those at least the cap, and those
      that switch the pool off. */
  lemma SafeSizeIff(size: int, cap: int)
    ensures (forall s, running, chosen, how | AdmittedRound(s, running, chosen, how, cap) ::
            !Raises(s, chosen, how, size))
       <==> size <= 0 || size >= cap
  {
    if size <= 0 || size >= cap {
      forall s, running, chosen, how | AdmittedRound(s, running, chosen, how, cap)
        ensures !Raises(s, chosen, how, size)
      {
        if size > 0 { AdmittedFindSlots(s, running, chosen, how, size, cap); }
        AllFindNoRaise(s, chosen, how, size);
      }
    } else {
      var s, n := Running({}, map[], map[]), size + 1;
      var chosen, how := SomeIds(n), seq(n, _ => Pooled(true));
      SmallPoolRaises(chosen, how, size);
      assert AdmittedRound(s, {}, chosen, how, cap);
    }
  }
}
