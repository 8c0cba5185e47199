/** Dependency death is a least fixpoint: repeating the dependency pass ends with exactly
    the live tasks that depend, through live tasks, on an exhausted one. */
module DependencyDeath {
  import opened Basics
  import opened TaskQueue

  /** A live task the pass can read. */
  predicate Readable(s: Queue, id: Id) {
    id in s.queued && !IsMarker(id) && Listed(id) && s.queued[id].Task?
  }

  /** A dependency path: each task but the last is live and depends on the next one, and
      the last is exhausted. */
  ghost predicate DeathPath(s: Queue, p: seq<Id>) {
    && |p| >= 2
    && (forall k | 0 <= k < |p| - 1 :: Readable(s, p[k]) && p[k + 1] in s.queued[p[k]].deps)
    && p[|p| - 1] in s.exhausted
  }

  ghost predicate Dies(s: Queue, id: Id) {
    exists p :: DeathPath(s, p) && p[0] == id
  }

  /** The state after `n` passes; pass `k` reads its clock from `at(k)`. */
  ghost function Passes(s: Queue, n: nat, at: nat -> Id -> real): Queue {
    if n == 0 then s
    else
      var t := Passes(s, n - 1, at);
      DependencyBlocked(t, t.queued.Keys, at(n - 1))
  }

  /** The tasks the first `n` passes block. */
  ghost function Killed(s: Queue, n: nat, at: nat -> Id -> real): set<Id> {
    if n == 0 then {}
    else
      var t := Passes(s, n - 1, at);
      Killed(s, n - 1, at) + DoomedSet(t, t.queued.Keys)
  }

  /** `t` is `s` with the tasks `killed` blocked, marked exhausted and charged one attempt. */
  ghost predicate After(s: Queue, killed: set<Id>, t: Queue) {
    && (forall x | x in killed :: Readable(s, x))
    && t.queued == s.queued - killed - Markers(killed)
    && t.blocked == Select(s.queued, killed) + s.blocked
    && t.exhausted == s.exhausted + killed
    && (forall x :: Attempts(t, x) == Attempts(s, x) + if x in killed then 1 else 0)
    && t.processing == s.processing && t.processed == s.processed && t.skip == s.skip
    && t.quarantined == s.quarantined
  }

  /** What a later pass finds doomed was live and unblocked from the start. */
  lemma DoomedWasLive(s: Queue, killed: set<Id>, t: Queue, x: Id)
    requires After(s, killed, t) && x in DoomedSet(t, t.queued.Keys)
    ensures Readable(s, x) && x in t.queued && t.queued[x] == s.queued[x] && x !in killed
    ensures exists d :: d in s.queued[x].deps && d in t.exhausted
  {
    hide Select, Markers, Attempts;
  }

  lemma MinusUnion(m: map<Id, Task>, a: set<Id>, b: set<Id>)
    ensures m - (a + b) - Markers(a + b) == m - a - Markers(a) - b - Markers(b)
  {
    assert Markers(a + b) == Markers(a) + Markers(b);
  }

  lemma SelectUnion(m: map<Id, Task>, m': map<Id, Task>, n: map<Id, Task>, a: set<Id>, b: set<Id>)
    requires forall x | x in b :: x in m && x in m' && m'[x] == m[x]
    ensures Select(m', b) + (Select(m, a) + n) == Select(m, a + b) + n
    requires a !! b
  {
  }

  lemma AttemptsUnion(s: Queue, t: Queue, a: set<Id>, b: set<Id>, at: Id -> real)
    requires a !! b && forall x :: Attempts(t, x) == Attempts(s, x) + if x in a then 1 else 0
    ensures forall x :: Attempts(DropDoomed(t, b, at), x) == Attempts(s, x) + if x in a + b then 1 else 0
  {
    hide Select, Markers;
  }

  lemma AfterPass(s: Queue, killed: set<Id>, t: Queue, at: Id -> real)
    requires After(s, killed, t)
    ensures var doomed := DoomedSet(t, t.queued.Keys);
            doomed !! killed && After(s, killed + doomed, DependencyBlocked(t, t.queued.Keys, at))
  {
    var doomed := DoomedSet(t, t.queued.Keys);
    forall x | x in doomed
      ensures Readable(s, x) && x in t.queued && t.queued[x] == s.queued[x] && x !in killed
    {
      DoomedWasLive(s, killed, t, x);
    }
    hide DoomedSet, Readable, Attempts, Bumped, Markers, Select;
    assert forall x | x in doomed :: x in s.queued by { ReadableLive(s, doomed); }
    MinusUnion(s.queued, killed, doomed);
    SelectUnion(s.queued, t.queued, s.blocked, killed, doomed);
    AttemptsUnion(s, t, killed, doomed, at);
    assert s.exhausted + (killed + doomed) == s.exhausted + killed + doomed;
  }

  lemma ReadableLive(s: Queue, ids: set<Id>)
    requires forall x | x in ids :: Readable(s, x)
    ensures forall x | x in ids :: x in s.queued
  {
  }

  lemma {:induction false} AfterPasses(s: Queue, n: nat, at: nat -> Id -> real)
    ensures After(s, Killed(s, n, at), Passes(s, n, at))
  {
    hide After, DoomedSet, DependencyBlocked;
    if n == 0 {
      AfterNone(s);
    } else {
      AfterPasses(s, n - 1, at);
      AfterPass(s, Killed(s, n - 1, at), Passes(s, n - 1, at), at(n - 1));
    }
  }

  lemma AfterNone(s: Queue)
    ensures After(s, {}, s)
  {
    hide Readable, Attempts;
    assert s.queued - {} - Markers({}) == s.queued;
    assert Select(s.queued, {}) + s.blocked == s.blocked;
  }

  /** Only tasks with a path die. */
  lemma {:induction false} KilledDie(s: Queue, n: nat, at: nat -> Id -> real)
    ensures forall x | x in Killed(s, n, at) :: Dies(s, x)
  {
    hide DoomedSet, DependencyBlocked, After, Dies;
    if n > 0 {
      var t := Passes(s, n - 1, at);
      KilledDie(s, n - 1, at);
      AfterPasses(s, n - 1, at);
      forall x | x in DoomedSet(t, t.queued.Keys)
        ensures Dies(s, x)
      {
        DoomedDies(s, Killed(s, n - 1, at), t, x);
      }
    }
  }

  lemma DoomedDies(s: Queue, killed: set<Id>, t: Queue, x: Id)
    requires After(s, killed, t) && x in DoomedSet(t, t.queued.Keys)
    requires forall y | y in killed :: Dies(s, y)
    ensures Dies(s, x)
  {
    DoomedWasLive(s, killed, t, x);
    hide DoomedSet, Attempts, Markers, Select;
    var d :| d in s.queued[x].deps && d in t.exhausted;
    if d in s.exhausted {
      assert DeathPath(s, [x, d]);
      assert [x, d][0] == x;
    } else {
      var p :| DeathPath(s, p) && p[0] == d;
      ExtendPath(s, x, p);
    }
  }

  lemma ExtendPath(s: Queue, x: Id, p: seq<Id>)
    requires DeathPath(s, p) && Readable(s, x) && p[0] in s.queued[x].deps
    ensures Dies(s, x)
  {
    var q := [x] + p;
    assert DeathPath(s, q) && q[0] == x;
  }

  lemma StillLive(s: Queue, killed: set<Id>, t: Queue, x: Id, d: Id)
    requires After(s, killed, t) && Readable(s, x) && x !in killed && d in s.queued[x].deps && d in t.exhausted
    ensures DoomedSet(t, t.queued.Keys) != {}
  {
    assert x in t.queued && t.queued[x] == s.queued[x];
    assert x in DoomedSet(t, t.queued.Keys);
  }

  /** When a pass finds nothing more to block, every task with a path has died. */
  lemma {:induction false} PathDies(s: Queue, killed: set<Id>, t: Queue, p: seq<Id>)
    requires After(s, killed, t) && DoomedSet(t, t.queued.Keys) == {} && DeathPath(s, p)
    ensures p[0] in killed
    decreases |p|
  {
    if |p| > 2 { PathDies(s, killed, t, p[1..]); }
    assert p[1] in t.exhausted;
    if p[0] !in killed { StillLive(s, killed, t, p[0], p[1]); }
  }

  /** Each pass that is not the last blocks another task, so the passes end in time. */
  lemma {:induction false} PassesEnd(s: Queue, n: nat, at: nat -> Id -> real)
    ensures var t := Passes(s, n, at);
            DoomedSet(t, t.queued.Keys) == {} || |Killed(s, n, at)| >= n
  {
    hide DoomedSet, DependencyBlocked, After;
    if n > 0 {
      PassesEnd(s, n - 1, at);
      AfterPasses(s, n - 1, at);
      var t := Passes(s, n - 1, at);
      var doomed := DoomedSet(t, t.queued.Keys);
      AfterPass(s, Killed(s, n - 1, at), t, at(n - 1));
      if doomed == {} {
        NothingDoomed(t, at(n - 1));
      } else {
        var x :| x in doomed;
        ProperSubsetSize(Killed(s, n - 1, at), Killed(s, n - 1, at) + doomed, x);
      }
    }
  }

  /** A pass that finds nothing doomed changes nothing. */
  lemma NothingDoomed(t: Queue, at: Id -> real)
    requires DoomedSet(t, t.queued.Keys) == {}
    ensures DependencyBlocked(t, t.queued.Keys, at) == t
  {
    assert t.queued - {} - Markers({}) == t.queued;
    assert Select(t.queued, {}) + t.blocked == t.blocked;
    assert Bumped(t, {}, DEPENDENCY_FAILED, at) == t.sidecars;
  }

  /** After as many passes as there are live files, nothing is left to block, and exactly
      the tasks with a dependency path through live tasks to an exhausted one, cycles
      included, have been blocked, marked exhausted and charged one attempt. */
  lemma DeathIsLeastFixpoint(s: Queue, n: nat, at: nat -> Id -> real)
    requires n >= |s.queued|
    ensures var t := Passes(s, n, at);
            && (forall clock :: DependencyBlocked(t, t.queued.Keys, clock) == t)
            && (forall x :: x in t.exhausted <==> x in s.exhausted || Dies(s, x))
            && (forall x :: x in t.blocked <==> x in s.blocked || Dies(s, x))
            && (forall x | !IsMarker(x) :: x in t.queued <==> x in s.queued && !Dies(s, x))
            && (forall x :: Attempts(t, x) == Attempts(s, x) + if Dies(s, x) then 1 else 0)
  {
    hide Passes, Killed, Dies, DoomedSet, DependencyBlocked, Attempts, After;
    var t, killed := Passes(s, n, at), Killed(s, n, at);
    AfterPasses(s, n, at);
    FixpointReached(s, n, at);
    forall x
      ensures Dies(s, x) <==> x in killed
    {
      KilledIff(s, n, at, x);
    }
    forall clock
      ensures DependencyBlocked(t, t.queued.Keys, clock) == t
    {
      NothingDoomed(t, clock);
    }
    AfterIff(s, killed, t);
  }

  lemma AfterIff(s: Queue, killed: set<Id>, t: Queue)
    requires After(s, killed, t) && forall x :: Dies(s, x) <==> x in killed
    ensures forall x :: x in t.exhausted <==> x in s.exhausted || Dies(s, x)
    ensures forall x :: x in t.blocked <==> x in s.blocked || Dies(s, x)
    ensures forall x | !IsMarker(x) :: x in t.queued <==> x in s.queued && !Dies(s, x)
    ensures forall x :: Attempts(t, x) == Attempts(s, x) + if Dies(s, x) then 1 else 0
  {
    hide Dies, Attempts;
  }

  lemma FixpointReached(s: Queue, n: nat, at: nat -> Id -> real)
    requires n >= |s.queued|
    ensures var t := Passes(s, n, at);
            DoomedSet(t, t.queued.Keys) == {}
  {
    var t, killed := Passes(s, n, at), Killed(s, n, at);
    AfterPasses(s, n, at);
    PassesEnd(s, n, at);
    hide Passes, Killed;
    assert killed <= s.queued.Keys;
    SubsetSize(killed, s.queued.Keys);
    assert |s.queued.Keys| == |s.queued|;
    if x :| x in DoomedSet(t, t.queued.Keys) {
      DoomedWasLive(s, killed, t, x);
    }
  }

  lemma KilledIff(s: Queue, n: nat, at: nat -> Id -> real, x: Id)
    requires n >= |s.queued|
    ensures Dies(s, x) <==> x in Killed(s, n, at)
  {
    KilledDie(s, n, at);
    if Dies(s, x) {
      var p :| DeathPath(s, p) && p[0] == x;
      AfterPasses(s, n, at);
      FixpointReached(s, n, at);
      PathDies(s, Killed(s, n, at), Passes(s, n, at), p);
    }
  }

  /** Two tasks that depend on each other and one of them on an exhausted one both die. */
  lemma CycleDies(s: Queue, a: Id, b: Id, dead: Id)
    requires Readable(s, a) && Readable(s, b) && b in s.queued[a].deps && a in s.queued[b].deps
    requires dead in s.queued[b].deps && dead in s.exhausted
    ensures Dies(s, a) && Dies(s, b)
  {
    assert DeathPath(s, [b, dead]);
    assert [b, dead][0] == b;
    ExtendPath(s, a, [b, dead]);
  }
}
