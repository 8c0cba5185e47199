/** The brief gate: a task waits until every brief its own brief depends on is accepted,
    dead or absent. */
module BriefGate {
  import opened Basics

  /** The status of a brief: its tasks, whether some are not accepted, and the names its
      frontmatter depends on, absent if the file does not read. */
  datatype Record = Record(slug: string, tasks: seq<Id>, remaining: bool, deps: Option<seq<string>>)

  /** `onDisk` are the names of the brief files, `exhausted` the ids with a marker. */
  datatype Status = Status(records: seq<Record>, onDisk: set<string>, exhausted: set<Id>)

  function NormChar(c: char): char {
    if 'A' <= c <= 'Z' then c - 'A' + 'a' else if c == '_' then '-' else c
  }

  /** Names are compared without case and with hyphens for underscores. */
  function Norm(s: string): (n: string)
    ensures |n| == |s|
  {
    seq(|s|, i requires 0 <= i < |s| => NormChar(s[i]))
  }

  // ----- resolving a name

  /** The records by name; of several with one name the last counts. */
  function BySlug(rs: seq<Record>): map<string, Record> {
    if rs == [] then map[]
    else
      var r, rest := rs[|rs| - 1], BySlug(rs[..|rs| - 1]);
      if r.slug == "" then rest else rest[r.slug := r]
  }

  /** For each normal form the first name that has it. */
  function ByNorm(rs: seq<Record>): map<string, string> {
    if rs == [] then map[]
    else
      var r, rest := rs[|rs| - 1], ByNorm(rs[..|rs| - 1]);
      if r.slug == "" || Norm(r.slug) in rest then rest else rest[Norm(r.slug) := r.slug]
  }

  lemma {:induction false} NormNames(rs: seq<Record>)
    ensures forall n | n in ByNorm(rs) :: ByNorm(rs)[n] in BySlug(rs) && Norm(ByNorm(rs)[n]) == n
    ensures forall s | s in BySlug(rs) ::
              s != "" && Norm(s) in ByNorm(rs) && BySlug(rs)[s].slug == s && BySlug(rs)[s] in rs
  {
    if rs != [] {
      NormNames(rs[..|rs| - 1]);
      assert forall r | r in rs[..|rs| - 1] :: r in rs;
    }
  }

  /** The record a name stands for, under its own or a like spelling. */
  function Resolve(rs: seq<Record>, name: string): Option<Record> {
    NormNames(rs);
    if name in BySlug(rs) then Some(BySlug(rs)[name])
    else if Norm(name) in ByNorm(rs) then Some(BySlug(rs)[ByNorm(rs)[Norm(name)]])
    else None
  }

  /** A name resolves exactly when some record has it under some spelling. */
  lemma ResolveIff(rs: seq<Record>, name: string)
    ensures Resolve(rs, name).Some? <==> exists s :: s in BySlug(rs) && Norm(s) == Norm(name)
    ensures Resolve(rs, name).Some? ==>
              Norm(Resolve(rs, name).value.slug) == Norm(name) && Resolve(rs, name).value in rs
  {
    NormNames(rs);
    if name !in BySlug(rs) && Norm(name) in ByNorm(rs) {
      assert Norm(ByNorm(rs)[Norm(name)]) == Norm(name);
    }
  }

  /** The first record that lists the task names its brief. */
  function Owner(rs: seq<Record>, tid: Id): Option<string> {
    if rs == [] then None
    else if rs[0].slug != "" && tid in rs[0].tasks then Some(rs[0].slug)
    else Owner(rs[1..], tid)
  }

  // ----- the gate

  predicate Accepted(r: Record) {
    r.tasks != [] && !r.remaining
  }

  predicate Dead(r: Record, exhausted: set<Id>) {
    r.tasks != [] && forall t | t in r.tasks :: t in exhausted
  }

  predicate OnDisk(st: Status, name: string) {
    exists s | s in st.onDisk :: s != "" && Norm(s) == Norm(name)
  }

  predicate Unresolved(st: Status, name: string) {
    Resolve(st.records, name).None? && !OnDisk(st, name)
  }

  /** What lets a task of brief `owner` past the dependency `dep`. */
  predicate Released(st: Status, owner: string, dep: string) {
    || Norm(dep) == Norm(owner)
    || Unresolved(st, dep)
    || (Resolve(st.records, dep).Some?
        && (Accepted(Resolve(st.records, dep).value) || Dead(Resolve(st.records, dep).value, st.exhausted)))
  }

  function Deps(r: Record): seq<string> {
    if r.deps.None? then [] else r.deps.value
  }

  lemma {:induction false} OwnerKnown(rs: seq<Record>, tid: Id)
    ensures Owner(rs, tid).Some? ==>
              exists i :: 0 <= i < |rs| && rs[i].slug == Owner(rs, tid).value && tid in rs[i].tasks && rs[i].slug != ""
    ensures Owner(rs, tid).None? ==> forall i | 0 <= i < |rs| :: rs[i].slug == "" || tid !in rs[i].tasks
  {
    if rs != [] && !(rs[0].slug != "" && tid in rs[0].tasks) {
      OwnerKnown(rs[1..], tid);
      if Owner(rs[1..], tid).Some? {
        var i :| 0 <= i < |rs| - 1 && rs[1..][i].slug == Owner(rs[1..], tid).value && tid in rs[1..][i].tasks
            && rs[1..][i].slug != "";
        assert rs[i + 1].slug == Owner(rs, tid).value;
      } else {
        assert forall i | 1 <= i < |rs| :: rs[i] == rs[1..][i - 1];
      }
    }
  }

  lemma {:induction false} SlugIn(rs: seq<Record>, i: nat)
    requires i < |rs| && rs[i].slug != ""
    ensures rs[i].slug in BySlug(rs)
  {
    if i < |rs| - 1 { SlugIn(rs[..|rs| - 1], i); }
  }

  lemma OwnerRecorded(rs: seq<Record>, tid: Id)
    requires Owner(rs, tid).Some?
    ensures Owner(rs, tid).value in BySlug(rs) && BySlug(rs)[Owner(rs, tid).value].slug == Owner(rs, tid).value
  {
    OwnerKnown(rs, tid);
    var at :| 0 <= at < |rs| && rs[at].slug == Owner(rs, tid).value && rs[at].slug != "";
    SlugIn(rs, at);
    NormNames(rs);
  }

  /** The gate passes a task: it has no brief, or every dependency of its brief is itself,
      accepted, dead or absent. */
  ghost predicate Passes(st: Status, tid: Id) {
    tid == ""
    || Owner(st.records, tid).None?
    || (Owner(st.records, tid).value in BySlug(st.records)
        && var owner := BySlug(st.records)[Owner(st.records, tid).value];
           forall i | 0 <= i < |Deps(owner)| && Deps(owner)[i] != "" :: Released(st, owner.slug, Deps(owner)[i]))
  }

  /** `_brief_dep_gate_ok` with the deadlock breaker active, over a listing of the brief
      files. */
  method GateOk(st: Status, tid: Id, files: seq<string>) returns (ok: bool)
    requires forall s :: s in files <==> s in st.onDisk
    ensures ok == Passes(st, tid)
  {
    if tid == "" {
      return true;
    }
    hide BySlug, ByNorm, Owner, OnDisk, Released;
    var rs := st.records;
    var bySlug, byNorm := CollectRecords(rs);
    var owner := FindOwner(rs, tid);
    if owner.None? {
      return true;
    }
    OwnerRecorded(rs, tid);
    var record := bySlug[owner.value];
    if record.deps.None? {
      return true;
    }
    var disk := NormsOnDisk(st, files);
    var deps := record.deps.value;
    for i := 0 to |deps|
      invariant forall j | 0 <= j < i && deps[j] != "" :: Released(st, owner.value, deps[j])
    {
      if deps[i] == "" {
        continue;
      }
      var released := DepReleased(st, owner.value, deps[i], bySlug, byNorm, disk);
      if !released {
        assert !Released(st, record.slug, Deps(record)[i]);
        return false;
      }
    }
    return true;
  }

  /** The body of the loop over the dependencies. */
  method DepReleased(st: Status, owner: string, dep: string,
                     bySlug: map<string, Record>, byNorm: map<string, string>, disk: set<string>)
    returns (released: bool)
    requires bySlug == BySlug(st.records) && byNorm == ByNorm(st.records)
    requires forall name :: Norm(name) in disk <==> OnDisk(st, name)
    ensures released == Released(st, owner, dep)
  {
    if Norm(dep) == Norm(owner) {
      return true;
    }
    NormNames(st.records);
    hide BySlug, ByNorm, OnDisk;
    var rec: Option<Record> := None;
    if dep in bySlug {
      rec := Some(bySlug[dep]);
    } else if Norm(dep) in byNorm {
      rec := Some(bySlug[byNorm[Norm(dep)]]);
    }
    if rec.Some? {
      if rec.value.tasks != [] && !rec.value.remaining {
        return true;
      }
      if rec.value.tasks != [] && forall t | t in rec.value.tasks :: t in st.exhausted {
        return true;
      }
      return false;
    }
    if Norm(dep) in disk {
      return false;
    }
    return true;
  }

  method CollectRecords(rs: seq<Record>) returns (bySlug: map<string, Record>, byNorm: map<string, string>)
    ensures bySlug == BySlug(rs) && byNorm == ByNorm(rs)
  {
    bySlug, byNorm := map[], map[];
    for i := 0 to |rs|
      invariant bySlug == BySlug(rs[..i]) && byNorm == ByNorm(rs[..i])
    {
      assert rs[..i + 1][..i] == rs[..i];
      if rs[i].slug == "" {
        continue;
      }
      bySlug := bySlug[rs[i].slug := rs[i]];
      if Norm(rs[i].slug) !in byNorm {
        byNorm := byNorm[Norm(rs[i].slug) := rs[i].slug];
      }
    }
    assert rs[..|rs|] == rs;
  }

  method FindOwner(rs: seq<Record>, tid: Id) returns (owner: Option<string>)
    ensures owner == Owner(rs, tid)
  {
    for i := 0 to |rs|
      invariant Owner(rs, tid) == Owner(rs[i..], tid)
    {
      assert rs[i..][1..] == rs[i + 1..];
      if rs[i].slug != "" && tid in rs[i].tasks {
        return Some(rs[i].slug);
      }
    }
    return None;
  }

  method NormsOnDisk(st: Status, files: seq<string>) returns (norms: set<string>)
    requires forall s :: s in files <==> s in st.onDisk
    ensures forall name :: Norm(name) in norms <==> OnDisk(st, name)
  {
    norms := {};
    for i := 0 to |files|
      invariant forall n :: n in norms <==> exists j :: 0 <= j < i && files[j] != "" && n == Norm(files[j])
    {
      if files[i] != "" {
        norms := norms + {Norm(files[i])};
      }
    }
    forall name
      ensures Norm(name) in norms <==> OnDisk(st, name)
    {
      if s :| s in st.onDisk && s != "" && Norm(s) == Norm(name) {
        assert s in files;
      }
    }
  }

  // ----- no deadlock

  /** The brief has tasks and is neither accepted nor dead. */
  predicate Unfinished(st: Status, r: Record) {
    r.tasks != [] && !Accepted(r) && !Dead(r, st.exhausted)
  }

  /** Brief `a` names brief `b` as a dependency, under any spelling. */
  ghost predicate Needs(st: Status, a: Record, b: Record) {
    exists i :: 0 <= i < |Deps(a)| && Deps(a)[i] != "" && Norm(Deps(a)[i]) != Norm(a.slug)
                && Resolve(st.records, Deps(a)[i]) == Some(b)
  }

  ghost predicate NeedsPath(st: Status, p: seq<Record>) {
    |p| >= 2 && (forall i | 0 <= i < |p| - 1 :: Needs(st, p[i], p[i + 1]))
  }

  /** A path of needs through unfinished briefs only. */
  ghost predicate HoldingPath(st: Status, p: seq<Record>) {
    NeedsPath(st, p) && forall k | 0 <= k < |p| :: p[k] in st.records && Unfinished(st, p[k])
  }

  /** No unfinished briefs need each other in a circle. */
  ghost predicate Acyclic(st: Status) {
    forall p | HoldingPath(st, p) :: p[0] != p[|p| - 1]
  }

  /** Every dependency of every brief resolves to a brief with tasks or to none at all. */
  ghost predicate Planned(st: Status) {
    forall r, i | r in st.records && 0 <= i < |Deps(r)| && Deps(r)[i] != "" ::
      || Unresolved(st, Deps(r)[i])
      || (Resolve(st.records, Deps(r)[i]).Some? && Resolve(st.records, Deps(r)[i]).value.tasks != [])
  }

  /** There is one record per brief, and no task belongs to two. */
  ghost predicate OneBriefEach(rs: seq<Record>) {
    && (forall i | 0 <= i < |rs| :: rs[i].slug != "")
    && (forall i, j | 0 <= i < j < |rs| ::
          rs[i].slug != rs[j].slug && forall t :: t in rs[i].tasks ==> t !in rs[j].tasks)
  }

  lemma {:induction false} BySlugIs(rs: seq<Record>, i: nat)
    requires OneBriefEach(rs) && i < |rs|
    ensures rs[i].slug in BySlug(rs) && BySlug(rs)[rs[i].slug] == rs[i]
  {
    if i < |rs| - 1 { BySlugIs(rs[..|rs| - 1], i); }
  }

  lemma OwnerIs(rs: seq<Record>, i: nat, tid: Id)
    requires OneBriefEach(rs) && i < |rs| && tid in rs[i].tasks
    ensures Owner(rs, tid) == Some(rs[i].slug)
  {
    OwnerKnown(rs, tid);
    var k :| 0 <= k < |rs| && rs[k].slug == Owner(rs, tid).value && tid in rs[k].tasks;
    assert k == i;
  }

  /** If the tasks of an unfinished brief do not pass, another unfinished one holds them. */
  lemma HeldBy(st: Status, r: Record, tid: Id) returns (b: Record)
    requires OneBriefEach(st.records) && Planned(st) && r in st.records && tid in r.tasks && !Passes(st, tid)
    ensures Needs(st, r, b) && b in st.records && Unfinished(st, b)
  {
    var i :| 0 <= i < |st.records| && st.records[i] == r;
    OwnerIs(st.records, i, tid);
    BySlugIs(st.records, i);
    var k :| 0 <= k < |Deps(r)| && Deps(r)[k] != "" && !Released(st, r.slug, Deps(r)[k]);
    ResolveIff(st.records, Deps(r)[k]);
    b := Resolve(st.records, Deps(r)[k]).value;
  }

  /** Following the briefs that hold, never in a circle, ends at one whose tasks pass. */
  lemma {:induction false} FollowHolders(st: Status, r: Record, seen: set<Record>) returns (b: Record)
    requires OneBriefEach(st.records) && Planned(st) && Acyclic(st)
    requires r in st.records && Unfinished(st, r) && r !in seen
    requires forall s | s in seen :: s in st.records && exists p :: HoldingPath(st, p) && p[0] == s && p[|p| - 1] == r
    ensures b in st.records && Unfinished(st, b) && forall tid | tid in b.tasks :: Passes(st, tid)
    decreases |(set x | x in st.records) - seen|
  {
    hide Unfinished, Passes;
    if forall tid | tid in r.tasks :: Passes(st, tid) {
      b := r;
    } else {
      var tid :| tid in r.tasks && !Passes(st, tid);
      var next := HeldBy(st, r, tid);
      StillSeen(st, r, next, seen);
      assert (set x | x in st.records) - (seen + {r}) < (set x | x in st.records) - seen;
      SubsetSize((set x | x in st.records) - (seen + {r}), (set x | x in st.records) - seen);
      b := FollowHolders(st, next, seen + {r});
    }
  }

  lemma StillSeen(st: Status, r: Record, next: Record, seen: set<Record>)
    requires Acyclic(st) && Needs(st, r, next)
    requires r in st.records && Unfinished(st, r) && next in st.records && Unfinished(st, next)
    requires forall s | s in seen :: exists p :: HoldingPath(st, p) && p[0] == s && p[|p| - 1] == r
    ensures next !in seen + {r}
    ensures forall s | s in seen + {r} :: exists p :: HoldingPath(st, p) && p[0] == s && p[|p| - 1] == next
  {
    hide Needs, Unfinished;
    forall s | s in seen + {r}
      ensures exists p :: HoldingPath(st, p) && p[0] == s && p[|p| - 1] == next
    {
      if s == r {
        var p := [r, next];
        assert HoldingPath(st, p) && p[0] == s && p[|p| - 1] == next;
      } else {
        var q :| HoldingPath(st, q) && q[0] == s && q[|q| - 1] == r;
        var p := q + [next];
        assert HoldingPath(st, p) && p[0] == s && p[|p| - 1] == next;
      }
    }
  }

  /** No deadlock: if no unfinished briefs depend on each other in a circle and every
      dependency is a planned brief or none, then while some brief is unfinished, there is
      one whose tasks all pass the gate. */
  lemma NoDeadlock(st: Status, r: Record) returns (b: Record)
    requires OneBriefEach(st.records) && Planned(st) && Acyclic(st)
    requires r in st.records && Unfinished(st, r)
    ensures b in st.records && Unfinished(st, b) && forall tid | tid in b.tasks :: Passes(st, tid)
  {
    b := FollowHolders(st, r, {});
  }

  /** So when no unfinished brief has all its tasks pass, some stand in a circle. */
  lemma StuckHasCircle(st: Status, r: Record) returns (p: seq<Record>)
    requires OneBriefEach(st.records) && Planned(st) && r in st.records && Unfinished(st, r)
    requires forall a | a in st.records && Unfinished(st, a) :: exists tid :: tid in a.tasks && !Passes(st, tid)
    ensures HoldingPath(st, p) && p[0] == p[|p| - 1]
  {
    hide Unfinished, Passes, Planned, OneBriefEach;
    if Acyclic(st) {
      var b := NoDeadlock(st, r);
      assert false;
    } else {
      p :| HoldingPath(st, p) && p[0] == p[|p| - 1];
    }
  }

  /** A pass means what it says: every dependency is the brief itself, accepted, dead or
      absent under every spelling. */
  lemma PassSound(st: Status, r: Record, tid: Id, dep: string)
    requires OneBriefEach(st.records) && r in st.records && tid in r.tasks && tid != "" && dep in Deps(r) && dep != ""
    requires Passes(st, tid)
    ensures || Norm(dep) == Norm(r.slug)
            || (exists b :: b in st.records && Norm(b.slug) == Norm(dep) && (Accepted(b) || Dead(b, st.exhausted)))
            || ((forall b | b in st.records :: Norm(b.slug) != Norm(dep)) && !OnDisk(st, dep))
  {
    var i :| 0 <= i < |st.records| && st.records[i] == r;
    OwnerIs(st.records, i, tid);
    BySlugIs(st.records, i);
    ResolveIff(st.records, dep);
    if Resolve(st.records, dep).None? {
      forall b | b in st.records
        ensures Norm(b.slug) != Norm(dep)
      {
        var k :| 0 <= k < |st.records| && st.records[k] == b;
        BySlugIs(st.records, k);
      }
    }
  }

  /** A task waits exactly while its brief needs an unfinished one. */
  lemma HeldIff(st: Status, a: Record, tid: Id)
    requires OneBriefEach(st.records) && Planned(st) && a in st.records && tid in a.tasks && tid != ""
    ensures !Passes(st, tid) <==> exists b :: b in st.records && Needs(st, a, b) && Unfinished(st, b)
  {
    hide Passes, Needs, Unfinished, Planned, OneBriefEach;
    if !Passes(st, tid) {
      var b := HeldBy(st, a, tid);
    } else if b :| b in st.records && Needs(st, a, b) && Unfinished(st, b) {
      NeedHolds(st, a, b, tid);
    }
  }

  lemma NeedHolds(st: Status, a: Record, b: Record, tid: Id)
    requires OneBriefEach(st.records) && a in st.records && tid in a.tasks && tid != "" && Needs(st, a, b)
            && Unfinished(st, b)
    ensures !Passes(st, tid)
  {
    var i :| 0 <= i < |st.records| && st.records[i] == a;
    OwnerIs(st.records, i, tid);
    BySlugIs(st.records, i);
    hide BySlug, Owner, OnDisk, Resolve, Norm;
    var k :| 0 <= k < |Deps(a)| && Deps(a)[k] != "" && Norm(Deps(a)[k]) != Norm(a.slug)
        && Resolve(st.records, Deps(a)[k]) == Some(b);
    assert !Released(st, a.slug, Deps(a)[k]);
  }

  /** Around any circle of unfinished briefs no task passes. */
  lemma CircleDeadlocks(st: Status, p: seq<Record>, i: nat, tid: Id)
    requires OneBriefEach(st.records) && HoldingPath(st, p) && p[0] == p[|p| - 1] && i < |p|
    requires tid in p[i].tasks && tid != ""
    ensures !Passes(st, tid)
  {
    var k := if i < |p| - 1 then i else 0;
    NeedHolds(st, p[k], p[k + 1], tid);
  }

  /** A brief is free if all its tasks pass, and stuck if it needs an unfinished one. */
  ghost predicate Stuck(st: Status, a: Record) {
    exists b :: b in st.records && Needs(st, a, b) && Unfinished(st, b)
  }

  /** Exactly when every unfinished brief needs an unfinished one is there no unfinished
      brief whose tasks pass; and then not even one task of one passes. */
  lemma DeadlockIff(st: Status)
    requires OneBriefEach(st.records) && Planned(st) && forall r | r in st.records :: "" !in r.tasks
    ensures (exists a :: a in st.records && Unfinished(st, a) && forall tid | tid in a.tasks :: Passes(st, tid))
       <==> !(forall a | a in st.records && Unfinished(st, a) :: Stuck(st, a))
    ensures (forall a | a in st.records && Unfinished(st, a) :: Stuck(st, a))
       <==> forall a, tid | a in st.records && Unfinished(st, a) && tid in a.tasks :: !Passes(st, tid)
  {
    forall a, tid | a in st.records && tid in a.tasks
      ensures Passes(st, tid) <==> !Stuck(st, a)
    {
      HeldIff(st, a, tid);
    }
    forall a | a in st.records && Unfinished(st, a)
      ensures exists tid :: tid in a.tasks
    {
      assert a.tasks[0] in a.tasks;
    }
    hide Passes, Stuck, Unfinished, Planned, OneBriefEach;
    if a :| a in st.records && Unfinished(st, a) && !Stuck(st, a) {
      assert forall tid | tid in a.tasks :: Passes(st, tid);
    }
  }

  // ----- the gate spelled out

  /** The same character but for ASCII case and a hyphen for an underscore. */
  predicate Alike(c: char, d: char) {
    || c == d
    || ('A' <= c <= 'Z' && d as int == c as int + 32)
    || ('A' <= d <= 'Z' && c as int == d as int + 32)
    || (c == '_' && d == '-')
    || (c == '-' && d == '_')
  }

  predicate SameName(a: string, b: string) {
    |a| == |b| && forall i | 0 <= i < |a| :: Alike(a[i], b[i])
  }

  lemma NormCharIff(c: char, d: char)
    ensures NormChar(c) == NormChar(d) <==> Alike(c, d)
  {
  }

  /** Two names have one norm exactly when they agree position by position, up to case and a
      hyphen for an underscore. */
  lemma NormIff(a: string, b: string)
    ensures Norm(a) == Norm(b) <==> SameName(a, b)
  {
    forall c, d
      ensures NormChar(c) == NormChar(d) <==> Alike(c, d)
    {
      NormCharIff(c, d);
    }
    hide NormChar, Alike;
    if |a| == |b| {
      assert forall i | 0 <= i < |a| :: Norm(a)[i] == NormChar(a[i]) && Norm(b)[i] == NormChar(b[i]);
      if Norm(a) == Norm(b) {
        assert forall i | 0 <= i < |a| :: Norm(a)[i] == Norm(b)[i];
      }
    }
  }

  /** `r` is the last record called `s`. */
  ghost predicate LastCalled(rs: seq<Record>, s: string, r: Record) {
    exists i :: 0 <= i < |rs| && rs[i] == r && r.slug == s != "" && forall j | i < j < |rs| :: rs[j].slug != s
  }

  lemma LastCalledNext(rs: seq<Record>, last: Record, s: string, r: Record)
    ensures LastCalled(rs + [last], s, r) <==> if last.slug == s != "" then r == last else LastCalled(rs, s, r)
  {
    var all, n := rs + [last], |rs|;
    assert all[n] == last && forall j | 0 <= j < n :: all[j] == rs[j];
    if LastCalled(rs, s, r) && !(last.slug == s != "") {
      var i :| 0 <= i < n && rs[i] == r && r.slug == s != "" && forall j | i < j < n :: rs[j].slug != s;
      assert all[i] == r;
    }
    if LastCalled(all, s, r) && !(last.slug == s != "") {
      var i :| 0 <= i <= n && all[i] == r && r.slug == s != "" && forall j | i < j <= n :: all[j].slug != s;
      assert rs[i] == r;
    }
  }

  lemma {:induction false} BySlugIff(rs: seq<Record>, s: string, r: Record)
    ensures s in BySlug(rs) && BySlug(rs)[s] == r <==> LastCalled(rs, s, r)
  {
    if rs != [] {
      var n := |rs| - 1;
      BySlugIff(rs[..n], s, r);
      LastCalledNext(rs[..n], rs[n], s, r);
      hide LastCalled;
      assert rs == rs[..n] + [rs[n]];
    }
  }

  /** `s` is the first name in the records that is `name` in some spelling. */
  ghost predicate FirstAlike(rs: seq<Record>, name: string, s: string) {
    exists i :: 0 <= i < |rs| && rs[i].slug == s != "" && SameName(s, name)
                && forall j | 0 <= j < i :: rs[j].slug == "" || !SameName(rs[j].slug, name)
  }

  ghost predicate SomeAlike(rs: seq<Record>, name: string) {
    exists r :: r in rs && r.slug != "" && SameName(r.slug, name)
  }

  lemma FirstAlikeNext(rs: seq<Record>, last: Record, name: string, s: string)
    ensures FirstAlike(rs + [last], name, s)
       <==> if SomeAlike(rs, name) then FirstAlike(rs, name, s) else last.slug == s != "" && SameName(s, name)
    ensures SomeAlike(rs + [last], name) <==> SomeAlike(rs, name) || (last.slug != "" && SameName(last.slug, name))
  {
    hide SameName;
    var all, n := rs + [last], |rs|;
    assert all[n] == last && forall j | 0 <= j < n :: all[j] == rs[j] && rs[j] in rs;
    if SomeAlike(rs, name) {
      var w :| w in rs && w.slug != "" && SameName(w.slug, name);
      var k :| 0 <= k < n && rs[k] == w;
      assert all[k].slug != "" && SameName(all[k].slug, name);
    }
    if FirstAlike(rs, name, s) {
      var i :| 0 <= i < n && rs[i].slug == s != "" && SameName(s, name)
               && forall j | 0 <= j < i :: rs[j].slug == "" || !SameName(rs[j].slug, name);
      assert all[i].slug == s;
    }
  }

  lemma {:induction false} ByNormIff(rs: seq<Record>, name: string, s: string)
    ensures Norm(name) in ByNorm(rs) && ByNorm(rs)[Norm(name)] == s <==> FirstAlike(rs, name, s)
    ensures Norm(name) in ByNorm(rs) <==> SomeAlike(rs, name)
  {
    hide SameName, Norm;
    if rs != [] {
      var n := |rs| - 1;
      ByNormIff(rs[..n], name, s);
      NormIff(rs[n].slug, name);
      FirstAlikeNext(rs[..n], rs[n], name, s);
      hide FirstAlike, SomeAlike;
      assert rs == rs[..n] + [rs[n]];
    }
  }

  /** The record a name stands for: the last one called so, or else the last one called like
      the first name that is spelled alike. */
  ghost predicate StandsFor(rs: seq<Record>, name: string, r: Record) {
    || LastCalled(rs, name, r)
    || ((forall u | u in rs :: u.slug != name || name == "")
        && exists s :: FirstAlike(rs, name, s) && LastCalled(rs, s, r))
  }

  lemma ResolvesTo(rs: seq<Record>, name: string, r: Record)
    ensures Resolve(rs, name) == Some(r) <==> StandsFor(rs, name, r)
    ensures Resolve(rs, name).None? <==> forall u | u in rs && u.slug != "" :: !SameName(u.slug, name)
  {
    NormNames(rs);
    CalledIff(rs, name);
    ByNormIff(rs, name, "");
    forall s, u
      ensures s in BySlug(rs) && BySlug(rs)[s] == u <==> LastCalled(rs, s, u)
    {
      BySlugIff(rs, s, u);
    }
    forall s
      ensures Norm(name) in ByNorm(rs) && ByNorm(rs)[Norm(name)] == s <==> FirstAlike(rs, name, s)
    {
      ByNormIff(rs, name, s);
    }
    SameSelf(name);
    hide BySlug, ByNorm, LastCalled, FirstAlike, SameName, Norm;
    if name in BySlug(rs) {
      assert LastCalled(rs, name, BySlug(rs)[name]);
    } else if Norm(name) in ByNorm(rs) {
      var s := ByNorm(rs)[Norm(name)];
      assert FirstAlike(rs, name, s) && LastCalled(rs, s, BySlug(rs)[s]);
    }
  }

  lemma SameSelf(name: string)
    ensures SameName(name, name)
  {
  }

  lemma {:induction false} CalledIff(rs: seq<Record>, s: string)
    ensures s in BySlug(rs) <==> exists u :: u in rs && u.slug == s != ""
  {
    if rs != [] {
      CalledIff(rs[..|rs| - 1], s);
      assert rs == rs[..|rs| - 1] + [rs[|rs| - 1]];
    }
  }

  /** A task gets past a dependency exactly if it is its own brief, or stands for a brief with
      tasks of which none remains or all are exhausted, or is spelled like no brief at all,
      neither recorded nor on disk. */
  ghost predicate LetsPast(st: Status, owner: string, dep: string) {
    || SameName(dep, owner)
    || (exists r :: StandsFor(st.records, dep, r) && r.tasks != []
                    && (!r.remaining || forall t | t in r.tasks :: t in st.exhausted))
    || ((forall r | r in st.records && r.slug != "" :: !SameName(r.slug, dep))
        && forall s | s in st.onDisk && s != "" :: !SameName(s, dep))
  }

  lemma ReleasedIff(st: Status, owner: string, dep: string)
    ensures Released(st, owner, dep) <==> LetsPast(st, owner, dep)
  {
    forall a: string, b: string
      ensures Norm(a) == Norm(b) <==> SameName(a, b)
    {
      NormIff(a, b);
    }
    forall r
      ensures Resolve(st.records, dep) == Some(r) <==> StandsFor(st.records, dep, r)
    {
      ResolvesTo(st.records, dep, r);
    }
    ResolvesTo(st.records, dep, Record("", [], false, None));
    hide Resolve, StandsFor, SameName, Norm;
    if Resolve(st.records, dep).Some? { assert StandsFor(st.records, dep, Resolve(st.records, dep).value); }
  }

  /** The records name `owner` as the brief of the task: it is the first that lists it. */
  ghost predicate FirstWith(rs: seq<Record>, tid: Id, owner: string) {
    exists i :: 0 <= i < |rs| && rs[i].slug == owner != "" && tid in rs[i].tasks
                && forall j | 0 <= j < i :: rs[j].slug == "" || tid !in rs[j].tasks
  }

  lemma {:induction false} OwnerIff(rs: seq<Record>, tid: Id, owner: string)
    ensures Owner(rs, tid) == Some(owner) <==> FirstWith(rs, tid, owner)
  {
    if rs != [] {
      OwnerIff(rs[1..], tid, owner);
      if rs[0].slug == "" || tid !in rs[0].tasks {
        if FirstWith(rs[1..], tid, owner) {
          var i :| 0 <= i < |rs| - 1 && rs[1..][i].slug == owner != "" && tid in rs[1..][i].tasks
                   && forall j | 0 <= j < i :: rs[1..][j].slug == "" || tid !in rs[1..][j].tasks;
          assert forall j | 0 < j < i + 1 :: rs[j] == rs[1..][j - 1];
          assert rs[i + 1].slug == owner;
        }
        if FirstWith(rs, tid, owner) {
          var i :| 0 <= i < |rs| && rs[i].slug == owner != "" && tid in rs[i].tasks
                   && forall j | 0 <= j < i :: rs[j].slug == "" || tid !in rs[j].tasks;
          assert forall j | 0 <= j < i - 1 :: rs[1..][j] == rs[j + 1];
          assert rs[1..][i - 1].slug == owner;
        }
      }
    }
  }

  /** The gate holds a task exactly if the last record of its brief, as far as it reads, has
      a dependency that does not let it past. */
  lemma GateIff(st: Status, tid: Id)
    ensures !Passes(st, tid)
       <==> tid != "" && exists owner, r, dep ::
              FirstWith(st.records, tid, owner) && LastCalled(st.records, owner, r) && r.deps.Some?
              && dep in r.deps.value && dep != "" && !LetsPast(st, owner, dep)
  {
    forall owner
      ensures Owner(st.records, tid) == Some(owner) <==> FirstWith(st.records, tid, owner)
    {
      OwnerIff(st.records, tid, owner);
    }
    forall owner, r
      ensures owner in BySlug(st.records) && BySlug(st.records)[owner] == r <==> LastCalled(st.records, owner, r)
    {
      BySlugIff(st.records, owner, r);
    }
    forall owner, dep
      ensures Released(st, owner, dep) <==> LetsPast(st, owner, dep)
    {
      ReleasedIff(st, owner, dep);
    }
    if Owner(st.records, tid).Some? { OwnerRecorded(st.records, tid); }
    hide Owner, BySlug, Released, LetsPast, FirstWith, LastCalled;
    if tid != "" && Owner(st.records, tid).Some? {
      var owner := Owner(st.records, tid).value;
      var r := BySlug(st.records)[owner];
      assert FirstWith(st.records, tid, owner) && LastCalled(st.records, owner, r);
      if !Passes(st, tid) {
        var i :| 0 <= i < |Deps(r)| && Deps(r)[i] != "" && !Released(st, r.slug, Deps(r)[i]);
        assert Deps(r)[i] in r.deps.value;
      } else if r.deps.Some? {
        forall dep | dep in r.deps.value && dep != ""
          ensures LetsPast(st, owner, dep)
        {
          var i :| 0 <= i < |r.deps.value| && r.deps.value[i] == dep;
          assert Released(st, r.slug, Deps(r)[i]);
        }
      }
    }
  }
}
