/** Two brakes of the daemon: the wait between failed plannings of a brief, and the
    circuit breaker that stops a task dispatched too often. */
module Backoff {
  import opened Basics

  // ----- planning attempts

  /** The attempt marker of a brief. */
  datatype Marker = Marker(attempts: int, lastTs: real, deterministic: bool, honored: real)

  function Threshold(attempts: int, deterministic: bool): (t: real)
    ensures t >= 0.0
  {
    if deterministic && attempts >= 1 then 86400.0
    else if attempts <= 2 then 0.0
    else if attempts == 3 then 300.0
    else if attempts == 4 then 3600.0
    else 86400.0
  }

  /** The brief was saved after the last failure, and this saving was not honoured yet. */
  predicate Resaved(m: Marker, mtime: Option<real>) {
    mtime.Some? && mtime.value > m.lastTs && mtime.value != m.honored
  }

  /** `parked`: planning must wait. A resaved brief may be planned at once. */
  predicate Parked(m: Option<Marker>, mtime: Option<real>, now: real) {
    m.Some? && !Resaved(m.value, mtime) && now - m.value.lastTs < Threshold(m.value.attempts, m.value.deterministic)
  }

  /** The marker after a check: a resaving is noted in it. */
  function Checked(m: Option<Marker>, mtime: Option<real>): Option<Marker> {
    if m.Some? && Resaved(m.value, mtime) then Some(m.value.(honored := mtime.value, lastTs := mtime.value)) else m
  }

  /** The marker after a failed planning. A timeout forgets that the failure is
      deterministic; every failure forgets which saving was honoured. */
  function Failed(m: Option<Marker>, now: real, timeout: bool, deterministic: bool): Option<Marker> {
    var prev := if m.Some? then m.value else Marker(0, 0.0, false, 0.0);
    Some(Marker(prev.attempts + 1, now, !timeout && (prev.deterministic || deterministic), 0.0))
  }

  /** The marker file, read and rewritten in place. */
  class PlanMarker {
    var marker: Option<Marker>

    /** `_recently_failed_to_plan`. */
    method RecentlyFailed(mtime: Option<real>, now: real) returns (parked: bool)
      modifies this
      ensures parked == Parked(old(marker), mtime, now)
      ensures marker == Checked(old(marker), mtime)
    {
      if marker.None? {
        return false;
      }
      var m := marker.value;
      if mtime.Some? && mtime.value > m.lastTs && mtime.value != m.honored {
        marker := Some(m.(honored := mtime.value, lastTs := mtime.value));
        return false;
      }
      parked := now - m.lastTs < Threshold(m.attempts, m.deterministic);
    }

    /** The three places that record a failed planning. */
    method RecordFailure(now: real, timeout: bool, deterministic: bool)
      modifies this
      ensures marker == Failed(old(marker), now, timeout, deterministic)
    {
      var attempts, wasDeterministic := 0, false;
      if marker.Some? {
        attempts, wasDeterministic := marker.value.attempts, marker.value.deterministic;
      }
      marker := Some(Marker(attempts + 1, now, if timeout then false else wasDeterministic || deterministic, 0.0));
    }
  }

  /** The brief is saved, or considered for planning at `check`; if it is not parked the
      planner runs until `end` and may fail. */
  datatype Event =
    | Save(mtime: real)
    | Try(check: real, end: real, failed: bool, timeout: bool, deterministic: bool)

  datatype Brief = Brief(marker: Option<Marker>, mtime: Option<real>)

  predicate Fails(b: Brief, e: Event) {
    e.Try? && e.failed && !Parked(b.marker, b.mtime, e.check)
  }

  function Next(b: Brief, e: Event): Brief {
    match e
    case Save(mtime) => b.(mtime := Some(mtime))
    case Try(check, end, failed, timeout, deterministic) =>
      if Fails(b, e) then b.(marker := Failed(Checked(b.marker, b.mtime), end, timeout, deterministic))
      else b.(marker := Checked(b.marker, b.mtime))
  }

  /** The wait after `n` failures, the last of which was deterministic or not. */
  function Wait(n: int, deterministic: bool): real {
    if deterministic && n >= 1 then 86400.0
    else if n <= 2 then 0.0 else if n == 3 then 300.0 else if n == 4 then 3600.0 else 86400.0
  }

  /** A brief with a saving not honoured, or whose wait is over, is planned: the saving is
      noted, and a planning that fails is recorded. While it is parked nothing changes. */
  lemma TryIs(b: Brief, check: real, end: real, failed: bool, timeout: bool, deterministic: bool)
    ensures var c := Next(b, Try(check, end, failed, timeout, deterministic));
            c.mtime == b.mtime
            && if b.marker.None? then
                 c.marker == if failed then Some(Marker(1, end, !timeout && deterministic, 0.0)) else None
               else
                 var m := b.marker.value;
                 var resaved := b.mtime.Some? && b.mtime.value > m.lastTs && b.mtime.value != m.honored;
                 if !resaved && check - m.lastTs < Wait(m.attempts, m.deterministic) then c.marker == Some(m)
                 else if failed then
                   c.marker == Some(Marker(m.attempts + 1, end, !timeout && (m.deterministic || deterministic), 0.0))
                 else if resaved then
                   c.marker == Some(Marker(m.attempts, b.mtime.value, m.deterministic, b.mtime.value))
                 else c.marker == Some(m)
  {
  }

  function End(b: Brief, events: seq<Event>): Brief
    decreases |events|
  {
    if events == [] then b else End(Next(b, events[0]), events[1..])
  }

  function Failures(b: Brief, events: seq<Event>): nat
    decreases |events|
  {
    if events == [] then 0 else (if Fails(b, events[0]) then 1 else 0) + Failures(Next(b, events[0]), events[1..])
  }

  /** Planning ends no earlier than it was considered, and the brief is not saved. */
  predicate Unsaved(events: seq<Event>) {
    forall i | 0 <= i < |events| :: events[i].Try? && events[i].check <= events[i].end
  }

  /** The waits before the `n` failures that follow the `a`-th. */
  function Waits(a: int, n: nat): real
    decreases n
  {
    if n == 0 then 0.0 else Threshold(a, false) + Waits(a + 1, n - 1)
  }

  /** From a failure on, in a brief not saved since: the marker counts the failures, its
      time is that of the last one, and the failures are at least the waits apart. */
  lemma {:induction false} FailuresWait(b: Brief, events: seq<Event>)
    requires b.marker.Some? && b.marker.value.attempts >= 0 && Unsaved(events)
    requires b.mtime.Some? ==> b.mtime.value <= b.marker.value.lastTs
    ensures var t := End(b, events);
            && t.marker.Some? && t.marker.value.attempts == b.marker.value.attempts + Failures(b, events)
            && t.marker.value.lastTs >= b.marker.value.lastTs + Waits(b.marker.value.attempts, Failures(b, events))
    decreases |events|
  {
    if events != [] {
      var c := Next(b, events[0]);
      assert Unsaved(events[1..]);
      assert Threshold(b.marker.value.attempts, true) >= Threshold(b.marker.value.attempts, false);
      FailuresWait(c, events[1..]);
    }
  }

  lemma {:induction false} WaitsLong(a: int, n: nat)
    requires a >= 5
    ensures Waits(a, n) == 86400.0 * n as real
    decreases n
  {
    if n > 0 { WaitsLong(a + 1, n - 1); }
  }

  /** The `k`-th failed planning of a brief not saved since its first failure comes at
      least 3900 s and, from the fifth on, a day for each further one after the first. */
  lemma PlannerBackoff(b: Brief, first: Event, events: seq<Event>, k: nat)
    requires Fails(b, first) && (b.marker.Some? ==> b.marker.value.attempts >= 0) && Unsaved(events)
    requires b.mtime.Some? ==> b.mtime.value <= first.end
    requires k >= 5 && Failures(Next(b, first), events) == k - 1
    ensures End(Next(b, first), events).marker.Some?
    ensures End(Next(b, first), events).marker.value.lastTs >= first.end + 3900.0 + 86400.0 * (k - 5) as real
  {
    var c := Next(b, first);
    var a := c.marker.value.attempts;
    FailuresWait(c, events);
    WaitsGrow(1, a, k - 1);
    WaitsLong(5, k - 5);
    assert Waits(1, k - 1) == 0.0 + Waits(2, k - 2);
    assert Waits(2, k - 2) == 0.0 + Waits(3, k - 3);
    assert Waits(3, k - 3) == 300.0 + Waits(4, k - 4);
    assert Waits(4, k - 4) == 3600.0 + Waits(5, k - 5);
  }

  lemma {:induction false} WaitsGrow(a: int, b: int, n: nat)
    requires 1 <= a <= b
    ensures Waits(a, n) <= Waits(b, n)
    decreases n
  {
    if n > 0 { WaitsGrow(a + 1, b + 1, n - 1); }
  }

  /** After a failure the brief is parked exactly while its wait lasts, if it was not
      dated after the failure: a day when a failure no timeout has followed was
      deterministic, and else by the count of failures nothing, 300 s, an hour or a day.
      The note of the honoured saving, which the failure resets to zero, protects only a
      brief dated zero. */
  lemma ParkedAfterFailureIff(m: Option<Marker>, mtime: Option<real>, end: real, now: real, timeout: bool,
      deterministic: bool)
    ensures var n := 1 + if m.Some? then m.value.attempts else 0;
            var lasting := !timeout && (deterministic || (m.Some? && m.value.deterministic));
            var unsaved := mtime.None? || mtime.value <= end || mtime.value == 0.0;
            Parked(Failed(m, end, timeout, deterministic), mtime, now) <==> unsaved && now - end < Wait(n, lasting)
    ensures var f := Failed(m, end, timeout, deterministic).value;
            && f.attempts == 1 + (if m.Some? then m.value.attempts else 0) && f.lastTs == end
            && f.deterministic == (!timeout && (deterministic || (m.Some? && m.value.deterministic)))
  {
  }

  /** So a brief dated after its last failure is not parked, whatever the clock says. */
  lemma FutureSavingNeverParks(m: Option<Marker>, mtime: real, end: real, now: real, timeout: bool, deterministic: bool)
    requires mtime > end && mtime != 0.0
    ensures !Parked(Failed(m, end, timeout, deterministic), Some(mtime), now)
  {
    ParkedAfterFailureIff(m, Some(mtime), end, now, timeout, deterministic);
  }

  /** Planning fails each time, and ends before the brief is dated. */
  predicate FailsBefore(events: seq<Event>, mtime: real) {
    forall i | 0 <= i < |events| :: events[i].Try? && events[i].failed && events[i].end < mtime
  }

  /** A brief dated ahead of the clock is planned over and over: no failure, however many
      there were, ever makes it wait. */
  lemma {:induction false} FutureSavingDefeatsBackoff(b: Brief, events: seq<Event>)
    requires b.mtime.Some? && b.mtime.value != 0.0 && FailsBefore(events, b.mtime.value)
    requires b.marker.Some? ==> b.marker.value.honored == 0.0 && b.marker.value.lastTs < b.mtime.value
    ensures Failures(b, events) == |events|
    decreases |events|
  {
    if events != [] {
      var e := events[0];
      assert e.Try? && e.failed;
      FutureSavingDefeatsBackoff(Next(b, e), events[1..]);
    }
  }

  /** With savings in the past, each one buys at most one planning ahead of its wait. */
  lemma {:induction false} SavingsBuyOneTry(b: Brief, events: seq<Event>)
    requires InOrder(b, events)
    ensures EarlyTries(b, events) <= Savings(events)
            + (if b.marker.Some? && Resaved(b.marker.value, b.mtime) then 1 else 0)
    decreases |events|
  {
    if events != [] { SavingsBuyOneTry(Next(b, events[0]), events[1..]); }
  }

  /** A brief is considered no earlier than it was last saved. */
  predicate InOrder(b: Brief, events: seq<Event>)
    decreases |events|
  {
    events == []
    || ((events[0].Try? ==> events[0].check <= events[0].end && (b.mtime.Some? ==> b.mtime.value <= events[0].check))
        && InOrder(Next(b, events[0]), events[1..]))
  }

  function Savings(events: seq<Event>): nat {
    if events == [] then 0 else (if events[0].Save? then 1 else 0) + Savings(events[1..])
  }

  /** Plannings let through although the wait was not over. */
  function EarlyTries(b: Brief, events: seq<Event>): nat
    decreases |events|
  {
    if events == [] then 0
    else
      var e := events[0];
      var early := e.Try? && b.marker.Some? && !Parked(b.marker, b.mtime, e.check)
                   && e.check - b.marker.value.lastTs < Threshold(b.marker.value.attempts,
                       b.marker.value.deterministic);
      (if early then 1 else 0) + EarlyTries(Next(b, e), events[1..])
  }

  /** Event `i` is a planning let through although the wait after the last failure, or after
      the saving honoured since, was not over. */
  predicate EarlyAt(b: Brief, events: seq<Event>, i: nat)
    requires i < |events|
  {
    var c := End(b, events[..i]);
    && events[i].Try? && c.marker.Some? && !Parked(c.marker, c.mtime, events[i].check)
    && events[i].check - c.marker.value.lastTs < Threshold(c.marker.value.attempts, c.marker.value.deterministic)
  }

  /** Between two plannings ahead of their wait the brief is saved. */
  lemma {:induction false} EarlyTriesApart(b: Brief, events: seq<Event>, i: nat, j: nat) returns (k: nat)
    requires InOrder(b, events) && i < j < |events| && EarlyAt(b, events, i) && EarlyAt(b, events, j)
    ensures i < k < j && events[k].Save?
    decreases |events|
  {
    assert events[..j][..0] == [] && events[..i][..0] == [];
    if i > 0 {
      assert events[..i][1..] == events[1..][..i - 1] && events[..j][1..] == events[1..][..j - 1];
      k := EarlyTriesApart(Next(b, events[0]), events[1..], i - 1, j - 1);
      k := k + 1;
    } else {
      assert events[..j][1..] == events[1..][..j - 1];
      k := SavedBefore(Next(b, events[0]), events[1..], j - 1);
      k := k + 1;
    }
  }

  /** A planning ahead of its wait comes after a saving, unless one waits to be honoured. */
  lemma {:induction false} SavedBefore(b: Brief, events: seq<Event>, j: nat) returns (k: nat)
    requires InOrder(b, events) && j < |events| && EarlyAt(b, events, j)
    requires b.marker.Some? ==> !Resaved(b.marker.value, b.mtime)
    ensures k < j && events[k].Save?
    decreases |events|
  {
    assert events[..0] == [];
    k := 0;
    if !events[0].Save? && j > 0 {
      assert events[..j][1..] == events[1..][..j - 1];
      k := SavedBefore(Next(b, events[0]), events[1..], j - 1);
      k := k + 1;
    }
  }

  // ----- the dispatch circuit breaker

  const WINDOW := 300.0
  const LIMIT := 10

  /** The timestamps still inside the window that ends at `now`. */
  function Recent(ts: seq<real>, now: real): seq<real> {
    if ts == [] then []
    else Recent(ts[..|ts| - 1], now) + if now - ts[|ts| - 1] <= WINDOW then [ts[|ts| - 1]] else []
  }

  /** The dispatch timestamps of the tasks. */
  class Breaker {
    var stamps: map<Id, seq<real>>

    /** Notes a dispatch; the task is launched unless it was dispatched too often. */
    method Dispatch(id: Id, now: real) returns (launch: bool)
      modifies this
      ensures stamps == Stamped(old(stamps), id, now)
      ensures launch == Launches(old(stamps), id, now)
    {
      if id !in stamps {
        stamps := stamps[id := []];
      }
      stamps := stamps[id := stamps[id] + [now]];
      stamps := stamps[id := Recent(stamps[id], now)];
      launch := |stamps[id]| < LIMIT;
    }
  }

  function Stamps(stamps: map<Id, seq<real>>, id: Id): seq<real> {
    if id in stamps then stamps[id] else []
  }

  function Stamped(stamps: map<Id, seq<real>>, id: Id, now: real): map<Id, seq<real>> {
    stamps[id := Recent(Stamps(stamps, id) + [now], now)]
  }

  predicate Launches(stamps: map<Id, seq<real>>, id: Id, now: real) {
    |Recent(Stamps(stamps, id) + [now], now)| < LIMIT
  }

  /** A run of the dispatch loop: which task, and when. */
  function After(run: seq<(Id, real)>): map<Id, seq<real>> {
    if run == [] then map[]
    else
      var n := |run| - 1;
      Stamped(After(run[..n]), run[n].0, run[n].1)
  }

  ghost predicate Clocked(run: seq<(Id, real)>) {
    forall i, j | 0 <= i < j < |run| :: run[i].1 <= run[j].1
  }

  /** Every dispatch of a task, launched or not. */
  function Dispatches(run: seq<(Id, real)>, id: Id): seq<real> {
    if run == [] then []
    else Dispatches(run[..|run| - 1], id) + if run[|run| - 1].0 == id then [run[|run| - 1].1] else []
  }

  /** How often a run launches a task in the closed window that starts at `w`. */
  function LaunchesIn(run: seq<(Id, real)>, id: Id, w: real): nat {
    if run == [] then 0
    else
      var n := |run| - 1;
      LaunchesIn(run[..n], id, w)
      + if run[n].0 == id && w <= run[n].1 <= w + WINDOW && Launches(After(run[..n]), id, run[n].1) then 1 else 0
  }

  /** How often a run dispatches a task at `w` or later. */
  function Since(ts: seq<real>, w: real): nat {
    if ts == [] then 0 else Since(ts[..|ts| - 1], w) + if w <= ts[|ts| - 1] then 1 else 0
  }

  lemma {:induction false} RecentSize(ts: seq<real>, now: real)
    ensures |Recent(ts, now)| == Since(ts, now - WINDOW)
  {
    if ts != [] { RecentSize(ts[..|ts| - 1], now); }
  }

  /** Dropping timestamps by an earlier window loses nothing a later window needs. */
  lemma {:induction false} RecentSince(ts: seq<real>, now: real, w: real)
    requires now - WINDOW <= w
    ensures Since(Recent(ts, now), w) == Since(ts, w)
  {
    if ts != [] {
      RecentSince(ts[..|ts| - 1], now, w);
      var head, last := Recent(ts[..|ts| - 1], now), ts[|ts| - 1];
      assert (head + [last])[..|head|] == head;
      assert head + [] == head;
    }
  }

  lemma {:induction false} SinceConcat(a: seq<real>, x: real, w: real)
    ensures Since(a + [x], w) == Since(a, w) + if w <= x then 1 else 0
  {
    assert (a + [x])[..|a|] == a;
  }

  /** The kept timestamps count the dispatches of any window that is not yet past. */
  lemma {:induction false} StampsCount(run: seq<(Id, real)>, id: Id, w: real)
    requires Clocked(run) && (run != [] ==> run[|run| - 1].1 - WINDOW <= w)
    ensures Since(Stamps(After(run), id), w) == Since(Dispatches(run, id), w)
  {
    if run != [] {
      var n := |run| - 1;
      var before, now := run[..n], run[n].1;
      StampsCount(before, id, w);
      if run[n].0 == id {
        RecentSince(Stamps(After(before), id) + [now], now, w);
        SinceConcat(Stamps(After(before), id), now, w);
        SinceConcat(Dispatches(before, id), now, w);
      } else {
        assert Dispatches(before, id) + [] == Dispatches(before, id);
      }
    }
  }

  /** A launch at `now` leaves room: fewer than nine dispatches came before it in the
      window. */
  lemma LaunchNeedsRoom(before: seq<(Id, real)>, id: Id, now: real, w: real)
    requires Clocked(before) && (before != [] ==> before[|before| - 1].1 <= now) && w <= now <= w + WINDOW
    requires Launches(After(before), id, now)
    ensures Since(Dispatches(before, id), w) + 1 < LIMIT
  {
    hide After, Dispatches, Since, Recent;
    StampsCount(before, id, now - WINDOW);
    RecentSize(Stamps(After(before), id) + [now], now);
    SinceConcat(Stamps(After(before), id), now, now - WINDOW);
    SinceMonotone(Dispatches(before, id), now - WINDOW, w);
  }

  /** The launches in a window are at most its dispatches and at most nine. */
  lemma {:induction false} LaunchesBounded(run: seq<(Id, real)>, id: Id, w: real)
    requires Clocked(run) && (run != [] ==> run[|run| - 1].1 <= w + WINDOW)
    ensures LaunchesIn(run, id, w) <= Since(Dispatches(run, id), w)
    ensures LaunchesIn(run, id, w) < LIMIT
  {
    hide After, Launches;
    if run != [] {
      var n := |run| - 1;
      var before, now := run[..n], run[n].1;
      LaunchesBounded(before, id, w);
      if run[n].0 == id {
        SinceConcat(Dispatches(before, id), now, w);
        if w <= now && Launches(After(before), id, now) { LaunchNeedsRoom(before, id, now, w); }
      } else {
        assert Dispatches(before, id) + [] == Dispatches(before, id);
      }
    }
  }

  /** A dispatch is launched exactly when at most eight came before it in its window: what
      was discarded makes no difference. */
  lemma LaunchIff(before: seq<(Id, real)>, id: Id, now: real)
    requires Clocked(before) && (before != [] ==> before[|before| - 1].1 <= now)
    ensures Launches(After(before), id, now) <==> Since(Dispatches(before, id), now - 300.0) <= 8
  {
    hide After, Dispatches, Since, Recent;
    StampsCount(before, id, now - WINDOW);
    RecentSize(Stamps(After(before), id) + [now], now);
    SinceConcat(Stamps(After(before), id), now, now - WINDOW);
  }

  /** At position `i` the run launches the task between `w` and 300 s later. */
  predicate LaunchesAt(run: seq<(Id, real)>, id: Id, w: real, i: nat)
    requires i < |run|
  {
    run[i].0 == id && w <= run[i].1 <= w + 300.0 && Launches(After(run[..i]), id, run[i].1)
  }

  ghost function LaunchedAt(run: seq<(Id, real)>, id: Id, w: real): set<nat> {
    set i: nat | i < |run| && LaunchesAt(run, id, w, i)
  }

  lemma {:induction false} LaunchesCount(run: seq<(Id, real)>, id: Id, w: real)
    ensures |LaunchedAt(run, id, w)| == LaunchesIn(run, id, w)
  {
    if run != [] {
      var n := |run| - 1;
      LaunchesCount(run[..n], id, w);
      LaunchedNext(run, id, w);
      hide LaunchedAt;
    }
  }

  lemma LaunchedNext(run: seq<(Id, real)>, id: Id, w: real)
    requires run != []
    ensures var n := |run| - 1;
            && n !in LaunchedAt(run[..n], id, w)
            && LaunchedAt(run, id, w) == LaunchedAt(run[..n], id, w) + if LaunchesAt(run, id, w, n) then {n} else {}
  {
    var n := |run| - 1;
    forall i: nat | i < n
      ensures LaunchesAt(run[..n], id, w, i) <==> LaunchesAt(run, id, w, i)
    {
      assert run[..n][..i] == run[..i];
    }
    hide LaunchesAt;
  }

  lemma {:induction false} SinceMonotone(ts: seq<real>, w: real, w': real)
    requires w <= w'
    ensures Since(ts, w') <= Since(ts, w)
  {
    if ts != [] { SinceMonotone(ts[..|ts| - 1], w, w'); }
  }

  /** Over every run with a clock that does not go back, no task is launched more than
      nine times in any closed window of 300 s, although old timestamps are discarded. */
  lemma BreakerHolds(run: seq<(Id, real)>, id: Id, w: real)
    requires Clocked(run)
    ensures |LaunchedAt(run, id, w)| <= 9
  {
    LaunchesCount(run, id, w);
    LaunchesFew(run, id, w);
  }

  lemma {:induction false} LaunchesFew(run: seq<(Id, real)>, id: Id, w: real)
    requires Clocked(run)
    ensures LaunchesIn(run, id, w) <= 9
  {
    if run != [] && run[|run| - 1].1 > w + WINDOW {
      LaunchesFew(run[..|run| - 1], id, w);
    } else {
      LaunchesBounded(run, id, w);
    }
  }
}
