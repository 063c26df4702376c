/** A scheduler process that ticks: the walk over each cron expression, and the tables after it. */
module Ticking {
  import opened Calendar
  import opened Codecs
  import opened Cron
  import opened Scheduler
  import opened ScheduleStore
  import opened Wrappers

  /** A registered schedule, with the instants its expression is due at. */
  datatype Schedule = Schedule(name: string, next: int -> Option<int>, due: int -> bool)

  ghost predicate IsRegistered(names: set<string>, s: Schedule) {
    s.name in names && AnswersFor(s.next, s.due)
  }

  /** What the deployment promises of its registry. */
  ghost predicate WellNamed(names: set<string>, registry: seq<Schedule>) {
    && Plain(names)
    && AllAdvance(registry)
    && (forall k :: 0 <= k < |registry| ==> IsRegistered(names, registry[k]))
    && (forall k, l :: 0 <= k < l < |registry| ==> registry[k].name != registry[l].name)
  }

  /** All that a tick looks at has a date. */
  predicate InDates(now: int, window: int) {
    Dated(now - window) && Dated(now)
  }

  lemma {:induction false} DueInIsWithin(next: int -> Option<int>, from: int, now: int)
    requires Advances(next)
    ensures forall u :: u in DueIn(next, from, now) ==> from < u <= now
    decreases now - from
  {
    var n := next(from);
    if n.None? || n.value > now {
    } else {
      DueInIsWithin(next, n.value, now);
      var rest := DueIn(next, n.value, now);
      assert forall u :: u in DueIn(next, from, now) ==> u == n.value || u in rest;
    }
  }

  lemma WalkIsWithin(next: int -> Option<int>, now: int, window: int)
    requires Advances(next)
    ensures Walk(next, now, window).Some? ==> now - window < Walk(next, now, window).value <= now
  {
    DueInIsWithin(next, now - window, now);
    var due := Walk(next, now, window);
    assert due.Some? ==> due.value in DueIn(next, now - window, now);
  }

  /** What one tick finds due of one schedule. */
  datatype Finding = Finding(schedule: string, due: Option<int>)

  ghost function FindingOf(s: Schedule, now: int, window: int): Finding
    requires Advances(s.next)
  {
    Finding(s.name, Walk(s.next, now, window))
  }

  ghost predicate AllAdvance(registry: seq<Schedule>) {
    forall k :: 0 <= k < |registry| ==> Advances(registry[k].next)
  }

  ghost function OneTick(registry: seq<Schedule>, now: int, window: int): (fs: seq<Finding>)
    requires AllAdvance(registry)
    ensures |fs| == |registry| && forall k :: 0 <= k < |fs| ==> fs[k] == FindingOf(registry[k], now, window)
    decreases |registry|
  {
    if registry == [] then []
    else
      var n := |registry| - 1;
      OneTick(registry[..n], now, window) + [FindingOf(registry[n], now, window)]
  }

  ghost function Findings(registry: seq<Schedule>, ticks: seq<int>, window: int): seq<Finding>
    requires AllAdvance(registry)
    decreases |ticks|
  {
    if ticks == [] then []
    else
      var n := |ticks| - 1;
      Findings(registry, ticks[..n], window) + OneTick(registry, ticks[n], window)
  }

  lemma FindingsAdjoin(registry: seq<Schedule>, ticks: seq<int>, window: int)
    requires AllAdvance(registry) && ticks != []
    ensures Findings(registry, ticks, window)
         == Findings(registry, ticks[..|ticks| - 1], window) + OneTick(registry, ticks[|ticks| - 1], window)
  {
  }

  lemma {:induction false} FindingIsSomeTick(registry: seq<Schedule>, ticks: seq<int>, window: int, i: nat)
    returns (j: nat, k: nat)
    requires AllAdvance(registry) && i < |Findings(registry, ticks, window)|
    ensures j < |ticks| && k < |registry|
    ensures Findings(registry, ticks, window)[i] == FindingOf(registry[k], ticks[j], window)
    decreases |ticks|
  {
    var n := |ticks| - 1;
    var before := Findings(registry, ticks[..n], window);
    FindingsAdjoin(registry, ticks, window);
    if i < |before| {
      j, k := FindingIsSomeTick(registry, ticks[..n], window, i);
    } else {
      j, k := n, i - |before|;
    }
  }

  lemma {:induction false} TickIsSomeFinding(registry: seq<Schedule>, ticks: seq<int>, window: int, j: nat, k: nat)
    returns (i: nat)
    requires AllAdvance(registry) && j < |ticks| && k < |registry|
    ensures i < |Findings(registry, ticks, window)|
    ensures Findings(registry, ticks, window)[i] == FindingOf(registry[k], ticks[j], window)
    decreases |ticks|
  {
    FindingsAdjoin(registry, ticks, window);
    if j < |ticks| - 1 {
      i := TickIsSomeFinding(registry, ticks[..|ticks| - 1], window, j, k);
    } else {
      i := |Findings(registry, ticks[..|ticks| - 1], window)| + k;
    }
  }

  ghost predicate Found(s: Schedule, ticks: seq<int>, window: int, u: int)
    requires Advances(s.next)
  {
    exists j :: 0 <= j < |ticks| && Walk(s.next, ticks[j], window) == Some(u)
  }

  lemma NamesTell(names: set<string>, registry: seq<Schedule>, k: nat, l: nat)
    requires WellNamed(names, registry) && k < |registry| && l < |registry|
    ensures registry[k].name == registry[l].name <==> k == l
  {
    var a, b := if k < l then k else l, if k < l then l else k;
    assert a < b ==> registry[a].name != registry[b].name;
  }

  lemma NoticedIffFound(names: set<string>, registry: seq<Schedule>, ticks: seq<int>, window: int, k: nat, u: int)
    requires WellNamed(names, registry) && k < |registry|
    ensures Finding(registry[k].name, Some(u)) in Findings(registry, ticks, window) <==>
      Found(registry[k], ticks, window, u)
  {
    var fs, f := Findings(registry, ticks, window), Finding(registry[k].name, Some(u));
    if i :| 0 <= i < |fs| && fs[i] == f {
      var j, l := FindingIsSomeTick(registry, ticks, window, i);
      NamesTell(names, registry, k, l);
      assert Walk(registry[k].next, ticks[j], window) == Some(u);
    }
    if j :| 0 <= j < |ticks| && Walk(registry[k].next, ticks[j], window) == Some(u) {
      var i := TickIsSomeFinding(registry, ticks, window, j, k);
      assert fs[i] == f;
    }
  }

  // --- The passes those findings make --------------------------------------------------------

  predicate HasDate(f: Finding) { f.due.Some? ==> Dated(f.due.value) }

  predicate AllInDates(ticks: seq<int>, window: int) {
    forall j :: 0 <= j < |ticks| ==> InDates(ticks[j], window)
  }

  lemma FindingsHaveDates(registry: seq<Schedule>, ticks: seq<int>, window: int)
    requires AllAdvance(registry) && AllInDates(ticks, window)
    ensures forall f <- Findings(registry, ticks, window) :: HasDate(f)
  {
    var fs := Findings(registry, ticks, window);
    forall i | 0 <= i < |fs|
      ensures HasDate(fs[i])
    {
      var j, k := FindingIsSomeTick(registry, ticks, window, i);
      assert InDates(ticks[j], window);
      WalkIsWithin(registry[k].next, ticks[j], window);
    }
  }

  function PassOf(f: Finding): Pass
    requires HasDate(f)
  {
    Pass(f.schedule, if f.due.Some? then Some(StampOf(f.due.value)) else None, true)
  }

  function Passes(fs: seq<Finding>): (ps: seq<Pass>)
    requires forall f <- fs :: HasDate(f)
    ensures |ps| == |fs| && forall i :: 0 <= i < |fs| ==> ps[i] == PassOf(fs[i])
  {
    if fs == [] then [] else Passes(fs[..|fs| - 1]) + [PassOf(fs[|fs| - 1])]
  }

  /** The passes of a whole loop, every enqueue accepted. */
  ghost function Loop(registry: seq<Schedule>, ticks: seq<int>, window: int): seq<Pass>
    requires AllAdvance(registry) && AllInDates(ticks, window)
  {
    FindingsHaveDates(registry, ticks, window);
    Passes(Findings(registry, ticks, window))
  }

  lemma PassIsOfFinding(f: Finding, schedule: string, u: int)
    requires HasDate(f) && Dated(u)
    ensures PassOf(f) == Pass(schedule, Some(StampOf(u)), true) <==> f == Finding(schedule, Some(u))
  {
    if f.due.Some? { StampsAreInjective(f.due.value, u); }
  }

  lemma PassedIffNoticed(fs: seq<Finding>, schedule: string, u: int)
    requires (forall f <- fs :: HasDate(f)) && Dated(u)
    ensures Passed(Passes(fs), schedule, StampOf(u)) <==> Finding(schedule, Some(u)) in fs
  {
    forall i | 0 <= i < |fs|
      ensures Passes(fs)[i] == Pass(schedule, Some(StampOf(u)), true) <==> fs[i] == Finding(schedule, Some(u))
    {
      PassIsOfFinding(fs[i], schedule, u);
    }
  }

  lemma PassNames(names: set<string>, registry: seq<Schedule>, ticks: seq<int>, window: int)
    requires WellNamed(names, registry) && AllInDates(ticks, window)
    ensures forall p <- Loop(registry, ticks, window) :: p.schedule in names
  {
    var fs := Findings(registry, ticks, window);
    forall i | 0 <= i < |fs|
      ensures fs[i].schedule in names
    {
      var j, k := FindingIsSomeTick(registry, ticks, window, i);
      assert IsRegistered(names, registry[k]);
    }
  }

  /** `n` tick rows of one instant, and `n` job rows of its key. */
  predicate HasRows(db: State, schedule: string, firedFor: Stamp, n: nat) {
    |TickRows(db, schedule, firedFor)| == n && |JobRows(db, JobKeyFor(schedule, firedFor))| == n
  }

  lemma RowsAreClaims(names: set<string>, ps: seq<Pass>, schedule: string, firedFor: Stamp)
    requires Plain(names) && schedule in names && forall p <- ps :: p.schedule in names
    ensures HasRows(After(map[], 0, ps), schedule, firedFor, if Passed(ps, schedule, firedFor) then 1 else 0)
  {
    var db := After(map[], 0, ps);
    var es := PassesAreARun(names, map[], 0, ps);
    EachTickFiresAtMostOnce(names, es, schedule, firedFor);
    ClaimedIffPassed(0, ps, schedule, firedFor);
    PassesKeepRows(map[], 0, ps);
    if y :| y in db && HoldsTick(db[y], schedule, firedFor) {
      assert y in TickRows(db, schedule, firedFor);
    } else {
      assert TickRows(db, schedule, firedFor) == {};
    }
  }

  /** Ticks with dates, at least one, none missing a window of this schedule. */
  ghost predicate Regular(s: Schedule, ticks: seq<int>, window: int)
    requires Advances(s.next)
  {
    ticks != [] && AllInDates(ticks, window) && AllUnderCap(s.next, window, ticks) && KeepsUp(s.due, window, ticks)
  }

  lemma BetweenIsDated(ticks: seq<int>, window: int, u: int)
    requires ticks != [] && AllInDates(ticks, window) && ticks[0] < u <= ticks[|ticks| - 1]
    ensures Dated(u)
  {
    assert InDates(ticks[0], window) && InDates(ticks[|ticks| - 1], window);
  }

  /** If ticks come at least once a window, no two instants of a schedule fall due between them and
      the window never holds more than the cap, then each instant after the first tick has exactly
      one tick row and one job row if the schedule is due at it, and none if not, whatever other
      schedules are registered. */
  lemma EveryDueInstantFiresOnce(
    names: set<string>, registry: seq<Schedule>, ticks: seq<int>, window: int, k: nat, u: int)
    requires WellNamed(names, registry) && k < |registry| && Regular(registry[k], ticks, window)
    requires ticks[0] < u <= ticks[|ticks| - 1]
    ensures Dated(u)
    ensures HasRows(
      After(map[], 0, Loop(registry, ticks, window)), registry[k].name, StampOf(u), if registry[k].due(u) then 1 else 0)
  {
    BetweenIsDated(ticks, window, u);
    assert IsRegistered(names, registry[k]);
    FindingsHaveDates(registry, ticks, window);
    PassedIffNoticed(Findings(registry, ticks, window), registry[k].name, u);
    NoticedIffFound(names, registry, ticks, window, k, u);
    FoundIffDue(registry[k].next, registry[k].due, window, ticks, u);
    PassNames(names, registry, ticks, window);
    RowsAreClaims(names, Loop(registry, ticks, window), registry[k].name, StampOf(u));
  }

  // --- The promises can be kept --------------------------------------------------------------

  const MINUTE := 60_000

  /** Due every minute, on the minute. */
  const Minutely := Schedule("m", (t: int) => Some((t / MINUTE + 1) * MINUTE), (t: int) => t % MINUTE == 0)

  lemma MinutelyAnswers()
    ensures AnswersFor(Minutely.next, Minutely.due)
  {
    forall t
      ensures Minutely.next(t).value > t && Minutely.due(Minutely.next(t).value)
      ensures forall u :: t < u < Minutely.next(t).value ==> !Minutely.due(u)
    {
      forall u | t < u < Minutely.next(t).value
        ensures u % MINUTE != 0
      {
        assert u / MINUTE == t / MINUTE;
      }
    }
  }

  lemma MinutelyDue(now: int)
    requires now % MINUTE == 0 && Advances(Minutely.next)
    ensures DueIn(Minutely.next, now - MINUTE, now) == [now]
  {
    assert Minutely.next(now - MINUTE) == Some(now) && Minutely.next(now) == Some(now + MINUTE);
    assert DueIn(Minutely.next, now, now) == [];
  }

  /** A schedule due every minute, ticked every minute, at whatever minutes of the calendar. */
  lemma PromisesCanBeKept(t: int)
    requires t % MINUTE == 0 && Dated(t - MINUTE) && Dated(t + MINUTE)
    ensures WellNamed({"m"}, [Minutely]) && AllAdvance([Minutely])
    ensures Advances(Minutely.next) && Regular(Minutely, [t, t + MINUTE], MINUTE) && Minutely.due(t + MINUTE)
  {
    MinutelyAnswers();
    assert Plain({"m"}) by { assert |"m" + ":manual"| == 8; }
    assert IsRegistered({"m"}, Minutely);
    MinutelyDue(t);
    MinutelyDue(t + MINUTE);
    var ticks := [t, t + MINUTE];
    assert KeepsUp(Minutely.due, MINUTE, ticks) by {
      forall u, v | t < u <= t + MINUTE && t < v <= t + MINUTE && Minutely.due(u) && Minutely.due(v)
        ensures u == v
      {}
    }
  }
}
