/**
  The replicated scheduler: any number of replicas, each transaction's statements
  interleaved with every other's, under the database queue driver.

  The tables are the rows of the transactions that wrote them: a row is visible once its
  transaction has committed. A unique-index insert that meets an uncommitted row waits, so
  that step is simply not enabled until the other transaction ends. No other caller of
  `enqueue` passes a dedupe key, so the jobs it writes are not shown. A due instant is named by
  its ISO text, which determines it.
 */
module Scheduler {
  import opened Codecs

  datatype Phase = Opened | Claimed | Beaten | Ready | Committed

  /** `key` is its job key. `row` and `job`: whether it inserted its `schedule_runs` and `jobs` rows. */
  datatype Tx = Tx(schedule: string, firedFor: Stamp, manual: bool, key: string, phase: Phase, row: bool, job: bool)

  type State = map<nat, Tx>

  datatype Event =
    | Begin(x: nat, schedule: string, firedFor: Stamp, manual: bool)
    | ClaimTick(x: nat)
    | RecordManualRun(x: nat)
    | Enqueue(x: nat)
    | Rollback(x: nat)      // a failed enqueue, a crash, or any other error
    | Commit(x: nat)

  function KeyFor(schedule: string, firedFor: Stamp, manual: bool): string {
    if manual then ManualKeyFor(schedule, firedFor) else JobKeyFor(schedule, firedFor)
  }

  /** The entry of the partial unique index on `schedule_runs`. */
  predicate HoldsTick(t: Tx, schedule: string, firedFor: Stamp) {
    t.row && !t.manual && t.schedule == schedule && t.firedFor == firedFor
  }

  /** The entry of the unique index on `jobs.dedupe_key`. */
  predicate HoldsJob(t: Tx, key: string) {
    t.job && t.key == key
  }

  predicate Finished(t: Tx) { t.phase == Committed }

  predicate Enabled(names: set<string>, s: State, e: Event) {
    match e
    case Begin(x, schedule, _, _) => x !in s && schedule in names
    case ClaimTick(x) =>
      && x in s && s[x].phase == Opened && !s[x].manual
      && forall y :: y in s && HoldsTick(s[y], s[x].schedule, s[x].firedFor) ==> Finished(s[y])
    case RecordManualRun(x) => x in s && s[x].phase == Opened && s[x].manual
    case Enqueue(x) =>
      && x in s && s[x].phase == Claimed
      && forall y :: y in s && HoldsJob(s[y], s[x].key) ==> Finished(s[y])
    case Rollback(x) => x in s && !Finished(s[x])
    case Commit(x) => x in s && (s[x].phase == Ready || s[x].phase == Beaten)
  }

  function Next(names: set<string>, s: State, e: Event): State
    requires Enabled(names, s, e)
  {
    match e
    case Begin(x, schedule, firedFor, manual) => 
      s[x := Tx(schedule, firedFor, manual, KeyFor(schedule, firedFor, manual), Opened, false, false)]
    case ClaimTick(x) =>
      var taken := exists y :: y in s && HoldsTick(s[y], s[x].schedule, s[x].firedFor);
      s[x := if taken then s[x].(phase := Beaten) else s[x].(phase := Claimed, row := true)]
    case RecordManualRun(x) => s[x := s[x].(phase := Claimed, row := true)]
    case Enqueue(x) =>
      var queued := exists y :: y in s && HoldsJob(s[y], s[x].key);
      s[x := s[x].(phase := Ready, job := !queued)]
    case Rollback(x) => s - {x}
    case Commit(x) => s[x := s[x].(phase := Committed)]
  }

  predicate ValidRun(names: set<string>, s: State, es: seq<Event>)
    decreases |es|
  {
    es == [] || (Enabled(names, s, es[0]) && ValidRun(names, Next(names, s, es[0]), es[1..]))
  }

  function Run(names: set<string>, s: State, es: seq<Event>): State
    requires ValidRun(names, s, es)
    decreases |es|
  {
    if es == [] then s else Run(names, Next(names, s, es[0]), es[1..])
  }

  /** No schedule is named after another's manual runs. None in the registry is. */
  predicate Plain(names: set<string>) {
    forall a, b :: a in names && b in names ==> b != a + ":manual"
  }

  // --- The invariant -----------------------------------------------------------------------

  ghost predicate TicksUnique(s: State) {
    forall x, y ::
      x in s && y in s && s[x].row && !s[x].manual && HoldsTick(s[y], s[x].schedule, s[x].firedFor) ==> x == y
  }

  ghost predicate JobsUnique(s: State) {
    forall x, y :: x in s && y in s && s[x].job && HoldsJob(s[y], s[x].key) ==> x == y
  }

  predicate Sound(names: set<string>, t: Tx) {
    && t.schedule in names
    && (t.phase == Opened || t.phase == Beaten ==> !t.row && !t.job)
    && (t.phase == Claimed ==> t.row && !t.job)
    && (t.phase == Ready ==> t.row)
    && (t.job ==> t.row)
  }

  /** A run that is past its enqueue has a job row under its key, its own or a committed one. */
  ghost predicate HasItsJob(s: State, x: nat)
    requires x in s
  {
    s[x].row && (s[x].phase == Ready || Finished(s[x])) ==>
      exists y :: y in s && HoldsJob(s[y], s[x].key) && (y == x || Finished(s[y]))
  }

  ghost predicate Inv(names: set<string>, s: State) {
    && TicksUnique(s) && JobsUnique(s)
    && forall x :: x in s ==> Sound(names, s[x]) && HasItsJob(s, x)
  }

  lemma ClaimKeepsUnique(names: set<string>, s: State, e: Event)
    requires Inv(names, s) && Enabled(names, s, e) && (e.ClaimTick? || e.RecordManualRun?)
    ensures TicksUnique(Next(names, s, e)) && JobsUnique(Next(names, s, e))
  {
  }

  lemma EnqueueKeepsUnique(names: set<string>, s: State, e: Event)
    requires Inv(names, s) && Enabled(names, s, e) && e.Enqueue?
    ensures TicksUnique(Next(names, s, e)) && JobsUnique(Next(names, s, e))
  {
  }

  lemma EdgeKeepsUnique(names: set<string>, s: State, e: Event)
    requires Inv(names, s) && Enabled(names, s, e) && (e.Begin? || e.Rollback? || e.Commit?)
    ensures TicksUnique(Next(names, s, e)) && JobsUnique(Next(names, s, e))
  {
  }

  lemma StepKeepsUnique(names: set<string>, s: State, e: Event)
    requires Inv(names, s) && Enabled(names, s, e)
    ensures TicksUnique(Next(names, s, e)) && JobsUnique(Next(names, s, e))
  {
    match e {
      case ClaimTick(_) => ClaimKeepsUnique(names, s, e);
      case RecordManualRun(_) => ClaimKeepsUnique(names, s, e);
      case Enqueue(_) => EnqueueKeepsUnique(names, s, e);
      case _ => EdgeKeepsUnique(names, s, e);
    }
  }

  lemma StepKeepsSound(names: set<string>, s: State, e: Event, x: nat)
    requires Inv(names, s) && Enabled(names, s, e) && x in Next(names, s, e)
    ensures Sound(names, Next(names, s, e)[x])
  {}

  lemma StepKeepsOthers(names: set<string>, s: State, e: Event, y: nat)
    requires Enabled(names, s, e) && y in s && (y != e.x || Finished(s[y]))
    ensures y in Next(names, s, e) && Next(names, s, e)[y] == s[y]
  {}

  /** Another transaction's step leaves a run its job: the row it relies on is its own or
      committed, and neither goes away. */
  lemma OthersKeepItsJob(names: set<string>, s: State, e: Event, x: nat)
    requires Inv(names, s) && Enabled(names, s, e) && x in s && x in Next(names, s, e) && x != e.x
    ensures HasItsJob(Next(names, s, e), x)
  {
    var s' := Next(names, s, e);
    if s[x].row && (s[x].phase == Ready || Finished(s[x])) {
      var y :| y in s && HoldsJob(s[y], s[x].key) && (y == x || Finished(s[y]));
      StepKeepsOthers(names, s, e, y);
      StepKeepsOthers(names, s, e, x);
    }
  }

  lemma CommitKeepsJob(names: set<string>, s: State, x: nat)
    requires Inv(names, s) && Enabled(names, s, Commit(x))
    ensures HasItsJob(Next(names, s, Commit(x)), x)
  {
    var s' := Next(names, s, Commit(x));
    if s[x].row {
      assert HasItsJob(s, x);
      var y :| y in s && HoldsJob(s[y], s[x].key) && (y == x || Finished(s[y]));
      assert y in s' && HoldsJob(s'[y], s'[x].key);
    }
  }

  lemma EnqueueMakesJob(names: set<string>, s: State, x: nat)
    requires Enabled(names, s, Enqueue(x))
    ensures HasItsJob(Next(names, s, Enqueue(x)), x)
  {
    var s' := Next(names, s, Enqueue(x));
    if y :| y in s && HoldsJob(s[y], s[x].key) {
      assert y in s' && HoldsJob(s'[y], s'[x].key);
    } else {
      assert HoldsJob(s'[x], s'[x].key);
    }
  }

  lemma OwnStepKeepsJob(names: set<string>, s: State, e: Event, x: nat)
    requires Inv(names, s) && Enabled(names, s, e) && x in Next(names, s, e) && x == e.x
    ensures HasItsJob(Next(names, s, e), x)
  {
    match e {
      case Commit(_) => CommitKeepsJob(names, s, x);
      case Enqueue(_) => EnqueueMakesJob(names, s, x);
      case _ =>
    }
  }

  lemma StepKeepsJob(names: set<string>, s: State, e: Event, x: nat)
    requires Inv(names, s) && Enabled(names, s, e) && x in Next(names, s, e)
    ensures Sound(names, Next(names, s, e)[x]) && HasItsJob(Next(names, s, e), x)
  {
    StepKeepsSound(names, s, e, x);
    if x == e.x { OwnStepKeepsJob(names, s, e, x); } else { OthersKeepItsJob(names, s, e, x); }
  }

  lemma {:induction false} RunKeepsInv(names: set<string>, s: State, es: seq<Event>)
    requires Inv(names, s) && ValidRun(names, s, es)
    ensures Inv(names, Run(names, s, es))
    decreases |es|
  {
    if es == [] {
    } else {
      StepKeepsUnique(names, s, es[0]);
      forall x | x in Next(names, s, es[0]) { StepKeepsJob(names, s, es[0], x); }
      RunKeepsInv(names, Next(names, s, es[0]), es[1..]);
    }
  }

  /** Every transaction carries the key its schedule and instant give. Kept apart from `Inv`, which
      does not need to look inside a key. */
  ghost predicate Keyed(s: State) {
    forall x :: x in s ==> s[x].key == KeyFor(s[x].schedule, s[x].firedFor, s[x].manual)
  }

  lemma StepKeepsKey(names: set<string>, s: State, e: Event, x: nat)
    requires Keyed(s) && Enabled(names, s, e) && x in Next(names, s, e)
    ensures var t := Next(names, s, e)[x]; t.key == KeyFor(t.schedule, t.firedFor, t.manual)
  {}

  lemma StepKeepsKeys(names: set<string>, s: State, e: Event)
    requires Keyed(s) && Enabled(names, s, e)
    ensures Keyed(Next(names, s, e))
  {
    forall x | x in Next(names, s, e) { StepKeepsKey(names, s, e, x); }
  }

  lemma {:induction false} RunKeepsKeys(names: set<string>, s: State, es: seq<Event>)
    requires Keyed(s) && ValidRun(names, s, es)
    ensures Keyed(Run(names, s, es))
    decreases |es|
  {
    if es == [] {
    } else {
      StepKeepsKeys(names, s, es[0]);
      RunKeepsKeys(names, Next(names, s, es[0]), es[1..]);
    }
  }

  // --- Main results ------------------------------------------------------------------------

  /** The committed `schedule_runs` rows of one tick, and the committed `jobs` rows of one key. */
  function TickRows(s: State, schedule: string, firedFor: Stamp): set<nat> {
    set x | x in s && Finished(s[x]) && HoldsTick(s[x], schedule, firedFor)
  }

  function JobRows(s: State, key: string): set<nat> {
    set x | x in s && Finished(s[x]) && HoldsJob(s[x], key)
  }

  lemma TickOfKey(names: set<string>, t: Tx, schedule: string, firedFor: Stamp)
    requires Plain(names) && t.schedule in names && schedule in names
    requires t.key == KeyFor(t.schedule, t.firedFor, t.manual)
    ensures t.key == JobKeyFor(schedule, firedFor) <==> !t.manual && t.schedule == schedule && t.firedFor == firedFor
  {
    KeySplits(t.schedule, t.firedFor, schedule, firedFor);
    ManualKeysAreApart(t.schedule, t.firedFor, schedule, firedFor);
  }

  /** A key tells which tick or manual run it belongs to. */
  predicate KeysTell(s: State) {
    forall x, y :: x in s && y in s && s[x].key == s[y].key ==>
      s[x].manual == s[y].manual && s[x].schedule == s[y].schedule && s[x].firedFor == s[y].firedFor
  }

  lemma KeyTells(names: set<string>, t: Tx, u: Tx)
    requires Plain(names) && t.schedule in names && u.schedule in names && t.key == u.key
    requires t.key == KeyFor(t.schedule, t.firedFor, t.manual) && u.key == KeyFor(u.schedule, u.firedFor, u.manual)
    ensures t.manual == u.manual && t.schedule == u.schedule && t.firedFor == u.firedFor
  {
    if t.manual && u.manual {
      ManualKeysAreApart(t.schedule, t.firedFor, u.schedule, u.firedFor);
    } else if !t.manual {
      TickOfKey(names, u, t.schedule, t.firedFor);
    } else {
      TickOfKey(names, t, u.schedule, u.firedFor);
    }
  }

  lemma PlainKeysTell(names: set<string>, s: State)
    requires Plain(names) && Keyed(s) && forall x :: x in s ==> s[x].schedule in names
    ensures KeysTell(s)
  {
    forall x, y | x in s && y in s && s[x].key == s[y].key
      ensures s[x].manual == s[y].manual && s[x].schedule == s[y].schedule && s[x].firedFor == s[y].firedFor
    {
      KeyTells(names, s[x], s[y]);
    }
  }

  lemma RunHasItsJob(names: set<string>, s: State, x: nat) returns (y: nat)
    requires Inv(names, s) && x in s && s[x].row && Finished(s[x])
    ensures JobRows(s, s[x].key) == {y}
  {
    assert HasItsJob(s, x);
    y :| y in s && HoldsJob(s[y], s[x].key) && (y == x || Finished(s[y]));
    forall z | z in JobRows(s, s[x].key)
      ensures z == y
    {}
  }

  lemma JobHasItsTick(names: set<string>, s: State, y: nat, schedule: string, firedFor: Stamp)
    requires Plain(names) && schedule in names && Inv(names, s) && Keyed(s)
    requires y in JobRows(s, JobKeyFor(schedule, firedFor))
    ensures y in TickRows(s, schedule, firedFor)
  {
    TickOfKey(names, s[y], schedule, firedFor);
  }

  /** Each tick is claimed at most once, and it was claimed exactly when it has its one job. */
  lemma EachTickFiresAtMostOnce(names: set<string>, es: seq<Event>, schedule: string, firedFor: Stamp)
    requires Plain(names) && schedule in names && ValidRun(names, map[], es)
    ensures var s := Run(names, map[], es);
      && |TickRows(s, schedule, firedFor)| <= 1
      && |JobRows(s, JobKeyFor(schedule, firedFor))| == |TickRows(s, schedule, firedFor)|
  {
    RunKeepsInv(names, map[], es);
    RunKeepsKeys(names, map[], es);
    var s := Run(names, map[], es);
    var ticks, jobs := TickRows(s, schedule, firedFor), JobRows(s, JobKeyFor(schedule, firedFor));
    if x :| x in ticks {
      assert forall z :: z in ticks ==> z == x;
      assert ticks == {x};
      var y := RunHasItsJob(names, s, x);
      assert jobs == {y};
    } else if y :| y in jobs {
      JobHasItsTick(names, s, y, schedule, firedFor);
    } else {
      assert ticks == {} && jobs == {};
    }
  }

  lemma RunCons(names: set<string>, s: State, e: Event, es: seq<Event>)
    requires Enabled(names, s, e) && ValidRun(names, Next(names, s, e), es)
    ensures ValidRun(names, s, [e] + es) && Run(names, s, [e] + es) == Run(names, Next(names, s, e), es)
  {
    assert ([e] + es)[1..] == es;
  }

  lemma {:induction false} RunConcat(names: set<string>, s: State, a: seq<Event>, b: seq<Event>)
    requires ValidRun(names, s, a) && ValidRun(names, Run(names, s, a), b)
    ensures ValidRun(names, s, a + b) && Run(names, s, a + b) == Run(names, Run(names, s, a), b)
    decreases |a|
  {
    if a == [] {
      assert a + b == b;
    } else {
      RunConcat(names, Next(names, s, a[0]), a[1..], b);
      RunCons(names, s, a[0], a[1..] + b);
      assert a + b == [a[0]] + (a[1..] + b);
    }
  }

  ghost predicate TicksMatchJobs(names: set<string>) {
    forall es, schedule, firedFor | schedule in names && ValidRun(names, map[], es) ::
      |JobRows(Run(names, map[], es), JobKeyFor(schedule, firedFor))| ==
        |TickRows(Run(names, map[], es), schedule, firedFor)|
  }

  /** One manual run of `a`, from begin to commit. */
  lemma ManualRunAlone(names: set<string>, a: string, firedFor: Stamp) returns (es: seq<Event>)
    requires a in names
    ensures ValidRun(names, map[], es)
    ensures Run(names, map[], es) == map[0 := Tx(a, firedFor, true, ManualKeyFor(a, firedFor), Committed, true, true)]
  {
    var s1 := Next(names, map[], Begin(0, a, firedFor, true));
    var s2 := Next(names, s1, RecordManualRun(0));
    assert s2 == map[0 := Tx(a, firedFor, true, ManualKeyFor(a, firedFor), Claimed, true, false)];
    var s3 := Next(names, s2, Enqueue(0));
    assert s3 == map[0 := Tx(a, firedFor, true, ManualKeyFor(a, firedFor), Ready, true, true)];
    RunCons(names, s3, Commit(0), []);
    RunCons(names, s2, Enqueue(0), [Commit(0)] + []);
    RunCons(names, s1, RecordManualRun(0), [Enqueue(0)] + ([Commit(0)] + []));
    es := [Begin(0, a, firedFor, true)] + ([RecordManualRun(0)] + ([Enqueue(0)] + ([Commit(0)] + [])));
    RunCons(names, map[], Begin(0, a, firedFor, true), es[1..]);
  }

  /** A schedule named after another's manual runs would find its job already there. */
  lemma NameClashBreaksTheMatch(names: set<string>, a: string)
    requires a in names && a + ":manual" in names
    ensures !TicksMatchJobs(names)
  {
    var t: Stamp := "1970-01-01T00:00:00.000Z";
    var es := ManualRunAlone(names, a, t);
    var s := Run(names, map[], es);
    assert HoldsJob(s[0], JobKeyFor(a + ":manual", t));
    assert 0 in JobRows(s, JobKeyFor(a + ":manual", t));
    assert TickRows(s, a + ":manual", t) == {};
  }

  /** Tick rows and job rows agree over every run exactly when no schedule is so named. */
  lemma TicksMatchJobsIffPlain(names: set<string>)
    ensures TicksMatchJobs(names) <==> Plain(names)
  {
    if Plain(names) {
      forall es, schedule, firedFor | schedule in names && ValidRun(names, map[], es)
        ensures |JobRows(Run(names, map[], es), JobKeyFor(schedule, firedFor))| ==
          |TickRows(Run(names, map[], es), schedule, firedFor)|
      {
        EachTickFiresAtMostOnce(names, es, schedule, firedFor);
      }
    } else {
      var a, b :| a in names && b in names && b == a + ":manual";
      NameClashBreaksTheMatch(names, a);
    }
  }

  /** A manual run never lacks its job, and never shares it with a tick. */
  lemma ManualRunsHaveTheirJob(names: set<string>, es: seq<Event>, x: nat)
    requires Plain(names) && ValidRun(names, map[], es) && x in Run(names, map[], es)
    requires var t := Run(names, map[], es)[x]; t.manual && t.row && Finished(t)
    ensures var s := Run(names, map[], es);
      && x in s && |JobRows(s, s[x].key)| == 1
      && forall y :: y in JobRows(s, s[x].key) ==> s[y].manual
  {
    RunKeepsInv(names, map[], es);
    RunKeepsKeys(names, map[], es);
    var s := Run(names, map[], es);
    PlainKeysTell(names, s);
    var y := RunHasItsJob(names, s, x);
    assert y in JobRows(s, s[x].key);
  }

  /** The claim decides everything: its owner's enqueue never waits and is never skipped. */
  lemma OwnerNeverWaits(names: set<string>, es: seq<Event>, x: nat)
    requires Plain(names) && ValidRun(names, map[], es)
    requires x in Run(names, map[], es)
    requires var t := Run(names, map[], es)[x]; t.phase == Claimed && !t.manual
    ensures var s := Run(names, map[], es);
      Enabled(names, s, Enqueue(x)) && Next(names, s, Enqueue(x))[x].job
  {
    RunKeepsInv(names, map[], es);
    RunKeepsKeys(names, map[], es);
    var s := Run(names, map[], es);
    PlainKeysTell(names, s);
    forall y | y in s && HoldsJob(s[y], s[x].key)
      ensures false
    {
      assert HoldsTick(s[y], s[x].schedule, s[x].firedFor);
    }
  }

  /** A claim that rolls back leaves nothing behind, so the next pass can claim the tick. */
  lemma RolledBackTickCanBeClaimed(names: set<string>, es: seq<Event>, x: nat)
    requires ValidRun(names, map[], es)
    requires x in Run(names, map[], es)
    requires var t := Run(names, map[], es)[x]; t.row && !t.manual && !Finished(t)
    ensures var s := Run(names, map[], es);
      var retry := [Rollback(x), Begin(x, s[x].schedule, s[x].firedFor, false), ClaimTick(x)];
      ValidRun(names, s, retry) && x in Run(names, s, retry) && Run(names, s, retry)[x].phase == Claimed
  {
    RunKeepsInv(names, map[], es);
    var s := Run(names, map[], es);
    var a, b, c := Rollback(x), Begin(x, s[x].schedule, s[x].firedFor, false), ClaimTick(x);
    var s1 := Next(names, s, a);
    var s2 := Next(names, s1, b);
    assert Enabled(names, s2, c);
    var s3 := Next(names, s2, c);
    assert s3[x].phase == Claimed;
    assert ValidRun(names, s3, []) && Run(names, s3, []) == s3;
    assert ValidRun(names, s2, [c]) && Run(names, s2, [c]) == s3 by { assert [c][1..] == []; }
    assert ValidRun(names, s1, [b, c]) && Run(names, s1, [b, c]) == s3 by { assert [b, c][1..] == [c]; }
    assert [a, b, c][1..] == [b, c];
  }

  // --- Manual runs change nothing a tick can see -------------------------------------------

  /** Which of the run's transactions are manual, as their `Begin` said. */
  function Ticks(s: State): State {
    map x | x in s && !s[x].manual :: s[x]
  }

  predicate IsManual(s: State, e: Event) {
    if e.Begin? then e.manual else e.x in s && s[e.x].manual
  }

  /** The same run with every event of a manual transaction left out. */
  function WithoutManual(names: set<string>, s: State, es: seq<Event>): seq<Event>
    requires ValidRun(names, s, es)
    decreases |es|
  {
    if es == [] then []
    else (if IsManual(s, es[0]) then [] else [es[0]]) + WithoutManual(names, Next(names, s, es[0]), es[1..])
  }

  lemma ClaimIgnoresManual(names: set<string>, s: State, e: Event)
    requires Enabled(names, s, e) && e.ClaimTick?
    ensures Enabled(names, Ticks(s), e) && Next(names, Ticks(s), e) == Ticks(Next(names, s, e))
  {
    forall y | y in s && HoldsTick(s[y], s[e.x].schedule, s[e.x].firedFor)
      ensures y in Ticks(s)
    {}
  }

  lemma EnqueueIgnoresManual(names: set<string>, s: State, e: Event)
    requires KeysTell(s) && Enabled(names, s, e) && e.Enqueue? && !IsManual(s, e)
    ensures Enabled(names, Ticks(s), e) && Next(names, Ticks(s), e) == Ticks(Next(names, s, e))
  {
    forall y | y in s && HoldsJob(s[y], s[e.x].key)
      ensures y in Ticks(s)
    {}
  }

  lemma TickStepIgnoresManual(names: set<string>, s: State, e: Event)
    requires KeysTell(s) && Enabled(names, s, e) && !IsManual(s, e)
    ensures Enabled(names, Ticks(s), e) && Next(names, Ticks(s), e) == Ticks(Next(names, s, e))
  {
    match e {
      case ClaimTick(_) => ClaimIgnoresManual(names, s, e);
      case Enqueue(_) => EnqueueIgnoresManual(names, s, e);
      case _ =>
    }
  }

  lemma ManualStepIsInvisible(names: set<string>, s: State, e: Event)
    requires Enabled(names, s, e) && IsManual(s, e)
    ensures Ticks(Next(names, s, e)) == Ticks(s)
  {}

  /** Leaving every manual run out of a run leaves a run with exactly the same ticks. */
  lemma {:induction false} ManualRunsAreInvisibleToTicks(names: set<string>, s: State, es: seq<Event>)
    requires Plain(names) && Inv(names, s) && Keyed(s) && ValidRun(names, s, es)
    ensures ValidRun(names, Ticks(s), WithoutManual(names, s, es))
    ensures Run(names, Ticks(s), WithoutManual(names, s, es)) == Ticks(Run(names, s, es))
    decreases |es|
  {
    if es == [] {
    } else {
      var e, s' := es[0], Next(names, s, es[0]);
      StepKeepsUnique(names, s, e);
      forall x | x in s' { StepKeepsJob(names, s, e, x); }
      StepKeepsKeys(names, s, e);
      ManualRunsAreInvisibleToTicks(names, s', es[1..]);
      var rest := WithoutManual(names, s', es[1..]);
      if IsManual(s, e) {
        ManualStepIsInvisible(names, s, e);
        assert WithoutManual(names, s, es) == rest;
      } else {
        PlainKeysTell(names, s);
        TickStepIgnoresManual(names, s, e);
        assert ([e] + rest)[1..] == rest;
      }
    }
  }
}
