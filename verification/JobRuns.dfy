/**
  Every run of the queue: any number of workers, reapers and administrators, whose single
  statements interleave in any order, with crashes between them.

  `ledger` is history. No step reads it.
 */
module JobRuns {
  import opened Collections
  import opened Wrappers
  import opened Selection
  import opened Jobs

  /** The `nth` claim of a job, counted from zero. */
  datatype ExecKey = ExecKey(job: RowId, nth: nat)

  /** An execution whose `runJob` has not finished, and the row as its claim returned it. */
  datatype Exec = Exec(row: ClaimedJob, claimedAt: Time)

  datatype Ledger = Ledger(claims: nat, retries: nat, reaps: nat, requeues: nat)

  datatype State = State(table: Table, execs: map<ExecKey, Exec>, ledger: map<RowId, Ledger>, now: Time)

  datatype Event =
    | Insert(id: RowId, row: NewJob)
    | TakeRows(ids: set<RowId>, worker: string)
    /** `heard` is false when the success was written but its acknowledgement was lost, so
        that `runJob` falls into its catch branch and will report again. */
    | Finish(key: ExecKey, verdict: Verdict, heard: bool)
    | Die(key: ExecKey)
    | ReapOlder(cutoff: Time)
    | Requeue(target: RowId)
    | Cancel(target: RowId)
    | Wait(until: Time)

  function Start(now: Time): State {
    State(map[], map[], map[], now)
  }

  predicate Enabled(s: State, e: Event) {
    match e
    case Insert(id, row) => id !in s.table && Accepts(s.table, row)
    case TakeRows(ids, _) => forall id :: id in ids ==> Claimable(s.table, id, s.now)
    case Finish(key, verdict, heard) => key in s.execs && (heard || verdict.Success?)
    case Die(key) => key in s.execs
    case ReapOlder(_) => true
    case Requeue(target) => target in s.table
    case Cancel(target) => target in s.table
    case Wait(until) => s.now <= until
  }

  function Snapshot(t: Table, id: RowId): ClaimedJob
    requires id in t
  {
    ClaimedJob(id, t[id].name, t[id].attempts + 1, t[id].maxAttempts)
  }

  function TakenExecs(s: State, ids: set<RowId>): map<ExecKey, Exec>
    requires ids <= s.table.Keys
  {
    map id | id in ids && id in s.ledger :: ExecKey(id, s.ledger[id].claims) := Exec(Snapshot(s.table, id), s.now)
  }

  function Next(s: State, e: Event): State
    requires Enabled(s, e)
  {
    match e
    case Insert(id, row) =>
      s.(table := s.table[id := FreshJob(row)], ledger := s.ledger[id := Ledger(0, 0, 0, 0)])
    case TakeRows(ids, worker) =>
      s.(table := Claim(s.table, ids, s.now, worker),
         execs := s.execs + TakenExecs(s, ids),
         ledger := map id | id in s.ledger ::
           if id in ids then s.ledger[id].(claims := s.ledger[id].claims + 1) else s.ledger[id])
    case Finish(key, verdict, heard) =>
      var row := s.execs[key].row;
      s.(table := Report(s.table, row, verdict, s.now),
         execs := if heard then s.execs - {key} else s.execs,
         ledger := if row.id in s.ledger && !verdict.Success? && RetryAt(row, verdict, s.now).Some?
           then s.ledger[row.id := s.ledger[row.id].(retries := s.ledger[row.id].retries + 1)]
           else s.ledger)
    case Die(key) => s.(execs := s.execs - {key})
    case ReapOlder(cutoff) =>
      s.(table := Reap(s.table, cutoff),
         ledger := map id | id in s.ledger ::
           if id in s.table && Stale(s.table[id], cutoff) then s.ledger[id].(reaps := s.ledger[id].reaps + 1)
           else s.ledger[id])
    case Requeue(target) =>
      s.(table := s.table[target := RequeuedRow(s.table[target], s.now)],
         ledger := if target in s.ledger
           then s.ledger[target := s.ledger[target].(requeues := s.ledger[target].requeues + 1)]
           else s.ledger)
    case Cancel(target) => s.(table := s.table[target := CancelledRow(s.table[target], s.now)])
    case Wait(until) => s.(now := until)
  }

  predicate ValidRun(s: State, es: seq<Event>)
    decreases |es|
  {
    es == [] || (Enabled(s, es[0]) && ValidRun(Next(s, es[0]), es[1..]))
  }

  function Run(s: State, es: seq<Event>): State
    requires ValidRun(s, es)
    decreases |es|
  {
    if es == [] then s else Run(Next(s, es[0]), es[1..])
  }

  /** The claim statement is one `TakeRows`: of the rows it picks, all are claimable, and what
      it returns is what the new executions hold. */
  lemma ClaimStatementIsAStep(s: State, limit: nat, worker: string, locked: set<RowId>)
    requires s.ledger.Keys == s.table.Keys
    ensures var picked := Picked(s.table, s.now, locked, limit);
      var e := TakeRows(Members(picked), worker);
      && Enabled(s, e)
      && Next(s, e).table == Claim(s.table, Members(picked), s.now, worker)
      && forall i :: 0 <= i < |picked| ==>
           var key := ExecKey(picked[i], s.ledger[picked[i]].claims);
           key in Next(s, e).execs && Next(s, e).execs[key] == Exec(Snapshots(s.table, picked)[i], s.now)
  {
    var picked := Picked(s.table, s.now, locked, limit);
    var taken := TakenExecs(s, Members(picked));
    forall i | 0 <= i < |picked|
      ensures var key := ExecKey(picked[i], s.ledger[picked[i]].claims);
        key in taken && taken[key] == Exec(Snapshots(s.table, picked)[i], s.now)
    {
      assert picked[i] in Members(picked);
    }
  }

  /** The events that put these reports on the table, and end the execution. */
  function ReportEvents(key: ExecKey, vs: seq<Verdict>): seq<Event> {
    if vs == [] then [Die(key)]
    else if |vs| == 1 then [Finish(key, vs[0], true)]
    else [Finish(key, vs[0], false), Finish(key, vs[1], true)]
  }

  lemma RunCons(s: State, e: Event, es: seq<Event>)
    requires Enabled(s, e) && ValidRun(Next(s, e), es)
    ensures ValidRun(s, [e] + es) && Run(s, [e] + es) == Run(Next(s, e), es)
  {
    assert ([e] + es)[1..] == es;
  }

  ghost predicate Reported(s: State, s': State, key: ExecKey, vs: seq<Verdict>)
    requires key in s.execs
  {
    s'.execs == s.execs - {key} && s'.table == Reports(s.table, s.execs[key].row, vs, s.now)
  }

  lemma OneReportIsARun(s: State, key: ExecKey, v: Verdict)
    requires key in s.execs
    ensures ValidRun(s, [Finish(key, v, true)]) && Reported(s, Run(s, [Finish(key, v, true)]), key, [v])
  {
    RunCons(s, Finish(key, v, true), []);
    assert [Finish(key, v, true)] + [] == [Finish(key, v, true)];
    ReportsFollow(s.table, s.execs[key].row, [], v, s.now);
    assert [] + [v] == [v];
  }

  lemma TwoReportsAreARun(s: State, key: ExecKey, v: Verdict)
    requires key in s.execs
    ensures var es := [Finish(key, Success, false), Finish(key, v, true)];
      ValidRun(s, es) && Reported(s, Run(s, es), key, [Success, v])
  {
    var e, f := Finish(key, Success, false), Finish(key, v, true);
    var t := Next(s, e);
    assert t.execs == s.execs && t.now == s.now;
    RunCons(t, f, []);
    RunCons(s, e, [f] + []);
    assert [e] + ([f] + []) == [e, f];
    ReportsFollow(s.table, s.execs[key].row, [], Success, s.now);
    ReportsFollow(s.table, s.execs[key].row, [Success], v, s.now);
    assert [] + [Success] == [Success] && [Success] + [v] == [Success, v];
  }

  /** However its records go, what `runJob` writes is one run of these steps. */
  lemma RunJobIsARun(s: State, key: ExecKey, outcome: Verdict, r: Recording)
    requires key in s.execs && !outcome.Unrunnable?
    ensures var es := ReportEvents(key, Reached(outcome, r));
      ValidRun(s, es) && Reported(s, Run(s, es), key, Reached(outcome, r))
  {
    var vs := Reached(outcome, r);
    if vs == [] {
      RunCons(s, Die(key), []);
      assert [Die(key)] + [] == [Die(key)];
    } else if |vs| == 1 {
      assert vs == [vs[0]];
      OneReportIsARun(s, key, vs[0]);
    } else {
      assert vs == [Success, vs[1]];
      TwoReportsAreARun(s, key, vs[1]);
    }
  }

  // --- The bound on claims -----------------------------------------------------------------

  function Max(a: int, b: int): int { if a < b then b else a }

  /** Executions of `id` that would still ask for a retry if they failed. */
  function Hopeful(s: State, id: RowId): set<ExecKey>
    requires id in s.table
  {
    set k | k in s.execs && k.job == id && s.execs[k].row.attempts < s.table[id].maxAttempts
  }

  ghost predicate Bookkept(s: State) {
    && s.ledger.Keys == s.table.Keys
    && (forall id :: id in s.table ==> s.table[id].attempts <= s.ledger[id].claims)
    && (forall k :: k in s.execs ==>
          && k.job in s.table
          && k.nth < s.ledger[k.job].claims
          && s.execs[k].row.id == k.job
          && s.execs[k].row.maxAttempts == s.table[k.job].maxAttempts)
  }

  /** A claim needs a pending row, and each way of becoming pending is counted. */
  ghost predicate ClaimsPaidFor(s: State, id: RowId)
    requires id in s.table && id in s.ledger
  {
    var l := s.ledger[id];
    l.claims + (if s.table[id].status == Pending then 1 else 0) <= 1 + l.retries + l.reaps + l.requeues
  }

  /** Retries taken, retries still in flight and retries a later claim could start, per requeue. */
  predicate WithinBudget(maxAttempts: int, attempts: nat, retries: nat, hopeful: nat, requeues: nat) {
    retries + hopeful + Max(0, maxAttempts - 1 - attempts) <= Budget(maxAttempts, requeues)
  }

  /** `maxAttempts - 1` retries to begin with, and as many again for each requeue. */
  function Budget(maxAttempts: int, requeues: nat): int {
    Max(0, maxAttempts - 1) + (if requeues == 0 then 0 else Budget(maxAttempts, requeues - 1))
  }

  lemma {:induction false} BudgetIsProduct(maxAttempts: int, requeues: nat)
    ensures Budget(maxAttempts, requeues) + (1 + requeues) == Max(1, maxAttempts) * (1 + requeues)
    decreases requeues
  {
    if requeues == 0 {
    } else {
      BudgetIsProduct(maxAttempts, requeues - 1);
      assert Max(1, maxAttempts) * (1 + requeues) == Max(1, maxAttempts) * requeues + Max(1, maxAttempts);
    }
  }

  ghost predicate RetriesBudgeted(s: State, id: RowId)
    requires id in s.table && id in s.ledger
  {
    var j, l := s.table[id], s.ledger[id];
    WithinBudget(j.maxAttempts, j.attempts, l.retries, |Hopeful(s, id)|, l.requeues)
  }

  ghost predicate Accounted(s: State) {
    && Bookkept(s)
    && forall id :: id in s.table ==> ClaimsPaidFor(s, id) && RetriesBudgeted(s, id)
  }

  lemma TakeBookkept(s: State, e: Event)
    requires Bookkept(s) && e.TakeRows? && Enabled(s, e)
    ensures Bookkept(Next(s, e))
  {
    var s' := Next(s, e);
    forall k | k in s'.execs
      ensures k.job in s'.table && k.nth < s'.ledger[k.job].claims
      ensures s'.execs[k].row.id == k.job && s'.execs[k].row.maxAttempts == s'.table[k.job].maxAttempts
    {
      if k in s.execs && k !in TakenExecs(s, e.ids) {
        assert s'.execs[k] == s.execs[k];
      }
    }
  }

  lemma FinishBookkept(s: State, e: Event)
    requires Bookkept(s) && e.Finish? && Enabled(s, e)
    ensures Bookkept(Next(s, e))
  {}

  lemma QuietBookkept(s: State, e: Event)
    requires Bookkept(s) && Enabled(s, e) && !e.TakeRows? && !e.Finish?
    ensures Bookkept(Next(s, e))
  {}

  /** The executions a claim of `id` starts that would ask for a retry. */
  function HopefulStarted(s: State, e: Event, id: RowId): set<ExecKey>
    requires e.TakeRows? && id in s.table && id in s.ledger
  {
    if id in e.ids && s.table[id].attempts + 1 < s.table[id].maxAttempts then {ExecKey(id, s.ledger[id].claims)} else {}
  }

  lemma HopefulAfterTake(s: State, e: Event, id: RowId)
    requires Bookkept(s) && e.TakeRows? && Enabled(s, e) && id in s.table
    ensures |Hopeful(Next(s, e), id)| <= |Hopeful(s, id)| + |HopefulStarted(s, e, id)|
  {
    var s' := Next(s, e);
    forall k | k in Hopeful(s', id)
      ensures k in Hopeful(s, id) + HopefulStarted(s, e, id)
    {
      if k in TakenExecs(s, e.ids) {
        assert k == ExecKey(id, s.ledger[id].claims);
      }
    }
    Smaller(Hopeful(s', id), Hopeful(s, id) + HopefulStarted(s, e, id));
  }

  lemma TakenRow(s: State, e: Event, id: RowId)
    requires Bookkept(s) && e.TakeRows? && Enabled(s, e) && id in s.table
    ensures var s', taken := Next(s, e), id in e.ids;
      && id in s'.table && id in s'.ledger
      && s'.table[id].maxAttempts == s.table[id].maxAttempts
      && s'.table[id].attempts == s.table[id].attempts + (if taken then 1 else 0)
      && s'.ledger[id] == s.ledger[id].(claims := s.ledger[id].claims + (if taken then 1 else 0))
      && (taken ==> s.table[id].status == Pending && s'.table[id].status == Running)
      && (!taken ==> s'.table[id].status == s.table[id].status)
  {}

  lemma TakeFitsBudget(maxAttempts: int, attempts: nat, retries: nat, hopeful: nat, hopeful': nat, requeues: nat)
    requires WithinBudget(maxAttempts, attempts, retries, hopeful, requeues)
    requires hopeful' <= hopeful + (if attempts + 1 < maxAttempts then 1 else 0)
    ensures WithinBudget(maxAttempts, attempts + 1, retries, hopeful', requeues)
  {}

  lemma TakeKeepsBudget(s: State, e: Event, id: RowId)
    requires Bookkept(s) && e.TakeRows? && Enabled(s, e) && id in s.table && RetriesBudgeted(s, id)
    ensures id in Next(s, e).ledger && RetriesBudgeted(Next(s, e), id)
  {
    TakenRow(s, e, id);
    HopefulAfterTake(s, e, id);
    if id in e.ids {
      var j, l := s.table[id], s.ledger[id];
      TakeFitsBudget(j.maxAttempts, j.attempts, l.retries, |Hopeful(s, id)|, |Hopeful(Next(s, e), id)|, l.requeues);
    }
  }

  lemma TakeRowAccounted(s: State, e: Event, id: RowId)
    requires Bookkept(s) && e.TakeRows? && Enabled(s, e) && id in s.table
    requires ClaimsPaidFor(s, id) && RetriesBudgeted(s, id)
    ensures id in Next(s, e).ledger && ClaimsPaidFor(Next(s, e), id) && RetriesBudgeted(Next(s, e), id)
  {
    TakenRow(s, e, id);
    TakeKeepsBudget(s, e, id);
  }

  lemma FinishRowAccounted(s: State, e: Event, id: RowId)
    requires Bookkept(s) && e.Finish? && Enabled(s, e) && id in s.table
    requires ClaimsPaidFor(s, id) && RetriesBudgeted(s, id)
    ensures id in Next(s, e).ledger && ClaimsPaidFor(Next(s, e), id) && RetriesBudgeted(Next(s, e), id)
  {
    var s' := Next(s, e);
    var row := s.execs[e.key].row;
    if id == row.id && !e.verdict.Success? && RetryAt(row, e.verdict, s.now).Some? {
      assert e.key in Hopeful(s, id) && Hopeful(s', id) == Hopeful(s, id) - {e.key};
    } else {
      Smaller(Hopeful(s', id), Hopeful(s, id));
    }
  }

  lemma RequeueRowAccounted(s: State, e: Event, id: RowId)
    requires Bookkept(s) && e.Requeue? && Enabled(s, e) && id in s.table
    requires ClaimsPaidFor(s, id) && RetriesBudgeted(s, id)
    ensures id in Next(s, e).ledger && ClaimsPaidFor(Next(s, e), id) && RetriesBudgeted(Next(s, e), id)
  {
    assert Hopeful(Next(s, e), id) == Hopeful(s, id);
  }

  lemma QuietRowAccounted(s: State, e: Event, id: RowId)
    requires Bookkept(s) && Enabled(s, e) && id in Next(s, e).table
    requires e.Insert? || e.Die? || e.ReapOlder? || e.Cancel? || e.Wait?
    requires id in s.table ==> ClaimsPaidFor(s, id) && RetriesBudgeted(s, id)
    ensures id in Next(s, e).ledger && ClaimsPaidFor(Next(s, e), id) && RetriesBudgeted(Next(s, e), id)
  {
    var s' := Next(s, e);
    if id in s.table {
      Smaller(Hopeful(s', id), Hopeful(s, id));
    } else {
      assert Hopeful(s', id) == {};
    }
  }

  lemma StepAccounted(s: State, e: Event)
    requires Accounted(s) && Enabled(s, e)
    ensures Accounted(Next(s, e))
  {
    match e {
      case TakeRows(_, _) => TakeBookkept(s, e);
      case Finish(_, _, _) => FinishBookkept(s, e);
      case _ => QuietBookkept(s, e);
    }
    forall id | id in Next(s, e).table
      ensures ClaimsPaidFor(Next(s, e), id) && RetriesBudgeted(Next(s, e), id)
    {
      match e {
        case TakeRows(_, _) => TakeRowAccounted(s, e, id);
        case Finish(_, _, _) => FinishRowAccounted(s, e, id);
        case Requeue(_) => RequeueRowAccounted(s, e, id);
        case _ => QuietRowAccounted(s, e, id);
      }
    }
  }

  lemma {:induction false} RunAccounted(s: State, es: seq<Event>)
    requires Accounted(s) && ValidRun(s, es)
    ensures Accounted(Run(s, es))
    decreases |es|
  {
    if es == [] {
    } else {
      StepAccounted(s, es[0]);
      RunAccounted(Next(s, es[0]), es[1..]);
    }
  }

  function ClaimBound(maxAttempts: int, requeues: nat, reaps: nat): int {
    Max(1, maxAttempts) * (1 + requeues) + reaps
  }

  /** Whatever the interleaving, late reports of reaped workers included. A job whose claims
      have reached the bound is not pending, so it is never claimed again unless it is
      reaped or requeued. */
  lemma ClaimsAreBounded(now: Time, es: seq<Event>, id: RowId)
    requires ValidRun(Start(now), es) && id in Run(Start(now), es).table
    ensures var s := Run(Start(now), es);
      && id in s.ledger
      && s.ledger[id].claims + (if s.table[id].status == Pending then 1 else 0)
           <= ClaimBound(s.table[id].maxAttempts, s.ledger[id].requeues, s.ledger[id].reaps)
  {
    RunAccounted(Start(now), es);
    var s := Run(Start(now), es);
    assert ClaimsPaidFor(s, id) && RetriesBudgeted(s, id);
    BudgetIsProduct(s.table[id].maxAttempts, s.ledger[id].requeues);
  }

  lemma AttemptsWithoutReaping(now: Time, es: seq<Event>, id: RowId)
    requires ValidRun(Start(now), es) && id in Run(Start(now), es).table
    requires id in Run(Start(now), es).ledger
    requires Run(Start(now), es).ledger[id].reaps == 0 && Run(Start(now), es).ledger[id].requeues == 0
    ensures var j := Run(Start(now), es).table[id];
      && j.attempts <= Max(1, j.maxAttempts)
      && (j.attempts == Max(1, j.maxAttempts) ==> j.status != Pending)
  {
    RunAccounted(Start(now), es);
    ClaimsAreBounded(now, es, id);
  }

  // --- The bound is reached ----------------------------------------------------------------

  ghost predicate Reachable(s: State) {
    exists es :: ValidRun(Start(0), es) && Run(Start(0), es) == s
  }

  lemma {:induction false} RunAppend(s: State, es: seq<Event>, e: Event)
    requires ValidRun(s, es) && Enabled(Run(s, es), e)
    ensures ValidRun(s, es + [e]) && Run(s, es + [e]) == Next(Run(s, es), e)
    decreases |es|
  {
    if es == [] {
      assert es + [e] == [e];
      assert ValidRun(Next(s, e), []);
    } else {
      assert (es + [e])[1..] == es[1..] + [e];
      RunAppend(Next(s, es[0]), es[1..], e);
    }
  }

  lemma ReachableStep(s: State, e: Event)
    requires Reachable(s) && Enabled(s, e)
    ensures Reachable(Next(s, e)) && Accounted(s)
  {
    var es :| ValidRun(Start(0), es) && Run(Start(0), es) == s;
    RunAppend(Start(0), es, e);
    RunAccounted(Start(0), es);
  }

  /** Row 0 is ready to be claimed, with this history. */
  ghost predicate Ready(s: State, m: int, attempts: nat, l: Ledger) {
    && Reachable(s)
    && 0 in s.table && s.table[0].status == Pending && s.table[0].runAt <= s.now
    && s.table[0].maxAttempts == m && s.table[0].attempts == attempts
    && 0 in s.ledger && s.ledger[0] == l
  }

  lemma TakenAlone(s: State, id: RowId)
    requires id in s.table && id in s.ledger
    ensures var key := ExecKey(id, s.ledger[id].claims);
      s.execs + TakenExecs(s, {id}) == s.execs[key := Exec(Snapshot(s.table, id), s.now)]
  {
    var key := ExecKey(id, s.ledger[id].claims);
    assert key in TakenExecs(s, {id}) && TakenExecs(s, {id}).Keys == {key};
  }

  lemma ClaimRowZero(s: State, m: int, a: nat, l: Ledger) returns (s': State, key: ExecKey)
    requires Ready(s, m, a, l)
    ensures Reachable(s') && 0 in s'.table && s'.table == Claim(s.table, {0}, s.now, "w") && s'.now == s.now
    ensures 0 in s'.ledger && s'.ledger[0] == l.(claims := l.claims + 1)
    ensures key == ExecKey(0, l.claims) && s'.execs == s.execs[key := Exec(Snapshot(s.table, 0), s.now)]
  {
    var e := TakeRows({0}, "w");
    ReachableStep(s, e);
    s', key := Next(s, e), ExecKey(0, l.claims);
    TakenAlone(s, 0);
  }

  lemma ClaimAndFail(s: State, m: int, a: nat, l: Ledger) returns (s': State)
    requires Ready(s, m, a, l) && a + 1 < m
    ensures Ready(s', m, a + 1, l.(claims := l.claims + 1, retries := l.retries + 1))
  {
    var t, key := ClaimRowZero(s, m, a, l);
    var e := Finish(key, Failure("", 0), true);
    ReachableStep(t, e);
    s' := Next(t, e);
  }

  lemma ClaimAndReap(s: State, m: int, a: nat, l: Ledger) returns (s': State)
    requires Ready(s, m, a, l)
    ensures Ready(s', m, a + 1, l.(claims := l.claims + 1, reaps := l.reaps + 1))
  {
    var t, _ := ClaimRowZero(s, m, a, l);
    var e := ReapOlder(t.now + 1);
    ReachableStep(t, e);
    s' := Next(t, e);
  }

  lemma {:induction false} FailUntilLast(s: State, m: int, a: nat, l: Ledger) returns (s': State)
    requires Ready(s, m, a, l) && a <= Max(1, m) - 1
    ensures exists l' ::
      && Ready(s', m, Max(1, m) - 1, l')
      && l'.claims == l.claims + Max(1, m) - 1 - a && l'.reaps == l.reaps && l'.requeues == l.requeues
    decreases m - a
  {
    if a + 1 < m {
      var t := ClaimAndFail(s, m, a, l);
      s' := FailUntilLast(t, m, a + 1, l.(claims := l.claims + 1, retries := l.retries + 1));
    } else {
      s' := s;
    }
  }

  lemma {:induction false} ReapTimes(s: State, m: int, a: nat, l: Ledger, r: nat) returns (s': State)
    requires Ready(s, m, a, l)
    ensures Ready(s', m, a + r, l.(claims := l.claims + r, reaps := l.reaps + r))
    decreases r
  {
    if r == 0 {
      s' := s;
    } else {
      var t := ClaimAndReap(s, m, a, l);
      s' := ReapTimes(t, m, a + 1, l.(claims := l.claims + 1, reaps := l.reaps + 1), r - 1);
    }
  }

  /** Run the budget down, fail for the last time, and be requeued. */
  lemma RequeueOnce(s: State, m: int, l: Ledger) returns (s': State, l': Ledger)
    requires Ready(s, m, 0, l) && l.reaps == 0
    ensures Ready(s', m, 0, l')
    ensures l'.claims == l.claims + Max(1, m) && l'.reaps == 0 && l'.requeues == l.requeues + 1
  {
    var t := FailUntilLast(s, m, 0, l);
    var k :| Ready(t, m, Max(1, m) - 1, k)
      && k.claims == l.claims + Max(1, m) - 1 && k.reaps == 0 && k.requeues == l.requeues;
    var u, _ := ClaimRowZero(t, m, Max(1, m) - 1, k);
    ReachableStep(u, Requeue(0));
    s', l' := Next(u, Requeue(0)), k.(claims := k.claims + 1, requeues := k.requeues + 1);
  }

  lemma {:induction false} RequeueTimes(s: State, m: int, l: Ledger, q: nat) returns (s': State, l': Ledger)
    requires Ready(s, m, 0, l) && l.reaps == 0
    ensures Ready(s', m, 0, l')
    ensures l'.claims == l.claims + Max(1, m) * q && l'.reaps == 0 && l'.requeues == l.requeues + q
    decreases q
  {
    if q == 0 {
      s', l' := s, l;
    } else {
      var t, k := RequeueOnce(s, m, l);
      s', l' := RequeueTimes(t, m, k, q - 1);
      assert Max(1, m) * q == Max(1, m) * (q - 1) + Max(1, m);
    }
  }

  lemma FirstInsert(m: int) returns (s: State)
    ensures Ready(s, m, 0, Ledger(0, 0, 0, 0)) && s.execs == map[] && s.now == 0
    ensures s.table == map[0 := FreshJob(NewJob("", 0, m, None))]
  {
    assert ValidRun(Start(0), []) && Reachable(Start(0));
    var e := Insert(0, NewJob("", 0, m, None));
    ReachableStep(Start(0), e);
    s := Next(Start(0), e);
  }

  /** Spend the last budget, be reaped `r` times, and be claimed once more. */
  lemma SpendAndReap(s: State, m: int, l: Ledger, r: nat) returns (s': State)
    requires Ready(s, m, 0, l) && l.reaps == 0
    ensures Reachable(s') && 0 in s'.table && 0 in s'.ledger && s'.table[0].maxAttempts == m
    ensures s'.ledger[0].claims == l.claims + Max(1, m) + r
    ensures s'.ledger[0].reaps == r && s'.ledger[0].requeues == l.requeues
  {
    var t := FailUntilLast(s, m, 0, l);
    var k :| Ready(t, m, Max(1, m) - 1, k)
      && k.claims == l.claims + Max(1, m) - 1 && k.reaps == 0 && k.requeues == l.requeues;
    var u := ReapTimes(t, m, Max(1, m) - 1, k, r);
    var key;
    s', key := ClaimRowZero(u, m, Max(1, m) - 1 + r, k.(claims := k.claims + r, reaps := r));
  }

  /** The bound cannot be lowered. In particular reaping hands a job back whatever its
      attempts are, so the number of claims has no bound in `maxAttempts` alone. */
  lemma BoundIsReached(m: int, q: nat, r: nat)
    ensures exists es :: ValidRun(Start(0), es) && var s := Run(Start(0), es);
      && 0 in s.table && 0 in s.ledger && s.table[0].maxAttempts == m
      && s.ledger[0].requeues == q && s.ledger[0].reaps == r
      && s.ledger[0].claims == ClaimBound(m, q, r)
  {
    var s := FirstInsert(m);
    var t, l := RequeueTimes(s, m, Ledger(0, 0, 0, 0), q);
    var u := SpendAndReap(t, m, l, r);
    assert Max(1, m) * (1 + q) == Max(1, m) * q + Max(1, m);
  }

  // --- What every interleaving keeps -------------------------------------------------------

  /** Every row's columns agree, and a dedupe key names one row ever, finished or not. */
  ghost predicate Tidy(t: Table) {
    && (forall id :: id in t ==> WellShaped(t[id]))
    && (forall a, b :: a in t && b in t && t[a].dedupeKey.Some? && t[a].dedupeKey == t[b].dedupeKey ==> a == b)
  }

  lemma RowStaysShaped(s: State, e: Event, id: RowId)
    requires Tidy(s.table) && Enabled(s, e) && id in Next(s, e).table
    ensures WellShaped(Next(s, e).table[id])
    ensures id in s.table ==> Next(s, e).table[id].dedupeKey == s.table[id].dedupeKey
    ensures id !in s.table ==> e.Insert? && id == e.id && Next(s, e).table[id].dedupeKey == e.row.dedupeKey
  {}

  lemma StepTidy(s: State, e: Event)
    requires Tidy(s.table) && Enabled(s, e)
    ensures Tidy(Next(s, e).table)
  {
    var t, t' := s.table, Next(s, e).table;
    forall id | id in t'
      ensures WellShaped(t'[id])
      ensures id in t ==> t'[id].dedupeKey == t[id].dedupeKey
      ensures id !in t ==> e.Insert? && id == e.id && t'[id].dedupeKey == e.row.dedupeKey
    {
      RowStaysShaped(s, e, id);
    }
  }

  lemma {:induction false} EveryRunIsTidy(s: State, es: seq<Event>)
    requires Tidy(s.table) && ValidRun(s, es)
    ensures Tidy(Run(s, es).table)
    decreases |es|
  {
    if es == [] {
    } else {
      StepTidy(s, es[0]);
      EveryRunIsTidy(Next(s, es[0]), es[1..]);
    }
  }

  // --- Exclusive execution -----------------------------------------------------------------

  /**
    What the deployment promises. Every execution ends, or its worker dies, within `life` of
    its claim; the reaper leaves a row alone for `window`; and, if `guarded`, a status guard
    and the write behind it are one step.
   */
  datatype Promise = Promise(life: nat, window: nat, guarded: bool)

  /** If the guard is not one step with the write, the row may have changed in between. Every
      row was pending once; it was failed or cancelled if it is, or if it was requeued before. */
  predicate Disciplined(s: State, e: Event, p: Promise)
    requires Enabled(s, e)
  {
    match e
    case ReapOlder(cutoff) => cutoff <= s.now - p.window
    case Requeue(target) =>
      || s.table[target].status in {Failed, Cancelled}
      || (!p.guarded && target in s.ledger && s.ledger[target].requeues > 0)
    case Cancel(target) => s.table[target].status == Pending || !p.guarded
    case Wait(until) => forall k :: k in s.execs ==> until <= s.execs[k].claimedAt + p.life
    case _ => true
  }

  predicate DisciplinedRun(s: State, es: seq<Event>, p: Promise)
    ensures DisciplinedRun(s, es, p) ==> ValidRun(s, es)
    decreases |es|
  {
    es == [] ||
    (Enabled(s, es[0]) && Disciplined(s, es[0], p) && DisciplinedRun(Next(s, es[0]), es[1..], p))
  }

  predicate Sound(p: Promise) { p.guarded && p.life <= p.window }

  /** The row still carries this execution's lock, or its success, written but not heard of. */
  predicate Holds(s: State, k: ExecKey)
    requires k in s.execs
  {
    && k.job in s.table
    && var j := s.table[k.job];
       j.status == Succeeded || (j.status == Running && j.lockedAt == Some(s.execs[k].claimedAt))
  }

  /** A live execution owns its row: it is the latest claim, and in time. */
  ghost predicate Owned(s: State, life: nat) {
    && Bookkept(s)
    && forall k :: k in s.execs ==>
         Holds(s, k) && k.nth + 1 == s.ledger[k.job].claims && s.now <= s.execs[k].claimedAt + life
  }

  lemma TakeOwned(s: State, e: Event, life: nat)
    requires Owned(s, life) && e.TakeRows? && Enabled(s, e)
    ensures Owned(Next(s, e), life)
  {
    TakeBookkept(s, e);
    var s' := Next(s, e);
    forall k | k in s'.execs
      ensures Holds(s', k) && k.nth + 1 == s'.ledger[k.job].claims && s'.now <= s'.execs[k].claimedAt + life
    {
      if k in TakenExecs(s, e.ids) {
      } else {
        assert k in s.execs && Holds(s, k);
      }
    }
  }

  lemma FinishOwned(s: State, e: Event, life: nat)
    requires Owned(s, life) && e.Finish? && Enabled(s, e)
    ensures Owned(Next(s, e), life)
  {
    FinishBookkept(s, e);
    var s' := Next(s, e);
    forall k | k in s'.execs
      ensures Holds(s', k)
    {
      assert Holds(s, k);
      assert k.job == e.key.job ==> k == e.key;
    }
  }

  lemma ReapOwned(s: State, e: Event, p: Promise)
    requires Owned(s, p.life) && Sound(p) && e.ReapOlder? && Enabled(s, e) && Disciplined(s, e, p)
    ensures Owned(Next(s, e), p.life)
  {
    QuietBookkept(s, e);
    var s' := Next(s, e);
    forall k | k in s'.execs
      ensures Holds(s', k)
    {
      assert Holds(s, k) && !Stale(s.table[k.job], e.cutoff);
    }
  }

  lemma QuietOwned(s: State, e: Event, p: Promise)
    requires Owned(s, p.life) && Sound(p) && Enabled(s, e) && Disciplined(s, e, p)
    requires !e.TakeRows? && !e.Finish? && !e.ReapOlder?
    ensures Owned(Next(s, e), p.life)
  {
    QuietBookkept(s, e);
    var s' := Next(s, e);
    forall k | k in s'.execs
      ensures Holds(s', k)
    {
      assert Holds(s, k);
    }
  }

  lemma StepOwned(s: State, e: Event, p: Promise)
    requires Owned(s, p.life) && Sound(p) && Enabled(s, e) && Disciplined(s, e, p)
    ensures Owned(Next(s, e), p.life)
  {
    match e {
      case TakeRows(_, _) => TakeOwned(s, e, p.life);
      case Finish(_, _, _) => FinishOwned(s, e, p.life);
      case ReapOlder(_) => ReapOwned(s, e, p);
      case _ => QuietOwned(s, e, p);
    }
  }

  lemma {:induction false} RunOwned(s: State, es: seq<Event>, p: Promise)
    requires Owned(s, p.life) && Sound(p) && DisciplinedRun(s, es, p)
    ensures Owned(Run(s, es), p.life)
    decreases |es|
  {
    if es == [] {
    } else {
      StepOwned(s, es[0], p);
      RunOwned(Next(s, es[0]), es[1..], p);
    }
  }

  function Executing(s: State, id: RowId): set<ExecKey> {
    set k | k in s.execs && k.job == id
  }

  /** If executions do not outlive the window and the guards are atomic, no job is ever inside two
      handlers, whatever reports are lost on the way. */
  lemma AtMostOneExecution(now: Time, es: seq<Event>, p: Promise, id: RowId)
    requires Sound(p) && DisciplinedRun(Start(now), es, p)
    ensures var s := Run(Start(now), es);
      && |Executing(s, id)| <= 1
      && (Executing(s, id) != {} ==> id in s.table && s.table[id].status in {Running, Succeeded})
  {
    RunOwned(Start(now), es, p);
    var s := Run(Start(now), es);
    if k :| k in Executing(s, id) {
      assert Holds(s, k);
      assert forall k' :: k' in Executing(s, id) ==> k' == k;
      assert Executing(s, id) == {k};
    }
  }

  lemma DisciplinedCons(s: State, e: Event, es: seq<Event>, p: Promise)
    requires Enabled(s, e) && Disciplined(s, e, p) && DisciplinedRun(Next(s, e), es, p)
    ensures DisciplinedRun(s, [e] + es, p) && Run(s, [e] + es) == Run(Next(s, e), es)
  {
    assert ([e] + es)[1..] == es;
  }

  /** Only row 0 exists. It has been claimed `claims` times, by executions still alive. */
  ghost predicate Alone(s: State, claims: nat, execs: map<ExecKey, Exec>) {
    s.table.Keys == {0} && s.ledger.Keys == {0} && s.ledger[0].claims == claims && s.execs == execs
  }

  lemma TakeAlone(s: State, claims: nat, execs: map<ExecKey, Exec>) returns (s': State)
    requires Alone(s, claims, execs) && Claimable(s.table, 0, s.now)
    ensures Enabled(s, TakeRows({0}, "w")) && s' == Next(s, TakeRows({0}, "w"))
    ensures Alone(s', claims + 1, execs[ExecKey(0, claims) := Exec(Snapshot(s.table, 0), s.now)])
    ensures s'.now == s.now && s'.table[0] == ClaimRow(s.table[0], s.now, "w")
  {
    s' := Next(s, TakeRows({0}, "w"));
    TakenAlone(s, 0);
  }

  /** Row 0 is locked since 0, by the one execution there is. */
  ghost predicate FirstHeld(s: State, row: ClaimedJob) {
    && s.now == 0 && Alone(s, 1, map[ExecKey(0, 0) := Exec(row, 0)])
    && s.table[0].status == Running && s.table[0].lockedAt == Some(0) && s.table[0].runAt == 0
  }

  /** The row has been handed back, and the execution goes on. */
  ghost predicate HandedBack(s: State, es: seq<Event>, p: Promise) {
    && DisciplinedRun(s, es, p) && Alone(Run(s, es), 1, s.execs)
    && Claimable(Run(s, es).table, 0, Run(s, es).now)
  }

  /** The worker's last moment within the window, and the reaper's first after it. */
  lemma OutliveAndReap(s: State, p: Promise, row: ClaimedJob) returns (es: seq<Event>)
    requires p.life > p.window && FirstHeld(s, row)
    ensures HandedBack(s, es, p)
  {
    var wait, reap := Wait(p.window + 1), ReapOlder(1);
    var t := Next(s, wait);
    assert Stale(t.table[0], 1);
    DisciplinedCons(t, reap, [], p);
    DisciplinedCons(s, wait, [reap] + [], p);
    es := [wait] + ([reap] + []);
  }

  /** A cancellation decided while the row was pending, written after its claim, and a requeue. */
  lemma CancelAndRequeue(s: State, p: Promise, row: ClaimedJob) returns (es: seq<Event>)
    requires !p.guarded && FirstHeld(s, row)
    ensures HandedBack(s, es, p)
  {
    var cancel, requeue := Cancel(0), Requeue(0);
    var t := Next(s, cancel);
    DisciplinedCons(t, requeue, [], p);
    DisciplinedCons(s, cancel, [requeue] + [], p);
    es := [cancel] + ([requeue] + []);
  }

  lemma {:induction false} DisciplinedAppend(s: State, es: seq<Event>, e: Event, p: Promise)
    requires DisciplinedRun(s, es, p)
    requires Enabled(Run(s, es), e) && Disciplined(Run(s, es), e, p)
    ensures DisciplinedRun(s, es + [e], p) && Run(s, es + [e]) == Next(Run(s, es), e)
    decreases |es|
  {
    if es == [] {
      assert (es + [e])[1..] == [] && (es + [e])[0] == e;
    } else {
      assert (es + [e])[1..] == es[1..] + [e];
      DisciplinedAppend(Next(s, es[0]), es[1..], e, p);
    }
  }

  lemma SecondClaim(s: State, p: Promise, row: ClaimedJob) returns (es: seq<Event>)
    requires !Sound(p) && FirstHeld(s, row)
    ensures DisciplinedRun(s, es, p) && Run(s, es).execs.Keys == {ExecKey(0, 0), ExecKey(0, 1)}
  {
    if p.guarded { es := OutliveAndReap(s, p, row); } else { es := CancelAndRequeue(s, p, row); }
    var t := TakeAlone(Run(s, es), 1, s.execs);
    DisciplinedAppend(s, es, TakeRows({0}, "w"), p);
    es := es + [TakeRows({0}, "w")];
  }

  lemma ClaimTwice(s: State, p: Promise) returns (es: seq<Event>)
    requires !Sound(p) && s.now == 0 && Alone(s, 0, map[]) && Claimable(s.table, 0, 0) && s.table[0].runAt == 0
    ensures DisciplinedRun(s, es, p) && Run(s, es).execs.Keys == {ExecKey(0, 0), ExecKey(0, 1)}
  {
    var t := TakeAlone(s, 0, map[]);
    var rest := SecondClaim(t, p, Snapshot(s.table, 0));
    es := [TakeRows({0}, "w")] + rest;
    DisciplinedCons(s, TakeRows({0}, "w"), rest, p);
  }

  /** A worker that may outlive the window, or one whose row is cancelled on an old reading, can
      share its job with the worker that claims it next, though every other promise is kept. */
  lemma JobCanBeShared(p: Promise)
    requires !Sound(p)
    ensures exists es ::
      && DisciplinedRun(Start(0), es, p)
      && Executing(Run(Start(0), es), 0) == {ExecKey(0, 0), ExecKey(0, 1)}
  {
    var e := Insert(0, NewJob("", 0, 3, None));
    var es := ClaimTwice(Next(Start(0), e), p);
    DisciplinedCons(Start(0), e, es, p);
    var s := Run(Start(0), [e] + es);
    assert forall k :: k in s.execs ==> k in s.execs.Keys;
    assert Executing(s, 0) == s.execs.Keys;
  }

  ghost predicate Exclusive(p: Promise) {
    forall now, es, id | DisciplinedRun(Start(now), es, p) :: |Executing(Run(Start(now), es), id)| <= 1
  }

  /** At most one execution per job over every run that keeps the promises, exactly when no
      execution may outlive the reaper's window and the guards are atomic. */
  lemma ExclusiveIffSound(p: Promise)
    ensures Exclusive(p) <==> p.life <= p.window && p.guarded
  {
    if Sound(p) {
      forall now, es, id | DisciplinedRun(Start(now), es, p)
        ensures |Executing(Run(Start(now), es), id)| <= 1
      {
        AtMostOneExecution(now, es, p, id);
      }
    } else {
      JobCanBeShared(p);
      var es :| DisciplinedRun(Start(0), es, p)
        && Executing(Run(Start(0), es), 0) == {ExecKey(0, 0), ExecKey(0, 1)};
      assert |Executing(Run(Start(0), es), 0)| == 2;
    }
  }

  // --- The edges of the status column ------------------------------------------------------

  /** The edges the status column is drawn with. Nothing leaves `Succeeded`. */
  predicate Edge(a: Status, b: Status) {
    || a == b
    || (a == Pending && b in {Running, Cancelled})
    || (a == Running && b in {Succeeded, Failed, Pending})
    || (a in {Failed, Cancelled} && b == Pending)
  }

  predicate Heard(e: Event) { e.Finish? ==> e.heard }

  predicate HeardRun(es: seq<Event>) {
    forall e <- es :: Heard(e)
  }

  /** A failure report of the execution that already wrote `succeeded`. */
  predicate Contradicts(e: Event, id: RowId) {
    e.Finish? && e.key.job == id && !e.verdict.Success?
  }

  lemma EdgesKept(s: State, e: Event, p: Promise, id: RowId)
    requires Owned(s, p.life) && Sound(p) && Enabled(s, e) && Disciplined(s, e, p) && id in s.table
    ensures id in Next(s, e).table
    ensures var a, b := s.table[id].status, Next(s, e).table[id].status;
      && (Edge(a, b) <==> !(a == Succeeded && Contradicts(e, id)))
      && (a == Succeeded && Contradicts(e, id) ==> b in {Pending, Failed})
  {
    if e.Finish? { assert Holds(s, e.key); }
  }

  /** If every success is heard of, an execution ends with its report. */
  ghost predicate AllRunning(s: State) {
    forall k :: k in s.execs ==> k.job in s.table && s.table[k.job].status == Running
  }

  lemma StepAllRunning(s: State, e: Event, p: Promise)
    requires Owned(s, p.life) && AllRunning(s) && Sound(p)
    requires Enabled(s, e) && Disciplined(s, e, p) && Heard(e)
    ensures AllRunning(Next(s, e))
  {
    StepOwned(s, e, p);
    var s' := Next(s, e);
    forall k | k in s'.execs
      ensures k.job in s'.table && s'.table[k.job].status == Running
    {
      assert Holds(s', k);
      if k in s.execs {
        EdgesKept(s, e, p, k.job);
        assert e.Finish? ==> k != e.key;
      }
    }
  }

  lemma {:induction false} RunAllRunning(s: State, es: seq<Event>, p: Promise)
    requires Owned(s, p.life) && AllRunning(s) && Sound(p) && DisciplinedRun(s, es, p) && HeardRun(es)
    ensures AllRunning(Run(s, es))
    decreases |es|
  {
    if es == [] {
    } else {
      assert Heard(es[0]) && HeardRun(es[1..]);
      StepOwned(s, es[0], p);
      StepAllRunning(s, es[0], p);
      RunAllRunning(Next(s, es[0]), es[1..], p);
    }
  }

  /** The status moves only along the drawn edges, but for one case: an execution whose success
      was written and not heard of reports a failure, and `succeeded` becomes `pending` or
      `failed`. If every success is heard of, that case does not arise. */
  lemma StatusFollowsEdges(now: Time, es: seq<Event>, p: Promise, id: RowId, e: Event)
    requires Sound(p) && DisciplinedRun(Start(now), es, p)
    requires var s := Run(Start(now), es); Enabled(s, e) && Disciplined(s, e, p) && id in s.table
    ensures var s := Run(Start(now), es);
      && id in Next(s, e).table
      && var a, b := s.table[id].status, Next(s, e).table[id].status;
         && (Edge(a, b) <==> !(a == Succeeded && Contradicts(e, id)))
         && (a == Succeeded && Contradicts(e, id) ==> b in {Pending, Failed})
         && (HeardRun(es) ==> Edge(a, b))
  {
    RunOwned(Start(now), es, p);
    var s := Run(Start(now), es);
    EdgesKept(s, e, p, id);
    if HeardRun(es) {
      RunAllRunning(Start(now), es, p);
      assert e.Finish? ==> s.table[e.key.job].status == Running;
    }
  }
}
