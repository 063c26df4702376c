/**
  Claim statements that run at the same time, one row lock at a time.

  A claim reads its candidates in index order from the snapshot its statement started with.
  Each visit passes over a row another claim has locked, and looks again at the newest
  version of any other before locking it. The update and the release of the locks are one
  step. Any other statement may change a row in between, unless a claim holds its lock: a
  report, a requeue or the reaper may make it pending again.
 */
module ConcurrentClaims {
  import opened Collections
  import opened Selection
  import opened Jobs

  datatype Claimer = Claimer(limit: nat, at: Time, todo: seq<RowId>, held: seq<RowId>, done: bool)

  datatype State = State(table: Table, claimers: map<nat, Claimer>)

  datatype Event =
    | Begin(c: nat, limit: nat, at: Time)
    | Visit(c: nat)
    | Commit(c: nat, worker: string)
    | Abort(c: nat)
    | Write(id: RowId, row: Job)

  predicate Active(s: State, c: nat) {
    c in s.claimers && !s.claimers[c].done
  }

  ghost predicate Locked(s: State, id: RowId) {
    exists c :: Active(s, c) && id in s.claimers[c].held
  }

  ghost function Candidates(t: Table, at: Time): seq<RowId> {
    FirstN(RunTimes(t), Due(t, at), |Due(t, at)|)
  }

  predicate Scanning(k: Claimer) {
    !k.done && k.todo != [] && |k.held| < k.limit
  }

  /** `Write` is any other statement, on one of its rows. */
  ghost predicate Enabled(s: State, e: Event) {
    match e
    case Begin(c, _, _) => c !in s.claimers
    case Visit(c) => c in s.claimers && Scanning(s.claimers[c])
    case Commit(c, _) => Active(s, c) && !Scanning(s.claimers[c])
    case Abort(c) => Active(s, c)
    case Write(id, _) => !Locked(s, id)
  }

  ghost function Next(s: State, e: Event): State
    requires Enabled(s, e)
  {
    match e
    case Begin(c, limit, at) =>
      s.(claimers := s.claimers[c := Claimer(limit, at, Candidates(s.table, at), [], false)])
    case Visit(c) =>
      var k := s.claimers[c];
      var id := k.todo[0];
      var taken := !Locked(s, id) && Claimable(s.table, id, k.at);
      s.(claimers := s.claimers[c := k.(todo := k.todo[1..], held := if taken then k.held + [id] else k.held)])
    case Commit(c, worker) =>
      var k := s.claimers[c];
      State(Claim(s.table, Members(k.held), k.at, worker), s.claimers[c := k.(done := true)])
    case Abort(c) => s.(claimers := s.claimers - {c})
    case Write(id, row) => s.(table := s.table[id := row])
  }

  ghost predicate ValidRun(s: State, es: seq<Event>)
    decreases |es|
  {
    es == [] || (Enabled(s, es[0]) && ValidRun(Next(s, es[0]), es[1..]))
  }

  ghost function Run(s: State, es: seq<Event>): State
    requires ValidRun(s, es)
    decreases |es|
  {
    if es == [] then s else Run(Next(s, es[0]), es[1..])
  }

  predicate Apart(a: seq<RowId>, b: seq<RowId>) {
    forall id :: id in a ==> id !in b
  }

  predicate HoldsRows(s: State, c: nat)
    requires c in s.claimers
  {
    && Distinct(s.claimers[c].held)
    && forall id :: id in s.claimers[c].held ==> id in s.table && (Active(s, c) ==> s.table[id].status == Pending)
  }

  /** Rows held by a claim under way are pending, and held by no other claim under way. */
  ghost predicate Inv(s: State) {
    && (forall c :: c in s.claimers ==> HoldsRows(s, c))
    && (forall c, d :: Active(s, c) && Active(s, d) && c != d ==> Apart(s.claimers[c].held, s.claimers[d].held))
  }

  lemma VisitKeepsInv(s: State, e: Event)
    requires Inv(s) && e.Visit? && Enabled(s, e)
    ensures Inv(Next(s, e))
  {
    var s' := Next(s, e);
    var id := s.claimers[e.c].todo[0];
    assert !Locked(s, id) ==> forall d :: Active(s, d) ==> id !in s.claimers[d].held;
    forall c | c in s'.claimers
      ensures HoldsRows(s', c)
    {
      assert HoldsRows(s, c);
    }
  }

  lemma CommitKeepsInv(s: State, e: Event)
    requires Inv(s) && e.Commit? && Enabled(s, e)
    ensures Inv(Next(s, e))
  {
    var s' := Next(s, e);
    forall c | c in s'.claimers
      ensures HoldsRows(s', c)
    {
      assert HoldsRows(s, c);
      assert Active(s, c) && c != e.c ==> Apart(s.claimers[c].held, s.claimers[e.c].held);
    }
  }

  lemma OtherKeepsInv(s: State, e: Event)
    requires Inv(s) && !e.Visit? && !e.Commit? && Enabled(s, e)
    ensures Inv(Next(s, e))
  {
    var s' := Next(s, e);
    forall c | c in s'.claimers
      ensures HoldsRows(s', c)
    {
      if c in s.claimers {
        assert HoldsRows(s, c);
        assert e.Write? && Active(s, c) ==> e.id !in s.claimers[c].held;
      }
    }
  }

  lemma StepKeepsInv(s: State, e: Event)
    requires Inv(s) && Enabled(s, e)
    ensures Inv(Next(s, e))
  {
    match e {
      case Visit(_) => VisitKeepsInv(s, e);
      case Commit(_, _) => CommitKeepsInv(s, e);
      case _ => OtherKeepsInv(s, e);
    }
  }

  // --- Two claims never share a row --------------------------------------------------------

  const NOBODY: map<nat, Claimer> := map[]

  /** The same run, read from its end. */
  lemma {:induction false} LastStep(s: State, es: seq<Event>)
    requires es != [] && ValidRun(s, es)
    ensures ValidRun(s, es[..|es| - 1]) && Enabled(Run(s, es[..|es| - 1]), es[|es| - 1])
    ensures Run(s, es) == Next(Run(s, es[..|es| - 1]), es[|es| - 1])
    decreases |es|
  {
    var init := es[..|es| - 1];
    if |es| > 1 {
      LastStep(Next(s, es[0]), es[1..]);
      assert init[1..] == es[1..][..|es| - 2];
    } else {
      assert init == [] && es[1..] == [];
    }
  }

  lemma {:induction false} RunKeepsInv(s: State, es: seq<Event>)
    requires Inv(s) && ValidRun(s, es)
    ensures Inv(Run(s, es))
    decreases |es|
  {
    if es == [] {
    } else {
      StepKeepsInv(s, es[0]);
      RunKeepsInv(Next(s, es[0]), es[1..]);
    }
  }

  lemma {:induction false} PrefixIsValid(s: State, es: seq<Event>, n: nat)
    requires n <= |es| && ValidRun(s, es)
    ensures ValidRun(s, es[..n])
    decreases |es|
  {
    if n == |es| {
      assert es[..n] == es;
    } else {
      LastStep(s, es);
      PrefixIsValid(s, es[..|es| - 1], n);
      assert es[..|es| - 1][..n] == es[..n];
    }
  }

  predicate Returned(s: State, c: nat, id: RowId) {
    c in s.claimers && s.claimers[c].done && id in s.claimers[c].held
  }

  /** Event `n` makes the row pending again, after `c` has taken it and committed. */
  ghost predicate ReopenedAfter(t: Table, es: seq<Event>, c: nat, id: RowId, n: nat)
    requires n < |es| && ValidRun(State(t, NOBODY), es[..n])
  {
    var s := Run(State(t, NOBODY), es[..n]);
    && Returned(s, c, id)
    && es[n].Write? && es[n].id == id && es[n].row.status == Pending
    && id in s.table && s.table[id].status != Pending
  }

  ghost predicate Reopened(t: Table, es: seq<Event>, c: nat, id: RowId) {
    exists n :: 0 <= n < |es| && ValidRun(State(t, NOBODY), es[..n]) && ReopenedAfter(t, es, c, id, n)
  }

  lemma ReopenedEarlier(t: Table, es: seq<Event>, c: nat, id: RowId)
    requires es != [] && Reopened(t, es[..|es| - 1], c, id)
    ensures Reopened(t, es, c, id)
  {
    var init := es[..|es| - 1];
    var n :| 0 <= n < |init| && ValidRun(State(t, NOBODY), init[..n]) && ReopenedAfter(t, init, c, id, n);
    assert init[..n] == es[..n] && init[n] == es[n];
    assert ReopenedAfter(t, es, c, id, n);
  }

  /** A row a claim returned is pending only if another statement made it so. */
  lemma {:induction false} PendingMeansReopened(t: Table, es: seq<Event>, c: nat, id: RowId)
    requires ValidRun(State(t, NOBODY), es)
    requires var s := Run(State(t, NOBODY), es); Returned(s, c, id) && id in s.table && s.table[id].status == Pending
    ensures Reopened(t, es, c, id)
    decreases |es|
  {
    assert es != [];
    var init, e := es[..|es| - 1], es[|es| - 1];
    LastStep(State(t, NOBODY), es);
    RunKeepsInv(State(t, NOBODY), init);
    var s := Run(State(t, NOBODY), init);
    assert c in s.claimers ==> HoldsRows(s, c);
    if Returned(s, c, id) && s.table[id].status == Pending {
      PendingMeansReopened(t, init, c, id);
      ReopenedEarlier(t, es, c, id);
    } else {
      assert ReopenedAfter(t, es, c, id, |init|);
    }
  }

  ghost predicate Takes(s: State, e: Event, c: nat, id: RowId) {
    && e == Visit(c) && Enabled(s, e) && s.claimers[c].todo[0] == id
    && !Locked(s, id) && Claimable(s.table, id, s.claimers[c].at)
  }

  predicate Has(s: State, c: nat, id: RowId) {
    c in s.claimers && id in s.claimers[c].held
  }

  lemma OnlyVisitsTake(s: State, e: Event, c: nat, id: RowId)
    requires Enabled(s, e) && Has(Next(s, e), c, id)
    ensures Has(s, c, id) || Takes(s, e, c, id)
  {}

  lemma {:induction false} SharedRowWasReopened(t: Table, es: seq<Event>, c: nat, d: nat, id: RowId)
    requires ValidRun(State(t, NOBODY), es) && c != d
    requires Has(Run(State(t, NOBODY), es), c, id) && Has(Run(State(t, NOBODY), es), d, id)
    ensures Reopened(t, es, c, id) || Reopened(t, es, d, id)
    decreases |es|
  {
    assert es != [];
    var init, e := es[..|es| - 1], es[|es| - 1];
    LastStep(State(t, NOBODY), es);
    var s := Run(State(t, NOBODY), init);
    OnlyVisitsTake(s, e, c, id);
    OnlyVisitsTake(s, e, d, id);
    if Has(s, c, id) && Has(s, d, id) {
      SharedRowWasReopened(t, init, c, d, id);
      if Reopened(t, init, c, id) { ReopenedEarlier(t, es, c, id); } else { ReopenedEarlier(t, es, d, id); }
    } else {
      var first := if Has(s, c, id) then c else d;
      assert Has(s, first, id) && !Active(s, first);
      PendingMeansReopened(t, init, first, id);
      ReopenedEarlier(t, es, first, id);
    }
  }

  /** However the claims and everything else interleave, no claim returns a row twice, and two
      claims return the same row only if, after one of them had committed, another statement
      made the row pending again. */
  lemma ClaimsReturnDisjointRows(t: Table, es: seq<Event>, c: nat, d: nat)
    requires ValidRun(State(t, NOBODY), es)
    requires c in Run(State(t, NOBODY), es).claimers && d in Run(State(t, NOBODY), es).claimers
    ensures var s := Run(State(t, NOBODY), es);
      && Distinct(s.claimers[c].held)
      && (c != d ==> forall id | id in s.claimers[c].held && id in s.claimers[d].held ::
            Reopened(t, es, c, id) || Reopened(t, es, d, id))
  {
    var s := Run(State(t, NOBODY), es);
    RunKeepsInv(State(t, NOBODY), es);
    assert HoldsRows(s, c);
    forall id | c != d && id in s.claimers[c].held && id in s.claimers[d].held
      ensures Reopened(t, es, c, id) || Reopened(t, es, d, id)
    {
      SharedRowWasReopened(t, es, c, d, id);
    }
  }

  // --- What each claim takes ---------------------------------------------------------------

  predicate InOrder(times: map<RowId, int>, ids: seq<RowId>) {
    && (forall id :: id in ids ==> id in times)
    && (forall i, j :: 0 <= i < j < |ids| ==> ids[i] != ids[j] && Precedes(times, ids[i], ids[j]))
  }

  /** At this moment `c` would pass over the next of its rows: another claim has locked it, or
      its newest version is no longer due. */
  ghost predicate Refuses(s: State, c: nat)
    requires Enabled(s, Visit(c))
  {
    var id := s.claimers[c].todo[0];
    Locked(s, id) || !Claimable(s.table, id, s.claimers[c].at)
  }

  /** The rows `c` passes over in a run. */
  ghost function RefusedBy(s: State, es: seq<Event>, c: nat): set<RowId>
    requires ValidRun(s, es)
    decreases |es|
  {
    if es == [] then {}
    else
      var refused := if es[0] == Visit(c) && Refuses(s, c) then {s.claimers[c].todo[0]} else {};
      refused + RefusedBy(Next(s, es[0]), es[1..], c)
  }

  /** `c` still has exactly `rows` to visit, in the order of `times`. */
  ghost predicate OnTrack(k: Claimer, times: map<RowId, int>, rows: set<RowId>) {
    && InOrder(times, k.todo)
    && (forall id :: id in k.todo <==> id in rows)
    && |k.held| <= k.limit
  }

  lemma OthersLeaveIt(s: State, e: Event, c: nat)
    requires Enabled(s, e) && c in s.claimers && e != Abort(c) && e != Visit(c) && !(e.Commit? && e.c == c)
    ensures c in Next(s, e).claimers && Next(s, e).claimers[c] == s.claimers[c]
  {}

  lemma {:induction false} DoneIsDone(s: State, es: seq<Event>, c: nat)
    requires ValidRun(s, es) && c in s.claimers && s.claimers[c].done
    ensures c in Run(s, es).claimers && Run(s, es).claimers[c] == s.claimers[c]
    ensures RefusedBy(s, es, c) == {}
    decreases |es|
  {
    if es == [] {
    } else {
      OthersLeaveIt(s, es[0], c);
      DoneIsDone(Next(s, es[0]), es[1..], c);
    }
  }

  lemma {:induction false} RefusedWasToDo(s: State, es: seq<Event>, c: nat)
    requires ValidRun(s, es) && c in s.claimers && Abort(c) !in es
    ensures forall id :: id in RefusedBy(s, es, c) ==> id in s.claimers[c].todo
    decreases |es|
  {
    if es == [] {
    } else {
      var e, s' := es[0], Next(s, es[0]);
      if e != Visit(c) && !(e.Commit? && e.c == c) { OthersLeaveIt(s, e, c); }
      RefusedWasToDo(s', es[1..], c);
      assert forall id :: id in s'.claimers[c].todo ==> id in s.claimers[c].todo;
    }
  }

  lemma OnTrackUnfolds(k: Claimer, times: map<RowId, int>, rows: set<RowId>)
    requires OnTrack(k, times, rows) && k.todo != []
    ensures rows <= times.Keys && IsFirst(times, rows, k.todo[0])
    ensures InOrder(times, k.todo[1..]) && forall id :: id in k.todo[1..] <==> id in rows - {k.todo[0]}
  {
    var todo := k.todo;
    assert todo == [todo[0]] + todo[1..];
    forall y | y in rows && y != todo[0]
      ensures Precedes(times, todo[0], y)
    {
      var j :| 0 <= j < |todo| && todo[j] == y;
    }
  }

  lemma FirstOfFewer(times: map<RowId, int>, rows: set<RowId>, gone: set<RowId>, n: nat, x: RowId)
    requires rows <= times.Keys && IsFirst(times, rows, x) && x !in gone && n > 0
    ensures FirstN(times, rows - gone, n) == [x] + FirstN(times, rows - {x} - gone, n - 1)
  {
    FirstNUnfolds(times, rows - gone, n, x);
    assert rows - gone - {x} == rows - {x} - gone;
  }

  /** What `c` holds in the end, given what it holds already and which rows it will pass over. */
  ghost predicate EndsWith(s: State, es: seq<Event>, c: nat, times: map<RowId, int>, rows: set<RowId>)
    requires ValidRun(s, es) && c in s.claimers && c in Run(s, es).claimers
    requires rows <= times.Keys && |s.claimers[c].held| <= s.claimers[c].limit
  {
    var k := s.claimers[c];
    Run(s, es).claimers[c].held == k.held + FirstN(times, rows - RefusedBy(s, es, c), k.limit - |k.held|)
  }

  lemma RefusedStep(s: State, es: seq<Event>, c: nat, times: map<RowId, int>, rows: set<RowId>)
    requires es != [] && es[0] == Visit(c) && ValidRun(s, es) && Refuses(s, c)
    requires OnTrack(s.claimers[c], times, rows) && rows <= times.Keys && c in Run(s, es).claimers
    requires EndsWith(Next(s, es[0]), es[1..], c, times, rows - {s.claimers[c].todo[0]})
    ensures EndsWith(s, es, c, times, rows)
  {
    var id, later := s.claimers[c].todo[0], RefusedBy(Next(s, es[0]), es[1..], c);
    assert RefusedBy(s, es, c) == {id} + later;
    assert rows - ({id} + later) == rows - {id} - later;
  }

  lemma TakenStep(s: State, es: seq<Event>, c: nat, times: map<RowId, int>, rows: set<RowId>)
    requires es != [] && es[0] == Visit(c) && ValidRun(s, es) && !Refuses(s, c) && Abort(c) !in es
    requires OnTrack(s.claimers[c], times, rows) && rows <= times.Keys && c in Run(s, es).claimers
    requires EndsWith(Next(s, es[0]), es[1..], c, times, rows - {s.claimers[c].todo[0]})
    ensures EndsWith(s, es, c, times, rows)
  {
    var k, id, later := s.claimers[c], s.claimers[c].todo[0], RefusedBy(Next(s, es[0]), es[1..], c);
    OnTrackUnfolds(k, times, rows);
    RefusedWasToDo(Next(s, es[0]), es[1..], c);
    assert RefusedBy(s, es, c) == later;
    FirstOfFewer(times, rows, later, k.limit - |k.held|, id);
    Reassociate(k.held, id, FirstN(times, rows - {id} - later, k.limit - |k.held| - 1));
  }

  lemma VisitStaysOnTrack(s: State, c: nat, times: map<RowId, int>, rows: set<RowId>)
    requires Enabled(s, Visit(c)) && OnTrack(s.claimers[c], times, rows)
    ensures rows <= times.Keys
    ensures OnTrack(Next(s, Visit(c)).claimers[c], times, rows - {s.claimers[c].todo[0]})
  {
    OnTrackUnfolds(s.claimers[c], times, rows);
  }

  lemma CommitStep(s: State, es: seq<Event>, c: nat, times: map<RowId, int>, rows: set<RowId>)
    requires es != [] && es[0].Commit? && es[0].c == c && ValidRun(s, es)
    requires OnTrack(s.claimers[c], times, rows)
    ensures rows <= times.Keys && c in Run(s, es).claimers && EndsWith(s, es, c, times, rows)
  {
    var s' := Next(s, es[0]);
    DoneIsDone(s', es[1..], c);
    var k := s.claimers[c];
    assert k.todo == [] ==> rows == {};
    assert RefusedBy(s, es, c) == {};
    assert FirstN(times, rows - {}, k.limit - |k.held|) == [];
  }

  lemma {:induction false} ClaimEndsWith(s: State, es: seq<Event>, c: nat, times: map<RowId, int>, rows: set<RowId>)
    requires ValidRun(s, es) && Active(s, c) && Abort(c) !in es && OnTrack(s.claimers[c], times, rows)
    requires c in Run(s, es).claimers && Run(s, es).claimers[c].done
    ensures rows <= times.Keys && EndsWith(s, es, c, times, rows)
    decreases |es|
  {
    var e, s' := es[0], Next(s, es[0]);
    if e == Visit(c) {
      VisitStaysOnTrack(s, c, times, rows);
      ClaimEndsWith(s', es[1..], c, times, rows - {s.claimers[c].todo[0]});
      if Refuses(s, c) { RefusedStep(s, es, c, times, rows); } else { TakenStep(s, es, c, times, rows); }
    } else if e.Commit? && e.c == c {
      CommitStep(s, es, c, times, rows);
    } else {
      OthersLeaveIt(s, e, c);
      ClaimEndsWith(s', es[1..], c, times, rows);
      assert RefusedBy(s, es, c) == RefusedBy(s', es[1..], c);
    }
  }

  lemma NothingBefore(ids: seq<RowId>)
    ensures [] + ids == ids
  {}

  lemma BeginsOnTrack(s: State, c: nat, limit: nat, at: Time)
    requires c !in s.claimers
    ensures var k := Next(s, Begin(c, limit, at)).claimers[c];
      k.held == [] && k.limit == limit && !k.done && OnTrack(k, RunTimes(s.table), Due(s.table, at))
  {
    CandidatesAreDueInOrder(s.table, at);
  }

  /** Each claim, in any interleaving with other claims and other statements, takes exactly the
      least due rows of its snapshot among those it was not refused when it came to them. */
  lemma ClaimTakesLeastUnrefusedRows(s: State, c: nat, limit: nat, at: Time, es: seq<Event>)
    requires c !in s.claimers && ValidRun(Next(s, Begin(c, limit, at)), es) && Abort(c) !in es
    requires var s' := Run(Next(s, Begin(c, limit, at)), es); c in s'.claimers && s'.claimers[c].done
    ensures var s1 := Next(s, Begin(c, limit, at));
      Run(s1, es).claimers[c].held == FirstN(RunTimes(s.table), Due(s.table, at) - RefusedBy(s1, es, c), limit)
  {
    var s1, due := Next(s, Begin(c, limit, at)), Due(s.table, at);
    BeginsOnTrack(s, c, limit, at);
    ClaimEndsWith(s1, es, c, RunTimes(s.table), due);
    NothingBefore(FirstN(RunTimes(s.table), due - RefusedBy(s1, es, c), limit));
  }

  /** A row was refused exactly if some visit of `c` came to it while it was locked by another
      claim or no longer due. */
  lemma {:induction false} RefusedMeans(s: State, es: seq<Event>, c: nat, id: RowId)
    requires ValidRun(s, es)
    ensures id in RefusedBy(s, es, c) <==> exists n :: RefusedAt(s, es, c, id, n)
    decreases |es|
  {
    if es == [] {
    } else {
      var s', rest := Next(s, es[0]), es[1..];
      RefusedMeans(s', rest, c, id);
      if n :| RefusedAt(s', rest, c, id, n) {
        assert es[..n + 1][1..] == rest[..n] && es[..n + 1][0] == es[0];
        assert RefusedAt(s, es, c, id, n + 1);
      }
      if n :| RefusedAt(s, es, c, id, n) {
        assert n > 0 ==> es[..n][1..] == rest[..n - 1] && es[..n][0] == es[0];
        assert n > 0 ==> RefusedAt(s', rest, c, id, n - 1);
        assert n == 0 ==> es[..n] == [];
      }
      if es[0] == Visit(c) && Refuses(s, c) && s.claimers[c].todo[0] == id {
        assert es[..0] == [] && RefusedAt(s, es, c, id, 0);
      }
    }
  }

  ghost predicate RefusedAt(s: State, es: seq<Event>, c: nat, id: RowId, n: int) {
    && 0 <= n < |es| && es[n] == Visit(c) && ValidRun(s, es[..n])
    && var m := Run(s, es[..n]); Enabled(m, Visit(c)) && m.claimers[c].todo[0] == id && Refuses(m, c)
  }

  // --- A claim that is not interrupted -----------------------------------------------------

  /** The visits of one claim, run back to back. */
  ghost function Scan(s: State, c: nat): State
    requires c in s.claimers
    decreases if c in s.claimers then |s.claimers[c].todo| else 0
  {
    if Scanning(s.claimers[c]) then Scan(Next(s, Visit(c)), c) else s
  }

  /** The rows other claims have locked. */
  ghost function LockedByOthers(s: State, c: nat): set<RowId> {
    set d, id | d in s.claimers && Active(s, d) && d != c && id in s.claimers[d].held :: id
  }

  lemma SameOthers(s: State, s': State, c: nat)
    requires s.claimers.Keys - {c} == s'.claimers.Keys - {c}
    requires forall d :: d in s.claimers && d != c ==> d in s'.claimers && s'.claimers[d] == s.claimers[d]
    ensures LockedByOthers(s, c) == LockedByOthers(s', c)
  {
    forall id
      ensures id in LockedByOthers(s, c) <==> id in LockedByOthers(s', c)
    {
      if id in LockedByOthers(s, c) {
        var d :| d in s.claimers && Active(s, d) && d != c && id in s.claimers[d].held;
        assert Active(s', d);
      }
      if id in LockedByOthers(s', c) {
        var d :| d in s'.claimers && Active(s', d) && d != c && id in s'.claimers[d].held;
        assert d in s'.claimers.Keys - {c};
        assert Active(s, d);
      }
    }
  }

  /** `c` still has exactly `rows` to visit, in order. */
  ghost predicate ScanReady(s: State, c: nat, rows: set<RowId>) {
    && Active(s, c)
    && InOrder(RunTimes(s.table), s.claimers[c].todo)
    && (forall id :: id in s.claimers[c].todo <==> id in rows)
    && rows <= Due(s.table, s.claimers[c].at)
    && |s.claimers[c].held| <= s.claimers[c].limit
  }

  /** What `c` holds, and what it would still take if nothing else moved. */
  ghost function Outcome(s: State, c: nat, rows: set<RowId>): seq<RowId>
    requires ScanReady(s, c, rows)
  {
    var k := s.claimers[c];
    k.held + FirstN(RunTimes(s.table), rows - LockedByOthers(s, c), k.limit - |k.held|)
  }

  lemma VisitKeepsReady(s: State, c: nat, rows: set<RowId>)
    requires ScanReady(s, c, rows) && Scanning(s.claimers[c])
    ensures ScanReady(Next(s, Visit(c)), c, rows - {s.claimers[c].todo[0]})
  {
    var todo := s.claimers[c].todo;
    assert todo == [todo[0]] + todo[1..];
    assert forall x :: x in todo[1..] <==> x in rows - {todo[0]};
  }

  /** A row another claim holds is passed over, and was not due to be taken. */
  lemma SkipKeepsOutcome(s: State, c: nat, rows: set<RowId>)
    requires ScanReady(s, c, rows) && Scanning(s.claimers[c])
    requires s.claimers[c].todo[0] in LockedByOthers(s, c)
    ensures ScanReady(Next(s, Visit(c)), c, rows - {s.claimers[c].todo[0]})
    ensures Outcome(Next(s, Visit(c)), c, rows - {s.claimers[c].todo[0]}) == Outcome(s, c, rows)
  {
    var s', id := Next(s, Visit(c)), s.claimers[c].todo[0];
    VisitKeepsReady(s, c, rows);
    SameOthers(s, s', c);
    assert rows - {id} - LockedByOthers(s, c) == rows - LockedByOthers(s, c);
  }

  lemma FreeRowIsTaken(s: State, c: nat, rows: set<RowId>)
    requires ScanReady(s, c, rows) && Scanning(s.claimers[c])
    requires s.claimers[c].todo[0] !in LockedByOthers(s, c) && s.claimers[c].todo[0] !in s.claimers[c].held
    ensures Next(s, Visit(c)).claimers[c].held == s.claimers[c].held + [s.claimers[c].todo[0]]
  {
    assert s.claimers[c].todo[0] in s.claimers[c].todo;
    assert !Locked(s, s.claimers[c].todo[0]);
  }

  lemma TakeKeepsOutcome(s: State, c: nat, rows: set<RowId>)
    requires ScanReady(s, c, rows) && Scanning(s.claimers[c])
    requires s.claimers[c].todo[0] !in LockedByOthers(s, c) && s.claimers[c].todo[0] !in s.claimers[c].held
    ensures ScanReady(Next(s, Visit(c)), c, rows - {s.claimers[c].todo[0]})
    ensures Outcome(Next(s, Visit(c)), c, rows - {s.claimers[c].todo[0]}) == Outcome(s, c, rows)
  {
    var k, s', id := s.claimers[c], Next(s, Visit(c)), s.claimers[c].todo[0];
    var free := rows - LockedByOthers(s, c);
    VisitKeepsReady(s, c, rows);
    FreeRowIsTaken(s, c, rows);
    SameOthers(s, s', c);
    assert id in k.todo && id in free;
    FirstOfTodo(RunTimes(s.table), k.todo, rows, free);
    FirstNUnfolds(RunTimes(s.table), free, k.limit - |k.held|, id);
    assert rows - {id} - LockedByOthers(s, c) == free - {id};
    Reassociate(k.held, id, FirstN(RunTimes(s.table), free - {id}, k.limit - |k.held| - 1));
  }

  lemma Reassociate(a: seq<RowId>, x: RowId, b: seq<RowId>)
    ensures (a + [x]) + b == a + ([x] + b)
  {}

  /** Scanning the ordered candidates from the front picks the first of those not refused. */
  lemma {:induction false} ScanPicksFirst(s: State, c: nat, rows: set<RowId>)
    requires ScanReady(s, c, rows) && Apart(s.claimers[c].held, s.claimers[c].todo)
    ensures c in Scan(s, c).claimers && Scan(s, c).claimers[c].held == Outcome(s, c, rows)
    decreases |s.claimers[c].todo|
  {
    if Scanning(s.claimers[c]) {
      assert s.claimers[c].todo[0] in s.claimers[c].todo;
      if s.claimers[c].todo[0] in LockedByOthers(s, c) {
        SkipKeepsOutcome(s, c, rows);
      } else {
        TakeKeepsOutcome(s, c, rows);
      }
      ScanPicksFirst(Next(s, Visit(c)), c, rows - {s.claimers[c].todo[0]});
    } else if s.claimers[c].todo == [] {
      assert rows - LockedByOthers(s, c) == {};
    }
  }

  lemma FirstOfTodo(times: map<RowId, int>, todo: seq<RowId>, rows: set<RowId>, free: set<RowId>)
    requires InOrder(times, todo) && todo != [] && (forall id :: id in todo <==> id in rows)
    requires free <= rows && todo[0] in free
    ensures free <= times.Keys && IsFirst(times, free, todo[0])
  {
    forall y | y in free && y != todo[0]
      ensures Precedes(times, todo[0], y)
    {
      assert y in todo;
      var j :| 0 <= j < |todo| && todo[j] == y;
    }
  }

  lemma CandidatesAreDueInOrder(t: Table, at: Time)
    ensures InOrder(RunTimes(t), Candidates(t, at))
    ensures forall id :: id in Candidates(t, at) <==> id in Due(t, at)
  {
    var rows := Due(t, at);
    PickedInOrder(RunTimes(t), rows, |rows|);
    forall id | id in rows
      ensures id in Candidates(t, at)
    {
      PickedIffRankBelow(RunTimes(t), rows, |rows|, id);
      ProperlySmaller(Earlier(RunTimes(t), rows, id), rows, id);
    }
  }

  lemma BeginIsReady(s: State, c: nat, limit: nat, at: Time)
    requires c !in s.claimers
    ensures var s1 := Next(s, Begin(c, limit, at));
      && ScanReady(s1, c, Due(s.table, at))
      && s1.claimers[c].held == []
      && Outcome(s1, c, Due(s.table, at)) == Picked(s.table, at, LockedByOthers(s, c), limit)
  {
    var s1 := Next(s, Begin(c, limit, at));
    CandidatesAreDueInOrder(s.table, at);
    SameOthers(s, s1, c);
    var rest := FirstN(RunTimes(s.table), Due(s.table, at) - LockedByOthers(s, c), limit);
    assert [] + rest == rest;
  }

  /** A claim that runs alone takes exactly the least due rows no other claim holds. */
  lemma ClaimTakesLeastDueRows(s: State, c: nat, limit: nat, at: Time)
    requires c !in s.claimers
    ensures var s' := Scan(Next(s, Begin(c, limit, at)), c);
      c in s'.claimers && s'.claimers[c].held == Picked(s.table, at, LockedByOthers(s, c), limit)
  {
    BeginIsReady(s, c, limit, at);
    ScanPicksFirst(Next(s, Begin(c, limit, at)), c, Due(s.table, at));
  }

  lemma ProperlySmaller(a: set<RowId>, b: set<RowId>, x: RowId)
    requires a <= b && x in b && x !in a
    ensures |a| < |b|
  {
    Smaller(a, b);
    assert x in b - a;
  }

  // --- No starvation -----------------------------------------------------------------------

  ghost function Ahead(t: Table, id: RowId, now: Time): set<RowId>
    requires id in t
  {
    Earlier(RunTimes(t), Due(t, now), id)
  }

  /** What may happen to the table between two claims: nothing is queued ahead of `id`. */
  ghost predicate NoneCutsIn(t: Table, now: Time, t': Table, now': Time, id: RowId)
    requires id in t
  {
    && now <= now'
    && id in t' && t'[id].status == Pending && t'[id].runAt == t[id].runAt
    && Ahead(t', id, now') <= Ahead(t, id, now)
  }

  /** The table before each of several claims, and when the claim ran. All but the last miss `id`. */
  ghost predicate MissedBy(ts: seq<(Table, Time)>, limit: nat, worker: string, id: RowId)
    decreases |ts|
  {
    && ts != []
    && Claimable(ts[0].0, id, ts[0].1)
    && (|ts| > 1 ==>
          var picked := Picked(ts[0].0, ts[0].1, {}, limit);
          && id !in picked
          && NoneCutsIn(Claim(ts[0].0, Members(picked), ts[0].1, worker), ts[0].1, ts[1].0, ts[1].1, id)
          && MissedBy(ts[1..], limit, worker, id))
  }

  lemma RankFalls(t: Table, now: Time, limit: nat, worker: string, id: RowId)
    requires Claimable(t, id, now) && id !in Picked(t, now, {}, limit)
    ensures var t' := Claim(t, Members(Picked(t, now, {}, limit)), now, worker);
      id in t' && |Ahead(t', id, now)| + limit <= |Ahead(t, id, now)|
  {
    var rows, times := Due(t, now), RunTimes(t);
    var picked := Picked(t, now, {}, limit);
    assert rows - {} == rows;
    PickedIffRankBelow(times, rows, limit, id);
    PickedInOrder(times, rows, limit);
    var t' := Claim(t, Members(picked), now, worker);
    forall x | x in picked
      ensures x in Ahead(t, id, now)
    {
      PickedPrecedesRest(times, rows, limit, x, id);
    }
    ProperlySmaller(Ahead(t, id, now), rows, id);
    assert |picked| == limit;
    MembersCount(picked);
    assert Ahead(t', id, now) <= Ahead(t, id, now) - Members(picked);
    Smaller(Ahead(t', id, now), Ahead(t, id, now) - Members(picked));
    Smaller(Members(picked), Ahead(t, id, now));
  }

  lemma MissCostsLimit(t: Table, now: Time, t': Table, now': Time, limit: nat, worker: string, id: RowId)
    requires Claimable(t, id, now) && id !in Picked(t, now, {}, limit)
    requires NoneCutsIn(Claim(t, Members(Picked(t, now, {}, limit)), now, worker), now, t', now', id)
    ensures id in t' && |Ahead(t', id, now')| + limit <= |Ahead(t, id, now)|
  {
    RankFalls(t, now, limit, worker, id);
    Smaller(Ahead(t', id, now'), Ahead(Claim(t, Members(Picked(t, now, {}, limit)), now, worker), id, now));
  }

  /** `misses` claims of `limit` rows each. */
  function Taken(misses: nat, limit: nat): nat {
    if misses == 0 then 0 else Taken(misses - 1, limit) + limit
  }

  lemma {:induction false} MissesAreBounded(ts: seq<(Table, Time)>, limit: nat, worker: string, id: RowId)
    requires MissedBy(ts, limit, worker, id)
    ensures |Ahead(ts[0].0, id, ts[0].1)| >= Taken(|ts| - 1, limit)
    decreases |ts|
  {
    if |ts| > 1 {
      MissCostsLimit(ts[0].0, ts[0].1, ts[1].0, ts[1].1, limit, worker, id);
      MissesAreBounded(ts[1..], limit, worker, id);
      assert ts[1..][0] == ts[1];
    }
  }

  lemma {:induction false} TakenIsProduct(misses: nat, limit: nat)
    ensures Taken(misses, limit) == misses * limit
  {
    if misses == 0 {
    } else {
      TakenIsProduct(misses - 1, limit);
      assert misses * limit == (misses - 1) * limit + limit;
    }
  }

  /** A job that `n` claims in a row have missed had at least `n * limit` rows ahead of it.
      So a job with `r` rows ahead is taken within the first `r / limit + 1` claims. */
  lemma NoStarvation(ts: seq<(Table, Time)>, limit: nat, worker: string, id: RowId)
    requires MissedBy(ts, limit, worker, id)
    ensures |Ahead(ts[0].0, id, ts[0].1)| >= (|ts| - 1) * limit
  {
    MissesAreBounded(ts, limit, worker, id);
    TakenIsProduct(|ts| - 1, limit);
  }
}
