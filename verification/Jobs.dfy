/**
  The `jobs` table and the statements that change it.

  Each SQL statement is a function from table to table; `JobTable` runs it in place.
  Times are milliseconds on the one monotone clock the model assumes.
 */
module Jobs {
  import opened Collections
  import opened Wrappers
  import opened Selection

  type Time = int

  datatype Status = Pending | Running | Succeeded | Failed | Cancelled

  datatype Job = Job(
    name: string,
    status: Status,
    attempts: nat,
    maxAttempts: int,
    runAt: Time,
    lockedAt: Option<Time>,
    lockedBy: Option<string>,
    lastError: Option<string>,
    finishedAt: Option<Time>,
    dedupeKey: Option<string>)

  type Table = map<RowId, Job>

  datatype NewJob = NewJob(name: string, runAt: Time, maxAttempts: int, dedupeKey: Option<string>)

  /** What a worker carries away from a claim. Nothing refreshes it later. */
  datatype ClaimedJob = ClaimedJob(id: RowId, name: string, attempts: nat, maxAttempts: int)

  /** How one execution of a claimed job ended. */
  datatype Verdict =
    | Success
    | Unrunnable(error: string)                // no handler, or the payload no longer parses
    | Failure(error: string, delay: int)

  predicate Terminal(s: Status) { s == Succeeded || s == Failed || s == Cancelled }

  /** `locked_at`, `locked_by` and `finished_at` say exactly what the status says. */
  ghost predicate WellShaped(j: Job) {
    && (j.lockedAt.Some? <==> j.status == Running)
    && (j.lockedBy.Some? <==> j.status == Running)
    && (j.finishedAt.Some? <==> Terminal(j.status))
  }

  // --- The statements, on values -----------------------------------------------------------

  function FreshJob(row: NewJob): Job {
    Job(row.name, Pending, 0, row.maxAttempts, row.runAt, None, None, None, None, row.dedupeKey)
  }

  /** The unique index covers every row that carries a key, finished or not. */
  predicate Accepts(t: Table, row: NewJob) {
    row.dedupeKey.Some? ==> forall id :: id in t ==> t[id].dedupeKey != row.dedupeKey
  }

  predicate Claimable(t: Table, id: RowId, now: Time) {
    id in t && t[id].status == Pending && t[id].runAt <= now
  }

  function RunTimes(t: Table): map<RowId, int> {
    map id | id in t :: t[id].runAt
  }

  function Due(t: Table, now: Time): set<RowId> {
    set id | id in t && Claimable(t, id, now)
  }

  function ClaimRow(j: Job, now: Time, worker: string): Job {
    j.(status := Running, attempts := j.attempts + 1, lockedAt := Some(now), lockedBy := Some(worker))
  }

  /** The rows one claim statement takes, in the order it takes them. */
  ghost function Picked(t: Table, now: Time, locked: set<RowId>, limit: nat): (ids: seq<RowId>)
    ensures forall id :: id in ids ==> id in t
  {
    FirstN(RunTimes(t), Due(t, now) - locked, limit)
  }

  /** `RETURNING`: the values after the update. */
  function Snapshots(t: Table, ids: seq<RowId>): seq<ClaimedJob>
    requires forall id :: id in ids ==> id in t
  {
    seq(|ids|, i requires 0 <= i < |ids| =>
      ClaimedJob(ids[i], t[ids[i]].name, t[ids[i]].attempts + 1, t[ids[i]].maxAttempts))
  }

  function Claim(t: Table, ids: set<RowId>, now: Time, worker: string): Table {
    map id | id in t :: if id in ids then ClaimRow(t[id], now, worker) else t[id]
  }

  function Update(t: Table, id: RowId, change: Job -> Job): Table {
    if id in t then t[id := change(t[id])] else t
  }

  function SucceededRow(j: Job, now: Time): Job {
    j.(status := Succeeded, finishedAt := Some(now), lockedAt := None, lockedBy := None, lastError := None)
  }

  function FailedRow(j: Job, error: string, retryAt: Option<Time>, now: Time): Job {
    j.(status := if retryAt.None? then Failed else Pending,
       lastError := Some(error),
       finishedAt := if retryAt.None? then Some(now) else None,
       runAt := if retryAt.Some? then retryAt.value else j.runAt,
       lockedAt := None, lockedBy := None)
  }

  function ReapedRow(j: Job): Job {
    j.(status := Pending, lockedAt := None, lockedBy := None)
  }

  predicate Stale(j: Job, cutoff: Time) {
    j.status == Running && j.lockedAt.Some? && j.lockedAt.value < cutoff
  }

  function Reap(t: Table, cutoff: Time): Table {
    map id | id in t :: if Stale(t[id], cutoff) then ReapedRow(t[id]) else t[id]
  }

  function RequeuedRow(j: Job, now: Time): Job {
    j.(status := Pending, attempts := 0, runAt := now, finishedAt := None, lockedAt := None, lockedBy := None)
  }

  function CancelledRow(j: Job, now: Time): Job {
    j.(status := Cancelled, finishedAt := Some(now), lockedAt := None, lockedBy := None)
  }

  /** The retry decision uses the numbers snapshotted by the claim, never the row. */
  predicate Exhausted(row: ClaimedJob) { row.attempts >= row.maxAttempts }

  function RetryAt(row: ClaimedJob, v: Verdict, now: Time): Option<Time>
    requires !v.Success?
  {
    if v.Failure? && !Exhausted(row) then Some(now + v.delay) else None
  }

  /** A report finds its row by id alone, whatever has happened to the row since the claim. */
  function Report(t: Table, row: ClaimedJob, v: Verdict, now: Time): Table {
    Update(t, row.id, (j: Job) =>
      if v.Success? then SucceededRow(j, now) else FailedRow(j, v.error, RetryAt(row, v, now), now))
  }

  const NOT_REGISTERED := Unrunnable("no handler is registered")
  const NOT_PARSED := Unrunnable("the stored payload no longer matches the schema")

  /** Several reports of one execution, in order. */
  function Reports(t: Table, row: ClaimedJob, vs: seq<Verdict>, now: Time): Table
    decreases |vs|
  {
    if vs == [] then t else Report(Reports(t, row, vs[..|vs| - 1], now), row, vs[|vs| - 1], now)
  }

  lemma ReportsFollow(t: Table, row: ClaimedJob, vs: seq<Verdict>, v: Verdict, now: Time)
    ensures Reports(t, row, [], now) == t
    ensures Reports(t, row, vs + [v], now) == Report(Reports(t, row, vs, now), row, v, now)
  {
    assert (vs + [v])[..|vs|] == vs;
  }

  /** How the two records of an execution went, and what was thrown if success was not heard of. */
  datatype Recording = Recording(success: Writing, failure: Writing, error: string, delay: int)

  /** The reports of a handler's outcome that reach the table. A success that is not heard of is
      caught like a handler's own error. */
  function Reached(outcome: Verdict, r: Recording): seq<Verdict> {
    var failed := if outcome.Success? then Failure(r.error, r.delay) else outcome;
    (if outcome.Success? && r.success != Lost then [Success] else [])
    + (if (outcome.Success? && r.success == Done) || r.failure == Lost then [] else [failed])
  }

  /** A claim runs exactly the rows it hands out, and hands them out as it leaves them. */
  lemma ClaimMeans(t: Table, ids: seq<RowId>, now: Time, worker: string)
    requires forall id :: id in ids ==> id in t
    ensures var after := Claim(t, Members(ids), now, worker);
      && after.Keys == t.Keys
      && (forall id <- ids :: after[id] == t[id].(
           status := Running, attempts := t[id].attempts + 1, lockedAt := Some(now), lockedBy := Some(worker)))
      && (forall id <- t | id !in ids :: after[id] == t[id])
      && (forall c <- Snapshots(t, ids) ::
           c.id in ids && c == ClaimedJob(c.id, after[c.id].name, after[c.id].attempts, after[c.id].maxAttempts))
      && (forall id <- ids :: exists c <- Snapshots(t, ids) :: c.id == id)
  {
    forall id | id in ids
      ensures exists c <- Snapshots(t, ids) :: c.id == id
    {
      var i :| 0 <= i < |ids| && ids[i] == id;
      assert Snapshots(t, ids)[i].id == id;
    }
  }

  /** What is picked is due and free, and everything due and free that is not comes after it. */
  lemma ClaimsAreTheLeastDue(t: Table, now: Time, locked: set<RowId>, limit: nat)
    ensures var ids := Picked(t, now, locked, limit);
      && |ids| <= limit
      && (forall id <- ids :: id in t && id !in locked && t[id].status == Pending && t[id].runAt <= now)
      && forall id | id in t && id !in locked && t[id].status == Pending && t[id].runAt <= now && id !in ids ::
           && |ids| == limit
           && forall c <- ids :: t[c].runAt < t[id].runAt || (t[c].runAt == t[id].runAt && c < id)
  {
    LeftOnlyForOlder(RunTimes(t), Due(t, now) - locked, limit);
    assert forall id <- t :: RunTimes(t)[id] == t[id].runAt;
    assert forall id | id in t && id !in locked && t[id].status == Pending && t[id].runAt <= now ::
      id in Due(t, now) - locked;
  }

  datatype AdminError = NotFound | Conflict(found: Status)

  /**
    The table as its owner sees it. `locked` in a claim is the set of rows other
    transactions hold at that moment, which `SKIP LOCKED` passes over.
   */
  class JobTable {
    var rows: Table

    constructor ()
      ensures rows == map[]
    {
      rows := map[];
    }

    method InsertJob(id: RowId, row: NewJob) returns (accepted: bool)
      requires id !in rows
      modifies this
      ensures accepted == Accepts(old(rows), row)
      ensures accepted <==> row.dedupeKey == None || forall j <- old(rows) :: old(rows)[j].dedupeKey != row.dedupeKey
      ensures rows == if accepted then old(rows)[id := FreshJob(row)] else old(rows)
      ensures accepted ==>
        rows[id] == Job(row.name, Pending, 0, row.maxAttempts, row.runAt, None, None, None, None, row.dedupeKey)
    {
      accepted := Accepts(rows, row);
      if accepted {
        rows := rows[id := FreshJob(row)];
      }
    }

    method ClaimJobs(limit: nat, worker: string, now: Time, locked: set<RowId>) returns (claimed: seq<ClaimedJob>)
      modifies this
      ensures var picked := Picked(old(rows), now, locked, limit);
        && rows == Claim(old(rows), Members(picked), now, worker)
        && claimed == Snapshots(old(rows), picked)
      // What was claimed was due and free. It is running now, with one attempt more, under this worker.
      ensures forall c <- claimed :: c.id in old(rows) && c.id in rows
      ensures forall c <- claimed :: c.id !in locked
      ensures forall c <- claimed :: old(rows)[c.id].status == Pending && old(rows)[c.id].runAt <= now
      ensures forall c <- claimed ::
        var j := old(rows)[c.id];
        var taken := j.(status := Running, attempts := j.attempts + 1, lockedAt := Some(now), lockedBy := Some(worker));
        rows[c.id] == taken
      ensures forall c <- claimed ::
        c == ClaimedJob(c.id, rows[c.id].name, rows[c.id].attempts, rows[c.id].maxAttempts)
      // Nothing else changed.
      ensures rows.Keys == old(rows).Keys && |claimed| <= limit
      ensures forall id <- rows | forall c <- claimed :: c.id != id :: rows[id] == old(rows)[id]
    {
      var ids := Select(RunTimes(rows), Due(rows, now) - locked, limit);
      ClaimsAreTheLeastDue(rows, now, locked, limit);
      ClaimMeans(rows, ids, now, worker);
      claimed := Snapshots(rows, ids);
      rows := Claim(rows, Members(ids), now, worker);
    }

    /** The report of a failure: for good, or for a later attempt. No other row changes. */
    method ReportFailure(row: ClaimedJob, v: Verdict, now: Time, w: Writing) returns (written: seq<Verdict>)
      requires !v.Success?
      modifies this
      ensures written == if w == Lost then [] else [v]
      ensures rows == if w == Lost then old(rows) else Report(old(rows), row, v, now)
      ensures w == Lost || row.id !in old(rows) ==> rows == old(rows)
      ensures w != Lost && row.id in old(rows) && (v.Unrunnable? || row.attempts >= row.maxAttempts) ==>
        rows == old(rows)[row.id := old(rows)[row.id].(
          status := Failed, lastError := Some(v.error), finishedAt := Some(now), lockedAt := None, lockedBy := None)]
      ensures w != Lost && row.id in old(rows) && v.Failure? && row.attempts < row.maxAttempts ==>
        rows == old(rows)[row.id := old(rows)[row.id].(
          status := Pending, lastError := Some(v.error), finishedAt := None, runAt := now + v.delay,
          lockedAt := None, lockedBy := None)]
    {
      var exhausted := row.attempts >= row.maxAttempts;
      var retryAt := if v.Unrunnable? || exhausted then None else Some(now + v.delay);
      var _ := MarkFailed(row.id, v.error, retryAt, now, w);
      written := if w == Lost then [] else [v];
    }

    method ReportSuccess(row: ClaimedJob, now: Time, w: Writing) returns (heard: bool)
      modifies this
      ensures heard == (w == Done)
      ensures rows == if w == Lost then old(rows) else Report(old(rows), row, Success, now)
      ensures w == Lost || row.id !in old(rows) ==> rows == old(rows)
      ensures w != Lost && row.id in old(rows) ==>
        rows == old(rows)[row.id := old(rows)[row.id].(
          status := Succeeded, lastError := None, finishedAt := Some(now), lockedAt := None, lockedBy := None)]
    {
      heard := MarkSucceeded(row.id, now, w);
    }

    /** The handler has run. A success that is not heard of is caught like its own error. */
    method Conclude(row: ClaimedJob, outcome: Verdict, recording: Recording, now: Time)
      returns (written: seq<Verdict>)
      requires !outcome.Unrunnable?
      modifies this
      ensures written == Reached(outcome, recording)
      ensures rows == Reports(old(rows), row, written, now)
      ensures row.id !in old(rows) ==> rows == old(rows)
      // A handler that throws, or a success that is not heard of, is recorded as a failure.
      ensures row.id in old(rows) && (outcome.Failure? || recording.success != Done) && recording.failure != Lost ==>
        var error := if outcome.Failure? then outcome.error else recording.error;
        var delay := if outcome.Failure? then outcome.delay else recording.delay;
        rows == old(rows)[row.id := if row.attempts >= row.maxAttempts
          then old(rows)[row.id].(
            status := Failed, lastError := Some(error), finishedAt := Some(now), lockedAt := None, lockedBy := None)
          else old(rows)[row.id].(
            status := Pending, lastError := Some(error), finishedAt := None, runAt := now + delay,
            lockedAt := None, lockedBy := None)]
      // A success stands when it is written and nothing is written after it.
      ensures var stands := recording.success == Done || (recording.success == Unheard && recording.failure == Lost);
        row.id in old(rows) && outcome.Success? && stands ==>
        rows == old(rows)[row.id := old(rows)[row.id].(
          status := Succeeded, lastError := None, finishedAt := Some(now), lockedAt := None, lockedBy := None)]
      // Nothing written, nothing changed.
      ensures (outcome.Failure? || recording.success == Lost) && recording.failure == Lost ==> rows == old(rows)
    {
      ghost var before := rows;
      written := [];
      var thrown := outcome;
      if outcome.Success? {
        var heard := ReportSuccess(row, now, recording.success);
        written := if recording.success == Lost then [] else [Success];
        ReportsFollow(before, row, [], Success, now);
        assert [] + [Success] == [Success];
        if heard { return; }
        thrown := Failure(recording.error, recording.delay);
      } else {
        ReportsFollow(before, row, [], outcome, now);
      }
      assert rows == Reports(before, row, written, now);
      ReportsFollow(before, row, written, thrown, now);
      var more := ReportFailure(row, thrown, now, recording.failure);
      written := written + more;
    }

    /** `runJob`. It finds its row by id alone, decides the retry by the numbers of its claim, and
        changes no other row. */
    method RunJob(row: ClaimedJob, registered: bool, parses: bool, outcome: Verdict, recording: Recording, now: Time)
      returns (written: seq<Verdict>)
      requires !outcome.Unrunnable?
      modifies this
      ensures registered && parses ==> written == Reached(outcome, recording)
      ensures !registered ==> written == if recording.failure == Lost then [] else [NOT_REGISTERED]
      ensures registered && !parses ==> written == if recording.failure == Lost then [] else [NOT_PARSED]
      ensures rows == Reports(old(rows), row, written, now)
      ensures row.id !in old(rows) ==> rows == old(rows)
      // A job that cannot be run is failed for good.
      ensures !(registered && parses) && recording.failure == Lost ==> rows == old(rows)
      ensures row.id in old(rows) && !(registered && parses) && recording.failure != Lost ==>
        var error :=
          if !registered then "no handler is registered" else "the stored payload no longer matches the schema";
        rows == old(rows)[row.id := old(rows)[row.id].(
          status := Failed, lastError := Some(error), finishedAt := Some(now), lockedAt := None, lockedBy := None)]
      // A handler that throws, or a success that is not heard of, is recorded as a failure.
      ensures var thrown := outcome.Failure? || recording.success != Done;
        row.id in old(rows) && registered && parses && thrown && recording.failure != Lost ==>
        var error := if outcome.Failure? then outcome.error else recording.error;
        var delay := if outcome.Failure? then outcome.delay else recording.delay;
        rows == old(rows)[row.id := if row.attempts >= row.maxAttempts
          then old(rows)[row.id].(
            status := Failed, lastError := Some(error), finishedAt := Some(now), lockedAt := None, lockedBy := None)
          else old(rows)[row.id].(
            status := Pending, lastError := Some(error), finishedAt := None, runAt := now + delay,
            lockedAt := None, lockedBy := None)]
      // A success stands when it is written and nothing is written after it.
      ensures var stands := recording.success == Done || (recording.success == Unheard && recording.failure == Lost);
        row.id in old(rows) && registered && parses && outcome.Success? && stands ==>
        rows == old(rows)[row.id := old(rows)[row.id].(
          status := Succeeded, lastError := None, finishedAt := Some(now), lockedAt := None, lockedBy := None)]
      // Nothing written, nothing changed.
      ensures registered && parses && (outcome.Failure? || recording.success == Lost) && recording.failure == Lost ==>
        rows == old(rows)
    {
      if registered && parses {
        written := Conclude(row, outcome, recording, now);
      } else {
        var refusal := if registered then NOT_PARSED else NOT_REGISTERED;
        ReportsFollow(rows, row, [], refusal, now);
        assert [] + [refusal] == [refusal];
        written := ReportFailure(row, refusal, now, recording.failure);
      }
    }

    method MarkSucceeded(id: RowId, now: Time, w: Writing) returns (heard: bool)
      modifies this
      ensures heard == (w == Done)
      ensures rows == if w == Lost then old(rows) else Update(old(rows), id, (j: Job) => SucceededRow(j, now))
    {
      if id in rows && w != Lost {
        rows := rows[id := SucceededRow(rows[id], now)];
      }
      heard := w == Done;
    }

    method MarkFailed(id: RowId, error: string, retryAt: Option<Time>, now: Time, w: Writing) returns (heard: bool)
      modifies this
      ensures heard == (w == Done)
      ensures rows ==
        if w == Lost then old(rows) else Update(old(rows), id, (j: Job) => FailedRow(j, error, retryAt, now))
    {
      if id in rows && w != Lost {
        rows := rows[id := FailedRow(rows[id], error, retryAt, now)];
      }
      heard := w == Done;
    }

    method ReapStaleJobs(olderThan: int, now: Time) returns (reaped: nat)
      modifies this
      ensures rows == Reap(old(rows), now - olderThan)
      ensures reaped == |set id | id in old(rows) && rows[id] != old(rows)[id]|
      ensures rows.Keys == old(rows).Keys
      ensures forall id <- rows ::
        var j := old(rows)[id];
        rows[id] ==
          if j.status == Running && j.lockedAt.Some? && j.lockedAt.value < now - olderThan
          then j.(status := Pending, lockedAt := None, lockedBy := None) else j
    {
      var stale := set id | id in rows && Stale(rows[id], now - olderThan);
      reaped := |stale|;
      rows := Reap(rows, now - olderThan);
      assert stale == set id | id in old(rows) && rows[id] != old(rows)[id];
    }

    /** `retryJob`. The guard reads the row without a lock: `meanwhile` is the table as other
        statements have left it by the time of the write, which finds its row by id alone. */
    method RetryJob(id: RowId, now: Time, meanwhile: Table) returns (r: Result<Job, AdminError>)
      requires rows.Keys <= meanwhile.Keys
      modifies this
      ensures id !in old(rows) ==> r == Err(NotFound)
      ensures id in old(rows) && old(rows)[id].status !in {Failed, Cancelled} ==>
        r == Err(Conflict(old(rows)[id].status))
      ensures id in old(rows) && old(rows)[id].status in {Failed, Cancelled} ==>
        r == Ok(meanwhile[id].(
          status := Pending, attempts := 0, runAt := now, finishedAt := None, lockedAt := None, lockedBy := None))
      ensures rows == if r.Ok? then meanwhile[id := r.value] else old(rows)
    {
      if id !in rows { return Err(NotFound); }
      if rows[id].status != Failed && rows[id].status != Cancelled { return Err(Conflict(rows[id].status)); }
      rows := meanwhile;
      var after := RequeuedRow(rows[id], now);
      rows := rows[id := after];
      return Ok(after);
    }

    /** `cancelQueuedJob`, in the same way. */
    method CancelQueuedJob(id: RowId, now: Time, meanwhile: Table) returns (r: Result<Job, AdminError>)
      requires rows.Keys <= meanwhile.Keys
      modifies this
      ensures id !in old(rows) ==> r == Err(NotFound)
      ensures id in old(rows) && old(rows)[id].status != Pending ==> r == Err(Conflict(old(rows)[id].status))
      ensures id in old(rows) && old(rows)[id].status == Pending ==>
        r == Ok(meanwhile[id].(status := Cancelled, finishedAt := Some(now), lockedAt := None, lockedBy := None))
      ensures rows == if r.Ok? then meanwhile[id := r.value] else old(rows)
    {
      if id !in rows { return Err(NotFound); }
      if rows[id].status != Pending { return Err(Conflict(rows[id].status)); }
      rows := meanwhile;
      var after := CancelledRow(rows[id], now);
      rows := rows[id := after];
      return Ok(after);
    }
  }
}
