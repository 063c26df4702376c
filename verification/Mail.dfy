/**
  The mail outbox: the `mail_messages` statements, and every interleaving of send jobs for
  the same messages (duplicates from the sweep, late executions, retries, crashes).
 */
module Mail {
  import opened Collections
  import opened Wrappers
  import opened Selection

  type Time = int

  const SWEEP_BATCH := 100
  const STUCK_AFTER_MS := 5 * 60_000

  datatype Status = Queued | Sent | Failed

  datatype Message = Message(
    status: Status,
    payload: Option<string>,
    attempts: nat,
    error: Option<string>,
    sentAt: Option<Time>,
    createdAt: Time)

  type Table = map<RowId, Message>

  // --- The statements ----------------------------------------------------------------------

  function SentRow(m: Message, now: Time): Message {
    m.(status := Sent, payload := None, attempts := m.attempts + 1, error := None, sentAt := Some(now))
  }

  /** A failure that is not terminal leaves the payload as it finds it. */
  function FailedRow(m: Message, error: string, terminal: bool): Message {
    m.(status := if terminal then Failed else Queued,
       payload := if terminal then None else m.payload,
       attempts := m.attempts + 1,
       error := Some(error))
  }

  function CreationTimes(t: Table): map<RowId, int> {
    map id | id in t :: t[id].createdAt
  }

  function Stuck(t: Table, cutoff: Time): set<RowId> {
    set id | id in t && t[id].status == Queued && t[id].createdAt < cutoff
  }

  function Prunable(t: Table, cutoff: Time): set<RowId> {
    set id | id in t && t[id].status != Queued && t[id].createdAt < cutoff
  }

  /** What the transport and the database did to one execution of `sendMailJob`. */
  datatype Luck = Luck(renders: bool, accepted: bool, sent: Writing, failed: Writing)

  /** Something is handed over exactly when the row still has what it takes to render it. */
  predicate Transmits(m: Message, luck: Luck) {
    m.status != Sent && m.payload.Some? && luck.renders && luck.accepted
  }

  /** What recording a failure leaves of a row. */
  predicate AfterFailure(m: Message, m': Message, terminal: bool, w: Writing) {
    if w == Lost then m' == m else m'.error.Some? && m' == FailedRow(m, m'.error.value, terminal)
  }

  /** The row one uninterrupted execution leaves behind. */
  predicate AfterSend(m: Message, m': Message, lastAttempt: bool, luck: Luck, now: Time) {
    if m.status == Sent then m' == m
    else if m.payload.None? then AfterFailure(m, m', true, luck.failed)
    else if !luck.renders then AfterFailure(m, m', true, luck.failed)
    else if !luck.accepted || luck.sent == Lost then AfterFailure(m, m', lastAttempt, luck.failed)
    else if luck.sent == Unheard then AfterFailure(SentRow(m, now), m', lastAttempt, luck.failed)
    else m' == SentRow(m, now)
  }

  /** The queue is told of success when there is nothing to send or to record, or it was heard. */
  predicate ReturnsNormally(m: Message, luck: Luck) {
    || m.status == Sent
    || (m.payload.None? && luck.failed == Done)
    || (Transmits(m, luck) && luck.sent == Done)
  }

  /** What a sweep at `now` finds. */
  ghost function StuckMail(t: Table, now: Time): (ids: seq<RowId>)
    ensures forall id <- ids :: id in t
  {
    FirstN(CreationTimes(t), Stuck(t, now - STUCK_AFTER_MS), SWEEP_BATCH)
  }

  /** The messages found stuck have been queued for more than five minutes, and another such is
      left out only for a hundred that are no younger. */
  lemma StuckAreTheOldest(t: Table, now: Time)
    ensures var ids := StuckMail(t, now);
      && |ids| <= 100
      && (forall id <- ids :: t[id].status == Queued && t[id].createdAt < now - 300_000)
      && (forall id <- t | t[id].status == Queued && t[id].createdAt < now - 300_000 && id !in ids ::
            |ids| == 100 && forall x <- ids :: t[x].createdAt <= t[id].createdAt)
  {
    var times, stuck := CreationTimes(t), Stuck(t, now - STUCK_AFTER_MS);
    LeftOnlyForOlder(times, stuck, SWEEP_BATCH);
    assert forall id <- t :: times[id] == t[id].createdAt;
    assert forall id <- t | t[id].status == Queued && t[id].createdAt < now - 300_000 :: id in stuck;
  }

  /** They come oldest first, none of them twice. */
  lemma StuckInOrder(t: Table, now: Time, i: nat, j: nat)
    requires i < j < |StuckMail(t, now)|
    ensures var ids := StuckMail(t, now); ids[i] != ids[j] && t[ids[i]].createdAt <= t[ids[j]].createdAt
  {
    var times := CreationTimes(t);
    OlderFirst(times, Stuck(t, now - STUCK_AFTER_MS), SWEEP_BATCH, i, j);
    var ids := StuckMail(t, now);
    assert ids[i] in ids && ids[j] in ids;
    assert times[ids[i]] == t[ids[i]].createdAt && times[ids[j]] == t[ids[j]].createdAt;
  }

  class Outbox {
    var rows: Table
    var handed: seq<RowId>   // every message the transport accepted, in order
    var jobs: seq<RowId>     // every send job the sweep enqueued, by message, in order

    constructor ()
      ensures rows == map[] && handed == [] && jobs == []
    {
      rows, handed, jobs := map[], [], [];
    }

    method InsertMailMessage(id: RowId, payload: string, now: Time)
      requires id !in rows
      modifies `rows
      ensures rows == old(rows)[id := Message(Queued, Some(payload), 0, None, None, now)]
    {
      rows := rows[id := Message(Queued, Some(payload), 0, None, None, now)];
    }

    method MarkMailSent(id: RowId, now: Time, w: Writing) returns (heard: bool)
      modifies `rows
      ensures heard == (w == Done)
      ensures rows == if id in old(rows) && w != Lost then old(rows)[id := SentRow(old(rows)[id], now)] else old(rows)
      // The payload goes with the status.
      ensures id in old(rows) && w != Lost ==>
        var m := old(rows)[id];
        rows[id] == Message(Sent, None, m.attempts + 1, None, Some(now), m.createdAt)
    {
      if id in rows && w != Lost { rows := rows[id := SentRow(rows[id], now)]; }
      heard := w == Done;
    }

    method MarkMailFailed(id: RowId, error: string, terminal: bool, w: Writing) returns (heard: bool)
      modifies `rows
      ensures heard == (w == Done)
      ensures rows ==
        if id in old(rows) && w != Lost then old(rows)[id := FailedRow(old(rows)[id], error, terminal)] else old(rows)
      // Only a terminal failure clears the payload.
      ensures id in old(rows) && w != Lost && terminal ==>
        var m := old(rows)[id];
        rows[id] == Message(Failed, None, m.attempts + 1, Some(error), m.sentAt, m.createdAt)
      ensures id in old(rows) && w != Lost && !terminal ==>
        var m := old(rows)[id];
        rows[id] == Message(Queued, m.payload, m.attempts + 1, Some(error), m.sentAt, m.createdAt)
    {
      if id in rows && w != Lost { rows := rows[id := FailedRow(rows[id], error, terminal)]; }
      heard := w == Done;
    }

    /** `sendMailJob`, uninterrupted. `ok` is false when it throws. */
    method SendMailJob(id: RowId, lastAttempt: bool, luck: Luck, now: Time) returns (ok: bool)
      modifies `rows, `handed
      ensures id !in old(rows) ==> ok && rows == old(rows)
      ensures id in old(rows) ==>
        && id in rows && rows == old(rows)[id := rows[id]]
        && AfterSend(old(rows)[id], rows[id], lastAttempt, luck, now)
        && (ok <==> ReturnsNormally(old(rows)[id], luck))
      ensures handed == if id in old(rows) && Transmits(old(rows)[id], luck) then old(handed) + [id] else old(handed)
      // It is handed over once if it is unsent, has its payload, renders and is accepted, else not at all.
      ensures var m := if id in old(rows) then Some(old(rows)[id]) else None;
        var sends := m.Some? && m.value.status != Sent && m.value.payload.Some? && luck.renders && luck.accepted;
        handed == old(handed) + if sends then [id] else []
      ensures id in old(rows) && old(rows)[id].status == Sent ==> ok && rows == old(rows)
      // Sent and heard of.
      ensures |handed| > |old(handed)| && luck.sent == Done ==>
        ok && var m := old(rows)[id];
        rows == old(rows)[id := Message(Sent, None, m.attempts + 1, None, Some(now), m.createdAt)]
      // Without a payload, or where it does not render, the failure is for good.
      ensures var m := if id in old(rows) then Some(old(rows)[id]) else None;
        var hopeless := m.Some? && m.value.status != Sent && (m.value.payload == None || !luck.renders);
        hopeless && luck.failed != Lost ==>
        rows[id].status == Failed && rows[id].payload == None && rows[id].attempts == old(rows)[id].attempts + 1
      // A send that is not recorded is for good on the last attempt, and keeps its payload before it.
      ensures var m := if id in old(rows) then Some(old(rows)[id]) else None;
        var fails := m.Some? && m.value.status != Sent && m.value.payload.Some? && luck.renders
          && (!luck.accepted || luck.sent == Lost) && luck.failed != Lost;
        fails ==>
          && !ok && rows[id].attempts == m.value.attempts + 1 && rows[id].error.Some?
          && rows[id].status == (if lastAttempt then Failed else Queued)
          && rows[id].payload == (if lastAttempt then None else m.value.payload)
      // A success written and not heard of stands unless a failure is written over it.
      ensures |handed| > |old(handed)| && luck.sent == Unheard ==>
        && !ok && rows[id].payload == None && rows[id].sentAt == Some(now)
        && rows[id].status == (if luck.failed == Lost then Sent else if lastAttempt then Failed else Queued)
      ensures luck.failed == Lost && (handed == old(handed) || luck.sent == Lost) ==> rows == old(rows)
      ensures id in old(rows) && old(rows)[id].status != Sent ==> (ok <==>
        if old(rows)[id].payload == None then luck.failed == Done
        else luck.renders && luck.accepted && luck.sent == Done)
    {
      if id !in rows { return true; }
      var message := rows[id];
      if message.status == Sent { return true; }
      if message.payload.None? {
        ok := MarkMailFailed(id, "the payload was cleared at a terminal state", true, luck.failed);
        return;
      }
      if !luck.renders {
        var _ := MarkMailFailed(id, "the message could not be rendered", true, luck.failed);
        return false;
      }
      if luck.accepted {
        handed := handed + [id];
        ok := MarkMailSent(id, now, luck.sent);
        if ok { return; }
      }
      var _ := MarkMailFailed(id, "the send failed", lastAttempt, luck.failed);
      return false;
    }

    method FindStuckMail(now: Time) returns (ids: seq<RowId>)
      ensures ids == StuckMail(rows, now)
    {
      ids := Select(CreationTimes(rows), Stuck(rows, now - STUCK_AFTER_MS), SWEEP_BATCH);
    }

    method EnqueueSends(ids: seq<RowId>)
      modifies `jobs
      ensures jobs == old(jobs) + ids
    {
      for n := 0 to |ids|
        invariant jobs == old(jobs) + ids[..n]
      {
        jobs := jobs + [ids[n]];
      }
      assert ids[..|ids|] == ids;
    }

    /** `sweepStuckMailJob`: the rows stay as they are, and each stuck one gets a new send job. */
    method SweepStuckMail(now: Time)
      modifies `jobs
      ensures jobs == old(jobs) + StuckMail(rows, now)
    {
      var ids := FindStuckMail(now);
      EnqueueSends(ids);
    }

    method PruneMailMessages(olderThan: int, now: Time) returns (removed: nat)
      modifies `rows
      ensures rows == old(rows) - Prunable(old(rows), now - olderThan)
      ensures removed == |Prunable(old(rows), now - olderThan)|
      // What goes is finished and older than that; the rest stays as it is.
      ensures forall id <- old(rows) :: id !in rows <==>
        old(rows)[id].status in {Sent, Failed} && old(rows)[id].createdAt < now - olderThan
      ensures forall id <- rows :: id in old(rows) && rows[id] == old(rows)[id]
      ensures removed == |old(rows)| - |rows|
    {
      var gone := Prunable(rows, now - olderThan);
      removed := |gone|;
      assert (rows - gone).Keys == rows.Keys - gone && gone <= rows.Keys;
      rows := rows - gone;
    }
  }
}
