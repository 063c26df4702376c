/** Reading the audit trail page by page, while it is being written. */
module AuditPaging {
  import opened Collections
  import opened Wrappers
  import opened Selection

  datatype Entry = Entry(action: string, subjectType: string, subjectId: Option<string>, actorId: Option<string>)

  /** Ids grow with time, as version 7 UUIDs do, so a larger id is a later row. */
  type Log = map<RowId, Entry>

  datatype Filter = Filter(
    actions: seq<string>,
    subjectTypes: seq<string>,
    subjectId: Option<string>,
    actorId: Option<string>)

  datatype Page = Page(items: seq<RowId>, nextCursor: Option<RowId>)

  predicate Matches(e: Entry, f: Filter) {
    && (f.actions == [] || e.action in f.actions)
    && (f.subjectTypes == [] || e.subjectType in f.subjectTypes)
    && (f.subjectId == None || e.subjectId == f.subjectId)
    && (f.actorId == None || e.actorId == f.actorId)
  }

  predicate Before(id: RowId, cursor: Option<RowId>) {
    cursor == None || id < cursor.value
  }

  /** The rows the query selects, before its limit. */
  function Selected(log: Log, f: Filter, cursor: Option<RowId>): set<RowId> {
    set id | id in log && Matches(log[id], f) && Before(id, cursor)
  }

  /** `ORDER BY id DESC`. */
  function NewestFirst(log: Log): map<RowId, int> {
    map id | id in log :: -id
  }

  ghost function PageOf(log: Log, f: Filter, cursor: Option<RowId>, limit: nat): Page {
    var rows := FirstN(NewestFirst(log), Selected(log, f, cursor), limit + 1);
    var items := if |rows| > limit then rows[..limit] else rows;
    Page(items, if |rows| > limit && items != [] then Some(items[|items| - 1]) else None)
  }

  ghost predicate Descending(ids: seq<RowId>) {
    forall i, j :: 0 <= i < j < |ids| ==> ids[i] > ids[j]
  }

  /** When what is left fits on a page, the page is all of it and the last one. */
  lemma LastPageIsComplete(log: Log, f: Filter, cursor: Option<RowId>, limit: nat)
    requires |Selected(log, f, cursor)| <= limit
    ensures var page := PageOf(log, f, cursor, limit);
      page.nextCursor == None && Descending(page.items) && Members(page.items) == Selected(log, f, cursor)
  {
    var times, rest := NewestFirst(log), Selected(log, f, cursor);
    var rows := FirstN(times, rest, limit + 1);
    PickedInOrder(times, rest, limit + 1);
    AllAreMembers(rows, rest);
  }

  lemma AllAreMembers(ids: seq<RowId>, rows: set<RowId>)
    requires Distinct(ids) && |ids| == |rows| && forall id <- ids :: id in rows
    ensures Members(ids) == rows
  {
    MembersCount(ids);
    Smaller(Members(ids), rows);
    assert rows - Members(ids) == {};
  }

  lemma RowIsOnPageIff(log: Log, f: Filter, cursor: Option<RowId>, limit: nat, x: RowId)
    requires limit > 0 && x in Selected(log, f, cursor) && |Selected(log, f, cursor)| > limit
    ensures |PageOf(log, f, cursor, limit).items| == limit
    ensures x in PageOf(log, f, cursor, limit).items <==> x >= PageOf(log, f, cursor, limit).items[limit - 1]
  {
    var times, rest := NewestFirst(log), Selected(log, f, cursor);
    var rows := FirstN(times, rest, limit + 1);
    PickedInOrder(times, rest, limit + 1);
    var c := rows[..limit][limit - 1];
    assert c == rows[limit - 1];
    if x !in rows {
      assert rows[limit - 1] in rows;
      PickedPrecedesRest(times, rest, limit + 1, c, x);
    } else {
      var i :| 0 <= i <= limit && rows[i] == x;
      if i < limit { assert rows[..limit][i] == x; }
    }
  }

  lemma FullPageIsFirst(log: Log, f: Filter, cursor: Option<RowId>, limit: nat)
    requires 0 < limit < |Selected(log, f, cursor)|
    ensures var rest, page := Selected(log, f, cursor), PageOf(log, f, cursor, limit);
      && |page.items| == limit && page.nextCursor == Some(page.items[limit - 1])
      && Descending(page.items) && forall x <- page.items :: x in rest
  {
    var rows := FirstN(NewestFirst(log), Selected(log, f, cursor), limit + 1);
    SelectedDescends(log, f, cursor, limit + 1);
    FirstOfDescending(rows, limit);
    assert PageOf(log, f, cursor, limit).items == rows[..limit];
  }

  lemma SelectedDescends(log: Log, f: Filter, cursor: Option<RowId>, n: nat)
    ensures var rows := FirstN(NewestFirst(log), Selected(log, f, cursor), n);
      Descending(rows) && |rows| == if |Selected(log, f, cursor)| < n then |Selected(log, f, cursor)| else n
  {
    PickedInOrder(NewestFirst(log), Selected(log, f, cursor), n);
  }

  lemma FirstOfDescending(ids: seq<RowId>, n: nat)
    requires Descending(ids) && n <= |ids|
    ensures Descending(ids[..n]) && forall x <- ids[..n] :: x in ids
  {}

  /** Otherwise it holds the `limit` newest, and its cursor leaves exactly the others. */
  lemma FullPageSplits(log: Log, f: Filter, cursor: Option<RowId>, limit: nat)
    requires 0 < limit < |Selected(log, f, cursor)|
    ensures var rest, page := Selected(log, f, cursor), PageOf(log, f, cursor, limit);
      && |page.items| == limit && page.nextCursor == Some(page.items[limit - 1])
      && Descending(page.items) && Members(page.items) <= rest
      && Selected(log, f, page.nextCursor) == rest - Members(page.items)
  {
    var rest, items := Selected(log, f, cursor), PageOf(log, f, cursor, limit).items;
    FullPageIsFirst(log, f, cursor, limit);
    var c := items[limit - 1];
    assert c in items && c in rest;
    forall x | x in rest
      ensures x in items <==> x >= c
    {
      RowIsOnPageIff(log, f, cursor, limit, x);
    }
    BelowCursor(log, f, cursor, c);
  }

  lemma BelowCursor(log: Log, f: Filter, cursor: Option<RowId>, c: RowId)
    requires Before(c, cursor)
    ensures forall x :: x in Selected(log, f, Some(c)) <==> x in Selected(log, f, cursor) && x < c
  {}

  lemma PageShowsTheNewest(log: Log, f: Filter, cursor: Option<RowId>, limit: nat)
    ensures var rest, items := Selected(log, f, cursor), PageOf(log, f, cursor, limit).items;
      && |items| <= limit && (forall id <- items :: id in rest)
      && forall id <- rest | id !in items :: |items| == limit && forall x <- items :: id < x
  {
    if limit == 0 {
    } else if |Selected(log, f, cursor)| <= limit {
      LastPageIsComplete(log, f, cursor, limit);
      var items := PageOf(log, f, cursor, limit).items;
      assert forall id :: id in items <==> id in Members(items);
    } else {
      FullPageSplits(log, f, cursor, limit);
      var items := PageOf(log, f, cursor, limit).items;
      assert forall id :: id in items <==> id in Members(items);
      forall id | id in Selected(log, f, cursor) && id !in items
        ensures id < items[limit - 1]
      {
        assert id in Selected(log, f, Some(items[limit - 1]));
      }
    }
  }

  method ListAuditLogs(log: Log, f: Filter, cursor: Option<RowId>, limit: nat) returns (page: Page)
    ensures page == PageOf(log, f, cursor, limit)
    // It shows rows that pass the filter, below the cursor, and leaves out only older ones.
    ensures |page.items| <= limit && forall id <- page.items :: id in log && (cursor == None || id < cursor.value)
    ensures forall id <- page.items ::
      && (f.actions == [] || log[id].action in f.actions)
      && (f.subjectTypes == [] || log[id].subjectType in f.subjectTypes)
      && (f.subjectId == None || log[id].subjectId == f.subjectId)
      && (f.actorId == None || log[id].actorId == f.actorId)
    ensures forall id <- log | id !in page.items && (cursor == None || id < cursor.value)
      && (f.actions == [] || log[id].action in f.actions)
      && (f.subjectTypes == [] || log[id].subjectType in f.subjectTypes)
      && (f.subjectId == None || log[id].subjectId == f.subjectId)
      && (f.actorId == None || log[id].actorId == f.actorId)
      :: |page.items| == limit && forall x <- page.items :: id < x
  {
    PageShowsTheNewest(log, f, cursor, limit);
    var rows := Select(NewestFirst(log), Selected(log, f, cursor), limit + 1);
    var items := if |rows| > limit then rows[..limit] else rows;
    var nextCursor := None;
    if |rows| > limit && items != [] { nextCursor := Some(items[|items| - 1]); }
    page := Page(items, nextCursor);
  }

  // --- Following the cursor ------------------------------------------------------------------

  /** Rows were only added, and only above those that were there before. */
  ghost predicate GrewAtTheTop(before: Log, after: Log) {
    && (forall id <- before :: id in after && after[id] == before[id])
    && (forall id, o | id in after && id !in before && o in before :: o < id)
  }

  /** The log as each page finds it, compared with the log when the reading began. */
  ghost predicate KeepsGrowing(logs: nat -> Log) {
    forall k: nat :: GrewAtTheTop(logs(0), logs(k))
  }

  /** Pages `k`, `k + 1`, ... up to `n` of them, each read from the log as it is by then. */
  ghost function Read(logs: nat -> Log, f: Filter, limit: nat, cursor: Option<RowId>, k: nat, n: nat): seq<RowId>
    requires n > 0
    decreases n
  {
    var page := PageOf(logs(k), f, cursor, limit);
    if page.nextCursor == None || n == 1 then page.items
    else page.items + Read(logs, f, limit, page.nextCursor, k + 1, n - 1)
  }

  /** The last of those pages says there is nothing older. */
  ghost predicate Ends(logs: nat -> Log, f: Filter, limit: nat, cursor: Option<RowId>, k: nat, n: nat)
    requires n > 0
    decreases n
  {
    var page := PageOf(logs(k), f, cursor, limit);
    page.nextCursor == None || (n > 1 && Ends(logs, f, limit, page.nextCursor, k + 1, n - 1))
  }

  /** What lies below a cursor does not change. */
  ghost predicate Settled(logs: nat -> Log, f: Filter) {
    forall k: nat, c | c in logs(0) :: Selected(logs(k), f, Some(c)) == Selected(logs(0), f, Some(c))
  }

  lemma BelowIsSettled(before: Log, after: Log, f: Filter, c: RowId)
    requires GrewAtTheTop(before, after) && c in before
    ensures Selected(after, f, Some(c)) == Selected(before, f, Some(c))
  {
    forall id
      ensures id in Selected(after, f, Some(c)) <==> id in Selected(before, f, Some(c))
    {
      if id in after && id !in before { assert c < id; }
    }
  }

  lemma GrowingIsSettled(logs: nat -> Log, f: Filter)
    requires KeepsGrowing(logs)
    ensures Settled(logs, f)
  {
    forall k: nat, c | c in logs(0)
      ensures Selected(logs(k), f, Some(c)) == Selected(logs(0), f, Some(c))
    {
      BelowIsSettled(logs(0), logs(k), f, c);
    }
  }

  lemma Glue(a: seq<RowId>, b: seq<RowId>, c: RowId)
    requires Descending(a) && Descending(b) && (forall x <- a :: x >= c) && (forall x <- b :: x < c)
    ensures Descending(a + b) && Members(a + b) == Members(a) + Members(b)
  {
    forall i, j | 0 <= i < j < |a + b|
      ensures (a + b)[i] > (a + b)[j]
    {
      if i < |a| <= j { assert a[i] in a && b[j - |a|] in b; }
    }
  }

  /** Each of them once, newest first, none but these, and all of them once the end is reached. */
  ghost predicate Covers(ids: seq<RowId>, rest: set<RowId>, ended: bool) {
    Descending(ids) && Members(ids) <= rest && (ended ==> Members(ids) == rest)
  }

  lemma NextPageCovers(page: seq<RowId>, later: seq<RowId>, rest: set<RowId>, ended: bool)
    requires page != [] && Descending(page) && Members(page) <= rest
    requires forall x <- rest - Members(page) :: x < page[|page| - 1]
    requires Covers(later, rest - Members(page), ended)
    ensures Covers(page + later, rest, ended)
    ensures |rest| == |page| + |rest - Members(page)|
  {
    MembersCount(page);
    Smaller(Members(page), rest);
    assert forall x <- later :: x in Members(later);
    Glue(page, later, page[|page| - 1]);
  }

  lemma CursorIsSettled(logs: nat -> Log, f: Filter, limit: nat, cursor: Option<RowId>, k: nat)
    requires Settled(logs, f) && 0 < limit < |Selected(logs(0), f, cursor)|
    requires Selected(logs(k), f, cursor) == Selected(logs(0), f, cursor)
    ensures var rest, page := Selected(logs(0), f, cursor), PageOf(logs(k), f, cursor, limit);
      && |page.items| == limit && Descending(page.items) && Members(page.items) <= rest
      && page.nextCursor != None
      && Selected(logs(0), f, page.nextCursor) == rest - Members(page.items)
      && Selected(logs(k + 1), f, page.nextCursor) == rest - Members(page.items)
      && forall x <- rest - Members(page.items) :: x < page.items[limit - 1]
  {
    FullPageSplits(logs(k), f, cursor, limit);
    var c := PageOf(logs(k), f, cursor, limit).items[limit - 1];
    assert c in Members(PageOf(logs(k), f, cursor, limit).items);
    assert Selected(logs(k), f, Some(c)) == Selected(logs(0), f, Some(c));
    assert Selected(logs(k + 1), f, Some(c)) == Selected(logs(0), f, Some(c));
  }

  lemma ReadUnfolds(logs: nat -> Log, f: Filter, limit: nat, cursor: Option<RowId>, k: nat, n: nat)
    requires n > 1 && PageOf(logs(k), f, cursor, limit).nextCursor != None
    ensures var page := PageOf(logs(k), f, cursor, limit);
      && Read(logs, f, limit, cursor, k, n) == page.items + Read(logs, f, limit, page.nextCursor, k + 1, n - 1)
      && Ends(logs, f, limit, cursor, k, n) == Ends(logs, f, limit, page.nextCursor, k + 1, n - 1)
  {}

  lemma {:induction false} ReadingCovers(logs: nat -> Log, f: Filter, limit: nat, cursor: Option<RowId>, k: nat, n: nat)
    requires limit > 0 && n > 0 && Settled(logs, f)
    requires Selected(logs(k), f, cursor) == Selected(logs(0), f, cursor)
    ensures Covers(Read(logs, f, limit, cursor, k, n), Selected(logs(0), f, cursor), Ends(logs, f, limit, cursor, k, n))
    decreases n
  {
    if |Selected(logs(0), f, cursor)| <= limit {
      LastPageIsComplete(logs(k), f, cursor, limit);
    } else {
      CursorIsSettled(logs, f, limit, cursor, k);
      if n > 1 {
        var page := PageOf(logs(k), f, cursor, limit);
        ReadUnfolds(logs, f, limit, cursor, k, n);
        ReadingCovers(logs, f, limit, page.nextCursor, k + 1, n - 1);
        NextPageCovers(page.items, Read(logs, f, limit, page.nextCursor, k + 1, n - 1), Selected(logs(0), f, cursor),
                       Ends(logs, f, limit, page.nextCursor, k + 1, n - 1));
      }
    }
  }

  lemma {:induction false} ReadingEnds(logs: nat -> Log, f: Filter, limit: nat, cursor: Option<RowId>, k: nat, n: nat)
    requires limit > 0 && n > 0 && Settled(logs, f)
    requires Selected(logs(k), f, cursor) == Selected(logs(0), f, cursor)
    ensures Ends(logs, f, limit, cursor, k, n) <==> |Selected(logs(0), f, cursor)| <= n * limit
    decreases n
  {
    var rest := Selected(logs(0), f, cursor);
    if |rest| <= limit {
      LastPageIsComplete(logs(k), f, cursor, limit);
      assert limit <= n * limit;
    } else {
      CursorIsSettled(logs, f, limit, cursor, k);
      var page := PageOf(logs(k), f, cursor, limit);
      if n > 1 {
        ReadUnfolds(logs, f, limit, cursor, k, n);
        ReadingEnds(logs, f, limit, page.nextCursor, k + 1, n - 1);
        MembersCount(page.items);
        Smaller(Members(page.items), rest);
        assert n * limit == (n - 1) * limit + limit;
      }
    }
  }

  /** Following `nextCursor` from the first page shows every matching row that existed at the
      start exactly once, newest first, and no other. It takes as many pages as those rows
      fill: `n` pages reach the end exactly when `n * limit` is at least their number. */
  lemma EveryRowIsReadOnce(logs: nat -> Log, f: Filter, limit: nat, n: nat)
    requires limit > 0 && n > 0 && KeepsGrowing(logs)
    ensures Ends(logs, f, limit, None, 0, n) <==> |Selected(logs(0), f, None)| <= n * limit
    ensures Covers(Read(logs, f, limit, None, 0, n), Selected(logs(0), f, None), Ends(logs, f, limit, None, 0, n))
  {
    GrowingIsSettled(logs, f);
    ReadingCovers(logs, f, limit, None, 0, n);
    ReadingEnds(logs, f, limit, None, 0, n);
  }
}
