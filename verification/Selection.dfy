/**
  `ORDER BY time, id LIMIT n` over a set of rows. Both the claim query and the mail sweep
  are this shape, so the order and its one characterisation live here.
 */
module Selection {
  import opened Collections

  type RowId = nat

  predicate Precedes(times: map<RowId, int>, a: RowId, b: RowId)
    requires a in times && b in times
  {
    times[a] < times[b] || (times[a] == times[b] && a < b)
  }

  predicate IsFirst(times: map<RowId, int>, rows: set<RowId>, x: RowId)
    requires rows <= times.Keys
  {
    x in rows && forall y :: y in rows && y != x ==> Precedes(times, x, y)
  }

  lemma {:induction false} FirstExists(times: map<RowId, int>, rows: set<RowId>)
    requires rows <= times.Keys && rows != {}
    ensures exists x :: IsFirst(times, rows, x)
    decreases |rows|
  {
    var x :| x in rows;
    if rows == {x} {
      assert IsFirst(times, rows, x);
    } else {
      var rest := rows - {x};
      FirstExists(times, rest);
      var y :| IsFirst(times, rest, y);
      if Precedes(times, x, y) {
        assert forall z :: z in rows && z != x ==> z in rest;
        assert IsFirst(times, rows, x);
      } else {
        assert forall z :: z in rows && z != x ==> z in rest;
        assert IsFirst(times, rows, y);
      }
    }
  }

  /** The rows the query returns, in the order it returns them. */
  ghost function FirstN(times: map<RowId, int>, rows: set<RowId>, n: nat): (picked: seq<RowId>)
    requires rows <= times.Keys
    ensures forall x :: x in picked ==> x in rows
    ensures |picked| <= n
    decreases n
  {
    if n == 0 || rows == {} then []
    else
      FirstExists(times, rows);
      var x :| IsFirst(times, rows, x);
      [x] + FirstN(times, rows - {x}, n - 1)
  }

  /** The rows the order puts before `x`. */
  function Earlier(times: map<RowId, int>, rows: set<RowId>, x: RowId): set<RowId>
    requires rows <= times.Keys && x in times
  {
    set y | y in rows && Precedes(times, y, x)
  }

  /** A row is returned exactly when fewer than `n` rows come before it. */
  lemma {:induction false} PickedIffRankBelow(times: map<RowId, int>, rows: set<RowId>, n: nat, x: RowId)
    requires rows <= times.Keys && x in rows
    ensures x in FirstN(times, rows, n) <==> |Earlier(times, rows, x)| < n
    decreases n
  {
    if n == 0 {
    } else {
      FirstExists(times, rows);
      var first :| IsFirst(times, rows, first)
        && FirstN(times, rows, n) == [first] + FirstN(times, rows - {first}, n - 1);
      if x == first {
        assert Earlier(times, rows, x) == {};
      } else {
        PickedIffRankBelow(times, rows - {first}, n - 1, x);
        assert Earlier(times, rows, x) == Earlier(times, rows - {first}, x) + {first};
      }
    }
  }

  lemma RankFollowsOrder(times: map<RowId, int>, rows: set<RowId>, x: RowId, y: RowId)
    requires rows <= times.Keys && x in times && y in times && !Precedes(times, x, y)
    ensures |Earlier(times, rows, y)| <= |Earlier(times, rows, x)|
  {
    Smaller(Earlier(times, rows, y), Earlier(times, rows, x));
  }

  /** Every row returned comes before every row left behind. */
  lemma PickedPrecedesRest(times: map<RowId, int>, rows: set<RowId>, n: nat, x: RowId, y: RowId)
    requires rows <= times.Keys && y in rows
    requires x in FirstN(times, rows, n) && y !in FirstN(times, rows, n)
    ensures Precedes(times, x, y)
  {
    PickedIffRankBelow(times, rows, n, x);
    PickedIffRankBelow(times, rows, n, y);
    if !Precedes(times, x, y) {
      RankFollowsOrder(times, rows, x, y);
    }
  }

  /** The rows come back in order, none of them twice, and as many as there are up to `n`. */
  lemma {:induction false} PickedInOrder(times: map<RowId, int>, rows: set<RowId>, n: nat)
    requires rows <= times.Keys
    ensures var picked := FirstN(times, rows, n);
      && |picked| == (if |rows| < n then |rows| else n)
      && (forall i, j :: 0 <= i < j < |picked| ==> picked[i] != picked[j] && Precedes(times, picked[i], picked[j]))
    decreases n
  {
    if n > 0 && rows != {} {
      FirstExists(times, rows);
      var first :| IsFirst(times, rows, first)
        && FirstN(times, rows, n) == [first] + FirstN(times, rows - {first}, n - 1);
      PickedInOrder(times, rows - {first}, n - 1);
      assert |rows - {first}| == |rows| - 1;
    }
  }

  lemma OlderFirst(times: map<RowId, int>, rows: set<RowId>, n: nat, i: nat, j: nat)
    requires rows <= times.Keys && i < j < |FirstN(times, rows, n)|
    ensures var picked := FirstN(times, rows, n); picked[i] != picked[j] && times[picked[i]] <= times[picked[j]]
  {
    PickedInOrder(times, rows, n);
  }

  /** A row is left behind only for `n` rows that are all older than it. */
  lemma LeftOnlyForOlder(times: map<RowId, int>, rows: set<RowId>, n: nat)
    requires rows <= times.Keys
    ensures var picked := FirstN(times, rows, n);
      forall y <- rows | y !in picked ::
        && |picked| == n
        && forall x <- picked :: times[x] < times[y] || (times[x] == times[y] && x < y)
  {
    var picked := FirstN(times, rows, n);
    PickedInOrder(times, rows, n);
    forall y | y in rows && y !in picked
      ensures |picked| == n && forall x <- picked :: Precedes(times, x, y)
    {
      MembersCount(picked);
      Smaller(Members(picked), rows - {y});
      forall x | x in picked { PickedPrecedesRest(times, rows, n, x, y); }
    }
  }

  /** The same query against the same rows picks the same first row, whoever runs it. */
  lemma FirstIsUnique(times: map<RowId, int>, rows: set<RowId>, x: RowId, y: RowId)
    requires rows <= times.Keys && IsFirst(times, rows, x) && IsFirst(times, rows, y)
    ensures x == y
  {}

  lemma FirstNUnfolds(times: map<RowId, int>, rows: set<RowId>, n: nat, x: RowId)
    requires rows <= times.Keys && n > 0 && IsFirst(times, rows, x)
    ensures FirstN(times, rows, n) == [x] + FirstN(times, rows - {x}, n - 1)
  {
    FirstExists(times, rows);
    var first :| IsFirst(times, rows, first)
      && FirstN(times, rows, n) == [first] + FirstN(times, rows - {first}, n - 1);
    FirstIsUnique(times, rows, x, first);
  }

  /** The query, run. */
  method Select(times: map<RowId, int>, rows: set<RowId>, n: nat) returns (ids: seq<RowId>)
    requires rows <= times.Keys
    ensures ids == FirstN(times, rows, n)
  {
    var left := rows;
    ids := [];
    while |ids| < n && left != {}
      invariant left <= rows && |ids| <= n
      invariant ids + FirstN(times, left, n - |ids|) == FirstN(times, rows, n)
      decreases n - |ids|
    {
      FirstExists(times, left);
      var x: RowId :| x in left && IsFirst(times, left, x);
      FirstNUnfolds(times, left, n - |ids|, x);
      assert ids + ([x] + FirstN(times, left - {x}, n - |ids| - 1)) ==
        (ids + [x]) + FirstN(times, left - {x}, n - |ids| - 1);
      ids := ids + [x];
      left := left - {x};
    }
    assert ids == FirstN(times, rows, n);
  }
}
