/**
  `lastDueAt`: the bounded forward walk, over any cron expression, and what a scheduler that
  ticks with it finds. Instants are milliseconds.
 */
module Cron {
  import opened Wrappers

  const MAX_STEPS := 10_000

  /** croner's `nextRun`, as far as it is used here: it moves forward. */
  ghost predicate Advances(next: int -> Option<int>) {
    forall t :: next(t).Some? ==> t < next(t).value
  }

  /** `next` answers for the expression whose due instants are `due`: the least one strictly later. */
  ghost predicate AnswersFor(next: int -> Option<int>, due: int -> bool) {
    && Advances(next)
    && forall t ::
         if next(t).Some? then due(next(t).value) && forall u :: t < u < next(t).value ==> !due(u)
         else forall u :: t < u ==> !due(u)
  }

  /** The instants `next` visits after `from`, up to `now`. */
  ghost function DueIn(next: int -> Option<int>, from: int, now: int): seq<int>
    requires Advances(next)
    decreases now - from
  {
    if next(from).Some? && next(from).value <= now
    then [next(from).value] + DueIn(next, next(from).value, now)
    else []
  }

  ghost function Walk(next: int -> Option<int>, now: int, window: int): Option<int>
    requires Advances(next)
  {
    var due := DueIn(next, now - window, now);
    if due == [] then None
    else Some(due[(if |due| <= MAX_STEPS then |due| else MAX_STEPS) - 1])
  }

  method LastDueAt(next: int -> Option<int>, now: int, window: int) returns (last: Option<int>)
    requires Advances(next)
    ensures last == Walk(next, now, window)
  {
    ghost var due := DueIn(next, now - window, now);
    ghost var at := now - window;
    var cursor := next(now - window);
    last := None;
    for step := 0 to MAX_STEPS
      invariant cursor == next(at)
      invariant step <= |due| && due[step..] == DueIn(next, at, now)
      invariant last == if step == 0 then None else Some(due[step - 1])
    {
      if cursor.None? || cursor.value > now { return; }
      assert due[step..] == [cursor.value] + DueIn(next, cursor.value, now);
      assert due[step] == due[step..][0] && due[step + 1..] == due[step..][1..];
      last := cursor;
      at := cursor.value;
      cursor := next(cursor.value);
    }
  }

  // --- What the walk finds -----------------------------------------------------------------

  /** The walk visits exactly the due instants of the window, in order. */
  lemma {:induction false} DueInIsExact(next: int -> Option<int>, due: int -> bool, from: int, now: int)
    requires AnswersFor(next, due)
    ensures forall u :: u in DueIn(next, from, now) <==> due(u) && from < u <= now
    ensures forall i, j :: 0 <= i < j < |DueIn(next, from, now)| ==>
      DueIn(next, from, now)[i] < DueIn(next, from, now)[j]
    decreases now - from
  {
    var n := next(from);
    if n.Some? && n.value <= now {
      DueInIsExact(next, due, n.value, now);
      var rest := DueIn(next, n.value, now);
      assert forall u :: u in DueIn(next, from, now) <==> u == n.value || u in rest;
      assert forall i :: 0 <= i < |rest| ==> rest[i] in rest;
    }
  }

  /** The greatest due instant in `(from, now]`, or `None` when there is none. */
  ghost predicate IsLastDue(due: int -> bool, from: int, now: int, last: Option<int>) {
    if last.Some? then
      due(last.value) && from < last.value <= now && forall u :: last.value < u <= now ==> !due(u)
    else
      forall u :: from < u <= now ==> !due(u)
  }

  lemma LastIsGreatest(found: seq<int>, u: int)
    requires u in found && forall i, j :: 0 <= i < j < |found| ==> found[i] < found[j]
    ensures u <= found[|found| - 1]
  {
    var i :| 0 <= i < |found| && found[i] == u;
  }

  /** The cap is the only thing that can make the answer wrong, and then it always does. */
  lemma WalkFindsLastDueIffUnderCap(next: int -> Option<int>, due: int -> bool, now: int, window: int)
    requires AnswersFor(next, due)
    ensures IsLastDue(due, now - window, now, Walk(next, now, window)) <==>
      |DueIn(next, now - window, now)| <= MAX_STEPS
  {
    var found := DueIn(next, now - window, now);
    DueInIsExact(next, due, now - window, now);
    if found != [] {
      var last := found[|found| - 1];
      assert last in found && Walk(next, now, window).value in found;
      forall u | u in found
        ensures u <= last
      {
        LastIsGreatest(found, u);
      }
    }
  }

  lemma {:induction false} DueUpTo(next: int -> Option<int>, from: int, now: int, k: nat)
    requires Advances(next) && k < |DueIn(next, from, now)|
    ensures var due := DueIn(next, from, now); due[k] <= now && DueIn(next, from, due[k]) == due[..k + 1]
    decreases k
  {
    var due, first := DueIn(next, from, now), next(from).value;
    assert due[1..] == DueIn(next, first, now);
    if k == 0 {
      assert DueIn(next, first, first) == [] && due[..1] == [first];
    } else {
      DueUpTo(next, first, now, k - 1);
      DueInGrows(next, first, now, k - 1);
      assert due[..k + 1] == [first] + due[1..][..k];
    }
  }

  lemma {:induction false} DueInGrows(next: int -> Option<int>, from: int, now: int, k: nat)
    requires Advances(next) && k < |DueIn(next, from, now)|
    ensures from < DueIn(next, from, now)[k]
    decreases k
  {
    if k > 0 { DueInGrows(next, next(from).value, now, k - 1); }
  }

  /** Over the cap the answer is the ten thousandth due instant of the window. */
  lemma OverTheCap(next: int -> Option<int>, now: int, window: int)
    requires Advances(next) && |DueIn(next, now - window, now)| > 10_000
    ensures var last := Walk(next, now, window);
      last.Some? && |DueIn(next, now - window, last.value)| == 10_000 && last.value in DueIn(next, now - window, now)
  {
    DueUpTo(next, now - window, now, MAX_STEPS - 1);
  }

  // --- What a ticking scheduler finds ------------------------------------------------------

  ghost predicate AllUnderCap(next: int -> Option<int>, window: int, ticks: seq<int>)
    requires Advances(next)
  {
    forall i :: 0 <= i < |ticks| ==> |DueIn(next, ticks[i] - window, ticks[i])| <= MAX_STEPS
  }

  ghost predicate AtMostOneDue(due: int -> bool, from: int, now: int) {
    forall u, v :: from < u <= now && from < v <= now && due(u) && due(v) ==> u == v
  }

  /** Ticks come at least once a window, and no two due instants fall between neighbours. */
  ghost predicate KeepsUp(due: int -> bool, window: int, ticks: seq<int>) {
    forall i :: 0 < i < |ticks| ==>
      ticks[i - 1] <= ticks[i] <= ticks[i - 1] + window && AtMostOneDue(due, ticks[i - 1], ticks[i])
  }

  lemma {:induction false} TickBefore(ticks: seq<int>, u: int) returns (i: nat)
    requires ticks != [] && ticks[0] < u <= ticks[|ticks| - 1]
    ensures 0 < i < |ticks| && ticks[i - 1] < u <= ticks[i]
    decreases |ticks|
  {
    if u <= ticks[|ticks| - 2] {
      i := TickBefore(ticks[..|ticks| - 1], u);
    } else {
      i := |ticks| - 1;
    }
  }

  lemma TickFindsIt(next: int -> Option<int>, due: int -> bool, window: int, before: int, now: int, u: int)
    requires AnswersFor(next, due)
    requires |DueIn(next, now - window, now)| <= MAX_STEPS
    requires now <= before + window && AtMostOneDue(due, before, now)
    requires due(u) && before < u <= now
    ensures Walk(next, now, window) == Some(u)
  {
    WalkFindsLastDueIffUnderCap(next, due, now, window);
    var last := Walk(next, now, window);
    assert now - window < u <= now;
    assert last.Some? && u <= last.value;
  }

  lemma FoundIsDue(next: int -> Option<int>, due: int -> bool, window: int, now: int, u: int)
    requires AnswersFor(next, due) && Walk(next, now, window) == Some(u)
    ensures due(u)
  {
    DueInIsExact(next, due, now - window, now);
    assert u in DueIn(next, now - window, now);
  }

  /** Then the ticks find, of the instants after the first tick, exactly those that are due. */
  lemma FoundIffDue(next: int -> Option<int>, due: int -> bool, window: int, ticks: seq<int>, u: int)
    requires AnswersFor(next, due)
    requires ticks != [] && AllUnderCap(next, window, ticks) && KeepsUp(due, window, ticks)
    requires ticks[0] < u <= ticks[|ticks| - 1]
    ensures (exists i :: 0 <= i < |ticks| && Walk(next, ticks[i], window) == Some(u)) <==> due(u)
  {
    if due(u) {
      var i := TickBefore(ticks, u);
      TickFindsIt(next, due, window, ticks[i - 1], ticks[i], u);
    }
    if i :| 0 <= i < |ticks| && Walk(next, ticks[i], window) == Some(u) {
      FoundIsDue(next, due, window, ticks[i], u);
    }
  }
}
