/**
  One scheduler process: `fire` and the `tick` loop, run while no other transaction is open.
  Each statement is a step of the protocol in `Scheduler`.
 */
module ScheduleStore {
  import opened Wrappers
  import opened Codecs
  import opened Scheduler

  /** A schedule, its most recent due instant if any, and whether its enqueue will succeed. */
  datatype Pass = Pass(schedule: string, due: Option<Stamp>, accepted: bool)

  ghost predicate Quiet(db: State, nextId: nat) {
    forall x :: x in db ==> Finished(db[x]) && x < nextId
  }

  predicate TickClaimed(db: State, schedule: string, firedFor: Stamp) {
    exists x :: x in db && HoldsTick(db[x], schedule, firedFor)
  }

  predicate KeyTaken(db: State, key: string) {
    exists x :: x in db && HoldsJob(db[x], key)
  }

  /** The tables after one `fire` whose transaction was `x`. */
  function Fire(db: State, x: nat, p: Pass): State
    requires p.due.Some?
  {
    var key := JobKeyFor(p.schedule, p.due.value);
    if TickClaimed(db, p.schedule, p.due.value) then
      db[x := Tx(p.schedule, p.due.value, false, key, Committed, false, false)]
    else if !p.accepted then db
    else db[x := Tx(p.schedule, p.due.value, false, key, Committed, true, !KeyTaken(db, key))]
  }

  predicate Fires(db: State, p: Pass) {
    p.due.Some? && p.accepted && !TickClaimed(db, p.schedule, p.due.value)
  }

  /** The tables after the passes. */
  function After(db: State, x: nat, ps: seq<Pass>): State
    decreases |ps|
  {
    if ps == [] then db
    else
      var before, last := After(db, x, ps[..|ps| - 1]), ps[|ps| - 1];
      if last.due.None? then before else Fire(before, x + |ps| - 1, last)
  }

  /** How many of the passes claimed their tick. */
  function Claims(db: State, x: nat, ps: seq<Pass>): nat
    decreases |ps|
  {
    if ps == [] then 0
    else Claims(db, x, ps[..|ps| - 1]) + (if Fires(After(db, x, ps[..|ps| - 1]), ps[|ps| - 1]) then 1 else 0)
  }

  class Store {
    var db: State
    var nextId: nat

    ghost predicate Valid()
      reads this
    {
      Quiet(db, nextId)
    }

    constructor ()
      ensures Valid() && db == map[]
    {
      db := map[];
      nextId := 0;
    }

    /** Claim, then enqueue, in one transaction. A failed enqueue rolls the claim back, so the
        tick is attempted again on the next pass. */
    method FireTick(p: Pass) returns (r: Result<bool, string>)
      requires Valid() && p.due.Some?
      modifies this
      ensures Valid() && nextId == old(nextId) + 1
      ensures db == Fire(old(db), old(nextId), p)
      ensures r == if TickClaimed(old(db), p.schedule, p.due.value) then Ok(false)
                   else if p.accepted then Ok(true) else Err("the enqueue failed")
    {
      var x := nextId;
      nextId := nextId + 1;
      var tx := Tx(p.schedule, p.due.value, false, JobKeyFor(p.schedule, p.due.value), Opened, false, false);
      if TickClaimed(db, p.schedule, p.due.value) {
        tx := tx.(phase := Beaten);
      } else {
        tx := tx.(phase := Claimed, row := true);
        if !p.accepted {
          return Err("the enqueue failed");
        }
        tx := tx.(phase := Ready, job := !KeyTaken(db, tx.key));
      }
      r := Ok(tx.phase == Ready);
      db := db[x := tx.(phase := Committed)];
    }

    /** One pass over the schedules. A schedule whose fire fails does not stop the next one. */
    method Tick(ps: seq<Pass>) returns (fired: nat)
      requires Valid()
      modifies this
      ensures Valid() && nextId == old(nextId) + |ps|
      ensures db == After(old(db), old(nextId), ps) && fired == Claims(old(db), old(nextId), ps)
    {
      fired := 0;
      for n := 0 to |ps|
        invariant Valid() && nextId == old(nextId) + n
        invariant db == After(old(db), old(nextId), ps[..n]) && fired == Claims(old(db), old(nextId), ps[..n])
      {
        assert ps[..n + 1][..n] == ps[..n];
        if ps[n].due.Some? {
          var r := FireTick(ps[n]);
          if r == Ok(true) {
            fired := fired + 1;
          }
        } else {
          nextId := nextId + 1;
        }
      }
      assert ps[..|ps|] == ps;
    }
  }

  // --- A fire is a run of the protocol -----------------------------------------------------

  function OpenedTx(p: Pass): Tx
    requires p.due.Some?
  {
    Tx(p.schedule, p.due.value, false, JobKeyFor(p.schedule, p.due.value), Opened, false, false)
  }

  function FireEvents(db: State, x: nat, p: Pass): seq<Event>
    requires p.due.Some?
  {
    [Begin(x, p.schedule, p.due.value, false), ClaimTick(x)] +
    (if TickClaimed(db, p.schedule, p.due.value) then [Commit(x)]
     else if !p.accepted then [Rollback(x)]
     else [Enqueue(x), Commit(x)])
  }

  lemma ClaimDecides(names: set<string>, db: State, x: nat, p: Pass)
    requires Quiet(db, x) && p.schedule in names && p.due.Some?
    ensures var begun := db[x := OpenedTx(p)];
      && Enabled(names, begun, ClaimTick(x))
      && Next(names, begun, ClaimTick(x)) == db[x :=
           if TickClaimed(db, p.schedule, p.due.value) then OpenedTx(p).(phase := Beaten)
           else OpenedTx(p).(phase := Claimed, row := true)]
  {
    var begun := db[x := OpenedTx(p)];
    if y :| y in db && HoldsTick(db[y], p.schedule, p.due.value) {
      assert y in begun && HoldsTick(begun[y], p.schedule, p.due.value);
    }
    if y :| y in begun && HoldsTick(begun[y], p.schedule, p.due.value) {
      assert y in db && HoldsTick(db[y], p.schedule, p.due.value);
    }
  }

  lemma KeyTakenFrame(db: State, x: nat, t: Tx, db': State, key: string)
    requires Quiet(db, x) && !t.job && db' == db[x := t]
    ensures KeyTaken(db', key) <==> KeyTaken(db, key)
    ensures forall y :: y in db' && HoldsJob(db'[y], key) ==> Finished(db'[y])
  {
    if y :| y in db && HoldsJob(db[y], key) {
      assert y in db' && HoldsJob(db'[y], key);
    }
    if y :| y in db' && HoldsJob(db'[y], key) {
      assert y in db && HoldsJob(db[y], key);
    }
  }

  lemma EnqueueFollows(names: set<string>, db: State, x: nat, p: Pass)
    requires Quiet(db, x) && p.due.Some?
    ensures var claimed := db[x := OpenedTx(p).(phase := Claimed, row := true)];
      && Enabled(names, claimed, Enqueue(x))
      && Next(names, claimed, Enqueue(x)) == db[x :=
           OpenedTx(p).(phase := Ready, row := true, job := !KeyTaken(db, JobKeyFor(p.schedule, p.due.value)))]
  {
    var t := OpenedTx(p).(phase := Claimed, row := true);
    KeyTakenFrame(db, x, t, db[x := t], t.key);
    assert Next(names, db[x := t], Enqueue(x))[x].job == !KeyTaken(db[x := t], t.key);
  }

  /** The events after the claim, from the state the claim left. */
  lemma ClaimedFireIsARun(names: set<string>, db: State, x: nat, p: Pass)
    requires Quiet(db, x) && p.schedule in names && p.due.Some? && !TickClaimed(db, p.schedule, p.due.value)
    ensures var claimed, rest := db[x := OpenedTx(p).(phase := Claimed, row := true)], FireEvents(db, x, p)[2..];
      ValidRun(names, claimed, rest) && Run(names, claimed, rest) == Fire(db, x, p)
  {
    var claimed := db[x := OpenedTx(p).(phase := Claimed, row := true)];
    var rest := FireEvents(db, x, p)[2..];
    if p.accepted {
      EnqueueFollows(names, db, x, p);
      RunCons(names, Next(names, claimed, Enqueue(x)), Commit(x), []);
      RunCons(names, claimed, Enqueue(x), [Commit(x)] + []);
      assert rest == [Enqueue(x)] + ([Commit(x)] + []);
    } else {
      assert claimed - {x} == db;
      RunCons(names, claimed, Rollback(x), []);
      assert rest == [Rollback(x)] + [];
    }
  }

  lemma BeatenFireIsARun(names: set<string>, db: State, x: nat, p: Pass)
    requires Quiet(db, x) && p.schedule in names && p.due.Some? && TickClaimed(db, p.schedule, p.due.value)
    ensures var lost, rest := db[x := OpenedTx(p).(phase := Beaten)], FireEvents(db, x, p)[2..];
      ValidRun(names, lost, rest) && Run(names, lost, rest) == Fire(db, x, p)
  {
    var lost := db[x := OpenedTx(p).(phase := Beaten)];
    RunCons(names, lost, Commit(x), []);
    assert FireEvents(db, x, p)[2..] == [Commit(x)] + [];
  }

  /** So everything proved of all runs holds of the loop above. */
  lemma FireIsARun(names: set<string>, db: State, x: nat, p: Pass)
    requires Quiet(db, x) && p.schedule in names && p.due.Some?
    ensures ValidRun(names, db, FireEvents(db, x, p)) && Run(names, db, FireEvents(db, x, p)) == Fire(db, x, p)
  {
    var rest := FireEvents(db, x, p)[2..];
    ClaimDecides(names, db, x, p);
    if TickClaimed(db, p.schedule, p.due.value) {
      BeatenFireIsARun(names, db, x, p);
    } else {
      ClaimedFireIsARun(names, db, x, p);
    }
    RunCons(names, db[x := OpenedTx(p)], ClaimTick(x), rest);
    RunCons(names, db, Begin(x, p.schedule, p.due.value, false), [ClaimTick(x)] + rest);
    assert FireEvents(db, x, p) == [Begin(x, p.schedule, p.due.value, false)] + ([ClaimTick(x)] + rest);
  }

  // --- What a tick does --------------------------------------------------------------------

  /** The committed tick rows. */
  function AllTicks(db: State): set<nat> {
    set x | x in db && db[x].row && !db[x].manual
  }

  predicate Extends(db: State, after: State) {
    forall y :: y in db ==> y in after && after[y] == db[y]
  }

  lemma ClaimedKept(before: State, after: State, schedule: string, firedFor: Stamp)
    requires TickClaimed(before, schedule, firedFor) && Extends(before, after)
    ensures TickClaimed(after, schedule, firedFor)
  {
    var y :| y in before && HoldsTick(before[y], schedule, firedFor);
    assert HoldsTick(after[y], schedule, firedFor);
  }

  lemma FireKeeps(db: State, x: nat, p: Pass)
    requires Quiet(db, x) && p.due.Some?
    ensures Quiet(Fire(db, x, p), x + 1) && Extends(db, Fire(db, x, p))
    ensures p.accepted ==> TickClaimed(Fire(db, x, p), p.schedule, p.due.value)
    ensures AllTicks(Fire(db, x, p)) == AllTicks(db) + (if Fires(db, p) then {x} else {})
  {
    var after := Fire(db, x, p);
    if Fires(db, p) {
      assert HoldsTick(after[x], p.schedule, p.due.value);
    } else if TickClaimed(db, p.schedule, p.due.value) {
      ClaimedKept(db, after, p.schedule, p.due.value);
    }
  }

  lemma {:induction false} PassesKeepRows(db: State, x: nat, ps: seq<Pass>)
    requires Quiet(db, x)
    ensures Quiet(After(db, x, ps), x + |ps|) && Extends(db, After(db, x, ps))
    decreases |ps|
  {
    if ps == [] {
    } else {
      PassesKeepRows(db, x, ps[..|ps| - 1]);
      if ps[|ps| - 1].due.Some? {
        FireKeeps(After(db, x, ps[..|ps| - 1]), x + |ps| - 1, ps[|ps| - 1]);
      }
    }
  }

  /** Afterwards every due tick whose enqueue succeeded is claimed, whatever the others did. */
  lemma {:induction false} DueTicksAreClaimed(db: State, x: nat, ps: seq<Pass>, i: nat)
    requires Quiet(db, x) && i < |ps| && ps[i].due.Some? && ps[i].accepted
    ensures TickClaimed(After(db, x, ps), ps[i].schedule, ps[i].due.value)
    decreases |ps|
  {
    var n := |ps| - 1;
    PassesKeepRows(db, x, ps[..n]);
    var before := After(db, x, ps[..n]);
    if ps[n].due.Some? { FireKeeps(before, x + n, ps[n]); }
    if i < n {
      DueTicksAreClaimed(db, x, ps[..n], i);
      ClaimedKept(before, After(db, x, ps), ps[i].schedule, ps[i].due.value);
    }
  }

  lemma OneMore(rows: set<nat>, known: set<nat>, x: nat)
    requires known <= rows && x !in rows
    ensures known <= rows + {x} && |rows + {x} - known| == |rows - known| + 1
    ensures rows + {} == rows
  {
    assert rows + {x} - known == (rows - known) + {x};
  }

  lemma FireAddsOneRow(known: set<nat>, db: State, x: nat, p: Pass)
    requires Quiet(db, x) && p.due.Some? && known <= AllTicks(db)
    ensures known <= AllTicks(Fire(db, x, p))
    ensures |AllTicks(Fire(db, x, p)) - known| == |AllTicks(db) - known| + (if Fires(db, p) then 1 else 0)
  {
    FireKeeps(db, x, p);
    assert x !in AllTicks(db);
    OneMore(AllTicks(db), known, x);
  }

  lemma PassAddsItsRow(known: set<nat>, db: State, x: nat, p: Pass, after: State)
    requires Quiet(db, x) && known <= AllTicks(db)
    requires after == if p.due.None? then db else Fire(db, x, p)
    ensures known <= AllTicks(after)
    ensures |AllTicks(after) - known| == |AllTicks(db) - known| + (if Fires(db, p) then 1 else 0)
  {
    if p.due.Some? {
      FireAddsOneRow(known, db, x, p);
    }
  }

  ghost predicate Counted(db: State, x: nat, ps: seq<Pass>) {
    && AllTicks(db) <= AllTicks(After(db, x, ps))
    && Claims(db, x, ps) == |AllTicks(After(db, x, ps)) - AllTicks(db)|
  }

  /** The count a pass returns is the number of tick rows it added. */
  lemma {:induction false} CountIsNewRows(db: State, x: nat, ps: seq<Pass>)
    requires Quiet(db, x)
    ensures Counted(db, x, ps)
    decreases |ps|
  {
    if ps == [] {
      assert AllTicks(db) - AllTicks(db) == {};
    } else {
      var n := |ps| - 1;
      CountIsNewRows(db, x, ps[..n]);
      assert Counted(db, x, ps[..n]);
      PassesKeepRows(db, x, ps[..n]);
      PassAddsItsRow(AllTicks(db), After(db, x, ps[..n]), x + n, ps[n], After(db, x, ps));
    }
  }

  // --- A whole loop of ticks ---------------------------------------------------------------

  /** Two passes one after the other are one longer pass. */
  lemma {:induction false} TicksCompose(db: State, x: nat, a: seq<Pass>, b: seq<Pass>)
    ensures After(db, x, a + b) == After(After(db, x, a), x + |a|, b)
    decreases |b|
  {
    if b == [] {
      assert a + b == a;
    } else {
      assert (a + b)[..|a + b| - 1] == a + b[..|b| - 1];
      TicksCompose(db, x, a, b[..|b| - 1]);
    }
  }

  /** Everything such a loop does is a run of the protocol. */
  lemma {:induction false} PassesAreARun(names: set<string>, db: State, x: nat, ps: seq<Pass>) returns (es: seq<Event>)
    requires Quiet(db, x) && forall p <- ps :: p.schedule in names
    ensures ValidRun(names, db, es) && Run(names, db, es) == After(db, x, ps)
    decreases |ps|
  {
    if ps == [] {
      es := [];
    } else {
      var n := |ps| - 1;
      es := PassesAreARun(names, db, x, ps[..n]);
      PassesKeepRows(db, x, ps[..n]);
      if ps[n].due.Some? {
        var before := After(db, x, ps[..n]);
        FireIsARun(names, before, x + n, ps[n]);
        RunConcat(names, db, es, FireEvents(before, x + n, ps[n]));
        es := es + FireEvents(before, x + n, ps[n]);
      }
    }
  }

  predicate Passed(ps: seq<Pass>, schedule: string, firedFor: Stamp) {
    exists i :: 0 <= i < |ps| && ps[i] == Pass(schedule, Some(firedFor), true)
  }

  lemma FireClaimsItsOwn(db: State, x: nat, p: Pass, schedule: string, firedFor: Stamp)
    requires Quiet(db, x) && p.due.Some?
    requires TickClaimed(Fire(db, x, p), schedule, firedFor)
    ensures TickClaimed(db, schedule, firedFor) || p == Pass(schedule, Some(firedFor), true)
  {
    var y :| y in Fire(db, x, p) && HoldsTick(Fire(db, x, p)[y], schedule, firedFor);
    assert y != x ==> y in db && db[y] == Fire(db, x, p)[y];
  }

  /** From nothing, a loop claims exactly the ticks that some pass found due and could enqueue. */
  lemma {:induction false} ClaimedIffPassed(x: nat, ps: seq<Pass>, schedule: string, firedFor: Stamp)
    ensures TickClaimed(After(map[], x, ps), schedule, firedFor) <==> Passed(ps, schedule, firedFor)
    decreases |ps|
  {
    if i :| 0 <= i < |ps| && ps[i] == Pass(schedule, Some(firedFor), true) {
      DueTicksAreClaimed(map[], x, ps, i);
    }
    if ps != [] && TickClaimed(After(map[], x, ps), schedule, firedFor) {
      var n := |ps| - 1;
      var before := After(map[], x, ps[..n]);
      ClaimedIffPassed(x, ps[..n], schedule, firedFor);
      PassesKeepRows(map[], x, ps[..n]);
      if TickClaimed(before, schedule, firedFor) {
        var j :| 0 <= j < n && ps[..n][j] == Pass(schedule, Some(firedFor), true);
        assert ps[j] == ps[..n][j];
      } else {
        FireClaimsItsOwn(before, x + n, ps[n], schedule, firedFor);
      }
    }
  }
}
