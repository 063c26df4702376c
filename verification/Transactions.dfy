/**
  `transaction(tx, defer)` and the moment a dispatched job becomes real.

  The callback is given as the actions it performs. It may throw before any of them or
  after the last, the commit may fail or go unheard of, and the process may die between
  deferred tasks.
 */
module Transactions {
  import opened Wrappers

  /** `withTx` and `withDefer` are which of the two options the caller passed to `enqueue`. */
  datatype Action =
    | Write(row: nat)
    | Defer(task: nat)
    | Dispatch(job: nat, withTx: bool, withDefer: bool)

  datatype Task = Effect(task: nat) | Push(job: nat)

  /** How the run went. `fails` are the deferred tasks that threw, by position, and whether what
      they were to write had been written by then. */
  datatype Fate = Fate(throwsAt: Option<nat>, commit: Writing, diesAfter: Option<nat>, fails: map<nat, bool>)

  /** What other processes can see, and the deferred tasks started so far, in order. */
  datatype World = World(rows: seq<nat>, jobs: seq<nat>, started: seq<Task>)

  predicate Throws(actions: seq<Action>, fate: Fate) {
    fate.throwsAt.Some? && fate.throwsAt.value <= |actions|
  }

  predicate Commits(actions: seq<Action>, fate: Fate) {
    !Throws(actions, fate) && fate.commit != Lost
  }

  /** Deferred tasks run only after a commit that was heard of. */
  predicate Returns(actions: seq<Action>, fate: Fate) {
    !Throws(actions, fate) && fate.commit == Done
  }

  /** The actions that ran. */
  function Performed(actions: seq<Action>, fate: Fate): seq<Action> {
    if Throws(actions, fate) then actions[..fate.throwsAt.value] else actions
  }

  /** Dispatched through the caller's transaction, after it, or straight away. */
  datatype Moment = InTransaction | AfterCommit | AtOnce

  function MomentOf(transactional: bool, withTx: bool, withDefer: bool): Moment {
    if transactional && withTx then InTransaction else if withDefer then AfterCommit else AtOnce
  }

  function RowsOf(a: Action): seq<nat> { if a.Write? then [a.row] else [] }

  function JobsOf(transactional: bool, a: Action, moment: Moment): seq<nat> {
    if a.Dispatch? && MomentOf(transactional, a.withTx, a.withDefer) == moment then [a.job] else []
  }

  function TasksOf(transactional: bool, a: Action): seq<Task> {
    if a.Defer? then [Effect(a.task)]
    else if a.Dispatch? && MomentOf(transactional, a.withTx, a.withDefer) == AfterCommit then [Push(a.job)]
    else []
  }

  function Rows(actions: seq<Action>): seq<nat>
    decreases |actions|
  {
    if actions == [] then [] else Rows(actions[..|actions| - 1]) + RowsOf(actions[|actions| - 1])
  }

  function Jobs(transactional: bool, actions: seq<Action>, moment: Moment): seq<nat>
    decreases |actions|
  {
    if actions == [] then []
    else Jobs(transactional, actions[..|actions| - 1], moment) + JobsOf(transactional, actions[|actions| - 1], moment)
  }

  function Deferred(transactional: bool, actions: seq<Action>): seq<Task>
    decreases |actions|
  {
    if actions == [] then []
    else Deferred(transactional, actions[..|actions| - 1]) + TasksOf(transactional, actions[|actions| - 1])
  }

  function Started(tasks: seq<Task>, fate: Fate): seq<Task> {
    if fate.diesAfter.Some? && fate.diesAfter.value < |tasks| then tasks[..fate.diesAfter.value] else tasks
  }

  predicate Wrote(fails: map<nat, bool>, n: nat) { n !in fails || fails[n] }

  /** The jobs pushed by the deferred tasks. */
  function Pushed(tasks: seq<Task>, fails: map<nat, bool>): seq<nat>
    decreases |tasks|
  {
    if tasks == [] then []
    else
      var n := |tasks| - 1;
      Pushed(tasks[..n], fails) + (if tasks[n].Push? && Wrote(fails, n) then [tasks[n].job] else [])
  }

  lemma PushedNext(tasks: seq<Task>, n: nat, fails: map<nat, bool>)
    requires n < |tasks|
    ensures Pushed(tasks[..n + 1], fails)
         == Pushed(tasks[..n], fails) + if tasks[n].Push? && Wrote(fails, n) then [tasks[n].job] else []
    ensures tasks[..n + 1] == tasks[..n] + [tasks[n]]
  {
    assert tasks[..n + 1][..n] == tasks[..n];
  }

  /** The deferred tasks that a run starts. */
  function TasksStarted(transactional: bool, actions: seq<Action>, fate: Fate): seq<Task> {
    if Returns(actions, fate) then Started(Deferred(transactional, actions), fate) else []
  }

  function Outcome(transactional: bool, w: World, actions: seq<Action>, fate: Fate): World {
    var done := Performed(actions, fate);
    var jobs := w.jobs + Jobs(transactional, done, AtOnce);
    if !Commits(actions, fate) then w.(jobs := jobs)
    else
      var started := TasksStarted(transactional, actions, fate);
      World(w.rows + Rows(done),
            jobs + Jobs(transactional, done, InTransaction) + Pushed(started, fate.fails),
            w.started + started)
  }

  class Process {
    const transactional: bool
    var world: World

    // The transaction that is open: what only it can see, and its deferred tasks.
    var rows: seq<nat>
    var queued: seq<nat>
    var deferred: seq<Task>
    var isSealed: bool

    constructor (transactional: bool)
      ensures this.transactional == transactional && world == World([], [], [])
    {
      this.transactional := transactional;
      world := World([], [], []);
      rows, queued, deferred, isSealed := [], [], [], true;
    }

    /** Deferring after the commit is refused; after a rollback it is accepted and never run. */
    method DeferTask(t: Task) returns (accepted: bool)
      modifies `deferred
      ensures accepted == !isSealed
      ensures deferred == if accepted then old(deferred) + [t] else old(deferred)
    {
      accepted := !isSealed;
      if accepted { deferred := deferred + [t]; }
    }

    method Perform(a: Action)
      requires !isSealed
      modifies `world, `rows, `queued, `deferred
      ensures rows == old(rows) + RowsOf(a)
      ensures queued == old(queued) + JobsOf(transactional, a, InTransaction)
      ensures deferred == old(deferred) + TasksOf(transactional, a)
      ensures world == old(world).(jobs := old(world).jobs + JobsOf(transactional, a, AtOnce))
    {
      match a {
        case Write(row) => rows := rows + [row];
        case Defer(task) => var _ := DeferTask(Effect(task));
        case Dispatch(job, withTx, withDefer) =>
          if transactional && withTx {
            queued := queued + [job];
          } else if withDefer {
            var _ := DeferTask(Push(job));
          } else {
            world := world.(jobs := world.jobs + [job]);
          }
      }
    }

    /** One by one, in order; a task that throws does not stop the next. */
    method RunDeferred(fate: Fate)
      modifies `world
      ensures var dies := fate.diesAfter.Some? && fate.diesAfter.value < |deferred|;
        var started := if dies then deferred[..fate.diesAfter.value] else deferred;
        world == World(old(world).rows, old(world).jobs + Pushed(started, fate.fails), old(world).started + started)
    {
      for n := 0 to |deferred|
        invariant fate.diesAfter.Some? ==> n <= fate.diesAfter.value
        invariant world.rows == old(world).rows && world.started == old(world).started + deferred[..n]
        invariant world.jobs == old(world).jobs + Pushed(deferred[..n], fate.fails)
      {
        if fate.diesAfter == Some(n) { return; }
        PushedNext(deferred, n, fate.fails);
        world := world.(started := world.started + [deferred[n]]);
        if deferred[n].Push? && Wrote(fate.fails, n) {
          world := world.(jobs := world.jobs + [deferred[n].job]);
        }
      }
      assert deferred[..|deferred|] == deferred;
    }

    /** The callback's actions, one by one, until it throws or ends. */
    method Callback(done: seq<Action>)
      requires !isSealed && rows == [] && queued == [] && deferred == []
      modifies `world, `rows, `queued, `deferred
      ensures rows == Rows(done) && queued == Jobs(transactional, done, InTransaction)
      ensures deferred == Deferred(transactional, done)
      ensures world == old(world).(jobs := old(world).jobs + Jobs(transactional, done, AtOnce))
    {
      for n := 0 to |done|
        invariant !isSealed && rows == Rows(done[..n]) && queued == Jobs(transactional, done[..n], InTransaction)
        invariant deferred == Deferred(transactional, done[..n])
        invariant world == old(world).(jobs := old(world).jobs + Jobs(transactional, done[..n], AtOnce))
      {
        assert done[..n + 1][..n] == done[..n];
        Perform(done[n]);
      }
      assert done[..|done|] == done;
    }

    /** `at` lists the actions that defer a task. */
    method Transaction(actions: seq<Action>, fate: Fate) returns (returned: bool, ghost at: seq<nat>)
      modifies this
      ensures returned == Returns(actions, fate) == isSealed
      ensures world == Outcome(transactional, old(world), actions, fate)
      ensures returned <==> (fate.throwsAt == None || fate.throwsAt.value > |actions|) && fate.commit == Done
      ensures forall m, n :: 0 <= m < n < |at| ==> at[m] < at[n]
      ensures forall n :: 0 <= n < |at| ==> at[n] < |actions|
      ensures forall n :: 0 <= n < |at| ==> var a := actions[at[n]];
        a.Defer? || (a.Dispatch? && !(transactional && a.withTx) && a.withDefer)
      ensures forall i :: 0 <= i < |actions| && i !in at ==> var a := actions[i];
        a.Write? || (a.Dispatch? && ((transactional && a.withTx) || !a.withDefer))
      // Their tasks are started in that order, all of them or as many as the process lives for.
      ensures var lives := if fate.diesAfter.Some? && fate.diesAfter.value < |at| then fate.diesAfter.value else |at|;
        |world.started| == |old(world).started| + if returned then lives else 0
      ensures world.started[..|old(world).started|] == old(world).started
      ensures forall n :: 0 <= n < |world.started| - |old(world).started| ==> var a := actions[at[n]];
        world.started[|old(world).started| + n] == if a.Defer? then Effect(a.task) else Push(a.job)
    {
      at := EveryDeferredTaskStarts(transactional, world, actions, fate);
      rows, queued, deferred, isSealed := [], [], [], false;
      Callback(Performed(actions, fate));
      if Throws(actions, fate) || fate.commit == Lost { return false, at; }
      world := world.(rows := world.rows + rows, jobs := world.jobs + queued);
      if fate.commit == Unheard { return false, at; }
      isSealed := true;
      RunDeferred(fate);
      return true, at;
    }
  }

  // --- What a transaction leaves, told by its actions -----------------------------------------

  /** `at` lists, in their order, the actions from which `f` makes a task. */
  ghost predicate Lists(f: Action -> seq<Task>, at: seq<nat>, actions: seq<Action>) {
    && (forall m, n :: 0 <= m < n < |at| ==> at[m] < at[n])
    && (forall n :: 0 <= n < |at| ==> at[n] < |actions|)
    && (forall i :: 0 <= i < |actions| && i !in at ==> f(actions[i]) == [])
  }

  /** `tasks[n]` is what `f` makes of the action listed `n`th. */
  predicate Matches(f: Action -> seq<Task>, actions: seq<Action>, at: seq<nat>, tasks: seq<Task>, n: nat) {
    n < |at| && n < |tasks| && at[n] < |actions| && f(actions[at[n]]) == [tasks[n]]
  }

  ghost predicate InOrder(f: Action -> seq<Task>, actions: seq<Action>, at: seq<nat>, tasks: seq<Task>) {
    && Lists(f, at, actions)
    && |tasks| == |at|
    && forall n :: 0 <= n < |at| ==> Matches(f, actions, at, tasks, n)
  }

  lemma ListsMore(f: Action -> seq<Task>, at: seq<nat>, actions: seq<Action>)
    requires actions != [] && Lists(f, at, actions[..|actions| - 1])
    ensures var last := |actions| - 1; Lists(f, if f(actions[last]) == [] then at else at + [last], actions)
  {
    var last := |actions| - 1;
    var more := if f(actions[last]) == [] then at else at + [last];
    assert forall n :: 0 <= n < |at| ==> more[n] == at[n];
    forall i | 0 <= i < |actions| && i !in more
      ensures f(actions[i]) == []
    {
      assert i < last ==> actions[..last][i] == actions[i];
      assert |more| > |at| ==> more[|at|] == last;
    }
  }

  lemma MatchesMore(f: Action -> seq<Task>, actions: seq<Action>, at: seq<nat>, tasks: seq<Task>, n: nat)
    requires actions != [] && |at| == |tasks| && |f(actions[|actions| - 1])| <= 1
    requires n < |at| ==> Matches(f, actions[..|actions| - 1], at, tasks, n)
    ensures var last := |actions| - 1;
      var task := f(actions[last]);
      n < |tasks + task| ==> Matches(f, actions, if task == [] then at else at + [last], tasks + task, n)
  {
    assert n < |at| ==> actions[..|actions| - 1][at[n]] == actions[at[n]];
  }

  lemma InOrderMore(f: Action -> seq<Task>, actions: seq<Action>, at: seq<nat>, tasks: seq<Task>)
    requires actions != [] && InOrder(f, actions[..|actions| - 1], at, tasks) && |f(actions[|actions| - 1])| <= 1
    ensures var last := |actions| - 1;
      InOrder(f, actions, if f(actions[last]) == [] then at else at + [last], tasks + f(actions[last]))
  {
    var last := |actions| - 1;
    var more := if f(actions[last]) == [] then at else at + [last];
    ListsMore(f, at, actions);
    forall n | 0 <= n < |more|
      ensures Matches(f, actions, more, tasks + f(actions[last]), n)
    {
      MatchesMore(f, actions, at, tasks, n);
    }
  }

  function TasksFrom(transactional: bool): Action -> seq<Task> {
    (a: Action) => TasksOf(transactional, a)
  }

  /** The deferred tasks are those of the deferring actions, each once and in their order. */
  lemma {:induction false} DeferredInOrder(transactional: bool, actions: seq<Action>) returns (at: seq<nat>)
    ensures InOrder(TasksFrom(transactional), actions, at, Deferred(transactional, actions))
    decreases |actions|
  {
    if actions == [] {
      at := [];
    } else {
      var last, f := |actions| - 1, TasksFrom(transactional);
      var before := DeferredInOrder(transactional, actions[..last]);
      InOrderMore(f, actions, before, Deferred(transactional, actions[..last]));
      at := if f(actions[last]) == [] then before else before + [last];
    }
  }

  lemma StartedOutcome(transactional: bool, w: World, actions: seq<Action>, fate: Fate)
    ensures Outcome(transactional, w, actions, fate).started == w.started + TasksStarted(transactional, actions, fate)
  {
  }

  /** Every deferred task is started, each once and in the order of the actions, whichever of them
      fail: all of them, or as many as the process lives for. None starts without a commit that
      was heard of. */
  lemma EveryDeferredTaskStarts(transactional: bool, w: World, actions: seq<Action>, fate: Fate)
    returns (at: seq<nat>)
    ensures forall m, n :: 0 <= m < n < |at| ==> at[m] < at[n]
    ensures forall n :: 0 <= n < |at| ==> at[n] < |actions|
    // Listed are the actions that defer a task, and no others.
    ensures forall n :: 0 <= n < |at| ==> var a := actions[at[n]];
      a.Defer? || (a.Dispatch? && !(transactional && a.withTx) && a.withDefer)
    ensures forall i :: 0 <= i < |actions| && i !in at ==> var a := actions[i];
      a.Write? || (a.Dispatch? && ((transactional && a.withTx) || !a.withDefer))
    ensures var heard := !(fate.throwsAt.Some? && fate.throwsAt.value <= |actions|) && fate.commit == Done;
      var lives := if fate.diesAfter.Some? && fate.diesAfter.value < |at| then fate.diesAfter.value else |at|;
      var before, after := w.started, Outcome(transactional, w, actions, fate).started;
      && |after| == |before| + (if heard then lives else 0)
      && after[..|before|] == before
      && forall n :: 0 <= n < |after| - |before| ==> var a := actions[at[n]];
           after[|before| + n] == if a.Defer? then Effect(a.task) else Push(a.job)
  {
    at := DeferredInOrder(transactional, actions);
    var tasks, f := Deferred(transactional, actions), TasksFrom(transactional);
    StartedOutcome(transactional, w, actions, fate);
    forall n | 0 <= n < |at|
      ensures at[n] < |actions| && var a := actions[at[n]];
        && (a.Defer? || (a.Dispatch? && !(transactional && a.withTx) && a.withDefer))
        && tasks[n] == if a.Defer? then Effect(a.task) else Push(a.job)
    {
      assert Matches(f, actions, at, tasks, n);
    }
    assert forall i :: 0 <= i < |actions| && i !in at ==> f(actions[i]) == [];
  }

  function Below(n: nat, p: nat -> bool): set<nat> {
    set i: nat | i < n && p(i)
  }

  lemma OneMore(before: seq<nat>, last: seq<nat>, x: nat, n: nat, p: nat -> bool)
    requires multiset(before)[x] == |Below(n, p)|
    requires |last| <= 1 && (p(n) <==> last == [x])
    ensures multiset(before + last)[x] == |Below(n + 1, p)|
  {
    if p(n) {
      assert Below(n + 1, p) == Below(n, p) + {n};
    } else {
      assert Below(n + 1, p) == Below(n, p);
      assert last == [] || last == [last[0]];
    }
  }

  lemma {:induction false} RowsCount(actions: seq<Action>, n: nat, row: nat, p: nat -> bool)
    requires n <= |actions|
    requires forall i :: 0 <= i < |actions| ==> (p(i) <==> actions[i] == Write(row))
    ensures multiset(Rows(actions[..n]))[row] == |Below(n, p)|
    decreases n
  {
    if n == 0 {
      assert Below(n, p) == {};
    } else {
      RowsCount(actions, n - 1, row, p);
      assert actions[..n][..n - 1] == actions[..n - 1];
      OneMore(Rows(actions[..n - 1]), RowsOf(actions[n - 1]), row, n - 1, p);
    }
  }

  lemma {:induction false} JobsCount(
    transactional: bool, actions: seq<Action>, n: nat, moment: Moment, job: nat, p: nat -> bool)
    requires n <= |actions|
    requires forall i :: 0 <= i < |actions| ==> (p(i) <==> JobsOf(transactional, actions[i], moment) == [job])
    ensures multiset(Jobs(transactional, actions[..n], moment))[job] == |Below(n, p)|
    decreases n
  {
    if n == 0 {
      assert Below(n, p) == {};
    } else {
      JobsCount(transactional, actions, n - 1, moment, job, p);
      assert actions[..n][..n - 1] == actions[..n - 1];
      var before := Jobs(transactional, actions[..n - 1], moment);
      OneMore(before, JobsOf(transactional, actions[n - 1], moment), job, n - 1, p);
    }
  }

  lemma {:induction false} PushedCount(tasks: seq<Task>, fails: map<nat, bool>, n: nat, job: nat, p: nat -> bool)
    requires n <= |tasks|
    requires forall i :: 0 <= i < |tasks| ==> (p(i) <==> tasks[i] == Push(job) && Wrote(fails, i))
    ensures multiset(Pushed(tasks[..n], fails))[job] == |Below(n, p)|
    decreases n
  {
    if n == 0 {
      assert Below(n, p) == {};
    } else {
      var last := if tasks[n - 1].Push? && Wrote(fails, n - 1) then [tasks[n - 1].job] else [];
      PushedCount(tasks, fails, n - 1, job, p);
      PushedNext(tasks, n - 1, fails);
      OneMore(Pushed(tasks[..n - 1], fails), last, job, n - 1, p);
    }
  }

  /** Each row written is visible once per write of it exactly when the change committed. */
  lemma EveryWriteCounts(transactional: bool, w: World, actions: seq<Action>, fate: Fate, row: nat)
    ensures var committed := !(fate.throwsAt.Some? && fate.throwsAt.value <= |actions|) && fate.commit != Lost;
      var writes := set i | 0 <= i < |actions| && actions[i] == Write(row);
      multiset(Outcome(transactional, w, actions, fate).rows)[row]
        == multiset(w.rows)[row] + if committed then |writes| else 0
  {
    var p := (i: nat) => i < |actions| && actions[i] == Write(row);
    RowsCount(actions, |actions|, row, p);
    assert actions[..|actions|] == actions;
    assert Below(|actions|, p) == set i | 0 <= i < |actions| && actions[i] == Write(row);
  }

  predicate GoesAtOnce(transactional: bool, a: Action, job: nat) {
    a.Dispatch? && a.job == job && !(transactional && a.withTx) && !a.withDefer
  }

  predicate GoesInside(transactional: bool, a: Action, job: nat) {
    a.Dispatch? && a.job == job && transactional && a.withTx
  }

  /** A write is for the transaction and a deferred task for after it. A dispatch joins the
      transaction if it may and can, else it waits for the end of it if it may. */
  lemma ActionsMean(transactional: bool, a: Action)
    ensures RowsOf(a) == if a.Write? then [a.row] else []
    ensures JobsOf(transactional, a, InTransaction) == if a.Dispatch? && transactional && a.withTx then [a.job] else []
    ensures var atOnce := a.Dispatch? && !(transactional && a.withTx) && !a.withDefer;
      JobsOf(transactional, a, AtOnce) == if atOnce then [a.job] else []
    ensures var waits := a.Dispatch? && !(transactional && a.withTx) && a.withDefer;
      TasksOf(transactional, a) == if a.Defer? then [Effect(a.task)] else if waits then [Push(a.job)] else []
  {
  }

  lemma GoingMeans(transactional: bool, a: Action, job: nat)
    ensures GoesInside(transactional, a, job) <==> JobsOf(transactional, a, InTransaction) == [job]
    ensures GoesAtOnce(transactional, a, job) <==> JobsOf(transactional, a, AtOnce) == [job]
  {
  }

  lemma PositionsAtOnce(transactional: bool, actions: seq<Action>, job: nat) returns (p: nat -> bool)
    ensures forall i :: 0 <= i < |actions| ==> (p(i) <==> JobsOf(transactional, actions[i], AtOnce) == [job])
    ensures Below(|actions|, p) == set i | 0 <= i < |actions| && GoesAtOnce(transactional, actions[i], job)
  {
    p := (i: nat) => i < |actions| && GoesAtOnce(transactional, actions[i], job);
    forall i | 0 <= i < |actions|
      ensures p(i) <==> JobsOf(transactional, actions[i], AtOnce) == [job]
    {
      GoingMeans(transactional, actions[i], job);
    }
  }

  lemma PositionsInside(transactional: bool, actions: seq<Action>, job: nat) returns (p: nat -> bool)
    ensures forall i :: 0 <= i < |actions| ==> (p(i) <==> JobsOf(transactional, actions[i], InTransaction) == [job])
    ensures Below(|actions|, p) == set i | 0 <= i < |actions| && GoesInside(transactional, actions[i], job)
  {
    p := (i: nat) => i < |actions| && GoesInside(transactional, actions[i], job);
    forall i | 0 <= i < |actions|
      ensures p(i) <==> JobsOf(transactional, actions[i], InTransaction) == [job]
    {
      GoingMeans(transactional, actions[i], job);
    }
  }

  lemma PositionsCount(transactional: bool, actions: seq<Action>, job: nat)
    ensures multiset(Jobs(transactional, actions, AtOnce))[job]
         == |set i | 0 <= i < |actions| && GoesAtOnce(transactional, actions[i], job)|
    ensures multiset(Jobs(transactional, actions, InTransaction))[job]
         == |set i | 0 <= i < |actions| && GoesInside(transactional, actions[i], job)|
  {
    var p := PositionsAtOnce(transactional, actions, job);
    var q := PositionsInside(transactional, actions, job);
    JobsCount(transactional, actions, |actions|, AtOnce, job, p);
    JobsCount(transactional, actions, |actions|, InTransaction, job, q);
    assert actions[..|actions|] == actions;
  }

  lemma TasksCount(tasks: seq<Task>, fails: map<nat, bool>, job: nat)
    ensures multiset(Pushed(tasks, fails))[job]
         == |set n | 0 <= n < |tasks| && tasks[n] == Push(job) && (n !in fails || fails[n])|
  {
    var p := (n: nat) => n < |tasks| && tasks[n] == Push(job) && Wrote(fails, n);
    PushedCount(tasks, fails, |tasks|, job, p);
    assert tasks[..|tasks|] == tasks;
    assert Below(|tasks|, p) == set n | 0 <= n < |tasks| && tasks[n] == Push(job) && (n !in fails || fails[n]);
  }

  /** The jobs added are one for each dispatch that took effect: those in the transaction, if it
      committed, those past both options, as soon as they are made, and the pushes started that
      had written by the time they ended. */
  lemma EveryDispatchCounts(transactional: bool, w: World, actions: seq<Action>, fate: Fate, job: nat)
    ensures var after := Outcome(transactional, w, actions, fate);
      var throws := fate.throwsAt.Some? && fate.throwsAt.value <= |actions|;
      var done := if throws then actions[..fate.throwsAt.value] else actions;
      var inside := set i | 0 <= i < |actions| && GoesInside(transactional, actions[i], job);
      var atOnce := set i | 0 <= i < |done| && GoesAtOnce(transactional, done[i], job);
      var started := if |w.started| <= |after.started| then after.started[|w.started|..] else [];
      var pushed := set n | 0 <= n < |started| && started[n] == Push(job) && (n !in fate.fails || fate.fails[n]);
      multiset(after.jobs)[job]
        == multiset(w.jobs)[job] + (if !throws && fate.commit != Lost then |inside| else 0) + |atOnce| + |pushed|
  {
    PositionsCount(transactional, Performed(actions, fate), job);
    var started := TasksStarted(transactional, actions, fate);
    TasksCount(started, fate.fails, job);
    StartedOutcome(transactional, w, actions, fate);
    assert (w.started + started)[|w.started|..] == started;
  }

  // --- When a job is real ------------------------------------------------------------------

  /** The caller's promise: `transaction` hands out both options, so only passing neither, or
      `tx` alone to a driver that cannot join it, breaks it. */
  predicate Safe(transactional: bool, a: Action) {
    a.Dispatch? ==> MomentOf(transactional, a.withTx, a.withDefer) != AtOnce
  }

  lemma {:induction false} AtOnceIffUnsafe(transactional: bool, actions: seq<Action>)
    ensures Jobs(transactional, actions, AtOnce) == [] <==>
      forall i :: 0 <= i < |actions| ==> Safe(transactional, actions[i])
    decreases |actions|
  {
    if actions == [] {
    } else {
      var init := actions[..|actions| - 1];
      AtOnceIffUnsafe(transactional, init);
      assert forall i :: 0 <= i < |init| ==> init[i] == actions[i];
      assert Safe(transactional, actions[|actions| - 1]) <==>
        JobsOf(transactional, actions[|actions| - 1], AtOnce) == [];
    }
  }

  /** A rolled-back change leaves nothing visible exactly when every dispatch it made was safe. */
  lemma RollbackLeavesNothingIffSafe(transactional: bool, w: World, actions: seq<Action>, fate: Fate)
    requires !Commits(actions, fate)
    ensures Outcome(transactional, w, actions, fate) == w <==>
      forall i :: 0 <= i < |Performed(actions, fate)| ==> Safe(transactional, Performed(actions, fate)[i])
  {
    var done := Performed(actions, fate);
    AtOnceIffUnsafe(transactional, done);
    var added := Jobs(transactional, done, AtOnce);
    if added == [] {
      assert w.jobs + added == w.jobs;
    } else {
      assert |w.jobs + added| > |w.jobs|;
    }
  }

  lemma {:induction false} JobsMembers(transactional: bool, actions: seq<Action>, moment: Moment, job: nat)
    ensures job in Jobs(transactional, actions, moment) <==>
      exists i :: 0 <= i < |actions| && job in JobsOf(transactional, actions[i], moment)
    decreases |actions|
  {
    if actions == [] {
    } else {
      var init := actions[..|actions| - 1];
      JobsMembers(transactional, init, moment, job);
      assert forall i :: 0 <= i < |init| ==> init[i] == actions[i];
    }
  }

  /** No dispatch of this job, among these actions, bypasses both options. */
  predicate SafelyDispatched(transactional: bool, actions: seq<Action>, job: nat) {
    forall k | 0 <= k < |actions| :: actions[k].Dispatch? && actions[k].job == job ==> Safe(transactional, actions[k])
  }

  lemma SafeIsNotAtOnce(transactional: bool, actions: seq<Action>, fate: Fate, job: nat)
    requires SafelyDispatched(transactional, actions, job)
    ensures job !in Jobs(transactional, Performed(actions, fate), AtOnce)
  {
    var done := Performed(actions, fate);
    JobsMembers(transactional, done, AtOnce, job);
    assert forall i :: 0 <= i < |done| ==> done[i] == actions[i];
  }

  /** Under a driver that can join the transaction, a job dispatched with `tx` exists exactly
      when the change committed. */
  lemma TransactionalJobFollowsCommit(w: World, actions: seq<Action>, fate: Fate, i: nat)
    requires i < |actions| && actions[i].Dispatch? && actions[i].withTx
    requires SafelyDispatched(true, actions, actions[i].job) && actions[i].job !in w.jobs
    ensures actions[i].job in Outcome(true, w, actions, fate).jobs <==> Commits(actions, fate)
  {
    SafeIsNotAtOnce(true, actions, fate, actions[i].job);
    if Commits(actions, fate) {
      assert Performed(actions, fate) == actions && actions[i].job in JobsOf(true, actions[i], InTransaction);
      JobsMembers(true, actions, InTransaction, actions[i].job);
    }
  }

  lemma {:induction false} PushedIffWritten(tasks: seq<Task>, fails: map<nat, bool>, job: nat)
    ensures job in Pushed(tasks, fails) <==> exists k :: 0 <= k < |tasks| && tasks[k] == Push(job) && Wrote(fails, k)
    decreases |tasks|
  {
    if tasks == [] {
    } else {
      var init := tasks[..|tasks| - 1];
      PushedIffWritten(init, fails, job);
      assert forall k :: 0 <= k < |init| ==> init[k] == tasks[k];
    }
  }

  /** Under any other driver it exists exactly when the change committed, the commit was heard of,
      and its deferred push was reached and wrote it, whether or not it then threw. */
  lemma DeferredJobFollowsCommit(w: World, actions: seq<Action>, fate: Fate, job: nat)
    requires SafelyDispatched(false, actions, job) && job !in w.jobs
    ensures var started := TasksStarted(false, actions, fate);
      job in Outcome(false, w, actions, fate).jobs <==>
        Returns(actions, fate) && exists k :: 0 <= k < |started| && started[k] == Push(job) && Wrote(fate.fails, k)
  {
    SafeIsNotAtOnce(false, actions, fate, job);
    JobsMembers(false, Performed(actions, fate), InTransaction, job);
    PushedIffWritten(TasksStarted(false, actions, fate), fate.fails, job);
  }

  // --- Queued mail ---------------------------------------------------------------------------

  lemma {:induction false} WrittenIsInRows(actions: seq<Action>, row: nat)
    ensures row in Rows(actions) <==> Write(row) in actions
    decreases |actions|
  {
    if actions == [] {
    } else {
      WrittenIsInRows(actions[..|actions| - 1], row);
      assert actions == actions[..|actions| - 1] + [actions[|actions| - 1]];
    }
  }

  /** What `queueMail` does in its caller's transaction. */
  function QueueMail(message: nat, job: nat): seq<Action> {
    [Write(message), Dispatch(job, true, true)]
  }

  /** A message row appears exactly when the caller's change commits. Its send job appears with
      it under a transactional driver, and under no driver without it. */
  lemma MailFollowsItsChange(
    transactional: bool, w: World, before: seq<Action>, after: seq<Action>, message: nat, job: nat, fate: Fate)
    requires SafelyDispatched(transactional, before + QueueMail(message, job) + after, job)
    requires message !in w.rows && job !in w.jobs
    ensures var actions := before + QueueMail(message, job) + after;
      var result := Outcome(transactional, w, actions, fate);
      && (message in result.rows <==> Commits(actions, fate))
      && (transactional ==> (job in result.jobs <==> Commits(actions, fate)))
      && (job in result.jobs ==> message in result.rows)
  {
    var actions := before + QueueMail(message, job) + after;
    assert actions[|before|] == Write(message) && actions[|before| + 1] == Dispatch(job, true, true);
    WrittenIsInRows(actions, message);
    if transactional {
      TransactionalJobFollowsCommit(w, actions, fate, |before| + 1);
    } else {
      DeferredJobFollowsCommit(w, actions, fate, job);
    }
  }
}
