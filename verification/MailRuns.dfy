/** Every run of the outbox. An execution's read, hand-off and record are separate steps. */
module MailRuns {
  import opened Collections
  import opened Wrappers
  import opened Selection
  import opened Mail

  /** `Doomed`: read a row with no payload. `Broken`: about to record a failure. */
  datatype Phase = Doomed | Rendering | HandedOver | Broken(terminal: bool)

  datatype Send = Send(id: RowId, lastAttempt: bool, phase: Phase)

  /** `handed` counts accepted hand-offs of every message there ever was. It is history. */
  datatype State = State(rows: Table, sends: map<nat, Send>, handed: map<RowId, nat>)

  datatype Event =
    | Queue(id: RowId, payload: string, at: Time)
    | Start(x: nat, id: RowId, lastAttempt: bool)
    | RenderFails(x: nat)
    | HandOver(x: nat)
    | TransportFails(x: nat)
    | RecordSent(x: nat, at: Time)
    | RecordSentUnheard(x: nat, at: Time)   // written, but reported as failed
    | RecordSentFails(x: nat)               // not written
    | RecordFailed(x: nat)
    | Crash(x: nat)
    | Prune(cutoff: Time)

  predicate InPhase(s: State, x: nat, p: Phase) { x in s.sends && s.sends[x].phase == p }

  predicate Enabled(s: State, e: Event) {
    match e
    case Queue(id, _, _) => id !in s.handed && id !in s.rows
    case Start(x, _, _) => x !in s.sends
    case RenderFails(x) => InPhase(s, x, Rendering)
    case HandOver(x) => InPhase(s, x, Rendering) && s.sends[x].id in s.handed
    case TransportFails(x) => InPhase(s, x, Rendering)
    case RecordSent(x, _) => InPhase(s, x, HandedOver)
    case RecordSentUnheard(x, _) => InPhase(s, x, HandedOver)
    case RecordSentFails(x) => InPhase(s, x, HandedOver)
    case RecordFailed(x) => x in s.sends && (s.sends[x].phase.Doomed? || s.sends[x].phase.Broken?)
    case Crash(x) => x in s.sends
    case Prune(_) => true
  }

  function Write(t: Table, id: RowId, change: Message -> Message): Table {
    if id in t then t[id := change(t[id])] else t
  }

  function Next(s: State, e: Event): State
    requires Enabled(s, e)
  {
    match e
    case Queue(id, payload, at) =>
      s.(rows := s.rows[id := Message(Queued, Some(payload), 0, None, None, at)], handed := s.handed[id := 0])
    case Start(x, id, lastAttempt) =>
      if id !in s.rows || s.rows[id].status == Sent then s
      else s.(sends := s.sends[x := Send(id, lastAttempt, if s.rows[id].payload.None? then Doomed else Rendering)])
    case RenderFails(x) => s.(sends := s.sends[x := s.sends[x].(phase := Broken(true))])
    case HandOver(x) =>
      var id := s.sends[x].id;
      s.(sends := s.sends[x := s.sends[x].(phase := HandedOver)], handed := s.handed[id := s.handed[id] + 1])
    case TransportFails(x) => s.(sends := s.sends[x := s.sends[x].(phase := Broken(s.sends[x].lastAttempt))])
    case RecordSent(x, at) =>
      s.(rows := Write(s.rows, s.sends[x].id, (m: Message) => SentRow(m, at)), sends := s.sends - {x})
    case RecordSentUnheard(x, at) =>
      s.(rows := Write(s.rows, s.sends[x].id, (m: Message) => SentRow(m, at)),
         sends := s.sends[x := s.sends[x].(phase := Broken(s.sends[x].lastAttempt))])
    case RecordSentFails(x) => s.(sends := s.sends[x := s.sends[x].(phase := Broken(s.sends[x].lastAttempt))])
    case RecordFailed(x) =>
      var terminal := s.sends[x].phase.Doomed? || s.sends[x].phase.terminal;
      s.(rows := Write(s.rows, s.sends[x].id, (m: Message) => FailedRow(m, "", terminal)), sends := s.sends - {x})
    case Crash(x) => s.(sends := s.sends - {x})
    case Prune(cutoff) => s.(rows := s.rows - Prunable(s.rows, cutoff))
  }

  predicate ValidRun(s: State, es: seq<Event>)
    decreases |es|
  {
    es == [] || (Enabled(s, es[0]) && ValidRun(Next(s, es[0]), es[1..]))
  }

  function Run(s: State, es: seq<Event>): State
    requires ValidRun(s, es)
    decreases |es|
  {
    if es == [] then s else Run(Next(s, es[0]), es[1..])
  }

  const EMPTY := State(map[], map[], map[])

  // --- An execution nothing interrupts -----------------------------------------------------

  function FailureEvent(x: nat, w: Writing): Event {
    if w == Lost then Crash(x) else RecordFailed(x)
  }

  function SendEvents(x: nat, id: RowId, m: Message, lastAttempt: bool, luck: Luck, at: Time): seq<Event> {
    var failure := FailureEvent(x, luck.failed);
    [Start(x, id, lastAttempt)] +
    (if m.status == Sent then []
     else if m.payload.None? then [failure]
     else if !luck.renders then [RenderFails(x), failure]
     else if !luck.accepted then [TransportFails(x), failure]
     else if luck.sent == Lost then [HandOver(x), RecordSentFails(x), failure]
     else if luck.sent == Unheard then [HandOver(x), RecordSentUnheard(x, at), failure]
     else [HandOver(x), RecordSent(x, at)])
  }

  lemma RunCons(s: State, e: Event, es: seq<Event>)
    requires Enabled(s, e) && ValidRun(Next(s, e), es)
    ensures ValidRun(s, [e] + es) && Run(s, [e] + es) == Run(Next(s, e), es)
  {
    assert ([e] + es)[1..] == es;
  }

  lemma RunOfTwo(s: State, a: Event, b: Event)
    requires Enabled(s, a) && Enabled(Next(s, a), b)
    ensures ValidRun(s, [a, b]) && Run(s, [a, b]) == Next(Next(s, a), b)
  {
    RunCons(Next(s, a), b, []);
    RunCons(s, a, [b] + []);
    assert [a, b] == [a] + ([b] + []);
  }

  ghost predicate SendDone(s: State, s': State, id: RowId, lastAttempt: bool, luck: Luck, at: Time)
    requires id in s.rows && id in s.handed
  {
    && id in s'.rows && s'.rows == s.rows[id := s'.rows[id]] && s'.sends == s.sends
    && AfterSend(s.rows[id], s'.rows[id], lastAttempt, luck, at)
    && s'.handed == s.handed[id := s.handed[id] + (if Transmits(s.rows[id], luck) then 1 else 0)]
  }

  lemma FailedSendIsARun(s: State, x: nat, id: RowId, lastAttempt: bool, luck: Luck, at: Time)
    requires x !in s.sends && id in s.rows && id in s.handed
    requires s.rows[id].status != Sent && s.rows[id].payload.Some? && !(luck.renders && luck.accepted)
    ensures var s1 := Next(s, Start(x, id, lastAttempt));
      var rest := SendEvents(x, id, s.rows[id], lastAttempt, luck, at)[1..];
      ValidRun(s1, rest) && SendDone(s, Run(s1, rest), id, lastAttempt, luck, at)
  {
    var s1 := Next(s, Start(x, id, lastAttempt));
    RunOfTwo(s1, if luck.renders then TransportFails(x) else RenderFails(x), FailureEvent(x, luck.failed));
  }

  lemma RecordedSendIsARun(s: State, x: nat, id: RowId, lastAttempt: bool, luck: Luck, at: Time)
    requires x !in s.sends && id in s.rows && id in s.handed
    requires s.rows[id].status != Sent && s.rows[id].payload.Some? && luck.renders && luck.accepted && luck.sent == Done
    ensures var s1 := Next(s, Start(x, id, lastAttempt));
      var rest := SendEvents(x, id, s.rows[id], lastAttempt, luck, at)[1..];
      ValidRun(s1, rest) && SendDone(s, Run(s1, rest), id, lastAttempt, luck, at)
  {
    RunOfTwo(Next(s, Start(x, id, lastAttempt)), HandOver(x), RecordSent(x, at));
  }

  lemma RunOfThree(s: State, a: Event, b: Event, c: Event)
    requires Enabled(s, a) && Enabled(Next(s, a), b) && Enabled(Next(Next(s, a), b), c)
    ensures ValidRun(s, [a, b, c]) && Run(s, [a, b, c]) == Next(Next(Next(s, a), b), c)
  {
    RunOfTwo(Next(s, a), b, c);
    RunCons(s, a, [b, c]);
    assert [a] + [b, c] == [a, b, c];
  }

  lemma UnwrittenSendIsARun(s: State, x: nat, id: RowId, lastAttempt: bool, luck: Luck, at: Time)
    requires x !in s.sends && id in s.rows && id in s.handed
    requires s.rows[id].status != Sent && s.rows[id].payload.Some?
    requires luck.renders && luck.accepted && luck.sent == Lost
    ensures var s1 := Next(s, Start(x, id, lastAttempt));
      var rest := SendEvents(x, id, s.rows[id], lastAttempt, luck, at)[1..];
      ValidRun(s1, rest) && SendDone(s, Run(s1, rest), id, lastAttempt, luck, at)
  {
    RunOfThree(Next(s, Start(x, id, lastAttempt)), HandOver(x), RecordSentFails(x), FailureEvent(x, luck.failed));
  }

  lemma UnheardSendIsARun(s: State, x: nat, id: RowId, lastAttempt: bool, luck: Luck, at: Time)
    requires x !in s.sends && id in s.rows && id in s.handed
    requires s.rows[id].status != Sent && s.rows[id].payload.Some?
    requires luck.renders && luck.accepted && luck.sent == Unheard
    ensures var s1 := Next(s, Start(x, id, lastAttempt));
      var rest := SendEvents(x, id, s.rows[id], lastAttempt, luck, at)[1..];
      ValidRun(s1, rest) && SendDone(s, Run(s1, rest), id, lastAttempt, luck, at)
  {
    RunOfThree(Next(s, Start(x, id, lastAttempt)), HandOver(x), RecordSentUnheard(x, at), FailureEvent(x, luck.failed));
  }

  lemma IdleSendIsARun(s: State, x: nat, id: RowId, lastAttempt: bool, luck: Luck, at: Time)
    requires x !in s.sends && id in s.rows && id in s.handed
    requires s.rows[id].status == Sent || s.rows[id].payload.None?
    ensures var s1 := Next(s, Start(x, id, lastAttempt));
      var rest := SendEvents(x, id, s.rows[id], lastAttempt, luck, at)[1..];
      ValidRun(s1, rest) && SendDone(s, Run(s1, rest), id, lastAttempt, luck, at)
  {
    var s1 := Next(s, Start(x, id, lastAttempt));
    if s.rows[id].status != Sent {
      var failure := FailureEvent(x, luck.failed);
      RunCons(s1, failure, []);
      assert [failure] + [] == [failure];
    }
  }

  /** `sendMailJob` as a method is one run of these steps, with the same effect on its row and
      the same hand-offs. */
  lemma UninterruptedSendIsARun(s: State, x: nat, id: RowId, lastAttempt: bool, luck: Luck, at: Time)
    requires x !in s.sends && id in s.rows && id in s.handed
    ensures var es := SendEvents(x, id, s.rows[id], lastAttempt, luck, at);
      ValidRun(s, es) && SendDone(s, Run(s, es), id, lastAttempt, luck, at)
  {
    var m := s.rows[id];
    if m.status == Sent || m.payload.None? {
      IdleSendIsARun(s, x, id, lastAttempt, luck, at);
    } else if luck.renders && luck.accepted && luck.sent == Done {
      RecordedSendIsARun(s, x, id, lastAttempt, luck, at);
    } else if luck.renders && luck.accepted && luck.sent == Lost {
      UnwrittenSendIsARun(s, x, id, lastAttempt, luck, at);
    } else if luck.renders && luck.accepted {
      UnheardSendIsARun(s, x, id, lastAttempt, luck, at);
    } else {
      FailedSendIsARun(s, x, id, lastAttempt, luck, at);
    }
    RunCons(s, Start(x, id, lastAttempt), SendEvents(x, id, m, lastAttempt, luck, at)[1..]);
  }

  // --- Any interleaving --------------------------------------------------------------------

  /** A finished message holds no payload, and `sent` is never claimed of one not handed over. */
  predicate HonestRow(s: State, id: RowId)
    requires id in s.rows
  {
    && id in s.handed
    && (s.rows[id].status != Queued ==> s.rows[id].payload == None)
    && (s.rows[id].status == Sent ==> s.handed[id] >= 1)
  }

  predicate HonestSend(s: State, x: nat)
    requires x in s.sends
  {
    s.sends[x].id in s.handed && (s.sends[x].phase == HandedOver ==> s.handed[s.sends[x].id] >= 1)
  }

  ghost predicate Honest(s: State) {
    (forall id :: id in s.rows ==> HonestRow(s, id)) && (forall x :: x in s.sends ==> HonestSend(s, x))
  }

  lemma SendStaysHonest(s: State, e: Event, x: nat)
    requires Honest(s) && Enabled(s, e) && x in Next(s, e).sends
    ensures HonestSend(Next(s, e), x)
  {
    if x in s.sends { assert HonestSend(s, x); }
    if e.Start? && e.id in s.rows { assert HonestRow(s, e.id); }
  }

  lemma RowStaysHonest(s: State, e: Event, id: RowId)
    requires Honest(s) && Enabled(s, e) && id in Next(s, e).rows
    ensures HonestRow(Next(s, e), id)
  {
    if id in s.rows { assert HonestRow(s, id); }
    if e.RecordSent? || e.RecordSentUnheard? || e.HandOver? { assert HonestSend(s, e.x); }
  }

  lemma StepKeepsHonest(s: State, e: Event)
    requires Honest(s) && Enabled(s, e)
    ensures Honest(Next(s, e))
  {
    forall x | x in Next(s, e).sends { SendStaysHonest(s, e, x); }
    forall id | id in Next(s, e).rows { RowStaysHonest(s, e, id); }
  }

  /** A cleared payload never returns, and only a finished message ever disappears. */
  lemma StepLosesNothing(s: State, e: Event, id: RowId)
    requires Enabled(s, e) && id in s.rows
    ensures id in Next(s, e).rows || s.rows[id].status != Queued
    ensures id in Next(s, e).rows && s.rows[id].payload == None ==> Next(s, e).rows[id].payload == None
  {}

  /** Somewhere along the run the message was finished. */
  ghost predicate WasFinished(s: State, es: seq<Event>, id: RowId) {
    exists n :: 0 <= n <= |es| && FinishedAt(s, es, id, n)
  }

  ghost predicate FinishedAt(s: State, es: seq<Event>, id: RowId, n: nat)
    requires n <= |es|
  {
    ValidRun(s, es[..n]) && id in Run(s, es[..n]).rows && Run(s, es[..n]).rows[id].status != Queued
  }

  lemma FinishedLater(s: State, es: seq<Event>, id: RowId)
    requires es != [] && Enabled(s, es[0]) && WasFinished(Next(s, es[0]), es[1..], id)
    ensures WasFinished(s, es, id)
  {
    var n :| 0 <= n <= |es[1..]| && FinishedAt(Next(s, es[0]), es[1..], id, n);
    assert es[..n + 1][0] == es[0] && es[..n + 1][1..] == es[1..][..n];
    assert FinishedAt(s, es, id, n + 1);
  }

  /** Over any run, whatever crashes in it, a message is still there, or has been sent or failed. */
  lemma {:induction false} NothingIsLost(s: State, es: seq<Event>, id: RowId)
    requires ValidRun(s, es) && id in s.rows
    ensures id in Run(s, es).rows || WasFinished(s, es, id)
    decreases |es|
  {
    if es == [] {
    } else if s.rows[id].status != Queued {
      assert es[..0] == [];
      assert FinishedAt(s, es, id, 0);
    } else {
      StepLosesNothing(s, es[0], id);
      NothingIsLost(Next(s, es[0]), es[1..], id);
      if WasFinished(Next(s, es[0]), es[1..], id) { FinishedLater(s, es, id); }
    }
  }

  lemma {:induction false} EveryRunIsHonest(s: State, es: seq<Event>)
    requires Honest(s) && ValidRun(s, es)
    ensures Honest(Run(s, es))
    decreases |es|
  {
    if es == [] {
    } else {
      StepKeepsHonest(s, es[0]);
      EveryRunIsHonest(Next(s, es[0]), es[1..]);
    }
  }

  lemma {:induction false} ClearedPayloadNeverReturns(s: State, es: seq<Event>, id: RowId)
    requires Honest(s) && ValidRun(s, es) && id in s.handed
    requires id in s.rows ==> s.rows[id].payload == None
    ensures id in Run(s, es).rows ==> Run(s, es).rows[id].payload == None
    decreases |es|
  {
    if es == [] {
    } else {
      var s' := Next(s, es[0]);
      StepKeepsHonest(s, es[0]);
      assert s.handed.Keys <= s'.handed.Keys;
      if id in s.rows { StepLosesNothing(s, es[0], id); }
      ClearedPayloadNeverReturns(s', es[1..], id);
    }
  }

  /** The one way back: a finished message is queued again exactly by the failure record of an
      execution that began before it was finished, and that is not on its last attempt. */
  lemma FinishedReopensIff(s: State, e: Event, id: RowId)
    requires Enabled(s, e) && id in s.rows && s.rows[id].status != Queued && id in Next(s, e).rows
    ensures Next(s, e).rows[id].status == Queued
      <==> e.RecordFailed? && s.sends[e.x].id == id && s.sends[e.x].phase == Broken(false)
  {}

  // --- What has to be promised -------------------------------------------------------------

  /** At most `k` executions of one message at a time; whether a record of success may be written
      and not heard of; and whether a hand-off may go unrecorded, by a failed write or a crash. */
  datatype Promise = Promise(k: nat, unheard: bool, lost: bool)

  function Executing(s: State, id: RowId): set<nat> {
    set x | x in s.sends && s.sends[x].id == id
  }

  predicate Permitted(s: State, e: Event, p: Promise) {
    match e
    case Start(_, id, _) => |Executing(s, id)| < p.k
    case RecordSentUnheard(_, _) => p.unheard
    case RecordSentFails(_) => p.lost
    case Crash(x) => InPhase(s, x, HandedOver) ==> p.lost
    case _ => true
  }

  predicate PermittedRun(s: State, es: seq<Event>, p: Promise)
    ensures PermittedRun(s, es, p) ==> ValidRun(s, es)
    decreases |es|
  {
    es == [] || (Enabled(s, es[0]) && Permitted(s, es[0], p) && PermittedRun(Next(s, es[0]), es[1..], p))
  }

  /** A queued message can still be rendered. */
  ghost predicate PayloadsKept(p: Promise) {
    forall es, id | PermittedRun(EMPTY, es, p) && id in Run(EMPTY, es).rows ::
      Run(EMPTY, es).rows[id].status == Queued ==> Run(EMPTY, es).rows[id].payload.Some?
  }

  predicate Stays(s: State, e: Event, id: RowId)
    requires Enabled(s, e)
  {
    id in s.rows && s.rows[id].status != Queued && id in Next(s, e).rows ==>
      Next(s, e).rows[id].status == s.rows[id].status
  }

  /** `sent` and `failed` are never left: only retention ends them. */
  ghost predicate FinishedForGood(p: Promise) {
    forall es, e, id | PermittedRun(EMPTY, es, p) && Enabled(Run(EMPTY, es), e) && Permitted(Run(EMPTY, es), e, p) ::
      Stays(Run(EMPTY, es), e, id)
  }

  ghost predicate HandedOnce(p: Promise) {
    forall es, id | PermittedRun(EMPTY, es, p) && id in Run(EMPTY, es).handed :: Run(EMPTY, es).handed[id] <= 1
  }

  predicate OneEach(s: State) {
    forall x, y :: x in s.sends && y in s.sends && s.sends[x].id == s.sends[y].id ==> x == y
  }

  lemma StepKeepsOneEach(s: State, e: Event, p: Promise)
    requires OneEach(s) && Enabled(s, e) && Permitted(s, e, p) && p.k <= 1
    ensures OneEach(Next(s, e))
  {
    if e.Start? { NobodyExecutes(s, e.id); }
  }

  lemma NobodyExecutes(s: State, id: RowId)
    ensures |Executing(s, id)| < 1 ==> forall x :: x in s.sends ==> s.sends[x].id != id
  {
    if x :| x in s.sends && s.sends[x].id == id {
      assert x in Executing(s, id);
    }
  }

  // --- Payloads and terminal states --------------------------------------------------------

  /** What the only execution of a message knows about its row. */
  predicate Agrees(s: State, x: nat)
    requires x in s.sends
  {
    var id := s.sends[x].id;
    if s.sends[x].phase.Doomed? then id in s.rows ==> s.rows[id].status == Failed
    else id in s.rows && s.rows[id].status == Queued
  }

  ghost predicate Clean(s: State, p: Promise) {
    && OneEach(s)
    && (p.k == 0 ==> s.sends == map[])
    && (forall x :: x in s.sends ==> s.sends[x].id in s.handed && Agrees(s, x))
    && (forall id :: id in s.rows ==> id in s.handed && (s.rows[id].status == Queued <==> s.rows[id].payload.Some?))
  }

  predicate Tame(p: Promise) { p.k == 0 || (p.k == 1 && !p.unheard) }

  lemma AgreementKept(s: State, e: Event, p: Promise, x: nat)
    requires Clean(s, p) && Tame(p) && Enabled(s, e) && Permitted(s, e, p) && x in Next(s, e).sends
    ensures Next(s, e).sends[x].id in Next(s, e).handed && Agrees(Next(s, e), x)
  {
    if e.Start? { NobodyExecutes(s, e.id); }
    if x in s.sends { assert Agrees(s, x); }
    if e.RecordSent? || e.RecordFailed? { assert Agrees(s, e.x); }
  }

  lemma StepKeepsClean(s: State, e: Event, p: Promise)
    requires Clean(s, p) && Tame(p) && Enabled(s, e) && Permitted(s, e, p)
    ensures Clean(Next(s, e), p)
  {
    StepKeepsOneEach(s, e, p);
    forall x | x in Next(s, e).sends
      ensures Next(s, e).sends[x].id in Next(s, e).handed && Agrees(Next(s, e), x)
    {
      AgreementKept(s, e, p, x);
    }
    CleanRowsKept(s, e, p);
  }

  lemma CleanRowsKept(s: State, e: Event, p: Promise)
    requires Clean(s, p) && Tame(p) && Enabled(s, e) && Permitted(s, e, p)
    ensures forall id :: id in Next(s, e).rows ==>
      id in Next(s, e).handed && (Next(s, e).rows[id].status == Queued <==> Next(s, e).rows[id].payload.Some?)
  {
    if e.RecordFailed? { assert Agrees(s, e.x); }
  }

  lemma {:induction false} RunKeepsClean(s: State, es: seq<Event>, p: Promise)
    requires Clean(s, p) && Tame(p) && PermittedRun(s, es, p)
    ensures Clean(Run(s, es), p)
    decreases |es|
  {
    if es == [] {
    } else {
      StepKeepsClean(s, es[0], p);
      RunKeepsClean(Next(s, es[0]), es[1..], p);
    }
  }

  lemma CleanStepStays(s: State, e: Event, p: Promise, id: RowId)
    requires Clean(s, p) && Tame(p) && Enabled(s, e) && Permitted(s, e, p)
    ensures Stays(s, e, id)
  {
    if e.RecordSent? || e.RecordFailed? { assert Agrees(s, e.x); }
  }

  // --- How it goes wrong otherwise ---------------------------------------------------------

  lemma {:induction false} RunAppend(s: State, es: seq<Event>, e: Event, p: Promise)
    requires PermittedRun(s, es, p) && Enabled(Run(s, es), e) && Permitted(Run(s, es), e, p)
    ensures PermittedRun(s, es + [e], p) && Run(s, es + [e]) == Next(Run(s, es), e)
    decreases |es|
  {
    if es == [] {
      assert (es + [e])[0] == e && (es + [e])[1..] == [];
    } else {
      assert (es + [e])[1..] == es[1..] + [e];
      RunAppend(Next(s, es[0]), es[1..], e, p);
    }
  }

  /** A state some permitted run leads to. */
  ghost predicate Reachable(s: State, p: Promise) {
    exists es :: PermittedRun(EMPTY, es, p) && Run(EMPTY, es) == s
  }

  lemma ReachableStep(s: State, e: Event, p: Promise) returns (s': State)
    requires Reachable(s, p) && Enabled(s, e) && Permitted(s, e, p)
    ensures Reachable(s', p) && s' == Next(s, e)
  {
    var es :| PermittedRun(EMPTY, es, p) && Run(EMPTY, es) == s;
    RunAppend(EMPTY, es, e, p);
    s' := Next(s, e);
  }

  /** Message 0 is queued, and execution 0 is about to hand it over. */
  lemma FirstStart(p: Promise) returns (s: State)
    requires p.k >= 1
    ensures Reachable(s, p)
    ensures s.rows == map[0 := Message(Queued, Some("p"), 0, None, None, 0)]
    ensures s.sends == map[0 := Send(0, false, Rendering)] && s.handed == map[0 := 0]
  {
    assert PermittedRun(EMPTY, [], p) && Reachable(EMPTY, p);
    s := ReachableStep(EMPTY, Queue(0, "p", 0), p);
    assert Executing(s, 0) == {};
    s := ReachableStep(s, Start(0, 0, false), p);
  }

  lemma SecondStart(s: State, p: Promise) returns (s': State)
    requires p.k >= 2 && Reachable(s, p) && s.sends.Keys == {0}
    requires 0 in s.rows && s.rows[0].payload.Some? && s.rows[0].status == Queued
    ensures Reachable(s', p) && s' == s.(sends := s.sends[1 := Send(0, false, Rendering)])
  {
    assert Executing(s, 0) <= s.sends.Keys;
    Smaller(Executing(s, 0), s.sends.Keys);
    s' := ReachableStep(s, Start(1, 0, false), p);
  }

  /** A sent message, and an execution that is about to record a failure that is not its last. */
  ghost predicate AboutToReopen(s: State, x: nat) {
    && 0 in s.rows && s.rows[0].status == Sent && s.rows[0].payload == None
    && x in s.sends && s.sends[x] == Send(0, false, Broken(false))
  }

  /** Two executions overlap: one is sent, the other fails at the transport. */
  lemma OverlapIsAboutToReopen(p: Promise) returns (s: State)
    requires p.k >= 2
    ensures Reachable(s, p) && AboutToReopen(s, 1)
  {
    s := FirstStart(p);
    s := SecondStart(s, p);
    s := ReachableStep(s, HandOver(0), p);
    s := ReachableStep(s, RecordSent(0, 0), p);
    s := ReachableStep(s, TransportFails(1), p);
  }

  /** A single execution whose record of success was written and not heard of. */
  lemma UnheardIsAboutToReopen(p: Promise) returns (s: State)
    requires p.k >= 1 && p.unheard
    ensures Reachable(s, p) && AboutToReopen(s, 0)
  {
    s := FirstStart(p);
    s := ReachableStep(s, HandOver(0), p);
    s := ReachableStep(s, RecordSentUnheard(0, 0), p);
  }

  lemma ReopeningBreaksBoth(s: State, x: nat, p: Promise)
    requires Reachable(s, p) && AboutToReopen(s, x)
    ensures !PayloadsKept(p) && !FinishedForGood(p)
  {
    var e := RecordFailed(x);
    var s' := ReachableStep(s, e, p);
    assert s'.rows[0].status == Queued && s'.rows[0].payload == None && !Stays(s, e, 0);
    var es :| PermittedRun(EMPTY, es, p) && Run(EMPTY, es) == s;
    var es' :| PermittedRun(EMPTY, es', p) && Run(EMPTY, es') == s';
  }

  /** Over all runs, a queued message keeps its payload, and a finished one stays finished, exactly
      when executions of a message do not overlap and no success is written unheard. */
  lemma FinishedForGoodIff(p: Promise)
    ensures PayloadsKept(p) <==> Tame(p)
    ensures FinishedForGood(p) <==> Tame(p)
  {
    if Tame(p) {
      forall es | PermittedRun(EMPTY, es, p)
        ensures Clean(Run(EMPTY, es), p)
      {
        RunKeepsClean(EMPTY, es, p);
      }
      forall es, e, id | PermittedRun(EMPTY, es, p) && Enabled(Run(EMPTY, es), e) && Permitted(Run(EMPTY, es), e, p)
        ensures Stays(Run(EMPTY, es), e, id)
      {
        CleanStepStays(Run(EMPTY, es), e, p, id);
      }
    } else if p.k >= 2 {
      var s := OverlapIsAboutToReopen(p);
      ReopeningBreaksBoth(s, 1, p);
    } else {
      var s := UnheardIsAboutToReopen(p);
      ReopeningBreaksBoth(s, 0, p);
    }
  }

  // --- Hand-offs ---------------------------------------------------------------------------

  predicate Delivering(s: State, id: RowId) {
    exists x :: x in s.sends && s.sends[x].id == id && s.sends[x].phase == HandedOver
  }

  predicate KnowsCount(s: State, x: nat)
    requires x in s.sends
  {
    && s.sends[x].id in s.handed
    && (s.sends[x].phase == Rendering ==> s.handed[s.sends[x].id] == 0)
    && (s.sends[x].phase == HandedOver ==> s.handed[s.sends[x].id] == 1)
  }

  /** A message handed over is being recorded, or has lost what it takes to send it again. */
  predicate Settled(s: State, id: RowId) {
    id in s.rows ==> id in s.handed && (s.handed[id] == 0 || s.rows[id].payload == None || Delivering(s, id))
  }

  ghost predicate Counted(s: State, p: Promise) {
    && OneEach(s)
    && (p.k == 0 ==> s.sends == map[])
    && (forall x :: x in s.sends ==> KnowsCount(s, x))
    && (forall id :: Settled(s, id))
    && (forall id :: id in s.handed ==> s.handed[id] <= 1)
  }

  predicate Recorded(p: Promise) { p.k == 0 || (p.k == 1 && !p.lost) }

  lemma SettledKept(s: State, e: Event, p: Promise, id: RowId)
    requires Counted(s, p) && Recorded(p) && Enabled(s, e) && Permitted(s, e, p)
    ensures Settled(Next(s, e), id)
  {
    var s' := Next(s, e);
    assert Settled(s, id);
    if id in s'.rows && s'.handed[id] != 0 && s'.rows[id].payload != None {
      if e.HandOver? && s.sends[e.x].id == id {
        assert s'.sends[e.x].phase == HandedOver;
      } else {
        var x :| x in s.sends && s.sends[x].id == id && s.sends[x].phase == HandedOver;
        assert x in s'.sends && s'.sends[x] == s.sends[x];
      }
    }
  }

  lemma CountKept(s: State, e: Event, p: Promise, x: nat)
    requires Counted(s, p) && Recorded(p) && Enabled(s, e) && Permitted(s, e, p) && x in Next(s, e).sends
    ensures KnowsCount(Next(s, e), x)
  {
    if x in s.sends { assert KnowsCount(s, x); }
    if e.Start? {
      NobodyExecutes(s, e.id);
      assert Settled(s, e.id);
    }
    if e.HandOver? { assert KnowsCount(s, e.x); }
  }

  lemma StepKeepsCounted(s: State, e: Event, p: Promise)
    requires Counted(s, p) && Recorded(p) && Enabled(s, e) && Permitted(s, e, p)
    ensures Counted(Next(s, e), p)
  {
    StepKeepsOneEach(s, e, p);
    forall x | x in Next(s, e).sends { CountKept(s, e, p, x); }
    forall id { SettledKept(s, e, p, id); }
    if e.HandOver? { assert KnowsCount(s, e.x); }
  }

  lemma {:induction false} RunKeepsCounted(s: State, es: seq<Event>, p: Promise)
    requires Counted(s, p) && Recorded(p) && PermittedRun(s, es, p)
    ensures Counted(Run(s, es), p)
    decreases |es|
  {
    if es == [] {
    } else {
      StepKeepsCounted(s, es[0], p);
      RunKeepsCounted(Next(s, es[0]), es[1..], p);
    }
  }

  lemma OverlapHandsOverTwice(p: Promise) returns (s: State)
    requires p.k >= 2
    ensures Reachable(s, p) && 0 in s.handed && s.handed[0] == 2
  {
    s := FirstStart(p);
    s := SecondStart(s, p);
    s := ReachableStep(s, HandOver(0), p);
    s := ReachableStep(s, HandOver(1), p);
  }

  lemma LostRecordHandsOverTwice(p: Promise) returns (s: State)
    requires p.k >= 1 && p.lost
    ensures Reachable(s, p) && 0 in s.handed && s.handed[0] == 2
  {
    s := FirstStart(p);
    s := ReachableStep(s, HandOver(0), p);
    s := ReachableStep(s, Crash(0), p);
    assert Executing(s, 0) == {};
    s := ReachableStep(s, Start(1, 0, false), p);
    s := ReachableStep(s, HandOver(1), p);
  }

  /** Over all runs, every message is handed over at most once exactly when its executions do not
      overlap and no hand-off goes unrecorded. */
  lemma HandedOnceIff(p: Promise)
    ensures HandedOnce(p) <==> Recorded(p)
  {
    if Recorded(p) {
      forall es | PermittedRun(EMPTY, es, p)
        ensures Counted(Run(EMPTY, es), p)
      {
        RunKeepsCounted(EMPTY, es, p);
      }
    } else if p.k >= 2 {
      var s := OverlapHandsOverTwice(p);
      var es :| PermittedRun(EMPTY, es, p) && Run(EMPTY, es) == s;
    } else {
      var s := LostRecordHandsOverTwice(p);
      var es :| PermittedRun(EMPTY, es, p) && Run(EMPTY, es) == s;
    }
  }

  // --- The sweep drains its backlog --------------------------------------------------------

  ghost function Swept(t: Table, cutoff: Time): set<RowId> {
    Members(FirstN(CreationTimes(t), Stuck(t, cutoff), SWEEP_BATCH))
  }

  /** New mail is younger than `first`, and no finished message is queued again. */
  predicate Onward(s: State, e: Event, first: Time)
    requires Enabled(s, e)
  {
    && (e.Queue? ==> first <= e.at)
    && (e.RecordFailed? && s.sends[e.x].phase == Broken(false) && s.sends[e.x].id in s.rows ==>
          s.rows[s.sends[e.x].id].status == Queued)
  }

  predicate OnwardRun(s: State, es: seq<Event>, first: Time)
    requires ValidRun(s, es)
    decreases |es|
  {
    es == [] || (Onward(s, es[0], first) && OnwardRun(Next(s, es[0]), es[1..], first))
  }

  /** What is queued and older than `first` only becomes less. */
  lemma {:induction false} BacklogShrinks(s: State, es: seq<Event>, first: Time)
    requires ValidRun(s, es) && OnwardRun(s, es, first)
    ensures Stuck(Run(s, es).rows, first) <= Stuck(s.rows, first)
    decreases |es|
  {
    if es == [] {
    } else {
      var s' := Next(s, es[0]);
      forall id | id in Stuck(s'.rows, first)
        ensures id in Stuck(s.rows, first)
      {
        if id in s.rows && s.rows[id].status != Queued { FinishedReopensIff(s, es[0], id); }
      }
      BacklogShrinks(s', es[1..], first);
    }
  }

  /** A sweep with its cutoff, and what happens until the next one. */
  datatype Round = Round(cutoff: Time, es: seq<Event>)

  /** Each message a sweep re-enqueued has left `queued` by the next. */
  ghost predicate Rounds(s: State, first: Time, rounds: seq<Round>)
    decreases |rounds|
  {
    rounds == [] ||
    (&& first <= rounds[0].cutoff && ValidRun(s, rounds[0].es) && OnwardRun(s, rounds[0].es, first)
     && var s' := Run(s, rounds[0].es);
        && (forall id <- Swept(s.rows, rounds[0].cutoff) :: id in s'.rows ==> s'.rows[id].status != Queued)
        && Rounds(s', first, rounds[1..]))
  }

  ghost function After(s: State, first: Time, rounds: seq<Round>): State
    requires Rounds(s, first, rounds)
    decreases |rounds|
  {
    if rounds == [] then s else After(Run(s, rounds[0].es), first, rounds[1..])
  }

  /** If a sweep does not reach `b`, all it takes is at least as old. */
  lemma SweptComesFirst(t: Table, cutoff: Time, first: Time, b: RowId)
    requires first <= cutoff && b in Stuck(t, first) && b !in Swept(t, cutoff)
    ensures Swept(t, cutoff) <= Stuck(t, first)
  {
    forall x | x in FirstN(CreationTimes(t), Stuck(t, cutoff), SWEEP_BATCH)
      ensures x in Stuck(t, first)
    {
      PickedPrecedesRest(CreationTimes(t), Stuck(t, cutoff), SWEEP_BATCH, x, b);
    }
  }

  lemma FullSweep(t: Table, cutoff: Time, b: RowId)
    requires b in Stuck(t, cutoff) && b !in Swept(t, cutoff)
    ensures |Swept(t, cutoff)| == SWEEP_BATCH
  {
    var times, stuck := CreationTimes(t), Stuck(t, cutoff);
    PickedIffRankBelow(times, stuck, SWEEP_BATCH, b);
    Smaller(Earlier(times, stuck, b), stuck);
    PickedInOrder(times, stuck, SWEEP_BATCH);
    MembersCount(FirstN(times, stuck, SWEEP_BATCH));
  }

  lemma SweepTakesTheOldest(t: Table, cutoff: Time, first: Time)
    requires first <= cutoff
    ensures var left := Stuck(t, first) - Swept(t, cutoff);
      left == {} || |left| + SWEEP_BATCH <= |Stuck(t, first)|
  {
    if b :| b in Stuck(t, first) - Swept(t, cutoff) {
      SweptComesFirst(t, cutoff, first, b);
      FullSweep(t, cutoff, b);
      Smaller(Swept(t, cutoff), Stuck(t, first));
    }
  }

  /** The `n` messages queued before the first sweep's cutoff are done after `n / 100`, rounded up,
      sweeps, whatever else is queued, sent or stuck in the meantime. */
  lemma {:induction false} BacklogDrains(s: State, first: Time, rounds: seq<Round>)
    requires Rounds(s, first, rounds)
    ensures var left := Stuck(After(s, first, rounds).rows, first);
      left == {} || |left| + SWEEP_BATCH * |rounds| <= |Stuck(s.rows, first)|
    decreases |rounds|
  {
    if rounds == [] {
    } else {
      var r := rounds[0];
      var s' := Run(s, r.es);
      BacklogShrinks(s, r.es, first);
      SweepTakesTheOldest(s.rows, r.cutoff, first);
      assert Stuck(s'.rows, first) <= Stuck(s.rows, first) - Swept(s.rows, r.cutoff);
      Smaller(Stuck(s'.rows, first), Stuck(s.rows, first) - Swept(s.rows, r.cutoff));
      BacklogDrains(s', first, rounds[1..]);
    }
  }
}
