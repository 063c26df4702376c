/**
  `remember`: callers interleave at every await. What happens between two awaits is one step.
 */
module SingleFlight {
  import opened Wrappers

  /** Flights are kept per driver, and per key within it. */
  datatype Slot = Slot(driver: nat, key: string)

  /** `Value(None)` is `undefined`: a loader may return it, and it is never cached. */
  datatype Outcome = Value(value: Option<string>) | Rejected(error: string)

  /** A store in progress has landed or not. */
  datatype Phase =
    | Loading
    | Storing(value: string, landed: bool)
    | Settled(outcome: Outcome)
    | Released(outcome: Outcome)

  /** `loaded` is the value its loader returned, if it returned one. */
  datatype Flight = Flight(slot: Slot, phase: Phase, loaded: Option<string>)

  datatype Caller =
    | Looking(slot: Slot)
    | Got(slot: Slot, found: Option<string>)
    | Joined(slot: Slot, flight: nat)
    | Answered(slot: Slot, outcome: Outcome, via: Option<nat>)

  /** `store` is what the drivers hold and have not let expire. `writes` logs what flights stored,
      by flight. */
  datatype State = State(
    store: map<Slot, string>,
    inFlight: map<Slot, nat>,
    flights: map<nat, Flight>,
    callers: map<nat, Caller>,
    writes: seq<(nat, string)>)

  datatype Event =
    | Call(c: nat, slot: Slot)
    | Read(c: nat)          // the driver looks the key up; its answer is still on the way
    | LookupThrows(c: nat, error: string)
    | Hit(c: nat)
    | Miss(c: nat, f: nat)
    | LoadReturns(f: nat, loaded: Option<string>)
    | LoadThrows(f: nat, error: string)
    | StoreLands(f: nat)
    | StoreReturns(f: nat)
    | StoreThrows(f: nat, error: string)
    | Release(f: nat)       // the `finally` callback
    | Resume(c: nat)
    | Put(slot: Slot, value: string)   // another process, or a caller of `set`
    | Evict(slot: Slot)                // expiry, eviction or `forget`

  predicate IsLooking(s: State, c: nat) { c in s.callers && s.callers[c].Looking? }

  predicate HasGot(s: State, c: nat, hit: bool) {
    c in s.callers && s.callers[c].Got? && s.callers[c].found.Some? == hit
  }

  predicate Enabled(s: State, e: Event) {
    match e
    case Call(c, _) => c !in s.callers
    case Read(c) => IsLooking(s, c)
    case LookupThrows(c, _) => IsLooking(s, c)
    case Hit(c) => HasGot(s, c, true)
    case Miss(c, f) => HasGot(s, c, false) && f !in s.flights
    case LoadReturns(f, _) => f in s.flights && s.flights[f].phase.Loading?
    case LoadThrows(f, _) => f in s.flights && s.flights[f].phase.Loading?
    case StoreLands(f) => f in s.flights && s.flights[f].phase.Storing? && !s.flights[f].phase.landed
    case StoreReturns(f) => f in s.flights && s.flights[f].phase.Storing? && s.flights[f].phase.landed
    case StoreThrows(f, _) => f in s.flights && s.flights[f].phase.Storing?
    case Release(f) => f in s.flights && s.flights[f].phase.Settled?
    case Resume(c) =>
      && c in s.callers && s.callers[c].Joined?
      && s.callers[c].flight in s.flights && s.flights[s.callers[c].flight].phase.Released?
    case Put(_, _) => true
    case Evict(_) => true
  }

  function Lookup(store: map<Slot, string>, slot: Slot): Option<string> {
    if slot in store then Some(store[slot]) else None
  }

  function WithPhase(s: State, f: nat, p: Phase): State
    requires f in s.flights
  {
    s.(flights := s.flights[f := s.flights[f].(phase := p)])
  }

  function WithCaller(s: State, c: nat, k: Caller): State {
    s.(callers := s.callers[c := k])
  }

  function Next(s: State, e: Event): State
    requires Enabled(s, e)
  {
    match e
    case Call(c, slot) => WithCaller(s, c, Looking(slot))
    case Read(c) => WithCaller(s, c, Got(s.callers[c].slot, Lookup(s.store, s.callers[c].slot)))
    case LookupThrows(c, error) => WithCaller(s, c, Answered(s.callers[c].slot, Rejected(error), None))
    case Hit(c) => WithCaller(s, c, Answered(s.callers[c].slot, Value(s.callers[c].found), None))
    case Miss(c, f) =>
      var slot := s.callers[c].slot;
      if slot in s.inFlight then WithCaller(s, c, Joined(slot, s.inFlight[slot]))
      else WithCaller(s, c, Joined(slot, f)).(
             flights := s.flights[f := Flight(slot, Loading, None)],
             inFlight := s.inFlight[slot := f])
    case LoadReturns(f, value) =>
      var phase := if value.None? then Settled(Value(None)) else Storing(value.value, false);
      s.(flights := s.flights[f := Flight(s.flights[f].slot, phase, value)])
    case LoadThrows(f, error) => WithPhase(s, f, Settled(Rejected(error)))
    case StoreLands(f) =>
      var value := s.flights[f].phase.value;
      WithPhase(s, f, Storing(value, true)).(
        store := s.store[s.flights[f].slot := value], writes := s.writes + [(f, value)])
    case StoreReturns(f) => WithPhase(s, f, Settled(Value(Some(s.flights[f].phase.value))))
    case StoreThrows(f, error) => WithPhase(s, f, Settled(Rejected(error)))
    case Release(f) =>
      WithPhase(s, f, Released(s.flights[f].phase.outcome)).(inFlight := s.inFlight - {s.flights[f].slot})
    case Resume(c) =>
      var k := s.callers[c];
      WithCaller(s, c, Answered(k.slot, s.flights[k.flight].phase.outcome, Some(k.flight)))
    case Put(slot, value) => s.(store := s.store[slot := value])
    case Evict(slot) => s.(store := s.store - {slot})
  }

  predicate ValidRun(s: State, es: seq<Event>)
    decreases |es|, 0
  {
    es == [] || (ValidRun(s, es[..|es| - 1]) && Enabled(Run(s, es[..|es| - 1]), es[|es| - 1]))
  }

  function Run(s: State, es: seq<Event>): State
    requires ValidRun(s, es)
    decreases |es|, 1
  {
    if es == [] then s else Next(Run(s, es[..|es| - 1]), es[|es| - 1])
  }

  const EMPTY := State(map[], map[], map[], map[], [])

  predicate Unfinished(f: Flight) { !f.phase.Released? }

  predicate SlotExact(s: State, slot: Slot) {
    slot in s.inFlight ==>
      var f := s.inFlight[slot]; f in s.flights && s.flights[f].slot == slot && Unfinished(s.flights[f])
  }

  predicate FlightExact(s: State, f: nat) {
    f in s.flights && Unfinished(s.flights[f]) ==>
      s.flights[f].slot in s.inFlight && s.inFlight[s.flights[f].slot] == f
  }

  /** A slot maps to a flight exactly while that flight is unfinished. */
  ghost predicate MapIsExact(s: State) {
    && (forall slot :: slot in s.inFlight ==> SlotExact(s, slot))
    && (forall f :: f in s.flights ==> FlightExact(s, f))
  }

  predicate CallerSound(s: State, c: nat) {
    c in s.callers ==>
      match s.callers[c]
      case Looking(_) => true
      case Got(_, _) => true
      case Joined(slot, f) => f in s.flights && s.flights[f].slot == slot
      case Answered(slot, outcome, via) =>
        via.Some? ==>
          via.value in s.flights && s.flights[via.value].slot == slot && s.flights[via.value].phase == Released(outcome)
  }

  ghost predicate CallersSound(s: State) {
    forall c :: c in s.callers ==> CallerSound(s, c)
  }

  /** What a finished flight ended with, if it has. */
  function Ending(f: Flight): Option<Outcome> {
    match f.phase
    case Settled(o) => Some(o)
    case Released(o) => Some(o)
    case _ => None
  }

  /** A flight that wrote, wrote what it loaded, once. One that ended with a value wrote it. */
  ghost predicate WritesSound(s: State) {
    && (forall i :: 0 <= i < |s.writes| ==>
      s.writes[i].0 in s.flights && Wrote(s.flights[s.writes[i].0], s.writes[i].1))
    && (forall i, j :: 0 <= i < j < |s.writes| ==> s.writes[i].0 != s.writes[j].0)
    && (forall f :: f in s.flights ==> LoadedSound(s.flights[f]))
    && (forall f :: f in s.flights && HasStored(s.flights[f]) ==> (f, s.flights[f].loaded.value) in s.writes)
  }

  predicate Wrote(f: Flight, value: string) {
    f.loaded == Some(value) && !f.phase.Loading? && (f.phase.Storing? ==> f.phase.landed)
  }

  predicate LoadedSound(f: Flight) {
    match f.phase
    case Loading => f.loaded == None
    case Storing(value, _) => f.loaded == Some(value)
    case _ => Ending(f).value.Value? ==> Ending(f).value.value == f.loaded
  }

  predicate HasStored(f: Flight) {
    f.loaded.Some? && (EndedWithValue(f) || (f.phase.Storing? && f.phase.landed))
  }

  predicate EndedWithValue(f: Flight) {
    Ending(f).Some? && Ending(f).value.Value? && f.loaded.Some?
  }

  ghost predicate Inv(s: State) {
    MapIsExact(s) && CallersSound(s) && WritesSound(s)
  }

  lemma StepKeepsSlot(s: State, e: Event, slot: Slot)
    requires MapIsExact(s) && Enabled(s, e)
    ensures SlotExact(Next(s, e), slot)
  {
    assert SlotExact(s, slot);
    if e.Release? { assert FlightExact(s, e.f); }
  }

  lemma StepKeepsFlight(s: State, e: Event, f: nat)
    requires MapIsExact(s) && Enabled(s, e)
    ensures FlightExact(Next(s, e), f)
  {
    assert FlightExact(s, f);
    if e.Release? { assert FlightExact(s, e.f); }
    if e.Miss? { assert SlotExact(s, s.callers[e.c].slot); }
  }

  lemma StepKeepsMap(s: State, e: Event)
    requires MapIsExact(s) && Enabled(s, e)
    ensures MapIsExact(Next(s, e))
  {
    forall slot | slot in Next(s, e).inFlight { StepKeepsSlot(s, e, slot); }
    forall f | f in Next(s, e).flights { StepKeepsFlight(s, e, f); }
  }

  lemma StepKeepsCaller(s: State, e: Event, c: nat)
    requires Enabled(s, e) && CallerSound(s, c)
    requires e.Miss? ==> SlotExact(s, s.callers[e.c].slot)
    ensures CallerSound(Next(s, e), c)
  {}

  lemma StepKeepsCallers(s: State, e: Event)
    requires Inv(s) && Enabled(s, e)
    ensures CallersSound(Next(s, e))
  {
    forall c | c in Next(s, e).callers { StepKeepsCaller(s, e, c); }
  }

  predicate FlightSound(s: State, f: nat) {
    f in s.flights ==>
      LoadedSound(s.flights[f]) && (HasStored(s.flights[f]) ==> (f, s.flights[f].loaded.value) in s.writes)
  }

  lemma FlightKept(s: State, e: Event, f: nat)
    requires Enabled(s, e) && FlightSound(s, f)
    ensures FlightSound(Next(s, e), f)
  {}

  lemma WriteKept(s: State, e: Event, i: nat)
    requires Enabled(s, e) && i < |s.writes|
    requires s.writes[i].0 in s.flights && Wrote(s.flights[s.writes[i].0], s.writes[i].1)
    ensures var s' := Next(s, e);
      && i < |s'.writes| && s'.writes[i] == s.writes[i]
      && s'.writes[i].0 in s'.flights && Wrote(s'.flights[s'.writes[i].0], s'.writes[i].1)
      && (e.StoreLands? ==> s.writes[i].0 != e.f)
  {}

  lemma StepKeepsWrites(s: State, e: Event)
    requires Inv(s) && Enabled(s, e)
    ensures WritesSound(Next(s, e))
  {
    forall f | f in Next(s, e).flights
      ensures FlightSound(Next(s, e), f)
    {
      FlightKept(s, e, f);
    }
    forall i | 0 <= i < |s.writes| { WriteKept(s, e, i); }
    if e.StoreLands? {
      assert LoadedSound(s.flights[e.f]);
    }
  }

  lemma {:induction false} EveryRunKeepsInv(es: seq<Event>)
    requires ValidRun(EMPTY, es)
    ensures Inv(Run(EMPTY, es))
    decreases |es|
  {
    if es == [] {
    } else {
      var s, e := Run(EMPTY, es[..|es| - 1]), es[|es| - 1];
      EveryRunKeepsInv(es[..|es| - 1]);
      StepKeepsMap(s, e);
      StepKeepsCallers(s, e);
      StepKeepsWrites(s, e);
    }
  }

  /** At most one load per driver and key is in flight, and the map says exactly which. */
  lemma OneFlightPerKey(es: seq<Event>, f: nat, g: nat)
    requires ValidRun(EMPTY, es)
    ensures var s := Run(EMPTY, es);
      && (f in s.flights && g in s.flights && Unfinished(s.flights[f]) && Unfinished(s.flights[g]) && f != g ==>
            s.flights[f].slot != s.flights[g].slot)
      && (f in s.flights ==>
            (Unfinished(s.flights[f]) <==> s.flights[f].slot in s.inFlight && s.inFlight[s.flights[f].slot] == f))
  {
    EveryRunKeepsInv(es);
  }

  /** Everybody who waited on a flight gets what it ended with. A flight stores at most what its
      loader returned, so one whose load failed stores nothing; and one that ended with a loaded
      value has stored it. */
  lemma CallersShareTheOutcome(es: seq<Event>, c: nat, f: nat)
    requires ValidRun(EMPTY, es)
    ensures var s := Run(EMPTY, es);
      && (c in s.callers && s.callers[c].Answered? && s.callers[c].via == Some(f) ==>
            && f in s.flights && s.flights[f].slot == s.callers[c].slot
            && Ending(s.flights[f]) == Some(s.callers[c].outcome))
      && (f in s.flights ==>
            && (forall i :: 0 <= i < |s.writes| && s.writes[i].0 == f ==> s.flights[f].loaded == Some(s.writes[i].1))
            && (EndedWithValue(s.flights[f]) ==>
                  && Ending(s.flights[f]) == Some(Value(s.flights[f].loaded))
                  && (f, s.flights[f].loaded.value) in s.writes))
  {
    EveryRunKeepsInv(es);
    var s := Run(EMPTY, es);
    assert f in s.flights ==> LoadedSound(s.flights[f]);
  }

  // --- Where an answer comes from ------------------------------------------------------------

  /** Step `n` is the lookup of `c`, and `found` is what the store held for the slot then. */
  ghost predicate ReadFound(es: seq<Event>, n: nat, c: nat, slot: Slot, found: Option<string>) {
    n < |es| && es[n] == Read(c) && ValidRun(EMPTY, es[..n]) && Lookup(Run(EMPTY, es[..n]).store, slot) == found
  }

  ghost predicate CallerExplained(es: seq<Event>, c: nat, k: Caller) {
    && Call(c, k.slot) in es
    && match k
       case Looking(_) => true
       case Got(slot, found) => exists n :: ReadFound(es, n, c, slot, found)
       case Joined(slot, _) => exists n :: ReadFound(es, n, c, slot, None)
       case Answered(slot, outcome, Some(_)) => exists n :: ReadFound(es, n, c, slot, None)
       case Answered(slot, Value(value), None) => value.Some? && exists n :: ReadFound(es, n, c, slot, value)
       case Answered(_, Rejected(error), None) => LookupThrows(c, error) in es
  }

  predicate EndedBy(es: seq<Event>, f: nat, o: Outcome) {
    match o
    case Value(value) => LoadReturns(f, value) in es && (value.Some? ==> StoreReturns(f) in es)
    case Rejected(error) => LoadThrows(f, error) in es || StoreThrows(f, error) in es
  }

  predicate FlightExplained(es: seq<Event>, f: nat, flight: Flight) {
    match flight.phase
    case Loading => true
    case Storing(value, _) => LoadReturns(f, Some(value)) in es
    case Settled(o) => EndedBy(es, f, o)
    case Released(o) => EndedBy(es, f, o)
  }

  lemma ReadStaysFound(es: seq<Event>, e: Event, n: nat, c: nat, slot: Slot, found: Option<string>)
    requires ReadFound(es, n, c, slot, found)
    ensures ReadFound(es + [e], n, c, slot, found)
  {
    assert (es + [e])[..n] == es[..n];
  }

  lemma CallerStaysExplained(es: seq<Event>, e: Event, c: nat, k: Caller)
    requires CallerExplained(es, c, k)
    ensures CallerExplained(es + [e], c, k)
  {
    assert forall d :: d in es ==> d in es + [e];
    forall n, found | ReadFound(es, n, c, k.slot, found)
      ensures ReadFound(es + [e], n, c, k.slot, found)
    {
      ReadStaysFound(es, e, n, c, k.slot, found);
    }
  }

  lemma StepExplainsCaller(es: seq<Event>, e: Event, c: nat)
    requires ValidRun(EMPTY, es) && Enabled(Run(EMPTY, es), e)
    requires var s := Run(EMPTY, es); c in s.callers ==> CallerExplained(es, c, s.callers[c])
    ensures var s' := Next(Run(EMPTY, es), e); c in s'.callers ==> CallerExplained(es + [e], c, s'.callers[c])
  {
    var s := Run(EMPTY, es);
    if c in s.callers { CallerStaysExplained(es, e, c, s.callers[c]); }
    assert e in es + [e];
    if e == Read(c) {
      assert (es + [e])[..|es|] == es;
      assert ReadFound(es + [e], |es|, c, s.callers[c].slot, Lookup(s.store, s.callers[c].slot));
    }
  }

  lemma StepExplainsFlight(es: seq<Event>, s: State, e: Event, f: nat)
    requires Enabled(s, e) && (f in s.flights ==> FlightExplained(es, f, s.flights[f]))
    ensures var s' := Next(s, e); f in s'.flights ==> FlightExplained(es + [e], f, s'.flights[f])
  {
    assert e in es + [e];
    assert forall d :: d in es ==> d in es + [e];
  }

  lemma {:induction false} EveryRunIsExplained(es: seq<Event>, c: nat, f: nat)
    requires ValidRun(EMPTY, es)
    ensures var s := Run(EMPTY, es);
      && (c in s.callers ==> CallerExplained(es, c, s.callers[c]))
      && (f in s.flights ==> FlightExplained(es, f, s.flights[f]))
    decreases |es|
  {
    if es == [] {
    } else {
      var init, e := es[..|es| - 1], es[|es| - 1];
      EveryRunIsExplained(init, c, f);
      StepExplainsCaller(init, e, c);
      StepExplainsFlight(init, Run(EMPTY, init), e, f);
      assert init + [e] == es;
    }
  }

  /** An answer without a flight is the value the caller's own lookup found in the store, or the
      error it threw. An answer through a flight follows a lookup that found nothing, and is what
      the loader of that flight returned, stored unless it is `undefined`, or the error it or the
      store threw. */
  lemma AnswersAreExplained(es: seq<Event>, c: nat, slot: Slot, outcome: Outcome, via: Option<nat>)
    requires ValidRun(EMPTY, es)
    requires var s := Run(EMPTY, es); c in s.callers && s.callers[c] == Answered(slot, outcome, via)
    ensures Call(c, slot) in es
    ensures via == None && outcome.Value? ==> outcome.value.Some? && exists n ::
      && 0 <= n < |es| && es[n] == Read(c) && ValidRun(EMPTY, es[..n])
      && slot in Run(EMPTY, es[..n]).store && Run(EMPTY, es[..n]).store[slot] == outcome.value.value
    ensures via == None && outcome.Rejected? ==> LookupThrows(c, outcome.error) in es
    ensures via.Some? ==> exists n ::
      && 0 <= n < |es| && es[n] == Read(c) && ValidRun(EMPTY, es[..n]) && slot !in Run(EMPTY, es[..n]).store
    ensures via.Some? ==> via.value in Run(EMPTY, es).flights && Run(EMPTY, es).flights[via.value].slot == slot
    ensures via.Some? && outcome.Value? ==> LoadReturns(via.value, outcome.value) in es
    ensures via.Some? && outcome.Value? && outcome.value.Some? ==> StoreReturns(via.value) in es
    ensures via.Some? && outcome.Rejected? ==>
      LoadThrows(via.value, outcome.error) in es || StoreThrows(via.value, outcome.error) in es
  {
    EveryRunIsExplained(es, c, if via.Some? then via.value else 0);
    EveryRunKeepsInv(es);
    assert CallerSound(Run(EMPTY, es), c);
    if via.Some? {
      var n :| ReadFound(es, n, c, slot, None);
    } else if outcome.Value? {
      var n :| ReadFound(es, n, c, slot, outcome.value);
    }
  }

  /** Step `n` writes the slot or gives it up, and leaves `found` in it. */
  ghost predicate Leaves(es: seq<Event>, n: nat, slot: Slot, found: Option<string>) {
    n < |es| && ValidRun(EMPTY, es[..n]) &&
      var flights := Run(EMPTY, es[..n]).flights;
      match es[n]
      case Put(at, value) => at == slot && found == Some(value)
      case Evict(at) => at == slot && found == None
      case StoreLands(f) => f in flights && flights[f].slot == slot && found == flights[f].loaded
      case _ => false
  }

  lemma LeavesEarlier(es: seq<Event>, n: nat, slot: Slot, found: Option<string>)
    requires n < |es| - 1
    ensures Leaves(es[..|es| - 1], n, slot, found) <==> Leaves(es, n, slot, found)
  {
    assert es[..|es| - 1][..n] == es[..n];
  }

  lemma StepStores(s: State, e: Event, slot: Slot)
    requires Enabled(s, e) && (e.StoreLands? ==> LoadedSound(s.flights[e.f]))
    ensures Lookup(Next(s, e).store, slot) ==
      if e.Put? && e.slot == slot then Some(e.value)
      else if e.Evict? && e.slot == slot then None
      else if e.StoreLands? && s.flights[e.f].slot == slot then s.flights[e.f].loaded
      else Lookup(s.store, slot)
  {}

  lemma StoreStep(es: seq<Event>, slot: Slot, found: Option<string>)
    requires es != [] && ValidRun(EMPTY, es)
    ensures var before := Lookup(Run(EMPTY, es[..|es| - 1]).store, slot);
      var after := Lookup(Run(EMPTY, es).store, slot);
      && (after == before || Leaves(es, |es| - 1, slot, after))
      && (Leaves(es, |es| - 1, slot, found) ==> after == found)
  {
    var s, e := Run(EMPTY, es[..|es| - 1]), es[|es| - 1];
    EveryRunKeepsInv(es[..|es| - 1]);
    StepStores(s, e, slot);
  }

  /** A lookup finds what the last write of its slot left there: what another writer put, or what
      a flight of that slot loaded. It finds nothing before any write. */
  lemma {:induction false} LookupFindsTheLastWrite(es: seq<Event>, n: nat, slot: Slot, found: Option<string>)
    requires ValidRun(EMPTY, es) && n <= |es|
    requires if n == 0 then found == None else Leaves(es, n - 1, slot, found)
    requires forall k, v :: n <= k < |es| ==> !Leaves(es, k, slot, v)
    ensures Lookup(Run(EMPTY, es).store, slot) == found
    decreases |es|
  {
    if es == [] {
    } else {
      StoreStep(es, slot, found);
      var init := es[..|es| - 1];
      if n < |es| {
        forall k, v | n <= k < |init|
          ensures !Leaves(init, k, slot, v)
        {
          LeavesEarlier(es, k, slot, v);
        }
        if n > 0 { LeavesEarlier(es, n - 1, slot, found); }
        LookupFindsTheLastWrite(init, n, slot, found);
      }
    }
  }

  /** A caller that misses after a flight has been released, failed or not, starts a new load,
      unless another caller already has. */
  lemma ReleasedKeyIsFree(es: seq<Event>, f: nat, c: nat, g: nat)
    requires ValidRun(EMPTY, es)
    requires Enabled(Run(EMPTY, es), Release(f))
    requires Enabled(Run(EMPTY, es), Miss(c, g)) && Run(EMPTY, es).callers[c].slot == Run(EMPTY, es).flights[f].slot
    ensures var s := Run(EMPTY, es);
      && Next(s, Miss(c, g)).callers[c] == Joined(s.callers[c].slot, f)
      && Enabled(Next(s, Release(f)), Miss(c, g))
      && var s' := Next(Next(s, Release(f)), Miss(c, g));
         s'.callers[c] == Joined(s.callers[c].slot, g) && s'.flights[g] == Flight(s.callers[c].slot, Loading, None)
  {
    EveryRunKeepsInv(es);
  }

  /** The same steps as the module runs them, on its own map. */
  class Flights {
    var inFlight: map<Slot, nat>
    var flights: map<nat, Flight>
    var nextId: nat

    ghost predicate Valid()
      reads this
    {
      MapIsExact(State(map[], inFlight, flights, map[], [])) && forall f :: f in flights ==> f < nextId
    }

    constructor ()
      ensures Valid() && inFlight == map[] && flights == map[]
    {
      inFlight, flights, nextId := map[], map[], 0;
    }

    /** After a miss: join the flight under way, or start one. */
    method JoinOrLoad(slot: Slot) returns (f: nat, started: bool)
      requires Valid()
      modifies this
      ensures Valid()
      ensures started <==> slot !in old(inFlight)
      ensures f in flights && inFlight == old(inFlight)[slot := f]
      ensures flights == if started then old(flights)[f := Flight(slot, Loading, None)] else old(flights)
    {
      if slot in inFlight {
        return inFlight[slot], false;
      }
      f, started := nextId, true;
      nextId := nextId + 1;
      flights := flights[f := Flight(slot, Loading, None)];
      inFlight := inFlight[slot := f];
    }

    /** `finally`: the promise has settled, and the key is given up by name. */
    method Finally(f: nat)
      requires Valid() && f in flights && flights[f].phase.Settled?
      modifies this
      ensures Valid()
      ensures flights == old(flights)[f := old(flights)[f].(phase := Released(old(flights)[f].phase.outcome))]
      ensures inFlight == old(inFlight) - {old(flights)[f].slot}
    {
      inFlight := inFlight - {flights[f].slot};
      flights := flights[f := flights[f].(phase := Released(flights[f].phase.outcome))];
    }
  }
}
