/**
  Every interleaving of the deal calls: a call reads, may read again to merge custom fields,
  writes, and, when its statement found no row, reads once more to classify the failure. Each of
  these is one event; any number of calls are under way at once.
 */
module DealRuns {
  import opened Prelude
  import opened Deals

  type Call = nat

  datatype Flight =
    | Merging(id: Id, write: Write)
    | Writing(id: Id, write: Write)
    | Classifying(id: Id)

  /** `used` holds every id ever given out; ids are fresh. */
  datatype World = World(deals: Table, used: set<Id>, flights: map<Call, Flight>, now: Time)

  datatype Event =
    | Create(id: Id, input: CreateInput)
    | ReadForUpdate(call: Call, id: Id, update: UpdateInput)
    | ReadForStage(call: Call, id: Id, stage: string, probability: int)
    | ReadForDelete(call: Call, id: Id)
    | ReadForRevoke(call: Call, id: Id, when: Option<Time>, reason: string)
    | Merge(call: Call)
    | Execute(call: Call)
    | Explain(call: Call)
    | Tag(id: Id, tag: string)
    | Tick(at: Time)

  /** What the caller sees, if the event ends the call. */
  datatype Outcome =
    | Pending
    | Done(deal: Deal)
    | Deleted
    | Failed(error: Error)

  function Start(now: Time): World { World(map[], {}, map[], now) }

  predicate Legal(w: World, e: Event) {
    match e
    case Create(id, input) => id !in w.used
    case ReadForUpdate(c, _, _) => c !in w.flights
    case ReadForStage(c, _, _, _) => c !in w.flights
    case ReadForDelete(c, _) => c !in w.flights
    case ReadForRevoke(c, _, _, _) => c !in w.flights
    case Merge(c) => c in w.flights && w.flights[c].Merging? && w.flights[c].write.SetAll?
    case Execute(c) => c in w.flights && w.flights[c].Writing?
    case Explain(c) => c in w.flights && w.flights[c].Classifying?
    case Tag(_, _) => true
    case Tick(at) => at >= w.now
  }

  function Takeoff(w: World, c: Call, f: Result<Flight, Error>): (World, Outcome) {
    if f.Err? then (w, Failed(f.error)) else (w.(flights := w.flights[c := f.value]), Pending)
  }

  function Land(w: World, c: Call): World { w.(flights := w.flights - {c}) }

  function Wrap(id: Id, d: Result<Write, Error>, merge: bool): Result<Flight, Error> {
    if d.Err? then Err(d.error)
    else if merge then Ok(Merging(id, d.value)) else Ok(Writing(id, d.value))
  }

  function ReadRevoke(env: Env, w: World, c: Call, id: Id, at: Option<Time>, reason: string)
    : (World, Outcome)
  {
    if id !in w.deals then (w, Failed(NotFound))
    else if IsRevokedStage(env, w.deals[id].stage) then (w, Done(w.deals[id]))
    else Takeoff(w, c, Ok(Writing(id, RevokeWrite(at, reason, w.now))))
  }

  function Merges(env: Env, w: World, c: Call): (World, Outcome)
    requires c in w.flights && w.flights[c].Merging? && w.flights[c].write.SetAll?
  {
    var f := w.flights[c];
    var merged := MergeFields(env, w.deals, f.id, f.write.customFields);
    if merged.None? then (Land(w, c), Failed(BadCustomFields))
    else
      (w.(flights := w.flights[c := Writing(f.id, f.write.(customFields := merged.value))]), Pending)
  }

  function Executes(w: World, c: Call): (World, Outcome)
    requires c in w.flights && w.flights[c].Writing?
  {
    var f := w.flights[c];
    var t := Run(w.deals, f.id, f.write, w.now);
    if !Matches(w.deals, f.id, f.write)
    then (w.(flights := w.flights[c := Classifying(f.id)]), Pending)
    else
      (Land(w, c).(deals := t), if f.id in t then Done(t[f.id]) else Deleted)
  }

  function Step(env: Env, w: World, e: Event): (World, Outcome)
    requires Legal(w, e)
  {
    match e
    case Create(id, input) =>
      var no := DecideCreate(env, input);
      if no.Some? then (w, Failed(no.value))
      else
        (w.(deals := w.deals[id := NewDeal(input, w.now)], used := w.used + {id}),
         Done(NewDeal(input, w.now)))
    case ReadForUpdate(c, id, input) =>
      Takeoff(w, c, Wrap(id, DecideUpdate(env, w.deals, id, input, w.now), true))
    case ReadForStage(c, id, stage, probability) =>
      Takeoff(w, c, Wrap(id, DecideStage(env, w.deals, id, stage, probability, w.now), false))
    case ReadForDelete(c, id) =>
      var m := Mutable(env, w.deals, id);
      Takeoff(w, c, if m.Err? then Err(m.error) else Ok(Writing(id, Remove)))
    case ReadForRevoke(c, id, at, reason) => ReadRevoke(env, w, c, id, at, reason)
    case Merge(c) => Merges(env, w, c)
    case Execute(c) => Executes(w, c)
    case Explain(c) => (Land(w, c), Failed(ErrorOf(Classify(env, w.deals, w.flights[c].id))))
    case Tag(id, tag) => (w.(deals := Run(w.deals, id, SetTags(tag), w.now)), Pending)
    case Tick(at) => (w.(now := at), Pending)
  }

  function After(env: Env, w: World, e: Event): World
    requires Legal(w, e)
  {
    Step(env, w, e).0
  }

  ghost predicate LegalRun(env: Env, w: World, es: seq<Event>)
    decreases |es|
  {
    es != [] ==> Legal(w, es[0]) && LegalRun(env, After(env, w, es[0]), es[1..])
  }

  function Final(env: Env, w: World, es: seq<Event>): World
    requires LegalRun(env, w, es)
    decreases |es|
  {
    if es == [] then w else Final(env, After(env, w, es[0]), es[1..])
  }

  // ---------- the invariant ----------

  /** The literal stage in the SQL guards is the only spelling of revoked that is ever stored. */
  ghost predicate RowOk(env: Env, d: Deal) {
    && (IsRevokedStage(env, d.stage) <==> IsRevoked(d))
    && (d.revokedAt.Some? <==> IsRevoked(d))
    && (IsRevoked(d) ==> d.probability == 0)
  }

  /** No statement under way carries a revoked stage, and a failed one failed for a lasting reason. */
  ghost predicate FlightOk(env: Env, w: World, f: Flight) {
    && f.id in w.used
    && match f
       case Merging(_, write) => write.SetAll? && !IsRevokedStage(env, write.stage)
       case Writing(_, write) =>
         (write.SetAll? || write.SetStage?) ==> !IsRevokedStage(env, write.stage)
       case Classifying(id) => id in w.deals ==> IsRevoked(w.deals[id])
  }

  ghost predicate Inv(env: Env, w: World) {
    && w.deals.Keys <= w.used
    && (forall id :: id in w.deals ==> RowOk(env, w.deals[id]))
    && (forall c :: c in w.flights ==> FlightOk(env, w, w.flights[c]))
  }

  /** Revoked rows stay as they are, missing ids that were used once stay missing. */
  ghost predicate Settled(w: World, w': World) {
    && w.used <= w'.used
    && (forall id :: id in w.deals && IsRevoked(w.deals[id]) ==>
          id in w'.deals && w'.deals[id] == w.deals[id])
    && (forall id :: id in w.used && id !in w.deals ==> id !in w'.deals)
  }

  lemma RunSettles(env: Env, w: World, id: Id, write: Write)
    requires Inv(env, w)
    ensures Settled(w, w.(deals := Run(w.deals, id, write, w.now)))
  {
    forall other | other in w.deals && IsRevoked(w.deals[other])
      ensures other in Run(w.deals, id, write, w.now)
      ensures Run(w.deals, id, write, w.now)[other] == w.deals[other]
    {
      RevokedRowFrozen(w.deals, other, id, write, w.now);
    }
  }

  lemma StepSettles(env: Env, w: World, e: Event)
    requires Inv(env, w) && Legal(w, e)
    ensures Settled(w, After(env, w, e))
  {
    if e.Execute? {
      RunSettles(env, w, w.flights[e.call].id, w.flights[e.call].write);
    } else if e.Tag? {
      RunSettles(env, w, e.id, SetTags(e.tag));
    }
  }

  lemma RunKeepsRows(env: Env, t: Table, id: Id, write: Write, now: Time)
    requires Sensible(env) && forall x :: x in t ==> RowOk(env, t[x])
    requires (write.SetAll? || write.SetStage?) ==> !IsRevokedStage(env, write.stage)
    ensures forall x :: x in Run(t, id, write, now) ==> RowOk(env, Run(t, id, write, now)[x])
    ensures Run(t, id, write, now).Keys <= t.Keys
  {
  }

  lemma StepKeepsRows(env: Env, w: World, e: Event)
    requires Sensible(env) && Inv(env, w) && Legal(w, e)
    ensures var w' := After(env, w, e);
            w'.deals.Keys <= w'.used && forall id :: id in w'.deals ==> RowOk(env, w'.deals[id])
  {
    if e.Execute? {
      var f := w.flights[e.call];
      assert FlightOk(env, w, f);
      RunKeepsRows(env, w.deals, f.id, f.write, w.now);
    } else if e.Tag? {
      RunKeepsRows(env, w.deals, e.id, SetTags(e.tag), w.now);
    } else if e.Create? {
      if DecideCreate(env, e.input).None? { LeadIsFree(env, e.input, w.now); }
    }
  }

  /** The default stage: a new deal is not revoked unless the normalisation says so of "LEAD". */
  lemma LeadIsFree(env: Env, input: CreateInput, now: Time)
    requires Sensible(env) && DecideCreate(env, input).None?
    ensures RowOk(env, NewDeal(input, now))
  {
  }

  lemma FlightStaysOk(env: Env, w: World, e: Event, f: Flight)
    requires Inv(env, w) && Legal(w, e) && FlightOk(env, w, f)
    ensures FlightOk(env, After(env, w, e), f)
  {
    StepSettles(env, w, e);
  }

  /** The one flight an event puts into the air is fit to fly. */
  lemma NewFlightOk(env: Env, w: World, e: Event, c: Call)
    requires Inv(env, w) && Legal(w, e)
    requires c in After(env, w, e).flights
    requires c !in w.flights || After(env, w, e).flights[c] != w.flights[c]
    ensures FlightOk(env, After(env, w, e), After(env, w, e).flights[c])
  {
    if e.Execute? {
      assert FlightOk(env, w, w.flights[e.call]);
    } else if e.Merge? {
      assert FlightOk(env, w, w.flights[e.call]);
    }
  }

  lemma StepKeepsInv(env: Env, w: World, e: Event)
    requires Sensible(env) && Inv(env, w) && Legal(w, e)
    ensures Inv(env, After(env, w, e))
  {
    StepKeepsRows(env, w, e);
    var w' := After(env, w, e);
    forall c | c in w'.flights ensures FlightOk(env, w', w'.flights[c]) {
      if c in w.flights && w'.flights[c] == w.flights[c] {
        FlightStaysOk(env, w, e, w.flights[c]);
      } else {
        NewFlightOk(env, w, e, c);
      }
    }
  }

  lemma {:induction false} RunKeepsInv(env: Env, w: World, es: seq<Event>)
    requires Sensible(env) && Inv(env, w) && LegalRun(env, w, es)
    ensures Inv(env, Final(env, w, es)) && Settled(w, Final(env, w, es))
    decreases |es|
  {
    if es != [] {
      StepKeepsInv(env, w, es[0]);
      StepSettles(env, w, es[0]);
      RunKeepsInv(env, After(env, w, es[0]), es[1..]);
    }
  }

  // ---------- the theorems ----------

  /**
    In every run from the empty table a stored stage normalises to revoked exactly when it is
    WIDERRUFEN, and then, and only then, the row has a revocation time; its probability is 0.
   */
  lemma RevokedSpelling(env: Env, now: Time, es: seq<Event>, id: Id)
    requires Sensible(env) && LegalRun(env, Start(now), es)
    requires id in Final(env, Start(now), es).deals
    ensures var d := Final(env, Start(now), es).deals[id];
            && (IsRevokedStage(env, d.stage) <==> d.stage == REVOKED)
            && (d.revokedAt.Some? <==> d.stage == REVOKED)
            && (d.stage == REVOKED ==> d.probability == 0)
  {
    RunKeepsInv(env, Start(now), es);
    assert RowOk(env, Final(env, Start(now), es).deals[id]);
  }

  /** Once revoked, a row never changes in any field and never disappears, whatever follows. */
  lemma RevocationIsAbsorbing(env: Env, w: World, es: seq<Event>, id: Id)
    requires Sensible(env) && Inv(env, w) && LegalRun(env, w, es)
    requires id in w.deals && IsRevoked(w.deals[id])
    ensures var w' := Final(env, w, es); id in w'.deals && w'.deals[id] == w.deals[id]
  {
    RunKeepsInv(env, w, es);
  }

  /**
    The first Revoke wins: when the statement of one call revokes a deal, then in every
    continuation every other Revoke of that deal, already under way or still to come, is answered
    with the row the first one wrote: its time and its reason stand.
   */
  lemma FirstRevokeWins(env: Env, w: World, call: Call, es: seq<Event>, e: Event)
    requires Sensible(env) && Inv(env, w) && Legal(w, Execute(call))
    requires w.flights[call].write.Revoke? && w.flights[call].id in w.deals
    requires !IsRevoked(w.deals[w.flights[call].id])
    requires LegalRun(env, After(env, w, Execute(call)), es)
    requires var w' := Final(env, After(env, w, Execute(call)), es);
             Legal(w', e) && IsRevokeOf(w', e, w.flights[call].id)
    ensures var id, write := w.flights[call].id, w.flights[call].write;
            var w' := Final(env, After(env, w, Execute(call)), es);
            exists d :: Step(env, w', e).1 == Done(d)
              && d.revokedAt == Some(write.at) && d.reason == write.reason
              && Step(env, w, Execute(call)).1 == Done(d)
  {
    StepKeepsInv(env, w, Execute(call));
    var w1 := After(env, w, Execute(call));
    var id := w.flights[call].id;
    RevocationIsAbsorbing(env, w1, es, id);
    RunKeepsInv(env, w1, es);
    var w' := Final(env, w1, es);
    assert RowOk(env, w'.deals[id]);
    assert Step(env, w', e).1 == Done(w1.deals[id]);
  }

  /** A Revoke call on that deal, either reading or at its statement. */
  predicate IsRevokeOf(w: World, e: Event, id: Id)
    requires Legal(w, e)
  {
    || (e.ReadForRevoke? && e.id == id)
    || (e.Execute? && w.flights[e.call].id == id && w.flights[e.call].write.Revoke?)
  }

  // ---------- what a call writes when others run in between ----------

  /** None of the events is a later step of the call. */
  ghost predicate Idle(es: seq<Event>, c: Call) {
    forall i :: 0 <= i < |es| ==> es[i] != Merge(c) && es[i] != Execute(c) && es[i] != Explain(c)
  }

  lemma FlightWaits(env: Env, w: World, e: Event, c: Call)
    requires Legal(w, e) && c in w.flights && e != Merge(c) && e != Execute(c) && e != Explain(c)
    ensures c in After(env, w, e).flights && After(env, w, e).flights[c] == w.flights[c]
  {
  }

  lemma {:induction false} CallWaits(env: Env, w: World, es: seq<Event>, c: Call)
    requires LegalRun(env, w, es) && c in w.flights && Idle(es, c)
    ensures c in Final(env, w, es).flights && Final(env, w, es).flights[c] == w.flights[c]
    decreases |es|
  {
    if es != [] {
      FlightWaits(env, w, es[0], c);
      assert Idle(es[1..], c) by {
        assert forall i :: 0 <= i < |es| - 1 ==> es[1..][i] == es[i + 1];
      }
      CallWaits(env, After(env, w, es[0]), es[1..], c);
    }
  }

  /** A guarded statement lands: it answers with the row it wrote, and writes no other. */
  ghost predicate Lands(env: Env, w: World, c: Call, id: Id, d: Deal)
    requires Legal(w, Execute(c))
  {
    Step(env, w, Execute(c)).1 == Done(d) && After(env, w, Execute(c)).deals == w.deals[id := d]
  }

  /**
    A change of stage, whatever runs between its read and its statement: it sets stage, probability and
    closing time of the row as the others have left it, and keeps all else, unless that row is gone or
    revoked by then, when it changes nothing.
   */
  lemma StageCallLands(
    env: Env, w: World, c: Call, id: Id, stage: string, probability: int, es: seq<Event>)
    requires Legal(w, ReadForStage(c, id, stage, probability))
    requires Step(env, w, ReadForStage(c, id, stage, probability)).1 == Pending
    requires LegalRun(env, After(env, w, ReadForStage(c, id, stage, probability)), es) && Idle(es, c)
    ensures var w1 := Final(env, After(env, w, ReadForStage(c, id, stage, probability)), es);
            && Legal(w1, Execute(c))
            && if id in w1.deals && w1.deals[id].stage != "WIDERRUFEN" then
                 Lands(env, w1, c, id, w1.deals[id].(
                         stage := stage, probability := probability, updatedAt := w1.now,
                         closedAt := if stage == "WON" || stage == "LOST" then Some(w.now) else None))
               else After(env, w1, Execute(c)).deals == w1.deals
  {
    CallWaits(env, After(env, w, ReadForStage(c, id, stage, probability)), es, c);
  }

  /**
    An update, whatever runs between its read, its merge and its statement: links it does not name are
    those of the row it read first, custom fields are merged with those of the row it read second, the
    rest is its input, and what it does not write is as the row stands when the statement runs.
   */
  lemma UpdateCallLands(
    env: Env, w: World, c: Call, id: Id, input: UpdateInput, es: seq<Event>, fs: seq<Event>)
    requires Legal(w, ReadForUpdate(c, id, input))
    requires Step(env, w, ReadForUpdate(c, id, input)).1 == Pending
    requires LegalRun(env, After(env, w, ReadForUpdate(c, id, input)), es) && Idle(es, c)
    requires var w1 := Final(env, After(env, w, ReadForUpdate(c, id, input)), es);
             && Legal(w1, Merge(c)) && Step(env, w1, Merge(c)).1 == Pending
             && LegalRun(env, After(env, w1, Merge(c)), fs) && Idle(fs, c)
    ensures id in w.deals
    ensures var w1 := Final(env, After(env, w, ReadForUpdate(c, id, input)), es);
            var w2 := Final(env, After(env, w1, Merge(c)), fs);
            && Legal(w2, Execute(c))
            && if id in w2.deals && w2.deals[id].stage != "WIDERRUFEN" then
                 exists d :: && Lands(env, w2, c, id, d)
                             && OverwrittenBut(input, w.deals[id], w2.deals[id], w.now, w2.now, d)
                             && FieldsMerged(env, input,
                                             if id in w1.deals then Some(w1.deals[id]) else None,
                                             d.customFields)
               else After(env, w2, Execute(c)).deals == w2.deals
  {
    var w0 := After(env, w, ReadForUpdate(c, id, input));
    CallWaits(env, w0, es, c);
    var w1 := Final(env, w0, es);
    CallWaits(env, After(env, w1, Merge(c)), fs, c);
    var w2 := Final(env, After(env, w1, Merge(c)), fs);
    if id in w2.deals && w2.deals[id].stage != "WIDERRUFEN" {
      var d := Run(w2.deals, id, w2.flights[c].write, w2.now)[id];
      assert Lands(env, w2, c, id, d);
    }
  }

  /**
    The last branch of classifyMutationError is never taken: when a guarded statement found no
    row, the classifying read finds none either, or finds a revoked one, whatever ran in between.
   */
  lemma ClassifierIsExhaustive(env: Env, now: Time, es: seq<Event>, call: Call)
    requires Sensible(env) && LegalRun(env, Start(now), es)
    requires Legal(Final(env, Start(now), es), Explain(call))
    ensures var w := Final(env, Start(now), es);
            var id := w.flights[call].id;
            && Classify(env, w.deals, id) != NeverTaken
            && (Step(env, w, Explain(call)).1 == Failed(Revoked) <==>
                  id in w.deals && IsRevoked(w.deals[id]))
            && (Step(env, w, Explain(call)).1 == Failed(NotFound) <==> id !in w.deals)
  {
    RunKeepsInv(env, Start(now), es);
    var w := Final(env, Start(now), es);
    assert FlightOk(env, w, w.flights[call]);
  }
}
