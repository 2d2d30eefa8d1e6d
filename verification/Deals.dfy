/**
  The deals table under its guarded statements, and the service calls that read, decide and then
  write. DealRuns.dfy interleaves those calls; here each statement is one function on the table and
  the class is the service over the table.
 */
module Deals {
  import opened Prelude

  type Id = string
  type Time = int

  datatype Deal = Deal(
    title: string,
    company: Option<string>,
    contact: Option<string>,
    value: string,
    currency: string,
    stage: string,
    probability: int,
    assignedTo: Option<string>,
    closedAt: Option<Time>,
    customFields: string,
    createdAt: Time,
    updatedAt: Time,
    revokedAt: Option<Time>,
    reason: Option<string>,
    tags: seq<string>)

  type Table = map<Id, Deal>

  const REVOKED := "WIDERRUFEN"

  /** Trimming and upper-casing of a stage, and the merge of two JSON objects of custom fields. */
  datatype Env = Env(norm: string -> string, merge: (string, string) -> Option<string>)

  /** Upper-case words are their own normal form; these two are all that is needed. */
  ghost predicate Sensible(env: Env) { env.norm(REVOKED) == REVOKED && env.norm("LEAD") == "LEAD" }

  datatype Error =
    | NotFound
    | Revoked
    | DirectRevocation
    | TitleMissing
    | BadProbability
    | BadCustomFields

  /** isRevokedStage. */
  predicate IsRevokedStage(env: Env, stage: string) {
    env.norm(stage) == REVOKED || env.norm(stage) == "REVOKED"
  }

  predicate IsRevoked(d: Deal) { d.stage == REVOKED }

  // ---------- the statements ----------

  datatype Write =
    | SetAll(title: string, company: Option<string>, contact: Option<string>, value: string,
             currency: string, stage: string, probability: int, assignedTo: Option<string>,
             closedAt: Option<Time>, customFields: string)
    | SetStage(stage: string, probability: int, closedAt: Option<Time>)
    | SetTags(tag: string)
    | Remove
    | Revoke(at: Time, reason: Option<string>)

  /** The row a statement leaves behind, None for a deleted one. */
  function Written(d: Deal, w: Write, now: Time): Option<Deal> {
    match w
    case SetAll(title, company, contact, value, currency, stage, probability, assignee, closed, fields) =>
      Some(d.(title := title, company := company, contact := contact, value := value,
              currency := currency, stage := stage, probability := probability,
              assignedTo := assignee, closedAt := closed, customFields := fields, updatedAt := now))
    case SetStage(stage, probability, closed) =>
      Some(d.(stage := stage, probability := probability, closedAt := closed, updatedAt := now))
    case SetTags(tag) =>
      Some(d.(tags := if tag in d.tags then d.tags else d.tags + [tag], updatedAt := now))
    case Remove => None
    case Revoke(at, reason) =>
      Some(d.(stage := REVOKED, probability := 0,
              revokedAt := if IsRevoked(d) then d.revokedAt else Some(at),
              reason := if IsRevoked(d) then d.reason else reason,
              updatedAt := if IsRevoked(d) then d.updatedAt else now))
  }

  /** Does the WHERE clause find the row? Only RevokeDeal has no stage guard. */
  predicate Matches(t: Table, id: Id, w: Write) {
    id in t && (w.Revoke? || t[id].stage != REVOKED)
  }

  /** One statement; an unmatched one changes nothing and reports no rows. */
  function Run(t: Table, id: Id, w: Write, now: Time): Table {
    if !Matches(t, id, w) then t
    else
      var r := Written(t[id], w, now);
      if r.Some? then t[id := r.value] else t - {id}
  }

  // ---------- decisions between read and write ----------

  datatype CreateInput = CreateInput(
    title: string, company: Option<string>, contact: Option<string>, value: string,
    currency: string, stage: string, probability: int, assignedTo: Option<string>,
    customFields: string)

  /** None keeps a link as it is. */
  datatype UpdateInput = UpdateInput(
    title: string, company: Option<Option<string>>, contact: Option<Option<string>>, value: string,
    currency: string, stage: string, probability: int, assignedTo: Option<Option<string>>,
    customFields: string)

  predicate BadChance(p: int) { p < 0 || p > 100 }

  function ClosedAt(stage: string, now: Time): Option<Time> {
    if stage == "WON" || stage == "LOST" then Some(now) else None
  }

  function DecideCreate(env: Env, input: CreateInput): Option<Error> {
    if input.title == "" then Some(TitleMissing)
    else if IsRevokedStage(env, input.stage) then Some(DirectRevocation)
    else if BadChance(input.probability) then Some(BadProbability)
    else None
  }

  function NewDeal(input: CreateInput, now: Time): Deal {
    Deal(input.title, input.company, input.contact, input.value,
         if input.currency == "" then "EUR" else input.currency,
         if input.stage == "" then "LEAD" else input.stage,
         input.probability, input.assignedTo, None,
         if input.customFields == "" then "{}" else input.customFields,
         now, now, None, None, [])
  }

  /** mutableDeal: the row, unless it is missing or revoked. */
  function Mutable(env: Env, t: Table, id: Id): Result<Deal, Error> {
    if id !in t then Err(NotFound)
    else if IsRevokedStage(env, t[id].stage) then Err(Revoked)
    else Ok(t[id])
  }

  function DecideStage(env: Env, t: Table, id: Id, stage: string, probability: int, now: Time)
    : Result<Write, Error>
  {
    var m := Mutable(env, t, id);
    if m.Err? then Err(m.error)
    else if IsRevokedStage(env, stage) then Err(DirectRevocation)
    else if BadChance(probability) then Err(BadProbability)
    else Ok(SetStage(stage, probability, ClosedAt(stage, now)))
  }

  /** Update up to the second read: custom fields are not merged yet. */
  function DecideUpdate(env: Env, t: Table, id: Id, input: UpdateInput, now: Time)
    : (r: Result<Write, Error>)
    ensures r.Ok? ==> r.value.SetAll? && !IsRevokedStage(env, r.value.stage)
  {
    var m := Mutable(env, t, id);
    if m.Err? then Err(m.error)
    else if input.title == "" then Err(TitleMissing)
    else if BadChance(input.probability) then Err(BadProbability)
    else if IsRevokedStage(env, input.stage) then Err(DirectRevocation)
    else
      Ok(SetAll(input.title,
                if input.company.Some? then input.company.value else m.value.company,
                if input.contact.Some? then input.contact.value else m.value.contact,
                input.value, if input.currency == "" then "EUR" else input.currency,
                input.stage, input.probability,
                if input.assignedTo.Some? then input.assignedTo.value else m.value.assignedTo,
                ClosedAt(input.stage, now), input.customFields))
  }

  /** mergeCustomFields, on what the second read finds. */
  function MergeFields(env: Env, t: Table, id: Id, added: string): Option<string> {
    if added == "" then Some(if id in t && t[id].customFields != "" then t[id].customFields else "{}")
    else if id !in t then Some(added)
    else env.merge(t[id].customFields, added)
  }

  datatype Branch = Missing | Terminal | NeverTaken

  /** classifyMutationError, after a statement found no row; the last branch is its final return. */
  function Classify(env: Env, t: Table, id: Id): Branch {
    if id !in t then Missing
    else if IsRevokedStage(env, t[id].stage) then Terminal
    else NeverTaken
  }

  function ErrorOf(b: Branch): Error { if b.Terminal? then Revoked else NotFound }

  // ---------- the service, one call at a time ----------

  class Service {
    const env: Env
    var deals: Table

    constructor (env: Env)
      ensures this.env == env && deals == map[]
    {
      this.env, deals := env, map[];
    }

    method Execute(id: Id, w: Write, now: Time) returns (found: bool)
      modifies this`deals
      ensures found == Matches(old(deals), id, w) && deals == Run(old(deals), id, w, now)
    {
      if id !in deals { return false; }
      var d := deals[id];
      if !w.Revoke? && d.stage == REVOKED { return false; }
      match w {
        case SetAll(title, company, contact, value, currency, stage, probability, assignee, closed, fields) =>
          d := d.(title := title, company := company, contact := contact, value := value,
                  currency := currency, stage := stage, probability := probability,
                  assignedTo := assignee, closedAt := closed, customFields := fields);
        case SetStage(stage, probability, closed) =>
          d := d.(stage := stage, probability := probability, closedAt := closed);
        case SetTags(tag) =>
          if tag !in d.tags { d := d.(tags := d.tags + [tag]); }
        case Remove =>
          deals := deals - {id};
          return true;
        case Revoke(at, reason) =>
          if d.stage == REVOKED {
            d := d.(probability := 0);
            deals := deals[id := d];
            return true;
          }
          d := d.(stage := REVOKED, probability := 0, revokedAt := Some(at), reason := reason);
      }
      deals := deals[id := d.(updatedAt := now)];
      return true;
    }

    method ClassifyMutationError(id: Id) returns (e: Error)
      ensures e == ErrorOf(Classify(env, deals, id))
    {
      if id !in deals { return NotFound; }
      if IsRevokedStage(env, deals[id].stage) { return Error.Revoked; }
      return NotFound;
    }

    method Create(id: Id, input: CreateInput, now: Time) returns (r: Result<Deal, Error>)
      requires id !in deals
      modifies this`deals
      ensures var e := DecideCreate(env, input);
              if e.Some? then r == Err(e.value) && deals == old(deals)
              else r == Ok(NewDeal(input, now)) && deals == old(deals)[id := NewDeal(input, now)]
      ensures r.Ok? <==>
                input.title != "" && !IsRevokedStage(env, input.stage) && 0 <= input.probability <= 100
      ensures deals == if r.Ok? then old(deals)[id := r.value] else old(deals)
      ensures r.Ok? ==> Created(input, now, r.value)
      ensures r.Err? ==>
                r.error == if input.title == "" then TitleMissing
                           else if IsRevokedStage(env, input.stage) then DirectRevocation
                           else BadProbability
    {
      if input.title == "" { return Err(TitleMissing); }
      if IsRevokedStage(env, input.stage) { return Err(DirectRevocation); }
      if input.probability < 0 || input.probability > 100 { return Err(BadProbability); }
      var stage, currency, fields := input.stage, input.currency, input.customFields;
      if stage == "" { stage := "LEAD"; }
      if currency == "" { currency := "EUR"; }
      if fields == "" { fields := "{}"; }
      var d := Deal(input.title, input.company, input.contact, input.value, currency, stage,
                    input.probability, input.assignedTo, None, fields, now, now, None, None, []);
      deals := deals[id := d];
      return Ok(d);
    }

    method UpdateStage(id: Id, stage: string, probability: int, now: Time)
      returns (r: Result<Deal, Error>)
      modifies this`deals
      ensures var d := DecideStage(env, old(deals), id, stage, probability, now);
              Finished(env, old(deals), deals, id, d, now, r)
      ensures r.Ok? <==>
                && Open(env, old(deals), id) && !IsRevokedStage(env, stage) && 0 <= probability <= 100
      ensures deals == if r.Ok? then old(deals)[id := r.value] else old(deals)
      ensures r.Ok? ==>
                r.value == old(deals)[id].(
                             stage := stage, probability := probability, updatedAt := now,
                             closedAt := if stage == "WON" || stage == "LOST" then Some(now) else None)
      ensures id !in old(deals) ==> r == Err(NotFound)
      ensures id in old(deals) && IsRevokedStage(env, old(deals)[id].stage) ==> r == Err(Error.Revoked)
      ensures Open(env, old(deals), id) && r.Err? ==>
                r.error == if IsRevokedStage(env, stage) then DirectRevocation else BadProbability
    {
      if id !in deals { return Err(NotFound); }
      if IsRevokedStage(env, deals[id].stage) { return Err(Error.Revoked); }
      if IsRevokedStage(env, stage) { return Err(DirectRevocation); }
      if probability < 0 || probability > 100 { return Err(BadProbability); }
      var closed: Option<Time> := None;
      if stage == "WON" || stage == "LOST" { closed := Some(now); }
      r := Finish(id, SetStage(stage, probability, closed), now);
    }

    method Update(id: Id, input: UpdateInput, now: Time) returns (r: Result<Deal, Error>)
      modifies this`deals
      ensures UpdateDone(env, old(deals), deals, id, input, now, r)
    {
      if id !in deals { return Err(NotFound); }
      var existing := deals[id];
      if IsRevokedStage(env, existing.stage) { return Err(Error.Revoked); }
      if input.title == "" { return Err(TitleMissing); }
      if input.probability < 0 || input.probability > 100 { return Err(BadProbability); }
      if IsRevokedStage(env, input.stage) { return Err(DirectRevocation); }
      var company, contact, assignee := existing.company, existing.contact, existing.assignedTo;
      if input.company.Some? { company := input.company.value; }
      if input.contact.Some? { contact := input.contact.value; }
      if input.assignedTo.Some? { assignee := input.assignedTo.value; }
      var currency := input.currency;
      if currency == "" { currency := "EUR"; }
      var closed: Option<Time> := None;
      if input.stage == "WON" || input.stage == "LOST" { closed := Some(now); }
      var merged := MergeCustomFields(id, input.customFields);
      if merged.None? { return Err(BadCustomFields); }
      r := Finish(id, SetAll(input.title, company, contact, input.value, currency, input.stage,
                             input.probability, assignee, closed, merged.value), now);
    }

    method MergeCustomFields(id: Id, added: string) returns (merged: Option<string>)
      ensures merged == MergeFields(env, deals, id, added)
    {
      if added == "" {
        if id in deals && deals[id].customFields != "" { return Some(deals[id].customFields); }
        return Some("{}");
      }
      if id !in deals { return Some(added); }
      return env.merge(deals[id].customFields, added);
    }

    method Delete(id: Id, now: Time) returns (e: Option<Error>)
      modifies this`deals
      ensures var m := Mutable(env, old(deals), id);
              if m.Err? then e == Some(m.error) && deals == old(deals)
              else
                && deals == Run(old(deals), id, Remove, now)
                && e == if Matches(old(deals), id, Remove) then None
                        else Some(ErrorOf(Classify(env, deals, id)))
      ensures e.None? <==> Open(env, old(deals), id)
      ensures deals == if e.None? then old(deals) - {id} else old(deals)
      ensures id !in old(deals) ==> e == Some(NotFound)
      ensures id in old(deals) && IsRevokedStage(env, old(deals)[id].stage) ==> e == Some(Error.Revoked)
    {
      if id !in deals { return Some(NotFound); }
      if IsRevokedStage(env, deals[id].stage) { return Some(Error.Revoked); }
      var found := Execute(id, Remove, now);
      if found { return None; }
      var why := ClassifyMutationError(id);
      return Some(why);
    }

    /** A deal that is revoked already is returned as it is. */
    method RevokeDeal(id: Id, at: Option<Time>, reason: string, now: Time)
      returns (r: Result<Deal, Error>)
      modifies this`deals
      ensures id !in old(deals) ==> r == Err(NotFound) && deals == old(deals)
      ensures id in old(deals) && IsRevokedStage(env, old(deals)[id].stage) ==>
                r == Ok(old(deals)[id]) && deals == old(deals)
      ensures id in old(deals) && !IsRevokedStage(env, old(deals)[id].stage) ==>
                Finished(env, old(deals), deals, id, Ok(RevokeWrite(at, reason, now)), now, r)
      ensures Open(env, old(deals), id) ==>
                && r.Ok? && deals == old(deals)[id := r.value]
                && r.value == old(deals)[id].(
                                stage := "WIDERRUFEN", probability := 0, updatedAt := now,
                                revokedAt := if at.Some? then at else Some(now),
                                reason := if reason == "" then None else Some(reason))
    {
      if id !in deals { return Err(NotFound); }
      if IsRevokedStage(env, deals[id].stage) { return Ok(deals[id]); }
      var when := now;
      if at.Some? { when := at.value; }
      r := Finish(id, Revoke(when, if reason == "" then None else Some(reason)), now);
    }

    /** The statement and what its caller makes of the result. */
    method Finish(id: Id, w: Write, now: Time) returns (r: Result<Deal, Error>)
      requires !w.Remove?
      modifies this`deals
      ensures Finished(env, old(deals), deals, id, Ok(w), now, r)
    {
      var found := Execute(id, w, now);
      if found { return Ok(deals[id]); }
      var why := ClassifyMutationError(id);
      return Err(why);
    }
  }

  function RevokeWrite(at: Option<Time>, reason: string, now: Time): Write {
    Revoke(if at.Some? then at.value else now, if reason == "" then None else Some(reason))
  }

  /** From table `t` to `t'`: the decided write, or nothing, and the answer that goes with it. */
  ghost predicate Finished(
    env: Env, t: Table, t': Table, id: Id, d: Result<Write, Error>, now: Time, r: Result<Deal, Error>)
  {
    if d.Err? then r == Err(d.error) && t' == t
    else
      && t' == Run(t, id, d.value, now)
      && (if Matches(t, id, d.value) then id in t' && r == Ok(t'[id])
          else r == Err(ErrorOf(Classify(env, t', id))))
  }

  /** The whole of Update: refused, not mergeable, or finished with the merged fields. */
  ghost predicate UpdateDone(
    env: Env, t: Table, t': Table, id: Id, input: UpdateInput, now: Time, r: Result<Deal, Error>)
  {
    var d := DecideUpdate(env, t, id, input, now);
    var merged := MergeFields(env, t, id, input.customFields);
    if d.Err? then r == Err(d.error) && t' == t
    else if merged.None? then r == Err(BadCustomFields) && t' == t
    else Finished(env, t, t', id, Ok(d.value.(customFields := merged.value)), now, r)
  }

  // ---------- the rows the calls leave ----------

  /** A row that a guarded statement finds and that no spelling of revoked closes. */
  predicate Open(env: Env, t: Table, id: Id) {
    id in t && t[id].stage != "WIDERRUFEN" && !IsRevokedStage(env, t[id].stage)
  }

  /** The custom fields an update writes, given the row that is read for the merge. */
  predicate FieldsMerged(env: Env, input: UpdateInput, read: Option<Deal>, fields: string) {
    if input.customFields == "" then
      fields == if read.Some? && read.value.customFields != "" then read.value.customFields else "{}"
    else if read.None? then fields == input.customFields
    else env.merge(read.value.customFields, input.customFields) == Some(fields)
  }

  /**
    The row after an update: `read` is the row the call read first, `was` the one its statement found,
    `started` and `now` the times of the two.
   */
  predicate OverwrittenBut(
    input: UpdateInput, read: Deal, was: Deal, started: Time, now: Time, d: Deal)
  {
    && d.title == input.title && d.value == input.value
    && d.currency == (if input.currency == "" then "EUR" else input.currency)
    && d.stage == input.stage && d.probability == input.probability
    && d.company == (if input.company.Some? then input.company.value else read.company)
    && d.contact == (if input.contact.Some? then input.contact.value else read.contact)
    && d.assignedTo == (if input.assignedTo.Some? then input.assignedTo.value else read.assignedTo)
    && d.closedAt == (if input.stage == "WON" || input.stage == "LOST" then Some(started) else None)
    && d.updatedAt == now && d.createdAt == was.createdAt
    && d.revokedAt == was.revokedAt && d.reason == was.reason && d.tags == was.tags
  }

  predicate Overwritten(
    env: Env, input: UpdateInput, read: Deal, was: Deal, started: Time, now: Time, d: Deal)
  {
    OverwrittenBut(input, read, was, started, now, d)
    && FieldsMerged(env, input, Some(read), d.customFields)
  }

  /** What an update does, in the terms of its caller. */
  lemma UpdateMeans(
    env: Env, t: Table, t': Table, id: Id, input: UpdateInput, now: Time, r: Result<Deal, Error>)
    requires UpdateDone(env, t, t', id, input, now, r)
    ensures r.Ok? <==>
              && Open(env, t, id) && !IsRevokedStage(env, input.stage)
              && input.title != "" && 0 <= input.probability <= 100
              && (input.customFields == "" ||
                  env.merge(t[id].customFields, input.customFields).Some?)
    ensures t' == if r.Ok? then t[id := r.value] else t
    ensures r.Ok? ==> Overwritten(env, input, t[id], t[id], now, now, r.value)
    ensures id !in t ==> r == Err(NotFound)
    ensures id in t && IsRevokedStage(env, t[id].stage) ==> r == Err(Revoked)
    ensures Open(env, t, id) && r.Err? ==>
              r.error == if input.title == "" then TitleMissing
                         else if input.probability < 0 || input.probability > 100 then BadProbability
                         else if IsRevokedStage(env, input.stage) then DirectRevocation
                         else BadCustomFields
  {
  }

  /** A new row: what the caller gave, and the defaults for what was left empty. */
  predicate Created(input: CreateInput, now: Time, d: Deal) {
    && d.title == input.title && d.company == input.company && d.contact == input.contact
    && d.value == input.value && d.currency == (if input.currency == "" then "EUR" else input.currency)
    && d.stage == (if input.stage == "" then "LEAD" else input.stage)
    && d.probability == input.probability && d.assignedTo == input.assignedTo
    && d.closedAt == None && d.revokedAt == None && d.reason == None && d.tags == []
    && d.customFields == (if input.customFields == "" then "{}" else input.customFields)
    && d.createdAt == now && d.updatedAt == now
  }

  /** Tagging adds a new tag at the end of an unrevoked row's tags and touches nothing else. */
  lemma TagMeans(t: Table, id: Id, tag: string, now: Time)
    ensures Run(t, id, SetTags(tag), now)
            == if id in t && t[id].stage != "WIDERRUFEN" then
                 t[id := t[id].(tags := if tag in t[id].tags then t[id].tags else t[id].tags + [tag],
                                updatedAt := now)]
               else t
  {
  }

  // ---------- one statement ----------

  /** A revoked row is untouched by every statement, to the last field. */
  lemma RevokedRowFrozen(t: Table, id: Id, other: Id, w: Write, now: Time)
    requires id in t && IsRevoked(t[id]) && t[id].probability == 0
    ensures id in Run(t, other, w, now) && Run(t, other, w, now)[id] == t[id]
  {
  }
}
