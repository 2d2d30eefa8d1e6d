/**
  Pass two of a restore and the transaction around both passes. The service object holds the
  committed database, the state inside the open transaction and the audit events; RestoreSpec says
  on trees what Restore must do, and the theorems below are about RestoreSpec.
 */
module Restore {
  import opened Prelude
  import opened Json
  import opened Decoder
  import opened Store
  import opened Validate
  import Laws = StoreLaws

  datatype Mode = Merge | Replace | Other(text: string)

  datatype Error =
    | InvalidBackup
    | MissingTables(names: seq<string>)
    | Unavailable
    | RolledBack
    | AuditFailed

  /** What the surroundings do: is there a database, and do begin, commit and the last audit work? */
  datatype World = World(available: bool, begins: bool, commits: bool, audits: bool)

  datatype Report = Report(counts: map<string, nat>, committed: bool, error: Option<Error>)

  datatype Outcome = Outcome(db: Db, report: Report)

  // ---------- the restore on trees ----------

  /** The row lists of the envelope's tables object, the last occurrence of each name counting. */
  function TablesOf(v: Value): map<string, seq<Value>> {
    var fs := TablesObject(v).fields;
    map n | n in Names(fs) :: ElemsOf(LastField(fs, n).value)
  }

  function ElemsOf(v: Value): seq<Value> { if v.Arr? then v.elems else [] }

  /** missingTables: the registry tables the envelope lacks, in registry order. */
  function Missing(specs: seq<Spec>, present: set<string>): seq<string> {
    if specs == [] then []
    else (if specs[0].name in present then [] else [specs[0].name]) + Missing(specs[1..], present)
  }

  function Counts(inv: Inventory, tables: map<string, seq<Value>>): map<string, nat> {
    map n | n in tables && n in TableNames(inv) :: |tables[n]|
  }

  function Failed(db: Db, e: Error): Outcome { Outcome(db, Report(map[], false, Some(e))) }

  /** The import the transaction performs, on the tree. */
  function Import(inv: Inventory, mode: Mode, tables: map<string, seq<Value>>, db: Db)
    : Result<Db, DbError>
    requires AllKeyed(inv) && TableNames(inv) <= db.Keys
  {
    ApplyTables(inv, tables, if mode == Replace then Empty(inv) else db, 0)
  }

  /** Everything after validation. */
  function ImportSpec(inv: Inventory, mode: Mode, tables: map<string, seq<Value>>, w: World, db: Db)
    : (o: Outcome)
    requires AllKeyed(inv) && TableNames(inv) <= db.Keys
  {
    var missing := Missing(inv.specs, tables.Keys);
    if mode == Replace && missing != [] then Failed(db, MissingTables(missing))
    else if !w.available then Failed(db, Unavailable)
    else
      var r := Import(inv, mode, tables, db);
      if !w.begins || r.Err? || !w.commits then Failed(db, RolledBack)
      else Outcome(r.value, Report(Counts(inv, tables), true,
                                   if w.audits then None else Some(AuditFailed)))
  }

  ghost function RestoreSpec(inv: Inventory, file: seq<Lex>, mode: Mode, w: World, db: Db): (o: Outcome)
    requires AllKeyed(inv) && TableNames(inv) <= db.Keys
  {
    var v := ParseValue(file, 0);
    if mode.Other? || v.Fail? || !EnvelopeOk(inv, v.value) then Failed(db, InvalidBackup)
    else ImportSpec(inv, mode, TablesOf(v.value), w, db)
  }

  // ---------- pass two ----------

  /** What the seeking pass reads at a recorded offset. */
  function RowsAt(file: seq<Lex>, offset: nat): Option<seq<Value>> {
    if offset < 1 || offset > |file| then None
    else
      var r := ParseValue(file, offset - 1);
      if r.Done? && r.value.Arr? then Some(r.value.elems) else None
  }

  lemma {:induction false} UpsertRowsConcat(
    inv: Inventory, s: Spec, db: Db, xs: seq<Value>, ys: seq<Value>)
    requires Keyed(s) && s.name in db
    ensures var r := UpsertRows(inv, s, db, xs);
            UpsertRows(inv, s, db, xs + ys)
            == if r.Err? then r else UpsertRows(inv, s, r.value, ys)
    decreases |xs|
  {
    if xs == [] {
      assert xs + ys == ys;
    } else {
      assert (xs + ys)[0] == xs[0] && (xs + ys)[1..] == xs[1..] + ys;
      var r := Upsert(inv, s, db, xs[0]);
      if r.Ok? {
        UpsertRowsConcat(inv, s, r.value, xs[1..], ys);
      }
    }
  }

  /** Decode inside an array reads the next element of the grammar. */
  lemma ElementDecode(f: seq<Lex>, c: Cursor, first: bool)
    requires c.pos <= |f| && InArray(c, first) && More(f, c)
    ensures var r, es := DecodeAt(f, c), ParseElems(f, c.pos, first);
            if r.Bad? then es.Fail?
            else && InArray(r.next, false) && r.next.stack == c.stack
                 && es == Prepend(r.value, ParseElems(f, r.next.pos, false))
  {
  }

  /** The elements of an array, read from just after its bracket. */
  function Elements(f: seq<Lex>, p: nat): Option<seq<Value>>
    requires p <= |f|
  {
    var es := ParseElems(f, p, true);
    if es.Fail? then None else Some(es.value)
  }

  /** From `db` to `db'` all rows were upserted and counted, or there is no count. */
  ghost predicate Applied(
    inv: Inventory, s: Spec, rows: Option<seq<Value>>, db: Db, db': Db, count: Option<nat>)
    requires Keyed(s) && s.name in db
  {
    if rows.None? then count.None?
    else
      var r := UpsertRows(inv, s, db, rows.value);
      && count == (if r.Ok? then Some(|rows.value|) else None)
      && (r.Ok? ==> db' == r.value)
  }

  /** What the first token at a recorded offset says about the rows there. */
  lemma OpenRows(file: seq<Lex>, offset: nat)
    requires 1 <= offset <= |file|
    ensures var t := Next(file, Cursor(offset - 1, TopValue, []));
            if t.Token? && t.lex == LBracket then
              InArray(t.next, true) && RowsAt(file, offset) == Elements(file, t.next.pos)
            else RowsAt(file, offset).None?
  {
    var c := Cursor(offset - 1, TopValue, []);
    ValueToken(file, c);
    RowsAtArray(file, offset);
    var t := Next(file, c);
    if t.Token? && t.lex == LBracket {
      ArrayToken(file, c);
    } else if t.Token? && t.lex == LBrace {
      ObjectToken(file, c);
    }
  }

  /** Decoding at a recorded offset is reading the grammar there. */
  lemma RowsAtArray(file: seq<Lex>, offset: nat)
    requires 1 <= offset <= |file|
    ensures var r := DecodeAt(file, Cursor(offset - 1, TopValue, []));
            RowsAt(file, offset) == if r.Got? && r.value.Arr? then Some(r.value.elems) else None
  {
  }

  /** The row loop in the middle: what it has done, what the whole array holds, where it began. */
  datatype Midway = Midway(first: bool, done: seq<Value>, whole: Parsed<seq<Value>>, start: Db)

  ghost predicate InStep(inv: Inventory, f: seq<Lex>, s: Spec, m: Midway, c: Cursor, db: Db) {
    && Keyed(s) && s.name in m.start && s.name in db
    && c.pos <= |f| && InArray(c, m.first)
    && m.whole == PrependAll(m.done, ParseElems(f, c.pos, m.first))
    && UpsertRows(inv, s, m.start, m.done) == Ok(db)
  }

  /** The array is malformed, or some row of it is refused. */
  ghost predicate Spoiled(inv: Inventory, s: Spec, m: Midway)
    requires Keyed(s) && s.name in m.start
  {
    m.whole.Done? ==> UpsertRows(inv, s, m.start, m.whole.value).Err?
  }

  lemma UpsertStep(inv: Inventory, f: seq<Lex>, s: Spec, m: Midway, c: Cursor, db: Db)
    requires InStep(inv, f, s, m, c, db) && More(f, c)
    ensures var r := DecodeAt(f, c);
            if r.Bad? then Spoiled(inv, s, m)
            else
              var u := Upsert(inv, s, db, r.value);
              if u.Err? then Spoiled(inv, s, m)
              else InStep(inv, f, s, Midway(false, m.done + [r.value], m.whole, m.start), r.next, u.value)
  {
    ElementDecode(f, c, m.first);
    var r := DecodeAt(f, c);
    if r.Got? {
      PrependAllStep(m.done, r.value, ParseElems(f, r.next.pos, false));
      UpsertRowsConcat(inv, s, m.start, m.done, [r.value]);
      if Upsert(inv, s, db, r.value).Err? {
        RefusedRow(inv, s, m, r.value);
      }
    }
  }

  lemma RefusedRow(inv: Inventory, s: Spec, m: Midway, row: Value)
    requires Keyed(s) && s.name in m.start && UpsertRows(inv, s, m.start, m.done + [row]).Err?
    requires m.whole.Done? ==> m.done + [row] <= m.whole.value
    ensures Spoiled(inv, s, m)
  {
    if m.whole.Done? {
      var done := m.done + [row];
      assert m.whole.value == done + m.whole.value[|done|..];
      UpsertRowsConcat(inv, s, m.start, done, m.whole.value[|done|..]);
    }
  }

  class Service {
    const inv: Inventory
    var committed: Db
    var pending: Db
    var events: seq<string>

    ghost predicate Valid()
      reads this
    {
      AllKeyed(inv) && DistinctTables(inv) && TableNames(inv) <= committed.Keys
    }

    constructor (inv: Inventory, db: Db)
      requires AllKeyed(inv) && DistinctTables(inv) && TableNames(inv) <= db.Keys
      ensures Valid() && this.inv == inv && committed == db && events == []
    {
      this.inv := inv;
      committed, pending, events := db, db, [];
    }

    /** One static upsert inside the transaction. */
    method UpsertRow(s: Spec, row: Value) returns (ok: bool)
      requires Keyed(s) && s.name in pending
      modifies this`pending
      ensures var r := Upsert(inv, s, old(pending), row);
              ok == r.Ok? && pending == if r.Ok? then r.value else old(pending)
    {
      var r := Upsert(inv, s, pending, row);
      ok := r.Ok?;
      if ok { pending := r.value; }
    }

    /** One round of the row loop: decode one element, upsert it. */
    method UpsertNext(d: Reader, s: Spec, ghost m: Midway) returns (ok: bool, ghost m': Midway)
      requires d.Valid() && InStep(inv, d.file, s, m, d.At(), pending) && More(d.file, d.At())
      modifies d, this`pending
      ensures d.Valid() && pending.Keys == old(pending).Keys
      ensures if ok then
                && InStep(inv, d.file, s, m', d.At(), pending)
                && m'.whole == m.whole && m'.start == m.start && |m'.done| == |m.done| + 1
                && d.pos > old(d.pos)
              else Spoiled(inv, s, m)
    {
      UpsertStep(inv, d.file, s, m, d.At(), pending);
      var row := d.Decode();
      if row.None? { return false, m; }
      ok := UpsertRow(s, row.value);
      m' := Midway(false, m.done + [row.value], m.whole, m.start);
    }

    /** The row loop, with the decoder just inside the array. */
    method UpsertElements(d: Reader, s: Spec) returns (count: Option<nat>)
      requires d.Valid() && InArray(d.At(), true) && Keyed(s) && s.name in pending
      modifies d, this`pending
      ensures s.name in pending && pending.Keys == old(pending).Keys
      ensures Applied(inv, s, Elements(d.file, old(d.pos)), old(pending), pending, count)
    {
      ghost var m := Midway(true, [], ParseElems(d.file, d.pos, true), pending);
      PrependNothing(m.whole);
      var n := 0;
      var more := d.HasMore();
      while more
        invariant d.Valid() && more == More(d.file, d.At()) && n == |m.done|
        invariant InStep(inv, d.file, s, m, d.At(), pending)
        invariant m.whole == ParseElems(d.file, old(d.pos), true) && m.start == old(pending)
        invariant pending.Keys == old(pending).Keys
        decreases |d.file| - d.pos
      {
        var ok;
        ok, m := UpsertNext(d, s, m);
        if !ok { return None; }
        n := n + 1;
        more := d.HasMore();
      }
      ElementsEnd(d.file, d.At(), m.first);
      var token := d.Token();
      if token.None? { return None; }
      assert m.whole.value == m.done;
      return Some(n);
    }

    /** Seeks one lexeme back onto the '[', then decodes and upserts row by row. */
    method ApplyTableRows(file: seq<Lex>, s: Spec, offset: nat) returns (count: Option<nat>)
      requires Keyed(s) && s.name in pending
      modifies this`pending
      ensures s.name in pending && pending.Keys == old(pending).Keys
      ensures Applied(inv, s, RowsAt(file, offset), old(pending), pending, count)
    {
      if offset < 1 || offset > |file| { return None; }
      var d := new Reader(file, offset - 1);
      OpenRows(file, offset);
      var token := d.Token();
      if token != Some(LBracket) { return None; }
      count := UpsertElements(d, s);
    }

    /** The table at registry position `i`, skipped when the envelope lacks it. */
    method ApplyTableAt(file: seq<Lex>, ranges: map<string, nat>, i: nat)
      returns (ok: bool, count: Option<nat>)
      requires AllKeyed(inv) && TableNames(inv) <= pending.Keys && i < |inv.specs|
      requires forall n :: n in ranges ==> RowsAt(file, ranges[n]).Some?
      modifies this`pending
      ensures TableNames(inv) <= pending.Keys
      ensures var tables, n := ReadBack(file, ranges), inv.specs[i].name;
              var r := ApplyTables(inv, tables, old(pending), i);
              if ok then
                && r == ApplyTables(inv, tables, pending, i + 1)
                && count == if n in tables then Some(|tables[n]|) else None
              else r.Err?
    {
      var s := inv.specs[i];
      assert s.name in TableNames(inv);
      if s.name !in ranges { return true, None; }
      count := ApplyTableRows(file, s, ranges[s.name]);
      ok := count.Some?;
    }

    /** The table loop: every present table in registry order, counted. */
    method ApplyInOrder(file: seq<Lex>, ranges: map<string, nat>)
      returns (counts: Option<map<string, nat>>)
      requires AllKeyed(inv) && TableNames(inv) <= pending.Keys
      requires forall n :: n in ranges ==> RowsAt(file, ranges[n]).Some?
      modifies this`pending
      ensures TableNames(inv) <= pending.Keys
      ensures var tables := ReadBack(file, ranges);
              var r := ApplyTables(inv, tables, old(pending), 0);
              && counts == (if r.Ok? then Some(Counts(inv, tables)) else None)
              && (r.Ok? ==> pending == r.value)
    {
      ghost var tables := ReadBack(file, ranges);
      ghost var all := ApplyTables(inv, tables, pending, 0);
      var result: map<string, nat> := map[];
      var i := 0;
      while i < |inv.specs|
        invariant 0 <= i <= |inv.specs| && TableNames(inv) <= pending.Keys
        invariant all == ApplyTables(inv, tables, pending, i)
        invariant result == CountsUpTo(inv, tables, i)
      {
        CountsStep(inv, tables, i);
        var ok, count := ApplyTableAt(file, ranges, i);
        if !ok { return None; }
        if count.Some? { result := result[inv.specs[i].name := count.value]; }
        i := i + 1;
      }
      CountsAll(inv, tables);
      return Some(result);
    }

    /** Truncate for replace, then the table loop. */
    method ApplyBackupTables(file: seq<Lex>, ranges: map<string, nat>, mode: Mode)
      returns (counts: Option<map<string, nat>>)
      requires AllKeyed(inv) && TableNames(inv) <= pending.Keys
      requires forall n :: n in ranges ==> RowsAt(file, ranges[n]).Some?
      modifies this`pending
      ensures TableNames(inv) <= pending.Keys
      ensures var tables := ReadBack(file, ranges);
              var r := Import(inv, mode, tables, old(pending));
              && counts == (if r.Ok? then Some(Counts(inv, tables)) else None)
              && (r.Ok? ==> pending == r.value)
    {
      if mode == Replace { pending := Empty(inv); }
      counts := ApplyInOrder(file, ranges);
    }

    /** Begin, import, commit or roll back; `pending` is thrown away on every failure. */
    method RunTransaction(file: seq<Lex>, ranges: map<string, nat>, mode: Mode, w: World)
      returns (counts: Option<map<string, nat>>)
      requires Valid()
      requires forall n :: n in ranges ==> RowsAt(file, ranges[n]).Some?
      modifies this`pending, this`committed
      ensures Valid()
      ensures var tables := ReadBack(file, ranges);
              var r := Import(inv, mode, tables, old(committed));
              if w.begins && r.Ok? && w.commits
              then counts == Some(Counts(inv, tables)) && committed == r.value
              else counts == None && committed == old(committed)
    {
      if !w.begins { return None; }
      pending := committed;
      counts := ApplyBackupTables(file, ranges, mode);
      if counts.None? || !w.commits { return None; }
      committed := pending;
    }

    method RestoreRanges(file: seq<Lex>, ranges: map<string, nat>, mode: Mode, w: World)
      returns (report: Report)
      requires Valid() && !mode.Other?
      requires forall n :: n in ranges ==> RowsAt(file, ranges[n]).Some?
      modifies this
      ensures Valid()
      ensures Outcome(committed, report)
              == ImportSpec(inv, mode, ReadBack(file, ranges), w, old(committed))
      ensures events == old(events) + Trace(report)
    {
      assert ReadBack(file, ranges).Keys == ranges.Keys;
      if mode == Replace {
        var missing := MissingTableNames(inv, ranges.Keys);
        if missing != [] { return Report(map[], false, Some(MissingTables(missing))); }
      }
      if !w.available { return Report(map[], false, Some(Unavailable)); }
      events := events + ["BACKUP_RESTORE_STARTED"];
      var counts := RunTransaction(file, ranges, mode, w);
      if counts.None? {
        events := events + ["BACKUP_RESTORE_FAILED"];
        return Report(map[], false, Some(RolledBack));
      }
      if !w.audits { return Report(counts.value, true, Some(AuditFailed)); }
      events := events + ["BACKUP_RESTORE_COMPLETED"];
      return Report(counts.value, true, None);
    }

    /** The whole call; `w` carries what the surroundings decide. */
    method Restore(file: seq<Lex>, mode: Mode, w: World) returns (report: Report)
      requires Valid()
      modifies this
      ensures Valid()
      ensures Outcome(committed, report) == RestoreSpec(inv, file, mode, w, old(committed))
      ensures events == old(events) + Trace(report)
      ensures report.error == Some(RolledBack) ==>
                events == old(events) + ["BACKUP_RESTORE_STARTED", "BACKUP_RESTORE_FAILED"]
      ensures report.committed && w.audits ==>
                events == old(events) + ["BACKUP_RESTORE_STARTED", "BACKUP_RESTORE_COMPLETED"]
      ensures report.committed && !w.audits ==> events == old(events) + ["BACKUP_RESTORE_STARTED"]
      ensures !report.committed && report.error != Some(RolledBack) ==> events == old(events)
    {
      if mode.Other? { return Report(map[], false, Some(InvalidBackup)); }
      var ranges := ValidateBackupFile(inv, file);
      if ranges.None? { return Report(map[], false, Some(InvalidBackup)); }
      TwoPassAgreement(inv, file, ParseValue(file, 0).value, ranges.value);
      report := RestoreRanges(file, ranges.value, mode, w);
    }
  }

  /** The audit rows a call leaves, all written outside the data transaction. */
  function Trace(r: Report): seq<string> {
    if r.error == Some(RolledBack) then ["BACKUP_RESTORE_STARTED", "BACKUP_RESTORE_FAILED"]
    else if !r.committed then []
    else ["BACKUP_RESTORE_STARTED"] + if r.error.None? then ["BACKUP_RESTORE_COMPLETED"] else []
  }

  method MissingTableNames(inv: Inventory, present: set<string>) returns (missing: seq<string>)
    ensures missing == Missing(inv.specs, present)
  {
    missing := [];
    var i := 0;
    while i < |inv.specs|
      invariant 0 <= i <= |inv.specs|
      invariant missing + Missing(inv.specs[i..], present) == Missing(inv.specs, present)
    {
      if inv.specs[i].name !in present { missing := missing + [inv.specs[i].name]; }
      assert inv.specs[i..][1..] == inv.specs[i + 1..];
      i := i + 1;
    }
  }

  lemma {:induction false} MissingNone(specs: seq<Spec>, present: set<string>)
    ensures Missing(specs, present) == [] <==> forall i :: 0 <= i < |specs| ==> specs[i].name in present
  {
    if specs != [] {
      MissingNone(specs[1..], present);
      assert forall i :: 0 <= i < |specs| ==> specs[i] == specs[0] || specs[i] == specs[1..][i - 1];
    }
  }

  /** Exactly the absent names from position `from` on, at rising positions of the registry. */
  ghost predicate ListsAbsent(
    specs: seq<Spec>, present: set<string>, from: nat, names: seq<string>, at: seq<nat>)
  {
    && |at| == |names|
    && (forall j :: 0 <= j < |at| ==>
          from <= at[j] < |specs| && specs[at[j]].name == names[j] && names[j] !in present)
    && (forall j, k :: 0 <= j < k < |at| ==> at[j] < at[k])
    && forall i :: from <= i < |specs| && specs[i].name !in present ==> i in at
  }

  lemma OneMoreAbsent(
    specs: seq<Spec>, present: set<string>, i: nat, names: seq<string>, at: seq<nat>)
    requires i < |specs| && ListsAbsent(specs, present, i + 1, names, at)
    ensures specs[i].name in present ==> ListsAbsent(specs, present, i, names, at)
    ensures specs[i].name !in present ==>
              ListsAbsent(specs, present, i, [specs[i].name] + names, [i] + at)
  {
  }

  lemma {:induction false} MissingFrom(specs: seq<Spec>, present: set<string>, i: nat)
    requires i <= |specs|
    ensures exists at :: ListsAbsent(specs, present, i, Missing(specs[i..], present), at)
    decreases |specs| - i
  {
    if i == |specs| {
      assert Missing(specs[i..], present) == [] && ListsAbsent(specs, present, i, [], []);
    } else {
      MissingFrom(specs, present, i + 1);
      NextMissing(specs, present, i);
      var names := Missing(specs[i + 1..], present);
      var at :| ListsAbsent(specs, present, i + 1, names, at);
      OneMoreAbsent(specs, present, i, names, at);
    }
  }

  lemma NextMissing(specs: seq<Spec>, present: set<string>, i: nat)
    requires i < |specs|
    ensures var names := Missing(specs[i + 1..], present);
            Missing(specs[i..], present)
            == if specs[i].name in present then names else [specs[i].name] + names
  {
    assert specs[i..][1..] == specs[i + 1..];
  }

  /** A replace that is refused for its tables names exactly the absent ones, in registry order. */
  lemma MissingMeans(specs: seq<Spec>, present: set<string>)
    ensures exists at :: ListsAbsent(specs, present, 0, Missing(specs, present), at)
  {
    MissingFrom(specs, present, 0);
    assert specs[0..] == specs;
  }

  function ReadBack(file: seq<Lex>, ranges: map<string, nat>): map<string, seq<Value>>
    requires forall n :: n in ranges ==> RowsAt(file, ranges[n]).Some?
  {
    map n | n in ranges :: RowsAt(file, ranges[n]).value
  }

  function CountsUpTo(inv: Inventory, tables: map<string, seq<Value>>, i: nat): map<string, nat>
    requires i <= |inv.specs|
  {
    map n | n in tables && (exists p :: 0 <= p < i && inv.specs[p].name == n) :: |tables[n]|
  }

  lemma CountsStep(inv: Inventory, tables: map<string, seq<Value>>, i: nat)
    requires i < |inv.specs|
    ensures var n := inv.specs[i].name;
            CountsUpTo(inv, tables, i + 1)
            == if n in tables then CountsUpTo(inv, tables, i)[n := |tables[n]|]
               else CountsUpTo(inv, tables, i)
  {
  }

  lemma CountsAll(inv: Inventory, tables: map<string, seq<Value>>)
    ensures CountsUpTo(inv, tables, |inv.specs|) == Counts(inv, tables)
  {
  }

  // ---------- the theorems ----------

  /**
    The rows the seeking pass decodes at the recorded offsets are exactly the rows the validating
    pass accepted for the last occurrence of each table, wherever in the file the tables stand.
   */
  lemma TwoPassAgreement(inv: Inventory, file: seq<Lex>, v: Value, ranges: map<string, nat>)
    requires EnvelopeOk(inv, v) && RangesMatch(file, TablesObject(v).fields, ranges)
    ensures forall n :: n in ranges ==> RowsAt(file, ranges[n]).Some?
    ensures ReadBack(file, ranges) == TablesOf(v)
    ensures forall n :: n in ranges ==>
      var i := IndexOfTable(inv.specs, n);
      i.Some? && forall row :: row in TablesOf(v)[n] ==> RowOk(inv.specs[i.value], row)
  {
    var fs := TablesObject(v).fields;
    LastFieldIsField(v.fields, "tables");
    forall n | n in ranges
      ensures RowsAt(file, ranges[n]) == Some(TablesOf(v)[n])
      ensures TableFieldOk(inv, Field(n, LastField(fs, n).value))
    {
      LastFieldIsField(fs, n);
    }
  }

  /** A merge that committed is never changed by merging the same file again. */
  lemma MergeIsIdempotent(inv: Inventory, file: seq<Lex>, w: World, w': World, db: Db)
    requires WellFormed(inv) && TableNames(inv) <= db.Keys
    requires RestoreSpec(inv, file, Merge, w, db).report.committed
    ensures var once := RestoreSpec(inv, file, Merge, w, db).db;
            TableNames(inv) <= once.Keys && RestoreSpec(inv, file, Merge, w', once).db == once
  {
    Laws.MergeTwice(inv, TablesOf(ParseValue(file, 0).value), db);
  }

  lemma ReplaceImport(inv: Inventory, tables: map<string, seq<Value>>, w: World, db: Db)
    requires AllKeyed(inv) && TableNames(inv) <= db.Keys
    ensures var r := ImportSpec(inv, Replace, tables, w, db);
            var m := ImportSpec(inv, Merge, tables, w, Empty(inv));
            && (r.report.committed <==> m.report.committed && Missing(inv.specs, tables.Keys) == [])
            && (r.report.committed ==> r == m)
  {
    assert Import(inv, Replace, tables, db) == Import(inv, Merge, tables, Empty(inv));
  }

  /**
    Replace is merge into the empty database: it commits exactly the complete envelopes that merge
    commits there, with the same database and report.
   */
  lemma ReplaceIsMergeIntoEmpty(inv: Inventory, file: seq<Lex>, w: World, db: Db)
    requires AllKeyed(inv) && TableNames(inv) <= db.Keys
    ensures var r, m := RestoreSpec(inv, file, Replace, w, db), RestoreSpec(inv, file, Merge, w, Empty(inv));
            && (r.report.committed <==>
                  m.report.committed && TableNames(inv) <= TablesOf(ParseValue(file, 0).value).Keys)
            && (r.report.committed ==> r == m)
            && (!r.report.committed ==> r.db == db)
  {
    var v := ParseValue(file, 0);
    if v.Done? {
      MissingNone(inv.specs, TablesOf(v.value).Keys);
      ReplaceImport(inv, TablesOf(v.value), w, db);
    }
  }

  /** Replace only ever commits an envelope that carries every table. */
  lemma ReplaceIsComplete(inv: Inventory, file: seq<Lex>, w: World, db: Db)
    requires AllKeyed(inv) && TableNames(inv) <= db.Keys
    requires RestoreSpec(inv, file, Replace, w, db).report.committed
    ensures TablesOf(ParseValue(file, 0).value).Keys == TableNames(inv)
  {
    var v := ParseValue(file, 0).value;
    MissingNone(inv.specs, TablesOf(v).Keys);
    LastFieldIsField(v.fields, "tables");
    forall n | n in TablesOf(v) ensures n in TableNames(inv) {
      LastFieldIsField(TablesObject(v).fields, n);
      assert TableFieldOk(inv, Field(n, LastField(TablesObject(v).fields, n).value));
    }
  }

  /** The same header member, but for the order of the tables inside a tables object. */
  ghost predicate Reordered(a: Field, b: Field) {
    && a.name == b.name
    && if a.name == "tables" && a.value.Obj? then
         && b.value.Obj? && multiset(a.value.fields) == multiset(b.value.fields)
         && DistinctNames(a.value.fields) && DistinctNames(b.value.fields)
       else a.value == b.value
  }

  ghost predicate AllReordered(fs: seq<Field>, gs: seq<Field>) {
    |fs| == |gs| && forall i :: 0 <= i < |fs| ==> Reordered(fs[i], gs[i])
  }

  lemma ReorderedAccepted(inv: Inventory, a: Field, b: Field)
    requires Reordered(a, b)
    ensures HeaderFieldOk(inv, a) <==> HeaderFieldOk(inv, b)
  {
    if a.name == "tables" && a.value.Obj? {
      SameMembersAccepted(inv, a.value, b.value);
      SameMembersAccepted(inv, b.value, a.value);
    }
  }

  lemma SameMembersAccepted(inv: Inventory, a: Value, b: Value)
    requires a.Obj? && b.Obj? && multiset(a.fields) == multiset(b.fields)
    ensures TablesOk(inv, a) ==> TablesOk(inv, b)
  {
    if TablesOk(inv, a) {
      forall i | 0 <= i < |b.fields| ensures TableFieldOk(inv, b.fields[i]) {
        assert b.fields[i] in multiset(b.fields);
        assert b.fields[i] in multiset(a.fields);
      }
    }
  }

  lemma {:induction false} ReorderedHeader(fs: seq<Field>, gs: seq<Field>)
    requires AllReordered(fs, gs)
    ensures FormatOf(fs) == FormatOf(gs) && VersionOf(fs) == VersionOf(gs)
    ensures var f, g := LastField(fs, "tables"), LastField(gs, "tables");
            && f.Some? == g.Some?
            && (f.Some? ==> Reordered(Field("tables", f.value), Field("tables", g.value)))
    decreases |fs|
  {
    if fs != [] {
      var n := |fs| - 1;
      assert Reordered(fs[n], gs[n]);
      ReorderedHeader(fs[..n], gs[..n]);
    }
  }

  lemma ReorderedTables(a: Value, b: Value)
    requires a.Obj? && b.Obj? && AllReordered(a.fields, b.fields)
    ensures TablesOf(a) == TablesOf(b)
  {
    ReorderedHeader(a.fields, b.fields);
    var fs, gs := TablesObject(a).fields, TablesObject(b).fields;
    if multiset(fs) == multiset(gs) && DistinctNames(fs) && DistinctNames(gs) {
      SameLastFields(fs, gs);
      SameLastFields(gs, fs);
    }
  }

  /**
    The order in which a file lists its tables does not matter: two files whose envelopes differ in
    nothing else are accepted or refused alike, and restored to the same database with the same
    report, in every mode and whatever the surroundings do.
   */
  lemma TableOrderIrrelevant(
    inv: Inventory, f: seq<Lex>, g: seq<Lex>, mode: Mode, w: World, db: Db)
    requires AllKeyed(inv) && TableNames(inv) <= db.Keys
    requires var a, b := ParseValue(f, 0), ParseValue(g, 0);
             && a.Done? && b.Done? && a.value.Obj? && b.value.Obj?
             && AllReordered(a.value.fields, b.value.fields)
    ensures RestoreSpec(inv, f, mode, w, db) == RestoreSpec(inv, g, mode, w, db)
  {
    var a, b := ParseValue(f, 0).value, ParseValue(g, 0).value;
    ReorderedHeader(a.fields, b.fields);
    ReorderedTables(a, b);
    forall i | 0 <= i < |a.fields|
      ensures HeaderFieldOk(inv, a.fields[i]) <==> HeaderFieldOk(inv, b.fields[i])
    {
      ReorderedAccepted(inv, a.fields[i], b.fields[i]);
    }
  }

  lemma SameLastFields(fs: seq<Field>, gs: seq<Field>)
    requires multiset(fs) == multiset(gs) && DistinctNames(gs)
    ensures forall n :: n in Names(fs) ==> n in Names(gs) && LastField(gs, n) == LastField(fs, n)
  {
    forall n | n in Names(fs) ensures n in Names(gs) && LastField(gs, n) == LastField(fs, n) {
      LastFieldIsField(fs, n);
      var x := Field(n, LastField(fs, n).value);
      assert x in multiset(fs);
      assert x in multiset(gs);
      var i :| 0 <= i < |gs| && gs[i] == x;
      LastFieldAt(gs, i);
    }
  }

  lemma EmptySound(inv: Inventory)
    requires WellFormed(inv)
    ensures Sound(inv, Empty(inv))
  {
  }

  /**
    An envelope closed under the foreign keys is never refused by one, in either mode, and every
    state between two upserts satisfies every constraint.
   */
  lemma OrderIsSafe(inv: Inventory, mode: Mode, tables: map<string, seq<Value>>, db: Db)
    requires WellFormed(inv) && Sound(inv, db)
    requires Closed(inv, tables, if mode == Replace then Empty(inv) else db)
    ensures Import(inv, mode, tables, db) != Err(ForeignKeyViolation)
    ensures var start := if mode == Replace then Empty(inv) else db;
            forall d :: d in States(inv, tables, start, 0) ==> Sound(inv, d)
  {
    EmptySound(inv);
    var start := if mode == Replace then Empty(inv) else db;
    ClosedNeverViolates(inv, tables, start);
    EveryStateSound(inv, tables, start, 0);
  }
}
