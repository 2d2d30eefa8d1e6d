/** The backup theorems for the program's own 24-table inventory. */
module Program {
  import opened Prelude
  import opened Json
  import opened Store
  import opened StoreLaws
  import opened Validate
  import opened Restore
  import opened Export
  import opened BackupInventory

  const AUDITED := "ai_audit_logs"

  const RESEARCH := "ai_research_jobs"

  lemma Positions()
    ensures |PROGRAM.specs| == 24
    ensures PROGRAM.specs[22].name == RESEARCH && PROGRAM.specs[23].name == AUDITED
    ensures PROGRAM.specs[2] == WORKFLOWS && WORKFLOWS.name == "workflows"
    ensures PROGRAM.specs[2].conflict == PROGRAM.specs[2].pk
    ensures PROGRAM.specs[22].conflict == PROGRAM.specs[22].pk
    ensures PROGRAM.specs[23].conflict == PROGRAM.specs[23].pk && "user_id" in PROGRAM.specs[23].nullable
  {
  }

  /** No row holds the JSON null in one of the program's NOT NULL columns of type JSONB. */
  predicate NoJsonNulls(db: Db) {
    forall n: nat :: n < |REQUIRED_JSON| ==> NoJsonNull(db, REQUIRED_JSON[n])
  }

  predicate NoJsonNull(db: Db, c: Column) {
    c.table in db ==> forall k :: k in db[c.table] && c.name in db[c.table][k] ==>
      db[c.table][k][c.name] != JSON_NULL
  }

  /** What the two conditions on whole tables come to for the program. */
  lemma TableConditions(db: Db)
    requires db.Keys == TableNames(PROGRAM)
    ensures AUDITED in db && RESEARCH in db
    ensures NoExtraRows(PROGRAM, db) <==> db[AUDITED] == map[]
    ensures NoDeadTables(PROGRAM, db) <==> db[RESEARCH] == map[]
  {
    Positions();
    assert PROGRAM.specs[22].name in TableNames(PROGRAM) && PROGRAM.specs[23].name in TableNames(PROGRAM);
    forall i | 0 <= i < |PROGRAM.specs|
      ensures PROGRAM.specs[i].extra != [] <==> i == 23
      ensures !Executable(PROGRAM.specs[i]) <==> i == 22
    {
      ExtraColumn(i);
      UndefinedColumn(i);
    }
  }

  /** And the one on columns. */
  lemma ColumnCondition(db: Db)
    requires Sound(PROGRAM, db)
    ensures NoLostValues(PROGRAM, db) <==> NoJsonNulls(db)
  {
    if !NoLostValues(PROGRAM, db) { LostIsNull(db); }
    if !NoJsonNulls(db) { NullIsLost(db); }
  }

  lemma NullIsLost(db: Db)
    requires Sound(PROGRAM, db) && !NoJsonNulls(db)
    ensures !NoLostValues(PROGRAM, db)
  {
    var n: nat :| n < |REQUIRED_JSON| && !NoJsonNull(db, REQUIRED_JSON[n]);
    var i := RequiredListed(n);
    assert PROGRAM.specs[i] == SPECS[i];
    assert !KeepsValues(SPECS[i], db[SPECS[i].name]);
  }

  lemma LostIsNull(db: Db)
    requires Sound(PROGRAM, db) && !NoLostValues(PROGRAM, db)
    ensures !NoJsonNulls(db)
  {
    var i :| 0 <= i < |PROGRAM.specs| && !KeepsValues(PROGRAM.specs[i], db[PROGRAM.specs[i].name]);
    LostColumn(i, db);
  }

  lemma LostColumn(i: nat, db: Db)
    requires i < |SPECS| && Sound(PROGRAM, db) && SPECS[i].name in db
    requires !KeepsValues(SPECS[i], db[SPECS[i].name])
    ensures !NoJsonNulls(db)
  {
    var s, t := SPECS[i], db[SPECS[i].name];
    var k, c :| k in t && c in t[k] && t[k][c] == JSON_NULL && c !in s.nullable;
    assert PROGRAM.specs[i] == s && TableFits(s, t) && RowFits(s, k, t[k]);
    RequiredAt(i, c);
    var n: nat :| n < |REQUIRED_JSON| && REQUIRED_JSON[n] == Column(s.name, c);
    assert !NoJsonNull(db, REQUIRED_JSON[n]);
  }

  /**
    The document Export prints for a sound database restores in replace mode if and only if
    ai_audit_logs and ai_research_jobs are both empty and no NOT NULL column of type JSONB holds the
    JSON null. Then every table comes back row for row, a JSON null elsewhere as NULL. The first
    table stores user_id, which row_to_json prints and the allow-list refuses, so pass one finds the
    document invalid; the upsert of the second assigns updated_at, a column the table does not have,
    and jsonb_to_record reads the JSON null as NULL, so the transaction fails.
   */
  lemma ExportRestores(
    rows: map<string, seq<Value>>, db: Db, stamp: string, w: World, live: Db)
    requires Sound(PROGRAM, db) && Streams(PROGRAM, rows, db)
    requires w.available && w.begins && w.commits && TableNames(PROGRAM) <= live.Keys
    ensures AllKeyed(PROGRAM) && AUDITED in db && RESEARCH in db
    ensures var o := RestoreSpec(PROGRAM, Print(Envelope(PROGRAM, rows, stamp)), Replace, w, live);
            var imports := db[RESEARCH] == map[] && NoJsonNulls(db);
            && (o.report.committed <==> db[AUDITED] == map[] && imports)
            && (o.report.committed ==> o.db == Flattened(db) && (o.db == db <==> Plain(db)))
            && (db[AUDITED] != map[] ==> o == Failed(live, InvalidBackup))
            && (db[AUDITED] == map[] && !imports ==> o == Failed(live, RolledBack))
  {
    ProgramWellFormed();
    TableConditions(db);
    ColumnCondition(db);
    RoundTrip(PROGRAM, rows, db, stamp, w, live);
  }

  // ---------- one row ----------

  /** A database with one row. */
  function OneRowDb(inv: Inventory, i: nat, key: Cell, row: Row): Db
    requires i < |inv.specs|
  {
    Empty(inv)[inv.specs[i].name := map[key := row]]
  }

  /** A row that fits a table whose primary key is its conflict column, and refers to nothing. */
  ghost predicate Alone(inv: Inventory, i: nat, key: Cell, row: Row) {
    && WellFormed(inv) && i < |inv.specs| && RowFits(inv.specs[i], key, row)
    && forall fk :: fk in inv.foreignKeys && fk.child == inv.specs[i].name && fk.column in row ==>
         row[fk.column] == NULL
  }

  lemma OneRowFits(inv: Inventory, i: nat, key: Cell, row: Row, p: nat)
    requires Alone(inv, i, key, row) && p < |inv.specs|
    ensures inv.specs[p].name in OneRowDb(inv, i, key, row)
    ensures TableFits(inv.specs[p], OneRowDb(inv, i, key, row)[inv.specs[p].name])
  {
    assert inv.specs[p].name in TableNames(inv);
  }

  lemma OneRowSound(inv: Inventory, i: nat, key: Cell, row: Row)
    requires Alone(inv, i, key, row)
    ensures Sound(inv, OneRowDb(inv, i, key, row))
  {
    var db := OneRowDb(inv, i, key, row);
    assert inv.specs[i].name in TableNames(inv);
    assert db.Keys == TableNames(inv);
    forall p | 0 <= p < |inv.specs| ensures TableFits(inv.specs[p], db[inv.specs[p].name]) {
      OneRowFits(inv, i, key, row, p);
    }
  }

  /** The selectors' results on that database. */
  function OneRowStream(inv: Inventory, i: nat, row: Row): map<string, seq<Value>>
    requires i < |inv.specs|
  {
    map n | n in TableNames(inv) :: if n == inv.specs[i].name then [RowJson(inv.specs[i], row)] else []
  }

  lemma OneRowStreams(inv: Inventory, i: nat, key: Cell, row: Row)
    requires DistinctTables(inv) && i < |inv.specs|
    ensures Streams(inv, OneRowStream(inv, i, row), OneRowDb(inv, i, key, row))
  {
    var rows, db := OneRowStream(inv, i, row), OneRowDb(inv, i, key, row);
    forall p | 0 <= p < |inv.specs| ensures OneTableListed(inv.specs[p], rows, db) {
      OneTableStreams(inv, i, key, row, p);
    }
    assert forall p :: 0 <= p < |inv.specs| ==> OneTableListed(inv.specs[p], rows, db);
  }

  ghost predicate OneTableListed(s: Spec, rows: map<string, seq<Value>>, db: Db) {
    && s.name in rows && s.name in db
    && exists keys :: ListsTable(s, rows[s.name], db[s.name], keys)
  }

  lemma OneTableStreams(inv: Inventory, i: nat, key: Cell, row: Row, p: nat)
    requires DistinctTables(inv) && i < |inv.specs| && p < |inv.specs|
    ensures var s, rows, db := inv.specs[p], OneRowStream(inv, i, row), OneRowDb(inv, i, key, row);
            && s.name in rows && s.name in db
            && ListsTable(s, rows[s.name], db[s.name], if p == i then [key] else [])
  {
    var s := inv.specs[p];
    assert s.name in TableNames(inv);
    var t := OneRowDb(inv, i, key, row)[s.name];
    assert OneRowStream(inv, i, row)[s.name] == Listing(s, t, if p == i then [key] else []);
  }

  /** One row in a table that stores a column outside its allow-list spoils the round trip. */
  lemma OneExtraRowIsRefused(
    inv: Inventory, i: nat, key: Cell, row: Row, stamp: string, mode: Mode, w: World, live: Db)
    requires Alone(inv, i, key, row) && inv.specs[i].extra != []
    requires TableNames(inv) <= live.Keys && !mode.Other?
    ensures Sound(inv, OneRowDb(inv, i, key, row))
    ensures Streams(inv, OneRowStream(inv, i, row), OneRowDb(inv, i, key, row))
    ensures RestoreSpec(inv, Print(Envelope(inv, OneRowStream(inv, i, row), stamp)), mode, w, live)
            == Failed(live, InvalidBackup)
  {
    OneRowSound(inv, i, key, row);
    OneRowStreams(inv, i, key, row);
    var db := OneRowDb(inv, i, key, row);
    assert inv.specs[i].name in db && key in db[inv.specs[i].name];
    RestoreOfExport(inv, OneRowStream(inv, i, row), db, stamp, mode, w, live);
  }

  /** One row that cannot be imported passes pass one and fails the transaction. */
  lemma OneDeadRowRollsBack(
    inv: Inventory, i: nat, key: Cell, row: Row, stamp: string, mode: Mode, w: World, live: Db)
    requires Alone(inv, i, key, row) && inv.specs[i].extra == []
    requires !Executable(inv.specs[i])
          || exists c :: c in row && row[c] == JSON_NULL && c !in inv.specs[i].nullable
    requires w.available && TableNames(inv) <= live.Keys && !mode.Other?
    ensures Sound(inv, OneRowDb(inv, i, key, row))
    ensures Streams(inv, OneRowStream(inv, i, row), OneRowDb(inv, i, key, row))
    ensures RestoreSpec(inv, Print(Envelope(inv, OneRowStream(inv, i, row), stamp)), mode, w, live)
            == Failed(live, RolledBack)
  {
    OneRowSound(inv, i, key, row);
    OneRowStreams(inv, i, key, row);
    var rows, db := OneRowStream(inv, i, row), OneRowDb(inv, i, key, row);
    OneDeadRow(inv, i, key, row);
    RestoreOfExport(inv, rows, db, stamp, mode, w, live);
    DeadRowsRollBack(inv, mode, rows, db, w, live);
  }

  lemma OneDeadRow(inv: Inventory, i: nat, key: Cell, row: Row)
    requires WellFormed(inv) && i < |inv.specs| && inv.specs[i].extra == []
    requires !Executable(inv.specs[i])
          || exists c :: c in row && row[c] == JSON_NULL && c !in inv.specs[i].nullable
    ensures var db := OneRowDb(inv, i, key, row);
            NoExtraRows(inv, db) && !(NoDeadTables(inv, db) && NoLostValues(inv, db))
  {
    var s, db := inv.specs[i], OneRowDb(inv, i, key, row);
    assert s.name in db && key in db[s.name] && db[s.name][key] == row;
    if Executable(s) {
      var c :| c in row && row[c] == JSON_NULL && c !in s.nullable;
      assert !KeepsValues(s, db[s.name]);
    }
  }

  const ONE_KEY := Of(Atom(Str("1")))

  /** A row with every NOT NULL column set. */
  function Filled(s: Spec): Row {
    map c | c in Stored(s) ::
      if c in s.nullable then NULL
      else if c in s.json || c in s.lists then Of(Arr([]))
      else ONE_KEY
  }

  lemma FilledFits(s: Spec)
    requires SpecOk(s) && s.conflict == s.pk
    ensures RowFits(s, ONE_KEY, Filled(s)) && forall c :: c in Filled(s) ==> Filled(s)[c] != JSON_NULL
  {
    assert s.pk in Stored(s);
  }

  /** These three tables refer to nothing but nullable users. */
  lemma ProgramRowsStandAlone(i: nat)
    requires i == 2 || i == 22 || i == 23
    ensures Alone(PROGRAM, i, ONE_KEY, Filled(PROGRAM.specs[i]))
    ensures forall c :: c in Filled(PROGRAM.specs[i]) ==> Filled(PROGRAM.specs[i])[c] != JSON_NULL
  {
    ProgramWellFormed();
    Positions();
    FilledFits(PROGRAM.specs[i]);
    FilledRefers(i);
  }

  lemma FilledRefers(i: nat)
    requires i == 2 || i == 22 || i == 23
    ensures var row := Filled(PROGRAM.specs[i]);
            forall fk :: fk in PROGRAM.foreignKeys && fk.child == PROGRAM.specs[i].name && fk.column in row
              ==> row[fk.column] == NULL
  {
    Positions();
    KeysLoose();
    forall fk | fk in PROGRAM.foreignKeys && fk.child == PROGRAM.specs[i].name
      ensures i == 23 && fk.column == "user_id"
    {
      assert Loose(fk);
    }
  }

  /**
    One audited AI call is enough: the exported document of a database holding a single
    ai_audit_logs row and nothing else is refused as invalid, in either mode.
   */
  lemma OneAuditedCallIsRefused(stamp: string, mode: Mode, w: World, live: Db)
    requires TableNames(PROGRAM) <= live.Keys && !mode.Other?
    ensures AllKeyed(PROGRAM) && |PROGRAM.specs| == 24
    ensures var row := Filled(PROGRAM.specs[23]);
            && Sound(PROGRAM, OneRowDb(PROGRAM, 23, ONE_KEY, row))
            && Streams(PROGRAM, OneRowStream(PROGRAM, 23, row), OneRowDb(PROGRAM, 23, ONE_KEY, row))
            && RestoreSpec(PROGRAM, Print(Envelope(PROGRAM, OneRowStream(PROGRAM, 23, row), stamp)),
                           mode, w, live) == Failed(live, InvalidBackup)
  {
    ProgramRowsStandAlone(23);
    Positions();
    ExtraColumn(23);
    OneExtraRowIsRefused(PROGRAM, 23, ONE_KEY, Filled(PROGRAM.specs[23]), stamp, mode, w, live);
  }

  /**
    So is one research job: the exported document of a database holding a single ai_research_jobs
    row and nothing else is valid, and neither replacing with it nor merging it ever commits.
   */
  lemma OneResearchJobRollsBack(stamp: string, mode: Mode, w: World, live: Db)
    requires w.available && TableNames(PROGRAM) <= live.Keys && !mode.Other?
    ensures AllKeyed(PROGRAM) && |PROGRAM.specs| == 24
    ensures var row := Filled(PROGRAM.specs[22]);
            && Sound(PROGRAM, OneRowDb(PROGRAM, 22, ONE_KEY, row))
            && Streams(PROGRAM, OneRowStream(PROGRAM, 22, row), OneRowDb(PROGRAM, 22, ONE_KEY, row))
            && RestoreSpec(PROGRAM, Print(Envelope(PROGRAM, OneRowStream(PROGRAM, 22, row), stamp)),
                           mode, w, live) == Failed(live, RolledBack)
  {
    ProgramRowsStandAlone(22);
    Positions();
    ExtraColumn(22);
    UndefinedColumn(22);
    OneDeadRowRollsBack(PROGRAM, 22, ONE_KEY, Filled(PROGRAM.specs[22]), stamp, mode, w, live);
  }

  /** A workflow as it is stored when it was posted without steps. */
  function StepsOmitted(): Row { Filled(WORKFLOWS)["steps_json" := JSON_NULL] }

  lemma NulledFits(s: Spec, key: Cell, row: Row, c: string)
    requires SpecOk(s) && RowFits(s, key, row) && c in row && c in s.json
    ensures RowFits(s, key, row[c := JSON_NULL])
  {
  }

  lemma StepsAreRequired()
    ensures "steps_json" in Stored(WORKFLOWS) && "steps_json" in WORKFLOWS.json
    ensures "steps_json" !in WORKFLOWS.nullable
  {
    assert Stored(WORKFLOWS)[6] == "steps_json";
  }

  lemma StepsOmittedStandsAlone()
    ensures |PROGRAM.specs| == 24 && PROGRAM.specs[2] == WORKFLOWS
    ensures Alone(PROGRAM, 2, ONE_KEY, StepsOmitted())
    ensures exists c :: c in StepsOmitted() && StepsOmitted()[c] == JSON_NULL && c !in WORKFLOWS.nullable
  {
    ProgramRowsStandAlone(2);
    Positions();
    StepsAreRequired();
    KeysLoose();
    assert "steps_json" in Filled(WORKFLOWS);
    NulledFits(WORKFLOWS, ONE_KEY, Filled(WORKFLOWS), "steps_json");
    assert "steps_json" in StepsOmitted() && StepsOmitted()["steps_json"] == JSON_NULL;
  }

  /**
    And one workflow posted without steps: its steps_json is the JSON null, with which neither a
    replace nor a merge of the exported document ever commits.
   */
  lemma OneEmptyWorkflowRollsBack(stamp: string, mode: Mode, w: World, live: Db)
    requires w.available && TableNames(PROGRAM) <= live.Keys && !mode.Other?
    ensures AllKeyed(PROGRAM) && |PROGRAM.specs| == 24
    ensures var row := StepsOmitted();
            && Sound(PROGRAM, OneRowDb(PROGRAM, 2, ONE_KEY, row))
            && Streams(PROGRAM, OneRowStream(PROGRAM, 2, row), OneRowDb(PROGRAM, 2, ONE_KEY, row))
            && RestoreSpec(PROGRAM, Print(Envelope(PROGRAM, OneRowStream(PROGRAM, 2, row), stamp)),
                           mode, w, live) == Failed(live, RolledBack)
  {
    StepsOmittedStandsAlone();
    ExtraColumn(2);
    OneDeadRowRollsBack(PROGRAM, 2, ONE_KEY, StepsOmitted(), stamp, mode, w, live);
  }

  lemma OneRowPlain(inv: Inventory, i: nat, key: Cell, row: Row)
    requires i < |inv.specs| && forall c :: c in row ==> row[c] != JSON_NULL
    ensures Plain(OneRowDb(inv, i, key, row)) && NoJsonNulls(OneRowDb(inv, i, key, row))
  {
    var db := OneRowDb(inv, i, key, row);
    forall n | n in db ensures PlainTable(db[n]) {
    }
    forall n: nat | n < |REQUIRED_JSON| ensures NoJsonNull(db, REQUIRED_JSON[n]) {
    }
  }

  lemma OtherTablesEmpty()
    ensures |PROGRAM.specs| == 24
    ensures forall key, row :: var db := OneRowDb(PROGRAM, 2, key, row);
              AUDITED in db && RESEARCH in db && db[AUDITED] == map[] && db[RESEARCH] == map[]
  {
    Positions();
    assert PROGRAM.specs[22].name in TableNames(PROGRAM) && PROGRAM.specs[23].name in TableNames(PROGRAM);
  }

  /** The same workflow with an empty list of steps comes back. */
  lemma OneWorkflowRestores(stamp: string, w: World, live: Db)
    requires w.available && w.begins && w.commits && TableNames(PROGRAM) <= live.Keys
    ensures AllKeyed(PROGRAM) && |PROGRAM.specs| == 24
    ensures var row := Filled(WORKFLOWS);
            var o := RestoreSpec(
              PROGRAM, Print(Envelope(PROGRAM, OneRowStream(PROGRAM, 2, row), stamp)), Replace, w, live);
            o.report.committed && o.db == OneRowDb(PROGRAM, 2, ONE_KEY, row)
  {
    var row := Filled(WORKFLOWS);
    ProgramRowsStandAlone(2);
    Positions();
    var db := OneRowDb(PROGRAM, 2, ONE_KEY, row);
    OneRowSound(PROGRAM, 2, ONE_KEY, row);
    OneRowStreams(PROGRAM, 2, ONE_KEY, row);
    OneRowPlain(PROGRAM, 2, ONE_KEY, row);
    OtherTablesEmpty();
    ExportRestores(OneRowStream(PROGRAM, 2, row), db, stamp, w, live);
  }

  /** In the program's registry order a closed envelope is never refused by a foreign key. */
  lemma ProgramOrderIsSafe(mode: Mode, tables: map<string, seq<Value>>, db: Db)
    ensures WellFormed(PROGRAM)
    ensures var start := if mode == Replace then Empty(PROGRAM) else db;
            Sound(PROGRAM, db) && Closed(PROGRAM, tables, start) ==>
              && Import(PROGRAM, mode, tables, db) != Err(ForeignKeyViolation)
              && forall d :: d in States(PROGRAM, tables, start, 0) ==> Sound(PROGRAM, d)
  {
    ProgramWellFormed();
    var start := if mode == Replace then Empty(PROGRAM) else db;
    if Sound(PROGRAM, db) && Closed(PROGRAM, tables, start) {
      OrderIsSafe(PROGRAM, mode, tables, db);
    }
  }
}
