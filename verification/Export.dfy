/**
  The export printer and the round trip: what Restore makes of the document Export prints.
 */
module Export {
  import opened Prelude
  import opened Json
  import opened Store
  import opened StoreLaws
  import opened Validate
  import opened Restore

  function TableFields(specs: seq<Spec>, rows: map<string, seq<Value>>): (fs: seq<Field>)
    requires forall i :: 0 <= i < |specs| ==> specs[i].name in rows
    ensures |fs| == |specs|
    ensures forall i :: 0 <= i < |fs| ==> fs[i] == Field(specs[i].name, Arr(rows[specs[i].name]))
  {
    if specs == [] then []
    else [Field(specs[0].name, Arr(rows[specs[0].name]))] + TableFields(specs[1..], rows)
  }

  /** The document as a tree: `rows` is what the selectors stream per table. */
  function Envelope(inv: Inventory, rows: map<string, seq<Value>>, stamp: string): Value
    requires forall i :: 0 <= i < |inv.specs| ==> inv.specs[i].name in rows
  {
    Obj([Field("format", Atom(Str(FORMAT))),
         Field("version", Atom(Int(VERSION))),
         Field("exported_at", Atom(Str(stamp))),
         Field("tables", Obj(TableFields(inv.specs, rows)))])
  }

  function MemberText(f: Field): seq<Lex> {
    [Lit(Str(f.name)), Colon] + Print(f.value)
  }

  function Separated(f: Field, first: bool): seq<Lex> {
    (if first then [] else [Comma]) + MemberText(f)
  }

  /** The fixed text in front of the tables. */
  function HeaderText(stamp: string): seq<Lex> {
    [LBrace] + Separated(Field("format", Atom(Str(FORMAT))), true)
    + Separated(Field("version", Atom(Int(VERSION))), false)
    + Separated(Field("exported_at", Atom(Str(stamp))), false)
    + [Comma, Lit(Str("tables")), Colon, LBrace]
  }

  lemma PrintMembersStep(f: Field, rest: seq<Field>, first: bool)
    ensures PrintMembers([f] + rest, first) == Separated(f, first) + PrintMembers(rest, false)
  {
    assert ([f] + rest)[1..] == rest;
  }

  lemma PrintFour(f: Field, v: Field, e: Field, t: Field)
    ensures Print(Obj([f, v, e, t]))
            == [LBrace] + (Separated(f, true) + (Separated(v, false) + (Separated(e, false)
               + (Separated(t, false) + [RBrace]))))
  {
    PrintMembersStep(t, [], false);
    PrintMembersStep(e, [t], false);
    PrintMembersStep(v, [e, t], false);
    PrintMembersStep(f, [v, e, t], true);
    assert [t] + [] == [t] && [e] + [t] == [e, t] && [v] + [e, t] == [v, e, t];
    assert [f] + [v, e, t] == [f, v, e, t];
  }

  lemma PrintEnvelope(inv: Inventory, rows: map<string, seq<Value>>, stamp: string)
    requires forall i :: 0 <= i < |inv.specs| ==> inv.specs[i].name in rows
    ensures Print(Envelope(inv, rows, stamp))
            == HeaderText(stamp) + (PrintMembers(TableFields(inv.specs, rows), true) + [RBrace])
  {
    var fs := Envelope(inv, rows, stamp).fields;
    var f, v, e := Separated(fs[0], true), Separated(fs[1], false), Separated(fs[2], false);
    var open := [Comma, Lit(Str("tables")), Colon, LBrace];
    var body := PrintMembers(TableFields(inv.specs, rows), true);
    PrintFour(fs[0], fs[1], fs[2], fs[3]);
    assert Separated(fs[3], false) == open + body;
    AppendAssoc(open, body, [RBrace]);
    Regroup([LBrace], f, v, e, open, body + [RBrace]);
  }

  lemma Regroup<T>(l: seq<T>, f: seq<T>, v: seq<T>, e: seq<T>, o: seq<T>, rest: seq<T>)
    ensures l + (f + (v + (e + (o + rest)))) == l + f + v + e + o + rest
  {
    AppendAssoc(l, f, v + (e + (o + rest)));
    AppendAssoc(l + f, v, e + (o + rest));
    AppendAssoc(l + f + v, e, o + rest);
    AppendAssoc(l + f + v + e, o, rest);
  }

  lemma Peel(buffer: seq<Lex>, fs: seq<Field>, i: nat)
    requires i < |fs|
    ensures buffer + PrintMembers(fs[i..], i == 0)
            == (buffer + Separated(fs[i], i == 0)) + PrintMembers(fs[i + 1..], false)
  {
    assert fs[i..] == [fs[i]] + fs[i + 1..];
    PrintMembersStep(fs[i], fs[i + 1..], i == 0);
    AppendAssoc(buffer, Separated(fs[i], i == 0), PrintMembers(fs[i + 1..], false));
  }

  class Exporter {
    var buffer: seq<Lex>
    var sent: seq<Lex>
    var events: seq<string>

    constructor ()
      ensures buffer == [] && sent == [] && events == []
    {
      buffer, sent, events := [], [], [];
    }

    /** The rows of one table, separated by commas, and the closing bracket. */
    method WriteRows(rows: seq<Value>)
      modifies this`buffer
      ensures buffer == old(buffer) + PrintElems(rows, true)
    {
      var first := true;
      var j := 0;
      while j < |rows|
        invariant 0 <= j <= |rows| && first == (j == 0)
        invariant buffer + PrintElems(rows[j..], first) == old(buffer) + PrintElems(rows, true)
      {
        assert rows[j..][1..] == rows[j + 1..];
        if !first { buffer := buffer + [Comma]; }
        first := false;
        buffer := buffer + Print(rows[j]);
        j := j + 1;
      }
      buffer := buffer + [RBracket];
    }

    /** One table boundary: separator, name, row array. */
    method WriteTable(name: string, rows: seq<Value>, first: bool)
      modifies this`buffer
      ensures buffer == old(buffer) + Separated(Field(name, Arr(rows)), first)
    {
      if !first { buffer := buffer + [Comma]; }
      buffer := buffer + [Lit(Str(name))];
      buffer := buffer + [Colon, LBracket];
      WriteRows(rows);
    }

    method WriteTables(inv: Inventory, rows: map<string, seq<Value>>)
      requires forall i :: 0 <= i < |inv.specs| ==> inv.specs[i].name in rows
      modifies this`buffer
      ensures buffer == old(buffer) + PrintMembers(TableFields(inv.specs, rows), true)
    {
      var i := 0;
      ghost var fs := TableFields(inv.specs, rows);
      while i < |inv.specs|
        invariant 0 <= i <= |inv.specs|
        invariant buffer + PrintMembers(fs[i..], i == 0) == old(buffer) + PrintMembers(fs, true)
      {
        Peel(buffer, fs, i);
        WriteTable(inv.specs[i].name, rows[inv.specs[i].name], i == 0);
        i := i + 1;
      }
      assert fs[i..] == [];
      buffer := buffer + [RBrace];
    }

    /** Nothing is flushed unless the completion audit was written. */
    method Export(inv: Inventory, rows: map<string, seq<Value>>, stamp: string, audits: bool)
      returns (ok: bool)
      requires forall i :: 0 <= i < |inv.specs| ==> inv.specs[i].name in rows
      modifies this
      ensures ok == audits
      ensures sent == if audits then old(sent) + Print(Envelope(inv, rows, stamp)) else old(sent)
      ensures events == old(events) + ["BACKUP_EXPORT_STARTED"]
                        + if audits then ["BACKUP_EXPORT_COMPLETED"] else []
    {
      events := events + ["BACKUP_EXPORT_STARTED"];
      buffer := HeaderText(stamp);
      WriteTables(inv, rows);
      buffer := buffer + [RBrace];
      PrintEnvelope(inv, rows, stamp);
      AppendAssoc(HeaderText(stamp), PrintMembers(TableFields(inv.specs, rows), true), [RBrace]);
      if !audits { return false; }
      events := events + ["BACKUP_EXPORT_COMPLETED"];
      sent := sent + buffer;
      return true;
    }
  }

  /**
    What a reader finds in the file: four members in this order, the program's format and version, the
    given time stamp, and one array per table in registry order, holding the streamed rows.
   */
  lemma ExportReadsBack(inv: Inventory, rows: map<string, seq<Value>>, stamp: string)
    requires forall i :: 0 <= i < |inv.specs| ==> inv.specs[i].name in rows
    ensures var file := Print(Envelope(inv, rows, stamp));
            var r := ParseValue(file, 0);
            && r.Done? && r.next == |file| && r.value.Obj?
            && var fs := r.value.fields;
               && |fs| == 4 && fs[0] == Field("format", Atom(Str("openlocalcrm-backup")))
               && fs[1] == Field("version", Atom(Int(1)))
               && fs[2] == Field("exported_at", Atom(Str(stamp)))
               && fs[3].name == "tables" && fs[3].value.Obj?
               && |fs[3].value.fields| == |inv.specs|
               && forall i :: 0 <= i < |inv.specs| ==>
                    fs[3].value.fields[i] == Field(inv.specs[i].name, Arr(rows[inv.specs[i].name]))
  {
    var v := Envelope(inv, rows, stamp);
    var file := Print(v);
    assert At(file, 0, file);
    ParsePrintedValue(v, file, 0);
  }

  // ---------- the round trip ----------

  /** `rows` is what the 24 selectors return on `db`, each in some order. */
  ghost predicate Streams(inv: Inventory, rows: map<string, seq<Value>>, db: Db) {
    && rows.Keys == TableNames(inv)
    && (forall i :: 0 <= i < |inv.specs| ==> inv.specs[i].name in rows)
    && ListsAll(inv, rows, db)
  }

  /** The header folds, one member at a time. */
  lemma HeaderStep(fs: seq<Field>)
    requires fs != []
    ensures var l, before := fs[|fs| - 1], fs[..|fs| - 1];
            && (l.name != "format" ==> FormatOf(fs) == FormatOf(before))
            && (l.name == "format" && l.value.Atom? && l.value.a.Str? ==> FormatOf(fs) == l.value.a.s)
            && (l.name != "version" ==> VersionOf(fs) == VersionOf(before))
            && (l.name == "version" && l.value.Atom? && l.value.a.Int? ==> VersionOf(fs) == l.value.a.n)
  {
  }

  lemma EnvelopeFields(inv: Inventory, rows: map<string, seq<Value>>, stamp: string)
    requires forall i :: 0 <= i < |inv.specs| ==> inv.specs[i].name in rows
    ensures var v := Envelope(inv, rows, stamp);
            && FormatOf(v.fields) == FORMAT && VersionOf(v.fields) == VERSION
            && LastField(v.fields, "tables") == Some(v.fields[3].value)
            && TablesObject(v).fields == TableFields(inv.specs, rows)
            && (HeaderOk(inv, v.fields) <==> TablesOk(inv, v.fields[3].value))
  {
    var fs := Envelope(inv, rows, stamp).fields;
    HeaderStep(fs);
    HeaderStep(fs[..3]);
    HeaderStep(fs[..3][..2]);
    HeaderStep(fs[..3][..2][..1]);
    assert fs[..3] == [fs[0], fs[1], fs[2]];
    assert fs[..3][..2] == [fs[0], fs[1]] && fs[..3][..2][..1] == [fs[0]];
    assert HeaderFieldOk(inv, fs[0]) && HeaderFieldOk(inv, fs[1]) && HeaderFieldOk(inv, fs[2]);
    assert HeaderFieldOk(inv, fs[3]) <==> TablesOk(inv, fs[3].value);
  }

  lemma EnvelopeTables(inv: Inventory, rows: map<string, seq<Value>>, stamp: string)
    requires DistinctTables(inv) && rows.Keys == TableNames(inv)
    requires forall i :: 0 <= i < |inv.specs| ==> inv.specs[i].name in rows
    ensures TablesOf(Envelope(inv, rows, stamp)) == rows
  {
    EnvelopeFields(inv, rows, stamp);
    TableFieldsLookup(inv, rows);
    TablesOfMeans(Envelope(inv, rows, stamp), rows);
  }

  lemma TablesOfMeans(v: Value, rows: map<string, seq<Value>>)
    requires Names(TablesObject(v).fields) == rows.Keys
    requires forall n :: n in rows ==> LastField(TablesObject(v).fields, n) == Some(Arr(rows[n]))
    ensures TablesOf(v) == rows
  {
  }

  lemma TableFieldsHave(inv: Inventory, rows: map<string, seq<Value>>, n: string)
    requires DistinctTables(inv) && n in TableNames(inv)
    requires forall i :: 0 <= i < |inv.specs| ==> inv.specs[i].name in rows
    ensures n in rows
    ensures var fs := TableFields(inv.specs, rows);
            n in Names(fs) && LastField(fs, n) == Some(Arr(rows[n]))
  {
    var i :| 0 <= i < |inv.specs| && inv.specs[i].name == n;
    TableFieldAt(inv, rows, i);
  }

  lemma TableFieldsLookup(inv: Inventory, rows: map<string, seq<Value>>)
    requires DistinctTables(inv) && rows.Keys == TableNames(inv)
    requires forall i :: 0 <= i < |inv.specs| ==> inv.specs[i].name in rows
    ensures var fs := TableFields(inv.specs, rows);
            && Names(fs) == rows.Keys
            && forall n :: n in rows ==> LastField(fs, n) == Some(Arr(rows[n]))
  {
    var fs := TableFields(inv.specs, rows);
    forall n | n in rows ensures n in Names(fs) && LastField(fs, n) == Some(Arr(rows[n])) {
      TableFieldsHave(inv, rows, n);
    }
    TableFieldNames(inv, rows);
  }

  lemma TableFieldNames(inv: Inventory, rows: map<string, seq<Value>>)
    requires forall i :: 0 <= i < |inv.specs| ==> inv.specs[i].name in rows
    ensures forall n :: n in Names(TableFields(inv.specs, rows)) ==> n in rows
  {
    var fs := TableFields(inv.specs, rows);
    forall n | n in Names(fs) ensures n in rows {
      var i :| 0 <= i < |fs| && fs[i].name == n;
      assert inv.specs[i].name == n;
    }
  }

  lemma TableFieldAt(inv: Inventory, rows: map<string, seq<Value>>, i: nat)
    requires DistinctTables(inv) && i < |inv.specs|
    requires forall i :: 0 <= i < |inv.specs| ==> inv.specs[i].name in rows
    ensures var fs, n := TableFields(inv.specs, rows), inv.specs[i].name;
            n in Names(fs) && LastField(fs, n) == Some(Arr(rows[n]))
  {
    var fs := TableFields(inv.specs, rows);
    assert fs[i] == Field(inv.specs[i].name, Arr(rows[inv.specs[i].name]));
    forall p, q | 0 <= p < q < |fs| ensures fs[p].name != fs[q].name {
      assert fs[p].name == inv.specs[p].name && fs[q].name == inv.specs[q].name;
    }
    LastFieldAt(fs, i);
  }

  lemma IndexIsPosition(inv: Inventory, i: nat)
    requires DistinctTables(inv) && i < |inv.specs|
    ensures IndexOfTable(inv.specs, inv.specs[i].name) == Some(i)
  {
  }

  /** A stored row passes the column check exactly when the table stores nothing but its allow-list. */
  lemma RowJsonAccepted(s: Spec, row: Row)
    requires SpecOk(s)
    ensures RowOk(s, RowJson(s, row)) <==> s.extra == []
  {
    var fs := RowJson(s, row).fields;
    var k :| 0 <= k < |s.columns| && s.columns[k] == s.pk;
    assert Stored(s)[k] == s.pk && fs[k].name == s.pk;
    forall i, j | 0 <= i < j < |fs| ensures fs[i].name != fs[j].name {
      assert Stored(s)[i] != Stored(s)[j];
    }
    if s.extra == [] {
      assert Stored(s) == s.columns;
      forall i | 0 <= i < |fs| ensures Allows(s, fs[i].name) {
        assert fs[i].name == s.columns[i];
      }
    } else {
      var e := |s.columns|;
      assert Stored(s)[e] == s.extra[0] && fs[e].name == s.extra[0];
      forall j | 0 <= j < e ensures s.columns[j] != s.extra[0] {
        assert Stored(s)[j] == s.columns[j];
      }
      assert !Allows(s, fs[e].name);
    }
  }

  lemma TableAccepted(s: Spec, t: Table, keys: seq<Cell>)
    requires SpecOk(s) && Lists(keys, t)
    ensures TableOk(s, Arr(Listing(s, t, keys))) <==> s.extra == [] || t == map[]
  {
    var rows := Listing(s, t, keys);
    forall i | 0 <= i < |rows| ensures RowOk(s, rows[i]) <==> s.extra == [] {
      RowJsonAccepted(s, t[keys[i]]);
    }
    if keys == [] {
      assert forall k :: k in t ==> k in keys;
      assert t.Keys == {};
    } else {
      assert keys[0] in keys;
      assert rows[0] == RowJson(s, t[keys[0]]);
    }
  }

  lemma ExportAccepted(inv: Inventory, rows: map<string, seq<Value>>, db: Db, stamp: string)
    requires WellFormed(inv) && Streams(inv, rows, db)
    ensures EnvelopeOk(inv, Envelope(inv, rows, stamp)) <==> NoExtraRows(inv, db)
  {
    EnvelopeFields(inv, rows, stamp);
    var fs := TableFields(inv.specs, rows);
    forall i | 0 <= i < |inv.specs|
      ensures TableFieldOk(inv, fs[i]) <==> inv.specs[i].extra == [] || db[inv.specs[i].name] == map[]
    {
      var s := inv.specs[i];
      IndexIsPosition(inv, i);
      var keys :| ListsTable(s, rows[s.name], db[s.name], keys);
      TableAccepted(s, db[s.name], keys);
    }
  }

  lemma ParsesBack(v: Value)
    ensures ParseValue(Print(v), 0) == Done(v, |Print(v)|)
  {
    var file := Print(v);
    assert file[0..0 + |file|] == file;
    ParsePrintedValue(v, file, 0);
  }

  /** Importing what was streamed from a database without extra rows. */
  lemma ImportsItself(inv: Inventory, rows: map<string, seq<Value>>, db: Db, w: World, live: Db)
    requires WellFormed(inv) && Sound(inv, db) && Streams(inv, rows, db) && Restorable(inv, db)
    requires w.available && w.begins && w.commits && TableNames(inv) <= live.Keys
    ensures var o := ImportSpec(inv, Replace, rows, w, live);
            && o.db == Flattened(db) && o.report.committed
            && o.report.counts.Keys == TableNames(inv)
            && forall n :: n in o.report.counts ==> o.report.counts[n] == |rows[n]|
  {
    MissingNone(inv.specs, rows.Keys);
    RebuildsItself(inv, rows, db);
    assert Import(inv, Replace, rows, live) == Ok(Flattened(db));
    CountsOfStream(inv, rows);
  }

  lemma CountsOfStream(inv: Inventory, rows: map<string, seq<Value>>)
    requires rows.Keys == TableNames(inv)
    ensures Counts(inv, rows).Keys == TableNames(inv)
    ensures forall n :: n in Counts(inv, rows) ==> Counts(inv, rows)[n] == |rows[n]|
  {
  }

  /** What was streamed from a database with a row that cannot be imported is rolled back. */
  lemma DeadRowsRollBack(
    inv: Inventory, mode: Mode, rows: map<string, seq<Value>>, db: Db, w: World, live: Db)
    requires WellFormed(inv) && Sound(inv, db) && Streams(inv, rows, db)
    requires NoExtraRows(inv, db) && !(NoDeadTables(inv, db) && NoLostValues(inv, db))
    requires w.available && TableNames(inv) <= live.Keys
    ensures ImportSpec(inv, mode, rows, w, live) == Failed(live, RolledBack)
  {
    MissingNone(inv.specs, rows.Keys);
    DeadRowsStreamed(inv, rows, db);
    DeadRowsRefused(inv, rows, if mode == Replace then Empty(inv) else live, 0);
  }

  /** Restoring an exported document: pass one decides by the database it came from. */
  lemma RestoreOfExport(
    inv: Inventory, rows: map<string, seq<Value>>, db: Db, stamp: string, mode: Mode, w: World, live: Db)
    requires WellFormed(inv) && Streams(inv, rows, db) && TableNames(inv) <= live.Keys && !mode.Other?
    ensures RestoreSpec(inv, Print(Envelope(inv, rows, stamp)), mode, w, live)
            == if NoExtraRows(inv, db) then ImportSpec(inv, mode, rows, w, live)
               else Failed(live, InvalidBackup)
  {
    ParsesBack(Envelope(inv, rows, stamp));
    ExportAccepted(inv, rows, db, stamp);
    EnvelopeTables(inv, rows, stamp);
  }

  /**
    The round trip law and its exact condition. For every sound database and every order its rows
    are streamed in, replace-restoring the exported document commits if and only if no row stands
    in a table that stores a column outside its allow-list or whose upsert names a column the table
    does not have, and no row holds the JSON null in a NOT NULL column. When it commits, the
    database at the commit point is the exported one, row for row, with one count per row streamed,
    except that a JSON null in a nullable column has become NULL. A row of the first kind makes pass
    one refuse the document; one of the others passes it and fails the transaction.
   */
  lemma RoundTrip(
    inv: Inventory, rows: map<string, seq<Value>>, db: Db, stamp: string, w: World, live: Db)
    requires WellFormed(inv) && Sound(inv, db) && Streams(inv, rows, db)
    requires w.available && w.begins && w.commits && TableNames(inv) <= live.Keys
    ensures var o := RestoreSpec(inv, Print(Envelope(inv, rows, stamp)), Replace, w, live);
            && (o.report.committed <==>
                  NoExtraRows(inv, db) && NoDeadTables(inv, db) && NoLostValues(inv, db))
            && (o.report.committed ==>
                  && o.db == Flattened(db) && (o.db == db <==> Plain(db))
                  && o.report.counts.Keys == TableNames(inv)
                  && forall n :: n in o.report.counts ==> o.report.counts[n] == |rows[n]|)
            && (!NoExtraRows(inv, db) ==> o == Failed(live, InvalidBackup))
            && (NoExtraRows(inv, db) && !(NoDeadTables(inv, db) && NoLostValues(inv, db)) ==>
                  o == Failed(live, RolledBack))
  {
    RestoreOfExport(inv, rows, db, stamp, Replace, w, live);
    if NoExtraRows(inv, db) {
      if NoDeadTables(inv, db) && NoLostValues(inv, db) {
        ImportsItself(inv, rows, db, w, live);
        FlattenedIff(db);
      } else {
        DeadRowsRollBack(inv, Replace, rows, db, w, live);
      }
    }
  }

  /** A merge of such a document into any database is rolled back just the same. */
  lemma DeadRowsNeverMerge(
    inv: Inventory, rows: map<string, seq<Value>>, db: Db, stamp: string, w: World, live: Db)
    requires WellFormed(inv) && Sound(inv, db) && Streams(inv, rows, db)
    requires NoExtraRows(inv, db) && !(NoDeadTables(inv, db) && NoLostValues(inv, db))
    requires w.available && TableNames(inv) <= live.Keys
    ensures RestoreSpec(inv, Print(Envelope(inv, rows, stamp)), Merge, w, live)
            == Failed(live, RolledBack)
  {
    RestoreOfExport(inv, rows, db, stamp, Merge, w, live);
    DeadRowsRollBack(inv, Merge, rows, db, w, live);
  }
}
