/**
  What an upsert and a committed restore leave in the tables, said of the members of the envelope's
  objects and of nothing else: which member a column's value comes from, which columns a conflict
  overwrites, and which rows stay as they were.
 */
module Meaning {
  import opened Prelude
  import opened Json
  import opened Store
  import opened Validate
  import opened Restore
  import Laws = StoreLaws

  // ---------- objects ----------

  /** The last member called `c` has the value `v`. */
  ghost predicate LastSays(fs: seq<Field>, c: string, v: Value) {
    exists i :: 0 <= i < |fs| && fs[i] == Field(c, v) && forall j :: i < j < |fs| ==> fs[j].name != c
  }

  ghost predicate Unsaid(fs: seq<Field>, c: string) {
    forall i :: 0 <= i < |fs| ==> fs[i].name != c
  }

  lemma {:induction false} LastSaysIff(fs: seq<Field>, c: string)
    ensures forall v :: LastSays(fs, c, v) <==> LastField(fs, c) == Some(v)
    ensures Unsaid(fs, c) <==> LastField(fs, c) == None
    ensures c in Names(fs) <==> LastField(fs, c).Some?
  {
    if fs != [] {
      var n := |fs| - 1;
      LastSaysIff(fs[..n], c);
      forall v ensures LastSays(fs, c, v) <==> LastField(fs, c) == Some(v) {
        if fs[n].name == c {
          assert fs[n] == Field(c, fs[n].value);
          assert LastSays(fs, c, v) ==> v == fs[n].value;
        } else {
          LastSaysBefore(fs, n, c, v);
        }
      }
      assert fs[n].name != c ==> (Unsaid(fs, c) <==> Unsaid(fs[..n], c)) by {
        assert forall i :: 0 <= i < n ==> fs[..n][i] == fs[i];
      }
    }
  }

  lemma LastSaysBefore(fs: seq<Field>, n: nat, c: string, v: Value)
    requires n == |fs| - 1 && fs[n].name != c
    ensures LastSays(fs, c, v) <==> LastSays(fs[..n], c, v)
  {
    var short := fs[..n];
    if i :| 0 <= i < |fs| && fs[i] == Field(c, v) && forall j :: i < j < |fs| ==> fs[j].name != c {
      assert i < n && short[i] == Field(c, v);
    }
    if i :| 0 <= i < n && short[i] == Field(c, v) && forall j :: i < j < n ==> short[j].name != c {
      assert fs[i] == Field(c, v);
      forall j | i < j < |fs| ensures fs[j].name != c {
        assert j < n ==> short[j] == fs[j];
      }
    }
  }

  /** What the object says column `c` shall hold; the JSON null and no member at all say the same. */
  ghost predicate Says(s: Spec, fs: seq<Field>, c: string, cell: Cell) {
    if LastSays(fs, c, Atom(Null)) || Unsaid(fs, c) then
      cell == if c in s.lists then Of(Arr([])) else SqlNull
    else cell.Of? && LastSays(fs, c, cell.value)
  }

  lemma SaysReceived(s: Spec, fs: seq<Field>, c: string)
    requires c in s.columns
    ensures forall cell :: Says(s, fs, c, cell) <==> cell == Incoming(s, fs)[c]
  {
    LastSaysIff(fs, c);
  }

  // ---------- one upsert ----------

  ghost predicate IsKey(s: Spec, v: Value, k: Cell) { v.Obj? && Says(s, v.fields, s.conflict, k) }

  /**
    The row after objects `first` to `last` for its key: a column of the DO UPDATE holds what the last
    one says, and any other what it held before or, in a new row, what the first one says.
   */
  ghost predicate Written(s: Spec, before: Option<Row>, first: seq<Field>, last: seq<Field>, row: Row) {
    && (forall c :: c in row <==> if before.Some? then c in before.value else c in s.columns || c in s.extra)
    && forall c :: c in row ==>
         if c in s.columns && c !in s.kept then Says(s, last, c, row[c])
         else if before.Some? then row[c] == before.value[c]
         else if c in s.columns then Says(s, first, c, row[c])
         else row[c] == SqlNull
  }

  function Before(t: Table, k: Cell): Option<Row> { if k in t then Some(t[k]) else None }

  lemma LandedIsWritten(s: Spec, t: Table, fs: seq<Field>, row: Row)
    requires Keyed(s)
    ensures var incoming := Incoming(s, fs);
            Written(s, Before(t, incoming[s.conflict]), fs, fs, row) <==> row == Landed(s, t, incoming)
  {
    forall c | c in s.columns ensures forall cell :: Says(s, fs, c, cell) <==> cell == Incoming(s, fs)[c] {
      SaysReceived(s, fs, c);
    }
    var landed := Landed(s, t, Incoming(s, fs));
    assert forall c :: c in Stored(s) <==> c in s.columns || c in s.extra;
    if Written(s, Before(t, Incoming(s, fs)[s.conflict]), fs, fs, row) {
      assert forall c :: c in row <==> c in landed;
      forall c | c in row ensures row[c] == landed[c] {
      }
      assert row == landed;
    }
  }

  /** Some row but the one under `k` holds, not NULL, the same value of a UNIQUE column. */
  ghost predicate Taken(s: Spec, t: Table, k: Cell, row: Row) {
    exists k', c :: && k' in t && k' != k && c in s.unique && c in row && c in t[k']
                    && row[c] != SqlNull && row[c] == t[k'][c]
  }

  /** Some foreign key of the table holds a value that is no key of its parent table. */
  ghost predicate Dangles(inv: Inventory, s: Spec, db: Db, row: Row) {
    exists fk :: && fk in inv.foreignKeys && fk.child == s.name
                 && fk.column in row && row[fk.column] != SqlNull
                 && !(fk.parent in db && row[fk.column] in db[fk.parent])
  }

  /** A NOT NULL column of the statement about which the object says NULL. */
  ghost predicate LeavesNull(s: Spec, fs: seq<Field>) {
    exists c :: c in s.columns && c !in s.nullable && Says(s, fs, c, SqlNull)
  }

  lemma CompleteIff(s: Spec, fs: seq<Field>)
    ensures Complete(s, Incoming(s, fs)) <==> !LeavesNull(s, fs)
  {
    forall c | c in s.columns ensures Says(s, fs, c, SqlNull) <==> Incoming(s, fs)[c] == SqlNull {
      SaysReceived(s, fs, c);
    }
  }

  /**
    What an accepted upsert does, on the members of its object: one row of one table is written, under
    the key the object names, and it is the row that inserting or updating from this object makes.
   */
  lemma UpsertMeans(inv: Inventory, s: Spec, db: Db, v: Value, d: Db)
    requires Keyed(s) && s.name in db && Upsert(inv, s, db, v) == Ok(d)
    ensures v.Obj? && d.Keys == db.Keys && forall n :: n in db && n != s.name ==> d[n] == db[n]
    ensures var t, t' := db[s.name], d[s.name];
            exists k :: && IsKey(s, v, k) && t'.Keys == t.Keys + {k}
                        && (forall k' :: k' in t && k' != k ==> t'[k'] == t[k'])
                        && Written(s, Before(t, k), v.fields, v.fields, t'[k])
  {
    var k := Incoming(s, v.fields)[s.conflict];
    SaysReceived(s, v.fields, s.conflict);
    LandedIsWritten(s, db[s.name], v.fields, d[s.name][k]);
    assert IsKey(s, v, k);
  }

  /**
    When an upsert is accepted: the statement names only columns that exist, the row is an object that
    leaves no NOT NULL column NULL, and the row it would write takes no unique value and dangles nowhere.
   */
  lemma UpsertIff(inv: Inventory, s: Spec, db: Db, v: Value)
    requires Keyed(s) && s.name in db
    ensures Upsert(inv, s, db, v).Ok? <==>
              && s.unknown == {} && v.Obj? && !LeavesNull(s, v.fields)
              && exists k, row :: && IsKey(s, v, k)
                                  && Written(s, Before(db[s.name], k), v.fields, v.fields, row)
                                  && !Taken(s, db[s.name], k, row) && !Dangles(inv, s, db, row)
  {
    if v.Obj? {
      var t, incoming := db[s.name], Incoming(s, v.fields);
      var key := incoming[s.conflict];
      var landed := Landed(s, t, incoming);
      CompleteIff(s, v.fields);
      SaysReceived(s, v.fields, s.conflict);
      assert forall k :: IsKey(s, v, k) <==> k == key;
      forall row
        ensures Written(s, Before(t, key), v.fields, v.fields, row) <==> row == landed
      {
        LandedIsWritten(s, t, v.fields, row);
      }
      TakenIff(s, t, key, landed);
      DanglesIff(inv, s, db, landed);
      assert Written(s, Before(t, key), v.fields, v.fields, landed);
    }
  }

  lemma TakenIff(s: Spec, t: Table, k: Cell, row: Row)
    ensures Taken(s, t, k, row) <==> exists k' :: k' in t && k' != k && Clash(s, row, t[k'])
  {
    if Taken(s, t, k, row) {
      var k', c :| && k' in t && k' != k && c in s.unique && c in row && c in t[k']
                   && row[c] != SqlNull && row[c] == t[k'][c];
      assert Clash(s, row, t[k']);
    }
  }

  lemma DanglesIff(inv: Inventory, s: Spec, db: Db, row: Row)
    ensures Dangles(inv, s, db, row)
            <==> exists fk :: fk in inv.foreignKeys && fk.child == s.name && !Refers(fk, row, db)
  {
    forall fk: ForeignKey
      ensures !Refers(fk, row, db) <==>
                && fk.column in row && row[fk.column] != SqlNull
                && !(fk.parent in db && row[fk.column] in db[fk.parent])
    {
    }
  }

  // ---------- many rows ----------

  ghost predicate Untouched(s: Spec, rows: seq<Value>, k: Cell) {
    forall i :: 0 <= i < |rows| ==> !IsKey(s, rows[i], k)
  }

  ghost predicate FirstFor(s: Spec, rows: seq<Value>, i: nat, k: Cell) {
    i < |rows| && IsKey(s, rows[i], k) && forall j :: 0 <= j < i ==> !IsKey(s, rows[j], k)
  }

  ghost predicate LastFor(s: Spec, rows: seq<Value>, i: nat, k: Cell) {
    i < |rows| && IsKey(s, rows[i], k) && forall j :: i < j < |rows| ==> !IsKey(s, rows[j], k)
  }

  /** What upserting the rows has made of what stood under one key. */
  ghost predicate MergedAt(s: Spec, rows: seq<Value>, t: Table, t': Table, k: Cell) {
    && (k in t' <==> k in t || !Untouched(s, rows, k))
    && (k in t && Untouched(s, rows, k) ==> t'[k] == t[k])
    && forall i: nat, j: nat :: FirstFor(s, rows, i, k) && LastFor(s, rows, j, k) ==>
         Written(s, Before(t, k), rows[i].fields, rows[j].fields, t'[k])
  }

  /** The table after a list of rows, key by key. */
  ghost predicate Merged(s: Spec, rows: seq<Value>, t: Table, t': Table) {
    forall k :: MergedAt(s, rows, t, t', k)
  }

  lemma OneKey(s: Spec, v: Value, k: Cell, k': Cell)
    requires IsKey(s, v, k) && IsKey(s, v, k')
    ensures k == k'
  {
    LastSaysIff(v.fields, s.conflict);
  }

  lemma FirstOfMore(s: Spec, rows: seq<Value>, i: nat, k: Cell)
    requires rows != []
    ensures !IsKey(s, rows[0], k) ==>
              (FirstFor(s, rows, i, k) <==> i > 0 && FirstFor(s, rows[1..], i - 1, k))
    ensures IsKey(s, rows[0], k) ==> (FirstFor(s, rows, i, k) <==> i == 0)
  {
    if i > 0 && FirstFor(s, rows[1..], i - 1, k) {
      assert rows[1..][i - 1] == rows[i];
      assert forall j :: 0 < j < i ==> rows[j] == rows[1..][j - 1];
    }
  }

  lemma LastOfMore(s: Spec, rows: seq<Value>, i: nat, k: Cell)
    requires rows != []
    ensures i > 0 ==> (LastFor(s, rows, i, k) <==> LastFor(s, rows[1..], i - 1, k))
    ensures LastFor(s, rows, 0, k) <==> IsKey(s, rows[0], k) && Untouched(s, rows[1..], k)
  {
    assert forall j :: 0 < j < |rows| ==> rows[j] == rows[1..][j - 1];
    assert forall j :: 0 <= j < |rows| - 1 ==> rows[1..][j] == rows[j + 1];
  }

  lemma {:induction false} SomeFirst(s: Spec, rows: seq<Value>, k: Cell) returns (i: nat)
    requires !Untouched(s, rows, k)
    ensures FirstFor(s, rows, i, k)
  {
    i := 0;
    while !IsKey(s, rows[i], k)
      invariant i < |rows| && forall j :: 0 <= j < i ==> !IsKey(s, rows[j], k)
      decreases |rows| - i
    {
      i := i + 1;
    }
  }

  lemma WrittenOver(
    s: Spec, before: Option<Row>, a: seq<Field>, row: Row, b: seq<Field>, c: seq<Field>, row': Row)
    requires Written(s, before, a, a, row) && Written(s, Some(row), b, c, row')
    ensures Written(s, before, a, c, row')
  {
  }

  lemma MergedStep(s: Spec, rows: seq<Value>, t: Table, t1: Table, t': Table, k0: Cell, k: Cell)
    requires rows != [] && IsKey(s, rows[0], k0) && t1.Keys == t.Keys + {k0}
    requires forall x :: x in t && x != k0 ==> t1[x] == t[x]
    requires Written(s, Before(t, k0), rows[0].fields, rows[0].fields, t1[k0])
    requires MergedAt(s, rows[1..], t1, t', k)
    ensures MergedAt(s, rows, t, t', k)
  {
    var rest := rows[1..];
    assert Untouched(s, rows, k) <==> !IsKey(s, rows[0], k) && Untouched(s, rest, k) by {
      assert forall i :: 0 < i < |rows| ==> rows[i] == rest[i - 1];
      assert forall i :: 0 <= i < |rest| ==> rest[i] == rows[i + 1];
    }
    if IsKey(s, rows[0], k) {
      OneKey(s, rows[0], k, k0);
    }
    forall i: nat, j: nat | FirstFor(s, rows, i, k) && LastFor(s, rows, j, k)
      ensures k in t' && Written(s, Before(t, k), rows[i].fields, rows[j].fields, t'[k])
    {
      FirstOfMore(s, rows, i, k);
      LastOfMore(s, rows, j, k);
      if k == k0 && j > 0 {
        var i' := SomeFirst(s, rest, k);
        assert Written(s, Some(t1[k]), rest[i'].fields, rest[j - 1].fields, t'[k]);
        WrittenOver(s, Before(t, k), rows[0].fields, t1[k], rest[i'].fields, rows[j].fields, t'[k]);
      } else if k != k0 {
        assert j > 0;
        assert FirstFor(s, rest, i - 1, k) && LastFor(s, rest, j - 1, k);
        assert Before(t1, k) == Before(t, k);
      }
    }
  }

  lemma NothingMerged(s: Spec, t: Table)
    ensures Merged(s, [], t, t)
  {
  }

  lemma {:induction false} RowsMean(inv: Inventory, s: Spec, db: Db, rows: seq<Value>, d: Db)
    requires Keyed(s) && s.name in db && UpsertRows(inv, s, db, rows) == Ok(d)
    ensures d.Keys == db.Keys && forall n :: n in db && n != s.name ==> d[n] == db[n]
    ensures Merged(s, rows, db[s.name], d[s.name])
    decreases |rows|
  {
    if rows == [] {
      NothingMerged(s, db[s.name]);
    } else {
      var d1 := Upsert(inv, s, db, rows[0]).value;
      UpsertMeans(inv, s, db, rows[0], d1);
      var t, t1 := db[s.name], d1[s.name];
      var k0 :| && IsKey(s, rows[0], k0) && t1.Keys == t.Keys + {k0}
                && (forall k' :: k' in t && k' != k0 ==> t1[k'] == t[k'])
                && Written(s, Before(t, k0), rows[0].fields, rows[0].fields, t1[k0]);
      RowsMean(inv, s, d1, rows[1..], d);
      forall k ensures MergedAt(s, rows, t, d[s.name], k) {
        assert MergedAt(s, rows[1..], t1, d[s.name], k);
        MergedStep(s, rows, t, t1, d[s.name], k0, k);
      }
    }
  }

  // ---------- many tables ----------

  ghost predicate MergedOrSame(
    inv: Inventory, tables: map<string, seq<Value>>, db: Db, p: nat, d: Db)
    requires p < |inv.specs|
  {
    var s := inv.specs[p];
    && s.name in db && s.name in d
    && if s.name in tables then Merged(s, tables[s.name], db[s.name], d[s.name])
       else d[s.name] == db[s.name]
  }

  /** An import leaves a table it brings rows for merged with them, and any other as it was. */
  lemma {:induction false} TablesMean(
    inv: Inventory, tables: map<string, seq<Value>>, db: Db, i: nat, p: nat, d: Db)
    requires AllKeyed(inv) && DistinctTables(inv) && i <= p < |inv.specs| && TableNames(inv) <= db.Keys
    requires ApplyTables(inv, tables, db, i) == Ok(d)
    ensures d.Keys == db.Keys && inv.specs[p].name in db
    ensures MergedOrSame(inv, tables, db, p, d)
    decreases p - i
  {
    var s := inv.specs[i];
    assert s.name in TableNames(inv) && inv.specs[p].name in TableNames(inv);
    if s.name !in tables {
      if i < p {
        TablesMean(inv, tables, db, i + 1, p, d);
      } else {
        Laws.ApplyLeavesEarlier(inv, tables, db, i + 1, i);
      }
    } else {
      var d1 := UpsertRows(inv, s, db, tables[s.name]).value;
      RowsMean(inv, s, db, tables[s.name], d1);
      if i < p {
        TablesMean(inv, tables, d1, i + 1, p, d);
      } else {
        Laws.ApplyLeavesEarlier(inv, tables, d1, i + 1, i);
      }
    }
  }

  /** The last member `c` whose value is a string holds `text`. */
  ghost predicate LastText(fs: seq<Field>, c: string, text: string) {
    exists i :: && 0 <= i < |fs| && fs[i] == Field(c, Atom(Str(text)))
                && forall j :: i < j < |fs| && fs[j].name == c ==> !(fs[j].value.Atom? && fs[j].value.a.Str?)
  }

  ghost predicate LastNumber(fs: seq<Field>, c: string, n: int) {
    exists i :: && 0 <= i < |fs| && fs[i] == Field(c, Atom(Int(n)))
                && forall j :: i < j < |fs| && fs[j].name == c ==> !(fs[j].value.Atom? && fs[j].value.a.Int?)
  }

  lemma {:induction false} FormatMeans(fs: seq<Field>, text: string)
    requires text != ""
    ensures FormatOf(fs) == text <==> LastText(fs, "format", text)
  {
    if fs != [] {
      var n := |fs| - 1;
      FormatMeans(fs[..n], text);
      if fs[n].name == "format" && fs[n].value.Atom? && fs[n].value.a.Str? {
        assert fs[n] == Field("format", Atom(Str(fs[n].value.a.s)));
      } else {
        if i :| && 0 <= i < |fs| && fs[i] == Field("format", Atom(Str(text)))
                && forall j :: i < j < |fs| && fs[j].name == "format"
                     ==> !(fs[j].value.Atom? && fs[j].value.a.Str?) {
          assert i < n && fs[..n][i] == fs[i];
        }
        if i :| && 0 <= i < n && fs[..n][i] == Field("format", Atom(Str(text)))
                && forall j :: i < j < n && fs[..n][j].name == "format"
                     ==> !(fs[..n][j].value.Atom? && fs[..n][j].value.a.Str?) {
          assert fs[i] == Field("format", Atom(Str(text)));
          assert forall j :: i < j < n ==> fs[..n][j] == fs[j];
        }
      }
    }
  }

  lemma {:induction false} VersionMeans(fs: seq<Field>, version: int)
    requires version != 0
    ensures VersionOf(fs) == version <==> LastNumber(fs, "version", version)
  {
    if fs != [] {
      var n := |fs| - 1;
      VersionMeans(fs[..n], version);
      if fs[n].name == "version" && fs[n].value.Atom? && fs[n].value.a.Int? {
        assert fs[n] == Field("version", Atom(Int(fs[n].value.a.n)));
      } else {
        if i :| && 0 <= i < |fs| && fs[i] == Field("version", Atom(Int(version)))
                && forall j :: i < j < |fs| && fs[j].name == "version"
                     ==> !(fs[j].value.Atom? && fs[j].value.a.Int?) {
          assert i < n && fs[..n][i] == fs[i];
        }
        if i :| && 0 <= i < n && fs[..n][i] == Field("version", Atom(Int(version)))
                && forall j :: i < j < n && fs[..n][j].name == "version"
                     ==> !(fs[..n][j].value.Atom? && fs[..n][j].value.a.Int?) {
          assert fs[i] == Field("version", Atom(Int(version)));
          assert forall j :: i < j < n ==> fs[..n][j] == fs[j];
        }
      }
    }
  }

  /** A member the header check lets pass: of the three it knows, each must have its own shape. */
  ghost predicate MemberPasses(inv: Inventory, f: Field) {
    && (f.name == "format" ==> f.value == Atom(Null) || (f.value.Atom? && f.value.a.Str?))
    && (f.name == "version" ==>
          f.value == Atom(Null) ||
          (f.value.Atom? && f.value.a.Int? &&
           -0x8000_0000_0000_0000 <= f.value.a.n < 0x8000_0000_0000_0000))
    && (f.name == "tables" ==> f.value.Obj? && forall t :: t in f.value.fields ==> TablePasses(inv, t))
  }

  /** A known table with an array of objects of allowed, different columns, the primary key among them. */
  ghost predicate TablePasses(inv: Inventory, t: Field) {
    exists s :: && s in inv.specs && s.name == t.name && t.value.Arr?
                && forall row :: row in t.value.elems ==> row.Obj? && RowPasses(s, row.fields)
  }

  ghost predicate RowPasses(s: Spec, fs: seq<Field>) {
    && (forall f :: f in fs ==> f.name in s.columns)
    && (forall i, j :: 0 <= i < j < |fs| ==> fs[i].name != fs[j].name)
    && exists f :: f in fs && f.name == s.pk
  }

  lemma RowPassesIff(s: Spec, row: Value)
    ensures RowOk(s, row) <==> row.Obj? && RowPasses(s, row.fields)
  {
    if row.Obj? {
      var fs := row.fields;
      assert (forall i :: 0 <= i < |fs| ==> Allows(s, fs[i].name)) <==> forall f :: f in fs ==> f.name in s.columns;
      if s.pk in Names(fs) {
        var i :| 0 <= i < |fs| && fs[i].name == s.pk;
        assert fs[i] in fs;
      }
    }
  }

  lemma TablePassesIff(inv: Inventory, t: Field)
    requires DistinctTables(inv)
    ensures TableFieldOk(inv, t) <==> TablePasses(inv, t)
  {
    var i := IndexOfTable(inv.specs, t.name);
    forall s, row ensures RowOk(s, row) <==> row.Obj? && RowPasses(s, row.fields) {
      RowPassesIff(s, row);
    }
    if TablePasses(inv, t) {
      var s :| && s in inv.specs && s.name == t.name && t.value.Arr?
               && forall row :: row in t.value.elems ==> row.Obj? && RowPasses(s, row.fields);
      var k :| 0 <= k < |inv.specs| && inv.specs[k] == s;
      assert i.Some? && i.value == k;
    }
    if TableFieldOk(inv, t) {
      assert inv.specs[i.value] in inv.specs;
      forall row | row in t.value.elems ensures RowOk(inv.specs[i.value], row) {
        var k :| 0 <= k < |t.value.elems| && t.value.elems[k] == row;
      }
    }
  }

  lemma MemberPassesIff(inv: Inventory, f: Field)
    requires DistinctTables(inv)
    ensures HeaderFieldOk(inv, f) <==> MemberPasses(inv, f)
  {
    if f.name == "tables" && f.value.Obj? {
      forall t ensures TableFieldOk(inv, t) <==> TablePasses(inv, t) {
        TablePassesIff(inv, t);
      }
      var ts := f.value.fields;
      assert (forall i :: 0 <= i < |ts| ==> TableFieldOk(inv, ts[i])) <==> forall t :: t in ts ==> TablePasses(inv, t);
    }
  }

  /**
    Which trees pass one lets through: objects each of whose members passes, whose last string-valued
    format and last integer version are those of the program, and which have a tables member.
   */
  lemma EnvelopeMeans(inv: Inventory, v: Value)
    requires DistinctTables(inv)
    ensures EnvelopeOk(inv, v) <==>
              && v.Obj? && (forall f :: f in v.fields ==> MemberPasses(inv, f))
              && LastText(v.fields, "format", "openlocalcrm-backup")
              && LastNumber(v.fields, "version", 1)
              && exists f :: f in v.fields && f.name == "tables"
  {
    if v.Obj? {
      var fs := v.fields;
      FormatMeans(fs, FORMAT);
      VersionMeans(fs, VERSION);
      forall f ensures HeaderFieldOk(inv, f) <==> MemberPasses(inv, f) {
        MemberPassesIff(inv, f);
      }
      assert HeaderOk(inv, fs) <==> forall f :: f in fs ==> MemberPasses(inv, f);
      LastSaysIff(fs, "tables");
      if Unsaid(fs, "tables") {
        assert forall f :: f in fs ==> f.name != "tables";
      } else {
        var i :| 0 <= i < |fs| && fs[i].name == "tables";
        assert fs[i] in fs;
      }
    }
  }

  /**
    When a restore commits: a known mode, a file that begins with an acceptable envelope, for a replace
    one that carries every table, a database that begins and commits, and rows that are all accepted.
    Otherwise the database is as it was; and only the completion audit can fail a committed restore.
   */
  lemma CommitsIff(inv: Inventory, file: seq<Lex>, mode: Mode, w: World, db: Db)
    requires AllKeyed(inv) && TableNames(inv) <= db.Keys
    ensures var o, v := RestoreSpec(inv, file, mode, w, db), ParseValue(file, 0);
            && (o.report.committed <==>
                  && (mode == Merge || mode == Replace) && v.Done? && EnvelopeOk(inv, v.value)
                  && (mode == Replace ==> TableNames(inv) <= TablesOf(v.value).Keys)
                  && w.available && w.begins && w.commits
                  && ApplyTables(inv, TablesOf(v.value), if mode == Replace then Empty(inv) else db, 0).Ok?)
            && (!o.report.committed ==> o.db == db && o.report.error.Some? && o.report.counts == map[])
            && (o.report.committed ==> o.report.error == if w.audits then None else Some(AuditFailed))
  {
    var v := ParseValue(file, 0);
    if !mode.Other? && v.Done? && EnvelopeOk(inv, v.value) {
      ImportCommitsIff(inv, mode, TablesOf(v.value), w, db);
    }
  }

  lemma ImportCommitsIff(inv: Inventory, mode: Mode, tables: map<string, seq<Value>>, w: World, db: Db)
    requires AllKeyed(inv) && TableNames(inv) <= db.Keys && !mode.Other?
    ensures var o := ImportSpec(inv, mode, tables, w, db);
            && (o.report.committed <==>
                  && (mode == Replace ==> TableNames(inv) <= tables.Keys)
                  && w.available && w.begins && w.commits
                  && ApplyTables(inv, tables, if mode == Replace then Empty(inv) else db, 0).Ok?)
            && (!o.report.committed ==> o.db == db && o.report.error.Some? && o.report.counts == map[])
            && (o.report.committed ==> o.report.error == if w.audits then None else Some(AuditFailed))
  {
    MissingNone(inv.specs, tables.Keys);
    assert TableNames(inv) <= tables.Keys <==> forall i :: 0 <= i < |inv.specs| ==> inv.specs[i].name in tables.Keys;
  }

  /** The envelope lists these rows for a table: the last such member of its last tables object. */
  ghost predicate ListsRows(v: Value, name: string, rows: seq<Value>) {
    v.Obj? && exists fs :: LastSays(v.fields, "tables", Obj(fs)) && LastSays(fs, name, Arr(rows))
  }

  lemma ListedIff(inv: Inventory, v: Value, name: string)
    requires EnvelopeOk(inv, v)
    ensures forall rows :: ListsRows(v, name, rows) <==> name in TablesOf(v) && TablesOf(v)[name] == rows
  {
    LastSaysIff(v.fields, "tables");
    LastFieldIsField(v.fields, "tables");
    var fs := TablesObject(v).fields;
    assert LastSays(v.fields, "tables", Obj(fs));
    LastSaysIff(fs, name);
    if name in TablesOf(v) {
      LastFieldIsField(fs, name);
      assert TableFieldOk(inv, Field(name, LastField(fs, name).value));
    }
  }

  /**
    What a committed restore means: every table the file lists rows for is merged with them, into what
    it held or, for a replace, into nothing; every other table is as it was; and the report counts the
    listed rows of each table.
   */
  lemma CommitMeans(inv: Inventory, file: seq<Lex>, mode: Mode, w: World, db: Db)
    requires AllKeyed(inv) && DistinctTables(inv) && TableNames(inv) <= db.Keys
    requires RestoreSpec(inv, file, mode, w, db).report.committed
    ensures ParseValue(file, 0).Done?
    ensures var o, v := RestoreSpec(inv, file, mode, w, db), ParseValue(file, 0).value;
            forall p :: 0 <= p < |inv.specs| ==> CommitMeansFor(inv.specs[p], v, mode, db, o)
  {
    var o, v := RestoreSpec(inv, file, mode, w, db), ParseValue(file, 0).value;
    forall p | 0 <= p < |inv.specs| ensures CommitMeansFor(inv.specs[p], v, mode, db, o) {
      var start := if mode == Replace then Empty(inv) else db;
      TablesMean(inv, TablesOf(v), start, 0, p, o.db);
      TableCommitted(inv, v, mode, w, db, p);
    }
  }

  lemma TableCommitted(inv: Inventory, v: Value, mode: Mode, w: World, db: Db, p: nat)
    requires AllKeyed(inv) && TableNames(inv) <= db.Keys && p < |inv.specs| && EnvelopeOk(inv, v)
    requires !mode.Other? && ImportSpec(inv, mode, TablesOf(v), w, db).report.committed
    requires var o := ImportSpec(inv, mode, TablesOf(v), w, db);
             && inv.specs[p].name in o.db
             && MergedOrSame(inv, TablesOf(v), if mode == Replace then Empty(inv) else db, p, o.db)
    ensures CommitMeansFor(inv.specs[p], v, mode, db, ImportSpec(inv, mode, TablesOf(v), w, db))
  {
    var s := inv.specs[p];
    assert s.name in TableNames(inv);
    ListedIff(inv, v, s.name);
    if s.name in TablesOf(v) {
      assert ListsRows(v, s.name, TablesOf(v)[s.name]);
    }
    if mode == Replace {
      MissingNone(inv.specs, TablesOf(v).Keys);
    }
  }

  ghost predicate CommitMeansFor(s: Spec, v: Value, mode: Mode, db: Db, o: Outcome) {
    && s.name in db && s.name in o.db
    && (forall rows :: ListsRows(v, s.name, rows) ==>
          && Merged(s, rows, if mode == Replace then map[] else db[s.name], o.db[s.name])
          && s.name in o.report.counts && o.report.counts[s.name] == |rows|)
    && ((forall rows :: !ListsRows(v, s.name, rows)) ==>
          mode == Merge && o.db[s.name] == db[s.name] && s.name !in o.report.counts)
  }
}
