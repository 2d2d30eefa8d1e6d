/**
  Laws of applying an envelope to a database: merging is idempotent, and importing the rows of a
  database into emptied tables rebuilds that database exactly, but for the JSON null.
 */
module StoreLaws {
  import opened Prelude
  import opened Json
  import opened Store

  // ---------- merging twice ----------

  /** The table one accepted row leaves behind, and the table a whole row list does. */
  function Put(s: Spec, t: Table, v: Value): Table
    requires Keyed(s) && v.Obj?
  {
    var incoming := Incoming(s, v.fields);
    t[incoming[s.conflict] := Landed(s, t, incoming)]
  }

  function PutAll(s: Spec, t: Table, rows: seq<Value>): Table
    requires Keyed(s) && forall v :: v in rows ==> v.Obj?
    decreases |rows|
  {
    if rows == [] then t else PutAll(s, Put(s, t, rows[0]), rows[1..])
  }

  lemma {:induction false} RowsArePuts(inv: Inventory, s: Spec, db: Db, rows: seq<Value>)
    requires Keyed(s) && s.name in db && UpsertRows(inv, s, db, rows).Ok?
    ensures forall v :: v in rows ==> v.Obj?
    ensures UpsertRows(inv, s, db, rows).value == db[s.name := PutAll(s, db[s.name], rows)]
    decreases |rows|
  {
    if rows == [] {
      assert db[s.name := db[s.name]] == db;
    } else {
      var d := Upsert(inv, s, db, rows[0]).value;
      assert d == db[s.name := Put(s, db[s.name], rows[0])];
      RowsArePuts(inv, s, d, rows[1..]);
      assert forall v :: v in rows ==> v == rows[0] || v in rows[1..];
    }
  }

  /** The last row of the envelope that carries conflict value `k`. */
  function LastFor(s: Spec, rows: seq<Value>, k: Cell): (r: Option<Value>)
    requires Keyed(s)
    ensures r.Some? ==> r.value.Obj? && KeyOf(s, r.value) == k
  {
    if rows == [] then None
    else if LastFor(s, rows[1..], k).Some? then LastFor(s, rows[1..], k)
    else if rows[0].Obj? && KeyOf(s, rows[0]) == k then Some(rows[0])
    else None
  }

  function Refreshed(s: Spec, row: Row, v: Value): Row
    requires v.Obj?
  {
    Updated(s, row, Incoming(s, v.fields))
  }

  lemma RefreshTwice(s: Spec, row: Row, a: Value, b: Value)
    requires a.Obj? && b.Obj?
    ensures Refreshed(s, Refreshed(s, row, a), b) == Refreshed(s, row, b)
  {
  }

  lemma RefreshSelf(s: Spec, a: Value)
    requires a.Obj?
    ensures Refreshed(s, Incoming(s, a.fields), a) == Incoming(s, a.fields)
  {
  }

  /** A row that was there before takes the last envelope row's assignable columns. */
  lemma {:induction false} PutAllKnown(s: Spec, t: Table, rows: seq<Value>, k: Cell)
    requires Keyed(s) && (forall v :: v in rows ==> v.Obj?) && k in t
    ensures k in PutAll(s, t, rows)
    ensures var last := LastFor(s, rows, k);
            PutAll(s, t, rows)[k] == if last.None? then t[k] else Refreshed(s, t[k], last.value)
    decreases |rows|
  {
    if rows != [] {
      PutAllKnown(s, Put(s, t, rows[0]), rows[1..], k);
      if KeyOf(s, rows[0]) == k && LastFor(s, rows[1..], k).Some? {
        RefreshTwice(s, t[k], rows[0], LastFor(s, rows[1..], k).value);
      }
    }
  }

  /** Every row an import leaves behind already agrees with the last envelope row for its key. */
  lemma {:induction false} PutAllSettled(s: Spec, t: Table, rows: seq<Value>, k: Cell)
    requires Keyed(s) && forall v :: v in rows ==> v.Obj?
    ensures k in PutAll(s, t, rows) <==> k in t || LastFor(s, rows, k).Some?
    ensures var last := LastFor(s, rows, k);
            last.Some? ==> PutAll(s, t, rows)[k] == Refreshed(s, PutAll(s, t, rows)[k], last.value)
    decreases |rows|
  {
    if k in t {
      PutAllKnown(s, t, rows, k);
      var last := LastFor(s, rows, k);
      if last.Some? {
        RefreshTwice(s, t[k], last.value, last.value);
      }
    } else if rows != [] {
      PutAllSettled(s, Put(s, t, rows[0]), rows[1..], k);
      if KeyOf(s, rows[0]) == k && LastFor(s, rows[1..], k).None? {
        PutAllKnown(s, Put(s, t, rows[0]), rows[1..], k);
        RefreshSelf(s, rows[0]);
      }
    }
  }

  /** Importing the same rows of one table again changes nothing. */
  lemma PutAllTwice(s: Spec, t: Table, rows: seq<Value>)
    requires Keyed(s) && forall v :: v in rows ==> v.Obj?
    ensures PutAll(s, PutAll(s, t, rows), rows) == PutAll(s, t, rows)
  {
    var once := PutAll(s, t, rows);
    var twice := PutAll(s, once, rows);
    forall k ensures k in twice <==> k in once {
      PutAllSettled(s, t, rows, k);
      PutAllSettled(s, once, rows, k);
    }
    forall k | k in once ensures twice[k] == once[k] {
      PutAllSettled(s, t, rows, k);
      PutAllKnown(s, once, rows, k);
    }
  }

  /** An import from position `i` on leaves the tables before `i` alone. */
  lemma {:induction false} ApplyLeavesEarlier(
    inv: Inventory, tables: map<string, seq<Value>>, db: Db, i: nat, p: nat)
    requires AllKeyed(inv) && DistinctTables(inv) && TableNames(inv) <= db.Keys
    requires p < i <= |inv.specs| && inv.specs[p].name in db
    requires ApplyTables(inv, tables, db, i).Ok?
    ensures ApplyTables(inv, tables, db, i).value[inv.specs[p].name] == db[inv.specs[p].name]
    decreases |inv.specs| - i
  {
    if i < |inv.specs| {
      var s := inv.specs[i];
      assert s.name in TableNames(inv);
      if s.name !in tables {
        ApplyLeavesEarlier(inv, tables, db, i + 1, p);
      } else {
        RowsArePuts(inv, s, db, tables[s.name]);
        ApplyLeavesEarlier(inv, tables, UpsertRows(inv, s, db, tables[s.name]).value, i + 1, p);
      }
    }
  }

  /** From position `i` on, a second run of a merge that once ended in `done` stays at `done`. */
  lemma {:induction false} MergeTwiceFrom(
    inv: Inventory, tables: map<string, seq<Value>>, db: Db, done: Db, i: nat)
    requires AllKeyed(inv) && DistinctTables(inv) && i <= |inv.specs|
    requires TableNames(inv) <= db.Keys && TableNames(inv) <= done.Keys
    requires ApplyTables(inv, tables, db, i) == Ok(done)
    requires ApplyTables(inv, tables, done, i).Ok?
    ensures ApplyTables(inv, tables, done, i) == Ok(done)
    decreases |inv.specs| - i
  {
    if i < |inv.specs| {
      var s := inv.specs[i];
      assert s.name in TableNames(inv);
      if s.name !in tables {
        MergeTwiceFrom(inv, tables, db, done, i + 1);
      } else {
        var d := UpsertRows(inv, s, db, tables[s.name]).value;
        ApplyLeavesEarlier(inv, tables, d, i + 1, i);
        TableTwice(inv, s, db, done, tables[s.name]);
        MergeTwiceFrom(inv, tables, d, done, i + 1);
      }
    }
  }

  lemma TableTwice(inv: Inventory, s: Spec, db: Db, done: Db, rows: seq<Value>)
    requires Keyed(s) && s.name in db && s.name in done
    requires UpsertRows(inv, s, db, rows).Ok? && UpsertRows(inv, s, done, rows).Ok?
    requires done[s.name] == UpsertRows(inv, s, db, rows).value[s.name]
    ensures UpsertRows(inv, s, done, rows).value == done
  {
    RowsArePuts(inv, s, db, rows);
    RowsArePuts(inv, s, done, rows);
    PutAllTwice(s, db[s.name], rows);
    assert done[s.name := done[s.name]] == done;
  }

  /** Merging an envelope a second time either fails and rolls back, or changes nothing. */
  lemma MergeTwice(inv: Inventory, tables: map<string, seq<Value>>, db: Db)
    requires AllKeyed(inv) && DistinctTables(inv) && TableNames(inv) <= db.Keys
    requires ApplyTables(inv, tables, db, 0).Ok?
    ensures var done := ApplyTables(inv, tables, db, 0).value;
            ApplyTables(inv, tables, done, 0).Ok? ==> ApplyTables(inv, tables, done, 0) == Ok(done)
  {
    var done := ApplyTables(inv, tables, db, 0).value;
    if ApplyTables(inv, tables, done, 0).Ok? {
      MergeTwiceFrom(inv, tables, db, done, 0);
    }
  }

  // ---------- rebuilding a database from its own rows ----------

  /** row_to_json: one field per stored column, in column order. */
  function RowJson(s: Spec, row: Row): Value {
    Obj(seq(|Stored(s)|, i requires 0 <= i < |Stored(s)| => ColumnField(Stored(s)[i], row)))
  }

  function ColumnField(c: string, row: Row): Field {
    Field(c, if c in row then Printed(row[c]) else Atom(Null))
  }

  /** SQL NULL and the JSON null are printed alike. */
  function Printed(cell: Cell): Value { if cell == NULL then Atom(Null) else cell.value }

  /** What is left of a row once it is printed and read back: the JSON null has become NULL. */
  function Flat(row: Row): Row {
    map c | c in row :: if row[c] == JSON_NULL then NULL else row[c]
  }

  function Flattened(db: Db): Db {
    map n | n in db :: FlatTable(db[n])
  }

  function FlatTable(t: Table): Table {
    map k | k in t :: Flat(t[k])
  }

  predicate PlainTable(t: Table) {
    forall k, c :: k in t && c in t[k] ==> t[k][c] != JSON_NULL
  }

  /** No column holds the JSON null. */
  predicate Plain(db: Db) {
    forall n :: n in db ==> PlainTable(db[n])
  }

  /** The selector's result: the rows of `t` in the order `keys` lists them. */
  function Listing(s: Spec, t: Table, keys: seq<Cell>): (rows: seq<Value>)
    requires forall k :: k in keys ==> k in t
    ensures |rows| == |keys|
  {
    seq(|keys|, i requires 0 <= i < |keys| => RowJson(s, t[keys[i]]))
  }

  ghost predicate Lists(keys: seq<Cell>, t: Table) {
    Distinct(keys) && forall k :: k in keys <==> k in t
  }

  /** Printed and read back, a row is flat. */
  lemma IncomingOfRowJson(s: Spec, key: Cell, row: Row)
    requires SpecOk(s) && s.extra == [] && RowFits(s, key, row)
    ensures Incoming(s, RowJson(s, row).fields) == Flat(row)
  {
    var fs := RowJson(s, row).fields;
    forall c | c in Stored(s) ensures Incoming(s, fs)[c] == Flat(row)[c] {
      var i :| 0 <= i < |Stored(s)| && Stored(s)[i] == c;
      assert fs[i].name == c;
      LastFieldAt(fs, i);
    }
  }

  /** `t` holds exactly the first `n` listed rows of `goal`. */
  ghost predicate Partial(t: Table, goal: Table, keys: seq<Cell>, n: nat)
    requires n <= |keys|
  {
    && (forall k :: k in t <==> k in keys[..n])
    && (forall k :: k in t ==> k in goal && t[k] == goal[k])
  }

  /** Every table before position `i` is already as in `goal`. */
  ghost predicate EarlierEqual(inv: Inventory, db: Db, goal: Db, i: nat) {
    forall p :: 0 <= p < i && p < |inv.specs| ==>
      && inv.specs[p].name in db && inv.specs[p].name in goal
      && db[inv.specs[p].name] == goal[inv.specs[p].name]
  }

  ghost predicate ReferencesHold(inv: Inventory, child: string, row: Row, db: Db) {
    forall fk :: fk in inv.foreignKeys && fk.child == child ==> Refers(fk, row, db)
  }

  lemma GoalRowRefers(inv: Inventory, i: nat, db: Db, goal: Db, k: Cell)
    requires WellFormed(inv) && i < |inv.specs| && FksHold(inv, goal) && EarlierEqual(inv, db, goal, i)
    requires inv.specs[i].name in goal && k in goal[inv.specs[i].name]
    ensures ReferencesHold(inv, inv.specs[i].name, goal[inv.specs[i].name][k], db)
  {
    forall fk | fk in inv.foreignKeys && fk.child == inv.specs[i].name
      ensures Refers(fk, goal[inv.specs[i].name][k], db)
    {
      var p: nat, j: nat :| PointsBack(inv, fk, p, j);
      assert j == i;
      assert Refers(fk, goal[fk.child][k], goal);
    }
  }

  /** Whatever the table holds, the upsert of this row fails. */
  predicate Dead(s: Spec, v: Value) {
    !Executable(s) || !v.Obj? || !Complete(s, Incoming(s, v.fields))
  }

  /** A row that is complete, clashes with none and refers to rows that are there lands. */
  lemma Lands(inv: Inventory, s: Spec, db: Db, v: Value, row: Row)
    requires Keyed(s) && s.name in db && !Dead(s, v)
    requires row == Landed(s, db[s.name], Incoming(s, v.fields))
    requires forall k :: k in db[s.name] && k != KeyOf(s, v) ==> !Clash(s, row, db[s.name][k])
    requires ReferencesHold(inv, s.name, row, db)
    ensures Upsert(inv, s, db, v) == Ok(db[s.name := db[s.name][KeyOf(s, v) := row]])
  {
  }

  /** One more listed row lands without a conflict, a clash or a dangling reference. */
  lemma ListedRowLands(inv: Inventory, s: Spec, db: Db, goal: Table, k: Cell)
    requires SpecOk(s) && s.extra == [] && Executable(s) && s.name in db && TableFits(s, goal)
    requires PlainTable(goal) && k in goal && k !in db[s.name]
    requires forall k' :: k' in db[s.name] ==> k' in goal && db[s.name][k'] == goal[k']
    requires ReferencesHold(inv, s.name, goal[k], db)
    ensures RowFits(s, k, goal[k])
    ensures Upsert(inv, s, db, RowJson(s, goal[k])) == Ok(db[s.name := db[s.name][k := goal[k]]])
  {
    var row := goal[k];
    assert RowFits(s, k, row);
    IncomingOfRowJson(s, k, row);
    assert Flat(row) == row;
    forall k' | k' in db[s.name] && k' != k ensures !Clash(s, row, db[s.name][k']) {
      assert !Clash(s, goal[k], goal[k']);
    }
    Lands(inv, s, db, RowJson(s, row), row);
  }

  /** The state of the import of table `i` after `n` of its listed rows. */
  ghost predicate Midway(inv: Inventory, i: nat, db: Db, goal: Db, keys: seq<Cell>, n: nat) {
    && WellFormed(inv) && i < |inv.specs| && n <= |keys|
    && inv.specs[i].extra == [] && Executable(inv.specs[i])
    && inv.specs[i].name in db && inv.specs[i].name in goal
    && TableFits(inv.specs[i], goal[inv.specs[i].name]) && FksHold(inv, goal)
    && PlainTable(goal[inv.specs[i].name])
    && EarlierEqual(inv, db, goal, i)
    && Lists(keys, goal[inv.specs[i].name])
    && Partial(db[inv.specs[i].name], goal[inv.specs[i].name], keys, n)
  }

  lemma ListedRow(inv: Inventory, i: nat, db: Db, goal: Db, keys: seq<Cell>, n: nat)
    requires Midway(inv, i, db, goal, keys, n) && n < |keys|
    ensures var s := inv.specs[i];
            && keys[n] in goal[s.name]
            && RowFits(s, keys[n], goal[s.name][keys[n]])
            && Upsert(inv, s, db, RowJson(s, goal[s.name][keys[n]]))
               == Ok(db[s.name := db[s.name][keys[n] := goal[s.name][keys[n]]]])
  {
    var s := inv.specs[i];
    assert keys[n] in keys;
    GoalRowRefers(inv, i, db, goal, keys[n]);
    PartialStep(db[s.name], goal[s.name], keys, n);
    ListedRowLands(inv, s, db, goal[s.name], keys[n]);
  }

  lemma OtherTables(inv: Inventory, i: nat, db: Db, goal: Db, t: Table)
    requires DistinctTables(inv) && i < |inv.specs| && inv.specs[i].name in db
    requires EarlierEqual(inv, db, goal, i)
    ensures EarlierEqual(inv, db[inv.specs[i].name := t], goal, i)
  {
  }

  lemma ListedStep(inv: Inventory, i: nat, db: Db, goal: Db, keys: seq<Cell>, n: nat)
    requires Midway(inv, i, db, goal, keys, n) && n < |keys|
    ensures var s := inv.specs[i];
            && keys[n] in goal[s.name]
            && var d := db[s.name := db[s.name][keys[n] := goal[s.name][keys[n]]]];
               && Midway(inv, i, d, goal, keys, n + 1)
               && d[s.name := goal[s.name]] == db[s.name := goal[s.name]]
  {
    var s := inv.specs[i];
    PartialStep(db[s.name], goal[s.name], keys, n);
    OtherTables(inv, i, db, goal, db[s.name][keys[n] := goal[s.name][keys[n]]]);
  }

  lemma MidwayEnd(inv: Inventory, i: nat, db: Db, goal: Db, keys: seq<Cell>)
    requires Midway(inv, i, db, goal, keys, |keys|)
    ensures db[inv.specs[i].name := goal[inv.specs[i].name]] == db
  {
    assert keys[..|keys|] == keys;
    assert db[inv.specs[i].name] == goal[inv.specs[i].name];
  }

  lemma ListingUnfolds(s: Spec, t: Table, keys: seq<Cell>, n: nat)
    requires Lists(keys, t) && n < |keys|
    ensures keys[n] in t
    ensures Listing(s, t, keys)[n..] != [] && Listing(s, t, keys)[n..][0] == RowJson(s, t[keys[n]])
    ensures Listing(s, t, keys)[n..][1..] == Listing(s, t, keys)[n + 1..]
  {
    assert keys[n] in keys;
  }

  /** Importing the remaining listed rows of a table completes it to the table they came from. */
  lemma {:induction false} ListedRowsRebuild(
    inv: Inventory, i: nat, db: Db, goal: Db, keys: seq<Cell>, n: nat)
    requires Midway(inv, i, db, goal, keys, n)
    ensures var s := inv.specs[i];
            UpsertRows(inv, s, db, Listing(s, goal[s.name], keys)[n..])
            == Ok(db[s.name := goal[s.name]])
    decreases |keys| - n
  {
    var s := inv.specs[i];
    var rows := Listing(s, goal[s.name], keys);
    if n == |keys| {
      MidwayEnd(inv, i, db, goal, keys);
    } else {
      ListedRow(inv, i, db, goal, keys, n);
      ListedStep(inv, i, db, goal, keys, n);
      ListingUnfolds(s, goal[s.name], keys, n);
      ListedRowsRebuild(inv, i, db[s.name := db[s.name][keys[n] := goal[s.name][keys[n]]]], goal, keys, n + 1);
    }
  }

  lemma PartialStep(t: Table, goal: Table, keys: seq<Cell>, n: nat)
    requires Lists(keys, goal) && n < |keys| && Partial(t, goal, keys, n)
    ensures keys[n] in goal && keys[n] !in t
    ensures Partial(t[keys[n] := goal[keys[n]]], goal, keys, n + 1)
  {
    assert keys[n] in keys;
    assert keys[..n + 1] == keys[..n] + [keys[n]];
  }

  /** Each table of the envelope lists the rows of that table of `goal`, in some order. */
  ghost predicate ListsAll(inv: Inventory, tables: map<string, seq<Value>>, goal: Db) {
    forall i :: 0 <= i < |inv.specs| ==>
      var s := inv.specs[i];
      && s.name in tables && s.name in goal
      && (exists keys :: ListsTable(s, tables[s.name], goal[s.name], keys))
  }

  ghost predicate ListsTable(s: Spec, rows: seq<Value>, t: Table, keys: seq<Cell>) {
    && Lists(keys, t)
    && rows == Listing(s, t, keys)
  }

  /** The tables whose stored columns go beyond the allow-list hold no row. */
  ghost predicate NoExtraRows(inv: Inventory, db: Db) {
    forall i :: 0 <= i < |inv.specs| && inv.specs[i].name in db && inv.specs[i].extra != []
      ==> db[inv.specs[i].name] == map[]
  }

  /** The tables whose upsert cannot be executed hold no row. */
  ghost predicate NoDeadTables(inv: Inventory, db: Db) {
    forall i :: 0 <= i < |inv.specs| && inv.specs[i].name in db && !Executable(inv.specs[i])
      ==> db[inv.specs[i].name] == map[]
  }

  /** No row of the table holds the JSON null in a NOT NULL column. */
  predicate KeepsValues(s: Spec, t: Table) {
    forall k, c :: k in t && c in t[k] && t[k][c] == JSON_NULL ==> c in s.nullable
  }

  ghost predicate NoLostValues(inv: Inventory, db: Db) {
    forall i :: 0 <= i < |inv.specs| && inv.specs[i].name in db
      ==> KeepsValues(inv.specs[i], db[inv.specs[i].name])
  }

  /** Every row of the database can be printed, validated and imported again. */
  ghost predicate Restorable(inv: Inventory, db: Db) {
    NoExtraRows(inv, db) && NoDeadTables(inv, db) && NoLostValues(inv, db)
  }

  /** Every table from position `i` on is empty. */
  ghost predicate LaterEmpty(inv: Inventory, db: Db, i: nat) {
    forall p :: i <= p < |inv.specs| ==>
      inv.specs[p].name in db && db[inv.specs[p].name] == map[]
  }

  lemma {:induction false} RebuildFrom(
    inv: Inventory, tables: map<string, seq<Value>>, db: Db, goal: Db, i: nat)
    requires WellFormed(inv) && Sound(inv, goal) && Plain(goal) && Restorable(inv, goal)
    requires ListsAll(inv, tables, goal) && db.Keys == TableNames(inv) && i <= |inv.specs|
    requires EarlierEqual(inv, db, goal, i) && LaterEmpty(inv, db, i)
    ensures ApplyTables(inv, tables, db, i) == Ok(goal)
    decreases |inv.specs| - i
  {
    if i == |inv.specs| {
      SameTables(inv, db, goal);
    } else {
      OneTableRebuilt(inv, tables, i, db, goal);
      var s := inv.specs[i];
      RebuildFrom(inv, tables, db[s.name := goal[s.name]], goal, i + 1);
    }
  }

  lemma SameTables(inv: Inventory, db: Db, goal: Db)
    requires EarlierEqual(inv, db, goal, |inv.specs|)
    requires db.Keys == TableNames(inv) && goal.Keys == TableNames(inv)
    ensures db == goal
  {
    forall n | n in db ensures db[n] == goal[n] {
      var i :| 0 <= i < |inv.specs| && inv.specs[i].name == n;
    }
  }

  lemma TableDone(inv: Inventory, i: nat, db: Db, goal: Db)
    requires DistinctTables(inv) && i < |inv.specs|
    requires inv.specs[i].name in db && inv.specs[i].name in goal
    requires EarlierEqual(inv, db, goal, i) && LaterEmpty(inv, db, i)
    ensures var s := inv.specs[i]; var d := db[s.name := goal[s.name]];
            d.Keys == db.Keys && EarlierEqual(inv, d, goal, i + 1) && LaterEmpty(inv, d, i + 1)
  {
    var s := inv.specs[i];
    assert db[s.name := goal[s.name]].Keys == db.Keys + {s.name};
  }

  lemma SomeElement<T>(s: seq<T>)
    ensures s == [] || exists x :: x in s
  {
    if s != [] {
      assert s[0] in s;
    }
  }

  lemma ListedTableRebuilt(inv: Inventory, i: nat, db: Db, goal: Db, keys: seq<Cell>)
    requires WellFormed(inv) && Sound(inv, goal) && Plain(goal) && Restorable(inv, goal) && i < |inv.specs|
    requires inv.specs[i].name in db && inv.specs[i].name in goal
    requires Lists(keys, goal[inv.specs[i].name])
    requires EarlierEqual(inv, db, goal, i) && db[inv.specs[i].name] == map[]
    ensures var s := inv.specs[i];
            UpsertRows(inv, s, db, Listing(s, goal[s.name], keys)) == Ok(db[s.name := goal[s.name]])
  {
    var s := inv.specs[i];
    if s.extra == [] && Executable(s) {
      var rows := Listing(s, goal[s.name], keys);
      assert keys[..0] == [];
      ListedRowsRebuild(inv, i, db, goal, keys, 0);
      assert rows[0..] == rows;
    } else {
      SomeElement(keys);
      assert db[s.name := goal[s.name]] == db;
    }
  }

  lemma OneTableRebuilt(
    inv: Inventory, tables: map<string, seq<Value>>, i: nat, db: Db, goal: Db)
    requires WellFormed(inv) && Sound(inv, goal) && Plain(goal) && Restorable(inv, goal) && i < |inv.specs|
    requires ListsAll(inv, tables, goal) && db.Keys == TableNames(inv)
    requires EarlierEqual(inv, db, goal, i) && LaterEmpty(inv, db, i)
    ensures var s := inv.specs[i];
            && s.name in db && s.name in tables && s.name in goal
            && var d := db[s.name := goal[s.name]];
               && UpsertRows(inv, s, db, tables[s.name]) == Ok(d)
               && d.Keys == db.Keys && EarlierEqual(inv, d, goal, i + 1) && LaterEmpty(inv, d, i + 1)
  {
    var s := inv.specs[i];
    assert s.name in db && db[s.name] == map[];
    var keys :| ListsTable(s, tables[s.name], goal[s.name], keys);
    ListedTableRebuilt(inv, i, db, goal, keys);
    TableDone(inv, i, db, goal);
  }

  /** Importing a database's own rows into emptied tables rebuilds it, if it is plain. */
  lemma PlainRebuilds(inv: Inventory, tables: map<string, seq<Value>>, goal: Db)
    requires WellFormed(inv) && Sound(inv, goal) && Plain(goal) && Restorable(inv, goal)
    requires ListsAll(inv, tables, goal)
    ensures ApplyTables(inv, tables, Empty(inv), 0) == Ok(goal)
  {
    RebuildFrom(inv, tables, Empty(inv), goal, 0);
  }

  lemma FlatRowPrints(s: Spec, row: Row)
    ensures RowJson(s, Flat(row)) == RowJson(s, row)
  {
    var a, b := RowJson(s, Flat(row)).fields, RowJson(s, row).fields;
    assert forall i :: 0 <= i < |a| ==> a[i] == b[i];
  }

  lemma FlatRowFits(s: Spec, key: Cell, row: Row)
    requires SpecOk(s) && RowFits(s, key, row)
    requires forall c :: c in row && row[c] == JSON_NULL ==> c in s.nullable
    ensures RowFits(s, key, Flat(row))
  {
  }

  lemma FlatTableFits(s: Spec, t: Table)
    requires SpecOk(s) && TableFits(s, t) && KeepsValues(s, t)
    ensures TableFits(s, FlatTable(t)) && PlainTable(FlatTable(t))
  {
    forall k | k in t ensures RowFits(s, k, Flat(t[k])) {
      FlatRowFits(s, k, t[k]);
    }
    forall k, k' | k in t && k' in t && k != k' ensures !Clash(s, Flat(t[k]), Flat(t[k'])) {
      assert !Clash(s, t[k], t[k']);
    }
  }

  lemma FlatRefers(inv: Inventory, db: Db)
    requires FksHold(inv, db)
    ensures FksHold(inv, Flattened(db))
  {
    var d := Flattened(db);
    forall fk, k | fk in inv.foreignKeys && fk.child in d && k in d[fk.child]
      ensures Refers(fk, d[fk.child][k], d)
    {
      assert Refers(fk, db[fk.child][k], db);
    }
  }

  lemma FlatSound(inv: Inventory, db: Db)
    requires WellFormed(inv) && Sound(inv, db) && Restorable(inv, db)
    ensures Sound(inv, Flattened(db)) && Plain(Flattened(db)) && Restorable(inv, Flattened(db))
  {
    var d := Flattened(db);
    forall i | 0 <= i < |inv.specs|
      ensures TableFits(inv.specs[i], d[inv.specs[i].name]) && PlainTable(d[inv.specs[i].name])
      ensures db[inv.specs[i].name] == map[] ==> d[inv.specs[i].name] == map[]
    {
      FlatTableFits(inv.specs[i], db[inv.specs[i].name]);
    }
    FlatRefers(inv, db);
    forall n | n in d ensures PlainTable(d[n]) {
      var i :| 0 <= i < |inv.specs| && inv.specs[i].name == n;
    }
  }

  lemma FlatListsAll(inv: Inventory, tables: map<string, seq<Value>>, db: Db)
    requires ListsAll(inv, tables, db)
    ensures ListsAll(inv, tables, Flattened(db))
  {
    forall i | 0 <= i < |inv.specs|
      ensures var s := inv.specs[i];
              exists keys :: ListsTable(s, tables[s.name], Flattened(db)[s.name], keys)
    {
      var s := inv.specs[i];
      var keys :| ListsTable(s, tables[s.name], db[s.name], keys);
      FlatListing(s, db[s.name], keys);
      assert ListsTable(s, tables[s.name], Flattened(db)[s.name], keys);
    }
  }

  lemma FlatListing(s: Spec, t: Table, keys: seq<Cell>)
    requires Lists(keys, t)
    ensures Lists(keys, FlatTable(t)) && Listing(s, FlatTable(t), keys) == Listing(s, t, keys)
  {
    forall i | 0 <= i < |keys|
      ensures Listing(s, FlatTable(t), keys)[i] == Listing(s, t, keys)[i]
    {
      assert keys[i] in keys;
      FlatRowPrints(s, t[keys[i]]);
    }
  }

  /** A flattened database is the database itself exactly when that is plain. */
  lemma FlattenedIff(db: Db)
    ensures Flattened(db) == db <==> Plain(db)
  {
    if Plain(db) {
      forall n | n in db ensures FlatTable(db[n]) == db[n] {
        forall k | k in db[n] ensures Flat(db[n][k]) == db[n][k] {
        }
      }
    } else {
      var n :| n in db && !PlainTable(db[n]);
      var k, c :| k in db[n] && c in db[n][k] && db[n][k][c] == JSON_NULL;
      assert Flattened(db)[n][k][c] == NULL;
    }
  }

  /**
    Importing a database's own rows into emptied tables rebuilds the database, except that a JSON
    null in a nullable column has become NULL.
   */
  lemma RebuildsItself(inv: Inventory, tables: map<string, seq<Value>>, goal: Db)
    requires WellFormed(inv) && Sound(inv, goal) && Restorable(inv, goal)
    requires ListsAll(inv, tables, goal)
    ensures ApplyTables(inv, tables, Empty(inv), 0) == Ok(Flattened(goal))
    ensures Flattened(goal) == goal <==> Plain(goal)
  {
    FlatSound(inv, goal);
    FlatListsAll(inv, tables, goal);
    PlainRebuilds(inv, tables, Flattened(goal));
    FlattenedIff(goal);
  }

  // ---------- rows that cannot be imported ----------

  /** Some table of the envelope, from position `i` on, has such a row. */
  ghost predicate BringsDeadRows(inv: Inventory, tables: map<string, seq<Value>>, i: nat) {
    exists p, v :: i <= p < |inv.specs| && inv.specs[p].name in tables
      && v in tables[inv.specs[p].name] && Dead(inv.specs[p], v)
  }

  lemma {:induction false} DeadRowFailsTable(inv: Inventory, s: Spec, db: Db, rows: seq<Value>, v: Value)
    requires Keyed(s) && s.name in db && v in rows && Dead(s, v)
    ensures UpsertRows(inv, s, db, rows).Err?
    decreases |rows|
  {
    var r := Upsert(inv, s, db, rows[0]);
    if r.Ok? {
      assert v in rows[1..];
      DeadRowFailsTable(inv, s, r.value, rows[1..], v);
    }
  }

  /** Such an envelope is never imported, whatever the database holds and in either mode. */
  lemma {:induction false} DeadRowsRefused(
    inv: Inventory, tables: map<string, seq<Value>>, db: Db, i: nat)
    requires AllKeyed(inv) && i <= |inv.specs| && TableNames(inv) <= db.Keys
    requires BringsDeadRows(inv, tables, i)
    ensures ApplyTables(inv, tables, db, i).Err?
    decreases |inv.specs| - i
  {
    var s := inv.specs[i];
    assert s.name in TableNames(inv);
    var p, v :| i <= p < |inv.specs| && inv.specs[p].name in tables
      && v in tables[inv.specs[p].name] && Dead(inv.specs[p], v);
    if p == i {
      DeadRowFailsTable(inv, s, db, tables[s.name], v);
    } else if s.name !in tables {
      DeadRowsRefused(inv, tables, db, i + 1);
    } else {
      var r := UpsertRows(inv, s, db, tables[s.name]);
      if r.Ok? {
        DeadRowsRefused(inv, tables, r.value, i + 1);
      }
    }
  }

  /** A stored row is printed dead if its upsert cannot run or it holds a JSON null that is lost. */
  lemma PrintedDead(s: Spec, key: Cell, row: Row)
    requires SpecOk(s) && s.extra == [] && RowFits(s, key, row)
    ensures Dead(s, RowJson(s, row))
            <==> !Executable(s) || exists c :: c in row && row[c] == JSON_NULL && c !in s.nullable
  {
    IncomingOfRowJson(s, key, row);
    if c :| c in row && row[c] == JSON_NULL && c !in s.nullable {
      assert Flat(row)[c] == NULL && c in s.columns;
    }
  }

  /** What a database with such a row streams is such an envelope. */
  lemma DeadRowsStreamed(inv: Inventory, tables: map<string, seq<Value>>, db: Db)
    requires WellFormed(inv) && Sound(inv, db) && ListsAll(inv, tables, db)
    requires NoExtraRows(inv, db) && !(NoDeadTables(inv, db) && NoLostValues(inv, db))
    ensures BringsDeadRows(inv, tables, 0)
  {
    var i, k := DeadRow(inv, db);
    var s := inv.specs[i];
    assert TableFits(s, db[s.name]) && RowFits(s, k, db[s.name][k]);
    PrintedDead(s, k, db[s.name][k]);
    RowIsListed(s, tables[s.name], db[s.name], k);
  }

  lemma RowIsListed(s: Spec, rows: seq<Value>, t: Table, k: Cell)
    requires k in t && exists keys :: ListsTable(s, rows, t, keys)
    ensures RowJson(s, t[k]) in rows
  {
    var keys :| ListsTable(s, rows, t, keys);
    var j :| 0 <= j < |keys| && keys[j] == k;
    assert rows[j] == RowJson(s, t[k]);
  }

  lemma DeadRow(inv: Inventory, db: Db) returns (i: nat, k: Cell)
    requires NoExtraRows(inv, db) && !(NoDeadTables(inv, db) && NoLostValues(inv, db))
    ensures i < |inv.specs| && inv.specs[i].name in db && k in db[inv.specs[i].name]
    ensures inv.specs[i].extra == []
    ensures var s, row := inv.specs[i], db[inv.specs[i].name][k];
            !Executable(s) || exists c :: c in row && row[c] == JSON_NULL && c !in s.nullable
  {
    if !NoDeadTables(inv, db) {
      i :| 0 <= i < |inv.specs| && inv.specs[i].name in db && !Executable(inv.specs[i])
        && db[inv.specs[i].name] != map[];
      NonEmptyTable(db[inv.specs[i].name]);
      k :| k in db[inv.specs[i].name];
    } else {
      i :| 0 <= i < |inv.specs| && inv.specs[i].name in db
        && !KeepsValues(inv.specs[i], db[inv.specs[i].name]);
      var t := db[inv.specs[i].name];
      var c;
      k, c :| k in t && c in t[k] && t[k][c] == JSON_NULL && c !in inv.specs[i].nullable;
    }
  }

  lemma NonEmptyTable(t: Table)
    ensures t == map[] || exists k :: k in t
  {
    if t.Keys != {} {
      var k :| k in t.Keys;
    }
  }

  // ---------- when the second merge succeeds ----------

  /** No conflict value occurs twice among the rows. */
  ghost predicate DistinctKeys(s: Spec, rows: seq<Value>)
    requires Keyed(s)
  {
    forall i, j :: 0 <= i < j < |rows| ==> KeyOf(s, rows[i]) != KeyOf(s, rows[j])
  }

  ghost predicate AllDistinctKeys(inv: Inventory, tables: map<string, seq<Value>>)
    requires AllKeyed(inv)
  {
    forall p :: 0 <= p < |inv.specs| && inv.specs[p].name in tables
      ==> DistinctKeys(inv.specs[p], tables[inv.specs[p].name])
  }

  lemma {:induction false} OnlyRowForKey(s: Spec, rows: seq<Value>, i: nat)
    requires Keyed(s) && DistinctKeys(s, rows) && i < |rows| && rows[i].Obj?
    ensures LastFor(s, rows, KeyOf(s, rows[i])) == Some(rows[i])
  {
    var k := KeyOf(s, rows[i]);
    if i == 0 {
      if LastFor(s, rows[1..], k).Some? {
        LastForOccurs(s, rows[1..], k);
      }
    } else {
      OnlyRowForKey(s, rows[1..], i - 1);
    }
  }

  lemma {:induction false} LastForOccurs(s: Spec, rows: seq<Value>, k: Cell)
    requires Keyed(s) && LastFor(s, rows, k).Some?
    ensures exists j :: 0 <= j < |rows| && KeyOf(s, rows[j]) == k
  {
    if LastFor(s, rows[1..], k).Some? {
      LastForOccurs(s, rows[1..], k);
      var j :| 0 <= j < |rows[1..]| && KeyOf(s, rows[1..][j]) == k;
      assert rows[j + 1] == rows[1..][j];
    }
  }

  /** A stored row clashes with no other and refers to rows that are there. */
  lemma StoredRowFits(inv: Inventory, i: nat, db: Db, k: Cell)
    requires WellFormed(inv) && i < |inv.specs| && Sound(inv, db)
    requires inv.specs[i].name in db && k in db[inv.specs[i].name]
    ensures var s := inv.specs[i];
            var t := db[s.name];
            && (forall x :: x in t && x != k ==> !Clash(s, t[k], t[x]))
            && ReferencesHold(inv, s.name, t[k], db)
  {
    assert TableFits(inv.specs[i], db[inv.specs[i].name]);
  }

  lemma LandsAgain(inv: Inventory, s: Spec, db: Db, v: Value)
    requires Keyed(s) && s.name in db && !Dead(s, v) && KeyOf(s, v) in db[s.name]
    requires var t, k := db[s.name], KeyOf(s, v);
             && t[k] == Refreshed(s, t[k], v)
             && (forall x :: x in t && x != k ==> !Clash(s, t[k], t[x]))
             && ReferencesHold(inv, s.name, t[k], db)
    ensures Upsert(inv, s, db, v) == Ok(db)
  {
    var k := KeyOf(s, v);
    Lands(inv, s, db, v, db[s.name][k]);
    assert db[s.name][k := db[s.name][k]] == db[s.name];
    assert db[s.name := db[s.name]] == db;
  }

  /** Re-importing a row the table already reflects is accepted and changes nothing. */
  lemma UpsertNoop(inv: Inventory, i: nat, db: Db, v: Value)
    requires WellFormed(inv) && i < |inv.specs| && Sound(inv, db) && inv.specs[i].name in db
    requires v.Obj? && KeyOf(inv.specs[i], v) in db[inv.specs[i].name]
    requires var s := inv.specs[i]; var k := KeyOf(s, v);
             db[s.name][k] == Refreshed(s, db[s.name][k], v)
    requires !Dead(inv.specs[i], v)
    ensures Upsert(inv, inv.specs[i], db, v) == Ok(db)
  {
    var s := inv.specs[i];
    var k := KeyOf(s, v);
    StoredRowFits(inv, i, db, k);
    LandsAgain(inv, s, db, v);
  }

  lemma {:induction false} RowsNoop(inv: Inventory, i: nat, db: Db, rows: seq<Value>)
    requires WellFormed(inv) && i < |inv.specs| && Sound(inv, db) && inv.specs[i].name in db
    requires forall v :: v in rows ==> Reflected(inv.specs[i], db, v)
    ensures UpsertRows(inv, inv.specs[i], db, rows) == Ok(db)
    decreases |rows|
  {
    if rows != [] {
      assert Reflected(inv.specs[i], db, rows[0]);
      UpsertNoop(inv, i, db, rows[0]);
      RowsNoop(inv, i, db, rows[1..]);
    }
  }

  ghost predicate Reflected(s: Spec, db: Db, v: Value) {
    && Keyed(s) && s.name in db
    && v.Obj? && KeyOf(s, v) in db[s.name]
    && db[s.name][KeyOf(s, v)] == Refreshed(s, db[s.name][KeyOf(s, v)], v)
    && !Dead(s, v)
  }

  lemma {:induction false} AcceptedRowsLive(inv: Inventory, s: Spec, db: Db, rows: seq<Value>)
    requires Keyed(s) && s.name in db && UpsertRows(inv, s, db, rows).Ok?
    ensures forall v :: v in rows ==>
              !Dead(s, v)
    decreases |rows|
  {
    if rows != [] {
      AcceptedRowsLive(inv, s, Upsert(inv, s, db, rows[0]).value, rows[1..]);
      assert forall v :: v in rows ==> v == rows[0] || v in rows[1..];
    }
  }

  /** After a table of distinct keys is imported, each of its rows is reflected. */
  lemma ImportedRowsReflected(inv: Inventory, s: Spec, db: Db, rows: seq<Value>, done: Db)
    requires Keyed(s) && s.name in db && s.name in done && UpsertRows(inv, s, db, rows).Ok?
    requires DistinctKeys(s, rows)
    requires done[s.name] == UpsertRows(inv, s, db, rows).value[s.name]
    ensures forall v :: v in rows ==> Reflected(s, done, v)
  {
    RowsArePuts(inv, s, db, rows);
    AcceptedRowsLive(inv, s, db, rows);
    forall v | v in rows ensures Reflected(s, done, v) {
      var i :| 0 <= i < |rows| && rows[i] == v;
      OnlyRowForKey(s, rows, i);
      PutAllSettled(s, db[s.name], rows, KeyOf(s, v));
    }
  }

  lemma {:induction false} MergeAgainFrom(
    inv: Inventory, tables: map<string, seq<Value>>, db: Db, done: Db, i: nat)
    requires WellFormed(inv) && Sound(inv, done) && i <= |inv.specs|
    requires TableNames(inv) <= db.Keys && ApplyTables(inv, tables, db, i) == Ok(done)
    requires AllDistinctKeys(inv, tables)
    ensures ApplyTables(inv, tables, done, i) == Ok(done)
    decreases |inv.specs| - i
  {
    if i < |inv.specs| {
      var s := inv.specs[i];
      assert s.name in TableNames(inv);
      if s.name !in tables {
        MergeAgainFrom(inv, tables, db, done, i + 1);
      } else {
        var d := UpsertRows(inv, s, db, tables[s.name]).value;
        ApplyLeavesEarlier(inv, tables, d, i + 1, i);
        ImportedRowsReflected(inv, s, db, tables[s.name], done);
        RowsNoop(inv, i, done, tables[s.name]);
        MergeAgainFrom(inv, tables, d, done, i + 1);
      }
    }
  }

  /** Without repeated keys the second merge is accepted as well. */
  lemma MergeAgain(inv: Inventory, tables: map<string, seq<Value>>, db: Db)
    requires WellFormed(inv) && Sound(inv, db) && ApplyTables(inv, tables, db, 0).Ok?
    requires AllDistinctKeys(inv, tables)
    ensures var done := ApplyTables(inv, tables, db, 0);
            ApplyTables(inv, tables, done.value, 0) == done
  {
    EveryStateSound(inv, tables, db, 0);
    MergeAgainFrom(inv, tables, db, ApplyTables(inv, tables, db, 0).value, 0);
  }
}
