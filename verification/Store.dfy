/**
  The database side of a restore: tables keyed by the conflict column of their upsert, one upsert
  as PostgreSQL executes it (NOT NULL, uniqueness and foreign keys checked per statement), and the
  application of whole tables in registry order. Everything is stated over any well-formed
  inventory; BackupInventory.dfy supplies the one of the program.
 */
module Store {
  import opened Prelude
  import opened Json

  /**
    One backup table. `columns` is the allow-list, `extra` the stored columns outside it,
    `conflict` the ON CONFLICT column, `kept` the columns its DO UPDATE does not assign, `unique` the
    further UNIQUE columns, and `unknown` the columns its DO UPDATE does assign although the table
    has no such column. `nullable` are the columns without NOT NULL, `json` the JSONB columns, and
    `lists` the arrays the upsert rebuilds, an empty one from NULL.
   */
  datatype Spec = Spec(
    name: string, pk: string, columns: seq<string>,
    extra: seq<string>, conflict: string, kept: set<string>, unique: set<string>,
    unknown: set<string>, nullable: set<string>, json: set<string>, lists: set<string>)

  datatype ForeignKey = ForeignKey(child: string, column: string, parent: string)

  datatype Inventory = Inventory(specs: seq<Spec>, foreignKeys: seq<ForeignKey>)

  /** What a column holds: SQL NULL, or a value. A JSONB column may hold the JSON null. */
  datatype Cell = SqlNull | Of(value: Value)

  type Row = map<string, Cell>
  type Table = map<Cell, Row>
  type Db = map<string, Table>

  datatype DbError =
    UnknownColumn | NotAnObject | NotNullViolation | UniqueViolation | ForeignKeyViolation

  const NULL := SqlNull

  const JSON_NULL := Of(Atom(Null))

  // ---------- the inventory ----------

  function Stored(s: Spec): seq<string> { s.columns + s.extra }

  function TableNames(inv: Inventory): set<string> {
    set i | 0 <= i < |inv.specs| :: inv.specs[i].name
  }

  /** tableByName: the position of a table in the registry. */
  function IndexOfTable(specs: seq<Spec>, name: string): (r: Option<nat>)
    ensures r.Some? ==> r.value < |specs| && specs[r.value].name == name
    ensures r.None? ==> forall i :: 0 <= i < |specs| ==> specs[i].name != name
  {
    if specs == [] then None
    else if specs[|specs| - 1].name == name then Some(|specs| - 1)
    else IndexOfTable(specs[..|specs| - 1], name)
  }

  ghost predicate Distinct<T>(s: seq<T>) {
    forall i, j :: 0 <= i < j < |s| ==> s[i] != s[j]
  }

  predicate Keyed(s: Spec) {
    s.pk in s.columns && s.conflict in s.columns && s.pk !in s.nullable && s.conflict !in s.nullable
  }

  /** The kinds of columns: keys are no JSON, arrays are NOT NULL, and extra columns may be NULL. */
  ghost predicate KindsOk(s: Spec) {
    && s.pk !in s.json + s.lists && s.conflict !in s.json + s.lists
    && s.json !! s.lists && s.nullable !! s.lists
    && (forall c :: c in s.nullable + s.json + s.lists ==> c in Stored(s))
    && (forall c :: c in s.extra ==> c in s.nullable)
  }

  ghost predicate SpecOk(s: Spec) { ColumnsOk(s) && KindsOk(s) }

  ghost predicate ColumnsOk(s: Spec) {
    && Keyed(s)
    && Distinct(Stored(s))
    && s.pk in s.kept && s.conflict in s.kept
    && (forall c :: c in s.kept ==> c in s.columns)
    && (forall c :: c in s.unique ==> c in s.columns)
    && (forall c :: c in s.unknown ==> c !in Stored(s))
  }

  /** Does the upsert of this table name only columns that exist? */
  predicate Executable(s: Spec) { s.unknown == {} }

  /** A foreign key points from the child at `j` to the id of a parent at a smaller position. */
  ghost predicate PointsBack(inv: Inventory, fk: ForeignKey, i: nat, j: nat) {
    && i < j < |inv.specs|
    && inv.specs[i].name == fk.parent && inv.specs[i].conflict == inv.specs[i].pk
    && inv.specs[j].name == fk.child && fk.column in Stored(inv.specs[j])
  }

  ghost predicate DistinctTables(inv: Inventory) {
    forall i, j :: 0 <= i < j < |inv.specs| ==> inv.specs[i].name != inv.specs[j].name
  }

  predicate AllKeyed(inv: Inventory) {
    forall i :: 0 <= i < |inv.specs| ==> Keyed(inv.specs[i])
  }

  ghost predicate WellFormed(inv: Inventory) {
    && DistinctTables(inv)
    && AllKeyed(inv)
    && (forall i :: 0 <= i < |inv.specs| ==> SpecOk(inv.specs[i]))
    && (forall fk :: fk in inv.foreignKeys ==> exists i: nat, j: nat :: PointsBack(inv, fk, i, j))
  }

  // ---------- database invariants ----------

  ghost predicate RowFits(s: Spec, key: Cell, row: Row) {
    && (forall c :: c in row <==> c in Stored(s))
    && s.conflict in row && s.pk in row
    && row[s.conflict] == key
    && key != NULL && row[s.pk] != NULL
    && (forall c :: c in row && row[c] == NULL ==> c in s.nullable)
    && (forall c :: c in row && row[c] == JSON_NULL ==> c in s.json)
  }

  predicate Clash(s: Spec, a: Row, b: Row) {
    exists c :: c in s.unique && c in a && c in b && a[c] != NULL && a[c] == b[c]
  }

  ghost predicate TableFits(s: Spec, t: Table) {
    && (forall k :: k in t ==> RowFits(s, k, t[k]))
    && (forall k, k' :: k in t && k' in t && k != k' ==> !Clash(s, t[k], t[k']))
  }

  ghost predicate DbFits(inv: Inventory, db: Db) {
    && db.Keys == TableNames(inv)
    && forall i :: 0 <= i < |inv.specs| ==> TableFits(inv.specs[i], db[inv.specs[i].name])
  }

  predicate Refers(fk: ForeignKey, row: Row, db: Db) {
    fk.column in row && row[fk.column] != NULL ==> fk.parent in db && row[fk.column] in db[fk.parent]
  }

  ghost predicate FksHold(inv: Inventory, db: Db) {
    forall fk, k :: fk in inv.foreignKeys && fk.child in db && k in db[fk.child]
      ==> Refers(fk, db[fk.child][k], db)
  }

  function Empty(inv: Inventory): Db {
    map n | n in TableNames(inv) :: map[]
  }

  // ---------- one upsert ----------

  /** jsonb_to_record: the JSON null is read as NULL, from which an array column makes an empty one. */
  function Received(s: Spec, c: string, v: Value): (cell: Cell)
    ensures cell != JSON_NULL
  {
    if v != Atom(Null) then Of(v) else if c in s.lists then Of(Arr([])) else NULL
  }

  /** Allow-listed columns are read from the object, an absent one like a null; others are NULL. */
  function Incoming(s: Spec, fs: seq<Field>): (row: Row)
    ensures forall c :: c in row <==> c in Stored(s)
    ensures forall c :: c in row ==> row[c] != JSON_NULL
  {
    map c | c in Stored(s) ::
      if c in s.columns
      then Received(s, c, if c in Names(fs) then LastField(fs, c).value else Atom(Null))
      else NULL
  }

  /** Every NOT NULL column of the statement gets a value. */
  predicate Complete(s: Spec, incoming: Row) {
    forall c :: c in s.columns ==> c in incoming && (incoming[c] == NULL ==> c in s.nullable)
  }

  function Updated(s: Spec, old_: Row, incoming: Row): (row: Row)
    ensures row.Keys == old_.Keys
  {
    map c | c in old_ ::
      if c in s.columns && c !in s.kept && c in incoming then incoming[c] else old_[c]
  }

  /** The row a conflict-free or conflicting INSERT leaves behind. */
  function Landed(s: Spec, t: Table, incoming: Row): Row
    requires s.conflict in incoming
  {
    var key := incoming[s.conflict];
    if key in t then Updated(s, t[key], incoming) else incoming
  }

  /**
    The statement is analysed before it is executed: an unknown column fails it on every row. NOT
    NULL is checked before a conflict is looked for.
   */
  function Upsert(inv: Inventory, s: Spec, db: Db, v: Value): (r: Result<Db, DbError>)
    requires Keyed(s) && s.name in db
  {
    if !Executable(s) then Err(UnknownColumn)
    else if !v.Obj? then Err(NotAnObject)
    else
      var incoming := Incoming(s, v.fields);
      var key := incoming[s.conflict];
      if !Complete(s, incoming) then Err(NotNullViolation)
      else
        var t := db[s.name];
        var row := Landed(s, t, incoming);
        if exists k :: k in t && k != key && Clash(s, row, t[k]) then Err(UniqueViolation)
        else if exists fk :: fk in inv.foreignKeys && fk.child == s.name && !Refers(fk, row, db)
        then Err(ForeignKeyViolation)
        else Ok(db[s.name := t[key := row]])
  }

  function UpsertRows(inv: Inventory, s: Spec, db: Db, rows: seq<Value>): (r: Result<Db, DbError>)
    requires Keyed(s) && s.name in db
    ensures r.Ok? ==> r.value.Keys == db.Keys
  {
    if rows == [] then Ok(db)
    else match Upsert(inv, s, db, rows[0])
      case Err(e) => Err(e)
      case Ok(d) => UpsertRows(inv, s, d, rows[1..])
  }

  /** applyBackupTables from position `i` on: registry order, absent tables skipped. */
  function ApplyTables(inv: Inventory, tables: map<string, seq<Value>>, db: Db, i: nat)
    : (r: Result<Db, DbError>)
    requires AllKeyed(inv) && i <= |inv.specs| && TableNames(inv) <= db.Keys
    ensures r.Ok? ==> r.value.Keys == db.Keys
    decreases |inv.specs| - i
  {
    if i == |inv.specs| then Ok(db)
    else
      var s := inv.specs[i];
      assert s.name in TableNames(inv);
      if s.name !in tables then ApplyTables(inv, tables, db, i + 1)
      else match UpsertRows(inv, s, db, tables[s.name])
        case Err(e) => Err(e)
        case Ok(d) => ApplyTables(inv, tables, d, i + 1)
  }

  // ---------- what one upsert keeps ----------

  /** No statement ever removes a row. */
  ghost predicate Grows(a: Db, b: Db) {
    a.Keys == b.Keys && forall n :: n in a ==> a[n].Keys <= b[n].Keys
  }

  lemma UpsertGrows(inv: Inventory, s: Spec, db: Db, v: Value)
    requires Keyed(s) && s.name in db && Upsert(inv, s, db, v).Ok?
    ensures Grows(db, Upsert(inv, s, db, v).value)
    ensures forall n :: n in db && n != s.name ==> Upsert(inv, s, db, v).value[n] == db[n]
  {
  }

  lemma UpsertKeepsFit(inv: Inventory, i: nat, db: Db, v: Value)
    requires WellFormed(inv) && DbFits(inv, db) && i < |inv.specs|
    requires inv.specs[i].name in db && Upsert(inv, inv.specs[i], db, v).Ok?
    ensures DbFits(inv, Upsert(inv, inv.specs[i], db, v).value)
  {
    var s := inv.specs[i];
    var t := db[s.name];
    var incoming := Incoming(s, v.fields);
    var key := incoming[s.conflict];
    var row := Landed(s, t, incoming);
    var t' := t[key := row];
    assert s.conflict in Stored(s) && s.pk in Stored(s);
    assert RowFits(s, key, row);
    forall k, k' | k in t' && k' in t' && k != k' ensures !Clash(s, t'[k], t'[k']) {
      if k == key {
        assert !Clash(s, row, t[k']);
      } else if k' == key {
        assert !Clash(s, row, t[k]);
      }
    }
    assert TableFits(s, t');
  }

  lemma UpsertKeepsFks(inv: Inventory, i: nat, db: Db, v: Value)
    requires WellFormed(inv) && i < |inv.specs| && FksHold(inv, db)
    requires inv.specs[i].name in db && Upsert(inv, inv.specs[i], db, v).Ok?
    ensures FksHold(inv, Upsert(inv, inv.specs[i], db, v).value)
  {
    var s := inv.specs[i];
    var after := Upsert(inv, s, db, v).value;
    UpsertGrows(inv, s, db, v);
    forall fk, k | fk in inv.foreignKeys && fk.child in after && k in after[fk.child]
      ensures Refers(fk, after[fk.child][k], after)
    {
      var row := after[fk.child][k];
      if fk.child != s.name || (k in db[s.name] && db[s.name][k] == row) {
        assert Refers(fk, db[fk.child][k], db);
      } else {
        assert Refers(fk, row, db);
      }
    }
  }

  // ---------- order safety ----------

  /** The states a restore passes through: the start, then one state per successful upsert. */
  function RowStates(inv: Inventory, s: Spec, db: Db, rows: seq<Value>): seq<Db>
    requires Keyed(s) && s.name in db
  {
    [db] + if rows == [] then []
           else match Upsert(inv, s, db, rows[0])
             case Err(_) => []
             case Ok(d) => RowStates(inv, s, d, rows[1..])
  }

  function States(inv: Inventory, tables: map<string, seq<Value>>, db: Db, i: nat): seq<Db>
    requires AllKeyed(inv) && i <= |inv.specs| && TableNames(inv) <= db.Keys
    decreases |inv.specs| - i
  {
    if i == |inv.specs| then [db]
    else
      var s := inv.specs[i];
      assert s.name in TableNames(inv);
      if s.name !in tables then States(inv, tables, db, i + 1)
      else RowStates(inv, s, db, tables[s.name]) +
           match UpsertRows(inv, s, db, tables[s.name])
           case Err(_) => []
           case Ok(d) => States(inv, tables, d, i + 1)
  }

  ghost predicate Sound(inv: Inventory, db: Db) {
    DbFits(inv, db) && FksHold(inv, db)
  }

  lemma {:induction false} RowStatesSound(inv: Inventory, i: nat, db: Db, rows: seq<Value>)
    requires WellFormed(inv) && i < |inv.specs| && inv.specs[i].name in db && Sound(inv, db)
    ensures forall d :: d in RowStates(inv, inv.specs[i], db, rows) ==> Sound(inv, d)
    ensures var r := UpsertRows(inv, inv.specs[i], db, rows); r.Ok? ==> Sound(inv, r.value)
    decreases |rows|
  {
    if rows != [] {
      var r := Upsert(inv, inv.specs[i], db, rows[0]);
      if r.Ok? {
        UpsertKeepsFit(inv, i, db, rows[0]);
        UpsertKeepsFks(inv, i, db, rows[0]);
        RowStatesSound(inv, i, r.value, rows[1..]);
      }
    }
  }

  ghost predicate AllSound(inv: Inventory, states: seq<Db>) {
    forall d :: d in states ==> Sound(inv, d)
  }

  lemma AllSoundAppend(inv: Inventory, a: seq<Db>, b: seq<Db>)
    requires AllSound(inv, a) && AllSound(inv, b)
    ensures AllSound(inv, a + b)
  {
    forall d | d in a + b ensures Sound(inv, d) {
      assert d in a || d in b;
    }
  }

  /** Whatever the envelope holds, every state between two upserts satisfies every constraint. */
  lemma {:induction false} EveryStateSound(
    inv: Inventory, tables: map<string, seq<Value>>, db: Db, i: nat)
    requires WellFormed(inv) && i <= |inv.specs| && Sound(inv, db)
    ensures AllSound(inv, States(inv, tables, db, i))
    ensures var r := ApplyTables(inv, tables, db, i); r.Ok? ==> Sound(inv, r.value)
    decreases |inv.specs| - i
  {
    if i < |inv.specs| {
      var s := inv.specs[i];
      assert s.name in TableNames(inv);
      if s.name !in tables {
        EveryStateSound(inv, tables, db, i + 1);
      } else {
        RowStatesSound(inv, i, db, tables[s.name]);
        var before := RowStates(inv, s, db, tables[s.name]);
        var r := UpsertRows(inv, s, db, tables[s.name]);
        assert AllSound(inv, before);
        if r.Ok? {
          EveryStateSound(inv, tables, r.value, i + 1);
          AllSoundAppend(inv, before, States(inv, tables, r.value, i + 1));
        } else {
          AllSoundAppend(inv, before, []);
        }
      }
    }
  }

  /** No state is left out: what any number of accepted rows has made of the table is among them. */
  lemma {:induction false} RowStatesAll(inv: Inventory, s: Spec, db: Db, rows: seq<Value>, k: nat)
    requires Keyed(s) && s.name in db && k <= |rows| && UpsertRows(inv, s, db, rows[..k]).Ok?
    ensures UpsertRows(inv, s, db, rows[..k]).value in RowStates(inv, s, db, rows)
    decreases k
  {
    if k > 0 {
      var d := Upsert(inv, s, db, rows[0]).value;
      assert rows[..k][0] == rows[0] && rows[..k][1..] == rows[1..][..k - 1];
      RowStatesAll(inv, s, d, rows[1..], k - 1);
    }
  }

  /** The import of the tables from position `i` up to, but not including, position `p`. */
  function ApplyUpTo(inv: Inventory, tables: map<string, seq<Value>>, db: Db, i: nat, p: nat)
    : (r: Result<Db, DbError>)
    requires AllKeyed(inv) && i <= p <= |inv.specs| && TableNames(inv) <= db.Keys
    ensures r.Ok? ==> r.value.Keys == db.Keys
    decreases p - i
  {
    if i == p then Ok(db)
    else
      var s := inv.specs[i];
      assert s.name in TableNames(inv);
      if s.name !in tables then ApplyUpTo(inv, tables, db, i + 1, p)
      else match UpsertRows(inv, s, db, tables[s.name])
        case Err(e) => Err(e)
        case Ok(d) => ApplyUpTo(inv, tables, d, i + 1, p)
  }

  /** The same for the whole import: whole tables before position `p` and `k` rows of that table. */
  lemma {:induction false} StatesAll(
    inv: Inventory, tables: map<string, seq<Value>>, db: Db, i: nat, p: nat, k: nat)
    requires AllKeyed(inv) && i <= p < |inv.specs| && TableNames(inv) <= db.Keys
    requires ApplyUpTo(inv, tables, db, i, p).Ok? && inv.specs[p].name in tables
    requires inv.specs[p].name in db && k <= |tables[inv.specs[p].name]|
    ensures var s, d := inv.specs[p], ApplyUpTo(inv, tables, db, i, p).value;
            var r := UpsertRows(inv, s, d, tables[s.name][..k]);
            r.Ok? ==> r.value in States(inv, tables, db, i)
    decreases p - i
  {
    var s := inv.specs[i];
    assert s.name in TableNames(inv);
    if i == p {
      if UpsertRows(inv, s, db, tables[s.name][..k]).Ok? {
        RowStatesAll(inv, s, db, tables[s.name], k);
      }
    } else if s.name !in tables {
      StatesAll(inv, tables, db, i + 1, p, k);
    } else {
      StatesAll(inv, tables, UpsertRows(inv, s, db, tables[s.name]).value, i + 1, p, k);
    }
  }

  /** The conflict value an envelope row carries. */
  function KeyOf(s: Spec, v: Value): Cell
    requires Keyed(s)
  {
    if v.Obj? then Incoming(s, v.fields)[s.conflict] else NULL
  }

  /** `x` names a row of the parent table, either live or in the envelope. */
  ghost predicate Known(
    inv: Inventory, tables: map<string, seq<Value>>, db: Db, parent: Spec, x: Cell)
    requires SpecOk(parent)
  {
    || (parent.name in db && x in db[parent.name])
    || (parent.name in tables && exists v :: v in tables[parent.name] && KeyOf(parent, v) == x)
  }

  /** Every reference of an envelope row is NULL, live, or satisfied inside the envelope. */
  ghost predicate Closed(inv: Inventory, tables: map<string, seq<Value>>, db: Db)
    requires WellFormed(inv)
  {
    forall fk, i: nat, j: nat, v ::
      fk in inv.foreignKeys && PointsBack(inv, fk, i, j)
      && fk.child in tables && v in tables[fk.child] && v.Obj?
      ==> var x := Incoming(inv.specs[j], v.fields)[fk.column];
          x == NULL || Known(inv, tables, db, inv.specs[i], x)
  }

  /** Tables before position `i` already hold every row the envelope has for them. */
  ghost predicate Loaded(inv: Inventory, tables: map<string, seq<Value>>, db: Db, i: nat)
    requires WellFormed(inv)
  {
    forall p, v :: 0 <= p < i && p < |inv.specs| && inv.specs[p].name in tables
      && v in tables[inv.specs[p].name]
      ==> inv.specs[p].name in db && KeyOf(inv.specs[p], v) in db[inv.specs[p].name]
  }

  /** References of the child at `j` into envelope or old rows resolve in the current state. */
  ghost predicate Resolves(inv: Inventory, j: nat, db: Db, v: Value)
    requires WellFormed(inv) && j < |inv.specs|
  {
    v.Obj? ==>
      (forall fk :: fk in inv.foreignKeys && fk.child == inv.specs[j].name
        ==> Refers(fk, Incoming(inv.specs[j], v.fields), db))
  }

  lemma ClosedResolves(
    inv: Inventory, tables: map<string, seq<Value>>, db0: Db, db: Db, j: nat, v: Value)
    requires WellFormed(inv) && j < |inv.specs| && Closed(inv, tables, db0)
    requires db.Keys == TableNames(inv) && Grows(db0, db) && Loaded(inv, tables, db, j)
    requires inv.specs[j].name in tables && v in tables[inv.specs[j].name]
    ensures Resolves(inv, j, db, v)
  {
    if v.Obj? {
      forall fk | fk in inv.foreignKeys && fk.child == inv.specs[j].name
        ensures Refers(fk, Incoming(inv.specs[j], v.fields), db)
      {
        var i: nat, j': nat :| PointsBack(inv, fk, i, j');
        assert j' == j;
        var x := Incoming(inv.specs[j], v.fields)[fk.column];
        if x != NULL {
          assert Known(inv, tables, db0, inv.specs[i], x);
        }
      }
    }
  }

  /** A resolving row is never refused for a foreign key, insert or update alike. */
  lemma ResolvingRowLands(inv: Inventory, j: nat, db: Db, v: Value)
    requires WellFormed(inv) && j < |inv.specs| && inv.specs[j].name in db
    requires FksHold(inv, db) && Resolves(inv, j, db, v)
    ensures Upsert(inv, inv.specs[j], db, v) != Err(ForeignKeyViolation)
    ensures var r := Upsert(inv, inv.specs[j], db, v);
            r.Ok? ==> KeyOf(inv.specs[j], v) in r.value[inv.specs[j].name]
  {
    var s := inv.specs[j];
    if v.Obj? {
      var incoming := Incoming(s, v.fields);
      var t := db[s.name];
      var row := Landed(s, t, incoming);
      forall fk | fk in inv.foreignKeys && fk.child == s.name
        ensures Refers(fk, row, db)
      {
        assert Refers(fk, incoming, db);
        if incoming[s.conflict] in t {
          assert Refers(fk, t[incoming[s.conflict]], db);
        }
      }
    }
  }

  ghost predicate HasKeys(s: Spec, db: Db, rows: seq<Value>)
    requires SpecOk(s)
  {
    s.name in db && forall v :: v in rows ==> KeyOf(s, v) in db[s.name]
  }

  lemma {:induction false} ClosedRowsLand(inv: Inventory, j: nat, db: Db, rows: seq<Value>)
    requires WellFormed(inv) && j < |inv.specs| && inv.specs[j].name in db
    requires Sound(inv, db) && forall v :: v in rows ==> Resolves(inv, j, db, v)
    ensures var r := UpsertRows(inv, inv.specs[j], db, rows);
            && r != Err(ForeignKeyViolation)
            && (r.Ok? ==> Grows(db, r.value) && HasKeys(inv.specs[j], r.value, rows))
    decreases |rows|
  {
    if rows != [] {
      var s := inv.specs[j];
      assert rows[0] in rows;
      ResolvingRowLands(inv, j, db, rows[0]);
      var r := Upsert(inv, s, db, rows[0]);
      if r.Ok? {
        UpsertGrows(inv, s, db, rows[0]);
        UpsertKeepsFit(inv, j, db, rows[0]);
        UpsertKeepsFks(inv, j, db, rows[0]);
        forall v | v in rows[1..] ensures Resolves(inv, j, r.value, v) {
          assert v in rows;
          ResolvesGrows(inv, j, db, r.value, v);
        }
        ClosedRowsLand(inv, j, r.value, rows[1..]);
        assert forall v :: v in rows ==> v == rows[0] || v in rows[1..];
      }
    }
  }

  lemma ResolvesGrows(inv: Inventory, j: nat, a: Db, b: Db, v: Value)
    requires WellFormed(inv) && j < |inv.specs| && Grows(a, b) && Resolves(inv, j, a, v)
    ensures Resolves(inv, j, b, v)
  {
    if v.Obj? {
      forall fk | fk in inv.foreignKeys && fk.child == inv.specs[j].name
        ensures Refers(fk, Incoming(inv.specs[j], v.fields), b)
      {
        assert Refers(fk, Incoming(inv.specs[j], v.fields), a);
      }
    }
  }

  lemma LoadedAdvance(inv: Inventory, tables: map<string, seq<Value>>, a: Db, b: Db, i: nat)
    requires WellFormed(inv) && i < |inv.specs| && Loaded(inv, tables, a, i) && Grows(a, b)
    requires inv.specs[i].name in tables ==> HasKeys(inv.specs[i], b, tables[inv.specs[i].name])
    ensures Loaded(inv, tables, b, i + 1)
  {
  }

  lemma {:induction false} ClosedFrom(
    inv: Inventory, tables: map<string, seq<Value>>, db0: Db, db: Db, i: nat)
    requires WellFormed(inv) && i <= |inv.specs| && Sound(inv, db)
    requires Closed(inv, tables, db0) && Grows(db0, db) && Loaded(inv, tables, db, i)
    ensures ApplyTables(inv, tables, db, i) != Err(ForeignKeyViolation)
    decreases |inv.specs| - i
  {
    if i < |inv.specs| {
      var s := inv.specs[i];
      assert s.name in TableNames(inv);
      if s.name !in tables {
        LoadedAdvance(inv, tables, db, db, i);
        ClosedFrom(inv, tables, db0, db, i + 1);
      } else {
        forall v | v in tables[s.name] ensures Resolves(inv, i, db, v) {
          ClosedResolves(inv, tables, db0, db, i, v);
        }
        ClosedRowsLand(inv, i, db, tables[s.name]);
        RowStatesSound(inv, i, db, tables[s.name]);
        var r := UpsertRows(inv, s, db, tables[s.name]);
        if r.Ok? {
          LoadedAdvance(inv, tables, db, r.value, i);
          ClosedFrom(inv, tables, db0, r.value, i + 1);
        }
      }
    }
  }

  /** In registry order a closed envelope never trips a foreign key, whatever order its file has. */
  lemma ClosedNeverViolates(inv: Inventory, tables: map<string, seq<Value>>, db: Db)
    requires WellFormed(inv) && Sound(inv, db) && Closed(inv, tables, db)
    ensures ApplyTables(inv, tables, db, 0) != Err(ForeignKeyViolation)
  {
    ClosedFrom(inv, tables, db, db, 0);
  }
}
