/**
  The restore drill: a scratch schema next to public, a copy of the live rows written through the
  restore's own upserts, and a comparison of digests. Tables are values of an arbitrary type T that
  `upsert` changes and `select` lists; every statement may fail, when `faults` says so.
 */
module Drill {
  import opened Prelude
  import opened ForeignKeyText
  import opened Digest

  datatype Name = Name(schema: string, table: string)

  datatype FkKey = FkKey(schema: string, child: string, name: string)

  const PUBLIC := "public"

  // ---------- schema names ----------

  const SCRATCH_PREFIX := "backup_drill_"

  predicate IsHex(c: char) { '0' <= c <= '9' || 'a' <= c <= 'f' }

  /** The pattern the schema name is checked against before it enters any statement. */
  predicate ValidSchema(s: string) {
    && |s| == |SCRATCH_PREFIX| + 16 && s[..|SCRATCH_PREFIX|] == SCRATCH_PREFIX
    && forall i :: |SCRATCH_PREFIX| <= i < |s| ==> IsHex(s[i])
  }

  lemma ValidSchemaIsPlain(s: string)
    requires ValidSchema(s)
    ensures s != PUBLIC && Plain(s)
  {
    assert s == SCRATCH_PREFIX + s[|SCRATCH_PREFIX|..];
    assert Plain(SCRATCH_PREFIX);
  }

  // ---------- states ----------

  ghost predicate DataOutside<T>(schema: string, d: map<Name, T>, d': map<Name, T>) {
    forall n: Name :: n.schema != schema ==> (n in d <==> n in d') && (n in d ==> d'[n] == d[n])
  }

  ghost predicate KeysOutside(schema: string, f: map<FkKey, Ref>, f': map<FkKey, Ref>) {
    forall k: FkKey :: k.schema != schema ==> (k in f <==> k in f') && (k in f ==> f'[k] == f[k])
  }

  /** Nothing outside one schema differs. */
  ghost predicate OutsideSame<T>(
    schema: string, d: map<Name, T>, f: map<FkKey, Ref>, d': map<Name, T>, f': map<FkKey, Ref>)
  {
    DataOutside(schema, d, d') && KeysOutside(schema, f, f')
  }

  ghost predicate NoPublicRefs(schema: string, fks: map<FkKey, Ref>) {
    forall k :: k in fks && k.schema == schema ==> fks[k].parentSchema != PUBLIC
  }

  function Twin(schema: string, k: FkKey): FkKey { FkKey(schema, k.child, k.name) }

  /** The scratch counterpart of one public foreign key: same columns, parent in scratch. */
  ghost predicate HasTwin(schema: string, fks: map<FkKey, Ref>, k: FkKey)
    requires k in fks
  {
    var t := Twin(schema, k);
    t in fks && fks[t] == fks[k].(parentSchema := schema)
  }

  ghost predicate Twins(schema: string, fks: map<FkKey, Ref>) {
    forall k :: k in fks && k.schema == PUBLIC ==> HasTwin(schema, fks, k)
  }

  /** The foreign keys of a schema whose parent is in public. */
  function PointingAt(schema: string, f: map<FkKey, Ref>): set<FkKey> {
    set k | k in f && k.schema == schema && f[k].parentSchema == PUBLIC
  }

  function OwnKeys(schema: string, f: map<FkKey, Ref>): set<FkKey> {
    set k | k in f && k.schema == schema
  }

  /** The catalog without the foreign keys that point from scratch into public. */
  function Detached(schema: string, f: map<FkKey, Ref>): map<FkKey, Ref> {
    map k | k in f && !(k.schema == schema && f[k].parentSchema == PUBLIC) :: f[k]
  }

  function PublicKeys(f: map<FkKey, Ref>): set<FkKey> { set k | k in f && k.schema == PUBLIC }

  function Origin(t: FkKey): FkKey { FkKey(PUBLIC, t.child, t.name) }

  function TwinNames(schema: string, keys: set<FkKey>): set<FkKey> { set k | k in keys :: Twin(schema, k) }

  /** The catalog with a retargeted copy of some of its foreign keys. */
  function Twinned(schema: string, f: map<FkKey, Ref>, keys: set<FkKey>): map<FkKey, Ref> {
    f + map t | t in TwinNames(schema, keys) && Origin(t) in f :: f[Origin(t)].(parentSchema := schema)
  }

  /** The catalog with a retargeted copy of every public foreign key. */
  function WithTwins(schema: string, f: map<FkKey, Ref>): map<FkKey, Ref> {
    Twinned(schema, f, PublicKeys(f))
  }

  lemma TwinsComplete(schema: string, f: map<FkKey, Ref>)
    requires schema != PUBLIC
    ensures Twins(schema, WithTwins(schema, f))
    ensures NoPublicRefs(schema, f) ==> NoPublicRefs(schema, WithTwins(schema, f))
  {
    var f' := WithTwins(schema, f);
    forall k | k in f' && k.schema == PUBLIC ensures HasTwin(schema, f', k) {
      assert Origin(Twin(schema, k)) == k;
      assert Twin(schema, k) in f';
    }
  }

  /** What the server renders of the public foreign keys can be retargeted. */
  ghost predicate ClearKeys(fks: map<FkKey, Ref>, qualify: bool) {
    forall k :: k in fks && k.schema == PUBLIC ==> Clear(fks[k], qualify)
  }

  lemma SameRenderings(schema: string, qualify: bool, f: map<FkKey, Ref>, f': map<FkKey, Ref>)
    requires schema != PUBLIC && KeysOutside(schema, f, f')
    ensures PublicKeys(f') == PublicKeys(f)
    ensures ClearKeys(f, qualify) ==> ClearKeys(f', qualify)
  {
    forall k: FkKey | k.schema == PUBLIC ensures (k in f <==> k in f') && (k in f ==> f'[k] == f[k]) {
    }
  }

  lemma DataChain<T>(schema: string, d: map<Name, T>, d1: map<Name, T>, d2: map<Name, T>)
    requires DataOutside(schema, d, d1) && DataOutside(schema, d1, d2)
    ensures DataOutside(schema, d, d2)
  {
  }

  lemma OutsideChain<T>(
    schema: string, d: map<Name, T>, f: map<FkKey, Ref>, d1: map<Name, T>, f1: map<FkKey, Ref>,
    d2: map<Name, T>, f2: map<FkKey, Ref>)
    requires OutsideSame(schema, d, f, d1, f1) && OutsideSame(schema, d1, f1, d2, f2)
    ensures OutsideSame(schema, d, f, d2, f2)
  {
  }

  lemma KeysChain(schema: string, f: map<FkKey, Ref>, f1: map<FkKey, Ref>, f2: map<FkKey, Ref>)
    requires KeysOutside(schema, f, f1) && KeysOutside(schema, f1, f2)
    ensures KeysOutside(schema, f, f2)
  {
  }

  lemma TwinCount(schema: string, keys: set<FkKey>)
    requires forall k :: k in keys ==> k.schema == PUBLIC
    ensures |TwinNames(schema, keys)| == |keys|
  {
    if keys == {} {
      assert TwinNames(schema, keys) == {};
    } else {
      var k :| k in keys;
      TwinCount(schema, keys - {k});
      assert Origin(Twin(schema, k)) == k;
      assert TwinNames(schema, keys) == TwinNames(schema, keys - {k}) + {Twin(schema, k)};
      assert Twin(schema, k) !in TwinNames(schema, keys - {k});
    }
  }

  lemma SubsetSize<K>(a: set<K>, b: set<K>)
    requires a <= b
    ensures |a| <= |b|
  {
    assert b == a + (b - a);
  }

  /** After the rewriting: no scratch key into public, a twin for each public key, so enough of them. */
  lemma RewrittenKeys(
    copies: string -> map<string, Ref>, schema: string, tables: seq<string>, f: map<FkKey, Ref>)
    requires schema != PUBLIC
    ensures var f' := Rewritten(copies, schema, tables, f);
            && NoPublicRefs(schema, f') && Twins(schema, f') && |OwnKeys(schema, f')| >= |PublicKeys(f)|
  {
    var before := Detached(schema, Copies(copies, schema, tables, f));
    PublicStays(copies, schema, tables, f);
    TwinsComplete(schema, before);
    TwinCount(schema, PublicKeys(f));
    TwinsAreOwn(schema, before);
    SubsetSize(TwinNames(schema, PublicKeys(f)), OwnKeys(schema, WithTwins(schema, before)));
  }

  lemma PublicStays(
    copies: string -> map<string, Ref>, schema: string, tables: seq<string>, f: map<FkKey, Ref>)
    requires schema != PUBLIC
    ensures PublicKeys(Detached(schema, Copies(copies, schema, tables, f))) == PublicKeys(f)
  {
    CopiesOutside(copies, schema, tables, f);
    var before := Detached(schema, Copies(copies, schema, tables, f));
    forall k: FkKey | k.schema == PUBLIC ensures k in before <==> k in f {
    }
  }

  lemma TwinsAreOwn(schema: string, f: map<FkKey, Ref>)
    requires schema != PUBLIC && Twins(schema, WithTwins(schema, f))
    ensures TwinNames(schema, PublicKeys(f)) <= OwnKeys(schema, WithTwins(schema, f))
  {
    forall t | t in TwinNames(schema, PublicKeys(f)) ensures t in OwnKeys(schema, WithTwins(schema, f)) {
      var k :| k in PublicKeys(f) && t == Twin(schema, k);
      assert HasTwin(schema, WithTwins(schema, f), k);
    }
  }

  datatype Stats = Stats(inspected: nat, dropped: nat, added: nat, declared: nat)

  datatype TableResult = TableResult(
    name: string, sourceRows: nat, targetRows: nat, sourceDigest: string, targetDigest: string,
    verified: bool)

  datatype DrillResult = DrillResult(stats: Stats, entries: seq<TableResult>, total: nat, passed: bool)

  const NO_STATS := Stats(0, 0, 0, 0)

  function Resolve<T>(path: seq<string>, table: string, data: map<Name, T>): Option<Name> {
    if path == [] then None
    else if Name(path[0], table) in data then Some(Name(path[0], table))
    else Resolve(path[1..], table, data)
  }

  /** What upserting rows one by one makes of a table, None if one of them is refused. */
  function Imported<T>(upsert: (string, T, string) -> Option<T>, table: string, t: T, rows: seq<string>)
    : Option<T>
  {
    if rows == [] then Some(t)
    else
      var n := |rows| - 1;
      var before := Imported(upsert, table, t, rows[..n]);
      if before.None? then None else upsert(table, before.value, rows[n])
  }

  /** The foreign keys a clone of one table brings along. */
  function CopiedKeys(copies: string -> map<string, Ref>, schema: string, table: string): map<FkKey, Ref> {
    var copied := copies(table);
    map k | k in (set c | c in copied :: FkKey(schema, table, c)) && k.name in copied :: copied[k.name]
  }

  ghost predicate Distinct(tables: seq<string>) {
    forall i, j :: 0 <= i < j < |tables| ==> tables[i] != tables[j]
  }

  /** Every table has an empty clone in scratch and an original in public. */
  ghost predicate Cloned<T>(schema: string, tables: seq<string>, blank: T, data: map<Name, T>) {
    && Distinct(tables)
    && forall i :: 0 <= i < |tables| ==>
         && Name(PUBLIC, tables[i]) in data && Name(schema, tables[i]) in data
         && data[Name(schema, tables[i])] == blank
  }

  /** The data and the catalog once every table has its clone. */
  function Clones<T>(schema: string, tables: seq<string>, blank: T, data: map<Name, T>)
    : (d: map<Name, T>)
    ensures forall n: Name :: n in d <==> n in data || (n.schema == schema && n.table in tables)
    ensures forall n: Name :: n in d ==>
              d[n] == if n.schema == schema && n.table in tables then blank else data[n]
  {
    data + map n | n in CloneNames(schema, tables) :: blank
  }

  function CloneNames(schema: string, tables: seq<string>): set<Name> {
    set t | t in tables :: Name(schema, t)
  }

  function Copies(copies: string -> map<string, Ref>, schema: string, tables: seq<string>, f: map<FkKey, Ref>)
    : map<FkKey, Ref>
  {
    if tables == [] then f
    else
      var n := |tables| - 1;
      Copies(copies, schema, tables[..n], f) + CopiedKeys(copies, schema, tables[n])
  }

  /** The tables are different, each is in public and none in the schema. */
  ghost predicate Clonable<T>(schema: string, tables: seq<string>, data: map<Name, T>) {
    && Distinct(tables)
    && forall t :: t in tables ==> Name(PUBLIC, t) in data && Name(schema, t) !in data
  }

  /** A public foreign key can get its twin: parent in public, no such name yet, both tables there. */
  predicate Addable<T>(schema: string, data: map<Name, T>, f: map<FkKey, Ref>, k: FkKey)
    requires k in f
  {
    && f[k].parentSchema == PUBLIC && Twin(schema, k) !in f
    && Name(schema, k.child) in data && Name(schema, f[k].parent) in data
  }

  ghost predicate AllAddable<T>(
    schema: string, data: map<Name, T>, f: map<FkKey, Ref>, keys: set<FkKey>)
  {
    forall k :: k in keys ==> k in f && Addable(schema, data, f, k)
  }

  ghost predicate Retargetable<T>(schema: string, data: map<Name, T>, f: map<FkKey, Ref>) {
    AllAddable(schema, data, f, PublicKeys(f))
  }

  /** The catalog after the clones and the rewriting of foreign keys. */
  function Rewritten(
    copies: string -> map<string, Ref>, schema: string, tables: seq<string>, f: map<FkKey, Ref>)
    : map<FkKey, Ref>
  {
    WithTwins(schema, Detached(schema, Copies(copies, schema, tables, f)))
  }

  /** The schema is valid and new, every table can be cloned, and every public foreign key retargeted. */
  ghost predicate CanPrepare<T>(
    schema: string, tables: seq<string>, blank: T, copies: string -> map<string, Ref>,
    schemas: set<string>, data: map<Name, T>, f: map<FkKey, Ref>)
  {
    && ValidSchema(schema) && schema !in schemas && Clonable(schema, tables, data)
    && Retargetable(schema, Clones(schema, tables, blank, data),
                    Detached(schema, Copies(copies, schema, tables, f)))
  }

  /** One scratch table is what the upserts make of the rows listed in public. */
  ghost predicate LoadedTable<T>(
    upsert: (string, T, string) -> Option<T>, select: (string, T) -> seq<string>, blank: T,
    schema: string, table: string, data: map<Name, T>)
  {
    && Name(PUBLIC, table) in data && Name(schema, table) in data
    && Imported(upsert, table, blank, select(table, data[Name(PUBLIC, table)]))
       == Some(data[Name(schema, table)])
  }

  /** The public rows of a table are upserted into an empty clone one by one and none is refused. */
  ghost predicate Accepted<T>(
    upsert: (string, T, string) -> Option<T>, select: (string, T) -> seq<string>, blank: T,
    data: map<Name, T>, table: string)
  {
    && Name(PUBLIC, table) in data
    && Imported(upsert, table, blank, select(table, data[Name(PUBLIC, table)])).Some?
  }

  /** And what is read back from that clone has the count and the digest of the public rows. */
  ghost predicate Survives<T>(
    upsert: (string, T, string) -> Option<T>, select: (string, T) -> seq<string>, blank: T,
    hash: Hash, data: map<Name, T>, table: string)
  {
    && Accepted(upsert, select, blank, data, table)
    && var rows := select(table, data[Name(PUBLIC, table)]);
       var back := select(table, Imported(upsert, table, blank, rows).value);
       |back| == |rows| && hash(Fed(back)) == hash(Fed(rows))
  }

  ghost predicate HasRow<T>(select: (string, T) -> seq<string>, data: map<Name, T>, table: string) {
    Name(PUBLIC, table) in data && select(table, data[Name(PUBLIC, table)]) != []
  }

  /** Every table survives the round trip and one of them has a row. */
  ghost predicate RoundTrips<T>(
    upsert: (string, T, string) -> Option<T>, select: (string, T) -> seq<string>, blank: T,
    hash: Hash, data: map<Name, T>, tables: seq<string>)
  {
    && (forall t :: t in tables ==> Survives(upsert, select, blank, hash, data, t))
    && exists t :: t in tables && HasRow(select, data, t)
  }

  lemma RoundTripsOutside<T>(
    upsert: (string, T, string) -> Option<T>, select: (string, T) -> seq<string>, blank: T,
    hash: Hash, schema: string, tables: seq<string>, data: map<Name, T>, data': map<Name, T>)
    requires schema != PUBLIC && DataOutside(schema, data, data')
    ensures RoundTrips(upsert, select, blank, hash, data', tables)
            <==> RoundTrips(upsert, select, blank, hash, data, tables)
  {
    forall t
      ensures Survives(upsert, select, blank, hash, data', t)
              <==> Survives(upsert, select, blank, hash, data, t)
      ensures HasRow(select, data', t) <==> HasRow(select, data, t)
    {
      var n := Name(PUBLIC, t);
      assert (n in data <==> n in data') && (n in data ==> data'[n] == data[n]);
    }
  }

  lemma ClonesAreCloned<T>(schema: string, tables: seq<string>, blank: T, data: map<Name, T>)
    requires schema != PUBLIC && Clonable(schema, tables, data)
    ensures Cloned(schema, tables, blank, Clones(schema, tables, blank, data))
  {
  }

  /**
    What lets a drill pass: a valid schema that is not there, tables that can be cloned, public foreign
    keys that can be retargeted, and rows that survive the round trip, one of them at least.
   */
  ghost predicate Healthy<T>(
    upsert: (string, T, string) -> Option<T>, select: (string, T) -> seq<string>, blank: T,
    copies: string -> map<string, Ref>, hash: Hash, schema: string, tables: seq<string>,
    schemas: set<string>, data: map<Name, T>, f: map<FkKey, Ref>)
  {
    && CanPrepare(schema, tables, blank, copies, schemas, data, f)
    && RoundTrips(upsert, select, blank, hash, data, tables)
  }

  ghost predicate Calm(faults: nat -> bool, from: nat, to: nat) {
    from <= to && forall n :: from <= n < to ==> !faults(n)
  }

  // ---------- the server ----------

  class Server<T> {
    const upsert: (string, T, string) -> Option<T>
    const select: (string, T) -> seq<string>
    const blank: T
    const copies: string -> map<string, Ref>
    const qualify: bool
    const faults: nat -> bool
    var clock: nat
    var schemas: set<string>
    var data: map<Name, T>
    var fks: map<FkKey, Ref>

    constructor (upsert: (string, T, string) -> Option<T>, select: (string, T) -> seq<string>,
                 blank: T, copies: string -> map<string, Ref>, qualify: bool, faults: nat -> bool,
                 data: map<Name, T>, fks: map<FkKey, Ref>)
      ensures this.upsert == upsert && this.select == select && this.blank == blank
      ensures this.copies == copies && this.qualify == qualify && this.faults == faults
      ensures this.data == data && this.fks == fks && schemas == {PUBLIC}
    {
      this.upsert, this.select, this.blank, this.copies := upsert, select, blank, copies;
      this.qualify, this.faults, this.data, this.fks := qualify, faults, data, fks;
      clock, schemas := 0, {PUBLIC};
    }

    /** No statement between two points of the clock fails. */
    ghost predicate Quiet(from: nat, to: nat) {
      Calm(faults, from, to)
    }

    method Statement() returns (ok: bool)
      modifies this`clock
      ensures ok <==> Quiet(old(clock), clock)
      ensures clock == old(clock) + 1
    {
      ok := !faults(clock);
      clock := clock + 1;
    }

    method CreateSchema(schema: string) returns (ok: bool)
      modifies this`clock, this`schemas
      ensures ok <==> ValidSchema(schema) && schema !in old(schemas) && Quiet(old(clock), clock)
      ensures clock >= old(clock)
      ensures schemas == if ok then old(schemas) + {schema} else old(schemas)
    {
      if !ValidSchema(schema) { return false; }
      ok := Statement();
      if !ok || schema in schemas { return false; }
      schemas := schemas + {schema};
    }

    /** CREATE TABLE ... LIKE ... INCLUDING ALL, with whatever foreign keys this server copies. */
    method CloneTable(schema: string, table: string) returns (ok: bool)
      modifies this`clock, this`data, this`fks
      ensures ok <==> Name(PUBLIC, table) in old(data) && Name(schema, table) !in old(data)
                      && Quiet(old(clock), clock)
      ensures clock >= old(clock)
      ensures ok ==> data == old(data)[Name(schema, table) := blank]
                     && fks == old(fks) + CopiedKeys(copies, schema, table)
      ensures !ok ==> data == old(data) && fks == old(fks)
    {
      ok := Statement();
      if !ok || Name(PUBLIC, table) !in data || Name(schema, table) in data { return false; }
      data := data[Name(schema, table) := blank];
      fks := fks + CopiedKeys(copies, schema, table);
    }

    /** The loop; `done` tables have their clone. */
    method CloneEach(schema: string, tables: seq<string>) returns (ok: bool, ghost done: nat)
      requires schema != PUBLIC
      modifies this`clock, this`data, this`fks
      ensures ok <==> Clonable(schema, tables, old(data)) && Quiet(old(clock), clock)
      ensures clock >= old(clock)
      ensures done <= |tables| && (ok ==> done == |tables|)
      ensures data == Clones(schema, tables[..done], blank, old(data))
      ensures fks == Copies(copies, schema, tables[..done], old(fks))
    {
      assert tables[..0] == [];
      done := 0;
      for i := 0 to |tables|
        invariant done == i && Quiet(old(clock), clock) && Clonable(schema, tables[..i], old(data))
        invariant data == Clones(schema, tables[..i], blank, old(data))
        invariant fks == Copies(copies, schema, tables[..i], old(fks))
      {
        OneMoreClone(schema, tables, i, blank, old(data));
        OneMoreCopy(copies, schema, tables, i, old(fks));
        ok := CloneTable(schema, tables[i]);
        if !ok { return; }
        done := done + 1;
      }
      assert tables[..|tables|] == tables;
      ok := true;
    }

    method CloneTables(schema: string, tables: seq<string>) returns (ok: bool)
      modifies this`clock, this`data, this`fks
      ensures OutsideSame(schema, old(data), old(fks), data, fks)
      ensures ok <==> ValidSchema(schema) && Clonable(schema, tables, old(data)) && Quiet(old(clock), clock)
      ensures clock >= old(clock)
      ensures ok ==> data == Clones(schema, tables, blank, old(data))
                     && fks == Copies(copies, schema, tables, old(fks))
    {
      if !ValidSchema(schema) { return false; }
      ValidSchemaIsPlain(schema);
      ghost var done;
      ok, done := CloneEach(schema, tables);
      CopiesOutside(copies, schema, tables[..done], old(fks));
      assert tables[..|tables|] == tables;
    }

    method DropConstraint(k: FkKey) returns (ok: bool)
      modifies this`clock, this`fks
      ensures ok <==> Quiet(old(clock), clock)
      ensures clock >= old(clock)
      ensures fks == if ok then old(fks) - {k} else old(fks)
    {
      ok := Statement();
      if ok { fks := fks - {k}; }
    }

    /** The name must be new on that table, and both tables must exist. */
    method AddConstraint(k: FkKey, definition: string) returns (ok: bool)
      modifies this`clock, this`fks
      ensures ok <==>
                && Quiet(old(clock), clock) && Read(definition).Some? && k !in old(fks)
                && Name(k.schema, k.child) in data
                && Name(Read(definition).value.parentSchema, Read(definition).value.parent) in data
      ensures clock >= old(clock)
      ensures fks == if ok then old(fks)[k := Read(definition).value] else old(fks)
    {
      ok := Statement();
      var r := Read(definition);
      if !ok || r.None? || k in fks || Name(k.schema, k.child) !in data
         || Name(r.value.parentSchema, r.value.parent) !in data { return false; }
      fks := fks[k := r.value];
    }

    /** The first loop: what the clone left pointing at public goes. */
    method DropCopied(schema: string) returns (ok: bool, inspected: nat, dropped: nat)
      requires schema != PUBLIC
      modifies this`clock, this`fks
      ensures KeysOutside(schema, old(fks), fks)
      ensures ok <==> Quiet(old(clock), clock)
      ensures clock >= old(clock)
      ensures ok ==> fks == Detached(schema, old(fks))
      ensures inspected == |OwnKeys(schema, old(fks))|
      ensures ok ==> dropped == |PointingAt(schema, old(fks))|
    {
      var todo := OwnKeys(schema, fks);
      inspected, dropped := |todo|, 0;
      ghost var gone: set<FkKey> := {};
      while todo != {}
        invariant Quiet(old(clock), clock)
        invariant dropped == |gone| && forall k :: k in gone <==> k in old(fks) && k !in fks
        invariant forall k :: k in fks ==> k in old(fks) && fks[k] == old(fks)[k]
        invariant forall k :: k in old(fks) && k !in fks ==>
          k.schema == schema && old(fks)[k].parentSchema == PUBLIC
        invariant forall k :: k in fks && k.schema == schema && fks[k].parentSchema == PUBLIC ==> k in todo
        invariant forall k :: k in todo ==> k in fks && k.schema == schema
        decreases |todo|
      {
        var k :| k in todo;
        todo := todo - {k};
        if fks[k].parentSchema == PUBLIC {
          ok := DropConstraint(k);
          if !ok { return false, inspected, dropped; }
          dropped := dropped + 1;
          gone := gone + {k};
        }
      }
      ok := true;
      assert gone == PointingAt(schema, old(fks));
    }

    /** One round of the second loop: the public foreign key `k`, retargeted. */
    method AddTwin(schema: string, k: FkKey) returns (ok: bool)
      requires Plain(schema) && schema != PUBLIC && k in fks && Clear(fks[k], qualify)
      modifies this`clock, this`fks
      ensures ok <==> Addable(schema, data, old(fks), k) && Quiet(old(clock), clock)
      ensures clock >= old(clock)
      ensures !ok ==> fks == old(fks)
      ensures ok ==> fks == old(fks)[Twin(schema, k) := old(fks)[k].(parentSchema := schema)]
    {
      RewriteRetargets(fks[k], qualify, schema);
      var rewritten := Rewrite(Definition(fks[k], qualify), schema, fks[k].parent);
      if rewritten.None? { return false; }
      ok := AddConstraint(Twin(schema, k), rewritten.value);
    }

    /** The same, in the middle of the loop: `f` is the catalog it started from. */
    method AddNextTwin(schema: string, ghost f: map<FkKey, Ref>, ghost done: set<FkKey>, k: FkKey)
      returns (ok: bool)
      requires Plain(schema) && schema != PUBLIC && ClearKeys(f, qualify)
      requires fks == Twinned(schema, f, done) && done <= PublicKeys(f)
      requires k in PublicKeys(f) && k !in done && AllAddable(schema, data, f, done)
      modifies this`clock, this`fks
      ensures ok ==> AllAddable(schema, data, f, done + {k}) && Quiet(old(clock), clock)
      ensures !ok ==> !(Retargetable(schema, data, f) && Quiet(old(clock), clock))
      ensures clock >= old(clock)
      ensures fks == Twinned(schema, f, if ok then done + {k} else done)
    {
      OneMoreTwin(schema, f, done, k);
      ok := AddTwin(schema, k);
    }

    /** The second loop; `done` are the public foreign keys that have their twin. */
    method AddEachTwin(schema: string) returns (ok: bool, added: nat, ghost done: set<FkKey>)
      requires Plain(schema) && schema != PUBLIC && ClearKeys(fks, qualify)
      modifies this`clock, this`fks
      ensures done <= PublicKeys(old(fks)) && fks == Twinned(schema, old(fks), done)
      ensures ok ==> Retargetable(schema, data, old(fks)) && Quiet(old(clock), clock)
      ensures ok ==> done == PublicKeys(old(fks)) && added == |done|
      ensures !ok ==> !(Retargetable(schema, data, old(fks)) && Quiet(old(clock), clock))
      ensures clock >= old(clock)
    {
      ghost var f, all := fks, PublicKeys(fks);
      var todo := PublicKeys(fks);
      added, done := 0, {};
      NoTwins(schema, f);
      while todo != {}
        invariant fks == Twinned(schema, f, done) && Quiet(old(clock), clock)
        invariant AllAddable(schema, data, f, done)
        invariant done <= all && todo == all - done && added == |done|
        decreases |todo|
      {
        var k :| k in todo;
        ok := AddNextTwin(schema, f, done, k);
        if !ok { return; }
        todo, done, added := todo - {k}, done + {k}, added + 1;
      }
      ok := true;
    }

    method AddTwins(schema: string) returns (ok: bool, added: nat)
      requires Plain(schema) && schema != PUBLIC && ClearKeys(fks, qualify)
      modifies this`clock, this`fks
      ensures KeysOutside(schema, old(fks), fks)
      ensures ok <==> Retargetable(schema, data, old(fks)) && Quiet(old(clock), clock)
      ensures clock >= old(clock)
      ensures ok ==> fks == WithTwins(schema, old(fks)) && added == |PublicKeys(old(fks))|
    {
      ghost var done;
      ok, added, done := AddEachTwin(schema);
      TwinsOutside(schema, old(fks), done);
    }

    method RewriteForeignKeys(schema: string) returns (ok: bool, stats: Stats)
      requires ClearKeys(fks, qualify)
      modifies this`clock, this`fks
      ensures KeysOutside(schema, old(fks), fks)
      ensures ok <==> ValidSchema(schema) && Retargetable(schema, data, Detached(schema, old(fks)))
                      && Quiet(old(clock), clock)
      ensures clock >= old(clock)
      ensures ok ==>
                && fks == WithTwins(schema, Detached(schema, old(fks)))
                && stats.inspected == |OwnKeys(schema, old(fks))|
                && stats.dropped == |PointingAt(schema, old(fks))|
                && stats.added == stats.declared == |PublicKeys(old(fks))|
    {
      stats := NO_STATS;
      if !ValidSchema(schema) { return false, stats; }
      ValidSchemaIsPlain(schema);
      ok := Statement();
      if !ok { return false, stats; }
      var declared := |PublicKeys(fks)|;
      ok := Statement();
      if !ok { return false, stats; }
      var inspected, dropped, added;
      ok, inspected, dropped := DropCopied(schema);
      if !ok { return false, stats; }
      assert PublicKeys(fks) == PublicKeys(old(fks));
      ok, added := AddTwins(schema);
      stats := Stats(inspected, dropped, added, declared);
    }

    /** Every table of the registry exists in the pinned schema. */
    method VerifyTables(schema: string, tables: seq<string>) returns (ok: bool)
      modifies this`clock
      ensures ok <==> (forall t :: t in tables ==> Name(schema, t) in data) && Quiet(old(clock), clock)
      ensures clock >= old(clock)
    {
      ok := Statement();
      if !ok { return; }
      var missing: seq<string> := [];
      for i := 0 to |tables|
        invariant missing == [] <==> forall j :: 0 <= j < i ==> Name(schema, tables[j]) in data
      {
        if Name(schema, tables[i]) !in data { missing := missing + [tables[i]]; }
      }
      ok := missing == [];
    }

    /** The count per parent schema: none in public, and as many elsewhere as were added. */
    method VerifyForeignKeys(schema: string, expected: nat) returns (ok: bool)
      modifies this`clock
      ensures ok <==> NoPublicRefs(schema, fks) && |OwnKeys(schema, fks)| >= expected
                      && Quiet(old(clock), clock)
      ensures clock >= old(clock)
    {
      ok := Statement();
      if !ok { return; }
      var mine := OwnKeys(schema, fks);
      var atPublic := PointingAt(schema, fks);
      ok := |atPublic| == 0 && |mine - atPublic| >= expected;
      if atPublic == {} {
        assert mine - atPublic == mine;
        assert forall k :: k in fks && k.schema == schema ==> k !in atPublic;
      } else {
        var k :| k in atPublic;
        assert !NoPublicRefs(schema, fks);
      }
    }

    /** One upsert under a search path: it goes to the table the path finds, or fails. */
    method Import(path: seq<string>, table: string, row: string) returns (ok: bool)
      modifies this`clock, this`data
      ensures var n := Resolve(path, table, old(data));
              ok <==> n.Some? && n.value in old(data) && upsert(table, old(data)[n.value], row).Some?
                      && Quiet(old(clock), clock)
      ensures clock >= old(clock)
      ensures var n := Resolve(path, table, old(data));
              if ok then
                && n.Some? && n.value in old(data) && upsert(table, old(data)[n.value], row).Some?
                && data == old(data)[n.value := upsert(table, old(data)[n.value], row).value]
              else data == old(data)
    {
      ok := Statement();
      var n := Resolve(path, table, data);
      if !ok || n.None? { return false; }
      ResolveFinds(path, table, data);
      var t := upsert(table, data[n.value], row);
      if t.None? { return false; }
      data := data[n.value := t.value];
    }

    /** Streams one public table into scratch, digesting what it reads. */
    method ImportTable(schema: string, table: string, hash: Hash)
      returns (ok: bool, count: nat, sum: string)
      requires schema != PUBLIC && Name(schema, table) in data
      modifies this`clock, this`data
      ensures data.Keys == old(data).Keys
      ensures forall n :: n in data && n != Name(schema, table) ==> data[n] == old(data)[n]
      ensures ok <==>
                && Name(PUBLIC, table) in data && Quiet(old(clock), clock)
                && Imported(upsert, table, old(data)[Name(schema, table)],
                            select(table, data[Name(PUBLIC, table)])).Some?
      ensures clock >= old(clock)
      ensures ok ==> Name(PUBLIC, table) in data
                     && var rows := select(table, data[Name(PUBLIC, table)]);
                        && count == |rows| && sum == hash(Fed(rows))
                        && Imported(upsert, table, old(data)[Name(schema, table)], rows)
                           == Some(data[Name(schema, table)])
    {
      count, sum := 0, "";
      ok := Statement();
      if !ok || Name(PUBLIC, table) !in data { return false, 0, ""; }
      var rows := select(table, data[Name(PUBLIC, table)]);
      var d := new RowDigest(hash);
      for i := 0 to |rows|
        invariant data.Keys == old(data).Keys
        invariant forall n :: n in data && n != Name(schema, table) ==> data[n] == old(data)[n]
        invariant Quiet(old(clock), clock)
        invariant Imported(upsert, table, old(data)[Name(schema, table)], rows[..i])
                  == Some(data[Name(schema, table)])
        invariant d.Valid() && fresh(d) && d.hash == hash && d.rows == rows[..i]
      {
        ResolvePinned(schema, table, data);
        NextRow(upsert, table, old(data)[Name(schema, table)], rows, i, data[Name(schema, table)]);
        ok := Import([schema], table, rows[i]);
        if !ok { return false, 0, ""; }
        d.Add(rows[i]);
        assert rows[..i] + [rows[i]] == rows[..i + 1];
      }
      assert rows[..|rows|] == rows;
      sum := d.Sum();
      return true, d.count, sum;
    }

    method ReadBack(schema: string, table: string, hash: Hash)
      returns (ok: bool, count: nat, sum: string)
      modifies this`clock
      ensures ok <==> Name(schema, table) in data && Quiet(old(clock), clock)
      ensures clock >= old(clock)
      ensures ok ==> Name(schema, table) in data
                     && var rows := select(table, data[Name(schema, table)]);
                        count == |rows| && sum == hash(Fed(rows))
    {
      count, sum := 0, "";
      ok := Statement();
      if !ok || Name(schema, table) !in data { return false, 0, ""; }
      count, sum := DigestRows(hash, select(table, data[Name(schema, table)]));
    }

    method DropSchema(schema: string)
      modifies this
      ensures OutsideSame(schema, old(data), old(fks), data, fks)
      ensures ValidSchema(schema) && !faults(old(clock)) ==>
                && schema !in schemas
                && (forall n :: n in data ==> n.schema != schema)
                && (forall k :: k in fks ==> k.schema != schema)
      ensures !(ValidSchema(schema) && !faults(old(clock))) ==>
                schemas == old(schemas) && data == old(data) && fks == old(fks)
    {
      if !ValidSchema(schema) { return; }
      var ok := Statement();
      if ok {
        schemas := schemas - {schema};
        data := map n | n in data && n.schema != schema :: data[n];
        fks := map k | k in fks && k.schema != schema :: fks[k];
      }
    }
  }

  /** In a catalog without keys of the schema, the copied keys are those of the tables' clones. */
  lemma {:induction false} CopiesAt(
    copies: string -> map<string, Ref>, schema: string, tables: seq<string>, f: map<FkKey, Ref>,
    child: string, name: string)
    requires FkKey(schema, child, name) !in f
    ensures var k, f' := FkKey(schema, child, name), Copies(copies, schema, tables, f);
            && (k in f' <==> child in tables && name in copies(child))
            && (k in f' ==> f'[k] == copies(child)[name])
  {
    if tables != [] {
      var n := |tables| - 1;
      CopiesAt(copies, schema, tables[..n], f, child, name);
      assert tables == tables[..n] + [tables[n]];
    }
  }

  /** A public foreign key whose tables are listed and whose name no clone keeps for itself. */
  ghost predicate Carried(
    copies: string -> map<string, Ref>, tables: seq<string>, f: map<FkKey, Ref>, k: FkKey)
    requires k in f
  {
    && f[k].parentSchema == PUBLIC && k.child in tables && f[k].parent in tables
    && (k.name in copies(k.child) ==> copies(k.child)[k.name].parentSchema == PUBLIC)
  }

  lemma AddableWhenCarried<T>(
    schema: string, tables: seq<string>, blank: T, copies: string -> map<string, Ref>,
    data: map<Name, T>, f: map<FkKey, Ref>, k: FkKey)
    requires schema != PUBLIC && k in f && k.schema == PUBLIC
    requires forall n :: n in data ==> n.schema != schema
    requires forall n :: n in f ==> n.schema != schema
    ensures var f' := Detached(schema, Copies(copies, schema, tables, f));
            && k in f' && f'[k] == f[k]
            && (Addable(schema, Clones(schema, tables, blank, data), f', k)
                <==> Carried(copies, tables, f, k))
  {
    CopiesOutside(copies, schema, tables, f);
    CopiesAt(copies, schema, tables, f, k.child, k.name);
  }

  /**
    When a drill can pass, on a server that knows nothing of the schema: the tables are different and
    exist, every public foreign key lies between two of them and can be added under its own name, and
    the rows survive the round trip.
   */
  lemma HealthyIff<T>(
    upsert: (string, T, string) -> Option<T>, select: (string, T) -> seq<string>, blank: T,
    copies: string -> map<string, Ref>, hash: Hash, schema: string, tables: seq<string>,
    schemas: set<string>, data: map<Name, T>, f: map<FkKey, Ref>)
    requires ValidSchema(schema) && schema !in schemas
    requires forall n :: n in data ==> n.schema != schema
    requires forall k :: k in f ==> k.schema != schema
    ensures Healthy(upsert, select, blank, copies, hash, schema, tables, schemas, data, f) <==>
              && Distinct(tables) && (forall t :: t in tables ==> Name(PUBLIC, t) in data)
              && (forall k :: k in f && k.schema == PUBLIC ==> Carried(copies, tables, f, k))
              && RoundTrips(upsert, select, blank, hash, data, tables)
  {
    ValidSchemaIsPlain(schema);
    var f' := Detached(schema, Copies(copies, schema, tables, f));
    CopiesOutside(copies, schema, tables, f);
    forall k: FkKey | k.schema == PUBLIC ensures k in f' <==> k in f {
    }
    forall k | k in f && k.schema == PUBLIC
      ensures k in f' && (Addable(schema, Clones(schema, tables, blank, data), f', k)
                          <==> Carried(copies, tables, f, k))
    {
      AddableWhenCarried(schema, tables, blank, copies, data, f, k);
    }
  }

  lemma {:induction false} CopiesOutside(
    copies: string -> map<string, Ref>, schema: string, tables: seq<string>, f: map<FkKey, Ref>)
    ensures KeysOutside(schema, f, Copies(copies, schema, tables, f))
  {
    if tables != [] {
      CopiesOutside(copies, schema, tables[..|tables| - 1], f);
    }
  }

  lemma OneMoreCopy(
    copies: string -> map<string, Ref>, schema: string, tables: seq<string>, i: nat, f: map<FkKey, Ref>)
    requires i < |tables|
    ensures Copies(copies, schema, tables[..i + 1], f)
            == Copies(copies, schema, tables[..i], f) + CopiedKeys(copies, schema, tables[i])
  {
    assert tables[..i + 1][..i] == tables[..i];
  }

  lemma DistinctMore(tables: seq<string>, i: nat)
    requires i < |tables| && Distinct(tables[..i])
    ensures Distinct(tables[..i + 1]) <==> tables[i] !in tables[..i]
    ensures Distinct(tables) ==> Distinct(tables[..i + 1])
  {
    var some, more := tables[..i], tables[..i + 1];
    assert forall j :: 0 <= j < i ==> more[j] == some[j];
    assert more[i] == tables[i];
    if tables[i] in some {
      var j :| 0 <= j < i && some[j] == tables[i];
      assert more[j] == more[i];
    }
  }

  /** Whether the next table can be cloned does not depend on the clones made so far. */
  lemma OneMoreClone<T>(schema: string, tables: seq<string>, i: nat, blank: T, data: map<Name, T>)
    requires i < |tables| && schema != PUBLIC && Clonable(schema, tables[..i], data)
    ensures var now, t := Clones(schema, tables[..i], blank, data), tables[i];
            && (Name(PUBLIC, t) in now && Name(schema, t) !in now
                <==> Clonable(schema, tables[..i + 1], data))
            && (Clonable(schema, tables, data) ==> Clonable(schema, tables[..i + 1], data))
            && now[Name(schema, t) := blank] == Clones(schema, tables[..i + 1], blank, data)
  {
    OneMoreName(tables, i);
    NextClonable(schema, tables, i, data);
    if Clonable(schema, tables, data) {
      ShorterClonable(schema, tables, i + 1, data);
    }
    NextClones(schema, tables, i, blank, data);
  }

  lemma OneMoreName(tables: seq<string>, i: nat)
    requires i < |tables|
    ensures forall x :: x in tables[..i + 1] <==> x in tables[..i] || x == tables[i]
  {
    assert tables[..i + 1] == tables[..i] + [tables[i]];
  }

  lemma NextClonable<T>(schema: string, tables: seq<string>, i: nat, data: map<Name, T>)
    requires i < |tables| && Clonable(schema, tables[..i], data)
    ensures Clonable(schema, tables[..i + 1], data) <==>
              && tables[i] !in tables[..i]
              && Name(PUBLIC, tables[i]) in data && Name(schema, tables[i]) !in data
  {
    DistinctMore(tables, i);
    OneMoreName(tables, i);
  }

  lemma ShorterClonable<T>(schema: string, tables: seq<string>, i: nat, data: map<Name, T>)
    requires i <= |tables| && Clonable(schema, tables, data)
    ensures Clonable(schema, tables[..i], data)
  {
    forall t | t in tables[..i] ensures t in tables {
    }
  }

  lemma NextClones<T>(schema: string, tables: seq<string>, i: nat, blank: T, data: map<Name, T>)
    requires i < |tables|
    ensures Clones(schema, tables[..i], blank, data)[Name(schema, tables[i]) := blank]
            == Clones(schema, tables[..i + 1], blank, data)
  {
    OneMoreName(tables, i);
    var a := Clones(schema, tables[..i], blank, data)[Name(schema, tables[i]) := blank];
    var b := Clones(schema, tables[..i + 1], blank, data);
    forall n: Name ensures (n in a <==> n in b) && (n in a && n in b ==> a[n] == b[n]) {
    }
  }

  /** One state of the table before each row and one at the end, each made of the last by its row. */
  ghost predicate Steps<T>(
    upsert: (string, T, string) -> Option<T>, table: string, rows: seq<string>, states: seq<T>)
  {
    && |states| == |rows| + 1
    && forall i :: 0 <= i < |rows| ==> upsert(table, states[i], rows[i]) == Some(states[i + 1])
  }

  /** An import is one upsert for each row, in their order, each on what the one before it left. */
  lemma {:induction false} ImportedIff<T>(
    upsert: (string, T, string) -> Option<T>, table: string, t: T, rows: seq<string>, t': T)
    ensures Imported(upsert, table, t, rows) == Some(t') <==>
              exists states :: Steps(upsert, table, rows, states) && states[0] == t && states[|rows|] == t'
  {
    if rows == [] {
      assert Imported(upsert, table, t, rows) == Some(t') ==> Steps(upsert, table, rows, [t]);
    } else {
      var n := |rows| - 1;
      var before := Imported(upsert, table, t, rows[..n]);
      if states :| Steps(upsert, table, rows, states) && states[0] == t && states[|rows|] == t' {
        ImportedIff(upsert, table, t, rows[..n], states[n]);
        assert Steps(upsert, table, rows[..n], states[..|rows|]);
      }
      if before.Some? && Imported(upsert, table, t, rows) == Some(t') {
        ImportedIff(upsert, table, t, rows[..n], before.value);
        var states :| Steps(upsert, table, rows[..n], states) && states[0] == t && states[n] == before.value;
        assert Steps(upsert, table, rows, states + [t']);
      }
    }
  }

  /** Once a row is refused, the rest cannot save the table. */
  lemma {:induction false} RefusedForGood<T>(
    upsert: (string, T, string) -> Option<T>, table: string, t: T, rows: seq<string>, i: nat)
    requires i <= |rows|
    ensures Imported(upsert, table, t, rows).Some? ==> Imported(upsert, table, t, rows[..i]).Some?
    decreases |rows| - i
  {
    if i == |rows| {
      assert rows[..i] == rows;
    } else {
      RefusedForGood(upsert, table, t, rows, i + 1);
      assert rows[..i + 1][..i] == rows[..i];
    }
  }

  lemma NextRow<T>(
    upsert: (string, T, string) -> Option<T>, table: string, t: T, rows: seq<string>, i: nat, now: T)
    requires i < |rows| && Imported(upsert, table, t, rows[..i]) == Some(now)
    ensures Imported(upsert, table, t, rows[..i + 1]) == upsert(table, now, rows[i])
    ensures upsert(table, now, rows[i]).None? ==> Imported(upsert, table, t, rows).None?
  {
    assert rows[..i + 1][..i] == rows[..i];
    RefusedForGood(upsert, table, t, rows, i + 1);
  }

  lemma NoTwins(schema: string, f: map<FkKey, Ref>)
    ensures Twinned(schema, f, {}) == f
  {
    assert TwinNames(schema, {}) == {};
  }

  lemma TwinsOutside(schema: string, f: map<FkKey, Ref>, done: set<FkKey>)
    ensures KeysOutside(schema, f, Twinned(schema, f, done))
  {
    var names := TwinNames(schema, done);
    assert forall t :: t in names ==> t.schema == schema;
  }

  /** Adding the next twin: earlier twins neither allow nor forbid it. */
  lemma OneMoreTwin(schema: string, f: map<FkKey, Ref>, done: set<FkKey>, k: FkKey)
    requires schema != PUBLIC && done <= PublicKeys(f) && k in PublicKeys(f) && k !in done
    ensures var now := Twinned(schema, f, done);
            && k in now && now[k] == f[k]
            && (Twin(schema, k) in now <==> Twin(schema, k) in f)
            && now[Twin(schema, k) := f[k].(parentSchema := schema)] == Twinned(schema, f, done + {k})
  {
    var t := Twin(schema, k);
    assert Origin(t) == k;
    assert t !in TwinNames(schema, done);
    assert TwinNames(schema, done + {k}) == TwinNames(schema, done) + {t};
    TwinsOutside(schema, f, done);
  }

  lemma {:induction false} ResolveFinds<T>(path: seq<string>, table: string, data: map<Name, T>)
    ensures var n := Resolve(path, table, data); n.Some? ==> n.value in data
    decreases |path|
  {
    if path != [] {
      ResolveFinds(path[1..], table, data);
    }
  }

  /** With the path pinned to one schema, a name resolves there or not at all. */
  lemma ResolvePinned<T>(schema: string, table: string, data: map<Name, T>)
    ensures Resolve([schema], table, data)
            == if Name(schema, table) in data then Some(Name(schema, table)) else None
  {
    assert [schema][1..] == [];
  }

  // ---------- the drill ----------

  function Listed<T>(select: (string, T) -> seq<string>, data: map<Name, T>, schema: string, table: string)
    : seq<string>
    requires Name(schema, table) in data
  {
    select(table, data[Name(schema, table)])
  }

  /** One verified entry: the table exists on both sides and counts and digests agree. */
  ghost predicate Agrees<T>(
    select: (string, T) -> seq<string>, hash: Hash, schema: string, data: map<Name, T>, e: TableResult)
  {
    && e.verified && Name(PUBLIC, e.name) in data && Name(schema, e.name) in data
    && var source, target := Listed(select, data, PUBLIC, e.name), Listed(select, data, schema, e.name);
       && e.sourceRows == |source| == |target| == e.targetRows
       && e.sourceDigest == hash(Fed(source)) == hash(Fed(target)) == e.targetDigest
  }

  ghost predicate Matches<T>(
    select: (string, T) -> seq<string>, hash: Hash, schema: string, data: map<Name, T>, table: string)
  {
    && Name(PUBLIC, table) in data && Name(schema, table) in data
    && var source, target := Listed(select, data, PUBLIC, table), Listed(select, data, schema, table);
       |source| == |target| && hash(Fed(source)) == hash(Fed(target))
  }

  function TotalRows(es: seq<TableResult>): nat {
    if es == [] then 0 else TotalRows(es[..|es| - 1]) + es[|es| - 1].targetRows
  }

  /** What a passed drill has established about the state it ran in. */
  ghost predicate Sound<T>(
    upsert: (string, T, string) -> Option<T>, select: (string, T) -> seq<string>, blank: T,
    hash: Hash, schema: string, tables: seq<string>, data: map<Name, T>, fks: map<FkKey, Ref>,
    r: DrillResult)
  {
    && (forall t :: t in tables ==> LoadedTable(upsert, select, blank, schema, t, data))
    && ValidSchema(schema) && NoPublicRefs(schema, fks) && Twins(schema, fks)
    && |r.entries| == |tables|
    && (forall i :: 0 <= i < |tables| ==>
          r.entries[i].name == tables[i] && Agrees(select, hash, schema, data, r.entries[i]))
    && r.total == TotalRows(r.entries) && r.total > 0
  }

  /** The digests of the first `n` tables as they stand in public. */
  ghost predicate Digested<T>(
    select: (string, T) -> seq<string>, hash: Hash, tables: seq<string>, n: nat,
    data: map<Name, T>, counts: map<string, nat>, sums: map<string, string>)
    requires n <= |tables|
  {
    forall i :: 0 <= i < n ==>
      && tables[i] in counts && tables[i] in sums && Name(PUBLIC, tables[i]) in data
      && counts[tables[i]] == |Listed(select, data, PUBLIC, tables[i])|
      && sums[tables[i]] == hash(Fed(Listed(select, data, PUBLIC, tables[i])))
  }

  /** The entries are those of the first tables, and each of these agrees with its original. */
  ghost predicate Compared<T>(
    select: (string, T) -> seq<string>, hash: Hash, schema: string, tables: seq<string>,
    data: map<Name, T>, entries: seq<TableResult>)
  {
    && |entries| <= |tables|
    && forall j :: 0 <= j < |entries| ==>
         && entries[j].name == tables[j] && Agrees(select, hash, schema, data, entries[j])
         && Matches(select, hash, schema, data, tables[j])
  }

  /** After `n` tables of the import: those are loaded and digested, the others still empty. */
  ghost predicate Filled<T>(
    upsert: (string, T, string) -> Option<T>, select: (string, T) -> seq<string>, blank: T,
    hash: Hash, schema: string, tables: seq<string>, n: nat, start: map<Name, T>,
    data: map<Name, T>, counts: map<string, nat>, sums: map<string, string>)
  {
    && n <= |tables| && Distinct(tables) && schema != PUBLIC && DataOutside(schema, start, data)
    && Digested(select, hash, tables, n, data, counts, sums)
    && (forall j :: 0 <= j < n ==>
          && Accepted(upsert, select, blank, start, tables[j])
          && LoadedTable(upsert, select, blank, schema, tables[j], data))
    && forall j :: n <= j < |tables| ==>
         Name(schema, tables[j]) in data && data[Name(schema, tables[j])] == blank
  }

  lemma FilledMore<T>(
    upsert: (string, T, string) -> Option<T>, select: (string, T) -> seq<string>, blank: T,
    hash: Hash, schema: string, tables: seq<string>, n: nat, start: map<Name, T>,
    before: map<Name, T>, after: map<Name, T>, counts: map<string, nat>, sums: map<string, string>,
    count: nat, sum: string)
    requires n < |tables|
    requires Filled(upsert, select, blank, hash, schema, tables, n, start, before, counts, sums)
    requires before.Keys == after.Keys
    requires forall x :: x in after && x != Name(schema, tables[n]) ==> after[x] == before[x]
    requires Accepted(upsert, select, blank, start, tables[n])
    requires LoadedTable(upsert, select, blank, schema, tables[n], after)
    requires count == |Listed(select, after, PUBLIC, tables[n])|
    requires sum == hash(Fed(Listed(select, after, PUBLIC, tables[n])))
    ensures Filled(upsert, select, blank, hash, schema, tables, n + 1, start, after,
                   counts[tables[n] := count], sums[tables[n] := sum])
  {
    StillLoaded(upsert, select, blank, schema, tables, n, before, after);
  }

  class Runner<T> {
    const server: Server<T>
    const hash: Hash
    const tables: seq<string>

    constructor (server: Server<T>, hash: Hash, tables: seq<string>)
      ensures this.server == server && this.hash == hash && this.tables == tables
    {
      this.server, this.hash, this.tables := server, hash, tables;
    }

    /** Schema, clones and foreign keys. */
    method Prepare(schema: string) returns (ok: bool, stats: Stats)
      requires schema != PUBLIC && ClearKeys(server.fks, server.qualify)
      modifies server
      ensures OutsideSame(schema, old(server.data), old(server.fks), server.data, server.fks)
      ensures ok <==> CanPrepare(schema, tables, server.blank, server.copies, old(server.schemas),
                                 old(server.data), old(server.fks))
                      && server.Quiet(old(server.clock), server.clock)
      ensures server.clock >= old(server.clock)
      ensures ok ==> server.data == Clones(schema, tables, server.blank, old(server.data))
      ensures ok ==> server.fks == Rewritten(server.copies, schema, tables, old(server.fks))
      ensures ok ==> stats.added == stats.declared == |PublicKeys(old(server.fks))|
    {
      stats := NO_STATS;
      ok := server.CreateSchema(schema);
      if !ok { return false, stats; }
      ok := server.CloneTables(schema, tables);
      if !ok { return false, stats; }
      ghost var data, before := server.data, server.fks;
      SameRenderings(schema, server.qualify, old(server.fks), before);
      ok, stats := server.RewriteForeignKeys(schema);
      KeysChain(schema, old(server.fks), before, server.fks);
    }

    /** The import loop, digesting every table on the way. */
    method ImportAll(schema: string)
      returns (ok: bool, counts: map<string, nat>, sums: map<string, string>)
      requires schema != PUBLIC && Cloned(schema, tables, server.blank, server.data)
      modifies server`clock, server`data
      ensures DataOutside(schema, old(server.data), server.data)
      ensures ok <==> server.Quiet(old(server.clock), server.clock) && forall i :: 0 <= i < |tables| ==>
                        Accepted(server.upsert, server.select, server.blank, old(server.data), tables[i])
      ensures server.clock >= old(server.clock)
      ensures ok ==>
                && Digested(server.select, hash, tables, |tables|, server.data, counts, sums)
                && forall i :: 0 <= i < |tables| ==>
                     LoadedTable(server.upsert, server.select, server.blank, schema, tables[i], server.data)
    {
      counts, sums := map[], map[];
      ghost var start := server.data;
      for i := 0 to |tables|
        invariant server.Quiet(old(server.clock), server.clock)
        invariant Filled(server.upsert, server.select, server.blank, hash, schema, tables, i, start,
                         server.data, counts, sums)
      {
        ghost var before := server.data;
        AcceptedNow(server.upsert, server.select, server.blank, schema, start, before, tables[i]);
        var count, sum;
        ok, count, sum := server.ImportTable(schema, tables[i], hash);
        if !ok { return false, counts, sums; }
        FilledMore(server.upsert, server.select, server.blank, hash, schema, tables, i, start,
                   before, server.data, counts, sums, count, sum);
        counts, sums := counts[tables[i] := count], sums[tables[i] := sum];
      }
      ok := true;
    }

    /** The comparison loop: it stops at the first table that did not survive. */
    method Compare(schema: string, counts: map<string, nat>, sums: map<string, string>)
      returns (ok: bool, entries: seq<TableResult>, total: nat)
      requires Digested(server.select, hash, tables, |tables|, server.data, counts, sums)
      modifies server`clock
      ensures total == TotalRows(entries)
      ensures ok <==> server.Quiet(old(server.clock), server.clock) && forall i :: 0 <= i < |tables| ==>
                        Matches(server.select, hash, schema, server.data, tables[i])
      ensures server.clock >= old(server.clock)
      ensures ok ==> |entries| == |tables| && Compared(server.select, hash, schema, tables, server.data, entries)
    {
      entries, total := [], 0;
      for i := 0 to |tables|
        invariant total == TotalRows(entries) && server.Quiet(old(server.clock), server.clock)
        invariant |entries| == i && Compared(server.select, hash, schema, tables, server.data, entries)
      {
        var found, rows, digest := server.ReadBack(schema, tables[i], hash);
        if !found { return false, entries, total; }
        var e := TableResult(tables[i], counts[tables[i]], rows, sums[tables[i]], digest,
                             counts[tables[i]] == rows && sums[tables[i]] == digest);
        assert (entries + [e])[..i] == entries;
        entries, total := entries + [e], total + rows;
        if !e.verified { return false, entries, total; }
      }
      ok := true;
    }

    /** What follows the import: constraints, comparison, a row at least, and the commit. */
    method Decide(schema: string, stats: Stats, counts: map<string, nat>, sums: map<string, string>)
      returns (ok: bool, entries: seq<TableResult>, total: nat)
      requires Digested(server.select, hash, tables, |tables|, server.data, counts, sums)
      modifies server`clock
      ensures ok <==>
                && server.Quiet(old(server.clock), server.clock)
                && NoPublicRefs(schema, server.fks) && |OwnKeys(schema, server.fks)| >= stats.added
                && (forall i :: 0 <= i < |tables| ==>
                      Matches(server.select, hash, schema, server.data, tables[i]))
                && exists t :: t in tables && HasRow(server.select, server.data, t)
      ensures server.clock >= old(server.clock)
      ensures ok ==>
                && |entries| == |tables| && Compared(server.select, hash, schema, tables, server.data, entries)
                && total == TotalRows(entries) > 0
    {
      entries, total := [], 0;
      ok := server.Statement();
      if !ok { return; }
      ok := server.VerifyForeignKeys(schema, stats.added);
      if !ok { return; }
      ok, entries, total := Compare(schema, counts, sums);
      if !ok { return; }
      SomeRowCounted(server.select, hash, schema, tables, server.data, entries);
      if total == 0 { return false, entries, total; }
      ok := server.Statement();
    }

    /** The target transaction: begin, tables, import, constraints, comparison, commit. */
    method Transact(schema: string, stats: Stats) returns (r: DrillResult)
      requires ValidSchema(schema) && Twins(schema, server.fks)
      requires Cloned(schema, tables, server.blank, server.data)
      modifies server`clock, server`data
      ensures r.passed <==>
                && server.Quiet(old(server.clock), server.clock)
                && RoundTrips(server.upsert, server.select, server.blank, hash, old(server.data), tables)
                && NoPublicRefs(schema, server.fks) && |OwnKeys(schema, server.fks)| >= stats.added
      ensures server.clock >= old(server.clock)
      ensures DataOutside(schema, old(server.data), server.data) && r.stats == stats
      ensures !r.passed ==> server.data == old(server.data)
      ensures r.passed ==>
                Sound(server.upsert, server.select, server.blank, hash, schema, tables,
                      server.data, server.fks, r)
    {
      ValidSchemaIsPlain(schema);
      var snapshot := server.data;
      r := DrillResult(stats, [], 0, false);
      var ok := server.Statement();
      if !ok { return; }
      ok := server.VerifyTables(schema, tables);
      if !ok { return; }
      var counts, sums;
      ok, counts, sums := ImportAll(schema);
      if !ok {
        if RoundTrips(server.upsert, server.select, server.blank, hash, snapshot, tables) {
          AcceptedWhenSurviving(server.upsert, server.select, server.blank, hash, tables, snapshot);
        }
        server.data := snapshot;
        return;
      }
      MatchWhenSurviving(server.upsert, server.select, server.blank, hash, schema, tables, snapshot,
                         server.data);
      var entries, total;
      ok, entries, total := Decide(schema, stats, counts, sums);
      r := r.(entries := entries, total := total);
      if !ok {
        server.data := snapshot;
        return;
      }
      r := r.(passed := true);
    }

    /** Everything before the scratch schema is dropped. */
    method Attempt(schema: string) returns (r: DrillResult)
      requires schema != PUBLIC && ValidSchema(schema) && ClearKeys(server.fks, server.qualify)
      modifies server
      ensures r.passed <==>
                && server.Quiet(old(server.clock), server.clock)
                && Healthy(server.upsert, server.select, server.blank, server.copies, hash, schema, tables,
                           old(server.schemas), old(server.data), old(server.fks))
      ensures old(server.clock) <= server.clock
      ensures OutsideSame(schema, old(server.data), old(server.fks), server.data, server.fks)
      ensures r.passed ==> r.stats.added == r.stats.declared == |PublicKeys(old(server.fks))|
      ensures r.passed ==>
                Sound(server.upsert, server.select, server.blank, hash, schema, tables,
                      server.data, server.fks, r)
    {
      r := DrillResult(NO_STATS, [], 0, false);
      var ok, stats := Prepare(schema);
      r := r.(stats := stats);
      if !ok { return; }
      RewrittenKeys(server.copies, schema, tables, old(server.fks));
      ClonesAreCloned(schema, tables, server.blank, old(server.data));
      ghost var data, fks := server.data, server.fks;
      RoundTripsOutside(server.upsert, server.select, server.blank, hash, schema, tables,
                        old(server.data), data);
      r := Transact(schema, stats);
      DataChain(schema, old(server.data), data, server.data);
    }

    /**
      The whole drill. The scratch schema is dropped on every path; `seen` is the state the verdict
      is about, just before the drop.
     */
    method Drill(schema: string)
      returns (r: DrillResult, ghost seen: map<Name, T>, ghost catalog: map<FkKey, Ref>,
               ghost decided: nat)
      requires ClearKeys(server.fks, server.qualify)
      modifies server
      ensures r.passed <==>
                && server.Quiet(old(server.clock), decided)
                && Healthy(server.upsert, server.select, server.blank, server.copies, hash, schema, tables,
                           old(server.schemas), old(server.data), old(server.fks))
      ensures old(server.clock) <= decided
      ensures (forall n :: !server.faults(n)) ==>
                (r.passed <==>
                 Healthy(server.upsert, server.select, server.blank, server.copies, hash, schema, tables,
                         old(server.schemas), old(server.data), old(server.fks)))
      ensures OutsideSame(schema, old(server.data), old(server.fks), server.data, server.fks)
      ensures OutsideSame(schema, old(server.data), old(server.fks), seen, catalog)
      ensures !ValidSchema(schema) ==>
                !r.passed && server.data == old(server.data) && server.fks == old(server.fks)
      ensures ValidSchema(schema) ==> schema != PUBLIC
      ensures r.passed ==> r.stats.added == r.stats.declared == |PublicKeys(old(server.fks))|
      ensures r.passed ==>
                Sound(server.upsert, server.select, server.blank, hash, schema, tables, seen, catalog, r)
    {
      seen, catalog, decided := server.data, server.fks, server.clock;
      r := DrillResult(NO_STATS, [], 0, false);
      if !ValidSchema(schema) { return; }
      ValidSchemaIsPlain(schema);
      r := Attempt(schema);
      seen, catalog, decided := server.data, server.fks, server.clock;
      server.DropSchema(schema);
      OutsideChain(schema, old(server.data), old(server.fks), seen, catalog, server.data, server.fks);
    }
  }

  /** With nothing in public changed, a table is accepted now if it was at the start. */
  lemma AcceptedNow<T>(
    upsert: (string, T, string) -> Option<T>, select: (string, T) -> seq<string>, blank: T,
    schema: string, start: map<Name, T>, data: map<Name, T>, table: string)
    requires schema != PUBLIC && DataOutside(schema, start, data)
    requires Name(schema, table) in data && data[Name(schema, table)] == blank
    ensures Accepted(upsert, select, blank, start, table) <==>
              && Name(PUBLIC, table) in data
              && Imported(upsert, table, data[Name(schema, table)],
                          select(table, data[Name(PUBLIC, table)])).Some?
  {
    var n := Name(PUBLIC, table);
    assert (n in start <==> n in data) && (n in start ==> data[n] == start[n]);
  }

  /** Importing one table leaves the earlier ones loaded. */
  lemma StillLoaded<T>(
    upsert: (string, T, string) -> Option<T>, select: (string, T) -> seq<string>, blank: T,
    schema: string, tables: seq<string>, i: nat, before: map<Name, T>, after: map<Name, T>)
    requires schema != PUBLIC && Distinct(tables) && i < |tables|
    requires before.Keys == after.Keys
    requires forall n :: n in after && n != Name(schema, tables[i]) ==> after[n] == before[n]
    requires forall j :: 0 <= j < i ==> LoadedTable(upsert, select, blank, schema, tables[j], before)
    ensures forall j :: 0 <= j < i ==> LoadedTable(upsert, select, blank, schema, tables[j], after)
  {
    forall j | 0 <= j < i ensures LoadedTable(upsert, select, blank, schema, tables[j], after) {
      assert LoadedTable(upsert, select, blank, schema, tables[j], before);
    }
  }

  lemma {:induction false} SomeRows(es: seq<TableResult>)
    ensures TotalRows(es) > 0 <==> exists i :: 0 <= i < |es| && es[i].targetRows > 0
  {
    if es != [] {
      var n := |es| - 1;
      SomeRows(es[..n]);
      assert forall i :: 0 <= i < n ==> es[..n][i] == es[i];
      assert es[n].targetRows > 0 || TotalRows(es) == TotalRows(es[..n]);
    }
  }

  /** The total is positive exactly when some public table holds a row. */
  lemma SomeRowCounted<T>(
    select: (string, T) -> seq<string>, hash: Hash, schema: string, tables: seq<string>,
    data: map<Name, T>, es: seq<TableResult>)
    requires |es| == |tables|
    requires forall i :: 0 <= i < |tables| ==>
               es[i].name == tables[i] && Agrees(select, hash, schema, data, es[i])
    ensures TotalRows(es) > 0 <==> exists t :: t in tables && HasRow(select, data, t)
  {
    SomeRows(es);
    if TotalRows(es) > 0 {
      var i :| 0 <= i < |es| && es[i].targetRows > 0;
      assert Agrees(select, hash, schema, data, es[i]);
      assert tables[i] in tables && HasRow(select, data, tables[i]);
    }
    if t :| t in tables && HasRow(select, data, t) {
      var i :| 0 <= i < |tables| && tables[i] == t;
      assert Agrees(select, hash, schema, data, es[i]);
      assert es[i].targetRows > 0;
    }
  }

  /** With the upserts' work in place, a table matches exactly when it survives the round trip. */
  lemma MatchesWhenSurviving<T>(
    upsert: (string, T, string) -> Option<T>, select: (string, T) -> seq<string>, blank: T,
    hash: Hash, schema: string, data: map<Name, T>, data': map<Name, T>, table: string)
    requires schema != PUBLIC && DataOutside(schema, data, data')
    requires LoadedTable(upsert, select, blank, schema, table, data')
    ensures Matches(select, hash, schema, data', table)
            <==> Survives(upsert, select, blank, hash, data, table)
    ensures HasRow(select, data', table) <==> HasRow(select, data, table)
  {
    var n := Name(PUBLIC, table);
    assert n in data' && n in data && data'[n] == data[n];
  }

  /** The same for every table. */
  lemma MatchWhenSurviving<T>(
    upsert: (string, T, string) -> Option<T>, select: (string, T) -> seq<string>, blank: T,
    hash: Hash, schema: string, tables: seq<string>, data: map<Name, T>, data': map<Name, T>)
    requires schema != PUBLIC && DataOutside(schema, data, data')
    requires forall i :: 0 <= i < |tables| ==>
               LoadedTable(upsert, select, blank, schema, tables[i], data')
    ensures (forall i :: 0 <= i < |tables| ==> Matches(select, hash, schema, data', tables[i]))
            <==> forall t :: t in tables ==> Survives(upsert, select, blank, hash, data, t)
    ensures (exists t :: t in tables && HasRow(select, data', t))
            <==> exists t :: t in tables && HasRow(select, data, t)
  {
    forall i | 0 <= i < |tables|
      ensures Matches(select, hash, schema, data', tables[i])
              <==> Survives(upsert, select, blank, hash, data, tables[i])
      ensures HasRow(select, data', tables[i]) <==> HasRow(select, data, tables[i])
    {
      MatchesWhenSurviving(upsert, select, blank, hash, schema, data, data', tables[i]);
    }
  }

  lemma AcceptedWhenSurviving<T>(
    upsert: (string, T, string) -> Option<T>, select: (string, T) -> seq<string>, blank: T,
    hash: Hash, tables: seq<string>, data: map<Name, T>)
    requires forall t :: t in tables ==> Survives(upsert, select, blank, hash, data, t)
    ensures forall i :: 0 <= i < |tables| ==> Accepted(upsert, select, blank, data, tables[i])
  {
    forall i | 0 <= i < |tables| ensures Accepted(upsert, select, blank, data, tables[i]) {
      assert Survives(upsert, select, blank, hash, data, tables[i]);
    }
  }

  /**
    What a passed drill means. Every scratch table is what the upserts make of the public rows, and
    where those hold no newline, the rows read back from it are, in order, the rows streamed from
    public, unless two texts that were fed to the hash collide; at least one row was compared; no
    scratch foreign key points at public, and every public one has its twin.
   */
  lemma DrillSoundness<T>(
    upsert: (string, T, string) -> Option<T>, select: (string, T) -> seq<string>, blank: T,
    hash: Hash, schema: string, tables: seq<string>, data: map<Name, T>, fks: map<FkKey, Ref>,
    r: DrillResult)
    requires Sound(upsert, select, blank, hash, schema, tables, data, fks, r)
    ensures NoPublicRefs(schema, fks) && Twins(schema, fks)
    ensures forall t :: t in tables ==>
              && Name(PUBLIC, t) in data && Name(schema, t) in data
              && var rows := Listed(select, data, PUBLIC, t);
                 && SameRows(hash, rows, Listed(select, data, schema, t))
                 && Imported(upsert, t, blank, rows) == Some(data[Name(schema, t)])
    ensures exists t :: t in tables && Name(PUBLIC, t) in data && Listed(select, data, PUBLIC, t) != []
  {
    forall t | t in tables
      ensures && Name(PUBLIC, t) in data && Name(schema, t) in data
              && SameRows(hash, Listed(select, data, PUBLIC, t), Listed(select, data, schema, t))
    {
      assert LoadedTable(upsert, select, blank, schema, t, data);
      var i :| 0 <= i < |tables| && tables[i] == t;
      assert Agrees(select, hash, schema, data, r.entries[i]);
      var source, target := Listed(select, data, PUBLIC, t), Listed(select, data, schema, t);
      if NewlineFree(source) && NewlineFree(target) {
        DigestDecides(hash, source, target);
      }
    }
    SomeRowCounted(select, hash, schema, tables, data, r.entries);
    var t :| t in tables && HasRow(select, data, t);
    assert Listed(select, data, PUBLIC, t) != [];
  }

  ghost predicate SameRows(hash: Hash, a: seq<string>, b: seq<string>) {
    && |a| == |b|
    && (NewlineFree(a) && NewlineFree(b) ==> a == b || Collision(hash, Fed(a), Fed(b)))
  }
}
