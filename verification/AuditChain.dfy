/**
  The audit hash chain. The hash is a parameter that is only known to give 64 characters without
  the separator; nothing here assumes that it is injective, so where integrity needs that, the
  theorem hands back the two colliding texts instead. `stored` is what the database makes of a
  JSON text between write and read: the columns are JSONB, so it need not be the identity.
 */
module AuditChain {
  import opened Prelude

  type Hash = string -> string

  function Zeros(n: nat): (s: string)
    ensures |s| == n && forall i :: 0 <= i < n ==> s[i] == '0'
  {
    if n == 0 then "" else Zeros(n - 1) + ['0']
  }

  const GENESIS := Zeros(64)

  const SEPARATOR := '|'

  /** The hashed columns; the three JSON columns are texts. */
  datatype Fields = Fields(
    user: Option<string>,
    entityType: string,
    entityId: Option<string>,
    action: string,
    changes: string,
    oldValues: string,
    newValues: string,
    ip: Option<string>,
    agent: Option<string>)

  datatype Row = Row(fields: Fields, prev: Option<string>, hash: Option<string>)

  datatype Verdict = Verdict(valid: bool, index: nat)

  ghost predicate HashLike(h: Hash) {
    forall x :: |h(x)| == 64 && SEPARATOR !in h(x)
  }

  function Text(o: Option<string>): string { if o.Some? then o.value else "" }

  /** An absent or empty column counts as unset. */
  predicate Unset(o: Option<string>) { o.None? || o.value == "" }

  function Join(parts: seq<string>): string {
    if parts == [] then ""
    else if |parts| == 1 then parts[0]
    else parts[0] + [SEPARATOR] + Join(parts[1..])
  }

  function Parts(f: Fields): seq<string> {
    [Text(f.user), f.entityType, Text(f.entityId), f.action,
     f.changes, f.oldValues, f.newValues, Text(f.ip), Text(f.agent)]
  }

  function Joined(prev: string, f: Fields): string { Join([prev] + Parts(f)) }

  function AuditHash(h: Hash, prev: string, f: Fields): string { h(Joined(prev, f)) }

  // ---------- appending ----------

  /** The latest non-empty hash, or the genesis value. */
  function Latest(rows: seq<Row>): string {
    if rows == [] then GENESIS
    else if !Unset(rows[|rows| - 1].hash) then rows[|rows| - 1].hash.value
    else Latest(rows[..|rows| - 1])
  }

  /** How a row comes back: user agent and address are NULL when empty, JSON as the store keeps it. */
  function Kept(stored: string -> string, f: Fields): Fields {
    f.(changes := stored(f.changes), oldValues := stored(f.oldValues), newValues := stored(f.newValues),
       ip := if Unset(f.ip) then None else f.ip, agent := if Unset(f.agent) then None else f.agent)
  }

  function Appended(h: Hash, stored: string -> string, rows: seq<Row>, f: Fields): Row {
    var prev := Latest(rows);
    Row(Kept(stored, f), Some(prev), Some(AuditHash(h, prev, f)))
  }

  /** One write to the table: Log or LogDiff, or a row written past them without a predecessor. */
  datatype Entry = Logged(fields: Fields) | Bare(row: Row)

  predicate Proper(e: Entry) { e.Bare? ==> Unset(e.row.prev) }

  function RowOf(h: Hash, stored: string -> string, rows: seq<Row>, e: Entry): Row {
    match e
    case Logged(f) => Appended(h, stored, rows, f)
    case Bare(row) => row
  }

  /** The table after the writes, oldest first. */
  function Table(h: Hash, stored: string -> string, es: seq<Entry>): (rows: seq<Row>)
    ensures |rows| == |es|
  {
    if es == [] then []
    else
      var before := Table(h, stored, es[..|es| - 1]);
      before + [RowOf(h, stored, before, es[|es| - 1])]
  }

  // ---------- verifying ----------

  predicate LinkOk(h: Hash, expected: string, r: Row) {
    r.prev == Some(expected) && r.hash == Some(AuditHash(h, expected, r.fields))
  }

  /** The hash the next linked row must name; an unlinked row is adopted if it carries a hash. */
  function NextExpected(expected: string, r: Row): string
    requires Unset(r.prev) || r.hash.Some?
  {
    if Unset(r.prev) && Unset(r.hash) then expected else r.hash.value
  }

  /** The chain from row `i` on. */
  function Verify(h: Hash, rows: seq<Row>, i: nat, expected: string): Verdict
    requires i <= |rows|
    decreases |rows| - i
  {
    if i == |rows| then Verdict(true, i)
    else if Unset(rows[i].prev) || LinkOk(h, expected, rows[i])
    then Verify(h, rows, i + 1, NextExpected(expected, rows[i]))
    else Verdict(false, i)
  }

  class Service {
    const h: Hash
    const stored: string -> string
    var rows: seq<Row>

    constructor (h: Hash, stored: string -> string)
      ensures this.h == h && this.stored == stored && rows == []
    {
      this.h, this.stored, rows := h, stored, [];
    }

    method LatestHash() returns (latest: string)
      ensures latest == Latest(rows)
    {
      var i := |rows|;
      assert rows[..i] == rows;
      while i > 0
        invariant 0 <= i <= |rows| && Latest(rows) == Latest(rows[..i])
      {
        i := i - 1;
        if !Unset(rows[i].hash) { return rows[i].hash.value; }
        assert rows[..i + 1][..i] == rows[..i];
      }
      return GENESIS;
    }

    /** The common tail of Log and LogDiff, once the three JSON texts are made. */
    method Log(f: Fields)
      modifies this`rows
      ensures rows == old(rows) + [Appended(h, stored, old(rows), f)]
    {
      var prev := LatestHash();
      var entryHash := h(Joined(prev, f));
      rows := rows + [Row(Kept(stored, f), Some(prev), Some(entryHash))];
    }

    method VerifyAuditChain() returns (valid: bool, index: nat)
      ensures Verdict(valid, index) == Verify(h, rows, 0, GENESIS)
    {
      var expected := GENESIS;
      var i := 0;
      while i < |rows|
        invariant 0 <= i <= |rows|
        invariant Verify(h, rows, i, expected) == Verify(h, rows, 0, GENESIS)
      {
        var l := rows[i];
        if Unset(l.prev) {
          if !Unset(l.hash) { expected := l.hash.value; }
        } else {
          if l.prev.value != expected { return false, i; }
          var computed := h(Joined(l.prev.value, l.fields));
          if l.hash != Some(computed) { return false, i; }
          expected := l.hash.value;
        }
        i := i + 1;
      }
      return true, |rows|;
    }
  }

  /** The row an append stores: an empty address or agent becomes NULL, JSON is as the store keeps it. */
  lemma AppendedIs(h: Hash, stored: string -> string, rows: seq<Row>, f: Fields)
    ensures var r := Appended(h, stored, rows, f);
            && r.prev == Some(Latest(rows)) && r.hash == Some(h(Joined(Latest(rows), f)))
            && r.fields.user == f.user && r.fields.entityType == f.entityType
            && r.fields.entityId == f.entityId && r.fields.action == f.action
            && r.fields.changes == stored(f.changes) && r.fields.oldValues == stored(f.oldValues)
            && r.fields.newValues == stored(f.newValues)
            && r.fields.ip == (if f.ip == Some("") then None else f.ip)
            && r.fields.agent == (if f.agent == Some("") then None else f.agent)
  {
  }

  // ---------- what a verified table is ----------

  /** Every linked row names the latest hash before it and carries its own hash. */
  ghost predicate ChainOk(h: Hash, rows: seq<Row>, from: nat) {
    forall j :: from <= j < |rows| && !Unset(rows[j].prev) ==> LinkOk(h, Latest(rows[..j]), rows[j])
  }

  lemma {:induction false} VerifyIsChainOk(h: Hash, rows: seq<Row>, i: nat)
    requires HashLike(h) && i <= |rows|
    ensures var v := Verify(h, rows, i, Latest(rows[..i]));
            && (v.valid <==> ChainOk(h, rows, i))
            && (v.valid ==> v.index == |rows|)
            && (!v.valid ==>
                  && i <= v.index < |rows| && !Unset(rows[v.index].prev)
                  && !LinkOk(h, Latest(rows[..v.index]), rows[v.index])
                  && ChainOk(h, rows[..v.index], i))
    decreases |rows| - i
  {
    if i < |rows| {
      var expected := Latest(rows[..i]);
      if Unset(rows[i].prev) || LinkOk(h, expected, rows[i]) {
        LatestStep(h, rows, i);
        VerifyIsChainOk(h, rows, i + 1);
        var v := Verify(h, rows, i + 1, Latest(rows[..i + 1]));
        if !v.valid {
          assert forall j :: i <= j < v.index ==> rows[..v.index][..j] == rows[..j];
        }
      }
    }
  }

  lemma LatestStep(h: Hash, rows: seq<Row>, i: nat)
    requires HashLike(h) && i < |rows|
    requires Unset(rows[i].prev) || LinkOk(h, Latest(rows[..i]), rows[i])
    ensures Latest(rows[..i + 1]) == NextExpected(Latest(rows[..i]), rows[i])
  {
    assert rows[..i + 1][..i] == rows[..i];
    if !Unset(rows[i].prev) {
      assert |AuditHash(h, Latest(rows[..i]), rows[i].fields)| == 64;
    }
  }

  /** The verdict, read off the rows: the chain is valid, or its first bad row is reported. */
  lemma VerdictMeans(h: Hash, rows: seq<Row>)
    requires HashLike(h)
    ensures var v := Verify(h, rows, 0, GENESIS);
            && (v.valid <==> ChainOk(h, rows, 0))
            && (v.valid ==> v.index == |rows|)
            && (!v.valid ==> v.index < |rows| && ChainOk(h, rows[..v.index], 0)
                             && !ChainOk(h, rows[..v.index + 1], 0))
  {
    VerifyIsChainOk(h, rows, 0);
    assert rows[..0] == [];
    var v := Verify(h, rows, 0, GENESIS);
    if !v.valid {
      BrokenAt(h, rows, v.index);
    }
  }

  lemma BrokenAt(h: Hash, rows: seq<Row>, k: nat)
    requires k < |rows| && !Unset(rows[k].prev) && !LinkOk(h, Latest(rows[..k]), rows[k])
    ensures !ChainOk(h, rows[..k + 1], 0)
  {
    var some := rows[..k + 1];
    assert some[..k] == rows[..k] && some[k] == rows[k];
  }

  // ---------- produced tables verify ----------

  lemma {:induction false} TablePrefix(h: Hash, stored: string -> string, es: seq<Entry>, i: nat)
    requires i < |es|
    ensures Table(h, stored, es)[..i] == Table(h, stored, es[..i])
    ensures Table(h, stored, es)[i] == RowOf(h, stored, Table(h, stored, es[..i]), es[i])
    decreases |es|
  {
    var n := |es| - 1;
    if i < n {
      TablePrefix(h, stored, es[..n], i);
      assert es[..n][..i] == es[..i];
    }
  }

  /** The text hashed for entry `i` when it was written, and the one hashed when it is verified. */
  function Written(h: Hash, stored: string -> string, es: seq<Entry>, i: nat): string
    requires i < |es| && es[i].Logged?
  {
    Joined(Latest(Table(h, stored, es[..i])), es[i].fields)
  }

  function ReadAgain(h: Hash, stored: string -> string, es: seq<Entry>, i: nat): string
    requires i < |es| && es[i].Logged?
  {
    Joined(Latest(Table(h, stored, es[..i])), Kept(stored, es[i].fields))
  }

  lemma {:induction false} LatestIsSet(rows: seq<Row>)
    ensures Latest(rows) != ""
  {
    if rows != [] {
      LatestIsSet(rows[..|rows| - 1]);
    }
  }

  lemma EntryLinks(h: Hash, stored: string -> string, es: seq<Entry>, i: nat)
    requires i < |es| && Proper(es[i])
    ensures var rows := Table(h, stored, es);
            && (!Unset(rows[i].prev) <==> es[i].Logged?)
            && (es[i].Logged? ==>
                  (LinkOk(h, Latest(rows[..i]), rows[i])
                   <==> h(ReadAgain(h, stored, es, i)) == h(Written(h, stored, es, i))))
  {
    TablePrefix(h, stored, es, i);
    LatestIsSet(Table(h, stored, es[..i]));
  }

  // ---------- which records survive storage ----------

  function JsonTexts(f: Fields): seq<string> { [f.changes, f.oldValues, f.newValues] }

  /** The three JSON texts of a record, joined, come back from the store as they went in. */
  predicate Survives(stored: string -> string, f: Fields) {
    Join(JsonTexts(f)) == Join(JsonTexts(Kept(stored, f)))
  }

  lemma {:induction false} JoinAppend(a: seq<string>, b: seq<string>)
    requires a != [] && b != []
    ensures Join(a + b) == Join(a) + [SEPARATOR] + Join(b)
    decreases |a|
  {
    if |a| == 1 {
      assert (a + b)[1..] == b;
    } else {
      JoinAppend(a[1..], b);
      assert (a + b)[0] == a[0] && (a + b)[1..] == a[1..] + b;
      var head := a[0] + [SEPARATOR];
      assert head + (Join(a[1..]) + [SEPARATOR] + Join(b)) == (head + Join(a[1..])) + [SEPARATOR] + Join(b);
    }
  }

  function Front(prev: string, f: Fields): seq<string> {
    [prev, Text(f.user), f.entityType, Text(f.entityId), f.action]
  }

  function Back(f: Fields): seq<string> { [Text(f.ip), Text(f.agent)] }

  lemma JoinedInThree(prev: string, f: Fields)
    ensures Joined(prev, f)
            == (Join(Front(prev, f)) + [SEPARATOR])
               + (Join(JsonTexts(f)) + ([SEPARATOR] + Join(Back(f))))
  {
    assert [prev] + Parts(f) == Front(prev, f) + (JsonTexts(f) + Back(f));
    JoinAppend(Front(prev, f), JsonTexts(f) + Back(f));
    JoinAppend(JsonTexts(f), Back(f));
    var j, b := Join(JsonTexts(f)), Join(Back(f));
    assert j + [SEPARATOR] + b == j + ([SEPARATOR] + b);
  }

  /** Whatever its predecessor, a record's hashed text comes back exactly if its JSON texts do. */
  lemma TextSurvivesIff(stored: string -> string, prev: string, f: Fields)
    ensures Joined(prev, f) == Joined(prev, Kept(stored, f)) <==> Survives(stored, f)
  {
    var g := Kept(stored, f);
    JoinedInThree(prev, f);
    JoinedInThree(prev, g);
    assert Front(prev, f) == Front(prev, g) && Back(f) == Back(g);
    var front, back := Join(Front(prev, f)) + [SEPARATOR], [SEPARATOR] + Join(Back(f));
    var x, y := Join(JsonTexts(f)), Join(JsonTexts(g));
    if Joined(prev, f) == Joined(prev, g) {
      SamePrefix(front, front, x + back, y + back);
      SamePrefix(x, y, back, back);
    }
  }

  /** The row of a logged entry is linked exactly when its texts survive, or collide. */
  lemma EntrySurvives(h: Hash, stored: string -> string, es: seq<Entry>, i: nat)
    requires i < |es| && Proper(es[i])
    ensures !Unset(Table(h, stored, es)[i].prev) <==> es[i].Logged?
    ensures es[i].Logged? ==>
              (LinkOk(h, Latest(Table(h, stored, es)[..i]), Table(h, stored, es)[i])
               <==> || Survives(stored, es[i].fields)
                    || Collision(h, Written(h, stored, es, i), ReadAgain(h, stored, es, i)))
  {
    EntryLinks(h, stored, es, i);
    if es[i].Logged? {
      TextSurvivesIff(stored, Latest(Table(h, stored, es[..i])), es[i].fields);
    }
  }

  /**
    Whatever is written, in any order, by Log, LogDiff and writers without a predecessor, the
    table verifies exactly when the three JSON texts of every logged record survive storage, or
    that record's text collides under the hash with what the store made of it.
   */
  lemma ProducedVerifiesIff(h: Hash, stored: string -> string, es: seq<Entry>)
    requires HashLike(h) && forall e :: e in es ==> Proper(e)
    ensures Verify(h, Table(h, stored, es), 0, GENESIS).valid
            <==> forall i :: 0 <= i < |es| && es[i].Logged? ==>
                   || Survives(stored, es[i].fields)
                   || Collision(h, Written(h, stored, es, i), ReadAgain(h, stored, es, i))
  {
    VerdictMeans(h, Table(h, stored, es));
    forall i | 0 <= i < |es|
      ensures !Unset(Table(h, stored, es)[i].prev) <==> es[i].Logged?
      ensures es[i].Logged? ==>
                (LinkOk(h, Latest(Table(h, stored, es)[..i]), Table(h, stored, es)[i])
                 <==> || Survives(stored, es[i].fields)
                      || Collision(h, Written(h, stored, es, i), ReadAgain(h, stored, es, i)))
    {
      EntrySurvives(h, stored, es, i);
    }
  }

  /** With a store that gives back the exact bytes, every produced table verifies to its end. */
  lemma ProducedVerifies(h: Hash, stored: string -> string, es: seq<Entry>)
    requires HashLike(h) && forall e :: e in es ==> Proper(e)
    requires forall e :: e in es && e.Logged? ==> Survives(stored, e.fields)
    ensures Verify(h, Table(h, stored, es), 0, GENESIS) == Verdict(true, |es|)
  {
    ProducedVerifiesIff(h, stored, es);
    VerdictMeans(h, Table(h, stored, es));
    forall i | 0 <= i < |es| && es[i].Logged? ensures Survives(stored, es[i].fields) {
      assert es[i] in es;
    }
  }

  /**
    Where verification stops: at the first logged record that does not survive storage, if the
    hash does not collide on its two texts.
   */
  lemma RewritingStoreIsNoticed(h: Hash, stored: string -> string, es: seq<Entry>, i: nat)
    requires HashLike(h) && forall e :: e in es ==> Proper(e)
    requires i < |es| && es[i].Logged? && !Survives(stored, es[i].fields)
    requires forall j :: 0 <= j < i && es[j].Logged? ==> Survives(stored, es[j].fields)
    ensures || Verify(h, Table(h, stored, es), 0, GENESIS) == Verdict(false, i)
            || Collision(h, Written(h, stored, es, i), ReadAgain(h, stored, es, i))
  {
    EntrySurvives(h, stored, es, i);
    if !Collision(h, Written(h, stored, es, i), ReadAgain(h, stored, es, i)) {
      var rows := Table(h, stored, es);
      forall j | 0 <= j < i && !Unset(rows[j].prev) ensures LinkOk(h, Latest(rows[..j]), rows[j]) {
        EntrySurvives(h, stored, es, j);
      }
      FirstBreak(h, rows, i);
    }
  }

  lemma FirstBreak(h: Hash, rows: seq<Row>, i: nat)
    requires HashLike(h) && i < |rows| && !Unset(rows[i].prev)
    requires !LinkOk(h, Latest(rows[..i]), rows[i])
    requires forall j :: 0 <= j < i && !Unset(rows[j].prev) ==> LinkOk(h, Latest(rows[..j]), rows[j])
    ensures Verify(h, rows, 0, GENESIS) == Verdict(false, i)
  {
    VerifyIsChainOk(h, rows, 0);
    assert rows[..0] == [];
    var v := Verify(h, rows, 0, GENESIS);
    assert forall j :: 0 <= j < v.index <= |rows| ==>
      rows[..v.index][j] == rows[j] && rows[..v.index][..j] == rows[..j];
  }

  // ---------- JSONB ----------

  /**
    How a JSONB column spells a compact JSON text: a space behind every colon and comma that stands
    outside a string. The order of keys and the spelling of escapes are not modelled.
   */
  function Spelled(s: string, inside: bool): (r: string)
    ensures |r| >= |s|
    decreases |s|
  {
    if s == "" then ""
    else if inside && s[0] == '\\' && |s| > 1 then s[..2] + Spelled(s[2..], true)
    else if inside then [s[0]] + Spelled(s[1..], s[0] != '"')
    else if s[0] == ':' || s[0] == ',' then [s[0], ' '] + Spelled(s[1..], false)
    else [s[0]] + Spelled(s[1..], s[0] == '"')
  }

  function Jsonb(s: string): string { Spelled(s, false) }

  /** Does a colon or comma stand outside every string? */
  predicate Punctuated(s: string, inside: bool)
    decreases |s|
  {
    if s == "" then false
    else if inside && s[0] == '\\' && |s| > 1 then Punctuated(s[2..], true)
    else if inside then Punctuated(s[1..], s[0] != '"')
    else s[0] == ':' || s[0] == ',' || Punctuated(s[1..], s[0] == '"')
  }

  lemma {:induction false} SpelledIff(s: string, inside: bool)
    ensures if Punctuated(s, inside) then |Spelled(s, inside)| > |s| else Spelled(s, inside) == s
    decreases |s|
  {
    if s != "" {
      if inside && s[0] == '\\' && |s| > 1 {
        SpelledIff(s[2..], true);
        assert s[..2] + s[2..] == s;
      } else {
        SpelledIff(s[1..], if inside then s[0] != '"' else s[0] == '"');
        assert [s[0]] + s[1..] == s;
      }
    }
  }

  lemma JoinLength(a: string, b: string, c: string)
    ensures |Join([a, b, c])| == |a| + |b| + |c| + 2
  {
    JoinCons(a, [b, c]);
    JoinCons(b, [c]);
    assert [a] + [b, c] == [a, b, c] && [b] + [c] == [b, c] && Join([c]) == c;
  }

  /**
    In a JSONB column a record survives exactly when none of its three texts holds a colon or comma
    outside a string: the empty objects of a bare Log do, a LogDiff record never does, because its
    changes text is an object of two keys.
   */
  lemma JsonbSurvivesIff(f: Fields)
    ensures Survives(Jsonb, f)
            <==> forall t :: t in JsonTexts(f) ==> !Punctuated(t, false)
  {
    var g := Kept(Jsonb, f);
    SpelledIff(f.changes, false);
    SpelledIff(f.oldValues, false);
    SpelledIff(f.newValues, false);
    JoinLength(f.changes, f.oldValues, f.newValues);
    JoinLength(g.changes, g.oldValues, g.newValues);
    assert f.changes in JsonTexts(f) && f.oldValues in JsonTexts(f) && f.newValues in JsonTexts(f);
    if forall t :: t in JsonTexts(f) ==> !Punctuated(t, false) {
      assert JsonTexts(g) == JsonTexts(f);
    }
  }

  const A_CHANGE := "{\"action\":\"UPDATE\",\"changed_keys\":[\"a\"]}"

  /** A record as LogDiff writes it for a change of "a" from 1 to 2. */
  const A_DIFF :=
    Fields(None, "deal", None, "UPDATE", A_CHANGE, "{\"a\":1}", "{\"a\":2}", None, None)

  /** A record as Log writes it without changes. */
  const A_LOG := Fields(None, "deal", None, "VIEW", "{}", "{}", "{}", None, None)

  lemma SpelledText()
    ensures Jsonb("{\"a\":1}") == "{\"a\": 1}"
    ensures Punctuated("{\"a\":1}", false) && !Punctuated("{}", false)
  {
    var s := "{\"a\":1}";
    assert s[1..] == "\"a\":1}" && s[1..][1..] == "a\":1}" && s[1..][1..][1..] == "\":1}";
    var t := "\":1}";
    assert t[1..] == ":1}" && t[1..][1..] == "1}" && "1}"[1..] == "}" && "}"[1..] == "";
    assert "{}"[1..] == "}";
    assert Spelled("1}", false) == "1}";
    assert Spelled(":1}", false) == ": 1}";
    assert Spelled(t, true) == "\": 1}";
    assert Spelled("a\":1}", true) == "a\": 1}";
  }

  /** One LogDiff call on a JSONB column: the very next verification reports row 0 as broken. */
  lemma OneDiffBreaksTheChain(h: Hash)
    requires HashLike(h)
    ensures var rows := Table(h, Jsonb, [Logged(A_DIFF)]);
            || Verify(h, rows, 0, GENESIS) == Verdict(false, 0)
            || Collision(h, Joined(GENESIS, A_DIFF), Joined(GENESIS, Kept(Jsonb, A_DIFF)))
  {
    SpelledText();
    JsonbSurvivesIff(A_DIFF);
    assert A_DIFF.oldValues in JsonTexts(A_DIFF);
    var es := [Logged(A_DIFF)];
    assert es[..0] == [];
    RewritingStoreIsNoticed(h, Jsonb, es, 0);
  }

  /** One Log call without changes on the same column verifies. */
  lemma OneLogVerifies(h: Hash)
    requires HashLike(h)
    ensures Verify(h, Table(h, Jsonb, [Logged(A_LOG)]), 0, GENESIS) == Verdict(true, 1)
  {
    SpelledText();
    JsonbSurvivesIff(A_LOG);
    ProducedVerifies(h, Jsonb, [Logged(A_LOG)]);
  }

  // ---------- integrity ----------

  ghost predicate FullyLinked(rows: seq<Row>) {
    forall r :: r in rows ==> !Unset(r.prev) && !Unset(r.hash)
  }

  function TextOf(r: Row): string
    requires r.prev.Some?
  {
    Joined(r.prev.value, r.fields)
  }

  /** The hashed texts of all rows, in order. */
  function TextsOf(rows: seq<Row>): (texts: seq<string>)
    requires FullyLinked(rows)
    ensures |texts| == |rows|
  {
    if rows == [] then []
    else
      var n := |rows| - 1;
      assert rows[n] in rows;
      TextsOf(rows[..n]) + [TextOf(rows[n])]
  }

  /** A witness that the hash failed: two hashed texts collide, or one hashes to the genesis value. */
  ghost predicate Broken(h: Hash, a: seq<string>, b: seq<string>) {
    || (exists x, y :: x in a && y in b && Collision(h, x, y))
    || (exists x :: (x in a || x in b) && h(x) == GENESIS)
  }

  lemma LastLink(h: Hash, rows: seq<Row>)
    requires HashLike(h) && FullyLinked(rows) && ChainOk(h, rows, 0) && rows != []
    ensures var n := |rows| - 1;
            && FullyLinked(rows[..n]) && ChainOk(h, rows[..n], 0)
            && rows[n].prev == Some(Latest(rows[..n])) && |Latest(rows[..n])| == 64
            && Latest(rows) == h(TextOf(rows[n]))
  {
    EarlierLinks(h, rows);
    LatestLength(h, rows[..|rows| - 1]);
    LastRow(h, rows);
  }

  lemma EarlierLinks(h: Hash, rows: seq<Row>)
    requires FullyLinked(rows) && ChainOk(h, rows, 0) && rows != []
    ensures FullyLinked(rows[..|rows| - 1]) && ChainOk(h, rows[..|rows| - 1], 0)
  {
    var n := |rows| - 1;
    assert forall j :: 0 <= j < n ==> rows[..n][..j] == rows[..j];
  }

  lemma LastRow(h: Hash, rows: seq<Row>)
    requires FullyLinked(rows) && ChainOk(h, rows, 0) && rows != []
    ensures var n := |rows| - 1;
            rows[n].prev == Some(Latest(rows[..n])) && Latest(rows) == h(TextOf(rows[n]))
  {
    var n := |rows| - 1;
    assert rows[n] in rows;
    assert LinkOk(h, Latest(rows[..n]), rows[n]);
  }

  lemma LatestLength(h: Hash, rows: seq<Row>)
    requires HashLike(h) && FullyLinked(rows) && ChainOk(h, rows, 0)
    ensures |Latest(rows)| == 64
  {
    if rows != [] {
      var n := |rows| - 1;
      assert rows[n] in rows;
      assert LinkOk(h, Latest(rows[..n]), rows[n]);
      assert |AuditHash(h, Latest(rows[..n]), rows[n].fields)| == 64;
    }
  }

  lemma BrokenMore(h: Hash, a: seq<string>, b: seq<string>, x: string, y: string)
    requires Broken(h, a, b)
    ensures Broken(h, a + [x], b + [y])
  {
    if p, q :| p in a && q in b && Collision(h, p, q) {
      assert p in a + [x] && q in b + [y];
    } else {
      var p :| (p in a || p in b) && h(p) == GENESIS;
      assert p in a + [x] || p in b + [y];
    }
  }

  lemma JoinedSplits(p: string, f: Fields)
    ensures Joined(p, f) == p + ([SEPARATOR] + Join(Parts(f)))
  {
    assert ([p] + Parts(f))[1..] == Parts(f);
    assert p + [SEPARATOR] + Join(Parts(f)) == p + ([SEPARATOR] + Join(Parts(f)));
  }

  lemma JoinedPrev(p: string, q: string, f: Fields, g: Fields)
    requires Joined(p, f) == Joined(q, g) && |p| == |q|
    ensures p == q && Join(Parts(f)) == Join(Parts(g))
  {
    var x, y := [SEPARATOR] + Join(Parts(f)), [SEPARATOR] + Join(Parts(g));
    JoinedSplits(p, f);
    JoinedSplits(q, g);
    SamePrefix(p, q, x, y);
    assert x[1..] == Join(Parts(f)) && y[1..] == Join(Parts(g));
  }

  lemma {:induction false} SameHeadSameLog(h: Hash, a: seq<Row>, b: seq<Row>)
    requires HashLike(h) && FullyLinked(a) && FullyLinked(b)
    requires ChainOk(h, a, 0) && ChainOk(h, b, 0) && Latest(a) == Latest(b)
    ensures Broken(h, TextsOf(a), TextsOf(b)) || TextsOf(a) == TextsOf(b)
    decreases |a|
  {
    if a == [] && b == [] {
    } else if a == [] || b == [] {
      var r := if a == [] then b else a;
      LastLink(h, r);
      assert TextOf(r[|r| - 1]) in TextsOf(r);
    } else {
      LastLink(h, a);
      LastLink(h, b);
      var m, n := |a| - 1, |b| - 1;
      var x, y := TextOf(a[m]), TextOf(b[n]);
      if x == y {
        JoinedPrev(a[m].prev.value, b[n].prev.value, a[m].fields, b[n].fields);
        SameHeadSameLog(h, a[..m], b[..n]);
        if TextsOf(a[..m]) != TextsOf(b[..n]) {
          BrokenMore(h, TextsOf(a[..m]), TextsOf(b[..n]), x, y);
        }
      } else {
        assert x in TextsOf(a) && y in TextsOf(b) && Collision(h, x, y);
      }
    }
  }

  /**
    Two verified, fully linked logs with the same last hash have the same length and the same
    joined text in every row, unless the hash itself is broken on texts that stand in them.
   */
  lemma ChainIntegrity(h: Hash, a: seq<Row>, b: seq<Row>)
    requires HashLike(h) && FullyLinked(a) && FullyLinked(b)
    requires Verify(h, a, 0, GENESIS).valid && Verify(h, b, 0, GENESIS).valid
    requires Latest(a) == Latest(b)
    ensures Broken(h, TextsOf(a), TextsOf(b)) || TextsOf(a) == TextsOf(b)
  {
    VerdictMeans(h, a);
    VerdictMeans(h, b);
    SameHeadSameLog(h, a, b);
  }

  // ---------- from texts to fields ----------

  /** The text that is hashed, written out: ten texts in this order, an absent column as no text. */
  lemma JoinedIs(prev: string, f: Fields)
    ensures Joined(prev, f)
            == prev + "|" + (if f.user.Some? then f.user.value else "")
               + "|" + f.entityType + "|" + (if f.entityId.Some? then f.entityId.value else "")
               + "|" + f.action + "|" + f.changes + "|" + f.oldValues + "|" + f.newValues
               + "|" + (if f.ip.Some? then f.ip.value else "")
               + "|" + (if f.agent.Some? then f.agent.value else "")
  {
    var first := [prev, Text(f.user), f.entityType, Text(f.entityId), f.action];
    var second := [f.changes, f.oldValues, f.newValues, Text(f.ip), Text(f.agent)];
    assert [prev] + Parts(f) == first + second;
    JoinAppend(first, second);
    JoinOfFive(prev, Text(f.user), f.entityType, Text(f.entityId), f.action);
    JoinOfFive(f.changes, f.oldValues, f.newValues, Text(f.ip), Text(f.agent));
    assert Join(first) + [SEPARATOR] + Join(second) == Join(first) + ("|" + Join(second));
    Regrouped(Join(first), f.changes, f.oldValues, f.newValues, Text(f.ip), Text(f.agent));
  }

  lemma Regrouped(front: string, a: string, b: string, c: string, d: string, e: string)
    ensures front + ("|" + (a + "|" + b + "|" + c + "|" + d + "|" + e))
            == front + "|" + a + "|" + b + "|" + c + "|" + d + "|" + e
  {
  }

  lemma JoinOfFive(a: string, b: string, c: string, d: string, e: string)
    ensures Join([a, b, c, d, e]) == a + "|" + b + "|" + c + "|" + d + "|" + e
  {
    JoinCons(a, [b, c, d, e]);
    JoinCons(b, [c, d, e]);
    JoinCons(c, [d, e]);
    JoinCons(d, [e]);
    assert [a] + [b, c, d, e] == [a, b, c, d, e] && [b] + [c, d, e] == [b, c, d, e];
    assert [c] + [d, e] == [c, d, e] && [d] + [e] == [d, e];
    Bracketed(a, b, c, d, e);
  }

  lemma Bracketed(a: string, b: string, c: string, d: string, e: string)
    ensures a + "|" + (b + "|" + (c + "|" + (d + "|" + e))) == a + "|" + b + "|" + c + "|" + d + "|" + e
  {
  }

  /** Only the user agent, the last part, may hold the separator. */
  predicate SeparatorFree(f: Fields) {
    && SEPARATOR !in Text(f.user) && SEPARATOR !in f.entityType && SEPARATOR !in Text(f.entityId)
    && SEPARATOR !in f.action && SEPARATOR !in f.changes && SEPARATOR !in f.oldValues
    && SEPARATOR !in f.newValues && SEPARATOR !in Text(f.ip)
  }

  /** Two records that differ, if at all, in a column that is absent in one and empty in the other. */
  ghost predicate SameRecord(f: Fields, g: Fields) {
    && Text(f.user) == Text(g.user) && f.entityType == g.entityType
    && Text(f.entityId) == Text(g.entityId) && f.action == g.action
    && f.changes == g.changes && f.oldValues == g.oldValues && f.newValues == g.newValues
    && Text(f.ip) == Text(g.ip) && Text(f.agent) == Text(g.agent)
  }

  lemma {:induction false} JoinInjective(p: seq<string>, q: seq<string>)
    requires |p| == |q| && Join(p) == Join(q)
    requires forall i :: 0 <= i < |p| - 1 ==> SEPARATOR !in p[i] && SEPARATOR !in q[i]
    ensures p == q
    decreases |p|
  {
    if |p| > 1 {
      SplitAt(p[0], q[0], SEPARATOR, Join(p[1..]), Join(q[1..]));
      JoinInjective(p[1..], q[1..]);
      assert p == [p[0]] + p[1..] && q == [q[0]] + q[1..];
    }
  }

  /** Equal texts under prev hashes of equal length are equal records, field by field. */
  lemma TextsGiveFields(p: string, q: string, f: Fields, g: Fields)
    requires |p| == |q| && Joined(p, f) == Joined(q, g)
    requires SeparatorFree(f) && SeparatorFree(g)
    ensures p == q && SameRecord(f, g)
  {
    var x, y := [p] + Parts(f), [q] + Parts(g);
    JoinedPrev(p, q, f, g);
    JoinInjective(Parts(f), Parts(g));
    assert x[1] == y[1] && x[2] == y[2] && x[3] == y[3] && x[4] == y[4] && x[5] == y[5];
    assert x[6] == y[6] && x[7] == y[7] && x[8] == y[8] && x[9] == y[9];
  }

  lemma LastRecords(h: Hash, a: seq<Row>, b: seq<Row>)
    requires HashLike(h) && FullyLinked(a) && FullyLinked(b) && a != [] && b != []
    requires ChainOk(h, a, 0) && ChainOk(h, b, 0) && TextOf(a[|a| - 1]) == TextOf(b[|b| - 1])
    requires SeparatorFree(a[|a| - 1].fields) && SeparatorFree(b[|b| - 1].fields)
    ensures SameRecord(a[|a| - 1].fields, b[|b| - 1].fields)
  {
    LastLink(h, a);
    LastLink(h, b);
    var x, y := a[|a| - 1], b[|b| - 1];
    TextsGiveFields(x.prev.value, y.prev.value, x.fields, y.fields);
  }

  ghost predicate SameRecords(a: seq<Row>, b: seq<Row>) {
    |a| == |b| && forall i :: 0 <= i < |a| ==> SameRecord(a[i].fields, b[i].fields)
  }

  ghost predicate AllSeparatorFree(rows: seq<Row>) {
    forall r :: r in rows ==> SeparatorFree(r.fields)
  }

  lemma {:induction false} SameTextsSameRecords(h: Hash, a: seq<Row>, b: seq<Row>)
    requires HashLike(h) && FullyLinked(a) && FullyLinked(b)
    requires ChainOk(h, a, 0) && ChainOk(h, b, 0) && TextsOf(a) == TextsOf(b)
    requires AllSeparatorFree(a) && AllSeparatorFree(b)
    ensures SameRecords(a, b)
    decreases |a|
  {
    assert |TextsOf(a)| == |a| && |TextsOf(b)| == |b|;
    if a != [] {
      var n := |a| - 1;
      EarlierLinks(h, a);
      EarlierLinks(h, b);
      LastTexts(a, b);
      LastRecords(h, a, b);
      SameTextsSameRecords(h, a[..n], b[..n]);
      OneMoreRecord(a, b);
    }
  }

  lemma LastTexts(a: seq<Row>, b: seq<Row>)
    requires FullyLinked(a) && FullyLinked(b) && a != [] && |a| == |b| && TextsOf(a) == TextsOf(b)
    requires FullyLinked(a[..|a| - 1]) && FullyLinked(b[..|b| - 1])
    ensures a[|a| - 1].prev.Some? && b[|b| - 1].prev.Some?
    ensures TextsOf(a[..|a| - 1]) == TextsOf(b[..|b| - 1]) && TextOf(a[|a| - 1]) == TextOf(b[|b| - 1])
  {
    var n := |a| - 1;
    assert a[n] in a && b[n] in b;
    SameTail(TextsOf(a[..n]), TextsOf(b[..n]), TextOf(a[n]), TextOf(b[n]));
  }

  lemma OneMoreRecord(a: seq<Row>, b: seq<Row>)
    requires a != [] && |a| == |b| && SameRecords(a[..|a| - 1], b[..|b| - 1])
    requires SameRecord(a[|a| - 1].fields, b[|b| - 1].fields)
    ensures SameRecords(a, b)
  {
    forall i | 0 <= i < |a| ensures SameRecord(a[i].fields, b[i].fields) {
      if i < |a| - 1 {
        assert a[..|a| - 1][i] == a[i] && b[..|b| - 1][i] == b[i];
      }
    }
  }

  lemma SameTail<T>(a: seq<T>, b: seq<T>, x: T, y: T)
    requires a + [x] == b + [y]
    ensures a == b && x == y
  {
    SamePrefix(a, b, [x], [y]);
  }

  /**
    Two verified, fully linked logs with the same last hash hold the same records, row by row and field
    by field, unless the hash is broken on texts that stand in them.
   */
  lemma SameHeadSameRecords(h: Hash, a: seq<Row>, b: seq<Row>)
    requires HashLike(h) && FullyLinked(a) && FullyLinked(b)
    requires Verify(h, a, 0, GENESIS).valid && Verify(h, b, 0, GENESIS).valid
    requires Latest(a) == Latest(b) && AllSeparatorFree(a) && AllSeparatorFree(b)
    ensures Broken(h, TextsOf(a), TextsOf(b)) || SameRecords(a, b)
  {
    ChainIntegrity(h, a, b);
    if TextsOf(a) == TextsOf(b) {
      VerdictMeans(h, a);
      VerdictMeans(h, b);
      SameTextsSameRecords(h, a, b);
    }
  }

  /**
    Rewriting the record of one linked row of a verified log, and nothing else, is reported at that
    row, unless the two records are the same field by field or their texts collide.
   */
  lemma RewrittenRecordIsNoticed(h: Hash, rows: seq<Row>, i: nat, g: Fields)
    requires HashLike(h) && Verify(h, rows, 0, GENESIS).valid
    requires i < |rows| && !Unset(rows[i].prev)
    requires SeparatorFree(rows[i].fields) && SeparatorFree(g)
    ensures var prev := rows[i].prev.value;
            || Verify(h, rows[i := rows[i].(fields := g)], 0, GENESIS) == Verdict(false, i)
            || SameRecord(rows[i].fields, g)
            || Collision(h, Joined(prev, rows[i].fields), Joined(prev, g))
  {
    VerdictMeans(h, rows);
    var prev, after := rows[i].prev.value, rows[i := rows[i].(fields := g)];
    assert LinkOk(h, Latest(rows[..i]), rows[i]);
    assert after[..i] == rows[..i];
    if Joined(prev, rows[i].fields) == Joined(prev, g) {
      TextsGiveFields(prev, prev, rows[i].fields, g);
    } else if h(Joined(prev, g)) != h(Joined(prev, rows[i].fields)) {
      assert !LinkOk(h, Latest(after[..i]), after[i]);
      forall j | 0 <= j < i && !Unset(after[j].prev) ensures LinkOk(h, Latest(after[..j]), after[j]) {
        assert after[..j] == rows[..j];
      }
      FirstBreak(h, after, i);
    }
  }

  /** Without that restriction two different records can share one text, and so one hash. */
  lemma SeparatorAmbiguity(prev: string)
    ensures var f := Fields(None, "deal", None, "a|b", "c", "{}", "{}", None, None);
            var g := Fields(None, "deal", None, "a", "b|c", "{}", "{}", None, None);
            f != g && Joined(prev, f) == Joined(prev, g)
  {
    var f := Fields(None, "deal", None, "a|b", "c", "{}", "{}", None, None);
    var g := Fields(None, "deal", None, "a", "b|c", "{}", "{}", None, None);
    var head, tail := [prev, "", "deal", ""], ["{}", "{}", "", ""];
    assert "a|b"[1] == '|';
    assert [prev] + Parts(f) == head + (["a|b", "c"] + tail);
    assert [prev] + Parts(g) == head + (["a", "b|c"] + tail);
    AmbiguousTail(tail);
    SharedHead(head, ["a|b", "c"] + tail, ["a", "b|c"] + tail);
  }

  lemma AmbiguousTail(tail: seq<string>)
    requires tail != []
    ensures Join(["a|b", "c"] + tail) == Join(["a", "b|c"] + tail)
  {
    JoinCons("a|b", ["c"] + tail);
    JoinCons("c", tail);
    JoinCons("a", ["b|c"] + tail);
    JoinCons("b|c", tail);
    var rest := [SEPARATOR] + Join(tail);
    assert ["a|b"] + (["c"] + tail) == ["a|b", "c"] + tail;
    assert ["a"] + (["b|c"] + tail) == ["a", "b|c"] + tail;
    assert "a|b" + [SEPARATOR] + "c" == "a" + [SEPARATOR] + "b|c";
    assert "a|b" + [SEPARATOR] + ("c" + rest) == ("a|b" + [SEPARATOR] + "c") + rest;
    assert "a" + [SEPARATOR] + ("b|c" + rest) == ("a" + [SEPARATOR] + "b|c") + rest;
    assert "c" + [SEPARATOR] + Join(tail) == "c" + rest;
    assert "b|c" + [SEPARATOR] + Join(tail) == "b|c" + rest;
  }

  lemma JoinCons(x: string, rest: seq<string>)
    requires rest != []
    ensures Join([x] + rest) == x + [SEPARATOR] + Join(rest)
  {
    assert ([x] + rest)[1..] == rest;
  }

  lemma {:induction false} SharedHead(head: seq<string>, p: seq<string>, q: seq<string>)
    requires p != [] && q != [] && Join(p) == Join(q)
    ensures Join(head + p) == Join(head + q)
  {
    if head == [] {
      assert head + p == p && head + q == q;
    } else {
      SharedHead(head[1..], p, q);
      JoinCons(head[0], head[1..] + p);
      JoinCons(head[0], head[1..] + q);
      assert [head[0]] + (head[1..] + p) == head + p && [head[0]] + (head[1..] + q) == head + q;
    }
  }
}
