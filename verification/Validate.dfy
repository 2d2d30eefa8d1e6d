/**
  Pass one of a restore: the envelope is walked token by token, no value is built, and the offset
  of every table array is recorded. Each method is proved against the tree the reference grammar
  would build: it accepts exactly the well-formed envelopes.
 */
module Validate {
  import opened Prelude
  import opened Json
  import opened Decoder
  import opened Store

  const FORMAT := "openlocalcrm-backup"
  const VERSION := 1
  const MAX_INT := 0x7fff_ffff_ffff_ffff

  // ---------- what a valid envelope is, on the tree ----------

  predicate Allows(s: Spec, column: string) { column in s.columns }

  ghost predicate RowFieldsOk(s: Spec, fs: seq<Field>) {
    && (forall i :: 0 <= i < |fs| ==> Allows(s, fs[i].name))
    && DistinctNames(fs)
    && s.pk in Names(fs)
  }

  ghost predicate RowOk(s: Spec, v: Value) { v.Obj? && RowFieldsOk(s, v.fields) }

  ghost predicate TableOk(s: Spec, v: Value) {
    v.Arr? && forall i :: 0 <= i < |v.elems| ==> RowOk(s, v.elems[i])
  }

  ghost predicate TableFieldOk(inv: Inventory, fld: Field) {
    var i := IndexOfTable(inv.specs, fld.name);
    i.Some? && TableOk(inv.specs[i.value], fld.value)
  }

  ghost predicate TablesOk(inv: Inventory, v: Value) {
    v.Obj? && forall i :: 0 <= i < |v.fields| ==> TableFieldOk(inv, v.fields[i])
  }

  ghost predicate HeaderFieldOk(inv: Inventory, fld: Field) {
    match fld.name
    case "format" => fld.value.Atom? && (fld.value.a.Str? || fld.value.a.Null?)
    case "version" =>
      fld.value.Atom? && (fld.value.a.Null? ||
                          (fld.value.a.Int? && -MAX_INT - 1 <= fld.value.a.n <= MAX_INT))
    case "tables" => TablesOk(inv, fld.value)
    case _ => true
  }

  /** Decoding null into a Go string or int leaves the variable as it was. */
  function FormatOf(fs: seq<Field>): string {
    if fs == [] then ""
    else
      var l := fs[|fs| - 1];
      if l.name == "format" && l.value.Atom? && l.value.a.Str? then l.value.a.s
      else FormatOf(fs[..|fs| - 1])
  }

  function VersionOf(fs: seq<Field>): int {
    if fs == [] then 0
    else
      var l := fs[|fs| - 1];
      if l.name == "version" && l.value.Atom? && l.value.a.Int? then l.value.a.n
      else VersionOf(fs[..|fs| - 1])
  }

  ghost predicate HeaderOk(inv: Inventory, fs: seq<Field>) {
    forall i :: 0 <= i < |fs| ==> HeaderFieldOk(inv, fs[i])
  }

  ghost predicate EnvelopeOk(inv: Inventory, v: Value) {
    && v.Obj? && HeaderOk(inv, v.fields)
    && FormatOf(v.fields) == FORMAT && VersionOf(v.fields) == VERSION
    && LastField(v.fields, "tables").Some?
  }

  /** The "tables" object of an envelope; its last occurrence counts. */
  function TablesObject(v: Value): Value {
    if v.Obj? && LastField(v.fields, "tables").Some? && LastField(v.fields, "tables").value.Obj?
    then LastField(v.fields, "tables").value else Obj([])
  }

  lemma {:induction false} LastFieldIsField(fs: seq<Field>, name: string)
    requires LastField(fs, name).Some?
    ensures Field(name, LastField(fs, name).value) in fs
  {
    if fs[|fs| - 1].name != name {
      LastFieldIsField(fs[..|fs| - 1], name);
    }
  }

  // ---------- the token machine against the grammar, one member or element at a time ----------

  /** In front of a value: the first token decides what Decode would find there. */
  lemma ValueToken(f: seq<Lex>, c: Cursor)
    requires c.pos <= |f| && (c.mode == ObjectColon || c.mode == TopValue)
    ensures var s, r := Next(f, c), DecodeAt(f, c);
            && (s.Error? ==> r.Bad?)
            && (s.Token? && s.lex.Lit? ==> r == Got(Atom(s.lex.a), s.next))
            && (s.Token? ==> !IsClose(s.lex))
  {
  }

  lemma ArrayToken(f: seq<Lex>, c: Cursor)
    requires c.pos <= |f| && (c.mode == ObjectColon || c.mode == TopValue)
    requires Next(f, c).Token? && Next(f, c).lex == LBracket
    ensures var d, r := Next(f, c).next, DecodeAt(f, c);
            && d.mode == ArrayStart && |d.stack| == |c.stack| + 1 && d.pos >= 1
            && var es := ParseElems(f, d.pos, true);
               if es.Fail? then r.Bad?
               else && r == Got(Arr(es.value), Popped(d, es.next))
                    && ParseValue(f, d.pos - 1) == Done(Arr(es.value), es.next)
  {
    var m := if c.mode == ObjectColon then ObjectValue else TopValue;
    assert (c.stack + [m])[..|c.stack|] == c.stack;
  }

  lemma ObjectToken(f: seq<Lex>, c: Cursor)
    requires c.pos <= |f| && (c.mode == ObjectColon || c.mode == TopValue)
    requires Next(f, c).Token? && Next(f, c).lex == LBrace
    ensures var d, r := Next(f, c).next, DecodeAt(f, c);
            && d.mode == ObjectStart && |d.stack| == |c.stack| + 1
            && var ms := ParseMembers(f, d.pos, true);
               if ms.Fail? then r.Bad? else r == Got(Obj(ms.value), Popped(d, ms.next))
  {
    var m := if c.mode == ObjectColon then ObjectValue else TopValue;
    assert (c.stack + [m])[..|c.stack|] == c.stack;
  }

  ghost predicate InObject(c: Cursor, first: bool) {
    c.mode == (if first then ObjectStart else ObjectComma) && c.stack != []
  }

  ghost predicate InArray(c: Cursor, first: bool) {
    c.mode == (if first then ArrayStart else ArrayComma) && c.stack != []
  }

  /** A key token, and what the value after it makes of the members. */
  lemma MemberStep(f: seq<Lex>, c: Cursor, first: bool)
    requires c.pos <= |f| && InObject(c, first) && More(f, c)
    ensures var s, ms := Next(f, c), ParseMembers(f, c.pos, first);
            && (s.Error? ==> ms.Fail?)
            && (s.Token? ==>
                  && IsKey(s.lex) && s.next.mode == ObjectColon && s.next.stack == c.stack
                  && var r := DecodeAt(f, s.next);
                     if r.Bad? then ms.Fail?
                     else && InObject(r.next, false) && r.next.stack == c.stack
                          && ms == Prepend(Field(s.lex.a.s, r.value),
                                           ParseMembers(f, r.next.pos, false)))
  {
    if !first && f[c.pos] == Comma {
      assert Next(f, c) == Next(f, Cursor(c.pos + 1, ObjectKey, c.stack));
    }
  }

  lemma MembersEnd(f: seq<Lex>, c: Cursor, first: bool)
    requires c.pos <= |f| && InObject(c, first) && !More(f, c)
    ensures var s, ms := Next(f, c), ParseMembers(f, c.pos, first);
            if s.Error? then ms.Fail? else ms == Done([], s.next.pos) && s.next == Popped(c, s.next.pos)
  {
  }

  /** A row token, and what the row body makes of the elements. */
  lemma RowStep(f: seq<Lex>, c: Cursor, first: bool)
    requires c.pos <= |f| && InArray(c, first) && More(f, c)
    ensures var s, es := Next(f, c), ParseElems(f, c.pos, first);
            && (s.Error? ==> es.Fail?)
            && (s.Token? && s.lex != LBrace ==>
                  es.Done? ==> |es.value| > 0 && !es.value[0].Obj?)
            && (s.Token? && s.lex == LBrace ==>
                  && s.next.mode == ObjectStart && s.next.stack != []
                  && var ms := ParseMembers(f, s.next.pos, true);
                     if ms.Fail? then es.Fail?
                     else && Popped(s.next, ms.next) == Cursor(ms.next, ArrayComma, c.stack)
                          && es == Prepend(Obj(ms.value), ParseElems(f, ms.next, false)))
  {
    var d := if first then c else Cursor(c.pos + 1, ArrayValue, c.stack);
    if first || f[c.pos] == Comma {
      assert Next(f, c) == Next(f, d);
      assert (d.stack + [d.mode])[..|d.stack|] == d.stack;
    }
  }

  lemma ElementsEnd(f: seq<Lex>, c: Cursor, first: bool)
    requires c.pos <= |f| && InArray(c, first) && !More(f, c)
    ensures var s, es := Next(f, c), ParseElems(f, c.pos, first);
            if s.Error? then es.Fail?
            else es == Done([], s.next.pos) && s.lex == RBracket && s.next == Popped(c, s.next.pos)
  {
  }

  // ---------- the walk ----------

  /** A column the loop refuses spoils the row it stands in. */
  lemma RefusedColumn(s: Spec, done: seq<Field>, rest: seq<Field>)
    requires rest != [] && (!Allows(s, rest[0].name) || rest[0].name in Names(done))
    ensures !RowFieldsOk(s, done + rest)
  {
    var fs := done + rest;
    assert fs[|done|] == rest[0];
    if rest[0].name in Names(done) {
      var i :| 0 <= i < |done| && done[i].name == rest[0].name;
      assert fs[i].name == fs[|done|].name;
    }
  }

  /** One column of a row: its key is checked, its value skipped. */
  method ReadColumn(s: Spec, seen: set<string>, d: Reader, ghost first: bool)
    returns (column: Option<string>, ghost v: Value)
    requires d.Valid() && InObject(d.At(), first) && More(d.file, d.At())
    modifies d
    ensures d.Valid()
    ensures var ms := ParseMembers(d.file, old(d.pos), first);
            if column.None? then
              ms.Done? ==> ms.value != [] && (!Allows(s, ms.value[0].name) || ms.value[0].name in seen)
            else
              && Allows(s, column.value) && column.value !in seen
              && InObject(d.At(), false) && d.stack == old(d.stack) && d.pos > old(d.pos)
              && ms == Prepend(Field(column.value, v), ParseMembers(d.file, d.pos, false))
  {
    v := Atom(Null);
    MemberStep(d.file, d.At(), first);
    var token := d.Token();
    if token.None? { return None, v; }
    var name := token.value.a.s;
    SkipIsDecode(d.file, d.At());
    ghost var decoded := DecodeAt(d.file, d.At());
    if !Allows(s, name) || name in seen { return None, v; }
    var skipped := d.SkipValue();
    if !skipped { return None, v; }
    return Some(name), decoded.value;
  }

  method ValidateRow(s: Spec, d: Reader) returns (ok: bool)
    requires d.Valid() && InObject(d.At(), true)
    modifies d
    ensures d.Valid()
    ensures var r := ParseMembers(d.file, old(d.pos), true);
            && ok == (r.Done? && RowFieldsOk(s, r.value))
            && (ok ==> d.At() == Popped(old(d.At()), r.next))
  {
    var seen: set<string> := {};
    ghost var done: seq<Field> := [];
    ghost var first := true;
    ghost var whole := ParseMembers(d.file, d.pos, true);
    PrependNothing(whole);
    var more := d.HasMore();
    while more
      invariant d.Valid() && InObject(d.At(), first) && d.stack == old(d.stack)
      invariant more == More(d.file, d.At())
      invariant whole == PrependAll(done, ParseMembers(d.file, d.pos, first))
      invariant seen == Names(done) && DistinctNames(done)
      invariant forall i :: 0 <= i < |done| ==> Allows(s, done[i].name)
      decreases |d.file| - d.pos
    {
      ghost var rest := ParseMembers(d.file, d.pos, first);
      ghost var v;
      var column;
      column, v := ReadColumn(s, seen, d, first);
      if column.None? {
        if rest.Done? { RefusedColumn(s, done, rest.value); }
        return false;
      }
      seen := seen + {column.value};
      PrependAllStep(done, Field(column.value, v), ParseMembers(d.file, d.pos, false));
      NamesSnoc(done, Field(column.value, v));
      done, first := done + [Field(column.value, v)], false;
      more := d.HasMore();
    }
    MembersEnd(d.file, d.At(), first);
    var token := d.Token();
    if token.None? { return false; }
    assert whole.value == done;
    return s.pk in seen;
  }

  lemma NamesSnoc(fs: seq<Field>, fld: Field)
    ensures Names(fs + [fld]) == Names(fs) + {fld.name}
    ensures DistinctNames(fs) && fld.name !in Names(fs) ==> DistinctNames(fs + [fld])
  {
    var all := fs + [fld];
    forall n | n in Names(fs) + {fld.name} ensures n in Names(all) {
      if n == fld.name {
        assert all[|fs|].name == n;
      } else {
        var i :| 0 <= i < |fs| && fs[i].name == n;
        assert all[i].name == n;
      }
    }
  }

  /** The row array that starts at the '[' just before `offset`. */
  ghost predicate ArrayAt(f: seq<Lex>, offset: nat, v: Value) {
    && 1 <= offset <= |f|
    && ParseValue(f, offset - 1).Done? && ParseValue(f, offset - 1).value == v
  }

  /** One row of a table array. */
  method ReadRow(s: Spec, d: Reader, ghost first: bool) returns (ok: bool, ghost row: Value)
    requires d.Valid() && InArray(d.At(), first) && More(d.file, d.At())
    modifies d
    ensures d.Valid()
    ensures var es := ParseElems(d.file, old(d.pos), first);
            if !ok then es.Done? ==> es.value != [] && !RowOk(s, es.value[0])
            else
              && RowOk(s, row)
              && InArray(d.At(), false) && d.stack == old(d.stack) && d.pos > old(d.pos)
              && es == Prepend(row, ParseElems(d.file, d.pos, false))
  {
    row := Atom(Null);
    RowStep(d.file, d.At(), first);
    var token := d.Token();
    if token.None? || token.value != LBrace { return false, row; }
    ghost var body := ParseMembers(d.file, d.pos, true);
    ok := ValidateRow(s, d);
    if ok { row := Obj(body.value); }
  }

  method ValidateTableRows(s: Spec, d: Reader) returns (r: Option<nat>)
    requires d.Valid() && d.mode == ObjectColon && d.stack != []
    modifies d
    ensures d.Valid()
    ensures var v := DecodeAt(d.file, old(d.At()));
            && r.Some? == (v.Got? && TableOk(s, v.value))
            && (r.Some? ==> d.At() == v.next && ArrayAt(d.file, r.value, v.value))
  {
    ValueToken(d.file, d.At());
    ghost var start := d.At();
    var token := d.Token();
    if token.None? { return None; }
    if token.value != LBracket {
      if token.value == LBrace { ObjectToken(d.file, start); }
      return None;
    }
    ArrayToken(d.file, start);
    var offset := d.pos;
    ghost var inside := d.At();
    ghost var done: seq<Value> := [];
    ghost var first := true;
    ghost var whole := ParseElems(d.file, d.pos, true);
    PrependNothing(whole);
    var more := d.HasMore();
    while more
      invariant d.Valid() && InArray(d.At(), first) && d.stack == inside.stack
      invariant more == More(d.file, d.At())
      invariant whole == PrependAll(done, ParseElems(d.file, d.pos, first))
      invariant forall i :: 0 <= i < |done| ==> RowOk(s, done[i])
      decreases |d.file| - d.pos
    {
      ghost var rest := ParseElems(d.file, d.pos, first);
      ghost var row;
      var ok;
      ok, row := ReadRow(s, d, first);
      if !ok {
        if rest.Done? { assert (done + rest.value)[|done|] == rest.value[0]; }
        return None;
      }
      PrependAllStep(done, row, ParseElems(d.file, d.pos, false));
      done, first := done + [row], false;
      more := d.HasMore();
    }
    ElementsEnd(d.file, d.At(), first);
    token := d.Token();
    if token.None? { return None; }
    assert whole.value == done;
    return Some(offset);
  }

  /** Every recorded offset leads back to the value of the last occurrence of its table. */
  ghost predicate RangesMatch(f: seq<Lex>, fs: seq<Field>, ranges: map<string, nat>) {
    && ranges.Keys == Names(fs)
    && forall n :: n in ranges ==> ArrayAt(f, ranges[n], LastField(fs, n).value)
  }

  lemma RangesSnoc(f: seq<Lex>, fs: seq<Field>, ranges: map<string, nat>, fld: Field, offset: nat)
    requires RangesMatch(f, fs, ranges) && ArrayAt(f, offset, fld.value)
    ensures RangesMatch(f, fs + [fld], ranges[fld.name := offset])
  {
    NamesSnoc(fs, fld);
    assert (fs + [fld])[..|fs|] == fs;
  }

  method ReadTablesObject(inv: Inventory, d: Reader) returns (r: Option<map<string, nat>>)
    requires d.Valid() && d.mode == ObjectColon && d.stack != []
    modifies d
    ensures d.Valid()
    ensures var v := DecodeAt(d.file, old(d.At()));
            && r.Some? == (v.Got? && TablesOk(inv, v.value))
            && (r.Some? ==> d.At() == v.next && RangesMatch(d.file, v.value.fields, r.value))
  {
    ValueToken(d.file, d.At());
    ghost var start := d.At();
    var token := d.Token();
    if token.None? { return None; }
    if token.value != LBrace {
      if token.value == LBracket { ArrayToken(d.file, start); }
      return None;
    }
    ObjectToken(d.file, start);
    var ranges: map<string, nat> := map[];
    ghost var inside := d.At();
    ghost var done: seq<Field> := [];
    ghost var first := true;
    ghost var whole := ParseMembers(d.file, d.pos, true);
    PrependNothing(whole);
    var more := d.HasMore();
    while more
      invariant d.Valid() && InObject(d.At(), first) && d.stack == inside.stack
      invariant more == More(d.file, d.At())
      invariant whole == PrependAll(done, ParseMembers(d.file, d.pos, first))
      invariant forall i :: 0 <= i < |done| ==> TableFieldOk(inv, done[i])
      invariant RangesMatch(d.file, done, ranges)
      decreases |d.file| - d.pos
    {
      MemberStep(d.file, d.At(), first);
      ghost var rest := ParseMembers(d.file, d.pos, first);
      token := d.Token();
      if token.None? { return None; }
      var name := token.value.a.s;
      ghost var decoded := DecodeAt(d.file, d.At());
      if whole.Done? {
        assert whole.value == done + rest.value;
        assert whole.value[|done|] == Field(name, decoded.value);
      }
      var index := IndexOfTable(inv.specs, name);
      if index.None? { return None; }
      var offset := ValidateTableRows(inv.specs[index.value], d);
      if offset.None? { return None; }
      ghost var field := Field(name, decoded.value);
      PrependAllStep(done, field, ParseMembers(d.file, d.pos, false));
      RangesSnoc(d.file, done, ranges, field, offset.value);
      ranges := ranges[name := offset.value];
      done, first := done + [field], false;
      more := d.HasMore();
    }
    MembersEnd(d.file, d.At(), first);
    token := d.Token();
    if token.None? { return None; }
    assert whole.value == done;
    return Some(ranges);
  }

  datatype Header = Header(format: string, version: int, ranges: Option<map<string, nat>>)

  /** The loop variables of the header walk after the members `fs`. */
  ghost predicate HeaderMatches(f: seq<Lex>, fs: seq<Field>, h: Header) {
    && h.format == FormatOf(fs) && h.version == VersionOf(fs)
    && h.ranges.Some? == LastField(fs, "tables").Some?
    && (h.ranges.Some? ==>
          && LastField(fs, "tables").value.Obj?
          && RangesMatch(f, LastField(fs, "tables").value.fields, h.ranges.value))
  }

  /** One top-level member: its value is decoded, walked or skipped according to its key. */
  method ReadHeaderField(inv: Inventory, d: Reader, key: string, h: Header) returns (r: Option<Header>)
    requires d.Valid() && d.mode == ObjectColon && d.stack != []
    modifies d
    ensures d.Valid()
    ensures var v := DecodeAt(d.file, old(d.At()));
            && r.Some? == (v.Got? && HeaderFieldOk(inv, Field(key, v.value)))
            && (r.Some? ==> d.At() == v.next)
            && forall fs :: r.Some? && HeaderMatches(d.file, fs, h)
                 ==> HeaderMatches(d.file, fs + [Field(key, v.value)], r.value)
  {
    assert forall fs: seq<Field>, fld: Field {:trigger fs + [fld]} :: (fs + [fld])[..|fs|] == fs;
    if key == "format" {
      var v := d.Decode();
      if v.None? || !v.value.Atom? { return None; }
      match v.value.a {
        case Str(s) => return Some(h.(format := s));
        case Null => return Some(h);
        case _ => return None;
      }
    } else if key == "version" {
      var v := d.Decode();
      if v.None? || !v.value.Atom? { return None; }
      match v.value.a {
        case Int(n) => return if -MAX_INT - 1 <= n <= MAX_INT then Some(h.(version := n)) else None;
        case Null => return Some(h);
        case _ => return None;
      }
    } else if key == "tables" {
      var ranges := ReadTablesObject(inv, d);
      return if ranges.None? then None else Some(h.(ranges := ranges));
    } else {
      SkipIsDecode(d.file, d.At());
      var ok := d.SkipValue();
      return if ok then Some(h) else None;
    }
  }

  /** One round of the header loop: the key token, then its value. */
  method ReadHeaderMember(inv: Inventory, d: Reader, h: Header,
                          ghost done: seq<Field>, ghost first: bool, ghost whole: Parsed<seq<Field>>)
    returns (r: Option<Header>, ghost more: seq<Field>)
    requires d.Valid() && InObject(d.At(), first) && More(d.file, d.At())
    requires whole == PrependAll(done, ParseMembers(d.file, d.pos, first))
    requires HeaderOk(inv, done) && HeaderMatches(d.file, done, h)
    modifies d
    ensures d.Valid()
    ensures if r.Some? then
              && InObject(d.At(), false) && d.stack == old(d.stack) && d.pos > old(d.pos)
              && whole == PrependAll(more, ParseMembers(d.file, d.pos, false))
              && HeaderOk(inv, more) && HeaderMatches(d.file, more, r.value)
            else whole.Done? ==> !HeaderOk(inv, whole.value)
  {
    more := done;
    MemberStep(d.file, d.At(), first);
    ghost var rest := ParseMembers(d.file, d.pos, first);
    var token := d.Token();
    if token.None? { return None, more; }
    var key := token.value.a.s;
    ghost var decoded := DecodeAt(d.file, d.At());
    if whole.Done? {
      assert whole.value == done + rest.value;
      assert whole.value[|done|] == Field(key, decoded.value);
    }
    r := ReadHeaderField(inv, d, key, h);
    if r.None? { return None, more; }
    ghost var field := Field(key, decoded.value);
    PrependAllStep(done, field, ParseMembers(d.file, d.pos, false));
    more := done + [field];
  }

  method ReadEnvelopeHeader(inv: Inventory, d: Reader) returns (r: Option<Header>)
    requires d.Valid() && d.At() == Cursor(0, TopValue, [])
    modifies d
    ensures var v := ParseValue(d.file, 0);
            && r.Some? == (v.Done? && v.value.Obj? && HeaderOk(inv, v.value.fields))
            && (r.Some? ==> HeaderMatches(d.file, v.value.fields, r.value))
  {
    ValueToken(d.file, d.At());
    ghost var start := d.At();
    var token := d.Token();
    if token.None? { return None; }
    if token.value != LBrace {
      if token.value == LBracket { ArrayToken(d.file, start); }
      return None;
    }
    ObjectToken(d.file, start);
    r := ReadHeaderMembers(inv, d);
  }

  /** The header loop, with the decoder just inside the object. */
  method ReadHeaderMembers(inv: Inventory, d: Reader) returns (r: Option<Header>)
    requires d.Valid() && InObject(d.At(), true)
    modifies d
    ensures var ms := ParseMembers(d.file, old(d.pos), true);
            && r.Some? == (ms.Done? && HeaderOk(inv, ms.value))
            && (r.Some? ==> HeaderMatches(d.file, ms.value, r.value))
  {
    var h := Header("", 0, None);
    ghost var done: seq<Field> := [];
    ghost var first := true;
    ghost var whole := ParseMembers(d.file, d.pos, true);
    PrependNothing(whole);
    var more := d.HasMore();
    while more
      invariant d.Valid() && InObject(d.At(), first) && more == More(d.file, d.At())
      invariant whole == PrependAll(done, ParseMembers(d.file, d.pos, first))
      invariant HeaderOk(inv, done) && HeaderMatches(d.file, done, h)
      decreases |d.file| - d.pos
    {
      var next;
      next, done := ReadHeaderMember(inv, d, h, done, first, whole);
      if next.None? { return None; }
      h, first := next.value, false;
      more := d.HasMore();
    }
    MembersEnd(d.file, d.At(), first);
    var token := d.Token();
    if token.None? { return None; }
    assert whole.value == done;
    return Some(h);
  }

  /** validateBackupFile: accepts exactly the files whose first value is a valid envelope. */
  method ValidateBackupFile(inv: Inventory, file: seq<Lex>) returns (r: Option<map<string, nat>>)
    ensures var v := ParseValue(file, 0);
            && r.Some? == (v.Done? && EnvelopeOk(inv, v.value))
            && (r.Some? ==> RangesMatch(file, TablesObject(v.value).fields, r.value))
  {
    var d := new Reader(file, 0);
    var h := ReadEnvelopeHeader(inv, d);
    if h.None? { return None; }
    if h.value.format != FORMAT { return None; }
    if h.value.version != VERSION { return None; }
    return h.value.ranges;
  }
}
