/**
  JSON documents at the level of lexemes: the value tree, the printer the export uses, and the
  recursive grammar that serves as the independent reference for the token machine in Decoder.dfy.
  White space carries no information here; one lexeme is one position of the file.
 */
module Json {
  import opened Prelude

  datatype Scalar = Null | Bool(b: bool) | Int(n: int) | Real(text: string) | Str(s: string)

  datatype Field = Field(name: string, value: Value)

  datatype Value = Atom(a: Scalar) | Arr(elems: seq<Value>) | Obj(fields: seq<Field>)

  datatype Lex = LBrace | RBrace | LBracket | RBracket | Comma | Colon | Lit(a: Scalar)

  datatype Parsed<+T> = Fail | Done(value: T, next: nat)

  // ---------- printing ----------

  function Print(v: Value): (out: seq<Lex>)
    ensures |out| > 0
    ensures out[0] != RBracket && out[0] != RBrace && out[0] != Comma && out[0] != Colon
    decreases v, 0
  {
    match v
    case Atom(a) => [Lit(a)]
    case Arr(es) => [LBracket] + PrintElems(es, true)
    case Obj(fs) => [LBrace] + PrintMembers(fs, true)
  }

  /** The rest of an array, closing bracket included; `first` drops the leading separator. */
  function PrintElems(es: seq<Value>, first: bool): (out: seq<Lex>)
    ensures |out| > 0
    decreases es, 0
  {
    if es == [] then [RBracket]
    else (if first then [] else [Comma]) + Print(es[0]) + PrintElems(es[1..], false)
  }

  function PrintMembers(fs: seq<Field>, first: bool): (out: seq<Lex>)
    ensures |out| > 0
    decreases fs, 0
  {
    if fs == [] then [RBrace]
    else (if first then [] else [Comma]) + [Lit(Str(fs[0].name)), Colon]
         + Print(fs[0].value) + PrintMembers(fs[1..], false)
  }

  // ---------- the reference grammar ----------

  function ParseValue(f: seq<Lex>, p: nat): (r: Parsed<Value>)
    requires p <= |f|
    ensures r.Done? ==> p < r.next <= |f|
    decreases |f| - p, 0
  {
    if p == |f| then Fail
    else match f[p]
      case Lit(a) => Done(Atom(a), p + 1)
      case LBracket =>
        (match ParseElems(f, p + 1, true)
         case Fail => Fail
         case Done(es, q) => Done(Arr(es), q))
      case LBrace =>
        (match ParseMembers(f, p + 1, true)
         case Fail => Fail
         case Done(fs, q) => Done(Obj(fs), q))
      case _ => Fail
  }

  /** The rest of an array from `p`, which is just after '[' when `first`, else just after an element. */
  function ParseElems(f: seq<Lex>, p: nat, first: bool): (r: Parsed<seq<Value>>)
    requires p <= |f|
    ensures r.Done? ==> p < r.next <= |f|
    decreases |f| - p, 1
  {
    if p == |f| then Fail
    else if f[p] == RBracket then Done([], p + 1)
    else if !first && f[p] != Comma then Fail
    else match ParseValue(f, if first then p else p + 1)
      case Fail => Fail
      case Done(v, q) => Prepend(v, ParseElems(f, q, false))
  }

  /** The rest of an object from `p`, just after '{' when `first`, else just after a member. */
  function ParseMembers(f: seq<Lex>, p: nat, first: bool): (r: Parsed<seq<Field>>)
    requires p <= |f|
    ensures r.Done? ==> p < r.next <= |f|
    decreases |f| - p, 1
  {
    if p == |f| then Fail
    else if f[p] == RBrace then Done([], p + 1)
    else if !first && f[p] != Comma then Fail
    else
      var k := if first then p else p + 1;
      if k + 2 <= |f| && IsKey(f[k]) && f[k + 1] == Colon then
        match ParseValue(f, k + 2)
        case Fail => Fail
        case Done(v, q) => Prepend(Field(f[k].a.s, v), ParseMembers(f, q, false))
      else Fail
  }

  predicate IsKey(l: Lex) { l.Lit? && l.a.Str? }

  function Prepend<T>(x: T, r: Parsed<seq<T>>): Parsed<seq<T>> {
    match r
    case Fail => Fail
    case Done(xs, q) => Done([x] + xs, q)
  }

  /** What a loop that has already collected `xs` makes of the remainder `r`. */
  function PrependAll<T>(xs: seq<T>, r: Parsed<seq<T>>): Parsed<seq<T>> {
    match r
    case Fail => Fail
    case Done(ys, q) => Done(xs + ys, q)
  }

  lemma PrependNothing<T>(r: Parsed<seq<T>>)
    ensures PrependAll([], r) == r
  {
    if r.Done? {
      assert [] + r.value == r.value;
    }
  }

  lemma PrependAllStep<T>(xs: seq<T>, x: T, r: Parsed<seq<T>>)
    ensures PrependAll(xs, Prepend(x, r)) == PrependAll(xs + [x], r)
  {
    if r.Done? {
      assert xs + ([x] + r.value) == (xs + [x]) + r.value;
    }
  }

  /** The value an object binds to `name`: the last occurrence wins, as it does for jsonb. */
  function LastField(fs: seq<Field>, name: string): (r: Option<Value>)
    ensures r.None? <==> name !in Names(fs)
  {
    if fs == [] then None
    else if fs[|fs| - 1].name == name then Some(fs[|fs| - 1].value)
    else LastField(fs[..|fs| - 1], name)
  }

  function Names(fs: seq<Field>): (r: set<string>)
    ensures forall n :: n in r <==> exists i :: 0 <= i < |fs| && fs[i].name == n
  {
    set i | 0 <= i < |fs| :: fs[i].name
  }

  ghost predicate DistinctNames(fs: seq<Field>) {
    forall i, j :: 0 <= i < j < |fs| ==> fs[i].name != fs[j].name
  }

  lemma {:induction false} LastFieldAt(fs: seq<Field>, i: nat)
    requires i < |fs| && DistinctNames(fs)
    ensures LastField(fs, fs[i].name) == Some(fs[i].value)
  {
    if i < |fs| - 1 {
      LastFieldAt(fs[..|fs| - 1], i);
    }
  }

  // ---------- printing and parsing are inverse ----------

  /** `part` stands in `f` at position `p`. */
  ghost predicate At(f: seq<Lex>, p: nat, part: seq<Lex>) {
    p + |part| <= |f| && f[p..p + |part|] == part
  }

  lemma AtSplit(f: seq<Lex>, p: nat, a: seq<Lex>, b: seq<Lex>)
    requires At(f, p, a + b)
    ensures At(f, p, a) && At(f, p + |a|, b)
  {
    assert forall i {:trigger f[p..p + |a|][i]} | 0 <= i < |a| :: f[p..p + |a + b|][i] == a[i];
    assert f[p..p + |a|] == a;
    forall i | 0 <= i < |b| ensures f[p + |a|..p + |a| + |b|][i] == b[i] {
      assert f[p..p + |a + b|][|a| + i] == b[i];
    }
    assert f[p + |a|..p + |a| + |b|] == b;
  }

  lemma AtHead(f: seq<Lex>, p: nat, part: seq<Lex>)
    requires At(f, p, part) && |part| > 0
    ensures p < |f| && f[p] == part[0]
  {
    assert f[p..p + |part|][0] == f[p];
  }

  lemma {:induction false} ParsePrintedValue(v: Value, f: seq<Lex>, p: nat)
    requires At(f, p, Print(v))
    ensures ParseValue(f, p) == Done(v, p + |Print(v)|)
    decreases v, 0
  {
    AtHead(f, p, Print(v));
    match v
    case Atom(a) =>
    case Arr(es) =>
      AtSplit(f, p, [LBracket], PrintElems(es, true));
      ParsePrintedElems(es, true, f, p + 1);
    case Obj(fs) =>
      AtSplit(f, p, [LBrace], PrintMembers(fs, true));
      ParsePrintedMembers(fs, true, f, p + 1);
  }

  lemma ElemsUnfold(es: seq<Value>, first: bool)
    requires es != []
    ensures PrintElems(es, first)
            == (if first then [] else [Comma]) + (Print(es[0]) + PrintElems(es[1..], false))
  {
  }

  lemma MembersUnfold(fs: seq<Field>, first: bool)
    requires fs != []
    ensures PrintMembers(fs, first)
            == (if first then [] else [Comma])
               + ([Lit(Str(fs[0].name)), Colon] + (Print(fs[0].value) + PrintMembers(fs[1..], false)))
  {
    var sep := if first then [] else [Comma];
    var head, value, rest := [Lit(Str(fs[0].name)), Colon], Print(fs[0].value), PrintMembers(fs[1..], false);
    AppendAssoc(sep + head, value, rest);
    AppendAssoc(sep, head, value + rest);
  }

  /** One element in front of a remainder, read off the printed text. */
  lemma PrintedElemsShape(es: seq<Value>, first: bool, f: seq<Lex>, p: nat)
    requires es != [] && At(f, p, PrintElems(es, first))
    ensures p < |f| && f[p] != RBracket && (first || f[p] == Comma)
    ensures var k := if first then p else p + 1;
            && At(f, k, Print(es[0]))
            && At(f, k + |Print(es[0])|, PrintElems(es[1..], false))
            && p + |PrintElems(es, first)| == k + |Print(es[0])| + |PrintElems(es[1..], false)|
  {
    var head, rest := Print(es[0]), PrintElems(es[1..], false);
    var sep := if first then [] else [Comma];
    AtHead(f, p, PrintElems(es, first));
    ElemsUnfold(es, first);
    AtSplit(f, p, sep, head + rest);
    AtSplit(f, p + |sep|, head, rest);
  }

  lemma PrintedMembersShape(fs: seq<Field>, first: bool, f: seq<Lex>, p: nat)
    requires fs != [] && At(f, p, PrintMembers(fs, first))
    ensures p < |f| && f[p] != RBrace && (first || f[p] == Comma)
    ensures var k := if first then p else p + 1;
            && k + 2 <= |f| && f[k] == Lit(Str(fs[0].name)) && f[k + 1] == Colon
            && At(f, k + 2, Print(fs[0].value))
            && At(f, k + 2 + |Print(fs[0].value)|, PrintMembers(fs[1..], false))
            && p + |PrintMembers(fs, first)|
               == k + 2 + |Print(fs[0].value)| + |PrintMembers(fs[1..], false)|
  {
    var value, rest := Print(fs[0].value), PrintMembers(fs[1..], false);
    var sep := if first then [] else [Comma];
    var head := [Lit(Str(fs[0].name)), Colon];
    AtHead(f, p, PrintMembers(fs, first));
    MembersUnfold(fs, first);
    AtSplit(f, p, sep, head + (value + rest));
    var k := p + |sep|;
    AtSplit(f, k, head, value + rest);
    assert f[k..k + 2][0] == f[k] && f[k..k + 2][1] == f[k + 1];
    AtSplit(f, k + 2, value, rest);
  }

  lemma {:induction false} ParsePrintedElems(es: seq<Value>, first: bool, f: seq<Lex>, p: nat)
    requires At(f, p, PrintElems(es, first))
    ensures ParseElems(f, p, first) == Done(es, p + |PrintElems(es, first)|)
    decreases es, 0
  {
    if es == [] {
      AtHead(f, p, PrintElems(es, first));
    } else {
      PrintedElemsShape(es, first, f, p);
      var k := if first then p else p + 1;
      ParsePrintedValue(es[0], f, k);
      ParsePrintedElems(es[1..], false, f, k + |Print(es[0])|);
      assert [es[0]] + es[1..] == es;
    }
  }

  /** One member in front of a remainder, read by the grammar. */
  lemma OneMember(f: seq<Lex>, p: nat, first: bool, value: Value, q: nat)
    requires p < |f| && f[p] != RBrace && (first || f[p] == Comma)
    requires var k := if first then p else p + 1;
             && k + 2 <= |f| && IsKey(f[k]) && f[k + 1] == Colon
             && ParseValue(f, k + 2) == Done(value, q)
    ensures q <= |f|
    ensures ParseMembers(f, p, first)
            == Prepend(Field(f[if first then p else p + 1].a.s, value), ParseMembers(f, q, false))
  {
  }

  /** The step of ParsePrintedMembers, the value and the remaining members being parsed already. */
  lemma PrintedMemberParses(fs: seq<Field>, first: bool, f: seq<Lex>, p: nat, q: nat, end: nat)
    requires fs != [] && At(f, p, PrintMembers(fs, first))
    requires var k := if first then p else p + 1;
             && k + 2 <= |f| && q == k + 2 + |Print(fs[0].value)| <= |f|
             && ParseValue(f, k + 2) == Done(fs[0].value, q)
             && ParseMembers(f, q, false) == Done(fs[1..], end)
    ensures ParseMembers(f, p, first) == Done(fs, end)
  {
    PrintedMembersShape(fs, first, f, p);
    OneMember(f, p, first, fs[0].value, q);
    assert [fs[0]] + fs[1..] == fs;
  }

  lemma {:induction false} ParsePrintedMembers(fs: seq<Field>, first: bool, f: seq<Lex>, p: nat)
    requires At(f, p, PrintMembers(fs, first))
    ensures ParseMembers(f, p, first) == Done(fs, p + |PrintMembers(fs, first)|)
    decreases fs, 0
  {
    if fs == [] {
      AtHead(f, p, PrintMembers(fs, first));
    } else {
      PrintedMembersShape(fs, first, f, p);
      var k := if first then p else p + 1;
      var q := k + 2 + |Print(fs[0].value)|;
      ParsePrintedValue(fs[0].value, f, k + 2);
      ParsePrintedMembers(fs[1..], false, f, q);
      PrintedMemberParses(fs, first, f, p, q, q + |PrintMembers(fs[1..], false)|);
    }
  }

  // ---------- nothing but printed values is read ----------

  lemma AtJoin(f: seq<Lex>, p: nat, a: seq<Lex>, b: seq<Lex>)
    requires At(f, p, a) && At(f, p + |a|, b)
    ensures At(f, p, a + b)
  {
    var m, e := p + |a|, p + |a| + |b|;
    assert f[p..e] == f[p..m] + f[m..e];
  }

  lemma AtOne(f: seq<Lex>, p: nat, l: Lex)
    requires p < |f| && f[p] == l
    ensures At(f, p, [l])
  {
  }

  /** What the grammar reads is the printed text of the value it yields, to the last lexeme. */
  lemma {:induction false} ParsedIsPrinted(f: seq<Lex>, p: nat)
    requires p <= |f| && ParseValue(f, p).Done?
    ensures var r := ParseValue(f, p); At(f, p, Print(r.value)) && r.next == p + |Print(r.value)|
    decreases |f| - p, 0
  {
    AtOne(f, p, f[p]);
    match f[p]
    case LBracket =>
      ElemsArePrinted(f, p + 1, true);
      AtJoin(f, p, [LBracket], PrintElems(ParseElems(f, p + 1, true).value, true));
    case LBrace =>
      MembersArePrinted(f, p + 1, true);
      AtJoin(f, p, [LBrace], PrintMembers(ParseMembers(f, p + 1, true).value, true));
    case _ =>
  }

  lemma {:induction false} ElemsArePrinted(f: seq<Lex>, p: nat, first: bool)
    requires p <= |f| && ParseElems(f, p, first).Done?
    ensures var r := ParseElems(f, p, first);
            At(f, p, PrintElems(r.value, first)) && r.next == p + |PrintElems(r.value, first)|
    decreases |f| - p, 1
  {
    AtOne(f, p, f[p]);
    if f[p] != RBracket {
      var k := if first then p else p + 1;
      var v := ParseValue(f, k);
      ParsedIsPrinted(f, k);
      ElemsArePrinted(f, v.next, false);
      var es := ParseElems(f, v.next, false).value;
      AtJoin(f, k, Print(v.value), PrintElems(es, false));
      if !first { AtJoin(f, p, [Comma], Print(v.value) + PrintElems(es, false)); }
      ElemsUnfold([v.value] + es, first);
      assert ([v.value] + es)[1..] == es;
      assert [] + (Print(v.value) + PrintElems(es, false)) == Print(v.value) + PrintElems(es, false);
    }
  }

  lemma {:induction false} MembersArePrinted(f: seq<Lex>, p: nat, first: bool)
    requires p <= |f| && ParseMembers(f, p, first).Done?
    ensures var r := ParseMembers(f, p, first);
            At(f, p, PrintMembers(r.value, first)) && r.next == p + |PrintMembers(r.value, first)|
    decreases |f| - p, 1
  {
    AtOne(f, p, f[p]);
    if f[p] != RBrace {
      var k := if first then p else p + 1;
      MemberRead(f, p, first);
      ParsedIsPrinted(f, k + 2);
      MembersArePrinted(f, ParseValue(f, k + 2).next, false);
      MemberJoins(f, p, first, ParseValue(f, k + 2).value, ParseMembers(f, ParseValue(f, k + 2).next, false).value);
    }
  }

  /** One member and what is behind it, as the grammar has read them. */
  lemma MemberRead(f: seq<Lex>, p: nat, first: bool)
    requires p < |f| && f[p] != RBrace && ParseMembers(f, p, first).Done?
    ensures first || f[p] == Comma
    ensures var k := if first then p else p + 1;
            && k + 2 <= |f| && IsKey(f[k]) && f[k + 1] == Colon && ParseValue(f, k + 2).Done?
            && ParseMembers(f, ParseValue(f, k + 2).next, false).Done?
            && ParseMembers(f, p, first)
               == Prepend(Field(f[k].a.s, ParseValue(f, k + 2).value),
                          ParseMembers(f, ParseValue(f, k + 2).next, false))
  {
  }

  lemma MemberJoins(f: seq<Lex>, p: nat, first: bool, v: Value, fs: seq<Field>)
    requires p < |f| && (first || f[p] == Comma)
    requires var k := if first then p else p + 1;
             && k + 2 <= |f| && IsKey(f[k]) && f[k + 1] == Colon
             && At(f, k + 2, Print(v)) && At(f, k + 2 + |Print(v)|, PrintMembers(fs, false))
    ensures var k := if first then p else p + 1;
            var all := PrintMembers([Field(f[k].a.s, v)] + fs, first);
            At(f, p, all) && p + |all| == k + 2 + |Print(v)| + |PrintMembers(fs, false)|
  {
    var k := if first then p else p + 1;
    var fld, rest := Field(f[k].a.s, v), Print(v) + PrintMembers(fs, false);
    AtJoin(f, k + 2, Print(v), PrintMembers(fs, false));
    assert At(f, k, [Lit(Str(fld.name)), Colon]);
    AtJoin(f, k, [Lit(Str(fld.name)), Colon], rest);
    if !first {
      AtOne(f, p, Comma);
      AtJoin(f, p, [Comma], [Lit(Str(fld.name)), Colon] + rest);
    }
    MembersUnfold([fld] + fs, first);
    assert ([fld] + fs)[1..] == fs;
    assert [] + ([Lit(Str(fld.name)), Colon] + rest) == [Lit(Str(fld.name)), Colon] + rest;
  }

  /** The grammar accepts at a position exactly when a printed value stands there. */
  lemma AcceptsIff(f: seq<Lex>, p: nat, v: Value, q: nat)
    requires p <= |f|
    ensures ParseValue(f, p) == Done(v, q) <==> At(f, p, Print(v)) && q == p + |Print(v)|
  {
    if ParseValue(f, p).Done? {
      ParsedIsPrinted(f, p);
    }
    if At(f, p, Print(v)) {
      ParsePrintedValue(v, f, p);
    }
  }
}
