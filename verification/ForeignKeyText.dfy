/**
  Foreign key definitions as the server renders them, and the retargeting the drill performs on
  the text. Identifiers are plain: they need no quotes.
 */
module ForeignKeyText {
  import opened Prelude

  const REFERENCES := "REFERENCES "

  /** A reference in the catalog: the text around the parent, and the parent. */
  datatype Ref = Ref(head: string, parentSchema: string, parent: string, tail: string)

  // ---------- strings ----------

  predicate Occurs(s: string, t: string, i: nat) { i + |t| <= |s| && s[i..i + |t|] == t }

  /** strings.Index, None for -1. */
  function Index(s: string, t: string): (r: Option<nat>)
    ensures r.Some? ==> Occurs(s, t, r.value) && forall i: nat :: i < r.value ==> !Occurs(s, t, i)
    ensures r.None? ==> forall i: nat :: !Occurs(s, t, i)
  {
    if t <= s then Some(0)
    else if s == "" then None
    else
      var r := Index(s[1..], t);
      OccursTail(s, t);
      if r.None? then None else Some(r.value + 1)
  }

  lemma TailSlice(s: string, i: nat, j: nat)
    requires 0 < i <= j <= |s|
    ensures s[1..][i - 1..j - 1] == s[i..j]
  {
  }

  lemma OccursTail(s: string, t: string)
    requires s != ""
    ensures forall i: nat {:trigger Occurs(s, t, i)} ::
              i > 0 ==> (Occurs(s, t, i) <==> Occurs(s[1..], t, i - 1))
  {
    forall i: nat | i > 0 ensures Occurs(s, t, i) <==> Occurs(s[1..], t, i - 1) {
      if i + |t| <= |s| {
        TailSlice(s, i, i + |t|);
      }
    }
  }

  /** strings.Replace with a count of one. */
  function ReplaceFirst(s: string, from: string, to: string): string {
    var i := Index(s, from);
    if i.None? then s else s[..i.value] + to + s[i.value + |from|..]
  }

  lemma IndexIs(s: string, t: string, i: nat)
    requires Occurs(s, t, i) && forall j: nat :: j < i ==> !Occurs(s, t, j)
    ensures Index(s, t) == Some(i)
  {
  }

  lemma OccursMiddle(a: string, t: string, b: string)
    ensures Occurs(a + t + b, t, |a|)
  {
  }

  lemma OccursPrefix(s: string, t: string, p: string, i: nat)
    requires p <= t && Occurs(s, t, i)
    ensures Occurs(s, p, i)
  {
    assert s[i..i + |p|] == s[i..i + |t|][..|p|];
  }

  // ---------- rendering, rewriting and reading ----------

  /** pg_get_constraintdef: a parent in public is qualified only when public is not on the path. */
  function ParentText(r: Ref, qualify: bool): string {
    (if r.parentSchema == "public" && !qualify then "" else r.parentSchema + ".") + r.parent + "("
  }

  function Definition(r: Ref, qualify: bool): string {
    r.head + (REFERENCES + ParentText(r, qualify)) + r.tail
  }

  /** rewriteForeignKeyDefinition. */
  function Rewrite(definition: string, schema: string, parent: string): Option<string> {
    var target := REFERENCES + (schema + "." + parent + "(");
    var qualified := REFERENCES + ("public." + parent + "(");
    var bare := REFERENCES + (parent + "(");
    if Index(definition, qualified).Some? then Some(ReplaceFirst(definition, qualified, target))
    else if Index(definition, bare).Some? then Some(ReplaceFirst(definition, bare, target))
    else None
  }

  /** How the server reads a definition: an unqualified parent is looked up in public. */
  function Read(definition: string): Option<Ref> {
    var i := Index(definition, REFERENCES);
    if i.None? then None
    else
      var rest := definition[i.value + |REFERENCES|..];
      var j := Index(rest, "(");
      if j.None? then None
      else
        var name := rest[..j.value];
        var k := Index(name, ".");
        var schema := if k.None? then "public" else name[..k.value];
        var parent := if k.None? then name else name[k.value + 1..];
        Some(Ref(definition[..i.value], schema, parent, rest[j.value + 1..]))
  }

  /** No dot, no parenthesis: an identifier that is rendered as it is. */
  predicate Plain(name: string) { '(' !in name && '.' !in name }

  /** The definition names its parent once, and plainly. */
  ghost predicate Clear(r: Ref, qualify: bool) {
    && Plain(r.parentSchema) && Plain(r.parent)
    && forall i: nat :: Occurs(Definition(r, qualify), REFERENCES, i) ==> i == |r.head|
  }

  lemma OneChar(s: string, c: char, i: nat)
    ensures Occurs(s, [c], i) <==> i < |s| && s[i] == c
  {
  }

  /** After `a`, the text `t` extended by `u` stands exactly when what follows `t` starts with `u`. */
  lemma OccursExtended(a: string, t: string, b: string, u: string)
    ensures Occurs(a + t + b, t + u, |a|) <==> u <= b
  {
    var s, n := a + t + b, |a| + |t|;
    assert s[|a|..n] == t && s[n..] == b;
    if |u| <= |b| {
      assert s[n..n + |u|] == b[..|u|];
      assert s[|a|..|a| + |t + u|] == t + b[..|u|];
      assert (t + b[..|u|])[|t|..] == b[..|u|] && (t + u)[|t|..] == u;
    }
  }

  lemma IndexAtOnly(s: string, t: string, u: string, n: nat)
    requires forall i: nat :: Occurs(s, t, i) ==> i == n
    ensures Index(s, t + u) == if Occurs(s, t + u, n) then Some(n) else None
  {
    forall i: nat | Occurs(s, t + u, i) ensures i == n {
      OccursPrefix(s, t + u, t, i);
    }
  }

  lemma Regroup(a: string, b: string, c: string, d: string)
    ensures a + (b + c) + d == a + b + (c + d)
  {
  }

  /** Where a candidate can stand in a clear definition: right after the head or nowhere. */
  lemma CandidateAt(r: Ref, qualify: bool, text: string)
    requires Clear(r, qualify)
    ensures var d := Definition(r, qualify);
            Index(d, REFERENCES + text)
            == if text <= ParentText(r, qualify) + r.tail then Some(|r.head|) else None
  {
    Regroup(r.head, REFERENCES, ParentText(r, qualify), r.tail);
    OccursExtended(r.head, REFERENCES, ParentText(r, qualify) + r.tail, text);
    IndexAtOnly(Definition(r, qualify), REFERENCES, text, |r.head|);
  }

  lemma NamePrefix(a: string, b: string, tail: string)
    requires '(' !in a && '(' !in b
    ensures a + "(" <= b + "(" + tail <==> a == b
  {
    if a + "(" <= b + "(" + tail {
      var rest := (b + "(" + tail)[|a| + 1..];
      assert a + "(" + rest == b + "(" + tail;
      SplitAt(a, b, '(', rest, tail);
    }
  }

  /** The name a definition gives its parent. */
  function NameOf(r: Ref, qualify: bool): string {
    if r.parentSchema == "public" && !qualify then r.parent else r.parentSchema + "." + r.parent
  }

  /** Which of the two candidates stands in a clear definition. */
  lemma Candidates(r: Ref, qualify: bool)
    requires Clear(r, qualify)
    ensures var d, name := Definition(r, qualify), NameOf(r, qualify);
            && Index(d, REFERENCES + ("public." + r.parent + "("))
               == (if name == "public." + r.parent then Some(|r.head|) else None)
            && Index(d, REFERENCES + (r.parent + "("))
               == (if name == r.parent then Some(|r.head|) else None)
  {
    CandidateAt(r, qualify, "public." + r.parent + "(");
    CandidateAt(r, qualify, r.parent + "(");
    var name := NameOf(r, qualify);
    assert ParentText(r, qualify) == name + "(";
    NamePrefix("public." + r.parent, name, r.tail);
    NamePrefix(r.parent, name, r.tail);
  }

  /**
    Rewriting a clear definition succeeds exactly when its parent is in public; the server then
    reads the same reference with only the parent's schema exchanged.
   */
  lemma RewriteRetargets(r: Ref, qualify: bool, schema: string)
    requires Clear(r, qualify) && Plain(schema)
    ensures var w := Rewrite(Definition(r, qualify), schema, r.parent);
            && (w.Some? <==> r.parentSchema == "public")
            && (w.Some? ==> Read(w.value) == Some(r.(parentSchema := schema)))
  {
    Candidates(r, qualify);
    QualifiedName("public", r.parentSchema, r.parent);
    QualifiedName(r.parentSchema, "public", r.parent);
    if r.parentSchema == "public" {
      ReplacedIs(r, REFERENCES + (NameOf(r, qualify) + "("),
                 REFERENCES + (schema + "." + r.parent + "("));
      ReadBack(r, qualify, schema);
    }
  }

  lemma QualifiedName(s: string, t: string, parent: string)
    ensures s + "." + parent == t + "." + parent <==> s == t
    ensures s + "." + parent != parent
  {
    assert |s + "." + parent| == |s| + 1 + |parent|;
    if s + "." + parent == t + "." + parent {
      assert |s| == |t|;
      assert s == (s + "." + parent)[..|s|] && t == (t + "." + parent)[..|t|];
    }
  }

  lemma ReplacedIs(r: Ref, from: string, to: string)
    requires Index(r.head + from + r.tail, from) == Some(|r.head|)
    ensures ReplaceFirst(r.head + from + r.tail, from, to) == r.head + to + r.tail
  {
    var d := r.head + from + r.tail;
    assert d[..|r.head|] == r.head && d[|r.head| + |from|..] == r.tail;
  }

  lemma ReadBack(r: Ref, qualify: bool, schema: string)
    requires Clear(r, qualify) && Plain(schema)
    ensures Read(r.head + (REFERENCES + (schema + "." + r.parent + "(")) + r.tail)
            == Some(r.(parentSchema := schema))
  {
    var name := schema + "." + r.parent;
    var after := name + "(" + r.tail;
    var d := r.head + (REFERENCES + (schema + "." + r.parent + "(")) + r.tail;
    assert d == r.head + REFERENCES + after;
    NoEarlier(r, qualify, after);
    assert Index(d, REFERENCES) == Some(|r.head|);
    assert d[|r.head| + |REFERENCES|..] == after && d[..|r.head|] == r.head;
    FirstChar(name, '(', r.tail);
    assert after[..|name|] == name && after[|name| + 1..] == r.tail;
    FirstChar(schema, '.', r.parent);
    assert name[..|schema|] == schema && name[|schema| + 1..] == r.parent;
  }

  lemma FirstChar(a: string, c: char, b: string)
    requires c !in a
    ensures Index(a + [c] + b, [c]) == Some(|a|)
  {
    var s := a + [c] + b;
    forall i: nat ensures Occurs(s, [c], i) <==> i < |s| && s[i] == c { OneChar(s, c, i); }
    assert forall i :: 0 <= i < |a| ==> s[i] == a[i] != c;
    IndexIs(s, [c], |a|);
  }

  /** An occurrence that ends within the prefix does not depend on what follows. */
  lemma OccursInPrefix(p: string, x: string, t: string, i: nat)
    requires i + |t| <= |p|
    ensures Occurs(p + x, t, i) <==> Occurs(p, t, i)
  {
    assert (p + x)[i..i + |t|] == p[i..i + |t|];
  }

  /** Up to its own reference a rewritten definition reads like the original. */
  lemma NoEarlier(r: Ref, qualify: bool, after: string)
    requires Clear(r, qualify)
    ensures Index(r.head + REFERENCES + after, REFERENCES) == Some(|r.head|)
  {
    var p, rest := r.head + REFERENCES, ParentText(r, qualify) + r.tail;
    Regroup(r.head, REFERENCES, ParentText(r, qualify), r.tail);
    assert p + rest == Definition(r, qualify);
    forall i: nat | i < |r.head| ensures !Occurs(p + after, REFERENCES, i) {
      OccursInPrefix(p, after, REFERENCES, i);
      OccursInPrefix(p, rest, REFERENCES, i);
      assert Occurs(p + rest, REFERENCES, i) ==> i == |r.head|;
    }
    OccursMiddle(r.head, REFERENCES, after);
    IndexIs(p + after, REFERENCES, |r.head|);
  }
}
