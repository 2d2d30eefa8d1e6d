/** Shapes shared by every module of the model. */
module Prelude {

  datatype Option<+T> = None | Some(value: T)

  /** A call that either yields a value or fails with an error. */
  datatype Result<+T, +E> = Ok(value: T) | Err(error: E)

  /** Two different texts with one hash. */
  ghost predicate Collision(hash: string -> string, x: string, y: string) {
    x != y && hash(x) == hash(y)
  }

  // ---------- sequences ----------

  lemma AppendAssoc<T>(a: seq<T>, b: seq<T>, c: seq<T>)
    ensures (a + b) + c == a + (b + c)
  {
  }

  lemma SamePrefix<T>(a: seq<T>, b: seq<T>, x: seq<T>, y: seq<T>)
    requires a + x == b + y && (|a| == |b| || |x| == |y|)
    ensures a == b && x == y
  {
    assert |a| + |x| == |b| + |y|;
    assert a == (a + x)[..|a|] && b == (b + y)[..|b|];
    assert x == (a + x)[|a|..] && y == (b + y)[|b|..];
  }

  lemma NotLonger<T>(a: seq<T>, b: seq<T>, c: T, x: seq<T>, y: seq<T>)
    requires c !in b && a + [c] + x == b + [c] + y
    ensures |b| <= |a|
  {
    assert (a + [c] + x)[|a|] == c;
    assert forall i :: 0 <= i < |b| ==> (b + [c] + y)[i] == b[i] != c;
  }

  /** A sequence is cut at the first occurrence of a separator in one way only. */
  lemma SplitAt<T>(a: seq<T>, b: seq<T>, c: T, x: seq<T>, y: seq<T>)
    requires c !in a && c !in b && a + [c] + x == b + [c] + y
    ensures a == b && x == y
  {
    NotLonger(a, b, c, x, y);
    NotLonger(b, a, c, y, x);
    assert a + [c] + x == a + ([c] + x) && b + [c] + y == b + ([c] + y);
    SamePrefix(a, b, [c] + x, [c] + y);
    SamePrefix([c], [c], x, y);
  }

  /** `s` with `x` put in front of position `i`. */
  function Inserted<T>(s: seq<T>, i: nat, x: T): seq<T>
    requires i <= |s|
  {
    s[..i] + [x] + s[i..]
  }

  lemma InsertedAtOnce<T>(s: seq<T>, x: T)
    ensures Inserted(s, 0, x) == [x] + s
  {
  }

  lemma InsertedLater<T>(first: T, rest: seq<T>, i: nat, x: T)
    requires 0 < i <= |rest| + 1
    ensures Inserted([first] + rest, i, x) == [first] + Inserted(rest, i - 1, x)
  {
  }
}
