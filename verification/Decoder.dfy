/**
  The streaming decoder of encoding/json that the restore path drives: a position, a mode and a
  stack of saved modes, and no tree. The class is the imperative object; Next, DecodeAt and Drain
  are its steps as functions; the lemmas tie those steps to the recursive grammar of Json.dfy.
 */
module Decoder {
  import opened Prelude
  import opened Json

  datatype Mode =
    | TopValue
    | ArrayStart | ArrayValue | ArrayComma
    | ObjectStart | ObjectKey | ObjectColon | ObjectValue | ObjectComma

  datatype Cursor = Cursor(pos: nat, mode: Mode, stack: seq<Mode>)

  datatype Step = Error | Token(lex: Lex, next: Cursor)

  predicate ValueAllowed(m: Mode) {
    m == TopValue || m == ArrayStart || m == ArrayValue || m == ObjectValue
  }

  function ValueEnd(m: Mode): Mode {
    match m
    case ArrayStart => ArrayComma
    case ArrayValue => ArrayComma
    case ObjectValue => ObjectComma
    case _ => m
  }

  predicate IsOpen(l: Lex) { l == LBracket || l == LBrace }

  predicate IsClose(l: Lex) { l == RBracket || l == RBrace }

  /** The cursor after the closing delimiter of the innermost open container. */
  function Popped(c: Cursor, pos: nat): Cursor
    requires c.stack != []
  {
    Cursor(pos, ValueEnd(c.stack[|c.stack| - 1]), c.stack[..|c.stack| - 1])
  }

  /** One call of Token(): separators are checked against the mode and skipped. */
  function Next(f: seq<Lex>, c: Cursor): (r: Step)
    requires c.pos <= |f|
    ensures r.Token? ==> c.pos < r.next.pos <= |f|
    decreases |f| - c.pos
  {
    if c.pos == |f| then Error
    else match f[c.pos]
      case LBracket =>
        if ValueAllowed(c.mode)
        then Token(LBracket, Cursor(c.pos + 1, ArrayStart, c.stack + [c.mode])) else Error
      case LBrace =>
        if ValueAllowed(c.mode)
        then Token(LBrace, Cursor(c.pos + 1, ObjectStart, c.stack + [c.mode])) else Error
      case RBracket =>
        if (c.mode == ArrayStart || c.mode == ArrayComma) && c.stack != []
        then Token(RBracket, Popped(c, c.pos + 1)) else Error
      case RBrace =>
        if (c.mode == ObjectStart || c.mode == ObjectComma) && c.stack != []
        then Token(RBrace, Popped(c, c.pos + 1)) else Error
      case Colon =>
        if c.mode == ObjectColon
        then Next(f, Cursor(c.pos + 1, ObjectValue, c.stack)) else Error
      case Comma =>
        if c.mode == ArrayComma then Next(f, Cursor(c.pos + 1, ArrayValue, c.stack))
        else if c.mode == ObjectComma then Next(f, Cursor(c.pos + 1, ObjectKey, c.stack))
        else Error
      case Lit(a) =>
        if a.Str? && (c.mode == ObjectStart || c.mode == ObjectKey)
        then Token(f[c.pos], Cursor(c.pos + 1, ObjectColon, c.stack))
        else if ValueAllowed(c.mode)
        then Token(f[c.pos], Cursor(c.pos + 1, ValueEnd(c.mode), c.stack))
        else Error
  }

  predicate More(f: seq<Lex>, c: Cursor) {
    c.pos < |f| && !IsClose(f[c.pos])
  }

  /** The separator in front of a value, as Decode consumes it. */
  function Prepared(f: seq<Lex>, c: Cursor): (r: Option<Cursor>)
    requires c.pos <= |f|
    ensures r.Some? ==> c.pos <= r.value.pos <= |f| && r.value.stack == c.stack
  {
    if c.mode == ArrayComma then
      if c.pos < |f| && f[c.pos] == Comma then Some(Cursor(c.pos + 1, ArrayValue, c.stack)) else None
    else if c.mode == ObjectColon then
      if c.pos < |f| && f[c.pos] == Colon then Some(Cursor(c.pos + 1, ObjectValue, c.stack)) else None
    else Some(c)
  }

  datatype Decoded = Bad | Got(value: Value, next: Cursor)

  /** One call of Decode(&raw): the scanner accepts exactly one value of the grammar. */
  function DecodeAt(f: seq<Lex>, c: Cursor): (r: Decoded)
    requires c.pos <= |f|
    ensures r.Got? ==> c.pos < r.next.pos <= |f|
  {
    match Prepared(f, c)
    case None => Bad
    case Some(d) =>
      if !ValueAllowed(d.mode) then Bad
      else match ParseValue(f, d.pos)
        case Fail => Bad
        case Done(v, q) => Got(v, Cursor(q, ValueEnd(d.mode), d.stack))
  }

  function Deeper(l: Lex, depth: nat): (d: nat)
    requires depth > 0
  {
    if IsOpen(l) then depth + 1 else if IsClose(l) then depth - 1 else depth
  }

  /** The depth-counting loop: tokens are discarded until `depth` reaches zero. */
  function Drain(f: seq<Lex>, c: Cursor, depth: nat): (r: Option<Cursor>)
    requires c.pos <= |f|
    ensures r.Some? ==> c.pos <= r.value.pos <= |f|
    decreases |f| - c.pos
  {
    if depth == 0 then Some(c)
    else match Next(f, c)
      case Error => None
      case Token(l, d) => Drain(f, d, Deeper(l, depth))
  }

  // ---------- the depth loop consumes exactly one value of the grammar ----------

  /** A cursor at which the token machine is about to read a value. */
  ghost predicate BeforeValue(f: seq<Lex>, c: Cursor) {
    && c.pos <= |f|
    && ValueAllowed(c.mode)
    && (c.mode == ArrayStart ==> c.pos < |f| && f[c.pos] != RBracket)
  }

  lemma {:induction false} DrainValue(f: seq<Lex>, c: Cursor, depth: nat)
    requires BeforeValue(f, c) && depth > 0
    ensures var r := ParseValue(f, c.pos);
            Drain(f, c, depth) ==
            if r.Fail? then None else Drain(f, Cursor(r.next, ValueEnd(c.mode), c.stack), depth)
    decreases |f| - c.pos, 0
  {
    if c.pos < |f| {
      match f[c.pos]
      case LBracket =>
        var d := Cursor(c.pos + 1, ArrayStart, c.stack + [c.mode]);
        DrainElems(f, d, depth + 1, true);
        assert d.stack[..|d.stack| - 1] == c.stack;
      case LBrace =>
        var d := Cursor(c.pos + 1, ObjectStart, c.stack + [c.mode]);
        DrainMembers(f, d, depth + 1, true);
        assert d.stack[..|d.stack| - 1] == c.stack;
      case _ =>
    }
  }

  /** What the loop makes of the rest of the innermost container. */
  ghost function AfterContainer<T>(f: seq<Lex>, c: Cursor, depth: nat, r: Parsed<T>): Option<Cursor>
    requires c.stack != [] && depth > 0
    requires r.Done? ==> r.next <= |f|
  {
    if r.Fail? then None else Drain(f, Popped(c, r.next), depth - 1)
  }

  lemma {:induction false} DrainElems(f: seq<Lex>, c: Cursor, depth: nat, first: bool)
    requires c.pos <= |f| && c.stack != [] && depth > 0
    requires c.mode == if first then ArrayStart else ArrayComma
    ensures Drain(f, c, depth) == AfterContainer(f, c, depth, ParseElems(f, c.pos, first))
    decreases |f| - c.pos, 1
  {
    if c.pos == |f| || f[c.pos] == RBracket {
    } else if !first && f[c.pos] != Comma {
      assert Next(f, c).Error?;
    } else {
      var d := if first then c else Cursor(c.pos + 1, ArrayValue, c.stack);
      SameTokenSameDrain(f, c, d, depth);
      DrainValue(f, d, depth);
      var r := ParseValue(f, d.pos);
      if r.Done? {
        DrainElems(f, Cursor(r.next, ArrayComma, c.stack), depth, false);
      }
    }
  }

  lemma SameTokenSameDrain(f: seq<Lex>, c: Cursor, d: Cursor, depth: nat)
    requires c.pos <= |f| && d.pos <= |f| && depth > 0
    requires Next(f, c) == Next(f, d)
    ensures Drain(f, c, depth) == Drain(f, d, depth)
  {
  }

  lemma {:induction false} DrainMembers(f: seq<Lex>, c: Cursor, depth: nat, first: bool)
    requires c.pos <= |f| && c.stack != [] && depth > 0
    requires c.mode == if first then ObjectStart else ObjectComma
    ensures Drain(f, c, depth) == AfterContainer(f, c, depth, ParseMembers(f, c.pos, first))
    decreases |f| - c.pos, 1
  {
    if c.pos < |f| && f[c.pos] != RBrace && (first || f[c.pos] == Comma) {
      var d := if first then c else Cursor(c.pos + 1, ObjectKey, c.stack);
      assert Next(f, c) == Next(f, d);
      if d.pos < |f| && IsKey(f[d.pos]) {
        var e := Cursor(d.pos + 1, ObjectColon, c.stack);
        assert Next(f, d) == Token(f[d.pos], e);
        assert Drain(f, c, depth) == Drain(f, e, depth);
        if e.pos < |f| && f[e.pos] == Colon {
          DrainAfterKey(f, e, depth);
        }
      }
    }
  }

  lemma {:induction false} DrainAfterKey(f: seq<Lex>, e: Cursor, depth: nat)
    requires e.pos < |f| && f[e.pos] == Colon && e.mode == ObjectColon && e.stack != [] && depth > 0
    ensures var r := ParseValue(f, e.pos + 1);
            Drain(f, e, depth) ==
            if r.Fail? then None else AfterContainer(f, e, depth, ParseMembers(f, r.next, false))
    decreases |f| - e.pos, 0
  {
    var g := Cursor(e.pos + 1, ObjectValue, e.stack);
    SameTokenSameDrain(f, e, g, depth);
    DrainValue(f, g, depth);
    var r := ParseValue(f, g.pos);
    if r.Done? {
      DrainMembers(f, Cursor(r.next, ObjectComma, e.stack), depth, false);
    }
  }

  /** skipJSONValue as a function: one token, then the depth loop if it opened a container. */
  function Skip(f: seq<Lex>, c: Cursor): (r: Option<Cursor>)
    requires c.pos <= |f|
    ensures r.Some? ==> c.pos < r.value.pos <= |f|
  {
    match Next(f, c)
    case Error => None
    case Token(l, d) => if l.Lit? then Some(d) else if IsClose(l) then None else Drain(f, d, 1)
  }

  /**
    Wherever Decode would accept a value, skipping it succeeds exactly when the grammar accepts it,
    and both stop at the same place in the same mode. Skipping never materialises the value.
   */
  lemma SkipIsDecode(f: seq<Lex>, c: Cursor)
    requires c.pos <= |f|
    requires c.mode == ObjectColon || BeforeValue(f, c)
    ensures var r := DecodeAt(f, c);
            Skip(f, c) == if r.Bad? then None else Some(r.next)
  {
    match Prepared(f, c)
    case None =>
    case Some(d) =>
      assert Next(f, c) == Next(f, d);
      if BeforeValue(f, d) {
        if d.pos < |f| && IsOpen(f[d.pos]) {
          DrainValue(f, d, 1);
          var inside := Next(f, d).next;
          if f[d.pos] == LBracket {
            DrainElems(f, inside, 1, true);
          } else {
            DrainMembers(f, inside, 1, true);
          }
          assert inside.stack[..|inside.stack| - 1] == d.stack;
        }
      }
  }

  // ---------- the decoder object ----------

  class Reader {
    const file: seq<Lex>
    var pos: nat
    var mode: Mode
    var stack: seq<Mode>

    ghost predicate Valid()
      reads this
    {
      pos <= |file|
    }

    ghost function At(): Cursor
      reads this
    {
      Cursor(pos, mode, stack)
    }

    /** A fresh decoder over the file from `start` on, as after a seek. */
    constructor (file: seq<Lex>, start: nat)
      requires start <= |file|
      ensures Valid() && this.file == file && At() == Cursor(start, TopValue, [])
    {
      this.file := file;
      pos, mode, stack := start, TopValue, [];
    }

    method HasMore() returns (more: bool)
      requires Valid()
      ensures more == More(file, At())
    {
      more := pos < |file| && file[pos] != RBracket && file[pos] != RBrace;
    }

    method Token() returns (r: Option<Lex>)
      requires Valid()
      modifies this
      ensures Valid()
      ensures var s := Next(file, old(At()));
              if s.Error? then r == None else r == Some(s.lex) && At() == s.next
    {
      while pos < |file|
        invariant Valid()
        invariant Next(file, At()) == Next(file, old(At()))
      {
        var l := file[pos];
        if l == Colon && mode == ObjectColon {
          pos, mode := pos + 1, ObjectValue;
        } else if l == Comma && mode == ArrayComma {
          pos, mode := pos + 1, ArrayValue;
        } else if l == Comma && mode == ObjectComma {
          pos, mode := pos + 1, ObjectKey;
        } else if IsOpen(l) {
          if !ValueAllowed(mode) { return None; }
          stack := stack + [mode];
          pos, mode := pos + 1, if l == LBracket then ArrayStart else ObjectStart;
          return Some(l);
        } else if IsClose(l) {
          var own := if l == RBracket then mode == ArrayStart || mode == ArrayComma
                     else mode == ObjectStart || mode == ObjectComma;
          if !own || stack == [] { return None; }
          mode := ValueEnd(stack[|stack| - 1]);
          pos, stack := pos + 1, stack[..|stack| - 1];
          return Some(l);
        } else if IsKey(l) && (mode == ObjectStart || mode == ObjectKey) {
          pos, mode := pos + 1, ObjectColon;
          return Some(l);
        } else if l.Lit? && ValueAllowed(mode) {
          pos, mode := pos + 1, ValueEnd(mode);
          return Some(l);
        } else {
          return None;
        }
      }
      return None;
    }

    method Decode() returns (r: Option<Value>)
      requires Valid()
      modifies this
      ensures Valid()
      ensures var s := DecodeAt(file, old(At()));
              if s.Bad? then r == None else r == Some(s.value) && At() == s.next
    {
      if mode == ArrayComma {
        if pos == |file| || file[pos] != Comma { return None; }
        pos, mode := pos + 1, ArrayValue;
      } else if mode == ObjectColon {
        if pos == |file| || file[pos] != Colon { return None; }
        pos, mode := pos + 1, ObjectValue;
      }
      if !ValueAllowed(mode) { return None; }
      match ParseValue(file, pos) {
        case Fail => return None;
        case Done(v, q) =>
          pos, mode := q, ValueEnd(mode);
          return Some(v);
      }
    }

    /** skipJSONValue: consumes one value with Token alone, counting depth. */
    method SkipValue() returns (ok: bool)
      requires Valid()
      modifies this
      ensures Valid()
      ensures var s := Skip(file, old(At()));
              ok == s.Some? && (ok ==> At() == s.value)
    {
      var token := Token();
      if token.None? { return false; }
      if token.value.Lit? { return true; }
      if !IsOpen(token.value) { return false; }
      var depth: nat := 1;
      while depth > 0
        invariant Valid()
        invariant Drain(file, At(), depth) == Skip(file, old(At()))
        decreases |file| - pos, depth
      {
        token := Token();
        if token.None? { return false; }
        depth := Deeper(token.value, depth);
      }
      return true;
    }
  }
}
