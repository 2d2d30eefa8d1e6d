/**
  Text escaping for iCalendar: the six replacements the program makes one after the other, the
  single pass they amount to, and the reader of section 3.3.11 of RFC 5545 that undoes them.
 */
module Ics {
  import opened Prelude

  /** strings.ReplaceAll: left to right, without overlaps. */
  function ReplaceAll(s: string, from: string, to: string): string
    requires from != ""
  {
    if s == "" then ""
    else if from <= s then to + ReplaceAll(s[|from|..], from, to)
    else [s[0]] + ReplaceAll(s[1..], from, to)
  }

  function EscapeSpecials(s: string): string {
    ReplaceAll(ReplaceAll(ReplaceAll(s, "\\", "\\\\"), ";", "\\;"), ",", "\\,")
  }

  function EscapeBreaks(s: string): string {
    ReplaceAll(ReplaceAll(ReplaceAll(s, "\r\n", "\\n"), "\r", "\\n"), "\n", "\\n")
  }

  function Escape(s: string): string { EscapeBreaks(EscapeSpecials(s)) }

  // ---------- the single pass ----------

  function EscapeChar(c: char): string {
    if c == '\\' then "\\\\"
    else if c == ';' then "\\;"
    else if c == ',' then "\\,"
    else if c == '\r' || c == '\n' then "\\n"
    else [c]
  }

  function OnePass(s: string): string {
    if s == "" then ""
    else if "\r\n" <= s then "\\n" + OnePass(s[2..])
    else EscapeChar(s[0]) + OnePass(s[1..])
  }

  lemma {:induction false} ReplaceCharSplits(a: string, b: string, c: char, to: string)
    ensures ReplaceAll(a + b, [c], to) == ReplaceAll(a, [c], to) + ReplaceAll(b, [c], to)
    decreases |a|
  {
    if a == "" {
      assert a + b == b;
    } else {
      assert (a + b)[0] == a[0] && (a + b)[1..] == a[1..] + b;
      assert [c] <= a <==> a[0] == c;
      assert [c] <= a + b <==> (a + b)[0] == c;
      ReplaceCharSplits(a[1..], b, c, to);
    }
  }

  lemma ReplaceOne(x: char, c: char, to: string)
    ensures ReplaceAll([x], [c], to) == if x == c then to else [x]
  {
    assert [x][1..] == "" && ([c] <= [x] <==> [x][0] == c);
    assert ReplaceAll([x][1..], [c], to) == "" && to + "" == to && [x] + "" == [x];
  }

  /** The three special characters, one character of the input at a time. */
  function Special(c: char): string {
    if c == '\\' then "\\\\" else if c == ';' then "\\;" else if c == ',' then "\\," else [c]
  }

  lemma ReplaceTwo(x: char, y: char, c: char, to: string)
    ensures ReplaceAll([x, y], [c], to)
            == (if x == c then to else [x]) + (if y == c then to else [y])
  {
    assert [x, y] == [x] + [y];
    ReplaceCharSplits([x], [y], c, to);
    ReplaceOne(x, c, to);
    ReplaceOne(y, c, to);
  }

  lemma SpecialOne(x: char)
    ensures EscapeSpecials([x]) == Special(x)
  {
    ReplaceOne(x, '\\', "\\\\");
    if x == '\\' {
      ReplaceTwo('\\', '\\', ';', "\\;");
      ReplaceTwo('\\', '\\', ',', "\\,");
    } else {
      ReplaceOne(x, ';', "\\;");
      if x == ';' {
        ReplaceTwo('\\', ';', ',', "\\,");
      } else {
        ReplaceOne(x, ',', "\\,");
      }
    }
  }

  lemma SpecialsSplit(a: string, b: string)
    ensures EscapeSpecials(a + b) == EscapeSpecials(a) + EscapeSpecials(b)
  {
    ReplaceCharSplits(a, b, '\\', "\\\\");
    var a1, b1 := ReplaceAll(a, "\\", "\\\\"), ReplaceAll(b, "\\", "\\\\");
    ReplaceCharSplits(a1, b1, ';', "\\;");
    ReplaceCharSplits(ReplaceAll(a1, ";", "\\;"), ReplaceAll(b1, ";", "\\;"), ',', "\\,");
  }

  lemma SpecialsCons(s: string)
    requires s != ""
    ensures EscapeSpecials(s) == Special(s[0]) + EscapeSpecials(s[1..])
  {
    assert s == [s[0]] + s[1..];
    SpecialsSplit([s[0]], s[1..]);
    SpecialOne(s[0]);
  }

  /** A piece that cannot be the first half of a CRLF at its end is replaced on its own. */
  lemma {:induction false} CrlfSkips(a: string, b: string)
    requires '\r' !in a
    ensures ReplaceAll(a + b, "\r\n", "\\n") == a + ReplaceAll(b, "\r\n", "\\n")
    decreases |a|
  {
    if a == "" {
      assert a + b == b;
    } else {
      assert (a + b)[0] == a[0] && (a + b)[1..] == a[1..] + b;
      CrlfSkips(a[1..], b);
      assert a == [a[0]] + a[1..];
    }
  }

  lemma BreaksSkip(a: string, b: string)
    requires '\r' !in a && '\n' !in a
    ensures EscapeBreaks(a + b) == a + EscapeBreaks(b)
  {
    CrlfSkips(a, b);
    var b1 := ReplaceAll(b, "\r\n", "\\n");
    ReplaceCharSplits(a, b1, '\r', "\\n");
    NothingToReplace(a, '\r', "\\n");
    ReplaceCharSplits(a, ReplaceAll(b1, "\r", "\\n"), '\n', "\\n");
    NothingToReplace(a, '\n', "\\n");
  }

  lemma {:induction false} NothingToReplace(a: string, c: char, to: string)
    requires c !in a
    ensures ReplaceAll(a, [c], to) == a
  {
    if a != "" {
      NothingToReplace(a[1..], c, to);
      assert a == [a[0]] + a[1..];
    }
  }

  /** A text that starts with a line break, CRLF counting as one. */
  lemma BreaksFirst(s: string)
    requires s != "" && (s[0] == '\r' || s[0] == '\n')
    ensures EscapeBreaks(s) == "\\n" + EscapeBreaks(s[if "\r\n" <= s then 2 else 1..])
  {
    var n := if "\r\n" <= s then 2 else 1;
    var rest := ReplaceAll(s[n..], "\r\n", "\\n");
    var head := if n == 2 then "\\n" else [s[0]];
    assert ReplaceAll(s, "\r\n", "\\n") == head + rest;
    ReplaceCharSplits(head, rest, '\r', "\\n");
    var head1 := ReplaceAll(head, "\r", "\\n");
    ReplaceCharSplits(head1, ReplaceAll(rest, "\r", "\\n"), '\n', "\\n");
    assert ReplaceAll(head1, "\n", "\\n") == "\\n" by {
      NothingToReplace("\\n", '\r', "\\n");
      NothingToReplace("\\n", '\n', "\\n");
      ReplaceOne(s[0], '\r', "\\n");
      ReplaceOne(s[0], '\n', "\\n");
    }
  }

  lemma SpecialsKeepBreak(s: string)
    ensures EscapeSpecials("") == ""
    ensures s != "" && "\r\n" <= s ==> "\r\n" <= EscapeSpecials(s)
                                       && EscapeSpecials(s)[2..] == EscapeSpecials(s[2..])
    ensures s != "" && (s[0] == '\r' || s[0] == '\n') && !("\r\n" <= s) ==>
              && !("\r\n" <= EscapeSpecials(s))
              && EscapeSpecials(s) == [s[0]] + EscapeSpecials(s[1..])
  {
    if s != "" {
      SpecialsCons(s);
      if |s| > 1 {
        SpecialsCons(s[1..]);
        assert s[1..][1..] == s[2..];
        assert s == [s[0], s[1]] + s[2..];
      }
    }
  }

  /** The six successive replacements are one left-to-right pass. */
  lemma {:induction false} EscapeIsOnePass(s: string)
    ensures Escape(s) == OnePass(s)
    decreases |s|
  {
    SpecialsKeepBreak(s);
    if s != "" {
      if "\r\n" <= s {
        BreaksFirst(EscapeSpecials(s));
        EscapeIsOnePass(s[2..]);
      } else if s[0] == '\r' || s[0] == '\n' {
        BreaksFirst(EscapeSpecials(s));
        assert EscapeSpecials(s)[1..] == EscapeSpecials(s[1..]);
        EscapeIsOnePass(s[1..]);
      } else {
        SpecialsCons(s);
        BreaksSkip(Special(s[0]), EscapeSpecials(s[1..]));
        EscapeIsOnePass(s[1..]);
      }
    }
  }

  // ---------- the reader ----------

  /**
    Section 3.3.11 of RFC 5545: escaped characters, and no bare semicolon, comma or line break. This
    reader is lenient about the other control characters, which the section keeps out of a TEXT.
   */
  function Decode(t: string): Option<string> {
    if t == "" then Some("")
    else if t[0] == '\\' then
      if |t| < 2 then None
      else
        var rest := Decode(t[2..]);
        if rest.None? then None
        else if t[1] == 'n' || t[1] == 'N' then Some("\n" + rest.value)
        else if t[1] == '\\' || t[1] == ';' || t[1] == ',' then Some([t[1]] + rest.value)
        else None
    else if t[0] == ';' || t[0] == ',' || t[0] == '\r' || t[0] == '\n' then None
    else
      var rest := Decode(t[1..]);
      if rest.None? then None else Some([t[0]] + rest.value)
  }

  /** Every CRLF, CR and LF as one newline. */
  function Newlines(s: string): string {
    if s == "" then ""
    else if "\r\n" <= s then "\n" + Newlines(s[2..])
    else [if s[0] == '\r' then '\n' else s[0]] + Newlines(s[1..])
  }

  lemma DecodeEscaped(c: char, t: string)
    ensures Decode(EscapeChar(c) + t)
            == if Decode(t).None? then None
               else Some([if c == '\r' then '\n' else c] + Decode(t).value)
  {
    var e := EscapeChar(c);
    assert (e + t)[|e|..] == t;
  }

  lemma {:induction false} DecodeOnePass(s: string)
    ensures Decode(OnePass(s)) == Some(Newlines(s))
    decreases |s|
  {
    if s != "" {
      if "\r\n" <= s {
        DecodeOnePass(s[2..]);
        DecodeEscaped('\n', OnePass(s[2..]));
      } else {
        DecodeOnePass(s[1..]);
        DecodeEscaped(s[0], OnePass(s[1..]));
      }
    }
  }

  lemma {:induction false} OnePassHasNoBreaks(s: string)
    ensures '\r' !in OnePass(s) && '\n' !in OnePass(s)
    decreases |s|
  {
    if s != "" {
      OnePassHasNoBreaks(if "\r\n" <= s then s[2..] else s[1..]);
    }
  }

  /**
    The escaped text holds no line break, and reading it gives the input with every CRLF, CR and
    LF as one newline.
   */
  lemma EscapeInvertible(s: string)
    ensures '\r' !in Escape(s) && '\n' !in Escape(s)
    ensures Decode(Escape(s)) == Some(Newlines(s))
  {
    EscapeIsOnePass(s);
    OnePassHasNoBreaks(s);
    DecodeOnePass(s);
  }

  /** The characters a TEXT may not hold: all controls but the tab. */
  predicate Control(c: char) { (c < ' ' && c != '\t') || c == '\U{7F}' }

  predicate HoldsControl(s: string) { exists c :: c in s && Control(c) }

  predicate Broken(c: char) { c == '\r' || c == '\n' }

  /** The reader that refuses them as well. */
  function DecodeStrict(t: string): Option<string> {
    if HoldsControl(t) then None else Decode(t)
  }

  lemma EscapeControls(x: char, c: char, rest: string)
    requires Control(c)
    ensures c in EscapeChar(x) + rest <==> (x == c && !Broken(c)) || c in rest
  {
    assert c in EscapeChar(x) <==> x == c && !Broken(c);
  }

  lemma {:induction false} OnePassControls(s: string, c: char)
    requires Control(c)
    ensures c in OnePass(s) <==> c in s && !Broken(c)
    decreases |s|
  {
    if s != "" {
      if "\r\n" <= s {
        OnePassControls(s[2..], c);
        EscapeControls('\n', c, OnePass(s[2..]));
        assert s == [s[0], s[1]] + s[2..];
      } else {
        OnePassControls(s[1..], c);
        EscapeControls(s[0], c, OnePass(s[1..]));
        assert s == [s[0]] + s[1..];
      }
    }
  }

  /** The strict reader gives the input back exactly if it holds no control but tabs and breaks. */
  lemma StrictIff(s: string)
    ensures DecodeStrict(Escape(s)) == Some(Newlines(s))
            <==> forall c :: c in s && Control(c) ==> Broken(c)
  {
    EscapeInvertible(s);
    EscapeIsOnePass(s);
    forall c | Control(c) ensures c in Escape(s) <==> c in s && !Broken(c) {
      OnePassControls(s, c);
    }
  }

  lemma {:induction false} OnePassOfNewlines(s: string)
    ensures OnePass(Newlines(s)) == OnePass(s)
    decreases |s|
  {
    if s != "" {
      var n := if "\r\n" <= s then 2 else 1;
      OnePassOfNewlines(s[n..]);
      var head := if n == 2 || s[0] == '\r' then '\n' else s[0];
      var t := [head] + Newlines(s[n..]);
      assert Newlines(s) == t && t[0] == head && t[1..] == Newlines(s[n..]);
      assert !("\r\n" <= t);
    }
  }

  /** Two texts are escaped alike exactly when they differ in the spelling of line breaks only. */
  lemma EscapeSeparates(s: string, t: string)
    ensures Escape(s) == Escape(t) <==> Newlines(s) == Newlines(t)
  {
    EscapeInvertible(s);
    EscapeInvertible(t);
    EscapeIsOnePass(s);
    EscapeIsOnePass(t);
    OnePassOfNewlines(s);
    OnePassOfNewlines(t);
  }
}
