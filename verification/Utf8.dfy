/**
  What encoding a byte string as JSON and decoding it again makes of it: every byte that belongs to
  no character is respelled as U+FFFD, the replacement character. A byte is a char below 256.
 */
module Utf8 {
  import opened Prelude

  const REPLACEMENT := "\U{EF}\U{BF}\U{BD}"

  predicate Ascii(c: char) { c as int < 0x80 }

  predicate Continues(c: char) { 0x80 <= c as int <= 0xBF }

  /** The length a first byte announces, 0 for a byte that begins no character. */
  function Width(c: char): (n: nat)
    ensures n <= 4
  {
    var b := c as int;
    if b < 0x80 then 1
    else if 0xC2 <= b <= 0xDF then 2
    else if 0xE0 <= b <= 0xEF then 3
    else if 0xF0 <= b <= 0xF4 then 4
    else 0
  }

  /** No overlong forms, no surrogates, nothing beyond U+10FFFF. */
  predicate Seconds(first: char, c: char) {
    match first as int
    case 0xE0 => 0xA0 <= c as int <= 0xBF
    case 0xED => 0x80 <= c as int <= 0x9F
    case 0xF0 => 0x90 <= c as int <= 0xBF
    case 0xF4 => 0x80 <= c as int <= 0x8F
    case _ => Continues(c)
  }

  /** The length of the character at the front, 0 if there is none. */
  function RuneLen(s: string): (n: nat)
    requires s != ""
    ensures n <= |s| && (n == 0 || n == Width(s[0]))
  {
    var n := Width(s[0]);
    if n <= 1 then n
    else if |s| < n || !Seconds(s[0], s[1]) then 0
    else if forall i :: 2 <= i < n ==> Continues(s[i]) then n
    else 0
  }

  predicate Valid(s: string) {
    s == "" || (RuneLen(s) > 0 && Valid(s[RuneLen(s)..]))
  }

  function Respell(s: string): (r: string)
    ensures |r| >= |s|
  {
    if s == "" then ""
    else
      var n := RuneLen(s);
      if n == 0 then REPLACEMENT + Respell(s[1..]) else s[..n] + Respell(s[n..])
  }

  /** Only the bytes of the character itself decide about it. */
  lemma RuneOf(s: string, t: string, n: nat)
    requires s != "" && n == RuneLen(s) > 0
    requires n <= |t| && t[..n] == s[..n]
    ensures RuneLen(t) == n
  {
    assert forall i :: 0 <= i < n ==> t[..n][i] == s[..n][i];
    assert forall i :: 0 <= i < n ==> t[i] == s[i];
  }

  /** What is respelled is valid. */
  lemma {:induction false} RespellValid(s: string)
    ensures Valid(Respell(s))
  {
    if s != "" {
      var n := RuneLen(s);
      if n == 0 {
        RespellValid(s[1..]);
        var r := Respell(s);
        assert r[0] == '\U{EF}' && r[1] == '\U{BF}' && r[2] == '\U{BD}';
        assert RuneLen(r) == 3 && r[3..] == Respell(s[1..]);
      } else {
        RespellValid(s[n..]);
        RuneOf(s, Respell(s), n);
        assert Respell(s)[n..] == Respell(s[n..]);
      }
    }
  }

  /** Exactly the valid texts are left alone. */
  lemma {:induction false} RespellFixed(s: string)
    ensures Respell(s) == s <==> Valid(s)
  {
    if s != "" {
      var n, r := RuneLen(s), Respell(s);
      if n == 0 {
        assert r[0] == '\U{EF}' && r[1] == '\U{BF}' && r[2] == '\U{BD}';
        assert RuneLen(r) == 3;
      } else {
        RespellFixed(s[n..]);
        assert s == s[..n] + s[n..] && r == s[..n] + Respell(s[n..]);
        if r == s { SamePrefix(s[..n], s[..n], Respell(s[n..]), s[n..]); }
      }
    }
  }

  /** No character reaches across an ASCII byte. */
  lemma RuneStops(a: string, c: char, b: string)
    requires a != "" && Ascii(c)
    ensures RuneLen(a + [c] + b) == RuneLen(a)
  {
    var s, n := a + [c] + b, Width(a[0]);
    assert s[|a|] == c && forall i :: 0 <= i < |a| ==> s[i] == a[i];
  }

  /** The first character or stray byte, and what becomes of it. */
  function First(s: string): (n: nat)
    requires s != ""
    ensures 0 < n <= |s|
  {
    if RuneLen(s) == 0 then 1 else RuneLen(s)
  }

  function Piece(s: string): string
    requires s != ""
  {
    if RuneLen(s) == 0 then REPLACEMENT else s[..RuneLen(s)]
  }

  lemma Pieces(s: string)
    requires s != ""
    ensures Respell(s) == Piece(s) + Respell(s[First(s)..])
  {
  }

  lemma SamePiece(a: string, c: char, b: string)
    requires a != "" && Ascii(c)
    ensures var s := a + [c] + b;
            Piece(s) == Piece(a) && First(s) == First(a) && s[First(a)..] == a[First(a)..] + [c] + b
  {
    RuneStops(a, c, b);
    var s, n := a + [c] + b, First(a);
    assert s[..n] == a[..n] && s[n..] == a[n..] + [c] + b;
  }

  lemma AsciiFirst(c: char, b: string)
    requires Ascii(c)
    ensures Respell([c] + b) == [c] + Respell(b)
  {
    var s := [c] + b;
    assert s[1..] == b && s[..1] == [c];
  }

  lemma Reassociate(p: string, r: string, c: string, t: string)
    ensures p + (r + c + t) == (p + r) + c + t
  {
  }

  lemma {:induction false} RespellParts(a: string, c: char, b: string)
    requires Ascii(c)
    ensures Respell(a + [c] + b) == Respell(a) + [c] + Respell(b)
    decreases |a|
  {
    if a == "" {
      AsciiFirst(c, b);
      assert "" + [c] + b == [c] + b;
      assert Respell("") + [c] + Respell(b) == [c] + Respell(b);
    } else {
      var rest := a[First(a)..];
      RespellParts(rest, c, b);
      SamePiece(a, c, b);
      Pieces(a + [c] + b);
      Pieces(a);
      Reassociate(Piece(a), Respell(rest), [c], Respell(b));
    }
  }

  lemma {:induction false} AsciiPrefix(m: string, b: string)
    requires forall c :: c in m ==> Ascii(c)
    ensures Respell(m + b) == m + Respell(b)
  {
    if m == "" {
      assert m + b == b && m + Respell(b) == Respell(b);
    } else {
      var rest := m[1..];
      assert Ascii(m[0]) && forall c :: c in rest ==> c in m;
      AsciiPrefix(rest, b);
      AsciiFirst(m[0], rest + b);
      assert m == [m[0]] + rest;
      AppendAssoc([m[0]], rest, b);
      AppendAssoc([m[0]], rest, Respell(b));
    }
  }

  /** ASCII between two texts keeps them apart. */
  lemma AsciiMiddle(a: string, m: string, b: string)
    requires m != "" && forall c :: c in m ==> Ascii(c)
    ensures Respell(a + m + b) == Respell(a) + m + Respell(b)
  {
    assert m == [m[0]] + m[1..] && a + m + b == a + [m[0]] + (m[1..] + b);
    RespellParts(a, m[0], m[1..] + b);
    AsciiPrefix(m[1..], b);
    assert Respell(a) + [m[0]] + (m[1..] + Respell(b)) == Respell(a) + m + Respell(b);
  }

  /** The two ends a valid text can have. */
  predicate EndsWell(x: char, y: char) {
    if Ascii(y) then Ascii(x) || Continues(x)
    else Continues(y) && (Continues(x) || RuneLen([x, y]) == 2)
  }

  /** A text that is one character. */
  lemma OneRune(s: string)
    requires |s| >= 2 && RuneLen(s) == |s|
    ensures EndsWell(s[|s| - 2], s[|s| - 1])
  {
    if |s| == 2 {
      assert s == [s[0], s[1]];
    }
  }

  lemma RuneEnd(s: string)
    requires s != "" && RuneLen(s) > 0
    ensures var c := s[RuneLen(s) - 1]; Ascii(c) || Continues(c)
  {
  }

  lemma {:induction false} LastTwo(s: string)
    requires Valid(s) && |s| >= 2
    ensures EndsWell(s[|s| - 2], s[|s| - 1])
  {
    var n := RuneLen(s);
    var rest := s[n..];
    if |rest| >= 2 {
      LastTwo(rest);
      assert rest[|rest| - 2] == s[|s| - 2] && rest[|rest| - 1] == s[|s| - 1];
    } else if rest == "" {
      OneRune(s);
    } else {
      RuneEnd(s);
      assert RuneLen(rest) == 1 && rest[0] == s[|s| - 1];
    }
  }

  /** Two bytes of their own. */
  lemma TwoBytes(x: char, y: char)
    ensures Respell([x, y])
            == if RuneLen([x, y]) == 2 then [x, y] else Respell([x]) + Respell([y])
    ensures forall c: char :: Respell([c]) == if Ascii(c) then [c] else REPLACEMENT
  {
    forall c: char ensures Respell([c]) == if Ascii(c) then [c] else REPLACEMENT {
      assert [c][1..] == "" && [c][..1] == [c];
    }
    assert [x, y][1..] == [y] && [x, y][2..] == "" && [x, y][..2] == [x, y] && [x, y][..1] == [x];
  }

  lemma ValidParts(a: string, c: char, b: string)
    requires Ascii(c)
    ensures Valid(a + [c] + b) <==> Valid(a) && Valid(b)
  {
    RespellFixed(a + [c] + b);
    RespellFixed(a);
    RespellFixed(b);
    RespellParts(a, c, b);
    if Respell(a + [c] + b) == a + [c] + b {
      AppendAssoc(Respell(a), [c], Respell(b));
      AppendAssoc(a, [c], b);
      SamePrefix(Respell(a), a, [c] + Respell(b), [c] + b);
      SamePrefix([c], [c], Respell(b), b);
    }
  }
}
