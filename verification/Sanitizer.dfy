/**
  The sanitizer in front of the audit log: a JSON tree in which strings under telling keys are
  masked. Strings are byte strings, as Go measures and cuts them; `lower` stands for ToLower and is
  left arbitrary. A mask can cut a character, and the JSON round trip in front of a composite value
  respells what is left of it.
 */
module Sanitizer {
  import opened Prelude
  import opened Json
  import Utf8

  type Lower = string -> string

  predicate HasPrefix(s: string, p: string) { p <= s }

  predicate Contains(s: string, t: string) {
    t <= s || (s != "" && Contains(s[1..], t))
  }

  datatype Kind = Evidence | Phone | Email | Credential | Plain

  /** What a lower-cased key says about its value; the first match wins. */
  function KindOf(lower: string): Kind {
    if HasPrefix(lower, "consent_") then Evidence
    else if Contains(lower, "phone") || Contains(lower, "mobile") || Contains(lower, "telefon") then Phone
    else if Contains(lower, "email") || Contains(lower, "mail") then Email
    else if Contains(lower, "password") || Contains(lower, "secret") || Contains(lower, "token")
    then Credential
    else Plain
  }

  predicate StandsAt(s: string, word: string, i: nat) { i + |word| <= |s| && s[i..i + |word|] == word }

  /** The word stands somewhere in the text. */
  ghost predicate Holds(s: string, word: string) { exists i: nat :: StandsAt(s, word, i) }

  lemma {:induction false} ContainsIff(s: string, word: string)
    ensures Contains(s, word) <==> Holds(s, word)
  {
    if word <= s {
      assert StandsAt(s, word, 0);
    } else if s == "" {
      assert word != "";
    } else {
      ContainsIff(s[1..], word);
      if i: nat :| StandsAt(s[1..], word, i) {
        StandsLater(s, word, i);
      }
      if i: nat :| StandsAt(s, word, i) {
        assert !StandsAt(s, word, 0);
        StandsLater(s, word, i - 1);
      }
    }
  }

  lemma StandsLater(s: string, word: string, i: nat)
    requires s != ""
    ensures StandsAt(s[1..], word, i) <==> StandsAt(s, word, i + 1)
  {
    if i + 1 + |word| <= |s| {
      assert s[1..][i..i + |word|] == s[i + 1..i + 1 + |word|];
    }
  }

  ghost predicate HoldsOne(s: string, words: set<string>) { exists w :: w in words && Holds(s, w) }

  const PHONE_WORDS := {"phone", "mobile", "telefon"}
  const CREDENTIAL_WORDS := {"password", "secret", "token"}

  /** What every key says: the words that stand in it decide, a phone word before a mail word. */
  lemma KindMeans(lower: string)
    ensures KindOf(lower) == Evidence <==> |lower| >= 8 && lower[..8] == "consent_"
    ensures KindOf(lower) == Phone <==> KindOf(lower) != Evidence && HoldsOne(lower, PHONE_WORDS)
    ensures KindOf(lower) == Email <==>
              KindOf(lower) != Evidence && !HoldsOne(lower, PHONE_WORDS) && Holds(lower, "mail")
    ensures KindOf(lower) == Credential <==>
              && KindOf(lower) != Evidence && !HoldsOne(lower, PHONE_WORDS) && !Holds(lower, "mail")
              && HoldsOne(lower, CREDENTIAL_WORDS)
  {
    ContainsIff(lower, "phone");
    ContainsIff(lower, "mobile");
    ContainsIff(lower, "telefon");
    ContainsIff(lower, "email");
    ContainsIff(lower, "mail");
    ContainsIff(lower, "password");
    ContainsIff(lower, "secret");
    ContainsIff(lower, "token");
    assert |"consent_"| == 8;
    assert Holds(lower, "email") ==> Holds(lower, "mail") by {
      if i: nat :| StandsAt(lower, "email", i) {
        assert lower[i + 1..i + 1 + 4] == lower[i..i + 5][1..] == "mail";
        assert StandsAt(lower, "mail", i + 1);
      }
    }
  }

  /** The mask a scalar gets under its key, by the words in the key. */
  lemma MaskedUnder(lower: Lower, key: string, a: Scalar)
    requires !a.Null?
    ensures var l, m := lower(lower(key)), MaskUnder(lower, key, a);
            var evidence := |l| >= 8 && l[..8] == "consent_";
            && (evidence ==> m == a)
            && (!evidence && HoldsOne(l, PHONE_WORDS) ==> m == Str(if a.Str? then MaskPhone(a.s) else "***"))
            && (!evidence && !HoldsOne(l, PHONE_WORDS) && Holds(l, "mail") ==>
                  m == Str(if a.Str? then MaskEmail(a.s) else "***"))
            && (!evidence && !HoldsOne(l, PHONE_WORDS) && !Holds(l, "mail") ==>
                  m == if HoldsOne(l, CREDENTIAL_WORDS) then Str("[REDACTED]") else a)
  {
    KindMeans(lower(lower(key)));
  }

  function Split(s: string): (string, string)
    requires '@' in s
  {
    if s[0] == '@' then ("", s[1..]) else var (a, b) := Split(s[1..]); ([s[0]] + a, b)
  }

  function MaskPhone(s: string): string {
    if |s| < 4 then "***" else s[..2] + " *** " + s[|s| - 2..]
  }

  function MaskEmail(s: string): string {
    if '@' !in s then "***"
    else
      var (name, domain) := Split(s);
      if |name| <= 1 then "*@" + domain else name[..1] + "***@" + domain
  }

  /** sanitizeScalarValue, on a scalar that is not null. */
  function Mask(kind: Kind, a: Scalar): Scalar {
    match kind
    case Phone => if a.Str? then Str(MaskPhone(a.s)) else Str("***")
    case Email => if a.Str? then Str(MaskEmail(a.s)) else Str("***")
    case Credential => Str("[REDACTED]")
    case _ => a
  }

  /** The scalar function lowers the key once more. */
  function MaskUnder(lower: Lower, key: string, a: Scalar): Scalar {
    if a.Null? then a else Mask(KindOf(lower(lower(key))), a)
  }

  predicate IsEvidence(lower: Lower, key: string) { HasPrefix(lower(key), "consent_") }

  /** sanitizeNormalizedValue: array elements inherit the key, object members bring their own. */
  function Sanitize(lower: Lower, key: string, v: Value): Value
    decreases v
  {
    if v == Atom(Null) || IsEvidence(lower, key) then v
    else
      match v
      case Atom(a) => Atom(MaskUnder(lower, key, a))
      case Arr(es) => Arr(SanitizeAll(lower, key, es))
      case Obj(fs) => Obj(SanitizeMembers(lower, fs))
  }

  function SanitizeAll(lower: Lower, key: string, es: seq<Value>): (r: seq<Value>)
    ensures |r| == |es|
    decreases es
  {
    if es == [] then []
    else [Sanitize(lower, key, es[0])] + SanitizeAll(lower, key, es[1..])
  }

  function SanitizeMembers(lower: Lower, fs: seq<Field>): (r: seq<Field>)
    ensures |r| == |fs|
    decreases fs
  {
    if fs == [] then []
    else [Field(fs[0].name, Sanitize(lower, fs[0].name, fs[0].value))] + SanitizeMembers(lower, fs[1..])
  }

  /** normalizeJSONValue on a tree: texts are respelled, and of members with one name the last stays. */
  function Normal(v: Value): Value
    decreases v
  {
    match v
    case Atom(a) => if a.Str? then Atom(Str(Utf8.Respell(a.s))) else v
    case Arr(es) => Arr(NormalAll(es))
    case Obj(fs) => Obj(NormalMembers(fs))
  }

  function NormalAll(es: seq<Value>): (r: seq<Value>)
    ensures |r| == |es|
    decreases es
  {
    if es == [] then [] else [Normal(es[0])] + NormalAll(es[1..])
  }

  function NormalMembers(fs: seq<Field>): seq<Field>
    decreases fs
  {
    if fs == [] then []
    else
      var name, rest := Utf8.Respell(fs[0].name), NormalMembers(fs[1..]);
      if name in Names(rest) then rest else [Field(name, Normal(fs[0].value))] + rest
  }

  /** SanitizeDiffValue: a composite value is normalised and starts over without its key. */
  function SanitizeDiff(lower: Lower, key: string, v: Value): Value {
    if v == Atom(Null) || IsEvidence(lower, key) then v
    else if v.Atom? then Atom(MaskUnder(lower, key, v.a))
    else Sanitize(lower, "", Normal(v))
  }

  // ---------- the recursion with loops ----------

  lemma {:induction false} AllAt(lower: Lower, key: string, es: seq<Value>, i: nat)
    requires i < |es|
    ensures SanitizeAll(lower, key, es)[i] == Sanitize(lower, key, es[i])
  {
    if i > 0 {
      AllAt(lower, key, es[1..], i - 1);
    }
  }

  lemma {:induction false} MemberAt(lower: Lower, fs: seq<Field>, i: nat)
    requires i < |fs|
    ensures SanitizeMembers(lower, fs)[i] == Field(fs[i].name, Sanitize(lower, fs[i].name, fs[i].value))
  {
    if i > 0 {
      MemberAt(lower, fs[1..], i - 1);
    }
  }

  method SanitizeValue(lower: Lower, key: string, v: Value) returns (r: Value)
    ensures r == Sanitize(lower, key, v)
    decreases v
  {
    if v == Atom(Null) || IsEvidence(lower, key) { return v; }
    match v {
      case Atom(a) => return Atom(MaskUnder(lower, key, a));
      case Arr(es) =>
        var result: seq<Value> := [];
        for i := 0 to |es|
          invariant |result| == i
          invariant forall j :: 0 <= j < i ==> result[j] == SanitizeAll(lower, key, es)[j]
        {
          var nested := SanitizeValue(lower, key, es[i]);
          AllAt(lower, key, es, i);
          result := result + [nested];
        }
        assert result == SanitizeAll(lower, key, es);
        return Arr(result);
      case Obj(fs) =>
        var result: seq<Field> := [];
        for i := 0 to |fs|
          invariant |result| == i
          invariant forall j :: 0 <= j < i ==> result[j] == SanitizeMembers(lower, fs)[j]
        {
          var nested := SanitizeValue(lower, fs[i].name, fs[i].value);
          MemberAt(lower, fs, i);
          result := result + [Field(fs[i].name, nested)];
        }
        assert result == SanitizeMembers(lower, fs);
        return Obj(result);
    }
  }

  // ---------- masks are fixed points ----------

  /** The texts a mask leaves alone, described without the masking functions. */
  predicate Masked(kind: Kind, a: Scalar) {
    match kind
    case Phone => a.Str? && (a.s == "***" || (|a.s| == 9 && a.s[2..7] == " *** "))
    case Email => a.Str? && (a.s == "***" || MaskedAddress(a.s))
    case Credential => a == Str("[REDACTED]")
    case _ => true
  }

  /** An address whose local part is a star, or one byte other than '@' and three stars. */
  predicate MaskedAddress(s: string) {
    || (|s| >= 2 && s[..2] == "*@")
    || (|s| >= 5 && s[0] != '@' && s[1..5] == "***@")
  }

  lemma {:induction false} SplitMeans(s: string)
    requires '@' in s
    ensures var (a, b) := Split(s); s == a + "@" + b && '@' !in a
  {
    if s[0] != '@' {
      SplitMeans(s[1..]);
      var (a, b) := Split(s[1..]);
      assert s == [s[0]] + s[1..];
      assert [s[0]] + (a + "@" + b) == ([s[0]] + a) + "@" + b;
    }
  }

  lemma SplitOf(a: string, b: string)
    requires '@' !in a
    ensures '@' in a + "@" + b && Split(a + "@" + b) == (a, b)
  {
    var s := a + "@" + b;
    assert s[|a|] == '@';
    SplitMeans(s);
    var (x, y) := Split(s);
    SplitAt(a, x, '@', b, y);
  }

  lemma PhoneFixed(s: string)
    ensures MaskPhone(s) == s <==> Masked(Phone, Str(s))
    ensures Masked(Phone, Str(MaskPhone(s)))
  {
    if |s| >= 4 {
      var m := MaskPhone(s);
      assert |m| == 9 && m[..2] == s[..2] && m[2..7] == " *** " && m[7..] == s[|s| - 2..];
      if |s| == 9 {
        assert s == s[..2] + s[2..7] + s[7..] && m == m[..2] + m[2..7] + m[7..];
      }
    }
  }

  lemma EmailMasked(s: string)
    ensures Masked(Email, Str(MaskEmail(s)))
  {
    if '@' in s {
      SplitMeans(s);
      var (a, b) := Split(s);
      var m := MaskEmail(s);
      if |a| <= 1 {
        assert m[..2] == "*@";
      } else {
        assert m[0] == a[0] && m[1..5] == "***@";
      }
    }
  }

  lemma EmailFixed(s: string)
    requires Masked(Email, Str(s))
    ensures MaskEmail(s) == s
  {
    if MaskedAddress(s) {
      if s[..2] == "*@" {
        assert s == "*" + "@" + s[2..];
        SplitOf("*", s[2..]);
        assert "*@" + s[2..] == s;
      } else {
        var a := [s[0]] + "***";
        assert a == [s[0], '*', '*', '*'];
        assert s == a + "@" + s[5..] by {
          assert s == [s[0]] + s[1..5] + s[5..];
          assert "***@" == "***" + "@";
        }
        SplitOf(a, s[5..]);
        assert a[..1] + "***@" + s[5..] == s;
      }
    }
  }

  /** A scalar is left alone exactly when it already has a masked form, and masks have one. */
  lemma MaskFixed(kind: Kind, a: Scalar)
    ensures Mask(kind, a) == a <==> Masked(kind, a)
    ensures Masked(kind, Mask(kind, a))
  {
    if kind.Phone? && a.Str? {
      PhoneFixed(a.s);
    } else if kind.Email? && a.Str? {
      EmailMasked(a.s);
      if Masked(kind, a) {
        EmailFixed(a.s);
      }
    }
  }

  predicate SameEnds(s: string, t: string) {
    if |s| < 4 || |t| < 4 then |s| < 4 && |t| < 4
    else s[..2] == t[..2] && s[|s| - 2..] == t[|t| - 2..]
  }

  predicate SameAddressEnds(s: string, t: string) {
    if '@' !in s || '@' !in t then '@' !in s && '@' !in t
    else
      && Split(s).1 == Split(t).1
      && if |Split(s).0| <= 1 then |Split(t).0| <= 1 else |Split(t).0| > 1 && s[0] == t[0]
  }

  /**
    What a mask reveals, exactly: of a phone number its two bytes at either end, of an address the
    first byte and the domain, and of what is too short or no address nothing.
   */
  lemma MaskReveals(s: string, t: string)
    ensures MaskPhone(s) == MaskPhone(t) <==> SameEnds(s, t)
    ensures MaskEmail(s) == MaskEmail(t) <==> SameAddressEnds(s, t)
  {
    PhoneParts(s);
    PhoneParts(t);
    EmailParts(s);
    EmailParts(t);
  }

  lemma PhoneParts(s: string)
    ensures |s| >= 4 ==>
      var m := MaskPhone(s);
      |m| == 9 && m[..2] == s[..2] && m[7..] == s[|s| - 2..]
  {
  }

  lemma EmailParts(s: string)
    ensures '@' in s ==>
      var (a, b) := Split(s);
      var m := MaskEmail(s);
      if |a| <= 1 then |m| >= 2 && m[0] == '*' && m[1] == '@' && m[2..] == b
      else |m| >= 5 && m[0] == s[0] && m[1] == '*' && m[5..] == b && m == [s[0]] + "***@" + b
  {
    if '@' in s {
      SplitMeans(s);
    }
  }

  // ---------- the tree ----------

  /** Every scalar under a telling key has a masked form; evidence and nulls may be anything. */
  ghost predicate Sanitized(lower: Lower, key: string, v: Value)
    decreases v
  {
    v == Atom(Null) || IsEvidence(lower, key) ||
    match v
    case Atom(a) => Masked(KindOf(lower(lower(key))), a)
    case Arr(es) => forall i :: 0 <= i < |es| ==> Sanitized(lower, key, es[i])
    case Obj(fs) => forall i :: 0 <= i < |fs| ==> Sanitized(lower, fs[i].name, fs[i].value)
  }

  /** The output is sanitized, whatever the input. */
  lemma {:induction false} OutputSanitized(lower: Lower, key: string, v: Value)
    ensures Sanitized(lower, key, Sanitize(lower, key, v))
    decreases v
  {
    if v != Atom(Null) && !IsEvidence(lower, key) {
      match v
      case Atom(a) => MaskFixed(KindOf(lower(lower(key))), a);
      case Arr(es) =>
        forall i | 0 <= i < |es| ensures Sanitized(lower, key, SanitizeAll(lower, key, es)[i]) {
          AllAt(lower, key, es, i);
          OutputSanitized(lower, key, es[i]);
        }
      case Obj(fs) =>
        forall i | 0 <= i < |fs|
          ensures var f := SanitizeMembers(lower, fs)[i]; Sanitized(lower, f.name, f.value)
        {
          MemberAt(lower, fs, i);
          OutputSanitized(lower, fs[i].name, fs[i].value);
        }
    }
  }

  /** The sanitizer leaves a tree alone exactly when it is sanitized already. */
  lemma {:induction false} FixedIff(lower: Lower, key: string, v: Value)
    ensures Sanitize(lower, key, v) == v <==> Sanitized(lower, key, v)
    decreases v
  {
    if v != Atom(Null) && !IsEvidence(lower, key) {
      match v
      case Atom(a) => MaskFixed(KindOf(lower(lower(key))), a);
      case Arr(es) =>
        forall i | 0 <= i < |es|
          ensures SanitizeAll(lower, key, es)[i] == es[i] <==> Sanitized(lower, key, es[i])
        {
          AllAt(lower, key, es, i);
          FixedIff(lower, key, es[i]);
        }
        assert SanitizeAll(lower, key, es) == es <==>
          forall i :: 0 <= i < |es| ==> SanitizeAll(lower, key, es)[i] == es[i];
      case Obj(fs) =>
        forall i | 0 <= i < |fs|
          ensures SanitizeMembers(lower, fs)[i] == fs[i] <==> Sanitized(lower, fs[i].name, fs[i].value)
        {
          MemberAt(lower, fs, i);
          FixedIff(lower, fs[i].name, fs[i].value);
        }
        assert SanitizeMembers(lower, fs) == fs <==>
          forall i :: 0 <= i < |fs| ==> SanitizeMembers(lower, fs)[i] == fs[i];
    }
  }

  /** Sanitizing a normalised value twice is sanitizing it once, and so it is for a scalar. */
  lemma Idempotent(lower: Lower, key: string, v: Value)
    ensures Sanitize(lower, key, Sanitize(lower, key, v)) == Sanitize(lower, key, v)
    ensures v.Atom? ==>
              SanitizeDiff(lower, key, SanitizeDiff(lower, key, v)) == SanitizeDiff(lower, key, v)
  {
    OutputSanitized(lower, key, v);
    FixedIff(lower, key, Sanitize(lower, key, v));
    if v.Atom? {
      MaskFixed(KindOf(lower(lower(key))), v.a);
    }
  }

  // ---------- normalising in between ----------

  /** Every text is valid, and no object has two members of one name. */
  ghost predicate Tidy(v: Value)
    decreases v
  {
    match v
    case Atom(a) => a.Str? ==> Utf8.Valid(a.s)
    case Arr(es) => forall i :: 0 <= i < |es| ==> Tidy(es[i])
    case Obj(fs) => TidyNames(fs) && forall i :: 0 <= i < |fs| ==> Tidy(fs[i].value)
  }

  ghost predicate TidyNames(fs: seq<Field>) {
    && (forall i :: 0 <= i < |fs| ==> Utf8.Valid(fs[i].name))
    && forall i, j :: 0 <= i < j < |fs| ==> fs[i].name != fs[j].name
  }

  lemma {:induction false} NormalAt(es: seq<Value>, i: nat)
    requires i < |es|
    ensures NormalAll(es)[i] == Normal(es[i])
  {
    if i > 0 {
      NormalAt(es[1..], i - 1);
    }
  }

  lemma {:induction false} NormalIsTidy(v: Value)
    ensures Tidy(Normal(v))
    decreases v
  {
    match v {
      case Atom(a) => if a.Str? { Utf8.RespellValid(a.s); }
      case Arr(es) =>
        forall i | 0 <= i < |es| ensures Tidy(NormalAll(es)[i]) {
          NormalAt(es, i);
          NormalIsTidy(es[i]);
        }
      case Obj(fs) => MembersAreTidy(fs);
    }
  }

  lemma {:induction false} MembersAreTidy(fs: seq<Field>)
    ensures Tidy(Obj(NormalMembers(fs)))
    decreases fs
  {
    if fs != [] {
      MembersAreTidy(fs[1..]);
      NormalIsTidy(fs[0].value);
      Utf8.RespellValid(fs[0].name);
      var name, rest := Utf8.Respell(fs[0].name), NormalMembers(fs[1..]);
      assert name !in Names(rest) ==> forall i :: 0 <= i < |rest| ==> rest[i].name != name;
    }
  }

  /** Members with valid names of their own are normalised one by one. */
  lemma {:induction false} TidyMembers(fs: seq<Field>)
    requires TidyNames(fs)
    ensures |NormalMembers(fs)| == |fs|
    ensures forall i :: 0 <= i < |fs| ==> NormalMembers(fs)[i] == Field(fs[i].name, Normal(fs[i].value))
  {
    if fs != [] {
      var rest := NormalMembers(fs[1..]);
      assert forall i :: 0 <= i < |fs[1..]| ==> fs[1..][i] == fs[i + 1];
      TidyMembers(fs[1..]);
      Utf8.RespellFixed(fs[0].name);
      assert forall i :: 0 <= i < |rest| ==> rest[i].name == fs[i + 1].name;
    }
  }

  lemma {:induction false} TidyIsNormal(v: Value)
    requires Tidy(v)
    ensures Normal(v) == v
    decreases v
  {
    match v {
      case Atom(a) => if a.Str? { Utf8.RespellFixed(a.s); }
      case Arr(es) =>
        forall i | 0 <= i < |es| ensures NormalAll(es)[i] == es[i] {
          NormalAt(es, i);
          TidyIsNormal(es[i]);
        }
      case Obj(fs) =>
        TidyMembers(fs);
        forall i | 0 <= i < |fs| ensures NormalMembers(fs)[i] == fs[i] {
          TidyIsNormal(fs[i].value);
        }
    }
  }

  // ---------- where a mask cuts ----------

  /** The first two bytes end a character, or the cut one begins like the replacement character. */
  predicate HeadCut(x: char, y: char) {
    if Utf8.Ascii(x) then Utf8.Ascii(y) || y == '\U{EF}'
    else Utf8.Width(x) == 2 || (x == '\U{EF}' && y == '\U{BF}')
  }

  /** The last two bytes begin a character, or the cut one ends like the replacement character. */
  predicate TailCut(x: char, y: char) {
    if Utf8.Ascii(y) then Utf8.Ascii(x) || x == '\U{BD}'
    else Utf8.Width(x) == 2 || (x == '\U{BF}' && y == '\U{BD}')
  }

  /** Does the mask of a valid text stand a second round? */
  predicate CutsWell(kind: Kind, a: Scalar) {
    match kind
    case Phone =>
      a.Str? && |a.s| >= 4 ==>
        HeadCut(a.s[0], a.s[1]) && TailCut(a.s[|a.s| - 2], a.s[|a.s| - 1])
    case Email =>
      a.Str? && '@' in a.s && |Split(a.s).0| > 1 ==> Utf8.Ascii(a.s[0]) || a.s[0] == '\U{EF}'
    case _ => true
  }

  lemma HeadStands(s: string)
    requires Utf8.Valid(s) && |s| >= 4
    ensures var r := Utf8.Respell(s[..2]);
            |r| >= 2 && (r[..2] == s[..2] <==> HeadCut(s[0], s[1]))
  {
    var x, y := s[0], s[1];
    assert s[..2] == [x, y];
    Utf8.TwoBytes(x, y);
    if Utf8.RuneLen(s) == 2 {
      Utf8.RuneOf(s, [x, y], 2);
    } else if Utf8.RuneLen(s) == 1 {
      assert s[1..] != "" && Utf8.RuneLen(s[1..]) > 0;
    }
  }

  lemma TailStands(s: string)
    requires Utf8.Valid(s) && |s| >= 4
    ensures var n, r := |s|, Utf8.Respell(s[|s| - 2..]);
            |r| >= 2 && (r[|r| - 2..] == s[n - 2..] <==> TailCut(s[n - 2], s[n - 1]))
  {
    var x, y := s[|s| - 2], s[|s| - 1];
    assert s[|s| - 2..] == [x, y];
    Utf8.TwoBytes(x, y);
    Utf8.LastTwo(s);
  }

  /** Two masks agree when the ends they keep do. */
  lemma PhoneEnds(s: string, r: string)
    requires |s| >= 4 && |r| >= 4
    ensures MaskPhone(r) == MaskPhone(s) <==> r[..2] == s[..2] && r[|r| - 2..] == s[|s| - 2..]
  {
    MaskReveals(r, s);
  }

  lemma OuterEnds(front: string, middle: string, back: string)
    requires |front| >= 2 && |back| >= 2
    ensures var r := front + middle + back;
            |r| >= 4 && r[..2] == front[..2] && r[|r| - 2..] == back[|back| - 2..]
  {
  }

  lemma PhoneRespelled(s: string)
    requires |s| >= 4
    ensures var r, front, back := Utf8.Respell(MaskPhone(s)), Utf8.Respell(s[..2]), Utf8.Respell(s[|s| - 2..]);
            && |r| >= 4 && |front| >= 2 && |back| >= 2
            && r[..2] == front[..2] && r[|r| - 2..] == back[|back| - 2..]
  {
    var a, b := s[..2], s[|s| - 2..];
    Utf8.AsciiMiddle(a, " *** ", b);
    OuterEnds(Utf8.Respell(a), " *** ", Utf8.Respell(b));
  }

  lemma SecondPhone(s: string)
    requires Utf8.Valid(s)
    ensures MaskPhone(Utf8.Respell(MaskPhone(s))) == MaskPhone(s) <==> CutsWell(Phone, Str(s))
  {
    if |s| < 4 {
      AsciiMask("***");
    } else {
      PhoneRespelled(s);
      HeadStands(s);
      TailStands(s);
      PhoneEnds(s, Utf8.Respell(MaskPhone(s)));
    }
  }

  lemma MaskOf(name: string, d: string)
    requires '@' !in name && |name| > 1
    ensures MaskEmail(name + "@" + d) == [name[0]] + "***@" + d
  {
    SplitOf(name, d);
    assert name[..1] == [name[0]];
  }

  /** The mask of an address read again: its first byte stays, or becomes a replacement. */
  lemma MaskRespelled(x: char, d: string)
    requires Utf8.Valid(d)
    ensures Utf8.Respell([x] + "***@" + d)
            == (if Utf8.Ascii(x) then [x] else Utf8.REPLACEMENT) + "***@" + d
  {
    Utf8.AsciiMiddle([x], "***@", d);
    Utf8.RespellFixed(d);
    Utf8.TwoBytes(x, x);
  }

  lemma StarsInside(a: string, d: string)
    ensures a + "***@" + d == (a + "***") + "@" + d
  {
    assert "***@" == "***" + "@";
  }

  lemma FirstByte(x: char, d: string)
    requires Utf8.Valid(d) && x != '@'
    ensures var m := [x] + "***@" + d;
            MaskEmail(Utf8.Respell(m)) == m <==> Utf8.Ascii(x) || x == '\U{EF}'
  {
    var m, first := [x] + "***@" + d, if Utf8.Ascii(x) then [x] else Utf8.REPLACEMENT;
    MaskRespelled(x, d);
    StarsInside(first, d);
    MaskOf(first + "***", d);
    assert MaskEmail(Utf8.Respell(m)) == [first[0]] + "***@" + d;
    assert m[0] == x && ([first[0]] + "***@" + d)[0] == first[0];
  }

  lemma ShortName(a: string, d: string)
    requires |a| <= 1 && Utf8.Valid(d)
    ensures MaskEmail(Utf8.Respell("*@" + d)) == "*@" + d
  {
    Utf8.AsciiPrefix("*@", d);
    Utf8.RespellFixed(d);
    var m := "*@" + d;
    assert m[..2] == "*@";
    EmailFixed(m);
  }

  lemma SecondEmail(s: string)
    requires Utf8.Valid(s)
    ensures MaskEmail(Utf8.Respell(MaskEmail(s))) == MaskEmail(s) <==> CutsWell(Email, Str(s))
  {
    if '@' !in s {
      AsciiMask("***");
    } else {
      SplitMeans(s);
      var (a, d) := Split(s);
      Utf8.ValidParts(a, '@', d);
      assert s == a + ['@'] + d;
      if |a| <= 1 {
        ShortName(a, d);
      } else {
        assert s[0] == a[0] && a[..1] == [s[0]];
        FirstByte(s[0], d);
      }
    }
  }

  /** A masked scalar that is normalised is masked alike exactly when its mask cuts well. */
  lemma SecondMask(kind: Kind, a: Scalar)
    requires a.Str? ==> Utf8.Valid(a.s)
    ensures Mask(kind, Normal(Atom(Mask(kind, a))).a) == Mask(kind, a) <==> CutsWell(kind, a)
  {
    if a.Str? { Utf8.RespellFixed(a.s); }
    match kind {
      case Phone =>
        if a.Str? { SecondPhone(a.s); } else { AsciiMask("***"); }
      case Email =>
        if a.Str? { SecondEmail(a.s); } else { AsciiMask("***"); }
      case Credential => AsciiMask("[REDACTED]");
      case _ =>
    }
  }

  lemma AsciiMask(s: string)
    requires forall c :: c in s ==> Utf8.Ascii(c)
    ensures Utf8.Respell(s) == s
  {
    Utf8.AsciiPrefix(s, "");
    assert s + "" == s;
  }

  /** Every scalar under a telling key has a mask that cuts well. */
  ghost predicate MasksStand(lower: Lower, key: string, v: Value)
    decreases v
  {
    v == Atom(Null) || IsEvidence(lower, key) ||
    match v
    case Atom(a) => CutsWell(KindOf(lower(lower(key))), a)
    case Arr(es) => forall i :: 0 <= i < |es| ==> MasksStand(lower, key, es[i])
    case Obj(fs) => forall i :: 0 <= i < |fs| ==> MasksStand(lower, fs[i].name, fs[i].value)
  }

  function Again(lower: Lower, key: string, v: Value): Value {
    Sanitize(lower, key, Normal(Sanitize(lower, key, v)))
  }

  lemma {:induction false} SecondRound(lower: Lower, key: string, v: Value)
    requires Tidy(v)
    ensures Again(lower, key, v) == Sanitize(lower, key, v) <==> MasksStand(lower, key, v)
    decreases v
  {
    if v == Atom(Null) || IsEvidence(lower, key) {
      TidyIsNormal(v);
    } else {
      match v
      case Atom(a) => SecondMask(KindOf(lower(lower(key))), a);
      case Arr(es) => SecondElements(lower, key, es);
      case Obj(fs) => SecondMembers(lower, fs);
    }
  }

  lemma {:induction false} SecondElements(lower: Lower, key: string, es: seq<Value>)
    requires forall i :: 0 <= i < |es| ==> Tidy(es[i])
    ensures SanitizeAll(lower, key, NormalAll(SanitizeAll(lower, key, es))) == SanitizeAll(lower, key, es)
            <==> forall i :: 0 <= i < |es| ==> MasksStand(lower, key, es[i])
    decreases es, 0
  {
    var once := SanitizeAll(lower, key, es);
    var twice := SanitizeAll(lower, key, NormalAll(once));
    forall i | 0 <= i < |es| ensures twice[i] == once[i] <==> MasksStand(lower, key, es[i]) {
      AllAt(lower, key, es, i);
      NormalAt(once, i);
      AllAt(lower, key, NormalAll(once), i);
      SecondRound(lower, key, es[i]);
    }
    assert twice == once <==> forall i :: 0 <= i < |es| ==> twice[i] == once[i];
  }

  lemma {:induction false} SecondMembers(lower: Lower, fs: seq<Field>)
    requires Tidy(Obj(fs))
    ensures SanitizeMembers(lower, NormalMembers(SanitizeMembers(lower, fs))) == SanitizeMembers(lower, fs)
            <==> forall i :: 0 <= i < |fs| ==> MasksStand(lower, fs[i].name, fs[i].value)
    decreases fs, 0
  {
    var once := SanitizeMembers(lower, fs);
    forall i | 0 <= i < |fs|
      ensures once[i] == Field(fs[i].name, Sanitize(lower, fs[i].name, fs[i].value))
    {
      MemberAt(lower, fs, i);
    }
    TidyMembers(once);
    var twice := SanitizeMembers(lower, NormalMembers(once));
    forall i | 0 <= i < |fs|
      ensures twice[i] == once[i] <==> MasksStand(lower, fs[i].name, fs[i].value)
    {
      MemberAt(lower, NormalMembers(once), i);
      SecondRound(lower, fs[i].name, fs[i].value);
    }
    assert twice == once <==> forall i :: 0 <= i < |fs| ==> twice[i] == once[i];
  }

  /**
    The exact condition for SanitizeDiffValue: a second call changes nothing if and only if the
    value is null, evidence or a scalar, or no mask in its normalised tree cuts a character, but for
    cuts that leave what the replacement character would.
   */
  lemma DiffTwiceIff(lower: Lower, key: string, v: Value)
    ensures SanitizeDiff(lower, key, SanitizeDiff(lower, key, v)) == SanitizeDiff(lower, key, v)
            <==> v.Atom? || IsEvidence(lower, key) || MasksStand(lower, "", Normal(v))
  {
    if v.Atom? {
      Idempotent(lower, key, v);
    } else if !IsEvidence(lower, key) {
      NormalIsTidy(v);
      SecondRound(lower, "", Normal(v));
    }
  }

  lemma {:induction false} LongerNotIn(s: string, t: string)
    requires |t| > |s|
    ensures !Contains(s, t)
  {
    if s != "" {
      LongerNotIn(s[1..], t);
    }
  }

  lemma EmailKind()
    ensures KindOf("email") == Email
  {
    LongerNotIn("email", "mobile");
    LongerNotIn("email", "telefon");
    assert "email"[1..] == "mail";
    LongerNotIn("mail", "phone");
    assert "email"[0] == 'e' && "phone"[0] == 'p' && "consent_"[0] == 'c';
  }

  function Address(text: string): Value { Obj([Field("email", Atom(Str(text)))]) }

  /** The second call turns half a letter into the first byte of the replacement character. */
  lemma HalfALetter(lower: Lower, key: string)
    requires lower("email") == "email" && lower("") == "" && !IsEvidence(lower, key)
    ensures SanitizeDiff(lower, key, Address("\U{C3}\U{B6}@x")) == Address("\U{C3}***@x")
    ensures SanitizeDiff(lower, key, Address("\U{C3}***@x")) == Address("\U{EF}***@x")
  {
    AddressOnce(lower, key, "\U{C3}\U{B6}@x");
    AddressOnce(lower, key, "\U{C3}***@x");
    HalfMasked();
  }

  lemma AddressNormal(text: string)
    ensures Normal(Address(text)) == Address(Utf8.Respell(text))
  {
    AsciiMask("email");
    var fs := Address(text).fields;
    assert fs[1..] == [] && NormalMembers([]) == [] && Names([]) == {};
    assert NormalMembers(fs) == [Field("email", Normal(fs[0].value))] + [];
  }

  lemma AddressOnce(lower: Lower, key: string, text: string)
    requires lower("email") == "email" && lower("") == "" && !IsEvidence(lower, key)
    ensures SanitizeDiff(lower, key, Address(text)) == Address(MaskEmail(Utf8.Respell(text)))
  {
    EmailKind();
    AddressNormal(text);
    AddressMasked(lower, Utf8.Respell(text));
    assert !IsEvidence(lower, "");
  }

  lemma AddressMasked(lower: Lower, text: string)
    requires lower("email") == "email" && KindOf("email") == Email
    ensures SanitizeMembers(lower, Address(text).fields) == Address(MaskEmail(text)).fields
  {
    var fs := Address(text).fields;
    assert "email"[0] != "consent_"[0];
    assert !IsEvidence(lower, "email");
    assert fs[1..] == [] && SanitizeMembers(lower, []) == [];
    assert Sanitize(lower, "email", fs[0].value) == Atom(Str(MaskEmail(text)));
  }

  lemma HalfMasked()
    ensures MaskEmail(Utf8.Respell("\U{C3}\U{B6}@x")) == "\U{C3}***@x"
    ensures MaskEmail(Utf8.Respell("\U{C3}***@x")) == "\U{EF}***@x"
  {
    var letter := ['\U{C3}', '\U{B6}'];
    Utf8.TwoBytes('\U{C3}', '\U{B6}');
    Utf8.TwoBytes('x', 'x');
    assert Utf8.RuneLen(letter) == 2;
    Utf8.AsciiMiddle(letter, "@", ['x']);
    MaskOf(letter, ['x']);
    assert letter + "@" + ['x'] == "\U{C3}\U{B6}@x" && ['\U{C3}'] + "***@" + ['x'] == "\U{C3}***@x";
    HalfAgain();
  }

  lemma HalfAgain()
    ensures MaskEmail(Utf8.Respell("\U{C3}***@x")) == "\U{EF}***@x"
  {
    assert Utf8.Valid("x") by { assert "x"[1..] == ""; }
    MaskRespelled('\U{C3}', "x");
    StarsInside(Utf8.REPLACEMENT, "x");
    MaskOf(Utf8.REPLACEMENT + "***", "x");
    assert ['\U{C3}'] + "***@" + "x" == "\U{C3}***@x" && ['\U{EF}'] + "***@" + "x" == "\U{EF}***@x";
  }

  /**
    The two trees have the same shape: the same keys and lengths in the same places, nulls where
    there were nulls and scalars where there were scalars; evidence subtrees are identical.
   */
  ghost predicate SameShape(lower: Lower, key: string, v: Value, w: Value)
    decreases v
  {
    if IsEvidence(lower, key) || v == Atom(Null) then v == w
    else
      match v
      case Atom(_) => w.Atom? && w != Atom(Null)
      case Arr(es) =>
        w.Arr? && |w.elems| == |es|
        && forall i :: 0 <= i < |es| ==> SameShape(lower, key, es[i], w.elems[i])
      case Obj(fs) =>
        w.Obj? && |w.fields| == |fs|
        && forall i :: 0 <= i < |fs| ==>
             fs[i].name == w.fields[i].name
             && SameShape(lower, fs[i].name, fs[i].value, w.fields[i].value)
  }

  lemma {:induction false} ShapeKept(lower: Lower, key: string, v: Value)
    ensures SameShape(lower, key, v, Sanitize(lower, key, v))
    decreases v
  {
    if v != Atom(Null) && !IsEvidence(lower, key) {
      match v
      case Atom(_) =>
      case Arr(es) =>
        forall i | 0 <= i < |es|
          ensures SameShape(lower, key, es[i], SanitizeAll(lower, key, es)[i])
        {
          AllAt(lower, key, es, i);
          ShapeKept(lower, key, es[i]);
        }
      case Obj(fs) =>
        forall i | 0 <= i < |fs|
          ensures var f := SanitizeMembers(lower, fs)[i];
                  fs[i].name == f.name && SameShape(lower, fs[i].name, fs[i].value, f.value)
        {
          MemberAt(lower, fs, i);
          ShapeKept(lower, fs[i].name, fs[i].value);
        }
    }
  }
}
