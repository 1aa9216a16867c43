/** The pieces of `java.lang` text handling the save-file format relies on: `Integer.toString`,
    `Integer.parseInt`, `String.trim`, `Character.toUpperCase` on the letters that matter and
    `String.split(",")`. */
module Decimal {
  import opened Wrappers

  const IntMin: int := -0x8000_0000
  const IntMax: int := 0x7fff_ffff

  /** A value of Java's 32-bit `int`. */
  predicate IsInt32(n: int) {
    IntMin <= n <= IntMax
  }

  predicate IsDigit(c: char) {
    '0' <= c <= '9'
  }

  predicate AllDigits(s: string) {
    forall i :: 0 <= i < |s| ==> IsDigit(s[i])
  }

  function DigitChar(d: int): (c: char)
    requires 0 <= d < 10
    ensures IsDigit(c)
  {
    ('0' as int + d) as char
  }

  /** Decimal digits of a natural number, most significant first, without leading zeros. */
  function NatToString(n: nat): (s: string)
    ensures |s| >= 1 && AllDigits(s)
    ensures n > 0 ==> s[0] != '0'
    decreases n
  {
    if n < 10 then [DigitChar(n)]
    else NatToString(n / 10) + [DigitChar(n % 10)]
  }

  /** `Integer.toString`: a minus sign for negative values, then the digits. */
  function IntToString(n: int): (s: string)
    ensures |s| >= 1 && (s[0] == '-' <==> n < 0)
    ensures n >= 0 ==> AllDigits(s)
    ensures n < 0 ==> AllDigits(s[1..]) && |s| >= 2
  {
    if n < 0 then "-" + NatToString(-n) else NatToString(n)
  }

  /** The value of a string of decimal digits. */
  function DigitsValue(s: string): nat
    requires AllDigits(s)
  {
    if s == [] then 0
    else DigitsValue(s[..|s| - 1]) * 10 + (s[|s| - 1] as int - '0' as int)
  }

  lemma {:induction false} DigitsRoundTrip(n: nat)
    ensures DigitsValue(NatToString(n)) == n
    decreases n
  {
    var s := NatToString(n);
    if n >= 10 {
      DigitsRoundTrip(n / 10);
      assert s[..|s| - 1] == NatToString(n / 10);
    }
  }

  /** An optional sign followed by at least one decimal digit. */
  predicate SignedDigits(s: string) {
    |s| >= 1 && (AllDigits(s) || ((s[0] == '-' || s[0] == '+') && |s| >= 2 && AllDigits(s[1..])))
  }

  /** The value such a string denotes. */
  function SignedValue(s: string): int
    requires SignedDigits(s)
  {
    if s[0] == '-' then 0 - DigitsValue(s[1..])
    else if s[0] == '+' then DigitsValue(s[1..])
    else DigitsValue(s)
  }

  /** `Integer.parseInt` (radix 10): an optional sign, at least one digit, only digits after it, and
      a value inside the `int` range; anything else is a `NumberFormatException` (`None`). */
  function ParseInt(s: string): (r: Option<int>)
    ensures r.Some? ==> IsInt32(r.value)
    ensures r.Some? ==> |s| >= 1 && (AllDigits(s) || ((s[0] == '-' || s[0] == '+') && |s| >= 2 && AllDigits(s[1..])))
    ensures r.Some? <==> SignedDigits(s) && IsInt32(SignedValue(s))
    ensures r.Some? ==> r.value == SignedValue(s)
  {
    if |s| == 0 then None
    else
      var negative := s[0] == '-';
      var body := if s[0] == '-' || s[0] == '+' then s[1..] else s;
      if |body| == 0 || !AllDigits(body) then None
      else
        var magnitude: int := DigitsValue(body);
        var v := if negative then 0 - magnitude else magnitude;
        if IsInt32(v) then Some(v) else None
  }

  /** `Integer.toString` and `Integer.parseInt` are inverse on every `int`. */
  lemma ParseIntRoundTrip(n: int)
    requires IsInt32(n)
    ensures ParseInt(IntToString(n)) == Some(n)
  {
    var s := IntToString(n);
    if n < 0 {
      DigitsRoundTrip(-n);
      assert s[1..] == NatToString(-n);
    } else {
      DigitsRoundTrip(n);
    }
  }

  /** `t` sits at offset `a` of `s`, with only characters up to U+0020 around it. */
  predicate BlankAround(s: string, a: nat, t: string) {
    && a + |t| <= |s| && s[a..a + |t|] == t
    && (forall i :: 0 <= i < a ==> s[i] <= ' ')
    && (forall i :: a + |t| <= i < |s| ==> s[i] <= ' ')
  }

  /** `String.trim`: drop leading and trailing characters up to U+0020. What is left is a slice of
      the input with blanks only around it, beginning and ending with a non-blank. */
  function Trim(s: string): (t: string)
    ensures |t| <= |s|
    ensures |t| > 0 ==> t[0] > ' ' && t[|t| - 1] > ' '
    ensures (forall i :: 0 <= i < |s| ==> s[i] > ' ') ==> t == s
    ensures BlankAround(s, |s| - |TrimStart(s)|, t)
  {
    var u := TrimStart(s);
    var t := TrimEnd(u);
    TrimAround(s, u, t);
    t
  }

  /** Blanks dropped from the front and then from the back of what is left surround the rest. */
  lemma TrimAround(s: string, u: string, t: string)
    requires |u| <= |s| && u == s[|s| - |u|..] && forall i :: 0 <= i < |s| - |u| ==> s[i] <= ' '
    requires |t| <= |u| && t == u[..|t|] && forall i :: |t| <= i < |u| ==> u[i] <= ' '
    ensures BlankAround(s, |s| - |u|, t)
  {
    var a := |s| - |u|;
    assert s[a..a + |t|] == t;
    forall i | a + |t| <= i < |s|
      ensures s[i] <= ' '
    {
      assert s[i] == u[i - a];
    }
  }

  function TrimStart(s: string): (t: string)
    ensures |t| <= |s| && (|t| > 0 ==> t[0] > ' ')
    ensures t == s[|s| - |t|..]
    ensures (|s| > 0 && s[0] > ' ') ==> t == s
    ensures forall i :: 0 <= i < |s| - |t| ==> s[i] <= ' '
  {
    if |s| > 0 && s[0] <= ' ' then TrimStart(s[1..]) else s
  }

  function TrimEnd(s: string): (t: string)
    ensures |t| <= |s| && (|t| > 0 ==> t[|t| - 1] > ' ')
    ensures t == s[..|t|]
    ensures (|s| > 0 && s[|s| - 1] > ' ') ==> t == s
    ensures |t| > 0 ==> t[0] == s[0]
    ensures forall i :: |t| <= i < |s| ==> s[i] <= ' '
  {
    if |s| > 0 && s[|s| - 1] <= ' ' then TrimEnd(s[..|s| - 1]) else s
  }

  /** `Character.toUpperCase` on ASCII letters and on U+017F (long s, whose upper case is `S`);
      every other character is returned unchanged, which agrees with Java wherever the result is
      compared with an ASCII capital letter. */
  function UpperCase(c: char): (u: char)
    ensures 'A' <= u <= 'Z' && u != c ==> ('a' <= c <= 'z' && u as int == c as int - 32) || (c == 'ſ' && u == 'S')
    ensures 'A' <= c <= 'Z' ==> u == c
    ensures 'a' <= c <= 'z' ==> u as int == c as int - 32
  {
    if 'a' <= c <= 'z' then (c as int - 32) as char
    else if c == 'ſ' then 'S'
    else c
  }

  /** The fields joined with a comma between neighbours. */
  function Join(fields: seq<string>): string {
    if fields == [] then ""
    else if |fields| == 1 then fields[0]
    else fields[0] + "," + Join(fields[1..])
  }

  lemma {:induction false} JoinSnoc(fields: seq<string>, x: string)
    requires fields != []
    ensures Join(fields + [x]) == Join(fields) + "," + x
  {
    if |fields| > 1 {
      JoinSnoc(fields[1..], x);
      assert (fields + [x])[1..] == fields[1..] + [x];
    }
  }

  /** Split at every comma, keeping empty fields: joining the fields gives the text back. */
  function SplitAll(s: string): (fields: seq<string>)
    ensures |fields| >= 1
    ensures forall i :: 0 <= i < |fields| ==> ',' !in fields[i]
    ensures Join(fields) == s
    decreases |s|
  {
    if ',' !in s then [s]
    else
      var i := CommaIndex(s);
      var rest := SplitAll(s[i + 1..]);
      assert ([s[..i]] + rest)[1..] == rest;
      assert s == s[..i] + "," + s[i + 1..];
      [s[..i]] + rest
  }

  function CommaIndex(s: string): (i: nat)
    requires ',' in s
    ensures i < |s| && s[i] == ',' && ',' !in s[..i]
  {
    if s[0] == ',' then 0
    else
      var i := CommaIndex(s[1..]);
      assert s[..i + 1] == [s[0]] + s[1..][..i];
      i + 1
  }

  function DropTrailingEmpty(fields: seq<string>): (kept: seq<string>)
    ensures kept <= fields
    ensures |kept| > 0 ==> kept[|kept| - 1] != ""
    ensures forall i :: |kept| <= i < |fields| ==> fields[i] == ""
  {
    if fields == [] || fields[|fields| - 1] != "" then fields
    else DropTrailingEmpty(fields[..|fields| - 1])
  }

  /** Dropping trailing empty fields drops only commas from the end of the joined text. */
  lemma {:induction false} DropTrailingJoin(fields: seq<string>)
    ensures Join(DropTrailingEmpty(fields)) <= Join(fields)
    ensures forall i :: |Join(DropTrailingEmpty(fields))| <= i < |Join(fields)| ==> Join(fields)[i] == ','
    decreases |fields|
  {
    if fields != [] && fields[|fields| - 1] == "" {
      var p := fields[..|fields| - 1];
      assert fields == p + [""];
      DropTrailingJoin(p);
      if p != [] {
        JoinSnoc(p, "");
      }
    }
  }

  /** `String.split(",")`: the comma-separated fields with trailing empty fields removed; a string
      without a comma splits into itself (so the empty string gives one empty field). Joining the
      fields gives the text back up to the trailing commas. */
  function Split(s: string): (fields: seq<string>)
    ensures forall i :: 0 <= i < |fields| ==> ',' !in fields[i]
    ensures ',' !in s ==> fields == [s]
    ensures ',' in s && |fields| > 0 ==> fields[|fields| - 1] != ""
    ensures Join(fields) <= s
    ensures forall i :: |Join(fields)| <= i < |s| ==> s[i] == ','
  {
    if ',' !in s then [s]
    else
      DropTrailingJoin(SplitAll(s));
      DropTrailingEmpty(SplitAll(s))
  }

  /** Joining three comma-free fields, the last non-empty, and splitting gives them back. */
  lemma SplitJoin3(a: string, b: string, c: string)
    requires ',' !in a && ',' !in b && ',' !in c && c != ""
    ensures Split(a + "," + b + "," + c) == [a, b, c]
  {
    var s := a + "," + b + "," + c;
    assert s[|a|] == ',';
    assert CommaIndex(s) == |a| by {
      assert s[..|a|] == a;
      CommaUnique(s, |a|);
    }
    var t := s[|a| + 1..];
    assert t == b + "," + c;
    assert t[|b|] == ',';
    assert CommaIndex(t) == |b| by {
      assert t[..|b|] == b;
      CommaUnique(t, |b|);
    }
    assert t[|b| + 1..] == c;
    assert s[..|a|] == a;
    assert t[..|b|] == b;
    assert SplitAll(c) == [c];
    assert SplitAll(t) == [b, c];
    assert SplitAll(s) == [a, b, c];
  }

  /** The first comma is the only comma-position whose prefix is comma-free. */
  lemma CommaUnique(s: string, k: nat)
    requires k < |s| && s[k] == ',' && ',' !in s[..k]
    ensures CommaIndex(s) == k
  {
  }
}
