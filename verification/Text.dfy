// Strings as the programs see them: splitting, joining, prefixes and decimal rendering.
module Text {

  /** Splits at every `sep`, as strings.Split and String.split do with a one-character separator. */
  function Split(s: string, sep: char): (parts: seq<string>)
    ensures |parts| > 0
  {
    if s == [] then [""]
    else
      var rest := Split(s[1..], sep);
      if s[0] == sep then [""] + rest else [[s[0]] + rest[0]] + rest[1..]
  }

  /** Puts `sep` between consecutive parts. */
  function Join(parts: seq<string>, sep: string): string {
    if parts == [] then ""
    else if |parts| == 1 then parts[0]
    else parts[0] + sep + Join(parts[1..], sep)
  }

  predicate HasPrefix(s: string, prefix: string) {
    prefix <= s
  }

  function TrimPrefix(s: string, prefix: string): string {
    if HasPrefix(s, prefix) then s[|prefix|..] else s
  }

  const DIGITS := "0123456789"

  function Itoa(n: int): string
    decreases n < 0, if n < 0 then -n else n
  {
    if n < 0 then "-" + Itoa(-n)
    else if n < 10 then [DIGITS[n]]
    else Itoa(n / 10) + [DIGITS[n % 10]]
  }

  /** A separator splits its surroundings independently. */
  lemma {:induction false} SplitAtSeparator(a: string, b: string, sep: char)
    ensures Split(a + [sep] + b, sep) == Split(a, sep) + Split(b, sep)
  {
    if a == [] {
      assert a + [sep] + b == [sep] + b;
    } else {
      assert (a + [sep] + b)[1..] == a[1..] + [sep] + b;
      SplitAtSeparator(a[1..], b, sep);
    }
  }

  /** Text without the separator is a single part. */
  lemma {:induction false} SplitWithoutSeparator(a: string, sep: char)
    requires sep !in a
    ensures Split(a, sep) == [a]
  {
    if a != [] {
      assert sep !in a[1..];
      assert [a[0]] + a[1..] == a;
      SplitWithoutSeparator(a[1..], sep);
    }
  }

  /** No part contains the separator. */
  lemma {:induction false} PartsHaveNoSeparator(s: string, sep: char)
    ensures forall p :: p in Split(s, sep) ==> sep !in p
  {
    if s != "" {
      PartsHaveNoSeparator(s[1..], sep);
      var rest := Split(s[1..], sep);
      assert rest[0] in rest && forall p :: p in rest[1..] ==> p in rest;
    }
  }

  predicate IsDigit(c: char) {
    '0' <= c <= '9'
  }

  /** The number that decimal digits spell. */
  function Spelled(s: string): nat
    requires forall i :: 0 <= i < |s| ==> IsDigit(s[i])
  {
    if s == "" then 0
    else
      assert IsDigit(s[|s| - 1]);
      10 * Spelled(s[..|s| - 1]) + (s[|s| - 1] - '0') as int
  }

  lemma DigitIsSpelled(s: string, d: nat)
    requires d < 10 && forall i :: 0 <= i < |s| ==> IsDigit(s[i])
    ensures IsDigit(DIGITS[d]) && (DIGITS[d] == '0' ==> d == 0)
    ensures var t := s + [DIGITS[d]];
            (forall i :: 0 <= i < |t| ==> IsDigit(t[i])) && Spelled(t) == 10 * Spelled(s) + d
  {
    assert (s + [DIGITS[d]])[..|s|] == s;
  }

  /** A number is rendered as the digits that spell it, without a leading zero, and a minus sign if it is negative. */
  lemma {:induction false} ItoaSpells(n: int)
    ensures n < 0 ==> Itoa(n) == "-" + Itoa(-n)
    ensures n >= 0 ==> (forall i :: 0 <= i < |Itoa(n)| ==> IsDigit(Itoa(n)[i])) && Spelled(Itoa(n)) == n
    ensures n >= 0 ==> Itoa(n) != "" && (Itoa(n)[0] == '0' ==> Itoa(n) == "0")
    decreases if n < 0 then -n else n
  {
    if n >= 10 {
      ItoaSpells(n / 10);
      DigitIsSpelled(Itoa(n / 10), n % 10);
    } else if n >= 0 {
      DigitIsSpelled("", n);
      assert "" + [DIGITS[n]] == [DIGITS[n]];
    }
  }
}
