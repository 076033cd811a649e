/**
 * Decimal rendering of identifiers, as `strconv.FormatUint(n, 10)` produces
 * them for the NEW and CREATE answers, and the parse the host applies to them.
 * Format is a bijection between naturals and canonical decimal strings.
 */
module Decimal {
  import opened Base

  const ZERO: byte := 48

  predicate IsDigit(b: byte) {
    ZERO <= b <= ZERO + 9
  }

  predicate AllDigits(s: Bytes) {
    forall i :: 0 <= i < |s| ==> IsDigit(s[i])
  }

  /** Canonical: at least one digit, and no leading zero unless the string is "0". */
  predicate Canonical(s: Bytes) {
    |s| > 0 && AllDigits(s) && (|s| > 1 ==> s[0] != ZERO)
  }

  function Digit(d: nat): (b: byte)
    requires d < 10
  {
    ZERO + d as byte
  }

  /** Base-10 rendering of `n`, most significant digit first. */
  function Format(n: nat): (s: Bytes)
    ensures Canonical(s)
    ensures s[0] == ZERO <==> n == 0
    decreases n
  {
    if n < 10 then [Digit(n)] else Format(n / 10) + [Digit(n % 10)]
  }

  /** The number a string of digits denotes (leading zeros allowed). */
  function Value(s: Bytes): nat
    requires AllDigits(s)
  {
    if s == [] then 0 else Value(s[..|s| - 1]) * 10 + (s[|s| - 1] - ZERO) as nat
  }

  /** Unsigned decimal parse: the empty string and any non-digit are errors. */
  function Parse(s: Bytes): (r: Option<nat>)
    ensures r.Some? <==> |s| > 0 && AllDigits(s)
  {
    if |s| > 0 && AllDigits(s) then Some(Value(s)) else None
  }

  /** Parsing a formatted identifier gives the identifier back. */
  lemma {:induction false} ParseFormat(n: nat)
    ensures Parse(Format(n)) == Some(n)
    decreases n
  {
    if n >= 10 {
      var s := Format(n);
      var t := Format(n / 10);
      assert s == t + [Digit(n % 10)];
      assert s[..|s| - 1] == t;
      ParseFormat(n / 10);
      assert Value(s) == Value(t) * 10 + n % 10;
    }
  }

  /** Distinct identifiers are rendered as distinct strings. */
  lemma FormatInjective(m: nat, n: nat)
    requires Format(m) == Format(n)
    ensures m == n
  {
    ParseFormat(m);
    ParseFormat(n);
  }

  lemma {:induction false} ValuePositive(s: Bytes)
    requires |s| > 0 && AllDigits(s) && s[0] != ZERO
    ensures Value(s) > 0
    decreases |s|
  {
    if |s| > 1 {
      ValuePositive(s[..|s| - 1]);
    }
  }

  /** Every canonical decimal string is the rendering of the number it denotes. */
  lemma {:induction false} FormatValue(s: Bytes)
    requires Canonical(s)
    ensures Format(Value(s)) == s
    decreases |s|
  {
    if |s| > 1 {
      var t := s[..|s| - 1];
      var d := (s[|s| - 1] - ZERO) as nat;
      ValuePositive(t);
      FormatValue(t);
      var n := Value(s);
      assert n == Value(t) * 10 + d;
      assert n / 10 == Value(t) && n % 10 == d;
      assert s == t + [Digit(d)];
    }
  }
}
