/**
 * Decimal rendering of integers and booleans, as done by Go's strconv.Itoa,
 * strconv.FormatInt(_, 10), strconv.FormatUint(_, 10) and strconv.FormatBool.
 * The walker uses them for slice indices in pointers and for the identity keys
 * of order-insensitive slices. Each rendering has a parser beside it, and the
 * round-trip lemmas show that distinct numbers never share a rendering.
 */
module Strconv {

  function Digit(d: nat): (c: char)
    requires d < 10
    ensures '0' <= c <= '9'
  {
    (48 + d) as char
  }

  function DigitValue(c: char): nat
  {
    if '0' <= c <= '9' then (c as int) - 48 else 0
  }

  predicate IsDigits(s: string)
  {
    forall i :: 0 <= i < |s| ==> '0' <= s[i] <= '9'
  }

  /** Decimal text of a natural number, most significant digit first, no leading zeros. */
  function Itoa(n: nat): string
  {
    if n < 10 then [Digit(n)] else Itoa(n / 10) + [Digit(n % 10)]
  }

  /** Itoa's text is a non-empty run of digits with no leading zero. */
  lemma {:induction false} ItoaShape(n: nat)
    ensures |Itoa(n)| >= 1 && IsDigits(Itoa(n))
    ensures |Itoa(n)| > 1 ==> Itoa(n)[0] != '0'
  {
    if n >= 10 {
      ItoaShape(n / 10);
    }
  }

  /** Value of a string of decimal digits (the inverse of Itoa). */
  function Atoi(s: string): nat
  {
    if |s| == 0 then 0 else 10 * Atoi(s[..|s| - 1]) + DigitValue(s[|s| - 1])
  }

  lemma {:induction false} AtoiItoa(n: nat)
    ensures Atoi(Itoa(n)) == n
  {
    if n >= 10 {
      var s := Itoa(n);
      assert s[..|s| - 1] == Itoa(n / 10);
      AtoiItoa(n / 10);
    }
  }

  /** Distinct indices give distinct pointer segments. */
  lemma ItoaInjective(a: nat, b: nat)
    ensures Itoa(a) == Itoa(b) ==> a == b
  {
    AtoiItoa(a);
    AtoiItoa(b);
  }

  /** strconv.FormatInt(i, 10): a leading '-' for negative values. */
  function FormatInt(i: int): string
  {
    if i < 0 then "-" + Itoa(-i) else Itoa(i)
  }

  function ParseInt(s: string): int
  {
    if |s| > 0 && s[0] == '-' then 0 - (Atoi(s[1..]) as int) else Atoi(s)
  }

  lemma ParseFormatInt(i: int)
    ensures ParseInt(FormatInt(i)) == i
  {
    var n: nat := if i < 0 then -i else i;
    var digits := Itoa(n);
    ItoaShape(n);
    AtoiItoa(n);
    assert '0' <= digits[0] <= '9';
    if i < 0 {
      var t := FormatInt(i);
      assert t == "-" + digits;
      assert t[0] == '-' && t[1..] == digits;
    }
  }

  /** Two signed integers are keyed alike only if they are equal. */
  lemma FormatIntInjective(a: int, b: int)
    ensures FormatInt(a) == FormatInt(b) ==> a == b
  {
    ParseFormatInt(a);
    ParseFormatInt(b);
  }

  /** strconv.FormatUint(u, 10). */
  function FormatUint(u: nat): string
  {
    Itoa(u)
  }

  /** strconv.FormatBool. */
  function FormatBool(b: bool): (r: string)
    ensures r == "true" || r == "false"
    ensures (r == "true") == b
  {
    if b then "true" else "false"
  }
}
