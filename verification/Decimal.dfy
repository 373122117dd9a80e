/** Decimal printing of integers, as Lua's `..` and Rust's `to_string` write them, and reading back. */
module Decimal {
  import opened Options

  predicate IsDigit(c: char) {
    '0' <= c <= '9'
  }

  predicate AllDigits(s: string) {
    forall i :: 0 <= i < |s| ==> IsDigit(s[i])
  }

  function DigitChar(d: nat): (c: char)
    requires d < 10
    ensures IsDigit(c) && c as int - '0' as int == d
  {
    ('0' as int + d) as char
  }

  function Print(n: nat): (s: string)
    ensures |s| > 0 && AllDigits(s)
  {
    if n < 10 then [DigitChar(n)] else Print(n / 10) + [DigitChar(n % 10)]
  }

  function Value(s: string): nat
    requires AllDigits(s)
  {
    if s == [] then 0
    else 10 * Value(s[..|s| - 1]) + (s[|s| - 1] as int - '0' as int)
  }

  /** `tonumber` on the strings the scripts read: digits only, everything else is nil. */
  function Parse(s: string): Option<nat> {
    if s == [] || !AllDigits(s) then None else Some(Value(s))
  }

  lemma {:induction false} ParsePrint(n: nat)
    ensures Parse(Print(n)) == Some(n)
  {
    var s := Print(n);
    if n < 10 {
      assert s == [DigitChar(n)] && Value(s) == 10 * Value(s[..0]) + n;
    } else {
      ParsePrint(n / 10);
      assert s[..|s| - 1] == Print(n / 10);
    }
  }

  lemma PrintInjective(m: nat, n: nat)
    requires Print(m) == Print(n)
    ensures m == n
  {
    ParsePrint(m);
    ParsePrint(n);
  }

  /** `i32::to_string`. */
  function PrintSigned(z: int): string {
    if z < 0 then "-" + Print(-z) else Print(z)
  }

  lemma PrintSignedInjective(y: int, z: int)
    requires PrintSigned(y) == PrintSigned(z)
    ensures y == z
  {
    assert y < 0 <==> PrintSigned(y)[0] == '-';
    assert z < 0 <==> PrintSigned(z)[0] == '-';
    if y < 0 {
      assert Print(-y) == PrintSigned(y)[1..] == PrintSigned(z)[1..] == Print(-z);
      PrintInjective(-y, -z);
    } else {
      PrintInjective(y, z);
    }
  }
}
