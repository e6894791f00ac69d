/** Decimal text of integers, as `strconv.Itoa` writes it, and its reading back. */
module Decimal {

  predicate IsDigit(c: char) {
    '0' <= c <= '9'
  }

  function DigitOf(n: nat): (c: char)
    requires n < 10
    ensures IsDigit(c) && Weight(c) == n
  {
    '0' + n as char
  }

  function Weight(c: char): (n: nat)
    requires IsDigit(c)
    ensures n < 10
  {
    c as int - '0' as int
  }

  function Digits(n: nat): (s: string)
    ensures s != [] && forall c | c in s :: IsDigit(c)
  {
    if n < 10 then [DigitOf(n)] else Digits(n / 10) + [DigitOf(n % 10)]
  }

  function Itoa(n: int): string {
    if n < 0 then "-" + Digits(-n) else Digits(n)
  }

  /** The number a run of digits stands for. */
  function Number(s: string): nat
    requires forall c | c in s :: IsDigit(c)
  {
    if s == [] then 0 else 10 * Number(s[..|s| - 1]) + Weight(s[|s| - 1])
  }

  lemma {:induction false} NumberOfDigits(n: nat)
    ensures Number(Digits(n)) == n
    decreases n
  {
    if n >= 10 {
      NumberOfDigits(n / 10);
      assert Digits(n)[..|Digits(n)| - 1] == Digits(n / 10);
    }
  }

  lemma {:induction false} ItoaIsInjective(m: int, n: int)
    ensures Itoa(m) == Itoa(n) <==> m == n
  {
    if Itoa(m) == Itoa(n) {
      assert if m < 0 then Itoa(m)[0] == '-' else Itoa(m)[0] in Digits(m);
      assert if n < 0 then Itoa(n)[0] == '-' else Itoa(n)[0] in Digits(n);
      assert m < 0 <==> n < 0;
      var a, b := if m < 0 then -m else m, if n < 0 then -n else n;
      assert Digits(a) == Digits(b) by {
        if m < 0 { assert Itoa(m)[1..] == Digits(a) && Itoa(n)[1..] == Digits(b); }
      }
      NumberOfDigits(a);
      NumberOfDigits(b);
    }
  }
}
