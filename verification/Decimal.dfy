/** Decimal rendering as strconv.Itoa does it, with its inverse. */
module Decimal {

  predicate IsDigit(c: char) { '0' <= c <= '9' }

  function Digit(d: nat): char
    requires d < 10
  {
    '0' + d as char
  }

  function Digits(n: nat): string {
    if n < 10 then [Digit(n)] else Digits(n / 10) + [Digit(n % 10)]
  }

  function Itoa(n: int): string {
    if n < 0 then "-" + Digits(-n) else Digits(n)
  }

  function Natural(s: string): nat {
    if s == "" then 0
    else 10 * Natural(s[..|s| - 1]) + (if IsDigit(s[|s| - 1]) then s[|s| - 1] as int - '0' as int else 0)
  }

  /** The number a rendering stands for. */
  function Value(s: string): int {
    if s != "" && s[0] == '-' then 0 - (Natural(s[1..]) as int) else Natural(s)
  }

  /** Renderings of naturals are nonempty and consist of digits. */
  lemma {:induction false} DigitsOnly(n: nat)
    ensures Digits(n) != "" && forall i | 0 <= i < |Digits(n)| :: IsDigit(Digits(n)[i])
  {
    if n >= 10 {
      DigitsOnly(n / 10);
    }
  }

  lemma {:induction false} DigitsValue(n: nat)
    ensures Natural(Digits(n)) == n
  {
    if n >= 10 {
      DigitsValue(n / 10);
      assert Digits(n)[..|Digits(n)| - 1] == Digits(n / 10);
    } else {
      assert Digits(n)[..0] == "";
    }
  }

  /** Reading back a rendering gives the number, so rendering is injective. */
  lemma ItoaValue(n: int)
    ensures Value(Itoa(n)) == n
  {
    if n < 0 {
      DigitsValue(-n);
      assert Itoa(n)[1..] == Digits(-n);
    } else {
      DigitsOnly(n);
      DigitsValue(n);
    }
  }

  function Pow10(k: nat): nat { if k == 0 then 1 else 10 * Pow10(k - 1) }

  lemma Pow10Positive(k: nat)
    ensures Pow10(k) > 0
  {
  }

  lemma DivTen(n: nat, k: nat)
    ensures Pow10(k) > 0 && n / 10 / Pow10(k) == n / Pow10(k + 1)
  {
    Pow10Positive(k);
    DivDiv(n, Pow10(k));
  }

  lemma DivDiv(n: nat, b: nat)
    requires b > 0
    ensures n / 10 / b == n / (10 * b)
  {
    var q, r := n / (10 * b), n % (10 * b);
    assert n == (10 * b) * q + r;
    assert n == 10 * (b * q + r / 10) + r % 10;
    assert n / 10 == b * q + r / 10;
    assert 0 <= r / 10 < b;
    SmallQuotient(b, q, r / 10);
  }

  lemma Monotone(b: nat, x: int, y: int)
    ensures x <= y ==> b * x <= b * y
  {
  }

  lemma SmallQuotient(b: nat, q: nat, r: nat)
    requires r < b
    ensures (b * q + r) / b == q
  {
    var x := (b * q + r) / b;
    assert b * x <= b * q + r < b * (x + 1);
    Monotone(b, x + 1, q);
    Monotone(b, q + 1, x);
  }

  /** Each digit by its weight, the last one first, and no leading zero. */
  lemma {:induction false} DigitsByWeight(n: nat, k: nat)
    requires k < |Digits(n)|
    ensures Pow10(k) > 0
    ensures Digits(n)[|Digits(n)| - 1 - k] as int == 48 + n / Pow10(k) % 10
    ensures n > 0 ==> Digits(n)[0] != '0'
  {
    Pow10Positive(k);
    if n >= 10 {
      if k > 0 {
        DigitsByWeight(n / 10, k - 1);
        DivTen(n, k - 1);
      } else {
        DigitsOnly(n / 10);
        DigitsByWeight(n / 10, 0);
      }
    }
  }

  /** A negative number is a minus sign and the digits of its opposite. */
  lemma ItoaSign(n: int)
    ensures n >= 0 ==> Itoa(n) == Digits(n)
    ensures n < 0 ==> Itoa(n) == "-" + Digits(-n)
    ensures Itoa(0) == "0" && Itoa(1048) == "1048" && Itoa(-73) == "-73"
  {
    assert Digits(1048) == Digits(104) + ['8'] && Digits(104) == Digits(10) + ['4'] && Digits(10) == Digits(1) + ['0'];
    assert Digits(73) == Digits(7) + ['3'];
  }

  lemma ItoaInjective(m: int, n: int)
    requires Itoa(m) == Itoa(n)
    ensures m == n
  {
    ItoaValue(m);
    ItoaValue(n);
  }
}
