/** Numbers in decimal digits. */
module Decimals {
  import opened Timestamps

  predicate IsDigit(c: char) {
    '0' <= c <= '9'
  }

  predicate AllDigits(s: string) {
    forall i | 0 <= i < |s| :: IsDigit(s[i])
  }

  function DigitChar(d: nat): (c: char)
    requires d <= 9
    ensures IsDigit(c)
  {
    (48 + d) as char
  }

  function Decimal(n: nat): (s: string)
    ensures s != []
  {
    if n < 10 then [DigitChar(n)] else Decimal(n / 10) + [DigitChar(n % 10)]
  }

  function PadStart(s: string, length: nat): string {
    if |s| >= length then s else seq(length - |s|, i => '0') + s
  }

  function PadEnd(s: string, length: nat): string {
    if |s| >= length then s else s + seq(length - |s|, i => '0')
  }

  function Number(s: string): nat
    requires AllDigits(s)
  {
    if s == [] then 0 else 10 * Number(s[..|s| - 1]) + (s[|s| - 1] as int - 48)
  }

  /** The last `width` digits of `n`. */
  function Fixed(n: nat, width: nat): (s: string)
    ensures |s| == width && AllDigits(s)
  {
    if width == 0 then [] else Fixed(n / 10, width - 1) + [DigitChar(n % 10)]
  }

  function Pow10(width: nat): (p: nat)
    ensures p > 0
  {
    if width == 0 then 1 else 10 * Pow10(width - 1)
  }

  lemma {:induction false} NumberOfFixed(n: nat, width: nat)
    requires n < Pow10(width)
    ensures Number(Fixed(n, width)) == n
  {
    if width > 0 {
      NumberOfFixed(n / 10, width - 1);
      assert Fixed(n, width)[..width - 1] == Fixed(n / 10, width - 1);
    }
  }

  lemma {:induction false} FixedOfNumber(s: string)
    requires AllDigits(s)
    ensures Number(s) < Pow10(|s|) && Fixed(Number(s), |s|) == s
  {
    if s != [] {
      FixedOfNumber(s[..|s| - 1]);
    }
  }

  lemma DigitsInOrder(c: nat, d: nat)
    requires c <= 9 && d <= 9
    ensures Leq([DigitChar(c)], [DigitChar(d)]) <==> c <= d
  {
  }

  lemma {:induction false} FixedInOrder(m: nat, n: nat, width: nat)
    requires m < Pow10(width) && n < Pow10(width)
    ensures Leq(Fixed(m, width), Fixed(n, width)) <==> m <= n
  {
    if width > 0 {
      FixedInOrder(m / 10, n / 10, width - 1);
      FixedSnocInOrder(m / 10, n / 10, m % 10, n % 10, width - 1);
    }
  }

  lemma {:induction false} FixedSnocInOrder(m: nat, n: nat, c: nat, d: nat, width: nat)
    requires m < Pow10(width) && n < Pow10(width) && c <= 9 && d <= 9
    requires Leq(Fixed(m, width), Fixed(n, width)) <==> m <= n
    ensures Leq(Fixed(m, width) + [DigitChar(c)], Fixed(n, width) + [DigitChar(d)]) <==> 10 * m + c <= 10 * n + d
  {
    NumberOfFixed(m, width);
    NumberOfFixed(n, width);
    DigitsInOrder(c, d);
    HeadsFirst(Fixed(m, width), Fixed(n, width), [DigitChar(c)], [DigitChar(d)]);
  }

  lemma {:induction false} LeadingZero(n: nat, width: nat)
    requires n < Pow10(width)
    ensures Fixed(n, width + 1) == ['0'] + Fixed(n, width)
  {
    if width > 0 {
      LeadingZero(n / 10, width - 1);
    }
  }

  /** A number of `width` digits without leading zero. */
  lemma {:induction false} DecimalIsFixed(n: nat, width: nat)
    requires width > 0 && n < Pow10(width) && (width == 1 || Pow10(width - 1) <= n)
    ensures Decimal(n) == Fixed(n, width)
  {
    if width > 1 {
      DecimalIsFixed(n / 10, width - 1);
    }
  }

  lemma {:induction false} PadIsFixed(n: nat, width: nat)
    requires width > 0 && n < Pow10(width)
    ensures |Decimal(n)| <= width && PadStart(Decimal(n), width) == Fixed(n, width)
  {
    if width == 1 || Pow10(width - 1) <= n {
      DecimalIsFixed(n, width);
    } else {
      PadIsFixed(n, width - 1);
      LeadingZero(n, width - 1);
      assert PadStart(Decimal(n), width) == ['0'] + PadStart(Decimal(n), width - 1);
    }
  }

  /** The length of a number tells its size. */
  lemma {:induction false} DecimalLength(n: nat, width: nat)
    requires width > 0
    ensures |Decimal(n)| <= width <==> n < Pow10(width)
  {
    if n < Pow10(width) {
      PadIsFixed(n, width);
    } else if width > 1 {
      DecimalLength(n / 10, width - 1);
    }
  }
}
