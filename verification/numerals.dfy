/** Decimal numerals: the value of a string of digits, and a number written on a fixed width. */
module Numerals {
  import opened Text

  function Pow10(n: nat): (p: nat)
    ensures p >= 1
  {
    if n == 0 then 1 else 10 * Pow10(n - 1)
  }

  function DigitChar(d: nat): (c: char)
    requires d < 10
    ensures IsDigit(c)
  {
    ('0' as int + d) as char
  }

  /** The value of a string of decimal digits, most significant first. */
  function Number(s: string): nat
    requires IsDigits(s)
  {
    if s == [] then 0 else 10 * Number(s[..|s| - 1]) + (s[|s| - 1] as int - '0' as int)
  }

  /** The last `width` decimal digits of `n`, zero-padded on the left. */
  function Digits(n: nat, width: nat): (s: string)
    ensures |s| == width && IsDigits(s)
  {
    if width == 0 then [] else Digits(n / 10, width - 1) + [DigitChar(n % 10)]
  }

  lemma {:induction false} NumberOfDigits(n: nat, width: nat)
    requires n < Pow10(width)
    ensures Number(Digits(n, width)) == n
  {
    if width > 0 {
      var s := Digits(n, width);
      assert s[..|s| - 1] == Digits(n / 10, width - 1);
      NumberOfDigits(n / 10, width - 1);
    }
  }

  lemma {:induction false} DigitsOfNumber(s: string)
    requires IsDigits(s)
    ensures Digits(Number(s), |s|) == s
  {
    if s != [] {
      var init := s[..|s| - 1];
      DigitsOfNumber(init);
      var n := Number(s);
      assert n / 10 == Number(init) && n % 10 == s[|s| - 1] as int - '0' as int;
      assert s == init + [s[|s| - 1]];
    }
  }

  /** The value of two numerals written one after the other. */
  lemma {:induction false} NumberAppend(a: string, b: string)
    requires IsDigits(a) && IsDigits(b)
    ensures IsDigits(a + b)
    ensures Number(a + b) == Number(a) * Pow10(|b|) + Number(b)
    decreases |b|
  {
    DigitsConcat(a, b);
    var s := a + b;
    if b == [] {
      assert s == a;
    } else {
      var init := b[..|b| - 1];
      DigitsPrefix(b, |b| - 1);
      assert s[..|s| - 1] == a + init && s[|s| - 1] == b[|b| - 1];
      NumberAppend(a, init);
      AppendStep(Number(a), Pow10(|init|), Number(init), b[|b| - 1] as int - '0' as int,
                 Number(s), Number(b), Pow10(|b|));
    }
  }

  lemma DigitsConcat(a: string, b: string)
    requires IsDigits(a) && IsDigits(b)
    ensures IsDigits(a + b)
  {
    var s := a + b;
    forall i | 0 <= i < |s| ensures IsDigit(s[i]) {
      if i >= |a| { assert s[i] == b[i - |a|]; }
    }
  }

  lemma DigitsPrefix(s: string, n: nat)
    requires IsDigits(s) && n <= |s|
    ensures IsDigits(s[..n])
  {
    forall i | 0 <= i < n ensures IsDigit(s[..n][i]) { assert s[..n][i] == s[i]; }
  }

  /** One more digit on the right multiplies what is on its left by ten more. */
  lemma AppendStep(x: int, p: int, y: int, d: int, ns: int, nb: int, pb: int)
    requires ns == 10 * (x * p + y) + d && nb == 10 * y + d && pb == 10 * p
    ensures ns == x * pb + nb
  {
    ShiftProduct(x, p);
  }

  lemma ShiftProduct(x: int, p: int)
    ensures 10 * (x * p) == x * (10 * p)
  {
  }
}
