// Decimal numerals as the source prints them: record versions, PDF offsets.

module Decimal {
  import opened ByteStrings

  /** The ASCII digits of n, without leading zeros. */
  function Digits(n: nat): (b: Bytes)
    ensures |b| >= 1
    ensures forall i :: 0 <= i < |b| ==> 48 <= b[i] <= 57
  {
    if n < 10 then [48 + n] else Digits(n / 10) + [48 + n % 10]
  }

  function Digit(b: Byte): int {
    b - 48
  }

  function Value(b: Bytes): int {
    if b == [] then 0 else 10 * Value(b[..|b| - 1]) + Digit(b[|b| - 1])
  }

  lemma {:induction false} DigitsDenote(n: nat)
    ensures Value(Digits(n)) == n
  {
    if n >= 10 {
      DigitsDenote(n / 10);
      var b := Digits(n);
      assert b[..|b| - 1] == Digits(n / 10);
    }
  }

  function Pow10(w: nat): nat {
    if w == 0 then 1 else 10 * Pow10(w - 1)
  }

  lemma {:induction false} DigitCount(n: nat, w: nat)
    requires w >= 1 && n < Pow10(w)
    ensures |Digits(n)| <= w
  {
    if n >= 10 {
      assert Pow10(w) == 10 * Pow10(w - 1) && Pow10(0) == 1;
      DigitCount(n / 10, w - 1);
    }
  }

  /** n as at least width digits, padded with zeros. */
  function Padded(n: nat, width: nat): Bytes {
    var digits := Digits(n);
    if |digits| >= width then digits else Zeros(width - |digits|) + digits
  }

  function Zeros(n: nat): (b: Bytes)
    ensures |b| == n
  {
    if n == 0 then [] else [48] + Zeros(n - 1)
  }

  lemma {:induction false} LeadingZeros(k: nat, digits: Bytes)
    requires digits != []
    ensures Value(Zeros(k) + digits) == Value(digits)
    decreases k, |digits|
  {
    if k > 0 {
      DropZero(Zeros(k - 1) + digits);
      LeadingZeros(k - 1, digits);
      assert Zeros(k) + digits == [48] + (Zeros(k - 1) + digits);
    } else {
      assert Zeros(0) + digits == digits;
    }
  }

  lemma {:induction false} DropZero(b: Bytes)
    ensures Value([48] + b) == Value(b)
  {
    if b != [] {
      DropZero(b[..|b| - 1]);
      assert ([48] + b)[..|b|] == [48] + b[..|b| - 1];
    } else {
      assert ([48] + b)[..0] == [];
    }
  }

  /** A padded numeral below 10^width has exactly width digits and denotes its number. */
  lemma PaddedDenotes(n: nat, width: nat)
    requires width >= 1
    ensures Value(Padded(n, width)) == n
    ensures |Padded(n, width)| == width <==> n < Pow10(width)
  {
    DigitsDenote(n);
    if |Digits(n)| < width { LeadingZeros(width - |Digits(n)|, Digits(n)); }
    if n < Pow10(width) {
      DigitCount(n, width);
    } else {
      ManyDigits(n, width);
    }
  }

  lemma {:induction false} ManyDigits(n: nat, w: nat)
    requires n >= Pow10(w)
    ensures |Digits(n)| > w
  {
    if w > 0 {
      assert n / 10 >= Pow10(w - 1);
      assert Pow10(w - 1) >= 1 by { PowPositive(w - 1); }
      ManyDigits(n / 10, w - 1);
    }
  }

  lemma PowPositive(w: nat)
    ensures Pow10(w) >= 1
  {}

  function Signed(n: int): (b: Bytes)
    ensures |b| >= 1
    ensures n < 0 <==> b[0] == 45
    ensures forall i :: 0 <= i < |b| ==> b[i] != 124
  {
    if n < 0 then [45] + Digits(-n) else Digits(n)
  }

  lemma SameTail(a: Bytes, b: Bytes)
    requires [45] + a == [45] + b
    ensures a == b
  {
    assert ([45] + a)[1..] == a && ([45] + b)[1..] == b;
  }

  lemma SignedInjective(m: int, n: int)
    requires Signed(m) == Signed(n)
    ensures m == n
  {
    hide Digits, Value;
    DigitsDenote(if m < 0 then -m else m);
    DigitsDenote(if n < 0 then -n else n);
    assert m < 0 <==> n < 0;
    if m < 0 {
      SameTail(Digits(-m), Digits(-n));
    }
  }
}
