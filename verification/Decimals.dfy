/** Decimal numerals as ASCII codes, in byte strings and in text. */
module Decimals {
  import opened ByteStrings

  predicate IsDigit(b: int) {
    48 <= b <= 57
  }

  predicate AllDigits(ds: seq<int>) {
    forall i :: 0 <= i < |ds| ==> IsDigit(ds[i])
  }

  /** No sign, no leading zero. */
  predicate IsNumeral(ds: seq<int>) {
    ds != [] && AllDigits(ds) && (ds[0] == 48 ==> |ds| == 1)
  }

  function Digits(n: nat): (ds: Bytes)
    ensures ds != []
  {
    if n < 10 then [48 + n] else Digits(n / 10) + [48 + n % 10]
  }

  function FromDigits(ds: seq<int>): int {
    if ds == [] then 0 else 10 * FromDigits(ds[..|ds| - 1]) + (ds[|ds| - 1] - 48)
  }

  /** How many digits the input starts with. */
  function DigitRun(bs: Bytes): (n: nat)
    ensures n <= |bs|
    ensures forall i :: 0 <= i < n ==> IsDigit(bs[i])
    ensures n < |bs| ==> !IsDigit(bs[n])
  {
    if bs == [] || !IsDigit(bs[0]) then 0 else 1 + DigitRun(bs[1..])
  }

  lemma {:induction false} DigitsAreNumeral(n: nat)
    ensures IsNumeral(Digits(n)) && FromDigits(Digits(n)) == n
    ensures n > 0 ==> Digits(n)[0] != 48
  {
    if n < 10 {
      assert FromDigits([48 + n]) == 10 * FromDigits([48 + n][..0]) + n;
    } else {
      DigitsAreNumeral(n / 10);
      assert Digits(n)[..|Digits(n)| - 1] == Digits(n / 10);
    }
  }

  lemma {:induction false} NumeralDigits(ds: seq<int>)
    requires IsNumeral(ds)
    ensures FromDigits(ds) >= 0 && Digits(FromDigits(ds)) == ds
    ensures ds[0] != 48 ==> FromDigits(ds) > 0
  {
    var front, last := ds[..|ds| - 1], ds[|ds| - 1];
    assert ds == front + [last];
    if front == [] {
      assert FromDigits(front) == 0;
    } else {
      NumeralDigits(front);
      assert FromDigits(front) > 0;
      LastDecimal(FromDigits(front), last - 48);
    }
  }

  lemma {:induction false} FromDigitsNatural(ds: seq<int>)
    requires AllDigits(ds)
    ensures FromDigits(ds) >= 0
  {
    if ds != [] {
      FromDigitsNatural(ds[..|ds| - 1]);
    }
  }

  lemma LastDecimal(q: nat, d: nat)
    requires d < 10
    ensures (10 * q + d) / 10 == q && (10 * q + d) % 10 == d
  {
  }

  /** A numeral followed by a non-digit is found whole. */
  lemma RunOfNumeral(ds: Bytes, rest: Bytes)
    requires AllDigits(ds) && (rest != [] ==> !IsDigit(rest[0]))
    ensures DigitRun(ds + rest) == |ds|
  {
    var bs := ds + rest;
    assert forall i :: 0 <= i < |ds| ==> bs[i] == ds[i];
    assert rest != [] ==> bs[|ds|] == rest[0];
  }
}
