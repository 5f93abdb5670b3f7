/** Decimal numerals of natural numbers. */
module Numerals {
  import opened Utf16

  function Decimal(n: nat): Text {
    if n < 10 then [0x30 + n] else Decimal(n / 10) + [0x30 + n % 10]
  }

  predicate AllDigits(t: Text) {
    forall i :: 0 <= i < |t| ==> IsDigit(t[i])
  }

  function DecimalValue(digits: Text): nat
    requires AllDigits(digits)
  {
    if digits == [] then 0
    else DecimalValue(digits[..|digits| - 1]) * 10 + (digits[|digits| - 1] - 0x30)
  }

  /** Digits without a leading zero. */
  predicate IsCanonical(t: Text) {
    t != [] && AllDigits(t) && (t[0] == 0x30 ==> |t| == 1)
  }

  lemma {:induction false} DecimalBack(n: nat)
    ensures IsCanonical(Decimal(n)) && DecimalValue(Decimal(n)) == n
    ensures n > 0 ==> Decimal(n)[0] != 0x30
    decreases n
  {
    var t := Decimal(n);
    if n < 10 {
      assert t[..0] == [];
    } else {
      DecimalBack(n / 10);
      assert t[..|t| - 1] == Decimal(n / 10);
    }
  }

  lemma {:induction false} ValueBack(t: Text)
    requires IsCanonical(t)
    ensures Decimal(DecimalValue(t)) == t
    ensures t[0] != 0x30 ==> DecimalValue(t) > 0
  {
    var init, last := t[..|t| - 1], t[|t| - 1];
    if init == [] {
      assert t == [last];
    } else {
      ValueBack(init);
      assert t == init + [last];
      assert (DecimalValue(init) * 10 + (last - 0x30)) / 10 == DecimalValue(init);
    }
  }

  lemma DecimalInjective(m: nat, n: nat)
    requires Decimal(m) == Decimal(n)
    ensures m == n
  {
    DecimalBack(m);
    DecimalBack(n);
  }
}
