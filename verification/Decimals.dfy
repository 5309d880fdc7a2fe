/** Numbers in decimal digits. */
module Decimals {
  import opened HttpParser

  predicate AllDigits(s: text) {
    forall k :: 0 <= k < |s| ==> IsNum(s[k])
  }

  /** The value of a string of digits. */
  function Decimal(s: text): nat
    requires AllDigits(s)
  {
    if s == [] then 0 else Decimal(s[..|s| - 1]) * 10 + Digit(s[|s| - 1])
  }

  lemma DecimalOfOneMore(s: text, ch: octet)
    requires AllDigits(s) && IsNum(ch)
    ensures AllDigits(s + [ch]) && Decimal(s + [ch]) == Decimal(s) * 10 + Digit(ch)
  {
    assert (s + [ch])[..|s|] == s;
  }

  lemma {:induction false} DecimalGrows(s: text, i: nat)
    requires AllDigits(s) && i <= |s|
    ensures Decimal(s[..i]) <= Decimal(s)
  {
    if i < |s| {
      DecimalGrows(s[..|s| - 1], i);
      assert s[..|s| - 1][..i] == s[..i];
    } else {
      assert s[..i] == s;
    }
  }
}
