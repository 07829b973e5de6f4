/** Powers of a real number. */
module Powers {

  function Power(base: real, n: nat): real {
    if n == 0 then 1.0 else base * Power(base, n - 1)
  }

  lemma NextPower(base: real, n: nat)
    ensures Power(base, n + 1) == Power(base, n) * base
  {
  }

  lemma {:induction false} PowerNonNegative(base: real, n: nat)
    requires base >= 0.0
    ensures Power(base, n) >= 0.0
  {
    if n > 0 {
      PowerNonNegative(base, n - 1);
    }
  }
}
