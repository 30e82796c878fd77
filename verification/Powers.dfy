/** Powers of two, and products that grow with their factors. */
module Powers {

  function Pow2(n: nat): (p: nat)
    ensures p >= 1
  {
    if n == 0 then 1 else 2 * Pow2(n - 1)
  }

  lemma {:induction false} Pow2Grows(a: nat, b: nat)
    requires a <= b
    ensures Pow2(a) <= Pow2(b)
    decreases b
  {
    if a < b {
      Pow2Grows(a, b - 1);
    }
  }

  lemma TimesGrows(a: nat, b: nat, c: nat)
    ensures b <= c ==> a * b <= a * c && a * b <= c * a
  {
  }
}
