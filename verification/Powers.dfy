/** Powers of a number. */
module Powers {

  function Pow(base: real, n: nat): real {
    if n == 0 then 1.0 else base * Pow(base, n - 1)
  }

  lemma {:induction false} PowOfBoth(base: real, m: nat, n: nat)
    ensures Pow(base, 1) == base
    ensures Pow(base, m + n) == Pow(base, m) * Pow(base, n)
  {
    assert Pow(base, 1) == base * Pow(base, 0);
    if m > 0 {
      PowOfBoth(base, m - 1, n);
      assert Pow(base, m + n) == base * Pow(base, m - 1 + n);
      Regrouped(base, Pow(base, m - 1), Pow(base, n));
    }
  }

  lemma Regrouped(x: real, y: real, z: real)
    ensures x * y * z == x * (y * z)
  {}
}
