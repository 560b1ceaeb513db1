/** Powers of two, and division with remainder. */
module Powers {
  function Two(k: nat): (n: nat)
    ensures n >= 1
  {
    if k == 0 then 1 else 2 * Two(k - 1)
  }

  lemma TwoNext(k: nat)
    ensures Two(k + 1) == 2 * Two(k)
  {}

  lemma {:induction false} TwoCat(j: nat, k: nat)
    ensures Two(j + k) == Two(j) * Two(k)
  {
    if j > 0 {
      TwoCat(j - 1, k);
    }
  }

  lemma {:induction false} TwoGrows(j: nat, k: nat)
    requires j <= k
    ensures Two(j) <= Two(k)
    decreases k - j
  {
    if j < k {
      TwoGrows(j, k - 1);
    }
  }

  lemma SmallPowers()
    ensures Two(0) == 1 && Two(1) == 2 && Two(2) == 4 && Two(4) == 16 && Two(8) == 256 && Two(16) == 0x1_0000
  {
    assert Two(8) == 256;
    TwoCat(8, 8);
  }

  // ----- division -----

  lemma DivisionIs(n: nat, t: nat)
    requires t > 0
    ensures n == (n / t) * t + n % t
  {}

  lemma TimesGrows(d: int, t: nat)
    requires d >= 1
    ensures d * t >= t
  {}

  lemma QuotientIs(n: nat, t: nat, q: nat, r: nat)
    requires r < t && n == q * t + r
    ensures n / t == q
  {
    var d: int := n / t - q;
    DivisionIs(n, t);
    assert d * t == r - n % t;
    if d >= 1 {
      TimesGrows(d, t);
    } else if d <= -1 {
      TimesGrows(0 - d, t);
    }
  }

  lemma QuotientIsNat(n: nat, t: nat)
    requires t > 0
    ensures n / t >= 0
  {
    var q: int := n / t;
    DivisionIs(n, t);
    if q <= -1 {
      TimesGrows(0 - q, t);
    }
  }
}
