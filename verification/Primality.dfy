/** The field modulus is prime, so every nonzero word has an inverse. */
module Primality {
  import opened Powers
  import opened Words

  /** A root of unity whose order in the field is 2^32. */
  const ROOT: nat := 1753635133440165772

  /** Multiplication of residues. */
  function Times(m: nat, a: int, b: int): (r: nat)
    requires m > 0
    ensures r < m
  {
    (a * b) % m
  }

  function Power(m: nat, c: nat, e: nat): (r: nat)
    requires m > 1
    ensures r < m
  {
    if e == 0 then 1 else Times(m, c, Power(m, c, e - 1))
  }

  /** `c` squared `k` times. */
  function Squared(m: nat, c: nat, k: nat): (r: nat)
    requires m > 1
    decreases k
  {
    if k == 0 then c else Squared(m, Times(m, c, c), k - 1)
  }

  // ----- residues -----

  lemma Small(d: int, m: nat, r: int)
    requires d * m == r && 0 - m < r < m
    ensures d == 0
  {
    if d >= 1 {
      TimesGrows(d, m);
    } else if d <= -1 {
      TimesGrows(0 - d, m);
    }
  }

  lemma Quotient(m: nat, a: int, q: int, r: nat)
    requires r < m && a == q * m + r
    ensures a % m == r
  {
    var d := a / m - q;
    assert a == (a / m) * m + a % m;
    assert d * m == r - a % m;
    Small(d, m, r - a % m);
  }

  lemma ModShift(m: nat, a: int, q: int)
    requires m > 0
    ensures (a + q * m) % m == a % m
  {
    assert a + q * m == (a / m + q) * m + a % m;
    Quotient(m, a + q * m, a / m + q, a % m);
  }

  lemma TimesComm(m: nat, a: int, b: int)
    requires m > 0
    ensures Times(m, a, b) == Times(m, b, a)
  {
    assert a * b == b * a;
  }

  lemma TimesOne(m: nat, a: nat)
    requires a < m
    ensures Times(m, 1, a) == a && Times(m, a, 1) == a && Times(m, 0, a) == 0
  {}

  lemma TimesMod(m: nat, a: int, b: int)
    requires m > 0
    ensures Times(m, a % m, b) == Times(m, a, b)
  {
    var p := a / m;
    assert a * b == (a % m) * b + (p * b) * m by {
      assert a == p * m + a % m;
      assert (p * m) * b == (p * b) * m;
    }
    ModShift(m, (a % m) * b, p * b);
  }

  lemma TimesAssoc(m: nat, a: int, b: int, c: int)
    requires m > 0
    ensures Times(m, Times(m, a, b), c) == Times(m, a, Times(m, b, c))
  {
    TimesMod(m, a * b, c);
    TimesMod(m, b * c, a);
    TimesComm(m, a, (b * c) % m);
    assert (a * b) * c == (b * c) * a;
  }

  /** Residues modulo a divisor of `m` can be taken modulo `m` first. */
  lemma ModMod(m: nat, g: nat, a: int)
    requires m > 0 && g > 0 && m % g == 0
    ensures (a % m) % g == a % g
  {
    var k := m / g;
    assert (a / m) * m == ((a / m) * k) * g;
    ModShift(g, a % m, (a / m) * k);
  }

  // ----- powers -----

  lemma {:induction false} PowerCat(m: nat, c: nat, i: nat, j: nat)
    requires m > 1
    ensures Power(m, c, i + j) == Times(m, Power(m, c, i), Power(m, c, j))
    decreases i
  {
    hide Times;
    if i == 0 {
      TimesOne(m, Power(m, c, j));
    } else {
      PowerCat(m, c, i - 1, j);
      TimesAssoc(m, c, Power(m, c, i - 1), Power(m, c, j));
    }
  }

  lemma {:induction false} PowerOfSquare(m: nat, c: nat, d: nat)
    requires m > 1
    ensures Power(m, Times(m, c, c), d) == Times(m, Power(m, c, d), Power(m, c, d))
    decreases d
  {
    hide Times;
    if d == 0 {
      TimesOne(m, 1);
    } else {
      var x := Power(m, c, d - 1);
      PowerOfSquare(m, c, d - 1);
      Interchange(m, c, x);
    }
  }

  lemma Interchange(m: nat, c: nat, x: nat)
    requires m > 0
    ensures Times(m, Times(m, c, c), Times(m, x, x)) == Times(m, Times(m, c, x), Times(m, c, x))
  {
    hide Times;
    TimesAssoc(m, c, c, Times(m, x, x));
    TimesAssoc(m, c, x, x);
    TimesComm(m, Times(m, c, x), x);
    TimesAssoc(m, c, x, Times(m, c, x));
  }

  lemma {:induction false} SquaredPower(m: nat, c: nat, d: nat, k: nat)
    requires m > 1
    ensures Squared(m, Power(m, c, d), k) == Power(m, Squared(m, c, k), d)
    decreases k
  {
    if k > 0 {
      PowerOfSquare(m, c, d);
      SquaredPower(m, Times(m, c, c), d, k - 1);
    }
  }

  lemma {:induction false} SquaredOne(m: nat, k: nat)
    requires m > 1
    ensures Squared(m, 1, k) == 1
  {
    if k > 0 {
      TimesOne(m, 1);
      SquaredOne(m, k - 1);
    }
  }

  lemma {:induction false} PowerOfMinusOne(m: nat, d: nat)
    requires m > 1
    ensures Power(m, m - 1, d) == if d % 2 == 0 then 1 else m - 1
  {
    hide Times;
    if d > 0 {
      PowerOfMinusOne(m, d - 1);
      MinusOneSquared(m);
      TimesOne(m, m - 1);
    }
  }

  lemma MinusOneSquared(m: nat)
    requires m > 1
    ensures Times(m, m - 1, m - 1) == 1
  {
    assert (m - 1) * (m - 1) == (m - 2) * m + 1;
    Quotient(m, (m - 1) * (m - 1), m - 2, 1);
  }

  lemma {:induction false} PowerTwo(m: nat, c: nat, k: nat)
    requires m > 1 && c < m
    ensures Power(m, c, Two(k)) == Squared(m, c, k)
    decreases k
  {
    hide Times;
    if k == 0 {
      assert Power(m, c, 1) == Times(m, c, Power(m, c, 0));
      TimesOne(m, c);
    } else {
      PowerTwo(m, Times(m, c, c), k - 1);
      PowerOfSquare(m, c, Two(k - 1));
      PowerCat(m, c, Two(k - 1), Two(k - 1));
    }
  }

  // ----- the order of the root -----

  /** If squaring `c` k times gives -1, no power of `c` below 2^(k+1) is 1. */
  lemma {:induction false} OrderIsLarge(m: nat, c: nat, k: nat, d: nat)
    requires m > 2 && Squared(m, c, k) == m - 1 && 0 < d < Two(k + 1)
    ensures Power(m, c, d) != 1
    decreases k
  {
    if d % 2 == 0 {
      var h := d / 2;
      PowerCat(m, c, h, h);
      PowerOfSquare(m, c, h);
      OrderIsLarge(m, Times(m, c, c), k - 1, h);
    } else {
      SquaredPower(m, c, d, k);
      SquaredOne(m, k);
      PowerOfMinusOne(m, d);
    }
  }

  lemma FullTurn(m: nat, c: nat, k: nat)
    requires m > 2 && c < m && Squared(m, c, k) == m - 1
    ensures Power(m, c, Two(k + 1)) == 1
  {
    PowerTwo(m, c, k);
    PowerCat(m, c, Two(k), Two(k));
    MinusOneSquared(m);
  }

  /** The powers of `c` below 2^(k+1) are nonzero and pairwise different. */
  lemma PowersDiffer(m: nat, c: nat, k: nat, i: nat, j: nat)
    requires m > 2 && c < m && Squared(m, c, k) == m - 1 && i < j < Two(k + 1)
    ensures Power(m, c, i) != 0 && Power(m, c, i) != Power(m, c, j)
  {
    hide Power, Squared, Two, Times;
    var n := Two(k + 1);
    var back := Power(m, c, n - i);
    FullTurn(m, c, k);
    PowerCat(m, c, i, n - i);
    PowerCat(m, c, j, n - i);
    PowerCat(m, c, j - i, n);
    OrderIsLarge(m, c, k, j - i);
    TimesOne(m, Power(m, c, j - i));
    TimesOne(m, back);
  }

  function PowersBelow(m: nat, c: nat, n: nat): set<nat>
    requires m > 1
  {
    if n == 0 then {} else PowersBelow(m, c, n - 1) + {Power(m, c, n - 1)}
  }

  lemma {:induction false} IsPower(m: nat, c: nat, n: nat, x: nat) returns (i: nat)
    requires m > 1 && x in PowersBelow(m, c, n)
    ensures i < n && x == Power(m, c, i)
    decreases n
  {
    hide Power;
    if x == Power(m, c, n - 1) {
      i := n - 1;
    } else {
      i := IsPower(m, c, n - 1, x);
    }
  }

  lemma {:induction false} PowersCounted(m: nat, c: nat, k: nat, n: nat)
    requires m > 2 && c < m && Squared(m, c, k) == m - 1 && n < Two(k + 1)
    ensures |PowersBelow(m, c, n)| == n && forall x :: x in PowersBelow(m, c, n) ==> 0 < x < m
    decreases n
  {
    hide Power, Squared, Two;
    if n > 0 {
      PowersCounted(m, c, k, n - 1);
      PowersDiffer(m, c, k, n - 1, n);
      if Power(m, c, n - 1) in PowersBelow(m, c, n - 1) {
        var i := IsPower(m, c, n - 1, Power(m, c, n - 1));
        PowersDiffer(m, c, k, i, n - 1);
      }
    }
  }

  lemma {:induction false} FewBelow(s: set<nat>, m: nat)
    requires m > 0 && forall x :: x in s ==> 0 < x < m
    ensures |s| < m
    decreases m
  {
    if m == 1 {
      assert s == {};
    } else {
      FewBelow(s - {m - 1}, m - 1);
      assert s == s - {m - 1} || s == (s - {m - 1}) + {m - 1};
    }
  }

  lemma {:induction false} SquaredBelow(m: nat, g: nat, c: nat, k: nat)
    requires m > 1 && g > 1 && m % g == 0
    ensures Squared(g, c % g, k) == Squared(m, c, k) % g
    decreases k
  {
    if k > 0 {
      SquaredBelow(m, g, Times(m, c, c), k - 1);
      ModMod(m, g, c * c);
      TimesMod(g, c, c);
      TimesMod(g, c, c % g);
      TimesComm(g, c, c % g);
    }
  }

  lemma RootStep(c: nat, d: nat, k: nat)
    requires (c * c) % P == d && Squared(P, d, k) == P - 1
    ensures Squared(P, c, k + 1) == P - 1
  {}

  lemma RootEnd()
    ensures Squared(P, P - 1, 0) == P - 1
  {}

  /** Squared over and over, the root comes to -1. */
  lemma RootOrder()
    ensures Squared(P, ROOT, 31) == P - 1
  {
    hide Squared;
    RootEnd();
    RootStep(281474976710656, 18446744069414584320, 0);
    RootStep(18446744069397807105, 281474976710656, 1);
    RootStep(17293822564807737345, 18446744069397807105, 2);
    RootStep(70368744161280, 17293822564807737345, 3);
    RootStep(549755813888, 70368744161280, 4);
    RootStep(17870292113338400769, 549755813888, 5);
    RootStep(13797081185216407910, 17870292113338400769, 6);
    RootStep(1803076106186727246, 13797081185216407910, 7);
    RootStep(11353340290879379826, 1803076106186727246, 8);
    RootStep(455906449640507599, 11353340290879379826, 9);
    RootStep(17492915097719143606, 455906449640507599, 10);
    RootStep(1532612707718625687, 17492915097719143606, 11);
    RootStep(16207902636198568418, 1532612707718625687, 12);
    RootStep(17776499369601055404, 16207902636198568418, 13);
    RootStep(6115771955107415310, 17776499369601055404, 14);
    RootStep(12380578893860276750, 6115771955107415310, 15);
    RootStep(9306717745644682924, 12380578893860276750, 16);
    RootStep(18146160046829613826, 9306717745644682924, 17);
    RootStep(3511170319078647661, 18146160046829613826, 18);
    RootStep(17654865857378133588, 3511170319078647661, 19);
    RootStep(5416168637041100469, 17654865857378133588, 20);
    RootStep(16905767614792059275, 5416168637041100469, 21);
    RootStep(9713644485405565297, 16905767614792059275, 22);
    RootStep(5456943929260765144, 9713644485405565297, 23);
    RootStep(17096174751763063430, 5456943929260765144, 24);
    RootStep(1213594585890690845, 17096174751763063430, 25);
    RootStep(6414415596519834757, 1213594585890690845, 26);
    RootStep(16116352524544190054, 6414415596519834757, 27);
    RootStep(9123114210336311365, 16116352524544190054, 28);
    RootStep(4614640910117430873, 9123114210336311365, 29);
    RootStep(1753635133440165772, 4614640910117430873, 30);
  }

  lemma TwoThirtyTwo()
    ensures Two(32) == 0x1_0000_0000
  {
    assert Two(8) == 256;
    TwoCat(8, 8);
    TwoCat(16, 16);
  }

  /** A proper divisor of the modulus has more residues than the root has powers. */
  lemma DivisorIsLarge(g: nat)
    requires g > 1 && P % g == 0
    ensures g >= 0x1_0000_0000
  {
    hide Squared, Two;
    RootOrder();
    TwoThirtyTwo();
    SquaredBelow(P, g, ROOT, 31);
    assert P - 1 == (P / g - 1) * g + (g - 1);
    Quotient(g, P - 1, P / g - 1, g - 1);
    assert g != 2;
    PowersCounted(g, ROOT % g, 31, Two(32) - 1);
    FewBelow(PowersBelow(g, ROOT % g, Two(32) - 1), g);
  }

  lemma TooLarge(g: nat, h: nat)
    requires g >= 0x1_0000_0000 && h >= 0x1_0000_0000
    ensures g * h > P
  {
    assert g * h >= 0x1_0000_0000 * h;
  }

  /** The modulus is prime: two proper divisors above 2^32 would be too large together. */
  lemma ModulusIsPrime(g: nat)
    requires 1 < g < P
    ensures P % g != 0
  {
    if P % g == 0 {
      var h := P / g;
      assert P == g * h;
      assert h > 1;
      assert P % h == 0 by { Quotient(h, P, g, 0); }
      DivisorIsLarge(g);
      DivisorIsLarge(h);
      TooLarge(g, h);
    }
  }

  // ----- inverses -----

  /** The greatest common divisor as a combination of both numbers. */
  lemma {:induction false} Combination(a: nat, b: nat) returns (g: nat, u: int, v: int)
    requires a > 0
    ensures g > 0 && a % g == 0 && b % g == 0 && u * a + v * b == g
    decreases b
  {
    if b == 0 {
      g, u, v := a, 1, 0;
    } else {
      var q, r := a / b, a % b;
      g, u, v := Combination(b, r);
      assert a == q * b + r;
      assert a == (q * (b / g) + r / g) * g;
      Quotient(g, a, q * (b / g) + r / g, 0);
      assert u * b + v * r == v * a + (u - v * q) * b;
      u, v := v, u - v * q;
    }
  }

  lemma Inverse(x: Word) returns (y: Word)
    requires x != 0
    ensures Times(P, x, y) == 1
  {
    var g, u, v := Combination(x, P);
    if g > 1 {
      assert g <= x;
      ModulusIsPrime(g);
    }
    y := u % P;
    TimesMod(P, u, x);
    ModShift(P, u * x, v);
    assert u * x + v * P == 1;
  }

  /** A product is zero only if a factor is. */
  lemma NoZeroDivisors(x: Word, y: Word)
    requires Times(P, x, y) == 0
    ensures x == 0 || y == 0
  {
    if x != 0 {
      var z := Inverse(x);
      hide Times;
      TimesComm(P, x, y);
      TimesAssoc(P, y, x, z);
      TimesOne(P, z);
      TimesOne(P, y);
    }
  }
}
