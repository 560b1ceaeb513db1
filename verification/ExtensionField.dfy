/** The field that codewords are over: three words, as polynomials in X modulo X^3 - X + 1. */
module ExtensionField {
  import opened Words
  import opened FriFold

  /** Coefficients from the constant term up. */
  datatype XWord = XWord(c0: Word, c1: Word, c2: Word)

  /** Coefficients that are not reduced to words yet. */
  datatype Triple = Triple(c0: int, c1: int, c2: int)

  function Whole(x: XWord): Triple {
    Triple(x.c0, x.c1, x.c2)
  }

  function Reduced(t: Triple): XWord {
    XWord(t.c0 % P, t.c1 % P, t.c2 % P)
  }

  // ----- integer coefficients -----

  function Sum(t: Triple, u: Triple): Triple {
    Triple(t.c0 + u.c0, t.c1 + u.c1, t.c2 + u.c2)
  }

  function Scaled(k: int, t: Triple): Triple {
    Triple(k * t.c0, k * t.c1, k * t.c2)
  }

  /** X times the polynomial, with X^3 replaced by X - 1. */
  function Shifted(t: Triple): Triple {
    Triple(0 - t.c2, t.c0 + t.c2, t.c1)
  }

  /** The product, with X^3 replaced by X - 1 and X^4 by X^2 - X. */
  function Multiplied(t: Triple, u: Triple): Triple {
    var cubed := t.c1 * u.c2 + t.c2 * u.c1;
    Triple(t.c0 * u.c0 - cubed,
           t.c0 * u.c1 + t.c1 * u.c0 + cubed - t.c2 * u.c2,
           t.c0 * u.c2 + t.c1 * u.c1 + t.c2 * u.c0 + t.c2 * u.c2)
  }

  lemma MultipliedComm(t: Triple, u: Triple)
    ensures Multiplied(t, u) == Multiplied(u, t)
  {}

  /** A product is a combination of the shifts of one factor. */
  lemma ByShifts(t: Triple, u: Triple)
    ensures Multiplied(t, u) == Sum(Sum(Scaled(t.c0, u), Scaled(t.c1, Shifted(u))), Scaled(t.c2, Shifted(Shifted(u))))
  {
    assert Shifted(u) == Triple(0 - u.c2, u.c0 + u.c2, u.c1);
    assert Shifted(Shifted(u)) == Triple(0 - u.c1, u.c1 - u.c2, u.c0 + u.c2);
    Spread(t.c1, u.c0, u.c2);
    Spread(t.c2, u.c1, u.c2);
    Spread(t.c2, u.c0, u.c2);
    Spread(t.c1, 0, u.c2);
    Spread(t.c2, 0, u.c1);
  }

  lemma Factor(k: int, a: int, b: int)
    ensures (k * a) * b == k * (a * b)
  {}

  lemma Spread(k: int, x: int, y: int)
    ensures k * (x + y) == k * x + k * y && k * (x - y) == k * x - k * y
  {}

  /** The products that a coefficient of the product is made of, with one factor scaled. */
  lemma ScaledTwo(k: int, a: int, b: int, c: int, d: int)
    ensures (k * a) * b + (k * c) * d == k * (a * b + c * d)
  {
    Factor(k, a, b);
    Factor(k, c, d);
    Spread(k, a * b, c * d);
  }

  lemma ScaledOut(k: int, t: Triple, u: Triple)
    ensures Multiplied(Scaled(k, t), u) == Scaled(k, Multiplied(t, u))
  {
    ScaledLow(k, t, u);
    ScaledMiddle(k, t, u);
    ScaledHigh(k, t, u);
  }

  lemma ScaledLow(k: int, t: Triple, u: Triple)
    ensures Multiplied(Scaled(k, t), u).c0 == k * Multiplied(t, u).c0
  {
    var x, y := t.c0 * u.c0, t.c1 * u.c2 + t.c2 * u.c1;
    Factor(k, t.c0, u.c0);
    ScaledTwo(k, t.c1, u.c2, t.c2, u.c1);
    Spread(k, x, y);
    assert Multiplied(t, u).c0 == x - y;
  }

  lemma ScaledMiddle(k: int, t: Triple, u: Triple)
    ensures Multiplied(Scaled(k, t), u).c1 == k * Multiplied(t, u).c1
  {
    var x, y, z := t.c0 * u.c1 + t.c1 * u.c0, t.c1 * u.c2 + t.c2 * u.c1, t.c2 * u.c2;
    ScaledTwo(k, t.c0, u.c1, t.c1, u.c0);
    ScaledTwo(k, t.c1, u.c2, t.c2, u.c1);
    Factor(k, t.c2, u.c2);
    Spread(k, x, y);
    Spread(k, x + y, z);
    assert Multiplied(t, u).c1 == x + y - z;
  }

  lemma ScaledHigh(k: int, t: Triple, u: Triple)
    ensures Multiplied(Scaled(k, t), u).c2 == k * Multiplied(t, u).c2
  {
    var x, y := t.c0 * u.c2 + t.c1 * u.c1, t.c2 * u.c0 + t.c2 * u.c2;
    ScaledTwo(k, t.c0, u.c2, t.c1, u.c1);
    ScaledTwo(k, t.c2, u.c0, t.c2, u.c2);
    Spread(k, x, y);
    assert Multiplied(t, u).c2 == x + y;
  }

  lemma Share(a: int, b: int, c: int)
    ensures (a + b) * c == a * c + b * c
  {}

  lemma SumOut(s: Triple, t: Triple, u: Triple)
    ensures Multiplied(Sum(s, t), u) == Sum(Multiplied(s, u), Multiplied(t, u))
  {
    Share(s.c0, t.c0, u.c0);
    Share(s.c0, t.c0, u.c1);
    Share(s.c0, t.c0, u.c2);
    Share(s.c1, t.c1, u.c0);
    Share(s.c1, t.c1, u.c1);
    Share(s.c1, t.c1, u.c2);
    Share(s.c2, t.c2, u.c0);
    Share(s.c2, t.c2, u.c1);
    Share(s.c2, t.c2, u.c2);
  }

  lemma ShiftedOut(t: Triple, u: Triple)
    ensures Multiplied(Shifted(t), u) == Shifted(Multiplied(t, u))
  {}

  lemma MultipliedAssoc(s: Triple, t: Triple, u: Triple)
    ensures Multiplied(Multiplied(s, t), u) == Multiplied(s, Multiplied(t, u))
  {
    ByShifts(s, t);
    ByShifts(s, Multiplied(t, u));
    hide Multiplied, Sum, Scaled, Shifted;
    var a, b, c := Scaled(s.c0, t), Scaled(s.c1, Shifted(t)), Scaled(s.c2, Shifted(Shifted(t)));
    SumOut(Sum(a, b), c, u);
    SumOut(a, b, u);
    ScaledOut(s.c0, t, u);
    ScaledOut(s.c1, Shifted(t), u);
    ScaledOut(s.c2, Shifted(Shifted(t)), u);
    ShiftedOut(t, u);
    ShiftedOut(Shifted(t), u);
  }

  // ----- reduction to words -----

  lemma ReducedSum(t: Triple, u: Triple)
    ensures Reduced(Sum(Whole(Reduced(t)), u)) == Reduced(Sum(t, u))
  {
    Carried(t.c0, u.c0);
    Carried(t.c1, u.c1);
    Carried(t.c2, u.c2);
  }

  lemma Carried(x: int, y: int)
    ensures (x % P + y) % P == (x + y) % P
  {}

  lemma ReducedMultiple(t: Triple, q: Triple)
    ensures Reduced(Sum(t, Scaled(P, q))) == Reduced(t)
  {
    DropMultiple(t.c0, q.c0);
    DropMultiple(t.c1, q.c1);
    DropMultiple(t.c2, q.c2);
  }

  /** Reducing a factor first does not change the reduced product. */
  lemma ReducedFactor(t: Triple, u: Triple)
    ensures Reduced(Multiplied(Whole(Reduced(t)), u)) == Reduced(Multiplied(t, u))
  {
    var w, q := Whole(Reduced(t)), Triple(t.c0 / P, t.c1 / P, t.c2 / P);
    assert t == Sum(w, Scaled(P, q));
    hide Multiplied, Sum, Scaled, Reduced, Whole;
    SumOut(w, Scaled(P, q), u);
    ScaledOut(P, q, u);
    ReducedMultiple(Multiplied(w, u), Multiplied(q, u));
  }

  // ----- the field operations -----

  function XPlus(a: XWord, b: XWord): XWord {
    Reduced(Sum(Whole(a), Whole(b)))
  }

  function XMinus(a: XWord): XWord {
    Reduced(Scaled(-1, Whole(a)))
  }

  function XTimes(a: XWord, b: XWord): XWord {
    Reduced(Multiplied(Whole(a), Whole(b)))
  }

  function Lifted(w: Word): XWord {
    XWord(w, 0, 0)
  }

  function XField(): Ring<XWord> {
    Ring(Lifted(0), Lifted(1), XPlus, XMinus, XTimes)
  }

  lemma XPlusAssoc(a: XWord, b: XWord, c: XWord)
    ensures XPlus(XPlus(a, b), c) == XPlus(a, XPlus(b, c))
  {
    var s, t, u := Whole(a), Whole(b), Whole(c);
    ReducedSum(Sum(s, t), u);
    ReducedSum(Sum(t, u), s);
    assert Sum(Sum(s, t), u) == Sum(Sum(t, u), s);
    assert Sum(s, Whole(Reduced(Sum(t, u)))) == Sum(Whole(Reduced(Sum(t, u))), s);
  }

  lemma XTimesAssoc(a: XWord, b: XWord, c: XWord)
    ensures XTimes(XTimes(a, b), c) == XTimes(a, XTimes(b, c))
  {
    hide Multiplied, Reduced, Whole;
    var s, t, u := Whole(a), Whole(b), Whole(c);
    ReducedFactor(Multiplied(s, t), u);
    ReducedFactor(Multiplied(t, u), s);
    MultipliedComm(s, Whole(Reduced(Multiplied(t, u))));
    MultipliedComm(s, Multiplied(t, u));
    MultipliedAssoc(s, t, u);
  }

  lemma XDistributes(a: XWord, b: XWord, c: XWord)
    ensures XTimes(a, XPlus(b, c)) == XPlus(XTimes(a, b), XTimes(a, c))
  {
    hide Multiplied, Reduced, Whole, Sum;
    var s, t, u := Whole(a), Whole(b), Whole(c);
    MultipliedComm(s, Whole(Reduced(Sum(t, u))));
    ReducedFactor(Sum(t, u), s);
    SumOut(t, u, s);
    MultipliedComm(t, s);
    MultipliedComm(u, s);
    var m, n := Multiplied(s, t), Multiplied(s, u);
    ReducedSum(m, Whole(Reduced(n)));
    SumComm(m, Whole(Reduced(n)));
    ReducedSum(n, m);
    SumComm(n, m);
  }

  lemma SumComm(t: Triple, u: Triple)
    ensures Sum(t, u) == Sum(u, t)
  {}

  lemma WholeAndBack(a: XWord)
    ensures Reduced(Whole(a)) == a
  {}

  lemma MultipliedOne(t: Triple)
    ensures Multiplied(t, Triple(1, 0, 0)) == t
  {}

  lemma NothingLeft(t: Triple)
    ensures Sum(Scaled(-1, t), t) == Triple(0, 0, 0)
  {}

  lemma XUnits(a: XWord)
    ensures XPlus(a, Lifted(0)) == a && XPlus(a, XMinus(a)) == Lifted(0) && XTimes(a, Lifted(1)) == a
  {
    var t := Whole(a);
    WholeAndBack(a);
    MultipliedOne(t);
    NothingLeft(t);
    assert Whole(Lifted(1)) == Triple(1, 0, 0) && Sum(t, Whole(Lifted(0))) == t;
    assert Reduced(Triple(0, 0, 0)) == Lifted(0);
    hide Multiplied, Reduced, Whole, Sum, Scaled;
    ReducedSum(Scaled(-1, t), t);
    SumComm(t, Whole(XMinus(a)));
  }

  lemma XComm(a: XWord, b: XWord)
    ensures XPlus(a, b) == XPlus(b, a) && XTimes(a, b) == XTimes(b, a)
  {
    MultipliedComm(Whole(a), Whole(b));
  }

  /** The extension satisfies the laws of a commutative ring. */
  lemma XFieldIsRing()
    ensures IsRing(XField())
  {
    hide XPlus, XMinus, XTimes, Lifted;
    forall a: XWord, b: XWord
      ensures XPlus(a, b) == XPlus(b, a) && XTimes(a, b) == XTimes(b, a)
    {
      XComm(a, b);
    }
    forall a: XWord, b: XWord, c: XWord
      ensures XPlus(XPlus(a, b), c) == XPlus(a, XPlus(b, c)) && XTimes(XTimes(a, b), c) == XTimes(a, XTimes(b, c))
      ensures XTimes(a, XPlus(b, c)) == XPlus(XTimes(a, b), XTimes(a, c))
    {
      XPlusAssoc(a, b, c);
      XTimesAssoc(a, b, c);
      XDistributes(a, b, c);
    }
    forall a: XWord
      ensures XPlus(a, Lifted(0)) == a && XPlus(a, XMinus(a)) == Lifted(0) && XTimes(a, Lifted(1)) == a
    {
      XUnits(a);
    }
  }

  /** Multiplying by X, with the cube of X replaced. */
  lemma TimesX(x: XWord, u: XWord)
    requires x.c0 == 0 && x.c1 == 1 && x.c2 == 0
    ensures XTimes(x, u) == XWord((0 - u.c2) % P, (u.c0 + u.c2) % P, u.c1)
  {
    hide XPlus, XMinus, Lifted, Multiplied;
    MultipliedByX(Whole(x), Whole(u));
  }

  lemma MultipliedByX(t: Triple, u: Triple)
    requires t.c0 == 0 && t.c1 == 1 && t.c2 == 0
    ensures Multiplied(t, u) == Triple(0 - u.c2, u.c0 + u.c2, u.c1)
  {}

  /** The field is that of X^3 - X + 1: the cube of X is X - 1. */
  lemma XCubed(x: XWord)
    requires x.c0 == 0 && x.c1 == 1 && x.c2 == 0
    ensures XTimes(x, XTimes(x, x)) == XWord(P - 1, 1, 0)
  {
    hide XTimes, XPlus, XMinus, Lifted;
    TimesX(x, x);
    TimesX(x, XTimes(x, x));
  }

  // ----- the base field inside -----

  function LiftedAll(words: seq<Word>): (r: seq<XWord>)
    ensures |r| == |words|
  {
    seq(|words|, i requires 0 <= i < |words| => Lifted(words[i]))
  }

  lemma LiftKeeps(a: Word, b: Word)
    ensures XTimes(Lifted(a), Lifted(b)) == Lifted(Product(a, b)) && XMinus(Lifted(a)) == Lifted(Minus(a))
  {}

  const HALF: Word := 0x7FFF_FFFF_8000_0001

  lemma OneAndOne()
    ensures XPlus(Lifted(1), Lifted(1)) == Lifted(2)
  {
    hide XTimes, XMinus, Multiplied, Product;
    var two := Sum(Whole(Lifted(1)), Whole(Lifted(1)));
    assert two == Triple(2, 0, 0);
    assert Reduced(two) == XWord(2, 0, 0);
  }

  lemma TwiceHalf()
    ensures Product(2, HALF) == 1
  {
    assert 2 * HALF == P + 1;
  }

  lemma Halves()
    ensures XTimes(XPlus(Lifted(1), Lifted(1)), Lifted(HALF)) == Lifted(1)
  {
    hide XTimes, XPlus, Lifted, Product;
    OneAndOne();
    LiftKeeps(2, HALF);
    TwiceHalf();
  }

  /**
   * Folding as the prover does it: a codeword over the extension, a domain of words whose second half is the first
   * negated, and the words' inverses. The folded codeword holds the values of the folded polynomial.
   */
  lemma FoldsExtension(f: seq<XWord>, domain: seq<Word>, codeword: seq<XWord>, inverses: seq<Word>, challenge: XWord)
    requires ValuesOf(XField(), f, LiftedAll(domain), codeword) && Symmetric(BaseField(), domain, inverses)
    ensures FoldsTo(XField(), Folded(XField(), f, challenge), LiftedAll(domain), codeword, LiftedAll(inverses), challenge, Lifted(HALF))
    ensures |Folded(XField(), f, challenge)| == (|f| + 1) / 2
  {
    hide IsRing, ValuesOf, FoldsTo, Folded, Product, Minus, XTimes, XMinus, XPlus, Lifted;
    XFieldIsRing();
    Halves();
    var n := |domain| / 2;
    forall i | 0 <= i < n
      ensures LiftedAll(domain)[n + i] == XMinus(LiftedAll(domain)[i])
      ensures XTimes(LiftedAll(inverses)[i], LiftedAll(domain)[i]) == Lifted(1)
    {
      LiftKeeps(domain[i], domain[i]);
      LiftKeeps(inverses[i], domain[i]);
      assert BaseField().mul(inverses[i], domain[i]) == BaseField().one;
      assert domain[n + i] == BaseField().neg(domain[i]);
    }
    FoldsCodeword(XField(), f, LiftedAll(domain), codeword, LiftedAll(inverses), challenge, Lifted(HALF));
  }
}
