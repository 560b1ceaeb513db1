/** Folding a codeword: the even and odd halves of the polynomial behind it, mixed with a challenge. */
module FriFold {
  import opened Primality
  import opened Words

  /** The operations of a commutative ring, such as the extension field that codewords are over. */
  datatype Ring<!T> = Ring(zero: T, one: T, add: (T, T) -> T, neg: T -> T, mul: (T, T) -> T)

  ghost predicate IsRing<T(!new)>(r: Ring<T>) {
    && (forall a, b :: r.add(a, b) == r.add(b, a))
    && (forall a, b, c :: r.add(r.add(a, b), c) == r.add(a, r.add(b, c)))
    && (forall a :: r.add(a, r.zero) == a)
    && (forall a :: r.add(a, r.neg(a)) == r.zero)
    && (forall a, b :: r.mul(a, b) == r.mul(b, a))
    && (forall a, b, c :: r.mul(r.mul(a, b), c) == r.mul(a, r.mul(b, c)))
    && (forall a :: r.mul(a, r.one) == a)
    && (forall a, b, c :: r.mul(a, r.add(b, c)) == r.add(r.mul(a, b), r.mul(a, c)))
  }

  function Sub<T>(r: Ring<T>, a: T, b: T): T {
    r.add(a, r.neg(b))
  }

  // ----- the laws one by one -----

  lemma AddComm<T(!new)>(r: Ring<T>, a: T, b: T)
    requires IsRing(r)
    ensures r.add(a, b) == r.add(b, a)
  {}

  lemma AddAssoc<T(!new)>(r: Ring<T>, a: T, b: T, c: T)
    requires IsRing(r)
    ensures r.add(r.add(a, b), c) == r.add(a, r.add(b, c))
  {}

  lemma AddZero<T(!new)>(r: Ring<T>, a: T)
    requires IsRing(r)
    ensures r.add(a, r.zero) == a && r.add(r.zero, a) == a
  {}

  lemma AddNeg<T(!new)>(r: Ring<T>, a: T)
    requires IsRing(r)
    ensures r.add(a, r.neg(a)) == r.zero && r.add(r.neg(a), a) == r.zero
  {}

  lemma MulComm<T(!new)>(r: Ring<T>, a: T, b: T)
    requires IsRing(r)
    ensures r.mul(a, b) == r.mul(b, a)
  {}

  lemma MulAssoc<T(!new)>(r: Ring<T>, a: T, b: T, c: T)
    requires IsRing(r)
    ensures r.mul(r.mul(a, b), c) == r.mul(a, r.mul(b, c))
  {}

  lemma MulOne<T(!new)>(r: Ring<T>, a: T)
    requires IsRing(r)
    ensures r.mul(a, r.one) == a && r.mul(r.one, a) == a
  {}

  lemma Distribute<T(!new)>(r: Ring<T>, a: T, b: T, c: T)
    requires IsRing(r)
    ensures r.mul(a, r.add(b, c)) == r.add(r.mul(a, b), r.mul(a, c))
    ensures r.mul(r.add(b, c), a) == r.add(r.mul(b, a), r.mul(c, a))
  {}

  /** Pairs of sums can be regrouped. */
  lemma Regroup<T(!new)>(r: Ring<T>, a: T, b: T, c: T, d: T)
    requires IsRing(r)
    ensures r.add(r.add(a, b), r.add(c, d)) == r.add(r.add(a, c), r.add(b, d))
  {
    hide IsRing;
    AddAssoc(r, a, b, r.add(c, d));
    AddAssoc(r, b, c, d);
    AddComm(r, b, c);
    AddAssoc(r, c, b, d);
    AddAssoc(r, a, c, r.add(b, d));
  }

  lemma NegUnique<T(!new)>(r: Ring<T>, a: T, b: T)
    requires IsRing(r) && r.add(a, b) == r.zero
    ensures b == r.neg(a)
  {
    hide IsRing;
    AddNeg(r, a);
    AddAssoc(r, r.neg(a), a, b);
    AddZero(r, b);
    AddZero(r, r.neg(a));
  }

  lemma MulZero<T(!new)>(r: Ring<T>, a: T)
    requires IsRing(r)
    ensures r.mul(a, r.zero) == r.zero
  {
    hide IsRing;
    var z := r.mul(a, r.zero);
    AddZero(r, r.zero);
    Distribute(r, a, r.zero, r.zero);
    assert r.add(z, z) == z;
    AddNeg(r, z);
    AddAssoc(r, z, z, r.neg(z));
    AddZero(r, z);
  }

  lemma MulNeg<T(!new)>(r: Ring<T>, a: T, b: T)
    requires IsRing(r)
    ensures r.mul(a, r.neg(b)) == r.neg(r.mul(a, b)) && r.mul(r.neg(b), a) == r.neg(r.mul(a, b))
  {
    hide IsRing;
    AddNeg(r, b);
    Distribute(r, a, b, r.neg(b));
    MulZero(r, a);
    NegUnique(r, r.mul(a, b), r.mul(a, r.neg(b)));
    MulComm(r, a, r.neg(b));
  }

  lemma NegNeg<T(!new)>(r: Ring<T>, a: T)
    requires IsRing(r)
    ensures r.neg(r.neg(a)) == a
  {
    hide IsRing;
    AddNeg(r, a);
    NegUnique(r, r.neg(a), a);
  }

  // ----- polynomials -----

  /** Coefficients from the constant term up. */
  function Eval<T>(r: Ring<T>, f: seq<T>, x: T): T {
    if f == [] then r.zero else r.add(f[0], r.mul(x, Eval(r, f[1..], x)))
  }

  function Even<T>(f: seq<T>): (e: seq<T>)
    ensures |e| == (|f| + 1) / 2
  {
    if f == [] then [] else [f[0]] + Odd(f[1..])
  }

  function Odd<T>(f: seq<T>): (o: seq<T>)
    ensures |o| == |f| / 2
  {
    if f == [] then [] else Even(f[1..])
  }

  /** At x and at -x, a polynomial is the sum and the difference of its even part and x times its odd part, at x^2. */
  lemma {:induction false} SplitAt<T(!new)>(r: Ring<T>, f: seq<T>, x: T)
    requires IsRing(r)
    ensures var e, o := Eval(r, Even(f), r.mul(x, x)), r.mul(x, Eval(r, Odd(f), r.mul(x, x)));
      Eval(r, f, x) == r.add(e, o) && Eval(r, f, r.neg(x)) == Sub(r, e, o)
    decreases |f|
  {
    hide IsRing;
    var s := r.mul(x, x);
    if f == [] {
      MulZero(r, x);
      AddZero(r, r.zero);
      AddNeg(r, r.zero);
    } else {
      var g := f[1..];
      SplitAt(r, g, x);
      var e, o := Eval(r, Even(g), s), Eval(r, Odd(g), s);
      assert Even(f)[1..] == Odd(g);
      assert Odd(f) == Even(g);
      SplitStep(r, f[0], x, e, o);
    }
  }

  lemma SplitStep<T(!new)>(r: Ring<T>, c: T, x: T, e: T, o: T)
    requires IsRing(r)
    ensures var even := r.add(c, r.mul(r.mul(x, x), o));
      && r.add(c, r.mul(x, r.add(e, r.mul(x, o)))) == r.add(even, r.mul(x, e))
      && r.add(c, r.mul(r.neg(x), Sub(r, e, r.mul(x, o)))) == Sub(r, even, r.mul(x, e))
  {
    hide IsRing;
    var xo, xe := r.mul(x, o), r.mul(x, e);
    var sxo := r.mul(r.mul(x, x), o);
    MulAssoc(r, x, x, o);
    Distribute(r, x, e, xo);
    AddComm(r, xe, sxo);
    AddAssoc(r, c, sxo, xe);
    Distribute(r, r.neg(x), e, r.neg(xo));
    MulNeg(r, e, x);
    MulComm(r, e, x);
    MulNeg(r, r.neg(x), xo);
    MulNeg(r, xo, x);
    MulComm(r, xo, x);
    NegNeg(r, r.mul(x, xo));
    AddComm(r, r.neg(xe), sxo);
    AddAssoc(r, c, sxo, r.neg(xe));
  }

  /** Coefficients of the folded polynomial. */
  function Mixed<T>(r: Ring<T>, e: seq<T>, o: seq<T>, challenge: T): (g: seq<T>)
    requires |o| <= |e|
    ensures |g| == |e|
  {
    seq(|e|, i requires 0 <= i < |e| => if i < |o| then r.add(e[i], r.mul(challenge, o[i])) else e[i])
  }

  function Folded<T>(r: Ring<T>, f: seq<T>, challenge: T): (g: seq<T>)
    ensures |g| == (|f| + 1) / 2
  {
    Mixed(r, Even(f), Odd(f), challenge)
  }

  lemma {:induction false} EvalMixed<T(!new)>(r: Ring<T>, e: seq<T>, o: seq<T>, challenge: T, x: T)
    requires IsRing(r) && |o| <= |e|
    ensures Eval(r, Mixed(r, e, o, challenge), x) == r.add(Eval(r, e, x), r.mul(challenge, Eval(r, o, x)))
    decreases |e|
  {
    hide IsRing;
    if o == [] {
      assert Mixed(r, e, o, challenge) == e;
      MulZero(r, challenge);
      AddZero(r, Eval(r, e, x));
    } else {
      var g := Mixed(r, e, o, challenge);
      assert g[1..] == Mixed(r, e[1..], o[1..], challenge);
      EvalMixed(r, e[1..], o[1..], challenge, x);
      MixStep(r, e[0], o[0], challenge, x, Eval(r, e[1..], x), Eval(r, o[1..], x));
    }
  }

  lemma MixStep<T(!new)>(r: Ring<T>, a: T, b: T, c: T, x: T, e: T, o: T)
    requires IsRing(r)
    ensures r.add(r.add(a, r.mul(c, b)), r.mul(x, r.add(e, r.mul(c, o))))
         == r.add(r.add(a, r.mul(x, e)), r.mul(c, r.add(b, r.mul(x, o))))
  {
    hide IsRing;
    Distribute(r, x, e, r.mul(c, o));
    MulAssoc(r, x, c, o);
    MulComm(r, x, c);
    MulAssoc(r, c, x, o);
    Distribute(r, c, b, r.mul(x, o));
    Regroup(r, a, r.mul(c, b), r.mul(x, e), r.mul(c, r.mul(x, o)));
  }

  // ----- folding -----

  /** One element of the folded codeword. */
  function FoldPair<T>(r: Ring<T>, left: T, right: T, inverse: T, challenge: T, half: T): T {
    var scaled := r.mul(challenge, inverse);
    r.mul(r.add(r.mul(r.add(r.one, scaled), left), r.mul(Sub(r, r.one, scaled), right)), half)
  }

  function FriFold<T>(r: Ring<T>, codeword: seq<T>, inverses: seq<T>, challenge: T, half: T): (folded: seq<T>)
    requires |inverses| >= |codeword| / 2
    ensures |folded| == |codeword| / 2
  {
    seq(|codeword| / 2, i requires 0 <= i < |codeword| / 2 =>
      FoldPair(r, codeword[i], codeword[|codeword| / 2 + i], inverses[i], challenge, half))
  }

  /** (1 + k)(e + y) + (1 - k)(e - y) is 2(e + ky). */
  lemma CrossTerms<T(!new)>(r: Ring<T>, k: T, e: T, y: T)
    requires IsRing(r)
    ensures var v := r.add(e, r.mul(k, y));
      r.add(r.mul(r.add(r.one, k), r.add(e, y)), r.mul(Sub(r, r.one, k), Sub(r, e, y))) == r.add(v, v)
  {
    hide IsRing;
    var ke, ky := r.mul(k, e), r.mul(k, y);
    var v, w := r.add(e, ky), r.add(y, ke);
    Distribute(r, r.add(e, y), r.one, k);
    MulOne(r, r.add(e, y));
    Distribute(r, k, e, y);
    AddComm(r, ke, ky);
    Regroup(r, e, y, ky, ke);
    assert r.mul(r.add(r.one, k), r.add(e, y)) == r.add(v, w);
    var d := Sub(r, e, y);
    Distribute(r, d, r.one, r.neg(k));
    MulOne(r, d);
    MulNeg(r, d, k);
    MulComm(r, d, k);
    Distribute(r, k, e, r.neg(y));
    MulNeg(r, k, y);
    NegOfSub(r, ke, ky);
    assert r.mul(Sub(r, r.one, k), d) == r.add(r.add(e, r.neg(y)), r.add(ky, r.neg(ke)));
    Regroup(r, e, r.neg(y), ky, r.neg(ke));
    NegOfSum(r, y, ke);
    assert r.mul(Sub(r, r.one, k), d) == r.add(v, r.neg(w));
    Regroup(r, v, w, v, r.neg(w));
    AddNeg(r, w);
    AddZero(r, r.add(v, v));
  }

  lemma NegOfSum<T(!new)>(r: Ring<T>, a: T, b: T)
    requires IsRing(r)
    ensures r.neg(r.add(a, b)) == r.add(r.neg(a), r.neg(b))
  {
    hide IsRing;
    Regroup(r, a, b, r.neg(a), r.neg(b));
    AddNeg(r, a);
    AddNeg(r, b);
    AddZero(r, r.zero);
    NegUnique(r, r.add(a, b), r.add(r.neg(a), r.neg(b)));
  }

  lemma NegOfSub<T(!new)>(r: Ring<T>, a: T, b: T)
    requires IsRing(r)
    ensures r.neg(r.add(a, r.neg(b))) == r.add(b, r.neg(a))
  {
    hide IsRing;
    NegOfSum(r, a, r.neg(b));
    NegNeg(r, b);
    AddComm(r, r.neg(a), b);
  }

  lemma Halved<T(!new)>(r: Ring<T>, v: T, half: T)
    requires IsRing(r) && r.mul(r.add(r.one, r.one), half) == r.one
    ensures r.mul(r.add(v, v), half) == v
  {
    hide IsRing;
    MulOne(r, v);
    Distribute(r, v, r.one, r.one);
    MulAssoc(r, v, r.add(r.one, r.one), half);
  }

  /** Folding the values at x and -x gives the folded polynomial at x^2. */
  lemma FoldsPair<T(!new)>(r: Ring<T>, f: seq<T>, x: T, inverse: T, challenge: T, half: T)
    requires IsRing(r) && r.mul(inverse, x) == r.one && r.mul(r.add(r.one, r.one), half) == r.one
    ensures FoldPair(r, Eval(r, f, x), Eval(r, f, r.neg(x)), inverse, challenge, half)
         == Eval(r, Folded(r, f, challenge), r.mul(x, x))
  {
    hide IsRing, Eval;
    var s := r.mul(x, x);
    var e, o := Eval(r, Even(f), s), Eval(r, Odd(f), s);
    var k := r.mul(challenge, inverse);
    SplitAt(r, f, x);
    CrossTerms(r, k, e, r.mul(x, o));
    MulAssoc(r, challenge, inverse, r.mul(x, o));
    MulAssoc(r, inverse, x, o);
    MulOne(r, o);
    Halved(r, r.add(e, r.mul(challenge, o)), half);
    EvalMixed(r, Even(f), Odd(f), challenge, s);
  }

  /** The codeword holds the values of `f` on the domain. */
  ghost predicate ValuesOf<T(!new)>(r: Ring<T>, f: seq<T>, domain: seq<T>, codeword: seq<T>) {
    |codeword| == |domain| && forall i :: 0 <= i < |domain| ==> codeword[i] == Eval(r, f, domain[i])
  }

  /** The second half of the domain is the first half negated, and the inverses are those of the first half. */
  ghost predicate Symmetric<T(!new)>(r: Ring<T>, domain: seq<T>, inverses: seq<T>) {
    && |domain| % 2 == 0 && |inverses| >= |domain| / 2
    && (forall i :: 0 <= i < |domain| / 2 ==> domain[|domain| / 2 + i] == r.neg(domain[i]))
    && (forall i :: 0 <= i < |domain| / 2 ==> r.mul(inverses[i], domain[i]) == r.one)
  }

  function Squares<T>(r: Ring<T>, domain: seq<T>): (squares: seq<T>)
    ensures |squares| == |domain| / 2
  {
    seq(|domain| / 2, i requires 0 <= i < |domain| / 2 => r.mul(domain[i], domain[i]))
  }

  /** The folded codeword holds the values of `g` on the squares of the first half of the domain. */
  ghost predicate FoldsTo<T(!new)>(r: Ring<T>, g: seq<T>, domain: seq<T>, codeword: seq<T>, inverses: seq<T>, challenge: T, half: T) {
    |inverses| >= |codeword| / 2 && ValuesOf(r, g, Squares(r, domain), FriFold(r, codeword, inverses, challenge, half))
  }

  /**
   * If the codeword holds the values of `f` on a symmetric domain, the folded codeword holds the values of the folded
   * polynomial, which has half as many coefficients, on the squares of the first half.
   */
  lemma FoldsCodeword<T(!new)>(r: Ring<T>, f: seq<T>, domain: seq<T>, codeword: seq<T>, inverses: seq<T>, challenge: T, half: T)
    requires ValuesOf(r, f, domain, codeword) && Symmetric(r, domain, inverses)
    requires r.mul(r.add(r.one, r.one), half) == r.one && IsRing(r)
    ensures FoldsTo(r, Folded(r, f, challenge), domain, codeword, inverses, challenge, half)
    ensures |Folded(r, f, challenge)| == (|f| + 1) / 2
  {
    hide IsRing, Eval, Folded, FoldPair;
    var folded := FriFold(r, codeword, inverses, challenge, half);
    forall i | 0 <= i < |folded|
      ensures folded[i] == Eval(r, Folded(r, f, challenge), Squares(r, domain)[i])
    {
      FoldsPair(r, f, domain[i], inverses[i], challenge, half);
      assert codeword[|domain| / 2 + i] == Eval(r, f, r.neg(domain[i]));
    }
  }

  // ----- the base field is such a ring -----

  function Plus(a: Word, b: Word): Word {
    (a + b) % P
  }

  function Minus(a: Word): Word {
    (0 - a) % P
  }

  function Product(a: Word, b: Word): Word {
    Times(P, a, b)
  }

  function BaseField(): Ring<Word> {
    Ring(0, 1, Plus, Minus, Product)
  }

  lemma PlusAssoc(a: Word, b: Word, c: Word)
    ensures Plus(Plus(a, b), c) == Plus(a, Plus(b, c))
  {
    SumWith(a + b, c);
    SumWith(b + c, a);
  }

  lemma SumWith(x: int, y: Word)
    ensures (x % P + y) % P == (x + y) % P
  {}

  lemma ProductDistributes(a: Word, b: Word, c: Word)
    ensures Product(a, Plus(b, c)) == Plus(Product(a, b), Product(a, c))
  {
    var ab: int, ac: int := a * b, a * c;
    TimesComm(P, a, Plus(b, c));
    TimesMod(P, b + c, a);
    assert (b + c) * a == ab + ac;
    SumMod(ab, ac);
  }

  lemma SumMod(x: int, y: int)
    ensures (x % P + y % P) % P == (x + y) % P
  {}

  /** The laws hold of the words of the machine, so none of the results above is empty. */
  lemma BaseFieldIsRing()
    ensures IsRing(BaseField())
  {
    hide Plus, Minus, Product;
    var r := BaseField();
    forall a: Word, b: Word
      ensures Plus(a, b) == Plus(b, a) && Product(a, b) == Product(b, a)
    {
      PlusProductComm(a, b);
    }
    forall a: Word, b: Word, c: Word
      ensures Plus(Plus(a, b), c) == Plus(a, Plus(b, c)) && Product(Product(a, b), c) == Product(a, Product(b, c))
      ensures Product(a, Plus(b, c)) == Plus(Product(a, b), Product(a, c))
    {
      PlusAssoc(a, b, c);
      ProductAssoc(a, b, c);
      ProductDistributes(a, b, c);
    }
    forall a: Word
      ensures Plus(a, 0) == a && Plus(a, Minus(a)) == 0 && Product(a, 1) == a
    {
      Units(a);
    }
  }

  lemma PlusProductComm(a: Word, b: Word)
    ensures Plus(a, b) == Plus(b, a) && Product(a, b) == Product(b, a)
  {
    TimesComm(P, a, b);
  }

  lemma ProductAssoc(a: Word, b: Word, c: Word)
    ensures Product(Product(a, b), c) == Product(a, Product(b, c))
  {
    TimesAssoc(P, a, b, c);
  }

  lemma Units(a: Word)
    ensures Plus(a, 0) == a && Plus(a, Minus(a)) == 0 && Product(a, 1) == a
  {
    TimesOne(P, a);
  }
}
