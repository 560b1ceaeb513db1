/** Reversing the bits of an index, as the leaf order of the guesser buffer does. */
module BitReversal {
  import Machine
  import opened Powers

  // ----- the reversal of a number -----

  /** The lowest `height` binary digits of `n`, read backwards. */
  function Reversal(n: nat, height: nat): (r: nat)
    decreases height
  {
    if height == 0 then 0 else Top(n % 2 == 1, height - 1) + Reversal(n / 2, height - 1)
  }

  function Top(present: bool, height: nat): nat {
    if present then Two(height) else 0
  }

  function Digit(n: nat, i: nat): nat {
    (n / Two(i)) % 2
  }

  lemma {:induction false} ReversalFits(n: nat, height: nat)
    ensures Reversal(n, height) < Two(height)
    decreases height
  {
    if height > 0 {
      ReversalFits(n / 2, height - 1);
    }
  }

  /** The highest digit becomes the lowest. */
  lemma {:induction false} ReversalOfTop(top: bool, low: nat, height: nat)
    requires low < Two(height)
    ensures Reversal(Top(top, height) + low, height + 1) == 2 * Reversal(low, height) + if top then 1 else 0
    decreases height
  {
    var n := Top(top, height) + low;
    if height == 0 {
      assert Reversal(n / 2, 0) == 0;
    } else {
      assert n / 2 == Top(top, height - 1) + low / 2 && n % 2 == low % 2;
      ReversalOfTop(top, low / 2, height - 1);
    }
  }

  /** Reversing twice gives the number back. */
  lemma {:induction false} ReversalTwice(n: nat, height: nat)
    requires n < Two(height)
    ensures Reversal(Reversal(n, height), height) == n
    decreases height
  {
    if height > 0 {
      ReversalFits(n / 2, height - 1);
      ReversalOfTop(n % 2 == 1, Reversal(n / 2, height - 1), height - 1);
      ReversalTwice(n / 2, height - 1);
    }
  }

  lemma DigitIs(n: nat, i: nat, q: nat, r: nat)
    requires r < Two(i) && n == q * Two(i) + r
    ensures Digit(n, i) == q % 2
  {
    QuotientIs(n, Two(i), q, r);
  }

  lemma DigitOfHalf(n: nat, i: nat)
    ensures Digit(n, i + 1) == Digit(n / 2, i)
  {
    hide Digit, Two;
    var t := Two(i);
    var q, r := n / 2 / t, n / 2 % t;
    TwoNext(i);
    DivisionIs(n / 2, t);
    DigitIs(n / 2, i, q, r);
    assert q * (2 * t) == 2 * (q * t);
    DigitIs(n, i + 1, q, 2 * r + n % 2);
  }

  lemma TopAndLow(t: nat, u: nat, q: nat, r: nat)
    ensures 2 * (t * u) + (q * t + r) == (2 * u + q) * t + r
  {}

  /** A digit above does not show below. */
  lemma TopDigitAside(top: bool, low: nat, height: nat, i: nat)
    requires low < Two(height) && i < height
    ensures Digit(Top(top, height) + low, i) == Digit(low, i)
  {
    hide Two, Digit;
    if top {
      var t, u := Two(i), Two(height - 1 - i);
      TwoCat(i, height - 1 - i);
      TwoNext(height - 1);
      var q, r := low / t, low % t;
      DivisionIs(low, t);
      TopAndLow(t, u, q, r);
      assert (2 * u + q) % 2 == q % 2;
      DigitIs(low, i, q, r);
      DigitIs(Two(height) + low, i, 2 * u + q, r);
    }
  }

  lemma TopDigitIs(top: bool, low: nat, height: nat)
    requires low < Two(height)
    ensures Digit(Top(top, height) + low, height) == if top then 1 else 0
  {
    DigitIs(Top(top, height) + low, height, if top then 1 else 0, low);
  }

  /** Digit by digit, a reversal is a mirror image. */
  lemma {:induction false} ReversalDigits(n: nat, height: nat, i: nat)
    requires i < height
    ensures Digit(Reversal(n, height), i) == Digit(n, height - 1 - i)
    decreases height
  {
    hide Digit;
    var rest := Reversal(n / 2, height - 1);
    ReversalFits(n / 2, height - 1);
    if i == height - 1 {
      TopDigitIs(n % 2 == 1, rest, height - 1);
      LowestDigit(n);
    } else {
      ReversalDigits(n / 2, height - 1, i);
      DigitOfHalf(n, height - 2 - i);
      TopDigitAside(n % 2 == 1, rest, height - 1, i);
    }
  }

  lemma LowestDigit(n: nat)
    ensures Digit(n, 0) == n % 2
  {
    DigitIs(n, 0, n, 0);
  }

  // ----- machine words -----

  /** A 32-bit word, lowest bit first. */
  type Bits = s: seq<bool> | |s| == 32 witness seq(32, _ => false)

  /** The lowest `size` bits of a number. */
  function BitsOf(n: nat, size: nat): (s: seq<bool>)
    ensures |s| == size
    decreases size
  {
    if size == 0 then [] else [n % 2 == 1] + BitsOf(n / 2, size - 1)
  }

  function U32(n: nat): Bits {
    BitsOf(n, 32)
  }

  function Number(s: seq<bool>): nat {
    if s == [] then 0 else (if s[0] then 1 else 0) + 2 * Number(s[1..])
  }

  function And(a: Bits, b: Bits): Bits {
    seq(32, i requires 0 <= i < 32 => a[i] && b[i])
  }

  function Or(a: Bits, b: Bits): Bits {
    seq(32, i requires 0 <= i < 32 => a[i] || b[i])
  }

  function Shl(a: Bits, k: nat): Bits {
    seq(32, i requires 0 <= i < 32 => i >= k && a[i - k])
  }

  function Shr(a: Bits, k: nat): Bits {
    seq(32, i requires 0 <= i < 32 => i + k < 32 && a[i + k])
  }

  function RotateRight(a: Bits, k: nat): Bits {
    seq(32, i requires 0 <= i < 32 => a[(i + k) % 32])
  }

  // ----- the mask-and-rotate routine -----

  /** Exchanges neighbouring groups of `w` bits, given the masks of the lower and the upper groups. */
  function Exchange(n: Bits, low: Bits, high: Bits, w: nat): Bits {
    Or(Shl(And(n, low), w), Shr(And(n, high), w))
  }

  function Mirrored(n: Bits): Bits {
    var bits := Exchange(n, U32(0x5555_5555), U32(0xaaaa_aaaa), 1);
    var pairs := Exchange(bits, U32(0x3333_3333), U32(0xcccc_cccc), 2);
    var nibbles := Exchange(pairs, U32(0x0f0f_0f0f), U32(0xf0f0_f0f0), 4);
    var bytes := Exchange(nibbles, U32(0x00ff_00ff), U32(0xff00_ff00), 8);
    RotateRight(bytes, 16)
  }

  function BitReverse(n: Bits, bits: nat): Bits
    requires bits <= 32
  {
    Shr(Mirrored(n), (32 - bits) % 32)
  }

  // ----- the masks -----

  /** Groups of `w` bits, every other one set, starting with a set one if `low`. */
  function Groups(w: nat, low: bool): Bits
    requires w > 0
  {
    seq(32, i requires 0 <= i < 32 => ((i / w) % 2 == 0) == low)
  }

  lemma {:induction false} BitsOfCat(lo: nat, hi: nat, t: nat, k: nat, size: nat)
    requires lo < t == Two(k)
    ensures BitsOf(lo + t * hi, k + size) == BitsOf(lo, k) + BitsOf(hi, size)
    decreases k
  {
    if k == 0 {
      assert t * hi == hi;
      assert BitsOf(lo, 0) + BitsOf(hi, size) == BitsOf(hi, size);
    } else {
      var h := Two(k - 1);
      assert t * hi == 2 * (h * hi) by { assert t == 2 * h; }
      assert (lo + t * hi) / 2 == lo / 2 + h * hi && (lo + t * hi) % 2 == lo % 2;
      BitsOfCat(lo / 2, hi, h, k - 1, size);
    }
  }

  lemma Nibbles()
    ensures BitsOf(0x5, 4) == [true, false, true, false] && BitsOf(0xa, 4) == [false, true, false, true]
    ensures BitsOf(0x3, 4) == [true, true, false, false] && BitsOf(0xc, 4) == [false, false, true, true]
    ensures BitsOf(0x0, 4) == [false, false, false, false] && BitsOf(0xf, 4) == [true, true, true, true]
  {}

  lemma Byte(lo: nat, hi: nat)
    requires lo < 16 && hi < 16
    ensures BitsOf(lo + 16 * hi, 8) == BitsOf(lo, 4) + BitsOf(hi, 4)
  {
    hide BitsOf, Two;
    SmallPowers();
    BitsOfCat(lo, hi, 16, 4, 4);
  }

  lemma HalfWord(lo: nat, hi: nat)
    requires lo < 256 && hi < 256
    ensures BitsOf(lo + 256 * hi, 16) == BitsOf(lo, 8) + BitsOf(hi, 8)
  {
    hide BitsOf, Two;
    SmallPowers();
    BitsOfCat(lo, hi, 256, 8, 8);
  }

  lemma TwiceHalf(half: nat)
    requires half < 0x1_0000
    ensures U32(half + 0x1_0000 * half) == BitsOf(half, 16) + BitsOf(half, 16)
  {
    hide BitsOf, Two;
    SmallPowers();
    BitsOfCat(half, half, 0x1_0000, 16, 16);
  }

  lemma MaskOfNibble(n: nat)
    requires n < 16
    ensures var b := BitsOf(n, 4);
      U32(n * 0x1111_1111) == b + b + b + b + b + b + b + b
  {
    hide BitsOf, U32;
    var byte := n + 16 * n;
    Byte(n, n);
    HalfWord(byte, byte);
    TwiceHalf(byte + 256 * byte);
  }

  lemma MaskOfBytes(lo: nat, hi: nat)
    requires lo < 16 && hi < 16
    ensures var a, b := BitsOf(lo, 4), BitsOf(hi, 4);
      && U32(lo * 0x0101_0101 + hi * 0x1010_1010) == a + b + a + b + a + b + a + b
      && U32(lo * 0x0011_0011 + hi * 0x1100_1100) == a + a + b + b + a + a + b + b
  {
    hide BitsOf, U32;
    Byte(lo, hi);
    var byte := lo + 16 * hi;
    HalfWord(byte, byte);
    TwiceHalf(byte + 256 * byte);
    Byte(lo, lo);
    Byte(hi, hi);
    HalfWord(lo + 16 * lo, hi + 16 * hi);
    TwiceHalf(lo + 16 * lo + 256 * (hi + 16 * hi));
  }

  lemma LowMaskOne()
    ensures U32(0x5555_5555) == Groups(1, true)
  {
    hide BitsOf, U32;
    Nibbles();
    MaskOfNibble(0x5);
  }

  lemma HighMaskOne()
    ensures U32(0xaaaa_aaaa) == Groups(1, false)
  {
    hide BitsOf, U32;
    Nibbles();
    MaskOfNibble(0xa);
  }

  lemma LowMaskTwo()
    ensures U32(0x3333_3333) == Groups(2, true)
  {
    hide BitsOf, U32;
    Nibbles();
    MaskOfNibble(0x3);
  }

  lemma HighMaskTwo()
    ensures U32(0xcccc_cccc) == Groups(2, false)
  {
    hide BitsOf, U32;
    Nibbles();
    MaskOfNibble(0xc);
  }

  lemma LowMaskFour()
    ensures U32(0x0f0f_0f0f) == Groups(4, true)
  {
    hide BitsOf, U32;
    Nibbles();
    MaskOfBytes(0xf, 0x0);
  }

  lemma HighMaskFour()
    ensures U32(0xf0f0_f0f0) == Groups(4, false)
  {
    hide BitsOf, U32;
    Nibbles();
    MaskOfBytes(0x0, 0xf);
  }

  lemma LowMaskEight()
    ensures U32(0x00ff_00ff) == Groups(8, true)
  {
    hide BitsOf, U32;
    Nibbles();
    MaskOfBytes(0xf, 0x0);
  }

  lemma HighMaskEight()
    ensures U32(0xff00_ff00) == Groups(8, false)
  {
    hide BitsOf, U32;
    Nibbles();
    MaskOfBytes(0x0, 0xf);
  }

  // ----- the routine computes the reversal -----

  /** The position in the neighbouring group of `w` bits. */
  function Partner(i: nat, w: nat): (j: nat)
    requires w > 0
  {
    if (i / w) % 2 == 0 then i + w else Less(i, w)
  }

  function Less(i: nat, w: nat): nat {
    if i < w then 0 else i - w
  }

  lemma ExchangedOne(n: Bits, i: nat)
    requires i < 32
    ensures Partner(i, 1) < 32 && Exchange(n, Groups(1, true), Groups(1, false), 1)[i] == n[Partner(i, 1)]
  {}

  lemma ExchangedTwo(n: Bits, i: nat)
    requires i < 32
    ensures Partner(i, 2) < 32 && Exchange(n, Groups(2, true), Groups(2, false), 2)[i] == n[Partner(i, 2)]
  {}

  lemma ExchangedFour(n: Bits, i: nat)
    requires i < 32
    ensures Partner(i, 4) < 32 && Exchange(n, Groups(4, true), Groups(4, false), 4)[i] == n[Partner(i, 4)]
  {}

  lemma ExchangedEight(n: Bits, i: nat)
    requires i < 32
    ensures Partner(i, 8) < 32 && Exchange(n, Groups(8, true), Groups(8, false), 8)[i] == n[Partner(i, 8)]
  {}

  lemma TurnsEight(i: nat)
    requires i < 32
    ensures Partner((i + 16) % 32, 8) == (3 - i / 8) * 8 + i % 8
  {}

  lemma TurnsFour(i: nat)
    requires i < 32
    ensures Partner((3 - i / 8) * 8 + i % 8, 4) == (7 - i / 4) * 4 + i % 4
  {}

  lemma TurnsTwo(i: nat)
    requires i < 32
    ensures Partner((7 - i / 4) * 4 + i % 4, 2) == (15 - i / 2) * 2 + i % 2
  {}

  lemma TurnsOne(i: nat)
    requires i < 32
    ensures Partner((15 - i / 2) * 2 + i % 2, 1) == 31 - i
  {}

  /** The routine turns a word around. */
  lemma MirroredAt(n: Bits, i: nat)
    requires i < 32
    ensures Mirrored(n)[i] == n[31 - i]
  {
    hide Exchange, U32, Groups, Partner;
    LowMaskOne();
    HighMaskOne();
    LowMaskTwo();
    HighMaskTwo();
    LowMaskFour();
    HighMaskFour();
    LowMaskEight();
    HighMaskEight();
    var bits := Exchange(n, U32(0x5555_5555), U32(0xaaaa_aaaa), 1);
    var pairs := Exchange(bits, U32(0x3333_3333), U32(0xcccc_cccc), 2);
    var nibbles := Exchange(pairs, U32(0x0f0f_0f0f), U32(0xf0f0_f0f0), 4);
    ExchangedEight(nibbles, (i + 16) % 32);
    TurnsEight(i);
    ExchangedFour(pairs, (3 - i / 8) * 8 + i % 8);
    TurnsFour(i);
    ExchangedTwo(bits, (7 - i / 4) * 4 + i % 4);
    TurnsTwo(i);
    ExchangedOne(n, (15 - i / 2) * 2 + i % 2);
    TurnsOne(i);
  }

  lemma {:induction false} NumberSnoc(s: seq<bool>, b: bool)
    ensures Number(s + [b]) == Number(s) + Top(b, |s|)
    decreases |s|
  {
    if s != [] {
      assert (s + [b])[1..] == s[1..] + [b];
      NumberSnoc(s[1..], b);
    }
  }

  lemma {:induction false} NumberPadded(s: seq<bool>, zeros: seq<bool>)
    requires forall i :: 0 <= i < |zeros| ==> !zeros[i]
    ensures Number(s + zeros) == Number(s)
    decreases |s| + |zeros|
  {
    if s == [] {
      assert s + zeros == zeros;
      if zeros != [] {
        assert [] + zeros[1..] == zeros[1..];
        NumberPadded([], zeros[1..]);
      }
    } else {
      assert (s + zeros)[1..] == s[1..] + zeros;
      NumberPadded(s[1..], zeros);
    }
  }

  lemma {:induction false} BitsOfPrefix(n: nat, size: nat, k: nat)
    requires k <= size
    ensures BitsOf(n, size)[..k] == BitsOf(n, k)
    decreases k
  {
    if k > 0 {
      BitsOfPrefix(n / 2, size - 1, k - 1);
      assert BitsOf(n, size)[..k] == [n % 2 == 1] + BitsOf(n / 2, size - 1)[..k - 1];
    }
  }

  lemma {:induction false} NumberReversed(n: nat, height: nat)
    ensures Number(Machine.Rev(BitsOf(n, height))) == Reversal(n, height)
    decreases height
  {
    if height > 0 {
      var rest := BitsOf(n / 2, height - 1);
      NumberReversed(n / 2, height - 1);
      assert Machine.Rev(BitsOf(n, height)) == Machine.Rev(rest) + [n % 2 == 1];
      NumberSnoc(Machine.Rev(rest), n % 2 == 1);
    }
  }

  /** The position that the routine computes for position `k`. */
  function ReverseIndex(k: nat, height: nat): nat
    requires height <= 32
  {
    Number(BitReverse(U32(k), height))
  }

  /** The mask-and-rotate routine is a true reversal of the lowest `height` bits. */
  lemma ReverseIndexIsReversal(k: nat, height: nat)
    requires 1 <= height <= 32
    ensures ReverseIndex(k, height) == Reversal(k, height)
  {
    hide Mirrored, Reversal, Number, BitsOf;
    var low := BitsOf(k, height);
    var zeros := seq(32 - height, _ => false);
    BitsOfPrefix(k, 32, height);
    forall i | 0 <= i < 32
      ensures BitReverse(U32(k), height)[i] == (Machine.Rev(low) + zeros)[i]
    {
      if i < height {
        MirroredAt(U32(k), i + (32 - height));
        assert U32(k)[..height][height - 1 - i] == U32(k)[height - 1 - i];
      }
    }
    assert BitReverse(U32(k), height) == Machine.Rev(low) + zeros;
    NumberPadded(Machine.Rev(low), zeros);
    NumberReversed(k, height);
  }
}
