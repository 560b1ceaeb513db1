/** Residues modulo the field prime, and the machine's random-access memory. */
module Words {

  /** 2^64 - 2^32 + 1. */
  const P: int := 0xFFFF_FFFF_0000_0001

  type Word = x: int | 0 <= x < P

  /** The address `i` cells above `a`; addresses wrap around at P. */
  function At(a: int, i: int): (w: Word) {
    (a + i) % P
  }

  /** How far above `base` the address `x` lies, going upwards around the ring. */
  function Off(base: int, x: int): (w: Word) {
    (x - base) % P
  }

  lemma AtAt(a: int, i: int, j: int)
    ensures At(At(a, i), j) == At(a, i + j)
  {}

  lemma AtOff(base: Word, x: Word)
    ensures At(base, Off(base, x)) == x
  {}

  lemma OffAt(base: Word, i: int)
    requires 0 <= i < P
    ensures Off(base, At(base, i)) == i
  {}

  lemma OffShift(base: Word, x: Word, k: int)
    requires 0 <= k < P
    ensures Off(At(base, k), x) == if Off(base, x) >= k then Off(base, x) - k else Off(base, x) - k + P
  {}

  lemma DropMultiple(a: int, k: int)
    ensures (P * k + a) % P == a % P
  {}

  // ----- memory -----

  /** Only nonzero cells are stored, so equality of maps is equality at every address. */
  type Ram = m: map<Word, Word> | forall a :: a in m ==> m[a] != 0 witness map[]

  function Read(ram: Ram, a: Word): (v: Word) {
    if a in ram then ram[a] else 0
  }

  function Write(ram: Ram, a: Word, v: Word): Ram {
    if v == 0 then ram - {a} else ram[a := v]
  }

  lemma ReadWrite(ram: Ram, a: Word, v: Word, x: Word)
    ensures Read(Write(ram, a, v), x) == if x == a then v else Read(ram, x)
  {}

  /** Stores `vals` at `a`, `a + 1`, ... in order. */
  function WriteUp(ram: Ram, a: Word, vals: seq<Word>): Ram
    decreases |vals|
  {
    if vals == [] then ram else WriteUp(Write(ram, a, vals[0]), At(a, 1), vals[1..])
  }

  /** The cells RAM[a], ..., RAM[a + n - 1], in that order. */
  function Cells(ram: Ram, a: int, n: nat): (r: seq<Word>)
    ensures |r| == n
  {
    seq(n, i requires 0 <= i < n => Read(ram, At(a, i)))
  }

  function Zeros(n: nat): (r: seq<Word>)
    ensures |r| == n
  {
    seq(n, _ => 0)
  }

  lemma SameRam(r: Ram, q: Ram)
    requires forall x: Word :: Read(r, x) == Read(q, x)
    ensures r == q
  {
    forall x: Word
      ensures x in r <==> x in q
      ensures x in r ==> r[x] == q[x]
    {
      assert Read(r, x) == Read(q, x);
    }
  }

  lemma AtNone(a: Word)
    ensures At(a, 0) == a
  {}

  lemma OffNone(a: Word)
    ensures Off(a, a) == 0
  {}

  /** A block write reaches exactly the `|vals|` cells from `a` upwards, each in its place. */
  lemma {:induction false} ReadWriteUp(ram: Ram, a: Word, vals: seq<Word>, x: Word)
    requires |vals| <= P
    ensures Read(WriteUp(ram, a, vals), x) == if Off(a, x) < |vals| then vals[Off(a, x)] else Read(ram, x)
    decreases |vals|
  {
    if vals != [] {
      hide At, Off, Write, Read;
      OffShift(a, x, 1);
      AtOff(a, x);
      AtNone(a);
      OffNone(a);
      ReadWrite(ram, a, vals[0], x);
      ReadWriteUp(Write(ram, a, vals[0]), At(a, 1), vals[1..], x);
    }
  }

  lemma ReadWriteUpTwice(ram: Ram, a: Word, u: seq<Word>, b: Word, v: seq<Word>, x: Word)
    requires b == At(a, |u|) && |u| + |v| <= P && |u| < P
    ensures Read(WriteUp(WriteUp(ram, a, u), b, v), x) == Read(WriteUp(ram, a, u + v), x)
  {
    ReadWriteUp(WriteUp(ram, a, u), b, v, x);
    ReadWriteUp(ram, a, u, x);
    ReadWriteUp(ram, a, u + v, x);
    OffShift(a, x, |u|);
  }

  /** Two adjacent block writes are one. */
  lemma WriteUpCat(ram: Ram, a: Word, u: seq<Word>, b: Word, v: seq<Word>)
    requires b == At(a, |u|) && |u| + |v| <= P && |u| < P
    ensures WriteUp(WriteUp(ram, a, u), b, v) == WriteUp(ram, a, u + v)
  {
    forall x: Word
      ensures Read(WriteUp(WriteUp(ram, a, u), b, v), x) == Read(WriteUp(ram, a, u + v), x)
    {
      ReadWriteUpTwice(ram, a, u, b, v, x);
    }
    SameRam(WriteUp(WriteUp(ram, a, u), b, v), WriteUp(ram, a, u + v));
  }

  predicate ZeroRun(ram: Ram, a: int, n: nat) {
    forall i :: 0 <= i < n ==> Read(ram, At(a, i)) == 0
  }

  /** `n` zero cells from `a` upwards, none of them beyond the last address. */
  ghost predicate RunAt(ram: Ram, a: nat, n: nat) {
    a + n <= P && ZeroRun(ram, a, n)
  }

  /** Memory has `n` consecutive zero cells. */
  ghost predicate HasRoom(ram: Ram, n: nat) {
    exists a: nat :: RunAt(ram, a, n)
  }

  /** Reading back a block just written. */
  lemma CellsWriteUp(ram: Ram, a: Word, vals: seq<Word>)
    requires |vals| <= P
    ensures Cells(WriteUp(ram, a, vals), a, |vals|) == vals
  {
    forall i | 0 <= i < |vals|
      ensures Read(WriteUp(ram, a, vals), At(a, i)) == vals[i]
    {
      ReadWriteUp(ram, a, vals, At(a, i));
      OffAt(a, i);
    }
  }

  /** Whatever was stored over a run of zero cells, zeroing the run restores the memory. */
  lemma ClearRestores(ram: Ram, a: Word, vals: seq<Word>)
    requires |vals| <= P && ZeroRun(ram, a, |vals|)
    ensures WriteUp(WriteUp(ram, a, vals), a, Zeros(|vals|)) == ram
  {
    var dirty := WriteUp(ram, a, vals);
    forall x: Word
      ensures Read(WriteUp(dirty, a, Zeros(|vals|)), x) == Read(ram, x)
    {
      ReadWriteUp(dirty, a, Zeros(|vals|), x);
      ReadWriteUp(ram, a, vals, x);
      AtOff(a, x);
    }
    SameRam(WriteUp(dirty, a, Zeros(|vals|)), ram);
  }
}
