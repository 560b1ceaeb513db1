/** The generated checker accepts a witness exactly when the witness satisfies the constraint system. */
module CcsSound {
  import opened Words
  import opened Machine
  import opened Control
  import opened Legalize
  import opened Scanning
  import opened Storing
  import opened Ccs

  // ----- the relation, over the integers -----

  /** The inner product of a matrix row with the witness. */
  function Inner(row: seq<(nat, Word)>, w: seq<Word>): int
    requires InColumns(row, |w|)
    decreases |row|
  {
    if row == [] then 0
    else
      assert forall k :: 0 <= k < |row[1..]| ==> row[1..][k] == row[k + 1];
      row[0].1 * w[row[0].0] + Inner(row[1..], w)
  }

  /** The inner product of row `row` of matrix `m`. */
  function RowProduct(c: Instance, m: nat, row: nat, w: seq<Word>): int
    requires WellFormed(c) && m < |c.matrices| && row < c.rows && |w| == c.cols
  {
    assert MatrixFits(c.matrices[m], c);
    Inner(c.matrices[m].entries[row], w)
  }

  /** The product of the named matrices' row products. */
  function Product(c: Instance, factors: seq<nat>, row: nat, w: seq<Word>): int
    requires WellFormed(c) && MultisetFits(factors, c) && row < c.rows && |w| == c.cols
    decreases |factors|
  {
    if factors == [] then 1
    else
      assert MultisetFits(factors[1..], c);
      RowProduct(c, factors[0], row, w) * Product(c, factors[1..], row, w)
  }

  /** The coefficient-weighted sum of the products, from term `k` on. */
  function Residual(c: Instance, k: nat, row: nat, w: seq<Word>): int
    requires WellFormed(c) && |c.multisets| == |c.coeffs| && row < c.rows && |w| == c.cols
    decreases |c.multisets| - k
  {
    if k >= |c.multisets| then 0
    else c.coeffs[k] * Product(c, c.multisets[k], row, w) + Residual(c, k + 1, row, w)
  }

  ghost predicate Satisfies(c: Instance, public_: seq<(nat, nat)>, input: seq<Word>, w: seq<Word>)
    requires WellFormed(c) && |c.multisets| == |c.coeffs| && |w| == c.cols && c.cols > 0
    requires forall i :: 0 <= i < |public_| ==> public_[i].0 < c.cols
  {
    && w[0] == 1
    && |public_| <= |input| && (forall i :: 0 <= i < |public_| ==> w[public_[i].0] == input[i])
    && forall row :: 0 <= row < c.rows ==> Residual(c, 0, row, w) % P == 0
  }

  // ----- arithmetic modulo P -----

  lemma ModTimes(a: int, b: int)
    ensures ((a % P) * (b % P)) % P == (a * b) % P
  {
    var q, r := a / P, b / P;
    assert a == P * q + a % P && b == P * r + b % P;
    Expand(q, a % P, r, b % P);
    DropMultiple((a % P) * (b % P), P * q * r + q * (b % P) + r * (a % P));
  }

  lemma Expand(q: int, x: int, r: int, y: int)
    ensures (P * q + x) * (P * r + y) == P * (P * q * r + q * y + r * x) + x * y
  {}

  lemma ModPlus(a: int, b: int)
    ensures (a % P + b % P) % P == (a + b) % P
  {}

  // ----- pieces of code -----

  /** Memory holds the witness in its first cells. */
  ghost predicate Holds(ram: Ram, w: seq<Word>) {
    forall i :: 0 <= i < |w| && i < P ==> Read(ram, i) == w[i]
  }

  lemma ReadsCell(s: State, a: nat)
    requires a < P
    ensures Exec(ReadCode(a), s) == Some(WithStack(s, [Read(s.ram, a)] + s.stack))
  {
    hide Basic, Exec, Read, Cells, At;
    var v := Read(s.ram, a);
    OnPush(s, Lit(a));
    assert Lit(a) == a;
    var s1 := WithStack(s, [a] + s.stack);
    OnReadMem(s1, a, 1, s.stack);
    OneCell(s.ram, a);
    var s2 := WithStack(s, [At(a, -1)] + ([v] + s.stack));
    OnPop(s2, At(a, -1), [v] + s.stack);
    Chain3(Instr.Push(Lit(a)), Instr.ReadMem(1), Instr.Pop(1), s, s1, s2, WithStack(s, [v] + s.stack));
  }

  lemma MentionsNothing(s: State, x: nat)
    ensures Exec(Mentioned(x), s) == Some(s)
  {
    hide Basic, Exec;
    OnPush(s, Lit(x));
    var s1 := WithStack(s, [Lit(x)] + s.stack);
    OnPop(s1, Lit(x), s.stack);
    Chain2(Instr.Push(Lit(x)), Instr.Pop(1), s, s1, s);
  }

  lemma {:induction false} BindsNothing(s: State, binding: seq<nat>)
    ensures Exec(BindingCode(binding), s) == Some(s)
    decreases |binding|
  {
    hide Basic, Mentioned, Limb;
    if binding != [] {
      var n := Least(|binding|, 4);
      MentionsNothing(s, Limb(binding[..n]));
      BindsNothing(s, binding[n..]);
      ChainCat(Mentioned(Limb(binding[..n])), BindingCode(binding[n..]), s, s, s);
    }
  }

  lemma HeadDoesNothing(s: State, binding: seq<nat>)
    ensures Exec(HeadCode(binding), s) == Some(s)
  {
    hide Basic, Exec, Mentioned, BindingCode;
    MentionsNothing(s, 1);
    MentionsNothing(s, |binding|);
    BindsNothing(s, binding);
    ChainCat(Mentioned(1), Mentioned(|binding|), s, s, s);
    ChainCat(Mentioned(1) + Mentioned(|binding|), BindingCode(binding), s, s, s);
  }

  lemma LoadsColumn(s: State, column: nat)
    requires column < P && s.secret != []
    ensures Exec(ColumnCode(column), s) == Some(s.(ram := WriteUp(s.ram, column, [s.secret[0]]), secret := s.secret[1..]))
  {
    hide Basic, Exec, WriteUp, StoreCode;
    OnDivine(s);
    var s1 := s.(stack := [s.secret[0]] + s.stack, secret := s.secret[1..]);
    Exec1(Instr.Divine(1), s);
    Stores(s1, column, s.secret[0], s.stack);
    ChainCat([Instr.Divine(1)], StoreCode(column), s, s1, s1.(stack := s.stack, ram := WriteUp(s.ram, column, [s.secret[0]])));
    assert ColumnCode(column) == [Instr.Divine(1)] + StoreCode(column) by { ColumnParts(column); }
  }

  lemma ColumnParts(column: nat)
    ensures ColumnCode(column) == [Instr.Divine(1)] + StoreCode(column)
  {}

  /** All columns are read from the private input into memory. */
  lemma {:induction false} LoadsColumns(s: State, from: nat, end: nat) returns (t: State)
    requires from <= end < P && |s.secret| >= end - from
    ensures Exec(ColumnsCode(from, end), s) == Some(t)
    ensures t.stack == s.stack && t.input == s.input && t.output == s.output
    ensures forall a: Word :: Read(t.ram, a) == if from <= a < end then s.secret[a - from] else Read(s.ram, a)
    decreases end - from
  {
    hide Basic, Read;
    if from >= end {
      t := s;
    } else {
      hide Exec, ColumnCode, WriteUp;
      var s1 := s.(ram := WriteUp(s.ram, from, [s.secret[0]]), secret := s.secret[1..]);
      LoadsColumn(s, from);
      t := LoadsColumns(s1, from + 1, end);
      ChainCat(ColumnCode(from), ColumnsCode(from + 1, end), s, s1, t);
      forall a: Word
        ensures Read(t.ram, a) == if from <= a < end then s.secret[a - from] else Read(s.ram, a)
      {
        ReadStored(s.ram, from, s.secret[0], a);
      }
    }
  }

  /** `eq; assert` after two pushed words. */
  lemma AssertsEqual(s: State, x: Word, y: Word, rest: seq<Word>)
    requires s.stack == [x] + ([y] + rest)
    ensures Exec([Eq, Assert], s) == if x == y then Some(WithStack(s, rest)) else None
  {
    hide Basic, Exec;
    OnBinary(Eq, s, x, y, rest, Bit(x == y));
    var s1 := WithStack(s, [Bit(x == y)] + rest);
    OnAssert(s1, Bit(x == y), rest);
    Exec1(Eq, s);
    Exec1(Assert, s1);
    ExecCat([Eq], [Assert], s);
    assert [Eq, Assert] == [Eq] + [Assert];
  }

  lemma ChecksConstant(s: State, x: Word, k: Word, rest: seq<Word>)
    requires s.stack == [x] + rest
    ensures Exec([Instr.Push(k), Eq, Assert], s) == if k == x then Some(WithStack(s, rest)) else None
  {
    hide Basic, Exec;
    OnPush(s, k);
    Exec1(Instr.Push(k), s);
    var s1 := WithStack(s, [k] + ([x] + rest));
    AssertsEqual(s1, k, x, rest);
    ExecCat([Instr.Push(k)], [Eq, Assert], s);
    assert [Instr.Push(k), Eq, Assert] == [Instr.Push(k)] + [Eq, Assert];
  }

  lemma ChecksOne(s: State)
    ensures Exec(OneCheck(), s) == if Read(s.ram, 0) == 1 then Some(s) else None
  {
    hide Basic, Exec, ReadCode, Read;
    var v := Read(s.ram, 0);
    ReadsCell(s, 0);
    var s1 := WithStack(s, [v] + s.stack);
    ChecksConstant(s1, v, 1, s.stack);
    ExecCat(ReadCode(0), [Instr.Push(1), Eq, Assert], s);
  }

  lemma ReadsInput(s: State)
    ensures Basic(Instr.ReadIo(1), s) == if s.input == [] then None else Some(s.(stack := [s.input[0]] + s.stack, input := s.input[1..]))
  {
    if s.input != [] {
      assert Rev(s.input[..1]) == [s.input[0]];
    }
  }

  lemma ChecksPublicOne(s: State, column: nat)
    requires column < P
    ensures Exec(ReadCode(column) + [Instr.ReadIo(1), Eq, Assert], s)
         == if s.input != [] && s.input[0] == Read(s.ram, column) then Some(s.(input := s.input[1..])) else None
  {
    hide Basic, Exec, ReadCode, Read;
    var v := Read(s.ram, column);
    ReadsCell(s, column);
    var s1 := WithStack(s, [v] + s.stack);
    ReadsInput(s1);
    Exec1(Instr.ReadIo(1), s1);
    ExecCat(ReadCode(column), [Instr.ReadIo(1), Eq, Assert], s);
    ExecCat([Instr.ReadIo(1)], [Eq, Assert], s1);
    assert [Instr.ReadIo(1), Eq, Assert] == [Instr.ReadIo(1)] + [Eq, Assert];
    if s.input != [] {
      var s2 := s1.(stack := [s.input[0]] + ([v] + s.stack), input := s.input[1..]);
      AssertsEqual(s2, s.input[0], v, s.stack);
    }
  }

  ghost predicate PublicMatches(public_: seq<(nat, nat)>, input: seq<Word>, w: seq<Word>)
    requires forall i :: 0 <= i < |public_| ==> public_[i].0 < |w|
  {
    |public_| <= |input| && forall i :: 0 <= i < |public_| ==> w[public_[i].0] == input[i]
  }

  lemma {:induction false} ChecksPublic(s: State, public_: seq<(nat, nat)>, w: seq<Word>)
    requires |w| < P && Holds(s.ram, w) && forall i :: 0 <= i < |public_| ==> public_[i].0 < |w|
    ensures Exec(PublicCode(public_), s)
         == if PublicMatches(public_, s.input, w) then Some(s.(input := s.input[|public_|..])) else None
    decreases |public_|
  {
    hide Basic, ReadCode, Read;
    if public_ != [] {
      var front := ReadCode(public_[0].0) + [Instr.ReadIo(1), Eq, Assert];
      ChecksPublicOne(s, public_[0].0);
      ExecCat(front, PublicCode(public_[1..]), s);
      if s.input != [] && s.input[0] == w[public_[0].0] {
        var s1 := s.(input := s.input[1..]);
        ChecksPublic(s1, public_[1..], w);
        PublicStep(public_, s.input, w);
        if |public_| <= |s.input| {
          assert s.input[1..][|public_| - 1..] == s.input[|public_|..];
        }
      }
    }
  }

  lemma PublicStep(public_: seq<(nat, nat)>, input: seq<Word>, w: seq<Word>)
    requires public_ != [] && input != [] && forall i :: 0 <= i < |public_| ==> public_[i].0 < |w|
    requires input[0] == w[public_[0].0]
    ensures PublicMatches(public_, input, w) <==> PublicMatches(public_[1..], input[1..], w)
  {
    if PublicMatches(public_[1..], input[1..], w) {
      forall i | 0 <= i < |public_| ensures w[public_[i].0] == input[i] {
        if i > 0 {
          assert w[public_[1..][i - 1].0] == input[1..][i - 1];
        }
      }
    }
  }

  // ----- one row -----

  lemma AddsEntry(s: State, entry: (nat, Word), acc: int, w: seq<Word>, rest: seq<Word>)
    requires |w| < P && Holds(s.ram, w) && entry.0 < |w| && s.stack == [acc % P] + rest
    ensures Exec(EntryCode(entry), s) == Some(WithStack(s, [(acc + entry.1 * w[entry.0]) % P] + rest))
  {
    hide Basic, Exec, ReadCode, Read;
    var x, c := w[entry.0], entry.1;
    ReadsCell(s, entry.0);
    var s1 := WithStack(s, [x] + ([acc % P] + rest));
    OnPush(s1, c);
    var s2 := WithStack(s, [c] + ([x] + ([acc % P] + rest)));
    var p := (c * x) % P;
    OnBinary(Mul, s2, c, x, [acc % P] + rest, p);
    var s3 := WithStack(s, [p] + ([acc % P] + rest));
    ModPlus(c * x, acc);
    OnBinary(Add, s3, p, acc % P, rest, (acc + c * x) % P);
    Chain3(Instr.Push(c), Mul, Add, s1, s2, s3, WithStack(s, [(acc + c * x) % P] + rest));
    ChainCat(ReadCode(entry.0), [Instr.Push(c), Mul, Add], s, s1, WithStack(s, [(acc + c * x) % P] + rest));
  }

  lemma {:induction false} AddsEntries(s: State, row: seq<(nat, Word)>, acc: int, w: seq<Word>, rest: seq<Word>)
    requires |w| < P && Holds(s.ram, w) && InColumns(row, |w|) && s.stack == [acc % P] + rest
    ensures Exec(EntriesCode(row), s) == Some(WithStack(s, [(acc + Inner(row, w)) % P] + rest))
    decreases |row|
  {
    hide Basic, EntryCode, Holds;
    if row != [] {
      assert InColumns(row[1..], |w|) by {
        assert forall k :: 0 <= k < |row[1..]| ==> row[1..][k] == row[k + 1];
      }
      var acc1: int := acc + (row[0].1 as int) * w[row[0].0];
      var s1 := WithStack(s, [acc1 % P] + rest);
      AddsEntry(s, row[0], acc, w, rest);
      AddsEntries(s1, row[1..], acc1, w, rest);
      ChainCat(EntryCode(row[0]), EntriesCode(row[1..]), s, s1, WithStack(s, [(acc1 + Inner(row[1..], w)) % P] + rest));
    }
  }

  /** The row products so far lie behind the witness. */
  ghost predicate ProductsStored(c: Instance, row: nat, w: seq<Word>, ram: Ram, m: nat)
    requires WellFormed(c) && row < c.rows && |w| == c.cols && m <= |c.matrices|
  {
    c.cols + |c.matrices| < P
    && forall i :: 0 <= i < m ==> Read(ram, c.cols + i) == RowProduct(c, i, row, w) % P
  }

  lemma ComputesMatrix(c: Instance, m: nat, row: nat, w: seq<Word>, s: State)
    requires WellFormed(c) && m < |c.matrices| && row < c.rows && |w| == c.cols && c.cols + |c.matrices| < P
    requires Holds(s.ram, w)
    ensures Exec(MatrixCode(c, m, row), s) == Some(s.(ram := WriteUp(s.ram, c.cols + m, [RowProduct(c, m, row, w) % P])))
  {
    hide Basic, Exec, EntriesCode, StoreCode, WriteUp, Holds, Inner;
    assert MatrixFits(c.matrices[m], c);
    var entries := c.matrices[m].entries[row];
    var x := RowProduct(c, m, row, w);
    OnPush(s, 0);
    Exec1(Instr.Push(0), s);
    var s1 := WithStack(s, [0 % P] + s.stack);
    AddsEntries(s1, entries, 0, w, s.stack);
    var s2 := WithStack(s, [(0 + x) % P] + s.stack);
    ChainCat([Instr.Push(0)], EntriesCode(entries), s, s1, s2);
    Stores(s2, c.cols + m, x % P, s.stack);
    ChainCat([Instr.Push(0)] + EntriesCode(entries), StoreCode(c.cols + m), s, s2, s2.(stack := s.stack, ram := WriteUp(s.ram, c.cols + m, [x % P])));
  }

  lemma StoreKeeps(ram: Ram, w: seq<Word>, a: Word, x: Word)
    requires Holds(ram, w) && |w| <= a
    ensures Holds(WriteUp(ram, a, [x]), w)
  {
    hide WriteUp, Read;
    forall i | 0 <= i < |w| && i < P
      ensures Read(WriteUp(ram, a, [x]), i) == w[i]
    {
      ReadStored(ram, a, x, i);
    }
  }

  lemma {:induction false} ComputesMatrices(c: Instance, m: nat, row: nat, w: seq<Word>, s: State) returns (t: State)
    requires WellFormed(c) && m <= |c.matrices| && row < c.rows && |w| == c.cols
    requires Holds(s.ram, w) && ProductsStored(c, row, w, s.ram, m)
    ensures Exec(MatricesCode(c, m, row), s) == Some(t) && t == s.(ram := t.ram)
    ensures Holds(t.ram, w) && ProductsStored(c, row, w, t.ram, |c.matrices|)
    decreases |c.matrices| - m
  {
    hide Basic, MatrixCode, Holds, RowProduct, Read;
    if m == |c.matrices| {
      t := s;
    } else {
      var a: Word := c.cols + m;
      var x: Word := RowProduct(c, m, row, w) % P;
      var s1 := s.(ram := WriteUp(s.ram, a, [x]));
      ComputesMatrix(c, m, row, w, s);
      StoreKeeps(s.ram, w, a, x);
      forall i | 0 <= i < m + 1
        ensures Read(s1.ram, c.cols + i) == RowProduct(c, i, row, w) % P
      {
        ReadStored(s.ram, a, x, c.cols + i);
      }
      hide WriteUp, Exec;
      t := ComputesMatrices(c, m + 1, row, w, s1);
      ChainCat(MatrixCode(c, m, row), MatricesCode(c, m + 1, row), s, s1, t);
    }
  }

  lemma {:induction false} Multiplies(c: Instance, factors: seq<nat>, row: nat, w: seq<Word>, s: State, acc: int, rest: seq<Word>)
    requires WellFormed(c) && MultisetFits(factors, c) && row < c.rows && |w| == c.cols
    requires ProductsStored(c, row, w, s.ram, |c.matrices|) && s.stack == [acc % P] + rest
    ensures Exec(FactorsCode(c, factors), s) == Some(WithStack(s, [(acc * Product(c, factors, row, w)) % P] + rest))
    decreases |factors|
  {
    hide Basic, ReadCode, Read, RowProduct;
    if factors == [] {
    } else {
      hide Exec;
      assert MultisetFits(factors[1..], c);
      var x := RowProduct(c, factors[0], row, w);
      ReadsCell(s, c.cols + factors[0]);
      var s1 := WithStack(s, [x % P] + ([acc % P] + rest));
      ModTimes(x, acc);
      var s2 := WithStack(s, [(acc * x) % P] + rest);
      assert (x % P) * (acc % P) % P == (acc * x) % P;
      OnBinary(Mul, s1, x % P, acc % P, rest, (acc * x) % P);
      Exec1(Mul, s1);
      ChainCat(ReadCode(c.cols + factors[0]), [Mul], s, s1, s2);
      Multiplies(c, factors[1..], row, w, s2, acc * x, rest);
      var y := Product(c, factors[1..], row, w);
      assert (acc * x) * y == acc * (x * y);
      ChainCat(ReadCode(c.cols + factors[0]) + [Mul], FactorsCode(c, factors[1..]), s, s2, WithStack(s, [((acc * x) * y) % P] + rest));
    }
  }

  lemma {:induction false} SumsTerms(c: Instance, k: nat, row: nat, w: seq<Word>, s: State, acc: int, rest: seq<Word>)
    requires WellFormed(c) && |c.multisets| == |c.coeffs| && row < c.rows && |w| == c.cols
    requires ProductsStored(c, row, w, s.ram, |c.matrices|) && s.stack == [acc % P] + rest
    ensures Exec(TermsCode(c, k), s) == Some(WithStack(s, [(acc + Residual(c, k, row, w)) % P] + rest))
    decreases |c.multisets| - k
  {
    hide Basic, FactorsCode, Product, ProductsStored, MultisetFits;
    if k < |c.multisets| {
      hide Exec;
      assert MultisetFits(c.multisets[k], c);
      var q := c.coeffs[k];
      var x := Product(c, c.multisets[k], row, w);
      OnPush(s, q);
      Exec1(Instr.Push(q), s);
      assert q % P == q;
      var s1 := WithStack(s, [q % P] + ([acc % P] + rest));
      Multiplies(c, c.multisets[k], row, w, s1, q, [acc % P] + rest);
      var s2 := WithStack(s, [(q * x) % P] + ([acc % P] + rest));
      ChainCat([Instr.Push(q)], FactorsCode(c, c.multisets[k]), s, s1, s2);
      ModPlus(q * x, acc);
      var s3 := WithStack(s, [(acc + q * x) % P] + rest);
      OnBinary(Add, s2, (q * x) % P, acc % P, rest, (acc + q * x) % P);
      Exec1(Add, s2);
      ChainCat([Instr.Push(q)] + FactorsCode(c, c.multisets[k]), [Add], s, s2, s3);
      SumsTerms(c, k + 1, row, w, s3, acc + q * x, rest);
      ChainCat([Instr.Push(q)] + FactorsCode(c, c.multisets[k]) + [Add], TermsCode(c, k + 1), s, s3,
               WithStack(s, [(acc + q * x + Residual(c, k + 1, row, w)) % P] + rest));
    }
  }

  /** A row's code goes through exactly when the row's residual is zero modulo P. */
  lemma ChecksRow(c: Instance, row: nat, w: seq<Word>, s: State) returns (t: State)
    requires WellFormed(c) && |c.multisets| == |c.coeffs| && row < c.rows && |w| == c.cols && c.cols + |c.matrices| < P
    requires Holds(s.ram, w)
    ensures Holds(t.ram, w)
    ensures Exec(RowCode(c, row), s) == if Residual(c, 0, row, w) % P == 0 then Some(t) else None
  {
    hide Basic, Exec, MatricesCode, TermsCode, Holds, Read, Residual;
    var x := Residual(c, 0, row, w);
    t := ComputesMatrices(c, 0, row, w, s);
    OnPush(t, 0);
    Exec1(Instr.Push(0), t);
    var s1 := WithStack(t, [0 % P] + t.stack);
    ChainCat(MatricesCode(c, 0, row), [Instr.Push(0)], s, t, s1);
    SumsTerms(c, 0, row, w, s1, 0, t.stack);
    var s2 := WithStack(t, [(0 + x) % P] + t.stack);
    ChainCat(MatricesCode(c, 0, row) + [Instr.Push(0)], TermsCode(c, 0), s, s1, s2);
    ChecksConstant(s2, x % P, 0, t.stack);
    ExecCat(MatricesCode(c, 0, row) + [Instr.Push(0)] + TermsCode(c, 0), ZeroCheck(), s);
  }

  lemma {:induction false} ChecksRows(c: Instance, row: nat, w: seq<Word>, s: State)
    requires WellFormed(c) && |c.multisets| == |c.coeffs| && row <= c.rows && |w| == c.cols && c.cols + |c.matrices| < P
    requires Holds(s.ram, w)
    ensures Exec(RowsCode(c, row), s).Some? <==> forall r :: row <= r < c.rows ==> Residual(c, 0, r, w) % P == 0
    decreases c.rows - row
  {
    hide Basic, RowCode, Holds, Residual;
    if row < c.rows {
      var t := ChecksRow(c, row, w, s);
      ExecCat(RowCode(c, row), RowsCode(c, row + 1), s);
      if Residual(c, 0, row, w) % P == 0 {
        ChecksRows(c, row + 1, w, t);
      }
    }
  }

  // ----- the checker -----

  /** The machine before the first instruction: nothing on the stack, nothing in memory. */
  function Initial(input: seq<Word>, secret: seq<Word>): State {
    State([], map[], input, secret, [])
  }

  lemma PublicInRange(public_: seq<(nat, nat)>, previous: nat, cols: nat)
    requires PublicFits(public_, previous, cols)
    ensures forall i :: 0 <= i < |public_| ==> public_[i].0 < cols
  {
    if public_ != [] {
      PublicInRange(public_[1..], public_[0].0, cols);
      assert forall i :: 1 <= i < |public_| ==> public_[i] == public_[1..][i - 1];
    }
  }

  lemma BodyDecides(c: Instance, public_: seq<(nat, nat)>, binding: seq<nat>, input: seq<Word>, w: seq<Word>)
    requires Admissible(c, public_, binding) && |w| == c.cols
    requires forall i :: 0 <= i < |public_| ==> public_[i].0 < c.cols
    ensures Exec(BodyCode(c, public_, binding), Initial(input, w)).Some? <==> Satisfies(c, public_, input, w)
  {
    hide Basic, Exec, HeadCode, ColumnsCode, OneCheck, PublicCode, RowsCode, Residual, Read;
    var s := Initial(input, w);
    var one := HeadCode(binding) + ColumnsCode(0, c.cols);
    HeadDoesNothing(s, binding);
    var t := LoadsColumns(s, 0, c.cols);
    ChainCat(HeadCode(binding), ColumnsCode(0, c.cols), s, s, t);
    assert Holds(t.ram, w);
    ChecksOne(t);
    ExecCat(one, OneCheck(), s);
    ExecCat(one + OneCheck(), PublicCode(public_), s);
    ExecCat(one + OneCheck() + PublicCode(public_), RowsCode(c, 0), s);
    if w[0] == 1 {
      ChecksPublic(t, public_, w);
      if PublicMatches(public_, input, w) {
        var u := t.(input := t.input[|public_|..]);
        ChecksRows(c, 0, w, u);
        assert Exec(one + OneCheck() + PublicCode(public_), s) == Some(u);
        assert Exec(BodyCode(c, public_, binding), s) == Exec(RowsCode(c, 0), u);
        assert PublicMatches(public_, input, w);
        assert (forall row :: 0 <= row < c.rows ==> Residual(c, 0, row, w) % P == 0) <==> Exec(RowsCode(c, 0), u).Some?;
        assert Satisfies(c, public_, input, w) <==> forall row :: 0 <= row < c.rows ==> Residual(c, 0, row, w) % P == 0;
      }
    }
  }

  lemma {:induction false} StuckCodeCrashes(env: Env, code: seq<Instr>, rest: seq<Instr>, s: State, fuel: nat)
    requires JumpFree(code) && Exec(code, s).None?
    ensures Run(env, code + rest, s, fuel).Crashed?
    decreases |code|
  {
    hide Basic;
    assert (code + rest)[0] == code[0] && (code + rest)[1..] == code[1..] + rest;
    assert !Jump(code[0]);
    if Basic(code[0], s).Some? {
      StuckCodeCrashes(env, code[1..], rest, Basic(code[0], s).value, fuel);
    }
  }

  /**
   * The generated program, started on a witness of as many words as there are columns, reaches `halt` exactly
   * when the witness has one in its first column, agrees with the public input, and makes every row's
   * residual zero modulo P.
   */
  lemma CheckerDecides(env: Env, c: Instance, public_: seq<(nat, nat)>, binding: seq<nat>, input: seq<Word>, w: seq<Word>)
    requires Admissible(c, public_, binding) && |w| == c.cols
    requires forall i :: 0 <= i < |public_| ==> public_[i].0 < c.cols
    ensures (exists t :: Runs(env, CheckerCode(c, public_, binding), Initial(input, w), Halted(t))) <==> Satisfies(c, public_, input, w)
  {
    hide Basic, Exec, BodyCode, Run, Satisfies, Work;
    var body, s := BodyCode(c, public_, binding), Initial(input, w);
    BodyDecides(c, public_, binding, input, w);
    BodyIsJumpFree(c, public_, binding);
    if Satisfies(c, public_, input, w) {
      var t := Exec(body, s).value;
      RunsExec(env, body, s, t);
      RunsLast(env, Halt, t);
      JumpFreeIsWhole(body);
      RunsCat(env, body, [Halt], s, t, Halted(t));
    } else {
      forall t
        ensures !Runs(env, CheckerCode(c, public_, binding), s, Halted(t))
      {
        if Runs(env, CheckerCode(c, public_, binding), s, Halted(t)) {
          var fuel: nat :| Run(env, CheckerCode(c, public_, binding), s, fuel) == Halted(t);
          StuckCodeCrashes(env, body, [Halt], s, fuel);
        }
      }
    }
  }

  lemma JumpFreeIsWhole(code: seq<Instr>)
    requires JumpFree(code)
    ensures Whole(code)
  {}

  lemma JumpFreeCat(a: seq<Instr>, b: seq<Instr>)
    requires JumpFree(a) && JumpFree(b)
    ensures JumpFree(a + b)
  {}

  lemma {:induction false} BindingJumpFree(binding: seq<nat>)
    ensures JumpFree(BindingCode(binding))
    decreases |binding|
  {
    if binding != [] {
      BindingJumpFree(binding[Least(|binding|, 4)..]);
    }
  }

  lemma {:induction false} ColumnsJumpFree(from: nat, end: nat)
    ensures JumpFree(ColumnsCode(from, end))
    decreases end - from
  {
    if from < end {
      ColumnsJumpFree(from + 1, end);
    }
  }

  lemma {:induction false} PublicJumpFree(public_: seq<(nat, nat)>)
    ensures JumpFree(PublicCode(public_))
  {
    if public_ != [] {
      PublicJumpFree(public_[1..]);
    }
  }

  lemma {:induction false} EntriesJumpFree(row: seq<(nat, Word)>)
    ensures JumpFree(EntriesCode(row))
  {
    if row != [] {
      EntriesJumpFree(row[1..]);
    }
  }

  lemma {:induction false} MatricesJumpFree(c: Instance, m: nat, row: nat)
    ensures JumpFree(MatricesCode(c, m, row))
    decreases |c.matrices| - m
  {
    if m < |c.matrices| {
      hide EntriesCode;
      EntriesJumpFree(if row < |c.matrices[m].entries| then c.matrices[m].entries[row] else []);
      MatricesJumpFree(c, m + 1, row);
      JumpFreeCat(MatrixCode(c, m, row), MatricesCode(c, m + 1, row));
    }
  }

  lemma {:induction false} FactorsJumpFree(c: Instance, factors: seq<nat>)
    ensures JumpFree(FactorsCode(c, factors))
  {
    if factors != [] {
      FactorsJumpFree(c, factors[1..]);
    }
  }

  lemma {:induction false} TermsJumpFree(c: Instance, k: nat)
    ensures JumpFree(TermsCode(c, k))
    decreases |c.multisets| - k
  {
    if k < |c.multisets| && k < |c.coeffs| {
      hide FactorsCode;
      FactorsJumpFree(c, c.multisets[k]);
      TermsJumpFree(c, k + 1);
      JumpFreeCat([Instr.Push(c.coeffs[k])] + FactorsCode(c, c.multisets[k]) + [Add], TermsCode(c, k + 1));
    }
  }

  lemma {:induction false} RowsJumpFree(c: Instance, row: nat)
    ensures JumpFree(RowsCode(c, row))
    decreases c.rows - row
  {
    if row < c.rows {
      hide MatricesCode, TermsCode;
      MatricesJumpFree(c, 0, row);
      TermsJumpFree(c, 0);
      JumpFreeCat(MatricesCode(c, 0, row), [Instr.Push(0)]);
      JumpFreeCat(MatricesCode(c, 0, row) + [Instr.Push(0)], TermsCode(c, 0));
      JumpFreeCat(MatricesCode(c, 0, row) + [Instr.Push(0)] + TermsCode(c, 0), ZeroCheck());
      RowsJumpFree(c, row + 1);
      JumpFreeCat(RowCode(c, row), RowsCode(c, row + 1));
    }
  }

  lemma BodyIsJumpFree(c: Instance, public_: seq<(nat, nat)>, binding: seq<nat>)
    ensures JumpFree(BodyCode(c, public_, binding))
  {
    hide BindingCode, ColumnsCode, PublicCode, RowsCode;
    BindingJumpFree(binding);
    ColumnsJumpFree(0, c.cols);
    PublicJumpFree(public_);
    RowsJumpFree(c, 0);
    JumpFreeCat(Mentioned(1) + Mentioned(|binding|), BindingCode(binding));
    var a, b := HeadCode(binding), ColumnsCode(0, c.cols);
    JumpFreeCat(a, b);
    JumpFreeCat(a + b, OneCheck());
    JumpFreeCat(a + b + OneCheck(), PublicCode(public_));
    JumpFreeCat(a + b + OneCheck() + PublicCode(public_), RowsCode(c, 0));
  }

  // ----- the work bound -----

  lemma {:induction false} BindingLength(binding: seq<nat>)
    ensures 2 * |BindingCode(binding)| <= |binding| + 3
    decreases |binding|
  {
    if binding != [] {
      BindingLength(binding[Least(|binding|, 4)..]);
    }
  }

  lemma {:induction false} ColumnsLength(from: nat, end: nat)
    requires from <= end
    ensures |ColumnsCode(from, end)| == 4 * (end - from)
    decreases end - from
  {
    if from < end {
      ColumnsLength(from + 1, end);
    }
  }

  lemma {:induction false} PublicLength(public_: seq<(nat, nat)>)
    ensures |PublicCode(public_)| == 6 * |public_|
  {
    if public_ != [] {
      PublicLength(public_[1..]);
    }
  }

  lemma {:induction false} EntriesLength(row: seq<(nat, Word)>)
    ensures |EntriesCode(row)| == 6 * |row|
  {
    if row != [] {
      EntriesLength(row[1..]);
    }
  }

  lemma {:induction false} FactorsLength(c: Instance, factors: seq<nat>)
    ensures |FactorsCode(c, factors)| == 4 * |factors|
  {
    if factors != [] {
      FactorsLength(c, factors[1..]);
    }
  }

  lemma {:induction false} TermsCodeLength(c: Instance, k: nat)
    requires |c.multisets| == |c.coeffs| && k <= |c.multisets|
    ensures |TermsCode(c, k)| <= 4 * TermsLength(c.multisets[k..])
    decreases |c.multisets| - k
  {
    if k < |c.multisets| {
      hide FactorsCode;
      FactorsLength(c, c.multisets[k]);
      TermsCodeLength(c, k + 1);
      assert c.multisets[k..][1..] == c.multisets[k + 1..];
    }
  }

  /** The entries of row `row` in the matrices from `m` on. */
  function RowEntries(c: Instance, m: nat, row: nat): nat
    decreases |c.matrices| - m
  {
    if m >= |c.matrices| then 0
    else (if row < |c.matrices[m].entries| then |c.matrices[m].entries[row]| else 0) + RowEntries(c, m + 1, row)
  }

  lemma {:induction false} MatricesLength(c: Instance, m: nat, row: nat)
    requires m <= |c.matrices|
    ensures |MatricesCode(c, m, row)| == 4 * (|c.matrices| - m) + 6 * RowEntries(c, m, row)
    decreases |c.matrices| - m
  {
    if m < |c.matrices| {
      hide EntriesCode;
      EntriesLength(if row < |c.matrices[m].entries| then c.matrices[m].entries[row] else []);
      MatricesLength(c, m + 1, row);
    }
  }

  function RowsEntries(c: Instance, row: nat): nat
    decreases c.rows - row
  {
    if row >= c.rows then 0 else RowEntries(c, 0, row) + RowsEntries(c, row + 1)
  }

  lemma RowLength(c: Instance, row: nat)
    requires |c.multisets| == |c.coeffs| && |c.matrices| > 0
    ensures |RowCode(c, row)| <= 8 * Terms(c) + 6 * RowEntries(c, 0, row)
  {
    hide MatricesCode, TermsCode, RowEntries, TermsLength;
    MatricesLength(c, 0, row);
    TermsCodeLength(c, 0);
    assert c.multisets[0..] == c.multisets;
  }

  lemma OneRowMore(n: nat, terms: nat)
    ensures 8 * ((n + 1) * terms) == 8 * (n * terms) + 8 * terms
  {}

  lemma {:induction false} RowsCodeLength(c: Instance, row: nat)
    requires |c.multisets| == |c.coeffs| && |c.matrices| > 0 && row <= c.rows
    ensures |RowsCode(c, row)| <= 8 * ((c.rows - row) * Terms(c)) + 6 * RowsEntries(c, row)
    decreases c.rows - row
  {
    hide RowCode, Terms, RowEntries;
    if row < c.rows {
      RowLength(c, row);
      RowsCodeLength(c, row + 1);
      OneRowMore(c.rows - row - 1, Terms(c));
    } else {
      assert (c.rows - row) * Terms(c) == 0;
    }
  }

  /** Entries counted row by row and matrix by matrix. */
  function FromRow(m: Matrix, row: nat): nat
    decreases |m.entries| - row
  {
    if row >= |m.entries| then 0 else |m.entries[row]| + FromRow(m, row + 1)
  }

  function MatricesFromRow(c: Instance, m: nat, row: nat): nat
    decreases |c.matrices| - m
  {
    if m >= |c.matrices| then 0 else FromRow(c.matrices[m], row) + MatricesFromRow(c, m + 1, row)
  }

  lemma {:induction false} SplitFirstRow(c: Instance, m: nat, row: nat)
    ensures MatricesFromRow(c, m, row) == RowEntries(c, m, row) + MatricesFromRow(c, m, row + 1)
    decreases |c.matrices| - m
  {
    if m < |c.matrices| {
      SplitFirstRow(c, m + 1, row);
    }
  }

  lemma {:induction false} NothingLeft(c: Instance, m: nat, row: nat)
    requires forall i :: 0 <= i < |c.matrices| ==> |c.matrices[i].entries| <= row
    ensures MatricesFromRow(c, m, row) == 0
    decreases |c.matrices| - m
  {
    if m < |c.matrices| {
      NothingLeft(c, m + 1, row);
    }
  }

  lemma {:induction false} CountByRows(c: Instance, row: nat)
    requires WellFormed(c) && row <= c.rows
    ensures RowsEntries(c, row) == MatricesFromRow(c, 0, row)
    decreases c.rows - row
  {
    if row < c.rows {
      SplitFirstRow(c, 0, row);
      CountByRows(c, row + 1);
    } else {
      forall i | 0 <= i < |c.matrices| ensures |c.matrices[i].entries| <= row { assert MatrixFits(c.matrices[i], c); }
      NothingLeft(c, 0, row);
    }
  }

  lemma {:induction false} FromRowIsLength(m: Matrix, row: nat)
    requires row <= |m.entries|
    ensures FromRow(m, row) == RowsLength(m.entries[row..])
    decreases |m.entries| - row
  {
    if row < |m.entries| {
      FromRowIsLength(m, row + 1);
      assert m.entries[row..][1..] == m.entries[row + 1..];
    }
  }

  lemma {:induction false} CountByMatrices(c: Instance, m: nat)
    requires m <= |c.matrices|
    ensures MatricesFromRow(c, m, 0) == EntriesCount(c.matrices[m..])
    decreases |c.matrices| - m
  {
    if m < |c.matrices| {
      FromRowIsLength(c.matrices[m], 0);
      assert c.matrices[m].entries[0..] == c.matrices[m].entries;
      CountByMatrices(c, m + 1);
      assert c.matrices[m..][1..] == c.matrices[m + 1..];
    }
  }

  /** The admission bound bounds the program: at most eight instructions per unit of work, six per public coordinate. */
  lemma CheckerIsShort(c: Instance, public_: seq<(nat, nat)>, binding: seq<nat>)
    requires Admissible(c, public_, binding)
    ensures |CheckerCode(c, public_, binding)| <= 8 * Work(c) + 6 * |public_| + |binding| + 14
  {
    hide BindingCode, ColumnsCode, PublicCode, RowsCode, EntriesCount, MatricesFromRow, RowsEntries;
    BindingLength(binding);
    ColumnsLength(0, c.cols);
    PublicLength(public_);
    RowsCodeLength(c, 0);
    CountByRows(c, 0);
    CountByMatrices(c, 0);
    assert c.matrices[0..] == c.matrices;
  }

  /** What admission lets through, in numbers. */
  lemma AdmissionBounds(c: Instance, public_: seq<(nat, nat)>, binding: seq<nat>)
    requires Admissible(c, public_, binding)
    ensures forall i :: 0 <= i < |public_| ==> 0 < public_[i].0 < c.cols && public_[i].1 < P
    ensures forall i, j :: 0 <= i < j < |public_| ==> public_[i].0 < public_[j].0
    ensures |CheckerCode(c, public_, binding)| < 0x80_0000 + 6 * 0x1_0000 + 0x2000
  {
    hide CheckerCode, Work;
    CoordinatesRise(public_, 0, c.cols);
    CheckerIsShort(c, public_, binding);
    FewCoordinates(public_, 0, c.cols);
  }

  lemma {:induction false} FewCoordinates(public_: seq<(nat, nat)>, previous: nat, cols: nat)
    requires PublicFits(public_, previous, cols)
    ensures previous < cols ==> previous + |public_| < cols
  {
    if public_ != [] {
      FewCoordinates(public_[1..], public_[0].0, cols);
    }
  }

  /** The coordinates are checked in one pass, each against the one before. */
  lemma {:induction false} CoordinatesRise(public_: seq<(nat, nat)>, previous: nat, cols: nat)
    ensures PublicFits(public_, previous, cols) <==>
      (&& (forall i :: 0 <= i < |public_| ==> previous < public_[i].0 < cols && public_[i].1 < P)
       && forall i, j :: 0 <= i < j < |public_| ==> public_[i].0 < public_[j].0)
  {
    if public_ != [] {
      var rest := public_[1..];
      CoordinatesRise(rest, public_[0].0, cols);
      assert forall i :: 0 <= i < |rest| ==> rest[i] == public_[i + 1];
      assert forall i :: 1 <= i < |public_| ==> public_[i] == rest[i - 1];
    }
  }

  /** Entry `k` of row `r` of matrix `m` names a column of the relation. */
  predicate EntryFits(c: Instance, m: nat, r: nat, k: nat) {
    m < |c.matrices| && r < |c.matrices[m].entries| && k < |c.matrices[m].entries[r]| ==> c.matrices[m].entries[r][k].0 < c.cols
  }

  /** The admissible relations, all bounds in numbers and the entries counted row by row instead of matrix by matrix. */
  lemma AdmissibleExactly(c: Instance, public_: seq<(nat, nat)>, binding: seq<nat>)
    ensures Admissible(c, public_, binding) <==>
      && 0 < c.cols <= 65536 && 0 < c.rows <= 65536 && 0 < |c.matrices| <= 64
      && 0 < |c.multisets| == |c.coeffs| && |c.multisets| <= 1048576 && 0 < |binding| <= 4096
      && (forall m :: 0 <= m < |c.matrices| ==>
            c.matrices[m].rows == c.rows && c.matrices[m].cols == c.cols && |c.matrices[m].entries| == c.rows)
      && (forall m: nat, r: nat, k: nat :: EntryFits(c, m, r, k))
      && (forall k :: 0 <= k < |c.multisets| ==> |c.multisets[k]| <= 16 && forall i :: 0 <= i < |c.multisets[k]| ==> c.multisets[k][i] < |c.matrices|)
      && c.cols + RowsEntries(c, 0) + c.rows * (|c.matrices| + TermsLength(c.multisets)) <= 1048576
      && (forall i :: 0 <= i < |public_| ==> 0 < public_[i].0 < c.cols && public_[i].1 < P)
      && (forall i, j :: 0 <= i < j < |public_| ==> public_[i].0 < public_[j].0)
  {
    hide PublicFits, EntriesCount, RowsEntries, MatricesFromRow;
    CoordinatesRise(public_, 0, c.cols);
    ColumnsFit(c);
    if WellFormed(c) {
      CountByRows(c, 0);
      CountByMatrices(c, 0);
      assert c.matrices[0..] == c.matrices;
    }
  }

  lemma ColumnsFit(c: Instance)
    ensures WellFormed(c) <==>
      && (forall m :: 0 <= m < |c.matrices| ==>
            c.matrices[m].rows == c.rows && c.matrices[m].cols == c.cols && |c.matrices[m].entries| == c.rows)
      && (forall m: nat, r: nat, k: nat :: EntryFits(c, m, r, k))
      && (forall k :: 0 <= k < |c.multisets| ==> |c.multisets[k]| <= 16 && forall i :: 0 <= i < |c.multisets[k]| ==> c.multisets[k][i] < |c.matrices|)
  {
    if forall m: nat, r: nat, k: nat :: EntryFits(c, m, r, k) {
      forall m, r | 0 <= m < |c.matrices| && 0 <= r < |c.matrices[m].entries|
        ensures InColumns(c.matrices[m].entries[r], c.cols)
      {
        forall k | 0 <= k < |c.matrices[m].entries[r]|
          ensures c.matrices[m].entries[r][k].0 < c.cols
        {
          assert EntryFits(c, m, r, k);
        }
      }
    }
  }

  // ----- the binding -----

  lemma LimbIsSmall(bytes: seq<nat>)
    requires forall k :: 0 <= k < |bytes| ==> bytes[k] < 0x100
    ensures Limb(bytes) < 0x1_0000_0000
  {}

  lemma LowByte(a: nat, x: nat, b: nat, y: nat)
    requires a < 0x100 && b < 0x100 && a + 0x100 * x == b + 0x100 * y
    ensures a == b && x == y
  {}

  /** Byte `k`, or zero behind the end. */
  function ByteOr(bytes: seq<nat>, k: nat): nat {
    if k < |bytes| then bytes[k] else 0
  }

  lemma LimbIs(bytes: seq<nat>)
    ensures Limb(bytes) == ByteOr(bytes, 0) + 0x100 * (ByteOr(bytes, 1) + 0x100 * (ByteOr(bytes, 2) + 0x100 * ByteOr(bytes, 3)))
  {}

  /** A limb determines its bytes. */
  lemma SameLimb(a: seq<nat>, b: seq<nat>)
    requires |a| == |b| <= 4 && Limb(a) == Limb(b)
    requires forall k :: 0 <= k < |a| ==> a[k] < 0x100 && b[k] < 0x100
    ensures a == b
  {
    hide Limb;
    LimbIs(a);
    LimbIs(b);
    var a3, b3 := ByteOr(a, 3), ByteOr(b, 3);
    var a2, b2 := ByteOr(a, 2) + 0x100 * a3, ByteOr(b, 2) + 0x100 * b3;
    LowByte(ByteOr(a, 0), ByteOr(a, 1) + 0x100 * a2, ByteOr(b, 0), ByteOr(b, 1) + 0x100 * b2);
    LowByte(ByteOr(a, 1), a2, ByteOr(b, 1), b2);
    LowByte(ByteOr(a, 2), a3, ByteOr(b, 2), b3);
    forall k | 0 <= k < |a| ensures a[k] == b[k] {
      assert ByteOr(a, k) == a[k] && ByteOr(b, k) == b[k];
      assert k == 0 || k == 1 || k == 2 || k == 3;
    }
  }

  lemma BindingStarts(binding: seq<nat>)
    requires binding != []
    ensures var n := Least(|binding|, 4);
      && |BindingCode(binding)| >= 2 && BindingCode(binding)[0] == Instr.Push(Lit(Limb(binding[..n])))
      && BindingCode(binding)[2..] == BindingCode(binding[n..])
  {
    hide Limb;
  }

  lemma {:induction false} BindingInjective(a: seq<nat>, b: seq<nat>)
    requires |a| == |b| && BindingCode(a) == BindingCode(b)
    requires forall k :: 0 <= k < |a| ==> a[k] < 0x100 && b[k] < 0x100
    ensures a == b
    decreases |a|
  {
    hide Limb, BindingCode;
    if a != [] {
      var n := Least(|a|, 4);
      LimbIsSmall(a[..n]);
      LimbIsSmall(b[..n]);
      BindingStarts(a);
      BindingStarts(b);
      SameLimb(a[..n], b[..n]);
      BindingInjective(a[n..], b[n..]);
      assert a == a[..n] + a[n..] && b == b[..n] + b[n..];
    }
  }

  lemma {:induction false} SameBindingLength(a: seq<nat>, b: seq<nat>)
    requires |a| == |b|
    ensures |BindingCode(a)| == |BindingCode(b)|
    decreases |a|
  {
    hide Limb;
    if a != [] {
      SameBindingLength(a[Least(|a|, 4)..], b[Least(|b|, 4)..]);
    }
  }

  /** A program says which bytes it is bound to: with other bytes it is another program. */
  lemma BindingIsInProgram(c: Instance, public_: seq<(nat, nat)>, a: seq<nat>, b: seq<nat>)
    requires Admissible(c, public_, a) && Admissible(c, public_, b)
    requires forall k :: 0 <= k < |a| ==> a[k] < 0x100
    requires forall k :: 0 <= k < |b| ==> b[k] < 0x100
    requires CheckerCode(c, public_, a) == CheckerCode(c, public_, b)
    ensures a == b
  {
    hide WellFormed, Work, PublicFits, BindingCode, ColumnsCode, PublicCode, RowsCode, OneCheck;
    var x, y := CheckerCode(c, public_, a), CheckerCode(c, public_, b);
    assert x[2] == Instr.Push(Lit(|a|)) && y[2] == Instr.Push(Lit(|b|));
    SameBindingLength(a, b);
    var n := |BindingCode(a)|;
    assert x[4..4 + n] == BindingCode(a) && y[4..4 + n] == BindingCode(b);
    BindingInjective(a, b);
  }

  // ----- the generator -----

  /** What the verifier knows: the program, its public input, and how many private words it reads. */
  datatype Checker = Checker(code: seq<Instr>, input: seq<Word>, columns: nat)

  /** The program, given the public input and the witness, comes to `halt`. */
  ghost predicate Accepts(env: Env, checker: Checker, w: seq<Word>) {
    exists t :: Runs(env, checker.code, Initial(checker.input, w), Halted(t))
  }

  /** The witness has one in column zero and the given values in the public columns, and makes every row's residual zero. */
  ghost predicate Proves(c: Instance, public_: seq<(nat, nat)>, w: seq<Word>)
    requires WellFormed(c) && |c.multisets| == |c.coeffs| && |w| == c.cols && c.cols > 0
  {
    && w[0] == 1
    && (forall i :: 0 <= i < |public_| ==> public_[i].0 < |w| && w[public_[i].0] == public_[i].1)
    && (forall row :: 0 <= row < c.rows ==> Residual(c, 0, row, w) % P == 0)
  }

  lemma OwnInputDecides(env: Env, c: Instance, public_: seq<(nat, nat)>, binding: seq<nat>, input: seq<Word>, w: seq<Word>)
    requires Admissible(c, public_, binding) && |w| == c.cols && |input| == |public_|
    requires forall i :: 0 <= i < |public_| ==> input[i] == public_[i].1
    ensures Accepts(env, Checker(CheckerCode(c, public_, binding), input, c.cols), w) <==> Proves(c, public_, w)
  {
    hide Work, WellFormed, PublicFits, CheckerCode, Runs, Residual;
    AdmissionBounds(c, public_, binding);
    CheckerDecides(env, c, public_, binding, input, w);
  }

  /** Where the relation is admissible, the program, run on its own public input, accepts exactly the witnesses that prove it. */
  method New(c: Instance, public_: seq<(nat, nat)>, binding: seq<nat>) returns (r: Option<Checker>)
    ensures r.Some? <==> Admissible(c, public_, binding)
    ensures r.Some? ==> r.value.code == CheckerCode(c, public_, binding) && r.value.columns == c.cols
    ensures r.Some? ==> forall env: Env, w: seq<Word> :: |w| == r.value.columns ==>
      (Accepts(env, r.value, w) <==> Proves(c, public_, w))
  {
    hide Work, WellFormed, PublicFits, CheckerCode, Accepts, Proves;
    var ok := Validate(c, public_, binding);
    if !ok {
      return None;
    }
    AdmissionBounds(c, public_, binding);
    var code := Generate(c, public_, binding);
    var input: seq<Word> := seq(|public_|, i requires 0 <= i < |public_| => Lit(public_[i].1));
    r := Some(Checker(code, input, c.cols));
    forall env: Env, w: seq<Word> | |w| == c.cols
      ensures Accepts(env, r.value, w) <==> Proves(c, public_, w)
    {
      OwnInputDecides(env, c, public_, binding, input, w);
    }
  }
}
