/** A constraint system compiled to a straight-line checker, and the bound that keeps the checker small. */
module Ccs {
  import opened Words
  import opened Machine
  import opened Legalize
  import opened Storing

  /** Entries of a matrix, row by row: pairs of column and coefficient. */
  datatype Matrix = Matrix(rows: nat, cols: nat, entries: seq<seq<(nat, Word)>>)

  /** Sum over k of coeffs[k] times the product of the matrices named by multisets[k], row by row. */
  datatype Instance = Instance(rows: nat, cols: nat, matrices: seq<Matrix>, multisets: seq<seq<nat>>, coeffs: seq<Word>)

  const MAX_COLUMNS: nat := 0x1_0000
  const MAX_ROWS: nat := 0x1_0000
  const MAX_MATRICES: nat := 64
  const MAX_WORK: nat := 0x10_0000

  // ----- admission -----

  function RowsLength(rows: seq<seq<(nat, Word)>>): nat {
    if rows == [] then 0 else |rows[0]| + RowsLength(rows[1..])
  }

  function EntriesCount(matrices: seq<Matrix>): nat {
    if matrices == [] then 0 else RowsLength(matrices[0].entries) + EntriesCount(matrices[1..])
  }

  function TermsLength(multisets: seq<seq<nat>>): nat {
    if multisets == [] then 0 else |multisets[0]| + 1 + TermsLength(multisets[1..])
  }

  function Terms(c: Instance): nat {
    |c.matrices| + TermsLength(c.multisets)
  }

  function Work(c: Instance): nat {
    c.cols + EntriesCount(c.matrices) + c.rows * Terms(c)
  }

  predicate InColumns(row: seq<(nat, Word)>, cols: nat) {
    forall k :: 0 <= k < |row| ==> row[k].0 < cols
  }

  predicate MatrixFits(m: Matrix, c: Instance) {
    m.rows == c.rows && m.cols == c.cols && |m.entries| == c.rows
    && forall r :: 0 <= r < |m.entries| ==> InColumns(m.entries[r], c.cols)
  }

  predicate MultisetFits(s: seq<nat>, c: Instance) {
    |s| <= 16 && forall k :: 0 <= k < |s| ==> s[k] < |c.matrices|
  }

  predicate SizesFit(c: Instance, binding: seq<nat>) {
    && 0 < c.cols <= MAX_COLUMNS && 0 < c.rows <= MAX_ROWS && 0 < |c.matrices| <= MAX_MATRICES
    && 0 < |c.multisets| <= MAX_WORK && |c.multisets| == |c.coeffs|
    && 0 < |binding| <= 4096
  }

  /** Public coordinates: columns above zero, rising, in range, with canonical values. */
  predicate PublicFits(public_: seq<(nat, nat)>, previous: nat, cols: nat) {
    if public_ == [] then true else
    previous < public_[0].0 < cols && public_[0].1 < P && PublicFits(public_[1..], public_[0].0, cols)
  }

  predicate WellFormed(c: Instance) {
    && (forall m :: 0 <= m < |c.matrices| ==> MatrixFits(c.matrices[m], c))
    && (forall k :: 0 <= k < |c.multisets| ==> MultisetFits(c.multisets[k], c))
  }

  predicate Admissible(c: Instance, public_: seq<(nat, nat)>, binding: seq<nat>) {
    SizesFit(c, binding) && WellFormed(c) && Work(c) <= MAX_WORK && PublicFits(public_, 0, c.cols)
  }

  lemma {:induction false} RowsLengthCat(a: seq<seq<(nat, Word)>>, b: seq<seq<(nat, Word)>>)
    ensures RowsLength(a + b) == RowsLength(a) + RowsLength(b)
    decreases |a|
  {
    if a == [] {
      assert a + b == b;
    } else {
      assert (a + b)[1..] == a[1..] + b;
      RowsLengthCat(a[1..], b);
    }
  }

  lemma {:induction false} EntriesCat(a: seq<Matrix>, b: seq<Matrix>)
    ensures EntriesCount(a + b) == EntriesCount(a) + EntriesCount(b)
    decreases |a|
  {
    if a == [] {
      assert a + b == b;
    } else {
      assert (a + b)[1..] == a[1..] + b;
      EntriesCat(a[1..], b);
    }
  }

  lemma {:induction false} TermsCat(a: seq<seq<nat>>, b: seq<seq<nat>>)
    ensures TermsLength(a + b) == TermsLength(a) + TermsLength(b)
    decreases |a|
  {
    if a == [] {
      assert a + b == b;
    } else {
      assert (a + b)[1..] == a[1..] + b;
      TermsCat(a[1..], b);
    }
  }

  /** Checks one matrix while adding up the work; gives up as soon as the work exceeds the bound. */
  method CheckMatrix(m: Matrix, c: Instance, before: nat) returns (ok: bool, work: nat)
    ensures ok <==> MatrixFits(m, c) && (m.entries == [] || before + RowsLength(m.entries) <= MAX_WORK)
    ensures ok ==> work == before + RowsLength(m.entries)
  {
    work := before;
    if m.rows != c.rows || m.cols != c.cols || |m.entries| != c.rows {
      return false, work;
    }
    for r := 0 to |m.entries|
      invariant work == before + RowsLength(m.entries[..r])
      invariant r > 0 ==> work <= MAX_WORK
      invariant forall i :: 0 <= i < r ==> InColumns(m.entries[i], c.cols)
    {
      assert m.entries[..r + 1] == m.entries[..r] + [m.entries[r]];
      RowsLengthCat(m.entries[..r], [m.entries[r]]);
      assert m.entries == m.entries[..r + 1] + m.entries[r + 1..];
      RowsLengthCat(m.entries[..r + 1], m.entries[r + 1..]);
      work := work + |m.entries[r]|;
      if work > MAX_WORK || !InColumns(m.entries[r], c.cols) {
        return false, work;
      }
    }
    assert m.entries[..|m.entries|] == m.entries;
    ok := true;
  }

  method CheckMatrices(c: Instance) returns (ok: bool, work: nat)
    ensures ok <==> ((forall m :: 0 <= m < |c.matrices| ==> MatrixFits(c.matrices[m], c))
                     && (|c.matrices| == 0 || c.rows == 0 || c.cols + EntriesCount(c.matrices) <= MAX_WORK))
    ensures ok ==> work == c.cols + EntriesCount(c.matrices)
  {
    hide MatrixFits, RowsLength;
    work := c.cols;
    for m := 0 to |c.matrices|
      invariant work == c.cols + EntriesCount(c.matrices[..m])
      invariant forall i :: 0 <= i < m ==> MatrixFits(c.matrices[i], c)
      invariant m > 0 && c.rows > 0 ==> work <= MAX_WORK
    {
      UpToMatrix(c.matrices, m);
      var fits;
      fits, work := CheckMatrix(c.matrices[m], c, work);
      if !fits {
        FitsHasRows(c.matrices[m], c);
        return false, work;
      }
      FitsHasRows(c.matrices[m], c);
    }
    assert c.matrices[..|c.matrices|] == c.matrices;
    ok := true;
  }

  lemma FitsHasRows(m: Matrix, c: Instance)
    ensures MatrixFits(m, c) && c.rows > 0 ==> m.entries != []
    ensures m.entries == [] ==> RowsLength(m.entries) == 0
    ensures MatrixFits(m, c) && c.rows == 0 ==> m.entries == []
  {}

  lemma UpToMatrix(matrices: seq<Matrix>, m: nat)
    requires m < |matrices|
    ensures EntriesCount(matrices[..m + 1]) == EntriesCount(matrices[..m]) + RowsLength(matrices[m].entries)
    ensures EntriesCount(matrices[..m + 1]) <= EntriesCount(matrices)
  {
    hide RowsLength;
    assert matrices[..m + 1] == matrices[..m] + [matrices[m]];
    EntriesCat(matrices[..m], [matrices[m]]);
    assert [matrices[m]][1..] == [];
    assert matrices == matrices[..m + 1] + matrices[m + 1..];
    EntriesCat(matrices[..m + 1], matrices[m + 1..]);
  }

  method CheckMultisets(c: Instance) returns (ok: bool, terms: nat)
    ensures ok <==> forall k :: 0 <= k < |c.multisets| ==> MultisetFits(c.multisets[k], c)
    ensures ok ==> terms == Terms(c)
  {
    terms := |c.matrices|;
    for k := 0 to |c.multisets|
      invariant terms == |c.matrices| + TermsLength(c.multisets[..k])
      invariant forall i :: 0 <= i < k ==> MultisetFits(c.multisets[i], c)
    {
      assert c.multisets[..k + 1] == c.multisets[..k] + [c.multisets[k]];
      TermsCat(c.multisets[..k], [c.multisets[k]]);
      if !MultisetFits(c.multisets[k], c) {
        return false, terms;
      }
      terms := terms + |c.multisets[k]| + 1;
    }
    assert c.multisets[..|c.multisets|] == c.multisets;
    ok := true;
  }

  method Validate(c: Instance, public_: seq<(nat, nat)>, binding: seq<nat>) returns (ok: bool)
    ensures ok <==> Admissible(c, public_, binding)
  {
    hide MatrixFits, MultisetFits, EntriesCount, Terms, PublicFits;
    if !SizesFit(c, binding) {
      return false;
    }
    var work, terms;
    ok, work := CheckMatrices(c);
    if !ok {
      assert c.rows * Terms(c) >= 0;
      return;
    }
    ok, terms := CheckMultisets(c);
    if !ok {
      return;
    }
    if work + c.rows * terms > MAX_WORK {
      return false;
    }
    ok := CheckPublic(public_, c.cols);
  }

  method CheckPublic(public_: seq<(nat, nat)>, cols: nat) returns (ok: bool)
    ensures ok <==> PublicFits(public_, 0, cols)
  {
    var previous: nat := 0;
    for k := 0 to |public_|
      invariant PublicFits(public_, 0, cols) <==> PublicFits(public_[k..], previous, cols)
    {
      assert public_[k..][0] == public_[k] && public_[k..][1..] == public_[k + 1..];
      if public_[k].0 <= previous || public_[k].0 >= cols || public_[k].1 >= P {
        return false;
      }
      previous := public_[k].0;
    }
    ok := true;
  }

  // ----- the program -----

  function ReadCode(address: nat): seq<Instr> {
    [Instr.Push(Lit(address)), Instr.ReadMem(1), Instr.Pop(1)]
  }

  function Mentioned(x: nat): seq<Instr> {
    [Instr.Push(Lit(x)), Instr.Pop(1)]
  }

  /** Four bytes, little-endian, missing ones zero. */
  function Limb(bytes: seq<nat>): nat {
    (if |bytes| > 0 then bytes[0] else 0) + 0x100 * (if |bytes| > 1 then bytes[1] else 0)
    + 0x1_0000 * (if |bytes| > 2 then bytes[2] else 0) + 0x100_0000 * (if |bytes| > 3 then bytes[3] else 0)
  }

  function BindingCode(binding: seq<nat>): seq<Instr>
    decreases |binding|
  {
    if binding == [] then [] else
    Mentioned(Limb(binding[..Least(|binding|, 4)])) + BindingCode(binding[Least(|binding|, 4)..])
  }

  function ColumnCode(column: nat): seq<Instr> {
    [Instr.Divine(1), Instr.Push(Lit(column)), Instr.WriteMem(1), Instr.Pop(1)]
  }

  function ColumnsCode(from: nat, end: nat): seq<Instr>
    decreases end - from
  {
    if from >= end then [] else ColumnCode(from) + ColumnsCode(from + 1, end)
  }

  function PublicCode(public_: seq<(nat, nat)>): seq<Instr> {
    if public_ == [] then [] else ReadCode(public_[0].0) + [Instr.ReadIo(1), Eq, Assert] + PublicCode(public_[1..])
  }

  function EntryCode(entry: (nat, Word)): seq<Instr> {
    ReadCode(entry.0) + [Instr.Push(entry.1), Mul, Add]
  }

  function EntriesCode(row: seq<(nat, Word)>): seq<Instr> {
    if row == [] then [] else EntryCode(row[0]) + EntriesCode(row[1..])
  }

  function MatrixCode(c: Instance, m: nat, row: nat): seq<Instr>
    requires m < |c.matrices|
  {
    [Instr.Push(0)] + EntriesCode(if row < |c.matrices[m].entries| then c.matrices[m].entries[row] else []) + StoreCode(c.cols + m)
  }

  function MatricesCode(c: Instance, m: nat, row: nat): seq<Instr>
    decreases |c.matrices| - m
  {
    if m >= |c.matrices| then [] else MatrixCode(c, m, row) + MatricesCode(c, m + 1, row)
  }

  function FactorsCode(c: Instance, factors: seq<nat>): seq<Instr> {
    if factors == [] then [] else ReadCode(c.cols + factors[0]) + [Mul] + FactorsCode(c, factors[1..])
  }

  function TermsCode(c: Instance, k: nat): seq<Instr>
    decreases |c.multisets| - k
  {
    if k >= |c.multisets| || k >= |c.coeffs| then [] else
    [Instr.Push(c.coeffs[k])] + FactorsCode(c, c.multisets[k]) + [Add] + TermsCode(c, k + 1)
  }

  function ZeroCheck(): seq<Instr> {
    [Instr.Push(0), Eq, Assert]
  }

  function RowCode(c: Instance, row: nat): seq<Instr> {
    MatricesCode(c, 0, row) + [Instr.Push(0)] + TermsCode(c, 0) + ZeroCheck()
  }

  function RowsCode(c: Instance, row: nat): seq<Instr>
    decreases c.rows - row
  {
    if row >= c.rows then [] else RowCode(c, row) + RowsCode(c, row + 1)
  }

  function HeadCode(binding: seq<nat>): seq<Instr> {
    Mentioned(1) + Mentioned(|binding|) + BindingCode(binding)
  }

  function OneCheck(): seq<Instr> {
    ReadCode(0) + [Instr.Push(1), Eq, Assert]
  }

  /** Everything but the final `halt`. */
  function BodyCode(c: Instance, public_: seq<(nat, nat)>, binding: seq<nat>): seq<Instr> {
    HeadCode(binding) + ColumnsCode(0, c.cols) + OneCheck() + PublicCode(public_) + RowsCode(c, 0)
  }

  function CheckerCode(c: Instance, public_: seq<(nat, nat)>, binding: seq<nat>): seq<Instr> {
    BodyCode(c, public_, binding) + [Halt]
  }

  // ----- emitting -----

  method Generate(c: Instance, public_: seq<(nat, nat)>, binding: seq<nat>) returns (code: seq<Instr>)
    requires WellFormed(c) && |c.multisets| == |c.coeffs|
    ensures code == CheckerCode(c, public_, binding)
  {
    hide BindingCode, ColumnsCode, PublicCode, RowsCode, MatrixFits, MultisetFits, ReadCode;
    var out := new Output();
    EmitHead(binding, out);
    ghost var written := HeadCode(binding);
    EmitColumns(c.cols, out);
    written := written + ColumnsCode(0, c.cols);
    out.Extend(ReadCode(0) + [Instr.Push(1), Eq, Assert]);
    written := written + OneCheck();
    assert out.lines == written;
    EmitPublic(public_, out);
    written := written + PublicCode(public_);
    assert out.lines == written;
    EmitRows(c, out);
    written := written + RowsCode(c, 0);
    out.Push(Halt);
    assert out.lines == written + [Halt];
    code := out.lines;
  }

  method EmitHead(binding: seq<nat>, out: Output)
    modifies out
    ensures out.lines == old(out.lines) + HeadCode(binding)
  {
    out.Extend([Instr.Push(1), Instr.Pop(1)]);
    out.Extend([Instr.Push(Lit(|binding|)), Instr.Pop(1)]);
    ghost var before := out.lines;
    assert before == old(out.lines) + (Mentioned(1) + Mentioned(|binding|));
    ghost var written := [];
    var k: nat := 0;
    assert binding[0..] == binding;
    while k < |binding|
      invariant k <= |binding|
      invariant out.lines == before + written
      invariant written + BindingCode(binding[k..]) == BindingCode(binding)
    {
      var n := Least(|binding| - k, 4);
      var limb := Limb(binding[k..][..n]);
      out.Extend([Instr.Push(Lit(limb)), Instr.Pop(1)]);
      assert binding[k..][n..] == binding[k + n..];
      Assoc(before, written, Mentioned(limb));
      Assoc(written, Mentioned(limb), BindingCode(binding[k + n..]));
      written := written + Mentioned(limb);
      k := k + n;
    }
    Assoc(old(out.lines), Mentioned(1) + Mentioned(|binding|), written);
  }

  method EmitColumns(n: nat, out: Output)
    modifies out
    ensures out.lines == old(out.lines) + ColumnsCode(0, n)
  {
    ghost var written := [];
    for column := 0 to n
      invariant out.lines == old(out.lines) + written
      invariant written + ColumnsCode(column, n) == ColumnsCode(0, n)
    {
      out.Extend([Instr.Divine(1), Instr.Push(Lit(column)), Instr.WriteMem(1), Instr.Pop(1)]);
      Assoc(old(out.lines), written, ColumnCode(column));
      Assoc(written, ColumnCode(column), ColumnsCode(column + 1, n));
      written := written + ColumnCode(column);
    }
  }

  method EmitPublic(public_: seq<(nat, nat)>, out: Output)
    modifies out
    ensures out.lines == old(out.lines) + PublicCode(public_)
  {
    ghost var written := [];
    assert public_[0..] == public_;
    for k := 0 to |public_|
      invariant out.lines == old(out.lines) + written
      invariant written + PublicCode(public_[k..]) == PublicCode(public_)
    {
      hide ReadCode;
      var line := ReadCode(public_[k].0) + [Instr.ReadIo(1), Eq, Assert];
      out.Extend(line);
      assert public_[k..][0] == public_[k] && public_[k..][1..] == public_[k + 1..];
      Assoc(old(out.lines), written, line);
      Assoc(written, line, PublicCode(public_[k + 1..]));
      written := written + line;
    }
  }

  method EmitRows(c: Instance, out: Output)
    requires WellFormed(c) && |c.multisets| == |c.coeffs|
    modifies out
    ensures out.lines == old(out.lines) + RowsCode(c, 0)
  {
    ghost var written := [];
    for row := 0 to c.rows
      invariant out.lines == old(out.lines) + written
      invariant written + RowsCode(c, row) == RowsCode(c, 0)
    {
      hide MatrixFits, MultisetFits, RowCode;
      EmitRow(c, row, out);
      Assoc(old(out.lines), written, RowCode(c, row));
      Assoc(written, RowCode(c, row), RowsCode(c, row + 1));
      written := written + RowCode(c, row);
    }
  }

  method EmitRow(c: Instance, row: nat, out: Output)
    requires WellFormed(c) && row < c.rows && |c.multisets| == |c.coeffs|
    modifies out
    ensures out.lines == old(out.lines) + RowCode(c, row)
  {
    hide MultisetFits, MatrixFits, MatrixCode, FactorsCode;
    ghost var written := [];
    for m := 0 to |c.matrices|
      invariant out.lines == old(out.lines) + written
      invariant written + MatricesCode(c, m, row) == MatricesCode(c, 0, row)
    {
      assert row < |c.matrices[m].entries| by { RowExists(c, m, row); }
      EmitMatrix(c, m, row, out);
      Assoc(old(out.lines), written, MatrixCode(c, m, row));
      Assoc(written, MatrixCode(c, m, row), MatricesCode(c, m + 1, row));
      written := written + MatrixCode(c, m, row);
    }
    out.Push(Instr.Push(0));
    Assoc(old(out.lines), written, [Instr.Push(0)]);
    ghost var before := written + [Instr.Push(0)];
    EmitTerms(c, out);
    Assoc(old(out.lines), before, TermsCode(c, 0));
    out.Extend([Instr.Push(0), Eq, Assert]);
    Assoc(old(out.lines), before + TermsCode(c, 0), ZeroCheck());
  }

  lemma RowExists(c: Instance, m: nat, row: nat)
    requires WellFormed(c) && m < |c.matrices| && row < c.rows
    ensures row < |c.matrices[m].entries|
  {
    assert MatrixFits(c.matrices[m], c);
  }

  method EmitMatrix(c: Instance, m: nat, row: nat, out: Output)
    requires m < |c.matrices| && row < |c.matrices[m].entries|
    modifies out
    ensures out.lines == old(out.lines) + MatrixCode(c, m, row)
  {
    hide EntryCode;
    var entries := c.matrices[m].entries[row];
    out.Push(Instr.Push(0));
    ghost var before := out.lines;
    ghost var written := [];
    assert entries[0..] == entries;
    for k := 0 to |entries|
      invariant out.lines == before + written
      invariant written + EntriesCode(entries[k..]) == EntriesCode(entries)
    {
      out.Extend(EntryCode(entries[k]));
      assert entries[k..][0] == entries[k] && entries[k..][1..] == entries[k + 1..];
      Assoc(before, written, EntryCode(entries[k]));
      Assoc(written, EntryCode(entries[k]), EntriesCode(entries[k + 1..]));
      written := written + EntryCode(entries[k]);
    }
    Assoc(old(out.lines), [Instr.Push(0)], written);
    out.Extend([Instr.Push(Lit(c.cols + m)), Instr.WriteMem(1), Instr.Pop(1)]);
    Assoc(old(out.lines), [Instr.Push(0)] + written, StoreCode(c.cols + m));
  }

  method EmitTerms(c: Instance, out: Output)
    requires |c.multisets| == |c.coeffs|
    modifies out
    ensures out.lines == old(out.lines) + TermsCode(c, 0)
  {
    ghost var written := [];
    for k := 0 to |c.multisets|
      invariant out.lines == old(out.lines) + written
      invariant written + TermsCode(c, k) == TermsCode(c, 0)
    {
      hide FactorsCode;
      ghost var before := out.lines;
      ghost var line := [Instr.Push(c.coeffs[k])] + FactorsCode(c, c.multisets[k]) + [Add];
      EmitTerm(c, k, out);
      Assoc(old(out.lines), written, line);
      Assoc(written, line, TermsCode(c, k + 1));
      written := written + line;
    }
  }

  method EmitTerm(c: Instance, k: nat, out: Output)
    requires k < |c.multisets| == |c.coeffs|
    modifies out
    ensures out.lines == old(out.lines) + ([Instr.Push(c.coeffs[k])] + FactorsCode(c, c.multisets[k]) + [Add])
  {
    hide ReadCode;
    var factors := c.multisets[k];
    out.Push(Instr.Push(c.coeffs[k]));
    ghost var before := out.lines;
    ghost var written := [];
    assert factors[0..] == factors;
    for i := 0 to |factors|
      invariant out.lines == before + written
      invariant written + FactorsCode(c, factors[i..]) == FactorsCode(c, factors)
    {
      var line := ReadCode(c.cols + factors[i]) + [Mul];
      out.Extend(line);
      assert factors[i..][0] == factors[i] && factors[i..][1..] == factors[i + 1..];
      Assoc(before, written, line);
      Assoc(written, line, FactorsCode(c, factors[i + 1..]));
      written := written + line;
    }
    Assoc(old(out.lines), [Instr.Push(c.coeffs[k])], written);
    out.Push(Add);
    Assoc(old(out.lines), [Instr.Push(c.coeffs[k])] + written, [Add]);
  }
}
