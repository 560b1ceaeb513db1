/** Straight-line operations: the code emitted for each does what the operation means. */
module Operations {
  import opened Words
  import opened Machine
  import opened Legalize
  import opened Borrowing
  import opened DeepAccess
  import opened Encoding
  import opened Permute
  import opened Tir
  import opened Lowering

  /** The widths and depths for which the emitted operands can be encoded. */
  predicate Encodable(op: TIROp) {
    match op
    case Dup(d) => d < 0x1_0000_0000
    case Swap(d) => d < 0x1_0000_0000
    case RamRead(w) => w <= 16
    case RamWrite(w) => w <= 15
    case Reveal(_, n) => n <= 16
    case _ => true
  }

  // ----- batches -----

  lemma {:induction false} BatchPops(s: State, n: nat)
    requires n <= |s.stack|
    ensures Exec(BatchCode(PopOp, n), s) == Some(WithStack(s, s.stack[n..]))
    decreases n
  {
    if n > 0 {
      var k: nat := Least(n, 5);
      var s1 := WithStack(s, s.stack[k..]);
      Exec1(Instr.Pop(k), s);
      BatchPops(s1, n - k);
      assert s.stack[k..][n - k..] == s.stack[n..];
      hide Basic, Exec;
      ChainCat([Instr.Pop(k)], BatchCode(PopOp, n - k), s, s1, WithStack(s, s.stack[n..]));
    }
  }

  lemma TakeMore<T>(s: seq<T>, k: nat, n: nat, stack: seq<T>)
    requires k <= n <= |s|
    ensures s[k..][n - k..] == s[n..]
    ensures Rev(s[k..][..n - k]) + (Rev(s[..k]) + stack) == Rev(s[..n]) + stack
    ensures s[..k] + s[k..][..n - k] == s[..n]
  {
    var front, mid := s[..k], s[k..][..n - k];
    assert front + mid == s[..n];
    assert forall i :: 0 <= i < n ==> s[..n][i] == (if i < k then front[i] else mid[i - k]);
    assert Rev(mid) + Rev(front) == Rev(s[..n]);
    Assoc(Rev(mid), Rev(front), stack);
  }

  lemma {:induction false} BatchInputs(s: State, n: nat)
    requires n <= |s.input|
    ensures Exec(BatchCode(ReadIoOp, n), s) == Some(s.(stack := Rev(s.input[..n]) + s.stack, input := s.input[n..]))
    decreases n
  {
    if n > 0 {
      var k: nat := Least(n, 5);
      var s1 := s.(stack := Rev(s.input[..k]) + s.stack, input := s.input[k..]);
      assert Basic(Instr.ReadIo(k), s) == Some(s1);
      hide Basic;
      Exec1(Instr.ReadIo(k), s);
      BatchInputs(s1, n - k);
      TakeMore(s.input, k, n, s.stack);
      hide Exec, Rev;
      ChainCat([Instr.ReadIo(k)], BatchCode(ReadIoOp, n - k), s, s1, s.(stack := Rev(s.input[..n]) + s.stack, input := s.input[n..]));
    } else {
      assert Rev(s.input[..0]) + s.stack == s.stack;
    }
  }

  lemma {:induction false} BatchHints(s: State, n: nat)
    requires n <= |s.secret|
    ensures Exec(BatchCode(DivineOp, n), s) == Some(s.(stack := Rev(s.secret[..n]) + s.stack, secret := s.secret[n..]))
    decreases n
  {
    if n > 0 {
      var k: nat := Least(n, 5);
      var s1 := s.(stack := Rev(s.secret[..k]) + s.stack, secret := s.secret[k..]);
      assert Basic(Instr.Divine(k), s) == Some(s1);
      hide Basic;
      Exec1(Instr.Divine(k), s);
      BatchHints(s1, n - k);
      TakeMore(s.secret, k, n, s.stack);
      hide Exec, Rev;
      ChainCat([Instr.Divine(k)], BatchCode(DivineOp, n - k), s, s1, s.(stack := Rev(s.secret[..n]) + s.stack, secret := s.secret[n..]));
    } else {
      assert Rev(s.secret[..0]) + s.stack == s.stack;
    }
  }

  lemma {:induction false} BatchOutputs(s: State, n: nat)
    requires n <= |s.stack|
    ensures Exec(BatchCode(WriteIoOp, n), s) == Some(s.(stack := s.stack[n..], output := s.output + s.stack[..n]))
    decreases n
  {
    if n > 0 {
      var k: nat := Least(n, 5);
      var s1 := s.(stack := s.stack[k..], output := s.output + s.stack[..k]);
      assert Basic(Instr.WriteIo(k), s) == Some(s1);
      hide Basic;
      Exec1(Instr.WriteIo(k), s);
      BatchOutputs(s1, n - k);
      TakeMore(s.stack, k, n, []);
      Assoc(s.output, s.stack[..k], s.stack[k..][..n - k]);
      hide Exec, Rev;
      ChainCat([Instr.WriteIo(k)], BatchCode(WriteIoOp, n - k), s, s1, s.(stack := s.stack[n..], output := s.output + s.stack[..n]));
    } else {
      assert s.output + s.stack[..0] == s.output;
    }
  }

  /** Reading n cells downwards leaves them on the stack in the order in which they lie in memory. */
  lemma {:induction false} BatchReads(s: State, p: Word, n: nat, rest: seq<Word>)
    requires s.stack == [p] + rest
    ensures Exec(BatchCode(ReadMemOp, n), s) == Some(WithStack(s, [At(p, 0 - n)] + (Cells(s.ram, At(p, 1 - n), n) + rest)))
    decreases n
  {
    hide Basic, Cells, At;
    if n == 0 {
      AtNone(p);
      assert Cells(s.ram, At(p, 1), 0) + rest == rest;
    } else {
      hide Exec;
      var k: nat := Least(n, 5);
      var m: nat := n - k;
      var p1, hi, low := At(p, 0 - k), At(p, 1 - k), At(p, 1 - n);
      var s1 := WithStack(s, [p1] + (Cells(s.ram, hi, k) + rest));
      OnReadMem(s, p, k, rest);
      Exec1(Instr.ReadMem(k), s);
      BatchReads(s1, p1, m, Cells(s.ram, hi, k) + rest);
      AtAt(p, 0 - k as int, 1 - m);
      AtAt(p, 0 - k as int, 0 - m);
      AtAt(p, 1 - n, m);
      CellsSplit(s.ram, low, m, k);
      Assoc(Cells(s.ram, low, m), Cells(s.ram, hi, k), rest);
      ChainCat([Instr.ReadMem(k)], BatchCode(ReadMemOp, m), s, s1, WithStack(s, [At(p, 0 - n)] + (Cells(s.ram, low, n) + rest)));
    }
  }

  // ----- block memory -----

  /** The words below the address end up in memory in the order in which they were pushed. */
  lemma RamWrites(s: State, vals: seq<Word>, a: Word, rest: seq<Word>)
    requires |vals| <= 15 && s.stack == Rev(vals) + ([a] + rest)
    ensures Exec(RamWriteCode(|vals|), s) == Some(s.(stack := rest, ram := WriteUp(s.ram, a, vals)))
  {
    hide Basic, Exec, WriteUp, ReverseCode, BatchCode, At;
    var block := [a] + vals;
    assert Rev(block) + rest == Rev(vals) + ([a] + rest);
    ReversesStack(s, block, rest);
    var s1 := WithStack(s, [a] + (vals + rest));
    Assoc([a], vals, rest);
    BatchWrites(s1, a, vals, rest);
    var s2 := s.(stack := [At(a, |vals|)] + rest, ram := WriteUp(s.ram, a, vals));
    ChainCat(ReverseCode(|vals| + 1), BatchCode(WriteMemOp, |vals|), s, s1, s2);
    OnPop(s2, At(a, |vals|), rest);
    Exec1(Instr.Pop(1), s2);
    ChainCat(ReverseCode(|vals| + 1) + BatchCode(WriteMemOp, |vals|), [Instr.Pop(1)], s, s2, s2.(stack := rest));
  }

  lemma RamReads(s: State, w: nat, a: Word, rest: seq<Word>)
    requires w <= 16 && s.stack == [a] + rest
    ensures Exec(RamReadCode(w), s) == Some(WithStack(s, Rev(Cells(s.ram, a, w)) + rest))
  {
    hide Basic, Exec, Cells, ReverseCode, BatchCode, At, Offset, Rev;
    var move := if w > 1 then Offset(w - 1) else [];
    var p := if w > 0 then At(a, w - 1) else a;
    var s1 := WithStack(s, [p] + rest);
    if w > 1 {
      Offsets(s, a, w - 1, rest);
    } else {
      AtNone(a);
      ExecNothing(s);
    }
    AtAt(a, w - 1, 1 - w);
    AtNone(a);
    BatchReads(s1, p, w, rest);
    var cells := Cells(s.ram, a, w);
    assert Cells(s.ram, At(p, 1 - w), w) == cells;
    var s2 := WithStack(s, [At(p, 0 - w)] + (cells + rest));
    ChainCat(move, BatchCode(ReadMemOp, w), s, s1, s2);
    OnPop(s2, At(p, 0 - w), cells + rest);
    Exec1(Instr.Pop(1), s2);
    var s3 := WithStack(s, cells + rest);
    ChainCat(move + BatchCode(ReadMemOp, w), [Instr.Pop(1)], s, s2, s3);
    RevTwice(cells);
    ReversesStack(s3, Rev(cells), rest);
    ChainCat(move + BatchCode(ReadMemOp, w) + [Instr.Pop(1)], ReverseCode(w), s, s3, WithStack(s, Rev(cells) + rest));
  }

  /**
   * Writing a block and reading it back at the same address: the words come back in the order
   * in which they were pushed, and no other cell has changed.
   */
  lemma WriteThenRead(s: State, vals: seq<Word>, a: Word, rest: seq<Word>)
    requires |vals| <= 15 && s.stack == Rev(vals) + ([a] + ([a] + rest))
    ensures var after := WriteUp(s.ram, a, vals);
      && Exec(RamWriteCode(|vals|) + RamReadCode(|vals|), s) == Some(s.(stack := Rev(vals) + rest, ram := after))
      && forall x: Word :: Off(a, x) >= |vals| ==> Read(after, x) == Read(s.ram, x)
  {
    var after := WriteUp(s.ram, a, vals);
    RamWrites(s, vals, a, [a] + rest);
    var s1 := s.(stack := [a] + rest, ram := after);
    RamReads(s1, |vals|, a, rest);
    CellsWriteUp(s.ram, a, vals);
    hide Exec, Basic, RamWriteCode, RamReadCode, WriteUp;
    ChainCat(RamWriteCode(|vals|), RamReadCode(|vals|), s, s1, s1.(stack := Rev(vals) + rest));
    forall x: Word | Off(a, x) >= |vals|
      ensures Read(after, x) == Read(s.ram, x)
    {
      ReadWriteUp(s.ram, a, vals, x);
    }
  }

  /** The widths that lower to instructions the machine has. */
  lemma BlockWidths(w: nat)
    ensures AllNative(RamWriteCode(w)) <==> w <= 15
    ensures AllNative(RamReadCode(w)) <==> w <= 16
  {
    hide ReverseCode;
    BatchNative(WriteMemOp, w);
    BatchNative(ReadMemOp, w);
    ReverseNative(w + 1);
    ReverseNative(w);
    NativeCat(ReverseCode(w + 1), BatchCode(WriteMemOp, w));
    NativeCat(ReverseCode(w + 1) + BatchCode(WriteMemOp, w), [Instr.Pop(1)]);
    var move := if w > 1 then Offset(w - 1) else [];
    NativeCat(move, BatchCode(ReadMemOp, w));
    NativeCat(move + BatchCode(ReadMemOp, w), [Instr.Pop(1)]);
    NativeCat(move + BatchCode(ReadMemOp, w) + [Instr.Pop(1)], ReverseCode(w));
  }

  lemma RevealNative(tag: nat, fields: nat)
    requires fields <= 16
    ensures AllNative(RevealCode(tag, fields))
  {
    hide ReverseCode, RepeatCode;
    ReverseNative(fields);
    RepeatNative([Instr.WriteIo(1)], fields);
  }

  lemma FixedNative(op: TIROp)
    requires !op.FnStart?
    ensures AllNative(FixedCode(op))
  {}

  lemma FlatNative(op: TIROp)
    requires Encodable(op) && !op.FnStart?
    ensures AllNative(FlatCode(op))
  {
    hide BatchCode, ReverseCode, RamReadCode, RamWriteCode, RepeatCode, RevealCode, AllNative;
    match op
    case Pop(n) => BatchNative(PopOp, n);
    case ReadIo(n) => BatchNative(ReadIoOp, n);
    case WriteIo(n) => BatchNative(WriteIoOp, n);
    case Hint(n) => BatchNative(DivineOp, n);
    case RamRead(w) => BlockWidths(w);
    case RamWrite(w) => BlockWidths(w);
    case Reveal(tag, n) => RevealNative(tag, n);
    case _ => FixedNative(op);
  }

  // ----- revealing -----

  lemma {:induction false} WritesEach(s: State, n: nat)
    requires n <= |s.stack|
    ensures Exec(RepeatCode([Instr.WriteIo(1)], n), s) == Some(s.(stack := s.stack[n..], output := s.output + s.stack[..n]))
    decreases n
  {
    if n > 0 {
      var s1 := s.(stack := s.stack[1..], output := s.output + s.stack[..1]);
      assert Basic(Instr.WriteIo(1), s) == Some(s1);
      hide Basic;
      Exec1(Instr.WriteIo(1), s);
      WritesEach(s1, n - 1);
      TakeMore(s.stack, 1, n, []);
      Assoc(s.output, s.stack[..1], s.stack[1..][..n - 1]);
      hide Exec, Rev;
      ChainCat([Instr.WriteIo(1)], RepeatCode([Instr.WriteIo(1)], n - 1), s, s1,
               s.(stack := s.stack[n..], output := s.output + s.stack[..n]));
    } else {
      assert s.output + s.stack[..0] == s.output;
    }
  }

  lemma OnWriteIo(s: State, x: Word, rest: seq<Word>)
    requires s.stack == [x] + rest
    ensures Basic(Instr.WriteIo(1), s) == Some(s.(stack := rest, output := s.output + [x]))
  {
    assert s.stack[..1] == [x];
  }

  lemma TagGoesOut(s: State, tag: Word)
    ensures Exec([Instr.Push(tag), Instr.WriteIo(1)], s) == Some(s.(output := s.output + [tag]))
  {
    hide Basic, Exec;
    var s1 := WithStack(s, [tag] + s.stack);
    OnPush(s, tag);
    OnWriteIo(s1, tag, s.stack);
    Chain2(Instr.Push(tag), Instr.WriteIo(1), s, s1, s.(output := s.output + [tag]));
  }

  /** The tag goes out first, then the fields in the order in which they were pushed. */
  lemma Reveals(s: State, tag: nat, fields: seq<Word>, rest: seq<Word>)
    requires |fields| <= 16 && s.stack == Rev(fields) + rest
    ensures Exec(RevealCode(tag, |fields|), s) == Some(s.(stack := rest, output := s.output + [Lit(tag)] + fields))
  {
    hide Basic, Exec, ReverseCode, RepeatCode;
    var n := |fields|;
    var s1 := WithStack(s, fields + rest);
    var turn := if n > 1 then ReverseCode(n) else [];
    if n > 1 {
      ReversesStack(s, fields, rest);
    } else {
      assert Rev(fields) == fields;
      ExecNothing(s);
    }
    var s2 := s1.(output := s.output + [Lit(tag)]);
    TagGoesOut(s1, Lit(tag));
    ChainCat(turn, [Instr.Push(Lit(tag)), Instr.WriteIo(1)], s, s1, s2);
    WritesEach(s2, n);
    assert s2.stack[n..] == rest && s2.stack[..n] == fields;
    ChainCat(turn + [Instr.Push(Lit(tag)), Instr.WriteIo(1)], RepeatCode([Instr.WriteIo(1)], n), s, s2,
             s.(stack := rest, output := s.output + [Lit(tag)] + fields));
  }

  // ----- arithmetic -----

  lemma MinusOne(x: Word)
    ensures (Lit(-1) * x) % P == (0 - x) % P
  {
    assert Lit(-1) * x == P * x - x;
    assert (P * x - x) % P == (0 - x) % P by { DropMultiple(0 - x, x); }
  }

  lemma PopsTwo(s: State, x: Word, y: Word, rest: seq<Word>)
    requires |s.stack| >= 2 && x == s.stack[0] && y == s.stack[1] && rest == s.stack[2..]
    ensures s.stack == [x] + ([y] + rest)
  {}

  lemma Negates(s: State, x: Word, rest: seq<Word>)
    requires s.stack == [x] + rest
    ensures Exec([Instr.Push(Lit(-1)), Instr.Mul], s) == Some(WithStack(s, [(0 - x) % P] + rest))
  {
    hide Basic, Exec;
    MinusOne(x);
    OnPush(s, Lit(-1));
    var s1 := WithStack(s, [Lit(-1)] + s.stack);
    OnBinary(Instr.Mul, s1, Lit(-1), x, rest, (0 - x) % P);
    Chain2(Instr.Push(Lit(-1)), Instr.Mul, s, s1, WithStack(s, [(0 - x) % P] + rest));
  }

  lemma NegPlus(x: Word, y: Word)
    ensures ((0 - x) % P + y) % P == (y - x) % P
  {}

  lemma Subtracts(s: State, x: Word, y: Word, rest: seq<Word>)
    requires s.stack == [x] + ([y] + rest)
    ensures Exec(FixedCode(TIROp.Sub), s) == Some(WithStack(s, [(y - x) % P] + rest))
  {
    hide Basic, Exec;
    Negates(s, x, [y] + rest);
    var m := (0 - x) % P;
    var s1 := WithStack(s, [m] + ([y] + rest));
    NegPlus(x, y);
    OnBinary(Instr.Add, s1, m, y, rest, (y - x) % P);
    Exec1(Instr.Add, s1);
    ChainCat([Instr.Push(Lit(-1)), Instr.Mul], [Instr.Add], s, s1, WithStack(s, [(y - x) % P] + rest));
    assert [Instr.Push(Lit(-1)), Instr.Mul] + [Instr.Add] == FixedCode(TIROp.Sub);
  }

  lemma Powers(s: State, x: Word, y: Word, rest: seq<Word>)
    requires s.stack == [x] + ([y] + rest) && IsU32(x)
    ensures Exec(FixedCode(TIROp.Pow), s) == Some(WithStack(s, [PowMod(y, x)] + rest))
  {
    hide Basic, Exec, PowMod;
    OnSwap(s, x, y, rest);
    var s1 := WithStack(s, [y] + ([x] + rest));
    OnBinary(Instr.Pow, s1, y, x, rest, PowMod(y, x));
    Chain2(Instr.Swap(1), Instr.Pow, s, s1, WithStack(s, [PowMod(y, x)] + rest));
  }

  /** Arithmetic that is a machine instruction of the same meaning. */
  function Direct(op: TIROp): Option<Instr> {
    match op
    case Add => Some(Instr.Add)
    case Mul => Some(Instr.Mul)
    case Eq => Some(Instr.Eq)
    case Lt => Some(Instr.Lt)
    case DivMod => Some(Instr.DivMod)
    case _ => None
  }

  lemma DirectWorks(op: TIROp, s: State, x: Word, y: Word, rest: seq<Word>, r: seq<Word>)
    requires s.stack == [x] + ([y] + rest) && Direct(op).Some? && Tir.Binary(op, x, y) == Some(r)
    ensures Machine.Binary(Direct(op).value, x, y) == Some(r) && Basic(Direct(op).value, s) == Some(WithStack(s, r + rest))
  {
    assert s.stack[2..] == rest;
  }

  lemma BinaryWorks(op: TIROp, s: State, x: Word, y: Word, rest: seq<Word>, r: seq<Word>)
    requires s.stack == [x] + ([y] + rest) && Tir.Binary(op, x, y) == Some(r)
    ensures Exec(FixedCode(op), s) == Some(WithStack(s, r + rest))
  {
    hide Basic, Exec, PowMod;
    if op.Sub? {
      Subtracts(s, x, y, rest);
    } else if op.Pow? {
      Powers(s, x, y, rest);
    } else {
      DirectWorks(op, s, x, y, rest, r);
      Exec1(Direct(op).value, s);
    }
  }

  lemma UnaryWorks(op: TIROp, s: State, x: Word, rest: seq<Word>, r: seq<Word>)
    requires s.stack == [x] + rest && Tir.Unary(op, x) == Some(r)
    ensures Exec(FixedCode(op), s) == Some(WithStack(s, r + rest))
  {
    hide Exec;
    if op.Neg? {
      hide Basic;
      Negates(s, x, rest);
    } else {
      var i := if op.Split? then Instr.Split else Instr.Assert;
      assert s.stack[1..] == rest;
      assert Basic(i, s) == Some(WithStack(s, r + rest));
      hide Basic;
      Exec1(i, s);
    }
  }

  lemma ConsumeWorks(op: TIROp, s: State, t: State)
    requires Consume(op, s) == Some(t)
    ensures Exec(FixedCode(op), s) == Some(t)
  {
    hide Exec, FixedCode, Tir.Binary, Tir.Unary;
    if op == TIROp.Neg || op == TIROp.Split || op == TIROp.Assert {
      assert s.stack == [s.stack[0]] + s.stack[1..];
      UnaryWorks(op, s, s.stack[0], s.stack[1..], Tir.Unary(op, s.stack[0]).value);
    } else {
      PopsTwo(s, s.stack[0], s.stack[1], s.stack[2..]);
      BinaryWorks(op, s, s.stack[0], s.stack[1], s.stack[2..], Tir.Binary(op, s.stack[0], s.stack[1]).value);
    }
  }

  // ----- every straight-line operation -----

  lemma ReadWorks(w: nat, s: State)
    requires w <= 16 && |s.stack| >= 1
    ensures Exec(RamReadCode(w), s) == Some(WithStack(s, Rev(Cells(s.ram, s.stack[0], w)) + s.stack[1..]))
  {
    hide Exec, Cells, RamReadCode;
    assert s.stack == [s.stack[0]] + s.stack[1..];
    RamReads(s, w, s.stack[0], s.stack[1..]);
  }

  lemma WriteWorks(w: nat, s: State)
    requires w <= 15 && |s.stack| >= w + 1
    ensures Exec(RamWriteCode(w), s)
         == Some(s.(stack := s.stack[w + 1..], ram := WriteUp(s.ram, s.stack[w], Rev(s.stack[..w]))))
  {
    hide Exec, WriteUp, RamWriteCode, Rev;
    var vals := Rev(s.stack[..w]);
    RevTwice(s.stack[..w]);
    assert s.stack == s.stack[..w] + ([s.stack[w]] + s.stack[w + 1..]);
    RamWrites(s, vals, s.stack[w], s.stack[w + 1..]);
  }

  lemma RevealWorks(tag: nat, n: nat, s: State)
    requires n <= 16 && |s.stack| >= n
    ensures Exec(RevealCode(tag, n), s)
         == Some(s.(stack := s.stack[n..], output := s.output + [tag % P] + Rev(s.stack[..n])))
  {
    hide Exec, RevealCode, Rev;
    RevTwice(s.stack[..n]);
    TakeDrop(s.stack, n);
    Reveals(s, tag, Rev(s.stack[..n]), s.stack[n..]);
  }

  lemma BlockWorks(op: TIROp, s: State, t: State)
    requires op.RamRead? || op.RamWrite? || op.Reveal?
    requires Simple(op, s) == Some(t) && Encodable(op)
    ensures Exec(FlatCode(op), s) == Some(t)
  {
    hide Exec, WriteUp, Cells, RamReadCode, RamWriteCode, RevealCode, Rev;
    if op.RamRead? {
      ReadWorks(op.width, s);
    } else if op.RamWrite? {
      WriteWorks(op.width, s);
    } else {
      RevealWorks(op.tag, op.fields, s);
    }
  }

  /** The code of every operation that is neither control flow nor a stack access has the operation's meaning. */
  lemma FlatWorks(op: TIROp, s: State, t: State)
    requires !IsControl(op) && !op.Dup? && !op.Swap? && Encodable(op)
    requires Simple(op, s) == Some(t)
    ensures Exec(FlatCode(op), s) == Some(t)
  {
    if op.RamRead? || op.RamWrite? || op.Reveal? {
      BlockWorks(op, s, t);
    } else {
      hide Exec, Basic, Consume, BatchCode;
      match op
      case Push(v) => OnPush(s, v % P); Exec1(Instr.Push(v % P), s);
      case Pop(n) => BatchPops(s, n);
      case ReadIo(n) => BatchInputs(s, n);
      case WriteIo(n) => BatchOutputs(s, n);
      case Hint(n) => BatchHints(s, n);
      case _ => ConsumeWorks(op, s, t);
    }
  }

  // ----- refusals -----

  lemma {:induction false} BatchStarves(op: Opcode, s: State, n: nat)
    requires op == ReadIoOp || op == DivineOp
    requires n > if op == ReadIoOp then |s.input| else |s.secret|
    ensures Exec(BatchCode(op, n), s) == None && JumpFree(BatchCode(op, n))
    decreases n
  {
    var k: nat := Least(n, 5);
    var i := Batched(op, k);
    var r := Basic(i, s);
    BatchIsJumpFree(op, n);
    assert BatchCode(op, n) == [i] + BatchCode(op, n - k);
    hide BatchCode, Exec, JumpFree;
    ExecCat([i], BatchCode(op, n - k), s);
    Exec1(i, s);
    if r.Some? {
      BatchStarves(op, r.value, n - k);
    }
  }

  lemma {:induction false} BatchIsJumpFree(op: Opcode, n: nat)
    ensures JumpFree(BatchCode(op, n))
    decreases n
  {
    if n > 0 {
      BatchIsJumpFree(op, n - Least(n, 5));
    }
  }

  /** Where an operation refuses its words or lacks input, so does its code. */
  lemma FlatRefuses(op: TIROp, s: State)
    requires !IsControl(op) && !op.Dup? && !op.Swap? && Enough(op, s) && Simple(op, s) == None
    ensures Exec(FlatCode(op), s) == None && JumpFree(FlatCode(op))
  {
    if op.ReadIo? {
      BatchStarves(ReadIoOp, s, op.n);
    } else if op.Hint? {
      BatchStarves(DivineOp, s, op.n);
    } else {
      hide Exec;
      FixedRefuses(op, s);
    }
  }

  lemma FixedRefuses(op: TIROp, s: State)
    requires !IsControl(op) && !op.Dup? && !op.Swap? && !op.ReadIo? && !op.Hint? && Enough(op, s) && Simple(op, s) == None
    ensures op.Assert? || op.Lt? || op.DivMod? || op.Pow?
    ensures Exec(FlatCode(op), s) == None && JumpFree(FlatCode(op))
  {
    assert op.Assert? || op.Lt? || op.DivMod? || op.Pow?;
    if op.Pow? {
      PowRefuses(s);
    } else {
      hide Exec;
      var i := if op.Assert? then Instr.Assert else if op.Lt? then Instr.Lt else Instr.DivMod;
      Exec1(i, s);
      assert FlatCode(op) == [i];
    }
  }

  lemma PowRefuses(s: State)
    requires |s.stack| >= 2 && !IsU32(s.stack[0])
    ensures Exec([Instr.Swap(1), Instr.Pow], s) == None
  {
    hide Exec;
    var x, y, rest := s.stack[0], s.stack[1], s.stack[2..];
    assert s.stack == [x] + ([y] + rest);
    OnSwap(s, x, y, rest);
    var s1 := WithStack(s, [y] + ([x] + rest));
    Exec1(Instr.Swap(1), s);
    ExecSnoc([Instr.Swap(1)], Instr.Pow, s);
    assert [Instr.Swap(1)] + [Instr.Pow] == [Instr.Swap(1), Instr.Pow];
    assert Basic(Instr.Pow, s1) == None;
  }
}
