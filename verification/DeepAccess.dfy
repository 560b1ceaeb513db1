/** Stack accesses of any depth: the borrowed cells come back as they were, and only the access itself is seen. */
module DeepAccess {
  import opened Words
  import opened Machine
  import opened Control
  import opened Legalize
  import opened Scanning
  import opened Borrowing
  import Tir

  // ----- spilling -----

  lemma {:induction false} BatchWrites(s: State, ptr: Word, vals: seq<Word>, rest: seq<Word>)
    requires s.stack == [ptr] + (vals + rest) && |vals| < P
    ensures Exec(BatchCode(WriteMemOp, |vals|), s)
         == Some(s.(stack := [At(ptr, |vals|)] + rest, ram := WriteUp(s.ram, ptr, vals)))
    decreases |vals|
  {
    hide Basic, WriteUp, At;
    if vals == [] {
      assert At(ptr, 0) == ptr by { AtNone(ptr); }
      assert WriteUp(s.ram, ptr, vals) == s.ram by { WritesNothing(s.ram, ptr); }
      assert vals + rest == rest;
    } else {
      hide Exec;
      var k := Least(|vals|, 5);
      var p1 := At(ptr, k);
      TakeDrop(vals, k);
      assert vals + rest == vals[..k] + (vals[k..] + rest);
      OnWriteMem(s, ptr, vals[..k], vals[k..] + rest);
      Exec1(Instr.WriteMem(k), s);
      var s1 := s.(stack := [p1] + (vals[k..] + rest), ram := WriteUp(s.ram, ptr, vals[..k]));
      BatchWrites(s1, p1, vals[k..], rest);
      AtAt(ptr, k, |vals| - k);
      WriteUpCat(s.ram, ptr, vals[..k], p1, vals[k..]);
      ChainCat([Instr.WriteMem(k)], BatchCode(WriteMemOp, |vals| - k), s, s1,
               s.(stack := [At(ptr, |vals|)] + rest, ram := WriteUp(s.ram, ptr, vals)));
    }
  }

  lemma WritesNothing(ram: Ram, a: Word)
    ensures WriteUp(ram, a, []) == ram
  {}

  lemma TakeDrop<T>(s: seq<T>, k: nat)
    requires k <= |s|
    ensures s[..k] + s[k..] == s
  {}

  // ----- restoring -----

  lemma {:induction false} PushesZeros(n: nat, s: State)
    ensures Exec(ZerosCode(n), s) == Some(WithStack(s, Zeros(n) + s.stack))
  {
    hide Basic;
    if n == 0 {
      assert Zeros(0) + s.stack == s.stack;
    } else {
      OnPush(s, 0);
      Exec1(Instr.Push(0), s);
      var s1 := WithStack(s, [0] + s.stack);
      PushesZeros(n - 1, s1);
      assert Zeros(n - 1) + ([0] + s.stack) == Zeros(n) + s.stack;
      ChainCat([Instr.Push(0)], ZerosCode(n - 1), s, s1, WithStack(s, Zeros(n) + s.stack));
    }
  }

  lemma RestoreClears(s: State, p: Word, n: nat, below: Word, rest: seq<Word>)
    requires s.stack == Zeros(n) + ([below] + rest) && 1 <= n <= 5 && At(below, n) == p
    ensures Exec([Instr.Dup(n), Instr.Push(1), Add, Instr.WriteMem(n), Instr.Pop(1)], s)
         == Some(s.(stack := [below] + rest, ram := WriteUp(s.ram, At(p, 1 - n), Zeros(n))))
  {
    hide Basic, Exec, WriteUp;
    var q := At(p, 1 - n);
    OnDup(s, n);
    var s1 := WithStack(s, [below] + s.stack);
    OnPush(s1, 1);
    var s2 := WithStack(s, [1] + ([below] + s.stack));
    OnBinary(Add, s2, 1, below, s.stack, q);
    var s3 := WithStack(s, [q] + (Zeros(n) + ([below] + rest)));
    OnWriteMem(s3, q, Zeros(n), [below] + rest);
    var s4 := s.(stack := [At(q, n)] + ([below] + rest), ram := WriteUp(s.ram, q, Zeros(n)));
    OnPop(s4, At(q, n), [below] + rest);
    Chain5(Instr.Dup(n), Instr.Push(1), Add, Instr.WriteMem(n), Instr.Pop(1), s, s1, s2, s3, s4, s4.(stack := [below] + rest));
  }

  lemma RestoreStep(s: State, p: Word, n: nat, rest: seq<Word>)
    requires s.stack == [p] + rest && 1 <= n <= 5
    ensures Exec(RestoreChunk(n), s)
         == Some(s.(stack := [At(p, 0 - n)] + (Cells(s.ram, At(p, 1 - n), n) + rest), ram := WriteUp(s.ram, At(p, 1 - n), Zeros(n))))
  {
    hide Basic, Exec, WriteUp, Cells, ZerosCode, Zeros, At;
    var below, vals := At(p, 0 - n), Cells(s.ram, At(p, 1 - n), n);
    OnReadMem(s, p, n, rest);
    Exec1(Instr.ReadMem(n), s);
    var s1 := WithStack(s, [below] + (vals + rest));
    PushesZeros(n, s1);
    var s2 := WithStack(s, Zeros(n) + s1.stack);
    ChainCat([Instr.ReadMem(n)], ZerosCode(n), s, s1, s2);
    AtAt(p, 0 - n, n);
    AtNone(p);
    RestoreClears(s2, p, n, below, vals + rest);
    ChainCat([Instr.ReadMem(n)] + ZerosCode(n), [Instr.Dup(n), Instr.Push(1), Add, Instr.WriteMem(n), Instr.Pop(1)],
             s, s2, s.(stack := [below] + (vals + rest), ram := WriteUp(s.ram, At(p, 1 - n), Zeros(n))));
  }

  /** Zeroing the upper k of n cells leaves the others as they were; zeroing those too zeroes all n. */
  lemma ZeroDown(ram: Ram, a: Word, m: nat, k: nat)
    requires m + k < P
    ensures var upper := WriteUp(ram, At(a, m), Zeros(k));
      Cells(upper, a, m) == Cells(ram, a, m) && WriteUp(upper, a, Zeros(m)) == WriteUp(ram, a, Zeros(m + k))
  {
    var upper := WriteUp(ram, At(a, m), Zeros(k));
    forall i | 0 <= i < m
      ensures Read(upper, At(a, i)) == Read(ram, At(a, i))
    {
      ReadWriteUp(ram, At(a, m), Zeros(k), At(a, i));
      OffShift(a, At(a, i), m);
      OffAt(a, i);
    }
    forall x: Word
      ensures Read(WriteUp(upper, a, Zeros(m)), x) == Read(WriteUp(ram, a, Zeros(m + k)), x)
    {
      ZeroDownAt(ram, a, m, k, x);
    }
    SameRam(WriteUp(upper, a, Zeros(m)), WriteUp(ram, a, Zeros(m + k)));
  }

  lemma ZeroDownAt(ram: Ram, a: Word, m: nat, k: nat, x: Word)
    requires m + k < P
    ensures Read(WriteUp(WriteUp(ram, At(a, m), Zeros(k)), a, Zeros(m)), x) == Read(WriteUp(ram, a, Zeros(m + k)), x)
  {
    ReadWriteUp(WriteUp(ram, At(a, m), Zeros(k)), a, Zeros(m), x);
    ReadWriteUp(ram, At(a, m), Zeros(k), x);
    ReadWriteUp(ram, a, Zeros(m + k), x);
    OffShift(a, x, m);
  }

  /** Restoring pushes the n words ending at the pointer and zeroes their cells. */
  lemma {:induction false} RestoreLoop(s: State, p: Word, n: nat, rest: seq<Word>)
    requires s.stack == [p] + rest && n < P
    ensures Exec(RestoreCode(n), s)
         == Some(s.(stack := [At(p, 0 - n)] + (Cells(s.ram, At(p, 1 - n), n) + rest), ram := WriteUp(s.ram, At(p, 1 - n), Zeros(n))))
    decreases n
  {
    hide Basic, WriteUp, Cells, At, RestoreChunk;
    if n == 0 {
      AtNone(p);
      WritesNothing(s.ram, At(p, 1));
      assert Cells(s.ram, At(p, 1), 0) + rest == rest;
    } else {
      hide Exec, Zeros;
      var k: nat := Least(n, 5);
      var m: nat := n - k;
      var low, p1, hi := At(p, 1 - n), At(p, 0 - k), At(p, 1 - k);
      RestoreStep(s, p, k, rest);
      var s1 := s.(stack := [p1] + (Cells(s.ram, hi, k) + rest), ram := WriteUp(s.ram, hi, Zeros(k)));
      AtAt(p, 1 - n, m);
      AtAt(p, 0 - k as int, 1 - m);
      AtAt(p, 0 - k as int, 0 - m);
      ZeroDown(s.ram, low, m, k);
      CellsSplit(s.ram, low, m, k);
      RestoreLoop(s1, p1, m, Cells(s.ram, hi, k) + rest);
      Assoc(Cells(s.ram, low, m), Cells(s.ram, hi, k), rest);
      ChainCat(RestoreChunk(k), RestoreCode(m), s, s1,
               s.(stack := [At(p, 0 - n)] + (Cells(s.ram, low, n) + rest), ram := WriteUp(s.ram, low, Zeros(n))));
    }
  }

  // ----- duplicating -----

  lemma SavesCopy(s: State, end: Word, rest: seq<Word>)
    requires s.stack == [end] + rest && |rest| > 14
    ensures Exec(DupSave(), s)
         == Some(s.(stack := [At(end, -1)] + rest, ram := WriteUp(s.ram, end, [rest[14]])))
  {
    hide Basic, Exec, WriteUp;
    var w := rest[14];
    OnDup(s, 15);
    var s1 := WithStack(s, [w] + ([end] + rest));
    OnSwap(s1, w, end, rest);
    var s2 := WithStack(s, [end] + ([w] + rest));
    OnWriteMem(s2, end, [w], rest);
    var s3 := s.(stack := [At(end, 1)] + rest, ram := WriteUp(s.ram, end, [w]));
    OnPush(s3, Lit(-2));
    var s4 := s3.(stack := [Lit(-2)] + s3.stack);
    OnBinary(Add, s4, Lit(-2), At(end, 1), rest, At(end, -1));
    Chain5(Instr.Dup(15), Instr.Swap(1), Instr.WriteMem(1), Instr.Push(Lit(-2)), Add, s, s1, s2, s3, s4, s3.(stack := [At(end, -1)] + rest));
  }

  lemma Offsets(s: State, p: Word, n: int, rest: seq<Word>)
    requires s.stack == [p] + rest
    ensures Exec(Offset(n), s) == Some(WithStack(s, [At(p, n)] + rest))
  {
    hide Basic, Exec;
    OnPush(s, Lit(n));
    var s1 := WithStack(s, [Lit(n)] + s.stack);
    OnBinary(Add, s1, Lit(n), p, rest, At(p, n));
    Chain2(Instr.Push(Lit(n)), Add, s, s1, WithStack(s, [At(p, n)] + rest));
  }

  /** The memory while a copy of `w` lies behind the spilled block, and after both are cleared. */
  lemma DupMemory(ram: Ram, base: Word, vals: seq<Word>, w: Word)
    requires ZeroRun(ram, base, |vals| + 1) && |vals| + 1 < P
    ensures var saved := WriteUp(WriteUp(ram, base, vals), At(base, |vals|), [w]);
      var cleared := WriteUp(saved, base, Zeros(|vals|));
      && Cells(saved, base, |vals|) == vals
      && Cells(cleared, At(base, |vals|), 1) == [w]
      && WriteUp(cleared, At(base, |vals|), Zeros(1)) == ram
  {
    hide WriteUp, ZeroRun;
    var n := |vals|;
    var both := vals + [w];
    var saved := WriteUp(ram, base, both);
    WriteUpCat(ram, base, vals, At(base, n), [w]);
    CellsWriteUp(ram, base, both);
    CellsSplit(saved, base, n, 1);
    assert Cells(saved, base, n) == vals && Cells(saved, At(base, n), 1) == [w] by {
      assert Cells(saved, base, n) == both[..n];
      assert Cells(saved, At(base, n), 1) == both[n..];
    }
    var cleared := WriteUp(saved, base, Zeros(n));
    assert Read(cleared, At(base, n)) == Read(saved, At(base, n)) by {
      ReadWriteUp(saved, base, Zeros(n), At(base, n));
      OffAt(base, n);
    }
    assert Cells(cleared, At(base, n), 1) == [w] by {
      AtNone(At(base, n));
      assert Cells(saved, At(base, n), 1)[0] == Read(saved, At(base, n));
    }
    WriteUpCat(saved, base, Zeros(n), At(base, n), Zeros(1));
    assert Zeros(n) + Zeros(1) == Zeros(n + 1);
    ClearRestores(ram, base, both);
  }

  /** After the spill: the copy and the spilled words come back, and so does the memory. */
  lemma Reloads(s: State, ram: Ram, base: Word, vals: seq<Word>, rest: seq<Word>)
    requires 0 < |vals| < P - 1 && ZeroRun(ram, base, |vals| + 1) && |rest| > 14
    requires s.stack == [At(base, |vals|)] + rest && s.ram == WriteUp(ram, base, vals)
    ensures Exec(DupCode(|vals|) + [Instr.Pop(1)], s) == Some(s.(stack := [rest[14]] + (vals + rest), ram := ram))
  {
    hide Basic, Exec, WriteUp, Cells, Zeros, RestoreCode, DupSave, Offset, At, ZeroRun;
    var n, w := |vals|, rest[14];
    var end := At(base, n);
    DupMemory(ram, base, vals, w);
    SavesCopy(s, end, rest);
    var s1 := s.(stack := [At(end, -1)] + rest, ram := WriteUp(s.ram, end, [w]));
    AtAt(base, n, -1);
    AtAt(base, n - 1, 0 - n);
    AtAt(base, n - 1, 1 - n);
    AtNone(base);
    RestoreLoop(s1, At(base, n - 1), n, rest);
    var s2 := s1.(stack := [At(base, -1)] + (vals + rest), ram := WriteUp(s1.ram, base, Zeros(n)));
    ChainCat(DupSave(), RestoreCode(n), s, s1, s2);
    Offsets(s2, At(base, -1), n + 1, vals + rest);
    AtAt(base, -1, n + 1);
    var s3 := WithStack(s2, [end] + (vals + rest));
    ChainCat(DupSave() + RestoreCode(n), Offset(n + 1), s, s2, s3);
    AtNone(end);
    RestoreLoop(s3, end, 1, vals + rest);
    var s4 := s3.(stack := [At(end, -1)] + ([w] + (vals + rest)), ram := ram);
    ChainCat(DupSave() + RestoreCode(n) + Offset(n + 1), RestoreCode(1), s, s3, s4);
    OnPop(s4, At(end, -1), [w] + (vals + rest));
    Exec1(Instr.Pop(1), s4);
    ChainCat(DupCode(n), [Instr.Pop(1)], s, s4, s4.(stack := [w] + (vals + rest)));
  }

  // ----- swapping -----

  lemma LoadsFirst(s: State, base: Word, n: nat, v: Word, rest: seq<Word>)
    requires s.stack == [At(base, n)] + rest && |rest| > 13 && Read(s.ram, base) == v
    ensures Exec(SwapExchange(n), s) == Some(WithStack(s, [rest[13]] + ([At(base, n)] + rest[13 := v])))
  {
    hide Basic, Exec, Offset, Read, Cells, At;
    var end := At(base, n);
    OnDup(s, 0);
    Exec1(Instr.Dup(0), s);
    var s1 := WithStack(s, [end] + ([end] + rest));
    Offsets(s1, end, 0 - n, [end] + rest);
    AtAt(base, n, 0 - n);
    AtNone(base);
    var s2 := WithStack(s, [base] + ([end] + rest));
    ChainCat([Instr.Dup(0)], Offset(0 - n), s, s1, s2);
    OnReadMem(s2, base, 1, [end] + rest);
    OneCell(s.ram, base);
    var s3 := WithStack(s, [At(base, -1)] + ([v] + ([end] + rest)));
    OnPop(s3, At(base, -1), [v] + ([end] + rest));
    var s4 := WithStack(s, [v] + ([end] + rest));
    var s5 := WithStack(s, [rest[13]] + ([end] + rest[13 := v]));
    OnSwapDeep(s4, v, end, rest);
    Chain3(Instr.ReadMem(1), Instr.Pop(1), Instr.Swap(15), s2, s3, s4, s5);
    ChainCat([Instr.Dup(0)] + Offset(0 - n), [Instr.ReadMem(1), Instr.Pop(1), Instr.Swap(15)], s, s2, s5);
  }

  lemma OnSwapDeep(s: State, x: Word, y: Word, rest: seq<Word>)
    requires s.stack == [x] + ([y] + rest) && |rest| > 13
    ensures Basic(Instr.Swap(15), s) == Some(WithStack(s, [rest[13]] + ([y] + rest[13 := x])))
  {
    assert SwapTop(s.stack, 15) == [rest[13]] + ([y] + rest[13 := x]);
  }

  lemma StoresWanted(s: State, base: Word, n: nat, w: Word, rest: seq<Word>)
    requires s.stack == [w] + ([At(base, n)] + rest)
    ensures Exec(SwapStore(n), s) == Some(s.(stack := [At(base, n - 1)] + rest, ram := WriteUp(s.ram, base, [w])))
  {
    hide Basic, Exec, Offset, WriteUp, At;
    var end := At(base, n);
    OnDup(s, 1);
    Exec1(Instr.Dup(1), s);
    var s1 := WithStack(s, [end] + s.stack);
    Offsets(s1, end, 0 - n, s.stack);
    AtAt(base, n, 0 - n);
    AtNone(base);
    var s2 := WithStack(s, [base] + ([w] + ([end] + rest)));
    ChainCat([Instr.Dup(1)], Offset(0 - n), s, s1, s2);
    OnWriteMem(s2, base, [w], [end] + rest);
    var s3 := s.(stack := [At(base, 1)] + ([end] + rest), ram := WriteUp(s.ram, base, [w]));
    OnPop(s3, At(base, 1), [end] + rest);
    var s4 := WithStack(s3, [end] + rest);
    Offsets(s4, end, -1, rest);
    AtAt(base, n, -1);
    var s5 := WithStack(s3, [At(base, n - 1)] + rest);
    Chain2(Instr.WriteMem(1), Instr.Pop(1), s2, s3, s4);
    ChainCat([Instr.WriteMem(1), Instr.Pop(1)], Offset(-1), s2, s4, s5);
    var tail := [Instr.WriteMem(1), Instr.Pop(1), Instr.Push(Lit(-1)), Add];
    assert [Instr.WriteMem(1), Instr.Pop(1)] + Offset(-1) == tail by { TailOfStore(); }
    ChainCat([Instr.Dup(1)] + Offset(0 - n), tail, s, s2, s5);
  }

  lemma TailOfStore()
    ensures [Instr.WriteMem(1), Instr.Pop(1)] + Offset(-1) == [Instr.WriteMem(1), Instr.Pop(1), Instr.Push(Lit(-1)), Add]
  {}

  lemma SwapMemory(ram: Ram, base: Word, vals: seq<Word>, w: Word)
    requires ZeroRun(ram, base, |vals|) && 0 < |vals| < P
    ensures var stored := WriteUp(WriteUp(ram, base, vals), base, [w]);
      && Read(WriteUp(ram, base, vals), base) == vals[0]
      && Cells(stored, base, |vals|) == vals[0 := w]
      && WriteUp(stored, base, Zeros(|vals|)) == ram
  {
    var spilled, stored := WriteUp(ram, base, vals), WriteUp(ram, base, vals[0 := w]);
    assert WriteUp(spilled, base, [w]) == stored by {
      hide WriteUp, ZeroRun;
      forall x: Word
        ensures Read(WriteUp(spilled, base, [w]), x) == Read(stored, x)
      {
        ReadWriteUp(spilled, base, [w], x);
        ReadWriteUp(ram, base, vals, x);
        ReadWriteUp(ram, base, vals[0 := w], x);
      }
      SameRam(WriteUp(spilled, base, [w]), stored);
    }
    hide WriteUp;
    ReadWriteUp(ram, base, vals, base);
    CellsWriteUp(ram, base, vals[0 := w]);
    ClearRestores(ram, base, vals[0 := w]);
  }

  /** After the spill: the first spilled word and the wanted one change places, and memory comes back. */
  lemma Exchanges(s: State, ram: Ram, base: Word, vals: seq<Word>, rest: seq<Word>)
    requires 0 < |vals| < P && ZeroRun(ram, base, |vals|) && |rest| > 13
    requires s.stack == [At(base, |vals|)] + rest && s.ram == WriteUp(ram, base, vals)
    ensures Exec(SwapCode(|vals|) + [Instr.Pop(1)], s)
         == Some(s.(stack := vals[0 := rest[13]] + rest[13 := vals[0]], ram := ram))
  {
    hide Basic, Exec, WriteUp, Cells, Zeros, RestoreCode, SwapExchange, SwapStore, At, ZeroRun, Read;
    var n, w, v := |vals|, rest[13], vals[0];
    var rest1 := rest[13 := v];
    SwapMemory(ram, base, vals, w);
    LoadsFirst(s, base, n, v, rest);
    var s1 := WithStack(s, [w] + ([At(base, n)] + rest1));
    StoresWanted(s1, base, n, w, rest1);
    var s2 := s.(stack := [At(base, n - 1)] + rest1, ram := WriteUp(s.ram, base, [w]));
    ChainCat(SwapExchange(n), SwapStore(n), s, s1, s2);
    AtAt(base, n - 1, 0 - n);
    AtAt(base, n - 1, 1 - n);
    AtNone(base);
    RestoreLoop(s2, At(base, n - 1), n, rest1);
    var s3 := s.(stack := [At(base, -1)] + (vals[0 := w] + rest1), ram := ram);
    ChainCat(SwapExchange(n) + SwapStore(n), RestoreCode(n), s, s2, s3);
    OnPop(s3, At(base, -1), vals[0 := w] + rest1);
    Exec1(Instr.Pop(1), s3);
    ChainCat(SwapCode(n), [Instr.Pop(1)], s, s3, s3.(stack := vals[0 := w] + rest1));
  }

  // ----- the access -----

  function Accessed(stack: seq<Word>, depth: nat, duplicate: bool): (r: seq<Word>)
    requires depth < |stack|
  {
    Tir.Rearranged(if duplicate then Tir.TIROp.Dup(depth) else Tir.TIROp.Swap(depth), stack)
  }

  lemma AfterBorrow(depth: nat, duplicate: bool, s: State, base: Word)
    requires 16 <= depth < |s.stack| && depth < 0x1_0000_0000
    requires ZeroRun(s.ram, base, CellsFor(depth, duplicate))
    ensures var n := Spilled(depth, duplicate);
      Exec(BatchCode(WriteMemOp, n) + ((if duplicate then DupCode(n) else SwapCode(n)) + [Instr.Pop(1)]), WithStack(s, [base] + s.stack))
      == Some(WithStack(s, Accessed(s.stack, depth, duplicate)))
  {
    hide Basic, Exec, WriteUp, BatchCode, DupCode, SwapCode, At, Read;
    var n := Spilled(depth, duplicate);
    var vals, rest := s.stack[..n], s.stack[n..];
    TakeDrop(s.stack, n);
    var s0 := WithStack(s, [base] + s.stack);
    BatchWrites(s0, base, vals, rest);
    var s1 := s.(stack := [At(base, n)] + rest, ram := WriteUp(s.ram, base, vals));
    if duplicate {
      Reloads(s1, s.ram, base, vals, rest);
      ChainCat(BatchCode(WriteMemOp, n), DupCode(n) + [Instr.Pop(1)], s0, s1, WithStack(s, [rest[14]] + (vals + rest)));
    } else {
      Exchanges(s1, s.ram, base, vals, rest);
      assert vals[0 := rest[13]] + rest[13 := vals[0]] == SwapTop(s.stack, depth);
      ChainCat(BatchCode(WriteMemOp, n), SwapCode(n) + [Instr.Pop(1)], s0, s1,
               WithStack(s, vals[0 := rest[13]] + rest[13 := vals[0]]));
    }
  }

  /**
   * A deep access does to the stack what the source operation does and leaves memory, input and
   * output alone, whatever memory holds. It fails only if memory has no room, at an
   * assertion and with memory unchanged.
   */
  lemma AccessWorks(env: Env, depth: nat, duplicate: bool, search: string, s: State) returns (t: State)
    requires depth < |s.stack| && depth < 0x1_0000_0000 && HasSearch(env, search)
    ensures if depth < 16 || HasRoom(s.ram, CellsFor(depth, duplicate))
      then Runs(env, AccessCode(depth, duplicate, search), s, Done(WithStack(s, Accessed(s.stack, depth, duplicate))))
      else t.ram == s.ram && Runs(env, AccessCode(depth, duplicate, search), s, Crashed(t, Assert))
  {
    t := s;
    if depth < 16 {
      ShallowAccess(env, depth, duplicate, search, s);
    } else {
      hide Basic, Exec, Run, BorrowCode, BatchCode, DupCode, SwapCode, Invokes, SearchCode, ScanCode, ZeroRun, Runs;
      var n, cells := Spilled(depth, duplicate), CellsFor(depth, duplicate);
      var base;
      base, t := Borrows(env, cells, search, s);
      var work := (if duplicate then DupCode(n) else SwapCode(n)) + [Instr.Pop(1)];
      DeepParts(depth, duplicate, search);
      BorrowIsWhole(cells, search);
      if HasRoom(s.ram, cells) {
        var s0 := WithStack(s, [base] + s.stack);
        var end := WithStack(s, Accessed(s.stack, depth, duplicate));
        AfterBorrow(depth, duplicate, s, base);
        RunsExec(env, BatchCode(WriteMemOp, n) + work, s0, end);
        RunsCat(env, BorrowCode(cells, search), BatchCode(WriteMemOp, n) + work, s, s0, Done(end));
      } else {
        RunsStop(env, BorrowCode(cells, search), BatchCode(WriteMemOp, n) + work, s, Crashed(t, Assert));
      }
    }
  }

  lemma DeepParts(depth: nat, duplicate: bool, search: string)
    requires depth >= 16
    ensures var n := Spilled(depth, duplicate);
      DeepCode(depth, duplicate, search)
      == BorrowCode(CellsFor(depth, duplicate), search)
         + (BatchCode(WriteMemOp, n) + ((if duplicate then DupCode(n) else SwapCode(n)) + [Instr.Pop(1)]))
  {
    hide BorrowCode, BatchCode, DupCode, SwapCode;
    var n := Spilled(depth, duplicate);
    var borrow, work := BorrowCode(CellsFor(depth, duplicate), search), if duplicate then DupCode(n) else SwapCode(n);
    Assoc(borrow, BatchCode(WriteMemOp, n), work + [Instr.Pop(1)]);
    Assoc(borrow + BatchCode(WriteMemOp, n), work, [Instr.Pop(1)]);
  }

  lemma BorrowIsWhole(cells: nat, search: string)
    ensures Whole(BorrowCode(cells, search))
  {}

  lemma ShallowAccess(env: Env, depth: nat, duplicate: bool, search: string, s: State)
    requires depth < |s.stack| && depth < 16
    ensures Runs(env, AccessCode(depth, duplicate, search), s, Done(WithStack(s, Accessed(s.stack, depth, duplicate))))
  {
    var code := AccessCode(depth, duplicate, search);
    var end := WithStack(s, Accessed(s.stack, depth, duplicate));
    if duplicate || depth > 0 {
      Exec1(code[0], s);
      assert code == [code[0]];
    } else {
      assert s.stack[0 := s.stack[0]] == s.stack;
    }
    assert Exec(code, s) == Some(end);
    RunsExec(env, code, s, end);
  }
}
