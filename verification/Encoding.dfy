/** Every instruction that the legaliser and the shuffler emit is one that the machine can encode. */
module Encoding {
  import opened Words
  import opened Machine
  import opened Legalize
  import opened Permute
  import opened Sequence

  lemma NativeCat(a: seq<Instr>, b: seq<Instr>)
    ensures AllNative(a + b) <==> AllNative(a) && AllNative(b)
  {
    if AllNative(a + b) {
      forall k | 0 <= k < |a| ensures Native(a[k]) { assert (a + b)[k] == a[k]; }
      forall k | 0 <= k < |b| ensures Native(b[k]) { assert (a + b)[|a| + k] == b[k]; }
    }
  }

  lemma {:induction false} BatchNative(op: Opcode, n: nat)
    ensures AllNative(BatchCode(op, n))
  {
    if n > 0 {
      BatchNative(op, n - Least(n, 5));
    }
  }

  lemma {:induction false} RepeatNative(code: seq<Instr>, n: nat)
    requires AllNative(code)
    ensures AllNative(RepeatCode(code, n))
  {
    if n > 0 {
      RepeatNative(code, n - 1);
    }
  }

  lemma {:induction false} CheckNative(n: nat)
    ensures AllNative(CheckCode(n))
  {
    if n > 0 {
      var k := Least(n, 5);
      RepeatNative([Instr.Swap(1), Instr.Push(0), Eq, Add], k);
      CheckNative(n - k);
    }
  }

  lemma {:induction false} RestoreNative(n: nat)
    ensures AllNative(RestoreCode(n))
  {
    if n > 0 {
      var k := Least(n, 5);
      RepeatNative([Instr.Push(0)], k);
      RestoreNative(n - k);
    }
  }

  lemma BorrowNative(n: nat, search: string)
    ensures AllNative(BorrowCode(n, search))
  {
    hide CheckCode;
    CheckNative(n);
    NativeCat(BorrowHead(n), CheckCode(n));
    NativeCat(BorrowHead(n) + CheckCode(n), BorrowTest(n));
    NativeCat(BorrowHead(n) + CheckCode(n) + BorrowTest(n), [Skiz, Call(search)]);
    NativeCat(BorrowHead(n) + CheckCode(n) + BorrowTest(n) + [Skiz, Call(search)], BorrowTail(n));
  }

  lemma DupNative(n: nat)
    ensures AllNative(DupCode(n))
  {
    hide RestoreCode;
    RestoreNative(n);
    RestoreNative(1);
    NativeCat(DupSave(), RestoreCode(n));
    NativeCat(DupSave() + RestoreCode(n), Offset(n + 1));
    NativeCat(DupSave() + RestoreCode(n) + Offset(n + 1), RestoreCode(1));
  }

  lemma SwapNative(n: nat)
    ensures AllNative(SwapCode(n))
  {
    hide RestoreCode;
    RestoreNative(n);
    NativeCat(SwapExchange(n), SwapStore(n));
    NativeCat(SwapExchange(n) + SwapStore(n), RestoreCode(n));
  }

  /** Whatever the depth, the emitted positions stay below 16 and the batches within five words. */
  lemma AccessNative(depth: nat, duplicate: bool, search: string)
    ensures AllNative(AccessCode(depth, duplicate, search))
  {
    if depth >= 16 {
      hide BorrowCode, BatchCode, DupCode, SwapCode;
      var n := Spilled(depth, duplicate);
      var borrow, batch, work := BorrowCode(CellsFor(depth, duplicate), search), BatchCode(WriteMemOp, n),
                                 if duplicate then DupCode(n) else SwapCode(n);
      BorrowNative(CellsFor(depth, duplicate), search);
      BatchNative(WriteMemOp, n);
      DupNative(n);
      SwapNative(n);
      NativeCat(borrow, batch);
      NativeCat(borrow + batch, work);
      NativeCat(borrow + batch + work, [Instr.Pop(1)]);
    }
  }

  lemma {:induction false} LoadsNative(width: nat, order: seq<nat>)
    requires Below(order, width)
    ensures AllNative(LoadsCode(width, order))
    decreases |order|
  {
    if order != [] {
      LoadsNative(width, order[1..]);
      NativeCat(LoadCode(width, order[0]), LoadsCode(width, order[1..]));
    }
  }

  lemma {:induction false} ClearNative(n: nat)
    ensures AllNative(ClearCode(n))
  {
    if n > 0 {
      var k := Least(n, 5);
      RepeatNative([Instr.Push(0)], k);
      ClearNative(n - k);
    }
  }

  lemma ShuffleNative(width: nat, order: seq<nat>, search: string)
    requires Below(order, width)
    ensures AllNative(ShuffleCode(width, order, search))
  {
    hide BorrowCode, BatchCode, LoadsCode, ClearCode, Offset;
    BorrowNative(width, search);
    BatchNative(WriteMemOp, width);
    LoadsNative(width, order);
    ClearNative(width);
    assert AllNative(Offset(0 - width)) by { OffsetNative(0 - width); }
    var a, b, c, d := BorrowCode(width, search), BatchCode(WriteMemOp, width), Offset(0 - width), LoadsCode(width, order);
    NativeCat(a, b);
    NativeCat(a + b, c);
    NativeCat(a + b + c, d);
    NativeCat(a + b + c + d, ClearCode(width));
    NativeCat(a + b + c + d + ClearCode(width), [Instr.Pop(1)]);
  }

  lemma OffsetNative(n: int)
    ensures AllNative(Offset(n))
  {}

  /** Every swap of a reversal is one that the machine can encode exactly up to sixteen words. */
  lemma ReverseNative(n: nat)
    ensures AllNative(ReverseCode(n)) <==> n <= 16
  {
    Permutes(Reversal(n), Identity(n));
    if n > 16 {
      var order, current := Reversal(n), Identity(n);
      FirstIndex(current, n - 1, n - 1);
      PlaceNext(order, current, 0);
      assert ReverseCode(n)[0] == Instr.Swap(n - 1);
    }
  }
}
