/** A planned shuffle does what the operations it replaces do, and takes fewer instructions. */
module Shuffling {
  import opened Words
  import opened Machine
  import opened Control
  import opened Legalize
  import opened Scanning
  import opened Borrowing
  import opened DeepAccess
  import opened Tir
  import opened Permute
  import opened Sequence

  // ----- following the words through a run -----

  /** The run on the operand stack itself, one operation after another. */
  function RearrangedAll<T>(ops: seq<TIROp>, stack: seq<T>): seq<T>
    requires Fits(ops, |stack|)
    decreases |ops|
  {
    if ops == [] then stack else RearrangedAll(ops[1..], Rearranged(ops[0], stack))
  }

  lemma FollowStep<T>(op: TIROp, order: seq<nat>, inputs: seq<T>, rest: seq<T>)
    requires IsStackOp(op) && Need(op) <= |order| && Below(order, |inputs|)
    ensures Below(Follow(op, order), |inputs|)
    ensures Rearranged(op, Rev(Permuted(inputs, order)) + rest) == Rev(Permuted(inputs, Follow(op, order))) + rest
  {
    var stack := Rev(Permuted(inputs, order)) + rest;
    match op
    case Dup(d) => FollowDup(d, order, inputs, rest);
    case Swap(d) => FollowSwap(d, order, inputs, rest);
    case Pop(n) => assert stack[n..] == Rev(Permuted(inputs, Follow(op, order))) + rest;
  }

  lemma FollowDup<T>(d: nat, order: seq<nat>, inputs: seq<T>, rest: seq<T>)
    requires d < |order| && Below(order, |inputs|)
    ensures Below(Follow(TIROp.Dup(d), order), |inputs|)
    ensures var stack := Rev(Permuted(inputs, order)) + rest;
      [stack[d]] + stack == Rev(Permuted(inputs, Follow(TIROp.Dup(d), order))) + rest
  {}

  lemma FollowSwap<T>(d: nat, order: seq<nat>, inputs: seq<T>, rest: seq<T>)
    requires d < |order| && Below(order, |inputs|)
    ensures Below(Follow(TIROp.Swap(d), order), |inputs|)
    ensures SwapTop(Rev(Permuted(inputs, order)) + rest, d) == Rev(Permuted(inputs, Follow(TIROp.Swap(d), order))) + rest
  {}

  lemma {:induction false} FollowTracks<T>(ops: seq<TIROp>, order: seq<nat>, inputs: seq<T>, rest: seq<T>)
    requires Fits(ops, |order|) && Below(order, |inputs|)
    ensures Fits(ops, |order| + |rest|) && Below(FollowAll(ops, order), |inputs|)
    ensures RearrangedAll(ops, Rev(Permuted(inputs, order)) + rest) == Rev(Permuted(inputs, FollowAll(ops, order))) + rest
    decreases |ops|
  {
    hide Rev, Permuted, Rearranged;
    if ops != [] {
      FollowStep(ops[0], order, inputs, rest);
      FollowTracks(ops[1..], Follow(ops[0], order), inputs, rest);
    }
  }

  // ----- loading -----

  lemma LoadLine(s: State, base: Word, width: nat, index: nat, rest: seq<Word>)
    requires s.stack == [base] + rest && index < width
    ensures Exec(LoadCode(width, index), s)
         == Some(WithStack(s, [base] + ([Read(s.ram, At(base, width - 1 - index))] + rest)))
  {
    hide Basic, Exec, Read, At, Cells, Offset;
    var offset: nat := width - 1 - index;
    var p := At(base, offset);
    var v := Read(s.ram, p);
    OnDup(s, 0);
    Exec1(Instr.Dup(0), s);
    var s1 := WithStack(s, [base] + ([base] + rest));
    var s2 := WithStack(s, [p] + ([base] + rest));
    var move := if offset != 0 then Offset(offset) else [];
    if offset != 0 {
      Offsets(s1, base, offset, [base] + rest);
    } else {
      AtNone(base);
      ExecNothing(s1);
    }
    ChainCat([Instr.Dup(0)], move, s, s1, s2);
    OnReadMem(s2, p, 1, [base] + rest);
    OneCell(s.ram, p);
    var s3 := WithStack(s, [At(p, -1)] + ([v] + ([base] + rest)));
    OnPop(s3, At(p, -1), [v] + ([base] + rest));
    var s4 := WithStack(s, [v] + ([base] + rest));
    OnSwap(s4, v, base, rest);
    var s5 := WithStack(s, [base] + ([v] + rest));
    Chain3(Instr.ReadMem(1), Instr.Pop(1), Instr.Swap(1), s2, s3, s4, s5);
    ChainCat([Instr.Dup(0)] + move, [Instr.ReadMem(1), Instr.Pop(1), Instr.Swap(1)], s, s2, s5);
  }

  /** `block` (bottom first) lies in memory at `base`, its top word first. */
  ghost predicate Holds(ram: Ram, base: Word, block: seq<Word>) {
    forall i :: 0 <= i < |block| ==> Read(ram, At(base, |block| - 1 - i)) == block[i]
  }

  lemma {:induction false} Loads(s: State, base: Word, block: seq<Word>, order: seq<nat>, rest: seq<Word>)
    requires s.stack == [base] + rest && Below(order, |block|) && Holds(s.ram, base, block)
    ensures Exec(LoadsCode(|block|, order), s) == Some(WithStack(s, [base] + (Rev(Permuted(block, order)) + rest)))
    decreases |order|
  {
    hide Basic, Read, At, LoadCode;
    if order == [] {
      assert Rev(Permuted(block, order)) + rest == rest;
    } else {
      var v := block[order[0]];
      var s1 := WithStack(s, [base] + ([v] + rest));
      LoadLine(s, base, |block|, order[0], rest);
      Loads(s1, base, block, order[1..], [v] + rest);
      assert Rev(Permuted(block, order[1..])) + ([v] + rest) == Rev(Permuted(block, order)) + rest;
      hide Rev, Permuted, Exec;
      ChainCat(LoadCode(|block|, order[0]), LoadsCode(|block|, order[1..]), s, s1,
               WithStack(s, [base] + (Rev(Permuted(block, order)) + rest)));
    }
  }

  // ----- clearing -----

  lemma ClearStep(s: State, p: Word, n: nat, rest: seq<Word>)
    requires s.stack == [p] + rest && 1 <= n <= 5
    ensures Exec(ClearChunk(n), s) == Some(s.(stack := [At(p, n)] + rest, ram := WriteUp(s.ram, p, Zeros(n))))
  {
    hide Basic, Exec, WriteUp, At, ZerosCode;
    PushesZeros(n, s);
    var s1 := WithStack(s, Zeros(n) + ([p] + rest));
    assert s1.stack == [0] + (Zeros(n - 1) + ([p] + rest));
    OnSwapUnder(s1, 0, Zeros(n - 1), p, rest);
    var s2 := WithStack(s, [p] + (Zeros(n) + rest));
    assert Zeros(n - 1) + ([0] + rest) == Zeros(n) + rest;
    OnWriteMem(s2, p, Zeros(n), rest);
    var s3 := s.(stack := [At(p, n)] + rest, ram := WriteUp(s.ram, p, Zeros(n)));
    Chain2(Instr.Swap(n), Instr.WriteMem(n), s1, s2, s3);
    ChainCat(ZerosCode(n), [Instr.Swap(n), Instr.WriteMem(n)], s, s1, s3);
  }

  lemma {:induction false} Clears(s: State, p: Word, n: nat, rest: seq<Word>)
    requires s.stack == [p] + rest && n < P
    ensures Exec(ClearCode(n), s) == Some(s.(stack := [At(p, n)] + rest, ram := WriteUp(s.ram, p, Zeros(n))))
    decreases n
  {
    hide Basic, At, ClearChunk, WriteUp;
    if n == 0 {
      AtNone(p);
      WritesNothing(s.ram, p);
    } else {
      hide Exec;
      var k: nat := Least(n, 5);
      ClearStep(s, p, k, rest);
      var s1 := s.(stack := [At(p, k)] + rest, ram := WriteUp(s.ram, p, Zeros(k)));
      Clears(s1, At(p, k), n - k, rest);
      AtAt(p, k, n - k);
      WriteUpCat(s.ram, p, Zeros(k), At(p, k), Zeros(n - k));
      assert Zeros(k) + Zeros(n - k) == Zeros(n);
      ChainCat(ClearChunk(k), ClearCode(n - k), s, s1, s.(stack := [At(p, n)] + rest, ram := WriteUp(s.ram, p, Zeros(n))));
    }
  }

  // ----- the whole shuffle -----

  lemma SpilledHolds(ram: Ram, base: Word, block: seq<Word>)
    requires |block| <= P
    ensures Holds(WriteUp(ram, base, Rev(block)), base, block)
  {
    hide WriteUp;
    forall i | 0 <= i < |block|
      ensures Read(WriteUp(ram, base, Rev(block)), At(base, |block| - 1 - i)) == block[i]
    {
      ReadWriteUp(ram, base, Rev(block), At(base, |block| - 1 - i));
      OffAt(base, |block| - 1 - i);
    }
  }

  lemma AfterBorrowing(s: State, base: Word, block: seq<Word>, order: seq<nat>, rest: seq<Word>)
    requires 0 < |block| < P && Below(order, |block|) && ZeroRun(s.ram, base, |block|)
    requires s.stack == Rev(block) + rest
    ensures Exec(BatchCode(WriteMemOp, |block|) + (Offset(0 - |block|) + (LoadsCode(|block|, order) + (ClearCode(|block|) + [Instr.Pop(1)]))),
                 WithStack(s, [base] + s.stack))
         == Some(WithStack(s, Rev(Permuted(block, order)) + rest))
  {
    hide Basic, Exec, WriteUp, At, BatchCode, Offset, LoadsCode, ClearCode, Rev, Permuted, ZeroRun, Holds, Zeros;
    var n := |block|;
    var s0 := WithStack(s, [base] + s.stack);
    var ram1 := WriteUp(s.ram, base, Rev(block));
    BatchWrites(s0, base, Rev(block), rest);
    var s1 := s.(stack := [At(base, n)] + rest, ram := ram1);
    Offsets(s1, At(base, n), 0 - n, rest);
    AtAt(base, n, 0 - n);
    AtNone(base);
    var s2 := s1.(stack := [base] + rest);
    SpilledHolds(s.ram, base, block);
    Loads(s2, base, block, order, rest);
    var goal := Rev(Permuted(block, order)) + rest;
    var s3 := s1.(stack := [base] + goal);
    Clears(s3, base, n, goal);
    var s4 := s.(stack := [At(base, n)] + goal);
    ClearRestores(s.ram, base, Rev(block));
    OnPop(s4, At(base, n), goal);
    Exec1(Instr.Pop(1), s4);
    var end := WithStack(s, goal);
    ChainCat(ClearCode(n), [Instr.Pop(1)], s3, s4, end);
    ChainCat(LoadsCode(n, order), ClearCode(n) + [Instr.Pop(1)], s2, s3, end);
    ChainCat(Offset(0 - n), LoadsCode(n, order) + (ClearCode(n) + [Instr.Pop(1)]), s1, s2, end);
    ChainCat(BatchCode(WriteMemOp, n), Offset(0 - n) + (LoadsCode(n, order) + (ClearCode(n) + [Instr.Pop(1)])), s0, s1, end);
  }

  lemma ShuffleParts(width: nat, order: seq<nat>, search: string)
    requires Below(order, width)
    ensures ShuffleCode(width, order, search)
         == BorrowCode(width, search)
            + (BatchCode(WriteMemOp, width) + (Offset(0 - width) + (LoadsCode(width, order) + (ClearCode(width) + [Instr.Pop(1)]))))
  {
    hide BorrowCode, BatchCode, Offset, LoadsCode, ClearCode;
    var a, b, c, d, e := BorrowCode(width, search), BatchCode(WriteMemOp, width), Offset(0 - width), LoadsCode(width, order), ClearCode(width);
    Assoc(a + b + c + d, e, [Instr.Pop(1)]);
    Assoc(a + b + c, d, e + [Instr.Pop(1)]);
    Assoc(a + b, c, d + (e + [Instr.Pop(1)]));
    Assoc(a, b, c + (d + (e + [Instr.Pop(1)])));
  }

  /** A shuffle puts the words of the block in the given order and leaves everything else as it was. */
  lemma ShuffleWorks(env: Env, block: seq<Word>, order: seq<nat>, search: string, s: State, rest: seq<Word>) returns (t: State)
    requires 0 < |block| <= 0x1_0000_0000 && Below(order, |block|) && HasSearch(env, search)
    requires s.stack == Rev(block) + rest
    ensures if HasRoom(s.ram, |block|)
      then Runs(env, ShuffleCode(|block|, order, search), s, Done(WithStack(s, Rev(Permuted(block, order)) + rest)))
      else t.ram == s.ram && Runs(env, ShuffleCode(|block|, order, search), s, Crashed(t, Instr.Assert))
  {
    hide Basic, Exec, Run, Runs, BorrowCode, BatchCode, Offset, LoadsCode, ClearCode, ZeroRun, Rev, Permuted;
    var n := |block|;
    var work := BatchCode(WriteMemOp, n) + (Offset(0 - n) + (LoadsCode(n, order) + (ClearCode(n) + [Instr.Pop(1)])));
    var base;
    base, t := Borrows(env, n, search, s);
    ShuffleParts(n, order, search);
    BorrowIsWhole(n, search);
    if HasRoom(s.ram, n) {
      var s0, end := WithStack(s, [base] + s.stack), WithStack(s, Rev(Permuted(block, order)) + rest);
      AfterBorrowing(s, base, block, order, rest);
      RunsExec(env, work, s0, end);
      RunsCat(env, BorrowCode(n, search), work, s, s0, Done(end));
    } else {
      RunsStop(env, BorrowCode(n, search), work, s, Crashed(t, Instr.Assert));
    }
  }

  // ----- the plan -----

  lemma PrefixSplits<T>(inputs: seq<T>, order: seq<nat>, k: nat)
    requires Below(order, |inputs|) && k <= |inputs| && k <= |order|
    requires forall i :: 0 <= i < k ==> order[i] == i
    requires forall i :: k <= i < |order| ==> order[i] >= k
    ensures Below(Trim(order, k), |inputs[k..]|)
    ensures Permuted(inputs, order) == inputs[..k] + Permuted(inputs[k..], Trim(order, k))
  {
    var trimmed := Permuted(inputs[k..], Trim(order, k));
    forall i | 0 <= i < |order|
      ensures Permuted(inputs, order)[i] == (inputs[..k] + trimmed)[i]
    {
      if i >= k {
        assert trimmed[i - k] == inputs[k..][order[i] - k];
      }
    }
  }

  lemma PrefixStays<T>(inputs: seq<T>, order: seq<nat>, k: nat, rest: seq<T>)
    requires Below(order, |inputs|) && k == Prefix(order, 0) && k <= |inputs|
    requires forall i :: k <= i < |order| ==> order[i] >= k
    ensures Rev(Permuted(inputs, order)) + rest == Rev(Permuted(inputs[k..], Trim(order, k))) + (Rev(inputs[..k]) + rest)
    ensures Rev(inputs) + rest == Rev(inputs[k..]) + (Rev(inputs[..k]) + rest)
  {
    hide Rev, Permuted, Prefix, Trim, Below;
    PrefixSplits(inputs, order, k);
    var trimmed := Permuted(inputs[k..], Trim(order, k));
    RevCat(inputs[..k], trimmed);
    RevCat(inputs[..k], inputs[k..]);
    TakeDrop(inputs, k);
    Assoc(Rev(trimmed), Rev(inputs[..k]), rest);
    Assoc(Rev(inputs[k..]), Rev(inputs[..k]), rest);
  }

  lemma RevCat<T>(a: seq<T>, b: seq<T>)
    ensures Rev(a + b) == Rev(b) + Rev(a)
  {}

  /** What the planned shuffle is for: the operations it consumes, on any stack that they fit. */
  lemma PlanTracks<T>(ops: seq<TIROp>, inputs: seq<T>, rest: seq<T>)
    requires PlanOf(ops).Some? && |inputs| == Measure(ops, Start).value.required
    ensures var plan := PlanOf(ops).value;
      && plan.width <= |inputs|
      && Fits(ops[..plan.consumed], |inputs| + |rest|)
      && var k := |inputs| - plan.width;
         && Rev(inputs) + rest == Rev(inputs[k..]) + (Rev(inputs[..k]) + rest)
         && RearrangedAll(ops[..plan.consumed], Rev(inputs) + rest)
            == Rev(Permuted(inputs[k..], plan.order)) + (Rev(inputs[..k]) + rest)
  {
    hide Fits, FollowAll, RearrangedAll, Measure, Rev, Permuted, ShuffleCode, Prefix, Trim;
    var m := Measure(ops, Start).value;
    var run := ops[..m.consumed];
    Measured(ops, Start);
    var order := FinalOrder(ops, m);
    var k := Prefix(order, 0);
    PrefixIsInside(order, m.required);
    forall i | k <= i < |order|
      ensures order[i] >= k
    {
      PrefixIsPrivate(order, k, i);
    }
    FollowTracks(run, Identity(m.required), inputs, rest);
    IdentityKeeps(inputs);
    PrefixStays(inputs, order, k, rest);
  }

  lemma IdentityKeeps<T>(inputs: seq<T>)
    ensures Permuted(inputs, Identity(|inputs|)) == inputs
  {}

  lemma {:induction false} StaysNarrow(ops: seq<TIROp>, m: Survey)
    requires Measure(ops, m).Some? && !TooWide(m)
    ensures !TooWide(Measure(ops, m).value)
    decreases |ops|
  {
    if ops == [] || m.consumed >= MAX_OPS || !IsStackOp(ops[0]) {
    } else {
      StaysNarrow(ops[1..], Count(m, ops[0]));
    }
  }

  /** A run that does not underflow the stack needs no more than the stack holds. */
  lemma {:induction false} NeedIsLeast(ops: seq<TIROp>, m: Survey, size: int)
    requires Measure(ops, m).Some? && m.required <= size
    requires m.consumed <= Measure(ops, m).value.consumed <= m.consumed + |ops|
    requires Fits(ops[..Measure(ops, m).value.consumed - m.consumed], size + m.balance)
    ensures Measure(ops, m).value.required <= size
    decreases |ops|
  {
    if ops == [] || m.consumed >= MAX_OPS || !IsStackOp(ops[0]) {
    } else {
      Measured(ops[1..], Count(m, ops[0]));
      var k := Measure(ops, m).value.consumed - m.consumed;
      assert ops[..k][1..] == ops[1..][..k - 1];
      NeedIsLeast(ops[1..], Count(m, ops[0]), size);
    }
  }

  /**
   * Whenever a plan is made, its code gives the stack that the consumed operations give one by
   * one, on every stack on which those operations do not underflow, and leaves memory, input and
   * output alone. Without room in memory it stops at an assertion with memory unchanged.
   */
  lemma PlanWorks(env: Env, ops: seq<TIROp>, search: string, s: State) returns (t: State)
    requires PlanOf(ops).Some? && HasSearch(env, search)
    requires Fits(ops[..PlanOf(ops).value.consumed], |s.stack|)
    ensures var plan := PlanOf(ops).value;
      if HasRoom(s.ram, plan.width)
      then Runs(env, ShuffleCode(plan.width, plan.order, search), s,
                Done(WithStack(s, RearrangedAll(ops[..plan.consumed], s.stack))))
      else t.ram == s.ram && Runs(env, ShuffleCode(plan.width, plan.order, search), s, Crashed(t, Instr.Assert))
  {
    hide Fits, Runs, RearrangedAll, Rev, Permuted, ShuffleCode, Measure;
    var plan := PlanOf(ops).value;
    var required := Measure(ops, Start).value.required;
    Measured(ops, Start);
    NeedIsLeast(ops, Start, |s.stack|);
    StaysNarrow(ops, Start);
    var inputs, rest := Rev(s.stack[..required]), s.stack[required..];
    TakeDrop(s.stack, required);
    RevTwice(s.stack[..required]);
    PlanTracks(ops, inputs, rest);
    var k := required - plan.width;
    t := ShuffleWorks(env, inputs[k..], plan.order, search, s, Rev(inputs[..k]) + rest);
  }

  // ----- the cost test -----

  lemma {:induction false} BatchLength(op: Opcode, n: nat)
    ensures |BatchCode(op, n)| == Fifths(n)
  {
    if n > 0 {
      BatchLength(op, n - Least(n, 5));
    }
  }

  lemma {:induction false} RepeatLength(code: seq<Instr>, n: nat)
    ensures |RepeatCode(code, n)| == |code| * n
  {
    if n > 0 {
      RepeatLength(code, n - 1);
    }
  }

  lemma CheckChunkLength(n: nat)
    ensures |CheckChunk(n)| == 4 * n + 3
  {
    RepeatLength([Instr.Swap(1), Instr.Push(0), Instr.Eq, Instr.Add], n);
  }

  lemma {:induction false} CheckLength(n: nat)
    ensures |CheckCode(n)| == 4 * n + 3 * Fifths(n)
  {
    if n > 0 {
      CheckChunkLength(Least(n, 5));
      hide CheckChunk;
      CheckLength(n - Least(n, 5));
    }
  }

  lemma {:induction false} RestoreLength(n: nat)
    ensures |RestoreCode(n)| == n + 6 * Fifths(n)
  {
    if n > 0 {
      RepeatLength([Instr.Push(0)], Least(n, 5));
      RestoreLength(n - Least(n, 5));
    }
  }

  lemma BorrowLength(n: nat, search: string)
    ensures |BorrowCode(n, search)| == 17 + 4 * n + 3 * Fifths(n)
  {
    hide CheckCode;
    CheckLength(n);
  }

  /** The exact number of instructions of a deep access. */
  lemma DeepLength(depth: nat, duplicate: bool, search: string)
    requires depth >= 16
    ensures var c := depth - 13;
      |AccessCode(depth, duplicate, search)|
      == 31 + 5 * c + 3 * Fifths(c) + 7 * Fifths(if duplicate then c - 1 else c)
  {
    hide BorrowCode, BatchCode, RestoreCode;
    var c: nat := depth - 13;
    var n := Spilled(depth, duplicate);
    BorrowLength(c, search);
    BatchLength(WriteMemOp, n);
    RestoreLength(n);
    RestoreLength(1);
  }

  /** One operation lowered on its own. */
  function AloneCode(op: TIROp, search: string): seq<Instr>
    requires IsStackOp(op)
  {
    match op
    case Dup(d) => AccessCode(d, true, search)
    case Swap(d) => AccessCode(d, false, search)
    case Pop(n) => BatchCode(PopOp, n)
  }

  predicate AllStackOps(ops: seq<TIROp>) {
    forall k :: 0 <= k < |ops| ==> IsStackOp(ops[k])
  }

  function AllAlone(ops: seq<TIROp>, search: string): seq<Instr>
    requires AllStackOps(ops)
    decreases |ops|
  {
    if ops == [] then [] else AloneCode(ops[0], search) + AllAlone(ops[1..], search)
  }

  /** The estimate is exact for shallow accesses and for Pop, and below the truth for deep ones. */
  lemma CostIsLowerBound(op: TIROp, search: string)
    requires IsStackOp(op)
    ensures OpCost(op) <= |AloneCode(op, search)|
    ensures op.Pop? || op.d < 16 ==> OpCost(op) == |AloneCode(op, search)|
    ensures !op.Pop? && op.d >= 16 ==> OpCost(op) < |AloneCode(op, search)|
    ensures !op.Pop? && op.d >= 16 ==> OpCost(op) == |AccessCode(op.d, false, search)| - 15 - 3 * Fifths(op.d - 13)
  {
    if op.Pop? {
      BatchLength(PopOp, op.n);
    } else if op.d >= 16 {
      hide AccessCode;
      DeepLength(op.d, op.Dup?, search);
      DeepLength(op.d, false, search);
    }
  }

  lemma {:induction false} RunCost(ops: seq<TIROp>, m: Survey, search: string)
    requires Measure(ops, m).Some?
    ensures var r := Measure(ops, m).value;
      && m.consumed <= r.consumed <= m.consumed + |ops|
      && AllStackOps(ops[..r.consumed - m.consumed])
      && r.cost - m.cost <= |AllAlone(ops[..r.consumed - m.consumed], search)|
    decreases |ops|
  {
    hide AloneCode, OpCost;
    if ops == [] || m.consumed >= MAX_OPS || !IsStackOp(ops[0]) {
    } else {
      RunCost(ops[1..], Count(m, ops[0]), search);
      var k := Measure(ops, m).value.consumed - m.consumed;
      assert ops[..k][1..] == ops[1..][..k - 1];
      CostIsLowerBound(ops[0], search);
    }
  }

  lemma LabelKeepsLength(width: nat, order: seq<nat>, search: string, other: string)
    requires Below(order, width)
    ensures |ShuffleCode(width, order, search)| == |ShuffleCode(width, order, other)|
  {}

  /** A shuffle is chosen only where it is strictly shorter than the operations lowered one by one. */
  lemma PlanIsShorter(ops: seq<TIROp>, search: string)
    requires PlanOf(ops).Some?
    ensures var plan := PlanOf(ops).value;
      && AllStackOps(ops[..plan.consumed])
      && |ShuffleCode(plan.width, plan.order, search)| < |AllAlone(ops[..plan.consumed], search)|
  {
    hide ShuffleCode, AllAlone, Measure;
    var plan := PlanOf(ops).value;
    RunCost(ops, Start, search);
    LabelKeepsLength(plan.width, plan.order, search, "__scratch");
  }
}
