/** How deep a planned shuffle reaches into the stack, beside the operations that it stands for. */
module Reaching {
  import opened Words
  import opened Machine
  import opened Control
  import opened Legalize
  import opened Scanning
  import opened Borrowing
  import opened DeepAccess
  import opened Tir
  import opened Permute
  import opened Sequence
  import opened Shuffling
  import opened Operations
  import opened Simulation

  // ----- the operations -----

  lemma {:induction false} FitsMore(ops: seq<TIROp>, size: int, more: int)
    requires Fits(ops, size) && size <= more
    ensures Fits(ops, more)
    decreases |ops|
  {
    if ops != [] {
      FitsMore(ops[1..], size + Change(ops[0]), more + Change(ops[0]));
    }
  }

  /** The words that the consumed operations reach for, one by one. */
  function Depth(ops: seq<TIROp>): nat
    requires PlanOf(ops).Some?
  {
    Measure(ops, Start).value.required
  }

  /** The consumed operations underflow exactly the stacks that are shallower than the measured depth. */
  lemma RunFits(ops: seq<TIROp>, size: nat)
    requires PlanOf(ops).Some?
    ensures Fits(ops[..PlanOf(ops).value.consumed], size) <==> Depth(ops) <= size
  {
    hide Fits, Measure, FinalOrder, Prefix, Trim, ShuffleCode;
    Measured(ops, Start);
    var run := ops[..PlanOf(ops).value.consumed];
    if Depth(ops) <= size {
      FitsMore(run, Depth(ops), size);
    }
    if Fits(run, size) {
      NeedIsLeast(ops, Start, size);
    }
  }

  // ----- the code -----

  lemma {:induction false} BatchUnderflows(s: State, n: nat)
    requires 1 <= |s.stack| <= n
    ensures Exec(BatchCode(WriteMemOp, n), s) == None
    decreases n
  {
    hide WriteUp, At;
    var k: nat := Least(n, 5);
    var r := Basic(Instr.WriteMem(k), s);
    Exec1(Instr.WriteMem(k), s);
    ExecCat([Instr.WriteMem(k)], BatchCode(WriteMemOp, n - k), s);
    if r.Some? {
      BatchUnderflows(r.value, n - k);
    }
  }

  lemma JumpFreeIsWhole(code: seq<Instr>)
    requires JumpFree(code)
    ensures Whole(code)
  {}

  /** A stack shallower than the block: the code stops with an error while it spills. */
  lemma ShuffleUnderflows(env: Env, width: nat, order: seq<nat>, search: string, s: State) returns (o: Outcome)
    requires |s.stack| < width <= 0x1_0000_0000 && Below(order, width) && HasSearch(env, search)
    ensures Runs(env, ShuffleCode(width, order, search), s, o)
    ensures if HasRoom(s.ram, width) then o.Crashed? else Stuck(o)
  {
    hide Exec, Run, Runs, BorrowCode, BatchCode, Offset, LoadsCode, ClearCode, ZeroRun, JumpFree;
    var rest := Offset(0 - width) + (LoadsCode(width, order) + (ClearCode(width) + [Instr.Pop(1)]));
    var base, t := Borrows(env, width, search, s);
    ShuffleParts(width, order, search);
    BorrowIsWhole(width, search);
    if HasRoom(s.ram, width) {
      var s0 := WithStack(s, [base] + s.stack);
      BatchUnderflows(s0, width);
      BatchIsJumpFree(WriteMemOp, width);
      JumpFreeIsWhole(BatchCode(WriteMemOp, width));
      o := RefusedRuns(env, BatchCode(WriteMemOp, width), s0);
      RunsStop(env, BatchCode(WriteMemOp, width), rest, s0, o);
      RunsCat(env, BorrowCode(width, search), BatchCode(WriteMemOp, width) + rest, s, s0, o);
    } else {
      o := Crashed(t, Instr.Assert);
      RunsStop(env, BorrowCode(width, search), BatchCode(WriteMemOp, width) + rest, s, o);
    }
  }

  /** The stack with the words of the block in the planned order. */
  function Shuffled(plan: Shuffle, stack: seq<Word>): seq<Word>
    requires Below(plan.order, plan.width) && plan.width <= |stack|
  {
    Rev(Permuted(Rev(stack[..plan.width]), plan.order)) + stack[plan.width..]
  }

  lemma PlanIsNarrow(ops: seq<TIROp>)
    requires PlanOf(ops).Some?
    ensures var plan := PlanOf(ops).value;
      plan.width as int == Depth(ops) - Prefix(FinalOrder(ops, Measure(ops, Start).value), 0) && 0 < plan.width <= Depth(ops) <= 4096
  {
    hide Measure, FinalOrder, ShuffleCode, Prefix;
    StaysNarrow(ops, Start);
  }

  /** What the code of a plan does on a stack of any depth: it needs the block it moves, and no more. */
  lemma PlanReaches(env: Env, ops: seq<TIROp>, search: string, s: State) returns (o: Outcome)
    requires PlanOf(ops).Some? && HasSearch(env, search)
    ensures var plan := PlanOf(ops).value;
      && Runs(env, ShuffleCode(plan.width, plan.order, search), s, o)
      && (if !HasRoom(s.ram, plan.width) then Stuck(o)
          else if plan.width <= |s.stack| then o == Done(WithStack(s, Shuffled(plan, s.stack)))
          else o.Crashed?)
  {
    hide Runs, ShuffleCode, Rev, Permuted, Measure;
    var plan := PlanOf(ops).value;
    var n := plan.width;
    PlanIsNarrow(ops);
    if n <= |s.stack| {
      RevTwice(s.stack[..n]);
      TakeDrop(s.stack, n);
      var t := ShuffleWorks(env, Rev(s.stack[..n]), plan.order, search, s, s.stack[n..]);
      o := if HasRoom(s.ram, n) then Done(WithStack(s, Shuffled(plan, s.stack))) else Crashed(t, Instr.Assert);
    } else {
      o := ShuffleUnderflows(env, n, plan.order, search, s);
    }
  }

  // ----- the two beside each other -----

  /** The code of the plan runs to its end. */
  ghost predicate ComesThrough(env: Env, ops: seq<TIROp>, search: string, s: State)
    requires PlanOf(ops).Some?
  {
    var plan := PlanOf(ops).value;
    exists t :: Runs(env, ShuffleCode(plan.width, plan.order, search), s, Done(t))
  }

  /** The consumed operations, one by one, find all the words they reach for. */
  predicate OneByOne(ops: seq<TIROp>, s: State)
    requires PlanOf(ops).Some?
  {
    Fits(ops[..PlanOf(ops).value.consumed], |s.stack|)
  }

  /**
   * With room in memory, the code comes through exactly where the stack holds the block, and the operations exactly where
   * it holds the measured depth. The stacks in between are the ones on which the two differ.
   */
  lemma CodeAndOperations(env: Env, ops: seq<TIROp>, search: string, s: State)
    requires PlanOf(ops).Some? && HasSearch(env, search) && HasRoom(s.ram, PlanOf(ops).value.width)
    ensures ComesThrough(env, ops, search, s) <==> PlanOf(ops).value.width <= |s.stack|
    ensures OneByOne(ops, s) <==> Depth(ops) <= |s.stack|
    ensures ComesThrough(env, ops, search, s) != OneByOne(ops, s) <==> PlanOf(ops).value.width <= |s.stack| < Depth(ops)
  {
    hide Runs, ShuffleCode, Fits, Measure, HasRoom;
    var plan := PlanOf(ops).value;
    var o := PlanReaches(env, ops, search, s);
    PlanIsNarrow(ops);
    RunFits(ops, |s.stack|);
    if ComesThrough(env, ops, search, s) {
      var t :| Runs(env, ShuffleCode(plan.width, plan.order, search), s, Done(t));
      RunsUnique(env, ShuffleCode(plan.width, plan.order, search), s, o, Done(t));
    }
  }

  /** With room in memory, code and operations come through on the same stacks. */
  ghost predicate SameDepth(env: Env, ops: seq<TIROp>, search: string)
    requires PlanOf(ops).Some?
  {
    forall s: State :: HasRoom(s.ram, PlanOf(ops).value.width) ==> (ComesThrough(env, ops, search, s) <==> OneByOne(ops, s))
  }

  /** They do exactly if the plan leaves no word in place: the untouched prefix of the final order is empty. */
  lemma SameDepthExactly(env: Env, ops: seq<TIROp>, search: string)
    requires PlanOf(ops).Some? && HasSearch(env, search)
    ensures SameDepth(env, ops, search) <==> Prefix(FinalOrder(ops, Measure(ops, Start).value), 0) == 0
  {
    hide ComesThrough, OneByOne, FinalOrder, Prefix, Measure;
    PlanIsNarrow(ops);
    var width := PlanOf(ops).value.width;
    forall s: State | HasRoom(s.ram, width)
      ensures ComesThrough(env, ops, search, s) != OneByOne(ops, s) <==> width <= |s.stack| < Depth(ops)
    {
      CodeAndOperations(env, ops, search, s);
    }
    if SameDepth(env, ops, search) {
      var s := State(Zeros(width), map[], [], [], []);
      assert RunAt(s.ram, 0, width);
      assert HasRoom(s.ram, width);
      assert |s.stack| == width;
    }
  }

  // ----- a run on which they differ -----

  lemma {:induction false} LoadsLength(width: nat, order: seq<nat>)
    requires Below(order, width)
    ensures |LoadsCode(width, order)| <= 6 * |order|
    decreases |order|
  {
    if order != [] {
      LoadsLength(width, order[1..]);
    }
  }

  lemma {:induction false} ClearLength(n: nat)
    ensures |ClearCode(n)| == n + 2 * Fifths(n)
  {
    if n > 0 {
      RepeatLength([Instr.Push(0)], Least(n, 5));
      ClearLength(n - Least(n, 5));
    }
  }

  lemma ShuffleLength(width: nat, order: seq<nat>, search: string)
    requires Below(order, width)
    ensures |ShuffleCode(width, order, search)| <= 20 + 5 * width + 6 * Fifths(width) + 6 * |order|
  {
    hide BorrowCode, BatchCode, LoadsCode, ClearCode;
    BorrowLength(width, search);
    BatchLength(WriteMemOp, width);
    LoadsLength(width, order);
    ClearLength(width);
  }

  /** Two swaps that undo each other, deeper than the one after them. */
  function SwapsBack(): seq<TIROp> {
    [TIROp.Swap(40), TIROp.Swap(40), TIROp.Swap(16)]
  }

  lemma MeasureNext(op: TIROp, rest: seq<TIROp>, m: Survey)
    requires m.consumed < MAX_OPS && IsStackOp(op) && !TooWide(Count(m, op))
    ensures Measure([op] + rest, m) == Measure(rest, Count(m, op))
  {
    assert ([op] + rest)[0] == op && ([op] + rest)[1..] == rest;
  }

  lemma SwapCounts(d: nat, m: Survey, fifths: nat)
    requires d >= 16 && m.balance == 0 && fifths == Fifths(d - 13)
    ensures Count(m, TIROp.Swap(d))
         == Survey(if d + 1 > m.required then d + 1 else m.required, 0, m.consumed + 1, m.cost + 16 + 5 * (d - 13) + 7 * fifths, true)
  {}

  lemma SwapsBackMeasured()
    ensures Measure(SwapsBack(), Start) == Some(Survey(41, 0, 3, 424, true))
  {
    hide Measure, Count, OpCost;
    var swap, last := TIROp.Swap(40), TIROp.Swap(16);
    var m1, m2, m3 := Survey(41, 0, 1, 193, true), Survey(41, 0, 2, 386, true), Survey(41, 0, 3, 424, true);
    SwapCounts(40, Start, 6);
    SwapCounts(40, m1, 6);
    SwapCounts(16, m2, 1);
    MeasureNext(swap, [swap, last], Start);
    MeasureNext(swap, [last], m1);
    MeasureNext(last, [], m2);
    assert [swap] + [swap, last] == SwapsBack() && [swap] + [last] == [swap, last] && [last] + [] == [last];
    MeasureNothing(m3);
  }

  lemma MeasureNothing(m: Survey)
    ensures Measure([], m) == Some(m)
  {}

  lemma SwapsBackFollowed()
    ensures Fits(SwapsBack(), 41) && FollowAll(SwapsBack(), Identity(41)) == Exchange(Identity(41), 40, 24)
  {
    var ops, order := SwapsBack(), Identity(41);
    var once := Follow(ops[0], order);
    assert Follow(ops[1], once) == order;
    assert Follow(ops[2], order) == Exchange(order, 40, 24);
    assert ops[1..] == [ops[1], ops[2]] && [ops[1], ops[2]][1..] == [ops[2]] && [ops[2]][1..] == [];
    assert FollowAll([ops[2]], order) == Exchange(order, 40, 24);
    assert FollowAll([ops[1], ops[2]], once) == FollowAll([ops[2]], order);
  }

  /** A name that occurs once is used once. */
  lemma UsedOnce(order: seq<nat>, i: nat)
    requires i < |order| && forall j :: 0 <= j < |order| && j != i ==> order[j] != order[i]
    ensures Uses(order, order[i]) == 1
  {
    var front, back := order[..i], order[i + 1..];
    assert order == front + [order[i]] + back;
    assert order[i] !in front && order[i] !in back;
  }

  lemma SwapsBackPrefix()
    ensures Prefix(Exchange(Identity(41), 40, 24), 0) == 24
  {
    var order := Exchange(Identity(41), 40, 24);
    var k := Prefix(order, 0);
    if k < 24 {
      UsedOnce(order, k);
    }
    assert order[24] == 40;
  }

  /**
   * The run is planned as a shuffle of 17 words, yet its operations reach for 41: on the stacks from 17 to 40 words they
   * underflow one by one, and the shuffle comes through.
   */
  lemma SwapsBackDiffer(env: Env, search: string, s: State)
    requires HasSearch(env, search) && HasRoom(s.ram, 17) && 17 <= |s.stack| < 41
    ensures PlanOf(SwapsBack()).Some? && ComesThrough(env, SwapsBack(), search, s) && !OneByOne(SwapsBack(), s)
  {
    hide ShuffleCode, Measure, FollowAll, Fits, Prefix, ComesThrough, OneByOne, HasRoom, SwapsBack, Exchange, Identity;
    var ops := SwapsBack();
    SwapsBackMeasured();
    SwapsBackFollowed();
    SwapsBackPrefix();
    var m := Survey(41, 0, 3, 424, true);
    assert ops[..3] == ops by { SwapsBackCount(); }
    var order := FinalOrder(ops, m);
    assert order == Exchange(Identity(41), 40, 24);
    var c := Candidate(order, m);
    ShuffleLength(c.width, c.order, "__scratch");
    assert Fifths(17) == 4;
    assert PlanOf(ops) == Some(c);
    CodeAndOperations(env, ops, search, s);
  }

  lemma SwapsBackCount()
    ensures |SwapsBack()| == 3
  {}

  // ----- when a run is planned -----

  /** On a stack of `size` words every operation finds what it reaches for, and there are never more than 4096 words. */
  predicate FitsWithin(run: seq<TIROp>, size: int)
    decreases |run|
  {
    size <= 4096 && (run == [] || (IsStackOp(run[0]) && Need(run[0]) <= size && FitsWithin(run[1..], size + Change(run[0]))))
  }

  predicate HasDeep(run: seq<TIROp>) {
    exists k :: 0 <= k < |run| && (run[k].Dup? || run[k].Swap?) && run[k].d >= 16
  }

  /** What the operations are estimated at, together. */
  function Estimate(run: seq<TIROp>): nat
    requires AllStackOps(run)
    decreases |run|
  {
    if run == [] then 0 else OpCost(run[0]) + Estimate(run[1..])
  }

  lemma {:induction false} WithinFits(run: seq<TIROp>, size: int)
    requires FitsWithin(run, size)
    ensures Fits(run, size) && AllStackOps(run)
    decreases |run|
  {
    if run != [] {
      WithinFits(run[1..], size + Change(run[0]));
      assert forall k :: 1 <= k < |run| ==> run[k] == run[1..][k - 1];
    }
  }

  lemma SizeIsSmall(run: seq<TIROp>, size: int)
    requires FitsWithin(run, size)
    ensures size <= 4096
  {}

  lemma DeepFirst(run: seq<TIROp>)
    requires run != []
    ensures HasDeep(run) <==> ((run[0].Dup? || run[0].Swap?) && run[0].d >= 16) || HasDeep(run[1..])
  {
    if HasDeep(run[1..]) {
      var k :| 0 <= k < |run[1..]| && (run[1..][k].Dup? || run[1..][k].Swap?) && run[1..][k].d >= 16;
      assert run[k + 1] == run[1..][k];
    }
    if HasDeep(run) && !((run[0].Dup? || run[0].Swap?) && run[0].d >= 16) {
      var k :| 0 <= k < |run| && (run[k].Dup? || run[k].Swap?) && run[k].d >= 16;
      assert run[1..][k - 1] == run[k];
    }
  }

  /** The survey goes over such a run to its end. */
  lemma {:induction false} SurveyedToEnd(run: seq<TIROp>, rest: seq<TIROp>, m: Survey, size: nat)
    requires FitsWithin(run, size + m.balance) && AllStackOps(run) && m.required <= size && size <= 4096
    requires m.consumed + |run| <= 1024 && (m.consumed + |run| == 1024 || rest == [] || !IsStackOp(rest[0]))
    ensures Measure(run + rest, m).Some?
    ensures var r := Measure(run + rest, m).value;
      && r.consumed == m.consumed + |run| && r.required <= size && r.cost == m.cost + Estimate(run)
      && (r.deep <==> m.deep || HasDeep(run))
    decreases |run|
  {
    hide OpCost;
    if run == [] {
      assert run + rest == rest;
    } else {
      var op := run[0];
      assert (run + rest)[0] == op && (run + rest)[1..] == run[1..] + rest;
      assert size + m.balance + Change(op) <= 4096;
      DeepFirst(run);
      SurveyedToEnd(run[1..], rest, Count(m, op), size);
    }
  }

  /**
   * A run of up to 1024 operations, on the least stack it fits, with never more than 4096 words, and nothing behind it
   * that could belong to it: it is planned exactly if it has two operations and a deep one and its shuffle is shorter
   * than its estimate, and then all of it, as a shuffle of the words above those that stay where they are.
   */
  lemma PlanIsMade(run: seq<TIROp>, rest: seq<TIROp>, size: nat) returns (words: seq<nat>)
    requires |run| <= 1024 && (|run| == 1024 || rest == [] || !IsStackOp(rest[0]))
    requires FitsWithin(run, size) && AllStackOps(run) && Fits(run, size) && forall less: nat | less < size :: !Fits(run, less)
    ensures var all := FollowAll(run, Identity(size));
      var k := Prefix(all, 0);
      && k <= size && |words| == |all| - k && (forall i :: 0 <= i < |words| ==> words[i] == all[k + i] - k) && Below(words, size - k)
      && PlanOf(run + rest) ==
        if |run| >= 2 && HasDeep(run) && all != [] && k < size && |ShuffleCode(size - k, words, "__scratch")| < Estimate(run)
        then Some(Shuffle(|run|, size - k, words)) else None
  {
    hide Fits, FitsWithin, FollowAll, Measure, ShuffleCode, Prefix, Estimate, Identity, HasDeep, AllStackOps;
    var ops := run + rest;
    SizeIsSmall(run, size);
    SurveyedToEnd(run, rest, Start, size);
    var m := Measure(ops, Start).value;
    Measured(ops, Start);
    assert ops[..m.consumed] == run;
    assert m.required == size;
    var all := FinalOrder(ops, m);
    words := Candidate(all, m).order;
  }
}
