/** Lowered code does what the operations mean: every step of the source is followed by the machine. */
module Simulation {
  import opened Words
  import opened Machine
  import opened Control
  import opened Legalize
  import opened Scanning
  import opened Borrowing
  import opened DeepAccess
  import opened Permute
  import opened Tir
  import opened Sequence
  import opened Shuffling
  import opened Lowering
  import opened Operations

  // ----- structured operations -----

  /** No return, function or entry inside; operands encodable; at most `reach` cells wanted at a time. */
  predicate Structured(op: TIROp, reach: nat)
    decreases op
  {
    && Encodable(op)
    && match op
       case Dup(d) => d < reach + 13
       case Swap(d) => d < reach + 13
       case IfElse(t, e) => AllStructured(t, reach) && AllStructured(e, reach)
       case IfOnly(b) => AllStructured(b, reach)
       case Loop(_, b) => AllStructured(b, reach)
       case _ => op == TIROp.Halt || op.Call? || !IsControl(op)
  }

  predicate AllStructured(ops: seq<TIROp>, reach: nat)
    decreases ops
  {
    forall k :: 0 <= k < |ops| ==> Structured(ops[k], reach)
  }

  /** The body of a function: structured, but it may return. */
  predicate FunctionBody(ops: seq<TIROp>, reach: nat) {
    forall k :: 0 <= k < |ops| ==> ops[k] == TIROp.Return || Structured(ops[k], reach)
  }

  // ----- code that stands for operations -----

  /** The code of a block without the `halt` that closes a module. */
  function Core(code: seq<Instr>): seq<Instr> {
    if code != [] && code[|code| - 1] == Instr.Halt then code[..|code| - 1] else code
  }

  /** The block of a deferred body, with its inside standing for the body. */
  ghost predicate Stored(env: Env, search: string, d: Deferred)
    decreases d.ops, 2
  {
    d.name in env &&
    var core := Core(env[d.name]);
    var h, e := |BlockHead(d)|, |BlockEnd(d)|;
    h + e <= |core| && core == BlockHead(d) + core[h..|core| - e] + BlockEnd(d)
    && LoweredAs(env, search, d.ops, core[h..|core| - e])
  }

  ghost predicate OpAs(env: Env, search: string, op: TIROp, code: seq<Instr>)
    decreases op, 3
  {
    match op
    case Dup(d) => code == AccessCode(d, true, search) && (d >= 16 ==> HasSearch(env, search))
    case Swap(d) => code == AccessCode(d, false, search) && (d >= 16 ==> HasSearch(env, search))
    case IfElse(t, e) =>
      |code| == 6 && code[3].Call? && code[5].Call? && code == IfElseCode(code[3].target, code[5].target)
      && Stored(env, search, Deferred(code[3].target, t, true, false))
      && Stored(env, search, Deferred(code[5].target, e, false, false))
    case IfOnly(b) =>
      |code| == 2 && code[1].Call? && code == IfOnlyCode(code[1].target)
      && Stored(env, search, Deferred(code[1].target, b, false, false))
    case Loop(name, b) => code == [] && Stored(env, search, Deferred(LabelOf(name), b, false, true))
    case _ => code == FlatCode(op)
  }

  function OpLength(op: TIROp, search: string): nat {
    match op
    case Dup(d) => |AccessCode(d, true, search)|
    case Swap(d) => |AccessCode(d, false, search)|
    case IfElse(_, _) => 6
    case IfOnly(_) => 2
    case Loop(_, _) => 0
    case _ => |FlatCode(op)|
  }

  /** `code` is what the lowering makes of `ops`, with the deferred blocks in place. */
  ghost predicate LoweredAs(env: Env, search: string, ops: seq<TIROp>, code: seq<Instr>)
    decreases ops, 1
  {
    if ops == [] then code == [] else
    var plan := PlanOf(ops);
    if plan.Some? then
      var n := |ShuffleCode(plan.value.width, plan.value.order, search)|;
      HasSearch(env, search) && n <= |code|
      && code[..n] == ShuffleCode(plan.value.width, plan.value.order, search)
      && LoweredAs(env, search, ops[plan.value.consumed..], code[n..])
    else
      var n := OpLength(ops[0], search);
      n <= |code| && OpAs(env, search, ops[0], code[..n]) && LoweredAs(env, search, ops[1..], code[n..])
  }

  /** Every callable procedure has its block. */
  ghost predicate ProcStored(env: Env, search: string, l: string, proc: Proc, reach: nat) {
    match proc
    case FnBody(ops) => FunctionBody(ops, reach) && l in env && exists code :: code <= env[l] && LoweredAs(env, search, ops, code)
    case LoopBody(ops) => AllStructured(ops, reach) && Stored(env, search, Deferred(l, ops, false, true))
  }

  /** Its code may use a search of its own. */
  ghost predicate ProcHeld(env: Env, l: string, proc: Proc, reach: nat) {
    exists search :: ProcStored(env, search, l, proc, reach)
  }

  ghost predicate ProcsStored(env: Env, procs: Procs, reach: nat) {
    4096 <= reach <= 0x1_0000_0000 && forall l :: l in procs ==> ProcHeld(env, l, procs[l], reach)
  }

  // ----- outcomes -----

  /** The machine outcomes that a source result asks for: the same state, or a stop with an error. */
  predicate Asks(r: Result, o: Outcome) {
    match r
    case Ok(s) => o == Done(s)
    case Returned(s) => o == Outcome.Returned(s)
    case Halted(s) => o == Outcome.Halted(s)
    case Failed => o.Crashed? && !o.i.Call?
    case _ => false
  }

  /** The machine stopped at an assertion, which is how a search ends that finds no free memory. */
  predicate Stuck(o: Outcome) {
    o.Crashed? && o.i == Instr.Assert
  }

  /**
   * The outcome that the source result asks for. Where the source is evaluated on less free memory than the code may
   * want, the machine may also get stuck.
   */
  predicate Meets(r: Result, o: Outcome, room: nat, reach: nat) {
    Asks(r, o) || (room < reach && Stuck(o))
  }

  /** The source comes to an end by itself, well or with a refusal. */
  predicate Finishes(r: Result) {
    r.Ok? || r.Returned? || r.Halted? || r.Failed?
  }

  /** The source keeps within its stack, its labels and the free memory, for as long as the fuel lasts. */
  predicate Proceeds(r: Result) {
    Finishes(r) || r.Timeout?
  }

  lemma {:induction false} ExecIsWhole(code: seq<Instr>, s: State)
    requires Exec(code, s).Some?
    ensures Whole(code)
    decreases |code|
  {
    hide Basic;
    if code != [] {
      JumpsAreNotBasic(code[0], s);
      ExecIsWhole(code[1..], Basic(code[0], s).value);
    }
  }

  lemma ExecThen(env: Env, a: seq<Instr>, b: seq<Instr>, s: State, t: State, o: Outcome)
    requires Exec(a, s) == Some(t) && Runs(env, b, t, o)
    ensures Runs(env, a + b, s, o)
  {
    hide Exec, Run, Runs;
    ExecIsWhole(a, s);
    RunsExec(env, a, s, t);
    RunsCat(env, a, b, s, t, o);
  }

  lemma RoomForLess(ram: Ram, room: nat, n: nat)
    requires HasRoom(ram, room) && n <= room
    ensures HasRoom(ram, n)
  {
    var a: nat :| RunAt(ram, a, room);
    assert RunAt(ram, a, n);
  }

  // ----- runs of stack operations -----

  /** Evaluating a run of stack operations one by one rearranges the stack. */
  lemma {:induction false} EvalRun(procs: Procs, room: nat, ops: seq<TIROp>, k: nat, s: State, fuel: nat)
    requires k <= |ops| && AllStackOps(ops[..k]) && Proceeds(Eval(procs, room, ops, s, fuel))
    ensures Fits(ops[..k], |s.stack|)
    ensures Eval(procs, room, ops[k..], WithStack(s, RearrangedAll(ops[..k], s.stack)), fuel) == Eval(procs, room, ops, s, fuel)
    ensures (exists i :: 0 <= i < k && IsDeep(ops[i])) ==> HasRoom(s.ram, room)
    decreases k
  {
    hide Rearranged, HasRoom;
    if k == 0 {
      assert WithStack(s, s.stack) == s;
    } else {
      assert IsStackOp(ops[..k][0]);
      var s1 := EvalOp(procs, room, ops[0], s, fuel).s;
      assert ops[1..][..k - 1] == ops[..k][1..] && ops[1..][k - 1..] == ops[k..];
      EvalRun(procs, room, ops[1..], k - 1, s1, fuel);
      if i :| 0 <= i < k && IsDeep(ops[i]) {
        if i > 0 {
          assert ops[1..][i - 1] == ops[i];
        }
      }
    }
  }

  lemma {:induction false} DeepRun(ops: seq<TIROp>, m: Survey)
    requires Measure(ops, m).Some? && Measure(ops, m).value.deep
    ensures var k := Measure(ops, m).value.consumed - m.consumed;
      0 <= k <= |ops| && AllStackOps(ops[..k]) && (m.deep || exists i :: 0 <= i < k && IsDeep(ops[i]))
    decreases |ops|
  {
    if ops == [] || m.consumed >= MAX_OPS || !IsStackOp(ops[0]) {
    } else {
      var next := Count(m, ops[0]);
      DeepRun(ops[1..], next);
      var k := Measure(ops, m).value.consumed - m.consumed;
      assert ops[..k][1..] == ops[1..][..k - 1];
      if !m.deep {
        if IsDeep(ops[0]) {
        } else {
          var i :| 0 <= i < k - 1 && IsDeep(ops[1..][i]);
          assert IsDeep(ops[i + 1]);
        }
      }
    }
  }

  /** A shuffle in the code keeps up with the operations it stands for, or gets stuck. */
  lemma SimPlan(env: Env, search: string, procs: Procs, room: nat, ops: seq<TIROp>, s: State, fuel: nat)
    returns (o: Outcome)
    requires PlanOf(ops).Some? && HasSearch(env, search) && Proceeds(Eval(procs, room, ops, s, fuel))
    ensures var plan := PlanOf(ops).value;
      && Runs(env, ShuffleCode(plan.width, plan.order, search), s, o)
      && (if o.Done? then Eval(procs, room, ops[plan.consumed..], o.s, fuel) == Eval(procs, room, ops, s, fuel)
          else room < 4096 && Stuck(o))
  {
    hide Eval, Measure, RearrangedAll, HasRoom, ShuffleCode, Runs, Fits;
    var plan := PlanOf(ops).value;
    DeepRun(ops, Start);
    EvalRun(procs, room, ops, plan.consumed, s, fuel);
    StaysNarrow(ops, Start);
    if room >= 4096 {
      RoomForLess(s.ram, room, plan.width);
    }
    var t := PlanWorks(env, ops, search, s);
    o := if HasRoom(s.ram, plan.width) then Done(WithStack(s, RearrangedAll(ops[..plan.consumed], s.stack)))
         else Crashed(t, Instr.Assert);
  }

  // ----- deferred blocks -----

  lemma CorePrefix(code: seq<Instr>) returns (tail: seq<Instr>)
    ensures code == Core(code) + tail
  {
    tail := code[|Core(code)|..];
  }

  /** Entering and leaving a branch: the flag word is dropped first and a zero left last, where the block clears it. */
  lemma BranchInvokes(env: Env, d: Deferred, inner: seq<Instr>, tail: seq<Instr>, s: State, o: Outcome)
    requires !d.isLoop && d.name in env && env[d.name] == BlockHead(d) + inner + BlockEnd(d) + tail
    requires d.clearsFlag ==> |s.stack| > 0
    requires Runs(env, inner, if d.clearsFlag then PopTop(s) else s, o) && (o.Done? || o.Halted? || o.Crashed?) && Whole(inner)
    ensures Invokes(env, d.name, s, if o.Done? && d.clearsFlag then Done(WithStack(o.s, [0] + o.s.stack)) else o)
  {
    hide Exec, Basic, Run, Runs, Invokes;
    var s0 := if d.clearsFlag then PopTop(s) else s;
    var head, end := BlockHead(d), BlockEnd(d);
    if d.clearsFlag {
      assert s.stack == [s.stack[0]] + s.stack[1..];
      OnPop(s, s.stack[0], s.stack[1..]);
      Exec1(Instr.Pop(1), s);
    } else {
      ExecNothing(s);
    }
    ExecThen(env, head, inner, s, s0, o);
    if o.Done? {
      var t := if d.clearsFlag then WithStack(o.s, [0] + o.s.stack) else o.s;
      RunsLast(env, Instr.Return, t);
      if d.clearsFlag {
        OnPush(o.s, 0);
        Exec1(Instr.Push(0), o.s);
        ExecThen(env, [Instr.Push(0)], [Instr.Return], o.s, t, Outcome.Returned(t));
        assert [Instr.Push(0)] + [Instr.Return] == end;
      }
      RunsCat(env, head + inner, end, s, o.s, Outcome.Returned(t));
      RunsStop(env, head + inner + end, tail, s, Outcome.Returned(t));
      InvokesReturn(env, d.name, s, t);
    } else {
      RunsStop(env, head + inner, end, s, o);
      RunsStop(env, head + inner + end, tail, s, o);
      InvokesStop(env, d.name, s, o);
    }
  }

  /** The counter check at the head of a loop block. */
  lemma CounterCheck(s: State, c: Word, rest: seq<Word>)
    requires s.stack == [c] + rest
    ensures Exec([Instr.Dup(0), Instr.Push(0), Instr.Eq], s) == Some(WithStack(s, [Bit(c == 0)] + s.stack))
  {
    hide Exec, Basic;
    OnDup(s, 0);
    var s1 := WithStack(s, [c] + s.stack);
    OnPush(s1, 0);
    var s2 := WithStack(s, [0] + ([c] + s.stack));
    OnBinary(Instr.Eq, s2, 0, c, s.stack, Bit(c == 0));
    Chain3(Instr.Dup(0), Instr.Push(0), Instr.Eq, s, s1, s2, WithStack(s, [Bit(c == 0)] + s.stack));
  }

  lemma LoopParts(body: seq<Instr>)
    ensures LoopHead() + body == [Instr.Dup(0), Instr.Push(0), Instr.Eq] + ([Skiz, Instr.Return] + (Offset(-1) + body))
  {
    hide Offset;
    Assoc([Instr.Dup(0), Instr.Push(0), Instr.Eq], [Skiz, Instr.Return] + Offset(-1), body);
    Assoc([Skiz, Instr.Return], Offset(-1), body);
    Assoc([Instr.Dup(0), Instr.Push(0), Instr.Eq], [Skiz, Instr.Return], Offset(-1));
  }

  /** A loop whose counter is zero returns at once. */
  lemma LoopStops(env: Env, s: State, rest: seq<Word>, body: seq<Instr>)
    requires s.stack == [0] + rest
    ensures Runs(env, LoopHead() + body, s, Outcome.Returned(s))
  {
    hide Exec, Basic, Run, Runs, LoopHead, Offset;
    LoopParts(body);
    var after := Offset(-1) + body;
    CounterCheck(s, 0, rest);
    var s1 := WithStack(s, [1] + s.stack);
    RunsLast(env, Instr.Return, s);
    RunsStop(env, [Instr.Return], after, s, Outcome.Returned(s));
    assert PopTop(s1) == s;
    RunsThrough(env, [Instr.Return] + after, s1, Outcome.Returned(s));
    assert [Skiz] + ([Instr.Return] + after) == [Skiz, Instr.Return] + after;
    ExecThen(env, [Instr.Dup(0), Instr.Push(0), Instr.Eq], [Skiz, Instr.Return] + after, s, s1, Outcome.Returned(s));
  }

  /** A loop whose counter is not zero decrements it and goes on to its body. */
  lemma LoopGoesOn(env: Env, s: State, c: Word, rest: seq<Word>, body: seq<Instr>, o: Outcome)
    requires s.stack == [c] + rest && c != 0 && Runs(env, body, WithStack(s, [c - 1] + rest), o)
    ensures Runs(env, LoopHead() + body, s, o)
  {
    hide Exec, Basic, Run, Runs, LoopHead, Offset;
    LoopParts(body);
    var after := Offset(-1) + body;
    CounterCheck(s, c, rest);
    var s1 := WithStack(s, [0] + s.stack);
    assert PopTop(s1) == s;
    Offsets(s, c, -1, rest);
    assert At(c, -1) == c - 1;
    ExecThen(env, Offset(-1), body, s, WithStack(s, [c - 1] + rest), o);
    RunsOver(env, Instr.Return, after, s1, o);
    ExecThen(env, [Instr.Dup(0), Instr.Push(0), Instr.Eq], [Skiz, Instr.Return] + after, s, s1, o);
  }

  // ----- branching -----

  /** `if` with an `else`: exactly one block is called, and no flag is left behind. */
  lemma IfElseRuns(env: Env, thenLabel: string, elseLabel: string, s: State, flag: Word, rest: seq<Word>, o: Outcome)
    requires s.stack == [flag] + rest && (o.Done? || o.Halted? || o.Crashed?)
    requires flag != 0 ==> Invokes(env, thenLabel, WithStack(s, [1] + rest), if o.Done? then Done(WithStack(o.s, [0] + o.s.stack)) else o)
    requires flag == 0 ==> Invokes(env, elseLabel, WithStack(s, rest), o)
    ensures Runs(env, IfElseCode(thenLabel, elseLabel), s, o)
  {
    hide Exec, Basic, Run, Runs, Invokes;
    OnPush(s, 1);
    var s1 := WithStack(s, [1] + ([flag] + rest));
    OnSwap(s1, 1, flag, rest);
    var s2 := WithStack(s, [flag] + ([1] + rest));
    var s3 := WithStack(s, [1] + rest);
    Chain2(Instr.Push(1), Instr.Swap(1), s, s1, s2);
    assert PopTop(s2) == s3 && PopTop(s3) == WithStack(s, rest);
    var tail := [Skiz, Instr.Call(elseLabel)];
    if flag != 0 {
      if o.Done? {
        var t := WithStack(o.s, [0] + o.s.stack);
        assert PopTop(t) == o.s;
        RunsNothing(env, o.s);
        RunsOver(env, Instr.Call(elseLabel), [], t, o);
        assert [Skiz, Instr.Call(elseLabel)] + [] == tail;
        RunsCall(env, thenLabel, s3, Done(t));
        RunsCat(env, [Instr.Call(thenLabel)], tail, s3, t, o);
      } else {
        RunsCall(env, thenLabel, s3, o);
        RunsStop(env, [Instr.Call(thenLabel)], tail, s3, o);
      }
      RunsThrough(env, [Instr.Call(thenLabel)] + tail, s2, o);
      assert [Skiz] + ([Instr.Call(thenLabel)] + tail) == [Skiz, Instr.Call(thenLabel)] + tail;
    } else {
      RunsCall(env, elseLabel, WithStack(s, rest), o);
      RunsThrough(env, [Instr.Call(elseLabel)], s3, o);
      assert [Skiz] + [Instr.Call(elseLabel)] == tail;
      RunsOver(env, Instr.Call(thenLabel), tail, s2, o);
    }
    ExecThen(env, [Instr.Push(1), Instr.Swap(1)], [Skiz, Instr.Call(thenLabel)] + tail, s, s2, o);
    assert [Instr.Push(1), Instr.Swap(1)] + ([Skiz, Instr.Call(thenLabel)] + tail) == IfElseCode(thenLabel, elseLabel);
  }

  lemma IfOnlyRuns(env: Env, thenLabel: string, s: State, flag: Word, rest: seq<Word>, o: Outcome)
    requires s.stack == [flag] + rest
    requires if flag != 0 then Invokes(env, thenLabel, WithStack(s, rest), o) else o == Done(WithStack(s, rest))
    ensures Runs(env, IfOnlyCode(thenLabel), s, o)
  {
    hide Exec, Basic, Run, Runs, Invokes;
    assert PopTop(s) == WithStack(s, rest);
    if flag != 0 {
      RunsCall(env, thenLabel, WithStack(s, rest), o);
      RunsThrough(env, [Instr.Call(thenLabel)], s, o);
      assert [Skiz] + [Instr.Call(thenLabel)] == IfOnlyCode(thenLabel);
    } else {
      RunsNothing(env, WithStack(s, rest));
      RunsOver(env, Instr.Call(thenLabel), [], s, o);
      assert [Skiz, Instr.Call(thenLabel)] + [] == IfOnlyCode(thenLabel);
    }
  }

  // ----- pieces end where they seem to end -----

  predicate NoSkiz(code: seq<Instr>) {
    Skiz !in code
  }

  lemma {:induction false} BatchNoSkiz(op: Opcode, n: nat)
    ensures NoSkiz(BatchCode(op, n))
  {
    if n > 0 {
      BatchNoSkiz(op, n - Least(n, 5));
    }
  }

  lemma {:induction false} RepeatNoSkiz(n: nat)
    ensures NoSkiz(RepeatCode([Instr.WriteIo(1)], n))
  {
    if n > 0 {
      RepeatNoSkiz(n - 1);
    }
  }

  lemma ReverseNoSkiz(n: nat)
    ensures NoSkiz(ReverseCode(n))
  {
    hide PermuteFrom;
    Permutes(Reversal(n), Identity(n));
  }

  lemma FixedNoSkiz(op: TIROp)
    ensures NoSkiz(FixedCode(op))
  {}

  lemma FlatNoSkiz(op: TIROp)
    ensures NoSkiz(FlatCode(op))
  {
    hide BatchCode, ReverseCode, RepeatCode, FixedCode;
    match op
    case Pop(n) => BatchNoSkiz(PopOp, n);
    case ReadIo(n) => BatchNoSkiz(ReadIoOp, n);
    case WriteIo(n) => BatchNoSkiz(WriteIoOp, n);
    case Hint(n) => BatchNoSkiz(DivineOp, n);
    case RamRead(w) => BatchNoSkiz(ReadMemOp, w); ReverseNoSkiz(w);
    case RamWrite(w) => BatchNoSkiz(WriteMemOp, w); ReverseNoSkiz(w + 1);
    case Reveal(_, n) => RepeatNoSkiz(n); ReverseNoSkiz(n);
    case _ => FixedNoSkiz(op);
  }

  lemma LastNotSkiz(code: seq<Instr>)
    requires NoSkiz(code)
    ensures Whole(code)
  {}

  lemma OpIsWhole(env: Env, search: string, op: TIROp, code: seq<Instr>)
    requires OpAs(env, search, op, code)
    ensures Whole(code)
  {
    hide Stored, DeepCode, FlatCode, HasSearch;
    if op.Dup? || op.Swap? {
      AccessIsWhole(op.d, op.Dup?, search);
    } else if !op.IfElse? && !op.IfOnly? && !op.Loop? {
      FlatNoSkiz(op);
      LastNotSkiz(code);
    }
  }

  lemma AccessIsWhole(depth: nat, duplicate: bool, search: string)
    ensures Whole(AccessCode(depth, duplicate, search))
  {
    hide BorrowCode, BatchCode, DupCode, SwapCode;
  }

  lemma ShuffleIsWhole(width: nat, order: seq<nat>, search: string)
    requires Below(order, width)
    ensures Whole(ShuffleCode(width, order, search))
  {
    hide BorrowCode, BatchCode, LoadsCode, ClearCode;
  }

  lemma WholeCat(a: seq<Instr>, b: seq<Instr>)
    requires Whole(a) && Whole(b)
    ensures Whole(a + b)
  {}

  lemma {:induction false} LoweredIsWhole(env: Env, search: string, ops: seq<TIROp>, code: seq<Instr>)
    requires LoweredAs(env, search, ops, code)
    ensures Whole(code)
    decreases |ops|
  {
    if ops != [] {
      hide ShuffleCode, Stored, OpAs, OpLength, PlanOf;
      var plan := PlanOf(ops);
      if plan.Some? {
        var n := |ShuffleCode(plan.value.width, plan.value.order, search)|;
        ShuffleIsWhole(plan.value.width, plan.value.order, search);
        LoweredIsWhole(env, search, ops[plan.value.consumed..], code[n..]);
        WholeCat(code[..n], code[n..]);
        TakeDrop(code, n);
      } else {
        var n := OpLength(ops[0], search);
        OpIsWhole(env, search, ops[0], code[..n]);
        LoweredIsWhole(env, search, ops[1..], code[n..]);
        WholeCat(code[..n], code[n..]);
        TakeDrop(code, n);
      }
    }
  }

  // ----- the simulation -----

  /** Structured operations never return from the enclosing function. */
  lemma {:induction false} NeverReturns(procs: Procs, room: nat, reach: nat, ops: seq<TIROp>, s: State, fuel: nat)
    requires AllStructured(ops, reach)
    ensures !Eval(procs, room, ops, s, fuel).Returned?
    decreases fuel, ops, 0
  {
    if ops != [] {
      OpNeverReturns(procs, room, reach, ops[0], s, fuel);
      var r := EvalOp(procs, room, ops[0], s, fuel);
      if r.Ok? {
        NeverReturns(procs, room, reach, ops[1..], r.s, fuel);
      }
    }
  }

  lemma {:induction false} OpNeverReturns(procs: Procs, room: nat, reach: nat, op: TIROp, s: State, fuel: nat)
    requires Structured(op, reach)
    ensures !EvalOp(procs, room, op, s, fuel).Returned?
    decreases fuel, op, 1
  {
    hide Simple;
    match op
    case IfElse(t, e) =>
      if |s.stack| > 0 {
        NeverReturns(procs, room, reach, if s.stack[0] != 0 then t else e, WithStack(s, s.stack[1..]), fuel);
      }
    case IfOnly(b) =>
      if |s.stack| > 0 {
        NeverReturns(procs, room, reach, b, WithStack(s, s.stack[1..]), fuel);
      }
    case Call(l) => CallNeverReturns(procs, room, CalleeOf(l), s, fuel);
    case _ =>
  }

  lemma {:induction false} CallNeverReturns(procs: Procs, room: nat, l: string, s: State, fuel: nat)
    ensures !EvalCall(procs, room, l, s, fuel).Returned?
    decreases fuel
  {
    hide Eval;
    if fuel > 0 && l in procs && procs[l].LoopBody? && |s.stack| > 0 && s.stack[0] != 0 {
      var r := Eval(procs, room, procs[l].ops, WithStack(s, [s.stack[0] - 1] + s.stack[1..]), fuel - 1);
      if r.Ok? {
        CallNeverReturns(procs, room, l, r.s, fuel - 1);
      }
    }
  }

  /** The code of structured operations does what they do. */
  lemma {:induction false} SimOps(env: Env, search: string, procs: Procs, room: nat, reach: nat, ops: seq<TIROp>, code: seq<Instr>, s: State, fuel: nat)
    returns (o: Outcome)
    requires ProcsStored(env, procs, reach) && LoweredAs(env, search, ops, code)
    requires FunctionBody(ops, reach) && Finishes(Eval(procs, room, ops, s, fuel))
    ensures Meets(Eval(procs, room, ops, s, fuel), o, room, reach) && Runs(env, code, s, o)
    decreases fuel, 1, ops, 0
  {
    if ops == [] {
      RunsNothing(env, s);
      o := Done(s);
    } else {
      hide ShuffleCode, Stored, OpAs, OpLength, PlanOf, Runs, ProcHeld, EvalOp, Structured;
      var plan := PlanOf(ops);
      if plan.Some? {
        var n := |ShuffleCode(plan.value.width, plan.value.order, search)|;
        o := SimPlan(env, search, procs, room, ops, s, fuel);
        ShuffleIsWhole(plan.value.width, plan.value.order, search);
        if o.Done? {
          var t := o.s;
          o := SimOps(env, search, procs, room, reach, ops[plan.value.consumed..], code[n..], t, fuel);
          RunsCat(env, code[..n], code[n..], s, t, o);
        } else {
          RunsStop(env, code[..n], code[n..], s, o);
        }
        TakeDrop(code, n);
      } else {
        var n := OpLength(ops[0], search);
        var r := EvalOp(procs, room, ops[0], s, fuel);
        o := SimOp(env, search, procs, room, reach, ops[0], code[..n], s, fuel);
        OpIsWhole(env, search, ops[0], code[..n]);
        if o.Done? {
          o := SimOps(env, search, procs, room, reach, ops[1..], code[n..], r.s, fuel);
          RunsCat(env, code[..n], code[n..], s, r.s, o);
        } else {
          RunsStop(env, code[..n], code[n..], s, o);
        }
        TakeDrop(code, n);
      }
    }
  }

  lemma {:induction false} SimOp(env: Env, search: string, procs: Procs, room: nat, reach: nat, op: TIROp, code: seq<Instr>, s: State, fuel: nat)
    returns (o: Outcome)
    requires ProcsStored(env, procs, reach) && OpAs(env, search, op, code)
    requires (op == TIROp.Return || Structured(op, reach)) && Finishes(EvalOp(procs, room, op, s, fuel))
    ensures Meets(EvalOp(procs, room, op, s, fuel), o, room, reach) && Runs(env, code, s, o)
    decreases fuel, 1, op, 1
  {
    hide Eval, Simple, HasRoom, Runs, Invokes, HasSearch, AccessCode, FlatCode, Stored, EvalCall, ProcHeld, IfElseCode, IfOnlyCode, Enough;
    match op
    case IfElse(t, e) =>
      var rest := s.stack[1..];
      assert s.stack == [s.stack[0]] + rest;
      if s.stack[0] != 0 {
        var s1 := WithStack(s, [1] + rest);
        assert PopTop(s1) == WithStack(s, rest);
        NeverReturns(procs, room, reach, t, WithStack(s, rest), fuel);
        o := SimBranch(env, search, procs, room, reach, Deferred(code[3].target, t, true, false), s1, fuel);
      } else {
        NeverReturns(procs, room, reach, e, WithStack(s, rest), fuel);
        o := SimBranch(env, search, procs, room, reach, Deferred(code[5].target, e, false, false), WithStack(s, rest), fuel);
      }
      IfElseRuns(env, code[3].target, code[5].target, s, s.stack[0], rest, o);
    case IfOnly(b) =>
      var rest := s.stack[1..];
      assert s.stack == [s.stack[0]] + rest;
      o := Done(WithStack(s, rest));
      if s.stack[0] != 0 {
        NeverReturns(procs, room, reach, b, WithStack(s, rest), fuel);
        o := SimBranch(env, search, procs, room, reach, Deferred(code[1].target, b, false, false), WithStack(s, rest), fuel);
      }
      IfOnlyRuns(env, code[1].target, s, s.stack[0], rest, o);
    case Call(l) =>
      CallNeverReturns(procs, room, CalleeOf(l), s, fuel);
      o := SimCall(env, procs, room, reach, CalleeOf(l), s, fuel);
      RunsCall(env, CalleeOf(l), s, o);
      CallLine(op);
    case _ => o := SimPlain(env, search, procs, room, reach, op, code, s, fuel);
  }

  lemma CallLine(op: TIROp)
    requires op.Call?
    ensures FlatCode(op) == [Instr.Call(CalleeOf(op.target))]
  {}

  /** Code that stops at an instruction's refusal. */
  lemma {:induction false} RefusedRuns(env: Env, code: seq<Instr>, s: State) returns (o: Outcome)
    requires Exec(code, s) == None && JumpFree(code)
    ensures o.Crashed? && !o.i.Call? && Runs(env, code, s, o)
    decreases |code|
  {
    hide Basic, Run, Runs;
    var i, rest := code[0], code[1..];
    assert code == [i] + rest;
    var r := Basic(i, s);
    if r.None? {
      o := Crashed(s, i);
      RunsCrash(env, i, rest, s);
    } else {
      o := RefusedRuns(env, rest, r.value);
      Exec1(i, s);
      ExecThen(env, [i], rest, s, r.value, o);
    }
  }

  /** Operations without blocks or calls. */
  lemma SimPlain(env: Env, search: string, procs: Procs, room: nat, reach: nat, op: TIROp, code: seq<Instr>, s: State, fuel: nat)
    returns (o: Outcome)
    requires OpAs(env, search, op, code) && (op == TIROp.Return || Structured(op, reach)) && reach <= 0x1_0000_0000
    requires !op.IfElse? && !op.IfOnly? && !op.Call? && Finishes(EvalOp(procs, room, op, s, fuel))
    ensures Meets(EvalOp(procs, room, op, s, fuel), o, room, reach) && Runs(env, code, s, o)
  {
    hide Eval, Simple, HasRoom, Runs, HasSearch, AccessCode, Stored, Rearranged, Enough, JumpFree;
    if op == TIROp.Return {
      o := Outcome.Returned(s);
      RunsLast(env, Instr.Return, s);
    } else if op == TIROp.Halt {
      o := Outcome.Halted(s);
      RunsLast(env, Instr.Halt, s);
    } else if op.Loop? {
      o := Done(s);
      RunsNothing(env, s);
    } else if op.Dup? || op.Swap? {
      o := SimAccess(env, search, procs, room, reach, op, s, fuel);
    } else {
      hide FlatCode;
      var r := EvalOp(procs, room, op, s, fuel);
      if r.Ok? {
        o := Done(r.s);
        FlatWorks(op, s, r.s);
        RunsExec(env, code, s, r.s);
      } else {
        FlatRefuses(op, s);
        o := RefusedRuns(env, code, s);
      }
    }
  }

  lemma SimAccess(env: Env, search: string, procs: Procs, room: nat, reach: nat, op: TIROp, s: State, fuel: nat) returns (o: Outcome)
    requires (op.Dup? || op.Swap?) && Structured(op, reach) && (op.d >= 16 ==> HasSearch(env, search))
    requires Finishes(EvalOp(procs, room, op, s, fuel))
    ensures Meets(EvalOp(procs, room, op, s, fuel), o, room, reach) && Runs(env, AccessCode(op.d, op.Dup?, search), s, o)
  {
    hide HasRoom, Runs, HasSearch, AccessCode, Rearranged;
    o := Done(EvalOp(procs, room, op, s, fuel).s);
    if op.d < 16 {
      ShallowAccess(env, op.d, op.Dup?, search, s);
    } else {
      var cells := CellsFor(op.d, op.Dup?);
      if cells <= room {
        RoomForLess(s.ram, room, cells);
      }
      var t := AccessWorks(env, op.d, op.Dup?, search, s);
      if !HasRoom(s.ram, cells) {
        o := Crashed(t, Instr.Assert);
      }
    }
  }

  /** Calling a branch: the outcome of its body, which is `o`, and for a block that clears the flag a zero on top. */
  lemma {:induction false} SimBranch(env: Env, search: string, procs: Procs, room: nat, reach: nat, d: Deferred, s: State, fuel: nat)
    returns (o: Outcome)
    requires ProcsStored(env, procs, reach) && Stored(env, search, d) && !d.isLoop && AllStructured(d.ops, reach)
    requires d.clearsFlag ==> |s.stack| > 0
    requires var r := Eval(procs, room, d.ops, if d.clearsFlag then PopTop(s) else s, fuel); r.Ok? || r.Halted? || r.Failed?
    ensures Meets(Eval(procs, room, d.ops, if d.clearsFlag then PopTop(s) else s, fuel), o, room, reach)
    ensures Invokes(env, d.name, s, if o.Done? && d.clearsFlag then Done(WithStack(o.s, [0] + o.s.stack)) else o)
    decreases fuel, 1, d.ops, 1
  {
    hide Eval, Runs, Invokes, ProcsStored, LoweredAs, BlockHead, BlockEnd;
    var s0 := if d.clearsFlag then PopTop(s) else s;
    var core := Core(env[d.name]);
    var inner := core[|BlockHead(d)|..|core| - |BlockEnd(d)|];
    var tail := CorePrefix(env[d.name]);
    o := SimOps(env, search, procs, room, reach, d.ops, inner, s0, fuel);
    LoweredIsWhole(env, search, d.ops, inner);
    BranchInvokes(env, d, inner, tail, s, o);
  }

  lemma {:induction false} SimCall(env: Env, procs: Procs, room: nat, reach: nat, l: string, s: State, fuel: nat)
    returns (o: Outcome)
    requires ProcsStored(env, procs, reach)
    requires Finishes(EvalCall(procs, room, l, s, fuel))
    ensures Meets(EvalCall(procs, room, l, s, fuel), o, room, reach) && Invokes(env, l, s, o)
    decreases fuel, 0, 1
  {
    hide Eval, Runs, Invokes, LoweredAs, Stored, FunctionBody;
    CallNeverReturns(procs, room, l, s, fuel);
    assert ProcHeld(env, l, procs[l], reach);
    var search :| ProcStored(env, search, l, procs[l], reach);
    match procs[l]
    case FnBody(ops) =>
      var code :| code <= env[l] && LoweredAs(env, search, ops, code);
      o := SimOps(env, search, procs, room, reach, ops, code, s, fuel - 1);
      LoweredIsWhole(env, search, ops, code);
      var tail := env[l][|code|..];
      assert env[l] == code + tail;
      RunsStop(env, code, tail, s, o);
      if o.Returned? {
        InvokesReturn(env, l, s, o.s);
        o := Done(o.s);
      } else {
        InvokesStop(env, l, s, o);
      }
    case LoopBody(ops) =>
      o := SimLoop(env, search, procs, room, reach, l, ops, s, fuel);
  }

  lemma {:induction false} SimLoop(env: Env, search: string, procs: Procs, room: nat, reach: nat, l: string, ops: seq<TIROp>, s: State, fuel: nat)
    returns (o: Outcome)
    requires ProcsStored(env, procs, reach) && l in procs && procs[l] == LoopBody(ops) && ProcStored(env, search, l, procs[l], reach)
    requires Finishes(EvalCall(procs, room, l, s, fuel))
    ensures Meets(EvalCall(procs, room, l, s, fuel), o, room, reach) && Invokes(env, l, s, o)
    decreases fuel, 0, 0
  {
    hide Eval, Runs, Invokes, LoweredAs, LoopHead, EvalCall, ProcStored, Whole;
    LoopMeaning(procs, room, l, ops, s, fuel);
    var rest := s.stack[1..];
    assert s.stack == [s.stack[0]] + rest;
    var inner, tail := LoopStored(env, search, reach, l, ops);
    if s.stack[0] == 0 {
      o := Done(s);
      LoopStops(env, s, rest, inner + [Recurse] + tail);
      InvokesReturn(env, l, s, s);
    } else {
      var s1 := WithStack(s, [s.stack[0] - 1] + rest);
      var r := Eval(procs, room, ops, s1, fuel - 1);
      NeverReturns(procs, room, reach, ops, s1, fuel - 1);
      o := SimOps(env, search, procs, room, reach, ops, inner, s1, fuel - 1);
      LoopTurn(env, s, rest, inner, tail, o);
      if o.Done? {
        o := SimCall(env, procs, room, reach, l, r.s, fuel - 1);
        CallNeverReturns(procs, room, l, r.s, fuel - 1);
        InvokesAgain(env, l, s, r.s, o);
      } else {
        InvokesStop(env, l, s, o);
      }
    }
  }

  /** What calling a loop means, one turn at a time. */
  lemma LoopMeaning(procs: Procs, room: nat, l: string, ops: seq<TIROp>, s: State, fuel: nat)
    requires l in procs && procs[l] == LoopBody(ops) && Finishes(EvalCall(procs, room, l, s, fuel))
    ensures fuel > 0 && |s.stack| > 0
    ensures s.stack[0] == 0 ==> EvalCall(procs, room, l, s, fuel) == Ok(s)
    ensures s.stack[0] != 0 ==>
      var r := Eval(procs, room, ops, WithStack(s, [s.stack[0] - 1] + s.stack[1..]), fuel - 1);
      !r.Returned? && EvalCall(procs, room, l, s, fuel) == if r.Ok? then EvalCall(procs, room, l, r.s, fuel - 1) else r
  {
    hide Eval;
  }

  lemma LoopStored(env: Env, search: string, reach: nat, l: string, ops: seq<TIROp>)
    returns (inner: seq<Instr>, tail: seq<Instr>)
    requires ProcStored(env, search, l, LoopBody(ops), reach)
    ensures AllStructured(ops, reach) && FunctionBody(ops, reach)
    ensures l in env && env[l] == LoopHead() + (inner + [Recurse] + tail)
    ensures LoweredAs(env, search, ops, inner) && Whole(inner)
  {
    hide LoweredAs, LoopHead;
    var core := Core(env[l]);
    inner := core[|LoopHead()|..|core| - 1];
    tail := CorePrefix(env[l]);
    LoopBlock(env[l], inner, tail);
    LoweredIsWhole(env, search, ops, inner);
  }

  /** One turn of a loop whose counter is not zero. */
  lemma LoopTurn(env: Env, s: State, rest: seq<Word>, inner: seq<Instr>, tail: seq<Instr>, o: Outcome)
    requires |s.stack| > 0 && s.stack[0] != 0 && s.stack == [s.stack[0]] + rest && Whole(inner)
    requires Runs(env, inner, WithStack(s, [s.stack[0] - 1] + rest), o) && (o.Done? || o.Halted? || o.Crashed?)
    ensures Runs(env, LoopHead() + (inner + [Recurse] + tail), s, if o.Done? then Recursed(o.s) else o)
  {
    hide Runs, LoopHead;
    var s1 := WithStack(s, [s.stack[0] - 1] + rest);
    var q := if o.Done? then Recursed(o.s) else o;
    if o.Done? {
      RunsLast(env, Recurse, o.s);
      RunsCat(env, inner, [Recurse], s1, o.s, q);
    } else {
      RunsStop(env, inner, [Recurse], s1, q);
    }
    RunsStop(env, inner + [Recurse], tail, s1, q);
    LoopGoesOn(env, s, s.stack[0], rest, inner + [Recurse] + tail, q);
  }

  lemma LoopBlock(code: seq<Instr>, inner: seq<Instr>, tail: seq<Instr>)
    requires code == LoopHead() + inner + [Recurse] + tail
    ensures code == LoopHead() + (inner + [Recurse] + tail)
  {
    hide LoopHead;
    Assoc(LoopHead(), inner, [Recurse]);
    Assoc(LoopHead(), inner + [Recurse], tail);
  }
}
