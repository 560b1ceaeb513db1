/** A source program that runs forever is lowered to one that never halts. */
module Divergence {
  import opened Words
  import opened Machine
  import opened Control
  import opened Legalize
  import opened Scanning
  import opened DeepAccess
  import opened Tir
  import opened Sequence
  import opened Shuffling
  import opened Lowering
  import opened Operations
  import opened Crowding
  import opened Simulation
  import opened Listing
  import opened ModuleLowering
  import opened Compilation

  /** Still running when the fuel is used up, or stopped at an assertion. */
  predicate Hung(o: Outcome) {
    o == Outcome.Timeout || Stuck(o)
  }

  // ----- code that hangs -----

  lemma SoFar(env: Env, code: seq<Instr>, s: State, o: Outcome, f: nat)
    requires Runs(env, code, s, o)
    ensures Run(env, code, s, f) == Outcome.Timeout || Run(env, code, s, f) == o
  {
    hide Run;
    var g: nat :| Run(env, code, s, g) == o;
    if g <= f {
      RunMono(env, code, s, g, f);
    } else if Run(env, code, s, f) != Outcome.Timeout {
      RunMono(env, code, s, f, g);
    }
  }

  lemma SlowFirst(env: Env, a: seq<Instr>, b: seq<Instr>, s: State, f: nat)
    requires Whole(a) && Hung(Run(env, a, s, f))
    ensures Hung(Run(env, a + b, s, f))
  {
    hide Run;
    RunCat(env, a, b, s, f);
  }

  lemma SlowSecond(env: Env, a: seq<Instr>, b: seq<Instr>, s: State, t: State, f: nat)
    requires Whole(a) && Runs(env, a, s, Done(t)) && Hung(Run(env, b, t, f))
    ensures Hung(Run(env, a + b, s, f))
  {
    hide Run, Runs;
    SoFar(env, a, s, Done(t), f);
    RunCat(env, a, b, s, f);
  }

  lemma SlowAfter(env: Env, a: seq<Instr>, b: seq<Instr>, s: State, t: State, f: nat)
    requires Exec(a, s) == Some(t) && Hung(Run(env, b, t, f))
    ensures Hung(Run(env, a + b, s, f))
  {
    hide Run, Exec, Runs;
    ExecIsWhole(a, s);
    RunsExec(env, a, s, t);
    SlowSecond(env, a, b, s, t, f);
  }

  lemma SlowThrough(env: Env, rest: seq<Instr>, s: State, f: nat)
    requires |s.stack| > 0 && s.stack[0] != 0 && Hung(Run(env, rest, PopTop(s), f))
    ensures Hung(Run(env, [Skiz] + rest, s, f))
  {
    assert ([Skiz] + rest)[1..] == rest;
  }

  lemma SlowOver(env: Env, i: Instr, rest: seq<Instr>, s: State, f: nat)
    requires |s.stack| > 0 && s.stack[0] == 0 && Hung(Run(env, rest, PopTop(s), f))
    ensures Hung(Run(env, [Skiz, i] + rest, s, f))
  {
    assert ([Skiz, i] + rest)[2..] == rest;
  }

  lemma SlowLine(env: Env, l: string, rest: seq<Instr>, s: State, f: nat)
    requires Hung(Invoke(env, l, s, f))
    ensures Hung(Run(env, [Instr.Call(l)] + rest, s, f))
  {
    hide Invoke;
    assert ([Instr.Call(l)] + rest)[0] == Instr.Call(l);
  }

  lemma SlowBlock(env: Env, l: string, s: State, f: nat)
    requires f > 0 && l in env && Hung(Run(env, env[l], s, f - 1))
    ensures Hung(Invoke(env, l, s, f))
  {
    hide Run;
  }

  lemma LessFuel(env: Env, code: seq<Instr>, s: State, f: nat, g: nat)
    requires f <= g && Hung(Run(env, code, s, g))
    ensures Hung(Run(env, code, s, f))
  {
    hide Run;
    if Run(env, code, s, f) != Outcome.Timeout {
      RunMono(env, code, s, f, g);
    }
  }

  // ----- branches and loops -----

  lemma SlowIfElse(env: Env, thenLabel: string, elseLabel: string, s: State, flag: Word, rest: seq<Word>, f: nat)
    requires s.stack == [flag] + rest
    requires if flag != 0 then Hung(Invoke(env, thenLabel, WithStack(s, [1] + rest), f))
             else Hung(Invoke(env, elseLabel, WithStack(s, rest), f))
    ensures Hung(Run(env, IfElseCode(thenLabel, elseLabel), s, f))
  {
    hide Exec, Basic, Run, Invoke;
    OnPush(s, 1);
    var s1 := WithStack(s, [1] + ([flag] + rest));
    OnSwap(s1, 1, flag, rest);
    var s2 := WithStack(s, [flag] + ([1] + rest));
    var s3 := WithStack(s, [1] + rest);
    Chain2(Instr.Push(1), Instr.Swap(1), s, s1, s2);
    assert PopTop(s2) == s3 && PopTop(s3) == WithStack(s, rest);
    var tail := [Skiz, Instr.Call(elseLabel)];
    if flag != 0 {
      SlowLine(env, thenLabel, tail, s3, f);
      SlowThrough(env, [Instr.Call(thenLabel)] + tail, s2, f);
      assert [Skiz] + ([Instr.Call(thenLabel)] + tail) == [Skiz, Instr.Call(thenLabel)] + tail;
    } else {
      SlowLine(env, elseLabel, [], WithStack(s, rest), f);
      assert [Instr.Call(elseLabel)] + [] == [Instr.Call(elseLabel)];
      SlowThrough(env, [Instr.Call(elseLabel)], s3, f);
      assert [Skiz] + [Instr.Call(elseLabel)] == tail;
      SlowOver(env, Instr.Call(thenLabel), tail, s2, f);
    }
    SlowAfter(env, [Instr.Push(1), Instr.Swap(1)], [Skiz, Instr.Call(thenLabel)] + tail, s, s2, f);
    assert [Instr.Push(1), Instr.Swap(1)] + ([Skiz, Instr.Call(thenLabel)] + tail) == IfElseCode(thenLabel, elseLabel);
  }

  lemma SlowIfOnly(env: Env, thenLabel: string, s: State, flag: Word, rest: seq<Word>, f: nat)
    requires s.stack == [flag] + rest && flag != 0 && Hung(Invoke(env, thenLabel, WithStack(s, rest), f))
    ensures Hung(Run(env, IfOnlyCode(thenLabel), s, f))
  {
    hide Run, Invoke;
    SlowLine(env, thenLabel, [], WithStack(s, rest), f);
    assert [Instr.Call(thenLabel)] + [] == [Instr.Call(thenLabel)];
    assert PopTop(s) == WithStack(s, rest);
    SlowThrough(env, [Instr.Call(thenLabel)], s, f);
    assert [Skiz] + [Instr.Call(thenLabel)] == IfOnlyCode(thenLabel);
  }

  /** A branch whose body is still running. */
  lemma SlowInside(env: Env, d: Deferred, inner: seq<Instr>, tail: seq<Instr>, s: State, f: nat)
    requires !d.isLoop && d.name in env && env[d.name] == BlockHead(d) + inner + BlockEnd(d) + tail
    requires d.clearsFlag ==> |s.stack| > 0
    requires Hung(Run(env, inner, if d.clearsFlag then PopTop(s) else s, f)) && Whole(inner)
    ensures Hung(Invoke(env, d.name, s, f))
  {
    hide Exec, Basic, Run;
    if f > 0 {
      var s0 := if d.clearsFlag then PopTop(s) else s;
      var head, end := BlockHead(d), BlockEnd(d);
      LessFuel(env, inner, s0, f - 1, f);
      if d.clearsFlag {
        assert s.stack == [s.stack[0]] + s.stack[1..];
        OnPop(s, s.stack[0], s.stack[1..]);
        Exec1(Instr.Pop(1), s);
      } else {
        ExecNothing(s);
      }
      ExecIsWhole(head, s);
      WholeCat(head, inner);
      SlowAfter(env, head, inner, s, s0, f - 1);
      SlowFirst(env, head + inner, end, s, f - 1);
      EndIsWhole(d);
      WholeCat(head + inner, end);
      SlowFirst(env, head + inner + end, tail, s, f - 1);
      SlowBlock(env, d.name, s, f);
    }
  }

  lemma EndIsWhole(d: Deferred)
    ensures Whole(BlockEnd(d))
  {}

  /** One turn of a loop whose counter is not zero and whose body is still running. */
  lemma SlowTurn(env: Env, s: State, rest: seq<Word>, inner: seq<Instr>, tail: seq<Instr>, f: nat)
    requires |s.stack| > 0 && s.stack[0] != 0 && s.stack == [s.stack[0]] + rest && Whole(inner)
    requires Hung(Run(env, inner, WithStack(s, [s.stack[0] - 1] + rest), f))
    ensures Hung(Run(env, LoopHead() + (inner + [Recurse] + tail), s, f))
  {
    hide Run, Exec, Basic, LoopHead, Offset;
    var c := s.stack[0];
    var s1 := WithStack(s, [c - 1] + rest);
    var body := inner + [Recurse] + tail;
    SlowFirst(env, inner, [Recurse], s1, f);
    SlowFirst(env, inner + [Recurse], tail, s1, f);
    LoopParts(body);
    var after := Offset(-1) + body;
    CounterCheck(s, c, rest);
    var s2 := WithStack(s, [0] + s.stack);
    assert PopTop(s2) == s;
    Offsets(s, c, -1, rest);
    assert At(c, -1) == c - 1;
    SlowAfter(env, Offset(-1), body, s, s1, f);
    SlowOver(env, Instr.Return, after, s2, f);
    SlowAfter(env, [Instr.Dup(0), Instr.Push(0), Instr.Eq], [Skiz, Instr.Return] + after, s, s2, f);
  }

  // ----- while the source runs, the machine runs or hangs -----

  lemma {:induction false} SlowOps(env: Env, search: string, procs: Procs, reach: nat, ops: seq<TIROp>, code: seq<Instr>, s: State, fuel: nat)
    requires ProcsStored(env, procs, reach) && LoweredAs(env, search, ops, code)
    requires FunctionBody(ops, reach) && Eval(procs, 0, ops, s, fuel) == Result.Timeout
    ensures Hung(Run(env, code, s, fuel))
    decreases fuel, 1, ops, 0
  {
    hide ShuffleCode, Stored, OpAs, OpLength, PlanOf, Run, Runs, ProcHeld, EvalOp, Structured;
    var plan := PlanOf(ops);
    if plan.Some? {
      var n := |ShuffleCode(plan.value.width, plan.value.order, search)|;
      var o := SimPlan(env, search, procs, 0, ops, s, fuel);
      ShuffleIsWhole(plan.value.width, plan.value.order, search);
      if o.Done? {
        SlowOps(env, search, procs, reach, ops[plan.value.consumed..], code[n..], o.s, fuel);
        SlowSecond(env, code[..n], code[n..], s, o.s, fuel);
      } else {
        SoFar(env, code[..n], s, o, fuel);
        SlowFirst(env, code[..n], code[n..], s, fuel);
      }
      TakeDrop(code, n);
    } else {
      var n := OpLength(ops[0], search);
      var r := EvalOp(procs, 0, ops[0], s, fuel);
      OpIsWhole(env, search, ops[0], code[..n]);
      if r.Ok? {
        var o := SimOp(env, search, procs, 0, reach, ops[0], code[..n], s, fuel);
        if o.Done? {
          SlowOps(env, search, procs, reach, ops[1..], code[n..], r.s, fuel);
          SlowSecond(env, code[..n], code[n..], s, r.s, fuel);
        } else {
          SoFar(env, code[..n], s, o, fuel);
          SlowFirst(env, code[..n], code[n..], s, fuel);
        }
      } else {
        SlowOp(env, search, procs, reach, ops[0], code[..n], s, fuel);
        SlowFirst(env, code[..n], code[n..], s, fuel);
      }
      TakeDrop(code, n);
    }
  }

  lemma {:induction false} SlowOp(env: Env, search: string, procs: Procs, reach: nat, op: TIROp, code: seq<Instr>, s: State, fuel: nat)
    requires ProcsStored(env, procs, reach) && OpAs(env, search, op, code)
    requires (op == TIROp.Return || Structured(op, reach)) && EvalOp(procs, 0, op, s, fuel) == Result.Timeout
    ensures Hung(Run(env, code, s, fuel))
    decreases fuel, 1, op, 1
  {
    hide Eval, Simple, HasRoom, Run, Invoke, HasSearch, AccessCode, FlatCode, Stored, EvalCall, ProcHeld, IfElseCode, IfOnlyCode, Enough;
    match op
    case IfElse(t, e) =>
      var rest := s.stack[1..];
      assert s.stack == [s.stack[0]] + rest;
      if s.stack[0] != 0 {
        var s1 := WithStack(s, [1] + rest);
        assert PopTop(s1) == WithStack(s, rest);
        SlowBranch(env, search, procs, reach, Deferred(code[3].target, t, true, false), s1, fuel);
      } else {
        SlowBranch(env, search, procs, reach, Deferred(code[5].target, e, false, false), WithStack(s, rest), fuel);
      }
      SlowIfElse(env, code[3].target, code[5].target, s, s.stack[0], rest, fuel);
    case IfOnly(b) =>
      var rest := s.stack[1..];
      assert s.stack == [s.stack[0]] + rest;
      SlowBranch(env, search, procs, reach, Deferred(code[1].target, b, false, false), WithStack(s, rest), fuel);
      SlowIfOnly(env, code[1].target, s, s.stack[0], rest, fuel);
    case Call(l) =>
      SlowCall(env, procs, reach, CalleeOf(l), s, fuel);
      SlowLine(env, CalleeOf(l), [], s, fuel);
      assert [Instr.Call(CalleeOf(l))] + [] == [Instr.Call(CalleeOf(l))];
      CallLine(op);
    case _ =>
  }

  lemma {:induction false} SlowBranch(env: Env, search: string, procs: Procs, reach: nat, d: Deferred, s: State, fuel: nat)
    requires ProcsStored(env, procs, reach) && Stored(env, search, d) && !d.isLoop && AllStructured(d.ops, reach)
    requires d.clearsFlag ==> |s.stack| > 0
    requires Eval(procs, 0, d.ops, if d.clearsFlag then PopTop(s) else s, fuel) == Result.Timeout
    ensures Hung(Invoke(env, d.name, s, fuel))
    decreases fuel, 1, d.ops, 1
  {
    hide Eval, Run, Invoke, ProcsStored, LoweredAs, BlockHead, BlockEnd;
    var s0 := if d.clearsFlag then PopTop(s) else s;
    var core := Core(env[d.name]);
    var inner := core[|BlockHead(d)|..|core| - |BlockEnd(d)|];
    var tail := CorePrefix(env[d.name]);
    SlowOps(env, search, procs, reach, d.ops, inner, s0, fuel);
    LoweredIsWhole(env, search, d.ops, inner);
    SlowInside(env, d, inner, tail, s, fuel);
  }

  lemma {:induction false} SlowCall(env: Env, procs: Procs, reach: nat, l: string, s: State, fuel: nat)
    requires ProcsStored(env, procs, reach) && EvalCall(procs, 0, l, s, fuel) == Result.Timeout
    ensures Hung(Invoke(env, l, s, fuel))
    decreases fuel, 0, 1
  {
    hide Eval, Run, LoweredAs, Stored, FunctionBody;
    if fuel > 0 {
      assert ProcHeld(env, l, procs[l], reach);
      var search :| ProcStored(env, search, l, procs[l], reach);
      match procs[l]
      case FnBody(ops) =>
        var code :| code <= env[l] && LoweredAs(env, search, ops, code);
        SlowOps(env, search, procs, reach, ops, code, s, fuel - 1);
        LoweredIsWhole(env, search, ops, code);
        var tail := env[l][|code|..];
        assert env[l] == code + tail;
        SlowFirst(env, code, tail, s, fuel - 1);
        SlowBlock(env, l, s, fuel);
      case LoopBody(ops) =>
        SlowLoop(env, search, procs, reach, l, ops, s, fuel);
    }
  }

  lemma {:induction false} SlowLoop(env: Env, search: string, procs: Procs, reach: nat, l: string, ops: seq<TIROp>, s: State, fuel: nat)
    requires fuel > 0 && ProcsStored(env, procs, reach) && l in procs && procs[l] == LoopBody(ops)
    requires ProcStored(env, search, l, procs[l], reach)
    requires EvalCall(procs, 0, l, s, fuel) == Result.Timeout
    ensures Hung(Invoke(env, l, s, fuel))
    decreases fuel, 0, 0
  {
    hide Eval, Run, Runs, LoweredAs, LoopHead, ProcStored, Whole;
    var rest := s.stack[1..];
    assert s.stack == [s.stack[0]] + rest;
    var inner, tail := Simulation.LoopStored(env, search, reach, l, ops);
    var s1 := WithStack(s, [s.stack[0] - 1] + rest);
    var r := Eval(procs, 0, ops, s1, fuel - 1);
    if r.Ok? {
      var q := SimOps(env, search, procs, 0, reach, ops, inner, s1, fuel - 1);
      LoopTurn(env, s, rest, inner, tail, q);
      SoFar(env, env[l], s, if q.Done? then Outcome.Recursed(r.s) else q, fuel - 1);
      SlowCall(env, procs, reach, l, r.s, fuel - 1);
    } else {
      SlowOps(env, search, procs, reach, ops, inner, s1, fuel - 1);
      SlowTurn(env, s, rest, inner, tail, fuel - 1);
      SlowBlock(env, l, s, fuel);
    }
  }

  // ----- programs -----

  /** The source program, called at its entry function, ends in state `t`. */
  ghost predicate Ends(procs: Procs, entry: string, s: State, t: State) {
    exists fuel: nat :: EndsBy(procs, entry, s, t, fuel)
  }

  /** At some point the source program makes a deep access while memory has less than `reach` consecutive zero cells. */
  ghost predicate CrowdsEver(procs: Procs, reach: nat, entry: string, s: State) {
    exists fuel: nat :: Crowds(procs, reach, LabelOf(entry), s, fuel)
  }

  /**
   * For a program that keeps within its stack and its labels, and for every memory: the lowered program halts in a state
   * only if the source program ends there, however long either takes; and if the source program ends there, the lowered
   * program does too, unless it gets stuck, which takes a memory that is too full at some deep access.
   */
  lemma ProgramHaltsExactly(entry: string, fns: seq<Function>, procs: Procs, reach: nat, s: State, t: State)
    requires AllBodies(fns, reach) && ProcsOf(fns, procs) && 4096 <= reach <= 0x1_0000_0000 && fns != []
    requires Distinct(Blocks(LowerModule(ModuleOps(Some(entry), fns))))
    requires forall fuel: nat :: Proceeds(Meaning(procs, LabelOf(entry), s, fuel))
    ensures ProgramComesTo(entry, fns, s, Outcome.Halted(t)) ==> Ends(procs, entry, s, t)
    ensures Ends(procs, entry, s, t) ==>
      ProgramComesTo(entry, fns, s, Outcome.Halted(t)) || (ProgramGetsStuck(entry, fns, s) && CrowdsEver(procs, reach, entry, s))
  {
    hide LowerModule, Blocks, EnvOf, EvalCall, FunctionBody, LabelOf, Until, Run, Invoke, ProcsStored, FunctionStored, ProgramGetsStuck;
    var lines := LowerModule(ModuleOps(Some(entry), fns));
    var env := EnvOf(Blocks(lines));
    assert [Instr.Call(LabelOf(entry))] + [Instr.Halt] == [Instr.Call(LabelOf(entry)), Instr.Halt];
    if Ends(procs, entry, s, t) {
      var fuel: nat :| EndsBy(procs, entry, s, t, fuel);
      HaltsOnlyIfSourceDoes(entry, fns, procs, reach, s, t, fuel);
    }
    if ProgramComesTo(entry, fns, s, Outcome.Halted(t)) {
      var f: nat :| Run(env, Until(lines), s, f) == Outcome.Halted(t);
      var r := Meaning(procs, LabelOf(entry), s, f);
      if r.Timeout? {
        var search := ModuleStored(Some(entry), fns, reach);
        ProcsAreStored(env, fns, procs, reach);
        SlowCall(env, procs, reach, LabelOf(entry), s, f);
        ModuleBlocks(Some(entry), fns, reach);
        SlowLine(env, LabelOf(entry), [Instr.Halt], s, f);
      } else {
        HaltsOnlyIfSourceDoes(entry, fns, procs, reach, s, t, f);
        assert EndsBy(procs, entry, s, t, f);
      }
    }
  }
}
