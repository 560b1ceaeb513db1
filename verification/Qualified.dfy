/** Modules with global names: what a module's source and code become once every label carries its module's prefix. */
module Qualified {
  import opened Words
  import opened Machine
  import opened Control
  import opened Legalize
  import opened Scanning
  import opened Tir
  import opened Permute
  import opened Sequence
  import opened Lowering
  import opened Operations
  import opened Simulation
  import opened ModuleLowering
  import opened Compilation

  /** The label that a call target of a module becomes in the linked program. */
  function GlobalLabel(prefix: string, name: string): string {
    if name != "" && name[0] == '@' then name[1..] else if Prefixed(name) then prefix + name[2..] else name
  }

  /** The same as a name that the source can use for it: it gets no further prefix. */
  function GlobalName(prefix: string, name: string): string {
    "__" + GlobalLabel(prefix, name)
  }

  lemma GlobalNameIsLabel(prefix: string, name: string)
    ensures LabelOf(GlobalName(prefix, name)) == GlobalName(prefix, name) == CalleeOf(GlobalName(prefix, name))
  {
    assert GlobalName(prefix, name)[..2] == "__";
  }

  // ----- source -----

  /** An operation with every name in it made global. */
  function Qualify(prefix: string, op: TIROp): TIROp
    decreases op
  {
    match op
    case Call(target) => TIROp.Call(GlobalName(prefix, CalleeOf(target)))
    case IfElse(t, e) => IfElse(QualifyAll(prefix, t), QualifyAll(prefix, e))
    case IfOnly(b) => IfOnly(QualifyAll(prefix, b))
    case Loop(name, b) => Loop(GlobalName(prefix, LabelOf(name)), QualifyAll(prefix, b))
    case _ => op
  }

  function QualifyAll(prefix: string, ops: seq<TIROp>): (r: seq<TIROp>)
    ensures |r| == |ops|
    decreases ops
  {
    if ops == [] then [] else [Qualify(prefix, ops[0])] + QualifyAll(prefix, ops[1..])
  }

  function QualifyFunction(prefix: string, fn: Function): Function {
    Function(GlobalName(prefix, LabelOf(fn.name)), QualifyAll(prefix, fn.body))
  }

  function QualifyBlock(prefix: string, d: Deferred): Deferred {
    d.(name := GlobalName(prefix, d.name), ops := QualifyAll(prefix, d.ops))
  }

  lemma {:induction false} QualifiedFrom(prefix: string, ops: seq<TIROp>, k: nat)
    requires k <= |ops|
    ensures QualifyAll(prefix, ops)[k..] == QualifyAll(prefix, ops[k..])
    ensures k < |ops| ==> QualifyAll(prefix, ops)[k] == Qualify(prefix, ops[k])
    decreases k
  {
    hide Qualify;
    if k > 0 {
      QualifiedFrom(prefix, ops[1..], k - 1);
      assert ops[1..][k - 1..] == ops[k..];
      assert QualifyAll(prefix, ops)[k..] == QualifyAll(prefix, ops[1..])[k - 1..];
    }
  }

  lemma {:induction false} StructuredQualified(prefix: string, op: TIROp, reach: nat)
    requires Structured(op, reach)
    ensures Structured(Qualify(prefix, op), reach)
    decreases op, 0
  {
    hide GlobalName, LabelOf, CalleeOf, QualifyAll, AllStructured, IsControl;
    match op
    case IfElse(t, e) =>
      AllStructuredQualified(prefix, t, reach);
      AllStructuredQualified(prefix, e, reach);
    case IfOnly(b) => AllStructuredQualified(prefix, b, reach);
    case Loop(_, b) => AllStructuredQualified(prefix, b, reach);
    case _ =>
  }

  lemma {:induction false} AllStructuredQualified(prefix: string, ops: seq<TIROp>, reach: nat)
    requires AllStructured(ops, reach)
    ensures AllStructured(QualifyAll(prefix, ops), reach)
    decreases ops
  {
    hide Structured, Qualify;
    forall k | 0 <= k < |ops|
      ensures Structured(QualifyAll(prefix, ops)[k], reach)
    {
      QualifiedFrom(prefix, ops, k);
      StructuredQualified(prefix, ops[k], reach);
    }
  }

  lemma BodyQualified(prefix: string, ops: seq<TIROp>, reach: nat)
    requires FunctionBody(ops, reach)
    ensures FunctionBody(QualifyAll(prefix, ops), reach)
  {
    hide Structured;
    forall k | 0 <= k < |ops|
      ensures QualifyAll(prefix, ops)[k] == TIROp.Return || Structured(QualifyAll(prefix, ops)[k], reach)
    {
      QualifiedFrom(prefix, ops, k);
      if ops[k] != TIROp.Return {
        StructuredQualified(prefix, ops[k], reach);
      }
    }
  }

  // ----- code -----

  function Retarget(prefix: string, i: Instr): Instr {
    if i.Call? then Instr.Call(GlobalName(prefix, i.target)) else i
  }

  /** The code with every call made to a global name. */
  function RetargetAll(prefix: string, code: seq<Instr>): (r: seq<Instr>)
    ensures |r| == |code|
  {
    seq(|code|, i requires 0 <= i < |code| => Retarget(prefix, code[i]))
  }

  predicate CallFree(code: seq<Instr>) {
    forall k :: 0 <= k < |code| ==> !code[k].Call?
  }

  lemma RetargetFree(prefix: string, code: seq<Instr>)
    requires CallFree(code)
    ensures RetargetAll(prefix, code) == code
  {}

  lemma RetargetCat(prefix: string, a: seq<Instr>, b: seq<Instr>)
    ensures RetargetAll(prefix, a + b) == RetargetAll(prefix, a) + RetargetAll(prefix, b)
  {
    hide Retarget;
  }

  lemma RetargetSlice(prefix: string, code: seq<Instr>, i: nat, j: nat)
    requires i <= j <= |code|
    ensures RetargetAll(prefix, code)[i..j] == RetargetAll(prefix, code[i..j])
  {
    hide Retarget;
  }

  lemma CallFreeCat(a: seq<Instr>, b: seq<Instr>)
    requires CallFree(a) && CallFree(b)
    ensures CallFree(a + b)
  {}

  lemma {:induction false} BatchCallFree(op: Opcode, n: nat)
    ensures CallFree(BatchCode(op, n))
  {
    if n > 0 {
      BatchCallFree(op, n - Least(n, 5));
    }
  }

  lemma {:induction false} RepeatCallFree(code: seq<Instr>, n: nat)
    requires CallFree(code)
    ensures CallFree(RepeatCode(code, n))
  {
    if n > 0 {
      RepeatCallFree(code, n - 1);
    }
  }

  lemma {:induction false} CheckCallFree(n: nat)
    ensures CallFree(CheckCode(n))
  {
    if n > 0 {
      RepeatCallFree([Instr.Swap(1), Instr.Push(0), Instr.Eq, Instr.Add], Least(n, 5));
      CheckCallFree(n - Least(n, 5));
    }
  }

  lemma {:induction false} RestoreCallFree(n: nat)
    ensures CallFree(RestoreCode(n))
  {
    if n > 0 {
      RepeatCallFree([Instr.Push(0)], Least(n, 5));
      RestoreCallFree(n - Least(n, 5));
    }
  }

  lemma {:induction false} LoadsCallFree(width: nat, order: seq<nat>)
    requires Below(order, width)
    ensures CallFree(LoadsCode(width, order))
    decreases |order|
  {
    if order != [] {
      LoadsCallFree(width, order[1..]);
    }
  }

  lemma {:induction false} ClearCallFree(n: nat)
    ensures CallFree(ClearCode(n))
  {
    if n > 0 {
      RepeatCallFree([Instr.Push(0)], Least(n, 5));
      ClearCallFree(n - Least(n, 5));
    }
  }

  lemma ReverseCallFree(n: nat)
    ensures CallFree(ReverseCode(n))
  {
    hide PermuteFrom;
    Permutes(Reversal(n), Identity(n));
  }

  /** Borrowing, with the search under its global name. */
  lemma BorrowQualified(prefix: string, cells: nat, search: string)
    ensures RetargetAll(prefix, BorrowCode(cells, search)) == BorrowCode(cells, GlobalName(prefix, search))
  {
    hide CheckCode, GlobalName;
    CheckCallFree(cells);
    var front, tail := BorrowHead(cells) + CheckCode(cells) + BorrowTest(cells), BorrowTail(cells);
    CallFreeCat(BorrowHead(cells), CheckCode(cells));
    CallFreeCat(BorrowHead(cells) + CheckCode(cells), BorrowTest(cells));
    assert CallFree(tail);
    hide BorrowHead, BorrowTest, BorrowTail;
    RetargetFree(prefix, front);
    RetargetFree(prefix, tail);
    RetargetCat(prefix, front, [Skiz, Instr.Call(search)]);
    RetargetCat(prefix, front + [Skiz, Instr.Call(search)], tail);
    assert RetargetAll(prefix, [Skiz, Instr.Call(search)]) == [Skiz, Instr.Call(GlobalName(prefix, search))];
  }

  lemma ShuffleQualified(prefix: string, width: nat, order: seq<nat>, search: string)
    requires Below(order, width)
    ensures RetargetAll(prefix, ShuffleCode(width, order, search)) == ShuffleCode(width, order, GlobalName(prefix, search))
  {
    hide BorrowCode, BatchCode, LoadsCode, ClearCode, GlobalName, CallFree;
    assert CallFree(Offset(0 - width)) && CallFree([Instr.Pop(1)]) by { ShortCallFree(0 - width); }
    BatchCallFree(WriteMemOp, width);
    LoadsCallFree(width, order);
    ClearCallFree(width);
    BorrowQualified(prefix, width, search);
    var a, b, c, d, e := BorrowCode(width, search), BatchCode(WriteMemOp, width), Offset(0 - width), LoadsCode(width, order), ClearCode(width);
    hide Offset, RetargetAll;
    RetargetFree(prefix, b);
    RetargetFree(prefix, c);
    RetargetFree(prefix, d);
    RetargetFree(prefix, e);
    RetargetFree(prefix, [Instr.Pop(1)]);
    RetargetCat(prefix, a, b);
    RetargetCat(prefix, a + b, c);
    RetargetCat(prefix, a + b + c, d);
    RetargetCat(prefix, a + b + c + d, e);
    RetargetCat(prefix, a + b + c + d + e, [Instr.Pop(1)]);
  }

  lemma ShortCallFree(n: int)
    ensures CallFree(Offset(n)) && CallFree([Instr.Pop(1)])
  {}

  lemma WorkCallFree(spilled: nat)
    ensures CallFree(DupCode(spilled)) && CallFree(SwapCode(spilled))
  {
    hide RestoreCode, CallFree;
    RestoreCallFree(spilled);
    RestoreCallFree(1);
    WorkPieces(spilled);
    CallFreeCat(DupSave(), RestoreCode(spilled));
    CallFreeCat(DupSave() + RestoreCode(spilled), Offset(spilled + 1));
    CallFreeCat(DupSave() + RestoreCode(spilled) + Offset(spilled + 1), RestoreCode(1));
    CallFreeCat(SwapExchange(spilled), SwapStore(spilled));
    CallFreeCat(SwapExchange(spilled) + SwapStore(spilled), RestoreCode(spilled));
  }

  lemma WorkPieces(n: nat)
    ensures CallFree(DupSave()) && CallFree(Offset(n + 1)) && CallFree(SwapExchange(n)) && CallFree(SwapStore(n))
  {}

  lemma AccessQualified(prefix: string, depth: nat, duplicate: bool, search: string)
    ensures RetargetAll(prefix, AccessCode(depth, duplicate, search)) == AccessCode(depth, duplicate, GlobalName(prefix, search))
  {
    if depth < 16 {
      RetargetFree(prefix, AccessCode(depth, duplicate, search));
    } else {
      hide BorrowCode, BatchCode, DupCode, SwapCode, GlobalName, CallFree, RetargetAll;
      var n := Spilled(depth, duplicate);
      var a, b, c := BorrowCode(CellsFor(depth, duplicate), search), BatchCode(WriteMemOp, n), if duplicate then DupCode(n) else SwapCode(n);
      BorrowQualified(prefix, CellsFor(depth, duplicate), search);
      BatchCallFree(WriteMemOp, n);
      WorkCallFree(n);
      ShortCallFree(0);
      RetargetFree(prefix, b);
      RetargetFree(prefix, c);
      RetargetFree(prefix, [Instr.Pop(1)]);
      RetargetCat(prefix, a, b);
      RetargetCat(prefix, a + b, c);
      RetargetCat(prefix, a + b + c, [Instr.Pop(1)]);
    }
  }

  lemma FlatCallFree(op: TIROp)
    requires !op.Call? && !op.Entry?
    ensures CallFree(FlatCode(op))
  {
    hide BatchCode, ReverseCode, RepeatCode, FixedCode;
    match op
    case Pop(n) => BatchCallFree(PopOp, n);
    case ReadIo(n) => BatchCallFree(ReadIoOp, n);
    case WriteIo(n) => BatchCallFree(WriteIoOp, n);
    case Hint(n) => BatchCallFree(DivineOp, n);
    case RamRead(w) => BatchCallFree(ReadMemOp, w); ReverseCallFree(w);
    case RamWrite(w) => BatchCallFree(WriteMemOp, w); ReverseCallFree(w + 1);
    case Reveal(_, n) => RepeatCallFree([Instr.WriteIo(1)], n); ReverseCallFree(n);
    case _ => FixedCallFree(op);
  }

  lemma FixedCallFree(op: TIROp)
    requires !op.Call? && !op.Entry?
    ensures CallFree(FixedCode(op))
  {}

  // ----- plans do not look at names -----

  lemma StackOpKept(prefix: string, op: TIROp)
    ensures IsStackOp(Qualify(prefix, op)) <==> IsStackOp(op)
    ensures IsStackOp(op) ==> Qualify(prefix, op) == op
  {}

  lemma {:induction false} MeasureQualified(prefix: string, ops: seq<TIROp>, m: Survey)
    ensures Measure(QualifyAll(prefix, ops), m) == Measure(ops, m)
    decreases |ops|
  {
    hide Qualify;
    if ops != [] {
      StackOpKept(prefix, ops[0]);
      assert QualifyAll(prefix, ops)[1..] == QualifyAll(prefix, ops[1..]);
      if IsStackOp(ops[0]) {
        MeasureQualified(prefix, ops[1..], Count(m, ops[0]));
      }
    }
  }

  lemma PlanQualified(prefix: string, ops: seq<TIROp>)
    ensures PlanOf(QualifyAll(prefix, ops)) == PlanOf(ops)
  {
    hide FollowAll, Candidate, ShuffleCode, Measure, QualifyAll, Qualify;
    MeasureQualified(prefix, ops, Start);
    var m := Measure(ops, Start);
    if m.Some? && m.value.deep {
      DeepRun(ops, Start);
      Measured(ops, Start);
      var k := m.value.consumed;
      forall i | 0 <= i < k
        ensures QualifyAll(prefix, ops)[i] == ops[i]
      {
        QualifiedFrom(prefix, ops, i);
        assert IsStackOp(ops[..k][i]);
        StackOpKept(prefix, ops[i]);
      }
      assert QualifyAll(prefix, ops)[..k] == ops[..k];
    }
  }

  // ----- code that stands for operations still does -----

  /** The second environment has the blocks of the first under their global names. */
  ghost predicate Embeds(env: Env, whole: Env, prefix: string) {
    forall l :: l in env ==> Prefixed(l) && GlobalName(prefix, l) in whole && whole[GlobalName(prefix, l)] == RetargetAll(prefix, env[l])
  }

  lemma GlobalOfLocal(prefix: string, body: string)
    ensures GlobalName(prefix, "__" + body) == "__" + (prefix + body)
  {
    var name := "__" + body;
    assert name[0] == '_' && name[..2] == "__" && name[2..] == body;
  }

  lemma ScanGlobal(prefix: string, search: string)
    requires Prefixed(search)
    ensures GlobalName(prefix, ScanLabel(search)) == ScanLabel(GlobalName(prefix, search))
  {
    hide GlobalName;
    var body := search[2..];
    assert search == "__" + body by { assert search == search[..2] + search[2..]; }
    GlobalOfLocal(prefix, body);
    GlobalOfLocal(prefix, body + "__scan");
    Assoc("__", body, "__scan");
    Assoc(prefix, body, "__scan");
    Assoc("__", prefix + body, "__scan");
  }

  lemma SearchQualified(env: Env, whole: Env, prefix: string, search: string)
    requires Embeds(env, whole, prefix) && HasSearch(env, search)
    ensures HasSearch(whole, GlobalName(prefix, search))
  {
    hide GlobalName, ScanLabel;
    ScanGlobal(prefix, search);
    RetargetFree(prefix, ScanCode());
    assert RetargetAll(prefix, SearchCode(search)) == SearchCode(GlobalName(prefix, search));
  }

  lemma CoreQualified(prefix: string, code: seq<Instr>)
    ensures Core(RetargetAll(prefix, code)) == RetargetAll(prefix, Core(code))
  {
    hide GlobalName;
  }

  lemma EndsCallFree(d: Deferred)
    ensures CallFree(BlockHead(d)) && CallFree(BlockEnd(d))
  {}

  lemma {:induction false} BlockQualified(env: Env, whole: Env, prefix: string, search: string, d: Deferred, reach: nat)
    requires Embeds(env, whole, prefix) && Stored(env, search, d) && AllStructured(d.ops, reach)
    ensures Stored(whole, GlobalName(prefix, search), QualifyBlock(prefix, d))
    decreases d.ops, 2
  {
    hide LoweredAs, BlockHead, BlockEnd, GlobalName, QualifyAll, AllStructured, Retarget;
    var core := Core(env[d.name]);
    var h, e := |BlockHead(d)|, |BlockEnd(d)|;
    var inner := core[h..|core| - e];
    StructuredIsBody(d.ops, reach);
    CodeQualified(env, whole, prefix, search, d.ops, inner, reach);
    CoreQualified(prefix, env[d.name]);
    EndsCallFree(d);
    SameEnds(d, QualifyBlock(prefix, d));
    RetargetFree(prefix, BlockHead(d));
    RetargetFree(prefix, BlockEnd(d));
    RetargetCat(prefix, BlockHead(d), inner);
    RetargetCat(prefix, BlockHead(d) + inner, BlockEnd(d));
    RetargetSlice(prefix, core, h, |core| - e);
  }

  lemma SameEnds(d: Deferred, e: Deferred)
    requires d.isLoop == e.isLoop && d.clearsFlag == e.clearsFlag
    ensures BlockHead(d) == BlockHead(e) && BlockEnd(d) == BlockEnd(e)
  {}

  lemma AccessOpQualified(env: Env, whole: Env, prefix: string, search: string, op: TIROp, code: seq<Instr>)
    requires Embeds(env, whole, prefix) && OpAs(env, search, op, code) && (op.Dup? || op.Swap?)
    ensures OpAs(whole, GlobalName(prefix, search), Qualify(prefix, op), RetargetAll(prefix, code))
  {
    hide Embeds, HasSearch, AccessCode, GlobalName, RetargetAll;
    AccessQualified(prefix, op.d, op.Dup?, search);
    if op.d >= 16 {
      SearchQualified(env, whole, prefix, search);
    }
  }

  lemma CallQualified(env: Env, whole: Env, prefix: string, search: string, op: TIROp, code: seq<Instr>)
    requires OpAs(env, search, op, code) && op.Call?
    ensures OpAs(whole, GlobalName(prefix, search), Qualify(prefix, op), RetargetAll(prefix, code))
  {
    hide FlatCode, GlobalName, CalleeOf;
    GlobalNameIsLabel(prefix, CalleeOf(op.target));
    CallLine(op);
    CallLine(Qualify(prefix, op));
  }

  lemma FlatQualified(env: Env, whole: Env, prefix: string, search: string, op: TIROp, code: seq<Instr>)
    requires OpAs(env, search, op, code)
    requires !op.Dup? && !op.Swap? && !op.IfElse? && !op.IfOnly? && !op.Loop? && !op.Call? && !op.Entry?
    ensures OpAs(whole, GlobalName(prefix, search), Qualify(prefix, op), RetargetAll(prefix, code))
  {
    hide FlatCode, GlobalName, RetargetAll;
    FlatCallFree(op);
    RetargetFree(prefix, code);
  }

  lemma {:induction false} OpQualified(env: Env, whole: Env, prefix: string, search: string, op: TIROp, code: seq<Instr>, reach: nat)
    requires Embeds(env, whole, prefix) && OpAs(env, search, op, code) && (op == TIROp.Return || Structured(op, reach))
    ensures OpAs(whole, GlobalName(prefix, search), Qualify(prefix, op), RetargetAll(prefix, code))
    decreases op, 3
  {
    hide *;
    if op == TIROp.Return {
      FlatQualified(env, whole, prefix, search, op, code);
    } else if op.IfElse? {
      BothQualified(env, whole, prefix, search, op, code, reach);
    } else if op.IfOnly? {
      OnlyQualified(env, whole, prefix, search, op, code, reach);
    } else if op.Loop? {
      LoopQualified(env, whole, prefix, search, op, code, reach);
    } else {
      NotEntry(op, reach);
      if op.Dup? || op.Swap? {
        AccessOpQualified(env, whole, prefix, search, op, code);
      } else if op.Call? {
        CallQualified(env, whole, prefix, search, op, code);
      } else {
        FlatQualified(env, whole, prefix, search, op, code);
      }
    }
  }

  lemma {:induction false} BothQualified(env: Env, whole: Env, prefix: string, search: string, op: TIROp, code: seq<Instr>, reach: nat)
    requires Embeds(env, whole, prefix) && OpAs(env, search, op, code) && Structured(op, reach) && op.IfElse?
    ensures OpAs(whole, GlobalName(prefix, search), Qualify(prefix, op), RetargetAll(prefix, code))
    decreases op, 2
  {
    hide Embeds, Stored, HasSearch, GlobalName, QualifyAll, AllStructured, LabelOf, RetargetAll, IfElseCode, IfOnlyCode, FlatCode, AccessCode;
    var a, b := code[3].target, code[5].target;
    BlockQualified(env, whole, prefix, search, Deferred(a, op.thenBody, true, false), reach);
    BlockQualified(env, whole, prefix, search, Deferred(b, op.elseBody, false, false), reach);
    IfElseQualified(prefix, a, b);
  }

  lemma {:induction false} OnlyQualified(env: Env, whole: Env, prefix: string, search: string, op: TIROp, code: seq<Instr>, reach: nat)
    requires Embeds(env, whole, prefix) && OpAs(env, search, op, code) && Structured(op, reach) && op.IfOnly?
    ensures OpAs(whole, GlobalName(prefix, search), Qualify(prefix, op), RetargetAll(prefix, code))
    decreases op, 2
  {
    hide Embeds, Stored, HasSearch, GlobalName, QualifyAll, AllStructured, LabelOf, RetargetAll, IfElseCode, IfOnlyCode, FlatCode, AccessCode;
    BlockQualified(env, whole, prefix, search, Deferred(code[1].target, op.onlyBody, false, false), reach);
    IfOnlyQualified(prefix, code[1].target);
  }

  lemma {:induction false} LoopQualified(env: Env, whole: Env, prefix: string, search: string, op: TIROp, code: seq<Instr>, reach: nat)
    requires Embeds(env, whole, prefix) && OpAs(env, search, op, code) && Structured(op, reach) && op.Loop?
    ensures OpAs(whole, GlobalName(prefix, search), Qualify(prefix, op), RetargetAll(prefix, code))
    decreases op, 2
  {
    hide Embeds, Stored, HasSearch, GlobalName, QualifyAll, AllStructured, LabelOf, RetargetAll, IfElseCode, IfOnlyCode, FlatCode, AccessCode;
    GlobalNameIsLabel(prefix, LabelOf(op.name));
    BlockQualified(env, whole, prefix, search, Deferred(LabelOf(op.name), op.body, false, true), reach);
    RetargetFree(prefix, code);
  }

  lemma IfElseQualified(prefix: string, a: string, b: string)
    ensures var code := RetargetAll(prefix, IfElseCode(a, b));
      code == IfElseCode(GlobalName(prefix, a), GlobalName(prefix, b))
      && |code| == 6 && code[3] == Instr.Call(GlobalName(prefix, a)) && code[5] == Instr.Call(GlobalName(prefix, b))
  {
    hide GlobalName;
  }

  lemma IfOnlyQualified(prefix: string, a: string)
    ensures var code := RetargetAll(prefix, IfOnlyCode(a));
      code == IfOnlyCode(GlobalName(prefix, a)) && |code| == 2 && code[1] == Instr.Call(GlobalName(prefix, a))
  {
    hide GlobalName;
  }

  lemma LengthQualified(prefix: string, op: TIROp, search: string)
    requires !op.Entry?
    ensures OpLength(Qualify(prefix, op), GlobalName(prefix, search)) == OpLength(op, search)
  {
    hide AccessCode, FlatCode, GlobalName, QualifyAll, LabelOf, CalleeOf;
    match op
    case Dup(d) => AccessQualified(prefix, d, true, search);
    case Swap(d) => AccessQualified(prefix, d, false, search);
    case Call(target) =>
      CallLine(op);
      CallLine(Qualify(prefix, op));
    case _ =>
  }

  /** What stands for operations, taken apart at its first shuffle or operation. */
  lemma LoweredStarts(env: Env, search: string, ops: seq<TIROp>, code: seq<Instr>) returns (n: nat)
    requires ops != [] && LoweredAs(env, search, ops, code)
    ensures n <= |code|
    ensures PlanOf(ops).Some? ==>
      && HasSearch(env, search)
      && code[..n] == ShuffleCode(PlanOf(ops).value.width, PlanOf(ops).value.order, search)
      && LoweredAs(env, search, ops[PlanOf(ops).value.consumed..], code[n..])
    ensures PlanOf(ops).None? ==>
      && n == OpLength(ops[0], search) && OpAs(env, search, ops[0], code[..n]) && LoweredAs(env, search, ops[1..], code[n..])
  {
    hide PlanOf, ShuffleCode, OpAs, HasSearch, OpLength;
    n := if PlanOf(ops).Some? then |ShuffleCode(PlanOf(ops).value.width, PlanOf(ops).value.order, search)| else OpLength(ops[0], search);
  }

  lemma NothingLowered(env: Env, search: string, code: seq<Instr>)
    ensures LoweredAs(env, search, [], code) <==> code == []
  {}

  lemma {:induction false} CodeQualified(env: Env, whole: Env, prefix: string, search: string, ops: seq<TIROp>, code: seq<Instr>, reach: nat)
    requires Embeds(env, whole, prefix) && LoweredAs(env, search, ops, code) && FunctionBody(ops, reach)
    ensures LoweredAs(whole, GlobalName(prefix, search), QualifyAll(prefix, ops), RetargetAll(prefix, code))
    decreases ops, 1
  {
    hide *;
    if ops == [] {
      NothingLowered(env, search, code);
      NothingLowered(whole, GlobalName(prefix, search), []);
    } else {
      var n := LoweredStarts(env, search, ops, code);
      var front, rest := code[..n], code[n..];
      var all := QualifyAll(prefix, ops);
      PlanQualified(prefix, ops);
      RetargetCat(prefix, front, rest);
      assert code == front + rest;
      if PlanOf(ops).Some? {
        var plan := PlanOf(ops).value;
        SearchQualified(env, whole, prefix, search);
        BodyTail(ops, plan.consumed, reach);
        CodeQualified(env, whole, prefix, search, ops[plan.consumed..], rest, reach);
        QualifiedFrom(prefix, ops, plan.consumed);
        ShuffleQualified(prefix, plan.width, plan.order, search);
        PlanThenLowered(whole, GlobalName(prefix, search), all, RetargetAll(prefix, rest));
      } else {
        FirstInBody(ops, reach);
        OpQualified(env, whole, prefix, search, ops[0], front, reach);
        NotEntry(ops[0], reach);
        LengthQualified(prefix, ops[0], search);
        BodyTail(ops, 1, reach);
        CodeQualified(env, whole, prefix, search, ops[1..], rest, reach);
        QualifiedFrom(prefix, ops, 0);
        QualifiedFrom(prefix, ops, 1);
        OpThenLowered(whole, GlobalName(prefix, search), all, RetargetAll(prefix, front), RetargetAll(prefix, rest));
      }
    }
  }

  lemma FirstInBody(ops: seq<TIROp>, reach: nat)
    requires ops != [] && FunctionBody(ops, reach)
    ensures ops[0] == TIROp.Return || Structured(ops[0], reach)
  {}

  lemma NotEntry(op: TIROp, reach: nat)
    requires op == TIROp.Return || Structured(op, reach)
    ensures !op.Entry?
  {}

  /** A function's block, under its global name, stands for the function with global names. */
  lemma FunctionQualified(env: Env, whole: Env, prefix: string, search: string, fn: Function, reach: nat)
    requires Embeds(env, whole, prefix) && FunctionStored(env, search, fn) && FunctionBody(fn.body, reach)
    ensures FunctionStored(whole, GlobalName(prefix, search), QualifyFunction(prefix, fn))
  {
    hide LoweredAs, GlobalName, QualifyAll, FunctionBody, LabelOf, Retarget;
    var l := LabelOf(fn.name);
    var code :| code <= env[l] && LoweredAs(env, search, fn.body, code);
    CodeQualified(env, whole, prefix, search, fn.body, code, reach);
    GlobalNameIsLabel(prefix, l);
    assert RetargetAll(prefix, code) <= whole[GlobalName(prefix, l)];
  }
}
