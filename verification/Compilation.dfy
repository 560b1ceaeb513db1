/** The lowering of a module preserves its meaning. */
module Compilation {
  import opened Words
  import opened Machine
  import opened Control
  import opened Legalize
  import opened Scanning
  import opened DeepAccess
  import opened Tir
  import opened Sequence
  import opened Lowering
  import opened Crowding
  import opened Simulation
  import opened Listing
  import opened ModuleLowering

  datatype Function = Function(name: string, body: seq<TIROp>)

  /** A function opens with its label and closes by flushing its deferred blocks. */
  function FunctionOps(f: Function): seq<TIROp> {
    [TIROp.FnStart(f.name)] + f.body + [TIROp.FnEnd]
  }

  function FunctionsOps(fns: seq<Function>): seq<TIROp> {
    if fns == [] then [] else FunctionOps(fns[0]) + FunctionsOps(fns[1..])
  }

  function ModuleOps(entry: Option<string>, fns: seq<Function>): seq<TIROp> {
    (if entry.Some? then [TIROp.Entry(entry.value)] else []) + FunctionsOps(fns)
  }

  predicate AllBodies(fns: seq<Function>, reach: nat) {
    forall k :: 0 <= k < |fns| ==> FunctionBody(fns[k].body, reach)
  }

  // ----- one function -----

  lemma BoundaryOp(op: TIROp, rest: seq<TIROp>, f: Fields)
    requires op.FnStart? || op.FnEnd? || op.Entry?
    ensures var first := LowerOp(op, f);
      var after := LowerOps(rest, first.1);
      LowerOps([op] + rest, f) == (first.0 + after.0, after.1)
  {
    hide LowerOp;
    assert ([op] + rest)[1..] == rest;
    LowerByOp([op] + rest, f);
  }

  lemma StartLine(name: string, f: Fields)
    ensures LowerOp(TIROp.FnStart(name), f) == ([Label(LabelOf(name))], f)
  {}

  lemma EndLines(f: Fields)
    ensures LowerOp(TIROp.FnEnd, f) == Flush(f)
  {}

  lemma FunctionLines(fn: Function, rest: seq<TIROp>, f: Fields, reach: nat)
    requires FunctionBody(fn.body, reach)
    ensures var body := LowerOps(fn.body, f);
      var flush := Flush(body.1);
      var after := LowerOps(rest, flush.1);
      LowerOps(FunctionOps(fn) + rest, f) == ([Label(LabelOf(fn.name))] + (body.0 + (flush.0 + after.0)), after.1)
  {
    hide LowerOps, LowerOp, Size, Pending, OpSize, Flush, LabelOf, FunctionBody;
    BodyIsInside(fn.body, reach);
    StartLine(fn.name, f);
    EndLines(LowerOps(fn.body, f).1);
    BodyThenRest(fn.body, [TIROp.FnEnd] + rest, f);
    BoundaryOp(TIROp.FnStart(fn.name), fn.body + ([TIROp.FnEnd] + rest), f);
    BoundaryOp(TIROp.FnEnd, rest, LowerOps(fn.body, f).1);
    Assoc([TIROp.FnStart(fn.name)], fn.body, [TIROp.FnEnd]);
    Assoc([TIROp.FnStart(fn.name)], fn.body + [TIROp.FnEnd], rest);
    Assoc(fn.body, [TIROp.FnEnd], rest);
  }

  ghost predicate FunctionStored(env: Env, search: string, fn: Function) {
    LabelOf(fn.name) in env && exists code :: code <= env[LabelOf(fn.name)] && LoweredAs(env, search, fn.body, code)
  }

  /** The blocks of a function: its own, then those of its flush. */
  lemma FunctionBlocks(fn: Function, f: Fields, more: seq<Instr>, reach: nat)
    requires FunctionBody(fn.body, reach) && f.deferred == [] && StartsBlock(more)
    ensures var body := LowerOps(fn.body, f);
      var flush := Flush(body.1);
      Blocks([Label(LabelOf(fn.name))] + (body.0 + (flush.0 + more)))
      == [Block(LabelOf(fn.name), body.0)] + (Blocks(flush.0) + Blocks(more))
  {
    hide LowerOps, Size, Pending, OpSize, Flush, LabelOf, FunctionBody, Blocks;
    var body := LowerOps(fn.body, f);
    var flush := Flush(body.1);
    BodyDefers(fn.body, f, reach);
    NativeIsLabelFree(body.0);
    FlushShape(body.1, reach);
    BlocksCat(flush.0, more);
    Assoc([Label(LabelOf(fn.name))], body.0, flush.0 + more);
    StartsEither(flush.0, more);
    BlocksCat([Label(LabelOf(fn.name))] + body.0, flush.0 + more);
    BlocksOne(LabelOf(fn.name), body.0);
  }

  lemma StartsEither(a: seq<Instr>, b: seq<Instr>)
    requires StartsBlock(a) && StartsBlock(b)
    ensures StartsBlock(a + b)
  {}

  lemma {:induction false} FunctionsShape(fns: seq<Function>, f: Fields, reach: nat)
    requires AllBodies(fns, reach) && f.deferred == []
    ensures var r := LowerOps(FunctionsOps(fns), f);
      StartsBlock(r.0) && r.1.deferred == [] && (f.scratch.Some? ==> r.1.scratch == f.scratch)
    decreases |fns|
  {
    if fns == [] {
      EmptyLowering(f);
    } else {
      hide LowerOps, Size, Pending, OpSize, Flush, LabelOf, FunctionBody;
      var body := LowerOps(fns[0].body, f);
      var flush := Flush(body.1);
      BodyIsInside(fns[0].body, reach);
      BodyGrows(fns[0].body, f);
      BodyDefers(fns[0].body, f, reach);
      FlushShape(body.1, reach);
      FunctionLines(fns[0], FunctionsOps(fns[1..]), f, reach);
      FunctionsShape(fns[1..], flush.1, reach);
    }
  }

  /** With the blocks of a module in place, each function has the block that stands for it. */
  lemma {:induction false} FunctionsStored(env: Env, search: string, fns: seq<Function>, f: Fields, reach: nat)
    requires AllBodies(fns, reach) && f.deferred == []
    requires AllInPlace(env, Blocks(LowerOps(FunctionsOps(fns), f).0))
    requires ScratchInPlace(env, search, LowerOps(FunctionsOps(fns), f).1)
    ensures forall k :: 0 <= k < |fns| ==> FunctionStored(env, search, fns[k])
    decreases |fns|
  {
    hide LowerOps, Size, Pending, OpSize, Flush, LabelOf, FunctionBody, Blocks, InPlace, HasSearch, FunctionStored, LoweredAs, Stored;
    if fns != [] {
      var fn := fns[0];
      var body := LowerOps(fn.body, f);
      var flush := Flush(body.1);
      var after := LowerOps(FunctionsOps(fns[1..]), flush.1);
      BodyIsInside(fn.body, reach);
      BodyGrows(fn.body, f);
      BodyDefers(fn.body, f, reach);
      FlushShape(body.1, reach);
      FunctionsShape(fns[1..], flush.1, reach);
      FunctionLines(fn, FunctionsOps(fns[1..]), f, reach);
      FunctionBlocks(fn, f, after.0, reach);
      var own := Block(LabelOf(fn.name), body.0);
      InPlaceCat(env, [own], Blocks(flush.0) + Blocks(after.0));
      InPlaceCat(env, Blocks(flush.0), Blocks(after.0));
      FunctionsStored(env, search, fns[1..], flush.1, reach);
      FlushStores(env, search, reach, body.1);
      assert body.1.deferred[|f.deferred|..] == body.1.deferred;
      BodyIsLowered(env, search, fn.body, f);
      assert InPlace(env, [own][0]);
      FunctionFrom(env, search, fn, body.0);
      forall k | 1 <= k < |fns| ensures FunctionStored(env, search, fns[k]) {
        assert FunctionStored(env, search, fns[1..][k - 1]);
      }
    }
  }

  lemma FunctionFrom(env: Env, search: string, fn: Function, body: seq<Instr>)
    requires InPlace(env, Block(LabelOf(fn.name), body)) && LoweredAs(env, search, fn.body, body)
    ensures FunctionStored(env, search, fn)
  {
    hide LoweredAs, LabelOf;
  }

  // ----- loops -----

  /** The loop `body`, called by label `l`, is defined somewhere inside. */
  ghost predicate LoopInside(ops: seq<TIROp>, l: string, body: seq<TIROp>)
    decreases ops, 0
  {
    exists k :: 0 <= k < |ops| && LoopInOp(ops[k], l, body)
  }

  ghost predicate LoopInOp(op: TIROp, l: string, body: seq<TIROp>)
    decreases op, 1
  {
    match op
    case Loop(name, b) => (LabelOf(name) == l && b == body) || LoopInside(b, l, body)
    case IfElse(t, e) => LoopInside(t, l, body) || LoopInside(e, l, body)
    case IfOnly(b) => LoopInside(b, l, body)
    case _ => false
  }

  lemma LoopInTail(ops: seq<TIROp>, k: nat, l: string, body: seq<TIROp>)
    requires LoopInside(ops, l, body) && k <= |ops|
    requires forall i :: 0 <= i < k ==> !LoopInOp(ops[i], l, body)
    ensures LoopInside(ops[k..], l, body)
  {
    hide LoopInOp;
    var i :| 0 <= i < |ops| && LoopInOp(ops[i], l, body);
    assert ops[k..][i - k] == ops[i];
  }

  /** Every loop inside code that stands for its operations has its block. */
  lemma {:induction false} LoopStored(env: Env, search: string, ops: seq<TIROp>, code: seq<Instr>, l: string, body: seq<TIROp>, reach: nat)
    requires LoweredAs(env, search, ops, code) && LoopInside(ops, l, body) && FunctionBody(ops, reach)
    ensures Stored(env, search, Deferred(l, body, false, true)) && AllStructured(body, reach)
    decreases ops, 0
  {
    hide PlanOf, ShuffleCode, OpAs, Stored, OpLength, LoopInOp, Structured;
    var plan := PlanOf(ops);
    if plan.Some? {
      var k := plan.value.consumed;
      PlannedAreStackOps(ops);
      forall i | 0 <= i < k ensures !LoopInOp(ops[i], l, body) { StackOpHasNoLoop(ops[i], l, body); }
      LoopInTail(ops, k, l, body);
      BodyTail(ops, k, reach);
      LoopStored(env, search, ops[k..], code[|ShuffleCode(plan.value.width, plan.value.order, search)|..], l, body, reach);
    } else if LoopInOp(ops[0], l, body) {
      OpLoopStored(env, search, ops[0], code[..OpLength(ops[0], search)], l, body, reach);
    } else {
      LoopInTail(ops, 1, l, body);
      BodyTail(ops, 1, reach);
      LoopStored(env, search, ops[1..], code[OpLength(ops[0], search)..], l, body, reach);
    }
  }

  lemma PlannedAreStackOps(ops: seq<TIROp>)
    requires PlanOf(ops).Some?
    ensures PlanOf(ops).value.consumed <= |ops|
    ensures forall i :: 0 <= i < PlanOf(ops).value.consumed ==> IsStackOp(ops[i])
  {
    hide FollowAll, ShuffleCode, Measure;
    DeepRun(ops, Start);
    var k := PlanOf(ops).value.consumed;
    forall i | 0 <= i < k ensures IsStackOp(ops[i]) { assert ops[..k][i] == ops[i]; }
  }

  lemma StackOpHasNoLoop(op: TIROp, l: string, body: seq<TIROp>)
    requires IsStackOp(op)
    ensures !LoopInOp(op, l, body)
  {}

  lemma {:induction false} OpLoopStored(env: Env, search: string, op: TIROp, code: seq<Instr>, l: string, body: seq<TIROp>, reach: nat)
    requires OpAs(env, search, op, code) && LoopInOp(op, l, body) && (op == TIROp.Return || Structured(op, reach))
    ensures Stored(env, search, Deferred(l, body, false, true)) && AllStructured(body, reach)
    decreases op, 1
  {
    hide Stored, LoopInside, LabelOf, AllStructured, IfElseCode, IfOnlyCode;
    match op
    case IfElse(t, e) =>
      if LoopInside(t, l, body) {
        BlockLoopStored(env, search, Deferred(code[3].target, t, true, false), l, body, reach);
      } else {
        BlockLoopStored(env, search, Deferred(code[5].target, e, false, false), l, body, reach);
      }
    case IfOnly(b) => BlockLoopStored(env, search, Deferred(code[1].target, b, false, false), l, body, reach);
    case Loop(name, b) =>
      if LabelOf(name) != l || b != body {
        BlockLoopStored(env, search, Deferred(LabelOf(name), b, false, true), l, body, reach);
      }
  }

  lemma {:induction false} BlockLoopStored(env: Env, search: string, d: Deferred, l: string, body: seq<TIROp>, reach: nat)
    requires Stored(env, search, d) && LoopInside(d.ops, l, body) && AllStructured(d.ops, reach)
    ensures Stored(env, search, Deferred(l, body, false, true)) && AllStructured(body, reach)
    decreases d.ops, 1
  {
    hide LoweredAs, LoopInside, BlockHead, BlockEnd;
    var core := Core(env[d.name]);
    StructuredIsBody(d.ops, reach);
    LoopStored(env, search, d.ops, core[|BlockHead(d)|..|core| - |BlockEnd(d)|], l, body, reach);
  }

  // ----- the module -----

  /** The procedures of a module: its functions, and the loops inside them. */
  ghost predicate ProcsOf(fns: seq<Function>, procs: Procs) {
    forall l :: l in procs ==> exists k :: 0 <= k < |fns| && ProcIn(fns[k], l, procs[l])
  }

  ghost predicate ProcIn(fn: Function, l: string, proc: Proc) {
    match proc
    case FnBody(ops) => LabelOf(fn.name) == l && fn.body == ops
    case LoopBody(ops) => LoopInside(fn.body, l, ops)
  }

  /** Some search makes the function's block stand for it. */
  ghost predicate FunctionHeld(env: Env, fn: Function) {
    exists search :: FunctionStored(env, search, fn)
  }

  lemma ProcsAreStored(env: Env, fns: seq<Function>, procs: Procs, reach: nat)
    requires AllBodies(fns, reach) && ProcsOf(fns, procs) && 4096 <= reach <= 0x1_0000_0000
    requires forall k :: 0 <= k < |fns| ==> FunctionHeld(env, fns[k])
    ensures ProcsStored(env, procs, reach)
  {
    hide LoweredAs, Stored, LoopInside, FunctionBody, LabelOf;
    forall l | l in procs
      ensures ProcHeld(env, l, procs[l], reach)
    {
      var k :| 0 <= k < |fns| && ProcIn(fns[k], l, procs[l]);
      assert FunctionHeld(env, fns[k]) && FunctionBody(fns[k].body, reach);
      var search :| FunctionStored(env, search, fns[k]);
      if procs[l].LoopBody? {
        var code :| code <= env[LabelOf(fns[k].name)] && LoweredAs(env, search, fns[k].body, code);
        LoopStored(env, search, fns[k].body, code, l, procs[l].ops, reach);
      }
      assert ProcStored(env, search, l, procs[l], reach);
    }
  }

  /** The blocks of the scratch search that a lowered module may carry at its end. */
  function SearchBlocks(name: string): seq<Block> {
    [Block(name, SearchCode(name)), Block(ScanLabel(name), ScanCode())]
  }

  lemma SearchLinesBlocks(name: string)
    ensures var lines := [Label(name)] + SearchCode(name) + [Label(ScanLabel(name))] + ScanCode();
      StartsBlock(lines) && Blocks(lines) == SearchBlocks(name)
  {
    hide Blocks, ScanCode, ScanLabel;
    var first, second := [Label(name)] + SearchCode(name), [Label(ScanLabel(name))] + ScanCode();
    Assoc(first, [Label(ScanLabel(name))], ScanCode());
    BlocksCat(first, second);
    BlocksOne(name, SearchCode(name));
    ScanIsLabelFree();
    BlocksOne(ScanLabel(name), ScanCode());
  }

  lemma ScanIsLabelFree()
    ensures NoLabels(ScanCode())
  {}

  /** The lines before the functions, and those after them. */
  function Prelude(entry: Option<string>): seq<Instr> {
    if entry.Some? then [Instr.Call(LabelOf(entry.value)), Instr.Halt] else []
  }

  function Closing(scratch: Option<string>): seq<Instr> {
    match scratch
    case None => []
    case Some(name) => [Instr.Halt] + ([Label(name)] + SearchCode(name) + [Label(ScanLabel(name))] + ScanCode())
  }

  lemma ModuleEnds(ops: seq<TIROp>)
    ensures var r := LowerOps(ops, NoFields()); LowerModule(ops) == r.0 + Closing(r.1.scratch)
  {
    hide LowerOps, SearchCode, ScanCode, ScanLabel;
  }

  lemma ModuleParts(entry: Option<string>, fns: seq<Function>)
    ensures var r := LowerOps(FunctionsOps(fns), NoFields());
      LowerModule(ModuleOps(entry, fns)) == Prelude(entry) + r.0 + Closing(r.1.scratch)
  {
    hide LowerOps, LabelOf, LowerModule, Closing, FunctionsOps;
    var r := LowerOps(FunctionsOps(fns), NoFields());
    ModuleEnds(ModuleOps(entry, fns));
    if entry.Some? {
      BoundaryOp(TIROp.Entry(entry.value), FunctionsOps(fns), NoFields());
    } else {
      assert [] + FunctionsOps(fns) == FunctionsOps(fns);
      assert [] + r.0 == r.0;
    }
  }

  lemma BlocksOfParts(front: seq<Instr>, own: seq<Instr>, scratch: Option<string>)
    requires NoLabels(front) && StartsBlock(own)
    ensures Blocks(front + own + Closing(scratch))
         == if scratch.None? then Blocks(own) else AddLine(Blocks(own), Instr.Halt) + SearchBlocks(scratch.value)
  {
    hide Blocks, SearchCode, ScanCode, ScanLabel;
    BlocksPlain(front);
    BlocksCat(front, own);
    assert [] + Blocks(own) == Blocks(own);
    if scratch.Some? {
      var name := scratch.value;
      var search := [Label(name)] + SearchCode(name) + [Label(ScanLabel(name))] + ScanCode();
      Assoc(front + own, [Instr.Halt], search);
      SearchLinesBlocks(name);
      BlocksSnoc(front + own, Instr.Halt);
      BlocksCat(front + own + [Instr.Halt], search);
    } else {
      assert front + own + [] == front + own;
    }
  }

  /** The code before the first label, and the blocks, of a lowered module. */
  lemma ModuleBlocks(entry: Option<string>, fns: seq<Function>, reach: nat)
    requires AllBodies(fns, reach)
    ensures var lines := LowerModule(ModuleOps(entry, fns));
      var r := LowerOps(FunctionsOps(fns), NoFields());
      var own := Blocks(r.0);
      && Blocks(lines) == (if r.1.scratch.None? then own else AddLine(own, Instr.Halt) + SearchBlocks(r.1.scratch.value))
      && (fns != [] ==> Until(lines) == Prelude(entry))
  {
    hide LowerOps, LowerModule, Blocks, LabelOf, SearchCode, ScanCode, ScanLabel, FunctionBody, Closing, AddLine;
    var r := LowerOps(FunctionsOps(fns), NoFields());
    FunctionsShape(fns, NoFields(), reach);
    ModuleParts(entry, fns);
    BlocksOfParts(Prelude(entry), r.0, r.1.scratch);
    if fns != [] {
      Assoc(Prelude(entry), r.0, Closing(r.1.scratch));
      FunctionLines(fns[0], FunctionsOps(fns[1..]), NoFields(), reach);
      LabelFirst(r.0, Closing(r.1.scratch));
      UntilCat(Prelude(entry), r.0 + Closing(r.1.scratch));
    }
  }

  lemma LabelFirst(a: seq<Instr>, b: seq<Instr>)
    requires a != [] && a[0].Label?
    ensures Until(a + b) == []
  {}

  lemma {:induction false} AddedInPlace(env: Env, blocks: seq<Block>)
    requires forall k :: 0 <= k < |blocks| ==> InPlaceExactly(env, AddLine(blocks, Instr.Halt), k)
    ensures AllInPlace(env, blocks)
    decreases |blocks|
  {
    AddLineLength(blocks, Instr.Halt);
    if |blocks| == 1 {
      assert InPlaceExactly(env, AddLine(blocks, Instr.Halt), 0);
    } else if |blocks| > 1 {
      var more := AddLine(blocks, Instr.Halt);
      assert InPlaceExactly(env, more, 0);
      forall k | 0 <= k < |blocks[1..]|
        ensures InPlaceExactly(env, AddLine(blocks[1..], Instr.Halt), k)
      {
        assert InPlaceExactly(env, more, k + 1);
      }
      AddedInPlace(env, blocks[1..]);
      forall k | 0 <= k < |blocks| ensures InPlace(env, blocks[k]) {
        if k > 0 {
          assert InPlace(env, blocks[1..][k - 1]);
        }
      }
    }
  }

  ghost predicate InPlaceExactly(env: Env, blocks: seq<Block>, k: nat) {
    k < |blocks| && blocks[k].name in env && env[blocks[k].name] == blocks[k].code
  }

  lemma {:induction false} AddLineLength(blocks: seq<Block>, i: Instr)
    ensures |AddLine(blocks, i)| == |blocks|
    decreases |blocks|
  {
    if |blocks| > 1 {
      AddLineLength(blocks[1..], i);
    }
  }

  /** With distinct labels, the environment of a lowered module has every function in it. */
  lemma ModuleStored(entry: Option<string>, fns: seq<Function>, reach: nat) returns (search: string)
    requires AllBodies(fns, reach) && Distinct(Blocks(LowerModule(ModuleOps(entry, fns))))
    ensures var env := EnvOf(Blocks(LowerModule(ModuleOps(entry, fns))));
      forall k :: 0 <= k < |fns| ==> FunctionStored(env, search, fns[k])
  {
    hide LowerOps, LowerModule, Blocks, SearchCode, ScanCode, ScanLabel, FunctionBody, FunctionStored, EnvOf, LabelOf;
    var blocks := Blocks(LowerModule(ModuleOps(entry, fns)));
    var env := EnvOf(blocks);
    var r := LowerOps(FunctionsOps(fns), NoFields());
    var own := Blocks(r.0);
    search := ScratchOf(r.1);
    ModuleBlocks(entry, fns, reach);
    forall k | 0 <= k < |blocks|
      ensures InPlaceExactly(env, blocks, k)
    {
      EnvHas(blocks, k);
    }
    if r.1.scratch.Some? {
      var added := AddLine(own, Instr.Halt);
      AddLineLength(own, Instr.Halt);
      forall k | 0 <= k < |own|
        ensures InPlaceExactly(env, added, k)
      {
        assert InPlaceExactly(env, blocks, k) && blocks[k] == added[k];
      }
      AddedInPlace(env, own);
      assert InPlaceExactly(env, blocks, |own|) && InPlaceExactly(env, blocks, |own| + 1);
    } else {
      forall k | 0 <= k < |own| ensures InPlace(env, own[k]) { assert InPlaceExactly(env, blocks, k); }
    }
    FunctionsStored(env, search, fns, NoFields(), reach);
  }

  /**
   * The main theorem. Take a module whose functions are closed and structured and whose listing
   * carries no label twice. Whenever calling a label of the module comes to an end in the source,
   * calling it in the lowered listing comes to the same end: the same stack, memory, input,
   * secret input and output, or, where the source refuses to go on, a stop with an error. The one
   * other thing that can happen is a stop at an assertion, and only if memory had less
   * than `reach` consecutive zero cells at some deep access.
   */
  lemma LoweringPreservesMeaning(entry: Option<string>, fns: seq<Function>, procs: Procs, reach: nat, l: string, s: State, fuel: nat)
    returns (o: Outcome)
    requires AllBodies(fns, reach) && ProcsOf(fns, procs) && 4096 <= reach <= 0x1_0000_0000
    requires Distinct(Blocks(LowerModule(ModuleOps(entry, fns))))
    requires Finishes(Meaning(procs, l, s, fuel))
    ensures Invokes(EnvOf(Blocks(LowerModule(ModuleOps(entry, fns)))), l, s, o)
    ensures Asks(Meaning(procs, l, s, fuel), o) || (Stuck(o) && Crowds(procs, reach, l, s, fuel))
  {
    hide LowerModule, Blocks, EnvOf, EvalCall, Invokes, FunctionBody, FunctionStored, ProcsStored;
    var env := EnvOf(Blocks(LowerModule(ModuleOps(entry, fns))));
    var search := ModuleStored(entry, fns, reach);
    assert forall k :: 0 <= k < |fns| ==> FunctionHeld(env, fns[k]);
    ProcsAreStored(env, fns, procs, reach);
    CallCrowds(procs, reach, l, s, fuel);
    o := SimCall(env, procs, if Crowds(procs, reach, l, s, fuel) then 0 else reach, reach, l, s, fuel);
  }

  // ----- programs -----

  /** The machine, started before the first label of the lowered program, comes to `o`. */
  ghost predicate ProgramComesTo(entry: string, fns: seq<Function>, s: State, o: Outcome) {
    var lines := LowerModule(ModuleOps(Some(entry), fns));
    Runs(EnvOf(Blocks(lines)), Until(lines), s, o)
  }

  /** A program: its lines before the first label call the entry function and halt. */
  lemma ProgramRuns(entry: string, fns: seq<Function>, procs: Procs, reach: nat, s: State, fuel: nat) returns (o: Outcome)
    requires AllBodies(fns, reach) && ProcsOf(fns, procs) && 4096 <= reach <= 0x1_0000_0000 && fns != []
    requires Distinct(Blocks(LowerModule(ModuleOps(Some(entry), fns))))
    requires Finishes(Meaning(procs, LabelOf(entry), s, fuel))
    ensures ProgramComesTo(entry, fns, s, o)
    ensures (match Meaning(procs, LabelOf(entry), s, fuel)
      case Ok(t) => o == Outcome.Halted(t)
      case Halted(t) => o == Outcome.Halted(t)
      case _ => o.Crashed? && !o.i.Call?) || (Stuck(o) && Crowds(procs, reach, LabelOf(entry), s, fuel))
  {
    hide LowerModule, Blocks, EnvOf, EvalCall, Invokes, FunctionBody, Runs, LabelOf, Until;
    var env := EnvOf(Blocks(LowerModule(ModuleOps(Some(entry), fns))));
    var call, halt := [Instr.Call(LabelOf(entry))], [Instr.Halt];
    o := LoweringPreservesMeaning(Some(entry), fns, procs, reach, LabelOf(entry), s, fuel);
    CallNeverReturns(procs, 0, LabelOf(entry), s, fuel);
    ModuleBlocks(Some(entry), fns, reach);
    RunsCall(env, LabelOf(entry), s, o);
    assert call + halt == [Instr.Call(LabelOf(entry)), Instr.Halt];
    if o.Done? {
      var t := o.s;
      o := Outcome.Halted(t);
      RunsLast(env, Instr.Halt, t);
      RunsCat(env, call, halt, s, t, o);
    } else {
      RunsStop(env, call, halt, s, o);
    }
  }

  /** The machine stops at an assertion. */
  ghost predicate ProgramGetsStuck(entry: string, fns: seq<Function>, s: State) {
    exists o :: Stuck(o) && ProgramComesTo(entry, fns, s, o)
  }

  ghost predicate EndsBy(procs: Procs, entry: string, s: State, t: State, fuel: nat) {
    var r := Meaning(procs, LabelOf(entry), s, fuel);
    r == Ok(t) || r == Result.Halted(t)
  }

  /** Where the source comes to an end, the lowered program halts in exactly its state, or gets stuck for want of memory. */
  lemma HaltsOnlyIfSourceDoes(entry: string, fns: seq<Function>, procs: Procs, reach: nat, s: State, t: State, fuel: nat)
    requires AllBodies(fns, reach) && ProcsOf(fns, procs) && 4096 <= reach <= 0x1_0000_0000 && fns != []
    requires Distinct(Blocks(LowerModule(ModuleOps(Some(entry), fns))))
    requires Finishes(Meaning(procs, LabelOf(entry), s, fuel))
    ensures ProgramComesTo(entry, fns, s, Outcome.Halted(t)) ==> EndsBy(procs, entry, s, t, fuel)
    ensures EndsBy(procs, entry, s, t, fuel) ==>
      ProgramComesTo(entry, fns, s, Outcome.Halted(t)) || (ProgramGetsStuck(entry, fns, s) && Crowds(procs, reach, LabelOf(entry), s, fuel))
  {
    hide LowerModule, Blocks, EnvOf, EvalCall, FunctionBody, Runs, LabelOf, Until;
    var lines := LowerModule(ModuleOps(Some(entry), fns));
    var o := ProgramRuns(entry, fns, procs, reach, s, fuel);
    CallNeverReturns(procs, 0, LabelOf(entry), s, fuel);
    if ProgramComesTo(entry, fns, s, Outcome.Halted(t)) {
      RunsUnique(EnvOf(Blocks(lines)), Until(lines), s, o, Outcome.Halted(t));
    }
  }
}
