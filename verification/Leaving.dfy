/** Every block of a lowered module ends by leaving, as dropping unreachable functions requires. */
module Leaving {
  import opened Machine
  import opened Control
  import opened Legalize
  import opened Tir
  import opened Sequence
  import opened Lowering
  import opened Simulation
  import opened Listing
  import opened ModuleLowering
  import opened Compilation
  import DeadCode
  import opened Linker

  ghost predicate AllEnd(blocks: seq<Block>) {
    forall k :: 0 <= k < |blocks| ==> DeadCode.Ends(blocks[k].code)
  }

  lemma EndsWith(a: seq<Instr>, i: Instr)
    requires Whole(a) && (i == Instr.Return || i == Recurse || i == Instr.Halt)
    ensures DeadCode.Ends(a + [i])
  {}

  lemma AllEndCat(a: seq<Block>, b: seq<Block>)
    requires AllEnd(a) && AllEnd(b)
    ensures AllEnd(a + b)
  {}

  lemma OneEnds(b: Block)
    requires DeadCode.Ends(b.code)
    ensures AllEnd([b])
  {}

  // ----- bodies -----

  lemma OpCodeIsWhole(op: TIROp, f: Fields)
    requires !op.FnEnd?
    ensures Whole(LowerOp(op, f).0)
  {
    hide AccessCode, FlatCode, Fresh, LabelOf;
    if op.Dup? || op.Swap? {
      AccessIsWhole(op.d, op.Dup?, ScratchOf(LowerOp(op, f).1));
    } else if !op.IfElse? && !op.IfOnly? && !op.Loop? {
      FlatNoSkiz(op);
      LastNotSkiz(FlatCode(op));
    }
  }

  lemma {:induction false} BodyIsWhole(ops: seq<TIROp>, f: Fields)
    requires Inside(ops)
    ensures Whole(LowerOps(ops, f).0)
    decreases |ops|
  {
    hide LowerOps, LowerOp, PlanOf, ShuffleCode, WithScratch, Size, Pending, OpSize, Whole;
    if ops == [] {
      EmptyLowering(f);
      NothingIsWhole();
    } else if PlanOf(ops).Some? {
      var plan := PlanOf(ops).value;
      LowerByPlan(ops, f);
      BodyIsWhole(ops[plan.consumed..], WithScratch(f));
      ShuffleIsWhole(plan.width, plan.order, ScratchOf(WithScratch(f)));
      WholeCat(ShuffleCode(plan.width, plan.order, ScratchOf(WithScratch(f))), LowerOps(ops[plan.consumed..], WithScratch(f)).0);
    } else {
      LowerByOp(ops, f);
      OpCodeIsWhole(ops[0], f);
      BodyIsWhole(ops[1..], LowerOp(ops[0], f).1);
      WholeCat(LowerOp(ops[0], f).0, LowerOps(ops[1..], LowerOp(ops[0], f).1).0);
    }
  }

  lemma NothingIsWhole()
    ensures Whole([])
  {}

  lemma HeadIsWhole(d: Deferred)
    ensures Whole(BlockHead(d))
  {}

  lemma BlockEnds(d: Deferred, f: Fields, reach: nat)
    requires AllStructured(d.ops, reach)
    ensures DeadCode.Ends(BlockOf(d, f).code)
  {
    hide LowerOps, AllStructured, BlockHead, Whole, DeadCode.Ends, Inside;
    StructuredIsBody(d.ops, reach);
    BodyIsInside(d.ops, reach);
    BodyIsWhole(d.ops, f);
    HeadIsWhole(d);
    var front := BlockHead(d) + LowerOps(d.ops, f).0;
    WholeCat(BlockHead(d), LowerOps(d.ops, f).0);
    if d.isLoop {
      EndsWith(front, Recurse);
    } else if d.clearsFlag {
      PushIsWhole();
      WholeCat(front, [Instr.Push(0)]);
      EndsWith(front + [Instr.Push(0)], Instr.Return);
      Assoc(front, [Instr.Push(0)], [Instr.Return]);
      assert [Instr.Push(0)] + [Instr.Return] == [Instr.Push(0), Instr.Return];
    } else {
      EndsWith(front, Instr.Return);
    }
  }

  lemma PushIsWhole()
    ensures Whole([Instr.Push(0)])
  {}

  // ----- the listing -----

  lemma {:induction false} RoundEnds(blocks: seq<Deferred>, f: Fields, reach: nat)
    requires BlocksStructured(blocks, reach) && BlocksStructured(f.deferred, reach)
    ensures AllEnd(Blocks(LowerBlocks(blocks, f).0))
    decreases |blocks|
  {
    hide LowerBlock, LowerOps, Size, Pending, OpSize, AllStructured, Blocks, AllEnd, DeadCode.Ends;
    if blocks == [] {
      NothingEnds(f);
    } else {
      var first := LowerBlock(blocks[0], f);
      LoweredBlock(blocks[0], f, reach);
      RoundShape(blocks[1..], first.1, reach);
      BlocksCat(first.0, LowerBlocks(blocks[1..], first.1).0);
      RoundEnds(blocks[1..], first.1, reach);
      BlockEnds(blocks[0], f, reach);
      OneEnds(BlockOf(blocks[0], f));
      AllEndCat([BlockOf(blocks[0], f)], Blocks(LowerBlocks(blocks[1..], first.1).0));
    }
  }

  lemma NothingEnds(f: Fields)
    ensures AllEnd(Blocks(LowerBlocks([], f).0)) && AllEnd(Blocks([]))
  {}

  lemma {:induction false} FlushEnds(f: Fields, reach: nat)
    requires BlocksStructured(f.deferred, reach)
    ensures AllEnd(Blocks(Flush(f).0))
    decreases Pending(f.deferred)
  {
    if f.deferred != [] {
      hide LowerBlocks, AllStructured, Blocks, Size, AllEnd;
      var f0 := f.(deferred := []);
      var round := LowerBlocks(f.deferred, f0);
      RoundShape(f.deferred, f0, reach);
      RoundEnds(f.deferred, f0, reach);
      FlushShape(round.1, reach);
      BlocksCat(round.0, Flush(round.1).0);
      FlushEnds(round.1, reach);
      AllEndCat(Blocks(round.0), Blocks(Flush(round.1).0));
    }
  }

  /** The function's own operations end with a return. */
  predicate ReturnsAtEnd(fn: Function) {
    fn.body != [] && fn.body[|fn.body| - 1] == TIROp.Return
  }

  lemma FunctionEnds(fn: Function, f: Fields, reach: nat)
    requires FunctionBody(fn.body, reach) && ReturnsAtEnd(fn)
    ensures DeadCode.Ends(LowerOps(fn.body, f).0)
  {
    hide LowerOps, Whole, DeadCode.Ends, Splits, Inside, FunctionBody, PlanOf;
    var n := |fn.body| - 1;
    var front := fn.body[..n];
    BodyIsInside(fn.body, reach);
    FrontIsInside(fn.body, n);
    assert fn.body == front + [TIROp.Return];
    BodyThenRest(front, [TIROp.Return], f);
    SplitsApart(front, f);
    BodyIsWhole(front, f);
    EndsWith(LowerOps(front, f).0, Instr.Return);
  }

  lemma FrontIsInside(ops: seq<TIROp>, n: nat)
    requires Inside(ops) && n <= |ops|
    ensures Inside(ops[..n])
  {}

  lemma SplitsApart(front: seq<TIROp>, f: Fields)
    requires Splits(front, [TIROp.Return], f)
    ensures LowerOps(front + [TIROp.Return], f).0 == LowerOps(front, f).0 + [Instr.Return]
  {
    var g := LowerOps(front, f).1;
    ReturnLine(g);
  }

  lemma ReturnLine(g: Fields)
    ensures LowerOps([TIROp.Return], g).0 == [Instr.Return]
  {
    hide LowerOps, LowerOp, PlanOf;
    var one := [TIROp.Return];
    NoPlanForReturn(one);
    LowerByOp(one, g);
    assert one[1..] == [];
    EmptyLowering(g);
    ReturnCode(g);
  }

  lemma NoPlanForReturn(ops: seq<TIROp>)
    requires ops != [] && ops[0] == TIROp.Return
    ensures PlanOf(ops).None?
  {
    hide FinalOrder, Candidate, ShuffleCode;
    assert Measure(ops, Start) == Some(Start);
  }

  lemma ReturnCode(g: Fields)
    ensures LowerOp(TIROp.Return, g) == ([Instr.Return], g)
  {}

  lemma {:induction false} FunctionsEnd(fns: seq<Function>, f: Fields, reach: nat)
    requires AllBodies(fns, reach) && f.deferred == [] && forall k :: 0 <= k < |fns| ==> ReturnsAtEnd(fns[k])
    ensures AllEnd(Blocks(LowerOps(FunctionsOps(fns), f).0))
    decreases |fns|
  {
    hide LowerOps, Size, Pending, OpSize, Flush, LabelOf, FunctionBody, Blocks, AllEnd, DeadCode.Ends, ReturnsAtEnd;
    if fns == [] {
      EmptyLowering(f);
      NothingEnds(f);
    } else {
      var fn := fns[0];
      var body := LowerOps(fn.body, f);
      var flush := Flush(body.1);
      var after := LowerOps(FunctionsOps(fns[1..]), flush.1);
      BodyIsInside(fn.body, reach);
      BodyDefers(fn.body, f, reach);
      FlushShape(body.1, reach);
      FlushEnds(body.1, reach);
      FunctionsShape(fns[1..], flush.1, reach);
      FunctionLines(fn, FunctionsOps(fns[1..]), f, reach);
      FunctionBlocks(fn, f, after.0, reach);
      FunctionsEnd(fns[1..], flush.1, reach);
      FunctionEnds(fn, f, reach);
      OneEnds(Block(LabelOf(fn.name), body.0));
      AllEndCat(Blocks(flush.0), Blocks(after.0));
      AllEndCat([Block(LabelOf(fn.name), body.0)], Blocks(flush.0) + Blocks(after.0));
    }
  }

  lemma {:induction false} HaltAddedEnds(blocks: seq<Block>)
    requires AllEnd(blocks)
    ensures AllEnd(AddLine(blocks, Instr.Halt))
    decreases |blocks|
  {
    if |blocks| > 1 {
      HaltAddedEnds(blocks[1..]);
    }
  }

  lemma SearchEnds(name: string)
    ensures AllEnd(SearchBlocks(name))
  {}

  /** If every function of a module returns at its end, every block of the lowered module ends by leaving. */
  lemma LoweredBlocksEnd(entry: Option<string>, fns: seq<Function>, reach: nat)
    requires AllBodies(fns, reach) && forall k :: 0 <= k < |fns| ==> ReturnsAtEnd(fns[k])
    ensures AllEnd(Blocks(LowerModule(ModuleOps(entry, fns))))
  {
    hide LowerOps, LowerModule, Blocks, FunctionBody, AddLine, AllEnd, SearchBlocks, ReturnsAtEnd;
    var r := LowerOps(FunctionsOps(fns), NoFields());
    ModuleBlocks(entry, fns, reach);
    FunctionsEnd(fns, NoFields(), reach);
    if r.1.scratch.Some? {
      HaltAddedEnds(Blocks(r.0));
      SearchEnds(r.1.scratch.value);
      AllEndCat(AddLine(Blocks(r.0), Instr.Halt), SearchBlocks(r.1.scratch.value));
    }
  }

  // ----- after prefixing the labels -----

  lemma MangledEnds(code: seq<Instr>, prefix: string)
    requires DeadCode.Ends(code)
    ensures DeadCode.Ends(MangleLines(code, prefix))
  {}

  lemma MangleCons(lines: seq<Instr>, prefix: string)
    requires lines != []
    ensures MangleLines(lines, prefix) == [MangleLine(lines[0], prefix)] + MangleLines(lines[1..], prefix)
    ensures MangleLines(lines, prefix)[1..] == MangleLines(lines[1..], prefix)
    ensures MangleLine(lines[0], prefix).Label? <==> lines[0].Label?
  {}

  lemma {:induction false} UntilMangled(lines: seq<Instr>, prefix: string)
    ensures Until(MangleLines(lines, prefix)) == MangleLines(Until(lines), prefix)
    decreases |lines|
  {
    if lines == [] {
      assert MangleLines([], prefix) == [];
    } else {
      hide MangleLine;
      MangleCons(lines, prefix);
      UntilMangled(lines[1..], prefix);
      if !lines[0].Label? {
        MangleCons(Until(lines), prefix);
        assert Until(lines)[1..] == Until(lines[1..]);
      } else {
        assert MangleLines([], prefix) == [];
      }
    }
  }

  /** Prefixing the labels of a listing does not change how its blocks end. */
  lemma {:induction false} MangledListingEnds(lines: seq<Instr>, prefix: string)
    requires AllEnd(Blocks(lines))
    ensures AllEnd(Blocks(MangleLines(lines, prefix)))
    decreases |lines|
  {
    hide DeadCode.Ends, MangleLine;
    if lines == [] {
      assert MangleLines([], prefix) == [];
    } else {
      MangleCons(lines, prefix);
      var blocks := Blocks(lines);
      if lines[0].Label? {
        assert blocks[1..] == Blocks(lines[1..]);
        assert AllEnd(Blocks(lines[1..])) by {
          forall k | 0 <= k < |blocks[1..]|
            ensures DeadCode.Ends(blocks[1..][k].code)
          {
            assert blocks[1..][k] == blocks[k + 1];
          }
        }
        MangledListingEnds(lines[1..], prefix);
        UntilMangled(lines[1..], prefix);
        assert DeadCode.Ends(blocks[0].code);
        MangledEnds(Until(lines[1..]), prefix);
      } else {
        MangledListingEnds(lines[1..], prefix);
      }
    }
  }

  lemma AfterPrelude(lines: seq<Instr>)
    ensures var rest := lines[|Until(lines)|..]; StartsBlock(rest) && Blocks(rest) == Blocks(lines)
  {
    var n := |Until(lines)|;
    assert lines == lines[..n] + lines[n..] && lines[..n] == Until(lines);
    BlocksPlain(lines[..n]);
    BlocksCat(lines[..n], lines[n..]);
  }

  lemma MangledStarts(lines: seq<Instr>, prefix: string)
    requires StartsBlock(lines)
    ensures StartsBlock(MangleLines(lines, prefix))
  {}

  /** A module whose blocks end by leaving, and that starts with a block unless it is the program. */
  ghost predicate Leaves(m: ModuleTasm) {
    AllEnd(Blocks(m.lines)) && (m.isProgram || StartsBlock(m.lines))
  }

  lemma ModuleLeaves(m: ModuleTasm)
    requires Leaves(m)
    ensures var lines := Mangled(m.lines, MangleModule(m.name), m.isProgram); StartsBlock(lines) && AllEnd(Blocks(lines))
  {
    hide Blocks, AllEnd, Until, StartsBlock, MangleModule;
    AfterPrelude(m.lines);
    var rest := if m.isProgram then m.lines[|Until(m.lines)|..] else m.lines;
    MangledListingEnds(rest, MangleModule(m.name));
    MangledStarts(rest, MangleModule(m.name));
  }

  /** Modules that leave their blocks by themselves, such as lowered ones, still do once their labels are prefixed and they are put together. */
  lemma {:induction false} LinkedBlocksEnd(modules: seq<ModuleTasm>)
    requires forall k :: 0 <= k < |modules| ==> Leaves(modules[k])
    ensures StartsBlock(AllMangled(modules)) && AllEnd(Blocks(AllMangled(modules)))
    decreases |modules|
  {
    hide Blocks, AllEnd, Mangled, MangleModule, Leaves;
    if modules == [] {
      NothingEnds(NoFields());
    } else {
      LinkedBlocksEnd(modules[1..]);
      ModuleLeaves(modules[0]);
      var first := Mangled(modules[0].lines, MangleModule(modules[0].name), modules[0].isProgram);
      BlocksCat(first, AllMangled(modules[1..]));
      AllEndCat(Blocks(first), Blocks(AllMangled(modules[1..])));
      StartsEither(first, AllMangled(modules[1..]));
    }
  }

  /** A lowered module fits the linker. */
  lemma LoweredModuleLeaves(name: string, entry: Option<string>, fns: seq<Function>, reach: nat)
    requires AllBodies(fns, reach) && fns != [] && forall k :: 0 <= k < |fns| ==> ReturnsAtEnd(fns[k])
    ensures Leaves(ModuleTasm(name, entry.Some?, LowerModule(ModuleOps(entry, fns))))
  {
    hide LowerModule, Blocks, AllEnd, AllBodies, LowerOps, SearchBlocks, AddLine, ReturnsAtEnd;
    LoweredBlocksEnd(entry, fns, reach);
    ModuleBlocks(entry, fns, reach);
    NoPrelude(LowerModule(ModuleOps(entry, fns)));
  }

  lemma NoPrelude(lines: seq<Instr>)
    ensures Until(lines) == [] ==> StartsBlock(lines)
  {}
}
