/** The lowering object: it appends to a listing and keeps its deferred blocks, label counter and scratch label up to date. */
module TritonLowering {
  import opened Words
  import opened Machine
  import opened Legalize
  import opened Tir
  import opened Permute
  import opened Sequence
  import opened Lowering

  class TritonLowering {
    var deferred: seq<Deferred>
    var labelCounter: nat
    var scratchSearch: Option<string>

    constructor ()
      ensures Now() == NoFields()
    {
      deferred, labelCounter, scratchSearch := [], 0, None;
    }

    function Now(): Fields
      reads this
    {
      Fields(deferred, labelCounter, scratchSearch)
    }

    method FreshLabel(prefix: string) returns (name: string)
      modifies this`labelCounter
      ensures labelCounter == old(labelCounter) + 1 && name == Fresh(prefix, labelCounter)
    {
      labelCounter := labelCounter + 1;
      name := Fresh(prefix, labelCounter);
    }

    method EnsureScratchSearch()
      modifies this
      ensures Now() == WithScratch(old(Now())) && deferred == old(deferred)
    {
      if scratchSearch.None? {
        var name := FreshLabel("stack_scratch");
        scratchSearch := Some(name);
      }
    }

    method StackAccess(depth: nat, duplicate: bool, out: Output)
      modifies this, out
      ensures out.lines == old(out.lines) + LowerAccess(depth, duplicate, old(Now())).0
      ensures Now() == LowerAccess(depth, duplicate, old(Now())).1 && deferred == old(deferred)
    {
      if depth >= 16 {
        EnsureScratchSearch();
      }
      Access(depth, duplicate, ScratchOf(Now()), out);
    }

    /** The operations that touch no field. */
    method FlatOp(op: TIROp, out: Output)
      modifies out
      ensures out.lines == old(out.lines) + FlatCode(op)
    {
      hide FixedCode, BatchCode, RamReadCode, RamWriteCode, RevealCode;
      match op
      case Pop(n) => Batch(PopOp, n, out);
      case ReadIo(n) => Batch(ReadIoOp, n, out);
      case WriteIo(n) => Batch(WriteIoOp, n, out);
      case Hint(n) => Batch(DivineOp, n, out);
      case RamRead(width) => BlockRead(width, out);
      case RamWrite(width) => BlockWrite(width, out);
      case Reveal(tag, n) => RevealFields(tag, n, out);
      case _ => out.Extend(FixedCode(op));
    }

    method BlockRead(width: nat, out: Output)
      modifies out
      ensures out.lines == old(out.lines) + RamReadCode(width)
    {
      ghost var written := if width > 1 then Offset(width - 1) else [];
      if width > 1 {
        out.Push(Instr.Push(Lit(width - 1)));
        out.Push(Instr.Add);
      }
      assert out.lines == old(out.lines) + written;
      Batch(ReadMemOp, width, out);
      Assoc(old(out.lines), written, BatchCode(ReadMemOp, width));
      written := written + BatchCode(ReadMemOp, width);
      out.Push(Instr.Pop(1));
      Assoc(old(out.lines), written, [Instr.Pop(1)]);
      written := written + [Instr.Pop(1)];
      Reverse(width, out);
      Assoc(old(out.lines), written, ReverseCode(width));
    }

    method BlockWrite(width: nat, out: Output)
      modifies out
      ensures out.lines == old(out.lines) + RamWriteCode(width)
    {
      Reverse(width + 1, out);
      Batch(WriteMemOp, width, out);
      Assoc(old(out.lines), ReverseCode(width + 1), BatchCode(WriteMemOp, width));
      out.Push(Instr.Pop(1));
      Assoc(old(out.lines), ReverseCode(width + 1) + BatchCode(WriteMemOp, width), [Instr.Pop(1)]);
    }

    method RevealFields(tag: nat, fields: nat, out: Output)
      modifies out
      ensures out.lines == old(out.lines) + RevealCode(tag, fields)
    {
      ghost var written := if fields > 1 then ReverseCode(fields) else [];
      if fields > 1 {
        Reverse(fields, out);
      }
      assert out.lines == old(out.lines) + written;
      out.Extend([Instr.Push(Lit(tag)), Instr.WriteIo(1)]);
      Assoc(old(out.lines), written, [Instr.Push(Lit(tag)), Instr.WriteIo(1)]);
      written := written + [Instr.Push(Lit(tag)), Instr.WriteIo(1)];
      Repeat([Instr.WriteIo(1)], fields, out);
      Assoc(old(out.lines), written, RepeatCode([Instr.WriteIo(1)], fields));
    }

    method Defer(op: TIROp, out: Output)
      requires op.IfElse? || op.IfOnly? || op.Loop?
      modifies this, out
      ensures Now() == (if op.IfElse? then DeferIfElse(op, old(Now())) else if op.IfOnly? then DeferIfOnly(op, old(Now())) else DeferLoop(op, old(Now())))
      ensures out.lines == old(out.lines) +
        if op.IfElse? then IfElseCode(Fresh("then", old(labelCounter) + 1), Fresh("else", old(labelCounter) + 2))
        else if op.IfOnly? then IfOnlyCode(Fresh("then", old(labelCounter) + 1))
        else []
    {
      match op
      case IfElse(thenBody, elseBody) =>
        var thenLabel := FreshLabel("then");
        var elseLabel := FreshLabel("else");
        out.Extend([Instr.Push(1), Instr.Swap(1), Skiz, Instr.Call(thenLabel), Skiz, Instr.Call(elseLabel)]);
        deferred := deferred + [Deferred(thenLabel, thenBody, true, false)];
        deferred := deferred + [Deferred(elseLabel, elseBody, false, false)];
      case IfOnly(thenBody) =>
        var thenLabel := FreshLabel("then");
        out.Extend([Skiz, Instr.Call(thenLabel)]);
        deferred := deferred + [Deferred(thenLabel, thenBody, false, false)];
      case Loop(name, body) =>
        deferred := deferred + [Deferred(LabelOf(name), body, false, true)];
    }

    method LowerOpOut(op: TIROp, out: Output)
      modifies this, out
      ensures out.lines == old(out.lines) + LowerOp(op, old(Now())).0
      ensures Now() == LowerOp(op, old(Now())).1
      decreases OpSize(op) + Pending(deferred), 3
    {
      hide FlatCode, LowerAccess, Flush, IfElseCode, IfOnlyCode, Fresh, LabelOf, Pending, Size, OpSize, DeferIfElse, DeferIfOnly, DeferLoop;
      if op.Dup? {
        StackAccess(op.d, true, out);
      } else if op.Swap? {
        StackAccess(op.d, false, out);
      } else if op.IfElse? || op.IfOnly? || op.Loop? {
        Defer(op, out);
      } else if op.FnEnd? {
        FlushDeferred(out);
      } else {
        FlatOp(op, out);
      }
    }

    method LowerOpsOut(ops: seq<TIROp>, out: Output)
      modifies this, out
      ensures out.lines == old(out.lines) + LowerOps(ops, old(Now())).0
      ensures Now() == LowerOps(ops, old(Now())).1
      decreases Size(ops) + Pending(deferred), 4
    {
      hide LowerOp, PlanOf, ShuffleCode, WithScratch;
      var rest := ops;
      ghost var start, written := Now(), [];
      assert [] + LowerOps(ops, start).0 == LowerOps(ops, start).0;
      while rest != []
        invariant out.lines == old(out.lines) + written
        invariant written + LowerOps(rest, Now()).0 == LowerOps(ops, start).0
        invariant LowerOps(rest, Now()).1 == LowerOps(ops, start).1
        invariant Size(rest) + Pending(deferred) <= Size(ops) + Pending(start.deferred)
        decreases |rest|
      {
        ghost var before := Now();
        var plan := Plan(rest);
        if plan.Some? {
          EnsureScratchSearch();
          var search := ScratchOf(Now());
          SizeDrops(rest, plan.value.consumed);
          EmitShuffle(plan.value, search, out);
          ghost var code := ShuffleCode(plan.value.width, plan.value.order, search);
          rest := rest[plan.value.consumed..];
          Assoc(old(out.lines), written, code);
          Assoc(written, code, LowerOps(rest, Now()).0);
          written := written + code;
          assert Pending(deferred) == Pending(before.deferred) by { ScratchKeepsBlocks(before); }
        } else {
          LowerOpOut(rest[0], out);
          ghost var code := LowerOp(rest[0], before).0;
          rest := rest[1..];
          Assoc(old(out.lines), written, code);
          Assoc(written, code, LowerOps(rest, Now()).0);
          written := written + code;
        }
      }
    }

    lemma ScratchKeepsBlocks(f: Fields)
      ensures WithScratch(f).deferred == f.deferred
    {}

    /** One block of the flush. */
    method EmitBlock(block: Deferred, out: Output)
      modifies this, out
      ensures out.lines == old(out.lines) + LowerBlock(block, old(Now())).0
      ensures Now() == LowerBlock(block, old(Now())).1
      decreases Size(block.ops) + Pending(deferred), 5
    {
      hide LowerOps, BlockHead, BlockEnd;
      ghost var body := LowerOps(block.ops, Now()).0;
      ghost var start := out.lines;
      out.Push(Label(block.name));
      EmitHead(block, out);
      LowerOpsOut(block.ops, out);
      EmitEnd(block, out);
      FourParts(start, [Label(block.name)], BlockHead(block), body, BlockEnd(block));
    }

    /** A loop checks and decrements its counter; a then-branch drops the flag below it. */
    method EmitHead(block: Deferred, out: Output)
      modifies out
      ensures out.lines == old(out.lines) + BlockHead(block)
    {
      if block.isLoop {
        out.Extend([Instr.Dup(0), Instr.Push(0), Instr.Eq, Skiz, Instr.Return, Instr.Push(Lit(-1)), Instr.Add]);
      } else if block.clearsFlag {
        out.Push(Instr.Pop(1));
      }
    }

    method EmitEnd(block: Deferred, out: Output)
      modifies out
      ensures out.lines == old(out.lines) + BlockEnd(block)
    {
      if block.isLoop {
        out.Push(Recurse);
      } else {
        if block.clearsFlag {
          out.Push(Instr.Push(0));
        }
        out.Push(Instr.Return);
      }
    }

    lemma FourParts<T>(a: seq<T>, b: seq<T>, c: seq<T>, d: seq<T>, e: seq<T>)
      ensures a + b + c + d + e == a + (b + (c + d + e))
    {}

    method FlushDeferred(out: Output)
      modifies this, out
      ensures out.lines == old(out.lines) + Flush(old(Now())).0
      ensures Now() == Flush(old(Now())).1
      decreases Pending(deferred), 2
    {
      hide LowerBlock, LowerOps;
      ghost var start, written := Now(), [];
      assert [] + Flush(start).0 == Flush(start).0;
      while deferred != []
        invariant out.lines == old(out.lines) + written
        invariant written + Flush(Now()).0 == Flush(start).0 && Flush(Now()).1 == Flush(start).1
        invariant Pending(deferred) <= Pending(start.deferred)
        decreases Pending(deferred)
      {
        ghost var round := LowerBlocks(deferred, Now().(deferred := []));
        var blocks := deferred;
        deferred := [];
        EmitRound(blocks, out);
        Assoc(old(out.lines), written, round.0);
        Assoc(written, round.0, Flush(Now()).0);
        written := written + round.0;
      }
    }

    method EmitRound(blocks: seq<Deferred>, out: Output)
      modifies this, out
      ensures out.lines == old(out.lines) + LowerBlocks(blocks, old(Now())).0
      ensures Now() == LowerBlocks(blocks, old(Now())).1
      decreases Pending(blocks) + Pending(deferred), 1
    {
      hide LowerBlock, LowerOps;
      ghost var start, written := Now(), [];
      assert [] + LowerBlocks(blocks, start).0 == LowerBlocks(blocks, start).0;
      assert blocks[0..] == blocks;
      for k := 0 to |blocks|
        invariant out.lines == old(out.lines) + written
        invariant written + LowerBlocks(blocks[k..], Now()).0 == LowerBlocks(blocks, start).0
        invariant LowerBlocks(blocks[k..], Now()).1 == LowerBlocks(blocks, start).1
        invariant Pending(blocks[k..]) + Pending(deferred) <= Pending(blocks) + Pending(start.deferred)
      {
        ghost var code := LowerBlock(blocks[k], Now()).0;
        assert blocks[k..][0] == blocks[k] && blocks[k..][1..] == blocks[k + 1..];
        EmitBlock(blocks[k], out);
        Assoc(old(out.lines), written, code);
        Assoc(written, code, LowerBlocks(blocks[k + 1..], Now()).0);
        written := written + code;
      }
    }
  }

  /** Lowers a module. */
  method Lower(ops: seq<TIROp>) returns (lines: seq<Instr>)
    ensures lines == LowerModule(ops)
  {
    hide LowerOps;
    var lowerer := new TritonLowering();
    var out := new Output();
    lowerer.LowerOpsOut(ops, out);
    if lowerer.scratchSearch.Some? {
      var name := lowerer.scratchSearch.value;
      ghost var before := out.lines;
      out.Push(Instr.Halt);
      Search(name, out);
      Assoc(before, [Instr.Halt], [Label(name)] + SearchCode(name) + [Label(ScanLabel(name))] + ScanCode());
    }
    lines := out.lines;
  }
}
