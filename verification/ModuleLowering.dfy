/** Whole modules: the lowered listing contains, for every function and deferred body, the block that stands for it. */
module ModuleLowering {
  import opened Words
  import opened Machine
  import opened Control
  import opened Legalize
  import opened Scanning
  import opened DeepAccess
  import opened Permute
  import opened Tir
  import opened Sequence
  import opened Shuffling
  import opened Lowering
  import opened Encoding
  import opened Operations
  import opened Simulation
  import opened Listing

  /** No function boundary at this level: the lowering stays within one function. */
  predicate Inside(ops: seq<TIROp>) {
    forall k :: 0 <= k < |ops| ==> !ops[k].FnStart? && !ops[k].FnEnd? && !ops[k].Entry?
  }

  // ----- plans stop at a function boundary -----

  lemma {:induction false} MeasureStops(ops: seq<TIROp>, rest: seq<TIROp>, m: Survey)
    requires rest == [] || !IsStackOp(rest[0])
    ensures Measure(ops + rest, m) == Measure(ops, m)
    decreases |ops|
  {
    if ops == [] {
      assert ops + rest == rest;
    } else {
      assert (ops + rest)[1..] == ops[1..] + rest;
      if IsStackOp(ops[0]) {
        MeasureStops(ops[1..], rest, Count(m, ops[0]));
      }
    }
  }

  lemma PlanStops(ops: seq<TIROp>, rest: seq<TIROp>)
    requires rest == [] || !IsStackOp(rest[0])
    ensures PlanOf(ops + rest) == PlanOf(ops)
  {
    hide FollowAll, Candidate, ShuffleCode, Measure;
    MeasureStops(ops, rest, Start);
    var m := Measure(ops, Start);
    if m.Some? {
      Measured(ops, Start);
      assert (ops + rest)[..m.value.consumed] == ops[..m.value.consumed];
    }
  }

  // ----- lowering a function body on its own -----

  lemma OpInside(op: TIROp, f: Fields)
    requires !op.FnStart? && !op.FnEnd? && !op.Entry?
    ensures f.deferred <= LowerOp(op, f).1.deferred
    ensures f.scratch.Some? ==> LowerOp(op, f).1.scratch == f.scratch
    ensures LowerOp(op, f).0 == match op
      case Dup(d) => AccessCode(d, true, ScratchOf(LowerOp(op, f).1))
      case Swap(d) => AccessCode(d, false, ScratchOf(LowerOp(op, f).1))
      case IfElse(_, _) => IfElseCode(Fresh("then", f.counter + 1), Fresh("else", f.counter + 2))
      case IfOnly(_) => IfOnlyCode(Fresh("then", f.counter + 1))
      case Loop(_, _) => []
      case _ => FlatCode(op)
  {
    hide AccessCode, FlatCode, Fresh;
  }

  lemma {:induction false} BodyGrows(ops: seq<TIROp>, f: Fields)
    requires Inside(ops)
    ensures f.deferred <= LowerOps(ops, f).1.deferred
    ensures f.scratch.Some? ==> LowerOps(ops, f).1.scratch == f.scratch
    decreases |ops|
  {
    hide LowerOps, LowerOp, PlanOf, ShuffleCode, Fresh, Size, Pending, OpSize;
    if ops == [] {
      EmptyLowering(f);
    } else {
      var plan := PlanOf(ops);
      if plan.Some? {
        LowerByPlan(ops, f);
        BodyGrows(ops[plan.value.consumed..], WithScratch(f));
      } else {
        LowerByOp(ops, f);
        OpInside(ops[0], f);
        BodyGrows(ops[1..], LowerOp(ops[0], f).1);
      }
    }
  }

  lemma LowerByPlan(ops: seq<TIROp>, f: Fields)
    requires PlanOf(ops).Some?
    ensures var plan := PlanOf(ops).value;
      var rest := LowerOps(ops[plan.consumed..], WithScratch(f));
      LowerOps(ops, f) == (ShuffleCode(plan.width, plan.order, ScratchOf(WithScratch(f))) + rest.0, rest.1)
  {
    hide PlanOf, ShuffleCode, WithScratch;
  }

  lemma LowerByOp(ops: seq<TIROp>, f: Fields)
    requires ops != [] && PlanOf(ops).None?
    ensures var first := LowerOp(ops[0], f);
      var rest := LowerOps(ops[1..], first.1);
      LowerOps(ops, f) == (first.0 + rest.0, rest.1)
  {
    hide PlanOf, ShuffleCode, WithScratch, LowerOp;
  }

  /** What follows a body is lowered from where the body ended. */
  ghost predicate Splits(ops: seq<TIROp>, rest: seq<TIROp>, f: Fields) {
    var first := LowerOps(ops, f);
    var after := LowerOps(rest, first.1);
    LowerOps(ops + rest, f) == (first.0 + after.0, after.1)
  }

  lemma SplitsByPlan(ops: seq<TIROp>, rest: seq<TIROp>, f: Fields)
    requires PlanOf(ops).Some? && PlanOf(ops + rest) == PlanOf(ops)
    requires Splits(ops[PlanOf(ops).value.consumed..], rest, WithScratch(f))
    ensures Splits(ops, rest, f)
  {
    hide LowerOps, PlanOf, ShuffleCode, WithScratch, Size, Pending;
    var plan := PlanOf(ops).value;
    assert (ops + rest)[plan.consumed..] == ops[plan.consumed..] + rest;
    LowerByPlan(ops, f);
    LowerByPlan(ops + rest, f);
    var mid := LowerOps(ops[plan.consumed..], WithScratch(f));
    Assoc(ShuffleCode(plan.width, plan.order, ScratchOf(WithScratch(f))), mid.0, LowerOps(rest, mid.1).0);
  }

  lemma SplitsByOp(ops: seq<TIROp>, rest: seq<TIROp>, f: Fields)
    requires ops != [] && PlanOf(ops).None? && PlanOf(ops + rest) == PlanOf(ops)
    requires Splits(ops[1..], rest, LowerOp(ops[0], f).1)
    ensures Splits(ops, rest, f)
  {
    hide LowerOps, LowerOp, PlanOf, Size, Pending, OpSize;
    assert (ops + rest)[1..] == ops[1..] + rest && (ops + rest)[0] == ops[0];
    var first := LowerOp(ops[0], f);
    LowerByOp(ops, f);
    LowerByOp(ops + rest, f);
    var mid := LowerOps(ops[1..], first.1);
    Assoc(first.0, mid.0, LowerOps(rest, mid.1).0);
  }

  lemma SplitsNothing(rest: seq<TIROp>, f: Fields)
    ensures Splits([], rest, f)
  {
    EmptyLowering(f);
    hide LowerOps;
    assert [] + rest == rest;
    assert [] + LowerOps(rest, f).0 == LowerOps(rest, f).0;
  }

  lemma {:induction false} BodyThenRest(ops: seq<TIROp>, rest: seq<TIROp>, f: Fields)
    requires Inside(ops) && (rest == [] || !IsStackOp(rest[0]))
    ensures Splits(ops, rest, f)
    decreases |ops|
  {
    hide Splits, LowerOp, PlanOf, WithScratch;
    if ops == [] {
      SplitsNothing(rest, f);
    } else {
      PlanStops(ops, rest);
      if PlanOf(ops).Some? {
        BodyThenRest(ops[PlanOf(ops).value.consumed..], rest, WithScratch(f));
        SplitsByPlan(ops, rest, f);
      } else {
        BodyThenRest(ops[1..], rest, LowerOp(ops[0], f).1);
        SplitsByOp(ops, rest, f);
      }
    }
  }

  // ----- the code of a body stands for the body -----

  /** The scratch label that a lowering ended with, if any, is `search`, and its blocks are in place. */
  ghost predicate ScratchInPlace(env: Env, search: string, f: Fields) {
    f.scratch.Some? ==> f.scratch.value == search && HasSearch(env, search)
  }

  ghost predicate AllStored(env: Env, search: string, blocks: seq<Deferred>) {
    forall k :: 0 <= k < |blocks| ==> Stored(env, search, blocks[k])
  }

  lemma StoredSuffix(env: Env, search: string, a: seq<Deferred>, b: seq<Deferred>, c: seq<Deferred>)
    requires a <= b <= c && AllStored(env, search, c[|a|..])
    ensures AllStored(env, search, b[|a|..]) && AllStored(env, search, c[|b|..])
  {
    hide Stored;
    forall k | 0 <= k < |b[|a|..]| ensures Stored(env, search, b[|a|..][k]) { assert b[|a|..][k] == c[|a|..][k]; }
    forall k | 0 <= k < |c[|b|..]| ensures Stored(env, search, c[|b|..][k]) { assert c[|b|..][k] == c[|a|..][k + |b| - |a|]; }
  }

  lemma OpIsLowered(env: Env, search: string, op: TIROp, f: Fields)
    requires !op.FnStart? && !op.FnEnd? && !op.Entry?
    requires var g := LowerOp(op, f).1; ScratchInPlace(env, search, g) && AllStored(env, search, g.deferred[|f.deferred|..])
    ensures OpAs(env, search, op, LowerOp(op, f).0) && OpLength(op, search) == |LowerOp(op, f).0|
  {
    hide AccessCode, FlatCode, Fresh, Stored, HasSearch, Size, Pending, OpSize;
    var g := LowerOp(op, f).1;
    if op.Dup? || op.Swap? {
      if op.d < 16 {
        ShallowNeedsNoScratch(op.d, op.Dup?, ScratchOf(g), search);
      }
    } else if op.IfElse? {
      assert Stored(env, search, g.deferred[|f.deferred|..][0]) && Stored(env, search, g.deferred[|f.deferred|..][1]);
    } else if op.IfOnly? || op.Loop? {
      assert Stored(env, search, g.deferred[|f.deferred|..][0]);
    }
  }

  lemma ShallowNeedsNoScratch(depth: nat, duplicate: bool, search: string, other: string)
    requires depth < 16
    ensures AccessCode(depth, duplicate, search) == AccessCode(depth, duplicate, other)
  {}

  lemma PlanThenLowered(env: Env, search: string, ops: seq<TIROp>, rest: seq<Instr>)
    requires PlanOf(ops).Some? && HasSearch(env, search) && LoweredAs(env, search, ops[PlanOf(ops).value.consumed..], rest)
    ensures LoweredAs(env, search, ops, ShuffleCode(PlanOf(ops).value.width, PlanOf(ops).value.order, search) + rest)
  {
    hide PlanOf, ShuffleCode, HasSearch, OpAs, Stored, OpLength;
    var front := ShuffleCode(PlanOf(ops).value.width, PlanOf(ops).value.order, search);
    assert (front + rest)[..|front|] == front && (front + rest)[|front|..] == rest;
  }

  lemma OpThenLowered(env: Env, search: string, ops: seq<TIROp>, front: seq<Instr>, rest: seq<Instr>)
    requires ops != [] && PlanOf(ops).None? && LoweredAs(env, search, ops[1..], rest)
    requires OpAs(env, search, ops[0], front) && OpLength(ops[0], search) == |front|
    ensures LoweredAs(env, search, ops, front + rest)
  {
    hide PlanOf, OpAs, Stored, OpLength;
    assert (front + rest)[..|front|] == front && (front + rest)[|front|..] == rest;
  }

  /** The fields a body starts from, and what it ends with: the search label and everything it deferred in place. */
  ghost predicate Placed(env: Env, search: string, ops: seq<TIROp>, f: Fields) {
    var end := LowerOps(ops, f).1;
    f.deferred <= end.deferred && ScratchInPlace(env, search, end) && AllStored(env, search, end.deferred[|f.deferred|..])
  }

  lemma PlacedAfterPlan(env: Env, search: string, ops: seq<TIROp>, f: Fields)
    requires Inside(ops) && Placed(env, search, ops, f) && PlanOf(ops).Some?
    ensures Inside(ops[PlanOf(ops).value.consumed..])
    ensures Placed(env, search, ops[PlanOf(ops).value.consumed..], WithScratch(f))
    ensures ScratchOf(WithScratch(f)) == search && HasSearch(env, search)
  {
    hide LowerOps, LowerOp, PlanOf, ShuffleCode, Fresh, WithScratch, Stored, HasSearch, Size, Pending, OpSize;
    ScratchStays(f);
    LowerByPlan(ops, f);
    BodyGrows(ops[PlanOf(ops).value.consumed..], WithScratch(f));
  }

  lemma PlacedAfterOp(env: Env, search: string, ops: seq<TIROp>, f: Fields)
    requires ops != [] && Inside(ops) && Placed(env, search, ops, f) && PlanOf(ops).None?
    ensures Inside(ops[1..]) && Placed(env, search, ops[1..], LowerOp(ops[0], f).1)
    ensures OpAs(env, search, ops[0], LowerOp(ops[0], f).0) && OpLength(ops[0], search) == |LowerOp(ops[0], f).0|
  {
    hide LowerOps, LowerOp, PlanOf, ShuffleCode, Fresh, WithScratch, Stored, OpAs, OpLength, HasSearch, Size, Pending, OpSize;
    var g := LowerOp(ops[0], f).1;
    LowerByOp(ops, f);
    OpInside(ops[0], f);
    BodyGrows(ops[1..], g);
    StoredSuffix(env, search, f.deferred, g.deferred, LowerOps(ops, f).1.deferred);
    OpIsLowered(env, search, ops[0], f);
  }

  lemma {:induction false} BodyIsLowered(env: Env, search: string, ops: seq<TIROp>, f: Fields)
    requires Inside(ops) && Placed(env, search, ops, f)
    ensures LoweredAs(env, search, ops, LowerOps(ops, f).0)
    decreases |ops|
  {
    if ops == [] {
      EmptyLowering(f);
      assert LoweredAs(env, search, [], []);
    } else {
      hide *;
      var plan := PlanOf(ops);
      if plan.Some? {
        var g := WithScratch(f);
        PlacedAfterPlan(env, search, ops, f);
        BodyIsLowered(env, search, ops[plan.value.consumed..], g);
        LowerByPlan(ops, f);
        PlanThenLowered(env, search, ops, LowerOps(ops[plan.value.consumed..], g).0);
      } else {
        var g := LowerOp(ops[0], f).1;
        PlacedAfterOp(env, search, ops, f);
        BodyIsLowered(env, search, ops[1..], g);
        LowerByOp(ops, f);
        OpThenLowered(env, search, ops, LowerOp(ops[0], f).0, LowerOps(ops[1..], g).0);
      }
    }
  }

  lemma EmptyLowering(f: Fields)
    ensures LowerOps([], f) == ([], f)
  {}

  lemma ScratchStays(f: Fields)
    ensures WithScratch(f).deferred == f.deferred && WithScratch(f).scratch.Some?
  {}

  // ----- what a body defers -----

  predicate BlocksStructured(blocks: seq<Deferred>, reach: nat) {
    forall k :: 0 <= k < |blocks| ==> AllStructured(blocks[k].ops, reach)
  }

  lemma OpDefers(op: TIROp, f: Fields, reach: nat)
    requires (op == TIROp.Return || Structured(op, reach)) && BlocksStructured(f.deferred, reach)
    ensures BlocksStructured(LowerOp(op, f).1.deferred, reach)
    ensures AllNative(LowerOp(op, f).0)
  {
    hide AccessCode, FlatCode, Fresh, Size, Pending, OpSize;
    var g := LowerOp(op, f).1;
    if op.Dup? || op.Swap? {
      AccessNative(op.d, op.Dup?, ScratchOf(g));
    } else if !op.IfElse? && !op.IfOnly? && !op.Loop? {
      FlatNative(op);
    }
  }

  lemma StructuredIsBody(ops: seq<TIROp>, reach: nat)
    requires AllStructured(ops, reach)
    ensures FunctionBody(ops, reach)
  {
    hide Structured;
  }

  lemma BodyIsInside(ops: seq<TIROp>, reach: nat)
    requires FunctionBody(ops, reach)
    ensures Inside(ops)
  {
    forall k | 0 <= k < |ops| ensures !ops[k].FnStart? && !ops[k].FnEnd? && !ops[k].Entry? {
      assert ops[k] == TIROp.Return || Structured(ops[k], reach);
    }
  }

  lemma BodyTail(ops: seq<TIROp>, k: nat, reach: nat)
    requires FunctionBody(ops, reach) && k <= |ops|
    ensures FunctionBody(ops[k..], reach)
  {
    hide Structured;
    forall i | 0 <= i < |ops[k..]| ensures ops[k..][i] == TIROp.Return || Structured(ops[k..][i], reach) {
      assert ops[k..][i] == ops[k + i];
    }
  }

  lemma {:induction false} BodyDefers(ops: seq<TIROp>, f: Fields, reach: nat)
    requires FunctionBody(ops, reach) && BlocksStructured(f.deferred, reach)
    ensures Inside(ops)
    ensures BlocksStructured(LowerOps(ops, f).1.deferred, reach)
    ensures AllNative(LowerOps(ops, f).0)
    decreases |ops|
  {
    BodyIsInside(ops, reach);
    if ops != [] {
      hide LowerOps, LowerOp, PlanOf, ShuffleCode, WithScratch, Size, Pending, OpSize, BlocksStructured, Structured, AllNative, Inside;
      var plan := PlanOf(ops);
      if plan.Some? {
        var g := WithScratch(f);
        ScratchStays(f);
        LowerByPlan(ops, f);
        BodyTail(ops, plan.value.consumed, reach);
        KeepsBlocks(f.deferred, g.deferred, reach);
        hide FunctionBody;
        BodyDefers(ops[plan.value.consumed..], g, reach);
        var front := ShuffleCode(plan.value.width, plan.value.order, ScratchOf(g));
        ShuffleNative(plan.value.width, plan.value.order, ScratchOf(g));
        NativeCat(front, LowerOps(ops[plan.value.consumed..], g).0);
      } else {
        LowerByOp(ops, f);
        OpDefers(ops[0], f, reach);
        BodyTail(ops, 1, reach);
        hide FunctionBody;
        BodyDefers(ops[1..], LowerOp(ops[0], f).1, reach);
        NativeCat(LowerOp(ops[0], f).0, LowerOps(ops[1..], LowerOp(ops[0], f).1).0);
      }
    } else {
      EmptyLowering(f);
    }
  }

  lemma KeepsBlocks(a: seq<Deferred>, b: seq<Deferred>, reach: nat)
    requires a == b && BlocksStructured(a, reach)
    ensures BlocksStructured(b, reach)
  {}

  // ----- deferred blocks -----

  /** The block that a deferred body becomes. */
  function BlockOf(d: Deferred, f: Fields): Block {
    Block(d.name, BlockHead(d) + LowerOps(d.ops, f).0 + BlockEnd(d))
  }

  lemma LoweredBlock(d: Deferred, f: Fields, reach: nat)
    requires AllStructured(d.ops, reach) && BlocksStructured(f.deferred, reach)
    ensures var r := LowerBlock(d, f);
      && StartsBlock(r.0) && r.0 != [] && Blocks(r.0) == [BlockOf(d, f)]
      && r.1 == LowerOps(d.ops, f).1
      && BlocksStructured(r.1.deferred, reach) && f.deferred <= r.1.deferred
      && (f.scratch.Some? ==> r.1.scratch == f.scratch)
  {
    hide LowerOps, Size, Pending, OpSize, AllStructured, Blocks;
    StructuredIsBody(d.ops, reach);
    BodyDefers(d.ops, f, reach);
    BodyGrows(d.ops, f);
    var body := LowerOps(d.ops, f).0;
    NativeCat(BlockHead(d), body);
    NativeCat(BlockHead(d) + body, BlockEnd(d));
    NativeIsLabelFree(BlockOf(d, f).code);
    BlocksOne(d.name, BlockOf(d, f).code);
  }

  lemma NativeIsLabelFree(code: seq<Instr>)
    requires AllNative(code)
    ensures NoLabels(code)
  {}

  /** A block is in place in an environment: its code is stored under its name, possibly with the closing halt. */
  ghost predicate InPlace(env: Env, b: Block) {
    b.name in env && (env[b.name] == b.code || env[b.name] == b.code + [Instr.Halt])
  }

  ghost predicate AllInPlace(env: Env, blocks: seq<Block>) {
    forall k :: 0 <= k < |blocks| ==> InPlace(env, blocks[k])
  }

  lemma InPlaceCat(env: Env, a: seq<Block>, b: seq<Block>)
    requires AllInPlace(env, a + b)
    ensures AllInPlace(env, a) && AllInPlace(env, b)
  {
    forall k | 0 <= k < |a| ensures InPlace(env, a[k]) { assert (a + b)[k] == a[k]; }
    forall k | 0 <= k < |b| ensures InPlace(env, b[k]) { assert (a + b)[|a| + k] == b[k]; }
  }

  /** A block in place, whose inside stands for the deferred body, is what calling it needs. */
  lemma StoredFrom(env: Env, search: string, d: Deferred, body: seq<Instr>)
    requires InPlace(env, Block(d.name, BlockHead(d) + body + BlockEnd(d))) && LoweredAs(env, search, d.ops, body)
    ensures Stored(env, search, d)
  {
    hide LoweredAs, LoopHead;
    var code := BlockHead(d) + body + BlockEnd(d);
    var end := BlockEnd(d);
    assert code[|code| - 1] == end[|end| - 1];
    assert (code + [Instr.Halt])[..|code|] == code;
    assert Core(env[d.name]) == code;
    assert code[|BlockHead(d)|..|code| - |end|] == body;
  }

  lemma {:induction false} RoundShape(blocks: seq<Deferred>, f: Fields, reach: nat)
    requires BlocksStructured(blocks, reach) && BlocksStructured(f.deferred, reach)
    ensures var r := LowerBlocks(blocks, f);
      && StartsBlock(r.0) && BlocksStructured(r.1.deferred, reach) && f.deferred <= r.1.deferred
      && (f.scratch.Some? ==> r.1.scratch == f.scratch)
    decreases |blocks|
  {
    hide LowerBlock, Size, Pending, OpSize, AllStructured, Blocks;
    if blocks != [] {
      LoweredBlock(blocks[0], f, reach);
      RoundShape(blocks[1..], LowerBlock(blocks[0], f).1, reach);
    }
  }

  /** After a round whose blocks are in place, and whose own deferred blocks are stored, its blocks are stored. */
  lemma {:induction false} RoundStores(env: Env, search: string, reach: nat, blocks: seq<Deferred>, f: Fields)
    requires BlocksStructured(blocks, reach) && BlocksStructured(f.deferred, reach)
    requires f.deferred <= LowerBlocks(blocks, f).1.deferred
    requires AllInPlace(env, Blocks(LowerBlocks(blocks, f).0))
    requires ScratchInPlace(env, search, LowerBlocks(blocks, f).1)
    requires AllStored(env, search, LowerBlocks(blocks, f).1.deferred[|f.deferred|..])
    ensures AllStored(env, search, blocks)
    decreases |blocks|
  {
    hide LowerBlock, LowerOps, Size, Pending, OpSize, AllStructured, Blocks, Stored, InPlace, LoweredAs, HasSearch;
    if blocks != [] {
      var d := blocks[0];
      var first := LowerBlock(d, f);
      var rest := LowerBlocks(blocks[1..], first.1);
      LoweredBlock(d, f, reach);
      RoundShape(blocks[1..], first.1, reach);
      BlocksCat(first.0, rest.0);
      InPlaceCat(env, Blocks(first.0), Blocks(rest.0));
      StoredSuffix(env, search, f.deferred, first.1.deferred, rest.1.deferred);
      RoundStores(env, search, reach, blocks[1..], first.1);
      StructuredIsBody(d.ops, reach);
      BodyDefers(d.ops, f, reach);
      BodyIsLowered(env, search, d.ops, f);
      assert InPlace(env, Blocks(first.0)[0]);
      StoredFrom(env, search, d, LowerOps(d.ops, f).0);
    }
  }

  /** Once the blocks of a flush are in place, every deferred block is stored, with all that it defers in turn. */
  lemma {:induction false} FlushStores(env: Env, search: string, reach: nat, f: Fields)
    requires BlocksStructured(f.deferred, reach)
    requires AllInPlace(env, Blocks(Flush(f).0)) && ScratchInPlace(env, search, Flush(f).1)
    ensures AllStored(env, search, f.deferred)
    decreases Pending(f.deferred)
  {
    FlushShape(f, reach);
    if f.deferred != [] {
      hide LowerBlocks, AllStructured, Blocks, Stored, InPlace, HasSearch, Size;
      var f0 := f.(deferred := []);
      var round := LowerBlocks(f.deferred, f0);
      RoundShape(f.deferred, f0, reach);
      FlushShape(round.1, reach);
      BlocksCat(round.0, Flush(round.1).0);
      InPlaceCat(env, Blocks(round.0), Blocks(Flush(round.1).0));
      FlushStores(env, search, reach, round.1);
      assert round.1.deferred[0..] == round.1.deferred;
      RoundStores(env, search, reach, f.deferred, f0);
    }
  }

  lemma {:induction false} FlushShape(f: Fields, reach: nat)
    requires BlocksStructured(f.deferred, reach)
    ensures StartsBlock(Flush(f).0)
    ensures f.scratch.Some? ==> Flush(f).1.scratch == f.scratch
    decreases Pending(f.deferred)
  {
    if f.deferred != [] {
      hide LowerBlocks, AllStructured, Size;
      var f0 := f.(deferred := []);
      RoundShape(f.deferred, f0, reach);
      FlushShape(LowerBlocks(f.deferred, f0).1, reach);
    }
  }
}
