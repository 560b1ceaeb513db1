/** The names in a lowered module: those that the source chooses, and those that the lowering draws serial numbers for. */
module Naming {
  import opened Words
  import opened Machine
  import opened Control
  import opened Legalize
  import opened Tir
  import opened Sequence
  import opened Shuffling
  import opened Lowering
  import opened Simulation
  import opened Listing
  import opened ModuleLowering
  import opened Compilation

  // ----- the names that the source chooses -----

  function OpLoopNames(op: TIROp): seq<string>
    decreases op
  {
    match op
    case IfElse(t, e) => LoopNames(t) + LoopNames(e)
    case IfOnly(b) => LoopNames(b)
    case Loop(name, b) => [LabelOf(name)] + LoopNames(b)
    case _ => []
  }

  /** The labels of all loops inside, however deep. */
  function LoopNames(ops: seq<TIROp>): seq<string>
    decreases ops
  {
    if ops == [] then [] else OpLoopNames(ops[0]) + LoopNames(ops[1..])
  }

  /** The labels of a module's functions and of the loops in their bodies. */
  function SourceNames(fns: seq<Function>): seq<string> {
    if fns == [] then [] else [LabelOf(fns[0].name)] + LoopNames(fns[0].body) + SourceNames(fns[1..])
  }

  // ----- the serial numbers that the lowering draws -----

  /** The last serial number drawn, and the one that the scratch search got. */
  datatype Draws = Draws(counter: nat, scratch: Option<nat>)

  const NoDraws := Draws(0, None)

  function WithSearch(d: Draws): Draws {
    if d.scratch.Some? then d else Draws(d.counter + 1, Some(d.counter + 1))
  }

  function OpDraws(op: TIROp, d: Draws): Draws {
    match op
    case IfElse(_, _) => d.(counter := d.counter + 2)
    case IfOnly(_) => d.(counter := d.counter + 1)
    case _ => if IsDeep(op) then WithSearch(d) else d
  }

  /** The blocks that an operation leaves for later: branches under drawn names, loops under their own. */
  function OpMarks(op: TIROp, d: Draws): seq<Deferred> {
    match op
    case IfElse(t, e) =>
      [Deferred(Fresh("then", d.counter + 1), t, true, false)] + [Deferred(Fresh("else", d.counter + 2), e, false, false)]
    case IfOnly(b) => [Deferred(Fresh("then", d.counter + 1), b, false, false)]
    case Loop(name, b) => [Deferred(LabelOf(name), b, false, true)]
    case _ => []
  }

  lemma OpMarksLess(op: TIROp, d: Draws)
    ensures Pending(OpMarks(op, d)) < OpSize(op)
  {
    hide Fresh, LabelOf, Size;
    if op.IfElse? {
      PendingOne([], OpMarks(op, d)[0]);
      PendingOne([OpMarks(op, d)[0]], OpMarks(op, d)[1]);
    }
  }

  function BodyDraws(ops: seq<TIROp>, d: Draws): Draws
    decreases |ops|
  {
    if ops == [] then d else BodyDraws(ops[1..], OpDraws(ops[0], d))
  }

  function BodyMarks(ops: seq<TIROp>, d: Draws): (marks: seq<Deferred>)
    ensures Pending(marks) <= Size(ops)
    decreases |ops|
  {
    if ops == [] then [] else
    OpMarksLess(ops[0], d);
    PendingCat(OpMarks(ops[0], d), BodyMarks(ops[1..], OpDraws(ops[0], d)));
    OpMarks(ops[0], d) + BodyMarks(ops[1..], OpDraws(ops[0], d))
  }

  function RoundDraws(blocks: seq<Deferred>, d: Draws): Draws
    decreases |blocks|
  {
    if blocks == [] then d else RoundDraws(blocks[1..], BodyDraws(blocks[0].ops, d))
  }

  function RoundMarks(blocks: seq<Deferred>, d: Draws): (marks: seq<Deferred>)
    ensures Pending(marks) + |blocks| <= Pending(blocks)
    decreases |blocks|
  {
    if blocks == [] then [] else
    PendingCat(BodyMarks(blocks[0].ops, d), RoundMarks(blocks[1..], BodyDraws(blocks[0].ops, d)));
    BodyMarks(blocks[0].ops, d) + RoundMarks(blocks[1..], BodyDraws(blocks[0].ops, d))
  }

  function FlushDraws(blocks: seq<Deferred>, d: Draws): Draws
    decreases Pending(blocks)
  {
    if blocks == [] then d else FlushDraws(RoundMarks(blocks, d), RoundDraws(blocks, d))
  }

  /** The blocks of a flush in the order of the listing: round by round. */
  function FlushMarks(blocks: seq<Deferred>, d: Draws): seq<Deferred>
    decreases Pending(blocks)
  {
    if blocks == [] then [] else blocks + FlushMarks(RoundMarks(blocks, d), RoundDraws(blocks, d))
  }

  function FunctionDraws(fn: Function, d: Draws): Draws {
    FlushDraws(BodyMarks(fn.body, d), BodyDraws(fn.body, d))
  }

  function FunctionMarks(fn: Function, d: Draws): seq<Deferred> {
    FlushMarks(BodyMarks(fn.body, d), BodyDraws(fn.body, d))
  }

  function ModuleDraws(fns: seq<Function>, d: Draws): Draws
    decreases |fns|
  {
    if fns == [] then d else ModuleDraws(fns[1..], FunctionDraws(fns[0], d))
  }

  function OwnMark(fn: Function): Deferred {
    Deferred(LabelOf(fn.name), fn.body, false, true)
  }

  /** The blocks of a module in listing order; functions and loops count as named by the source. */
  function ModuleMarks(fns: seq<Function>, d: Draws): seq<Deferred>
    decreases |fns|
  {
    if fns == [] then [] else [OwnMark(fns[0])] + (FunctionMarks(fns[0], d) + ModuleMarks(fns[1..], FunctionDraws(fns[0], d)))
  }

  // ----- the lowering draws and defers just that -----

  /** The lowering's counter and scratch label are those drawn. */
  predicate Follows(f: Fields, d: Draws) {
    f.counter == d.counter
    && f.scratch == if d.scratch.Some? then Some(Fresh("stack_scratch", d.scratch.value)) else None
  }

  lemma SearchFollows(f: Fields, d: Draws)
    requires Follows(f, d)
    ensures Follows(WithScratch(f), WithSearch(d))
  {
    hide Fresh;
  }

  lemma OpFields(op: TIROp, f: Fields)
    requires !op.FnStart? && !op.FnEnd? && !op.Entry?
    ensures LowerOp(op, f).1
         == if op.IfElse? then DeferIfElse(op, f) else if op.IfOnly? then DeferIfOnly(op, f) else if op.Loop? then DeferLoop(op, f)
            else if IsDeep(op) then WithScratch(f) else f
  {
    hide AccessCode, FlatCode, Fresh, LabelOf, Size, Pending, OpSize, WithScratch, DeferIfElse, DeferIfOnly, DeferLoop, IfElseCode, IfOnlyCode;
  }

  lemma OpFollows(op: TIROp, f: Fields, d: Draws)
    requires !op.FnStart? && !op.FnEnd? && !op.Entry? && Follows(f, d)
    ensures var g := LowerOp(op, f).1; Follows(g, OpDraws(op, d)) && g.deferred == f.deferred + OpMarks(op, d)
  {
    hide LowerOp, Fresh, LabelOf, Follows, WithScratch, WithSearch, DeferIfElse, DeferIfOnly, DeferLoop;
    OpFields(op, f);
    if op.IfElse? || op.IfOnly? || op.Loop? {
      BlocksFollow(op, f, d);
    } else {
      SearchFollows(f, d);
      ScratchStays(f);
      assert f.deferred + [] == f.deferred;
    }
  }

  lemma BlocksFollow(op: TIROp, f: Fields, d: Draws)
    requires Follows(f, d)
    ensures op.IfElse? ==> Follows(DeferIfElse(op, f), OpDraws(op, d)) && DeferIfElse(op, f).deferred == f.deferred + OpMarks(op, d)
    ensures op.IfOnly? ==> Follows(DeferIfOnly(op, f), OpDraws(op, d)) && DeferIfOnly(op, f).deferred == f.deferred + OpMarks(op, d)
    ensures op.Loop? ==> Follows(DeferLoop(op, f), OpDraws(op, d)) && DeferLoop(op, f).deferred == f.deferred + OpMarks(op, d)
  {
    hide Fresh, LabelOf;
    if op.IfElse? {
      Assoc(f.deferred, [OpMarks(op, d)[0]], [OpMarks(op, d)[1]]);
    }
  }

  lemma {:induction false} BodyDrawsCat(a: seq<TIROp>, b: seq<TIROp>, d: Draws)
    ensures BodyDraws(a + b, d) == BodyDraws(b, BodyDraws(a, d))
    ensures BodyMarks(a + b, d) == BodyMarks(a, d) + BodyMarks(b, BodyDraws(a, d))
    decreases |a|
  {
    hide OpMarks, OpDraws, Pending, Size, OpSize;
    if a == [] {
      assert a + b == b;
      assert [] + BodyMarks(b, d) == BodyMarks(b, d);
    } else {
      assert (a + b)[0] == a[0] && (a + b)[1..] == a[1..] + b;
      var e := OpDraws(a[0], d);
      BodyDrawsCat(a[1..], b, e);
      Assoc(OpMarks(a[0], d), BodyMarks(a[1..], e), BodyMarks(b, BodyDraws(a[1..], e)));
    }
  }

  lemma StackOpDraws(op: TIROp, d: Draws)
    requires IsStackOp(op)
    ensures OpMarks(op, d) == [] && OpDraws(op, d) == if IsDeep(op) then WithSearch(d) else d
    ensures WithSearch(WithSearch(d)) == WithSearch(d)
  {}

  /** A run of stack operations defers nothing, and draws a number at most for the search. */
  lemma {:induction false} StackRunDraws(ops: seq<TIROp>, d: Draws)
    requires AllStackOps(ops)
    ensures BodyMarks(ops, d) == [] && (BodyDraws(ops, d) == d || BodyDraws(ops, d) == WithSearch(d))
    decreases |ops|
  {
    hide OpMarks, OpDraws, Pending, Size, OpSize, WithSearch;
    if ops != [] {
      StackOpDraws(ops[0], d);
      StackRunDraws(ops[1..], OpDraws(ops[0], d));
      StackOpDraws(ops[0], WithSearch(d));
    }
  }

  /** With a deep access in it, it does draw one. */
  lemma {:induction false} DeepRunDraws(ops: seq<TIROp>, i: nat, d: Draws)
    requires AllStackOps(ops) && i < |ops| && IsDeep(ops[i])
    ensures BodyDraws(ops, d) == WithSearch(d)
    decreases |ops|
  {
    hide OpMarks, OpDraws, Pending, Size, OpSize, WithSearch;
    StackOpDraws(ops[0], d);
    if i > 0 {
      DeepRunDraws(ops[1..], i - 1, OpDraws(ops[0], d));
    } else {
      StackRunDraws(ops[1..], WithSearch(d));
    }
  }

  lemma PlanDraws(ops: seq<TIROp>, d: Draws)
    requires PlanOf(ops).Some?
    ensures var k := PlanOf(ops).value.consumed;
      BodyDraws(ops, d) == BodyDraws(ops[k..], WithSearch(d)) && BodyMarks(ops, d) == BodyMarks(ops[k..], WithSearch(d))
  {
    hide FollowAll, ShuffleCode, Measure, BodyDraws, BodyMarks, WithSearch;
    DeepRun(ops, Start);
    var k := PlanOf(ops).value.consumed;
    var run, rest := ops[..k], ops[k..];
    assert ops == run + rest;
    var i :| 0 <= i < k && IsDeep(ops[i]);
    BodyDrawsCat(run, rest, d);
    StackRunDraws(run, d);
    DeepRunDraws(run, i, d);
    assert [] + BodyMarks(rest, WithSearch(d)) == BodyMarks(rest, WithSearch(d));
  }

  lemma {:induction false} BodyFollows(ops: seq<TIROp>, f: Fields, d: Draws)
    requires Inside(ops) && Follows(f, d)
    ensures var g := LowerOps(ops, f).1; Follows(g, BodyDraws(ops, d)) && g.deferred == f.deferred + BodyMarks(ops, d)
    decreases |ops|
  {
    hide LowerOps, LowerOp, PlanOf, ShuffleCode, WithScratch, WithSearch, Size, Pending, OpSize, OpMarks, OpDraws, Follows;
    if ops == [] {
      EmptyLowering(f);
      assert f.deferred + [] == f.deferred;
    } else if PlanOf(ops).Some? {
      var k := PlanOf(ops).value.consumed;
      SearchFollows(f, d);
      ScratchStays(f);
      BodyFollows(ops[k..], WithScratch(f), WithSearch(d));
      LowerByPlan(ops, f);
      PlanDraws(ops, d);
    } else {
      var g := LowerOp(ops[0], f).1;
      OpFollows(ops[0], f, d);
      BodyFollows(ops[1..], g, OpDraws(ops[0], d));
      LowerByOp(ops, f);
      Assoc(f.deferred, OpMarks(ops[0], d), BodyMarks(ops[1..], OpDraws(ops[0], d)));
    }
  }

  lemma {:induction false} RoundFollows(blocks: seq<Deferred>, f: Fields, d: Draws, reach: nat)
    requires BlocksStructured(blocks, reach) && Follows(f, d)
    ensures var g := LowerBlocks(blocks, f).1; Follows(g, RoundDraws(blocks, d)) && g.deferred == f.deferred + RoundMarks(blocks, d)
    decreases |blocks|
  {
    hide LowerOps, Size, Pending, OpSize, AllStructured, Follows, BodyDraws, BodyMarks;
    if blocks == [] {
      assert f.deferred + [] == f.deferred;
    } else {
      var first := blocks[0];
      StructuredIsBody(first.ops, reach);
      BodyIsInside(first.ops, reach);
      BodyFollows(first.ops, f, d);
      RoundFollows(blocks[1..], LowerBlock(first, f).1, BodyDraws(first.ops, d), reach);
      Assoc(f.deferred, BodyMarks(first.ops, d), RoundMarks(blocks[1..], BodyDraws(first.ops, d)));
    }
  }

  /** The labels of blocks, and of deferred bodies, in order. */
  function BlockNames(blocks: seq<Block>): (r: seq<string>)
    ensures |r| == |blocks|
  {
    seq(|blocks|, i requires 0 <= i < |blocks| => blocks[i].name)
  }

  function Names(blocks: seq<Deferred>): (r: seq<string>)
    ensures |r| == |blocks|
  {
    seq(|blocks|, i requires 0 <= i < |blocks| => blocks[i].name)
  }

  lemma NoNames()
    ensures BlockNames(Blocks([])) == Names([])
  {}

  lemma OneName(b: Block, d: Deferred)
    requires b.name == d.name
    ensures BlockNames([b]) == Names([d])
  {}

  lemma NamesCat(a: seq<Deferred>, b: seq<Deferred>)
    ensures Names(a + b) == Names(a) + Names(b)
  {}

  lemma BlockNamesCat(a: seq<Block>, b: seq<Block>)
    ensures BlockNames(a + b) == BlockNames(a) + BlockNames(b)
  {}

  lemma {:induction false} RoundNames(blocks: seq<Deferred>, f: Fields, reach: nat)
    requires BlocksStructured(blocks, reach) && BlocksStructured(f.deferred, reach)
    ensures BlockNames(Blocks(LowerBlocks(blocks, f).0)) == Names(blocks)
    decreases |blocks|
  {
    if blocks == [] {
      NoNames();
    } else {
      hide LowerBlock, LowerOps, Size, Pending, OpSize, AllStructured, Blocks, Names, BlockNames;
      var first := LowerBlock(blocks[0], f);
      LoweredBlock(blocks[0], f, reach);
      RoundShape(blocks[1..], first.1, reach);
      BlocksCat(first.0, LowerBlocks(blocks[1..], first.1).0);
      RoundNames(blocks[1..], first.1, reach);
      OneName(BlockOf(blocks[0], f), blocks[0]);
      BlockNamesCat([BlockOf(blocks[0], f)], Blocks(LowerBlocks(blocks[1..], first.1).0));
      NamesCat([blocks[0]], blocks[1..]);
      assert [blocks[0]] + blocks[1..] == blocks;
    }
  }

  /** The blocks of a flush carry the marked names, in order. */
  lemma {:induction false} FlushNames(f: Fields, d: Draws, reach: nat)
    requires BlocksStructured(f.deferred, reach) && Follows(f, d)
    ensures BlockNames(Blocks(Flush(f).0)) == Names(FlushMarks(f.deferred, d))
    ensures Follows(Flush(f).1, FlushDraws(f.deferred, d))
    decreases Pending(f.deferred)
  {
    if f.deferred == [] {
      assert Blocks([]) == [];
    } else {
      hide LowerBlocks, AllStructured, Blocks, Size, Names, BlockNames, RoundMarks, RoundDraws;
      var f0 := f.(deferred := []);
      var round := LowerBlocks(f.deferred, f0);
      RoundShape(f.deferred, f0, reach);
      RoundNames(f.deferred, f0, reach);
      RoundFollows(f.deferred, f0, d, reach);
      assert [] + RoundMarks(f.deferred, d) == RoundMarks(f.deferred, d);
      FlushShape(round.1, reach);
      BlocksCat(round.0, Flush(round.1).0);
      FlushNames(round.1, RoundDraws(f.deferred, d), reach);
      BlockNamesCat(Blocks(round.0), Blocks(Flush(round.1).0));
      NamesCat(f.deferred, FlushMarks(round.1.deferred, RoundDraws(f.deferred, d)));
    }
  }

  /** The blocks of a module's functions carry the marked names, in order. */
  lemma {:induction false} ModuleNames(fns: seq<Function>, f: Fields, d: Draws, reach: nat)
    requires AllBodies(fns, reach) && f.deferred == [] && Follows(f, d)
    ensures BlockNames(Blocks(LowerOps(FunctionsOps(fns), f).0)) == Names(ModuleMarks(fns, d))
    ensures Follows(LowerOps(FunctionsOps(fns), f).1, ModuleDraws(fns, d))
    decreases |fns|
  {
    if fns == [] {
      EmptyLowering(f);
      assert Blocks([]) == [];
    } else {
      hide LowerOps, Size, Pending, OpSize, Flush, LabelOf, FunctionBody, Blocks, Names, BlockNames, BodyMarks, BodyDraws, FlushMarks, FlushDraws, Follows;
      var fn := fns[0];
      var body := LowerOps(fn.body, f);
      var flush := Flush(body.1);
      var after := LowerOps(FunctionsOps(fns[1..]), flush.1);
      BodyIsInside(fn.body, reach);
      BodyDefers(fn.body, f, reach);
      BodyFollows(fn.body, f, d);
      assert [] + BodyMarks(fn.body, d) == BodyMarks(fn.body, d);
      FlushShape(body.1, reach);
      FlushNames(body.1, BodyDraws(fn.body, d), reach);
      FunctionsShape(fns[1..], flush.1, reach);
      FunctionLines(fn, FunctionsOps(fns[1..]), f, reach);
      FunctionBlocks(fn, f, after.0, reach);
      ModuleNames(fns[1..], flush.1, FunctionDraws(fn, d), reach);
      var own := Block(LabelOf(fn.name), body.0);
      BlockNamesCat(Blocks(flush.0), Blocks(after.0));
      BlockNamesCat([own], Blocks(flush.0) + Blocks(after.0));
      NamesCat(FunctionMarks(fn, d), ModuleMarks(fns[1..], FunctionDraws(fn, d)));
      NamesCat([OwnMark(fn)], FunctionMarks(fn, d) + ModuleMarks(fns[1..], FunctionDraws(fn, d)));
      OneName(own, OwnMark(fn));
    }
  }

  // ----- chosen and drawn names -----

  /** The names among the marks that the source chose. */
  function Chosen(marks: seq<Deferred>): seq<string> {
    if marks == [] then [] else (if marks[0].isLoop then [marks[0].name] else []) + Chosen(marks[1..])
  }

  /** The names among the marks that were drawn for branches. */
  function Drawn(marks: seq<Deferred>): seq<string> {
    if marks == [] then [] else (if marks[0].isLoop then [] else [marks[0].name]) + Drawn(marks[1..])
  }

  /** The loop names inside the marked blocks. */
  function Within(marks: seq<Deferred>): seq<string> {
    if marks == [] then [] else LoopNames(marks[0].ops) + Within(marks[1..])
  }

  lemma {:induction false} MarksCat(a: seq<Deferred>, b: seq<Deferred>)
    ensures Chosen(a + b) == Chosen(a) + Chosen(b)
    ensures Drawn(a + b) == Drawn(a) + Drawn(b)
    ensures Within(a + b) == Within(a) + Within(b)
    decreases |a|
  {
    hide LoopNames;
    if a == [] {
      assert a + b == b;
    } else {
      MarksCat(a[1..], b);
      assert (a + b)[0] == a[0] && (a + b)[1..] == a[1..] + b;
      MarksStart(a);
      MarksStart(a + b);
      hide Chosen, Drawn, Within;
      Assoc(if a[0].isLoop then [a[0].name] else [], Chosen(a[1..]), Chosen(b));
      Assoc(if a[0].isLoop then [] else [a[0].name], Drawn(a[1..]), Drawn(b));
      Assoc(LoopNames(a[0].ops), Within(a[1..]), Within(b));
    }
  }

  lemma MarksStart(a: seq<Deferred>)
    requires a != []
    ensures Chosen(a) == (if a[0].isLoop then [a[0].name] else []) + Chosen(a[1..])
    ensures Drawn(a) == (if a[0].isLoop then [] else [a[0].name]) + Drawn(a[1..])
    ensures Within(a) == LoopNames(a[0].ops) + Within(a[1..])
  {
    hide LoopNames;
  }

  lemma NamesStart(marks: seq<Deferred>)
    requires marks != []
    ensures Names(marks) == [marks[0].name] + Names(marks[1..])
  {}

  lemma NoMarks()
    ensures Chosen([]) == [] && Drawn([]) == [] && Within([]) == [] && Names([]) == []
  {}

  /** One block alone, and two. */
  lemma FewMarks(a: Deferred, b: Deferred)
    ensures Chosen([a]) == if a.isLoop then [a.name] else []
    ensures Drawn([a]) == if a.isLoop then [] else [a.name]
    ensures Within([a]) == LoopNames(a.ops)
    ensures Chosen([a] + [b]) == Chosen([a]) + Chosen([b])
    ensures Drawn([a] + [b]) == Drawn([a]) + Drawn([b])
    ensures Within([a] + [b]) == LoopNames(a.ops) + LoopNames(b.ops)
  {
    hide Chosen, Drawn, Within, LoopNames;
    NoMarks();
    MarksStart([a]);
    MarksStart([b]);
    MarksStart([a] + [b]);
    assert [a][1..] == [] && [b][1..] == [] && ([a] + [b])[1..] == [b];
  }

  lemma {:induction false} NamesAreBoth(marks: seq<Deferred>)
    ensures multiset(Names(marks)) == multiset(Chosen(marks)) + multiset(Drawn(marks))
    decreases |marks|
  {
    hide Chosen, Drawn, Within, Names;
    if marks == [] {
      NoMarks();
    } else {
      var name, rest := [marks[0].name], marks[1..];
      NamesAreBoth(rest);
      MarksStart(marks);
      NamesStart(marks);
      assert multiset(name + Names(rest)) == multiset(name) + multiset(Names(rest));
    }
  }

  lemma OpNames(op: TIROp, d: Draws)
    ensures Chosen(OpMarks(op, d)) + Within(OpMarks(op, d)) == OpLoopNames(op)
  {
    hide Fresh, LabelOf, LoopNames;
    var marks := OpMarks(op, d);
    NoMarks();
    if op.IfElse? {
      FewMarks(marks[0], marks[1]);
      assert marks == [marks[0]] + [marks[1]];
      assert Chosen(marks) == [];
    } else if op.IfOnly? || op.Loop? {
      FewMarks(marks[0], marks[0]);
      assert marks == [marks[0]];
    }
    assert [] + Within(marks) == Within(marks);
  }

  lemma {:induction false} BodyNames(ops: seq<TIROp>, d: Draws)
    ensures multiset(Chosen(BodyMarks(ops, d))) + multiset(Within(BodyMarks(ops, d))) == multiset(LoopNames(ops))
    decreases |ops|
  {
    if ops != [] {
      hide OpMarks, OpDraws, OpLoopNames, Pending, Size, OpSize, Chosen, Within;
      var first, rest := OpMarks(ops[0], d), BodyMarks(ops[1..], OpDraws(ops[0], d));
      OpNames(ops[0], d);
      BodyNames(ops[1..], OpDraws(ops[0], d));
      MarksCat(first, rest);
      assert multiset(Chosen(first) + Within(first)) == multiset(OpLoopNames(ops[0]));
    }
  }

  lemma {:induction false} RoundChosen(blocks: seq<Deferred>, d: Draws)
    ensures multiset(Chosen(RoundMarks(blocks, d))) + multiset(Within(RoundMarks(blocks, d))) == multiset(Within(blocks))
    decreases |blocks|
  {
    if blocks != [] {
      hide BodyMarks, BodyDraws, LoopNames, Pending, Size, Chosen;
      var first, rest := BodyMarks(blocks[0].ops, d), RoundMarks(blocks[1..], BodyDraws(blocks[0].ops, d));
      BodyNames(blocks[0].ops, d);
      RoundChosen(blocks[1..], BodyDraws(blocks[0].ops, d));
      MarksCat(first, rest);
      assert Within(blocks) == LoopNames(blocks[0].ops) + Within(blocks[1..]);
    }
  }

  lemma {:induction false} FlushChosen(blocks: seq<Deferred>, d: Draws)
    ensures multiset(Chosen(FlushMarks(blocks, d))) == multiset(Chosen(blocks)) + multiset(Within(blocks))
    decreases Pending(blocks)
  {
    if blocks != [] {
      hide RoundMarks, RoundDraws, LoopNames, Chosen, Within;
      var rest := RoundMarks(blocks, d);
      FlushChosen(rest, RoundDraws(blocks, d));
      RoundChosen(blocks, d);
      MarksCat(blocks, FlushMarks(rest, RoundDraws(blocks, d)));
    }
  }

  /** The names that the lowering takes from the source are the source's names, each as often as it occurs. */
  lemma {:induction false} ChosenAreSourceNames(fns: seq<Function>, d: Draws)
    ensures multiset(Chosen(ModuleMarks(fns, d))) == multiset(SourceNames(fns))
    decreases |fns|
  {
    if fns != [] {
      hide BodyMarks, BodyDraws, FlushMarks, FlushDraws, LoopNames, LabelOf;
      var own, marks := [OwnMark(fns[0])], FunctionMarks(fns[0], d);
      var rest := ModuleMarks(fns[1..], FunctionDraws(fns[0], d));
      FlushChosen(BodyMarks(fns[0].body, d), BodyDraws(fns[0].body, d));
      BodyNames(fns[0].body, d);
      ChosenAreSourceNames(fns[1..], FunctionDraws(fns[0], d));
      MarksCat(own, marks + rest);
      MarksCat(marks, rest);
      assert own[1..] == [] && Chosen(own) == [LabelOf(fns[0].name)];
    }
  }
}
