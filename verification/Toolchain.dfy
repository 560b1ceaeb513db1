/** From source modules to a linked program: lowered, prefixed, put together and pruned, they mean what they meant. */
module Toolchain {
  import opened Words
  import opened Machine
  import opened Control
  import opened Legalize
  import opened Tir
  import opened Lowering
  import opened Crowding
  import opened Simulation
  import opened SmallStep
  import opened Listing
  import opened ModuleLowering
  import opened Compilation
  import opened Labels
  import opened Linker
  import opened Leaving
  import opened Qualified
  import opened Marking
  import DeadCode
  import Naming

  /** A module of the source; the program has an entry. */
  datatype SourceModule = SourceModule(name: string, entry: Option<string>, fns: seq<Function>)

  function LowerSource(m: SourceModule): ModuleTasm {
    ModuleTasm(m.name, m.entry.Some?, LowerModule(ModuleOps(m.entry, m.fns)))
  }

  function LowerAll(sources: seq<SourceModule>): (r: seq<ModuleTasm>)
    ensures |r| == |sources|
  {
    seq(|sources|, i requires 0 <= i < |sources| => LowerSource(sources[i]))
  }

  function GlobalFns(prefix: string, fns: seq<Function>): (r: seq<Function>)
    ensures |r| == |fns|
  {
    seq(|fns|, i requires 0 <= i < |fns| => QualifyFunction(prefix, fns[i]))
  }

  /** All functions of all modules, with global names: one source to give the whole program its meaning. */
  function Joined(sources: seq<SourceModule>): seq<Function> {
    if sources == [] then [] else GlobalFns(MangleModule(sources[0].name), sources[0].fns) + Joined(sources[1..])
  }

  /** Closed, structured functions that return at their end, at least one of them. */
  predicate GoodSource(m: SourceModule, reach: nat) {
    m.fns != [] && AllBodies(m.fns, reach) && forall k :: 0 <= k < |m.fns| ==> ReturnsAtEnd(m.fns[k])
  }

  predicate GoodSources(sources: seq<SourceModule>, reach: nat) {
    forall j :: 0 <= j < |sources| ==> GoodSource(sources[j], reach)
  }

  /** The blocks of the whole program, before unreached ones are dropped. */
  function WholeBlocks(sources: seq<SourceModule>): seq<Block> {
    Blocks(AllMangled(LowerAll(sources)))
  }

  // ----- what prefixing makes of blocks -----

  function MangleBlock(b: Block, prefix: string): Block {
    Block(if Prefixed(b.name) then prefix + b.name[2..] else b.name, MangleLines(b.code, prefix))
  }

  function MangleBlocks(blocks: seq<Block>, prefix: string): (r: seq<Block>)
    ensures |r| == |blocks|
  {
    seq(|blocks|, i requires 0 <= i < |blocks| => MangleBlock(blocks[i], prefix))
  }

  lemma {:induction false} BlocksOfMangled(lines: seq<Instr>, prefix: string)
    ensures Blocks(MangleLines(lines, prefix)) == MangleBlocks(Blocks(lines), prefix)
    decreases |lines|
  {
    hide Until;
    if lines == [] {
      assert MangleLines([], prefix) == [];
    } else {
      MangleCons(lines, prefix);
      BlocksOfMangled(lines[1..], prefix);
      if lines[0].Label? {
        UntilMangled(lines[1..], prefix);
        var first := Block(lines[0].name, Until(lines[1..]));
        assert Blocks(lines) == [first] + Blocks(lines[1..]);
        assert MangleBlocks(Blocks(lines), prefix) == [MangleBlock(first, prefix)] + MangleBlocks(Blocks(lines[1..]), prefix);
      }
    }
  }

  lemma ModuleBlocksMangled(m: ModuleTasm)
    requires Leaves(m)
    ensures Blocks(Mangled(m.lines, MangleModule(m.name), m.isProgram)) == MangleBlocks(Blocks(m.lines), MangleModule(m.name))
  {
    hide Blocks, Until, MangleModule, MangleLines, MangleBlocks;
    AfterPrelude(m.lines);
    BlocksOfMangled(if m.isProgram then m.lines[|Until(m.lines)|..] else m.lines, MangleModule(m.name));
  }

  lemma DistinctParts(a: seq<Block>, b: seq<Block>)
    requires Distinct(a + b)
    ensures Distinct(a) && Distinct(b)
  {
    var both := a + b;
    forall i, j | 0 <= i < j < |a| ensures a[i].name != a[j].name { assert both[i].name != both[j].name; }
    forall i, j | 0 <= i < j < |b| ensures b[i].name != b[j].name { assert both[|a| + i].name != both[|a| + j].name; }
  }

  lemma DistinctBefore(blocks: seq<Block>, prefix: string)
    requires Distinct(MangleBlocks(blocks, prefix))
    ensures Distinct(blocks)
  {
    hide MangleLines;
    var mangled := MangleBlocks(blocks, prefix);
    forall i, j | 0 <= i < j < |blocks|
      ensures blocks[i].name != blocks[j].name
    {
      assert mangled[i].name != mangled[j].name;
    }
  }

  /** Every block of a module is in the whole program, under its global label. */
  lemma {:induction false} ModuleInWhole(modules: seq<ModuleTasm>, j: nat)
    requires (forall k :: 0 <= k < |modules| ==> Leaves(modules[k])) && j < |modules| && Distinct(Blocks(AllMangled(modules)))
    ensures Distinct(Blocks(modules[j].lines))
    ensures forall b :: b in Blocks(modules[j].lines) ==> MangleBlock(b, MangleModule(modules[j].name)) in Blocks(AllMangled(modules))
    decreases |modules|
  {
    hide Blocks, Mangled, MangleModule, Leaves, Distinct, MangleBlock;
    var prefix, own := MangleModule(modules[0].name), Blocks(modules[0].lines);
    var first := Mangled(modules[0].lines, prefix, modules[0].isProgram);
    ModuleLeaves(modules[0]);
    LinkedBlocksEnd(modules[1..]);
    BlocksCat(first, AllMangled(modules[1..]));
    DistinctParts(Blocks(first), Blocks(AllMangled(modules[1..])));
    ModuleBlocksMangled(modules[0]);
    if j == 0 {
      DistinctBefore(own, prefix);
      forall b | b in own
        ensures MangleBlock(b, prefix) in Blocks(first)
      {
        var i :| 0 <= i < |own| && own[i] == b;
        assert MangleBlocks(own, prefix)[i] == MangleBlock(b, prefix);
      }
    } else {
      ModuleInWhole(modules[1..], j - 1);
      assert modules[1..][j - 1] == modules[j];
    }
  }

  // ----- the labels of a lowered module -----

  lemma BranchPrefixed(name: string, serial: nat)
    ensures BranchLabel(name, serial) ==> Prefixed(name)
    ensures Prefixed(Fresh("stack_scratch", serial)) && Prefixed(ScanLabel(Fresh("stack_scratch", serial)))
  {
    hide Decimal;
    FreshParts(serial);
    assert "__then__"[..2] == "__" && "__else__"[..2] == "__" && "__stack_scratch__"[..2] == "__";
    var n := Decimal(serial);
    assert ("__then__" + n)[..2] == "__" && ("__else__" + n)[..2] == "__" && ("__stack_scratch__" + n)[..2] == "__";
    assert ("__stack_scratch__" + n + "__scan")[..2] == "__";
  }

  lemma LabelIsPrefixed(name: string)
    ensures Prefixed(LabelOf(name))
  {
    assert ("__" + name)[..2] == "__";
  }

  lemma {:induction false} OpLoopNamesPrefixed(op: TIROp, name: string)
    ensures name in Naming.OpLoopNames(op) ==> Prefixed(name)
    decreases op
  {
    hide Prefixed, LabelOf;
    match op
    case IfElse(t, e) =>
      LoopNamesPrefixed(t, name);
      LoopNamesPrefixed(e, name);
    case IfOnly(b) => LoopNamesPrefixed(b, name);
    case Loop(l, b) =>
      LabelIsPrefixed(l);
      LoopNamesPrefixed(b, name);
    case _ =>
  }

  lemma {:induction false} LoopNamesPrefixed(ops: seq<TIROp>, name: string)
    ensures name in Naming.LoopNames(ops) ==> Prefixed(name)
    decreases ops
  {
    hide Prefixed, LabelOf, Naming.OpLoopNames;
    if ops != [] {
      OpLoopNamesPrefixed(ops[0], name);
      LoopNamesPrefixed(ops[1..], name);
    }
  }

  lemma {:induction false} SourceNamesPrefixed(fns: seq<Function>, name: string)
    ensures name in Naming.SourceNames(fns) ==> Prefixed(name)
    decreases |fns|
  {
    hide Prefixed, LabelOf, Naming.LoopNames;
    if fns != [] {
      LabelIsPrefixed(fns[0].name);
      LoopNamesPrefixed(fns[0].body, name);
      SourceNamesPrefixed(fns[1..], name);
    }
  }

  lemma GeneratedPrefixed(fns: seq<Function>, name: string)
    ensures name in Generated(fns) ==> Prefixed(name)
  {
    hide Prefixed, Rising, BranchLabel, Fresh, ScanLabel, Naming.ModuleMarks, Naming.ModuleDraws, Naming.Drawn;
    var names, d := Naming.Drawn(Naming.ModuleMarks(fns, Naming.NoDraws)), Naming.ModuleDraws(fns, Naming.NoDraws);
    ModuleRising(fns, Naming.NoDraws);
    if name in names {
      var i :| 0 <= i < |names| && names[i] == name;
      RisingAbove(names, 0, d.counter, i);
      var k :| 0 < k <= d.counter && BranchLabel(name, k);
      BranchPrefixed(name, k);
    }
    if d.scratch.Some? {
      BranchPrefixed(name, d.scratch.value);
    }
  }

  /** Every label of a lowered module starts with two underscores. */
  lemma LabelsPrefixed(entry: Option<string>, fns: seq<Function>, reach: nat, b: Block)
    requires AllBodies(fns, reach) && b in Blocks(LowerModule(ModuleOps(entry, fns)))
    ensures Prefixed(b.name)
  {
    hide Prefixed, LowerModule, Blocks, Generated, FunctionBody, Naming.SourceNames;
    var blocks := Blocks(LowerModule(ModuleOps(entry, fns)));
    var i :| 0 <= i < |blocks| && blocks[i] == b;
    ModuleLabels(entry, fns, reach);
    var names := Naming.BlockNames(blocks);
    assert names[i] == b.name;
    assert b.name in multiset(Naming.SourceNames(fns) + Generated(fns)) by { assert b.name in multiset(names); }
    SourceNamesPrefixed(fns, b.name);
    GeneratedPrefixed(fns, b.name);
  }

  // ----- a module inside the whole program -----

  lemma MarkedMangled(code: seq<Instr>, prefix: string)
    requires NoLabels(code)
    ensures MarkCode(MangleLines(code, prefix)) == RetargetAll(prefix, code)
  {
    hide Prefixed;
    forall k | 0 <= k < |code|
      ensures Mark(MangleLine(code[k], prefix)) == Retarget(prefix, code[k])
    {}
  }

  lemma GlobalOfPrefixed(prefix: string, l: string)
    requires Prefixed(l)
    ensures GlobalLabel(prefix, l) == prefix + l[2..]
  {
    assert l[..2][0] == '_';
  }

  lemma BlockEmbeds(whole: seq<Block>, prefix: string, b: Block)
    requires Distinct(whole) && MangleBlock(b, prefix) in whole && Prefixed(b.name) && NoLabels(b.code)
    ensures var marked := EnvOf(MarkBlocks(whole));
      GlobalName(prefix, b.name) in marked && marked[GlobalName(prefix, b.name)] == RetargetAll(prefix, b.code)
  {
    hide EnvOf, Prefixed, NoLabels, RetargetAll, MangleLines, MarkCode;
    var m := MangleBlock(b, prefix);
    var i :| 0 <= i < |whole| && whole[i] == m;
    EnvHas(whole, i);
    MarkedEnv(whole);
    GlobalOfPrefixed(prefix, b.name);
    MarkedMangled(b.code, prefix);
  }

  lemma ModuleEmbeds(blocks: seq<Block>, whole: seq<Block>, prefix: string)
    requires Distinct(whole) && forall b :: b in blocks ==> MangleBlock(b, prefix) in whole && Prefixed(b.name) && NoLabels(b.code)
    ensures Embeds(EnvOf(blocks), EnvOf(MarkBlocks(whole)), prefix)
  {
    hide Prefixed, NoLabels, RetargetAll, GlobalName, MangleBlock, Distinct, EnvOf;
    forall l | l in EnvOf(blocks)
      ensures Prefixed(l) && GlobalName(prefix, l) in EnvOf(MarkBlocks(whole))
      ensures EnvOf(MarkBlocks(whole))[GlobalName(prefix, l)] == RetargetAll(prefix, EnvOf(blocks)[l])
    {
      EnvIsFound(blocks, l);
      var b := blocks[Find(blocks, l).value];
      assert b in blocks;
      BlockEmbeds(whole, prefix, b);
    }
  }

  lemma SourcesLeave(sources: seq<SourceModule>, reach: nat)
    requires GoodSources(sources, reach)
    ensures forall j :: 0 <= j < |sources| ==> Leaves(LowerAll(sources)[j])
  {
    hide Leaves, AllBodies, ReturnsAtEnd;
    forall j | 0 <= j < |sources|
      ensures Leaves(LowerAll(sources)[j])
    {
      assert GoodSource(sources[j], reach);
      LoweredModuleLeaves(sources[j].name, sources[j].entry, sources[j].fns, reach);
    }
  }

  lemma SourceEmbeds(sources: seq<SourceModule>, reach: nat, j: nat)
    requires GoodSources(sources, reach) && j < |sources| && Distinct(WholeBlocks(sources))
    ensures var blocks := Blocks(LowerSource(sources[j]).lines);
      Distinct(blocks) && Embeds(EnvOf(blocks), EnvOf(MarkBlocks(WholeBlocks(sources))), MangleModule(sources[j].name))
  {
    hide Blocks, LowerModule, AllMangled, Leaves, Distinct, Embeds, EnvOf, MarkBlocks, MangleModule, MangleBlock, AllBodies, Prefixed, NoLabels, ReturnsAtEnd;
    var m := LowerSource(sources[j]);
    var blocks := Blocks(m.lines);
    SourcesLeave(sources, reach);
    ModuleInWhole(LowerAll(sources), j);
    assert GoodSource(sources[j], reach);
    forall b | b in blocks
      ensures Prefixed(b.name) && NoLabels(b.code)
    {
      LabelsPrefixed(sources[j].entry, sources[j].fns, reach, b);
      DeadCode.BlocksLabelFree(m.lines, b);
    }
    ModuleEmbeds(blocks, WholeBlocks(sources), MangleModule(sources[j].name));
  }

  /** Every function of every module has, in the marked whole program, a block that stands for it with global names. */
  lemma SourceHeld(sources: seq<SourceModule>, reach: nat, j: nat, k: nat)
    requires GoodSources(sources, reach) && j < |sources| && k < |sources[j].fns| && Distinct(WholeBlocks(sources))
    ensures FunctionHeld(EnvOf(MarkBlocks(WholeBlocks(sources))), QualifyFunction(MangleModule(sources[j].name), sources[j].fns[k]))
    ensures FunctionBody(QualifyFunction(MangleModule(sources[j].name), sources[j].fns[k]).body, reach)
  {
    hide Blocks, LowerModule, AllMangled, Embeds, EnvOf, MarkBlocks, MangleModule, FunctionBody, FunctionStored, QualifyAll, GlobalName, ReturnsAtEnd, Distinct;
    var m := sources[j];
    var env, whole := EnvOf(Blocks(LowerSource(m).lines)), EnvOf(MarkBlocks(WholeBlocks(sources)));
    assert GoodSource(m, reach);
    SourceEmbeds(sources, reach, j);
    var search := ModuleStored(m.entry, m.fns, reach);
    FunctionQualified(env, whole, MangleModule(m.name), search, m.fns[k], reach);
    BodyQualified(MangleModule(m.name), m.fns[k].body, reach);
  }

  lemma {:induction false} JoinedFrom(sources: seq<SourceModule>, i: nat) returns (j: nat, k: nat)
    requires i < |Joined(sources)|
    ensures j < |sources| && k < |sources[j].fns|
    ensures Joined(sources)[i] == QualifyFunction(MangleModule(sources[j].name), sources[j].fns[k])
    decreases |sources|
  {
    hide QualifyFunction, MangleModule;
    var first := GlobalFns(MangleModule(sources[0].name), sources[0].fns);
    if i < |first| {
      j, k := 0, i;
    } else {
      j, k := JoinedFrom(sources[1..], i - |first|);
      j := j + 1;
    }
  }

  lemma JoinedHeld(sources: seq<SourceModule>, reach: nat)
    requires GoodSources(sources, reach) && Distinct(WholeBlocks(sources))
    ensures AllBodies(Joined(sources), reach)
    ensures forall i :: 0 <= i < |Joined(sources)| ==> FunctionHeld(EnvOf(MarkBlocks(WholeBlocks(sources))), Joined(sources)[i])
  {
    hide GoodSources, Distinct, FunctionHeld, FunctionBody, QualifyFunction, WholeBlocks, EnvOf, MarkBlocks, Joined;
    forall i | 0 <= i < |Joined(sources)|
      ensures FunctionHeld(EnvOf(MarkBlocks(WholeBlocks(sources))), Joined(sources)[i]) && FunctionBody(Joined(sources)[i].body, reach)
    {
      var j, k := JoinedFrom(sources, i);
      SourceHeld(sources, reach, j, k);
    }
  }

  // ----- calls in the whole program -----

  /**
   * Calling a global label in the whole program comes to the end that the joined source gives it, calls from module to
   * module included, or gets stuck for want of memory.
   */
  lemma WholeProgramKeepsMeaning(sources: seq<SourceModule>, procs: Procs, reach: nat, l: string, s: State, fuel: nat) returns (o: Outcome)
    requires GoodSources(sources, reach) && Distinct(WholeBlocks(sources)) && 4096 <= reach <= 0x1_0000_0000
    requires ProcsOf(Joined(sources), procs) && Finishes(Meaning(procs, "__" + l, s, fuel))
    ensures Invokes(EnvOf(WholeBlocks(sources)), l, s, o)
    ensures Asks(Meaning(procs, "__" + l, s, fuel), o) || (Stuck(o) && Crowds(procs, reach, "__" + l, s, fuel))
  {
    hide GoodSources, Distinct, FunctionHeld, EvalCall, WholeBlocks, EnvOf, MarkBlocks, Joined, ProcsOf, ProcsStored, Invokes, Marked, AllBodies;
    var whole := WholeBlocks(sources);
    var env, marked := EnvOf(whole), EnvOf(MarkBlocks(whole));
    JoinedHeld(sources, reach);
    ProcsAreStored(marked, Joined(sources), procs, reach);
    CallCrowds(procs, reach, "__" + l, s, fuel);
    var room := if Crowds(procs, reach, "__" + l, s, fuel) then 0 else reach;
    var q := SimCall(marked, procs, room, reach, "__" + l, s, fuel);
    MarkedEnv(whole);
    o := UnmarkedInvokes(env, marked, l, s, q);
  }
}
