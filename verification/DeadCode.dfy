/** Dropping unreachable functions changes no run: the linked program and the whole one go step by step together. */
module DeadCode {
  import opened Machine
  import opened Control
  import opened Listing
  import opened SmallStep
  import opened Linker

  // ----- where a kept block goes -----

  /** The number of kept blocks before position `i`. */
  function Rank(blocks: seq<Block>, keep: set<string>, i: nat): nat {
    if i == 0 || blocks == [] then 0
    else (if blocks[0].name in keep then 1 else 0) + Rank(blocks[1..], keep, i - 1)
  }

  lemma {:induction false} KeptAt(blocks: seq<Block>, keep: set<string>, i: nat)
    requires i < |blocks| && blocks[i].name in keep
    ensures Rank(blocks, keep, i) < |Kept(blocks, keep)| && Kept(blocks, keep)[Rank(blocks, keep, i)] == blocks[i]
    decreases |blocks|
  {
    if i > 0 {
      KeptAt(blocks[1..], keep, i - 1);
    }
  }

  lemma KeptCons(blocks: seq<Block>, keep: set<string>)
    requires blocks != []
    ensures Kept(blocks, keep) == (if blocks[0].name in keep then [blocks[0]] else []) + Kept(blocks[1..], keep)
  {}

  lemma FindCons(blocks: seq<Block>, l: string)
    requires blocks != []
    ensures var d := Find(blocks[1..], l);
      Find(blocks, l) == if blocks[0].name == l then Some(0) else if d.None? then None else Some(d.value + 1)
  {}

  lemma RankCons(blocks: seq<Block>, keep: set<string>, i: nat)
    requires blocks != []
    ensures Rank(blocks, keep, 0) == 0
    ensures Rank(blocks, keep, i + 1) == (if blocks[0].name in keep then 1 else 0) + Rank(blocks[1..], keep, i)
  {}

  lemma NothingKept(keep: set<string>, l: string)
    ensures Kept([], keep) == [] && Find([], l) == None
  {}

  lemma {:induction false} FindKept(blocks: seq<Block>, keep: set<string>, l: string)
    requires l in keep
    ensures var d := Find(blocks, l);
      Find(Kept(blocks, keep), l) == if d.None? then None else Some(Rank(blocks, keep, d.value))
    decreases |blocks|
  {
    hide Kept, Find, Rank;
    if blocks == [] {
      NothingKept(keep, l);
    } else {
      var rest := blocks[1..];
      FindKept(rest, keep, l);
      KeptCons(blocks, keep);
      FindCons(blocks, l);
      RankCons(blocks, keep, if Find(rest, l).Some? then Find(rest, l).value else 0);
      if blocks[0].name in keep {
        FindCons(Kept(blocks, keep), l);
        assert Kept(blocks, keep)[1..] == Kept(rest, keep);
      } else {
        assert Kept(blocks, keep) == Kept(rest, keep);
      }
    }
  }

  lemma {:induction false} KeptNames(blocks: seq<Block>, keep: set<string>, b: Block)
    ensures b in Kept(blocks, keep) <==> b in blocks && b.name in keep
    decreases |blocks|
  {
    if blocks != [] {
      KeptNames(blocks[1..], keep, b);
      assert blocks == [blocks[0]] + blocks[1..];
    }
  }

  // ----- blocks that control cannot run out of -----

  /** The block ends by leaving, and no `skiz` can skip its last instruction. */
  predicate Ends(code: seq<Instr>) {
    var n := |code|;
    n > 0 && (code[n - 1] == Return || code[n - 1] == Recurse || code[n - 1] == Halt) && (n > 1 ==> code[n - 2] != Skiz)
  }

  /** Every kept block ends, and calls only kept labels. */
  ghost predicate SelfContained(blocks: seq<Block>, keep: set<string>) {
    forall i :: 0 <= i < |blocks| && blocks[i].name in keep ==>
      Ends(blocks[i].code) && forall k :: 0 <= k < |blocks[i].code| && blocks[i].code[k].Call? ==> blocks[i].code[k].target in keep
  }

  predicate LivePlace(blocks: seq<Block>, keep: set<string>, p: Place) {
    p.block < |blocks| && blocks[p.block].name in keep && p.offset < |blocks[p.block].code|
  }

  predicate LiveFrame(blocks: seq<Block>, keep: set<string>, f: Frame) {
    LivePlace(blocks, keep, f.back) && LivePlace(blocks, keep, Place(f.dest, 0))
  }

  predicate Live(blocks: seq<Block>, keep: set<string>, c: Config) {
    LivePlace(blocks, keep, c.at) && forall k :: 0 <= k < |c.frames| ==> LiveFrame(blocks, keep, c.frames[k])
  }

  // ----- the same configuration in the program without the dropped blocks -----

  function MovePlace(blocks: seq<Block>, keep: set<string>, p: Place): Place {
    Place(Rank(blocks, keep, p.block), p.offset)
  }

  function MoveFrame(blocks: seq<Block>, keep: set<string>, f: Frame): Frame {
    Frame(MovePlace(blocks, keep, f.back), Rank(blocks, keep, f.dest))
  }

  function MoveFrames(blocks: seq<Block>, keep: set<string>, frames: seq<Frame>): (r: seq<Frame>)
    ensures |r| == |frames|
  {
    seq(|frames|, k requires 0 <= k < |frames| => MoveFrame(blocks, keep, frames[k]))
  }

  function Move(blocks: seq<Block>, keep: set<string>, c: Config): Config {
    Config(MovePlace(blocks, keep, c.at), MoveFrames(blocks, keep, c.frames), c.s)
  }

  function MoveStatus(blocks: seq<Block>, keep: set<string>, r: Status): Status {
    match r
    case Running(c) => Running(Move(blocks, keep, c))
    case _ => r
  }

  /** Instructions that leave the jump stack alone and go on to the next place. */
  predicate Passes(i: Instr) {
    i != Return && i != Recurse && i != Halt && !i.Call? && i != Skiz
  }

  lemma NextIsLive(blocks: seq<Block>, keep: set<string>, p: Place)
    requires SelfContained(blocks, keep) && LivePlace(blocks, keep, p)
    ensures var i := blocks[p.block].code[p.offset];
      i != Return && i != Recurse && i != Halt ==> LivePlace(blocks, keep, After(p)) && (i == Skiz ==> LivePlace(blocks, keep, After(After(p))))
  {}

  lemma SettlesHere(blocks: seq<Block>, p: Place)
    requires p.block < |blocks| && p.offset < |blocks[p.block].code|
    ensures Settle(blocks, p) == Some(p)
  {}

  lemma MovedPlace(blocks: seq<Block>, keep: set<string>, p: Place)
    requires LivePlace(blocks, keep, p)
    ensures var q := MovePlace(blocks, keep, p);
      && q.block < |Kept(blocks, keep)| && Kept(blocks, keep)[q.block] == blocks[p.block]
      && Settle(Kept(blocks, keep), q) == Some(q) && Settle(blocks, p) == Some(p)
  {
    KeptAt(blocks, keep, p.block);
    SettlesHere(Kept(blocks, keep), MovePlace(blocks, keep, p));
    SettlesHere(blocks, p);
  }

  lemma FrameSlices(blocks: seq<Block>, keep: set<string>, frames: seq<Frame>)
    requires frames != []
    ensures var n := |frames| - 1;
      MoveFrames(blocks, keep, frames)[n] == MoveFrame(blocks, keep, frames[n])
      && MoveFrames(blocks, keep, frames)[..n] == MoveFrames(blocks, keep, frames[..n])
  {
    hide Rank;
  }

  lemma FrameAdded(blocks: seq<Block>, keep: set<string>, frames: seq<Frame>, f: Frame)
    ensures MoveFrames(blocks, keep, frames + [f]) == MoveFrames(blocks, keep, frames) + [MoveFrame(blocks, keep, f)]
  {
    hide Rank;
  }

  lemma PassStep(blocks: seq<Block>, keep: set<string>, c: Config)
    requires SelfContained(blocks, keep) && Live(blocks, keep, c) && Passes(blocks[c.at.block].code[c.at.offset])
    ensures Step(Kept(blocks, keep), Move(blocks, keep, c)) == MoveStatus(blocks, keep, Step(blocks, c))
    ensures Step(blocks, c).Running? ==> Live(blocks, keep, Step(blocks, c).c)
  {
    hide Basic, Settle, Kept, Rank, MoveFrames;
    MovedPlace(blocks, keep, c.at);
    NextIsLive(blocks, keep, c.at);
  }

  lemma SkizStep(blocks: seq<Block>, keep: set<string>, c: Config)
    requires SelfContained(blocks, keep) && Live(blocks, keep, c) && blocks[c.at.block].code[c.at.offset] == Skiz
    ensures Step(Kept(blocks, keep), Move(blocks, keep, c)) == MoveStatus(blocks, keep, Step(blocks, c))
    ensures Step(blocks, c).Running? ==> Live(blocks, keep, Step(blocks, c).c)
  {
    hide Basic, Settle, Kept, Rank, MoveFrames;
    MovedPlace(blocks, keep, c.at);
    NextIsLive(blocks, keep, c.at);
    MovedPlace(blocks, keep, After(c.at));
  }

  lemma LeaveStep(blocks: seq<Block>, keep: set<string>, c: Config)
    requires SelfContained(blocks, keep) && Live(blocks, keep, c)
    requires var i := blocks[c.at.block].code[c.at.offset]; i == Return || i == Recurse || i == Halt
    ensures Step(Kept(blocks, keep), Move(blocks, keep, c)) == MoveStatus(blocks, keep, Step(blocks, c))
    ensures Step(blocks, c).Running? ==> Live(blocks, keep, Step(blocks, c).c)
  {
    hide Basic, Settle, Kept, Rank, MoveFrames;
    MovedPlace(blocks, keep, c.at);
    if c.frames != [] {
      FrameSlices(blocks, keep, c.frames);
      assert LiveFrame(blocks, keep, c.frames[|c.frames| - 1]);
    }
  }

  lemma CallStep(blocks: seq<Block>, keep: set<string>, c: Config)
    requires SelfContained(blocks, keep) && Live(blocks, keep, c) && blocks[c.at.block].code[c.at.offset].Call?
    ensures Step(Kept(blocks, keep), Move(blocks, keep, c)) == MoveStatus(blocks, keep, Step(blocks, c))
    ensures Step(blocks, c).Running? ==> Live(blocks, keep, Step(blocks, c).c)
  {
    hide Basic, Settle, Kept, Rank, MoveFrames;
    var l := blocks[c.at.block].code[c.at.offset].target;
    MovedPlace(blocks, keep, c.at);
    NextIsLive(blocks, keep, c.at);
    FindKept(blocks, keep, l);
    var d := Find(blocks, l);
    if d.Some? {
      assert LivePlace(blocks, keep, Place(d.value, 0));
      FrameAdded(blocks, keep, c.frames, Frame(After(c.at), d.value));
    }
  }

  /** One step of the linked program is the same step of the whole program. */
  lemma StepsTogether(blocks: seq<Block>, keep: set<string>, c: Config)
    requires SelfContained(blocks, keep) && Live(blocks, keep, c)
    ensures Step(Kept(blocks, keep), Move(blocks, keep, c)) == MoveStatus(blocks, keep, Step(blocks, c))
    ensures Step(blocks, c).Running? ==> Live(blocks, keep, Step(blocks, c).c)
  {
    hide Step, Kept, Move, SelfContained;
    var i := blocks[c.at.block].code[c.at.offset];
    if Passes(i) {
      PassStep(blocks, keep, c);
    } else if i == Skiz {
      SkizStep(blocks, keep, c);
    } else if i.Call? {
      CallStep(blocks, keep, c);
    } else {
      LeaveStep(blocks, keep, c);
    }
  }

  /** For every number of steps, the two programs have the same status. */
  lemma {:induction false} RunsTogether(blocks: seq<Block>, keep: set<string>, c: Config, n: nat)
    requires SelfContained(blocks, keep) && Live(blocks, keep, c)
    ensures Go(Kept(blocks, keep), Move(blocks, keep, c), n) == MoveStatus(blocks, keep, Go(blocks, c, n))
    decreases n
  {
    hide Step, Kept, Move, SelfContained, Live;
    if n > 0 {
      StepsTogether(blocks, keep, c);
      if Step(blocks, c).Running? {
        RunsTogether(blocks, keep, Step(blocks, c).c, n - 1);
      }
    }
  }

  // ----- the linked program -----

  lemma {:induction false} LinesOfBlocks(blocks: seq<Block>)
    requires forall k :: 0 <= k < |blocks| ==> NoLabels(blocks[k].code)
    ensures StartsBlock(BlockLines(blocks)) && Blocks(BlockLines(blocks)) == blocks
    decreases |blocks|
  {
    if blocks != [] {
      hide Blocks;
      LinesOfBlocks(blocks[1..]);
      BlocksOne(blocks[0].name, blocks[0].code);
      BlocksCat([Label(blocks[0].name)] + blocks[0].code, BlockLines(blocks[1..]));
      assert [blocks[0]] + blocks[1..] == blocks;
    } else {
      assert Blocks([]) == [];
    }
  }

  lemma {:induction false} BlocksLabelFree(lines: seq<Instr>, b: Block)
    requires b in Blocks(lines)
    ensures NoLabels(b.code)
    decreases |lines|
  {
    if b in Blocks(lines[1..]) {
      BlocksLabelFree(lines[1..], b);
    }
  }

  /** The call graph of distinct blocks has an edge for every call that a block makes. */
  lemma {:induction false} GraphHas(blocks: seq<Block>, i: nat)
    requires Distinct(blocks) && i < |blocks|
    ensures blocks[i].name in GraphOf(blocks) && GraphOf(blocks)[blocks[i].name] == CallTargets(blocks[i].name, blocks[i].code)
    decreases |blocks|
  {
    var n := |blocks| - 1;
    if i < n {
      assert blocks[..n][i] == blocks[i];
      GraphHas(blocks[..n], i);
    }
  }

  lemma {:induction false} TargetsHave(name: string, code: seq<Instr>, k: nat)
    requires k < |code| && code[k].Call?
    ensures code[k].target in CallTargets(name, code)
    decreases |code|
  {
    if k > 0 {
      TargetsHave(name, code[1..], k - 1);
    }
  }

  /** What reachability keeps is closed under calls. */
  lemma ReachableCalls(blocks: seq<Block>, entry: string, i: nat, k: nat)
    requires Distinct(blocks) && i < |blocks| && k < |blocks[i].code| && blocks[i].code[k].Call?
    requires Reachable(GraphOf(blocks), entry, blocks[i].name)
    ensures Reachable(GraphOf(blocks), entry, blocks[i].code[k].target)
  {
    hide Reachable, GraphOf;
    GraphHas(blocks, i);
    TargetsHave(blocks[i].name, blocks[i].code, k);
    ReachOn(GraphOf(blocks), entry, blocks[i].name, blocks[i].code[k].target);
  }

  /** The prelude of a program: it ends, and calls nothing but the main function. */
  predicate CallsOnly(code: seq<Instr>, l: string) {
    Ends(code) && NoLabels(code) && forall k :: 0 <= k < |code| && code[k].Call? ==> code[k].target == l
  }

  /** The program made of a prelude and all blocks, before anything is dropped. */
  function WholeProgram(prelude: seq<Instr>, blocks: seq<Block>): seq<Block> {
    [Block("", prelude)] + blocks
  }

  lemma WholeIsSelfContained(prelude: seq<Instr>, blocks: seq<Block>, entry: string, keep: set<string>)
    requires Distinct(blocks) && CallsOnly(prelude, entry) && (forall k :: 0 <= k < |blocks| ==> blocks[k].name != "" && Ends(blocks[k].code))
    requires forall l :: l in keep <==> l == "" || Reachable(GraphOf(blocks), entry, l)
    ensures SelfContained(WholeProgram(prelude, blocks), keep)
  {
    hide Reachable, GraphOf, Distinct, Ends, NoLabels;
    assert Reachable(GraphOf(blocks), entry, entry) by { ReachesItself(GraphOf(blocks), entry); }
    var whole := WholeProgram(prelude, blocks);
    forall i | 0 <= i < |whole| && whole[i].name in keep
      ensures Ends(whole[i].code) && forall k :: 0 <= k < |whole[i].code| && whole[i].code[k].Call? ==> whole[i].code[k].target in keep
    {
      if i > 0 {
        assert whole[i] == blocks[i - 1];
        forall k | 0 <= k < |whole[i].code| && whole[i].code[k].Call? ensures whole[i].code[k].target in keep {
          ReachableCalls(blocks, entry, i - 1, k);
        }
      }
    }
  }

  lemma ReachesItself(graph: CallGraph, a: string)
    ensures Reachable(graph, a, a)
  {
    assert Path(graph, a, a, 0);
  }

  lemma KeptSame(blocks: seq<Block>, keep: set<string>, other: set<string>)
    requires forall k :: 0 <= k < |blocks| ==> (blocks[k].name in keep <==> blocks[k].name in other)
    ensures Kept(blocks, keep) == Kept(blocks, other)
  {
    if blocks != [] {
      assert forall k :: 0 <= k < |blocks[1..]| ==> blocks[1..][k] == blocks[k + 1];
      KeptSame(blocks[1..], keep, other);
    }
  }

  /** The listing of a prelude and kept blocks, read back as a program. */
  lemma LinkedProgram(prelude: seq<Instr>, kept: seq<Block>)
    requires NoLabels(prelude) && forall k :: 0 <= k < |kept| ==> NoLabels(kept[k].code)
    ensures ProgramOf(prelude + BlockLines(kept)) == [Block("", prelude)] + kept
  {
    hide Blocks, Until;
    LinesOfBlocks(kept);
    BlocksPlain(prelude);
    BlocksCat(prelude, BlockLines(kept));
    assert [] + kept == kept;
    UntilCat(prelude, BlockLines(kept));
    assert Until(BlockLines(kept)) == [] by { UntilOfBlock(BlockLines(kept)); }
    assert prelude + [] == prelude;
  }

  lemma UntilOfBlock(lines: seq<Instr>)
    requires StartsBlock(lines)
    ensures Until(lines) == []
  {}

  /**
   * Linking preserves behaviour. Take a program module and others whose mangled labels are
   * distinct, whose functions all end, and whose prelude calls only the main function. After any number
   * of steps the linked program has the same status as the program with every function left in: running
   * in the same state, stopped with the same result, or faulted in the same state.
   */
  lemma LinkingPreservesRuns(modules: seq<ModuleTasm>, program: ModuleTasm, s: State, n: nat)
    returns (keep: set<string>)
    requires var blocks := Blocks(AllMangled(modules));
      var prefix := MangleModule(program.name);
      && Distinct(blocks) && CallsOnly(MangleLines(Until(program.lines), prefix), prefix + "main")
      && forall k :: 0 <= k < |blocks| ==> blocks[k].name != "" && Ends(blocks[k].code)
    ensures var blocks := Blocks(AllMangled(modules));
      var prefix := MangleModule(program.name);
      var whole := WholeProgram(MangleLines(Until(program.lines), prefix), blocks);
      var start := Config(Place(0, 0), [], s);
      && (forall l :: l in keep <==> l == "" || Reachable(GraphOf(blocks), prefix + "main", l))
      && Go(ProgramOf(Linked(modules, program)), start, n) == MoveStatus(whole, keep, Go(whole, start, n))
  {
    hide Blocks, AllMangled, GraphOf, Reachable, MangleLines, Until, Go, Move, SelfContained, MangleModule;
    var blocks := Blocks(AllMangled(modules));
    var entry := MangleModule(program.name) + "main";
    var prelude := MangleLines(Until(program.lines), MangleModule(program.name));
    var reached := ReachableSet(GraphOf(blocks), entry);
    keep := reached + {""};
    var whole := WholeProgram(prelude, blocks);
    WholeIsSelfContained(prelude, blocks, entry, keep);
    var start := Config(Place(0, 0), [], s);
    RunsTogether(whole, keep, start, n);
    StartMoves(whole, keep, s);
    KeptSame(blocks, keep, reached);
    KeptOfWhole(prelude, blocks, keep);
    forall k | 0 <= k < |Kept(blocks, reached)|
      ensures NoLabels(Kept(blocks, reached)[k].code)
    {
      KeptNames(blocks, reached, Kept(blocks, reached)[k]);
      BlocksLabelFree(AllMangled(modules), Kept(blocks, reached)[k]);
    }
    LinkedProgram(prelude, Kept(blocks, reached));
  }

  lemma StartMoves(whole: seq<Block>, keep: set<string>, s: State)
    ensures Move(whole, keep, Config(Place(0, 0), [], s)) == Config(Place(0, 0), [], s)
  {}

  lemma KeptOfWhole(prelude: seq<Instr>, blocks: seq<Block>, keep: set<string>)
    requires "" in keep
    ensures Kept(WholeProgram(prelude, blocks), keep) == [Block("", prelude)] + Kept(blocks, keep)
  {
    assert WholeProgram(prelude, blocks)[1..] == blocks;
  }

  /** The linked program keeps exactly the reachable functions, and every label that one of them calls is kept. */
  lemma KeepsReachable(blocks: seq<Block>, entry: string, b: Block)
    requires Distinct(blocks)
    requires forall i, k :: 0 <= i < |blocks| && 0 <= k < |blocks[i].code| && blocks[i].code[k].Call? ==>
      exists j :: 0 <= j < |blocks| && blocks[j].name == blocks[i].code[k].target
    ensures var kept := Kept(blocks, ReachableSet(GraphOf(blocks), entry));
      && (b in kept <==> b in blocks && Reachable(GraphOf(blocks), entry, b.name))
      && (b in kept ==> forall k :: 0 <= k < |b.code| && b.code[k].Call? ==> Find(kept, b.code[k].target).Some?)
  {
    hide Reachable, GraphOf, Distinct, Kept, Find;
    var reached := ReachableSet(GraphOf(blocks), entry);
    var kept := Kept(blocks, reached);
    KeptNames(blocks, reached, b);
    if b in kept {
      var i :| 0 <= i < |blocks| && blocks[i] == b;
      forall k | 0 <= k < |b.code| && b.code[k].Call?
        ensures Find(kept, b.code[k].target).Some?
      {
        var l := b.code[k].target;
        ReachableCalls(blocks, entry, i, k);
        FindKept(blocks, reached, l);
        assert blocks[i].code[k].Call?;
        var j :| 0 <= j < |blocks| && blocks[j].name == l;
        FindsName(blocks, j);
      }
    }
  }

  lemma {:induction false} FindsName(blocks: seq<Block>, j: nat)
    requires j < |blocks|
    ensures Find(blocks, blocks[j].name).Some?
    decreases |blocks|
  {
    if j > 0 {
      FindsName(blocks[1..], j - 1);
    }
  }
}
