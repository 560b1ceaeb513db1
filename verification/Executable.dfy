/** The linked listing of a program, run from its first line. */
module Executable {
  import opened Words
  import opened Machine
  import opened Control
  import opened Tir
  import opened Lowering
  import opened Crowding
  import opened Simulation
  import opened SmallStep
  import opened Listing
  import opened ModuleLowering
  import opened Compilation
  import opened Divergence
  import opened Endless
  import opened Labels
  import opened Linker
  import opened Leaving
  import opened Marking
  import opened Toolchain
  import DeadCode

  // ----- when the labels of the whole program differ -----

  /** No module's prefix is the beginning of another's. */
  predicate ApartPrefixes(modules: seq<ModuleTasm>) {
    forall i, j :: 0 <= i < |modules| && 0 <= j < |modules| && i != j ==> !(MangleModule(modules[i].name) <= MangleModule(modules[j].name))
  }

  ghost predicate AllPrefixed(blocks: seq<Block>) {
    forall k :: 0 <= k < |blocks| ==> Prefixed(blocks[k].name)
  }

  lemma SameEnding(prefix: string, a: string, b: string)
    requires Prefixed(a) && Prefixed(b) && prefix + a[2..] == prefix + b[2..]
    ensures a == b
  {
    assert (prefix + a[2..])[|prefix|..] == a[2..] && (prefix + b[2..])[|prefix|..] == b[2..];
    assert a == a[..2] + a[2..] && b == b[..2] + b[2..];
  }

  lemma MangledStaysDistinct(blocks: seq<Block>, prefix: string)
    requires Distinct(blocks) && AllPrefixed(blocks)
    ensures Distinct(MangleBlocks(blocks, prefix))
  {
    hide Prefixed, MangleLines;
    var mangled := MangleBlocks(blocks, prefix);
    forall i, j | 0 <= i < j < |blocks|
      ensures mangled[i].name != mangled[j].name
    {
      if mangled[i].name == mangled[j].name {
        SameEnding(prefix, blocks[i].name, blocks[j].name);
      }
    }
  }

  lemma PrefixesPart(p: string, q: string, a: string, b: string)
    requires p <= a && q <= b && !(p <= q) && !(q <= p)
    ensures a != b
  {
    assert a[..|p|] == p && b[..|q|] == q;
  }

  /** The label begins with the prefix of one of the modules. */
  ghost predicate Belongs(modules: seq<ModuleTasm>, name: string) {
    exists j :: 0 <= j < |modules| && MangleModule(modules[j].name) <= name
  }

  /** A module whose labels can be prefixed. */
  ghost predicate Mangleable(m: ModuleTasm) {
    Leaves(m) && AllPrefixed(Blocks(m.lines))
  }

  lemma MangledBelong(blocks: seq<Block>, prefix: string)
    requires AllPrefixed(blocks)
    ensures forall k :: 0 <= k < |blocks| ==> prefix <= MangleBlocks(blocks, prefix)[k].name
  {
    hide Prefixed, MangleLines;
  }

  lemma {:induction false} WholeBelongs(modules: seq<ModuleTasm>)
    requires forall j :: 0 <= j < |modules| ==> Mangleable(modules[j])
    ensures forall k :: 0 <= k < |Blocks(AllMangled(modules))| ==> Belongs(modules, Blocks(AllMangled(modules))[k].name)
    decreases |modules|
  {
    hide Blocks, Mangled, MangleModule, Leaves, AllPrefixed;
    if modules == [] {
      assert Blocks([]) == [] by { BlocksPlain([]); }
    } else {
      var prefix, rest := MangleModule(modules[0].name), modules[1..];
      var first := Mangled(modules[0].lines, prefix, modules[0].isProgram);
      var a, b := Blocks(first), Blocks(AllMangled(rest));
      assert forall j :: 0 <= j < |rest| ==> rest[j] == modules[j + 1];
      WholeBelongs(rest);
      LinkedBlocksEnd(rest);
      BlocksCat(first, AllMangled(rest));
      ModuleBlocksMangled(modules[0]);
      MangledBelong(Blocks(modules[0].lines), prefix);
      forall k | 0 <= k < |a|
        ensures Belongs(modules, a[k].name)
      {
        assert prefix <= a[k].name;
      }
      forall k | 0 <= k < |b|
        ensures Belongs(modules, b[k].name)
      {
        assert Belongs(rest, b[k].name);
        var j :| 0 <= j < |rest| && MangleModule(rest[j].name) <= b[k].name;
        assert MangleModule(modules[j + 1].name) <= b[k].name;
      }
    }
  }

  lemma {:induction false} WholeDiffers(modules: seq<ModuleTasm>)
    requires ApartPrefixes(modules) && forall j :: 0 <= j < |modules| ==> Mangleable(modules[j]) && Distinct(Blocks(modules[j].lines))
    ensures Distinct(Blocks(AllMangled(modules)))
    decreases |modules|
  {
    hide Blocks, Mangled, MangleModule, Leaves, AllPrefixed;
    if modules == [] {
      assert Blocks([]) == [] by { BlocksPlain([]); }
    } else {
      var prefix, rest := MangleModule(modules[0].name), modules[1..];
      var first := Mangled(modules[0].lines, prefix, modules[0].isProgram);
      var a, b := Blocks(first), Blocks(AllMangled(rest));
      assert forall j :: 0 <= j < |rest| ==> rest[j] == modules[j + 1];
      WholeDiffers(rest);
      WholeBelongs(rest);
      LinkedBlocksEnd(rest);
      BlocksCat(first, AllMangled(rest));
      ModuleBlocksMangled(modules[0]);
      MangledStaysDistinct(Blocks(modules[0].lines), prefix);
      MangledBelong(Blocks(modules[0].lines), prefix);
      forall i, k | 0 <= i < |a| && 0 <= k < |b|
        ensures a[i].name != b[k].name
      {
        assert Belongs(rest, b[k].name);
        var j :| 0 <= j < |rest| && MangleModule(rest[j].name) <= b[k].name;
        PrefixesPart(prefix, MangleModule(rest[j].name), a[i].name, b[k].name);
      }
      DistinctTogether(a, b);
    }
  }

  lemma DistinctTogether(a: seq<Block>, b: seq<Block>)
    requires Distinct(a) && Distinct(b) && forall i, k :: 0 <= i < |a| && 0 <= k < |b| ==> a[i].name != b[k].name
    ensures Distinct(a + b)
  {}

  lemma SourcesMangle(sources: seq<SourceModule>, reach: nat)
    requires GoodSources(sources, reach)
    ensures forall j :: 0 <= j < |sources| ==> Mangleable(LowerAll(sources)[j])
  {
    hide Blocks, LowerModule, Leaves, AllBodies, ReturnsAtEnd, Prefixed;
    SourcesLeave(sources, reach);
    forall j | 0 <= j < |sources|
      ensures Mangleable(LowerAll(sources)[j])
    {
      var m := sources[j];
      assert GoodSource(m, reach);
      var blocks := Blocks(LowerSource(m).lines);
      forall k | 0 <= k < |blocks|
        ensures Prefixed(blocks[k].name)
      {
        LabelsPrefixed(m.entry, m.fns, reach, blocks[k]);
      }
    }
  }

  /** What a caller can check: good names in every module, and prefixes none of which begins another. */
  lemma WholeIsDistinct(sources: seq<SourceModule>, reach: nat)
    requires GoodSources(sources, reach) && ApartPrefixes(LowerAll(sources))
    requires forall j :: 0 <= j < |sources| ==> GoodNames(sources[j].fns)
    ensures Distinct(WholeBlocks(sources))
  {
    hide Blocks, LowerModule, ApartPrefixes, Leaves, GoodNames, AllBodies, ReturnsAtEnd, Distinct, AllMangled, Mangleable;
    SourcesMangle(sources, reach);
    forall j | 0 <= j < |sources|
      ensures Distinct(Blocks(LowerAll(sources)[j].lines))
    {
      assert GoodSource(sources[j], reach);
      UnreservedNamesSuffice(sources[j].entry, sources[j].fns, reach);
    }
    WholeDiffers(LowerAll(sources));
  }

  // ----- the prelude -----

  lemma MainIsLocal(prefix: string)
    ensures MangleLines([Instr.Call(LabelOf("main")), Instr.Halt], prefix) == [Instr.Call(prefix + "main"), Instr.Halt]
  {
    assert "main"[0] == 'm' && "__" + "main" == "__main" && "__main"[..2] == "__" && "__main"[2..] == "main";
    assert !Prefixed("main") by { assert "main"[..2][0] == 'm'; }
  }

  lemma PreludeIs(m: SourceModule, reach: nat)
    requires GoodSource(m, reach) && m.entry == Some("main")
    ensures MangleLines(Until(LowerSource(m).lines), MangleModule(m.name)) == [Instr.Call(MangleModule(m.name) + "main"), Instr.Halt]
  {
    hide LowerModule, Until, MangleLines, MangleModule, AllBodies, Blocks, LowerOps, ReturnsAtEnd;
    ModuleBlocks(m.entry, m.fns, reach);
    MainIsLocal(MangleModule(m.name));
  }

  lemma WholeCarries(blocks: seq<Block>, prelude: seq<Instr>)
    requires "" !in EnvOf(blocks)
    ensures Carries(DeadCode.WholeProgram(prelude, blocks), EnvOf(blocks))
  {
    hide EnvOf;
    var env, whole := EnvOf(blocks), DeadCode.WholeProgram(prelude, blocks);
    forall l | l in env
      ensures Find(whole, l).Some? && whole[Find(whole, l).value].code == env[l]
    {
      EnvIsFound(blocks, l);
      DeadCode.FindCons(whole, l);
      assert whole[1..] == blocks;
    }
  }

  /** The status of the machine that an outcome of the prelude leads to. */
  lemma WholeArrives(blocks: seq<Block>, prelude: seq<Instr>, s: State, o: Outcome) returns (r: Status)
    requires "" !in EnvOf(blocks) && Runs(EnvOf(blocks), prelude, s, o) && (o.Halted? || (o.Crashed? && !o.i.Call?))
    ensures r == (if o.Halted? then Stopped(o.s) else Faulted(o.s))
    ensures Reaches(DeadCode.WholeProgram(prelude, blocks), Config(Place(0, 0), [], s), r)
  {
    hide Reaches, Run, EnvOf, Carries;
    r := if o.Halted? then Stopped(o.s) else Faulted(o.s);
    var whole := DeadCode.WholeProgram(prelude, blocks);
    var fuel: nat :| Run(EnvOf(blocks), prelude, s, fuel) == o;
    WholeCarries(blocks, prelude);
    assert whole[0].code[0..] == prelude;
    RunArrives(whole, EnvOf(blocks), Config(Place(0, 0), [], s), fuel);
  }

  lemma MainRuns(env: Env, main: string, s: State, o: Outcome) returns (q: Outcome)
    requires Invokes(env, main, s, o) && (o.Done? || o.Halted? || o.Crashed?)
    ensures Runs(env, [Instr.Call(main), Instr.Halt], s, q)
    ensures q == if o.Done? then Outcome.Halted(o.s) else o
  {
    hide Invokes, Runs;
    q := if o.Done? then Outcome.Halted(o.s) else o;
    assert [Instr.Call(main)] + [Instr.Halt] == [Instr.Call(main), Instr.Halt];
    RunsCall(env, main, s, o);
    if o.Done? {
      RunsLast(env, Instr.Halt, o.s);
      RunsCat(env, [Instr.Call(main)], [Instr.Halt], s, o.s, q);
    } else {
      RunsStop(env, [Instr.Call(main)], [Instr.Halt], s, o);
    }
  }

  // ----- linking -----

  lemma BelongingIsNamed(modules: seq<ModuleTasm>, name: string)
    requires Belongs(modules, name)
    ensures name != ""
  {}

  lemma {:induction false} NotInEnv(blocks: seq<Block>, l: string)
    requires forall k :: 0 <= k < |blocks| ==> blocks[k].name != l
    ensures l !in EnvOf(blocks)
    decreases |blocks|
  {
    if blocks != [] {
      assert forall k :: 0 <= k < |blocks[1..]| ==> blocks[1..][k] == blocks[k + 1];
      NotInEnv(blocks[1..], l);
    }
  }

  /** Dropping what is not reached leaves the program at the same end. */
  lemma LinkedReaches(modules: seq<ModuleTasm>, program: ModuleTasm, s: State, r: Status)
    requires var blocks := Blocks(AllMangled(modules));
      var prefix := MangleModule(program.name);
      && Distinct(blocks) && DeadCode.CallsOnly(MangleLines(Until(program.lines), prefix), prefix + "main")
      && (forall k :: 0 <= k < |blocks| ==> blocks[k].name != "" && DeadCode.Ends(blocks[k].code))
      && Reaches(DeadCode.WholeProgram(MangleLines(Until(program.lines), prefix), blocks), Config(Place(0, 0), [], s), r)
    requires !r.Running?
    ensures Reaches(ProgramOf(Linked(modules, program)), Config(Place(0, 0), [], s), r)
  {
    hide Blocks, AllMangled, MangleLines, Until, Go, MangleModule, Linked, ProgramOf, Distinct, DeadCode.CallsOnly, DeadCode.Ends;
    var prefix := MangleModule(program.name);
    var whole := DeadCode.WholeProgram(MangleLines(Until(program.lines), prefix), Blocks(AllMangled(modules)));
    var n: nat :| Go(whole, Config(Place(0, 0), [], s), n) == r;
    var keep := DeadCode.LinkingPreservesRuns(modules, program, s, n);
  }

  /** The blocks of the whole program are named, and end by leaving. */
  lemma WholeIsClean(sources: seq<SourceModule>, reach: nat)
    requires GoodSources(sources, reach)
    ensures forall k :: 0 <= k < |WholeBlocks(sources)| ==> WholeBlocks(sources)[k].name != "" && DeadCode.Ends(WholeBlocks(sources)[k].code)
  {
    hide Blocks, LowerModule, Leaves, AllBodies, ReturnsAtEnd, AllMangled, Mangleable, DeadCode.Ends, Belongs;
    var modules, blocks := LowerAll(sources), WholeBlocks(sources);
    SourcesLeave(sources, reach);
    SourcesMangle(sources, reach);
    WholeBelongs(modules);
    LinkedBlocksEnd(modules);
    forall k | 0 <= k < |blocks|
      ensures blocks[k].name != "" && DeadCode.Ends(blocks[k].code)
    {
      BelongingIsNamed(modules, blocks[k].name);
    }
  }

  // ----- the whole way -----

  /** The name under which the joined source has the program's main function. */
  function Main(program: SourceModule): string {
    "__" + (MangleModule(program.name) + "main")
  }

  /** The linked listing, started at its first line with no frames, comes to the status. */
  ghost predicate ExecutableComesTo(sources: seq<SourceModule>, program: SourceModule, s: State, r: Status) {
    Reaches(ProgramOf(Linked(LowerAll(sources), LowerSource(program))), Config(Place(0, 0), [], s), r)
  }

  /**
   * Modules lowered one by one, linked, and pruned: where the program, with the functions of all modules together, comes
   * to an end in the source, the linked listing stops in exactly that state, or faults where the source refuses to go on.
   * The one other thing that can happen is a fault for want of free memory.
   */
  lemma ExecutableKeepsMeaning(sources: seq<SourceModule>, program: SourceModule, procs: Procs, reach: nat, s: State, fuel: nat)
    returns (r: Status)
    requires GoodSources(sources, reach) && Distinct(WholeBlocks(sources)) && 4096 <= reach <= 0x1_0000_0000
    requires program in sources && program.entry == Some("main")
    requires ProcsOf(Joined(sources), procs) && Finishes(Meaning(procs, Main(program), s, fuel))
    ensures ExecutableComesTo(sources, program, s, r)
    ensures (match Meaning(procs, Main(program), s, fuel)
      case Ok(t) => r == Stopped(t)
      case Halted(t) => r == Stopped(t)
      case _ => r.Faulted?) || (r.Faulted? && Crowds(procs, reach, Main(program), s, fuel))
  {
    hide Blocks, LowerModule, AllMangled, EnvOf, Distinct, EvalCall, Joined, ProcsOf, AllBodies, ReturnsAtEnd, Invokes, Runs, Reaches, MangleLines, Until, MangleModule, Linked, ProgramOf, DeadCode.Ends;
    var j :| 0 <= j < |sources| && sources[j] == program;
    assert GoodSource(program, reach);
    var prefix := MangleModule(program.name);
    var main := prefix + "main";
    var blocks := WholeBlocks(sources);
    var prelude := [Instr.Call(main), Instr.Halt];
    var o := WholeProgramKeepsMeaning(sources, procs, reach, main, s, fuel);
    CallNeverReturns(procs, 0, Main(program), s, fuel);
    var q := MainRuns(EnvOf(blocks), main, s, o);
    WholeIsClean(sources, reach);
    NotInEnv(blocks, "");
    r := WholeArrives(blocks, prelude, s, q);
    PreludeIs(program, reach);
    PreludeCallsMain(main);
    LinkedReaches(LowerAll(sources), LowerSource(program), s, r);
  }

  lemma PreludeCallsMain(main: string)
    ensures DeadCode.CallsOnly([Instr.Call(main), Instr.Halt], main)
  {}

  /** The machine comes to one end at most. */
  lemma StatusUnique(prog: seq<Block>, c: Config, r: Status, q: Status)
    requires Reaches(prog, c, r) && Reaches(prog, c, q) && !r.Running? && !q.Running?
    ensures r == q
  {
    hide Go;
    var m: nat :| Go(prog, c, m) == r;
    var n: nat :| Go(prog, c, n) == q;
    if m <= n {
      EndStays(prog, c, m, n);
    } else {
      EndStays(prog, c, n, m);
    }
  }

  lemma {:induction false} EndStays(prog: seq<Block>, c: Config, m: nat, n: nat)
    requires m <= n && !Go(prog, c, m).Running?
    ensures Go(prog, c, n) == Go(prog, c, m)
    decreases m
  {
    hide Step;
    if m > 0 && Step(prog, c).Running? {
      EndStays(prog, Step(prog, c).c, m - 1, n - 1);
    }
  }

  // ----- sources without end -----

  /** While the source has not ended, the whole program has not either, or is stuck. */
  lemma WholeStaysBusy(sources: seq<SourceModule>, procs: Procs, reach: nat, l: string, s: State, fuel: nat)
    requires GoodSources(sources, reach) && Distinct(WholeBlocks(sources)) && 4096 <= reach <= 0x1_0000_0000
    requires ProcsOf(Joined(sources), procs) && Meaning(procs, "__" + l, s, fuel).Timeout?
    ensures Hung(Invoke(EnvOf(WholeBlocks(sources)), l, s, fuel))
  {
    hide GoodSources, Distinct, FunctionHeld, EvalCall, WholeBlocks, EnvOf, MarkBlocks, Joined, ProcsOf, ProcsStored, Invoke, Marked, AllBodies;
    var whole := WholeBlocks(sources);
    JoinedHeld(sources, reach);
    ProcsAreStored(EnvOf(MarkBlocks(whole)), Joined(sources), procs, reach);
    SlowCall(EnvOf(MarkBlocks(whole)), procs, reach, "__" + l, s, fuel);
    MarkedEnv(whole);
    MarkedInvoke(EnvOf(whole), EnvOf(MarkBlocks(whole)), l, s, fuel);
  }

  /** A source that has not ended by a fuel above n steps: the linked listing has not stopped after n steps. */
  lemma StillGoing(sources: seq<SourceModule>, program: SourceModule, procs: Procs, reach: nat, s: State, t: State, n: nat)
    requires GoodSources(sources, reach) && Distinct(WholeBlocks(sources)) && 4096 <= reach <= 0x1_0000_0000
    requires program in sources && program.entry == Some("main")
    requires ProcsOf(Joined(sources), procs) && Meaning(procs, Main(program), s, n + 1).Timeout?
    ensures Go(ProgramOf(Linked(LowerAll(sources), LowerSource(program))), Config(Place(0, 0), [], s), n) != Stopped(t)
  {
    hide Blocks, LowerModule, AllMangled, EnvOf, Distinct, EvalCall, Joined, ProcsOf, AllBodies, ReturnsAtEnd, Invoke, Run, Go, MangleLines, Until, MangleModule, Linked, ProgramOf, Carries, DeadCode.Ends;
    var j :| 0 <= j < |sources| && sources[j] == program;
    assert GoodSource(program, reach);
    var main := MangleModule(program.name) + "main";
    var blocks, prelude := WholeBlocks(sources), [Instr.Call(main), Instr.Halt];
    var env, start := EnvOf(blocks), Config(Place(0, 0), [], s);
    var modules, listed := LowerAll(sources), ProgramOf(Linked(LowerAll(sources), LowerSource(program)));
    var whole := DeadCode.WholeProgram(prelude, blocks);
    WholeStaysBusy(sources, procs, reach, main, s, n + 1);
    SlowLine(env, main, [Instr.Halt], s, n + 1);
    assert [Instr.Call(main)] + [Instr.Halt] == prelude;
    WholeIsClean(sources, reach);
    NotInEnv(blocks, "");
    PreludeIs(program, reach);
    PreludeCallsMain(main);
    var o := Run(env, prelude, s, n + 1);
    if o.Timeout? {
      WholeCarries(blocks, prelude);
      assert whole[0].code[0..] == prelude;
      TimeoutLasts(whole, env, start, n + 1);
      var k: nat :| k >= n + 1 && Go(whole, start, k).Running?;
      var keep := DeadCode.LinkingPreservesRuns(modules, LowerSource(program), s, k);
      if Go(listed, start, n) == Stopped(t) {
        EndStays(listed, start, n, k);
      }
    } else {
      assert Runs(env, prelude, s, o);
      var r := WholeArrives(blocks, prelude, s, o);
      LinkedReaches(modules, LowerSource(program), s, r);
      if Go(listed, start, n) == Stopped(t) {
        StatusUnique(listed, start, r, Stopped(t));
      }
    }
  }

  // ----- stopping -----

  /** The source comes to an end in `t` by some fuel. */
  ghost predicate EndsIn(procs: Procs, program: SourceModule, s: State, t: State) {
    exists fuel: nat :: Meaning(procs, Main(program), s, fuel) == Ok(t) || Meaning(procs, Main(program), s, fuel) == Result.Halted(t)
  }

  /** Some deep access of the source finds less than `reach` consecutive zero cells. */
  ghost predicate CrowdsSometime(procs: Procs, reach: nat, program: SourceModule, s: State) {
    exists fuel: nat :: Crowds(procs, reach, Main(program), s, fuel)
  }

  /**
   * For a program that keeps within its stack and its labels, for every memory and however long it takes: the linked
   * listing stops in a state only if the source ends in it, and does if the source does, unless memory is too full.
   */
  lemma ExecutableStopsExactly(sources: seq<SourceModule>, program: SourceModule, procs: Procs, reach: nat, s: State, t: State)
    requires GoodSources(sources, reach) && Distinct(WholeBlocks(sources)) && 4096 <= reach <= 0x1_0000_0000
    requires program in sources && program.entry == Some("main") && ProcsOf(Joined(sources), procs)
    requires forall fuel: nat :: Proceeds(Meaning(procs, Main(program), s, fuel))
    ensures ExecutableComesTo(sources, program, s, Stopped(t)) ==> EndsIn(procs, program, s, t)
    ensures EndsIn(procs, program, s, t) ==>
      ExecutableComesTo(sources, program, s, Stopped(t)) || CrowdsSometime(procs, reach, program, s)
  {
    hide Blocks, Linked, LowerAll, LowerSource, Distinct, EvalCall, Joined, ProcsOf, GoodSources, ProgramOf, WholeBlocks, Main, Go;
    var listed, start := ProgramOf(Linked(LowerAll(sources), LowerSource(program))), Config(Place(0, 0), [], s);
    if ExecutableComesTo(sources, program, s, Stopped(t)) {
      var n: nat :| Go(listed, start, n) == Stopped(t);
      if Meaning(procs, Main(program), s, n + 1).Timeout? {
        StillGoing(sources, program, procs, reach, s, t, n);
      } else {
        var r := ExecutableKeepsMeaning(sources, program, procs, reach, s, n + 1);
        CallNeverReturns(procs, 0, Main(program), s, n + 1);
        StatusUnique(listed, start, r, Stopped(t));
      }
    }
    if fuel: nat :| Meaning(procs, Main(program), s, fuel) == Ok(t) || Meaning(procs, Main(program), s, fuel) == Result.Halted(t) {
      var r := ExecutableKeepsMeaning(sources, program, procs, reach, s, fuel);
    }
  }
}
