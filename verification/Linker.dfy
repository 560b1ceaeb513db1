/** Linking: modules get their labels prefixed and put together, and functions that are never reached are dropped. */
module Linker {
  import opened Machine
  import opened Control
  import opened Listing
  import opened SmallStep
  import opened Tir

  datatype ModuleTasm = ModuleTasm(name: string, isProgram: bool, lines: seq<Instr>)

  // ----- mangling -----

  function DotsToUnderscores(name: string): (r: string)
    ensures |r| == |name|
  {
    seq(|name|, i requires 0 <= i < |name| => if name[i] == '.' then '_' else name[i])
  }

  function MangleModule(name: string): string {
    DotsToUnderscores(name) + "__"
  }

  function MangleLine(line: Instr, prefix: string): Instr {
    if line.Label? && Prefixed(line.name) then Label(prefix + line.name[2..])
    else if line.Call? && |line.target| > 0 && line.target[0] == '@' then Instr.Call(line.target[1..])
    else if line.Call? && Prefixed(line.target) then Instr.Call(prefix + line.target[2..])
    else line
  }

  function MangleLines(lines: seq<Instr>, prefix: string): (r: seq<Instr>)
    ensures |r| == |lines|
  {
    seq(|lines|, i requires 0 <= i < |lines| => MangleLine(lines[i], prefix))
  }

  /** A program's lines before its first label are the linker's business and are left out. */
  function Mangled(lines: seq<Instr>, prefix: string, isProgram: bool): seq<Instr> {
    MangleLines(if isProgram then lines[|Until(lines)|..] else lines, prefix)
  }

  method MangleLabels(lines: seq<Instr>, prefix: string, isProgram: bool) returns (result: seq<Instr>)
    ensures result == Mangled(lines, prefix, isProgram)
  {
    result := [];
    var beforeFunctions := true;
    var skip := |Until(lines)|;
    ghost var from := if isProgram then skip else 0;
    for k := 0 to |lines|
      invariant beforeFunctions <==> k <= skip && (k < skip || skip == |lines| || k == skip)
      invariant result == MangleLines(lines[if k < from then k else from..k], prefix)
    {
      if lines[k].Label? {
        beforeFunctions := false;
      }
      if isProgram && beforeFunctions {
        continue;
      }
      result := result + [MangleLine(lines[k], prefix)];
    }
  }

  function AllMangled(modules: seq<ModuleTasm>): seq<Instr> {
    if modules == [] then []
    else Mangled(modules[0].lines, MangleModule(modules[0].name), modules[0].isProgram) + AllMangled(modules[1..])
  }

  // ----- the call graph -----

  function LineTargets(name: string, line: Instr): seq<string> {
    if line.Call? then [line.target] else if line == Recurse then [name] else []
  }

  function CallTargets(name: string, code: seq<Instr>): seq<string> {
    if code == [] then [] else LineTargets(name, code[0]) + CallTargets(name, code[1..])
  }

  type CallGraph = map<string, seq<string>>

  /** A later block of the same name replaces an earlier one. */
  function GraphOf(blocks: seq<Block>): CallGraph
    decreases |blocks|
  {
    if blocks == [] then map[]
    else var b := blocks[|blocks| - 1]; GraphOf(blocks[..|blocks| - 1])[b.name := CallTargets(b.name, b.code)]
  }

  ghost predicate Edge(graph: CallGraph, a: string, b: string) {
    a in graph && b in graph[a]
  }

  ghost predicate Path(graph: CallGraph, a: string, b: string, n: nat)
    decreases n
  {
    if n == 0 then a == b else exists m :: Path(graph, a, m, n - 1) && Edge(graph, m, b)
  }

  ghost predicate Reachable(graph: CallGraph, a: string, b: string) {
    exists n: nat :: Path(graph, a, b, n)
  }

  lemma ReachOn(graph: CallGraph, a: string, m: string, b: string)
    requires Reachable(graph, a, m) && Edge(graph, m, b)
    ensures Reachable(graph, a, b)
  {
    var n: nat :| Path(graph, a, m, n);
    assert Path(graph, a, b, n + 1);
  }

  ghost predicate ClosedUnder(graph: CallGraph, s: set<string>) {
    forall a, b :: a in s && Edge(graph, a, b) ==> b in s
  }

  lemma {:induction false} ClosedHasPaths(graph: CallGraph, s: set<string>, a: string, b: string, n: nat)
    requires ClosedUnder(graph, s) && a in s && Path(graph, a, b, n)
    ensures b in s
    decreases n
  {
    if n > 0 {
      var m :| Path(graph, a, m, n - 1) && Edge(graph, m, b);
      ClosedHasPaths(graph, s, a, m, n - 1);
    }
  }

  /** Each label line starts a function that reaches to the next one. */
  method ScanFunctions(lines: seq<Instr>) returns (functions: seq<Block>)
    ensures functions == Blocks(lines)
  {
    functions := [];
    var i := 0;
    while i < |lines|
      invariant i <= |lines|
      invariant functions + Blocks(lines[i..]) == Blocks(lines)
      decreases |lines| - i
    {
      assert lines[i..][0] == lines[i] && lines[i..][1..] == lines[i + 1..];
      if lines[i].Label? {
        var start := i + 1;
        i := FunctionEnd(lines, start);
        functions := functions + [Block(lines[start - 1].name, lines[start..i])];
      } else {
        i := i + 1;
      }
    }
  }

  /** Scans to the next label or to the end. */
  method FunctionEnd(lines: seq<Instr>, start: nat) returns (i: nat)
    requires start <= |lines|
    ensures start <= i <= |lines|
    ensures lines[start..i] == Until(lines[start..]) && Blocks(lines[start..]) == Blocks(lines[i..])
  {
    hide Within, Until, Blocks;
    i := start;
    WithinStart(lines, start);
    while i < |lines| && !lines[i].Label?
      invariant start <= i <= |lines| && Within(lines, start, i)
    {
      WithinNext(lines, start, i);
      i := i + 1;
    }
    WithinEnd(lines, start, i);
  }

  /** The lines from `start` up to `i` hold no label. */
  predicate Within(lines: seq<Instr>, start: nat, i: nat)
    requires start <= i <= |lines|
  {
    Until(lines[start..]) == lines[start..i] + Until(lines[i..]) && Blocks(lines[start..]) == Blocks(lines[i..])
  }

  lemma WithinStart(lines: seq<Instr>, start: nat)
    requires start <= |lines|
    ensures Within(lines, start, start)
  {
    hide Until, Blocks;
    assert lines[start..start] + Until(lines[start..]) == Until(lines[start..]);
  }

  lemma WithinNext(lines: seq<Instr>, start: nat, i: nat)
    requires start <= i < |lines| && !lines[i].Label? && Within(lines, start, i)
    ensures Within(lines, start, i + 1)
  {
    assert lines[i..][0] == lines[i] && lines[i..][1..] == lines[i + 1..];
    assert Until(lines[i..]) == [lines[i]] + Until(lines[i + 1..]);
    assert Blocks(lines[i..]) == Blocks(lines[i + 1..]);
    hide Until, Blocks;
    assert lines[start..i + 1] == lines[start..i] + [lines[i]];
    Assoc(lines[start..i], [lines[i]], Until(lines[i + 1..]));
  }

  lemma WithinEnd(lines: seq<Instr>, start: nat, i: nat)
    requires start <= i <= |lines| && (i < |lines| ==> lines[i].Label?) && Within(lines, start, i)
    ensures lines[start..i] == Until(lines[start..]) && Blocks(lines[start..]) == Blocks(lines[i..])
  {
    if i < |lines| {
      assert lines[i..][0] == lines[i];
    }
    assert Until(lines[i..]) == [];
    hide Until, Blocks;
    assert lines[start..i] + [] == lines[start..i];
  }

  method TargetsOf(name: string, code: seq<Instr>) returns (calls: seq<string>)
    ensures calls == CallTargets(name, code)
  {
    calls := [];
    for j := 0 to |code|
      invariant calls + CallTargets(name, code[j..]) == CallTargets(name, code)
    {
      assert code[j..][0] == code[j] && code[j..][1..] == code[j + 1..];
      Assoc(calls, LineTargets(name, code[j]), CallTargets(name, code[j + 1..]));
      ghost var before := calls;
      if code[j].Call? {
        calls := calls + [code[j].target];
      } else if code[j] == Recurse {
        calls := calls + [name];
      }
      assert calls == before + LineTargets(name, code[j]);
    }
  }

  method BuildGraph(blocks: seq<Block>) returns (graph: CallGraph)
    ensures graph == GraphOf(blocks)
  {
    graph := map[];
    for k := 0 to |blocks|
      invariant graph == GraphOf(blocks[..k])
    {
      var calls := TargetsOf(blocks[k].name, blocks[k].code);
      assert blocks[..k + 1][..k] == blocks[..k] && blocks[..k + 1][k] == blocks[k];
      graph := graph[blocks[k].name := calls];
    }
    assert blocks[..|blocks|] == blocks;
  }

  /** The targets not yet reached join the queue. */
  method Enqueue(targets: seq<string>, reachable: set<string>, waiting: seq<string>) returns (queue: seq<string>)
    ensures forall l :: l in queue <==> l in waiting || (l in targets && l !in reachable)
  {
    queue := waiting;
    for k := 0 to |targets|
      invariant forall l :: l in queue <==> l in waiting || (l in targets[..k] && l !in reachable)
    {
      assert targets[..k + 1] == targets[..k] + [targets[k]];
      if targets[k] !in reachable {
        queue := queue + [targets[k]];
      }
    }
    assert targets[..|targets|] == targets;
  }

  ghost function Universe(graph: CallGraph, entry: string): set<string> {
    {entry} + set a, b | a in graph && b in graph[a] :: b
  }

  /** What the search keeps: all it has seen is reachable, and whatever leads on is in the queue. */
  ghost predicate Searching(graph: CallGraph, entry: string, reachable: set<string>, queue: seq<string>) {
    && (entry in reachable || entry in queue)
    && (forall l :: l in reachable || l in queue ==> Reachable(graph, entry, l))
    && (forall a, b :: a in reachable && Edge(graph, a, b) ==> b in reachable || b in queue)
  }

  lemma VisitKeeps(graph: CallGraph, entry: string, reachable: set<string>, queue: seq<string>, next: seq<string>)
    requires queue != [] && Searching(graph, entry, reachable, queue) && queue[0] !in reachable
    requires queue[0] in graph ==> forall l :: l in next <==> l in queue[1..] || (l in graph[queue[0]] && l !in reachable + {queue[0]})
    requires queue[0] !in graph ==> next == queue[1..]
    ensures Searching(graph, entry, reachable + {queue[0]}, next)
  {
    hide Reachable;
    var name := queue[0];
    assert queue == [name] + queue[1..];
    if name in graph {
      forall b | b in graph[name]
        ensures Reachable(graph, entry, b)
      {
        ReachOn(graph, entry, name, b);
      }
    }
  }

  lemma SkipKeeps(graph: CallGraph, entry: string, reachable: set<string>, queue: seq<string>)
    requires queue != [] && Searching(graph, entry, reachable, queue) && queue[0] in reachable
    ensures Searching(graph, entry, reachable, queue[1..])
  {
    hide Reachable, Edge;
    assert queue == [queue[0]] + queue[1..];
  }

  lemma SearchDone(graph: CallGraph, entry: string, reachable: set<string>)
    requires Searching(graph, entry, reachable, [])
    ensures forall l :: l in reachable <==> Reachable(graph, entry, l)
  {
    forall l | Reachable(graph, entry, l)
      ensures l in reachable
    {
      var n: nat :| Path(graph, entry, l, n);
      ClosedHasPaths(graph, reachable, entry, l, n);
    }
  }

  /** Breadth-first search from the entry label: exactly the labels that some chain of calls leads to. */
  method Reach(graph: CallGraph, entry: string) returns (reachable: set<string>)
    ensures forall l :: l in reachable <==> Reachable(graph, entry, l)
  {
    reachable := {};
    var queue := [entry];
    assert Path(graph, entry, entry, 0);
    ReachableInUniverse(graph, entry);
    while queue != []
      invariant Searching(graph, entry, reachable, queue)
      decreases Universe(graph, entry) - reachable, |queue|
    {
      hide Reachable, Edge, Universe;
      var name := queue[0];
      ghost var before, seen := queue, reachable;
      queue := queue[1..];
      if name in reachable {
        SkipKeeps(graph, entry, seen, before);
        continue;
      }
      assert name in Universe(graph, entry) - seen;
      reachable := reachable + {name};
      if name in graph {
        queue := Enqueue(graph[name], reachable, queue);
      }
      VisitKeeps(graph, entry, seen, before, queue);
    }
    SearchDone(graph, entry, reachable);
  }

  // ----- emitting the reachable functions -----

  function Kept(blocks: seq<Block>, keep: set<string>): seq<Block> {
    if blocks == [] then []
    else (if blocks[0].name in keep then [blocks[0]] else []) + Kept(blocks[1..], keep)
  }

  function BlockLines(blocks: seq<Block>): seq<Instr> {
    if blocks == [] then [] else [Label(blocks[0].name)] + blocks[0].code + BlockLines(blocks[1..])
  }

  ghost function ReachableSet(graph: CallGraph, entry: string): (s: set<string>)
    ensures forall l :: l in s <==> Reachable(graph, entry, l)
  {
    ReachableInUniverse(graph, entry);
    set l | l in Universe(graph, entry) && Reachable(graph, entry, l)
  }

  lemma ReachableInUniverse(graph: CallGraph, entry: string)
    ensures forall l :: Reachable(graph, entry, l) ==> l in Universe(graph, entry)
  {
    forall l | Reachable(graph, entry, l)
      ensures l in Universe(graph, entry)
    {
      var n: nat :| Path(graph, entry, l, n);
      if n > 0 {
        var m :| Path(graph, entry, m, n - 1) && Edge(graph, m, l);
      }
    }
  }

  /** The linked listing of a program: its own lines before the first label, then the functions reached from its main label. */
  ghost function Linked(modules: seq<ModuleTasm>, program: ModuleTasm): seq<Instr> {
    var prefix := MangleModule(program.name);
    var blocks := Blocks(AllMangled(modules));
    MangleLines(Until(program.lines), prefix)
    + BlockLines(Kept(blocks, ReachableSet(GraphOf(blocks), prefix + "main")))
  }

  method MangleAll(modules: seq<ModuleTasm>) returns (lines: seq<Instr>)
    ensures lines == AllMangled(modules)
  {
    lines := [];
    for k := 0 to |modules|
      invariant lines + AllMangled(modules[k..]) == AllMangled(modules)
    {
      var mangled := MangleLabels(modules[k].lines, MangleModule(modules[k].name), modules[k].isProgram);
      assert modules[k..][0] == modules[k] && modules[k..][1..] == modules[k + 1..];
      Assoc(lines, mangled, AllMangled(modules[k + 1..]));
      lines := lines + mangled;
    }
  }

  method EmitReachable(blocks: seq<Block>, reachable: set<string>) returns (output: seq<Instr>)
    ensures output == BlockLines(Kept(blocks, reachable))
  {
    output := [];
    assert blocks[0..] == blocks;
    for k := 0 to |blocks|
      invariant output + BlockLines(Kept(blocks[k..], reachable)) == BlockLines(Kept(blocks, reachable))
    {
      hide Kept, BlockLines;
      KeptFirst(blocks, k, reachable);
      if blocks[k].name in reachable {
        var code := [Label(blocks[k].name)] + blocks[k].code;
        Assoc(output, code, BlockLines(Kept(blocks[k + 1..], reachable)));
        output := output + code;
      } else {
        assert [] + BlockLines(Kept(blocks[k + 1..], reachable)) == BlockLines(Kept(blocks[k + 1..], reachable));
      }
    }
  }

  /** The first module that is a program. */
  function ProgramIn(modules: seq<ModuleTasm>): (program: Option<ModuleTasm>)
    ensures program.Some? <==> exists k :: 0 <= k < |modules| && modules[k].isProgram
    ensures program.Some? ==> program.value.isProgram
    ensures program.Some? ==>
      exists k :: 0 <= k < |modules| && modules[k] == program.value && forall j :: 0 <= j < k ==> !modules[j].isProgram
  {
    if modules == [] then None
    else if modules[0].isProgram then Some(modules[0])
    else ProgramIn(modules[1..])
  }

  /** Without a program among the modules, nothing is dropped. */
  method Link(modules: seq<ModuleTasm>) returns (output: seq<Instr>)
    ensures output == if ProgramIn(modules).None? then AllMangled(modules) else Linked(modules, ProgramIn(modules).value)
  {
    hide Blocks, GraphOf, AllMangled, Until, MangleLines, Kept, BlockLines, Reachable, ProgramIn;
    var found := ProgramIn(modules);
    var lines := MangleAll(modules);
    if found.None? {
      return lines;
    }
    var program := found.value;
    var blocks := ScanFunctions(lines);
    var graph := BuildGraph(blocks);
    var prefix := MangleModule(program.name);
    var reachable := Reach(graph, prefix + "main");
    assert reachable == ReachableSet(graph, prefix + "main");
    var prelude := MangleLabels(Until(program.lines), prefix, false);
    var functions := EmitReachable(blocks, reachable);
    output := prelude + functions;
  }

  lemma KeptFirst(blocks: seq<Block>, k: nat, keep: set<string>)
    requires k < |blocks|
    ensures BlockLines(Kept(blocks[k..], keep))
         == (if blocks[k].name in keep then [Label(blocks[k].name)] + blocks[k].code else []) + BlockLines(Kept(blocks[k + 1..], keep))
  {
    assert blocks[k..][0] == blocks[k] && blocks[k..][1..] == blocks[k + 1..];
    var rest := Kept(blocks[k + 1..], keep);
    if blocks[k].name in keep {
      assert ([blocks[k]] + rest)[1..] == rest;
    } else {
      assert [] + rest == rest;
    }
  }
}
