/** The machine one instruction at a time, with an instruction pointer and a jump stack. */
module SmallStep {
  import opened Words
  import opened Machine
  import opened Control
  import opened Listing

  /** An instruction pointer: a block of the program and a position in it. */
  datatype Place = Place(block: nat, offset: nat)

  /** A jump stack entry: where to return to, and the block that `recurse` starts again. */
  datatype Frame = Frame(back: Place, dest: nat)

  datatype Config = Config(at: Place, frames: seq<Frame>, s: State)

  datatype Status = Running(c: Config) | Stopped(s: State) | Faulted(s: State)

  /** The place of the next instruction; labels are not instructions, so control runs into the following block. */
  function Settle(prog: seq<Block>, p: Place): Option<Place>
    decreases |prog| - p.block
  {
    if p.block >= |prog| then None
    else if p.offset < |prog[p.block].code| then Some(p)
    else Settle(prog, Place(p.block + 1, 0))
  }

  function Find(prog: seq<Block>, l: string): (r: Option<nat>)
    ensures r.Some? ==> r.value < |prog| && prog[r.value].name == l
  {
    if prog == [] then None
    else if prog[0].name == l then Some(0)
    else var r := Find(prog[1..], l); if r.None? then None else Some(r.value + 1)
  }

  function After(p: Place): Place {
    Place(p.block, p.offset + 1)
  }

  function Step(prog: seq<Block>, c: Config): Status {
    var settled := Settle(prog, c.at);
    if settled.None? then Faulted(c.s) else
    var p := settled.value;
    if p.block >= |prog| || p.offset >= |prog[p.block].code| then Faulted(c.s) else
    var i := prog[p.block].code[p.offset];
    if i == Skiz then
      if |c.s.stack| == 0 then Faulted(c.s)
      else if c.s.stack[0] != 0 then Running(Config(After(p), c.frames, PopTop(c.s)))
      else
        var skipped := Settle(prog, After(p));
        if skipped.None? then Faulted(c.s) else Running(Config(After(skipped.value), c.frames, PopTop(c.s)))
    else if i == Return then
      if c.frames == [] then Faulted(c.s)
      else Running(Config(c.frames[|c.frames| - 1].back, c.frames[..|c.frames| - 1], c.s))
    else if i == Recurse then
      if c.frames == [] then Faulted(c.s)
      else Running(Config(Place(c.frames[|c.frames| - 1].dest, 0), c.frames, c.s))
    else if i == Halt then Stopped(c.s)
    else if i.Call? then
      var d := Find(prog, i.target);
      if d.None? then Faulted(c.s)
      else Running(Config(Place(d.value, 0), c.frames + [Frame(After(p), d.value)], c.s))
    else
      var r := Basic(i, c.s);
      if r.None? then Faulted(c.s) else Running(Config(After(p), c.frames, r.value))
  }

  /** The status after n steps; a stopped or faulted machine stays so. */
  function Go(prog: seq<Block>, c: Config, n: nat): Status
    decreases n
  {
    if n == 0 then Running(c) else
    var r := Step(prog, c);
    if r.Running? then Go(prog, r.c, n - 1) else r
  }

  lemma {:induction false} GoOn(prog: seq<Block>, c: Config, m: nat, n: nat)
    requires Go(prog, c, m).Running?
    ensures Go(prog, c, m + n) == Go(prog, Go(prog, c, m).c, n)
    decreases m
  {
    hide Step;
    if m > 0 {
      var d := Step(prog, c).c;
      GoOn(prog, d, m - 1, n);
      assert Go(prog, c, m + n) == Go(prog, d, m - 1 + n);
    }
  }

  ghost predicate Reaches(prog: seq<Block>, c: Config, r: Status) {
    exists n: nat :: Go(prog, c, n) == r
  }

  /** Reached by at least one step. */
  ghost predicate Advances(prog: seq<Block>, c: Config, r: Status) {
    exists n: nat :: n > 0 && Go(prog, c, n) == r
  }

  lemma AdvancesThen(prog: seq<Block>, c: Config, d: Config, r: Status)
    requires Reaches(prog, c, Running(d)) && Advances(prog, d, r)
    ensures Advances(prog, c, r)
  {
    hide Go;
    var m: nat :| Go(prog, c, m) == Running(d);
    var n: nat :| n > 0 && Go(prog, d, n) == r;
    GoOn(prog, c, m, n);
  }

  lemma AdvancesReaches(prog: seq<Block>, c: Config, r: Status)
    requires Advances(prog, c, r)
    ensures Reaches(prog, c, r)
  {}

  lemma ReachesThen(prog: seq<Block>, c: Config, d: Config, r: Status)
    requires Reaches(prog, c, Running(d)) && Reaches(prog, d, r)
    ensures Reaches(prog, c, r)
  {
    hide Go;
    var m: nat :| Go(prog, c, m) == Running(d);
    var n: nat :| Go(prog, d, n) == r;
    GoOn(prog, c, m, n);
  }

  lemma ReachesStep(prog: seq<Block>, c: Config)
    ensures Reaches(prog, c, Step(prog, c)) && Advances(prog, c, Step(prog, c))
  {
    hide Step;
    assert Go(prog, c, 1) == Step(prog, c);
  }

  lemma ReachesHere(prog: seq<Block>, c: Config)
    ensures Reaches(prog, c, Running(c))
  {
    assert Go(prog, c, 0) == Running(c);
  }

  // ----- running a block is running the machine -----

  /** Every label of the environment is found in the program, with its code. */
  ghost predicate Carries(prog: seq<Block>, env: Env) {
    forall l :: l in env ==> Find(prog, l).Some? && prog[Find(prog, l).value].code == env[l]
  }

  /** Where the machine is once the rest of a block has had the given outcome. */
  ghost predicate Arrives(prog: seq<Block>, c: Config, o: Outcome) {
    match o
    case Done(t) => c.at.block < |prog| && Reaches(prog, c, Running(Config(Place(c.at.block, |prog[c.at.block].code|), c.frames, t)))
    case Returned(t) =>
      c.frames != [] ==> Reaches(prog, c, Running(Config(c.frames[|c.frames| - 1].back, c.frames[..|c.frames| - 1], t)))
    case Recursed(t) => c.frames != [] ==> Advances(prog, c, Running(Config(Place(c.frames[|c.frames| - 1].dest, 0), c.frames, t)))
    case Halted(t) => Reaches(prog, c, Stopped(t))
    case Crashed(t, i) => !i.Call? ==> Reaches(prog, c, Faulted(t))
    case _ => true
  }

  lemma ArrivesThen(prog: seq<Block>, c: Config, d: Config, o: Outcome)
    requires Reaches(prog, c, Running(d)) && Arrives(prog, d, o) && d.frames == c.frames && d.at.block == c.at.block
    ensures Arrives(prog, c, o)
  {
    hide Reaches;
    match o
    case Done(t) => ReachesThen(prog, c, d, Running(Config(Place(c.at.block, |prog[c.at.block].code|), c.frames, t)));
    case Returned(t) =>
      if c.frames != [] {
        ReachesThen(prog, c, d, Running(Config(c.frames[|c.frames| - 1].back, c.frames[..|c.frames| - 1], t)));
      }
    case Recursed(t) =>
      if c.frames != [] {
        AdvancesThen(prog, c, d, Running(Config(Place(c.frames[|c.frames| - 1].dest, 0), c.frames, t)));
      }
    case Halted(t) => ReachesThen(prog, c, d, Stopped(t));
    case Crashed(t, i) =>
      if !i.Call? {
        ReachesThen(prog, c, d, Faulted(t));
      }
    case _ =>
  }

  /** What the rest of a block does according to `Run`, the machine does step by step. */
  lemma {:induction false} RunArrives(prog: seq<Block>, env: Env, c: Config, fuel: nat)
    requires Carries(prog, env) && c.at.block < |prog| && c.at.offset <= |prog[c.at.block].code|
    ensures Arrives(prog, c, Run(env, prog[c.at.block].code[c.at.offset..], c.s, fuel))
    decreases fuel, |prog[c.at.block].code| - c.at.offset
  {
    hide Reaches, Advances, Basic, Step, Go;
    var code := prog[c.at.block].code;
    var o := Run(env, code[c.at.offset..], c.s, fuel);
    if c.at.offset == |code| {
      ReachesHere(prog, c);
    } else {
      var i := code[c.at.offset];
      assert code[c.at.offset..][1..] == code[c.at.offset + 1..];
      ReachesStep(prog, c);
      if i == Skiz {
        SkizArrives(prog, env, c, fuel);
      } else if i.Call? {
        CallArrives(prog, env, c, fuel);
      } else {
        StepsOver(prog, c);
        if i != Return && i != Recurse && i != Halt && Basic(i, c.s).Some? {
          var d := Config(After(c.at), c.frames, Basic(i, c.s).value);
          RunArrives(prog, env, d, fuel);
          ArrivesThen(prog, c, d, o);
        }
      }
    }
  }

  /** A step from a place that holds an instruction other than a call or `skiz`. */
  lemma StepsOver(prog: seq<Block>, c: Config)
    requires c.at.block < |prog| && c.at.offset < |prog[c.at.block].code|
    ensures var i := prog[c.at.block].code[c.at.offset];
      i != Skiz && !i.Call? ==>
      Step(prog, c) ==
        if i == Return then
          if c.frames == [] then Faulted(c.s) else Running(Config(c.frames[|c.frames| - 1].back, c.frames[..|c.frames| - 1], c.s))
        else if i == Recurse then
          if c.frames == [] then Faulted(c.s) else Running(Config(Place(c.frames[|c.frames| - 1].dest, 0), c.frames, c.s))
        else if i == Halt then Stopped(c.s)
        else if Basic(i, c.s).None? then Faulted(c.s)
        else Running(Config(After(c.at), c.frames, Basic(i, c.s).value))
  {
    hide Basic;
  }

  lemma {:induction false} SkizArrives(prog: seq<Block>, env: Env, c: Config, fuel: nat)
    requires Carries(prog, env) && c.at.block < |prog| && c.at.offset < |prog[c.at.block].code|
    requires prog[c.at.block].code[c.at.offset] == Skiz
    ensures Arrives(prog, c, Run(env, prog[c.at.block].code[c.at.offset..], c.s, fuel))
    decreases fuel, |prog[c.at.block].code| - c.at.offset, 0
  {
    hide Reaches, Advances, Basic, Go, Step, Run;
    var code := prog[c.at.block].code;
    var o := Run(env, code[c.at.offset..], c.s, fuel);
    RunsSkiz(env, code, c.at.offset, c.s, fuel);
    StepsSkiz(prog, c);
    ReachesStep(prog, c);
    if |c.s.stack| > 0 {
      if c.s.stack[0] != 0 {
        var d := Config(After(c.at), c.frames, PopTop(c.s));
        RunArrives(prog, env, d, fuel);
        ArrivesThen(prog, c, d, o);
      } else if c.at.offset + 1 < |code| {
        var d := Config(After(After(c.at)), c.frames, PopTop(c.s));
        RunArrives(prog, env, d, fuel);
        ArrivesThen(prog, c, d, o);
      }
    }
  }

  lemma StepsSkiz(prog: seq<Block>, c: Config)
    requires c.at.block < |prog| && c.at.offset < |prog[c.at.block].code| && prog[c.at.block].code[c.at.offset] == Skiz
    ensures |c.s.stack| == 0 ==> Step(prog, c) == Faulted(c.s)
    ensures |c.s.stack| > 0 && c.s.stack[0] != 0 ==> Step(prog, c) == Running(Config(After(c.at), c.frames, PopTop(c.s)))
    ensures |c.s.stack| > 0 && c.s.stack[0] == 0 && c.at.offset + 1 < |prog[c.at.block].code| ==>
      Step(prog, c) == Running(Config(After(After(c.at)), c.frames, PopTop(c.s)))
  {}

  lemma RunsSkiz(env: Env, code: seq<Instr>, k: nat, s: State, fuel: nat)
    requires k < |code| && code[k] == Skiz
    ensures Run(env, code[k..], s, fuel) ==
      if |s.stack| == 0 then Crashed(s, Skiz)
      else if s.stack[0] != 0 then Run(env, code[k + 1..], PopTop(s), fuel)
      else if k + 1 < |code| then Run(env, code[k + 2..], PopTop(s), fuel)
      else Fell
  {
    assert code[k..][1..] == code[k + 1..];
    if k + 1 < |code| {
      assert code[k..][2..] == code[k + 2..];
    }
  }

  lemma {:induction false} CallArrives(prog: seq<Block>, env: Env, c: Config, fuel: nat)
    requires Carries(prog, env) && c.at.block < |prog| && c.at.offset < |prog[c.at.block].code|
    requires prog[c.at.block].code[c.at.offset].Call?
    ensures Arrives(prog, c, Run(env, prog[c.at.block].code[c.at.offset..], c.s, fuel))
    decreases fuel, |prog[c.at.block].code| - c.at.offset, 0
  {
    hide Reaches, Advances, Basic, Go, Step, Run;
    var code := prog[c.at.block].code;
    var l := code[c.at.offset].target;
    var r := Invoke(env, l, c.s, fuel);
    var o := Run(env, code[c.at.offset..], c.s, fuel);
    RunsIntoCall(env, code, c.at.offset, c.s, fuel);
    InvokeEnds(env, l, c.s, fuel);
    if fuel > 0 && l in env {
      var d := Find(prog, l).value;
      var inside := Config(Place(d, 0), c.frames + [Frame(After(c.at), d)], c.s);
      ReachesStep(prog, c);
      StepsIntoCall(prog, c);
      InvokeArrives(prog, env, c.frames, Frame(After(c.at), d), l, c.s, fuel);
      if r.Done? {
        var back := Config(After(c.at), c.frames, r.s);
        ReachesThen(prog, c, inside, Running(back));
        RunArrives(prog, env, back, fuel);
        ArrivesThen(prog, c, back, o);
      } else if r.Halted? {
        ReachesThen(prog, c, inside, Stopped(r.s));
      } else if r.Crashed? && !r.i.Call? {
        ReachesThen(prog, c, inside, Faulted(r.s));
      }
    }
  }

  lemma StepsIntoCall(prog: seq<Block>, c: Config)
    requires c.at.block < |prog| && c.at.offset < |prog[c.at.block].code| && prog[c.at.block].code[c.at.offset].Call?
    requires Find(prog, prog[c.at.block].code[c.at.offset].target).Some?
    ensures var d := Find(prog, prog[c.at.block].code[c.at.offset].target).value;
      Step(prog, c) == Running(Config(Place(d, 0), c.frames + [Frame(After(c.at), d)], c.s))
  {
    hide Basic;
  }

  lemma RunsIntoCall(env: Env, code: seq<Instr>, k: nat, s: State, fuel: nat)
    requires k < |code| && code[k].Call?
    ensures var r := Invoke(env, code[k].target, s, fuel);
      Run(env, code[k..], s, fuel) == if r.Done? then Run(env, code[k + 1..], r.s, fuel) else r
    ensures fuel == 0 || code[k].target !in env ==> var r := Invoke(env, code[k].target, s, fuel); r.Timeout? || (r.Crashed? && r.i.Call?)
  {
    hide Basic;
    assert code[k..][1..] == code[k + 1..];
  }

  /** A called block brings the machine back to the place after the call, with the jump stack as it was. */
  lemma {:induction false} InvokeArrives(prog: seq<Block>, env: Env, frames: seq<Frame>, frame: Frame, l: string, s: State, fuel: nat)
    requires Carries(prog, env) && fuel > 0 && l in env && Find(prog, l) == Some(frame.dest)
    ensures var r := Invoke(env, l, s, fuel);
      var inside := Config(Place(frame.dest, 0), frames + [frame], s);
      && (r.Done? ==> Reaches(prog, inside, Running(Config(frame.back, frames, r.s))))
      && (r.Halted? ==> Reaches(prog, inside, Stopped(r.s)))
      && (r.Crashed? && !r.i.Call? ==> Reaches(prog, inside, Faulted(r.s)))
    decreases fuel, 0
  {
    hide Reaches, Advances, Basic, Step, Go, Run;
    var inside := Config(Place(frame.dest, 0), frames + [frame], s);
    assert prog[frame.dest].code[0..] == env[l];
    RunArrives(prog, env, inside, fuel - 1);
    var r := Run(env, env[l], s, fuel - 1);
    assert (frames + [frame])[..|frames|] == frames;
    if r.Recursed? && fuel > 1 {
      var again := Config(Place(frame.dest, 0), frames + [frame], r.s);
      AdvancesReaches(prog, inside, Running(again));
      InvokeArrives(prog, env, frames, frame, l, r.s, fuel - 1);
      var q := Invoke(env, l, r.s, fuel - 1);
      if q.Done? {
        ReachesThen(prog, inside, again, Running(Config(frame.back, frames, q.s)));
      } else if q.Halted? {
        ReachesThen(prog, inside, again, Stopped(q.s));
      } else if q.Crashed? && !q.i.Call? {
        ReachesThen(prog, inside, again, Faulted(q.s));
      }
    }
  }

  // ----- listings -----

  /** The program of a listing: the lines before the first label, then the labelled blocks. */
  function ProgramOf(lines: seq<Instr>): seq<Block> {
    [Block("", Until(lines))] + Blocks(lines)
  }

  lemma {:induction false} FindFirst(blocks: seq<Block>, i: nat)
    requires Distinct(blocks) && i < |blocks|
    ensures Find(blocks, blocks[i].name) == Some(i)
    decreases |blocks|
  {
    if i > 0 {
      FindFirst(blocks[1..], i - 1);
    }
  }

  lemma {:induction false} EnvIsFound(blocks: seq<Block>, l: string)
    requires l in EnvOf(blocks)
    ensures Find(blocks, l).Some? && blocks[Find(blocks, l).value].code == EnvOf(blocks)[l]
    decreases |blocks|
  {
    if blocks != [] && blocks[0].name != l {
      EnvIsFound(blocks[1..], l);
    }
  }

  lemma ProgramCarries(lines: seq<Instr>)
    requires "" !in EnvOf(Blocks(lines))
    ensures Carries(ProgramOf(lines), EnvOf(Blocks(lines)))
  {
    var env := EnvOf(Blocks(lines));
    var prog := ProgramOf(lines);
    forall l | l in env
      ensures Find(prog, l).Some? && prog[Find(prog, l).value].code == env[l]
    {
      EnvIsFound(Blocks(lines), l);
      assert prog[1..] == Blocks(lines);
    }
  }

  /** If the code before the first label halts, so does the machine started at the first line, in the same state. */
  lemma ProgramHalts(lines: seq<Instr>, s: State, t: State)
    requires "" !in EnvOf(Blocks(lines)) && Runs(EnvOf(Blocks(lines)), Until(lines), s, Halted(t))
    ensures Reaches(ProgramOf(lines), Config(Place(0, 0), [], s), Stopped(t))
  {
    hide Reaches, Advances, Run, Until, Blocks, EnvOf;
    var env, prog := EnvOf(Blocks(lines)), ProgramOf(lines);
    ProgramCarries(lines);
    var fuel: nat :| Run(env, Until(lines), s, fuel) == Halted(t);
    assert prog[0].code[0..] == Until(lines);
    RunArrives(prog, env, Config(Place(0, 0), [], s), fuel);
  }
}
