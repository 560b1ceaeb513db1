/** Runs that use up their fuel: the machine that goes step by step is still running then, at least as many steps on. */
module Endless {
  import opened Words
  import opened Machine
  import opened Control
  import opened Listing
  import opened SmallStep

  /** Still running after at least `n` steps. */
  ghost predicate Lasts(prog: seq<Block>, c: Config, n: nat) {
    exists k: nat :: k >= n && Go(prog, c, k).Running?
  }

  lemma LastsHere(prog: seq<Block>, c: Config)
    ensures Lasts(prog, c, 0)
  {
    assert Go(prog, c, 0).Running?;
  }

  lemma LastsFrom(prog: seq<Block>, c: Config, d: Config, n: nat)
    requires Reaches(prog, c, Running(d)) && Lasts(prog, d, n)
    ensures Lasts(prog, c, n)
  {
    hide Go;
    var m: nat :| Go(prog, c, m) == Running(d);
    var k: nat :| k >= n && Go(prog, d, k).Running?;
    GoOn(prog, c, m, k);
    assert Go(prog, c, m + k).Running?;
  }

  lemma LastsAfter(prog: seq<Block>, c: Config, d: Config, n: nat)
    requires Advances(prog, c, Running(d)) && Lasts(prog, d, n)
    ensures Lasts(prog, c, n + 1)
  {
    hide Go;
    var m: nat :| m > 0 && Go(prog, c, m) == Running(d);
    var k: nat :| k >= n && Go(prog, d, k).Running?;
    GoOn(prog, c, m, k);
    assert Go(prog, c, m + k).Running?;
  }

  lemma LastsAfterStep(prog: seq<Block>, c: Config, d: Config, n: nat)
    requires Step(prog, c) == Running(d) && Lasts(prog, d, n)
    ensures Lasts(prog, c, n + 1)
  {
    hide Step;
    var k: nat :| k >= n && Go(prog, d, k).Running?;
    assert Go(prog, c, k + 1) == Go(prog, d, k);
  }

  lemma LastsLess(prog: seq<Block>, c: Config, m: nat, n: nat)
    requires Lasts(prog, c, n) && m <= n
    ensures Lasts(prog, c, m)
  {
    hide Go;
  }

  /** The rest of a block that uses up its fuel. */
  lemma {:induction false} TimeoutLasts(prog: seq<Block>, env: Env, c: Config, fuel: nat)
    requires Carries(prog, env) && c.at.block < |prog| && c.at.offset <= |prog[c.at.block].code|
    requires Run(env, prog[c.at.block].code[c.at.offset..], c.s, fuel) == Outcome.Timeout
    ensures Lasts(prog, c, fuel)
    decreases fuel, |prog[c.at.block].code| - c.at.offset
  {
    hide Reaches, Advances, Basic, Step, Go, Lasts;
    var code := prog[c.at.block].code;
    var i := code[c.at.offset];
    assert code[c.at.offset..][1..] == code[c.at.offset + 1..];
    if i == Skiz {
      RunsSkiz(env, code, c.at.offset, c.s, fuel);
      StepsSkiz(prog, c);
      var d := Config(if c.s.stack[0] != 0 then After(c.at) else After(After(c.at)), c.frames, PopTop(c.s));
      TimeoutLasts(prog, env, d, fuel);
      LastsAfterStep(prog, c, d, fuel);
      LastsLess(prog, c, fuel, fuel + 1);
    } else if i.Call? {
      CallLasts(prog, env, c, fuel);
    } else {
      StepsOver(prog, c);
      var d := Config(After(c.at), c.frames, Basic(i, c.s).value);
      TimeoutLasts(prog, env, d, fuel);
      LastsAfterStep(prog, c, d, fuel);
      LastsLess(prog, c, fuel, fuel + 1);
    }
  }

  lemma {:induction false} CallLasts(prog: seq<Block>, env: Env, c: Config, fuel: nat)
    requires Carries(prog, env) && c.at.block < |prog| && c.at.offset < |prog[c.at.block].code|
    requires prog[c.at.block].code[c.at.offset].Call?
    requires Run(env, prog[c.at.block].code[c.at.offset..], c.s, fuel) == Outcome.Timeout
    ensures Lasts(prog, c, fuel)
    decreases fuel, |prog[c.at.block].code| - c.at.offset, 0
  {
    hide Reaches, Advances, Basic, Go, Step, Run, Lasts;
    var code := prog[c.at.block].code;
    var l := code[c.at.offset].target;
    var r := Invoke(env, l, c.s, fuel);
    RunsIntoCall(env, code, c.at.offset, c.s, fuel);
    InvokeEnds(env, l, c.s, fuel);
    if fuel == 0 {
      LastsHere(prog, c);
    } else {
      var d := Find(prog, l).value;
      var frame := Frame(After(c.at), d);
      var inside := Config(Place(d, 0), c.frames + [frame], c.s);
      StepsIntoCall(prog, c);
      if r.Done? {
        ReachesStep(prog, c);
        InvokeArrives(prog, env, c.frames, frame, l, c.s, fuel);
        var back := Config(After(c.at), c.frames, r.s);
        ReachesThen(prog, c, inside, Running(back));
        TimeoutLasts(prog, env, back, fuel);
        LastsFrom(prog, c, back, fuel);
      } else {
        InvokeLasts(prog, env, c.frames, frame, l, c.s, fuel);
        LastsAfterStep(prog, c, inside, fuel - 1);
      }
    }
  }

  lemma {:induction false} InvokeLasts(prog: seq<Block>, env: Env, frames: seq<Frame>, frame: Frame, l: string, s: State, fuel: nat)
    requires Carries(prog, env) && fuel > 0 && l in env && Find(prog, l) == Some(frame.dest)
    requires Invoke(env, l, s, fuel) == Outcome.Timeout
    ensures Lasts(prog, Config(Place(frame.dest, 0), frames + [frame], s), fuel - 1)
    decreases fuel, 0
  {
    hide Reaches, Advances, Basic, Step, Go, Run, Lasts;
    var inside := Config(Place(frame.dest, 0), frames + [frame], s);
    assert prog[frame.dest].code[0..] == env[l];
    var r := Run(env, env[l], s, fuel - 1);
    if r.Timeout? {
      TimeoutLasts(prog, env, inside, fuel - 1);
    } else if fuel == 1 {
      LastsHere(prog, inside);
    } else {
      RunArrives(prog, env, inside, fuel - 1);
      assert (frames + [frame])[|frames|] == frame;
      var again := Config(Place(frame.dest, 0), frames + [frame], r.s);
      InvokeLasts(prog, env, frames, frame, l, r.s, fuel - 1);
      LastsAfter(prog, inside, again, fuel - 2);
    }
  }
}
