/** Counted loops: called with a counter on top, a loop runs its body exactly that many times. */
module Loops {
  import opened Words
  import opened Machine
  import opened Control
  import opened Tir
  import opened Crowding
  import opened Lowering
  import opened Simulation
  import opened Listing
  import opened Compilation

  /** The body leaves the word on top of the stack as it finds it. */
  ghost predicate KeepsTop(procs: Procs, ops: seq<TIROp>) {
    forall s: State, fuel: nat :: |s.stack| > 0 && Eval(procs, 0, ops, s, fuel).Ok? ==>
      var t := Eval(procs, 0, ops, s, fuel).s;
      |t.stack| > 0 && t.stack[0] == s.stack[0]
  }

  /** The state with the counter on top one lower. */
  function CountedDown(s: State): State
    requires |s.stack| > 0 && s.stack[0] != 0
  {
    WithStack(s, [s.stack[0] - 1] + s.stack[1..])
  }

  /** One turn: the counter is not zero, goes down by one, and the body runs. */
  ghost predicate Turn(procs: Procs, ops: seq<TIROp>, s: State, t: State) {
    |s.stack| > 0 && s.stack[0] != 0
    && exists fuel: nat :: Eval(procs, 0, ops, CountedDown(s), fuel) == Ok(t)
  }

  ghost predicate Turns(procs: Procs, ops: seq<TIROp>, trace: seq<State>) {
    forall k :: 0 <= k < |trace| - 1 ==> Turn(procs, ops, trace[k], trace[k + 1])
  }

  /** A loop called with counter c on top takes exactly c turns, and ends with the counter at zero. */
  lemma {:induction false} RunsCountTimes(procs: Procs, l: string, ops: seq<TIROp>, s: State, t: State, fuel: nat)
    returns (trace: seq<State>)
    requires l in procs && procs[l] == LoopBody(ops) && KeepsTop(procs, ops)
    requires Meaning(procs, l, s, fuel) == Ok(t)
    ensures |s.stack| > 0 && |trace| - 1 == s.stack[0] as int && trace[0] == s && trace[s.stack[0]] == t
    ensures Turns(procs, ops, trace)
    ensures forall k :: 0 <= k < |trace| ==> |trace[k].stack| > 0 && trace[k].stack[0] as int == s.stack[0] - k
    decreases fuel
  {
    hide EvalCall, Eval, KeepsTop;
    LoopMeaning(procs, 0, l, ops, s, fuel);
    if s.stack[0] == 0 {
      trace := [s];
    } else {
      var s1 := CountedDown(s);
      var next := Eval(procs, 0, ops, s1, fuel - 1).s;
      KeptTop(procs, ops, s1, fuel - 1);
      var rest := RunsCountTimes(procs, l, ops, next, t, fuel - 1);
      trace := [s] + rest;
      forall k | 0 <= k < |trace| - 1
        ensures Turn(procs, ops, trace[k], trace[k + 1])
      {
        if k > 0 {
          assert Turn(procs, ops, rest[k - 1], rest[k]);
        }
      }
    }
  }

  lemma KeptTop(procs: Procs, ops: seq<TIROp>, s: State, fuel: nat)
    requires KeepsTop(procs, ops) && |s.stack| > 0 && Eval(procs, 0, ops, s, fuel).Ok?
    ensures var t := Eval(procs, 0, ops, s, fuel).s; |t.stack| > 0 && t.stack[0] == s.stack[0]
  {
    hide Eval;
  }

  /**
   * The same for the lowered loop: the generated subroutine, called with counter c, ends in the state that c
   * turns of the body lead to, unless it gets stuck for want of memory.
   */
  lemma LoweredLoopCounts(entry: Option<string>, fns: seq<Function>, procs: Procs, reach: nat, l: string, ops: seq<TIROp>, s: State, t: State, fuel: nat)
    returns (trace: seq<State>)
    requires AllBodies(fns, reach) && ProcsOf(fns, procs) && 4096 <= reach <= 0x1_0000_0000
    requires Distinct(Blocks(LowerModule(ModuleOps(entry, fns))))
    requires l in procs && procs[l] == LoopBody(ops) && KeepsTop(procs, ops)
    requires Meaning(procs, l, s, fuel) == Ok(t)
    ensures |s.stack| > 0 && |trace| - 1 == s.stack[0] as int && trace[0] == s && trace[s.stack[0]] == t
    ensures Turns(procs, ops, trace)
    ensures var env := EnvOf(Blocks(LowerModule(ModuleOps(entry, fns))));
      Invokes(env, l, s, Done(t)) || (Crowds(procs, reach, l, s, fuel) && exists o :: Stuck(o) && Invokes(env, l, s, o))
  {
    hide EvalCall, Eval, KeepsTop, Invokes, LowerModule, Blocks, EnvOf, Turns;
    trace := RunsCountTimes(procs, l, ops, s, t, fuel);
    var o := LoweringPreservesMeaning(entry, fns, procs, reach, l, s, fuel);
  }
}
