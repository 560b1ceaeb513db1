/** Running code with jumps, block by block: what a called block does from entry to return. */
module Control {
  import opened Words
  import opened Machine

  /** The code of every labelled block. */
  type Env = map<string, seq<Instr>>

  datatype Outcome =
    | Done(s: State)                 // ran past the end of the given code
    | Returned(s: State)
    | Recursed(s: State)
    | Halted(s: State)
    | Crashed(s: State, i: Instr)    // the machine stopped with an error at `i`
    | Fell                           // left a block other than by return, recurse or halt
    | Timeout                        // `fuel` calls were not enough

  function PopTop(s: State): State
    requires |s.stack| > 0
  {
    WithStack(s, s.stack[1..])
  }

  function Run(env: Env, code: seq<Instr>, s: State, fuel: nat): Outcome
    decreases fuel, |code|
  {
    if code == [] then Done(s) else
    var i := code[0];
    if i == Return then Returned(s)
    else if i == Recurse then Recursed(s)
    else if i == Halt then Halted(s)
    else if i == Skiz then
      if |s.stack| == 0 then Crashed(s, i)
      else if s.stack[0] != 0 then Run(env, code[1..], PopTop(s), fuel)
      else if |code| < 2 then Fell
      else Run(env, code[2..], PopTop(s), fuel)
    else if i.Call? then
      var r := Invoke(env, i.target, s, fuel);
      if r.Done? then Run(env, code[1..], r.s, fuel) else r
    else
      var r := Basic(i, s);
      if r.None? then Crashed(s, i) else Run(env, code[1..], r.value, fuel)
  }

  /** Calls block `l`; a `recurse` starts the block again. */
  function Invoke(env: Env, l: string, s: State, fuel: nat): Outcome
    decreases fuel, 0
  {
    if fuel == 0 then Timeout
    else if l !in env then Crashed(s, Call(l))
    else
      var r := Run(env, env[l], s, fuel - 1);
      if r.Returned? then Done(r.s)
      else if r.Recursed? then Invoke(env, l, r.s, fuel - 1)
      else if r.Done? then Fell
      else r
  }

  ghost predicate Runs(env: Env, code: seq<Instr>, s: State, o: Outcome) {
    o != Timeout && exists fuel: nat :: Run(env, code, s, fuel) == o
  }

  ghost predicate Invokes(env: Env, l: string, s: State, o: Outcome) {
    o != Timeout && exists fuel: nat :: Invoke(env, l, s, fuel) == o
  }

  // ----- more fuel changes nothing -----

  lemma {:induction false} RunMono(env: Env, code: seq<Instr>, s: State, f: nat, g: nat)
    requires f <= g && Run(env, code, s, f) != Timeout
    ensures Run(env, code, s, g) == Run(env, code, s, f)
    decreases f, |code|
  {
    hide Basic;
    if code != [] {
      if code[0] == Skiz {
        if |s.stack| > 0 {
          if s.stack[0] != 0 {
            RunMono(env, code[1..], PopTop(s), f, g);
          } else if |code| >= 2 {
            RunMono(env, code[2..], PopTop(s), f, g);
          }
        }
      } else if code[0].Call? {
        InvokeMono(env, code[0].target, s, f, g);
        var r := Invoke(env, code[0].target, s, f);
        if r.Done? {
          RunMono(env, code[1..], r.s, f, g);
        }
      } else if code[0] != Return && code[0] != Recurse && code[0] != Halt {
        var r := Basic(code[0], s);
        if r.Some? {
          RunMono(env, code[1..], r.value, f, g);
        }
      }
    }
  }

  lemma {:induction false} InvokeMono(env: Env, l: string, s: State, f: nat, g: nat)
    requires f <= g && Invoke(env, l, s, f) != Timeout
    ensures Invoke(env, l, s, g) == Invoke(env, l, s, f)
    decreases f, 0
  {
    hide Run;
    if l in env {
      RunMono(env, env[l], s, f - 1, g - 1);
      var r := Run(env, env[l], s, f - 1);
      if r.Recursed? {
        InvokeMono(env, l, r.s, f - 1, g - 1);
      }
    }
  }

  /** The machine is deterministic: code has at most one outcome. */
  lemma RunsUnique(env: Env, code: seq<Instr>, s: State, o: Outcome, q: Outcome)
    requires Runs(env, code, s, o) && Runs(env, code, s, q)
    ensures o == q
  {
    var f: nat :| Run(env, code, s, f) == o;
    var g: nat :| Run(env, code, s, g) == q;
    if f <= g {
      RunMono(env, code, s, f, g);
    } else {
      RunMono(env, code, s, g, f);
    }
  }

  lemma {:induction false} InvokeEnds(env: Env, l: string, s: State, fuel: nat)
    ensures var r := Invoke(env, l, s, fuel); !r.Returned? && !r.Recursed?
    decreases fuel
  {
    hide Run;
    if fuel > 0 && l in env && Run(env, env[l], s, fuel - 1).Recursed? {
      InvokeEnds(env, l, Run(env, env[l], s, fuel - 1).s, fuel - 1);
    }
  }

  // ----- putting pieces of code together -----

  /** A piece whose last instruction is not a dangling `skiz`. */
  predicate Whole(code: seq<Instr>) {
    code == [] || code[|code| - 1] != Skiz
  }

  lemma {:induction false} RunCat(env: Env, a: seq<Instr>, b: seq<Instr>, s: State, f: nat)
    requires Whole(a)
    ensures var r := Run(env, a, s, f);
      Run(env, a + b, s, f) == if r.Done? then Run(env, b, r.s, f) else r
    decreases |a|
  {
    hide Basic, Invoke;
    if a == [] {
      assert a + b == b;
    } else {
      assert (a + b)[1..] == a[1..] + b;
      if a[0] == Skiz {
        assert (a + b)[2..] == a[2..] + b;
        if |s.stack| > 0 {
          if s.stack[0] != 0 {
            RunCat(env, a[1..], b, PopTop(s), f);
          } else {
            RunCat(env, a[2..], b, PopTop(s), f);
          }
        }
      } else if a[0].Call? {
        var r := Invoke(env, a[0].target, s, f);
        if r.Done? {
          RunCat(env, a[1..], b, r.s, f);
        }
      } else if a[0] != Return && a[0] != Recurse && a[0] != Halt {
        var r := Basic(a[0], s);
        if r.Some? {
          RunCat(env, a[1..], b, r.value, f);
        }
      }
    }
  }

  lemma JumpsAreNotBasic(i: Instr, s: State)
    ensures Jump(i) ==> Basic(i, s) == None
  {}

  lemma {:induction false} RunExec(env: Env, code: seq<Instr>, s: State, t: State, f: nat)
    requires Exec(code, s) == Some(t)
    ensures Run(env, code, s, f) == Done(t)
    decreases |code|
  {
    if code != [] {
      JumpsAreNotBasic(code[0], s);
      RunExec(env, code[1..], Basic(code[0], s).value, t, f);
    }
  }

  lemma RunsExec(env: Env, code: seq<Instr>, s: State, t: State)
    requires Exec(code, s) == Some(t)
    ensures Runs(env, code, s, Done(t))
  {
    RunExec(env, code, s, t, 0);
  }

  lemma RunsCat(env: Env, a: seq<Instr>, b: seq<Instr>, s: State, t: State, o: Outcome)
    requires Whole(a) && Runs(env, a, s, Done(t)) && Runs(env, b, t, o)
    ensures Runs(env, a + b, s, o)
  {
    var f: nat :| Run(env, a, s, f) == Done(t);
    var g: nat :| Run(env, b, t, g) == o;
    var h := if f <= g then g else f;
    RunMono(env, a, s, f, h);
    RunMono(env, b, t, g, h);
    RunCat(env, a, b, s, h);
  }

  lemma RunsStop(env: Env, a: seq<Instr>, b: seq<Instr>, s: State, o: Outcome)
    requires Whole(a) && Runs(env, a, s, o) && !o.Done?
    ensures Runs(env, a + b, s, o)
  {
    var f: nat :| Run(env, a, s, f) == o;
    RunCat(env, a, b, s, f);
  }

  lemma RunsCall(env: Env, l: string, s: State, o: Outcome)
    requires Invokes(env, l, s, o)
    ensures Runs(env, [Call(l)], s, o)
  {
    var f: nat :| Invoke(env, l, s, f) == o;
    var code := [Call(l)];
    assert code[1..] == [];
    assert Run(env, code, s, f) == o;
  }

  /** `skiz` over a nonzero word goes on with the next instruction. */
  lemma RunsThrough(env: Env, rest: seq<Instr>, s: State, o: Outcome)
    requires |s.stack| > 0 && s.stack[0] != 0 && Runs(env, rest, PopTop(s), o)
    ensures Runs(env, [Skiz] + rest, s, o)
  {
    var f: nat :| Run(env, rest, PopTop(s), f) == o;
    assert ([Skiz] + rest)[1..] == rest;
    assert Run(env, [Skiz] + rest, s, f) == o;
  }

  /** `skiz` over zero leaves out the next instruction. */
  lemma RunsOver(env: Env, i: Instr, rest: seq<Instr>, s: State, o: Outcome)
    requires |s.stack| > 0 && s.stack[0] == 0 && Runs(env, rest, PopTop(s), o)
    ensures Runs(env, [Skiz, i] + rest, s, o)
  {
    var f: nat :| Run(env, rest, PopTop(s), f) == o;
    assert ([Skiz, i] + rest)[2..] == rest;
    assert Run(env, [Skiz, i] + rest, s, f) == o;
  }

  lemma RunsLast(env: Env, i: Instr, s: State)
    requires i == Return || i == Recurse || i == Halt
    ensures Runs(env, [i], s, if i == Return then Returned(s) else if i == Recurse then Recursed(s) else Halted(s))
  {
    assert Run(env, [i], s, 0) == if i == Return then Returned(s) else if i == Recurse then Recursed(s) else Halted(s);
  }

  lemma RunsNothing(env: Env, s: State)
    ensures Runs(env, [], s, Done(s))
  {
    assert Run(env, [], s, 0) == Done(s);
  }

  lemma RunsCrash(env: Env, i: Instr, rest: seq<Instr>, s: State)
    requires !Jump(i) && Basic(i, s) == None
    ensures Runs(env, [i] + rest, s, Crashed(s, i))
  {
    assert Run(env, [i] + rest, s, 0) == Crashed(s, i);
  }

  lemma InvokesReturn(env: Env, l: string, s: State, t: State)
    requires l in env && Runs(env, env[l], s, Returned(t))
    ensures Invokes(env, l, s, Done(t))
  {
    var f: nat :| Run(env, env[l], s, f) == Returned(t);
    assert Invoke(env, l, s, f + 1) == Done(t);
  }

  lemma InvokesStop(env: Env, l: string, s: State, o: Outcome)
    requires l in env && Runs(env, env[l], s, o) && (o.Halted? || o.Crashed?)
    ensures Invokes(env, l, s, o)
  {
    var f: nat :| Run(env, env[l], s, f) == o;
    assert Invoke(env, l, s, f + 1) == o;
  }

  lemma InvokesAgain(env: Env, l: string, s: State, t: State, o: Outcome)
    requires l in env && Runs(env, env[l], s, Recursed(t)) && Invokes(env, l, t, o)
    ensures Invokes(env, l, s, o)
  {
    var f: nat :| Run(env, env[l], s, f) == Recursed(t);
    var g: nat :| Invoke(env, l, t, g) == o;
    var h := if f <= g then g else f;
    RunMono(env, env[l], s, f, h);
    InvokeMono(env, l, t, g, h);
    assert Invoke(env, l, s, h + 1) == o;
  }
}
