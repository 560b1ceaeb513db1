/** The linked program with every label marked as a source name: it runs as it does without the marks. */
module Marking {
  import opened Words
  import opened Machine
  import opened Control
  import opened Listing

  function Mark(i: Instr): Instr {
    if i.Call? then Instr.Call("__" + i.target) else i
  }

  function MarkCode(code: seq<Instr>): (r: seq<Instr>)
    ensures |r| == |code|
  {
    seq(|code|, i requires 0 <= i < |code| => Mark(code[i]))
  }

  function MarkBlocks(blocks: seq<Block>): (r: seq<Block>)
    ensures |r| == |blocks|
  {
    if blocks == [] then [] else [Block("__" + blocks[0].name, MarkCode(blocks[0].code))] + MarkBlocks(blocks[1..])
  }

  lemma MarkOnce(a: string, b: string)
    ensures "__" + a == "__" + b <==> a == b
  {
    assert ("__" + a)[2..] == a && ("__" + b)[2..] == b;
  }

  /** The second environment is the first with marks. */
  ghost predicate Marked(env: Env, marked: Env) {
    forall l :: ("__" + l in marked <==> l in env) && (l in env ==> marked["__" + l] == MarkCode(env[l]))
  }

  lemma {:induction false} MarkedEnv(blocks: seq<Block>)
    ensures Marked(EnvOf(blocks), EnvOf(MarkBlocks(blocks)))
    decreases |blocks|
  {
    hide MarkCode;
    if blocks != [] {
      MarkedEnv(blocks[1..]);
      assert MarkBlocks(blocks)[1..] == MarkBlocks(blocks[1..]);
      forall l
        ensures "__" + l == "__" + blocks[0].name <==> l == blocks[0].name
      {
        MarkOnce(l, blocks[0].name);
      }
    }
  }

  function MarkOutcome(o: Outcome): Outcome {
    if o.Crashed? then Crashed(o.s, Mark(o.i)) else o
  }

  lemma MarkRest(code: seq<Instr>, k: nat)
    requires k <= |code|
    ensures MarkCode(code)[k..] == MarkCode(code[k..])
  {}

  /** Marked code runs in the marked environment as the code does in its own. */
  lemma {:induction false} MarkedRun(env: Env, marked: Env, code: seq<Instr>, s: State, f: nat)
    requires Marked(env, marked)
    ensures Run(marked, MarkCode(code), s, f) == MarkOutcome(Run(env, code, s, f))
    decreases f, |code|
  {
    hide Basic, Invoke, Marked;
    if code != [] {
      var i := code[0];
      MarkRest(code, 1);
      if i == Skiz {
        if |s.stack| > 0 {
          if s.stack[0] != 0 {
            MarkedRun(env, marked, code[1..], PopTop(s), f);
          } else if |code| >= 2 {
            MarkRest(code, 2);
            MarkedRun(env, marked, code[2..], PopTop(s), f);
          }
        }
      } else if i.Call? {
        MarkedInvoke(env, marked, i.target, s, f);
        var r := Invoke(env, i.target, s, f);
        if r.Done? {
          MarkedRun(env, marked, code[1..], r.s, f);
        }
      } else if i != Return && i != Recurse && i != Halt {
        var r := Basic(i, s);
        if r.Some? {
          MarkedRun(env, marked, code[1..], r.value, f);
        }
      }
    }
  }

  lemma {:induction false} MarkedInvoke(env: Env, marked: Env, l: string, s: State, f: nat)
    requires Marked(env, marked)
    ensures Invoke(marked, "__" + l, s, f) == MarkOutcome(Invoke(env, l, s, f))
    decreases f, 0
  {
    hide Run, MarkCode;
    if f > 0 && l in env {
      MarkedRun(env, marked, env[l], s, f - 1);
      var r := Run(env, env[l], s, f - 1);
      if r.Recursed? {
        MarkedInvoke(env, marked, l, r.s, f - 1);
      }
    }
  }

  /** What a marked call comes to, the call comes to. */
  lemma UnmarkedInvokes(env: Env, marked: Env, l: string, s: State, q: Outcome) returns (o: Outcome)
    requires Marked(env, marked) && Invokes(marked, "__" + l, s, q)
    ensures Invokes(env, l, s, o) && q == MarkOutcome(o)
  {
    hide Invoke, Marked;
    var f: nat :| Invoke(marked, "__" + l, s, f) == q;
    MarkedInvoke(env, marked, l, s, f);
    o := Invoke(env, l, s, f);
  }
}
