/** When the order in which functions are analysed shows in the report: only if functions call each other in a circle. */
module CallOrder {
  import opened Machine
  import opened Cost
  import opened CostAnalysis

  // ----- which functions lead to which -----

  /** Function `a` of the program calls function `b` of the program. */
  ghost predicate Calls<C>(m: Model<C>, bodies: Bodies, a: string, b: string) {
    a in bodies && bodies[a].Some? && b in bodies && BlockCalls(m, bodies[a].value, b)
  }

  /** A chain of `n` calls leads from `a` to `b`. */
  ghost predicate Leads<C>(m: Model<C>, bodies: Bodies, a: string, b: string, n: nat)
    decreases n
  {
    if n == 0 then a == b else exists x :: Calls(m, bodies, a, x) && Leads(m, bodies, x, b, n - 1)
  }

  ghost predicate Reaches<C>(m: Model<C>, bodies: Bodies, a: string, b: string) {
    exists n: nat :: Leads(m, bodies, a, b, n)
  }

  /** Some function reaches itself through a different function. */
  ghost predicate Tangled<C>(m: Model<C>, bodies: Bodies) {
    exists a, b :: a != b && Reaches(m, bodies, a, b) && Reaches(m, bodies, b, a)
  }

  lemma {:induction false} LeadsOn<C>(m: Model<C>, bodies: Bodies, a: string, b: string, c: string, i: nat, j: nat)
    requires Leads(m, bodies, a, b, i) && Leads(m, bodies, b, c, j)
    ensures Leads(m, bodies, a, c, i + j)
    decreases i
  {
    if i > 0 {
      var x :| Calls(m, bodies, a, x) && Leads(m, bodies, x, b, i - 1);
      LeadsOn(m, bodies, x, b, c, i - 1, j);
    }
  }

  lemma ReachesOn<C>(m: Model<C>, bodies: Bodies, a: string, b: string, c: string)
    requires Reaches(m, bodies, a, b) && Reaches(m, bodies, b, c)
    ensures Reaches(m, bodies, a, c)
  {
    var i: nat :| Leads(m, bodies, a, b, i);
    var j: nat :| Leads(m, bodies, b, c, j);
    LeadsOn(m, bodies, a, b, c, i, j);
  }

  lemma CallReaches<C>(m: Model<C>, bodies: Bodies, a: string, b: string)
    requires Calls(m, bodies, a, b)
    ensures Reaches(m, bodies, a, b)
  {
    assert Leads(m, bodies, b, b, 0);
    assert Leads(m, bodies, a, b, 1);
  }

  ghost function ReachedFrom<C>(m: Model<C>, bodies: Bodies, a: string): set<string> {
    set b | b in bodies && Reaches(m, bodies, a, b)
  }

  ghost function Rank<C>(m: Model<C>, bodies: Bodies, a: string): nat {
    |ReachedFrom(m, bodies, a)|
  }

  /** Without a tangle, a call of another function leads to where fewer functions can be reached. */
  lemma RankFalls<C>(m: Model<C>, bodies: Bodies, a: string, b: string)
    requires Calls(m, bodies, a, b) && a != b && !Tangled(m, bodies)
    ensures Rank(m, bodies, b) < Rank(m, bodies, a)
  {
    hide Calls, Reaches;
    var from, on := ReachedFrom(m, bodies, a), ReachedFrom(m, bodies, b);
    CallReaches(m, bodies, a, b);
    forall c | c in on
      ensures c in from
    {
      ReachesOn(m, bodies, a, b, c);
    }
    assert a in from by { ReachesItself(m, bodies, a); CallerIsKnown(m, bodies, a, b); }
    assert from == on + (from - on) && a in from - on;
  }

  lemma ReachesItself<C>(m: Model<C>, bodies: Bodies, a: string)
    ensures Reaches(m, bodies, a, a)
  {
    assert Leads(m, bodies, a, a, 0);
  }

  lemma CallerIsKnown<C>(m: Model<C>, bodies: Bodies, a: string, b: string)
    requires Calls(m, bodies, a, b)
    ensures a in bodies
  {}

  // ----- the plain cost -----

  /** A callee's cost, the function's own calls of itself left out. */
  function Apart<C>(m: Model<C>, cost: string -> C, name: string): string -> C {
    n => if n == name then m.zero else cost(n)
  }

  /** The recursive definition, without guard and without memory; only calls of itself count as nothing. */
  ghost predicate Plain<C(!new)>(m: Model<C>, bodies: Bodies, cost: string -> C) {
    forall n :: cost(n) == if n in bodies then BodyCost(m, Apart(m, cost, n), bodies[n]) else m.zero
  }

  /** Calls of other functions go down in rank. */
  ghost predicate Descends<C>(m: Model<C>, bodies: Bodies, rank: string -> nat) {
    forall n, k | Calls(m, bodies, n, k) && n != k :: rank(k) < rank(n)
  }

  ghost predicate Correct<C(!new)>(memo: map<string, C>, cost: string -> C) {
    forall n :: n in memo ==> memo[n] == cost(n)
  }

  /** With a correct memo, and every function in progress ranked higher, a call is charged what the plain definition says. */
  lemma {:induction false} GuardHitsOnlyItself<C(!new)>(m: Model<C>, bodies: Bodies, rank: string -> nat, cost: string -> C,
                                                       memo: map<string, C>, progress: seq<string>, name: string)
    requires Descends(m, bodies, rank) && Plain(m, bodies, cost) && Correct(memo, cost)
    requires forall p :: p in progress ==> rank(name) < rank(p)
    ensures FnCost(m, bodies, memo, progress, name) == cost(name)
    decreases Untouched(bodies, progress)
  {
    if name in bodies && name !in memo {
      assert name !in progress;
      assert name in Untouched(bodies, progress) && name !in Untouched(bodies, progress + [name]);
      if bodies[name].Some? {
        var f, g := Callee(m, bodies, memo, progress + [name]), Apart(m, cost, name);
        forall n | BlockCalls(m, bodies[name].value, n)
          ensures f(n) == g(n)
        {
          assert f(n) == FnCost(m, bodies, memo, progress + [name], n);
          if n in bodies && n != name {
            assert Calls(m, bodies, name, n);
            GuardHitsOnlyItself(m, bodies, rank, cost, memo, progress + [name], n);
          }
        }
        BlockSame(m, f, g, bodies[name].value);
      }
    }
  }

  lemma {:induction false} MemoStaysCorrect<C(!new)>(m: Model<C>, bodies: Bodies, rank: string -> nat, cost: string -> C,
                                                    memo: map<string, C>, names: seq<string>)
    requires Descends(m, bodies, rank) && Plain(m, bodies, cost) && Correct(memo, cost)
    ensures Correct(Memo(m, bodies, memo, names), cost)
    decreases |names|
  {
    if names != [] {
      var before := names[..|names| - 1];
      MemoStaysCorrect(m, bodies, rank, cost, memo, before);
      GuardHitsOnlyItself(m, bodies, rank, cost, Memo(m, bodies, memo, before), [], names[|names| - 1]);
    }
  }

  /** The plain definition has a solution. */
  function PlainCost<C>(m: Model<C>, bodies: Bodies, rank: string -> nat, name: string): C
    decreases rank(name), 0
  {
    if name !in bodies then m.zero
    else BodyCost(m, n => if rank(n) < rank(name) then PlainCost(m, bodies, rank, n) else m.zero, bodies[name])
  }

  lemma PlainCostIsPlain<C(!new)>(m: Model<C>, bodies: Bodies, rank: string -> nat)
    requires Descends(m, bodies, rank)
    ensures Plain(m, bodies, n => PlainCost(m, bodies, rank, n))
  {
    var cost := n => PlainCost(m, bodies, rank, n);
    forall n
      ensures cost(n) == if n in bodies then BodyCost(m, Apart(m, cost, n), bodies[n]) else m.zero
    {
      if n in bodies && bodies[n].Some? {
        var lower := k => if rank(k) < rank(n) then PlainCost(m, bodies, rank, k) else m.zero;
        var apart := Apart(m, cost, n);
        forall k | BlockCalls(m, bodies[n].value, k)
          ensures lower(k) == apart(k)
        {
          assert k in bodies ==> Calls(m, bodies, n, k);
          assert k !in bodies ==> PlainCost(m, bodies, rank, k) == m.zero;
        }
        BlockSame(m, lower, apart, bodies[n].value);
      }
    }
  }

  /** Where no function calls itself either, nothing at all is left out of the plain definition. */
  lemma PlainIsComplete<C(!new)>(m: Model<C>, bodies: Bodies, cost: string -> C, name: string)
    requires Plain(m, bodies, cost) && name in bodies && !Calls(m, bodies, name, name)
    ensures cost(name) == BodyCost(m, cost, bodies[name])
  {
    if bodies[name].Some? {
      var apart := Apart(m, cost, name);
      forall k | BlockCalls(m, bodies[name].value, k)
        ensures apart(k) == cost(k)
      {}
      BlockSame(m, apart, cost, bodies[name].value);
    }
  }

  // ----- without a tangle the order does not show -----

  /** The costs that analysing functions from the outside, in this order, gives. */
  function Costs<C>(m: Model<C>, bodies: Bodies, names: seq<string>): (costs: seq<C>)
    ensures |costs| == |names|
  {
    if names == [] then []
    else
      var before := names[..|names| - 1];
      Costs(m, bodies, before) + [FnCost(m, bodies, Memo(m, bodies, map[], before), [], names[|names| - 1])]
  }

  lemma {:induction false} CostsAre<C>(m: Model<C>, bodies: Bodies, names: seq<string>, k: nat)
    requires k < |names|
    ensures Costs(m, bodies, names)[k] == FnCost(m, bodies, Memo(m, bodies, map[], names[..k]), [], names[k])
    decreases |names|
  {
    hide FnCost, Memo;
    if k < |names| - 1 {
      CostsAre(m, bodies, names[..|names| - 1], k);
      assert names[..|names| - 1][..k] == names[..k];
    }
  }

  ghost function RankOf<C>(m: Model<C>, bodies: Bodies): string -> nat {
    n => Rank(m, bodies, n)
  }

  lemma UntangledDescends<C>(m: Model<C>, bodies: Bodies)
    requires !Tangled(m, bodies)
    ensures Descends(m, bodies, RankOf(m, bodies))
  {
    hide Tangled, Calls, Rank;
    forall n, k | Calls(m, bodies, n, k) && n != k
      ensures Rank(m, bodies, k) < Rank(m, bodies, n)
    {
      RankFalls(m, bodies, n, k);
    }
  }

  /** What a function is reported at in a program without a tangle. */
  ghost function SettledCost<C>(m: Model<C>, bodies: Bodies, name: string): C {
    PlainCost(m, bodies, RankOf(m, bodies), name)
  }

  /**
   * For every target: where no function reaches itself through a different one, a function analysed from the outside
   * is charged the same whatever was analysed before it.
   */
  lemma SettledWhateverCameBefore<C(!new)>(m: Model<C>, bodies: Bodies, before: seq<string>, name: string)
    requires !Tangled(m, bodies)
    ensures FnCost(m, bodies, Memo(m, bodies, map[], before), [], name) == SettledCost(m, bodies, name)
  {
    hide Descends, Plain, Memo, FnCost, PlainCost, Tangled;
    var rank := RankOf(m, bodies);
    var cost := n => PlainCost(m, bodies, rank, n);
    UntangledDescends(m, bodies);
    PlainCostIsPlain(m, bodies, rank);
    MemoStaysCorrect(m, bodies, rank, cost, map[], before);
    GuardHitsOnlyItself(m, bodies, rank, cost, Memo(m, bodies, map[], before), [], name);
  }

  /** The settled costs as what calls are charged. */
  ghost function Settled<C>(m: Model<C>, bodies: Bodies): string -> C {
    n => SettledCost(m, bodies, n)
  }

  lemma LoopIsSettled<C(!new)>(m: Model<C>, bodies: Bodies, before: seq<string>, body: Option<Block>)
    requires !Tangled(m, bodies)
    ensures LoopCost(m, Callee(m, bodies, Memo(m, bodies, map[], before), []), body) == LoopCost(m, Settled(m, bodies), body)
  {
    hide Tangled, Memo, FnCost, SettledCost, BlockCost;
    if body.Some? && FirstLoop(body.value.stmts).Some? && FirstLoop(body.value.stmts).value.For? {
      var f, g, inside := Callee(m, bodies, Memo(m, bodies, map[], before), []), Settled(m, bodies), FirstLoop(body.value.stmts).value.body;
      forall n | BlockCalls(m, inside, n)
        ensures f(n) == g(n)
      {
        SettledWhateverCameBefore(m, bodies, before, n);
      }
      BlockSame(m, f, g, inside);
    }
  }

  /** So the report of a whole file has every function, and every first loop, at that cost, in whatever order it goes through them. */
  lemma {:induction false} ReportIsSettled<C(!new)>(m: Model<C>, bodies: Bodies, names: seq<string>, k: nat)
    requires !Tangled(m, bodies) && (forall n :: n in names ==> n in bodies) && k < |names|
    ensures Reported(m, bodies, names)[k]
         == FunctionCost(names[k], SettledCost(m, bodies, names[k]), LoopCost(m, Settled(m, bodies), bodies[names[k]]))
    decreases |names|
  {
    hide Tangled, Memo, FnCost, SettledCost, LoopCost;
    var last := |names| - 1;
    if k < last {
      ReportIsSettled(m, bodies, names[..last], k);
    } else {
      SettledWhateverCameBefore(m, bodies, Sequence(m, bodies, names[..last]), names[last]);
      LoopIsSettled(m, bodies, Sequence(m, bodies, names), bodies[names[last]]);
    }
  }

  /** No two orders report a function differently. */
  ghost predicate OrderFree<C(!new)>(m: Model<C>, bodies: Bodies) {
    forall names, others, j, k | 0 <= j < |names| && 0 <= k < |others| && names[j] == others[k] ::
      Costs(m, bodies, names)[j] == Costs(m, bodies, others)[k]
  }

  lemma OrderDoesNotMatter<C(!new)>(m: Model<C>, bodies: Bodies)
    requires !Tangled(m, bodies)
    ensures OrderFree(m, bodies)
  {
    hide Tangled, Memo, FnCost, SettledCost, Costs;
    forall names, others, j, k | 0 <= j < |names| && 0 <= k < |others| && names[j] == others[k]
      ensures Costs(m, bodies, names)[j] == Costs(m, bodies, others)[k]
    {
      CostsAre(m, bodies, names, j);
      CostsAre(m, bodies, others, k);
      SettledWhateverCameBefore(m, bodies, names[..j], names[j]);
      SettledWhateverCameBefore(m, bodies, others[..k], others[k]);
    }
  }
}
