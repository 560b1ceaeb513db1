/** The static cost is the worst case exactly where every loop is bounded, and the report of a file says so of its functions. */
module WorstCase {
  import opened Machine
  import opened Cost
  import opened CostAnalysis
  import opened CallOrder
  import opened CostRuns

  // ----- where a loop is not bounded, no cost is enough -----

  /** Something beyond any number. */
  ghost predicate Beyond(takes: nat -> bool, least: nat) {
    exists n: nat :: takes(n) && n >= least
  }

  lemma {:induction false} OpenBlockGrows<C(!new)>(t: Table<C>, callee: string -> C, b: Block, least: nat) returns (n: nat)
    requires Counts(t) && t.rows(t.m.loopOverhead) > 0 && forall n | BlockCalls(t.m, b, n) :: CalleeMost(t, callee, n)
    requires OpenBlock(b) && t.assumed > least
    ensures BlockTakes(t, b, n) && n >= least
    decreases b, 0
  {
    hide CalleeMost, ExprTakes, ExprCost;
    var x := OpenStmtsGrow(t, callee, b.stmts, least);
    if b.tail.Some? {
      ExprMost(t, callee, b.tail.value);
    }
    var y := if b.tail.Some? then t.rows(ExprCost(t.m, callee, b.tail.value)) else 0;
    assert TailTakes(t, b.tail, y);
    n := x + y;
  }

  lemma {:induction false} OpenStmtsGrow<C(!new)>(t: Table<C>, callee: string -> C, stmts: seq<Stmt>, least: nat) returns (n: nat)
    requires Counts(t) && t.rows(t.m.loopOverhead) > 0 && forall n | StmtsCall(t.m, stmts, n) :: CalleeMost(t, callee, n)
    requires OpenStmts(stmts) && t.assumed > least
    ensures StmtsTake(t, stmts, n) && n >= least
    decreases stmts, 1
  {
    hide CalleeMost, StmtTakes, StmtCost, OpenStmt, StmtCalls;
    var a, b;
    if OpenStmt(stmts[0]) {
      a := OpenStmtGrows(t, callee, stmts[0], least);
      StmtsMost(t, callee, stmts[1..], t.m.zero);
      b := t.rows(StmtsCost(t.m, callee, stmts[1..], t.m.zero));
    } else {
      StmtMost(t, callee, stmts[0]);
      a := t.rows(StmtCost(t.m, callee, stmts[0]));
      b := OpenStmtsGrow(t, callee, stmts[1..], least);
    }
    n := a + b;
  }

  lemma {:induction false} OpenStmtGrows<C(!new)>(t: Table<C>, callee: string -> C, s: Stmt, least: nat) returns (n: nat)
    requires Counts(t) && t.rows(t.m.loopOverhead) > 0 && forall n | StmtCalls(t.m, s, n) :: CalleeMost(t, callee, n)
    requires OpenStmt(s) && t.assumed > least
    ensures StmtTakes(t, s, n) && n >= least
    decreases s, 0
  {
    hide CalleeMost, ExprTakes, BlockTakes, ExprCost, BlockCost, OpenBlock, ArmTakes, OpenArm;
    match s
    case If(cond, thenBlock, elseBlock) =>
      ExprMost(t, callee, cond);
      var b;
      if OpenBlock(thenBlock) {
        b := OpenBlockGrows(t, callee, thenBlock, least);
      } else {
        b := OpenBlockGrows(t, callee, elseBlock.value, least);
        assert ElseTakes(t, elseBlock, b);
      }
      n := t.rows(ExprCost(t.m, callee, cond)) + b + t.rows(t.m.ifOverhead);
      assert IfTakes(t, s, n);
    case For(end, bound, body) => n := OpenForGrows(t, callee, end, bound, body, least);
    case Match(scrutinee, arms) =>
      ExprMost(t, callee, scrutinee);
      var i :| 0 <= i < |arms| && OpenArm(arms[i]);
      ArmCallsThrough(t.m, arms, i);
      var b := OpenArmGrows(t, callee, arms[i], least);
      var checks := |Compared(arms, |arms|)|;
      FewerCompared(arms, i + 1);
      assert ArmsTake(t, arms, checks, b);
      n := t.rows(ExprCost(t.m, callee, scrutinee)) + CheckRows(t) * checks + b;
      assert MatchTakes(t, s, n);
  }

  lemma {:induction false} ArmCallsThrough<C>(m: Model<C>, arms: seq<Arm>, i: nat)
    requires i < |arms|
    ensures forall n | ArmCalls(m, arms[i], n) :: ArmsCall(m, arms, n)
    decreases i
  {
    if i > 0 {
      ArmCallsThrough(m, arms[1..], i - 1);
      assert arms[1..][i - 1] == arms[i];
    }
  }

  lemma {:induction false} OpenArmGrows<C(!new)>(t: Table<C>, callee: string -> C, arm: Arm, least: nat) returns (n: nat)
    requires Counts(t) && t.rows(t.m.loopOverhead) > 0 && forall n | ArmCalls(t.m, arm, n) :: CalleeMost(t, callee, n)
    requires OpenArm(arm) && t.assumed > least
    ensures ArmTakes(t, arm, n) && n >= least
    decreases arm, 1
  {
    hide CalleeMost;
    n := OpenBlockGrows(t, callee, arm.body, least);
  }

  lemma {:induction false} OpenForGrows<C(!new)>(t: Table<C>, callee: string -> C, end: Expr, bound: Option<nat>, body: Block, least: nat)
    returns (n: nat)
    requires Counts(t) && t.rows(t.m.loopOverhead) > 0 && forall n | StmtCalls(t.m, For(end, bound, body), n) :: CalleeMost(t, callee, n)
    requires OpenStmt(For(end, bound, body)) && t.assumed > least
    ensures StmtTakes(t, For(end, bound, body), n) && n >= least
    decreases For(end, bound, body), -1
  {
    hide CalleeMost, ExprTakes, BlockTakes, ExprCost, BlockCost, OpenBlock;
    ExprMost(t, callee, end);
    var a, over := t.rows(ExprCost(t.m, callee, end)), t.rows(t.m.loopOverhead);
    var b: nat;
    if Unbounded(end, bound) {
      BlockMost(t, callee, body);
      var per := t.rows(BlockCost(t.m, callee, body)) + over;
      TurnsMost(t, body, t.rows(BlockCost(t.m, callee, body)), t.assumed);
      b := per * t.assumed;
      AtLeast(per, t.assumed);
      assert TurnsTake(t, body, t.assumed, b) && Turns(t.assumed, end, bound, t.assumed);
    } else {
      var x := OpenBlockGrows(t, callee, body, least);
      b := x + over;
      assert TurnsTake(t, body, 0, 0);
      assert TurnsTake(t, body, 1, b) && Turns(t.assumed, end, bound, 1);
    }
    n := a + b;
    assert ForTakes(t, For(end, bound, body), n);
  }

  lemma AtLeast(a: nat, n: nat)
    requires a > 0
    ensures a * n >= n
  {
    Monotone(n, 1, a);
  }

  /**
   * However often unbounded loops turn, no run of the block exceeds the cost; that holds exactly for blocks in which
   * no run gets into a loop that nothing bounds.
   */
  lemma WorstCaseExactly<C(!new)>(t: Table<C>, callee: string -> C, b: Block)
    requires Counts(t) && t.rows(t.m.loopOverhead) > 0 && forall n | BlockCalls(t.m, b, n) :: CalleeMost(t, callee, n)
    ensures (forall assumed: nat, n: nat | assumed >= 1 && BlockTakes(t.(assumed := assumed), b, n) :: n <= t.rows(BlockCost(t.m, callee, b)))
      <==> !OpenBlock(b)
  {
    hide BlockTakes, BlockCost, OpenBlock, BlockCalls;
    var most := t.rows(BlockCost(t.m, callee, b));
    if OpenBlock(b) {
      var other := t.(assumed := most + 2);
      var n := OpenBlockGrows(other, callee, b, most + 1);
      assert BlockTakes(t.(assumed := most + 2), b, n);
    } else {
      forall assumed: nat, n: nat | assumed >= 1 && BlockTakes(t.(assumed := assumed), b, n)
        ensures n <= most
      {
        BlockMost(t.(assumed := assumed), callee, b);
      }
    }
  }

  // ----- the loop figure of the report -----

  /**
   * The figure is about the first loop of the body: what one turn takes at most, and the most turns it may make, a loop
   * that nothing bounds being taken to turn once.
   */
  lemma LoopFigure<C(!new)>(t: Table<C>, callee: string -> C, body: Block)
    requires Counts(t) && t.assumed == 1 && forall n | BlockCalls(t.m, body, n) :: CalleeMost(t, callee, n)
    ensures LoopCost(t.m, callee, Some(body)).None? <==> forall i :: 0 <= i < |body.stmts| ==> !body.stmts[i].For?
    ensures LoopCost(t.m, callee, Some(body)).Some? ==>
      var (turn, most) := LoopCost(t.m, callee, Some(body)).value;
      exists i :: 0 <= i < |body.stmts| && LoopIs(t, body.stmts, i, t.rows(turn), most)
  {
    hide CalleeMost, BlockTakes, BlockCost;
    FirstLoopIs(body.stmts);
    if LoopCost(t.m, callee, Some(body)).Some? {
      var i :| 0 <= i < |body.stmts| && FirstLoop(body.stmts) == Some(body.stmts[i]) && forall j :: 0 <= j < i ==> !body.stmts[j].For?;
      var loop := body.stmts[i];
      StmtCallsThrough(t.m, body.stmts, i);
      forall n | BlockCalls(t.m, loop.body, n)
        ensures CalleeMost(t, callee, n)
      {
        assert StmtCalls(t.m, body.stmts[i], n);
      }
      BlockMost(t, callee, loop.body);
      var turn, most := t.rows(LoopCost(t.m, callee, Some(body)).value.0), LoopCost(t.m, callee, Some(body)).value.1;
      assert LoopIs(t, body.stmts, i, turn, most);
    }
  }

  /** The first loop of the statements is the one at `i`; a turn of it takes `turn` rows at most, and it turns `most` times at most. */
  ghost predicate LoopIs<C>(t: Table<C>, stmts: seq<Stmt>, i: nat, turn: nat, most: nat)
    requires i < |stmts|
  {
    && stmts[i].For? && (forall j :: 0 <= j < i ==> !stmts[j].For?)
    && turn >= t.rows(t.m.loopOverhead) && BlockTakes(t, stmts[i].body, turn - t.rows(t.m.loopOverhead))
    && (forall n: nat | BlockTakes(t, stmts[i].body, n) :: n + t.rows(t.m.loopOverhead) <= turn)
    && Turns(1, stmts[i].end, stmts[i].bound, most)
    && (forall turns: nat | Turns(1, stmts[i].end, stmts[i].bound, turns) :: turns <= most)
  }

  lemma {:induction false} FirstLoopIs(stmts: seq<Stmt>)
    ensures FirstLoop(stmts).None? <==> forall i :: 0 <= i < |stmts| ==> !stmts[i].For?
    ensures FirstLoop(stmts).Some? ==>
      FirstLoop(stmts).value.For?
      && exists i :: 0 <= i < |stmts| && FirstLoop(stmts) == Some(stmts[i]) && forall j :: 0 <= j < i ==> !stmts[j].For?
    decreases |stmts|
  {
    if stmts != [] && !stmts[0].For? {
      FirstLoopIs(stmts[1..]);
      assert forall i :: 0 <= i < |stmts[1..]| ==> stmts[1..][i] == stmts[i + 1];
      if FirstLoop(stmts).Some? {
        var i :| 0 <= i < |stmts[1..]| && FirstLoop(stmts) == Some(stmts[1..][i]) && forall j :: 0 <= j < i ==> !stmts[1..][j].For?;
        forall j | 0 <= j < i + 1
          ensures !stmts[j].For?
        {
          if j > 0 {
            assert stmts[j] == stmts[1..][j - 1];
          }
        }
        assert FirstLoop(stmts) == Some(stmts[i + 1]);
      }
    }
  }

  lemma {:induction false} StmtCallsThrough<C>(m: Model<C>, stmts: seq<Stmt>, i: nat)
    requires i < |stmts|
    ensures forall n | StmtCalls(m, stmts[i], n) :: StmtsCall(m, stmts, n)
    decreases i
  {
    if i > 0 {
      StmtCallsThrough(m, stmts[1..], i - 1);
      assert stmts[1..][i - 1] == stmts[i];
    }
  }

  // ----- whole programs -----

  /** What a call of the function may take, calls nested no deeper than `depth`; a function without a body takes nothing. */
  ghost predicate FunctionTakes<C>(m: Model<C>, rows: C -> nat, assumed: nat, bodies: Bodies, name: string, n: nat, depth: nat)
    decreases depth
  {
    if name !in bodies || bodies[name].None? then n == 0
    else
      depth > 0
      && var calls := (k: string, c: nat) => FunctionTakes(m, rows, assumed, bodies, k, c, depth - 1);
         BlockTakes(Table(m, rows, calls, assumed), bodies[name].value, n)
  }

  ghost function TableAt<C>(m: Model<C>, rows: C -> nat, assumed: nat, bodies: Bodies, depth: nat): Table<C> {
    Table(m, rows, (k: string, c: nat) => FunctionTakes(m, rows, assumed, bodies, k, c, depth), assumed)
  }

  /** No function reaches itself. */
  ghost predicate Straight<C>(m: Model<C>, bodies: Bodies) {
    !Tangled(m, bodies) && forall n :: !Calls(m, bodies, n, n)
  }

  /** Every loop that a run can get into has a declared bound or a literal end. */
  predicate Bounded(bodies: Bodies) {
    forall n :: n in bodies && bodies[n].Some? ==> !OpenBlock(bodies[n].value)
  }

  lemma SettledIsBody<C(!new)>(m: Model<C>, bodies: Bodies, name: string)
    requires Straight(m, bodies)
    ensures SettledCost(m, bodies, name) == if name in bodies then BodyCost(m, Settled(m, bodies), bodies[name]) else m.zero
  {
    hide Tangled, Calls, Descends, Plain, PlainCost, BodyCost;
    var rank := RankOf(m, bodies);
    var cost := n => PlainCost(m, bodies, rank, n);
    UntangledDescends(m, bodies);
    PlainCostIsPlain(m, bodies, rank);
    if name in bodies {
      PlainIsComplete(m, bodies, cost, name);
      SameBody(m, cost, Settled(m, bodies), bodies[name]);
    } else {
      UnknownCosts(m, bodies, rank, name);
    }
  }

  lemma SameBody<C(!new)>(m: Model<C>, f: string -> C, g: string -> C, body: Option<Block>)
    requires forall n :: f(n) == g(n)
    ensures BodyCost(m, f, body) == BodyCost(m, g, body)
  {
    if body.Some? {
      BlockSame(m, f, g, body.value);
    }
  }

  lemma UnknownCosts<C>(m: Model<C>, bodies: Bodies, rank: string -> nat, name: string)
    requires name !in bodies
    ensures PlainCost(m, bodies, rank, name) == m.zero
  {}

  /** Every function that the function calls is charged the most that calling it may take. */
  lemma {:induction false} CalleesMost<C(!new)>(m: Model<C>, rows: C -> nat, assumed: nat, bodies: Bodies, name: string, k: string, depth: nat)
    requires Counted(m, rows) && Straight(m, bodies) && (assumed == 1 || (assumed > 1 && Bounded(bodies)))
    requires name in bodies && bodies[name].Some? && BlockCalls(m, bodies[name].value, k) && depth > Rank(m, bodies, name)
    ensures CalleeMost(TableAt(m, rows, assumed, bodies, depth - 1), Settled(m, bodies), k)
    decreases depth, 0
  {
    hide Tangled, Rank, SettledCost, BlockTakes, BlockCost, BlockCalls, OpenBlock, FunctionTakes;
    if k in bodies {
      assert Calls(m, bodies, name, k);
      RankFalls(m, bodies, name, k);
      FunctionMost(m, rows, assumed, bodies, k, depth - 1);
    } else {
      SettledIsBody(m, bodies, k);
      UnknownTakes(m, rows, assumed, bodies, k, depth - 1);
    }
  }

  lemma UnknownTakes<C>(m: Model<C>, rows: C -> nat, assumed: nat, bodies: Bodies, name: string, depth: nat)
    requires name !in bodies || bodies[name].None?
    ensures forall n: nat :: FunctionTakes(m, rows, assumed, bodies, name, n, depth) <==> n == 0
  {}

  lemma KnownTakes<C>(m: Model<C>, rows: C -> nat, assumed: nat, bodies: Bodies, name: string, depth: nat)
    requires name in bodies && bodies[name].Some? && depth > 0
    ensures forall n: nat ::
      FunctionTakes(m, rows, assumed, bodies, name, n, depth) <==> BlockTakes(TableAt(m, rows, assumed, bodies, depth - 1), bodies[name].value, n)
  {}

  /**
   * In a program in which no function reaches itself: the settled cost of a function is the most that calling it may
   * take, if unbounded loops turn once, and if there are none however often they would.
   */
  lemma {:induction false} FunctionMost<C(!new)>(m: Model<C>, rows: C -> nat, assumed: nat, bodies: Bodies, name: string, depth: nat)
    requires Counted(m, rows) && Straight(m, bodies) && (assumed == 1 || (assumed > 1 && Bounded(bodies))) && depth > Rank(m, bodies, name)
    ensures FunctionTakes(m, rows, assumed, bodies, name, rows(SettledCost(m, bodies, name)), depth)
    ensures forall n: nat | FunctionTakes(m, rows, assumed, bodies, name, n, depth) :: n <= rows(SettledCost(m, bodies, name))
    decreases depth, 1
  {
    hide Straight, Rank, SettledCost, BlockTakes, BlockCost, BlockCalls, OpenBlock, FunctionTakes, CalleeMost;
    SettledIsBody(m, bodies, name);
    if name in bodies && bodies[name].Some? {
      var t := TableAt(m, rows, assumed, bodies, depth - 1);
      forall k | BlockCalls(m, bodies[name].value, k)
        ensures CalleeMost(t, Settled(m, bodies), k)
      {
        CalleesMost(m, rows, assumed, bodies, name, k, depth);
      }
      BlockMost(t, Settled(m, bodies), bodies[name].value);
      KnownTakes(m, rows, assumed, bodies, name, depth);
    } else {
      UnknownTakes(m, rows, assumed, bodies, name, depth);
    }
  }

  lemma RankIsSmall<C>(m: Model<C>, bodies: Bodies, name: string)
    ensures Rank(m, bodies, name) <= |bodies|
  {
    var all, some := bodies.Keys, ReachedFrom(m, bodies, name);
    assert all == some + (all - some);
  }

  /** Each function of the report is listed at the most that calling it may take, in every table. */
  lemma ReportIsWorstCase<C(!new)>(m: Model<C>, rows: C -> nat, assumed: nat, bodies: Bodies, names: seq<string>, k: nat, depth: nat)
    requires Counted(m, rows) && Straight(m, bodies) && (assumed == 1 || (assumed > 1 && Bounded(bodies)))
    requires (forall n :: n in names ==> n in bodies) && k < |names| && depth > |bodies|
    ensures var report := Reported(m, bodies, names)[k];
      && report.name == names[k]
      && FunctionTakes(m, rows, assumed, bodies, names[k], rows(report.cost), depth)
      && forall n: nat | FunctionTakes(m, rows, assumed, bodies, names[k], n, depth) :: n <= rows(report.cost)
  {
    hide Calls, Rank, SettledCost, FunctionTakes, LoopCost, Reported;
    ReportIsSettled(m, bodies, names, k);
    RankIsSmall(m, bodies, names[k]);
    FunctionMost(m, rows, assumed, bodies, names[k], depth);
  }

  lemma {:induction false} InSequence<C>(m: Model<C>, bodies: Bodies, names: seq<string>, name: string)
    requires (forall n :: n in names ==> n in bodies) && name in names
    ensures name in Sequence(m, bodies, names)
    decreases |names|
  {
    hide LoopNames;
    var k := |names| - 1;
    if name != names[k] {
      assert names == names[..k] + [names[k]];
      InSequence(m, bodies, names[..k], name);
    }
  }

  /** The total of a program is what its main function may take at most, and a call more. */
  lemma TotalIsWorstCase<C(!new)>(m: Model<C>, rows: C -> nat, assumed: nat, bodies: Bodies, names: seq<string>, depth: nat)
    requires Counted(m, rows) && Straight(m, bodies) && (assumed == 1 || (assumed > 1 && Bounded(bodies)))
    requires (forall n :: n in names ==> n in bodies) && "main" in names && depth > |bodies|
    ensures var total := rows(Total(m, bodies, names));
      var call := rows(m.callOverhead);
      && total >= call && FunctionTakes(m, rows, assumed, bodies, "main", total - call, depth)
      && forall n: nat | FunctionTakes(m, rows, assumed, bodies, "main", n, depth) :: n + call <= total
  {
    hide Calls, Rank, SettledCost, FunctionTakes, LoopCost, Reported, FnCost, Sequence, Memo;
    var all := Sequence(m, bodies, names);
    InSequence(m, bodies, names, "main");
    MemoGrows(m, bodies, map[], all, "main");
    MemoIsSettled(m, bodies, all, "main");
    RankIsSmall(m, bodies, "main");
    FunctionMost(m, rows, assumed, bodies, "main", depth);
  }

  lemma MemoIsSettled<C(!new)>(m: Model<C>, bodies: Bodies, before: seq<string>, name: string)
    requires !Tangled(m, bodies) && name in Memo(m, bodies, map[], before)
    ensures Memo(m, bodies, map[], before)[name] == SettledCost(m, bodies, name)
  {
    hide Descends, Plain, Memo, PlainCost, Tangled;
    var rank := RankOf(m, bodies);
    var cost := n => PlainCost(m, bodies, rank, n);
    UntangledDescends(m, bodies);
    PlainCostIsPlain(m, bodies, rank);
    MemoStaysCorrect(m, bodies, rank, cost, map[], before);
  }

  /** Added up over the functions from `k` on. */
  ghost function RowsFrom<C>(rows: C -> nat, functions: seq<FunctionCost<C>>, k: nat): nat
    decreases |functions| - k
  {
    if k >= |functions| then 0 else rows(functions[k].cost) + RowsFrom(rows, functions, k + 1)
  }

  lemma {:induction false} RowsFromMore<C>(rows: C -> nat, functions: seq<FunctionCost<C>>, last: FunctionCost<C>, k: nat)
    requires k <= |functions|
    ensures RowsFrom(rows, functions + [last], k) == RowsFrom(rows, functions, k) + rows(last.cost)
    decreases |functions| - k
  {
    if k < |functions| {
      RowsFromMore(rows, functions, last, k + 1);
    } else {
      assert RowsFrom(rows, functions + [last], k + 1) == 0;
    }
  }

  lemma {:induction false} AddedUpRows<C(!new)>(m: Model<C>, rows: C -> nat, functions: seq<FunctionCost<C>>)
    requires Counted(m, rows)
    ensures rows(AddedUp(m, functions)) == RowsFrom(rows, functions, 0)
    decreases |functions|
  {
    if functions != [] {
      var last := |functions| - 1;
      AddedUpRows(m, rows, functions[..last]);
      assert functions == functions[..last] + [functions[last]];
      RowsFromMore(rows, functions[..last], functions[last], 0);
    }
  }

  /** Without a main function the total is the sum over the functions. */
  lemma TotalIsSum<C(!new)>(m: Model<C>, rows: C -> nat, bodies: Bodies, names: seq<string>)
    requires Counted(m, rows) && (forall n :: n in names ==> n in bodies) && "main" !in bodies
    ensures rows(Total(m, bodies, names)) == RowsFrom(rows, Reported(m, bodies, names), 0)
  {
    hide AddedUp, Reported, FnCost, Sequence;
    AddedUpRows(m, rows, Reported(m, bodies, names));
    NotRemembered(m, bodies, Sequence(m, bodies, names), "main");
  }

  lemma {:induction false} NotRemembered<C>(m: Model<C>, bodies: Bodies, names: seq<string>, name: string)
    requires name !in bodies
    ensures name !in Memo(m, bodies, map[], names)
    decreases |names|
  {
    hide FnCost;
    if names != [] {
      NotRemembered(m, bodies, names[..|names| - 1], name);
    }
  }
}
