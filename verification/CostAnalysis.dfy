/** The analysis of calls: guarded against recursion, remembering the cost of functions it analysed from the outside. */
module CostAnalysis {
  import opened Machine
  import opened Cost

  /** The functions of a program by name; a function may have no body. */
  type Bodies = map<string, Option<Block>>

  /** The functions that are not being analysed yet. */
  function Untouched(bodies: Bodies, progress: seq<string>): set<string> {
    set n | n in bodies && n !in progress
  }

  function BodyCost<C>(m: Model<C>, callee: string -> C, body: Option<Block>): C {
    if body.Some? then BlockCost(m, callee, body.value) else m.zero
  }

  /** What a call of `name` is charged while the functions in `progress` are being analysed. */
  function FnCost<C>(m: Model<C>, bodies: Bodies, memo: map<string, C>, progress: seq<string>, name: string): C
    decreases Untouched(bodies, progress), 0
  {
    if name !in bodies then m.zero
    else if name in memo then memo[name]
    else if name in progress then m.zero
    else
      assert name in Untouched(bodies, progress) && name !in Untouched(bodies, progress + [name]);
      BodyCost(m, Callee(m, bodies, memo, progress + [name]), bodies[name])
  }

  function Callee<C>(m: Model<C>, bodies: Bodies, memo: map<string, C>, progress: seq<string>): string -> C
    decreases Untouched(bodies, progress), 1
  {
    n => FnCost(m, bodies, memo, progress, n)
  }

  // ----- the memo -----

  /** The memo after a function has been analysed from the outside. */
  function Remembered<C>(m: Model<C>, bodies: Bodies, memo: map<string, C>, name: string): map<string, C> {
    if name in bodies then memo[name := FnCost(m, bodies, memo, [], name)] else memo
  }

  /** The memo after functions have been analysed from the outside, one after another. */
  function Memo<C>(m: Model<C>, bodies: Bodies, memo: map<string, C>, names: seq<string>): map<string, C> {
    if names == [] then memo
    else Remembered(m, bodies, Memo(m, bodies, memo, names[..|names| - 1]), names[|names| - 1])
  }

  /** The memo after calls have been charged; within the analysis of a function nothing is remembered. */
  function After<C>(m: Model<C>, bodies: Bodies, memo: map<string, C>, progress: seq<string>, names: seq<string>): map<string, C> {
    if progress == [] then Memo(m, bodies, memo, names) else memo
  }

  lemma {:induction false} MemoCat<C>(m: Model<C>, bodies: Bodies, memo: map<string, C>, a: seq<string>, b: seq<string>)
    ensures Memo(m, bodies, memo, a + b) == Memo(m, bodies, Memo(m, bodies, memo, a), b)
    decreases |b|
  {
    hide Remembered;
    if b == [] {
      assert a + b == a;
    } else {
      assert (a + b)[..|a + b| - 1] == a + b[..|b| - 1];
      MemoCat(m, bodies, memo, a, b[..|b| - 1]);
    }
  }

  lemma AfterCat<C>(m: Model<C>, bodies: Bodies, memo: map<string, C>, progress: seq<string>, a: seq<string>, b: seq<string>)
    ensures After(m, bodies, memo, progress, a + b) == After(m, bodies, After(m, bodies, memo, progress, a), progress, b)
  {
    hide Memo;
    MemoCat(m, bodies, memo, a, b);
  }

  lemma AfterNothing<C>(m: Model<C>, bodies: Bodies, memo: map<string, C>, progress: seq<string>)
    ensures After(m, bodies, memo, progress, []) == memo
  {}

  lemma AfterOne<C>(m: Model<C>, bodies: Bodies, memo: map<string, C>, progress: seq<string>, name: string)
    ensures After(m, bodies, memo, progress, [name]) == if progress == [] then Remembered(m, bodies, memo, name) else memo
  {
    assert [name][..0] == [];
    assert Memo(m, bodies, memo, []) == memo;
  }

  /** What is remembered stays, and every known function that was analysed is remembered. */
  lemma {:induction false} MemoGrows<C>(m: Model<C>, bodies: Bodies, memo: map<string, C>, names: seq<string>, n: string)
    ensures var later := Memo(m, bodies, memo, names);
      && (n in memo ==> n in later && later[n] == memo[n])
      && (n in names && n in bodies ==> n in later)
    decreases |names|
  {
    if names != [] {
      MemoGrows(m, bodies, memo, names[..|names| - 1], n);
      assert names == names[..|names| - 1] + [names[|names| - 1]];
      hide Memo;
    }
  }

  /** A call that has been charged is charged the same from then on. */
  lemma CalleeSettled<C>(m: Model<C>, bodies: Bodies, memo: map<string, C>, progress: seq<string>, names: seq<string>, more: seq<string>, n: string)
    requires n in bodies ==> n in names
    ensures var now := After(m, bodies, memo, progress, names);
      FnCost(m, bodies, now, progress, n) == FnCost(m, bodies, After(m, bodies, now, progress, more), progress, n)
  {
    hide Memo;
    MemoGrows(m, bodies, memo, names, n);
    MemoGrows(m, bodies, Memo(m, bodies, memo, names), more, n);
  }

  /** The cost of what has been charged does not change when more calls are charged after it. */
  lemma ExprSettled<C>(m: Model<C>, bodies: Bodies, memo: map<string, C>, progress: seq<string>, e: Expr, more: seq<string>)
    ensures var now := After(m, bodies, memo, progress, ExprNames(m, bodies.Keys, e));
      ExprCost(m, Callee(m, bodies, now, progress), e)
      == ExprCost(m, Callee(m, bodies, After(m, bodies, now, progress, more), progress), e)
  {
    hide After, ExprCost, ExprCalls, ExprNames, FnCost;
    var names := ExprNames(m, bodies.Keys, e);
    var now := After(m, bodies, memo, progress, names);
    var f, g := Callee(m, bodies, now, progress), Callee(m, bodies, After(m, bodies, now, progress, more), progress);
    forall n | ExprCalls(m, e, n)
      ensures f(n) == g(n)
    {
      ExprNamed(m, bodies.Keys, e, n);
      CalleeSettled(m, bodies, memo, progress, names, more, n);
    }
    ExprSame(m, f, g, e);
  }

  lemma ExprsSettled<C>(m: Model<C>, bodies: Bodies, memo: map<string, C>, progress: seq<string>, es: seq<Expr>, sofar: C, more: seq<string>)
    ensures var now := After(m, bodies, memo, progress, ExprsNames(m, bodies.Keys, es));
      ExprsCost(m, Callee(m, bodies, now, progress), es, sofar)
      == ExprsCost(m, Callee(m, bodies, After(m, bodies, now, progress, more), progress), es, sofar)
  {
    hide After, ExprsCost, ExprsCall, ExprsNames, FnCost;
    var names := ExprsNames(m, bodies.Keys, es);
    var now := After(m, bodies, memo, progress, names);
    var f, g := Callee(m, bodies, now, progress), Callee(m, bodies, After(m, bodies, now, progress, more), progress);
    forall n | ExprsCall(m, es, n)
      ensures f(n) == g(n)
    {
      ExprsNamed(m, bodies.Keys, es, n);
      CalleeSettled(m, bodies, memo, progress, names, more, n);
    }
    ExprsSame(m, f, g, es, sofar);
  }

  lemma BlockSettled<C>(m: Model<C>, bodies: Bodies, memo: map<string, C>, progress: seq<string>, b: Block, more: seq<string>)
    ensures var now := After(m, bodies, memo, progress, BlockNames(m, bodies.Keys, b));
      BlockCost(m, Callee(m, bodies, now, progress), b)
      == BlockCost(m, Callee(m, bodies, After(m, bodies, now, progress, more), progress), b)
  {
    hide After, BlockCost, BlockCalls, BlockNames, FnCost;
    var names := BlockNames(m, bodies.Keys, b);
    var now := After(m, bodies, memo, progress, names);
    var f, g := Callee(m, bodies, now, progress), Callee(m, bodies, After(m, bodies, now, progress, more), progress);
    forall n | BlockCalls(m, b, n)
      ensures f(n) == g(n)
    {
      BlockNamed(m, bodies.Keys, b, n);
      CalleeSettled(m, bodies, memo, progress, names, more, n);
    }
    BlockSame(m, f, g, b);
  }

  lemma StmtSettled<C>(m: Model<C>, bodies: Bodies, memo: map<string, C>, progress: seq<string>, s: Stmt, more: seq<string>)
    ensures var now := After(m, bodies, memo, progress, StmtNames(m, bodies.Keys, s));
      StmtCost(m, Callee(m, bodies, now, progress), s)
      == StmtCost(m, Callee(m, bodies, After(m, bodies, now, progress, more), progress), s)
  {
    hide After, StmtCost, StmtCalls, StmtNames, FnCost;
    var names := StmtNames(m, bodies.Keys, s);
    var now := After(m, bodies, memo, progress, names);
    var f, g := Callee(m, bodies, now, progress), Callee(m, bodies, After(m, bodies, now, progress, more), progress);
    forall n | StmtCalls(m, s, n)
      ensures f(n) == g(n)
    {
      StmtNamed(m, bodies.Keys, s, n);
      CalleeSettled(m, bodies, memo, progress, names, more, n);
    }
    StmtSame(m, f, g, s);
  }

  lemma ArmSettled<C>(m: Model<C>, bodies: Bodies, memo: map<string, C>, progress: seq<string>, arm: Arm, more: seq<string>)
    ensures var now := After(m, bodies, memo, progress, ArmNames(m, bodies.Keys, arm));
      ArmCost(m, Callee(m, bodies, now, progress), arm)
      == ArmCost(m, Callee(m, bodies, After(m, bodies, now, progress, more), progress), arm)
  {
    hide After, ArmCost, ArmCalls, ArmNames, FnCost;
    var names := ArmNames(m, bodies.Keys, arm);
    var now := After(m, bodies, memo, progress, names);
    var f, g := Callee(m, bodies, now, progress), Callee(m, bodies, After(m, bodies, now, progress, more), progress);
    forall n | ArmCalls(m, arm, n)
      ensures f(n) == g(n)
    {
      ArmNamed(m, bodies.Keys, arm, n);
      CalleeSettled(m, bodies, memo, progress, names, more, n);
    }
    ArmSame(m, f, g, arm);
  }

  // ----- the analyser -----

  datatype FunctionCost<C> = FunctionCost(name: string, cost: C, perIteration: Option<(C, nat)>)

  class CostAnalyzer<C(!new)> {
    const m: Model<C>
    const bodies: Bodies
    var fnCosts: map<string, C>
    var inProgress: seq<string>

    constructor (m: Model<C>, bodies: Bodies)
      ensures this.m == m && this.bodies == bodies && fnCosts == map[] && inProgress == []
    {
      this.m := m;
      this.bodies := bodies;
      fnCosts := map[];
      inProgress := [];
    }

    /** Remembers a cost only if no other function is being analysed. */
    method CostFn(name: string) returns (cost: C)
      requires name in bodies
      modifies this
      ensures cost == FnCost(m, bodies, old(fnCosts), old(inProgress), name)
      ensures inProgress == old(inProgress)
      ensures fnCosts == if inProgress == [] then Remembered(m, bodies, old(fnCosts), name) else old(fnCosts)
      decreases Untouched(bodies, inProgress), 0
    {
      if name in fnCosts {
        assert fnCosts[name := fnCosts[name]] == fnCosts;
        return fnCosts[name];
      }
      if name in inProgress {
        return m.zero;
      }
      var depthBefore := |inProgress|;
      assert name in Untouched(bodies, inProgress) && name !in Untouched(bodies, inProgress + [name]);
      inProgress := inProgress + [name];
      if bodies[name].Some? {
        cost := CostBlock(bodies[name].value);
      } else {
        cost := m.zero;
      }
      inProgress := inProgress[..|inProgress| - 1];
      if depthBefore == 0 {
        fnCosts := fnCosts[name := cost];
      }
    }

    method CostBlock(b: Block) returns (cost: C)
      modifies this
      ensures inProgress == old(inProgress)
      ensures fnCosts == After(m, bodies, old(fnCosts), inProgress, BlockNames(m, bodies.Keys, b))
      ensures cost == BlockCost(m, Callee(m, bodies, fnCosts, inProgress), b)
      decreases Untouched(bodies, inProgress), 1, b, 0
    {
      hide After, StmtNames, TailNames, FnCost, StmtCost, ExprCost;
      ghost var known, tail := bodies.Keys, TailNames(m, bodies.Keys, b.tail);
      ghost var end := After(m, bodies, fnCosts, inProgress, BlockNames(m, known, b));
      ghost var f := Callee(m, bodies, end, inProgress);
      cost := m.zero;
      var k := 0;
      while k < |b.stmts|
        invariant 0 <= k <= |b.stmts| && inProgress == old(inProgress)
        invariant After(m, bodies, fnCosts, inProgress, StmtsNames(m, known, b.stmts[k..]) + tail) == end
        invariant StmtsCost(m, f, b.stmts[k..], cost) == StmtsCost(m, f, b.stmts, m.zero)
      {
        ghost var before, rest := fnCosts, StmtsNames(m, known, b.stmts[k + 1..]) + tail;
        var c := CostStmt(b.stmts[k]);
        assert b.stmts[k..][0] == b.stmts[k] && b.stmts[k..][1..] == b.stmts[k + 1..];
        Assoc(StmtNames(m, known, b.stmts[k]), StmtsNames(m, known, b.stmts[k + 1..]), tail);
        AfterCat(m, bodies, before, inProgress, StmtNames(m, known, b.stmts[k]), rest);
        StmtSettled(m, bodies, before, inProgress, b.stmts[k], rest);
        cost := m.add(cost, c);
        k := k + 1;
      }
      assert [] + tail == tail;
      if b.tail.Some? {
        TailIs(b.tail.value);
        var c := CostExpr(b.tail.value);
        cost := m.add(cost, c);
      } else {
        assert tail == [] by { TailIsNot(); }
        AfterNothing(m, bodies, fnCosts, inProgress);
      }
    }

    lemma TailIs(e: Expr)
      ensures TailNames(m, bodies.Keys, Some(e)) == ExprNames(m, bodies.Keys, e)
    {}

    lemma TailIsNot()
      ensures TailNames(m, bodies.Keys, None) == []
    {}

    method CostStmt(s: Stmt) returns (cost: C)
      modifies this
      ensures inProgress == old(inProgress)
      ensures fnCosts == After(m, bodies, old(fnCosts), inProgress, StmtNames(m, bodies.Keys, s))
      ensures cost == StmtCost(m, Callee(m, bodies, fnCosts, inProgress), s)
      decreases Untouched(bodies, inProgress), 1, s, 0
    {
      hide After, ExprNames, ExprsNames, BlockNames, ArmsNames, FnCost, ExprCost, ExprsCost, BlockCost, ArmsCost;
      match s
      case Let(init) =>
        var c := CostExpr(init);
        cost := m.add(c, m.stackOp);
      case Assign(value) =>
        var c := CostExpr(value);
        cost := m.add(m.add(c, m.stackOp), m.stackOp);
      case TupleAssign(names, value) =>
        cost := CostExpr(value);
        ghost var first, memo := cost, fnCosts;
        for k := 0 to names
          invariant inProgress == old(inProgress) && fnCosts == memo
          invariant Moves(m, names - k, cost) == Moves(m, names, first)
        {
          cost := m.add(m.add(cost, m.stackOp), m.stackOp);
        }
      case If(cond, thenBlock, elseBlock) =>
        cost := CostIf(cond, thenBlock, elseBlock);
      case For(end, bound, body) =>
        var iterations := 1;
        if bound.Some? {
          iterations := bound.value;
        } else if end.Literal? && end.value.Some? {
          iterations := end.value.value;
        }
        cost := CostFor(end, bound, body, iterations);
      case ExprStmt(expr) =>
        cost := CostExpr(expr);
      case ReturnStmt(result) =>
        if result.Some? {
          cost := CostExpr(result.value);
        } else {
          AfterNothing(m, bodies, fnCosts, inProgress);
          cost := m.zero;
        }
      case Reveal(fields) =>
        cost := CostExprs(fields, m.add(m.scale(m.stackOp, 28), m.scale(m.pubWrite, 10)));
      case Seal(fields) =>
        cost := CostExprs(fields, m.scale(m.stackOp, 40));
        cost := m.add(m.add(cost, m.hash), m.pubWriteFive);
      case Asm(lines) =>
        AfterNothing(m, bodies, fnCosts, inProgress);
        cost := m.scale(m.stackOp, lines);
      case Match(scrutinee, arms) =>
        ghost var before := fnCosts;
        var scrutineeCost := CostExpr(scrutinee);
        AfterCat(m, bodies, before, inProgress, ExprNames(m, bodies.Keys, scrutinee), ArmsNames(m, bodies.Keys, arms));
        ExprSettled(m, bodies, before, inProgress, scrutinee, ArmsNames(m, bodies.Keys, arms));
        var armOverhead := m.add(m.scale(m.stackOp, 3), m.ifOverhead);
        var maxBody := CostArms(arms);
        cost := m.add(m.add(scrutineeCost, m.scale(armOverhead, Checked(arms))), maxBody);
    }

    method CostIf(cond: Expr, thenBlock: Block, elseBlock: Option<Block>) returns (cost: C)
      modifies this
      ensures inProgress == old(inProgress)
      ensures fnCosts == After(m, bodies, old(fnCosts), inProgress, StmtNames(m, bodies.Keys, Stmt.If(cond, thenBlock, elseBlock)))
      ensures cost == StmtCost(m, Callee(m, bodies, fnCosts, inProgress), Stmt.If(cond, thenBlock, elseBlock))
      decreases Untouched(bodies, inProgress), 1, Stmt.If(cond, thenBlock, elseBlock), -1
    {
      hide After, ExprNames, BlockNames, FnCost, ExprCost, BlockCost;
      ghost var known := bodies.Keys;
      ghost var start, names := fnCosts, BlockNames(m, known, thenBlock) + ElseNames(m, known, elseBlock);
      var condCost := CostExpr(cond);
      AfterCat(m, bodies, start, inProgress, ExprNames(m, known, cond), names);
      ExprSettled(m, bodies, start, inProgress, cond, names);
      ghost var middle := fnCosts;
      var thenCost := CostBlock(thenBlock);
      AfterCat(m, bodies, middle, inProgress, BlockNames(m, known, thenBlock), ElseNames(m, known, elseBlock));
      BlockSettled(m, bodies, middle, inProgress, thenBlock, ElseNames(m, known, elseBlock));
      var elseCost := m.zero;
      if elseBlock.Some? {
        elseCost := CostBlock(elseBlock.value);
      } else {
        AfterNothing(m, bodies, fnCosts, inProgress);
      }
      cost := m.add(m.add(condCost, m.max(thenCost, elseCost)), m.ifOverhead);
    }

    method CostFor(end: Expr, bound: Option<nat>, body: Block, iterations: nat) returns (cost: C)
      requires iterations == Iterations(end, bound)
      modifies this
      ensures inProgress == old(inProgress)
      ensures fnCosts == After(m, bodies, old(fnCosts), inProgress, StmtNames(m, bodies.Keys, Stmt.For(end, bound, body)))
      ensures cost == StmtCost(m, Callee(m, bodies, fnCosts, inProgress), Stmt.For(end, bound, body))
      decreases Untouched(bodies, inProgress), 1, Stmt.For(end, bound, body), -1
    {
      hide After, ExprNames, BlockNames, FnCost, ExprCost, BlockCost;
      ghost var start, names := fnCosts, BlockNames(m, bodies.Keys, body);
      var endCost := CostExpr(end);
      AfterCat(m, bodies, start, inProgress, ExprNames(m, bodies.Keys, end), names);
      ExprSettled(m, bodies, start, inProgress, end, names);
      var bodyCost := CostBlock(body);
      cost := m.add(endCost, m.scale(m.add(bodyCost, m.loopOverhead), iterations));
    }

    method CostArms(arms: seq<Arm>) returns (cost: C)
      modifies this
      ensures inProgress == old(inProgress)
      ensures fnCosts == After(m, bodies, old(fnCosts), inProgress, ArmsNames(m, bodies.Keys, arms))
      ensures cost == ArmsCost(m, Callee(m, bodies, fnCosts, inProgress), arms, m.zero)
      decreases Untouched(bodies, inProgress), 1, arms, 1
    {
      hide After, ArmNames, FnCost, ArmCost;
      ghost var known := bodies.Keys;
      ghost var end := After(m, bodies, fnCosts, inProgress, ArmsNames(m, known, arms));
      ghost var f := Callee(m, bodies, end, inProgress);
      cost := m.zero;
      var k := 0;
      while k < |arms|
        invariant 0 <= k <= |arms| && inProgress == old(inProgress)
        invariant After(m, bodies, fnCosts, inProgress, ArmsNames(m, known, arms[k..])) == end
        invariant ArmsCost(m, f, arms[k..], cost) == ArmsCost(m, f, arms, m.zero)
      {
        ghost var before, rest := fnCosts, ArmsNames(m, known, arms[k + 1..]);
        var c := CostArm(arms[k]);
        assert arms[k..][0] == arms[k] && arms[k..][1..] == arms[k + 1..];
        AfterCat(m, bodies, before, inProgress, ArmNames(m, known, arms[k]), rest);
        ArmSettled(m, bodies, before, inProgress, arms[k], rest);
        cost := m.max(cost, c);
        k := k + 1;
      }
      AfterNothing(m, bodies, fnCosts, inProgress);
    }

    method CostArm(arm: Arm) returns (cost: C)
      modifies this
      ensures inProgress == old(inProgress)
      ensures fnCosts == After(m, bodies, old(fnCosts), inProgress, ArmNames(m, bodies.Keys, arm))
      ensures cost == ArmCost(m, Callee(m, bodies, fnCosts, inProgress), arm)
      decreases Untouched(bodies, inProgress), 1, arm, 1
    {
      cost := CostBlock(arm.body);
    }

    method CostExpr(e: Expr) returns (cost: C)
      modifies this
      ensures inProgress == old(inProgress)
      ensures fnCosts == After(m, bodies, old(fnCosts), inProgress, ExprNames(m, bodies.Keys, e))
      ensures cost == ExprCost(m, Callee(m, bodies, fnCosts, inProgress), e)
      decreases Untouched(bodies, inProgress), 1, e, 0
    {
      hide After, ExprsNames, ExprsCost, FnCost, Memo;
      match e
      case Literal(_) =>
        AfterNothing(m, bodies, fnCosts, inProgress);
        cost := m.stackOp;
      case Var =>
        AfterNothing(m, bodies, fnCosts, inProgress);
        cost := m.stackOp;
      case BinOp(op, lhs, rhs) =>
        ghost var before, rest := fnCosts, ExprNames(m, bodies.Keys, rhs);
        var lhsCost := CostExpr(lhs);
        AfterCat(m, bodies, before, inProgress, ExprNames(m, bodies.Keys, lhs), rest);
        ExprSettled(m, bodies, before, inProgress, lhs, rest);
        var rhsCost := CostExpr(rhs);
        cost := m.add(m.add(lhsCost, rhsCost), m.binop(op));
      case Call(path, args) =>
        cost := CostCall(path, args);
      case Access(inner) =>
        var c := CostExpr(inner);
        cost := m.add(c, m.stackOp);
      case Elements(elems) =>
        cost := CostExprs(elems, m.zero);
    }

    method CostCall(path: string, args: seq<Expr>) returns (cost: C)
      modifies this
      ensures inProgress == old(inProgress)
      ensures fnCosts == After(m, bodies, old(fnCosts), inProgress, ExprNames(m, bodies.Keys, Expr.Call(path, args)))
      ensures cost == ExprCost(m, Callee(m, bodies, fnCosts, inProgress), Expr.Call(path, args))
      decreases Untouched(bodies, inProgress), 1, Expr.Call(path, args), -1
    {
      hide After, ExprsNames, ExprsCost, FnCost, Memo, BuiltinCost, BaseName;
      ghost var start, name := fnCosts, BaseName(path);
      var argsCost := CostExprs(args, m.zero);
      var builtin := BuiltinCost(m, path);
      if builtin.Some? {
        AfterCat(m, bodies, start, inProgress, ExprsNames(m, bodies.Keys, args), []);
        AfterNothing(m, bodies, fnCosts, inProgress);
        cost := m.add(argsCost, builtin.value);
      } else {
        var bodyCost := m.zero;
        if BaseName(path) in bodies {
          ghost var before := fnCosts;
          AfterCat(m, bodies, start, inProgress, ExprsNames(m, bodies.Keys, args), [name]);
          ExprsSettled(m, bodies, start, inProgress, args, m.zero, [name]);
          AfterOne(m, bodies, before, inProgress, name);
          bodyCost := CostFn(BaseName(path));
          KnownStays(before, name);
        } else {
          AfterCat(m, bodies, start, inProgress, ExprsNames(m, bodies.Keys, args), []);
          AfterNothing(m, bodies, fnCosts, inProgress);
          UnknownIsFree(fnCosts, inProgress, name);
        }
        cost := m.add(m.add(argsCost, bodyCost), m.callOverhead);
      }
    }

    /** Asking again for what was just remembered gives the same. */
    lemma KnownStays(memo: map<string, C>, name: string)
      requires name in bodies
      ensures FnCost(m, bodies, Remembered(m, bodies, memo, name), [], name) == FnCost(m, bodies, memo, [], name)
    {}

    lemma UnknownIsFree(memo: map<string, C>, progress: seq<string>, name: string)
      requires name !in bodies
      ensures FnCost(m, bodies, memo, progress, name) == m.zero
    {}

    method CostExprs(es: seq<Expr>, sofar: C) returns (cost: C)
      modifies this
      ensures inProgress == old(inProgress)
      ensures fnCosts == After(m, bodies, old(fnCosts), inProgress, ExprsNames(m, bodies.Keys, es))
      ensures cost == ExprsCost(m, Callee(m, bodies, fnCosts, inProgress), es, sofar)
      decreases Untouched(bodies, inProgress), 1, es, 1
    {
      hide After, ExprNames, FnCost, ExprCost;
      ghost var known := bodies.Keys;
      ghost var end := After(m, bodies, fnCosts, inProgress, ExprsNames(m, known, es));
      ghost var f := Callee(m, bodies, end, inProgress);
      cost := sofar;
      var k := 0;
      while k < |es|
        invariant 0 <= k <= |es| && inProgress == old(inProgress)
        invariant After(m, bodies, fnCosts, inProgress, ExprsNames(m, known, es[k..])) == end
        invariant ExprsCost(m, f, es[k..], cost) == ExprsCost(m, f, es, sofar)
      {
        ghost var before, rest := fnCosts, ExprsNames(m, known, es[k + 1..]);
        var c := CostExpr(es[k]);
        assert es[k..][0] == es[k] && es[k..][1..] == es[k + 1..];
        AfterCat(m, bodies, before, inProgress, ExprNames(m, known, es[k]), rest);
        ExprSettled(m, bodies, before, inProgress, es[k], rest);
        cost := m.add(cost, c);
        k := k + 1;
      }
      AfterNothing(m, bodies, fnCosts, inProgress);
    }

    // ----- the whole file -----

    /** The first loop of a function, charged for one turn, with its calls analysed from the outside. */
    method FindLoopIterationCost(body: Option<Block>) returns (r: Option<(C, nat)>)
      requires inProgress == []
      modifies this
      ensures inProgress == []
      ensures fnCosts == Memo(m, bodies, old(fnCosts), LoopNames(m, bodies.Keys, body))
      ensures r == LoopCost(m, Callee(m, bodies, fnCosts, []), body)
    {
      hide StmtsCost, BlockNames, BlockCost, FnCost, ExprsNames;
      if body.None? {
        return None;
      }
      var stmts := body.value.stmts;
      var k := 0;
      while k < |stmts|
        invariant 0 <= k <= |stmts| && inProgress == [] && fnCosts == old(fnCosts)
        invariant FirstLoop(stmts[k..]) == FirstLoop(stmts)
      {
        assert stmts[k..][0] == stmts[k] && stmts[k..][1..] == stmts[k + 1..];
        if stmts[k].For? {
          var bodyCost := CostBlock(stmts[k].body);
          var iterations := 1;
          if stmts[k].bound.Some? {
            iterations := stmts[k].bound.value;
          } else if stmts[k].end.Literal? && stmts[k].end.value.Some? {
            iterations := stmts[k].end.value.value;
          }
          return Some((m.add(bodyCost, m.loopOverhead), iterations));
        }
        k := k + 1;
      }
      return None;
    }

    /** Analyses the functions in the given order, each followed by its first loop, and adds up the program's cost. */
    method AnalyzeFile(names: seq<string>) returns (functions: seq<FunctionCost<C>>, total: C)
      requires inProgress == [] && fnCosts == map[] && forall n :: n in names ==> n in bodies
      modifies this
      ensures functions == Reported(m, bodies, names)
      ensures total == Total(m, bodies, names)
    {
      hide FnCost, LoopCost, LoopNames, Memo, Remembered;
      functions := [];
      var k := 0;
      MemoNothing();
      while k < |names|
        invariant 0 <= k <= |names| && inProgress == []
        invariant fnCosts == Memo(m, bodies, map[], Sequence(m, bodies, names[..k]))
        invariant functions == Reported(m, bodies, names[..k])
      {
        ghost var start, body := fnCosts, bodies[names[k]];
        ghost var before := Sequence(m, bodies, names[..k]);
        var cost := CostFn(names[k]);
        var perIteration := FindLoopIterationCost(bodies[names[k]]);
        assert names[..k + 1][..k] == names[..k] && names[..k + 1][k] == names[k];
        MemoCat(m, bodies, map[], before, [names[k]] + LoopNames(m, bodies.Keys, body));
        MemoCat(m, bodies, start, [names[k]], LoopNames(m, bodies.Keys, body));
        AfterOne(m, bodies, start, [], names[k]);
        functions := functions + [FunctionCost(names[k], cost, perIteration)];
        k := k + 1;
      }
      assert names[..k] == names;
      if "main" in fnCosts {
        total := m.add(fnCosts["main"], m.callOverhead);
      } else {
        total := m.zero;
        var j := 0;
        while j < |functions|
          invariant 0 <= j <= |functions|
          invariant total == AddedUp(m, functions[..j])
        {
          assert functions[..j + 1][..j] == functions[..j];
          total := m.add(total, functions[j].cost);
          j := j + 1;
        }
        assert functions[..j] == functions;
      }
    }

    lemma MemoNothing()
      ensures Memo(m, bodies, map[], []) == map[]
    {}
  }

  // ----- what the analysis of a file reports -----

  function FirstLoop(stmts: seq<Stmt>): Option<Stmt>
    decreases |stmts|
  {
    if stmts == [] then None else if stmts[0].For? then Some(stmts[0]) else FirstLoop(stmts[1..])
  }

  /** The calls in the first loop's body, in order. */
  function LoopNames<C>(m: Model<C>, known: set<string>, body: Option<Block>): seq<string> {
    if body.None? then [] else
    var loop := FirstLoop(body.value.stmts);
    if loop.None? || !loop.value.For? then [] else Cost.BlockNames(m, known, loop.value.body)
  }

  /** The cost of one turn of the first loop, and how often it is charged. */
  function LoopCost<C>(m: Model<C>, callee: string -> C, body: Option<Block>): Option<(C, nat)> {
    if body.None? then None else
    var loop := FirstLoop(body.value.stmts);
    if loop.None? || !loop.value.For? then None
    else Some((m.add(BlockCost(m, callee, loop.value.body), m.loopOverhead), Iterations(loop.value.end, loop.value.bound)))
  }

  /** The functions analysed from the outside, in order: each function of the file, then the calls in its first loop. */
  function Sequence<C>(m: Model<C>, bodies: Bodies, names: seq<string>): seq<string>
    requires forall n :: n in names ==> n in bodies
  {
    if names == [] then []
    else
      var k := |names| - 1;
      Sequence(m, bodies, names[..k]) + ([names[k]] + LoopNames(m, bodies.Keys, bodies[names[k]]))
  }

  function Reported<C>(m: Model<C>, bodies: Bodies, names: seq<string>): (functions: seq<FunctionCost<C>>)
    requires forall n :: n in names ==> n in bodies
    ensures |functions| == |names|
  {
    if names == [] then []
    else
      var k := |names| - 1;
      Reported(m, bodies, names[..k])
      + [FunctionCost(names[k],
                      FnCost(m, bodies, Memo(m, bodies, map[], Sequence(m, bodies, names[..k])), [], names[k]),
                      LoopCost(m, Callee(m, bodies, Memo(m, bodies, map[], Sequence(m, bodies, names)), []), bodies[names[k]]))]
  }

  function AddedUp<C>(m: Model<C>, functions: seq<FunctionCost<C>>): C {
    if functions == [] then m.zero else m.add(AddedUp(m, functions[..|functions| - 1]), functions[|functions| - 1].cost)
  }

  function Total<C>(m: Model<C>, bodies: Bodies, names: seq<string>): C
    requires forall n :: n in names ==> n in bodies
  {
    var memo := Memo(m, bodies, map[], Sequence(m, bodies, names));
    if "main" in memo then m.add(memo["main"], m.callOverhead) else AddedUp(m, Reported(m, bodies, names))
  }
}
