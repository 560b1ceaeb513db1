/** What runs of a block may take, table by table, and that the static cost is the most of it. */
module CostRuns {
  import opened Machine
  import opened Cost

  /**
   * One table of the target, the rows that calls may take in it, and how many turns a loop without a bound may make.
   * A cost is looked at through its rows in that table.
   */
  datatype Table<!C> = Table(m: Model<C>, rows: C -> nat, takes: (string, nat) -> bool, assumed: nat)

  /** In the table, costs are added, multiplied and compared as numbers. */
  ghost predicate Counted<C(!new)>(m: Model<C>, rows: C -> nat) {
    && rows(m.zero) == 0
    && (forall a, b :: rows(m.add(a, b)) == rows(a) + rows(b))
    && (forall a, n :: rows(m.scale(a, n)) == rows(a) * n)
    && (forall a, b :: rows(m.max(a, b)) == if rows(a) < rows(b) then rows(b) else rows(a))
  }

  ghost predicate Counts<C(!new)>(t: Table<C>) {
    Counted(t.m, t.rows)
  }

  // ----- what runs may take -----

  /** The name stands behind the last dot of the path, or is all of it. */
  ghost predicate LastPart(path: string, name: string) {
    '.' !in name && (path == name || exists front: string :: path == front + "." + name)
  }

  /** A call takes what the target charges for its full name or for its last part, or else what the function takes and a call more. */
  ghost predicate CallTakes<C>(t: Table<C>, path: string, n: nat) {
    if t.m.builtin(path).Some? then n == t.rows(t.m.builtin(path).value)
    else exists name :: LastPart(path, name) && NamedTakes(t, name, n)
  }

  ghost predicate NamedTakes<C>(t: Table<C>, name: string, n: nat) {
    if t.m.builtin(name).Some? then n == t.rows(t.m.builtin(name).value)
    else n >= t.rows(t.m.callOverhead) && t.takes(name, n - t.rows(t.m.callOverhead))
  }

  ghost predicate ExprTakes<C>(t: Table<C>, e: Expr, n: nat)
    decreases e, 0
  {
    match e
    case Literal(_) => n == t.rows(t.m.stackOp)
    case Var => n == t.rows(t.m.stackOp)
    case BinOp(op, lhs, rhs) =>
      exists a: nat, b: nat :: ExprTakes(t, lhs, a) && ExprTakes(t, rhs, b) && n == a + b + t.rows(t.m.binop(op))
    case Call(path, args) => exists a: nat, b: nat :: ExprsTake(t, args, a) && CallTakes(t, path, b) && n == a + b
    case Access(inner) => exists a: nat :: ExprTakes(t, inner, a) && n == a + t.rows(t.m.stackOp)
    case Elements(elems) => ExprsTake(t, elems, n)
  }

  ghost predicate ExprsTake<C>(t: Table<C>, es: seq<Expr>, n: nat)
    decreases es, 1
  {
    if es == [] then n == 0
    else exists a: nat, b: nat :: ExprTakes(t, es[0], a) && ExprsTake(t, es[1..], b) && n == a + b
  }

  ghost predicate TailTakes<C>(t: Table<C>, tail: Option<Expr>, n: nat)
    decreases tail, 1
  {
    if tail.Some? then ExprTakes(t, tail.value, n) else n == 0
  }

  ghost predicate BlockTakes<C>(t: Table<C>, b: Block, n: nat)
    decreases b, 0
  {
    exists x: nat, y: nat :: StmtsTake(t, b.stmts, x) && TailTakes(t, b.tail, y) && n == x + y
  }

  ghost predicate StmtsTake<C>(t: Table<C>, stmts: seq<Stmt>, n: nat)
    decreases stmts, 1
  {
    if stmts == [] then n == 0
    else exists a: nat, b: nat :: StmtTakes(t, stmts[0], a) && StmtsTake(t, stmts[1..], b) && n == a + b
  }

  /** No more turns than the declared bound; without one, than the literal end; without either, than the table assumes. */
  predicate Turns(assumed: nat, end: Expr, bound: Option<nat>, turns: nat) {
    match bound
    case Some(most) => turns <= most
    case None =>
      match end
      case Literal(Some(most)) => turns <= most
      case _ => turns <= assumed
  }

  /** So many turns of the loop; each may go differently. */
  ghost predicate TurnsTake<C>(t: Table<C>, body: Block, turns: nat, n: nat)
    decreases body, 1, turns
  {
    if turns == 0 then n == 0
    else
      var over := t.rows(t.m.loopOverhead);
      exists a: nat :: BlockTakes(t, body, a) && a + over <= n && TurnsTake(t, body, turns - 1, n - a - over)
  }

  /** A branch of an `if`; a missing one takes nothing. */
  ghost predicate ElseTakes<C>(t: Table<C>, elseBlock: Option<Block>, n: nat)
    decreases elseBlock, 1
  {
    if elseBlock.Some? then BlockTakes(t, elseBlock.value, n) else n == 0
  }

  /** The arms below `end` that need a comparison. */
  function Compared(arms: seq<Arm>, end: nat): set<nat> {
    set i | 0 <= i < |arms| && i < end && !arms[i].wildcard
  }

  /** One arm is taken, after the comparisons up to it at least, and all at most. */
  ghost predicate ArmsTake<C>(t: Table<C>, arms: seq<Arm>, checks: nat, n: nat)
    decreases arms, 1
  {
    if arms == [] then checks == 0 && n == 0
    else exists i :: 0 <= i < |arms| && ArmTakes(t, arms[i], n) && |Compared(arms, i + 1)| <= checks <= |Compared(arms, |arms|)|
  }

  ghost predicate ArmTakes<C>(t: Table<C>, arm: Arm, n: nat)
    decreases arm, 1
  {
    BlockTakes(t, arm.body, n)
  }

  ghost predicate StmtTakes<C>(t: Table<C>, s: Stmt, n: nat)
    decreases s, 0
  {
    var op := t.rows(t.m.stackOp);
    match s
    case Let(init) => n >= op && ExprTakes(t, init, n - op)
    case Assign(value) => n >= 2 * op && ExprTakes(t, value, n - 2 * op)
    case TupleAssign(names, value) => n >= 2 * (op * names) && ExprTakes(t, value, n - 2 * (op * names))
    case If(_, _, _) => IfTakes(t, s, n)
    case For(_, _, _) => ForTakes(t, s, n)
    case ExprStmt(expr) => ExprTakes(t, expr, n)
    case ReturnStmt(result) => TailTakes(t, result, n)
    case Reveal(fields) =>
      var flat := 28 * op + 10 * t.rows(t.m.pubWrite);
      n >= flat && ExprsTake(t, fields, n - flat)
    case Seal(fields) =>
      var flat := 40 * op + t.rows(t.m.hash) + t.rows(t.m.pubWriteFive);
      n >= flat && ExprsTake(t, fields, n - flat)
    case Asm(lines) => n == op * lines
    case Match(_, _) => MatchTakes(t, s, n)
  }

  /** Either branch is taken. */
  ghost predicate IfTakes<C>(t: Table<C>, s: Stmt, n: nat)
    requires s.If?
    decreases s, -1
  {
    exists a: nat, b: nat :: ExprTakes(t, s.cond, a) && (BlockTakes(t, s.thenBlock, b) || ElseTakes(t, s.elseBlock, b))
      && n == a + b + t.rows(t.m.ifOverhead)
  }

  ghost predicate ForTakes<C>(t: Table<C>, s: Stmt, n: nat)
    requires s.For?
    decreases s, -1
  {
    exists a: nat, b: nat, turns: nat ::
      ExprTakes(t, s.end, a) && TurnsTake(t, s.body, turns, b) && Turns(t.assumed, s.end, s.bound, turns) && n == a + b
  }

  ghost predicate MatchTakes<C>(t: Table<C>, s: Stmt, n: nat)
    requires s.Match?
    decreases s, -1
  {
    exists a: nat, b: nat, checks: nat ::
      ExprTakes(t, s.scrutinee, a) && ArmsTake(t, s.arms, checks, b) && n == a + CheckRows(t) * checks + b
  }

  /** Comparing with an arm's pattern and branching. */
  ghost function CheckRows<C>(t: Table<C>): nat {
    3 * t.rows(t.m.stackOp) + t.rows(t.m.ifOverhead)
  }

  // ----- the most that runs may take -----

  /** What a call is charged is the most that it may take. */
  ghost predicate CalleeMost<C>(t: Table<C>, callee: string -> C, name: string) {
    && t.takes(name, t.rows(callee(name)))
    && forall n: nat | t.takes(name, n) :: n <= t.rows(callee(name))
  }

  lemma {:induction false} BaseNameIsLast(path: string)
    ensures LastPart(path, BaseName(path))
    decreases |path|
  {
    if path != "" {
      var front, c := path[..|path| - 1], path[|path| - 1];
      assert path == front + [c];
      if c == '.' {
        assert path == front + "." + "";
      } else {
        BaseNameIsLast(front);
        var name := BaseName(front);
        if front != name {
          var before: string :| front == before + "." + name;
          assert path == before + "." + (name + [c]);
        }
      }
    }
  }

  lemma DotInside(path: string, k: nat, i: nat)
    requires k <= i < |path| && path[i] == '.'
    ensures '.' in path[k..]
  {
    assert path[k..][i - k] == '.';
  }

  lemma LastPartUnique(path: string, a: string, b: string)
    requires LastPart(path, a) && LastPart(path, b) && |a| <= |b|
    ensures a == b
  {
    assert b == path[|path| - |b|..] && a == path[|path| - |a|..];
    if |a| < |b| {
      DotInside(path, |path| - |b|, |path| - |a| - 1);
    }
  }

  lemma LastPartIsBaseName(path: string, name: string)
    requires LastPart(path, name)
    ensures name == BaseName(path)
  {
    hide LastPart;
    BaseNameIsLast(path);
    if |name| <= |BaseName(path)| {
      LastPartUnique(path, name, BaseName(path));
    } else {
      LastPartUnique(path, BaseName(path), name);
    }
  }

  function CallCost<C>(m: Model<C>, callee: string -> C, path: string): C {
    if BuiltinCost(m, path).Some? then BuiltinCost(m, path).value else m.add(callee(BaseName(path)), m.callOverhead)
  }

  lemma CallMost<C(!new)>(t: Table<C>, callee: string -> C, path: string)
    requires Counts(t) && (BuiltinCost(t.m, path).None? ==> CalleeMost(t, callee, BaseName(path)))
    ensures CallTakes(t, path, t.rows(CallCost(t.m, callee, path)))
    ensures forall n: nat | CallTakes(t, path, n) :: n <= t.rows(CallCost(t.m, callee, path))
  {
    hide LastPart, BaseName;
    BaseNameIsLast(path);
    assert t.m.builtin(path).None? ==> NamedTakes(t, BaseName(path), t.rows(CallCost(t.m, callee, path)));
    forall n: nat | CallTakes(t, path, n)
      ensures n <= t.rows(CallCost(t.m, callee, path))
    {
      if t.m.builtin(path).None? {
        var name :| LastPart(path, name) && NamedTakes(t, name, n);
        LastPartIsBaseName(path, name);
      }
    }
  }

  lemma {:induction false} ExprMost<C(!new)>(t: Table<C>, callee: string -> C, e: Expr)
    requires Counts(t) && forall n | ExprCalls(t.m, e, n) :: CalleeMost(t, callee, n)
    ensures ExprTakes(t, e, t.rows(ExprCost(t.m, callee, e)))
    ensures forall n: nat | ExprTakes(t, e, n) :: n <= t.rows(ExprCost(t.m, callee, e))
    decreases e, 0
  {
    hide CalleeMost, CallTakes, BuiltinCost, BaseName;
    match e
    case Literal(_) =>
    case Var =>
    case BinOp(op, lhs, rhs) =>
      ExprMost(t, callee, lhs);
      ExprMost(t, callee, rhs);
    case Call(path, args) =>
      ExprsMost(t, callee, args, t.m.zero);
      CallMost(t, callee, path);
    case Access(inner) => ExprMost(t, callee, inner);
    case Elements(elems) => ExprsMost(t, callee, elems, t.m.zero);
  }

  lemma {:induction false} ExprsMost<C(!new)>(t: Table<C>, callee: string -> C, es: seq<Expr>, sofar: C)
    requires Counts(t) && forall n | ExprsCall(t.m, es, n) :: CalleeMost(t, callee, n)
    ensures t.rows(sofar) <= t.rows(ExprsCost(t.m, callee, es, sofar))
    ensures ExprsTake(t, es, t.rows(ExprsCost(t.m, callee, es, sofar)) - t.rows(sofar))
    ensures forall n: nat | ExprsTake(t, es, n) :: t.rows(sofar) + n <= t.rows(ExprsCost(t.m, callee, es, sofar))
    decreases es, 1
  {
    hide CalleeMost, ExprTakes, ExprCost;
    if es != [] {
      ExprMost(t, callee, es[0]);
      ExprsMost(t, callee, es[1..], t.m.add(sofar, ExprCost(t.m, callee, es[0])));
    }
  }

  // ----- loops that nothing bounds -----

  /** A loop without a declared bound or a literal end. */
  predicate Unbounded(end: Expr, bound: Option<nat>) {
    bound.None? && !(end.Literal? && end.value.Some?)
  }

  /** A run can get into a loop that nothing bounds. */
  predicate OpenStmt(s: Stmt)
    decreases s, 0
  {
    match s
    case If(_, thenBlock, elseBlock) => OpenBlock(thenBlock) || (elseBlock.Some? && OpenBlock(elseBlock.value))
    case For(end, bound, body) => Unbounded(end, bound) || (Turns(1, end, bound, 1) && OpenBlock(body))
    case Match(_, arms) => exists i :: 0 <= i < |arms| && OpenArm(arms[i])
    case _ => false
  }

  predicate OpenArm(arm: Arm)
    decreases arm, 1
  {
    OpenBlock(arm.body)
  }

  predicate OpenBlock(b: Block)
    decreases b, 0
  {
    OpenStmts(b.stmts)
  }

  predicate OpenStmts(stmts: seq<Stmt>)
    decreases stmts, 1
  {
    stmts != [] && (OpenStmt(stmts[0]) || OpenStmts(stmts[1..]))
  }

  // ----- statements -----

  lemma {:induction false} MovesAdd<C(!new)>(t: Table<C>, names: nat, sofar: C)
    requires Counts(t)
    ensures t.rows(Moves(t.m, names, sofar)) == t.rows(sofar) + 2 * (t.rows(t.m.stackOp) * names)
  {
    if names > 0 {
      var next := t.m.add(t.m.add(sofar, t.m.stackOp), t.m.stackOp);
      MovesAdd(t, names - 1, next);
      OneMore(t.rows(t.m.stackOp), names - 1);
    }
  }

  lemma OneMore(a: nat, n: nat)
    ensures a * (n + 1) == a * n + a
  {}

  lemma Monotone(a: nat, x: nat, y: nat)
    requires x <= y
    ensures a * x <= a * y
  {
    assert a * y == a * x + a * (y - x);
  }

  lemma CheckedIsCompared(arms: seq<Arm>)
    ensures |Compared(arms, |arms|)| == Checked(arms)
  {
    assert arms[0..] == arms && Compared(arms, 0) == {};
    for k := 0 to |arms|
      invariant |Compared(arms, k)| + Checked(arms[k..]) == Checked(arms)
    {
      assert arms[k..][0] == arms[k] && arms[k..][1..] == arms[k + 1..];
      assert Compared(arms, k + 1) == Compared(arms, k) + if arms[k].wildcard then {} else {k};
    }
  }

  lemma FewerCompared(arms: seq<Arm>, i: nat)
    requires i <= |arms|
    ensures |Compared(arms, i)| <= |Compared(arms, |arms|)|
  {
    var all, some := Compared(arms, |arms|), Compared(arms, i);
    assert all == some + (all - some);
  }

  lemma {:induction false} BlockMost<C(!new)>(t: Table<C>, callee: string -> C, b: Block)
    requires Counts(t) && t.assumed >= 1 && forall n | BlockCalls(t.m, b, n) :: CalleeMost(t, callee, n)
    ensures BlockTakes(t, b, t.rows(BlockCost(t.m, callee, b)))
    ensures t.assumed == 1 || !OpenBlock(b) ==> forall n: nat | BlockTakes(t, b, n) :: n <= t.rows(BlockCost(t.m, callee, b))
    decreases b, 0
  {
    hide CalleeMost, ExprTakes, StmtsTake, ExprCost, StmtsCost, OpenStmts;
    StmtsMost(t, callee, b.stmts, t.m.zero);
    if b.tail.Some? {
      ExprMost(t, callee, b.tail.value);
    }
    assert TailTakes(t, b.tail, if b.tail.Some? then t.rows(ExprCost(t.m, callee, b.tail.value)) else 0);
  }

  lemma {:induction false} StmtsMost<C(!new)>(t: Table<C>, callee: string -> C, stmts: seq<Stmt>, sofar: C)
    requires Counts(t) && t.assumed >= 1 && forall n | StmtsCall(t.m, stmts, n) :: CalleeMost(t, callee, n)
    ensures t.rows(sofar) <= t.rows(StmtsCost(t.m, callee, stmts, sofar))
    ensures StmtsTake(t, stmts, t.rows(StmtsCost(t.m, callee, stmts, sofar)) - t.rows(sofar))
    ensures t.assumed == 1 || !OpenStmts(stmts) ==>
      forall n: nat | StmtsTake(t, stmts, n) :: t.rows(sofar) + n <= t.rows(StmtsCost(t.m, callee, stmts, sofar))
    decreases stmts, 1
  {
    hide CalleeMost, StmtTakes, StmtCost, OpenStmt, StmtCalls;
    if stmts != [] {
      StmtMost(t, callee, stmts[0]);
      StmtsMost(t, callee, stmts[1..], t.m.add(sofar, StmtCost(t.m, callee, stmts[0])));
    }
  }

  /** So many turns take at most so many times what one does, and may take exactly that. */
  lemma {:induction false} TurnsMost<C(!new)>(t: Table<C>, body: Block, most: nat, turns: nat)
    requires BlockTakes(t, body, most)
    ensures TurnsTake(t, body, turns, (most + t.rows(t.m.loopOverhead)) * turns)
    ensures (forall n: nat | BlockTakes(t, body, n) :: n <= most) ==>
      forall n: nat | TurnsTake(t, body, turns, n) :: n <= (most + t.rows(t.m.loopOverhead)) * turns
    decreases turns
  {
    hide BlockTakes;
    if turns > 0 {
      TurnsMost(t, body, most, turns - 1);
      OneMore(most + t.rows(t.m.loopOverhead), turns - 1);
      assert (most + t.rows(t.m.loopOverhead)) * turns - most - t.rows(t.m.loopOverhead) == (most + t.rows(t.m.loopOverhead)) * (turns - 1);
    }
  }

  lemma {:induction false} StmtMost<C(!new)>(t: Table<C>, callee: string -> C, s: Stmt)
    requires Counts(t) && t.assumed >= 1 && forall n | StmtCalls(t.m, s, n) :: CalleeMost(t, callee, n)
    ensures StmtTakes(t, s, t.rows(StmtCost(t.m, callee, s)))
    ensures t.assumed == 1 || !OpenStmt(s) ==> forall n: nat | StmtTakes(t, s, n) :: n <= t.rows(StmtCost(t.m, callee, s))
    decreases s, 0
  {
    hide CalleeMost, ExprTakes, BlockTakes, ExprCost, BlockCost, OpenBlock, ArmsTake, ArmsCost, TurnsTake, ExprsTake, ExprsCost;
    match s
    case Let(init) => ExprMost(t, callee, init);
    case Assign(value) => ExprMost(t, callee, value);
    case TupleAssign(names, value) =>
      ExprMost(t, callee, value);
      MovesAdd(t, names, ExprCost(t.m, callee, value));
    case If(cond, thenBlock, elseBlock) => IfMost(t, callee, cond, thenBlock, elseBlock);
    case For(end, bound, body) => ForMost(t, callee, end, bound, body);
    case ExprStmt(expr) => ExprMost(t, callee, expr);
    case ReturnStmt(result) =>
      if result.Some? {
        ExprMost(t, callee, result.value);
      }
    case Reveal(fields) => ExprsMost(t, callee, fields, t.m.add(t.m.scale(t.m.stackOp, 28), t.m.scale(t.m.pubWrite, 10)));
    case Seal(fields) => ExprsMost(t, callee, fields, t.m.scale(t.m.stackOp, 40));
    case Asm(lines) =>
    case Match(scrutinee, arms) => MatchMost(t, callee, scrutinee, arms);
  }

  lemma IfParts<C>(t: Table<C>, s: Stmt, n: nat) returns (a: nat, b: nat)
    requires s.If? && IfTakes(t, s, n)
    ensures ExprTakes(t, s.cond, a) && n == a + b + t.rows(t.m.ifOverhead)
    ensures BlockTakes(t, s.thenBlock, b) || (if s.elseBlock.Some? then BlockTakes(t, s.elseBlock.value, b) else b == 0)
  {
    a, b :| ExprTakes(t, s.cond, a) && (BlockTakes(t, s.thenBlock, b) || ElseTakes(t, s.elseBlock, b))
      && n == a + b + t.rows(t.m.ifOverhead);
  }

  lemma {:induction false} IfMost<C(!new)>(t: Table<C>, callee: string -> C, cond: Expr, thenBlock: Block, elseBlock: Option<Block>)
    requires Counts(t) && t.assumed >= 1 && forall n | StmtCalls(t.m, If(cond, thenBlock, elseBlock), n) :: CalleeMost(t, callee, n)
    ensures StmtTakes(t, If(cond, thenBlock, elseBlock), t.rows(StmtCost(t.m, callee, If(cond, thenBlock, elseBlock))))
    ensures t.assumed == 1 || !OpenStmt(If(cond, thenBlock, elseBlock)) ==>
      forall n: nat | StmtTakes(t, If(cond, thenBlock, elseBlock), n) :: n <= t.rows(StmtCost(t.m, callee, If(cond, thenBlock, elseBlock)))
    decreases If(cond, thenBlock, elseBlock), -1
  {
    hide CalleeMost, ExprTakes, BlockTakes, ExprCost, BlockCost, OpenBlock;
    var s := If(cond, thenBlock, elseBlock);
    ExprMost(t, callee, cond);
    BlockMost(t, callee, thenBlock);
    var b := t.rows(BlockCost(t.m, callee, thenBlock));
    var c := if elseBlock.Some? then t.rows(BlockCost(t.m, callee, elseBlock.value)) else 0;
    if elseBlock.Some? {
      BlockMost(t, callee, elseBlock.value);
    }
    assert ElseTakes(t, elseBlock, c);
    assert IfTakes(t, s, t.rows(ExprCost(t.m, callee, cond)) + (if b < c then c else b) + t.rows(t.m.ifOverhead));
    if t.assumed == 1 || !OpenStmt(s) {
      forall n: nat | IfTakes(t, s, n)
        ensures n <= t.rows(StmtCost(t.m, callee, s))
      {
        var x, y := IfParts(t, s, n);
      }
    }
  }

  lemma ForParts<C>(t: Table<C>, s: Stmt, n: nat) returns (a: nat, b: nat, turns: nat)
    requires s.For? && ForTakes(t, s, n)
    ensures ExprTakes(t, s.end, a) && TurnsTake(t, s.body, turns, b) && Turns(t.assumed, s.end, s.bound, turns) && n == a + b
  {
    a, b, turns :| ExprTakes(t, s.end, a) && TurnsTake(t, s.body, turns, b) && Turns(t.assumed, s.end, s.bound, turns) && n == a + b;
  }

  lemma MatchParts<C>(t: Table<C>, s: Stmt, n: nat) returns (a: nat, b: nat, checks: nat)
    requires s.Match? && MatchTakes(t, s, n)
    ensures ExprTakes(t, s.scrutinee, a) && ArmsTake(t, s.arms, checks, b) && n == a + CheckRows(t) * checks + b
  {
    a, b, checks :| ExprTakes(t, s.scrutinee, a) && ArmsTake(t, s.arms, checks, b) && n == a + CheckRows(t) * checks + b;
  }

  lemma {:induction false} ForMost<C(!new)>(t: Table<C>, callee: string -> C, end: Expr, bound: Option<nat>, body: Block)
    requires Counts(t) && t.assumed >= 1 && forall n | StmtCalls(t.m, For(end, bound, body), n) :: CalleeMost(t, callee, n)
    ensures StmtTakes(t, For(end, bound, body), t.rows(StmtCost(t.m, callee, For(end, bound, body))))
    ensures t.assumed == 1 || !OpenStmt(For(end, bound, body)) ==>
      forall n: nat | StmtTakes(t, For(end, bound, body), n) :: n <= t.rows(StmtCost(t.m, callee, For(end, bound, body)))
    decreases For(end, bound, body), -1
  {
    hide CalleeMost, ExprTakes, BlockTakes, ExprCost, BlockCost, OpenBlock, TurnsTake;
    var s := For(end, bound, body);
    ExprMost(t, callee, end);
    BlockMost(t, callee, body);
    var each, k := t.rows(BlockCost(t.m, callee, body)), Iterations(end, bound);
    var per := each + t.rows(t.m.loopOverhead);
    TurnsMost(t, body, each, k);
    assert Turns(t.assumed, end, bound, k) && ForTakes(t, s, t.rows(ExprCost(t.m, callee, end)) + per * k);
    if t.assumed == 1 || !OpenStmt(s) {
      forall n: nat | ForTakes(t, s, n)
        ensures n <= t.rows(StmtCost(t.m, callee, s))
      {
        var a, b, turns := ForParts(t, s, n);
        TurnsMost(t, body, each, turns);
        if turns > 0 {
          assert Turns(1, end, bound, 1);
        }
        Monotone(per, turns, k);
      }
    }
  }

  lemma {:induction false} ArmsMost<C(!new)>(t: Table<C>, callee: string -> C, arms: seq<Arm>, sofar: C) returns (i: nat)
    requires Counts(t) && t.assumed >= 1 && forall n | ArmsCall(t.m, arms, n) :: CalleeMost(t, callee, n)
    ensures var c := t.rows(ArmsCost(t.m, callee, arms, sofar));
      t.rows(sofar) <= c && (c == t.rows(sofar) || (i < |arms| && ArmTakes(t, arms[i], c)))
    ensures forall k :: 0 <= k < |arms| ==> ArmFits(t, arms[k], t.rows(ArmsCost(t.m, callee, arms, sofar)))
    decreases arms, 1
  {
    hide CalleeMost, ArmTakes, ArmCost, OpenArm, ArmCalls;
    i := 0;
    if arms != [] {
      ArmMost(t, callee, arms[0]);
      var next := t.m.max(sofar, ArmCost(t.m, callee, arms[0]));
      var j := ArmsMost(t, callee, arms[1..], next);
      var c := t.rows(ArmsCost(t.m, callee, arms[1..], next));
      i := if c == t.rows(next) then 0 else j + 1;
      forall k | 0 <= k < |arms|
        ensures ArmFits(t, arms[k], c)
      {
        if k > 0 {
          assert arms[k] == arms[1..][k - 1];
        }
      }
    }
  }

  /** The arm takes no more, and something. */
  ghost predicate ArmFits<C>(t: Table<C>, arm: Arm, most: nat) {
    && (t.assumed == 1 || !OpenArm(arm) ==> forall n: nat | ArmTakes(t, arm, n) :: n <= most)
    && exists n: nat :: ArmTakes(t, arm, n) && n <= most
  }

  lemma {:induction false} ArmMost<C(!new)>(t: Table<C>, callee: string -> C, arm: Arm)
    requires Counts(t) && t.assumed >= 1 && forall n | ArmCalls(t.m, arm, n) :: CalleeMost(t, callee, n)
    ensures ArmTakes(t, arm, t.rows(ArmCost(t.m, callee, arm)))
    ensures ArmFits(t, arm, t.rows(ArmCost(t.m, callee, arm)))
    decreases arm, 1
  {
    hide CalleeMost, BlockTakes, BlockCost, OpenBlock;
    var most := t.rows(ArmCost(t.m, callee, arm));
    BlockMost(t, callee, arm.body);
    assert ArmTakes(t, arm, most);
    if t.assumed == 1 || !OpenArm(arm) {
      forall n: nat | ArmTakes(t, arm, n)
        ensures n <= most
      {
        assert BlockTakes(t, arm.body, n);
      }
    }
  }

  /** The arms taken with all comparisons give the heaviest arm, and no choice gives more. */
  lemma {:induction false} ChoiceMost<C(!new)>(t: Table<C>, callee: string -> C, arms: seq<Arm>)
    requires Counts(t) && t.assumed >= 1 && forall n | ArmsCall(t.m, arms, n) :: CalleeMost(t, callee, n)
    ensures ArmsTake(t, arms, Checked(arms), t.rows(ArmsCost(t.m, callee, arms, t.m.zero)))
    ensures t.assumed == 1 || (forall i :: 0 <= i < |arms| ==> !OpenArm(arms[i])) ==>
      forall checks: nat, n: nat | ArmsTake(t, arms, checks, n) ::
        checks <= Checked(arms) && n <= t.rows(ArmsCost(t.m, callee, arms, t.m.zero))
    decreases arms, 2
  {
    hide CalleeMost, ArmTakes, ArmsCost, OpenArm, Compared, Checked;
    var i := ArmsMost(t, callee, arms, t.m.zero);
    CheckedIsCompared(arms);
    var c := t.rows(ArmsCost(t.m, callee, arms, t.m.zero));
    if arms == [] {
      NothingCompared();
    } else {
      var j := if c == 0 then 0 else i;
      assert ArmFits(t, arms[j], c);
      FewerCompared(arms, j + 1);
      assert ArmTakes(t, arms[j], c);
      if t.assumed == 1 || (forall k :: 0 <= k < |arms| ==> !OpenArm(arms[k])) {
        forall checks: nat, n: nat | ArmsTake(t, arms, checks, n)
          ensures checks <= Checked(arms) && n <= c
        {
          var k := ArmParts(t, arms, checks, n);
          assert ArmFits(t, arms[k], c);
        }
      }
    }
  }

  lemma NothingCompared()
    ensures Checked([]) == 0
  {}

  lemma ArmParts<C>(t: Table<C>, arms: seq<Arm>, checks: nat, n: nat) returns (i: nat)
    requires ArmsTake(t, arms, checks, n) && arms != []
    ensures i < |arms| && ArmTakes(t, arms[i], n) && |Compared(arms, i + 1)| <= checks <= |Compared(arms, |arms|)|
  {
    i :| 0 <= i < |arms| && ArmTakes(t, arms[i], n) && |Compared(arms, i + 1)| <= checks <= |Compared(arms, |arms|)|;
  }

  lemma {:induction false} MatchMost<C(!new)>(t: Table<C>, callee: string -> C, scrutinee: Expr, arms: seq<Arm>)
    requires Counts(t) && t.assumed >= 1 && forall n | StmtCalls(t.m, Match(scrutinee, arms), n) :: CalleeMost(t, callee, n)
    ensures StmtTakes(t, Match(scrutinee, arms), t.rows(StmtCost(t.m, callee, Match(scrutinee, arms))))
    ensures t.assumed == 1 || !OpenStmt(Match(scrutinee, arms)) ==>
      forall n: nat | StmtTakes(t, Match(scrutinee, arms), n) :: n <= t.rows(StmtCost(t.m, callee, Match(scrutinee, arms)))
    decreases Match(scrutinee, arms), -1
  {
    hide CalleeMost, ExprTakes, ArmsTake, ExprCost, ArmsCost, OpenArm, Checked;
    var s := Match(scrutinee, arms);
    ExprMost(t, callee, scrutinee);
    ChoiceMost(t, callee, arms);
    assert MatchTakes(t, s, t.rows(ExprCost(t.m, callee, scrutinee)) + CheckRows(t) * Checked(arms) + t.rows(ArmsCost(t.m, callee, arms, t.m.zero)));
    if t.assumed == 1 || !OpenStmt(s) {
      forall n: nat | MatchTakes(t, s, n)
        ensures n <= t.rows(StmtCost(t.m, callee, s))
      {
        var a, b, tests := MatchParts(t, s, n);
        Monotone(CheckRows(t), tests, Checked(arms));
      }
    }
  }
}
