/** The static cost analysis: what a block costs given what calls cost, and the guarded, memoising analysis of calls. */
module Cost {
  import opened Machine

  // ----- syntax, as far as cost depends on it -----

  datatype Expr =
    | Literal(value: Option<nat>)  // the value of an integer literal
    | Var
    | BinOp(op: nat, lhs: Expr, rhs: Expr)
    | Call(path: string, args: seq<Expr>)
    | Access(inner: Expr)          // a field or an array element
    | Elements(elems: seq<Expr>)   // a structure, an array or a tuple

  datatype Stmt =
    | Let(init: Expr)
    | Assign(value: Expr)
    | TupleAssign(names: nat, value: Expr)
    | If(cond: Expr, thenBlock: Block, elseBlock: Option<Block>)
    | For(end: Expr, bound: Option<nat>, body: Block)
    | ExprStmt(expr: Expr)
    | ReturnStmt(result: Option<Expr>)
    | Reveal(fields: seq<Expr>)
    | Seal(fields: seq<Expr>)
    | Asm(lines: nat)
    | Match(scrutinee: Expr, arms: seq<Arm>)

  datatype Arm = Arm(wildcard: bool, body: Block)

  datatype Block = Block(stmts: seq<Stmt>, tail: Option<Expr>)

  /** Costs, how they combine, and what the target charges. `builtin` answers only for functions with a cost of their own. */
  datatype Model<!C> = Model(
    zero: C, add: (C, C) -> C, scale: (C, nat) -> C, max: (C, C) -> C,
    stackOp: C, ifOverhead: C, loopOverhead: C, callOverhead: C,
    binop: nat -> C, builtin: string -> Option<C>,
    pubWrite: C, hash: C, pubWriteFive: C)

  /** The part of a dotted name after the last dot. */
  function BaseName(path: string): string {
    if path == "" then ""
    else if path[|path| - 1] == '.' then ""
    else BaseName(path[..|path| - 1]) + [path[|path| - 1]]
  }

  function BuiltinCost<C>(m: Model<C>, path: string): Option<C> {
    var c := m.builtin(path);
    if c.Some? then c else m.builtin(BaseName(path))
  }

  // ----- the cost of syntax, given the cost of calls -----

  function ExprCost<C>(m: Model<C>, callee: string -> C, e: Expr): C
    decreases e, 0
  {
    match e
    case Literal(_) => m.stackOp
    case Var => m.stackOp
    case BinOp(op, lhs, rhs) => m.add(m.add(ExprCost(m, callee, lhs), ExprCost(m, callee, rhs)), m.binop(op))
    case Call(path, args) =>
      var argsCost := ExprsCost(m, callee, args, m.zero);
      var builtin := BuiltinCost(m, path);
      if builtin.Some? then m.add(argsCost, builtin.value)
      else m.add(m.add(argsCost, callee(BaseName(path))), m.callOverhead)
    case Access(inner) => m.add(ExprCost(m, callee, inner), m.stackOp)
    case Elements(elems) => ExprsCost(m, callee, elems, m.zero)
  }

  function ExprsCost<C>(m: Model<C>, callee: string -> C, es: seq<Expr>, sofar: C): C
    decreases es, 1
  {
    if es == [] then sofar else ExprsCost(m, callee, es[1..], m.add(sofar, ExprCost(m, callee, es[0])))
  }

  function BlockCost<C>(m: Model<C>, callee: string -> C, b: Block): C
    decreases b, 0
  {
    var cost := StmtsCost(m, callee, b.stmts, m.zero);
    if b.tail.Some? then m.add(cost, ExprCost(m, callee, b.tail.value)) else cost
  }

  function StmtsCost<C>(m: Model<C>, callee: string -> C, stmts: seq<Stmt>, sofar: C): C
    decreases stmts, 1
  {
    if stmts == [] then sofar else StmtsCost(m, callee, stmts[1..], m.add(sofar, StmtCost(m, callee, stmts[0])))
  }

  /** How often a loop is charged: its declared bound, else a literal end, else once. */
  function Iterations(end: Expr, bound: Option<nat>): nat {
    if bound.Some? then bound.value
    else if end.Literal? && end.value.Some? then end.value.value
    else 1
  }

  /** The moves that put a tuple into place: a swap and a pop for each name. */
  function Moves<C>(m: Model<C>, names: nat, sofar: C): C {
    if names == 0 then sofar else Moves(m, names - 1, m.add(m.add(sofar, m.stackOp), m.stackOp))
  }

  function Checked(arms: seq<Arm>): nat {
    if arms == [] then 0 else (if arms[0].wildcard then 0 else 1) + Checked(arms[1..])
  }

  function StmtCost<C>(m: Model<C>, callee: string -> C, s: Stmt): C
    decreases s, 0
  {
    match s
    case Let(init) => m.add(ExprCost(m, callee, init), m.stackOp)
    case Assign(value) => m.add(m.add(ExprCost(m, callee, value), m.stackOp), m.stackOp)
    case TupleAssign(names, value) => Moves(m, names, ExprCost(m, callee, value))
    case If(cond, t, e) =>
      var elseCost := if e.Some? then BlockCost(m, callee, e.value) else m.zero;
      m.add(m.add(ExprCost(m, callee, cond), m.max(BlockCost(m, callee, t), elseCost)), m.ifOverhead)
    case For(end, bound, body) =>
      var perIteration := m.add(BlockCost(m, callee, body), m.loopOverhead);
      m.add(ExprCost(m, callee, end), m.scale(perIteration, Iterations(end, bound)))
    case ExprStmt(expr) => ExprCost(m, callee, expr)
    case ReturnStmt(result) => if result.Some? then ExprCost(m, callee, result.value) else m.zero
    case Reveal(fields) => ExprsCost(m, callee, fields, m.add(m.scale(m.stackOp, 28), m.scale(m.pubWrite, 10)))
    case Seal(fields) => m.add(m.add(ExprsCost(m, callee, fields, m.scale(m.stackOp, 40)), m.hash), m.pubWriteFive)
    case Asm(lines) => m.scale(m.stackOp, lines)
    case Match(scrutinee, arms) =>
      var armOverhead := m.add(m.scale(m.stackOp, 3), m.ifOverhead);
      m.add(m.add(ExprCost(m, callee, scrutinee), m.scale(armOverhead, Checked(arms))), ArmsCost(m, callee, arms, m.zero))
  }

  function ArmsCost<C>(m: Model<C>, callee: string -> C, arms: seq<Arm>, sofar: C): C
    decreases arms, 1
  {
    if arms == [] then sofar else ArmsCost(m, callee, arms[1..], m.max(sofar, ArmCost(m, callee, arms[0])))
  }

  function ArmCost<C>(m: Model<C>, callee: string -> C, arm: Arm): C
    decreases arm, 1
  {
    BlockCost(m, callee, arm.body)
  }

  // ----- which functions syntax calls -----

  predicate ExprCalls<C>(m: Model<C>, e: Expr, n: string)
    decreases e, 0
  {
    match e
    case BinOp(_, lhs, rhs) => ExprCalls(m, lhs, n) || ExprCalls(m, rhs, n)
    case Call(path, args) => (BuiltinCost(m, path).None? && BaseName(path) == n) || ExprsCall(m, args, n)
    case Access(inner) => ExprCalls(m, inner, n)
    case Elements(elems) => ExprsCall(m, elems, n)
    case _ => false
  }

  predicate ExprsCall<C>(m: Model<C>, es: seq<Expr>, n: string)
    decreases es, 1
  {
    es != [] && (ExprCalls(m, es[0], n) || ExprsCall(m, es[1..], n))
  }

  predicate BlockCalls<C>(m: Model<C>, b: Block, n: string)
    decreases b, 0
  {
    StmtsCall(m, b.stmts, n) || (b.tail.Some? && ExprCalls(m, b.tail.value, n))
  }

  predicate StmtsCall<C>(m: Model<C>, stmts: seq<Stmt>, n: string)
    decreases stmts, 1
  {
    stmts != [] && (StmtCalls(m, stmts[0], n) || StmtsCall(m, stmts[1..], n))
  }

  predicate StmtCalls<C>(m: Model<C>, s: Stmt, n: string)
    decreases s, 0
  {
    match s
    case Let(init) => ExprCalls(m, init, n)
    case Assign(value) => ExprCalls(m, value, n)
    case TupleAssign(_, value) => ExprCalls(m, value, n)
    case If(cond, t, e) => ExprCalls(m, cond, n) || BlockCalls(m, t, n) || (e.Some? && BlockCalls(m, e.value, n))
    case For(end, _, body) => ExprCalls(m, end, n) || BlockCalls(m, body, n)
    case ExprStmt(expr) => ExprCalls(m, expr, n)
    case ReturnStmt(result) => result.Some? && ExprCalls(m, result.value, n)
    case Reveal(fields) => ExprsCall(m, fields, n)
    case Seal(fields) => ExprsCall(m, fields, n)
    case Asm(_) => false
    case Match(scrutinee, arms) => ExprCalls(m, scrutinee, n) || ArmsCall(m, arms, n)
  }

  predicate ArmsCall<C>(m: Model<C>, arms: seq<Arm>, n: string)
    decreases arms, 1
  {
    arms != [] && (ArmCalls(m, arms[0], n) || ArmsCall(m, arms[1..], n))
  }

  predicate ArmCalls<C>(m: Model<C>, arm: Arm, n: string)
    decreases arm, 1
  {
    BlockCalls(m, arm.body, n)
  }

  // ----- the calls in the order in which they are charged -----

  /** The calls of known functions that are charged when the expression is, in order. */
  function ExprNames<C>(m: Model<C>, known: set<string>, e: Expr): seq<string>
    decreases e, 0
  {
    match e
    case BinOp(_, lhs, rhs) => ExprNames(m, known, lhs) + ExprNames(m, known, rhs)
    case Call(path, args) =>
      ExprsNames(m, known, args) + (if BuiltinCost(m, path).None? && BaseName(path) in known then [BaseName(path)] else [])
    case Access(inner) => ExprNames(m, known, inner)
    case Elements(elems) => ExprsNames(m, known, elems)
    case _ => []
  }

  function ExprsNames<C>(m: Model<C>, known: set<string>, es: seq<Expr>): seq<string>
    decreases es, 1
  {
    if es == [] then [] else ExprNames(m, known, es[0]) + ExprsNames(m, known, es[1..])
  }

  function TailNames<C>(m: Model<C>, known: set<string>, tail: Option<Expr>): seq<string>
    decreases tail, 1
  {
    if tail.Some? then ExprNames(m, known, tail.value) else []
  }

  function BlockNames<C>(m: Model<C>, known: set<string>, b: Block): seq<string>
    decreases b, 0
  {
    StmtsNames(m, known, b.stmts) + TailNames(m, known, b.tail)
  }

  function StmtsNames<C>(m: Model<C>, known: set<string>, stmts: seq<Stmt>): seq<string>
    decreases stmts, 1
  {
    if stmts == [] then [] else StmtNames(m, known, stmts[0]) + StmtsNames(m, known, stmts[1..])
  }

  function ElseNames<C>(m: Model<C>, known: set<string>, e: Option<Block>): seq<string>
    decreases e, 1
  {
    if e.Some? then BlockNames(m, known, e.value) else []
  }

  function StmtNames<C>(m: Model<C>, known: set<string>, s: Stmt): seq<string>
    decreases s, 0
  {
    match s
    case Let(init) => ExprNames(m, known, init)
    case Assign(value) => ExprNames(m, known, value)
    case TupleAssign(_, value) => ExprNames(m, known, value)
    case If(cond, t, e) => ExprNames(m, known, cond) + (BlockNames(m, known, t) + ElseNames(m, known, e))
    case For(end, _, body) => ExprNames(m, known, end) + BlockNames(m, known, body)
    case ExprStmt(expr) => ExprNames(m, known, expr)
    case ReturnStmt(result) => TailNames(m, known, result)
    case Reveal(fields) => ExprsNames(m, known, fields)
    case Seal(fields) => ExprsNames(m, known, fields)
    case Asm(_) => []
    case Match(scrutinee, arms) => ExprNames(m, known, scrutinee) + ArmsNames(m, known, arms)
  }

  function ArmsNames<C>(m: Model<C>, known: set<string>, arms: seq<Arm>): seq<string>
    decreases arms, 1
  {
    if arms == [] then [] else ArmNames(m, known, arms[0]) + ArmsNames(m, known, arms[1..])
  }

  function ArmNames<C>(m: Model<C>, known: set<string>, arm: Arm): seq<string>
    decreases arm, 1
  {
    BlockNames(m, known, arm.body)
  }

  /** Every known function that is called is among them. */
  lemma {:induction false} ExprNamed<C>(m: Model<C>, known: set<string>, e: Expr, n: string)
    ensures ExprCalls(m, e, n) && n in known ==> n in ExprNames(m, known, e)
    decreases e, 0
  {
    match e
    case BinOp(_, lhs, rhs) =>
      ExprNamed(m, known, lhs, n);
      ExprNamed(m, known, rhs, n);
    case Call(path, args) => ExprsNamed(m, known, args, n);
    case Access(inner) => ExprNamed(m, known, inner, n);
    case Elements(elems) => ExprsNamed(m, known, elems, n);
    case _ =>
  }

  lemma {:induction false} ExprsNamed<C>(m: Model<C>, known: set<string>, es: seq<Expr>, n: string)
    ensures ExprsCall(m, es, n) && n in known ==> n in ExprsNames(m, known, es)
    decreases es, 1
  {
    if es != [] {
      ExprNamed(m, known, es[0], n);
      ExprsNamed(m, known, es[1..], n);
    }
  }

  lemma {:induction false} BlockNamed<C>(m: Model<C>, known: set<string>, b: Block, n: string)
    ensures BlockCalls(m, b, n) && n in known ==> n in BlockNames(m, known, b)
    decreases b, 0
  {
    StmtsNamed(m, known, b.stmts, n);
    if b.tail.Some? {
      ExprNamed(m, known, b.tail.value, n);
    }
  }

  lemma {:induction false} StmtsNamed<C>(m: Model<C>, known: set<string>, stmts: seq<Stmt>, n: string)
    ensures StmtsCall(m, stmts, n) && n in known ==> n in StmtsNames(m, known, stmts)
    decreases stmts, 1
  {
    if stmts != [] {
      StmtNamed(m, known, stmts[0], n);
      StmtsNamed(m, known, stmts[1..], n);
    }
  }

  lemma {:induction false} StmtNamed<C>(m: Model<C>, known: set<string>, s: Stmt, n: string)
    ensures StmtCalls(m, s, n) && n in known ==> n in StmtNames(m, known, s)
    decreases s, 0
  {
    match s
    case Let(init) => ExprNamed(m, known, init, n);
    case Assign(value) => ExprNamed(m, known, value, n);
    case TupleAssign(_, value) => ExprNamed(m, known, value, n);
    case If(cond, t, e) =>
      ExprNamed(m, known, cond, n);
      BlockNamed(m, known, t, n);
      if e.Some? {
        BlockNamed(m, known, e.value, n);
      }
    case For(end, _, body) =>
      ExprNamed(m, known, end, n);
      BlockNamed(m, known, body, n);
    case ExprStmt(expr) => ExprNamed(m, known, expr, n);
    case ReturnStmt(result) =>
      if result.Some? {
        ExprNamed(m, known, result.value, n);
      }
    case Reveal(fields) => ExprsNamed(m, known, fields, n);
    case Seal(fields) => ExprsNamed(m, known, fields, n);
    case Asm(_) =>
    case Match(scrutinee, arms) =>
      ExprNamed(m, known, scrutinee, n);
      ArmsNamed(m, known, arms, n);
  }

  lemma {:induction false} ArmsNamed<C>(m: Model<C>, known: set<string>, arms: seq<Arm>, n: string)
    ensures ArmsCall(m, arms, n) && n in known ==> n in ArmsNames(m, known, arms)
    decreases arms, 1
  {
    if arms != [] {
      ArmNamed(m, known, arms[0], n);
      ArmsNamed(m, known, arms[1..], n);
    }
  }

  lemma {:induction false} ArmNamed<C>(m: Model<C>, known: set<string>, arm: Arm, n: string)
    ensures ArmCalls(m, arm, n) && n in known ==> n in ArmNames(m, known, arm)
    decreases arm, 1
  {
    BlockNamed(m, known, arm.body, n);
  }

  // ----- the cost depends only on the functions called -----

  lemma {:induction false} ExprSame<C>(m: Model<C>, f: string -> C, g: string -> C, e: Expr)
    requires forall n | ExprCalls(m, e, n) :: f(n) == g(n)
    ensures ExprCost(m, f, e) == ExprCost(m, g, e)
    decreases e, 0
  {
    match e
    case BinOp(_, lhs, rhs) =>
      ExprSame(m, f, g, lhs);
      ExprSame(m, f, g, rhs);
    case Call(path, args) =>
      ExprsSame(m, f, g, args, m.zero);
      assert BuiltinCost(m, path).None? ==> ExprCalls(m, e, BaseName(path));
    case Access(inner) => ExprSame(m, f, g, inner);
    case Elements(elems) => ExprsSame(m, f, g, elems, m.zero);
    case _ =>
  }

  lemma {:induction false} ExprsSame<C>(m: Model<C>, f: string -> C, g: string -> C, es: seq<Expr>, sofar: C)
    requires forall n | ExprsCall(m, es, n) :: f(n) == g(n)
    ensures ExprsCost(m, f, es, sofar) == ExprsCost(m, g, es, sofar)
    decreases es, 1
  {
    if es != [] {
      ExprSame(m, f, g, es[0]);
      ExprsSame(m, f, g, es[1..], m.add(sofar, ExprCost(m, f, es[0])));
    }
  }

  lemma {:induction false} BlockSame<C>(m: Model<C>, f: string -> C, g: string -> C, b: Block)
    requires forall n | BlockCalls(m, b, n) :: f(n) == g(n)
    ensures BlockCost(m, f, b) == BlockCost(m, g, b)
    decreases b, 0
  {
    StmtsSame(m, f, g, b.stmts, m.zero);
    if b.tail.Some? {
      ExprSame(m, f, g, b.tail.value);
    }
  }

  lemma {:induction false} StmtsSame<C>(m: Model<C>, f: string -> C, g: string -> C, stmts: seq<Stmt>, sofar: C)
    requires forall n | StmtsCall(m, stmts, n) :: f(n) == g(n)
    ensures StmtsCost(m, f, stmts, sofar) == StmtsCost(m, g, stmts, sofar)
    decreases stmts, 1
  {
    if stmts != [] {
      StmtSame(m, f, g, stmts[0]);
      StmtsSame(m, f, g, stmts[1..], m.add(sofar, StmtCost(m, f, stmts[0])));
    }
  }

  lemma {:induction false} StmtSame<C>(m: Model<C>, f: string -> C, g: string -> C, s: Stmt)
    requires forall n | StmtCalls(m, s, n) :: f(n) == g(n)
    ensures StmtCost(m, f, s) == StmtCost(m, g, s)
    decreases s, 0
  {
    match s
    case Let(init) => ExprSame(m, f, g, init);
    case Assign(value) => ExprSame(m, f, g, value);
    case TupleAssign(_, value) => ExprSame(m, f, g, value);
    case If(cond, t, e) =>
      ExprSame(m, f, g, cond);
      BlockSame(m, f, g, t);
      if e.Some? {
        BlockSame(m, f, g, e.value);
      }
    case For(end, _, body) =>
      ExprSame(m, f, g, end);
      BlockSame(m, f, g, body);
    case ExprStmt(expr) => ExprSame(m, f, g, expr);
    case ReturnStmt(result) =>
      if result.Some? {
        ExprSame(m, f, g, result.value);
      }
    case Reveal(fields) => ExprsSame(m, f, g, fields, m.add(m.scale(m.stackOp, 28), m.scale(m.pubWrite, 10)));
    case Seal(fields) => ExprsSame(m, f, g, fields, m.scale(m.stackOp, 40));
    case Asm(_) =>
    case Match(scrutinee, arms) =>
      ExprSame(m, f, g, scrutinee);
      ArmsSame(m, f, g, arms, m.zero);
  }

  lemma {:induction false} ArmsSame<C>(m: Model<C>, f: string -> C, g: string -> C, arms: seq<Arm>, sofar: C)
    requires forall n | ArmsCall(m, arms, n) :: f(n) == g(n)
    ensures ArmsCost(m, f, arms, sofar) == ArmsCost(m, g, arms, sofar)
    decreases arms, 1
  {
    if arms != [] {
      ArmSame(m, f, g, arms[0]);
      ArmsSame(m, f, g, arms[1..], m.max(sofar, ArmCost(m, f, arms[0])));
    }
  }

  lemma {:induction false} ArmSame<C>(m: Model<C>, f: string -> C, g: string -> C, arm: Arm)
    requires forall n | ArmCalls(m, arm, n) :: f(n) == g(n)
    ensures ArmCost(m, f, arm) == ArmCost(m, g, arm)
    decreases arm, 1
  {
    BlockSame(m, f, g, arm.body);
  }
}
