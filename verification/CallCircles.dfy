/** Where functions do call each other in a circle, the order of the analysis shows for a target that counts calls. */
module CallCircles {
  import opened Machine
  import opened Cost
  import opened CostAnalysis
  import opened CallOrder

  // ----- counting calls -----

  function Sum(a: nat, b: nat): nat {
    a + b
  }

  function Once(a: nat, n: nat): nat {
    a
  }

  /** A target that charges one for each call: of both sides of a branch, and of a loop's body once. */
  function CountCalls(): Model<nat> {
    Model(0, Sum, Once, Sum, 0, 0, 0, 1, _ => 0, _ => None, 0, 0, 0)
  }

  /** No call is cheaper by `g` than by `f`. */
  ghost predicate Rises(f: string -> nat, g: string -> nat) {
    forall n :: f(n) <= g(n)
  }

  /** Dearer calls make dearer code, strictly if a call that is strictly dearer is made, and code with a call costs something. */
  lemma {:induction false} ExprRises(f: string -> nat, g: string -> nat, e: Expr, x: string)
    requires Rises(f, g)
    ensures var m := CountCalls();
      && ExprCost(m, f, e) <= ExprCost(m, g, e)
      && (ExprCalls(m, e, x) ==> ExprCost(m, g, e) >= 1 && (f(x) < g(x) ==> ExprCost(m, f, e) < ExprCost(m, g, e)))
    decreases e, 0
  {
    match e
    case BinOp(_, lhs, rhs) =>
      ExprRises(f, g, lhs, x);
      ExprRises(f, g, rhs, x);
    case Call(path, args) =>
      ExprsRise(f, g, args, x, 0, 0);
      assert f(BaseName(path)) <= g(BaseName(path));
    case Access(inner) => ExprRises(f, g, inner, x);
    case Elements(elems) => ExprsRise(f, g, elems, x, 0, 0);
    case _ =>
  }

  lemma {:induction false} ExprsRise(f: string -> nat, g: string -> nat, es: seq<Expr>, x: string, a: nat, b: nat)
    requires Rises(f, g) && a <= b
    ensures var m := CountCalls();
      var c, d := ExprsCost(m, f, es, a), ExprsCost(m, g, es, b);
      c <= d && b <= d && (a < b ==> c < d) && (ExprsCall(m, es, x) ==> d >= 1 && (f(x) < g(x) ==> c < d))
    decreases es, 1
  {
    if es != [] {
      ExprRises(f, g, es[0], x);
      ExprsRise(f, g, es[1..], x, a + ExprCost(CountCalls(), f, es[0]), b + ExprCost(CountCalls(), g, es[0]));
    }
  }

  lemma {:induction false} BlockRises(f: string -> nat, g: string -> nat, b: Block, x: string)
    requires Rises(f, g)
    ensures var m := CountCalls();
      && BlockCost(m, f, b) <= BlockCost(m, g, b)
      && (BlockCalls(m, b, x) ==> BlockCost(m, g, b) >= 1 && (f(x) < g(x) ==> BlockCost(m, f, b) < BlockCost(m, g, b)))
    decreases b, 0
  {
    StmtsRise(f, g, b.stmts, x, 0, 0);
    if b.tail.Some? {
      ExprRises(f, g, b.tail.value, x);
    }
  }

  lemma {:induction false} StmtsRise(f: string -> nat, g: string -> nat, stmts: seq<Stmt>, x: string, a: nat, b: nat)
    requires Rises(f, g) && a <= b
    ensures var m := CountCalls();
      var c, d := StmtsCost(m, f, stmts, a), StmtsCost(m, g, stmts, b);
      c <= d && b <= d && (a < b ==> c < d) && (StmtsCall(m, stmts, x) ==> d >= 1 && (f(x) < g(x) ==> c < d))
    decreases stmts, 1
  {
    if stmts != [] {
      StmtRises(f, g, stmts[0], x);
      StmtsRise(f, g, stmts[1..], x, a + StmtCost(CountCalls(), f, stmts[0]), b + StmtCost(CountCalls(), g, stmts[0]));
    }
  }

  lemma {:induction false} MovesAreFree(names: nat, a: nat)
    ensures Moves(CountCalls(), names, a) == a
  {
    if names > 0 {
      MovesAreFree(names - 1, a);
    }
  }

  lemma {:induction false} StmtRises(f: string -> nat, g: string -> nat, s: Stmt, x: string)
    requires Rises(f, g)
    ensures var m := CountCalls();
      && StmtCost(m, f, s) <= StmtCost(m, g, s)
      && (StmtCalls(m, s, x) ==> StmtCost(m, g, s) >= 1 && (f(x) < g(x) ==> StmtCost(m, f, s) < StmtCost(m, g, s)))
    decreases s, 0
  {
    match s
    case Let(init) => ExprRises(f, g, init, x);
    case Assign(value) => ExprRises(f, g, value, x);
    case TupleAssign(names, value) =>
      ExprRises(f, g, value, x);
      MovesAreFree(names, ExprCost(CountCalls(), f, value));
      MovesAreFree(names, ExprCost(CountCalls(), g, value));
    case If(cond, t, e) =>
      ExprRises(f, g, cond, x);
      BlockRises(f, g, t, x);
      if e.Some? {
        BlockRises(f, g, e.value, x);
      }
    case For(end, _, body) =>
      ExprRises(f, g, end, x);
      BlockRises(f, g, body, x);
    case ExprStmt(expr) => ExprRises(f, g, expr, x);
    case ReturnStmt(result) =>
      if result.Some? {
        ExprRises(f, g, result.value, x);
      }
    case Reveal(fields) => ExprsRise(f, g, fields, x, 0, 0);
    case Seal(fields) => ExprsRise(f, g, fields, x, 0, 0);
    case Asm(_) =>
    case Match(scrutinee, arms) =>
      ExprRises(f, g, scrutinee, x);
      ArmsRise(f, g, arms, x, 0, 0);
  }

  lemma {:induction false} ArmsRise(f: string -> nat, g: string -> nat, arms: seq<Arm>, x: string, a: nat, b: nat)
    requires Rises(f, g) && a <= b
    ensures var m := CountCalls();
      var c, d := ArmsCost(m, f, arms, a), ArmsCost(m, g, arms, b);
      c <= d && b <= d && (a < b ==> c < d) && (ArmsCall(m, arms, x) ==> d >= 1 && (f(x) < g(x) ==> c < d))
    decreases arms, 1
  {
    if arms != [] {
      ArmRises(f, g, arms[0], x);
      ArmsRise(f, g, arms[1..], x, a + ArmCost(CountCalls(), f, arms[0]), b + ArmCost(CountCalls(), g, arms[0]));
    }
  }

  lemma {:induction false} ArmRises(f: string -> nat, g: string -> nat, arm: Arm, x: string)
    requires Rises(f, g)
    ensures var m := CountCalls();
      && ArmCost(m, f, arm) <= ArmCost(m, g, arm)
      && (ArmCalls(m, arm, x) ==> ArmCost(m, g, arm) >= 1 && (f(x) < g(x) ==> ArmCost(m, f, arm) < ArmCost(m, g, arm)))
    decreases arm, 1
  {
    BlockRises(f, g, arm.body, x);
  }

  // ----- what the guard leaves out -----

  /** What a call costs when nothing is remembered. */
  function Fresh(bodies: Bodies, progress: seq<string>, name: string): nat {
    FnCost(CountCalls(), bodies, map[], progress, name)
  }

  /** The memo holds what was found from the outside, with nothing remembered before. */
  ghost predicate FromOutside(bodies: Bodies, memo: map<string, nat>) {
    forall n :: n in memo ==> memo[n] == Fresh(bodies, [], n)
  }

  /** The more functions are in progress, the more calls the guard leaves out. */
  lemma {:induction false} GuardLeavesOut(bodies: Bodies, more: seq<string>, fewer: seq<string>, name: string)
    requires forall p :: p in fewer ==> p in more
    ensures Fresh(bodies, more, name) <= Fresh(bodies, fewer, name)
    decreases Untouched(bodies, fewer)
  {
    if name in bodies && name !in more && bodies[name].Some? {
      assert name in Untouched(bodies, fewer) && name !in Untouched(bodies, fewer + [name]);
      var f, g := Callee(CountCalls(), bodies, map[], more + [name]), Callee(CountCalls(), bodies, map[], fewer + [name]);
      forall n
        ensures f(n) <= g(n)
      {
        GuardLeavesOut(bodies, more + [name], fewer + [name], n);
      }
      BlockRises(f, g, bodies[name].value, name);
    }
  }

  /** A remembered cost has nothing left out. */
  lemma {:induction false} MemoLeavesNothingOut(bodies: Bodies, memo: map<string, nat>, progress: seq<string>, name: string)
    requires FromOutside(bodies, memo)
    ensures Fresh(bodies, progress, name) <= FnCost(CountCalls(), bodies, memo, progress, name)
    decreases Untouched(bodies, progress)
  {
    if name in bodies {
      if name in memo {
        GuardLeavesOut(bodies, progress, [], name);
      } else if name !in progress && bodies[name].Some? {
        assert name in Untouched(bodies, progress) && name !in Untouched(bodies, progress + [name]);
        var f, g := Callee(CountCalls(), bodies, map[], progress + [name]), Callee(CountCalls(), bodies, memo, progress + [name]);
        forall n
          ensures f(n) <= g(n)
        {
          MemoLeavesNothingOut(bodies, memo, progress + [name], n);
        }
        BlockRises(f, g, bodies[name].value, name);
      }
    }
  }

  /** `end` is `n` calls away and no fewer. */
  ghost predicate Away(bodies: Bodies, a: string, end: string, n: nat) {
    Leads(CountCalls(), bodies, a, end, n) && forall i :: 0 <= i < n ==> !Leads(CountCalls(), bodies, a, end, i)
  }

  lemma {:induction false} Nearest(bodies: Bodies, a: string, end: string, n: nat) returns (k: nat)
    requires Leads(CountCalls(), bodies, a, end, n)
    ensures Away(bodies, a, end, k)
    decreases n
  {
    hide Leads;
    if i: nat :| i < n && Leads(CountCalls(), bodies, a, end, i) {
      k := Nearest(bodies, a, end, i);
    } else {
      k := n;
    }
  }

  lemma NextAway(bodies: Bodies, a: string, end: string, n: nat) returns (x: string)
    requires Away(bodies, a, end, n) && n > 0
    ensures a != end && Calls(CountCalls(), bodies, a, x) && Away(bodies, x, end, n - 1)
  {
    hide Calls;
    assert !Leads(CountCalls(), bodies, a, end, 0);
    x :| Calls(CountCalls(), bodies, a, x) && Leads(CountCalls(), bodies, x, end, n - 1);
    forall i | 0 <= i < n - 1
      ensures !Leads(CountCalls(), bodies, x, end, i)
    {
      assert !Leads(CountCalls(), bodies, a, end, i + 1);
    }
  }

  /** Everything in progress but `end` itself is further than `n` calls from it. */
  ghost predicate AllBeyond(bodies: Bodies, progress: seq<string>, end: string, n: nat) {
    forall p, i | p in progress && p != end && 0 <= i <= n :: !Leads(CountCalls(), bodies, p, end, i)
  }

  /** A call that leads to a function in progress costs strictly less than it would if that were not in progress. */
  lemma {:induction false} GuardIsHit(bodies: Bodies, more: seq<string>, fewer: seq<string>, name: string, end: string, next: string, n: nat)
    requires (forall p :: p in fewer ==> p in more) && end in more && end !in fewer
    requires Calls(CountCalls(), bodies, end, next) && Away(bodies, name, end, n) && AllBeyond(bodies, more, end, n)
    ensures Fresh(bodies, more, name) < Fresh(bodies, fewer, name)
    decreases n
  {
    hide Leads, BlockCost, BlockCalls;
    var f, g := Callee(CountCalls(), bodies, map[], more + [name]), Callee(CountCalls(), bodies, map[], fewer + [name]);
    if n == 0 {
      assert name == end by { LeadsNowhere(bodies, name, end); }
      BlockRises(g, g, bodies[end].value, next);
    } else {
      var x := NextAway(bodies, name, end, n);
      assert name !in more;
      GuardIsHit(bodies, more + [name], fewer + [name], x, end, next, n - 1);
      forall k
        ensures f(k) <= g(k)
      {
        GuardLeavesOut(bodies, more + [name], fewer + [name], k);
      }
      BlockRises(f, g, bodies[name].value, x);
    }
  }

  lemma LeadsNowhere(bodies: Bodies, a: string, b: string)
    requires Leads(CountCalls(), bodies, a, b, 0)
    ensures a == b
  {}

  // ----- circles show -----

  /** One call of a circle: its caller is reported at less before its callee than after it. */
  lemma CircleShows(bodies: Bodies, a: string, b: string)
    requires a != b && Calls(CountCalls(), bodies, a, b) && Reaches(CountCalls(), bodies, b, a)
    ensures Costs(CountCalls(), bodies, [a])[0] < Costs(CountCalls(), bodies, [b, a])[1]
  {
    hide Leads, BlockCost, BlockCalls;
    var m := CountCalls();
    var n: nat :| Leads(m, bodies, b, a, n);
    var k := Nearest(bodies, b, a, n);
    GuardIsHit(bodies, [a], [], b, a, b, k);
    var memo: map<string, nat> := map[];
    memo := memo[b := Fresh(bodies, [], b)];
    var inside := [] + [a];
    assert inside == [a];
    var f, g := Callee(m, bodies, map[], inside), Callee(m, bodies, memo, inside);
    forall x
      ensures f(x) <= g(x)
    {
      MemoLeavesNothingOut(bodies, memo, inside, x);
    }
    assert f(b) == Fresh(bodies, [a], b);
    assert g(b) == FnCost(m, bodies, memo, inside, b) == memo[b];
    BlockRises(f, g, bodies[a].value, b);
    assert Fresh(bodies, [], a) == BodyCost(m, f, bodies[a]);
    assert FnCost(m, bodies, memo, [], a) == BodyCost(m, g, bodies[a]);
    assert Fresh(bodies, [], a) < FnCost(m, bodies, memo, [], a);
    CostsAre(m, bodies, [a], 0);
    CostsAre(m, bodies, [b, a], 1);
    assert [b, a][..1] == [b] && [a][..0] == [];
    AfterNothing(m, bodies, map[], []);
    AfterOne(m, bodies, map[], [], b);
  }

  /** Somewhere on a circle through different functions, one function calls another. */
  lemma {:induction false} CircleHasCall(bodies: Bodies, a: string, b: string, n: nat) returns (x: string, y: string)
    requires a != b && Leads(CountCalls(), bodies, a, b, n) && Reaches(CountCalls(), bodies, b, a)
    ensures x != y && Calls(CountCalls(), bodies, x, y) && Reaches(CountCalls(), bodies, y, x)
    decreases n
  {
    hide Calls;
    var m := CountCalls();
    var c :| Calls(m, bodies, a, c) && Leads(m, bodies, c, b, n - 1);
    if c == a {
      x, y := CircleHasCall(bodies, a, b, n - 1);
    } else {
      x, y := a, c;
      ReachesOn(m, bodies, c, b, a);
    }
  }

  /**
   * For a target that counts calls, the order of the analysis shows in the report exactly if some function reaches itself
   * through a different one. Calls of itself never make a difference.
   */
  lemma OrderShowsExactly(bodies: Bodies)
    ensures OrderFree(CountCalls(), bodies) <==> !Tangled(CountCalls(), bodies)
  {
    hide Leads, Calls, FnCost, Costs, CountCalls;
    var m := CountCalls();
    if !Tangled(m, bodies) {
      OrderDoesNotMatter(m, bodies);
    } else {
      var a, b :| a != b && Reaches(m, bodies, a, b) && Reaches(m, bodies, b, a);
      var n: nat :| Leads(m, bodies, a, b, n);
      var x, y := CircleHasCall(bodies, a, b, n);
      CircleShows(bodies, x, y);
      assert [x][0] == [y, x][1];
    }
  }

  // ----- a file on which it shows -----

  function Calling(name: string): Option<Block> {
    Some(Block([], Some(Expr.Call(name, []))))
  }

  function Looping(name: string): Option<Block> {
    Some(Block([Stmt.For(Literal(Some(1)), None, Block([], Some(Expr.Call(name, []))))], None))
  }

  lemma CallCost(f: string -> nat, c: char)
    requires c != '.'
    ensures BlockCost(CountCalls(), f, Block([], Some(Expr.Call([c], [])))) == f([c]) + 1
  {
    var e := Expr.Call([c], []);
    assert BaseName([]) == "";
    assert [c][..0] == [];
    assert BaseName([c]) == [c];
    assert ExprsCost(CountCalls(), f, [], 0) == 0;
    assert StmtsCost(CountCalls(), f, [], 0) == 0;
    assert ExprCost(CountCalls(), f, e) == f([c]) + 1;
  }

  lemma CallNames(known: set<string>, c: char)
    requires c != '.' && [c] in known
    ensures Cost.BlockNames(CountCalls(), known, Block([], Some(Expr.Call([c], [])))) == [[c]]
  {
    assert BaseName([]) == "";
    assert [c][..0] == [];
    assert BaseName([c]) == [c];
    assert ExprsNames(CountCalls(), known, []) == [] && StmtsNames(CountCalls(), known, []) == [];
    assert ExprNames(CountCalls(), known, Expr.Call([c], [])) == [[c]];
  }

  /** A function that only calls another costs one more than the other. */
  lemma CallStep(bodies: Bodies, memo: map<string, nat>, progress: seq<string>, name: string, c: char)
    requires c != '.' && name in bodies && bodies[name] == Calling([c]) && name !in memo && name !in progress
    ensures FnCost(CountCalls(), bodies, memo, progress, name) == FnCost(CountCalls(), bodies, memo, progress + [name], [c]) + 1
  {
    hide BlockCost, CountCalls;
    CallCost(Callee(CountCalls(), bodies, memo, progress + [name]), c);
  }

  lemma Guarded(bodies: Bodies, memo: map<string, nat>, progress: seq<string>, name: string)
    requires name !in memo && name in progress
    ensures FnCost(CountCalls(), bodies, memo, progress, name) == 0
  {}

  lemma Recalled(bodies: Bodies, memo: map<string, nat>, progress: seq<string>, name: string)
    requires name in bodies && name in memo
    ensures FnCost(CountCalls(), bodies, memo, progress, name) == memo[name]
  {}

  /** Two functions that call each other. */
  ghost predicate HasCircle(bodies: Bodies) {
    "f" in bodies && bodies["f"] == Calling("g") && "g" in bodies && bodies["g"] == Calling("f")
  }

  lemma AroundOnce(bodies: Bodies, memo: map<string, nat>, a: string, b: char)
    requires HasCircle(bodies) && "f" !in memo && "g" !in memo
    requires (a == "f" && b == 'g') || (a == "g" && b == 'f')
    ensures FnCost(CountCalls(), bodies, memo, [], a) == 2
  {
    hide FnCost, Calling, CountCalls;
    CallStep(bodies, memo, [], a, b);
    assert [] + [a] == [a];
    CallStep(bodies, memo, [a], [b], a[0]);
    assert [a[0]] == a && [a] + [[b]] == [a, [b]];
    Guarded(bodies, memo, [a, [b]], a);
  }

  lemma AfterTheOther(bodies: Bodies, memo: map<string, nat>)
    requires HasCircle(bodies) && "f" !in memo && "g" in memo
    ensures FnCost(CountCalls(), bodies, memo, [], "f") == memo["g"] + 1
  {
    hide FnCost, Calling, CountCalls;
    CallStep(bodies, memo, [], "f", 'g');
    Recalled(bodies, memo, [] + ["f"], "g");
  }

  /** The calls analysed for a function in front of the circle whose first loop calls `g`. */
  lemma LooksAhead(bodies: Bodies)
    requires "a" in bodies && bodies["a"] == Looping("g") && "g" in bodies
    ensures Sequence(CountCalls(), bodies, ["a"]) == ["a", "g"]
  {
    hide CountCalls, Cost.BlockNames;
    var m := CountCalls();
    assert ["a"][..0] == [] && Sequence(m, bodies, []) == [];
    CallNames(bodies.Keys, 'g');
    assert FirstLoop(bodies["a"].value.stmts) == Some(bodies["a"].value.stmts[0]);
    assert LoopNames(m, bodies.Keys, bodies["a"]) == ["g"];
  }

  /**
   * Two files whose functions are gone through in the order of their names. In the first, `f` and `g` call each other; in
   * the second there is also `a`, which nothing calls and whose first loop calls `g`. It changes what `f` is reported at.
   */
  lemma UnrelatedFunctionShows()
    ensures var circle := map["f" := Calling("g"), "g" := Calling("f")];
      var file := circle["a" := Looping("g")];
      && Reported(CountCalls(), circle, ["f", "g"])[0].cost == 2
      && Reported(CountCalls(), file, ["a", "f", "g"])[1].cost == 3
  {
    hide FnCost, Calling, Looping, CountCalls, LoopCost, LoopNames;
    var m := CountCalls();
    var circle := map["f" := Calling("g"), "g" := Calling("f")];
    var file := circle["a" := Looping("g")];
    var none: map<string, nat> := map[];
    assert ["f", "g"][..1] == ["f"] && ["f"][..0] == [];
    assert ["a", "f", "g"][..2] == ["a", "f"] && ["a", "f"][..1] == ["a"];
    AroundOnce(circle, none, "f", 'g');
    assert Memo(m, circle, none, Sequence(m, circle, [])) == none;
    assert Reported(m, circle, ["f"])[0].cost == 2;
    LooksAhead(file);
    var first := Memo(m, file, none, ["a"]);
    AfterOne(m, file, none, [], "a");
    assert first == none["a" := FnCost(m, file, none, [], "a")];
    AroundOnce(file, first, "g", 'f');
    var memo := Memo(m, file, none, ["a", "g"]);
    MemoCat(m, file, none, ["a"], ["g"]);
    AfterOne(m, file, first, [], "g");
    assert ["a"] + ["g"] == ["a", "g"];
    assert memo == first["g" := 2];
    AfterTheOther(file, memo);
    assert Reported(m, file, ["a", "f"])[1].cost == 3;
  }

  // ----- a target that hides a circle -----

  function Times(a: nat, n: nat): nat {
    a * n
  }

  function Larger(a: nat, b: nat): nat {
    if a < b then b else a
  }

  /** A target that charges one for each call, but of a branch only the dearer side, and of a loop every turn. */
  function CountTurns(): Model<nat> {
    Model(0, Sum, Times, Larger, 0, 0, 0, 1, _ => 0, _ => None, 0, 0, 0)
  }

  function NeverLooping(name: string): Option<Block> {
    Some(Block([Stmt.For(Literal(Some(0)), None, Block([], Some(Expr.Call(name, []))))], None))
  }

  function HiddenCircle(): Bodies {
    map["f" := NeverLooping("g"), "g" := Calling("f")]
  }

  lemma NeverLoopingIsFree(f: string -> nat)
    ensures BlockCost(CountTurns(), f, NeverLooping("g").value) == 0
  {
    var loop := NeverLooping("g").value.stmts[0];
    assert NeverLooping("g").value.stmts[1..] == [];
    assert StmtCost(CountTurns(), f, loop) == 0;
  }

  lemma CallOfF(f: string -> nat)
    ensures BlockCost(CountTurns(), f, Calling("f").value) == f("f") + 1
  {
    var e := Expr.Call("f", []);
    assert BaseName([]) == "";
    assert "f"[..0] == [];
    assert BaseName("f") == "f";
    assert ExprsCost(CountTurns(), f, [], 0) == 0;
    assert StmtsCost(CountTurns(), f, [], 0) == 0;
    assert ExprCost(CountTurns(), f, e) == f("f") + 1;
  }

  function HiddenCost(name: string): nat {
    if name == "g" then 1 else 0
  }

  lemma FIsFree(memo: map<string, nat>, progress: seq<string>)
    requires Correct(memo, HiddenCost)
    ensures FnCost(CountTurns(), HiddenCircle(), memo, progress, "f") == 0
  {
    hide BlockCost;
    NeverLoopingIsFree(Callee(CountTurns(), HiddenCircle(), memo, progress + ["f"]));
    assert "f" in memo ==> memo["f"] == HiddenCost("f");
  }

  lemma HiddenFromOutside(memo: map<string, nat>, name: string)
    requires Correct(memo, HiddenCost)
    ensures FnCost(CountTurns(), HiddenCircle(), memo, [], name) == HiddenCost(name)
  {
    hide BlockCost;
    FIsFree(memo, []);
    if name == "g" && name !in memo {
      FIsFree(memo, [] + ["g"]);
      CallOfF(Callee(CountTurns(), HiddenCircle(), memo, [] + ["g"]));
    }
  }

  lemma {:induction false} HiddenMemo(names: seq<string>)
    ensures Correct(Memo(CountTurns(), HiddenCircle(), map[], names), HiddenCost)
    decreases |names|
  {
    hide FnCost, HiddenCircle, CountTurns, HiddenCost;
    if names != [] {
      HiddenMemo(names[..|names| - 1]);
      HiddenFromOutside(Memo(CountTurns(), HiddenCircle(), map[], names[..|names| - 1]), names[|names| - 1]);
    }
  }

  /** For such a target a circle may stay hidden: here in a loop of no turns. */
  lemma CircleMayHide()
    ensures Tangled(CountTurns(), HiddenCircle()) && OrderFree(CountTurns(), HiddenCircle())
  {
    var m, bodies := CountTurns(), HiddenCircle();
    assert BaseName([]) == "" && "f"[..0] == [] && "g"[..0] == [];
    assert BaseName("f") == "f" && BaseName("g") == "g";
    assert ExprCalls(m, Expr.Call("g", []), "g") && ExprCalls(m, Expr.Call("f", []), "f");
    assert BlockCalls(m, Block([], Some(Expr.Call("g", []))), "g");
    assert StmtCalls(m, bodies["f"].value.stmts[0], "g");
    assert Calls(m, bodies, "f", "g") && Calls(m, bodies, "g", "f");
    CallReaches(m, bodies, "f", "g");
    CallReaches(m, bodies, "g", "f");
    hide FnCost, HiddenCircle, CountTurns, HiddenCost, Memo, Costs;
    forall names, others, j, k | 0 <= j < |names| && 0 <= k < |others| && names[j] == others[k]
      ensures Costs(m, bodies, names)[j] == Costs(m, bodies, others)[k]
    {
      CostsAre(m, bodies, names, j);
      CostsAre(m, bodies, others, k);
      HiddenMemo(names[..j]);
      HiddenMemo(others[..k]);
      HiddenFromOutside(Memo(m, bodies, map[], names[..j]), names[j]);
      HiddenFromOutside(Memo(m, bodies, map[], others[..k]), others[k]);
    }
  }
}
