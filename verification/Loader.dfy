/** The recursive verifier's witness loader: bounded loops that copy private words into memory. */
module Loader {
  import opened Words
  import opened Machine
  import opened Control
  import opened Legalize
  import opened Storing

  const LOAD_WORDS := "trisha_recursive_load_words"
  const LOAD_FIVE := "trisha_recursive_load_five"
  const LOAD_TAIL := "trisha_recursive_load_tail"

  function WordsBlock(): seq<Instr> {
    [Call(LOAD_FIVE), Call(LOAD_TAIL), Return]
  }

  function FiveTest(): seq<Instr> {
    [Instr.Push(5), Instr.Dup(2), Lt]
  }

  /** Turns five fresh words and the address over, so that the address is on top and the first word read lies below it. */
  function FiveTurn(): seq<Instr> {
    [Instr.Divine(5), Instr.Swap(5), Instr.Swap(1), Instr.Swap(4)] + [Instr.Swap(1), Instr.Swap(2), Instr.Swap(3), Instr.Swap(2)]
  }

  /** Lowers the count below the address. */
  function CountDown(n: nat): seq<Instr> {
    [Instr.Swap(1), Instr.Push(Lit(0 - n)), Add, Instr.Swap(1)]
  }

  function FiveBlock(): seq<Instr> {
    FiveTest() + [Skiz, Return] + (FiveTurn() + [Instr.WriteMem(5)] + CountDown(5) + [Recurse])
  }

  function TailTest(): seq<Instr> {
    [Instr.Dup(1), Instr.Push(0), Eq]
  }

  function TailBlock(): seq<Instr> {
    TailTest() + [Skiz, Return] + ([Instr.Divine(1), Instr.Swap(1), Instr.WriteMem(1)] + CountDown(1) + [Recurse])
  }

  ghost predicate HasLoader(env: Env) {
    LOAD_WORDS in env && env[LOAD_WORDS] == WordsBlock()
    && LOAD_FIVE in env && env[LOAD_FIVE] == FiveBlock()
    && LOAD_TAIL in env && env[LOAD_TAIL] == TailBlock()
  }

  /** The loader's state: the address on top, the count of words still to come below it. */
  function At2(s: State, addr: Word, n: Word, rest: seq<Word>): State {
    WithStack(s, [addr] + ([n] + rest))
  }

  /** The state after `k` words have been copied from the private input to memory. */
  function Copied(s: State, addr: Word, n: Word, rest: seq<Word>, k: nat): State
    requires k <= n && k <= |s.secret|
  {
    s.(stack := [At(addr, k)] + ([n - k] + rest), secret := s.secret[k..], ram := WriteUp(s.ram, addr, s.secret[..k]))
  }

  lemma CountsDown(s: State, addr: Word, n: Word, k: nat, rest: seq<Word>)
    requires k <= n
    ensures Exec(CountDown(k), At2(s, addr, n, rest)) == Some(At2(s, addr, n - k, rest))
  {
    hide Basic, Exec;
    var s0 := At2(s, addr, n, rest);
    OnSwap(s0, addr, n, rest);
    var s1 := WithStack(s, [n] + ([addr] + rest));
    OnPush(s1, Lit(0 - k));
    var s2 := WithStack(s, [Lit(0 - k)] + ([n] + ([addr] + rest)));
    OnBinary(Add, s2, Lit(0 - k), n, [addr] + rest, n - k);
    var s3 := WithStack(s, [n - k] + ([addr] + rest));
    OnSwap(s3, n - k, addr, rest);
    Chain4(Instr.Swap(1), Instr.Push(Lit(0 - k)), Add, Instr.Swap(1), s0, s1, s2, s3, At2(s, addr, n - k, rest));
  }

  // ----- one word at a time -----

  lemma TailTests(s: State, addr: Word, n: Word, rest: seq<Word>)
    ensures Exec(TailTest(), At2(s, addr, n, rest)) == Some(WithStack(s, [Bit(n == 0)] + At2(s, addr, n, rest).stack))
  {
    hide Basic, Exec;
    var s0 := At2(s, addr, n, rest);
    OnDup(s0, 1);
    var s1 := WithStack(s, [n] + s0.stack);
    OnPush(s1, 0);
    var s2 := WithStack(s, [0] + s1.stack);
    OnBinary(Eq, s2, 0, n, s0.stack, Bit(n == 0));
    Chain3(Instr.Dup(1), Instr.Push(0), Eq, s0, s1, s2, WithStack(s, [Bit(n == 0)] + s0.stack));
  }

  lemma TailCopies(s: State, addr: Word, n: Word, rest: seq<Word>)
    requires n > 0 && s.secret != []
    ensures Exec([Instr.Divine(1), Instr.Swap(1), Instr.WriteMem(1)] + CountDown(1), At2(s, addr, n, rest))
         == Some(Copied(s, addr, n, rest, 1))
  {
    hide Basic, Exec, WriteUp, CountDown;
    var x := s.secret[0];
    var s0 := At2(s, addr, n, rest);
    OnDivine(s0);
    var s1 := s0.(stack := [x] + ([addr] + ([n] + rest)), secret := s.secret[1..]);
    OnSwap(s1, x, addr, [n] + rest);
    var s2 := s1.(stack := [addr] + ([x] + ([n] + rest)));
    OnWriteMem(s2, addr, [x], [n] + rest);
    var s3 := s2.(stack := [At(addr, 1)] + ([n] + rest), ram := WriteUp(s.ram, addr, [x]));
    Chain3(Instr.Divine(1), Instr.Swap(1), Instr.WriteMem(1), s0, s1, s2, s3);
    CountsDown(s3, At(addr, 1), n, 1, rest);
    assert s.secret[..1] == [x];
    ChainCat([Instr.Divine(1), Instr.Swap(1), Instr.WriteMem(1)], CountDown(1), s0, s3, At2(s3, At(addr, 1), n - 1, rest));
  }

  /** Copying k words and then m more is copying k + m. */
  lemma CopiedTwice(s: State, addr: Word, n: Word, rest: seq<Word>, k: nat, m: nat)
    requires k + m <= n && k + m <= |s.secret| && k < P && k + m <= P
    ensures Copied(Copied(s, addr, n, rest, k), At(addr, k), n - k, rest, m) == Copied(s, addr, n, rest, k + m)
  {
    hide WriteUp;
    AtAt(addr, k, m);
    var first, second := s.secret[..k], s.secret[k..][..m];
    assert first + second == s.secret[..k + m];
    assert s.secret[k..][m..] == s.secret[k + m..];
    WriteUpCat(s.ram, addr, first, At(addr, k), second);
  }

  lemma CopiedNone(s: State, addr: Word, n: Word, rest: seq<Word>)
    requires s.stack == [addr] + ([n] + rest)
    ensures Copied(s, addr, n, rest, 0) == s
  {
    assert s.secret[..0] == [] && s.secret[0..] == s.secret;
  }

  lemma WholePieces()
    ensures Whole(TailTest()) && Whole(FiveTest())
    ensures Whole([Instr.Divine(1), Instr.Swap(1), Instr.WriteMem(1)] + CountDown(1))
    ensures Whole(FiveTurn() + [Instr.WriteMem(5)] + CountDown(5))
  {}

  /** A test, `skiz; return`, and a body that recurses: returns when the test says one, else takes a turn. */
  lemma TestedTurn(env: Env, test: seq<Instr>, body: seq<Instr>, s: State, stop: bool, t: State)
    requires Whole(test) && Whole(body) && Exec(test, s) == Some(WithStack(s, [Bit(stop)] + s.stack))
    requires !stop ==> Exec(body, s) == Some(t)
    ensures Runs(env, test + [Skiz, Return] + (body + [Recurse]), s, if stop then Returned(s) else Recursed(t))
  {
    hide Basic, Exec, Run, Runs;
    var s1 := WithStack(s, [Bit(stop)] + s.stack);
    var after := body + [Recurse];
    var o := if stop then Returned(s) else Recursed(t);
    assert PopTop(s1) == s;
    if stop {
      RunsLast(env, Return, s);
      RunsStop(env, [Return], after, s, o);
      RunsThrough(env, [Return] + after, s1, o);
      assert [Skiz] + ([Return] + after) == [Skiz, Return] + after;
    } else {
      RunsExec(env, body, s, t);
      RunsLast(env, Recurse, t);
      RunsCat(env, body, [Recurse], s, t, o);
      RunsOver(env, Return, after, s1, o);
    }
    RunsExec(env, test, s, s1);
    RunsCat(env, test, [Skiz, Return] + after, s, s1, o);
    Assoc(test, [Skiz, Return], after);
  }

  lemma {:induction false} LoadsTail(env: Env, s: State, addr: Word, n: Word, rest: seq<Word>)
    requires HasLoader(env) && n <= |s.secret|
    ensures Invokes(env, LOAD_TAIL, At2(s, addr, n, rest), Done(Copied(s, addr, n, rest, n)))
    decreases n
  {
    hide Basic, Exec, Run, Runs, Invokes, TailTest, CountDown, Copied;
    var s0 := At2(s, addr, n, rest);
    var body := [Instr.Divine(1), Instr.Swap(1), Instr.WriteMem(1)] + CountDown(1);
    TailTests(s, addr, n, rest);
    WholePieces();
    if n == 0 {
      TestedTurn(env, TailTest(), body, s0, true, s0);
      InvokesReturn(env, LOAD_TAIL, s0, s0);
      CopiedNone(s0, addr, n, rest);
      SameCopy(s, s0, addr, n, rest, 0);
    } else {
      var s1 := Copied(s, addr, n, rest, 1);
      TailCopies(s, addr, n, rest);
      TestedTurn(env, TailTest(), body, s0, false, s1);
      CopiedShape(s, addr, n, rest, 1);
      LoadsTail(env, s1, At(addr, 1), n - 1, rest);
      CopiedTwice(s, addr, n, rest, 1, n - 1);
      InvokesAgain(env, LOAD_TAIL, s0, s1, Done(Copied(s, addr, n, rest, n)));
    }
  }

  lemma CopiedShape(s: State, addr: Word, n: Word, rest: seq<Word>, k: nat)
    requires k <= n && k <= |s.secret|
    ensures var t := Copied(s, addr, n, rest, k);
      t.secret == s.secret[k..] && At2(t, At(addr, k), n - k, rest) == t
  {}

  lemma SameCopy(s: State, t: State, addr: Word, n: Word, rest: seq<Word>, k: nat)
    requires k <= n && k <= |s.secret| && t == WithStack(s, t.stack)
    ensures Copied(s, addr, n, rest, k) == Copied(t, addr, n, rest, k)
  {}

  // ----- five words at a time -----

  lemma FiveTests(s: State, addr: Word, n: Word, rest: seq<Word>)
    ensures Exec(FiveTest(), At2(s, addr, n, rest))
         == if IsU32(n) then Some(WithStack(s, [Bit(n < 5)] + At2(s, addr, n, rest).stack)) else None
  {
    hide Basic, Exec;
    var s0 := At2(s, addr, n, rest);
    OnPush(s0, 5);
    var s1 := WithStack(s, [5] + s0.stack);
    OnDup(s1, 2);
    var s2 := WithStack(s, [n] + ([5] + s0.stack));
    Chain2(Instr.Push(5), Instr.Dup(2), s0, s1, s2);
    ExecSnoc([Instr.Push(5), Instr.Dup(2)], Lt, s0);
    assert [Instr.Push(5), Instr.Dup(2)] + [Lt] == FiveTest();
    if IsU32(n) {
      OnBinary(Lt, s2, n, 5, s0.stack, Bit(n < 5));
    } else {
      WideFails(s2, n, s0.stack);
    }
  }

  lemma WideFails(s: State, n: Word, rest: seq<Word>)
    requires s.stack == [n] + ([5] + rest) && !IsU32(n)
    ensures Basic(Lt, s) == None
  {}

  lemma DivinesFive(s: State)
    requires |s.secret| >= 5
    ensures var x := s.secret;
      Basic(Instr.Divine(5), s) == Some(s.(stack := [x[4], x[3], x[2], x[1], x[0]] + s.stack, secret := x[5..]))
  {
    assert Rev(s.secret[..5]) == [s.secret[4], s.secret[3], s.secret[2], s.secret[1], s.secret[0]];
  }

  lemma Turns(s: State, a: Word, x0: Word, x1: Word, x2: Word, x3: Word, x4: Word, rest: seq<Word>)
    requires s.stack == [x4, x3, x2, x1, x0, a] + rest
    ensures Exec([Instr.Swap(5), Instr.Swap(1), Instr.Swap(4)], s) == Some(WithStack(s, [x0, a, x2, x1, x3, x4] + rest))
  {
    hide Basic, Exec, SwapTop;
    SixSwaps(x4, x3, x2, x1, x0, a, rest);
    SixSwaps(a, x3, x2, x1, x0, x4, rest);
    SixSwaps(x3, a, x2, x1, x0, x4, rest);
    var s1 := WithStack(s, [a, x3, x2, x1, x0, x4] + rest);
    OnSwapTo(s, 5, s1.stack);
    var s2 := WithStack(s, [x3, a, x2, x1, x0, x4] + rest);
    OnSwapTo(s1, 1, s2.stack);
    var s3 := WithStack(s, [x0, a, x2, x1, x3, x4] + rest);
    OnSwapTo(s2, 4, s3.stack);
    Chain3(Instr.Swap(5), Instr.Swap(1), Instr.Swap(4), s, s1, s2, s3);
  }

  lemma SixSwaps<T>(a: T, b: T, c: T, d: T, e: T, f: T, rest: seq<T>)
    ensures SwapTop([a, b, c, d, e, f] + rest, 1) == [b, a, c, d, e, f] + rest
    ensures SwapTop([a, b, c, d, e, f] + rest, 2) == [c, b, a, d, e, f] + rest
    ensures SwapTop([a, b, c, d, e, f] + rest, 3) == [d, b, c, a, e, f] + rest
    ensures SwapTop([a, b, c, d, e, f] + rest, 4) == [e, b, c, d, a, f] + rest
    ensures SwapTop([a, b, c, d, e, f] + rest, 5) == [f, b, c, d, e, a] + rest
  {}

  lemma TurnsMore(s: State, a: Word, x0: Word, x1: Word, x2: Word, x3: Word, x4: Word, rest: seq<Word>)
    requires s.stack == [x0, a, x2, x1, x3, x4] + rest
    ensures Exec([Instr.Swap(1), Instr.Swap(2), Instr.Swap(3), Instr.Swap(2)], s) == Some(WithStack(s, [a, x0, x1, x2, x3, x4] + rest))
  {
    hide Basic, Exec, SwapTop;
    SixSwaps(x0, a, x2, x1, x3, x4, rest);
    SixSwaps(a, x0, x2, x1, x3, x4, rest);
    SixSwaps(x2, x0, a, x1, x3, x4, rest);
    SixSwaps(x1, x0, a, x2, x3, x4, rest);
    var s1 := WithStack(s, [a, x0, x2, x1, x3, x4] + rest);
    OnSwapTo(s, 1, s1.stack);
    var s2 := WithStack(s, [x2, x0, a, x1, x3, x4] + rest);
    OnSwapTo(s1, 2, s2.stack);
    var s3 := WithStack(s, [x1, x0, a, x2, x3, x4] + rest);
    OnSwapTo(s2, 3, s3.stack);
    var s4 := WithStack(s, [a, x0, x1, x2, x3, x4] + rest);
    OnSwapTo(s3, 2, s4.stack);
    Chain4(Instr.Swap(1), Instr.Swap(2), Instr.Swap(3), Instr.Swap(2), s, s1, s2, s3, s4);
  }

  lemma FiveTurns(s: State, addr: Word, rest: seq<Word>)
    requires s.stack == [addr] + rest && |s.secret| >= 5
    ensures Exec(FiveTurn(), s) == Some(s.(stack := [addr] + (s.secret[..5] + rest), secret := s.secret[5..]))
  {
    hide Basic, Exec;
    var x := s.secret;
    DivinesFive(s);
    Exec1(Instr.Divine(5), s);
    var s1 := s.(stack := [x[4], x[3], x[2], x[1], x[0], addr] + rest, secret := x[5..]);
    assert [x[4], x[3], x[2], x[1], x[0]] + ([addr] + rest) == s1.stack;
    Turns(s1, addr, x[0], x[1], x[2], x[3], x[4], rest);
    var s2 := WithStack(s1, [x[0], addr, x[2], x[1], x[3], x[4]] + rest);
    ChainCat([Instr.Divine(5)], [Instr.Swap(5), Instr.Swap(1), Instr.Swap(4)], s, s1, s2);
    TurnsMore(s2, addr, x[0], x[1], x[2], x[3], x[4], rest);
    var s3 := WithStack(s1, [addr, x[0], x[1], x[2], x[3], x[4]] + rest);
    assert [Instr.Divine(5)] + [Instr.Swap(5), Instr.Swap(1), Instr.Swap(4)] == [Instr.Divine(5), Instr.Swap(5), Instr.Swap(1), Instr.Swap(4)];
    ChainCat([Instr.Divine(5), Instr.Swap(5), Instr.Swap(1), Instr.Swap(4)], [Instr.Swap(1), Instr.Swap(2), Instr.Swap(3), Instr.Swap(2)], s, s2, s3);
    assert [addr] + (x[..5] + rest) == s3.stack;
  }

  lemma FiveCopies(s: State, addr: Word, n: Word, rest: seq<Word>)
    requires n >= 5 && |s.secret| >= 5
    ensures Exec(FiveTurn() + [Instr.WriteMem(5)] + CountDown(5), At2(s, addr, n, rest)) == Some(Copied(s, addr, n, rest, 5))
  {
    hide Basic, Exec, WriteUp, CountDown, FiveTurn;
    var s0 := At2(s, addr, n, rest);
    var x := s.secret[..5];
    FiveTurns(s0, addr, [n] + rest);
    var s1 := s0.(stack := [addr] + (x + ([n] + rest)), secret := s.secret[5..]);
    OnWriteMem(s1, addr, x, [n] + rest);
    Exec1(Instr.WriteMem(5), s1);
    var s2 := s1.(stack := [At(addr, 5)] + ([n] + rest), ram := WriteUp(s.ram, addr, x));
    ChainCat(FiveTurn(), [Instr.WriteMem(5)], s0, s1, s2);
    CountsDown(s2, At(addr, 5), n, 5, rest);
    ChainCat(FiveTurn() + [Instr.WriteMem(5)], CountDown(5), s0, s2, At2(s2, At(addr, 5), n - 5, rest));
  }

  lemma {:induction false} LoadsFives(env: Env, s: State, addr: Word, n: Word, rest: seq<Word>) returns (k: nat)
    requires HasLoader(env) && n <= |s.secret| && IsU32(n)
    ensures k <= n < k + 5
    ensures Invokes(env, LOAD_FIVE, At2(s, addr, n, rest), Done(Copied(s, addr, n, rest, k)))
    decreases n
  {
    hide Basic, Exec, Run, Runs, Invokes, FiveTest, FiveTurn, CountDown, Copied;
    var s0 := At2(s, addr, n, rest);
    var body := FiveTurn() + [Instr.WriteMem(5)] + CountDown(5);
    FiveTests(s, addr, n, rest);
    WholePieces();
    if n < 5 {
      k := 0;
      TestedTurn(env, FiveTest(), body, s0, true, s0);
      InvokesReturn(env, LOAD_FIVE, s0, s0);
      CopiedNone(s0, addr, n, rest);
      SameCopy(s, s0, addr, n, rest, 0);
    } else {
      var s1 := Copied(s, addr, n, rest, 5);
      FiveCopies(s, addr, n, rest);
      TestedTurn(env, FiveTest(), body, s0, false, s1);
      CopiedShape(s, addr, n, rest, 5);
      var m := LoadsFives(env, s1, At(addr, 5), n - 5, rest);
      k := m + 5;
      CopiedTwice(s, addr, n, rest, 5, m);
      InvokesAgain(env, LOAD_FIVE, s0, s1, Done(Copied(s, addr, n, rest, k)));
    }
  }

  /** A count of 2^32 or more: the comparison of the first loop refuses it, before anything is read or stored. */
  lemma WideCountStops(env: Env, s: State, addr: Word, n: Word, rest: seq<Word>) returns (t: State)
    requires HasLoader(env) && !IsU32(n)
    ensures t == WithStack(s, t.stack) && Invokes(env, LOAD_WORDS, At2(s, addr, n, rest), Crashed(t, Lt))
  {
    hide Basic, Exec, Run, Runs, Invokes, FiveTurn, CountDown;
    var s0 := At2(s, addr, n, rest);
    OnPush(s0, 5);
    var s1 := WithStack(s, [5] + s0.stack);
    OnDup(s1, 2);
    t := WithStack(s, [n] + ([5] + s0.stack));
    Chain2(Instr.Push(5), Instr.Dup(2), s0, s1, t);
    var front, after := [Instr.Push(5), Instr.Dup(2)], [Skiz, Return] + (FiveTurn() + [Instr.WriteMem(5)] + CountDown(5) + [Recurse]);
    WideFails(t, n, s0.stack);
    RunsCrash(env, Lt, after, t);
    RunsExec(env, front, s0, t);
    RunsCat(env, front, [Lt] + after, s0, t, Crashed(t, Lt));
    assert front + ([Lt] + after) == FiveBlock();
    InvokesStop(env, LOAD_FIVE, s0, Crashed(t, Lt));
    RunsCall(env, LOAD_FIVE, s0, Crashed(t, Lt));
    RunsStop(env, [Call(LOAD_FIVE)], [Call(LOAD_TAIL), Return], s0, Crashed(t, Lt));
    assert [Call(LOAD_FIVE)] + [Call(LOAD_TAIL), Return] == WordsBlock();
    InvokesStop(env, LOAD_WORDS, s0, Crashed(t, Lt));
  }

  /**
   * The loader consumes exactly n private words and stores them in order from the address upwards, touching
   * no other cell; it leaves the end address and a count of zero. A count of 2^32 or more stops it at its first
   * comparison, with nothing read and nothing stored.
   */
  lemma LoadsWords(env: Env, s: State, addr: Word, n: Word, rest: seq<Word>) returns (t: State)
    requires HasLoader(env) && (IsU32(n) ==> n <= |s.secret|)
    ensures if IsU32(n)
      then Invokes(env, LOAD_WORDS, At2(s, addr, n, rest), Done(Copied(s, addr, n, rest, n)))
      else t == WithStack(s, t.stack) && Invokes(env, LOAD_WORDS, At2(s, addr, n, rest), Crashed(t, Lt))
  {
    hide Run, Runs, Invokes, FiveBlock, TailBlock, Copied;
    t := s;
    if !IsU32(n) {
      t := WideCountStops(env, s, addr, n, rest);
      return;
    }
    var s0, end := At2(s, addr, n, rest), Copied(s, addr, n, rest, n);
    var k := LoadsFives(env, s, addr, n, rest);
    var s1 := Copied(s, addr, n, rest, k);
    CopiedShape(s, addr, n, rest, k);
    LoadsTail(env, s1, At(addr, k), n - k, rest);
    CopiedTwice(s, addr, n, rest, k, n - k);
    RunsCall(env, LOAD_FIVE, s0, Done(s1));
    RunsCall(env, LOAD_TAIL, s1, Done(end));
    RunsCat(env, [Call(LOAD_FIVE)], [Call(LOAD_TAIL)], s0, s1, Done(end));
    RunsLast(env, Return, end);
    RunsCat(env, [Call(LOAD_FIVE)] + [Call(LOAD_TAIL)], [Return], s0, end, Returned(end));
    assert [Call(LOAD_FIVE)] + [Call(LOAD_TAIL)] + [Return] == WordsBlock();
    InvokesReturn(env, LOAD_WORDS, s0, end);
  }

  // ----- the guard before it -----

  function NonZero(): seq<Instr> {
    [Instr.Divine(1), Instr.Dup(0), Instr.Push(0), Eq] + [Instr.Push(0), Eq, Assert]
  }

  function AtMost(max: nat): seq<Instr> {
    [Instr.Push(Lit(max + 1)), Instr.Dup(1), Lt, Assert]
  }

  /** Reads a length, accepts it only from one to `max`, and records it at `control`. */
  function LengthGuard(max: nat, control: nat): seq<Instr> {
    NonZero() + AtMost(max) + ([Instr.Dup(0)] + StoreCode(control))
  }

  lemma ReadsNonZero(s: State)
    requires s.secret != []
    ensures var n := s.secret[0];
      Exec(NonZero(), s) == if n != 0 then Some(s.(stack := [n] + s.stack, secret := s.secret[1..])) else None
  {
    hide Basic, Exec;
    var n := s.secret[0];
    OnDivine(s);
    var s1 := s.(stack := [n] + s.stack, secret := s.secret[1..]);
    OnDup(s1, 0);
    var s2 := WithStack(s1, [n] + s1.stack);
    OnPush(s2, 0);
    var s3 := WithStack(s1, [0] + ([n] + s1.stack));
    OnBinary(Eq, s3, 0, n, s1.stack, Bit(n == 0));
    var s4 := WithStack(s1, [Bit(n == 0)] + s1.stack);
    Chain4(Instr.Divine(1), Instr.Dup(0), Instr.Push(0), Eq, s, s1, s2, s3, s4);
    OnPush(s4, 0);
    var s5 := WithStack(s1, [0] + ([Bit(n == 0)] + s1.stack));
    OnBinary(Eq, s5, 0, Bit(n == 0), s1.stack, Bit(n != 0));
    var s6 := WithStack(s1, [Bit(n != 0)] + s1.stack);
    Chain2(Instr.Push(0), Eq, s4, s5, s6);
    OnAssert(s6, Bit(n != 0), s1.stack);
    ExecSnoc([Instr.Push(0), Eq], Assert, s4);
    assert [Instr.Push(0), Eq] + [Assert] == [Instr.Push(0), Eq, Assert];
    ExecCat([Instr.Divine(1), Instr.Dup(0), Instr.Push(0), Eq], [Instr.Push(0), Eq, Assert], s);
  }

  lemma ChecksAtMost(s: State, max: nat, n: Word, rest: seq<Word>)
    requires s.stack == [n] + rest && max + 1 < 0x1_0000_0000
    ensures Exec(AtMost(max), s) == if n <= max then Some(s) else None
  {
    hide Basic, Exec;
    OnPush(s, Lit(max + 1));
    var s1 := WithStack(s, [max + 1] + ([n] + rest));
    OnDup(s1, 1);
    var s2 := WithStack(s, [n] + ([max + 1] + ([n] + rest)));
    Chain2(Instr.Push(Lit(max + 1)), Instr.Dup(1), s, s1, s2);
    var front := [Instr.Push(Lit(max + 1)), Instr.Dup(1)];
    ExecSnoc(front, Lt, s);
    ExecSnoc(front + [Lt], Assert, s);
    assert front + [Lt] + [Assert] == AtMost(max);
    if IsU32(n) {
      OnBinary(Lt, s2, n, max + 1, [n] + rest, Bit(n < max + 1));
      var s3 := WithStack(s, [Bit(n < max + 1)] + ([n] + rest));
      OnAssert(s3, Bit(n < max + 1), [n] + rest);
    } else {
      LtNeedsU32(s2, n, max + 1, [n] + rest);
    }
  }

  lemma LtNeedsU32(s: State, x: Word, y: Word, rest: seq<Word>)
    requires s.stack == [x] + ([y] + rest) && !IsU32(x)
    ensures Basic(Lt, s) == None
  {}

  /** The guard lets exactly the lengths from one to `max` through. */
  lemma Guards(s: State, max: nat, control: nat)
    requires s.secret != [] && max + 1 < 0x1_0000_0000 && control < P
    ensures var n := s.secret[0];
      Exec(LengthGuard(max, control), s)
      == if 1 <= n <= max then Some(s.(stack := [n] + s.stack, secret := s.secret[1..], ram := WriteUp(s.ram, control, [n]))) else None
  {
    hide Basic, Exec, WriteUp, NonZero, AtMost, StoreCode;
    var n := s.secret[0];
    ReadsNonZero(s);
    var s1 := s.(stack := [n] + s.stack, secret := s.secret[1..]);
    ExecCat(NonZero(), AtMost(max), s);
    ExecCat(NonZero() + AtMost(max), [Instr.Dup(0)] + StoreCode(control), s);
    if n != 0 {
      ChecksAtMost(s1, max, n, s.stack);
      OnDup(s1, 0);
      Exec1(Instr.Dup(0), s1);
      var s2 := WithStack(s1, [n] + s1.stack);
      Stores(s2, control, n, s1.stack);
      ChainCat([Instr.Dup(0)], StoreCode(control), s1, s2, s1.(ram := WriteUp(s.ram, control, [n])));
    }
  }
}
