/** The borrowed block really is zero, and it is borrowed exactly when the memory has room for it. */
module Borrowing {
  import opened Words
  import opened Machine
  import opened Control
  import opened Legalize
  import opened Scanning

  // ----- counting the zeros of the preferred block -----

  function NumZeros(vals: seq<Word>): (n: nat)
    ensures n <= |vals|
  {
    if vals == [] then 0 else (if vals[0] == 0 then 1 else 0) + NumZeros(vals[1..])
  }

  lemma {:induction false} NumZerosCat(u: seq<Word>, v: seq<Word>)
    ensures NumZeros(u + v) == NumZeros(u) + NumZeros(v)
    decreases |u|
  {
    if u == [] {
      assert u + v == v;
    } else {
      assert (u + v)[1..] == u[1..] + v;
      NumZerosCat(u[1..], v);
    }
  }

  lemma {:induction false} AllZeros(vals: seq<Word>)
    ensures NumZeros(vals) == |vals| <==> forall i :: 0 <= i < |vals| ==> vals[i] == 0
    decreases |vals|
  {
    if vals != [] {
      AllZeros(vals[1..]);
      if forall i :: 0 <= i < |vals[1..]| ==> vals[1..][i] == 0 {
        forall i | 1 <= i < |vals|
          ensures vals[i] == 0
        {
          assert vals[1..][i - 1] == vals[i];
        }
      }
    }
  }

  lemma CellsSplit(ram: Ram, a: int, m: nat, n: nat)
    ensures Cells(ram, a, m + n) == Cells(ram, a, m) + Cells(ram, At(a, m), n)
  {
    forall i | m <= i < m + n
      ensures At(a, i) == At(At(a, m), i - m)
    {
      AtAt(a, m, i - m);
    }
  }

  lemma CountsZeroRun(ram: Ram, a: int, n: nat)
    ensures NumZeros(Cells(ram, a, n)) == n <==> ZeroRun(ram, a, n)
  {
    AllZeros(Cells(ram, a, n));
    forall i | 0 <= i < n
      ensures Cells(ram, a, n)[i] == Read(ram, At(a, i))
    {}
  }

  lemma CountStep(s: State, c: int, v: Word, rest: seq<Word>)
    requires s.stack == [Lit(c)] + ([v] + rest)
    ensures Exec([Instr.Swap(1), Instr.Push(0), Eq, Add], s) == Some(WithStack(s, [Lit(c + if v == 0 then 1 else 0)] + rest))
  {
    hide Basic;
    OnSwap(s, Lit(c), v, rest);
    var s1 := WithStack(s, [v] + ([Lit(c)] + rest));
    OnPush(s1, 0);
    var s2 := WithStack(s, [0] + s1.stack);
    OnBinary(Eq, s2, 0, v, [Lit(c)] + rest, Bit(v == 0));
    var s3 := WithStack(s, [Bit(v == 0)] + ([Lit(c)] + rest));
    OnBinary(Add, s3, Bit(v == 0), Lit(c), rest, Lit(c + if v == 0 then 1 else 0));
    Chain4(Instr.Swap(1), Instr.Push(0), Eq, Add, s, s1, s2, s3, WithStack(s, [Lit(c + if v == 0 then 1 else 0)] + rest));
  }

  lemma {:induction false} CountLoop(s: State, c: int, vals: seq<Word>, rest: seq<Word>)
    requires s.stack == [Lit(c)] + (vals + rest)
    ensures Exec(CountCode(|vals|), s) == Some(WithStack(s, [Lit(c + NumZeros(vals))] + rest))
    decreases |vals|
  {
    hide Basic;
    if vals == [] {
      assert vals + rest == rest;
    } else {
      assert vals + rest == [vals[0]] + (vals[1..] + rest);
      CountStep(s, c, vals[0], vals[1..] + rest);
      var c1 := c + if vals[0] == 0 then 1 else 0;
      var s1 := WithStack(s, [Lit(c1)] + (vals[1..] + rest));
      CountLoop(s1, c1, vals[1..], rest);
      ChainCat([Instr.Swap(1), Instr.Push(0), Eq, Add], CountCode(|vals| - 1), s, s1,
               WithStack(s, [Lit(c1 + NumZeros(vals[1..]))] + rest));
    }
  }

  lemma CheckStep(s: State, ptr: Word, c: int, n: nat, rest: seq<Word>)
    requires s.stack == [ptr] + ([Lit(c)] + rest) && 1 <= n <= 5
    ensures Exec(CheckChunk(n), s)
         == Some(WithStack(s, [At(ptr, 0 - n)] + ([Lit(c + NumZeros(Cells(s.ram, At(ptr, 1 - n), n)))] + rest)))
  {
    hide Basic, Exec, At, Cells, NumZeros, RepeatCode, Lit;
    var vals := Cells(s.ram, At(ptr, 1 - n), n);
    var p := At(ptr, 0 - n);
    OnReadMem(s, ptr, n, [Lit(c)] + rest);
    var s1 := WithStack(s, [p] + (vals + ([Lit(c)] + rest)));
    OnSwapUnder(s1, p, vals, Lit(c), rest);
    var s2 := WithStack(s, [Lit(c)] + (vals + ([p] + rest)));
    Chain2(Instr.ReadMem(n), Instr.Swap(n + 1), s, s1, s2);
    CountLoop(s2, c, vals, [p] + rest);
    var c2 := Lit(c + NumZeros(vals));
    var s3 := WithStack(s, [c2] + ([p] + rest));
    OnSwap(s3, c2, p, rest);
    ChainCat([Instr.ReadMem(n), Instr.Swap(n + 1)], CountCode(n), s, s2, s3);
    Exec1(Instr.Swap(1), s3);
    ChainCat([Instr.ReadMem(n), Instr.Swap(n + 1)] + CountCode(n), [Instr.Swap(1)], s, s3, WithStack(s, [p] + ([c2] + rest)));
  }

  /** The zeros among the n cells ending at `last` are those of its two parts. */
  lemma NumZerosDown(ram: Ram, last: Word, k: nat, n: nat)
    requires k <= n
    ensures NumZeros(Cells(ram, At(last, 1 - n), n))
         == NumZeros(Cells(ram, At(last, 1 - k), k)) + NumZeros(Cells(ram, At(At(last, 0 - k), 1 - (n - k)), n - k))
  {
    hide At, Cells, NumZeros;
    CellsSplit(ram, At(last, 1 - n), n - k, k);
    AtAt(last, 1 - n, n - k);
    AtAt(last, 0 - k, 1 - (n - k));
    NumZerosCat(Cells(ram, At(last, 1 - n), n - k), Cells(ram, At(last, 1 - k), k));
  }

  /** Checking n cells downwards from `ptr` counts the zeros among them. */
  lemma {:induction false} CheckLoop(s: State, ptr: Word, c: int, n: nat, rest: seq<Word>)
    requires s.stack == [ptr] + ([Lit(c)] + rest)
    ensures Exec(CheckCode(n), s)
         == Some(WithStack(s, [At(ptr, 0 - n)] + ([Lit(c + NumZeros(Cells(s.ram, At(ptr, 1 - n), n)))] + rest)))
    decreases n
  {
    hide Basic, Cells, CheckChunk;
    if n == 0 {
    } else {
      hide At, NumZeros, Lit;
      var k := Least(n, 5);
      var c1: int := c + NumZeros(Cells(s.ram, At(ptr, 1 - k as int), k));
      var p1 := At(ptr, 0 - k as int);
      var s1 := WithStack(s, [p1] + ([Lit(c1)] + rest));
      CheckStep(s, ptr, c, k, rest);
      CheckLoop(s1, p1, c1, n - k, rest);
      AtAt(ptr, 0 - k as int, 0 - (n - k));
      NumZerosDown(s.ram, ptr, k, n);
      ChainCat(CheckChunk(k), CheckCode(n - k), s, s1,
               WithStack(s, [At(ptr, 0 - n)] + ([Lit(c + NumZeros(Cells(s.ram, At(ptr, 1 - n), n)))] + rest)));
    }
  }

  // ----- borrowing -----

  lemma HeadPushes(cells: nat, s: State)
    ensures var last := Lit(PREFERRED + cells - 1);
      Exec(BorrowHead(cells), s)
      == Some(WithStack(s, [last] + ([0] + ([Lit(cells)] + ([last] + ([Lit(cells)] + s.stack))))))
  {
    hide Basic, Exec, Lit;
    var last := Lit(PREFERRED + cells - 1);
    OnPush(s, Lit(cells));
    var s1 := WithStack(s, [Lit(cells)] + s.stack);
    OnPush(s1, last);
    var s2 := WithStack(s, [last] + s1.stack);
    OnPush(s2, Lit(cells));
    var s3 := WithStack(s, [Lit(cells)] + s2.stack);
    OnPush(s3, 0);
    var s4 := WithStack(s, [0] + s3.stack);
    OnPush(s4, last);
    Chain5(Instr.Push(Lit(cells)), Instr.Push(last), Instr.Push(Lit(cells)), Instr.Push(0), Instr.Push(last),
           s, s1, s2, s3, s4, WithStack(s, [last] + s4.stack));
  }

  /** Leaves 1 if some cell of the preferred block is occupied. */
  lemma TestDecides(cells: nat, n: nat, s: State, x: Word, rest: seq<Word>)
    requires s.stack == [x] + ([Lit(n)] + rest) && n <= cells < P
    ensures Exec(BorrowTest(cells), s) == Some(WithStack(s, [Bit(n != cells)] + rest))
  {
    hide Basic, Exec;
    OnPop(s, x, [Lit(n)] + rest);
    var s1 := WithStack(s, [Lit(n)] + rest);
    OnPush(s1, Lit(cells));
    var s2 := WithStack(s, [Lit(cells)] + s1.stack);
    OnBinary(Eq, s2, Lit(cells), Lit(n), rest, Bit(n == cells));
    var s3 := WithStack(s, [Bit(n == cells)] + rest);
    OnPush(s3, 0);
    var s4 := WithStack(s, [0] + s3.stack);
    OnBinary(Eq, s4, 0, Bit(n == cells), rest, Bit(n != cells));
    Chain5(Instr.Pop(1), Instr.Push(Lit(cells)), Eq, Instr.Push(0), Eq, s, s1, s2, s3, s4, WithStack(s, [Bit(n != cells)] + rest));
  }

  /** From (required, last, length) to the base of the block ending at `last`. */
  lemma TailLeavesBase(cells: nat, base: nat, s: State, x: Word, y: Word, rest: seq<Word>)
    requires 1 <= cells && base + cells <= P && s.stack == [x] + ([base + cells - 1] + ([y] + rest))
    ensures Exec(BorrowTail(cells), s) == Some(WithStack(s, [base] + rest))
  {
    hide Basic, Exec;
    var last: Word := base + cells - 1;
    OnPop(s, x, [last] + ([y] + rest));
    var s1 := WithStack(s, [last] + ([y] + rest));
    OnSwap(s1, last, y, rest);
    var s2 := WithStack(s, [y] + ([last] + rest));
    OnPop(s2, y, [last] + rest);
    var s3 := WithStack(s, [last] + rest);
    OnPush(s3, Lit(1 - cells));
    var s4 := WithStack(s, [Lit(1 - cells)] + s3.stack);
    OnBinary(Add, s4, Lit(1 - cells), last, rest, base);
    Chain5(Instr.Pop(1), Instr.Swap(1), Instr.Pop(1), Instr.Push(Lit(1 - cells)), Add, s, s1, s2, s3, s4, WithStack(s, [base] + rest));
  }

  lemma SearchOpens(s: State, x: Word, y: Word, req: Word, rest: seq<Word>)
    requires s.stack == [x] + ([y] + ([req] + rest))
    ensures Exec([Instr.Pop(2), Instr.Push(0), Instr.Push(0)], s) == Some(Cursor(s, 0, 0, req, rest))
  {
    hide Exec;
    var s1 := WithStack(s, [req] + rest);
    assert s.stack[2..] == s1.stack;
    assert Basic(Instr.Pop(2), s) == Some(s1);
    hide Basic;
    OnPush(s1, 0);
    var s2 := WithStack(s, [0] + s1.stack);
    OnPush(s2, 0);
    Chain3(Instr.Pop(2), Instr.Push(0), Instr.Push(0), s, s1, s2, Cursor(s, 0, 0, req, rest));
  }

  /** The fallback search, from the state in which the preferred block was found occupied. */
  lemma SearchWorks(env: Env, search: string, s: State, x: Word, y: Word, req: Word, rest: seq<Word>)
    returns (a: nat, t: State)
    requires HasSearch(env, search) && req >= 1 && s.stack == [x] + ([y] + ([req] + rest))
    ensures HasRoom(s.ram, req) ==>
      Lowest(s.ram, a, req) && Invokes(env, search, s, Done(Cursor(s, req, a + req - 1, req, rest)))
    ensures !HasRoom(s.ram, req) ==>
      t.ram == s.ram && Invokes(env, search, s, Crashed(t, Assert))
  {
    hide Exec, Basic, Runs, Invokes, ScanCode;
    assert ScanInv(s.ram, req, 0, 0);
    a, t := ScanLoop(env, search, s, 0, 0, req, rest);
    var o := if HasRoom(s.ram, req) then Done(Cursor(s, req, a + req - 1, req, rest)) else Crashed(t, Assert);
    var opens := [Instr.Pop(2), Instr.Push(0), Instr.Push(0)];
    SearchOpens(s, x, y, req, rest);
    RunsExec(env, opens, s, Cursor(s, 0, 0, req, rest));
    RunsCall(env, ScanLabel(search), Cursor(s, 0, 0, req, rest), o);
    RunsCat(env, opens, [Call(ScanLabel(search))], s, Cursor(s, 0, 0, req, rest), o);
    var front := opens + [Call(ScanLabel(search))];
    assert SearchCode(search) == front + [Return];
    if HasRoom(s.ram, req) {
      RunsLast(env, Return, o.s);
      RunsCat(env, front, [Return], s, o.s, Returned(o.s));
      InvokesReturn(env, search, s, o.s);
    } else {
      RunsStop(env, front, [Return], s, o);
      InvokesStop(env, search, s, o);
    }
  }

  /** What the borrowing code leaves: the base of the preferred block if that is free, else of the lowest free block. */
  ghost predicate Borrowed(ram: Ram, base: nat, cells: nat) {
    RunAt(ram, base, cells) && if ZeroRun(ram, 0x8000_0000, cells) then base == 0x8000_0000 else Lowest(ram, base, cells)
  }

  lemma BorrowFront(cells: nat, s: State)
    requires 1 <= cells <= 0x1_0000_0000
    ensures var last := PREFERRED + cells - 1;
      Exec(BorrowHead(cells) + CheckCode(cells) + BorrowTest(cells), s)
      == Some(WithStack(s, [Bit(!ZeroRun(s.ram, PREFERRED, cells))] + ([cells] + ([last] + ([cells] + s.stack)))))
  {
    hide Basic, Exec, CheckCode, BorrowHead, BorrowTest, Cells, NumZeros, ZeroRun;
    var last: Word := PREFERRED + cells - 1;
    var rest := [cells] + ([last] + ([cells] + s.stack));
    HeadPushes(cells, s);
    var s1 := WithStack(s, [last] + ([0] + rest));
    var vals := Cells(s.ram, At(last, 1 - cells), cells);
    CheckLoop(s1, last, 0, cells, rest);
    var s2 := WithStack(s, [At(last, 0 - cells)] + ([Lit(NumZeros(vals))] + rest));
    ChainCat(BorrowHead(cells), CheckCode(cells), s, s1, s2);
    TestDecides(cells, NumZeros(vals), s2, At(last, 0 - cells), rest);
    assert At(last, 1 - cells) == PREFERRED;
    CountsZeroRun(s.ram, PREFERRED, cells);
    ChainCat(BorrowHead(cells) + CheckCode(cells), BorrowTest(cells), s, s2,
             WithStack(s, [Bit(!ZeroRun(s.ram, PREFERRED, cells))] + rest));
  }

  /** Skipping or making the call to the search, after the test. */
  lemma BorrowCalls(env: Env, cells: nat, search: string, s: State) returns (base: nat, t: State)
    requires 1 <= cells <= 0x1_0000_0000 && HasSearch(env, search)
    ensures var last := PREFERRED + cells - 1;
      var from := WithStack(s, [Bit(!ZeroRun(s.ram, PREFERRED, cells))] + ([cells] + ([last] + ([cells] + s.stack))));
      if HasRoom(s.ram, cells)
      then Borrowed(s.ram, base, cells)
        && Runs(env, [Skiz, Call(search)], from, Done(WithStack(s, [cells] + ([base + cells - 1] + ([cells] + s.stack)))))
      else t.ram == s.ram && Runs(env, [Skiz, Call(search)], from, Crashed(t, Assert))
  {
    hide Basic, Exec, Run, ZeroRun, Invokes, SearchCode, ScanCode;
    var last: Word := PREFERRED + cells - 1;
    var next := WithStack(s, [cells] + ([last] + ([cells] + s.stack)));
    base, t := PREFERRED, s;
    if ZeroRun(s.ram, PREFERRED, cells) {
      assert RunAt(s.ram, PREFERRED, cells);
      RunsNothing(env, next);
      RunsOver(env, Call(search), [], WithStack(s, [0] + next.stack), Done(next));
      assert [Skiz, Call(search)] + [] == [Skiz, Call(search)];
    } else {
      base, t := SearchWorks(env, search, next, cells, last, cells, s.stack);
      var o := if HasRoom(s.ram, cells) then Done(Cursor(s, cells, base + cells - 1, cells, s.stack)) else Crashed(t, Assert);
      RunsCall(env, search, next, o);
      RunsThrough(env, [Call(search)], WithStack(s, [1] + next.stack), o);
      assert [Skiz] + [Call(search)] == [Skiz, Call(search)];
    }
  }

  /**
   * Borrowing succeeds exactly when the memory has room, leaves the base of a block of zero
   * cells on the stack and writes nothing; without room it stops at an assertion.
   */
  lemma Borrows(env: Env, cells: nat, search: string, s: State) returns (base: nat, t: State)
    requires 1 <= cells <= 0x1_0000_0000 && HasSearch(env, search)
    ensures if HasRoom(s.ram, cells)
      then Borrowed(s.ram, base, cells) && Runs(env, BorrowCode(cells, search), s, Done(WithStack(s, [base] + s.stack)))
      else t.ram == s.ram && Runs(env, BorrowCode(cells, search), s, Crashed(t, Assert))
  {
    hide Basic, Exec, Run, CheckCode, BorrowHead, BorrowTest, BorrowTail, ZeroRun, Invokes, SearchCode, ScanCode;
    var front := BorrowHead(cells) + CheckCode(cells) + BorrowTest(cells);
    var last: Word := PREFERRED + cells - 1;
    var mid := WithStack(s, [Bit(!ZeroRun(s.ram, PREFERRED, cells))] + ([cells] + ([last] + ([cells] + s.stack))));
    BorrowFront(cells, s);
    RunsExec(env, front, s, mid);
    base, t := BorrowCalls(env, cells, search, s);
    assert Whole(front) by { TestEnds(cells, BorrowHead(cells) + CheckCode(cells)); }
    if HasRoom(s.ram, cells) {
      var found := WithStack(s, [cells] + ([base + cells - 1] + ([cells] + s.stack)));
      RunsCat(env, front, [Skiz, Call(search)], s, mid, Done(found));
      TailLeavesBase(cells, base, found, cells, cells, s.stack);
      var end := WithStack(s, [base] + s.stack);
      RunsExec(env, BorrowTail(cells), found, end);
      RunsCat(env, front + [Skiz, Call(search)], BorrowTail(cells), s, found, Done(end));
    } else {
      RunsCat(env, front, [Skiz, Call(search)], s, mid, Crashed(t, Assert));
      RunsStop(env, front + [Skiz, Call(search)], BorrowTail(cells), s, Crashed(t, Assert));
    }
  }

  lemma TestEnds(cells: nat, front: seq<Instr>)
    ensures Whole(front + BorrowTest(cells))
  {}
}
