/** The scanner walks memory upwards from address zero and stops at the first run of zero cells long enough. */
module Scanning {
  import opened Words
  import opened Machine
  import opened Control
  import opened Legalize

  ghost predicate Lowest(ram: Ram, a: nat, n: nat) {
    RunAt(ram, a, n) && forall b: nat :: b < a ==> !RunAt(ram, b, n)
  }

  /** The blocks that a module with a scratch label carries. */
  ghost predicate HasSearch(env: Env, search: string) {
    search in env && env[search] == SearchCode(search)
    && ScanLabel(search) in env && env[ScanLabel(search)] == ScanCode()
  }

  lemma OneCell(ram: Ram, a: Word)
    ensures Cells(ram, At(a, 0), 1) == [Read(ram, a)]
  {}

  function NewLength(ram: Ram, c: Word, l: nat): nat {
    if Read(ram, c) == 0 then l + 1 else 0
  }

  lemma LookReads(s: State, c: Word, l: Word, req: Word, rest: seq<Word>)
    requires s.stack == [l] + ([c] + ([req] + rest))
    ensures Exec([Instr.Dup(1), Instr.ReadMem(1), Instr.Pop(1), Instr.Push(0), Eq], s)
         == Some(WithStack(s, [Bit(Read(s.ram, c) == 0)] + s.stack))
  {
    hide Basic, Exec, Read, At, Cells;
    var v := Read(s.ram, c);
    OnDup(s, 1);
    var s1 := WithStack(s, [c] + s.stack);
    OnReadMem(s1, c, 1, s.stack);
    OneCell(s.ram, c);
    var s2 := WithStack(s, [At(c, -1)] + ([v] + s.stack));
    OnPop(s2, At(c, -1), [v] + s.stack);
    var s3 := WithStack(s, [v] + s.stack);
    OnPush(s3, 0);
    var s4 := WithStack(s, [0] + ([v] + s.stack));
    OnBinary(Eq, s4, 0, v, s.stack, Bit(v == 0));
    Chain5(Instr.Dup(1), Instr.ReadMem(1), Instr.Pop(1), Instr.Push(0), Eq, s, s1, s2, s3, s4, WithStack(s, [Bit(v == 0)] + s.stack));
  }

  lemma LookMultiplies(s: State, z: bool, l: Word, rest: seq<Word>)
    requires s.stack == [Bit(z)] + ([l] + rest) && l + 1 < P
    ensures Exec([Instr.Swap(1), Instr.Push(1), Add, Mul], s) == Some(WithStack(s, [if z then l + 1 else 0] + rest))
  {
    hide Basic, Exec;
    OnSwap(s, Bit(z), l, rest);
    var s1 := WithStack(s, [l] + ([Bit(z)] + rest));
    OnPush(s1, 1);
    var s2 := WithStack(s, [1] + ([l] + ([Bit(z)] + rest)));
    OnBinary(Add, s2, 1, l, [Bit(z)] + rest, l + 1);
    var s3 := WithStack(s, [l + 1] + ([Bit(z)] + rest));
    OnBinary(Mul, s3, l + 1, Bit(z), rest, if z then l + 1 else 0);
    Chain4(Instr.Swap(1), Instr.Push(1), Add, Mul, s, s1, s2, s3, WithStack(s, [if z then l + 1 else 0] + rest));
  }

  lemma Looks(s: State, c: Word, l: Word, req: Word, rest: seq<Word>)
    requires s.stack == [l] + ([c] + ([req] + rest)) && l + 1 < P
    ensures Exec(ScanLook(), s) == Some(WithStack(s, [NewLength(s.ram, c, l)] + ([c] + ([req] + rest))))
  {
    hide Basic, Exec, Read;
    LookReads(s, c, l, req, rest);
    var z := Read(s.ram, c) == 0;
    var s1 := WithStack(s, [Bit(z)] + s.stack);
    LookMultiplies(s1, z, l, [c] + ([req] + rest));
    ChainCat([Instr.Dup(1), Instr.ReadMem(1), Instr.Pop(1), Instr.Push(0), Eq], [Instr.Swap(1), Instr.Push(1), Add, Mul],
             s, s1, WithStack(s, [if z then l + 1 else 0] + ([c] + ([req] + rest))));
  }

  lemma Compares(s: State, l: Word, c: Word, req: Word, rest: seq<Word>)
    requires s.stack == [l] + ([c] + ([req] + rest))
    ensures Exec(ScanCompare(), s) == Some(WithStack(s, [Bit(req == l)] + s.stack))
  {
    hide Basic, Exec;
    OnDup(s, 0);
    var s1 := WithStack(s, [l] + s.stack);
    OnDup(s1, 3);
    var s2 := WithStack(s, [req] + ([l] + s.stack));
    OnBinary(Eq, s2, req, l, s.stack, Bit(req == l));
    Chain3(Instr.Dup(0), Instr.Dup(3), Eq, s, s1, s2, WithStack(s, [Bit(req == l)] + s.stack));
  }

  lemma Advances(s: State, l: Word, c: Word, rest: seq<Word>)
    requires s.stack == [l] + ([c] + rest)
    ensures Exec(ScanAdvance(), s) == Some(WithStack(s, [Bit(c + 1 != P)] + ([At(c, 1)] + ([l] + rest))))
  {
    hide Basic, Exec;
    var n := At(c, 1);
    OnSwap(s, l, c, rest);
    var s1 := WithStack(s, [c] + ([l] + rest));
    OnPush(s1, 1);
    var s2 := WithStack(s, [1] + ([c] + ([l] + rest)));
    OnBinary(Add, s2, 1, c, [l] + rest, n);
    var s3 := WithStack(s, [n] + ([l] + rest));
    Chain3(Instr.Swap(1), Instr.Push(1), Add, s, s1, s2, s3);
    var z := Bit(n == 0);
    OnDup(s3, 0);
    var t1 := WithStack(s, [n] + s3.stack);
    OnPush(t1, 0);
    var t2 := WithStack(s, [0] + ([n] + s3.stack));
    OnBinary(Eq, t2, 0, n, s3.stack, z);
    var t3 := WithStack(s, [z] + s3.stack);
    OnPush(t3, 0);
    var t4 := WithStack(s, [0] + ([z] + s3.stack));
    OnBinary(Eq, t4, 0, z, s3.stack, Bit(c + 1 != P));
    var t5 := WithStack(s, [Bit(c + 1 != P)] + s3.stack);
    Chain5(Instr.Dup(0), Instr.Push(0), Eq, Instr.Push(0), Eq, s3, t1, t2, t3, t4, t5);
    ChainCat([Instr.Swap(1), Instr.Push(1), Add], [Instr.Dup(0), Instr.Push(0), Eq, Instr.Push(0), Eq], s, s3, t5);
  }

  // ----- the loop -----

  /** `l` zero cells end just below cursor `c`, no more than these, and no long enough run lies below `c`. */
  ghost predicate ScanInv(ram: Ram, req: nat, c: nat, l: nat) {
    l < req && l <= c < P && ZeroRun(ram, c - l, l)
    && (l == c || Read(ram, c - l - 1) != 0)
    && forall b: nat :: b + req <= c ==> !RunAt(ram, b, req)
  }

  lemma InRun(ram: Ram, a: nat, n: nat, x: nat)
    requires RunAt(ram, a, n) && a <= x < a + n
    ensures Read(ram, x) == 0
  {
    assert At(a, x - a) == x;
  }

  lemma ExtendRun(ram: Ram, a: nat, n: nat)
    requires ZeroRun(ram, a, n) && a + n < P && Read(ram, a + n) == 0
    ensures ZeroRun(ram, a, n + 1)
  {
    assert At(a, n) == a + n;
  }

  lemma NoRunEndsHere(ram: Ram, req: nat, c: nat, l: nat, b: nat)
    requires ScanInv(ram, req, c, l) && NewLength(ram, c, l) < req && b + req == c + 1
    ensures !RunAt(ram, b, req)
  {
    if RunAt(ram, b, req) {
      InRun(ram, b, req, c);
      InRun(ram, b, req, c - l - 1);
    }
  }

  lemma Found(ram: Ram, req: nat, c: nat, l: nat)
    requires ScanInv(ram, req, c, l) && NewLength(ram, c, l) == req && req > 0
    ensures Lowest(ram, c + 1 - req, req)
  {
    ExtendRun(ram, c - l, l);
  }

  lemma KeepsLooking(ram: Ram, req: nat, c: nat, l: nat)
    requires ScanInv(ram, req, c, l) && NewLength(ram, c, l) < req && c + 1 < P
    ensures ScanInv(ram, req, c + 1, NewLength(ram, c, l))
  {
    if Read(ram, c) == 0 {
      ExtendRun(ram, c - l, l);
    }
    forall b: nat | b + req <= c + 1
      ensures !RunAt(ram, b, req)
    {
      if b + req == c + 1 {
        NoRunEndsHere(ram, req, c, l, b);
      }
    }
  }

  lemma NothingFound(ram: Ram, req: nat, l: nat)
    requires ScanInv(ram, req, P - 1, l) && NewLength(ram, P - 1, l) < req
    ensures !HasRoom(ram, req)
  {
    forall b: nat
      ensures !RunAt(ram, b, req)
    {
      if b + req == P {
        NoRunEndsHere(ram, req, P - 1, l, b);
      }
    }
  }

  function Cursor(s: State, l: Word, c: Word, req: Word, rest: seq<Word>): State {
    WithStack(s, [l] + ([c] + ([req] + rest)))
  }

  lemma ScanFront(s: State, l: Word, c: Word, req: Word, rest: seq<Word>)
    requires l + 1 < P
    ensures var m := NewLength(s.ram, c, l);
      Exec(ScanLook() + ScanCompare(), Cursor(s, l, c, req, rest)) == Some(WithStack(s, [Bit(req == m)] + Cursor(s, m, c, req, rest).stack))
  {
    hide Basic, Exec, Read, ScanLook, ScanCompare;
    var m := NewLength(s.ram, c, l);
    Looks(Cursor(s, l, c, req, rest), c, l, req, rest);
    Compares(Cursor(s, m, c, req, rest), m, c, req, rest);
    ChainCat(ScanLook(), ScanCompare(), Cursor(s, l, c, req, rest), Cursor(s, m, c, req, rest),
             WithStack(s, [Bit(req == m)] + Cursor(s, m, c, req, rest).stack));
  }

  function ScanRest(): seq<Instr> {
    ScanAdvance() + [Assert, Instr.Swap(1), Recurse]
  }

  lemma ScanParts()
    ensures ScanCode() == (ScanLook() + ScanCompare()) + ([Skiz, Return] + ScanRest())
    ensures Whole(ScanLook() + ScanCompare()) && Whole(ScanAdvance())
  {}

  /** The end of a turn: the wrap check, then the next address. */
  lemma ScanMovesOn(env: Env, s: State, m: Word, c: Word, req: Word, rest: seq<Word>) returns (o: Outcome)
    ensures Runs(env, ScanRest(), Cursor(s, m, c, req, rest), o)
    ensures c + 1 < P ==> o == Recursed(Cursor(s, m, c + 1, req, rest))
    ensures c + 1 == P ==> o.Crashed? && o.i == Assert && o.s.ram == s.ram
  {
    hide Exec, ScanAdvance, Run, Basic;
    var from := Cursor(s, m, c, req, rest);
    var u := WithStack(s, [At(c, 1)] + ([m] + ([req] + rest)));
    var t := WithStack(s, [Bit(c + 1 != P)] + u.stack);
    Advances(from, m, c, [req] + rest);
    RunsExec(env, ScanAdvance(), from, t);
    ScanParts();
    OnAssert(t, Bit(c + 1 != P), u.stack);
    if c + 1 < P {
      OnSwap(u, At(c, 1), m, [req] + rest);
      o := Recursed(Cursor(s, m, c + 1, req, rest));
      Chain2(Assert, Instr.Swap(1), t, u, o.s);
      RunsExec(env, [Assert, Instr.Swap(1)], t, o.s);
      RunsLast(env, Recurse, o.s);
      RunsCat(env, [Assert, Instr.Swap(1)], [Recurse], t, o.s, o);
      assert [Assert, Instr.Swap(1), Recurse] == [Assert, Instr.Swap(1)] + [Recurse];
    } else {
      o := Crashed(t, Assert);
      RunsCrash(env, Assert, [Instr.Swap(1), Recurse], t);
      assert [Assert, Instr.Swap(1), Recurse] == [Assert] + [Instr.Swap(1), Recurse];
    }
    RunsCat(env, ScanAdvance(), [Assert, Instr.Swap(1), Recurse], from, t, o);
  }

  /** One turn of the scanner. */
  lemma ScanTurn(env: Env, s: State, l: Word, c: Word, req: Word, rest: seq<Word>) returns (o: Outcome)
    requires l + 1 < P
    ensures Runs(env, ScanCode(), Cursor(s, l, c, req, rest), o)
    ensures var m := NewLength(s.ram, c, l);
      if m == req then o == Returned(Cursor(s, m, c, req, rest))
      else if c + 1 < P then o == Recursed(Cursor(s, m, c + 1, req, rest))
      else o.Crashed? && o.i == Assert && o.s.ram == s.ram
  {
    hide Exec, Basic, ScanLook, ScanCompare, ScanRest, ScanAdvance, ScanCode, Run, Read;
    var m := NewLength(s.ram, c, l);
    var from := Cursor(s, l, c, req, rest);
    var next := Cursor(s, m, c, req, rest);
    var mid := WithStack(s, [Bit(req == m)] + next.stack);
    ScanFront(s, l, c, req, rest);
    RunsExec(env, ScanLook() + ScanCompare(), from, mid);
    assert PopTop(mid) == next;
    if m == req {
      o := Returned(next);
      RunsLast(env, Return, next);
      RunsStop(env, [Return], ScanRest(), next, o);
      RunsThrough(env, [Return] + ScanRest(), mid, o);
      assert [Skiz] + ([Return] + ScanRest()) == [Skiz, Return] + ScanRest();
    } else {
      o := ScanMovesOn(env, s, m, c, req, rest);
      RunsOver(env, Return, ScanRest(), mid, o);
    }
    ScanParts();
    RunsCat(env, ScanLook() + ScanCompare(), [Skiz, Return] + ScanRest(), from, mid, o);
  }

  /** From any point that the scanner reaches: it stops at the lowest run, or fails its wrap check with memory untouched. */
  lemma {:induction false} ScanLoop(env: Env, search: string, s: State, l: Word, c: Word, req: Word, rest: seq<Word>)
    returns (a: nat, t: State)
    requires HasSearch(env, search) && ScanInv(s.ram, req, c, l)
    ensures HasRoom(s.ram, req) ==>
      Lowest(s.ram, a, req) && Invokes(env, ScanLabel(search), Cursor(s, l, c, req, rest), Done(Cursor(s, req, a + req - 1, req, rest)))
    ensures !HasRoom(s.ram, req) ==>
      t.ram == s.ram && Invokes(env, ScanLabel(search), Cursor(s, l, c, req, rest), Crashed(t, Assert))
    decreases P - c
  {
    hide ScanCode, Read, Runs, Invokes, ZeroRun, ScanLabel;
    a, t := 0, s;
    var from := Cursor(s, l, c, req, rest);
    var m := NewLength(s.ram, c, l);
    var o := ScanTurn(env, s, l, c, req, rest);
    if m == req {
      a := c + 1 - req;
      Found(s.ram, req, c, l);
      InvokesReturn(env, ScanLabel(search), from, o.s);
    } else if c + 1 < P {
      KeepsLooking(s.ram, req, c, l);
      a, t := ScanLoop(env, search, s, m, c + 1, req, rest);
      InvokesAgain(env, ScanLabel(search), from, o.s, if HasRoom(s.ram, req) then Done(Cursor(s, req, a + req - 1, req, rest)) else Crashed(t, Assert));
    } else {
      NothingFound(s.ram, req, l);
      t := o.s;
      InvokesStop(env, ScanLabel(search), from, o);
    }
  }
}
