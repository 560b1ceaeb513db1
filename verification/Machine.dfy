/** The stack machine that the lowered programs run on: instructions, states and the effect of code without jumps. */
module Machine {
  import opened Words

  datatype Option<+T> = None | Some(value: T)

  datatype Instr =
    | Push(w: Word) | Pop(n: nat) | Dup(d: nat) | Swap(d: nat)
    | Add | Mul | Eq | Lt | Split | DivMod | Pow
    | ReadIo(n: nat) | WriteIo(n: nat) | Divine(n: nat)
    | ReadMem(n: nat) | WriteMem(n: nat)
    | Assert
    | Skiz | Call(target: string) | Return | Recurse | Halt
    | Label(name: string)  // a line of a listing that starts a block; never executed

  /** Operands the machine can encode: stack positions below 16, batches of one to five words. */
  predicate Native(i: Instr) {
    match i
    case Dup(d) => d < 16
    case Swap(d) => 1 <= d < 16
    case Pop(n) => 1 <= n <= 5
    case ReadIo(n) => 1 <= n <= 5
    case WriteIo(n) => 1 <= n <= 5
    case Divine(n) => 1 <= n <= 5
    case ReadMem(n) => 1 <= n <= 5
    case WriteMem(n) => 1 <= n <= 5
    case Label(_) => false
    case _ => true
  }

  predicate AllNative(code: seq<Instr>) {
    forall k :: 0 <= k < |code| ==> Native(code[k])
  }

  /** The operand stack is listed top first. */
  datatype State = State(stack: seq<Word>, ram: Ram, input: seq<Word>, secret: seq<Word>, output: seq<Word>)

  predicate Jump(i: Instr) {
    i.Skiz? || i.Call? || i.Return? || i.Recurse? || i.Halt? || i.Label?
  }

  predicate JumpFree(code: seq<Instr>) {
    forall k :: 0 <= k < |code| ==> !Jump(code[k])
  }

  // ----- the effect of one instruction -----

  function Rev<T>(s: seq<T>): (r: seq<T>)
    ensures |r| == |s|
  {
    seq(|s|, i requires 0 <= i < |s| => s[|s| - 1 - i])
  }

  lemma RevTwice<T>(s: seq<T>)
    ensures Rev(Rev(s)) == s
  {}

  function SwapTop<T>(s: seq<T>, d: nat): (r: seq<T>)
    requires d < |s|
    ensures |r| == |s|
  {
    s[0 := s[d]][d := s[0]]
  }

  function Bit(b: bool): Word {
    if b then 1 else 0
  }

  predicate IsU32(w: Word) {
    w < 0x1_0000_0000
  }

  function PowMod(base: Word, e: nat): (w: Word) {
    if e == 0 then 1 else (base * PowMod(base, e - 1)) % P
  }

  function WithStack(s: State, stack: seq<Word>): State {
    s.(stack := stack)
  }

  /** One-operand and two-operand instructions, on the words they consume. */
  function Unary(i: Instr, x: Word): Option<seq<Word>> {
    match i
    case Split => Some([x % 0x1_0000_0000, x / 0x1_0000_0000])
    case Assert => if x == 1 then Some([]) else None
    case _ => None
  }

  function Binary(i: Instr, x: Word, y: Word): Option<seq<Word>> {
    match i
    case Add => Some([(x + y) % P])
    case Mul => Some([(x * y) % P])
    case Eq => Some([Bit(x == y)])
    case Lt => if IsU32(x) && IsU32(y) then Some([Bit(x < y)]) else None
    case DivMod => if IsU32(x) && IsU32(y) && y != 0 then Some([x % y, x / y]) else None
    case Pow => if IsU32(y) then Some([PowMod(x, y)]) else None
    case _ => None
  }

  /** The state after an instruction that does not jump; None if the machine stops with an error there. */
  function Basic(i: Instr, s: State): (r: Option<State>) {
    if !Native(i) then None else
    match i
    case Push(w) => Some(WithStack(s, [w] + s.stack))
    case Pop(n) => if n <= |s.stack| then Some(WithStack(s, s.stack[n..])) else None
    case Dup(d) => if d < |s.stack| then Some(WithStack(s, [s.stack[d]] + s.stack)) else None
    case Swap(d) => if d < |s.stack| then Some(WithStack(s, SwapTop(s.stack, d))) else None
    case ReadMem(n) =>
      if |s.stack| == 0 then None else
      var p := At(s.stack[0], 0 - n);
      Some(WithStack(s, [p] + Cells(s.ram, At(p, 1), n) + s.stack[1..]))
    case WriteMem(n) =>
      if |s.stack| < n + 1 then None else
      Some(s.(stack := [At(s.stack[0], n)] + s.stack[n + 1..], ram := WriteUp(s.ram, s.stack[0], s.stack[1..n + 1])))
    case ReadIo(n) =>
      if |s.input| < n then None else Some(s.(stack := Rev(s.input[..n]) + s.stack, input := s.input[n..]))
    case Divine(n) =>
      if |s.secret| < n then None else Some(s.(stack := Rev(s.secret[..n]) + s.stack, secret := s.secret[n..]))
    case WriteIo(n) =>
      if |s.stack| < n then None else Some(s.(stack := s.stack[n..], output := s.output + s.stack[..n]))
    case _ =>
      if i == Split || i == Assert then
        if |s.stack| < 1 then None else
        match Unary(i, s.stack[0])
        case None => None
        case Some(r) => Some(WithStack(s, r + s.stack[1..]))
      else
        if |s.stack| < 2 then None else
        match Binary(i, s.stack[0], s.stack[1])
        case None => None
        case Some(r) => Some(WithStack(s, r + s.stack[2..]))
  }

  // ----- code without jumps -----

  function Then(r: Option<State>, i: Instr): Option<State> {
    if r.None? then None else Basic(i, r.value)
  }

  function Exec(code: seq<Instr>, s: State): Option<State> {
    if code == [] then Some(s) else
    var r := Basic(code[0], s);
    if r.None? then None else Exec(code[1..], r.value)
  }

  lemma {:induction false} ExecCat(a: seq<Instr>, b: seq<Instr>, s: State)
    ensures Exec(a + b, s) == if Exec(a, s).None? then None else Exec(b, Exec(a, s).value)
    decreases |a|
  {
    if a == [] {
      assert a + b == b;
    } else {
      assert (a + b)[1..] == a[1..] + b;
      var r := Basic(a[0], s);
      if r.Some? {
        ExecCat(a[1..], b, r.value);
      }
    }
  }

  lemma ExecNothing(s: State)
    ensures Exec([], s) == Some(s)
  {}

  lemma Exec1(i: Instr, s: State)
    ensures Exec([i], s) == Basic(i, s)
  {
    var r := Basic(i, s);
    if r.Some? {
      assert Exec([], r.value) == r;
    }
  }

  lemma ExecSnoc(code: seq<Instr>, i: Instr, s: State)
    ensures Exec(code + [i], s) == Then(Exec(code, s), i)
  {
    ExecCat(code, [i], s);
    if Exec(code, s).Some? {
      Exec1(i, Exec(code, s).value);
    }
  }

  /** Running one instruction after another, with the states in between named. */
  lemma Chain2(i: Instr, j: Instr, s: State, t: State, u: State)
    requires Basic(i, s) == Some(t) && Basic(j, t) == Some(u)
    ensures Exec([i, j], s) == Some(u)
  {
    hide Basic;
    Exec1(i, s);
    ExecSnoc([i], j, s);
    assert [i, j] == [i] + [j];
  }

  lemma Chain3(i: Instr, j: Instr, k: Instr, s: State, t: State, u: State, v: State)
    requires Basic(i, s) == Some(t) && Basic(j, t) == Some(u) && Basic(k, u) == Some(v)
    ensures Exec([i, j, k], s) == Some(v)
  {
    hide Basic;
    Chain2(i, j, s, t, u);
    ExecSnoc([i, j], k, s);
    assert [i, j, k] == [i, j] + [k];
  }

  lemma Chain4(i: Instr, j: Instr, k: Instr, l: Instr, s: State, t: State, u: State, v: State, w: State)
    requires Basic(i, s) == Some(t) && Basic(j, t) == Some(u) && Basic(k, u) == Some(v) && Basic(l, v) == Some(w)
    ensures Exec([i, j, k, l], s) == Some(w)
  {
    hide Basic;
    Chain3(i, j, k, s, t, u, v);
    ExecSnoc([i, j, k], l, s);
    assert [i, j, k, l] == [i, j, k] + [l];
  }

  lemma Chain5(i: Instr, j: Instr, k: Instr, l: Instr, m: Instr, s: State, t: State, u: State, v: State, w: State, x: State)
    requires Basic(i, s) == Some(t) && Basic(j, t) == Some(u) && Basic(k, u) == Some(v) && Basic(l, v) == Some(w)
    requires Basic(m, w) == Some(x)
    ensures Exec([i, j, k, l, m], s) == Some(x)
  {
    hide Basic;
    Chain4(i, j, k, l, s, t, u, v, w);
    ExecSnoc([i, j, k, l], m, s);
    assert [i, j, k, l, m] == [i, j, k, l] + [m];
  }

  lemma ChainCat(a: seq<Instr>, b: seq<Instr>, s: State, t: State, u: State)
    requires Exec(a, s) == Some(t) && Exec(b, t) == Some(u)
    ensures Exec(a + b, s) == Some(u)
  {
    hide Basic;
    ExecCat(a, b, s);
  }

  // ----- single instructions on stacks of a known shape -----

  lemma OnPush(s: State, w: Word)
    ensures Basic(Push(w), s) == Some(WithStack(s, [w] + s.stack))
  {}

  lemma OnPop(s: State, x: Word, rest: seq<Word>)
    requires s.stack == [x] + rest
    ensures Basic(Pop(1), s) == Some(WithStack(s, rest))
  {}

  lemma OnDup(s: State, d: nat)
    requires d < 16 && d < |s.stack|
    ensures Basic(Dup(d), s) == Some(WithStack(s, [s.stack[d]] + s.stack))
  {}

  lemma OnSwap(s: State, x: Word, y: Word, rest: seq<Word>)
    requires s.stack == [x] + ([y] + rest)
    ensures Basic(Swap(1), s) == Some(WithStack(s, [y] + ([x] + rest)))
  {
    assert SwapTop(s.stack, 1) == [y] + ([x] + rest);
  }

  lemma OnSwapTo(s: State, d: nat, stack: seq<Word>)
    requires 1 <= d < 16 && d < |s.stack| && stack == SwapTop(s.stack, d)
    ensures Basic(Swap(d), s) == Some(WithStack(s, stack))
  {}

  lemma OnDivine(s: State)
    requires s.secret != []
    ensures Basic(Divine(1), s) == Some(s.(stack := [s.secret[0]] + s.stack, secret := s.secret[1..]))
  {
    assert Rev(s.secret[..1]) == [s.secret[0]];
  }

  /** Exchanges the top with the word below a block of `n - 1` words. */
  lemma OnSwapUnder(s: State, x: Word, block: seq<Word>, y: Word, rest: seq<Word>)
    requires s.stack == [x] + (block + ([y] + rest)) && |block| < 15
    ensures Basic(Swap(|block| + 1), s) == Some(WithStack(s, [y] + (block + ([x] + rest))))
  {
    assert SwapTop(s.stack, |block| + 1) == [y] + (block + ([x] + rest));
  }

  lemma OnBinary(i: Instr, s: State, x: Word, y: Word, rest: seq<Word>, z: Word)
    requires s.stack == [x] + ([y] + rest) && Binary(i, x, y) == Some([z])
    ensures Basic(i, s) == Some(WithStack(s, [z] + rest))
  {
    assert s.stack[2..] == rest;
  }

  lemma OnAssert(s: State, x: Word, rest: seq<Word>)
    requires s.stack == [x] + rest
    ensures Basic(Assert, s) == if x == 1 then Some(WithStack(s, rest)) else None
  {
    assert [] + s.stack[1..] == rest;
  }

  lemma OnReadMem(s: State, p: Word, n: nat, rest: seq<Word>)
    requires s.stack == [p] + rest && 1 <= n <= 5
    ensures Basic(ReadMem(n), s) == Some(WithStack(s, [At(p, 0 - n)] + (Cells(s.ram, At(p, 1 - n), n) + rest)))
  {
    AtAt(p, 0 - n, 1);
    assert s.stack[1..] == rest;
    Assoc([At(p, 0 - n)], Cells(s.ram, At(p, 1 - n), n), rest);
  }

  lemma OnWriteMem(s: State, p: Word, vals: seq<Word>, rest: seq<Word>)
    requires s.stack == [p] + (vals + rest) && 1 <= |vals| <= 5
    ensures Basic(WriteMem(|vals|), s) == Some(s.(stack := [At(p, |vals|)] + rest, ram := WriteUp(s.ram, p, vals)))
  {
    hide WriteUp, At;
    assert s.stack[1..|vals| + 1] == vals;
    assert s.stack[|vals| + 1..] == rest;
  }

  lemma Assoc<T>(a: seq<T>, b: seq<T>, c: seq<T>)
    ensures (a + b) + c == a + (b + c)
  {}
}
