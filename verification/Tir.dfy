/** The stack-level intermediate representation that is lowered to the machine, with its meaning. */
module Tir {
  import opened Words
  import opened Machine

  datatype TIROp =
    | Push(v: nat) | Pop(n: nat) | Dup(d: nat) | Swap(d: nat)
    | Add | Sub | Mul | Neg | Eq | Lt | DivMod | Split | Pow
    | ReadIo(n: nat) | WriteIo(n: nat) | Hint(n: nat)
    | RamRead(width: nat) | RamWrite(width: nat)
    | Assert
    | Reveal(tag: nat, fields: nat)
    | Call(target: string) | Return | Halt
    | IfElse(thenBody: seq<TIROp>, elseBody: seq<TIROp>)
    | IfOnly(onlyBody: seq<TIROp>)
    | Loop(name: string, body: seq<TIROp>)
    | FnStart(name: string) | FnEnd
    | Entry(name: string)

  /** Dup, Swap and Pop only rearrange the operand stack. */
  predicate IsStackOp(op: TIROp) {
    op.Dup? || op.Swap? || op.Pop?
  }

  /** The words an operation reaches for. */
  function Need(op: TIROp): nat
    requires IsStackOp(op)
  {
    match op
    case Dup(d) => d + 1
    case Swap(d) => d + 1
    case Pop(n) => n
  }

  function Change(op: TIROp): int
    requires IsStackOp(op)
  {
    match op
    case Dup(_) => 1
    case Swap(_) => 0
    case Pop(n) => 0 - n
  }

  /** What `Dup(depth)` and `Swap(depth)` mean on a stack of any size, and what `Pop(n)` means. */
  function Rearranged<T>(op: TIROp, stack: seq<T>): (r: seq<T>)
    requires IsStackOp(op) && Need(op) <= |stack|
    ensures |r| == |stack| + Change(op)
  {
    match op
    case Dup(d) => [stack[d]] + stack
    case Swap(d) => SwapTop(stack, d)
    case Pop(n) => stack[n..]
  }

  // ----- sizes -----

  /** How much lowering an operation can still cause; larger than that of the blocks it defers. */
  function OpSize(op: TIROp): (n: nat)
    ensures n >= 1
  {
    match op
    case IfElse(t, e) => 3 + Size(t) + Size(e)
    case IfOnly(b) => 2 + Size(b)
    case Loop(_, b) => 2 + Size(b)
    case _ => 1
  }

  function Size(ops: seq<TIROp>): (n: nat)
    ensures n >= |ops|
  {
    if ops == [] then 0 else OpSize(ops[0]) + Size(ops[1..])
  }

  // ----- meaning -----

  /** What a label names: a function, or the body of a loop that counts down the word on top. */
  datatype Proc = FnBody(ops: seq<TIROp>) | LoopBody(ops: seq<TIROp>)

  type Procs = map<string, Proc>

  datatype Result =
    | Ok(s: State)
    | Returned(s: State)
    | Halted(s: State)
    | Failed       // an operation refuses the words it is given, or there is no more input
    | Short        // an operation reaches below the stack
    | Astray       // a missing label, or control leaving a block other than by return or halt
    | Crowded      // a deep access while memory lacks the free cells asked for
    | Timeout

  predicate IsDeep(op: TIROp) {
    (op.Dup? || op.Swap?) && op.d >= 16
  }

  function Unary(op: TIROp, x: Word): Option<seq<Word>> {
    match op
    case Neg => Some([(0 - x) % P])
    case Split => Some([x % 0x1_0000_0000, x / 0x1_0000_0000])
    case Assert => if x == 1 then Some([]) else None
    case _ => None
  }

  /** `x` is the top word and `y` the word below it. */
  function Binary(op: TIROp, x: Word, y: Word): Option<seq<Word>> {
    match op
    case Add => Some([(y + x) % P])
    case Sub => Some([(y - x) % P])
    case Mul => Some([(y * x) % P])
    case Eq => Some([Bit(x == y)])
    case Lt => if IsU32(x) && IsU32(y) then Some([Bit(x < y)]) else None
    case DivMod => if IsU32(x) && IsU32(y) && y != 0 then Some([x % y, x / y]) else None
    case Pow => if IsU32(x) then Some([PowMod(y, x)]) else None
    case _ => None
  }

  /** The meaning of the operations that are not control flow. */
  function Simple(op: TIROp, s: State): Option<State> {
    match op
    case Push(v) => Some(WithStack(s, [v % P] + s.stack))
    case Pop(_) => Rearrange(op, s)
    case Dup(_) => Rearrange(op, s)
    case Swap(_) => Rearrange(op, s)
    case ReadIo(n) => if |s.input| < n then None else Some(s.(stack := Rev(s.input[..n]) + s.stack, input := s.input[n..]))
    case Hint(n) => if |s.secret| < n then None else Some(s.(stack := Rev(s.secret[..n]) + s.stack, secret := s.secret[n..]))
    case WriteIo(n) => if |s.stack| < n then None else Some(s.(stack := s.stack[n..], output := s.output + s.stack[..n]))
    case RamRead(w) =>
      if |s.stack| == 0 then None else Some(WithStack(s, Rev(Cells(s.ram, s.stack[0], w)) + s.stack[1..]))
    case RamWrite(w) =>
      if |s.stack| < w + 1 then None else
      Some(s.(stack := s.stack[w + 1..], ram := WriteUp(s.ram, s.stack[w], Rev(s.stack[..w]))))
    case Reveal(tag, n) =>
      if |s.stack| < n then None else Some(s.(stack := s.stack[n..], output := s.output + [tag % P] + Rev(s.stack[..n])))
    case _ => Consume(op, s)
  }

  function Rearrange(op: TIROp, s: State): Option<State>
    requires IsStackOp(op)
  {
    if Need(op) <= |s.stack| then Some(WithStack(s, Rearranged(op, s.stack))) else None
  }

  function Consume(op: TIROp, s: State): Option<State> {
    if op == TIROp.Neg || op == TIROp.Split || op == TIROp.Assert then
      if |s.stack| < 1 then None else
      var r := Unary(op, s.stack[0]);
      if r.None? then None else Some(WithStack(s, r.value + s.stack[1..]))
    else
      if |s.stack| < 2 then None else
      var r := Binary(op, s.stack[0], s.stack[1]);
      if r.None? then None else Some(WithStack(s, r.value + s.stack[2..]))
  }

  /** The stack has all the words that the operation reaches for. */
  predicate Enough(op: TIROp, s: State) {
    match op
    case Push(_) => true
    case Pop(_) => Need(op) <= |s.stack|
    case Dup(_) => Need(op) <= |s.stack|
    case Swap(_) => Need(op) <= |s.stack|
    case ReadIo(_) => true
    case Hint(_) => true
    case WriteIo(n) => n <= |s.stack|
    case RamRead(_) => 1 <= |s.stack|
    case RamWrite(w) => w + 1 <= |s.stack|
    case Reveal(_, n) => n <= |s.stack|
    case _ => (if op == TIROp.Neg || op == TIROp.Split || op == TIROp.Assert then 1 else 2) <= |s.stack|
  }

  predicate IsControl(op: TIROp) {
    op.Call? || op.Return? || op.Halt? || op.IfElse? || op.IfOnly? || op.Loop? || op.FnStart? || op.FnEnd? || op.Entry?
  }

  predicate Prefixed(name: string) {
    |name| >= 2 && name[..2] == "__"
  }

  /** The label under which the name is defined and called. */
  function LabelOf(name: string): string {
    if Prefixed(name) then name else "__" + name
  }

  /** The label that a call names; a name marked as another module's is left to the linker. */
  function CalleeOf(target: string): string {
    if target != "" && target[0] == '@' then target else LabelOf(target)
  }

  /** With `room` zero this is the meaning; with more, deep accesses are stopped where memory lacks so many zero cells in a row. */
  ghost function Eval(procs: Procs, room: nat, ops: seq<TIROp>, s: State, fuel: nat): Result
    decreases fuel, 1, ops
  {
    if ops == [] then Ok(s) else
    var r := EvalOp(procs, room, ops[0], s, fuel);
    if r.Ok? then Eval(procs, room, ops[1..], r.s, fuel) else r
  }

  ghost function EvalOp(procs: Procs, room: nat, op: TIROp, s: State, fuel: nat): Result
    decreases fuel, 1, op
  {
    match op
    case Return => Returned(s)
    case Halt => Halted(s)
    case IfElse(t, e) =>
      if |s.stack| == 0 then Short
      else Eval(procs, room, if s.stack[0] != 0 then t else e, WithStack(s, s.stack[1..]), fuel)
    case IfOnly(b) =>
      if |s.stack| == 0 then Short
      else if s.stack[0] != 0 then Eval(procs, room, b, WithStack(s, s.stack[1..]), fuel)
      else Ok(WithStack(s, s.stack[1..]))
    case Loop(_, _) => Ok(s)  // a definition; its label is called elsewhere
    case Call(l) => EvalCall(procs, room, CalleeOf(l), s, fuel)
    case _ =>
      if IsControl(op) then Astray
      else if IsDeep(op) && !HasRoom(s.ram, room) then Crowded
      else match Simple(op, s)
        case None => if Enough(op, s) then Failed else Short
        case Some(t) => Ok(t)
  }

  ghost function EvalCall(procs: Procs, room: nat, l: string, s: State, fuel: nat): Result
    decreases fuel, 0
  {
    if fuel == 0 then Timeout
    else if l !in procs then Astray
    else match procs[l]
      case FnBody(ops) =>
        var r := Eval(procs, room, ops, s, fuel - 1);
        if r.Returned? then Ok(r.s) else if r.Ok? then Astray else r
      case LoopBody(ops) =>
        if |s.stack| == 0 then Short
        else if s.stack[0] == 0 then Ok(s)
        else
          var r := Eval(procs, room, ops, WithStack(s, [s.stack[0] - 1] + s.stack[1..]), fuel - 1);
          if r.Ok? then EvalCall(procs, room, l, r.s, fuel - 1) else if r.Returned? then Astray else r
  }
}
