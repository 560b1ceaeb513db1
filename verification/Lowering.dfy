/** The lowering of the intermediate representation to a listing of labelled machine code. */
module Lowering {
  import opened Words
  import opened Machine
  import opened Legalize
  import opened Tir
  import opened Permute
  import opened Sequence

  // ----- labels -----

  function Digit(d: nat): char
    requires d < 10
  {
    ['0', '1', '2', '3', '4', '5', '6', '7', '8', '9'][d]
  }

  function Decimal(n: nat): string {
    if n < 10 then [Digit(n)] else Decimal(n / 10) + [Digit(n % 10)]
  }

  function Fresh(prefix: string, n: nat): string {
    "__" + prefix + "__" + Decimal(n)
  }

  // ----- operations that need no state -----

  function RamReadCode(width: nat): seq<Instr> {
    (if width > 1 then Offset(width - 1) else []) + BatchCode(ReadMemOp, width) + [Instr.Pop(1)] + ReverseCode(width)
  }

  function RamWriteCode(width: nat): seq<Instr> {
    ReverseCode(width + 1) + BatchCode(WriteMemOp, width) + [Instr.Pop(1)]
  }

  function RevealCode(tag: nat, fields: nat): seq<Instr> {
    (if fields > 1 then ReverseCode(fields) else []) + [Instr.Push(Lit(tag)), Instr.WriteIo(1)] + RepeatCode([Instr.WriteIo(1)], fields)
  }

  function FixedCode(op: TIROp): seq<Instr> {
    match op
    case Push(v) => [Instr.Push(Lit(v))]
    case Add => [Instr.Add]
    case Sub => [Instr.Push(Lit(-1)), Instr.Mul, Instr.Add]
    case Mul => [Instr.Mul]
    case Neg => [Instr.Push(Lit(-1)), Instr.Mul]
    case Eq => [Instr.Eq]
    case Lt => [Instr.Lt]
    case DivMod => [Instr.DivMod]
    case Split => [Instr.Split]
    case Pow => [Instr.Swap(1), Instr.Pow]
    case Assert => [Instr.Assert]
    case Call(target) => [Instr.Call(CalleeOf(target))]
    case Return => [Instr.Return]
    case Halt => [Instr.Halt]
    case FnStart(name) => [Label(LabelOf(name))]
    case Entry(name) => [Instr.Call(LabelOf(name)), Instr.Halt]
    case _ => []
  }

  /** Straight-line operations, and the lines that flat control flow becomes. */
  function FlatCode(op: TIROp): seq<Instr> {
    match op
    case Pop(n) => BatchCode(PopOp, n)
    case ReadIo(n) => BatchCode(ReadIoOp, n)
    case WriteIo(n) => BatchCode(WriteIoOp, n)
    case Hint(n) => BatchCode(DivineOp, n)
    case RamRead(w) => RamReadCode(w)
    case RamWrite(w) => RamWriteCode(w)
    case Reveal(tag, n) => RevealCode(tag, n)
    case _ => FixedCode(op)
  }

  // ----- deferred blocks -----

  datatype Deferred = Deferred(name: string, ops: seq<TIROp>, clearsFlag: bool, isLoop: bool)

  function Pending(blocks: seq<Deferred>): (n: nat)
    ensures n >= |blocks|
  {
    if blocks == [] then 0 else 1 + Size(blocks[0].ops) + Pending(blocks[1..])
  }

  lemma {:induction false} PendingCat(a: seq<Deferred>, b: seq<Deferred>)
    ensures Pending(a + b) == Pending(a) + Pending(b)
    decreases |a|
  {
    if a == [] {
      assert a + b == b;
    } else {
      assert (a + b)[1..] == a[1..] + b;
      PendingCat(a[1..], b);
    }
  }

  lemma PendingOne(a: seq<Deferred>, d: Deferred)
    ensures Pending(a + [d]) == Pending(a) + 1 + Size(d.ops)
  {
    PendingCat(a, [d]);
  }

  function IfElseCode(thenLabel: string, elseLabel: string): seq<Instr> {
    [Instr.Push(1), Instr.Swap(1), Skiz, Instr.Call(thenLabel), Skiz, Instr.Call(elseLabel)]
  }

  function IfOnlyCode(thenLabel: string): seq<Instr> {
    [Skiz, Instr.Call(thenLabel)]
  }

  function LoopHead(): seq<Instr> {
    [Instr.Dup(0), Instr.Push(0), Instr.Eq] + [Skiz, Instr.Return] + Offset(-1)
  }

  function BlockHead(d: Deferred): seq<Instr> {
    if d.isLoop then LoopHead() else if d.clearsFlag then [Instr.Pop(1)] else []
  }

  function BlockEnd(d: Deferred): seq<Instr> {
    if d.isLoop then [Recurse] else if d.clearsFlag then [Instr.Push(0), Instr.Return] else [Instr.Return]
  }

  // ----- what lowering computes -----

  /** The lowering's fields between two operations. */
  datatype Fields = Fields(deferred: seq<Deferred>, counter: nat, scratch: Option<string>)

  function WithScratch(f: Fields): Fields {
    if f.scratch.Some? then f else f.(counter := f.counter + 1, scratch := Some(Fresh("stack_scratch", f.counter + 1)))
  }

  function ScratchOf(f: Fields): string {
    if f.scratch.Some? then f.scratch.value else ""
  }

  function LowerAccess(depth: nat, duplicate: bool, f: Fields): (seq<Instr>, Fields) {
    var g := if depth >= 16 then WithScratch(f) else f;
    (AccessCode(depth, duplicate, ScratchOf(g)), g)
  }

  function DeferIfElse(op: TIROp, f: Fields): Fields
    requires op.IfElse?
  {
    f.(counter := f.counter + 2,
       deferred := f.deferred + [Deferred(Fresh("then", f.counter + 1), op.thenBody, true, false)]
                              + [Deferred(Fresh("else", f.counter + 2), op.elseBody, false, false)])
  }

  function DeferIfOnly(op: TIROp, f: Fields): Fields
    requires op.IfOnly?
  {
    f.(counter := f.counter + 1,
       deferred := f.deferred + [Deferred(Fresh("then", f.counter + 1), op.onlyBody, false, false)])
  }

  function DeferLoop(op: TIROp, f: Fields): Fields
    requires op.Loop?
  {
    f.(deferred := f.deferred + [Deferred(LabelOf(op.name), op.body, false, true)])
  }

  lemma IfElseDefersLess(op: TIROp, f: Fields)
    requires op.IfElse?
    ensures Pending(DeferIfElse(op, f).deferred) < Pending(f.deferred) + OpSize(op)
  {
    hide Fresh, Pending, Size;
    var d := Deferred(Fresh("then", f.counter + 1), op.thenBody, true, false);
    PendingOne(f.deferred, d);
    PendingOne(f.deferred + [d], Deferred(Fresh("else", f.counter + 2), op.elseBody, false, false));
  }

  lemma IfOnlyDefersLess(op: TIROp, f: Fields)
    requires op.IfOnly?
    ensures Pending(DeferIfOnly(op, f).deferred) < Pending(f.deferred) + OpSize(op)
  {
    hide Fresh, Pending, Size;
    PendingOne(f.deferred, Deferred(Fresh("then", f.counter + 1), op.onlyBody, false, false));
  }

  lemma LoopDefersLess(op: TIROp, f: Fields)
    requires op.Loop?
    ensures Pending(DeferLoop(op, f).deferred) < Pending(f.deferred) + OpSize(op)
  {
    hide LabelOf, Pending, Size;
    PendingOne(f.deferred, Deferred(LabelOf(op.name), op.body, false, true));
  }

  lemma DefersLess(op: TIROp, f: Fields)
    ensures op.IfElse? ==> Pending(DeferIfElse(op, f).deferred) < Pending(f.deferred) + OpSize(op)
    ensures op.IfOnly? ==> Pending(DeferIfOnly(op, f).deferred) < Pending(f.deferred) + OpSize(op)
    ensures op.Loop? ==> Pending(DeferLoop(op, f).deferred) < Pending(f.deferred) + OpSize(op)
  {
    hide *;
    if op.IfElse? {
      IfElseDefersLess(op, f);
    } else if op.IfOnly? {
      IfOnlyDefersLess(op, f);
    } else if op.Loop? {
      LoopDefersLess(op, f);
    }
  }

  function LowerOp(op: TIROp, f: Fields): (r: (seq<Instr>, Fields))
    ensures Pending(r.1.deferred) < Pending(f.deferred) + OpSize(op)
    decreases OpSize(op) + Pending(f.deferred), 3
  {
    DefersLess(op, f);
    match op
    case Dup(d) => LowerAccess(d, true, f)
    case Swap(d) => LowerAccess(d, false, f)
    case IfElse(_, _) => (IfElseCode(Fresh("then", f.counter + 1), Fresh("else", f.counter + 2)), DeferIfElse(op, f))
    case IfOnly(_) => (IfOnlyCode(Fresh("then", f.counter + 1)), DeferIfOnly(op, f))
    case Loop(_, _) => ([], DeferLoop(op, f))
    case FnEnd => Flush(f)
    case _ => (FlatCode(op), f)
  }

  function LowerOps(ops: seq<TIROp>, f: Fields): (r: (seq<Instr>, Fields))
    ensures Pending(r.1.deferred) <= Pending(f.deferred) + Size(ops)
    decreases Size(ops) + Pending(f.deferred), 4
  {
    if ops == [] then ([], f) else
    var plan := PlanOf(ops);
    if plan.Some? then
      SizeDrops(ops, plan.value.consumed);
      var g := WithScratch(f);
      var rest := LowerOps(ops[plan.value.consumed..], g);
      (ShuffleCode(plan.value.width, plan.value.order, ScratchOf(g)) + rest.0, rest.1)
    else
      var first := LowerOp(ops[0], f);
      var rest := LowerOps(ops[1..], first.1);
      (first.0 + rest.0, rest.1)
  }

  lemma {:induction false} SizeDrops(ops: seq<TIROp>, k: nat)
    requires k <= |ops|
    ensures Size(ops[k..]) + k <= Size(ops)
  {
    if k > 0 {
      SizeDrops(ops[1..], k - 1);
      assert ops[1..][k - 1..] == ops[k..];
    }
  }

  /** The lines of one deferred block; lowering it may defer further blocks. */
  function LowerBlock(d: Deferred, f: Fields): (r: (seq<Instr>, Fields))
    ensures Pending(r.1.deferred) <= Pending(f.deferred) + Size(d.ops)
    decreases Size(d.ops) + Pending(f.deferred), 5
  {
    var body := LowerOps(d.ops, f);
    ([Label(d.name)] + (BlockHead(d) + body.0 + BlockEnd(d)), body.1)
  }

  function LowerBlocks(blocks: seq<Deferred>, f: Fields): (r: (seq<Instr>, Fields))
    ensures Pending(r.1.deferred) + |blocks| <= Pending(f.deferred) + Pending(blocks)
    decreases Pending(blocks) + Pending(f.deferred), 1
  {
    if blocks == [] then ([], f) else
    var first := LowerBlock(blocks[0], f);
    var rest := LowerBlocks(blocks[1..], first.1);
    (first.0 + rest.0, rest.1)
  }

  /** Emits the deferred blocks, then the blocks that those deferred, until none are left. */
  function Flush(f: Fields): (r: (seq<Instr>, Fields))
    ensures r.1.deferred == []
    decreases Pending(f.deferred), 2
  {
    if f.deferred == [] then ([], f) else
    var round := LowerBlocks(f.deferred, f.(deferred := []));
    var rest := Flush(round.1);
    (round.0 + rest.0, rest.1)
  }

  function NoFields(): Fields {
    Fields([], 0, None)
  }

  function LowerModule(ops: seq<TIROp>): seq<Instr> {
    var r := LowerOps(ops, NoFields());
    r.0 + match r.1.scratch
          case None => []
          case Some(name) => [Instr.Halt] + ([Label(name)] + SearchCode(name) + [Label(ScanLabel(name))] + ScanCode())
  }
}
