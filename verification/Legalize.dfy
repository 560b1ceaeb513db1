/**
 * Instruction sequences that bring a stack access of any depth within the
 * machine's native window of sixteen words. Each emitter appends to a listing;
 * the function beside it is the code that it appends.
 */
module Legalize {
  import opened Words
  import opened Machine

  /** A listing under construction. */
  class Output {
    var lines: seq<Instr>

    constructor ()
      ensures lines == []
    {
      lines := [];
    }

    method Push(line: Instr)
      modifies this
      ensures lines == old(lines) + [line]
    {
      lines := lines + [line];
    }

    method Extend(code: seq<Instr>)
      modifies this
      ensures lines == old(lines) + code
    {
      lines := lines + code;
    }
  }

  /** A literal operand; negative literals stand for their residue. */
  function Lit(x: int): (w: Word) {
    x % P
  }

  function Least(a: nat, b: nat): (m: nat) {
    if a < b then a else b
  }

  // ----- batches -----

  datatype Opcode = PopOp | ReadIoOp | WriteIoOp | DivineOp | ReadMemOp | WriteMemOp

  function Batched(op: Opcode, n: nat): Instr {
    match op
    case PopOp => Instr.Pop(n)
    case ReadIoOp => Instr.ReadIo(n)
    case WriteIoOp => Instr.WriteIo(n)
    case DivineOp => Instr.Divine(n)
    case ReadMemOp => Instr.ReadMem(n)
    case WriteMemOp => Instr.WriteMem(n)
  }

  function BatchCode(op: Opcode, count: nat): seq<Instr> {
    if count == 0 then [] else
    [Batched(op, Least(count, 5))] + BatchCode(op, count - Least(count, 5))
  }

  method Batch(op: Opcode, count: nat, out: Output)
    modifies out
    ensures out.lines == old(out.lines) + BatchCode(op, count)
  {
    ghost var written := [];
    var remaining: nat := count;
    while remaining > 0
      invariant remaining <= count
      invariant out.lines == old(out.lines) + written
      invariant written + BatchCode(op, remaining) == BatchCode(op, count)
    {
      var chunk := Least(remaining, 5);
      out.Push(Batched(op, chunk));
      remaining := remaining - chunk;
      Assoc(old(out.lines), written, [Batched(op, chunk)]);
      Assoc(written, [Batched(op, chunk)], BatchCode(op, remaining));
      written := written + [Batched(op, chunk)];
    }
  }

  function RepeatCode(code: seq<Instr>, n: nat): seq<Instr> {
    if n == 0 then [] else code + RepeatCode(code, n - 1)
  }

  method Repeat(code: seq<Instr>, n: nat, out: Output)
    modifies out
    ensures out.lines == old(out.lines) + RepeatCode(code, n)
  {
    ghost var written := [];
    for i := 0 to n
      invariant out.lines == old(out.lines) + written
      invariant written + RepeatCode(code, n - i) == RepeatCode(code, n)
    {
      out.Extend(code);
      Assoc(old(out.lines), written, code);
      Assoc(written, code, RepeatCode(code, n - i - 1));
      written := written + code;
    }
  }

  // ----- borrowing zero cells -----

  const PREFERRED: int := 0x8000_0000

  /** Adds one to the count below for every zero among `n` words. */
  function CountCode(n: nat): seq<Instr> {
    RepeatCode([Instr.Swap(1), Instr.Push(0), Eq, Add], n)
  }

  function CheckChunk(n: nat): seq<Instr> {
    [Instr.ReadMem(n), Instr.Swap(n + 1)] + CountCode(n) + [Instr.Swap(1)]
  }

  function CheckCode(cells: nat): seq<Instr> {
    if cells == 0 then [] else CheckChunk(Least(cells, 5)) + CheckCode(cells - Least(cells, 5))
  }

  function BorrowHead(cells: nat): seq<Instr> {
    var last := PREFERRED + cells - 1;
    [Instr.Push(Lit(cells)), Instr.Push(Lit(last)), Instr.Push(Lit(cells)), Instr.Push(0), Instr.Push(Lit(last))]
  }

  function BorrowTest(cells: nat): seq<Instr> {
    [Instr.Pop(1), Instr.Push(Lit(cells)), Eq, Instr.Push(0), Eq]
  }

  function BorrowTail(cells: nat): seq<Instr> {
    [Instr.Pop(1), Instr.Swap(1), Instr.Pop(1), Instr.Push(Lit(1 - cells)), Add]
  }

  /** Checks a preferred block, calls `search` if some cell of it is occupied, and leaves the block's base. */
  function BorrowCode(cells: nat, search: string): seq<Instr> {
    BorrowHead(cells) + CheckCode(cells) + BorrowTest(cells) + [Skiz, Call(search)] + BorrowTail(cells)
  }

  method Borrow(cells: nat, search: string, out: Output)
    modifies out
    ensures out.lines == old(out.lines) + BorrowCode(cells, search)
  {
    hide CheckChunk, BorrowHead, BorrowTest, BorrowTail;
    out.Extend(BorrowHead(cells));
    ghost var before := out.lines;
    ghost var written := [];
    var remaining: nat := cells;
    while remaining > 0
      invariant remaining <= cells
      invariant out.lines == before + written
      invariant written + CheckCode(remaining) == CheckCode(cells)
    {
      var chunk := Least(remaining, 5);
      CheckBlock(chunk, out);
      remaining := remaining - chunk;
      Assoc(before, written, CheckChunk(chunk));
      Assoc(written, CheckChunk(chunk), CheckCode(remaining));
      written := written + CheckChunk(chunk);
    }
    assert written == CheckCode(cells);
    Assoc(old(out.lines), BorrowHead(cells), written);
    ghost var sofar := BorrowHead(cells) + written;
    out.Extend(BorrowTest(cells));
    Assoc(old(out.lines), sofar, BorrowTest(cells));
    sofar := sofar + BorrowTest(cells);
    out.Extend([Skiz, Call(search)]);
    Assoc(old(out.lines), sofar, [Skiz, Call(search)]);
    sofar := sofar + [Skiz, Call(search)];
    out.Extend(BorrowTail(cells));
    Assoc(old(out.lines), sofar, BorrowTail(cells));
  }

  method CheckBlock(chunk: nat, out: Output)
    modifies out
    ensures out.lines == old(out.lines) + CheckChunk(chunk)
  {
    out.Extend([Instr.ReadMem(chunk), Instr.Swap(chunk + 1)]);
    Repeat([Instr.Swap(1), Instr.Push(0), Eq, Add], chunk, out);
    out.Push(Instr.Swap(1));
    Assoc(old(out.lines), [Instr.ReadMem(chunk), Instr.Swap(chunk + 1)], CountCode(chunk));
    Assoc(old(out.lines), [Instr.ReadMem(chunk), Instr.Swap(chunk + 1)] + CountCode(chunk), [Instr.Swap(1)]);
  }

  // ----- restoring -----

  function ZerosCode(n: nat): seq<Instr> {
    RepeatCode([Instr.Push(0)], n)
  }

  function RestoreChunk(n: nat): seq<Instr> {
    [Instr.ReadMem(n)] + ZerosCode(n) + [Instr.Dup(n), Instr.Push(1), Add, Instr.WriteMem(n), Instr.Pop(1)]
  }

  /** Reads `count` words backwards from the pointer on top and zeroes exactly those cells. */
  function RestoreCode(count: nat): seq<Instr> {
    if count == 0 then [] else RestoreChunk(Least(count, 5)) + RestoreCode(count - Least(count, 5))
  }

  method Restore(count: nat, out: Output)
    modifies out
    ensures out.lines == old(out.lines) + RestoreCode(count)
  {
    ghost var written := [];
    var remaining: nat := count;
    while remaining > 0
      invariant remaining <= count
      invariant out.lines == old(out.lines) + written
      invariant written + RestoreCode(remaining) == RestoreCode(count)
    {
      var chunk := Least(remaining, 5);
      RestoreBlock(chunk, out);
      remaining := remaining - chunk;
      Assoc(old(out.lines), written, RestoreChunk(chunk));
      Assoc(written, RestoreChunk(chunk), RestoreCode(remaining));
      written := written + RestoreChunk(chunk);
    }
  }

  method RestoreBlock(chunk: nat, out: Output)
    modifies out
    ensures out.lines == old(out.lines) + RestoreChunk(chunk)
  {
    out.Push(Instr.ReadMem(chunk));
    Repeat([Instr.Push(0)], chunk, out);
    ghost var tail := [Instr.Dup(chunk), Instr.Push(1), Add, Instr.WriteMem(chunk), Instr.Pop(1)];
    out.Extend([Instr.Dup(chunk), Instr.Push(1), Add, Instr.WriteMem(chunk), Instr.Pop(1)]);
    Assoc(old(out.lines), [Instr.ReadMem(chunk)], ZerosCode(chunk));
    Assoc(old(out.lines), [Instr.ReadMem(chunk)] + ZerosCode(chunk), tail);
  }

  // ----- access -----

  /** Words moved to memory so that the wanted one lies within the native window. */
  function Spilled(depth: nat, duplicate: bool): nat
    requires depth >= 16
  {
    depth - if duplicate then 14 else 13
  }

  function CellsFor(depth: nat, duplicate: bool): nat
    requires depth >= 16
  {
    Spilled(depth, duplicate) + if duplicate then 1 else 0
  }

  function DupSave(): seq<Instr> {
    [Instr.Dup(15), Instr.Swap(1), Instr.WriteMem(1), Instr.Push(Lit(-2)), Add]
  }

  function Offset(n: int): seq<Instr> {
    [Instr.Push(Lit(n)), Add]
  }

  /** With the first words spilled: copy the wanted word behind them, restore them, reload the copy. */
  function DupCode(spilled: nat): seq<Instr> {
    DupSave() + RestoreCode(spilled) + Offset(spilled + 1) + RestoreCode(1)
  }

  function SwapExchange(spilled: nat): seq<Instr> {
    [Instr.Dup(0)] + Offset(0 - spilled) + [Instr.ReadMem(1), Instr.Pop(1), Instr.Swap(15)]
  }

  function SwapStore(spilled: nat): seq<Instr> {
    [Instr.Dup(1)] + Offset(0 - spilled) + [Instr.WriteMem(1), Instr.Pop(1), Instr.Push(Lit(-1)), Add]
  }

  /** With the first words spilled: exchange the first of them with the wanted word, then restore. */
  function SwapCode(spilled: nat): seq<Instr> {
    SwapExchange(spilled) + SwapStore(spilled) + RestoreCode(spilled)
  }

  function DeepCode(depth: nat, duplicate: bool, search: string): seq<Instr>
    requires depth >= 16
  {
    var spilled := Spilled(depth, duplicate);
    BorrowCode(CellsFor(depth, duplicate), search) + BatchCode(WriteMemOp, spilled)
    + (if duplicate then DupCode(spilled) else SwapCode(spilled)) + [Instr.Pop(1)]
  }

  function AccessCode(depth: nat, duplicate: bool, search: string): seq<Instr> {
    if depth >= 16 then DeepCode(depth, duplicate, search)
    else if duplicate then [Instr.Dup(depth)]
    else if depth > 0 then [Instr.Swap(depth)]
    else []
  }

  method Access(depth: nat, duplicate: bool, search: string, out: Output)
    modifies out
    ensures out.lines == old(out.lines) + AccessCode(depth, duplicate, search)
  {
    if depth < 16 {
      if duplicate || depth > 0 {
        out.Push(if duplicate then Instr.Dup(depth) else Instr.Swap(depth));
      }
      return;
    }
    var spilled: nat := depth - if duplicate then 14 else 13;
    var cells: nat := spilled + if duplicate then 1 else 0;
    Borrow(cells, search, out);
    ghost var written := BorrowCode(cells, search);
    Batch(WriteMemOp, spilled, out);
    Assoc(old(out.lines), written, BatchCode(WriteMemOp, spilled));
    written := written + BatchCode(WriteMemOp, spilled);
    if duplicate {
      ReloadDuplicate(spilled, out);
      Assoc(old(out.lines), written, DupCode(spilled));
      written := written + DupCode(spilled);
    } else {
      ExchangeSpilled(spilled, out);
      Assoc(old(out.lines), written, SwapCode(spilled));
      written := written + SwapCode(spilled);
    }
    out.Push(Instr.Pop(1));
    Assoc(old(out.lines), written, [Instr.Pop(1)]);
  }

  method ReloadDuplicate(spilled: nat, out: Output)
    modifies out
    ensures out.lines == old(out.lines) + DupCode(spilled)
  {
    out.Extend([Instr.Dup(15), Instr.Swap(1), Instr.WriteMem(1), Instr.Push(Lit(-2)), Add]);
    Restore(spilled, out);
    Assoc(old(out.lines), DupSave(), RestoreCode(spilled));
    ghost var written := DupSave() + RestoreCode(spilled);
    out.Extend([Instr.Push(Lit(spilled + 1)), Add]);
    Assoc(old(out.lines), written, Offset(spilled + 1));
    written := written + Offset(spilled + 1);
    Restore(1, out);
    Assoc(old(out.lines), written, RestoreCode(1));
  }

  method ExchangeSpilled(spilled: nat, out: Output)
    modifies out
    ensures out.lines == old(out.lines) + SwapCode(spilled)
  {
    out.Extend([Instr.Dup(0), Instr.Push(Lit(0 - spilled)), Add, Instr.ReadMem(1), Instr.Pop(1), Instr.Swap(15)]);
    assert out.lines == old(out.lines) + SwapExchange(spilled);
    out.Extend([Instr.Dup(1), Instr.Push(Lit(0 - spilled)), Add, Instr.WriteMem(1), Instr.Pop(1), Instr.Push(Lit(-1)), Add]);
    assert [Instr.Dup(1), Instr.Push(Lit(0 - spilled)), Add, Instr.WriteMem(1), Instr.Pop(1), Instr.Push(Lit(-1)), Add] == SwapStore(spilled);
    Assoc(old(out.lines), SwapExchange(spilled), SwapStore(spilled));
    Restore(spilled, out);
    Assoc(old(out.lines), SwapExchange(spilled) + SwapStore(spilled), RestoreCode(spilled));
  }

  // ----- searching for zero cells -----

  function ScanLabel(label0: string): string {
    label0 + "__scan"
  }

  function SearchCode(label0: string): seq<Instr> {
    [Instr.Pop(2), Instr.Push(0), Instr.Push(0), Call(ScanLabel(label0)), Return]
  }

  /** (required, cursor, length) -> (required, cursor, new length) */
  function ScanLook(): seq<Instr> {
    [Instr.Dup(1), Instr.ReadMem(1), Instr.Pop(1), Instr.Push(0), Eq]
    + [Instr.Swap(1), Instr.Push(1), Add, Mul]
  }

  function ScanCompare(): seq<Instr> {
    [Instr.Dup(0), Instr.Dup(3), Eq]
  }

  function ScanAdvance(): seq<Instr> {
    [Instr.Swap(1), Instr.Push(1), Add] + [Instr.Dup(0), Instr.Push(0), Eq, Instr.Push(0), Eq]
  }

  function ScanCode(): seq<Instr> {
    ScanLook() + ScanCompare() + [Skiz, Return] + ScanAdvance() + [Assert, Instr.Swap(1), Recurse]
  }

  method Scan(name: string, out: Output)
    modifies out
    ensures out.lines == old(out.lines) + ([Label(name)] + ScanCode())
  {
    out.Push(Label(name));
    out.Extend([
      Instr.Dup(1), Instr.ReadMem(1), Instr.Pop(1), Instr.Push(0), Eq, Instr.Swap(1), Instr.Push(1), Add, Mul,
      Instr.Dup(0), Instr.Dup(3), Eq, Skiz, Return,
      Instr.Swap(1), Instr.Push(1), Add, Instr.Dup(0), Instr.Push(0), Eq, Instr.Push(0), Eq, Assert,
      Instr.Swap(1), Recurse]);
  }

  method Search(name: string, out: Output)
    modifies out
    ensures out.lines == old(out.lines) + ([Label(name)] + SearchCode(name) + [Label(ScanLabel(name))] + ScanCode())
  {
    out.Push(Label(name));
    out.Extend([Instr.Pop(2), Instr.Push(0), Instr.Push(0)]);
    out.Push(Call(ScanLabel(name)));
    out.Push(Return);
    Scan(ScanLabel(name), out);
  }
}
