/** Runs of Dup, Swap and Pop, performed as one shuffle of a block held in borrowed memory. */
module Sequence {
  import opened Words
  import opened Machine
  import opened Legalize
  import opened Tir
  import opened Permute

  /** `order` names the original words, bottom first, in their final order, bottom first. */
  datatype Shuffle = Shuffle(consumed: nat, width: nat, order: seq<nat>)

  const MAX_OPS: nat := 1024
  const MAX_WORDS: int := 4096

  function Fifths(n: nat): (m: nat)
    ensures n <= 5 * m < n + 5
  {
    (n + 4) / 5
  }

  // ----- measuring a run -----

  datatype Survey = Survey(required: nat, balance: int, consumed: nat, cost: nat, deep: bool)

  const Start := Survey(0, 0, 0, 0, false)

  function OpCost(op: TIROp): nat
    requires IsStackOp(op)
  {
    match op
    case Dup(d) => if d < 16 then 1 else 16 + 5 * (d - 13) + 7 * Fifths(d - 13)
    case Swap(d) => if d < 16 then if d != 0 then 1 else 0 else 16 + 5 * (d - 13) + 7 * Fifths(d - 13)
    case Pop(n) => Fifths(n)
  }

  function Count(m: Survey, op: TIROp): Survey
    requires IsStackOp(op)
  {
    var lack := Need(op) - m.balance;
    Survey(if lack > m.required then lack else m.required, m.balance + Change(op), m.consumed + 1,
           m.cost + OpCost(op), m.deep || (!op.Pop? && op.d >= 16))
  }

  predicate TooWide(m: Survey) {
    m.required > MAX_WORDS || m.required + m.balance > MAX_WORDS
  }

  /** None if the run needs more words than a shuffle may hold. */
  function Measure(ops: seq<TIROp>, m: Survey): Option<Survey>
    decreases |ops|
  {
    if ops == [] || m.consumed >= MAX_OPS || !IsStackOp(ops[0]) then Some(m)
    else if TooWide(Count(m, ops[0])) then None
    else Measure(ops[1..], Count(m, ops[0]))
  }

  // ----- following the words -----

  /** A stack operation on a bottom-first list of word names. */
  function Follow(op: TIROp, order: seq<nat>): seq<nat>
    requires IsStackOp(op) && Need(op) <= |order|
  {
    match op
    case Dup(d) => order + [order[|order| - 1 - d]]
    case Swap(d) => Exchange(order, |order| - 1, |order| - 1 - d)
    case Pop(n) => order[..|order| - n]
  }

  /** Every operation finds the words it reaches for. */
  predicate Fits(ops: seq<TIROp>, size: int)
    decreases |ops|
  {
    ops == [] || (IsStackOp(ops[0]) && Need(ops[0]) <= size && Fits(ops[1..], size + Change(ops[0])))
  }

  function FollowAll(ops: seq<TIROp>, order: seq<nat>): seq<nat>
    requires Fits(ops, |order|)
    decreases |ops|
  {
    if ops == [] then order else FollowAll(ops[1..], Follow(ops[0], order))
  }

  /** The measured requirement is enough for every operation of the run. */
  lemma {:induction false} Measured(ops: seq<TIROp>, m: Survey)
    requires Measure(ops, m).Some?
    ensures var r := Measure(ops, m).value;
      && m.consumed <= r.consumed <= m.consumed + |ops|
      && m.required <= r.required
      && Fits(ops[..r.consumed - m.consumed], r.required + m.balance)
    decreases |ops|
  {
    var r := Measure(ops, m).value;
    if ops == [] || m.consumed >= MAX_OPS || !IsStackOp(ops[0]) {
    } else {
      Measured(ops[1..], Count(m, ops[0]));
      var k := r.consumed - m.consumed;
      assert ops[..k][1..] == ops[1..][..k - 1];
    }
  }

  // ----- leaving an untouched prefix in place -----

  function Uses(order: seq<nat>, index: nat): nat {
    multiset(order)[index]
  }

  /** The length of the longest prefix of words that stay where they are and are used nowhere else. */
  function Prefix(order: seq<nat>, from: nat): (k: nat)
    requires from <= |order|
    ensures from <= k <= |order|
    ensures forall i :: from <= i < k ==> order[i] == i && Uses(order, i) == 1
    ensures k == |order| || order[k] != k || Uses(order, k) != 1
    decreases |order| - from
  {
    if from < |order| && order[from] == from && Uses(order, from) == 1 then Prefix(order, from + 1) else from
  }

  predicate Below(order: seq<nat>, n: nat) {
    forall i :: 0 <= i < |order| ==> order[i] < n
  }

  lemma TwiceCounted<T>(s: seq<T>, i: nat, j: nat)
    requires i < j < |s| && s[i] == s[j]
    ensures multiset(s)[s[i]] >= 2
  {
    var front, back := s[..j], s[j..];
    assert s == front + back;
    assert front[i] in multiset(front) && back[0] in multiset(back);
  }

  /** No word of the prefix is wanted later, so the later indices can be counted from its end. */
  lemma PrefixIsPrivate(order: seq<nat>, k: nat, i: nat)
    requires k == Prefix(order, 0) && k <= i < |order|
    ensures order[i] >= k
  {
    if order[i] < k {
      TwiceCounted(order, order[i], i);
    }
  }

  lemma PrefixIsInside(order: seq<nat>, n: nat)
    requires Below(order, n)
    ensures Prefix(order, 0) <= n
  {
    var k := Prefix(order, 0);
    if k > 0 {
      assert order[k - 1] == k - 1;
    }
  }

  lemma FollowsBelow(op: TIROp, order: seq<nat>, n: nat)
    requires IsStackOp(op) && Need(op) <= |order| && Below(order, n)
    ensures Below(Follow(op, order), n)
  {}

  lemma {:induction false} FollowsAllBelow(ops: seq<TIROp>, order: seq<nat>, n: nat)
    requires Fits(ops, |order|) && Below(order, n)
    ensures Below(FollowAll(ops, order), n)
    decreases |ops|
  {
    if ops != [] {
      FollowsBelow(ops[0], order, n);
      FollowsAllBelow(ops[1..], Follow(ops[0], order), n);
    }
  }

  // ----- the code of a shuffle -----

  function LoadCode(width: nat, index: nat): seq<Instr>
    requires index < width
  {
    var offset := width - 1 - index;
    [Instr.Dup(0)] + (if offset != 0 then Offset(offset) else []) + [Instr.ReadMem(1), Instr.Pop(1), Instr.Swap(1)]
  }

  function LoadsCode(width: nat, order: seq<nat>): seq<Instr>
    requires Below(order, width)
    decreases |order|
  {
    if order == [] then [] else LoadCode(width, order[0]) + LoadsCode(width, order[1..])
  }

  function ClearChunk(n: nat): seq<Instr> {
    ZerosCode(n) + [Instr.Swap(n), Instr.WriteMem(n)]
  }

  function ClearCode(n: nat): seq<Instr> {
    if n == 0 then [] else ClearChunk(Least(n, 5)) + ClearCode(n - Least(n, 5))
  }

  /** Spills the block, loads the words in their final order, clears the block. */
  function ShuffleCode(width: nat, order: seq<nat>, search: string): seq<Instr>
    requires Below(order, width)
  {
    BorrowCode(width, search) + BatchCode(WriteMemOp, width) + Offset(0 - width)
    + LoadsCode(width, order) + ClearCode(width) + [Instr.Pop(1)]
  }

  // ----- the plan -----

  /** The order beyond the first `k` words, counted from there. */
  function Trim(order: seq<nat>, k: nat): (r: seq<nat>)
    requires k <= |order| && forall i :: k <= i < |order| ==> order[i] >= k
    ensures |r| == |order| - k && forall i :: 0 <= i < |r| ==> r[i] == order[k + i] - k
  {
    seq(|order| - k, i requires 0 <= i < |order| - k => order[k + i] - k)
  }

  /** The final order of the words of a measured run, none of them from below the measured depth. */
  function FinalOrder(ops: seq<TIROp>, m: Survey): (order: seq<nat>)
    requires Measure(ops, Start) == Some(m)
    ensures Below(order, m.required)
  {
    Measured(ops, Start);
    FollowsAllBelow(ops[..m.consumed], Identity(m.required), m.required);
    FollowAll(ops[..m.consumed], Identity(m.required))
  }

  /** The shuffle for a final order, with its untouched prefix left on the stack. */
  function Candidate(order: seq<nat>, m: Survey): (c: Shuffle)
    requires Below(order, m.required)
    ensures Below(c.order, c.width)
  {
    var k := Prefix(order, 0);
    PrefixIsInside(order, m.required);
    assert forall i :: k <= i < |order| ==> order[i] >= k by {
      forall i | k <= i < |order| ensures order[i] >= k { PrefixIsPrivate(order, k, i); }
    }
    Shuffle(m.consumed, m.required - k, Trim(order, k))
  }

  function PlanOf(ops: seq<TIROp>): (plan: Option<Shuffle>)
    ensures plan.Some? ==> Below(plan.value.order, plan.value.width) && 2 <= plan.value.consumed <= |ops|
  {
    var measured := Measure(ops, Start);
    if measured.None? || !measured.value.deep || measured.value.consumed < 2 then None else
    Measured(ops, Start);
    var order := FinalOrder(ops, measured.value);
    var c := Candidate(order, measured.value);
    if order == [] || c.width == 0 || |ShuffleCode(c.width, c.order, "__scratch")| >= measured.value.cost then None
    else Some(c)
  }

  // ----- planning -----

  /** The first loop: how deep the run reaches, what it costs, where it ends. */
  method SurveyRun(ops: seq<TIROp>) returns (r: Option<Survey>)
    ensures r == Measure(ops, Start)
  {
    var m := Start;
    var k: nat := 0;
    while k < |ops| && k < MAX_OPS && IsStackOp(ops[k])
      invariant k <= |ops| && m.consumed == k
      invariant Measure(ops[k..], m) == Measure(ops, Start)
    {
      assert ops[k..][0] == ops[k] && ops[k..][1..] == ops[k + 1..];
      m := Count(m, ops[k]);
      if TooWide(m) {
        return None;
      }
      k := k + 1;
    }
    assert k < |ops| ==> ops[k..][0] == ops[k];
    return Some(m);
  }

  /** The second loop: follows the words through the run. */
  method FollowRun(ops: seq<TIROp>, required: nat) returns (order: seq<nat>)
    requires Fits(ops, required)
    ensures order == FollowAll(ops, Identity(required))
  {
    order := Identity(required);
    for k := 0 to |ops|
      invariant Fits(ops[k..], |order|)
      invariant FollowAll(ops[k..], order) == FollowAll(ops, Identity(required))
    {
      FollowsFirst(ops, k, order);
      order := FollowOp(ops[k], order);
    }
  }

  method FollowOp(op: TIROp, words: seq<nat>) returns (order: seq<nat>)
    requires IsStackOp(op) && Need(op) <= |words|
    ensures order == Follow(op, words)
  {
    order := words;
    match op
    case Dup(depth) => order := order + [order[|order| - 1 - depth]];
    case Swap(depth) =>
      var top := |order| - 1;
      order := order[top := order[top - depth]][top - depth := order[top]];
    case Pop(count) => order := order[..|order| - count];
  }

  lemma FollowsFirst(ops: seq<TIROp>, k: nat, order: seq<nat>)
    requires k < |ops| && Fits(ops[k..], |order|)
    ensures IsStackOp(ops[k]) && Need(ops[k]) <= |order|
    ensures var next := Follow(ops[k], order);
      Fits(ops[k + 1..], |next|) && FollowAll(ops[k..], order) == FollowAll(ops[k + 1..], next)
  {
    assert ops[k..][0] == ops[k] && ops[k..][1..] == ops[k + 1..];
  }

  method CountUses(order: seq<nat>, required: nat) returns (uses: seq<nat>)
    requires Below(order, required)
    ensures |uses| == required && forall i :: 0 <= i < required ==> uses[i] == Uses(order, i)
  {
    uses := Zeroes(required);
    for k := 0 to |order|
      invariant |uses| == required
      invariant forall i :: 0 <= i < required ==> uses[i] == Uses(order[..k], i)
    {
      assert order[..k + 1] == order[..k] + [order[k]];
      uses := uses[order[k] := uses[order[k]] + 1];
    }
    assert order[..|order|] == order;
  }

  function Zeroes(n: nat): (r: seq<nat>)
    ensures |r| == n && forall i :: 0 <= i < n ==> r[i] == 0
  {
    seq(n, _ => 0)
  }

  method Plan(ops: seq<TIROp>) returns (plan: Option<Shuffle>)
    ensures plan == PlanOf(ops)
  {
    var surveyed := SurveyRun(ops);
    if surveyed.None? {
      return None;
    }
    var m := surveyed.value;
    if !m.deep || m.consumed < 2 {
      return None;
    }
    Measured(ops, Start);
    var order := FollowRun(ops[..m.consumed], m.required);
    assert order == FinalOrder(ops, m);
    if order == [] {
      return None;
    }
    var uses := CountUses(order, m.required);
    var k: nat := 0;
    while k < |order| && order[k] == k && uses[order[k]] == 1
      invariant k <= |order| && Prefix(order, k) == Prefix(order, 0)
    {
      k := k + 1;
    }
    var c := Candidate(order, m);
    if c.width == 0 {
      return None;
    }
    var candidate := new Output();
    EmitShuffle(c, "__scratch", candidate);
    if |candidate.lines| < m.cost {
      return Some(c);
    }
    return None;
  }

  method EmitShuffle(plan: Shuffle, search: string, out: Output)
    requires Below(plan.order, plan.width)
    modifies out
    ensures out.lines == old(out.lines) + ShuffleCode(plan.width, plan.order, search)
  {
    var width := plan.width;
    Borrow(width, search, out);
    ghost var written := BorrowCode(width, search);
    Batch(WriteMemOp, width, out);
    Assoc(old(out.lines), written, BatchCode(WriteMemOp, width));
    written := written + BatchCode(WriteMemOp, width);
    out.Extend([Instr.Push(Lit(0 - plan.width)), Instr.Add]);
    Assoc(old(out.lines), written, Offset(0 - plan.width));
    written := written + Offset(0 - plan.width);
    EmitLoads(width, plan.order, out);
    Assoc(old(out.lines), written, LoadsCode(width, plan.order));
    written := written + LoadsCode(width, plan.order);
    EmitClear(width, out);
    Assoc(old(out.lines), written, ClearCode(width));
    written := written + ClearCode(width);
    out.Push(Instr.Pop(1));
    Assoc(old(out.lines), written, [Instr.Pop(1)]);
  }

  method EmitLoads(width: nat, order: seq<nat>, out: Output)
    requires Below(order, width)
    modifies out
    ensures out.lines == old(out.lines) + LoadsCode(width, order)
  {
    ghost var written := [];
    for k := 0 to |order|
      invariant out.lines == old(out.lines) + written
      invariant written + LoadsCode(width, order[k..]) == LoadsCode(width, order)
    {
      var index := order[k];
      ghost var before := out.lines;
      out.Push(Instr.Dup(0));
      var offset: nat := width - 1 - index;
      if offset != 0 {
        out.Extend([Instr.Push(Lit(offset)), Instr.Add]);
      }
      out.Extend([Instr.ReadMem(1), Instr.Pop(1), Instr.Swap(1)]);
      assert out.lines == before + LoadCode(width, index);
      assert order[k..][0] == index && order[k..][1..] == order[k + 1..];
      Assoc(old(out.lines), written, LoadCode(width, index));
      Assoc(written, LoadCode(width, index), LoadsCode(width, order[k + 1..]));
      written := written + LoadCode(width, index);
    }
  }

  method EmitClear(width: nat, out: Output)
    modifies out
    ensures out.lines == old(out.lines) + ClearCode(width)
  {
    ghost var written := [];
    var remaining: nat := width;
    while remaining > 0
      invariant remaining <= width
      invariant out.lines == old(out.lines) + written
      invariant written + ClearCode(remaining) == ClearCode(width)
    {
      var count := Least(remaining, 5);
      ghost var before := out.lines;
      Repeat([Instr.Push(0)], count, out);
      out.Extend([Instr.Swap(count), Instr.WriteMem(count)]);
      Assoc(before, ZerosCode(count), [Instr.Swap(count), Instr.WriteMem(count)]);
      remaining := remaining - count;
      Assoc(old(out.lines), written, ClearChunk(count));
      Assoc(written, ClearChunk(count), ClearCode(remaining));
      written := written + ClearChunk(count);
    }
  }
}
