/** Swap programs that reorder the top of the stack, and the block memory operations built from them. */
module Permute {
  import opened Words
  import opened Machine
  import opened Legalize

  /** `order` names each of 0, ..., |order| - 1 exactly once. */
  predicate IsPermutation(order: seq<nat>) {
    (forall v: nat :: v < |order| ==> v in order)
    && (forall i, j :: 0 <= i < j < |order| ==> order[i] != order[j])
    && (forall i :: 0 <= i < |order| ==> order[i] < |order|)
  }

  /** The words of `block` (bottom first) in the order that `order` asks for. */
  function Permuted<T>(block: seq<T>, order: seq<nat>): (r: seq<T>)
    requires forall i :: 0 <= i < |order| ==> order[i] < |block|
    ensures |r| == |order|
  {
    seq(|order|, i requires 0 <= i < |order| => block[order[i]])
  }

  /** A bottom-first block after `swap (top - index)`; index = top means no instruction. */
  function SwapWithTop<T>(block: seq<T>, index: nat): (r: seq<T>)
    requires index < |block|
    ensures |r| == |block|
  {
    var top := |block| - 1;
    block[top := block[index]][index := block[top]]
  }

  /** The effect of swaps on a bottom-first block, whatever their distances. */
  function Swaps<T>(code: seq<Instr>, block: seq<T>): (r: seq<T>)
    requires InBlock(code, |block|)
    ensures |r| == |block|
  {
    if code == [] then block else Swaps(code[1..], SwapWithTop(block, |block| - 1 - code[0].d))
  }

  predicate InBlock(code: seq<Instr>, n: nat) {
    forall k :: 0 <= k < |code| ==> code[k].Swap? && 1 <= code[k].d < n
  }

  function SwapLine(index: nat, top: nat): seq<Instr>
    requires index <= top
  {
    if index == top then [] else [Instr.Swap(top - index)]
  }

  function ExchangeLines(found: nat, position: nat, top: nat): seq<Instr>
    requires found <= top && position <= top
  {
    SwapLine(found, top) + SwapLine(position, top) + SwapLine(found, top)
  }

  function IndexOf(s: seq<nat>, v: nat): (i: nat)
    requires v in s
    ensures i < |s| && s[i] == v && v !in s[..i]
  {
    if s[0] == v then 0 else 1 + IndexOf(s[1..], v)
  }

  function Exchange<T>(s: seq<T>, i: nat, j: nat): (r: seq<T>)
    requires i < |s| && j < |s|
    ensures |r| == |s|
  {
    s[i := s[j]][j := s[i]]
  }

  /** The first `position` words are in place; `current` says where each word now is. */
  ghost predicate Placed(order: seq<nat>, current: seq<nat>, position: nat) {
    IsPermutation(order) && IsPermutation(current) && |current| == |order| && position <= |order|
    && forall k :: 0 <= k < position ==> current[k] == order[k]
  }

  /** Where the words are once position `position` is filled too, and the lines that fill it. */
  function NextPlaces(order: seq<nat>, current: seq<nat>, position: nat): (next: seq<nat>)
    requires Placed(order, current, position) && position < |order|
    ensures Placed(order, next, position + 1)
  {
    PlaceNext(order, current, position);
    Exchange(current, IndexOf(current, order[position]), position)
  }

  function NextLines(order: seq<nat>, current: seq<nat>, position: nat): seq<Instr>
    requires Placed(order, current, position) && position < |order|
  {
    var found := IndexOf(current, order[position]);
    if found == position then [] else ExchangeLines(found, position, |order| - 1)
  }

  function PermuteFrom(order: seq<nat>, current: seq<nat>, position: nat): seq<Instr>
    requires Placed(order, current, position)
    decreases |order| - position
  {
    if position == |order| then [] else
    NextLines(order, current, position) + PermuteFrom(order, NextPlaces(order, current, position), position + 1)
  }

  lemma PlaceNext(order: seq<nat>, current: seq<nat>, position: nat)
    requires Placed(order, current, position) && position < |order|
    ensures var found := IndexOf(current, order[position]);
      position <= found && Placed(order, Exchange(current, found, position), position + 1)
  {
    var found := IndexOf(current, order[position]);
    var next := Exchange(current, found, position);
    forall v: nat | v < |order|
      ensures v in next
    {
      var k := IndexOf(current, v);
      assert next[if k == found then position else if k == position then found else k] == v;
    }
  }

  function Identity(n: nat): (r: seq<nat>)
    ensures |r| == n && IsPermutation(r)
  {
    var r := seq(n, i requires 0 <= i < n => i);
    assert forall v: nat | v < n :: v in r by {
      forall v: nat | v < n ensures v in r { assert r[v] == v; }
    }
    r
  }

  function PermuteCode(order: seq<nat>): seq<Instr>
    requires IsPermutation(order)
  {
    PermuteFrom(order, Identity(|order|), 0)
  }

  // ----- the swaps realise the permutation -----

  lemma {:induction false} SwapsCat<T>(a: seq<Instr>, b: seq<Instr>, block: seq<T>)
    requires InBlock(a, |block|) && InBlock(b, |block|)
    ensures InBlock(a + b, |block|) && Swaps(a + b, block) == Swaps(b, Swaps(a, block))
    decreases |a|
  {
    if a == [] {
      assert a + b == b;
    } else {
      assert (a + b)[1..] == a[1..] + b;
      SwapsCat(a[1..], b, SwapWithTop(block, |block| - 1 - a[0].d));
    }
  }

  lemma LineSwaps<T>(block: seq<T>, index: nat)
    requires index < |block|
    ensures var line := SwapLine(index, |block| - 1);
      InBlock(line, |block|) && Swaps(line, block) == SwapWithTop(block, index)
  {
    hide Swaps;
    if index < |block| - 1 {
      SwapsOne(Instr.Swap(|block| - 1 - index), block);
    } else {
      SwapsNothing(block);
      assert SwapWithTop(block, index) == block;
    }
  }

  lemma SwapsOne<T>(i: Instr, block: seq<T>)
    requires InBlock([i], |block|)
    ensures i.Swap? && 1 <= i.d < |block| && Swaps([i], block) == SwapWithTop(block, |block| - 1 - i.d)
  {
    hide SwapWithTop;
    assert [i][0] == i && [i][1..] == [];
  }

  lemma ThroughTop<T>(block: seq<T>, found: nat, position: nat)
    requires position < found < |block|
    ensures SwapWithTop(SwapWithTop(SwapWithTop(block, found), position), found) == Exchange(block, found, position)
  {}

  lemma LineAfter<T>(code: seq<Instr>, block: seq<T>, index: nat)
    requires InBlock(code, |block|) && index < |block|
    ensures var line := SwapLine(index, |block| - 1);
      InBlock(code + line, |block|) && Swaps(code + line, block) == SwapWithTop(Swaps(code, block), index)
  {
    hide Swaps, SwapWithTop, InBlock, SwapLine;
    LineSwaps(block, index);
    LineSwaps(Swaps(code, block), index);
    SwapsCat(code, SwapLine(index, |block| - 1), block);
  }

  /** Going through the top twice exchanges two words and leaves the top as it was. */
  lemma LinesExchange<T>(block: seq<T>, found: nat, position: nat)
    requires position < found < |block|
    ensures var lines := ExchangeLines(found, position, |block| - 1);
      InBlock(lines, |block|) && Swaps(lines, block) == Exchange(block, found, position)
  {
    hide Swaps, SwapWithTop, Exchange, InBlock, SwapLine;
    var top := |block| - 1;
    LineSwaps(block, found);
    LineAfter(SwapLine(found, top), block, position);
    LineAfter(SwapLine(found, top) + SwapLine(position, top), block, found);
    ThroughTop(block, found, position);
  }

  lemma ExchangePermuted<T>(block: seq<T>, current: seq<nat>, i: nat, j: nat)
    requires i < |current| && j < |current| && forall k :: 0 <= k < |current| ==> current[k] < |block|
    ensures Exchange(Permuted(block, current), i, j) == Permuted(block, Exchange(current, i, j))
  {}

  lemma LinesPlace<T>(order: seq<nat>, current: seq<nat>, position: nat, block: seq<T>)
    requires Placed(order, current, position) && position < |order| == |block|
    ensures var lines := NextLines(order, current, position);
      InBlock(lines, |order|) && Swaps(lines, Permuted(block, current)) == Permuted(block, NextPlaces(order, current, position))
  {
    hide Swaps, ExchangeLines;
    var found := IndexOf(current, order[position]);
    PlaceNext(order, current, position);
    var was := Permuted(block, current);
    if found == position {
      SwapsNothing(was);
      assert Exchange(current, found, position) == current;
    } else {
      LinesExchange(was, found, position);
      ExchangePermuted(block, current, found, position);
    }
  }

  lemma SwapsNothing<T>(block: seq<T>)
    ensures Swaps([], block) == block
  {}

  lemma AllPlaced(order: seq<nat>, current: seq<nat>)
    requires Placed(order, current, |order|)
    ensures current == order && InBlock([], |order|)
  {}

  lemma PermuteFromStarts(order: seq<nat>, current: seq<nat>, position: nat)
    requires Placed(order, current, position)
    ensures position <= |order|
    ensures PermuteFrom(order, current, position) ==
      if position == |order| then []
      else NextLines(order, current, position) + PermuteFrom(order, NextPlaces(order, current, position), position + 1)
  {}

  lemma InBlockCat(a: seq<Instr>, b: seq<Instr>, size: nat)
    requires InBlock(a, size) && InBlock(b, size)
    ensures InBlock(a + b, size)
  {}

  lemma {:induction false} PermutesFrom<T>(order: seq<nat>, current: seq<nat>, position: nat, block: seq<T>)
    requires Placed(order, current, position) && |block| == |order|
    ensures var code := PermuteFrom(order, current, position);
      InBlock(code, |order|) && Swaps(code, Permuted(block, current)) == Permuted(block, order)
    decreases |order| - position
  {
    hide Swaps, NextLines, NextPlaces, Permuted, InBlock, PermuteFrom;
    PermuteFromStarts(order, current, position);
    if position == |order| {
      AllPlaced(order, current);
      SwapsNothing(Permuted(block, current));
    } else {
      var next := NextPlaces(order, current, position);
      PlaceNext(order, current, position);
      LinesPlace(order, current, position, block);
      PermutesFrom(order, next, position + 1, block);
      InBlockCat(NextLines(order, current, position), PermuteFrom(order, next, position + 1), |order|);
      SwapsCat(NextLines(order, current, position), PermuteFrom(order, next, position + 1), Permuted(block, current));
    }
  }

  /** Any permutation of any length is realised, by swaps that reach at most to the bottom of the block. */
  lemma Permutes<T>(order: seq<nat>, block: seq<T>)
    requires IsPermutation(order) && |block| == |order|
    ensures InBlock(PermuteCode(order), |order|) && Swaps(PermuteCode(order), block) == Permuted(block, order)
  {
    hide Swaps, PermuteFrom;
    PermutesFrom(order, Identity(|order|), 0, block);
    assert Permuted(block, Identity(|order|)) == block;
  }

  // ----- on the machine -----

  lemma SwapOnStack(s: State, block: seq<Word>, d: nat, rest: seq<Word>)
    requires s.stack == Rev(block) + rest && 1 <= d < |block| <= 16
    ensures Basic(Instr.Swap(d), s) == Some(WithStack(s, Rev(SwapWithTop(block, |block| - 1 - d)) + rest))
  {
    assert SwapTop(s.stack, d) == Rev(SwapWithTop(block, |block| - 1 - d)) + rest;
  }

  lemma {:induction false} SwapsOnStack(s: State, code: seq<Instr>, block: seq<Word>, rest: seq<Word>)
    requires s.stack == Rev(block) + rest && |block| <= 16 && InBlock(code, |block|)
    ensures Exec(code, s) == Some(WithStack(s, Rev(Swaps(code, block)) + rest))
    decreases |code|
  {
    hide Basic;
    if code != [] {
      var block1 := SwapWithTop(block, |block| - 1 - code[0].d);
      SwapOnStack(s, block, code[0].d, rest);
      SwapsOnStack(WithStack(s, Rev(block1) + rest), code[1..], block1, rest);
    }
  }

  /** Within the native window the permutation happens on the operand stack, leaving the rest of it alone. */
  lemma PermutesStack(s: State, order: seq<nat>, block: seq<Word>, rest: seq<Word>)
    requires IsPermutation(order) && |block| == |order| <= 16 && s.stack == Rev(block) + rest
    ensures Exec(PermuteCode(order), s) == Some(WithStack(s, Rev(Permuted(block, order)) + rest))
  {
    Permutes(order, block);
    SwapsOnStack(s, PermuteCode(order), block, rest);
  }

  // ----- emitting -----

  /** For an empty order nothing is emitted; the source's index of the top wraps around there and is not used. */
  method Emit(order: seq<nat>, out: Output)
    requires IsPermutation(order)
    modifies out
    ensures out.lines == old(out.lines) + PermuteCode(order)
  {
    var n := |order|;
    var current := new nat[n](i => i);
    assert current[..] == Identity(n);
    ghost var written := [];
    for position := 0 to n
      invariant Placed(order, current[..], position)
      invariant out.lines == old(out.lines) + written
      invariant written + PermuteFrom(order, current[..], position) == PermuteCode(order)
    {
      ghost var before := current[..];
      ghost var rest := PermuteFrom(order, NextPlaces(order, before, position), position + 1);
      PlaceInOrder(order, current, position, out);
      Assoc(old(out.lines), written, NextLines(order, before, position));
      Assoc(written, NextLines(order, before, position), rest);
      written := written + NextLines(order, before, position);
    }
  }

  /** One turn of the loop: brings the word wanted at `position` there. */
  method PlaceInOrder(order: seq<nat>, current: array<nat>, position: nat, out: Output)
    requires Placed(order, current[..], position) && position < |order|
    modifies current, out
    ensures current[..] == NextPlaces(order, old(current[..]), position)
    ensures out.lines == old(out.lines) + NextLines(order, old(current[..]), position)
  {
    var found := Position(current, order[position]);
    PlaceNext(order, current[..], position);
    if position != found {
      ExchangeThroughTop(current, found, position, out);
    }
  }

  method Position(current: array<nat>, wanted: nat) returns (i: nat)
    requires wanted in current[..]
    ensures i == IndexOf(current[..], wanted)
  {
    i := 0;
    while current[i] != wanted
      invariant i < current.Length && wanted !in current[..i]
      decreases current.Length - i
    {
      i := i + 1;
    }
    FirstIndex(current[..], wanted, i);
  }

  lemma FirstIndex(s: seq<nat>, v: nat, i: nat)
    requires i < |s| && s[i] == v && v !in s[..i]
    ensures IndexOf(s, v) == i
  {}

  /** One `swap (top - index)`, on the listing and on the tracked positions. */
  method SwapLineOut(current: array<nat>, index: nat, out: Output)
    requires index < current.Length
    modifies current, out
    ensures current[..] == SwapWithTop(old(current[..]), index)
    ensures out.lines == old(out.lines) + SwapLine(index, current.Length - 1)
  {
    var top := current.Length - 1;
    if index != top {
      out.Push(Instr.Swap(top - index));
      current[top], current[index] := current[index], current[top];
    }
  }

  method ExchangeThroughTop(current: array<nat>, found: nat, position: nat, out: Output)
    requires position < found < current.Length
    modifies current, out
    ensures current[..] == Exchange(old(current[..]), found, position)
    ensures out.lines == old(out.lines) + ExchangeLines(found, position, current.Length - 1)
  {
    var top := current.Length - 1;
    SwapLineOut(current, found, out);
    SwapLineOut(current, position, out);
    SwapLineOut(current, found, out);
    Assoc(old(out.lines), SwapLine(found, top), SwapLine(position, top));
    Assoc(old(out.lines), SwapLine(found, top) + SwapLine(position, top), SwapLine(found, top));
    ThroughTop(old(current[..]), found, position);
  }

  // ----- reversal -----

  function Reversal(n: nat): (r: seq<nat>)
    ensures |r| == n && IsPermutation(r)
  {
    var r := seq(n, i requires 0 <= i < n => n - 1 - i);
    assert forall v: nat | v < n :: v in r by {
      forall v: nat | v < n ensures v in r { assert r[n - 1 - v] == v; }
    }
    r
  }

  function ReverseCode(n: nat): seq<Instr> {
    PermuteCode(Reversal(n))
  }

  method Reverse(width: nat, out: Output)
    modifies out
    ensures out.lines == old(out.lines) + ReverseCode(width)
  {
    Emit(Reversal(width), out);
  }

  lemma ReversesStack(s: State, block: seq<Word>, rest: seq<Word>)
    requires |block| <= 16 && s.stack == Rev(block) + rest
    ensures Exec(ReverseCode(|block|), s) == Some(WithStack(s, block + rest))
  {
    hide Exec, PermuteFrom;
    PermutesStack(s, Reversal(|block|), block, rest);
    assert Rev(Permuted(block, Reversal(|block|))) == block;
  }
}
