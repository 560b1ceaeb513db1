/** Listings as blocks: a label line starts a block, which reaches to the next label line. */
module Listing {
  import opened Machine
  import opened Control

  datatype Block = Block(name: string, code: seq<Instr>)

  predicate NoLabels(code: seq<Instr>) {
    forall k :: 0 <= k < |code| ==> !code[k].Label?
  }

  /** The lines before the first label. */
  function Until(lines: seq<Instr>): (code: seq<Instr>)
    ensures code <= lines && NoLabels(code)
    ensures |code| < |lines| ==> lines[|code|].Label?
  {
    if lines == [] || lines[0].Label? then [] else [lines[0]] + Until(lines[1..])
  }

  function Blocks(lines: seq<Instr>): seq<Block>
    decreases |lines|
  {
    if lines == [] then []
    else if lines[0].Label? then [Block(lines[0].name, Until(lines[1..]))] + Blocks(lines[1..])
    else Blocks(lines[1..])
  }

  predicate StartsBlock(lines: seq<Instr>) {
    lines == [] || lines[0].Label?
  }

  lemma NoLabelsTail(code: seq<Instr>)
    requires code != []
    ensures NoLabels(code) <==> !code[0].Label? && NoLabels(code[1..])
  {
    if !code[0].Label? && NoLabels(code[1..]) {
      forall k | 0 <= k < |code| ensures !code[k].Label? {
        assert k > 0 ==> code[k] == code[1..][k - 1];
      }
    }
  }

  lemma NoLabelsNone()
    ensures NoLabels([])
  {}

  lemma {:induction false} UntilCat(a: seq<Instr>, b: seq<Instr>)
    ensures Until(a + b) == if NoLabels(a) then a + Until(b) else Until(a)
    decreases |a|
  {
    hide NoLabels;
    if a == [] {
      NoLabelsNone();
      assert a + b == b && a + Until(b) == Until(b);
    } else {
      NoLabelsTail(a);
      assert (a + b)[0] == a[0] && (a + b)[1..] == a[1..] + b;
      UntilCat(a[1..], b);
      if !a[0].Label? {
        Assoc([a[0]], a[1..], Until(b));
        assert [a[0]] + a[1..] == a;
      }
    }
  }

  lemma {:induction false} BlocksPlain(code: seq<Instr>)
    requires NoLabels(code)
    ensures Blocks(code) == []
    decreases |code|
  {
    if code != [] {
      BlocksPlain(code[1..]);
    }
  }

  /** Code put in front of a listing that starts a block does not reach into it. */
  lemma UntilStops(a: seq<Instr>, b: seq<Instr>)
    requires StartsBlock(b)
    ensures Until(a + b) == Until(a)
  {
    UntilCat(a, b);
    UntilCat(a, []);
    assert a + [] == a;
  }

  lemma {:induction false} BlocksCat(a: seq<Instr>, b: seq<Instr>)
    requires StartsBlock(b)
    ensures Blocks(a + b) == Blocks(a) + Blocks(b)
    decreases |a|
  {
    if a == [] {
      assert a + b == b;
    } else {
      hide Until;
      assert (a + b)[0] == a[0] && (a + b)[1..] == a[1..] + b;
      BlocksCat(a[1..], b);
      UntilStops(a[1..], b);
      if a[0].Label? {
        Assoc([Block(a[0].name, Until(a[1..]))], Blocks(a[1..]), Blocks(b));
      }
    }
  }

  lemma BlocksOne(name: string, code: seq<Instr>)
    requires NoLabels(code)
    ensures Blocks([Label(name)] + code) == [Block(name, code)]
  {
    BlocksPlain(code);
    UntilCat(code, []);
    assert code + [] == code && ([Label(name)] + code)[1..] == code;
  }

  /** The blocks with a line added to the last of them. */
  function AddLine(blocks: seq<Block>, i: Instr): seq<Block> {
    if blocks == [] then []
    else if |blocks| == 1 then [Block(blocks[0].name, blocks[0].code + [i])]
    else [blocks[0]] + AddLine(blocks[1..], i)
  }

  lemma UntilSnoc(lines: seq<Instr>, i: Instr)
    requires !i.Label?
    ensures Until(lines + [i]) == if NoLabels(lines) then Until(lines) + [i] else Until(lines)
  {
    UntilCat(lines, [i]);
    UntilCat(lines, []);
    assert lines + [] == lines && [i][1..] == [];
    assert Until([i]) == [i];
  }

  /** A line added at the end belongs to the last block. */
  lemma {:induction false} BlocksSnoc(lines: seq<Instr>, i: Instr)
    requires !i.Label?
    ensures Blocks(lines + [i]) == AddLine(Blocks(lines), i)
    decreases |lines|
  {
    if lines == [] {
      assert lines + [i] == [i];
      BlocksPlain([i]);
    } else {
      hide Until;
      assert (lines + [i])[0] == lines[0] && (lines + [i])[1..] == lines[1..] + [i];
      BlocksSnoc(lines[1..], i);
      UntilSnoc(lines[1..], i);
      if Blocks(lines[1..]) == [] {
        NoBlocksNoLabels(lines[1..]);
      } else if NoLabels(lines[1..]) {
        BlocksPlain(lines[1..]);
      }
    }
  }

  lemma {:induction false} NoBlocksNoLabels(lines: seq<Instr>)
    requires Blocks(lines) == []
    ensures NoLabels(lines)
    decreases |lines|
  {
    if lines != [] {
      NoBlocksNoLabels(lines[1..]);
      NoLabelsTail(lines);
    }
  }

  // ----- environments -----

  /** Each label names the first block that carries it. */
  function EnvOf(blocks: seq<Block>): Env {
    if blocks == [] then map[] else EnvOf(blocks[1..])[blocks[0].name := blocks[0].code]
  }

  predicate Distinct(blocks: seq<Block>) {
    forall i, j :: 0 <= i < j < |blocks| ==> blocks[i].name != blocks[j].name
  }

  lemma {:induction false} EnvHas(blocks: seq<Block>, i: nat)
    requires Distinct(blocks) && i < |blocks|
    ensures blocks[i].name in EnvOf(blocks) && EnvOf(blocks)[blocks[i].name] == blocks[i].code
    decreases |blocks|
  {
    if i > 0 {
      EnvHas(blocks[1..], i - 1);
    }
  }
}
