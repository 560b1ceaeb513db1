/** The guesser buffer of the miner: leaves by butterfly rounds, and a hash tree without its lowest inner level. */
module Guesser {
  import opened BitReversal
  import opened Digests
  import opened MerkleTree
  import opened Powers
  import opened Words

  const BUD_LAYERS: nat := 5
  const MAX_HEIGHT: nat := 29

  // ----- the leaves -----

  function Bud(pair: PairHash, commitment: Digest, index: Word): Digest {
    pair(commitment, [index, 0, 0, 0, 0])
  }

  function Buds(pair: PairHash, commitment: Digest, n: nat): (buds: seq<Digest>)
    requires n <= P
    ensures |buds| == n
  {
    seq(n, i requires 0 <= i < n => Bud(pair, commitment, i))
  }

  function Cyclic(buds: seq<Digest>, j: nat): Digest
    requires |buds| > 0
  {
    buds[j % |buds|]
  }

  /** The `size` buds from `k` on, going around. */
  function Window(buds: seq<Digest>, k: nat, size: nat): (w: seq<Digest>)
    requires |buds| > 0
    ensures |w| == size
  {
    seq<Digest>(size, i requires 0 <= i < size => Cyclic(buds, k + i))
  }

  /** Element `k` after `rounds` butterfly rounds. */
  function Layer(pair: PairHash, buds: seq<Digest>, rounds: nat, k: nat): Digest
    requires |buds| > 0
  {
    Root(pair, Window(buds, k, Two(rounds)), rounds)
  }

  /** A window is one half as wide followed by another that starts a stride further on. */
  lemma WindowHalves(buds: seq<Digest>, k: nat, half: nat)
    requires |buds| > 0
    ensures Window(buds, k, half + half)[..half] == Window(buds, k, half)
    ensures Window(buds, k, half + half)[half..] == Window(buds, (k + half) % |buds|, half)
  {
    hide Cyclic;
    var w, right := Window(buds, k, half + half), Window(buds, (k + half) % |buds|, half);
    forall i | 0 <= i < half
      ensures w[half..][i] == right[i]
    {
      Around(buds, k + half, i);
    }
  }

  /** What one round does: an element and the one a stride further on are hashed together. */
  lemma LayerGrows(pair: PairHash, buds: seq<Digest>, rounds: nat, k: nat)
    requires |buds| > 0
    ensures Layer(pair, buds, rounds + 1, k)
         == pair(Layer(pair, buds, rounds, k), Layer(pair, buds, rounds, (k + Two(rounds)) % |buds|))
  {
    hide Root, Two, Window;
    TwoNext(rounds);
    RootParts(pair, Window(buds, k, Two(rounds + 1)), rounds);
    WindowHalves(buds, k, Two(rounds));
  }

  lemma Around(buds: seq<Digest>, a: nat, b: nat)
    requires |buds| > 0
    ensures Cyclic(buds, a % |buds| + b) == Cyclic(buds, a + b)
  {
    SumMod(a, b, |buds|);
  }

  lemma SplitSum(x: int, y: int, n: int)
    ensures (x + y) * n == x * n + y * n
  {}

  lemma SumMod(a: nat, b: nat, n: nat)
    requires n > 0
    ensures (a % n + b) % n == (a + b) % n
  {
    var q, r := (a % n + b) / n, (a % n + b) % n;
    DivisionIs(a, n);
    DivisionIs(a % n + b, n);
    SplitSum(a / n, q, n);
    assert a + b == (a / n + q) * n + r;
    QuotientIs(a + b, n, a / n + q, r);
    DivisionIs(a + b, n);
  }

  lemma LayerNone(pair: PairHash, buds: seq<Digest>, k: nat)
    requires k < |buds|
    ensures Layer(pair, buds, 0, k) == buds[k]
  {
    assert k % |buds| == k;
    assert Window(buds, k, 1)[0] == Cyclic(buds, k);
  }

  function LeafAt(pair: PairHash, buds: seq<Digest>, bitReverse: bool, height: nat, k: nat): Digest
    requires |buds| > 0
  {
    Layer(pair, buds, BUD_LAYERS, if bitReverse then Reversal(k, height) else k)
  }

  /** The leaves: roots over 32 consecutive buds, in plain or in bit-reversed order. */
  function Leafs(pair: PairHash, commitment: Digest, bitReverse: bool, height: nat): (leafs: seq<Digest>)
    requires Two(height) <= P
    ensures |leafs| == Two(height)
  {
    var buds := Buds(pair, commitment, Two(height));
    seq(Two(height), k requires 0 <= k < Two(height) => LeafAt(pair, buds, bitReverse, height, k))
  }

  method Butterfly(pair: PairHash, commitment: Digest, n: nat) returns (leafs: array<Digest>)
    requires 0 < n <= P
    ensures fresh(leafs) && leafs.Length == n
    ensures forall k :: 0 <= k < n ==> leafs[k] == Layer(pair, Buds(pair, commitment, n), BUD_LAYERS, k)
  {
    hide Layer;
    ghost var buds := Buds(pair, commitment, n);
    var buf0 := new Digest[n](i requires 0 <= i < n => Bud(pair, commitment, i));
    var buf1 := new Digest[n](i requires 0 <= i < n => Bud(pair, commitment, i));
    forall k | 0 <= k < n
      ensures buf0[k] == Layer(pair, buds, 0, k)
    {
      LayerNone(pair, buds, k);
    }
    for round := 0 to BUD_LAYERS
      invariant fresh(buf0) && fresh(buf1) && buf0 != buf1 && buf0.Length == n && buf1.Length == n
      invariant forall k :: 0 <= k < n ==> buf0[k] == Layer(pair, buds, round, k)
    {
      var stride := Two(round);
      for k := 0 to n
        invariant forall j :: 0 <= j < n ==> buf0[j] == Layer(pair, buds, round, j)
        invariant forall j :: 0 <= j < k ==> buf1[j] == Layer(pair, buds, round + 1, j)
      {
        LayerGrows(pair, buds, round, k);
        buf1[k] := pair(buf0[k], buf0[(k + stride) % n]);
      }
      buf0, buf1 := buf1, buf0;
    }
    leafs := buf0;
  }

  /** Puts at each position the element that was at the position with its bits reversed. */
  method ReverseOrder(buf: array<Digest>, height: nat)
    requires 1 <= height <= 32 && buf.Length == Two(height)
    modifies buf
    ensures forall i :: 0 <= i < buf.Length ==> Reversal(i, height) < buf.Length && buf[i] == old(buf[Reversal(i, height)])
  {
    hide Reversal, ReverseIndex;
    ghost var was := buf[..];
    ghost var n := buf.Length;
    forall i | 0 <= i < n
      ensures Reversal(i, height) < n && Reversal(Reversal(i, height), height) == i
    {
      ReversalFits(i, height);
      ReversalTwice(i, height);
    }
    for k := 0 to buf.Length
      invariant forall i :: 0 <= i < n && (i < k || Reversal(i, height) < k) ==> buf[i] == was[Reversal(i, height)]
      invariant forall i :: 0 <= i < n && i >= k && Reversal(i, height) >= k ==> buf[i] == was[i]
    {
      var r := ReverseIndex(k, height);
      ReverseIndexIsReversal(k, height);
      if r > k {
        buf[k], buf[r] := buf[r], buf[k];
      }
    }
  }

  method LeafsAtHeight(pair: PairHash, commitment: Digest, bitReverse: bool, height: nat) returns (leafs: array<Digest>)
    requires BUD_LAYERS <= height <= MAX_HEIGHT
    ensures Two(height) <= P && fresh(leafs) && leafs[..] == Leafs(pair, commitment, bitReverse, height)
  {
    hide Layer, Reversal, Two;
    HeightFits(height);
    var n := Two(height);
    leafs := Butterfly(pair, commitment, n);
    if bitReverse {
      ReverseOrder(leafs, height);
    }
    assert leafs[..] == Leafs(pair, commitment, bitReverse, height);
  }

  ghost predicate KeepsLeft(pair: PairHash) {
    forall l, r :: pair(l, r) == l
  }

  ghost predicate KeepsRight(pair: PairHash) {
    forall l, r :: pair(l, r) == r
  }

  /** A tree hashed by keeping the left digest has its first leaf as its root, one hashed by keeping the right its last. */
  lemma {:induction false} RootOfProjections(pair: PairHash, leafs: seq<Digest>, height: nat)
    requires |leafs| == Two(height)
    ensures KeepsLeft(pair) ==> Root(pair, leafs, height) == leafs[0]
    ensures KeepsRight(pair) ==> Root(pair, leafs, height) == leafs[|leafs| - 1]
    decreases height
  {
    if height > 0 {
      var half := Two(height - 1);
      RootOfProjections(pair, leafs[..half], height - 1);
      RootOfProjections(pair, leafs[half..], height - 1);
    }
  }

  lemma LayerOfProjections(pair: PairHash, commitment: Digest, n: nat, k: nat)
    requires 0 < n <= P
    ensures KeepsLeft(pair) ==> Layer(pair, Buds(pair, commitment, n), BUD_LAYERS, k) == commitment
    ensures KeepsRight(pair) ==> Layer(pair, Buds(pair, commitment, n), BUD_LAYERS, k) == [(k + 31) % n, 0, 0, 0, 0]
  {
    hide Root;
    assert Two(1) == 2 && Two(3) == 8 && Two(5) == 32;
    var buds := Buds(pair, commitment, n);
    RootOfProjections(pair, Window(buds, k, 32), 5);
    assert Window(buds, k, 32)[0] == buds[k % n] == Bud(pair, commitment, k % n);
  }

  /**
   * What goes into a leaf and in which order, shown by two hashes: keeping the left digest every leaf is the commitment,
   * and keeping the right one, leaf `k` is the 32nd index from `k` on, going around, at the reversed `k` if reversed.
   */
  lemma LeafsOfProjections(pair: PairHash, commitment: Digest, bitReverse: bool, height: nat, k: nat)
    requires k < Two(height) <= P
    ensures KeepsLeft(pair) ==> Leafs(pair, commitment, bitReverse, height)[k] == commitment
    ensures KeepsRight(pair) ==>
      Leafs(pair, commitment, bitReverse, height)[k] == [((if bitReverse then Reversal(k, height) else k) + 31) % Two(height), 0, 0, 0, 0]
  {
    hide Reversal, Layer, Two, KeepsLeft, KeepsRight;
    LayerOfProjections(pair, commitment, Two(height), if bitReverse then Reversal(k, height) else k);
  }

  lemma HeightFits(height: nat)
    requires height <= 29
    ensures Two(height) <= 0x2000_0000
  {
    TwoGrows(height, 29);
    assert Two(9) == 512 && Two(10) == 1024;
    TwoCat(10, 10);
    TwoCat(20, 9);
  }

  // ----- the inner nodes -----

  /** The inner nodes that are kept: all but the lowest inner level. */
  ghost predicate KeepsNodes(pair: PairHash, leafs: seq<Digest>, nodes: seq<Digest>, from: nat) {
    |nodes| <= |leafs| && forall i :: 1 <= i && from <= i < |nodes| ==> nodes[i] == Node(pair, leafs, i)
  }

  method BuildInternalNodes(pair: PairHash, leafs: seq<Digest>, height: nat) returns (nodes: array<Digest>)
    requires height >= 2 && |leafs| == Two(height)
    ensures fresh(nodes) && nodes.Length == Two(height - 1) && KeepsNodes(pair, leafs, nodes[..], 1)
  {
    hide Node, Two;
    var size := |leafs| / 2;
    nodes := new Digest[size](_ => NO_DIGEST);
    var childStart := size / 2;
    ghost var level: nat := height - 2;
    TwoNext(level + 1);
    TwoNext(level);
    LowestLevel(pair, leafs, nodes);
    while childStart > 1
      invariant fresh(nodes)
      invariant childStart == Two(level) && childStart < size
      invariant KeepsNodes(pair, leafs, nodes[..], childStart)
      decreases childStart
    {
      var parentStart := childStart / 2;
      if level == 0 {
        TwoZero();
      }
      TwoNext(level - 1);
      ParentLevel(pair, leafs, nodes, parentStart);
      childStart := parentStart;
      level := level - 1;
    }
  }

  lemma TwoZero()
    ensures Two(0) == 1
  {}

  method LowestLevel(pair: PairHash, leafs: seq<Digest>, nodes: array<Digest>)
    requires |leafs| == 2 * nodes.Length && nodes.Length % 2 == 0
    modifies nodes
    ensures KeepsNodes(pair, leafs, nodes[..], nodes.Length / 2)
  {
    hide Node;
    var lowest := nodes.Length / 2;
    for o := 0 to lowest
      invariant forall i :: 1 <= i && lowest <= i < lowest + o ==> nodes[i] == Node(pair, leafs, i)
    {
      var b := o * 4;
      var left := pair(leafs[b], leafs[b + 1]);
      var right := pair(leafs[b + 2], leafs[b + 3]);
      LowestNode(pair, leafs, lowest, o);
      nodes[lowest + o] := pair(left, right);
    }
  }

  /** From one level of nodes, the level above. */
  method ParentLevel(pair: PairHash, leafs: seq<Digest>, nodes: array<Digest>, parentStart: nat)
    requires parentStart >= 1 && 2 * parentStart < nodes.Length && nodes.Length <= |leafs| && 4 * parentStart <= nodes.Length
    requires KeepsNodes(pair, leafs, nodes[..], 2 * parentStart)
    modifies nodes
    ensures KeepsNodes(pair, leafs, nodes[..], parentStart)
  {
    hide Node;
    var childStart := 2 * parentStart;
    for o := 0 to parentStart
      invariant KeepsNodes(pair, leafs, nodes[..], childStart)
      invariant forall i :: parentStart <= i < parentStart + o ==> nodes[i] == Node(pair, leafs, i)
    {
      NodeParts(pair, leafs, parentStart + o);
      assert nodes[..][childStart + o * 2] == Node(pair, leafs, 2 * (parentStart + o));
      assert nodes[..][childStart + (o * 2 + 1)] == Node(pair, leafs, 2 * (parentStart + o) + 1);
      nodes[parentStart + o] := pair(nodes[childStart + o * 2], nodes[childStart + (o * 2 + 1)]);
    }
  }

  lemma LowestNode(pair: PairHash, leafs: seq<Digest>, lowest: nat, o: nat)
    requires |leafs| == 4 * lowest && o < lowest
    ensures 1 <= lowest
    ensures Node(pair, leafs, lowest + o)
         == pair(pair(leafs[o * 4], leafs[o * 4 + 1]), pair(leafs[o * 4 + 2], leafs[o * 4 + 3]))
  {
    var i := lowest + o;
    NodeParts(pair, leafs, i);
    NodeParts(pair, leafs, 2 * i);
    NodeParts(pair, leafs, 2 * i + 1);
    assert Node(pair, leafs, 2 * (2 * i)) == leafs[o * 4];
    assert Node(pair, leafs, 2 * (2 * i) + 1) == leafs[o * 4 + 1];
    assert Node(pair, leafs, 2 * (2 * i + 1)) == leafs[o * 4 + 2];
    assert Node(pair, leafs, 2 * (2 * i + 1) + 1) == leafs[o * 4 + 3];
  }

  // ----- the buffer -----

  lemma AncestorNext(i: nat, k: nat)
    ensures Ancestor(i, k + 1) == Ancestor(i, k) / 2
  {
    var t := Two(k);
    var q, r := i / t, i % t;
    DivisionIs(i, t);
    assert (q / 2) * (2 * t) + (q % 2) * t + r == i by {
      assert (q / 2) * (2 * t) == (2 * (q / 2)) * t;
      assert (2 * (q / 2) + q % 2) * t == (2 * (q / 2)) * t + (q % 2) * t;
    }
    assert (q % 2) * t + r < 2 * t by { assert q % 2 == 0 || q % 2 == 1; }
    QuotientIs(i, 2 * t, q / 2, (q % 2) * t + r);
  }

  /** Each step up halves the range that a node is in. */
  lemma {:induction false} AncestorFits(i: nat, height: nat, k: nat)
    requires Two(height) <= i < Two(height + 1) && k <= height
    ensures Two(height - k) <= Ancestor(i, k) < Two(height - k + 1)
    decreases k
  {
    hide Two, Ancestor;
    if k == 0 {
      AncestorNone(i);
    } else {
      AncestorFits(i, height, k - 1);
      AncestorNext(i, k - 1);
      TwoNext(height - k);
      TwoNext(height - k + 1);
    }
  }

  lemma AncestorNone(i: nat)
    ensures Ancestor(i, 0) == i
  {}

  class GuesserBuffer {
    const pair: PairHash
    var leafs: array<Digest>
    var internalNodes: array<Digest>
    var prevBlockDigest: Digest

    ghost predicate Valid(height: nat)
      reads this, leafs, internalNodes
    {
      && height >= 2
      && leafs.Length == Two(height)
      && internalNodes.Length == Two(height - 1)
      && KeepsNodes(pair, leafs[..], internalNodes[..], 1)
    }

    constructor Build(pair: PairHash, prevBlockDigest: Digest, bitReverse: bool, height: nat)
      requires BUD_LAYERS <= height <= MAX_HEIGHT
      ensures Valid(height) && this.pair == pair && this.prevBlockDigest == prevBlockDigest
      ensures Two(height) <= P && leafs[..] == Leafs(pair, prevBlockDigest, bitReverse, height)
    {
      hide Leafs, Two, KeepsNodes;
      this.pair := pair;
      this.prevBlockDigest := prevBlockDigest;
      var built := LeafsAtHeight(pair, prevBlockDigest, bitReverse, height);
      leafs := built;
      var nodes := BuildInternalNodes(pair, built[..], height);
      internalNodes := nodes;
    }

    /** The first kept node is the root of the whole tree. */
    method TreeRoot(height: nat) returns (root: Digest)
      requires Valid(height)
      ensures root == Root(pair, leafs[..], height)
    {
      hide Root, Node;
      RootIsNodeOne(pair, leafs[..], height);
      TwoNext(height - 2);
      root := internalNodes[1];
    }

    /** The authentication path of a leaf; the level that is not kept is hashed again from the leaves. */
    method PathAtHeight(height: nat, idx: nat) returns (path: array<Digest>)
      requires Valid(height) && idx < leafs.Length
      ensures path[..] == PathIn(pair, leafs[..], height, idx)
    {
      hide Two, Node, Siblings, PathIn, Ancestor, Sibling;
      var numLeafs := leafs.Length;
      ghost var i := idx + numLeafs;
      TwoNext(height);
      WholePath(pair, leafs[..], height, idx);
      path := new Digest[height](_ => NO_DIGEST);
      LowestSiblings(pair, leafs[..], height, idx);
      path[0] := leafs[Sibling(idx)];
      var running := (idx + numLeafs) / 2;
      var sib1 := Sibling(running);
      var j := sib1 - numLeafs / 2;
      path[1] := pair(leafs[2 * j], leafs[2 * j + 1]);
      assert path[..2] == [path[0], path[1]];
      for k := 2 to height
        invariant path.Length == height && running == Ancestor(i, k - 1)
        invariant Two(k) <= i && path[..k] == Siblings(pair, leafs[..], i, k)
      {
        AncestorNext(i, k - 1);
        running := running / 2;
        TwoGrows(k + 1, height);
        SiblingsSnoc(pair, leafs[..], i, k);
        KeptSibling(height, i, k);
        path[k] := internalNodes[Sibling(running)];
        assert path[..k + 1] == path[..k] + [path[k]];
      }
      assert path[..] == path[..height];
    }
  }

  /** From the second step on, the sibling is among the kept nodes. */
  lemma KeptSibling(height: nat, i: nat, k: nat)
    requires Two(height) <= i < Two(height + 1) && 2 <= k < height
    ensures 1 <= Sibling(Ancestor(i, k)) < Two(height - 1)
  {
    hide Ancestor;
    AncestorFits(i, height, k);
    TwoGrows(height - k + 1, height - 1);
  }

  /** The first two siblings, from the leaves alone. */
  lemma LowestSiblings(pair: PairHash, leafs: seq<Digest>, height: nat, idx: nat)
    requires height >= 2 && |leafs| == Two(height) && idx < |leafs|
    ensures var i := idx + |leafs|;
      var j := Sibling(i / 2) - |leafs| / 2;
      && Two(2) <= i < 2 * |leafs| && |leafs| % 2 == 0
      && Sibling(idx) < |leafs| && 0 <= j && 2 * j + 1 < |leafs| && i / 2 == Ancestor(i, 1)
      && Siblings(pair, leafs, i, 2) == [leafs[Sibling(idx)], pair(leafs[2 * j], leafs[2 * j + 1])]
  {
    hide Node, Siblings, Two, Ancestor, Sibling;
    var n, i := |leafs|, idx + |leafs|;
    TwoGrows(2, height);
    SmallPowers();
    TwoNext(height - 1);
    TwoNext(height - 2);
    SiblingNumbers(n, idx);
    AncestorNone(i);
    AncestorNext(i, 0);
    TwoSiblings(pair, leafs, i);
    LeafNode(pair, leafs, Sibling(idx));
    HashedSibling(pair, leafs, Sibling(i / 2));
  }

  lemma SiblingShift(m: nat, j: nat)
    requires m % 2 == 0 && j < m
    ensures Sibling(j) < m && Sibling(m + j) == m + Sibling(j)
  {}

  lemma SiblingNumbers(n: nat, idx: nat)
    requires n % 4 == 0 && idx < n
    ensures Sibling(idx) < n && Sibling(idx + n) == n + Sibling(idx)
    ensures n / 2 <= Sibling((idx + n) / 2) < n
  {
    hide Sibling;
    SiblingShift(n, idx);
    assert (idx + n) / 2 == n / 2 + idx / 2;
    SiblingShift(n / 2, idx / 2);
  }

  lemma TwoSiblings(pair: PairHash, leafs: seq<Digest>, i: nat)
    requires 4 <= i < 2 * |leafs| && Two(2) == 4
    ensures 1 <= Sibling(i) < 2 * |leafs| && 1 <= Sibling(i / 2) < 2 * |leafs|
    ensures Siblings(pair, leafs, i, 2) == [Node(pair, leafs, Sibling(i)), Node(pair, leafs, Sibling(i / 2))]
  {
    hide Node;
    assert Siblings(pair, leafs, i / 2 / 2, 0) == [];
    assert Siblings(pair, leafs, i / 2, 1) == [Node(pair, leafs, Sibling(i / 2))];
  }

  lemma LeafNode(pair: PairHash, leafs: seq<Digest>, k: nat)
    requires k < |leafs|
    ensures Node(pair, leafs, |leafs| + k) == leafs[k]
  {}

  lemma HashedSibling(pair: PairHash, leafs: seq<Digest>, i: nat)
    requires |leafs| % 2 == 0 && |leafs| / 2 <= i < |leafs| && 1 <= i
    ensures var j := i - |leafs| / 2;
      2 * j + 1 < |leafs| && Node(pair, leafs, i) == pair(leafs[2 * j], leafs[2 * j + 1])
  {
    hide Node;
    var j := i - |leafs| / 2;
    NodeParts(pair, leafs, i);
    LeafNode(pair, leafs, 2 * j);
    LeafNode(pair, leafs, 2 * j + 1);
  }
}
