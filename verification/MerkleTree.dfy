/** Binary hash trees: the recursive definition, the 1-indexed node numbering, and authentication paths. */
module MerkleTree {
  import opened Digests
  import opened Powers

  /** The root over 2^height leaves. */
  function Root(pair: PairHash, leafs: seq<Digest>, height: nat): Digest
    requires |leafs| == Two(height)
    decreases height
  {
    if height == 0 then leafs[0] else
    var half := Two(height - 1);
    pair(Root(pair, leafs[..half], height - 1), Root(pair, leafs[half..], height - 1))
  }

  /** The siblings on the way from leaf `index` up to the root, lowest first. */
  function PathIn(pair: PairHash, leafs: seq<Digest>, height: nat, index: nat): (path: seq<Digest>)
    requires |leafs| == Two(height) && index < |leafs|
    ensures |path| == height
    decreases height
  {
    if height == 0 then [] else
    var half := Two(height - 1);
    if index < half then PathIn(pair, leafs[..half], height - 1, index) + [Root(pair, leafs[half..], height - 1)]
    else PathIn(pair, leafs[half..], height - 1, index - half) + [Root(pair, leafs[..half], height - 1)]
  }

  /** Hashing a leaf up along a path. */
  function Climb(pair: PairHash, leaf: Digest, index: nat, path: seq<Digest>): Digest
    decreases |path|
  {
    if path == [] then leaf
    else Climb(pair, if index % 2 == 0 then pair(leaf, path[0]) else pair(path[0], leaf), index / 2, path[1..])
  }

  lemma {:induction false} ClimbSnoc(pair: PairHash, leaf: Digest, index: nat, path: seq<Digest>, last: Digest)
    ensures var below := Climb(pair, leaf, index, path);
      Climb(pair, leaf, index, path + [last])
        == if (index / Two(|path|)) % 2 == 0 then pair(below, last) else pair(last, below)
    decreases |path|
  {
    if path == [] {
      assert (path + [last])[1..] == [];
      assert index / 1 == index;
    } else {
      assert (path + [last])[1..] == path[1..] + [last];
      ClimbSnoc(pair, if index % 2 == 0 then pair(leaf, path[0]) else pair(path[0], leaf), index / 2, path[1..], last);
      HalfFirst(index, |path| - 1);
    }
  }

  lemma HalfFirst(n: nat, k: nat)
    ensures n / Two(k + 1) == (n / 2) / Two(k)
  {
    var t := Two(k);
    var q, r := (n / 2) / t, (n / 2) % t;
    DivisionIs(n / 2, t);
    assert q * (2 * t) == 2 * (q * t);
    QuotientIs(n, 2 * t, q, 2 * r + n % 2);
  }

  lemma {:induction false} ClimbLow(pair: PairHash, leaf: Digest, index: nat, more: nat, path: seq<Digest>)
    requires more % Two(|path|) == 0
    ensures Climb(pair, leaf, index + more, path) == Climb(pair, leaf, index, path)
    decreases |path|
  {
    if path != [] {
      var k := |path| - 1;
      var q := more / Two(k + 1);
      DivisionIs(more, Two(k + 1));
      assert more == 2 * (q * Two(k)) by { assert q * (2 * Two(k)) == 2 * (q * Two(k)); }
      assert (more / 2) % Two(k) == 0 by { MultipleMod(q, Two(k)); }
      assert (index + more) % 2 == index % 2 && (index + more) / 2 == index / 2 + more / 2;
      ClimbLow(pair, if index % 2 == 0 then pair(leaf, path[0]) else pair(path[0], leaf), index / 2, more / 2, path[1..]);
    }
  }

  lemma MultipleMod(q: nat, t: nat)
    requires t > 0
    ensures (q * t) % t == 0
  {
    DivisionIs(q * t, t);
    QuotientIs(q * t, t, q, 0);
  }

  lemma PathOfLeaf(pair: PairHash, leafs: seq<Digest>)
    requires |leafs| == Two(0)
    ensures PathIn(pair, leafs, 0, 0) == [] && Root(pair, leafs, 0) == leafs[0] && Climb(pair, leafs[0], 0, []) == leafs[0]
  {}

  /** An authentication path leads from its leaf to the root. */
  lemma {:induction false} PathLeadsToRoot(pair: PairHash, leafs: seq<Digest>, height: nat, index: nat)
    requires |leafs| == Two(height) && index < |leafs|
    ensures Climb(pair, leafs[index], index, PathIn(pair, leafs, height, index)) == Root(pair, leafs, height)
    decreases height
  {
    hide Climb, PathIn, Root;
    if height == 0 {
      PathOfLeaf(pair, leafs);
    } else {
      var h := height - 1;
      var half := Two(h);
      RootParts(pair, leafs, h);
      PathParts(pair, leafs, h, index);
      if index < half {
        PathLeadsToRoot(pair, leafs[..half], h, index);
        ClimbSnoc(pair, leafs[index], index, PathIn(pair, leafs[..half], h, index), Root(pair, leafs[half..], h));
        QuotientIs(index, half, 0, index);
      } else {
        var low := PathIn(pair, leafs[half..], h, index - half);
        PathLeadsToRoot(pair, leafs[half..], h, index - half);
        ClimbSnoc(pair, leafs[index], index, low, Root(pair, leafs[..half], h));
        QuotientIs(index, half, 1, index - half);
        MultipleMod(1, half);
        ClimbLow(pair, leafs[index], index - half, half, low);
      }
    }
  }

  // ----- numbered nodes -----

  /** Node 1 is the root; the children of node i are 2i and 2i + 1; the last n nodes are the leaves. */
  function Node(pair: PairHash, leafs: seq<Digest>, i: nat): Digest
    requires 1 <= i < 2 * |leafs|
    decreases 2 * |leafs| - i
  {
    if i >= |leafs| then leafs[i - |leafs|] else pair(Node(pair, leafs, 2 * i), Node(pair, leafs, 2 * i + 1))
  }

  /** The other child of the same parent. */
  function Sibling(i: nat): (j: nat) {
    if i % 2 == 0 then i + 1 else i - 1
  }

  /** Where the leaves below the node at `place` start, `height` levels down. */
  function Start(place: nat, height: nat): nat {
    place * Two(height)
  }

  lemma StartOfChild(place: nat, height: nat)
    ensures Start(2 * place, height) == Start(place, height + 1)
    ensures Start(2 * place + 1, height) == Start(place, height + 1) + Two(height)
  {
    var t := Two(height);
    assert (2 * place) * t == place * (2 * t);
    assert (2 * place + 1) * t == (2 * place) * t + t;
  }

  lemma NoMore(a: nat, b: nat, t: nat)
    requires a <= b
    ensures a * t <= b * t
  {
    assert (b - a) * t >= 0;
  }

  lemma ShareFits(depth: nat, place: nat, height: nat)
    requires place < Two(depth)
    ensures Start(place, height) + Two(height) <= Two(depth + height)
  {
    hide Two;
    TwoCat(depth, height);
    NoMore(place + 1, Two(depth), Two(height));
    assert (place + 1) * Two(height) == place * Two(height) + Two(height);
  }

  lemma LastStart(place: nat)
    ensures Start(place, 0) == place && Two(0) == 1
  {}

  lemma NodeParts(pair: PairHash, leafs: seq<Digest>, i: nat)
    requires 1 <= i < |leafs|
    ensures Node(pair, leafs, i) == pair(Node(pair, leafs, 2 * i), Node(pair, leafs, 2 * i + 1))
  {}

  lemma RootParts(pair: PairHash, leafs: seq<Digest>, height: nat)
    requires |leafs| == Two(height + 1)
    ensures Two(height) <= |leafs| && |leafs[Two(height)..]| == Two(height)
    ensures Root(pair, leafs, height + 1)
         == pair(Root(pair, leafs[..Two(height)], height), Root(pair, leafs[Two(height)..], height))
  {}

  /** The leaves below a node. */
  function Share(leafs: seq<Digest>, start: nat, height: nat): (share: seq<Digest>)
    requires start + Two(height) <= |leafs|
    ensures |share| == Two(height)
  {
    leafs[start..start + Two(height)]
  }

  lemma ShareParts(leafs: seq<Digest>, start: nat, height: nat)
    requires start + Two(height + 1) <= |leafs|
    ensures Two(height + 1) == 2 * Two(height)
    ensures Share(leafs, start, height + 1)[..Two(height)] == Share(leafs, start, height)
    ensures Share(leafs, start, height + 1)[Two(height)..] == Share(leafs, start + Two(height), height)
  {}

  lemma NodeOfLeaf(pair: PairHash, leafs: seq<Digest>, place: nat)
    requires place < |leafs|
    ensures Two(0) == 1
    ensures Node(pair, leafs, |leafs| + place) == Root(pair, Share(leafs, place, 0), 0)
  {}

  /** Node 2^depth + place is the root over its own share of the leaves. */
  lemma {:induction false} NodeIsRoot(pair: PairHash, leafs: seq<Digest>, depth: nat, place: nat, height: nat)
    requires |leafs| == Two(depth + height) && place < Two(depth)
    ensures Start(place, height) + Two(height) <= |leafs| && Two(depth) + place < 2 * |leafs|
    ensures Node(pair, leafs, Two(depth) + place) == Root(pair, Share(leafs, Start(place, height), height), height)
    decreases height
  {
    hide Two, Start, Node, Root, Share;
    ShareFits(depth, place, height);
    TwoGrows(depth, depth + height);
    if height == 0 {
      LastStart(place);
      NodeOfLeaf(pair, leafs, place);
    } else {
      var h := height - 1;
      TwoNext(depth);
      TwoGrows(depth + 1, depth + height);
      StartOfChild(place, h);
      NodeIsRoot(pair, leafs, depth + 1, 2 * place, h);
      NodeIsRoot(pair, leafs, depth + 1, 2 * place + 1, h);
      NodeParts(pair, leafs, Two(depth) + place);
      ShareParts(leafs, Start(place, height), h);
      RootParts(pair, Share(leafs, Start(place, height), height), h);
    }
  }

  lemma RootIsNodeOne(pair: PairHash, leafs: seq<Digest>, height: nat)
    requires |leafs| == Two(height)
    ensures Node(pair, leafs, 1) == Root(pair, leafs, height)
  {
    NodeIsRoot(pair, leafs, 0, 0, height);
    assert Share(leafs, Start(0, height), height) == leafs;
  }

  /** The siblings of node `i` and of its ancestors, `steps` of them. */
  function Siblings(pair: PairHash, leafs: seq<Digest>, i: nat, steps: nat): (path: seq<Digest>)
    requires Two(steps) <= i < 2 * |leafs| && |leafs| > 0
    ensures |path| == steps
    decreases steps
  {
    if steps == 0 then [] else
    SiblingInside(i, |leafs|);
    [Node(pair, leafs, Sibling(i))] + Siblings(pair, leafs, i / 2, steps - 1)
  }

  lemma SiblingInside(i: nat, n: nat)
    requires 2 <= i < 2 * n
    ensures 1 <= Sibling(i) < 2 * n
  {}

  /** The node `k` levels above node `i`. */
  function Ancestor(i: nat, k: nat): nat {
    QuotientIsNat(i, Two(k));
    i / Two(k)
  }

  lemma {:induction false} SiblingsSnoc(pair: PairHash, leafs: seq<Digest>, i: nat, steps: nat)
    requires Two(steps + 1) <= i < 2 * |leafs|
    ensures 2 <= Ancestor(i, steps) && 1 <= Sibling(Ancestor(i, steps)) < 2 * |leafs|
    ensures Siblings(pair, leafs, i, steps + 1) == Siblings(pair, leafs, i, steps) + [Node(pair, leafs, Sibling(Ancestor(i, steps)))]
    decreases steps
  {
    if steps == 0 {
      assert i / 1 == i;
      SiblingInside(i, |leafs|);
      assert Siblings(pair, leafs, i / 2, 0) == [];
    } else {
      HalfFirst(i, steps - 1);
      SiblingsSnoc(pair, leafs, i / 2, steps - 1);
    }
  }

  lemma PathParts(pair: PairHash, leafs: seq<Digest>, height: nat, index: nat)
    requires |leafs| == Two(height + 1) && index < |leafs|
    ensures Two(height) <= |leafs| && |leafs[Two(height)..]| == Two(height)
    ensures PathIn(pair, leafs, height + 1, index)
         == if index < Two(height)
            then PathIn(pair, leafs[..Two(height)], height, index) + [Root(pair, leafs[Two(height)..], height)]
            else PathIn(pair, leafs[Two(height)..], height, index - Two(height)) + [Root(pair, leafs[..Two(height)], height)]
  {}

  lemma AncestorIs(depth: nat, place: nat, height: nat, index: nat)
    requires index < Two(height)
    ensures Ancestor(Two(depth + height) + Start(place, height) + index, height) == Two(depth) + place
  {
    hide Two;
    var t := Two(height);
    TwoCat(depth, height);
    assert (Two(depth) + place) * t == Two(depth) * t + place * t;
    QuotientIs(Two(depth + height) + Start(place, height) + index, t, Two(depth) + place, index);
  }

  lemma SiblingOfChild(place: nat, depth: nat)
    requires depth > 0
    ensures Sibling(Two(depth) + 2 * place) == Two(depth) + 2 * place + 1
    ensures Sibling(Two(depth) + 2 * place + 1) == Two(depth) + 2 * place
  {}

  /** The parts of memory and numbering that the siblings below a node talk about. */
  predicate Below(leafs: seq<Digest>, depth: nat, place: nat, height: nat, index: nat) {
    |leafs| == Two(depth + height) && place < Two(depth) && index < Two(height)
  }

  lemma BelowFits(leafs: seq<Digest>, depth: nat, place: nat, height: nat, index: nat)
    requires Below(leafs, depth, place, height, index)
    ensures Start(place, height) + Two(height) <= |leafs|
    ensures Two(height) <= |leafs| + Start(place, height) + index < 2 * |leafs|
  {
    hide Two, Start;
    ShareFits(depth, place, height);
    TwoGrows(height, depth + height);
  }

  ghost predicate PathAt(pair: PairHash, leafs: seq<Digest>, depth: nat, place: nat, height: nat, index: nat)
    requires Below(leafs, depth, place, height, index)
  {
    BelowFits(leafs, depth, place, height, index);
    Siblings(pair, leafs, |leafs| + Start(place, height) + index, height)
      == PathIn(pair, Share(leafs, Start(place, height), height), height, index)
  }

  lemma LeftStep(pair: PairHash, leafs: seq<Digest>, depth: nat, place: nat, h: nat, index: nat)
    requires Below(leafs, depth, place, h + 1, index) && Below(leafs, depth + 1, 2 * place, h, index)
    requires PathAt(pair, leafs, depth + 1, 2 * place, h, index)
    ensures PathAt(pair, leafs, depth, place, h + 1, index)
  {
    hide Two, Start, Node, Root, Share, Siblings, PathIn, Sibling, Ancestor;
    BelowFits(leafs, depth, place, h + 1, index);
    BelowFits(leafs, depth + 1, 2 * place, h, index);
    TwoNext(depth);
    TwoNext(h);
    StartOfChild(place, h);
    SiblingsSnoc(pair, leafs, |leafs| + Start(place, h + 1) + index, h);
    ShareParts(leafs, Start(place, h + 1), h);
    PathParts(pair, Share(leafs, Start(place, h + 1), h + 1), h, index);
    SiblingOfChild(place, depth + 1);
    AncestorIs(depth + 1, 2 * place, h, index);
    NodeIsRoot(pair, leafs, depth + 1, 2 * place + 1, h);
  }

  /** The last sibling of a leaf on the right is the root over the left share. */
  lemma RightSibling(pair: PairHash, leafs: seq<Digest>, depth: nat, place: nat, h: nat, i: nat)
    requires |leafs| == Two(depth + 1 + h) && 2 * place + 1 < Two(depth + 1) && Two(h + 1) <= i < 2 * |leafs|
    requires Ancestor(i, h) == Two(depth + 1) + 2 * place + 1
    ensures Start(2 * place, h) + Two(h) <= |leafs|
    ensures Siblings(pair, leafs, i, h + 1)
         == Siblings(pair, leafs, i, h) + [Root(pair, Share(leafs, Start(2 * place, h), h), h)]
  {
    hide Two, Start, Node, Root, Share, Siblings, Sibling, Ancestor;
    SiblingsSnoc(pair, leafs, i, h);
    SiblingOfChild(place, depth + 1);
    NodeIsRoot(pair, leafs, depth + 1, 2 * place, h);
  }

  /** The path of a leaf on the right ends with the root over the left share. */
  lemma RightPath(pair: PairHash, leafs: seq<Digest>, start: nat, h: nat, low: nat)
    requires start + Two(h + 1) <= |leafs| && low < Two(h)
    ensures start + Two(h) + Two(h) <= |leafs|
    ensures PathIn(pair, Share(leafs, start, h + 1), h + 1, Two(h) + low)
         == PathIn(pair, Share(leafs, start + Two(h), h), h, low) + [Root(pair, Share(leafs, start, h), h)]
  {
    hide Two, Root, Share, PathIn;
    ShareParts(leafs, start, h);
    PathParts(pair, Share(leafs, start, h + 1), h, Two(h) + low);
  }

  lemma RightStart(leafs: seq<Digest>, depth: nat, place: nat, h: nat, low: nat, i: nat)
    requires Below(leafs, depth + 1, 2 * place + 1, h, low) && i == |leafs| + Start(place, h + 1) + (Two(h) + low)
    ensures i == |leafs| + Start(2 * place + 1, h) + low && Start(2 * place + 1, h) == Start(place, h + 1) + Two(h)
    ensures Ancestor(i, h) == Two(depth + 1) + 2 * place + 1
  {
    hide Two, Start, Ancestor;
    StartOfChild(place, h);
    AncestorIs(depth + 1, 2 * place + 1, h, low);
  }

  lemma RightStep(pair: PairHash, leafs: seq<Digest>, depth: nat, place: nat, h: nat, low: nat)
    requires Below(leafs, depth, place, h + 1, Two(h) + low) && Below(leafs, depth + 1, 2 * place + 1, h, low)
    requires PathAt(pair, leafs, depth + 1, 2 * place + 1, h, low)
    ensures PathAt(pair, leafs, depth, place, h + 1, Two(h) + low)
  {
    hide Two, Start, Node, Root, Share, Siblings, PathIn, Sibling, Ancestor;
    BelowFits(leafs, depth, place, h + 1, Two(h) + low);
    BelowFits(leafs, depth + 1, 2 * place + 1, h, low);
    var i := |leafs| + Start(place, h + 1) + (Two(h) + low);
    RightStart(leafs, depth, place, h, low, i);
    StartOfChild(place, h);
    RightSibling(pair, leafs, depth, place, h, i);
    RightPath(pair, leafs, Start(place, h + 1), h, low);
  }

  /** The siblings of a leaf, up to a node, are its authentication path in that node's share. */
  lemma {:induction false} SiblingsArePath(pair: PairHash, leafs: seq<Digest>, depth: nat, place: nat, height: nat, index: nat)
    requires Below(leafs, depth, place, height, index)
    ensures PathAt(pair, leafs, depth, place, height, index)
    decreases height
  {
    hide PathAt, Two;
    if height == 0 {
      PathAtLeaf(pair, leafs, depth, place);
    } else {
      var h := height - 1;
      TwoNext(depth);
      TwoNext(h);
      if index < Two(h) {
        SiblingsArePath(pair, leafs, depth + 1, 2 * place, h, index);
        LeftStep(pair, leafs, depth, place, h, index);
      } else {
        SiblingsArePath(pair, leafs, depth + 1, 2 * place + 1, h, index - Two(h));
        RightStep(pair, leafs, depth, place, h, index - Two(h));
      }
    }
  }

  lemma PathAtLeaf(pair: PairHash, leafs: seq<Digest>, depth: nat, place: nat)
    requires |leafs| == Two(depth) && place < Two(depth)
    ensures Two(0) == 1 && PathAt(pair, leafs, depth, place, 0, 0)
  {
    LastStart(place);
    BelowFits(leafs, depth, place, 0, 0);
  }

  lemma WholePath(pair: PairHash, leafs: seq<Digest>, height: nat, index: nat)
    requires |leafs| == Two(height) && index < |leafs|
    ensures Two(height) <= |leafs| + index < 2 * |leafs|
    ensures Siblings(pair, leafs, |leafs| + index, height) == PathIn(pair, leafs, height, index)
  {
    hide Siblings, PathIn;
    SiblingsArePath(pair, leafs, 0, 0, height, index);
    assert Share(leafs, Start(0, height), height) == leafs;
  }
}
