/** The claim binder of a pinned program: it writes the encoding of the expected claim from digests on the stack. */
module FixedClaim {
  import opened Digests
  import opened Words
  import opened Machine
  import opened Control
  import opened Legalize
  import opened Storing

  const ADDRESS: nat := 0x400_0000 + 256
  const DIGEST: nat := 5

  // ----- the expected claim -----

  function Flat(digests: seq<Digest>): (r: seq<Word>)
    ensures |r| == 5 * |digests|
  {
    if digests == [] then [] else digests[0] + Flat(digests[1..])
  }

  function Turned(digests: seq<Digest>): (r: seq<Digest>)
    ensures |r| == |digests|
  {
    seq(|digests|, i requires 0 <= i < |digests| => Rev(digests[i]))
  }

  /** The input of the expected claim: the digests in order, each one back to front. */
  function ExpectedInput(digests: seq<Digest>): (r: seq<Word>)
    ensures |r| == 5 * |digests|
  {
    Flat(Turned(digests))
  }

  /** How a claim with the pinned program is written as words, given its input. */
  type Codec = seq<Word> -> seq<Word>

  /** The codec copies the words of every input of this width to the places `layout`, and writes all else the same. */
  ghost predicate Copies(encode: Codec, layout: seq<nat>, width: nat) {
    && |layout| == width
    && (forall u: seq<Word>, i | |u| == width && 0 <= i < width :: layout[i] < |encode(u)| && encode(u)[layout[i]] == u[i])
    && (forall u: seq<Word>, v: seq<Word> | |u| == width && |v| == width :: |encode(u)| == |encode(v)|)
    && (forall u: seq<Word>, v: seq<Word>, p | |u| == width && |v| == width && 0 <= p < |encode(u)| && p < |encode(v)| && p !in layout ::
          encode(u)[p] == encode(v)[p])
  }

  // ----- where the input words go -----

  function Markers(width: nat): (r: seq<Word>)
    requires width < 1_000_000
    ensures |r| == width
  {
    seq(width, i requires 0 <= i < width => 1_000_000 + i)
  }

  /** The offsets at which the template holds the word. */
  function PlacesOf(template: seq<Word>, w: Word): (r: seq<nat>)
    ensures forall p: nat :: p in r <==> p < |template| && template[p] == w
  {
    if template == [] then [] else
    var last := |template| - 1;
    PlacesOf(template[..last], w) + if template[last] == w then [last] else []
  }

  /** The place of each marker; none if some marker does not occur exactly once. */
  function Positions(template: seq<Word>, markers: seq<Word>): (r: Option<seq<nat>>)
    ensures r.Some? ==> |r.value| == |markers| && forall p :: p in r.value ==> p < |template|
  {
    if markers == [] then Some([]) else
    var n := |markers| - 1;
    var before := Positions(template, markers[..n]);
    var here := PlacesOf(template, markers[n]);
    if before.None? || |here| != 1 then None else Some(before.value + here)
  }

  /** Which input word the `popped`-th word from the top of the stack becomes. */
  function InputIndex(width: nat, popped: nat): (i: nat)
    requires popped < width && width % 5 == 0
    ensures i < width
  {
    (width - 1 - popped) / 5 * 5 + popped % 5
  }

  // ----- the code -----

  function ConstantCode(template: seq<Word>, offset: nat): seq<Instr>
    requires offset < |template|
  {
    [Instr.Push(template[offset])] + StoreCode(ADDRESS + offset)
  }

  function ConstantsCode(template: seq<Word>, positions: seq<nat>, offset: nat): seq<Instr>
    requires offset <= |template|
    decreases |template| - offset
  {
    if offset == |template| then []
    else (if offset in positions then [] else ConstantCode(template, offset)) + ConstantsCode(template, positions, offset + 1)
  }

  function PopsCode(positions: seq<nat>, popped: nat): seq<Instr>
    requires popped <= |positions| && |positions| % 5 == 0
    decreases |positions| - popped
  {
    if popped == |positions| then []
    else StoreCode(ADDRESS + positions[InputIndex(|positions|, popped)]) + PopsCode(positions, popped + 1)
  }

  function BinderCode(template: seq<Word>, positions: seq<nat>): seq<Instr>
    requires |positions| % 5 == 0
  {
    ConstantsCode(template, positions, 0) + PopsCode(positions, 0)
  }

  function TurnCode(): seq<Instr> {
    [Instr.Swap(4), Instr.Swap(1), Instr.Swap(3), Instr.Swap(1)]
  }

  function CommitCode(size: nat, hash: string, verifier: string): seq<Instr> {
    [Instr.Push(Lit(ADDRESS)), Instr.Push(Lit(size)), Instr.Call(hash)] + TurnCode() + [Instr.Call(verifier), Instr.Return]
  }

  predicate IsNameChar(c: char) {
    'a' <= c <= 'z' || 'A' <= c <= 'Z' || '0' <= c <= '9' || c == '_'
  }

  predicate IsName(name: string) {
    name != "" && forall k :: 0 <= k < |name| ==> IsNameChar(name[k])
  }

  /** The whole subroutine; none where the generator panics. */
  function ClaimCode(entrypoint: string, encode: Codec, count: nat, hash: string, verifier: string): Option<seq<Instr>> {
    if !IsName(entrypoint) || !(1 <= count <= 3) then None else
    var template := encode(Markers(5 * count));
    var positions := Positions(template, Markers(5 * count));
    if positions.None? then None
    else Some([Label(entrypoint)] + BinderCode(template, positions.value) + CommitCode(|template|, hash, verifier))
  }

  method EmitConstants(template: seq<Word>, positions: seq<nat>, out: Output)
    modifies out
    ensures out.lines == old(out.lines) + ConstantsCode(template, positions, 0)
  {
    hide StoreCode;
    var offset: nat := 0;
    ghost var written := [];
    while offset < |template|
      invariant offset <= |template|
      invariant out.lines == old(out.lines) + written
      invariant written + ConstantsCode(template, positions, offset) == ConstantsCode(template, positions, 0)
    {
      if offset !in positions {
        var line := ConstantCode(template, offset);
        out.Extend(line);
        Assoc(written, line, ConstantsCode(template, positions, offset + 1));
        Assoc(old(out.lines), written, line);
        written := written + line;
      } else {
        assert [] + ConstantsCode(template, positions, offset + 1) == ConstantsCode(template, positions, offset + 1);
      }
      offset := offset + 1;
    }
    assert written + [] == written;
  }

  method EmitPops(positions: seq<nat>, out: Output)
    requires |positions| % 5 == 0
    modifies out
    ensures out.lines == old(out.lines) + PopsCode(positions, 0)
  {
    hide StoreCode;
    var width := |positions|;
    var popped: nat := 0;
    ghost var written := [];
    while popped < width
      invariant popped <= width
      invariant out.lines == old(out.lines) + written
      invariant written + PopsCode(positions, popped) == PopsCode(positions, 0)
    {
      var group := (width - 1 - popped) / DIGEST;
      var inputIndex := group * DIGEST + popped % DIGEST;
      var line := StoreCode(ADDRESS + positions[inputIndex]);
      out.Extend(line);
      Assoc(written, line, PopsCode(positions, popped + 1));
      Assoc(old(out.lines), written, line);
      written := written + line;
      popped := popped + 1;
    }
    assert written + [] == written;
  }

  method FixedClaimAssembly(entrypoint: string, encode: Codec, count: nat, hash: string, verifier: string)
    returns (code: Option<seq<Instr>>)
    ensures code == ClaimCode(entrypoint, encode, count, hash, verifier)
  {
    hide Positions, ConstantsCode, PopsCode, CommitCode, IsName, Markers;
    if !IsName(entrypoint) || !(1 <= count <= 3) {
      return None;
    }
    var width := count * DIGEST;
    var template := encode(Markers(width));
    var found := Positions(template, Markers(width));
    if found.None? {
      return None;
    }
    var out := new Output();
    out.Push(Label(entrypoint));
    EmitConstants(template, found.value, out);
    EmitPops(found.value, out);
    Assoc([Label(entrypoint)], ConstantsCode(template, found.value, 0), PopsCode(found.value, 0));
    assert out.lines == [Label(entrypoint)] + BinderCode(template, found.value);
    out.Extend(CommitCode(|template|, hash, verifier));
    assert width == 5 * count;
    code := Some(out.lines);
  }

  // ----- the order of the words -----

  /** Taking the words off the stack reverses the order of the groups of five and keeps the order within a group. */
  lemma InputIndexTwice(width: nat, popped: nat)
    requires popped < width && width % 5 == 0
    ensures InputIndex(width, InputIndex(width, popped)) == popped
    ensures InputIndex(width, popped) / 5 == width / 5 - 1 - popped / 5 && InputIndex(width, popped) % 5 == popped % 5
  {
    var c, a, b := width / 5, popped / 5, popped % 5;
    assert width - 1 - popped == 5 * (c - 1 - a) + (4 - b);
    var i := InputIndex(width, popped);
    assert i == 5 * (c - 1 - a) + b;
    assert width - 1 - i == 5 * a + (4 - b);
  }

  lemma {:induction false} FlatAt(digests: seq<Digest>, i: nat)
    requires i < 5 * |digests|
    ensures Flat(digests)[i] == digests[i / 5][i % 5]
    decreases |digests|
  {
    if i >= 5 {
      FlatAt(digests[1..], i - 5);
    }
  }

  /** Counted from the top, a word stands in the group that it is stored in, at the mirrored place. */
  lemma SameGroup(count: nat, popped: nat)
    requires popped < 5 * count
    ensures var i, j := InputIndex(5 * count, popped), 5 * count - 1 - popped;
      0 <= j / 5 == i / 5 < count && 0 <= i % 5 < 5 && j % 5 == 4 - i % 5
  {
    hide InputIndex;
    InputIndexTwice(5 * count, popped);
    var a, b := popped / 5, popped % 5;
    assert 5 * count - 1 - popped == 5 * (count - 1 - a) + (4 - b);
  }

  /** A word popped is the input word it is stored as. */
  lemma PoppedIsInput(digests: seq<Digest>, popped: nat)
    requires popped < 5 * |digests|
    ensures Rev(Flat(digests))[popped] == ExpectedInput(digests)[InputIndex(5 * |digests|, popped)]
  {
    hide Flat, InputIndex, Turned, Rev;
    var i, j := InputIndex(5 * |digests|, popped), 5 * |digests| - 1 - popped;
    var group, place := i / 5, i % 5;
    SameGroup(|digests|, popped);
    FlatAt(Turned(digests), i);
    TurnedAt(digests, group, place);
    FlatAt(digests, j);
    RevAt(Flat(digests), popped);
  }

  lemma TurnedAt(digests: seq<Digest>, group: nat, place: nat)
    requires group < |digests| && place < 5
    ensures Turned(digests)[group][place] == digests[group][4 - place]
  {}

  lemma RevAt(words: seq<Word>, i: nat)
    requires i < |words|
    ensures Rev(words)[i] == words[|words| - 1 - i]
  {}
}
