/** What the claim binder does when it runs: memory holds the encoding of the expected claim, word for word. */
module ClaimBinding {
  import opened Digests
  import opened Words
  import opened Machine
  import opened Control
  import opened Legalize
  import opened Storing
  import opened FixedClaim

  // ----- the places found are the codec's own -----

  predicate Unique(template: seq<Word>, w: Word) {
    |PlacesOf(template, w)| == 1
  }

  /** The places are found exactly when every marker occurs once, and each is then where its marker stands. */
  lemma {:induction false} PositionsFound(template: seq<Word>, markers: seq<Word>)
    ensures Positions(template, markers).Some? <==> forall i :: 0 <= i < |markers| ==> Unique(template, markers[i])
    ensures Positions(template, markers).Some? ==>
      forall i, p :: 0 <= i < |markers| && 0 <= p < |template| && template[p] == markers[i] ==> p == Positions(template, markers).value[i]
    decreases |markers|
  {
    if markers != [] {
      var n := |markers| - 1;
      PositionsFound(template, markers[..n]);
      var here := PlacesOf(template, markers[n]);
      forall i | 0 <= i < |markers|
        ensures i == n || (i < n && markers[i] == markers[..n][i])
      {}
      if Unique(template, markers[n]) {
        forall p | 0 <= p < |template| && template[p] == markers[n]
          ensures p == here[0]
        {
          assert p in here;
        }
      }
    }
  }

  /** Where the markers are found is where the codec puts the input words, one place for each. */
  lemma PositionsAreLayout(encode: Codec, layout: seq<nat>, width: nat)
    requires width < 1_000_000 && Copies(encode, layout, width)
    requires Positions(encode(Markers(width)), Markers(width)).Some?
    ensures Positions(encode(Markers(width)), Markers(width)).value == layout
    ensures forall i, j :: 0 <= i < j < width ==> layout[i] != layout[j]
  {
    var markers := Markers(width);
    var template := encode(markers);
    PositionsFound(template, markers);
    forall i | 0 <= i < width
      ensures Positions(template, markers).value[i] == layout[i]
    {
      assert template[layout[i]] == markers[i];
    }
    forall i, j | 0 <= i < j < width
      ensures layout[i] != layout[j]
    {
      assert template[layout[i]] == markers[i] && template[layout[j]] == markers[j];
    }
  }

  lemma {:induction false} PlacesRise(template: seq<Word>, w: Word, i: nat, j: nat)
    requires i < j < |PlacesOf(template, w)|
    ensures PlacesOf(template, w)[i] < PlacesOf(template, w)[j]
    decreases |template|
  {
    var last := |template| - 1;
    var before := PlacesOf(template[..last], w);
    if j < |before| {
      PlacesRise(template[..last], w, i, j);
    } else {
      assert before[i] in before;
    }
  }

  /** The word stands at one place and no other. */
  ghost predicate StandsOnce(template: seq<Word>, w: Word) {
    exists p :: 0 <= p < |template| && template[p] == w && forall q :: 0 <= q < |template| && template[q] == w ==> q == p
  }

  lemma UniqueIsOnce(template: seq<Word>, w: Word)
    ensures Unique(template, w) <==> StandsOnce(template, w)
  {
    var places := PlacesOf(template, w);
    if Unique(template, w) {
      assert places[0] in places;
      forall q | 0 <= q < |template| && template[q] == w
        ensures q == places[0]
      {
        assert q in places;
      }
    }
    if StandsOnce(template, w) {
      var p :| 0 <= p < |template| && template[p] == w && forall q :: 0 <= q < |template| && template[q] == w ==> q == p;
      assert p in places;
      if |places| > 1 {
        assert places[0] in places && places[1] in places;
        PlacesRise(template, w, 0, 1);
      }
    }
  }

  /** Written with a million and up for the input words, the claim has the `i`-th of them at one place and no other. */
  ghost predicate WordAtOnePlace(encode: Codec, count: nat, i: nat)
    requires i < 5 * count < 1_000_000
  {
    StandsOnce(encode(seq(5 * count, k requires 0 <= k < 5 * count => 1_000_000 + k)), 1_000_000 + i)
  }

  /**
   * There is a binder exactly for names of letters, digits and underscores, for one to three digests, and for codecs
   * that copy each of the marked input words to one place.
   */
  lemma BinderIsMadeExactly(entrypoint: string, encode: Codec, count: nat, hash: string, verifier: string)
    requires 5 * count < 1_000_000
    ensures ClaimCode(entrypoint, encode, count, hash, verifier).Some? <==>
      && entrypoint != ""
      && (forall k :: 0 <= k < |entrypoint| ==>
            var c := entrypoint[k]; 'a' <= c <= 'z' || 'A' <= c <= 'Z' || '0' <= c <= '9' || c == '_')
      && 1 <= count <= 3
      && forall i :: 0 <= i < 5 * count ==> WordAtOnePlace(encode, count, i)
  {
    hide StandsOnce, Unique, Positions, BinderCode, CommitCode;
    var markers := Markers(5 * count);
    var template := encode(markers);
    assert markers == seq(5 * count, k requires 0 <= k < 5 * count => 1_000_000 + k);
    PositionsFound(template, markers);
    forall i | 0 <= i < 5 * count
      ensures Unique(template, markers[i]) <==> WordAtOnePlace(encode, count, i)
    {
      UniqueIsOnce(template, markers[i]);
    }
  }

  // ----- storing -----

  /** `after` is `before` with the constant words of the template from `offset` on. */
  ghost predicate HoldsConstants(before: Ram, after: Ram, template: seq<Word>, positions: seq<nat>, offset: nat) {
    forall x: Word :: Read(after, x) ==
      if offset <= x - ADDRESS < |template| && (x - ADDRESS) !in positions then template[x - ADDRESS] else Read(before, x)
  }

  lemma {:induction false} ConstantsStore(s: State, template: seq<Word>, positions: seq<nat>, offset: nat) returns (ram: Ram)
    requires ADDRESS + |template| <= P && offset <= |template|
    ensures Exec(ConstantsCode(template, positions, offset), s) == Some(s.(ram := ram))
    ensures HoldsConstants(s.ram, ram, template, positions, offset)
    decreases |template| - offset
  {
    hide Basic, WriteUp, At, ConstantCode;
    if offset == |template| {
      ram := s.ram;
    } else if offset in positions {
      ram := ConstantsStore(s, template, positions, offset + 1);
      var rest := ConstantsCode(template, positions, offset + 1);
      assert [] + rest == rest;
      ConstantsSkip(s.ram, ram, template, positions, offset);
    } else {
      var a, w := ADDRESS + offset, template[offset];
      var s1 := s.(ram := WriteUp(s.ram, a, [w]));
      ConstantStores(s, template, offset);
      ram := ConstantsStore(s1, template, positions, offset + 1);
      ChainCat(ConstantCode(template, offset), ConstantsCode(template, positions, offset + 1), s, s1, s.(ram := ram));
      forall x: Word
        ensures Read(s1.ram, x) == if x == a then w else Read(s.ram, x)
      {
        ReadStored(s.ram, a, w, x);
      }
      ConstantsNext(s.ram, s1.ram, ram, template, positions, offset);
    }
  }

  lemma ConstantsSkip(before: Ram, after: Ram, template: seq<Word>, positions: seq<nat>, offset: nat)
    requires offset < |template| && offset in positions && HoldsConstants(before, after, template, positions, offset + 1)
    ensures HoldsConstants(before, after, template, positions, offset)
  {
    forall x: Word
      ensures Read(after, x) ==
        if offset <= x - ADDRESS < |template| && (x - ADDRESS) !in positions then template[x - ADDRESS] else Read(before, x)
    {
      assert x - ADDRESS == offset ==> (x - ADDRESS) in positions;
    }
  }

  lemma ConstantsNext(before: Ram, middle: Ram, after: Ram, template: seq<Word>, positions: seq<nat>, offset: nat)
    requires offset < |template| && ADDRESS + |template| <= P && offset !in positions
    requires forall x: Word :: Read(middle, x) == if x == ADDRESS + offset then template[offset] else Read(before, x)
    requires HoldsConstants(middle, after, template, positions, offset + 1)
    ensures HoldsConstants(before, after, template, positions, offset)
  {
    forall x: Word
      ensures Read(after, x) ==
        if offset <= x - ADDRESS < |template| && (x - ADDRESS) !in positions then template[x - ADDRESS] else Read(before, x)
    {
      if x - ADDRESS == offset {
        assert (x - ADDRESS) !in positions;
      }
    }
  }

  lemma ConstantStores(s: State, template: seq<Word>, offset: nat)
    requires offset < |template| && ADDRESS + |template| <= P
    ensures Exec(ConstantCode(template, offset), s) == Some(s.(ram := WriteUp(s.ram, ADDRESS + offset, [template[offset]])))
  {
    hide Basic, Exec, WriteUp, StoreCode;
    var w := template[offset];
    OnPush(s, w);
    Exec1(Instr.Push(w), s);
    var s1 := WithStack(s, [w] + s.stack);
    Stores(s1, ADDRESS + offset, w, s.stack);
    ChainCat([Instr.Push(w)], StoreCode(ADDRESS + offset), s, s1, s.(ram := WriteUp(s.ram, ADDRESS + offset, [w])));
  }

  /** The cell that the `popped`-th word from the top goes to. */
  function Target(positions: seq<nat>, popped: nat): int
    requires popped < |positions| && |positions| % 5 == 0
  {
    ADDRESS + positions[InputIndex(|positions|, popped)]
  }

  ghost predicate Fitting(positions: seq<nat>) {
    |positions| % 5 == 0
    && (forall i :: 0 <= i < |positions| ==> ADDRESS + positions[i] < P)
    && (forall i, j :: 0 <= i < j < |positions| ==> positions[i] != positions[j])
  }

  /** `after` is `before` with the words popped from `popped` on, each in its cell. */
  ghost predicate HoldsPopped(before: Ram, after: Ram, positions: seq<nat>, words: seq<Word>, popped: nat)
    requires Fitting(positions) && |words| == |positions|
  {
    && (forall j :: popped <= j < |words| ==> Read(after, Target(positions, j)) == words[j])
    && (forall x: Word :: (forall j :: popped <= j < |words| ==> x != Target(positions, j)) ==> Read(after, x) == Read(before, x))
  }

  lemma TargetsDiffer(positions: seq<nat>, j: nat, k: nat)
    requires Fitting(positions) && j < |positions| && k < |positions| && j != k
    ensures Target(positions, j) != Target(positions, k)
  {
    hide InputIndex;
    InputIndexTwice(|positions|, j);
    InputIndexTwice(|positions|, k);
  }

  lemma {:induction false} PopsStore(s: State, positions: seq<nat>, words: seq<Word>, popped: nat, rest: seq<Word>)
    returns (ram: Ram)
    requires Fitting(positions) && |words| == |positions| && popped <= |words|
    requires s.stack == words[popped..] + rest
    ensures Exec(PopsCode(positions, popped), s) == Some(s.(stack := rest, ram := ram))
    ensures HoldsPopped(s.ram, ram, positions, words, popped)
    decreases |words| - popped
  {
    hide Basic, Exec, WriteUp, At, InputIndex, StoreCode, Fitting, HoldsPopped, PopsCode, Target;
    FittingGroups(positions);
    if popped == |words| {
      ram := s.ram;
      assert words[popped..] + rest == rest;
      NoPops(s, positions);
      NonePopped(s.ram, positions, words);
    } else {
      TargetFits(positions, popped);
      var a, w := Target(positions, popped), words[popped];
      var s1 := s.(stack := words[popped + 1..] + rest, ram := WriteUp(s.ram, a, [w]));
      assert words[popped..] == [w] + words[popped + 1..];
      Assoc([w], words[popped + 1..], rest);
      Stores(s, a, w, words[popped + 1..] + rest);
      ram := PopsStore(s1, positions, words, popped + 1, rest);
      PopsCons(positions, popped);
      ChainCat(StoreCode(a), PopsCode(positions, popped + 1), s, s1, s.(stack := rest, ram := ram));
      forall x: Word
        ensures Read(s1.ram, x) == if x == a then w else Read(s.ram, x)
      {
        ReadStored(s.ram, a, w, x);
      }
      OnePopped(s.ram, s1.ram, ram, positions, words, popped);
    }
  }

  lemma FittingGroups(positions: seq<nat>)
    requires Fitting(positions)
    ensures |positions| % 5 == 0
  {}

  lemma NoPops(s: State, positions: seq<nat>)
    requires |positions| % 5 == 0
    ensures Exec(PopsCode(positions, |positions|), s) == Some(s)
  {}

  lemma PopsCons(positions: seq<nat>, popped: nat)
    requires popped < |positions| && |positions| % 5 == 0
    ensures Target(positions, popped) >= 0
    ensures PopsCode(positions, popped) == StoreCode(Target(positions, popped)) + PopsCode(positions, popped + 1)
  {}

  lemma TargetFits(positions: seq<nat>, popped: nat)
    requires Fitting(positions) && popped < |positions|
    ensures |positions| % 5 == 0 && 0 <= Target(positions, popped) < P
  {}

  lemma NonePopped(ram: Ram, positions: seq<nat>, words: seq<Word>)
    requires Fitting(positions) && |words| == |positions|
    ensures HoldsPopped(ram, ram, positions, words, |words|)
  {}

  lemma OnePopped(before: Ram, middle: Ram, after: Ram, positions: seq<nat>, words: seq<Word>, popped: nat)
    requires Fitting(positions) && |words| == |positions| && popped < |words|
    requires forall x: Word :: Read(middle, x) == if x == Target(positions, popped) then words[popped] else Read(before, x)
    requires HoldsPopped(middle, after, positions, words, popped + 1)
    ensures HoldsPopped(before, after, positions, words, popped)
  {
    hide Target;
    TargetFits(positions, popped);
    forall j | popped < j < |words|
      ensures Target(positions, popped) != Target(positions, j)
    {
      TargetsDiffer(positions, popped, j);
    }
    var a: Word := Target(positions, popped);
    assert Read(after, a) == Read(middle, a);
  }

  // ----- the binder -----

  /** Memory as the two halves of the binder leave it is the block of words that encodes the expected claim. */
  lemma BoundMemory(encode: Codec, digests: seq<Digest>, positions: seq<nat>, before: Ram, middle: Ram, after: Ram, x: Word)
    requires var width := 5 * |digests|; width < 1_000_000 && Copies(encode, positions, width) && Fitting(positions)
    requires ADDRESS + |encode(Markers(5 * |digests|))| <= P
    requires HoldsConstants(before, middle, encode(Markers(5 * |digests|)), positions, 0)
    requires HoldsPopped(middle, after, positions, Rev(Flat(digests)), 0)
    ensures var words := encode(ExpectedInput(digests));
      Read(after, x) == if 0 <= x - ADDRESS < |words| then words[x - ADDRESS] else Read(before, x)
  {
    hide Rev, Flat, InputIndex, ExpectedInput;
    var width := 5 * |digests|;
    var input := ExpectedInput(digests);
    var offset := x - ADDRESS;
    if i: nat :| i < width && positions[i] == offset {
      var j := InputIndex(width, i);
      InputIndexTwice(width, i);
      PoppedIsInput(digests, j);
      assert Target(positions, j) == x;
      assert encode(input)[positions[i]] == input[i];
    } else {
      forall j | 0 <= j < width
        ensures Target(positions, j) != x
      {
        assert positions[InputIndex(width, j)] != offset;
      }
      assert offset !in positions;
    }
  }

  lemma LayoutFits(encode: Codec, layout: seq<nat>, width: nat)
    requires width < 1_000_000 && width % 5 == 0 && Copies(encode, layout, width)
    requires forall i, j :: 0 <= i < j < width ==> layout[i] != layout[j]
    requires ADDRESS + |encode(Markers(width))| <= P
    ensures Fitting(layout)
  {
    forall i | 0 <= i < width
      ensures ADDRESS + layout[i] < P
    {
      assert layout[i] < |encode(Markers(width))|;
    }
  }

  /** A block of memory described cell by cell is a block write. */
  lemma WrittenAt(before: Ram, after: Ram, a: nat, words: seq<Word>)
    requires a < P && a + |words| <= P
    requires forall x: Word :: Read(after, x) == if 0 <= x - a < |words| then words[x - a] else Read(before, x)
    ensures after == WriteUp(before, a, words)
  {
    hide WriteUp;
    forall x: Word
      ensures Read(after, x) == Read(WriteUp(before, a, words), x)
    {
      ReadWriteUp(before, a, words, x);
      assert Off(a, x) == if x >= a then x - a else x - a + P;
    }
    SameRam(after, WriteUp(before, a, words));
  }

  /** The binder pops the digests and writes the encoding of the expected claim, and no other cell. */
  lemma BinderWrites(encode: Codec, layout: seq<nat>, digests: seq<Digest>, s: State, rest: seq<Word>)
    requires var width := 5 * |digests|; width < 1_000_000 && Copies(encode, layout, width)
    requires Positions(encode(Markers(5 * |digests|)), Markers(5 * |digests|)).Some?
    requires ADDRESS + |encode(Markers(5 * |digests|))| <= P
    requires s.stack == Rev(Flat(digests)) + rest
    ensures Exec(BinderCode(encode(Markers(5 * |digests|)), Positions(encode(Markers(5 * |digests|)), Markers(5 * |digests|)).value), s)
         == Some(s.(stack := rest, ram := WriteUp(s.ram, 0x400_0100, encode(ExpectedInput(digests)))))
  {
    hide Basic, Exec, WriteUp, Rev, Flat, ExpectedInput, ConstantsCode, PopsCode, Positions, HoldsConstants, HoldsPopped, Markers, Fitting;
    var width := 5 * |digests|;
    var template := encode(Markers(width));
    var words := encode(ExpectedInput(digests));
    PositionsAreLayout(encode, layout, width);
    LayoutFits(encode, layout, width);
    var middle := ConstantsStore(s, template, layout, 0);
    assert Rev(Flat(digests))[0..] == Rev(Flat(digests));
    var s1 := s.(ram := middle);
    var after := PopsStore(s1, layout, Rev(Flat(digests)), 0, rest);
    forall x: Word
      ensures Read(after, x) == if 0 <= x - ADDRESS < |words| then words[x - ADDRESS] else Read(s.ram, x)
    {
      BoundMemory(encode, digests, layout, s.ram, middle, after, x);
    }
    assert |words| == |template|;
    WrittenAt(s.ram, after, ADDRESS, words);
    ChainCat(ConstantsCode(template, layout, 0), PopsCode(layout, 0), s, s1, s1.(stack := rest, ram := after));
  }

  // ----- handing over to the verifier -----

  lemma TurnsDigest(s: State, d: Digest, rest: seq<Word>)
    requires s.stack == d + rest
    ensures Exec(TurnCode(), s) == Some(WithStack(s, Rev(d) + rest))
  {
    hide Basic, Exec, SwapTop;
    var a, b, c, e, f := d[0], d[1], d[2], d[3], d[4];
    SwapFour(a, b, c, e, f, rest);
    SwapOne(f, b, c, e, a, rest);
    SwapThree(b, f, c, e, a, rest);
    SwapOne(e, f, c, b, a, rest);
    assert d == [a, b, c, e, f];
    var s1 := WithStack(s, [f, b, c, e, a] + rest);
    var s2 := WithStack(s, [b, f, c, e, a] + rest);
    var s3 := WithStack(s, [e, f, c, b, a] + rest);
    var s4 := WithStack(s, [f, e, c, b, a] + rest);
    OnSwapTo(s, 4, s1.stack);
    OnSwapTo(s1, 1, s2.stack);
    OnSwapTo(s2, 3, s3.stack);
    OnSwapTo(s3, 1, s4.stack);
    assert Rev(d) == [f, e, c, b, a];
    Chain4(Instr.Swap(4), Instr.Swap(1), Instr.Swap(3), Instr.Swap(1), s, s1, s2, s3, s4);
  }

  lemma SwapFour<T>(a: T, b: T, c: T, e: T, f: T, rest: seq<T>)
    ensures SwapTop([a, b, c, e, f] + rest, 4) == [f, b, c, e, a] + rest
  {}

  lemma SwapThree<T>(a: T, b: T, c: T, e: T, f: T, rest: seq<T>)
    ensures SwapTop([a, b, c, e, f] + rest, 3) == [e, b, c, a, f] + rest
  {}

  lemma SwapOne<T>(a: T, b: T, c: T, e: T, f: T, rest: seq<T>)
    ensures SwapTop([a, b, c, e, f] + rest, 1) == [b, a, c, e, f] + rest
  {}

  /** The subroutine binds the expected claim, hashes it, and returns what the verifier makes of the reversed commitment. */
  lemma BinderCallsVerifier(env: Env, encode: Codec, layout: seq<nat>, digests: seq<Digest>, entrypoint: string, hash: string, verifier: string,
                            s: State, rest: seq<Word>, hashed: State, d: Digest, verified: State)
    requires 1 <= |digests| <= 3 && Copies(encode, layout, 5 * |digests|)
    requires ClaimCode(entrypoint, encode, |digests|, hash, verifier).Some?
    requires ADDRESS + |encode(Markers(5 * |digests|))| <= P
    requires s.stack == Rev(Flat(digests)) + rest
    requires var words := encode(ExpectedInput(digests));
      Invokes(env, hash, s.(stack := [|words|, ADDRESS] + rest, ram := WriteUp(s.ram, ADDRESS, words)), Done(hashed))
    requires hashed.stack == d + rest && Invokes(env, verifier, WithStack(hashed, Rev(d) + rest), Done(verified))
    ensures Runs(env, ClaimCode(entrypoint, encode, |digests|, hash, verifier).value[1..], s, Returned(verified))
  {
    hide Basic, Exec, WriteUp, Rev, Flat, ExpectedInput, BinderCode, Positions, Markers, Runs, Invokes, Run, IsName, Copies, TurnCode;
    var width := 5 * |digests|;
    var template := encode(Markers(width));
    var words := encode(ExpectedInput(digests));
    var positions := Positions(template, Markers(width)).value;
    var binder, commit := BinderCode(template, positions), CommitCode(|template|, hash, verifier);
    BinderWrites(encode, layout, digests, s, rest);
    SameLength(encode, layout, width, Markers(width), ExpectedInput(digests));
    var s1 := s.(stack := rest, ram := WriteUp(s.ram, ADDRESS, words));
    CommitRuns(env, |words|, hash, verifier, s1, hashed, d, verified, rest);
    BinderIsWhole(template, positions);
    RunsExec(env, binder, s, s1);
    RunsCat(env, binder, commit, s, s1, Returned(verified));
    Assoc([Label(entrypoint)], binder, commit);
    assert ([Label(entrypoint)] + (binder + commit))[1..] == binder + commit;
  }

  lemma SameLength(encode: Codec, layout: seq<nat>, width: nat, u: seq<Word>, v: seq<Word>)
    requires Copies(encode, layout, width) && |u| == width && |v| == width
    ensures |encode(u)| == |encode(v)|
  {}

  lemma CommitRuns(env: Env, size: nat, hash: string, verifier: string, s: State, hashed: State, d: Digest, verified: State, rest: seq<Word>)
    requires size < P && s.stack == rest
    requires Invokes(env, hash, WithStack(s, [size, ADDRESS] + rest), Done(hashed))
    requires hashed.stack == d + rest && Invokes(env, verifier, WithStack(hashed, Rev(d) + rest), Done(verified))
    ensures Runs(env, CommitCode(size, hash, verifier), s, Returned(verified))
  {
    hide Basic, Exec, Rev, Runs, Invokes, Run;
    var pushes := [Instr.Push(Lit(ADDRESS)), Instr.Push(Lit(size))];
    var s1 := WithStack(s, [ADDRESS] + rest);
    var s2 := WithStack(s, [size, ADDRESS] + rest);
    OnPush(s, ADDRESS);
    OnPush(s1, size);
    assert [size] + ([ADDRESS] + rest) == [size, ADDRESS] + rest;
    Chain2(pushes[0], pushes[1], s, s1, s2);
    RunsExec(env, pushes, s, s2);
    var s3 := WithStack(hashed, Rev(d) + rest);
    TurnsDigest(hashed, d, rest);
    RunsExec(env, TurnCode(), hashed, s3);
    RunsCall(env, hash, s2, Done(hashed));
    RunsCall(env, verifier, s3, Done(verified));
    RunsLast(env, Return, verified);
    var o := Returned(verified);
    RunsCat(env, [Instr.Call(verifier)], [Instr.Return], s3, verified, o);
    var last := [Instr.Call(verifier)] + [Instr.Return];
    RunsCat(env, TurnCode(), last, hashed, s3, o);
    RunsCat(env, [Instr.Call(hash)], TurnCode() + last, s2, hashed, o);
    RunsCat(env, pushes, [Instr.Call(hash)] + (TurnCode() + last), s, s2, o);
    Assoc(pushes, [Instr.Call(hash)], TurnCode() + last);
    Assoc(pushes + [Instr.Call(hash)], TurnCode(), last);
    assert last == [Instr.Call(verifier), Instr.Return];
    assert pushes + [Instr.Call(hash)] == [Instr.Push(Lit(ADDRESS)), Instr.Push(Lit(size)), Instr.Call(hash)];
  }

  lemma {:induction false} BinderIsWhole(template: seq<Word>, positions: seq<nat>)
    requires |positions| % 5 == 0
    ensures Whole(BinderCode(template, positions))
  {
    hide ConstantsCode, PopsCode;
    ConstantsWhole(template, positions, 0);
    PopsWhole(positions, 0);
  }

  lemma {:induction false} ConstantsWhole(template: seq<Word>, positions: seq<nat>, offset: nat)
    requires offset <= |template|
    ensures Whole(ConstantsCode(template, positions, offset))
    decreases |template| - offset
  {
    if offset < |template| {
      ConstantsWhole(template, positions, offset + 1);
    }
  }

  lemma {:induction false} PopsWhole(positions: seq<nat>, popped: nat)
    requires popped <= |positions| && |positions| % 5 == 0
    ensures Whole(PopsCode(positions, popped))
    decreases |positions| - popped
  {
    if popped < |positions| {
      PopsWhole(positions, popped + 1);
    }
  }
}
