/** The public-input adapter in front of a program entry: what it reads, what it refuses, and where it may stand. */
module Entry {
  import opened Words
  import opened Machine
  import opened Control
  import opened Legalize
  import opened Primality

  datatype Leaf = Field | Bool | U32 | Unresolved(name: string)

  // ----- the words an entry accepts -----

  predicate Admits(leaf: Leaf, x: Word) {
    match leaf
    case Field => true
    case Bool => x <= 1
    case U32 => IsU32(x)
    case Unresolved(_) => false
  }

  predicate AdmitsAll(leaves: seq<Leaf>, words: seq<Word>)
    requires |leaves| <= |words|
  {
    forall k :: 0 <= k < |leaves| ==> Admits(leaves[k], words[k])
  }

  predicate Resolved(leaves: seq<Leaf>) {
    forall k :: 0 <= k < |leaves| ==> !leaves[k].Unresolved?
  }

  // ----- the code -----

  function CheckCode(leaf: Leaf): seq<Instr> {
    match leaf
    case Bool =>
      [Instr.Dup(0), Instr.Dup(0), Instr.Push(Lit(-1)), Add, Mul] + [Instr.Push(0), Eq, Assert]
    case U32 => [Split, Instr.Swap(1)] + [Instr.Push(0), Eq, Assert]
    case _ => []
  }

  function LeafCode(leaf: Leaf): seq<Instr> {
    [Instr.ReadIo(1)] + CheckCode(leaf)
  }

  function EmitCode(leaves: seq<Leaf>): seq<Instr> {
    if leaves == [] then [] else LeafCode(leaves[0]) + EmitCode(leaves[1..])
  }

  method Emit(leaves: seq<Leaf>, out: Output)
    requires Resolved(leaves)
    modifies out
    ensures out.lines == old(out.lines) + EmitCode(leaves)
  {
    hide CheckCode;
    ghost var written := [];
    var k := 0;
    while k < |leaves|
      invariant 0 <= k <= |leaves|
      invariant out.lines == old(out.lines) + written
      invariant written + EmitCode(leaves[k..]) == EmitCode(leaves)
    {
      out.Push(Instr.ReadIo(1));
      out.Extend(CheckCode(leaves[k]));
      assert leaves[k..][1..] == leaves[k + 1..];
      Assoc(written, LeafCode(leaves[k]), EmitCode(leaves[k + 1..]));
      Assoc(old(out.lines) + written, [Instr.ReadIo(1)], CheckCode(leaves[k]));
      Assoc(old(out.lines), written, LeafCode(leaves[k]));
      written := written + LeafCode(leaves[k]);
      k := k + 1;
    }
    assert written + [] == written;
  }

  // ----- what the code does -----

  function MinusOne(x: Word): Word {
    (Lit(-1) + x) % P
  }

  /** x(x - 1) is zero in the field only for zero and one. */
  lemma BoolTest(x: Word)
    ensures (MinusOne(x) as int * x as int) % P == 0 <==> x <= 1
  {
    var y := MinusOne(x);
    assert x >= 1 ==> y == x - 1;
    if x <= 1 {
      assert y == 0 || x == 0;
      assert y as int * x as int == 0;
    } else if (y as int * x as int) % P == 0 {
      NoZeroDivisors(y, x);
    }
  }

  /** The last three instructions of a check: go on if the word on top is zero. */
  lemma ZeroTest(s: State, x: Word, rest: seq<Word>)
    requires s.stack == [x] + rest
    ensures Exec([Instr.Push(0), Eq, Assert], s) == if x == 0 then Some(WithStack(s, rest)) else None
  {
    hide Basic, Exec;
    var s1 := WithStack(s, [0] + ([x] + rest));
    OnPush(s, 0);
    var s2 := WithStack(s, [Bit(0 == x)] + rest);
    OnBinary(Eq, s1, 0, x, rest, Bit(0 == x));
    OnAssert(s2, Bit(0 == x), rest);
    Chain2(Instr.Push(0), Eq, s, s1, s2);
    ExecSnoc([Instr.Push(0), Eq], Assert, s);
    assert [Instr.Push(0), Eq] + [Assert] == [Instr.Push(0), Eq, Assert];
  }

  lemma ChecksBool(s: State, x: Word, rest: seq<Word>)
    requires s.stack == [x] + rest
    ensures Exec(CheckCode(Bool), s) == if x <= 1 then Some(s) else None
  {
    hide Basic, Exec, MinusOne;
    var s1 := WithStack(s, [x] + s.stack);
    var s2 := WithStack(s, [x] + ([x] + s.stack));
    var s3 := WithStack(s, [Lit(-1)] + ([x] + ([x] + s.stack)));
    var s4 := WithStack(s, [MinusOne(x)] + ([x] + s.stack));
    var z: Word := (MinusOne(x) as int * x as int) % P;
    var s5 := WithStack(s, [z] + s.stack);
    OnDup(s, 0);
    OnDup(s1, 0);
    OnPush(s2, Lit(-1));
    AddsMinusOne(s3, x, [x] + s.stack);
    OnBinary(Mul, s4, MinusOne(x), x, s.stack, z);
    Chain5(Instr.Dup(0), Instr.Dup(0), Instr.Push(Lit(-1)), Add, Mul, s, s1, s2, s3, s4, s5);
    ZeroTest(s5, z, s.stack);
    BoolTest(x);
    ExecCat([Instr.Dup(0), Instr.Dup(0), Instr.Push(Lit(-1)), Add, Mul], [Instr.Push(0), Eq, Assert], s);
  }

  lemma AddsMinusOne(s: State, x: Word, rest: seq<Word>)
    requires s.stack == [Lit(-1)] + ([x] + rest)
    ensures Basic(Add, s) == Some(WithStack(s, [MinusOne(x)] + rest))
  {
    OnBinary(Add, s, Lit(-1), x, rest, MinusOne(x));
  }

  /** Splitting leaves the low half on top; the check turns over to the high half and wants it zero. */
  lemma ChecksU32(s: State, x: Word, rest: seq<Word>)
    requires s.stack == [x] + rest
    ensures Exec(CheckCode(U32), s) == if IsU32(x) then Some(s) else None
  {
    hide Basic, Exec;
    var low: Word, high: Word := x % 0x1_0000_0000, x / 0x1_0000_0000;
    var s1 := WithStack(s, [low] + ([high] + rest));
    OnSplit(s, x, rest);
    var s2 := WithStack(s, [high] + ([low] + rest));
    OnSwap(s1, low, high, rest);
    Chain2(Split, Instr.Swap(1), s, s1, s2);
    ZeroTest(s2, high, [low] + rest);
    ExecCat([Split, Instr.Swap(1)], [Instr.Push(0), Eq, Assert], s);
  }

  lemma OnSplit(s: State, x: Word, rest: seq<Word>)
    requires s.stack == [x] + rest
    ensures Basic(Split, s) == Some(WithStack(s, [x % 0x1_0000_0000] + ([x / 0x1_0000_0000] + rest)))
  {
    var low, high := x % 0x1_0000_0000, x / 0x1_0000_0000;
    assert s.stack[1..] == rest;
    assert [low, high] + rest == [low] + ([high] + rest);
  }

  lemma ChecksLeaf(leaf: Leaf, s: State, x: Word, rest: seq<Word>)
    requires !leaf.Unresolved? && s.stack == [x] + rest
    ensures Exec(CheckCode(leaf), s) == if Admits(leaf, x) then Some(s) else None
  {
    match leaf
    case Field => assert Exec([], s) == Some(s);
    case Bool => ChecksBool(s, x, rest);
    case U32 => ChecksU32(s, x, rest);
  }

  lemma ReadsLeaf(leaf: Leaf, s: State)
    requires !leaf.Unresolved?
    ensures Exec(LeafCode(leaf), s)
         == if s.input != [] && Admits(leaf, s.input[0]) then Some(s.(stack := [s.input[0]] + s.stack, input := s.input[1..])) else None
  {
    hide Exec, CheckCode;
    ExecCat([Instr.ReadIo(1)], CheckCode(leaf), s);
    Exec1(Instr.ReadIo(1), s);
    if s.input != [] {
      assert Rev(s.input[..1]) == [s.input[0]];
      var s1 := s.(stack := [s.input[0]] + s.stack, input := s.input[1..]);
      ChecksLeaf(leaf, s1, s.input[0], s.stack);
    }
  }

  /** The adapter goes on if and only if the input starts with admissible words, which it moves to the stack. */
  lemma {:induction false} EntryAccepts(leaves: seq<Leaf>, s: State)
    requires Resolved(leaves)
    ensures Exec(EmitCode(leaves), s)
         == if |leaves| <= |s.input| && AdmitsAll(leaves, s.input)
            then Some(s.(stack := Rev(s.input[..|leaves|]) + s.stack, input := s.input[|leaves|..]))
            else None
    decreases |leaves|
  {
    hide Basic, LeafCode, Admits, Rev;
    if leaves == [] {
      assert s.input[..0] == [] && s.input[0..] == s.input;
      assert Rev(s.input[..0]) + s.stack == s.stack;
    } else {
      var rest := leaves[1..];
      ReadsLeaf(leaves[0], s);
      ExecCat(LeafCode(leaves[0]), EmitCode(rest), s);
      if s.input != [] && Admits(leaves[0], s.input[0]) {
        var s1 := s.(stack := [s.input[0]] + s.stack, input := s.input[1..]);
        EntryAccepts(rest, s1);
        AdmitsTail(leaves, s.input);
        if |leaves| <= |s.input| {
          RevTail(s.input, |leaves|);
          Assoc(Rev(s.input[1..][..|rest|]), [s.input[0]], s.stack);
        }
      }
    }
  }

  lemma AdmitsTail(leaves: seq<Leaf>, words: seq<Word>)
    requires leaves != [] && words != [] && Admits(leaves[0], words[0])
    ensures |leaves| <= |words| ==> (AdmitsAll(leaves, words) <==> AdmitsAll(leaves[1..], words[1..]))
  {
    hide Admits;
    if |leaves| <= |words| && AdmitsAll(leaves[1..], words[1..]) {
      forall k | 0 <= k < |leaves|
        ensures Admits(leaves[k], words[k])
      {
        if k > 0 {
          assert Admits(leaves[1..][k - 1], words[1..][k - 1]);
        }
      }
    }
  }

  lemma RevTail(words: seq<Word>, n: nat)
    requires 1 <= n <= |words|
    ensures Rev(words[..n]) == Rev(words[1..][..n - 1]) + [words[0]]
    ensures words[1..][n - 1..] == words[n..]
  {}

  lemma {:induction false} EmitIsWhole(leaves: seq<Leaf>)
    ensures Whole(EmitCode(leaves))
  {
    if leaves != [] {
      EmitIsWhole(leaves[1..]);
    }
  }

  /** In front of a program: admissible input goes on to the program, with the arguments on the stack. */
  lemma TypedEntryRuns(env: Env, leaves: seq<Leaf>, program: seq<Instr>, s: State, o: Outcome)
    requires Resolved(leaves) && |leaves| <= |s.input| && AdmitsAll(leaves, s.input)
    requires Runs(env, program, s.(stack := Rev(s.input[..|leaves|]) + s.stack, input := s.input[|leaves|..]), o)
    ensures Runs(env, EmitCode(leaves) + program, s, o)
  {
    hide Basic, Exec, Runs, EmitCode, AdmitsAll, Rev;
    var t := s.(stack := Rev(s.input[..|leaves|]) + s.stack, input := s.input[|leaves|..]);
    EntryAccepts(leaves, s);
    EmitIsWhole(leaves);
    RunsExec(env, EmitCode(leaves), s, t);
    RunsCat(env, EmitCode(leaves), program, s, t, o);
  }

  // ----- where the metadata may stand -----

  /** An operation as far as the placement of the entry depends on it. */
  datatype Item =
    | FnStart | FnEnd | Entry
    | EntryParameters(leaves: seq<Leaf>)
    | IfElse(thenBody: seq<Item>, elseBody: seq<Item>)
    | Body(body: seq<Item>)   // a one-armed branch, a loop or a proof block
    | Other

  predicate NoEntries(items: seq<Item>) {
    forall k :: 0 <= k < |items| ==> !items[k].Entry? && !items[k].EntryParameters? && NestedFree(items[k])
  }

  predicate NestedFree(item: Item) {
    match item
    case IfElse(t, e) => NoEntries(t) && NoEntries(e)
    case Body(b) => NoEntries(b)
    case _ => true
  }

  /** A function has been opened before position `k` and not closed since. */
  predicate InFunction(items: seq<Item>, k: nat)
    requires k <= |items|
  {
    k > 0 && (items[k - 1].FnStart? || (!items[k - 1].FnEnd? && InFunction(items, k - 1)))
  }

  predicate ItemPlaced(items: seq<Item>, k: nat)
    requires k < |items|
  {
    match items[k]
    case Entry => !InFunction(items, k)
    case EntryParameters(leaves) => !InFunction(items, k) && k + 1 < |items| && items[k + 1].Entry? && Resolved(leaves)
    case item => NestedFree(item)
  }

  /** At most one entry, at top level and outside functions; its parameters, if any, resolved and directly before it. */
  predicate WellPlaced(items: seq<Item>) {
    && (forall k :: 0 <= k < |items| ==> ItemPlaced(items, k))
    && (forall j, k :: 0 <= j < k < |items| ==> !(items[j].Entry? && items[k].Entry?))
  }

  /** What has been checked before position `k`. */
  ghost predicate PlacedSoFar(items: seq<Item>, k: nat, seen: bool, seenEntry: bool)
    requires k <= |items|
  {
    && (forall j :: 0 <= j < k ==> ItemPlaced(items, j))
    && (forall i, j :: 0 <= i < j < k ==> !(items[i].Entry? && items[j].Entry?))
    && (seenEntry <==> exists j :: 0 <= j < k && items[j].Entry?)
    && (seen <==> exists j :: 0 <= j < k && items[j].EntryParameters?)
  }

  method ValidateStructure(items: seq<Item>, topLevel: bool) returns (ok: bool)
    ensures ok <==> if topLevel then WellPlaced(items) else NoEntries(items)
    decreases items
  {
    var seenEntry, inFunction, seen := false, false, false;
    var k := 0;
    while k < |items|
      invariant 0 <= k <= |items|
      invariant topLevel ==> inFunction == InFunction(items, k) && PlacedSoFar(items, k, seen, seenEntry)
      invariant !topLevel ==> forall j :: 0 <= j < k ==> !items[j].Entry? && !items[j].EntryParameters? && NestedFree(items[j])
    {
      match items[k] {
        case FnStart => inFunction := true;
        case FnEnd => inFunction := false;
        case EntryParameters(leaves) =>
          if !topLevel || inFunction || seen || seenEntry || !(k + 1 < |items| && items[k + 1].Entry?) {
            if topLevel {
              SecondParameters(items, k, seen, seenEntry);
            }
            return false;
          }
          seen := true;
          if !Resolved(leaves) {
            assert topLevel ==> !ItemPlaced(items, k);
            return false;
          }
        case Entry =>
          if !topLevel || inFunction || seenEntry {
            assert topLevel && inFunction ==> !ItemPlaced(items, k);
            return false;
          }
          seenEntry := true;
        case IfElse(thenBody, elseBody) =>
          var thenOk := ValidateStructure(thenBody, false);
          if !thenOk {
            NotNested(items, k);
            return false;
          }
          var elseOk := ValidateStructure(elseBody, false);
          if !elseOk {
            NotNested(items, k);
            return false;
          }
        case Body(body) =>
          var bodyOk := ValidateStructure(body, false);
          if !bodyOk {
            NotNested(items, k);
            return false;
          }
        case Other =>
      }
      k := k + 1;
    }
    return true;
  }

  lemma NotNested(items: seq<Item>, k: nat)
    requires k < |items| && !NestedFree(items[k])
    ensures !WellPlaced(items) && !NoEntries(items)
  {
    assert !ItemPlaced(items, k);
  }

  lemma PlacedAt(items: seq<Item>, k: nat)
    requires WellPlaced(items) && k < |items|
    ensures ItemPlaced(items, k)
  {}

  lemma OneParameterList(items: seq<Item>, j: nat, k: nat)
    requires WellPlaced(items) && j < |items| && k < |items| && items[j].EntryParameters? && items[k].EntryParameters?
    ensures j == k
  {
    assert ItemPlaced(items, j) && ItemPlaced(items, k);
    assert items[j + 1].Entry? && items[k + 1].Entry?;
  }

  /** A second parameter list cannot be well placed: each wants an entry of its own. */
  lemma SecondParameters(items: seq<Item>, k: nat, seen: bool, seenEntry: bool)
    requires k < |items| && items[k].EntryParameters? && PlacedSoFar(items, k, seen, seenEntry)
    requires InFunction(items, k) || seen || seenEntry || !(k + 1 < |items| && items[k + 1].Entry?)
    ensures !WellPlaced(items)
  {
    if WellPlaced(items) {
      PlacedAt(items, k);
      if seen {
        var j :| 0 <= j < k && items[j].EntryParameters?;
        OneParameterList(items, j, k);
      }
    }
  }
}
