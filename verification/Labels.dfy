/** The labels of a lowered module: generated ones never meet each other, only names chosen in the source can collide. */
module Labels {
  import opened Machine
  import opened Control
  import opened Legalize
  import opened Tir
  import opened Sequence
  import opened Lowering
  import opened Simulation
  import opened Listing
  import opened ModuleLowering
  import opened Compilation
  import opened Crowding
  import opened Naming

  // ----- decimal numerals -----

  predicate IsDigit(c: char) {
    '0' <= c <= '9'
  }

  lemma {:induction false} DecimalDigits(n: nat)
    ensures |Decimal(n)| > 0 && forall k :: 0 <= k < |Decimal(n)| ==> IsDigit(Decimal(n)[k])
  {
    if n >= 10 {
      DecimalDigits(n / 10);
    }
  }

  lemma {:induction false} DecimalInjective(m: nat, n: nat)
    requires Decimal(m) == Decimal(n)
    ensures m == n
  {
    var a, b := Decimal(m), Decimal(n);
    if m >= 10 {
      DecimalDigits(m / 10);
    }
    if n >= 10 {
      DecimalDigits(n / 10);
    }
    assert a[|a| - 1] == Digit(m % 10) && b[|b| - 1] == Digit(n % 10);
    if m >= 10 {
      assert a[..|a| - 1] == Decimal(m / 10) && b[..|b| - 1] == Decimal(n / 10);
      DecimalInjective(m / 10, n / 10);
    }
  }

  /** The number that a numeral stands for, read from the left. */
  function Reading(digits: string): nat
    requires forall k :: 0 <= k < |digits| ==> IsDigit(digits[k])
    decreases |digits|
  {
    if digits == [] then 0 else
    var last := |digits| - 1;
    10 * Reading(digits[..last]) + Worth(digits[last])
  }

  function Worth(c: char): nat
    requires IsDigit(c)
  {
    c as int - '0' as int
  }

  /** A serial is written in decimal: its numeral reads as the serial and has no leading zero. */
  lemma {:induction false} DecimalReads(n: nat)
    ensures forall k :: 0 <= k < |Decimal(n)| ==> IsDigit(Decimal(n)[k])
    ensures Reading(Decimal(n)) == n && Decimal(n) != [] && (n > 0 ==> Decimal(n)[0] != '0')
  {
    DecimalDigits(n);
    if n >= 10 {
      DecimalReads(n / 10);
      assert Decimal(n)[..|Decimal(n)| - 1] == Decimal(n / 10);
    } else {
      assert Decimal(n)[..0] == [];
    }
  }

  // ----- generated labels -----

  /** The label of the branch block with the given serial number. */
  predicate BranchLabel(name: string, serial: nat) {
    name == Fresh("then", serial) || name == Fresh("else", serial)
  }

  lemma FreshParts(serial: nat)
    ensures Fresh("then", serial) == "__then__" + Decimal(serial)
    ensures Fresh("else", serial) == "__else__" + Decimal(serial)
    ensures Fresh("stack_scratch", serial) == "__stack_scratch__" + Decimal(serial)
  {
    hide Decimal;
    assert "__" + "then" + "__" == "__then__" && "__" + "else" + "__" == "__else__";
    assert "__" + "stack_scratch" + "__" == "__stack_scratch__";
  }

  lemma SerialUnique(name: string, m: nat, n: nat)
    requires BranchLabel(name, m) && BranchLabel(name, n)
    ensures m == n
  {
    FreshParts(m);
    FreshParts(n);
    assert name[8..] == Decimal(m) && name[8..] == Decimal(n) by { hide Decimal; }
    DecimalInjective(m, n);
  }

  lemma ScratchApart(name: string, m: nat, n: nat)
    requires BranchLabel(name, m)
    ensures name != Fresh("stack_scratch", n) && name != ScanLabel(Fresh("stack_scratch", n))
  {
    hide Decimal;
    FreshParts(m);
    FreshParts(n);
    assert name[2] == 't' || name[2] == 'e';
    assert Fresh("stack_scratch", n)[2] == 's' && ScanLabel(Fresh("stack_scratch", n))[2] == 's';
  }

  // ----- serial numbers rise along the listing -----

  /** The names carry rising serial numbers above `lo` and up to `hi`. */
  ghost predicate Rising(names: seq<string>, lo: nat, hi: nat)
    decreases |names|
  {
    if names == [] then lo <= hi else exists k :: lo < k <= hi && BranchLabel(names[0], k) && Rising(names[1..], k, hi)
  }

  lemma {:induction false} RisingOrder(names: seq<string>, lo: nat, hi: nat)
    requires Rising(names, lo, hi)
    ensures lo <= hi
  {
    hide BranchLabel;
  }

  lemma RisingWider(names: seq<string>, lo: nat, mid: nat, hi: nat)
    requires lo <= mid && Rising(names, mid, hi)
    ensures Rising(names, lo, hi)
  {
    hide BranchLabel;
  }

  lemma {:induction false} RisingCat(a: seq<string>, b: seq<string>, lo: nat, mid: nat, hi: nat)
    requires Rising(a, lo, mid) && Rising(b, mid, hi)
    ensures Rising(a + b, lo, hi)
    decreases |a|
  {
    hide BranchLabel;
    RisingOrder(b, mid, hi);
    if a == [] {
      assert a + b == b;
      RisingWider(b, lo, mid, hi);
    } else {
      assert (a + b)[0] == a[0] && (a + b)[1..] == a[1..] + b;
      var k :| lo < k <= mid && BranchLabel(a[0], k) && Rising(a[1..], k, mid);
      RisingCat(a[1..], b, k, mid, hi);
    }
  }

  lemma {:induction false} RisingAbove(names: seq<string>, lo: nat, hi: nat, i: nat)
    requires Rising(names, lo, hi) && i < |names|
    ensures exists k :: lo < k <= hi && BranchLabel(names[i], k)
    decreases |names|
  {
    hide BranchLabel;
    var k :| lo < k <= hi && BranchLabel(names[0], k) && Rising(names[1..], k, hi);
    if i > 0 {
      RisingAbove(names[1..], k, hi, i - 1);
      var j :| k < j <= hi && BranchLabel(names[1..][i - 1], j);
    }
  }

  predicate AllDifferent(names: seq<string>) {
    forall i, j :: 0 <= i < j < |names| ==> names[i] != names[j]
  }

  /** No two generated labels are the same. */
  lemma {:induction false} RisingDiffer(names: seq<string>, lo: nat, hi: nat)
    requires Rising(names, lo, hi)
    ensures AllDifferent(names)
    decreases |names|
  {
    hide BranchLabel;
    if names != [] {
      var k :| lo < k <= hi && BranchLabel(names[0], k) && Rising(names[1..], k, hi);
      RisingDiffer(names[1..], k, hi);
      forall i, j | 0 <= i < j < |names|
        ensures names[i] != names[j]
      {
        if i == 0 {
          RisingAbove(names[1..], k, hi, j - 1);
          var n :| k < n <= hi && BranchLabel(names[1..][j - 1], n);
          if names[i] == names[j] {
            SerialUnique(names[i], k, n);
          }
        } else {
          assert names[1..][i - 1] == names[i] && names[1..][j - 1] == names[j];
        }
      }
    }
  }

  lemma RisingOne(name: string, lo: nat)
    requires BranchLabel(name, lo + 1)
    ensures Rising([name], lo, lo + 1)
  {
    hide BranchLabel;
    assert [name][1..] == [] && Rising([], lo + 1, lo + 1);
  }

  lemma OpRising(op: TIROp, d: Draws)
    ensures Rising(Drawn(OpMarks(op, d)), d.counter, OpDraws(op, d).counter)
  {
    hide Fresh, LabelOf, Rising;
    var marks := OpMarks(op, d);
    NoMarks();
    NamedThen(d.counter + 1);
    NamedThen(d.counter + 2);
    RisingOne(Fresh("then", d.counter + 1), d.counter);
    if op.IfElse? {
      var a, b := marks[0].name, marks[1].name;
      RisingOne(b, d.counter + 1);
      RisingCat([a], [b], d.counter, d.counter + 1, d.counter + 2);
      FewMarks(marks[0], marks[1]);
      assert marks == [marks[0]] + [marks[1]];
      assert Drawn(marks) == [a] + [b];
    } else if op.IfOnly? {
      FewMarks(marks[0], marks[0]);
      assert marks == [marks[0]];
      assert Drawn(marks) == [Fresh("then", d.counter + 1)];
    } else {
      if op.Loop? {
        FewMarks(marks[0], marks[0]);
        assert marks == [marks[0]];
      }
      assert Drawn(marks) == [];
      NothingRises(d.counter, OpDraws(op, d).counter);
    }
  }

  lemma NothingRises(lo: nat, hi: nat)
    requires lo <= hi
    ensures Rising([], lo, hi)
  {}

  lemma NamedThen(serial: nat)
    ensures BranchLabel(Fresh("then", serial), serial) && BranchLabel(Fresh("else", serial), serial)
  {}

  lemma {:induction false} BodyRising(ops: seq<TIROp>, d: Draws)
    ensures Rising(Drawn(BodyMarks(ops, d)), d.counter, BodyDraws(ops, d).counter)
    decreases |ops|
  {
    hide OpMarks, OpDraws, Pending, Size, OpSize, Rising;
    NothingRises(d.counter, d.counter);
    if ops != [] {
      var e := OpDraws(ops[0], d);
      OpRising(ops[0], d);
      BodyRising(ops[1..], e);
      MarksCat(OpMarks(ops[0], d), BodyMarks(ops[1..], e));
      RisingCat(Drawn(OpMarks(ops[0], d)), Drawn(BodyMarks(ops[1..], e)), d.counter, e.counter, BodyDraws(ops, d).counter);
    }
  }

  lemma {:induction false} RoundRising(blocks: seq<Deferred>, d: Draws)
    ensures Rising(Drawn(RoundMarks(blocks, d)), d.counter, RoundDraws(blocks, d).counter)
    decreases |blocks|
  {
    hide BodyMarks, BodyDraws, Pending, Size, Rising;
    NothingRises(d.counter, d.counter);
    if blocks != [] {
      var e := BodyDraws(blocks[0].ops, d);
      BodyRising(blocks[0].ops, d);
      RoundRising(blocks[1..], e);
      MarksCat(BodyMarks(blocks[0].ops, d), RoundMarks(blocks[1..], e));
      RisingCat(Drawn(BodyMarks(blocks[0].ops, d)), Drawn(RoundMarks(blocks[1..], e)), d.counter, e.counter, RoundDraws(blocks, d).counter);
    }
  }

  lemma {:induction false} FlushRising(blocks: seq<Deferred>, lo: nat, d: Draws)
    requires Rising(Drawn(blocks), lo, d.counter)
    ensures Rising(Drawn(FlushMarks(blocks, d)), lo, FlushDraws(blocks, d).counter)
    decreases Pending(blocks)
  {
    if blocks != [] {
      hide RoundMarks, RoundDraws, Rising;
      var rest, e := RoundMarks(blocks, d), RoundDraws(blocks, d);
      RoundRising(blocks, d);
      FlushRising(rest, d.counter, e);
      MarksCat(blocks, FlushMarks(rest, e));
      RisingCat(Drawn(blocks), Drawn(FlushMarks(rest, e)), lo, d.counter, FlushDraws(blocks, d).counter);
    }
  }

  lemma {:induction false} ModuleRising(fns: seq<Function>, d: Draws)
    ensures Rising(Drawn(ModuleMarks(fns, d)), d.counter, ModuleDraws(fns, d).counter)
    decreases |fns|
  {
    NothingRises(d.counter, d.counter);
    if fns != [] {
      hide BodyMarks, BodyDraws, FlushMarks, FlushDraws, LabelOf, Rising;
      var own, marks, e := [OwnMark(fns[0])], FunctionMarks(fns[0], d), FunctionDraws(fns[0], d);
      var rest := ModuleMarks(fns[1..], e);
      BodyRising(fns[0].body, d);
      FlushRising(BodyMarks(fns[0].body, d), d.counter, BodyDraws(fns[0].body, d));
      ModuleRising(fns[1..], e);
      MarksCat(own, marks + rest);
      MarksCat(marks, rest);
      assert own[1..] == [] && Drawn(own) == [];
      assert [] + Drawn(marks + rest) == Drawn(marks + rest);
      RisingCat(Drawn(marks), Drawn(rest), d.counter, e.counter, ModuleDraws(fns, d).counter);
    }
  }

  // ----- when labels collide -----

  /** The labels of the scratch search with the given serial number. */
  function SearchNames(scratch: Option<nat>): seq<string> {
    match scratch
    case None => []
    case Some(n) => [Fresh("stack_scratch", n), ScanLabel(Fresh("stack_scratch", n))]
  }

  /** The labels that lowering the module generates, by the serial numbers it draws: of branches, and of the search. */
  function Generated(fns: seq<Function>): seq<string> {
    Drawn(ModuleMarks(fns, NoDraws)) + SearchNames(ModuleDraws(fns, NoDraws).scratch)
  }

  lemma GeneratedDiffer(fns: seq<Function>)
    ensures AllDifferent(Generated(fns))
  {
    hide Rising, BranchLabel, Fresh, ModuleMarks, ModuleDraws, Drawn, ScanLabel;
    var names, d := Drawn(ModuleMarks(fns, NoDraws)), ModuleDraws(fns, NoDraws);
    ModuleRising(fns, NoDraws);
    RisingDiffer(names, 0, d.counter);
    if d.scratch.Some? {
      SearchDiffers(d.scratch.value);
      forall i | 0 <= i < |names|
        ensures names[i] !in SearchNames(d.scratch)
      {
        RisingAbove(names, 0, d.counter, i);
        var m :| 0 < m <= d.counter && BranchLabel(names[i], m);
        ScratchApart(names[i], m, d.scratch.value);
      }
    }
  }

  lemma SearchDiffers(n: nat)
    ensures Fresh("stack_scratch", n) != ScanLabel(Fresh("stack_scratch", n))
  {
    hide Fresh;
    assert |ScanLabel(Fresh("stack_scratch", n))| > |Fresh("stack_scratch", n)|;
  }

  lemma {:induction false} DifferentCounts(names: seq<string>)
    ensures AllDifferent(names) <==> forall x :: multiset(names)[x] <= 1
    decreases |names|
  {
    if names != [] {
      var n := |names| - 1;
      var front, last := names[..n], names[n];
      assert names == front + [last];
      DifferentCounts(front);
      if AllDifferent(names) {
        assert last !in front;
        assert AllDifferent(front);
      }
      forall i, j | 0 <= i < j < |names| && names[i] == names[j]
        ensures multiset(names)[names[i]] >= 2
      {
        TwiceCounted(names, i, j);
      }
    }
  }

  /** Two lists without repetition, put together. */
  lemma DifferentTogether(a: seq<string>, b: seq<string>)
    requires AllDifferent(b)
    ensures AllDifferent(a + b) <==> AllDifferent(a) && forall x :: x in a ==> x !in b
  {
    var both := a + b;
    if AllDifferent(both) {
      assert forall i :: 0 <= i < |a| ==> both[i] == a[i];
      forall x | x in a
        ensures x !in b
      {
        var i :| 0 <= i < |a| && a[i] == x;
        forall k | 0 <= k < |b|
          ensures b[k] != x
        {
          assert both[i] != both[|a| + k];
        }
      }
    }
    if AllDifferent(a) && forall x :: x in a ==> x !in b {
      forall i, j | 0 <= i < j < |both|
        ensures both[i] != both[j]
      {
        if i < |a| <= j {
          assert both[i] in a && both[j] in b;
        }
      }
    }
  }

  lemma AddLineNames(blocks: seq<Block>, i: Instr)
    ensures BlockNames(AddLine(blocks, i)) == BlockNames(blocks)
  {
    if |blocks| > 1 {
      AddLineNames(blocks[1..], i);
      assert [blocks[0]] + blocks[1..] == blocks;
      BlockNamesCat([blocks[0]], AddLine(blocks[1..], i));
      BlockNamesCat([blocks[0]], blocks[1..]);
    }
  }

  lemma DistinctNames(blocks: seq<Block>)
    ensures Distinct(blocks) <==> AllDifferent(BlockNames(blocks))
  {
    var names := BlockNames(blocks);
    if AllDifferent(names) {
      forall i, j | 0 <= i < j < |blocks| ensures blocks[i].name != blocks[j].name { assert names[i] != names[j]; }
    }
  }

  lemma SearchBlockNames(name: string)
    ensures BlockNames(SearchBlocks(name)) == [name, ScanLabel(name)]
  {}

  /** A lowered module carries the labels of its marks, and those of the search. */
  lemma ListedNames(entry: Option<string>, fns: seq<Function>, reach: nat)
    requires AllBodies(fns, reach)
    ensures BlockNames(Blocks(LowerModule(ModuleOps(entry, fns))))
         == Names(ModuleMarks(fns, NoDraws)) + SearchNames(ModuleDraws(fns, NoDraws).scratch)
  {
    hide LowerOps, LowerModule, Blocks, FunctionBody, BlockNames, Names, ScanLabel, ModuleMarks, ModuleDraws, AddLine, SearchBlocks, Fresh;
    var r := LowerOps(FunctionsOps(fns), NoFields());
    var own := Blocks(r.0);
    ModuleBlocks(entry, fns, reach);
    ModuleNames(fns, NoFields(), NoDraws, reach);
    if r.1.scratch.Some? {
      AddLineNames(own, Instr.Halt);
      BlockNamesCat(AddLine(own, Instr.Halt), SearchBlocks(r.1.scratch.value));
      SearchBlockNames(r.1.scratch.value);
    } else {
      assert BlockNames(own) + [] == BlockNames(own);
    }
  }

  /** The labels of a lowered module, each as often as it is defined: the source's names and the generated ones. */
  lemma ModuleLabels(entry: Option<string>, fns: seq<Function>, reach: nat)
    requires AllBodies(fns, reach)
    ensures multiset(BlockNames(Blocks(LowerModule(ModuleOps(entry, fns))))) == multiset(SourceNames(fns) + Generated(fns))
  {
    hide LowerModule, Blocks, FunctionBody, BlockNames, Names, ModuleMarks, ModuleDraws, SearchNames, Chosen, Drawn, SourceNames;
    var marks, search := ModuleMarks(fns, NoDraws), SearchNames(ModuleDraws(fns, NoDraws).scratch);
    ListedNames(entry, fns, reach);
    NamesAreBoth(marks);
    ChosenAreSourceNames(fns, NoDraws);
    assert multiset(Names(marks) + search) == multiset(Chosen(marks)) + multiset(Drawn(marks)) + multiset(search);
    assert multiset(Drawn(marks) + search) == multiset(Drawn(marks)) + multiset(search);
    assert multiset(SourceNames(fns) + Generated(fns)) == multiset(SourceNames(fns)) + multiset(Generated(fns));
  }

  /**
   * A label is defined twice exactly when a name chosen in the source occurs twice or is generated too. In particular
   * the labels generated for branches, and for the scratch search, are each defined once.
   */
  lemma LabelsDefinedOnce(entry: Option<string>, fns: seq<Function>, reach: nat)
    requires AllBodies(fns, reach)
    ensures Distinct(Blocks(LowerModule(ModuleOps(entry, fns))))
      <==> AllDifferent(SourceNames(fns)) && forall name :: name in SourceNames(fns) ==> name !in Generated(fns)
  {
    hide LowerModule, Blocks, FunctionBody, BlockNames, Generated, SourceNames, AllDifferent;
    var blocks := Blocks(LowerModule(ModuleOps(entry, fns)));
    ModuleLabels(entry, fns, reach);
    DistinctNames(blocks);
    DifferentCounts(BlockNames(blocks));
    DifferentCounts(SourceNames(fns) + Generated(fns));
    GeneratedDiffer(fns);
    DifferentTogether(SourceNames(fns), Generated(fns));
  }

  /** A name that the source may not choose if it wants no collision. */
  predicate Reserved(name: string) {
    "__then__" <= name || "__else__" <= name || "__stack_scratch__" <= name
  }

  lemma GeneratedReserved(name: string, serial: nat)
    ensures BranchLabel(name, serial) ==> Reserved(name)
    ensures Reserved(Fresh("stack_scratch", serial)) && Reserved(ScanLabel(Fresh("stack_scratch", serial)))
  {
    hide Decimal;
    FreshParts(serial);
  }

  /** The names chosen in the source are different, and none of them has a reserved form. */
  predicate GoodNames(fns: seq<Function>) {
    AllDifferent(SourceNames(fns)) && forall name :: name in SourceNames(fns) ==> !Reserved(name)
  }

  /** Different source names outside the reserved forms are enough. */
  lemma UnreservedNamesSuffice(entry: Option<string>, fns: seq<Function>, reach: nat)
    requires AllBodies(fns, reach) && GoodNames(fns)
    ensures Distinct(Blocks(LowerModule(ModuleOps(entry, fns))))
  {
    hide LowerModule, Blocks, FunctionBody, Rising, ScanLabel, ModuleMarks, ModuleDraws, Reserved, BranchLabel, Fresh, SourceNames, Drawn;
    LabelsDefinedOnce(entry, fns, reach);
    var names, d := Drawn(ModuleMarks(fns, NoDraws)), ModuleDraws(fns, NoDraws);
    ModuleRising(fns, NoDraws);
    forall j | 0 <= j < |names|
      ensures Reserved(names[j])
    {
      RisingAbove(names, 0, d.counter, j);
      var k :| 0 < k <= d.counter && BranchLabel(names[j], k);
      GeneratedReserved(names[j], k);
    }
    if d.scratch.Some? {
      GeneratedReserved("", d.scratch.value);
    }
  }

  /** A function of the source that is called `then__1` and branches: its label is defined twice. */
  lemma ReservedNameCollides()
    ensures var fns := [Function("then__1", [TIROp.IfOnly([])])];
      AllBodies(fns, 4096) && !Distinct(Blocks(LowerModule(ModuleOps(None, fns))))
  {
    hide LowerModule, Blocks, Fresh, LabelOf, Generated;
    var fn := Function("then__1", [TIROp.IfOnly([])]);
    LabelsDefinedOnce(None, [fn], 4096);
    CollidingNames();
    FirstBranchGenerated(fn, []);
    assert [fn] + [] == [fn];
    assert LabelOf("then__1") in SourceNames([fn]) && LabelOf("then__1") in Generated([fn]);
  }

  /** The first branch of a module has its label generated from the first serial number. */
  lemma FirstBranchGenerated(fn: Function, rest: seq<Function>)
    requires fn.body == [TIROp.IfOnly([])]
    ensures Fresh("then", 1) in Generated([fn] + rest)
  {
    hide Fresh, LabelOf, SearchNames, ModuleDraws;
    var op := fn.body[0];
    var mark := Deferred(Fresh("then", 1), [], false, false);
    assert BodyMarks([op], NoDraws) == [mark] by {
      assert [op][1..] == [] && OpMarks(op, NoDraws) == [mark];
    }
    assert FunctionMarks(fn, NoDraws)[0] == mark;
    var marks := ModuleMarks([fn] + rest, NoDraws);
    assert marks[1] == mark && marks[1..][0] == mark && marks[0].isLoop;
    assert Drawn(marks[1..])[0] == mark.name && Drawn(marks) == [] + Drawn(marks[1..]);
  }

  lemma CollidingNames()
    ensures LabelOf("then__1") == Fresh("then", 1)
  {
    assert Decimal(1) == ['1'];
    assert "__" + "then" + "__" + ['1'] == "__then__1";
    assert "__" + "then__1" == "__then__1";
    assert "then__1"[..2][0] == 't';
  }

  /** The main theorem with nothing asked but of the source: good names, and closed and structured functions. */
  lemma GoodModuleKeepsMeaning(entry: Option<string>, fns: seq<Function>, procs: Procs, reach: nat, l: string, s: State, fuel: nat)
    returns (o: Outcome)
    requires AllBodies(fns, reach) && ProcsOf(fns, procs) && 4096 <= reach <= 0x1_0000_0000 && GoodNames(fns)
    requires Finishes(Meaning(procs, l, s, fuel))
    ensures Invokes(EnvOf(Blocks(LowerModule(ModuleOps(entry, fns)))), l, s, o)
    ensures Asks(Meaning(procs, l, s, fuel), o) || (Stuck(o) && Crowds(procs, reach, l, s, fuel))
  {
    hide LowerModule, Blocks, EnvOf, EvalCall, Invokes, FunctionBody, GoodNames;
    UnreservedNamesSuffice(entry, fns, reach);
    o := LoweringPreservesMeaning(entry, fns, procs, reach, l, s, fuel);
  }
}
