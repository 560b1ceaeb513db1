/** Names across modules: what prefixes look like, when modules keep apart, and where a call of another module leads. */
module CrossModule {
  import opened Words
  import opened Machine
  import opened Control
  import opened Legalize
  import opened Tir
  import opened Lowering
  import opened Crowding
  import opened Simulation
  import opened SmallStep
  import opened Listing
  import opened ModuleLowering
  import opened Compilation
  import opened Labels
  import opened Linker
  import opened Qualified
  import opened Toolchain
  import opened Executable

  // ----- prefixes -----

  /** The prefix is the module's name with underscores for dots, and two underscores behind it. */
  lemma PrefixOfModule(name: string)
    ensures var prefix := MangleModule(name);
      && |prefix| == |name| + 2
      && prefix[|name|..] == ['_', '_']
      && forall i :: 0 <= i < |name| ==> prefix[i] == if name[i] == '.' then '_' else name[i]
  {
    assert MangleModule(name)[|name|..] == "__";
  }

  predicate Joint(c: char) {
    c == '.' || c == '_'
  }

  /** Two names that differ at most in a dot for an underscore. */
  predicate SameButDots(a: string, b: string) {
    |a| == |b| && forall i :: 0 <= i < |a| ==> a[i] == b[i] || (Joint(a[i]) && Joint(b[i]))
  }

  /** No two dots or underscores in a row, and none at the end. */
  predicate PlainName(name: string) {
    && (forall i :: 0 <= i < |name| - 1 ==> !(Joint(name[i]) && Joint(name[i + 1])))
    && (name != "" ==> !Joint(name[|name| - 1]))
  }

  predicate NamesApart(names: seq<string>) {
    && (forall i :: 0 <= i < |names| ==> PlainName(names[i]))
    && (forall i, j :: 0 <= i < j < |names| ==> !SameButDots(names[i], names[j]))
  }

  lemma PrefixAt(name: string, i: nat)
    requires i < |name| + 2
    ensures |MangleModule(name)| == |name| + 2
    ensures MangleModule(name)[i] == '_' <==> i >= |name| || Joint(name[i])
    ensures i < |name| && !Joint(name[i]) ==> MangleModule(name)[i] == name[i]
  {
    PrefixOfModule(name);
    hide MangleModule;
    if i >= |name| {
      assert MangleModule(name)[i] == MangleModule(name)[|name|..][i - |name|];
    }
  }

  /** Two modules get one prefix exactly if their names differ at most in dots for underscores. */
  lemma SamePrefix(a: string, b: string)
    ensures MangleModule(a) == MangleModule(b) <==> SameButDots(a, b)
  {
    PrefixOfModule(a);
    PrefixOfModule(b);
    hide MangleModule;
    var p, q := MangleModule(a), MangleModule(b);
    if |a| == |b| {
      assert p == p[..|a|] + p[|a|..] && q == q[..|a|] + q[|a|..];
      if SameButDots(a, b) {
        assert p[..|a|] == q[..|a|];
      }
      if p == q {
        forall i | 0 <= i < |a| ensures a[i] == b[i] || (Joint(a[i]) && Joint(b[i])) {
          assert p[i] == q[i];
        }
      }
    }
  }

  /** A plain name's prefix begins no other's. */
  lemma PrefixesApart(a: string, b: string)
    requires PlainName(b) && MangleModule(a) <= MangleModule(b)
    ensures SameButDots(a, b)
  {
    hide MangleModule, SameButDots;
    PrefixAt(a, 0);
    PrefixAt(b, 0);
    var p, q := MangleModule(a), MangleModule(b);
    if |a| < |b| {
      assert p[|a|] == q[|a|] && p[|a| + 1] == q[|a| + 1];
      PrefixAt(a, |a|);
      PrefixAt(a, |a| + 1);
      PrefixAt(b, |a|);
      PrefixAt(b, |a| + 1);
    } else {
      SamePrefix(a, b);
    }
  }

  function Names(sources: seq<SourceModule>): (r: seq<string>)
    ensures |r| == |sources|
  {
    seq(|sources|, i requires 0 <= i < |sources| => sources[i].name)
  }

  lemma SameButDotsBothWays(a: string, b: string)
    ensures SameButDots(a, b) <==> SameButDots(b, a)
  {}

  /** Plain module names that differ in more than dots are enough to keep all prefixes apart. */
  lemma NamesSuffice(sources: seq<SourceModule>)
    requires NamesApart(Names(sources))
    ensures ApartPrefixes(LowerAll(sources))
  {
    hide MangleModule, SameButDots, PlainName, LowerModule;
    var names, modules := Names(sources), LowerAll(sources);
    forall i, j | 0 <= i < |modules| && 0 <= j < |modules| && i != j
      ensures !(MangleModule(modules[i].name) <= MangleModule(modules[j].name))
    {
      assert modules[i].name == names[i] && modules[j].name == names[j];
      SameButDotsBothWays(names[i], names[j]);
      if MangleModule(names[i]) <= MangleModule(names[j]) {
        PrefixesApart(names[i], names[j]);
      }
    }
  }

  /** Both conditions are needed: a dot and an underscore look the same, and two underscores look like the end of a name. */
  lemma CloseNamesClash()
    ensures MangleModule("a.b") == MangleModule("a_b")
    ensures MangleModule("a") + "b__f" == MangleModule("a__b") + "f"
    ensures MangleModule("a") + "_f" == MangleModule("a_") + "f"
  {
    SamePrefix("a.b", "a_b");
    assert DotsToUnderscores("a") == "a" && DotsToUnderscores("a__b") == "a__b" && DotsToUnderscores("a_") == "a_";
    assert "a" + "__" + "b__f" == "a__b" + "__" + "f";
    assert "a" + "__" + "_f" == "a_" + "__" + "f";
  }

  /** A source that can be lowered and linked, told from its names alone. */
  predicate GoodProject(sources: seq<SourceModule>, reach: nat) {
    GoodSources(sources, reach) && NamesApart(Names(sources)) && forall j :: 0 <= j < |sources| ==> GoodNames(sources[j].fns)
  }

  /** Then every label of the whole program is defined once. */
  lemma ProjectIsDistinct(sources: seq<SourceModule>, reach: nat)
    requires GoodProject(sources, reach)
    ensures Distinct(WholeBlocks(sources))
  {
    hide ApartPrefixes, GoodSources, GoodNames, Distinct, WholeBlocks, NamesApart;
    NamesSuffice(sources);
    WholeIsDistinct(sources, reach);
  }

  // ----- the names of functions and calls -----

  /** What a call is lowered to: a name marked with `@` or already prefixed stays, any other gets two underscores. */
  lemma CallEmits(name: string)
    ensures "@" <= name || "__" <= name ==> FlatCode(TIROp.Call(name)) == [Instr.Call(name)]
    ensures !("@" <= name) && !("__" <= name) ==> FlatCode(TIROp.Call(name)) == [Instr.Call("__" + name)]
  {
    CallLine(TIROp.Call(name));
    PrefixIs(name);
    if "@" <= name {
      assert name[0] == '@';
    }
  }

  lemma PrefixIs(name: string)
    ensures Prefixed(name) <==> "__" <= name
  {}

  /** A function is known to the whole program by its module's prefix and its own name. */
  lemma FunctionsAreGlobal(prefix: string, f: string, body: seq<TIROp>)
    ensures !("__" <= f) ==> QualifyFunction(prefix, Function(f, body)).name == "__" + (prefix + f)
    ensures QualifyFunction(prefix, Function("__" + f, body)).name == "__" + (prefix + f)
  {
    PrefixIs(f);
    PrefixIs("__" + f);
    GlobalOfLocal(prefix, f);
  }

  /** And a call in any module, marked with `@`, of that prefix and name is a call of that function. */
  lemma CallsAreGlobal(own: string, other: string, f: string, body: seq<TIROp>)
    requires !("__" <= f)
    ensures Qualify(own, TIROp.Call("@" + (other + f))) == TIROp.Call(QualifyFunction(other, Function(f, body)).name)
    ensures !("@" <= f) ==> Qualify(own, TIROp.Call(f)) == TIROp.Call(QualifyFunction(own, Function(f, body)).name)
  {
    FunctionsAreGlobal(other, f, body);
    FunctionsAreGlobal(own, f, body);
    PrefixIs(f);
    GlobalOfLocal(own, f);
    assert ("@" + (other + f))[0] == '@' && ("@" + (other + f))[1..] == other + f;
    assert f != "" && f[0] == '@' ==> "@" <= f;
  }

  /** The listing says the same: the linker gives the call and the function's label one name. */
  lemma LinkedNamesMeet(own: string, other: string, f: string)
    ensures MangleLine(Instr.Call("@" + (other + f)), own) == Instr.Call(other + f)
    ensures MangleLine(Label("__" + f), other) == Label(other + f)
    ensures MangleLine(Instr.Call("__" + f), own) == Instr.Call(own + f)
  {
    assert ("@" + (other + f))[0] == '@' && ("@" + (other + f))[1..] == other + f;
    PrefixIs("__" + f);
    assert ("__" + f)[2..] == f && ("__" + f)[0] == '_';
  }

  // ----- a call into another module -----

  /** A call marked with `@`, in any module, evaluates to what the other module's function does. */
  lemma CrossCallMeans(procs: Procs, room: nat, own: string, other: string, f: string, s: State, fuel: nat)
    ensures EvalOp(procs, room, Qualify(own, TIROp.Call("@" + (other + f))), s, fuel) == EvalCall(procs, room, "__" + (other + f), s, fuel)
  {
    hide EvalCall;
    var l := "__" + (other + f);
    assert ("@" + (other + f))[0] == '@' && ("@" + (other + f))[1..] == other + f;
    PrefixIs(l);
    assert l[0] == '_';
  }

  /** A function that only calls another one comes to the other's end. */
  lemma ForwardMeans(procs: Procs, own: string, l: string, other: string, f: string, s: State, fuel: nat)
    requires l in procs && procs[l] == FnBody(QualifyAll(own, [TIROp.Call("@" + (other + f)), TIROp.Return]))
    ensures Meaning(procs, l, s, fuel + 1) == Meaning(procs, "__" + (other + f), s, fuel)
  {
    hide Qualify, EvalOp;
    var call := TIROp.Call("@" + (other + f));
    var body := QualifyAll(own, [call, TIROp.Return]);
    assert [call, TIROp.Return][1..] == [TIROp.Return];
    QualifiedFrom(own, [call, TIROp.Return], 0);
    QualifiedFrom(own, [call, TIROp.Return], 1);
    assert Qualify(own, TIROp.Return) == TIROp.Return by { ReturnStays(own); }
    assert body[0] == Qualify(own, call) && body[1..] == [TIROp.Return];
    CrossCallMeans(procs, 0, own, other, f, s, fuel);
    var r := EvalCall(procs, 0, "__" + (other + f), s, fuel);
    CallNeverReturns(procs, 0, "__" + (other + f), s, fuel);
    if r.Ok? {
      ReturnEvaluates(procs, r.s, fuel);
    }
    assert Eval(procs, 0, body, s, fuel) == if r.Ok? then Result.Returned(r.s) else r;
  }

  lemma ReturnStays(prefix: string)
    ensures Qualify(prefix, TIROp.Return) == TIROp.Return
  {}

  lemma ReturnEvaluates(procs: Procs, s: State, fuel: nat)
    ensures Eval(procs, 0, [TIROp.Return], s, fuel) == Result.Returned(s)
  {}

  /** The procedures have the module's function under its global name, with the names in its body made global. */
  ghost predicate Has(procs: Procs, m: SourceModule, fn: Function) {
    var l := "__" + (MangleModule(m.name) + fn.name);
    fn in m.fns && l in procs && procs[l] == FnBody(QualifyAll(MangleModule(m.name), fn.body))
  }

  /**
   * A program whose main function calls a function of another module: lowered module by module, linked and pruned, it
   * stops in exactly the state that the other module's function ends in, faults where that function refuses, and can
   * otherwise only fault for want of free memory.
   */
  lemma MainCallsOtherModule(sources: seq<SourceModule>, program: SourceModule, other: SourceModule, fn: Function,
                             procs: Procs, reach: nat, s: State, fuel: nat) returns (r: Status)
    requires GoodProject(sources, reach) && 4096 <= reach <= 0x1_0000_0000
    requires program in sources && other in sources && program.entry == Some("main")
    requires ProcsOf(Joined(sources), procs) && Has(procs, other, fn)
    requires Has(procs, program, Function("main", [TIROp.Call("@" + (MangleModule(other.name) + fn.name)), TIROp.Return]))
    requires Finishes(Meaning(procs, "__" + (MangleModule(other.name) + fn.name), s, fuel))
    ensures ExecutableComesTo(sources, program, s, r)
    ensures (match Meaning(procs, "__" + (MangleModule(other.name) + fn.name), s, fuel)
      case Ok(t) => r == Stopped(t)
      case Halted(t) => r == Stopped(t)
      case _ => r.Faulted?) || (r.Faulted? && Crowds(procs, reach, Main(program), s, fuel + 1))
  {
    hide GoodSources, NamesApart, GoodNames, Distinct, WholeBlocks, Joined, ProcsOf, EvalCall, MangleModule, ExecutableComesTo, QualifyAll;
    ProjectIsDistinct(sources, reach);
    ForwardMeans(procs, MangleModule(program.name), Main(program), MangleModule(other.name), fn.name, s, fuel);
    r := ExecutableKeepsMeaning(sources, program, procs, reach, s, fuel + 1);
  }
}
