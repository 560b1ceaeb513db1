/** Code that stores the word on top at a fixed address. */
module Storing {
  import opened Words
  import opened Machine
  import opened Legalize

  function StoreCode(address: nat): seq<Instr> {
    [Instr.Push(Lit(address)), Instr.WriteMem(1), Instr.Pop(1)]
  }

  lemma Stores(s: State, a: nat, x: Word, rest: seq<Word>)
    requires a < P && s.stack == [x] + rest
    ensures Exec(StoreCode(a), s) == Some(s.(stack := rest, ram := WriteUp(s.ram, a, [x])))
  {
    hide Basic, Exec, WriteUp, At;
    OnPush(s, Lit(a));
    assert Lit(a) == a;
    var s1 := WithStack(s, [a] + ([x] + rest));
    OnWriteMem(s1, a, [x], rest);
    var s2 := s.(stack := [At(a, 1)] + rest, ram := WriteUp(s.ram, a, [x]));
    OnPop(s2, At(a, 1), rest);
    Chain3(Instr.Push(Lit(a)), Instr.WriteMem(1), Instr.Pop(1), s, s1, s2, s2.(stack := rest));
  }

  lemma ReadStored(ram: Ram, a: Word, x: Word, b: Word)
    ensures Read(WriteUp(ram, a, [x]), b) == if b == a then x else Read(ram, b)
  {
    ReadWriteUp(ram, a, [x], b);
    AtOff(a, b);
  }
}
