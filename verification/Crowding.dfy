/** A demand for free memory at deep accesses only ever stops a run; it never changes where the run leads. */
module Crowding {
  import opened Words
  import opened Machine
  import opened Tir

  /** What calling `l` means, whatever memory holds. */
  ghost function Meaning(procs: Procs, l: string, s: State, fuel: nat): Result {
    EvalCall(procs, 0, l, s, fuel)
  }

  /** Somewhere on the way a deep access finds less than `reach` consecutive zero cells. */
  ghost predicate Crowds(procs: Procs, reach: nat, l: string, s: State, fuel: nat) {
    EvalCall(procs, reach, l, s, fuel).Crowded?
  }

  lemma NothingIsRoom(ram: Ram)
    ensures HasRoom(ram, 0)
  {
    assert RunAt(ram, 0, 0);
  }

  lemma {:induction false} RunCrowds(procs: Procs, room: nat, ops: seq<TIROp>, s: State, fuel: nat)
    ensures var r := Eval(procs, room, ops, s, fuel);
      (r.Crowded? || r == Eval(procs, 0, ops, s, fuel)) && (room == 0 ==> !r.Crowded?)
    decreases fuel, 1, ops, 0
  {
    hide EvalOp;
    if ops != [] {
      OpCrowds(procs, room, ops[0], s, fuel);
      var r := EvalOp(procs, room, ops[0], s, fuel);
      if r.Ok? {
        RunCrowds(procs, room, ops[1..], r.s, fuel);
      }
    }
  }

  lemma {:induction false} OpCrowds(procs: Procs, room: nat, op: TIROp, s: State, fuel: nat)
    ensures var r := EvalOp(procs, room, op, s, fuel);
      (r.Crowded? || r == EvalOp(procs, 0, op, s, fuel)) && (room == 0 ==> !r.Crowded?)
    decreases fuel, 1, op, 1
  {
    hide Simple, HasRoom, Enough, Eval, EvalCall, EvalOp, IsControl;
    if op.IfElse? || op.IfOnly? {
      BranchCrowds(procs, room, op, s, fuel);
    } else if op.Call? {
      CallCrowds(procs, room, CalleeOf(op.target), s, fuel);
      CallIsCall(procs, room, op, s, fuel);
      CallIsCall(procs, 0, op, s, fuel);
    } else {
      FlatCrowds(procs, room, op, s, fuel);
    }
  }

  lemma CallIsCall(procs: Procs, room: nat, op: TIROp, s: State, fuel: nat)
    requires op.Call?
    ensures EvalOp(procs, room, op, s, fuel) == EvalCall(procs, room, CalleeOf(op.target), s, fuel)
  {
    hide EvalCall, Eval, Simple, CalleeOf;
  }

  lemma FlatCrowds(procs: Procs, room: nat, op: TIROp, s: State, fuel: nat)
    requires !op.IfElse? && !op.IfOnly? && !op.Call?
    ensures var r := EvalOp(procs, room, op, s, fuel);
      (r.Crowded? || r == EvalOp(procs, 0, op, s, fuel)) && (room == 0 ==> !r.Crowded?)
  {
    hide Simple, HasRoom, Enough, Eval, EvalCall, IsControl, IsDeep;
    NothingIsRoom(s.ram);
  }

  lemma {:induction false} BranchCrowds(procs: Procs, room: nat, op: TIROp, s: State, fuel: nat)
    requires op.IfElse? || op.IfOnly?
    ensures var r := EvalOp(procs, room, op, s, fuel);
      (r.Crowded? || r == EvalOp(procs, 0, op, s, fuel)) && (room == 0 ==> !r.Crowded?)
    decreases fuel, 1, op, 0
  {
    hide Simple, HasRoom, Enough, Eval, EvalCall, IsControl, IsDeep;
    if |s.stack| > 0 {
      RunCrowds(procs, room, if op.IfOnly? then op.onlyBody else if s.stack[0] != 0 then op.thenBody else op.elseBody,
                WithStack(s, s.stack[1..]), fuel);
    }
  }

  /** With a demand for free cells, a call is stopped for want of them or means what it means without. */
  lemma {:induction false} CallCrowds(procs: Procs, room: nat, l: string, s: State, fuel: nat)
    ensures var r := EvalCall(procs, room, l, s, fuel);
      (r.Crowded? || r == Meaning(procs, l, s, fuel)) && (room == 0 ==> !r.Crowded?)
    decreases fuel, 0
  {
    hide Eval;
    if fuel > 0 && l in procs {
      match procs[l]
      case FnBody(ops) => RunCrowds(procs, room, ops, s, fuel - 1);
      case LoopBody(ops) =>
        if |s.stack| > 0 && s.stack[0] != 0 {
          var s1 := WithStack(s, [s.stack[0] - 1] + s.stack[1..]);
          RunCrowds(procs, room, ops, s1, fuel - 1);
          var r := Eval(procs, room, ops, s1, fuel - 1);
          if r.Ok? {
            CallCrowds(procs, room, l, r.s, fuel - 1);
          }
        }
    }
  }
}
