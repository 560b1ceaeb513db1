/** What a published winner means for the workers: it is an attempt that one of them hashed, and it stops all of them soon. */
module MiningStops {
  import opened Machine
  import opened Reservation
  import opened Mining

  // ----- a winner stops the workers -----

  /** How many more steps a worker can take once there is a winner. */
  function Left(p: Phase): nat {
    match p
    case Reserving => 4
    case Hashing(_) => 3
    case Publishing(_) => 2
    case Checking => 1
    case _ => 0
  }

  function LeftOf(phases: seq<Phase>): nat {
    if phases == [] then 0 else Left(phases[0]) + LeftOf(phases[1..])
  }

  lemma {:induction false} LeftUpdate(phases: seq<Phase>, w: nat, p: Phase)
    requires w < |phases|
    ensures LeftOf(phases[w := p]) == LeftOf(phases) - Left(phases[w]) + Left(p)
    decreases |phases|
  {
    hide Left;
    if w == 0 {
      assert phases[0 := p][1..] == phases[1..];
    } else {
      assert phases[w := p][1..] == phases[1..][w - 1 := p];
      LeftUpdate(phases[1..], w - 1, p);
    }
  }

  lemma {:induction false} LeftIsSmall(phases: seq<Phase>)
    ensures LeftOf(phases) <= 4 * |phases|
  {
    if phases != [] {
      LeftIsSmall(phases[1..]);
    }
  }

  lemma StepLeavesLess(c: Setup, s: Pool, w: nat)
    requires |s.phases| == |c.workers| && Active(s, w) && s.slot.Some?
    ensures LeftOf(Step(c, s, w).phases) < LeftOf(s.phases) && Step(c, s, w).slot == s.slot
  {
    hide LeftOf, Reserved;
    LeftUpdate(s.phases, w, Step(c, s, w).phases[w]);
  }

  /** From the moment a winner is published, whatever is left of the attempts, no worker takes more than four steps. */
  lemma {:induction false} WinnerStopsWorkers(c: Setup, run: seq<Pool>, moves: seq<nat>, k: nat)
    requires IsRun(c, run, moves) && k <= |moves| && run[k].slot.Some? && |run[k].phases| == |c.workers|
    ensures |moves| - k <= 4 * |c.workers|
  {
    StepsLeft(c, run, moves, k);
    LeftIsSmall(run[k].phases);
  }

  lemma {:induction false} StepsLeft(c: Setup, run: seq<Pool>, moves: seq<nat>, k: nat)
    requires IsRun(c, run, moves) && k <= |moves| && run[k].slot.Some? && |run[k].phases| == |c.workers|
    ensures |moves| - k <= LeftOf(run[k].phases)
    decreases |moves| - k
  {
    hide LeftOf, Step, Active;
    if k < |moves| {
      assert Moves(c, run[k], moves[k], run[k + 1]);
      StepLeavesLess(c, run[k], moves[k]);
      PhasesKept(c, run[k], moves[k]);
      StepsLeft(c, run, moves, k + 1);
    }
  }

  lemma PhasesKept(c: Setup, s: Pool, w: nat)
    requires |s.phases| == |c.workers| && Active(s, w)
    ensures |Step(c, s, w).phases| == |s.phases|
  {}

  // ----- a winner is a hashed attempt -----

  /** The device answers with attempts of the range it was given. */
  ghost predicate DeviceKeepsRange(c: Setup) {
    forall w, r: Range | 0 <= w < |c.workers| && c.workers[w].batch && c.dispatch(w, r).Some? :: r.lo <= c.dispatch(w, r).value < r.hi
  }

  /** Winners, published or about to be, are attempts hashed by the worker they are ascribed to. */
  ghost predicate Ascribed(s: Pool) {
    && (s.slot.Some? ==> s.slot.value.0 in s.owner && s.owner[s.slot.value.0] == s.slot.value.1)
    && forall w :: 0 <= w < |s.phases| && s.phases[w].Publishing? ==> s.phases[w].nonce in s.owner && s.owner[s.phases[w].nonce] == w
  }

  lemma IsInFlight(s: Pool, w: nat, n: nat)
    requires w < |s.phases| && s.phases[w].Hashing? && n in Attempted(s.phases[w].range)
    ensures InFlight(s, n)
  {}

  /** No attempt changes hands. */
  lemma OwnerStays(c: Setup, s: Pool, w: nat, n: nat)
    requires ValidSetup(c) && Invariant(c, s) && Active(s, w) && n in s.owner
    ensures n in Step(c, s, w).owner && Step(c, s, w).owner[n] == s.owner[n]
  {
    hide Sound, Held, AfterHash;
    assert s.tally[n] == (if c.start <= n < s.next && !InFlight(s, n) then 1 else 0) && (n in s.owner <==> s.tally[n] == 1);
    if s.phases[w].Hashing? && n in Attempted(s.phases[w].range) {
      IsInFlight(s, w, n);
    }
  }

  lemma WinnerIsInRange(c: Setup, w: nat, r: Range)
    requires DeviceKeepsRange(c) && w < |c.workers| && r.lo < r.hi && AfterHash(c, w, r).Publishing?
    ensures AfterHash(c, w, r).nonce in Attempted(r)
  {}

  lemma StepAscribes(c: Setup, s: Pool, w: nat)
    requires ValidSetup(c) && DeviceKeepsRange(c) && Invariant(c, s) && Active(s, w) && Ascribed(s)
    ensures Ascribed(Step(c, s, w))
  {
    hide Sound, Tallied, AfterHash, DeviceKeepsRange, Contiguous;
    var t := Step(c, s, w);
    forall n | n in s.owner
      ensures n in t.owner && t.owner[n] == s.owner[n]
    {
      OwnerStays(c, s, w, n);
    }
    if s.phases[w].Hashing? && AfterHash(c, w, s.phases[w].range).Publishing? {
      WinnerIsInRange(c, w, s.phases[w].range);
    }
    forall v | 0 <= v < |t.phases| && t.phases[v].Publishing?
      ensures t.phases[v].nonce in t.owner && t.owner[t.phases[v].nonce] == v
    {
      assert v != w ==> t.phases[v] == s.phases[v];
    }
  }

  /** In every interleaving the winner in the slot is an attempt of the interval, hashed by the worker named with it. */
  lemma {:induction false} WinnerWasHashed(c: Setup, run: seq<Pool>, moves: seq<nat>, i: nat)
    requires ValidSetup(c) && DeviceKeepsRange(c) && IsRun(c, run, moves) && i < |run|
    ensures Ascribed(run[i])
    ensures run[i].slot.Some? ==> c.start <= run[i].slot.value.0 < c.end
    decreases i
  {
    hide Step, Held, Sound, Contiguous, DeviceKeepsRange, Active;
    RunKeeps(c, run, moves, i);
    if i > 0 {
      WinnerWasHashed(c, run, moves, i - 1);
      RunKeeps(c, run, moves, i - 1);
      assert Moves(c, run[i - 1], moves[i - 1], run[i]);
      StepAscribes(c, run[i - 1], moves[i - 1]);
    }
    if run[i].slot.Some? {
      var n := run[i].slot.value.0;
      assert run[i].tally[n] == (if c.start <= n < run[i].next && !InFlight(run[i], n) then 1 else 0) && (n in run[i].owner <==> run[i].tally[n] == 1);
    }
  }
}
