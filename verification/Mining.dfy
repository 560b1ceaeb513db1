/** The mining workers in every interleaving: each attempt is hashed at most once, and nothing is missed. */
module Mining {
  import opened Machine
  import opened Reservation

  /** Where a worker stands in its loop. */
  datatype Phase =
    | Checking               // about to look for a published winner
    | Reserving              // about to reserve attempts
    | Hashing(range: Range)  // holds reserved attempts that are not hashed yet
    | Publishing(nonce: nat) // holds a winning nonce
    | Finished
    | Panicked               // the batch device returned a nonce that does not win

  /** How many attempts a worker reserves at a time, and whether it hashes them in one batch on a device. */
  datatype Worker = Worker(size: U64, batch: bool)

  /**
   * `wins(n, w)`: the hash of the nonce that worker `w` makes of attempt `n` is at most the target.
   * `dispatch(w, r)`: what the batch device answers for a range.
   */
  datatype Setup = Setup(start: U64, end: U64, workers: seq<Worker>, wins: (nat, nat) -> bool, dispatch: (nat, Range) -> Option<nat>)

  /** The last three fields only record what has happened. */
  datatype Pool = Pool(
    next: U64,
    slot: Option<(nat, nat)>,
    phases: seq<Phase>,
    log: seq<Range>,
    tally: multiset<nat>,
    owner: map<nat, nat>)

  ghost predicate ValidSetup(c: Setup) {
    && c.start <= c.end
    && c.workers != []
    && forall w :: 0 <= w < |c.workers| ==> c.workers[w].size > 0 && (!c.workers[w].batch ==> c.workers[w].size == 1)
  }

  /** The device says that a range has no winner only if it has none. */
  ghost predicate HonestDevice(c: Setup) {
    forall w, r: Range, n | 0 <= w < |c.workers| && c.workers[w].batch && c.dispatch(w, r).None? && r.lo <= n < r.hi :: !c.wins(n, w)
  }

  function Init(c: Setup): Pool {
    Pool(c.start, None, seq(|c.workers|, _ => Checking), [], multiset{}, map[])
  }

  predicate Active(s: Pool, w: nat) {
    w < |s.phases| && !s.phases[w].Finished? && !s.phases[w].Panicked?
  }

  predicate Inside(r: Range, n: nat) {
    r.lo <= n < r.hi
  }

  function Attempted(r: Range): set<nat> {
    set n: nat | r.lo <= n < r.hi && Inside(r, n)
  }

  function To(s: Pool, w: nat, p: Phase): Pool
    requires w < |s.phases|
  {
    s.(phases := s.phases[w := p])
  }

  /** What follows the hashing of a range. */
  function AfterHash(c: Setup, w: nat, r: Range): Phase
    requires w < |c.workers|
  {
    if c.workers[w].batch then
      var answer := c.dispatch(w, r);
      if answer.None? then Checking
      else if c.wins(answer.value, w) then Publishing(answer.value)
      else Panicked
    else if c.wins(r.lo, w) then Publishing(r.lo)
    else Checking
  }

  /** One atomic step of worker `w`. */
  function Step(c: Setup, s: Pool, w: nat): Pool
    requires |s.phases| == |c.workers| && Active(s, w)
  {
    match s.phases[w]
    case Checking => To(s, w, if s.slot.Some? then Finished else Reserving)
    case Reserving =>
      var r := Reserved(s.next, c.end, c.workers[w].size);
      if r.None? then To(s, w, Finished)
      else To(s, w, Hashing(r.value)).(next := r.value.hi, log := s.log + [r.value])
    case Hashing(r) =>
      To(s, w, AfterHash(c, w, r)).(
        tally := s.tally + multiset(Attempted(r)),
        owner := s.owner + (map n | n in Attempted(r) :: w))
    case Publishing(n) => To(s, w, Checking).(slot := Published(s.slot, (n, w)))
  }

  // ----- runs -----

  /** States of the pool in order, one worker moving at a time, in any order whatever. */
  ghost predicate IsRun(c: Setup, run: seq<Pool>, moves: seq<nat>) {
    && |run| == |moves| + 1
    && run[0] == Init(c)
    && forall k :: 0 <= k < |moves| ==> Moves(c, run[k], moves[k], run[k + 1])
  }

  ghost predicate Moves(c: Setup, s: Pool, w: nat, t: Pool) {
    |s.phases| == |c.workers| && Active(s, w) && t == Step(c, s, w)
  }

  // ----- the invariant -----

  /** Ranges that follow one another without gap or overlap. */
  predicate Contiguous(log: seq<Range>, start: U64, next: U64) {
    if log == [] then start == next
    else log[|log| - 1].hi == next && log[|log| - 1].lo < next && Contiguous(log[..|log| - 1], start, log[|log| - 1].lo)
  }

  predicate InFlight(s: Pool, n: nat) {
    exists w :: 0 <= w < |s.phases| && s.phases[w].Hashing? && s.phases[w].range.lo <= n < s.phases[w].range.hi
  }

  ghost predicate Bounds(c: Setup, s: Pool) {
    && |s.phases| == |c.workers|
    && c.start <= s.next <= c.end
    && Contiguous(s.log, c.start, s.next)
  }

  /** Ranges held by workers are reserved, nonempty, and apart from each other. */
  ghost predicate Held(c: Setup, s: Pool)
    requires |s.phases| == |c.workers|
  {
    && (forall w :: 0 <= w < |s.phases| && s.phases[w].Hashing? ==> c.start <= s.phases[w].range.lo < s.phases[w].range.hi <= s.next)
    && (forall w :: 0 <= w < |s.phases| && s.phases[w].Hashing? && !c.workers[w].batch ==> s.phases[w].range.hi == s.phases[w].range.lo + 1)
    && (forall v, w :: 0 <= v < w < |s.phases| && s.phases[v].Hashing? && s.phases[w].Hashing? ==>
          s.phases[v].range.hi <= s.phases[w].range.lo || s.phases[w].range.hi <= s.phases[v].range.lo)
  }

  /** Every reserved attempt that no worker holds has been hashed once, and no other attempt has been hashed. */
  ghost predicate Tallied(c: Setup, s: Pool) {
    forall n: nat :: s.tally[n] == (if c.start <= n < s.next && !InFlight(s, n) then 1 else 0) && (n in s.owner <==> s.tally[n] == 1)
  }

  /** A winning nonce is on its way to the slot, or the device has failed. */
  ghost predicate Owed(s: Pool) {
    exists w :: 0 <= w < |s.phases| && (s.phases[w].Publishing? || s.phases[w].Panicked?)
  }

  ghost predicate Sound(c: Setup, s: Pool) {
    && (s.slot.Some? ==> c.wins(s.slot.value.0, s.slot.value.1))
    && (forall w :: 0 <= w < |s.phases| && s.phases[w].Publishing? ==> c.wins(s.phases[w].nonce, w))
    && (forall w :: 0 <= w < |s.phases| && s.phases[w].Finished? ==> s.slot.Some? || s.next == c.end)
    && (HonestDevice(c) ==> forall n :: n in s.owner && c.wins(n, s.owner[n]) ==> s.slot.Some? || Owed(s))
  }

  ghost predicate Invariant(c: Setup, s: Pool) {
    Bounds(c, s) && Held(c, s) && Tallied(c, s) && Sound(c, s)
  }

  lemma InitKeeps(c: Setup)
    requires ValidSetup(c)
    ensures Invariant(c, Init(c))
  {
    assert forall n :: !InFlight(Init(c), n);
  }

  lemma StepBounds(c: Setup, s: Pool, w: nat)
    requires ValidSetup(c) && Invariant(c, s) && Active(s, w)
    ensures Bounds(c, Step(c, s, w))
  {
    hide Tallied, Sound, Held;
    if s.phases[w].Reserving? {
      ReservedFits(s.next, c.end, c.workers[w].size);
      var t := Step(c, s, w);
      if t.log != s.log {
        assert t.log[..|t.log| - 1] == s.log;
      }
    }
  }

  lemma StepHeld(c: Setup, s: Pool, w: nat)
    requires ValidSetup(c) && Invariant(c, s) && Active(s, w)
    ensures |Step(c, s, w).phases| == |c.workers| && Held(c, Step(c, s, w))
  {
    hide Tallied, Sound, Contiguous, AfterHash;
    if s.phases[w].Reserving? {
      ReservedFits(s.next, c.end, c.workers[w].size);
    } else if s.phases[w].Hashing? {
      NotHashing(c, w, s.phases[w].range);
    }
  }

  lemma NotHashing(c: Setup, w: nat, r: Range)
    requires w < |c.workers|
    ensures !AfterHash(c, w, r).Hashing? && !AfterHash(c, w, r).Finished?
  {}

  /** What a step changes among the attempts that workers hold. */
  lemma FlightChanges(c: Setup, s: Pool, w: nat, n: nat)
    requires ValidSetup(c) && Invariant(c, s) && Active(s, w)
    ensures var t := Step(c, s, w);
      match s.phases[w]
      case Hashing(r) =>
        InFlight(s, n) == (InFlight(t, n) || r.lo <= n < r.hi) && !(InFlight(t, n) && r.lo <= n < r.hi)
      case Reserving => InFlight(t, n) == (InFlight(s, n) || s.next <= n < t.next)
      case _ => InFlight(t, n) == InFlight(s, n)
  {
    hide Tallied, Sound, Contiguous, AfterHash;
    var t := Step(c, s, w);
    if s.phases[w].Hashing? {
      NotHashing(c, w, s.phases[w].range);
    } else if s.phases[w].Reserving? {
      ReservedFits(s.next, c.end, c.workers[w].size);
    }
    if InFlight(s, n) {
      var v :| 0 <= v < |s.phases| && s.phases[v].Hashing? && s.phases[v].range.lo <= n < s.phases[v].range.hi;
      assert v != w ==> t.phases[v] == s.phases[v];
    }
    if InFlight(t, n) {
      var v :| 0 <= v < |t.phases| && t.phases[v].Hashing? && t.phases[v].range.lo <= n < t.phases[v].range.hi;
      assert v != w ==> t.phases[v] == s.phases[v];
    }
    if s.phases[w].Reserving? && s.next <= n < t.next {
      assert t.phases[w].Hashing? && t.phases[w].range.lo <= n < t.phases[w].range.hi;
    }
  }

  lemma StepTallied(c: Setup, s: Pool, w: nat)
    requires ValidSetup(c) && Invariant(c, s) && Active(s, w)
    ensures Tallied(c, Step(c, s, w))
  {
    var t := Step(c, s, w);
    forall n: nat
      ensures t.tally[n] == if c.start <= n < t.next && !InFlight(t, n) then 1 else 0
      ensures n in t.owner <==> t.tally[n] == 1
    {
      FlightChanges(c, s, w, n);
      TallyOf(c, s, w, n);
      assert s.tally[n] == (if c.start <= n < s.next && !InFlight(s, n) then 1 else 0) && (n in s.owner <==> s.tally[n] == 1);
    }
  }

  lemma TallyOf(c: Setup, s: Pool, w: nat, n: nat)
    requires ValidSetup(c) && Invariant(c, s) && Active(s, w)
    ensures var t := Step(c, s, w);
      match s.phases[w]
      case Hashing(r) => t.tally[n] == s.tally[n] + (if r.lo <= n < r.hi then 1 else 0) && (n in t.owner <==> n in s.owner || r.lo <= n < r.hi)
      case _ => t.tally == s.tally && t.owner == s.owner
  {
    hide Tallied, Sound, Contiguous, AfterHash, Held, InFlight;
  }

  lemma StepSound(c: Setup, s: Pool, w: nat)
    requires ValidSetup(c) && Invariant(c, s) && Active(s, w)
    ensures Sound(c, Step(c, s, w))
  {
    hide Tallied, Contiguous, Held, InFlight;
    var t := Step(c, s, w);
    if s.phases[w].Reserving? {
      ReservedFits(s.next, c.end, c.workers[w].size);
    }
    forall n | HonestDevice(c) && n in t.owner && c.wins(n, t.owner[n])
      ensures t.slot.Some? || Owed(t)
    {
      HitIsOwed(c, s, w, n);
    }
  }

  /** Hashing a range that holds a winner leads to a publication, unless the device fails. */
  lemma HashFinds(c: Setup, w: nat, r: Range, n: nat)
    requires HonestDevice(c) && w < |c.workers| && r.lo <= n < r.hi && c.wins(n, w)
    requires !c.workers[w].batch ==> r.hi == r.lo + 1
    ensures AfterHash(c, w, r).Publishing? || AfterHash(c, w, r).Panicked?
  {}

  /** A winning attempt is owed from the moment it is hashed until some winner is in the slot. */
  lemma HitIsOwed(c: Setup, s: Pool, w: nat, n: nat)
    requires ValidSetup(c) && HonestDevice(c) && Invariant(c, s) && Active(s, w)
    requires n in Step(c, s, w).owner && c.wins(n, Step(c, s, w).owner[n])
    ensures Step(c, s, w).slot.Some? || Owed(Step(c, s, w))
  {
    hide Tallied, Contiguous, InFlight, AfterHash;
    var t := Step(c, s, w);
    if s.phases[w].Hashing? && n in Attempted(s.phases[w].range) {
      var r := s.phases[w].range;
      assert t.owner[n] == w;
      HashFinds(c, w, r, n);
      assert t.phases[w].Publishing? || t.phases[w].Panicked?;
    } else {
      assert n in s.owner && t.owner[n] == s.owner[n];
      if s.slot.None? {
        var v :| 0 <= v < |s.phases| && (s.phases[v].Publishing? || s.phases[v].Panicked?);
        assert v != w ==> t.phases[v] == s.phases[v];
      }
    }
  }

  lemma StepKeeps(c: Setup, s: Pool, w: nat)
    requires ValidSetup(c) && Invariant(c, s) && Active(s, w)
    ensures Invariant(c, Step(c, s, w))
  {
    hide Step, Held, Tallied, Sound, Contiguous, ValidSetup;
    StepBounds(c, s, w);
    StepHeld(c, s, w);
    StepTallied(c, s, w);
    StepSound(c, s, w);
    Together(c, Step(c, s, w));
  }

  lemma Together(c: Setup, s: Pool)
    requires Bounds(c, s) && |s.phases| == |c.workers| && Held(c, s) && Tallied(c, s) && Sound(c, s)
    ensures Invariant(c, s)
  {
    hide Bounds, Held, Tallied, Sound;
  }

  // ----- what holds of every run -----

  /** The invariant holds in every state of every interleaving. */
  lemma {:induction false} RunKeeps(c: Setup, run: seq<Pool>, moves: seq<nat>, k: nat)
    requires ValidSetup(c) && IsRun(c, run, moves) && k < |run|
    ensures Invariant(c, run[k])
    decreases k
  {
    hide Invariant, Step, Active;
    if k == 0 {
      InitKeeps(c);
    } else {
      RunKeeps(c, run, moves, k - 1);
      assert Moves(c, run[k - 1], moves[k - 1], run[k]);
      StepKeeps(c, run[k - 1], moves[k - 1]);
    }
  }

  /** Once a winner is in the slot, it stays. */
  lemma {:induction false} WinnerStays(c: Setup, run: seq<Pool>, moves: seq<nat>, j: nat, k: nat)
    requires IsRun(c, run, moves) && j <= k < |run| && run[j].slot.Some?
    ensures run[k].slot == run[j].slot
    decreases k - j
  {
    if j < k {
      WinnerStays(c, run, moves, j, k - 1);
      assert Moves(c, run[k - 1], moves[k - 1], run[k]);
    }
  }

  /** Reserved ranges follow one another from the start, each nonempty, and end where the counter stands. */
  lemma {:induction false} RangesApart(log: seq<Range>, start: U64, next: U64, j: nat, k: nat)
    requires Contiguous(log, start, next) && j < k < |log|
    ensures start <= log[j].lo < log[j].hi <= log[k].lo < log[k].hi <= next
    ensures k == j + 1 ==> log[j].hi == log[k].lo
    decreases |log|
  {
    var last := |log| - 1;
    if k < last {
      RangesApart(log[..last], start, log[last].lo, j, k);
    } else {
      EndsAt(log[..last], start, log[last].lo, j);
    }
  }

  lemma {:induction false} EndsAt(log: seq<Range>, start: U64, next: U64, j: nat)
    requires Contiguous(log, start, next) && j < |log|
    ensures start <= log[j].lo < log[j].hi <= next
    ensures j == |log| - 1 ==> log[j].hi == next
    ensures j == 0 ==> log[j].lo == start
    decreases |log|
  {
    var last := |log| - 1;
    if j < last {
      EndsAt(log[..last], start, log[last].lo, j);
      StartsLow(log[..last], start, log[last].lo);
    } else {
      StartsLow(log[..last], start, log[last].lo);
    }
  }

  lemma {:induction false} StartsLow(log: seq<Range>, start: U64, next: U64)
    requires Contiguous(log, start, next)
    ensures start <= next && (log == [] ==> start == next)
    decreases |log|
  {
    if log != [] {
      StartsLow(log[..|log| - 1], start, log[|log| - 1].lo);
    }
  }

  /** In every interleaving the reserved ranges are nonempty, disjoint, without gaps, and inside the attempts asked for. */
  lemma ReservationsApart(c: Setup, run: seq<Pool>, moves: seq<nat>, i: nat)
    requires ValidSetup(c) && IsRun(c, run, moves) && i < |run|
    ensures var log := run[i].log;
      && (forall j :: 0 <= j < |log| ==> c.start <= log[j].lo < log[j].hi <= run[i].next <= c.end)
      && (forall j, k :: 0 <= j < k < |log| ==> log[j].hi <= log[k].lo && (k == j + 1 ==> log[j].hi == log[k].lo))
      && (if log == [] then run[i].next == c.start else log[0].lo == c.start && log[|log| - 1].hi == run[i].next)
  {
    hide Held, Tallied, Sound, IsRun, Contiguous, ValidSetup;
    RunKeeps(c, run, moves, i);
    var log := run[i].log;
    StartsLow(log, c.start, run[i].next);
    forall j | 0 <= j < |log|
      ensures c.start <= log[j].lo < log[j].hi <= run[i].next
      ensures j == |log| - 1 ==> log[j].hi == run[i].next
      ensures j == 0 ==> log[j].lo == c.start
    {
      EndsAt(log, c.start, run[i].next, j);
    }
    forall j, k | 0 <= j < k < |log|
      ensures log[j].hi <= log[k].lo && (k == j + 1 ==> log[j].hi == log[k].lo)
    {
      RangesApart(log, c.start, run[i].next, j, k);
    }
  }

  /** At no time has an attempt been hashed twice, or one outside the reserved part. */
  lemma HashedAtMostOnce(c: Setup, run: seq<Pool>, moves: seq<nat>, i: nat, n: nat)
    requires ValidSetup(c) && IsRun(c, run, moves) && i < |run|
    ensures run[i].tally[n] <= 1 && (run[i].tally[n] == 1 ==> c.start <= n < run[i].next <= c.end)
  {
    hide Held, Sound, IsRun, Contiguous, ValidSetup, InFlight;
    RunKeeps(c, run, moves, i);
  }

  predicate AllFinished(s: Pool) {
    forall w :: 0 <= w < |s.phases| ==> s.phases[w].Finished?
  }

  /**
   * When every worker has finished: without a result, every attempt has been hashed exactly once, and missed if the
   * device is to be trusted; with a result, the result wins.
   */
  lemma MiningOutcome(c: Setup, run: seq<Pool>, moves: seq<nat>)
    requires ValidSetup(c) && IsRun(c, run, moves) && AllFinished(run[|moves|])
    ensures var last := run[|moves|];
      if last.slot.Some? then c.wins(last.slot.value.0, last.slot.value.1)
      else forall n: nat ::
        && last.tally[n] == (if c.start <= n < c.end then 1 else 0)
        && (c.start <= n < c.end ==> n in last.owner && (HonestDevice(c) ==> !c.wins(n, last.owner[n])))
  {
    hide HonestDevice, Contiguous, Moves, Init;
    RunKeeps(c, run, moves, |moves|);
    var last := run[|moves|];
    if last.slot.None? {
      assert last.phases[0].Finished?;
      assert last.next == c.end;
      forall n: nat
        ensures last.tally[n] == if c.start <= n < c.end then 1 else 0
        ensures c.start <= n < c.end ==> n in last.owner && (HonestDevice(c) ==> !c.wins(n, last.owner[n]))
      {
        assert !InFlight(last, n);
        assert last.tally[n] == (if c.start <= n < last.next && !InFlight(last, n) then 1 else 0) && (n in last.owner <==> last.tally[n] == 1);
      }
    }
  }

  // ----- every run ends -----

  function Rank(p: Phase): nat {
    match p
    case Hashing(_) => 4
    case Publishing(_) => 3
    case Checking => 2
    case Reserving => 1
    case _ => 0
  }

  function Ranks(phases: seq<Phase>): nat {
    if phases == [] then 0 else Rank(phases[0]) + Ranks(phases[1..])
  }

  lemma {:induction false} RanksUpdate(phases: seq<Phase>, w: nat, p: Phase)
    requires w < |phases|
    ensures Ranks(phases[w := p]) == Ranks(phases) - Rank(phases[w]) + Rank(p)
    decreases |phases|
  {
    if w == 0 {
      assert phases[0 := p][1..] == phases[1..];
    } else {
      assert phases[w := p][1..] == phases[1..][w - 1 := p];
      RanksUpdate(phases[1..], w - 1, p);
    }
  }

  lemma {:induction false} RanksAtFirst(n: nat)
    ensures Ranks(seq(n, _ => Checking)) == 2 * n
  {
    if n > 0 {
      assert seq(n, _ => Checking)[1..] == seq(n - 1, _ => Checking);
      RanksAtFirst(n - 1);
    }
  }

  function Work(c: Setup, s: Pool): int {
    4 * (c.end - s.next) + Ranks(s.phases)
  }

  /** Every step of every worker uses up work. */
  lemma StepWorks(c: Setup, s: Pool, w: nat)
    requires ValidSetup(c) && Invariant(c, s) && Active(s, w)
    ensures Work(c, Step(c, s, w)) < Work(c, s)
  {
    hide Held, Tallied, Sound, Contiguous, Ranks, AfterHash;
    RanksUpdate(s.phases, w, Step(c, s, w).phases[w]);
    if s.phases[w].Reserving? {
      ReservedFits(s.next, c.end, c.workers[w].size);
    } else if s.phases[w].Hashing? {
      NotHashing(c, w, s.phases[w].range);
      assert Rank(AfterHash(c, w, s.phases[w].range)) <= 3;
    }
  }

  /** No interleaving is longer than four steps an attempt and two a worker. */
  lemma {:induction false} RunIsBounded(c: Setup, run: seq<Pool>, moves: seq<nat>)
    requires ValidSetup(c) && IsRun(c, run, moves)
    ensures |moves| + Work(c, run[|moves|]) <= 4 * (c.end - c.start) + 2 * |c.workers|
    ensures |moves| <= 4 * (c.end - c.start) + 2 * |c.workers|
    decreases |moves|
  {
    hide Invariant, Ranks, Step;
    RunKeeps(c, run, moves, |moves|);
    WorkIsLeft(c, run[|moves|]);
    if moves == [] {
      RanksAtFirst(|c.workers|);
    } else {
      var m := |moves| - 1;
      Shorter(c, run, moves);
      RunIsBounded(c, run[..m + 1], moves[..m]);
      assert run[..m + 1][m] == run[m];
      assert Moves(c, run[m], moves[m], run[m + 1]);
      RunKeeps(c, run, moves, m);
      StepWorks(c, run[m], moves[m]);
    }
  }

  lemma WorkIsLeft(c: Setup, s: Pool)
    requires Invariant(c, s)
    ensures Work(c, s) >= 0
  {
    hide Held, Tallied, Sound, Contiguous, Ranks;
  }

  lemma Shorter(c: Setup, run: seq<Pool>, moves: seq<nat>)
    requires IsRun(c, run, moves) && moves != []
    ensures IsRun(c, run[..|moves|], moves[..|moves| - 1])
  {
    hide Step, Active, Init;
    var m := |moves| - 1;
    forall k | 0 <= k < m
      ensures Moves(c, run[..m + 1][k], moves[..m][k], run[..m + 1][k + 1])
    {
      assert Moves(c, run[k], moves[k], run[k + 1]);
    }
  }
}
