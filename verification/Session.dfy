/** The bounded mining session: fetch a template, mine a batch, fetch again, submit if the parent is unchanged. */
module Session {
  import opened Digests
  import opened Machine
  import opened Reservation

  const BATCH: U64 := 4096

  /** Blocks and solutions are passed on as they are. */
  type Block = string
  type Pow = Digest

  /** The block to mine on and the parent that it extends. */
  datatype Template = Template(block: Block, parent: Digest)

  /** What the session asked of the outside, and the answer; no answer is an error. */
  datatype Event =
    | Fetched(answer: Option<Template>)
    | Mined(template: Template, start: U64, count: U64, found: Option<Option<Pow>>)
    | Submitted(block: Block, pow: Pow, accepted: Option<bool>)

  datatype Outcome = Won(pow: Pow) | FetchFailed | MineFailed | SubmitFailed | Exhausted

  /** The attempts reserved so far, whether or not their results were used. */
  function Spent(events: seq<Event>): nat {
    if events == [] then 0
    else Spent(events[..|events| - 1]) + if events[|events| - 1].Mined? then events[|events| - 1].count else 0
  }

  /** The event at `i` follows the rules of the session. */
  ghost predicate GoodAt(events: seq<Event>, limit: U64, i: nat)
    requires i < |events|
  {
    match events[i]
    case Fetched(_) => FetchedInTurn(events, i)
    case Mined(_, _, _, _) => MinedInOrder(events, limit, i)
    case Submitted(_, _, _) => SubmittedFresh(events, i)
  }

  /** A template is fetched at the beginning, and after every batch that did not fail. */
  ghost predicate FetchedInTurn(events: seq<Event>, i: nat)
    requires i < |events|
  {
    i == 0 || (events[i - 1].Mined? && events[i - 1].found.Some?)
  }

  /**
   * A batch starts where the last one ended, has 4096 attempts or those that are left, and is mined on the template
   * fetched last; between two batches there is a fetch.
   */
  ghost predicate MinedInOrder(events: seq<Event>, limit: U64, i: nat)
    requires i < |events| && events[i].Mined?
  {
    && i > 0 && !events[i - 1].Mined? && (events[i - 1].Submitted? ==> events[i - 1].accepted == Some(false))
    && events[i].start == Spent(events[..i]) < limit
    && (events[i].count == 4096 <= limit - events[i].start || events[i].count == limit - events[i].start <= 4096)
    && Latest(events[..i], events[i].template)
  }

  ghost predicate Latest(events: seq<Event>, template: Template) {
    exists j :: 0 <= j < |events| && events[j] == Fetched(Some(template)) && forall k :: j < k < |events| ==> !events[k].Fetched?
  }

  /** A result is submitted only with the block it was mined on, and only if the parent fetched after it is still the same. */
  ghost predicate SubmittedFresh(events: seq<Event>, i: nat)
    requires i < |events| && events[i].Submitted?
  {
    && i >= 2
    && events[i - 2].Mined? && events[i - 2].found == Some(Some(events[i].pow)) && events[i].block == events[i - 2].template.block
    && events[i - 1].Fetched? && events[i - 1].answer.Some? && events[i - 1].answer.value.parent == events[i - 2].template.parent
  }

  /** Every result whose parent is still the same is submitted. */
  ghost predicate NothingLost(events: seq<Event>) {
    forall i :: 0 <= i < |events| && events[i].Mined? && events[i].found.Some? && events[i].found.value.Some? && i + 1 < |events|
      && events[i + 1].Fetched? && events[i + 1].answer.Some? && events[i + 1].answer.value.parent == events[i].template.parent
      ==> i + 2 < |events| && events[i + 2].Submitted?
  }

  /** No submission but the last was accepted. */
  ghost predicate Refused(events: seq<Event>) {
    forall i :: 0 <= i < |events| && events[i].Submitted? ==> events[i].accepted == Some(false)
  }

  ghost predicate Lawful(events: seq<Event>, limit: U64) {
    Spent(events) <= limit && forall i :: 0 <= i < |events| ==> GoodAt(events, limit, i)
  }

  lemma SpentMore(events: seq<Event>, e: Event)
    ensures Spent(events + [e]) == Spent(events) + if e.Mined? then e.count else 0
  {
    assert (events + [e])[..|events|] == events;
  }

  lemma GoodStays(events: seq<Event>, limit: U64, e: Event, i: nat)
    requires i < |events| && GoodAt(events, limit, i)
    ensures GoodAt(events + [e], limit, i)
  {
    hide Spent, Latest;
    assert (events + [e])[..i] == events[..i];
  }

  lemma Extended(events: seq<Event>, limit: U64, e: Event)
    requires Lawful(events, limit) && Spent(events + [e]) <= limit && GoodAt(events + [e], limit, |events|)
    ensures Lawful(events + [e], limit)
  {
    hide Spent, GoodAt;
    forall i | 0 <= i < |events + [e]|
      ensures GoodAt(events + [e], limit, i)
    {
      if i < |events| {
        GoodStays(events, limit, e, i);
      }
    }
  }

  lemma LawfulFetch(events: seq<Event>, limit: U64, answer: Option<Template>)
    requires Lawful(events, limit) && (events == [] || (events[|events| - 1].Mined? && events[|events| - 1].found.Some?))
    ensures var e := Fetched(answer); Lawful(events + [e], limit) && Spent(events + [e]) == Spent(events)
  {
    hide Spent;
    SpentMore(events, Fetched(answer));
    Extended(events, limit, Fetched(answer));
  }

  lemma LawfulMine(events: seq<Event>, limit: U64, template: Template, count: U64, found: Option<Option<Pow>>)
    requires Lawful(events, limit) && Latest(events, template) && Refused(events) && events != [] && !events[|events| - 1].Mined?
    requires Spent(events) < limit && count == Min(limit - Spent(events), BATCH)
    ensures var e := Mined(template, Spent(events), count, found);
      Lawful(events + [e], limit) && Spent(events + [e]) == Spent(events) + count
  {
    hide Spent, Latest;
    var e := Mined(template, Spent(events), count, found);
    SpentMore(events, e);
    assert (events + [e])[..|events|] == events;
    assert (events + [e])[|events| - 1] == events[|events| - 1];
    assert (events + [e])[|events|] == e;
    assert MinedInOrder(events + [e], limit, |events|);
    Extended(events, limit, e);
  }

  lemma LawfulSubmit(events: seq<Event>, limit: U64, e: Event)
    requires Lawful(events, limit) && e.Submitted? && SubmittedFresh(events + [e], |events|)
    ensures Lawful(events + [e], limit) && Spent(events + [e]) == Spent(events)
  {
    hide Spent, SubmittedFresh;
    SpentMore(events, e);
    Extended(events, limit, e);
  }

  /**
   * A win is the last submission, the only one accepted; giving up for lack of attempts means that exactly the limit was
   * reserved; nothing was accepted otherwise.
   */
  ghost predicate Concluded(outcome: Outcome, events: seq<Event>, limit: U64) {
    && events != []
    && Refused(events[..|events| - 1])
    && var last := events[|events| - 1];
       match outcome
       case Won(pow) => last.Submitted? && last.pow == pow && last.accepted == Some(true)
       case FetchFailed => last == Fetched(None)
       case MineFailed => last.Mined? && last.found == None
       case SubmitFailed => last.Submitted? && last.accepted == None
       case Exhausted => Refused(events) && Spent(events) == limit && !last.Mined? && last != Fetched(None)
  }

  /** The session ends with this event and this outcome. */
  lemma Ends(events: seq<Event>, e: Event, outcome: Outcome, limit: U64)
    requires Refused(events)
    requires match outcome
      case Won(pow) => e.Submitted? && e.pow == pow && e.accepted == Some(true)
      case FetchFailed => e == Fetched(None)
      case MineFailed => e.Mined? && e.found == None
      case SubmitFailed => e.Submitted? && e.accepted == None
      case Exhausted => false
    ensures Concluded(outcome, events + [e], limit)
  {
    assert (events + [e])[..|events|] == events;
  }

  /** A batch in progress loses nothing. */
  lemma MineLosesNothing(events: seq<Event>, m: Event)
    requires NothingLost(events) && Refused(events) && m.Mined? && events != [] && !events[|events| - 1].Mined?
    ensures NothingLost(events + [m]) && Refused(events + [m])
  {}

  /** Fetching after a batch loses nothing, unless there is a result to submit. */
  lemma FetchLosesNothing(events: seq<Event>, f: Event)
    requires NothingLost(events) && Refused(events) && f.Fetched? && events != [] && events[|events| - 1].Mined?
    requires var m := events[|events| - 1];
      m.found.None? || m.found.value.None? || f.answer.None? || f.answer.value.parent != m.template.parent
    ensures NothingLost(events + [f]) && Refused(events + [f])
  {}

  /** A result that is submitted is not lost. */
  lemma SubmitLosesNothing(events: seq<Event>, f: Event, e: Event)
    requires NothingLost(events) && Refused(events) && f.Fetched? && e.Submitted? && events != [] && events[|events| - 1].Mined?
    ensures NothingLost(events + [f] + [e]) && Refused(events + [f])
    ensures e.accepted == Some(false) ==> Refused(events + [f] + [e])
    ensures forall i :: 0 <= i <= |events| && (events + [f] + [e])[i].Submitted? ==> (events + [f] + [e])[i].accepted == Some(false)
  {}

  /** What holds between two batches. */
  ghost predicate Ongoing(events: seq<Event>, limit: U64, template: Template) {
    && Lawful(events, limit) && NothingLost(events) && Refused(events) && Latest(events, template)
    && events != [] && !events[|events| - 1].Mined? && events[|events| - 1] != Fetched(None)
  }

  /** `fetch`, `mine` and `submit` may answer anything; each is told how many events came before it. */
  datatype World = World(
    fetch: nat -> Option<Template>,
    mine: (nat, Template, U64, U64) -> Option<Option<Pow>>,
    submit: (nat, Block, Pow) -> Option<bool>)

  /** The outside, asked the recorded question after `i` events, gives the recorded answer. */
  ghost predicate AnsweredBy(world: World, i: nat, e: Event) {
    match e
    case Fetched(answer) => answer == world.fetch(i)
    case Mined(template, start, count, found) => found == world.mine(i, template, start, count)
    case Submitted(block, pow, accepted) => accepted == world.submit(i, block, pow)
  }

  ghost predicate Truthful(events: seq<Event>, world: World) {
    forall i :: 0 <= i < |events| ==> AnsweredBy(world, i, events[i])
  }

  method Run(limit: U64, world: World) returns (outcome: Outcome, events: seq<Event>)
    ensures Truthful(events, world)
    ensures Lawful(events, limit)
    ensures NothingLost(events)
    ensures Concluded(outcome, events, limit)
  {
    hide Lawful, Spent, NothingLost, Concluded, Ongoing;
    var first := world.fetch(0);
    events := [Fetched(first)];
    Begins(first, limit);
    if first.None? {
      return FetchFailed, events;
    }
    var spent: U64 := 0;
    var template := first.value;
    while spent < limit
      invariant spent <= limit && spent == Spent(events) && Ongoing(events, limit, template) && Truthful(events, world)
      decreases limit - spent
    {
      var next;
      outcome, events, next, spent := Round(limit, world, events, template, spent);
      if next.None? {
        return;
      }
      template := next.value;
    }
    EndsExhausted(events, limit, template);
    return Exhausted, events;
  }

  /** One batch: mine, fetch again, and submit what was found unless it is stale. */
  method Round(limit: U64, world: World, before: seq<Event>, template: Template, reserved: U64)
    returns (outcome: Outcome, events: seq<Event>, next: Option<Template>, spent: U64)
    requires reserved < limit && reserved == Spent(before) && Ongoing(before, limit, template) && Truthful(before, world)
    ensures before <= events && Truthful(events, world)
    ensures next.Some? ==> reserved < spent <= limit && spent == Spent(events) && Ongoing(events, limit, next.value)
    ensures next.None? ==> Lawful(events, limit) && NothingLost(events) && Concluded(outcome, events, limit)
  {
    hide Lawful, Spent, GoodAt, MinedInOrder, NothingLost, Refused, Latest, Concluded;
    outcome, events, next := Exhausted, before, None;
    var count := Min(limit - reserved, BATCH);
    var result := world.mine(|events|, template, reserved, count);
    var batch := Mined(template, reserved, count, result);
    LawfulMine(events, limit, template, count, result);
    MineLosesNothing(events, batch);
    spent := reserved + count;
    if result.None? {
      Ends(events, batch, MineFailed, limit);
      return MineFailed, events + [batch], None, spent;
    }
    events := events + [batch];
    var latest := world.fetch(|events|);
    LawfulFetch(events, limit, latest);
    if latest.None? {
      FetchLosesNothing(events, Fetched(latest));
      Ends(events, Fetched(latest), FetchFailed, limit);
      return FetchFailed, events + [Fetched(latest)], None, spent;
    }
    if result.value.Some? && latest.value.parent == template.parent {
      var pow := result.value.value;
      var accepted := world.submit(|events| + 1, template.block, pow);
      var submission := Submitted(template.block, pow, accepted);
      SubmitLosesNothing(events, Fetched(latest), submission);
      events := events + [Fetched(latest)];
      LawfulSubmit(events, limit, submission);
      if accepted.None? {
        Ends(events, submission, SubmitFailed, limit);
        return SubmitFailed, events + [submission], None, spent;
      }
      if accepted.value {
        Ends(events, submission, Won(pow), limit);
        return Won(pow), events + [submission], None, spent;
      }
      events := events + [submission];
      LatestNow(events, latest.value, |events| - 2);
    } else {
      FetchLosesNothing(events, Fetched(latest));
      events := events + [Fetched(latest)];
      LatestNow(events, latest.value, |events| - 1);
    }
    next := latest;
  }

  /** A record of one fetch. */
  lemma OneFetch(answer: Option<Template>)
    ensures var one := [Fetched(answer)];
      NothingLost(one) && Refused(one) && Refused(one[..0]) && Spent(one) == 0 && (answer.Some? ==> Latest(one, answer.value))
  {
    if answer.Some? {
      LatestNow([Fetched(answer)], answer.value, 0);
    }
  }

  lemma NothingYet(limit: U64)
    ensures Lawful([], limit) && Spent([]) == 0
  {}

  lemma Begins(answer: Option<Template>, limit: U64)
    ensures var one := [Fetched(answer)];
      && Lawful(one, limit) && NothingLost(one) && Spent(one) == 0
      && (answer.None? ==> Concluded(FetchFailed, one, limit))
      && (answer.Some? ==> Ongoing(one, limit, answer.value))
  {
    hide Lawful, NothingLost, Refused, Spent, Latest;
    var none: seq<Event> := [];
    NothingYet(limit);
    LawfulFetch(none, limit, answer);
    assert none + [Fetched(answer)] == [Fetched(answer)];
    OneFetch(answer);
  }

  lemma EndsExhausted(events: seq<Event>, limit: U64, template: Template)
    requires Ongoing(events, limit, template) && Spent(events) == limit
    ensures Lawful(events, limit) && NothingLost(events) && Concluded(Exhausted, events, limit)
  {
    hide Lawful, Spent, NothingLost, Latest;
  }

  lemma LatestNow(events: seq<Event>, template: Template, j: nat)
    requires j < |events| && events[j] == Fetched(Some(template)) && forall k :: j < k < |events| ==> !events[k].Fetched?
    ensures Latest(events, template)
  {}

  // ----- the rules leave no choice -----

  /** All that a session's record and outcome must meet. */
  ghost predicate SessionOf(limit: U64, world: World, outcome: Outcome, events: seq<Event>) {
    && Truthful(events, world) && Lawful(events, limit) && NothingLost(events) && Concluded(outcome, events, limit)
  }

  lemma LatestUnique(events: seq<Event>, a: Template, b: Template)
    requires Latest(events, a) && Latest(events, b)
    ensures a == b
  {}

  lemma LatestIsAnswer(events: seq<Event>, template: Template)
    requires Latest(events, template)
    ensures events != [] && events[|events| - 1] != Fetched(None)
  {}

  /** Where one record goes on, so does every other that agrees so far. */
  lemma GoesOn(limit: U64, world: World, o: Outcome, a: seq<Event>, q: Outcome, b: seq<Event>, k: nat)
    requires SessionOf(limit, world, o, a) && SessionOf(limit, world, q, b) && k < |a| && k <= |b| && a[..k] == b[..k]
    ensures k < |b|
  {
    hide Spent, Refused, Latest;
    assert GoodAt(a, limit, k);
    if k > 0 && k == |b| {
      assert b == b[..k] == a[..k];
      assert a[..k][k - 1] == a[k - 1] && (k > 1 ==> a[..k][k - 2] == a[k - 2]);
      if a[k].Mined? {
        LatestIsAnswer(a[..k], a[k].template);
      }
    }
  }

  /** And it goes on with the same event. */
  lemma SameEvent(limit: U64, world: World, o: Outcome, a: seq<Event>, q: Outcome, b: seq<Event>, k: nat)
    requires SessionOf(limit, world, o, a) && SessionOf(limit, world, q, b) && k < |a| && k < |b| && a[..k] == b[..k]
    ensures a[k] == b[k]
  {
    hide Spent, Refused, Latest, Concluded;
    assert GoodAt(a, limit, k) && GoodAt(b, limit, k);
    assert AnsweredBy(world, k, a[k]) && AnsweredBy(world, k, b[k]);
    if k > 0 {
      assert a[k - 1] == a[..k][k - 1] == b[k - 1];
      assert k > 1 ==> a[k - 2] == a[..k][k - 2] == b[k - 2];
      if a[k].Mined? && b[k].Mined? {
        LatestUnique(a[..k], a[k].template, b[k].template);
      }
    }
  }

  lemma {:induction false} AgreeUpTo(limit: U64, world: World, o: Outcome, a: seq<Event>, q: Outcome, b: seq<Event>, k: nat)
    requires SessionOf(limit, world, o, a) && SessionOf(limit, world, q, b) && k <= |a|
    ensures k <= |b| && a[..k] == b[..k]
    decreases k
  {
    hide SessionOf;
    if k > 0 {
      AgreeUpTo(limit, world, o, a, q, b, k - 1);
      GoesOn(limit, world, o, a, q, b, k - 1);
      SameEvent(limit, world, o, a, q, b, k - 1);
      assert a[..k] == a[..k - 1] + [a[k - 1]] && b[..k] == b[..k - 1] + [b[k - 1]];
    }
  }

  /** For every limit and every outside there is one record and one outcome that meet the rules. */
  lemma SessionIsDetermined(limit: U64, world: World, o: Outcome, a: seq<Event>, q: Outcome, b: seq<Event>)
    requires SessionOf(limit, world, o, a) && SessionOf(limit, world, q, b)
    ensures a == b && o == q
  {
    AgreeUpTo(limit, world, o, a, q, b, |a|);
    AgreeUpTo(limit, world, q, b, o, a, |b|);
    hide Lawful, NothingLost, Truthful, Spent;
  }
}
