/** The rollout engine: waves of updates over a queue to which failed bots return until the strategy gives them up. */
module Rollout {
  import opened Basics
  import opened Counting
  import opened RolloutStrategies

  datatype UpdateResult = UpdateResult(bot: string, success: bool)
  datatype RolloutResult = RolloutResult(totalBots: nat, succeeded: nat, failed: nat, skipped: int, aborted: bool,
    alreadyRunning: bool,
                                         results: seq<UpdateResult>)

  // ---- What a log of update results says about a bot ----

  function BotIn(): UpdateResult -> string { (r: UpdateResult) => r.bot }
  function FailureOf(bot: string): UpdateResult -> bool { (r: UpdateResult) => r.bot == bot && !r.success }
  function SuccessOf(bot: string): UpdateResult -> bool { (r: UpdateResult) => r.bot == bot && r.success }
  function Succeeded(): UpdateResult -> bool { (r: UpdateResult) => r.success }
  function NotSucceeded(): UpdateResult -> bool { (r: UpdateResult) => !r.success }

  function Attempts(results: seq<UpdateResult>, bot: string): nat { Count(results, Keyed(BotIn(), bot)) }
  function Failures(results: seq<UpdateResult>, bot: string): nat { Count(results, FailureOf(bot)) }
  function Successes(results: seq<UpdateResult>, bot: string): nat { Count(results, SuccessOf(bot)) }

  lemma {:induction false} AttemptsSplit(results: seq<UpdateResult>, bot: string)
    ensures Attempts(results, bot) == Failures(results, bot) + Successes(results, bot)
  {
    if results != [] { AttemptsSplit(results[..|results| - 1], bot); }
  }

  lemma {:induction false} ResultsSplit(results: seq<UpdateResult>)
    ensures |results| == Count(results, Succeeded()) + Count(results, NotSucceeded())
  {
    if results != [] { ResultsSplit(results[..|results| - 1]); }
  }

  lemma Appended(results: seq<UpdateResult>, r: UpdateResult, bot: string)
    ensures Failures(results + [r], bot) == Failures(results, bot) + if r.bot == bot && !r.success then 1 else 0
    ensures Successes(results + [r], bot) == Successes(results, bot) + if r.bot == bot && r.success then 1 else 0
    ensures Attempts(results + [r], bot) == Attempts(results, bot) + if r.bot == bot then 1 else 0
  {
    CountAppend(results, r, FailureOf(bot));
    CountAppend(results, r, SuccessOf(bot));
    CountAppend(results, r, Keyed(BotIn(), bot));
  }

  /** Failures, then at most one success, and no more attempts than allowed. */
  ghost predicate WellTried(results: seq<UpdateResult>, bot: string, max: nat) {
    && Attempts(results, bot) <= max
    && (forall i, j | 0 <= i < j < |results| && results[i].bot == bot && results[j].bot == bot :: !results[i].success)
  }

  ghost predicate StillOpen(results: seq<UpdateResult>, bot: string, max: nat) {
    Successes(results, bot) == 0 && Failures(results, bot) < max
  }

  /** Updated, or given up after every attempt it was entitled to. */
  ghost predicate Resolved(results: seq<UpdateResult>, bot: string, max: nat) {
    Successes(results, bot) == 1 || (Successes(results, bot) == 0 && Failures(results, bot) == max)
  }

  ghost predicate DistinctIds(ids: seq<string>) { forall i, j | 0 <= i < j < |ids| :: ids[i] != ids[j] }

  // ---- The strategy's verdicts, replayed over the log ----

  datatype Verdict = Verdict(counter: int, aborted: bool)

  function Replay(policy: Policy, start: int, results: seq<UpdateResult>): Verdict {
    if results == [] then Verdict(start, false) else
      var last := results[|results| - 1];
      var before := Replay(policy, start, results[..|results| - 1]);
      if last.success then before else
        var (action, counter) := Decide(policy, before.counter, Failures(results, last.bot));
        Verdict(counter, before.aborted || action == Abort)
  }

  /** Nothing was updated after the strategy said stop. */
  ghost predicate StopsAtAbort(policy: Policy, start: int, results: seq<UpdateResult>) {
    forall k | 0 <= k < |results| :: !Replay(policy, start, results[..k]).aborted
  }

  lemma ReplayAppended(policy: Policy, start: int, results: seq<UpdateResult>, r: UpdateResult)
    requires StopsAtAbort(policy, start, results) && !Replay(policy, start, results).aborted
    ensures StopsAtAbort(policy, start, results + [r])
    ensures var before := Replay(policy, start, results);
      Replay(policy, start, results + [r]) ==
        if r.success then before else
          (var (action, counter) := Decide(policy, before.counter, Failures(results + [r], r.bot));
           Verdict(counter, action == Abort))
  {
    var results' := results + [r];
    assert results'[..|results|] == results;
    forall k | 0 <= k < |results'| ensures !Replay(policy, start, results'[..k]).aborted {
      assert results'[..k] == if k < |results| then results[..k] else results;
    }
  }

  // ---- The queue ----

  /** `pending` may still be updated; every other bot is resolved unless the rollout was aborted. */
  ghost predicate QueueSound(bots: seq<string>, pending: seq<string>, results: seq<UpdateResult>, max: nat,
                             aborted: bool) {
    && (forall r | r in results :: r.bot in bots)
    && (forall b | b in bots :: WellTried(results, b, max))
    && (!aborted ==>
          && DistinctIds(pending)
          && (forall b | b in pending :: b in bots && StillOpen(results, b, max))
          && (forall b | b in bots :: b in pending || Resolved(results, b, max)))
  }

  lemma TriedOnceMore(results: seq<UpdateResult>, r: UpdateResult, bot: string, max: nat)
    requires WellTried(results, bot, max) && (r.bot == bot ==> StillOpen(results, bot, max))
    ensures WellTried(results + [r], bot, max)
  {
    Appended(results, r, bot);
    AttemptsSplit(results, bot);
    CountNone(results, SuccessOf(bot));
  }

  /** One update, of the first of `pending`; it rejoins at the place given by `rest` if it may be tried again. */
  lemma QueueStep(bots: seq<string>, pending: seq<string>, results: seq<UpdateResult>, max: nat, r: UpdateResult,
                  rest: seq<string>, aborted: bool)
    requires QueueSound(bots, pending, results, max, false) && r.bot in pending && DistinctIds(rest)
    requires aborted ==> !r.success && Failures(results + [r], r.bot) >= max
    requires forall b :: b in rest <==> b in pending && (b == r.bot ==> !r.success && Failures(results + [r], b) < max)
    ensures QueueSound(bots, rest, results + [r], max, aborted)
  {
    var results' := results + [r];
    forall b | b in bots ensures WellTried(results', b, max) { TriedOnceMore(results, r, b, max); }
    forall b | b in rest ensures b in bots && StillOpen(results', b, max) { Appended(results, r, b); }
    forall b | b in bots ensures b in rest || Resolved(results', b, max) { Appended(results, r, b); }
  }

  lemma QueueStarts(bots: seq<string>, max: nat)
    requires DistinctIds(bots) && max > 0
    ensures QueueSound(bots, bots, [], max, false)
  {}

  // ---- One plain queue ----

  /**
   What one queue holds after these updates, each of the bot at its head, which returns to the end if its failures are
   fewer than `max`; none if the updates are not those of such a queue.
   */
  function QueueLeft(bots: seq<string>, results: seq<UpdateResult>, max: nat): Option<seq<string>> {
    if results == [] then Some(bots) else
      var last := results[|results| - 1];
      match QueueLeft(bots, results[..|results| - 1], max)
      case None => None
      case Some(queue) =>
        if queue == [] || queue[0] != last.bot then None
        else Some(queue[1..] + if !last.success && Failures(results, last.bot) < max then [last.bot] else [])
  }

  /** The log is that of one queue, whatever the waves; `queue` is what is left of it. */
  ghost predicate Queued(bots: seq<string>, queue: seq<string>, results: seq<UpdateResult>, max: nat, aborted: bool) {
    if aborted then QueueLeft(bots, results, max).Some? else QueueLeft(bots, results, max) == Some(queue)
  }

  lemma QueuedStep(bots: seq<string>, queue: seq<string>, results: seq<UpdateResult>, max: nat, r: UpdateResult,
                   again: bool, aborted: bool)
    requires Queued(bots, queue, results, max, false) && queue != [] && r.bot == queue[0]
    requires again <==> !r.success && Failures(results + [r], r.bot) < max
    ensures Queued(bots, queue[1..] + if again then [r.bot] else [], results + [r], max, aborted)
  {
    assert (results + [r])[..|results|] == results;
  }

  // ---- Bots not yet touched ----

  /** The touched bots are the first t of the list. */
  ghost predicate TouchedFirst(bots: seq<string>, results: seq<UpdateResult>, t: nat) {
    && t <= |bots|
    && (forall k | 0 <= k < |bots| :: k < t <==> Attempts(results, bots[k]) > 0)
  }

  /** ... and the untouched ones lead the queue in order. */
  ghost predicate UntouchedLead(bots: seq<string>, queue: seq<string>, t: nat) { t <= |bots| && bots[t..] <= queue }

  lemma TouchedStep(bots: seq<string>, queue: seq<string>, results: seq<UpdateResult>, t: nat, r: UpdateResult)
    requires DistinctIds(bots) && TouchedFirst(bots, results, t) && UntouchedLead(bots, queue, t)
    requires queue != [] && r.bot == queue[0] && r.bot in bots
    ensures var t' := if t < |bots| then t + 1 else t;
      TouchedFirst(bots, results + [r], t') && UntouchedLead(bots, queue[1..], t')
  {
    forall k | 0 <= k < |bots|
      ensures Attempts(results + [r], bots[k]) == Attempts(results, bots[k]) + if r.bot == bots[k] then 1 else 0
    {
      Appended(results, r, bots[k]);
    }
    if t < |bots| { assert bots[t..][0] == bots[t]; }
  }

  // ---- Attempts in all ----

  function IdsOf(ids: seq<string>): set<string> { set id | id in ids }

  lemma {:induction false} DistinctIdsCount(ids: seq<string>)
    requires DistinctIds(ids)
    ensures |IdsOf(ids)| == |ids|
  {
    if ids != [] {
      var rest, last := ids[..|ids| - 1], ids[|ids| - 1];
      DistinctIdsCount(rest);
      assert last !in rest;
      assert IdsOf(ids) == IdsOf(rest) + {last};
    }
  }

  /** At most `max` attempts per bot make at most `max` times as many in all. */
  lemma AttemptsAreBounded(bots: seq<string>, results: seq<UpdateResult>, max: nat)
    requires DistinctIds(bots) && (forall r | r in results :: r.bot in bots)
    requires (forall b | b in bots :: Attempts(results, b) <= max)
    ensures |results| <= max * |bots|
  {
    var ids := IdsOf(bots);
    DistinctIdsCount(bots);
    RowsAreCountedOnce(ids, results, BotIn());
    SumIsMonotone(ids, (b: string) => Count(results, Keyed(BotIn(), b)), (b: string) => max);
    SumOfConstant(ids, max);
  }

  /** The reported `skipped` never exceeds the untouched bots, and equals them exactly when no bot was tried twice. */
  lemma SkippedCountsUntouchedIff(bots: seq<string>, results: seq<UpdateResult>, t: nat)
    requires DistinctIds(bots) && (forall r | r in results :: r.bot in bots) && TouchedFirst(bots, results, t)
    ensures |bots| - |results| <= |bots| - t
    ensures |bots| - |results| == |bots| - t <==> forall b | b in bots :: Attempts(results, b) <= 1
  {
    var touched := IdsOf(bots[..t]);
    var tries, extra := (b: string) => Count(results, Keyed(BotIn(), b)), (b: string) =>
      Count(results, Keyed(BotIn(), b)) - 1;
    DistinctIdsCount(bots[..t]);
    forall k | 0 <= k < t ensures bots[k] in touched { assert bots[..t][k] == bots[k]; }
    forall r | r in results ensures r.bot in touched {
      var k :| 0 <= k < |bots| && bots[k] == r.bot;
      CountNone(results, Keyed(BotIn(), r.bot));
      assert bots[..t][k] == r.bot;
    }
    RowsAreCountedOnce(touched, results, BotIn());
    forall b | b in touched ensures extra(b) >= 0 {
      var k :| 0 <= k < t && bots[..t][k] == b;
      assert Attempts(results, bots[k]) > 0;
    }
    SumOverDifference(touched, tries, (b: string) => 1, extra);
    SumOfConstant(touched, 1);
    SumOfNonNegatives(touched, extra);
    assert SumOver(touched, extra) == |results| - t;
    if forall b | b in bots :: Attempts(results, b) <= 1 {
      forall b | b in touched ensures extra(b) == 0 { assert b in bots && Attempts(results, b) <= 1; }
      SumOfZeros(touched, extra);
    }
    if |results| == t {
      forall b | b in bots ensures Attempts(results, b) <= 1 {
        if b in touched { assert extra(b) <= 0; } else {
          var k :| 0 <= k < |bots| && bots[k] == b;
          assert k >= t;
        }
      }
    }
  }

  // ---- Blast radius ----

  function GivenUp(results: seq<UpdateResult>, max: nat): string -> bool { (b: string) => Failures(results, b) >= max }

  /** How many bots were given up after all their attempts. */
  function Exhausted(bots: seq<string>, results: seq<UpdateResult>, max: nat): nat {
    Count(bots, GivenUp(results, max))
  }

  lemma {:induction false} ExhaustedAppended(bots: seq<string>, results: seq<UpdateResult>, r: UpdateResult, max: nat)
    requires DistinctIds(bots)
    ensures Exhausted(bots, results + [r], max)
         == Exhausted(bots, results, max) +
           if r.bot in bots && !r.success && Failures(results + [r], r.bot) == max then 1 else 0
  {
    if bots != [] {
      var rest, last := bots[..|bots| - 1], bots[|bots| - 1];
      ExhaustedAppended(rest, results, r, max);
      assert last !in rest;
      Appended(results, r, last);
      assert r.bot in bots <==> r.bot in rest || r.bot == last;
    }
  }

  /** The rolling wave's tally grows by one for every bot given up; the others keep no tally. */
  lemma {:induction false} TallyCountsExhausted(policy: Policy, bots: seq<string>, start: int,
                                                results: seq<UpdateResult>)
    requires DistinctIds(bots) && (forall r | r in results :: r.bot in bots)
    requires forall b | b in bots :: Failures(results, b) <= MaxRetries(policy)
    ensures Replay(policy, start, results).counter == start +
      if policy.RollingWave? then Exhausted(bots, results, MaxRetries(policy)) else 0
  {
    var max := MaxRetries(policy);
    if results == [] {
      CountNone(bots, GivenUp([], max));
    } else {
      var rest, last := results[..|results| - 1], results[|results| - 1];
      assert results == rest + [last] && last in results;
      assert forall r | r in rest :: r in results;
      forall b | b in bots ensures Failures(rest, b) <= max { Appended(rest, last, b); }
      TallyCountsExhausted(policy, bots, start, rest);
      ExhaustedAppended(bots, rest, last, max);
    }
  }

  /** How far a rollout can go wrong before it stops, for each strategy: `given` bots given up. */
  ghost predicate Contained(policy: Policy, start: int, given: nat, aborted: bool) {
    match policy
    case RollingWave(_, maxFailures) =>
      && given <= (if maxFailures - start > 1 then maxFailures - start else 1)
      && (aborted <==> given > 0 && start + given >= maxFailures)
    case SingleBot => given <= 1 && (aborted <==> given == 1)
    case Immediate => !aborted
  }

  lemma ContainedStep(policy: Policy, start: int, given: nat, attempt: nat)
    requires Contained(policy, start, given, false) && 0 < attempt <= MaxRetries(policy)
    ensures var (action, _) := Decide(policy, start + if policy.RollingWave? then given else 0, attempt);
      Contained(policy, start, if attempt == MaxRetries(policy) then given + 1 else given, action == Abort)
  {}

  /** A log that stopped when told to, over these bots. */
  ghost predicate LogSound(policy: Policy, bots: seq<string>, start: int, results: seq<UpdateResult>) {
    && (forall r | r in results :: r.bot in bots)
    && (forall b | b in bots :: Failures(results, b) <= MaxRetries(policy))
    && StopsAtAbort(policy, start, results)
  }

  lemma LogPrefix(policy: Policy, bots: seq<string>, start: int, results: seq<UpdateResult>)
    requires LogSound(policy, bots, start, results) && results != []
    ensures LogSound(policy, bots, start, results[..|results| - 1])
    ensures !Replay(policy, start, results[..|results| - 1]).aborted
    ensures results[|results| - 1].bot in bots
  {
    var rest, last := results[..|results| - 1], results[|results| - 1];
    assert results == rest + [last] && last in results;
    assert forall r | r in rest :: r in results;
    forall b | b in bots ensures Failures(rest, b) <= MaxRetries(policy) { Appended(rest, last, b); }
    forall k | 0 <= k < |rest| ensures !Replay(policy, start, rest[..k]).aborted { assert rest[..k] == results[..k]; }
  }

  lemma {:induction false} BlastRadius(policy: Policy, bots: seq<string>, start: int, results: seq<UpdateResult>)
    requires DistinctIds(bots) && LogSound(policy, bots, start, results)
    ensures Contained(policy, start, Exhausted(bots, results, MaxRetries(policy)),
      Replay(policy, start, results).aborted)
  {
    var max := MaxRetries(policy);
    if results == [] {
      CountNone(bots, GivenUp([], max));
    } else {
      var rest, last := results[..|results| - 1], results[|results| - 1];
      assert results == rest + [last];
      LogPrefix(policy, bots, start, results);
      BlastRadius(policy, bots, start, rest);
      TallyCountsExhausted(policy, bots, start, rest);
      ExhaustedAppended(bots, rest, last, max);
      if !last.success {
        Appended(rest, last, last.bot);
        ContainedStep(policy, start, Exhausted(bots, rest, max), Failures(results, last.bot));
      }
    }
  }

  // ---- The loop ----

  function Without(ids: seq<string>, gone: seq<string>): (r: seq<string>)
    ensures forall b :: b in r <==> b in ids && b !in gone
  {
    if ids == [] then [] else
      var rest, last := Without(ids[..|ids| - 1], gone), ids[|ids| - 1];
      assert forall b :: b in ids <==> b in ids[..|ids| - 1] || b == last;
      if last in gone then rest else rest + [last]
  }

  lemma {:induction false} WithoutConcat(a: seq<string>, b: seq<string>, gone: seq<string>)
    ensures Without(a + b, gone) == Without(a, gone) + Without(b, gone)
  {
    if b == [] {
      assert a + b == a;
    } else {
      assert (a + b)[..|a + b| - 1] == a + b[..|b| - 1];
      WithoutConcat(a, b[..|b| - 1], gone);
    }
  }

  lemma {:induction false} WithoutNone(ids: seq<string>, gone: seq<string>)
    requires forall b | b in ids :: b !in gone
    ensures Without(ids, gone) == ids
  {
    if ids != [] {
      assert ids[|ids| - 1] in ids;
      WithoutNone(ids[..|ids| - 1], gone);
    }
  }

  lemma {:induction false} WithoutAll(ids: seq<string>, gone: seq<string>)
    requires forall b | b in ids :: b in gone
    ensures Without(ids, gone) == []
  {
    if ids != [] {
      assert ids[|ids| - 1] in ids;
      WithoutAll(ids[..|ids| - 1], gone);
    }
  }

  /** Taking the batch off the queue leaves the rest of the queue. */
  lemma WithoutPrefix(ids: seq<string>, n: nat)
    requires DistinctIds(ids) && n <= |ids|
    ensures Without(ids, ids[..n]) == ids[n..]
  {
    assert ids == ids[..n] + ids[n..];
    WithoutConcat(ids[..n], ids[n..], ids[..n]);
    WithoutAll(ids[..n], ids[..n]);
    WithoutNone(ids[n..], ids[..n]);
  }

  /** What holds between updates: the queue, the strategy's tally, and the order of first attempts. */
  ghost predicate Underway(policy: Policy, start: int, bots: seq<string>, queue: seq<string>,
                           results: seq<UpdateResult>, counter: int,
                           aborted: bool, t: nat) {
    && QueueSound(bots, queue, results, MaxRetries(policy), aborted)
    && StopsAtAbort(policy, start, results)
    && Replay(policy, start, results) == Verdict(counter, aborted)
    && TouchedFirst(bots, results, t)
    && (!aborted ==> UntouchedLead(bots, queue, t))
    && Queued(bots, queue, results, MaxRetries(policy), aborted)
  }

  /** One update, with the strategy's answer to a failure. */
  ghost predicate Updated(policy: Policy, results: seq<UpdateResult>, counter: int, r: UpdateResult, action: Action,
                          counter': int) {
    if r.success then action == Skip && counter' == counter
    else (action, counter') == Decide(policy, counter, Failures(results + [r], r.bot))
  }

  lemma RetriesAreForOpenBots(policy: Policy, counter: int, attempt: nat)
    requires attempt > 0
    ensures Decide(policy, counter, attempt).0 == Retry <==> attempt < MaxRetries(policy)
    ensures Decide(policy, counter, attempt).0 == Retry
      <==> attempt < match policy case RollingWave(_, _) => 2 case SingleBot => 3 case Immediate => 1
  {}

  lemma UnderwayStep(policy: Policy, start: int, bots: seq<string>, queue: seq<string>, results: seq<UpdateResult>,
                     counter: int, t: nat,
                     r: UpdateResult, action: Action, counter': int)
    requires DistinctIds(bots) && Underway(policy, start, bots, queue, results, counter, false, t)
    requires queue != [] && r.bot == queue[0] && Updated(policy, results, counter, r, action, counter')
    ensures var queue' := queue[1..] + if action == Retry then [r.bot] else [];
      Underway(policy, start, bots, queue', results + [r], counter', action == Abort, if t < |bots| then t + 1 else t)
  {
    var queue' := queue[1..] + if action == Retry then [r.bot] else [];
    QueueAfter(queue, action == Retry);
    AnswerFits(policy, results, counter, r, action, counter');
    QueueStep(bots, queue, results, MaxRetries(policy), r, queue', action == Abort);
    QueuedStep(bots, queue, results, MaxRetries(policy), r, action == Retry, action == Abort);
    ReplayAppended(policy, start, results, r);
    TouchedStep(bots, queue, results, t, r);
  }

  /** The head leaves the queue, or moves to its end. */
  lemma QueueAfter(queue: seq<string>, again: bool)
    requires queue != [] && DistinctIds(queue)
    ensures var queue' := queue[1..] + if again then [queue[0]] else [];
      DistinctIds(queue') && forall b :: b in queue' <==> b in queue && (b == queue[0] ==> again)
  {
    assert queue == [queue[0]] + queue[1..];
    assert queue[0] !in queue[1..];
  }

  /** The strategy asks for a retry exactly of a bot that has attempts left, and stops only at one that has none. */
  lemma AnswerFits(policy: Policy, results: seq<UpdateResult>, counter: int, r: UpdateResult, action: Action,
                   counter': int)
    requires Updated(policy, results, counter, r, action, counter')
    ensures action == Retry <==> !r.success && Failures(results + [r], r.bot) < MaxRetries(policy)
    ensures action == Abort ==> !r.success && Failures(results + [r], r.bot) >= MaxRetries(policy)
  {
    Appended(results, r, r.bot);
    if !r.success { RetriesAreForOpenBots(policy, counter, Failures(results + [r], r.bot)); }
  }

  lemma QueueAdvances(ids: seq<string>, k: nat, retries: seq<string>, again: seq<string>)
    requires k < |ids|
    ensures (ids[k..] + retries)[1..] + again == ids[k + 1..] + (retries + again)
  {
    assert (ids[k..] + retries)[1..] == ids[k + 1..] + retries;
  }

  lemma WaveStep(policy: Policy, start: int, bots: seq<string>, remaining: seq<string>, k: nat, retries: seq<string>,
                 results: seq<UpdateResult>,
                 counter: int, t: nat, replies: nat -> bool, results': seq<UpdateResult>, action: Action, counter': int)
    requires DistinctIds(bots) && k < |remaining| && FollowReplies(results, replies)
    requires Underway(policy, start, bots, remaining[k..] + retries, results, counter, false, t)
    requires results' == results + [UpdateResult(remaining[k], replies(|results|))]
    requires Updated(policy, results, counter, UpdateResult(remaining[k], replies(|results|)), action, counter')
    ensures FollowReplies(results', replies)
    ensures Underway(policy, start, bots,
      remaining[k + 1..] + (retries + if action == Retry then [remaining[k]] else []), results', counter',
                     action == Abort, if t < |bots| then t + 1 else t)
  {
    var again := if action == Retry then [remaining[k]] else [];
    QueueAdvances(remaining, k, retries, again);
    UnderwayStep(policy, start, bots, remaining[k..] + retries, results, counter, t,
      UpdateResult(remaining[k], replies(|results|)), action, counter');
  }

  class RolloutOrchestrator {
    const strategy: RolloutStrategy
    var rolling: bool

    constructor (strategy: RolloutStrategy)
      ensures this.strategy == strategy && !rolling
    {
      this.strategy, rolling := strategy, false;
    }

    method HandleFailure(bot: string, results: seq<UpdateResult>) returns (action: Action)
      modifies strategy
      ensures (action, strategy.totalFailures)
        == Decide(strategy.policy, old(strategy.totalFailures), Failures(results, bot))
    {
      action := strategy.OnBotFailure(Failures(results, bot));
    }

    /** One bot of a wave: the update, and the strategy's word if it failed. */
    method UpdateNext(profile: string, before: seq<UpdateResult>, succeeds: bool)
      returns (results: seq<UpdateResult>, action: Action)
      modifies strategy
      ensures results == before + [UpdateResult(profile, succeeds)]
      ensures Updated(strategy.policy, before, old(strategy.totalFailures), UpdateResult(profile, succeeds), action,
        strategy.totalFailures)
    {
      results := before + [UpdateResult(profile, succeeds)];
      action := Skip;
      if !succeeds { action := HandleFailure(profile, results); }
    }

    /**
     The bots of one batch, each in turn, until the strategy aborts; `replies(i)` is the outcome of the i-th update.
     */
    method RunWave(bots: seq<string>, remaining: seq<string>, batch: seq<string>, before: seq<UpdateResult>,
                   replies: nat -> bool,
                   ghost start: int, ghost t: nat)
      returns (results: seq<UpdateResult>, retries: seq<string>, aborted: bool, ghost t': nat)
      requires DistinctIds(bots) && batch != [] && batch <= remaining
      requires Underway(strategy.policy, start, bots, remaining, before, strategy.totalFailures, false, t)
      requires FollowReplies(before, replies)
      modifies strategy
      ensures Underway(strategy.policy, start, bots, remaining[|batch|..] + retries, results, strategy.totalFailures,
        aborted, t')
      ensures |results| > |before| && FollowReplies(results, replies)
    {
      results, retries, aborted, t' := before, [], false, t;
      assert remaining[0..] + [] == remaining;
      for k := 0 to |batch|
        invariant (k > 0 ==> |results| > |before|) && |results| >= |before| && FollowReplies(results, replies)
        invariant aborted ==> k > 0
        invariant Underway(strategy.policy, start, bots, remaining[k..] + retries, results, strategy.totalFailures,
          aborted, t')
      {
        if aborted {
          AbortedQueueIsMoot(strategy.policy, start, bots, remaining[k..] + retries, remaining[|batch|..] + retries,
            results,
                             strategy.totalFailures, t');
          break;
        }
        ghost var counter, old_ := strategy.totalFailures, results;
        var action;
        results, action := UpdateNext(batch[k], results, replies(|results|));
        WaveStep(strategy.policy, start, bots, remaining, k, retries, old_, counter, t', replies, results, action,
          strategy.totalFailures);
        t' := if t' < |bots| then t' + 1 else t';
        aborted := action == Abort;
        retries := retries + if action == Retry then [batch[k]] else [];
      }
    }
  
    /** Waves until the queue is empty or the strategy aborts. */
    method Rollout(profiles: seq<string>, replies: nat -> bool) returns (result: RolloutResult, ghost touched: nat)
      requires DistinctIds(profiles)
      modifies this, strategy
      ensures old(rolling) ==> rolling && strategy.totalFailures == old(strategy.totalFailures)
      ensures old(rolling) ==> result == RolloutResult(0, 0, 0, 0, false, true, [])
      ensures !old(rolling) ==> !rolling
      ensures !old(rolling) ==>
        RolledOut(strategy.policy, old(strategy.totalFailures), strategy.totalFailures, profiles, replies, result,
          touched)
    {
      touched := 0;
      if rolling { return RolloutResult(0, 0, 0, 0, false, true, []), 0; }
      rolling := true;
      ghost var start := strategy.totalFailures;
      var results, aborted, remaining := [], false, profiles;
      RolloutStarts(strategy.policy, start, profiles);
      while remaining != [] && !aborted
        invariant rolling && FollowReplies(results, replies)
        invariant Underway(strategy.policy, start, profiles, remaining, results, strategy.totalFailures, aborted,
          touched)
        decreases MaxRetries(strategy.policy) * |profiles| - |results|
      {
        var batch := strategy.NextBatch(remaining);
        ghost var before := results;
        QueueIsDistinct(strategy.policy, start, profiles, remaining, results, strategy.totalFailures, touched);
        WithoutPrefix(remaining, |batch|);
        var retries;
        results, retries, aborted, touched := RunWave(profiles, remaining, batch, results, replies, start, touched);
        remaining := Without(remaining, batch) + retries;
        AttemptsStayBounded(strategy.policy, start, profiles, remaining, results, strategy.totalFailures, aborted,
          touched);
      }
      rolling := false;
      result := RolloutResult(|profiles|, Count(results, Succeeded()), Count(results, NotSucceeded()),
        |profiles| - |results|, aborted, false,
                              results);
      RolloutEnds(strategy.policy, start, strategy.totalFailures, profiles, remaining, replies, result, touched);
    }
  }

  /** What a rollout over `bots` that started with the given tally reports; the first `touched` bots were tried. */
  ghost predicate RolledOut(policy: Policy, start: int, counter: int, bots: seq<string>, replies: nat -> bool,
                            result: RolloutResult, touched: nat) {
    var results, max := result.results, MaxRetries(policy);
    && FollowReplies(results, replies)
    && (forall r | r in results :: r.bot in bots)
    && (forall b | b in bots :: WellTried(results, b, max))
    && |results| <= max * |bots|
    && TouchedFirst(bots, results, touched)
    && (!result.aborted ==> forall b | b in bots :: Resolved(results, b, max))
    && Queued(bots, [], results, max, result.aborted)
    && StopsAtAbort(policy, start, results)
    && Replay(policy, start, results) == Verdict(counter, result.aborted)
    && Contained(policy, start, Exhausted(bots, results, max), result.aborted)
    && result.totalBots == |bots| && !result.alreadyRunning
    && result.succeeded == Count(results, Succeeded()) && result.succeeded + result.failed == |results|
    && result.skipped <= |bots| - touched
    && result.skipped == |bots| - |results|
    && (result.skipped == |bots| - touched <==> NeverRetries(policy, |bots|, replies))
  }

  lemma RolloutStarts(policy: Policy, start: int, bots: seq<string>)
    requires DistinctIds(bots)
    ensures Underway(policy, start, bots, bots, [], start, false, 0)
  {
    QueueStarts(bots, MaxRetries(policy));
    assert bots[0..] == bots;
  }

  lemma QueueIsDistinct(policy: Policy, start: int, bots: seq<string>, queue: seq<string>, results: seq<UpdateResult>,
                        counter: int, t: nat)
    requires Underway(policy, start, bots, queue, results, counter, false, t)
    ensures DistinctIds(queue)
  {}

  lemma AttemptsStayBounded(policy: Policy, start: int, bots: seq<string>, queue: seq<string>,
                            results: seq<UpdateResult>, counter: int,
                            aborted: bool, t: nat)
    requires DistinctIds(bots) && Underway(policy, start, bots, queue, results, counter, aborted, t)
    ensures |results| <= MaxRetries(policy) * |bots|
  {
    AttemptsAreBounded(bots, results, MaxRetries(policy));
  }

  lemma UnderwayIsSound(policy: Policy, start: int, bots: seq<string>, queue: seq<string>, results: seq<UpdateResult>,
                        counter: int,
                        aborted: bool, t: nat)
    requires Underway(policy, start, bots, queue, results, counter, aborted, t)
    ensures LogSound(policy, bots, start, results)
  {
    forall b | b in bots ensures Failures(results, b) <= MaxRetries(policy) { AttemptsSplit(results, b); }
  }

  // ---- What `skipped` counts ----

  ghost predicate NoRepeat(results: seq<UpdateResult>, bot: string) {
    forall i, j | 0 <= i < j < |results| && results[i].bot == bot :: results[j].bot != bot
  }

  lemma {:induction false} OneTryWithoutRepeat(results: seq<UpdateResult>, bot: string)
    requires NoRepeat(results, bot)
    ensures Attempts(results, bot) <= 1
  {
    if results != [] {
      var rest, last := results[..|results| - 1], results[|results| - 1];
      OneTryWithoutRepeat(rest, bot);
      if last.bot == bot {
        forall k | 0 <= k < |rest| ensures rest[k].bot != bot { assert results[k] == rest[k]; }
        CountNone(rest, Keyed(BotIn(), bot));
      }
    }
  }

  /**
   A log of a finished or aborted rollout: each bot failures and then at most one success, all resolved unless aborted.
   */
  ghost predicate Ended(policy: Policy, start: int, bots: seq<string>, results: seq<UpdateResult>, aborted: bool) {
    var max := MaxRetries(policy);
    && DistinctIds(bots) && (forall r | r in results :: r.bot in bots)
    && (forall b | b in bots :: WellTried(results, b, max))
    && (!aborted ==> forall b | b in bots :: Resolved(results, b, max))
    && Contained(policy, start, Exhausted(bots, results, max), aborted)
  }

  /** A strategy that retries gives some bot a second try once an update has failed. */
  lemma FailureMeansRetry(policy: Policy, start: int, bots: seq<string>, results: seq<UpdateResult>, aborted: bool,
                          k: nat)
    requires Ended(policy, start, bots, results, aborted) && !policy.Immediate? && k < |results| && !results[k].success
    ensures exists b | b in bots :: Attempts(results, b) > 1
  {
    var max := MaxRetries(policy);
    assert results[k] in results;
    if aborted {
      CountNone(bots, GivenUp(results, max));
      var i :| 0 <= i < |bots| && GivenUp(results, max)(bots[i]);
      AttemptsSplit(results, bots[i]);
      assert bots[i] in bots;
    } else {
      CountNone(results, FailureOf(results[k].bot));
      AttemptsSplit(results, results[k].bot);
    }
  }

  /** The first failure comes before there have been as many updates as bots. */
  lemma {:induction false} FirstFailureIsEarly(bots: seq<string>, results: seq<UpdateResult>, max: nat, k: nat)
    returns (first: nat)
    requires DistinctIds(bots) && (forall r | r in results :: r.bot in bots)
    requires (forall b | b in bots :: WellTried(results, b, max))
    requires k < |results| && !results[k].success
    ensures first < |results| && first < |bots| && !results[first].success
  {
    if x :| 0 <= x < k && !results[x].success {
      first := FirstFailureIsEarly(bots, results, max, x);
    } else {
      first := k;
      var prefix := results[..k + 1];
      forall r | r in prefix ensures r.bot in bots { assert r in results; }
      forall b | b in bots ensures Attempts(prefix, b) <= 1 {
        assert WellTried(results, b, max);
        OneTryWithoutRepeat(prefix, b);
      }
      AttemptsAreBounded(bots, prefix, 1);
    }
  }

  /** Without a failure nothing stops the rollout before each bot has been tried, once. */
  lemma SuccessMeansOneTryEach(policy: Policy, start: int, bots: seq<string>, results: seq<UpdateResult>, aborted: bool,
                               t: nat)
    requires Ended(policy, start, bots, results, aborted) && TouchedFirst(bots, results, t)
    requires forall k | 0 <= k < |results| :: results[k].success
    ensures t == |bots| && forall b | b in bots :: Attempts(results, b) <= 1
  {
    var max := MaxRetries(policy);
    forall b | b in bots ensures Attempts(results, b) <= 1 && Failures(results, b) == 0 {
      assert WellTried(results, b, max);
      OneTryWithoutRepeat(results, b);
      CountNone(results, FailureOf(b));
    }
    assert Exhausted(bots, results, max) == 0 by {
      CountNone(bots, GivenUp(results, max));
      forall i | 0 <= i < |bots| ensures !GivenUp(results, max)(bots[i]) { assert bots[i] in bots; }
    }
    forall k | 0 <= k < |bots| ensures Attempts(results, bots[k]) > 0 {
      assert bots[k] in bots;
      AttemptsSplit(results, bots[k]);
    }
  }

  /** The strategy does not retry, or the updates that are the first tries of n bots all succeed. */
  ghost predicate NeverRetries(policy: Policy, n: nat, replies: nat -> bool) {
    policy.Immediate? || forall k | 0 <= k < n :: replies(k)
  }

  /** `skipped` is the number of untouched bots exactly when nothing makes the strategy retry, and smaller otherwise. */
  lemma SkippedIsRightIff(policy: Policy, start: int, bots: seq<string>, replies: nat -> bool,
                          results: seq<UpdateResult>, aborted: bool, t: nat)
    requires Ended(policy, start, bots, results, aborted) && TouchedFirst(bots, results, t)
    requires FollowReplies(results, replies)
    ensures |bots| - |results| <= |bots| - t
    ensures |bots| - |results| == |bots| - t <==> NeverRetries(policy, |bots|, replies)
  {
    SkippedCountsUntouchedIff(bots, results, t);
    if k :| 0 <= k < |results| && !results[k].success {
      if policy.Immediate? {
        forall b | b in bots ensures Attempts(results, b) <= 1 { assert WellTried(results, b, 1); }
      } else {
        FailureMeansRetry(policy, start, bots, results, aborted, k);
        var first := FirstFailureIsEarly(bots, results, MaxRetries(policy), k);
        assert !replies(first);
      }
    } else {
      SuccessMeansOneTryEach(policy, start, bots, results, aborted, t);
    }
  }

  /** If every update fails, a rollout of one bot under a strategy that retries reports a negative `skipped`. */
  lemma SkippedCanBeNegative(policy: Policy, start: int, counter: int, bot: string, result: RolloutResult, t: nat)
    requires RolledOut(policy, start, counter, [bot], (_: nat) => false, result, t) && !policy.Immediate?
    ensures result.skipped == if policy.RollingWave? then -1 else -2
  {
    var max, results := MaxRetries(policy), result.results;
    assert bot in [bot];
    CountNone(results, SuccessOf(bot));
    AttemptsSplit(results, bot);
    if result.aborted {
      CountNone([bot], GivenUp(results, max));
    }
    CountAtMostAll(results, Keyed(BotIn(), bot));
  }

  lemma {:induction false} CountAtMostAll(results: seq<UpdateResult>, p: UpdateResult -> bool)
    ensures Count(results, p) <= |results|
  {
    if results != [] { CountAtMostAll(results[..|results| - 1], p); }
  }

  lemma RolloutEnds(policy: Policy, start: int, counter: int, bots: seq<string>, queue: seq<string>,
                    replies: nat -> bool, result: RolloutResult, t: nat)
    requires DistinctIds(bots) && FollowReplies(result.results, replies)
    requires Underway(policy, start, bots, queue, result.results, counter, result.aborted, t)
    requires (queue == [] || result.aborted)
    requires result == RolloutResult(|bots|, Count(result.results, Succeeded()), Count(result.results, NotSucceeded()),
                                     |bots| - |result.results|, result.aborted, false, result.results)
    ensures RolledOut(policy, start, counter, bots, replies, result, t)
  {
    var results := result.results;
    AttemptsStayBounded(policy, start, bots, queue, results, counter, result.aborted, t);
    UnderwayIsSound(policy, start, bots, queue, results, counter, result.aborted, t);
    BlastRadius(policy, bots, start, results);
    SkippedIsRightIff(policy, start, bots, replies, results, result.aborted, t);
    ResultsSplit(results);
  }

  lemma AbortedQueueIsMoot(policy: Policy, start: int, bots: seq<string>, queue: seq<string>, queue': seq<string>,
                           results: seq<UpdateResult>,
                           counter: int, t: nat)
    requires Underway(policy, start, bots, queue, results, counter, true, t)
    ensures Underway(policy, start, bots, queue', results, counter, true, t)
  {}

  ghost predicate FollowReplies(results: seq<UpdateResult>, replies: nat -> bool) {
    forall k | 0 <= k < |results| :: results[k].success == replies(k)
  }
}
