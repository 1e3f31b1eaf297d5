/** The order of updates does not depend on the size of the waves: every rollout is that of one plain queue. */
module RolloutOrder {
  import opened Basics
  import opened RolloutStrategies
  import opened Rollout

  /** The same limits, whatever the share of a wave. */
  predicate SameLimits(a: Policy, b: Policy) {
    match a
    case RollingWave(_, maxFailures) => b.RollingWave? && b.maxFailures == maxFailures
    case SingleBot => b.SingleBot?
    case Immediate => b.Immediate?
  }

  lemma {:induction false} SameReplay(a: Policy, b: Policy, start: int, results: seq<UpdateResult>)
    requires SameLimits(a, b)
    ensures Replay(a, start, results) == Replay(b, start, results)
  {
    if results != [] { SameReplay(a, b, start, results[..|results| - 1]); }
  }

  /** A queue that got through a log got through each part of it. */
  lemma {:induction false} QueuePrefix(bots: seq<string>, results: seq<UpdateResult>, max: nat, k: nat)
    requires QueueLeft(bots, results, max).Some? && k <= |results|
    ensures QueueLeft(bots, results[..k], max).Some?
    ensures k < |results| ==> var queue := QueueLeft(bots, results[..k], max).value;
      queue != [] && queue[0] == results[k].bot
  {
    var n := |results| - 1;
    if k == |results| {
      assert results[..k] == results;
    } else if k < n {
      QueuePrefix(bots, results[..n], max, k);
      assert results[..n][..k] == results[..k];
    }
  }

  lemma OneMore(a: seq<UpdateResult>, b: seq<UpdateResult>, n: nat)
    requires n < |a| && n < |b| && a[..n] == b[..n] && a[n] == b[n]
    ensures a[..n + 1] == b[..n + 1]
  {
    assert a[..n + 1] == a[..n] + [a[n]] && b[..n + 1] == b[..n] + [b[n]];
  }

  /** The replies alone decide what the queue does. */
  lemma {:induction false} QueueIsDeterministic(bots: seq<string>, a: seq<UpdateResult>, b: seq<UpdateResult>, max: nat,
                                                replies: nat -> bool, k: nat)
    requires QueueLeft(bots, a, max).Some? && QueueLeft(bots, b, max).Some? && k <= |a| && k <= |b|
    requires FollowReplies(a, replies) && FollowReplies(b, replies)
    ensures a[..k] == b[..k]
  {
    if k > 0 {
      QueueIsDeterministic(bots, a, b, max, replies, k - 1);
      QueuePrefix(bots, a, max, k - 1);
      QueuePrefix(bots, b, max, k - 1);
      OneMore(a, b, k - 1);
    }
  }

  /** The log of a rollout that followed its queue until it was stopped or the queue was empty. */
  ghost predicate Logged(policy: Policy, start: int, bots: seq<string>, replies: nat -> bool,
                         results: seq<UpdateResult>, aborted: bool) {
    && FollowReplies(results, replies) && Queued(bots, [], results, MaxRetries(policy), aborted)
    && StopsAtAbort(policy, start, results) && Replay(policy, start, results).aborted == aborted
  }

  lemma RolledOutIsLogged(policy: Policy, start: int, counter: int, bots: seq<string>, replies: nat -> bool,
                          result: RolloutResult, t: nat)
    requires RolledOut(policy, start, counter, bots, replies, result, t)
    ensures Logged(policy, start, bots, replies, result.results, result.aborted)
  {}

  /** A rollout that ended with fewer updates would have had to go on, or the other to stop. */
  lemma NotShorter(a: Policy, b: Policy, start: int, bots: seq<string>, replies: nat -> bool, ra: seq<UpdateResult>,
                   rb: seq<UpdateResult>, stopA: bool, stopB: bool)
    requires SameLimits(a, b)
    requires Logged(a, start, bots, replies, ra, stopA) && Logged(b, start, bots, replies, rb, stopB)
    ensures |ra| >= |rb|
  {
    var max, n := MaxRetries(a), |ra|;
    if n < |rb| {
      assert !Replay(b, start, rb[..n]).aborted;
      assert ra[..n] == ra;
      QueueIsDeterministic(bots, ra, rb, max, replies, n);
      QueuePrefix(bots, rb, max, n);
      SameReplay(a, b, start, ra);
    }
  }

  lemma SameLog(a: Policy, b: Policy, start: int, bots: seq<string>, replies: nat -> bool, ra: seq<UpdateResult>,
                rb: seq<UpdateResult>, stopA: bool, stopB: bool)
    requires SameLimits(a, b)
    requires Logged(a, start, bots, replies, ra, stopA) && Logged(b, start, bots, replies, rb, stopB)
    ensures ra == rb
  {
    NotShorter(a, b, start, bots, replies, ra, rb, stopA, stopB);
    NotShorter(b, a, start, bots, replies, rb, ra, stopB, stopA);
    var n := |ra|;
    QueueIsDeterministic(bots, ra, rb, MaxRetries(a), replies, n);
    assert ra[..n] == ra && rb[..n] == rb;
  }

  /**
   Two rollouts with the same limits, bots and replies make the same updates in the same order and end alike, however
   large their waves are.
   */
  lemma WaveSizeDoesNotMatter(a: Policy, b: Policy, start: int, bots: seq<string>, replies: nat -> bool,
                              ra: RolloutResult, rb: RolloutResult, ca: int, cb: int, ta: nat, tb: nat)
    requires SameLimits(a, b) && RolledOut(a, start, ca, bots, replies, ra, ta)
    requires RolledOut(b, start, cb, bots, replies, rb, tb)
    ensures ra == rb && ca == cb
  {
    RolledOutIsLogged(a, start, ca, bots, replies, ra, ta);
    RolledOutIsLogged(b, start, cb, bots, replies, rb, tb);
    SameLog(a, b, start, bots, replies, ra.results, rb.results, ra.aborted, rb.aborted);
    SameReplay(a, b, start, ra.results);
  }
}
