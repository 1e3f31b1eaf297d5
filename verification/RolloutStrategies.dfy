/** The three rollout strategies: how large a wave is and what a failed update leads to. */
module RolloutStrategies {

  datatype Policy = RollingWave(batchPercent: int, maxFailures: int) | SingleBot | Immediate
  datatype Action = Abort | Skip | Retry

  function MaxRetries(policy: Policy): nat {
    match policy
    case RollingWave(_, _) => 2
    case SingleBot => 3
    case Immediate => 1
  }

  /** The decision after the `attempt`-th failure of a bot; `counter` is the strategy's own tally. */
  function Decide(policy: Policy, counter: int, attempt: nat): (Action, int) {
    match policy
    case RollingWave(_, maxFailures) =>
      if attempt < MaxRetries(policy) then (Retry, counter)
      else (if counter + 1 >= maxFailures then Abort else Skip, counter + 1)
    case SingleBot => (if attempt < MaxRetries(policy) then Retry else Abort, counter)
    case Immediate => (Skip, counter)
  }

  /** Rounding up, for either sign. */
  function CeilDiv(x: int, d: int): (r: int)
    requires d > 0
    ensures d * (r - 1) < x <= d * r
  {
    -((-x) / d)
  }

  function BatchSize(policy: Policy, remaining: nat): nat {
    match policy
    case RollingWave(percent, _) =>
      var count := CeilDiv(remaining * percent, 100);
      var wanted := if count > 1 then count else 1;
      if wanted <= remaining then wanted else remaining
    case SingleBot => if remaining == 0 then 0 else 1
    case Immediate => remaining
  }

  /** A rolling wave is the smallest share, of at least one bot, that covers the percentage. */
  lemma WaveIsSmallestCoveringShare(percent: int, maxFailures: int, n: nat)
    requires n > 0
    ensures var size := BatchSize(RollingWave(percent, maxFailures), n);
      && 1 <= size <= n
      && (size < n ==> 100 * size >= n * percent)
      && (size > 1 ==> 100 * (size - 1) < n * percent)
  {
    var count := CeilDiv(n * percent, 100);
    assert 100 * (count - 1) < n * percent <= 100 * count;
  }

  class RolloutStrategy {
    const policy: Policy
    var totalFailures: int

    constructor (policy: Policy)
      ensures this.policy == policy && totalFailures == 0
    {
      this.policy, totalFailures := policy, 0;
    }

    method NextBatch(remaining: seq<string>) returns (batch: seq<string>)
      ensures batch == remaining[..BatchSize(policy, |remaining|)]
      ensures remaining != [] ==> batch != []
      ensures policy.Immediate? ==> batch == remaining
      ensures policy.SingleBot? ==> |batch| <= 1
      ensures policy.RollingWave? && remaining != [] ==> var percent, n := policy.batchPercent, |remaining|;
        && (|batch| < n ==> 100 * |batch| >= n * percent)
        && (|batch| > 1 ==> 100 * (|batch| - 1) < n * percent)
    {
      if policy.RollingWave? && remaining != [] {
        WaveIsSmallestCoveringShare(policy.batchPercent, policy.maxFailures, |remaining|);
      }
      batch := remaining[..BatchSize(policy, |remaining|)];
    }

    /**
     Retry below the limit; after a bot's last failure give up the bot, and the rollout once the policy has had enough.
     */
    method OnBotFailure(attempt: nat) returns (action: Action)
      modifies this
      ensures (action, totalFailures) == Decide(policy, old(totalFailures), attempt)
      ensures policy.RollingWave? && attempt < 2 ==> action == Retry && totalFailures == old(totalFailures)
      ensures policy.RollingWave? && attempt >= 2 ==> totalFailures == old(totalFailures) + 1
      ensures policy.RollingWave? && attempt >= 2 ==>
        action == if totalFailures >= policy.maxFailures then Abort else Skip
      ensures policy.SingleBot? ==> action == if attempt < 3 then Retry else Abort
      ensures policy.Immediate? ==> action == Skip
    {
      match policy
      case RollingWave(_, maxFailures) =>
        if attempt < MaxRetries(policy) { return Retry; }
        totalFailures := totalFailures + 1;
        action := if totalFailures >= maxFailures then Abort else Skip;
      case SingleBot =>
        action := if attempt < MaxRetries(policy) then Retry else Abort;
      case Immediate =>
        action := Skip;
    }

    method Reset()
      modifies this
      ensures totalFailures == 0
    {
      totalFailures := 0;
    }
  }
}
