/** Node-failure recovery: the first round over a dead node's tenants, and the bounded retries of those left waiting. */
module Recovery {
  import opened Basics
  import opened Counting
  import opened NodeLifecycle
  import opened RecoveryTables
  import opened RecoverySteps
  import opened RecoveryRetries
  import opened RecoveryEvents
  import opened RecoveryFates
  import opened RecoveryVisits

  class RecoveryManager {
    const recoveryRepo: RecoveryRepository
    const botInstanceRepo: BotInstanceRepository
    const nodeRepo: NodeRepository

    constructor (recoveryRepo: RecoveryRepository, botInstanceRepo: BotInstanceRepository, nodeRepo: NodeRepository)
      ensures this.recoveryRepo == recoveryRepo && this.botInstanceRepo == botInstanceRepo && this.nodeRepo == nodeRepo
    {
      this.recoveryRepo, this.botInstanceRepo, this.nodeRepo := recoveryRepo, botInstanceRepo, nodeRepo;
    }

    function State(): Fleet
      reads recoveryRepo, botInstanceRepo, nodeRepo
    {
      Fleet(nodeRepo.nodes, botInstanceRepo.bots, recoveryRepo.items)
    }

    ghost function Tables(): Snapshot
      reads recoveryRepo, botInstanceRepo, nodeRepo
    {
      Snapshot(recoveryRepo.events, State())
    }

    ghost predicate Valid()
      reads recoveryRepo, botInstanceRepo, nodeRepo
    {
      nodeRepo.Valid() && UsageKnown(nodeRepo.nodes) && ItemsBelong(recoveryRepo.events, recoveryRepo.items)
    }

    /** One tenant: pick the emptiest node, command it, and record what came of it. */
    method RecoverTenant(event: nat, dead: string, bot: nat, report: Report, retryCount: nat, works: bool)
      returns (report': Report, ghost attempt: Attempt)
      requires nodeRepo.Valid() && bot < |botInstanceRepo.bots|
      modifies recoveryRepo`items, botInstanceRepo, nodeRepo
      ensures nodeRepo.Valid()
      ensures Possible(old(nodeRepo.nodes), dead, works, attempt)
      ensures State() == After(old(State()), event, dead, bot, retryCount, attempt)
      ensures report' == Noted(report, bot, attempt)
      ensures attempt.Placed? ==>
        && attempt.target != dead && attempt.target in old(nodeRepo.nodes) && attempt.target in nodeRepo.nodes
        && old(nodeRepo.nodes)[attempt.target].status == Active
        && old(nodeRepo.nodes)[attempt.target].usedMb + 100 <= old(nodeRepo.nodes)[attempt.target].capacityMb
        && (old(nodeRepo.nodes)[attempt.target].usedMb >= 0 ==>
              nodeRepo.nodes[attempt.target].usedMb == old(nodeRepo.nodes)[attempt.target].usedMb + 100)
      ensures attempt.Placed? ==> works
      ensures attempt.Broken? ==> !works
      ensures attempt.Placed? ==> Roomiest(old(nodeRepo.nodes), dead, attempt.target)
      ensures attempt.NoCapacity? <==> FullUp(old(nodeRepo.nodes), dead)
    {
      var tenant := botInstanceRepo.bots[bot].tenant;
      ghost var nodes0 := nodeRepo.nodes;
      var target := nodeRepo.FindBestTarget(dead, TENANT_MB);
      NoRoomMeans(nodes0, dead);
      if target.None? {
        attempt := NoCapacity;
        recoveryRepo.CreateItem(RecoveryItem(event, tenant, dead, None, WaitingItem, retryCount));
        report' := report.(waiting := report.waiting + [bot]);
      } else if works {
        attempt := Placed(target.value);
        botInstanceRepo.Reassign(bot, target.value);
        var _ := nodeRepo.AddCapacity(target.value, TENANT_MB);
        recoveryRepo.CreateItem(RecoveryItem(event, tenant, dead, target, RecoveredItem, retryCount));
        report' := report.(recovered := report.recovered + [(bot, target.value)]);
      } else {
        attempt := Broken(target.value);
        recoveryRepo.CreateItem(RecoveryItem(event, tenant, dead, target, FailedItem, retryCount));
        report' := report.(failed := report.failed + [CommandFailed(bot)]);
      }
    }

    /** The node must end up recovering; anything but unhealthy, offline or recovering is refused. */
    method StartRecovering(dead: string) returns (outcome: Outcome)
      requires nodeRepo.Valid() && UsageKnown(nodeRepo.nodes)
      modifies nodeRepo
      ensures nodeRepo.Valid() && UsageKnown(nodeRepo.nodes)
      ensures outcome == Moved ==> OnlyStatus(old(State()), State(), dead)
      ensures outcome == if dead !in old(nodeRepo.nodes) then NodeNotFound
                         else if old(nodeRepo.nodes)[dead].status in {Unhealthy, Offline, Recovering} then Moved
                         else InvalidMove
      ensures nodeRepo.nodes ==
        if outcome == Moved then old(nodeRepo.nodes)[dead := old(nodeRepo.nodes)[dead].(status := Recovering)]
                                else old(nodeRepo.nodes)
    {
      if dead !in nodeRepo.nodes { return NodeNotFound; }
      var status := nodeRepo.nodes[dead].status;
      if status == Unhealthy {
        outcome := nodeRepo.Transition(dead, Offline);
        assert outcome == Moved && nodeRepo.nodes[dead].status == Offline;
        outcome := nodeRepo.Transition(dead, Recovering);
      } else if status == Offline {
        outcome := nodeRepo.Transition(dead, Recovering);
      } else if status != Recovering {
        outcome := InvalidMove;
      } else {
        outcome := Moved;
      }
    }

    method StopRecovering(dead: string)
      requires nodeRepo.Valid() && UsageKnown(nodeRepo.nodes) && dead in nodeRepo.nodes
      requires nodeRepo.nodes[dead].status == Recovering
      modifies nodeRepo
      ensures nodeRepo.Valid() && UsageKnown(nodeRepo.nodes) && OnlyStatus(old(State()), State(), dead)
      ensures nodeRepo.nodes == old(nodeRepo.nodes)[dead := old(nodeRepo.nodes)[dead].(status := Offline)]
    {
      var _ := nodeRepo.Transition(dead, Offline);
    }

    /** The tenants in turn, each with whatever capacity the earlier ones left. */
    method RecoverAll(event: nat, dead: string, tenants: seq<nat>, replies: nat -> bool) returns (report: Report)
      requires nodeRepo.Valid() && UsageKnown(nodeRepo.nodes) && tenants == ByTier(botInstanceRepo.bots, dead)
      modifies recoveryRepo`items, botInstanceRepo, nodeRepo
      ensures nodeRepo.Valid() && UsageKnown(nodeRepo.nodes)
      ensures dead in old(nodeRepo.nodes) ==>
        dead in nodeRepo.nodes && nodeRepo.nodes[dead] == old(nodeRepo.nodes)[dead]
      ensures Triaged(old(State()), State(), event, dead, tenants, |tenants|, report)
      ensures FollowsCourse(old(nodeRepo.nodes), dead, tenants, replies, report)
      ensures ReportsListed(tenants, |tenants|, report)
      ensures RowsTell(old(recoveryRepo.items), recoveryRepo.items, tenants, |tenants|, report)
    {
      report := Report([], [], []);
      ghost var s0 := State();
      TriageStarts(s0, event, dead);
      for i := 0 to |tenants|
        invariant nodeRepo.Valid()
        invariant Triaged(s0, State(), event, dead, tenants, i, report)
        invariant FollowsCourse(s0.nodes, dead, tenants[..i], replies, report)
        invariant ReportsListed(tenants, i, report)
        invariant RowsTell(s0.items, recoveryRepo.items, tenants, i, report)
      {
        ghost var s, before := State(), report;
        ListingIsSound(s0.bots, dead, i);
        ghost var attempt;
        report, attempt := RecoverTenant(event, dead, tenants[i], report, 0, replies(i));
        CourseStep(s0.nodes, s.nodes, dead, tenants, i, before, replies, attempt);
        TriageStep(s0, s, event, dead, tenants, i, before, replies(i), attempt);
        ReportsNext(tenants, i, before, attempt);
        RowsTellNext(s0.items, s, event, dead, tenants, i, before, attempt);
      }
      assert tenants[..|tenants|] == tenants;
    }

    /** Opens the event and places the node's tenants. */
    method RecoverNode(dead: string, now: int, replies: nat -> bool)
      returns (event: nat, report: Report, ghost s1: Fleet, ghost s2: Fleet)
      requires nodeRepo.Valid() && UsageKnown(nodeRepo.nodes)
      modifies recoveryRepo, botInstanceRepo, nodeRepo
      ensures nodeRepo.Valid() && UsageKnown(nodeRepo.nodes)
      ensures dead in old(nodeRepo.nodes) ==>
        dead in nodeRepo.nodes && nodeRepo.nodes[dead] == old(nodeRepo.nodes)[dead]
      ensures event == |old(recoveryRepo.events)| && s1 == old(State()) && s2 == State()
      ensures recoveryRepo.events
        == old(recoveryRepo.events) + [RecoveryEvent(dead, InProgress, |ByTier(s1.bots, dead)|, 0, 0, 0, now)]
      ensures Triaged(s1, s2, event, dead, ByTier(s1.bots, dead), |ByTier(s1.bots, dead)|, report)
      ensures FollowsCourse(s1.nodes, dead, ByTier(s1.bots, dead), replies, report)
      ensures ServedByTier(s1.bots, report)
      ensures RowsTell(s1.items, s2.items, ByTier(s1.bots, dead), |ByTier(s1.bots, dead)|, report)
    {
      s1 := State();
      var tenants := botInstanceRepo.ListByNodeWithTier(dead);
      event := recoveryRepo.CreateEvent(dead, |tenants|, now);
      report := RecoverAll(event, dead, tenants, replies);
      s2 := State();
      TriageServesByTier(s1, s2, event, dead, report);
    }

    method TriggerRecovery(dead: string, now: int, replies: nat -> bool) returns (outcome: Outcome, report: Report)
      requires Valid()
      modifies recoveryRepo, botInstanceRepo, nodeRepo
      ensures Valid()
      ensures outcome == if dead !in old(nodeRepo.nodes) then NodeNotFound
                         else if old(nodeRepo.nodes)[dead].status in {Unhealthy, Offline, Recovering} then Moved
                         else InvalidMove
      ensures outcome != Moved ==> State() == old(State()) && recoveryRepo.events == old(recoveryRepo.events)
      ensures outcome == Moved ==>
        dead in nodeRepo.nodes && nodeRepo.nodes[dead] == old(nodeRepo.nodes)[dead].(status := Offline)
      ensures outcome == Moved ==>
        Recorded(old(recoveryRepo.events), recoveryRepo.events, old(State()), State(), dead, now, report)
      ensures outcome == Moved ==> PlacedGreedily(old(State()), State(), dead, report)
      ensures outcome == Moved ==>
        FollowsCourse(old(nodeRepo.nodes), dead, ByTier(old(botInstanceRepo.bots), dead), replies, report)
      ensures outcome == Moved ==> BackingKept(old(State()), State(), dead, replies)
      ensures outcome == Moved ==> ServedByTier(old(botInstanceRepo.bots), report)
      ensures outcome == Moved ==> RowsTell(old(recoveryRepo.items), recoveryRepo.items,
        ByTier(old(botInstanceRepo.bots), dead), |ByTier(old(botInstanceRepo.bots), dead)|, report)
    {
      report := Report([], [], []);
      outcome := StartRecovering(dead);
      if outcome != Moved { return; }
      ghost var s0, events0 := old(State()), old(recoveryRepo.events);
      var event;
      ghost var s1, s2;
      event, report, s1, s2 := RecoverNode(dead, now, replies);
      StopRecovering(dead);
      recoveryRepo.UpdateEvent(event, if report.waiting != [] then Partial else Completed,
        |report.recovered|, |report.failed|, |report.waiting|);
      LastRowReplaced(events0, RecoveryEvent(dead, InProgress, |ByTier(s1.bots, dead)|, 0, 0, 0, now),
        recoveryRepo.events[event]);
      FirstRound(events0, recoveryRepo.events, s0, s1, s2, State(), dead, now, report, replies);
    }

    /** One waiting row: find its bot, try again, and close the row. */
    method RetryRow(e: nat, source: string, w: nat, report: Report, works: bool)
      returns (report': Report, ghost found: Option<(nat, Attempt)>)
      requires nodeRepo.Valid() && w < |recoveryRepo.items|
      modifies recoveryRepo`items, botInstanceRepo, nodeRepo
      ensures nodeRepo.Valid()
      ensures RowRetry(old(State()), State(), e, source, w, report, report', works, found)
    {
      var item := recoveryRepo.items[w];
      var bot := botInstanceRepo.FindByTenantAndNode(item.tenant, item.source);
      if bot.None? {
        found := None;
        report' := report.(failed := report.failed + [BotNotFound(item.tenant)]);
      } else {
        ghost var attempt;
        report', attempt := RecoverTenant(e, source, bot.value, report, item.retryCount + 1, works);
        found := Some((bot.value, attempt));
        recoveryRepo.UpdateItem(w, RetriedItem);
        recoveryRepo.IncrementRetryCount(w);
      }
    }

    /** The listed rows in turn, each with whatever capacity the earlier ones left. */
    method RetryEach(e: nat, source: string, listed: seq<nat>, replies: nat -> bool, ghost r: Retry)
      returns (report: Report, ghost run: Run)
      requires e == r.event && source == r.source && listed == r.listed && replies == r.replies
      requires nodeRepo.Valid() && r.start == State() && forall w | w in listed :: w < |recoveryRepo.items|
      modifies recoveryRepo`items, botInstanceRepo, nodeRepo
      ensures nodeRepo.Valid() && RunsTo(r, run, State(), report) && Length(run) == |listed|
    {
      report, run := Report([], [], []), NoTurns;
      for j := 0 to |listed|
        invariant nodeRepo.Valid()
        invariant RunsTo(r, run, State(), report) && Length(run) == j
        invariant forall w | w in listed :: w < |recoveryRepo.items|
      {
        ghost var s, before := State(), report;
        ghost var found;
        assert listed[j] in listed;
        report, found := RetryRow(e, source, listed[j], report, replies(j));
        run := Turns(run, s, before, found);
      }
    }

    method RecordRetry(e: nat, report: Report)
      requires e < |recoveryRepo.events|
      modifies recoveryRepo`events
      ensures recoveryRepo.events == old(recoveryRepo.events)[e := RetriedRow(old(recoveryRepo.events)[e], report)]
    {
      var event := recoveryRepo.events[e];
      recoveryRepo.UpdateEvent(e, if |report.waiting| > 0 then Partial else Completed,
        event.recovered + |report.recovered|, event.failed + |report.failed|, |report.waiting|);
      assert recoveryRepo.events[e] == RetriedRow(event, report);
    }

    /** The waiting rows of a known event once more, and the event's new counters. */
    method RetryEvent(e: nat, replies: nat -> bool, ghost r: Retry) returns (report: Report, ghost run: Run)
      requires Valid() && e < |recoveryRepo.events| && TriedAtLeast(recoveryRepo.items, e, r.tries)
      requires r == RetryOf(State(), e, recoveryRepo.events[e].node, replies, r.tries)
      modifies recoveryRepo, botInstanceRepo, nodeRepo
      ensures Valid() && Startable(r)
      ensures recoveryRepo.events == old(recoveryRepo.events)[e := RetriedRow(old(recoveryRepo.events)[e], report)]
      ensures RunsTo(r, run, State(), report) && Length(run) == |r.listed|
    {
      var event := recoveryRepo.events[e];
      ghost var events0 := recoveryRepo.events;
      PositionsAre(recoveryRepo.items, WaitingIn(e));
      var listed := recoveryRepo.GetWaitingItems(e);
      report, run := RetryEach(e, event.node, listed, replies, r);
      RunStaysInEvent(r, run, State(), report);
      RetryIsRecorded(events0, r, State(), report);
      RecordRetry(e, report);
    }

    /** Every waiting row of the event once more: retried rows are closed, their outcome is a new row. */
    method RetryWaiting(e: nat, replies: nat -> bool, ghost k: nat)
      returns (found: bool, report: Report, ghost r: Retry)
      requires Valid() && TriedAtLeast(recoveryRepo.items, e, k)
      modifies recoveryRepo, botInstanceRepo, nodeRepo
      ensures Valid()
      ensures found <==> e < |old(recoveryRepo.events)|
      ensures !found ==> State() == old(State()) && recoveryRepo.events == old(recoveryRepo.events)
      ensures found ==> r == RetryOf(old(State()), e, old(recoveryRepo.events)[e].node, replies, k)
      ensures found ==> recoveryRepo.events == old(recoveryRepo.events)[e := RetriedRow(old(recoveryRepo.events)[e],
        report)]
      ensures found ==> RetryDone(r, State(), report)
      ensures found ==> CountersFollow(old(recoveryRepo.events)[e], recoveryRepo.events[e], old(recoveryRepo.items),
        recoveryRepo.items, e)
      ensures found && Settled(old(recoveryRepo.events)[e], e, old(recoveryRepo.items)) ==>
        (Settled(recoveryRepo.events[e], e, recoveryRepo.items)
         <==> RowsMissed(old(State()), e, old(recoveryRepo.events)[e].node, replies) == 0)
    {
      report, r := Report([], [], []), RetryOf(State(), e, "", replies, k);
      found := e < |recoveryRepo.events|;
      if !found { return; }
      ghost var event, s0 := recoveryRepo.events[e], State();
      ghost var run;
      r := RetryOf(s0, e, event.node, replies, k);
      report, run := RetryEvent(e, replies, r);
      RunEnds(r, run, State(), report);
      RetryCounts(event, r, State(), report);
      if Settled(event, e, s0.items) { RetryKeepsSettledIff(event, r, State(), report); }
    }

    /** Closes the given waiting rows as failed and recounts the event. */
    method FailExpiredWaitingItems(e: nat, expired: seq<nat>, ghost k: nat)
      requires Valid() && e < |recoveryRepo.events| && Distinct(expired) && TriedAtLeast(recoveryRepo.items, e, k)
      requires forall i | i in expired :: i < |recoveryRepo.items| && WaitingIn(e)(recoveryRepo.items[i])
      modifies recoveryRepo
      ensures Valid()
      ensures ClosedAsFailed(old(recoveryRepo.items), recoveryRepo.items, expired)
      ensures recoveryRepo.events == old(recoveryRepo.events)[e :=
        ExpiredRow(old(recoveryRepo.events)[e], |expired|, Count(recoveryRepo.items, WaitingIn(e)))]
      ensures Count(recoveryRepo.items, WaitingIn(e)) == Count(old(recoveryRepo.items), WaitingIn(e)) - |expired|
      ensures Survived(old(recoveryRepo.events), recoveryRepo.events, old(State()), State(), e, k)
    {
      ghost var events0, s0 := recoveryRepo.events, State();
      ghost var items0 := recoveryRepo.items;
      for x := 0 to |expired|
        invariant recoveryRepo.events == old(recoveryRepo.events)
        invariant ClosedAsFailed(items0, recoveryRepo.items, expired[..x])
        invariant Count(recoveryRepo.items, WaitingIn(e)) == Count(items0, WaitingIn(e)) - x
      {
        assert expired[x] in expired && expired[x] !in expired[..x];
        assert expired[..x + 1] == expired[..x] + [expired[x]];
        CountUpdate(recoveryRepo.items, expired[x], recoveryRepo.items[expired[x]].(status := FailedItem),
          WaitingIn(e));
        recoveryRepo.UpdateItem(expired[x], FailedItem);
      }
      assert expired[..|expired|] == expired;
      PositionsAre(recoveryRepo.items, WaitingIn(e));
      var event := recoveryRepo.events[e];
      var remaining := recoveryRepo.GetWaitingItems(e);
      var row := ExpiredRow(event, |expired|, |remaining|);
      recoveryRepo.UpdateEvent(e, row.status, row.recovered, row.failed, row.waiting);
      assert recoveryRepo.events[e] == row;
      ClosingKeeps(events0, recoveryRepo.events, s0, State(), e, expired, k);
    }

    /** An event without waiting rows is completed. */
    method FinalizeEventIfComplete(e: nat)
      requires e < |recoveryRepo.events|
      modifies recoveryRepo`events
      ensures var old_ := old(recoveryRepo.events);
        recoveryRepo.events == if NobodyWaitsIn(recoveryRepo.items, e) && old_[e].status != Completed
                               then old_[e := old_[e].(status := Completed, waiting := 0)] else old_
    {
      var remaining := recoveryRepo.GetWaitingItems(e);
      PositionsAre(recoveryRepo.items, WaitingIn(e));
      if |remaining| == 0 && recoveryRepo.events[e].status != Completed {
        recoveryRepo.UpdateEvent(e, Completed, recoveryRepo.events[e].recovered, recoveryRepo.events[e].failed, 0);
      }
    }

    /** The rows that are not given up. */
    method RetryRest(e: nat, retryable: bool, replies: nat -> bool, ghost k: nat)
      requires Valid() && e < |recoveryRepo.events| && TriedAtLeast(recoveryRepo.items, e, k)
      requires retryable <==> !NobodyWaitsIn(recoveryRepo.items, e)
      requires retryable ==> k < MAX_RETRY_ATTEMPTS && BelowCap(recoveryRepo.items, e)
      modifies recoveryRepo, botInstanceRepo, nodeRepo
      ensures Valid() && WithinCap(recoveryRepo.items, e)
      ensures Visited(old(recoveryRepo.events), recoveryRepo.events, old(State()), State(), e, k)
      ensures RestHandled(old(recoveryRepo.events), recoveryRepo.events, old(State()), State(), e, replies)
    {
      ghost var events1, s1 := recoveryRepo.events, State();
      if retryable {
        var _, report, r := RetryWaiting(e, replies, k);
        VisitEndsRetried(events1, r, State(), report);
        RetryStaysWithinCap(s1.items, recoveryRepo.items, e);
        RetryIsHandled(events1, recoveryRepo.events, r, State(), report);
      } else {
        VisitEndsIdle(events1, events1, s1, s1, e, k);
        NobodyIsWithinCap(s1.items, e);
        NobodyIsHandled(events1, s1, e, replies);
      }
    }

    /** The rest of a visit, once the rows given up are closed. */
    method RetryAndFinalize(e: nat, retryable: bool, replies: nat -> bool, ghost k: nat)
      requires Valid() && e < |recoveryRepo.events| && TriedAtLeast(recoveryRepo.items, e, k)
      requires retryable <==> !NobodyWaitsIn(recoveryRepo.items, e)
      requires retryable ==> k < MAX_RETRY_ATTEMPTS && BelowCap(recoveryRepo.items, e)
      modifies recoveryRepo, botInstanceRepo, nodeRepo
      ensures Valid() && WithinCap(recoveryRepo.items, e)
      ensures Visited(old(recoveryRepo.events), recoveryRepo.events, old(State()), State(), e, k)
      ensures RestHandled(old(recoveryRepo.events), recoveryRepo.events, old(State()), State(), e, replies)
    {
      ghost var events1, s1 := recoveryRepo.events, State();
      RetryRest(e, retryable, replies, k);
      ghost var events2 := recoveryRepo.events;
      FinalizeEventIfComplete(e);
      VisitIsFinalized(events1, events2, recoveryRepo.events, s1, State(), e, k);
      FinalizedIsHandled(events1, events2, recoveryRepo.events, s1, State(), e, replies);
    }

    /** An event a day old: all its waiting rows fail. */
    method GiveUpAll(e: nat, now: int, listed: seq<nat>, replies: nat -> bool, ghost k: nat)
      requires Valid() && e < |recoveryRepo.events| && TriedAtLeast(recoveryRepo.items, e, k)
      requires listed == Positions(recoveryRepo.items, WaitingIn(e)) && listed != []
      requires now - recoveryRepo.events[e].startedAt >= MAX_WAITING_DURATION_S
      modifies recoveryRepo
      ensures Valid()
      ensures Visited(old(recoveryRepo.events), recoveryRepo.events, old(State()), State(), e, k)
      ensures NobodyWaitsIn(recoveryRepo.items, e)
      ensures Handled(old(recoveryRepo.events), recoveryRepo.events, old(State()), State(), e, now, replies)
    {
      ghost var events0, s0 := recoveryRepo.events, State();
      PositionsAre(s0.items, WaitingIn(e));
      FailExpiredWaitingItems(e, listed, k);
      VisitEndsIdle(events0, recoveryRepo.events, s0, State(), e, k);
      ClosingIsGivingUp(events0, recoveryRepo.events, s0, State(), e, now, listed);
      NobodyIsHandled(recoveryRepo.events, State(), e, replies);
      VisitIsHandled(events0, recoveryRepo.events, recoveryRepo.events, s0, State(), State(), e, now, replies);
    }

    method FailIfAny(e: nat, expired: seq<nat>, ghost k: nat)
      requires Valid() && e < |recoveryRepo.events| && Distinct(expired) && TriedAtLeast(recoveryRepo.items, e, k)
      requires forall i | i in expired :: i < |recoveryRepo.items| && WaitingIn(e)(recoveryRepo.items[i])
      modifies recoveryRepo
      ensures Valid()
      ensures ClosedAsFailed(old(recoveryRepo.items), recoveryRepo.items, expired)
      ensures recoveryRepo.events == if expired == [] then old(recoveryRepo.events) else old(recoveryRepo.events)[e :=
        ExpiredRow(old(recoveryRepo.events)[e], |expired|, Count(recoveryRepo.items, WaitingIn(e)))]
      ensures Count(recoveryRepo.items, WaitingIn(e)) == Count(old(recoveryRepo.items), WaitingIn(e)) - |expired|
      ensures Survived(old(recoveryRepo.events), recoveryRepo.events, old(State()), State(), e, k)
    {
      if |expired| > 0 {
        FailExpiredWaitingItems(e, expired, k);
      }
    }

    /** The rows out of retries fail; the others stay below the cap. */
    method GiveUpExhausted(e: nat, now: int, listed: seq<nat>, ghost k: nat) returns (retryable: bool)
      requires Valid() && e < |recoveryRepo.events| && TriedAtLeast(recoveryRepo.items, e, k)
      requires listed == Positions(recoveryRepo.items, WaitingIn(e))
      requires now - recoveryRepo.events[e].startedAt < MAX_WAITING_DURATION_S
      modifies recoveryRepo
      ensures Valid()
      ensures Survived(old(recoveryRepo.events), recoveryRepo.events, old(State()), State(), e, k)
      ensures retryable <==> !NobodyWaitsIn(recoveryRepo.items, e)
      ensures retryable ==> k < MAX_RETRY_ATTEMPTS
      ensures BelowCap(recoveryRepo.items, e)
      ensures GaveUp(old(recoveryRepo.events), recoveryRepo.events, old(State()), State(), e, now)
    {
      ghost var events0, s0 := recoveryRepo.events, State();
      ListedAre(s0.items, listed, e);
      var expired := OutOfRetries(recoveryRepo.items, listed);
      ExhaustedAre(s0.items, listed, e, k);
      retryable := |expired| < |listed|;
      FailIfAny(e, expired, k);
      ClosingLeavesBelowCap(s0.items, recoveryRepo.items, e, listed);
      ClosingIsGivingUp(events0, recoveryRepo.events, s0, State(), e, now, expired);
    }

    /** An event not yet a day old. */
    method VisitYoung(e: nat, now: int, listed: seq<nat>, replies: nat -> bool, ghost k: nat)
      requires Valid() && e < |recoveryRepo.events| && TriedAtLeast(recoveryRepo.items, e, k)
      requires listed == Positions(recoveryRepo.items, WaitingIn(e))
      requires now - recoveryRepo.events[e].startedAt < MAX_WAITING_DURATION_S
      modifies recoveryRepo, botInstanceRepo, nodeRepo
      ensures Valid() && WithinCap(recoveryRepo.items, e)
      ensures Visited(old(recoveryRepo.events), recoveryRepo.events, old(State()), State(), e, k)
      ensures Handled(old(recoveryRepo.events), recoveryRepo.events, old(State()), State(), e, now, replies)
    {
      ghost var events0, s0 := recoveryRepo.events, State();
      var retryable := GiveUpExhausted(e, now, listed, k);
      ghost var events1, s1 := recoveryRepo.events, State();
      RetryAndFinalize(e, retryable, replies, k);
      VisitComposes(events0, events1, recoveryRepo.events, s0, s1, State(), e, k);
      VisitIsHandled(events0, events1, recoveryRepo.events, s0, s1, State(), e, now, replies);
    }

    /** One open event: fail what is out of time or retries, retry the rest, and close the event if nobody waits. */
    method VisitEvent(e: nat, now: int, replies: nat -> bool, ghost k: nat)
      requires Valid() && e < |recoveryRepo.events| && TriedAtLeast(recoveryRepo.items, e, k)
      modifies recoveryRepo, botInstanceRepo, nodeRepo
      ensures Valid()
      ensures Visited(old(recoveryRepo.events), recoveryRepo.events, old(State()), State(), e, k)
      ensures Limited(old(recoveryRepo.events)[e].startedAt, now, recoveryRepo.items, e)
      ensures Handled(old(recoveryRepo.events), recoveryRepo.events, old(State()), State(), e, now, replies)
      ensures forall i: nat | Waits(old(recoveryRepo.items), e, i) :: recoveryRepo.items[i].status == FailedItem <==>
        now - old(recoveryRepo.events)[e].startedAt >= 86_400 || old(recoveryRepo.items)[i].retryCount >= 5
    {
      ghost var events0, s0 := recoveryRepo.events, State();
      var listed := recoveryRepo.GetWaitingItems(e);
      PositionsAreIn(s0.items, WaitingIn(e));
      if |listed| == 0 {
        VisitEndsIdle(events0, events0, s0, s0, e, k);
        NobodyIsWithinCap(s0.items, e);
        IdleIsHandled(events0, s0, e, now, replies);
        FailIffGivenUp(events0[e].startedAt, now, s0.items, s0, e, replies);
        return;
      }
      if now - recoveryRepo.events[e].startedAt >= MAX_WAITING_DURATION_S {
        GiveUpAll(e, now, listed, replies, k);
        NobodyIsWithinCap(recoveryRepo.items, e);
        FailIffGivenUp(events0[e].startedAt, now, s0.items, State(), e, replies);
        return;
      }
      VisitYoung(e, now, listed, replies, k);
      FailIffGivenUp(events0[e].startedAt, now, s0.items, State(), e, replies);
    }

    /** The open events in turn. */
    method VisitAll(open: seq<nat>, now: int, replies: (nat, nat) -> bool, ghost k: nat)
      returns (ghost trail: seq<Snapshot>)
      requires Valid() && Passing(recoveryRepo.events, recoveryRepo.events, State(), State(), open, 0, k)
      modifies recoveryRepo, botInstanceRepo, nodeRepo
      ensures Valid()
      ensures Passing(old(recoveryRepo.events), recoveryRepo.events, old(State()), State(), open, |open|, k)
      ensures LimitsKept(old(recoveryRepo.events), now, recoveryRepo.items, open, |open|)
      ensures Visits(trail, open, now, replies) && |trail| == |open| + 1
      ensures trail[0] == old(Tables()) && trail[|open|] == Tables()
    {
      ghost var events0, s0 := recoveryRepo.events, State();
      trail := [Tables()];
      for j := 0 to |open|
        invariant Valid()
        invariant Passing(events0, recoveryRepo.events, s0, State(), open, j, k)
        invariant LimitsKept(events0, now, recoveryRepo.items, open, j)
        invariant Visits(trail, open, now, replies) && |trail| == j + 1
        invariant trail[0] == Snapshot(events0, s0) && trail[j] == Tables()
      {
        ghost var events1, s1 := recoveryRepo.events, State();
        var e := open[j];
        PendingIsTried(events0, events1, s0, s1, open, j, k);
        VisitEvent(e, now, RepliesFor(replies, e), k);
        PassStep(events0, events1, recoveryRepo.events, s0, s1, State(), open, j, k);
        LimitsStep(events0, now, s1.items, recoveryRepo.items, open, j);
        VisitsNext(trail, open, now, replies, Tables());
        trail := trail + [Tables()];
      }
    }

    /** One pass over the open events. */
    method CheckAndRetryWaiting(now: int, replies: (nat, nat) -> bool, ghost k: nat)
      returns (ghost trail: seq<Snapshot>)
      requires Valid() && AllTried(recoveryRepo.events, recoveryRepo.items, k)
      modifies recoveryRepo, botInstanceRepo, nodeRepo
      ensures Valid()
      ensures PassDone(old(recoveryRepo.events), recoveryRepo.events, old(State()), State(), k)
      ensures OpenEventsLimited(old(recoveryRepo.events), now, recoveryRepo.items)
      ensures Passed(old(Tables()), Tables(), trail, now, replies)
      ensures OpenRowsPassed(trail, old(recoveryRepo.events), old(recoveryRepo.items), recoveryRepo.items, now, replies)
      ensures Closed(old(recoveryRepo.events), old(State())) ==>
        OpenRowsTried(old(recoveryRepo.events), old(recoveryRepo.items), recoveryRepo.items)
      ensures forall e: nat, i: nat | e < |old(recoveryRepo.events)| && old(recoveryRepo.events)[e].status != Completed
        && Waits(old(recoveryRepo.items), e, i) :: recoveryRepo.items[i].status == FailedItem <==>
        now - old(recoveryRepo.events)[e].startedAt >= 86_400 || old(recoveryRepo.items)[i].retryCount >= 5
    {
      ghost var events0, s0 := recoveryRepo.events, State();
      var open := recoveryRepo.ListOpenEvents();
      PassStarts(events0, s0, open, k);
      trail := VisitAll(open, now, replies, k);
      LimitsEnd(events0, now, recoveryRepo.items, open);
      PassEnds(events0, recoveryRepo.events, s0, State(), open, k);
      PassHandlesRows(trail, open, now, replies);
      PassFailsIffGivenUp(trail, events0, s0.items, recoveryRepo.items, now, replies);
    }

    method RegisterAndCheck(id: string, capacityMb: int, now: int, replies: (nat, nat) -> bool, ghost k: nat)
      requires Valid() && AllTried(recoveryRepo.events, recoveryRepo.items, k) && Closed(recoveryRepo.events, State())
      modifies recoveryRepo, botInstanceRepo, nodeRepo
      ensures Valid() && Closed(recoveryRepo.events, State())
      ensures SameEvents(old(recoveryRepo.events), recoveryRepo.events)
      ensures AllTried(recoveryRepo.events, recoveryRepo.items, k + 1)
      ensures k >= MAX_RETRY_ATTEMPTS ==>
        forall e | 0 <= e < |recoveryRepo.events| :: NobodyWaitsIn(recoveryRepo.items, e)
    {
      var _ := nodeRepo.Register(id, capacityMb);
      ghost var _ := CheckAndRetryWaiting(now, replies, k);
    }

    /** Six passes, each after some node has registered: nobody is left waiting, whatever the replies. */
    method SixPasses(arrivals: seq<(string, int)>, times: seq<int>, replies: (nat, nat, nat) -> bool)
      requires Valid() && Closed(recoveryRepo.events, State()) && |arrivals| == |times| == 6
      modifies recoveryRepo, botInstanceRepo, nodeRepo
      ensures Valid() && Closed(recoveryRepo.events, State())
      ensures SameEvents(old(recoveryRepo.events), recoveryRepo.events)
      ensures forall e | 0 <= e < |recoveryRepo.events| :: FullyResolved(recoveryRepo.events[e], e, recoveryRepo.items)
    {
      for p := 0 to |arrivals|
        invariant Valid() && Closed(recoveryRepo.events, State())
        invariant SameEvents(old(recoveryRepo.events), recoveryRepo.events)
        invariant AllTried(recoveryRepo.events, recoveryRepo.items, p)
        invariant p > MAX_RETRY_ATTEMPTS ==>
          forall e | 0 <= e < |recoveryRepo.events| :: NobodyWaitsIn(recoveryRepo.items, e)
      {
        RegisterAndCheck(arrivals[p].0, arrivals[p].1, times[p], (e: nat, x: nat) => replies(p, e, x), p);
      }
      forall e | 0 <= e < |recoveryRepo.events| ensures FullyResolved(recoveryRepo.events[e], e, recoveryRepo.items) {
        assert Settled(recoveryRepo.events[e], e, recoveryRepo.items) && NobodyWaitsIn(recoveryRepo.items, e);
      }
    }
  }
}
