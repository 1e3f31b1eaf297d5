/** What a first round, a retry, a visit and a pass leave true of the events and their rows. */
module RecoveryEvents {
  import opened Basics
  import opened Counting
  import opened NodeLifecycle
  import opened RecoveryTables
  import opened RecoverySteps
  import opened RecoveryRetries

  predicate Recoverable(status: NodeStatus) { status in {Unhealthy, Offline, Recovering} }

  ghost predicate NobodyWaitsIn(items: seq<RecoveryItem>, e: nat) { Count(items, WaitingIn(e)) == 0 }

  ghost predicate AllTried(events: seq<RecoveryEvent>, items: seq<RecoveryItem>, k: nat) {
    forall e | 0 <= e < |events| :: TriedAtLeast(items, e, k)
  }

  /** The events table after a change to event e: same nodes, same starts, the others untouched. */
  ghost predicate OnlyEventRow(events: seq<RecoveryEvent>, events': seq<RecoveryEvent>, e: nat) {
    && |events'| == |events|
    && (forall x | 0 <= x < |events| && x != e :: events'[x] == events[x])
    && (forall x | 0 <= x < |events| :: events'[x].node == events[x].node && events'[x].total == events[x].total
                                        && events'[x].startedAt == events[x].startedAt)
  }

  lemma OthersStaySettled(events: seq<RecoveryEvent>, events': seq<RecoveryEvent>, items: seq<RecoveryItem>,
                          items': seq<RecoveryItem>, e: nat)
    requires e < |events| && OnlyEventRow(events, events', e) && OnlyEvent(items, items', e)
    requires AllSettled(events, items) && Settled(events'[e], e, items')
    ensures AllSettled(events', items')
  {
    forall x | 0 <= x < |events'| ensures Settled(events'[x], x, items') {
      if x != e { OtherEventsKeepCount(items, items', e, x); }
    }
  }

  lemma ItemsStillBelong(events: seq<RecoveryEvent>, events': seq<RecoveryEvent>, items: seq<RecoveryItem>,
                         items': seq<RecoveryItem>, e: nat)
    requires e < |events| && OnlyEventRow(events, events', e) && OnlyEvent(items, items', e)
    requires ItemsBelong(events, items) && SourceIs(items', e, events[e].node)
    ensures ItemsBelong(events', items')
  {
    forall i | 0 <= i < |items'|
      ensures items'[i].event < |events'| && items'[i].source == events'[items'[i].event].node
    {
      if i < |items| && items[i].event != e { assert items'[i] == items[i]; }
    }
  }

  // ---- What a first round amounts to ----

  /** One new event whose counters are the report's, add up, and count the rows; older events stay settled. */
  ghost predicate Recorded(events0: seq<RecoveryEvent>, events: seq<RecoveryEvent>, s0: Fleet, s: Fleet, dead: string,
                           now: int, report: Report) {
    && events == events0
      + [RecoveryEvent(dead, if report.waiting != [] then Partial else Completed, |ByTier(s0.bots, dead)|,
                                          |report.recovered|, |report.failed|, |report.waiting|, now)]
    && FreshRows(s0.items, s.items, s0.bots, |events0|, dead, ByTier(s0.bots, dead), |report.waiting|,
      |ByTier(s0.bots, dead)|)
    && Settled(events[|events0|], |events0|, s.items)
    && (AllSettled(events0, s0.items) ==> AllSettled(events, s.items))
  }

  /** The last in tier order wait, only for lack of room, and no node in bounds is pushed out of them. */
  ghost predicate PlacedGreedily(s0: Fleet, s: Fleet, dead: string, report: Report) {
    var tenants, slots := ByTier(s0.bots, dead), Slots(s0.nodes, dead);
    && GreedySoFar(s.nodes, dead, tenants, |tenants|, report)
    && BotsFollow(s0.bots, s.bots, tenants, |tenants|, report)
    && NotOvercommitted(s0.nodes, s.nodes)
    && |report.recovered| <= slots
    && (report.waiting != [] ==> |report.recovered| == slots)
    && (report.failed == [] ==> |report.recovered| == if |tenants| <= slots then |tenants| else slots)
  }

  /** Waiting rows keep a bot each just when the failures of the round make up for the rows that waited before. */
  ghost predicate BackingKept(s0: Fleet, s: Fleet, dead: string, replies: nat -> bool) {
    Backed(s0.bots, s0.items) ==> (Backed(s.bots, s.items) <==> FailuresCoverWaiting(s0, dead, replies))
  }

  lemma FirstRoundIsRecorded(events0: seq<RecoveryEvent>, events: seq<RecoveryEvent>, s0: Fleet, s: Fleet, dead: string,
                             now: int, report: Report)
    requires Triaged(s0, s, |events0|, dead, ByTier(s0.bots, dead), |ByTier(s0.bots, dead)|, report)
    requires ItemsBelong(events0, s0.items)
    requires events
      == events0 + [RecoveryEvent(dead, if report.waiting != [] then Partial else Completed, |ByTier(s0.bots, dead)|,
                                                |report.recovered|, |report.failed|, |report.waiting|, now)]
    ensures Recorded(events0, events, s0, s, dead, now, report) && ItemsBelong(events, s.items)
  {
    NoRowsYet(events0, s0.items);
    NewEventSettles(events0, events, s0.items, s.items);
  }

  lemma FirstRoundIsGreedy(s0: Fleet, s1: Fleet, s2: Fleet, s3: Fleet, e: nat, dead: string, report: Report)
    requires Triaged(s1, s2, e, dead, ByTier(s1.bots, dead), |ByTier(s1.bots, dead)|, report)
    requires OnlyStatus(s0, s1, dead) && OnlyStatus(s2, s3, dead)
    ensures PlacedGreedily(s0, s3, dead, report)
  {
    DeadNodeHasNoSlots(s0.nodes, s1.nodes, dead);
    TriageIsOptimal(s1, s2, e, dead, report);
    if NoRoom(s2.nodes, dead) {
      forall id ensures !Eligible(s3.nodes, dead, TENANT_MB, id) { assert !Eligible(s2.nodes, dead, TENANT_MB, id); }
    }
  }

  lemma SameCover(s0: Fleet, s1: Fleet, dead: string, replies: nat -> bool)
    requires OnlyStatus(s0, s1, dead)
    ensures FailuresCoverWaiting(s1, dead, replies) <==> FailuresCoverWaiting(s0, dead, replies)
  {
    DeadNodeHasNoSlots(s0.nodes, s1.nodes, dead);
  }

  lemma FirstRoundBacking(s0: Fleet, s1: Fleet, s: Fleet, e: nat, dead: string, report: Report, replies: nat -> bool)
    requires OnlyStatus(s0, s1, dead) && Triaged(s1, s, e, dead, ByTier(s1.bots, dead), |ByTier(s1.bots, dead)|, report)
    requires FollowsCourse(s1.nodes, dead, ByTier(s1.bots, dead), replies, report)
    ensures BackingKept(s0, s, dead, replies)
  {
    if Backed(s1.bots, s1.items) {
      TriageKeepsBackingIff(s1, s, e, dead, report, replies);
      SameCover(s0, s1, dead, replies);
    }
  }

  lemma LastRowReplaced(events: seq<RecoveryEvent>, last: RecoveryEvent, last': RecoveryEvent)
    ensures (events + [last])[|events|] == last && (events + [last])[|events| := last'] == events + [last']
  {}

  lemma FirstRound(events0: seq<RecoveryEvent>, events: seq<RecoveryEvent>, s0: Fleet, s1: Fleet, s2: Fleet, s3: Fleet,
                   dead: string, now: int,
                   report: Report, replies: nat -> bool)
    requires Triaged(s1, s2, |events0|, dead, ByTier(s1.bots, dead), |ByTier(s1.bots, dead)|, report)
    requires FollowsCourse(s1.nodes, dead, ByTier(s1.bots, dead), replies, report)
    requires ItemsBelong(events0, s0.items) && OnlyStatus(s0, s1, dead) && OnlyStatus(s2, s3, dead)
    requires events
      == events0 + [RecoveryEvent(dead, if report.waiting != [] then Partial else Completed, |ByTier(s1.bots, dead)|,
                                                |report.recovered|, |report.failed|, |report.waiting|, now)]
    ensures Recorded(events0, events, s0, s3, dead, now, report) && ItemsBelong(events, s3.items)
    ensures PlacedGreedily(s0, s3, dead, report)
    ensures FollowsCourse(s0.nodes, dead, ByTier(s0.bots, dead), replies, report)
    ensures BackingKept(s0, s3, dead, replies)
  {
    FirstRoundIsRecorded(events0, events, s1, s2, dead, now, report);
    FirstRoundIsGreedy(s0, s1, s2, s3, |events0|, dead, report);
    FirstRoundBacking(s0, s1, s2, |events0|, dead, report, replies);
    DeadNodeHasNoSlots(s0.nodes, s1.nodes, dead);
  }

  /** The fleets differ at most in the dead node's status. */
  ghost predicate OnlyStatus(s: Fleet, s': Fleet, dead: string) {
    && dead in s.nodes
    && s'.bots == s.bots && s'.items == s.items && s'.nodes.Keys == s.nodes.Keys
    && (forall id | id in s.nodes && id != dead :: s'.nodes[id] == s.nodes[id])
    && s'.nodes[dead].capacityMb == s.nodes[dead].capacityMb && s'.nodes[dead].usedMb == s.nodes[dead].usedMb
  }

  // ---- What retrying one event amounts to ----

  /** The event's row after a retry: the counters move by the report, whatever was not found. */
  function RetriedRow(event: RecoveryEvent, report: Report): RecoveryEvent {
    event.(status := if report.waiting != [] then Partial else Completed,
           recovered := event.recovered + |report.recovered|,
           failed := event.failed + |report.failed|, waiting := |report.waiting|)
  }

  /** The tenants the retry places. */
  ghost function PlacedBy(r: Retry): seq<string>
    requires Lists(r)
  {
    CourseTo(r, |r.listed|).placed
  }

  /** How many of the listed rows the retry will find no bot for. */
  ghost function Missed(r: Retry): nat
    requires Lists(r)
  {
    CourseTo(r, |r.listed|).missed
  }

  /** How many of the listed rows will wait again. */
  ghost function Again(r: Retry): nat
    requires Lists(r)
  {
    CourseTo(r, |r.listed|).again
  }

  /** As many are placed as slots allow, if anybody is left waiting, and never more. */
  ghost predicate SlotsUsed(nodes0: map<string, Node>, nodes: map<string, Node>, source: string, report: Report) {
    && NotOvercommitted(nodes0, nodes)
    && |report.recovered| <= Slots(nodes0, source)
    && (report.waiting != [] ==> |report.recovered| == Slots(nodes0, source))
  }

  ghost predicate Retried(r: Retry, s: Fleet, report: Report) {
    && Lists(r) && Size(report) == |r.listed| == Count(r.start.items, WaitingIn(r.event))
    && Count(s.items, WaitingIn(r.event)) == |report.waiting| + Missed(r)
    && |report.recovered| == |PlacedBy(r)| && |report.waiting| == Again(r) && Missed(r) <= |report.failed|
    && OnlyEvent(r.start.items, s.items, r.event) && Replaced(r.start.items, s.items, r.event)
    && (Missed(r) == 0 ==> TriedAtLeast(s.items, r.event, r.tries + 1))
    && (Backed(r.start.bots, r.start.items) ==> Missed(r) == 0 && Backed(s.bots, s.items))
    && SlotsUsed(r.start.nodes, s.nodes, r.source, report)
  }

  lemma RetryUsesSlots(nodes0: map<string, Node>, nodes: map<string, Node>, source: string, report: Report)
    requires CapacityUsed(nodes0, nodes, source, |report.recovered|) && (report.waiting != [] ==> NoRoom(nodes, source))
    ensures SlotsUsed(nodes0, nodes, source, report)
  {
    SlotsAreNonNegative(nodes, source);
    if report.waiting != [] { NoTargetMeansNoSlots(nodes, source); }
  }

  lemma RowsEnd(r: Retry, items: seq<RecoveryItem>, again: nat, notFound: nat)
    requires RowsRetried(r, items, |r.listed|, again, notFound)
    ensures Count(items, WaitingIn(r.event)) == again + notFound && OnlyEvent(r.start.items, items, r.event)
    ensures notFound == 0 ==> TriedAtLeast(items, r.event, r.tries + 1)
  {
    assert r.listed[|r.listed|..] == [];
  }

  lemma CourseEnds(r: Retry, bots: seq<Bot>, report: Report, notFound: nat)
    requires OnCourse(r, bots, |r.listed|, report, notFound)
    ensures Lists(r) && notFound == Missed(r) && |report.waiting| == Again(r) && |report.recovered| == |PlacedBy(r)|
    ensures BotsLeft(r.start.bots, bots, r.source, PlacedBy(r))
  {}

  lemma RetryEnds(r: Retry, s: Fleet, report: Report, notFound: nat)
    requires r.listed == Positions(r.start.items, WaitingIn(r.event)) && Retrying(r, s, |r.listed|, report, notFound)
    ensures Retried(r, s, report) && BotsLeft(r.start.bots, s.bots, r.source, PlacedBy(r))
  {
    PositionsAreIn(r.start.items, WaitingIn(r.event));
    CourseEnds(r, s.bots, report, notFound);
    RetryUsesSlots(r.start.nodes, s.nodes, r.source, report);
    RowsEnd(r, s.items, |report.waiting|, notFound);
  }

  /** The tenants of the rows waiting in the event, in table order. */
  function WaitingTenants(items: seq<RecoveryItem>, e: nat): seq<string> {
    PositionsAre(items, WaitingIn(e));
    TenantsOf(items, Positions(items, WaitingIn(e)))
  }

  /** The course of a retry of the event, from the state before it and the replies. */
  ghost function EventCourse(s: Fleet, e: nat, source: string, replies: nat -> bool): RetryCourse {
    CourseOf(WaitingTenants(s.items, e), BotsOn(s.bots, source), Slots(s.nodes, source), replies)
  }

  /** How many waiting rows a retry of the event would find no bot for. */
  ghost function RowsMissed(s: Fleet, e: nat, source: string, replies: nat -> bool): nat {
    EventCourse(s, e, source, replies).missed
  }

  lemma CourseIsEventCourse(s: Fleet, e: nat, source: string, replies: nat -> bool, k: nat)
    ensures Lists(RetryOf(s, e, source, replies, k))
    ensures Missed(RetryOf(s, e, source, replies, k)) == RowsMissed(s, e, source, replies)
    ensures Again(RetryOf(s, e, source, replies, k)) == EventCourse(s, e, source, replies).again
  {
    PositionsAre(s.items, WaitingIn(e));
    var tenants := WaitingTenants(s.items, e);
    assert tenants[..|tenants|] == tenants;
  }

  lemma SettledIfNoneMissed(event: RecoveryEvent, r: Retry, s: Fleet, report: Report)
    requires Settled(event, r.event, r.start.items) && Retried(r, s, report)
    ensures Settled(RetriedRow(event, report), r.event, s.items) <==> Missed(r) == 0
  {}

  /** Retrying keeps a settled event settled exactly when the state before and the replies make no row miss its bot. */
  lemma RetryKeepsSettledIff(event: RecoveryEvent, r: Retry, s: Fleet, report: Report)
    requires r == RetryOf(r.start, r.event, r.source, r.replies, r.tries)
    requires Settled(event, r.event, r.start.items) && Retried(r, s, report)
    ensures Settled(RetriedRow(event, report), r.event, s.items)
      <==> RowsMissed(r.start, r.event, r.source, r.replies) == 0
  {
    CourseIsEventCourse(r.start, r.event, r.source, r.replies, r.tries);
    SettledIfNoneMissed(event, r, s, report);
  }

  /** Each tenant with rows waiting in the event has more bots on its node than can be placed before its last row. */
  ghost predicate CanSettle(s: Fleet, e: nat, source: string) {
    EnoughBots(WaitingTenants(s.items, e), BotsOn(s.bots, source), Slots(s.nodes, source))
  }

  /** No replies make a retry of the event miss a row exactly when every tenant has enough bots before it. */
  lemma RetryAlwaysSettlesIff(s: Fleet, e: nat, source: string)
    ensures (forall replies: nat -> bool :: RowsMissed(s, e, source, replies) == 0) <==> CanSettle(s, e, source)
  {
    var tenants, bots, slots := WaitingTenants(s.items, e), BotsOn(s.bots, source), Slots(s.nodes, source);
    SlotsAreNonNegative(s.nodes, source);
    if CanSettle(s, e, source) {
      forall replies: nat -> bool ensures RowsMissed(s, e, source, replies) == 0 {
        EnoughMeansNoneMissed(tenants, bots, slots, replies, |tenants|);
        assert tenants[..|tenants|] == tenants;
      }
    } else {
      var replies := TooFewMeansSomeMissed(tenants, bots, slots);
      assert RowsMissed(s, e, source, replies) > 0;
    }
  }

  /** The retry marks the event completed over a waiting row exactly when it misses a row and none waits again. */
  lemma CompletedTooEarlyIff(event: RecoveryEvent, r: Retry, s: Fleet, report: Report)
    requires r == RetryOf(r.start, r.event, r.source, r.replies, r.tries) && Retried(r, s, report)
    ensures RetriedRow(event, report).status == Completed && !NobodyWaitsIn(s.items, r.event)
       <==> var course := EventCourse(r.start, r.event, r.source, r.replies); course.missed > 0 && course.again == 0
  {
    CourseIsEventCourse(r.start, r.event, r.source, r.replies, r.tries);
  }

  lemma RetryIsRecorded(events0: seq<RecoveryEvent>, r: Retry, s: Fleet, report: Report)
    requires r.event < |events0| && ItemsBelong(events0, r.start.items)
    requires SourceIs(s.items, r.event, events0[r.event].node) && OnlyEvent(r.start.items, s.items, r.event)
    ensures var events := events0[r.event := RetriedRow(events0[r.event], report)];
      OnlyEventRow(events0, events, r.event) && ItemsBelong(events, s.items)
  {
    ItemsStillBelong(events0, events0[r.event := RetriedRow(events0[r.event], report)], r.start.items, s.items,
      r.event);
  }

  lemma OnlyEventComposes(a: seq<RecoveryItem>, b: seq<RecoveryItem>, c: seq<RecoveryItem>, e: nat)
    requires OnlyEvent(a, b, e) && OnlyEvent(b, c, e)
    ensures OnlyEvent(a, c, e)
  {}

  /** Counters, backing and tries, for a state in which nothing else interferes. */
  ghost predicate Closed(events: seq<RecoveryEvent>, s: Fleet) {
    AllSettled(events, s.items) && Backed(s.bots, s.items)
  }

  /** What one visit to event e does in a closed state. */
  ghost predicate Visited(events0: seq<RecoveryEvent>, events: seq<RecoveryEvent>, s0: Fleet, s: Fleet, e: nat,
                          k: nat) {
    && OnlyEventRow(events0, events, e) && OnlyEvent(s0.items, s.items, e)
    && (Closed(events0, s0) ==>
          && Closed(events, s) && TriedAtLeast(s.items, e, k + 1)
          && (k >= MAX_RETRY_ATTEMPTS ==> NobodyWaitsIn(s.items, e)))
  }

  /** The event's row after some of its rows ran out; `left` still wait. */
  function ExpiredRow(event: RecoveryEvent, expired: nat, left: nat): RecoveryEvent {
    event.(status := if left > 0 then Partial else Completed, failed := event.failed + expired, waiting := left)
  }

  /** What closing rows leaves true. */
  ghost predicate Survived(events0: seq<RecoveryEvent>, events: seq<RecoveryEvent>, s0: Fleet, s: Fleet, e: nat,
                           k: nat) {
    && e < |events0| && OnlyEventRow(events0, events, e) && OnlyEvent(s0.items, s.items, e)
    && TriedAtLeast(s.items, e, k)
    && (Closed(events0, s0) ==> Closed(events, s))
  }

  /** Nobody has been tried more often, or has waited longer, than the limits. */
  ghost predicate Limited(startedAt: int, now: int, items: seq<RecoveryItem>, e: nat) {
    WithinCap(items, e) && (now - startedAt >= MAX_WAITING_DURATION_S ==> NobodyWaitsIn(items, e))
  }

  // ---- A pass over the open events ----

  ghost predicate SameEvents(events: seq<RecoveryEvent>, events': seq<RecoveryEvent>) {
    && |events'| == |events|
    && forall e | 0 <= e < |events| :: events'[e].node == events[e].node && events'[e].total == events[e].total
                                       && events'[e].startedAt == events[e].startedAt
  }

  ghost predicate FullyResolved(event: RecoveryEvent, e: nat, items: seq<RecoveryItem>) {
    event.status == Completed && event.waiting == 0 && event.recovered + event.failed == event.total
      && NobodyWaitsIn(items, e)
  }

  /** Event e has had its turn in this pass. */
  ghost predicate Served(items: seq<RecoveryItem>, e: nat, k: nat) {
    TriedAtLeast(items, e, k + 1) && (k >= MAX_RETRY_ATTEMPTS ==> NobodyWaitsIn(items, e))
  }

  ghost predicate Passing(events0: seq<RecoveryEvent>, events: seq<RecoveryEvent>, s0: Fleet, s: Fleet, open: seq<nat>,
                          j: nat, k: nat) {
    && SameEvents(events0, events)
    && j <= |open| && Distinct(open) && (forall x | 0 <= x < |open| :: open[x] < |events|)
    && (forall x | j <= x < |open| :: TriedAtLeast(s.items, open[x], k))
    && (Closed(events0, s0) ==>
          && Closed(events, s)
          && forall e | 0 <= e < |events| && e !in open[j..] :: Served(s.items, e, k))
  }

  /** The first j open events have been held to the limits. */
  ghost predicate LimitsKept(events0: seq<RecoveryEvent>, now: int, items: seq<RecoveryItem>, open: seq<nat>, j: nat) {
    && j <= |open| && (forall x | 0 <= x < |open| :: open[x] < |events0|)
    && (forall x | 0 <= x < j :: Limited(events0[open[x]].startedAt, now, items, open[x]))
  }

  lemma NobodyIsWithinCap(items: seq<RecoveryItem>, e: nat)
    requires NobodyWaitsIn(items, e)
    ensures WithinCap(items, e)
  {
    CountNone(items, WaitingIn(e));
  }

  lemma OthersStayLimited(startedAt: int, now: int, items: seq<RecoveryItem>, items': seq<RecoveryItem>, e: nat,
                          other: nat)
    requires OnlyEvent(items, items', e) && other != e && Limited(startedAt, now, items, other)
    ensures Limited(startedAt, now, items', other)
  {
    OtherEventsKeepCount(items, items', e, other);
  }

  lemma LimitsStep(events0: seq<RecoveryEvent>, now: int, items: seq<RecoveryItem>, items': seq<RecoveryItem>,
                   open: seq<nat>, j: nat)
    requires LimitsKept(events0, now, items, open, j) && j < |open| && Distinct(open)
    requires OnlyEvent(items, items', open[j])
    requires Limited(events0[open[j]].startedAt, now, items', open[j])
    ensures LimitsKept(events0, now, items', open, j + 1)
  {
    forall x | 0 <= x < j ensures Limited(events0[open[x]].startedAt, now, items', open[x]) {
      OthersStayLimited(events0[open[x]].startedAt, now, items, items', open[j], open[x]);
    }
  }

  /** Every event open at the start of a pass is held to the limits by its end. */
  ghost predicate OpenEventsLimited(events0: seq<RecoveryEvent>, now: int, items: seq<RecoveryItem>) {
    forall e | 0 <= e < |events0| && events0[e].status != Completed :: Limited(events0[e].startedAt, now, items, e)
  }

  lemma LimitsEnd(events0: seq<RecoveryEvent>, now: int, items: seq<RecoveryItem>, open: seq<nat>)
    requires open == Positions(events0, (e: RecoveryEvent) => e.status != Completed)
    requires LimitsKept(events0, now, items, open, |open|)
    ensures OpenEventsLimited(events0, now, items)
  {
    forall e | 0 <= e < |events0| && events0[e].status != Completed
      ensures Limited(events0[e].startedAt, now, items, e)
    {
      PositionsHave(events0, (e: RecoveryEvent) => e.status != Completed, e);
      var x :| 0 <= x < |open| && open[x] == e;
      assert Limited(events0[open[x]].startedAt, now, items, open[x]);
    }
  }

  /** From a closed state a pass reaches a closed state, having tried or given up every waiting row. */
  ghost predicate PassDone(events0: seq<RecoveryEvent>, events: seq<RecoveryEvent>, s0: Fleet, s: Fleet, k: nat) {
    && SameEvents(events0, events)
    && (Closed(events0, s0) ==>
          && Closed(events, s) && AllTried(events, s.items, k + 1)
          && (k >= MAX_RETRY_ATTEMPTS ==> forall e | 0 <= e < |events| :: NobodyWaitsIn(s.items, e)))
  }

  lemma PassEnds(events0: seq<RecoveryEvent>, events: seq<RecoveryEvent>, s0: Fleet, s: Fleet, open: seq<nat>, k: nat)
    requires Passing(events0, events, s0, s, open, |open|, k)
    ensures PassDone(events0, events, s0, s, k)
  {
    if Closed(events0, s0) {
      var next := k + 1;
      forall e | 0 <= e < |events|
        ensures TriedAtLeast(s.items, e, next) && (k >= MAX_RETRY_ATTEMPTS ==> NobodyWaitsIn(s.items, e))
      {
        assert Served(s.items, e, k);
      }
    }
  }

  lemma PassStarts(events: seq<RecoveryEvent>, s: Fleet, open: seq<nat>, k: nat)
    requires open == Positions(events, (e: RecoveryEvent) => e.status != Completed) && AllTried(events, s.items, k)
    ensures Passing(events, events, s, s, open, 0, k)
  {
    PositionsAre(events, (e: RecoveryEvent) => e.status != Completed);
    assert open[0..] == open;
    if Closed(events, s) {
      forall e | 0 <= e < |events| && e !in open ensures Served(s.items, e, k) {
        assert Settled(events[e], e, s.items);
        CountNone(s.items, WaitingIn(e));
      }
    }
  }

  lemma PendingIsTried(events0: seq<RecoveryEvent>, events: seq<RecoveryEvent>, s0: Fleet, s: Fleet, open: seq<nat>,
                       j: nat, k: nat)
    requires Passing(events0, events, s0, s, open, j, k) && j < |open|
    ensures open[j] < |events| && TriedAtLeast(s.items, open[j], k)
  {}

  lemma OthersStayServed(items: seq<RecoveryItem>, items': seq<RecoveryItem>, e: nat, other: nat, k: nat)
    requires OnlyEvent(items, items', e) && other != e && Served(items, other, k)
    ensures Served(items', other, k)
  {
    OtherEventsKeepTries(items, items', e, other, k + 1);
    OtherEventsKeepCount(items, items', e, other);
  }

  lemma PassStep(events0: seq<RecoveryEvent>, events: seq<RecoveryEvent>, events': seq<RecoveryEvent>, s0: Fleet,
                 s: Fleet, s': Fleet,
                 open: seq<nat>, j: nat, k: nat)
    requires Passing(events0, events, s0, s, open, j, k) && j < |open| && Visited(events, events', s, s', open[j], k)
    ensures Passing(events0, events', s0, s', open, j + 1, k)
  {
    var e := open[j];
    assert open[j..] == [e] + open[j + 1..];
    forall x | j + 1 <= x < |open| ensures TriedAtLeast(s'.items, open[x], k) {
      OtherEventsKeepTries(s.items, s'.items, e, open[x], k);
    }
    if Closed(events0, s0) {
      forall o | 0 <= o < |events'| && o !in open[j + 1..] ensures Served(s'.items, o, k) {
        if o != e { OthersStayServed(s.items, s'.items, e, o, k); }
      }
    }
  }

  lemma VisitComposes(events0: seq<RecoveryEvent>, events1: seq<RecoveryEvent>, events: seq<RecoveryEvent>, s0: Fleet,
                      s1: Fleet, s: Fleet, e: nat, k: nat)
    requires Survived(events0, events1, s0, s1, e, k) && Visited(events1, events, s1, s, e, k)
    ensures Visited(events0, events, s0, s, e, k)
  {
    OnlyEventComposes(s0.items, s1.items, s.items, e);
  }

  lemma VisitEndsIdle(events0: seq<RecoveryEvent>, events: seq<RecoveryEvent>, s0: Fleet, s: Fleet, e: nat, k: nat)
    requires Survived(events0, events, s0, s, e, k) && NobodyWaitsIn(s.items, e)
    ensures Visited(events0, events, s0, s, e, k)
  {
    CountNone(s.items, WaitingIn(e));
  }

  lemma VisitEndsRetried(events0: seq<RecoveryEvent>, r: Retry, s: Fleet, report: Report)
    requires r.event < |events0| && r.tries < MAX_RETRY_ATTEMPTS && Retried(r, s, report)
    ensures Visited(events0, events0[r.event := RetriedRow(events0[r.event], report)], r.start, s, r.event, r.tries)
  {
    RetryKeepsClosed(events0, events0[r.event := RetriedRow(events0[r.event], report)], r, s, report);
  }

  lemma VisitIsFinalized(events0: seq<RecoveryEvent>, events2: seq<RecoveryEvent>, events: seq<RecoveryEvent>,
                         s0: Fleet, s: Fleet, e: nat, k: nat)
    requires e < |events0| && Visited(events0, events2, s0, s, e, k)
    requires events == if NobodyWaitsIn(s.items, e) && events2[e].status != Completed
                       then events2[e := events2[e].(status := Completed, waiting := 0)] else events2
    ensures Visited(events0, events, s0, s, e, k)
  {
    if AllSettled(events2, s.items) { assert Settled(events2[e], e, s.items); }
  }

  lemma ClosingKeeps(events0: seq<RecoveryEvent>, events: seq<RecoveryEvent>, s0: Fleet, s: Fleet, e: nat,
                     expired: seq<nat>, k: nat)
    requires e < |events0| && ItemsBelong(events0, s0.items) && TriedAtLeast(s0.items, e, k)
    requires forall i | i in expired :: i < |s0.items| && WaitingIn(e)(s0.items[i])
    requires s == s0.(items := s.items) && ClosedAsFailed(s0.items, s.items, expired)
    requires Count(s.items, WaitingIn(e)) == Count(s0.items, WaitingIn(e)) - |expired|
    requires events == events0[e := ExpiredRow(events0[e], |expired|, Count(s.items, WaitingIn(e)))]
    ensures Survived(events0, events, s0, s, e, k) && ItemsBelong(events, s.items)
  {
    ItemsStillBelong(events0, events, s0.items, s.items, e);
    if Closed(events0, s0) {
      assert Settled(events0[e], e, s0.items);
      OthersStaySettled(events0, events, s0.items, s.items, e);
      ClosingKeepsBacking(s0.bots, s0.items, s.items, expired);
    }
  }

  lemma RetrySettles(events0: seq<RecoveryEvent>, events: seq<RecoveryEvent>, r: Retry, s: Fleet, report: Report)
    requires r.event < |events0| && Retried(r, s, report) && Closed(events0, r.start)
    requires events == events0[r.event := RetriedRow(events0[r.event], report)]
    ensures AllSettled(events, s.items)
  {
    assert Settled(events0[r.event], r.event, r.start.items);
    SettledIfNoneMissed(events0[r.event], r, s, report);
    OthersStaySettled(events0, events, r.start.items, s.items, r.event);
  }

  lemma RetryKeepsClosed(events0: seq<RecoveryEvent>, events: seq<RecoveryEvent>, r: Retry, s: Fleet, report: Report)
    requires r.event < |events0| && Retried(r, s, report)
    requires events == events0[r.event := RetriedRow(events0[r.event], report)]
    ensures OnlyEventRow(events0, events, r.event)
    ensures Closed(events0, r.start) ==> Closed(events, s) && TriedAtLeast(s.items, r.event, r.tries + 1)
  {
    if Closed(events0, r.start) { RetrySettles(events0, events, r, s, report); }
  }

  lemma NoRowsYet(events: seq<RecoveryEvent>, items: seq<RecoveryItem>)
    requires ItemsBelong(events, items)
    ensures Count(items, WaitingIn(|events|)) == 0
  {
    CountNone(items, WaitingIn(|events|));
  }

  lemma NewEventSettles(events: seq<RecoveryEvent>, events': seq<RecoveryEvent>, items: seq<RecoveryItem>,
                        items': seq<RecoveryItem>)
    requires ItemsBelong(events, items) && events <= events' && |events'| == |events| + 1
    requires OnlyEvent(items, items', |events|) && Settled(events'[|events|], |events|, items')
    ensures AllSettled(events, items) ==> AllSettled(events', items')
  {
    if AllSettled(events, items) {
      forall x | 0 <= x < |events'| ensures Settled(events'[x], x, items') {
        if x < |events| { OtherEventsKeepCount(items, items', |events|, x); }
      }
    }
  }
}
