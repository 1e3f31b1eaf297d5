/**
 What a second recovery of a node can do while its tenants still wait: leave more waiting rows than bots, so that
 retrying the later event marks it completed with a row still waiting.
 */
module RecoveryHazard {
  import opened Basics
  import opened Counting
  import opened NodeLifecycle
  import opened RecoveryTables
  import opened RecoverySteps
  import opened RecoveryRetries
  import opened RecoveryEvents
  import opened Recovery

  function Always(): nat -> bool { (n: nat) => true }

  ghost predicate WaitingRow(item: RecoveryItem, e: nat, tenant: string, dead: string) {
    item.event == e && item.tenant == tenant && item.source == dead && item.status == WaitingItem
  }

  /** The only bot waits for its dead node once in each of the n events. */
  ghost predicate WaitsIn(events: seq<RecoveryEvent>, s: Fleet, tenant: string, dead: string, n: nat) {
    && |events| == |s.items| == n && (forall e | 0 <= e < n :: events[e].node == dead)
    && (forall e | 0 <= e < n :: WaitingRow(s.items[e], e, tenant, dead))
    && s.bots == [Bot(tenant, Some(dead), None)]
  }

  lemma AloneMeansNoSlots(nodes: map<string, Node>, dead: string)
    requires nodes.Keys <= {dead}
    ensures Slots(nodes, dead) == 0
  {
    SumOfZeros(nodes.Keys, (id: string) => SlotsAt(nodes, dead, id));
  }

  lemma {:induction false} NobodyIsTried(tenants: seq<nat>, replies: nat -> bool)
    ensures TriageCourse(tenants, 0, replies) == Course(0, [])
  {
    if tenants != [] { NobodyIsTried(tenants[..|tenants| - 1], replies); }
  }

  lemma PositionOfOne<T>(row: T, p: T -> bool)
    ensures Positions([row], p) == if p(row) then [0] else []
  {
    PositionsAppend([], row, p);
    assert [] + [row] == [row];
  }

  lemma OneBotListed(tenant: string, dead: string)
    ensures ByTier([Bot(tenant, Some(dead), None)], dead) == [0]
  {
    var bot := Bot(tenant, Some(dead), None);
    PositionOfOne(bot, RankedBotOn(dead, 1));
    PositionOfOne(bot, RankedBotOn(dead, 2));
    PositionOfOne(bot, RankedBotOn(dead, 3));
    PositionOfOne(bot, RankedBotOn(dead, 4));
  }

  /** A round without slots places and fails nobody. */
  lemma NobodyIsPlaced(nodes0: map<string, Node>, dead: string, tenants: seq<nat>, report: Report)
    requires FollowsCourse(nodes0, dead, tenants, Always(), report) && Slots(nodes0, dead) == 0
    requires Size(report) == |tenants|
    ensures report.recovered == [] && |report.waiting| == |tenants|
  {
    NobodyIsTried(tenants, Always());
  }

  lemma WaitingRowIsAdded(items0: seq<RecoveryItem>, items: seq<RecoveryItem>, bots: seq<Bot>, n: nat, tenant: string,
                          dead: string)
    requires |items0| == n && FreshRows(items0, items, bots, n, dead, [0], 1, 1) && bots[0].tenant == tenant
    requires forall i | 0 <= i < n :: items0[i].event != n
    ensures |items| == n + 1 && items0 <= items && WaitingRow(items[n], n, tenant, dead)
  {
    assert items == items0 + [items[n]];
    assert FreshRow(items[n], n, dead, bots[[0][n - |items0|]].tenant);
    CountNone(items0, WaitingIn(n));
    CountAppend(items0, items[n], WaitingIn(n));
  }

  lemma NobodyMoves(bots0: seq<Bot>, bots: seq<Bot>, tenants: seq<nat>, report: Report)
    requires BotsFollow(bots0, bots, tenants, |tenants|, report) && report.recovered == []
    ensures bots == bots0
  {
    assert RecoveredBots(report) == {};
    forall b: nat | b < |bots| ensures bots[b] == bots0[b] { assert b !in RecoveredBots(report); }
  }

  lemma OneMoreEvent(events0: seq<RecoveryEvent>, s0: Fleet, last: RecoveryEvent, s: Fleet, tenant: string,
                     dead: string, n: nat)
    requires WaitsIn(events0, s0, tenant, dead, n) && last.node == dead && s.bots == s0.bots
    requires |s.items| == n + 1 && s0.items <= s.items && WaitingRow(s.items[n], n, tenant, dead)
    ensures WaitsIn(events0 + [last], s, tenant, dead, n + 1)
  {}

  /** A round on a fleet without slots adds one more waiting row. */
  lemma RoundAddsWaitingRow(events0: seq<RecoveryEvent>, last: RecoveryEvent, s0: Fleet, s: Fleet, tenant: string,
                            dead: string, n: nat,
                            tenants: seq<nat>, report: Report)
    requires WaitsIn(events0, s0, tenant, dead, n) && Slots(s0.nodes, dead) == 0 && last.node == dead
    requires tenants == ByTier(s0.bots, dead)
    requires FreshRows(s0.items, s.items, s0.bots, n, dead, tenants, |report.waiting|, |tenants|)
    requires Size(report) == |tenants| && BotsFollow(s0.bots, s.bots, tenants, |tenants|, report)
    requires FollowsCourse(s0.nodes, dead, tenants, Always(), report)
    ensures WaitsIn(events0 + [last], s, tenant, dead, n + 1)
  {
    OneBotListed(tenant, dead);
    NobodyIsPlaced(s0.nodes, dead, tenants, report);
    NobodyMoves(s0.bots, s.bots, tenants, report);
    WaitingRowIsAdded(s0.items, s.items, s0.bots, n, tenant, dead);
    OneMoreEvent(events0, s0, last, s, tenant, dead, n);
  }

  lemma {:induction false} OneRowListed(items: seq<RecoveryItem>, e: nat, w: nat)
    requires w < |items| && WaitingIn(e)(items[w]) && forall i | 0 <= i < |items| && i != w :: !WaitingIn(e)(items[i])
    ensures Positions(items, WaitingIn(e)) == [w]
  {
    var n := |items| - 1;
    if w < n {
      OneRowListed(items[..n], e, w);
    } else {
      CountNone(items[..n], WaitingIn(e));
      PositionsAreIn(items[..n], WaitingIn(e));
    }
  }

  /** The course of a retry of one row. */
  lemma OneRowCourse(r: Retry, w: nat)
    requires r.listed == [w] && w < |r.start.items| && Lists(r)
    ensures var tenant := r.start.items[w].tenant;
      CourseTo(r, 1) == if Count(r.start.bots, BotOf(tenant, r.source)) == 0 then RetryCourse([], 1, 0)
                        else if Slots(r.start.nodes, r.source) <= 0 then RetryCourse([], 0, 1)
                        else if r.replies(0) then RetryCourse([tenant], 0, 0)
                        else RetryCourse([], 0, 0)
  {
    CourseNext(r, 0);
    OnCourseAtStart(r);
  }

  lemma OneBotCounted(tenant: string, dead: string)
    ensures Count([Bot(tenant, Some(dead), None)], BotOf(tenant, dead)) == 1
    ensures Count([tenant], Is(tenant)) == 1
  {
    assert [Bot(tenant, Some(dead), None)][..0] == [] && [tenant][..0] == [];
  }

  /** With a slot, the retry of the first event takes the bot away. */
  lemma FirstRetryTakesTheBot(s0: Fleet, bots: seq<Bot>, tenant: string, dead: string, r: Retry)
    requires |s0.items| == 2 && WaitingRow(s0.items[0], 0, tenant, dead) && s0.items[1].event == 1
    requires s0.bots == [Bot(tenant, Some(dead), None)] && Slots(s0.nodes, dead) > 0
    requires r == RetryOf(s0, 0, dead, Always(), 0) && Lists(r) && BotsLeft(s0.bots, bots, dead, PlacedBy(r))
    ensures Count(bots, BotOf(tenant, dead)) == 0
  {
    OneRowListed(s0.items, 0, 0);
    OneBotCounted(tenant, dead);
    OneRowCourse(r, 0);
  }

  /** The second event's row is left without a bot. */
  ghost predicate RowWithoutBot(s: Fleet, tenant: string, dead: string) {
    && |s.items| >= 2 && WaitingRow(s.items[1], 1, tenant, dead)
    && (forall i | 0 <= i < |s.items| && i != 1 :: s.items[i].event == 0)
    && Count(s.bots, BotOf(tenant, dead)) == 0
  }

  lemma FirstRetryLeavesTheRow(s0: Fleet, s: Fleet, tenant: string, dead: string, r: Retry, report: Report)
    requires |s0.items| == 2 && s0.items[0].event == 0 && WaitingRow(s0.items[1], 1, tenant, dead)
    requires r.event == 0 && r.start == s0 && Retried(r, s, report) && Count(s.bots, BotOf(tenant, dead)) == 0
    ensures RowWithoutBot(s, tenant, dead)
  {}

  /** The retry of the second event finds no bot: the event is completed, its row still waits. */
  lemma SecondRetryMisses(s0: Fleet, s: Fleet, event: RecoveryEvent, tenant: string, dead: string, r: Retry,
                          report: Report)
    requires RowWithoutBot(s0, tenant, dead)
    requires r == RetryOf(s0, 1, dead, Always(), 0) && Retried(r, s, report)
    ensures RetriedRow(event, report).status == Completed && !NobodyWaitsIn(s.items, 1)
  {
    OneRowListed(s0.items, 1, 1);
    OneRowCourse(r, 1);
  }

  /** Recovers the dead node once more; nothing has room, so its bot waits once more. */
  method TriggerAgain(manager: RecoveryManager, tenant: string, dead: string, ghost n: nat)
    requires manager.Valid() && WaitsIn(manager.recoveryRepo.events, manager.State(), tenant, dead, n)
    requires manager.nodeRepo.nodes.Keys == {dead} && Recoverable(manager.nodeRepo.nodes[dead].status)
    modifies manager.recoveryRepo, manager.botInstanceRepo, manager.nodeRepo
    ensures manager.Valid() && WaitsIn(manager.recoveryRepo.events, manager.State(), tenant, dead, n + 1)
    ensures manager.nodeRepo.nodes.Keys == {dead} && Recoverable(manager.nodeRepo.nodes[dead].status)
  {
    ghost var events0, s0 := manager.recoveryRepo.events, manager.State();
    AloneMeansNoSlots(manager.nodeRepo.nodes, dead);
    var outcome, report := manager.TriggerRecovery(dead, 0, Always());
    RoundAddsWaitingRow(events0, manager.recoveryRepo.events[n], s0, manager.State(), tenant, dead, n,
      ByTier(s0.bots, dead), report);
  }

  /** A node fails and is recovered twice without room; then a node joins and both events are retried. */
  method StrandRow(tenant: string, dead: string, newcomer: string) returns (manager: RecoveryManager)
    requires dead != newcomer
    ensures manager.Valid() && |manager.recoveryRepo.events| == 2
    ensures manager.recoveryRepo.events[1].status == Completed && !NobodyWaitsIn(manager.recoveryRepo.items, 1)
  {
    var nodes := new NodeRepository();
    var _ := nodes.Register(dead, 100);
    var _ := nodes.Transition(dead, Unhealthy);
    assert nodes.nodes.Keys == {dead};
    var bots := new BotInstanceRepository([Bot(tenant, Some(dead), None)]);
    var recoveries := new RecoveryRepository();
    manager := new RecoveryManager(recoveries, bots, nodes);
    TriggerAgain(manager, tenant, dead, 0);
    TriggerAgain(manager, tenant, dead, 1);
    RetryBoth(manager, tenant, dead, newcomer);
  }

  method RetryBoth(manager: RecoveryManager, tenant: string, dead: string, newcomer: string)
    requires dead != newcomer && manager.Valid()
    requires WaitsIn(manager.recoveryRepo.events, manager.State(), tenant, dead, 2)
    requires manager.nodeRepo.nodes.Keys == {dead}
    modifies manager.recoveryRepo, manager.botInstanceRepo, manager.nodeRepo
    ensures manager.Valid() && |manager.recoveryRepo.events| == 2
    ensures manager.recoveryRepo.events[1].status == Completed && !NobodyWaitsIn(manager.recoveryRepo.items, 1)
  {
    var _ := manager.nodeRepo.Register(newcomer, 100);
    NewcomerHasSlots(manager.nodeRepo.nodes, dead, newcomer);
    RetryFirst(manager, tenant, dead);
    RetrySecond(manager, tenant, dead);
  }

  lemma NewcomerHasSlots(nodes: map<string, Node>, dead: string, newcomer: string)
    requires UsageKnown(nodes) && Eligible(nodes, dead, TENANT_MB, newcomer)
    ensures Slots(nodes, dead) > 0
  {
    NoRoomIffNoSlots(nodes, dead);
    SlotsAreNonNegative(nodes, dead);
  }

  method RetryFirst(manager: RecoveryManager, tenant: string, dead: string)
    requires manager.Valid() && WaitsIn(manager.recoveryRepo.events, manager.State(), tenant, dead, 2)
    requires Slots(manager.nodeRepo.nodes, dead) > 0
    modifies manager.recoveryRepo, manager.botInstanceRepo, manager.nodeRepo
    ensures manager.Valid() && |manager.recoveryRepo.events| == 2 && manager.recoveryRepo.events[1].node == dead
    ensures RowWithoutBot(manager.State(), tenant, dead)
  {
    ghost var s0 := manager.State();
    assert s0.items[0].event == 0 && s0.items[1].event == 1;
    var _, report, r := manager.RetryWaiting(0, Always(), 0);
    FirstRetryTakesTheBot(s0, manager.botInstanceRepo.bots, tenant, dead, r);
    FirstRetryLeavesTheRow(s0, manager.State(), tenant, dead, r, report);
  }

  method RetrySecond(manager: RecoveryManager, tenant: string, dead: string)
    requires manager.Valid() && |manager.recoveryRepo.events| == 2 && manager.recoveryRepo.events[1].node == dead
    requires RowWithoutBot(manager.State(), tenant, dead)
    modifies manager.recoveryRepo, manager.botInstanceRepo, manager.nodeRepo
    ensures manager.Valid() && |manager.recoveryRepo.events| == 2
    ensures manager.recoveryRepo.events[1].status == Completed && !NobodyWaitsIn(manager.recoveryRepo.items, 1)
  {
    ghost var s0 := manager.State();
    var event := manager.recoveryRepo.events[1];
    var _, report, r := manager.RetryWaiting(1, Always(), 0);
    SecondRetryMisses(s0, manager.State(), event, tenant, dead, r, report);
  }
}
