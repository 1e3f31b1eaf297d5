/** One tenant's recovery attempt, and what a loop of attempts keeps. */
module RecoverySteps {
  import opened Basics
  import opened Counting
  import opened NodeLifecycle
  import opened RecoveryTables

  datatype Fleet = Fleet(nodes: map<string, Node>, bots: seq<Bot>, items: seq<RecoveryItem>)

  datatype Attempt = NoCapacity | Placed(target: string) | Broken(target: string)
  datatype Failure = CommandFailed(bot: nat) | BotNotFound(tenant: string)
  datatype Report = Report(recovered: seq<(nat, string)>, failed: seq<Failure>, waiting: seq<nat>)

  ghost predicate NoRoom(nodes: map<string, Node>, dead: string) {
    forall id :: !Eligible(nodes, dead, TENANT_MB, id)
  }

  /** No other active node has 100 MB left. */
  ghost predicate FullUp(nodes: map<string, Node>, dead: string) {
    forall id | id in nodes && id != dead && nodes[id].status == Active ::
      nodes[id].capacityMb - nodes[id].usedMb < 100
  }

  /** No other active node has more room. */
  ghost predicate Roomiest(nodes: map<string, Node>, dead: string, target: string)
    requires target in nodes
  {
    forall id | id in nodes && id != dead && nodes[id].status == Active ::
      nodes[id].capacityMb - nodes[id].usedMb <= nodes[target].capacityMb - nodes[target].usedMb
  }

  lemma NoRoomMeans(nodes: map<string, Node>, dead: string)
    ensures NoRoom(nodes, dead) <==> FullUp(nodes, dead)
  {
    if NoRoom(nodes, dead) {
      forall id | id in nodes && id != dead && nodes[id].status == Active
        ensures nodes[id].capacityMb - nodes[id].usedMb < 100
      {
        assert !Eligible(nodes, dead, TENANT_MB, id);
      }
    }
  }

  ghost predicate BestTarget(nodes: map<string, Node>, dead: string, target: string) {
    && Eligible(nodes, dead, TENANT_MB, target)
    && forall id | Eligible(nodes, dead, TENANT_MB, id) :: Free(nodes[id]) <= Free(nodes[target])
  }

  /** Which attempts the code can make; `works` says whether the node carries out the commands. */
  ghost predicate Possible(nodes: map<string, Node>, dead: string, works: bool, a: Attempt) {
    match a
    case NoCapacity => NoRoom(nodes, dead)
    case Placed(target) => works && BestTarget(nodes, dead, target)
    case Broken(target) => !works && BestTarget(nodes, dead, target)
  }

  function ItemFor(tenant: string, event: nat, dead: string, retries: nat, a: Attempt): RecoveryItem {
    match a
    case NoCapacity => RecoveryItem(event, tenant, dead, None, WaitingItem, retries)
    case Placed(target) => RecoveryItem(event, tenant, dead, Some(target), RecoveredItem, retries)
    case Broken(target) => RecoveryItem(event, tenant, dead, Some(target), FailedItem, retries)
  }

  function After(s: Fleet, event: nat, dead: string, bot: nat, retries: nat, a: Attempt): Fleet
    requires bot < |s.bots| && (a.Placed? ==> a.target in s.nodes)
  {
    var items := s.items + [ItemFor(s.bots[bot].tenant, event, dead, retries, a)];
    if a.Placed? then
      Fleet(s.nodes[a.target := Charged(s.nodes[a.target], TENANT_MB)],
        s.bots[bot := s.bots[bot].(node := Some(a.target))], items)
    else s.(items := items)
  }

  function Noted(report: Report, bot: nat, a: Attempt): Report {
    match a
    case NoCapacity => report.(waiting := report.waiting + [bot])
    case Placed(target) => report.(recovered := report.recovered + [(bot, target)])
    case Broken(_) => report.(failed := report.failed + [CommandFailed(bot)])
  }

  function Size(report: Report): nat { |report.recovered| + |report.failed| + |report.waiting| }

  // ---- Capacity over a loop of attempts ----

  /** Every placement took one slot, and no node that was within capacity left it. */
  ghost predicate CapacityUsed(nodes0: map<string, Node>, nodes: map<string, Node>, dead: string, placed: nat) {
    && UsageKnown(nodes)
    && NotOvercommitted(nodes0, nodes)
    && Slots(nodes, dead) == Slots(nodes0, dead) - placed
    && (dead in nodes0 ==> nodes[dead] == nodes0[dead])
    && (forall id | id in nodes0 ::
      nodes[id].status == nodes0[id].status && nodes[id].capacityMb == nodes0[id].capacityMb)
  }

  lemma AttemptUsesCapacity(nodes0: map<string, Node>, s: Fleet, event: nat, dead: string, bot: nat, retries: nat,
                            works: bool,
                            a: Attempt, placed: nat)
    requires CapacityUsed(nodes0, s.nodes, dead, placed) && bot < |s.bots| && Possible(s.nodes, dead, works, a)
    ensures CapacityUsed(nodes0, After(s, event, dead, bot, retries, a).nodes, dead, if a.Placed? then placed + 1
      else placed)
  {
    if a.Placed? { ChargingTakesOneSlot(s.nodes, dead, a.target); }
  }

  // ---- Rows and bots over one attempt ----

  lemma AttemptAddsRow(s: Fleet, event: nat, dead: string, bot: nat, retries: nat, a: Attempt, tenant: string,
                       source: string)
    requires bot < |s.bots| && (a.Placed? ==> a.target in s.nodes)
    ensures Count(After(s, event, dead, bot, retries, a).items, WaitingFor(tenant, source))
         == Count(s.items, WaitingFor(tenant, source))
            + if a.NoCapacity? && s.bots[bot].tenant == tenant && source == dead then 1 else 0
  {
    CountAppend(s.items, ItemFor(s.bots[bot].tenant, event, dead, retries, a), WaitingFor(tenant, source));
  }

  lemma AttemptMovesBot(s: Fleet, event: nat, dead: string, bot: nat, retries: nat, a: Attempt, tenant: string,
                        source: string)
    requires bot < |s.bots| && (a.Placed? ==> a.target in s.nodes && a.target != dead) && s.bots[bot].node == Some(dead)
    ensures var bots' := After(s, event, dead, bot, retries, a).bots;
      if source == dead then
        Count(bots', BotOf(tenant, dead)) == Count(s.bots, BotOf(tenant, dead)) -
          if a.Placed? && s.bots[bot].tenant == tenant then 1 else 0
      else
        Count(bots', BotOf(tenant, source)) >= Count(s.bots, BotOf(tenant, source))
  {
    if a.Placed? { CountUpdate(s.bots, bot, s.bots[bot].(node := Some(a.target)), BotOf(tenant, source)); }
  }

  // ---- The first round: triggerRecovery ----

  predicate Distinct(tenants: seq<nat>) { forall i, j | 0 <= i < j < |tenants| :: tenants[i] != tenants[j] }

  function FailureOf(bots: seq<Bot>, tenant: string): Failure -> bool {
    (f: Failure) => f.CommandFailed? && f.bot < |bots| && bots[f.bot].tenant == tenant
  }

  /** Who waits is a suffix of those handled: once one finds no room, none after finds any. */
  ghost predicate GreedySoFar(nodes: map<string, Node>, dead: string, tenants: seq<nat>, i: nat, report: Report) {
    && i <= |tenants|
    && Size(report) == i
    && report.waiting == tenants[i - |report.waiting|..i]
    && (report.waiting != [] ==> NoRoom(nodes, dead))
  }

  lemma GreedyStep(s: Fleet, event: nat, dead: string, tenants: seq<nat>, i: nat, report: Report, works: bool,
                   a: Attempt)
    requires i < |tenants| && tenants[i] < |s.bots| && GreedySoFar(s.nodes, dead, tenants, i, report)
    requires Possible(s.nodes, dead, works, a)
    ensures GreedySoFar(After(s, event, dead, tenants[i], 0, a).nodes, dead, tenants, i + 1,
      Noted(report, tenants[i], a))
  {}

  ghost predicate FreshRow(item: RecoveryItem, e: nat, dead: string, tenant: string) {
    item.event == e && item.source == dead && item.retryCount == 0 && item.tenant == tenant
  }

  /** One new row per handled tenant, of this event, never tried before; the waiting ones are as many as reported. */
  ghost predicate FreshRows(items0: seq<RecoveryItem>, items: seq<RecoveryItem>, bots: seq<Bot>, e: nat, dead: string,
                            tenants: seq<nat>,
                            waiting: nat, i: nat) {
    && i <= |tenants| && (forall k | 0 <= k < |tenants| :: tenants[k] < |bots|)
    && items0 <= items && |items| == |items0| + i
    && (forall k | |items0| <= k < |items| :: FreshRow(items[k], e, dead, bots[tenants[k - |items0|]].tenant))
    && Count(items, WaitingIn(e)) == Count(items0, WaitingIn(e)) + waiting
  }

  lemma FreshRowsStep(items0: seq<RecoveryItem>, s: Fleet, bots: seq<Bot>, e: nat, dead: string, tenants: seq<nat>,
                      waiting: nat, i: nat, a: Attempt)
    requires FreshRows(items0, s.items, bots, e, dead, tenants, waiting, i) && i < |tenants| && tenants[i] < |s.bots|
    requires (a.Placed? ==> a.target in s.nodes) && s.bots[tenants[i]].tenant == bots[tenants[i]].tenant
    ensures FreshRows(items0, After(s, e, dead, tenants[i], 0, a).items, bots, e, dead, tenants,
                      if a.NoCapacity? then waiting + 1 else waiting, i + 1)
  {
    var item := ItemFor(s.bots[tenants[i]].tenant, e, dead, 0, a);
    CountAppend(s.items, item, WaitingIn(e));
    assert FreshRow(item, e, dead, bots[tenants[i]].tenant);
    var items' := s.items + [item];
    forall k | |items0| <= k < |items'| ensures FreshRow(items'[k], e, dead, bots[tenants[k - |items0|]].tenant) {
      if k < |s.items| { assert items'[k] == s.items[k]; }
    }
  }

  function RecoveredBots(report: Report): set<nat> { set r | r in report.recovered :: r.0 }

  /** The recovered bots are where the report says, and no other has moved. */
  ghost predicate BotsFollow(bots0: seq<Bot>, bots: seq<Bot>, tenants: seq<nat>, i: nat, report: Report) {
    && |bots| == |bots0| && i <= |tenants|
    && (forall k | 0 <= k < |tenants| :: tenants[k] < |bots0|)
    && (forall b | 0 <= b < |bots| :: bots[b].tenant == bots0[b].tenant)
    && (forall k | i <= k < |tenants| :: bots[tenants[k]] == bots0[tenants[k]])
    && (forall b: nat | b < |bots| && b !in RecoveredBots(report) :: bots[b] == bots0[b])
    && (forall r | r in report.recovered :: r.0 in tenants[..i] && bots[r.0] == bots0[r.0].(node := Some(r.1)))
  }

  lemma BotsFollowStep(bots0: seq<Bot>, s: Fleet, e: nat, dead: string, tenants: seq<nat>, i: nat, report: Report,
                       a: Attempt)
    requires Distinct(tenants) && i < |tenants| && BotsFollow(bots0, s.bots, tenants, i, report)
    requires a.Placed? ==> a.target in s.nodes
    ensures BotsFollow(bots0, After(s, e, dead, tenants[i], 0, a).bots, tenants, i + 1, Noted(report, tenants[i], a))
  {
    var report' := Noted(report, tenants[i], a);
    assert tenants[..i + 1] == tenants[..i] + [tenants[i]];
    assert tenants[i] !in tenants[..i];
    assert RecoveredBots(report') == RecoveredBots(report) + if a.Placed? then {tenants[i]} else {} by {
      if a.Placed? { assert report'.recovered[|report.recovered|] == (tenants[i], a.target); }
    }
  }

  /** For a tenant: the bots left on the node are those not yet handled, those waiting and those that failed. */
  ghost predicate TenantBalance(s0: Fleet, s: Fleet, dead: string, tenants: seq<nat>, i: nat, report: Report,
                                tenant: string) {
    && i <= |tenants|
    && Count(s.bots, BotOf(tenant, dead))
       == Count<int>(tenants[i..], HasTenant(s0.bots, tenant)) + Count<int>(report.waiting, HasTenant(s0.bots, tenant))
          + Count(report.failed, FailureOf(s0.bots, tenant))
    && Count(s.items, WaitingFor(tenant, dead))
       == Count(s0.items, WaitingFor(tenant, dead)) + Count<int>(report.waiting, HasTenant(s0.bots, tenant))
  }

  ghost predicate AllBalance(s0: Fleet, s: Fleet, dead: string, tenants: seq<nat>, i: nat, report: Report) {
    forall tenant :: TenantBalance(s0, s, dead, tenants, i, report, tenant)
  }

  ghost predicate OtherSources(s0: Fleet, s: Fleet, dead: string) {
    forall tenant, source | source != dead ::
      && Count(s.items, WaitingFor(tenant, source)) == Count(s0.items, WaitingFor(tenant, source))
      && Count(s.bots, BotOf(tenant, source)) >= Count(s0.bots, BotOf(tenant, source))
  }

  lemma {:induction false} CountDropFirst<T>(rows: seq<T>, p: T -> bool)
    requires rows != []
    ensures Count(rows, p) == Count(rows[1..], p) + if p(rows[0]) then 1 else 0
  {
    assert rows == [rows[0]] + rows[1..];
    CountConcat([rows[0]], rows[1..], p);
    CountAppend([], rows[0], p);
    assert [] + [rows[0]] == [rows[0]];
  }

  lemma TenantBalanceStep(s0: Fleet, s: Fleet, e: nat, dead: string, tenants: seq<nat>, i: nat, report: Report,
                          a: Attempt, tenant: string)
    requires i < |tenants| && BotsFollow(s0.bots, s.bots, tenants, i, report)
    requires s0.bots[tenants[i]].node == Some(dead)
    requires a.Placed? ==> a.target in s.nodes && a.target != dead
    requires TenantBalance(s0, s, dead, tenants, i, report, tenant)
    ensures TenantBalance(s0, After(s, e, dead, tenants[i], 0, a), dead, tenants, i + 1, Noted(report, tenants[i], a),
      tenant)
  {
    var b := tenants[i];
    AttemptAddsRow(s, e, dead, b, 0, a, tenant, dead);
    AttemptMovesBot(s, e, dead, b, 0, a, tenant, dead);
    assert tenants[i..][1..] == tenants[i + 1..];
    CountDropFirst<int>(tenants[i..], HasTenant(s0.bots, tenant));
    CountAppend<int>(report.waiting, b, HasTenant(s0.bots, tenant));
    CountAppend(report.failed, CommandFailed(b), FailureOf(s0.bots, tenant));
  }

  lemma TenantBalancesStep(s0: Fleet, s: Fleet, e: nat, dead: string, tenants: seq<nat>, i: nat, report: Report,
                           a: Attempt)
    requires i < |tenants| && BotsFollow(s0.bots, s.bots, tenants, i, report) && s0.bots[tenants[i]].node == Some(dead)
    requires a.Placed? ==> a.target in s.nodes && a.target != dead
    requires AllBalance(s0, s, dead, tenants, i, report)
    ensures AllBalance(s0, After(s, e, dead, tenants[i], 0, a), dead, tenants, i + 1, Noted(report, tenants[i], a))
  {
    var s', report', next := After(s, e, dead, tenants[i], 0, a), Noted(report, tenants[i], a), i + 1;
    forall tenant ensures TenantBalance(s0, s', dead, tenants, next, report', tenant) {
      TenantBalanceStep(s0, s, e, dead, tenants, i, report, a, tenant);
    }
  }

  lemma OtherSourcesStep(s0: Fleet, s: Fleet, e: nat, dead: string, bot: nat, retries: nat, a: Attempt)
    requires bot < |s.bots| && s.bots[bot].node == Some(dead) && (a.Placed? ==> a.target in s.nodes && a.target != dead)
    requires OtherSources(s0, s, dead)
    ensures OtherSources(s0, After(s, e, dead, bot, retries, a), dead)
  {
    var s' := After(s, e, dead, bot, retries, a);
    forall tenant, source | source != dead
      ensures Count(s'.items, WaitingFor(tenant, source)) == Count(s0.items, WaitingFor(tenant, source))
      ensures Count(s'.bots, BotOf(tenant, source)) >= Count(s0.bots, BotOf(tenant, source))
    {
      AttemptAddsRow(s, e, dead, bot, retries, a, tenant, source);
      AttemptMovesBot(s, e, dead, bot, retries, a, tenant, source);
    }
  }

  /** All that a loop of first attempts keeps. */
  ghost predicate Triaged(s0: Fleet, s: Fleet, e: nat, dead: string, tenants: seq<nat>, i: nat, report: Report) {
    && GreedySoFar(s.nodes, dead, tenants, i, report)
    && CapacityUsed(s0.nodes, s.nodes, dead, |report.recovered|)
    && FreshRows(s0.items, s.items, s0.bots, e, dead, tenants, |report.waiting|, i)
    && BotsFollow(s0.bots, s.bots, tenants, i, report)
    && AllBalance(s0, s, dead, tenants, i, report)
    && OtherSources(s0, s, dead)
  }

  lemma TriageStarts(s: Fleet, e: nat, dead: string)
    requires UsageKnown(s.nodes)
    ensures Triaged(s, s, e, dead, ByTier(s.bots, dead), 0, Report([], [], []))
  {
    var tenants := ByTier(s.bots, dead);
    ByTierIsOrdered(s.bots, dead);
    forall tenant ensures TenantBalance(s, s, dead, tenants, 0, Report([], [], []), tenant) {
      ByTierCountsBots(s.bots, tenant, dead);
      assert tenants[0..] == tenants;
    }
  }

  lemma ListingIsSound(bots: seq<Bot>, dead: string, i: nat)
    requires i < |ByTier(bots, dead)|
    ensures Distinct(ByTier(bots, dead))
    ensures var b := ByTier(bots, dead)[i]; b < |bots| && bots[b].node == Some(dead)
  {
    ByTierIsOrdered(bots, dead);
    assert ByTier(bots, dead)[i] in ByTier(bots, dead);
  }

  lemma TriageStep(s0: Fleet, s: Fleet, e: nat, dead: string, tenants: seq<nat>, i: nat, report: Report, works: bool,
                   a: Attempt)
    requires Distinct(tenants) && i < |tenants| && tenants[i] < |s0.bots| && s0.bots[tenants[i]].node == Some(dead)
    requires Triaged(s0, s, e, dead, tenants, i, report) && Possible(s.nodes, dead, works, a)
    ensures Triaged(s0, After(s, e, dead, tenants[i], 0, a), e, dead, tenants, i + 1, Noted(report, tenants[i], a))
  {
    GreedyStep(s, e, dead, tenants, i, report, works, a);
    AttemptUsesCapacity(s0.nodes, s, e, dead, tenants[i], 0, works, a, |report.recovered|);
    FreshRowsStep(s0.items, s, s0.bots, e, dead, tenants, |report.waiting|, i, a);
    BotsFollowStep(s0.bots, s, e, dead, tenants, i, report, a);
    OtherSourcesStep(s0, s, e, dead, tenants[i], 0, a);
    TenantBalancesStep(s0, s, e, dead, tenants, i, report, a);
  }

  /** Nobody waits while there is room; without command failures as many are placed as any placement could. */
  lemma TriageIsOptimal(s0: Fleet, s: Fleet, e: nat, dead: string, report: Report)
    requires var tenants := ByTier(s0.bots, dead); Triaged(s0, s, e, dead, tenants, |tenants|, report)
    ensures |report.recovered| <= Slots(s0.nodes, dead)
    ensures report.waiting != [] ==> |report.recovered| == Slots(s0.nodes, dead)
    ensures var n, slots := |ByTier(s0.bots, dead)|, Slots(s0.nodes, dead);
      report.failed == [] ==> |report.recovered| == if n <= slots then n else slots
  {
    SlotsAreNonNegative(s.nodes, dead);
    if report.waiting != [] { NoTargetMeansNoSlots(s.nodes, dead); }
  }

  lemma SuffixIsLast(tenants: seq<nat>, waiting: seq<nat>, b: nat, w: nat) returns (i: nat, j: nat)
    requires |waiting| <= |tenants| && waiting == tenants[|tenants| - |waiting|..]
    requires w in waiting && b in tenants && b !in waiting
    ensures i < j < |tenants| && tenants[i] == b && tenants[j] == w
  {
    var cut := |tenants| - |waiting|;
    i :| 0 <= i < |tenants| && tenants[i] == b;
    var x: nat :| x < |waiting| && waiting[x] == w;
    j := cut + x;
    forall k | cut <= k < |tenants| ensures tenants[k] in waiting { assert waiting[k - cut] == tenants[k]; }
  }

  /** Whoever was placed or failed is listed before whoever waits. */
  lemma WaitingComeLast(bots: seq<Bot>, nodes: map<string, Node>, dead: string, tenants: seq<nat>, report: Report,
                        b: nat, w: nat)
    requires tenants == ByTier(bots, dead) && GreedySoFar(nodes, dead, tenants, |tenants|, report)
    requires w in report.waiting && b in tenants && b !in report.waiting
    ensures b < |bots| && w < |bots| && ListedBefore(bots, b, w)
  {
    var i, j := SuffixIsLast(tenants, report.waiting, b, w);
    ByTierInOrder(bots, dead);
  }

  /** No bot that waits has a better tier than one that was placed or failed. */
  ghost predicate ServedByTier(bots: seq<Bot>, report: Report) {
    forall w, b: nat | w in report.waiting && WasServed(report, b) ::
      w < |bots| && b < |bots| && MayPrecede(bots[b].tier, bots[w].tier)
  }

  ghost predicate WasServed(report: Report, b: nat) {
    (exists r | r in report.recovered :: r.0 == b) || CommandFailed(b) in report.failed
  }

  /** The report names only listed bots, each once. */
  ghost predicate ReportsListed(tenants: seq<nat>, i: nat, report: Report) {
    && i <= |tenants|
    && (forall r | r in report.recovered :: r.0 in tenants[..i] && r.0 !in report.waiting)
    && (forall b | CommandFailed(b) in report.failed :: b in tenants[..i] && b !in report.waiting)
    && (forall w | w in report.waiting :: w in tenants[..i])
  }

  lemma ReportsNext(tenants: seq<nat>, i: nat, report: Report, a: Attempt)
    requires Distinct(tenants) && i < |tenants| && ReportsListed(tenants, i, report)
    ensures ReportsListed(tenants, i + 1, Noted(report, tenants[i], a))
  {
    assert tenants[..i + 1] == tenants[..i] + [tenants[i]];
    assert tenants[i] !in tenants[..i];
  }

  lemma ServedBeforeWaiting(bots: seq<Bot>, dead: string, tenants: seq<nat>, waiting: seq<nat>, b: nat, w: nat)
    requires tenants == ByTier(bots, dead) && |waiting| <= |tenants|
    requires waiting == tenants[|tenants| - |waiting|..] && w in waiting && b in tenants && b !in waiting
    ensures w < |bots| && b < |bots| && MayPrecede(bots[b].tier, bots[w].tier)
  {
    var i, j := SuffixIsLast(tenants, waiting, b, w);
    TiersInTurn(bots, dead, i, j);
  }

  lemma ServedAreListed(tenants: seq<nat>, report: Report, b: nat)
    requires ReportsListed(tenants, |tenants|, report) && WasServed(report, b)
    ensures b in tenants && b !in report.waiting
  {
    assert tenants[..|tenants|] == tenants;
  }

  lemma ServedInTierOrder(bots: seq<Bot>, nodes: map<string, Node>, dead: string, tenants: seq<nat>, report: Report)
    requires tenants == ByTier(bots, dead) && GreedySoFar(nodes, dead, tenants, |tenants|, report)
    requires ReportsListed(tenants, |tenants|, report)
    ensures ServedByTier(bots, report)
  {
    forall w, b: nat | w in report.waiting && WasServed(report, b)
      ensures w < |bots| && b < |bots| && MayPrecede(bots[b].tier, bots[w].tier)
    {
      ServedAreListed(tenants, report, b);
      ServedBeforeWaiting(bots, dead, tenants, report.waiting, b, w);
    }
  }

  lemma TriageServesByTier(s0: Fleet, s: Fleet, e: nat, dead: string, report: Report)
    requires var tenants := ByTier(s0.bots, dead);
      Triaged(s0, s, e, dead, tenants, |tenants|, report) && ReportsListed(tenants, |tenants|, report)
    ensures ServedByTier(s0.bots, report)
  {
    ServedInTierOrder(s0.bots, s.nodes, dead, ByTier(s0.bots, dead), report);
  }

  // ---- What the rows say ----

  /** The row of a bot tells what became of it. */
  ghost predicate RowTells(item: RecoveryItem, b: nat, report: Report) {
    match item.status
    case RecoveredItem => item.target.Some? && (b, item.target.value) in report.recovered
    case FailedItem => item.target.Some? && CommandFailed(b) in report.failed
    case WaitingItem => item.target.None? && b in report.waiting
    case RetriedItem => false
  }

  ghost predicate RowsTell(items0: seq<RecoveryItem>, items: seq<RecoveryItem>, tenants: seq<nat>, i: nat,
                           report: Report) {
    && i <= |tenants| && |items| == |items0| + i
    && forall k | 0 <= k < i :: RowTells(items[|items0| + k], tenants[k], report)
  }

  lemma RowTellsStill(item: RecoveryItem, b: nat, report: Report, bot: nat, a: Attempt)
    requires RowTells(item, b, report)
    ensures RowTells(item, b, Noted(report, bot, a))
  {}

  lemma RowsTellNext(items0: seq<RecoveryItem>, s: Fleet, e: nat, dead: string, tenants: seq<nat>, i: nat,
                     report: Report, a: Attempt)
    requires RowsTell(items0, s.items, tenants, i, report) && i < |tenants| && tenants[i] < |s.bots|
    requires a.Placed? ==> a.target in s.nodes
    ensures RowsTell(items0, After(s, e, dead, tenants[i], 0, a).items, tenants, i + 1, Noted(report, tenants[i], a))
  {
    var items', report' := After(s, e, dead, tenants[i], 0, a).items, Noted(report, tenants[i], a);
    forall k | 0 <= k < i + 1 ensures RowTells(items'[|items0| + k], tenants[k], report') {
      if k < i {
        RowTellsStill(s.items[|items0| + k], tenants[k], report, tenants[i], a);
      } else {
        LastRowTells(s.bots[tenants[i]].tenant, e, dead, report, tenants[i], a);
      }
    }
  }

  lemma LastRowTells(tenant: string, e: nat, dead: string, report: Report, b: nat, a: Attempt)
    ensures RowTells(ItemFor(tenant, e, dead, 0, a), b, Noted(report, b, a))
  {
    match a
    case NoCapacity => assert Noted(report, b, a).waiting[|report.waiting|] == b;
    case Placed(target) => assert Noted(report, b, a).recovered[|report.recovered|] == (b, target);
    case Broken(_) => assert Noted(report, b, a).failed[|report.failed|] == CommandFailed(b);
  }

  // ---- The course of a first round, from the slots and the replies alone ----

  datatype Course = Course(placed: nat, failed: seq<nat>)

  /** Each listed bot is placed or fails as its reply says while there are slots left; after that all wait. */
  function TriageCourse(tenants: seq<nat>, slots: int, replies: nat -> bool): Course {
    if tenants == [] then Course(0, []) else
      var n := |tenants| - 1;
      var before := TriageCourse(tenants[..n], slots, replies);
      if before.placed >= slots then before
      else if replies(n) then before.(placed := before.placed + 1)
      else before.(failed := before.failed + [tenants[n]])
  }

  function CommandFailures(bots: seq<nat>): (r: seq<Failure>)
    ensures |r| == |bots| && forall x | 0 <= x < |r| :: r[x] == CommandFailed(bots[x])
  {
    seq(|bots|, x requires 0 <= x < |bots| => CommandFailed(bots[x]))
  }

  ghost predicate FollowsCourse(nodes0: map<string, Node>, dead: string, tenants: seq<nat>, replies: nat -> bool,
                                report: Report) {
    var course := TriageCourse(tenants, Slots(nodes0, dead), replies);
    |report.recovered| == course.placed && report.failed == CommandFailures(course.failed)
  }

  lemma NoRoomIffNoSlots(nodes: map<string, Node>, dead: string)
    requires UsageKnown(nodes)
    ensures NoRoom(nodes, dead) <==> Slots(nodes, dead) == 0
  {
    if NoRoom(nodes, dead) {
      NoTargetMeansNoSlots(nodes, dead);
    } else {
      var id :| Eligible(nodes, dead, TENANT_MB, id);
      ChargingTakesOneSlot(nodes, dead, id);
      SlotsAreNonNegative(nodes[id := Charged(nodes[id], TENANT_MB)], dead);
    }
  }

  lemma CourseStep(nodes0: map<string, Node>, nodes: map<string, Node>, dead: string, tenants: seq<nat>, i: nat,
                   report: Report,
                   replies: nat -> bool, a: Attempt)
    requires i < |tenants| && FollowsCourse(nodes0, dead, tenants[..i], replies, report)
    requires CapacityUsed(nodes0, nodes, dead, |report.recovered|) && Possible(nodes, dead, replies(i), a)
    ensures FollowsCourse(nodes0, dead, tenants[..i + 1], replies, Noted(report, tenants[i], a))
  {
    assert tenants[..i + 1][..i] == tenants[..i];
    NoRoomIffNoSlots(nodes, dead);
    SlotsAreNonNegative(nodes, dead);
  }

  lemma {:induction false} FailuresCounted(bots: seq<Bot>, failed: seq<nat>, tenant: string)
    ensures Count(CommandFailures(failed), FailureOf(bots, tenant)) == Count<int>(failed, HasTenant(bots, tenant))
  {
    if failed != [] {
      var n := |failed| - 1;
      FailuresCounted(bots, failed[..n], tenant);
      assert CommandFailures(failed)[..n] == CommandFailures(failed[..n]);
    }
  }

  /** Whoever had rows waiting for the node has as many bots fail in the round. */
  ghost predicate FailuresCoverWaiting(s: Fleet, dead: string, replies: nat -> bool) {
    var failed := TriageCourse(ByTier(s.bots, dead), Slots(s.nodes, dead), replies).failed;
    forall tenant :: Count(s.items, WaitingFor(tenant, dead)) <= Count<int>(failed, HasTenant(s.bots, tenant))
  }

  ghost predicate NobodyWaitsFor(items: seq<RecoveryItem>, node: string) {
    forall tenant :: Count(items, WaitingFor(tenant, node)) == 0
  }

  /**
   The waiting rows stay backed exactly when the failures of the round make up for the rows that already waited for the
   node.
   */
  lemma TriageKeepsBackingIff(s0: Fleet, s: Fleet, e: nat, dead: string, report: Report, replies: nat -> bool)
    requires var tenants := ByTier(s0.bots, dead); Triaged(s0, s, e, dead, tenants, |tenants|, report)
    requires FollowsCourse(s0.nodes, dead, ByTier(s0.bots, dead), replies, report)
    requires Backed(s0.bots, s0.items)
    ensures Backed(s.bots, s.items) <==> FailuresCoverWaiting(s0, dead, replies)
  {
    var tenants := ByTier(s0.bots, dead);
    var failed := TriageCourse(tenants, Slots(s0.nodes, dead), replies).failed;
    forall tenant
      ensures Count(s.items, WaitingFor(tenant, dead)) <= Count(s.bots, BotOf(tenant, dead))
         <==> Count(s0.items, WaitingFor(tenant, dead)) <= Count<int>(failed, HasTenant(s0.bots, tenant))
    {
      assert TenantBalance(s0, s, dead, tenants, |tenants|, report, tenant);
      FailuresCounted(s0.bots, failed, tenant);
    }
  }

  /** Nothing fails when every command works, nor when there is no slot to try. */
  lemma {:induction false} NothingFails(tenants: seq<nat>, slots: int, replies: nat -> bool)
    requires slots <= 0 || forall n | 0 <= n < |tenants| :: replies(n)
    ensures TriageCourse(tenants, slots, replies).failed == []
  {
    if tenants != [] { NothingFails(tenants[..|tenants| - 1], slots, replies); }
  }

  lemma CoveredByNothing(s: Fleet, dead: string, replies: nat -> bool)
    requires TriageCourse(ByTier(s.bots, dead), Slots(s.nodes, dead), replies).failed == []
    ensures FailuresCoverWaiting(s, dead, replies) <==> NobodyWaitsFor(s.items, dead)
  {
    forall tenant ensures Count<int>([], HasTenant(s.bots, tenant)) == 0 {}
  }

  /** Whatever the replies, a round keeps the rows backed exactly when nobody waited for the node before. */
  lemma AlwaysKeepsBackingIff(s: Fleet, dead: string)
    ensures (forall replies: nat -> bool :: FailuresCoverWaiting(s, dead, replies)) <==> NobodyWaitsFor(s.items, dead)
  {
    var works := (n: nat) => true;
    NothingFails(ByTier(s.bots, dead), Slots(s.nodes, dead), works);
    CoveredByNothing(s, dead, works);
    if forall replies: nat -> bool :: FailuresCoverWaiting(s, dead, replies) {
      assert FailuresCoverWaiting(s, dead, works);
    }
  }

  /** Having no slot to use does not help: then every bot waits once more than before. */
  lemma WithoutSlotsBackedIff(s: Fleet, dead: string, replies: nat -> bool)
    requires Slots(s.nodes, dead) == 0
    ensures FailuresCoverWaiting(s, dead, replies) <==> NobodyWaitsFor(s.items, dead)
  {
    NothingFails(ByTier(s.bots, dead), 0, replies);
    CoveredByNothing(s, dead, replies);
  }
}
