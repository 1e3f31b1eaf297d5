/** The bot, event and item tables of node recovery, and what makes their counters add up. */
module RecoveryTables {
  import opened Basics
  import opened Counting
  import opened NodeLifecycle

  datatype Tier = Enterprise | Pro | Starter | FreeTier
  datatype Bot = Bot(tenant: string, node: Option<string>, tier: Option<Tier>)

  datatype EventStatus = InProgress | Partial | Completed
  datatype RecoveryEvent = RecoveryEvent(node: string, status: EventStatus, total: nat, recovered: nat, failed: nat,
                                         waiting: nat, startedAt: int)

  datatype ItemStatus = RecoveredItem | FailedItem | WaitingItem | RetriedItem
  datatype RecoveryItem = RecoveryItem(event: nat, tenant: string, source: string, target: Option<string>,
                                       status: ItemStatus, retryCount: nat)

  const TENANT_MB: int := 100
  const MAX_RETRY_ATTEMPTS: nat := 5
  const MAX_WAITING_DURATION_S: int := 24 * 60 * 60

  // ---- Row conditions ----

  function WaitingIn(e: nat): RecoveryItem -> bool { (i: RecoveryItem) => i.event == e && i.status == WaitingItem }
  function WaitingFor(tenant: string, source: string): RecoveryItem -> bool {
    (i: RecoveryItem) => i.tenant == tenant && i.source == source && i.status == WaitingItem
  }
  function BotOf(tenant: string, node: string): Bot -> bool {
    (b: Bot) => b.tenant == tenant && b.node == Some(node)
  }

  function Rank(tier: Option<Tier>): nat {
    match tier
    case Some(Enterprise) => 1
    case Some(Pro) => 2
    case Some(Starter) => 3
    case _ => 4
  }

  function RankedBotOn(node: string, rank: nat): Bot -> bool {
    (b: Bot) => b.node == Some(node) && Rank(b.tier) == rank
  }

  /** The bots of a node, by tier and then by id. */
  function ByTier(bots: seq<Bot>, node: string): seq<nat> {
    Positions(bots, RankedBotOn(node, 1)) + Positions(bots, RankedBotOn(node, 2))
    + Positions(bots, RankedBotOn(node, 3)) + Positions(bots, RankedBotOn(node, 4))
  }

  /** Bot a is listed before bot b: a better tier, or the same tier and a smaller id. */
  predicate ListedBefore(bots: seq<Bot>, a: nat, b: nat)
    requires a < |bots| && b < |bots|
  {
    Rank(bots[a].tier) < Rank(bots[b].tier) || (Rank(bots[a].tier) == Rank(bots[b].tier) && a < b)
  }

  ghost predicate InOrder(bots: seq<Bot>, ids: seq<nat>) {
    && (forall k | 0 <= k < |ids| :: ids[k] < |bots|)
    && (forall i, j | 0 <= i < j < |ids| :: ListedBefore(bots, ids[i], ids[j]))
  }

  ghost predicate RanksAre(bots: seq<Bot>, ids: seq<nat>, node: string, lo: nat, hi: nat) {
    forall k | 0 <= k < |ids| ::
      ids[k] < |bots| && bots[ids[k]].node == Some(node) && lo <= Rank(bots[ids[k]].tier) <= hi
  }

  lemma RankedInOrder(bots: seq<Bot>, node: string, rank: nat)
    ensures InOrder(bots, Positions(bots, RankedBotOn(node, rank)))
    ensures RanksAre(bots, Positions(bots, RankedBotOn(node, rank)), node, rank, rank)
  {
    PositionsAre(bots, RankedBotOn(node, rank));
  }

  lemma ConcatInOrder(bots: seq<Bot>, node: string, a: seq<nat>, b: seq<nat>, lo: nat, mid: nat)
    requires InOrder(bots, a) && InOrder(bots, b) && lo <= mid && RanksAre(bots, a, node, lo, mid)
    requires RanksAre(bots, b, node, mid + 1, mid + 1)
    ensures InOrder(bots, a + b) && RanksAre(bots, a + b, node, lo, mid + 1)
  {}

  /** The listing is ordered by tier and then by id. */
  lemma ByTierInOrder(bots: seq<Bot>, node: string)
    ensures InOrder(bots, ByTier(bots, node)) && RanksAre(bots, ByTier(bots, node), node, 1, 4)
  {
    var p1, p2, p3, p4 := Positions(bots, RankedBotOn(node, 1)), Positions(bots, RankedBotOn(node, 2)),
                          Positions(bots, RankedBotOn(node, 3)), Positions(bots, RankedBotOn(node, 4));
    RankedInOrder(bots, node, 1);
    RankedInOrder(bots, node, 2);
    RankedInOrder(bots, node, 3);
    RankedInOrder(bots, node, 4);
    ConcatInOrder(bots, node, p1, p2, 1, 1);
    ConcatInOrder(bots, node, p1 + p2, p3, 1, 2);
    ConcatInOrder(bots, node, p1 + p2 + p3, p4, 1, 3);
  }

  /** The listing holds each bot of the node once, ordered by tier and then by id. */
  lemma ByTierIsOrdered(bots: seq<Bot>, node: string)
    ensures forall b :: b in ByTier(bots, node) <==> 0 <= b < |bots| && bots[b].node == Some(node)
    ensures InOrder(bots, ByTier(bots, node))
  {
    ByTierInOrder(bots, node);
    forall b | 0 <= b < |bots| && bots[b].node == Some(node) ensures b in ByTier(bots, node) {
      var k := Rank(bots[b].tier);
      assert RankedBotOn(node, k)(bots[b]);
      PositionsHave(bots, RankedBotOn(node, k), b);
    }
  }

  /** Of two bots listed one after the other the first has no lower tier, and of one tier the smaller id. */
  predicate MayPrecede(a: Option<Tier>, b: Option<Tier>) {
    match b
    case Some(Enterprise) => a == Some(Enterprise)
    case Some(Pro) => a == Some(Enterprise) || a == Some(Pro)
    case Some(Starter) => a == Some(Enterprise) || a == Some(Pro) || a == Some(Starter)
    case _ => true
  }

  /** Enterprise bots come first, then pro, starter, and last those that are free or without a tier. */
  lemma TiersInTurn(bots: seq<Bot>, node: string, i: nat, j: nat)
    requires i < j < |ByTier(bots, node)|
    ensures var a, b := ByTier(bots, node)[i], ByTier(bots, node)[j];
      && a < |bots| && b < |bots|
      && (bots[b].tier == Some(Enterprise) ==> bots[a].tier == Some(Enterprise))
      && (bots[b].tier == Some(Pro) ==> bots[a].tier == Some(Enterprise) || bots[a].tier == Some(Pro))
      && (bots[b].tier == Some(Starter) ==> bots[a].tier != Some(FreeTier) && bots[a].tier != None)
      && MayPrecede(bots[a].tier, bots[b].tier) && (bots[a].tier == bots[b].tier ==> a < b)
  {
    ByTierInOrder(bots, node);
  }

  function HasTenant(bots: seq<Bot>, tenant: string): int -> bool {
    (b: int) => 0 <= b < |bots| && bots[b].tenant == tenant
  }

  function RankedTenantOn(tenant: string, node: string, rank: nat): Bot -> bool {
    (b: Bot) => b.tenant == tenant && b.node == Some(node) && Rank(b.tier) == rank
  }

  lemma OneMoreCounted(ids: seq<nat>, rows: seq<Bot>, row: Bot, id: nat, p: Bot -> bool, q: Bot -> bool, h: int -> bool)
    requires Count<int>(ids, h) == Count(rows, q) && (q(row) <==> p(row) && h(id))
    ensures Count<int>(ids + if p(row) then [id] else [], h) == Count(rows + [row], q)
  {
    CountAppend(rows, row, q);
    CountAppendIf<int>(ids, id, p(row), h);
  }

  lemma {:induction false} CountPositions(bots: seq<Bot>, n: nat, tenant: string, node: string, rank: nat)
    requires n <= |bots|
    ensures Count<int>(Positions(bots[..n], RankedBotOn(node, rank)), HasTenant(bots, tenant))
      == Count(bots[..n], RankedTenantOn(tenant, node, rank))
  {
    if n > 0 {
      var p, bot, rest := RankedBotOn(node, rank), bots[n - 1], bots[..n - 1];
      CountPositions(bots, n - 1, tenant, node, rank);
      PositionsAppend(rest, bot, p);
      OneMoreCounted(Positions(rest, p), rest, bot, n - 1, p, RankedTenantOn(tenant, node, rank),
        HasTenant(bots, tenant));
      assert bots[..n] == rest + [bot];
    }
  }

  lemma {:induction false} RanksPartition(bots: seq<Bot>, tenant: string, node: string)
    ensures Count(bots, BotOf(tenant, node))
         == Count(bots, RankedTenantOn(tenant, node, 1)) + Count(bots, RankedTenantOn(tenant, node, 2))
          + Count(bots, RankedTenantOn(tenant, node, 3)) + Count(bots, RankedTenantOn(tenant, node, 4))
  {
    if bots != [] { RanksPartition(bots[..|bots| - 1], tenant, node); }
  }

  /** Per tenant, the listing is as long as the node's table rows. */
  lemma ByTierCountsBots(bots: seq<Bot>, tenant: string, node: string)
    ensures Count<int>(ByTier(bots, node), HasTenant(bots, tenant)) == Count(bots, BotOf(tenant, node))
  {
    var p := HasTenant(bots, tenant);
    var p1, p2, p3, p4 := Positions(bots, RankedBotOn(node, 1)), Positions(bots, RankedBotOn(node, 2)),
                          Positions(bots, RankedBotOn(node, 3)), Positions(bots, RankedBotOn(node, 4));
    CountConcat<int>(p1, p2, p);
    CountConcat<int>(p1 + p2, p3, p);
    CountConcat<int>(p1 + p2 + p3, p4, p);
    assert bots[..|bots|] == bots;
    CountPositions(bots, |bots|, tenant, node, 1);
    CountPositions(bots, |bots|, tenant, node, 2);
    CountPositions(bots, |bots|, tenant, node, 3);
    CountPositions(bots, |bots|, tenant, node, 4);
    RanksPartition(bots, tenant, node);
  }

  // ---- Invariants ----

  /** recovered + failed + waiting = total, and waiting counts the rows still waiting. */
  ghost predicate Settled(event: RecoveryEvent, e: nat, items: seq<RecoveryItem>) {
    && event.recovered + event.failed + event.waiting == event.total
    && event.waiting == Count(items, WaitingIn(e))
    && event.status == if event.waiting > 0 then Partial else Completed
  }

  /** Every item belongs to an event and names that event's node. */
  ghost predicate ItemsBelong(events: seq<RecoveryEvent>, items: seq<RecoveryItem>) {
    forall i | 0 <= i < |items| :: items[i].event < |events| && items[i].source == events[items[i].event].node
  }

  ghost predicate AllSettled(events: seq<RecoveryEvent>, items: seq<RecoveryItem>) {
    forall e | 0 <= e < |events| :: Settled(events[e], e, items)
  }

  /** Each tenant has at least as many bots left on a node as it has rows waiting for that node. */
  ghost predicate Backed(bots: seq<Bot>, items: seq<RecoveryItem>) {
    forall tenant, source :: Count(items, WaitingFor(tenant, source)) <= Count(bots, BotOf(tenant, source))
  }

  ghost predicate UsageKnown(nodes: map<string, Node>) { forall id | id in nodes :: nodes[id].usedMb >= 0 }

  /** All rows waiting in event e have been tried at least k times. */
  ghost predicate TriedAtLeast(items: seq<RecoveryItem>, e: nat, k: nat) {
    forall i | 0 <= i < |items| && WaitingIn(e)(items[i]) :: items[i].retryCount >= k
  }

  /** `items'` differs from `items` only in rows of event e. */
  ghost predicate OnlyEvent(items: seq<RecoveryItem>, items': seq<RecoveryItem>, e: nat) {
    && |items| <= |items'|
    && (forall i | 0 <= i < |items| && items[i].event != e :: items'[i] == items[i])
    && (forall i | 0 <= i < |items| && items[i].event == e :: items'[i].event == e)
    && (forall i | |items| <= i < |items'| :: items'[i].event == e)
  }

  /** Nodes within capacity stay within capacity. */
  ghost predicate NotOvercommitted(nodes: map<string, Node>, nodes': map<string, Node>) {
    && nodes.Keys == nodes'.Keys
    && (forall id | id in nodes && Free(nodes[id]) >= 0 :: Free(nodes'[id]) >= 0)
  }

  lemma {:induction false} OtherEventsKeepCount(items: seq<RecoveryItem>, items': seq<RecoveryItem>, e: nat, other: nat)
    requires OnlyEvent(items, items', e) && other != e
    ensures Count(items', WaitingIn(other)) == Count(items, WaitingIn(other))
  {
    var head, tail := items'[..|items|], items'[|items|..];
    assert items' == head + tail;
    CountConcat(head, tail, WaitingIn(other));
    CountNone(tail, WaitingIn(other));
    CountSame(items, head, WaitingIn(other));
  }

  lemma OtherEventsKeepTries(items: seq<RecoveryItem>, items': seq<RecoveryItem>, e: nat, other: nat, k: nat)
    requires OnlyEvent(items, items', e) && other != e && TriedAtLeast(items, other, k)
    ensures TriedAtLeast(items', other, k)
  {}

  // ---- Free slots ----

  function SlotsAt(nodes: map<string, Node>, dead: string, id: string): int {
    if id in nodes && id != dead && nodes[id].status == Active && Free(nodes[id]) >= 0 then Free(nodes[id]) / TENANT_MB
      else 0
  }

  /** How many tenants the active nodes other than `dead` have room for. */
  ghost function Slots(nodes: map<string, Node>, dead: string): int {
    SumOver(nodes.Keys, (id: string) => SlotsAt(nodes, dead, id))
  }

  lemma SlotsAreNonNegative(nodes: map<string, Node>, dead: string)
    ensures Slots(nodes, dead) >= 0
  {
    SumOfNonNegatives(nodes.Keys, (id: string) => SlotsAt(nodes, dead, id));
  }

  lemma NoTargetMeansNoSlots(nodes: map<string, Node>, dead: string)
    requires forall id :: !Eligible(nodes, dead, TENANT_MB, id)
    ensures Slots(nodes, dead) == 0
  {
    forall id | id in nodes.Keys ensures SlotsAt(nodes, dead, id) == 0 {
      assert !Eligible(nodes, dead, TENANT_MB, id);
    }
    SumOfZeros(nodes.Keys, (id: string) => SlotsAt(nodes, dead, id));
  }

  lemma ChargingTakesOneSlot(nodes: map<string, Node>, dead: string, id: string)
    requires Eligible(nodes, dead, TENANT_MB, id) && nodes[id].usedMb >= 0
    ensures Slots(nodes[id := Charged(nodes[id], TENANT_MB)], dead) == Slots(nodes, dead) - 1
    ensures NotOvercommitted(nodes, nodes[id := Charged(nodes[id], TENANT_MB)])
  {
    var nodes' := nodes[id := Charged(nodes[id], TENANT_MB)];
    var f, g := (x: string) => SlotsAt(nodes, dead, x), (x: string) => SlotsAt(nodes', dead, x);
    assert nodes'.Keys == nodes.Keys;
    assert Free(nodes'[id]) == Free(nodes[id]) - TENANT_MB;
    SumOverChange(nodes.Keys, f, g, id);
  }

  /** The dead node's own row does not matter. */
  lemma DeadNodeHasNoSlots(nodes: map<string, Node>, nodes': map<string, Node>, dead: string)
    requires nodes.Keys == nodes'.Keys && forall id | id in nodes && id != dead :: nodes'[id] == nodes[id]
    ensures Slots(nodes', dead) == Slots(nodes, dead)
  {
    SumOverEqual(nodes.Keys, (id: string) => SlotsAt(nodes, dead, id), (id: string) => SlotsAt(nodes', dead, id));
  }

  function Itself(): string -> string { (t: string) => t }

  /** A placement is a list of targets, one per tenant; it fits if no node takes more than its free capacity. */
  ghost predicate Fits(nodes: map<string, Node>, dead: string, targets: seq<string>) {
    forall id | id in targets ::
      id in nodes && id != dead && nodes[id].status == Active
        && TENANT_MB * Count(targets, Keyed(Itself(), id)) <= Free(nodes[id])
  }

  /** No placement that fits, however clever, serves more tenants than there are slots. */
  lemma NoPlacementBeatsSlots(nodes: map<string, Node>, dead: string, targets: seq<string>)
    requires Fits(nodes, dead, targets)
    ensures |targets| <= Slots(nodes, dead)
  {
    var f := (id: string) => Count(targets, Keyed(Itself(), id));
    RowsAreCountedOnce(nodes.Keys, targets, Itself());
    forall id | id in nodes.Keys ensures f(id) <= SlotsAt(nodes, dead, id) {
      if id !in targets { CountNone(targets, Keyed(Itself(), id)); }
    }
    SumIsMonotone(nodes.Keys, f, (id: string) => SlotsAt(nodes, dead, id));
  }

  // ---- The tables ----

  class BotInstanceRepository {
    var bots: seq<Bot>

    constructor (rows: seq<Bot>)
      ensures bots == rows
    {
      bots := rows;
    }

    method ListByNodeWithTier(node: string) returns (ids: seq<nat>)
      ensures ids == ByTier(bots, node)
    {
      ids := ByTier(bots, node);
    }

    /** The first matching row, if there is one. */
    method FindByTenantAndNode(tenant: string, node: string) returns (found: Option<nat>)
      ensures found.Some? ==> found.value < |bots| && BotOf(tenant, node)(bots[found.value])
      ensures found.None? <==> Count(bots, BotOf(tenant, node)) == 0
    {
      CountNone(bots, BotOf(tenant, node));
      for b := 0 to |bots|
        invariant forall i | 0 <= i < b :: !BotOf(tenant, node)(bots[i])
      {
        if bots[b].tenant == tenant && bots[b].node == Some(node) { return Some(b); }
      }
      found := None;
    }

    method Reassign(id: nat, node: string)
      requires id < |bots|
      modifies this
      ensures bots == old(bots)[id := old(bots)[id].(node := Some(node))]
    {
      bots := bots[id := bots[id].(node := Some(node))];
    }
  }

  class RecoveryRepository {
    var events: seq<RecoveryEvent>
    var items: seq<RecoveryItem>

    constructor ()
      ensures events == [] && items == []
    {
      events, items := [], [];
    }

    method CreateEvent(node: string, total: nat, now: int) returns (id: nat)
      modifies `events
      ensures id == |old(events)| && events == old(events) + [RecoveryEvent(node, InProgress, total, 0, 0, 0, now)]
    {
      id := |events|;
      events := events + [RecoveryEvent(node, InProgress, total, 0, 0, 0, now)];
    }

    method UpdateEvent(id: nat, status: EventStatus, recovered: nat, failed: nat, waiting: nat)
      requires id < |events|
      modifies `events
      ensures events == old(events)[id := old(events)[id].(status := status, recovered := recovered, failed := failed,
        waiting := waiting)]
    {
      events := events[id := events[id].(status := status, recovered := recovered, failed := failed,
        waiting := waiting)];
    }

    method CreateItem(item: RecoveryItem)
      modifies `items
      ensures items == old(items) + [item]
    {
      items := items + [item];
    }

    method UpdateItem(id: nat, status: ItemStatus)
      requires id < |items|
      modifies `items
      ensures items == old(items)[id := old(items)[id].(status := status)]
    {
      items := items[id := items[id].(status := status)];
    }

    method IncrementRetryCount(id: nat)
      requires id < |items|
      modifies `items
      ensures items == old(items)[id := old(items)[id].(retryCount := old(items)[id].retryCount + 1)]
    {
      items := items[id := items[id].(retryCount := items[id].retryCount + 1)];
    }

    method GetWaitingItems(event: nat) returns (ids: seq<nat>)
      ensures ids == Positions(items, WaitingIn(event))
    {
      ids := Positions(items, WaitingIn(event));
    }

    method ListOpenEvents() returns (ids: seq<nat>)
      ensures ids == Positions(events, (e: RecoveryEvent) => e.status != Completed)
    {
      ids := Positions(events, (e: RecoveryEvent) => e.status != Completed);
    }
  }
}
