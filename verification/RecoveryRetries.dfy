/** What retrying an event's waiting rows keeps, row by row. */
module RecoveryRetries {
  import opened Basics
  import opened Counting
  import opened NodeLifecycle
  import opened RecoveryTables
  import opened RecoverySteps

  /** The waiting row is closed as retried; the attempt has already added its successor. */
  function Retired(items: seq<RecoveryItem>, w: nat): seq<RecoveryItem>
    requires w < |items|
  {
    items[w := items[w].(status := RetriedItem, retryCount := items[w].retryCount + 1)]
  }

  ghost predicate SourceIs(items: seq<RecoveryItem>, e: nat, source: string) {
    forall i | 0 <= i < |items| && items[i].event == e :: items[i].source == source
  }

  ghost predicate TriedOrPending(items: seq<RecoveryItem>, e: nat, pending: seq<nat>, k: nat) {
    forall i | 0 <= i < |items| && WaitingIn(e)(items[i]) :: items[i].retryCount > k || i in pending
  }

  /**
   One retry of an event: the state it starts from, the waiting rows it lists, the replies it gets, and how often they
   were tried.
   */
  datatype Retry = Retry(start: Fleet, event: nat, source: string, listed: seq<nat>, replies: nat -> bool, tries: nat)

  function RetryOf(s: Fleet, e: nat, source: string, replies: nat -> bool, tries: nat): Retry {
    Retry(s, e, source, Positions(s.items, WaitingIn(e)), replies, tries)
  }

  /** The listed rows were waiting in the event, each listed once. */
  ghost predicate Lists(r: Retry) {
    && (forall x | 0 <= x < |r.listed| ::
      r.listed[x] < |r.start.items| && WaitingIn(r.event)(r.start.items[r.listed[x]]))
    && (forall x, y | 0 <= x < y < |r.listed| :: r.listed[x] < r.listed[y])
  }

  /**
   After j of the listed rows: the rows still waiting are those not reached, those without a bot and those that wait
   again.
   */
  ghost predicate RowsRetried(r: Retry, items: seq<RecoveryItem>, j: nat, again: nat, notFound: nat) {
    && Lists(r) && j <= |r.listed|
    && Count(items, WaitingIn(r.event)) == |r.listed| - j + notFound + again
    && OnlyEvent(r.start.items, items, r.event) && SourceIs(items, r.event, r.source)
    && (forall x | j <= x < |r.listed| :: items[r.listed[x]] == r.start.items[r.listed[x]])
    && (notFound == 0 ==> TriedOrPending(items, r.event, r.listed[j..], r.tries))
  }

  lemma RetryStarts(r: Retry)
    requires r.listed == Positions(r.start.items, WaitingIn(r.event))
    requires SourceIs(r.start.items, r.event, r.source) && TriedAtLeast(r.start.items, r.event, r.tries)
    ensures RowsRetried(r, r.start.items, 0, 0, 0)
  {
    PositionsAre(r.start.items, WaitingIn(r.event));
    assert r.listed[0..] == r.listed;
  }

  lemma RetiringTries(items: seq<RecoveryItem>, e: nat, w: nat, rest: seq<nat>, k: nat, item: RecoveryItem)
    requires TriedOrPending(items, e, [w] + rest, k) && w < |items| && item.retryCount > k
    ensures TriedOrPending(Retired(items + [item], w), e, rest, k)
  {
    var items' := Retired(items + [item], w);
    forall i | 0 <= i < |items'| && WaitingIn(e)(items'[i]) ensures items'[i].retryCount > k || i in rest {
      if i < |items| { assert i != w && items'[i] == items[i]; }
    }
  }

  lemma RetiringCounts(items: seq<RecoveryItem>, e: nat, w: nat, item: RecoveryItem)
    requires w < |items| && WaitingIn(e)(items[w]) && item.event == e
    ensures Count(Retired(items + [item], w), WaitingIn(e)) == Count(items, WaitingIn(e)) -
      if item.status == WaitingItem then 0 else 1
  {
    CountAppend(items, item, WaitingIn(e));
    CountUpdate(items + [item], w, Retired(items + [item], w)[w], WaitingIn(e));
  }

  lemma RowRetried(r: Retry, items: seq<RecoveryItem>, j: nat, again: nat, notFound: nat, item: RecoveryItem)
    requires RowsRetried(r, items, j, again, notFound) && j < |r.listed|
    requires TriedAtLeast(r.start.items, r.event, r.tries)
    requires item.event == r.event && item.source == r.source
    requires item.retryCount == r.start.items[r.listed[j]].retryCount + 1
    ensures var again' := if item.status == WaitingItem then again + 1 else again;
      RowsRetried(r, Retired(items + [item], r.listed[j]), j + 1, again', notFound)
  {
    var w := r.listed[j];
    assert w in r.listed && items[w] == r.start.items[w];
    RetiringCounts(items, r.event, w, item);
    if notFound == 0 {
      assert r.listed[j..] == [w] + r.listed[j + 1..];
      RetiringTries(items, r.event, w, r.listed[j + 1..], r.tries, item);
    }
  }

  lemma RowSkipped(r: Retry, items: seq<RecoveryItem>, j: nat, again: nat, notFound: nat)
    requires RowsRetried(r, items, j, again, notFound) && j < |r.listed|
    ensures RowsRetried(r, items, j + 1, again, notFound + 1)
  {}

  // ---- Each row is resolved or replaced ----

  /** The row carries on one that waited in event e before: same tenant, one more try. */
  ghost predicate Succeeds(items0: seq<RecoveryItem>, e: nat, item: RecoveryItem) {
    exists j | 0 <= j < |items0| ::
      WaitingIn(e)(items0[j]) && item.tenant == items0[j].tenant && item.retryCount == items0[j].retryCount + 1
  }

  /** A row waiting now is one that was left alone, or the successor of one that was retried. */
  ghost predicate Replaced(items0: seq<RecoveryItem>, items: seq<RecoveryItem>, e: nat) {
    && |items0| <= |items|
    && forall i | 0 <= i < |items| && WaitingIn(e)(items[i]) :: if i < |items0| then items[i] == items0[i]
      else Succeeds(items0, e, items[i])
  }

  lemma ReplacedStep(items0: seq<RecoveryItem>, items: seq<RecoveryItem>, e: nat, w: nat, item: RecoveryItem)
    requires Replaced(items0, items, e) && w < |items0| && WaitingIn(e)(items0[w])
    requires item.tenant == items0[w].tenant && item.retryCount == items0[w].retryCount + 1
    ensures Replaced(items0, Retired(items + [item], w), e)
  {
    var items' := Retired(items + [item], w);
    assert Succeeds(items0, e, item);
    forall i | 0 <= i < |items'| && WaitingIn(e)(items'[i])
      ensures if i < |items0| then items'[i] == items0[i] else Succeeds(items0, e, items'[i])
    {
      if i < |items| { assert i != w && items'[i] == items[i]; }
    }
  }

  ghost predicate BelowCap(items: seq<RecoveryItem>, e: nat) {
    forall i | 0 <= i < |items| && WaitingIn(e)(items[i]) :: items[i].retryCount < MAX_RETRY_ATTEMPTS
  }

  ghost predicate WithinCap(items: seq<RecoveryItem>, e: nat) {
    forall i | 0 <= i < |items| && WaitingIn(e)(items[i]) :: items[i].retryCount <= MAX_RETRY_ATTEMPTS
  }

  lemma RetryStaysWithinCap(items0: seq<RecoveryItem>, items: seq<RecoveryItem>, e: nat)
    requires Replaced(items0, items, e) && BelowCap(items0, e)
    ensures WithinCap(items, e)
  {
    forall i | 0 <= i < |items| && WaitingIn(e)(items[i]) ensures items[i].retryCount <= MAX_RETRY_ATTEMPTS {
      if i >= |items0| {
        var j :| 0 <= j < |items0| && WaitingIn(e)(items0[j]) && items[i].retryCount == items0[j].retryCount + 1;
      }
    }
  }

  // ---- Bots behind the waiting rows ----

  lemma RetryKeepsBacking(s: Fleet, e: nat, dead: string, bot: nat, retries: nat, a: Attempt, w: nat)
    requires Backed(s.bots, s.items) && bot < |s.bots| && w < |s.items|
    requires a.Placed? ==> a.target in s.nodes && a.target != dead
    requires s.bots[bot].node == Some(dead) && WaitingFor(s.bots[bot].tenant, dead)(s.items[w])
    ensures Backed(After(s, e, dead, bot, retries, a).bots, Retired(After(s, e, dead, bot, retries, a).items, w))
  {
    var s' := After(s, e, dead, bot, retries, a);
    forall tenant, source
      ensures Count(Retired(s'.items, w), WaitingFor(tenant, source)) <= Count(s'.bots, BotOf(tenant, source))
    {
      AttemptAddsRow(s, e, dead, bot, retries, a, tenant, source);
      AttemptMovesBot(s, e, dead, bot, retries, a, tenant, source);
      CountUpdate(s'.items, w, Retired(s'.items, w)[w], WaitingFor(tenant, source));
    }
  }

  /** A backed row finds its bot. */
  lemma BackedRowFindsBot(s: Fleet, w: nat)
    requires Backed(s.bots, s.items) && w < |s.items| && s.items[w].status == WaitingItem
    ensures Count(s.bots, BotOf(s.items[w].tenant, s.items[w].source)) > 0
  {
    CountNone(s.items, WaitingFor(s.items[w].tenant, s.items[w].source));
  }

  // ---- The course of a retry, from the rows, bots, slots and replies alone ----

  /** The tenants placed so far, in order, how many rows found no bot, and how many wait again. */
  datatype RetryCourse = RetryCourse(placed: seq<string>, missed: nat, again: nat)

  function Is(tenant: string): string -> bool { (t: string) => t == tenant }

  /** A row is missed once its tenant's bots have all been placed; else it waits if no slot is left, else is tried. */
  function CourseOf(tenants: seq<string>, bots: string -> nat, slots: int, replies: nat -> bool): RetryCourse {
    if tenants == [] then RetryCourse([], 0, 0) else
      var n := |tenants| - 1;
      var before := CourseOf(tenants[..n], bots, slots, replies);
      if Count(before.placed, Is(tenants[n])) >= bots(tenants[n]) then before.(missed := before.missed + 1)
      else if |before.placed| >= slots then before.(again := before.again + 1)
      else if replies(n) then before.(placed := before.placed + [tenants[n]])
      else before
  }

  /** The tenants of the listed rows. */
  function TenantsOf(items: seq<RecoveryItem>, listed: seq<nat>): (r: seq<string>)
    requires forall x | 0 <= x < |listed| :: listed[x] < |items|
    ensures |r| == |listed| && forall x | 0 <= x < |r| :: r[x] == items[listed[x]].tenant
  {
    seq(|listed|, x requires 0 <= x < |listed| => items[listed[x]].tenant)
  }

  function BotsOn(bots: seq<Bot>, node: string): string -> nat { (tenant: string) => Count(bots, BotOf(tenant, node)) }

  ghost function CourseTo(r: Retry, j: nat): RetryCourse
    requires Lists(r) && j <= |r.listed|
  {
    CourseOf(TenantsOf(r.start.items, r.listed)[..j], BotsOn(r.start.bots, r.source), Slots(r.start.nodes, r.source),
      r.replies)
  }

  /** From each tenant's bots those placed are gone. */
  ghost predicate BotsLeft(bots0: seq<Bot>, bots: seq<Bot>, source: string, placed: seq<string>) {
    forall tenant :: Count(bots, BotOf(tenant, source)) == Count(bots0, BotOf(tenant, source)) - Count(placed,
      Is(tenant))
  }

  /** The run has gone as the course says: as many missed, waiting and placed, and those placed gone. */
  ghost predicate OnCourse(r: Retry, bots: seq<Bot>, j: nat, report: Report, notFound: nat) {
    && Lists(r) && j <= |r.listed|
    && notFound == CourseTo(r, j).missed && |report.waiting| == CourseTo(r, j).again
    && |report.recovered| == |CourseTo(r, j).placed|
    && BotsLeft(r.start.bots, bots, r.source, CourseTo(r, j).placed)
  }

  lemma CourseNext(r: Retry, j: nat)
    requires Lists(r) && j < |r.listed|
    ensures var before, tenant := CourseTo(r, j), r.start.items[r.listed[j]].tenant;
      CourseTo(r, j + 1) == if Count(before.placed, Is(tenant)) >= Count(r.start.bots, BotOf(tenant, r.source)) then
                              before.(missed := before.missed + 1)
                            else if |before.placed| >= Slots(r.start.nodes, r.source) then
                              before.(again := before.again + 1)
                            else if r.replies(j) then before.(placed := before.placed + [tenant])
                            else before
  {
    var tenants := TenantsOf(r.start.items, r.listed);
    assert tenants[..j + 1][..j] == tenants[..j];
  }

  lemma OnCourseAtStart(r: Retry)
    requires Lists(r)
    ensures OnCourse(r, r.start.bots, 0, Report([], [], []), 0)
  {
    assert TenantsOf(r.start.items, r.listed)[..0] == [];
  }

  lemma MissedStaysOnCourse(r: Retry, bots: seq<Bot>, j: nat, report: Report, failure: Failure, notFound: nat)
    requires OnCourse(r, bots, j, report, notFound) && j < |r.listed|
    requires Count(bots, BotOf(r.start.items[r.listed[j]].tenant, r.source)) == 0
    ensures OnCourse(r, bots, j + 1, report.(failed := report.failed + [failure]), notFound + 1)
  {
    CourseNext(r, j);
  }

  /** With a bot found, the row is placed or waits just when the course says so. */
  lemma CourseMatchesAttempt(r: Retry, s: Fleet, j: nat, report: Report, notFound: nat, bot: nat, a: Attempt)
    requires OnCourse(r, s.bots, j, report, notFound) && j < |r.listed| && bot < |s.bots|
    requires BotOf(r.start.items[r.listed[j]].tenant, r.source)(s.bots[bot])
    requires CapacityUsed(r.start.nodes, s.nodes, r.source, |report.recovered|)
    requires Possible(s.nodes, r.source, r.replies(j), a)
    ensures var before := CourseTo(r, j);
      CourseTo(r, j + 1) == match a
        case Placed(_) => before.(placed := before.placed + [r.start.items[r.listed[j]].tenant])
        case NoCapacity => before.(again := before.again + 1)
        case Broken(_) => before
  {
    CourseNext(r, j);
    CountNone(s.bots, BotOf(r.start.items[r.listed[j]].tenant, r.source));
    NoRoomIffNoSlots(s.nodes, r.source);
    SlotsAreNonNegative(s.nodes, r.source);
  }

  lemma PlacedBotIsGone(bots0: seq<Bot>, s: Fleet, e: nat, source: string, bot: nat, retries: nat, a: Attempt,
                        placed: seq<string>)
    requires bot < |s.bots| && s.bots[bot].node == Some(source)
    requires (a.Placed? ==> a.target in s.nodes && a.target != source)
    requires BotsLeft(bots0, s.bots, source, placed)
    ensures BotsLeft(bots0, After(s, e, source, bot, retries, a).bots, source,
      if a.Placed? then placed + [s.bots[bot].tenant] else placed)
  {
    var tenant, bots' := s.bots[bot].tenant, After(s, e, source, bot, retries, a).bots;
    var placed' := if a.Placed? then placed + [tenant] else placed;
    forall t ensures Count(bots', BotOf(t, source)) == Count(bots0, BotOf(t, source)) - Count(placed', Is(t)) {
      AttemptMovesBot(s, e, source, bot, retries, a, t, source);
      CountAppend(placed, tenant, Is(t));
    }
  }

  /** A bot of the row's tenant was found, and `a` happened to it. */
  lemma FoundStaysOnCourse(r: Retry, s: Fleet, j: nat, report: Report, notFound: nat, bot: nat, retries: nat,
                           a: Attempt)
    requires OnCourse(r, s.bots, j, report, notFound) && j < |r.listed| && bot < |s.bots|
    requires BotOf(r.start.items[r.listed[j]].tenant, r.source)(s.bots[bot])
    requires CapacityUsed(r.start.nodes, s.nodes, r.source, |report.recovered|)
    requires Possible(s.nodes, r.source, r.replies(j), a)
    ensures OnCourse(r, After(s, r.event, r.source, bot, retries, a).bots, j + 1, Noted(report, bot, a), notFound)
  {
    CourseMatchesAttempt(r, s, j, report, notFound, bot, a);
    PlacedBotIsGone(r.start.bots, s, r.event, r.source, bot, retries, a, CourseTo(r, j).placed);
  }

  // ---- When no row is missed, whatever the replies ----

  /** Each tenant has more bots than can be placed before its last row comes up. */
  ghost predicate EnoughBots(tenants: seq<string>, bots: string -> nat, slots: int) {
    forall t | t in tenants :: Least(Count(tenants, Is(t)) - 1, slots) < bots(t)
  }

  function Least(a: int, b: int): int { if a < b then a else b }

  lemma {:induction false} PlacedAreRows(tenants: seq<string>, bots: string -> nat, slots: int, replies: nat -> bool,
                                         t: string)
    requires slots >= 0
    ensures var placed := CourseOf(tenants, bots, slots, replies).placed;
      Count(placed, Is(t)) <= |placed| <= slots && Count(placed, Is(t)) <= Count(tenants, Is(t))
  {
    if tenants != [] {
      var n := |tenants| - 1;
      PlacedAreRows(tenants[..n], bots, slots, replies, t);
      CountAppend(CourseOf(tenants[..n], bots, slots, replies).placed, tenants[n], Is(t));
    }
  }

  lemma CountOfPrefix(tenants: seq<string>, n: nat, t: string)
    requires n <= |tenants|
    ensures Count(tenants[..n], Is(t)) <= Count(tenants, Is(t))
  {
    assert tenants == tenants[..n] + tenants[n..];
    CountConcat(tenants[..n], tenants[n..], Is(t));
  }

  lemma {:induction false} EnoughMeansNoneMissed(tenants: seq<string>, bots: string -> nat, slots: int,
                                                 replies: nat -> bool, n: nat)
    requires slots >= 0 && EnoughBots(tenants, bots, slots) && n <= |tenants|
    ensures CourseOf(tenants[..n], bots, slots, replies).missed == 0
  {
    if n > 0 {
      var t := tenants[n - 1];
      EnoughMeansNoneMissed(tenants, bots, slots, replies, n - 1);
      assert tenants[..n][..n - 1] == tenants[..n - 1];
      PlacedAreRows(tenants[..n - 1], bots, slots, replies, t);
      CountOfPrefix(tenants, n, t);
      assert t in tenants;
    }
  }

  /** The replies under which only the commands for one tenant work. */
  function OnlyFor(tenants: seq<string>, t: string): nat -> bool { (n: nat) => n < |tenants| && tenants[n] == t }

  /** Then that tenant's bots are placed one by one, and the row after the last of them finds none. */
  lemma {:induction false} FavouriteRunsOut(tenants: seq<string>, bots: string -> nat, slots: int, t: string, n: nat)
    requires n <= |tenants| && bots(t) <= slots
    ensures var course := CourseOf(tenants[..n], bots, slots, OnlyFor(tenants, t));
      && |course.placed| == Count(course.placed, Is(t)) == Least(Count(tenants[..n], Is(t)), bots(t))
      && (Count(tenants[..n], Is(t)) > bots(t) ==> course.missed > 0)
  {
    if n > 0 {
      FavouriteRunsOut(tenants, bots, slots, t, n - 1);
      assert tenants[..n][..n - 1] == tenants[..n - 1];
      CountAppend(CourseOf(tenants[..n - 1], bots, slots, OnlyFor(tenants, t)).placed, tenants[n - 1], Is(t));
    }
  }

  lemma TooFewMeansSomeMissed(tenants: seq<string>, bots: string -> nat, slots: int) returns (replies: nat -> bool)
    requires slots >= 0 && !EnoughBots(tenants, bots, slots)
    ensures CourseOf(tenants, bots, slots, replies).missed > 0
  {
    var t :| t in tenants && Least(Count(tenants, Is(t)) - 1, slots) >= bots(t);
    replies := OnlyFor(tenants, t);
    FavouriteRunsOut(tenants, bots, slots, t, |tenants|);
    assert tenants[..|tenants|] == tenants;
  }

  // ---- The loop over the rows ----

  /** Retrying keeps: sizes, rows, capacity, backing, and who is missed. */
  ghost predicate Retrying(r: Retry, s: Fleet, j: nat, report: Report, notFound: nat) {
    && Size(report) == j && notFound <= |report.failed|
    && (report.waiting != [] ==> NoRoom(s.nodes, r.source))
    && RowsRetried(r, s.items, j, |report.waiting|, notFound)
    && Replaced(r.start.items, s.items, r.event)
    && CapacityUsed(r.start.nodes, s.nodes, r.source, |report.recovered|)
    && (Backed(r.start.bots, r.start.items) ==> notFound == 0 && Backed(s.bots, s.items))
    && OnCourse(r, s.bots, j, report, notFound)
  }

  lemma RetryingStarts(r: Retry)
    requires r.listed == Positions(r.start.items, WaitingIn(r.event)) && UsageKnown(r.start.nodes)
    requires SourceIs(r.start.items, r.event, r.source) && TriedAtLeast(r.start.items, r.event, r.tries)
    ensures Retrying(r, r.start, 0, Report([], [], []), 0)
  {
    RetryStarts(r);
    OnCourseAtStart(r);
  }

  lemma ListedRow(r: Retry, s: Fleet, j: nat, report: Report, notFound: nat)
    requires Retrying(r, s, j, report, notFound) && j < |r.listed|
    ensures var w := r.listed[j];
      w < |r.start.items| && w < |s.items| && s.items[w] == r.start.items[w] && s.items[w].source == r.source
        && WaitingIn(r.event)(s.items[w])
  {
    assert r.listed[j] in r.listed;
  }

  /** The effect of one row's retry; `found` is the bot and what became of it. */
  ghost predicate RowRetry(s: Fleet, s': Fleet, e: nat, source: string, w: nat, report: Report, report': Report,
                           works: bool,
                           found: Option<(nat, Attempt)>)
    requires w < |s.items|
  {
    var item := s.items[w];
    match found
    case None =>
      && Count(s.bots, BotOf(item.tenant, item.source)) == 0
      && s' == s && report' == report.(failed := report.failed + [BotNotFound(item.tenant)])
    case Some((bot, a)) =>
      && bot < |s.bots| && BotOf(item.tenant, item.source)(s.bots[bot])
      && Possible(s.nodes, source, works, a)
      && (var after := After(s, e, source, bot, item.retryCount + 1, a);
          s' == after.(items := Retired(after.items, w)))
      && report' == Noted(report, bot, a)
  }

  /** The j-th listed row is retried in state s. */
  ghost predicate Retries(r: Retry, s: Fleet, s': Fleet, j: nat, report: Report, report': Report,
                          found: Option<(nat, Attempt)>) {
    j < |r.listed| && r.listed[j] < |s.items|
      && RowRetry(s, s', r.event, r.source, r.listed[j], report, report', r.replies(j), found)
  }

  lemma RetriedItems(r: Retry, s: Fleet, s': Fleet, j: nat, report: Report, report': Report, bot: nat, a: Attempt)
    returns (item: RecoveryItem)
    requires Retries(r, s, s', j, report, report', Some((bot, a))) && s.items[r.listed[j]].source == r.source
    ensures s'.items == Retired(s.items + [item], r.listed[j])
    ensures item.event == r.event && item.source == r.source && item.tenant == s.items[r.listed[j]].tenant
    ensures item.retryCount == s.items[r.listed[j]].retryCount + 1
    ensures |report'.waiting| == if item.status == WaitingItem then |report.waiting| + 1 else |report.waiting|
  {
    item := ItemFor(s.bots[bot].tenant, r.event, r.source, s.items[r.listed[j]].retryCount + 1, a);
  }

  lemma RetryKeepsRows(r: Retry, s: Fleet, s': Fleet, j: nat, report: Report, report': Report, notFound: nat, bot: nat,
                       a: Attempt)
    requires Retrying(r, s, j, report, notFound) && TriedAtLeast(r.start.items, r.event, r.tries)
    requires Retries(r, s, s', j, report, report', Some((bot, a)))
    ensures RowsRetried(r, s'.items, j + 1, |report'.waiting|, notFound)
    ensures Replaced(r.start.items, s'.items, r.event)
  {
    ListedRow(r, s, j, report, notFound);
    var item := RetriedItems(r, s, s', j, report, report', bot, a);
    RowRetried(r, s.items, j, |report.waiting|, notFound, item);
    ReplacedStep(r.start.items, s.items, r.event, r.listed[j], item);
  }

  lemma RetriedBots(r: Retry, s: Fleet, s': Fleet, j: nat, report: Report, report': Report, bot: nat, a: Attempt)
    requires Retries(r, s, s', j, report, report', Some((bot, a)))
    ensures bot < |s.bots| && (a.Placed? ==> a.target in s.nodes) && Possible(s.nodes, r.source, r.replies(j), a)
    ensures BotOf(s.items[r.listed[j]].tenant, s.items[r.listed[j]].source)(s.bots[bot])
    ensures s'.bots == After(s, r.event, r.source, bot, s.items[r.listed[j]].retryCount + 1, a).bots
    ensures report' == Noted(report, bot, a)
  {}

  lemma RetryKeepsCourse(r: Retry, s: Fleet, s': Fleet, j: nat, report: Report, report': Report, notFound: nat,
                         bot: nat, a: Attempt)
    requires OnCourse(r, s.bots, j, report, notFound)
    requires CapacityUsed(r.start.nodes, s.nodes, r.source, |report.recovered|)
    requires Retries(r, s, s', j, report, report', Some((bot, a)))
    requires s.items[r.listed[j]] == r.start.items[r.listed[j]] && s.items[r.listed[j]].source == r.source
    ensures OnCourse(r, s'.bots, j + 1, report', notFound)
  {
    RetriedBots(r, s, s', j, report, report', bot, a);
    FoundStaysOnCourse(r, s, j, report, notFound, bot, s.items[r.listed[j]].retryCount + 1, a);
  }

  lemma RetryKeepsBots(r: Retry, s: Fleet, s': Fleet, j: nat, report: Report, report': Report, notFound: nat, bot: nat,
                       a: Attempt)
    requires Retrying(r, s, j, report, notFound) && Retries(r, s, s', j, report, report', Some((bot, a)))
    requires Backed(s.bots, s.items)
    ensures Backed(s'.bots, s'.items)
  {
    ListedRow(r, s, j, report, notFound);
    RetryKeepsBacking(s, r.event, r.source, bot, s.items[r.listed[j]].retryCount + 1, a, r.listed[j]);
  }

  lemma RetryKeepsCapacity(r: Retry, s: Fleet, s': Fleet, j: nat, report: Report, report': Report, notFound: nat,
                           bot: nat, a: Attempt)
    requires Retrying(r, s, j, report, notFound) && Retries(r, s, s', j, report, report', Some((bot, a)))
    ensures CapacityUsed(r.start.nodes, s'.nodes, r.source, |report'.recovered|)
    ensures Size(report') == Size(report) + 1 && |report'.failed| >= |report.failed|
    ensures report'.waiting != [] ==> NoRoom(s'.nodes, r.source)
  {
    var retries := s.items[r.listed[j]].retryCount + 1;
    AttemptUsesCapacity(r.start.nodes, s, r.event, r.source, bot, retries, r.replies(j), a, |report.recovered|);
  }

  lemma RetryingStep(r: Retry, s: Fleet, s': Fleet, j: nat, report: Report, report': Report, notFound: nat, bot: nat,
                     a: Attempt)
    requires Retrying(r, s, j, report, notFound) && TriedAtLeast(r.start.items, r.event, r.tries)
    requires Retries(r, s, s', j, report, report', Some((bot, a)))
    ensures Retrying(r, s', j + 1, report', notFound)
  {
    RetryKeepsRows(r, s, s', j, report, report', notFound, bot, a);
    RetryKeepsCapacity(r, s, s', j, report, report', notFound, bot, a);
    ListedRow(r, s, j, report, notFound);
    RetryKeepsCourse(r, s, s', j, report, report', notFound, bot, a);
    if Backed(s.bots, s.items) { RetryKeepsBots(r, s, s', j, report, report', notFound, bot, a); }
  }

  lemma RetryingSkips(r: Retry, s: Fleet, s': Fleet, j: nat, report: Report, report': Report, notFound: nat)
    requires Retrying(r, s, j, report, notFound) && Retries(r, s, s', j, report, report', None)
    ensures Retrying(r, s', j + 1, report', notFound + 1)
  {
    ListedRow(r, s, j, report, notFound);
    RowSkipped(r, s.items, j, |report.waiting|, notFound);
    MissedStaysOnCourse(r, s.bots, j, report, BotNotFound(s.items[r.listed[j]].tenant), notFound);
    if Backed(s.bots, s.items) { BackedRowFindsBot(s, r.listed[j]); }
  }

  lemma RowRetryKeeps(r: Retry, s: Fleet, s': Fleet, j: nat, j': nat, report: Report, report': Report, notFound: nat,
                      notFound': nat, found: Option<(nat, Attempt)>)
    requires Retrying(r, s, j, report, notFound) && TriedAtLeast(r.start.items, r.event, r.tries)
    requires Retries(r, s, s', j, report, report', found)
    requires j' == j + 1 && notFound' == if found.None? then notFound + 1 else notFound
    ensures Retrying(r, s', j', report', notFound')
  {
    match found
    case None => RetryingSkips(r, s, s', j, report, report', notFound);
    case Some((bot, a)) => RetryingStep(r, s, s', j, report, report', notFound, bot, a);
  }

  // ---- Rows that ran out of retries or time ----

  /** `expired` are closed as failed; nothing else changes. */
  ghost predicate ClosedAsFailed(items: seq<RecoveryItem>, items': seq<RecoveryItem>, expired: seq<nat>) {
    && |items'| == |items|
    && forall i | 0 <= i < |items| :: items'[i] == if i in expired then items[i].(status := FailedItem) else items[i]
  }

  /** The rows of `listed` that have had all their retries, in order. */
  function OutOfRetries(items: seq<RecoveryItem>, listed: seq<nat>): (r: seq<nat>)
    requires forall i | i in listed :: i < |items|
    ensures forall i :: i in r <==> i in listed && items[i].retryCount >= MAX_RETRY_ATTEMPTS
    ensures Distinct(listed) ==> Distinct(r)
    ensures |r| <= |listed|
    ensures (forall i | i in listed :: items[i].retryCount >= MAX_RETRY_ATTEMPTS) ==> r == listed
  {
    if listed == [] then [] else
      var rest, last := listed[..|listed| - 1], listed[|listed| - 1];
      assert forall i :: i in listed <==> i in rest || i == last;
      assert Distinct(listed) ==> last !in rest;
      OutOfRetries(items, rest) + if items[last].retryCount >= MAX_RETRY_ATTEMPTS then [last] else []
  }

  lemma ListedAre(items: seq<RecoveryItem>, listed: seq<nat>, e: nat)
    requires listed == Positions(items, WaitingIn(e))
    ensures Distinct(listed) && |listed| == Count(items, WaitingIn(e))
    ensures forall i :: i in listed <==> 0 <= i < |items| && WaitingIn(e)(items[i])
  {
    PositionsAre(items, WaitingIn(e));
  }

  /** If not all the listed rows are out of retries, the cap is not reached yet. */
  lemma ExhaustedAre(items: seq<RecoveryItem>, listed: seq<nat>, e: nat, k: nat)
    requires forall i :: i in listed <==> 0 <= i < |items| && WaitingIn(e)(items[i])
    requires TriedAtLeast(items, e, k)
    ensures |OutOfRetries(items, listed)| < |listed| ==> k < MAX_RETRY_ATTEMPTS
  {}

  lemma {:induction false} FewerWaiting(items: seq<RecoveryItem>, items': seq<RecoveryItem>, p: RecoveryItem -> bool)
    requires |items| == |items'|
    requires forall i | 0 <= i < |items| :: p(items'[i]) ==> p(items[i])
    ensures Count(items', p) <= Count(items, p)
  {
    if items != [] { FewerWaiting(items[..|items| - 1], items'[..|items| - 1], p); }
  }

  lemma ClosingKeepsBacking(bots: seq<Bot>, items: seq<RecoveryItem>, items': seq<RecoveryItem>, expired: seq<nat>)
    requires Backed(bots, items) && ClosedAsFailed(items, items', expired)
    ensures Backed(bots, items')
  {
    forall tenant, source ensures Count(items', WaitingFor(tenant, source)) <= Count(bots, BotOf(tenant, source)) {
      FewerWaiting(items, items', WaitingFor(tenant, source));
    }
  }

  /** Once the rows out of retries are closed, the others can be tried again. */
  lemma ClosingLeavesBelowCap(items: seq<RecoveryItem>, items': seq<RecoveryItem>, e: nat, listed: seq<nat>)
    requires listed == Positions(items, WaitingIn(e)) && (forall i | i in listed :: i < |items|)
    requires ClosedAsFailed(items, items', OutOfRetries(items, listed))
    ensures BelowCap(items', e)
  {
    var expired := OutOfRetries(items, listed);
    forall i | 0 <= i < |items'| && WaitingIn(e)(items'[i]) ensures items'[i].retryCount < MAX_RETRY_ATTEMPTS {
      assert i !in expired;
      PositionsHave(items, WaitingIn(e), i);
    }
  }
}
