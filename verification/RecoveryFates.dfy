/** What a visit makes of each row that waits in an open event, told by the rows themselves. */
module RecoveryFates {
  import opened Basics
  import opened Counting
  import opened NodeLifecycle
  import opened RecoveryTables
  import opened RecoverySteps
  import opened RecoveryRetries
  import opened RecoveryEvents

  predicate Waits(items: seq<RecoveryItem>, e: nat, i: nat) {
    i < |items| && items[i].event == e && items[i].status == WaitingItem
  }

  /** None of the tenant's bots is on the node. */
  ghost predicate NoBotOn(bots: seq<Bot>, tenant: string, node: string) {
    forall b | 0 <= b < |bots| :: bots[b].tenant != tenant || bots[b].node != Some(node)
  }

  /** The next row carries on this one: the same tenant's, one more try, and what came of it. */
  predicate CarriesOn(row: RecoveryItem, next: RecoveryItem, works: bool) {
    && next.event == row.event && next.tenant == row.tenant && next.source == row.source
    && next.retryCount == row.retryCount + 1
    && match next.status
       case RecoveredItem => works && next.target.Some?
       case FailedItem => !works && next.target.Some?
       case WaitingItem => next.target.None?
       case RetriedItem => false
  }

  /**
   The row is closed as retried and carried on by a new row; that waits only if no other active node has 100 MB left.
   `turn` counts the retried event's rows before it; those of them still waiting have no new row.
   */
  ghost predicate TriedAgain(items0: seq<RecoveryItem>, s: Fleet, i: nat, turn: nat, replies: nat -> bool)
    requires i < |items0| <= |s.items|
  {
    var n := |items0| + turn - Count(s.items[..i], WaitingIn(items0[i].event));
    && s.items[i] == items0[i].(status := RetriedItem, retryCount := items0[i].retryCount + 1)
    && |items0| <= n < |s.items| && CarriesOn(items0[i], s.items[n], replies(turn))
    && (s.items[n].status == WaitingItem ==> FullUp(s.nodes, items0[i].source))
  }

  /** The row is left as it was, since none of its tenant's bots is left on its node. */
  ghost predicate LeftForWantOfBot(items0: seq<RecoveryItem>, s: Fleet, i: nat)
    requires i < |items0| <= |s.items|
  {
    s.items[i] == items0[i] && NoBotOn(s.bots, items0[i].tenant, items0[i].source)
  }

  // ---- One retry of an event ----

  function HasStatus(status: ItemStatus): RecoveryItem -> bool { (i: RecoveryItem) => i.status == status }

  /** The report counts the new rows by their status; the rows without a bot are reported as failed. */
  ghost predicate ReportsRows(rows: seq<RecoveryItem>, report: Report, missed: int) {
    && |report.recovered| == Count(rows, HasStatus(RecoveredItem))
    && |report.failed| == Count(rows, HasStatus(FailedItem)) + missed
    && |report.waiting| == Count(rows, HasStatus(WaitingItem))
  }

  ghost predicate IsTried(listed: seq<nat>, tried: seq<nat>, i: nat) {
    exists n | 0 <= n < |tried| :: tried[n] < |listed| && listed[tried[n]] == i
  }

  /** Of the first j listed rows those in `tried` found a bot, in this order; the n-th has the n-th of the new rows. */
  ghost predicate InOrderTried(tried: seq<nat>, j: nat) {
    && (forall n | 0 <= n < |tried| :: tried[n] < j)
    && (forall m, n | 0 <= m < n < |tried| :: tried[m] < tried[n])
    && |tried| <= j
    && (|tried| == j ==> forall x | 0 <= x < j :: tried[x] == x)
  }

  /** The n-th row that found a bot is closed as retried, and the n-th new row carries it on. */
  ghost predicate RowCarriedOn(r: Retry, items: seq<RecoveryItem>, x: nat, n: nat) {
    && Lists(r) && x < |r.listed| && |r.start.items| + n < |items|
    && var row := r.start.items[r.listed[x]];
       && items[r.listed[x]] == row.(status := RetriedItem, retryCount := row.retryCount + 1)
       && CarriesOn(row, items[|r.start.items| + n], r.replies(x))
  }

  ghost predicate RowsCarriedOn(r: Retry, items: seq<RecoveryItem>, tried: seq<nat>) {
    && Lists(r) && |items| == |r.start.items| + |tried|
    && (forall n: nat | n < |tried| :: RowCarriedOn(r, items, tried[n], n))
    && (forall i: nat | i < |r.start.items| && !IsTried(r.listed, tried, i) :: items[i] == r.start.items[i])
  }

  ghost predicate UntriedHaveNoBot(r: Retry, bots: seq<Bot>, j: nat, tried: seq<nat>) {
    && Lists(r) && j <= |r.listed|
    && forall x: nat | x < j && x !in tried :: NoBotOn(bots, r.start.items[r.listed[x]].tenant, r.source)
  }

  /** After j listed rows. */
  ghost predicate Followed(r: Retry, s: Fleet, j: nat, report: Report, tried: seq<nat>) {
    && InOrderTried(tried, j) && RowsCarriedOn(r, s.items, tried) && UntriedHaveNoBot(r, s.bots, j, tried)
    && ReportsRows(s.items[|r.start.items|..], report, j - |tried|)
  }

  lemma FollowedAtStart(r: Retry)
    requires Lists(r)
    ensures Followed(r, r.start, 0, Report([], [], []), [])
  {
    assert r.start.items[|r.start.items|..] == [];
  }

  lemma IsTriedNext(listed: seq<nat>, tried: seq<nat>, x: nat, i: nat)
    requires x < |listed|
    ensures IsTried(listed, tried + [x], i) <==> IsTried(listed, tried, i) || listed[x] == i
  {
    var tried' := tried + [x];
    assert tried'[|tried|] == x && forall n | 0 <= n < |tried| :: tried'[n] == tried[n];
  }

  lemma CarriedRowStays(r: Retry, items: seq<RecoveryItem>, x: nat, n: nat, j: nat, item: RecoveryItem)
    requires RowCarriedOn(r, items, x, n) && x < j < |r.listed|
    ensures RowCarriedOn(r, Retired(items + [item], r.listed[j]), x, n)
  {}

  lemma RowIsCarriedOn(r: Retry, items: seq<RecoveryItem>, j: nat, n: nat, item: RecoveryItem)
    requires Lists(r) && j < |r.listed| && |items| == |r.start.items| + n
    requires items[r.listed[j]] == r.start.items[r.listed[j]]
    requires CarriesOn(r.start.items[r.listed[j]], item, r.replies(j))
    ensures RowCarriedOn(r, Retired(items + [item], r.listed[j]), j, n)
  {}

  lemma TriedRowsStep(r: Retry, items: seq<RecoveryItem>, j: nat, tried: seq<nat>, item: RecoveryItem)
    requires InOrderTried(tried, j) && RowsCarriedOn(r, items, tried) && j < |r.listed|
    requires items[r.listed[j]] == r.start.items[r.listed[j]]
    requires CarriesOn(r.start.items[r.listed[j]], item, r.replies(j))
    ensures RowsCarriedOn(r, Retired(items + [item], r.listed[j]), tried + [j])
  {
    var tried', items' := tried + [j], Retired(items + [item], r.listed[j]);
    forall n: nat | n < |tried'| ensures RowCarriedOn(r, items', tried'[n], n) {
      if n < |tried| {
        CarriedRowStays(r, items, tried[n], n, j, item);
      } else {
        RowIsCarriedOn(r, items, j, n, item);
      }
    }
    forall i: nat | i < |r.start.items| && !IsTried(r.listed, tried', i) ensures items'[i] == r.start.items[i] {
      IsTriedNext(r.listed, tried, j, i);
    }
  }

  lemma ReportStep(rows: seq<RecoveryItem>, report: Report, missed: int, item: RecoveryItem, bot: nat, a: Attempt)
    requires ReportsRows(rows, report, missed)
    requires item.status == match a case NoCapacity => WaitingItem case Placed(_) => RecoveredItem
                                    case Broken(_) => FailedItem
    ensures ReportsRows(rows + [item], Noted(report, bot, a), missed)
  {
    CountAppend(rows, item, HasStatus(RecoveredItem));
    CountAppend(rows, item, HasStatus(FailedItem));
    CountAppend(rows, item, HasStatus(WaitingItem));
  }

  /** Bots only leave the node. */
  lemma UntriedStayWithoutBot(r: Retry, s: Fleet, j: nat, tried: seq<nat>, bot: nat, retries: nat, a: Attempt)
    requires UntriedHaveNoBot(r, s.bots, j, tried) && j < |r.listed| && bot < |s.bots|
    requires a.Placed? ==> a.target in s.nodes && a.target != r.source
    ensures UntriedHaveNoBot(r, After(s, r.event, r.source, bot, retries, a).bots, j + 1, tried + [j])
  {
    var bots', tried' := After(s, r.event, r.source, bot, retries, a).bots, tried + [j];
    forall x: nat | x < j + 1 && x !in tried' ensures NoBotOn(bots', r.start.items[r.listed[x]].tenant, r.source) {
      assert tried'[|tried|] == j && x !in tried;
    }
  }

  lemma NextCarriesOn(r: Retry, s: Fleet, s': Fleet, j: nat, report: Report, report': Report, bot: nat, a: Attempt)
    returns (item: RecoveryItem)
    requires Retries(r, s, s', j, report, report', Some((bot, a))) && WaitingIn(r.event)(s.items[r.listed[j]])
    requires s.items[r.listed[j]].source == r.source
    ensures CarriesOn(s.items[r.listed[j]], item, r.replies(j))
    ensures s'.items == Retired(s.items + [item], r.listed[j]) && report' == Noted(report, bot, a)
    ensures item.status == match a case NoCapacity => WaitingItem case Placed(_) => RecoveredItem
                                   case Broken(_) => FailedItem
  {
    item := ItemFor(s.bots[bot].tenant, r.event, r.source, s.items[r.listed[j]].retryCount + 1, a);
  }

  lemma NewRowsStep(items: seq<RecoveryItem>, n: nat, w: nat, item: RecoveryItem)
    requires w < n <= |items|
    ensures Retired(items + [item], w)[n..] == items[n..] + [item]
  {}

  lemma RowsStep(r: Retry, items: seq<RecoveryItem>, j: nat, report: Report, tried: seq<nat>, item: RecoveryItem,
                 bot: nat, a: Attempt)
    requires InOrderTried(tried, j) && RowsCarriedOn(r, items, tried) && j < |r.listed|
    requires ReportsRows(items[|r.start.items|..], report, j - |tried|)
    requires items[r.listed[j]] == r.start.items[r.listed[j]]
    requires CarriesOn(r.start.items[r.listed[j]], item, r.replies(j))
    requires item.status == match a case NoCapacity => WaitingItem case Placed(_) => RecoveredItem
                                    case Broken(_) => FailedItem
    ensures var items', tried' := Retired(items + [item], r.listed[j]), tried + [j];
      && InOrderTried(tried', j + 1) && RowsCarriedOn(r, items', tried')
      && ReportsRows(items'[|r.start.items|..], Noted(report, bot, a), j + 1 - |tried'|)
  {
    TriedRowsStep(r, items, j, tried, item);
    ReportStep(items[|r.start.items|..], report, j - |tried|, item, bot, a);
    NewRowsStep(items, |r.start.items|, r.listed[j], item);
  }

  lemma RetryKeepsUntried(r: Retry, s: Fleet, s': Fleet, j: nat, report: Report, report': Report, tried: seq<nat>,
                          bot: nat, a: Attempt)
    requires UntriedHaveNoBot(r, s.bots, j, tried) && Retries(r, s, s', j, report, report', Some((bot, a)))
    ensures UntriedHaveNoBot(r, s'.bots, j + 1, tried + [j])
  {
    RetriedBots(r, s, s', j, report, report', bot, a);
    UntriedStayWithoutBot(r, s, j, tried, bot, s.items[r.listed[j]].retryCount + 1, a);
  }

  lemma FollowedStep(r: Retry, s: Fleet, s': Fleet, j: nat, report: Report, report': Report, tried: seq<nat>, bot: nat,
                     a: Attempt)
    requires Followed(r, s, j, report, tried) && Retries(r, s, s', j, report, report', Some((bot, a)))
    requires s.items[r.listed[j]] == r.start.items[r.listed[j]] && s.items[r.listed[j]].source == r.source
    requires WaitingIn(r.event)(s.items[r.listed[j]])
    ensures Followed(r, s', j + 1, report', tried + [j])
  {
    var item := NextCarriesOn(r, s, s', j, report, report', bot, a);
    RowsStep(r, s.items, j, report, tried, item, bot, a);
    RetryKeepsUntried(r, s, s', j, report, report', tried, bot, a);
  }

  lemma FollowedSkip(r: Retry, s: Fleet, s': Fleet, j: nat, report: Report, report': Report, tried: seq<nat>)
    requires Followed(r, s, j, report, tried) && Retries(r, s, s', j, report, report', None)
    requires s.items[r.listed[j]] == r.start.items[r.listed[j]] && s.items[r.listed[j]].source == r.source
    ensures Followed(r, s', j + 1, report', tried)
  {
    CountNone(s.bots, BotOf(s.items[r.listed[j]].tenant, r.source));
  }

  /** The j-th listed row is still as it was. */
  ghost predicate RowUntouched(r: Retry, s: Fleet, j: nat) {
    && j < |r.listed| && r.listed[j] < |s.items| && r.listed[j] < |r.start.items|
    && s.items[r.listed[j]] == r.start.items[r.listed[j]] && s.items[r.listed[j]].source == r.source
    && WaitingIn(r.event)(s.items[r.listed[j]])
  }

  /** One listed row, whether or not it finds a bot. */
  lemma ListedFollows(r: Retry, s: Fleet, s': Fleet, j: nat, report: Report, report': Report, tried: seq<nat>,
                      found: Option<(nat, Attempt)>)
    requires RowUntouched(r, s, j) && Followed(r, s, j, report, tried)
    requires Retries(r, s, s', j, report, report', found)
    ensures Followed(r, s', j + 1, report', if found.None? then tried else tried + [j])
  {
    match found
    case None => FollowedSkip(r, s, s', j, report, report', tried);
    case Some((bot, a)) => FollowedStep(r, s, s', j, report, report', tried, bot, a);
  }

  // ---- The run of a retry ----

  /** The turns so far: each row's fleet and report before its turn, and what the turn found. */
  datatype Run = NoTurns | Turns(before: Run, fleet: Fleet, report: Report, found: Option<(nat, Attempt)>)

  function Length(run: Run): nat { match run case NoTurns => 0 case Turns(before, _, _, _) => Length(before) + 1 }

  /** The rows whose turn found a bot, in order. */
  function TriedBy(run: Run): (tried: seq<nat>)
    ensures |tried| <= Length(run)
  {
    match run
    case NoTurns => []
    case Turns(before, _, _, found) => if found.Some? then TriedBy(before) + [Length(before)] else TriedBy(before)
  }

  /** How many turns found none. */
  function MissedBy(run: Run): nat {
    match run
    case NoTurns => 0
    case Turns(before, _, _, found) => MissedBy(before) + if found.None? then 1 else 0
  }

  lemma {:induction false} TriedOrMissed(run: Run)
    ensures MissedBy(run) + |TriedBy(run)| == Length(run)
  {
    if run.Turns? { TriedOrMissed(run.before); }
  }

  /** The retry r takes these turns and gets to state s and this report. */
  ghost predicate RunsTo(r: Retry, run: Run, s: Fleet, report: Report) {
    match run
    case NoTurns => s == r.start && report == Report([], [], [])
    case Turns(before, s0, report0, found) =>
      RunsTo(r, before, s0, report0) && Retries(r, s0, s, Length(before), report0, report, found)
  }

  ghost predicate Startable(r: Retry) {
    && r.listed == Positions(r.start.items, WaitingIn(r.event)) && UsageKnown(r.start.nodes)
    && SourceIs(r.start.items, r.event, r.source) && TriedAtLeast(r.start.items, r.event, r.tries)
  }

  lemma {:induction false} RunKeepsRetrying(r: Retry, run: Run, s: Fleet, report: Report) returns (j: nat, missed: nat)
    requires Startable(r) && RunsTo(r, run, s, report)
    ensures j == Length(run) && missed == MissedBy(run) && Retrying(r, s, j, report, missed)
  {
    match run
    case NoTurns =>
      j, missed := 0, 0;
      RetryingStarts(r);
    case Turns(before, s0, report0, found) =>
      var x, earlier := RunKeepsRetrying(r, before, s0, report0);
      j, missed := x + 1, if found.None? then earlier + 1 else earlier;
      RowRetryKeeps(r, s0, s, x, j, report0, report, earlier, missed, found);
  }

  lemma NextRowUntouched(r: Retry, run: Run, s: Fleet, report: Report)
    requires Startable(r) && RunsTo(r, run, s, report) && Length(run) < |r.listed|
    ensures RowUntouched(r, s, Length(run))
  {
    var j, missed := RunKeepsRetrying(r, run, s, report);
    ListedRow(r, s, j, report, missed);
  }

  lemma {:induction false} RunKeepsFollowed(r: Retry, run: Run, s: Fleet, report: Report)
    requires Startable(r) && RunsTo(r, run, s, report)
    ensures Followed(r, s, Length(run), report, TriedBy(run))
  {
    match run
    case NoTurns =>
      RetryingStarts(r);
      FollowedAtStart(r);
    case Turns(before, s0, report0, found) =>
      RunKeepsFollowed(r, before, s0, report0);
      NextRowUntouched(r, before, s0, report0);
      ListedFollows(r, s0, s, Length(before), report0, report, TriedBy(before), found);
  }

  // ---- A whole retry ----

  /** Each waiting row of the event is tried again, with its reply, or left for want of a bot; no other row changes. */
  ghost predicate RowsFollow(items0: seq<RecoveryItem>, s: Fleet, e: nat, replies: nat -> bool) {
    && |items0| <= |s.items|
    && (forall i: nat | Waits(items0, e, i) ::
      || TriedAgain(items0, s, i, Count(items0[..i], WaitingIn(e)), replies)
      || LeftForWantOfBot(items0, s, i))
    && (forall i: nat | i < |items0| && !Waits(items0, e, i) :: s.items[i] == items0[i])
  }

  /** The event's counters move with its rows: whoever waited and was not carried on counts as failed. */
  ghost predicate CountersFollow(event0: RecoveryEvent, event: RecoveryEvent, items0: seq<RecoveryItem>,
                                 items: seq<RecoveryItem>, e: nat) {
    && |items0| <= |items|
    && var rows := items[|items0|..];
       && event.recovered == event0.recovered + Count(rows, HasStatus(RecoveredItem))
       && event.failed == event0.failed + Count(items0, WaitingIn(e)) - |rows| + Count(rows, HasStatus(FailedItem))
       && event.waiting == Count(rows, HasStatus(WaitingItem))
       && event.status == if event.waiting > 0 then Partial else Completed
  }

  ghost predicate NobodyLeftOut(items0: seq<RecoveryItem>, items: seq<RecoveryItem>, e: nat) {
    |items0| <= |items| && forall i: nat | Waits(items0, e, i) :: items[i].status != WaitingItem
  }

  /** A row's place in the listing is the number of listed rows before it. */
  lemma {:induction false} PlaceInListing<T>(rows: seq<T>, p: T -> bool, x: nat)
    requires x < |Positions(rows, p)|
    ensures var i := Positions(rows, p)[x]; i < |rows| && x == Count(rows[..i], p)
  {
    var n := |rows| - 1;
    PositionsAreIn(rows[..n], p);
    if x < |Positions(rows[..n], p)| {
      PlaceInListing(rows[..n], p, x);
      assert rows[..n][..Positions(rows[..n], p)[x]] == rows[..Positions(rows[..n], p)[x]];
    }
  }

  lemma NewWaitingMeansFull(items0: seq<RecoveryItem>, s: Fleet, source: string, report: Report, missed: int, n: nat)
    requires |items0| <= n < |s.items| && ReportsRows(s.items[|items0|..], report, missed)
    requires report.waiting != [] ==> NoRoom(s.nodes, source)
    requires s.items[n].status == WaitingItem
    ensures FullUp(s.nodes, source)
  {
    var rows := s.items[|items0|..];
    assert rows[n - |items0|] == s.items[n];
    CountNone(rows, HasStatus(WaitingItem));
    NoRoomMeans(s.nodes, source);
  }

  lemma CountOneMore<T>(rows: seq<T>, i: nat, p: T -> bool)
    requires 0 < i <= |rows|
    ensures Count(rows[..i], p) == Count(rows[..i - 1], p) + if p(rows[i - 1]) then 1 else 0
  {
    assert rows[..i] == rows[..i - 1] + [rows[i - 1]];
    CountAppend(rows[..i - 1], rows[i - 1], p);
  }

  /** How many tried rows come before row i: those that satisfied p and do so no longer. */
  lemma {:induction false} ChangedBefore<T>(rows0: seq<T>, rows: seq<T>, changed: seq<nat>, p: T -> bool, i: nat)
    returns (m: nat)
    requires |rows0| <= |rows| && i <= |rows0|
    requires forall m, n | 0 <= m < n < |changed| :: changed[m] < changed[n]
    requires forall n | 0 <= n < |changed| :: changed[n] < |rows0| && p(rows0[changed[n]]) && !p(rows[changed[n]])
    requires forall k | 0 <= k < |rows0| && k !in changed :: rows[k] == rows0[k]
    ensures m <= |changed| && m + Count(rows[..i], p) == Count(rows0[..i], p)
    ensures (forall n | 0 <= n < m :: changed[n] < i) && (forall n | m <= n < |changed| :: changed[n] >= i)
  {
    if i == 0 {
      m := 0;
    } else {
      m := ChangedBefore(rows0, rows, changed, p, i - 1);
      CountOneMore(rows, i, p);
      CountOneMore(rows0, i, p);
      if i - 1 in changed {
        assert changed[m] == i - 1;
        m := m + 1;
      }
    }
  }

  function RowsAt(listed: seq<nat>, tried: seq<nat>): (r: seq<nat>)
    requires forall n | 0 <= n < |tried| :: tried[n] < |listed|
    ensures |r| == |tried| && forall n | 0 <= n < |r| :: r[n] == listed[tried[n]]
  {
    seq(|tried|, n requires 0 <= n < |tried| => listed[tried[n]])
  }

  lemma TriedRowsChanged(r: Retry, items: seq<RecoveryItem>, tried: seq<nat>)
    requires InOrderTried(tried, |r.listed|) && RowsCarriedOn(r, items, tried)
    ensures var rows := RowsAt(r.listed, tried);
      && (forall m, n | 0 <= m < n < |rows| :: rows[m] < rows[n])
      && (forall n | 0 <= n < |rows| :: rows[n] < |r.start.items| && WaitingIn(r.event)(r.start.items[rows[n]])
                                        && !WaitingIn(r.event)(items[rows[n]]))
      && (forall k | 0 <= k < |r.start.items| && k !in rows :: items[k] == r.start.items[k])
  {
    var rows := RowsAt(r.listed, tried);
    forall n: nat | n < |rows| ensures rows[n] < |r.start.items| && !WaitingIn(r.event)(items[rows[n]]) {
      assert RowCarriedOn(r, items, tried[n], n);
    }
    forall k: nat | k < |r.start.items| && k !in rows ensures items[k] == r.start.items[k] {
      assert !IsTried(r.listed, tried, k) by { assert forall n | 0 <= n < |tried| :: rows[n] != k; }
    }
  }

  lemma TriedPlace(r: Retry, items: seq<RecoveryItem>, tried: seq<nat>, n: nat)
    requires r.listed == Positions(r.start.items, WaitingIn(r.event)) && n < |tried|
    requires InOrderTried(tried, |r.listed|) && RowsCarriedOn(r, items, tried)
    ensures var i := r.listed[tried[n]];
      && i < |items| && n == tried[n] - Count(items[..i], WaitingIn(r.event))
      && tried[n] == Count(r.start.items[..i], WaitingIn(r.event))
  {
    var rows := RowsAt(r.listed, tried);
    PlaceInListing(r.start.items, WaitingIn(r.event), tried[n]);
    TriedRowsChanged(r, items, tried);
    var m := ChangedBefore(r.start.items, items, rows, WaitingIn(r.event), rows[n]);
    assert m < |rows| && rows[m] <= rows[n];
  }

  lemma TriedRowFollows(r: Retry, s: Fleet, report: Report, tried: seq<nat>, n: nat)
    requires r.listed == Positions(r.start.items, WaitingIn(r.event)) && n < |tried| && |tried| <= |r.listed|
    requires InOrderTried(tried, |r.listed|) && RowsCarriedOn(r, s.items, tried)
    requires ReportsRows(s.items[|r.start.items|..], report, |r.listed| - |tried|)
    requires report.waiting != [] ==> NoRoom(s.nodes, r.source)
    requires r.start.items[r.listed[tried[n]]].source == r.source
    ensures TriedAgain(r.start.items, s, r.listed[tried[n]], tried[n], r.replies)
  {
    var next := |r.start.items| + n;
    assert RowCarriedOn(r, s.items, tried[n], n);
    TriedPlace(r, s.items, tried, n);
    if s.items[next].status == WaitingItem {
      NewWaitingMeansFull(r.start.items, s, r.source, report, |r.listed| - |tried|, next);
    }
  }

  lemma ListedRowFollows(r: Retry, s: Fleet, report: Report, tried: seq<nat>, x: nat)
    requires r.listed == Positions(r.start.items, WaitingIn(r.event))
    requires Followed(r, s, |r.listed|, report, tried) && (report.waiting != [] ==> NoRoom(s.nodes, r.source))
    requires x < |r.listed| && r.start.items[r.listed[x]].source == r.source
    ensures if x in tried then TriedAgain(r.start.items, s, r.listed[x], x, r.replies)
            else LeftForWantOfBot(r.start.items, s, r.listed[x])
  {
    if x in tried {
      var n: nat :| n < |tried| && tried[n] == x;
      TriedRowFollows(r, s, report, tried, n);
    } else {
      assert !IsTried(r.listed, tried, r.listed[x]);
    }
  }

  /** What a retry makes of the rows and reports of them. */
  ghost predicate RowsRetriedAndReported(r: Retry, s: Fleet, report: Report) {
    && Lists(r) && RowsFollow(r.start.items, s, r.event, r.replies)
    && ReportsRows(s.items[|r.start.items|..], report,
      Count(r.start.items, WaitingIn(r.event)) + |r.start.items| - |s.items|)
    && (Missed(r) == 0 ==> NobodyLeftOut(r.start.items, s.items, r.event))
  }

  lemma WaitingRowFollows(r: Retry, s: Fleet, report: Report, tried: seq<nat>, i: nat)
    requires r.listed == Positions(r.start.items, WaitingIn(r.event)) && SourceIs(r.start.items, r.event, r.source)
    requires Followed(r, s, |r.listed|, report, tried) && (report.waiting != [] ==> NoRoom(s.nodes, r.source))
    requires Waits(r.start.items, r.event, i)
    ensures || TriedAgain(r.start.items, s, i, Count(r.start.items[..i], WaitingIn(r.event)), r.replies)
            || LeftForWantOfBot(r.start.items, s, i)
    ensures |tried| == |r.listed| ==> s.items[i].status != WaitingItem
  {
    PositionsHave(r.start.items, WaitingIn(r.event), i);
    var x: nat :| x < |r.listed| && r.listed[x] == i;
    PlaceInListing(r.start.items, WaitingIn(r.event), x);
    ListedRowFollows(r, s, report, tried, x);
    if |tried| == |r.listed| { assert tried[x] == x; }
  }

  lemma OtherRowsStay(r: Retry, s: Fleet, report: Report, tried: seq<nat>, i: nat)
    requires Followed(r, s, |r.listed|, report, tried) && i < |r.start.items| && !Waits(r.start.items, r.event, i)
    ensures s.items[i] == r.start.items[i]
  {
    assert !IsTried(r.listed, tried, i);
  }

  lemma RetryFollows(r: Retry, s: Fleet, report: Report, tried: seq<nat>)
    requires r.listed == Positions(r.start.items, WaitingIn(r.event)) && SourceIs(r.start.items, r.event, r.source)
    requires Followed(r, s, |r.listed|, report, tried) && (report.waiting != [] ==> NoRoom(s.nodes, r.source))
    requires |tried| == |r.listed| - Missed(r)
    ensures RowsRetriedAndReported(r, s, report)
  {
    PositionsAreIn(r.start.items, WaitingIn(r.event));
    forall i: nat | Waits(r.start.items, r.event, i)
      ensures || TriedAgain(r.start.items, s, i, Count(r.start.items[..i], WaitingIn(r.event)), r.replies)
              || LeftForWantOfBot(r.start.items, s, i)
      ensures Missed(r) == 0 ==> s.items[i].status != WaitingItem
    {
      WaitingRowFollows(r, s, report, tried, i);
    }
    forall i: nat | i < |r.start.items| && !Waits(r.start.items, r.event, i) ensures s.items[i] == r.start.items[i] {
      OtherRowsStay(r, s, report, tried, i);
    }
  }

  /** All that a retry leaves true. */
  ghost predicate RetryDone(r: Retry, s: Fleet, report: Report) {
    && Retried(r, s, report) && BotsLeft(r.start.bots, s.bots, r.source, PlacedBy(r))
    && RowsRetriedAndReported(r, s, report)
  }

  lemma RunEnds(r: Retry, run: Run, s: Fleet, report: Report)
    requires Startable(r) && RunsTo(r, run, s, report) && Length(run) == |r.listed|
    ensures RetryDone(r, s, report)
  {
    var j, missed := RunKeepsRetrying(r, run, s, report);
    RetryEnds(r, s, report, missed);
    CourseEnds(r, s.bots, report, missed);
    TriedOrMissed(run);
    RunKeepsFollowed(r, run, s, report);
    RetryFollows(r, s, report, TriedBy(run));
  }

  lemma RunStaysInEvent(r: Retry, run: Run, s: Fleet, report: Report)
    requires Startable(r) && RunsTo(r, run, s, report)
    ensures UsageKnown(s.nodes) && SourceIs(s.items, r.event, r.source) && OnlyEvent(r.start.items, s.items, r.event)
  {
    var _, _ := RunKeepsRetrying(r, run, s, report);
  }

  lemma RetryCounts(event: RecoveryEvent, r: Retry, s: Fleet, report: Report)
    requires RowsRetriedAndReported(r, s, report)
    ensures CountersFollow(event, RetriedRow(event, report), r.start.items, s.items, r.event)
  {}
}
