/** A visit to an open event and a pass over all of them: which rows are given up, and what becomes of the others. */
module RecoveryVisits {
  import opened Basics
  import opened Counting
  import opened NodeLifecycle
  import opened RecoveryTables
  import opened RecoverySteps
  import opened RecoveryRetries
  import opened RecoveryEvents
  import opened RecoveryFates

  // ---- A visit ----

  /** The limits: a day in the event, or five retries. */
  predicate GivenUp(startedAt: int, now: int, item: RecoveryItem) {
    now - startedAt >= 24 * 60 * 60 || item.retryCount >= 5
  }

  function RetriedIn(e: nat, startedAt: int, now: int): RecoveryItem -> bool {
    (i: RecoveryItem) => i.event == e && i.status == WaitingItem && !GivenUp(startedAt, now, i)
  }

  /** Exactly the waiting rows that are given up are closed as failed. */
  ghost predicate GivesUp(startedAt: int, now: int, items0: seq<RecoveryItem>, items: seq<RecoveryItem>, e: nat) {
    && |items| == |items0|
    && forall i: nat | i < |items0| ::
      items[i] == if Waits(items0, e, i) && GivenUp(startedAt, now, items0[i]) then items0[i].(status := FailedItem)
                  else items0[i]
  }

  /** A waiting row fails exactly if it is given up; every other goes through a retry. */
  ghost predicate RowsHandled(startedAt: int, now: int, items0: seq<RecoveryItem>, s: Fleet, e: nat,
                              replies: nat -> bool) {
    && |items0| <= |s.items|
    && forall i: nat | Waits(items0, e, i) ::
      if GivenUp(startedAt, now, items0[i]) then s.items[i] == items0[i].(status := FailedItem)
      else TriedAgain(items0, s, i, Count(items0[..i], RetriedIn(e, startedAt, now)), replies)
           || LeftForWantOfBot(items0, s, i)
  }

  lemma {:induction false} CountAgrees<T>(a: seq<T>, b: seq<T>, p: T -> bool, q: T -> bool)
    requires |a| == |b| && forall i | 0 <= i < |a| :: p(a[i]) == q(b[i])
    ensures Count(a, p) == Count(b, q)
  {
    if a != [] { CountAgrees(a[..|a| - 1], b[..|b| - 1], p, q); }
  }

  /** Of the rows waiting in the event just those fail that are a day old or have been retried five times. */
  lemma FailIffGivenUp(startedAt: int, now: int, items0: seq<RecoveryItem>, s: Fleet, e: nat, replies: nat -> bool)
    requires RowsHandled(startedAt, now, items0, s, e, replies)
    ensures forall i: nat | Waits(items0, e, i) ::
      s.items[i].status == FailedItem <==> now - startedAt >= 86_400 || items0[i].retryCount >= 5
  {
    forall i: nat | Waits(items0, e, i)
      ensures s.items[i].status == FailedItem <==> now - startedAt >= 86_400 || items0[i].retryCount >= 5
    {
      assert s.items[i].status != FailedItem || GivenUp(startedAt, now, items0[i]);
    }
  }

  lemma VisitHandlesRows(startedAt: int, now: int, items0: seq<RecoveryItem>, items1: seq<RecoveryItem>, s: Fleet,
                         e: nat, replies: nat -> bool)
    requires GivesUp(startedAt, now, items0, items1, e) && RowsFollow(items1, s, e, replies)
    ensures RowsHandled(startedAt, now, items0, s, e, replies)
  {
    forall i: nat | Waits(items0, e, i)
      ensures if GivenUp(startedAt, now, items0[i]) then s.items[i] == items0[i].(status := FailedItem)
              else TriedAgain(items0, s, i, Count(items0[..i], RetriedIn(e, startedAt, now)), replies)
                   || LeftForWantOfBot(items0, s, i)
    {
      if !GivenUp(startedAt, now, items0[i]) {
        assert Waits(items1, e, i) && items1[i] == items0[i];
        CountAgrees(items0[..i], items1[..i], RetriedIn(e, startedAt, now), WaitingIn(e));
      } else {
        assert !Waits(items1, e, i);
      }
    }
  }

  /** Closing just the listed rows that are given up. */
  lemma ClosingGivesUp(startedAt: int, now: int, items0: seq<RecoveryItem>, items1: seq<RecoveryItem>, e: nat,
                       closed: seq<nat>)
    requires forall i :: i in closed <==>
      0 <= i < |items0| && WaitingIn(e)(items0[i]) && GivenUp(startedAt, now, items0[i])
    requires ClosedAsFailed(items0, items1, closed)
    ensures GivesUp(startedAt, now, items0, items1, e)
  {}

  // ---- A visit and its counters ----

  /** What a visit makes of the rows waiting in the event, and of its counters. */
  ghost predicate Handled(events0: seq<RecoveryEvent>, events: seq<RecoveryEvent>, s0: Fleet, s: Fleet, e: nat,
                          now: int, replies: nat -> bool) {
    && e < |events0| == |events|
    && RowsHandled(events0[e].startedAt, now, s0.items, s, e, replies)
    && (NobodyWaitsIn(s0.items, e) || CountersFollow(events0[e], events[e], s0.items, s.items, e))
    && (Closed(events0, s0) ==> NobodyLeftOut(s0.items, s.items, e))
  }

  /** The same once the rows given up are closed: all others are retried. */
  ghost predicate RestHandled(events1: seq<RecoveryEvent>, events: seq<RecoveryEvent>, s1: Fleet, s: Fleet, e: nat,
                              replies: nat -> bool) {
    && e < |events1| == |events| && RowsFollow(s1.items, s, e, replies)
    && (if NobodyWaitsIn(s1.items, e) then s == s1 && (events1[e].status == Completed ==> events[e] == events1[e])
        else CountersFollow(events1[e], events[e], s1.items, s.items, e))
    && (Backed(s1.bots, s1.items) ==> NobodyLeftOut(s1.items, s.items, e))
  }

  lemma NobodyFollows(s: Fleet, e: nat, replies: nat -> bool)
    requires NobodyWaitsIn(s.items, e)
    ensures RowsFollow(s.items, s, e, replies) && NobodyLeftOut(s.items, s.items, e)
  {
    CountNone(s.items, WaitingIn(e));
  }

  lemma NobodyIsHandled(events: seq<RecoveryEvent>, s: Fleet, e: nat, replies: nat -> bool)
    requires e < |events| && NobodyWaitsIn(s.items, e)
    ensures RestHandled(events, events, s, s, e, replies)
  {
    NobodyFollows(s, e, replies);
  }

  lemma RetryIsHandled(events1: seq<RecoveryEvent>, events: seq<RecoveryEvent>, r: Retry, s: Fleet, report: Report)
    requires r.event < |events1| && events == events1[r.event := RetriedRow(events1[r.event], report)]
    requires RetryDone(r, s, report) && !NobodyWaitsIn(r.start.items, r.event)
    ensures RestHandled(events1, events, r.start, s, r.event, r.replies)
  {
    RetryCounts(events1[r.event], r, s, report);
  }

  /** Nothing is left to finalize once the counters follow the rows. */
  lemma AlreadyFinal(event0: RecoveryEvent, event: RecoveryEvent, items0: seq<RecoveryItem>, items: seq<RecoveryItem>,
                     e: nat)
    requires CountersFollow(event0, event, items0, items, e) && OnlyEvent(items0, items, e) && NobodyWaitsIn(items, e)
    ensures event.status == Completed
  {
    var rows := items[|items0|..];
    CountNone(items, WaitingIn(e));
    forall n | 0 <= n < |rows| ensures !HasStatus(WaitingItem)(rows[n]) {
      assert rows[n] == items[|items0| + n];
    }
    CountNone(rows, HasStatus(WaitingItem));
  }

  lemma FinalizedIsHandled(events1: seq<RecoveryEvent>, events2: seq<RecoveryEvent>, events: seq<RecoveryEvent>,
                           s1: Fleet, s: Fleet, e: nat, replies: nat -> bool)
    requires RestHandled(events1, events2, s1, s, e, replies) && OnlyEvent(s1.items, s.items, e)
    requires events == if NobodyWaitsIn(s.items, e) && events2[e].status != Completed
                       then events2[e := events2[e].(status := Completed, waiting := 0)] else events2
    ensures RestHandled(events1, events, s1, s, e, replies)
  {
    if !NobodyWaitsIn(s1.items, e) && NobodyWaitsIn(s.items, e) {
      AlreadyFinal(events1[e], events2[e], s1.items, s.items, e);
    }
  }

  /** What closing the rows that are given up has done: those rows fail, and the event counts them as failed. */
  ghost predicate GaveUp(events0: seq<RecoveryEvent>, events1: seq<RecoveryEvent>, s0: Fleet, s1: Fleet, e: nat,
                         now: int) {
    && e < |events0| == |events1| && s1 == s0.(items := s1.items)
    && GivesUp(events0[e].startedAt, now, s0.items, s1.items, e)
    && var waited, left := Count(s0.items, WaitingIn(e)), Count(s1.items, WaitingIn(e));
       left <= waited && events1[e] == if left == waited then events0[e] else
         events0[e].(status := if left > 0 then Partial else Completed, failed := events0[e].failed + waited - left,
                    waiting := left)
  }

  lemma NobodyLeftCounts(event0: RecoveryEvent, event: RecoveryEvent, items0: seq<RecoveryItem>,
                         items: seq<RecoveryItem>, e: nat)
    requires |items| == |items0| && NobodyWaitsIn(items, e)
    requires event == event0.(status := Completed, failed := event0.failed + Count(items0, WaitingIn(e)), waiting := 0)
    ensures CountersFollow(event0, event, items0, items, e)
  {
    assert items[|items0|..] == [];
  }

  lemma VisitCounts(events0: seq<RecoveryEvent>, events1: seq<RecoveryEvent>, events: seq<RecoveryEvent>, s0: Fleet,
                    s1: Fleet, s: Fleet, e: nat, now: int, replies: nat -> bool)
    requires GaveUp(events0, events1, s0, s1, e, now) && RestHandled(events1, events, s1, s, e, replies)
    requires !NobodyWaitsIn(s0.items, e)
    ensures CountersFollow(events0[e], events[e], s0.items, s.items, e)
  {
    if NobodyWaitsIn(s1.items, e) { NobodyLeftCounts(events0[e], events[e], s0.items, s.items, e); }
  }

  lemma VisitLeavesNobodyOut(startedAt: int, now: int, items0: seq<RecoveryItem>, items1: seq<RecoveryItem>,
                             items: seq<RecoveryItem>, s: Fleet, e: nat, replies: nat -> bool)
    requires GivesUp(startedAt, now, items0, items1, e) && RowsFollow(items1, s, e, replies) && s.items == items
    requires NobodyLeftOut(items1, items, e)
    ensures NobodyLeftOut(items0, items, e)
  {
    forall i: nat | Waits(items0, e, i) ensures items[i].status != WaitingItem {
      if GivenUp(startedAt, now, items0[i]) { assert !Waits(items1, e, i); } else { assert Waits(items1, e, i); }
    }
  }

  lemma GivingUpKeepsBacking(startedAt: int, now: int, bots: seq<Bot>, items0: seq<RecoveryItem>,
                             items1: seq<RecoveryItem>, e: nat)
    requires Backed(bots, items0) && GivesUp(startedAt, now, items0, items1, e)
    ensures Backed(bots, items1)
  {
    forall tenant, source ensures Count(items1, WaitingFor(tenant, source)) <= Count(bots, BotOf(tenant, source)) {
      FewerWaiting(items0, items1, WaitingFor(tenant, source));
    }
  }

  lemma VisitIsHandled(events0: seq<RecoveryEvent>, events1: seq<RecoveryEvent>, events: seq<RecoveryEvent>, s0: Fleet,
                       s1: Fleet, s: Fleet, e: nat, now: int, replies: nat -> bool)
    requires GaveUp(events0, events1, s0, s1, e, now) && RestHandled(events1, events, s1, s, e, replies)
    ensures Handled(events0, events, s0, s, e, now, replies)
  {
    if Backed(s0.bots, s0.items) { GivingUpKeepsBacking(events0[e].startedAt, now, s0.bots, s0.items, s1.items, e); }
    VisitHandlesRows(events0[e].startedAt, now, s0.items, s1.items, s, e, replies);
    if !NobodyWaitsIn(s0.items, e) { VisitCounts(events0, events1, events, s0, s1, s, e, now, replies); }
    if Backed(s1.bots, s1.items) {
      VisitLeavesNobodyOut(events0[e].startedAt, now, s0.items, s1.items, s.items, s, e, replies);
    }
  }

  lemma IdleIsHandled(events: seq<RecoveryEvent>, s: Fleet, e: nat, now: int, replies: nat -> bool)
    requires e < |events| && NobodyWaitsIn(s.items, e)
    ensures Handled(events, events, s, s, e, now, replies)
  {
    CountNone(s.items, WaitingIn(e));
  }

  lemma ClosingIsGivingUp(events0: seq<RecoveryEvent>, events1: seq<RecoveryEvent>, s0: Fleet, s1: Fleet, e: nat,
                          now: int, closed: seq<nat>)
    requires e < |events0| && s1 == s0.(items := s1.items) && ClosedAsFailed(s0.items, s1.items, closed)
    requires forall i :: i in closed <==>
      0 <= i < |s0.items| && WaitingIn(e)(s0.items[i]) && GivenUp(events0[e].startedAt, now, s0.items[i])
    requires Count(s1.items, WaitingIn(e)) == Count(s0.items, WaitingIn(e)) - |closed|
    requires events1 == if closed == [] then events0
                        else events0[e := ExpiredRow(events0[e], |closed|, Count(s1.items, WaitingIn(e)))]
    ensures GaveUp(events0, events1, s0, s1, e, now)
  {
    ClosingGivesUp(events0[e].startedAt, now, s0.items, s1.items, e, closed);
  }

  // ---- A pass ----

  datatype Snapshot = Snapshot(events: seq<RecoveryEvent>, fleet: Fleet)

  function RepliesFor(replies: (nat, nat) -> bool, e: nat): nat -> bool { (x: nat) => replies(e, x) }

  /** One visit of a pass: only event e is touched, and it is handled. */
  ghost predicate VisitMade(a: Snapshot, b: Snapshot, e: nat, now: int, replies: nat -> bool) {
    && OnlyEventRow(a.events, b.events, e) && OnlyEvent(a.fleet.items, b.fleet.items, e)
    && Handled(a.events, b.events, a.fleet, b.fleet, e, now, replies)
    && (Closed(a.events, a.fleet) ==> Closed(b.events, b.fleet))
  }

  /** The tables before each visit and at the end of the pass so far. */
  ghost predicate Visits(trail: seq<Snapshot>, open: seq<nat>, now: int, replies: (nat, nat) -> bool) {
    && 0 < |trail| <= |open| + 1
    && forall x: nat | x < |trail| - 1 :: VisitMade(trail[x], trail[x + 1], open[x], now, RepliesFor(replies, open[x]))
  }

  lemma VisitsNext(trail: seq<Snapshot>, open: seq<nat>, now: int, replies: (nat, nat) -> bool, next: Snapshot)
    requires Visits(trail, open, now, replies) && |trail| <= |open|
    requires var x := |trail| - 1; VisitMade(trail[x], next, open[x], now, RepliesFor(replies, open[x]))
    ensures Visits(trail + [next], open, now, replies)
  {
    var n, trail' := |trail| - 1, trail + [next];
    forall x: nat | x < n + 1
      ensures VisitMade(trail'[x], trail'[x + 1], open[x], now, RepliesFor(replies, open[x]))
    {
      if x < n { assert VisitMade(trail[x], trail[x + 1], open[x], now, RepliesFor(replies, open[x])); }
    }
  }

  /** A pass: the events open at its start are visited in turn, each once. */
  ghost predicate Passed(a: Snapshot, b: Snapshot, trail: seq<Snapshot>, now: int, replies: (nat, nat) -> bool) {
    var open := Positions(a.events, (e: RecoveryEvent) => e.status != Completed);
    && |trail| == |open| + 1 && trail[0] == a && trail[|open|] == b && Visits(trail, open, now, replies)
  }

  /** Between two moments of a pass that do not visit e, its rows stay. */
  ghost predicate SameFor(a: Snapshot, b: Snapshot, e: nat) {
    && |a.fleet.items| <= |b.fleet.items| && SameEvents(a.events, b.events)
    && (forall i: nat | i < |a.fleet.items| :: b.fleet.items[i].event == a.fleet.items[i].event)
    && (forall i: nat | i < |a.fleet.items| && a.fleet.items[i].event == e :: b.fleet.items[i] == a.fleet.items[i])
    && (Closed(a.events, a.fleet) ==> Closed(b.events, b.fleet))
  }

  lemma VisitElsewhere(a: Snapshot, b: Snapshot, c: Snapshot, e: nat, other: nat, now: int, replies: nat -> bool)
    requires SameFor(a, b, e) && VisitMade(b, c, other, now, replies) && other != e
    ensures SameFor(a, c, e)
  {
    forall i: nat | i < |a.fleet.items| ensures c.fleet.items[i].event == a.fleet.items[i].event {
      if b.fleet.items[i].event != other { assert c.fleet.items[i] == b.fleet.items[i]; }
    }
  }

  lemma {:induction false} RowsStay(trail: seq<Snapshot>, open: seq<nat>, now: int, replies: (nat, nat) -> bool,
                                    from: nat, to: nat, e: nat)
    requires Visits(trail, open, now, replies) && from <= to < |trail| && e !in open[from..to]
    ensures SameFor(trail[from], trail[to], e)
  {
    if from < to {
      var x := to - 1;
      assert open[from..to] == open[from..x] + [open[x]];
      RowsStay(trail, open, now, replies, from, x, e);
      VisitElsewhere(trail[from], trail[x], trail[to], e, open[x], now, RepliesFor(replies, open[x]));
    }
  }

  /** Some visit found none of the tenant's bots on the node. */
  ghost predicate BotWasMissing(trail: seq<Snapshot>, tenant: string, node: string) {
    exists x: nat | x < |trail| :: NoBotOn(trail[x].fleet.bots, tenant, node)
  }

  /** The end of a row that waited in an open event when the pass began. */
  ghost predicate RowPassed(trail: seq<Snapshot>, items0: seq<RecoveryItem>, items: seq<RecoveryItem>, startedAt: int,
                            now: int, i: nat, works: bool)
    requires i < |items0| <= |items|
  {
    if GivenUp(startedAt, now, items0[i]) then items[i] == items0[i].(status := FailedItem)
    else
      || (items[i] == items0[i].(status := RetriedItem, retryCount := items0[i].retryCount + 1)
          && exists n | |items0| <= n < |items| :: CarriesOn(items0[i], items[n], works))
      || (items[i] == items0[i] && BotWasMissing(trail, items0[i].tenant, items0[i].source))
  }

  /** Every row that waited in an open event fails if it is given up, and is retried or lacks a bot if not. */
  ghost predicate OpenRowsPassed(trail: seq<Snapshot>, events0: seq<RecoveryEvent>, items0: seq<RecoveryItem>,
                                 items: seq<RecoveryItem>, now: int, replies: (nat, nat) -> bool) {
    && |items0| <= |items|
    && forall e: nat, i: nat | e < |events0| && events0[e].status != Completed && Waits(items0, e, i) ::
      RowPassed(trail, items0, items, events0[e].startedAt, now, i,
        replies(e, Count(items0[..i], RetriedIn(e, events0[e].startedAt, now))))
  }

  ghost predicate OpenRowsTried(events0: seq<RecoveryEvent>, items0: seq<RecoveryItem>, items: seq<RecoveryItem>) {
    && |items0| <= |items|
    && forall e: nat, i: nat | e < |events0| && events0[e].status != Completed && Waits(items0, e, i) ::
      items[i].status != WaitingItem
  }

  lemma PassFailsIffGivenUp(trail: seq<Snapshot>, events0: seq<RecoveryEvent>, items0: seq<RecoveryItem>,
                            items: seq<RecoveryItem>, now: int, replies: (nat, nat) -> bool)
    requires OpenRowsPassed(trail, events0, items0, items, now, replies)
    ensures forall e: nat, i: nat | e < |events0| && events0[e].status != Completed && Waits(items0, e, i) ::
      items[i].status == FailedItem <==> now - events0[e].startedAt >= 86_400 || items0[i].retryCount >= 5
  {
    forall e: nat, i: nat | e < |events0| && events0[e].status != Completed && Waits(items0, e, i)
      ensures items[i].status == FailedItem <==> now - events0[e].startedAt >= 86_400 || items0[i].retryCount >= 5
    {
      assert items[i].status != FailedItem || GivenUp(events0[e].startedAt, now, items0[i]);
    }
  }

  lemma SameTurn(a: Snapshot, b: Snapshot, e: nat, startedAt: int, now: int, i: nat)
    requires SameFor(a, b, e) && i < |a.fleet.items|
    ensures Count(b.fleet.items[..i], RetriedIn(e, startedAt, now))
         == Count(a.fleet.items[..i], RetriedIn(e, startedAt, now))
  {
    var items0, items := a.fleet.items[..i], b.fleet.items[..i];
    forall k | 0 <= k < i
      ensures RetriedIn(e, startedAt, now)(items[k]) == RetriedIn(e, startedAt, now)(items0[k])
    {
      assert items[k].event == items0[k].event;
    }
    CountSame(items, items0, RetriedIn(e, startedAt, now));
  }

  /** The visit x to the row's event decides; before it and after it the row stays. */
  lemma RowPasses(trail: seq<Snapshot>, open: seq<nat>, now: int, replies: (nat, nat) -> bool, x: nat, i: nat)
    requires Visits(trail, open, now, replies) && |trail| == |open| + 1 && x < |open| && Distinct(open)
    requires Waits(trail[0].fleet.items, open[x], i) && open[x] < |trail[0].events|
    ensures var a, b, startedAt := trail[0].fleet.items, trail[|open|].fleet.items, trail[0].events[open[x]].startedAt;
      && |a| <= |b|
      && RowPassed(trail, a, b, startedAt, now, i, replies(open[x], Count(a[..i], RetriedIn(open[x], startedAt, now))))
      && (Closed(trail[0].events, trail[0].fleet) ==> b[i].status != WaitingItem)
  {
    var e, n := open[x], |open|;
    RowsStay(trail, open, now, replies, 0, x, e);
    RowsStay(trail, open, now, replies, x + 1, n, e);
    SameTurn(trail[0], trail[x], e, trail[0].events[e].startedAt, now, i);
    var a, b := trail[x], trail[x + 1];
    assert VisitMade(a, b, e, now, RepliesFor(replies, e)) && Waits(a.fleet.items, e, i);
    if LeftForWantOfBot(a.fleet.items, b.fleet, i) {
      assert BotWasMissing(trail, a.fleet.items[i].tenant, a.fleet.items[i].source);
    }
  }

  lemma PassHandlesRows(trail: seq<Snapshot>, open: seq<nat>, now: int, replies: (nat, nat) -> bool)
    requires Visits(trail, open, now, replies) && |trail| == |open| + 1
    requires open == Positions(trail[0].events, (e: RecoveryEvent) => e.status != Completed)
    ensures OpenRowsPassed(trail, trail[0].events, trail[0].fleet.items, trail[|open|].fleet.items, now, replies)
    ensures Closed(trail[0].events, trail[0].fleet) ==>
      OpenRowsTried(trail[0].events, trail[0].fleet.items, trail[|open|].fleet.items)
  {
    var events0, items0, items := trail[0].events, trail[0].fleet.items, trail[|open|].fleet.items;
    PositionsAre(events0, (e: RecoveryEvent) => e.status != Completed);
    forall e: nat, i: nat | e < |events0| && events0[e].status != Completed && Waits(items0, e, i)
      ensures |items0| <= |items|
      ensures RowPassed(trail, items0, items, events0[e].startedAt, now, i,
        replies(e, Count(items0[..i], RetriedIn(e, events0[e].startedAt, now))))
      ensures Closed(events0, trail[0].fleet) ==> items[i].status != WaitingItem
    {
      var x: nat :| x < |open| && open[x] == e;
      RowPasses(trail, open, now, replies, x, i);
    }
    RowsOnlyGrow(trail, open, now, replies, |open|);
  }

  lemma {:induction false} RowsOnlyGrow(trail: seq<Snapshot>, open: seq<nat>, now: int, replies: (nat, nat) -> bool,
                                        to: nat)
    requires Visits(trail, open, now, replies) && to < |trail|
    ensures |trail[0].fleet.items| <= |trail[to].fleet.items|
  {
    if to > 0 {
      RowsOnlyGrow(trail, open, now, replies, to - 1);
      assert VisitMade(trail[to - 1], trail[to], open[to - 1], now, RepliesFor(replies, open[to - 1]));
    }
  }
}
