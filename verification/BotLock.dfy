/**
 The per-bot lock of the fleet manager: each caller waits for the promise of the caller before it and leaves its own
 in the map. A promise is identified with the call that made it; it is resolved once that call has ended.
 */
module BotLock {
  import opened Basics

  datatype Phase = Waiting | Running | Ended(threw: bool)
  datatype Call = Call(bot: string, prev: Option<nat>, phase: Phase)

  /** All calls so far in order of arrival, and the map of the newest unresolved promise per bot. */
  datatype World = World(calls: seq<Call>, locks: map<string, nat>)

  /** What the event loop may run next: a new call, a call whose wait is over, or the end of a body. */
  datatype Event = Arrive(bot: string) | Enter(call: nat) | Finish(call: nat, threw: bool)

  predicate IsResolved(w: World, prev: Option<nat>) {
    prev.None? || (prev.value < |w.calls| && w.calls[prev.value].phase.Ended?)
  }

  predicate CanEnter(w: World, c: nat) {
    c < |w.calls| && w.calls[c].phase == Waiting && IsResolved(w, w.calls[c].prev)
  }

  predicate CanFinish(w: World, c: nat) { c < |w.calls| && w.calls[c].phase == Running }

  /** An event that is not possible leaves the world as it is. */
  function Step(w: World, e: Event): World {
    match e
    case Arrive(bot) =>
      var prev := if bot in w.locks then Some(w.locks[bot]) else None;
      World(w.calls + [Call(bot, prev, Waiting)], w.locks[bot := |w.calls|])
    case Enter(c) =>
      if CanEnter(w, c) then w.(calls := w.calls[c := w.calls[c].(phase := Running)]) else w
    case Finish(c, threw) =>
      if CanFinish(w, c) then
        var bot := w.calls[c].bot;
        World(w.calls[c := w.calls[c].(phase := Ended(threw))],
          if bot in w.locks && w.locks[bot] == c then w.locks - {bot} else w.locks)
      else w
  }

  function Run(events: seq<Event>): World {
    if events == [] then World([], map[]) else Step(Run(events[..|events| - 1]), events[|events| - 1])
  }

  // ---- Invariant ----

  ghost predicate IsDone(w: World, c: nat)
    requires c < |w.calls|
  {
    w.calls[c].phase.Ended?
  }

  /** Nobody of the bot arrived in between, or everybody before has ended. */
  ghost predicate PrevIsLatest(w: World, c: nat)
    requires c < |w.calls|
  {
    match w.calls[c].prev
    case None => forall d | 0 <= d < c && w.calls[d].bot == w.calls[c].bot :: IsDone(w, d)
    case Some(p) =>
      p < c && w.calls[p].bot == w.calls[c].bot && forall d | p < d < c :: w.calls[d].bot != w.calls[c].bot
  }

  ghost predicate EntersInTurn(w: World, c: nat)
    requires c < |w.calls|
  {
    w.calls[c].phase != Waiting ==> IsResolved(w, w.calls[c].prev)
  }

  /** The map entry is the newest call of the bot, still unresolved; without one, all have ended. */
  ghost predicate EntryIsNewest(w: World, bot: string) {
    if bot in w.locks then
      var n := w.locks[bot];
      n < |w.calls| && w.calls[n].bot == bot && !IsDone(w, n) && forall d | n < d < |w.calls| :: w.calls[d].bot != bot
    else forall d | 0 <= d < |w.calls| && w.calls[d].bot == bot :: IsDone(w, d)
  }

  ghost predicate Sound(w: World) {
    && (forall c | 0 <= c < |w.calls| :: PrevIsLatest(w, c))
    && (forall c | 0 <= c < |w.calls| :: EntersInTurn(w, c))
    && (forall bot :: EntryIsNewest(w, bot))
  }

  /** Whoever has entered finds every earlier caller of the bot gone. */
  lemma {:induction false} EarlierCallersAreDone(w: World, c: nat, d: nat)
    requires Sound(w) && d < c < |w.calls| && w.calls[d].bot == w.calls[c].bot && w.calls[c].phase != Waiting
    ensures IsDone(w, d)
    decreases c
  {
    assert PrevIsLatest(w, c) && EntersInTurn(w, c);
    match w.calls[c].prev
    case None =>
    case Some(p) =>
      assert d <= p;
      if d < p { EarlierCallersAreDone(w, p, d); }
  }

  lemma ArriveKeepsSound(w: World, bot: string)
    requires Sound(w)
    ensures Sound(Step(w, Arrive(bot)))
  {
    var w' := Step(w, Arrive(bot));
    assert EntryIsNewest(w, bot);
    forall c | 0 <= c < |w'.calls| ensures PrevIsLatest(w', c) && EntersInTurn(w', c) {
      if c < |w.calls| { assert w'.calls[c] == w.calls[c] && PrevIsLatest(w, c) && EntersInTurn(w, c); }
    }
    forall b ensures EntryIsNewest(w', b) { assert EntryIsNewest(w, b); }
  }

  lemma EnterKeepsSound(w: World, c: nat)
    requires Sound(w) && CanEnter(w, c)
    ensures Sound(Step(w, Enter(c)))
  {
    var w' := Step(w, Enter(c));
    forall x | 0 <= x < |w'.calls| ensures PrevIsLatest(w', x) && EntersInTurn(w', x) {
      assert PrevIsLatest(w, x) && EntersInTurn(w, x);
    }
    forall b ensures EntryIsNewest(w', b) { assert EntryIsNewest(w, b); }
  }

  lemma FinishKeepsEntries(w: World, c: nat, threw: bool, bot: string)
    requires Sound(w) && CanFinish(w, c)
    ensures EntryIsNewest(Step(w, Finish(c, threw)), bot)
  {
    var w' := Step(w, Finish(c, threw));
    assert EntryIsNewest(w, bot);
    if bot == w.calls[c].bot && bot !in w'.locks {
      forall d | 0 <= d < |w'.calls| && w'.calls[d].bot == bot ensures IsDone(w', d) {
        if d < c { EarlierCallersAreDone(w, c, d); }
      }
    }
  }

  lemma FinishKeepsSound(w: World, c: nat, threw: bool)
    requires Sound(w) && CanFinish(w, c)
    ensures Sound(Step(w, Finish(c, threw)))
  {
    var w' := Step(w, Finish(c, threw));
    forall x | 0 <= x < |w'.calls| ensures PrevIsLatest(w', x) && EntersInTurn(w', x) {
      assert PrevIsLatest(w, x) && EntersInTurn(w, x);
      assert forall d | 0 <= d < |w.calls| :: IsDone(w, d) ==> IsDone(w', d);
    }
    forall b ensures EntryIsNewest(w', b) { FinishKeepsEntries(w, c, threw, b); }
  }

  lemma StepKeepsSound(w: World, e: Event)
    requires Sound(w)
    ensures Sound(Step(w, e))
  {
    match e
    case Arrive(bot) => ArriveKeepsSound(w, bot);
    case Enter(c) => if CanEnter(w, c) { EnterKeepsSound(w, c); }
    case Finish(c, threw) => if CanFinish(w, c) { FinishKeepsSound(w, c, threw); }
  }

  lemma {:induction false} RunIsSound(events: seq<Event>)
    ensures Sound(Run(events))
  {
    if events != [] {
      RunIsSound(events[..|events| - 1]);
      StepKeepsSound(Run(events[..|events| - 1]), events[|events| - 1]);
    }
  }

  // ---- What every schedule guarantees ----

  /** At most one body per bot runs at a time. */
  lemma MutualExclusion(events: seq<Event>, c: nat, d: nat)
    requires var calls := Run(events).calls;
      c < |calls| && d < |calls| && calls[c].bot == calls[d].bot && calls[c].phase == Running
        && calls[d].phase == Running
    ensures c == d
  {
    RunIsSound(events);
    if c < d { EarlierCallersAreDone(Run(events), d, c); }
    if d < c { EarlierCallersAreDone(Run(events), c, d); }
  }

  /** Bodies of one bot run in order of arrival: nobody starts before an earlier caller has ended, in a throw or not. */
  lemma FirstComeFirstServed(events: seq<Event>, c: nat, d: nat)
    requires var calls := Run(events).calls;
      d < c < |calls| && calls[d].bot == calls[c].bot && calls[c].phase != Waiting
    ensures Run(events).calls[d].phase.Ended?
  {
    RunIsSound(events);
    EarlierCallersAreDone(Run(events), c, d);
  }

  /** The map holds a bot exactly while some call for it has not ended. */
  lemma KeyIffCallerPresent(events: seq<Event>, bot: string)
    ensures var w := Run(events);
      bot in w.locks <==> exists c | 0 <= c < |w.calls| :: w.calls[c].bot == bot && !w.calls[c].phase.Ended?
  {
    RunIsSound(events);
    var w := Run(events);
    assert EntryIsNewest(w, bot);
    if bot !in w.locks {
      forall c | 0 <= c < |w.calls| && w.calls[c].bot == bot ensures w.calls[c].phase.Ended? { assert IsDone(w, c); }
    }
  }

  // ---- Nobody waits for ever ----

  /** The oldest call of a bot that has not ended can enter or finish. */
  lemma OldestCanMove(w: World, c: nat)
    requires Sound(w) && c < |w.calls| && !IsDone(w, c)
    requires forall d | 0 <= d < c && w.calls[d].bot == w.calls[c].bot :: IsDone(w, d)
    ensures CanEnter(w, c) || CanFinish(w, c)
  {
    assert PrevIsLatest(w, c);
  }

  /** Whoever waits, some call of its bot, no later one, can move. */
  lemma {:induction false} SomebodyCanMove(events: seq<Event>, c: nat) returns (d: nat)
    requires c < |Run(events).calls| && !IsDone(Run(events), c)
    ensures var w := Run(events); d <= c && w.calls[d].bot == w.calls[c].bot && (CanEnter(w, d) || CanFinish(w, d))
    decreases c
  {
    RunIsSound(events);
    var w := Run(events);
    if x :| 0 <= x < c && w.calls[x].bot == w.calls[c].bot && !IsDone(w, x) {
      d := SomebodyCanMove(events, x);
    } else {
      d := c;
      OldestCanMove(w, c);
    }
  }

  /** Steps a call still has to make. */
  function StepsLeft(calls: seq<Call>): nat {
    if calls == [] then 0 else
      var last := calls[|calls| - 1];
      StepsLeft(calls[..|calls| - 1]) + if last.phase == Waiting then 2 else if last.phase == Running then 1 else 0
  }

  lemma {:induction false} StepsAfterUpdate(calls: seq<Call>, c: nat, call: Call)
    requires c < |calls|
    requires (calls[c].phase == Waiting && call.phase == Running) || (calls[c].phase == Running && call.phase.Ended?)
    ensures StepsLeft(calls[c := call]) == StepsLeft(calls) - 1
  {
    var n := |calls| - 1;
    if c < n {
      assert calls[c := call][..n] == calls[..n][c := call];
      StepsAfterUpdate(calls[..n], c, call);
    } else {
      assert calls[c := call][..n] == calls[..n];
    }
  }

  /** Every move of a call brings the end nearer by one. */
  lemma MovesBringTheEnd(w: World, c: nat, threw: bool)
    ensures CanEnter(w, c) ==> StepsLeft(Step(w, Enter(c)).calls) == StepsLeft(w.calls) - 1
    ensures CanFinish(w, c) ==> StepsLeft(Step(w, Finish(c, threw)).calls) == StepsLeft(w.calls) - 1
  {
    if CanEnter(w, c) { StepsAfterUpdate(w.calls, c, w.calls[c].(phase := Running)); }
    if CanFinish(w, c) { StepsAfterUpdate(w.calls, c, w.calls[c].(phase := Ended(threw))); }
  }

  ghost predicate AllDone(w: World) { forall c | 0 <= c < |w.calls| :: w.calls[c].phase.Ended? }

  lemma {:induction false} NoStepsLeft(calls: seq<Call>)
    requires forall c | 0 <= c < |calls| :: calls[c].phase.Ended?
    ensures StepsLeft(calls) == 0
  {
    if calls != [] { NoStepsLeft(calls[..|calls| - 1]); }
  }

  lemma NothingLocked(events: seq<Event>)
    requires AllDone(Run(events))
    ensures StepsLeft(Run(events).calls) == 0 && Run(events).locks == map[]
  {
    NoStepsLeft(Run(events).calls);
    forall bot ensures bot !in Run(events).locks { KeyIffCallerPresent(events, bot); }
  }

  lemma NextMove(events: seq<Event>) returns (e: Event)
    requires !AllDone(Run(events))
    ensures !e.Arrive? && StepsLeft(Run(events + [e]).calls) == StepsLeft(Run(events).calls) - 1
  {
    var w := Run(events);
    var c: nat :| c < |w.calls| && !w.calls[c].phase.Ended?;
    var d := SomebodyCanMove(events, c);
    MovesBringTheEnd(w, d, false);
    e := if CanEnter(w, d) then Enter(d) else Finish(d, false);
    assert (events + [e])[..|events|] == events;
  }

  /** These events, none of them an arrival, end all calls in just the steps they have left, and leave the map empty. */
  ghost predicate EndsAll(events: seq<Event>, more: seq<Event>) {
    && (forall e | e in more :: !e.Arrive?)
    && |more| == StepsLeft(Run(events).calls)
    && AllDone(Run(events + more)) && Run(events + more).locks == map[]
  }

  lemma OneMoveMore(events: seq<Event>, e: Event, rest: seq<Event>)
    requires !e.Arrive? && StepsLeft(Run(events + [e]).calls) == StepsLeft(Run(events).calls) - 1
    requires EndsAll(events + [e], rest)
    ensures EndsAll(events, [e] + rest)
  {
    assert events + ([e] + rest) == events + [e] + rest;
  }

  /** Whatever has happened, without new arrivals all calls can end. */
  lemma {:induction false} CanAlwaysFinish(events: seq<Event>) returns (more: seq<Event>)
    ensures EndsAll(events, more)
    decreases StepsLeft(Run(events).calls)
  {
    if AllDone(Run(events)) {
      more := [];
      assert events + [] == events;
      NothingLocked(events);
    } else {
      var e := NextMove(events);
      var rest := CanAlwaysFinish(events + [e]);
      more := [e] + rest;
      OneMoveMore(events, e, rest);
    }
  }

  // ---- The pieces of withLock between its awaits ----

  class FleetManager {
    var locks: map<string, nat>
    var calls: seq<Call>

    function Contents(): World
      reads this
    {
      World(calls, locks)
    }

    ghost predicate Valid()
      reads this
    {
      Sound(Contents())
    }

    constructor ()
      ensures Valid() && Contents() == World([], map[])
    {
      locks, calls := map[], [];
    }

    /** Up to `await prev`. */
    method BeginWithLock(bot: string) returns (next: nat)
      requires Valid()
      modifies this
      ensures Valid() && next == |old(calls)|
      ensures Contents() == Step(old(Contents()), Arrive(bot))
    {
      StepKeepsSound(Contents(), Arrive(bot));
      var prev := if bot in locks then Some(locks[bot]) else None;
      next := |calls|;
      calls := calls + [Call(bot, prev, Waiting)];
      locks := locks[bot := next];
    }

    /** The wait is over and the body starts. */
    method StartBody(next: nat)
      requires Valid() && CanEnter(Contents(), next)
      modifies this
      ensures Valid()
      ensures Contents() == Step(old(Contents()), Enter(next))
    {
      StepKeepsSound(Contents(), Enter(next));
      calls := calls[next := calls[next].(phase := Running)];
    }

    /** The `finally` block: resolve, and take the entry out of the map unless somebody queued behind. */
    method EndBody(next: nat, threw: bool)
      requires Valid() && CanFinish(Contents(), next)
      modifies this
      ensures Valid()
      ensures Contents() == Step(old(Contents()), Finish(next, threw))
    {
      StepKeepsSound(Contents(), Finish(next, threw));
      var bot := calls[next].bot;
      calls := calls[next := calls[next].(phase := Ended(threw))];
      if bot in locks && locks[bot] == next { locks := locks - {bot}; }
    }
  }
}
