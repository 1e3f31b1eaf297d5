/**
 Deadlocks of any number of calls.  Whatever the interleaving, whether one is possible is decided by where calls can be
 stopped when each runs alone: after some calls have run one at a time, the others must be able to stop at statements
 where their locks are apart and each wants a lock that another of them holds.
 */
module LedgerStandstill {
  import opened Basics
  import opened LedgerBooks
  import opened LedgerSteps
  import opened LedgerLocking
  import opened LedgerConcurrency
  import opened LedgerDeadlock
  import opened LedgerSchedules
  import opened LedgerHazard
  import opened LedgerUnchecked

  /** What call t holds when it stands before the statement at its stop. */
  function HeldAt(progs: seq<seq<Op>>, stops: map<nat, nat>, t: nat): set<Resource> {
    if t in stops && t < |progs| && stops[t] <= |progs[t]| then LocksOf(progs[t][..stops[t]]) else {}
  }

  /** Running alone on the books, the call gets to its stop. */
  ghost predicate CanStop(b: Books, progs: seq<seq<Op>>, t: nat, n: nat) {
    t < |progs| && n < |progs[t]| && Drive(b, EMPTY_DRAFT, progs[t][..n]).Going?
  }

  /** At its stop call t wants a lock that call u holds at its own. */
  predicate Hinders(progs: seq<seq<Op>>, stops: map<nat, nat>, t: nat, u: nat) {
    && t in stops && t < |progs| && stops[t] < |progs[t]| && u in stops && u != t
    && !(Wants(progs[t][stops[t]]) !! HeldAt(progs, stops, u))
  }

  ghost predicate AllCanStop(b: Books, progs: seq<seq<Op>>, stops: map<nat, nat>) {
    forall t | t in stops :: CanStop(b, progs, t, stops[t])
  }

  ghost predicate StopsApart(progs: seq<seq<Op>>, stops: map<nat, nat>) {
    forall t, u | t in stops && u in stops && t != u :: HeldAt(progs, stops, t) !! HeldAt(progs, stops, u)
  }

  ghost predicate IsHindered(progs: seq<seq<Op>>, stops: map<nat, nat>, t: nat) {
    exists u :: Hinders(progs, stops, t, u)
  }

  ghost predicate AllHindered(progs: seq<seq<Op>>, stops: map<nat, nat>) {
    forall t {:trigger IsHindered(progs, stops, t)} | t in stops :: IsHindered(progs, stops, t)
  }

  /** Each of the calls alone gets to its stop, no lock is held twice, and each wants a lock of another. */
  ghost predicate Jam(b: Books, progs: seq<seq<Op>>, stops: map<nat, nat>) {
    stops != map[] && AllCanStop(b, progs, stops) && StopsApart(progs, stops) && AllHindered(progs, stops)
  }

  /** Different calls of the run, none of those that are stopped. */
  ghost predicate Separate(txns: seq<Txn>, first: seq<nat>, stops: map<nat, nat>) {
    && (forall k | 0 <= k < |first| :: first[k] < |txns| && first[k] !in stops)
    && (forall j, k | 0 <= j < k < |first| :: first[j] != first[k])
  }

  function InOrder(txns: seq<Txn>, first: seq<nat>): (r: seq<Txn>)
    requires forall k | 0 <= k < |first| :: first[k] < |txns|
    ensures |r| == |first| && forall k | 0 <= k < |r| :: r[k] == txns[first[k]]
  {
    seq(|first|, k requires 0 <= k < |first| => txns[first[k]])
  }

  /** After some calls have run one at a time, others can be stopped in a jam. */
  ghost predicate JamsAfter(b: Books, txns: seq<Txn>, first: seq<nat>, stops: map<nat, nat>) {
    Separate(txns, first, stops) && Jam(ExecAll(b, InOrder(txns, first)), Programs(txns), stops)
  }

  // ---- A deadlock is a jam ----

  function Ended(log: seq<Logged>): (r: seq<nat>)
    ensures |r| == |log| && forall k | 0 <= k < |r| :: r[k] == log[k].call
  {
    seq(|log|, k requires 0 <= k < |log| => log[k].call)
  }

  function Stops(s: System): map<nat, nat> {
    map t: nat | 0 <= t < |s.calls| && s.calls[t].Active? :: s.calls[t].pc
  }

  lemma HeldWhereStopped(progs: seq<seq<Op>>, s: System, t: nat)
    requires Apart(progs, s) && t in Stops(s)
    ensures HeldAt(progs, Stops(s), t) == Held(progs, s, t)
  {
    assert IsActive(s, t) && HasNext(progs, s, t);
  }

  lemma StuckCallCanStop(progs: seq<seq<Op>>, s: System, t: nat)
    requires Isolated(progs, s) && t in Stops(s)
    ensures CanStop(s.books, progs, t, Stops(s)[t])
  {
    assert RunsAlone(progs, s, t);
  }

  lemma StuckCallIsHindered(progs: seq<seq<Op>>, s: System, t: nat) returns (u: nat)
    requires Apart(progs, s) && Stuck(progs, s) && t in Stops(s)
    ensures Hinders(progs, Stops(s), t, u)
  {
    assert IsActive(s, t) && HasNext(progs, s, t) && !Enabled(progs, s, t);
    u :| 0 <= u < |progs| && WaitsFor(progs, s, t, u);
    assert Held(progs, s, u) != {} && u in Stops(s);
    HeldWhereStopped(progs, s, u);
  }

  lemma StuckCallsAreApart(progs: seq<seq<Op>>, s: System, stops: map<nat, nat>)
    requires Apart(progs, s) && stops == Stops(s)
    ensures StopsApart(progs, stops)
  {
    forall t, u | t in stops && u in stops && t != u ensures HeldAt(progs, stops, t) !! HeldAt(progs, stops, u) {
      HeldWhereStopped(progs, s, t);
      HeldWhereStopped(progs, s, u);
    }
  }

  lemma StuckCallsAreHindered(progs: seq<seq<Op>>, s: System, stops: map<nat, nat>)
    requires Apart(progs, s) && Stuck(progs, s) && stops == Stops(s)
    ensures AllHindered(progs, stops)
  {
    forall t | t in stops ensures IsHindered(progs, stops, t) { var u := StuckCallIsHindered(progs, s, t); }
  }

  lemma StuckCallsCanStop(progs: seq<seq<Op>>, s: System, stops: map<nat, nat>)
    requires Isolated(progs, s) && stops == Stops(s)
    ensures AllCanStop(s.books, progs, stops)
  {
    forall t | t in stops ensures CanStop(s.books, progs, t, stops[t]) { StuckCallCanStop(progs, s, t); }
  }

  lemma SomebodyIsStuck(progs: seq<seq<Op>>, s: System)
    requires Stuck(progs, s)
    ensures Stops(s) != map[]
  {
    var a: nat :| a < |s.calls| && s.calls[a].Active?;
    assert a in Stops(s);
  }

  lemma StuckIsJam(progs: seq<seq<Op>>, s: System, stops: map<nat, nat>)
    requires Isolated(progs, s) && Stuck(progs, s) && stops == Stops(s)
    ensures Jam(s.books, progs, stops)
  {
    SomebodyIsStuck(progs, s);
    StuckCallsCanStop(progs, s, stops);
    StuckCallsAreApart(progs, s, stops);
    StuckCallsAreHindered(progs, s, stops);
  }

  lemma EndedAreSeparate(txns: seq<Txn>, s: System)
    requires LogIsExact(|txns|, s)
    ensures Separate(txns, Ended(s.log), Stops(s))
  {}

  lemma EndedInOrder(txns: seq<Txn>, log: seq<Logged>)
    requires LogInRange(txns, log)
    ensures InOrder(txns, Ended(log)) == Order(txns, log)
  {}

  lemma BooksOfEnded(b: Books, txns: seq<Txn>, s: System)
    requires Serial(b, txns, s)
    ensures forall k | 0 <= k < |s.log| :: s.log[k].call < |txns|
    ensures s.books == ExecAll(b, InOrder(txns, Ended(s.log)))
  {
    EndedInOrder(txns, s.log);
  }

  lemma DeadlockJams(b: Books, txns: seq<Txn>, progs: seq<seq<Op>>) returns (first: seq<nat>, stops: map<nat, nat>)
    requires progs == Programs(txns) && (forall t | t in txns :: ChecksOwnLines(t)) && CanDeadlock(b, progs)
    ensures JamsAfter(b, txns, first, stops)
  {
    var schedule :| Stuck(progs, Run(b, progs, schedule));
    var s := Run(b, progs, schedule);
    Serializability(b, txns, schedule);
    ProgramsAreWellLocked(txns);
    RunIsIsolated(b, progs, schedule);
    first, stops := Ended(s.log), Stops(s);
    StuckIsJam(progs, s, stops);
    EndedAreSeparate(txns, s);
    BooksOfEnded(b, txns, s);
  }

  // ---- A jam is a deadlock: first, some calls one at a time ----

  ghost predicate OthersHoldNothing(progs: seq<seq<Op>>, s: System, t: nat) {
    forall u: nat | u < |progs| && u != t :: Held(progs, s, u) == {}
  }

  lemma NothingInTheWay(progs: seq<seq<Op>>, s: System, t: nat)
    requires OthersHoldNothing(progs, s, t)
    ensures !Blocked(progs, s, t)
  {}

  lemma OneStatement(progs: seq<seq<Op>>, s: System, t: nat)
    requires t < |progs| == |s.calls| && RunsAlone(progs, s, t) && OthersHoldNothing(progs, s, t)
    ensures Next(progs, s, Step(t)) == Advance(progs, s, t) && OthersHoldNothing(progs, Advance(progs, s, t), t)
    ensures Drive(s.books, EMPTY_DRAFT, progs[t][..s.calls[t].pc + 1])
         == Do(s.books, s.calls[t].draft, NextOp(progs, s, t))
  {
    var n := s.calls[t].pc;
    NothingInTheWay(progs, s, t);
    assert progs[t][..n + 1][..n] == progs[t][..n];
    forall u: nat | u < |progs| && u != t ensures Held(progs, Advance(progs, s, t), u) == {} {
      assert Held(progs, Advance(progs, s, t), u) == Held(progs, s, u);
    }
  }

  ghost predicate HaltsAt(b: Books, ops: seq<Op>, n: nat, after: Books) {
    n <= |ops| && Drive(b, EMPTY_DRAFT, ops[..n]).Halted? && Drive(b, EMPTY_DRAFT, ops[..n]).result.books == after
  }

  /** Run alone, the statements halt somewhere and leave these books. */
  ghost predicate EndsWith(b: Books, ops: seq<Op>, after: Books) { exists n :: HaltsAt(b, ops, n, after) }

  lemma EndIsExec(b: Books, t: Txn, after: Books)
    requires EndsWith(b, Program(t), after)
    ensures after == Exec(b, t).books
  {
    var n :| HaltsAt(b, Program(t), n, after);
    HaltsAsExec(b, t, n);
  }

  /** With nobody else holding anything, a call can run to its end, which is where it halts alone. */
  lemma {:induction false} RunToEnd(b: Books, progs: seq<seq<Op>>, schedule: seq<Event>, s: System, t: nat)
    returns (longer: seq<Event>)
    requires s == Run(b, progs, schedule) && t < |progs| == |s.calls| && EndInCommit(progs)
    requires OthersHoldNothing(progs, s, t) && RunsAlone(progs, s, t)
    ensures var s' := Run(b, progs, longer); EndsWith(s.books, progs[t], s'.books) && s'.calls == s.calls[t := Finished]
    decreases |progs[t]| - s.calls[t].pc
  {
    OneStatement(progs, s, t);
    GoingIsNotTheEnd(progs, s, t);
    OneStepLonger(b, progs, schedule, t);
    longer := schedule + [Step(t)];
    if Do(s.books, s.calls[t].draft, NextOp(progs, s, t)).Going? {
      longer := RunToEnd(b, progs, longer, Advance(progs, s, t), t);
    } else {
      assert HaltsAt(s.books, progs[t], s.calls[t].pc + 1, Advance(progs, s, t).books);
    }
  }

  /** The given calls have ended, the others have not begun. */
  ghost predicate OnlyDone(n: nat, s: System, done: seq<nat>) {
    |s.calls| == n && forall t: nat | t < n :: s.calls[t] == if t in done then Finished else Active(0, EMPTY_DRAFT)
  }

  lemma NotBegunHoldsNothing(progs: seq<seq<Op>>, s: System, done: seq<nat>, t: nat)
    requires OnlyDone(|progs|, s, done) && t < |progs|
    ensures Held(progs, s, t) == {}
  {
    assert progs[t][..0] == [];
  }

  lemma CanBegin(progs: seq<seq<Op>>, s: System, done: seq<nat>, t: nat)
    requires OnlyDone(|progs|, s, done) && EndInCommit(progs) && t < |progs| && t !in done
    ensures RunsAlone(progs, s, t) && OthersHoldNothing(progs, s, t)
  {
    assert progs[t] in progs && progs[t][..0] == [];
    forall u: nat | u < |progs| ensures Held(progs, s, u) == {} { NotBegunHoldsNothing(progs, s, done, u); }
  }

  lemma DoneGrows(n: nat, s: System, s': System, done: seq<nat>, t: nat)
    requires OnlyDone(n, s, done) && t < n && s'.calls == s.calls[t := Finished]
    ensures OnlyDone(n, s', done + [t])
  {}

  lemma EndOfCall(txns: seq<Txn>, progs: seq<seq<Op>>, t: nat, b: Books, after: Books)
    requires progs == Programs(txns) && t < |txns| && EndsWith(b, progs[t], after)
    ensures after == Exec(b, txns[t]).books
  {
    EndIsExec(b, txns[t], after);
  }

  lemma OneMoreDone(b: Books, txns: seq<Txn>, progs: seq<seq<Op>>, schedule: seq<Event>, s: System, done: seq<nat>,
                    t: nat)
    returns (longer: seq<Event>)
    requires progs == Programs(txns) && EndInCommit(progs) && s == Run(b, progs, schedule)
    requires OnlyDone(|progs|, s, done) && t < |txns| && t !in done
    ensures OnlyDone(|progs|, Run(b, progs, longer), done + [t])
    ensures Run(b, progs, longer).books == Exec(s.books, txns[t]).books
  {
    CanBegin(progs, s, done, t);
    longer := RunToEnd(b, progs, schedule, s, t);
    DoneGrows(|progs|, s, Run(b, progs, longer), done, t);
    EndOfCall(txns, progs, t, s.books, Run(b, progs, longer).books);
  }

  lemma NothingDoneYet(b: Books, progs: seq<seq<Op>>)
    ensures OnlyDone(|progs|, Run(b, progs, []), [])
  {}

  lemma ButLast(txns: seq<Txn>, first: seq<nat>, k: nat)
    requires Separate(txns, first, map[]) && |first| == k + 1
    ensures Separate(txns, first[..k], map[]) && first[k] !in first[..k] && first[..k] + [first[k]] == first
    ensures InOrder(txns, first) == InOrder(txns, first[..k]) + [txns[first[k]]]
  {}

  lemma ExecOneMore(b: Books, ts: seq<Txn>, t: Txn)
    ensures ExecAll(b, ts + [t]) == Exec(ExecAll(b, ts), t).books
  {
    assert (ts + [t])[..|ts|] == ts;
  }

  lemma {:induction false} RunInOrder(b: Books, txns: seq<Txn>, progs: seq<seq<Op>>, first: seq<nat>)
    returns (schedule: seq<Event>)
    requires progs == Programs(txns) && EndInCommit(progs) && Separate(txns, first, map[])
    ensures OnlyDone(|progs|, Run(b, progs, schedule), first)
    ensures Run(b, progs, schedule).books == ExecAll(b, InOrder(txns, first))
  {
    if first == [] {
      schedule := [];
      NothingDoneYet(b, progs);
    } else {
      var k := |first| - 1;
      ButLast(txns, first, k);
      schedule := RunInOrder(b, txns, progs, first[..k]);
      schedule := OneMoreDone(b, txns, progs, schedule, Run(b, progs, schedule), first[..k], first[k]);
      ExecOneMore(b, InOrder(txns, first[..k]), txns[first[k]]);
    }
  }

  // ---- Then the others, each to its stop ----

  /** The call at its stop. */
  function AtStop(b: Books, ops: seq<Op>, n: nat): Call
    requires n <= |ops|
  {
    match Drive(b, EMPTY_DRAFT, ops[..n])
    case Going(d) => Active(n, d)
    case Halted(_) => Crashed
  }

  /** A call to be stopped is at its stop, if it is below k, or has not begun; any other holds nothing. */
  ghost predicate InPlace(progs: seq<seq<Op>>, s: System, stops: map<nat, nat>, k: nat, t: nat) {
    && t < |progs| == |s.calls|
    && (if t !in stops then Held(progs, s, t) == {}
        else if t < k then stops[t] <= |progs[t]| && s.calls[t] == AtStop(s.books, progs[t], stops[t])
        else s.calls[t] == Active(0, EMPTY_DRAFT))
  }

  ghost predicate PartWay(progs: seq<seq<Op>>, s: System, stops: map<nat, nat>, k: nat) {
    |s.calls| == |progs| && forall t: nat | t < |progs| :: InPlace(progs, s, stops, k, t)
  }

  lemma HeldInPlace(progs: seq<seq<Op>>, s: System, stops: map<nat, nat>, k: nat, u: nat)
    requires InPlace(progs, s, stops, k, u)
    ensures Held(progs, s, u) <= HeldAt(progs, stops, u)
  {
    if u in stops && u >= k { assert progs[u][..0] == []; }
  }

  lemma ClearToStop(progs: seq<seq<Op>>, s: System, stops: map<nat, nat>, k: nat)
    requires PartWay(progs, s, stops, k) && k in stops && CanStop(s.books, progs, k, stops[k])
    requires StopsApart(progs, stops)
    ensures ClearTo(s.books, progs, s, k, stops[k])
  {
    assert InPlace(progs, s, stops, k, k) && progs[k][..0] == [];
    forall u | 0 <= u < |progs| && u != k ensures LocksOf(progs[k][..stops[k]]) !! Held(progs, s, u) {
      HeldInPlace(progs, s, stops, k, u);
      assert HeldAt(progs, stops, k) == LocksOf(progs[k][..stops[k]]);
      if u !in stops { assert HeldAt(progs, stops, u) == {}; }
    }
  }

  lemma OneMoreInPlace(progs: seq<seq<Op>>, s: System, s': System, stops: map<nat, nat>, k: nat)
    requires PartWay(progs, s, stops, k) && k in stops && CanStop(s.books, progs, k, stops[k])
    requires s' == s.(calls := s.calls[k := Active(stops[k], Drive(s.books, EMPTY_DRAFT, progs[k][..stops[k]]).draft)])
    ensures PartWay(progs, s', stops, k + 1)
  {
    var next := k + 1;
    forall t: nat | t < |progs| ensures InPlace(progs, s', stops, next, t) {
      assert InPlace(progs, s, stops, k, t);
      if t !in stops { assert Held(progs, s', t) == Held(progs, s, t); }
    }
  }

  lemma SkipInPlace(progs: seq<seq<Op>>, s: System, stops: map<nat, nat>, k: nat)
    requires PartWay(progs, s, stops, k) && k !in stops
    ensures PartWay(progs, s, stops, k + 1)
  {
    var next := k + 1;
    forall t: nat | t < |progs| ensures InPlace(progs, s, stops, next, t) { assert InPlace(progs, s, stops, k, t); }
  }

  lemma StopOneMore(start: Books, progs: seq<seq<Op>>, schedule: seq<Event>, s: System, stops: map<nat, nat>, k: nat)
    returns (longer: seq<Event>)
    requires s == Run(start, progs, schedule) && PartWay(progs, s, stops, k)
    requires AllCanStop(s.books, progs, stops) && StopsApart(progs, stops)
    ensures PartWay(progs, Run(start, progs, longer), stops, k + 1) && Run(start, progs, longer).books == s.books
  {
    longer := schedule;
    if k in stops {
      assert CanStop(s.books, progs, k, stops[k]);
      ClearToStop(progs, s, stops, k);
      longer := Climb(start, progs, schedule, s, k, stops[k]);
      OneMoreInPlace(progs, s, Run(start, progs, longer), stops, k);
    } else {
      SkipInPlace(progs, s, stops, k);
    }
  }

  lemma {:induction false} StopAll(start: Books, b: Books, progs: seq<seq<Op>>, schedule: seq<Event>,
                                   stops: map<nat, nat>, k: nat)
    returns (longer: seq<Event>)
    requires AllCanStop(b, progs, stops) && StopsApart(progs, stops) && k <= |progs|
    requires PartWay(progs, Run(start, progs, schedule), stops, 0) && Run(start, progs, schedule).books == b
    ensures PartWay(progs, Run(start, progs, longer), stops, k) && Run(start, progs, longer).books == b
  {
    if k == 0 {
      longer := schedule;
    } else {
      longer := StopAll(start, b, progs, schedule, stops, k - 1);
      longer := StopOneMore(start, progs, longer, Run(start, progs, longer), stops, k - 1);
    }
  }

  // ---- And the rest lose their connections ----

  ghost predicate GoneBelow(s: System, stops: map<nat, nat>, k: nat) {
    forall t: nat | t < k && t < |s.calls| && t !in stops :: !s.calls[t].Active?
  }

  lemma CrashKeepsPlaces(progs: seq<seq<Op>>, s: System, stops: map<nat, nat>, k: nat)
    requires PartWay(progs, s, stops, |progs|) && k < |progs| && k !in stops && GoneBelow(s, stops, k)
    ensures PartWay(progs, Next(progs, s, Crash(k)), stops, |progs|)
    ensures GoneBelow(Next(progs, s, Crash(k)), stops, k + 1) && Next(progs, s, Crash(k)).books == s.books
  {
    var s' := Next(progs, s, Crash(k));
    forall t: nat | t < |progs| ensures InPlace(progs, s', stops, |progs|, t) {
      assert InPlace(progs, s, stops, |progs|, t);
      assert Held(progs, s', t) <= Held(progs, s, t);
    }
  }

  lemma OneCrashLonger(start: Books, progs: seq<seq<Op>>, schedule: seq<Event>, k: nat)
    ensures Run(start, progs, schedule + [Crash(k)]) == Next(progs, Run(start, progs, schedule), Crash(k))
  {
    assert (schedule + [Crash(k)])[..|schedule|] == schedule;
  }

  lemma {:induction false} CrashRest(start: Books, progs: seq<seq<Op>>, schedule: seq<Event>, stops: map<nat, nat>,
                                     k: nat)
    returns (longer: seq<Event>)
    requires PartWay(progs, Run(start, progs, schedule), stops, |progs|) && k <= |progs|
    ensures PartWay(progs, Run(start, progs, longer), stops, |progs|) && GoneBelow(Run(start, progs, longer), stops, k)
    ensures Run(start, progs, longer).books == Run(start, progs, schedule).books
  {
    if k == 0 {
      longer := schedule;
    } else {
      longer := CrashRest(start, progs, schedule, stops, k - 1);
      if k - 1 !in stops {
        CrashKeepsPlaces(progs, Run(start, progs, longer), stops, k - 1);
        OneCrashLonger(start, progs, longer, k - 1);
        longer := longer + [Crash(k - 1)];
      }
    }
  }

  lemma StandsAtStop(progs: seq<seq<Op>>, s: System, stops: map<nat, nat>, t: nat)
    requires InPlace(progs, s, stops, |progs|, t) && t in stops && CanStop(s.books, progs, t, stops[t])
    ensures HasNext(progs, s, t) && s.calls[t].pc == stops[t] && Held(progs, s, t) == HeldAt(progs, stops, t)
  {}

  lemma HinderedCannotStep(progs: seq<seq<Op>>, s: System, stops: map<nat, nat>, t: nat, u: nat)
    requires PartWay(progs, s, stops, |progs|) && AllCanStop(s.books, progs, stops) && Hinders(progs, stops, t, u)
    ensures HasNext(progs, s, t) && !Enabled(progs, s, t)
  {
    assert CanStop(s.books, progs, t, stops[t]) && CanStop(s.books, progs, u, stops[u]);
    assert InPlace(progs, s, stops, |progs|, t) && InPlace(progs, s, stops, |progs|, u);
    StandsAtStop(progs, s, stops, t);
    StandsAtStop(progs, s, stops, u);
    assert WaitsFor(progs, s, t, u);
  }

  lemma StoppedCannotStep(progs: seq<seq<Op>>, s: System, stops: map<nat, nat>, t: nat)
    requires PartWay(progs, s, stops, |progs|) && Jam(s.books, progs, stops) && t in stops
    ensures HasNext(progs, s, t) && !Enabled(progs, s, t)
  {
    assert IsHindered(progs, stops, t);
    var u :| Hinders(progs, stops, t, u);
    HinderedCannotStep(progs, s, stops, t, u);
  }

  lemma JammedIsStuck(progs: seq<seq<Op>>, s: System, stops: map<nat, nat>)
    requires PartWay(progs, s, stops, |progs|) && GoneBelow(s, stops, |progs|) && Jam(s.books, progs, stops)
    ensures Stuck(progs, s)
  {
    forall t: nat | t < |progs| ensures !Enabled(progs, s, t) {
      if t in stops { StoppedCannotStep(progs, s, stops, t); }
    }
    var a :| a in stops;
    StoppedCannotStep(progs, s, stops, a);
  }

  lemma DoneIsPartWay(progs: seq<seq<Op>>, s: System, first: seq<nat>, stops: map<nat, nat>)
    requires OnlyDone(|progs|, s, first) && forall k | 0 <= k < |first| :: first[k] !in stops
    ensures PartWay(progs, s, stops, 0)
  {
    forall t: nat | t < |progs| ensures InPlace(progs, s, stops, 0, t) { NotBegunHoldsNothing(progs, s, first, t); }
  }

  lemma JamDeadlocks(b: Books, txns: seq<Txn>, progs: seq<seq<Op>>, first: seq<nat>, stops: map<nat, nat>)
    requires JamsAfter(b, txns, first, stops) && progs == Programs(txns) && EndInCommit(progs)
    ensures CanDeadlock(b, progs)
  {
    var schedule := RunInOrder(b, txns, progs, first);
    var s := Run(b, progs, schedule);
    DoneIsPartWay(progs, s, first, stops);
    schedule := StopAll(b, s.books, progs, schedule, stops, |progs|);
    schedule := CrashRest(b, progs, schedule, stops, |progs|);
    JammedIsStuck(progs, Run(b, progs, schedule), stops);
  }

  /** Exactly when any number of calls can deadlock, if each checks no balance but of an account it writes. */
  lemma DeadlockIffJams(b: Books, txns: seq<Txn>)
    requires forall t | t in txns :: ChecksOwnLines(t)
    ensures CanDeadlock(b, Programs(txns)) <==> exists first, stops :: JamsAfter(b, txns, first, stops)
  {
    if CanDeadlock(b, Programs(txns)) { var first, stops := DeadlockJams(b, txns, Programs(txns)); }
    if first, stops :| JamsAfter(b, txns, first, stops) {
      ProgramsEndInCommit(txns);
      JamDeadlocks(b, txns, Programs(txns), first, stops);
    }
  }

  // ---- Calls that check other balances ----

  lemma StuckCallMatches(progs: seq<seq<Op>>, s: System, s': System, t: nat)
    requires Matches(progs, s, s') && Apart(progs, s) && Stuck(progs, s) && t < |progs|
    ensures IsActive(s', t) <==> IsActive(s, t)
    ensures !Enabled(Stripped(progs), s', t)
  {
    assert SameCall(progs[t], s.calls[t], s'.calls[t]);
    if IsActive(s, t) {
      assert HasNext(progs, s, t) && !Enabled(progs, s, t);
      SameNext(progs, s, s', t);
    }
  }

  lemma StuckMatches(progs: seq<seq<Op>>, s: System, s': System)
    requires Matches(progs, s, s') && Apart(progs, s) && Stuck(progs, s)
    ensures Stuck(Stripped(progs), s')
  {
    forall t: nat | t < |progs| ensures !Enabled(Stripped(progs), s', t) { StuckCallMatches(progs, s, s', t); }
    var a: nat :| a < |s.calls| && s.calls[a].Active?;
    StuckCallMatches(progs, s, s', a);
    assert s'.calls[a].Active?;
  }

  lemma DeadlocksUnchecked(b: Books, progs: seq<seq<Op>>)
    requires EndInCommit(progs) && CanDeadlock(b, progs)
    ensures CanDeadlock(b, Stripped(progs))
  {
    var schedule :| Stuck(progs, Run(b, progs, schedule));
    RunIsApart(b, progs, schedule);
    var schedule' := RunMatches(b, progs, schedule);
    StuckMatches(progs, Run(b, progs, schedule), Run(b, Stripped(progs), schedule'));
  }

  lemma UncheckedAreProtected(txns: seq<Txn>)
    ensures forall t | t in Unchecked(txns) :: ChecksOwnLines(t)
  {}

  /** Whatever the calls check: if they can deadlock, they jam when their checks are left out. */
  lemma DeadlockJamsUnchecked(b: Books, txns: seq<Txn>)
    requires CanDeadlock(b, Programs(txns))
    ensures exists first, stops :: JamsAfter(b, Unchecked(txns), first, stops)
  {
    ProgramsEndInCommit(txns);
    DeadlocksUnchecked(b, Programs(txns));
    UncheckedPrograms(txns);
    UncheckedAreProtected(txns);
    var first, stops := DeadlockJams(b, Unchecked(txns), Stripped(Programs(txns)));
  }
}
