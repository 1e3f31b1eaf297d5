/**
 What a balance check can do to a concurrent run: turn its own call away, and nothing else.  Whether or not the checked
 balance is locked, every schedule leaves the books of its accepted calls, run one at a time without their checks.
 */
module LedgerUnchecked {
  import opened Basics
  import opened LedgerBooks
  import opened LedgerInvariants
  import opened LedgerSteps
  import opened LedgerLocking
  import opened LedgerConcurrency

  /** The statements other than balance checks. */
  function Strip(ops: seq<Op>): seq<Op> {
    if ops == [] then [] else Strip(ops[..|ops| - 1]) + if ops[|ops| - 1].CheckBalance? then [] else [ops[|ops| - 1]]
  }

  function Stripped(progs: seq<seq<Op>>): (r: seq<seq<Op>>)
    ensures |r| == |progs| && forall t | 0 <= t < |r| :: r[t] == Strip(progs[t])
  {
    seq(|progs|, t requires 0 <= t < |progs| => Strip(progs[t]))
  }

  lemma {:induction false} StripConcat(x: seq<Op>, y: seq<Op>)
    ensures Strip(x + y) == Strip(x) + Strip(y)
  {
    if y == [] { assert x + y == x; } else {
      assert (x + y)[..|x + y| - 1] == x + y[..|y| - 1];
      StripConcat(x, y[..|y| - 1]);
    }
  }

  lemma {:induction false} StripKeepsLocks(ops: seq<Op>)
    ensures LocksOf(Strip(ops)) == LocksOf(ops)
  {
    if ops != [] {
      var rest, last := ops[..|ops| - 1], ops[|ops| - 1];
      StripKeepsLocks(rest);
      if last.CheckBalance? {
        assert Strip(rest) + [] == Strip(rest);
      } else {
        assert Strip(ops)[..|Strip(ops)| - 1] == Strip(rest);
      }
    }
  }

  /** Where statement n of a program is found after stripping. */
  lemma StripPrefix(ops: seq<Op>, n: nat)
    requires n <= |ops|
    ensures var m := |Strip(ops[..n])|;
      && m <= |Strip(ops)| && Strip(ops)[..m] == Strip(ops[..n])
      && (n < |ops| ==> |Strip(ops[..n + 1])| == if ops[n].CheckBalance? then m else m + 1)
      && (n < |ops| && !ops[n].CheckBalance? ==> m < |Strip(ops)| && Strip(ops)[m] == ops[n])
  {
    assert ops == ops[..n] + ops[n..];
    StripConcat(ops[..n], ops[n..]);
    if n < |ops| {
      assert ops[..n + 1][..n] == ops[..n];
      assert ops == ops[..n + 1] + ops[n + 1..];
      StripConcat(ops[..n + 1], ops[n + 1..]);
    }
  }

  // ---- The run without checks that goes with a run ----

  /** The calls that were not turned away, in the order in which they ended. */
  function Accepted(log: seq<Logged>): seq<Logged> {
    if log == [] then [] else
      Accepted(log[..|log| - 1]) + if log[|log| - 1].outcome.Rejected? then [] else [log[|log| - 1]]
  }

  lemma AcceptedAppended(log: seq<Logged>, entry: Logged)
    ensures Accepted(log + [entry]) == Accepted(log) + if entry.outcome.Rejected? then [] else [entry]
  {
    assert (log + [entry])[..|log|] == log;
  }

  /** A call is as far without its checks; one that its check turned away has crashed there. */
  ghost predicate SameCall(ops: seq<Op>, c: Call, c': Call) {
    match c
    case Active(pc, d) => pc <= |ops| && c' == Active(|Strip(ops[..pc])|, d)
    case Finished => !c'.Active?
    case Crashed => c' == Crashed
  }

  ghost predicate Matches(progs: seq<seq<Op>>, s: System, s': System) {
    && s'.books == s.books && |s.calls| == |s'.calls| == |progs|
    && (forall t | 0 <= t < |progs| :: SameCall(progs[t], s.calls[t], s'.calls[t]))
    && Accepted(s'.log) == Accepted(s.log)
  }

  lemma SameLocks(progs: seq<seq<Op>>, s: System, s': System, t: nat)
    requires Matches(progs, s, s')
    ensures Held(Stripped(progs), s', t) == Held(progs, s, t)
  {
    if t < |progs| {
      assert SameCall(progs[t], s.calls[t], s'.calls[t]);
      if s.calls[t].Active? {
        StripPrefix(progs[t], s.calls[t].pc);
        StripKeepsLocks(progs[t][..s.calls[t].pc]);
      }
    }
  }

  lemma SameNext(progs: seq<seq<Op>>, s: System, s': System, t: nat)
    requires Matches(progs, s, s') && HasNext(progs, s, t) && !NextOp(progs, s, t).CheckBalance?
    ensures HasNext(Stripped(progs), s', t) && NextOp(Stripped(progs), s', t) == NextOp(progs, s, t)
    ensures Blocked(Stripped(progs), s', t) <==> Blocked(progs, s, t)
  {
    assert SameCall(progs[t], s.calls[t], s'.calls[t]);
    StripPrefix(progs[t], s.calls[t].pc);
    forall u | 0 <= u < |progs| ensures WaitsFor(Stripped(progs), s', t, u) <==> WaitsFor(progs, s, t, u) {
      SameLocks(progs, s, s', u);
    }
  }

  lemma StatementMatches(progs: seq<seq<Op>>, s: System, s': System, t: nat)
    requires Matches(progs, s, s') && HasNext(progs, s, t) && !Blocked(progs, s, t)
    requires !NextOp(progs, s, t).CheckBalance?
    ensures Matches(progs, Advance(progs, s, t), Next(Stripped(progs), s', Step(t)))
  {
    SameNext(progs, s, s', t);
    assert SameCall(progs[t], s.calls[t], s'.calls[t]);
    StripPrefix(progs[t], s.calls[t].pc);
    match Do(s.books, s.calls[t].draft, NextOp(progs, s, t))
    case Going(d) =>
    case Halted(r) =>
      AcceptedAppended(s.log, Logged(t, r.outcome));
      AcceptedAppended(s'.log, Logged(t, r.outcome));
  }

  /** A check that passes changes nothing; one that fails ends its call, which is as if the connection had died. */
  lemma CheckMatches(progs: seq<seq<Op>>, s: System, s': System, t: nat)
    requires Matches(progs, s, s') && HasNext(progs, s, t) && NextOp(progs, s, t).CheckBalance?
    ensures var after := Advance(progs, s, t);
      Matches(progs, after, s') || Matches(progs, after, Next(Stripped(progs), s', Crash(t)))
  {
    assert SameCall(progs[t], s.calls[t], s'.calls[t]);
    StripPrefix(progs[t], s.calls[t].pc);
    match Do(s.books, s.calls[t].draft, NextOp(progs, s, t))
    case Going(d) => assert Matches(progs, Advance(progs, s, t), s');
    case Halted(r) => AcceptedAppended(s.log, Logged(t, r.outcome));
  }

  lemma CrashMatches(progs: seq<seq<Op>>, s: System, s': System, t: nat)
    requires Matches(progs, s, s') && IsActive(s, t)
    ensures Matches(progs, s.(calls := s.calls[t := Crashed]), Next(Stripped(progs), s', Crash(t)))
  {
    assert SameCall(progs[t], s.calls[t], s'.calls[t]);
  }

  lemma NextMatches(progs: seq<seq<Op>>, s: System, s': System, e: Event) returns (more: seq<Event>)
    requires Matches(progs, s, s')
    ensures |more| <= 1
    ensures Matches(progs, Next(progs, s, e), if more == [] then s' else Next(Stripped(progs), s', more[0]))
  {
    more := [];
    match e {
      case Step(t) =>
        if HasNext(progs, s, t) && !Blocked(progs, s, t) {
          if NextOp(progs, s, t).CheckBalance? {
            CheckMatches(progs, s, s', t);
            if !Matches(progs, Advance(progs, s, t), s') { more := [Crash(t)]; }
          } else {
            StatementMatches(progs, s, s', t);
            more := [Step(t)];
          }
        }
      case Crash(t) =>
        if IsActive(s, t) {
          CrashMatches(progs, s, s', t);
          more := [Crash(t)];
        }
    }
  }

  lemma StartMatches(b: Books, progs: seq<seq<Op>>)
    ensures Matches(progs, Start(b, progs), Start(b, Stripped(progs)))
  {
    forall t | 0 <= t < |progs| ensures Strip(progs[t][..0]) == [] { assert progs[t][..0] == []; }
  }

  /** For every schedule there is one of the programs without checks that does the same to the books. */
  lemma {:induction false} RunMatches(b: Books, progs: seq<seq<Op>>, schedule: seq<Event>)
    returns (schedule': seq<Event>)
    ensures Matches(progs, Run(b, progs, schedule), Run(b, Stripped(progs), schedule'))
  {
    if schedule == [] {
      schedule' := [];
      StartMatches(b, progs);
    } else {
      var n := |schedule| - 1;
      var before := RunMatches(b, progs, schedule[..n]);
      var more := NextMatches(progs, Run(b, progs, schedule[..n]), Run(b, Stripped(progs), before), schedule[n]);
      schedule' := before + more;
      if more == [] { assert schedule' == before; } else { assert schedule'[..|schedule'| - 1] == before; }
    }
  }

  // ---- Calls without their checks ----

  function Uncheck(t: Txn): Txn {
    match t
    case PostTxn(p) => PostTxn(p.(check := None))
    case CappedTxn(_) => t
  }

  function Unchecked(txns: seq<Txn>): (r: seq<Txn>)
    ensures |r| == |txns| && forall i | 0 <= i < |r| :: r[i] == Uncheck(txns[i])
  {
    seq(|txns|, i requires 0 <= i < |txns| => Uncheck(txns[i]))
  }

  lemma {:induction false} NothingToStrip(ops: seq<Op>)
    requires forall op | op in ops :: !op.CheckBalance?
    ensures Strip(ops) == ops
  {
    if ops != [] {
      assert ops[|ops| - 1] in ops;
      NothingToStrip(ops[..|ops| - 1]);
    }
  }

  lemma {:induction false} LockOpsCheckNothing(codes: seq<string>)
    ensures forall op | op in LockOps(codes) :: !op.CheckBalance?
  {
    if codes != [] { LockOpsCheckNothing(codes[..|codes| - 1]); }
  }

  lemma {:induction false} WriteOpsCheckNothing(lines: seq<Line>)
    ensures forall op | op in WriteOps(lines) :: !op.CheckBalance?
  {
    if lines != [] { WriteOpsCheckNothing(lines[..|lines| - 1]); }
  }

  lemma ChecksAreStripped(check: Option<BalanceCheck>)
    ensures Strip(CheckOps(check)) == []
  {
    if check.Some? { assert CheckOps(check)[..0] == []; }
  }

  lemma StripDrops(x: seq<Op>, check: seq<Op>)
    requires Strip(x) == x && Strip(check) == []
    ensures Strip(x + check) == x
  {
    StripConcat(x, check);
    assert x + [] == x;
  }

  lemma StripKeepsRest(x: seq<Op>, y: seq<Op>, rest: seq<Op>)
    requires Strip(x) == y && forall op | op in rest :: !op.CheckBalance?
    ensures Strip(x + rest) == y + rest
  {
    StripConcat(x, rest);
    NothingToStrip(rest);
  }

  lemma UncheckedPost(p: PostInput)
    ensures Strip(PostOps(p)) == PostOps(p.(check := None))
  {
    var lines := SortLines(p.lines);
    var locking, writes := PostHead(p) + LockOps(LineCodes(lines)), WriteOps(lines);
    LockOpsCheckNothing(LineCodes(lines));
    NothingToStrip(locking);
    ChecksAreStripped(p.check);
    StripDrops(locking, CheckOps(p.check));
    WriteOpsCheckNothing(lines);
    StripKeepsRest(locking + CheckOps(p.check), locking, writes);
    StripKeepsRest(locking + CheckOps(p.check) + writes, locking + writes, [Commit(PostedEntry(p))]);
    UncheckedParts(p, locking);
  }

  lemma UncheckedParts(p: PostInput, locking: seq<Op>)
    requires locking == PostHead(p) + LockOps(LineCodes(SortLines(p.lines)))
    ensures PostOps(p.(check := None)) == locking + WriteOps(SortLines(p.lines)) + [Commit(PostedEntry(p))]
  {
    assert locking + [] == locking;
  }

  lemma UncheckedProgram(t: Txn)
    ensures Strip(Program(t)) == Program(Uncheck(t))
  {
    match t
    case PostTxn(p) => UncheckedPost(p);
    case CappedTxn(k) =>
      LockOpsCheckNothing(PairCodes(TenantCode(k.tenant), k.target));
      NothingToStrip(CappedOps(k));
  }

  lemma UncheckedPrograms(txns: seq<Txn>)
    ensures Stripped(Programs(txns)) == Programs(Unchecked(txns))
  {
    forall i | 0 <= i < |txns| ensures Stripped(Programs(txns))[i] == Programs(Unchecked(txns))[i] {
      UncheckedProgram(txns[i]);
    }
  }

  // ---- The theorem ----

  /** A log, and the books it accounts for when its calls are run in its order. */
  ghost predicate Explains(b: Books, txns: seq<Txn>, log: seq<Logged>, books: Books) {
    Serial(b, txns, System(books, [], log))
  }

  /** The logged call, run on the books before, gives the logged answer and the books after. */
  ghost predicate Answers(before: Books, txns: seq<Txn>, last: Logged, books: Books) {
    last.call < |txns| && Exec(before, txns[last.call]) == Result(books, last.outcome)
  }

  lemma ExplainedButLast(b: Books, txns: seq<Txn>, rest: seq<Logged>, last: Logged, books: Books)
    returns (before: Books)
    requires Explains(b, txns, rest + [last], books)
    ensures Explains(b, txns, rest, before) && Answers(before, txns, last, books)
  {
    var log := rest + [last];
    forall k | 0 <= k < |rest| ensures rest[k].call < |txns| { assert log[k] == rest[k]; }
    assert log[|rest|] == last;
    var order, earlier := Order(txns, log), Order(txns, rest);
    before := ExecAll(b, earlier);
    assert order == earlier + [txns[last.call]];
    assert order[..|rest|] == earlier;
    forall k | 0 <= k < |rest| ensures rest[k].outcome == Exec(ExecAll(b, earlier[..k]), txns[rest[k].call]).outcome {
      assert log[k] == rest[k] && order[..k] == earlier[..k];
    }
  }

  lemma RejectedLeavesNoTrace(b: Books, t: Txn)
    requires Exec(b, t).outcome.Rejected?
    ensures Exec(b, t).books == b
  {}

  lemma ExplainOneMore(b: Books, txns: seq<Txn>, log: seq<Logged>, before: Books, last: Logged, books: Books)
    requires Explains(b, txns, log, before) && Answers(before, txns, last, books)
    ensures Explains(b, txns, if last.outcome.Rejected? then log else log + [last], books)
  {
    if last.outcome.Rejected? {
      RejectedLeavesNoTrace(before, txns[last.call]);
    } else {
      AppendToLog(b, txns, System(before, [], log), System(books, [], log + [last]), last.call);
    }
  }

  /** Turned-away calls leave no trace, so they can be left out. */
  lemma {:induction false} AcceptedExplain(b: Books, txns: seq<Txn>, log: seq<Logged>, books: Books)
    requires Explains(b, txns, log, books)
    ensures Explains(b, txns, Accepted(log), books)
  {
    if log != [] {
      var n := |log| - 1;
      LastOf(log);
      var before := ExplainedButLast(b, txns, log[..n], log[n], books);
      AcceptedExplain(b, txns, log[..n], before);
      ExplainOneMore(b, txns, Accepted(log[..n]), before, log[n], books);
      AcceptedOneMore(log);
    }
  }

  lemma LastOf(log: seq<Logged>)
    requires log != []
    ensures log == log[..|log| - 1] + [log[|log| - 1]]
  {}

  lemma AcceptedOneMore(log: seq<Logged>)
    requires log != []
    ensures var n := |log| - 1;
      Accepted(log) == if log[n].outcome.Rejected? then Accepted(log[..n]) else Accepted(log[..n]) + [log[n]]
  {}

  /** Every schedule is explained by its accepted calls, run singly in the order they ended and without their checks. */
  lemma AcceptedCallsExplainTheBooks(b: Books, txns: seq<Txn>, schedule: seq<Event>)
    ensures var s := Run(b, Programs(txns), schedule); Explains(b, Unchecked(txns), Accepted(s.log), s.books)
  {
    var schedule' := RunMatches(b, Programs(txns), schedule);
    UncheckedPrograms(txns);
    ProgramsAreWellLocked(Unchecked(txns));
    RunInvariant(b, Unchecked(txns), schedule');
    var s' := Run(b, Programs(Unchecked(txns)), schedule');
    AcceptedExplain(b, Unchecked(txns), s'.log, s'.books);
  }

  /** In every state of every schedule the books are consistent, stale checks or not. */
  lemma ConcurrentBooksStayConsistent(b: Books, txns: seq<Txn>, schedule: seq<Event>)
    requires Consistent(b)
    ensures Consistent(Run(b, Programs(txns), schedule).books)
  {
    var s := Run(b, Programs(txns), schedule);
    AcceptedCallsExplainTheBooks(b, txns, schedule);
    ExecAllKeepsConsistency(b, Order(Unchecked(txns), Accepted(s.log)));
  }
}
