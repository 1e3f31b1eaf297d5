/**
 Any number of concurrent `post` and `debitCapped` calls: every schedule leaves the books,
 and gives each caller the answer, of running the calls one at a time in the order in
 which they ended.
 */
module LedgerConcurrency {
  import opened Basics
  import opened LedgerBooks
  import opened LedgerInvariants
  import opened LedgerSteps
  import opened LedgerLocking

  function Programs(txns: seq<Txn>): (r: seq<seq<Op>>)
    ensures |r| == |txns|
    ensures forall i | 0 <= i < |r| :: r[i] == Program(txns[i])
  {
    seq(|txns|, i requires 0 <= i < |txns| => Program(txns[i]))
  }

  // ---- What serial execution means ----

  ghost predicate LogInRange(txns: seq<Txn>, log: seq<Logged>) {
    forall k | 0 <= k < |log| :: log[k].call < |txns|
  }

  function Order(txns: seq<Txn>, log: seq<Logged>): (r: seq<Txn>)
    requires forall k | 0 <= k < |log| :: log[k].call < |txns|
    ensures |r| == |log|
  {
    seq(|log|, k requires 0 <= k < |log| => txns[log[k].call])
  }

  /** `s` is what running the logged calls one at a time, in log order, produces. */
  ghost predicate Serial(b: Books, txns: seq<Txn>, s: System) {
    && LogInRange(txns, s.log)
    && s.books == ExecAll(b, Order(txns, s.log))
    && (forall k | 0 <= k < |s.log| ::
          s.log[k].outcome == Exec(ExecAll(b, Order(txns, s.log)[..k]), txns[s.log[k].call]).outcome)
  }

  /** The log names each finished call once, and no other. */
  ghost predicate LogIsExact(n: nat, s: System) {
    && |s.calls| == n
    && (forall k | 0 <= k < |s.log| :: s.log[k].call < n)
    && (forall k | 0 <= k < |s.log| :: s.calls[s.log[k].call] == Finished)
    && (forall j, k | 0 <= j < k < |s.log| :: s.log[j].call != s.log[k].call)
    && (forall t | 0 <= t < |s.calls| && s.calls[t] == Finished :: exists k :: 0 <= k < |s.log| && s.log[k].call == t)
  }

  // ---- The programs lock before they use ----

  function Rows(codes: seq<string>): set<Resource> {
    if codes == [] then {} else
      Rows(codes[..|codes| - 1]) + {AccountRow(codes[|codes| - 1]), BalanceRow(codes[|codes| - 1])}
  }

  lemma {:induction false} RowsOfCodes(codes: seq<string>)
    ensures forall r :: r in Rows(codes) <==> !r.ReferenceKey? && r.code in codes
  {
    if codes != [] {
      assert codes == codes[..|codes| - 1] + [codes[|codes| - 1]];
      RowsOfCodes(codes[..|codes| - 1]);
    }
  }

  lemma {:induction false} LockOpsLocks(codes: seq<string>, held: set<Resource>)
    ensures LocksOf(LockOps(codes)) == Rows(codes)
    ensures Covered(held, LockOps(codes))
  {
    if codes != [] {
      var rest, c := codes[..|codes| - 1], codes[|codes| - 1];
      LockOpsLocks(rest, held);
      TwoOps(held + Rows(rest), LockAccount(c), LockBalance(c));
      LocksConcat(LockOps(rest), [LockAccount(c), LockBalance(c)]);
      CoveredConcat(held, LockOps(rest), [LockAccount(c), LockBalance(c)]);
    }
  }

  lemma {:induction false} WriteOpsCovered(lines: seq<Line>, held: set<Resource>)
    requires forall line | line in lines :: AccountRow(line.code) in held && BalanceRow(line.code) in held
    ensures LocksOf(WriteOps(lines)) == {}
    ensures Covered(held, WriteOps(lines))
  {
    if lines != [] {
      var rest, last := lines[..|lines| - 1], lines[|lines| - 1];
      WriteOpsCovered(rest, held);
      TwoOps(held, InsertLine(last), UpdateBalance(last));
      assert held + {} == held;
      LocksConcat(WriteOps(rest), [InsertLine(last), UpdateBalance(last)]);
      CoveredConcat(held, WriteOps(rest), [InsertLine(last), UpdateBalance(last)]);
    }
  }

  /** The balance a `post` checks is that of an account it also writes, as `debit` arranges. */
  predicate ChecksOwnLines(t: Txn) {
    t.PostTxn? && t.post.check.Some? ==> TenantCode(t.post.check.value.tenant) in Codes(t.post.lines)
  }

  lemma LinesAreLocked(lines: seq<Line>, line: Line)
    requires line in lines
    ensures AccountRow(line.code) in Rows(LineCodes(SortLines(lines)))
    ensures BalanceRow(line.code) in Rows(LineCodes(SortLines(lines)))
    ensures line in SortLines(lines)
  {
    SortLinesIsFaithful(lines);
    var sorted, codes := SortLines(lines), LineCodes(SortLines(lines));
    var i :| 0 <= i < |sorted| && sorted[i] == line;
    assert codes[i] == line.code;
    RowsOfCodes(codes);
  }

  lemma SortedLinesAreLocked(lines: seq<Line>, line: Line)
    requires line in SortLines(lines)
    ensures AccountRow(line.code) in Rows(LineCodes(SortLines(lines)))
    ensures BalanceRow(line.code) in Rows(LineCodes(SortLines(lines)))
  {
    SortLinesIsFaithful(lines);
    LinesAreLocked(lines, line);
  }

  lemma PostLockingIsCovered(p: PostInput)
    ensures var ops := PostHead(p) + LockOps(LineCodes(SortLines(p.lines)));
      Covered({}, ops) && LocksOf(ops) == KeyOf(p.reference) + Rows(LineCodes(SortLines(p.lines)))
  {
    var codes := LineCodes(SortLines(p.lines));
    TwoOps({}, PostHead(p)[0], PostHead(p)[1]);
    LockOpsLocks(codes, KeyOf(p.reference));
    assert {} + KeyOf(p.reference) == KeyOf(p.reference);
    CoveredConcat({}, PostHead(p), LockOps(codes));
    LocksConcat(PostHead(p), LockOps(codes));
  }

  lemma CheckIsCovered(p: PostInput, held: set<Resource>)
    requires ChecksOwnLines(PostTxn(p)) && Rows(LineCodes(SortLines(p.lines))) <= held
    ensures Covered(held, CheckOps(p.check)) && LocksOf(CheckOps(p.check)) == {}
  {
    if p.check.Some? {
      var line :| line in p.lines && line.code == TenantCode(p.check.value.tenant);
      LinesAreLocked(p.lines, line);
      OneOp(held, CheckOps(p.check)[0]);
    }
  }

  lemma AppendUses(x: seq<Op>, y: seq<Op>, held: set<Resource>)
    requires Covered({}, x) && LocksOf(x) == held
    requires Covered(held, y) && LocksOf(y) == {}
    ensures Covered({}, x + y) && LocksOf(x + y) == held
  {
    assert {} + held == held + {} == held;
    LocksConcat(x, y);
    CoveredConcat({}, x, y);
  }

  lemma WritesAreCovered(lines: seq<Line>, held: set<Resource>)
    requires Rows(LineCodes(SortLines(lines))) <= held
    ensures Covered(held, WriteOps(SortLines(lines))) && LocksOf(WriteOps(SortLines(lines))) == {}
  {
    forall line | line in SortLines(lines) ensures AccountRow(line.code) in held && BalanceRow(line.code) in held {
      SortedLinesAreLocked(lines, line);
    }
    WriteOpsCovered(SortLines(lines), held);
  }

  lemma InTurn(locking: seq<Op>, check: seq<Op>, writes: seq<Op>, commit: seq<Op>, held: set<Resource>)
    requires Covered({}, locking) && LocksOf(locking) == held
    requires Covered(held, check) && LocksOf(check) == {}
    requires Covered(held, writes) && LocksOf(writes) == {}
    requires Covered(held, commit) && LocksOf(commit) == {}
    ensures Covered({}, locking + check + writes + commit)
  {
    AppendUses(locking, check, held);
    AppendUses(locking + check, writes, held);
    AppendUses(locking + check + writes, commit, held);
  }

  lemma PostIsCovered(p: PostInput)
    requires ChecksOwnLines(PostTxn(p))
    ensures Covered({}, PostOps(p))
  {
    var lines := SortLines(p.lines);
    var held := KeyOf(p.reference) + Rows(LineCodes(lines));
    PostLockingIsCovered(p);
    CheckIsCovered(p, held);
    WritesAreCovered(p.lines, held);
    OneOp(held, Commit(PostedEntry(p)));
    InTurn(PostHead(p) + LockOps(LineCodes(lines)), CheckOps(p.check), WriteOps(lines), [Commit(PostedEntry(p))], held);
  }

  lemma CappedTailIsCovered(k: CappedInput, held: set<Resource>)
    requires forall c | c in [TenantCode(k.tenant), k.target] :: AccountRow(c) in held && BalanceRow(c) in held
    ensures Covered(held, CappedTail(k))
    ensures LocksOf(CappedTail(k)) == KeyOf(k.reference)
  {
    var tail := CappedTail(k);
    assert TenantCode(k.tenant) in [TenantCode(k.tenant), k.target] && k.target in [TenantCode(k.tenant), k.target];
    var held' := held + KeyOf(k.reference);
    TwoOps(held, tail[0], tail[1]);
    TwoOps(held', tail[2], tail[3]);
    TwoOps(held', tail[4], tail[5]);
    OneOp(held', tail[6]);
    assert held' + {} == held';
    var a, b, c, d := [tail[0], tail[1]], [tail[2], tail[3]], [tail[4], tail[5]], [tail[6]];
    assert tail == a + b + c + d;
    LocksConcat(a, b);
    LocksConcat(a + b, c);
    LocksConcat(a + b + c, d);
    CoveredConcat(held, a, b);
    CoveredConcat(held, a + b, c);
    CoveredConcat(held, a + b + c, d);
  }

  lemma CappedIsCovered(k: CappedInput)
    ensures Covered({}, CappedOps(k))
    ensures LocksOf(CappedOps(k)) == Rows(PairCodes(TenantCode(k.tenant), k.target)) + KeyOf(k.reference)
  {
    var codes := PairCodes(TenantCode(k.tenant), k.target);
    LockOpsLocks(codes, {});
    RowsOfCodes(codes);
    assert {} + Rows(codes) == Rows(codes);
    CappedTailIsCovered(k, Rows(codes));
    CoveredConcat({}, LockOps(codes), CappedTail(k));
    LocksConcat(LockOps(codes), CappedTail(k));
  }

  lemma ProgramIsCovered(t: Txn)
    requires ChecksOwnLines(t)
    ensures Covered({}, Program(t))
  {
    match t
    case PostTxn(p) => PostIsCovered(p);
    case CappedTxn(k) => CappedIsCovered(k);
  }

  // ---- Serializability ----

  lemma HaltsAsExec(b: Books, t: Txn, n: nat)
    requires n <= |Program(t)| && Drive(b, EMPTY_DRAFT, Program(t)[..n]).Halted?
    ensures Drive(b, EMPTY_DRAFT, Program(t)[..n]).result == Exec(b, t)
  {
    var p := Program(t);
    assert p == p[..n] + p[n..];
    DriveConcat(b, EMPTY_DRAFT, p[..n], p[n..]);
    ProgramComputesExec(b, t);
  }

  /** Appending a call that behaved as Exec to a serial log gives a serial log. */
  lemma AppendToLog(b: Books, txns: seq<Txn>, s: System, s': System, t: nat)
    requires Serial(b, txns, s) && t < |txns|
    requires s'.books == Exec(s.books, txns[t]).books
    requires s'.log == s.log + [Logged(t, Exec(s.books, txns[t]).outcome)]
    ensures Serial(b, txns, s')
  {
    var o, o' := Order(txns, s.log), Order(txns, s'.log);
    assert o' == o + [txns[t]];
    assert o'[..|o'| - 1] == o;
    forall k | 0 <= k < |s'.log|
      ensures s'.log[k].outcome == Exec(ExecAll(b, o'[..k]), txns[s'.log[k].call]).outcome
    {
      if k < |s.log| { assert o'[..k] == o[..k]; }
    }
  }

  lemma AppendKeepsLogExact(n: nat, s: System, s': System, t: nat, outcome: Outcome)
    requires LogIsExact(n, s) && t < n && IsActive(s, t)
    requires s'.calls == s.calls[t := Finished] && s'.log == s.log + [Logged(t, outcome)]
    ensures LogIsExact(n, s')
  {
    forall u | 0 <= u < |s'.calls| && s'.calls[u] == Finished
      ensures exists k :: 0 <= k < |s'.log| && s'.log[k].call == u
    {
      if u == t { assert s'.log[|s.log|].call == u; } else {
        var k :| 0 <= k < |s.log| && s.log[k].call == u;
        assert s'.log[k].call == u;
      }
    }
  }

  lemma OtherCallsKeepLogExact(n: nat, s: System, t: nat, c: Call)
    requires LogIsExact(n, s) && t < n && IsActive(s, t) && c != Finished
    ensures LogIsExact(n, s.(calls := s.calls[t := c]))
  {
    var s' := s.(calls := s.calls[t := c]);
    forall u | 0 <= u < |s'.calls| && s'.calls[u] == Finished
      ensures exists k :: 0 <= k < |s'.log| && s'.log[k].call == u
    {
      var k :| 0 <= k < |s.log| && s.log[k].call == u;
    }
  }

  lemma StepKeepsSerial(b: Books, txns: seq<Txn>, s: System, t: nat)
    requires WellLocked(Programs(txns)) && Isolated(Programs(txns), s)
    requires Serial(b, txns, s) && LogIsExact(|txns|, s) && HasNext(Programs(txns), s, t)
    ensures Serial(b, txns, Advance(Programs(txns), s, t)) && LogIsExact(|txns|, Advance(Programs(txns), s, t))
  {
    var progs := Programs(txns);
    assert RunsAlone(progs, s, t);
    match Do(s.books, s.calls[t].draft, NextOp(progs, s, t)) {
      case Going(d) => OtherCallsKeepLogExact(|txns|, s, t, Active(s.calls[t].pc + 1, d));
      case Halted(r) =>
        NextStatement(progs, s, t);
        HaltsAsExec(s.books, txns[t], s.calls[t].pc + 1);
        AppendToLog(b, txns, s, Advance(progs, s, t), t);
        AppendKeepsLogExact(|txns|, s, Advance(progs, s, t), t, r.outcome);
    }
  }

  lemma ProgramsAreWellLocked(txns: seq<Txn>)
    requires forall x | x in txns :: ChecksOwnLines(x)
    ensures WellLocked(Programs(txns))
  {
    forall p: seq<Op> | p in Programs(txns) ensures p != [] && p[|p| - 1].Commit? && Covered({}, p) {
      var i :| 0 <= i < |txns| && p == Program(txns[i]);
      ProgramIsCovered(txns[i]);
    }
  }

  lemma StartIsSerial(b: Books, txns: seq<Txn>)
    ensures Serial(b, txns, Start(b, Programs(txns))) && LogIsExact(|txns|, Start(b, Programs(txns)))
  {
    assert Order(txns, []) == [];
  }

  lemma NextKeepsSerial(b: Books, txns: seq<Txn>, s: System, e: Event)
    requires WellLocked(Programs(txns)) && Isolated(Programs(txns), s) && Serial(b, txns, s) && LogIsExact(|txns|, s)
    ensures Serial(b, txns, Next(Programs(txns), s, e)) && LogIsExact(|txns|, Next(Programs(txns), s, e))
  {
    var progs := Programs(txns);
    match e
    case Step(t) => if HasNext(progs, s, t) && !Blocked(progs, s, t) { StepKeepsSerial(b, txns, s, t); }
    case Crash(t) => if IsActive(s, t) { OtherCallsKeepLogExact(|txns|, s, t, Crashed); }
  }

  lemma {:induction false} RunInvariant(b: Books, txns: seq<Txn>, schedule: seq<Event>)
    requires WellLocked(Programs(txns))
    ensures Serial(b, txns, Run(b, Programs(txns), schedule)) && LogIsExact(|txns|, Run(b, Programs(txns), schedule))
  {
    if schedule == [] {
      StartIsSerial(b, txns);
    } else {
      var n := |schedule| - 1;
      RunInvariant(b, txns, schedule[..n]);
      RunIsIsolated(b, Programs(txns), schedule[..n]);
      NextKeepsSerial(b, txns, Run(b, Programs(txns), schedule[..n]), schedule[n]);
    }
  }

  /** Serializability: every schedule is explained by the calls run singly in the order they ended. */
  lemma Serializability(b: Books, txns: seq<Txn>, schedule: seq<Event>)
    requires forall x | x in txns :: ChecksOwnLines(x)
    ensures Serial(b, txns, Run(b, Programs(txns), schedule))
    ensures LogIsExact(|txns|, Run(b, Programs(txns), schedule))
  {
    ProgramsAreWellLocked(txns);
    RunInvariant(b, txns, schedule);
  }

  lemma {:induction false} GuardedRunsStaySolvent(b: Books, ts: seq<Txn>)
    requires Consistent(b) && NoOverdraft(b) && forall t | t in ts :: Guarded(t)
    ensures Consistent(ExecAll(b, ts)) && NoOverdraft(ExecAll(b, ts))
  {
    if ts != [] {
      GuardedRunsStaySolvent(b, ts[..|ts| - 1]);
      ExecKeepsConsistency(ExecAll(b, ts[..|ts| - 1]), ts[|ts| - 1]);
      GuardedCallsDoNotOverdraw(ExecAll(b, ts[..|ts| - 1]), ts[|ts| - 1]);
    }
  }

  /** No interleaving of credits, checked debits and capped debits overdraws a tenant. */
  lemma NoConcurrentOverdraft(b: Books, txns: seq<Txn>, schedule: seq<Event>)
    requires Consistent(b) && NoOverdraft(b)
    requires forall t | t in txns :: Guarded(t)
    ensures NoOverdraft(Run(b, Programs(txns), schedule).books)
    ensures Consistent(Run(b, Programs(txns), schedule).books)
  {
    forall t | t in txns ensures ChecksOwnLines(t) { GuardedChecksOwnLines(t); }
    ProgramsAreWellLocked(txns);
    RunInvariant(b, txns, schedule);
    GuardedRunsStaySolvent(b, Order(txns, Run(b, Programs(txns), schedule).log));
  }

  lemma GuardedChecksOwnLines(t: Txn)
    requires Guarded(t)
    ensures ChecksOwnLines(t)
  {
    if t.PostTxn? { assert |t.post.lines| == 2 && t.post.lines[0] in t.post.lines; }
  }
}
