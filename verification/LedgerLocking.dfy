/**
 Transactions interleaved statement by statement, with row locks and unique-key locks held
 until commit or rollback.  Whatever the schedule, each unfinished transaction has done
 exactly what it would have done alone on the books as they are committed now.
 */
module LedgerLocking {
  import opened Basics
  import opened LedgerBooks
  import opened LedgerSteps

  /** What a transaction can lock: a unique reference, an accounts row, an account_balances row. */
  datatype Resource = ReferenceKey(reference: string) | AccountRow(code: string) | BalanceRow(code: string)

  datatype Call = Active(pc: nat, draft: Draft) | Finished | Crashed
  datatype Logged = Logged(call: nat, outcome: Outcome)
  datatype System = System(books: Books, calls: seq<Call>, log: seq<Logged>)

  /** The scheduler lets one call send its next statement, or the connection of one call dies. */
  datatype Event = Step(call: nat) | Crash(call: nat)

  function KeyOf(reference: Option<string>): set<Resource> {
    if reference.Some? then {ReferenceKey(reference.value)} else {}
  }

  /** The lock a statement takes. */
  function Wants(op: Op): set<Resource> {
    match op
    case InsertHeader(reference) => KeyOf(reference)
    case LockAccount(c) => {AccountRow(c)}
    case LockBalance(c) => {BalanceRow(c)}
    case _ => {}
  }

  function LocksOf(ops: seq<Op>): set<Resource> {
    if ops == [] then {} else LocksOf(ops[..|ops| - 1]) + Wants(ops[|ops| - 1])
  }

  predicate IsActive(s: System, t: nat) { t < |s.calls| && s.calls[t].Active? }

  function Held(progs: seq<seq<Op>>, s: System, t: nat): set<Resource> {
    if t < |progs| && IsActive(s, t) && s.calls[t].pc <= |progs[t]| then
      LocksOf(progs[t][..s.calls[t].pc])
    else {}
  }

  predicate HasNext(progs: seq<seq<Op>>, s: System, t: nat) {
    t < |progs| && IsActive(s, t) && s.calls[t].pc < |progs[t]|
  }

  function NextOp(progs: seq<seq<Op>>, s: System, t: nat): Op
    requires HasNext(progs, s, t)
  {
    progs[t][s.calls[t].pc]
  }

  /** Call `t` waits for a lock that `u` holds. */
  predicate WaitsFor(progs: seq<seq<Op>>, s: System, t: nat, u: nat) {
    t != u && HasNext(progs, s, t) && !(Wants(NextOp(progs, s, t)) !! Held(progs, s, u))
  }

  predicate Blocked(progs: seq<seq<Op>>, s: System, t: nat) {
    exists u | 0 <= u < |progs| :: WaitsFor(progs, s, t, u)
  }

  function Advance(progs: seq<seq<Op>>, s: System, t: nat): System
    requires HasNext(progs, s, t)
  {
    match Do(s.books, s.calls[t].draft, NextOp(progs, s, t))
    case Going(d) => s.(calls := s.calls[t := Active(s.calls[t].pc + 1, d)])
    case Halted(r) => System(r.books, s.calls[t := Finished], s.log + [Logged(t, r.outcome)])
  }

  function Next(progs: seq<seq<Op>>, s: System, e: Event): System {
    match e
    case Step(t) => if HasNext(progs, s, t) && !Blocked(progs, s, t) then Advance(progs, s, t) else s
    case Crash(t) => if IsActive(s, t) then s.(calls := s.calls[t := Crashed]) else s
  }

  function Start(b: Books, progs: seq<seq<Op>>): System {
    System(b, seq(|progs|, _ => Active(0, EMPTY_DRAFT)), [])
  }

  function Run(b: Books, progs: seq<seq<Op>>, schedule: seq<Event>): System {
    if schedule == [] then Start(b, progs) else
      Next(progs, Run(b, progs, schedule[..|schedule| - 1]), schedule[|schedule| - 1])
  }

  // ---- Each active call looks as if it had run alone on the committed books ----

  ghost predicate RunsAlone(progs: seq<seq<Op>>, s: System, t: nat) {
    && HasNext(progs, s, t)
    && Drive(s.books, EMPTY_DRAFT, progs[t][..s.calls[t].pc]) == Going(s.calls[t].draft)
  }

  /** Programs that end by committing. */
  ghost predicate EndInCommit(progs: seq<seq<Op>>) {
    forall p: seq<Op> | p in progs :: p != [] && p[|p| - 1].Commit?
  }

  /** Programs that, besides, use only rows they have locked. */
  ghost predicate WellLocked(progs: seq<seq<Op>>) {
    EndInCommit(progs) && forall p: seq<Op> | p in progs :: Covered({}, p)
  }

  /** Unfinished calls have statements left, and no lock is held by two of them. */
  ghost predicate Apart(progs: seq<seq<Op>>, s: System) {
    && |s.calls| == |progs|
    && (forall t | 0 <= t < |progs| && IsActive(s, t) :: HasNext(progs, s, t))
    && (forall t, u | 0 <= t < |progs| && 0 <= u < |progs| && t != u :: Held(progs, s, t) !! Held(progs, s, u))
  }

  ghost predicate Isolated(progs: seq<seq<Op>>, s: System) {
    Apart(progs, s) && forall t | 0 <= t < |progs| && IsActive(s, t) :: RunsAlone(progs, s, t)
  }

  /** Rows whose committed content a statement depends on, or that it publishes by name. */
  function Uses(op: Op): set<Resource> {
    match op
    case InsertHeader(reference) => KeyOf(reference)
    case LockAccount(c) => {AccountRow(c)}
    case LockBalance(c) => {BalanceRow(c)}
    case CheckBalance(c, _) => {BalanceRow(c)}
    case CapBalance(c, _) => {BalanceRow(c)}
    case UpdateBalance(line) => {AccountRow(line.code), BalanceRow(line.code)}
    case UpdateCapped(c, _) => {AccountRow(c), BalanceRow(c)}
    case Commit(header) => KeyOf(header.reference)
    case _ => {}
  }

  /** Every statement uses only what the transaction has locked by then. */
  ghost predicate Covered(held: set<Resource>, ops: seq<Op>) {
    ops == [] || (Covered(held, ops[..|ops| - 1]) && Uses(ops[|ops| - 1]) <= held + LocksOf(ops))
  }

  lemma {:induction false} LocksConcat(x: seq<Op>, y: seq<Op>)
    ensures LocksOf(x + y) == LocksOf(x) + LocksOf(y)
  {
    if y == [] { assert x + y == x; } else {
      assert (x + y)[..|x + y| - 1] == x + y[..|y| - 1];
      LocksConcat(x, y[..|y| - 1]);
    }
  }

  lemma {:induction false} CoveredConcat(held: set<Resource>, x: seq<Op>, y: seq<Op>)
    requires Covered(held, x) && Covered(held + LocksOf(x), y)
    ensures Covered(held, x + y)
  {
    if y == [] { assert x + y == x; } else {
      assert (x + y)[..|x + y| - 1] == x + y[..|y| - 1];
      CoveredConcat(held, x, y[..|y| - 1]);
      LocksConcat(x, y);
    }
  }

  lemma {:induction false} CoveredPrefix(held: set<Resource>, ops: seq<Op>, n: nat)
    requires Covered(held, ops) && n <= |ops|
    ensures Covered(held, ops[..n])
  {
    if n < |ops| {
      assert ops[..|ops| - 1][..n] == ops[..n];
      CoveredPrefix(held, ops[..|ops| - 1], n);
    } else {
      assert ops[..n] == ops;
    }
  }

  lemma TwoOps(held: set<Resource>, x: Op, y: Op)
    requires Uses(x) <= held + Wants(x) && Uses(y) <= held + Wants(x) + Wants(y)
    ensures LocksOf([x, y]) == Wants(x) + Wants(y)
    ensures Covered(held, [x, y])
  {
    OneOp(held, x);
    assert [x, y][..1] == [x];
    assert LocksOf([x, y]) == LocksOf([x]) + Wants(y);
  }

  lemma OneOp(held: set<Resource>, x: Op)
    requires Uses(x) <= held + Wants(x)
    ensures LocksOf([x]) == Wants(x)
    ensures Covered(held, [x])
  {
    assert [x][..0] == [];
    assert LocksOf([x]) == LocksOf([]) + Wants(x);
  }

  // ---- Frames: a locked row keeps its content, and a draft writes only locked rows ----

  ghost predicate Same(b: Books, b': Books, r: Resource) {
    match r
    case ReferenceKey(x) => x in References(b.journal) <==> x in References(b'.journal)
    case AccountRow(c) =>
      (c in b.accounts <==> c in b'.accounts) && (c in b.accounts ==> b.accounts[c] == b'.accounts[c])
    case BalanceRow(c) =>
      (c in b.balances <==> c in b'.balances) && (c in b.balances ==> b.balances[c] == b'.balances[c])
  }

  lemma DoFrame(b: Books, b': Books, d: Draft, op: Op)
    requires forall r | r in Uses(op) :: Same(b, b', r)
    requires Do(b, d, op).Going?
    ensures Do(b', d, op) == Do(b, d, op)
  {
    match op
    case InsertHeader(reference) => assert reference.Some? ==> ReferenceKey(reference.value) in Uses(op);
    case LockAccount(c) => assert AccountRow(c) in Uses(op);
    case LockBalance(c) => assert BalanceRow(c) in Uses(op);
    case CheckBalance(c, _) => assert BalanceRow(c) in Uses(op);
    case CapBalance(c, _) => assert BalanceRow(c) in Uses(op);
    case UpdateBalance(line) => assert AccountRow(line.code) in Uses(op) && BalanceRow(line.code) in Uses(op);
    case UpdateCapped(c, _) => assert AccountRow(c) in Uses(op) && BalanceRow(c) in Uses(op);
    case _ =>
  }

  lemma {:induction false} DriveFrame(b: Books, b': Books, ops: seq<Op>)
    requires Covered({}, ops)
    requires forall r | r in LocksOf(ops) :: Same(b, b', r)
    requires Drive(b, EMPTY_DRAFT, ops).Going?
    ensures Drive(b', EMPTY_DRAFT, ops) == Drive(b, EMPTY_DRAFT, ops)
  {
    if ops != [] {
      DriveFrame(b, b', ops[..|ops| - 1]);
      DoFrame(b, b', Drive(b, EMPTY_DRAFT, ops[..|ops| - 1]).draft, ops[|ops| - 1]);
    }
  }

  ghost predicate Footprint(d: Draft, held: set<Resource>) {
    && (forall c | c in d.created :: AccountRow(c) in held)
    && (forall c | c in d.rows :: BalanceRow(c) in held)
  }

  lemma DoFootprint(b: Books, d: Draft, op: Op, held: set<Resource>)
    requires Footprint(d, held) && Uses(op) <= held && Do(b, d, op).Going?
    ensures Footprint(Do(b, d, op).draft, held)
  {
    match op
    case LockAccount(c) => assert AccountRow(c) in Uses(op);
    case LockBalance(c) => assert BalanceRow(c) in Uses(op);
    case UpdateBalance(line) => assert BalanceRow(line.code) in Uses(op);
    case UpdateCapped(c, _) => assert BalanceRow(c) in Uses(op);
    case _ =>
  }

  lemma {:induction false} DriveFootprint(b: Books, ops: seq<Op>)
    requires Covered({}, ops) && Drive(b, EMPTY_DRAFT, ops).Going?
    ensures Footprint(Drive(b, EMPTY_DRAFT, ops).draft, LocksOf(ops))
  {
    if ops != [] {
      DriveFootprint(b, ops[..|ops| - 1]);
      DoFootprint(b, Drive(b, EMPTY_DRAFT, ops[..|ops| - 1]).draft, ops[|ops| - 1], LocksOf(ops));
    }
  }

  lemma HaltFrame(b: Books, d: Draft, op: Op, held: set<Resource>, r: Resource)
    requires Footprint(d, held) && Uses(op) <= held && r !in held
    requires Do(b, d, op).Halted?
    ensures Same(b, Do(b, d, op).result.books, r)
  {
    var b' := Do(b, d, op).result.books;
    match r
    case ReferenceKey(x) =>
      if op.Commit? {
        var e := op.header.(lines := d.lines);
        assert b'.journal == b.journal + [e];
        assert e.reference.Some? ==> ReferenceKey(e.reference.value) in Uses(op);
        forall y ensures y in References(b'.journal) <==> y in References(b.journal) || e.reference == Some(y) {
          if y in References(b.journal) { var f :| f in b.journal && f.reference == Some(y); assert f in b'.journal; }
          if e.reference == Some(y) { assert e in b'.journal; }
        }
      } else {
        assert b'.journal == b.journal;
      }
    case AccountRow(c) =>
    case BalanceRow(c) =>
  }

  // ---- The invariant ----

  lemma NextStatement(progs: seq<seq<Op>>, s: System, t: nat)
    requires WellLocked(progs) && RunsAlone(progs, s, t)
    ensures var p, n := progs[t], s.calls[t].pc;
      && Drive(s.books, EMPTY_DRAFT, p[..n + 1]) == Do(s.books, s.calls[t].draft, p[n])
      && LocksOf(p[..n + 1]) == LocksOf(p[..n]) + Wants(p[n])
      && (Do(s.books, s.calls[t].draft, p[n]).Going? ==> n + 1 < |p|)
  {
    var p, n := progs[t], s.calls[t].pc;
    assert p in progs;
    assert p[..n + 1][..n] == p[..n];
  }

  /** A call that ends leaves every row it has not locked as it was. */
  lemma EndTouchesOnlyLockedRows(progs: seq<seq<Op>>, s: System, t: nat, r: Resource)
    requires WellLocked(progs) && RunsAlone(progs, s, t)
    requires r !in Held(progs, s, t) && r !in Wants(NextOp(progs, s, t))
    requires Do(s.books, s.calls[t].draft, NextOp(progs, s, t)).Halted?
    ensures Same(s.books, Advance(progs, s, t).books, r)
  {
    var n, op := s.calls[t].pc, NextOp(progs, s, t);
    var before, mine := progs[t][..n], progs[t][..n + 1];
    NextStatement(progs, s, t);
    assert progs[t] in progs;
    CoveredPrefix({}, progs[t], n);
    CoveredPrefix({}, progs[t], n + 1);
    DriveFootprint(s.books, before);
    assert mine[..|mine| - 1] == before;
    HaltFrame(s.books, s.calls[t].draft, op, LocksOf(mine), r);
  }

  lemma EndKeepsOthers(progs: seq<seq<Op>>, s: System, t: nat, u: nat)
    requires Isolated(progs, s) && t < |progs| && u < |progs| && u != t
    requires WellLocked(progs)
    requires HasNext(progs, s, t) && !Blocked(progs, s, t) && IsActive(s, u)
    requires Do(s.books, s.calls[t].draft, NextOp(progs, s, t)).Halted?
    ensures RunsAlone(progs, Advance(progs, s, t), u)
  {
    var s' := Advance(progs, s, t);
    assert RunsAlone(progs, s, t) && RunsAlone(progs, s, u);
    var theirs := progs[u][..s.calls[u].pc];
    assert progs[u] in progs;
    CoveredPrefix({}, progs[u], s.calls[u].pc);
    forall r | r in LocksOf(theirs) ensures Same(s.books, s'.books, r) {
      assert r in Held(progs, s, u);
      assert !WaitsFor(progs, s, t, u);
      EndTouchesOnlyLockedRows(progs, s, t, r);
    }
    DriveFrame(s.books, s'.books, theirs);
  }

  lemma GoingIsNotTheEnd(progs: seq<seq<Op>>, s: System, t: nat)
    requires EndInCommit(progs) && HasNext(progs, s, t)
    ensures Do(s.books, s.calls[t].draft, NextOp(progs, s, t)).Going? ==> s.calls[t].pc + 1 < |progs[t]|
    ensures LocksOf(progs[t][..s.calls[t].pc + 1]) == LocksOf(progs[t][..s.calls[t].pc]) + Wants(NextOp(progs, s, t))
  {
    assert progs[t] in progs;
    assert progs[t][..s.calls[t].pc + 1][..s.calls[t].pc] == progs[t][..s.calls[t].pc];
  }

  lemma StepKeepsLocksApart(progs: seq<seq<Op>>, s: System, t: nat, u: nat)
    requires EndInCommit(progs) && Apart(progs, s)
    requires HasNext(progs, s, t) && !Blocked(progs, s, t) && u < |progs| && u != t
    ensures Held(progs, Advance(progs, s, t), t) !! Held(progs, Advance(progs, s, t), u)
  {
    var s' := Advance(progs, s, t);
    GoingIsNotTheEnd(progs, s, t);
    assert Held(progs, s', u) == Held(progs, s, u);
    assert Held(progs, s', t) <= Held(progs, s, t) + Wants(NextOp(progs, s, t));
    assert !WaitsFor(progs, s, t, u);
  }

  lemma StepKeepsApart(progs: seq<seq<Op>>, s: System, t: nat)
    requires EndInCommit(progs) && Apart(progs, s)
    requires HasNext(progs, s, t) && !Blocked(progs, s, t)
    ensures Apart(progs, Advance(progs, s, t))
  {
    var s' := Advance(progs, s, t);
    GoingIsNotTheEnd(progs, s, t);
    forall u | 0 <= u < |progs| && IsActive(s', u) ensures HasNext(progs, s', u) {
      if u != t { assert HasNext(progs, s, u); }
    }
    forall u, v | 0 <= u < |progs| && 0 <= v < |progs| && u != v ensures Held(progs, s', u) !! Held(progs, s', v) {
      if u == t { StepKeepsLocksApart(progs, s, t, v); }
      else if v == t { StepKeepsLocksApart(progs, s, t, u); }
      else { assert Held(progs, s', u) == Held(progs, s, u) && Held(progs, s', v) == Held(progs, s, v); }
    }
  }

  lemma CrashKeepsApart(progs: seq<seq<Op>>, s: System, t: nat)
    requires Apart(progs, s) && IsActive(s, t)
    ensures Apart(progs, s.(calls := s.calls[t := Crashed]))
  {
    var s' := s.(calls := s.calls[t := Crashed]);
    forall u | 0 <= u < |progs| && IsActive(s', u) ensures HasNext(progs, s', u) { assert HasNext(progs, s, u); }
    forall u, v | 0 <= u < |progs| && 0 <= v < |progs| && u != v ensures Held(progs, s', u) !! Held(progs, s', v) {
      assert Held(progs, s', u) <= Held(progs, s, u) && Held(progs, s', v) <= Held(progs, s, v);
    }
  }

  lemma NextKeepsApart(progs: seq<seq<Op>>, s: System, e: Event)
    requires EndInCommit(progs) && Apart(progs, s)
    ensures Apart(progs, Next(progs, s, e))
  {
    match e
    case Step(t) => if HasNext(progs, s, t) && !Blocked(progs, s, t) { StepKeepsApart(progs, s, t); }
    case Crash(t) => if IsActive(s, t) { CrashKeepsApart(progs, s, t); }
  }

  lemma StartIsApart(b: Books, progs: seq<seq<Op>>)
    requires EndInCommit(progs)
    ensures Apart(progs, Start(b, progs))
  {
    var s := Start(b, progs);
    forall t | 0 <= t < |progs| ensures Held(progs, s, t) == {} && HasNext(progs, s, t) {
      assert progs[t] in progs && progs[t][..0] == [];
    }
  }

  /** No lock is ever held twice, whatever the calls depend on. */
  lemma {:induction false} RunIsApart(b: Books, progs: seq<seq<Op>>, schedule: seq<Event>)
    requires EndInCommit(progs)
    ensures Apart(progs, Run(b, progs, schedule))
  {
    if schedule == [] {
      StartIsApart(b, progs);
    } else {
      RunIsApart(b, progs, schedule[..|schedule| - 1]);
      NextKeepsApart(progs, Run(b, progs, schedule[..|schedule| - 1]), schedule[|schedule| - 1]);
    }
  }

  lemma StepKeepsIsolation(progs: seq<seq<Op>>, s: System, t: nat)
    requires WellLocked(progs) && Isolated(progs, s)
    requires HasNext(progs, s, t) && !Blocked(progs, s, t)
    ensures Isolated(progs, Advance(progs, s, t))
  {
    var s', op := Advance(progs, s, t), NextOp(progs, s, t);
    assert RunsAlone(progs, s, t);
    NextStatement(progs, s, t);
    StepKeepsApart(progs, s, t);
    forall u | 0 <= u < |progs| && IsActive(s', u) ensures RunsAlone(progs, s', u) {
      if u != t {
        assert RunsAlone(progs, s, u);
        if Do(s.books, s.calls[t].draft, op).Halted? { EndKeepsOthers(progs, s, t, u); }
      }
    }
  }

  lemma CrashKeepsIsolation(progs: seq<seq<Op>>, s: System, t: nat)
    requires Isolated(progs, s) && IsActive(s, t)
    ensures Isolated(progs, s.(calls := s.calls[t := Crashed]))
  {
    var s' := s.(calls := s.calls[t := Crashed]);
    CrashKeepsApart(progs, s, t);
    forall u | 0 <= u < |progs| && IsActive(s', u) ensures RunsAlone(progs, s', u) { assert RunsAlone(progs, s, u); }
  }

  /** Isolation holds in every state of every schedule. */
  lemma {:induction false} RunIsIsolated(b: Books, progs: seq<seq<Op>>, schedule: seq<Event>)
    requires WellLocked(progs)
    ensures Isolated(progs, Run(b, progs, schedule))
  {
    if schedule == [] {
      var s := Start(b, progs);
      StartIsApart(b, progs);
      forall t | 0 <= t < |progs| && IsActive(s, t) ensures RunsAlone(progs, s, t) {
        assert progs[t] in progs && progs[t][..0] == [];
      }
    } else {
      var s := Run(b, progs, schedule[..|schedule| - 1]);
      RunIsIsolated(b, progs, schedule[..|schedule| - 1]);
      match schedule[|schedule| - 1]
      case Step(t) =>
        if HasNext(progs, s, t) && !Blocked(progs, s, t) { StepKeepsIsolation(progs, s, t); }
      case Crash(t) =>
        if IsActive(s, t) { CrashKeepsIsolation(progs, s, t); }
    }
  }

  // ---- Before the first call ends ----

  /** Until a call has finished the books are the first ones and every call has run as if alone. */
  ghost predicate QuietUntilLogged(b: Books, progs: seq<seq<Op>>, s: System) {
    && (s.log != [] ==> exists t | 0 <= t < |s.calls| :: s.calls[t] == Finished)
    && (s.log == [] ==> s.books == b && forall t | 0 <= t < |progs| && IsActive(s, t) :: RunsAlone(progs, s, t))
  }

  lemma StepKeepsQuiet(b: Books, progs: seq<seq<Op>>, s: System, t: nat)
    requires EndInCommit(progs) && Apart(progs, s) && QuietUntilLogged(b, progs, s) && HasNext(progs, s, t)
    ensures QuietUntilLogged(b, progs, Advance(progs, s, t))
  {
    var s', n := Advance(progs, s, t), s.calls[t].pc;
    GoingIsNotTheEnd(progs, s, t);
    if s.log != [] {
      var u :| 0 <= u < |s.calls| && s.calls[u] == Finished;
      assert s'.calls[u] == Finished;
    } else if s'.log != [] {
      assert s'.calls[t] == Finished;
    }
    if s'.log == [] {
      assert progs[t][..n + 1][..n] == progs[t][..n];
      forall u | 0 <= u < |progs| && IsActive(s', u) ensures RunsAlone(progs, s', u) { assert RunsAlone(progs, s, u); }
    }
  }

  lemma CrashKeepsQuiet(b: Books, progs: seq<seq<Op>>, s: System, t: nat)
    requires Apart(progs, s) && QuietUntilLogged(b, progs, s) && IsActive(s, t)
    ensures QuietUntilLogged(b, progs, s.(calls := s.calls[t := Crashed]))
  {
    var s' := s.(calls := s.calls[t := Crashed]);
    if s.log != [] {
      var u :| 0 <= u < |s.calls| && s.calls[u] == Finished;
      assert s'.calls[u] == Finished;
    }
    if s'.log == [] {
      forall u | 0 <= u < |progs| && IsActive(s', u) ensures RunsAlone(progs, s', u) { assert RunsAlone(progs, s, u); }
    }
  }

  lemma {:induction false} RunIsQuiet(b: Books, progs: seq<seq<Op>>, schedule: seq<Event>)
    requires EndInCommit(progs)
    ensures Apart(progs, Run(b, progs, schedule)) && QuietUntilLogged(b, progs, Run(b, progs, schedule))
  {
    RunIsApart(b, progs, schedule);
    if schedule == [] {
      forall t | 0 <= t < |progs| ensures RunsAlone(progs, Start(b, progs), t) {
        assert progs[t] in progs && progs[t][..0] == [];
      }
    } else {
      var s := Run(b, progs, schedule[..|schedule| - 1]);
      RunIsQuiet(b, progs, schedule[..|schedule| - 1]);
      match schedule[|schedule| - 1]
      case Step(t) => if HasNext(progs, s, t) && !Blocked(progs, s, t) { StepKeepsQuiet(b, progs, s, t); }
      case Crash(t) => if IsActive(s, t) { CrashKeepsQuiet(b, progs, s, t); }
    }
  }
}
