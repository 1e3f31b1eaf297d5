/**
 Locks are taken in one global order: account by account in code order, the accounts row
 before its balance row.  Unique references come first in a `post` and last in a
 `debitCapped`.  So the transactions never wait in a circle unless a `post` and a
 `debitCapped` use one reference, and then, for two calls, exactly when LedgerHazard.LocksInReverse says.
 */
module LedgerDeadlock {
  import opened Basics
  import opened LedgerBooks
  import opened LedgerInvariants
  import opened LedgerSteps
  import opened LedgerLocking
  import opened LedgerConcurrency

  predicate RowLower(a: Resource, b: Resource) {
    && !a.ReferenceKey? && !b.ReferenceKey?
    && (Before(a.code, b.code) || (a.code == b.code && a.AccountRow? && b.BalanceRow?))
  }

  /** The reference of some `post`, hence locked before any account. */
  predicate EarlyKey(early: set<string>, r: Resource) { r.ReferenceKey? && r.reference in early }

  predicate LateKey(early: set<string>, r: Resource) { r.ReferenceKey? && !EarlyKey(early, r) }

  /** The global locking order. */
  predicate Lower(early: set<string>, a: Resource, b: Resource) {
    || (EarlyKey(early, a) && !EarlyKey(early, b))
    || (!LateKey(early, a) && LateKey(early, b))
    || RowLower(a, b)
  }

  lemma LowerIsTransitive(early: set<string>, a: Resource, b: Resource, c: Resource)
    requires Lower(early, a, b) && Lower(early, b, c)
    ensures Lower(early, a, c)
  {
    if RowLower(a, b) && RowLower(b, c) {
      if Before(a.code, b.code) && Before(b.code, c.code) { BeforeIsTransitive(a.code, b.code, c.code); }
    }
  }

  lemma LowerIsIrreflexive(early: set<string>, a: Resource)
    ensures !Lower(early, a, a)
  {
    if !a.ReferenceKey? { BeforeIsIrreflexive(a.code); }
  }

  // ---- Each program takes its locks in ascending order ----

  ghost predicate Ascending(early: set<string>, held: set<Resource>, ops: seq<Op>) {
    ops == [] || (
      var rest, last := ops[..|ops| - 1], ops[|ops| - 1];
      && Ascending(early, held, rest)
      && (forall w, h | w in Wants(last) && w !in held + LocksOf(rest)
        && h in held + LocksOf(rest) :: Lower(early, h, w)))
  }

  lemma {:induction false} AscendingConcat(early: set<string>, held: set<Resource>, x: seq<Op>, y: seq<Op>)
    requires Ascending(early, held, x) && Ascending(early, held + LocksOf(x), y)
    ensures Ascending(early, held, x + y)
  {
    if y == [] { assert x + y == x; } else {
      var y' := y[..|y| - 1];
      assert (x + y)[..|x + y| - 1] == x + y';
      AscendingConcat(early, held, x, y');
      LocksConcat(x, y');
      assert held + LocksOf(x) + LocksOf(y') == held + LocksOf(x + y');
    }
  }

  lemma {:induction false} AscendingPrefix(early: set<string>, held: set<Resource>, ops: seq<Op>, n: nat)
    requires Ascending(early, held, ops) && n <= |ops|
    ensures Ascending(early, held, ops[..n])
  {
    if n < |ops| {
      assert ops[..|ops| - 1][..n] == ops[..n];
      AscendingPrefix(early, held, ops[..|ops| - 1], n);
    } else {
      assert ops[..n] == ops;
    }
  }

  lemma {:induction false} WantingNothingAscends(early: set<string>, held: set<Resource>, ops: seq<Op>)
    requires forall op | op in ops :: Wants(op) == {}
    ensures Ascending(early, held, ops)
    ensures LocksOf(ops) == {}
  {
    if ops != [] {
      assert ops[|ops| - 1] in ops;
      WantingNothingAscends(early, held, ops[..|ops| - 1]);
    }
  }

  lemma AscendTwo(early: set<string>, held: set<Resource>, x: Op, y: Op)
    requires forall w, h | w in Wants(x) && w !in held && h in held :: Lower(early, h, w)
    requires forall w, h | w in Wants(y) && w !in held + Wants(x) && h in held + Wants(x) :: Lower(early, h, w)
    ensures Ascending(early, held, [x, y])
    ensures LocksOf([x, y]) == Wants(x) + Wants(y)
  {
    assert [x, y][..1] == [x] && [x][..0] == [];
    assert LocksOf([x]) == LocksOf([]) + Wants(x);
    assert LocksOf([x, y]) == LocksOf([x]) + Wants(y);
    assert Ascending(early, held, []);
    assert Ascending(early, held, [x]);
  }

  ghost predicate SortedCodes(codes: seq<string>) {
    forall i, j | 0 <= i < j < |codes| :: !Before(codes[j], codes[i])
  }

  lemma {:induction false} LockOpsAscend(early: set<string>, held: set<Resource>, codes: seq<string>)
    requires SortedCodes(codes)
    requires forall h | h in held :: EarlyKey(early, h)
    ensures Ascending(early, held, LockOps(codes))
  {
    if codes != [] {
      var rest, c := codes[..|codes| - 1], codes[|codes| - 1];
      LockOpsAscend(early, held, rest);
      LockOpsLocks(rest, held);
      RowsOfCodes(rest);
      var before := held + LocksOf(LockOps(rest));
      forall h, w | h in before && w in {AccountRow(c), BalanceRow(c)} && w !in before ensures Lower(early, h, w) {
        if h !in held { EarlierCodeIsLower(codes, h.code); }
      }
      AscendTwo(early, before, LockAccount(c), LockBalance(c));
      AscendingConcat(early, held, LockOps(rest), [LockAccount(c), LockBalance(c)]);
    }
  }

  lemma EarlierCodeIsLower(codes: seq<string>, d: string)
    requires codes != [] && SortedCodes(codes) && d in codes[..|codes| - 1]
    requires codes[|codes| - 1] !in codes[..|codes| - 1]
    ensures Before(d, codes[|codes| - 1])
  {
    BeforeIsTotal(d, codes[|codes| - 1]);
  }

  ghost predicate LocksInOrder(early: set<string>, progs: seq<seq<Op>>) {
    forall p: seq<Op> | p in progs :: Ascending(early, {}, p)
  }

  /** What a call waits for is above everything it holds. */
  lemma WaitIsAboveHeld(early: set<string>, progs: seq<seq<Op>>, s: System, t: nat, w: Resource, h: Resource)
    requires LocksInOrder(early, progs) && HasNext(progs, s, t)
    requires w in Wants(NextOp(progs, s, t)) && w !in Held(progs, s, t) && h in Held(progs, s, t)
    ensures Lower(early, h, w)
  {
    var ops, n := progs[t], s.calls[t].pc;
    assert ops in progs;
    AscendingPrefix(early, {}, ops, n + 1);
    assert ops[..n + 1][..n] == ops[..n];
    assert {} + LocksOf(ops[..n]) == LocksOf(ops[..n]);
  }

  // ---- No cycles ----

  function Want(op: Op): Resource
    requires Wants(op) != {}
    ensures Wants(op) == {Want(op)}
  {
    match op
    case InsertHeader(reference) => ReferenceKey(reference.value)
    case LockAccount(c) => AccountRow(c)
    case LockBalance(c) => BalanceRow(c)
  }

  predicate Waiting(progs: seq<seq<Op>>, s: System, t: nat) {
    HasNext(progs, s, t) && Wants(NextOp(progs, s, t)) != {}
  }

  function Awaited(progs: seq<seq<Op>>, s: System, t: nat): Resource
    requires Waiting(progs, s, t)
  {
    Want(NextOp(progs, s, t))
  }

  lemma WaitingRises(early: set<string>, progs: seq<seq<Op>>, s: System, t: nat, u: nat, v: nat)
    requires LocksInOrder(early, progs) && Apart(progs, s) && u < |progs| && v < |progs|
    requires WaitsFor(progs, s, t, u) && WaitsFor(progs, s, u, v)
    ensures Lower(early, Awaited(progs, s, t), Awaited(progs, s, u))
  {
    assert Awaited(progs, s, u) in Held(progs, s, v);
    WaitIsAboveHeld(early, progs, s, u, Awaited(progs, s, u), Awaited(progs, s, t));
  }

  /** Calls each waiting for the next, the last one for the first. */
  ghost predicate WaitCycle(progs: seq<seq<Op>>, s: System, ring: seq<nat>) {
    && ring != []
    && (forall i | 0 <= i < |ring| :: ring[i] < |progs| && Waiting(progs, s, ring[i]))
    && (forall i | 0 < i < |ring| :: WaitsFor(progs, s, ring[i - 1], ring[i]))
    && WaitsFor(progs, s, ring[|ring| - 1], ring[0])
  }

  lemma {:induction false} RingRises(early: set<string>, progs: seq<seq<Op>>, s: System, ring: seq<nat>, n: nat)
    requires LocksInOrder(early, progs) && Apart(progs, s) && WaitCycle(progs, s, ring) && 1 <= n < |ring|
    ensures Lower(early, Awaited(progs, s, ring[0]), Awaited(progs, s, ring[n]))
  {
    var after := if n + 1 < |ring| then ring[n + 1] else ring[0];
    assert WaitsFor(progs, s, ring[n - 1], ring[n]) && WaitsFor(progs, s, ring[n], after) by {
      if n + 1 < |ring| { assert WaitsFor(progs, s, ring[n + 1 - 1], ring[n + 1]); }
    }
    WaitingRises(early, progs, s, ring[n - 1], ring[n], after);
    if n > 1 {
      RingRises(early, progs, s, ring, n - 1);
      LowerIsTransitive(early, Awaited(progs, s, ring[0]), Awaited(progs, s, ring[n - 1]), Awaited(progs, s, ring[n]));
    }
  }

  lemma LocksInOrderFormNoCycle(early: set<string>, progs: seq<seq<Op>>, s: System, ring: seq<nat>)
    requires LocksInOrder(early, progs) && Apart(progs, s)
    ensures !WaitCycle(progs, s, ring)
  {
    if WaitCycle(progs, s, ring) {
      var last := ring[|ring| - 1];
      RingRises(early, progs, s, ring, |ring| - 1);
      assert WaitsFor(progs, s, ring[1 - 1], ring[1]);
      WaitingRises(early, progs, s, last, ring[0], ring[1]);
      LowerIsTransitive(early, Awaited(progs, s, last), Awaited(progs, s, ring[0]), Awaited(progs, s, last));
      LowerIsIrreflexive(early, Awaited(progs, s, last));
    }
  }

  // ---- Progress ----

  ghost predicate Enabled(progs: seq<seq<Op>>, s: System, t: nat) {
    HasNext(progs, s, t) && !Blocked(progs, s, t)
  }

  ghost predicate AllEnded(s: System) { forall t | 0 <= t < |s.calls| :: !s.calls[t].Active? }

  lemma {:induction false} HighestWaiter(early: set<string>, progs: seq<seq<Op>>, s: System, waiting: set<nat>)
    returns (m: nat)
    requires waiting != {}
    requires forall t | t in waiting :: Waiting(progs, s, t)
    ensures m in waiting
    ensures forall t | t in waiting :: !Lower(early, Awaited(progs, s, m), Awaited(progs, s, t))
  {
    var x :| x in waiting;
    LowerIsIrreflexive(early, Awaited(progs, s, x));
    if waiting == {x} { return x; }
    var rest := waiting - {x};
    assert waiting == rest + {x};
    m := HighestWaiter(early, progs, s, rest);
    if Lower(early, Awaited(progs, s, m), Awaited(progs, s, x)) {
      forall t | t in waiting ensures !Lower(early, Awaited(progs, s, x), Awaited(progs, s, t)) {
        if Lower(early, Awaited(progs, s, x), Awaited(progs, s, t)) {
          LowerIsTransitive(early, Awaited(progs, s, m), Awaited(progs, s, x), Awaited(progs, s, t));
        }
      }
      return x;
    }
  }

  /** While a call is unfinished, some unfinished call can send its next statement. */
  lemma SomeoneCanStep(early: set<string>, progs: seq<seq<Op>>, s: System) returns (t: nat)
    requires LocksInOrder(early, progs) && Apart(progs, s) && !AllEnded(s)
    ensures Enabled(progs, s, t)
  {
    var active := set u | 0 <= u < |progs| && IsActive(s, u);
    assert forall u | u in active :: HasNext(progs, s, u);
    var a: nat :| a < |s.calls| && s.calls[a].Active?;
    assert a in active;
    if u :| u in active && !Blocked(progs, s, u) { return u; }
    var m := HighestWaiter(early, progs, s, active);
    var u: nat :| 0 <= u < |progs| && WaitsFor(progs, s, m, u);
    assert u in active;
    var v: nat :| 0 <= v < |progs| && WaitsFor(progs, s, u, v);
    WaitingRises(early, progs, s, m, u, v);
    assert false;
  }

  function Remaining(progs: seq<seq<Op>>, s: System, n: nat): nat
    requires n <= |progs|
  {
    if n == 0 then 0 else
      Remaining(progs, s, n - 1) + if HasNext(progs, s, n - 1) then |progs[n - 1]| - s.calls[n - 1].pc else 0
  }

  lemma {:induction false} RemainingChanges(progs: seq<seq<Op>>, s: System, s': System, t: nat, n: nat)
    requires n <= |progs| && |s.calls| == |s'.calls| == |progs|
    requires HasNext(progs, s, t)
    requires s'.calls[t] == Finished || (s'.calls[t].Active? && s'.calls[t].pc == s.calls[t].pc + 1)
    requires forall u | 0 <= u < |progs| && u != t :: s'.calls[u] == s.calls[u]
    ensures Remaining(progs, s', n) <= Remaining(progs, s, n)
    ensures t < n ==> Remaining(progs, s', n) < Remaining(progs, s, n)
  {
    if n > 0 { RemainingChanges(progs, s, s', t, n - 1); }
  }

  /** Every statement sent brings the run closer to its end. */
  lemma StepsShrinkRemaining(progs: seq<seq<Op>>, s: System, t: nat)
    requires |s.calls| == |progs| && Enabled(progs, s, t)
    ensures Remaining(progs, Next(progs, s, Step(t)), |progs|) < Remaining(progs, s, |progs|)
  {
    RemainingChanges(progs, s, Next(progs, s, Step(t)), t, |progs|);
  }

  lemma NextStepHelps(early: set<string>, b: Books, progs: seq<seq<Op>>, schedule: seq<Event>) returns (e: Event)
    requires EndInCommit(progs) && LocksInOrder(early, progs) && !AllEnded(Run(b, progs, schedule))
    ensures Remaining(progs, Run(b, progs, schedule + [e]), |progs|) < Remaining(progs, Run(b, progs, schedule),
      |progs|)
  {
    RunIsApart(b, progs, schedule);
    var t := SomeoneCanStep(early, progs, Run(b, progs, schedule));
    e := Step(t);
    assert (schedule + [e])[..|schedule|] == schedule;
    StepsShrinkRemaining(progs, Run(b, progs, schedule), t);
  }

  lemma {:induction false} FinishFrom(early: set<string>, b: Books, progs: seq<seq<Op>>, schedule: seq<Event>)
    returns (more: seq<Event>)
    requires EndInCommit(progs) && LocksInOrder(early, progs)
    ensures AllEnded(Run(b, progs, schedule + more))
    ensures |more| <= Remaining(progs, Run(b, progs, schedule), |progs|)
    decreases Remaining(progs, Run(b, progs, schedule), |progs|)
  {
    if AllEnded(Run(b, progs, schedule)) {
      more := [];
      assert schedule + [] == schedule;
    } else {
      var e := NextStepHelps(early, b, progs, schedule);
      var rest := FinishFrom(early, b, progs, schedule + [e]);
      more := [e] + rest;
      Shifted(schedule, e, rest);
    }
  }

  lemma Shifted(schedule: seq<Event>, e: Event, rest: seq<Event>)
    ensures schedule + ([e] + rest) == schedule + [e] + rest
  {}

  // ---- The ledger's programs lock in order ----

  /** No `post` and `debitCapped` in the run use the same reference. */
  predicate NoMixedReference(txns: seq<Txn>) {
    forall t, u | t in txns && u in txns && t.PostTxn? && u.CappedTxn? && t.post.reference.Some? ::
      t.post.reference != u.capped.reference
  }

  function PostReferences(txns: seq<Txn>): set<string> {
    set t | t in txns && t.PostTxn? && t.post.reference.Some? :: t.post.reference.value
  }

  lemma {:induction false} WriteOpsWantNothing(lines: seq<Line>)
    ensures forall op | op in WriteOps(lines) :: Wants(op) == {}
  {
    if lines != [] { WriteOpsWantNothing(lines[..|lines| - 1]); }
  }

  lemma SortedLineCodes(lines: seq<Line>)
    ensures SortedCodes(LineCodes(SortLines(lines)))
  {
    SortLinesIsFaithful(lines);
  }

  lemma PostHeadAscends(early: set<string>, p: PostInput)
    ensures Ascending(early, {}, PostHead(p)) && LocksOf(PostHead(p)) == KeyOf(p.reference)
  {
    AscendTwo(early, {}, Validate(p.lines), InsertHeader(p.reference));
  }

  lemma PostTailWantsNothing(p: PostInput, tail: seq<Op>)
    requires tail == CheckOps(p.check) + (WriteOps(SortLines(p.lines)) + [Commit(PostedEntry(p))])
    ensures forall op | op in tail :: Wants(op) == {}
  {
    WriteOpsWantNothing(SortLines(p.lines));
  }

  lemma AppendAscends(early: set<string>, x: seq<Op>, y: seq<Op>)
    requires Ascending(early, {}, x) && Ascending(early, LocksOf(x), y)
    ensures Ascending(early, {}, x + y)
  {
    assert {} + LocksOf(x) == LocksOf(x);
    AscendingConcat(early, {}, x, y);
  }

  lemma PostParts(p: PostInput, tail: seq<Op>)
    requires tail == CheckOps(p.check) + (WriteOps(SortLines(p.lines)) + [Commit(PostedEntry(p))])
    ensures PostOps(p) == PostHead(p) + LockOps(LineCodes(SortLines(p.lines))) + tail
  {}

  lemma PostAscends(early: set<string>, p: PostInput)
    requires p.reference.Some? ==> p.reference.value in early
    ensures Ascending(early, {}, PostOps(p))
  {
    var codes := LineCodes(SortLines(p.lines));
    var tail := CheckOps(p.check) + (WriteOps(SortLines(p.lines)) + [Commit(PostedEntry(p))]);
    PostHeadAscends(early, p);
    SortedLineCodes(p.lines);
    LockOpsAscend(early, KeyOf(p.reference), codes);
    PostTailWantsNothing(p, tail);
    PostParts(p, tail);
    ThreePartsAscend(early, PostHead(p), LockOps(codes), tail);
  }

  lemma ThreePartsAscend(early: set<string>, x: seq<Op>, y: seq<Op>, z: seq<Op>)
    requires Ascending(early, {}, x) && Ascending(early, LocksOf(x), y)
    requires forall op | op in z :: Wants(op) == {}
    ensures Ascending(early, {}, x + y + z)
  {
    AppendAscends(early, x, y);
    WantingNothingAscends(early, LocksOf(x + y), z);
    AppendAscends(early, x + y, z);
  }

  lemma PairIsSorted(a: string, b: string)
    ensures SortedCodes(PairCodes(a, b))
  {
    if Before(b, a) && Before(a, b) { BeforeIsTransitive(a, b, a); BeforeIsIrreflexive(a); }
  }

  lemma CappedTailAscends(early: set<string>, held: set<Resource>, k: CappedInput)
    requires k.reference.Some? ==> k.reference.value !in early
    requires forall h | h in held :: !h.ReferenceKey?
    ensures Ascending(early, held, CappedTail(k))
  {
    var tail := CappedTail(k);
    assert forall h | h in KeyOf(k.reference) :: LateKey(early, h);
    AscendTwo(early, held, tail[0], tail[1]);
    FirstTwo(tail);
    WantingNothingAscends(early, held + LocksOf([tail[0], tail[1]]), tail[2..]);
    AscendingConcat(early, held, [tail[0], tail[1]], tail[2..]);
  }

  lemma FirstTwo(ops: seq<Op>)
    requires |ops| >= 2
    ensures ops == [ops[0], ops[1]] + ops[2..]
  {}

  lemma CappedAscends(early: set<string>, k: CappedInput)
    requires k.reference.Some? ==> k.reference.value !in early
    ensures Ascending(early, {}, CappedOps(k))
  {
    var codes := PairCodes(TenantCode(k.tenant), k.target);
    PairIsSorted(TenantCode(k.tenant), k.target);
    LockOpsAscend(early, {}, codes);
    LockOpsLocks(codes, {});
    RowsOfCodes(codes);
    CappedTailAscends(early, LocksOf(LockOps(codes)), k);
    AppendAscends(early, LockOps(codes), CappedTail(k));
  }

  lemma ProgramAscends(early: set<string>, t: Txn)
    requires t.PostTxn? && t.post.reference.Some? ==> t.post.reference.value in early
    requires t.CappedTxn? && t.capped.reference.Some? ==> t.capped.reference.value !in early
    ensures Ascending(early, {}, Program(t))
  {
    match t
    case PostTxn(p) => PostAscends(early, p);
    case CappedTxn(k) => CappedAscends(early, k);
  }

  lemma ProgramsLockInOrder(txns: seq<Txn>)
    requires NoMixedReference(txns)
    ensures LocksInOrder(PostReferences(txns), Programs(txns))
  {
    forall p: seq<Op> | p in Programs(txns) ensures Ascending(PostReferences(txns), {}, p) {
      var i :| 0 <= i < |txns| && p == Program(txns[i]);
      assert txns[i] in txns;
      ProgramAscends(PostReferences(txns), txns[i]);
    }
  }

  lemma ProgramsEndInCommit(txns: seq<Txn>)
    ensures EndInCommit(Programs(txns))
  {
    forall p: seq<Op> | p in Programs(txns) ensures p != [] && p[|p| - 1].Commit? {
      var i :| 0 <= i < |txns| && p == Program(txns[i]);
    }
  }

  /** No reachable state has calls waiting for each other's locks in a circle. */
  lemma NoWaitCycle(b: Books, txns: seq<Txn>, schedule: seq<Event>, ring: seq<nat>)
    requires NoMixedReference(txns)
    ensures !WaitCycle(Programs(txns), Run(b, Programs(txns), schedule), ring)
  {
    ProgramsEndInCommit(txns);
    ProgramsLockInOrder(txns);
    RunIsApart(b, Programs(txns), schedule);
    LocksInOrderFormNoCycle(PostReferences(txns), Programs(txns), Run(b, Programs(txns), schedule), ring);
  }

  /** From every reachable state some schedule ends all calls, in at most Remaining statements. */
  lemma CanAlwaysFinish(b: Books, txns: seq<Txn>, schedule: seq<Event>) returns (more: seq<Event>)
    requires NoMixedReference(txns)
    ensures AllEnded(Run(b, Programs(txns), schedule + more))
    ensures |more| <= Remaining(Programs(txns), Run(b, Programs(txns), schedule), |txns|)
  {
    ProgramsEndInCommit(txns);
    ProgramsLockInOrder(txns);
    more := FinishFrom(PostReferences(txns), b, Programs(txns), schedule);
  }

  /** While a call is unfinished, some unfinished call can send its next statement. */
  lemma NeverStuck(b: Books, txns: seq<Txn>, schedule: seq<Event>)
    requires NoMixedReference(txns)
    ensures var s := Run(b, Programs(txns), schedule);
      AllEnded(s) || exists t :: Enabled(Programs(txns), s, t)
  {
    ProgramsEndInCommit(txns);
    ProgramsLockInOrder(txns);
    RunIsApart(b, Programs(txns), schedule);
    var s := Run(b, Programs(txns), schedule);
    if !AllEnded(s) { var t := SomeoneCanStep(PostReferences(txns), Programs(txns), s); }
  }
}
