/**
 `post` inserts its journal header before it locks accounts, `debitCapped` after.  When two
 concurrent calls, one of each, carry the same reference, they can deadlock.  LocksInReverse
 says from the inputs alone when.
 */
module LedgerHazard {
  import opened Basics
  import opened LedgerBooks
  import opened LedgerInvariants
  import opened LedgerSteps
  import opened LedgerLocking
  import opened LedgerConcurrency
  import opened LedgerDeadlock
  import opened LedgerSchedules

  /** Calls are left, and none of them can send a statement. */
  ghost predicate Stuck(progs: seq<seq<Op>>, s: System) {
    !AllEnded(s) && forall t: nat | t < |progs| :: !Enabled(progs, s, t)
  }

  function Pair(k: CappedInput): seq<string> { PairCodes(TenantCode(k.tenant), k.target) }

  function Codes0(p: PostInput): seq<string> { LineCodes(SortLines(p.lines)) }

  /** `j` is where the post first meets an account of the capped debit, with all earlier accounts present. */
  predicate FirstShared(b: Books, codes: seq<string>, pair: seq<string>, j: nat) {
    && j < |codes| && codes[j] in pair
    && (forall i | 0 <= i < j :: codes[i] !in pair)
    && FirstMissing(b, codes[..j]).None?
  }

  /** The capped debit gets as far as inserting its header. */
  predicate ReachesHeader(b: Books, k: CappedInput) {
    && (IsTenant(k.target) || k.target in b.accounts)
    && 0 != BalanceOf(b, TenantCode(k.tenant)) <= MAX_SAFE_INTEGER
  }

  predicate LocksInReverse(b: Books, p: PostInput, k: CappedInput) {
    && Invalid(p.lines).None?
    && p.reference.Some? && p.reference == k.reference && !Taken(b, p.reference)
    && ReachesHeader(b, k)
    && (exists j: nat | j < |Codes0(p)| :: FirstShared(b, Codes0(p), Pair(k), j))
  }

  // ---- The statements that lock, in either program ----

  ghost predicate LocksTo(ops: seq<Op>, reference: Option<string>, codes: seq<string>, j: nat) {
    2 + 2 * j <= |ops| && j <= |codes| && LocksOf(ops[..2 + 2 * j]) == KeyOf(reference) + Rows(codes[..j])
  }

  ghost predicate GoesTo(b: Books, ops: seq<Op>, codes: seq<string>, starts: bool, j: nat) {
    && 2 + 2 * j <= |ops| && j <= |codes|
    && (Drive(b, EMPTY_DRAFT, ops[..2 + 2 * j]).Going? <==> starts && FirstMissing(b, codes[..j]).None?)
  }

  /** A header, then the accounts one by one, then nothing that locks. */
  ghost predicate PostLike(ops: seq<Op>, reference: Option<string>, codes: seq<string>) {
    && |ops| > 2 + 2 * |codes|
    && Wants(ops[0]) == {} && ops[1] == InsertHeader(reference)
    && (forall j | 0 <= j < |codes| ::
      ops[2 + 2 * j] == LockAccount(codes[j]) && ops[2 + 2 * j + 1] == LockBalance(codes[j]))
    && (forall n | 2 + 2 * |codes| <= n < |ops| :: Wants(ops[n]) == {})
    && (forall j | 0 <= j <= |codes| :: LocksTo(ops, reference, codes, j))
  }

  /** When a post, running alone, gets past its j-th account. */
  ghost predicate PostGoes(b: Books, ops: seq<Op>, codes: seq<string>, starts: bool) {
    && |ops| > 2 + 2 * |codes|
    && (forall j | 0 <= j <= |codes| :: GoesTo(b, ops, codes, starts, j))
  }

  ghost predicate CappedLike(ops: seq<Op>, reference: Option<string>, pair: seq<string>) {
    && |ops| == 11
    && ops[5] == InsertHeader(reference)
    && (forall m | 5 < m < 11 :: Wants(ops[m]) == {})
    && LocksOf(ops[..5]) == Rows(pair)
  }

  lemma {:induction false} LockOpsPrefix(codes: seq<string>, j: nat)
    requires j <= |codes|
    ensures LockOps(codes)[..2 * j] == LockOps(codes[..j])
    ensures j < |codes| ==>
      LockOps(codes)[2 * j] == LockAccount(codes[j]) && LockOps(codes)[2 * j + 1] == LockBalance(codes[j])
  {
    if j == |codes| {
      assert codes[..j] == codes;
    } else {
      var rest := codes[..|codes| - 1];
      assert LockOps(codes)[..|codes| * 2 - 2] == LockOps(rest);
      assert rest[..j] == codes[..j];
      if j < |rest| { LockOpsPrefix(rest, j); } else { assert rest[..j] == rest; }
    }
  }

  lemma PrefixOfParts(x: seq<Op>, y: seq<Op>, z: seq<Op>, n: nat)
    requires n <= |y|
    ensures (x + y + z)[..|x| + n] == x + y[..n]
    ensures forall i | 0 <= i < |y| :: (x + y + z)[|x| + i] == y[i]
  {}

  lemma LockingPrefix(head: seq<Op>, codes: seq<string>, tail: seq<Op>, ops: seq<Op>, j: nat)
    requires ops == head + LockOps(codes) + tail && j <= |codes|
    ensures ops[..|head| + 2 * j] == head + LockOps(codes[..j])
    ensures j < |codes| ==>
      (ops[|head| + 2 * j] == LockAccount(codes[j]) && ops[|head| + 2 * j + 1] == LockBalance(codes[j]))
  {
    LockOpsPrefix(codes, j);
    PrefixOfParts(head, LockOps(codes), tail, 2 * j);
  }

  function PostTail(p: PostInput): seq<Op> {
    CheckOps(p.check) + (WriteOps(SortLines(p.lines)) + [Commit(PostedEntry(p))])
  }

  lemma HeadAlone(b: Books, head: seq<Op>, codes: seq<string>, reference: Option<string>, starts: bool)
    requires Drive(b, EMPTY_DRAFT, head) == (if starts then Going(EMPTY_DRAFT) else Drive(b, EMPTY_DRAFT, head))
    requires Drive(b, EMPTY_DRAFT, head).Going? <==> starts
    requires LocksOf(head) == KeyOf(reference)
    ensures Drive(b, EMPTY_DRAFT, head + LockOps(codes)).Going? <==> starts && FirstMissing(b, codes).None?
    ensures LocksOf(head + LockOps(codes)) == KeyOf(reference) + Rows(codes)
  {
    DriveConcat(b, EMPTY_DRAFT, head, LockOps(codes));
    LockPhase(b, codes);
    LocksConcat(head, LockOps(codes));
    LockOpsLocks(codes, {});
  }

  lemma TailWantsNothing(head: seq<Op>, codes: seq<string>, tail: seq<Op>, ops: seq<Op>, n: nat)
    requires ops == head + LockOps(codes) + tail && |head| + 2 * |codes| <= n < |ops|
    requires forall op | op in tail :: Wants(op) == {}
    ensures Wants(ops[n]) == {}
  {
    assert ops[n] in tail;
  }

  lemma HeadPositions(head: seq<Op>, codes: seq<string>, tail: seq<Op>, ops: seq<Op>)
    requires ops == head + LockOps(codes) + tail && |head| == 2 && tail != []
    ensures |ops| > 2 + 2 * |codes| && ops[0] == head[0] && ops[1] == head[1]
  {}

  lemma PrefixesAlone(b: Books, head: seq<Op>, codes: seq<string>, tail: seq<Op>, ops: seq<Op>,
                      reference: Option<string>, starts: bool, j: nat)
    requires ops == head + LockOps(codes) + tail && |head| == 2 && j <= |codes|
    requires Drive(b, EMPTY_DRAFT, head) == (if starts then Going(EMPTY_DRAFT) else Drive(b, EMPTY_DRAFT, head))
    requires Drive(b, EMPTY_DRAFT, head).Going? <==> starts
    requires LocksOf(head) == KeyOf(reference)
    ensures LocksTo(ops, reference, codes, j) && GoesTo(b, ops, codes, starts, j)
  {
    LockingPrefix(head, codes, tail, ops, j);
    HeadAlone(b, head, codes[..j], reference, starts);
  }

  /** A program with a two-statement head that only inserts the journal header is PostLike. */
  lemma PartsArePostLike(b: Books, head: seq<Op>, codes: seq<string>, tail: seq<Op>, ops: seq<Op>,
                         reference: Option<string>, starts: bool)
    requires ops == head + LockOps(codes) + tail && tail != []
    requires |head| == 2 && Wants(head[0]) == {} && head[1] == InsertHeader(reference)
    requires Drive(b, EMPTY_DRAFT, head) == (if starts then Going(EMPTY_DRAFT) else Drive(b, EMPTY_DRAFT, head))
    requires Drive(b, EMPTY_DRAFT, head).Going? <==> starts
    requires LocksOf(head) == KeyOf(reference)
    requires forall op | op in tail :: Wants(op) == {}
    ensures PostLike(ops, reference, codes)
  {
    HeadPositions(head, codes, tail, ops);
    forall j | 0 <= j < |codes|
      ensures ops[2 + 2 * j] == LockAccount(codes[j]) && ops[2 + 2 * j + 1] == LockBalance(codes[j])
    {
      LockingPrefix(head, codes, tail, ops, j);
    }
    forall n | 2 + 2 * |codes| <= n < |ops| ensures Wants(ops[n]) == {} { TailWantsNothing(head, codes, tail, ops, n); }
    forall j | 0 <= j <= |codes| ensures LocksTo(ops, reference, codes, j) {
      PrefixesAlone(b, head, codes, tail, ops, reference, starts, j);
    }
  }

  lemma PartsGo(b: Books, head: seq<Op>, codes: seq<string>, tail: seq<Op>, ops: seq<Op>,
                reference: Option<string>, starts: bool)
    requires ops == head + LockOps(codes) + tail && tail != [] && |head| == 2
    requires Drive(b, EMPTY_DRAFT, head) == (if starts then Going(EMPTY_DRAFT) else Drive(b, EMPTY_DRAFT, head))
    requires Drive(b, EMPTY_DRAFT, head).Going? <==> starts
    requires LocksOf(head) == KeyOf(reference)
    ensures PostGoes(b, ops, codes, starts)
  {
    HeadPositions(head, codes, tail, ops);
    forall j | 0 <= j <= |codes| ensures GoesTo(b, ops, codes, starts, j) {
      PrefixesAlone(b, head, codes, tail, ops, reference, starts, j);
    }
  }

  lemma PostIsPostLike(b: Books, p: PostInput)
    ensures PostLike(PostOps(p), p.reference, Codes0(p))
    ensures PostGoes(b, PostOps(p), Codes0(p), Invalid(p.lines).None? && !Taken(b, p.reference))
  {
    var tail := PostTail(p);
    PostParts(p, tail);
    PostHeadAlone(b, p);
    PostHeadAscends({}, p);
    PostTailWantsNothing(p, tail);
    PartsArePostLike(b, PostHead(p), Codes0(p), tail, PostOps(p), p.reference, Invalid(p.lines).None?
      && !Taken(b, p.reference));
    PartsGo(b, PostHead(p), Codes0(p), tail, PostOps(p), p.reference, Invalid(p.lines).None? && !Taken(b, p.reference));
  }

  lemma JoinedAt(x: seq<Op>, y: seq<Op>, i: nat)
    requires i < |y|
    ensures (x + y)[|x| + i] == y[i] && (x + y)[..|x| + i] == x + y[..i]
  {}

  lemma CappedTailShape(k: CappedInput)
    ensures |CappedTail(k)| == 7 && CappedTail(k)[1] == InsertHeader(k.reference)
    ensures CappedTail(k)[..0] == [] && CappedTail(k)[..1] == [CapBalance(TenantCode(k.tenant), k.max)]
    ensures forall i | 0 <= i < 7 && i != 1 :: Wants(CappedTail(k)[i]) == {}
  {}

  lemma CappedPrefix(k: CappedInput)
    ensures |CappedOps(k)| == 11
    ensures CappedOps(k)[..5] == LockOps(Pair(k)) + [CapBalance(TenantCode(k.tenant), k.max)]
    ensures CappedOps(k)[5] == InsertHeader(k.reference)
    ensures forall i | 6 <= i < 11 :: Wants(CappedOps(k)[i]) == {}
  {
    var locks, tail := LockOps(Pair(k)), CappedTail(k);
    CappedTailShape(k);
    JoinedAt(locks, tail, 1);
    forall i | 6 <= i < 11 ensures Wants(CappedOps(k)[i]) == {} { JoinedAt(locks, tail, i - 4); }
  }

  lemma CappedPrefixGoes(b: Books, k: CappedInput)
    ensures Drive(b, EMPTY_DRAFT, CappedOps(k)[..5]).Going? <==> ReachesHeader(b, k)
    ensures LocksOf(CappedOps(k)[..5]) == Rows(Pair(k))
  {
    var cap := CapBalance(TenantCode(k.tenant), k.max);
    CappedPrefix(k);
    DriveConcat(b, EMPTY_DRAFT, LockOps(Pair(k)), [cap]);
    LockPhase(b, Pair(k));
    MissingOfPair(b, TenantCode(k.tenant), k.target, Pair(k));
    DriveOne(b, Opened(b, Pair(k)), cap);
    ReadOpened(b, Pair(k), TenantCode(k.tenant));
    LocksConcat(LockOps(Pair(k)), [cap]);
    LockOpsLocks(Pair(k), {});
    OneOp({BalanceRow(TenantCode(k.tenant))}, cap);
  }

  lemma CappedIsCappedLike(k: CappedInput)
    ensures CappedLike(CappedOps(k), k.reference, Pair(k))
  {
    CappedPrefix(k);
    CappedPrefixGoes(SEEDED, k);
  }

  // ---- The hazard is real ----

  lemma MutualWaitIsStuck(progs: seq<seq<Op>>, s: System)
    requires |progs| == |s.calls| == 2 && WaitsFor(progs, s, 0, 1) && WaitsFor(progs, s, 1, 0)
    ensures Stuck(progs, s)
  {
    assert s.calls[0].Active?;
  }

  /** Two calls whose statements n and m want what the other has locked by then. */
  ghost predicate Crossed(b: Books, x: seq<Op>, y: seq<Op>, i: nat, n: nat, m: nat) {
    && i <= n < |x| && m < |y|
    && Drive(b, EMPTY_DRAFT, x[..n]).Going? && Drive(b, EMPTY_DRAFT, y[..m]).Going?
    && LocksOf(x[..i]) !! LocksOf(y[..m]) && LocksOf(x[..n]) !! LocksOf(y[..m])
    && !(Wants(x[n]) !! LocksOf(y[..m])) && !(Wants(y[m]) !! LocksOf(x[..n]))
  }

  lemma CrossedStateIsStuck(b: Books, x: seq<Op>, y: seq<Op>, i: nat, n: nat, m: nat, s: System)
    requires Crossed(b, x, y, i, n, m)
    requires |s.calls| == 2 && s.calls[0].Active? && s.calls[0].pc == n && s.calls[1].Active? && s.calls[1].pc == m
    ensures Stuck([x, y], s)
  {
    assert Held([x, y], s, 0) == LocksOf(x[..n]) && Held([x, y], s, 1) == LocksOf(y[..m]);
    MutualWaitIsStuck([x, y], s);
  }

  /** Crossed calls can be driven into a deadlock: x to i, y to m, then x to n. */
  lemma CrossedCallsDeadlock(b: Books, x: seq<Op>, y: seq<Op>, i: nat, n: nat, m: nat) returns (schedule: seq<Event>)
    requires Crossed(b, x, y, i, n, m)
    ensures Stuck([x, y], Run(b, [x, y], schedule))
  {
    var progs := [x, y];
    assert x[..n][..i] == x[..i];
    GoingPrefix(b, x[..n], i);
    schedule := ClimbBoth(b, x, y, i, m);
    var s2 := Run(b, progs, schedule);
    assert Held(progs, s2, 1) == LocksOf(y[..m]);
    PrefixAlone(b, progs, s2, 0);
    schedule := Climb(b, progs, schedule, s2, 0, n);
    CrossedStateIsStuck(b, x, y, i, n, m, Run(b, progs, schedule));
  }

  lemma ReversedLocksDisjoint(x: seq<Op>, reference: Option<string>, codes: seq<string>, pair: seq<string>, i: nat,
                              j: nat)
    requires PostLike(x, reference, codes) && j <= |codes| && i == 2 + 2 * j
    requires forall c | c in codes[..j] :: c !in pair
    ensures LocksOf(x[..i]) !! Rows(pair)
    ensures reference.Some? ==> ReferenceKey(reference.value) in LocksOf(x[..i])
  {
    assert LocksTo(x, reference, codes, j);
    RowsOfCodes(codes[..j]);
    RowsOfCodes(pair);
  }

  lemma ReversedOpsDeadlock(b: Books, x: seq<Op>, y: seq<Op>, reference: Option<string>,
                            codes: seq<string>, pair: seq<string>, j: nat) returns (schedule: seq<Event>)
    requires PostLike(x, reference, codes) && PostGoes(b, x, codes, true)
    requires CappedLike(y, reference, pair) && Drive(b, EMPTY_DRAFT, y[..5]).Going?
    requires reference.Some? && FirstShared(b, codes, pair, j)
    ensures Stuck([x, y], Run(b, [x, y], schedule))
  {
    var n := 2 + 2 * j;
    ReversedLocksDisjoint(x, reference, codes, pair, 2, 0);
    ReversedLocksDisjoint(x, reference, codes, pair, n, j);
    assert GoesTo(b, x, codes, true, j);
    assert x[n] == LockAccount(codes[j]) by { assert x[2 + 2 * j] == LockAccount(codes[j]); }
    RowsOfCodes(pair);
    assert AccountRow(codes[j]) in Wants(x[n]) && AccountRow(codes[j]) in LocksOf(y[..5]);
    assert ReferenceKey(reference.value) in Wants(y[5]);
    assert Crossed(b, x, y, 2, n, 5);
    schedule := CrossedCallsDeadlock(b, x, y, 2, n, 5);
  }

  // ---- Nothing else deadlocks two calls ----

  lemma StuckMeansBothWait(progs: seq<seq<Op>>, s: System)
    requires |progs| == 2 && Apart(progs, s) && Stuck(progs, s)
    ensures WaitsFor(progs, s, 0, 1) && WaitsFor(progs, s, 1, 0)
    ensures s.calls[0].Active? && s.calls[1].Active?
  {
    var t: nat :| t < |s.calls| && s.calls[t].Active?;
    assert HasNext(progs, s, t);
    assert !Enabled(progs, s, t);
    var u: nat :| 0 <= u < |progs| && WaitsFor(progs, s, t, u);
    assert IsActive(s, u);
    assert HasNext(progs, s, u);
    assert !Enabled(progs, s, u);
  }

  /** While every call is active nothing has been committed. */
  lemma NothingFinishedYet(b: Books, progs: seq<seq<Op>>, s: System)
    requires Apart(progs, s) && QuietUntilLogged(b, progs, s) && forall t | 0 <= t < |progs| :: s.calls[t].Active?
    ensures s.books == b && Isolated(progs, s)
  {}

  /** Two calls that wait for each other's rows would break the locking order. */
  lemma RowsAloneDoNotDeadlock(early: set<string>, x: seq<Op>, y: seq<Op>, s: System)
    requires Apart([x, y], s)
    requires s.calls[1].Active? ==> s.calls[1].pc < |y| && Ascending(early, {}, y[..s.calls[1].pc + 1])
    requires Ascending(early, {}, x)
    ensures !WaitsFor([x, y], s, 0, 1) || !WaitsFor([x, y], s, 1, 0)
  {
    var progs := [x, y];
    if WaitsFor(progs, s, 0, 1) && WaitsFor(progs, s, 1, 0) {
      var m := s.calls[1].pc;
      var cut := [x, y[..m + 1]];
      assert y[..m + 1][..m] == y[..m];
      assert Held(cut, s, 0) == Held(progs, s, 0) && Held(cut, s, 1) == Held(progs, s, 1);
      forall t | 0 <= t < 2 && IsActive(s, t) ensures HasNext(cut, s, t) { assert HasNext(progs, s, t); }
      assert WaitsFor(cut, s, 0, 1) && WaitsFor(cut, s, 1, 0);
      assert WaitCycle(cut, s, [0, 1]);
      LocksInOrderFormNoCycle(early, cut, s, [0, 1]);
    }
  }

  lemma CappedRowsAscend(early: set<string>, k: CappedInput, m: nat)
    requires m <= 5
    ensures Ascending(early, {}, CappedOps(k)[..m])
  {
    var y := CappedOps(k);
    var cap := CapBalance(TenantCode(k.tenant), k.max);
    CappedPrefix(k);
    PairIsSorted(TenantCode(k.tenant), k.target);
    LockOpsAscend(early, {}, Pair(k));
    WantingNothingAscends(early, LocksOf(LockOps(Pair(k))), [cap]);
    AppendAscends(early, LockOps(Pair(k)), [cap]);
    AscendingPrefix(early, {}, y[..5], m);
    assert y[..5][..m] == y[..m];
  }

  lemma LocksOfPrefix(ops: seq<Op>, n: nat)
    requires n <= |ops|
    ensures LocksOf(ops[..n]) <= LocksOf(ops)
  {
    assert ops == ops[..n] + ops[n..];
    LocksConcat(ops[..n], ops[n..]);
  }

  /** A waiting post is at its header or at one of its accounts. */
  lemma WaitingPost(ops: seq<Op>, reference: Option<string>, codes: seq<string>, n: nat) returns (j: nat)
    requires PostLike(ops, reference, codes) && n < |ops| && Wants(ops[n]) != {} && n != 1
    ensures j < |codes| && 2 + 2 * j <= n <= 2 + 2 * j + 1
    ensures forall w | w in Wants(ops[n]) :: !w.ReferenceKey? && w.code == codes[j]
  {
    assert 2 <= n < 2 + 2 * |codes|;
    j := (n - 2) / 2;
    assert ops[2 + 2 * j] == LockAccount(codes[j]) && ops[2 + 2 * j + 1] == LockBalance(codes[j]);
    assert n == 2 + 2 * j || n == 2 + 2 * j + 1;
    assert Wants(ops[n]) == {AccountRow(codes[j])} || Wants(ops[n]) == {BalanceRow(codes[j])};
  }

  lemma PrefixIsPrefix(x: seq<Op>, i: nat, n: nat)
    requires i <= n <= |x|
    ensures x[..n][..i] == x[..i]
  {}

  lemma StuckPostGoes(b: Books, x: seq<Op>, codes: seq<string>, starts: bool, n: nat, i: nat, j: nat)
    requires PostGoes(b, x, codes, starts) && j <= |codes| && i == 2 + 2 * j <= n <= |x|
    requires Drive(b, EMPTY_DRAFT, x[..n]).Going?
    ensures starts && FirstMissing(b, codes[..j]).None?
  {
    PrefixIsPrefix(x, i, n);
    GoingPrefix(b, x[..n], i);
    assert GoesTo(b, x, codes, starts, j);
  }

  lemma PostHolds(x: seq<Op>, reference: Option<string>, codes: seq<string>, i: nat, j: nat)
    requires PostLike(x, reference, codes) && j <= |codes| && i == 2 + 2 * j
    ensures i <= |x|
    ensures forall key | key in LocksOf(x[..i]) && key.ReferenceKey? :: reference == Some(key.reference)
    ensures forall c | c in codes[..j] :: AccountRow(c) in LocksOf(x[..i])
  {
    assert LocksTo(x, reference, codes, j);
    RowsOfCodes(codes[..j]);
  }

  lemma StuckPostHolds(x: seq<Op>, reference: Option<string>, codes: seq<string>, n: nat, j: nat)
    requires PostLike(x, reference, codes)
    requires j < |codes| && 2 + 2 * j <= n <= 2 + 2 * j + 1
    ensures n <= |x|
    ensures forall key | key in LocksOf(x[..n]) && key.ReferenceKey? :: reference == Some(key.reference)
    ensures forall c | c in codes[..j] :: AccountRow(c) in LocksOf(x[..n])
  {
    var lo, hi := 2 + 2 * j, 2 + 2 * (j + 1);
    PostHolds(x, reference, codes, lo, j);
    PostHolds(x, reference, codes, hi, j + 1);
    PrefixIsPrefix(x, lo, n);
    LocksOfPrefix(x[..n], lo);
    PrefixIsPrefix(x, n, hi);
    LocksOfPrefix(x[..hi], n);
  }

  lemma StuckOpsAreReversed(b: Books, x: seq<Op>, y: seq<Op>, reference: Option<string>, reference': Option<string>,
                            codes: seq<string>, pair: seq<string>, starts: bool, s: System) returns (j: nat)
    requires PostLike(x, reference, codes) && PostGoes(b, x, codes, starts) && CappedLike(y, reference', pair)
    requires Isolated([x, y], s) && s.books == b && WaitsFor([x, y], s, 0, 1) && WaitsFor([x, y], s, 1, 0)
    requires s.calls[1].pc == 5
    ensures starts && reference.Some? && reference == reference'
    ensures Drive(b, EMPTY_DRAFT, y[..5]).Going? && FirstShared(b, codes, pair, j)
  {
    var progs := [x, y];
    var n := s.calls[0].pc;
    assert RunsAlone(progs, s, 0) && RunsAlone(progs, s, 1);
    assert Held(progs, s, 0) == LocksOf(x[..n]) && Held(progs, s, 1) == Rows(pair);
    RowsOfCodes(pair);
    var key: Resource :| key in Wants(y[5]) && key in Held(progs, s, 0);
    var w: Resource :| w in Wants(x[n]) && w in Held(progs, s, 1);
    assert n != 1;
    j := WaitingPost(x, reference, codes, n);
    StuckPostHolds(x, reference, codes, n, j);
    StuckPostGoes(b, x, codes, starts, n, 2 + 2 * j, j);
    forall i | 0 <= i < j ensures codes[i] !in pair {
      assert codes[i] in codes[..j];
      assert AccountRow(codes[i]) in Held(progs, s, 0);
    }
  }

  /** A stuck capped debit is at its header. */
  lemma StuckCappedIsAtHeader(p: PostInput, k: CappedInput, s: System, y: seq<Op>)
    requires y == CappedOps(k) && Isolated([PostOps(p), y], s)
    requires WaitsFor([PostOps(p), y], s, 0, 1) && WaitsFor([PostOps(p), y], s, 1, 0)
    ensures s.calls[1].pc == 5
  {
    var m := s.calls[1].pc;
    var early := if p.reference.Some? then {p.reference.value} else {};
    CappedIsCappedLike(k);
    PostAscends(early, p);
    if m < 5 {
      CappedRowsAscend(early, k, m + 1);
      RowsAloneDoNotDeadlock(early, PostOps(p), y, s);
    }
  }

  // ---- The condition ----

  lemma ReverseLocksDeadlock(b: Books, p: PostInput, k: CappedInput, x: seq<Op>, y: seq<Op>)
    returns (schedule: seq<Event>)
    requires x == PostOps(p) && y == CappedOps(k) && LocksInReverse(b, p, k)
    ensures Stuck([x, y], Run(b, [x, y], schedule))
  {
    var j: nat :| j < |Codes0(p)| && FirstShared(b, Codes0(p), Pair(k), j);
    PostIsPostLike(b, p);
    CappedIsCappedLike(k);
    CappedPrefixGoes(b, k);
    schedule := ReversedOpsDeadlock(b, x, y, p.reference, Codes0(p), Pair(k), j);
  }

  lemma StuckCallsAreReversed(b: Books, p: PostInput, k: CappedInput, x: seq<Op>, y: seq<Op>, s: System)
    requires x == PostOps(p) && y == CappedOps(k)
    requires Isolated([x, y], s) && s.books == b && WaitsFor([x, y], s, 0, 1) && WaitsFor([x, y], s, 1, 0)
    ensures LocksInReverse(b, p, k)
  {
    PostIsPostLike(b, p);
    CappedIsCappedLike(k);
    CappedPrefixGoes(b, k);
    StuckCappedIsAtHeader(p, k, s, y);
    var j := StuckOpsAreReversed(b, x, y, p.reference, k.reference, Codes0(p), Pair(k),
                                 Invalid(p.lines).None? && !Taken(b, p.reference), s);
  }

  lemma StuckStateWaits(b: Books, progs: seq<seq<Op>>, s: System)
    requires |progs| == 2 && Apart(progs, s) && QuietUntilLogged(b, progs, s) && Stuck(progs, s)
    ensures s.books == b && Isolated(progs, s) && WaitsFor(progs, s, 0, 1) && WaitsFor(progs, s, 1, 0)
  {
    StuckMeansBothWait(progs, s);
    forall t | 0 <= t < |progs| ensures s.calls[t].Active? { assert t == 0 || t == 1; }
    NothingFinishedYet(b, progs, s);
  }

  lemma StuckRunIsReversed(b: Books, p: PostInput, k: CappedInput, progs: seq<seq<Op>>, s: System)
    requires progs == [PostOps(p), CappedOps(k)] && Apart(progs, s) && QuietUntilLogged(b, progs, s) && Stuck(progs, s)
    ensures LocksInReverse(b, p, k)
  {
    StuckStateWaits(b, progs, s);
    StuckCallsAreReversed(b, p, k, progs[0], progs[1], s);
  }

  lemma ProgramsOfTwo(p: PostInput, k: CappedInput)
    ensures Programs([PostTxn(p), CappedTxn(k)]) == [PostOps(p), CappedOps(k)]
  {}

  /** Some schedule deadlocks the calls. */
  ghost predicate CanDeadlock(b: Books, progs: seq<seq<Op>>) {
    exists schedule :: Stuck(progs, Run(b, progs, schedule))
  }

  lemma ReversedRunSticks(b: Books, p: PostInput, k: CappedInput, progs: seq<seq<Op>>)
    requires progs == [PostOps(p), CappedOps(k)] && LocksInReverse(b, p, k)
    ensures CanDeadlock(b, progs)
  {
    var schedule := ReverseLocksDeadlock(b, p, k, progs[0], progs[1]);
    assert Stuck(progs, Run(b, progs, schedule));
  }

  lemma DeadlockIsReversed(b: Books, p: PostInput, k: CappedInput, progs: seq<seq<Op>>)
    requires progs == [PostOps(p), CappedOps(k)] && EndInCommit(progs) && CanDeadlock(b, progs)
    ensures LocksInReverse(b, p, k)
  {
    var schedule :| Stuck(progs, Run(b, progs, schedule));
    RunIsQuiet(b, progs, schedule);
    StuckRunIsReversed(b, p, k, progs, Run(b, progs, schedule));
  }

  /** Exactly when a concurrent post and debitCapped can deadlock. */
  lemma DeadlockIffLocksInReverse(b: Books, p: PostInput, k: CappedInput, progs: seq<seq<Op>>)
    requires progs == Programs([PostTxn(p), CappedTxn(k)])
    ensures CanDeadlock(b, progs) <==> LocksInReverse(b, p, k)
  {
    ProgramsOfTwo(p, k);
    ProgramsEndInCommit([PostTxn(p), CappedTxn(k)]);
    if LocksInReverse(b, p, k) { ReversedRunSticks(b, p, k, progs); }
    if CanDeadlock(b, progs) { DeadlockIsReversed(b, p, k, progs); }
  }

  // ---- The condition is met on books the ledger gets to ----

  lemma {:induction false} SomeFirstShared(b: Books, codes: seq<string>, pair: seq<string>, i: nat) returns (j: nat)
    requires i < |codes| && codes[i] in pair && forall c | c in codes :: IsTenant(c) || c in b.accounts
    ensures FirstShared(b, codes, pair, j)
  {
    if x :| 0 <= x < i && codes[x] in pair {
      j := SomeFirstShared(b, codes, pair, x);
    } else {
      j := i;
      NothingMissing(b, codes[..i]);
    }
  }

  /** With all accounts known, sharing a fresh reference and an account is enough. */
  lemma SharingSuffices(b: Books, p: PostInput, k: CappedInput, line: Line)
    requires Invalid(p.lines).None? && p.reference.Some? && p.reference == k.reference && !Taken(b, p.reference)
    requires ReachesHeader(b, k) && forall c | c in Codes(p.lines) :: IsTenant(c) || c in b.accounts
    requires line in p.lines && line.code in Pair(k)
    ensures LocksInReverse(b, p, k)
  {
    SortLinesIsFaithful(p.lines);
    CodesOfLineCodes(SortLines(p.lines));
    var i :| 0 <= i < |SortLines(p.lines)| && SortLines(p.lines)[i] == line;
    forall c | c in Codes0(p) ensures IsTenant(c) || c in b.accounts { assert c in Members(Codes0(p)); }
    var j := SomeFirstShared(b, Codes0(p), Pair(k), i);
  }

  lemma PurchaseMeetsExpiry(b: Books, p: PostInput, k: CappedInput, system: Line, tenant: Line)
    requires p.lines == [system, tenant] && system.side == Dr && tenant.side == Cr && system.amount == tenant.amount > 0
    requires system.code in b.accounts && tenant.code == TenantCode(k.tenant) && k.target in b.accounts
    requires p.reference.Some? && p.reference == k.reference && !Taken(b, p.reference)
    requires 0 < BalanceOf(b, TenantCode(k.tenant)) <= MAX_SAFE_INTEGER
    ensures LocksInReverse(b, p, k)
  {
    TwoLinesAreValid(p.lines);
    TwoLines(system, tenant);
    TenantCodeIsTenant(k.tenant);
    assert p.lines[1] == tenant;
    SharingSuffices(b, p, k, tenant);
  }

  /**
   On seeded books a grant makes it possible: a purchase and the grant's expiry, sent with one reference, can deadlock.
   */
  lemma DeadlockIsReachable(b: Books, tenant: string, granted: int, bought: int, stamp: Stamp, shared: Stamp)
    requires FreshlySeeded(b) && 0 < granted <= MAX_SAFE_INTEGER && bought > 0
    requires stamp.reference.None? && shared.reference.Some?
    ensures var s := Exec(b, CreditTxn(tenant, granted, SignupGrant, stamp, None)).books;
      var purchase, expiry := CreditTxn(tenant, bought, Purchase, shared, None),
        DebitCappedTxn(tenant, granted, CreditExpiry, shared);
      Consistent(s) && CanDeadlock(s, Programs([purchase, expiry]))
  {
    var grant, purchase := CreditTxn(tenant, granted, SignupGrant, stamp, None).post,
      CreditTxn(tenant, bought, Purchase, shared, None).post;
    var expiry := DebitCappedTxn(tenant, granted, CreditExpiry, shared).capped;
    assert SignupGrant.Source() in b.accounts && Purchase.Source() in b.accounts && CreditExpiry.Target() in b.accounts;
    SystemCodes(SignupGrant, CreditExpiry);
    TenantCodeIsTenant(tenant);
    TransferIsAccepted(b, grant, grant.lines[1], grant.lines[0]);
    var s := ExecPost(b, grant).books;
    PurchaseMeetsExpiry(s, purchase, expiry, purchase.lines[0], purchase.lines[1]);
    DeadlockIffLocksInReverse(s, purchase, expiry, Programs([PostTxn(purchase), CappedTxn(expiry)]));
  }
}
