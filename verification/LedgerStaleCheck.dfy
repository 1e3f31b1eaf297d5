/**
 The balance that `post` checks is protected by a lock only if the account checked is one of those the entry writes.
 This is the exact condition under which the checked answer is still true when the transaction commits.
 */
module LedgerStaleCheck {
  import opened Basics
  import opened LedgerBooks
  import opened LedgerInvariants
  import opened LedgerSteps
  import opened LedgerLocking
  import opened LedgerConcurrency
  import opened LedgerDeadlock
  import opened LedgerSchedules

  // ---- A post alone, up to its commit ----

  function BeforeCommit(p: PostInput): seq<Op> {
    PostHead(p) + LockOps(LineCodes(SortLines(p.lines))) + CheckOps(p.check) + WriteOps(SortLines(p.lines))
  }

  lemma PostEndsWithCommit(p: PostInput)
    ensures PostOps(p) == BeforeCommit(p) + [Commit(PostedEntry(p))]
    ensures PostOps(p)[..|BeforeCommit(p)|] == BeforeCommit(p)
    ensures PostOps(p)[|BeforeCommit(p)|] == Commit(PostedEntry(p))
  {}

  function CommittedDraft(b: Books, p: PostInput): Draft {
    Written(b, Opened(b, LineCodes(SortLines(p.lines))), SortLines(p.lines))
  }

  lemma ReachesCommit(b: Books, p: PostInput)
    requires ExecPost(b, p).outcome.Posted?
    ensures Drive(b, EMPTY_DRAFT, BeforeCommit(p)) == Going(CommittedDraft(b, p))
    ensures CommittedDraft(b, p).lines == SortLines(p.lines)
  {
    var lines := SortLines(p.lines);
    var d := Opened(b, LineCodes(lines));
    PostChecksAlone(b, p);
    DriveConcat(b, EMPTY_DRAFT, PostHead(p) + LockOps(LineCodes(lines)) + CheckOps(p.check), WriteOps(lines));
    WritePhase(b, d, lines);
    WrittenDraft(b, d, lines);
    assert d.lines + lines == lines;
  }

  lemma AppendingNothing(x: seq<Op>, y: seq<Op>)
    requires forall op | op in y :: Wants(op) == {}
    ensures LocksOf(x + y) == LocksOf(x)
  {
    WantingNothingAscends({}, {}, y);
    LocksConcat(x, y);
  }

  lemma LocksBeforeCommit(p: PostInput)
    ensures LocksOf(BeforeCommit(p)) == KeyOf(p.reference) + Rows(LineCodes(SortLines(p.lines)))
  {
    var lines := SortLines(p.lines);
    var locking := PostHead(p) + LockOps(LineCodes(lines));
    PostLockingIsCovered(p);
    AppendingNothing(locking, CheckOps(p.check));
    WriteOpsWantNothing(lines);
    AppendingNothing(locking + CheckOps(p.check), WriteOps(lines));
  }

  lemma LockedRow(p: PostInput, r: Resource)
    requires r in LocksOf(BeforeCommit(p))
    ensures if r.ReferenceKey? then p.reference == Some(r.reference) else r.code in Codes(p.lines)
  {
    var codes := LineCodes(SortLines(p.lines));
    LocksBeforeCommit(p);
    RowsOfCodes(codes);
    CodesOfLineCodes(SortLines(p.lines));
    SortLinesIsFaithful(p.lines);
    if !r.ReferenceKey? { assert r.code in Members(codes); }
  }

  lemma RowsApart(p: PostInput, q: PostInput)
    requires q.reference.None? && Codes(p.lines) !! Codes(q.lines)
    ensures LocksOf(BeforeCommit(p)) !! LocksOf(BeforeCommit(q))
  {
    forall r | r in LocksOf(BeforeCommit(p)) ensures r !in LocksOf(BeforeCommit(q)) {
      LockedRow(p, r);
      if r in LocksOf(BeforeCommit(q)) { LockedRow(q, r); }
    }
  }

  // ---- Two posts that both pass their checks, the second one first to commit ----

  lemma CommitIsNeverBlocked(progs: seq<seq<Op>>, s: System, t: nat)
    requires HasNext(progs, s, t) && NextOp(progs, s, t).Commit?
    ensures !Blocked(progs, s, t)
  {}

  lemma CommitNext(progs: seq<seq<Op>>, s: System, t: nat, header: Entry)
    requires HasNext(progs, s, t) && NextOp(progs, s, t) == Commit(header) && s.calls[t].draft.lines == header.lines
    ensures Next(progs, s, Step(t)).log == s.log + [Logged(t, Posted(header))]
    ensures Next(progs, s, Step(t)).calls == s.calls[t := Finished]
  {
    CommitIsNeverBlocked(progs, s, t);
    assert header.(lines := s.calls[t].draft.lines) == header;
  }

  lemma PostedEntryLines(p: PostInput)
    ensures PostedEntry(p).lines == SortLines(p.lines)
  {}

  /** From the state where both stand before their commits: q commits, then p. */
  lemma CommitBoth(b: Books, x: seq<Op>, y: seq<Op>, i: nat, j: nat, p: Entry, q: Entry, schedule: seq<Event>)
    returns (longer: seq<Event>)
    requires i < |x| && j < |y| && x[i] == Commit(p) && y[j] == Commit(q)
    requires Drive(b, EMPTY_DRAFT, x[..i]).Going? && Drive(b, EMPTY_DRAFT, x[..i]).draft.lines == p.lines
    requires Drive(b, EMPTY_DRAFT, y[..j]).Going? && Drive(b, EMPTY_DRAFT, y[..j]).draft.lines == q.lines
    requires Run(b, [x, y], schedule) == Standing(b, x, y, i, j)
    ensures Run(b, [x, y], longer).log == [Logged(1, Posted(q)), Logged(0, Posted(p))]
  {
    CommitNext([x, y], Standing(b, x, y, i, j), 1, q);
    OneStepLonger(b, [x, y], schedule, 1);
    var after := Run(b, [x, y], schedule + [Step(1)]);
    assert after.calls[0] == Standing(b, x, y, i, j).calls[0];
    CommitNext([x, y], after, 0, p);
    OneStepLonger(b, [x, y], schedule + [Step(1)], 0);
    longer := schedule + [Step(1)] + [Step(0)];
  }

  /** A post accepted alone gets to its commit with all its lines written. */
  ghost predicate StandsAtCommit(b: Books, x: seq<Op>, i: nat, p: PostInput) {
    && i < |x| && x[..i] == BeforeCommit(p) && x[i] == Commit(PostedEntry(p))
    && Drive(b, EMPTY_DRAFT, x[..i]).Going? && Drive(b, EMPTY_DRAFT, x[..i]).draft.lines == PostedEntry(p).lines
  }

  lemma AcceptedStandsAtCommit(b: Books, p: PostInput)
    requires ExecPost(b, p).outcome.Posted?
    ensures StandsAtCommit(b, PostOps(p), |BeforeCommit(p)|, p)
  {
    PostEndsWithCommit(p);
    ReachesCommit(b, p);
    PostedEntryLines(p);
  }

  /** Both accepted on the same books, q committed before p. */
  lemma BothAccepted(b: Books, p: PostInput, q: PostInput, x: seq<Op>, y: seq<Op>, i: nat, j: nat)
    returns (schedule: seq<Event>)
    requires StandsAtCommit(b, x, i, p) && StandsAtCommit(b, y, j, q)
    requires q.reference.None? && Codes(p.lines) !! Codes(q.lines)
    ensures Run(b, [x, y], schedule).log == [Logged(1, Posted(PostedEntry(q))), Logged(0, Posted(PostedEntry(p)))]
  {
    RowsApart(p, q);
    schedule := ClimbBoth(b, x, y, i, j);
    schedule := CommitBoth(b, x, y, i, j, PostedEntry(p), PostedEntry(q), schedule);
  }

  /** In commit order q comes first; if it makes p unacceptable the run is not explained by that order. */
  lemma NotSerial(b: Books, p: PostInput, q: PostInput, s: System)
    requires s.log == [Logged(1, Posted(PostedEntry(q))), Logged(0, Posted(PostedEntry(p)))]
    requires !ExecPost(ExecPost(b, q).books, p).outcome.Posted?
    ensures !Serial(b, [PostTxn(p), PostTxn(q)], s)
  {
    var txns := [PostTxn(p), PostTxn(q)];
    assert LogInRange(txns, s.log);
    var order := Order(txns, s.log);
    assert order[..1] == [PostTxn(q)] && [PostTxn(q)][..0] == [];
    assert ExecAll(b, [PostTxn(q)]) == Exec(ExecAll(b, []), PostTxn(q)).books;
    assert s.log[1].call == 0 && Exec(ExecAll(b, order[..1]), txns[0]).outcome != s.log[1].outcome;
  }

  // ---- For any unprotected check there is a call that makes it stale ----

  function Longest(lines: seq<Line>): nat {
    if lines == [] then 0 else
      var rest, n := Longest(lines[..|lines| - 1]), |lines[|lines| - 1].code|;
      if n > rest then n else rest
  }

  lemma {:induction false} LongestIsLongest(lines: seq<Line>, line: Line)
    requires line in lines
    ensures |line.code| <= Longest(lines)
  {
    if line in lines[..|lines| - 1] { LongestIsLongest(lines[..|lines| - 1], line); }
  }

  function Repeat(n: nat): (r: string)
    ensures |r| == n
  {
    seq(n, _ => 'x')
  }

  /** A tenant that appears in none of the lines. */
  function Stranger(lines: seq<Line>, tenant: string): string { Repeat(Longest(lines) + |tenant| + 1) }

  lemma StrangerIsStrange(lines: seq<Line>, tenant: string)
    ensures TenantCode(Stranger(lines, tenant)) !in Codes(lines) && Stranger(lines, tenant) != tenant
  {
    if line :| line in lines && line.code == TenantCode(Stranger(lines, tenant)) { LongestIsLongest(lines, line); }
  }

  /** Takes one unit from the checked tenant. */
  function Taker(p: PostInput, tenant: string): PostInput {
    PostInput("taker", 0, "transfer", tenant, None, None, None,
              [Line(TenantCode(tenant), 1, Dr), Line(TenantCode(Stranger(p.lines, tenant)), 1, Cr)], None)
  }

  // ---- Consistent books in which the checked balance is just enough ----

  /** Seeded books with the accounts that the entry names. */
  function Charted(p: PostInput): Books {
    SEEDED.(accounts := (map c | c in Codes(p.lines) && !IsTenant(c) :: Account(Asset, Dr)) + SEEDED.accounts)
  }

  /** Moves the amount from system account 1000 to the checked tenant, or the other way if it is negative. */
  function Setup(check: BalanceCheck): PostInput {
    var code, amount := TenantCode(check.tenant), check.amount;
    var lines := if amount > 0 then [Line("1000", amount, Dr), Line(code, amount, Cr)]
      else [Line(code, -amount, Dr), Line("1000", -amount, Cr)];
    PostInput("setup", 0, "transfer", check.tenant, None, None, None, lines, None)
  }

  /** Books that come about by calls, in which p's accounts exist and the checked balance is just enough. */
  function JustEnough(p: PostInput, check: BalanceCheck): Books {
    if check.amount == 0 then Charted(p) else Exec(Charted(p), PostTxn(Setup(check))).books
  }

  lemma ChartedIsConsistent(p: PostInput)
    ensures Consistent(Charted(p)) && "1000" in Charted(p).accounts
    ensures Charted(p).journal == [] && Charted(p).balances == map[]
    ensures forall c | c in Codes(p.lines) :: IsTenant(c) || c in Charted(p).accounts
  {
    SeededIsConsistent();
    forall c | c in SEEDED.accounts ensures !IsTenant(c) { assert c[0] != '2'; }
  }

  lemma SetupMovesBalance(b: Books, check: BalanceCheck)
    requires Consistent(b) && "1000" in b.accounts && check.amount != 0
    ensures ExecPost(b, Setup(check)).outcome.Posted?
    ensures BalanceOf(ExecPost(b, Setup(check)).books, TenantCode(check.tenant))
         == BalanceOf(b, TenantCode(check.tenant)) + check.amount
  {
    var p, lines, code := Setup(check), Setup(check).lines, TenantCode(check.tenant);
    TenantCodeIsTenant(check.tenant);
    assert code[0] == '2' && code != "1000";
    TwoLinesAreValid(lines);
    AcceptedIff(b, p);
    if check.amount > 0 {
      SimplePostEffect(b, p, lines[1], lines[0], code);
    } else {
      SimplePostEffect(b, p, lines[0], lines[1], code);
    }
  }

  lemma SetupKeepsBooks(b: Books, check: BalanceCheck, s: Books)
    requires Consistent(b) && "1000" in b.accounts && check.amount != 0 && s == Exec(b, PostTxn(Setup(check))).books
    ensures Consistent(s) && References(s.journal) == References(b.journal) && b.accounts.Keys <= s.accounts.Keys
    ensures BalanceOf(s, TenantCode(check.tenant)) == BalanceOf(b, TenantCode(check.tenant)) + check.amount
  {
    SetupMovesBalance(b, check);
    PostingGrowsBooks(b, Setup(check));
    ExecKeepsConsistency(b, PostTxn(Setup(check)));
  }

  /** The books are sound, know p's accounts, have used no reference, and hold just the checked amount. */
  lemma JustEnoughIsReal(p: PostInput, check: BalanceCheck)
    ensures Consistent(JustEnough(p, check))
    ensures BalanceOf(JustEnough(p, check), TenantCode(check.tenant)) == check.amount
    ensures References(JustEnough(p, check).journal) == {}
    ensures forall c | c in Codes(p.lines) :: IsTenant(c) || c in JustEnough(p, check).accounts
  {
    ChartedIsConsistent(p);
    if check.amount != 0 { SetupKeepsBooks(Charted(p), check, JustEnough(p, check)); }
  }

  lemma CheckPasses(b: Books, p: PostInput, check: BalanceCheck)
    requires p.check == Some(check) && Invalid(p.lines).None? && check.amount <= MAX_SAFE_INTEGER
    requires BalanceOf(b, TenantCode(check.tenant)) == check.amount && References(b.journal) == {}
    requires forall c | c in Codes(p.lines) :: IsTenant(c) || c in b.accounts
    ensures ExecPost(b, p).outcome.Posted?
  {
    AcceptedIff(b, p);
  }

  lemma TakerLines(p: PostInput, tenant: string)
    ensures Codes(Taker(p, tenant).lines) == {TenantCode(tenant), TenantCode(Stranger(p.lines, tenant))}
  {
    TwoLines(Taker(p, tenant).lines[0], Taker(p, tenant).lines[1]);
  }

  lemma TakerIsAccepted(b: Books, p: PostInput, tenant: string)
    ensures ExecPost(b, Taker(p, tenant)).outcome.Posted?
  {
    TakerLines(p, tenant);
    TenantCodeIsTenant(tenant);
    TenantCodeIsTenant(Stranger(p.lines, tenant));
    TwoLinesAreValid(Taker(p, tenant).lines);
    AcceptedIff(b, Taker(p, tenant));
  }

  lemma TakerTakes(b: Books, p: PostInput, tenant: string)
    requires Consistent(b)
    ensures BalanceOf(ExecPost(b, Taker(p, tenant)).books, TenantCode(tenant)) == BalanceOf(b, TenantCode(tenant)) - 1
  {
    var q := Taker(p, tenant);
    TakerIsAccepted(b, p, tenant);
    StrangerIsStrange(p.lines, tenant);
    TenantCodeIsTenant(tenant);
    assert TenantCode(Stranger(p.lines, tenant))[5..] == Stranger(p.lines, tenant) && TenantCode(tenant)[5..] == tenant;
    SimplePostEffect(b, q, q.lines[0], q.lines[1], TenantCode(tenant));
  }

  lemma PoorTenantIsRefused(b: Books, p: PostInput)
    requires p.check.Some? && BalanceOf(b, TenantCode(p.check.value.tenant)) < p.check.value.amount
    ensures !ExecPost(b, p).outcome.Posted?
  {}

  /** On consistent books, every schedule of p in any company of protected calls is explained by commit order. */
  ghost predicate AlwaysSerial(p: PostInput) {
    forall b, others, schedule | Consistent(b) && AllProtected(others) ::
      Serial(b, [PostTxn(p)] + others, Run(b, Programs([PostTxn(p)] + others), schedule))
  }

  ghost predicate AllProtected(txns: seq<Txn>) { forall t | t in txns :: ChecksOwnLines(t) }

  /**
   For an unprotected check there are sound books, one other call and a schedule that no run in commit order explains.
   */
  lemma UnprotectedCheckGoesStale(p: PostInput, check: BalanceCheck) returns (schedule: seq<Event>)
    requires p.check == Some(check) && TenantCode(check.tenant) !in Codes(p.lines)
    requires Invalid(p.lines).None? && check.amount <= MAX_SAFE_INTEGER
    ensures Consistent(JustEnough(p, check)) && ChecksOwnLines(PostTxn(Taker(p, check.tenant)))
    ensures var b, q := JustEnough(p, check), Taker(p, check.tenant);
      !Serial(b, [PostTxn(p), PostTxn(q)], Run(b, [PostOps(p), PostOps(q)], schedule))
  {
    var b, q := JustEnough(p, check), Taker(p, check.tenant);
    JustEnoughIsReal(p, check);
    CheckPasses(b, p, check);
    TakerIsAccepted(b, p, check.tenant);
    TakerLines(p, check.tenant);
    TakerTakes(b, p, check.tenant);
    PoorTenantIsRefused(ExecPost(b, q).books, p);
    StrangerIsStrange(p.lines, check.tenant);
    AcceptedStandsAtCommit(b, p);
    AcceptedStandsAtCommit(b, q);
    schedule := BothAccepted(b, p, q, PostOps(p), PostOps(q), |BeforeCommit(p)|, |BeforeCommit(q)|);
    NotSerial(b, p, q, Run(b, [PostOps(p), PostOps(q)], schedule));
  }

  lemma ProgramsOfPosts(p: PostInput, q: PostInput)
    ensures Programs([PostTxn(p), PostTxn(q)]) == [PostOps(p), PostOps(q)]
  {}

  lemma StaleRunIsNotSerial(p: PostInput)
    requires !ChecksOwnLines(PostTxn(p)) && Invalid(p.lines).None? && p.check.value.amount <= MAX_SAFE_INTEGER
    ensures !AlwaysSerial(p)
  {
    var b, q := JustEnough(p, p.check.value), Taker(p, p.check.value.tenant);
    var schedule := UnprotectedCheckGoesStale(p, p.check.value);
    ProgramsOfPosts(p, q);
    assert [PostTxn(p)] + [PostTxn(q)] == [PostTxn(p), PostTxn(q)];
    assert AllProtected([PostTxn(q)]);
    assert !Serial(b, [PostTxn(p)] + [PostTxn(q)], Run(b, Programs([PostTxn(p)] + [PostTxn(q)]), schedule));
  }

  /** A post that can be accepted at all is serializable in any company exactly when it checks an account it writes. */
  lemma SerialIffCheckIsProtected(p: PostInput)
    requires Invalid(p.lines).None? && (p.check.Some? ==> p.check.value.amount <= MAX_SAFE_INTEGER)
    ensures AlwaysSerial(p) <==> ChecksOwnLines(PostTxn(p))
  {
    if ChecksOwnLines(PostTxn(p)) {
      forall b, others, schedule | Consistent(b) && AllProtected(others)
        ensures Serial(b, [PostTxn(p)] + others, Run(b, Programs([PostTxn(p)] + others), schedule))
      {
        Serializability(b, [PostTxn(p)] + others, schedule);
      }
    } else {
      StaleRunIsNotSerial(p);
    }
  }
}
