/**
 Runs of the expiry sweep among other transactions: where the sweep's assumptions come from, what a further run does,
 how often a grant can be reclaimed, and how a run can forgive a debt.
 */
module CreditExpiryRuns {
  import opened Basics
  import opened LedgerBooks
  import opened LedgerInvariants
  import opened Ledger
  import opened CreditExpiryCron

  // ---- What the sweep assumes holds of all books ----

  lemma PostKeepsDates(b: Books, p: PostInput)
    requires DatedArePositive(b)
    ensures DatedArePositive(ExecPost(b, p).books)
  {
    if ExecPost(b, p).outcome.Posted? {
      PostRecords(b, p);
      SortLinesIsFaithful(p.lines);
      assert forall line | line in p.lines :: line.amount > 0;
    }
  }

  /** No call posts a dated entry with an amount that is not positive; capped debits carry no date. */
  lemma ExecKeepsDates(b: Books, t: Txn)
    requires DatedArePositive(b)
    ensures DatedArePositive(Exec(b, t).books)
  {
    match t
    case PostTxn(p) => PostKeepsDates(b, p);
    case CappedTxn(k) =>
  }

  lemma ExecGrows(b: Books, t: Txn)
    ensures Grows(b, Exec(b, t).books)
  {
    match t
    case PostTxn(p) => if ExecPost(b, p).outcome.Posted? { PostRecords(b, p); }
    case CappedTxn(k) => ExecCappedGrows(b, k);
  }

  /** Whatever calls a seeded ledger has seen, the sweep can run on it. */
  lemma {:induction false} AlwaysSweepable(b: Books, ts: seq<Txn>)
    requires FreshlySeeded(b)
    ensures Sweepable(ExecAll(b, ts)) && DatedArePositive(ExecAll(b, ts))
  {
    if ts == [] {
      assert CreditExpiry.Target() in b.accounts;
    } else {
      var before, last := ExecAll(b, ts[..|ts| - 1]), ts[|ts| - 1];
      AlwaysSweepable(b, ts[..|ts| - 1]);
      ExecKeepsConsistency(before, last);
      ExecKeepsDates(before, last);
      ExecGrows(before, last);
    }
  }

  // ---- What a further run finds ----

  lemma {:induction false} LaterEntriesAreNotDue(journal: seq<Entry>, more: seq<Entry>, now: int)
    requires forall e | e in more :: e.expiresAt.None?
    ensures DueEntries(journal + more, now) == DueEntries(journal, now)
  {
    if more == [] { assert journal + more == journal; } else {
      assert (journal + more)[..|journal + more| - 1] == journal + more[..|more| - 1];
      assert more[|more| - 1] in more;
      LaterEntriesAreNotDue(journal, more[..|more| - 1], now);
    }
  }

  lemma {:induction false} GrantedAmountIsStable(b: Books, s: Books, lines: seq<Line>)
    requires Grows(b, s) && Codes(lines) <= b.accounts.Keys
    ensures GrantedAmount(s, lines) == GrantedAmount(b, lines)
  {
    if lines != [] {
      assert lines[0] in lines;
      assert Codes(lines[1..]) <= Codes(lines);
      GrantedAmountIsStable(b, s, lines[1..]);
    }
  }

  lemma ReferencesGrow(journal: seq<Entry>, more: seq<Entry>)
    ensures References(journal) <= References(journal + more)
  {
    forall x | x in References(journal) ensures x in References(journal + more) {
      var f :| f in journal && f.reference == Some(x);
      assert f in journal + more;
    }
  }

  /** The books after some time: the same entries are due, for the same amounts, and references have been added. */
  ghost predicate SameDue(b: Books, s: Books, now: int) {
    && DueEntries(s.journal, now) == DueEntries(b.journal, now)
    && (forall e | e in DueEntries(b.journal, now) :: GrantedAmount(s, e.lines) == GrantedAmount(b, e.lines))
    && References(b.journal) <= References(s.journal)
    && (DatedArePositive(b) ==> DatedArePositive(s))
  }

  lemma SweptKeepsDue(b: Books, s: Books, grants: seq<Grant>, env: Environment, now: int)
    requires Consistent(b) && DistinctIds(b.journal) && Grows(b, s) && OnlyExpiries(b, s, grants, env)
    ensures SameDue(b, s, now)
  {
    var more := s.journal[|b.journal|..];
    assert s.journal == b.journal + more;
    forall e | e in more ensures e.expiresAt.None? { var i :| 0 <= i < |more| && more[i] == e; }
    LaterEntriesAreNotDue(b.journal, more, now);
    DueEntriesAreDue(b.journal, now);
    ReferencesGrow(b.journal, more);
    forall e | e in DueEntries(b.journal, now) ensures GrantedAmount(s, e.lines) == GrantedAmount(b, e.lines) {
      GrantedAmountIsStable(b, s, e.lines);
    }
  }

  // ---- A second run after one without failures ----

  /** The first n calls do not fail. */
  ghost predicate Steady(env: Environment, n: nat) { forall i | 0 <= i < n :: !env.fails(i) }

  /** A call for the grant would do nothing. */
  ghost predicate Idle(s: Books, g: Grant) {
    Stuck(s, g.tenant) || (HasRows(s, g.tenant) && BalanceOf(s, TenantCode(g.tenant)) == 0)
  }

  lemma {:induction false} OpenEntryIsGranted(b: Books, due: seq<Entry>, e: Entry)
    requires e in due && IsOpen(b, e)
    ensures Grant(e.id, e.tenant, GrantedAmount(b, e.lines)) in OpenGrants(b, due)
  {
    var rest, last := due[..|due| - 1], due[|due| - 1];
    if e != last { OpenEntryIsGranted(b, rest, e); }
  }

  /** What the second run would still claw back are grants whose tenant has nothing left, or too much. */
  lemma SecondGrantsAreIdle(b: Books, s: Books, now: int, env: Environment, g: Grant)
    requires DistinctIds(b.journal) && SameDue(b, s, now) && CalledAreSettled(s, ExpiredGrants(b, now), env)
    requires Steady(env, |ExpiredGrants(b, now)|) && g in ExpiredGrants(s, now)
    ensures Idle(s, g)
  {
    var due, grants := DueEntries(b.journal, now), ExpiredGrants(b, now);
    DueEntriesAreDue(b.journal, now);
    OpenGrantsCome(s, due);
    var e :| e in due && IsOpen(s, e) && g == Grant(e.id, e.tenant, GrantedAmount(s, e.lines));
    OpenEntryIsGranted(b, due, e);
    var i :| 0 <= i < |grants| && grants[i] == g;
    assert Settled(s, grants[i]);
  }

  lemma OpenKnownRows(b: Books, cs: set<string>)
    requires cs <= b.accounts.Keys && cs <= b.balances.Keys
    ensures Open(b, cs) == b
  {
    assert Open(b, cs).accounts == b.accounts && Open(b, cs).balances == b.balances;
  }

  lemma IdleCallChangesNothing(s: Books, g: Grant, i: nat, env: Environment)
    requires Sweepable(s) && Idle(s, g)
    ensures ExecCapped(s, ClawBack(g, i, env)).books == s
  {
    if !Stuck(s, g.tenant) { OpenKnownRows(s, {TenantCode(g.tenant), EXPIRED_REVENUE}); }
  }

  lemma {:induction false} IdleSweepChangesNothing(s: Books, grants: seq<Grant>, env: Environment)
    requires Sweepable(s) && forall g | g in grants :: Idle(s, g)
    ensures Sweep(s, grants, env) == s
  {
    if grants != [] {
      var i := |grants| - 1;
      assert grants[i] in grants && forall h | h in grants[..i] :: h in grants;
      IdleSweepChangesNothing(s, grants[..i], env);
      IdleCallChangesNothing(s, grants[i], i, env);
    }
  }

  /** After a run without failures an immediate second one with the same `now` changes nothing at all. */
  lemma SecondRunPostsNothing(b: Books, now: int, env: Environment, env': Environment)
    requires Sweepable(b) && DistinctIds(b.journal) && DatedArePositive(b)
    requires Steady(env, |ExpiredGrants(b, now)|)
    ensures var s := Sweep(b, ExpiredGrants(b, now), env);
      Sweep(s, ExpiredGrants(s, now), env') == s
  {
    var s := Sweep(b, ExpiredGrants(b, now), env);
    RunGrantsAreFresh(b, now);
    SweepProgress(b, ExpiredGrants(b, now), env);
    SweptKeepsDue(b, s, ExpiredGrants(b, now), env, now);
    forall g | g in ExpiredGrants(s, now) ensures Idle(s, g) { SecondGrantsAreIdle(b, s, now, env, g); }
    IdleSweepChangesNothing(s, ExpiredGrants(s, now), env');
  }

  // ---- A second run after one with failures ----

  /** Of the tenant's grants just those whose call failed have no expiry entry. */
  ghost predicate FailedAreOpen(s: Books, grants: seq<Grant>, env: Environment, tenant: string) {
    forall k | 0 <= k < |grants| && grants[k].tenant == tenant ::
      env.fails(k) <==> ExpiryReference(grants[k].entryId) !in References(s.journal)
  }

  lemma FailedStayOpen(b: Books, s: Books, grants: seq<Grant>, env: Environment, tenant: string)
    requires FreshGrants(b, grants) && Swept(b, s, grants, env)
    requires BalanceOf(s, TenantCode(tenant)) != 0 && !Stuck(s, tenant)
    ensures FailedAreOpen(s, grants, env, tenant)
  {
    forall k | 0 <= k < |grants| && grants[k].tenant == tenant
      ensures env.fails(k) <==> ExpiryReference(grants[k].entryId) !in References(s.journal)
    {
      if env.fails(k) { NotCalledNotPosted(b, s, grants, env, k); } else { assert Settled(s, grants[k]); }
    }
  }

  lemma NotCalledNotPosted(b: Books, s: Books, grants: seq<Grant>, env: Environment, k: nat)
    requires FreshGrants(b, grants) && OnlyExpiries(b, s, grants, env) && k < |grants| && env.fails(k)
    ensures ExpiryReference(grants[k].entryId) !in References(s.journal)
  {
    assert grants[k] in grants;
    forall i | 0 <= i < |grants| && i != k
      ensures ExpiryReference(grants[i].entryId) != ExpiryReference(grants[k].entryId)
    {
      ExpiryReferencesDiffer(grants[i].entryId, grants[k].entryId);
    }
  }

  lemma FailedAreOpenInPrefix(s: Books, rest: seq<Grant>, more: seq<Grant>, env: Environment, tenant: string)
    requires FailedAreOpen(s, if more == [] then rest else rest + more, env, tenant)
    ensures FailedAreOpen(s, rest, env, tenant)
    ensures more != [] && more[0].tenant == tenant ==>
      (env.fails(|rest|) <==> ExpiryReference(more[0].entryId) !in References(s.journal))
  {
    var grants := rest + more;
    forall k | 0 <= k < |rest| && rest[k].tenant == tenant
      ensures env.fails(k) <==> ExpiryReference(rest[k].entryId) !in References(s.journal)
    {
      assert grants[k] == rest[k];
    }
    if more != [] { assert grants[|rest|] == more[0]; }
  }

  /** What the first run has missed of the grants so far, the second one wants. */
  ghost predicate MakesUp(first: seq<Grant>, second: seq<Grant>, env: Environment, env': Environment, tenant: string) {
    && |second| <= |first|
    && Wanted(second, env', tenant) + Wanted(first, env, tenant) == Wanted(first, env', tenant)
  }

  lemma MakesUpOneMore(first: seq<Grant>, second: seq<Grant>, g: Grant, again: bool, env: Environment,
                       env': Environment, tenant: string)
    requires MakesUp(first, second, env, env', tenant) && Steady(env', |first| + 1)
    requires g.tenant == tenant ==> (again <==> env.fails(|first|))
    ensures MakesUp(first + [g], if again then second + [g] else second, env, env', tenant)
  {
    WantedOneMore(first, g, env, tenant);
    WantedOneMore(first, g, env', tenant);
    WantedOneMore(second, g, env', tenant);
  }

  lemma OpenGrantsOneMore(b: Books, rest: seq<Entry>, last: Entry)
    ensures OpenGrants(b, rest + [last]) == if IsOpen(b, last) then
      OpenGrants(b, rest) + [Grant(last.id, last.tenant, GrantedAmount(b, last.lines))] else OpenGrants(b, rest)
  {
    assert (rest + [last])[..|rest|] == rest;
  }

  lemma {:induction false} WantedAgain(b: Books, s: Books, due: seq<Entry>, env: Environment, env': Environment,
                                       tenant: string)
    requires FailedAreOpen(s, OpenGrants(b, due), env, tenant) && References(b.journal) <= References(s.journal)
    requires forall e | e in due :: GrantedAmount(s, e.lines) == GrantedAmount(b, e.lines)
    requires Steady(env', |OpenGrants(b, due)|)
    ensures MakesUp(OpenGrants(b, due), OpenGrants(s, due), env, env', tenant)
  {
    if due != [] {
      var rest, last := due[..|due| - 1], due[|due| - 1];
      assert due == rest + [last] && last in due && forall e | e in rest :: e in due;
      OpenGrantsOneMore(b, rest, last);
      OpenGrantsOneMore(s, rest, last);
      var g := Grant(last.id, last.tenant, GrantedAmount(b, last.lines));
      FailedAreOpenInPrefix(s, OpenGrants(b, rest), if IsOpen(b, last) then [g] else [], env, tenant);
      WantedAgain(b, s, rest, env, env', tenant);
      if IsOpen(b, last) {
        MakesUpOneMore(OpenGrants(b, rest), OpenGrants(s, rest), g, IsOpen(s, last), env, env', tenant);
      }
    }
  }

  lemma SecondRunLeaves(b: Books, s: Books, now: int, env: Environment, tenant: string)
    requires DistinctIds(b.journal) && DatedArePositive(b) && Sweepable(s) && SameDue(b, s, now)
    ensures BalanceOf(Sweep(s, ExpiredGrants(s, now), env), TenantCode(tenant))
         == LeftOver(BalanceOf(s, TenantCode(tenant)), Wanted(ExpiredGrants(s, now), env, tenant))
    ensures Wanted(ExpiredGrants(s, now), env, tenant) >= 0
  {
    DueEntriesAreDue(b.journal, now);
    forall e | e in DueEntries(s.journal, now) ensures e in s.journal && e.expiresAt.Some? {
      DueEntryIsListed(s.journal, now, e);
    }
    GrantsAreFresh(s, DueEntries(s.journal, now));
    SweepProgress(s, ExpiredGrants(s, now), env);
    WantedIsPositive(ExpiredGrants(s, now), env, tenant);
  }

  lemma {:induction false} DueEntryIsListed(journal: seq<Entry>, now: int, e: Entry)
    requires e in DueEntries(journal, now)
    ensures e in journal && IsDue(e, now)
  {
    if e in DueEntries(journal[..|journal| - 1], now) { DueEntryIsListed(journal[..|journal| - 1], now, e); }
  }

  lemma {:induction false} SteadyWantsMore(grants: seq<Grant>, env: Environment, env': Environment, tenant: string)
    requires Steady(env', |grants|) && forall g | g in grants :: g.amount > 0
    ensures Wanted(grants, env, tenant) <= Wanted(grants, env', tenant)
  {
    if grants != [] {
      var i := |grants| - 1;
      assert grants[i] in grants && forall g | g in grants[..i] :: g in grants;
      SteadyWantsMore(grants[..i], env, env', tenant);
    }
  }

  /** Balances after the first run, missed part included, and after one run without failures. */
  lemma CaughtUp(b: Books, s: Books, now: int, env: Environment, env': Environment, tenant: string)
    requires var grants := ExpiredGrants(b, now);
      FreshGrants(b, grants) && Swept(b, s, grants, env) && Steady(env', |grants|)
    requires SameDue(b, s, now) && Wanted(ExpiredGrants(s, now), env', tenant) >= 0
    ensures LeftOver(BalanceOf(s, TenantCode(tenant)), Wanted(ExpiredGrants(s, now), env', tenant))
         == LeftOver(BalanceOf(b, TenantCode(tenant)), Wanted(ExpiredGrants(b, now), env', tenant))
  {
    var grants, before := ExpiredGrants(b, now), BalanceOf(b, TenantCode(tenant));
    WantedIsPositive(grants, env, tenant);
    if BalanceOf(s, TenantCode(tenant)) != 0 && !Stuck(s, tenant) {
      FailedStayOpen(b, s, grants, env, tenant);
      WantedAgain(b, s, DueEntries(b.journal, now), env, env', tenant);
      LeftOverAgain(before, Wanted(grants, env, tenant), Wanted(ExpiredGrants(s, now), env', tenant));
    } else {
      SteadyWantsMore(grants, env, env', tenant);
    }
  }

  /** Failures delay but do not change what is taken: once a run succeeds, all is as after one run without failures. */
  lemma RetryCatchesUp(b: Books, now: int, env: Environment, env': Environment, tenant: string)
    requires Sweepable(b) && DistinctIds(b.journal) && DatedArePositive(b)
    requires Steady(env', |ExpiredGrants(b, now)|)
    ensures var s := Sweep(b, ExpiredGrants(b, now), env);
      BalanceOf(Sweep(s, ExpiredGrants(s, now), env'), TenantCode(tenant))
      == BalanceOf(Sweep(b, ExpiredGrants(b, now), env'), TenantCode(tenant))
  {
    var s := Sweep(b, ExpiredGrants(b, now), env);
    RunGrantsAreFresh(b, now);
    SweepProgress(b, ExpiredGrants(b, now), env);
    SweptKeepsDue(b, s, ExpiredGrants(b, now), env, now);
    RunLeaves(b, now, env', tenant);
    SecondRunLeaves(b, s, now, env', tenant);
    CaughtUp(b, s, now, env, env', tenant);
  }

  // ---- Runs among other transactions ----

  datatype Happening = Run(now: int, env: Environment) | Call(txn: Txn)

  function Next(b: Books, h: Happening): Books {
    match h
    case Run(now, env) => Sweep(b, ExpiredGrants(b, now), env)
    case Call(txn) => Exec(b, txn).books
  }

  function Later(b: Books, happenings: seq<Happening>): Books {
    if happenings == [] then b else
      Next(Later(b, happenings[..|happenings| - 1]), happenings[|happenings| - 1])
  }

  lemma {:induction false} SweepKeepsConsistency(b: Books, grants: seq<Grant>, env: Environment)
    requires Consistent(b)
    ensures Consistent(Sweep(b, grants, env))
  {
    if grants != [] {
      var i := |grants| - 1;
      SweepKeepsConsistency(b, grants[..i], env);
      ExecKeepsConsistency(Sweep(b, grants[..i], env), CappedTxn(ClawBack(grants[i], i, env)));
    }
  }

  lemma {:induction false} LaterIsConsistent(b: Books, happenings: seq<Happening>)
    requires Consistent(b)
    ensures Consistent(Later(b, happenings))
  {
    if happenings != [] {
      var s, last := Later(b, happenings[..|happenings| - 1]), happenings[|happenings| - 1];
      LaterIsConsistent(b, happenings[..|happenings| - 1]);
      match last
      case Run(now, env) => SweepKeepsConsistency(s, ExpiredGrants(s, now), env);
      case Call(txn) => ExecKeepsConsistency(s, txn);
    }
  }

  lemma ExecKeepsReferences(b: Books, t: Txn)
    ensures References(b.journal) <= References(Exec(b, t).books.journal)
  {
    match t {
      case PostTxn(p) => if Exec(b, t).outcome.Posted? { PostRecords(b, p); }
      case CappedTxn(k) =>
    }
    var journal := Exec(b, t).books.journal;
    if journal != b.journal {
      assert journal == b.journal + [journal[|b.journal|]];
      ReferencesGrow(b.journal, [journal[|b.journal|]]);
    }
  }

  lemma {:induction false} SweepKeepsReferences(b: Books, grants: seq<Grant>, env: Environment)
    ensures References(b.journal) <= References(Sweep(b, grants, env).journal)
  {
    if grants != [] {
      var i := |grants| - 1;
      SweepKeepsReferences(b, grants[..i], env);
      ExecKeepsReferences(Sweep(b, grants[..i], env), CappedTxn(ClawBack(grants[i], i, env)));
    }
  }

  lemma {:induction false} LaterKeepsReferences(b: Books, happenings: seq<Happening>)
    ensures References(b.journal) <= References(Later(b, happenings).journal)
  {
    if happenings != [] {
      var s, last := Later(b, happenings[..|happenings| - 1]), happenings[|happenings| - 1];
      LaterKeepsReferences(b, happenings[..|happenings| - 1]);
      match last
      case Run(now, env) => SweepKeepsReferences(s, ExpiredGrants(s, now), env);
      case Call(txn) => ExecKeepsReferences(s, txn);
    }
  }

  lemma {:induction false} ListedIsOpen(b: Books, due: seq<Entry>, g: Grant)
    requires g in OpenGrants(b, due)
    ensures ExpiryReference(g.entryId) !in References(b.journal)
  {
    if g in OpenGrants(b, due[..|due| - 1]) { ListedIsOpen(b, due[..|due| - 1], g); }
  }

  /** However runs and other transactions mix, and whatever fails: no two entries are the expiry of one grant. */
  lemma {:induction false} AtMostOneExpiryEntry(b: Books, happenings: seq<Happening>, entryId: string, i: nat, j: nat)
    requires Consistent(b)
    requires i < |Later(b, happenings).journal|
    requires Later(b, happenings).journal[i].reference == Some(ExpiryReference(entryId))
    requires j < |Later(b, happenings).journal|
    requires Later(b, happenings).journal[j].reference == Some(ExpiryReference(entryId))
    ensures i == j
  {
    LaterIsConsistent(b, happenings);
  }

  /** Once a grant has its expiry entry no later run asks for it again. */
  lemma ReclaimedIsNotListed(b: Books, happenings: seq<Happening>, now: int, g: Grant)
    requires g in ExpiredGrants(Later(b, happenings), now)
    ensures ExpiryReference(g.entryId) !in References(b.journal)
  {
    var s := Later(b, happenings);
    LaterKeepsReferences(b, happenings);
    ListedIsOpen(s, DueEntries(s.journal, now), g);
  }

  // ---- A debt that a run forgives ----

  lemma GrantedAmountOfPair(b: Books, lines: seq<Line>, debit: Line, credit: Line)
    requires lines == [debit, credit] || lines == [credit, debit]
    requires debit.side == Dr && credit.side == Cr && IsLiability(b, credit.code)
    ensures GrantedAmount(b, lines) == credit.amount
  {
    if lines == [debit, credit] {
      assert lines[1..] == [credit];
      assert GrantedAmount(b, [credit]) == credit.amount;
    }
  }

  lemma OnlyTheGrantIsDue(grant: Entry, debit: Entry, now: int)
    requires IsDue(grant, now) && debit.expiresAt.None?
    ensures DueEntries([grant, debit], now) == [grant]
  {
    LaterEntriesAreNotDue([grant], [debit], now);
    assert [grant] + [debit] == [grant, debit] && [grant][..0] == [];
  }

  lemma OnlyTheGrantIsListed(b: Books, grant: Entry, amount: int)
    requires GrantedAmount(b, grant.lines) == amount && amount > 0 && References(b.journal) == {}
    ensures OpenGrants(b, [grant]) == [Grant(grant.id, grant.tenant, amount)]
  {
    OpenGrantsOneMore(b, [], grant);
    assert [] + [grant] == [grant];
  }

  /** The entry of a signup grant. */
  ghost predicate IsGrantTo(e: Entry, tenant: string, amount: int, expires: int) {
    var source, credit := Line(SignupGrant.Source(), amount, Dr), Line(TenantCode(tenant), amount, Cr);
    && e.tenant == tenant && e.entryType == SignupGrant.Name() && e.expiresAt == Some(expires) && e.reference.None?
    && (e.lines == [source, credit] || e.lines == [credit, source])
  }

  lemma GrantIsWorthItsAmount(b: Books, grant: Entry, tenant: string, amount: int, expires: int)
    requires Consistent(b) && grant in b.journal && IsGrantTo(grant, tenant, amount, expires)
    ensures GrantedAmount(b, grant.lines) == amount
  {
    var source, credit := Line(SignupGrant.Source(), amount, Dr), Line(TenantCode(tenant), amount, Cr);
    TenantCodesDiffer(tenant, tenant);
    assert credit in grant.lines && credit.code in Codes(grant.lines);
    GrantedAmountOfPair(b, grant.lines, source, credit);
  }

  lemma TransferIsRecorded(b: Books, p: PostInput, tenant: Line, system: Line)
    requires p.check.None? && p.reference.None? && (p.lines == [system, tenant] || p.lines == [tenant, system])
    requires IsTenant(tenant.code) && system.code in b.accounts
    requires tenant.side != system.side && tenant.amount == system.amount > 0
    ensures ExecPost(b, p).books.journal == b.journal + [PostedEntry(p)]
    ensures PostedEntry(p).lines == [tenant, system] || PostedEntry(p).lines == [system, tenant]
  {
    TwoLinesAreValid(p.lines);
    TwoLines(p.lines[0], p.lines[1]);
    AcceptedIff(b, p);
    PostRecords(b, p);
    SortedPair(p.lines[0], p.lines[1]);
  }

  /** A grant that expires, and a larger debit that may go negative. */
  function GrantAndDebit(tenant: string, granted: int, expires: int, spent: int, stamp: Stamp, stamp': Stamp): seq<Txn>
  {
    [CreditTxn(tenant, granted, SignupGrant, stamp, Some(expires)), DebitTxn(tenant, spent, AdapterUsage, stamp', true)]
  }

  lemma ExecBoth(b: Books, x: Txn, y: Txn)
    ensures ExecAll(b, [x, y]) == Exec(Exec(b, x).books, y).books
  {
    assert [x, y][..1] == [x] && [x][..0] == [];
    assert ExecAll(b, [x]) == Exec(ExecAll(b, []), x).books;
  }

  lemma GrantIsRecorded(b: Books, s: Books, tenant: string, amount: int, expires: int, stamp: Stamp)
    returns (e: Entry)
    requires Consistent(b) && SignupGrant.Source() in b.accounts && amount > 0 && stamp.reference.None?
    requires s == Exec(b, CreditTxn(tenant, amount, SignupGrant, stamp, Some(expires))).books
    ensures Consistent(s) && b.accounts.Keys <= s.accounts.Keys && s.journal == b.journal + [e]
    ensures IsGrantTo(e, tenant, amount, expires) && e.id == stamp.id
    ensures BalanceOf(s, TenantCode(tenant)) == BalanceOf(b, TenantCode(tenant)) + amount
  {
    var p := CreditTxn(tenant, amount, SignupGrant, stamp, Some(expires)).post;
    SystemCodes(SignupGrant, Refund);
    TenantCodesDiffer(tenant, tenant);
    TransferIsAccepted(b, p, p.lines[1], p.lines[0]);
    TransferIsRecorded(b, p, p.lines[1], p.lines[0]);
    e := PostedEntry(p);
  }

  lemma DebitIsRecorded(b: Books, s: Books, tenant: string, amount: int, stamp: Stamp) returns (e: Entry)
    requires Consistent(b) && AdapterUsage.Target() in b.accounts && amount > 0 && stamp.reference.None?
    requires s == Exec(b, DebitTxn(tenant, amount, AdapterUsage, stamp, true)).books
    ensures s.journal == b.journal + [e] && e.expiresAt.None? && e.reference.None? && e.id == stamp.id
    ensures BalanceOf(s, TenantCode(tenant)) == BalanceOf(b, TenantCode(tenant)) - amount
  {
    var p := DebitTxn(tenant, amount, AdapterUsage, stamp, true).post;
    SystemCodes(Purchase, AdapterUsage);
    TenantCodesDiffer(tenant, tenant);
    TransferIsAccepted(b, p, p.lines[0], p.lines[1]);
    TransferIsRecorded(b, p, p.lines[0], p.lines[1]);
    e := PostedEntry(p);
  }

  lemma IndebtedBooks(b: Books, s: Books, tenant: string, granted: int, expires: int, spent: int, stamp: Stamp,
                      stamp': Stamp) returns (grant: Entry, debit: Entry)
    requires FreshlySeeded(b) && 0 < granted < spent && stamp.reference.None? && stamp'.reference.None?
    requires s == ExecAll(b, GrantAndDebit(tenant, granted, expires, spent, stamp, stamp'))
    ensures s.journal == [grant, debit] && IsGrantTo(grant, tenant, granted, expires) && grant.id == stamp.id
    ensures debit.expiresAt.None? && debit.reference.None? && debit.id == stamp'.id
    ensures BalanceOf(s, TenantCode(tenant)) == granted - spent
  {
    var txns := GrantAndDebit(tenant, granted, expires, spent, stamp, stamp');
    var s1 := Exec(b, txns[0]).books;
    ExecBoth(b, txns[0], txns[1]);
    assert SignupGrant.Source() in b.accounts && AdapterUsage.Target() in b.accounts;
    grant := GrantIsRecorded(b, s1, tenant, granted, expires, stamp);
    debit := DebitIsRecorded(s1, s, tenant, spent, stamp');
  }

  lemma NoReferences(grant: Entry, debit: Entry)
    requires grant.reference.None? && debit.reference.None?
    ensures References([grant, debit]) == {}
  {}

  /** A tenant that spent more than its grant owes the rest; the run that reclaims the grant leaves it owing nothing. */
  lemma DebtIsForgiven(b: Books, tenant: string, granted: int, expires: int, spent: int, stamp: Stamp, stamp': Stamp,
                       now: int, env: Environment)
    requires FreshlySeeded(b) && 0 < granted < spent && expires <= now && !env.fails(0)
    requires stamp.reference.None? && stamp'.reference.None? && stamp.id != stamp'.id
    ensures var s := ExecAll(b, GrantAndDebit(tenant, granted, expires, spent, stamp, stamp'));
      && Sweepable(s) && DistinctIds(s.journal) && DatedArePositive(s)
      && ExpiredGrants(s, now) == [Grant(stamp.id, tenant, granted)]
      && BalanceOf(s, TenantCode(tenant)) == granted - spent < 0
      && BalanceOf(Sweep(s, ExpiredGrants(s, now), env), TenantCode(tenant)) == 0
  {
    var txns := GrantAndDebit(tenant, granted, expires, spent, stamp, stamp');
    var s := ExecAll(b, txns);
    AlwaysSweepable(b, txns);
    var grant, debit := IndebtedBooks(b, s, tenant, granted, expires, spent, stamp, stamp');
    OnlyTheGrantIsDue(grant, debit, now);
    NoReferences(grant, debit);
    assert grant in s.journal;
    GrantIsWorthItsAmount(s, grant, tenant, granted, expires);
    OnlyTheGrantIsListed(s, grant, granted);
    RunLeaves(s, now, env, tenant);
    WantedOneMore([], Grant(stamp.id, tenant, granted), env, tenant);
    assert [] + [Grant(stamp.id, tenant, granted)] == [Grant(stamp.id, tenant, granted)];
  }
}
