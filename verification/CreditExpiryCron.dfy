/** The sweep that claws back expired credit grants, and what a run of it leaves. */
module CreditExpiryCron {
  import opened Basics
  import opened LedgerBooks
  import opened LedgerInvariants
  import opened LedgerEffects
  import opened Ledger

  /** `ids` and `clock` are the random ids and the time of the calls; `fails(i)` is an outside failure of the i-th. */
  datatype Environment = Environment(ids: nat -> string, clock: int, fails: nat -> bool)

  datatype CronResult = CronResult(processed: nat, expired: seq<string>, errors: seq<string>, skippedZeroBalance: nat)

  function ClawBack(g: Grant, i: nat, env: Environment): CappedInput {
    DebitCappedTxn(g.tenant, g.amount, CreditExpiry,
      Stamp(env.ids(i), env.clock, Some(ExpiryReference(g.entryId)), None)).capped
  }

  /** The books after the calls for `grants`, in order. */
  function Sweep(b: Books, grants: seq<Grant>, env: Environment): Books {
    if grants == [] then b else
      var i := |grants| - 1;
      var before := Sweep(b, grants[..i], env);
      if env.fails(i) then before else ExecCapped(before, ClawBack(grants[i], i, env)).books
  }

  /** The answer to the i-th call; None is an outside failure. */
  function AnswerTo(b: Books, grants: seq<Grant>, env: Environment, i: nat): Option<Outcome>
    requires i < |grants|
  {
    if env.fails(i) then None else Some(ExecCapped(Sweep(b, grants[..i], env), ClawBack(grants[i], i, env)).outcome)
  }

  function Answers(b: Books, grants: seq<Grant>, env: Environment): (r: seq<Option<Outcome>>)
    ensures |r| == |grants| && forall i | 0 <= i < |r| :: r[i] == AnswerTo(b, grants, env, i)
  {
    seq(|grants|, i requires 0 <= i < |grants| => AnswerTo(b, grants, env, i))
  }

  // ---- What the counters of a run say of its answers ----

  predicate IsPosted(answer: Option<Outcome>) { answer.Some? && answer.value.Posted? }

  /** How many calls found nothing to take. */
  function Skipped(answers: seq<Option<Outcome>>): nat {
    if answers == [] then 0 else
      Skipped(answers[..|answers| - 1]) + if answers[|answers| - 1] == Some(Nothing) then 1 else 0
  }

  /** The calls that failed or were refused, in order. */
  function Errors(answers: seq<Option<Outcome>>, grants: seq<Grant>): seq<string>
    requires |answers| <= |grants|
  {
    if answers == [] then [] else
      var n := |answers| - 1;
      Errors(answers[..n], grants)
      + if answers[n].None? || answers[n].value.Rejected? then [grants[n].tenant + ":" + grants[n].entryId] else []
  }

  /** One of the calls has taken something from the tenant. */
  ghost predicate WasTaken(answers: seq<Option<Outcome>>, grants: seq<Grant>, tenant: string)
    requires |answers| <= |grants|
  {
    exists i | 0 <= i < |answers| :: grants[i].tenant == tenant && IsPosted(answers[i])
  }

  ghost predicate Tallied(answers: seq<Option<Outcome>>, grants: seq<Grant>, r: CronResult)
    requires |answers| <= |grants|
  {
    && r.processed + r.skippedZeroBalance + |r.errors| == |answers|
    && r.skippedZeroBalance == Skipped(answers) && r.errors == Errors(answers, grants)
    && (forall t :: t in r.expired <==> WasTaken(answers, grants, t))
    && (forall j, k | 0 <= j < k < |r.expired| :: r.expired[j] != r.expired[k])
  }

  /** The counters after one more call. */
  method Tally(r: CronResult, g: Grant, answer: Option<Outcome>) returns (result: CronResult)
    ensures result == Counted(r, g, answer)
  {
    result := r;
    match answer
    case Some(Nothing) => result := result.(skippedZeroBalance := result.skippedZeroBalance + 1);
    case Some(Posted(_)) =>
      result := result.(processed := result.processed + 1);
      if g.tenant !in result.expired { result := result.(expired := result.expired + [g.tenant]); }
    case _ => result := result.(errors := result.errors + [g.tenant + ":" + g.entryId]);
  }

  function Counted(r: CronResult, g: Grant, answer: Option<Outcome>): CronResult {
    match answer
    case Some(Nothing) => r.(skippedZeroBalance := r.skippedZeroBalance + 1)
    case Some(Posted(_)) =>
      r.(processed := r.processed + 1, expired := if g.tenant in r.expired then r.expired else r.expired + [g.tenant])
    case _ => r.(errors := r.errors + [g.tenant + ":" + g.entryId])
  }

  lemma TakenOneMore(answers: seq<Option<Outcome>>, grants: seq<Grant>, answer: Option<Outcome>, tenant: string)
    requires |answers| < |grants|
    ensures WasTaken(answers + [answer], grants, tenant)
         == (WasTaken(answers, grants, tenant) || (grants[|answers|].tenant == tenant && IsPosted(answer)))
  {
    var longer := answers + [answer];
    if i :| 0 <= i < |answers| && grants[i].tenant == tenant && IsPosted(answers[i]) { assert longer[i] == answers[i]; }
    if grants[|answers|].tenant == tenant && IsPosted(answer) { assert longer[|answers|] == answer; }
  }

  lemma TalliesNext(answers: seq<Option<Outcome>>, grants: seq<Grant>, answer: Option<Outcome>, r: CronResult)
    requires |answers| < |grants| && Tallied(answers, grants, r)
    ensures Tallied(answers + [answer], grants, Counted(r, grants[|answers|], answer))
  {
    var longer, r' := answers + [answer], Counted(r, grants[|answers|], answer);
    assert longer[..|answers|] == answers;
    forall t ensures t in r'.expired <==> WasTaken(longer, grants, t) { TakenOneMore(answers, grants, answer, t); }
  }

  /** What the calls that do not fail want from a tenant. */
  function Wanted(grants: seq<Grant>, env: Environment, tenant: string): int {
    if grants == [] then 0 else
      var i := |grants| - 1;
      Wanted(grants[..i], env, tenant) + if grants[i].tenant == tenant && !env.fails(i) then grants[i].amount else 0
  }

  lemma OneMoreFailure(b: Books, grants: seq<Grant>, i: nat, env: Environment)
    requires i < |grants| && env.fails(i)
    ensures Sweep(b, grants[..i + 1], env) == Sweep(b, grants[..i], env)
  {
    assert grants[..i + 1][..i] == grants[..i];
  }

  lemma OneMoreClawBack(b: Books, grants: seq<Grant>, i: nat, env: Environment, before: Books, r: Result)
    requires i < |grants| && !env.fails(i) && before == Sweep(b, grants[..i], env)
    requires r == ExecCapped(before, ClawBack(grants[i], i, env))
    ensures r.books == Sweep(b, grants[..i + 1], env)
    ensures |r.books.journal| == |before.journal| + if r.outcome.Posted? then 1 else 0
  {
    assert grants[..i + 1][..i] == grants[..i];
  }

  /** The claw-back of one grant. */
  method Expire(ledger: DrizzleLedger, grants: seq<Grant>, i: nat, env: Environment, ghost b: Books)
    returns (outcome: Outcome)
    requires ledger.Valid() && i < |grants| && !env.fails(i)
    requires ledger.Contents() == Sweep(b, grants[..i], env)
    modifies ledger
    ensures ledger.Valid()
    ensures ledger.Contents() == Sweep(b, grants[..i + 1], env)
    ensures |ledger.journal| == |old(ledger.journal)| + if outcome.Posted? then 1 else 0
    ensures Some(outcome) == AnswerTo(b, grants, env, i)
  {
    ghost var before := ledger.Contents();
    outcome := ledger.DebitCapped(grants[i].tenant, grants[i].amount, CreditExpiry,
      Stamp(env.ids(i), env.clock, Some(ExpiryReference(grants[i].entryId)), None));
    OneMoreClawBack(b, grants, i, env, before, Result(ledger.Contents(), outcome));
  }

  /** One turn of the loop: the call, and what it adds to the counters. */
  method ExpireNext(ledger: DrizzleLedger, grants: seq<Grant>, i: nat, env: Environment, before: CronResult,
                    ghost b: Books)
    returns (result: CronResult)
    requires ledger.Valid() && i < |grants| && ledger.Contents() == Sweep(b, grants[..i], env)
    modifies ledger
    ensures ledger.Valid() && ledger.Contents() == Sweep(b, grants[..i + 1], env)
    ensures result == Counted(before, grants[i], AnswerTo(b, grants, env, i))
    ensures |ledger.journal| == |old(ledger.journal)| + result.processed - before.processed
  {
    var answer := None;
    if env.fails(i) {
      OneMoreFailure(b, grants, i, env);
    } else {
      var outcome := Expire(ledger, grants, i, env, b);
      answer := Some(outcome);
    }
    result := Tally(before, grants[i], answer);
  }

  /** The loop over the listed grants. */
  method ExpireAll(ledger: DrizzleLedger, grants: seq<Grant>, env: Environment) returns (result: CronResult)
    requires ledger.Valid()
    modifies ledger
    ensures ledger.Valid() && ledger.Contents() == Sweep(old(ledger.Contents()), grants, env)
    ensures Tallied(Answers(old(ledger.Contents()), grants, env), grants, result)
    ensures |ledger.journal| == |old(ledger.journal)| + result.processed
    ensures grants == [] ==> result == CronResult(0, [], [], 0)
  {
    ghost var b, answers := ledger.Contents(), Answers(ledger.Contents(), grants, env);
    result := CronResult(0, [], [], 0);
    for i := 0 to |grants|
      invariant ledger.Valid()
      invariant ledger.Contents() == Sweep(b, grants[..i], env)
      invariant Tallied(answers[..i], grants, result)
      invariant |ledger.journal| == |b.journal| + result.processed
      invariant i == 0 ==> result == CronResult(0, [], [], 0)
    {
      assert answers[..i + 1] == answers[..i] + [answers[i]];
      TalliesNext(answers[..i], grants, answers[i], result);
      result := ExpireNext(ledger, grants, i, env, result, b);
    }
    assert grants[..|grants|] == grants && answers[..|grants|] == answers;
  }

  /** Before every expiry date no grant is listed. */
  lemma NothingExpiredYet(b: Books, now: int)
    requires forall e | e in b.journal && e.expiresAt.Some? :: now < e.expiresAt.value
    ensures ExpiredGrants(b, now) == []
  {
    var grants := ExpiredGrants(b, now);
    if grants != [] {
      assert grants[0] in grants;
      ListedIff(b, now, grants[0]);
      assert false;
    }
  }

  method RunCreditExpiryCron(ledger: DrizzleLedger, now: int, env: Environment) returns (result: CronResult)
    requires ledger.Valid()
    modifies ledger
    ensures ledger.Valid()
    ensures ledger.Contents() == Sweep(old(ledger.Contents()), ExpiredGrants(old(ledger.Contents()), now), env)
    ensures Tallied(Answers(old(ledger.Contents()), ExpiredGrants(old(ledger.Contents()), now), env),
      ExpiredGrants(old(ledger.Contents()), now), result)
    ensures |ledger.journal| == |old(ledger.journal)| + result.processed
    ensures (forall e | e in old(ledger.journal) && e.expiresAt.Some? :: now < e.expiresAt.value) ==>
      ledger.Contents() == old(ledger.Contents()) && result == CronResult(0, [], [], 0)
  {
    ghost var b := ledger.Contents();
    var grants := ledger.ExpiredCredits(now);
    result := ExpireAll(ledger, grants, env);
    if forall e | e in b.journal && e.expiresAt.Some? :: now < e.expiresAt.value { NothingExpiredYet(b, now); }
  }

  // ---- What the grants of a run look like ----

  ghost predicate DistinctIds(journal: seq<Entry>) {
    forall i, j | 0 <= i < j < |journal| :: journal[i].id != journal[j].id
  }

  /** Entries with an expiry date have positive amounts; others need not. */
  ghost predicate DatedArePositive(b: Books) {
    forall e | e in b.journal && e.expiresAt.Some? :: forall line | line in e.lines :: line.amount > 0
  }

  /** Distinct grants of positive amount that have no expiry entry yet. */
  ghost predicate FreshGrants(b: Books, grants: seq<Grant>) {
    && (forall i, j | 0 <= i < j < |grants| :: grants[i].entryId != grants[j].entryId)
    && (forall g | g in grants :: g.amount > 0 && ExpiryReference(g.entryId) !in References(b.journal))
  }

  lemma {:induction false} DueEntriesAreDue(journal: seq<Entry>, now: int)
    requires DistinctIds(journal)
    ensures DistinctIds(DueEntries(journal, now))
    ensures forall e | e in DueEntries(journal, now) :: e in journal && IsDue(e, now)
  {
    if journal != [] {
      var rest, last := journal[..|journal| - 1], journal[|journal| - 1];
      DueEntriesAreDue(rest, now);
      forall e | e in DueEntries(rest, now) ensures e.id != last.id {
        var i :| 0 <= i < |rest| && rest[i] == e;
        assert journal[i] == e;
      }
    }
  }

  lemma {:induction false} OpenGrantsCome(b: Books, due: seq<Entry>)
    requires DistinctIds(due)
    ensures forall g | g in OpenGrants(b, due) ::
      exists e :: e in due && IsOpen(b, e) && g == Grant(e.id, e.tenant, GrantedAmount(b, e.lines))
    ensures forall i, j | 0 <= i < j < |OpenGrants(b, due)| ::
      OpenGrants(b, due)[i].entryId != OpenGrants(b, due)[j].entryId
  {
    if due != [] {
      var rest, last := due[..|due| - 1], due[|due| - 1];
      assert due == rest + [last];
      OpenGrantsCome(b, rest);
      forall g | g in OpenGrants(b, rest) ensures g.entryId != last.id {
        var e :| e in rest && IsOpen(b, e) && g == Grant(e.id, e.tenant, GrantedAmount(b, e.lines));
        var i :| 0 <= i < |rest| && rest[i] == e;
        assert due[i] == e;
      }
    }
  }

  lemma {:induction false} GrantedAmountIsALine(b: Books, lines: seq<Line>)
    ensures GrantedAmount(b, lines) != 0 ==> exists line :: line in lines && line.amount == GrantedAmount(b, lines)
  {
    if lines != [] { GrantedAmountIsALine(b, lines[1..]); }
  }

  lemma GrantsAreFresh(b: Books, due: seq<Entry>)
    requires DistinctIds(due) && DatedArePositive(b)
    requires forall e | e in due :: e in b.journal && e.expiresAt.Some?
    ensures FreshGrants(b, OpenGrants(b, due))
  {
    OpenGrantsCome(b, due);
    forall g | g in OpenGrants(b, due) ensures g.amount > 0 && ExpiryReference(g.entryId) !in References(b.journal) {
      var e :| e in due && IsOpen(b, e) && g == Grant(e.id, e.tenant, GrantedAmount(b, e.lines));
      GrantedAmountIsALine(b, e.lines);
    }
  }

  lemma RunGrantsAreFresh(b: Books, now: int)
    requires DistinctIds(b.journal) && DatedArePositive(b)
    ensures FreshGrants(b, ExpiredGrants(b, now))
  {
    DueEntriesAreDue(b.journal, now);
    GrantsAreFresh(b, DueEntries(b.journal, now));
  }

  // ---- One claw-back ----

  const EXPIRED_REVENUE: string := "4060"

  /** The account that receives expired credits exists. */
  ghost predicate Sweepable(b: Books) { Consistent(b) && EXPIRED_REVENUE in b.accounts }

  /** The balance is too large to be read. */
  predicate Stuck(b: Books, tenant: string) { BalanceOf(b, TenantCode(tenant)) > MAX_SAFE_INTEGER }

  /** What is left of a balance from which `wanted` is clawed back: nothing of a debt. */
  function LeftOver(balance: int, wanted: int): int {
    if wanted == 0 || balance > MAX_SAFE_INTEGER then balance
    else if balance > wanted then balance - wanted
    else 0
  }

  lemma ClawBackIsDebit(b: Books, g: Grant, i: nat, env: Environment) returns (txn: Txn, stamp: Stamp)
    ensures stamp == Stamp(env.ids(i), env.clock, Some("expiry:" + g.entryId), None)
    ensures txn == DebitCappedTxn(g.tenant, g.amount, CreditExpiry, stamp)
    ensures Exec(b, txn) == ExecCapped(b, ClawBack(g, i, env))
    ensures CreditExpiry.Name() == "credit_expiry" && CreditExpiry.Target() == "4060"
  {
    stamp := Stamp(env.ids(i), env.clock, Some(ExpiryReference(g.entryId)), None);
    txn := DebitCappedTxn(g.tenant, g.amount, CreditExpiry, stamp);
  }

  /** A claw-back takes what leaves the balance, as an expiry of the grant, to the account of expired credits. */
  lemma ClawBackIsJournaled(b: Books, g: Grant, i: nat, env: Environment) returns (e: Entry)
    requires Consistent(b) && ExecCapped(b, ClawBack(g, i, env)).outcome.Posted?
    ensures var s := ExecCapped(b, ClawBack(g, i, env)).books;
      var taken := BalanceOf(b, "2000:" + g.tenant) - BalanceOf(s, "2000:" + g.tenant);
      && s.journal == b.journal + [e]
      && Says(e, "credit_expiry", g.tenant, Stamp(env.ids(i), env.clock, Some("expiry:" + g.entryId), None), None,
              Line("2000:" + g.tenant, taken, Dr), Line("4060", taken, Cr))
  {
    var txn, stamp := ClawBackIsDebit(b, g, i, env);
    e := CappedIsJournaled(b, g.tenant, g.amount, CreditExpiry, stamp);
  }

  /** Accounts, balance rows and entries are only ever added. */
  ghost predicate Grows(b: Books, b': Books) {
    && (forall c | c in b.accounts :: c in b'.accounts && b'.accounts[c] == b.accounts[c])
    && b.balances.Keys <= b'.balances.Keys
  }

  lemma RejectedIffStuck(b: Books, g: Grant, i: nat, env: Environment)
    requires Sweepable(b) && ExpiryReference(g.entryId) !in References(b.journal)
    ensures ExecCapped(b, ClawBack(g, i, env)).outcome.Rejected? <==> Stuck(b, g.tenant)
  {
    TenantCodeIsTenant(g.tenant);
  }

  lemma ExecCappedGrows(b: Books, k: CappedInput)
    ensures Grows(b, ExecCapped(b, k).books)
    ensures !ExecCapped(b, k).outcome.Rejected? ==>
      TenantCode(k.tenant) in ExecCapped(b, k).books.balances && k.target in ExecCapped(b, k).books.balances
  {
    var e := CappedEntry(k, Least(BalanceOf(b, TenantCode(k.tenant)), k.max));
    TwoLines(e.lines[0], e.lines[1]);
  }

  lemma ReferencesAfter(journal: seq<Entry>, e: Entry)
    ensures forall x :: x in References(journal + [e]) <==> x in References(journal) || e.reference == Some(x)
  {
    forall x ensures x in References(journal + [e]) <==> x in References(journal) || e.reference == Some(x) {
      if x in References(journal) { var f :| f in journal && f.reference == Some(x); assert f in journal + [e]; }
      if e.reference == Some(x) { assert e in journal + [e]; }
    }
  }

  lemma CappedOutcome(b: Books, k: CappedInput)
    requires !ExecCapped(b, k).outcome.Rejected?
    ensures BalanceOf(b, TenantCode(k.tenant)) == 0 ==>
      ExecCapped(b, k).outcome.Nothing? && ExecCapped(b, k).books.journal == b.journal
    ensures BalanceOf(b, TenantCode(k.tenant)) != 0 ==> ExecCapped(b, k).outcome.Posted?
    ensures BalanceOf(b, TenantCode(k.tenant)) != 0 ==>
      Extends(b.journal, ExecCapped(b, k).books.journal, k.reference)
  {
    var r := ExecCapped(b, k);
    if r.outcome.Posted? { assert r.books.journal == b.journal + [r.outcome.entry]; }
  }

  /** One entry without an expiry date, under the given reference, has been appended. */
  ghost predicate Extends(journal: seq<Entry>, journal': seq<Entry>, reference: Option<string>) {
    && |journal'| == |journal| + 1 && journal'[..|journal|] == journal
    && journal'[|journal|].reference == reference && journal'[|journal|].expiresAt.None?
  }

  function Lowered(b: Books, g: Grant, c: string): int {
    if c != TenantCode(g.tenant) then BalanceOf(b, c) else LeftOver(BalanceOf(b, c), g.amount)
  }

  lemma ClawBackLowers(b: Books, g: Grant, i: nat, env: Environment, c: string)
    requires Sweepable(b) && g.amount > 0 && IsTenant(c) && !Stuck(b, g.tenant)
    requires !ExecCapped(b, ClawBack(g, i, env)).outcome.Rejected?
    ensures BalanceOf(ExecCapped(b, ClawBack(g, i, env)).books, c) == Lowered(b, g, c)
  {
    SystemCodes(Purchase, CreditExpiry);
    CappedEffect(b, ClawBack(g, i, env));
    CappedOutcome(b, ClawBack(g, i, env));
  }

  ghost predicate HasRows(b: Books, tenant: string) {
    TenantCode(tenant) in b.balances && EXPIRED_REVENUE in b.balances
  }

  /** What a claw-back of a fresh grant does: its balance, its reference, its journal entry. */
  ghost predicate Reclaimed(b: Books, b': Books, g: Grant) {
    && Grows(b, b')
    && (forall c | IsTenant(c) :: BalanceOf(b', c) == Lowered(b, g, c))
    && (if Stuck(b, g.tenant) then b' == b
        else if BalanceOf(b, TenantCode(g.tenant)) == 0 then HasRows(b', g.tenant) && b'.journal == b.journal
        else HasRows(b', g.tenant) && Extends(b.journal, b'.journal, Some(ExpiryReference(g.entryId))))
  }

  lemma ClawBackReclaims(b: Books, g: Grant, i: nat, env: Environment, b': Books)
    requires Sweepable(b) && g.amount > 0 && ExpiryReference(g.entryId) !in References(b.journal)
    requires b' == ExecCapped(b, ClawBack(g, i, env)).books
    ensures Reclaimed(b, b', g)
  {
    var k := ClawBack(g, i, env);
    RejectedIffStuck(b, g, i, env);
    ExecCappedGrows(b, k);
    if !Stuck(b, g.tenant) {
      CappedOutcome(b, k);
      forall c | IsTenant(c) ensures BalanceOf(b', c) == Lowered(b, g, c) { ClawBackLowers(b, g, i, env, c); }
    }
  }

  // ---- A whole sweep ----

  /** The references under which the calls that do not fail post. */
  function CalledReferences(grants: seq<Grant>, env: Environment): set<string> {
    set i | 0 <= i < |grants| && !env.fails(i) :: ExpiryReference(grants[i].entryId)
  }

  /** The grant has its expiry entry, or its tenant has nothing left, or too much. */
  ghost predicate Settled(s: Books, g: Grant) {
    || Stuck(s, g.tenant)
    || (HasRows(s, g.tenant)
        && (ExpiryReference(g.entryId) in References(s.journal) || BalanceOf(s, TenantCode(g.tenant)) == 0))
  }

  ghost predicate TookWanted(b: Books, s: Books, grants: seq<Grant>, env: Environment) {
    forall tenant :: BalanceOf(s, TenantCode(tenant))
                  == LeftOver(BalanceOf(b, TenantCode(tenant)), Wanted(grants, env, tenant))
  }

  /** Only entries without an expiry date, under the references of the calls, have been added. */
  ghost predicate OnlyExpiries(b: Books, s: Books, grants: seq<Grant>, env: Environment) {
    && References(s.journal) <= References(b.journal) + CalledReferences(grants, env)
    && |b.journal| <= |s.journal| && s.journal[..|b.journal|] == b.journal
    && (forall i | |b.journal| <= i < |s.journal| :: s.journal[i].expiresAt.None?)
  }

  ghost predicate CalledAreSettled(s: Books, grants: seq<Grant>, env: Environment) {
    forall i | 0 <= i < |grants| && !env.fails(i) :: Settled(s, grants[i])
  }

  /** Where the sweep stands after the calls for `grants`. */
  ghost predicate Swept(b: Books, s: Books, grants: seq<Grant>, env: Environment) {
    && Sweepable(s) && Grows(b, s) && TookWanted(b, s, grants, env) && OnlyExpiries(b, s, grants, env)
    && CalledAreSettled(s, grants, env)
  }

  lemma ExpiryReferencesDiffer(x: string, y: string)
    ensures ExpiryReference(x) == ExpiryReference(y) <==> x == y
  {
    assert ExpiryReference(x)[7..] == x && ExpiryReference(y)[7..] == y;
  }

  lemma LastGrantIsFresh(b: Books, s: Books, rest: seq<Grant>, g: Grant, env: Environment)
    requires FreshGrants(b, rest + [g]) && References(s.journal) <= References(b.journal) + CalledReferences(rest, env)
    ensures g.amount > 0 && ExpiryReference(g.entryId) !in References(s.journal)
  {
    var grants := rest + [g];
    assert grants[|rest|] == g && g in grants;
    forall i | 0 <= i < |rest| ensures ExpiryReference(rest[i].entryId) != ExpiryReference(g.entryId) {
      assert grants[i] == rest[i];
      ExpiryReferencesDiffer(rest[i].entryId, g.entryId);
    }
  }

  lemma {:induction false} WantedIsPositive(grants: seq<Grant>, env: Environment, tenant: string)
    requires forall g | g in grants :: g.amount > 0
    ensures Wanted(grants, env, tenant) >= 0
    ensures Wanted(grants, env, tenant) > 0 <==> IsCalled(grants, env, tenant)
  {
    if grants != [] {
      var i := |grants| - 1;
      assert grants[i] in grants && forall g | g in grants[..i] :: g in grants;
      WantedIsPositive(grants[..i], env, tenant);
      if j :| 0 <= j < i && grants[..i][j].tenant == tenant && !env.fails(j) { assert grants[j].tenant == tenant; }
      if j :| 0 <= j < |grants| && grants[j].tenant == tenant && !env.fails(j) {
        if j < i { assert grants[..i][j].tenant == tenant; }
      }
    }
  }

  /** The run makes a call for a grant of the tenant that does not fail. */
  ghost predicate IsCalled(grants: seq<Grant>, env: Environment, tenant: string) {
    exists i | 0 <= i < |grants| :: grants[i].tenant == tenant && !env.fails(i)
  }

  lemma WantedOneMore(rest: seq<Grant>, g: Grant, env: Environment, tenant: string)
    ensures Wanted(rest + [g], env, tenant)
         == Wanted(rest, env, tenant) + if g.tenant == tenant && !env.fails(|rest|) then g.amount else 0
  {
    assert (rest + [g])[..|rest|] == rest;
  }

  /** Clawing back twice is clawing back the sum. */
  lemma LeftOverAgain(balance: int, x: int, y: int)
    requires x >= 0 && y >= 0
    ensures LeftOver(LeftOver(balance, x), y) == LeftOver(balance, x + y)
  {}

  lemma StaysSettled(s: Books, s': Books, g: Grant, h: Grant)
    requires Reclaimed(s, s', g) && Settled(s, h) && g.amount > 0
    ensures Settled(s', h)
  {
    TenantCodesDiffer(h.tenant, g.tenant);
    assert BalanceOf(s', TenantCode(h.tenant)) == Lowered(s, g, TenantCode(h.tenant));
    if s'.journal != s.journal {
      assert s'.journal == s.journal + [s'.journal[|s.journal|]];
      ReferencesAfter(s.journal, s'.journal[|s.journal|]);
    }
  }

  lemma BecomesSettled(s: Books, s': Books, g: Grant)
    requires Reclaimed(s, s', g) && g.amount > 0
    ensures Settled(s', g)
  {
    TenantCodesDiffer(g.tenant, g.tenant);
    assert BalanceOf(s', TenantCode(g.tenant)) == Lowered(s, g, TenantCode(g.tenant));
    if s'.journal != s.journal {
      var e := s'.journal[|s.journal|];
      assert s'.journal == s.journal + [e];
      ReferencesAfter(s.journal, e);
    }
  }

  lemma TakesWantedStill(b: Books, s: Books, rest: seq<Grant>, g: Grant, s': Books, env: Environment)
    requires TookWanted(b, s, rest, env) && Reclaimed(s, s', g) && !env.fails(|rest|)
    requires g.amount > 0 && forall h | h in rest :: h.amount > 0
    ensures TookWanted(b, s', rest + [g], env)
  {
    forall tenant ensures BalanceOf(s', TenantCode(tenant))
      == LeftOver(BalanceOf(b, TenantCode(tenant)), Wanted(rest + [g], env, tenant))
    {
      TenantCodesDiffer(tenant, g.tenant);
      WantedOneMore(rest, g, env, tenant);
      WantedIsPositive(rest, env, tenant);
      LeftOverAgain(BalanceOf(b, TenantCode(tenant)), Wanted(rest, env, tenant), g.amount);
      assert BalanceOf(s', TenantCode(tenant)) == Lowered(s, g, TenantCode(tenant));
    }
  }

  lemma CalledOneMore(rest: seq<Grant>, g: Grant, env: Environment)
    ensures CalledReferences(rest + [g], env) == CalledReferences(rest, env)
      + if env.fails(|rest|) then {} else {ExpiryReference(g.entryId)}
  {
    var grants := rest + [g];
    forall r | r in CalledReferences(rest, env) ensures r in CalledReferences(grants, env) {
      var i :| 0 <= i < |rest| && !env.fails(i) && r == ExpiryReference(rest[i].entryId);
      assert grants[i] == rest[i];
    }
    assert grants[|rest|] == g;
  }

  lemma OnlyExpiriesStill(b: Books, s: Books, rest: seq<Grant>, g: Grant, s': Books, env: Environment)
    requires OnlyExpiries(b, s, rest, env) && Reclaimed(s, s', g) && !env.fails(|rest|)
    ensures OnlyExpiries(b, s', rest + [g], env)
  {
    CalledOneMore(rest, g, env);
    if s'.journal != s.journal {
      var e := s'.journal[|s.journal|];
      assert s'.journal == s.journal + [e];
      ReferencesAfter(s.journal, e);
      assert s'.journal[..|b.journal|] == b.journal;
    }
  }

  lemma SettledStill(s: Books, rest: seq<Grant>, g: Grant, s': Books, env: Environment)
    requires CalledAreSettled(s, rest, env) && Reclaimed(s, s', g) && g.amount > 0
    ensures CalledAreSettled(s', rest + [g], env)
  {
    var grants := rest + [g];
    forall i | 0 <= i < |grants| && !env.fails(i) ensures Settled(s', grants[i]) {
      if i < |rest| { StaysSettled(s, s', g, rest[i]); } else { BecomesSettled(s, s', g); }
    }
  }

  lemma GrowsOn(a: Books, b: Books, c: Books)
    requires Grows(a, b) && Grows(b, c)
    ensures Grows(a, c)
  {}

  lemma NothingSwept(b: Books, env: Environment)
    requires Sweepable(b)
    ensures Swept(b, b, [], env)
  {
    assert b.journal[..|b.journal|] == b.journal;
  }

  lemma OneCall(b: Books, s: Books, rest: seq<Grant>, g: Grant, env: Environment)
    requires Swept(b, s, rest, env) && FreshGrants(b, rest + [g]) && !env.fails(|rest|)
    ensures Swept(b, ExecCapped(s, ClawBack(g, |rest|, env)).books, rest + [g], env)
  {
    var s' := ExecCapped(s, ClawBack(g, |rest|, env)).books;
    LastGrantIsFresh(b, s, rest, g, env);
    ClawBackReclaims(s, g, |rest|, env, s');
    ExecKeepsConsistency(s, CappedTxn(ClawBack(g, |rest|, env)));
    assert forall h | h in rest :: h in rest + [g];
    TakesWantedStill(b, s, rest, g, s', env);
    OnlyExpiriesStill(b, s, rest, g, s', env);
    SettledStill(s, rest, g, s', env);
    GrowsOn(b, s, s');
  }

  lemma OneFailure(b: Books, s: Books, rest: seq<Grant>, g: Grant, env: Environment)
    requires Swept(b, s, rest, env) && env.fails(|rest|)
    ensures Swept(b, s, rest + [g], env)
  {
    CalledOneMore(rest, g, env);
    forall tenant ensures Wanted(rest + [g], env, tenant) == Wanted(rest, env, tenant) {
      WantedOneMore(rest, g, env, tenant);
    }
  }

  lemma FreshPrefix(b: Books, grants: seq<Grant>, n: nat)
    requires FreshGrants(b, grants) && n <= |grants|
    ensures FreshGrants(b, grants[..n])
  {}

  lemma {:induction false} SweepProgress(b: Books, grants: seq<Grant>, env: Environment)
    requires Sweepable(b) && FreshGrants(b, grants)
    ensures Swept(b, Sweep(b, grants, env), grants, env)
  {
    if grants == [] {
      NothingSwept(b, env);
    } else {
      var i := |grants| - 1;
      var s := Sweep(b, grants[..i], env);
      assert grants == grants[..i] + [grants[i]];
      FreshPrefix(b, grants, i);
      SweepProgress(b, grants[..i], env);
      if env.fails(i) {
        OneFailure(b, s, grants[..i], grants[i], env);
      } else {
        OneCall(b, s, grants[..i], grants[i], env);
      }
    }
  }

  // ---- What a run leaves ----

  /** Whatever a tenant's balance was and whichever calls fail: a run leaves what is over, and nothing of a debt. */
  lemma RunLeaves(b: Books, now: int, env: Environment, tenant: string)
    requires Sweepable(b) && DistinctIds(b.journal) && DatedArePositive(b)
    ensures var s := Sweep(b, ExpiredGrants(b, now), env);
      && BalanceOf(s, TenantCode(tenant))
         == LeftOver(BalanceOf(b, TenantCode(tenant)), Wanted(ExpiredGrants(b, now), env, tenant))
      && Consistent(s)
  {
    RunGrantsAreFresh(b, now);
    SweepProgress(b, ExpiredGrants(b, now), env);
  }

  /**
   A run takes the smaller of a tenant's balance and its expired grants exactly when a debt comes with a call, and a
   balance too large to read with none.
   */
  lemma TakesTheLesserIff(b: Books, now: int, env: Environment, tenant: string)
    requires Sweepable(b) && DistinctIds(b.journal) && DatedArePositive(b)
    ensures var s, grants := Sweep(b, ExpiredGrants(b, now), env), ExpiredGrants(b, now);
      var before, after := BalanceOf(b, TenantCode(tenant)), BalanceOf(s, TenantCode(tenant));
      before - after == Least(before, Wanted(grants, env, tenant)) <==>
        && (before < 0 ==> IsCalled(grants, env, tenant))
        && (before > MAX_SAFE_INTEGER ==> !IsCalled(grants, env, tenant))
  {
    RunLeaves(b, now, env, tenant);
    RunGrantsAreFresh(b, now);
    WantedIsPositive(ExpiredGrants(b, now), env, tenant);
  }

  /** A run raises a tenant's balance exactly when that is negative and a grant of the tenant is called. */
  lemma RaisesBalanceIff(b: Books, now: int, env: Environment, tenant: string)
    requires Sweepable(b) && DistinctIds(b.journal) && DatedArePositive(b)
    ensures var s, grants := Sweep(b, ExpiredGrants(b, now), env), ExpiredGrants(b, now);
      var before, after := BalanceOf(b, TenantCode(tenant)), BalanceOf(s, TenantCode(tenant));
      after > before <==> before < 0 && IsCalled(grants, env, tenant)
  {
    RunLeaves(b, now, env, tenant);
    RunGrantsAreFresh(b, now);
    WantedIsPositive(ExpiredGrants(b, now), env, tenant);
  }
}
