/** The daily community dividend: a pool split evenly among recently active tenants, once per date. */
module DividendCron {
  import opened Basics
  import opened LedgerBooks
  import opened LedgerInvariants
  import opened Ledger
  import opened LedgerEffects
  import opened CreditExpiryCron

  const SECONDS_PER_DAY: int := 86_400

  /** The match rate as an exact fraction. */
  datatype Rate = Rate(numerator: nat, denominator: nat)

  /** The date twice: as the text used in references and as a day number. */
  datatype Config = Config(date: string, day: int, rate: Rate)

  datatype DividendResult =
    | Completed(pool: int, activeCount: nat, perUser: int, distributed: nat, skippedAlreadyRun: bool,
      errors: seq<string>)
    | Overflowed

  function ReferencePrefix(date: string): string { "dividend:" + date + ":" }

  function DividendReference(date: string, tenant: string): string { ReferencePrefix(date) + tenant }

  predicate IsDividend(e: Entry, date: string) { e.reference.Some? && ReferencePrefix(date) <= e.reference.value }

  predicate AlreadyRan(b: Books, date: string) { exists e | e in b.journal :: IsDividend(e, date) }

  predicate IsPurchase(e: Entry, start: int, end: int) { e.entryType == "purchase" && start <= e.postedAt < end }

  function LiabilityCredits(b: Books, lines: seq<Line>): int {
    if lines == [] then 0 else
      var last := lines[|lines| - 1];
      LiabilityCredits(b, lines[..|lines| - 1]) + if last.side == Cr && IsLiability(b, last.code) then last.amount
        else 0
  }

  function PurchaseSum(b: Books, journal: seq<Entry>, start: int, end: int): int {
    if journal == [] then 0 else
      var last := journal[|journal| - 1];
      PurchaseSum(b, journal[..|journal| - 1], start, end)
      + if IsPurchase(last, start, end) then LiabilityCredits(b, last.lines) else 0
  }

  /** Tenants with a purchase in the window, each once. */
  function ActiveTenants(journal: seq<Entry>, start: int, end: int): (r: seq<string>)
    ensures forall i, j | 0 <= i < j < |r| :: r[i] != r[j]
    ensures forall t :: t in r <==> exists e :: e in journal && IsPurchase(e, start, end) && e.tenant == t
  {
    if journal == [] then [] else
      var rest, last := journal[..|journal| - 1], journal[|journal| - 1];
      var r := ActiveTenants(rest, start, end);
      assert journal == rest + [last];
      if IsPurchase(last, start, end) && last.tenant !in r then r + [last.tenant] else r
  }

  /** Math.round of amount times rate: the nearest integer, halves up. */
  function Multiply(amount: int, rate: Rate): int
    requires rate.denominator > 0
  {
    (2 * amount * rate.numerator + rate.denominator) / (2 * rate.denominator)
  }

  function Pool(b: Books, cfg: Config): int
    requires cfg.rate.denominator > 0
  {
    Multiply(PurchaseSum(b, b.journal, cfg.day * SECONDS_PER_DAY, (cfg.day + 1) * SECONDS_PER_DAY), cfg.rate)
  }

  function Active(b: Books, cfg: Config): seq<string> {
    ActiveTenants(b.journal, (cfg.day - 6) * SECONDS_PER_DAY, (cfg.day + 1) * SECONDS_PER_DAY)
  }

  function Share(pool: int, count: nat): int { if count == 0 then 0 else pool / count }

  function PayTxn(date: string, tenant: string, amount: int, i: nat, env: Environment): Txn {
    CreditTxn(tenant, amount, CommunityDividend,
              Stamp(env.ids(i), env.clock, Some(DividendReference(date, tenant)), None), None)
  }

  /** The books after paying `tenants` in order. */
  function Pay(b: Books, date: string, tenants: seq<string>, amount: int, env: Environment): Books {
    if tenants == [] then b else
      var i := |tenants| - 1;
      var before := Pay(b, date, tenants[..i], amount, env);
      if env.fails(i) then before else Exec(before, PayTxn(date, tenants[i], amount, i, env)).books
  }

  /** Whether a run for `cfg` gets as far as crediting tenants. */
  predicate Pays(b: Books, cfg: Config)
    requires cfg.rate.denominator > 0
  {
    && !AlreadyRan(b, cfg.date)
    && !Overflows(b, cfg)
    && Pool(b, cfg) != 0 && |Active(b, cfg)| > 0 && Share(Pool(b, cfg), |Active(b, cfg)|) != 0
  }

  predicate Overflows(b: Books, cfg: Config)
    requires cfg.rate.denominator > 0
  {
    || PurchaseSum(b, b.journal, cfg.day * SECONDS_PER_DAY, (cfg.day + 1) * SECONDS_PER_DAY) > MAX_SAFE_INTEGER
    || !(-MAX_SAFE_INTEGER <= Pool(b, cfg) <= MAX_SAFE_INTEGER)
  }

  function DividendRun(b: Books, cfg: Config, env: Environment): Books
    requires cfg.rate.denominator > 0
  {
    if Pays(b, cfg) then Pay(b, cfg.date, Active(b, cfg), Share(Pool(b, cfg), |Active(b, cfg)|), env) else b
  }

  /** The tenants whose payment failed or was refused, in order. */
  function Unpaid(b: Books, date: string, tenants: seq<string>, amount: int, env: Environment): seq<string> {
    if tenants == [] then [] else
      var i := |tenants| - 1;
      Unpaid(b, date, tenants[..i], amount, env)
      + if env.fails(i)
            || !Exec(Pay(b, date, tenants[..i], amount, env), PayTxn(date, tenants[i], amount, i, env)).outcome.Posted?
        then [tenants[i]] else []
  }

  lemma OneMoreUnpaid(b: Books, date: string, tenants: seq<string>, amount: int, env: Environment, i: nat)
    requires i < |tenants|
    ensures Unpaid(b, date, tenants[..i + 1], amount, env) == Unpaid(b, date, tenants[..i], amount, env)
      + if env.fails(i)
            || !Exec(Pay(b, date, tenants[..i], amount, env), PayTxn(date, tenants[i], amount, i, env)).outcome.Posted?
        then [tenants[i]] else []
  {
    assert tenants[..i + 1][..i] == tenants[..i];
  }

  lemma OneMoreFailedPayment(b: Books, date: string, tenants: seq<string>, amount: int, env: Environment, i: nat)
    requires i < |tenants| && env.fails(i)
    ensures Pay(b, date, tenants[..i + 1], amount, env) == Pay(b, date, tenants[..i], amount, env)
  {
    assert tenants[..i + 1][..i] == tenants[..i];
  }

  lemma OneMorePayment(b: Books, date: string, tenants: seq<string>, amount: int, env: Environment, i: nat,
                       before: Books, r: Result)
    requires i < |tenants| && !env.fails(i) && before == Pay(b, date, tenants[..i], amount, env)
    requires r == Exec(before, PayTxn(date, tenants[i], amount, i, env))
    ensures r.books == Pay(b, date, tenants[..i + 1], amount, env)
    ensures |r.books.journal| == |before.journal| + if r.outcome.Posted? then 1 else 0
  {
    assert tenants[..i + 1][..i] == tenants[..i];
  }

  /** One tenant's share. */
  method PayTenant(ledger: DrizzleLedger, date: string, tenants: seq<string>, perUser: int, env: Environment, i: nat,
                   ghost b: Books)
    returns (outcome: Outcome)
    requires ledger.Valid() && i < |tenants| && !env.fails(i)
    requires ledger.Contents() == Pay(b, date, tenants[..i], perUser, env)
    modifies ledger
    ensures ledger.Valid()
    ensures ledger.Contents() == Pay(b, date, tenants[..i + 1], perUser, env)
    ensures |ledger.journal| == |old(ledger.journal)| + if outcome.Posted? then 1 else 0
    ensures outcome == Exec(old(ledger.Contents()), PayTxn(date, tenants[i], perUser, i, env)).outcome
  {
    ghost var before := ledger.Contents();
    outcome := ledger.Credit(tenants[i], perUser, CommunityDividend,
      Stamp(env.ids(i), env.clock, Some(DividendReference(date, tenants[i])), None), None);
    OneMorePayment(b, date, tenants, perUser, env, i, before, Result(ledger.Contents(), outcome));
  }

  /** The payout loop: one credit per tenant, failures collected. */
  method PayTenants(ledger: DrizzleLedger, date: string, tenants: seq<string>, perUser: int, env: Environment)
    returns (distributed: nat, errors: seq<string>)
    requires ledger.Valid()
    modifies ledger
    ensures ledger.Valid()
    ensures ledger.Contents() == Pay(old(ledger.Contents()), date, tenants, perUser, env)
    ensures distributed + |errors| == |tenants|
    ensures |ledger.journal| == |old(ledger.journal)| + distributed
    ensures errors == Unpaid(old(ledger.Contents()), date, tenants, perUser, env)
  {
    ghost var b := ledger.Contents();
    distributed, errors := 0, [];
    for i := 0 to |tenants|
      invariant ledger.Valid()
      invariant ledger.Contents() == Pay(b, date, tenants[..i], perUser, env)
      invariant distributed + |errors| == i
      invariant |ledger.journal| == |b.journal| + distributed
      invariant errors == Unpaid(b, date, tenants[..i], perUser, env)
    {
      OneMoreUnpaid(b, date, tenants, perUser, env, i);
      if env.fails(i) {
        OneMoreFailedPayment(b, date, tenants, perUser, env, i);
        errors := errors + [tenants[i]];
        continue;
      }
      var outcome := PayTenant(ledger, date, tenants, perUser, env, i, b);
      match outcome
      case Posted(_) => distributed := distributed + 1;
      case _ => errors := errors + [tenants[i]];
    }
    assert tenants[..|tenants|] == tenants;
  }

  // ---- What a run reports, in literal terms ----

  predicate HasReferencePrefix(e: Entry, prefix: string) { e.reference.Some? && prefix <= e.reference.value }

  /** The nearest integer to total * num / den, halves up. */
  predicate IsNearest(pool: int, total: int, num: int, den: int) {
    2 * total * num - den < 2 * den * pool <= 2 * total * num + den
  }

  predicate IsSafe(amount: int) { -9_007_199_254_740_991 <= amount <= 9_007_199_254_740_991 }

  /** The total, or the integer nearest to its product with the rate, is beyond 2^53 - 1. */
  ghost predicate IsTooLarge(total: int, rate: Rate) {
    total > 9_007_199_254_740_991 || exists pool :: !IsSafe(pool) && IsNearest(pool, total, rate.numerator,
      rate.denominator)
  }

  /** What was credited to liability accounts by purchases posted on the day. */
  function PurchasesOn(b: Books, day: int): int {
    PurchaseSum(b, b.journal, 86_400 * day, 86_400 * (day + 1))
  }

  /** The tenants with a purchase posted from the first day to the last. */
  function BuyersIn(journal: seq<Entry>, first: int, last: int): set<string> {
    set e | e in journal && e.entryType == "purchase" && 86_400 * first <= e.postedAt < 86_400 * (last + 1) :: e.tenant
  }

  lemma MultiplyIsNearest(total: int, rate: Rate)
    requires rate.denominator > 0
    ensures IsNearest(Multiply(total, rate), total, rate.numerator, rate.denominator)
  {
    var doubled := 2 * total * rate.numerator + rate.denominator;
    var step := 2 * rate.denominator;
    assert doubled == step * (doubled / step) + doubled % step;
  }

  lemma {:induction false} MembersOfDistinct(s: seq<string>, members: set<string>)
    requires forall i, j | 0 <= i < j < |s| :: s[i] != s[j]
    requires forall x :: x in s <==> x in members
    ensures |s| == |members|
  {
    if s == [] { assert members == {}; } else {
      var n := |s| - 1;
      forall x ensures x in s[..n] <==> x in members - {s[n]} {
        if x in s[..n] { var i :| 0 <= i < n && s[i] == x; }
        if x in members - {s[n]} { var i :| 0 <= i < |s| && s[i] == x; assert s[..n][i] == x; }
      }
      assert s[n] in s;
      MembersOfDistinct(s[..n], members - {s[n]});
    }
  }

  lemma ActiveAreBuyers(b: Books, cfg: Config)
    ensures forall t :: t in Active(b, cfg) <==> t in BuyersIn(b.journal, cfg.day - 6, cfg.day)
    ensures |Active(b, cfg)| == |BuyersIn(b.journal, cfg.day - 6, cfg.day)|
  {
    var active, buyers := Active(b, cfg), BuyersIn(b.journal, cfg.day - 6, cfg.day);
    forall t ensures t in active <==> t in buyers {
      if t in buyers {
        var e :| e in b.journal && e.entryType == "purchase" && e.tenant == t
          && 86_400 * (cfg.day - 6) <= e.postedAt < 86_400 * (cfg.day + 1);
        assert IsPurchase(e, (cfg.day - 6) * SECONDS_PER_DAY, (cfg.day + 1) * SECONDS_PER_DAY);
      }
    }
    MembersOfDistinct(active, buyers);
  }

  lemma FloorShare(pool: int, count: nat)
    requires count > 0
    ensures (pool / count) * count <= pool < (pool / count + 1) * count
  {
    assert pool == count * (pool / count) + pool % count;
  }

  method RunDividendCron(ledger: DrizzleLedger, cfg: Config, env: Environment) returns (result: DividendResult)
    requires ledger.Valid() && cfg.rate.denominator > 0
    modifies ledger
    ensures ledger.Valid()
    ensures ledger.Contents() == DividendRun(old(ledger.Contents()), cfg, env)
    ensures (result.Completed? && result.skippedAlreadyRun) <==>
      exists e | e in old(ledger.journal) :: HasReferencePrefix(e, "dividend:" + cfg.date + ":")
    ensures result.Completed? && !result.skippedAlreadyRun ==>
      IsNearest(result.pool, PurchasesOn(old(ledger.Contents()), cfg.day), cfg.rate.numerator, cfg.rate.denominator)
    ensures result.Completed? && !result.skippedAlreadyRun ==>
      PurchasesOn(old(ledger.Contents()), cfg.day) <= 9_007_199_254_740_991 && IsSafe(result.pool)
    ensures result.Overflowed? ==> IsTooLarge(PurchasesOn(old(ledger.Contents()), cfg.day), cfg.rate)
    ensures result.Completed? && !result.skippedAlreadyRun ==>
      result.activeCount == |BuyersIn(old(ledger.journal), cfg.day - 6, cfg.day)|
    ensures result.Completed? && !result.skippedAlreadyRun && result.activeCount > 0 ==>
      result.perUser * result.activeCount <= result.pool < (result.perUser + 1) * result.activeCount
    ensures result.Completed? ==> |ledger.journal| == |old(ledger.journal)| + result.distributed
    ensures result.Completed? && result.perUser > 0 ==>
      result.errors
        == Unpaid(old(ledger.Contents()), cfg.date, Active(old(ledger.Contents()), cfg), result.perUser, env)
    ensures result.Completed? && result.perUser > 0 ==> result.distributed * result.perUser <= result.pool
    ensures result.Completed? && result.perUser > 0 && result.errors == [] ==>
      result.pool - result.distributed * result.perUser < result.activeCount
  {
    ghost var b := ledger.Contents();
    MultiplyIsNearest(PurchaseSum(b, b.journal, cfg.day * SECONDS_PER_DAY, (cfg.day + 1) * SECONDS_PER_DAY), cfg.rate);
    ActiveAreBuyers(b, cfg);
    if AlreadyRan(ledger.Contents(), cfg.date) { return Completed(0, 0, 0, 0, true, []); }
    var total := PurchaseSum(ledger.Contents(), ledger.journal, cfg.day * SECONDS_PER_DAY,
      (cfg.day + 1) * SECONDS_PER_DAY);
    if total > MAX_SAFE_INTEGER { return Overflowed; }
    var pool := Multiply(total, cfg.rate);
    if !(-MAX_SAFE_INTEGER <= pool <= MAX_SAFE_INTEGER) { return Overflowed; }
    var tenants := Active(ledger.Contents(), cfg);
    if pool == 0 || |tenants| == 0 { return Completed(pool, |tenants|, 0, 0, false, []); }
    var perUser := pool / |tenants|;
    FloorShare(pool, |tenants|);
    if perUser == 0 { return Completed(pool, |tenants|, perUser, 0, false, []); }
    var distributed, errors := PayTenants(ledger, cfg.date, tenants, perUser, env);
    SharesFitPool(pool, |tenants|, distributed);
    result := Completed(pool, |tenants|, perUser, distributed, false, errors);
  }

  /** Equal floor shares never exceed the pool, and leave less than one unit per tenant. */
  lemma SharesFitPool(pool: int, count: nat, paid: nat)
    requires 0 < count && paid <= count
    ensures pool / count > 0 ==> paid * (pool / count) <= pool
    ensures pool - count * (pool / count) < count
  {
    var share := pool / count;
    assert pool == count * share + pool % count;
    if share > 0 {
      assert (count - paid) * share >= 0;
      assert count * share == paid * share + (count - paid) * share;
    }
  }

  // ---- What a run pays ----

  /** Dividends of the date credited so far. */
  function DividendPaid(journal: seq<Entry>, date: string): int {
    if journal == [] then 0 else
      var last := journal[|journal| - 1];
      DividendPaid(journal[..|journal| - 1], date) + if IsDividend(last, date) then Total(last.lines, Cr) else 0
  }

  /** The tenants' payments: one entry per paid tenant, none for anyone else. */
  ghost predicate PaidSoFar(b: Books, s: Books, date: string, tenants: seq<string>, amount: int) {
    && References(b.journal) <= References(s.journal)
    && DividendPaid(s.journal, date) <= DividendPaid(b.journal, date) + |tenants| * amount
    && (forall t :: BalanceOf(s, TenantCode(t)) == BalanceOf(b, TenantCode(t)) + if Paid(b, s, date, t) then amount
      else 0)
    && (forall t | Paid(b, s, date, t) :: t in tenants)
  }

  /** The tenant's dividend entry was made between `b` and `s`. */
  ghost predicate Paid(b: Books, s: Books, date: string, tenant: string) {
    && DividendReference(date, tenant) in References(s.journal)
    && DividendReference(date, tenant) !in References(b.journal)
  }

  lemma SortedTotal(lines: seq<Line>, side: Side)
    ensures Total(SortLines(lines), side) == Total(lines, side)
  {
    SortLinesIsFaithful(lines);
  }

  lemma PaymentTotal(lines: seq<Line>, amount: int)
    requires |lines| == 2 && lines[0].side == Dr && lines[1].side == Cr && lines[1].amount == amount
    ensures Total(SortLines(lines), Cr) == amount
  {
    SortedTotal(lines, Cr);
    TwoLines(lines[0], lines[1]);
    assert lines == [lines[0], lines[1]];
  }

  lemma PaymentEntry(s: Books, date: string, tenant: string, amount: int, i: nat, env: Environment) returns (e: Entry)
    requires Consistent(s) && Exec(s, PayTxn(date, tenant, amount, i, env)).outcome.Posted?
    ensures amount > 0 && DividendReference(date, tenant) !in References(s.journal)
    ensures Exec(s, PayTxn(date, tenant, amount, i, env)).books.journal == s.journal + [e]
    ensures e.reference == Some(DividendReference(date, tenant)) && Total(e.lines, Cr) == amount
    ensures forall t :: BalanceOf(Exec(s, PayTxn(date, tenant, amount, i, env)).books, TenantCode(t))
                     == BalanceOf(s, TenantCode(t)) + if t == tenant then amount else 0
  {
    var p := PayTxn(date, tenant, amount, i, env).post;
    e := PostedEntry(p);
    assert p.lines[0] in p.lines;
    PostRecords(s, p);
    PaymentTotal(p.lines, amount);
    SystemCodes(CommunityDividend, Refund);
    forall t
      ensures BalanceOf(ExecPost(s, p).books, TenantCode(t)) == BalanceOf(s, TenantCode(t)) +
        if t == tenant then amount else 0
    {
      TenantCodesDiffer(t, tenant);
      SimplePostEffect(s, p, p.lines[1], p.lines[0], TenantCode(t));
    }
  }

  lemma DividendReferencesDiffer(date: string, x: string, y: string)
    ensures DividendReference(date, x) == DividendReference(date, y) <==> x == y
    ensures ReferencePrefix(date) <= DividendReference(date, x)
  {
    var n := |ReferencePrefix(date)|;
    assert DividendReference(date, x)[n..] == x && DividendReference(date, y)[n..] == y;
  }

  /** One more tenant of the list, whose payment goes through, fails or is refused. */
  lemma PayOneMore(b: Books, s: Books, date: string, rest: seq<string>, tenant: string, amount: int, i: nat,
                   env: Environment)
    requires Consistent(s) && PaidSoFar(b, s, date, rest, amount) && amount > 0
    ensures var s' := if env.fails(i) then s else Exec(s, PayTxn(date, tenant, amount, i, env)).books;
      Consistent(s') && PaidSoFar(b, s', date, rest + [tenant], amount)
  {
    ExecKeepsConsistency(s, PayTxn(date, tenant, amount, i, env));
    if !env.fails(i) && Exec(s, PayTxn(date, tenant, amount, i, env)).outcome.Posted? {
      OnePayment(b, s, date, rest, tenant, amount, i, env);
    } else {
      NoPayment(b, s, date, rest, tenant, amount);
    }
  }

  lemma NoPayment(b: Books, s: Books, date: string, rest: seq<string>, tenant: string, amount: int)
    requires PaidSoFar(b, s, date, rest, amount) && amount > 0
    ensures PaidSoFar(b, s, date, rest + [tenant], amount)
  {
    assert |rest + [tenant]| * amount == |rest| * amount + amount;
  }

  lemma {:induction false} PayMakesOnePaymentEach(b: Books, date: string, tenants: seq<string>, amount: int,
                                                  env: Environment)
    requires Consistent(b) && amount > 0
    ensures Consistent(Pay(b, date, tenants, amount, env))
    ensures PaidSoFar(b, Pay(b, date, tenants, amount, env), date, tenants, amount)
  {
    if tenants != [] {
      var i := |tenants| - 1;
      PayMakesOnePaymentEach(b, date, tenants[..i], amount, env);
      PayOneMore(b, Pay(b, date, tenants[..i], amount, env), date, tenants[..i], tenants[i], amount, i, env);
      assert tenants == tenants[..i] + [tenants[i]];
    }
  }

  lemma ReferencesAfterPayment(b: Books, s: Books, s': Books, date: string, tenant: string, e: Entry)
    requires s'.journal == s.journal + [e] && e.reference == Some(DividendReference(date, tenant))
    requires DividendReference(date, tenant) !in References(s.journal) && References(b.journal) <= References(s.journal)
    ensures References(s.journal) <= References(s'.journal)
    ensures forall t :: Paid(b, s', date, t) <==> Paid(b, s, date, t) || t == tenant
    ensures !Paid(b, s, date, tenant)
  {
    ReferencesAfter(s.journal, e);
    forall t ensures Paid(b, s', date, t) <==> Paid(b, s, date, t) || t == tenant {
      DividendReferencesDiffer(date, t, tenant);
    }
  }

  lemma OnePayment(b: Books, s: Books, date: string, rest: seq<string>, tenant: string, amount: int, i: nat,
                   env: Environment)
    requires Consistent(s) && amount > 0 && PaidSoFar(b, s, date, rest, amount)
    requires Exec(s, PayTxn(date, tenant, amount, i, env)).outcome.Posted?
    ensures PaidSoFar(b, Exec(s, PayTxn(date, tenant, amount, i, env)).books, date, rest + [tenant], amount)
  {
    var s' := Exec(s, PayTxn(date, tenant, amount, i, env)).books;
    var e := PaymentEntry(s, date, tenant, amount, i, env);
    ExtendPaid(b, s, s', date, rest, tenant, amount, e);
  }

  lemma ExtendPaid(b: Books, s: Books, s': Books, date: string, rest: seq<string>, tenant: string, amount: int,
                   e: Entry)
    requires PaidSoFar(b, s, date, rest, amount) && amount > 0
    requires s'.journal == s.journal + [e] && e.reference == Some(DividendReference(date, tenant))
    requires Total(e.lines, Cr) == amount
    requires DividendReference(date, tenant) !in References(s.journal)
    requires forall t :: BalanceOf(s', TenantCode(t)) == BalanceOf(s, TenantCode(t)) + if t == tenant then amount else 0
    ensures PaidSoFar(b, s', date, rest + [tenant], amount)
  {
    ReferencesAfterPayment(b, s, s', date, tenant, e);
    DividendReferencesDiffer(date, tenant, tenant);
    OneMorePaid(s.journal, e, date, rest, tenant, amount);
  }

  lemma OneMorePaid(journal: seq<Entry>, e: Entry, date: string, rest: seq<string>, tenant: string, amount: int)
    requires IsDividend(e, date) && Total(e.lines, Cr) == amount
    ensures DividendPaid(journal + [e], date) == DividendPaid(journal, date) + amount
    ensures |rest + [tenant]| * amount == |rest| * amount + amount
  {
    assert (journal + [e])[..|journal|] == journal;
  }

  /** The closed form of a paying run: every tenant gets the share or nothing, all together at most the pool. */
  lemma RunPaysEachAtMostOnce(b: Books, cfg: Config, env: Environment, t: string)
    requires Consistent(b) && cfg.rate.denominator > 0 && Pays(b, cfg) && Pool(b, cfg) > 0
    ensures var s := DividendRun(b, cfg, env); var share := Share(Pool(b, cfg), |Active(b, cfg)|);
      && BalanceOf(s, TenantCode(t)) == BalanceOf(b, TenantCode(t)) + (if Paid(b, s, cfg.date, t) then share else 0)
      && (Paid(b, s, cfg.date, t) ==> t in Active(b, cfg))
      && DividendPaid(s.journal, cfg.date) <= DividendPaid(b.journal, cfg.date) + Pool(b, cfg)
  {
    var tenants := Active(b, cfg);
    var share := Share(Pool(b, cfg), |tenants|);
    SharesFitPool(Pool(b, cfg), |tenants|, |tenants|);
    assert share > 0;
    PayMakesOnePaymentEach(b, cfg.date, tenants, share, env);
  }

  // ---- All runs for one date ----

  datatype Activity = Dividend(cfg: Config, env: Environment) | Other(txn: Txn)

  /** Dividend runs for `date`, and other transactions that stay clear of the date's references. */
  ghost predicate Concerns(date: string, a: Activity) {
    match a
    case Dividend(cfg, _) => cfg.date == date && cfg.rate.denominator > 0
    case Other(t) =>
      var reference := match t case PostTxn(p) => p.reference case CappedTxn(k) => k.reference;
      reference.Some? ==> !(ReferencePrefix(date) <= reference.value)
  }

  ghost function After(b: Books, activities: seq<Activity>, date: string): Books
    requires forall a | a in activities :: Concerns(date, a)
  {
    if activities == [] then b else
      var last := activities[|activities| - 1];
      assert Concerns(date, last) && forall a | a in activities[..|activities| - 1] :: a in activities;
      var s := After(b, activities[..|activities| - 1], date);
      match last
      case Dividend(cfg, env) => DividendRun(s, cfg, env)
      case Other(t) => Exec(s, t).books
  }

  lemma {:induction false} NothingPaidBeforeTheFirstRun(journal: seq<Entry>, date: string)
    requires forall e | e in journal :: !IsDividend(e, date)
    ensures DividendPaid(journal, date) == 0
  {
    if journal != [] {
      assert journal[|journal| - 1] in journal;
      NothingPaidBeforeTheFirstRun(journal[..|journal| - 1], date);
    }
  }

  lemma OtherTxnPaysNoDividend(b: Books, t: Txn, date: string)
    requires Concerns(date, Other(t))
    ensures DividendPaid(Exec(b, t).books.journal, date) == DividendPaid(b.journal, date)
    ensures AlreadyRan(Exec(b, t).books, date) <==> AlreadyRan(b, date)
  {
    match t {
      case PostTxn(p) => if Exec(b, t).outcome.Posted? { PostRecords(b, p); }
      case CappedTxn(k) =>
    }
    var j' := Exec(b, t).books.journal;
    if j' != b.journal {
      var e := j'[|b.journal|];
      assert j' == b.journal + [e];
      assert j'[..|j'| - 1] == b.journal;
      if AlreadyRan(b, date) { var f :| f in b.journal && IsDividend(f, date); assert f in j'; }
    }
  }

  lemma {:induction false} NothingIsPaidToNobody(b: Books, date: string, tenants: seq<string>, amount: int,
                                                 env: Environment)
    requires amount <= 0
    ensures Pay(b, date, tenants, amount, env) == b
  {
    if tenants != [] {
      var i := |tenants| - 1;
      NothingIsPaidToNobody(b, date, tenants[..i], amount, env);
      var p := PayTxn(date, tenants[i], amount, i, env).post;
      assert p.lines[0] in p.lines;
    }
  }

  lemma RunPaysItsPool(b: Books, cfg: Config, env: Environment)
    requires Consistent(b) && cfg.rate.denominator > 0
    ensures Consistent(DividendRun(b, cfg, env))
    ensures !AlreadyRan(b, cfg.date) ==>
      DividendRun(b, cfg, env) == b || DividendPaid(DividendRun(b, cfg, env).journal, cfg.date) <= Pool(b, cfg)
    ensures AlreadyRan(b, cfg.date) ==> DividendRun(b, cfg, env) == b
  {
    if Pays(b, cfg) {
      var tenants := Active(b, cfg);
      var share := Share(Pool(b, cfg), |tenants|);
      if share > 0 {
        RunPaysEachAtMostOnce(b, cfg, env, "");
        PayMakesOnePaymentEach(b, cfg.date, tenants, share, env);
        NothingPaidBeforeTheFirstRun(b.journal, cfg.date);
      } else {
        NothingIsPaidToNobody(b, cfg.date, tenants, share, env);
      }
    }
  }

  /** The k-th activity is a run whose pool covers everything paid for the date. */
  ghost predicate CoveredByRun(b: Books, activities: seq<Activity>, date: string, k: nat, paid: int)
    requires forall a | a in activities :: Concerns(date, a)
  {
    && k < |activities| && activities[k].Dividend?
    && (assert Concerns(date, activities[k]) && forall a | a in activities[..k] :: a in activities;
        paid <= Pool(After(b, activities[..k], date), activities[k].cfg))
  }

  lemma CoverOfLonger(b: Books, activities: seq<Activity>, date: string, n: nat, paid: int)
    requires n <= |activities| && forall a | a in activities :: Concerns(date, a)
    requires assert forall a | a in activities[..n] :: a in activities;
      exists k :: CoveredByRun(b, activities[..n], date, k, paid)
    ensures exists k :: CoveredByRun(b, activities, date, k, paid)
  {
    assert forall a | a in activities[..n] :: a in activities;
    var k: nat :| CoveredByRun(b, activities[..n], date, k, paid);
    assert activities[..n][..k] == activities[..k];
    assert CoveredByRun(b, activities, date, k, paid);
  }

  /** Either nothing of the date has been paid, or all that has is covered by one run's pool. */
  ghost predicate OnePool(b: Books, activities: seq<Activity>, date: string)
    requires forall a | a in activities :: Concerns(date, a)
  {
    var s := After(b, activities, date);
    && (AlreadyRan(s, date) ==> exists k :: CoveredByRun(b, activities, date, k, DividendPaid(s.journal, date)))
    && (!AlreadyRan(s, date) ==> DividendPaid(s.journal, date) == 0)
  }

  lemma OneMoreActivity(b: Books, activities: seq<Activity>, date: string, rest: seq<Activity>, last: Activity)
    requires activities == rest + [last] && forall a | a in activities :: Concerns(date, a)
    requires Concerns(date, last) && forall a | a in rest :: Concerns(date, a)
    requires Consistent(After(b, rest, date)) && OnePool(b, rest, date)
    ensures Consistent(After(b, activities, date)) && OnePool(b, activities, date)
  {
    var s, s' := After(b, rest, date), After(b, activities, date);
    assert activities[..|rest|] == rest;
    match last {
      case Other(t) =>
        OtherTxnPaysNoDividend(s, t, date);
        ExecKeepsConsistency(s, t);
      case Dividend(cfg, env) =>
        RunPaysItsPool(s, cfg, env);
    }
    if AlreadyRan(s', date) {
      if AlreadyRan(s, date) {
        CoverOfLonger(b, activities, date, |rest|, DividendPaid(s.journal, date));
      } else {
        assert CoveredByRun(b, activities, date, |rest|, DividendPaid(s'.journal, date));
      }
    } else {
      NothingPaidBeforeTheFirstRun(s'.journal, date);
    }
  }

  /** All the runs for a date together pay at most one run's pool. */
  lemma {:induction false} OneDateOnePool(b: Books, activities: seq<Activity>, date: string)
    requires Consistent(b) && !AlreadyRan(b, date)
    requires forall a | a in activities :: Concerns(date, a)
    ensures Consistent(After(b, activities, date)) && OnePool(b, activities, date)
  {
    if activities == [] {
      NothingPaidBeforeTheFirstRun(b.journal, date);
    } else {
      var n := |activities| - 1;
      assert activities == activities[..n] + [activities[n]];
      OneDateOnePool(b, activities[..n], date);
      OneMoreActivity(b, activities, date, activities[..n], activities[n]);
    }
  }

  /** However many runs a date has, a tenant gets at most one dividend for it. */
  lemma OneDividendPerTenant(b: Books, activities: seq<Activity>, date: string, tenant: string, i: nat, j: nat)
    requires Consistent(b) && !AlreadyRan(b, date)
    requires forall a | a in activities :: Concerns(date, a)
    requires var journal := After(b, activities, date).journal;
      && i < |journal| && journal[i].reference == Some(DividendReference(date, tenant))
      && j < |journal| && journal[j].reference == Some(DividendReference(date, tenant))
    ensures i == j
  {
    OneDateOnePool(b, activities, date);
  }

  // ---- Who is paid in the end ----

  /** The tenant has its dividend for the date. */
  ghost predicate HasDividend(b: Books, date: string, tenant: string) {
    DividendReference(date, tenant) in References(b.journal)
  }

  /** Whether the run comes to the tenant and its payment does not fail. */
  ghost predicate Reached(tenants: seq<string>, env: Environment, tenant: string) {
    exists i | 0 <= i < |tenants| :: tenants[i] == tenant && !env.fails(i)
  }

  lemma DividendMeansRan(b: Books, date: string, tenant: string)
    requires HasDividend(b, date, tenant)
    ensures AlreadyRan(b, date)
  {
    DividendReferencesDiffer(date, tenant, tenant);
    var e :| e in b.journal && e.reference == Some(DividendReference(date, tenant));
    assert IsDividend(e, date);
  }

  /** A payment goes through exactly if it is positive, the first to the tenant, and the dividend account exists. */
  lemma PaymentAcceptedIff(s: Books, date: string, tenant: string, amount: int, i: nat, env: Environment)
    ensures Exec(s, PayTxn(date, tenant, amount, i, env)).outcome.Posted?
       <==> amount > 0 && !HasDividend(s, date, tenant) && "5060" in s.accounts
  {
    var p := PayTxn(date, tenant, amount, i, env).post;
    SystemCodes(CommunityDividend, Refund);
    CreditAcceptedIff(s, p, p.lines[0], p.lines[1]);
  }

  /** An unchecked transfer of `amount` from a system account to a tenant. */
  lemma CreditAcceptedIff(s: Books, p: PostInput, system: Line, tenant: Line)
    requires p.lines == [system, tenant] && p.check.None? && IsTenant(tenant.code) && !IsTenant(system.code)
    requires system.side == Dr && tenant.side == Cr && system.amount == tenant.amount
    ensures ExecPost(s, p).outcome.Posted? <==> tenant.amount > 0 && !Taken(s, p.reference) && system.code in s.accounts
  {
    TwoLines(system, tenant);
    assert p.lines[0] in p.lines;
    if tenant.amount > 0 { TwoLinesAreValid(p.lines); }
    AcceptedIff(s, p);
  }

  /** A payment that goes through gives the tenant its dividend, and no other tenant. */
  lemma PaymentGivesDividend(s: Books, date: string, tenant: string, amount: int, i: nat, env: Environment, t: string)
    ensures var s' := Exec(s, PayTxn(date, tenant, amount, i, env)).books;
      && (HasDividend(s', date, t)
          <==> HasDividend(s, date, t) || (t == tenant && amount > 0 && "5060" in s.accounts))
      && ("5060" in s'.accounts <==> "5060" in s.accounts)
  {
    var p := PayTxn(date, tenant, amount, i, env).post;
    PaymentAcceptedIff(s, date, tenant, amount, i, env);
    if ExecPost(s, p).outcome.Posted? {
      PostRecords(s, p);
      ReferencesAfter(s.journal, PostedEntry(p));
      DividendReferencesDiffer(date, t, tenant);
    }
  }

  /** Who has a dividend after a round of payments. */
  lemma {:induction false} PayReachesWhoDoesNotFail(b: Books, date: string, tenants: seq<string>, amount: int,
                                                    env: Environment, t: string)
    requires amount > 0
    ensures var s := Pay(b, date, tenants, amount, env);
      && (HasDividend(s, date, t) <==> HasDividend(b, date, t) || ("5060" in b.accounts && Reached(tenants, env, t)))
      && ("5060" in s.accounts <==> "5060" in b.accounts)
  {
    if tenants != [] {
      var i := |tenants| - 1;
      PayReachesWhoDoesNotFail(b, date, tenants[..i], amount, env, t);
      if !env.fails(i) {
        PaymentGivesDividend(Pay(b, date, tenants[..i], amount, env), date, tenants[i], amount, i, env, t);
      }
      OneMoreReached(tenants, env, t);
    }
  }

  lemma OneMoreReached(tenants: seq<string>, env: Environment, t: string)
    requires tenants != []
    ensures var i := |tenants| - 1;
      Reached(tenants, env, t) <==> Reached(tenants[..i], env, t) || (tenants[i] == t && !env.fails(i))
  {
    var i := |tenants| - 1;
    if Reached(tenants[..i], env, t) {
      var j :| 0 <= j < i && tenants[..i][j] == t && !env.fails(j);
      assert tenants[j] == t;
    }
    if Reached(tenants, env, t) {
      var j :| 0 <= j < |tenants| && tenants[j] == t && !env.fails(j);
      if j < i { assert tenants[..i][j] == t; }
    }
  }

  /** Payments are made by this run: it gets that far, the share is positive, and the dividend account exists. */
  ghost predicate CanPay(b: Books, cfg: Config)
    requires cfg.rate.denominator > 0
  {
    Pays(b, cfg) && Share(Pool(b, cfg), |Active(b, cfg)|) > 0 && "5060" in b.accounts
  }

  /** In a run that pays, exactly the active tenants whose payment does not fail get their dividend. */
  lemma RunPaysExactly(b: Books, cfg: Config, env: Environment, t: string)
    requires cfg.rate.denominator > 0 && !AlreadyRan(b, cfg.date)
    ensures HasDividend(DividendRun(b, cfg, env), cfg.date, t) <==> CanPay(b, cfg) && Reached(Active(b, cfg), env, t)
  {
    var share := Share(Pool(b, cfg), |Active(b, cfg)|);
    if HasDividend(b, cfg.date, t) { DividendMeansRan(b, cfg.date, t); }
    if Pays(b, cfg) {
      if share > 0 {
        PayReachesWhoDoesNotFail(b, cfg.date, Active(b, cfg), share, env, t);
      } else {
        NothingIsPaidToNobody(b, cfg.date, Active(b, cfg), share, env);
      }
    }
  }

  /** For the i-th active tenant: paid exactly if its own payment does not fail. */
  lemma TenantPaidIff(b: Books, cfg: Config, env: Environment, i: nat)
    requires cfg.rate.denominator > 0 && CanPay(b, cfg) && i < |Active(b, cfg)|
    ensures HasDividend(DividendRun(b, cfg, env), cfg.date, Active(b, cfg)[i]) <==> !env.fails(i)
  {
    RunPaysExactly(b, cfg, env, Active(b, cfg)[i]);
  }

  lemma RanMeansDividend(b: Books, date: string) returns (tenant: string)
    requires AlreadyRan(b, date)
    ensures HasDividend(b, date, tenant)
  {
    var e :| e in b.journal && IsDividend(e, date);
    tenant := e.reference.value[|ReferencePrefix(date)|..];
    assert DividendReference(date, tenant) == e.reference.value;
  }

  lemma OtherTxnKeepsDividends(b: Books, txn: Txn, date: string, t: string)
    requires Concerns(date, Other(txn))
    ensures HasDividend(Exec(b, txn).books, date, t) <==> HasDividend(b, date, t)
  {
    DividendReferencesDiffer(date, t, t);
    match txn {
      case PostTxn(p) => if Exec(b, txn).outcome.Posted? { PostRecords(b, p); }
      case CappedTxn(k) =>
    }
    var journal := Exec(b, txn).books.journal;
    if journal != b.journal {
      ReferencesAfter(b.journal, journal[|b.journal|]);
      assert journal == b.journal + [journal[|b.journal|]];
    }
  }

  /** The books just before the k-th activity. */
  ghost function BooksBefore(b: Books, activities: seq<Activity>, date: string, k: nat): Books
    requires k <= |activities| && forall a | a in activities :: Concerns(date, a)
  {
    assert forall a | a in activities[..k] :: a in activities;
    After(b, activities[..k], date)
  }

  /** The k-th activity is the first run for the date in which a payment goes through. */
  ghost predicate IsFirstPayment(b: Books, activities: seq<Activity>, date: string, k: nat)
    requires forall a | a in activities :: Concerns(date, a)
  {
    && k < |activities| && activities[k].Dividend?
    && (var s := BooksBefore(b, activities, date, k);
        assert Concerns(date, activities[k]);
        && !AlreadyRan(s, date) && CanPay(s, activities[k].cfg)
        && exists t :: Reached(Active(s, activities[k].cfg), activities[k].env, t))
  }

  /** Who is paid by the k-th activity, a run. */
  ghost predicate PaidBy(b: Books, activities: seq<Activity>, date: string, k: nat, t: string)
    requires k < |activities| && activities[k].Dividend? && forall a | a in activities :: Concerns(date, a)
  {
    Reached(Active(BooksBefore(b, activities, date, k), activities[k].cfg), activities[k].env, t)
  }

  function AfterOne(s: Books, a: Activity): Books
    requires a.Dividend? ==> a.cfg.rate.denominator > 0
  {
    match a
    case Dividend(cfg, env) => DividendRun(s, cfg, env)
    case Other(txn) => Exec(s, txn).books
  }

  lemma AfterOneMore(b: Books, activities: seq<Activity>, date: string, n: nat)
    requires n < |activities| && forall a | a in activities :: Concerns(date, a)
    ensures Concerns(date, activities[n])
    ensures BooksBefore(b, activities, date, n + 1) == AfterOne(BooksBefore(b, activities, date, n), activities[n])
  {
    assert forall a | a in activities[..n + 1] :: a in activities;
    assert activities[..n + 1][..n] == activities[..n];
  }

  /** Once a dividend of the date has been paid, nothing changes who has one. */
  lemma NothingChangesDividends(s: Books, a: Activity, date: string, t: string)
    requires Concerns(date, a) && AlreadyRan(s, date)
    ensures AlreadyRan(AfterOne(s, a), date)
    ensures HasDividend(AfterOne(s, a), date, t) <==> HasDividend(s, date, t)
  {
    if a.Other? {
      OtherTxnPaysNoDividend(s, a.txn, date);
      OtherTxnKeepsDividends(s, a.txn, date, t);
    }
  }

  lemma FirstPaymentPays(b: Books, activities: seq<Activity>, date: string, k: nat, t: string)
    requires k < |activities| && forall a | a in activities :: Concerns(date, a)
    requires IsFirstPayment(b, activities, date, k)
    ensures AlreadyRan(BooksBefore(b, activities, date, k + 1), date)
    ensures HasDividend(BooksBefore(b, activities, date, k + 1), date, t) <==> PaidBy(b, activities, date, k, t)
  {
    var s, run := BooksBefore(b, activities, date, k), activities[k];
    AfterOneMore(b, activities, date, k);
    var paid :| Reached(Active(s, run.cfg), run.env, paid);
    RunPaysExactly(s, run.cfg, run.env, paid);
    DividendMeansRan(AfterOne(s, run), date, paid);
    RunPaysExactly(s, run.cfg, run.env, t);
  }

  lemma NextKeepsDividends(b: Books, activities: seq<Activity>, date: string, n: nat, t: string)
    requires n < |activities| && forall a | a in activities :: Concerns(date, a)
    requires AlreadyRan(BooksBefore(b, activities, date, n), date)
    ensures AlreadyRan(BooksBefore(b, activities, date, n + 1), date)
    ensures HasDividend(BooksBefore(b, activities, date, n + 1), date, t)
       <==> HasDividend(BooksBefore(b, activities, date, n), date, t)
  {
    AfterOneMore(b, activities, date, n);
    NothingChangesDividends(BooksBefore(b, activities, date, n), activities[n], date, t);
  }

  /** The first run in which a payment goes through decides for good who has a dividend of the date. */
  lemma {:induction false} FirstPaymentDecides(b: Books, activities: seq<Activity>, date: string, k: nat, n: nat,
                                               t: string)
    requires k < n <= |activities| && forall a | a in activities :: Concerns(date, a)
    requires IsFirstPayment(b, activities, date, k)
    ensures AlreadyRan(BooksBefore(b, activities, date, n), date)
    ensures HasDividend(BooksBefore(b, activities, date, n), date, t) <==> PaidBy(b, activities, date, k, t)
  {
    if n == k + 1 {
      FirstPaymentPays(b, activities, date, k, t);
    } else {
      FirstPaymentDecides(b, activities, date, k, n - 1, t);
      NextKeepsDividends(b, activities, date, n - 1, t);
    }
  }

  lemma OneMoreRun(s: Books, cfg: Config, env: Environment, date: string)
    requires cfg.date == date && cfg.rate.denominator > 0 && !AlreadyRan(s, date)
    requires AlreadyRan(DividendRun(s, cfg, env), date)
    ensures CanPay(s, cfg) && exists t :: Reached(Active(s, cfg), env, t)
  {
    var t := RanMeansDividend(DividendRun(s, cfg, env), date);
    RunPaysExactly(s, cfg, env, t);
  }

  /** Without such a run there is no dividend of the date at all. */
  lemma {:induction false} NoPaymentNoDividend(b: Books, activities: seq<Activity>, date: string, n: nat)
    requires n <= |activities| && !AlreadyRan(b, date) && forall a | a in activities :: Concerns(date, a)
    requires AlreadyRan(BooksBefore(b, activities, date, n), date)
    ensures exists k | 0 <= k < n :: IsFirstPayment(b, activities, date, k)
  {
    if n > 0 {
      var s := BooksBefore(b, activities, date, n - 1);
      AfterOneMore(b, activities, date, n - 1);
      if AlreadyRan(s, date) {
        NoPaymentNoDividend(b, activities, date, n - 1);
      } else {
        match activities[n - 1]
        case Other(txn) => OtherTxnPaysNoDividend(s, txn, date);
        case Dividend(cfg, env) =>
          OneMoreRun(s, cfg, env, date);
          assert IsFirstPayment(b, activities, date, n - 1);
      }
    }
  }

  /** A tenant ends up with a dividend for the date exactly if the first run in which a payment went through paid it. */
  lemma DividendIffFirstPaymentPaid(b: Books, activities: seq<Activity>, date: string, t: string)
    requires !AlreadyRan(b, date) && forall a | a in activities :: Concerns(date, a)
    ensures HasDividend(After(b, activities, date), date, t)
       <==> exists k :: IsFirstPayment(b, activities, date, k) && PaidBy(b, activities, date, k, t)
  {
    var n := |activities|;
    assert activities[..n] == activities;
    if HasDividend(After(b, activities, date), date, t) {
      DividendMeansRan(After(b, activities, date), date, t);
      NoPaymentNoDividend(b, activities, date, n);
      var k :| 0 <= k < n && IsFirstPayment(b, activities, date, k);
      FirstPaymentDecides(b, activities, date, k, n, t);
    }
    if k: nat :| IsFirstPayment(b, activities, date, k) && PaidBy(b, activities, date, k, t) {
      FirstPaymentDecides(b, activities, date, k, n, t);
    }
  }

  /** Every active tenant is paid exactly if no payment of the run fails. */
  lemma AllPaidIff(b: Books, cfg: Config, env: Environment)
    requires cfg.rate.denominator > 0 && CanPay(b, cfg)
    ensures (forall i | 0 <= i < |Active(b, cfg)| :: HasDividend(DividendRun(b, cfg, env), cfg.date, Active(b, cfg)[i]))
       <==> (forall i | 0 <= i < |Active(b, cfg)| :: !env.fails(i))
  {
    forall i | 0 <= i < |Active(b, cfg)|
      ensures HasDividend(DividendRun(b, cfg, env), cfg.date, Active(b, cfg)[i]) <==> !env.fails(i)
    {
      TenantPaidIff(b, cfg, env, i);
    }
  }

  // ---- Which calls count for the pool ----

  lemma {:induction false} LiabilityCreditsAreStable(b: Books, s: Books, lines: seq<Line>)
    requires Grows(b, s) && Codes(lines) <= b.accounts.Keys
    ensures LiabilityCredits(s, lines) == LiabilityCredits(b, lines)
  {
    if lines != [] {
      var rest := lines[..|lines| - 1];
      assert lines[|lines| - 1] in lines && Codes(rest) <= Codes(lines);
      LiabilityCreditsAreStable(b, s, rest);
    }
  }

  lemma {:induction false} PurchaseSumIsStable(b: Books, s: Books, journal: seq<Entry>, start: int, end: int)
    requires Grows(b, s) && forall e | e in journal :: Codes(e.lines) <= b.accounts.Keys
    ensures PurchaseSum(s, journal, start, end) == PurchaseSum(b, journal, start, end)
  {
    if journal != [] {
      assert journal[|journal| - 1] in journal;
      PurchaseSumIsStable(b, s, journal[..|journal| - 1], start, end);
      LiabilityCreditsAreStable(b, s, journal[|journal| - 1].lines);
    }
  }

  lemma PurchaseSumOfOneMore(b: Books, s: Books, e: Entry, start: int, end: int)
    requires Consistent(b) && Grows(b, s) && s.journal == b.journal + [e]
    ensures PurchaseSum(s, s.journal, start, end)
         == PurchaseSum(b, b.journal, start, end)
            + if IsPurchase(e, start, end) then LiabilityCredits(s, e.lines) else 0
  {
    assert s.journal[..|s.journal| - 1] == b.journal;
    PurchaseSumIsStable(b, s, b.journal, start, end);
  }

  lemma BuyersOfOneMore(journal: seq<Entry>, e: Entry, first: int, last: int)
    ensures BuyersIn(journal + [e], first, last) == BuyersIn(journal, first, last)
      + if e.entryType == "purchase" && 86_400 * first <= e.postedAt < 86_400 * (last + 1) then {e.tenant} else {}
  {
    assert forall f :: f in journal + [e] <==> f in journal || f == e;
  }

  lemma CreditGrows(b: Books, tenant: string, amount: int, kind: CreditType, stamp: Stamp, expiresAt: Option<int>)
    returns (e: Entry)
    requires Consistent(b) && Exec(b, CreditTxn(tenant, amount, kind, stamp, expiresAt)).outcome.Posted?
    ensures var s := Exec(b, CreditTxn(tenant, amount, kind, stamp, expiresAt)).books;
      && Grows(b, s) && s.journal == b.journal + [e] && LiabilityCredits(s, e.lines) == amount
      && e.entryType == kind.Name() && e.postedAt == stamp.now && e.tenant == tenant
  {
    var p := CreditTxn(tenant, amount, kind, stamp, expiresAt).post;
    var s := ExecPost(b, p).books;
    e := CreditIsJournaled(b, tenant, amount, kind, stamp, expiresAt);
    PostRecords(b, p);
    ExecKeepsConsistency(b, PostTxn(p));
    TenantCodeIsTenant(tenant);
    var debit, credit := Line(kind.Source(), amount, Dr), Line("2000:" + tenant, amount, Cr);
    assert e in s.journal && credit in e.lines && credit.code in Codes(e.lines);
    LiabilityCreditsOfPair(s, e.lines, debit, credit);
  }

  /** An accepted credit counts for the day's purchases, and its tenant as a buyer, just if it is a purchase in time. */
  lemma PurchasesCount(b: Books, tenant: string, amount: int, kind: CreditType, stamp: Stamp, expiresAt: Option<int>,
                       first: int, day: int)
    requires Consistent(b) && Exec(b, CreditTxn(tenant, amount, kind, stamp, expiresAt)).outcome.Posted?
    ensures var s := Exec(b, CreditTxn(tenant, amount, kind, stamp, expiresAt)).books;
      && PurchasesOn(s, day) == PurchasesOn(b, day)
          + (if kind == Purchase && 86_400 * day <= stamp.now < 86_400 * (day + 1) then amount else 0)
      && BuyersIn(s.journal, first, day) == BuyersIn(b.journal, first, day)
          + (if kind == Purchase && 86_400 * first <= stamp.now < 86_400 * (day + 1) then {tenant} else {})
  {
    var e := CreditGrows(b, tenant, amount, kind, stamp, expiresAt);
    var s := Exec(b, CreditTxn(tenant, amount, kind, stamp, expiresAt)).books;
    PurchaseSumOfOneMore(b, s, e, 86_400 * day, 86_400 * (day + 1));
    BuyersOfOneMore(b.journal, e, first, day);
    assert kind.Name() == "purchase" <==> kind == Purchase;
  }

  lemma NotAPurchase(b: Books, s: Books, e: Entry, first: int, day: int)
    requires Consistent(b) && Grows(b, s) && s.journal == b.journal + [e] && e.entryType != "purchase"
    ensures PurchasesOn(s, day) == PurchasesOn(b, day)
    ensures BuyersIn(s.journal, first, day) == BuyersIn(b.journal, first, day)
  {
    PurchaseSumOfOneMore(b, s, e, 86_400 * day, 86_400 * (day + 1));
    BuyersOfOneMore(b.journal, e, first, day);
  }

  /** No debit counts for either. */
  lemma DebitsDoNotCount(b: Books, tenant: string, amount: int, kind: DebitType, stamp: Stamp, allowNegative: bool,
                         first: int, day: int)
    requires Consistent(b) && Exec(b, DebitTxn(tenant, amount, kind, stamp, allowNegative)).outcome.Posted?
    ensures var s := Exec(b, DebitTxn(tenant, amount, kind, stamp, allowNegative)).books;
      PurchasesOn(s, day) == PurchasesOn(b, day) && BuyersIn(s.journal, first, day) == BuyersIn(b.journal, first, day)
  {
    var p := DebitTxn(tenant, amount, kind, stamp, allowNegative).post;
    var e := DebitIsJournaled(b, tenant, amount, kind, stamp, allowNegative);
    PostRecords(b, p);
    assert kind.Name() != "purchase";
    NotAPurchase(b, ExecPost(b, p).books, e, first, day);
  }

  lemma CappedDebitsDoNotCount(b: Books, tenant: string, max: int, kind: DebitType, stamp: Stamp, first: int, day: int)
    requires Consistent(b) && Exec(b, DebitCappedTxn(tenant, max, kind, stamp)).outcome.Posted?
    ensures var s := Exec(b, DebitCappedTxn(tenant, max, kind, stamp)).books;
      PurchasesOn(s, day) == PurchasesOn(b, day) && BuyersIn(s.journal, first, day) == BuyersIn(b.journal, first, day)
  {
    var k := DebitCappedTxn(tenant, max, kind, stamp).capped;
    var e := CappedIsJournaled(b, tenant, max, kind, stamp);
    ExecCappedGrows(b, k);
    assert kind.Name() != "purchase";
    NotAPurchase(b, ExecCapped(b, k).books, e, first, day);
  }

  /** A payment of the run: its type, its reference, its amount, out of the dividend account. */
  lemma PaymentIsJournaled(b: Books, date: string, tenant: string, amount: int, i: nat, env: Environment)
    returns (e: Entry)
    requires Exec(b, PayTxn(date, tenant, amount, i, env)).outcome.Posted?
    ensures Exec(b, PayTxn(date, tenant, amount, i, env)).books.journal == b.journal + [e]
    ensures Says(e, "community_dividend", tenant,
      Stamp(env.ids(i), env.clock, Some("dividend:" + date + ":" + tenant), None), None, Line("5060", amount, Dr),
      Line("2000:" + tenant, amount, Cr))
  {
    e := CreditIsJournaled(b, tenant, amount, CommunityDividend,
      Stamp(env.ids(i), env.clock, Some(DividendReference(date, tenant)), None), None);
  }

  // ---- A tenant that is never paid ----

  lemma LiabilityCreditsOfPair(b: Books, lines: seq<Line>, debit: Line, credit: Line)
    requires lines == [debit, credit] || lines == [credit, debit]
    requires debit.side == Dr && credit.side == Cr && IsLiability(b, credit.code)
    ensures LiabilityCredits(b, lines) == credit.amount
  {
    assert lines[..1] == [lines[0]] && [lines[0]][..0] == [];
    assert LiabilityCredits(b, [lines[0]]) == if lines[0] == credit then credit.amount else 0;
  }

  /** The entry of a purchase of `amount` by the tenant. */
  ghost predicate IsPurchaseOf(e: Entry, tenant: string, amount: int, now: int) {
    var debit, credit := Line("1000", amount, Dr), Line(TenantCode(tenant), amount, Cr);
    && e.entryType == "purchase" && e.postedAt == now && e.tenant == tenant && e.reference.None?
    && (e.lines == [debit, credit] || e.lines == [credit, debit])
  }

  lemma PurchaseIsRecorded(b: Books, s: Books, tenant: string, amount: int, stamp: Stamp) returns (e: Entry)
    requires Consistent(b) && "1000" in b.accounts && amount > 0 && stamp.reference.None?
    requires s == Bought(b, tenant, amount, stamp)
    ensures Consistent(s) && b.accounts.Keys <= s.accounts.Keys && s.journal == b.journal + [e]
    ensures IsPurchaseOf(e, tenant, amount, stamp.now)
  {
    var p := CreditTxn(tenant, amount, Purchase, stamp, None).post;
    e := PostedEntry(p);
    SystemCodes(Purchase, Refund);
    TenantCodeIsTenant(tenant);
    TransferIsAccepted(b, p, p.lines[1], p.lines[0]);
    TwoLinesAreValid(p.lines);
    TwoLines(p.lines[0], p.lines[1]);
    AcceptedIff(b, p);
    PostRecords(b, p);
    SortedPair(p.lines[0], p.lines[1]);
  }

  lemma PurchaseCounts(s: Books, e: Entry, tenant: string, amount: int, now: int)
    requires Consistent(s) && e in s.journal && IsPurchaseOf(e, tenant, amount, now)
    ensures LiabilityCredits(s, e.lines) == amount
  {
    var debit, credit := Line("1000", amount, Dr), Line(TenantCode(tenant), amount, Cr);
    TenantCodeIsTenant(tenant);
    assert credit in e.lines && credit.code in Codes(e.lines);
    LiabilityCreditsOfPair(s, e.lines, debit, credit);
  }

  lemma TwoPurchases(s: Books, ex: Entry, ey: Entry, x: string, y: string, amount: int, now: int, start: int, end: int)
    requires Consistent(s) && s.journal == [ex, ey] && x != y && start <= now < end
    requires IsPurchaseOf(ex, x, amount, now) && IsPurchaseOf(ey, y, amount, now)
    ensures PurchaseSum(s, s.journal, start, end) == 2 * amount
    ensures ActiveTenants(s.journal, start, end) == [x, y]
  {
    assert s.journal[0] == ex && s.journal[1] == ey;
    PurchaseCounts(s, ex, x, amount, now);
    PurchaseCounts(s, ey, y, amount, now);
    assert s.journal[..1] == [ex] && [ex][..0] == [];
    assert PurchaseSum(s, [ex], start, end) == amount;
    assert ActiveTenants([ex], start, end) == [x];
  }

  function Bought(b: Books, tenant: string, amount: int, stamp: Stamp): Books {
    Exec(b, CreditTxn(tenant, amount, Purchase, stamp, None)).books
  }

  /** Two tenants bought, each for `amount`, on the day. */
  function TwoBuyers(b: Books, x: string, y: string, amount: int, stamp: Stamp): Books {
    Bought(Bought(b, x, amount, stamp), y, amount, stamp)
  }

  lemma TwoBuyersJournal(b: Books, s1: Books, s: Books, x: string, y: string, amount: int, stamp: Stamp)
    returns (ex: Entry, ey: Entry)
    requires Consistent(b) && b.journal == [] && "1000" in b.accounts && "5060" in b.accounts
    requires s1 == Bought(b, x, amount, stamp) && s == Bought(s1, y, amount, stamp)
    requires amount > 0 && stamp.reference.None?
    ensures Consistent(s) && s.journal == [ex, ey] && "5060" in s.accounts
    ensures IsPurchaseOf(ex, x, amount, stamp.now) && IsPurchaseOf(ey, y, amount, stamp.now)
  {
    ex := PurchaseIsRecorded(b, s1, x, amount, stamp);
    ey := PurchaseIsRecorded(s1, s, y, amount, stamp);
  }

  lemma TwoPurchasesCanBePaid(s: Books, ex: Entry, ey: Entry, x: string, y: string, amount: int, now: int, cfg: Config)
    requires Consistent(s) && s.journal == [ex, ey] && x != y && "5060" in s.accounts
    requires IsPurchaseOf(ex, x, amount, now) && IsPurchaseOf(ey, y, amount, now)
    requires 0 < 2 * amount <= MAX_SAFE_INTEGER && cfg.rate == Rate(1, 1)
    requires cfg.day * SECONDS_PER_DAY <= now < (cfg.day + 1) * SECONDS_PER_DAY
    ensures !AlreadyRan(s, cfg.date) && CanPay(s, cfg) && Active(s, cfg) == [x, y]
  {
    TwoPurchases(s, ex, ey, x, y, amount, now, cfg.day * SECONDS_PER_DAY, (cfg.day + 1) * SECONDS_PER_DAY);
    TwoPurchases(s, ex, ey, x, y, amount, now, (cfg.day - 6) * SECONDS_PER_DAY, (cfg.day + 1) * SECONDS_PER_DAY);
    assert Pool(s, cfg) == 2 * amount;
    assert Share(2 * amount, 2) == amount;
  }

  lemma FreshAccounts(b: Books)
    requires FreshlySeeded(b)
    ensures "1000" in b.accounts && "5060" in b.accounts
  {
    assert Purchase.Source() in b.accounts && CommunityDividend.Source() in b.accounts;
  }

  lemma TwoBuyersCanBePaid(b: Books, x: string, y: string, amount: int, stamp: Stamp, cfg: Config)
    requires Consistent(b) && b.journal == [] && "1000" in b.accounts && "5060" in b.accounts
    requires x != y && 0 < 2 * amount <= MAX_SAFE_INTEGER && cfg.rate == Rate(1, 1)
    requires stamp.reference.None? && cfg.day * SECONDS_PER_DAY <= stamp.now < (cfg.day + 1) * SECONDS_PER_DAY
    ensures var s := TwoBuyers(b, x, y, amount, stamp);
      !AlreadyRan(s, cfg.date) && CanPay(s, cfg) && Active(s, cfg) == [x, y]
  {
    var s1, s := Bought(b, x, amount, stamp), TwoBuyers(b, x, y, amount, stamp);
    var ex, ey := TwoBuyersJournal(b, s1, s, x, y, amount, stamp);
    TwoPurchasesCanBePaid(s, ex, ey, x, y, amount, stamp.now, cfg);
  }

  /**
   On books with two buyers, a run whose first payment fails leaves the first without a dividend whatever happens later.
   */
  lemma TenantIsNeverPaid(b: Books, x: string, y: string, amount: int, stamp: Stamp, cfg: Config, env: Environment,
                          later: seq<Activity>)
    requires FreshlySeeded(b) && x != y && 0 < 2 * amount <= MAX_SAFE_INTEGER && cfg.rate == Rate(1, 1)
    requires stamp.reference.None? && cfg.day * SECONDS_PER_DAY <= stamp.now < (cfg.day + 1) * SECONDS_PER_DAY
    requires env.fails(0) && !env.fails(1) && forall a | a in [Dividend(cfg, env)] + later :: Concerns(cfg.date, a)
    ensures var s := TwoBuyers(b, x, y, amount, stamp);
      && x in Active(s, cfg)
      && !HasDividend(After(s, [Dividend(cfg, env)] + later, cfg.date), cfg.date, x)
      && HasDividend(After(s, [Dividend(cfg, env)] + later, cfg.date), cfg.date, y)
  {
    var s, all := TwoBuyers(b, x, y, amount, stamp), [Dividend(cfg, env)] + later;
    FreshAccounts(b);
    TwoBuyersCanBePaid(b, x, y, amount, stamp, cfg);
    assert all[..0] == [] && all[..|all|] == all;
    assert [x, y][1] == y && Reached([x, y], env, y);
    assert IsFirstPayment(s, all, cfg.date, 0);
    FirstPaymentDecides(s, all, cfg.date, 0, |all|, x);
    FirstPaymentDecides(s, all, cfg.date, 0, |all|, y);
  }
}
