/**
 What every transaction keeps: the cached balances agree with the journal, the books
 balance, references stay unique, and the calls that check the balance never overdraw.
 */
module LedgerInvariants {
  import opened Basics
  import opened LedgerBooks

  ghost predicate UniqueReferences(journal: seq<Entry>) {
    forall i, j | 0 <= i < j < |journal| && journal[i].reference.Some? ::
      journal[i].reference != journal[j].reference
  }

  /** Each materialized balance is the signed sum of the account's journal lines. */
  ghost predicate CacheMatchesHistory(b: Books) {
    forall c | c in b.balances :: b.balances[c] == Net(AllLines(b.journal), c, Normal(b, c))
  }

  ghost predicate Consistent(b: Books) {
    && (forall c | c in b.accounts && IsTenant(c) :: b.accounts[c] == TENANT_ACCOUNT)
    && b.balances.Keys <= b.accounts.Keys
    && (forall e | e in b.journal :: Codes(e.lines) <= b.balances.Keys)
    && (forall e | e in b.journal :: Total(e.lines, Dr) == Total(e.lines, Cr))
    && CacheMatchesHistory(b)
    && UniqueReferences(b.journal)
  }

  lemma SeededIsConsistent()
    ensures Consistent(SEEDED)
  {
    forall c | c in SEEDED.accounts ensures !IsTenant(c) { assert c[0] != '2'; }
  }

  /** Books like those right after seeding: the system accounts and nothing else yet. */
  ghost predicate FreshlySeeded(b: Books) {
    && Consistent(b) && b.balances == map[] && b.journal == []
    && (forall c: CreditType :: c.Source() in b.accounts)
    && (forall d: DebitType :: d.Target() in b.accounts)
  }

  lemma SeededIsFresh()
    ensures FreshlySeeded(SEEDED)
  {
    SeededIsConsistent();
  }

  lemma {:induction false} CodesOfAllLines(journal: seq<Entry>, codes: set<string>)
    requires forall e | e in journal :: Codes(e.lines) <= codes
    ensures Codes(AllLines(journal)) <= codes
  {
    if journal != [] {
      var rest, last := journal[..|journal| - 1], journal[|journal| - 1];
      assert last in journal;
      CodesOfAllLines(rest, codes);
      forall line | line in AllLines(journal) ensures line.code in codes {
        if line in AllLines(rest) {
          assert line.code in Codes(AllLines(rest));
        } else {
          assert line.code in Codes(last.lines);
        }
      }
    }
  }

  lemma OpenKeepsConsistency(b: Books, codes: set<string>)
    requires Consistent(b)
    requires forall c | c in codes :: IsTenant(c) || c in b.accounts
    ensures Consistent(Open(b, codes))
    ensures forall c :: BalanceOf(Open(b, codes), c) == BalanceOf(b, c)
  {
    var o := Open(b, codes);
    CodesOfAllLines(b.journal, b.balances.Keys);
    forall c | c in o.balances ensures o.balances[c] == Net(AllLines(b.journal), c, Normal(o, c)) {
      if c !in b.balances { NetOfAbsentCode(AllLines(b.journal), c, Normal(o, c)); }
    }
  }

  lemma RecordKeepsCache(b: Books, e: Entry)
    requires Consistent(b)
    requires forall c | c in Codes(e.lines) :: IsTenant(c) || c in b.accounts
    ensures CacheMatchesHistory(Record(b, e))
  {
    var o, r := Open(b, Codes(e.lines)), Record(b, e);
    OpenKeepsConsistency(b, Codes(e.lines));
    assert r.journal[..|r.journal| - 1] == b.journal;
    forall c | c in r.balances ensures r.balances[c] == Net(AllLines(r.journal), c, Normal(r, c)) {
      NetConcat(AllLines(b.journal), e.lines, c, Normal(o, c));
    }
  }

  lemma AppendKeepsReferencesUnique(journal: seq<Entry>, e: Entry)
    requires UniqueReferences(journal) && (e.reference.Some? ==> e.reference.value !in References(journal))
    ensures UniqueReferences(journal + [e])
  {
    var r := journal + [e];
    forall i, j | 0 <= i < j < |r| && r[i].reference.Some? ensures r[i].reference != r[j].reference {
      if j == |journal| { assert journal[i] in journal; }
    }
  }

  lemma RecordKeepsConsistency(b: Books, e: Entry)
    requires Consistent(b)
    requires forall c | c in Codes(e.lines) :: IsTenant(c) || c in b.accounts
    requires Total(e.lines, Dr) == Total(e.lines, Cr)
    requires !Taken(b, e.reference)
    ensures Consistent(Record(b, e))
  {
    var r := Record(b, e);
    OpenKeepsConsistency(b, Codes(e.lines));
    RecordKeepsCache(b, e);
    AppendKeepsReferencesUnique(b.journal, e);
    forall f | f in r.journal ensures Codes(f.lines) <= r.balances.Keys && Total(f.lines, Dr) == Total(f.lines, Cr) {
      if f != e { assert f in b.journal; }
    }
  }

  lemma {:induction false} NothingMissing(b: Books, codes: seq<string>)
    ensures FirstMissing(b, codes) == None <==> forall c | c in codes :: IsTenant(c) || c in b.accounts
    ensures forall c :: FirstMissing(b, codes) == Some(c) ==> c in codes && !IsTenant(c) && c !in b.accounts
  {
    if codes != [] {
      var rest, last := codes[..|codes| - 1], codes[|codes| - 1];
      assert codes == rest + [last];
      NothingMissing(b, rest);
    }
  }

  lemma TwoLines(a: Line, b: Line)
    ensures forall side :: Total([a, b], side)
              == (if a.side == side then a.amount else 0) + (if b.side == side then b.amount else 0)
    ensures forall code, normal :: (Net([a, b], code, normal)
              == (if a.code == code then Delta(normal, a) else 0) + (if b.code == code then Delta(normal, b) else 0))
    ensures Codes([a, b]) == {a.code, b.code}
  {
    assert [a, b][..1] == [a] && [a][..0] == [];
    forall side ensures Total([a, b], side) == Total([a], side) + if b.side == side then b.amount else 0 {}
    forall side ensures Total([a], side) == Total([], side) + if a.side == side then a.amount else 0 {}
    forall code, normal
      ensures Net([a, b], code, normal) == Net([a], code, normal) + if b.code == code then Delta(normal, b) else 0 {}
    forall code, normal
      ensures Net([a], code, normal) == Net([], code, normal) + if a.code == code then Delta(normal, a) else 0 {}
  }

  lemma TwoLinesAreValid(lines: seq<Line>)
    requires |lines| == 2 && lines[0].side != lines[1].side && lines[0].amount == lines[1].amount > 0
    ensures Invalid(lines).None?
  {
    TwoLines(lines[0], lines[1]);
    assert lines == [lines[0], lines[1]];
  }

  /** No code is missing exactly when each has an account or is a tenant's. */
  lemma KnownCodesIff(b: Books, lines: seq<Line>)
    ensures FirstMissing(b, LineCodes(SortLines(lines))).None?
      <==> forall c | c in Codes(lines) :: IsTenant(c) || c in b.accounts
  {
    var codes := LineCodes(SortLines(lines));
    SortLinesIsFaithful(lines);
    CodesOfLineCodes(SortLines(lines));
    NothingMissing(b, codes);
    assert forall c :: c in codes <==> c in Members(codes);
  }

  predicate CheckHolds(b: Books, check: Option<BalanceCheck>) {
    check.Some? ==> check.value.amount <= BalanceOf(b, TenantCode(check.value.tenant)) <= MAX_SAFE_INTEGER
  }

  /** When a `post` is accepted, in terms of its input and the books. */
  lemma AcceptedIff(b: Books, p: PostInput)
    ensures ExecPost(b, p).outcome.Posted? <==>
      && Invalid(p.lines).None? && !Taken(b, p.reference)
      && (forall c | c in Codes(p.lines) :: IsTenant(c) || c in b.accounts)
      && CheckHolds(b, p.check)
  {
    KnownCodesIff(b, p.lines);
  }

  lemma PostKeepsConsistency(b: Books, p: PostInput)
    requires Consistent(b)
    ensures Consistent(ExecPost(b, p).books)
  {
    if ExecPost(b, p).outcome.Posted? {
      AcceptedIff(b, p);
      SortLinesIsFaithful(p.lines);
      PostRecords(b, p);
      RecordKeepsConsistency(b, PostedEntry(p));
    }
  }

  lemma CappedKeepsConsistency(b: Books, k: CappedInput)
    requires Consistent(b)
    ensures Consistent(ExecCapped(b, k).books)
  {
    var e := CappedEntry(k, Least(BalanceOf(b, TenantCode(k.tenant)), k.max));
    TwoLines(e.lines[0], e.lines[1]);
    if ExecCapped(b, k).outcome.Posted? {
      RecordKeepsConsistency(b, e);
    } else if ExecCapped(b, k).outcome.Nothing? {
      OpenKeepsConsistency(b, {TenantCode(k.tenant), k.target});
    }
  }

  /** Every call, accepted or not, keeps the books consistent. */
  lemma ExecKeepsConsistency(b: Books, t: Txn)
    requires Consistent(b)
    ensures Consistent(Exec(b, t).books)
  {
    match t
    case PostTxn(p) => PostKeepsConsistency(b, p);
    case CappedTxn(k) => CappedKeepsConsistency(b, k);
  }

  lemma {:induction false} ExecAllKeepsConsistency(b: Books, ts: seq<Txn>)
    requires Consistent(b)
    ensures Consistent(ExecAll(b, ts))
  {
    if ts != [] {
      ExecAllKeepsConsistency(b, ts[..|ts| - 1]);
      ExecKeepsConsistency(ExecAll(b, ts[..|ts| - 1]), ts[|ts| - 1]);
    }
  }

  // ---- The accounting identity ----

  function Signed(b: Books, lines: seq<Line>, code: string): int {
    if Normal(b, code) == Dr then Net(lines, code, Dr) else -Net(lines, code, Cr)
  }

  lemma {:induction false} SignedMovesEqualTotals(b: Books, codes: set<string>, lines: seq<Line>)
    requires Codes(lines) <= codes
    ensures SumOver(codes, (c: string) => Signed(b, lines, c)) == Total(lines, Dr) - Total(lines, Cr)
  {
    var f := (c: string) => Signed(b, lines, c);
    if lines == [] {
      SumOverDifference(codes, f, f, f);
    } else {
      var rest, last := lines[..|lines| - 1], lines[|lines| - 1];
      var g := (c: string) => Signed(b, rest, c);
      assert Codes(rest) <= Codes(lines) && last.code in Codes(lines);
      SignedMovesEqualTotals(b, codes, rest);
      SumOverChange(codes, g, f, last.code);
    }
  }

  lemma {:induction false} JournalTotalsAgree(journal: seq<Entry>)
    requires forall e | e in journal :: Total(e.lines, Dr) == Total(e.lines, Cr)
    ensures Total(AllLines(journal), Dr) == Total(AllLines(journal), Cr)
  {
    if journal != [] {
      var rest, last := journal[..|journal| - 1], journal[|journal| - 1];
      assert last in journal;
      JournalTotalsAgree(rest);
      TotalConcat(AllLines(rest), last.lines, Dr);
      TotalConcat(AllLines(rest), last.lines, Cr);
    }
  }

  function BalanceIf(b: Books, normal: Side, code: string): int {
    if Normal(b, code) == normal then BalanceOf(b, code) else 0
  }

  /** Debits equal credits, and debit-normal balances add up to credit-normal ones. */
  lemma AccountingIdentity(b: Books)
    requires Consistent(b)
    ensures Total(AllLines(b.journal), Dr) == Total(AllLines(b.journal), Cr)
    ensures SumOver(b.balances.Keys, (c: string) => BalanceIf(b, Dr, c))
         == SumOver(b.balances.Keys, (c: string) => BalanceIf(b, Cr, c))
  {
    var lines, codes := AllLines(b.journal), b.balances.Keys;
    JournalTotalsAgree(b.journal);
    CodesOfAllLines(b.journal, codes);
    SignedMovesEqualTotals(b, codes, lines);
    SumOverDifference(codes, (c: string) => BalanceIf(b, Dr, c), (c: string) => BalanceIf(b, Cr, c),
                      (c: string) => Signed(b, lines, c));
  }

  // ---- Overdrafts ----

  ghost predicate NoOverdraft(b: Books) {
    forall c | IsTenant(c) :: BalanceOf(b, c) >= 0
  }

  /** Calls a tenant's balance is safe from: all but `post` itself and a debit with allowNegative. */
  ghost predicate Guarded(t: Txn) {
    || (exists tenant, amount, kind, stamp, expiresAt :: t == CreditTxn(tenant, amount, kind, stamp, expiresAt))
    || (exists tenant, amount, kind, stamp :: t == DebitTxn(tenant, amount, kind, stamp, false))
    || (exists tenant, max, kind, stamp :: t == DebitCappedTxn(tenant, max, kind, stamp))
  }

  lemma SystemCodes(c: CreditType, d: DebitType)
    ensures !IsTenant(c.Source()) && !IsTenant(d.Target())
  {
    assert c.Source()[1] != '0' || c.Source()[0] != '2';
    assert d.Target()[1] != '0' || d.Target()[0] != '2';
  }

  lemma TenantCodeIsTenant(tenant: string)
    ensures IsTenant(TenantCode(tenant))
  {}

  lemma TenantCodesDiffer(x: string, y: string)
    ensures TenantCode(x) == TenantCode(y) <==> x == y
    ensures IsTenant(TenantCode(x))
  {
    assert TenantCode(x)[5..] == x && TenantCode(y)[5..] == y;
  }

  lemma RecordMovesBalance(b: Books, e: Entry, c: string)
    ensures BalanceOf(Record(b, e), c) == BalanceOf(b, c) + Net(e.lines, c, Normal(Open(b, Codes(e.lines)), c))
  {
    if c !in Codes(e.lines) { NetOfAbsentCode(e.lines, c, Normal(Open(b, Codes(e.lines)), c)); }
  }

  lemma SortedNet(lines: seq<Line>, c: string, normal: Side)
    ensures Net(SortLines(lines), c, normal) == Net(lines, c, normal)
  {
    SortLinesIsFaithful(lines);
  }

  lemma TenantNet(tenant: Line, system: Line, c: string)
    requires system.code != c
    ensures Net([system, tenant], c, Cr) == Net([tenant, system], c, Cr)
         == if c == tenant.code then Delta(Cr, tenant) else 0
  {
    TwoLines(system, tenant);
    TwoLines(tenant, system);
  }

  lemma TenantsAreCreditNormal(b: Books, codes: set<string>, c: string)
    requires Consistent(b) && IsTenant(c)
    ensures Normal(Open(b, codes), c) == Cr
  {}

  /** What a two-line entry between a tenant and a system account does to tenants' balances. */
  lemma TwoLineEntryEffect(b: Books, e: Entry, lines: seq<Line>, tenant: Line, system: Line, c: string)
    requires Consistent(b) && IsTenant(c) && c != system.code
    requires lines == [system, tenant] || lines == [tenant, system]
    requires e.lines == SortLines(lines)
    ensures BalanceOf(Record(b, e), c) == BalanceOf(b, c) + if c == tenant.code then Delta(Cr, tenant) else 0
  {
    SortedNet(lines, c, Cr);
    var net := Net(e.lines, c, Cr);
    assert net == if c == tenant.code then Delta(Cr, tenant) else 0 by { TenantNet(tenant, system, c); }
    RecordMovesTenant(b, e, c);
  }

  lemma RecordMovesTenant(b: Books, e: Entry, c: string)
    requires Consistent(b) && IsTenant(c)
    ensures BalanceOf(Record(b, e), c) == BalanceOf(b, c) + Net(e.lines, c, Cr)
  {
    RecordMovesBalance(b, e, c);
    TenantsAreCreditNormal(b, Codes(e.lines), c);
  }

  lemma SimplePostEffect(b: Books, p: PostInput, tenant: Line, system: Line, c: string)
    requires Consistent(b) && IsTenant(c) && c != system.code
    requires p.lines == [system, tenant] || p.lines == [tenant, system]
    requires ExecPost(b, p).outcome.Posted?
    ensures BalanceOf(ExecPost(b, p).books, c)
         == BalanceOf(b, c) + if c == tenant.code then Delta(Cr, tenant) else 0
  {
    PostRecords(b, p);
    TwoLineEntryEffect(b, PostedEntry(p), p.lines, tenant, system, c);
  }

  /** `debitCapped` moves a non-zero balance to max(0, balance - max), and touches no other tenant. */
  lemma CappedEffect(b: Books, k: CappedInput)
    requires Consistent(b) && !IsTenant(k.target)
    ensures var r := ExecCapped(b, k); var code := TenantCode(k.tenant); var balance := BalanceOf(b, code);
      && (r.outcome.Posted? ==> BalanceOf(r.books, code) == if balance > k.max then balance - k.max else 0)
      && (!r.outcome.Posted? ==> BalanceOf(r.books, code) == balance)
      && (forall c | IsTenant(c) && c != code :: BalanceOf(r.books, c) == BalanceOf(b, c))
  {
    var r, code := ExecCapped(b, k), TenantCode(k.tenant);
    var e := CappedEntry(k, Least(BalanceOf(b, code), k.max));
    TwoLines(e.lines[0], e.lines[1]);
    if r.outcome.Posted? {
      forall c | IsTenant(c)
        ensures BalanceOf(r.books, c) == BalanceOf(b, c) - if c == code then Least(BalanceOf(b, code), k.max) else 0
      {
        RecordMovesBalance(b, e, c);
      }
    } else if r.outcome.Nothing? {
      OpenKeepsConsistency(b, {code, k.target});
    }
  }

  /** The amount posted is positive exactly when both the balance and the cap are. */
  lemma CappedPostsPositiveAmountsIff(b: Books, k: CappedInput)
    requires ExecCapped(b, k).outcome.Posted?
    ensures (forall line | line in ExecCapped(b, k).outcome.entry.lines :: line.amount > 0)
       <==> BalanceOf(b, TenantCode(k.tenant)) > 0 && k.max > 0
  {
    var e := ExecCapped(b, k).outcome.entry;
    assert e.lines[0] in e.lines;
  }

  /** On seeded books a debit that may go negative and then a capped one post a negative amount, whatever the cap. */
  lemma NegativeAmountIsReachable(b: Books, tenant: string, owed: int, max: int, stamp: Stamp)
    requires FreshlySeeded(b) && owed > 0 && max > 0 && stamp.reference.None?
    ensures var s := Exec(b, DebitTxn(tenant, owed, BotRuntime, stamp, true)).books;
      && Consistent(s)
      && PostsAmount(ExecCapped(s, DebitCappedTxn(tenant, max, CreditExpiry, stamp).capped), -owed)
  {
    var debit := DebitTxn(tenant, owed, BotRuntime, stamp, true).post;
    SystemCodes(Purchase, BotRuntime);
    TenantCodeIsTenant(tenant);
    TransferIsAccepted(b, debit, debit.lines[0], debit.lines[1]);
    assert CreditExpiry.Target() in b.accounts;
    CappedOnDebt(ExecPost(b, debit).books, DebitCappedTxn(tenant, max, CreditExpiry, stamp).capped);
  }

  /** The call is accepted, and all its lines carry the amount. */
  ghost predicate PostsAmount(r: Result, amount: int) {
    r.outcome.Posted? && forall line | line in r.outcome.entry.lines :: line.amount == amount
  }

  /** An unchecked entry between a tenant and a system account goes through and moves the tenant's balance. */
  lemma TransferIsAccepted(b: Books, p: PostInput, tenant: Line, system: Line)
    requires Consistent(b) && p.check.None? && p.reference.None?
    requires p.lines == [system, tenant] || p.lines == [tenant, system]
    requires IsTenant(tenant.code) && system.code in b.accounts && !IsTenant(system.code)
    requires tenant.side != system.side && tenant.amount == system.amount > 0
    ensures Consistent(ExecPost(b, p).books) && b.accounts.Keys <= ExecPost(b, p).books.accounts.Keys
    ensures References(ExecPost(b, p).books.journal) == References(b.journal)
    ensures BalanceOf(ExecPost(b, p).books, tenant.code) == BalanceOf(b, tenant.code) + Delta(Cr, tenant)
  {
    TwoLinesAreValid(p.lines);
    TwoLines(p.lines[0], p.lines[1]);
    assert p.lines == [p.lines[0], p.lines[1]];
    AcceptedIff(b, p);
    PostKeepsConsistency(b, p);
    PostingGrowsBooks(b, p);
    SimplePostEffect(b, p, tenant, system, tenant.code);
  }

  lemma PostingGrowsBooks(b: Books, p: PostInput)
    requires ExecPost(b, p).outcome.Posted? && p.reference.None?
    ensures b.accounts.Keys <= ExecPost(b, p).books.accounts.Keys
    ensures References(ExecPost(b, p).books.journal) == References(b.journal)
  {
    PostRecords(b, p);
    assert Record(b, PostedEntry(p)).journal == b.journal + [PostedEntry(p)];
  }

  lemma CappedOnDebt(b: Books, k: CappedInput)
    requires k.target in b.accounts && k.reference.None? && BalanceOf(b, TenantCode(k.tenant)) < 0 < k.max
    ensures PostsAmount(ExecCapped(b, k), BalanceOf(b, TenantCode(k.tenant)))
  {}

  lemma CreditDoesNotOverdraw(b: Books, tenant: string, amount: int, kind: CreditType, stamp: Stamp,
                              expiresAt: Option<int>)
    requires Consistent(b) && NoOverdraft(b)
    ensures NoOverdraft(Exec(b, CreditTxn(tenant, amount, kind, stamp, expiresAt)).books)
  {
    var p := CreditTxn(tenant, amount, kind, stamp, expiresAt).post;
    SystemCodes(kind, Refund);
    if ExecPost(b, p).outcome.Posted? {
      assert p.lines[0] in p.lines;
      forall c | IsTenant(c) ensures BalanceOf(ExecPost(b, p).books, c) >= 0 {
        SimplePostEffect(b, p, p.lines[1], p.lines[0], c);
      }
    }
  }

  lemma DebitDoesNotOverdraw(b: Books, tenant: string, amount: int, kind: DebitType, stamp: Stamp)
    requires Consistent(b) && NoOverdraft(b)
    ensures NoOverdraft(Exec(b, DebitTxn(tenant, amount, kind, stamp, false)).books)
  {
    var p := DebitTxn(tenant, amount, kind, stamp, false).post;
    SystemCodes(Purchase, kind);
    if ExecPost(b, p).outcome.Posted? {
      forall c | IsTenant(c) ensures BalanceOf(ExecPost(b, p).books, c) >= 0 {
        SimplePostEffect(b, p, p.lines[0], p.lines[1], c);
      }
    }
  }

  /** No guarded call, with whatever amount, cap or type, takes any tenant below zero. */
  lemma GuardedCallsDoNotOverdraw(b: Books, t: Txn)
    requires Consistent(b) && NoOverdraft(b) && Guarded(t)
    ensures NoOverdraft(Exec(b, t).books)
  {
    if tenant, amount, kind, stamp, expiresAt :| t == CreditTxn(tenant, amount, kind, stamp, expiresAt) {
      CreditDoesNotOverdraw(b, tenant, amount, kind, stamp, expiresAt);
    } else if tenant, amount, kind, stamp :| t == DebitTxn(tenant, amount, kind, stamp, false) {
      DebitDoesNotOverdraw(b, tenant, amount, kind, stamp);
    } else {
      var tenant, max, kind, stamp :| t == DebitCappedTxn(tenant, max, kind, stamp);
      SystemCodes(Purchase, kind);
      CappedEffect(b, t.capped);
    }
  }

  // ---- Spend, credits and attribution ----

  function DebitsOn(lines: seq<Line>, code: string): int {
    if lines == [] then 0 else
      var last := lines[|lines| - 1];
      DebitsOn(lines[..|lines| - 1], code) + if last.code == code && last.side == Dr then last.amount else 0
  }

  function CreditsOn(lines: seq<Line>, code: string): int {
    if lines == [] then 0 else
      var last := lines[|lines| - 1];
      CreditsOn(lines[..|lines| - 1], code) + if last.code == code && last.side == Cr then last.amount else 0
  }

  function LifetimeSpend(journal: seq<Entry>, tenant: string): int {
    DebitsOn(AllLines(journal), TenantCode(tenant))
  }

  /** Debits on the tenant's account from entries attributed to `user`. */
  function UsageBy(journal: seq<Entry>, tenant: string, user: Option<string>): int {
    if journal == [] then 0 else
      var last := journal[|journal| - 1];
      UsageBy(journal[..|journal| - 1], tenant, user)
      + if last.user == user then DebitsOn(last.lines, TenantCode(tenant)) else 0
  }

  function Users(journal: seq<Entry>): set<string> { set e | e in journal && e.user.Some? :: e.user.value }

  lemma {:induction false} NetIsCreditsMinusDebits(lines: seq<Line>, code: string)
    ensures Net(lines, code, Cr) == CreditsOn(lines, code) - DebitsOn(lines, code)
  {
    if lines != [] { NetIsCreditsMinusDebits(lines[..|lines| - 1], code); }
  }

  lemma {:induction false} DebitsConcat(a: seq<Line>, b: seq<Line>, code: string)
    ensures DebitsOn(a + b, code) == DebitsOn(a, code) + DebitsOn(b, code)
  {
    if b == [] { assert a + b == a; } else {
      assert (a + b)[..|a + b| - 1] == a + b[..|b| - 1];
      DebitsConcat(a, b[..|b| - 1], code);
    }
  }

  lemma {:induction false} UsagePartitionsSpend(journal: seq<Entry>, tenant: string, users: set<string>)
    requires Users(journal) <= users
    ensures SumOver(users, (u: string) => UsageBy(journal, tenant, Some(u))) + UsageBy(journal, tenant, None)
         == LifetimeSpend(journal, tenant)
  {
    var f := (u: string) => UsageBy(journal, tenant, Some(u));
    if journal == [] {
      SumOverDifference(users, f, f, f);
    } else {
      var rest, last := journal[..|journal| - 1], journal[|journal| - 1];
      var g := (u: string) => UsageBy(rest, tenant, Some(u));
      assert Users(rest) <= Users(journal);
      UsagePartitionsSpend(rest, tenant, users);
      DebitsConcat(AllLines(rest), last.lines, TenantCode(tenant));
      match last.user {
        case Some(u) => assert last in journal; SumOverChange(users, g, f, u);
        case None => SumOverEqual(users, g, f);
      }
    }
  }

  /** balance = credits - spend, and spend = the members' usage + what nobody is charged for. */
  lemma SpendIsConserved(b: Books, tenant: string)
    requires Consistent(b)
    ensures BalanceOf(b, TenantCode(tenant))
         == CreditsOn(AllLines(b.journal), TenantCode(tenant)) - LifetimeSpend(b.journal, tenant)
    ensures LifetimeSpend(b.journal, tenant)
         == SumOver(Users(b.journal), (u: string) => UsageBy(b.journal, tenant, Some(u)))
           + UsageBy(b.journal, tenant, None)
  {
    var code := TenantCode(tenant);
    NetIsCreditsMinusDebits(AllLines(b.journal), code);
    UsagePartitionsSpend(b.journal, tenant, Users(b.journal));
    if code !in b.balances {
      CodesOfAllLines(b.journal, b.balances.Keys);
      NetOfAbsentCode(AllLines(b.journal), code, Cr);
    }
  }
}
