/**
 What the three calls of the ledger leave behind, in terms of their arguments: the entry in the journal, the member's
 usage, and, over any calls on a seeded ledger, each system account as the total of its types of entry.
 */
module LedgerEffects {
  import opened Basics
  import opened LedgerBooks
  import opened LedgerInvariants

  // ---- The entry ----

  /** The entry's header, and its two lines in either order. */
  ghost predicate Says(e: Entry, entryType: string, tenant: string, stamp: Stamp, expiresAt: Option<int>, debit: Line,
                       credit: Line) {
    && e.id == stamp.id && e.postedAt == stamp.now && e.reference == stamp.reference && e.user == stamp.user
    && e.entryType == entryType && e.tenant == tenant && e.expiresAt == expiresAt
    && debit.side == Dr && credit.side == Cr
    && (e.lines == [debit, credit] || e.lines == [credit, debit])
  }

  /** The journal has one more entry, which is the answer. */
  ghost predicate Appended(b: Books, r: Result, e: Entry) {
    r.books.journal == b.journal + [e] && r.outcome == Posted(e)
  }

  /** An accepted credit records its arguments: the amount out of the type's account and into the tenant's. */
  lemma CreditIsJournaled(b: Books, tenant: string, amount: int, kind: CreditType, stamp: Stamp, expiresAt: Option<int>)
    returns (e: Entry)
    requires Exec(b, CreditTxn(tenant, amount, kind, stamp, expiresAt)).outcome.Posted?
    ensures Appended(b, Exec(b, CreditTxn(tenant, amount, kind, stamp, expiresAt)), e) && amount > 0
    ensures Says(e, kind.Name(), tenant, stamp, expiresAt, Line(kind.Source(), amount, Dr),
      Line("2000:" + tenant, amount, Cr))
  {
    var p := CreditTxn(tenant, amount, kind, stamp, expiresAt).post;
    PostRecords(b, p);
    SortedPair(p.lines[0], p.lines[1]);
    e := PostedEntry(p);
    AcceptedIff(b, p);
    assert p.lines[0] in p.lines;
  }

  lemma DebitIsJournaled(b: Books, tenant: string, amount: int, kind: DebitType, stamp: Stamp, allowNegative: bool)
    returns (e: Entry)
    requires Exec(b, DebitTxn(tenant, amount, kind, stamp, allowNegative)).outcome.Posted?
    ensures Appended(b, Exec(b, DebitTxn(tenant, amount, kind, stamp, allowNegative)), e) && amount > 0
    ensures Says(e, kind.Name(), tenant, stamp, None, Line("2000:" + tenant, amount, Dr),
      Line(kind.Target(), amount, Cr))
  {
    var p := DebitTxn(tenant, amount, kind, stamp, allowNegative).post;
    PostRecords(b, p);
    SortedPair(p.lines[0], p.lines[1]);
    e := PostedEntry(p);
    AcceptedIff(b, p);
    assert p.lines[0] in p.lines;
  }

  /** A capped debit records what it takes from the balance. */
  lemma CappedIsJournaled(b: Books, tenant: string, max: int, kind: DebitType, stamp: Stamp) returns (e: Entry)
    requires Consistent(b) && Exec(b, DebitCappedTxn(tenant, max, kind, stamp)).outcome.Posted?
    ensures var s := Exec(b, DebitCappedTxn(tenant, max, kind, stamp)).books;
      var taken := BalanceOf(b, "2000:" + tenant) - BalanceOf(s, "2000:" + tenant);
      && Appended(b, Exec(b, DebitCappedTxn(tenant, max, kind, stamp)), e)
      && Says(e, kind.Name(), tenant, stamp, None, Line("2000:" + tenant, taken, Dr), Line(kind.Target(), taken, Cr))
  {
    var k := DebitCappedTxn(tenant, max, kind, stamp).capped;
    SystemCodes(Purchase, kind);
    CappedEffect(b, k);
    e := CappedEntry(k, Least(BalanceOf(b, TenantCode(tenant)), max));
  }

  // ---- Members' usage ----

  lemma UsageOfOneMore(journal: seq<Entry>, e: Entry, tenant: string, user: Option<string>)
    ensures UsageBy(journal + [e], tenant, user)
         == UsageBy(journal, tenant, user) + if e.user == user then DebitsOn(e.lines, "2000:" + tenant) else 0
  {
    assert (journal + [e])[..|journal|] == journal;
  }

  lemma DebitsOfPair(lines: seq<Line>, debit: Line, credit: Line, code: string)
    requires debit.side == Dr && credit.side == Cr && (lines == [debit, credit] || lines == [credit, debit])
    ensures DebitsOn(lines, code) == if debit.code == code then debit.amount else 0
  {
    assert lines[..1] == [lines[0]] && [lines[0]][..0] == [];
    assert DebitsOn([lines[0]], code) == if lines[0] == debit && debit.code == code then debit.amount else 0;
  }

  /** An entry that takes an amount from a tenant is so much usage of its user with that tenant. */
  lemma UsageOfPair(journal: seq<Entry>, e: Entry, tenant: string, taken: int, code: string, t: string,
                    user: Option<string>)
    requires var debit, credit := Line("2000:" + tenant, taken, Dr), Line(code, taken, Cr);
      e.lines == [debit, credit] || e.lines == [credit, debit]
    ensures UsageBy(journal + [e], t, user)
         == UsageBy(journal, t, user) + if t == tenant && e.user == user then taken else 0
  {
    UsageOfOneMore(journal, e, t, user);
    DebitsOfPair(e.lines, Line("2000:" + tenant, taken, Dr), Line(code, taken, Cr), "2000:" + t);
    TenantCodesDiffer(t, tenant);
  }

  /** An accepted debit raises the usage of its user with its tenant by the amount, and nobody else's. */
  lemma DebitRaisesUsage(b: Books, tenant: string, amount: int, kind: DebitType, stamp: Stamp, allowNegative: bool,
                         t: string, user: Option<string>)
    requires Exec(b, DebitTxn(tenant, amount, kind, stamp, allowNegative)).outcome.Posted?
    ensures UsageBy(Exec(b, DebitTxn(tenant, amount, kind, stamp, allowNegative)).books.journal, t, user)
         == UsageBy(b.journal, t, user) + if t == tenant && user == stamp.user then amount else 0
  {
    var e := DebitIsJournaled(b, tenant, amount, kind, stamp, allowNegative);
    UsageOfPair(b.journal, e, tenant, amount, kind.Target(), t, user);
  }

  /** An accepted capped debit raises it by what it takes. */
  lemma CappedRaisesUsage(b: Books, tenant: string, max: int, kind: DebitType, stamp: Stamp, t: string,
                          user: Option<string>)
    requires Consistent(b) && Exec(b, DebitCappedTxn(tenant, max, kind, stamp)).outcome.Posted?
    ensures var s := Exec(b, DebitCappedTxn(tenant, max, kind, stamp)).books;
      UsageBy(s.journal, t, user) == UsageBy(b.journal, t, user)
        + if t == tenant && user == stamp.user then BalanceOf(b, "2000:" + tenant) - BalanceOf(s, "2000:" + tenant)
          else 0
  {
    var s := Exec(b, DebitCappedTxn(tenant, max, kind, stamp)).books;
    var taken := BalanceOf(b, "2000:" + tenant) - BalanceOf(s, "2000:" + tenant);
    var e := CappedIsJournaled(b, tenant, max, kind, stamp);
    UsageOfPair(b.journal, e, tenant, taken, kind.Target(), t, user);
  }

  /** A credit is nobody's usage. */
  lemma CreditIsNoUsage(b: Books, tenant: string, amount: int, kind: CreditType, stamp: Stamp, expiresAt: Option<int>,
                        t: string, user: Option<string>)
    requires Exec(b, CreditTxn(tenant, amount, kind, stamp, expiresAt)).outcome.Posted?
    ensures UsageBy(Exec(b, CreditTxn(tenant, amount, kind, stamp, expiresAt)).books.journal, t, user)
         == UsageBy(b.journal, t, user)
  {
    var e := CreditIsJournaled(b, tenant, amount, kind, stamp, expiresAt);
    UsageOfOneMore(b.journal, e, t, user);
    SystemCodes(kind, Refund);
    TenantCodeIsTenant(t);
    DebitsOfPair(e.lines, Line(kind.Source(), amount, Dr), Line("2000:" + tenant, amount, Cr), "2000:" + t);
  }

  // ---- Each system account is the total of its types ----

  /** What the lines move to tenants, less what they take from them. */
  function ToTenants(lines: seq<Line>): int {
    if lines == [] then 0 else
      var last := lines[|lines| - 1];
      ToTenants(lines[..|lines| - 1])
      + if !("2000:" <= last.code) then 0 else if last.side == Cr then last.amount else -last.amount
  }

  /** What entries of these types have moved to tenants. */
  function MovedBy(journal: seq<Entry>, types: set<string>): int {
    if journal == [] then 0 else
      var last := journal[|journal| - 1];
      MovedBy(journal[..|journal| - 1], types) + if last.entryType in types then ToTenants(last.lines) else 0
  }

  /** A call of the ledger by one of its three wrappers. */
  datatype LedgerCall =
    | Credits(tenant: string, amount: int, kind: CreditType, stamp: Stamp, expiresAt: Option<int>)
    | Debits(tenant: string, amount: int, debitKind: DebitType, stamp: Stamp, allowNegative: bool)
    | DebitsCapped(tenant: string, max: int, debitKind: DebitType, stamp: Stamp)
  {
    function AsTxn(): Txn {
      match this
      case Credits(tenant, amount, kind, stamp, expiresAt) => CreditTxn(tenant, amount, kind, stamp, expiresAt)
      case Debits(tenant, amount, kind, stamp, allowNegative) => DebitTxn(tenant, amount, kind, stamp, allowNegative)
      case DebitsCapped(tenant, max, kind, stamp) => DebitCappedTxn(tenant, max, kind, stamp)
    }

    /** The system account of the call, and its type. */
    function Account(): string {
      match this
      case Credits(_, _, kind, _, _) => kind.Source()
      case Debits(_, _, kind, _, _) => kind.Target()
      case DebitsCapped(_, _, kind, _) => kind.Target()
    }

    function Type(): string {
      match this
      case Credits(_, _, kind, _, _) => kind.Name()
      case Debits(_, _, kind, _, _) => kind.Name()
      case DebitsCapped(_, _, kind, _) => kind.Name()
    }
  }

  function AllOf(b: Books, calls: seq<LedgerCall>): Books {
    if calls == [] then b else Exec(AllOf(b, calls[..|calls| - 1]), calls[|calls| - 1].AsTxn()).books
  }

  lemma ToTenantsOfPair(lines: seq<Line>, system: Line, tenant: Line)
    requires lines == [system, tenant] || lines == [tenant, system]
    requires !IsTenant(system.code) && IsTenant(tenant.code)
    ensures ToTenants(lines) == if tenant.side == Cr then tenant.amount else -tenant.amount
  {
    assert lines[..1] == [lines[0]] && [lines[0]][..0] == [];
    assert ToTenants([lines[0]]) == ToTenants([]) + if lines[0] == system then 0
      else if tenant.side == Cr then tenant.amount else -tenant.amount;
  }

  lemma MovedByOneMore(journal: seq<Entry>, e: Entry, types: set<string>)
    ensures MovedBy(journal + [e], types)
         == MovedBy(journal, types) + if e.entryType in types then ToTenants(e.lines) else 0
  {
    assert (journal + [e])[..|journal|] == journal;
  }

  /** The balance of a system account in the direction of debits. */
  function DebitBalance(b: Books, code: string): int {
    if Normal(b, code) == Dr then BalanceOf(b, code) else -BalanceOf(b, code)
  }

  lemma RecordMovesSystem(b: Books, e: Entry, system: Line, tenant: Line, code: string)
    requires e.lines == [system, tenant] || e.lines == [tenant, system]
    requires !IsTenant(code) && code in b.accounts && IsTenant(tenant.code) && system.amount == tenant.amount
    requires system.side != tenant.side
    ensures Normal(Record(b, e), code) == Normal(b, code) && code in Record(b, e).accounts
    ensures DebitBalance(Record(b, e), code) == DebitBalance(b, code)
      + if system.code != code then 0 else if tenant.side == Cr then tenant.amount else -tenant.amount
  {
    RecordMovesBalance(b, e, code);
    TwoLines(e.lines[0], e.lines[1]);
    assert e.lines == [e.lines[0], e.lines[1]];
  }

  lemma OpenKeepsSystem(b: Books, codes: set<string>, code: string)
    requires code in b.accounts
    ensures DebitBalance(Open(b, codes), code) == DebitBalance(b, code) && code in Open(b, codes).accounts
  {
    NormalOfOpened(b, codes, code);
  }

  lemma PostedMoves(b: Books, e: Entry, system: Line, tenant: Line, code: string, types: set<string>)
    requires e.lines == [system, tenant] || e.lines == [tenant, system]
    requires !IsTenant(code) && code in b.accounts && IsTenant(tenant.code) && !IsTenant(system.code)
    requires system.amount == tenant.amount && system.side != tenant.side
    requires system.code == code <==> e.entryType in types
    ensures var s := Record(b, e);
      && code in s.accounts
      && DebitBalance(s, code) - DebitBalance(b, code) == MovedBy(s.journal, types) - MovedBy(b.journal, types)
  {
    RecordMovesSystem(b, e, system, tenant, code);
    ToTenantsOfPair(e.lines, system, tenant);
    MovedByOneMore(b.journal, e, types);
  }

  /** A call moved `code` and the entries of `types` by the same amount. */
  ghost predicate MovesAlike(b: Books, s: Books, code: string, types: set<string>) {
    && code in s.accounts
    && DebitBalance(s, code) - DebitBalance(b, code) == MovedBy(s.journal, types) - MovedBy(b.journal, types)
  }

  lemma CreditMoves(b: Books, tenant: string, amount: int, kind: CreditType, stamp: Stamp, expiresAt: Option<int>,
                    code: string, types: set<string>)
    requires !IsTenant(code) && code in b.accounts && (kind.Source() == code <==> kind.Name() in types)
    ensures MovesAlike(b, Exec(b, CreditTxn(tenant, amount, kind, stamp, expiresAt)).books, code, types)
  {
    var p := CreditTxn(tenant, amount, kind, stamp, expiresAt).post;
    if ExecPost(b, p).outcome.Posted? {
      var e := CreditIsJournaled(b, tenant, amount, kind, stamp, expiresAt);
      SystemCodes(kind, Refund);
      PostRecords(b, p);
      PostedMoves(b, e, Line(kind.Source(), amount, Dr), Line("2000:" + tenant, amount, Cr), code, types);
    }
  }

  lemma DebitMoves(b: Books, tenant: string, amount: int, kind: DebitType, stamp: Stamp, allowNegative: bool,
                   code: string, types: set<string>)
    requires !IsTenant(code) && code in b.accounts && (kind.Target() == code <==> kind.Name() in types)
    ensures MovesAlike(b, Exec(b, DebitTxn(tenant, amount, kind, stamp, allowNegative)).books, code, types)
  {
    var p := DebitTxn(tenant, amount, kind, stamp, allowNegative).post;
    if ExecPost(b, p).outcome.Posted? {
      var e := DebitIsJournaled(b, tenant, amount, kind, stamp, allowNegative);
      SystemCodes(Purchase, kind);
      PostRecords(b, p);
      PostedMoves(b, e, Line(kind.Target(), amount, Cr), Line("2000:" + tenant, amount, Dr), code, types);
    }
  }

  lemma CappedMoves(b: Books, tenant: string, max: int, kind: DebitType, stamp: Stamp, code: string,
                    types: set<string>)
    requires !IsTenant(code) && code in b.accounts && (kind.Target() == code <==> kind.Name() in types)
    ensures MovesAlike(b, Exec(b, DebitCappedTxn(tenant, max, kind, stamp)).books, code, types)
  {
    var k := DebitCappedTxn(tenant, max, kind, stamp).capped;
    var r := ExecCapped(b, k);
    if r.outcome.Posted? {
      SystemCodes(Purchase, kind);
      TenantCodeIsTenant(tenant);
      var e := r.outcome.entry;
      PostedMoves(b, e, e.lines[1], e.lines[0], code, types);
    } else if r.outcome.Nothing? {
      OpenKeepsSystem(b, {TenantCode(tenant), kind.Target()}, code);
    }
  }

  /** The types are just those of the calls on this account. */
  ghost predicate TypesOf(code: string, types: set<string>) {
    && (forall k: CreditType :: k.Source() == code <==> k.Name() in types)
    && (forall k: DebitType :: k.Target() == code <==> k.Name() in types)
  }

  lemma CallMoves(b: Books, call: LedgerCall, code: string, types: set<string>)
    requires !IsTenant(code) && code in b.accounts && TypesOf(code, types)
    ensures MovesAlike(b, Exec(b, call.AsTxn()).books, code, types)
  {
    match call
    case Credits(tenant, amount, kind, stamp, expiresAt) =>
      CreditMoves(b, tenant, amount, kind, stamp, expiresAt, code, types);
    case Debits(tenant, amount, kind, stamp, allowNegative) =>
      DebitMoves(b, tenant, amount, kind, stamp, allowNegative, code, types);
    case DebitsCapped(tenant, max, kind, stamp) => CappedMoves(b, tenant, max, kind, stamp, code, types);
  }

  lemma {:induction false} AccountIsItsTypes(b: Books, calls: seq<LedgerCall>, code: string, types: set<string>)
    requires b.journal == [] && b.balances == map[] && code in b.accounts && !IsTenant(code) && TypesOf(code, types)
    ensures var s := AllOf(b, calls); code in s.accounts && DebitBalance(s, code) == MovedBy(s.journal, types)
  {
    if calls != [] {
      AccountIsItsTypes(b, calls[..|calls| - 1], code, types);
      CallMoves(AllOf(b, calls[..|calls| - 1]), calls[|calls| - 1], code, types);
    }
  }

  lemma {:induction false} AccountsStay(b: Books, calls: seq<LedgerCall>, code: string)
    requires code in b.accounts
    ensures code in AllOf(b, calls).accounts && AllOf(b, calls).accounts[code] == b.accounts[code]
  {
    if calls != [] {
      var before, txn := AllOf(b, calls[..|calls| - 1]), calls[|calls| - 1].AsTxn();
      AccountsStay(b, calls[..|calls| - 1], code);
      match txn
      case PostTxn(p) => if ExecPost(before, p).outcome.Posted? { PostRecords(before, p); }
      case CappedTxn(k) =>
    }
  }

  lemma SeededAccount(calls: seq<LedgerCall>, code: string, types: set<string>)
    requires code in SEEDED.accounts && TypesOf(code, types)
    ensures var s := AllOf(SEEDED, calls);
      BalanceOf(s, code) == if SEEDED.accounts[code].normal == Dr then MovedBy(s.journal, types)
        else -MovedBy(s.journal, types)
  {
    SeededIsConsistent();
    assert code[0] != '2';
    AccountIsItsTypes(SEEDED, calls, code, types);
    AccountsStay(SEEDED, calls, code);
  }

  /** After the calls the account holds what entries of these types have given to tenants. */
  ghost predicate Gained(calls: seq<LedgerCall>, code: string, types: set<string>) {
    var s := AllOf(SEEDED, calls); BalanceOf(s, code) == MovedBy(s.journal, types)
  }

  /** The account holds what entries of these types have taken from tenants. */
  ghost predicate Took(calls: seq<LedgerCall>, code: string, types: set<string>) {
    var s := AllOf(SEEDED, calls); BalanceOf(s, code) == -MovedBy(s.journal, types)
  }

  lemma Cash(calls: seq<LedgerCall>)
    ensures Gained(calls, "1000", {"purchase", "refund"})
  {
    SeededAccount(calls, "1000", {"purchase", "refund"});
  }

  lemma Receivables(calls: seq<LedgerCall>)
    ensures Gained(calls, "1100", {})
  {
    SeededAccount(calls, "1100", {});
  }

  lemma OwnersEquity(calls: seq<LedgerCall>)
    ensures Took(calls, "3000", {})
  {
    SeededAccount(calls, "3000", {});
  }

  lemma BotRuntime(calls: seq<LedgerCall>)
    ensures Took(calls, "4000", {"bot_runtime"})
  {
    SeededAccount(calls, "4000", {"bot_runtime"});
  }

  lemma AdapterUsage(calls: seq<LedgerCall>)
    ensures Took(calls, "4010", {"adapter_usage"})
  {
    SeededAccount(calls, "4010", {"adapter_usage"});
  }

  lemma Addons(calls: seq<LedgerCall>)
    ensures Took(calls, "4020", {"addon"})
  {
    SeededAccount(calls, "4020", {"addon"});
  }

  lemma Storage(calls: seq<LedgerCall>)
    ensures Took(calls, "4030", {"storage_upgrade"})
  {
    SeededAccount(calls, "4030", {"storage_upgrade"});
  }

  lemma Resources(calls: seq<LedgerCall>)
    ensures Took(calls, "4040", {"resource_upgrade"})
  {
    SeededAccount(calls, "4040", {"resource_upgrade"});
  }

  lemma Onboarding(calls: seq<LedgerCall>)
    ensures Took(calls, "4050", {"onboarding_llm"})
  {
    SeededAccount(calls, "4050", {"onboarding_llm"});
  }

  lemma Expired(calls: seq<LedgerCall>)
    ensures Took(calls, "4060", {"credit_expiry"})
  {
    SeededAccount(calls, "4060", {"credit_expiry"});
  }

  lemma Signups(calls: seq<LedgerCall>)
    ensures Gained(calls, "5000", {"signup_grant"})
  {
    SeededAccount(calls, "5000", {"signup_grant"});
  }

  lemma AdminGrants(calls: seq<LedgerCall>)
    ensures Gained(calls, "5010", {"admin_grant"})
  {
    SeededAccount(calls, "5010", {"admin_grant"});
  }

  lemma Promos(calls: seq<LedgerCall>)
    ensures Gained(calls, "5020", {"promo"})
  {
    SeededAccount(calls, "5020", {"promo"});
  }

  lemma Referrals(calls: seq<LedgerCall>)
    ensures Gained(calls, "5030", {"referral"})
  {
    SeededAccount(calls, "5030", {"referral"});
  }

  lemma Affiliates(calls: seq<LedgerCall>)
    ensures Gained(calls, "5040", {"affiliate_bonus", "affiliate_match"})
  {
    SeededAccount(calls, "5040", {"affiliate_bonus", "affiliate_match"});
  }

  lemma Bounties(calls: seq<LedgerCall>)
    ensures Gained(calls, "5050", {"bounty"})
  {
    SeededAccount(calls, "5050", {"bounty"});
  }

  lemma Dividends(calls: seq<LedgerCall>)
    ensures Gained(calls, "5060", {"community_dividend"})
  {
    SeededAccount(calls, "5060", {"community_dividend"});
  }

  lemma Corrections(calls: seq<LedgerCall>)
    ensures Gained(calls, "5070", {"correction"})
  {
    SeededAccount(calls, "5070", {"correction"});
  }

  /**
   Whatever credits, debits and capped debits a seeded ledger has seen: cash is purchases less refunds, each revenue
   account what its type took from tenants, each expense account what its types gave them, and the rest is empty.
   */
  lemma AccountsTellTypes(calls: seq<LedgerCall>)
    ensures Gained(calls, "1000", {"purchase", "refund"})
    ensures Gained(calls, "1100", {})
    ensures Took(calls, "3000", {})
    ensures Took(calls, "4000", {"bot_runtime"})
    ensures Took(calls, "4010", {"adapter_usage"})
    ensures Took(calls, "4020", {"addon"})
    ensures Took(calls, "4030", {"storage_upgrade"})
    ensures Took(calls, "4040", {"resource_upgrade"})
    ensures Took(calls, "4050", {"onboarding_llm"})
    ensures Took(calls, "4060", {"credit_expiry"})
    ensures Gained(calls, "5000", {"signup_grant"})
    ensures Gained(calls, "5010", {"admin_grant"})
    ensures Gained(calls, "5020", {"promo"})
    ensures Gained(calls, "5030", {"referral"})
    ensures Gained(calls, "5040", {"affiliate_bonus", "affiliate_match"})
    ensures Gained(calls, "5050", {"bounty"})
    ensures Gained(calls, "5060", {"community_dividend"})
    ensures Gained(calls, "5070", {"correction"})
  {
    Cash(calls);
    Receivables(calls);
    OwnersEquity(calls);
    BotRuntime(calls);
    AdapterUsage(calls);
    Addons(calls);
    Storage(calls);
    Resources(calls);
    Onboarding(calls);
    Expired(calls);
    Signups(calls);
    AdminGrants(calls);
    Promos(calls);
    Referrals(calls);
    Affiliates(calls);
    Bounties(calls);
    Dividends(calls);
    Corrections(calls);
  }

  // ---- The accounting equation ----

  /** The balance of an account of one of these kinds. */
  function BalanceOfKinds(b: Books, kinds: set<AccountType>, code: string): int {
    if code in b.accounts && b.accounts[code].kind in kinds then BalanceOf(b, code) else 0
  }

  /** Assets and expenses are counted in debits, all other accounts in credits. */
  ghost predicate SidesFollowKinds(b: Books) {
    forall c | c in b.accounts :: b.accounts[c].normal == Dr <==> b.accounts[c].kind in {Asset, Expense}
  }

  lemma ExecKeepsSides(b: Books, t: Txn)
    requires SidesFollowKinds(b)
    ensures SidesFollowKinds(Exec(b, t).books)
  {
    match t
    case PostTxn(p) => if ExecPost(b, p).outcome.Posted? { PostRecords(b, p); }
    case CappedTxn(k) =>
  }

  lemma {:induction false} SidesFollowKindsThroughout(b: Books, ts: seq<Txn>)
    requires SidesFollowKinds(b)
    ensures SidesFollowKinds(ExecAll(b, ts))
  {
    if ts != [] {
      SidesFollowKindsThroughout(b, ts[..|ts| - 1]);
      ExecKeepsSides(ExecAll(b, ts[..|ts| - 1]), ts[|ts| - 1]);
    }
  }

  lemma KindTellsSide(b: Books, c: string)
    requires SidesFollowKinds(b) && c in b.accounts
    ensures BalanceOfKinds(b, {Asset, Expense}, c) == BalanceIf(b, Dr, c)
    ensures BalanceOfKinds(b, {Liability, Equity, Revenue}, c) == BalanceIf(b, Cr, c)
  {
    var kind := b.accounts[c].kind;
    assert kind == Asset || kind == Liability || kind == Equity || kind == Revenue || kind == Expense;
  }

  lemma KindsAddUp(b: Books)
    requires Consistent(b) && SidesFollowKinds(b)
    ensures SumOver(b.balances.Keys, (c: string) => BalanceOfKinds(b, {Asset, Expense}, c))
         == SumOver(b.balances.Keys, (c: string) => BalanceOfKinds(b, {Liability, Equity, Revenue}, c))
  {
    var codes := b.balances.Keys;
    var debits, credits := (c: string) => BalanceIf(b, Dr, c), (c: string) => BalanceIf(b, Cr, c);
    var assets, claims := (c: string) => BalanceOfKinds(b, {Asset, Expense}, c),
                          (c: string) => BalanceOfKinds(b, {Liability, Equity, Revenue}, c);
    forall c | c in codes ensures assets(c) == debits(c) && claims(c) == credits(c) { KindTellsSide(b, c); }
    SumOverEqual(codes, assets, debits);
    SumOverEqual(codes, claims, credits);
    AccountingIdentity(b);
  }

  /** After any calls on a seeded ledger assets and expenses equal liabilities, equity and revenue. */
  lemma AccountingEquation(ts: seq<Txn>)
    ensures var b := ExecAll(SEEDED, ts);
      SumOver(b.balances.Keys, (c: string) => BalanceOfKinds(b, {Asset, Expense}, c))
        == SumOver(b.balances.Keys, (c: string) => BalanceOfKinds(b, {Liability, Equity, Revenue}, c))
  {
    SeededIsConsistent();
    ExecAllKeepsConsistency(SEEDED, ts);
    SidesFollowKindsThroughout(SEEDED, ts);
    KindsAddUp(ExecAll(SEEDED, ts));
  }

  // ---- And each tenant's ----

  lemma TenantMovesByCredit(b: Books, tenant: string, amount: int, kind: CreditType, stamp: Stamp,
                            expiresAt: Option<int>, t: string)
    requires Consistent(b) && Exec(b, CreditTxn(tenant, amount, kind, stamp, expiresAt)).outcome.Posted?
    ensures BalanceOf(Exec(b, CreditTxn(tenant, amount, kind, stamp, expiresAt)).books, "2000:" + t)
         == BalanceOf(b, "2000:" + t) + if t == tenant then amount else 0
  {
    var p := CreditTxn(tenant, amount, kind, stamp, expiresAt).post;
    SystemCodes(kind, Refund);
    TenantCodeIsTenant(t);
    TenantCodesDiffer(t, tenant);
    SimplePostEffect(b, p, p.lines[1], p.lines[0], "2000:" + t);
  }

  lemma TenantMovesByDebit(b: Books, tenant: string, amount: int, kind: DebitType, stamp: Stamp, allowNegative: bool,
                           t: string)
    requires Consistent(b) && Exec(b, DebitTxn(tenant, amount, kind, stamp, allowNegative)).outcome.Posted?
    ensures BalanceOf(Exec(b, DebitTxn(tenant, amount, kind, stamp, allowNegative)).books, "2000:" + t)
         == BalanceOf(b, "2000:" + t) - if t == tenant then amount else 0
  {
    var p := DebitTxn(tenant, amount, kind, stamp, allowNegative).post;
    SystemCodes(Purchase, kind);
    TenantCodeIsTenant(t);
    TenantCodesDiffer(t, tenant);
    SimplePostEffect(b, p, p.lines[0], p.lines[1], "2000:" + t);
  }

  // ---- Which calls are accepted ----

  /** A credit is accepted exactly when it is positive, its reference is new and its funding account exists. */
  lemma CreditAcceptedIff(b: Books, tenant: string, amount: int, kind: CreditType, stamp: Stamp, expiresAt: Option<int>)
    ensures Exec(b, CreditTxn(tenant, amount, kind, stamp, expiresAt)).outcome.Posted? <==>
      && amount > 0 && kind.Source() in b.accounts
      && (forall e | e in b.journal && e.reference.Some? :: e.reference != stamp.reference)
  {
    var p := CreditTxn(tenant, amount, kind, stamp, expiresAt).post;
    PairAcceptedIff(b, p);
  }

  /** So is a debit, if besides the balance covers it or may go negative. */
  lemma DebitAcceptedIff(b: Books, tenant: string, amount: int, kind: DebitType, stamp: Stamp, allowNegative: bool)
    ensures Exec(b, DebitTxn(tenant, amount, kind, stamp, allowNegative)).outcome.Posted? <==>
      && amount > 0 && kind.Target() in b.accounts
      && (forall e | e in b.journal && e.reference.Some? :: e.reference != stamp.reference)
      && (allowNegative || amount <= BalanceOf(b, "2000:" + tenant) <= 9_007_199_254_740_991)
  {
    var p := DebitTxn(tenant, amount, kind, stamp, allowNegative).post;
    PairAcceptedIff(b, p);
  }

  /** A debit that nothing else is wrong with is refused with the balance and what was asked for. */
  lemma ShortDebitIsRefused(b: Books, tenant: string, amount: int, kind: DebitType, stamp: Stamp)
    requires amount > 0 && kind.Target() in b.accounts && BalanceOf(b, "2000:" + tenant) < amount
    requires BalanceOf(b, "2000:" + tenant) <= 9_007_199_254_740_991
    requires forall e | e in b.journal && e.reference.Some? :: e.reference != stamp.reference
    ensures Exec(b, DebitTxn(tenant, amount, kind, stamp, false))
         == Result(b, Rejected(InsufficientBalance(BalanceOf(b, "2000:" + tenant), amount)))
  {
    var p := DebitTxn(tenant, amount, kind, stamp, false).post;
    TwoLinesAreValid(p.lines);
    NotTakenIff(b, p.reference);
    KnownCodesIff(b, p.lines);
    TwoLines(p.lines[0], p.lines[1]);
    TenantCodeIsTenant(tenant);
    assert p.lines == [p.lines[0], p.lines[1]];
  }

  /** Neither credits nor debits of nothing or less are taken. */
  lemma NothingIsRefused(b: Books, tenant: string, amount: int, credit: CreditType, debit: DebitType, stamp: Stamp,
                         expiresAt: Option<int>, allowNegative: bool)
    requires amount <= 0
    ensures Exec(b, CreditTxn(tenant, amount, credit, stamp, expiresAt)) == Result(b, Rejected(NonPositiveAmount))
    ensures Exec(b, DebitTxn(tenant, amount, debit, stamp, allowNegative)) == Result(b, Rejected(NonPositiveAmount))
  {
    var p, q := CreditTxn(tenant, amount, credit, stamp, expiresAt).post,
      DebitTxn(tenant, amount, debit, stamp, allowNegative).post;
    assert p.lines[0] in p.lines && q.lines[0] in q.lines;
  }

  /** A capped debit is rejected only for a missing account, a balance too large, or a reference in use. */
  lemma CappedAcceptedIff(b: Books, tenant: string, max: int, kind: DebitType, stamp: Stamp)
    ensures Exec(b, DebitCappedTxn(tenant, max, kind, stamp)).outcome.Posted? <==>
      && kind.Target() in b.accounts && 0 != BalanceOf(b, "2000:" + tenant) <= 9_007_199_254_740_991
      && (forall e | e in b.journal && e.reference.Some? :: e.reference != stamp.reference)
    ensures Exec(b, DebitCappedTxn(tenant, max, kind, stamp)).outcome.Nothing? <==>
      kind.Target() in b.accounts && BalanceOf(b, "2000:" + tenant) == 0
  {
    SystemCodes(Purchase, kind);
    NotTakenIff(b, stamp.reference);
  }

  lemma NotTakenIff(b: Books, reference: Option<string>)
    ensures !Taken(b, reference) <==> forall e | e in b.journal && e.reference.Some? :: e.reference != reference
  {
    if Taken(b, reference) {
      var e :| e in b.journal && e.reference.Some? && e.reference.value == reference.value;
      assert e.reference == reference;
    }
  }

  lemma PairAcceptedIff(b: Books, p: PostInput)
    requires |p.lines| == 2 && p.lines[0].side != p.lines[1].side && p.lines[0].amount == p.lines[1].amount
    ensures ExecPost(b, p).outcome.Posted? <==>
      && p.lines[0].amount > 0 && CheckHolds(b, p.check)
      && (forall k | 0 <= k < 2 :: IsTenant(p.lines[k].code) || p.lines[k].code in b.accounts)
      && (forall e | e in b.journal && e.reference.Some? :: e.reference != p.reference)
  {
    AcceptedIff(b, p);
    NotTakenIff(b, p.reference);
    TwoLines(p.lines[0], p.lines[1]);
    assert p.lines == [p.lines[0], p.lines[1]] && p.lines[0] in p.lines;
  }
}
