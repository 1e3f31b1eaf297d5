/**
 The tables of the double-entry ledger and the meaning of one transaction on them:
 which journal entry a `post` or `debitCapped` call leaves behind, which balances it
 moves, and which error it reports instead.  Nothing here says how the call locks or loops.
 */
module LedgerBooks {
  import opened Basics

  datatype Side = Dr | Cr
  datatype AccountType = Asset | Liability | Equity | Revenue | Expense
  datatype Account = Account(kind: AccountType, normal: Side)
  datatype Line = Line(code: string, amount: int, side: Side)
  datatype Entry = Entry(id: string, postedAt: int, entryType: string, tenant: string,
                         reference: Option<string>, user: Option<string>, expiresAt: Option<int>,
                         lines: seq<Line>)

  /** The chart of accounts, the materialized balances and the journal, oldest entry first. */
  datatype Books = Books(accounts: map<string, Account>, balances: map<string, int>, journal: seq<Entry>)

  datatype BalanceCheck = BalanceCheck(tenant: string, amount: int)
  datatype PostInput = PostInput(id: string, postedAt: int, entryType: string, tenant: string,
                                 reference: Option<string>, user: Option<string>, expiresAt: Option<int>,
                                 lines: seq<Line>, check: Option<BalanceCheck>)
  datatype CappedInput = CappedInput(id: string, postedAt: int, entryType: string, tenant: string,
                                     reference: Option<string>, user: Option<string>,
                                     max: int, target: string)
  datatype Txn = PostTxn(post: PostInput) | CappedTxn(capped: CappedInput)

  datatype Reason =
    | TooFewLines
    | NonPositiveAmount
    | Unbalanced
    | DuplicateReference
    | AccountNotFound(code: string)
    | BalanceTooLarge
    | InsufficientBalance(current: int, requested: int)
  datatype Outcome = Posted(entry: Entry) | Nothing | Rejected(reason: Reason)
  datatype Result = Result(books: Books, outcome: Outcome)

  const MAX_SAFE_INTEGER: int := 0x1F_FFFF_FFFF_FFFF
  const TENANT_PREFIX: string := "2000:"
  const TENANT_ACCOUNT := Account(Liability, Cr)

  function TenantCode(tenant: string): string { TENANT_PREFIX + tenant }

  predicate IsTenant(code: string) { TENANT_PREFIX <= code }

  // ---- Amounts on journal lines ----

  function Delta(normal: Side, line: Line): int {
    if line.side == normal then line.amount else -line.amount
  }

  /** How far `lines` move an account, counted in the direction of its normal side. */
  function Net(lines: seq<Line>, code: string, normal: Side): int {
    if lines == [] then 0 else
      var last := lines[|lines| - 1];
      Net(lines[..|lines| - 1], code, normal) + if last.code == code then Delta(normal, last) else 0
  }

  function Total(lines: seq<Line>, side: Side): int {
    if lines == [] then 0 else
      var last := lines[|lines| - 1];
      Total(lines[..|lines| - 1], side) + if last.side == side then last.amount else 0
  }

  function Codes(lines: seq<Line>): set<string> { set line | line in lines :: line.code }

  function AllLines(journal: seq<Entry>): seq<Line> {
    if journal == [] then [] else AllLines(journal[..|journal| - 1]) + journal[|journal| - 1].lines
  }

  function References(journal: seq<Entry>): set<string> {
    set e | e in journal && e.reference.Some? :: e.reference.value
  }

  lemma {:induction false} NetConcat(a: seq<Line>, b: seq<Line>, code: string, normal: Side)
    ensures Net(a + b, code, normal) == Net(a, code, normal) + Net(b, code, normal)
  {
    if b == [] { assert a + b == a; } else {
      assert (a + b)[..|a + b| - 1] == a + b[..|b| - 1];
      NetConcat(a, b[..|b| - 1], code, normal);
    }
  }

  lemma {:induction false} TotalConcat(a: seq<Line>, b: seq<Line>, side: Side)
    ensures Total(a + b, side) == Total(a, side) + Total(b, side)
  {
    if b == [] { assert a + b == a; } else {
      assert (a + b)[..|a + b| - 1] == a + b[..|b| - 1];
      TotalConcat(a, b[..|b| - 1], side);
    }
  }

  lemma {:induction false} NetOfAbsentCode(lines: seq<Line>, code: string, normal: Side)
    requires code !in Codes(lines)
    ensures Net(lines, code, normal) == 0
  {
    if lines != [] {
      var last := lines[|lines| - 1];
      assert last in lines;
      assert forall l | l in lines[..|lines| - 1] :: l in lines;
      NetOfAbsentCode(lines[..|lines| - 1], code, normal);
    }
  }

  // ---- The order in which lines are locked and written ----

  /** Stable sort by account code. */
  function SortLines(lines: seq<Line>): (r: seq<Line>)
    ensures |r| == |lines|
  {
    if lines == [] then [] else
      Insert(SortLines(lines[..|lines| - 1]), lines[|lines| - 1])
  }

  function Insert(sorted: seq<Line>, line: Line): (r: seq<Line>)
    ensures |r| == |sorted| + 1
  {
    if sorted == [] || !Before(line.code, sorted[|sorted| - 1].code) then sorted + [line]
    else Insert(sorted[..|sorted| - 1], line) + [sorted[|sorted| - 1]]
  }

  ghost predicate Sorted(lines: seq<Line>) {
    forall i, j | 0 <= i < j < |lines| :: !Before(lines[j].code, lines[i].code)
  }

  lemma {:induction false} InsertKeepsLines(sorted: seq<Line>, line: Line)
    ensures multiset(Insert(sorted, line)) == multiset(sorted) + multiset{line}
  {
    if !(sorted == [] || !Before(line.code, sorted[|sorted| - 1].code)) {
      var rest, last := sorted[..|sorted| - 1], sorted[|sorted| - 1];
      InsertKeepsLines(rest, line);
      assert sorted == rest + [last];
    }
  }

  lemma {:induction false} InsertKeepsNet(sorted: seq<Line>, line: Line, code: string, normal: Side)
    ensures Net(Insert(sorted, line), code, normal) == Net(sorted + [line], code, normal)
  {
    if !(sorted == [] || !Before(line.code, sorted[|sorted| - 1].code)) {
      var rest, last := sorted[..|sorted| - 1], sorted[|sorted| - 1];
      InsertKeepsNet(rest, line, code, normal);
      assert sorted == rest + [last];
      NetConcat(Insert(rest, line), [last], code, normal);
      NetConcat(rest, [last], code, normal);
      NetConcat(sorted, [line], code, normal);
      NetConcat(rest, [line], code, normal);
    }
  }

  lemma {:induction false} InsertKeepsTotal(sorted: seq<Line>, line: Line, side: Side)
    ensures Total(Insert(sorted, line), side) == Total(sorted + [line], side)
  {
    if !(sorted == [] || !Before(line.code, sorted[|sorted| - 1].code)) {
      var rest, last := sorted[..|sorted| - 1], sorted[|sorted| - 1];
      InsertKeepsTotal(rest, line, side);
      assert sorted == rest + [last];
      TotalConcat(Insert(rest, line), [last], side);
      TotalConcat(rest, [last], side);
      TotalConcat(sorted, [line], side);
      TotalConcat(rest, [line], side);
    }
  }

  lemma NotBeforeIsTransitive(a: string, b: string, c: string)
    requires !Before(b, a) && !Before(c, b)
    ensures !Before(c, a)
  {
    BeforeIsTotal(a, b);
    BeforeIsTotal(b, c);
    if Before(a, b) && Before(b, c) { BeforeIsTransitive(a, b, c); }
    if Before(c, a) && Before(a, c) { BeforeIsTransitive(a, c, a); BeforeIsIrreflexive(a); }
  }

  lemma {:induction false} InsertKeepsSorted(sorted: seq<Line>, line: Line)
    requires Sorted(sorted)
    ensures Sorted(Insert(sorted, line))
  {
    if sorted != [] {
      var rest, last := sorted[..|sorted| - 1], sorted[|sorted| - 1];
      if Before(line.code, last.code) {
        var r := Insert(rest, line);
        InsertKeepsSorted(rest, line);
        InsertKeepsLines(rest, line);
        if Before(last.code, line.code) {
          BeforeIsTransitive(last.code, line.code, last.code); BeforeIsIrreflexive(last.code);
        }
        forall i | 0 <= i < |r| ensures !Before(last.code, r[i].code) {
          assert r[i] in multiset(rest) + multiset{line};
          assert r[i] == line || r[i] in rest;
        }
      } else {
        forall i | 0 <= i < |sorted| ensures !Before(line.code, sorted[i].code) {
          if i < |sorted| - 1 { NotBeforeIsTransitive(sorted[i].code, last.code, line.code); }
        }
      }
    }
  }

  lemma {:induction false} SortIsSorted(lines: seq<Line>)
    ensures Sorted(SortLines(lines)) && multiset(SortLines(lines)) == multiset(lines)
  {
    if lines != [] {
      var rest, last := lines[..|lines| - 1], lines[|lines| - 1];
      SortIsSorted(rest);
      InsertKeepsLines(SortLines(rest), last);
      InsertKeepsSorted(SortLines(rest), last);
      assert lines == rest + [last];
    }
  }

  lemma NetOfLast(lines: seq<Line>, sorted: seq<Line>, code: string, normal: Side)
    requires lines != [] && Net(sorted, code, normal) == Net(lines[..|lines| - 1], code, normal)
    ensures Net(sorted + [lines[|lines| - 1]], code, normal) == Net(lines, code, normal)
  {
    assert (sorted + [lines[|lines| - 1]])[..|sorted|] == sorted;
  }

  lemma {:induction false} SortKeepsNet(lines: seq<Line>, code: string, normal: Side)
    ensures Net(SortLines(lines), code, normal) == Net(lines, code, normal)
  {
    if lines != [] {
      var rest, last := lines[..|lines| - 1], lines[|lines| - 1];
      SortKeepsNet(rest, code, normal);
      InsertKeepsNet(SortLines(rest), last, code, normal);
      NetOfLast(lines, SortLines(rest), code, normal);
    }
  }

  lemma TotalOfLast(lines: seq<Line>, sorted: seq<Line>, side: Side)
    requires lines != [] && Total(sorted, side) == Total(lines[..|lines| - 1], side)
    ensures Total(sorted + [lines[|lines| - 1]], side) == Total(lines, side)
  {
    assert (sorted + [lines[|lines| - 1]])[..|sorted|] == sorted;
  }

  lemma {:induction false} SortKeepsTotal(lines: seq<Line>, side: Side)
    ensures Total(SortLines(lines), side) == Total(lines, side)
  {
    if lines != [] {
      var rest, last := lines[..|lines| - 1], lines[|lines| - 1];
      SortKeepsTotal(rest, side);
      InsertKeepsTotal(SortLines(rest), last, side);
      TotalOfLast(lines, SortLines(rest), side);
    }
  }

  lemma SameMembers(x: seq<Line>, y: seq<Line>)
    requires multiset(x) == multiset(y)
    ensures forall line :: line in x <==> line in y
    ensures Codes(x) == Codes(y)
  {
    forall line ensures line in x <==> line in y {
      assert line in x <==> line in multiset(x);
      assert line in y <==> line in multiset(y);
    }
  }

  /** Sorting permutes the lines, so it moves every account by the same amount. */
  lemma SortLinesIsFaithful(lines: seq<Line>)
    ensures Sorted(SortLines(lines))
    ensures multiset(SortLines(lines)) == multiset(lines)
    ensures forall code, normal :: Net(SortLines(lines), code, normal) == Net(lines, code, normal)
    ensures forall side :: Total(SortLines(lines), side) == Total(lines, side)
    ensures forall line :: line in SortLines(lines) <==> line in lines
    ensures Codes(SortLines(lines)) == Codes(lines)
  {
    SortIsSorted(lines);
    SameMembers(SortLines(lines), lines);
    forall code, normal ensures Net(SortLines(lines), code, normal) == Net(lines, code, normal) {
      SortKeepsNet(lines, code, normal);
    }
    forall side ensures Total(SortLines(lines), side) == Total(lines, side) { SortKeepsTotal(lines, side); }
  }

  lemma SortedPair(x: Line, y: Line)
    ensures SortLines([x, y]) == [x, y] || SortLines([x, y]) == [y, x]
  {
    assert [x, y][..1] == [x] && [x][..0] == [];
    assert SortLines([x]) == [x];
    assert Insert([], y) == [y];
  }

  // ---- One transaction ----

  /** The accounts and balance rows that locking `codes` brings into being. */
  function Open(b: Books, codes: set<string>): Books {
    b.(accounts := b.accounts + map c | c in codes && IsTenant(c) && c !in b.accounts :: TENANT_ACCOUNT,
       balances := b.balances + map c | c in codes && c !in b.balances :: 0)
  }

  function Normal(b: Books, code: string): Side {
    if code in b.accounts then b.accounts[code].normal else Cr
  }

  function BalanceOf(b: Books, code: string): int {
    if code in b.balances then b.balances[code] else 0
  }

  /** Append `e` and move every account its lines mention. */
  function Record(b: Books, e: Entry): Books {
    var o := Open(b, Codes(e.lines));
    Books(o.accounts,
          map c | c in o.balances :: o.balances[c] + Net(e.lines, c, Normal(o, c)),
          b.journal + [e])
  }

  /** The first code, in locking order, that has no account and is not a tenant's. */
  function FirstMissing(b: Books, codes: seq<string>): Option<string> {
    if codes == [] then None else
      match FirstMissing(b, codes[..|codes| - 1])
      case Some(c) => Some(c)
      case None =>
        var c := codes[|codes| - 1];
        if IsTenant(c) || c in b.accounts then None else Some(c)
  }

  function LineCodes(lines: seq<Line>): (r: seq<string>)
    ensures |r| == |lines| && forall i | 0 <= i < |r| :: r[i] == lines[i].code
  {
    seq(|lines|, i requires 0 <= i < |lines| => lines[i].code)
  }

  /** The checks `post` makes before it opens a transaction. */
  function Invalid(lines: seq<Line>): Option<Reason> {
    if |lines| < 2 then Some(TooFewLines)
    else if exists line | line in lines :: line.amount <= 0 then Some(NonPositiveAmount)
    else if Total(lines, Dr) != Total(lines, Cr) then Some(Unbalanced)
    else None
  }

  predicate Taken(b: Books, reference: Option<string>) {
    reference.Some? && reference.value in References(b.journal)
  }

  function PostedEntry(p: PostInput): Entry {
    Entry(p.id, p.postedAt, p.entryType, p.tenant, p.reference, p.user, p.expiresAt, SortLines(p.lines))
  }

  function ExecPost(b: Books, p: PostInput): Result {
    var missing := FirstMissing(b, LineCodes(SortLines(p.lines)));
    if Invalid(p.lines).Some? then Result(b, Rejected(Invalid(p.lines).value))
    else if Taken(b, p.reference) then Result(b, Rejected(DuplicateReference))
    else if missing.Some? then Result(b, Rejected(AccountNotFound(missing.value)))
    else if p.check.Some? && BalanceOf(b, TenantCode(p.check.value.tenant)) > MAX_SAFE_INTEGER then
      Result(b, Rejected(BalanceTooLarge))
    else if p.check.Some? && BalanceOf(b, TenantCode(p.check.value.tenant)) < p.check.value.amount then
      Result(b, Rejected(InsufficientBalance(BalanceOf(b, TenantCode(p.check.value.tenant)), p.check.value.amount)))
    else Result(Record(b, PostedEntry(p)), Posted(PostedEntry(p)))
  }

  function Least(a: int, b: int): int { if a < b then a else b }

  function CappedEntry(k: CappedInput, amount: int): Entry {
    Entry(k.id, k.postedAt, k.entryType, k.tenant, k.reference, k.user, None,
          [Line(TenantCode(k.tenant), amount, Dr), Line(k.target, amount, Cr)])
  }

  function ExecCapped(b: Books, k: CappedInput): Result {
    var code := TenantCode(k.tenant);
    var balance := BalanceOf(b, code);
    if !IsTenant(k.target) && k.target !in b.accounts then Result(b, Rejected(AccountNotFound(k.target)))
    else if balance > MAX_SAFE_INTEGER then Result(b, Rejected(BalanceTooLarge))
    else if balance == 0 then Result(Open(b, {code, k.target}), Nothing)
    else if Taken(b, k.reference) then Result(b, Rejected(DuplicateReference))
    else
      var e := CappedEntry(k, Least(balance, k.max));
      Result(Record(b, e), Posted(e))
  }

  /** What one committed (or rolled back) call does to the books, and what it returns. */
  function Exec(b: Books, t: Txn): Result {
    match t
    case PostTxn(p) => ExecPost(b, p)
    case CappedTxn(k) => ExecCapped(b, k)
  }

  /** Calls run one after another. */
  function ExecAll(b: Books, ts: seq<Txn>): Books {
    if ts == [] then b else Exec(ExecAll(b, ts[..|ts| - 1]), ts[|ts| - 1]).books
  }

  // ---- Small facts about the pieces of a transaction ----

  function Members(codes: seq<string>): set<string> { set c | c in codes }

  lemma PostRecords(b: Books, p: PostInput)
    requires ExecPost(b, p).outcome.Posted?
    ensures ExecPost(b, p) == Result(Record(b, PostedEntry(p)), Posted(PostedEntry(p)))
  {}

  lemma CodesOfLineCodes(lines: seq<Line>)
    ensures Members(LineCodes(lines)) == Codes(lines)
  {
    var codes := LineCodes(lines);
    forall c ensures c in codes <==> c in Codes(lines) {
      if c in codes { var i :| 0 <= i < |codes| && codes[i] == c; assert lines[i] in lines; }
      if c in Codes(lines) {
        var l :| l in lines && l.code == c; var i :| 0 <= i < |lines| && lines[i] == l; assert codes[i] == c;
      }
    }
  }

  lemma NormalOfOpened(b: Books, codes: set<string>, c: string)
    ensures Normal(Open(b, codes), c) == Normal(b, c)
    ensures BalanceOf(Open(b, codes), c) == BalanceOf(b, c)
  {}

  lemma MissingOfPair(b: Books, code: string, target: string, codes: seq<string>)
    requires IsTenant(code) && (codes == [code, target] || codes == [target, code])
    ensures FirstMissing(b, codes) == if IsTenant(target) || target in b.accounts then None else Some(target)
    ensures Members(codes) == {code, target}
  {
    assert codes[..1] == [codes[0]] && [codes[0]][..0] == [];
    assert FirstMissing(b, []) == None;
    assert FirstMissing(b, [codes[0]]) == if IsTenant(codes[0]) || codes[0] in b.accounts then None else Some(codes[0]);
  }

  // ---- credit() and debit() in terms of post() ----

  datatype CreditType = SignupGrant | AdminGrant | Purchase | Bounty | Referral | Promo
                      | CommunityDividend | AffiliateBonus | AffiliateMatch | CreditCorrection
  {
    function Name(): string {
      match this
      case SignupGrant => "signup_grant" case AdminGrant => "admin_grant" case Purchase => "purchase"
      case Bounty => "bounty" case Referral => "referral" case Promo => "promo"
      case CommunityDividend => "community_dividend" case AffiliateBonus => "affiliate_bonus"
      case AffiliateMatch => "affiliate_match" case CreditCorrection => "correction"
    }

    function Source(): string {
      match this
      case Purchase => "1000" case SignupGrant => "5000" case AdminGrant => "5010" case Promo => "5020"
      case Referral => "5030" case AffiliateBonus => "5040" case AffiliateMatch => "5040"
      case Bounty => "5050" case CommunityDividend => "5060" case CreditCorrection => "5070"
    }
  }

  datatype DebitType = BotRuntime | AdapterUsage | Addon | Refund | DebitCorrection
                     | ResourceUpgrade | StorageUpgrade | OnboardingLlm | CreditExpiry
  {
    function Name(): string {
      match this
      case BotRuntime => "bot_runtime" case AdapterUsage => "adapter_usage" case Addon => "addon"
      case Refund => "refund" case DebitCorrection => "correction" case ResourceUpgrade => "resource_upgrade"
      case StorageUpgrade => "storage_upgrade" case OnboardingLlm => "onboarding_llm"
      case CreditExpiry => "credit_expiry"
    }

    function Target(): string {
      match this
      case BotRuntime => "4000" case AdapterUsage => "4010" case Addon => "4020" case StorageUpgrade => "4030"
      case ResourceUpgrade => "4040" case OnboardingLlm => "4050" case CreditExpiry => "4060"
      case Refund => "1000" case DebitCorrection => "5070"
    }
  }

  /** The generated and optional parts of a call: the random id, the clock and the caller's options. */
  datatype Stamp = Stamp(id: string, now: int, reference: Option<string>, user: Option<string>)

  function CreditTxn(tenant: string, amount: int, kind: CreditType, stamp: Stamp, expiresAt: Option<int>): Txn {
    PostTxn(PostInput(stamp.id, stamp.now, kind.Name(), tenant, stamp.reference, stamp.user, expiresAt,
                      [Line(kind.Source(), amount, Dr), Line(TenantCode(tenant), amount, Cr)], None))
  }

  function DebitTxn(tenant: string, amount: int, kind: DebitType, stamp: Stamp, allowNegative: bool): Txn {
    PostTxn(PostInput(stamp.id, stamp.now, kind.Name(), tenant, stamp.reference, stamp.user, None,
                      [Line(TenantCode(tenant), amount, Dr), Line(kind.Target(), amount, Cr)],
                      if allowNegative then None else Some(BalanceCheck(tenant, amount))))
  }

  function DebitCappedTxn(tenant: string, max: int, kind: DebitType, stamp: Stamp): Txn {
    CappedTxn(CappedInput(stamp.id, stamp.now, kind.Name(), tenant, stamp.reference, stamp.user, max, kind.Target()))
  }

  /** The books after seedSystemAccounts(). */
  const SEEDED := Books(
    map["1000" := Account(Asset, Dr), "1100" := Account(Asset, Dr), "3000" := Account(Equity, Cr),
        "4000" := Account(Revenue, Cr), "4010" := Account(Revenue, Cr), "4020" := Account(Revenue, Cr),
        "4030" := Account(Revenue, Cr), "4040" := Account(Revenue, Cr), "4050" := Account(Revenue, Cr),
        "4060" := Account(Revenue, Cr), "5000" := Account(Expense, Dr), "5010" := Account(Expense, Dr),
        "5020" := Account(Expense, Dr), "5030" := Account(Expense, Dr), "5040" := Account(Expense, Dr),
        "5050" := Account(Expense, Dr), "5060" := Account(Expense, Dr), "5070" := Account(Expense, Dr)],
    map[], [])
}
