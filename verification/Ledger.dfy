/**
 DrizzleLedger: one call at a time on the tables.  A database transaction is a set of local
 copies that is assigned to the fields when the transaction commits and dropped when it throws.
 */
module Ledger {
  import opened Basics
  import opened LedgerBooks
  import opened LedgerInvariants

  datatype TrialBalance = TrialBalance(totalDebits: int, totalCredits: int, balanced: bool, difference: int)

  /** A credit grant that is due to be clawed back. */
  datatype Grant = Grant(entryId: string, tenant: string, amount: int)

  const EXPIRABLE_CREDIT_TYPES: set<string> :=
    {"signup_grant", "admin_grant", "purchase", "bounty", "referral", "promo", "community_dividend",
     "affiliate_bonus", "affiliate_match", "correction"}

  function ExpiryReference(entryId: string): string { "expiry:" + entryId }

  predicate IsLiability(b: Books, code: string) { code in b.accounts && b.accounts[code].kind == Liability }

  /** The amount of the first credit line on a liability account; 0 when there is none. */
  function GrantedAmount(b: Books, lines: seq<Line>): int {
    if lines == [] then 0
    else if lines[0].side == Cr && IsLiability(b, lines[0].code) then lines[0].amount
    else GrantedAmount(b, lines[1..])
  }

  predicate IsDue(e: Entry, now: int) {
    e.expiresAt.Some? && e.expiresAt.value <= now && e.entryType in EXPIRABLE_CREDIT_TYPES
  }

  function DueEntries(journal: seq<Entry>, now: int): seq<Entry> {
    if journal == [] then [] else
      var last := journal[|journal| - 1];
      DueEntries(journal[..|journal| - 1], now) + if IsDue(last, now) then [last] else []
  }

  predicate IsOpen(b: Books, e: Entry) {
    GrantedAmount(b, e.lines) != 0 && ExpiryReference(e.id) !in References(b.journal)
  }

  function OpenGrants(b: Books, due: seq<Entry>): seq<Grant> {
    if due == [] then [] else
      var last := due[|due| - 1];
      OpenGrants(b, due[..|due| - 1])
      + if IsOpen(b, last) then [Grant(last.id, last.tenant, GrantedAmount(b, last.lines))] else []
  }

  function ExpiredGrants(b: Books, now: int): seq<Grant> { OpenGrants(b, DueEntries(b.journal, now)) }

  // ---- Which grants are listed ----

  /** The first credit line on a liability account is line k, of this amount. */
  ghost predicate GrantedAt(b: Books, lines: seq<Line>, k: nat, amount: int) {
    && k < |lines| && Grants(b, lines[k]) && lines[k].amount == amount
    && forall j | 0 <= j < k :: !Grants(b, lines[j])
  }

  ghost predicate FirstGranted(b: Books, lines: seq<Line>, amount: int) { exists k :: GrantedAt(b, lines, k, amount) }

  predicate Grants(b: Books, line: Line) {
    line.side == Cr && line.code in b.accounts && b.accounts[line.code].kind == Liability
  }

  /** The entry's grant has expired: a date that is past, one of the ten types, an amount, and no expiry entry. */
  ghost predicate HasExpired(b: Books, e: Entry, now: int, amount: int) {
    && e.expiresAt.Some? && e.expiresAt.value <= now
    && (|| e.entryType == "signup_grant" || e.entryType == "admin_grant" || e.entryType == "purchase"
        || e.entryType == "bounty" || e.entryType == "referral" || e.entryType == "promo"
        || e.entryType == "community_dividend" || e.entryType == "affiliate_bonus" || e.entryType == "affiliate_match"
        || e.entryType == "correction")
    && amount != 0 && FirstGranted(b, e.lines, amount)
    && (forall f | f in b.journal :: f.reference != Some("expiry:" + e.id))
  }

  ghost predicate IsListed(b: Books, now: int, g: Grant) {
    exists e | e in b.journal :: e.id == g.entryId && e.tenant == g.tenant && HasExpired(b, e, now, g.amount)
  }

  lemma GrantedAtShifts(b: Books, lines: seq<Line>, k: nat, amount: int)
    requires lines != [] && !Grants(b, lines[0])
    ensures GrantedAt(b, lines, k + 1, amount) <==> GrantedAt(b, lines[1..], k, amount)
  {
    if GrantedAt(b, lines, k + 1, amount) {
      forall j | 0 <= j < k ensures !Grants(b, lines[1..][j]) { assert lines[1..][j] == lines[j + 1]; }
    }
    if GrantedAt(b, lines[1..], k, amount) {
      forall j | 0 <= j < k + 1 ensures !Grants(b, lines[j]) {
        if j > 0 { assert lines[j] == lines[1..][j - 1]; }
      }
    }
  }

  lemma {:induction false} GrantedAmountIff(b: Books, lines: seq<Line>, amount: int)
    requires amount != 0
    ensures GrantedAmount(b, lines) == amount <==> FirstGranted(b, lines, amount)
  {
    if lines != [] {
      GrantedAmountIff(b, lines[1..], amount);
      if Grants(b, lines[0]) {
        assert lines[0].amount == amount ==> GrantedAt(b, lines, 0, amount);
      } else {
        if k :| GrantedAt(b, lines[1..], k, amount) { GrantedAtShifts(b, lines, k, amount); }
        if k: nat :| GrantedAt(b, lines, k, amount) {
          assert k > 0;
          GrantedAtShifts(b, lines, k - 1, amount);
        }
      }
    }
  }

  lemma {:induction false} DueIff(journal: seq<Entry>, now: int, e: Entry)
    ensures e in DueEntries(journal, now) <==> e in journal && IsDue(e, now)
  {
    if journal != [] {
      DueIff(journal[..|journal| - 1], now, e);
      assert e in journal <==> e in journal[..|journal| - 1] || e == journal[|journal| - 1];
    }
  }

  lemma {:induction false} OpenGrantIff(b: Books, due: seq<Entry>, g: Grant)
    ensures g in OpenGrants(b, due) <==>
      exists e | e in due :: IsOpen(b, e) && g == Grant(e.id, e.tenant, GrantedAmount(b, e.lines))
  {
    if due != [] {
      var rest, last := due[..|due| - 1], due[|due| - 1];
      OpenGrantIff(b, rest, g);
      assert forall e :: e in due <==> e in rest || e == last;
    }
  }

  lemma ExpiredIff(b: Books, now: int, e: Entry, amount: int)
    requires e in b.journal
    ensures HasExpired(b, e, now, amount) <==> IsDue(e, now) && IsOpen(b, e) && amount == GrantedAmount(b, e.lines)
  {
    if amount != 0 { GrantedAmountIff(b, e.lines, amount); }
    if "expiry:" + e.id in References(b.journal) {
      var f :| f in b.journal && f.reference.Some? && f.reference.value == "expiry:" + e.id;
      assert f.reference == Some("expiry:" + e.id);
    }
  }

  /** A grant is listed exactly when it has expired and has not been reclaimed. */
  lemma ListedIff(b: Books, now: int, g: Grant)
    ensures g in ExpiredGrants(b, now) <==> IsListed(b, now, g)
  {
    var due := DueEntries(b.journal, now);
    OpenGrantIff(b, due, g);
    if e :| e in due && IsOpen(b, e) && g == Grant(e.id, e.tenant, GrantedAmount(b, e.lines)) {
      DueIff(b.journal, now, e);
      ExpiredIff(b, now, e, g.amount);
    }
    if e :| e in b.journal && e.id == g.entryId && e.tenant == g.tenant && HasExpired(b, e, now, g.amount) {
      DueIff(b.journal, now, e);
      ExpiredIff(b, now, e, g.amount);
    }
  }

  lemma {:induction false} MissingInPrefix(b: Books, codes: seq<string>, n: nat)
    requires n <= |codes| && FirstMissing(b, codes[..n]).Some?
    ensures FirstMissing(b, codes) == FirstMissing(b, codes[..n])
  {
    if n == |codes| { assert codes[..n] == codes; } else {
      assert codes[..|codes| - 1][..n] == codes[..n];
      MissingInPrefix(b, codes[..|codes| - 1], n);
    }
  }

  lemma RecordFromLoop(b: Books, e: Entry, o: Books, balances: map<string, int>)
    requires o == Open(b, Codes(e.lines)) && balances.Keys == o.balances.Keys
    requires forall c | c in balances :: balances[c] == o.balances[c] + Net(e.lines, c, Normal(o, c))
    ensures Books(o.accounts, balances, b.journal + [e]) == Record(b, e)
  {
    assert balances == Record(b, e).balances;
  }

  lemma OpenNone(b: Books)
    ensures Open(b, Members([])) == b
  {}

  lemma AccountAfterOpen(b: Books, cs: set<string>, c: string)
    ensures c in Open(b, cs).accounts <==> c in b.accounts || (c in cs && IsTenant(c))
    ensures c in Open(b, cs).accounts ==> Open(b, cs).accounts[c] == if c in b.accounts then b.accounts[c]
      else TENANT_ACCOUNT
  {}

  lemma SameAccounts(x: map<string, Account>, y: map<string, Account>)
    requires forall c :: (c in x <==> c in y) && (c in x ==> x[c] == y[c])
    ensures x == y
  {}

  lemma OpenOneAccount(b: Books, cs: set<string>, code: string)
    requires IsTenant(code) || code in b.accounts
    ensures var o := Open(b, cs);
      Open(b, cs + {code}).accounts == if code in o.accounts then o.accounts else o.accounts[code := TENANT_ACCOUNT]
  {
    var before, after := Open(b, cs).accounts, Open(b, cs + {code}).accounts;
    var expected := if code in before then before else before[code := TENANT_ACCOUNT];
    forall c ensures (c in after <==> c in expected) && (c in after ==> after[c] == expected[c]) {
      AccountAfterOpen(b, cs, c);
      AccountAfterOpen(b, cs, code);
      AccountAfterOpen(b, cs + {code}, c);
    }
    SameAccounts(after, expected);
  }

  lemma OpenOneBalance(b: Books, cs: set<string>, code: string)
    ensures var o := Open(b, cs);
      Open(b, cs + {code}).balances == if code in o.balances then o.balances else o.balances[code := 0]
  {
    var old', new' := Open(b, cs).balances, Open(b, cs + {code}).balances;
    assert forall c :: c in new' <==> c in old' || c == code;
  }

  lemma NextCode(b: Books, codes: seq<string>, i: nat)
    requires i < |codes| && FirstMissing(b, codes[..i]).None?
    ensures Members(codes[..i + 1]) == Members(codes[..i]) + {codes[i]}
    ensures FirstMissing(b, codes[..i + 1]) == if IsTenant(codes[i]) || codes[i] in b.accounts then None
      else Some(codes[i])
    ensures codes[i] in Open(b, Members(codes[..i])).accounts ==> IsTenant(codes[i]) || codes[i] in b.accounts
  {
    assert codes[..i + 1] == codes[..i] + [codes[i]];
    assert codes[..i + 1][..i] == codes[..i];
  }

  lemma AccountMissing(b: Books, codes: seq<string>, i: nat)
    requires i < |codes| && FirstMissing(b, codes[..i]).None?
    requires !IsTenant(codes[i]) && codes[i] !in Open(b, Members(codes[..i])).accounts
    ensures FirstMissing(b, codes[..i + 1]) == Some(codes[i])
  {
    NextCode(b, codes, i);
    AccountAfterOpen(b, Members(codes[..i]), codes[i]);
  }

  lemma OpenOneMore(b: Books, codes: seq<string>, i: nat, o: Books)
    requires i < |codes| && o == Open(b, Members(codes[..i])) && (IsTenant(codes[i]) || codes[i] in b.accounts)
    ensures Open(b, Members(codes[..i + 1])) ==
      Books(if codes[i] in o.accounts then o.accounts else o.accounts[codes[i] := TENANT_ACCOUNT],
            if codes[i] in o.balances then o.balances else o.balances[codes[i] := 0], b.journal)
  {
    assert codes[..i + 1] == codes[..i] + [codes[i]];
    assert Members(codes[..i + 1]) == Members(codes[..i]) + {codes[i]};
    OpenOneAccount(b, Members(codes[..i]), codes[i]);
    OpenOneBalance(b, Members(codes[..i]), codes[i]);
  }

  lemma LinesAreOpen(b: Books, p: PostInput)
    requires FirstMissing(b, LineCodes(SortLines(p.lines))).None?
    ensures var sorted := SortLines(p.lines); var o := Open(b, Codes(sorted));
      Codes(sorted) <= o.balances.Keys && Codes(sorted) <= o.accounts.Keys
  {
    KnownCodesIff(b, p.lines);
    SortLinesIsFaithful(p.lines);
  }

  /** Why a `post` is refused, if it is: the first of its checks that fails. */
  function PostReason(b: Books, p: PostInput): Option<Reason> {
    var missing := FirstMissing(b, LineCodes(SortLines(p.lines)));
    if Invalid(p.lines).Some? then Invalid(p.lines)
    else if Taken(b, p.reference) then Some(DuplicateReference)
    else if missing.Some? then Some(AccountNotFound(missing.value))
    else BalanceReason(b, p.check)
  }

  function BalanceReason(b: Books, check: Option<BalanceCheck>): Option<Reason> {
    if check.None? then None else
      var current := BalanceOf(b, TenantCode(check.value.tenant));
      if current > MAX_SAFE_INTEGER then Some(BalanceTooLarge)
      else if current < check.value.amount then Some(InsufficientBalance(current, check.value.amount))
      else None
  }

  lemma PostByReason(b: Books, p: PostInput)
    ensures ExecPost(b, p) == match PostReason(b, p)
                              case Some(reason) => Result(b, Rejected(reason))
                              case None => Result(Record(b, PostedEntry(p)), Posted(PostedEntry(p)))
    ensures PostReason(b, p).None? ==> FirstMissing(b, LineCodes(SortLines(p.lines))).None?
  {}

  lemma SameBalanceReason(b: Books, codes: set<string>, check: Option<BalanceCheck>)
    ensures BalanceReason(Open(b, codes), check) == BalanceReason(b, check)
  {
    if check.Some? { NormalOfOpened(b, codes, TenantCode(check.value.tenant)); }
  }

  lemma CappedPosts(b: Books, k: CappedInput, e: Entry, amount: int)
    requires IsTenant(k.target) || k.target in b.accounts
    requires 0 != BalanceOf(b, TenantCode(k.tenant)) <= MAX_SAFE_INTEGER && !Taken(b, k.reference)
    requires amount == Least(BalanceOf(b, TenantCode(k.tenant)), k.max) && e == CappedEntry(k, amount)
    ensures ExecCapped(b, k) == Result(Record(b, e), Posted(e))
    ensures Codes(e.lines) == {TenantCode(k.tenant), k.target}
  {
    TwoLines(e.lines[0], e.lines[1]);
  }

  /** debitCapped's two updates give the balances Record does. */
  lemma CappedUpdates(b: Books, e: Entry, o: Books, code: string, target: string, amount: int, creditDelta: int)
    requires e.lines == [Line(code, amount, Dr), Line(target, amount, Cr)] && code != target
    requires o == Open(b, Codes(e.lines)) && Normal(o, code) == Cr
    requires creditDelta == if Normal(o, target) == Cr then amount else -amount
    ensures code in o.balances && target in o.balances
    ensures Books(o.accounts, o.balances[code := o.balances[code] - amount][target := o.balances[target] + creditDelta],
                  b.journal + [e]) == Record(b, e)
  {
    TwoLines(e.lines[0], e.lines[1]);
    RecordFromLoop(b, e, o, o.balances[code := o.balances[code] - amount][target := o.balances[target] + creditDelta]);
  }

  class DrizzleLedger {
    var accounts: map<string, Account>
    var balances: map<string, int>
    var journal: seq<Entry>

    function Contents(): Books
      reads this
    {
      Books(accounts, balances, journal)
    }

    ghost predicate Valid()
      reads this
    {
      Consistent(Contents())
    }

    /** A ledger whose system accounts have been seeded. */
    constructor ()
      ensures Valid() && Contents() == SEEDED
    {
      accounts, balances, journal := SEEDED.accounts, SEEDED.balances, SEEDED.journal;
      new;
      SeededIsConsistent();
    }

    method HasReferenceId(reference: string) returns (found: bool)
      ensures found <==> exists e :: e in journal && e.reference == Some(reference)
    {
      found := reference in References(journal);
      if found { var e :| e in journal && e.reference.Some? && e.reference.value == reference; }
    }

    /** Lock one account, creating a tenant's account and a zero balance where they are missing. */
    method LockAccount(txAccounts: map<string, Account>, txBalances: map<string, int>, code: string)
      returns (found: bool, accounts': map<string, Account>, balances': map<string, int>)
      ensures found <==> code in txAccounts || IsTenant(code)
      ensures found ==> accounts' == if code in txAccounts then txAccounts else txAccounts[code := TENANT_ACCOUNT]
      ensures found ==> balances' == if code in txBalances then txBalances else txBalances[code := 0]
    {
      found, accounts', balances' := true, txAccounts, txBalances;
      if code !in txAccounts {
        if !IsTenant(code) { return false, txAccounts, txBalances; }
        accounts' := txAccounts[code := TENANT_ACCOUNT];
      }
      if code !in txBalances { balances' := txBalances[code := 0]; }
    }

    /** The accounts and balance rows as they stand once every line's account is locked. */
    method ResolveAccounts(codes: seq<string>)
      returns (missing: Option<string>, txAccounts: map<string, Account>, txBalances: map<string, int>)
      ensures missing == FirstMissing(Contents(), codes)
      ensures missing.None? ==> Books(txAccounts, txBalances, journal) == Open(Contents(), Members(codes))
    {
      ghost var b := Contents();
      txAccounts, txBalances := accounts, balances;
      OpenNone(b);
      for i := 0 to |codes|
        invariant FirstMissing(b, codes[..i]).None?
        invariant Books(txAccounts, txBalances, journal) == Open(b, Members(codes[..i]))
      {
        NextCode(b, codes, i);
        ghost var o := Books(txAccounts, txBalances, journal);
        var found;
        found, txAccounts, txBalances := LockAccount(txAccounts, txBalances, codes[i]);
        if !found {
          AccountMissing(b, codes, i);
          MissingInPrefix(b, codes, i + 1);
          return Some(codes[i]), txAccounts, txBalances;
        }
        OpenOneMore(b, codes, i, o);
      }
      assert codes[..|codes|] == codes;
      missing := None;
    }

    /** The checks made before the transaction opens. */
    method CheckLines(lines: seq<Line>) returns (reason: Option<Reason>)
      ensures reason == Invalid(lines)
    {
      if |lines| < 2 { return Some(TooFewLines); }
      var totalDebit, totalCredit := 0, 0;
      for i := 0 to |lines|
        invariant totalDebit == Total(lines[..i], Dr) && totalCredit == Total(lines[..i], Cr)
        invariant forall line | line in lines[..i] :: line.amount > 0
      {
        var line := lines[i];
        assert lines[..i + 1][..i] == lines[..i];
        if line.amount <= 0 { return Some(NonPositiveAmount); }
        if line.side == Dr {
          totalDebit := totalDebit + line.amount;
        } else {
          totalCredit := totalCredit + line.amount;
        }
      }
      assert lines[..|lines|] == lines;
      reason := if totalDebit != totalCredit then Some(Unbalanced) else None;
    }

    /** Insert the lines one by one, moving the balance of each one's account. */
    method ApplyLines(o: Books, sorted: seq<Line>) returns (lines: seq<Line>, txBalances: map<string, int>)
      requires Codes(sorted) <= o.balances.Keys && Codes(sorted) <= o.accounts.Keys
      ensures lines == sorted && txBalances.Keys == o.balances.Keys
      ensures forall c | c in txBalances :: txBalances[c] == o.balances[c] + Net(sorted, c, Normal(o, c))
    {
      lines, txBalances := [], o.balances;
      for i := 0 to |sorted|
        invariant lines == sorted[..i]
        invariant txBalances.Keys == o.balances.Keys
        invariant forall c | c in txBalances :: txBalances[c] == o.balances[c] + Net(lines, c, Normal(o, c))
      {
        var line := sorted[i];
        assert line.code in Codes(sorted);
        var delta := if line.side == o.accounts[line.code].normal then line.amount else -line.amount;
        txBalances := txBalances[line.code := txBalances[line.code] + delta];
        assert (lines + [line])[..|lines|] == lines;
        lines := lines + [line];
      }
    }

    /** Phase 2: the balance check, under the locks. */
    method CheckBalance(o: Books, check: Option<BalanceCheck>) returns (reason: Option<Reason>)
      ensures reason == BalanceReason(o, check)
    {
      reason := None;
      if check.Some? {
        var current := BalanceOf(o, TenantCode(check.value.tenant));
        if current > MAX_SAFE_INTEGER { return Some(BalanceTooLarge); }
        if current < check.value.amount { return Some(InsufficientBalance(current, check.value.amount)); }
      }
    }

    /** Everything before the first line is written: validation, the header, the locks and the balance check. */
    method Prepare(input: PostInput) returns (reason: Option<Reason>, sorted: seq<Line>, o: Books)
      ensures reason == PostReason(Contents(), input)
      ensures reason.None? ==> sorted == SortLines(input.lines) && o == Open(Contents(), Codes(sorted))
    {
      ghost var b := Contents();
      sorted, o := SortLines(input.lines), Contents();
      reason := CheckLines(input.lines);
      if reason.Some? { return; }
      if input.reference.Some? && input.reference.value in References(journal) {
        return Some(DuplicateReference), sorted, o;
      }

      // Phase 1: lock every account in code order.
      var missing, txAccounts, txBalances := ResolveAccounts(LineCodes(sorted));
      if missing.Some? { return Some(AccountNotFound(missing.value)), sorted, o; }
      o := Books(txAccounts, txBalances, journal);
      CodesOfLineCodes(sorted);
      reason := CheckBalance(o, input.check);
      SameBalanceReason(b, Codes(sorted), input.check);
    }

    /** Phase 3: insert the lines and move the balances. */
    method Write(input: PostInput, sorted: seq<Line>, o: Books) returns (entry: Entry)
      requires sorted == SortLines(input.lines) && o == Open(Contents(), Codes(sorted))
      requires Codes(sorted) <= o.balances.Keys && Codes(sorted) <= o.accounts.Keys
      modifies this
      ensures Contents() == Record(old(Contents()), entry) && entry == PostedEntry(input)
    {
      ghost var b := Contents();
      var lines, moved := ApplyLines(o, sorted);
      entry := Entry(input.id, input.postedAt, input.entryType, input.tenant, input.reference, input.user,
                     input.expiresAt, lines);
      RecordFromLoop(b, entry, o, moved);
      accounts, balances, journal := o.accounts, moved, journal + [entry];
    }

    method Post(input: PostInput) returns (outcome: Outcome)
      requires Valid()
      modifies this
      ensures Valid()
      ensures Result(Contents(), outcome) == ExecPost(old(Contents()), input)
    {
      ghost var b := Contents();
      ExecKeepsConsistency(b, PostTxn(input));
      PostByReason(b, input);
      var reason, sorted, o := Prepare(input);
      if reason.Some? { return Rejected(reason.value); }
      LinesAreOpen(b, input);
      var entry := Write(input, sorted, o);
      outcome := Posted(entry);
    }

    method Credit(tenant: string, amount: int, kind: CreditType, stamp: Stamp, expiresAt: Option<int>)
      returns (outcome: Outcome)
      requires Valid()
      modifies this
      ensures Valid()
      ensures Result(Contents(), outcome) == Exec(old(Contents()), CreditTxn(tenant, amount, kind, stamp, expiresAt))
    {
      var txn := CreditTxn(tenant, amount, kind, stamp, expiresAt);
      if amount <= 0 {
        assert txn.post.lines[0] in txn.post.lines;
        return Rejected(NonPositiveAmount);
      }
      outcome := Post(txn.post);
    }

    method Debit(tenant: string, amount: int, kind: DebitType, stamp: Stamp, allowNegative: bool)
      returns (outcome: Outcome)
      requires Valid()
      modifies this
      ensures Valid()
      ensures Result(Contents(), outcome) == Exec(old(Contents()), DebitTxn(tenant, amount, kind, stamp, allowNegative))
    {
      var txn := DebitTxn(tenant, amount, kind, stamp, allowNegative);
      if amount <= 0 {
        assert txn.post.lines[0] in txn.post.lines;
        return Rejected(NonPositiveAmount);
      }
      outcome := Post(txn.post);
    }

    method DebitCapped(tenant: string, max: int, kind: DebitType, stamp: Stamp) returns (outcome: Outcome)
      requires Valid()
      modifies this
      ensures Valid()
      ensures Result(Contents(), outcome) == Exec(old(Contents()), DebitCappedTxn(tenant, max, kind, stamp))
    {
      SystemCodes(Purchase, kind);
      outcome := PostCapped(DebitCappedTxn(tenant, max, kind, stamp).capped);
    }

    /** Lock debitCapped's two accounts, sorted as `post` would lock them. */
    method LockPair(code: string, target: string) returns (found: bool, o: Books)
      requires IsTenant(code)
      ensures found <==> IsTenant(target) || target in accounts
      ensures found ==> o == Open(Contents(), {code, target})
    {
      var sortedCodes := if Before(target, code) then [target, code] else [code, target];
      var missing, txAccounts, txBalances := ResolveAccounts(sortedCodes);
      MissingOfPair(Contents(), code, target, sortedCodes);
      found, o := missing.None?, Books(txAccounts, txBalances, journal);
    }

    /** The transaction of debitCapped: a second copy of the locking and posting protocol. */
    method PostCapped(k: CappedInput) returns (outcome: Outcome)
      requires Valid() && !IsTenant(k.target)
      modifies this
      ensures Valid()
      ensures Result(Contents(), outcome) == ExecCapped(old(Contents()), k)
    {
      ghost var b := Contents();
      ExecKeepsConsistency(b, CappedTxn(k));
      var code, target := TenantCode(k.tenant), k.target;
      var found, o := LockPair(code, target);
      if !found { return Rejected(AccountNotFound(target)); }
      NormalOfOpened(b, {code, target}, code);

      var current := BalanceOf(o, code);
      if current > MAX_SAFE_INTEGER { return Rejected(BalanceTooLarge); }
      if current == 0 {
        accounts, balances := o.accounts, o.balances;
        return Nothing;
      }
      var amount := if current < k.max then current else k.max;
      if k.reference.Some? && k.reference.value in References(journal) { return Rejected(DuplicateReference); }
      var entry := Entry(k.id, k.postedAt, k.entryType, k.tenant, k.reference, k.user, None,
                         [Line(code, amount, Dr), Line(target, amount, Cr)]);
      CappedPosts(b, k, entry, amount);
      TenantsAreCreditNormal(b, {code, target}, code);
      var creditDelta := if Normal(o, target) == Cr then amount else -amount;
      CappedUpdates(b, entry, o, code, target, amount, creditDelta);
      accounts := o.accounts;
      balances := o.balances[code := o.balances[code] - amount][target := o.balances[target] + creditDelta];
      journal := journal + [entry];
      outcome := Posted(entry);
    }

    function Balance(tenant: string): int
      reads this
    {
      BalanceOf(Contents(), TenantCode(tenant))
    }

    /** The books always balance; the only failure is a total beyond 2^53 - 1, reported as None. */
    method CheckTrialBalance() returns (r: Option<TrialBalance>)
      requires Valid()
      ensures r.None? <==> Total(AllLines(journal), Dr) > 9_007_199_254_740_991
      ensures r.Some? ==> r.value.balanced && r.value.difference == 0
                          && r.value.totalDebits == r.value.totalCredits == Total(AllLines(journal), Dr)
    {
      var debits, credits := Total(AllLines(journal), Dr), Total(AllLines(journal), Cr);
      var difference := if debits > credits then debits - credits else credits - debits;
      AccountingIdentity(Contents());
      if debits > MAX_SAFE_INTEGER || credits > MAX_SAFE_INTEGER { return None; }
      r := Some(TrialBalance(debits, credits, debits == credits, difference));
    }

    /** Everything ever debited from the tenant; what is left of the credits is the balance. */
    method TotalSpend(tenant: string) returns (r: Option<int>)
      requires Valid()
      ensures r.None? <==> LifetimeSpend(journal, tenant) > 9_007_199_254_740_991
      ensures r.Some? ==> Balance(tenant) == CreditsOn(AllLines(journal), TenantCode(tenant)) - r.value
    {
      var raw := LifetimeSpend(journal, tenant);
      SpendIsConserved(Contents(), tenant);
      if raw > MAX_SAFE_INTEGER { return None; }
      r := Some(raw);
    }

    method ExpiredCredits(now: int) returns (grants: seq<Grant>)
      ensures grants == ExpiredGrants(Contents(), now)
      ensures forall g :: g in grants <==> IsListed(Contents(), now, g)
    {
      var rows := DueEntries(journal, now);
      grants := [];
      for i := 0 to |rows|
        invariant grants == OpenGrants(Contents(), rows[..i])
      {
        assert rows[..i + 1][..i] == rows[..i];
        var amount := GrantedAmount(Contents(), rows[i].lines);
        if amount == 0 { continue; }
        var expired := HasReferenceId(ExpiryReference(rows[i].id));
        if expired { continue; }
        grants := grants + [Grant(rows[i].id, rows[i].tenant, amount)];
      }
      assert rows[..|rows|] == rows;
      forall g ensures g in grants <==> IsListed(Contents(), now, g) { ListedIff(Contents(), now, g); }
    }
  }
}
