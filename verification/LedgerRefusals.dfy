/** Why a call of the ledger is refused, and which reason is given when there are several. */
module LedgerRefusals {
  import opened Basics
  import opened LedgerBooks
  import opened LedgerInvariants
  import opened LedgerEffects

  /** Two lines or more, all of positive amounts, with equal totals. */
  ghost predicate Sound(lines: seq<Line>) {
    && |lines| >= 2 && (forall line | line in lines :: line.amount > 0)
    && Total(lines, Dr) == Total(lines, Cr)
  }

  ghost predicate Repeats(b: Books, reference: Option<string>) {
    exists e | e in b.journal :: e.reference.Some? && e.reference == reference
  }

  /** A code of the lines that is no tenant's and has no account. */
  ghost predicate IsUnknown(b: Books, lines: seq<Line>, c: string) {
    c !in b.accounts && !("2000:" <= c) && exists line | line in lines :: line.code == c
  }

  /** The first of them in the order of codes. */
  ghost predicate IsFirstUnknown(b: Books, lines: seq<Line>, c: string) {
    IsUnknown(b, lines, c) && forall other | IsUnknown(b, lines, other) :: !Before(other, c)
  }

  /** The i-th code is no tenant's and has no account; all before it are known. */
  ghost predicate EarliestMissing(b: Books, codes: seq<string>, i: nat) {
    && i < |codes| && !IsTenant(codes[i]) && codes[i] !in b.accounts
    && forall j | 0 <= j < i :: IsTenant(codes[j]) || codes[j] in b.accounts
  }

  lemma {:induction false} MissingIsEarliest(b: Books, codes: seq<string>, c: string) returns (i: nat)
    requires FirstMissing(b, codes) == Some(c)
    ensures EarliestMissing(b, codes, i) && codes[i] == c
  {
    var n := |codes| - 1;
    if FirstMissing(b, codes[..n]).Some? {
      i := MissingIsEarliest(b, codes[..n], c);
      assert forall j | 0 <= j < i :: codes[j] == codes[..n][j];
    } else {
      i := n;
      NothingMissing(b, codes[..n]);
      forall j | 0 <= j < n ensures IsTenant(codes[j]) || codes[j] in b.accounts { assert codes[..n][j] == codes[j]; }
    }
  }

  lemma FirstUnknownIsUnique(b: Books, lines: seq<Line>, c: string, d: string)
    requires IsFirstUnknown(b, lines, c) && IsFirstUnknown(b, lines, d)
    ensures c == d
  {
    BeforeIsTotal(c, d);
  }

  lemma SomethingUnknown(b: Books, lines: seq<Line>, c: string)
    ensures FirstMissing(b, LineCodes(SortLines(lines))).None? ==> !IsUnknown(b, lines, c)
  {
    KnownCodesIff(b, lines);
  }

  lemma MissingIsFirstUnknown(b: Books, lines: seq<Line>, c: string)
    requires FirstMissing(b, LineCodes(SortLines(lines))) == Some(c)
    ensures IsFirstUnknown(b, lines, c)
  {
    var sorted := SortLines(lines);
    var codes := LineCodes(sorted);
    SortLinesIsFaithful(lines);
    var i := MissingIsEarliest(b, codes, c);
    assert sorted[i] in sorted && sorted[i] in lines;
    forall other | IsUnknown(b, lines, other) ensures !Before(other, c) {
      var line :| line in lines && line.code == other;
      var k :| 0 <= k < |sorted| && sorted[k] == line;
      assert codes[k] == other;
      if k == i { BeforeIsIrreflexive(c); }
    }
  }

  lemma MissingIff(b: Books, lines: seq<Line>, c: string)
    ensures FirstMissing(b, LineCodes(SortLines(lines))) == Some(c) <==> IsFirstUnknown(b, lines, c)
  {
    var missing := FirstMissing(b, LineCodes(SortLines(lines)));
    if missing.Some? { MissingIsFirstUnknown(b, lines, missing.value); }
    if IsFirstUnknown(b, lines, c) {
      SomethingUnknown(b, lines, c);
      FirstUnknownIsUnique(b, lines, c, missing.value);
    }
  }

  lemma RepeatsIff(b: Books, reference: Option<string>)
    ensures Taken(b, reference) <==> Repeats(b, reference)
  {
    NotTakenIff(b, reference);
  }

  /** The order of reasons: the lines, the reference, an unknown account, and last the balance. */
  lemma PostRefusals(b: Books, p: PostInput)
    ensures var r, amounts := ExecPost(b, p).outcome, forall line | line in p.lines :: line.amount > 0;
      && (r == Rejected(TooFewLines) <==> |p.lines| < 2)
      && (r == Rejected(NonPositiveAmount) <==> |p.lines| >= 2 && !amounts)
      && (r == Rejected(Unbalanced) <==> |p.lines| >= 2 && amounts && Total(p.lines, Dr) != Total(p.lines, Cr))
      && (r == Rejected(DuplicateReference) <==> Sound(p.lines) && Repeats(b, p.reference))
    ensures forall c :: ExecPost(b, p).outcome == Rejected(AccountNotFound(c)) <==>
      Sound(p.lines) && !Repeats(b, p.reference) && IsFirstUnknown(b, p.lines, c)
    ensures p.check.Some? && Sound(p.lines) && !Repeats(b, p.reference) && (forall c :: !IsUnknown(b, p.lines, c)) ==>
      var r, balance, asked := ExecPost(b, p).outcome, BalanceOf(b, "2000:" + p.check.value.tenant),
                               p.check.value.amount;
      && (r == Rejected(BalanceTooLarge) <==> balance > 9_007_199_254_740_991)
      && (r == Rejected(InsufficientBalance(balance, asked)) <==> balance < asked && balance <= 9_007_199_254_740_991)
  {
    RepeatsIff(b, p.reference);
    forall c ensures FirstMissing(b, LineCodes(SortLines(p.lines))) == Some(c) <==> IsFirstUnknown(b, p.lines, c) {
      MissingIff(b, p.lines, c);
    }
    var missing := FirstMissing(b, LineCodes(SortLines(p.lines)));
    if missing.Some? { MissingIsFirstUnknown(b, p.lines, missing.value); }
  }

  /** A capped debit is refused first for an unknown account, then for its balance, and last for its reference. */
  lemma CappedRefusals(b: Books, tenant: string, max: int, kind: DebitType, stamp: Stamp)
    ensures var r, balance, known := Exec(b, DebitCappedTxn(tenant, max, kind, stamp)).outcome,
                                     BalanceOf(b, "2000:" + tenant), kind.Target() in b.accounts;
      && (r == Rejected(AccountNotFound(kind.Target())) <==> !known)
      && (r == Rejected(BalanceTooLarge) <==> known && balance > 9_007_199_254_740_991)
      && (r == Rejected(DuplicateReference) <==>
            known && 0 != balance <= 9_007_199_254_740_991 && Repeats(b, stamp.reference))
  {
    SystemCodes(Purchase, kind);
    RepeatsIff(b, stamp.reference);
  }
}
