/**
 The statements a `post` or `debitCapped` transaction sends to the database, one per await.
 A transaction keeps what it has written but not committed in a Draft; reads see the draft
 first and the committed books otherwise.  Run alone, the statements compute LedgerBooks.Exec.
 */
module LedgerSteps {
  import opened Basics
  import opened LedgerBooks

  datatype Op =
    | Validate(lines: seq<Line>)
    | InsertHeader(reference: Option<string>)
    | LockAccount(code: string)
    | LockBalance(code: string)
    | CheckBalance(code: string, amount: int)
    | CapBalance(code: string, max: int)
    | InsertLine(line: Line)
    | UpdateBalance(line: Line)
    | InsertCapped(code: string, side: Side)
    | UpdateCapped(code: string, side: Side)
    | Commit(header: Entry)

  /** Uncommitted writes: new account rows, balance row versions, lines, and debitCapped's amount. */
  datatype Draft = Draft(created: set<string>, rows: map<string, int>, lines: seq<Line>, amount: int)

  datatype Progress = Going(draft: Draft) | Halted(result: Result)

  const EMPTY_DRAFT := Draft({}, map[], [], 0)

  function Read(b: Books, d: Draft, code: string): int {
    if code in d.rows then d.rows[code] else BalanceOf(b, code)
  }

  function Bump(b: Books, d: Draft, line: Line): Draft {
    d.(rows := d.rows[line.code := Read(b, d, line.code) + Delta(Normal(b, line.code), line)])
  }

  /** The books once the draft's rows are visible to everyone. */
  function Publish(b: Books, d: Draft): Books {
    b.(accounts := b.accounts + map c | c in d.created :: TENANT_ACCOUNT, balances := b.balances + d.rows)
  }

  function Do(b: Books, d: Draft, op: Op): Progress {
    match op
    case Validate(lines) =>
      if Invalid(lines).Some? then Halted(Result(b, Rejected(Invalid(lines).value))) else Going(d)
    case InsertHeader(reference) =>
      if Taken(b, reference) then Halted(Result(b, Rejected(DuplicateReference))) else Going(d)
    case LockAccount(c) =>
      if c in b.accounts || c in d.created then Going(d)
      else if IsTenant(c) then Going(d.(created := d.created + {c}))
      else Halted(Result(b, Rejected(AccountNotFound(c))))
    case LockBalance(c) =>
      if c in b.balances || c in d.rows then Going(d) else Going(d.(rows := d.rows[c := 0]))
    case CheckBalance(c, amount) =>
      if Read(b, d, c) > MAX_SAFE_INTEGER then Halted(Result(b, Rejected(BalanceTooLarge)))
      else if Read(b, d, c) < amount then Halted(Result(b, Rejected(InsufficientBalance(Read(b, d, c), amount))))
      else Going(d)
    case CapBalance(c, max) =>
      if Read(b, d, c) > MAX_SAFE_INTEGER then Halted(Result(b, Rejected(BalanceTooLarge)))
      else if Read(b, d, c) == 0 then Halted(Result(Publish(b, d), Nothing))
      else Going(d.(amount := Least(Read(b, d, c), max)))
    case InsertLine(line) => Going(d.(lines := d.lines + [line]))
    case UpdateBalance(line) => Going(Bump(b, d, line))
    case InsertCapped(c, side) => Going(d.(lines := d.lines + [Line(c, d.amount, side)]))
    case UpdateCapped(c, side) => Going(Bump(b, d, Line(c, d.amount, side)))
    case Commit(header) =>
      var e := header.(lines := d.lines);
      Halted(Result(Publish(b, d).(journal := b.journal + [e]), Posted(e)))
  }

  /** Statements executed one after another by a transaction that runs alone. */
  function Drive(b: Books, d: Draft, ops: seq<Op>): Progress {
    if ops == [] then Going(d) else
      match Drive(b, d, ops[..|ops| - 1])
      case Halted(r) => Halted(r)
      case Going(d') => Do(b, d', ops[|ops| - 1])
  }

  function LockOps(codes: seq<string>): (r: seq<Op>)
    ensures |r| == 2 * |codes|
  {
    if codes == [] then [] else
      LockOps(codes[..|codes| - 1]) + [LockAccount(codes[|codes| - 1]), LockBalance(codes[|codes| - 1])]
  }

  function WriteOps(lines: seq<Line>): seq<Op> {
    if lines == [] then [] else
      WriteOps(lines[..|lines| - 1]) + [InsertLine(lines[|lines| - 1]), UpdateBalance(lines[|lines| - 1])]
  }

  function CheckOps(check: Option<BalanceCheck>): seq<Op> {
    match check
    case None => []
    case Some(c) => [CheckBalance(TenantCode(c.tenant), c.amount)]
  }

  /** The two codes of debitCapped, sorted. */
  function PairCodes(a: string, b: string): seq<string> {
    if Before(b, a) then [b, a] else [a, b]
  }

  function PostHead(p: PostInput): seq<Op> {
    [Validate(p.lines), InsertHeader(p.reference)]
  }

  function PostOps(p: PostInput): seq<Op> {
    var lines := SortLines(p.lines);
    PostHead(p) + LockOps(LineCodes(lines)) + CheckOps(p.check) + WriteOps(lines) + [Commit(PostedEntry(p))]
  }

  function CappedTail(k: CappedInput): seq<Op> {
    var code := TenantCode(k.tenant);
    [CapBalance(code, k.max), InsertHeader(k.reference), InsertCapped(code, Dr), InsertCapped(k.target, Cr),
     UpdateCapped(code, Dr), UpdateCapped(k.target, Cr), Commit(CappedEntry(k, 0))]
  }

  function CappedOps(k: CappedInput): seq<Op> {
    LockOps(PairCodes(TenantCode(k.tenant), k.target)) + CappedTail(k)
  }

  function Program(t: Txn): (r: seq<Op>)
    ensures r != []
  {
    match t
    case PostTxn(p) => PostOps(p)
    case CappedTxn(k) => CappedOps(k)
  }

  lemma {:induction false} DriveConcat(b: Books, d: Draft, x: seq<Op>, y: seq<Op>)
    ensures Drive(b, d, x + y) == match Drive(b, d, x)
                                  case Halted(r) => Halted(r)
                                  case Going(d') => Drive(b, d', y)
  {
    if y == [] { assert x + y == x; } else {
      assert (x + y)[..|x + y| - 1] == x + y[..|y| - 1];
      DriveConcat(b, d, x, y[..|y| - 1]);
    }
  }

  lemma DriveTwo(b: Books, d: Draft, x: Op, y: Op)
    ensures Drive(b, d, [x, y]) == match Do(b, d, x) case Halted(r) => Halted(r) case Going(d') => Do(b, d', y)
  {
    assert [x, y][..1] == [x] && [x][..0] == [];
    assert Drive(b, d, [x]) == Do(b, d, x);
  }

  // ---- Phase 1: locking creates what Open creates ----

  function Opened(b: Books, codes: seq<string>): Draft {
    EMPTY_DRAFT.(created := (set c | c in codes && IsTenant(c) && c !in b.accounts),
                 rows := (map c | c in codes && c !in b.balances :: 0))
  }

  lemma OpenedNext(b: Books, rest: seq<string>, c: string)
    requires IsTenant(c) || c in b.accounts
    ensures var d := Opened(b, rest);
      var d1 := if c in b.accounts || c in d.created then d else d.(created := d.created + {c});
      Opened(b, rest + [c]) == if c in b.balances || c in d.rows then d1 else d1.(rows := d1.rows[c := 0])
  {
    var d, o := Opened(b, rest), Opened(b, rest + [c]);
    assert forall x :: x in rest + [c] <==> x in rest || x == c;
    assert o.created == if c in b.accounts || c in d.created then d.created else d.created + {c};
    assert o.rows == if c in b.balances || c in d.rows then d.rows else d.rows[c := 0];
  }

  lemma {:induction false} LockPhase(b: Books, codes: seq<string>)
    ensures Drive(b, EMPTY_DRAFT, LockOps(codes)) == match FirstMissing(b, codes)
              case Some(c) => Halted(Result(b, Rejected(AccountNotFound(c))))
              case None => Going(Opened(b, codes))
  {
    if codes == [] {
      assert Opened(b, codes) == EMPTY_DRAFT;
    } else {
      var rest, c := codes[..|codes| - 1], codes[|codes| - 1];
      assert codes == rest + [c];
      LockPhase(b, rest);
      DriveConcat(b, EMPTY_DRAFT, LockOps(rest), [LockAccount(c), LockBalance(c)]);
      if FirstMissing(b, rest).None? {
        DriveTwo(b, Opened(b, rest), LockAccount(c), LockBalance(c));
        if FirstMissing(b, codes).None? { OpenedNext(b, rest, c); }
      }
    }
  }

  // ---- Phase 3: writing lines moves balances by their net effect ----

  function AddLine(d: Draft, line: Line): Draft { d.(lines := d.lines + [line]) }

  function Written(b: Books, d: Draft, lines: seq<Line>): Draft {
    if lines == [] then d else
      var last := lines[|lines| - 1];
      Bump(b, AddLine(Written(b, d, lines[..|lines| - 1]), last), last)
  }

  lemma {:induction false} WritePhase(b: Books, d: Draft, lines: seq<Line>)
    ensures Drive(b, d, WriteOps(lines)) == Going(Written(b, d, lines))
  {
    if lines != [] {
      var rest, last := lines[..|lines| - 1], lines[|lines| - 1];
      WritePhase(b, d, rest);
      DriveConcat(b, d, WriteOps(rest), [InsertLine(last), UpdateBalance(last)]);
      DriveTwo(b, Written(b, d, rest), InsertLine(last), UpdateBalance(last));
    }
  }

  lemma {:induction false} WrittenDraft(b: Books, d: Draft, lines: seq<Line>)
    ensures var w := Written(b, d, lines);
      w.created == d.created && w.lines == d.lines + lines && w.rows.Keys == d.rows.Keys + Codes(lines)
  {
    if lines == [] {
      assert d.lines + lines == d.lines;
    } else {
      var rest, last := lines[..|lines| - 1], lines[|lines| - 1];
      assert lines == rest + [last];
      WrittenDraft(b, d, rest);
      assert d.lines + lines == d.lines + rest + [last];
      assert Codes(lines) == Codes(rest) + {last.code};
    }
  }

  lemma {:induction false} WrittenBalance(b: Books, d: Draft, lines: seq<Line>, c: string)
    ensures Read(b, Written(b, d, lines), c) == Read(b, d, c) + Net(lines, c, Normal(b, c))
  {
    if lines != [] { WrittenBalance(b, d, lines[..|lines| - 1], c); }
  }

  lemma RecordShape(b: Books, e: Entry)
    ensures Record(b, e).accounts == Open(b, Codes(e.lines)).accounts
    ensures Record(b, e).balances.Keys == b.balances.Keys + Codes(e.lines)
    ensures Record(b, e).journal == b.journal + [e]
  {}

  lemma PublishShape(b: Books, codes: seq<string>, d: Draft, cs: set<string>)
    requires cs == Members(codes)
    requires d.created == Opened(b, codes).created
    requires Opened(b, codes).rows.Keys <= d.rows.Keys <= Opened(b, codes).rows.Keys + cs
    ensures Publish(b, d).accounts == Open(b, cs).accounts
    ensures Publish(b, d).balances.Keys == b.balances.Keys + cs
    ensures Publish(b, d).journal == b.journal
  {
    assert forall c :: c in cs <==> c in codes;
    assert (map c | c in d.created :: TENANT_ACCOUNT)
        == map c | c in cs && IsTenant(c) && c !in b.accounts :: TENANT_ACCOUNT;
  }

  lemma SameBooks(x: Books, y: Books)
    requires x.accounts == y.accounts && x.journal == y.journal
    requires x.balances.Keys == y.balances.Keys
    requires forall c | c in x.balances :: x.balances[c] == y.balances[c]
    ensures x == y
  {}

  lemma RecordedBalance(b: Books, e: Entry, c: string)
    requires c in Record(b, e).balances
    ensures Record(b, e).balances[c] == BalanceOf(b, c) + Net(e.lines, c, Normal(b, c))
  {
    NormalOfOpened(b, Codes(e.lines), c);
  }

  lemma ReadOpened(b: Books, codes: seq<string>, c: string)
    ensures Read(b, Opened(b, codes), c) == BalanceOf(b, c)
  {}

  lemma PublishedRead(b: Books, d: Draft, c: string)
    requires c in Publish(b, d).balances
    ensures Publish(b, d).balances[c] == Read(b, d, c)
  {}

  lemma PublishedBalance(b: Books, codes: seq<string>, lines: seq<Line>, e: Entry, c: string)
    requires c in Record(b, e).balances && c in Publish(b, Written(b, Opened(b, codes), lines)).balances
    requires Net(lines, c, Normal(b, c)) == Net(e.lines, c, Normal(b, c))
    ensures Publish(b, Written(b, Opened(b, codes), lines)).balances[c] == Record(b, e).balances[c]
  {
    var d0 := Opened(b, codes);
    PublishedRead(b, Written(b, d0, lines), c);
    WrittenBalance(b, d0, lines, c);
    ReadOpened(b, codes, c);
    RecordedBalance(b, e, c);
  }

  /** The rows a finished draft publishes are those of Open, moved by its lines. */
  lemma PublishIsRecord(b: Books, codes: seq<string>, lines: seq<Line>, e: Entry)
    requires Members(codes) == Codes(lines) == Codes(e.lines)
    requires forall c, normal :: Net(lines, c, normal) == Net(e.lines, c, normal)
    ensures Publish(b, Written(b, Opened(b, codes), lines)).(journal := b.journal + [e]) == Record(b, e)
  {
    var d := Written(b, Opened(b, codes), lines);
    WrittenDraft(b, Opened(b, codes), lines);
    PublishShape(b, codes, d, Codes(lines));
    RecordShape(b, e);
    var p, r := Publish(b, d).(journal := b.journal + [e]), Record(b, e);
    forall c | c in p.balances ensures p.balances[c] == r.balances[c] {
      PublishedBalance(b, codes, lines, e, c);
    }
    SameBooks(p, r);
  }

  // ---- A whole transaction, run alone ----

  lemma DriveOne(b: Books, d: Draft, x: Op)
    ensures Drive(b, d, [x]) == Do(b, d, x)
  {
    assert [x][..0] == [];
  }

  lemma PostHeadAlone(b: Books, p: PostInput)
    ensures Drive(b, EMPTY_DRAFT, PostHead(p)) ==
      if Invalid(p.lines).Some? then Halted(Result(b, Rejected(Invalid(p.lines).value)))
      else if Taken(b, p.reference) then Halted(Result(b, Rejected(DuplicateReference)))
      else Going(EMPTY_DRAFT)
  {
    DriveTwo(b, EMPTY_DRAFT, Validate(p.lines), InsertHeader(p.reference));
  }

  lemma CheckAlone(b: Books, codes: seq<string>, check: Option<BalanceCheck>)
    ensures Drive(b, Opened(b, codes), CheckOps(check)) ==
      if check.None? then Going(Opened(b, codes)) else
        var balance := BalanceOf(b, TenantCode(check.value.tenant));
        if balance > MAX_SAFE_INTEGER then Halted(Result(b, Rejected(BalanceTooLarge)))
        else if balance < check.value.amount then
          Halted(Result(b, Rejected(InsufficientBalance(balance, check.value.amount))))
        else Going(Opened(b, codes))
  {
    if check.Some? {
      DriveOne(b, Opened(b, codes), CheckBalance(TenantCode(check.value.tenant), check.value.amount));
      ReadOpened(b, codes, TenantCode(check.value.tenant));
    }
  }

  lemma CommitPublishes(b: Books, w: Draft, e: Entry, after: Books)
    requires w.lines == e.lines && Publish(b, w).(journal := b.journal + [e]) == after
    ensures Do(b, w, Commit(e)) == Halted(Result(after, Posted(e)))
  {
    assert e.(lines := w.lines) == e;
  }

  lemma CommitLines(b: Books, lines: seq<Line>, e: Entry)
    requires e.lines == lines
    ensures Do(b, Written(b, Opened(b, LineCodes(lines)), lines), Commit(e)) == Halted(Result(Record(b, e), Posted(e)))
  {
    var codes := LineCodes(lines);
    CodesOfLineCodes(lines);
    WrittenDraft(b, Opened(b, codes), lines);
    assert Opened(b, codes).lines + lines == lines;
    PublishIsRecord(b, codes, lines, e);
    CommitPublishes(b, Written(b, Opened(b, codes), lines), e, Record(b, e));
  }

  /** Up to the balance check nothing has been written. */
  lemma PostChecksAlone(b: Books, p: PostInput)
    ensures var codes := LineCodes(SortLines(p.lines));
      Drive(b, EMPTY_DRAFT, PostHead(p) + LockOps(codes) + CheckOps(p.check)) ==
        if ExecPost(b, p).outcome.Posted? then Going(Opened(b, codes)) else Halted(ExecPost(b, p))
  {
    var codes := LineCodes(SortLines(p.lines));
    DriveConcat(b, EMPTY_DRAFT, PostHead(p) + LockOps(codes), CheckOps(p.check));
    DriveConcat(b, EMPTY_DRAFT, PostHead(p), LockOps(codes));
    PostHeadAlone(b, p);
    LockPhase(b, codes);
    CheckAlone(b, codes, p.check);
  }

  lemma WriteAndCommitAlone(b: Books, p: PostInput)
    ensures var lines := SortLines(p.lines);
      Drive(b, Opened(b, LineCodes(lines)), WriteOps(lines) + [Commit(PostedEntry(p))])
      == Halted(Result(Record(b, PostedEntry(p)), Posted(PostedEntry(p))))
  {
    var lines := SortLines(p.lines);
    var d := Opened(b, LineCodes(lines));
    DriveConcat(b, d, WriteOps(lines), [Commit(PostedEntry(p))]);
    WritePhase(b, d, lines);
    DriveOne(b, Written(b, d, lines), Commit(PostedEntry(p)));
    CommitLines(b, lines, PostedEntry(p));
  }

  lemma PostAlone(b: Books, p: PostInput)
    ensures Drive(b, EMPTY_DRAFT, PostOps(p)) == Halted(ExecPost(b, p))
  {
    var lines := SortLines(p.lines);
    var checked := PostHead(p) + LockOps(LineCodes(lines)) + CheckOps(p.check);
    PostChecksAlone(b, p);
    assert PostOps(p) == checked + (WriteOps(lines) + [Commit(PostedEntry(p))]);
    DriveConcat(b, EMPTY_DRAFT, checked, WriteOps(lines) + [Commit(PostedEntry(p))]);
    if ExecPost(b, p).outcome.Posted? {
      PostRecords(b, p);
      WriteAndCommitAlone(b, p);
    }
  }

  /** debitCapped inserts both lines before it updates a balance; the rows come out the same. */
  lemma CappedWrites(b: Books, d: Draft, x: Line, y: Line)
    requires d.amount == x.amount == y.amount
    ensures var w := Bump(b, Bump(b, AddLine(AddLine(d, x), y), x), y);
      && Drive(b, d, [InsertCapped(x.code, x.side), InsertCapped(y.code, y.side),
                      UpdateCapped(x.code, x.side), UpdateCapped(y.code, y.side)]) == Going(w)
      && w.lines == d.lines + [x, y]
      && w.created == d.created && w.rows == Written(b, d, [x, y]).rows
  {
    var i1, i2 := InsertCapped(x.code, x.side), InsertCapped(y.code, y.side);
    var u1, u2 := UpdateCapped(x.code, x.side), UpdateCapped(y.code, y.side);
    assert [i1, i2, u1, u2] == [i1, i2] + [u1, u2];
    DriveConcat(b, d, [i1, i2], [u1, u2]);
    DriveTwo(b, d, i1, i2);
    DriveTwo(b, AddLine(AddLine(d, x), y), u1, u2);
    assert [x, y][..1] == [x] && [x][..0] == [];
    assert Written(b, d, [x]) == Bump(b, AddLine(d, x), x);
    assert d.lines + [x] + [y] == d.lines + [x, y];
  }

  lemma CommitDraft(b: Books, codes: seq<string>, header: Entry, w: Draft, e: Entry)
    requires Members(codes) == Codes(e.lines)
    requires w.lines == e.lines && w.created == Opened(b, codes).created
    requires w.rows == Written(b, Opened(b, codes), e.lines).rows
    requires e == header.(lines := e.lines)
    ensures Do(b, w, Commit(header)) == Halted(Result(Record(b, e), Posted(e)))
  {
    var d := Opened(b, codes);
    PublishIsRecord(b, codes, e.lines, e);
    WrittenDraft(b, d, e.lines);
    assert Publish(b, w) == Publish(b, Written(b, d, e.lines));
  }

  lemma CappedEntryCodes(k: CappedInput, amount: int)
    ensures Codes(CappedEntry(k, amount).lines) == {TenantCode(k.tenant), k.target}
  {
    var lines := CappedEntry(k, amount).lines;
    assert lines[0] in lines && lines[1] in lines;
  }

  lemma CappedTailParts(k: CappedInput)
    ensures var tail, code := CappedTail(k), TenantCode(k.tenant);
      tail == [CapBalance(code, k.max), InsertHeader(k.reference)]
              + ([InsertCapped(code, Dr), InsertCapped(k.target, Cr), UpdateCapped(code, Dr),
                UpdateCapped(k.target, Cr)]
                 + [Commit(CappedEntry(k, 0))])
  {}

  /** With the amount decided, the rest of debitCapped records the entry. */
  lemma CappedPosting(b: Books, k: CappedInput, amount: int, codes: seq<string>, d: Draft)
    requires Members(codes) == {TenantCode(k.tenant), k.target} && d == Opened(b, codes).(amount := amount)
    ensures var code, e := TenantCode(k.tenant), CappedEntry(k, amount);
      Drive(b, d, [InsertCapped(code, Dr), InsertCapped(k.target, Cr), UpdateCapped(code, Dr),
        UpdateCapped(k.target, Cr)]
                  + [Commit(CappedEntry(k, 0))]) == Halted(Result(Record(b, e), Posted(e)))
  {
    var code, e, commit := TenantCode(k.tenant), CappedEntry(k, amount), Commit(CappedEntry(k, 0));
    var writes := [InsertCapped(code, Dr), InsertCapped(k.target, Cr), UpdateCapped(code, Dr),
      UpdateCapped(k.target, Cr)];
    DriveConcat(b, d, writes, [commit]);
    CappedWrites(b, d, e.lines[0], e.lines[1]);
    var w := Drive(b, d, writes).draft;
    DriveOne(b, w, commit);
    assert [] + e.lines == e.lines;
    WrittenIgnoresAmount(b, Opened(b, codes), d, e.lines);
    CappedEntryCodes(k, amount);
    CommitDraft(b, codes, CappedEntry(k, 0), w, e);
  }

  /** debitCapped finds no balance and leaves only the rows it opened. */
  lemma CappedNothing(b: Books, k: CappedInput, codes: seq<string>)
    requires Members(codes) == {TenantCode(k.tenant), k.target} && BalanceOf(b, TenantCode(k.tenant)) == 0
    ensures Do(b, Opened(b, codes), CapBalance(TenantCode(k.tenant), k.max))
         == Halted(Result(Open(b, {TenantCode(k.tenant), k.target}), Nothing))
  {
    ReadOpened(b, codes, TenantCode(k.tenant));
    PublishOpened(b, codes, {TenantCode(k.tenant), k.target});
  }

  /** Up to its header, debitCapped goes on exactly if the call posts something. */
  lemma CappedHeadAlone(b: Books, k: CappedInput, codes: seq<string>)
    requires IsTenant(k.target) || k.target in b.accounts
    requires Members(codes) == {TenantCode(k.tenant), k.target}
    ensures Drive(b, Opened(b, codes), [CapBalance(TenantCode(k.tenant), k.max), InsertHeader(k.reference)]) ==
      if ExecCapped(b, k).outcome.Posted? then
        Going(Opened(b, codes).(amount := Least(BalanceOf(b, TenantCode(k.tenant)), k.max)))
      else Halted(ExecCapped(b, k))
  {
    var code := TenantCode(k.tenant);
    DriveTwo(b, Opened(b, codes), CapBalance(code, k.max), InsertHeader(k.reference));
    ReadOpened(b, codes, code);
    if BalanceOf(b, code) == 0 { CappedNothing(b, k, codes); }
  }

  /** The tail of debitCapped, after both accounts are locked. */
  lemma CappedTailAlone(b: Books, k: CappedInput, codes: seq<string>)
    requires IsTenant(k.target) || k.target in b.accounts
    requires Members(codes) == {TenantCode(k.tenant), k.target}
    ensures Drive(b, Opened(b, codes), CappedTail(k)) == Halted(ExecCapped(b, k))
  {
    var code, d := TenantCode(k.tenant), Opened(b, codes);
    var writes := [InsertCapped(code, Dr), InsertCapped(k.target, Cr), UpdateCapped(code, Dr),
      UpdateCapped(k.target, Cr)];
    CappedTailParts(k);
    DriveConcat(b, d, [CapBalance(code, k.max), InsertHeader(k.reference)], writes + [Commit(CappedEntry(k, 0))]);
    CappedHeadAlone(b, k, codes);
    if ExecCapped(b, k).outcome.Posted? {
      CappedPosting(b, k, Least(BalanceOf(b, code), k.max), codes, d.(amount := Least(BalanceOf(b, code), k.max)));
    }
  }

  lemma {:induction false} WrittenIgnoresAmount(b: Books, d: Draft, d': Draft, lines: seq<Line>)
    requires d' == d.(amount := d'.amount)
    ensures Written(b, d', lines) == Written(b, d, lines).(amount := d'.amount)
  {
    if lines != [] { WrittenIgnoresAmount(b, d, d', lines[..|lines| - 1]); }
  }

  lemma PublishOpened(b: Books, codes: seq<string>, cs: set<string>)
    requires cs == Members(codes)
    ensures Publish(b, Opened(b, codes)) == Open(b, cs)
  {
    var p, o := Publish(b, Opened(b, codes)), Open(b, cs);
    PublishShape(b, codes, Opened(b, codes), cs);
    SameBooks(p, o);
  }

  /** Run without interruption, the statements of a call compute its meaning. */
  lemma ProgramComputesExec(b: Books, t: Txn)
    ensures Drive(b, EMPTY_DRAFT, Program(t)) == Halted(Exec(b, t))
  {
    match t
    case PostTxn(p) => PostAlone(b, p);
    case CappedTxn(k) =>
      var code := TenantCode(k.tenant);
      var codes := PairCodes(code, k.target);
      DriveConcat(b, EMPTY_DRAFT, LockOps(codes), CappedTail(k));
      LockPhase(b, codes);
      MissingOfPair(b, code, k.target, PairCodes(code, k.target));
      if IsTenant(k.target) || k.target in b.accounts { CappedTailAlone(b, k, codes); }
  }
}
