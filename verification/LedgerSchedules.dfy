/** Building schedules: a call whose locks are free can be driven to any statement it reaches when alone. */
module LedgerSchedules {
  import opened Basics
  import opened LedgerBooks
  import opened LedgerSteps
  import opened LedgerLocking

  lemma {:induction false} GoingPrefix(b: Books, ops: seq<Op>, n: nat)
    requires n <= |ops| && Drive(b, EMPTY_DRAFT, ops).Going?
    ensures Drive(b, EMPTY_DRAFT, ops[..n]).Going?
    ensures LocksOf(ops[..n]) <= LocksOf(ops)
  {
    assert ops == ops[..n] + ops[n..];
    DriveConcat(b, EMPTY_DRAFT, ops[..n], ops[n..]);
    LocksConcat(ops[..n], ops[n..]);
  }

  /** Statement n of call t can be reached from here with no lock in the way. */
  ghost predicate ClearTo(b: Books, progs: seq<seq<Op>>, s: System, t: nat, n: nat) {
    && s.books == b && t < |progs| && |s.calls| == |progs| && RunsAlone(progs, s, t)
    && s.calls[t].pc <= n < |progs[t]|
    && Drive(b, EMPTY_DRAFT, progs[t][..n]).Going?
    && (forall u | 0 <= u < |progs| && u != t :: LocksOf(progs[t][..n]) !! Held(progs, s, u))
  }

  lemma FreeToStep(b: Books, progs: seq<seq<Op>>, s: System, t: nat, n: nat)
    requires ClearTo(b, progs, s, t, n) && s.calls[t].pc < n
    ensures !Blocked(progs, s, t)
    ensures var p, pc := progs[t], s.calls[t].pc;
      Drive(b, EMPTY_DRAFT, p[..pc + 1]) == Do(b, s.calls[t].draft, p[pc]) && Drive(b, EMPTY_DRAFT, p[..pc + 1]).Going?
  {
    var p, pc := progs[t], s.calls[t].pc;
    assert p[..pc + 1][..pc] == p[..pc];
    assert p[..n][..pc + 1] == p[..pc + 1];
    GoingPrefix(b, p[..n], pc + 1);
    assert Wants(p[pc]) <= LocksOf(p[..pc + 1]);
  }

  lemma ClimbOne(b: Books, progs: seq<seq<Op>>, s: System, t: nat, n: nat)
    requires ClearTo(b, progs, s, t, n) && s.calls[t].pc < n
    ensures ClearTo(b, progs, Next(progs, s, Step(t)), t, n)
    ensures var s' := Next(progs, s, Step(t));
      s'.calls[t].pc == s.calls[t].pc + 1 && s' == s.(calls := s.calls[t := s'.calls[t]])
  {
    FreeToStep(b, progs, s, t, n);
    var s' := Advance(progs, s, t);
    forall u | 0 <= u < |progs| && u != t ensures Held(progs, s', u) == Held(progs, s, u) {}
  }

  lemma ArrivedAt(b: Books, progs: seq<seq<Op>>, s: System, t: nat, n: nat)
    requires ClearTo(b, progs, s, t, n) && s.calls[t].pc == n
    ensures s == s.(calls := s.calls[t := Active(n, Drive(b, EMPTY_DRAFT, progs[t][..n]).draft)])
  {}

  lemma OneStepLonger(b: Books, progs: seq<seq<Op>>, schedule: seq<Event>, t: nat)
    ensures Run(b, progs, schedule + [Step(t)]) == Next(progs, Run(b, progs, schedule), Step(t))
  {
    assert (schedule + [Step(t)])[..|schedule|] == schedule;
  }

  /** A call whose next locks are free can be scheduled up to its n-th statement. */
  lemma {:induction false} Climb(start: Books, progs: seq<seq<Op>>, schedule: seq<Event>, s: System, t: nat, n: nat)
    returns (longer: seq<Event>)
    requires s == Run(start, progs, schedule) && ClearTo(s.books, progs, s, t, n)
    ensures Run(start, progs, longer)
         == s.(calls := s.calls[t := Active(n, Drive(s.books, EMPTY_DRAFT, progs[t][..n]).draft)])
    decreases n - s.calls[t].pc
  {
    if s.calls[t].pc == n {
      longer := schedule;
      ArrivedAt(s.books, progs, s, t, n);
    } else {
      OneStepLonger(start, progs, schedule, t);
      ClimbOne(s.books, progs, s, t, n);
      longer := Climb(start, progs, schedule + [Step(t)], Next(progs, s, Step(t)), t, n);
    }
  }

  /** A call that stands where its statements, run alone on the books, have led it. */
  lemma PrefixAlone(b: Books, progs: seq<seq<Op>>, s: System, t: nat)
    requires s.books == b && HasNext(progs, s, t)
    requires Drive(b, EMPTY_DRAFT, progs[t][..s.calls[t].pc]) == Going(s.calls[t].draft)
    ensures RunsAlone(progs, s, t)
  {}

  lemma NothingHeldAtStart(b: Books, x: seq<Op>, y: seq<Op>)
    ensures Run(b, [x, y], []) == System(b, [Active(0, EMPTY_DRAFT), Active(0, EMPTY_DRAFT)], [])
    ensures Held([x, y], Run(b, [x, y], []), 0) == {} && Held([x, y], Run(b, [x, y], []), 1) == {}
  {
    assert x[..0] == [] && y[..0] == [];
  }

  /** The state of two calls that have each run alone up to some statement. */
  function Standing(b: Books, x: seq<Op>, y: seq<Op>, i: nat, j: nat): System
    requires i <= |x| && j <= |y|
    requires Drive(b, EMPTY_DRAFT, x[..i]).Going? && Drive(b, EMPTY_DRAFT, y[..j]).Going?
  {
    System(b, [Active(i, Drive(b, EMPTY_DRAFT, x[..i]).draft), Active(j, Drive(b, EMPTY_DRAFT, y[..j]).draft)], [])
  }

  /** Two calls whose locks do not meet can each be driven as far as they go. */
  lemma ClimbBoth(b: Books, x: seq<Op>, y: seq<Op>, i: nat, j: nat) returns (schedule: seq<Event>)
    requires i < |x| && j < |y| && LocksOf(x[..i]) !! LocksOf(y[..j])
    requires Drive(b, EMPTY_DRAFT, x[..i]).Going? && Drive(b, EMPTY_DRAFT, y[..j]).Going?
    ensures Run(b, [x, y], schedule) == Standing(b, x, y, i, j)
  {
    var progs := [x, y];
    NothingHeldAtStart(b, x, y);
    assert x[..0] == [] && y[..0] == [];
    var s0 := Run(b, progs, []);
    PrefixAlone(b, progs, s0, 0);
    schedule := Climb(b, progs, [], s0, 0, i);
    var s1 := Run(b, progs, schedule);
    assert Held(progs, s1, 0) == LocksOf(x[..i]);
    PrefixAlone(b, progs, s1, 1);
    schedule := Climb(b, progs, schedule, s1, 1, j);
  }
}
