/**
 Which positions of a list of weeks are kept: the first `dailyCount`, and the leaders of `weeklyCount` further weeks.
 The policy takes the weeks listed first; the code takes those whose keys are greatest.
 */
module RetentionPolicy {
  import opened Basics

  datatype RetentionConfig = RetentionConfig(dailyCount: int, weeklyCount: int)

  const DEFAULT_RETENTION := RetentionConfig(7, 4)

  function AtMost(count: int, n: nat): (r: nat)
    ensures r <= n
  {
    if count <= 0 then 0 else if count <= n then count else n
  }

  // ---- The leaders of the weeks ----

  /** No backup between the daily ones and i is of i's week. */
  predicate FirstOfItsWeek(weeks: seq<int>, daily: nat, i: nat)
    requires i < |weeks|
  {
    daily <= i && forall j | daily <= j < i :: weeks[j] != weeks[i]
  }

  /** The positions from `daily` on that are the first of their week, in order. */
  function Leaders(weeks: seq<int>, daily: nat): (r: seq<nat>)
    ensures forall k | 0 <= k < |r| :: daily <= r[k] < |weeks|
    ensures forall j, k | 0 <= j < k < |r| :: r[j] < r[k]
  {
    if |weeks| <= daily then [] else
      var n := |weeks| - 1;
      var rest := Leaders(weeks[..n], daily);
      if FirstOfItsWeek(weeks, daily, n) then rest + [n] else rest
  }

  lemma {:induction false} LeadersAreFirsts(weeks: seq<int>, daily: nat, i: nat)
    requires i < |weeks|
    ensures i in Leaders(weeks, daily) <==> FirstOfItsWeek(weeks, daily, i)
  {
    if |weeks| > daily {
      var n := |weeks| - 1;
      var rest := Leaders(weeks[..n], daily);
      if i < n {
        LeadersAreFirsts(weeks[..n], daily, i);
        assert FirstOfItsWeek(weeks[..n], daily, i) <==> FirstOfItsWeek(weeks, daily, i);
      } else {
        assert forall k | 0 <= k < |rest| :: rest[k] < n;
      }
    }
  }

  lemma {:induction false} LeadersOfPrefix(weeks: seq<int>, daily: nat, i: nat)
    requires i <= |weeks|
    ensures |Leaders(weeks[..i], daily)| <= |Leaders(weeks, daily)|
    ensures Leaders(weeks, daily)[..|Leaders(weeks[..i], daily)|] == Leaders(weeks[..i], daily)
    ensures forall k | |Leaders(weeks[..i], daily)| <= k < |Leaders(weeks, daily)| :: Leaders(weeks, daily)[k] >= i
  {
    if i < |weeks| {
      var n := |weeks| - 1;
      LeadersOfPrefix(weeks[..n], daily, i);
      assert weeks[..n][..i] == weeks[..i];
    } else {
      assert weeks[..i] == weeks;
    }
  }

  lemma LeadersHaveDifferentWeeks(weeks: seq<int>, daily: nat, j: nat, k: nat)
    requires j < k < |Leaders(weeks, daily)|
    ensures weeks[Leaders(weeks, daily)[j]] != weeks[Leaders(weeks, daily)[k]]
  {
    var leaders := Leaders(weeks, daily);
    assert leaders[k] in leaders;
    LeadersAreFirsts(weeks, daily, leaders[k]);
  }

  lemma {:induction false} WeekHasLeader(weeks: seq<int>, daily: nat, i: nat) returns (k: nat)
    requires daily <= i < |weeks|
    ensures k < |Leaders(weeks, daily)| && Leaders(weeks, daily)[k] <= i && weeks[Leaders(weeks, daily)[k]] == weeks[i]
    decreases i
  {
    if FirstOfItsWeek(weeks, daily, i) {
      LeadersAreFirsts(weeks, daily, i);
      k :| 0 <= k < |Leaders(weeks, daily)| && Leaders(weeks, daily)[k] == i;
    } else {
      var j :| daily <= j < i && weeks[j] == weeks[i];
      k := WeekHasLeader(weeks, daily, j);
    }
  }

  // ---- What the policy promises: the newest weeks ----

  function UpTo(n: nat): (r: seq<nat>)
    ensures |r| == n && forall k | 0 <= k < n :: r[k] == k
  {
    seq(n, k requires 0 <= k < n => k)
  }

  /** The daily positions, then the leaders of the first `weeklyCount` further weeks. */
  function NewestPositions(weeks: seq<int>, config: RetentionConfig): seq<nat> {
    var daily := AtMost(config.dailyCount, |weeks|);
    var leaders := Leaders(weeks, daily);
    UpTo(daily) + leaders[..AtMost(config.weeklyCount, |leaders|)]
  }

  /** The different weeks from `daily` on, before i. */
  ghost function WeeksBetween(weeks: seq<int>, daily: int, i: nat): set<int>
    requires i <= |weeks|
  {
    set j | 0 <= j < i && daily <= j :: weeks[j]
  }

  lemma {:induction false} LeadersCountWeeks(weeks: seq<int>, daily: nat, i: nat)
    requires i <= |weeks|
    ensures |Leaders(weeks[..i], daily)| == |WeeksBetween(weeks, daily, i)|
  {
    if i <= daily {
      assert WeeksBetween(weeks, daily, i) == {};
    } else {
      var n := i - 1;
      LeadersCountWeeks(weeks, daily, n);
      assert weeks[..i][..n] == weeks[..n];
      assert WeeksBetween(weeks, daily, i) == WeeksBetween(weeks, daily, n) + {weeks[n]};
      assert FirstOfItsWeek(weeks[..i], daily, n) <==> weeks[n] !in WeeksBetween(weeks, daily, n);
    }
  }

  lemma ClampedDaily(weeks: seq<int>, daily: int, i: nat)
    requires i < |weeks|
    ensures WeeksBetween(weeks, AtMost(daily, |weeks|), i) == WeeksBetween(weeks, daily, i)
  {}

  /** A backup is kept iff it is one of the newest `dailyCount`, or the newest of one of `weeklyCount` more weeks. */
  lemma NewestIff(weeks: seq<int>, config: RetentionConfig, i: nat)
    requires i < |weeks|
    ensures i in NewestPositions(weeks, config)
      <==> i < config.dailyCount
           || (weeks[i] !in WeeksBetween(weeks, config.dailyCount, i)
               && |WeeksBetween(weeks, config.dailyCount, i)| < config.weeklyCount)
  {
    var daily := AtMost(config.dailyCount, |weeks|);
    NewestAreLeaders(weeks, config, i);
    LeadersCountWeeks(weeks, daily, i);
    ClampedDaily(weeks, config.dailyCount, i);
    if i >= daily {
      assert FirstOfItsWeek(weeks, daily, i) <==> weeks[i] !in WeeksBetween(weeks, daily, i);
    }
  }

  /** By default all of the newest seven are kept, and at most eleven in all. */
  lemma DefaultIsSevenAndFour(weeks: seq<int>)
    ensures forall i | 0 <= i < 7 && i < |weeks| :: i in NewestPositions(weeks, DEFAULT_RETENTION)
    ensures var further := |WeeksBetween(weeks, 7, |weeks|)|;
      |NewestPositions(weeks, DEFAULT_RETENTION)|
        == (if |weeks| < 7 then |weeks| else 7) + (if further < 4 then further else 4)
  {
    var daily := AtMost(7, |weeks|);
    assert weeks[..|weeks|] == weeks;
    LeadersCountWeeks(weeks, daily, |weeks|);
    assert WeeksBetween(weeks, daily, |weeks|) == WeeksBetween(weeks, 7, |weeks|);
    forall i | 0 <= i < 7 && i < |weeks| ensures i in NewestPositions(weeks, DEFAULT_RETENTION) {
      assert UpTo(daily)[i] == i;
    }
  }

  /** In terms of the leaders of the weeks. */
  lemma NewestAreLeaders(weeks: seq<int>, config: RetentionConfig, i: nat)
    requires i < |weeks|
    ensures var daily := AtMost(config.dailyCount, |weeks|);
      i in NewestPositions(weeks, config)
      <==> i < daily || (FirstOfItsWeek(weeks, daily, i) && |Leaders(weeks[..i], daily)| < config.weeklyCount)
  {
    var daily := AtMost(config.dailyCount, |weeks|);
    var leaders := Leaders(weeks, daily);
    var w := AtMost(config.weeklyCount, |leaders|);
    var before := |Leaders(weeks[..i], daily)|;
    LeadersAreFirsts(weeks, daily, i);
    LeadersOfPrefix(weeks, daily, i);
    forall k | 0 <= k < |leaders| ensures leaders[k] < i <==> k < before {
      if k < before { assert leaders[k] == Leaders(weeks[..i], daily)[k]; }
    }
    assert i in UpTo(daily) <==> i < daily by { if i < daily { assert UpTo(daily)[i] == i; } }
    assert before < |leaders| ==> leaders[before] >= i;
    if i in leaders {
      var k :| 0 <= k < |leaders| && leaders[k] == i;
      assert k == before;
      if k < w { assert leaders[..w][k] == i; }
    }
  }

  // ---- What the code keeps: the weeks of greatest keys ----

  function Pick<T>(rows: seq<T>, positions: seq<nat>): (r: seq<T>)
    requires forall k | 0 <= k < |positions| :: positions[k] < |rows|
    ensures |r| == |positions| && forall k | 0 <= k < |r| :: r[k] == rows[positions[k]]
  {
    seq(|positions|, k requires 0 <= k < |positions| => rows[positions[k]])
  }

  function Filter<T>(rows: seq<T>, p: T -> bool): seq<T> {
    if rows == [] then [] else
      var n := |rows| - 1;
      Filter(rows[..n], p) + if p(rows[n]) then [rows[n]] else []
  }

  lemma {:induction false} FilterKeeps<T>(rows: seq<T>, p: T -> bool)
    ensures forall row :: row in Filter(rows, p) <==> row in rows && p(row)
  {
    if rows != [] {
      var n := |rows| - 1;
      FilterKeeps(rows[..n], p);
      assert forall row :: row in rows <==> row in rows[..n] || row == rows[n];
    }
  }

  lemma {:induction false} FilterAll<T>(rows: seq<T>, p: T -> bool)
    requires forall i | 0 <= i < |rows| :: p(rows[i])
    ensures Filter(rows, p) == rows
  {
    if rows != [] {
      var n := |rows| - 1;
      FilterAll(rows[..n], p);
      assert rows == rows[..n] + [rows[n]];
    }
  }

  lemma {:induction false} FilterPrefix<T>(rows: seq<T>, p: T -> bool, n: nat)
    requires n <= |rows| && forall i | 0 <= i < |rows| :: p(rows[i]) <==> i < n
    ensures Filter(rows, p) == rows[..n]
  {
    if n < |rows| {
      FilterPrefix(rows[..|rows| - 1], p, n);
    } else {
      FilterAll(rows, p);
    }
  }

  ghost predicate Increasing(s: seq<nat>) { forall j, k | 0 <= j < k < |s| :: s[j] < s[k] }

  lemma {:induction false} FilterKeepsIncreasing(s: seq<nat>, p: nat -> bool)
    requires Increasing(s)
    ensures Increasing(Filter(s, p)) && forall i | i in Filter(s, p) :: i in s
  {
    if s != [] {
      var n := |s| - 1;
      FilterKeepsIncreasing(s[..n], p);
      var rest := Filter(s[..n], p);
      forall j | 0 <= j < |rest| ensures rest[j] < s[n] {
        assert rest[j] in rest && rest[j] in s[..n];
        var k :| 0 <= k < n && s[k] == rest[j];
      }
    }
  }

  /** How many different keys are greater. */
  function Greater(keys: seq<string>, key: string): nat { |set x | x in keys && Before(key, x)| }

  function RanksBelow(keys: seq<string>, among: seq<string>, n: int): nat -> bool {
    (l: nat) => l < |keys| && Greater(among, keys[l]) < n
  }

  /** The leaders with fewer than `weeklyCount` greater keys among the leaders', in order. */
  function ChosenLeaders(keys: seq<string>, weeks: seq<int>, config: RetentionConfig): seq<nat>
    requires |keys| == |weeks|
  {
    var leaders := Leaders(weeks, AtMost(config.dailyCount, |weeks|));
    Filter(leaders, RanksBelow(keys, Pick(keys, leaders), config.weeklyCount))
  }

  function KeptPositions(keys: seq<string>, weeks: seq<int>, config: RetentionConfig): seq<nat>
    requires |keys| == |weeks|
  {
    UpTo(AtMost(config.dailyCount, |weeks|)) + ChosenLeaders(keys, weeks, config)
  }

  lemma ChosenAreLeaders(keys: seq<string>, weeks: seq<int>, config: RetentionConfig)
    requires |keys| == |weeks|
    ensures var chosen, daily := ChosenLeaders(keys, weeks, config), AtMost(config.dailyCount, |weeks|);
      && Increasing(chosen) && (forall k | 0 <= k < |chosen| :: daily <= chosen[k] < |weeks|)
      && (forall l :: l in chosen <==>
          (l in Leaders(weeks, daily) && RanksBelow(keys, Pick(keys, Leaders(weeks, daily)), config.weeklyCount)(l)))
  {
    var chosen, daily := ChosenLeaders(keys, weeks, config), AtMost(config.dailyCount, |weeks|);
    var leaders := Leaders(weeks, daily);
    var p := RanksBelow(keys, Pick(keys, leaders), config.weeklyCount);
    FilterKeepsIncreasing(leaders, p);
    FilterKeeps(leaders, p);
    forall k | 0 <= k < |chosen| ensures daily <= chosen[k] < |weeks| { assert chosen[k] in leaders; }
  }

  lemma KeptPositionsAreOrdered(keys: seq<string>, weeks: seq<int>, config: RetentionConfig)
    requires |keys| == |weeks|
    ensures var r := KeptPositions(keys, weeks, config); Increasing(r) && forall k | 0 <= k < |r| :: r[k] < |weeks|
  {
    ChosenAreLeaders(keys, weeks, config);
  }

  // ---- Ranks ----

  /** Keys tell weeks apart. */
  ghost predicate KeysMatchWeeks(keys: seq<string>, weeks: seq<int>) {
    |keys| == |weeks|
      && forall i, j | 0 <= i < |keys| && 0 <= j < |keys| :: keys[i] == keys[j] <==> weeks[i] == weeks[j]
  }

  ghost predicate AllDifferent<T>(s: seq<T>) { forall i, j | 0 <= i < j < |s| :: s[i] != s[j] }

  function Members<T(==)>(s: seq<T>): set<T> { set x | x in s }

  lemma {:induction false} SmallerSet<T>(a: set<T>, b: set<T>)
    requires a <= b
    ensures |a| <= |b|
  {
    if a != {} {
      var x :| x in a;
      SmallerSet(a - {x}, b - {x});
    }
  }

  lemma {:induction false} MembersCounted<T>(s: seq<T>)
    ensures |Members(s)| <= |s| && (AllDifferent(s) ==> |Members(s)| == |s|)
  {
    if s != [] {
      var n := |s| - 1;
      MembersCounted(s[..n]);
      assert Members(s) == Members(s[..n]) + {s[n]};
    }
  }

  lemma LeaderKeysDiffer(keys: seq<string>, weeks: seq<int>, daily: nat)
    requires KeysMatchWeeks(keys, weeks)
    ensures AllDifferent(Pick(keys, Leaders(weeks, daily)))
  {
    var leaders := Leaders(weeks, daily);
    forall j, k | 0 <= j < k < |leaders| ensures Pick(keys, leaders)[j] != Pick(keys, leaders)[k] {
      LeadersHaveDifferentWeeks(weeks, daily, j, k);
    }
  }

  /** Keys that beat all from n on have fewer than n greater ones. */
  lemma WinnerRanksBelow(keys: seq<string>, n: nat, j: nat)
    requires j < n <= |keys| && forall k | n <= k < |keys| :: Before(keys[k], keys[j])
    ensures Greater(keys, keys[j]) < n
  {
    var greater := set x | x in keys && Before(keys[j], x);
    forall x | x in greater ensures x in Members(keys[..n]) - {keys[j]} {
      BeforeIsIrreflexive(keys[j]);
      var k :| 0 <= k < |keys| && keys[k] == x;
      if k >= n {
        BeforeIsTransitive(keys[k], keys[j], keys[k]);
        BeforeIsIrreflexive(keys[k]);
      }
      assert keys[..n][k] == x;
    }
    SmallerSet(greater, Members(keys[..n]) - {keys[j]});
    MembersCounted(keys[..n]);
    assert keys[..n][j] in Members(keys[..n]);
  }

  /** A key beaten by n different ones has at least n greater ones. */
  lemma LoserRanksAbove(keys: seq<string>, n: nat, k: nat)
    requires AllDifferent(keys) && n <= k < |keys| && forall j | 0 <= j < n :: Before(keys[k], keys[j])
    ensures Greater(keys, keys[k]) >= n
  {
    SmallerSet(Members(keys[..n]), set x | x in keys && Before(keys[k], x));
    MembersCounted(keys[..n]);
  }

  /** Of two keys the smaller one has more greater ones. */
  lemma SmallerRanksAbove(keys: seq<string>, small: string, great: string)
    requires great in keys && Before(small, great)
    ensures Greater(keys, small) > Greater(keys, great)
  {
    var above := set x | x in keys && Before(great, x);
    forall x | x in above ensures Before(small, x) { BeforeIsTransitive(small, great, x); }
    BeforeIsIrreflexive(great);
    SmallerSet(above + {great}, set x | x in keys && Before(small, x));
  }

  ghost predicate KeysDescend(keys: seq<string>) { forall j, k | 0 <= j < k < |keys| :: Before(keys[k], keys[j]) }

  lemma DescendingDiffer(keys: seq<string>)
    requires KeysDescend(keys)
    ensures AllDifferent(keys)
  {
    forall i, j | 0 <= i < j < |keys| ensures keys[i] != keys[j] { BeforeIsIrreflexive(keys[i]); }
  }

  /** In descending order a key's rank is its position. */
  lemma RankIsPosition(keys: seq<string>, k: nat)
    requires KeysDescend(keys) && k < |keys|
    ensures Greater(keys, keys[k]) == k
  {
    DescendingDiffer(keys);
    WinnerRanksBelow(keys, k + 1, k);
    LoserRanksAbove(keys, k, k);
  }

  // ---- When the weeks of greatest keys are the newest ----

  /** The keys of the first `weeklyCount` leaders are greater than those of all later ones. */
  ghost predicate NewestWeeksWin(keys: seq<string>, weeks: seq<int>, config: RetentionConfig)
    requires |keys| == |weeks|
  {
    var leaders := Leaders(weeks, AtMost(config.dailyCount, |weeks|));
    var w := AtMost(config.weeklyCount, |leaders|);
    forall j, k | 0 <= j < w <= k < |leaders| :: Before(keys[leaders[k]], keys[leaders[j]])
  }

  lemma WinnersAreChosen(keys: seq<string>, weeks: seq<int>, config: RetentionConfig)
    requires KeysMatchWeeks(keys, weeks) && NewestWeeksWin(keys, weeks, config)
    ensures KeptPositions(keys, weeks, config) == NewestPositions(weeks, config)
  {
    var daily := AtMost(config.dailyCount, |weeks|);
    var leaders := Leaders(weeks, daily);
    var w := AtMost(config.weeklyCount, |leaders|);
    var among := Pick(keys, leaders);
    LeaderKeysDiffer(keys, weeks, daily);
    var p := RanksBelow(keys, among, config.weeklyCount);
    forall i | 0 <= i < |leaders| ensures p(leaders[i]) <==> i < w {
      if i < w { WinnerRanksBelow(among, w, i); } else { LoserRanksAbove(among, w, i); }
    }
    FilterPrefix(leaders, p, w);
  }

  lemma ChosenMeansWinning(keys: seq<string>, weeks: seq<int>, config: RetentionConfig, j: nat, k: nat)
    requires KeysMatchWeeks(keys, weeks) && KeptPositions(keys, weeks, config) == NewestPositions(weeks, config)
    requires var leaders := Leaders(weeks, AtMost(config.dailyCount, |weeks|));
      j < AtMost(config.weeklyCount, |leaders|) <= k < |leaders|
    ensures var leaders := Leaders(weeks, AtMost(config.dailyCount, |weeks|));
      Before(keys[leaders[k]], keys[leaders[j]])
  {
    var daily := AtMost(config.dailyCount, |weeks|);
    var leaders := Leaders(weeks, daily);
    var w := AtMost(config.weeklyCount, |leaders|);
    var among := Pick(keys, leaders);
    ChosenAreLeaders(keys, weeks, config);
    assert ChosenLeaders(keys, weeks, config) == leaders[..w] by { SuffixesAgree(keys, weeks, config); }
    assert leaders[..w][j] in leaders[..w] && leaders[k] in leaders && leaders[k] !in leaders[..w];
    LeaderKeysDiffer(keys, weeks, daily);
    assert among[j] != among[k];
    BeforeIsTotal(among[k], among[j]);
    if Before(among[j], among[k]) { SmallerRanksAbove(among, among[j], among[k]); }
  }

  lemma SuffixesAgree(keys: seq<string>, weeks: seq<int>, config: RetentionConfig)
    requires |keys| == |weeks| && KeptPositions(keys, weeks, config) == NewestPositions(weeks, config)
    ensures var leaders := Leaders(weeks, AtMost(config.dailyCount, |weeks|));
      ChosenLeaders(keys, weeks, config) == leaders[..AtMost(config.weeklyCount, |leaders|)]
  {
    var daily := AtMost(config.dailyCount, |weeks|);
    assert KeptPositions(keys, weeks, config)[daily..] == ChosenLeaders(keys, weeks, config);
    assert NewestPositions(weeks, config)[daily..] == Leaders(weeks, daily)[..|NewestPositions(weeks, config)| - daily];
  }

  /** The code keeps what the policy promises exactly when the newest weeks have greater keys than all older ones. */
  lemma KeepsNewestWeeksIff(keys: seq<string>, weeks: seq<int>, config: RetentionConfig)
    requires KeysMatchWeeks(keys, weeks)
    ensures KeptPositions(keys, weeks, config) == NewestPositions(weeks, config)
       <==> NewestWeeksWin(keys, weeks, config)
  {
    if NewestWeeksWin(keys, weeks, config) { WinnersAreChosen(keys, weeks, config); }
    if KeptPositions(keys, weeks, config) == NewestPositions(weeks, config) {
      var leaders := Leaders(weeks, AtMost(config.dailyCount, |weeks|));
      forall j, k | 0 <= j < AtMost(config.weeklyCount, |leaders|) <= k < |leaders|
        ensures Before(keys[leaders[k]], keys[leaders[j]])
      {
        ChosenMeansWinning(keys, weeks, config, j, k);
      }
    }
  }

  // ---- Selecting again ----

  lemma {:induction false} LeastKey(keys: seq<string>) returns (k: nat)
    requires keys != [] && AllDifferent(keys)
    ensures k < |keys| && forall j | 0 <= j < |keys| && j != k :: Before(keys[k], keys[j])
  {
    var n := |keys| - 1;
    if n == 0 { return 0; }
    k := LeastKey(keys[..n]);
    assert keys[k] != keys[n];
    BeforeIsTotal(keys[k], keys[n]);
    if Before(keys[n], keys[k]) {
      forall j | 0 <= j < n ensures Before(keys[n], keys[j]) {
        if j != k { BeforeIsTransitive(keys[n], keys[k], keys[..n][j]); }
      }
      k := n;
    }
  }

  lemma FirstHasNewKey(keys: seq<string>, weeks: seq<int>, daily: nat, a: nat, b: nat)
    requires KeysMatchWeeks(keys, weeks) && daily <= a < b < |weeks| && b in Leaders(weeks, daily)
    ensures keys[a] != keys[b]
  {
    LeadersAreFirsts(weeks, daily, b);
  }

  lemma ChosenKeysDiffer(keys: seq<string>, weeks: seq<int>, config: RetentionConfig)
    requires KeysMatchWeeks(keys, weeks)
    ensures var chosen := ChosenLeaders(keys, weeks, config);
      (forall k | 0 <= k < |chosen| :: chosen[k] < |keys|) && AllDifferent(Pick(keys, chosen))
  {
    var chosen, daily := ChosenLeaders(keys, weeks, config), AtMost(config.dailyCount, |weeks|);
    ChosenAreLeaders(keys, weeks, config);
    forall j, k | 0 <= j < k < |chosen| ensures Pick(keys, chosen)[j] != Pick(keys, chosen)[k] {
      assert chosen[k] in chosen;
      FirstHasNewKey(keys, weeks, daily, chosen[j], chosen[k]);
    }
  }

  /** No more leaders are chosen than asked for. */
  lemma ChosenAreFew(keys: seq<string>, weeks: seq<int>, config: RetentionConfig)
    requires KeysMatchWeeks(keys, weeks)
    ensures |ChosenLeaders(keys, weeks, config)| == 0 || |ChosenLeaders(keys, weeks, config)| <= config.weeklyCount
  {
    var chosen := ChosenLeaders(keys, weeks, config);
    var leaders := Leaders(weeks, AtMost(config.dailyCount, |weeks|));
    ChosenAreLeaders(keys, weeks, config);
    ChosenKeysDiffer(keys, weeks, config);
    if chosen != [] {
      var own, among := Pick(keys, chosen), Pick(keys, leaders);
      var least := LeastKey(own);
      assert chosen[least] in chosen;
      forall x | x in Members(own) - {own[least]} ensures x in among && Before(own[least], x) {
        var j :| 0 <= j < |own| && own[j] == x;
        assert chosen[j] in chosen && chosen[j] in leaders;
        var m :| 0 <= m < |leaders| && leaders[m] == chosen[j];
        assert among[m] == x;
      }
      SmallerSet(Members(own) - {own[least]}, set x | x in among && Before(own[least], x));
      MembersCounted(own);
    }
  }

  /** If the weeks from `daily` on are all different, each position there leads its week. */
  lemma {:induction false} AllLead(weeks: seq<int>, daily: nat)
    requires daily <= |weeks| && forall i, j | daily <= i < j < |weeks| :: weeks[i] != weeks[j]
    ensures |Leaders(weeks, daily)| == |weeks| - daily
  {
    if |weeks| > daily { AllLead(weeks[..|weeks| - 1], daily); }
  }

  /** As many increasing positions as there are places fill them all. */
  lemma {:induction false} IncreasingFills(s: seq<nat>, lo: nat, hi: nat)
    requires lo <= hi && |s| == hi - lo
    requires forall k | 0 <= k < |s| :: lo <= s[k] < hi
    requires Increasing(s)
    ensures forall k | 0 <= k < |s| :: s[k] == lo + k
  {
    if s != [] {
      var n := |s| - 1;
      if s[n] == hi - 1 {
        IncreasingFills(s[..n], lo, hi - 1);
      } else {
        assert s[0] >= lo;
        IncreasingIsSteep(s, n);
      }
    }
  }

  lemma {:induction false} IncreasingIsSteep(s: seq<nat>, k: nat)
    requires k < |s| && Increasing(s)
    ensures s[k] >= s[0] + k
  {
    if k > 0 { IncreasingIsSteep(s, k - 1); }
  }

  /** No key has as many greater ones as there are keys, so with few enough all are chosen. */
  lemma FewAreChosen(keys: seq<string>, leaders: seq<nat>, n: int)
    requires (leaders == [] || |leaders| <= n) && forall k | 0 <= k < |leaders| :: leaders[k] < |keys|
    ensures Filter(leaders, RanksBelow(keys, Pick(keys, leaders), n)) == leaders
  {
    var among := Pick(keys, leaders);
    forall i | 0 <= i < |leaders| ensures RanksBelow(keys, among, n)(leaders[i]) {
      WinnerRanksBelow(among, |among|, i);
    }
    FilterAll(leaders, RanksBelow(keys, among, n));
  }

  lemma AllAreLeaders(weeks: seq<int>, daily: nat)
    requires daily <= |weeks| && forall i, j | daily <= i < j < |weeks| :: weeks[i] != weeks[j]
    ensures |Leaders(weeks, daily)| == |weeks| - daily
    ensures forall k | 0 <= k < |weeks| - daily :: Leaders(weeks, daily)[k] == daily + k
  {
    AllLead(weeks, daily);
    IncreasingFills(Leaders(weeks, daily), daily, |weeks|);
  }

  lemma UpToSplits(daily: nat, rest: seq<nat>)
    requires forall k | 0 <= k < |rest| :: rest[k] == daily + k
    ensures UpTo(daily) + rest == UpTo(daily + |rest|)
  {}

  /** Where no week occurs twice beyond the daily ones, and there are few enough, everything is kept. */
  lemma FewWeeksAreKept(keys: seq<string>, weeks: seq<int>, config: RetentionConfig)
    requires |keys| == |weeks|
    requires var daily := AtMost(config.dailyCount, |weeks|);
      && (forall i, j | daily <= i < j < |weeks| :: weeks[i] != weeks[j])
      && (|weeks| == daily || |weeks| - daily <= config.weeklyCount)
    ensures KeptPositions(keys, weeks, config) == UpTo(|weeks|)
  {
    var daily := AtMost(config.dailyCount, |weeks|);
    AllAreLeaders(weeks, daily);
    UpToSplits(daily, Leaders(weeks, daily));
    FewAreChosen(keys, Leaders(weeks, daily), config.weeklyCount);
  }

  lemma KeptSizes(weeks: seq<int>, config: RetentionConfig, chosen: seq<nat>)
    requires forall k | 0 <= k < |chosen| :: AtMost(config.dailyCount, |weeks|) <= chosen[k] < |weeks|
    ensures var daily := AtMost(config.dailyCount, |weeks|); AtMost(config.dailyCount, daily + |chosen|) == daily
  {
    if |chosen| > 0 { assert AtMost(config.dailyCount, |weeks|) <= chosen[0] < |weeks|; }
  }

  lemma KeptWeeksDiffer(keys: seq<string>, weeks: seq<int>, config: RetentionConfig, i: nat, j: nat)
    requires KeysMatchWeeks(keys, weeks)
    requires AtMost(config.dailyCount, |weeks|) <= i < j < |KeptPositions(keys, weeks, config)|
    ensures var kept := KeptPositions(keys, weeks, config);
      kept[i] < |weeks| && kept[j] < |weeks| && weeks[kept[i]] != weeks[kept[j]]
  {
    var daily := AtMost(config.dailyCount, |weeks|);
    var chosen := ChosenLeaders(keys, weeks, config);
    ChosenKeysDiffer(keys, weeks, config);
    assert Pick(keys, chosen)[i - daily] != Pick(keys, chosen)[j - daily];
  }

  /** Selecting again from what was kept keeps all of it. */
  lemma SelectionIsFixpoint(keys: seq<string>, weeks: seq<int>, config: RetentionConfig, keptKeys: seq<string>,
                            keptWeeks: seq<int>)
    requires KeysMatchWeeks(keys, weeks)
    requires forall k | 0 <= k < |KeptPositions(keys, weeks, config)| ::
      KeptPositions(keys, weeks, config)[k] < |weeks|
    requires keptKeys == Pick(keys, KeptPositions(keys, weeks, config))
    requires keptWeeks == Pick(weeks, KeptPositions(keys, weeks, config))
    ensures KeptPositions(keptKeys, keptWeeks, config) == UpTo(|keptWeeks|)
  {
    var daily := AtMost(config.dailyCount, |weeks|);
    ChosenAreLeaders(keys, weeks, config);
    ChosenAreFew(keys, weeks, config);
    KeptSizes(weeks, config, ChosenLeaders(keys, weeks, config));
    forall i, j | daily <= i < j < |keptWeeks| ensures keptWeeks[i] != keptWeeks[j] {
      KeptWeeksDiffer(keys, weeks, config, i, j);
    }
    FewWeeksAreKept(keptKeys, keptWeeks, config);
  }
}
