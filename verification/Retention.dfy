/** Backup retention: the code that selects what to keep from a listing, and deletes the rest. */
module Retention {
  import opened Basics
  import opened IsoWeek
  import opened RetentionPolicy

  const MINUTES_PER_DAY: int := 24 * 60

  /** `time` is the listed date and time, in minutes since 1970. */
  datatype SpacesObject = SpacesObject(path: string, time: int)
  datatype RetentionResult = RetentionResult(kept: seq<string>, deleted: seq<string>, errors: nat)

  function Day(o: SpacesObject): int { o.time / MINUTES_PER_DAY }
  function Week(o: SpacesObject): int { Monday(Day(o)) }

  /** A week holds the minutes of seven days, from Monday on; 1 January 1970 was a Thursday. */
  lemma WeekOfTime(a: SpacesObject, b: SpacesObject)
    ensures 1440 * Week(a) <= a.time < 1440 * (Week(a) + 7) && Week(a) % 7 == 4
    ensures Week(a) == Week(b) <==> 1440 * Week(a) <= b.time < 1440 * (Week(a) + 7)
  {
    MondayToSunday(Day(a), Day(b));
  }

  function KeyOf(o: SpacesObject): string { WeekKey(Day(o)) }

  lemma SameKeyOf(a: SpacesObject, b: SpacesObject)
    ensures KeyOf(a) == KeyOf(b) <==> Week(a) == Week(b)
  {
    SameKeyIffSameWeek(Day(a), Day(b));
  }

  function Weeks(objects: seq<SpacesObject>): (r: seq<int>)
    ensures |r| == |objects| && forall i | 0 <= i < |r| :: r[i] == Week(objects[i])
  {
    seq(|objects|, i requires 0 <= i < |objects| => Week(objects[i]))
  }

  function WeekKeys(objects: seq<SpacesObject>): (r: seq<string>)
    ensures |r| == |objects| && forall i | 0 <= i < |r| :: r[i] == KeyOf(objects[i])
  {
    seq(|objects|, i requires 0 <= i < |objects| => KeyOf(objects[i]))
  }

  lemma WeekKeysMatch(objects: seq<SpacesObject>)
    ensures KeysMatchWeeks(WeekKeys(objects), Weeks(objects))
  {
    var keys, weeks := WeekKeys(objects), Weeks(objects);
    forall i, j | 0 <= i < |keys| && 0 <= j < |keys| ensures keys[i] == keys[j] <==> weeks[i] == weeks[j] {
      SameKeyOf(objects[i], objects[j]);
    }
  }

  ghost predicate Descending(times: seq<int>) { forall i, j | 0 <= i < j < |times| :: times[i] >= times[j] }

  // ---- Maps in insertion order, and sorting ----

  datatype Bucket = Bucket(key: string, backup: SpacesObject)

  /** `retained.set(o.path, o)`. */
  function Put(retained: seq<SpacesObject>, o: SpacesObject): seq<SpacesObject> {
    if retained == [] then [o]
    else if retained[0].path == o.path then [o] + retained[1..]
    else [retained[0]] + Put(retained[1..], o)
  }

  lemma {:induction false} PutAppends(retained: seq<SpacesObject>, o: SpacesObject)
    requires forall r | r in retained :: r.path != o.path
    ensures Put(retained, o) == retained + [o]
  {
    if retained != [] { PutAppends(retained[1..], o); }
  }

  predicate HasKey(buckets: seq<Bucket>, key: string) { exists k | 0 <= k < |buckets| :: buckets[k].key == key }

  function InsertByTime(rows: seq<SpacesObject>, o: SpacesObject): (r: seq<SpacesObject>)
    ensures multiset(r) == multiset(rows) + multiset{o}
  {
    if rows == [] || rows[|rows| - 1].time >= o.time then rows + [o] else
      var n := |rows| - 1;
      assert rows == rows[..n] + [rows[n]];
      InsertByTime(rows[..n], o) + [rows[n]]
  }

  /** The stable sort by date, newest first. */
  function SortNewestFirst(rows: seq<SpacesObject>): (r: seq<SpacesObject>)
    ensures multiset(r) == multiset(rows)
  {
    if rows == [] then [] else
      var n := |rows| - 1;
      assert rows == rows[..n] + [rows[n]];
      InsertByTime(SortNewestFirst(rows[..n]), rows[n])
  }

  ghost predicate NewestFirst(rows: seq<SpacesObject>) {
    forall i, j | 0 <= i < j < |rows| :: rows[i].time >= rows[j].time
  }

  lemma {:induction false} InsertKeepsOrder(rows: seq<SpacesObject>, o: SpacesObject)
    requires NewestFirst(rows)
    ensures NewestFirst(InsertByTime(rows, o))
  {
    var n := |rows| - 1;
    if rows != [] && rows[n].time < o.time {
      InsertKeepsOrder(rows[..n], o);
      var r := InsertByTime(rows[..n], o);
      forall i | 0 <= i < |r| ensures r[i].time >= rows[n].time {
        assert r[i] in multiset(r);
        assert r[i] == o || r[i] in rows[..n];
      }
    }
  }

  lemma {:induction false} SortIsNewestFirst(rows: seq<SpacesObject>)
    ensures NewestFirst(SortNewestFirst(rows))
  {
    if rows != [] {
      SortIsNewestFirst(rows[..|rows| - 1]);
      InsertKeepsOrder(SortNewestFirst(rows[..|rows| - 1]), rows[|rows| - 1]);
    }
  }

  function AtTime(time: int): SpacesObject -> bool { (o: SpacesObject) => o.time == time }

  lemma {:induction false} FilterConcat<T>(a: seq<T>, b: seq<T>, p: T -> bool)
    ensures Filter(a + b, p) == Filter(a, p) + Filter(b, p)
  {
    if b == [] {
      assert a + b == a;
    } else {
      assert (a + b)[..|a + b| - 1] == a + b[..|b| - 1];
      FilterConcat(a, b[..|b| - 1], p);
    }
  }

  lemma {:induction false} InsertIsStable(rows: seq<SpacesObject>, o: SpacesObject, time: int)
    ensures Filter(InsertByTime(rows, o), AtTime(time)) == Filter(rows, AtTime(time)) + Filter([o], AtTime(time))
  {
    var n := |rows| - 1;
    if rows == [] || rows[n].time >= o.time {
      FilterConcat(rows, [o], AtTime(time));
    } else {
      InsertIsStable(rows[..n], o, time);
      FilterConcat(rows[..n], [rows[n]], AtTime(time));
      assert rows == rows[..n] + [rows[n]];
      InsertedBefore(rows[..n], rows[n], o, time);
    }
  }

  lemma InsertedBefore(rows: seq<SpacesObject>, last: SpacesObject, o: SpacesObject, time: int)
    requires last.time != o.time
    requires Filter(InsertByTime(rows, o), AtTime(time)) == Filter(rows, AtTime(time)) + Filter([o], AtTime(time))
    ensures Filter(InsertByTime(rows, o) + [last], AtTime(time))
      == Filter(rows, AtTime(time)) + Filter([last], AtTime(time)) + Filter([o], AtTime(time))
  {
    FilterConcat(InsertByTime(rows, o), [last], AtTime(time));
    OneOfTwo(last, o, time);
  }

  lemma OneOfTwo(a: SpacesObject, b: SpacesObject, time: int)
    requires a.time != b.time
    ensures Filter([a], AtTime(time)) + Filter([b], AtTime(time))
         == Filter([b], AtTime(time)) + Filter([a], AtTime(time))
  {}

  /** Backups of one time stay in the order in which the bucket lists them. */
  lemma {:induction false} SortIsStable(rows: seq<SpacesObject>, time: int)
    ensures Filter(SortNewestFirst(rows), AtTime(time)) == Filter(rows, AtTime(time))
  {
    if rows != [] {
      var n := |rows| - 1;
      SortIsStable(rows[..n], time);
      InsertIsStable(SortNewestFirst(rows[..n]), rows[n], time);
      FilterConcat(rows[..n], [rows[n]], AtTime(time));
      assert rows == rows[..n] + [rows[n]];
    }
  }

  function InsertKey(keys: seq<string>, key: string): (r: seq<string>)
    ensures multiset(r) == multiset(keys) + multiset{key}
  {
    if keys == [] || Before(key, keys[0]) then [key] + keys else
      assert keys == [keys[0]] + keys[1..];
      [keys[0]] + InsertKey(keys[1..], key)
  }

  /** `keys.sort()`. */
  function SortKeys(keys: seq<string>): (r: seq<string>)
    ensures multiset(r) == multiset(keys)
  {
    if keys == [] then [] else
      var n := |keys| - 1;
      assert keys == keys[..n] + [keys[n]];
      InsertKey(SortKeys(keys[..n]), keys[n])
  }

  function Reverse(keys: seq<string>): (r: seq<string>)
    ensures |r| == |keys| && forall k | 0 <= k < |r| :: r[k] == keys[|keys| - 1 - k]
  {
    seq(|keys|, k requires 0 <= k < |keys| => keys[|keys| - 1 - k])
  }

  ghost predicate KeysAscend(keys: seq<string>) { forall j, k | 0 <= j < k < |keys| :: Before(keys[j], keys[k]) }

  lemma {:induction false} InsertKeepsAscending(keys: seq<string>, key: string)
    requires KeysAscend(keys) && key !in keys
    ensures KeysAscend(InsertKey(keys, key))
  {
    if keys != [] {
      BeforeIsTotal(key, keys[0]);
      if Before(key, keys[0]) {
        forall k | 0 <= k < |keys| ensures Before(key, keys[k]) {
          if k > 0 { BeforeIsTransitive(key, keys[0], keys[k]); }
        }
      } else {
        InsertKeepsAscending(keys[1..], key);
        var rest := InsertKey(keys[1..], key);
        forall k | 0 <= k < |rest| ensures Before(keys[0], rest[k]) {
          assert rest[k] in multiset(rest);
          assert rest[k] == key || rest[k] in keys[1..];
        }
      }
    }
  }

  lemma {:induction false} SortOfDifferent(keys: seq<string>)
    requires AllDifferent(keys)
    ensures KeysAscend(SortKeys(keys))
  {
    if keys != [] {
      var n := |keys| - 1;
      SortOfDifferent(keys[..n]);
      assert keys[n] !in multiset(keys[..n]);
      InsertKeepsAscending(SortKeys(keys[..n]), keys[n]);
    }
  }

  /** `keys.sort().reverse()` of different keys: the same keys, the greatest first. */
  lemma SortedReversed(keys: seq<string>)
    requires AllDifferent(keys)
    ensures var r := Reverse(SortKeys(keys)); |r| == |keys| && KeysDescend(r) && forall key :: key in r <==> key in keys
  {
    SortOfDifferent(keys);
    var up := SortKeys(keys);
    assert |multiset(up)| == |up| && |multiset(keys)| == |keys|;
    forall key ensures key in Reverse(up) <==> key in keys {
      assert key in multiset(up) <==> key in multiset(keys);
      if key in up {
        var k :| 0 <= k < |up| && up[k] == key;
        assert Reverse(up)[|up| - 1 - k] == key;
      }
    }
  }

  // ---- Selection ----

  ghost predicate DistinctPaths(rows: seq<SpacesObject>) {
    forall i, j | 0 <= i < j < |rows| :: rows[i].path != rows[j].path
  }

  /** Of two backups in different weeks the older one has the smaller key. */
  ghost predicate KeysFollowWeeks(rows: seq<SpacesObject>) {
    forall a, b | a in rows && b in rows && Week(a) < Week(b) :: Before(KeyOf(a), KeyOf(b))
  }

  /** So it is when all years have four digits; IsoWeek.KeyOrderAcrossDigits says which years of other lengths agree. */
  lemma FourDigitKeysFollowWeeks(rows: seq<SpacesObject>)
    requires forall o | o in rows :: FourDigitYear(Day(o))
    ensures KeysFollowWeeks(rows)
  {
    forall a, b | a in rows && b in rows && Week(a) < Week(b) ensures Before(KeyOf(a), KeyOf(b)) {
      FourDigitKeyOrder(Day(a), Day(b));
    }
  }

  /** The backups that are kept, in listing order. */
  function Retained(sorted: seq<SpacesObject>, config: RetentionConfig): (r: seq<SpacesObject>)
    ensures forall o | o in r :: o in sorted
  {
    KeptPositionsAreOrdered(WeekKeys(sorted), Weeks(sorted), config);
    Pick(sorted, KeptPositions(WeekKeys(sorted), Weeks(sorted), config))
  }

  lemma InRetainedIff(sorted: seq<SpacesObject>, config: RetentionConfig, o: SpacesObject)
    ensures o in Retained(sorted, config)
      <==> exists i | 0 <= i < |sorted| :: sorted[i] == o && i in KeptPositions(WeekKeys(sorted), Weeks(sorted), config)
  {
    var positions := KeptPositions(WeekKeys(sorted), Weeks(sorted), config);
    KeptPositionsAreOrdered(WeekKeys(sorted), Weeks(sorted), config);
    if i :| 0 <= i < |sorted| && sorted[i] == o && i in positions {
      var k :| 0 <= k < |positions| && positions[k] == i;
      assert Retained(sorted, config)[k] == o;
    }
    if o in Retained(sorted, config) {
      var k :| 0 <= k < |positions| && Retained(sorted, config)[k] == o;
      assert sorted[positions[k]] == o && positions[k] in positions;
    }
  }

  /** One bucket for each of the given positions. */
  function BucketsOf(keys: seq<string>, objects: seq<SpacesObject>, positions: seq<nat>): (r: seq<Bucket>)
    requires |keys| == |objects| && forall k | 0 <= k < |positions| :: positions[k] < |objects|
    ensures |r| == |positions|
    ensures forall k | 0 <= k < |r| :: r[k] == Bucket(keys[positions[k]], objects[positions[k]])
  {
    seq(|positions|, k requires 0 <= k < |positions| => Bucket(keys[positions[k]], objects[positions[k]]))
  }

  function KeysOf(buckets: seq<Bucket>): (r: seq<string>)
    ensures |r| == |buckets| && forall k | 0 <= k < |r| :: r[k] == buckets[k].key
  {
    seq(|buckets|, k requires 0 <= k < |buckets| => buckets[k].key)
  }

  lemma BucketMeansEarlier(keys: seq<string>, objects: seq<SpacesObject>, weeks: seq<int>, n: nat)
    requires KeysMatchWeeks(keys, weeks) && |objects| == |keys| && n < |weeks|
    requires HasKey(BucketsOf(keys, objects, Leaders(weeks[..n], 0)), keys[n])
    ensures !FirstOfItsWeek(weeks[..n + 1], 0, n)
  {
    var leaders := Leaders(weeks[..n], 0);
    var k :| 0 <= k < |leaders| && BucketsOf(keys, objects, leaders)[k].key == keys[n];
    assert weeks[..n + 1][leaders[k]] == weeks[..n + 1][n];
  }

  lemma EarlierMeansBucket(keys: seq<string>, objects: seq<SpacesObject>, weeks: seq<int>, n: nat)
    requires KeysMatchWeeks(keys, weeks) && |objects| == |keys| && n < |weeks| && !FirstOfItsWeek(weeks[..n + 1], 0, n)
    ensures HasKey(BucketsOf(keys, objects, Leaders(weeks[..n], 0)), keys[n])
  {
    var leaders := Leaders(weeks[..n], 0);
    var j :| 0 <= j < n && weeks[..n + 1][j] == weeks[..n + 1][n];
    var k := WeekHasLeader(weeks[..n], 0, j);
    assert BucketsOf(keys, objects, leaders)[k].key == keys[n];
  }

  /** The buckets after one more backup: a new one exactly when no bucket has its week. */
  lemma BucketStep(keys: seq<string>, objects: seq<SpacesObject>, weeks: seq<int>, n: nat)
    requires KeysMatchWeeks(keys, weeks) && |objects| == |keys| && n < |weeks|
    ensures var buckets := BucketsOf(keys, objects, Leaders(weeks[..n], 0));
      BucketsOf(keys, objects, Leaders(weeks[..n + 1], 0)) == buckets + if HasKey(buckets, keys[n]) then []
        else [Bucket(keys[n], objects[n])]
  {
    if HasKey(BucketsOf(keys, objects, Leaders(weeks[..n], 0)), keys[n]) {
      BucketMeansEarlier(keys, objects, weeks, n);
    } else if !FirstOfItsWeek(weeks[..n + 1], 0, n) {
      EarlierMeansBucket(keys, objects, weeks, n);
    }
    assert weeks[..n + 1][..n] == weeks[..n];
  }

  lemma WeekFollowsTime(a: SpacesObject, b: SpacesObject)
    requires a.time >= b.time
    ensures Week(a) >= Week(b)
  {
    MondayToSunday(Day(a), Day(b));
    MondayToSunday(Day(b), Day(a));
  }

  lemma KeyFollowsTime(a: SpacesObject, b: SpacesObject)
    requires a.time >= b.time && Week(a) != Week(b) && KeysFollowWeeks([a, b])
    ensures Before(KeyOf(b), KeyOf(a))
  {
    WeekFollowsTime(a, b);
    assert a in [a, b] && b in [a, b];
  }

  /** Listed newest first, the leaders' keys descend as strings, if keys follow weeks. */
  lemma LeaderKeysDescend(sorted: seq<SpacesObject>, daily: nat)
    requires NewestFirst(sorted) && KeysFollowWeeks(sorted)
    ensures KeysDescend(Pick(WeekKeys(sorted), Leaders(Weeks(sorted), daily)))
  {
    var leaders := Leaders(Weeks(sorted), daily);
    var keys := Pick(WeekKeys(sorted), leaders);
    forall j, k | 0 <= j < k < |keys| ensures Before(keys[k], keys[j]) {
      var a, b := sorted[leaders[j]], sorted[leaders[k]];
      assert a in sorted && b in sorted;
      LeadersHaveDifferentWeeks(Weeks(sorted), daily, j, k);
      assert forall o | o in [a, b] :: o in sorted;
      KeyFollowsTime(a, b);
    }
  }

  /** Then the backups kept are those of the newest weeks. */
  lemma NewestAreRetained(sorted: seq<SpacesObject>, config: RetentionConfig)
    requires NewestFirst(sorted) && KeysFollowWeeks(sorted)
    ensures KeptPositions(WeekKeys(sorted), Weeks(sorted), config) == NewestPositions(Weeks(sorted), config)
  {
    var daily := AtMost(config.dailyCount, |Weeks(sorted)|);
    var leaders := Leaders(Weeks(sorted), daily);
    WeekKeysMatch(sorted);
    LeaderKeysDescend(sorted, daily);
    forall j, k | 0 <= j < AtMost(config.weeklyCount, |leaders|) <= k < |leaders|
      ensures Before(WeekKeys(sorted)[leaders[k]], WeekKeys(sorted)[leaders[j]])
    {
      assert Before(Pick(WeekKeys(sorted), leaders)[k], Pick(WeekKeys(sorted), leaders)[j]);
    }
    KeepsNewestWeeksIff(WeekKeys(sorted), Weeks(sorted), config);
  }

  lemma {:induction false} FilterSuffix(sorted: seq<SpacesObject>, p: SpacesObject -> bool, n: nat)
    requires n <= |sorted|
    requires forall i | 0 <= i < |sorted| :: p(sorted[i]) <==> i >= n
    ensures Filter(sorted, p) == sorted[n..]
  {
    if |sorted| > n {
      FilterSuffix(sorted[..|sorted| - 1], p, n);
      assert sorted[n..] == sorted[..|sorted| - 1][n..] + [sorted[|sorted| - 1]];
    } else {
      FilterNothing(sorted, p);
    }
  }

  lemma {:induction false} FilterNothing<T>(rows: seq<T>, p: T -> bool)
    requires forall row | row in rows :: !p(row)
    ensures Filter(rows, p) == []
  {
    if rows != [] {
      assert rows[|rows| - 1] in rows;
      FilterNothing(rows[..|rows| - 1], p);
    }
  }

  predicate Holds(rows: seq<SpacesObject>, path: string) { exists k | 0 <= k < |rows| :: rows[k].path == path }

  /** `weekBuckets.get(key)`. */
  function Get(buckets: seq<Bucket>, key: string): Option<SpacesObject> {
    if buckets == [] then None else if buckets[0].key == key then Some(buckets[0].backup) else Get(buckets[1..], key)
  }

  lemma {:induction false} GetFinds(buckets: seq<Bucket>, i: nat)
    requires i < |buckets| && AllDifferent(KeysOf(buckets))
    ensures Get(buckets, buckets[i].key) == Some(buckets[i].backup)
  {
    if i > 0 {
      assert KeysOf(buckets)[0] != KeysOf(buckets)[i];
      assert KeysOf(buckets[1..]) == KeysOf(buckets)[1..];
      GetFinds(buckets[1..], i - 1);
    }
  }

  /** The first backup listed for each week. */
  method BucketByWeek(remaining: seq<SpacesObject>) returns (buckets: seq<Bucket>)
    ensures buckets == BucketsOf(WeekKeys(remaining), remaining, Leaders(Weeks(remaining), 0))
  {
    ghost var keys, weeks := WeekKeys(remaining), Weeks(remaining);
    WeekKeysMatch(remaining);
    buckets := [];
    for n := 0 to |remaining|
      invariant buckets == BucketsOf(keys, remaining, Leaders(weeks[..n], 0))
    {
      BucketStep(keys, remaining, weeks, n);
      var weekKey := KeyOf(remaining[n]);
      if !HasKey(buckets, weekKey) { buckets := buckets + [Bucket(weekKey, remaining[n])]; }
    }
    assert weeks[..|remaining|] == weeks;
  }

  /** Leaders beyond the daily ones are the leaders of the rest. */
  lemma {:induction false} LeadersOfSuffix(weeks: seq<int>, daily: nat)
    requires daily <= |weeks|
    ensures |Leaders(weeks, daily)| == |Leaders(weeks[daily..], 0)|
    ensures forall k | 0 <= k < |Leaders(weeks, daily)| ::
      Leaders(weeks, daily)[k] == daily + Leaders(weeks[daily..], 0)[k]
  {
    if |weeks| > daily {
      var n := |weeks| - 1;
      LeadersOfSuffix(weeks[..n], daily);
      assert weeks[..n][daily..] == weeks[daily..][..n - daily];
      FirstInSuffix(weeks, daily, n);
    }
  }

  lemma FirstInSuffix(weeks: seq<int>, daily: nat, n: nat)
    requires daily <= n < |weeks|
    ensures FirstOfItsWeek(weeks, daily, n) <==> FirstOfItsWeek(weeks[daily..], 0, n - daily)
  {
    if FirstOfItsWeek(weeks[daily..], 0, n - daily) {
      forall j | daily <= j < n
        ensures weeks[j] != weeks[n]
      {
        assert weeks[daily..][j - daily] != weeks[daily..][n - daily];
      }
    }
  }

  lemma BucketsOfSuffix(keys: seq<string>, sorted: seq<SpacesObject>, weeks: seq<int>, daily: nat)
    requires |keys| == |sorted| == |weeks| && daily <= |sorted|
    ensures BucketsOf(keys[daily..], sorted[daily..], Leaders(weeks[daily..], 0))
      == BucketsOf(keys, sorted, Leaders(weeks, daily))
  {
    LeadersOfSuffix(weeks, daily);
  }

  /** The leaders of the first n keys, in the order of the keys. */
  ghost predicate LeadersOf(keys: seq<string>, leaders: seq<nat>, weekKeys: seq<string>, at: seq<nat>, n: nat) {
    && |at| == n <= |weekKeys|
    && forall k | 0 <= k < n :: at[k] in leaders && at[k] < |keys| && keys[at[k]] == weekKeys[k]
  }

  /** The key stands for one leader, whose backup is in its bucket. */
  lemma LeaderOfKey(keys: seq<string>, sorted: seq<SpacesObject>, leaders: seq<nat>, key: string) returns (l: nat)
    requires |keys| == |sorted| && forall k | 0 <= k < |leaders| :: leaders[k] < |keys|
    requires AllDifferent(Pick(keys, leaders)) && key in Pick(keys, leaders)
    ensures l in leaders && l < |keys| && keys[l] == key
    ensures Get(BucketsOf(keys, sorted, leaders), key) == Some(sorted[l])
  {
    var k :| 0 <= k < |leaders| && Pick(keys, leaders)[k] == key;
    l := leaders[k];
    assert KeysOf(BucketsOf(keys, sorted, leaders)) == Pick(keys, leaders);
    GetFinds(BucketsOf(keys, sorted, leaders), k);
  }

  lemma PickOneMore(sorted: seq<SpacesObject>, at: seq<nat>, l: nat)
    requires l < |sorted| && forall k | 0 <= k < |at| :: at[k] < |sorted|
    ensures Pick(sorted, at + [l]) == Pick(sorted, at) + [sorted[l]]
  {}

  /** A position that is neither daily nor fetched before holds a new path. */
  lemma PutNext(sorted: seq<SpacesObject>, daily: nat, at: seq<nat>, l: nat)
    requires DistinctPaths(sorted) && daily <= l < |sorted| && l !in at
    requires forall k | 0 <= k < |at| :: at[k] < |sorted|
    ensures Put(sorted[..daily] + Pick(sorted, at), sorted[l]) == sorted[..daily] + Pick(sorted, at + [l])
  {
    forall r | r in Pick(sorted, at) ensures r.path != sorted[l].path {
      var k :| 0 <= k < |at| && Pick(sorted, at)[k] == r;
    }
    PutAppends(sorted[..daily] + Pick(sorted, at), sorted[l]);
    PickOneMore(sorted, at, l);
  }

  /** One more week: its backup is not there yet. */
  lemma FetchNext(sorted: seq<SpacesObject>, keys: seq<string>, daily: nat, leaders: seq<nat>, weekKeys: seq<string>,
                  at: seq<nat>) returns (l: nat)
    requires DistinctPaths(sorted) && |keys| == |sorted|
    requires forall k | 0 <= k < |leaders| :: daily <= leaders[k] < |sorted|
    requires AllDifferent(Pick(keys, leaders)) && KeysDescend(weekKeys)
    requires forall key | key in weekKeys :: key in Pick(keys, leaders)
    requires LeadersOf(keys, leaders, weekKeys, at, |at|) && |at| < |weekKeys|
    ensures LeadersOf(keys, leaders, weekKeys, at + [l], |at| + 1)
    ensures Get(BucketsOf(keys, sorted, leaders), weekKeys[|at|]) == Some(sorted[l])
    ensures Put(sorted[..daily] + Pick(sorted, at), sorted[l]) == sorted[..daily] + Pick(sorted, at + [l])
  {
    l := LeaderOfKey(keys, sorted, leaders, weekKeys[|at|]);
    DescendingDiffer(weekKeys);
    forall k | 0 <= k < |at| ensures at[k] != l { assert weekKeys[k] != weekKeys[|at|]; }
    PutNext(sorted, daily, at, l);
  }

  /** Phase 2: the backups of the greatest `weeklyCount` week keys. */
  method AddWeekly(ghost sorted: seq<SpacesObject>, ghost daily: nat, ghost keys: seq<string>, ghost leaders: seq<nat>,
                   before: seq<SpacesObject>, buckets: seq<Bucket>, weeklyCount: int)
    returns (retained: seq<SpacesObject>, ghost at: seq<nat>)
    requires DistinctPaths(sorted) && daily <= |sorted| == |keys| && before == sorted[..daily]
    requires forall k | 0 <= k < |leaders| :: daily <= leaders[k] < |sorted|
    requires buckets == BucketsOf(keys, sorted, leaders) && AllDifferent(Pick(keys, leaders))
    ensures LeadersOf(keys, leaders, Reverse(SortKeys(Pick(keys, leaders))), at, AtMost(weeklyCount, |leaders|))
    ensures retained == sorted[..daily] + Pick(sorted, at)
  {
    var weekKeys := Reverse(SortKeys(KeysOf(buckets)));
    assert KeysOf(buckets) == Pick(keys, leaders);
    SortedReversed(KeysOf(buckets));
    retained, at := before, [];
    for i := 0 to AtMost(weeklyCount, |weekKeys|)
      invariant LeadersOf(keys, leaders, weekKeys, at, i) && retained == sorted[..daily] + Pick(sorted, at)
    {
      ghost var l := FetchNext(sorted, keys, daily, leaders, weekKeys, at);
      at := at + [l];
      var o := Get(buckets, weekKeys[i]);
      if o.Some? { retained := Put(retained, o.value); }
    }
  }

  lemma BucketsAreLeaders(sorted: seq<SpacesObject>, daily: nat)
    requires daily <= |sorted|
    ensures BucketsOf(WeekKeys(sorted[daily..]), sorted[daily..], Leaders(Weeks(sorted[daily..]), 0))
      == BucketsOf(WeekKeys(sorted), sorted, Leaders(Weeks(sorted), daily))
  {
    assert Weeks(sorted[daily..]) == Weeks(sorted)[daily..];
    assert WeekKeys(sorted[daily..]) == WeekKeys(sorted)[daily..];
    BucketsOfSuffix(WeekKeys(sorted), sorted, Weeks(sorted), daily);
  }

  lemma SameRank(a: seq<string>, b: seq<string>, key: string)
    requires forall k :: k in a <==> k in b
    ensures Greater(a, key) == Greater(b, key)
  {
    assert (set x | x in a && Before(key, x)) == (set x | x in b && Before(key, x));
  }

  lemma FetchedMeansChosen(keys: seq<string>, leaders: seq<nat>, weekKeys: seq<string>, at: seq<nat>, l: nat, n: int)
    requires (forall k | 0 <= k < |leaders| :: leaders[k] < |keys|) && KeysDescend(weekKeys)
    requires forall key :: key in weekKeys <==> key in Pick(keys, leaders)
    requires LeadersOf(keys, leaders, weekKeys, at, AtMost(n, |weekKeys|)) && l in at
    ensures l in leaders && RanksBelow(keys, Pick(keys, leaders), n)(l)
  {
    var k :| 0 <= k < |at| && at[k] == l;
    SameRank(Pick(keys, leaders), weekKeys, weekKeys[k]);
    RankIsPosition(weekKeys, k);
  }

  lemma ChosenMeansFetched(keys: seq<string>, leaders: seq<nat>, weekKeys: seq<string>, at: seq<nat>, l: nat, n: int)
    requires (forall k | 0 <= k < |leaders| :: leaders[k] < |keys|) && KeysDescend(weekKeys)
    requires forall key :: key in weekKeys <==> key in Pick(keys, leaders)
    requires LeadersOf(keys, leaders, weekKeys, at, AtMost(n, |weekKeys|)) && AllDifferent(Pick(keys, leaders))
    requires l in leaders && RanksBelow(keys, Pick(keys, leaders), n)(l)
    ensures l in at
  {
    var k := PositionOfKey(keys, leaders, weekKeys, l);
    SameRank(Pick(keys, leaders), weekKeys, weekKeys[k]);
    RankIsPosition(weekKeys, k);
    SameKeySameLeader(keys, leaders, at[k], l);
  }

  /** The leaders fetched are those chosen. */
  lemma FetchedIsChosen(keys: seq<string>, weeks: seq<int>, config: RetentionConfig, at: seq<nat>, l: nat)
    requires KeysMatchWeeks(keys, weeks)
    requires var leaders := Leaders(weeks, AtMost(config.dailyCount, |weeks|));
      LeadersOf(keys, leaders, Reverse(SortKeys(Pick(keys, leaders))), at, AtMost(config.weeklyCount, |leaders|))
    ensures l in at <==> l in ChosenLeaders(keys, weeks, config)
  {
    var daily := AtMost(config.dailyCount, |weeks|);
    var leaders := Leaders(weeks, daily);
    var weekKeys := Reverse(SortKeys(Pick(keys, leaders)));
    LeaderKeysDiffer(keys, weeks, daily);
    SortedReversed(Pick(keys, leaders));
    ChosenAreLeaders(keys, weeks, config);
    if l in at { FetchedMeansChosen(keys, leaders, weekKeys, at, l, config.weeklyCount); }
    if l in ChosenLeaders(keys, weeks, config) {
      ChosenMeansFetched(keys, leaders, weekKeys, at, l, config.weeklyCount);
    }
  }

  lemma PositionOfKey(keys: seq<string>, leaders: seq<nat>, weekKeys: seq<string>, l: nat) returns (k: nat)
    requires (forall k | 0 <= k < |leaders| :: leaders[k] < |keys|) && l in leaders
    requires forall key | key in Pick(keys, leaders) :: key in weekKeys
    ensures l < |keys| && k < |weekKeys| && weekKeys[k] == keys[l]
  {
    var m :| 0 <= m < |leaders| && leaders[m] == l;
    assert Pick(keys, leaders)[m] in weekKeys;
    k :| 0 <= k < |weekKeys| && weekKeys[k] == keys[l];
  }

  lemma SameKeySameLeader(keys: seq<string>, leaders: seq<nat>, a: nat, b: nat)
    requires (forall k | 0 <= k < |leaders| :: leaders[k] < |keys|) && AllDifferent(Pick(keys, leaders))
    requires a in leaders && b in leaders && keys[a] == keys[b]
    ensures a == b
  {
    var j :| 0 <= j < |leaders| && leaders[j] == a;
    var k :| 0 <= k < |leaders| && leaders[k] == b;
    assert Pick(keys, leaders)[j] == Pick(keys, leaders)[k];
  }

  /** Phase 1: the newest backups, as a map from paths. */
  method KeepDaily(sorted: seq<SpacesObject>, daily: nat) returns (retained: seq<SpacesObject>)
    requires DistinctPaths(sorted) && daily <= |sorted|
    ensures retained == sorted[..daily]
  {
    retained := [];
    for i := 0 to daily
      invariant retained == sorted[..i]
    {
      PutAppends(retained, sorted[i]);
      retained := Put(retained, sorted[i]);
    }
  }

  lemma NotRetained(sorted: seq<SpacesObject>, daily: nat)
    requires DistinctPaths(sorted) && daily <= |sorted|
    ensures Filter(sorted, (o: SpacesObject) => !Holds(sorted[..daily], o.path)) == sorted[daily..]
  {
    var p := (o: SpacesObject) => !Holds(sorted[..daily], o.path);
    forall i | 0 <= i < |sorted| ensures p(sorted[i]) <==> i >= daily {
      if i < daily { assert sorted[..daily][i].path == sorted[i].path; }
    }
    FilterSuffix(sorted, p, daily);
  }

  /** First the daily backups, then one of each chosen week, the greatest key first; just what is to be retained. */
  ghost predicate Selects(sorted: seq<SpacesObject>, config: RetentionConfig, retained: seq<SpacesObject>) {
    var daily := AtMost(config.dailyCount, |sorted|);
    && daily <= |retained| && retained[..daily] == sorted[..daily]
    && KeysDescend(WeekKeys(retained[daily..]))
    && forall o :: o in retained <==> o in Retained(sorted, config)
  }

  lemma FetchedKeysDescend(keys: seq<string>, sorted: seq<SpacesObject>, leaders: seq<nat>, weekKeys: seq<string>,
                           at: seq<nat>)
    requires keys == WeekKeys(sorted) && KeysDescend(weekKeys) && LeadersOf(keys, leaders, weekKeys, at, |at|)
    ensures KeysDescend(WeekKeys(Pick(sorted, at)))
  {}

  lemma InFetched(sorted: seq<SpacesObject>, daily: nat, at: seq<nat>, o: SpacesObject)
    requires daily <= |sorted| && forall k | 0 <= k < |at| :: at[k] < |sorted|
    ensures o in sorted[..daily] + Pick(sorted, at)
      <==> exists i | 0 <= i < |sorted| :: sorted[i] == o && (i < daily || i in at)
  {
    if i :| 0 <= i < |sorted| && sorted[i] == o && (i < daily || i in at) {
      if i < daily { assert sorted[..daily][i] == o; } else {
        var k :| 0 <= k < |at| && at[k] == i;
        assert Pick(sorted, at)[k] == o;
      }
    }
    if o in Pick(sorted, at) {
      var k :| 0 <= k < |at| && Pick(sorted, at)[k] == o;
      assert sorted[at[k]] == o && at[k] in at;
    }
  }

  lemma InKeptIff(keys: seq<string>, weeks: seq<int>, config: RetentionConfig, i: nat)
    requires |keys| == |weeks|
    ensures i in KeptPositions(keys, weeks, config)
      <==> i < AtMost(config.dailyCount, |weeks|) || i in ChosenLeaders(keys, weeks, config)
  {
    var daily := AtMost(config.dailyCount, |weeks|);
    if i < daily { assert UpTo(daily)[i] == i; }
  }

  lemma FetchedIsRetained(sorted: seq<SpacesObject>, config: RetentionConfig, at: seq<nat>, o: SpacesObject)
    requires var leaders := Leaders(Weeks(sorted), AtMost(config.dailyCount, |sorted|));
      LeadersOf(WeekKeys(sorted), leaders, Reverse(SortKeys(Pick(WeekKeys(sorted), leaders))), at,
        AtMost(config.weeklyCount, |leaders|))
    ensures o in sorted[..AtMost(config.dailyCount, |sorted|)] + Pick(sorted, at) <==> o in Retained(sorted, config)
  {
    WeekKeysMatch(sorted);
    InFetched(sorted, AtMost(config.dailyCount, |sorted|), at, o);
    InRetainedIff(sorted, config, o);
    forall i: nat | i < |sorted|
      ensures i in KeptPositions(WeekKeys(sorted), Weeks(sorted), config)
        <==> i < AtMost(config.dailyCount, |sorted|) || i in at
    {
      InKeptIff(WeekKeys(sorted), Weeks(sorted), config, i);
      FetchedIsChosen(WeekKeys(sorted), Weeks(sorted), config, at, i);
    }
  }

  lemma FetchedSelects(sorted: seq<SpacesObject>, config: RetentionConfig, at: seq<nat>, retained: seq<SpacesObject>)
    requires var leaders := Leaders(Weeks(sorted), AtMost(config.dailyCount, |sorted|));
      LeadersOf(WeekKeys(sorted), leaders, Reverse(SortKeys(Pick(WeekKeys(sorted), leaders))), at,
        AtMost(config.weeklyCount, |leaders|))
    requires retained == sorted[..AtMost(config.dailyCount, |sorted|)] + Pick(sorted, at)
    ensures Selects(sorted, config, retained)
  {
    var daily := AtMost(config.dailyCount, |sorted|);
    var leaders := Leaders(Weeks(sorted), daily);
    WeekKeysMatch(sorted);
    LeaderKeysDiffer(WeekKeys(sorted), Weeks(sorted), daily);
    SortedReversed(Pick(WeekKeys(sorted), leaders));
    FetchedKeysDescend(WeekKeys(sorted), sorted, leaders, Reverse(SortKeys(Pick(WeekKeys(sorted), leaders))), at);
    assert retained[daily..] == Pick(sorted, at);
    forall o ensures o in retained <==> o in Retained(sorted, config) { FetchedIsRetained(sorted, config, at, o); }
  }

  method SelectRetained(sorted: seq<SpacesObject>, config: RetentionConfig) returns (retained: seq<SpacesObject>)
    requires DistinctPaths(sorted)
    ensures Selects(sorted, config, retained)
  {
    var daily := AtMost(config.dailyCount, |sorted|);
    retained := KeepDaily(sorted, daily);
    NotRetained(sorted, daily);
    var remaining := Filter(sorted, (o: SpacesObject) => !Holds(sorted[..daily], o.path));
    var buckets := BucketByWeek(remaining);
    BucketsAreLeaders(sorted, daily);
    WeekKeysMatch(sorted);
    LeaderKeysDiffer(WeekKeys(sorted), Weeks(sorted), daily);
    ghost var at;
    retained, at := AddWeekly(sorted, daily, WeekKeys(sorted), Leaders(Weeks(sorted), daily), retained, buckets,
      config.weeklyCount);
    FetchedSelects(sorted, config, at, retained);
  }

  // ---- Enforcement ----

  function Paths(objects: seq<SpacesObject>): (r: seq<string>)
    ensures |r| == |objects| && forall i | 0 <= i < |r| :: r[i] == objects[i].path
  {
    seq(|objects|, i requires 0 <= i < |objects| => objects[i].path)
  }

  function PathIn(paths: seq<string>): SpacesObject -> bool { (o: SpacesObject) => o.path in paths }
  function PathNotIn(paths: seq<string>): SpacesObject -> bool { (o: SpacesObject) => o.path !in paths }

  /** The paths kept, newest first, and those deleted. */
  function KeptPaths(objects: seq<SpacesObject>, config: RetentionConfig): seq<string> {
    Paths(Retained(SortNewestFirst(objects), config))
  }

  function Doomed(objects: seq<SpacesObject>, config: RetentionConfig): seq<string> {
    Paths(Filter(SortNewestFirst(objects), PathNotIn(KeptPaths(objects, config))))
  }

  /** Filtering by membership in an increasing selection gives the selection. */
  lemma {:induction false} FilterIsPick(objects: seq<SpacesObject>, positions: seq<nat>, p: SpacesObject -> bool)
    requires forall k | 0 <= k < |positions| :: positions[k] < |objects|
    requires forall j, k | 0 <= j < k < |positions| :: positions[j] < positions[k]
    requires forall i | 0 <= i < |objects| :: p(objects[i]) <==> i in positions
    ensures Filter(objects, p) == Pick(objects, positions)
    decreases |objects|, 1
  {
    if objects == [] {
    } else {
      var n := |objects| - 1;
      if p(objects[n]) {
        LastIsGreatest(positions, n);
        FilterIsPickOfRest(objects, positions, positions[..|positions| - 1], p);
      } else {
        forall k | 0 <= k < |positions| ensures positions[k] < n { assert positions[k] in positions; }
        FilterIsPick(objects[..n], positions, p);
      }
    }
  }

  lemma {:induction false} FilterIsPickOfRest(objects: seq<SpacesObject>, positions: seq<nat>, rest: seq<nat>,
                                              p: SpacesObject -> bool)
    requires objects != [] && positions == rest + [|objects| - 1]
    requires forall k | 0 <= k < |positions| :: positions[k] < |objects|
    requires forall j, k | 0 <= j < k < |positions| :: positions[j] < positions[k]
    requires forall i | 0 <= i < |objects| :: p(objects[i]) <==> i in positions
    ensures Filter(objects, p) == Pick(objects, positions)
    decreases |objects|, 0
  {
    var n := |objects| - 1;
    assert positions[|rest|] == n;
    forall k | 0 <= k < |rest|
      ensures rest[k] == positions[k] && positions[k] < n
    {
      assert positions[k] < positions[|rest|];
    }
    assert forall i | 0 <= i < n :: i in rest <==> i in positions;
    FilterIsPick(objects[..n], rest, p);
    assert n in positions && p(objects[n]);
    assert Pick(objects, positions) == Pick(objects[..n], rest) + [objects[n]];
  }

  lemma LastIsGreatest(positions: seq<nat>, n: nat)
    requires n in positions && forall k | 0 <= k < |positions| :: positions[k] <= n
    requires forall j, k | 0 <= j < k < |positions| :: positions[j] < positions[k]
    ensures positions[|positions| - 1] == n
  {}

  lemma KeptIsFiltered(objects: seq<SpacesObject>, config: RetentionConfig)
    requires DistinctPaths(SortNewestFirst(objects))
    ensures Filter(SortNewestFirst(objects), PathIn(KeptPaths(objects, config)))
      == Retained(SortNewestFirst(objects), config)
  {
    var sorted := SortNewestFirst(objects);
    var positions := KeptPositions(WeekKeys(sorted), Weeks(sorted), config);
    KeptPositionsAreOrdered(WeekKeys(sorted), Weeks(sorted), config);
    var kept := KeptPaths(objects, config);
    forall i | 0 <= i < |sorted| ensures sorted[i].path in kept <==> i in positions {
      if i in positions {
        var k :| 0 <= k < |positions| && positions[k] == i;
        assert kept[k] == sorted[i].path;
      }
      if sorted[i].path in kept {
        var k :| 0 <= k < |kept| && kept[k] == sorted[i].path;
        assert sorted[positions[k]].path == sorted[i].path;
        assert positions[k] == i;
      }
    }
    FilterIsPick(sorted, positions, PathIn(kept));
  }

  /** The bucket, in listing order. */
  class SpacesClient {
    var objects: seq<SpacesObject>

    constructor (listing: seq<SpacesObject>)
      ensures objects == listing
    {
      objects := listing;
    }

    method List() returns (listing: seq<SpacesObject>)
      ensures listing == objects
    {
      listing := objects;
    }

    /** Deletes the paths; a failing call may still have deleted some of them. */
    method RemoveMany(paths: seq<string>, failure: Option<seq<string>>) returns (ok: bool)
      modifies this
      ensures ok == failure.None?
      ensures ok ==> objects == Filter(old(objects), PathNotIn(paths))
      ensures forall o :: o in objects ==> o in old(objects)
      ensures forall o | o in old(objects) && o.path !in paths :: o in objects
    {
      ok := failure.None?;
      var gone := PathNotIn(paths);
      if failure.Some? { gone := (o: SpacesObject) => o.path !in paths || o.path !in failure.value; }
      FilterKeeps(objects, gone);
      objects := Filter(objects, gone);
    }
  }

  /** One enforcement; `failure` is what a failing bulk delete got through before it failed. */
  method EnforceSpacesRetention(spaces: SpacesClient, config: RetentionConfig, failure: Option<seq<string>>)
    returns (result: RetentionResult)
    requires DistinctPaths(spaces.objects)
    modifies spaces
    ensures result.kept == KeptPaths(old(spaces.objects), config)
    ensures result.deleted == if failure.None? then Doomed(old(spaces.objects), config) else []
    ensures result.errors == if failure.Some? && Doomed(old(spaces.objects), config) != [] then 1 else 0
    ensures forall o | o in old(spaces.objects) && o.path in result.kept :: o in spaces.objects
    ensures forall o | o in spaces.objects :: o in old(spaces.objects)
    ensures failure.None? ==>
      spaces.objects == Filter(old(spaces.objects), PathNotIn(Doomed(old(spaces.objects), config)))
    ensures failure.None? ==>
      forall o :: o in spaces.objects <==> o in old(spaces.objects) && o.path in result.kept
  {
    var objects := spaces.List();
    JustKeptSurvive(objects, config);
    if |objects| == 0 {
      NothingToPlan(objects, config);
      return RetentionResult([], [], 0);
    }
    var kept, toDelete := PlanRetention(objects, config);
    KeptIsNotDoomed(objects, config);
    var deleted, errors := [], 0;
    if |toDelete| > 0 {
      var ok := spaces.RemoveMany(toDelete, failure);
      if ok { deleted := toDelete; } else { errors := 1; }
    } else {
      FilterAll(objects, PathNotIn(toDelete));
    }
    result := RetentionResult(kept, deleted, errors);
  }

  /** What to keep and what to delete, both newest first. */
  method PlanRetention(objects: seq<SpacesObject>, config: RetentionConfig)
    returns (kept: seq<string>, toDelete: seq<string>)
    requires DistinctPaths(objects)
    ensures kept == KeptPaths(objects, config) && toDelete == Doomed(objects, config)
  {
    var sorted := SortNewestFirst(objects);
    SortKeepsPaths(objects);
    var toKeep := SelectRetained(sorted, config);
    var keepSet := Paths(toKeep);
    KeptIsFiltered(objects, config);
    SamePathsFilter(sorted, toKeep, Retained(sorted, config));
    toDelete := Paths(Filter(sorted, PathNotIn(keepSet)));
    kept := Paths(Filter(sorted, PathIn(keepSet)));
  }

  /** Filtering by the paths of the same backups gives the same. */
  lemma SamePathsFilter(rows: seq<SpacesObject>, a: seq<SpacesObject>, b: seq<SpacesObject>)
    requires forall o :: o in a <==> o in b
    ensures Filter(rows, PathIn(Paths(a))) == Filter(rows, PathIn(Paths(b)))
    ensures Filter(rows, PathNotIn(Paths(a))) == Filter(rows, PathNotIn(Paths(b)))
  {
    forall path ensures path in Paths(a) <==> path in Paths(b) {
      PathHasBackup(a, b, path);
      PathHasBackup(b, a, path);
    }
    FilterAgrees(rows, PathIn(Paths(a)), PathIn(Paths(b)));
    FilterAgrees(rows, PathNotIn(Paths(a)), PathNotIn(Paths(b)));
  }

  lemma PathHasBackup(a: seq<SpacesObject>, b: seq<SpacesObject>, path: string)
    requires forall o | o in a :: o in b
    ensures path in Paths(a) ==> path in Paths(b)
  {
    if path in Paths(a) {
      var k :| 0 <= k < |a| && Paths(a)[k] == path;
      PathsOfMembers(b, a[k]);
    }
  }

  lemma NothingToPlan(objects: seq<SpacesObject>, config: RetentionConfig)
    requires objects == []
    ensures KeptPaths(objects, config) == [] && Doomed(objects, config) == []
  {}

  lemma KeptIsNotDoomed(objects: seq<SpacesObject>, config: RetentionConfig)
    ensures forall path | path in KeptPaths(objects, config) :: path !in Doomed(objects, config)
  {
    var rest := Filter(SortNewestFirst(objects), PathNotIn(KeptPaths(objects, config)));
    FilterKeeps(SortNewestFirst(objects), PathNotIn(KeptPaths(objects, config)));
    forall path | path in Doomed(objects, config) ensures path !in KeptPaths(objects, config) {
      var k :| 0 <= k < |rest| && Paths(rest)[k] == path;
      assert rest[k] in rest;
    }
  }

  lemma SortKeepsPaths(objects: seq<SpacesObject>)
    requires DistinctPaths(objects)
    ensures DistinctPaths(SortNewestFirst(objects))
  {
    var sorted := SortNewestFirst(objects);
    forall i, j | 0 <= i < j < |sorted| ensures sorted[i].path != sorted[j].path {
      PermutationKeepsDistinct(objects, sorted, i, j);
    }
  }

  lemma PermutationKeepsDistinct(a: seq<SpacesObject>, b: seq<SpacesObject>, i: nat, j: nat)
    requires DistinctPaths(a) && multiset(a) == multiset(b) && i < j < |b|
    ensures b[i].path != b[j].path
  {
    assert b[i] in multiset(b) && b[j] in multiset(b);
    assert b[i] in a && b[j] in a;
    if b[i] == b[j] {
      TwiceInMultiset(b, i, j);
      OnceInMultiset(a, b[i]);
    }
  }

  lemma TwiceInMultiset(b: seq<SpacesObject>, i: nat, j: nat)
    requires i < j < |b| && b[i] == b[j]
    ensures multiset(b)[b[i]] >= 2
  {
    assert b == b[..j] + [b[j]] + b[j + 1..];
    assert b[..j] == b[..i] + [b[i]] + b[i + 1..j];
  }

  lemma OnceInMultiset(a: seq<SpacesObject>, o: SpacesObject)
    requires DistinctPaths(a)
    ensures multiset(a)[o] <= 1
  {
    if o in a {
      var i :| 0 <= i < |a| && a[i] == o;
      assert a == a[..i] + [a[i]] + a[i + 1..];
      assert o !in a[..i] && o !in a[i + 1..];
    }
  }

  // ---- A second run ----

  function Times(objects: seq<SpacesObject>): (r: seq<int>)
    ensures |r| == |objects| && forall i | 0 <= i < |r| :: r[i] == objects[i].time
  {
    seq(|objects|, i requires 0 <= i < |objects| => objects[i].time)
  }

  lemma WithoutOne<T>(b: seq<T>, j: nat)
    requires j < |b|
    ensures multiset(b[..j] + b[j + 1..]) == multiset(b) - multiset{b[j]}
    ensures b[j] in multiset(b)
  {
    assert b == b[..j] + [b[j]] + b[j + 1..];
  }

  lemma TimesWithoutOne(b: seq<SpacesObject>, j: nat)
    requires j < |b|
    ensures multiset(Times(b[..j] + b[j + 1..])) == multiset(Times(b)) - multiset{b[j].time}
    ensures b[j].time in multiset(Times(b))
  {
    WithoutOne(Times(b), j);
    assert Times(b)[..j] + Times(b)[j + 1..] == Times(b[..j] + b[j + 1..]);
  }

  lemma {:induction false} SameTimesAsMultisets(a: seq<SpacesObject>, b: seq<SpacesObject>)
    requires multiset(a) == multiset(b)
    ensures multiset(Times(a)) == multiset(Times(b))
  {
    if a == [] {
      assert |multiset(b)| == 0;
    } else {
      assert a[0] in multiset(b);
      var j :| 0 <= j < |b| && b[j] == a[0];
      WithoutOne(a, 0);
      WithoutOne(b, j);
      var a', b' := a[..0] + a[1..], b[..j] + b[j + 1..];
      SameTimesAsMultisets(a', b');
      SameTimesWithOneMore(a, b, j, a', b');
    }
  }

  lemma SameTimesWithOneMore(a: seq<SpacesObject>, b: seq<SpacesObject>, j: nat, a': seq<SpacesObject>,
                             b': seq<SpacesObject>)
    requires a != [] && j < |b| && b[j].time == a[0].time && a' == a[..0] + a[1..] && b' == b[..j] + b[j + 1..]
    requires multiset(Times(a')) == multiset(Times(b'))
    ensures multiset(Times(a)) == multiset(Times(b))
  {
    TimesWithoutOne(a, 0);
    TimesWithoutOne(b, j);
    AddBack(multiset(Times(a)), multiset(Times(b)), a[0].time);
  }

  lemma AddBack(m: multiset<int>, n: multiset<int>, x: int)
    requires x in m && x in n && m - multiset{x} == n - multiset{x}
    ensures m == n
  {
    assert m == (m - multiset{x}) + multiset{x};
  }

  lemma SameLeast(a: seq<int>, b: seq<int>)
    requires Descending(a) && Descending(b) && multiset(a) == multiset(b) && a != [] && b != []
    ensures a[|a| - 1] == b[|b| - 1]
  {
    assert a[|a| - 1] in multiset(b) && b[|b| - 1] in multiset(a);
    var j :| 0 <= j < |b| && b[j] == a[|a| - 1];
    var k :| 0 <= k < |a| && a[k] == b[|b| - 1];
    assert b[j] >= b[|b| - 1] && a[k] >= a[|a| - 1];
  }

  /** There is one descending arrangement. */
  lemma {:induction false} DescendingIsUnique(a: seq<int>, b: seq<int>)
    requires Descending(a) && Descending(b) && multiset(a) == multiset(b)
    ensures a == b
  {
    assert |multiset(a)| == |a| && |multiset(b)| == |b|;
    if a != [] {
      var n := |a| - 1;
      SameLeast(a, b);
      WithoutOne(a, n);
      WithoutOne(b, n);
      assert a[..n] + a[n + 1..] == a[..n] && b[..n] + b[n + 1..] == b[..n];
      DescendingIsUnique(a[..n], b[..n]);
    }
  }

  lemma SameTimesSameWeeks(a: seq<SpacesObject>, b: seq<SpacesObject>)
    requires Times(a) == Times(b)
    ensures Weeks(a) == Weeks(b) && WeekKeys(a) == WeekKeys(b)
  {
    assert |a| == |Times(a)| == |b|;
    forall i | 0 <= i < |a| ensures Week(a[i]) == Week(b[i]) && KeyOf(a[i]) == KeyOf(b[i]) {
      assert Times(a)[i] == Times(b)[i];
    }
  }

  lemma KeysOfKept(first: seq<SpacesObject>, config: RetentionConfig, positions: seq<nat>)
    requires positions == KeptPositions(WeekKeys(first), Weeks(first), config)
    ensures forall k | 0 <= k < |positions| :: positions[k] < |first|
    ensures WeekKeys(Retained(first, config)) == Pick(WeekKeys(first), positions)
    ensures Weeks(Retained(first, config)) == Pick(Weeks(first), positions)
    ensures NewestFirst(first) ==> NewestFirst(Retained(first, config))
  {
    KeptPositionsAreOrdered(WeekKeys(first), Weeks(first), config);
  }

  lemma KeptIsFixpoint(first: seq<SpacesObject>, config: RetentionConfig, kept: seq<SpacesObject>)
    requires kept == Retained(first, config)
    ensures KeptPositions(WeekKeys(kept), Weeks(kept), config) == UpTo(|kept|)
  {
    KeysOfKept(first, config, KeptPositions(WeekKeys(first), Weeks(first), config));
    WeekKeysMatch(first);
    SelectionIsFixpoint(WeekKeys(first), Weeks(first), config, WeekKeys(kept), Weeks(kept));
  }

  lemma SortedAgain(a: seq<SpacesObject>, b: seq<SpacesObject>)
    requires NewestFirst(a) && NewestFirst(b) && multiset(a) == multiset(b)
    ensures |a| == |b| && WeekKeys(a) == WeekKeys(b) && Weeks(a) == Weeks(b)
  {
    SameTimesAsMultisets(a, b);
    DescendingIsUnique(Times(a), Times(b));
    SameTimesSameWeeks(a, b);
    assert |a| == |Times(a)| == |b|;
  }

  /** However equal times are ordered, sorting what was kept selects everything again. */
  lemma KeptAgain(objects: seq<SpacesObject>, config: RetentionConfig, left: seq<SpacesObject>)
    requires multiset(left) == multiset(Retained(SortNewestFirst(objects), config))
    ensures Retained(SortNewestFirst(left), config) == SortNewestFirst(left)
  {
    var first, again := SortNewestFirst(objects), SortNewestFirst(left);
    SortIsNewestFirst(objects);
    SortIsNewestFirst(left);
    KeysOfKept(first, config, KeptPositions(WeekKeys(first), Weeks(first), config));
    SortedAgain(again, Retained(first, config));
    KeptIsFixpoint(first, config, Retained(first, config));
  }

  lemma FilterOfPermutation(a: seq<SpacesObject>, b: seq<SpacesObject>, p: SpacesObject -> bool)
    requires multiset(a) == multiset(b)
    ensures multiset(Filter(a, p)) == multiset(Filter(b, p))
  {
    var fa, fb := multiset(Filter(a, p)), multiset(Filter(b, p));
    forall x ensures fa[x] == fb[x] {
      FilterCounts(a, p, x);
      FilterCounts(b, p, x);
    }
    assert fa == fb;
  }

  lemma {:induction false} FilterCounts(a: seq<SpacesObject>, p: SpacesObject -> bool, x: SpacesObject)
    ensures multiset(Filter(a, p))[x] == if p(x) then multiset(a)[x] else 0
  {
    if a != [] {
      FilterCounts(a[..|a| - 1], p, x);
      assert a == a[..|a| - 1] + [a[|a| - 1]];
    }
  }

  lemma {:induction false} FilterAgrees<T>(rows: seq<T>, p: T -> bool, q: T -> bool)
    requires forall row | row in rows :: p(row) <==> q(row)
    ensures Filter(rows, p) == Filter(rows, q)
  {
    if rows != [] {
      assert rows[|rows| - 1] in rows;
      FilterAgrees(rows[..|rows| - 1], p, q);
    }
  }

  lemma PathsOfMembers(rows: seq<SpacesObject>, o: SpacesObject)
    requires o in rows
    ensures o.path in Paths(rows)
  {
    var k :| 0 <= k < |rows| && rows[k] == o;
    assert Paths(rows)[k] == o.path;
  }

  /** Each backup is either kept or doomed. */
  lemma KeptOrDoomed(objects: seq<SpacesObject>, config: RetentionConfig, o: SpacesObject)
    requires o in SortNewestFirst(objects)
    ensures o.path in KeptPaths(objects, config) <==> o.path !in Doomed(objects, config)
  {
    var kept, sorted := KeptPaths(objects, config), SortNewestFirst(objects);
    KeptIsNotDoomed(objects, config);
    if o.path !in kept {
      FilterKeeps(sorted, PathNotIn(kept));
      PathsOfMembers(Filter(sorted, PathNotIn(kept)), o);
    }
  }

  /** A run that deletes the doomed backups leaves just those kept. */
  lemma JustKeptSurvive(objects: seq<SpacesObject>, config: RetentionConfig)
    ensures forall o ::
      o in Filter(objects, PathNotIn(Doomed(objects, config))) <==> o in objects && o.path in KeptPaths(objects, config)
  {
    FilterKeeps(objects, PathNotIn(Doomed(objects, config)));
    forall o | o in objects ensures o.path in KeptPaths(objects, config) <==> o.path !in Doomed(objects, config) {
      assert o in multiset(objects) && o in multiset(SortNewestFirst(objects));
      KeptOrDoomed(objects, config, o);
    }
  }

  /** What a successful run leaves are the retained backups. */
  lemma SurvivorsAreRetained(objects: seq<SpacesObject>, config: RetentionConfig)
    requires DistinctPaths(objects)
    ensures multiset(Filter(objects, PathNotIn(Doomed(objects, config))))
      == multiset(Retained(SortNewestFirst(objects), config))
  {
    var sorted := SortNewestFirst(objects);
    SortKeepsPaths(objects);
    KeptIsFiltered(objects, config);
    forall o | o in sorted ensures PathIn(KeptPaths(objects, config))(o) <==> PathNotIn(Doomed(objects, config))(o) {
      KeptOrDoomed(objects, config, o);
    }
    FilterAgrees(sorted, PathIn(KeptPaths(objects, config)), PathNotIn(Doomed(objects, config)));
    FilterOfPermutation(objects, sorted, PathNotIn(Doomed(objects, config)));
  }

  /** With no uploads in between, and in whatever order the bucket lists what is left, a second run deletes nothing. */
  lemma SecondRunDeletesNothing(objects: seq<SpacesObject>, config: RetentionConfig, left: seq<SpacesObject>)
    requires DistinctPaths(objects)
    requires multiset(left) == multiset(Filter(objects, PathNotIn(Doomed(objects, config))))
    ensures Doomed(left, config) == [] && multiset(KeptPaths(left, config)) == multiset(Paths(SortNewestFirst(left)))
  {
    SurvivorsAreRetained(objects, config);
    KeptAgain(objects, config, left);
    var again := SortNewestFirst(left);
    forall o | o in again ensures o.path in KeptPaths(left, config) {
      var k :| 0 <= k < |again| && again[k] == o;
      assert Paths(again)[k] == o.path;
    }
    FilterNothing(again, PathNotIn(KeptPaths(left, config)));
  }

  // ---- Where the code departs from the policy ----

  lemma RanksOfPair(keys: seq<string>)
    requires |keys| == 2 && Before(keys[0], keys[1])
    ensures Greater(keys, keys[0]) >= 1 && Greater(keys, keys[1]) < 1
  {
    var down := [keys[1], keys[0]];
    assert KeysDescend(down);
    RankIsPosition(down, 0);
    RankIsPosition(down, 1);
    SameRank(down, keys, keys[0]);
    SameRank(down, keys, keys[1]);
  }

  lemma LeadersOfPair(weeks: seq<int>)
    requires |weeks| == 2 && weeks[0] != weeks[1]
    ensures Leaders(weeks, 0) == [0, 1]
  {
    AllAreLeaders(weeks, 0);
  }

  lemma OnlyMember(s: seq<nat>, x: nat)
    requires Increasing(s) && forall i :: i in s <==> i == x
    ensures s == [x]
  {
    assert x in s;
    assert |s| > 1 ==> s[0] < s[1];
    forall k | 0 <= k < |s| ensures s[k] == x { assert s[k] in s; }
  }

  lemma KeptOfPair(keys: seq<string>, weeks: seq<int>)
    requires |keys| == |weeks| == 2 && weeks[0] != weeks[1] && Before(keys[0], keys[1])
    ensures KeptPositions(keys, weeks, RetentionConfig(0, 1)) == [1]
  {
    var config := RetentionConfig(0, 1);
    var chosen := ChosenLeaders(keys, weeks, config);
    ChosenAreLeaders(keys, weeks, config);
    LeadersOfPair(weeks);
    assert Pick(keys, [0, 1]) == keys;
    RanksOfPair(keys);
    forall l ensures l in chosen <==> l == 1 {
      assert l in [0, 1] <==> l == 0 || l == 1;
      assert l in chosen <==> l in [0, 1] && RanksBelow(keys, keys, 1)(l);
    }
    OnlyMember(chosen, 1);
  }

  /** Of a backup of the year 1000 and one of 999, with one weekly backup to keep, the older is kept. */
  lemma OlderYearIsKept(a: SpacesObject, b: SpacesObject)
    requires IsoYear(Day(a)) == 1000 && IsoYear(Day(b)) == 999
    ensures Week(b) < Week(a) && Retained([a, b], RetentionConfig(0, 1)) == [b]
  {
    FourDigits(1000);
    assert Decimal(999) == Decimal(99) + [Digit(9)];
    assert DropDigits(1000, 1) == DropDigits(100, 0);
    KeyOrderAcrossDigits(Day(b), Day(a), 999, 1000, 1);
    BeforeIsTotal(KeyOf(a), KeyOf(b));
    SameKeyOf(a, b);
    WeekKeysMatch([a, b]);
    KeptOfPair(WeekKeys([a, b]), Weeks([a, b]));
  }
}
