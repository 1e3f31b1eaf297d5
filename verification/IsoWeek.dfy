/**
 The ISO week key of a date. Days are counted from 1 January 1970, a Thursday, in the Gregorian calendar
 extended both ways, as ECMAScript time values are.
 */
module IsoWeek {
  import opened Basics

  // ---- Calendar ----

  /** The day number of 1 January. */
  function Jan1(y: int): int { 365 * (y - 1970) + (y - 1969) / 4 - (y - 1901) / 100 + (y - 1601) / 400 }

  predicate IsLeap(y: int) { y % 4 == 0 && (y % 100 != 0 || y % 400 == 0) }

  lemma FourthYear(y: int)
    ensures (y - 1968) / 4 - (y - 1969) / 4 == if y % 4 == 0 then 1 else 0
  {}

  lemma HundredthYear(y: int)
    ensures (y - 1900) / 100 - (y - 1901) / 100 == if y % 100 == 0 then 1 else 0
  {}

  lemma FourHundredthYear(y: int)
    ensures (y - 1600) / 400 - (y - 1601) / 400 == if y % 400 == 0 then 1 else 0
  {}

  lemma LeapRule(y: int)
    ensures (if y % 4 == 0 then 1 else 0) - (if y % 100 == 0 then 1 else 0) + (if y % 400 == 0 then 1 else 0) ==
      if IsLeap(y) then 1 else 0
  {}

  lemma YearLength(y: int)
    ensures Jan1(y + 1) - Jan1(y) == if IsLeap(y) then 366 else 365
  {
    FourthYear(y);
    HundredthYear(y);
    FourHundredthYear(y);
    LeapRule(y);
  }

  lemma {:induction false} YearsAscend(y: int, z: int)
    requires y <= z
    ensures Jan1(y) + 365 * (z - y) <= Jan1(z)
    decreases z - y
  {
    if y < z {
      YearLength(y);
      YearsAscend(y + 1, z);
    }
  }

  /** The first year, counting up from y, that has not ended by the day. */
  function YearFrom(y: int, day: int): (r: int)
    requires Jan1(y) <= day
    ensures Jan1(r) <= day < Jan1(r + 1)
    decreases day - Jan1(y)
  {
    if day < Jan1(y + 1) then y else
      YearLength(y);
      YearFrom(y + 1, day)
  }

  /** The year the day falls in. */
  function YearOf(day: int): (y: int)
    ensures Jan1(y) <= day < Jan1(y + 1)
  {
    if day >= 0 then YearFrom(1970, day) else
      var start := 1970 + day / 365;
      YearsAscend(start, 1970);
      YearFrom(start, day)
  }

  lemma YearIsUnique(day: int, y: int)
    requires Jan1(y) <= day < Jan1(y + 1)
    ensures YearOf(day) == y
  {
    if y < YearOf(day) { YearsAscend(y + 1, YearOf(day)); }
    if YearOf(day) < y { YearsAscend(YearOf(day) + 1, y); }
  }

  // ---- Weeks ----

  /** 0 is Sunday. */
  function UtcDay(day: int): int { (day + 4) % 7 }

  /** The Thursday the code moves to: `date + 4 - (getUTCDay() || 7)`. */
  function NearestThursday(day: int): int { day + 4 - if UtcDay(day) == 0 then 7 else UtcDay(day) }

  function IsoYear(day: int): int { YearOf(NearestThursday(day)) }

  function CeilSevenths(x: int): int { -((-x) / 7) }

  function WeekNumber(day: int): int { CeilSevenths(NearestThursday(day) - Jan1(IsoYear(day)) + 1) }

  /** The Monday of the day's week. */
  function Monday(day: int): int { day - (day + 3) % 7 }

  lemma MondayToSunday(a: int, b: int)
    ensures Monday(a) <= a < Monday(a) + 7 && UtcDay(Monday(a)) == 1
    ensures Monday(a) == Monday(b) <==> Monday(a) <= b < Monday(a) + 7
    ensures Monday(a) < Monday(b) ==> a < b && Monday(a) + 7 <= Monday(b)
    ensures NearestThursday(a) == Monday(a) + 3
  {}

  lemma WeekNumberInRange(day: int)
    ensures 1 <= WeekNumber(day) <= 53
  {
    YearLength(IsoYear(day));
  }

  /** The Monday of week 1: the week with 4 January. */
  function FirstMonday(y: int): int { Monday(Jan1(y) + 3) }

  /** Counting weeks from the one holding the fourth day of a year that starts on day j. */
  lemma WeekArithmetic(j: int, next: int, t: int)
    requires j <= 7 * t < next
    ensures Monday(j + 3) <= 7 * t - 3 < Monday(next + 3)
    ensures 7 * t - 3 == Monday(j + 3) + 7 * (CeilSevenths(7 * t - j + 1) - 1)
  {
    var q := (j + 6) / 7;
    assert Monday(j + 3) == 7 * q - 3;
    assert (j - 1) / 7 == q - 1;
    assert (j - 1 - 7 * t) / 7 == q - 1 - t;
    var r := (next + 6) / 7;
    assert Monday(next + 3) == 7 * r - 3;
  }

  lemma ThursdayIsMultiple(day: int)
    ensures Monday(day) == 7 * ((day + 3) / 7) - 3 && NearestThursday(day) == 7 * ((day + 3) / 7)
  {}

  lemma WeeksOfYear(day: int, y: int, j: int, next: int, week: int)
    requires j == Jan1(y) && next == Jan1(y + 1) && j <= NearestThursday(day) < next
    requires week == CeilSevenths(NearestThursday(day) - j + 1)
    ensures FirstMonday(y) <= Monday(day) < FirstMonday(y + 1)
    ensures Monday(day) == FirstMonday(y) + 7 * (week - 1)
  {
    ThursdayIsMultiple(day);
    WeekArithmetic(j, next, (day + 3) / 7);
  }

  /**
   ISO 8601:2004, section 4.1.4: week 1 is the week with 4 January, and weeks count on from there to the next week 1.
   */
  lemma CountsFromFourthOfJanuary(day: int)
    ensures FirstMonday(IsoYear(day)) <= Monday(day) < FirstMonday(IsoYear(day) + 1)
    ensures Monday(day) == FirstMonday(IsoYear(day)) + 7 * (WeekNumber(day) - 1)
  {
    WeeksOfYear(day, IsoYear(day), Jan1(IsoYear(day)), Jan1(IsoYear(day) + 1), WeekNumber(day));
  }

  lemma SameWeekSameNumbers(a: int, b: int)
    requires Monday(a) == Monday(b)
    ensures IsoYear(a) == IsoYear(b) && WeekNumber(a) == WeekNumber(b)
  {
    ThursdayIsMultiple(a);
    ThursdayIsMultiple(b);
    assert NearestThursday(a) == NearestThursday(b);
  }

  /** The year and week number identify the Monday-to-Sunday week. */
  lemma SameNumbersIffSameWeek(a: int, b: int)
    ensures IsoYear(a) == IsoYear(b) && WeekNumber(a) == WeekNumber(b) <==> Monday(a) == Monday(b)
  {
    if Monday(a) == Monday(b) { SameWeekSameNumbers(a, b); }
    if IsoYear(a) == IsoYear(b) && WeekNumber(a) == WeekNumber(b) {
      CountsFromFourthOfJanuary(a);
      CountsFromFourthOfJanuary(b);
    }
  }

  lemma EarlierYearIsEarlier(a: int, b: int)
    requires IsoYear(a) < IsoYear(b)
    ensures Monday(a) < Monday(b)
  {
    CountsFromFourthOfJanuary(a);
    CountsFromFourthOfJanuary(b);
    FirstWeeksAscend(IsoYear(a) + 1, IsoYear(b));
  }

  lemma SameYearInOrder(a: int, b: int)
    requires IsoYear(a) == IsoYear(b)
    ensures Monday(a) < Monday(b) <==> WeekNumber(a) < WeekNumber(b)
  {
    CountsFromFourthOfJanuary(a);
    CountsFromFourthOfJanuary(b);
  }

  /** Later weeks have later numbers. */
  lemma NumbersFollowTime(a: int, b: int)
    ensures Monday(a) < Monday(b)
      <==> IsoYear(a) < IsoYear(b) || (IsoYear(a) == IsoYear(b) && WeekNumber(a) < WeekNumber(b))
  {
    if IsoYear(a) < IsoYear(b) { EarlierYearIsEarlier(a, b); }
    else if IsoYear(b) < IsoYear(a) { EarlierYearIsEarlier(b, a); }
    else { SameYearInOrder(a, b); }
  }

  lemma FirstWeeksAscend(y: int, z: int)
    requires y <= z
    ensures FirstMonday(y) <= FirstMonday(z)
  {
    YearsAscend(y, z);
    MondayToSunday(Jan1(y) + 3, Jan1(z) + 3);
    MondayToSunday(Jan1(z) + 3, Jan1(y) + 3);
  }

  // ---- The key as a string ----

  function Digit(d: int): char
    requires 0 <= d < 10
  {
    '0' + d as char
  }

  function Decimal(n: nat): string {
    if n < 10 then [Digit(n)] else Decimal(n / 10) + [Digit(n % 10)]
  }

  /** `String(n)` of an integer. */
  function Numeral(n: int): string { if n < 0 then "-" + Decimal(-n) else Decimal(n) }

  function PadTwo(s: string): string {
    if |s| == 0 then "00" else if |s| == 1 then "0" + s else s
  }

  function WeekKey(day: int): string
  {
    WeekNumberInRange(day);
    Numeral(IsoYear(day)) + "-W" + PadTwo(Decimal(WeekNumber(day)))
  }

  /** Reading a decimal back. */
  function ReadDecimal(s: string): int {
    if s == [] then 0 else 10 * ReadDecimal(s[..|s| - 1]) + (s[|s| - 1] as int - '0' as int)
  }

  lemma {:induction false} DecimalReadsBack(n: nat)
    ensures Decimal(n) != [] && ReadDecimal(Decimal(n)) == n && '0' <= Decimal(n)[0] <= '9'
  {
    if n < 10 {
      assert Decimal(n)[..0] == [];
      assert ReadDecimal([]) == 0;
    } else {
      DecimalReadsBack(n / 10);
      assert Decimal(n)[..|Decimal(n)| - 1] == Decimal(n / 10);
    }
  }

  lemma NumeralsDiffer(a: int, b: int)
    requires Numeral(a) == Numeral(b)
    ensures a == b
  {
    DecimalReadsBack(if a < 0 then -a else a);
    DecimalReadsBack(if b < 0 then -b else b);
    if a < 0 { assert Numeral(a)[0] == '-' && Numeral(a)[1..] == Decimal(-a); }
    if b < 0 { assert Numeral(b)[0] == '-' && Numeral(b)[1..] == Decimal(-b); }
  }

  lemma TwoDigits(n: nat)
    requires n < 100
    ensures PadTwo(Decimal(n)) == [Digit(n / 10), Digit(n % 10)]
  {
    assert Decimal(n / 10) == [Digit(n / 10)];
  }

  function Tail(week: int): string
    requires 0 <= week < 100
  {
    ['-', 'W', Digit(week / 10), Digit(week % 10)]
  }

  lemma KeyShape(day: int)
    ensures 1 <= WeekNumber(day) <= 53
    ensures WeekKey(day) == Numeral(IsoYear(day)) + Tail(WeekNumber(day))
  {
    WeekNumberInRange(day);
    TwoDigits(WeekNumber(day));
    assert "-W" + PadTwo(Decimal(WeekNumber(day))) == Tail(WeekNumber(day));
  }

  /** Two dates have one key exactly when they lie in one Monday-to-Sunday week. */
  lemma SameKeyIffSameWeek(a: int, b: int)
    ensures WeekKey(a) == WeekKey(b) <==> Monday(a) == Monday(b)
  {
    KeyShape(a);
    KeyShape(b);
    SameNumbersIffSameWeek(a, b);
    var p, q, s, t := Numeral(IsoYear(a)), Numeral(IsoYear(b)), Tail(WeekNumber(a)), Tail(WeekNumber(b));
    if p + s == q + t {
      assert |p| == |q|;
      assert p == (p + s)[..|p|] == q && s == (p + s)[|p|..] == t;
      NumeralsDiffer(IsoYear(a), IsoYear(b));
      assert s[2] == t[2] && s[3] == t[3];
    }
  }

  // ---- Known weeks ----

  lemma KeyIs(day: int, y: nat, j: int, next: int, week: nat, key: string)
    requires Jan1(y) == j && Jan1(y + 1) == next && j <= NearestThursday(day) < next && week < 100
    requires week == CeilSevenths(NearestThursday(day) - j + 1) && Decimal(y) + Tail(week) == key
    ensures WeekKey(day) == key
  {
    YearIsUnique(NearestThursday(day), y);
    KeyShape(day);
  }

  lemma YearStarts()
    ensures Jan1(1970) == 0 && Jan1(1971) == 365 && Jan1(2025) == 20089 && Jan1(2026) == 20454
    ensures Jan1(2027) == 20819 && Jan1(2028) == 21184
  {}

  lemma OneDigit(n: nat, d: nat, s: string)
    requires d < 10 && n > 0 && Decimal(n) == s
    ensures Decimal(10 * n + d) == s + [Digit(d)]
  {}

  lemma KnownYears()
    ensures Decimal(1970) == "1970" && Decimal(2025) == "2025" && Decimal(2026) == "2026" && Decimal(2027) == "2027"
  {
    OneDigit(1, 9, "1");
    OneDigit(19, 7, "19");
    OneDigit(197, 0, "197");
    OneDigit(2, 0, "2");
    OneDigit(20, 2, "20");
    OneDigit(202, 5, "202");
    OneDigit(202, 6, "202");
    OneDigit(202, 7, "202");
  }

  lemma KnownStrings()
    ensures Decimal(1970) + Tail(1) == "1970-W01" && Decimal(2025) + Tail(52) == "2025-W52"
    ensures Decimal(2026) + Tail(1) == "2026-W01" && Decimal(2026) + Tail(53) == "2026-W53"
    ensures Decimal(2027) + Tail(1) == "2027-W01"
  {
    KnownYears();
    assert Tail(1) == "-W01" && Tail(52) == "-W52" && Tail(53) == "-W53";
  }

  /** 1 January 1970 and the days around two turns of the year: 28 and 29 December 2025, 3 and 4 January 2027. */
  lemma KnownKeys(day: int)
    ensures day == 0 ==> WeekKey(day) == "1970-W01"
    ensures day == 20450 ==> WeekKey(day) == "2025-W52"
    ensures day == 20451 ==> WeekKey(day) == "2026-W01"
    ensures day == 20821 ==> WeekKey(day) == "2026-W53"
    ensures day == 20822 ==> WeekKey(day) == "2027-W01"
  {
    YearStarts();
    KnownStrings();
    if day == 0 { KeyIs(day, 1970, 0, 365, 1, "1970-W01"); }
    if day == 20450 { KeyIs(day, 2025, 20089, 20454, 52, "2025-W52"); }
    if day == 20451 { KeyIs(day, 2026, 20454, 20819, 1, "2026-W01"); }
    if day == 20821 { KeyIs(day, 2026, 20454, 20819, 53, "2026-W53"); }
    if day == 20822 { KeyIs(day, 2027, 20819, 21184, 1, "2027-W01"); }
  }

  // ---- String order ----

  lemma {:induction false} DecimalsAscend(a: nat, b: nat)
    requires a < b && |Decimal(a)| == |Decimal(b)|
    ensures Before(Decimal(a), Decimal(b))
  {
    if b >= 10 {
      DecimalReadsBack(a / 10);
      DecimalReadsBack(b / 10);
      assert |Decimal(b)| == |Decimal(b / 10)| + 1;
      assert a >= 10;
      if a / 10 == b / 10 {
        BeforeSkipsCommonPrefix(Decimal(a / 10), [Digit(a % 10)], [Digit(b % 10)]);
      } else {
        DecimalsAscend(a / 10, b / 10);
        BeforeDecidedEarly(Decimal(a / 10), Decimal(b / 10), [Digit(a % 10)], [Digit(b % 10)]);
      }
    }
  }

  lemma TailsAscend(v: int, w: int)
    requires 0 <= v < w < 100
    ensures Before(Tail(v), Tail(w))
  {
    var p, q, x, y := Digit(v / 10), Digit(w / 10), Digit(v % 10), Digit(w % 10);
    assert Before([x], [y]) || p < q;
    assert [p, x][1..] == [x] && [q, y][1..] == [y];
    assert Before([p, x], [q, y]);
    assert Tail(v) == ['-', 'W'] + [p, x] && Tail(w) == ['-', 'W'] + [q, y];
    BeforeSkipsCommonPrefix(['-', 'W'], [p, x], [q, y]);
  }

  lemma EarlierWeekSortsFirst(a: int, b: int)
    requires IsoYear(a) >= 0 && IsoYear(b) >= 0 && |Decimal(IsoYear(a))| == |Decimal(IsoYear(b))|
    requires Monday(a) < Monday(b)
    ensures Before(WeekKey(a), WeekKey(b))
  {
    KeyShape(a);
    KeyShape(b);
    NumbersFollowTime(a, b);
    if IsoYear(a) == IsoYear(b) {
      TailsAscend(WeekNumber(a), WeekNumber(b));
      BeforeSkipsCommonPrefix(Decimal(IsoYear(a)), Tail(WeekNumber(a)), Tail(WeekNumber(b)));
    } else {
      DecimalsAscend(IsoYear(a), IsoYear(b));
      BeforeDecidedEarly(Decimal(IsoYear(a)), Decimal(IsoYear(b)), Tail(WeekNumber(a)), Tail(WeekNumber(b)));
    }
  }

  /** Among years with as many digits, keys sort as the weeks follow one another. */
  lemma KeyOrderIsTimeOrder(a: int, b: int)
    requires IsoYear(a) >= 0 && IsoYear(b) >= 0 && |Decimal(IsoYear(a))| == |Decimal(IsoYear(b))|
    ensures Before(WeekKey(a), WeekKey(b)) <==> Monday(a) < Monday(b)
  {
    if Monday(a) < Monday(b) {
      EarlierWeekSortsFirst(a, b);
    } else if Monday(b) < Monday(a) {
      EarlierWeekSortsFirst(b, a);
      if Before(WeekKey(a), WeekKey(b)) {
        BeforeIsTransitive(WeekKey(a), WeekKey(b), WeekKey(a));
        BeforeIsIrreflexive(WeekKey(a));
      }
    } else {
      SameKeyIffSameWeek(a, b);
      BeforeIsIrreflexive(WeekKey(a));
    }
  }

  predicate FourDigitYear(day: int) { 1000 <= IsoYear(day) <= 9999 }

  lemma FourDigits(y: nat)
    requires 1000 <= y <= 9999
    ensures |Decimal(y)| == 4
  {
    assert |Decimal(y / 1000)| == 1;
    assert |Decimal(y / 100)| == 2 by { assert y / 100 / 10 == y / 1000; }
    assert |Decimal(y / 10)| == 3 by { assert y / 10 / 10 == y / 100; }
  }

  lemma FourDigitKeyOrder(a: int, b: int)
    requires FourDigitYear(a) && FourDigitYear(b)
    ensures Before(WeekKey(a), WeekKey(b)) <==> Monday(a) < Monday(b)
  {
    FourDigits(IsoYear(a));
    FourDigits(IsoYear(b));
    KeyOrderIsTimeOrder(a, b);
  }

  // ---- Years with different numbers of digits ----

  /** The number without its last k digits. */
  function DropDigits(n: nat, k: nat): nat {
    if k == 0 then n else DropDigits(n / 10, k - 1)
  }

  function Pow10(k: nat): nat { if k == 0 then 1 else 10 * Pow10(k - 1) }

  lemma TenTimes(n: nat, q: nat, p: nat)
    requires p * q <= n / 10 < p * q + p
    ensures 10 * p * q <= n < 10 * p * q + 10 * p
  {
    assert 10 * p * q == 10 * (p * q);
  }

  /** Dropping k digits is dividing by the k-th power of ten, rounding down. */
  lemma {:induction false} DroppingDivides(n: nat, k: nat)
    ensures Pow10(k) * DropDigits(n, k) <= n < Pow10(k) * DropDigits(n, k) + Pow10(k)
  {
    if k > 0 {
      DroppingDivides(n / 10, k - 1);
      TenTimes(n, DropDigits(n, k), Pow10(k - 1));
    }
  }

  lemma {:induction false} LeadingDigits(n: nat, k: nat)
    requires k < |Decimal(n)|
    ensures Decimal(n)[..|Decimal(n)| - k] == Decimal(DropDigits(n, k))
  {
    if k > 0 {
      var rest := Decimal(n / 10);
      LeadingDigits(n / 10, k - 1);
      assert Decimal(n)[..|Decimal(n)| - k] == rest[..|rest| - (k - 1)];
    }
  }

  lemma {:induction false} DigitsOnly(n: nat, i: nat)
    requires i < |Decimal(n)|
    ensures '0' <= Decimal(n)[i] <= '9'
  {
    if n >= 10 && i < |Decimal(n)| - 1 { DigitsOnly(n / 10, i); }
  }

  lemma {:induction false} MoreDigitsIsMore(a: nat, b: nat)
    requires |Decimal(a)| < |Decimal(b)|
    ensures a < b
  {
    if a >= 10 && b >= 10 { MoreDigitsIsMore(a / 10, b / 10); }
  }

  /** A string of digits and a dash sorts before every longer number with as great a beginning, and no other. */
  lemma DashAgainstDigit(x: nat, z: nat, tail: string, rest: string)
    requires |Decimal(x)| == |Decimal(z)| && tail != [] && rest != [] && tail[0] == '-' && '0' <= rest[0]
    ensures Before(Decimal(x) + tail, Decimal(z) + rest) <==> x <= z
  {
    if x == z {
      BeforeSkipsCommonPrefix(Decimal(z), tail, rest);
    } else if x < z {
      DecimalsAscend(x, z);
      BeforeDecidedEarly(Decimal(x), Decimal(z), tail, rest);
    } else {
      DecimalsAscend(z, x);
      BeforeDecidedEarly(Decimal(z), Decimal(x), rest, tail);
      NotBothBefore(Decimal(z) + rest, Decimal(x) + tail);
    }
  }

  lemma NotBothBefore(a: string, b: string)
    requires Before(a, b)
    ensures !Before(b, a)
  {
    if Before(b, a) {
      BeforeIsTransitive(a, b, a);
      BeforeIsIrreflexive(a);
    }
  }

  lemma ShorterYearSortsFirstIff(x: nat, y: nat, n: nat, k: nat, tail: string, tail': string)
    requires n == |Decimal(x)| && |Decimal(y)| == n + k && k > 0 && tail != [] && tail[0] == '-'
    ensures Before(Decimal(x) + tail, Decimal(y) + tail') <==> x <= DropDigits(y, k)
  {
    DecimalReadsBack(x);
    var z, rest := YearInTwo(y, n, k, tail');
    DashAgainstDigit(x, z, tail, rest);
  }

  lemma YearInTwo(y: nat, n: nat, k: nat, tail: string) returns (z: nat, rest: string)
    requires |Decimal(y)| == n + k && n > 0 && k > 0
    ensures z == DropDigits(y, k) && |Decimal(z)| == n
    ensures Decimal(y) + tail == Decimal(z) + rest && rest != [] && '0' <= rest[0]
  {
    var digits := Decimal(y);
    z, rest := DropDigits(y, k), digits[n..] + tail;
    LeadingDigits(y, k);
    DigitsOnly(y, n);
    SplitAt(digits, tail, n);
  }

  lemma SplitAt(s: string, tail: string, n: nat)
    requires n < |s|
    ensures s + tail == s[..n] + (s[n..] + tail) && (s[n..] + tail)[0] == s[n]
  {}

  lemma KeyOfYear(day: int, y: nat) returns (tail: string)
    requires IsoYear(day) == y
    ensures WeekKey(day) == Decimal(y) + tail && tail != [] && tail[0] == '-'
  {
    KeyShape(day);
    tail := Tail(WeekNumber(day));
  }

  lemma FewerDigitsIsEarlier(a: int, b: int, x: nat, y: nat)
    requires IsoYear(a) == x && IsoYear(b) == y && |Decimal(x)| < |Decimal(y)|
    ensures Monday(a) < Monday(b)
  {
    MoreDigitsIsMore(x, y);
    EarlierYearIsEarlier(a, b);
  }

  lemma KeysAcrossDigits(p: string, q: string, x: nat, y: nat, k: nat, tail: string, tail': string)
    requires p == Decimal(x) + tail && q == Decimal(y) + tail' && |Decimal(y)| == |Decimal(x)| + k && k > 0
    requires tail != [] && tail[0] == '-'
    ensures Before(p, q) <==> x <= DropDigits(y, k)
  {
    ShorterYearSortsFirstIff(x, y, |Decimal(x)|, k, tail, tail');
  }

  /**
   A year with k digits fewer is earlier; its keys sort first exactly if it is at most the other year without its
   last k digits.
   */
  lemma KeyOrderAcrossDigits(a: int, b: int, x: nat, y: nat, k: nat)
    requires IsoYear(a) == x && IsoYear(b) == y && |Decimal(y)| == |Decimal(x)| + k && k > 0
    ensures Monday(a) < Monday(b)
    ensures Before(WeekKey(a), WeekKey(b)) <==> x <= DropDigits(y, k)
  {
    FewerDigitsIsEarlier(a, b, x, y);
    var tail := KeyOfYear(a, x);
    var tail' := KeyOfYear(b, y);
    KeysAcrossDigits(WeekKey(a), WeekKey(b), x, y, k, tail, tail');
  }

  /** Before the year 10000 only the keys of the year 1000 sort as they should. */
  lemma KeysBeforeYear10000(a: int, b: int, x: nat)
    requires IsoYear(a) == x && 1000 <= x <= 9999 && IsoYear(b) == 10000
    ensures Monday(a) < Monday(b) && (Before(WeekKey(a), WeekKey(b)) <==> x == 1000)
  {
    FourDigits(x);
    FourDigits(1000);
    assert Decimal(10000) == Decimal(1000) + [Digit(0)];
    assert DropDigits(10000, 1) == DropDigits(1000, 0);
    KeyOrderAcrossDigits(a, b, x, 10000, 1);
  }
}
