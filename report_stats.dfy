/** `generateStats`: the figures of `stats.json` computed from the reports
    of the index — the number of reports, the streak of days written up to
    today, the reports of this year and this month, the words written and
    their average, tallies per month and per year, and the first and last
    dates. The clock is a parameter. */
module ReportStats {

  import opened Wrappers
  import opened Strings
  import opened Dates
  import opened ReportScan

  // ---------------------------------------------------------------------
  // The order of `Array.prototype.sort()` on strings

  /** `a` sorts before `b`: lexicographic on characters, a proper prefix
      first. */
  predicate Less(a: string, b: string)
    decreases |a|
  {
    |b| > 0 && (|a| == 0 || a[0] < b[0] || (a[0] == b[0] && Less(a[1..], b[1..])))
  }

  lemma {:induction false} LessIrreflexive(a: string)
    ensures !Less(a, a)
    decreases |a|
  {
    if |a| > 0 {
      LessIrreflexive(a[1..]);
    }
  }

  lemma {:induction false} LessAsymmetric(a: string, b: string)
    requires Less(a, b)
    ensures !Less(b, a)
    decreases |a|
  {
    if |a| > 0 && a[0] == b[0] {
      LessAsymmetric(a[1..], b[1..]);
    }
  }

  lemma {:induction false} LessTransitive(a: string, b: string, c: string)
    requires Less(a, b) && Less(b, c)
    ensures Less(a, c)
    decreases |a|
  {
    if |a| > 0 && a[0] == b[0] && b[0] == c[0] {
      LessTransitive(a[1..], b[1..], c[1..]);
    }
  }

  lemma {:induction false} LessTotal(a: string, b: string)
    requires a != b
    ensures Less(a, b) || Less(b, a)
    decreases |a|
  {
    if |a| > 0 && |b| > 0 && a[0] == b[0] {
      assert a == [a[0]] + a[1..] && b == [b[0]] + b[1..];
      LessTotal(a[1..], b[1..]);
    }
  }

  /** Strictly descending: what `.sort().reverse()` gives on distinct
      strings. */
  predicate StrictDesc(s: seq<string>) {
    forall i, j :: 0 <= i < j < |s| ==> Less(s[j], s[i])
  }

  /** A string above the head of a descending sequence can go in front. */
  lemma AboveHead(x: string, s: seq<string>)
    requires StrictDesc(s) && |s| > 0 && Less(s[0], x)
    ensures StrictDesc([x] + s)
  {
    forall j | 1 <= j < |s| ensures Less(s[j], x) {
      LessTransitive(s[j], s[0], x);
    }
  }

  /** `x` placed into a strictly descending sequence, unless it is there. */
  function InsertDesc(x: string, s: seq<string>): (r: seq<string>)
    requires StrictDesc(s)
    ensures StrictDesc(r)
    ensures forall y :: y in r <==> y == x || y in s
    ensures |r| <= |s| + 1
    decreases |s|
  {
    if |s| == 0 then [x]
    else if x == s[0] then s
    else if Less(s[0], x) then
      AboveHead(x, s);
      [x] + s
    else
      LessTotal(x, s[0]);
      var rest := InsertDesc(x, s[1..]);
      assert forall y :: y in rest ==> Less(y, s[0]) by {
        forall y | y in rest ensures Less(y, s[0]) {
          if y != x {
            var j :| 0 <= j < |s[1..]| && s[1..][j] == y;
            assert s[j + 1] == y;
          }
        }
      }
      assert s == [s[0]] + s[1..];
      [s[0]] + rest
  }

  /** `[...new Set(dates)].sort().reverse()`: each date once, latest first. */
  function SortedDates(dates: seq<string>): (r: seq<string>)
    ensures StrictDesc(r)
    ensures forall y :: y in r <==> y in dates
    ensures |r| <= |dates|
  {
    if |dates| == 0 then []
    else
      var init := dates[..|dates| - 1];
      assert dates == init + [dates[|dates| - 1]];
      InsertDesc(dates[|dates| - 1], SortedDates(init))
  }

  /** A strictly descending sequence is fixed by its elements: whatever way
      the distinct dates are collected, the sorted list is the same. */
  lemma {:induction false} StrictDescUnique(a: seq<string>, b: seq<string>)
    requires StrictDesc(a) && StrictDesc(b)
    requires forall y :: y in a <==> y in b
    ensures a == b
    decreases |a|
  {
    if |a| > 0 {
      assert a[0] in b;
    }
    if |b| > 0 {
      assert b[0] in a;
    }
    if |a| > 0 && |b| > 0 {
      if a[0] != b[0] {
        assert a[0] in a && b[0] in b;
        var i :| 0 <= i < |b| && b[i] == a[0];
        var j :| 0 <= j < |a| && a[j] == b[0];
        assert i > 0 && j > 0;
        assert Less(a[0], b[0]) && Less(b[0], a[0]);
        LessAsymmetric(a[0], b[0]);
        assert false;
      }
      forall y ensures y in a[1..] <==> y in b[1..] {
        if y in a[1..] {
          var k :| 0 <= k < |a[1..]| && a[1..][k] == y;
          assert Less(a[k + 1], a[0]);
          LessIrreflexive(y);
          assert y != b[0];
          assert y in b;
        }
        if y in b[1..] {
          var k :| 0 <= k < |b[1..]| && b[1..][k] == y;
          assert Less(b[k + 1], b[0]);
          LessIrreflexive(y);
          assert y != a[0];
          assert y in a;
        }
      }
      StrictDescUnique(a[1..], b[1..]);
      assert a == [a[0]] + a[1..] && b == [b[0]] + b[1..];
    }
  }

  /** The head of the sorted dates is the latest date and the last one the
      earliest. */
  lemma SortedDatesEnds(dates: seq<string>)
    requires |dates| > 0
    ensures |SortedDates(dates)| > 0
    ensures SortedDates(dates)[0] in dates
    ensures SortedDates(dates)[|SortedDates(dates)| - 1] in dates
    ensures forall d :: d in dates && d != SortedDates(dates)[0] ==> Less(d, SortedDates(dates)[0])
    ensures forall d :: d in dates && d != SortedDates(dates)[|SortedDates(dates)| - 1] ==>
      Less(SortedDates(dates)[|SortedDates(dates)| - 1], d)
  {
    var s := SortedDates(dates);
    assert dates[0] in s;
    forall d | d in dates && d != s[0] ensures Less(d, s[0]) {
      var k :| 0 <= k < |s| && s[k] == d;
    }
    forall d | d in dates && d != s[|s| - 1] ensures Less(s[|s| - 1], d) {
      var k :| 0 <= k < |s| && s[k] == d;
    }
  }

  // ---------------------------------------------------------------------
  // The streak

  /** The loop over the sorted dates from `check`: a date on the checked
      day, or one day before it, adds one and moves the checked day to the
      day before that date; anything else, an invalid date included,
      stops. */
  function StreakFrom(dates: seq<string>, check: int): (n: nat)
    ensures n <= |dates|
  {
    if |dates| == 0 then 0
    else match DateValue(dates[0])
      case None => 0
      case Some(d) =>
        if check - d == 0 || check - d == 1 then 1 + StreakFrom(dates[1..], d - 1) else 0
  }

  /** The streak of `generateStats` for the sorted dates and today's day
      number: 0 when the latest report is more than one day old, otherwise
      the loop from the latest date. An invalid latest date stops the loop at
      once. */
  function Streak(sorted: seq<string>, today: int): nat {
    if |sorted| == 0 then 0
    else match DateValue(sorted[0])
      case None => 0
      case Some(latest) =>
        if latest < today && today - latest > 1 then 0 else StreakFrom(sorted, latest)
  }

  /** The loop of `generateStats` from the checked day `start`; an invalid
      start compares false with every date and stops at once. */
  method WalkStreak(sorted: seq<string>, start: Option<int>) returns (streak: nat)
    ensures streak == if start.None? then 0 else StreakFrom(sorted, start.value)
  {
    streak := 0;
    if start.None? {
      return;
    }
    var checkDate := start.value;
    var i := 0;
    while i < |sorted|
      invariant 0 <= i <= |sorted| && streak == i
      invariant streak + StreakFrom(sorted[i..], checkDate) == StreakFrom(sorted, start.value)
    {
      assert sorted[i..][1..] == sorted[i + 1..];
      var date := DateValue(sorted[i]);
      if date.None? {
        break;
      }
      var diff := checkDate - date.value;
      if diff == 0 {
        streak := streak + 1;
        checkDate := date.value - 1;
      } else if diff == 1 {
        streak := streak + 1;
        checkDate := date.value - 1;
      } else {
        break;
      }
      i := i + 1;
    }
  }

  /** The streak computation of `generateStats`. */
  method ComputeStreak(sorted: seq<string>, today: int) returns (streak: nat)
    ensures streak == Streak(sorted, today)
  {
    var checkDate := if |sorted| == 0 then None else DateValue(sorted[0]);
    if checkDate.Some? && checkDate.value < today {
      var diffDays := today - checkDate.value;
      if diffDays > 1 {
        streak := 0;
      } else {
        streak := WalkStreak(sorted, checkDate);
      }
    } else {
      streak := WalkStreak(sorted, checkDate);
    }
  }

  /** Two dates of the sorted list are linked when both are valid and the
      later is one or two days after the earlier. */
  predicate Linked(dates: seq<string>, i: nat)
    requires i + 1 < |dates|
  {
    DateValue(dates[i]).Some? && DateValue(dates[i + 1]).Some?
    && 1 <= DateValue(dates[i]).value - DateValue(dates[i + 1]).value <= 2
  }

  /** A run of linked dates counts in full: consecutive days, and also days
      with one day missing between them. */
  lemma {:induction false} StreakCountsRun(dates: seq<string>, check: int)
    requires |dates| > 0 && DateValue(dates[0]).Some?
    requires 0 <= check - DateValue(dates[0]).value <= 1
    requires forall i :: 0 <= i < |dates| - 1 ==> Linked(dates, i)
    ensures StreakFrom(dates, check) == |dates|
    decreases |dates|
  {
    if |dates| > 1 {
      assert Linked(dates, 0);
      forall i | 0 <= i < |dates[1..]| - 1 ensures Linked(dates[1..], i) {
        assert Linked(dates, i + 1);
      }
      StreakCountsRun(dates[1..], DateValue(dates[0]).value - 1);
    }
  }

  /** The count stops at the first link that breaks: two days or more
      missing, or an invalid date. */
  lemma {:induction false} StreakStopsAtBreak(dates: seq<string>, check: int, k: nat)
    requires k + 1 < |dates| && !Linked(dates, k)
    ensures StreakFrom(dates, check) <= k + 1
    decreases k
  {
    if k > 0 && DateValue(dates[0]).Some? {
      var d := DateValue(dates[0]).value;
      assert dates[1..][k - 1] == dates[k] && dates[1..][k] == dates[k + 1];
      assert !Linked(dates[1..], k - 1);
      StreakStopsAtBreak(dates[1..], d - 1, k - 1);
    } else if k == 0 && DateValue(dates[0]).Some? {
      var d := DateValue(dates[0]).value;
      assert StreakFrom(dates[1..], d - 1) == 0 by {
        assert dates[1..][0] == dates[1];
      }
    }
  }

  /** A latest report more than a day before today gives no streak; one
      written today or yesterday gives at least one. */
  lemma StreakFromLatest(sorted: seq<string>, today: int)
    requires |sorted| > 0 && DateValue(sorted[0]).Some?
    ensures DateValue(sorted[0]).value < today - 1 ==> Streak(sorted, today) == 0
    ensures DateValue(sorted[0]).value >= today - 1 ==> Streak(sorted, today) >= 1
  {
  }

  // ---------------------------------------------------------------------
  // Tallies

  /** The key of `byMonth`. */
  function MonthKey(r: Report): string {
    r.year + "-" + r.month
  }

  /** The key of `byYear`. */
  function YearKey(r: Report): string {
    r.year
  }

  /** `reports.forEach(r => tally[key(r)] = (tally[key(r)] || 0) + 1)`. */
  function TallyBy(rs: seq<Report>, key: Report -> string): map<string, nat> {
    if |rs| == 0 then map[]
    else
      var m := TallyBy(rs[..|rs| - 1], key);
      var k := key(rs[|rs| - 1]);
      m[k := (if k in m then m[k] else 0) + 1]
  }

  /** The number of reports whose key is `k`. */
  function CountKey(rs: seq<Report>, key: Report -> string, k: string): (n: nat)
    ensures n <= |rs|
  {
    if |rs| == 0 then 0
    else CountKey(rs[..|rs| - 1], key, k) + (if key(rs[|rs| - 1]) == k then 1 else 0)
  }

  /** The tally holds exactly the keys of the reports, each with the number
      of reports that have it. */
  lemma {:induction false} TallyCounts(rs: seq<Report>, key: Report -> string, k: string)
    ensures k in TallyBy(rs, key) <==> CountKey(rs, key, k) > 0
    ensures k in TallyBy(rs, key) ==> TallyBy(rs, key)[k] == CountKey(rs, key, k)
  {
    if |rs| > 0 {
      TallyCounts(rs[..|rs| - 1], key, k);
    }
  }

  /** Some key of a non-empty map. */
  ghost function PickKey(m: map<string, nat>): (k: string)
    requires |m| > 0
    ensures k in m
  {
    assert |m.Keys| > 0;
    var k :| k in m.Keys; k
  }

  lemma SmallerMap(m: map<string, nat>, k: string)
    requires k in m
    ensures |m - {k}| < |m|
  {
    assert (m - {k}).Keys < m.Keys;
  }

  /** The sum of the values of a map. */
  ghost function MapSum(m: map<string, nat>): nat
    decreases |m|
  {
    if |m| == 0 then 0
    else
      var k := PickKey(m);
      SmallerMap(m, k);
      m[k] + MapSum(m - {k})
  }

  lemma {:induction false} MapSumRemove(m: map<string, nat>, k: string)
    requires k in m
    ensures MapSum(m) == m[k] + MapSum(m - {k})
    decreases |m|
  {
    var j := PickKey(m);
    if j != k {
      SmallerMap(m, j);
      SmallerMap(m, k);
      MapSumRemove(m - {j}, k);
      MapSumRemove(m - {k}, j);
      assert m - {j} - {k} == m - {k} - {j};
    }
  }

  lemma MapSumUpdate(m: map<string, nat>, k: string, v: nat)
    ensures MapSum(m[k := v]) == MapSum(m) - (if k in m then m[k] else 0) + v
  {
    MapSumRemove(m[k := v], k);
    assert m[k := v] - {k} == m - {k};
    if k in m {
      MapSumRemove(m, k);
    } else {
      assert m - {k} == m;
    }
  }

  /** The counts of a tally add up to the number of reports. */
  lemma {:induction false} TallySum(rs: seq<Report>, key: Report -> string)
    ensures MapSum(TallyBy(rs, key)) == |rs|
  {
    if |rs| > 0 {
      var m := TallyBy(rs[..|rs| - 1], key);
      var k := key(rs[|rs| - 1]);
      TallySum(rs[..|rs| - 1], key);
      MapSumUpdate(m, k, (if k in m then m[k] else 0) + 1);
    }
  }

  /** The reports of year `y`: `r.year === y`. */
  function CountYear(rs: seq<Report>, y: string): nat {
    CountKey(rs, YearKey, y)
  }

  /** The reports of month `m` of year `y`: `r.year === y && r.month === m`. */
  function CountMonth(rs: seq<Report>, y: string, m: string): (n: nat)
    ensures n <= |rs|
  {
    if |rs| == 0 then 0
    else CountMonth(rs[..|rs| - 1], y, m) + (if rs[|rs| - 1].year == y && rs[|rs| - 1].month == m then 1 else 0)
  }

  /** A month's reports are among its year's. */
  lemma {:induction false} MonthWithinYear(rs: seq<Report>, y: string, m: string)
    ensures CountMonth(rs, y, m) <= CountYear(rs, y)
  {
    if |rs| > 0 {
      MonthWithinYear(rs[..|rs| - 1], y, m);
    }
  }

  function TotalWords(rs: seq<Report>): nat {
    if |rs| == 0 then 0 else TotalWords(rs[..|rs| - 1]) + rs[|rs| - 1].wordCount
  }

  /** `Math.round(total / n)`: the nearest integer, halves rounded up. */
  function RoundDiv(total: nat, n: nat): (r: nat)
    requires n > 0
    ensures 2 * total - n < 2 * n * r <= 2 * total + n
  {
    (2 * total + n) / (2 * n)
  }

  // ---------------------------------------------------------------------
  // The statistics

  /** The local calendar date of `new Date()`. */
  datatype Clock = Clock(year: nat, month: nat, day: nat) {
    predicate Valid() {
      1 <= month <= 12 && 1 <= day <= DaysIn(year, month)
    }
  }

  /** Today's local midnight, as a day number. */
  function Today(now: Clock): int
    requires now.Valid()
  {
    DayNumber(now.year, now.month, now.day)
  }

  /** `stats.json`. `firstDate` and `lastDate` are absent for no reports. */
  datatype Stats = Stats(
    total: nat,
    streak: nat,
    thisYear: nat,
    thisMonth: nat,
    totalWords: nat,
    avgWords: nat,
    byMonth: map<string, nat>,
    byYear: map<string, nat>,
    firstDate: Option<string>,
    lastDate: Option<string>)

  const NoStats := Stats(0, 0, 0, 0, 0, 0, map[], map[], None, None)

  function DatesOf(rs: seq<Report>): (ds: seq<string>)
    ensures |ds| == |rs| && forall i :: 0 <= i < |rs| ==> ds[i] == rs[i].date
  {
    seq(|rs|, i requires 0 <= i < |rs| => rs[i].date)
  }

  /** `generateStats(reports)` at the time `now`. */
  function StatsOf(rs: seq<Report>, now: Clock): Stats
    requires now.Valid()
  {
    if |rs| == 0 then NoStats
    else
      var sorted := SortedDates(DatesOf(rs));
      assert rs[0].date in DatesOf(rs);
      var year := Dec(now.year);
      var total := TotalWords(rs);
      Stats(|rs|, Streak(sorted, Today(now)),
        CountYear(rs, year), CountMonth(rs, year, Pad2(Dec(now.month))),
        total, RoundDiv(total, |rs|),
        TallyBy(rs, MonthKey), TallyBy(rs, YearKey),
        Some(sorted[|sorted| - 1]), Some(sorted[0]))
  }

  /** The `byMonth` and `byYear` loop of `generateStats`. */
  method Tally(reports: seq<Report>) returns (byMonth: map<string, nat>, byYear: map<string, nat>)
    ensures byMonth == TallyBy(reports, MonthKey)
    ensures byYear == TallyBy(reports, YearKey)
  {
    byMonth, byYear := map[], map[];
    for i := 0 to |reports|
      invariant byMonth == TallyBy(reports[..i], MonthKey)
      invariant byYear == TallyBy(reports[..i], YearKey)
    {
      assert reports[..i + 1][..i] == reports[..i];
      var r := reports[i];
      var monthKey := r.year + "-" + r.month;
      byMonth := byMonth[monthKey := (if monthKey in byMonth then byMonth[monthKey] else 0) + 1];
      byYear := byYear[r.year := (if r.year in byYear then byYear[r.year] else 0) + 1];
    }
    assert reports[..|reports|] == reports;
  }

  /** `generateStats`. */
  method GenerateStats(reports: seq<Report>, now: Clock) returns (stats: Stats)
    requires now.Valid()
    ensures stats == StatsOf(reports, now)
  {
    if |reports| == 0 {
      return NoStats;
    }
    var thisYear := Dec(now.year);
    var thisMonth := Pad2(Dec(now.month));
    var sortedDates := SortedDates(DatesOf(reports));
    assert reports[0].date in DatesOf(reports);
    var streak := ComputeStreak(sortedDates, Today(now));
    var byMonth, byYear := Tally(reports);
    var totalWords := TotalWords(reports);
    stats := Stats(|reports|, streak,
      CountYear(reports, thisYear), CountMonth(reports, thisYear, thisMonth),
      totalWords, RoundDiv(totalWords, |reports|),
      byMonth, byYear,
      Some(sortedDates[|sortedDates| - 1]), Some(sortedDates[0]));
  }

  /** What the figures of a non-empty index promise: this month's reports
      are among this year's, which are among all; the month and year
      tallies add up to the total; this year's count is its tally; the
      streak counts distinct days; the first and last dates are the
      earliest and the latest of the reports' dates. */
  lemma StatsFigures(rs: seq<Report>, now: Clock)
    requires now.Valid() && |rs| > 0
    ensures var s := StatsOf(rs, now);
      s.thisMonth <= s.thisYear <= s.total == |rs|
      && MapSum(s.byMonth) == s.total && MapSum(s.byYear) == s.total
      && s.thisYear == (if Dec(now.year) in s.byYear then s.byYear[Dec(now.year)] else 0)
      && s.streak <= |SortedDates(DatesOf(rs))| <= s.total
      && s.firstDate.Some? && s.lastDate.Some?
      && s.firstDate.value in DatesOf(rs) && s.lastDate.value in DatesOf(rs)
      && (forall d :: d in DatesOf(rs) ==> d == s.lastDate.value || Less(d, s.lastDate.value))
      && (forall d :: d in DatesOf(rs) ==> d == s.firstDate.value || Less(s.firstDate.value, d))
  {
    var year := Dec(now.year);
    MonthWithinYear(rs, year, Pad2(Dec(now.month)));
    TallySum(rs, MonthKey);
    TallySum(rs, YearKey);
    TallyCounts(rs, YearKey, year);
    SortedDatesEnds(DatesOf(rs));
  }
}
