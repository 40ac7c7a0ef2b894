/** monitoring/cal.py, second half: the message rules. Every rule looks at the
    table relative to its most recent event (the "current" date), totals or
    counts the rows of some period and compares with a reference period. */
module CalRules {
  import opened Wrappers
  import opened Seqs
  import Text
  import Stats
  import Dates
  import opened Utils
  import opened CalTable

  // ----- the most recent event -----

  /** `df["date"].max()` */
  function CurrentDate(t: Table): (d: int)
    requires |t| > 0
    ensures forall i :: 0 <= i < |t| ==> t[i].date <= d
    ensures exists i :: 0 <= i < |t| && t[i].date == d
  {
    if |t| == 1 then t[0].date
    else
      var rest := CurrentDate(t[1..]);
      var i :| 0 <= i < |t[1..]| && t[1..][i].date == rest;
      assert t[i + 1].date == rest;
      if t[0].date >= rest then t[0].date else rest
  }

  /** The first row holding the most recent timestamp: the row `.iloc[0]` picks. */
  function LastEventIndex(t: Table): (k: nat)
    requires |t| > 0
    ensures k < |t| && t[k].date == CurrentDate(t)
    ensures forall j :: 0 <= j < k ==> t[j].date != CurrentDate(t)
  {
    var stamps := seq(|t|, i requires 0 <= i < |t| => t[i].date);
    var i :| 0 <= i < |t| && t[i].date == CurrentDate(t);
    assert stamps[i] == CurrentDate(t);
    var k := FirstIndex(stamps, CurrentDate(t));
    assert forall j :: 0 <= j < k ==> stamps[j] == t[j].date;
    k
  }

  function CurrentYear(t: Table): int
    requires |t| > 0
  {
    t[LastEventIndex(t)].year
  }

  function CurrentMonth(t: Table): int
    requires |t| > 0
  {
    t[LastEventIndex(t)].month
  }

  function CurrentWeek(t: Table): int
    requires |t| > 0
  {
    t[LastEventIndex(t)].week
  }

  /** `_previous_month`: the current month minus one, 0 in January. */
  function PreviousMonth(t: Table): (m: int)
    requires |t| > 0
    ensures TableConsistent(t) ==> 0 <= m <= 11
    ensures m + 1 == CurrentMonth(t)
  {
    CurrentMonth(t) - 1
  }

  /** Rows with the same timestamp have the same calendar columns, as they do in
      any table get_dataframe builds (CalendarFromTimestamp). */
  predicate CalendarAgrees(t: Table) {
    forall i, j :: 0 <= i < |t| && 0 <= j < |t| && t[i].date == t[j].date ==>
      t[i].year == t[j].year && t[i].month == t[j].month && t[i].week == t[j].week
  }

  /** The day ordinal names one date, so consistent rows agree on the calendar. */
  lemma CalendarFromTimestamp(t: Table)
    requires TableConsistent(t)
    ensures CalendarAgrees(t)
  {
    forall i, j | 0 <= i < |t| && 0 <= j < |t| && t[i].date == t[j].date
      ensures t[i].year == t[j].year && t[i].month == t[j].month && t[i].week == t[j].week
    {
      assert RowConsistent(t[i]) && RowConsistent(t[j]);
      Dates.OrdinalInjective(t[i].year, t[i].month, t[i].day, t[j].year, t[j].month, t[j].day);
    }
  }

  /** All rows holding the most recent timestamp lie in the current year, month and week. */
  lemma AnchorDay(t: Table, i: int)
    requires |t| > 0 && CalendarAgrees(t) && 0 <= i < |t| && t[i].date == CurrentDate(t)
    ensures t[i].year == CurrentYear(t) && t[i].month == CurrentMonth(t) && t[i].week == CurrentWeek(t)
  {
    var k := LastEventIndex(t);
    assert t[i].date == t[k].date;
  }

  // ----- totals -----

  /** A row's distance, a missing one counting as zero as in pandas' `sum`. */
  function DistanceOf(row: Row): real {
    if row.distance.Some? then row.distance.value else 0.0
  }

  /** `["distance"].sum()` */
  function DistanceSum(rows: Table): real {
    if rows == [] then 0.0 else DistanceOf(rows[0]) + DistanceSum(rows[1..])
  }

  predicate NonNegativeDistances(rows: Table) {
    forall i :: 0 <= i < |rows| ==> DistanceOf(rows[i]) >= 0.0
  }

  lemma {:induction false} DistanceSumNonNegative(rows: Table)
    requires NonNegativeDistances(rows)
    ensures DistanceSum(rows) >= 0.0
    decreases |rows|
  {
    if rows != [] {
      DistanceSumNonNegative(rows[1..]);
    }
  }

  /** A selection that falls apart into two disjoint selections: its total and its
      count are the sums of theirs. */
  lemma {:induction false} SplitTotals(rows: Table, p: Row -> bool, q1: Row -> bool, q2: Row -> bool)
    requires forall i :: 0 <= i < |rows| ==> (p(rows[i]) <==> q1(rows[i]) || q2(rows[i]))
    requires forall i :: 0 <= i < |rows| ==> !(q1(rows[i]) && q2(rows[i]))
    ensures DistanceSum(Filter(rows, p)) == DistanceSum(Filter(rows, q1)) + DistanceSum(Filter(rows, q2))
    ensures |Filter(rows, p)| == |Filter(rows, q1)| + |Filter(rows, q2)|
    decreases |rows|
  {
    if rows != [] {
      SplitTotals(rows[1..], p, q1, q2);
      var x := rows[0];
      var fp, f1, f2 := Filter(rows[1..], p), Filter(rows[1..], q1), Filter(rows[1..], q2);
      if q1(x) {
        assert ([x] + f1)[1..] == f1;
      } else if q2(x) {
        assert ([x] + f2)[1..] == f2;
      }
      if p(x) {
        assert ([x] + fp)[1..] == fp;
      }
    }
  }

  // ----- selections (boolean masks) -----

  function DateIs(d: int): Row -> bool { (row: Row) => row.date == d }
  function YearIs(y: int): Row -> bool { (row: Row) => row.year == y }
  function YearBefore(y: int, d: int): Row -> bool { (row: Row) => row.year == y && row.date < d }
  function MonthIs(y: int, m: int): Row -> bool { (row: Row) => row.year == y && row.month == m }
  function MonthBefore(y: int, m: int, d: int): Row -> bool { (row: Row) => row.year == y && row.month == m && row.date < d }

  /** `_distance_last_event`: the distance of all rows at the most recent timestamp. */
  function DistanceLastEvent(t: Table): real
    requires |t| > 0
  {
    DistanceSum(Filter(t, DateIs(CurrentDate(t))))
  }

  /** The current year's rows are those before the most recent timestamp plus those at it. */
  lemma YearSplit(t: Table)
    requires |t| > 0
    ensures CalendarAgrees(t) ==>
      var cy, cd := CurrentYear(t), CurrentDate(t);
      DistanceSum(Filter(t, YearIs(cy))) == DistanceSum(Filter(t, YearBefore(cy, cd))) + DistanceLastEvent(t) &&
      |Filter(t, YearIs(cy))| == |Filter(t, YearBefore(cy, cd))| + |Filter(t, DateIs(cd))|
  {
    if CalendarAgrees(t) {
      var cy, cd := CurrentYear(t), CurrentDate(t);
      forall i | 0 <= i < |t|
        ensures YearIs(cy)(t[i]) <==> YearBefore(cy, cd)(t[i]) || DateIs(cd)(t[i])
      {
        if t[i].date == cd {
          AnchorDay(t, i);
        }
      }
      SplitTotals(t, YearIs(cy), YearBefore(cy, cd), DateIs(cd));
    }
  }

  /** The same for the current month. */
  lemma MonthSplit(t: Table)
    requires |t| > 0
    ensures CalendarAgrees(t) ==>
      var cy, cm, cd := CurrentYear(t), CurrentMonth(t), CurrentDate(t);
      DistanceSum(Filter(t, MonthIs(cy, cm))) == DistanceSum(Filter(t, MonthBefore(cy, cm, cd))) + DistanceLastEvent(t) &&
      |Filter(t, MonthIs(cy, cm))| == |Filter(t, MonthBefore(cy, cm, cd))| + |Filter(t, DateIs(cd))|
  {
    if CalendarAgrees(t) {
      var cy, cm, cd := CurrentYear(t), CurrentMonth(t), CurrentDate(t);
      forall i | 0 <= i < |t|
        ensures MonthIs(cy, cm)(t[i]) <==> MonthBefore(cy, cm, cd)(t[i]) || DateIs(cd)(t[i])
      {
        if t[i].date == cd {
          AnchorDay(t, i);
        }
      }
      SplitTotals(t, MonthIs(cy, cm), MonthBefore(cy, cm, cd), DateIs(cd));
    }
  }

  /** At least one row holds the most recent timestamp. */
  lemma LastEventCounted(t: Table)
    requires |t| > 0
    ensures |Filter(t, DateIs(CurrentDate(t)))| >= 1
  {
    var k := LastEventIndex(t);
    assert t[k] in Filter(t, DateIs(CurrentDate(t)));
  }

  // ----- message texts, as the source spells them -----

  function SurpassedYearDistanceText(sport: Sport): string {
    "You just surpassed the " + sport.Value() + " distance of the last year! Mad!"
  }

  function ToppedMonthDistanceText(sport: Sport): string {
    "You just topped the distance of the same month of last year in " + sport.Value() + "!"
  }

  function SurpassedYearFrequencyText(sport: Sport): string {
    "You just suprassed the number of " + sport.Value() + " activities of last year! Sick!"
  }

  function ToppedMonthFrequencyText(sport: Sport): string {
    "You just topped the number of " + sport.Value() + " activities of the same month of last year. Strong."
  }

  function CrossedText(threshold: int, sport: Sport, integral: bool): string {
    "You just croseed " + ThresholdText(threshold, integral) + "km in " + sport.Value() + ". Congrats!"
  }

  // ----- catching up with last year -----

  /** The running value was below the reference before the last event and has reached it since. */
  predicate CaughtUp(before: real, after: real, reference: real) {
    before < reference && after >= reference
  }

  predicate CaughtUpCount(before: int, after: int, reference: int) {
    before < reference && after >= reference
  }

  /** distance_previous_year */
  function DistancePreviousYear(t: Table, sport: Sport): Option<string>
    requires |t| > 0
  {
    var cy, cd := CurrentYear(t), CurrentDate(t);
    var previous := DistanceSum(Filter(t, YearIs(cy - 1)));
    var before := DistanceSum(Filter(t, YearBefore(cy, cd)));
    var after := before + DistanceLastEvent(t);
    if CaughtUp(before, after, previous) then Some(SurpassedYearDistanceText(sport)) else None
  }

  /** distance_previous_year fires exactly when the current year's total, last day
      included, reaches last year's total and the total without the last day did not. */
  lemma DistancePreviousYearFires(t: Table, sport: Sport)
    requires |t| > 0 && CalendarAgrees(t)
    ensures var total := DistanceSum(Filter(t, YearIs(CurrentYear(t))));
      var last := DistanceSum(Filter(t, YearIs(CurrentYear(t) - 1)));
      DistancePreviousYear(t, sport) ==
        if total - DistanceLastEvent(t) < last <= total then Some(SurpassedYearDistanceText(sport)) else None
  {
    YearSplit(t);
  }

  /** distance_previous_years_month */
  function DistancePreviousYearsMonth(t: Table, sport: Sport): Option<string>
    requires |t| > 0
  {
    var cy, cm, cd := CurrentYear(t), CurrentMonth(t), CurrentDate(t);
    var previous := DistanceSum(Filter(t, MonthIs(cy - 1, cm)));
    var before := DistanceSum(Filter(t, MonthBefore(cy, cm, cd)));
    var after := before + DistanceLastEvent(t);
    if CaughtUp(before, after, previous) then Some(ToppedMonthDistanceText(sport)) else None
  }

  /** The same comparison for the current month against the same month of last year. */
  lemma DistancePreviousYearsMonthFires(t: Table, sport: Sport)
    requires |t| > 0 && CalendarAgrees(t)
    ensures var total := DistanceSum(Filter(t, MonthIs(CurrentYear(t), CurrentMonth(t))));
      var last := DistanceSum(Filter(t, MonthIs(CurrentYear(t) - 1, CurrentMonth(t))));
      DistancePreviousYearsMonth(t, sport) ==
        if total - DistanceLastEvent(t) < last <= total then Some(ToppedMonthDistanceText(sport)) else None
  {
    MonthSplit(t);
  }

  /** frequency_previous_year: the last event counts as one, however many rows share its timestamp. */
  function FrequencyPreviousYear(t: Table, sport: Sport): Option<string>
    requires |t| > 0
  {
    var cy, cd := CurrentYear(t), CurrentDate(t);
    var previous := |Filter(t, YearIs(cy - 1))|;
    var before := |Filter(t, YearBefore(cy, cd))|;
    if CaughtUpCount(before, before + 1, previous) then Some(SurpassedYearFrequencyText(sport)) else None
  }

  /** frequency_previous_year fires exactly when last year's count is one more than the
      number of this year's activities before the most recent timestamp; then this
      year's count has reached last year's. */
  lemma FrequencyPreviousYearFires(t: Table, sport: Sport)
    requires |t| > 0
    ensures var previous := |Filter(t, YearIs(CurrentYear(t) - 1))|;
      FrequencyPreviousYear(t, sport) ==
        if previous == |Filter(t, YearBefore(CurrentYear(t), CurrentDate(t)))| + 1
        then Some(SurpassedYearFrequencyText(sport)) else None
    ensures CalendarAgrees(t) && FrequencyPreviousYear(t, sport).Some? ==>
      |Filter(t, YearIs(CurrentYear(t)))| >= |Filter(t, YearIs(CurrentYear(t) - 1))|
  {
    YearSplit(t);
    LastEventCounted(t);
  }

  /** frequency_previous_years_month */
  function FrequencyPreviousYearsMonth(t: Table, sport: Sport): Option<string>
    requires |t| > 0
  {
    var cy, cm, cd := CurrentYear(t), CurrentMonth(t), CurrentDate(t);
    var previous := |Filter(t, MonthIs(cy - 1, cm))|;
    var before := |Filter(t, MonthBefore(cy, cm, cd))|;
    if CaughtUpCount(before, before + 1, previous) then Some(ToppedMonthFrequencyText(sport)) else None
  }

  /** The same for the current month against the same month of last year. */
  lemma FrequencyPreviousYearsMonthFires(t: Table, sport: Sport)
    requires |t| > 0
    ensures var previous := |Filter(t, MonthIs(CurrentYear(t) - 1, CurrentMonth(t)))|;
      FrequencyPreviousYearsMonth(t, sport) ==
        if previous == |Filter(t, MonthBefore(CurrentYear(t), CurrentMonth(t), CurrentDate(t)))| + 1
        then Some(ToppedMonthFrequencyText(sport)) else None
    ensures CalendarAgrees(t) && FrequencyPreviousYearsMonth(t, sport).Some? ==>
      |Filter(t, MonthIs(CurrentYear(t), CurrentMonth(t)))| >= |Filter(t, MonthIs(CurrentYear(t) - 1, CurrentMonth(t)))|
  {
    MonthSplit(t);
    LastEventCounted(t);
  }

  /** With nothing recorded last year, neither yearly catching-up rule fires (for the
      distance rule, as long as no distance is negative). */
  lemma NoPreviousYearNoCatchUp(t: Table, sport: Sport)
    requires |t| > 0 && NonNegativeDistances(t)
    requires forall i :: 0 <= i < |t| ==> t[i].year != CurrentYear(t) - 1
    ensures DistancePreviousYear(t, sport).None?
    ensures FrequencyPreviousYear(t, sport).None?
  {
    NoPreviousYear(t);
    NonNegativeSelection(t, YearBefore(CurrentYear(t), CurrentDate(t)));
  }

  /** A previous year whose distances add up to zero (rows without a distance count as
      zero) is never caught up with, as long as no distance is negative. */
  lemma ZeroPreviousYearNoCatchUp(t: Table, sport: Sport)
    requires |t| > 0 && NonNegativeDistances(t)
    requires DistanceSum(Filter(t, YearIs(CurrentYear(t) - 1))) == 0.0
    ensures DistancePreviousYear(t, sport).None?
  {
    NonNegativeSelection(t, YearBefore(CurrentYear(t), CurrentDate(t)));
  }

  lemma NoPreviousYear(t: Table)
    requires |t| > 0
    requires forall i :: 0 <= i < |t| ==> t[i].year != CurrentYear(t) - 1
    ensures Filter(t, YearIs(CurrentYear(t) - 1)) == []
  {
    var p := YearIs(CurrentYear(t) - 1);
    forall i | 0 <= i < |t| ensures !p(t[i]) {
      assert t[i].year != CurrentYear(t) - 1;
    }
    FilterNone(t, p);
  }

  /** With nothing recorded in the same month of last year, neither monthly catching-up rule fires. */
  lemma NoPreviousMonthNoCatchUp(t: Table, sport: Sport)
    requires |t| > 0 && NonNegativeDistances(t)
    requires forall i :: 0 <= i < |t| ==> !(t[i].year == CurrentYear(t) - 1 && t[i].month == CurrentMonth(t))
    ensures DistancePreviousYearsMonth(t, sport).None?
    ensures FrequencyPreviousYearsMonth(t, sport).None?
  {
    NoPreviousMonth(t);
    NonNegativeSelection(t, MonthBefore(CurrentYear(t), CurrentMonth(t), CurrentDate(t)));
  }

  /** The same for the same month of last year. */
  lemma ZeroPreviousMonthNoCatchUp(t: Table, sport: Sport)
    requires |t| > 0 && NonNegativeDistances(t)
    requires DistanceSum(Filter(t, MonthIs(CurrentYear(t) - 1, CurrentMonth(t)))) == 0.0
    ensures DistancePreviousYearsMonth(t, sport).None?
  {
    NonNegativeSelection(t, MonthBefore(CurrentYear(t), CurrentMonth(t), CurrentDate(t)));
  }

  lemma NoPreviousMonth(t: Table)
    requires |t| > 0
    requires forall i :: 0 <= i < |t| ==> !(t[i].year == CurrentYear(t) - 1 && t[i].month == CurrentMonth(t))
    ensures Filter(t, MonthIs(CurrentYear(t) - 1, CurrentMonth(t))) == []
  {
    var p := MonthIs(CurrentYear(t) - 1, CurrentMonth(t));
    forall i | 0 <= i < |t| ensures !p(t[i]) {
      assert !(t[i].year == CurrentYear(t) - 1 && t[i].month == CurrentMonth(t));
    }
    FilterNone(t, p);
  }

  lemma NonNegativeSelection(t: Table, p: Row -> bool)
    requires NonNegativeDistances(t)
    ensures NonNegativeDistances(Filter(t, p))
    ensures DistanceSum(Filter(t, p)) >= 0.0
  {
    var f := Filter(t, p);
    forall i | 0 <= i < |f| ensures DistanceOf(f[i]) >= 0.0 {
      assert f[i] in t;
    }
    DistanceSumNonNegative(f);
  }

  // ----- milestones -----

  /** `k * interval` lies in the half-open range (before, after]. */
  predicate MultipleCrossed(before: real, after: real, interval: int, k: int) {
    before < k as real * interval as real <= after
  }

  /** How the f-string prints the threshold: as an integer ("100") when the distance
      column is int64, as a float ("100.0") when it is float64. Either text reads back
      as the threshold, and as a whole number exactly for the integer column. */
  function ThresholdText(n: int, integral: bool): (r: string)
    ensures Text.ParseDecimal(r) == Some(n as real)
    ensures Text.IsIntegerText(r) <==> integral
  {
    if integral then
      Text.IntToStringParses(n);
      Text.IntToString(n)
    else
      Text.FloatStringParses(n);
      Text.IntToString(n) + ".0"
  }

  /** distance_mod_interval */
  function DistanceModInterval(t: Table, sport: Sport, interval: int): Option<string>
    requires |t| > 0 && interval > 0
  {
    var before := DistanceSum(Filter(t, YearBefore(CurrentYear(t), CurrentDate(t))));
    Milestone(before, before + DistanceLastEvent(t), interval, sport, IntegerColumn(t))
  }

  /** The comparison distance_mod_interval makes between the year's distance before
      and after the last event. */
  function Milestone(before: real, after: real, interval: int, sport: Sport, integral: bool): Option<string>
    requires interval > 0
  {
    var k := (after / interval as real).Floor;
    if k as real * interval as real > before then Some(CrossedText(k * interval, sport, integral)) else None
  }

  /** The milestone message appears exactly when the running distance passed a multiple
      of `interval`, and names the largest multiple reached, printed as the column's
      dtype prints it. */
  lemma MilestoneFires(before: real, after: real, interval: int, sport: Sport, integral: bool)
    requires interval > 0
    ensures var r := Milestone(before, after, interval, sport, integral);
            (r.Some? <==> exists k :: MultipleCrossed(before, after, interval, k)) &&
            (r.Some? ==> exists k :: MultipleCrossed(before, after, interval, k) &&
                           !MultipleCrossed(before, after, interval, k + 1) &&
                           r.value == CrossedText(k * interval, sport, integral))
  {
    var k := (after / interval as real).Floor;
    MilestoneFloor(before, after, interval);
    var r := Milestone(before, after, interval, sport, integral);
    if r.Some? {
      assert MultipleCrossed(before, after, interval, k) && !MultipleCrossed(before, after, interval, k + 1) &&
             r.value == CrossedText(k * interval, sport, integral);
    }
  }

  /** `(after // interval) * interval` is the largest multiple not above `after`. */
  lemma MilestoneFloor(before: real, after: real, interval: int)
    requires interval > 0
    ensures var k := (after / interval as real).Floor;
      ((k as real * interval as real > before) <==> exists j :: MultipleCrossed(before, after, interval, j)) &&
      ((k as real * interval as real > before) ==> MultipleCrossed(before, after, interval, k) && !MultipleCrossed(before, after, interval, k + 1))
  {
    var iv := interval as real;
    var k := (after / iv).Floor;
    var lo := k as real * iv;
    FloorDivision(after, iv);
    NextMultiple(k, iv);
    var hi := (k + 1) as real * iv;
    assert lo <= after < hi;
    if lo > before {
      assert MultipleCrossed(before, after, interval, k);
    }
    LargestMultiple(before, after, interval, k);
  }

  /** When `k * interval` is the largest multiple not above `after`, any crossed
      multiple means that `k * interval` is crossed too. */
  lemma LargestMultiple(before: real, after: real, interval: int, k: int)
    requires interval > 0
    requires k as real * interval as real <= after < (k + 1) as real * interval as real
    ensures forall j :: MultipleCrossed(before, after, interval, j) ==> MultipleCrossed(before, after, interval, k)
  {
    forall j | MultipleCrossed(before, after, interval, j) ensures MultipleCrossed(before, after, interval, k) {
      MultipleBelowNext(j, k, interval as real, after);
    }
  }

  /** A multiple of `c` not above `after` is not above the largest one either. */
  lemma MultipleBelowNext(j: int, k: int, c: real, after: real)
    requires c > 0.0 && j as real * c <= after < (k + 1) as real * c
    ensures j as real * c <= k as real * c
  {
    ProductLtInverse(j as real, (k + 1) as real, c);
    assert j <= k;
    ProductLe(j as real, k as real, c);
  }

  /** Floor division by a positive divisor brackets the dividend. */
  lemma FloorDivision(a: real, c: real)
    requires c > 0.0
    ensures var lo := (a / c).Floor as real * c; lo <= a < lo + c
  {
    var x := a / c;
    var f := x.Floor as real;
    assert f <= x < f + 1.0;
    DivisionCancels(a, c);
    assert x * c == a;
    ProductLe(f, x, c);
    assert f * c <= a;
    ProductLt(x, f + 1.0, c);
    assert a < (f + 1.0) * c;
    assert (f + 1.0) * c == f * c + c;
    assert a < f * c + c;
  }

  lemma DivisionCancels(a: real, c: real)
    requires c > 0.0
    ensures (a / c) * c == a
  {
  }

  lemma NextMultiple(k: int, c: real)
    ensures (k + 1) as real * c == k as real * c + c
  {
  }

  lemma ProductLe(a: real, b: real, c: real)
    requires a <= b && c > 0.0
    ensures a * c <= b * c
  {
  }

  lemma ProductLtInverse(a: real, b: real, c: real)
    requires a * c < b * c && c > 0.0
    ensures a < b
  {
  }

  lemma ProductLt(a: real, b: real, c: real)
    requires a < b && c > 0.0
    ensures a * c < b * c
  {
  }


  // ----- this week against reference weeks -----

  function WeekIs(y: int, w: int): Row -> bool { (row: Row) => row.year == y && row.week == w }
  /** The reference of the "past 12 months" rules: the last 365 days, without the current week. */
  function PastYearWindow(d: int, y: int, w: int): Row -> bool {
    (row: Row) => row.date >= d - 365 * 1440 && (row.week < w || row.year < y)
  }
  /** The reference of the year-to-date rules: the earlier weeks of the current year. */
  function YearToDateWindow(y: int, w: int): Row -> bool { (row: Row) => row.year == y && row.week < w }
  /** A group of `groupby("week")`; the year is not part of the key. */
  function WeekKeyIs(w: int): Row -> bool { (row: Row) => row.week == w }
  function WeekKeyIn(keys: seq<int>): Row -> bool { (row: Row) => row.week in keys }

  /** The groups `groupby("week")` forms. pandas sorts them; the quantile does not depend on their order. */
  function WeekKeys(rows: Table): (keys: seq<int>)
    ensures NoDuplicates(keys)
    ensures forall i :: 0 <= i < |rows| ==> rows[i].week in keys
    ensures forall w :: w in keys ==> exists i :: 0 <= i < |rows| && rows[i].week == w
  {
    var column := seq(|rows|, i requires 0 <= i < |rows| => rows[i].week);
    assert forall i :: 0 <= i < |rows| ==> column[i] == rows[i].week;
    Unique(column)
  }

  /** `.groupby("week")["distance"].sum()` over the given groups. */
  function WeekDistances(rows: Table, keys: seq<int>): (r: seq<real>)
    ensures |r| == |keys|
    ensures forall i :: 0 <= i < |keys| ==> r[i] == DistanceSum(Filter(rows, WeekKeyIs(keys[i])))
  {
    if keys == [] then [] else [DistanceSum(Filter(rows, WeekKeyIs(keys[0])))] + WeekDistances(rows, keys[1..])
  }

  /** `.groupby("week")["date_string"].count()` over the given groups. */
  function WeekCounts(rows: Table, keys: seq<int>): (r: seq<real>)
    ensures |r| == |keys|
    ensures forall i :: 0 <= i < |keys| ==> r[i] == |Filter(rows, WeekKeyIs(keys[i]))| as real
  {
    if keys == [] then [] else [|Filter(rows, WeekKeyIs(keys[0]))| as real] + WeekCounts(rows, keys[1..])
  }

  /** The rows of distinct weeks fall apart into those of the first week and those of the others. */
  lemma WeekKeySplit(rows: Table, keys: seq<int>)
    requires NoDuplicates(keys) && keys != []
    ensures DistanceSum(Filter(rows, WeekKeyIn(keys)))
         == DistanceSum(Filter(rows, WeekKeyIs(keys[0]))) + DistanceSum(Filter(rows, WeekKeyIn(keys[1..])))
    ensures |Filter(rows, WeekKeyIn(keys))| == |Filter(rows, WeekKeyIs(keys[0]))| + |Filter(rows, WeekKeyIn(keys[1..]))|
  {
    var rest := keys[1..];
    forall i | 0 <= i < |rows|
      ensures WeekKeyIn(keys)(rows[i]) <==> WeekKeyIs(keys[0])(rows[i]) || WeekKeyIn(rest)(rows[i])
    {
      assert rows[i].week in keys <==> rows[i].week == keys[0] || rows[i].week in rest by {
        assert keys == [keys[0]] + rest;
      }
    }
    NoDuplicatesTail(keys);
    SplitTotals(rows, WeekKeyIn(keys), WeekKeyIs(keys[0]), WeekKeyIn(rest));
  }

  /** Grouping by week loses no distance: the group totals add up to the total of the rows grouped. */
  lemma {:induction false} WeekGroupsPartition(rows: Table, keys: seq<int>)
    requires NoDuplicates(keys)
    ensures Stats.Sum(WeekDistances(rows, keys)) == DistanceSum(Filter(rows, WeekKeyIn(keys)))
    decreases |keys|
  {
    if keys != [] {
      NoDuplicatesTail(keys);
      WeekGroupsPartition(rows, keys[1..]);
      WeekKeySplit(rows, keys);
      var d := WeekDistances(rows, keys);
      assert d[1..] == WeekDistances(rows, keys[1..]);
    }
  }

  /** Grouping by week loses no activity: the group counts add up to the number of rows grouped. */
  lemma {:induction false} WeekCountsPartition(rows: Table, keys: seq<int>)
    requires NoDuplicates(keys)
    ensures Stats.Sum(WeekCounts(rows, keys)) == |Filter(rows, WeekKeyIn(keys))| as real
    decreases |keys|
  {
    if keys != [] {
      NoDuplicatesTail(keys);
      WeekCountsPartition(rows, keys[1..]);
      WeekKeySplit(rows, keys);
      var c := WeekCounts(rows, keys);
      assert c[1..] == WeekCounts(rows, keys[1..]);
    }
  }

  /** The week totals of a selection add up to its total distance and its number of activities. */
  lemma WeekTotalsAddUp(rows: Table)
    ensures Stats.Sum(WeekDistances(rows, WeekKeys(rows))) == DistanceSum(rows)
    ensures Stats.Sum(WeekCounts(rows, WeekKeys(rows))) == |rows| as real
  {
    WeekGroupsPartition(rows, WeekKeys(rows));
    WeekCountsPartition(rows, WeekKeys(rows));
    FilterAll(rows, WeekKeyIn(WeekKeys(rows)));
  }

  /** `weekly > reference_value`, where the quantile of no values is NaN and never exceeded. */
  predicate AboveQuantile(x: real, values: seq<real>, q: real)
    requires 0.0 <= q <= 1.0
  {
    var reference := Stats.Quantile(values, q);
    reference.Some? && x > reference.value
  }

  /** Beating every reference value is enough, and beating none is not; without a reference nothing is beaten. */
  lemma AboveQuantileBounds(x: real, values: seq<real>, q: real)
    requires 0.0 <= q <= 1.0
    ensures values == [] ==> !AboveQuantile(x, values, q)
    ensures values != [] && (forall i :: 0 <= i < |values| ==> values[i] < x) ==> AboveQuantile(x, values, q)
    ensures (forall i :: 0 <= i < |values| ==> x <= values[i]) ==> !AboveQuantile(x, values, q)
  {
    if values != [] {
      var m := Stats.Max(values);
      Stats.QuantileBounded(values, q, m);
      Stats.QuantileBounded(values, q, x);
    }
  }

  /** The weekly distance exceeds the chosen quantile of the reference's week totals. */
  predicate WeeklyDistanceAbove(weekly: real, reference: Table, q: real)
    requires 0.0 <= q <= 1.0
  {
    AboveQuantile(weekly, WeekDistances(reference, WeekKeys(reference)), q)
  }

  /** The weekly number of activities exceeds the chosen quantile of the reference's weekly counts. */
  predicate WeeklyCountAbove(weekly: int, reference: Table, q: real)
    requires 0.0 <= q <= 1.0
  {
    AboveQuantile(weekly as real, WeekCounts(reference, WeekKeys(reference)), q)
  }

  /** The distance of one week group. */
  function WeekTotal(rows: Table, w: int): real {
    DistanceSum(Filter(rows, WeekKeyIs(w)))
  }

  /** The number of activities of one week group. */
  function WeekCount(rows: Table, w: int): int {
    |Filter(rows, WeekKeyIs(w))|
  }

  /** Outdoing every week of the reference fires the comparison; outdoing none, or having
      no reference week, does not. */
  lemma WeeklyDistanceAboveBounds(weekly: real, reference: Table, q: real)
    requires 0.0 <= q <= 1.0
    ensures reference == [] ==> !WeeklyDistanceAbove(weekly, reference, q)
    ensures reference != [] && (forall w :: w in WeekKeys(reference) ==> WeekTotal(reference, w) < weekly)
            ==> WeeklyDistanceAbove(weekly, reference, q)
    ensures (forall w :: w in WeekKeys(reference) ==> weekly <= WeekTotal(reference, w))
            ==> !WeeklyDistanceAbove(weekly, reference, q)
  {
    var keys := WeekKeys(reference);
    var values := WeekDistances(reference, keys);
    if reference != [] {
      assert reference[0].week in keys;
    }
    assert forall j :: 0 <= j < |values| ==> keys[j] in keys && values[j] == WeekTotal(reference, keys[j]);
    AboveQuantileBounds(weekly, values, q);
  }

  lemma WeeklyCountAboveBounds(weekly: int, reference: Table, q: real)
    requires 0.0 <= q <= 1.0
    ensures reference == [] ==> !WeeklyCountAbove(weekly, reference, q)
    ensures reference != [] && (forall w :: w in WeekKeys(reference) ==> WeekCount(reference, w) < weekly)
            ==> WeeklyCountAbove(weekly, reference, q)
    ensures (forall w :: w in WeekKeys(reference) ==> weekly <= WeekCount(reference, w))
            ==> !WeeklyCountAbove(weekly, reference, q)
  {
    var keys := WeekKeys(reference);
    var values := WeekCounts(reference, keys);
    if reference != [] {
      assert reference[0].week in keys;
    }
    assert forall j :: 0 <= j < |values| ==> keys[j] in keys && values[j] == WeekCount(reference, keys[j]) as real;
    AboveQuantileBounds(weekly as real, values, q);
  }

  function WeeklyVolumePastYearText(sport: Sport): string {
    // The source omits the f prefix, so the placeholder is sent verbatim.
    "Weekly average {sport.value} volume was considerably higher than usual in past 12 months!"
  }

  function WeeklyNumberPastYearText(sport: Sport): string {
    "Weekly number of " + sport.Value() + " activities was considerably higher than usual in past 12 months!"
  }

  function WeeklyVolumeYearToDateText(sport: Sport, year: int): string {
    "Weekly average " + sport.Value() + " volume was considerably higher than usual in " + Text.IntToString(year) + "!"
  }

  /** distance_weekly_vs_year */
  function DistanceWeeklyVsYear(t: Table, sport: Sport, q: real): Option<string>
    requires |t| > 0 && 0.0 <= q <= 1.0
  {
    var cd, cw, cy := CurrentDate(t), CurrentWeek(t), CurrentYear(t);
    var weekly := DistanceSum(Filter(t, WeekIs(cy, cw)));
    if WeeklyDistanceAbove(weekly, Filter(t, PastYearWindow(cd, cy, cw)), q)
    then Some(WeeklyVolumePastYearText(sport)) else None
  }

  /** frequency_weekly_vs_year */
  function FrequencyWeeklyVsYear(t: Table, sport: Sport, q: real): Option<string>
    requires |t| > 0 && 0.0 <= q <= 1.0
  {
    var cd, cw, cy := CurrentDate(t), CurrentWeek(t), CurrentYear(t);
    var weekly := |Filter(t, WeekIs(cy, cw))|;
    if WeeklyCountAbove(weekly, Filter(t, PastYearWindow(cd, cy, cw)), q)
    then Some(WeeklyNumberPastYearText(sport)) else None
  }

  /** distance_weekly_vs_ytd */
  function DistanceWeeklyVsYtd(t: Table, sport: Sport, q: real): Option<string>
    requires |t| > 0 && 0.0 <= q <= 1.0
  {
    var cw, cy := CurrentWeek(t), CurrentYear(t);
    var weekly := DistanceSum(Filter(t, WeekIs(cy, cw)));
    if WeeklyDistanceAbove(weekly, Filter(t, YearToDateWindow(cy, cw)), q)
    then Some(WeeklyVolumeYearToDateText(sport, cy)) else None
  }

  /** frequency_weekly_vs_ytd: its message speaks of the past 12 months although its reference is the year to date. */
  function FrequencyWeeklyVsYtd(t: Table, sport: Sport, q: real): Option<string>
    requires |t| > 0 && 0.0 <= q <= 1.0
  {
    var cw, cy := CurrentWeek(t), CurrentYear(t);
    var weekly := |Filter(t, WeekIs(cy, cw))|;
    if WeeklyCountAbove(weekly, Filter(t, YearToDateWindow(cy, cw)), q)
    then Some(WeeklyNumberPastYearText(sport)) else None
  }

  /** In the first week of a year the year-to-date rules have no reference and stay silent. */
  lemma FirstWeekHasNoYearToDate(t: Table, sport: Sport, q: real)
    requires |t| > 0 && 0.0 <= q <= 1.0 && CurrentWeek(t) <= 1
    requires forall i :: 0 <= i < |t| ==> t[i].week >= 1
    ensures DistanceWeeklyVsYtd(t, sport, q).None?
    ensures FrequencyWeeklyVsYtd(t, sport, q).None?
  {
    var cw, cy := CurrentWeek(t), CurrentYear(t);
    var reference := Filter(t, YearToDateWindow(cy, cw));
    forall i | 0 <= i < |t| ensures !YearToDateWindow(cy, cw)(t[i]) {
      assert t[i].week >= 1;
    }
    FilterNone(t, YearToDateWindow(cy, cw));
    WeeklyDistanceAboveBounds(DistanceSum(Filter(t, WeekIs(cy, cw))), reference, q);
    WeeklyCountAboveBounds(|Filter(t, WeekIs(cy, cw))|, reference, q);
  }

  // ----- streaks -----

  /** `.dt.date` of every row, as day ordinals. */
  function DayColumn(t: Table): (days: seq<int>)
    ensures |days| == |t|
    ensures forall i :: 0 <= i < |t| ==> days[i] == DayOrdinal(t[i])
  {
    seq(|t|, i requires 0 <= i < |t| => DayOrdinal(t[i]))
  }

  /** The day of the most recent event. */
  function LastDay(t: Table): int
    requires |t| > 0
  {
    CurrentDate(t) / 1440 + 1
  }

  /** Some event falls `k` days before the last event's day. */
  predicate ActiveDaysBefore(t: Table, k: int)
    requires |t| > 0
  {
    LastDay(t) - k in DayColumn(t)
  }

  /** Each of the `duration - 1` days before the last event's day has an event. */
  predicate StreakHolds(t: Table, duration: int)
    requires |t| > 0
  {
    forall k :: 1 <= k < duration ==> ActiveDaysBefore(t, k)
  }

  function StreakText(sport: Sport, duration: int): string {
    "Wow! A streak of " + Text.IntToString(duration) + " " + sport.Value() + " activities!"
  }

  /** The message streak sends, as a function. */
  function StreakMessage(t: Table, sport: Sport, duration: int): Option<string>
    requires |t| > 0
  {
    if StreakHolds(t, duration) then Some(StreakText(sport, duration)) else None
  }

  /** streak: walks back from the last event's day and stops at the first day without an event. */
  method Streak(t: Table, sport: Sport, duration: int) returns (r: Option<string>)
    requires |t| > 0
    ensures r == StreakMessage(t, sport, duration)
  {
    var dateLastEvent := CurrentDate(t) / 1440 + 1;
    var hasStreak := true;
    var dates := DayColumn(t);
    var offset := 1;
    while offset < duration
      invariant 1 <= offset
      invariant hasStreak
      invariant forall k :: 1 <= k < offset ==> ActiveDaysBefore(t, k)
    {
      if dateLastEvent - offset !in dates {
        hasStreak := false;
        break;
      }
      offset := offset + 1;
    }
    if hasStreak {
      assert StreakHolds(t, duration);
      r := Some(StreakText(sport, duration));
    } else {
      assert 1 <= offset < duration && !ActiveDaysBefore(t, offset);
      r := None;
    }
  }

  /** A streak of some length contains every shorter streak. */
  lemma StreakShortens(t: Table, d1: int, d2: int)
    requires |t| > 0 && d1 <= d2 && StreakHolds(t, d2)
    ensures StreakHolds(t, d1)
  {
  }

  /** The day test of the streak: some row's day lies exactly `k` days before the last event's. */
  lemma ActiveDaysBeforeMeans(t: Table, k: int)
    requires |t| > 0
    ensures ActiveDaysBefore(t, k) <==> exists i :: 0 <= i < |t| && DayOrdinal(t[i]) + k == LastDay(t)
  {
    var days := DayColumn(t);
    if ActiveDaysBefore(t, k) {
      var i :| 0 <= i < |days| && days[i] == LastDay(t) - k;
      assert DayOrdinal(t[i]) + k == LastDay(t);
    }
    if exists i :: 0 <= i < |t| && DayOrdinal(t[i]) + k == LastDay(t) {
      var i :| 0 <= i < |t| && DayOrdinal(t[i]) + k == LastDay(t);
      assert days[i] == LastDay(t) - k;
    }
  }
}
