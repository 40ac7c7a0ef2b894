/** monitoring/cal.py, the data behind the cumulative-distance image: the running
    total of a year's distance by day of the year. */
module CalCumulative {
  import opened Seqs
  import Dates
  import opened Utils
  import opened CalTable
  import opened CalRules

  /** `.dt.dayofyear` of a row (0 only for a row whose calendar columns are not a date). */
  function DayOfYearOf(row: Row): (r: int)
    ensures 0 <= r <= 366
    ensures RowConsistent(row) ==> 1 <= r
  {
    if Dates.ValidDate(row.year, row.month, row.day) then Dates.DayOfYear(row.year, row.month, row.day) else 0
  }

  /** The grouping key of the cumulative curve. */
  function DayKey(): Row -> int { (row: Row) => DayOfYearOf(row) }

  /** Every row has a day of the year, as every row of get_dataframe does. */
  predicate DaysPositive(t: Table) {
    forall i :: 0 <= i < |t| ==> 1 <= DayKey()(t[i])
  }

  lemma ConsistentDaysPositive(t: Table)
    requires TableConsistent(t)
    ensures DaysPositive(t)
  {
    forall i | 0 <= i < |t| ensures 1 <= DayKey()(t[i]) {
      assert RowConsistent(t[i]);
    }
  }

  /** A selection of such a table is one too. */
  lemma DaysPositiveSelection(t: Table, p: Row -> bool)
    requires DaysPositive(t)
    ensures DaysPositive(Filter(t, p))
  {
    var f := Filter(t, p);
    forall i | 0 <= i < |f| ensures 1 <= DayKey()(f[i]) {
      assert f[i] in t;
    }
  }

  function KeyIs(key: Row -> int, d: int): Row -> bool { (row: Row) => key(row) == d }
  function KeyUpTo(key: Row -> int, d: int): Row -> bool { (row: Row) => key(row) <= d }

  /** The key of every row, in table order. */
  function KeyColumn(rows: Table, key: Row -> int): (ks: seq<int>)
    ensures |ks| == |rows| && forall i :: 0 <= i < |rows| ==> ks[i] == key(rows[i])
  {
    seq(|rows|, i requires 0 <= i < |rows| => key(rows[i]))
  }

  predicate StrictlyIncreasing(s: seq<int>) {
    forall i, j :: 0 <= i < j < |s| ==> s[i] < s[j]
  }

  /** Adds `k` to an ascending sequence of distinct keys. */
  function InsertKey(s: seq<int>, k: int): (r: seq<int>)
    requires StrictlyIncreasing(s)
    ensures StrictlyIncreasing(r)
    ensures forall x :: x in r <==> x in s || x == k
  {
    if s == [] then [k]
    else if k < s[0] then [k] + s
    else if k == s[0] then s
    else
      var rest := InsertKey(s[1..], k);
      assert forall x :: x in s <==> x == s[0] || x in s[1..];
      HeadBelowTail(s);
      ConsIncreasing(s[0], rest);
      [s[0]] + rest
  }

  lemma HeadBelowTail(s: seq<int>)
    requires StrictlyIncreasing(s) && s != []
    ensures forall x :: x in s[1..] ==> s[0] < x
  {
    forall x | x in s[1..] ensures s[0] < x {
      var j :| 0 <= j < |s[1..]| && s[1..][j] == x;
      assert s[j + 1] == x;
    }
  }

  lemma ConsIncreasing(h: int, s: seq<int>)
    requires StrictlyIncreasing(s) && forall x :: x in s ==> h < x
    ensures StrictlyIncreasing([h] + s)
    ensures forall x :: x in [h] + s <==> x == h || x in s
  {
    var r := [h] + s;
    forall i, j | 0 <= i < j < |r| ensures r[i] < r[j] {
      assert r[j] == s[j - 1];
      if i > 0 {
        assert r[i] == s[i - 1];
      } else {
        assert s[j - 1] in s;
      }
    }
  }

  /** The groups of `groupby(...)`: the distinct keys, ascending. */
  function GroupKeys(ks: seq<int>): (r: seq<int>)
    ensures StrictlyIncreasing(r)
    ensures forall x :: x in r <==> x in ks
  {
    if ks == [] then []
    else
      assert forall x :: x in ks <==> x == ks[0] || x in ks[1..];
      InsertKey(GroupKeys(ks[1..]), ks[0])
  }

  /** The groups of `groupby(key)` over a table. */
  function Groups(rows: Table, key: Row -> int): (days: seq<int>)
    ensures StrictlyIncreasing(days)
    ensures forall d :: d in days <==> exists i :: 0 <= i < |rows| && key(rows[i]) == d
  {
    var ks := KeyColumn(rows, key);
    assert forall d :: d in ks <==> exists i :: 0 <= i < |rows| && key(rows[i]) == d by {
      forall d ensures d in ks <==> exists i :: 0 <= i < |rows| && key(rows[i]) == d {
        if d in ks {
          var i :| 0 <= i < |ks| && ks[i] == d;
        }
      }
    }
    GroupKeys(ks)
  }

  /** One point of the curve: a day of the year and the distance accumulated up to it. */
  datatype DayTotal = DayTotal(dayOfYear: int, distance: real)

  /** The x column of a curve. */
  function Days(r: seq<DayTotal>): (ds: seq<int>)
    ensures |ds| == |r| && forall j :: 0 <= j < |r| ==> ds[j] == r[j].dayOfYear
  {
    seq(|r|, j requires 0 <= j < |r| => r[j].dayOfYear)
  }

  /** The distance of the rows with key `d`. */
  function DaySum(rows: Table, key: Row -> int, d: int): real {
    if rows == [] then 0.0
    else (if key(rows[0]) == d then DistanceOf(rows[0]) else 0.0) + DaySum(rows[1..], key, d)
  }

  /** A day's sum is the distance of that day's selection. */
  lemma {:induction false} DaySumIsSelection(rows: Table, key: Row -> int, d: int)
    ensures DaySum(rows, key, d) == DistanceSum(Filter(rows, KeyIs(key, d)))
    decreases |rows|
  {
    if rows != [] {
      DaySumIsSelection(rows[1..], key, d);
      var f := Filter(rows, KeyIs(key, d));
      if key(rows[0]) == d {
        assert f == [rows[0]] + Filter(rows[1..], KeyIs(key, d));
        assert f[1..] == Filter(rows[1..], KeyIs(key, d));
      } else {
        assert f == Filter(rows[1..], KeyIs(key, d));
      }
    }
  }

  lemma DaySumNonNegative(rows: Table, key: Row -> int, d: int)
    requires NonNegativeDistances(rows)
    ensures DaySum(rows, key, d) >= 0.0
  {
    DaySumIsSelection(rows, key, d);
    NonNegativeSelection(rows, KeyIs(key, d));
  }

  /** The day sums followed by `cumsum()`. */
  function Cumulate(rows: Table, key: Row -> int, days: seq<int>, acc: real): (r: seq<DayTotal>)
    ensures |r| == |days| && forall j :: 0 <= j < |r| ==> r[j].dayOfYear == days[j]
  {
    if days == [] then []
    else
      var total := acc + DaySum(rows, key, days[0]);
      [DayTotal(days[0], total)] + Cumulate(rows, key, days[1..], total)
  }

  /** _get_cumulative_day_distances */
  function CumulativeDayDistances(rows: Table): seq<DayTotal> {
    Cumulate(rows, DayKey(), Groups(rows, DayKey()), 0.0)
  }

  /** Moving the running total from `prev` to the next key `d0` adds the rows of `d0`,
      when no row has a key strictly between the two. */
  lemma CumulateStep(rows: Table, key: Row -> int, prev: int, d0: int)
    requires prev < d0
    requires forall i :: 0 <= i < |rows| ==> !(prev < key(rows[i]) < d0)
    ensures DistanceSum(Filter(rows, KeyUpTo(key, d0)))
         == DistanceSum(Filter(rows, KeyUpTo(key, prev))) + DistanceSum(Filter(rows, KeyIs(key, d0)))
  {
    SplitTotals(rows, KeyUpTo(key, d0), KeyUpTo(key, prev), KeyIs(key, d0));
  }

  lemma CumulateUnfold(rows: Table, key: Row -> int, days: seq<int>, acc: real)
    requires days != []
    ensures var total := acc + DaySum(rows, key, days[0]);
            Cumulate(rows, key, days, acc) == [DayTotal(days[0], total)] + Cumulate(rows, key, days[1..], total)
  {
  }

  /** `upTo` grows by each listed day's sum, from `acc` before the first day. */
  predicate Accumulates(rows: Table, key: Row -> int, days: seq<int>, acc: real, upTo: int -> real) {
    (days != [] ==> upTo(days[0]) == acc + DaySum(rows, key, days[0])) &&
    (forall j :: 1 <= j < |days| ==> upTo(days[j]) == upTo(days[j - 1]) + DaySum(rows, key, days[j]))
  }

  /** The running totals `r` of `days` are the values of `upTo` at those days. */
  predicate Tracks(r: seq<DayTotal>, days: seq<int>, upTo: int -> real) {
    |r| == |days| && forall j :: 0 <= j < |r| ==> r[j].distance == upTo(days[j])
  }

  lemma TracksCons(r: seq<DayTotal>, h: DayTotal, tail: seq<DayTotal>, days: seq<int>, upTo: int -> real)
    requires r == [h] + tail && days != []
    requires h.distance == upTo(days[0]) && Tracks(tail, days[1..], upTo)
    ensures Tracks(r, days, upTo)
  {
    forall j | 0 <= j < |r| ensures r[j].distance == upTo(days[j]) {
      if j > 0 {
        assert r[j] == tail[j - 1] && days[j] == days[1..][j - 1];
      }
    }
  }

  /** The running totals follow any `upTo` that grows by the day sums. */
  lemma {:induction false} CumulateFollows(rows: Table, key: Row -> int, days: seq<int>, acc: real, upTo: int -> real)
    requires Accumulates(rows, key, days, acc, upTo)
    ensures Tracks(Cumulate(rows, key, days, acc), days, upTo)
    decreases |days|
  {
    if days != [] {
      var total := acc + DaySum(rows, key, days[0]);
      var rest := days[1..];
      forall j | 1 <= j < |rest|
        ensures upTo(rest[j]) == upTo(rest[j - 1]) + DaySum(rows, key, rest[j])
      {
        assert rest[j] == days[j + 1] && rest[j - 1] == days[j];
      }
      if rest != [] {
        assert rest[0] == days[1];
      }
      CumulateFollows(rows, key, rest, total, upTo);
      CumulateUnfold(rows, key, days, acc);
      TracksCons(Cumulate(rows, key, days, acc), DayTotal(days[0], total), Cumulate(rows, key, rest, total), days, upTo);
    }
  }

  /** The distance of the rows up to each day. */
  function UpToSum(rows: Table, key: Row -> int): int -> real {
    (d: int) => DistanceSum(Filter(rows, KeyUpTo(key, d)))
  }

  /** No key lies strictly between a listed day and the one before it (or `prev`). */
  lemma NoKeyBetween(rows: Table, key: Row -> int, days: seq<int>, prev: int, j: int)
    requires forall i, j :: 0 <= i < j < |days| ==> days[i] < days[j]
    requires forall i :: 0 <= i < |days| ==> prev < days[i]
    requires forall i :: 0 <= i < |rows| && key(rows[i]) > prev ==> key(rows[i]) in days
    requires 0 <= j < |days|
    ensures var lo := if j == 0 then prev else days[j - 1];
      lo < days[j] && forall i :: 0 <= i < |rows| ==> !(lo < key(rows[i]) < days[j])
  {
    var lo := if j == 0 then prev else days[j - 1];
    assert prev <= lo by {
      if j > 0 {
        assert prev < days[j - 1];
      }
    }
    forall i | 0 <= i < |rows| && lo < key(rows[i]) ensures days[j] <= key(rows[i]) {
      var k :| 0 <= k < |days| && days[k] == key(rows[i]);
      AscendingAround(days, k, j);
    }
  }

  /** In an ascending sequence, an element before position j is at most the one just
      before j, and one from j on is at least the one at j. */
  lemma AscendingAround(days: seq<int>, k: int, j: int)
    requires forall i, j :: 0 <= i < j < |days| ==> days[i] < days[j]
    requires 0 <= k < |days| && 0 <= j < |days|
    ensures k < j ==> days[k] <= days[j - 1]
    ensures j <= k ==> days[j] <= days[k]
  {
    if k < j - 1 {
      assert days[k] < days[j - 1];
    }
    if j < k {
      assert days[j] < days[k];
    }
  }

  /** Each running total is the distance of all rows up to its day, given that the
      running total starts from the rows up to `prev` and that `days` lists every
      later key in ascending order. */
  lemma CumulateMeaning(rows: Table, key: Row -> int, days: seq<int>, acc: real, prev: int)
    requires forall i, j :: 0 <= i < j < |days| ==> days[i] < days[j]
    requires forall i :: 0 <= i < |days| ==> prev < days[i]
    requires forall i :: 0 <= i < |rows| && key(rows[i]) > prev ==> key(rows[i]) in days
    requires acc == DistanceSum(Filter(rows, KeyUpTo(key, prev)))
    ensures var r := Cumulate(rows, key, days, acc);
      forall j :: 0 <= j < |r| ==> r[j] == DayTotal(days[j], DistanceSum(Filter(rows, KeyUpTo(key, days[j]))))
  {
    var upTo := UpToSum(rows, key);
    if days != [] {
      NoKeyBetween(rows, key, days, prev, 0);
      CumulateStep(rows, key, prev, days[0]);
      DaySumIsSelection(rows, key, days[0]);
    }
    forall j | 1 <= j < |days|
      ensures upTo(days[j]) == upTo(days[j - 1]) + DaySum(rows, key, days[j])
    {
      NoKeyBetween(rows, key, days, prev, j);
      CumulateStep(rows, key, days[j - 1], days[j]);
      DaySumIsSelection(rows, key, days[j]);
    }
    CumulateFollows(rows, key, days, acc, upTo);
  }

  /** When every key is among `days` and `days` ascends, selecting up to the last of
      them selects every row. */
  lemma UpToLastKey(rows: Table, key: Row -> int, days: seq<int>)
    requires days != []
    requires forall i, j :: 0 <= i < j < |days| ==> days[i] < days[j]
    requires forall i :: 0 <= i < |rows| ==> key(rows[i]) in days
    ensures Filter(rows, KeyUpTo(key, days[|days| - 1])) == rows
  {
    var last := days[|days| - 1];
    forall i | 0 <= i < |rows| ensures KeyUpTo(key, last)(rows[i]) {
      var j :| 0 <= j < |days| && days[j] == key(rows[i]);
      if j < |days| - 1 {
        assert days[j] < last;
      }
    }
    FilterAll(rows, KeyUpTo(key, last));
  }

  /** The running totals of the groups of positive keys are the distances up to each
      group. */
  lemma CurveTotals(rows: Table, key: Row -> int)
    requires forall i :: 0 <= i < |rows| ==> 1 <= key(rows[i])
    ensures var r := Cumulate(rows, key, Groups(rows, key), 0.0);
      forall j :: 0 <= j < |r| ==> r[j].distance == DistanceSum(Filter(rows, KeyUpTo(key, r[j].dayOfYear)))
  {
    var days := Groups(rows, key);
    forall i | 0 <= i < |rows| ensures key(rows[i]) in days { }
    forall j | 0 <= j < |days| ensures 0 < days[j] {
      assert days[j] in days;
    }
    FilterNone(rows, KeyUpTo(key, 0));
    CumulateMeaning(rows, key, days, 0.0, 0);
  }

  /** The last running total is the whole distance. */
  lemma CurveTotal(rows: Table, key: Row -> int)
    requires forall i :: 0 <= i < |rows| ==> 1 <= key(rows[i])
    ensures var r := Cumulate(rows, key, Groups(rows, key), 0.0);
      rows != [] ==> r != [] && r[|r| - 1].distance == DistanceSum(rows)
  {
    var days := Groups(rows, key);
    CurveTotals(rows, key);
    if rows != [] {
      assert key(rows[0]) in days;
      forall i | 0 <= i < |rows| ensures key(rows[i]) in days { }
      UpToLastKey(rows, key, days);
    }
  }

  /** A curve over the rows: ascending days, a point for every key that occurs and for
      no other day, each carrying the distance up to that day, the last one carrying the
      whole distance. */
  predicate CurveOf(rows: Table, key: Row -> int, r: seq<DayTotal>) {
    (forall i, j :: 0 <= i < j < |r| ==> r[i].dayOfYear < r[j].dayOfYear) &&
    (forall i :: 0 <= i < |rows| ==> key(rows[i]) in Days(r)) &&
    (forall j :: 0 <= j < |r| ==> exists i :: 0 <= i < |rows| && key(rows[i]) == r[j].dayOfYear) &&
    (forall j :: 0 <= j < |r| ==> r[j].distance == DistanceSum(Filter(rows, KeyUpTo(key, r[j].dayOfYear)))) &&
    (rows != [] ==> r != [] && r[|r| - 1].distance == DistanceSum(rows))
  }

  /** For positive keys the running totals of the groups form the curve of the rows. */
  lemma CumulateComplete(rows: Table, key: Row -> int)
    requires forall i :: 0 <= i < |rows| ==> 1 <= key(rows[i])
    ensures CurveOf(rows, key, Cumulate(rows, key, Groups(rows, key), 0.0))
  {
    var days := Groups(rows, key);
    var r := Cumulate(rows, key, days, 0.0);
    DaysOfCumulate(rows, key, days, 0.0);
    forall i | 0 <= i < |rows| ensures key(rows[i]) in Days(r) { }
    CumulateDaysOccur(rows, key);
    forall i, j | 0 <= i < j < |r| ensures r[i].dayOfYear < r[j].dayOfYear { }
    CurveTotals(rows, key);
    CurveTotal(rows, key);
  }

  /** Every point of the running totals of the groups is on a day some row has. */
  lemma CumulateDaysOccur(rows: Table, key: Row -> int)
    ensures var r := Cumulate(rows, key, Groups(rows, key), 0.0);
            forall j :: 0 <= j < |r| ==> exists i :: 0 <= i < |rows| && key(rows[i]) == r[j].dayOfYear
  {
    var days := Groups(rows, key);
    var r := Cumulate(rows, key, days, 0.0);
    forall j | 0 <= j < |r| ensures exists i :: 0 <= i < |rows| && key(rows[i]) == r[j].dayOfYear {
      assert r[j].dayOfYear == days[j] && days[j] in days;
    }
  }

  lemma DaysOfCumulate(rows: Table, key: Row -> int, days: seq<int>, acc: real)
    ensures Days(Cumulate(rows, key, days, acc)) == days
  {
  }

  /** The curve of a year's rows: ascending days, one point for every day with an
      activity, each carrying the distance up to that day; the last point carries the
      year's whole distance. */
  lemma CumulativeDayDistancesMeaning(rows: Table)
    requires DaysPositive(rows)
    ensures CurveOf(rows, DayKey(), CumulativeDayDistances(rows))
  {
    CumulateComplete(rows, DayKey());
  }

  /** A curve over the rows is unique: `CurveOf` determines the result. */
  lemma CurveUnique(rows: Table, key: Row -> int, r1: seq<DayTotal>, r2: seq<DayTotal>)
    requires CurveOf(rows, key, r1) && CurveOf(rows, key, r2)
    ensures r1 == r2
  {
    var d1, d2 := Days(r1), Days(r2);
    forall x ensures x in d1 <==> x in d2 {
      if x in d1 {
        var j :| 0 <= j < |d1| && d1[j] == x;
        var i :| 0 <= i < |rows| && key(rows[i]) == r1[j].dayOfYear;
      }
      if x in d2 {
        var j :| 0 <= j < |d2| && d2[j] == x;
        var i :| 0 <= i < |rows| && key(rows[i]) == r2[j].dayOfYear;
      }
    }
    AscendingSameElements(d1, d2);
    forall j | 0 <= j < |r1| ensures r1[j] == r2[j] {
      assert r1[j].dayOfYear == d1[j] == d2[j] == r2[j].dayOfYear;
    }
  }

  /** Two strictly ascending sequences with the same elements are equal. */
  lemma {:induction false} AscendingSameElements(a: seq<int>, b: seq<int>)
    requires StrictlyIncreasing(a) && StrictlyIncreasing(b)
    requires forall x :: x in a <==> x in b
    ensures a == b
    decreases |a|
  {
    if b != [] {
      assert b[0] in b;
    }
    if a != [] {
      assert a[0] in a && b != [];
      var i :| 0 <= i < |b| && b[i] == a[0];
      var k :| 0 <= k < |a| && a[k] == b[0];
      HeadIsLeast(b, i);
      HeadIsLeast(a, k);
      forall x ensures x in a[1..] <==> x in b[1..] {
        InTail(a, x);
        InTail(b, x);
      }
      AscendingSameElements(a[1..], b[1..]);
      assert a == [a[0]] + a[1..] && b == [b[0]] + b[1..];
    }
  }

  lemma HeadIsLeast(s: seq<int>, j: int)
    requires StrictlyIncreasing(s) && 0 <= j < |s|
    ensures s[0] <= s[j]
  {
  }

  /** In a strictly ascending sequence the tail holds exactly the elements after the head. */
  lemma InTail(s: seq<int>, x: int)
    requires s != [] && StrictlyIncreasing(s)
    ensures x in s[1..] <==> x in s && x != s[0]
  {
    if x in s && x != s[0] {
      var j :| 0 <= j < |s| && s[j] == x;
      assert j > 0 && s[1..][j - 1] == x;
    }
    if x in s[1..] {
      var j :| 0 <= j < |s[1..]| && s[1..][j] == x;
      assert s[j + 1] == x && s[0] < s[j + 1];
    }
  }

  /** Running totals that start at `acc` or above and never decrease. */
  predicate RunningFrom(r: seq<DayTotal>, acc: real) {
    (forall j :: 0 <= j < |r| ==> acc <= r[j].distance) &&
    (forall i, j :: 0 <= i < j < |r| ==> r[i].distance <= r[j].distance)
  }

  lemma RunningCons(r: seq<DayTotal>, h: DayTotal, tail: seq<DayTotal>, acc: real)
    requires r == [h] + tail
    requires acc <= h.distance && RunningFrom(tail, h.distance)
    ensures RunningFrom(r, acc)
  {
    forall i, j | 0 <= i < j < |r| ensures r[i].distance <= r[j].distance {
      assert r[j] == tail[j - 1];
      if i > 0 {
        assert r[i] == tail[i - 1];
      }
    }
  }

  /** With no negative distance the running totals never decrease. */
  lemma {:induction false} CumulateMonotone(rows: Table, key: Row -> int, days: seq<int>, acc: real)
    requires NonNegativeDistances(rows)
    ensures RunningFrom(Cumulate(rows, key, days, acc), acc)
    decreases |days|
  {
    if days != [] {
      DaySumNonNegative(rows, key, days[0]);
      var total := acc + DaySum(rows, key, days[0]);
      CumulateMonotone(rows, key, days[1..], total);
      CumulateUnfold(rows, key, days, acc);
      RunningCons(Cumulate(rows, key, days, acc), DayTotal(days[0], total), Cumulate(rows, key, days[1..], total), acc);
    }
  }

  /** Without negative distances the curve never decreases. */
  lemma CumulativeDayDistancesNonDecreasing(rows: Table)
    requires NonNegativeDistances(rows)
    ensures var r := CumulativeDayDistances(rows);
      forall i, j :: 0 <= i < j < |r| ==> 0.0 <= r[i].distance <= r[j].distance
  {
    CumulateMonotone(rows, DayKey(), Groups(rows, DayKey()), 0.0);
    assert CumulativeDayDistances(rows) == Cumulate(rows, DayKey(), Groups(rows, DayKey()), 0.0);
  }
}
