/** monitoring/yearly.py: per-year counts of the observed disciplines, their
    shares of the year, and the variety (an entropy) of each year. The table is the
    observation table of the calendar monitor; only its `year` and `title` fields
    are read, and every row has both. */
module Yearly {
  import opened Wrappers
  import opened Seqs
  import CalTable

  type Row = CalTable.Row
  type Table = CalTable.Table

  /** Per year, per discipline, a count (the dictionary yearly_discipline_counts builds). */
  type Counts = map<int, map<string, nat>>

  function TitleOf(row: Row): string { row.title }
  function YearOf(row: Row): int { row.year }
  function Any(row: Row): bool { true }

  /** The rows that satisfy `p` and whose `key` is `k`. */
  function Keyed<K(==)>(p: Row -> bool, key: Row -> K, k: K): Row -> bool {
    (row: Row) => p(row) && key(row) == k
  }

  function InYear(year: int): Row -> bool { Keyed(Any, YearOf, year) }
  function InYearWithTitle(year: int, d: string): Row -> bool { Keyed(InYear(year), TitleOf, d) }

  /** The `title` column. */
  function Titles(t: Table): (r: seq<string>)
    ensures |r| == |t| && forall i :: 0 <= i < |t| ==> r[i] == t[i].title
  {
    seq(|t|, i requires 0 <= i < |t| => t[i].title)
  }

  /** The `year` column. */
  function Years(t: Table): (r: seq<int>)
    ensures |r| == |t| && forall i :: 0 <= i < |t| ==> r[i] == t[i].year
  {
    seq(|t|, i requires 0 <= i < |t| => t[i].year)
  }

  /** observed_disciplines: every title once, in order of first appearance. */
  function ObservedDisciplines(t: Table): (r: seq<string>)
    ensures forall d :: d in r <==> d in Titles(t)
    ensures NoDuplicates(r)
    ensures forall i, j :: 0 <= i < j < |r| ==> FirstIndex(Titles(t), r[i]) < FirstIndex(Titles(t), r[j])
  {
    UniqueFirstAppearanceOrder(Titles(t));
    Unique(Titles(t))
  }

  /** observed_years: every year once, in order of first appearance. */
  function ObservedYears(t: Table): (r: seq<int>)
    ensures forall y :: y in r <==> y in Years(t)
    ensures NoDuplicates(r)
    ensures forall i, j :: 0 <= i < j < |r| ==> FirstIndex(Years(t), r[i]) < FirstIndex(Years(t), r[j])
  {
    UniqueFirstAppearanceOrder(Years(t));
    Unique(Years(t))
  }

  lemma {:induction false} CountPositive(t: Table, p: Row -> bool, i: int)
    requires 0 <= i < |t| && p(t[i])
    ensures Count(t, p) > 0
    decreases |t|
  {
    if i > 0 {
      CountPositive(t[1..], p, i - 1);
    }
  }

  /** yearly_counts: the number of rows of each observed year. */
  function YearlyCounts(t: Table): (r: map<int, nat>)
    ensures forall y :: y in r <==> y in Years(t)
    ensures forall y :: y in r ==> r[y] == |Filter(t, InYear(y))| && r[y] > 0
  {
    var r := map y | y in Years(t) :: Count(t, InYear(y));
    forall y | y in r ensures r[y] == |Filter(t, InYear(y))| && r[y] > 0 {
      FilterLength(t, InYear(y));
      var i :| 0 <= i < |t| && Years(t)[i] == y;
      assert t[i].year == y;
      assert YearOf(t[i]) == y;
      assert Any(t[i]);
      assert Keyed(Any, YearOf, y)(t[i]);
      CountPositive(t, InYear(y), i);
    }
    r
  }

  /** The dictionary yearly_discipline_counts starts from: a zero for every
      observed discipline in every observed year. */
  function ZeroCounts(t: Table): Counts {
    map y | y in Years(t) :: map d | d in Titles(t) :: 0
  }

  /** The unstacked group-by counts, with the missing (year, title) pairs filled
      with zero: a row per observed year, a column per observed title. */
  function GroupedCounts(t: Table): Counts {
    map y | y in Years(t) :: map d | d in Titles(t) :: Count(t, InYearWithTitle(y, d))
  }

  /** yearly_discipline_counts: the merge `counts |= grouped` keeps the right-hand
      entry for every key both sides have. */
  function YearlyDisciplineCounts(t: Table): (counts: Counts)
    ensures forall y :: y in counts <==> y in Years(t)
    ensures forall y :: y in counts ==> forall d :: d in counts[y] <==> d in Titles(t)
    ensures forall y, d :: y in counts && d in counts[y] ==>
      counts[y][d] == |Filter(t, InYearWithTitle(y, d))|
  {
    var counts := ZeroCounts(t) + GroupedCounts(t);
    forall y, d | y in counts && d in counts[y]
      ensures counts[y][d] == |Filter(t, InYearWithTitle(y, d))|
    {
      FilterLength(t, InYearWithTitle(y, d));
    }
    counts
  }

  // ---------------------------------------------------------------------------
  // Counting by a key partitions the count.

  /** The counts of the rows satisfying `p` split by the keys `ks`, added up. */
  function SumCounts<K(==)>(t: Table, p: Row -> bool, key: Row -> K, ks: seq<K>): nat
    decreases |ks|
  {
    if ks == [] then 0 else Count(t, Keyed(p, key, ks[0])) + SumCounts(t, p, key, ks[1..])
  }

  /** How many of the keys `ks` single out the row `row`. */
  function Hits<K(==)>(row: Row, p: Row -> bool, key: Row -> K, ks: seq<K>): nat
    decreases |ks|
  {
    if ks == [] then 0 else (if Keyed(p, key, ks[0])(row) then 1 else 0) + Hits(row, p, key, ks[1..])
  }

  lemma {:induction false} HitsOnce<K(!new)>(row: Row, p: Row -> bool, key: Row -> K, ks: seq<K>)
    requires NoDuplicates(ks)
    ensures Hits(row, p, key, ks) == if p(row) && key(row) in ks then 1 else 0
    decreases |ks|
  {
    if ks != [] {
      NoDuplicatesTail(ks);
      HitsOnce(row, p, key, ks[1..]);
      assert key(row) in ks <==> key(row) == ks[0] || key(row) in ks[1..] by {
        assert ks == [ks[0]] + ks[1..];
      }
    }
  }

  lemma {:induction false} SumCountsNoRows<K>(p: Row -> bool, key: Row -> K, ks: seq<K>)
    ensures SumCounts([], p, key, ks) == 0
    decreases |ks|
  {
    if ks != [] {
      SumCountsNoRows(p, key, ks[1..]);
    }
  }

  lemma {:induction false} SumCountsCons<K>(t: Table, p: Row -> bool, key: Row -> K, ks: seq<K>)
    requires t != []
    ensures SumCounts(t, p, key, ks) == Hits(t[0], p, key, ks) + SumCounts(t[1..], p, key, ks)
    decreases |ks|
  {
    if ks != [] {
      SumCountsCons(t, p, key, ks[1..]);
    }
  }

  /** Splitting the rows that satisfy `p` by a key, over a list that holds every
      key once, loses and repeats no row. */
  lemma {:induction false} Partition<K(!new)>(t: Table, p: Row -> bool, key: Row -> K, ks: seq<K>)
    requires NoDuplicates(ks)
    requires forall i :: 0 <= i < |t| ==> key(t[i]) in ks
    ensures SumCounts(t, p, key, ks) == Count(t, p)
    decreases |t|
  {
    if t == [] {
      SumCountsNoRows(p, key, ks);
    } else {
      SumCountsCons(t, p, key, ks);
      HitsOnce(t[0], p, key, ks);
      Partition(t[1..], p, key, ks);
    }
  }

  /** Every discipline of `ds` has an entry in `m`. */
  predicate Covers<V>(m: map<string, V>, ds: seq<string>) {
    forall i :: 0 <= i < |ds| ==> ds[i] in m
  }

  /** The sum of the counts of a year over a list of disciplines. */
  function SumOver(m: map<string, nat>, ds: seq<string>): nat
    requires Covers(m, ds)
    decreases |ds|
  {
    if ds == [] then 0 else m[ds[0]] + SumOver(m, ds[1..])
  }

  /** The sum of the counts of the years over a list of years. */
  function SumYears(m: map<int, nat>, ys: seq<int>): nat
    requires forall i :: 0 <= i < |ys| ==> ys[i] in m
    decreases |ys|
  {
    if ys == [] then 0 else m[ys[0]] + SumYears(m, ys[1..])
  }

  lemma {:induction false} SumOverIsSumCounts(t: Table, y: int, ds: seq<string>)
    requires y in Years(t) && forall i :: 0 <= i < |ds| ==> ds[i] in Titles(t)
    ensures SumOver(YearlyDisciplineCounts(t)[y], ds) == SumCounts(t, InYear(y), TitleOf, ds)
    decreases |ds|
  {
    if ds != [] {
      SumOverIsSumCounts(t, y, ds[1..]);
      FilterLength(t, InYearWithTitle(y, ds[0]));
    }
  }

  lemma {:induction false} SumYearsIsSumCounts(t: Table, ys: seq<int>)
    requires forall i :: 0 <= i < |ys| ==> ys[i] in Years(t)
    ensures SumYears(YearlyCounts(t), ys) == SumCounts(t, Any, YearOf, ys)
    decreases |ys|
  {
    if ys != [] {
      SumYearsIsSumCounts(t, ys[1..]);
      FilterLength(t, InYear(ys[0]));
    }
  }

  lemma {:induction false} CountAll(t: Table)
    ensures Count(t, Any) == |t|
    decreases |t|
  {
    if t != [] {
      CountAll(t[1..]);
    }
  }

  /** Every observed year of the discipline counts lists every observed discipline. */
  lemma CountsCover(t: Table, y: int)
    requires y in YearlyDisciplineCounts(t)
    ensures Covers(YearlyDisciplineCounts(t)[y], ObservedDisciplines(t))
  {
    var ds := ObservedDisciplines(t);
    forall i | 0 <= i < |ds| ensures ds[i] in YearlyDisciplineCounts(t)[y] {
      assert ds[i] in Titles(t);
    }
  }

  /** The discipline counts of a year add up to the year's count. */
  lemma DisciplineCountsAddUp(t: Table, y: int)
    requires y in YearlyCounts(t)
    ensures y in YearlyDisciplineCounts(t) && Covers(YearlyDisciplineCounts(t)[y], ObservedDisciplines(t))
    ensures SumOver(YearlyDisciplineCounts(t)[y], ObservedDisciplines(t)) == YearlyCounts(t)[y]
  {
    var ds := ObservedDisciplines(t);
    CountsCover(t, y);
    SumOverIsSumCounts(t, y, ds);
    forall i | 0 <= i < |t| ensures TitleOf(t[i]) in ds {
      assert Titles(t)[i] == t[i].title;
    }
    Partition(t, InYear(y), TitleOf, ds);
    FilterLength(t, InYear(y));
  }

  /** The yearly counts add up to the number of rows. */
  lemma YearlyCountsAddUp(t: Table)
    ensures forall i :: 0 <= i < |ObservedYears(t)| ==> ObservedYears(t)[i] in YearlyCounts(t)
    ensures SumYears(YearlyCounts(t), ObservedYears(t)) == |t|
  {
    var ys := ObservedYears(t);
    SumYearsIsSumCounts(t, ys);
    forall i | 0 <= i < |t| ensures YearOf(t[i]) in ys {
      assert Years(t)[i] == t[i].year;
    }
    Partition(t, Any, YearOf, ys);
    CountAll(t);
  }

  // ---------------------------------------------------------------------------
  // counts_to_probabilities

  /** The exceptions counts_to_probabilities can raise, with the year they name. */
  datatype YearlyError =
    | KeyError(year: int)            // the year has no entry in the yearly sums
    | ZeroDivisionError(year: int)   // the year's sum is zero

  /** The shares of one year: each count divided by the year's sum. */
  function Share(counts: map<string, nat>, total: nat): (r: map<string, real>)
    requires total > 0
    ensures r.Keys == counts.Keys
    ensures forall d :: d in r ==> r[d] * total as real == counts[d] as real && 0.0 <= r[d]
  {
    map d | d in counts :: counts[d] as real / total as real
  }

  /** The year's sum exists and is positive. */
  predicate HasSum(sums: map<int, nat>, year: int) {
    year in sums && sums[year] > 0
  }

  /** The comprehension of a year divides by the year's sum once per discipline, so a
      year without disciplines never reads the sum. */
  predicate Divisible(counts: Counts, sums: map<int, nat>, year: int) {
    year in counts ==> counts[year] == map[] || HasSum(sums, year)
  }

  /** The shares of a year whose comprehension does not fail. */
  function YearShares(inner: map<string, nat>, sums: map<int, nat>, year: int): (r: map<string, real>)
    requires inner == map[] || HasSum(sums, year)
    ensures r.Keys == inner.Keys
    ensures HasSum(sums, year) ==> r == Share(inner, sums[year])
  {
    if HasSum(sums, year) then Share(inner, sums[year]) else map[]
  }

  /** The first year, in the iteration order `order`, on which the division fails. */
  function FirstFailure(order: seq<int>, counts: Counts, sums: map<int, nat>): (r: Option<nat>)
    ensures r.Some? ==> (r.value < |order| && !Divisible(counts, sums, order[r.value]) &&
                         forall j :: 0 <= j < r.value ==> Divisible(counts, sums, order[j]))
    ensures r.None? <==> forall j :: 0 <= j < |order| ==> Divisible(counts, sums, order[j])
    decreases |order|
  {
    if order == [] then None
    else if !Divisible(counts, sums, order[0]) then Some(0)
    else
      var rest := FirstFailure(order[1..], counts, sums);
      if rest.Some? then Some(rest.value + 1) else None
  }

  /** The whole result of counts_to_probabilities when no division fails. */
  function Probabilities(counts: Counts, sums: map<int, nat>): map<int, map<string, real>>
    requires forall y :: y in counts ==> Divisible(counts, sums, y)
  {
    map y | y in counts :: assert Divisible(counts, sums, y); YearShares(counts[y], sums, y)
  }

  /** counts_to_probabilities, with `order` the iteration order of the keys of
      `counts` (the order the years were inserted in). */
  method CountsToProbabilities(counts: Counts, sums: map<int, nat>, order: seq<int>)
    returns (r: Result<map<int, map<string, real>>, YearlyError>)
    requires NoDuplicates(order) && forall y :: y in order <==> y in counts
    ensures r.Ok? <==> forall y :: y in counts ==> Divisible(counts, sums, y)
    ensures r.Ok? ==> r.value == Probabilities(counts, sums)
    ensures r.Err? ==> (FirstFailure(order, counts, sums).Some? &&
                        r.error.year == order[FirstFailure(order, counts, sums).value] &&
                        counts[r.error.year] != map[] &&
                        (r.error.KeyError? <==> r.error.year !in sums))
  {
    var probabilities: map<int, map<string, real>> := map[];
    var i := 0;
    while i < |order|
      invariant 0 <= i <= |order|
      invariant forall j :: 0 <= j < i ==> Divisible(counts, sums, order[j])
      invariant probabilities.Keys == set j | 0 <= j < i :: order[j]
      invariant forall y :: y in probabilities ==>
        (y in counts && Divisible(counts, sums, y) && probabilities[y] == YearShares(counts[y], sums, y))
    {
      var year := order[i];
      if counts[year] != map[] {
        if year !in sums {
          r := Err(KeyError(year));
          return;
        }
        if sums[year] == 0 {
          r := Err(ZeroDivisionError(year));
          return;
        }
      }
      probabilities := probabilities[year := YearShares(counts[year], sums, year)];
      i := i + 1;
    }
    assert forall y :: y in counts ==> Divisible(counts, sums, y) by {
      forall y | y in counts ensures Divisible(counts, sums, y) {
        var j :| 0 <= j < |order| && order[j] == y;
      }
    }
    r := Ok(probabilities);
  }

  /** A year with no disciplines succeeds with no shares, even without a yearly sum. */
  lemma EmptyYearNeedsNoSum()
    ensures FirstFailure([2020], map[2020 := map[]], map[]) == None
    ensures Probabilities(map[2020 := map[]], map[]) == map[2020 := map[]]
  {
    assert Divisible(map[2020 := map[]], map[], 2020);
  }

  /** The sum of the shares of a year over a list of disciplines. */
  function ShareSum(m: map<string, real>, ds: seq<string>): real
    requires Covers(m, ds)
    decreases |ds|
  {
    if ds == [] then 0.0 else m[ds[0]] + ShareSum(m, ds[1..])
  }

  lemma {:induction false} ShareSumScaled(counts: map<string, nat>, total: nat, ds: seq<string>)
    requires total > 0 && Covers(counts, ds)
    ensures Covers(Share(counts, total), ds)
    ensures ShareSum(Share(counts, total), ds) * total as real == SumOver(counts, ds) as real
    decreases |ds|
  {
    if ds != [] {
      ShareSumScaled(counts, total, ds[1..]);
      var m := Share(counts, total);
      calc {
        ShareSum(m, ds) * total as real;
        (m[ds[0]] + ShareSum(m, ds[1..])) * total as real;
        m[ds[0]] * total as real + ShareSum(m, ds[1..]) * total as real;
      }
    }
  }

  lemma UnitFactor(x: real, a: real, b: real)
    requires a > 0.0 && x * a == b && b == a
    ensures x == 1.0
  {
    assert (x - 1.0) * a == 0.0;
  }

  /** Shares of counts that add up to the total add up to one. */
  lemma ShareSumOne(counts: map<string, nat>, total: nat, ds: seq<string>)
    requires total > 0 && Covers(counts, ds) && SumOver(counts, ds) == total
    ensures Covers(Share(counts, total), ds)
    ensures ShareSum(Share(counts, total), ds) == 1.0
  {
    ShareSumScaled(counts, total, ds);
    UnitFactor(ShareSum(Share(counts, total), ds), total as real, SumOver(counts, ds) as real);
  }

  /** The shares of every observed year add up to one. */
  lemma SharesAddUpToOne(t: Table, y: int)
    requires y in YearlyCounts(t)
    ensures y in YearlyDisciplineCounts(t)
    ensures Covers(Share(YearlyDisciplineCounts(t)[y], YearlyCounts(t)[y]), ObservedDisciplines(t))
    ensures ShareSum(Share(YearlyDisciplineCounts(t)[y], YearlyCounts(t)[y]), ObservedDisciplines(t)) == 1.0
  {
    var total := YearlyCounts(t)[y];
    var counts := YearlyDisciplineCounts(t)[y];
    var ds := ObservedDisciplines(t);
    DisciplineCountsAddUp(t, y);
    ShareSumOne(counts, total, ds);
  }

  // ---------------------------------------------------------------------------
  // variety

  /** The shares of a year, listed in the order of the disciplines. */
  function ShareValues(m: map<string, real>, ds: seq<string>): (r: seq<real>)
    requires Covers(m, ds)
    ensures |r| == |ds| && forall i :: 0 <= i < |ds| ==> r[i] == m[ds[i]]
  {
    seq(|ds|, i requires 0 <= i < |ds| => m[ds[i]])
  }

  /** What variety hands to counts_to_probabilities meets its demands. */
  lemma VarietyInputs(t: Table)
    ensures NoDuplicates(ObservedYears(t))
    ensures forall y :: y in ObservedYears(t) <==> y in YearlyDisciplineCounts(t)
    ensures forall y :: y in YearlyDisciplineCounts(t) ==> HasSum(YearlyCounts(t), y)
  {
  }

  /** The entropies of the years `years`, where every year has shares covering `ds`. */
  function Entropies(probabilities: map<int, map<string, real>>, years: seq<int>, ds: seq<string>,
                     entropy: multiset<real> -> real): (r: map<int, real>)
    requires forall y :: y in years ==> y in probabilities && Covers(probabilities[y], ds)
    ensures r.Keys == set y | y in years
    ensures forall y :: y in r ==> r[y] == entropy(multiset(ShareValues(probabilities[y], ds)))
  {
    map y | y in years :: entropy(multiset(ShareValues(probabilities[y], ds)))
  }

  /** variety: the shares of every year and, per observed year, the entropy of its
      shares. `entropy` stands for utils.kl; it receives the shares as a multiset. */
  method Variety(t: Table, entropy: multiset<real> -> real)
    returns (probabilities: map<int, map<string, real>>, entropies: map<int, real>)
    ensures probabilities.Keys == YearlyCounts(t).Keys && entropies.Keys == YearlyCounts(t).Keys
    ensures forall y :: y in probabilities ==>
      (probabilities[y] == Share(YearlyDisciplineCounts(t)[y], YearlyCounts(t)[y]) &&
       Covers(probabilities[y], ObservedDisciplines(t)) &&
       ShareSum(probabilities[y], ObservedDisciplines(t)) == 1.0)
    ensures forall y :: y in entropies ==>
      (y in probabilities &&
       entropies[y] == entropy(multiset(ShareValues(probabilities[y], ObservedDisciplines(t)))))
  {
    var years := ObservedYears(t);
    var counts := YearlyDisciplineCounts(t);
    var sums := YearlyCounts(t);
    var ds := ObservedDisciplines(t);
    VarietyInputs(t);
    var r := CountsToProbabilities(counts, sums, years);
    if r.Err? {
      assert false;
    }
    probabilities := r.value;
    forall y | y in probabilities
      ensures probabilities[y] == Share(counts[y], sums[y]) && Covers(probabilities[y], ds) &&
        ShareSum(probabilities[y], ds) == 1.0
    {
      SharesAddUpToOne(t, y);
    }
    entropies := Entropies(probabilities, years, ds, entropy);
  }
}
