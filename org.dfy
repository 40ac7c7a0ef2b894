// The wellbeing log: one org file per ISO week, one heading per day whose property
// drawer holds the day's scores, turned into a table and compared with its own history.

module Org {
  import opened Wrappers
  import opened Seqs
  import Text
  import Stats

  /** The scored properties, in the order the messages are produced. */
  const Properties: seq<string> := ["Sleep", "Exercise", "Happiness", "Wellbeing", "Eating", "Stress", "Fasting"]
  /** Index of Monday's heading among the top-level headings of a week file. */
  const FirstWeekdayIndex: int := 3
  const DefaultLowerQuantile: real := 0.4
  const DefaultUpperQuantile: real := 0.6

  /** A heading's property drawer, as the org parser returns it. */
  type Drawer = map<string, string>
  /** The drawers of a week file's top-level headings, in file order. */
  type WeekFile = seq<Drawer>

  /** A cell of the loaded table: a property text, or the week number the loader adds. */
  datatype Raw = Str(s: string) | WeekNumber(w: int)
  type DayValues = map<string, Raw>

  datatype LoadError = FileNotFound(week: int) | IndexError(week: int, index: int)

  /** The loaded dictionary: its entries, and its keys in insertion order. */
  datatype Loaded = Loaded(values: map<int, DayValues>, order: seq<int>)

  /** The day key of the heading at `childIndex` in week `week`. */
  function DayKey(week: int, childIndex: int, first: int): int {
    (week - 1) * 7 + (childIndex - first)
  }

  /** Distinct (week, heading) pairs of the seven weekday headings get distinct keys, and
      every non-negative key is the key of exactly such a pair. */
  lemma DayKeyBijective(w1: int, c1: int, w2: int, c2: int, first: int)
    requires first <= c1 < first + 7 && first <= c2 < first + 7
    ensures DayKey(w1, c1, first) == DayKey(w2, c2, first) <==> w1 == w2 && c1 == c2
  {
    if w1 < w2 {
      DayKeyOrder(w1, c1, w2, c2, first);
    } else if w2 < w1 {
      DayKeyOrder(w2, c2, w1, c1, first);
    }
  }

  lemma DayKeyCovers(d: int, first: int)
    requires d >= 0
    ensures d / 7 + 1 >= 1 && first <= first + d % 7 < first + 7
    ensures DayKey(d / 7 + 1, first + d % 7, first) == d
  {
  }

  /** Python's `children[c]` is defined for -n <= c < n. */
  predicate HasChild(children: WeekFile, c: int) {
    -|children| <= c < |children|
  }

  function Child(children: WeekFile, c: int): Drawer
    requires HasChild(children, c)
  {
    if c >= 0 then children[c] else children[|children| + c]
  }

  /** A drawer with the week number added, overriding any `week` property. */
  function WithWeek(d: Drawer, week: int): (r: DayValues)
    ensures r.Keys == d.Keys + {"week"}
    ensures r["week"] == WeekNumber(week)
    ensures forall k :: k in d && k != "week" ==> r[k] == Str(d[k])
  {
    (map k | k in d :: Str(d[k]))["week" := WeekNumber(week)]
  }

  /** The file of week `week` exists and has all seven weekday headings. */
  predicate WeekLoads(files: map<int, WeekFile>, first: int, week: int) {
    week in files && HasChild(files[week], first) && HasChild(files[week], first + 6)
  }

  /** The first weekday heading index a week file lacks. */
  function MissingChild(children: WeekFile, first: int): (c: int)
    requires !(HasChild(children, first) && HasChild(children, first + 6))
    ensures first <= c < first + 7 && !HasChild(children, c)
    ensures forall c' :: first <= c' < c ==> HasChild(children, c')
  {
    if first < -|children| || first >= |children| then first else |children|
  }

  /** The values the loader stores for the heading at `c` in week `week`. */
  function LoadedDay(files: map<int, WeekFile>, first: int, week: int, c: int): DayValues
    requires WeekLoads(files, first, week) && first <= c < first + 7
  {
    WithWeek(Child(files[week], c), week)
  }

  /** Heading `i` of week `v` is stored under its day key. */
  predicate StoredDay(values: map<int, DayValues>, files: map<int, WeekFile>, first: int, v: int, i: int) {
    v in files && HasChild(files[v], i) && DayKey(v, i, first) in values &&
    values[DayKey(v, i, first)] == WithWeek(Child(files[v], i), v)
  }

  /** The weekday headings of the weeks before `week`, and those of week `week` with an
      index below `c`, are stored under their day keys. */
  predicate Stored(values: map<int, DayValues>, files: map<int, WeekFile>, first: int, week: int, c: int) {
    forall v, i :: 1 <= v <= week && first <= i < first + 7 && (v < week || i < c) ==>
      StoredDay(values, files, first, v, i)
  }

  /** Keys of earlier weeks, and of earlier weekdays of the same week, are smaller. */
  lemma DayKeyOrder(v: int, c: int, w: int, c': int, first: int)
    requires first <= c < first + 7 && first <= c'
    requires v < w || (v == w && c < c')
    ensures DayKey(v, c, first) < DayKey(w, c', first)
  {
    if v < w {
      assert (w - 1) * 7 - (v - 1) * 7 == (w - v) * 7 >= 7;
    }
  }

  /** Having stored the seven weekdays of a week is having stored everything before the
      next one. */
  lemma StoredNextWeek(values: map<int, DayValues>, files: map<int, WeekFile>, first: int, week: int)
    requires Stored(values, files, first, week, first + 7)
    ensures Stored(values, files, first, week + 1, first)
  {
    forall v, i | 1 <= v <= week + 1 && first <= i < first + 7 && (v < week + 1 || i < first)
      ensures StoredDay(values, files, first, v, i)
    {
      assert v <= week;
    }
  }

  /** Storing the next weekday under its key keeps everything stored so far. */
  lemma StoredStep(values: map<int, DayValues>, files: map<int, WeekFile>, first: int, week: int, c: int)
    requires Stored(values, files, first, week, c) && first <= c < first + 7
    requires week in files && HasChild(files[week], c)
    ensures Stored(values[DayKey(week, c, first) := WithWeek(Child(files[week], c), week)], files, first, week, c + 1)
  {
    var values' := values[DayKey(week, c, first) := WithWeek(Child(files[week], c), week)];
    forall v, i | 1 <= v <= week && first <= i < first + 7 && (v < week || i < c + 1)
      ensures StoredDay(values', files, first, v, i)
    {
      if v < week || i < c {
        assert StoredDay(values, files, first, v, i);
        DayKeyOrder(v, i, week, c, first);
      }
    }
  }

  lemma StoredAsLoaded(values: map<int, DayValues>, files: map<int, WeekFile>, first: int, maxWeek: int)
    requires Stored(values, files, first, maxWeek + 1, first)
    ensures forall w :: 1 <= w <= maxWeek ==> WeekLoads(files, first, w)
    ensures forall w, c :: 1 <= w <= maxWeek && first <= c < first + 7 ==>
              DayKey(w, c, first) in values && values[DayKey(w, c, first)] == LoadedDay(files, first, w, c)
  {
    forall w | 1 <= w <= maxWeek
      ensures WeekLoads(files, first, w)
    {
      assert StoredDay(values, files, first, w, first) && StoredDay(values, files, first, w, first + 6);
    }
    forall w, c | 1 <= w <= maxWeek && first <= c < first + 7
      ensures DayKey(w, c, first) in values && values[DayKey(w, c, first)] == LoadedDay(files, first, w, c)
    {
      assert StoredDay(values, files, first, w, c);
    }
  }

  /** load_data, with the week files already parsed into `files` (a week absent from
      the map is a file that cannot be opened) and `maxWeek` given. */
  method LoadData(files: map<int, WeekFile>, maxWeek: int, first: int) returns (r: Result<Loaded, LoadError>)
    ensures r.Ok? <==> forall w :: 1 <= w <= maxWeek ==> WeekLoads(files, first, w)
    ensures r.Ok? ==> var n := if maxWeek > 0 then 7 * maxWeek else 0;
                      |r.value.order| == n && (forall i :: 0 <= i < n ==> r.value.order[i] == i) &&
                      (forall d :: d in r.value.values <==> 0 <= d < n)
    ensures r.Ok? ==> forall w, c :: 1 <= w <= maxWeek && first <= c < first + 7 ==>
                        DayKey(w, c, first) in r.value.values &&
                        r.value.values[DayKey(w, c, first)] == LoadedDay(files, first, w, c)
    ensures r.Err? ==> var w := r.error.week;
                       1 <= w <= maxWeek && !WeekLoads(files, first, w) &&
                       (forall v :: 1 <= v < w ==> WeekLoads(files, first, v)) &&
                       (r.error.FileNotFound? <==> w !in files) &&
                       (r.error.IndexError? ==> r.error.index == MissingChild(files[w], first))
  {
    var values: map<int, DayValues> := map[];
    var order: seq<int> := [];
    var week := 1;
    while week <= maxWeek
      invariant 1 <= week <= if maxWeek > 0 then maxWeek + 1 else 1
      invariant forall v :: 1 <= v < week ==> WeekLoads(files, first, v)
      invariant |order| == (week - 1) * 7 && forall i :: 0 <= i < |order| ==> order[i] == i
      invariant forall d :: d in values <==> 0 <= d < (week - 1) * 7
      invariant Stored(values, files, first, week, first)
    {
      if week !in files {
        assert !WeekLoads(files, first, week);
        return Err(FileNotFound(week));
      }
      var children := files[week];
      var childIndex := first;
      while childIndex < first + 7
        invariant first <= childIndex <= first + 7
        invariant forall c :: first <= c < childIndex ==> HasChild(children, c)
        invariant |order| == DayKey(week, childIndex, first) && forall i :: 0 <= i < |order| ==> order[i] == i
        invariant forall d :: d in values <==> 0 <= d < DayKey(week, childIndex, first)
        invariant Stored(values, files, first, week, childIndex)
      {
        if !HasChild(children, childIndex) {
          assert !WeekLoads(files, first, week);
          return Err(IndexError(week, childIndex));
        }
        var dayValues := WithWeek(Child(children, childIndex), week);
        var day := (week - 1) * 7 + (childIndex - first);
        if day !in values {
          order := order + [day];
        }
        StoredStep(values, files, first, week, childIndex);
        values := values[day := dayValues];
        childIndex := childIndex + 1;
      }
      assert WeekLoads(files, first, week) by {
        assert HasChild(children, first) && HasChild(children, first + 6);
      }
      StoredNextWeek(values, files, first, week);
      week := week + 1;
    }
    StoredAsLoaded(values, files, first, week - 1);
    return Ok(Loaded(values, order));
  }

  /** The first week from `w` on, up to `maxWeek`, that does not load. */
  function FirstFailingWeek(files: map<int, WeekFile>, first: int, w: int, maxWeek: int): (r: Option<int>)
    ensures r.Some? ==> w <= r.value <= maxWeek && !WeekLoads(files, first, r.value) &&
                        forall v :: w <= v < r.value ==> WeekLoads(files, first, v)
    ensures r.None? <==> forall v :: w <= v <= maxWeek ==> WeekLoads(files, first, v)
    decreases maxWeek - w
  {
    if w > maxWeek then None
    else if !WeekLoads(files, first, w) then Some(w)
    else FirstFailingWeek(files, first, w + 1, maxWeek)
  }

  /** What load_data produces, stated without its loops: the error of the first week
      that does not load, or the seven weekdays of every week under keys 0, 1, 2, ... */
  function LoadResult(files: map<int, WeekFile>, maxWeek: int, first: int): (r: Result<Loaded, LoadError>)
    ensures r.Ok? ==> LoadedWellFormed(r.value)
  {
    match FirstFailingWeek(files, first, 1, maxWeek)
    case Some(w) =>
      Err(if w !in files then FileNotFound(w) else IndexError(w, MissingChild(files[w], first)))
    case None =>
      Ok(AllDays(files, first, maxWeek))
  }

  /** Day d is weekday d % 7 of week d / 7 + 1. */
  function DayAt(files: map<int, WeekFile>, first: int, maxWeek: int, d: int): DayValues
    requires forall w :: 1 <= w <= maxWeek ==> WeekLoads(files, first, w)
    requires 0 <= d < 7 * maxWeek
  {
    WeekOfKey(d, maxWeek);
    LoadedDay(files, first, d / 7 + 1, first + d % 7)
  }

  /** Days 0 .. 7 * maxWeek - 1, inserted in key order. */
  function AllDays(files: map<int, WeekFile>, first: int, maxWeek: int): (l: Loaded)
    requires forall w :: 1 <= w <= maxWeek ==> WeekLoads(files, first, w)
    ensures LoadedWellFormed(l)
  {
    var n := if maxWeek > 0 then 7 * maxWeek else 0;
    var l := Loaded(map d | 0 <= d < n :: DayAt(files, first, maxWeek, d), seq(n, i => i));
    assert forall d :: d in l.values ==> l.order[d] == d;
    l
  }

  /** The postcondition of LoadData, as one predicate. */
  ghost predicate LoadOutcome(files: map<int, WeekFile>, maxWeek: int, first: int, r: Result<Loaded, LoadError>) {
    (r.Ok? <==> forall w :: 1 <= w <= maxWeek ==> WeekLoads(files, first, w)) &&
    (r.Ok? ==> var n := if maxWeek > 0 then 7 * maxWeek else 0;
               |r.value.order| == n && (forall i :: 0 <= i < n ==> r.value.order[i] == i) &&
               (forall d :: d in r.value.values <==> 0 <= d < n)) &&
    (r.Ok? ==> forall w, c :: 1 <= w <= maxWeek && first <= c < first + 7 ==>
                 DayKey(w, c, first) in r.value.values &&
                 r.value.values[DayKey(w, c, first)] == LoadedDay(files, first, w, c)) &&
    (r.Err? ==> var w := r.error.week;
                1 <= w <= maxWeek && !WeekLoads(files, first, w) &&
                (forall v :: 1 <= v < w ==> WeekLoads(files, first, v)) &&
                (r.error.FileNotFound? <==> w !in files) &&
                (r.error.IndexError? ==> r.error.index == MissingChild(files[w], first)))
  }

  lemma FailingWeekIsFirst(files: map<int, WeekFile>, maxWeek: int, first: int, w: int)
    requires 1 <= w <= maxWeek && !WeekLoads(files, first, w)
    requires forall v :: 1 <= v < w ==> WeekLoads(files, first, v)
    ensures FirstFailingWeek(files, first, 1, maxWeek) == Some(w)
  {
  }

  lemma WeekOfKey(d: int, maxWeek: int)
    requires 0 <= d < 7 * maxWeek
    ensures 1 <= d / 7 + 1 <= maxWeek
  {
  }

  /** Every stored day d holds the weekday d % 7 of week d / 7 + 1. */
  lemma StoredAtKey(files: map<int, WeekFile>, maxWeek: int, first: int, l: Loaded, d: int)
    requires forall w :: 1 <= w <= maxWeek ==> WeekLoads(files, first, w)
    requires forall w, c :: 1 <= w <= maxWeek && first <= c < first + 7 ==>
               DayKey(w, c, first) in l.values && l.values[DayKey(w, c, first)] == LoadedDay(files, first, w, c)
    requires 0 <= d < 7 * maxWeek
    ensures d in l.values && l.values[d] == DayAt(files, first, maxWeek, d)
  {
    DayKeyCovers(d, first);
    WeekOfKey(d, maxWeek);
  }

  lemma SameValues(files: map<int, WeekFile>, maxWeek: int, first: int, l: Loaded)
    requires forall w :: 1 <= w <= maxWeek ==> WeekLoads(files, first, w)
    requires forall d :: d in l.values <==> 0 <= d < (if maxWeek > 0 then 7 * maxWeek else 0)
    requires forall w, c :: 1 <= w <= maxWeek && first <= c < first + 7 ==>
               DayKey(w, c, first) in l.values && l.values[DayKey(w, c, first)] == LoadedDay(files, first, w, c)
    ensures l.values == AllDays(files, first, maxWeek).values
  {
    var n := if maxWeek > 0 then 7 * maxWeek else 0;
    var expected := AllDays(files, first, maxWeek).values;
    assert expected == map d | 0 <= d < n :: DayAt(files, first, maxWeek, d);
    forall d | d in l.values
      ensures d in expected && l.values[d] == expected[d]
    {
      StoredAtKey(files, maxWeek, first, l, d);
    }
    SameMaps(l.values, expected);
  }

  lemma SameMaps<K, V>(a: map<K, V>, b: map<K, V>)
    requires forall k :: k in a ==> k in b && a[k] == b[k]
    requires forall k :: k in b ==> k in a
    ensures a == b
  {
  }

  lemma LoadedIsLoadResult(files: map<int, WeekFile>, maxWeek: int, first: int, l: Loaded)
    requires forall w :: 1 <= w <= maxWeek ==> WeekLoads(files, first, w)
    requires var n := if maxWeek > 0 then 7 * maxWeek else 0;
             |l.order| == n && (forall i :: 0 <= i < n ==> l.order[i] == i) &&
             (forall d :: d in l.values <==> 0 <= d < n)
    requires forall w, c :: 1 <= w <= maxWeek && first <= c < first + 7 ==>
               DayKey(w, c, first) in l.values && l.values[DayKey(w, c, first)] == LoadedDay(files, first, w, c)
    ensures LoadResult(files, maxWeek, first) == Ok(l)
  {
    assert FirstFailingWeek(files, first, 1, maxWeek).None?;
    SameValues(files, maxWeek, first, l);
    SameOrder(files, maxWeek, first, l.order);
    assert LoadResult(files, maxWeek, first).value == AllDays(files, first, maxWeek);
  }

  lemma SameOrder(files: map<int, WeekFile>, maxWeek: int, first: int, order: seq<int>)
    requires forall w :: 1 <= w <= maxWeek ==> WeekLoads(files, first, w)
    requires var n := if maxWeek > 0 then 7 * maxWeek else 0;
             |order| == n && (forall i :: 0 <= i < n ==> order[i] == i)
    ensures order == AllDays(files, first, maxWeek).order
  {
  }

  /** The postcondition of LoadData determines its result: it is LoadResult. */
  lemma LoadOutcomeIsLoadResult(files: map<int, WeekFile>, maxWeek: int, first: int, r: Result<Loaded, LoadError>)
    requires LoadOutcome(files, maxWeek, first, r)
    ensures r == LoadResult(files, maxWeek, first)
  {
    if r.Err? {
      FailingWeekIsFirst(files, maxWeek, first, r.error.week);
    } else {
      LoadedIsLoadResult(files, maxWeek, first, r.value);
    }
  }

  /** A processed row: the day key, the integer week, and the non-missing cells. */
  datatype OrgRow = OrgRow(day: int, week: int, cells: map<string, real>)
  /** A processed table: its columns and its rows in day order. */
  datatype Frame = Frame(columns: set<string>, rows: seq<OrgRow>)

  datatype OrgError = KeyError(key: string) | ValueError

  /** A cell `astype(float16)` accepts once "x" has become missing. */
  predicate Convertible(raw: Raw) {
    raw.WeekNumber? || raw.s == "x" || Text.ParseDecimal(raw.s).Some?
  }

  /** The cell's number, or None when it is missing. */
  function Numeric(raw: Raw): Option<real>
    requires Convertible(raw)
  {
    match raw
    case WeekNumber(w) => Some(w as real)
    case Str(s) => if s == "x" then None else Text.ParseDecimal(s)
  }

  /** `astype(int)` truncates toward zero. */
  function Truncate(x: real): (i: int)
    ensures -1.0 < x - i as real < 1.0
    ensures x >= 0.0 ==> 0.0 <= i as real <= x
    ensures x < 0.0 ==> x <= i as real <= 0.0
  {
    if x >= 0.0 then x.Floor else -((-x).Floor)
  }

  /** The insertion order lists exactly the dictionary's keys, once each. */
  predicate LoadedWellFormed(l: Loaded) {
    (forall d :: d in l.values ==> d in l.order) && (forall i :: 0 <= i < |l.order| ==> l.order[i] in l.values) &&
    NoDuplicates(l.order)
  }

  /** A dictionary's insertion order cannot list a key twice. */
  lemma RepeatedKeyRejected()
    ensures !LoadedWellFormed(Loaded(map[0 := map[]], [0, 0]))
  {
    var order := [0, 0];
    assert order[0] == order[1];
  }

  /** Every column of the loaded table. */
  function LoadedColumns(l: Loaded): set<string> {
    set d, k | d in l.values && k in l.values[d] :: k
  }

  predicate DayConvertible(dv: DayValues) {
    forall k :: k in dv ==> Convertible(dv[k])
  }

  predicate AllConvertible(l: Loaded) {
    forall d :: d in l.values ==> DayConvertible(l.values[d])
  }

  /** The week cell of a day has a number. */
  predicate HasWeek(dv: DayValues) {
    "week" in dv && Convertible(dv["week"]) && Numeric(dv["week"]).Some?
  }

  /** One processed day: "x" is missing rather than zero, every other cell is its number,
      and the week is an integer. */
  function ProcessRow(day: int, dv: DayValues): (row: OrgRow)
    requires DayConvertible(dv) && HasWeek(dv)
    ensures row.day == day
    ensures dv["week"].WeekNumber? ==> row.week == dv["week"].w
    ensures forall k :: k in row.cells ==> k in dv
    ensures forall k :: k in dv && k != "week" ==> (k in row.cells <==> dv[k] != Str("x"))
    ensures forall k :: k in dv && k != "week" && dv[k] != Str("x") ==> Some(row.cells[k]) == Numeric(dv[k])
  {
    var week := Truncate(Numeric(dv["week"]).value);
    OrgRow(day, week,
           map k | k in dv && Numeric(dv[k]).Some? :: if k == "week" then week as real else Numeric(dv[k]).value)
  }

  /** process_data. A text that is not a number is a ValueError; with no week column at
      all, or no row at all, the week lookup is a KeyError; a day without a week number
      is a ValueError. */
  function ProcessData(l: Loaded): (r: Result<Frame, OrgError>)
    requires LoadedWellFormed(l)
    ensures r.Ok? <==> AllConvertible(l) && l.order != [] && forall d :: d in l.values ==> HasWeek(l.values[d])
    ensures r == Err(KeyError("week")) <==> AllConvertible(l) && forall d :: d in l.values ==> "week" !in l.values[d]
    ensures r.Err? && r != Err(KeyError("week")) ==> r == Err(ValueError)
    ensures r.Ok? ==> r.value.columns == LoadedColumns(l) && |r.value.rows| == |l.order| &&
                      forall i :: 0 <= i < |l.order| ==> r.value.rows[i] == ProcessRow(l.order[i], l.values[l.order[i]])
  {
    if !AllConvertible(l) then Err(ValueError)
    else if forall d :: d in l.values ==> "week" !in l.values[d] then
      NoWeekColumn(l);
      Err(KeyError("week"))
    else if exists d :: d in l.values && !HasWeek(l.values[d]) then Err(ValueError)
    else
      ReadyToProcess(l);
      Ok(Frame(LoadedColumns(l), seq(|l.order|, i requires 0 <= i < |l.order| => ProcessRow(l.order[i], l.values[l.order[i]]))))
  }

  /** Without a week column, some day has no week number, unless there is no day. */
  lemma NoWeekColumn(l: Loaded)
    requires LoadedWellFormed(l) && forall d :: d in l.values ==> "week" !in l.values[d]
    ensures !(l.order != [] && forall d :: d in l.values ==> HasWeek(l.values[d]))
  {
    if l.order != [] {
      var d := l.order[0];
      assert d in l.values && !HasWeek(l.values[d]);
    }
  }

  lemma ReadyToProcess(l: Loaded)
    requires LoadedWellFormed(l) && AllConvertible(l) && forall d :: d in l.values ==> HasWeek(l.values[d])
    ensures forall i :: 0 <= i < |l.order| ==>
              (l.order[i] in l.values && DayConvertible(l.values[l.order[i]]) && HasWeek(l.values[l.order[i]]))
  {
    forall i | 0 <= i < |l.order|
      ensures l.order[i] in l.values && DayConvertible(l.values[l.order[i]]) && HasWeek(l.values[l.order[i]])
    {
      var d := l.order[i];
      assert d in l.values;
    }
  }

  // ----- The current and the previous week -----

  function WeekIs(week: int): OrgRow -> bool { (row: OrgRow) => row.week == week }

  /** _df_this_week, with the current ISO week given: every row of the week, each copy
      of it, in order, and nothing else. */
  function ThisWeek(f: Frame, week: int): (r: Frame)
    ensures r.columns == f.columns && IsSubsequence(r.rows, f.rows)
    ensures forall row :: row in r.rows <==> row in f.rows && row.week == week
    ensures |r.rows| == Count(f.rows, WeekIs(week))
    ensures forall row :: multiset(r.rows)[row] == if row.week == week then multiset(f.rows)[row] else 0
  {
    FilterLength(f.rows, WeekIs(week));
    FilterMultiplicity(f.rows, WeekIs(week));
    Frame(f.columns, Filter(f.rows, WeekIs(week)))
  }

  /** _df_last_week: the week before the given current week. */
  function LastWeek(f: Frame, week: int): (r: Frame)
    ensures r.columns == f.columns && IsSubsequence(r.rows, f.rows)
    ensures forall row :: row in r.rows <==> row in f.rows && row.week == week - 1
    ensures |r.rows| == Count(f.rows, WeekIs(week - 1))
    ensures forall row :: multiset(r.rows)[row] == if row.week == week - 1 then multiset(f.rows)[row] else 0
  {
    ThisWeek(f, week - 1)
  }

  /** This week and last week share no row. */
  lemma WeeksDisjoint(f: Frame, week: int, row: OrgRow)
    ensures !(row in ThisWeek(f, week).rows && row in LastWeek(f, week).rows)
  {
  }

  // ----- The weekly messages -----

  /** A column's non-missing values, in row order. */
  function ColumnValues(rows: seq<OrgRow>, column: string): (v: seq<real>)
    ensures |v| <= |rows|
    ensures (forall i :: 0 <= i < |rows| ==> column !in rows[i].cells) <==> v == []
  {
    if rows == [] then []
    else (if column in rows[0].cells then [rows[0].cells[column]] else []) + ColumnValues(rows[1..], column)
  }

  /** A comparison in which a NaN on either side is false. */
  predicate Less(a: Option<real>, b: Option<real>) {
    a.Some? && b.Some? && a.value < b.value
  }

  function NotSoGreat(column: string): string {
    "Oh. " + column + " was not so great this week."
  }

  function Splendid(column: string): string {
    "Jeez! " + column + " was truly splendid this week."
  }

  lemma MessagesDiffer(c1: string, c2: string)
    ensures NotSoGreat(c1) != Splendid(c2)
  {
    assert NotSoGreat(c1)[0] != Splendid(c2)[0];
  }

  function LowerThreshold(f: Frame, column: string, lower: real): Option<real>
    requires 0.0 <= lower <= 1.0
  {
    Stats.Quantile(ColumnValues(f.rows, column), lower)
  }

  function UpperThreshold(f: Frame, column: string, upper: real): Option<real>
    requires 0.0 <= upper <= 1.0
  {
    Stats.Quantile(ColumnValues(f.rows, column), upper)
  }

  function WeekMean(f: Frame, week: int, column: string): Option<real> {
    Stats.Mean(ColumnValues(ThisWeek(f, week).rows, column))
  }

  /** Which reading of the Stress comparison a run follows. As written, Stress swaps the
      two operators but keeps the thresholds, so "not so great" is a mean above the lower
      threshold and "splendid" one below the upper threshold. Corrected, it mirrors both:
      "not so great" above the upper threshold and "splendid" below the lower one. Every
      other column compares the same way under both readings. */
  datatype Reading = AsWritten | Corrected

  /** The comparison that sends "not so great". */
  predicate Negative(reading: Reading, column: string, lo: Option<real>, hi: Option<real>, mean: Option<real>) {
    if column != "Stress" then Less(mean, lo)
    else if reading == AsWritten then Less(lo, mean)
    else Less(hi, mean)
  }

  /** The comparison that sends "splendid". */
  predicate Positive(reading: Reading, column: string, lo: Option<real>, hi: Option<real>, mean: Option<real>) {
    if column != "Stress" then Less(hi, mean)
    else if reading == AsWritten then Less(mean, hi)
    else Less(mean, lo)
  }

  /** What one column sends, given the two thresholds and this week's mean: a NaN on
      either side of a comparison sends nothing. */
  function Verdict(reading: Reading, column: string, lo: Option<real>, hi: Option<real>, mean: Option<real>): seq<string> {
    (if Negative(reading, column, lo, hi, mean) then [NotSoGreat(column)] else []) +
    (if Positive(reading, column, lo, hi, mean) then [Splendid(column)] else [])
  }

  /** The messages of one column; a column the table lacks is a KeyError. */
  function ColumnMessages(reading: Reading, f: Frame, week: int, column: string, lower: real, upper: real): Result<seq<string>, OrgError>
    requires 0.0 <= lower <= 1.0 && 0.0 <= upper <= 1.0
  {
    if column !in f.columns then Err(KeyError(column))
    else Ok(Verdict(reading, column, LowerThreshold(f, column, lower), UpperThreshold(f, column, upper), WeekMean(f, week, column)))
  }

  /** The messages of the columns in order, each column's from `messages`; the first
      failing column is the error. */
  function MessagesOf(columns: seq<string>, messages: string -> Result<seq<string>, OrgError>): Result<seq<string>, OrgError> {
    if columns == [] then Ok([])
    else
      var head := messages(columns[0]);
      if head.Err? then head else After(head.value, MessagesOf(columns[1..], messages))
  }

  /** Messages already sent, followed by the outcome of the remaining columns. */
  function After(sent: seq<string>, rest: Result<seq<string>, OrgError>): Result<seq<string>, OrgError> {
    if rest.Err? then rest else Ok(sent + rest.value)
  }

  function ColumnMessagesOf(reading: Reading, f: Frame, week: int, lower: real, upper: real): string -> Result<seq<string>, OrgError>
    requires 0.0 <= lower <= 1.0 && 0.0 <= upper <= 1.0
  {
    (column: string) => ColumnMessages(reading, f, week, column, lower, upper)
  }

  function Messages(reading: Reading, f: Frame, week: int, columns: seq<string>, lower: real, upper: real): Result<seq<string>, OrgError>
    requires 0.0 <= lower <= 1.0 && 0.0 <= upper <= 1.0
  {
    MessagesOf(columns, ColumnMessagesOf(reading, f, week, lower, upper))
  }

  /** Appending the negative message and then the positive one appends the verdict. */
  lemma VerdictAppended(before: seq<string>, after: seq<string>, verdict: seq<string>,
                        negative: bool, positive: bool, column: string)
    requires verdict == (if negative then [NotSoGreat(column)] else []) + (if positive then [Splendid(column)] else [])
    requires after == (if negative then before + [NotSoGreat(column)] else before) +
                      (if positive then [Splendid(column)] else [])
    ensures after == before + verdict
  {
  }

  /** The messages of a column the table has are its verdict. */
  lemma ColumnMessagesAt(reading: Reading, f: Frame, week: int, column: string, lower: real, upper: real)
    requires 0.0 <= lower <= 1.0 && 0.0 <= upper <= 1.0 && column in f.columns
    ensures ColumnMessagesOf(reading, f, week, lower, upper)(column) ==
            Ok(Verdict(reading, column, LowerThreshold(f, column, lower), UpperThreshold(f, column, upper),
                       Stats.Mean(ColumnValues(ThisWeek(f, week).rows, column))))
  {
  }

  /** The body of messages_this_week's loop for one column the table has: the two
      thresholds, this week's mean, then the negative and the positive message. */
  method AppendColumnMessages(reading: Reading, f: Frame, thisWeek: Frame, week: int, column: string,
                              lower: real, upper: real, messages: seq<string>) returns (after: seq<string>)
    requires 0.0 <= lower <= 1.0 && 0.0 <= upper <= 1.0 && thisWeek == ThisWeek(f, week)
    ensures after == messages + Verdict(reading, column, LowerThreshold(f, column, lower),
                                        UpperThreshold(f, column, upper), WeekMean(f, week, column))
  {
    var lowerThreshold := LowerThreshold(f, column, lower);
    var upperThreshold := UpperThreshold(f, column, upper);
    var mean := Stats.Mean(ColumnValues(thisWeek.rows, column));
    var negative := Negative(reading, column, lowerThreshold, upperThreshold, mean);
    var positive := Positive(reading, column, lowerThreshold, upperThreshold, mean);
    after := messages;
    if negative {
      after := after + [NotSoGreat(column)];
    }
    if positive {
      after := after + [Splendid(column)];
    }
    VerdictAppended(messages, after, Verdict(reading, column, lowerThreshold, upperThreshold, mean), negative, positive, column);
  }

  /** messages_this_week, with the current week given; `reading` AsWritten is the loop
      as the source has it. Quantile levels outside [0, 1] make pandas raise; the model
      asks for levels inside. */
  method MessagesThisWeek(reading: Reading, f: Frame, week: int, columns: seq<string>, lower: real, upper: real)
    returns (r: Result<seq<string>, OrgError>)
    requires 0.0 <= lower <= 1.0 && 0.0 <= upper <= 1.0
    ensures r == Messages(reading, f, week, columns, lower, upper)
  {
    var thisWeek := ThisWeek(f, week);
    ghost var cm := ColumnMessagesOf(reading, f, week, lower, upper);
    var messages: seq<string> := [];
    var i := 0;
    assert columns[0..] == columns;
    AfterNothing(MessagesOf(columns, cm));
    while i < |columns|
      invariant 0 <= i <= |columns|
      invariant MessagesOf(columns, cm) == After(messages, MessagesOf(columns[i..], cm))
    {
      var column := columns[i];
      if column !in f.columns {
        MessagesUnfold(columns, i, cm);
        return Err(KeyError(column));
      }
      ghost var before := messages;
      ghost var verdict := Verdict(reading, column, LowerThreshold(f, column, lower), UpperThreshold(f, column, upper),
                                   WeekMean(f, week, column));
      messages := AppendColumnMessages(reading, f, thisWeek, week, column, lower, upper, messages);
      ColumnMessagesAt(reading, f, week, column, lower, upper);
      MessagesUnfold(columns, i, cm);
      AfterAssociates(before, verdict, MessagesOf(columns[i + 1..], cm));
      i := i + 1;
    }
    assert columns[i..] == [];
    assert messages + [] == messages;
    r := Ok(messages);
  }

  /** For a column other than Stress, "not so great" is sent exactly when this week's
      mean is below the lower quantile of all the column's values, and "splendid" exactly
      when it is above the upper quantile. For Stress as written, "not so great" is a mean
      above the lower quantile and "splendid" one below the upper quantile; corrected,
      "not so great" is a mean above the upper quantile and "splendid" one below the lower
      quantile. */
  lemma ColumnMessagesMeaning(reading: Reading, f: Frame, week: int, column: string, lower: real, upper: real)
    requires 0.0 <= lower <= 1.0 && 0.0 <= upper <= 1.0 && column in f.columns
    ensures var m := ColumnMessages(reading, f, week, column, lower, upper);
            var all, mean := ColumnValues(f.rows, column), Stats.Mean(ColumnValues(ThisWeek(f, week).rows, column));
            m.Ok? &&
            (column != "Stress" ==>
              (NotSoGreat(column) in m.value <==> mean.Some? && all != [] && mean.value < Stats.Quantile(all, lower).value) &&
              (Splendid(column) in m.value <==> mean.Some? && all != [] && mean.value > Stats.Quantile(all, upper).value)) &&
            (column == "Stress" && reading == AsWritten ==>
              (NotSoGreat(column) in m.value <==> mean.Some? && all != [] && mean.value > Stats.Quantile(all, lower).value) &&
              (Splendid(column) in m.value <==> mean.Some? && all != [] && mean.value < Stats.Quantile(all, upper).value)) &&
            (column == "Stress" && reading == Corrected ==>
              (NotSoGreat(column) in m.value <==> mean.Some? && all != [] && mean.value > Stats.Quantile(all, upper).value) &&
              (Splendid(column) in m.value <==> mean.Some? && all != [] && mean.value < Stats.Quantile(all, lower).value))
  {
    var lo, hi := LowerThreshold(f, column, lower), UpperThreshold(f, column, upper);
    VerdictMeaning(reading, column, lo, hi, WeekMean(f, week, column));
  }

  /** The negative message is in a verdict exactly when its comparison holds, and so is
      the positive one. */
  lemma VerdictMeaning(reading: Reading, column: string, lo: Option<real>, hi: Option<real>, mean: Option<real>)
    ensures NotSoGreat(column) in Verdict(reading, column, lo, hi, mean) <==> Negative(reading, column, lo, hi, mean)
    ensures Splendid(column) in Verdict(reading, column, lo, hi, mean) <==> Positive(reading, column, lo, hi, mean)
  {
    MessagesDiffer(column, column);
  }

  /** Within a column the negative message comes first. */
  lemma ColumnMessagesOrder(reading: Reading, f: Frame, week: int, column: string, lower: real, upper: real)
    requires 0.0 <= lower <= 1.0 && 0.0 <= upper <= 1.0 && column in f.columns
    ensures var m := ColumnMessages(reading, f, week, column, lower, upper).value;
            |m| <= 2 && (|m| == 2 ==> m == [NotSoGreat(column), Splendid(column)])
  {
  }

  /** Both thresholds of a column come from the same values, so the lower level never
      gives the higher threshold. */
  lemma ThresholdsOrdered(f: Frame, column: string, lower: real, upper: real)
    requires 0.0 <= lower <= upper <= 1.0
    ensures var lo, hi := LowerThreshold(f, column, lower), UpperThreshold(f, column, upper);
            lo.Some? <==> hi.Some?
    ensures var lo, hi := LowerThreshold(f, column, lower), UpperThreshold(f, column, upper);
            lo.Some? ==> lo.value <= hi.value
  {
    var all := ColumnValues(f.rows, column);
    if all != [] {
      Stats.QuantileMonotone(all, lower, upper);
    }
  }

  /** A mean cannot be both below the lower and above the upper threshold. */
  lemma VerdictAtMostOne(column: string, lo: Option<real>, hi: Option<real>, mean: Option<real>)
    requires lo.Some? && hi.Some? ==> lo.value <= hi.value
    ensures |Verdict(Corrected, column, lo, hi, mean)| <= 1
  {
  }

  /** Corrected, with the lower level not above the upper one, no column sends both
      messages. */
  lemma NeverBoth(f: Frame, week: int, column: string, lower: real, upper: real)
    requires 0.0 <= lower <= upper <= 1.0
    ensures var m := ColumnMessages(Corrected, f, week, column, lower, upper);
            m.Ok? ==> |m.value| <= 1
  {
    if column in f.columns {
      ThresholdsOrdered(f, column, lower, upper);
      VerdictAtMostOne(column, LowerThreshold(f, column, lower), UpperThreshold(f, column, upper), WeekMean(f, week, column));
    }
  }

  /** A column with no value this week (a NaN mean) sends nothing. */
  lemma NoValueNoMessage(reading: Reading, f: Frame, week: int, column: string, lower: real, upper: real)
    requires 0.0 <= lower <= 1.0 && 0.0 <= upper <= 1.0 && column in f.columns
    requires forall row :: row in f.rows && row.week == week ==> column !in row.cells
    ensures ColumnMessages(reading, f, week, column, lower, upper) == Ok([])
  {
    var rows := ThisWeek(f, week).rows;
    forall i | 0 <= i < |rows| ensures column !in rows[i].cells {
      assert rows[i] in rows;
    }
    assert ColumnValues(rows, column) == [];
    assert WeekMean(f, week, column) == None;
    VerdictNoMean(reading, column, LowerThreshold(f, column, lower), UpperThreshold(f, column, upper));
  }

  /** A NaN mean compares false both ways. */
  lemma VerdictNoMean(reading: Reading, column: string, lo: Option<real>, hi: Option<real>)
    ensures Verdict(reading, column, lo, hi, None) == []
  {
  }

  /** The remaining columns from `i` on: column `i`'s messages, then the rest. */
  lemma MessagesUnfold(columns: seq<string>, i: nat, messages: string -> Result<seq<string>, OrgError>)
    requires i < |columns|
    ensures messages(columns[i]).Err? ==> MessagesOf(columns[i..], messages) == messages(columns[i])
    ensures messages(columns[i]).Ok? ==>
              MessagesOf(columns[i..], messages) == After(messages(columns[i]).value, MessagesOf(columns[i + 1..], messages))
  {
    assert columns[i..][0] == columns[i] && columns[i..][1..] == columns[i + 1..];
  }

  lemma AppendNothing(s: seq<string>)
    ensures s + [] == s
  {
  }

  lemma AppendAssociates(a: seq<string>, b: seq<string>, c: seq<string>)
    ensures (a + b) + c == a + (b + c)
  {
  }

  lemma AfterNothing(rest: Result<seq<string>, OrgError>)
    ensures After([], rest) == rest
  {
    if rest.Ok? {
      assert [] + rest.value == rest.value;
    }
  }

  lemma AfterAssociates(a: seq<string>, b: seq<string>, rest: Result<seq<string>, OrgError>)
    ensures After(a, After(b, rest)) == After(a + b, rest)
  {
    if rest.Ok? {
      assert a + (b + rest.value) == (a + b) + rest.value;
    }
  }

  /** The messages of two runs of columns are the messages of the first run followed by
      those of the second: messages appear in column order. */
  lemma {:induction false} MessagesConcat(c1: seq<string>, c2: seq<string>, messages: string -> Result<seq<string>, OrgError>)
    requires MessagesOf(c1, messages).Ok?
    ensures MessagesOf(c1 + c2, messages) == After(MessagesOf(c1, messages).value, MessagesOf(c2, messages))
    decreases |c1|
  {
    if c1 == [] {
      assert c1 + c2 == c2;
      if MessagesOf(c2, messages).Ok? {
        assert [] + MessagesOf(c2, messages).value == MessagesOf(c2, messages).value;
      }
    } else {
      assert (c1 + c2)[0] == c1[0] && (c1 + c2)[1..] == c1[1..] + c2;
      var head := messages(c1[0]);
      MessagesConcat(c1[1..], c2, messages);
      AfterAssociates(head.value, MessagesOf(c1[1..], messages).value, MessagesOf(c2, messages));
    }
  }

  /** The first failing column is the error, whatever follows it. */
  lemma {:induction false} MessagesFirstError(c1: seq<string>, c2: seq<string>, messages: string -> Result<seq<string>, OrgError>)
    requires MessagesOf(c1, messages).Err?
    ensures MessagesOf(c1 + c2, messages) == MessagesOf(c1, messages)
    decreases |c1|
  {
    assert c1 != [];
    assert (c1 + c2)[0] == c1[0] && (c1 + c2)[1..] == c1[1..] + c2;
    if messages(c1[0]).Ok? {
      MessagesFirstError(c1[1..], c2, messages);
    }
  }

  /** When no column sends more than one message, there are at most as many messages as
      columns. */
  lemma {:induction false} AtMostOnePerColumn(columns: seq<string>, messages: string -> Result<seq<string>, OrgError>)
    requires forall c :: c in columns && messages(c).Ok? ==> |messages(c).value| <= 1
    ensures MessagesOf(columns, messages).Ok? ==> |MessagesOf(columns, messages).value| <= |columns|
    decreases |columns|
  {
    if columns != [] {
      assert columns[0] in columns;
      assert forall c :: c in columns[1..] ==> c in columns;
      AtMostOnePerColumn(columns[1..], messages);
    }
  }

  /** Corrected, the lower level not above the upper gives at most one message per
      column. */
  lemma MessagesAtMostOnePerColumn(f: Frame, week: int, columns: seq<string>, lower: real, upper: real)
    requires 0.0 <= lower <= upper <= 1.0
    ensures var m := Messages(Corrected, f, week, columns, lower, upper);
            m.Ok? ==> |m.value| <= |columns|
  {
    var cm := ColumnMessagesOf(Corrected, f, week, lower, upper);
    forall c | c in columns && cm(c).Ok? ensures |cm(c).value| <= 1 {
      NeverBoth(f, week, c, lower, upper);
    }
    AtMostOnePerColumn(columns, cm);
  }

  // ----- Stress compares against the wrong thresholds -----

  /** A Stress series where this week's mean lies between the two thresholds. */
  function StressFrame(): Frame {
    Frame({"Stress", "week"}, [OrgRow(0, 1, map["Stress" := 1.0, "week" := 1.0]), OrgRow(1, 1, map["Stress" := 5.0, "week" := 1.0])])
  }

  lemma SortPair(a: real, b: real)
    requires a <= b
    ensures Stats.Sort([a, b]) == [a, b]
  {
    assert [a, b][1..] == [b];
    assert Stats.Sort([b]) == Stats.Insert(b, []) == [b];
  }

  lemma StressFrameColumn()
    ensures ColumnValues(StressFrame().rows, "Stress") == [1.0, 5.0]
    ensures ColumnValues(ThisWeek(StressFrame(), 1).rows, "Stress") == [1.0, 5.0]
  {
    var f := StressFrame();
    assert f.rows[1..][1..] == [];
    assert ThisWeek(f, 1).rows == f.rows by {
      FilterAll(f.rows, WeekIs(1));
    }
  }

  /** The 0.4- and 0.6-quantiles of 1 and 5 are 2.6 and 3.4, and their mean is 3. */
  lemma PairNumbers()
    ensures Stats.Quantile([1.0, 5.0], 0.4) == Some(2.6)
    ensures Stats.Quantile([1.0, 5.0], 0.6) == Some(3.4)
    ensures Stats.Mean([1.0, 5.0]) == Some(3.0)
  {
    SortPair(1.0, 5.0);
    assert Stats.Position(2, 0.4) == 0.4 && (0.4).Floor == 0;
    assert Stats.Position(2, 0.6) == 0.6 && (0.6).Floor == 0;
    assert [1.0, 5.0][1..] == [5.0] && [5.0][1..] == [];
  }

  /** In StressFrame with the default levels the thresholds are 2.6 and 3.4 and this
      week's mean is 3. */
  lemma StressFrameNumbers()
    ensures LowerThreshold(StressFrame(), "Stress", DefaultLowerQuantile) == Some(2.6)
    ensures UpperThreshold(StressFrame(), "Stress", DefaultUpperQuantile) == Some(3.4)
    ensures WeekMean(StressFrame(), 1, "Stress") == Some(3.0)
  {
    StressFrameColumn();
    PairNumbers();
  }

  /** In StressFrame with the default levels, this week's mean lies strictly between
      the two thresholds. */
  lemma StressFrameBetween()
    ensures var f := StressFrame();
            var lo, hi, mean := LowerThreshold(f, "Stress", DefaultLowerQuantile),
                                UpperThreshold(f, "Stress", DefaultUpperQuantile), WeekMean(f, 1, "Stress");
            Less(lo, mean) && Less(mean, hi)
  {
    StressFrameColumn();
    PairNumbers();
  }

  /** As written, a Stress mean strictly between the lower and the upper threshold sends
      both messages; StressFrameBetween shows this happens with the default levels. */
  lemma StressSendsBoth(f: Frame, week: int, lower: real, upper: real)
    requires 0.0 <= lower <= 1.0 && 0.0 <= upper <= 1.0 && "Stress" in f.columns
    requires Less(LowerThreshold(f, "Stress", lower), WeekMean(f, week, "Stress"))
    requires Less(WeekMean(f, week, "Stress"), UpperThreshold(f, "Stress", upper))
    ensures ColumnMessages(AsWritten, f, week, "Stress", lower, upper) == Ok([NotSoGreat("Stress"), Splendid("Stress")])
  {
    var lo, hi, mean := LowerThreshold(f, "Stress", lower), UpperThreshold(f, "Stress", upper), WeekMean(f, week, "Stress");
    VerdictStressBoth("Stress", lo, hi, mean);
  }

  lemma VerdictStressBoth(column: string, lo: Option<real>, hi: Option<real>, mean: Option<real>)
    requires column == "Stress" && Less(lo, mean) && Less(mean, hi)
    ensures Verdict(AsWritten, column, lo, hi, mean) == [NotSoGreat(column), Splendid(column)]
  {
    assert !(column != "Stress");
  }

  /** Corrected, a Stress mean strictly between the two thresholds sends nothing. */
  lemma StressBetweenSilent(f: Frame, week: int, lower: real, upper: real)
    requires 0.0 <= lower <= 1.0 && 0.0 <= upper <= 1.0 && "Stress" in f.columns
    requires Less(LowerThreshold(f, "Stress", lower), WeekMean(f, week, "Stress"))
    requires Less(WeekMean(f, week, "Stress"), UpperThreshold(f, "Stress", upper))
    ensures ColumnMessages(Corrected, f, week, "Stress", lower, upper) == Ok([])
  {
    var lo, hi, mean := LowerThreshold(f, "Stress", lower), UpperThreshold(f, "Stress", upper), WeekMean(f, week, "Stress");
    VerdictStressNone("Stress", lo, hi, mean);
  }

  lemma VerdictStressNone(column: string, lo: Option<real>, hi: Option<real>, mean: Option<real>)
    requires column == "Stress" && Less(lo, mean) && Less(mean, hi)
    ensures Verdict(Corrected, column, lo, hi, mean) == []
  {
    assert !(column != "Stress");
  }

  /** As written, the Stress week of StressFrame sends both messages. */
  lemma StressFrameAsWritten()
    ensures ColumnMessages(AsWritten, StressFrame(), 1, "Stress", DefaultLowerQuantile, DefaultUpperQuantile) ==
            Ok([NotSoGreat("Stress"), Splendid("Stress")])
  {
    StressFrameBetween();
    StressSendsBoth(StressFrame(), 1, DefaultLowerQuantile, DefaultUpperQuantile);
  }

  /** Corrected, the Stress week of StressFrame sends nothing. */
  lemma StressFrameCorrected()
    ensures ColumnMessages(Corrected, StressFrame(), 1, "Stress", DefaultLowerQuantile, DefaultUpperQuantile) == Ok([])
  {
    StressFrameBetween();
    StressBetweenSilent(StressFrame(), 1, DefaultLowerQuantile, DefaultUpperQuantile);
  }

  /** The correction changes Stress only: every other column gets the same verdict
      under both readings. */
  lemma AsWrittenAgreesOutsideStress(column: string, lo: Option<real>, hi: Option<real>, mean: Option<real>)
    requires column != "Stress"
    ensures Verdict(AsWritten, column, lo, hi, mean) == Verdict(Corrected, column, lo, hi, mean)
  {
  }
}
