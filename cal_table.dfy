/** monitoring/cal.py, first half: calendar events, the summary and colour filters,
    the observation table that get_dataframe builds, and the selection of the rows
    that fall on a given day or ISO week. */
module CalTable {
  import opened Wrappers
  import opened Seqs
  import Text
  import Dates
  import Utils

  /** A calendar event as the calendar API hands it over, reduced to the fields the
      monitor reads; a field the event does not carry is None. `startDateTime` is
      `event["start"]["dateTime"]`. */
  datatype Event = Event(summary: Option<string>, description: Option<string>,
                         colorId: Option<string>, startDateTime: Option<string>)

  /** The exceptions building and filtering the table can raise. */
  datatype CalError =
    | KeyError(key: string)              // a field get_dataframe indexes is absent
    | DateParseError(text: string)       // pd.to_datetime rejects the timestamp text
    | NumberParseError(text: string)     // pd.to_numeric rejects the distance text
    | UnboundFilter(kind: string)        // get_filtered_events called with an unknown filter kind

  /** The summary filter: for "gym" any event whose lower-cased summary starts with
      "gym"; for every other value, events that carry a description and whose
      lower-cased summary equals the value exactly. */
  predicate SummaryMatches(summary: string, e: Event) {
    if summary == Utils.Sport.Gym.Value() then
      e.summary.Some? && Text.StartsWith(Text.Lower(e.summary.value), summary)
    else
      e.summary.Some? && e.description.Some? && Text.Lower(e.summary.value) == summary
  }

  /** The colour filter. */
  predicate ColorMatches(color: string, e: Event) {
    e.colorId.Some? && e.colorId.value == color
  }

  /** _get_summary_filter */
  function SummaryFilter(summary: string): Event -> bool {
    (e: Event) => SummaryMatches(summary, e)
  }

  /** _get_color_filter */
  function ColorFilter(color: string): Event -> bool {
    (e: Event) => ColorMatches(color, e)
  }

  /** The filtering part of get_filtered_events, applied to already fetched events:
      every accepted event is kept, each copy of it, in order, and nothing else. */
  function GetFilteredEvents(events: seq<Event>, filterKind: string, filterValue: string): (r: Result<seq<Event>, CalError>)
    ensures r.Ok? <==> filterKind == "summary" || filterKind == "color"
    ensures r.Ok? ==> IsSubsequence(r.value, events)
    ensures filterKind == "summary" ==>
      |r.value| == Count(events, SummaryFilter(filterValue)) &&
      forall e :: multiset(r.value)[e] == if SummaryMatches(filterValue, e) then multiset(events)[e] else 0
    ensures filterKind == "color" ==>
      |r.value| == Count(events, ColorFilter(filterValue)) &&
      forall e :: multiset(r.value)[e] == if ColorMatches(filterValue, e) then multiset(events)[e] else 0
  {
    if filterKind == "summary" then
      FilterLength(events, SummaryFilter(filterValue));
      FilterMultiplicity(events, SummaryFilter(filterValue));
      Ok(Filter(events, SummaryFilter(filterValue)))
    else if filterKind == "color" then
      FilterLength(events, ColorFilter(filterValue));
      FilterMultiplicity(events, ColorFilter(filterValue));
      Ok(Filter(events, ColorFilter(filterValue)))
    else Err(UnboundFilter(filterKind))
  }

  /** A parsed minute-resolution timestamp. */
  datatype Stamp = Stamp(year: int, month: int, day: int, hour: int, minute: int)

  predicate ValidStamp(st: Stamp) {
    Dates.ValidDate(st.year, st.month, st.day) && 0 <= st.hour < 24 && 0 <= st.minute < 60
  }

  function StampMinutes(st: Stamp): int
    requires ValidStamp(st)
  {
    Dates.MinuteStamp(st.year, st.month, st.day, st.hour, st.minute)
  }

  /** The range of pandas' nanosecond timestamps, 1677-09-21T00:12:43 to
      2262-04-11T23:47:16, at minute resolution. */
  predicate InPandasRange(st: Stamp)
    requires ValidStamp(st)
  {
    Dates.MinuteStamp(1677, 9, 21, 0, 13) <= StampMinutes(st) <= Dates.MinuteStamp(2262, 4, 11, 23, 47)
  }

  function DigitsAt(s: string, i: nat, n: nat): int
    requires i + n <= |s|
  {
    if Text.AllDigits(s[i..i + n]) then Text.DigitsValue(s[i..i + n]) else -1
  }

  /** pd.to_datetime of "YYYY-MM-DDTHH:MM" (or with a space for the T); None when the text has
      another shape, names no valid date and time, or lies outside pandas' range. */
  function ParseTimestamp(text: string): (r: Option<Stamp>)
    ensures r.Some? ==> ValidStamp(r.value) && InPandasRange(r.value)
  {
    if |text| == 16 && text[4] == '-' && text[7] == '-' && (text[10] == 'T' || text[10] == ' ') && text[13] == ':' then
      var st := Stamp(DigitsAt(text, 0, 4), DigitsAt(text, 5, 2), DigitsAt(text, 8, 2),
                      DigitsAt(text, 11, 2), DigitsAt(text, 14, 2));
      if ValidStamp(st) && InPandasRange(st) then Some(st) else None
    else None
  }

  /** `str[:16]` */
  function Prefix16(s: string): string {
    if |s| <= 16 then s else s[..16]
  }

  /** `event.get("description", "").split("km")[0]` */
  function DistanceText(e: Event): string {
    Text.BeforeFirst(if e.description.Some? then e.description.value else "", "km")
  }

  /** pd.to_numeric of one distance text: the empty text becomes a missing value. */
  function ParseDistance(text: string): Result<Option<real>, CalError> {
    if text == "" then Ok(None)
    else match Text.ParseDecimal(text)
      case Some(v) => Ok(Some(v))
      case None => Err(NumberParseError(text))
  }

  /** A whole-number distance text parses to a whole distance. */
  lemma IntegralDistance(text: string)
    ensures Text.IsIntegerText(text) ==>
      ParseDistance(text).Ok? && ParseDistance(text).value.Some? &&
      ParseDistance(text).value.value.Floor as real == ParseDistance(text).value.value
  {
    if Text.IsIntegerText(text) {
      Text.IntegerTextParses(text);
    }
  }

  /** One row of the observation table. `date` is the timestamp in minutes since
      0001-01-01T00:00, the integer pandas keeps for a datetime; the fields after
      `title` are derived from it. `distance` is None where pandas has NaN; `integral`
      says that pd.to_numeric read the distance text as an integer. */
  datatype Row = Row(dateString: string, date: int, distance: Option<real>, integral: bool, title: string,
                     day: int, week: int, month: int, year: int, hour: int)

  type Table = seq<Row>

  /** pd.to_numeric gives the distance column the dtype int64: every distance text is
      a whole number (an empty one is NaN and makes the column float64). */
  predicate IntegerColumn(t: Table) {
    forall i :: 0 <= i < |t| ==> t[i].integral
  }

  /** The derived fields agree with the timestamp. */
  predicate RowConsistent(row: Row) {
    Dates.ValidDate(row.year, row.month, row.day) &&
    row.date / 1440 + 1 == Dates.Ordinal(row.year, row.month, row.day) &&
    (row.date % 1440) / 60 == row.hour &&
    row.week == Dates.IsoWeek(row.year, row.month, row.day)
  }

  predicate TableConsistent(t: Table) {
    forall i :: 0 <= i < |t| ==> RowConsistent(t[i])
  }

  /** The day (proleptic Gregorian ordinal) of a row's timestamp, `date.date()`. */
  function DayOrdinal(row: Row): int {
    row.date / 1440 + 1
  }

  function MakeRow(dateString: string, st: Stamp, distance: Option<real>, integral: bool, title: string): (row: Row)
    requires ValidStamp(st)
    ensures RowConsistent(row)
  {
    Row(dateString, StampMinutes(st), distance, integral, title,
        st.day, Dates.IsoWeek(st.year, st.month, st.day), st.month, st.year, st.hour)
  }

  predicate HasKeys(e: Event) {
    e.startDateTime.Some? && e.summary.Some?
  }

  /** An event get_dataframe can turn into a row. */
  predicate EventLoads(e: Event) {
    HasKeys(e) && ParseTimestamp(Prefix16(e.startDateTime.value)).Some? && ParseDistance(DistanceText(e)).Ok?
  }

  /** The row get_dataframe builds from a loadable event: its text columns are the
      event's, the distance is the parsed description, and the timestamp and every
      calendar column come from the first 16 characters of the start time. */
  function RowOf(e: Event): (row: Row)
    requires EventLoads(e)
    ensures e.startDateTime == Some(row.dateString) && e.summary == Some(row.title)
    ensures ParseDistance(DistanceText(e)) == Ok(row.distance)
    ensures row.integral <==> Text.IsIntegerText(DistanceText(e))
    ensures row.integral ==> row.distance.Some? && row.distance.value.Floor as real == row.distance.value
    ensures ParseTimestamp(Prefix16(row.dateString)) == Some(Stamp(row.year, row.month, row.day, row.hour, row.date % 60))
    ensures RowConsistent(row)
  {
    var st := ParseTimestamp(Prefix16(e.startDateTime.value)).value;
    MinuteOfStamp(st);
    var text := DistanceText(e);
    IntegralDistance(text);
    MakeRow(e.startDateTime.value, st, ParseDistance(text).value, Text.IsIntegerText(text), e.summary.value)
  }

  function FirstBadTimestamp(events: seq<Event>): (r: Option<string>)
    requires forall i :: 0 <= i < |events| ==> events[i].startDateTime.Some?
    ensures r.None? <==> forall i :: 0 <= i < |events| ==> ParseTimestamp(Prefix16(events[i].startDateTime.value)).Some?
  {
    if events == [] then None
    else if ParseTimestamp(Prefix16(events[0].startDateTime.value)).None? then Some(Prefix16(events[0].startDateTime.value))
    else FirstBadTimestamp(events[1..])
  }

  function FirstBadDistance(events: seq<Event>): (r: Option<string>)
    ensures r.None? <==> forall i :: 0 <= i < |events| ==> ParseDistance(DistanceText(events[i])).Ok?
  {
    if events == [] then None
    else if ParseDistance(DistanceText(events[0])).Err? then Some(DistanceText(events[0]))
    else FirstBadDistance(events[1..])
  }

  /** get_dataframe: one row per event, in order. The columns are read for all events
      before anything is parsed, so a missing field wins over a parse error, and all
      timestamps are parsed before any distance. */
  function GetDataframe(events: seq<Event>): (r: Result<Table, CalError>)
    ensures events == [] ==> r == Ok([])
    ensures r.Ok? <==> forall i :: 0 <= i < |events| ==> EventLoads(events[i])
    ensures (exists i :: 0 <= i < |events| && events[i].startDateTime.None?) ==> r == Err(KeyError("dateTime"))
    ensures ((forall i :: 0 <= i < |events| ==> events[i].startDateTime.Some?) &&
             (exists i :: 0 <= i < |events| && events[i].summary.None?)) ==> r == Err(KeyError("summary"))
    ensures r.Ok? ==> |r.value| == |events| && forall i :: 0 <= i < |events| ==> r.value[i] == RowOf(events[i])
  {
    if exists i :: 0 <= i < |events| && events[i].startDateTime.None? then Err(KeyError("dateTime"))
    else if exists i :: 0 <= i < |events| && events[i].summary.None? then Err(KeyError("summary"))
    else if events == [] then Ok([])
    else
      var badStamp := FirstBadTimestamp(events);
      if badStamp.Some? then Err(DateParseError(badStamp.value))
      else
        var badDistance := FirstBadDistance(events);
        if badDistance.Some? then Err(NumberParseError(badDistance.value))
        else Ok(seq(|events|, i requires 0 <= i < |events| => RowOf(events[i])))
  }

  /** to_datetime runs before to_numeric: once both keys are present, a start time that
      does not parse is the error, and a distance error means every start time parsed. */
  lemma GetDataframeErrorOrder(events: seq<Event>)
    ensures (forall i :: 0 <= i < |events| ==> HasKeys(events[i])) &&
            (exists i :: 0 <= i < |events| && ParseTimestamp(Prefix16(events[i].startDateTime.value)).None?) ==>
              GetDataframe(events).Err? && GetDataframe(events).error.DateParseError?
    ensures GetDataframe(events).Err? && GetDataframe(events).error.NumberParseError? ==>
              forall i :: 0 <= i < |events| ==> HasKeys(events[i]) && ParseTimestamp(Prefix16(events[i].startDateTime.value)).Some?
  {
    if forall i :: 0 <= i < |events| ==> HasKeys(events[i]) {
      assert !exists i :: 0 <= i < |events| && events[i].startDateTime.None?;
      assert !exists i :: 0 <= i < |events| && events[i].summary.None?;
    }
  }

  /** Every table get_dataframe builds has its calendar columns consistent with its timestamps. */
  lemma GetDataframeConsistent(events: seq<Event>)
    ensures GetDataframe(events).Ok? ==> TableConsistent(GetDataframe(events).value)
  {
  }

  lemma MinuteOfStamp(st: Stamp)
    requires ValidStamp(st)
    ensures StampMinutes(st) % 60 == st.minute
  {
    var o := Dates.Ordinal(st.year, st.month, st.day);
    assert StampMinutes(st) == ((o - 1) * 24 + st.hour) * 60 + st.minute;
  }

  /** The row lies on the given day (daily) or in the given date's year and ISO week (weekly). */
  predicate IsTimeRelevant(row: Row, interval: Utils.TriggerInterval, date: Dates.Date)
    requires Dates.Valid(date)
  {
    match interval
    case Daily => row.year == date.year && row.month == date.month && row.day == date.day
    case Weekly => row.year == date.year && row.week == Dates.IsoWeek(date.year, date.month, date.day)
  }

  function TimeRelevant(interval: Utils.TriggerInterval, date: Dates.Date): Row -> bool
    requires Dates.Valid(date)
  {
    (row: Row) => IsTimeRelevant(row, interval, date)
  }

  /** get_time_relevant_events with the date passed explicitly: every time-relevant row,
      each copy of it, in order, and nothing else. */
  function GetTimeRelevantEvents(t: Table, interval: Utils.TriggerInterval, date: Dates.Date): (r: Table)
    requires Dates.Valid(date)
    ensures IsSubsequence(r, t)
    ensures forall row :: row in r <==> row in t && IsTimeRelevant(row, interval, date)
    ensures |r| == Count(t, TimeRelevant(interval, date))
    ensures forall row :: multiset(r)[row] == if IsTimeRelevant(row, interval, date) then multiset(t)[row] else 0
  {
    FilterLength(t, TimeRelevant(interval, date));
    FilterMultiplicity(t, TimeRelevant(interval, date));
    Filter(t, TimeRelevant(interval, date))
  }

  function HasTimeRelevantEvent(t: Table, interval: Utils.TriggerInterval, date: Dates.Date): (b: bool)
    requires Dates.Valid(date)
    ensures b <==> exists i :: 0 <= i < |t| && IsTimeRelevant(t[i], interval, date)
  {
    var r := GetTimeRelevantEvents(t, interval, date);
    assert r != [] ==> r[0] in r;
    |r| > 0
  }
}
