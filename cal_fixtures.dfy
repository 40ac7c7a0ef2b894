/** The calendar fixture of tests/test_cal.py, evaluated by the model. */
module CalFixtures {
  import opened Wrappers
  import opened Seqs
  import Dates
  import Text
  import opened CalTable
  import opened CalRules

  function Running(start: string): Event {
    Event(Some("Running"), Some("14.91 km"), Some("4"), Some(start))
  }

  /** Seven events of January 2020: running on the 1st and on the 5th to 7th, gym on
      the 2nd, swimming on the 3rd and "Gym: ub" on the 4th; the two gym events carry
      no description. */
  function Events(): seq<Event> {
    [Running("2020-01-01T08:30:00+01:00"),
     Event(Some("Gym"), None, Some("4"), Some("2020-01-02T08:30:00+01:00")),
     Event(Some("Swimming"), Some(".6km"), Some("4"), Some("2020-01-03T08:30:00+01:00")),
     Event(Some("Gym: ub"), None, Some("4"), Some("2020-01-04T08:30:00+01:00")),
     Running("2020-01-5T08:30:00+01:00"),
     Running("2020-01-6T08:30:00+01:00"),
     Running("2020-01-7T08:30:00+01:00")]
  }

  /** What the four filters of the tests make of each kind of fixture event. */
  lemma RunningEvent(start: string)
    ensures var e := Running(start);
      SummaryFilter("running")(e) && !SummaryFilter("gym")(e) && !SummaryFilter("gym: ub")(e) && !SummaryFilter("cycling")(e)
  {
    assert Text.Lower("Running") == "running";
  }

  lemma GymEvent(summary: string, start: string)
    requires summary == "Gym" || summary == "Gym: ub"
    ensures var e := Event(Some(summary), None, Some("4"), Some(start));
      !SummaryFilter("running")(e) && SummaryFilter("gym")(e) && !SummaryFilter("gym: ub")(e) && !SummaryFilter("cycling")(e)
  {
    assert Text.Lower("Gym") == "gym";
    assert Text.Lower("Gym: ub") == "gym: ub";
  }

  lemma SwimmingEvent(start: string)
    ensures var e := Event(Some("Swimming"), Some(".6km"), Some("4"), Some(start));
      !SummaryFilter("running")(e) && !SummaryFilter("gym")(e) && !SummaryFilter("gym: ub")(e) && !SummaryFilter("cycling")(e)
  {
    assert Text.Lower("Swimming") == "swimming";
  }

  /** Which events the filters accept: running on the 1st and on the 5th to 7th, gym
      on the 2nd and 4th. */
  lemma EventMatches()
    ensures forall value :: value in {"running", "gym", "gym: ub", "cycling"} ==>
      var es, p := Events(), SummaryFilter(value);
      (p(es[0]) <==> value == "running") && (p(es[1]) <==> value == "gym") &&
      !p(es[2]) && (p(es[3]) <==> value == "gym") &&
      (p(es[4]) <==> value == "running") && (p(es[5]) <==> value == "running") && (p(es[6]) <==> value == "running")
  {
    RunningEvent("2020-01-01T08:30:00+01:00");
    GymEvent("Gym", "2020-01-02T08:30:00+01:00");
    SwimmingEvent("2020-01-03T08:30:00+01:00");
    GymEvent("Gym: ub", "2020-01-04T08:30:00+01:00");
    RunningEvent("2020-01-5T08:30:00+01:00");
    RunningEvent("2020-01-6T08:30:00+01:00");
    RunningEvent("2020-01-7T08:30:00+01:00");
  }

  /** The summary filter keeps four running events and both gym events; "gym: ub",
      matched exactly, needs a description, which its event lacks. */
  lemma SummaryFilterCounts(value: string)
    requires value in {"running", "gym", "gym: ub", "cycling"}
    ensures |Filter(Events(), SummaryFilter(value))| ==
      if value == "running" then 4 else if value == "gym" then 2 else 0
  {
    EventMatches();
    FilterLength(Events(), SummaryFilter(value));
  }

  /** The start times of the 5th to 7th are not zero-padded ("2020-01-5T08:30"), so
      the model's timestamp reader refuses them and the running events build no table;
      the running table below is the one the zero-padded times give. */
  lemma UnpaddedStartFails()
    ensures GetDataframe(Filter(Events(), SummaryFilter("running"))).Err?
  {
    var e := Running("2020-01-5T08:30:00+01:00");
    UnpaddedStart();
    RunningEvent("2020-01-5T08:30:00+01:00");
    assert e == Events()[4];
    UnloadableEvent(Filter(Events(), SummaryFilter("running")), e);
  }

  lemma UnpaddedStart()
    ensures ParseTimestamp(Prefix16("2020-01-5T08:30:00+01:00")) == None
  {
    assert Prefix16("2020-01-5T08:30:00+01:00") == "2020-01-5T08:30:";
  }

  /** One event that does not load fails the whole table. */
  lemma UnloadableEvent(events: seq<Event>, e: Event)
    requires e in events && !EventLoads(e)
    ensures GetDataframe(events).Err?
  {
    var i :| 0 <= i < |events| && events[i] == e;
  }

  /** The ordinal of 2020-01-01. */
  const Jan1: int := 737425

  /** One running row at 08:30 on the given day of the first week of January 2020,
      its fields written out: the minute stamp, and ISO week 1 up to Sunday the 5th. */
  function RunningRow(day: int): Row
    requires 1 <= day <= 7
  {
    Row("", (Jan1 + day - 2) * 1440 + 510, Some(14.91), false, "Running",
        day, if day <= 5 then 1 else 2, 1, 2020, 8)
  }

  /** The written-out rows are those `_get_dataframe` builds from a 08:30 start. */
  lemma RunningRowMade(day: int)
    requires 1 <= day <= 7
    ensures RunningRow(day) == MakeRow("", Stamp(2020, 1, day, 8, 30), Some(14.91), false, "Running")
    ensures DayOrdinal(RunningRow(day)) == Jan1 + day - 1
  {
    assert Dates.Ordinal(2020, 1, day) == Jan1 + day - 1;
    assert Dates.IsoWeek1Monday(2020) == Jan1 - 2;
  }

  /** The table of the running events: the 1st and the 5th to 7th. */
  function RunningTable(): Table {
    [RunningRow(1), RunningRow(5), RunningRow(6), RunningRow(7)]
  }

  /** The days of the running table, and its last day. */
  lemma RunningDays()
    ensures DayColumn(RunningTable()) == [Jan1, Jan1 + 4, Jan1 + 5, Jan1 + 6]
    ensures LastDay(RunningTable()) == Jan1 + 6
    ensures CurrentDate(RunningTable()) == RunningRow(7).date
  {
    var days := DayColumn(RunningTable());
    assert days[0] == Jan1 && days[1] == Jan1 + 4 && days[2] == Jan1 + 5 && days[3] == Jan1 + 6;
  }

  /** Running on the 5th to 7th makes a streak of one, two and three days. */
  lemma StreakOfThree()
    ensures StreakHolds(RunningTable(), 1)
    ensures StreakHolds(RunningTable(), 2)
    ensures StreakHolds(RunningTable(), 3)
  {
    var t := RunningTable();
    RunningDays();
    assert DayColumn(t)[2] == LastDay(t) - 1 && DayColumn(t)[1] == LastDay(t) - 2;
  }

  /** Nothing on the 4th: no streak of four days. */
  lemma NoStreakOfFour()
    ensures !StreakHolds(RunningTable(), 4)
  {
    var t := RunningTable();
    RunningDays();
    assert !ActiveDaysBefore(t, 3);
  }
}
