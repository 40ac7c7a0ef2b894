/** monitoring/cal.py, the registries: which rules send a message and which images
    are drawn for a sport and a trigger interval, as data. */
module CalRegistry {
  import opened Wrappers
  import opened Utils
  import opened CalTable
  import opened CalRules

  /** The defaults of the rule functions' keyword arguments. */
  const DefaultInterval := 100
  const DefaultDuration := 3
  const DefaultQuantile := 0.6
  const DefaultYears := 2

  /** A rule function with its keyword arguments bound, as `functools.partial` leaves it. */
  datatype Rule =
    | DistancePreviousYearRule
    | DistancePreviousYearsMonthRule
    | DistanceModIntervalRule(interval: int)
    | FrequencyPreviousYearRule
    | FrequencyPreviousYearsMonthRule
    | StreakRule(duration: int)
    | DistanceWeeklyVsYearRule(quantile: real)
    | DistanceWeeklyVsYtdRule(quantile: real)
    | FrequencyWeeklyVsYearRule(quantile: real)
    | FrequencyWeeklyVsYtdRule(quantile: real)
  {
    /** The rules that look at a whole week of data. */
    predicate Weekly() {
      DistanceWeeklyVsYearRule? || DistanceWeeklyVsYtdRule? || FrequencyWeeklyVsYearRule? || FrequencyWeeklyVsYtdRule?
    }

    /** The arguments the rule functions can evaluate. */
    predicate WellFormed() {
      (DistanceModIntervalRule? ==> interval > 0) &&
      (Weekly() ==> 0.0 <= quantile <= 1.0)
    }
  }

  /** A rule bound to a sport. */
  datatype MessageRule = MessageRule(rule: Rule, sport: Sport)

  function Bind(rules: seq<Rule>, sport: Sport): (r: seq<MessageRule>)
    ensures |r| == |rules| && forall i :: 0 <= i < |r| ==> r[i] == MessageRule(rules[i], sport)
  {
    seq(|rules|, i requires 0 <= i < |rules| => MessageRule(rules[i], sport))
  }

  /** The six daily rules of an endurance sport, with the milestone interval `interval`. */
  function DailyEndurance(interval: int): seq<Rule> {
    [DistancePreviousYearRule, DistancePreviousYearsMonthRule, DistanceModIntervalRule(interval),
     FrequencyPreviousYearRule, FrequencyPreviousYearsMonthRule, StreakRule(DefaultDuration)]
  }

  /** message_function_registry */
  function MessageFunctionRegistry(sport: Sport, interval: TriggerInterval): seq<MessageRule> {
    Bind(
      match (sport, interval)
      case (Running, Daily) => DailyEndurance(DefaultInterval)
      case (Running, Weekly) =>
        [DistanceWeeklyVsYearRule(DefaultQuantile), DistanceWeeklyVsYtdRule(DefaultQuantile),
         FrequencyWeeklyVsYearRule(DefaultQuantile), FrequencyWeeklyVsYtdRule(DefaultQuantile)]
      case (Cycling, Daily) => DailyEndurance(250)
      case (Cycling, Weekly) => [DistanceWeeklyVsYearRule(DefaultQuantile), DistanceWeeklyVsYtdRule(DefaultQuantile)]
      case (Gym, Daily) => [FrequencyPreviousYearRule, FrequencyPreviousYearsMonthRule, StreakRule(DefaultDuration)]
      case (Gym, Weekly) => [FrequencyWeeklyVsYearRule(DefaultQuantile), FrequencyWeeklyVsYtdRule(DefaultQuantile)]
      case (Swimming, Daily) => [StreakRule(2)]
      case _ => [],
      sport)
  }

  /** Every registered rule is bound to the sport asked for, can be evaluated, and
      looks at a week exactly when the weekly registry is asked for. */
  lemma RegistryWellFormed(sport: Sport, interval: TriggerInterval)
    ensures var rules := MessageFunctionRegistry(sport, interval);
      forall i :: 0 <= i < |rules| ==>
        rules[i].sport == sport && rules[i].rule.WellFormed() && (rules[i].rule.Weekly() <==> interval == Weekly)
  {
  }

  /** Only running, cycling, gym and daily swimming have rules; the number of rules per
      pair is six, four, six, two, three, two and one. */
  lemma RegistrySizes(sport: Sport, interval: TriggerInterval)
    ensures var n := |MessageFunctionRegistry(sport, interval)|;
      (n > 0 <==> sport in {Running, Cycling, Gym} || (sport == Swimming && interval == Daily)) &&
      ((sport == Running || sport == Cycling) && interval == Daily ==> n == 6) &&
      (sport == Running && interval == Weekly ==> n == 4) &&
      (sport == Gym && interval == Daily ==> n == 3) &&
      ((sport == Cycling || sport == Gym) && interval == Weekly ==> n == 2) &&
      (sport == Swimming && interval == Daily ==> n == 1)
  {
  }

  /** The daily milestone rule fires every 100 km for running and every 250 km for
      cycling, and the daily streak of swimming is two days long. */
  lemma RegistryParameters(interval: TriggerInterval)
    ensures DistanceModIntervalRule(100) in Rules(MessageFunctionRegistry(Running, Daily))
    ensures DistanceModIntervalRule(250) in Rules(MessageFunctionRegistry(Cycling, Daily))
    ensures forall r :: r in Rules(MessageFunctionRegistry(Swimming, interval)) ==> r == StreakRule(2)
  {
    assert Rules(MessageFunctionRegistry(Running, Daily))[2] == DistanceModIntervalRule(100);
    assert Rules(MessageFunctionRegistry(Cycling, Daily))[2] == DistanceModIntervalRule(250);
  }

  function Rules(m: seq<MessageRule>): (r: seq<Rule>)
    ensures |r| == |m| && forall i :: 0 <= i < |m| ==> r[i] == m[i].rule
  {
    seq(|m|, i requires 0 <= i < |m| => m[i].rule)
  }

  /** Calling a registered rule on a table. */
  function RunRule(m: MessageRule, t: Table): Option<string>
    requires |t| > 0 && m.rule.WellFormed()
  {
    match m.rule
    case DistancePreviousYearRule => DistancePreviousYear(t, m.sport)
    case DistancePreviousYearsMonthRule => DistancePreviousYearsMonth(t, m.sport)
    case DistanceModIntervalRule(interval) => DistanceModInterval(t, m.sport, interval)
    case FrequencyPreviousYearRule => FrequencyPreviousYear(t, m.sport)
    case FrequencyPreviousYearsMonthRule => FrequencyPreviousYearsMonth(t, m.sport)
    case StreakRule(duration) => StreakMessage(t, m.sport, duration)
    case DistanceWeeklyVsYearRule(q) => DistanceWeeklyVsYear(t, m.sport, q)
    case DistanceWeeklyVsYtdRule(q) => DistanceWeeklyVsYtd(t, m.sport, q)
    case FrequencyWeeklyVsYearRule(q) => FrequencyWeeklyVsYear(t, m.sport, q)
    case FrequencyWeeklyVsYtdRule(q) => FrequencyWeeklyVsYtd(t, m.sport, q)
  }

  /** Calling a registered rule, running the streak check as its loop. */
  method EvaluateRule(m: MessageRule, t: Table) returns (r: Option<string>)
    requires |t| > 0 && m.rule.WellFormed()
    ensures r == RunRule(m, t)
  {
    if m.rule.StreakRule? {
      r := Streak(t, m.sport, m.rule.duration);
    } else {
      r := RunRule(m, t);
    }
  }

  /** plot_cumulative_day_distances with its keyword arguments bound. */
  datatype ImageRule = ImageRule(sport: Sport, path: string, nYears: nat, baselines: seq<int>)

  /** image_function_registry */
  function ImageFunctionRegistry(sport: Sport, interval: TriggerInterval, path: string): seq<ImageRule> {
    match (sport, interval)
    case (Running, Weekly) => [ImageRule(sport, path, DefaultYears, [1400, 1600])]
    case (Cycling, Weekly) => [ImageRule(sport, path, DefaultYears, [2000])]
    case (Swimming, Weekly) => [ImageRule(sport, path, 1, [])]
    case _ => []
  }

  /** There are images only for the weekly report of running, cycling and swimming:
      one image each, for the sport asked for and under the path given. */
  lemma ImageRegistryShape(sport: Sport, interval: TriggerInterval, path: string)
    ensures var images := ImageFunctionRegistry(sport, interval, path);
      (images != [] <==> interval == Weekly && sport in {Running, Cycling, Swimming}) &&
      |images| <= 1 &&
      forall i :: 0 <= i < |images| ==> images[i].sport == sport && images[i].path == path
  {
  }
}
