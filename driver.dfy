/** main.py: the entry point that reads the request kind and runs either the
    weekly journal report or the calendar report, sending what they produce over the
    chat bot. The bot, the calendar service, the week files and the plots are
    passed in: the bot is an object that records what it was asked to send. */
module Driver {
  import opened Wrappers
  import opened Utils
  import Dates
  import CalTable
  import CalRegistry
  import Org

  /** One thing handed to the bot: a text message or a photo under a path. */
  datatype Send = Message(text: string) | Photo(path: string)

  /** The chat bot, reduced to the record of what it sent, in order. */
  class Bot {
    var sent: seq<Send>

    constructor ()
      ensures sent == []
    {
      sent := [];
    }

    method SendMessage(text: string)
      modifies this
      ensures sent == old(sent) + [Message(text)]
    {
      sent := sent + [Message(text)];
    }

    method SendPhoto(path: string)
      modifies this
      ensures sent == old(sent) + [Photo(path)]
    {
      sent := sent + [Photo(path)];
    }
  }

  /** The exceptions that end a run, wrapping those of the modules below. */
  datatype DriverError =
    | AttributeError                        // the request is JSON but not an object
    | UnexpectedKind(kind: Payload)         // main's ValueError
    | LoadFailed(load: Org.LoadError)
    | ProcessFailed(process: Org.OrgError)
    | MessagesFailed(messages: Org.OrgError)
    | CalendarFailed(calendar: CalTable.CalError)

  /** What a run sends, and the exception that ended it, if any. Everything sent
      before an exception stays sent. */
  datatype Run = Run(sent: seq<Send>, error: Option<DriverError>)

  /** `sent` followed by everything `rest` sends. */
  function Then(sent: seq<Send>, rest: Run): Run {
    Run(sent + rest.sent, rest.error)
  }

  lemma ThenNothing(rest: Run)
    ensures Then([], rest) == rest
  {
    assert [] + rest.sent == rest.sent;
  }

  lemma AppendAssociates(a: seq<Send>, b: seq<Send>, c: seq<Send>)
    ensures (a + b) + c == a + (b + c)
  {
  }

  lemma ThenAssociates(a: seq<Send>, b: seq<Send>, rest: Run)
    ensures Then(a, Then(b, rest)) == Then(a + b, rest)
  {
    assert a + (b + rest.sent) == (a + b) + rest.sent;
  }

  // ---------------------------------------------------------------------------
  // Sending filtered lists

  /** The messages the bot sends for a list of rule outputs: those that are neither
      None nor empty, in order. */
  function MessageSends(outputs: seq<Option<string>>): seq<Send>
    decreases |outputs|
  {
    if outputs == [] then []
    else
      var last := outputs[|outputs| - 1];
      MessageSends(outputs[..|outputs| - 1]) + (if last.Some? && last.value != "" then [Message(last.value)] else [])
  }

  /** The photos the bot sends for a list of plot outputs: those that are not None. */
  function PhotoSends(paths: seq<Option<string>>): seq<Send>
    decreases |paths|
  {
    if paths == [] then []
    else
      var last := paths[|paths| - 1];
      PhotoSends(paths[..|paths| - 1]) + (if last.Some? then [Photo(last.value)] else [])
  }

  /** Exactly the non-empty outputs become messages, and nothing else is sent. */
  lemma {:induction false} MessageSendsMeaning(outputs: seq<Option<string>>)
    ensures |MessageSends(outputs)| <= |outputs|
    ensures forall s :: s in MessageSends(outputs) ==> s.Message?
    ensures forall text :: Message(text) in MessageSends(outputs) <==> text != "" && Some(text) in outputs
    decreases |outputs|
  {
    if outputs != [] {
      var init := outputs[..|outputs| - 1];
      MessageSendsMeaning(init);
      assert outputs == init + [outputs[|outputs| - 1]];
    }
  }

  /** Exactly the paths that are not None become photos, and nothing else is sent. */
  lemma {:induction false} PhotoSendsMeaning(paths: seq<Option<string>>)
    ensures |PhotoSends(paths)| <= |paths|
    ensures forall s :: s in PhotoSends(paths) ==> s.Photo?
    ensures forall path :: Photo(path) in PhotoSends(paths) <==> Some(path) in paths
    decreases |paths|
  {
    if paths != [] {
      var init := paths[..|paths| - 1];
      PhotoSendsMeaning(init);
      assert paths == init + [paths[|paths| - 1]];
    }
  }

  /** The loop `for message in filter(...): bot.send_message(...)`. */
  method SendMessages(bot: Bot, outputs: seq<Option<string>>)
    modifies bot
    ensures bot.sent == old(bot.sent) + MessageSends(outputs)
  {
    var k := 0;
    while k < |outputs|
      invariant 0 <= k <= |outputs|
      invariant bot.sent == old(bot.sent) + MessageSends(outputs[..k])
    {
      assert outputs[..k + 1][..k] == outputs[..k];
      var output := outputs[k];
      if output.Some? && output.value != "" {
        bot.SendMessage(output.value);
      }
      k := k + 1;
    }
    assert outputs[..k] == outputs;
  }

  /** The loop `for image_path in filter(...): bot.send_photo(...)`. */
  method SendPhotos(bot: Bot, paths: seq<Option<string>>)
    modifies bot
    ensures bot.sent == old(bot.sent) + PhotoSends(paths)
  {
    var k := 0;
    while k < |paths|
      invariant 0 <= k <= |paths|
      invariant bot.sent == old(bot.sent) + PhotoSends(paths[..k])
    {
      assert paths[..k + 1][..k] == paths[..k];
      var path := paths[k];
      if path.Some? {
        bot.SendPhoto(path.value);
      }
      k := k + 1;
    }
    assert paths[..k] == paths;
  }

  // ---------------------------------------------------------------------------
  // org_log

  /** The week number of a date, what `_this_week` computes from today's date. */
  function ThisWeek(today: Dates.Date): (w: int)
    requires Dates.Valid(today)
    ensures 1 <= w <= 53
  {
    Dates.IsoWeek(today.year, today.month, today.day)
  }

  /** What org_log sends: every message, then every image, or nothing when loading,
      processing or the messages fail. `images` stands for images_this_week; `reading`
      AsWritten is the program as it stands, Corrected the one with the Stress
      comparison mirrored. */
  function OrgLogRun(reading: Org.Reading, files: map<int, Org.WeekFile>, week: int, images: Org.Frame -> seq<string>): Run {
    match Org.LoadResult(files, week, Org.FirstWeekdayIndex)
    case Err(e) => Run([], Some(LoadFailed(e)))
    case Ok(loaded) =>
      match Org.ProcessData(loaded)
      case Err(e) => Run([], Some(ProcessFailed(e)))
      case Ok(frame) =>
        match Org.Messages(reading, frame, week, Org.Properties, Org.DefaultLowerQuantile, Org.DefaultUpperQuantile)
        case Err(e) => Run([], Some(MessagesFailed(e)))
        case Ok(messages) => Run(Texts(messages) + Photos(images(frame)), None)
  }

  function Texts(messages: seq<string>): (r: seq<Send>)
    ensures |r| == |messages| && forall i :: 0 <= i < |r| ==> r[i] == Message(messages[i])
  {
    seq(|messages|, i requires 0 <= i < |messages| => Message(messages[i]))
  }

  function Photos(paths: seq<string>): (r: seq<Send>)
    ensures |r| == |paths| && forall i :: 0 <= i < |r| ==> r[i] == Photo(paths[i])
  {
    seq(|paths|, i requires 0 <= i < |paths| => Photo(paths[i]))
  }

  /** load_data with week files up to `week`, as org_log calls it. */
  method Load(files: map<int, Org.WeekFile>, week: int) returns (r: Result<Org.Loaded, Org.LoadError>)
    ensures r == Org.LoadResult(files, week, Org.FirstWeekdayIndex)
  {
    r := Org.LoadData(files, week, Org.FirstWeekdayIndex);
    Org.LoadOutcomeIsLoadResult(files, week, Org.FirstWeekdayIndex, r);
  }

  /** The two sending loops of org_log: every message, then every image. */
  method SendAll(bot: Bot, messages: seq<string>, paths: seq<string>)
    modifies bot
    ensures bot.sent == old(bot.sent) + (Texts(messages) + Photos(paths))
  {
    var k := 0;
    while k < |messages|
      invariant 0 <= k <= |messages|
      invariant bot.sent == old(bot.sent) + Texts(messages[..k])
    {
      assert Texts(messages[..k + 1]) == Texts(messages[..k]) + [Message(messages[k])];
      bot.SendMessage(messages[k]);
      k := k + 1;
    }
    assert messages[..k] == messages;
    ghost var before := bot.sent;
    k := 0;
    while k < |paths|
      invariant 0 <= k <= |paths|
      invariant bot.sent == before + Photos(paths[..k])
    {
      assert Photos(paths[..k + 1]) == Photos(paths[..k]) + [Photo(paths[k])];
      bot.SendPhoto(paths[k]);
      k := k + 1;
    }
    assert paths[..k] == paths;
    assert bot.sent == old(bot.sent) + Texts(messages) + Photos(paths);
  }

  /** org_log: load the week files up to this week, process them, build the week's
      messages and images, then send all messages and then all images. */
  method OrgLog(bot: Bot, reading: Org.Reading, files: map<int, Org.WeekFile>, week: int, images: Org.Frame -> seq<string>)
    returns (error: Option<DriverError>)
    modifies bot
    ensures bot.sent == old(bot.sent) + OrgLogRun(reading, files, week, images).sent
    ensures error == OrgLogRun(reading, files, week, images).error
  {
    var loaded := Load(files, week);
    if loaded.Err? {
      assert old(bot.sent) + [] == bot.sent;
      return Some(LoadFailed(loaded.error));
    }
    var frame := Org.ProcessData(loaded.value);
    if frame.Err? {
      assert old(bot.sent) + [] == bot.sent;
      return Some(ProcessFailed(frame.error));
    }
    var messages := Org.MessagesThisWeek(reading, frame.value, week, Org.Properties,
                                         Org.DefaultLowerQuantile, Org.DefaultUpperQuantile);
    if messages.Err? {
      assert old(bot.sent) + [] == bot.sent;
      return Some(MessagesFailed(messages.error));
    }
    SendAll(bot, messages.value, images(frame.value));
    return None;
  }

  /** org_log sends its messages before its images, and sends nothing at all when it
      fails. */
  lemma OrgLogOrder(reading: Org.Reading, files: map<int, Org.WeekFile>, week: int, images: Org.Frame -> seq<string>)
    ensures var run := OrgLogRun(reading, files, week, images);
      (run.error.Some? ==> run.sent == []) &&
      forall i, j :: 0 <= i < j < |run.sent| && run.sent[i].Photo? ==> run.sent[j].Photo?
  {
  }

  // ---------------------------------------------------------------------------
  // gcal

  /** The table of one sport: the events whose summary names it. */
  function SportTable(events: seq<CalTable.Event>, sport: Sport): Result<CalTable.Table, CalTable.CalError> {
    match CalTable.GetFilteredEvents(events, "summary", sport.Value())
    case Err(e) => Err(e)
    case Ok(filtered) => CalTable.GetDataframe(filtered)
  }

  /** The message rules of a sport evaluated on its table, in registry order. */
  function RuleOutputs(rules: seq<CalRegistry.MessageRule>, t: CalTable.Table): (r: seq<Option<string>>)
    requires |t| > 0 && forall i :: 0 <= i < |rules| ==> rules[i].rule.WellFormed()
    ensures |r| == |rules| && forall i :: 0 <= i < |rules| ==> r[i] == CalRegistry.RunRule(rules[i], t)
  {
    seq(|rules|, i requires 0 <= i < |rules| => CalRegistry.RunRule(rules[i], t))
  }

  /** The image rules of a sport run through `plot`, in registry order. */
  function PlotOutputs(images: seq<CalRegistry.ImageRule>, t: CalTable.Table,
                       plot: (CalRegistry.ImageRule, CalTable.Table) -> Option<string>): (r: seq<Option<string>>)
    ensures |r| == |images| && forall i :: 0 <= i < |images| ==> r[i] == plot(images[i], t)
  {
    seq(|images|, i requires 0 <= i < |images| => plot(images[i], t))
  }

  /** What gcal sends for one sport whose table has a time-relevant event: the rule
      messages, then the images. */
  function SportReport(t: CalTable.Table, sport: Sport, interval: TriggerInterval,
                       plot: (CalRegistry.ImageRule, CalTable.Table) -> Option<string>, tmpdir: string): seq<Send>
    requires |t| > 0
  {
    var rules := CalRegistry.MessageFunctionRegistry(sport, interval);
    CalRegistry.RegistryWellFormed(sport, interval);
    MessageSends(RuleOutputs(rules, t)) +
    PhotoSends(PlotOutputs(CalRegistry.ImageFunctionRegistry(sport, interval, tmpdir), t, plot))
  }

  /** Whether gcal reports on a table: it is not empty and has an event in the
      interval that contains `today`. In the deployed job `today` is the default
      argument of `has_time_relevant_event`, fixed when the calendar module is
      imported, so a long-lived process keeps using its start date. */
  predicate Reported(t: CalTable.Table, interval: TriggerInterval, today: Dates.Date)
    requires Dates.Valid(today)
  {
    |t| > 0 && CalTable.HasTimeRelevantEvent(t, interval, today)
  }

  /** What gcal sends for the sports `sports`, taken in order; a sport whose table
      cannot be built ends the run. */
  function GcalRun(events: seq<CalTable.Event>, interval: TriggerInterval, today: Dates.Date,
                   plot: (CalRegistry.ImageRule, CalTable.Table) -> Option<string>, tmpdir: string,
                   sports: seq<Sport>): Run
    requires Dates.Valid(today)
    decreases |sports|
  {
    if sports == [] then Run([], None)
    else
      var first := SportRun(events, interval, today, plot, tmpdir, sports[0]);
      if first.error.Some? then first
      else Then(first.sent, GcalRun(events, interval, today, plot, tmpdir, sports[1..]))
  }

  /** One iteration of gcal's loop: the sport's table, then its report when the
      table is reported on; a table that cannot be built ends the run. */
  function SportRun(events: seq<CalTable.Event>, interval: TriggerInterval, today: Dates.Date,
                    plot: (CalRegistry.ImageRule, CalTable.Table) -> Option<string>, tmpdir: string,
                    sport: Sport): (r: Run)
    requires Dates.Valid(today)
    ensures r.error.Some? ==> r.sent == []
  {
    match SportTable(events, sport)
    case Err(e) => Run([], Some(CalendarFailed(e)))
    case Ok(t) => Run(if Reported(t, interval, today) then SportReport(t, sport, interval, plot, tmpdir) else [], None)
  }

  /** `[message_function(df) for message_function in rules]`. */
  method EvaluateRules(rules: seq<CalRegistry.MessageRule>, t: CalTable.Table) returns (outputs: seq<Option<string>>)
    requires |t| > 0 && forall i :: 0 <= i < |rules| ==> rules[i].rule.WellFormed()
    ensures outputs == RuleOutputs(rules, t)
  {
    outputs := [];
    var j := 0;
    while j < |rules|
      invariant 0 <= j <= |rules|
      invariant |outputs| == j && forall k :: 0 <= k < j ==> outputs[k] == CalRegistry.RunRule(rules[k], t)
    {
      outputs := AppendRule(rules[j], t, outputs);
      j := j + 1;
    }
  }

  /** One step of `EvaluateRules`: the output of `rule` after `outputs`. */
  method AppendRule(rule: CalRegistry.MessageRule, t: CalTable.Table, outputs: seq<Option<string>>)
    returns (after: seq<Option<string>>)
    requires |t| > 0 && rule.rule.WellFormed()
    ensures after == outputs + [CalRegistry.RunRule(rule, t)]
  {
    var output := CalRegistry.EvaluateRule(rule, t);
    after := outputs + [output];
  }

  /** The report of one sport: evaluate its rules, send the messages, plot its
      images, send the photos. */
  method ReportSport(bot: Bot, t: CalTable.Table, sport: Sport, interval: TriggerInterval,
                     plot: (CalRegistry.ImageRule, CalTable.Table) -> Option<string>, tmpdir: string)
    requires |t| > 0
    modifies bot
    ensures bot.sent == old(bot.sent) + SportReport(t, sport, interval, plot, tmpdir)
  {
    var rules := CalRegistry.MessageFunctionRegistry(sport, interval);
    CalRegistry.RegistryWellFormed(sport, interval);
    var images := CalRegistry.ImageFunctionRegistry(sport, interval, tmpdir);
    SendReport(bot, rules, images, t, plot);
  }

  /** The messages of `rules`, then the photos of `images`, on one table. */
  method SendReport(bot: Bot, rules: seq<CalRegistry.MessageRule>, images: seq<CalRegistry.ImageRule>,
                    t: CalTable.Table, plot: (CalRegistry.ImageRule, CalTable.Table) -> Option<string>)
    requires |t| > 0 && forall i :: 0 <= i < |rules| ==> rules[i].rule.WellFormed()
    modifies bot
    ensures bot.sent == old(bot.sent) + MessageSends(RuleOutputs(rules, t)) + PhotoSends(PlotOutputs(images, t, plot))
  {
    var outputs := EvaluateRules(rules, t);
    SendMessages(bot, outputs);
    ghost var afterMessages := bot.sent;
    var paths := PlotOutputs(images, t, plot);
    SendPhotos(bot, paths);
    assert bot.sent == afterMessages + PhotoSends(paths);
  }

  /** One step of GcalRun: the first sport, then the others. */
  lemma GcalRunStep(events: seq<CalTable.Event>, interval: TriggerInterval, today: Dates.Date,
                    plot: (CalRegistry.ImageRule, CalTable.Table) -> Option<string>, tmpdir: string,
                    sports: seq<Sport>, i: nat)
    requires Dates.Valid(today) && i < |sports|
    ensures var first := SportRun(events, interval, today, plot, tmpdir, sports[i]);
      GcalRun(events, interval, today, plot, tmpdir, sports[i..]) ==
        if first.error.Some? then first
        else Then(first.sent, GcalRun(events, interval, today, plot, tmpdir, sports[i + 1..]))
  {
    assert sports[i..][0] == sports[i] && sports[i..][1..] == sports[i + 1..];
  }

  /** One sport of gcal's loop. */
  method GcalSport(bot: Bot, events: seq<CalTable.Event>, interval: TriggerInterval, today: Dates.Date,
                   plot: (CalRegistry.ImageRule, CalTable.Table) -> Option<string>, tmpdir: string,
                   sport: Sport)
    returns (error: Option<DriverError>)
    requires Dates.Valid(today)
    modifies bot
    ensures bot.sent == old(bot.sent) + SportRun(events, interval, today, plot, tmpdir, sport).sent
    ensures error == SportRun(events, interval, today, plot, tmpdir, sport).error
  {
    var table := SportTable(events, sport);
    if table.Err? {
      assert old(bot.sent) + [] == bot.sent;
      return Some(CalendarFailed(table.error));
    }
    var t := table.value;
    if !(|t| > 0 && CalTable.HasTimeRelevantEvent(t, interval, today)) {
      assert old(bot.sent) + [] == bot.sent;
      return None;
    }
    ReportSport(bot, t, sport, interval, plot, tmpdir);
    return None;
  }

  /** The loop of gcal over the sports `sports`. */
  method GcalOver(bot: Bot, events: seq<CalTable.Event>, interval: TriggerInterval, today: Dates.Date,
                  plot: (CalRegistry.ImageRule, CalTable.Table) -> Option<string>, tmpdir: string,
                  sports: seq<Sport>)
    returns (error: Option<DriverError>)
    requires Dates.Valid(today)
    modifies bot
    ensures bot.sent == old(bot.sent) + GcalRun(events, interval, today, plot, tmpdir, sports).sent
    ensures error == GcalRun(events, interval, today, plot, tmpdir, sports).error
  {
    ghost var run := GcalRun(events, interval, today, plot, tmpdir, sports);
    ghost var done: seq<Send> := [];
    ThenNothing(run);
    assert sports[0..] == sports;
    var i := 0;
    while i < |sports|
      invariant 0 <= i <= |sports|
      invariant bot.sent == old(bot.sent) + done
      invariant run == Then(done, GcalRun(events, interval, today, plot, tmpdir, sports[i..]))
    {
      GcalRunStep(events, interval, today, plot, tmpdir, sports, i);
      ghost var first := SportRun(events, interval, today, plot, tmpdir, sports[i]);
      ghost var rest := GcalRun(events, interval, today, plot, tmpdir, sports[i + 1..]);
      var e := GcalSport(bot, events, interval, today, plot, tmpdir, sports[i]);
      AppendAssociates(old(bot.sent), done, first.sent);
      if e.Some? {
        return e;
      }
      ThenAssociates(done, first.sent, rest);
      done := done + first.sent;
      i := i + 1;
    }
    assert sports[i..] == [];
    assert done + [] == done;
    return None;
  }

  /** gcal: for every sport in declaration order, build its table and, when it has a
      time-relevant event, send its report. `events` is what the calendar service
      returns for the queried period; `plot` stands for the plotting functions. */
  method Gcal(bot: Bot, events: seq<CalTable.Event>, interval: TriggerInterval, today: Dates.Date,
              plot: (CalRegistry.ImageRule, CalTable.Table) -> Option<string>, tmpdir: string)
    returns (error: Option<DriverError>)
    requires Dates.Valid(today)
    modifies bot
    ensures bot.sent == old(bot.sent) + GcalRun(events, interval, today, plot, tmpdir, AllSports).sent
    ensures error == GcalRun(events, interval, today, plot, tmpdir, AllSports).error
  {
    error := GcalOver(bot, events, interval, today, plot, tmpdir, AllSports);
  }

  /** Sports taken one list after another: a failing first list ends the run,
      otherwise the second list's sends follow the first's. */
  lemma {:induction false} GcalRunConcat(events: seq<CalTable.Event>, interval: TriggerInterval, today: Dates.Date,
                                         plot: (CalRegistry.ImageRule, CalTable.Table) -> Option<string>,
                                         tmpdir: string, a: seq<Sport>, b: seq<Sport>)
    requires Dates.Valid(today)
    ensures var first := GcalRun(events, interval, today, plot, tmpdir, a);
      GcalRun(events, interval, today, plot, tmpdir, a + b) ==
        if first.error.Some? then first else Then(first.sent, GcalRun(events, interval, today, plot, tmpdir, b))
    decreases |a|
  {
    if a == [] {
      assert a + b == b;
      ThenNothing(GcalRun(events, interval, today, plot, tmpdir, b));
    } else {
      assert (a + b)[0] == a[0] && (a + b)[1..] == a[1..] + b;
      GcalRunConcat(events, interval, today, plot, tmpdir, a[1..], b);
      var first := SportRun(events, interval, today, plot, tmpdir, a[0]);
      var rest := GcalRun(events, interval, today, plot, tmpdir, a[1..]);
      if first.error.None? && rest.error.None? {
        ThenAssociates(first.sent, rest.sent, GcalRun(events, interval, today, plot, tmpdir, b));
      }
    }
  }

  /** Every message gcal sends is a non-empty text. */
  lemma {:induction false} GcalMessagesNonEmpty(events: seq<CalTable.Event>, interval: TriggerInterval, today: Dates.Date,
                                                plot: (CalRegistry.ImageRule, CalTable.Table) -> Option<string>,
                                                tmpdir: string, sports: seq<Sport>)
    requires Dates.Valid(today)
    ensures forall text :: Message(text) in GcalRun(events, interval, today, plot, tmpdir, sports).sent ==> text != ""
    decreases |sports|
  {
    if sports != [] {
      GcalMessagesNonEmpty(events, interval, today, plot, tmpdir, sports[1..]);
      SportMessagesNonEmpty(events, interval, today, plot, tmpdir, sports[0]);
    }
  }

  lemma SportMessagesNonEmpty(events: seq<CalTable.Event>, interval: TriggerInterval, today: Dates.Date,
                              plot: (CalRegistry.ImageRule, CalTable.Table) -> Option<string>,
                              tmpdir: string, sport: Sport)
    requires Dates.Valid(today)
    ensures forall text :: Message(text) in SportRun(events, interval, today, plot, tmpdir, sport).sent ==> text != ""
  {
    match SportTable(events, sport)
    case Err(e) =>
    case Ok(t) =>
      if Reported(t, interval, today) {
        var rules := CalRegistry.MessageFunctionRegistry(sport, interval);
        CalRegistry.RegistryWellFormed(sport, interval);
        MessageSendsMeaning(RuleOutputs(rules, t));
        PhotoSendsMeaning(PlotOutputs(CalRegistry.ImageFunctionRegistry(sport, interval, tmpdir), t, plot));
      }
  }

  /** The daily report sends no photos, and a weekly report at most one per sport,
      after that sport's messages. */
  lemma SportReportShape(t: CalTable.Table, sport: Sport, interval: TriggerInterval,
                         plot: (CalRegistry.ImageRule, CalTable.Table) -> Option<string>, tmpdir: string)
    requires |t| > 0
    ensures var report := SportReport(t, sport, interval, plot, tmpdir);
      (interval == Daily ==> forall s :: s in report ==> s.Message?) &&
      (forall i, j :: 0 <= i < j < |report| && report[i].Photo? ==> report[j].Photo?)
  {
    var rules := CalRegistry.MessageFunctionRegistry(sport, interval);
    CalRegistry.RegistryWellFormed(sport, interval);
    var images := CalRegistry.ImageFunctionRegistry(sport, interval, tmpdir);
    CalRegistry.ImageRegistryShape(sport, interval, tmpdir);
    var messages := MessageSends(RuleOutputs(rules, t));
    var photos := PhotoSends(PlotOutputs(images, t, plot));
    MessageSendsMeaning(RuleOutputs(rules, t));
    PhotoSendsMeaning(PlotOutputs(images, t, plot));
    forall i | 0 <= i < |messages| ensures messages[i].Message? {
      assert messages[i] in messages;
    }
    forall i | 0 <= i < |photos| ensures photos[i].Photo? {
      assert photos[i] in photos;
    }
    MessagesThenPhotos(messages, photos);
  }

  lemma MessagesThenPhotos(a: seq<Send>, b: seq<Send>)
    requires forall i :: 0 <= i < |a| ==> a[i].Message?
    requires forall i :: 0 <= i < |b| ==> b[i].Photo?
    ensures forall i, j :: 0 <= i < j < |a + b| && (a + b)[i].Photo? ==> (a + b)[j].Photo?
  {
    forall i, j | 0 <= i < j < |a + b| && (a + b)[i].Photo?
      ensures (a + b)[j].Photo?
    {
      if i < |a| {
        assert false;
      }
    }
  }

  // ---------------------------------------------------------------------------
  // main

  /** The job a request selects. */
  datatype Job = OrgJob | CalendarJob(interval: TriggerInterval)

  /** main's dispatch on the kind parse_payload returned. */
  function Dispatch(kind: Payload): (r: Result<Job, DriverError>)
    ensures r == Ok(OrgJob) <==> kind == Kind(JString("org"))
    ensures r == Ok(CalendarJob(Daily)) <==> kind == Kind(JString("calendar"))
    ensures r == Ok(CalendarJob(Weekly)) <==> kind == Kind(JString("calendar_weekly"))
    ensures r.Err? <==> r == Err(UnexpectedKind(kind))
  {
    if kind == Kind(JString("org")) then Ok(OrgJob)
    else if kind == Kind(JString("calendar")) then Ok(CalendarJob(Daily))
    else if kind == Kind(JString("calendar_weekly")) then Ok(CalendarJob(Weekly))
    else Err(UnexpectedKind(kind))
  }

  /** A request without a kind, and a request that is not JSON, are refused. */
  lemma DefaultAndMalformedRejected()
    ensures ParsePayload(Some(JObject(map[]))) == Ok(Kind(JString("default")))
    ensures Dispatch(Kind(JString("default"))).Err?
    ensures ParsePayload(None) == Ok(ErrorTuple("JSON Error", 400))
    ensures Dispatch(ErrorTuple("JSON Error", 400)).Err?
  {
  }

  /** Everything a run reads besides the request: the week files, the journal
      images, the calendar events, a reference date, the plots and their directory.
      The org job takes its week from the clock on each request; the calendar job
      uses the date on which the calendar module was imported. One `today` stands
      for both, which agree only while the process has not outlived that day. */
  datatype World = World(files: map<int, Org.WeekFile>, images: Org.Frame -> seq<string>,
                         events: seq<CalTable.Event>, today: Dates.Date,
                         plot: (CalRegistry.ImageRule, CalTable.Table) -> Option<string>, tmpdir: string)

  /** What main sends for a decoded request body (None when it is not JSON). */
  function MainRun(reading: Org.Reading, decoded: Option<Json>, w: World): Run
    requires Dates.Valid(w.today)
  {
    match ParsePayload(decoded)
    case Err(_) => Run([], Some(AttributeError))
    case Ok(kind) =>
      match Dispatch(kind)
      case Err(e) => Run([], Some(e))
      case Ok(OrgJob) => OrgLogRun(reading, w.files, ThisWeek(w.today), w.images)
      case Ok(CalendarJob(interval)) => GcalRun(w.events, interval, w.today, w.plot, w.tmpdir, AllSports)
  }

  /** main: parse the request, then run the job it names. */
  method HandleRequest(bot: Bot, reading: Org.Reading, decoded: Option<Json>, w: World) returns (error: Option<DriverError>)
    requires Dates.Valid(w.today)
    modifies bot
    ensures bot.sent == old(bot.sent) + MainRun(reading, decoded, w).sent
    ensures error == MainRun(reading, decoded, w).error
  {
    var payload := ParsePayload(decoded);
    if payload.Err? {
      return Some(AttributeError);
    }
    var job := Dispatch(payload.value);
    if job.Err? {
      return Some(job.error);
    }
    if job.value.OrgJob? {
      error := OrgLog(bot, reading, w.files, ThisWeek(w.today), w.images);
    } else {
      error := Gcal(bot, w.events, job.value.interval, w.today, w.plot, w.tmpdir);
    }
  }
}
