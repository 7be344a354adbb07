/** Quiet hours (internal/alerts/quiet_hours_schedule.go, and the scope of a window in
    internal/alerts/alerts.go). Instants are nanoseconds since the epoch in UTC, days
    are numbered from 1 January 1970. */
module QuietHours {
  import opened Common
  import opened Calendar

  /** The offset from UTC in force at an instant. */
  type Zone = int -> int

  /** A service, container or process silenced by a window. */
  datatype QuietTarget = QuietTarget(kind: string, name: string)

  datatype Window = Window(
    user: string, system: string, sensor: string,
    alerts: seq<string>, rules: seq<string>, targets: seq<QuietTarget>,
    kind: string, start: int, end: int, timezone: string, days: seq<int>, weeks: seq<int>)

  const LAST_DAY_OF_MONTH := 32
  const LAST_WEEK_OF_MONTH := 5

  // ----------------------------------------------------------------- the schedule

  function Location(load: string -> Option<Zone>, name: string): Zone {
    if name == "" || load(name).None? then (_ => 0) else load(name).value
  }

  /** The local time at an instant, counted from the epoch's local midnight. */
  function Local(zone: Zone, t: int): int {
    t + zone(t)
  }

  function DayNumber(local: int): int {
    local / 86_400_000_000_000
  }

  function MinutesOfDay(local: int): (minutes: int)
    ensures 0 <= minutes < 1440
  {
    local % 86_400_000_000_000 / 60_000_000_000
  }

  function IsoWeekday(day: int): (w: int)
    ensures 1 <= w <= 7
  {
    if Weekday(day) == 0 then 7 else Weekday(day)
  }

  function MonthOf(day: int): (m: Month)
    ensures IsMonth(m) && InMonth(m, day)
  {
    Month(DateOf(day).year, DateOf(day).month)
  }

  /** Day zero of the following month. */
  function DaysInMonth(day: int): int {
    DateOf(FirstOf(NextMonth(MonthOf(day))) - 1).day
  }

  predicate MonthlyMatches(days: seq<int>, weeks: seq<int>, dayOfMonth: int, weekday: int, daysInMonth: int) {
    if |weeks| == 0 then
      dayOfMonth in days || (LAST_DAY_OF_MONTH in days && dayOfMonth == daysInMonth)
    else
      && weekday in days
      && ((dayOfMonth - 1) / 7 + 1 in weeks || (LAST_WEEK_OF_MONTH in weeks && dayOfMonth + 7 > daysInMonth))
  }

  predicate QuietDayMatches(kind: string, days: seq<int>, weeks: seq<int>, day: int) {
    if kind == "weekly" then IsoWeekday(day) in days
    else if kind == "monthly" then
      MonthlyMatches(days, weeks, DateOf(day).day, IsoWeekday(day), DaysInMonth(day))
    else true
  }

  /** The hours of a window at a local time, and the day the occurrence started. */
  predicate Running(matches: int -> bool, start: int, end: int, local: int) {
    var minutes := MinutesOfDay(local);
    if start < end then start <= minutes < end && matches(DayNumber(local))
    else if start > end then
      if minutes >= start then matches(DayNumber(local)) else minutes < end && matches(DayNumber(local) - 1)
    else false
  }

  predicate QuietWindowActive(load: string -> Option<Zone>, window: Window, now: int) {
    if window.kind == "one-time" || window.kind == "" then window.start <= now < window.end
    else
      var zone := Location(load, window.timezone);
      Running(day => QuietDayMatches(window.kind, window.days, window.weeks, day),
              MinutesOfDay(Local(zone, window.start)), MinutesOfDay(Local(zone, window.end)), Local(zone, now))
  }

  /** Local time is that of the window's time zone, and UTC without one that is known. */
  lemma {:induction false} ZoneOrUtc(load: string -> Option<Zone>, name: string, t: int)
    ensures name == "" || load(name).None? ==> Local(Location(load, name), t) == t
    ensures name != "" && load(name).Some? ==> Local(Location(load, name), t) - t == load(name).value(t)
  {
  }

  // ------------------------------------------------- active means inside an occurrence

  /** A minute of a day as local time. */
  function At(day: int, minutes: int): int {
    day * 86_400_000_000_000 + minutes * 60_000_000_000
  }

  /** The hours of the occurrence that starts on a day: up to the end on the same day, or
      on the next one if the end is not after the start; equal ends leave no hours. */
  predicate Spans(start: int, end: int, day: int, local: int) {
    start != end && At(day, start) <= local < At(if start < end then day else day + 1, end)
  }

  lemma {:induction false} MinutesPlace(local: int, minutes: int, day: int)
    requires 0 <= minutes < 1440
    ensures At(DayNumber(local), 0) <= local < At(DayNumber(local) + 1, 0)
    ensures MinutesOfDay(local) >= minutes <==> local >= At(DayNumber(local), minutes)
  {
  }

  lemma {:induction false} SpansOnlyNear(start: int, end: int, day: int, local: int)
    requires 0 <= start < 1440 && 0 <= end < 1440 && Spans(start, end, day, local)
    ensures day == DayNumber(local) || (start > end && day == DayNumber(local) - 1)
  {
    MinutesPlace(local, start, day);
  }

  lemma {:induction false} SpansMinutes(start: int, end: int, local: int)
    requires 0 <= start < 1440 && 0 <= end < 1440
    ensures var minutes, today := MinutesOfDay(local), DayNumber(local);
      && (start < end ==> (Spans(start, end, today, local) <==> start <= minutes < end))
      && (start > end ==> (Spans(start, end, today, local) <==> minutes >= start))
      && (start > end ==> (Spans(start, end, today - 1, local) <==> minutes < end))
  {
    MinutesPlace(local, start, 0);
    MinutesPlace(local, end, 0);
  }

  lemma {:induction false} RunningIffSpans(matches: int -> bool, start: int, end: int, local: int)
    requires 0 <= start < 1440 && 0 <= end < 1440
    ensures Running(matches, start, end, local) <==> exists day :: matches(day) && Spans(start, end, day, local)
  {
    SpansMinutes(start, end, local);
    if day :| matches(day) && Spans(start, end, day, local) {
      SpansOnlyNear(start, end, day, local);
    }
    if Running(matches, start, end, local) {
      var day := if start > end && MinutesOfDay(local) < start then DayNumber(local) - 1 else DayNumber(local);
      assert matches(day) && Spans(start, end, day, local);
    }
  }

  /** A recurring window is active exactly inside the hours of an occurrence that starts
      on a matching local day. */
  lemma {:induction false} ActiveIffInOccurrence(load: string -> Option<Zone>, window: Window, now: int)
    requires window.kind != "one-time" && window.kind != ""
    ensures var zone := Location(load, window.timezone);
      QuietWindowActive(load, window, now) <==>
      exists day ::
        && QuietDayMatches(window.kind, window.days, window.weeks, day)
        && Spans(MinutesOfDay(Local(zone, window.start)), MinutesOfDay(Local(zone, window.end)), day, Local(zone, now))
  {
    var zone := Location(load, window.timezone);
    var start, end := MinutesOfDay(Local(zone, window.start)), MinutesOfDay(Local(zone, window.end));
    var matches := day => QuietDayMatches(window.kind, window.days, window.weeks, day);
    RunningIffSpans(matches, start, end, Local(zone, now));
    if day :| matches(day) && Spans(start, end, day, Local(zone, now)) {
      assert QuietDayMatches(window.kind, window.days, window.weeks, day);
    }
    if day :| QuietDayMatches(window.kind, window.days, window.weeks, day) && Spans(start, end, day, Local(zone, now)) {
      assert matches(day);
    }
  }

  /** A one-time window is active from its start to its end, the end excluded. */
  lemma {:induction false} OneTimeIsOnce(load: string -> Option<Zone>, window: Window, now: int)
    requires window.kind == "one-time" || window.kind == ""
    ensures QuietWindowActive(load, window, now) <==> now >= window.start && now < window.end
    ensures QuietWindowActive(load, window, window.start) <==> window.start < window.end
    ensures !QuietWindowActive(load, window, window.end)
  {
  }

  /** A daily window runs on every day. */
  lemma {:induction false} DailyIsEveryDay(days: seq<int>, weeks: seq<int>, day: int)
    ensures QuietDayMatches("daily", days, weeks, day)
  {
  }

  /** In any seven days in a row a weekly window selects exactly one day for each of its
      weekdays, Monday being 1: 1 January 1970 was a Thursday. */
  lemma {:induction false} WeeklySelectsOne(first: int, weekday: int, weeks: seq<int>) returns (day: int)
    requires 1 <= weekday <= 7
    ensures first <= day < first + 7 && (day - (weekday - 4)) % 7 == 0
    ensures forall n :: first <= n < first + 7 ==> (QuietDayMatches("weekly", [weekday], weeks, n) <==> n == day)
  {
    day := first + Until(first, weekday);
    UntilMeets(first, day, weekday);
    IsoIs(day);
    forall n | first <= n < first + 7 ensures QuietDayMatches("weekly", [weekday], weeks, n) <==> n == day {
      UntilMeets(first, n, weekday);
      WeeksAndDays(0, n - day);
    }
  }

  /** A weekly window runs on the days of each of its weekdays. */
  lemma {:induction false} WeeklyIsAnyOf(days: seq<int>, weeks: seq<int>, day: int)
    ensures QuietDayMatches("weekly", days, weeks, day) <==>
            exists i :: 0 <= i < |days| && QuietDayMatches("weekly", [days[i]], weeks, day)
  {
  }

  // ----------------------------------------------------------------- days of a month

  /** The number of days from `first` to `day` that fall on a weekday. */
  function CountWeekday(first: int, day: int, weekday: int): nat
    decreases day - first
  {
    if day < first then 0
    else CountWeekday(first, day - 1, weekday) + (if IsoWeekday(day) == weekday then 1 else 0)
  }

  /** Whether a day is its month's last on its weekday. */
  ghost predicate LastOfItsWeekday(day: int) {
    forall later :: later > day && IsoWeekday(later) == IsoWeekday(day) ==> !InMonth(MonthOf(day), later)
  }

  /** How far the first such weekday is from a day. */
  function Until(first: int, weekday: int): (o: int)
    ensures 0 <= o < 7
  {
    (weekday - IsoWeekday(first)) % 7
  }

  lemma {:induction false} IsoIs(day: int)
    ensures IsoWeekday(day) == (day + 3) % 7 + 1
  {
  }

  lemma {:induction false} WeeksAndDays(weeks: int, days: int)
    requires -7 < days < 7
    ensures (7 * weeks + days) % 7 == 0 <==> days == 0
  {
  }

  lemma {:induction false} UntilMeets(first: int, day: int, weekday: int)
    requires 1 <= weekday <= 7
    ensures IsoWeekday(day) == weekday <==> (day - first - Until(first, weekday)) % 7 == 0
  {
    IsoIs(first);
    IsoIs(day);
    var apart := weekday - IsoWeekday(first);
    var weeks := (day + 3) / 7 - (first + 3) / 7 + apart / 7;
    assert day - first - Until(first, weekday) == 7 * weeks + (IsoWeekday(day) - weekday);
    WeeksAndDays(weeks, IsoWeekday(day) - weekday);
  }

  lemma {:induction false} WeekdaysApart(a: int, b: int)
    requires a < b
    ensures IsoWeekday(a) == IsoWeekday(b) ==> b >= a + 7
    ensures b == a + 7 ==> IsoWeekday(a) == IsoWeekday(b)
  {
    IsoIs(a);
    IsoIs(b);
  }

  lemma {:induction false} WeekSteps(x: int)
    ensures x / 7 == (x - 1) / 7 + if x % 7 == 0 then 1 else 0
  {
  }

  lemma {:induction false} CountIsWeeks(first: int, day: int, weekday: int)
    requires 1 <= weekday <= 7 && day >= first - 1
    ensures CountWeekday(first, day, weekday) ==
            if day - first < Until(first, weekday) then 0 else (day - first - Until(first, weekday)) / 7 + 1
    decreases day - first
  {
    if day >= first {
      var x := day - first - Until(first, weekday);
      CountIsWeeks(first, day - 1, weekday);
      UntilMeets(first, day, weekday);
      WeekSteps(x);
      assert day - 1 - first - Until(first, weekday) == x - 1;
      assert -7 < x < 0 ==> x % 7 != 0;
      assert (0 - 1) / 7 == -1;
    }
  }

  function EndOf(m: Month): int
    requires IsMonth(m)
  {
    FirstOf(m) + Length(m.year, m.month)
  }

  lemma {:induction false} NextFirst(m: Month, first: int, next: int)
    requires IsMonth(m) && DateOf(first) == Date(m.year, m.month, 1)
    requires DateOf(next) == Date(NextMonth(m).year, NextMonth(m).month, 1)
    ensures next == first + Length(m.year, m.month) && InMonth(m, next - 1)
  {
    MonthPasses(m, first);
    DatesDiffer(first + Length(m.year, m.month), next);
    RangeInMonth(m, first, next - 1);
  }

  lemma {:induction false} MonthEnds(m: Month)
    requires IsMonth(m)
    ensures EndOf(m) == FirstOf(NextMonth(m)) && InMonth(m, EndOf(m) - 1)
  {
    FirstOfIsFirst(m);
    FirstOfIsFirst(NextMonth(m));
    NextFirst(m, FirstOf(m), FirstOf(NextMonth(m)));
  }

  /** Where a day is in its month. */
  lemma {:induction false} PlaceInMonth(m: Month, day: int)
    requires IsMonth(m) && InMonth(m, day)
    ensures MonthOf(day) == m && FirstOf(m) <= day < EndOf(m)
    ensures DateOf(day).day == day - FirstOf(m) + 1 && DaysInMonth(day) == EndOf(m) - FirstOf(m)
  {
    MonthEnds(m);
    MonthIsRange(m, day);
    MonthIsRange(m, EndOf(m) - 1);
  }

  lemma {:induction false} LastDayIff(day: int)
    ensures DateOf(day).day == DaysInMonth(day) <==> !InMonth(MonthOf(day), day + 1)
  {
    var m := MonthOf(day);
    PlaceInMonth(m, day);
    MonthIsRange(m, day + 1);
  }

  lemma {:induction false} LastOfItsWeekdayIff(m: Month, day: int)
    requires IsMonth(m) && InMonth(m, day)
    ensures day + 7 >= EndOf(m) <==> LastOfItsWeekday(day)
  {
    PlaceInMonth(m, day);
    if day + 7 >= EndOf(m) {
      forall later | later > day && IsoWeekday(later) == IsoWeekday(day) ensures !InMonth(MonthOf(day), later) {
        WeekdaysApart(day, later);
        MonthIsRange(m, later);
      }
    } else {
      WeekdaysApart(day, day + 7);
      MonthIsRange(m, day + 7);
      assert InMonth(MonthOf(day), day + 7);
    }
  }

  /** Which occurrence of its weekday a day is in its month. */
  function Occurrence(day: int): nat {
    CountWeekday(FirstOf(MonthOf(day)), day, IsoWeekday(day))
  }

  predicate LastDay(day: int) {
    !InMonth(MonthOf(day), day + 1)
  }

  lemma {:induction false} WeeksMean(day: int)
    ensures Occurrence(day) == (DateOf(day).day - 1) / 7 + 1
    ensures LastOfItsWeekday(day) <==> DateOf(day).day + 7 > DaysInMonth(day)
  {
    var m := MonthOf(day);
    PlaceInMonth(m, day);
    LastOfItsWeekdayIff(m, day);
    CountInMonth(m, day);
  }

  /** Without weeks, a monthly window's days are days of the month, 32 being the last. */
  lemma {:induction false} MonthlyDays(days: seq<int>, day: int)
    ensures QuietDayMatches("monthly", days, [], day) <==> DateOf(day).day in days || (32 in days && LastDay(day))
  {
    LastDayIff(day);
  }

  /** With weeks, its days are weekdays, and its weeks the occurrences of them in the
      month, 5 being the last. */
  lemma {:induction false} MonthlyWeeks(days: seq<int>, weeks: seq<int>, day: int)
    requires |weeks| > 0
    ensures QuietDayMatches("monthly", days, weeks, day) <==>
            IsoWeekday(day) in days && (Occurrence(day) in weeks || (5 in weeks && LastOfItsWeekday(day)))
  {
    WeeksMean(day);
    MonthlyByNumbers(days, weeks, DateOf(day).day, IsoWeekday(day), DaysInMonth(day), Occurrence(day),
                     LastOfItsWeekday(day));
  }

  lemma {:induction false} MonthlyByNumbers(days: seq<int>, weeks: seq<int>, dayOfMonth: int, weekday: int,
                                            daysInMonth: int,
                                            occurrence: int, last: bool)
    requires |weeks| > 0 && occurrence == (dayOfMonth - 1) / 7 + 1 && (last <==> dayOfMonth + 7 > daysInMonth)
    ensures MonthlyMatches(days, weeks, dayOfMonth, weekday, daysInMonth) <==>
            weekday in days && (occurrence in weeks || (5 in weeks && last))
  {
  }

  lemma {:induction false} CountInMonth(m: Month, day: int)
    requires IsMonth(m) && InMonth(m, day)
    ensures CountWeekday(FirstOf(m), day, IsoWeekday(day)) == (DateOf(day).day - 1) / 7 + 1
  {
    PlaceInMonth(m, day);
    WeekOf(FirstOf(m), day);
  }

  lemma {:induction false} WeekOf(first: int, day: int)
    requires day >= first
    ensures CountWeekday(first, day, IsoWeekday(day)) == (day - first) / 7 + 1
  {
    var x, o := day - first, Until(first, IsoWeekday(day));
    CountIsWeeks(first, day, IsoWeekday(day));
    UntilMeets(first, day, IsoWeekday(day));
    assert (x - o) % 7 == 0 ==> x / 7 == (x - o) / 7;
  }

  /** In every month, week 1 to 4 selects exactly one day: the weekday's k-th. */
  lemma {:induction false} WeekSelectsKth(m: Month, weekday: int, k: int) returns (day: int)
    requires IsMonth(m) && 1 <= weekday <= 7 && 1 <= k <= 4
    ensures InMonth(m, day) && IsoWeekday(day) == weekday && CountWeekday(FirstOf(m), day, weekday) == k
    ensures forall n :: InMonth(m, n) ==> (QuietDayMatches("monthly", [weekday], [k], n) <==> n == day)
  {
    var first := FirstOf(m);
    day := first + Until(first, weekday) + 7 * (k - 1);
    MonthIsRange(m, day);
    SameWeek(first, day, weekday, k);
    WeekOf(first, day);
    forall n | InMonth(m, n) ensures QuietDayMatches("monthly", [weekday], [k], n) <==> n == day {
      MonthIsRange(m, n);
      KthIff(first, weekday, k, n);
    }
  }

  lemma {:induction false} KthIff(first: int, weekday: int, k: int, n: int)
    requires first <= n && DateOf(n).day == n - first + 1 && 1 <= weekday <= 7 && 1 <= k <= 4
    ensures QuietDayMatches("monthly", [weekday], [k], n) <==> n == first + Until(first, weekday) + 7 * (k - 1)
  {
    SameWeek(first, n, weekday, k);
    OneWeek(weekday, k, n - first + 1, IsoWeekday(n), DaysInMonth(n));
  }

  lemma {:induction false} OneWeek(weekday: int, k: int, dayOfMonth: int, isoWeekday: int, daysInMonth: int)
    requires k <= 4
    ensures MonthlyMatches([weekday], [k], dayOfMonth, isoWeekday, daysInMonth) <==>
            isoWeekday == weekday && (dayOfMonth - 1) / 7 + 1 == k
  {
  }

  lemma {:induction false} SameWeek(first: int, n: int, weekday: int, k: int)
    requires n >= first && 1 <= weekday <= 7 && k >= 1
    ensures IsoWeekday(n) == weekday && (n - first) / 7 + 1 == k <==> n == first + Until(first, weekday) + 7 * (k - 1)
  {
    UntilMeets(first, n, weekday);
    var x, o := n - first, Until(first, weekday);
    assert (x - o) % 7 == 0 ==> x == o + 7 * (x / 7);
  }

  /** In every month, week 5 selects exactly one day: the weekday's last. */
  lemma {:induction false} WeekFiveSelectsLast(m: Month, weekday: int) returns (day: int)
    requires IsMonth(m) && 1 <= weekday <= 7
    ensures InMonth(m, day) && IsoWeekday(day) == weekday && LastOfItsWeekday(day)
    ensures forall n :: InMonth(m, n) ==> (QuietDayMatches("monthly", [weekday], [5], n) <==> n == day)
  {
    var last := EndOf(m) - 7;
    day := last + Until(last, weekday);
    UntilMeets(last, day, weekday);
    MonthIsRange(m, day);
    LastOfItsWeekdayIff(m, day);
    forall n | InMonth(m, n) ensures QuietDayMatches("monthly", [weekday], [5], n) <==> n == day {
      PlaceInMonth(m, n);
      LastWeek(m, n, weekday, day);
    }
  }

  lemma {:induction false} LastWeek(m: Month, n: int, weekday: int, day: int)
    requires IsMonth(m) && FirstOf(m) <= n < EndOf(m) && 1 <= weekday <= 7
    requires EndOf(m) - 7 <= day < EndOf(m) && IsoWeekday(day) == weekday
    ensures IsoWeekday(n) == weekday && ((n - FirstOf(m)) / 7 + 1 == 5 || n + 7 >= EndOf(m)) <==> n == day
  {
    if n < day {
      WeekdaysApart(n, day);
    } else if n > day {
      WeekdaysApart(day, n);
    }
  }

  /** In every month, day 32 selects exactly the last day. */
  lemma {:induction false} DayThirtyTwoSelectsLast(m: Month) returns (day: int)
    requires IsMonth(m)
    ensures InMonth(m, day) && !InMonth(m, day + 1)
    ensures forall n :: InMonth(m, n) ==> (QuietDayMatches("monthly", [32], [], n) <==> n == day)
  {
    day := EndOf(m) - 1;
    MonthEnds(m);
    MonthIsRange(m, day + 1);
    forall n | InMonth(m, n) ensures QuietDayMatches("monthly", [32], [], n) <==> n == day {
      PlaceInMonth(m, n);
    }
  }

  // ------------------------------------------------------------ what is silenced

  /** The alert or state rule a notification is about; empty parts are left open. */
  datatype Query = Query(user: string, system: string, sensor: string, kind: string, rule: string, target: string)

  /** Case-insensitive equality is a parameter. */
  predicate TargetMatches(equalFold: (string, string) -> bool, target: QuietTarget, kind: string, name: string) {
    if kind == "ServiceState" then target.kind == "service" && equalFold(target.name, name)
    else if kind == "ContainerState" then target.kind == "container" && equalFold(target.name, name)
    else if kind == "ProcessState" then target.kind == "process" && equalFold(target.name, name)
    else false
  }

  /** A target silences the notifications about its own kind of state rule and its own name. */
  lemma {:induction false} TargetsAreOfTheirKind(equalFold: (string, string) -> bool, target: QuietTarget,
                                                 kind: string, name: string)
    ensures TargetMatches(equalFold, target, kind, name) <==>
            && (target.kind, kind) in {("service", "ServiceState"), ("container", "ContainerState"),
                                       ("process", "ProcessState")}
            && equalFold(target.name, name)
  {
  }

  predicate Scopeless(window: Window) {
    |window.alerts| == 0 && |window.rules| == 0 && |window.targets| == 0
  }

  predicate QuietWindowApplies(equalFold: (string, string) -> bool, window: Window, query: Query) {
    || Scopeless(window)
    || (query.kind != "" && query.kind in window.alerts)
    || (query.rule != "" && query.rule in window.rules)
    || (query.target != "" && exists t :: t in window.targets && TargetMatches(equalFold, t, query.kind, query.target))
  }

  /** Global windows, and the windows of the system or of the sensor. */
  predicate Covers(window: Window, query: Query) {
    && window.user == query.user
    && ((window.system == "" && window.sensor == "")
        || (query.system != "" && window.system == query.system)
        || (query.sensor != "" && window.sensor == query.sensor))
  }

  /** A window of a system or a sensor is for that one, and one of neither for all of them. */
  lemma {:induction false} CoversItsOwn(window: Window, query: Query)
    ensures window.user != query.user ==> !Covers(window, query)
    ensures window.user == query.user && window.system == "" && window.sensor == "" ==> Covers(window, query)
    ensures window.user == query.user && window.system != "" && window.sensor == "" ==>
              (Covers(window, query) <==> query.system == window.system)
    ensures window.user == query.user && window.system == "" && window.sensor != "" ==>
              (Covers(window, query) <==> query.sensor == window.sensor)
    ensures window.user == query.user && window.system != "" && window.sensor != "" ==>
              (Covers(window, query) <==> query.system == window.system || query.sensor == window.sensor)
  {
  }

  function OnlyAlert(window: Window, kind: string): Window {
    window.(alerts := [kind], rules := [], targets := [])
  }

  function OnlyRule(window: Window, rule: string): Window {
    window.(alerts := [], rules := [rule], targets := [])
  }

  function OnlyTarget(window: Window, target: QuietTarget): Window {
    window.(alerts := [], rules := [], targets := [target])
  }

  /** A window limited to one alert, one rule or one target is for that one; and a window
      limited to several of them is for each. */
  lemma {:induction false} AppliesToEach(equalFold: (string, string) -> bool, window: Window, query: Query)
    ensures window.alerts == [] && window.rules == [] && window.targets == [] ==>
              QuietWindowApplies(equalFold, window, query)
    ensures forall kind :: QuietWindowApplies(equalFold, OnlyAlert(window, kind), query) <==>
                           query.kind == kind && kind != ""
    ensures forall rule :: QuietWindowApplies(equalFold, OnlyRule(window, rule), query) <==>
                           query.rule == rule && rule != ""
    ensures forall target :: QuietWindowApplies(equalFold, OnlyTarget(window, target), query) <==>
                             query.target != "" && TargetMatches(equalFold, target, query.kind, query.target)
    ensures window.alerts != [] || window.rules != [] || window.targets != [] ==>
              (QuietWindowApplies(equalFold, window, query) <==>
               || (exists k :: k in window.alerts && QuietWindowApplies(equalFold, OnlyAlert(window, k), query))
               || (exists r :: r in window.rules && QuietWindowApplies(equalFold, OnlyRule(window, r), query))
               || (exists t :: t in window.targets && QuietWindowApplies(equalFold, OnlyTarget(window, t), query)))
  {
    forall target ensures QuietWindowApplies(equalFold, OnlyTarget(window, target), query) <==>
                          query.target != "" && TargetMatches(equalFold, target, query.kind, query.target) {
      assert target in OnlyTarget(window, target).targets;
    }
  }

  predicate Silences(load: string -> Option<Zone>, equalFold: (string, string) -> bool, window: Window, query: Query,
                     now: int) {
    Covers(window, query) && QuietWindowApplies(equalFold, window, query) && QuietWindowActive(load, window, now)
  }

  predicate IsSilenced(load: string -> Option<Zone>, equalFold: (string, string) -> bool,
                       windows: map<string, Window>, query: Query, now: int) {
    exists id :: id in windows && Silences(load, equalFold, windows[id], query, now)
  }

  method IsSilencedFor(load: string -> Option<Zone>, equalFold: (string, string) -> bool,
                       windows: map<string, Window>, query: Query, now: int) returns (silenced: bool)
    ensures silenced <==> IsSilenced(load, equalFold, windows, query, now)
  {
    var todo := set id | id in windows && Covers(windows[id], query);
    while todo != {}
      invariant todo <= windows.Keys
      invariant forall id :: id in windows && id !in todo ==> !Silences(load, equalFold, windows[id], query, now)
      invariant forall id :: id in todo ==> Covers(windows[id], query)
      decreases |todo|
    {
      var id :| id in todo;
      todo := todo - {id};
      if !QuietWindowApplies(equalFold, windows[id], query) {
        continue;
      }
      if QuietWindowActive(load, windows[id], now) {
        return true;
      }
    }
    return false;
  }
}
