/** State rules on services, containers and processes
    (internal/alerts/alerts_state.go): what fires, which targets a rule evaluates,
    and how the status of a target follows its observations.

    Glob matching and lower-casing come from Go's libraries and are parameters. */
module StateRules {
  import opened Common

  datatype Globs = Globs(lower: string -> string, pathMatch: (string, string) -> bool)

  datatype Rule = Rule(patterns: seq<string>, condition: string, states: seq<string>, subStates: seq<string>,
                       configuredCycles: int, metric: string, threshold: real)
  {
    /** At least one observation has to fire. */
    function Cycles(): nat {
      if configuredCycles < 1 then 1 else configuredCycles
    }
  }

  datatype Observation = Observation(state: string, sub: string, cpu: real, mem: real, count: int)

  /** What a rule sees of a target that was not reported. */
  function Absent(absentState: string): Observation {
    Observation(absentState, "", 0.0, 0.0, 0)
  }

  function Metric(obs: Observation, name: string): real {
    if name == "cpu" then obs.cpu
    else if name == "mem" then obs.mem
    else if name == "count" then obs.count as real
    else 0.0
  }

  predicate Fires(rule: Rule, obs: Observation) {
    if rule.metric != "" then
      var value := Metric(obs, rule.metric);
      if rule.condition == "below" then value < rule.threshold else value > rule.threshold
    else
      var matches := (rule.states == [] || obs.state in rule.states)
                     && (rule.subStates == [] || obs.sub in rule.subStates);
      if rule.condition == "is_not" then !matches else matches
  }

  /** Of a metric, one observation is no higher than another. */
  ghost predicate NoHigher(metric: string, a: Observation, b: Observation) {
    && (metric == "cpu" ==> a.cpu <= b.cpu)
    && (metric == "mem" ==> a.mem <= b.mem)
    && (metric == "count" ==> a.count <= b.count)
  }

  /** A rule on a metric looks at that one alone. One on a higher value fires wherever it
      fires at a lower value, and one on a lower value the other way round. */
  lemma {:induction false} HigherFiresToo(rule: Rule, a: Observation, b: Observation)
    requires rule.metric in {"cpu", "mem", "count"} && NoHigher(rule.metric, a, b)
    ensures rule.condition != "below" && Fires(rule, a) ==> Fires(rule, b)
    ensures rule.condition == "below" && Fires(rule, b) ==> Fires(rule, a)
    ensures NoHigher(rule.metric, b, a) ==> (Fires(rule, a) <==> Fires(rule, b))
  {
  }

  /** At its threshold a rule does not fire, and off it exactly one of the two kinds does. */
  lemma {:induction false} ThresholdSeparates(rule: Rule, obs: Observation)
    requires rule.metric != ""
    ensures var value := match rule.metric
                         case "cpu" => obs.cpu
                         case "mem" => obs.mem
                         case "count" => obs.count as real
                         case _ => 0.0;
      var above, below := Fires(rule.(condition := "above"), obs), Fires(rule.(condition := "below"), obs);
      !(above && below) && (above || below <==> value != rule.threshold)
  {
  }

  /** A rule for a state fires in it and in no other, and one against it everywhere else. */
  lemma {:induction false} StatesAreNamed(rule: Rule, obs: Observation, state: string)
    requires rule.metric == "" && rule.subStates == [] && rule.states == [state]
    ensures rule.condition != "is_not" ==> (Fires(rule, obs) <==> obs.state == state)
    ensures rule.condition == "is_not" ==> (Fires(rule, obs) <==> obs.state != state)
  {
  }

  /** Naming states and substates means one of each; naming none leaves them open. */
  lemma {:induction false} SubStatesNarrow(rule: Rule, obs: Observation)
    requires rule.metric == "" && rule.condition != "is_not"
    ensures Fires(rule, obs) <==> Fires(rule.(subStates := []), obs) && Fires(rule.(states := []), obs)
    ensures Fires(rule.(states := [], subStates := []), obs)
    ensures rule.states == [] && rule.subStates != [] ==> (Fires(rule, obs) <==> obs.sub in rule.subStates)
    ensures Fires(rule.(condition := "is_not"), obs) <==> !Fires(rule, obs)
  {
  }

  // ----------------------------------------------------------------- target names

  predicate HasSuffix(s: string, suffix: string) {
    |suffix| <= |s| && s[|s| - |suffix|..] == suffix
  }

  /** Index of the last occurrence, or -1. */
  function LastIndex(s: string, sub: string): (i: int)
    ensures -1 <= i && (i >= 0 ==> HasAt(s, i, sub))
    ensures forall j :: i < j ==> !HasAt(s, j, sub)
  {
    LastIndexUpTo(s, sub, |s| - |sub|)
  }

  function LastIndexUpTo(s: string, sub: string, from: int): (i: int)
    requires from + |sub| <= |s|
    ensures -1 <= i && (i >= 0 ==> HasAt(s, i, sub))
    ensures forall j :: i < j <= from ==> !HasAt(s, j, sub)
    decreases from + 1
  {
    if from < 0 then -1
    else if s[from..from + |sub|] == sub then from
    else LastIndexUpTo(s, sub, from - 1)
  }

  function Trimmed(s: string, suffix: string): seq<string> {
    if HasSuffix(s, suffix) then [s[..|s| - |suffix|]] else []
  }

  /** Both parts of "Print Spooler (Spooler)". */
  function Parts(s: string): seq<string> {
    if HasSuffix(s, ")") then
      var i := LastIndex(s, " (");
      assert i > 0 ==> s[i + 1] == s[i..i + 2][1] && s[|s| - 1] == s[|s| - 1..][0];
      if i > 0 then [s[i + 2..|s| - 1], s[..i]] else []
    else []
  }

  /** The names a pattern is compared with: the full name, a unit without
      ".service", a program without ".exe", and both parts of a name in parentheses. */
  function Candidates(globs: Globs, name: string): seq<string> {
    var low := globs.lower(name);
    [low] + Trimmed(low, ".service") + Trimmed(low, ".exe") + Parts(low)
  }

  lemma {:induction false} TrimmedIs(s: string, suffix: string, c: string)
    ensures c in Trimmed(s, suffix) <==> c + suffix == s
  {
    if HasSuffix(s, suffix) {
      assert s[..|s| - |suffix|] + suffix == s;
    }
    if c + suffix == s {
      assert s[..|s| - |suffix|] == c && s[|s| - |suffix|..] == suffix;
    }
  }

  /** A display name with a short name in parentheses, the last ones of it. */
  ghost predicate InParentheses(name: string, long: string, short: string) {
    name == long + " (" + short + ")" && long != "" && (forall j :: 0 <= j ==> !HasAt(short, j, " ("))
  }

  lemma {:induction false} HasAtWithin(text: string, part: string, from: nat, j: nat, sub: string)
    requires from + |part| <= |text| && text[from..from + |part|] == part
    ensures HasAt(part, j, sub) <==> HasAt(text, from + j, sub) && j + |sub| <= |part|
  {
    var n := |sub|;
    if j + n <= |part| {
      var inner, outer := part[j..j + n], text[from + j..from + j + n];
      assert inner == outer by {
        forall k | 0 <= k < n ensures inner[k] == outer[k] {
          assert part[j + k] == text[from..from + |part|][j + k];
        }
      }
    }
  }

  lemma {:induction false} ParenthesesAt(name: string, i: int)
    requires HasSuffix(name, ")") && i == LastIndex(name, " (") && i > 0
    ensures i + 2 < |name| && InParentheses(name, name[..i], name[i + 2..|name| - 1])
  {
    assert name[i + 1] == name[i..i + 2][1] && name[|name| - 1] == name[|name| - 1..][0];
    var short := name[i + 2..|name| - 1];
    assert name == name[..i] + name[i..i + 2] + short + name[|name| - 1..];
    forall j | 0 <= j ensures !HasAt(short, j, " (") {
      HasAtWithin(name, short, i + 2, j, " (");
    }
  }

  lemma {:induction false} ParenthesesOnce(name: string, long: string, short: string)
    requires InParentheses(name, long, short)
    ensures HasSuffix(name, ")") && LastIndex(name, " (") == |long|
    ensures name[..|long|] == long && name[|long| + 2..|name| - 1] == short
  {
    var n, i := |long|, LastIndex(name, " (");
    assert HasAt(name, n, " (") && name[n + 1] == '(' && name[|name| - 1] == ')';
    assert name[n + 2..|name| - 1] == short;
    if i > n {
      assert name[i] == name[i..i + 2][0] && name[i + 1] == name[i..i + 2][1];
      HasAtWithin(name, short, n + 2, i - n - 2, " (");
    }
  }

  lemma {:induction false} PartsAre(s: string, c: string)
    ensures c in Parts(s) <==> exists long, short :: InParentheses(s, long, short) && (c == long || c == short)
  {
    if long, short :| InParentheses(s, long, short) && (c == long || c == short) {
      ParenthesesOnce(s, long, short);
    }
    if HasSuffix(s, ")") && LastIndex(s, " (") > 0 {
      ParenthesesAt(s, LastIndex(s, " ("));
    }
  }

  /** The names a pattern is compared with, and no others. */
  lemma {:induction false} CandidatesAre(globs: Globs, name: string, c: string)
    ensures var low := globs.lower(name);
      c in Candidates(globs, name) <==>
      || c == low || c + ".service" == low || c + ".exe" == low
      || exists long, short :: InParentheses(low, long, short) && (c == long || c == short)
  {
    var low := globs.lower(name);
    TrimmedIs(low, ".service", c);
    TrimmedIs(low, ".exe", c);
    PartsAre(low, c);
  }

  predicate MatchesName(globs: Globs, rule: Rule, name: string) {
    exists pattern, candidate ::
      pattern in rule.patterns && candidate in Candidates(globs, name) && globs.pathMatch(pattern, candidate)
  }

  predicate IsLiteral(pattern: string) {
    '*' !in pattern && '?' !in pattern && '[' !in pattern
  }

  /** Adds the literal patterns that no name so far answers to, in order. */
  function WithLiterals(globs: Globs, names: set<string>, patterns: seq<string>): set<string> {
    if |patterns| == 0 then names
    else
      var before, pattern := WithLiterals(globs, names, patterns[..|patterns| - 1]), patterns[|patterns| - 1];
      if !IsLiteral(pattern) || exists name :: name in before && pattern in Candidates(globs, name) then before
      else before + {pattern}
  }

  /** What is evaluated before literal patterns are added. */
  function Base(globs: Globs, rule: Rule, observed: set<string>, known: set<string>): set<string> {
    (set name | name in observed && MatchesName(globs, rule, name)) + known
  }

  /** What a rule evaluates: reported names that match, targets it knows, and
      literal patterns that nothing answers to. */
  function TargetNames(globs: Globs, rule: Rule, observed: set<string>, known: set<string>): set<string> {
    WithLiterals(globs, Base(globs, rule, observed, known), rule.patterns)
  }

  lemma {:induction false} WithLiteralsExact(globs: Globs, names: set<string>, patterns: seq<string>)
    ensures var all := WithLiterals(globs, names, patterns);
      && names <= all
      && (forall name :: name in all && name !in names ==> name in patterns && IsLiteral(name))
      && (forall p :: p in patterns && IsLiteral(p) ==>
            p in all || exists name :: name in all && p in Candidates(globs, name))
  {
    if |patterns| == 0 {
    } else {
      var front, last := patterns[..|patterns| - 1], patterns[|patterns| - 1];
      WithLiteralsExact(globs, names, front);
      assert patterns == front + [last];
    }
  }

  /** A literal pattern is only added if none of the names answers to it. */
  lemma {:induction false} AddedIsUnanswered(globs: Globs, names: set<string>, patterns: seq<string>, p: string,
                                             n: string)
    requires p in WithLiterals(globs, names, patterns) && p !in names && n in names
    ensures p !in Candidates(globs, n)
  {
    var front, last := patterns[..|patterns| - 1], patterns[|patterns| - 1];
    if p in WithLiterals(globs, names, front) {
      AddedIsUnanswered(globs, names, front, p, n);
    } else {
      WithLiteralsExact(globs, names, front);
    }
  }

  /** Nothing named is overlooked: every reported match, every known target, and
      for every literal pattern itself or a name that answers to it; and nothing
      else is evaluated. */
  lemma {:induction false} TargetNamesExact(globs: Globs, rule: Rule, observed: set<string>, known: set<string>)
    ensures var all := TargetNames(globs, rule, observed, known);
      && known <= all
      && (forall name :: name in observed && MatchesName(globs, rule, name) ==> name in all)
      && (forall p :: p in rule.patterns && IsLiteral(p) ==>
            p in all || exists name :: name in all && p in Candidates(globs, name))
      && (forall name :: name in all ==>
            name in known || (name in observed && MatchesName(globs, rule, name))
            || (name in rule.patterns && IsLiteral(name)))
  {
    WithLiteralsExact(globs, Base(globs, rule, observed, known), rule.patterns);
  }

  // ------------------------------------------------------------ status of a target

  /** Consecutive firing observations, and whether an incident is open. */
  datatype Status = Status(count: nat, open: bool)

  const QUIET := Status(0, false)

  function NextStatus(rule: Rule, fires: bool, status: Status): Status {
    var count := if fires then status.count + 1 else 0;
    var open := if !status.open && count >= rule.Cycles() then true
                else if status.open && count == 0 then false
                else status.open;
    Status(count, open)
  }

  type Tracked = map<string, Status>

  function StatusOf(tracked: Tracked, name: string): Status {
    if name in tracked then tracked[name] else QUIET
  }

  type Report = map<string, Observation>

  function Seen(report: Report, absentState: string, name: string): Observation {
    if name in report then report[name] else Absent(absentState)
  }

  /** One evaluation of a rule. With `forget`, targets that are gone and quiet are
      dropped unless a pattern names them, as the hub does. */
  function Evaluate(globs: Globs, rule: Rule, absentState: string, report: Report, tracked: Tracked,
                    forget: bool): Tracked {
    map name | name in TargetNames(globs, rule, report.Keys, tracked.Keys)
               && !(forget && name !in report && name !in rule.patterns
                    && After(rule, absentState, report, tracked, name) == QUIET)
      :: After(rule, absentState, report, tracked, name)
  }

  function After(rule: Rule, absentState: string, report: Report, tracked: Tracked, name: string): Status {
    NextStatus(rule, Fires(rule, Seen(report, absentState, name)), StatusOf(tracked, name))
  }

  /** The messages of one evaluation, by target. */
  function Messages(globs: Globs, rule: Rule, absentState: string, report: Report,
                    tracked: Tracked): map<string, bool> {
    map name | name in TargetNames(globs, rule, report.Keys, tracked.Keys)
               && StatusOf(tracked, name).open != After(rule, absentState, report, tracked, name).open
      :: After(rule, absentState, report, tracked, name).open
  }

  /** The targets after a sequence of reports, starting from nothing. */
  function Run(globs: Globs, rule: Rule, absentState: string, reports: seq<Report>, forget: bool): Tracked {
    if |reports| == 0 then map[]
    else Evaluate(globs, rule, absentState, reports[|reports| - 1],
                  Run(globs, rule, absentState, reports[..|reports| - 1], forget), forget)
  }

  // ------------------------------------------------------- streaks and open incidents

  /** Whether a target was evaluated and fired in the last of these reports. */
  predicate FiredLast(globs: Globs, rule: Rule, absentState: string, reports: seq<Report>, name: string, forget: bool)
    requires |reports| > 0
  {
    var report := reports[|reports| - 1];
    && name in TargetNames(globs, rule, report.Keys,
                           Run(globs, rule, absentState, reports[..|reports| - 1], forget).Keys)
    && Fires(rule, Seen(report, absentState, name))
  }

  /** How many of the last reports in a row made a target fire. */
  function Streak(globs: Globs, rule: Rule, absentState: string, reports: seq<Report>, name: string,
                  forget: bool): nat {
    if |reports| == 0 || !FiredLast(globs, rule, absentState, reports, name, forget) then 0
    else 1 + Streak(globs, rule, absentState, reports[..|reports| - 1], name, forget)
  }

  /** After any sequence of reports the count of a target is its trailing streak of
      firing evaluations, and its incident is open exactly when that streak has
      reached the rule's cycles. */
  lemma {:induction false} StatusIsStreak(globs: Globs, rule: Rule, absentState: string, reports: seq<Report>,
                                          name: string, forget: bool)
    ensures var status := StatusOf(Run(globs, rule, absentState, reports, forget), name);
      && status.count == Streak(globs, rule, absentState, reports, name, forget)
      && (status.open <==> status.count >= rule.Cycles())
      && (status.open <==> status.count >= 1 && status.count >= rule.configuredCycles)
  {
    if |reports| == 0 {
    } else {
      var front := reports[..|reports| - 1];
      StatusIsStreak(globs, rule, absentState, front, name, forget);
      TargetNamesExact(globs, rule, reports[|reports| - 1].Keys, Run(globs, rule, absentState, front, forget).Keys);
    }
  }

  /** Reports of the same targets, no higher in a metric. */
  ghost predicate NoneHigher(metric: string, a: seq<Report>, b: seq<Report>) {
    && |a| == |b|
    && forall i :: 0 <= i < |a| ==>
         a[i].Keys == b[i].Keys && forall name :: name in a[i] ==> NoHigher(metric, a[i][name], b[i][name])
  }

  lemma {:induction false} NoneHigherFront(metric: string, a: seq<Report>, b: seq<Report>)
    requires NoneHigher(metric, a, b) && |a| > 0
    ensures NoneHigher(metric, a[..|a| - 1], b[..|b| - 1])
  {
  }

  lemma {:induction false} SameTargets(globs: Globs, rule: Rule, absentState: string, a: seq<Report>, b: seq<Report>)
    requires NoneHigher(rule.metric, a, b)
    ensures Run(globs, rule, absentState, a, false).Keys == Run(globs, rule, absentState, b, false).Keys
  {
    if |a| == 0 {
    } else {
      NoneHigherFront(rule.metric, a, b);
      SameTargets(globs, rule, absentState, a[..|a| - 1], b[..|b| - 1]);
      assert a[|a| - 1].Keys == b[|b| - 1].Keys;
    }
  }

  lemma {:induction false} HigherFiredToo(globs: Globs, rule: Rule, absentState: string, a: seq<Report>,
                                          b: seq<Report>, name: string)
    requires rule.metric in {"cpu", "mem", "count"} && NoneHigher(rule.metric, a, b) && |a| > 0
    ensures rule.condition != "below" && FiredLast(globs, rule, absentState, a, name, false) ==>
              FiredLast(globs, rule, absentState, b, name, false)
    ensures rule.condition == "below" && FiredLast(globs, rule, absentState, b, name, false) ==>
              FiredLast(globs, rule, absentState, a, name, false)
  {
    var n := |a| - 1;
    NoneHigherFront(rule.metric, a, b);
    SameTargets(globs, rule, absentState, a[..n], b[..n]);
    assert a[n].Keys == b[n].Keys;
    HigherFiresToo(rule, Seen(a[n], absentState, name), Seen(b[n], absentState, name));
  }

  lemma {:induction false} HigherStreak(globs: Globs, rule: Rule, absentState: string, a: seq<Report>,
                                        b: seq<Report>, name: string)
    requires rule.metric in {"cpu", "mem", "count"} && NoneHigher(rule.metric, a, b)
    ensures var lower := Streak(globs, rule, absentState, a, name, false);
      var higher := Streak(globs, rule, absentState, b, name, false);
      if rule.condition == "below" then lower >= higher else lower <= higher
  {
    if |a| == 0 {
    } else {
      HigherFiredToo(globs, rule, absentState, a, b, name);
      NoneHigherFront(rule.metric, a, b);
      HigherStreak(globs, rule, absentState, a[..|a| - 1], b[..|b| - 1], name);
    }
  }

  /** A metric that was never lower is never counted for less by a rule on high values, nor
      for more by one on low values, and so with incidents. */
  lemma {:induction false} HigherCountsMore(globs: Globs, rule: Rule, absentState: string, a: seq<Report>,
                                            b: seq<Report>, name: string)
    requires rule.metric in {"cpu", "mem", "count"} && NoneHigher(rule.metric, a, b)
    ensures var lower := StatusOf(Run(globs, rule, absentState, a, false), name);
      var higher := StatusOf(Run(globs, rule, absentState, b, false), name);
      if rule.condition == "below" then higher.count <= lower.count && (higher.open ==> lower.open)
      else lower.count <= higher.count && (lower.open ==> higher.open)
  {
    HigherStreak(globs, rule, absentState, a, b, name);
    StatusIsStreak(globs, rule, absentState, a, name, false);
    StatusIsStreak(globs, rule, absentState, b, name, false);
  }

  // ------------------------------------------------------------ forgetting is invisible

  /** A set of names the rule matches. */
  ghost predicate AllMatch(globs: Globs, rule: Rule, names: set<string>) {
    forall name :: name in names ==> MatchesName(globs, rule, name)
  }

  /** A literal pattern that does not match the name spelled like it, as path.Match has it
      for some patterns with a backslash. */
  ghost predicate Stray(globs: Globs, rule: Rule, p: string) {
    p in rule.patterns && IsLiteral(p) && !MatchesName(globs, rule, p)
  }

  /** What stays of the names evaluated with some reported ones once these are gone. */
  function Lasting(globs: Globs, rule: Rule, reported: set<string>): set<string> {
    set name | name in WithLiterals(globs, reported, rule.patterns) && name in rule.patterns
  }

  /** Losing names never brings a stray pattern up: one that reported names kept from being
      evaluated is kept from it by what lasts, whatever else is reported then. */
  ghost predicate Steady(globs: Globs, rule: Rule) {
    forall p, first, later :: Stray(globs, rule, p) ==> !BringsUp(globs, rule, p, first, later)
  }

  ghost predicate BringsUp(globs: Globs, rule: Rule, p: string, first: set<string>, later: set<string>) {
    && AllMatch(globs, rule, first) && AllMatch(globs, rule, later)
    && p !in WithLiterals(globs, first, rule.patterns)
    && p in WithLiterals(globs, Lasting(globs, rule, first) + later, rule.patterns)
  }

  /** The hub's targets against those of a machine that never forgets; `first` are the
      matching names of the first report. */
  ghost predicate SameView(globs: Globs, rule: Rule, absentState: string, hub: Tracked, full: Tracked,
                           first: set<string>) {
    && (forall name :: StatusOf(hub, name) == StatusOf(full, name))
    && (forall name :: name in hub || name in full ==> MatchesName(globs, rule, name) || Stray(globs, rule, name))
    && (Fires(rule, Absent(absentState)) ==> hub.Keys == full.Keys)
    && (forall p :: Stray(globs, rule, p) ==> (p in hub <==> p in full))
    && AllMatch(globs, rule, first)
    && Lasting(globs, rule, first) <= hub.Keys && WithLiterals(globs, first, rule.patterns) <= full.Keys
    && (forall p :: Stray(globs, rule, p) && p in full ==> p in Lasting(globs, rule, first))
  }

  /** The machine that never forgets adds no literal pattern after the first report. */
  lemma {:induction false} FullIsComplete(globs: Globs, rule: Rule, observed: set<string>, known: set<string>,
                                          first: set<string>, p: string)
    requires WithLiterals(globs, first, rule.patterns) <= known && !MatchesName(globs, rule, p)
    requires p in TargetNames(globs, rule, observed, known)
    ensures p in known
  {
    TargetNamesExact(globs, rule, observed, known);
    if p !in known {
      WithLiteralsExact(globs, first, rule.patterns);
      var n :| n in WithLiterals(globs, first, rule.patterns) && p in Candidates(globs, n);
      AddedIsUnanswered(globs, Base(globs, rule, observed, known), rule.patterns, p, n);
    }
  }

  /** Nor does the hub, of a steady rule, bring up a stray pattern. */
  lemma {:induction false} HubBringsUpNone(globs: Globs, rule: Rule, absentState: string, observed: set<string>,
                                           hub: Tracked, full: Tracked,
                                           first: set<string>, p: string)
    requires SameView(globs, rule, absentState, hub, full, first) && Steady(globs, rule) && Stray(globs, rule, p)
    requires p in TargetNames(globs, rule, observed, hub.Keys)
    ensures p in hub
  {
    if p !in hub {
      var base := Base(globs, rule, observed, hub.Keys);
      var later := base - Lasting(globs, rule, first);
      assert Lasting(globs, rule, first) + later == base;
      assert p !in WithLiterals(globs, first, rule.patterns);
      assert BringsUp(globs, rule, p, first, later);
    }
  }

  /** A name only one of the two evaluates was not reported and stays quiet. */
  lemma {:induction false} OneSidedIsQuiet(globs: Globs, rule: Rule, absentState: string, report: Report, hub: Tracked,
                                           full: Tracked,
                                           first: set<string>, a: Tracked, b: Tracked, name: string)
    requires SameView(globs, rule, absentState, hub, full, first) && Steady(globs, rule)
    requires (a == hub && b == full) || (a == full && b == hub)
    requires name in TargetNames(globs, rule, report.Keys, a.Keys)
    requires name !in TargetNames(globs, rule, report.Keys, b.Keys)
    ensures After(rule, absentState, report, a, name) == QUIET && StatusOf(a, name) == QUIET
  {
    TargetNamesExact(globs, rule, report.Keys, a.Keys);
    TargetNamesExact(globs, rule, report.Keys, b.Keys);
    if !MatchesName(globs, rule, name) {
      StraysAgree(globs, rule, absentState, report, hub, full, first, name);
    } else {
      assert name !in report && name !in b;
      assert a.Keys != b.Keys;
    }
  }

  lemma {:induction false} StraysAgree(globs: Globs, rule: Rule, absentState: string, report: Report, hub: Tracked,
                                       full: Tracked,
                                       first: set<string>, p: string)
    requires SameView(globs, rule, absentState, hub, full, first) && Steady(globs, rule) && Stray(globs, rule, p)
    ensures p in TargetNames(globs, rule, report.Keys, hub.Keys) <==> p in hub
    ensures p in TargetNames(globs, rule, report.Keys, full.Keys) <==> p in full
  {
    TargetNamesExact(globs, rule, report.Keys, hub.Keys);
    TargetNamesExact(globs, rule, report.Keys, full.Keys);
    if p in TargetNames(globs, rule, report.Keys, hub.Keys) {
      HubBringsUpNone(globs, rule, absentState, report.Keys, hub, full, first, p);
    }
    if p in TargetNames(globs, rule, report.Keys, full.Keys) {
      FullIsComplete(globs, rule, report.Keys, full.Keys, first, p);
    }
  }

  lemma {:induction false} AfterAgrees(globs: Globs, rule: Rule, absentState: string, report: Report, hub: Tracked,
                                       full: Tracked,
                                       first: set<string>, name: string)
    requires SameView(globs, rule, absentState, hub, full, first) && Steady(globs, rule)
    ensures StatusOf(Evaluate(globs, rule, absentState, report, hub, true), name)
         == StatusOf(Evaluate(globs, rule, absentState, report, full, false), name)
    ensures name in Messages(globs, rule, absentState, report, hub) <==>
            name in Messages(globs, rule, absentState, report, full)
    ensures name in Messages(globs, rule, absentState, report, hub) ==>
              Messages(globs, rule, absentState, report, hub)[name] ==
                Messages(globs, rule, absentState, report, full)[name]
  {
    var inHub := name in TargetNames(globs, rule, report.Keys, hub.Keys);
    var inFull := name in TargetNames(globs, rule, report.Keys, full.Keys);
    if inHub && !inFull {
      OneSidedIsQuiet(globs, rule, absentState, report, hub, full, first, hub, full, name);
    } else if inFull && !inHub {
      OneSidedIsQuiet(globs, rule, absentState, report, hub, full, first, full, hub, name);
    }
    TargetNamesExact(globs, rule, report.Keys, hub.Keys);
    TargetNamesExact(globs, rule, report.Keys, full.Keys);
  }

  lemma {:induction false} StraysStay(globs: Globs, rule: Rule, absentState: string, report: Report, hub: Tracked,
                                      full: Tracked, first: set<string>, p: string)
    requires SameView(globs, rule, absentState, hub, full, first) && Steady(globs, rule) && Stray(globs, rule, p)
    ensures p in Evaluate(globs, rule, absentState, report, hub, true) <==> p in hub
    ensures p in Evaluate(globs, rule, absentState, report, full, false) <==> p in full
  {
    StraysAgree(globs, rule, absentState, report, hub, full, first, p);
  }

  lemma {:induction false} TargetsAreKnown(globs: Globs, rule: Rule, absentState: string, report: Report,
                                           tracked: Tracked, forget: bool)
    requires forall name :: name in tracked ==> MatchesName(globs, rule, name) || Stray(globs, rule, name)
    ensures forall name :: name in Evaluate(globs, rule, absentState, report, tracked, forget) ==>
              MatchesName(globs, rule, name) || Stray(globs, rule, name)
  {
    TargetNamesExact(globs, rule, report.Keys, tracked.Keys);
  }

  lemma {:induction false} KnownLast(globs: Globs, rule: Rule, absentState: string, report: Report,
                                     tracked: Tracked, forget: bool, first: set<string>)
    ensures var after := Evaluate(globs, rule, absentState, report, tracked, forget).Keys;
      && (!forget ==> tracked.Keys <= after)
      && (Lasting(globs, rule, first) <= tracked.Keys ==> Lasting(globs, rule, first) <= after)
  {
    TargetNamesExact(globs, rule, report.Keys, tracked.Keys);
  }

  /** Nothing but matches and literal patterns is tracked, and what lasts goes on to be. */
  lemma {:induction false} TargetsStay(globs: Globs, rule: Rule, absentState: string, report: Report, hub: Tracked,
                                       full: Tracked, first: set<string>)
    requires SameView(globs, rule, absentState, hub, full, first) && Steady(globs, rule)
    ensures var hub' := Evaluate(globs, rule, absentState, report, hub, true);
      var full' := Evaluate(globs, rule, absentState, report, full, false);
      && (forall name :: name in hub' || name in full' ==> MatchesName(globs, rule, name) || Stray(globs, rule, name))
      && (Fires(rule, Absent(absentState)) ==> hub'.Keys == full'.Keys)
      && Lasting(globs, rule, first) <= hub'.Keys && WithLiterals(globs, first, rule.patterns) <= full'.Keys
  {
    TargetsAreKnown(globs, rule, absentState, report, hub, true);
    TargetsAreKnown(globs, rule, absentState, report, full, false);
    KnownLast(globs, rule, absentState, report, hub, true, first);
    KnownLast(globs, rule, absentState, report, full, false, first);
  }

  lemma {:induction false} EvaluateKeepsSameView(globs: Globs, rule: Rule, absentState: string, report: Report,
                                                 hub: Tracked, full: Tracked,
                                                 first: set<string>)
    requires SameView(globs, rule, absentState, hub, full, first) && Steady(globs, rule)
    ensures SameView(globs, rule, absentState, Evaluate(globs, rule, absentState, report, hub, true),
                     Evaluate(globs, rule, absentState, report, full, false), first)
  {
    forall name ensures StatusOf(Evaluate(globs, rule, absentState, report, hub, true), name)
                     == StatusOf(Evaluate(globs, rule, absentState, report, full, false), name) {
      AfterAgrees(globs, rule, absentState, report, hub, full, first, name);
    }
    TargetsStay(globs, rule, absentState, report, hub, full, first);
    forall p | Stray(globs, rule, p)
      ensures p in Evaluate(globs, rule, absentState, report, hub, true) <==> p in hub
      ensures p in Evaluate(globs, rule, absentState, report, full, false) <==> p in full {
      StraysStay(globs, rule, absentState, report, hub, full, first, p);
    }
  }

  /** After the first report both track the same. */
  lemma {:induction false} FirstSameView(globs: Globs, rule: Rule, absentState: string, report: Report)
    ensures SameView(globs, rule, absentState, Evaluate(globs, rule, absentState, report, map[], true),
                     Evaluate(globs, rule, absentState, report, map[], false), Base(globs, rule, report.Keys, {}))
  {
    var first := Base(globs, rule, report.Keys, {});
    TargetNamesExact(globs, rule, report.Keys, {});
    var none: Tracked := map[];
    assert none.Keys == {};
    var full := Evaluate(globs, rule, absentState, report, none, false);
    assert full.Keys == WithLiterals(globs, first, rule.patterns);
    assert Evaluate(globs, rule, absentState, report, none, true) == full;
  }

  /** The matching names of the first of some reports. */
  function FirstNames(globs: Globs, rule: Rule, reports: seq<Report>): set<string>
    requires |reports| > 0
  {
    Base(globs, rule, reports[0].Keys, {})
  }

  lemma {:induction false} RunsKeepSameView(globs: Globs, rule: Rule, absentState: string, reports: seq<Report>)
    requires Steady(globs, rule) && |reports| > 0
    ensures SameView(globs, rule, absentState, Run(globs, rule, absentState, reports, true),
                     Run(globs, rule, absentState, reports, false), FirstNames(globs, rule, reports))
  {
    var front, last := reports[..|reports| - 1], reports[|reports| - 1];
    if |reports| == 1 {
      assert front == [];
      FirstSameView(globs, rule, absentState, last);
    } else {
      RunsKeepSameView(globs, rule, absentState, front);
      EvaluateKeepsSameView(globs, rule, absentState, last, Run(globs, rule, absentState, front, true),
                            Run(globs, rule, absentState, front, false), FirstNames(globs, rule, reports));
    }
  }

  /** Forgetting targets that are gone and quiet changes nothing anyone can see:
      after any reports every target has the status, and the next report sends the
      messages, of a machine that never forgets. */
  lemma {:induction false} ForgettingIsInvisible(globs: Globs, rule: Rule, absentState: string, reports: seq<Report>,
                                                 next: Report)
    requires Steady(globs, rule)
    ensures forall name :: StatusOf(Run(globs, rule, absentState, reports, true), name)
                        == StatusOf(Run(globs, rule, absentState, reports, false), name)
    ensures Messages(globs, rule, absentState, next, Run(globs, rule, absentState, reports, true))
         == Messages(globs, rule, absentState, next, Run(globs, rule, absentState, reports, false))
  {
    if |reports| > 0 {
      RunsKeepSameView(globs, rule, absentState, reports);
      var hub, full := Run(globs, rule, absentState, reports, true), Run(globs, rule, absentState, reports, false);
      var a, b := Messages(globs, rule, absentState, next, hub), Messages(globs, rule, absentState, next, full);
      forall name ensures (name in a <==> name in b) && (name in a ==> a[name] == b[name]) {
        AfterAgrees(globs, rule, absentState, next, hub, full, FirstNames(globs, rule, reports), name);
      }
      assert a.Keys == b.Keys;
    }
  }

  // ---------------------------------------------------------- exactly when it is

  ghost predicate Invisible(globs: Globs, rule: Rule, absentState: string) {
    forall reports, name :: StatusOf(Run(globs, rule, absentState, reports, true), name)
                         == StatusOf(Run(globs, rule, absentState, reports, false), name)
  }

  ghost predicate AllQuiet(tracked: Tracked) {
    forall name :: name in tracked ==> tracked[name] == QUIET
  }

  /** A report of names that look as if they were absent. */
  function Quietly(absentState: string, names: set<string>): Report {
    map name | name in names :: Absent(absentState)
  }

  /** Once every literal pattern is there or answered to, none is added. */
  lemma {:induction false} NothingAdded(globs: Globs, rule: Rule, observed: set<string>, known: set<string>,
                                        first: set<string>)
    requires WithLiterals(globs, first, rule.patterns) <= known
    ensures TargetNames(globs, rule, observed, known) == Base(globs, rule, observed, known)
  {
    TargetNamesExact(globs, rule, observed, known);
    WithLiteralsExact(globs, first, rule.patterns);
    var base := Base(globs, rule, observed, known);
    forall p | p in TargetNames(globs, rule, observed, known) ensures p in base {
      if p !in base {
        var n :| n in WithLiterals(globs, first, rule.patterns) && p in Candidates(globs, n);
        AddedIsUnanswered(globs, base, rule.patterns, p, n);
      }
    }
    WithLiteralsExact(globs, base, rule.patterns);
  }

  lemma {:induction false} FirstQuietly(globs: Globs, rule: Rule, absentState: string, names: set<string>, forget: bool)
    requires !Fires(rule, Absent(absentState)) && AllMatch(globs, rule, names)
    ensures var after := Evaluate(globs, rule, absentState, Quietly(absentState, names), map[], forget);
      after.Keys == WithLiterals(globs, names, rule.patterns) && AllQuiet(after)
  {
    var report, none: Tracked := Quietly(absentState, names), map[];
    assert report.Keys == names && none.Keys == {};
    assert Base(globs, rule, names, {}) == names;
    TargetNamesExact(globs, rule, names, {});
  }

  lemma {:induction false} ThenQuietly(globs: Globs, rule: Rule, absentState: string, tracked: Tracked,
                                       names: set<string>, first: set<string>, forget: bool)
    requires !Fires(rule, Absent(absentState)) && AllMatch(globs, rule, names) && AllQuiet(tracked)
    requires tracked.Keys == WithLiterals(globs, first, rule.patterns)
    ensures var after := Evaluate(globs, rule, absentState, Quietly(absentState, names), tracked, forget);
      && AllQuiet(after)
      && after.Keys == names + if forget then Lasting(globs, rule, first) else tracked.Keys
  {
    var report := Quietly(absentState, names);
    assert report.Keys == names;
    NothingAdded(globs, rule, names, tracked.Keys, first);
    assert Base(globs, rule, names, tracked.Keys) == names + tracked.Keys;
    forall name ensures After(rule, absentState, report, tracked, name) == QUIET {
      StaysQuiet(rule, absentState, names, tracked, name);
    }
  }

  lemma {:induction false} StaysQuiet(rule: Rule, absentState: string, names: set<string>, tracked: Tracked,
                                      name: string)
    requires !Fires(rule, Absent(absentState)) && AllQuiet(tracked)
    ensures After(rule, absentState, Quietly(absentState, names), tracked, name) == QUIET
  {
  }

  /** The report in which a stray pattern fires. */
  lemma {:induction false} FinallyFires(globs: Globs, rule: Rule, absentState: string, obs: Observation,
                                        tracked: Tracked, names: set<string>,
                                        p: string, forget: bool)
    requires Fires(rule, obs) && Stray(globs, rule, p) && AllMatch(globs, rule, names) && AllQuiet(tracked)
    requires names <= tracked.Keys
    ensures var report := Quietly(absentState, names)[p := obs];
      StatusOf(Evaluate(globs, rule, absentState, report, tracked, forget), p).count
      == if p in WithLiterals(globs, tracked.Keys, rule.patterns) then 1 else 0
  {
    var report := Quietly(absentState, names)[p := obs];
    assert report.Keys == names + {p};
    assert Base(globs, rule, report.Keys, tracked.Keys) == tracked.Keys;
    if p in TargetNames(globs, rule, report.Keys, tracked.Keys) {
      assert After(rule, absentState, report, tracked, p).count == 1;
    }
  }

  lemma {:induction false} RunThree(globs: Globs, rule: Rule, absentState: string, a: Report, b: Report, c: Report,
                                    forget: bool)
    ensures Run(globs, rule, absentState, [a, b, c], forget) ==
      (var one := Evaluate(globs, rule, absentState, a, map[], forget);
       var two := Evaluate(globs, rule, absentState, b, one, forget);
       Evaluate(globs, rule, absentState, c, two, forget))
  {
    assert [a, b, c][..2] == [a, b] && [a, b][..1] == [a] && [a][..0] == [];
    assert Run(globs, rule, absentState, [a], forget) == Evaluate(globs, rule, absentState, a, map[], forget);
    assert Run(globs, rule, absentState, [a, b], forget) ==
             Evaluate(globs, rule, absentState, b, Run(globs, rule, absentState, [a], forget), forget);
  }

  lemma {:induction false} CountAfterThree(globs: Globs, rule: Rule, absentState: string, obs: Observation, p: string,
                                           first: set<string>, later: set<string>, forget: bool)
    requires !Fires(rule, Absent(absentState)) && Fires(rule, obs) && Stray(globs, rule, p)
    requires BringsUp(globs, rule, p, first, later)
    ensures var reports := [Quietly(absentState, first), Quietly(absentState, later),
                            Quietly(absentState, later)[p := obs]];
      StatusOf(Run(globs, rule, absentState, reports, forget), p).count == if forget then 1 else 0
  {
    var one, two := Quietly(absentState, first), Quietly(absentState, later);
    var three := two[p := obs];
    RunThree(globs, rule, absentState, one, two, three, forget);
    var a := Evaluate(globs, rule, absentState, one, map[], forget);
    var b := Evaluate(globs, rule, absentState, two, a, forget);
    FirstQuietly(globs, rule, absentState, first, forget);
    ThenQuietly(globs, rule, absentState, a, later, first, forget);
    FinallyFires(globs, rule, absentState, obs, b, later, p, forget);
    if forget {
      assert b.Keys == Lasting(globs, rule, first) + later;
    } else {
      StaysOut(globs, rule, first, b.Keys, p);
    }
  }

  lemma {:induction false} StaysOut(globs: Globs, rule: Rule, first: set<string>, known: set<string>, p: string)
    requires Stray(globs, rule, p) && p !in WithLiterals(globs, first, rule.patterns)
    requires WithLiterals(globs, first, rule.patterns) <= known && p !in known
    ensures p !in WithLiterals(globs, known, rule.patterns)
  {
    NothingAdded(globs, rule, {}, known, first);
    assert Base(globs, rule, {}, known) == known;
  }

  /** After three reports the hub counts a target that the other machine overlooks. */
  lemma {:induction false} ForgettingShows(globs: Globs, rule: Rule, absentState: string, obs: Observation, p: string,
                                           first: set<string>, later: set<string>)
    requires !Fires(rule, Absent(absentState)) && Fires(rule, obs) && Stray(globs, rule, p)
    requires BringsUp(globs, rule, p, first, later)
    ensures var reports := [Quietly(absentState, first), Quietly(absentState, later),
                            Quietly(absentState, later)[p := obs]];
      StatusOf(Run(globs, rule, absentState, reports, true), p) !=
        StatusOf(Run(globs, rule, absentState, reports, false), p)
  {
    CountAfterThree(globs, rule, absentState, obs, p, first, later, true);
    CountAfterThree(globs, rule, absentState, obs, p, first, later, false);
  }

  lemma {:induction false} DifferenceShows(globs: Globs, rule: Rule, absentState: string, reports: seq<Report>,
                                           name: string)
    requires StatusOf(Run(globs, rule, absentState, reports, true), name) !=
               StatusOf(Run(globs, rule, absentState, reports, false), name)
    ensures !Invisible(globs, rule, absentState)
  {
  }

  lemma {:induction false} BroughtUpIsVisible(globs: Globs, rule: Rule, absentState: string, obs: Observation,
                                              p: string,
                                              first: set<string>, later: set<string>)
    requires !Fires(rule, Absent(absentState)) && Fires(rule, obs) && Stray(globs, rule, p)
    requires BringsUp(globs, rule, p, first, later)
    ensures !Invisible(globs, rule, absentState)
  {
    ForgettingShows(globs, rule, absentState, obs, p, first, later);
    DifferenceShows(globs, rule, absentState,
                    [Quietly(absentState, first), Quietly(absentState, later),
                     Quietly(absentState, later)[p := obs]], p);
  }

  /** A rule that fires on absence forgets nothing. */
  lemma {:induction false} NothingForgotten(globs: Globs, rule: Rule, absentState: string, reports: seq<Report>)
    requires Fires(rule, Absent(absentState))
    ensures Run(globs, rule, absentState, reports, true) == Run(globs, rule, absentState, reports, false)
  {
    if |reports| == 0 {
    } else {
      NothingForgotten(globs, rule, absentState, reports[..|reports| - 1]);
    }
  }

  lemma {:induction false} NeverFires(globs: Globs, rule: Rule, absentState: string, reports: seq<Report>, forget: bool)
    requires forall obs :: !Fires(rule, obs)
    ensures AllQuiet(Run(globs, rule, absentState, reports, forget))
  {
    if |reports| == 0 {
    } else {
      NeverFires(globs, rule, absentState, reports[..|reports| - 1], forget);
    }
  }

  lemma {:induction false} EasilyInvisible(globs: Globs, rule: Rule, absentState: string)
    requires Fires(rule, Absent(absentState)) || (forall obs :: !Fires(rule, obs)) || Steady(globs, rule)
    ensures Invisible(globs, rule, absentState)
  {
    forall reports, name ensures StatusOf(Run(globs, rule, absentState, reports, true), name)
                              == StatusOf(Run(globs, rule, absentState, reports, false), name) {
      if Fires(rule, Absent(absentState)) {
        NothingForgotten(globs, rule, absentState, reports);
      } else if Steady(globs, rule) {
        ForgettingIsInvisible(globs, rule, absentState, reports, map[]);
      } else {
        NeverFires(globs, rule, absentState, reports, true);
        NeverFires(globs, rule, absentState, reports, false);
      }
    }
  }

  /** Messages are about the incidents an evaluation opens or closes. */
  lemma {:induction false} MessagesAreChanges(globs: Globs, rule: Rule, absentState: string, report: Report,
                                              tracked: Tracked,
                                              forget: bool, name: string)
    ensures var after := Evaluate(globs, rule, absentState, report, tracked, forget);
      var messages := Messages(globs, rule, absentState, report, tracked);
      && (name in messages <==> StatusOf(tracked, name).open != StatusOf(after, name).open)
      && (name in messages ==> messages[name] == StatusOf(after, name).open)
  {
    TargetNamesExact(globs, rule, report.Keys, tracked.Keys);
  }

  /** What cannot be seen of the statuses cannot be seen of the messages either. */
  lemma {:induction false} InvisibleInMessages(globs: Globs, rule: Rule, absentState: string, reports: seq<Report>,
                                               next: Report)
    requires Invisible(globs, rule, absentState)
    ensures Messages(globs, rule, absentState, next, Run(globs, rule, absentState, reports, true))
         == Messages(globs, rule, absentState, next, Run(globs, rule, absentState, reports, false))
  {
    var hub, full := Run(globs, rule, absentState, reports, true), Run(globs, rule, absentState, reports, false);
    var a, b := Messages(globs, rule, absentState, next, hub), Messages(globs, rule, absentState, next, full);
    var more := reports + [next];
    assert more[..|reports|] == reports;
    forall name ensures (name in a <==> name in b) && (name in a ==> a[name] == b[name]) {
      MessagesAreChanges(globs, rule, absentState, next, hub, true, name);
      MessagesAreChanges(globs, rule, absentState, next, full, false, name);
      assert StatusOf(Run(globs, rule, absentState, more, true), name) ==
               StatusOf(Run(globs, rule, absentState, more, false), name);
    }
    assert a.Keys == b.Keys;
  }

  /** For every rule: forgetting is invisible if and only if the rule fires on absence,
      never fires, or is steady. */
  lemma {:induction false} ForgettingInvisibleIff(globs: Globs, rule: Rule, absentState: string)
    ensures Invisible(globs, rule, absentState) <==>
            Fires(rule, Absent(absentState)) || (forall obs :: !Fires(rule, obs)) || Steady(globs, rule)
  {
    if Fires(rule, Absent(absentState)) || (forall obs :: !Fires(rule, obs)) || Steady(globs, rule) {
      EasilyInvisible(globs, rule, absentState);
    } else {
      var obs :| Fires(rule, obs);
      var p, first, later :| Stray(globs, rule, p) && BringsUp(globs, rule, p, first, later);
      BroughtUpIsVisible(globs, rule, absentState, obs, p, first, later);
    }
  }

  // ------------------------------------------------------------ which rules are steady

  /** A rule all of whose literal patterns match themselves is steady. */
  lemma {:induction false} SelfMatchingIsSteady(globs: Globs, rule: Rule)
    requires forall p :: p in rule.patterns && IsLiteral(p) ==> MatchesName(globs, rule, p)
    ensures Steady(globs, rule)
  {
  }

  /** Nothing else the rule may evaluate answers to a pattern. */
  ghost predicate Unanswered(globs: Globs, rule: Rule, p: string) {
    forall n :: n != p && p in Candidates(globs, n) ==>
                  !MatchesName(globs, rule, n) && !(n in rule.patterns && IsLiteral(n))
  }

  /** So is one with only unanswered stray patterns. */
  lemma {:induction false} UnansweredIsSteady(globs: Globs, rule: Rule)
    requires forall p :: Stray(globs, rule, p) ==> Unanswered(globs, rule, p)
    ensures Steady(globs, rule)
  {
    forall p, first, later | Stray(globs, rule, p) ensures !BringsUp(globs, rule, p, first, later) {
      if BringsUp(globs, rule, p, first, later) {
        UnansweredIsEvaluated(globs, rule, p, first);
      }
    }
  }

  lemma {:induction false} UnansweredIsEvaluated(globs: Globs, rule: Rule, p: string, names: set<string>)
    requires Stray(globs, rule, p) && Unanswered(globs, rule, p) && AllMatch(globs, rule, names)
    ensures p in WithLiterals(globs, names, rule.patterns)
  {
    WithLiteralsExact(globs, names, rule.patterns);
    assert forall n :: n in names ==> MatchesName(globs, rule, n);
  }

  /** path.Match for patterns without brackets: a backslash makes the next character stand
      for itself, and one at the end is an error. */
  predicate PathMatch(pattern: string, name: string)
    decreases |pattern| + |name|
  {
    if |pattern| == 0 then |name| == 0
    else if pattern[0] == '*' then
      PathMatch(pattern[1..], name) || (|name| > 0 && name[0] != '/' && PathMatch(pattern, name[1..]))
    else if |name| == 0 then false
    else if pattern[0] == '?' then name[0] != '/' && PathMatch(pattern[1..], name[1..])
    else if pattern[0] == '\\' then |pattern| > 1 && pattern[1] == name[0] && PathMatch(pattern[2..], name[1..])
    else pattern[0] == name[0] && PathMatch(pattern[1..], name[1..])
  }

  /** A pattern without special characters matches the name spelled like it and no other. */
  lemma {:induction false} PlainMatchesItself(p: string, name: string)
    requires IsLiteral(p) && '\\' !in p
    ensures PathMatch(p, name) <==> name == p
  {
    if |p| == 0 {
    } else {
      assert p[0] in p && forall c :: c in p[1..] ==> c in p;
      if |name| > 0 {
        PlainMatchesItself(p[1..], name[1..]);
        assert name == [name[0]] + name[1..] && p == [p[0]] + p[1..];
      }
    }
  }

  /** Rules without backslashes in their literal patterns are steady, so forgetting is
      invisible for them. Patterns are stored in lower case. */
  lemma {:induction false} PlainIsSteady(lower: string -> string, rule: Rule)
    requires forall p :: p in rule.patterns && IsLiteral(p) ==> lower(p) == p && '\\' !in p
    ensures Steady(Globs(lower, PathMatch), rule)
  {
    var globs := Globs(lower, PathMatch);
    forall p | p in rule.patterns && IsLiteral(p) ensures MatchesName(globs, rule, p) {
      PlainMatchesItself(p, p);
      assert Candidates(globs, p)[0] == p;
      assert globs.pathMatch(p, p);
    }
    SelfMatchingIsSteady(globs, rule);
  }

  // ------------------------------------------------------------------- an example

  const STRAY := "a\\b"
  const ANSWERING := "a\\b.service"
  const EXAMPLE := Rule([STRAY, "*.service"], "is", ["failed"], [], 1, "", 0.0)

  /** A star in front of such a pattern matches names that end like it. */
  lemma {:induction false} StarMatchesSuffix(p: string, name: string)
    requires IsLiteral(p) && '\\' !in p
    ensures PathMatch("*" + p, name) ==> |name| >= |p|
    ensures |name| >= |p| && name[|name| - |p|..] == p && '/' !in name[..|name| - |p|] ==> PathMatch("*" + p, name)
    decreases |name|
  {
    assert ("*" + p)[1..] == p;
    PlainMatchesItself(p, name);
    if |name| == 0 {
    } else {
      StarMatchesSuffix(p, name[1..]);
      if |name| > |p| {
        CutLater(name, |name| - |p|);
      }
    }
  }

  lemma {:induction false} CutLater(name: string, i: nat)
    requires 0 < i <= |name|
    ensures name[1..][i - 1..] == name[i..] && name[..i] == [name[0]] + name[1..][..i - 1]
  {
  }

  lemma {:induction false} ExampleIsStray(globs: Globs)
    requires globs == Globs(s => s, PathMatch)
    ensures Stray(globs, EXAMPLE, STRAY)
  {
    assert Candidates(globs, STRAY) == [STRAY];
    assert !PathMatch(STRAY, STRAY) by {
      assert STRAY[1..] == "\\b" && STRAY[0] == 'a' && "\\b"[1] == 'b';
    }
    assert "*.service" == "*" + ".service";
    StarMatchesSuffix(".service", STRAY);
  }

  lemma {:induction false} UnitCandidates(globs: Globs, name: string)
    ensures globs.lower(name) in Candidates(globs, name)
    ensures var low := globs.lower(name); HasSuffix(low, ".service") ==> low[..|low| - 8] in Candidates(globs, name)
  {
    var low := globs.lower(name);
    assert Candidates(globs, name)[0] == low;
    if HasSuffix(low, ".service") {
      assert Candidates(globs, name)[1] == low[..|low| - 8];
    }
  }

  lemma {:induction false} MatchedBy(globs: Globs, rule: Rule, pattern: string, name: string)
    requires pattern in rule.patterns && globs.pathMatch(pattern, globs.lower(name))
    ensures MatchesName(globs, rule, name)
  {
    UnitCandidates(globs, name);
  }

  lemma {:induction false} ExampleIsAnswered(globs: Globs)
    requires globs == Globs(s => s, PathMatch)
    ensures STRAY in Candidates(globs, ANSWERING) && MatchesName(globs, EXAMPLE, ANSWERING)
  {
    assert ANSWERING == STRAY + ".service" && '/' !in STRAY && "*.service" == "*" + ".service";
    assert ANSWERING[3..] == ".service" && ANSWERING[..3] == STRAY;
    UnitCandidates(globs, ANSWERING);
    StarMatchesSuffix(".service", ANSWERING);
    assert EXAMPLE.patterns[1] == "*.service";
    MatchedBy(globs, EXAMPLE, "*.service", ANSWERING);
  }

  lemma {:induction false} ExampleBringsUp(globs: Globs, first: set<string>)
    requires Stray(globs, EXAMPLE, STRAY) && first == {ANSWERING}
    requires STRAY in Candidates(globs, ANSWERING) && MatchesName(globs, EXAMPLE, ANSWERING)
    ensures BringsUp(globs, EXAMPLE, STRAY, first, {})
  {
    var patterns := EXAMPLE.patterns;
    if STRAY in WithLiterals(globs, first, patterns) {
      AddedIsUnanswered(globs, first, patterns, STRAY, ANSWERING);
    }
    NothingLasts(globs, first);
    AloneIsAdded(globs);
    assert Lasting(globs, EXAMPLE, first) + {} == {};
  }

  lemma {:induction false} NothingLasts(globs: Globs, first: set<string>)
    requires first == {ANSWERING} && STRAY !in WithLiterals(globs, first, EXAMPLE.patterns)
    ensures Lasting(globs, EXAMPLE, first) == {}
  {
    WithLiteralsExact(globs, first, EXAMPLE.patterns);
    assert !IsLiteral("*.service") by { assert "*.service"[0] == '*'; }
  }

  lemma {:induction false} AloneIsAdded(globs: Globs)
    requires IsLiteral(STRAY)
    ensures STRAY in WithLiterals(globs, {}, EXAMPLE.patterns)
  {
    var patterns := EXAMPLE.patterns;
    assert patterns[..1] == [STRAY] && [STRAY][..0] == [];
    assert WithLiterals(globs, {}, []) == {};
    assert WithLiterals(globs, {}, [STRAY]) == {STRAY};
  }

  /** A rule for which forgetting shows: once the service it was answered to by is gone,
      the stray pattern comes up. */
  lemma {:induction false} ExampleShows(globs: Globs)
    requires globs == Globs(s => s, PathMatch)
    ensures !Steady(globs, EXAMPLE) && !Invisible(globs, EXAMPLE, "absent")
  {
    ExampleIsStray(globs);
    ExampleIsAnswered(globs);
    ExampleBringsUp(globs, {ANSWERING});
    assert EXAMPLE.states[0] == "failed";
    BroughtUpIsVisible(globs, EXAMPLE, "absent", Observation("failed", "", 0.0, 0.0, 0), STRAY, {ANSWERING}, {});
  }
}
