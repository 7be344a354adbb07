/** Removing a deleted state rule from quiet hours
    (internal/alerts/quiet_hours_rules.go). */
module QuietRules {
  import opened Common
  import opened QuietHours
  import R = StateRules

  /** The parts of a state rule record that are used. */
  datatype RuleRecord = RuleRecord(user: string, system: string, kind: string, rule: R.Rule)

  function WithoutRule(rules: seq<string>, id: string): seq<string> {
    if |rules| == 0 then []
    else (if rules[0] == id then [] else [rules[0]]) + WithoutRule(rules[1..], id)
  }

  /** A target that goes with the deleted rule: no other rule of the system has it. */
  predicate Orphaned(globs: R.Globs, others: map<string, RuleRecord>, id: string, deleted: RuleRecord,
                     target: QuietTarget) {
    && target.kind == deleted.kind && R.MatchesName(globs, deleted.rule, target.name)
    && !exists other :: other in others && StillTargets(globs, others[other], other, id, deleted, target.name)
  }

  predicate StillTargets(globs: R.Globs, other: RuleRecord, otherId: string, id: string, deleted: RuleRecord,
                         name: string) {
    && otherId != id && other.system == deleted.system && other.kind == deleted.kind
    && R.MatchesName(globs, other.rule, name)
  }

  function WithoutOrphans(globs: R.Globs, others: map<string, RuleRecord>, id: string, deleted: RuleRecord,
                          targets: seq<QuietTarget>): seq<QuietTarget> {
    if |targets| == 0 then []
    else
      (if Orphaned(globs, others, id, deleted, targets[0]) then [] else [targets[0]])
      + WithoutOrphans(globs, others, id, deleted, targets[1..])
  }

  lemma {:induction false} WithoutRuleKeeps(rules: seq<string>, id: string)
    ensures forall r :: r in WithoutRule(rules, id) <==> r in rules && r != id
    ensures |WithoutRule(rules, id)| <= |rules|
    ensures |WithoutRule(rules, id)| == |rules| ==> WithoutRule(rules, id) == rules
    ensures |WithoutRule(rules, id)| == |rules| <==> id !in rules
  {
    if |rules| == 0 {
    } else {
      WithoutRuleKeeps(rules[1..], id);
      assert rules == [rules[0]] + rules[1..];
    }
  }

  lemma {:induction false} WithoutOrphansKeeps(globs: R.Globs, others: map<string, RuleRecord>, id: string,
                                               deleted: RuleRecord, targets: seq<QuietTarget>)
    ensures var kept := WithoutOrphans(globs, others, id, deleted, targets);
      && (forall t :: t in kept <==> t in targets && !Orphaned(globs, others, id, deleted, t))
      && |kept| <= |targets| && (|kept| == |targets| ==> kept == targets)
      && (|kept| == |targets| <==> forall t :: t in targets ==> !Orphaned(globs, others, id, deleted, t))
  {
    if |targets| == 0 {
    } else {
      WithoutOrphansKeeps(globs, others, id, deleted, targets[1..]);
      assert targets == [targets[0]] + targets[1..];
    }
  }

  lemma {:induction false} WithoutRuleCounts(rules: seq<string>, id: string)
    ensures forall r :: multiset(WithoutRule(rules, id))[r] == if r == id then 0 else multiset(rules)[r]
  {
    if |rules| == 0 {
    } else {
      WithoutRuleCounts(rules[1..], id);
      assert rules == [rules[0]] + rules[1..];
    }
  }

  lemma {:induction false} OneMoreCounts<T>(head: T, rest: seq<T>, kept: seq<T>, t: T, drop: bool, gone: bool)
    requires multiset(kept)[t] == (if gone then 0 else multiset(rest)[t]) && (head == t ==> drop == gone)
    ensures multiset((if drop then [] else [head]) + kept)[t] == if gone then 0 else multiset([head] + rest)[t]
  {
  }

  lemma {:induction false} WithoutOrphansCounts(globs: R.Globs, others: map<string, RuleRecord>, id: string,
                                                deleted: RuleRecord, targets: seq<QuietTarget>, t: QuietTarget)
    ensures multiset(WithoutOrphans(globs, others, id, deleted, targets))[t] ==
              if Orphaned(globs, others, id, deleted, t) then 0 else multiset(targets)[t]
  {
    if |targets| == 0 {
    } else {
      var head, rest := targets[0], targets[1..];
      WithoutOrphansCounts(globs, others, id, deleted, rest, t);
      assert targets == [head] + rest;
      OneMoreCounts(head, rest, WithoutOrphans(globs, others, id, deleted, rest), t,
                    Orphaned(globs, others, id, deleted, head), Orphaned(globs, others, id, deleted, t));
    }
  }

  /** A notification about the deleted rule, or about a target that goes with it. */
  ghost predicate Affected(globs: R.Globs, equalFold: (string, string) -> bool, others: map<string, RuleRecord>,
                           id: string,
                           deleted: RuleRecord, query: Query) {
    || query.rule == id
    || exists t :: Orphaned(globs, others, id, deleted, t) && TargetMatches(equalFold, t, query.kind, query.target)
  }

  /** What the loop does to one window of the rule's user and system. */
  function Trimmed(globs: R.Globs, others: map<string, RuleRecord>, id: string, deleted: RuleRecord,
                   window: Window): Option<Window> {
    var rules := WithoutRule(window.rules, id);
    var targets := WithoutOrphans(globs, others, id, deleted, window.targets);
    if |rules| == |window.rules| && |targets| == |window.targets| then Some(window)
    else if |rules| == 0 && |targets| == 0 && |window.alerts| == 0 then None
    else Some(window.(rules := rules, targets := targets))
  }

  /** A window keeps applying to every other notification, never applies to more, and is
      deleted rather than left without a scope. */
  lemma {:induction false} TrimmedApplies(globs: R.Globs, equalFold: (string, string) -> bool,
                                          others: map<string, RuleRecord>,
                                          id: string, deleted: RuleRecord, window: Window, query: Query)
    ensures var trimmed := Trimmed(globs, others, id, deleted, window);
      && (trimmed.Some? && QuietWindowApplies(equalFold, trimmed.value, query) ==>
            QuietWindowApplies(equalFold, window, query))
      && (QuietWindowApplies(equalFold, window, query) && !Affected(globs, equalFold, others, id, deleted, query) ==>
            trimmed.Some? && QuietWindowApplies(equalFold, trimmed.value, query))
      && (trimmed.Some? ==> (Scopeless(trimmed.value) <==> Scopeless(window)))
  {
    WithoutRuleKeeps(window.rules, id);
    WithoutOrphansKeeps(globs, others, id, deleted, window.targets);
    var rules := WithoutRule(window.rules, id);
    var targets := WithoutOrphans(globs, others, id, deleted, window.targets);
    assert query.rule in window.rules && query.rule != id ==> query.rule in rules && |rules| > 0;
    if t :|
      t in window.targets
      && TargetMatches(equalFold, t, query.kind, query.target)
      && !Orphaned(globs, others, id, deleted, t) {
      assert t in targets && |targets| > 0;
    }
  }

  predicate Concerned(window: Window, deleted: RuleRecord) {
    window.user == deleted.user && window.system == deleted.system
  }

  /** The windows after the removal. */
  ghost predicate Removed(globs: R.Globs, others: map<string, RuleRecord>, id: string, deleted: RuleRecord,
                          before: map<string, Window>, after: map<string, Window>, todo: set<string>) {
    && after.Keys <= before.Keys
    && (forall w :: w in before ==>
          if Concerned(before[w], deleted) && w !in todo then
            (if w in after then Some(after[w]) else None) == Trimmed(globs, others, id, deleted, before[w])
          else w in after && after[w] == before[w])
  }

  lemma {:induction false} OneMoreRemoved(globs: R.Globs, others: map<string, RuleRecord>, id: string,
                                          deleted: RuleRecord, before: map<string, Window>,
                                          earlier: map<string, Window>, after: map<string, Window>,
                                          todo: set<string>, w: string)
    requires Removed(globs, others, id, deleted, before, earlier, todo)
    requires w in todo && w in before && Concerned(before[w], deleted) && after - {w} == earlier - {w}
    requires (if w in after then Some(after[w]) else None) == Trimmed(globs, others, id, deleted, before[w])
    ensures Removed(globs, others, id, deleted, before, after, todo - {w})
  {
    forall v | v != w ensures (v in after <==> v in earlier) && (v in after ==> after[v] == earlier[v]) {
      assert v in after - {w} <==> v in earlier - {w};
      assert v in after - {w} ==> (after - {w})[v] == (earlier - {w})[v];
    }
  }

  /** A target of the deleted rule that some other rule of its system and kind has as well. */
  ghost predicate Shared(globs: R.Globs, others: map<string, RuleRecord>, id: string, deleted: RuleRecord,
                         target: QuietTarget) {
    exists other :: other in others && other != id && others[other].system == deleted.system
                    && others[other].kind == deleted.kind && R.MatchesName(globs, others[other].rule, target.name)
  }

  /** A target that the deletion takes along. */
  ghost predicate Goes(globs: R.Globs, others: map<string, RuleRecord>, id: string, deleted: RuleRecord,
                       target: QuietTarget) {
    && target.kind == deleted.kind && R.MatchesName(globs, deleted.rule, target.name)
    && !Shared(globs, others, id, deleted, target)
  }

  /** What is left of a window: without the rule and the targets that go, otherwise as it was. */
  ghost predicate Leaves(globs: R.Globs, others: map<string, RuleRecord>, id: string, deleted: RuleRecord,
                         before: Window, after: Window) {
    && after == before.(rules := after.rules, targets := after.targets)
    && (forall r :: multiset(after.rules)[r] == if r == id then 0 else multiset(before.rules)[r])
    && (forall t :: multiset(after.targets)[t] ==
          if Goes(globs, others, id, deleted, t) then 0 else multiset(before.targets)[t])
  }

  /** Something goes from a window and nothing is left that it is for. */
  ghost predicate Empties(globs: R.Globs, others: map<string, RuleRecord>, id: string, deleted: RuleRecord,
                          window: Window) {
    && (id in window.rules || exists t :: t in window.targets && Goes(globs, others, id, deleted, t))
    && window.alerts == [] && (forall r :: r in window.rules ==> r == id)
    && (forall t :: t in window.targets ==> Goes(globs, others, id, deleted, t))
  }

  lemma {:induction false} OrphanedGoes(globs: R.Globs, others: map<string, RuleRecord>, id: string,
                                        deleted: RuleRecord, target: QuietTarget)
    ensures Orphaned(globs, others, id, deleted, target) <==> Goes(globs, others, id, deleted, target)
  {
    if other :| && other in others && other != id && others[other].system == deleted.system
                && others[other].kind == deleted.kind && R.MatchesName(globs, others[other].rule, target.name) {
      assert StillTargets(globs, others[other], other, id, deleted, target.name);
    }
    if other :| other in others && StillTargets(globs, others[other], other, id, deleted, target.name) {
      assert Shared(globs, others, id, deleted, target);
    }
  }

  lemma {:induction false} KeptIsLeft(globs: R.Globs, others: map<string, RuleRecord>, id: string,
                                      deleted: RuleRecord, window: Window)
    ensures Leaves(globs, others, id, deleted, window,
                   window.(rules := WithoutRule(window.rules, id),
                           targets := WithoutOrphans(globs, others, id, deleted, window.targets)))
  {
    WithoutRuleCounts(window.rules, id);
    forall t ensures multiset(WithoutOrphans(globs, others, id, deleted, window.targets))[t] ==
                       if Goes(globs, others, id, deleted, t) then 0 else multiset(window.targets)[t] {
      WithoutOrphansCounts(globs, others, id, deleted, window.targets, t);
      OrphanedGoes(globs, others, id, deleted, t);
    }
  }

  lemma {:induction false} RulesEmpty(rules: seq<string>, id: string)
    ensures WithoutRule(rules, id) == [] <==> forall r :: r in rules ==> r == id
  {
    WithoutRuleKeeps(rules, id);
    var kept := WithoutRule(rules, id);
    assert |kept| > 0 ==> kept[0] in kept;
  }

  lemma {:induction false} TargetsEmpty(globs: R.Globs, others: map<string, RuleRecord>, id: string,
                                        deleted: RuleRecord, targets: seq<QuietTarget>)
    ensures var kept := WithoutOrphans(globs, others, id, deleted, targets);
      && (kept == [] <==> forall t :: t in targets ==> Goes(globs, others, id, deleted, t))
      && (|kept| == |targets| <==> !exists t :: t in targets && Goes(globs, others, id, deleted, t))
  {
    WithoutOrphansKeeps(globs, others, id, deleted, targets);
    forall t ensures Orphaned(globs, others, id, deleted, t) <==> Goes(globs, others, id, deleted, t) {
      OrphanedGoes(globs, others, id, deleted, t);
    }
    var kept := WithoutOrphans(globs, others, id, deleted, targets);
    assert |kept| > 0 ==> kept[0] in kept;
  }

  lemma {:induction false} TrimmedEmpties(globs: R.Globs, others: map<string, RuleRecord>, id: string,
                                          deleted: RuleRecord, window: Window)
    ensures Trimmed(globs, others, id, deleted, window).None? <==> Empties(globs, others, id, deleted, window)
  {
    WithoutRuleKeeps(window.rules, id);
    RulesEmpty(window.rules, id);
    TargetsEmpty(globs, others, id, deleted, window.targets);
  }

  lemma {:induction false} TrimmedExact(globs: R.Globs, others: map<string, RuleRecord>, id: string,
                                        deleted: RuleRecord, window: Window)
    ensures var trimmed := Trimmed(globs, others, id, deleted, window);
      && (trimmed.None? <==> Empties(globs, others, id, deleted, window))
      && (trimmed.Some? ==> Leaves(globs, others, id, deleted, window, trimmed.value))
  {
    var rules := WithoutRule(window.rules, id);
    var targets := WithoutOrphans(globs, others, id, deleted, window.targets);
    TrimmedEmpties(globs, others, id, deleted, window);
    KeptIsLeft(globs, others, id, deleted, window);
    if |rules| == |window.rules| && |targets| == |window.targets| {
      WithoutRuleKeeps(window.rules, id);
      WithoutOrphansKeeps(globs, others, id, deleted, window.targets);
      assert window.(rules := rules, targets := targets) == window;
    }
  }

  /** The rule goes from every window of its user and system, with the targets that no other
      rule has; a window that loses its last scope by that goes too, and no other; windows of
      others stay as they are. */
  ghost predicate RemovedExactly(globs: R.Globs, others: map<string, RuleRecord>, id: string, deleted: RuleRecord,
                                 before: map<string, Window>, after: map<string, Window>) {
    && after.Keys <= before.Keys
    && (forall w :: w in before && (before[w].user != deleted.user || before[w].system != deleted.system) ==>
          w in after && after[w] == before[w])
    && (forall w :: w in before && before[w].user == deleted.user && before[w].system == deleted.system ==>
          && (w !in after <==> Empties(globs, others, id, deleted, before[w]))
          && (w in after ==> Leaves(globs, others, id, deleted, before[w], after[w])))
  }

  lemma {:induction false} RemovedIsExact(globs: R.Globs, others: map<string, RuleRecord>, id: string,
                                          deleted: RuleRecord, before: map<string, Window>,
                                          after: map<string, Window>)
    requires Removed(globs, others, id, deleted, before, after, {})
    ensures RemovedExactly(globs, others, id, deleted, before, after)
  {
    forall w | w in before && before[w].user == deleted.user && before[w].system == deleted.system
      ensures w !in after <==> Empties(globs, others, id, deleted, before[w])
      ensures w in after ==> Leaves(globs, others, id, deleted, before[w], after[w]) {
      TrimmedExact(globs, others, id, deleted, before[w]);
    }
  }

  /** Each window of the rule's user and system is trimmed, saved or deleted. */
  method RemoveRuleQuietHours(globs: R.Globs, windows: map<string, Window>, others: map<string, RuleRecord>, id: string,
                              deleted: RuleRecord) returns (result: map<string, Window>)
    ensures Removed(globs, others, id, deleted, windows, result, {})
    ensures RemovedExactly(globs, others, id, deleted, windows, result)
  {
    result := windows;
    var todo := set w | w in windows && Concerned(windows[w], deleted);
    while todo != {}
      invariant todo <= windows.Keys && (forall w :: w in todo ==> Concerned(windows[w], deleted))
      invariant Removed(globs, others, id, deleted, windows, result, todo)
      decreases |todo|
    {
      var w :| w in todo;
      var window := windows[w];
      var rules := WithoutRule(window.rules, id);
      var targets := WithoutOrphans(globs, others, id, deleted, window.targets);
      ghost var earlier := result;
      if |rules| == |window.rules| && |targets| == |window.targets| {
      } else if |rules| == 0 && |targets| == 0 && |window.alerts| == 0 {
        result := result - {w};
      } else {
        result := result[w := window.(rules := rules, targets := targets)];
      }
      OneMoreRemoved(globs, others, id, deleted, windows, earlier, result, todo, w);
      todo := todo - {w};
    }
    RemovedIsExact(globs, others, id, deleted, windows, result);
  }

  lemma {:induction false} TrimmedActive(load: string -> Option<Zone>, globs: R.Globs, others: map<string, RuleRecord>,
                                         id: string, deleted: RuleRecord, window: Window, now: int)
    ensures var trimmed := Trimmed(globs, others, id, deleted, window);
      trimmed.Some? ==> (QuietWindowActive(load, trimmed.value, now) <==> QuietWindowActive(load, window, now))
  {
  }

  /** A window silences no more once trimmed, and still all that is unaffected. */
  lemma {:induction false} TrimmedSilences(load: string -> Option<Zone>, globs: R.Globs,
                                           equalFold: (string, string) -> bool, others: map<string, RuleRecord>,
                                           id: string, deleted: RuleRecord, window: Window, query: Query, now: int)
    ensures var trimmed := Trimmed(globs, others, id, deleted, window);
      && (trimmed.Some? && Silences(load, equalFold, trimmed.value, query, now) ==>
            Silences(load, equalFold, window, query, now))
      && (Silences(load, equalFold, window, query, now)
          && !Affected(globs, equalFold, others, id, deleted, query) ==>
            trimmed.Some? && Silences(load, equalFold, trimmed.value, query, now))
  {
    TrimmedApplies(globs, equalFold, others, id, deleted, window, query);
    TrimmedActive(load, globs, others, id, deleted, window, now);
  }

  /** What a window is for without the rule and the targets that go with it; one that was
      for everything still is. */
  ghost predicate AppliesWithout(globs: R.Globs, equalFold: (string, string) -> bool, others: map<string, RuleRecord>,
                                 id: string, deleted: RuleRecord, window: Window, query: Query) {
    || (window.alerts == [] && window.rules == [] && window.targets == [])
    || (query.kind != "" && query.kind in window.alerts)
    || (query.rule != "" && query.rule in window.rules && query.rule != id)
    || (query.target != "" && exists t :: t in window.targets && !Goes(globs, others, id, deleted, t)
                                          && TargetMatches(equalFold, t, query.kind, query.target))
  }

  lemma {:induction false} LeftApplies(globs: R.Globs, equalFold: (string, string) -> bool,
                                       others: map<string, RuleRecord>, id: string, deleted: RuleRecord,
                                       before: Window, after: Window, query: Query)
    requires Leaves(globs, others, id, deleted, before, after) && (Scopeless(after) <==> Scopeless(before))
    ensures QuietWindowApplies(equalFold, after, query) <==>
            AppliesWithout(globs, equalFold, others, id, deleted, before, query)
  {
    assert query.rule in after.rules <==> multiset(after.rules)[query.rule] > 0;
    assert query.rule in before.rules <==> multiset(before.rules)[query.rule] > 0;
    forall t ensures t in after.targets <==> t in before.targets && !Goes(globs, others, id, deleted, t) {
      assert t in after.targets <==> multiset(after.targets)[t] > 0;
      assert t in before.targets <==> multiset(before.targets)[t] > 0;
    }
  }

  lemma {:induction false} EmptiedApplies(globs: R.Globs, equalFold: (string, string) -> bool,
                                          others: map<string, RuleRecord>, id: string, deleted: RuleRecord,
                                          window: Window, query: Query)
    requires Empties(globs, others, id, deleted, window)
    ensures !AppliesWithout(globs, equalFold, others, id, deleted, window, query)
  {
  }

  /** What is left of a window silences exactly what the window silenced without the rule and
      the targets that go with it. */
  lemma {:induction false} TrimmedAppliesWithout(globs: R.Globs, equalFold: (string, string) -> bool,
                                                 others: map<string, RuleRecord>, id: string, deleted: RuleRecord,
                                                 window: Window, query: Query)
    ensures var trimmed := Trimmed(globs, others, id, deleted, window);
      trimmed.Some? && QuietWindowApplies(equalFold, trimmed.value, query) <==>
      AppliesWithout(globs, equalFold, others, id, deleted, window, query)
  {
    var trimmed := Trimmed(globs, others, id, deleted, window);
    TrimmedExact(globs, others, id, deleted, window);
    if trimmed.Some? {
      TrimmedApplies(globs, equalFold, others, id, deleted, window, query);
      LeftApplies(globs, equalFold, others, id, deleted, window, trimmed.value, query);
    } else {
      EmptiedApplies(globs, equalFold, others, id, deleted, window, query);
    }
  }

  /** Whether a window silences a notification once a rule is deleted. */
  ghost predicate SilencesWithout(load: string -> Option<Zone>, globs: R.Globs, equalFold: (string, string) -> bool,
                                  others: map<string, RuleRecord>, id: string, deleted: RuleRecord, window: Window,
                                  query: Query, now: int) {
    && Covers(window, query) && QuietWindowActive(load, window, now)
    && if window.user == deleted.user && window.system == deleted.system
       then AppliesWithout(globs, equalFold, others, id, deleted, window, query)
       else QuietWindowApplies(equalFold, window, query)
  }

  lemma {:induction false} WindowAfterRemoval(load: string -> Option<Zone>, globs: R.Globs,
                                              equalFold: (string, string) -> bool, others: map<string, RuleRecord>,
                                              id: string, deleted: RuleRecord, before: map<string, Window>,
                                              after: map<string, Window>, w: string, query: Query, now: int)
    requires Removed(globs, others, id, deleted, before, after, {}) && w in before
    ensures w in after && Silences(load, equalFold, after[w], query, now) <==>
            SilencesWithout(load, globs, equalFold, others, id, deleted, before[w], query, now)
  {
    if Concerned(before[w], deleted) {
      TrimmedAppliesWithout(globs, equalFold, others, id, deleted, before[w], query);
      TrimmedActive(load, globs, others, id, deleted, before[w], now);
    }
  }

  /** Once a rule is deleted a notification is silenced if and only if a window covers it, is
      active, and is for it without the rule and the targets that went with it. */
  lemma {:induction false} RemovalSilencesExactly(load: string -> Option<Zone>, globs: R.Globs,
                                                  equalFold: (string, string) -> bool,
                                                  others: map<string, RuleRecord>, id: string, deleted: RuleRecord,
                                                  before: map<string, Window>, after: map<string, Window>,
                                                  query: Query, now: int)
    requires Removed(globs, others, id, deleted, before, after, {})
    ensures IsSilenced(load, equalFold, after, query, now) <==>
            exists w :: w in before
                        && SilencesWithout(load, globs, equalFold, others, id, deleted, before[w], query, now)
  {
    forall w | w in before
      ensures w in after && Silences(load, equalFold, after[w], query, now) <==>
              SilencesWithout(load, globs, equalFold, others, id, deleted, before[w], query, now) {
      WindowAfterRemoval(load, globs, equalFold, others, id, deleted, before, after, w, query, now);
    }
    if w :| w in after && Silences(load, equalFold, after[w], query, now) {
      assert w in before;
    }
  }

  /** Deleting a rule never silences more, and unsilences nothing but the rule itself and
      the targets that went with it. */
  lemma {:induction false} RemovalSilencesTheRest(load: string -> Option<Zone>, globs: R.Globs,
                                                  equalFold: (string, string) -> bool,
                                                  others: map<string, RuleRecord>, id: string, deleted: RuleRecord,
                                                  before: map<string, Window>, after: map<string, Window>,
                                                  query: Query, now: int)
    requires Removed(globs, others, id, deleted, before, after, {})
    ensures IsSilenced(load, equalFold, after, query, now) ==> IsSilenced(load, equalFold, before, query, now)
    ensures !Affected(globs, equalFold, others, id, deleted, query) ==>
              (IsSilenced(load, equalFold, after, query, now) <==> IsSilenced(load, equalFold, before, query, now))
  {
    if w :| w in after && Silences(load, equalFold, after[w], query, now) {
      TrimmedSilences(load, globs, equalFold, others, id, deleted, before[w], query, now);
      assert Silences(load, equalFold, before[w], query, now);
    }
    if w :| w in before && Silences(load, equalFold, before[w], query, now) {
      TrimmedSilences(load, globs, equalFold, others, id, deleted, before[w], query, now);
    }
  }
}
