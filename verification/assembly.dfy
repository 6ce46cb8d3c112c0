/**
 * The rewriting of one setpoint schedule (the cooling and heating loops of
 * the measure's `run`, with `modify_rule_for_date_period` and
 * `modify_default_day_for_date_period`).
 *
 * For each original rule, in order, the loop places the rule's clone for the
 * first period, then its clone for every configured optional period, then
 * the original itself, each at `current_index`, which then moves on. Weekday
 * coverage is taken from the first period's clones only. If some weekday is
 * still uncovered afterwards, one rule built from the default day is inserted
 * at index 0 for the first period and for every configured optional period.
 */
module Assembly {
  import opened Wrappers
  import opened DaySchedule
  import opened Splice
  import opened Rules

  /** One adjustment period: the dates it applies in and its peak time window. */
  datatype Period = Period(dates: DateWindow, times: Window)

  /** How the rewriting of one schedule ended. */
  datatype Outcome =
    | Completed(applicable: bool)
      /** A rule's day had no breakpoints: no clone was produced, and the
          measure then calls a method on the missing clone and raises. */
    | Crashed

  /** The day a rewritten rule ends up with: `day` cleared and spliced. */
  function SplicedDay(day: seq<Breakpoint>, w: Window, adjustment: real): (r: seq<Breakpoint>)
    ensures Sorted(r)
  {
    Spliced(day, w, adjustment).1
  }

  /** The clone `modify_rule_for_date_period` returns for a rule whose day has breakpoints. */
  function PeriodClone(rule: Rule, p: Period, adjustment: real): (c: Rule)
    requires rule.day != []
    ensures Sorted(c.day)
  {
    rule.(startDate := p.dates.start, endDate := p.dates.end, day := SplicedDay(rule.day, p.times, adjustment))
  }

  /** A clone applies on the same weekdays as the rule it came from. */
  lemma PeriodCloneDays(rule: Rule, p: Period, adjustment: real)
    requires rule.day != []
    ensures forall d :: 0 <= d < 7 ==> PeriodClone(rule, p, adjustment).AppliesOn(d) == rule.AppliesOn(d)
  {
  }

  /** The clone left behind in the ruleset when the rule's day has no breakpoints. */
  function DatedCopy(rule: Rule, p: Period): Rule {
    rule.(startDate := p.dates.start, endDate := p.dates.end)
  }

  /**
   * `modify_rule_for_date_period`: the clone joins the ruleset; it is
   * returned only when the rule's day has breakpoints.
   */
  method ModifyRuleForDatePeriod(rs: ScheduleRuleset, rule: Rule, p: Period, adjustment: real)
    returns (clone: Option<Rule>)
    modifies rs
    ensures clone == if rule.day == [] then None else Some(PeriodClone(rule, p, adjustment))
    ensures rs.rules == old(rs.rules) + [if rule.day == [] then DatedCopy(rule, p) else PeriodClone(rule, p, adjustment)]
  {
    var copy := DatedCopy(rule, p);
    var times, values := Times(copy.day), Values(copy.day);
    if times == [] {
      rs.AddClone(copy);
      return None;
    }
    var day := new ScheduleDay(copy.day);
    day.ClearValues();
    UpdateDaySchedule(day, times, values, p.times, adjustment);
    SplicedIsRun(rule.day, p.times, adjustment);
    copy := copy.(day := day.points);
    rs.AddClone(copy);
    clone := Some(copy);
  }

  /**
   * The rule `modify_default_day_for_date_period` inserts: the default day,
   * spliced, applying on exactly the weekdays not covered.
   */
  function DefaultRule(defaultDay: seq<Breakpoint>, covered: seq<bool>, p: Period, adjustment: real): (r: Rule)
    requires |covered| == 7
    ensures Sorted(r.day)
  {
    Rule(p.dates.start, p.dates.end,
         !covered[0], !covered[1], !covered[2], !covered[3], !covered[4], !covered[5], !covered[6],
         SplicedDay(defaultDay, p.times, adjustment))
  }

  /**
   * `modify_default_day_for_date_period`: a new rule on a copy of the default
   * day, applying on no weekday until `coverMissingDays` switches on the
   * uncovered ones, is spliced and placed at index 0.
   */
  method ModifyDefaultDayForDatePeriod(rs: ScheduleRuleset, covered: array<bool>, p: Period, adjustment: real)
    requires covered.Length == 7
    modifies rs
    ensures rs.rules == [DefaultRule(rs.defaultDay, covered[..], p, adjustment)] + old(rs.rules)
  {
    var rule := Rule(p.dates.start, p.dates.end, false, false, false, false, false, false, false, rs.defaultDay);
    rule := CoverMissingDays(rule, covered);
    var day := new ScheduleDay(rule.day);
    var times, values := Times(day.points), Values(day.points);
    day.ClearValues();
    UpdateDaySchedule(day, times, values, p.times, adjustment);
    SplicedIsRun(rs.defaultDay, p.times, adjustment);
    rule := rule.(day := day.points);
    rs.AddNewRule(rule);
    MoveToSamePlace(rs.rules, 0);
    rs.SetScheduleRuleIndex(0, 0);
  }

  /** The optional periods whose dates and times are all set (`[...].all?`), in order. */
  function Present(optional: seq<Option<Period>>): (r: seq<Period>)
    ensures |r| <= |optional|
    decreases |optional|
  {
    if optional == [] then []
    else
      var n := |optional| - 1;
      assert optional == optional[..n] + [optional[n]];
      Present(optional[..n]) + (if optional[n].Some? then [optional[n].value] else [])
  }

  /** Every rule's day has breakpoints, so every clone is produced. */
  ghost predicate Editable(rules: seq<Rule>) {
    forall k :: 0 <= k < |rules| ==> rules[k].day != []
  }

  /** A rule's clones for the given periods, in order. */
  function Clones(rule: Rule, periods: seq<Period>, adjustment: real): (r: seq<Rule>)
    requires rule.day != []
    ensures |r| == |periods|
    ensures forall q :: 0 <= q < |periods| ==> r[q] == PeriodClone(rule, periods[q], adjustment)
  {
    seq(|periods|, q requires 0 <= q < |periods| => PeriodClone(rule, periods[q], adjustment))
  }

  /** What one original rule contributes to the list, highest priority first. */
  function Block(rule: Rule, first: Period, optional: seq<Period>, adjustment: real): (r: seq<Rule>)
    requires rule.day != []
    ensures |r| == |optional| + 2
  {
    [PeriodClone(rule, first, adjustment)] + Clones(rule, optional, adjustment) + [rule]
  }

  /** The blocks of the given rules, in the rules' order. */
  function Blocks(rules: seq<Rule>, first: Period, optional: seq<Period>, adjustment: real): (r: seq<Rule>)
    requires Editable(rules)
    decreases |rules|
  {
    if rules == [] then []
    else
      var n := |rules| - 1;
      Blocks(rules[..n], first, optional, adjustment) + Block(rules[n], first, optional, adjustment)
  }

  /** Default-day rules, each inserted at index 0 in turn: the last period's rule comes first. */
  function DefaultRules(defaultDay: seq<Breakpoint>, covered: seq<bool>, periods: seq<Period>, adjustment: real)
    : (r: seq<Rule>)
    requires |covered| == 7
    ensures |r| == |periods|
    decreases |periods|
  {
    if periods == [] then []
    else
      var n := |periods| - 1;
      [DefaultRule(defaultDay, covered, periods[n], adjustment)] + DefaultRules(defaultDay, covered, periods[..n], adjustment)
  }

  lemma DefaultRulesSnoc(defaultDay: seq<Breakpoint>, covered: seq<bool>, periods: seq<Period>, p: Period,
                         adjustment: real)
    requires |covered| == 7
    ensures DefaultRules(defaultDay, covered, periods + [p], adjustment)
         == [DefaultRule(defaultDay, covered, p, adjustment)] + DefaultRules(defaultDay, covered, periods, adjustment)
  {
    assert (periods + [p])[..|periods|] == periods;
  }

  lemma DefaultRulesStep(defaultDay: seq<Breakpoint>, covered: seq<bool>, periods: seq<Period>, p: Period,
                         adjustment: real, rest: seq<Rule>, before: seq<Rule>, after: seq<Rule>)
    requires |covered| == 7
    requires before == DefaultRules(defaultDay, covered, periods, adjustment) + rest
    requires after == [DefaultRule(defaultDay, covered, p, adjustment)] + before
    ensures after == DefaultRules(defaultDay, covered, periods + [p], adjustment) + rest
  {
    DefaultRulesSnoc(defaultDay, covered, periods, p, adjustment);
  }

  /** The rule list after a run that completes. */
  function Assembled(rules: seq<Rule>, defaultDay: seq<Breakpoint>, first: Period, firstDefault: Period,
                     optional: seq<Period>, adjustment: real): seq<Rule>
    requires Editable(rules)
  {
    var blocks := Blocks(rules, first, optional, adjustment);
    var covered := Coverage(rules);
    if false in covered then DefaultRules(defaultDay, covered, [firstDefault] + optional, adjustment) + blocks
    else blocks
  }

  /** The position of the first rule whose day has no breakpoints, or the number of rules. */
  function FirstEmptyDay(rules: seq<Rule>): (k: nat)
    ensures k <= |rules|
    ensures forall j :: 0 <= j < k ==> rules[j].day != []
    ensures k < |rules| ==> rules[k].day == []
  {
    if rules == [] then 0
    else if rules[0].day == [] then 0
    else 1 + FirstEmptyDay(rules[1..])
  }

  /** The first `k` days have breakpoints and the next one has none (or there is none). */
  lemma {:induction false} FirstEmptyDayIs(rules: seq<Rule>, k: nat)
    requires k <= |rules| && Editable(rules[..k])
    requires k < |rules| ==> rules[k].day == []
    ensures FirstEmptyDay(rules) == k
    decreases k
  {
    if k > 0 {
      assert rules[..k][0] == rules[0];
      var tail := rules[1..];
      forall j | 0 <= j < k - 1 ensures tail[j].day != [] {
        assert tail[j] == rules[..k][j + 1];
      }
      FirstEmptyDayIs(tail, k - 1);
    }
  }

  /**
   * The rule list when the run raises at rule `k`: the earlier rules' blocks,
   * the rules not yet reached, and the dated clone that was not produced.
   */
  function CrashState(rules: seq<Rule>, k: nat, first: Period, optional: seq<Period>, adjustment: real): seq<Rule>
    requires k < |rules| && Editable(rules[..k])
  {
    Blocks(rules[..k], first, optional, adjustment) + rules[k..] + [DatedCopy(rules[k], first)]
  }

  lemma BlocksSnoc(rules: seq<Rule>, k: nat, first: Period, optional: seq<Period>, adjustment: real)
    requires k < |rules| && Editable(rules[..k + 1])
    ensures Editable(rules[..k])
    ensures Blocks(rules[..k + 1], first, optional, adjustment)
         == Blocks(rules[..k], first, optional, adjustment) + Block(rules[k], first, optional, adjustment)
  {
    assert rules[..k + 1][..k] == rules[..k];
  }

  /** A rule whose day has breakpoints keeps the prefix editable. */
  lemma EditableSnoc(rules: seq<Rule>, k: nat)
    requires k < |rules| && Editable(rules[..k]) && rules[k].day != []
    ensures Editable(rules[..k + 1])
  {
    forall j | 0 <= j < k + 1 ensures rules[j].day != [] {
      if j < k { assert rules[..k][j] == rules[j]; }
    }
  }

  lemma PresentSnoc(optional: seq<Option<Period>>, q: nat)
    requires q < |optional|
    ensures Present(optional[..q + 1])
         == Present(optional[..q]) + (if optional[q].Some? then [optional[q].value] else [])
  {
    assert optional[..q + 1][..q] == optional[..q];
  }

  /** A period is used if and only if its slot is set. */
  lemma {:induction false} PresentMembers(optional: seq<Option<Period>>)
    ensures forall p :: p in Present(optional) <==> Some(p) in optional
    decreases |optional|
  {
    if optional != [] {
      var n := |optional| - 1;
      PresentMembers(optional[..n]);
      assert optional == optional[..n] + [optional[n]];
    }
  }

  /** Appending a set period appends it to the present ones; appending an unset one changes nothing. */
  lemma PresentAppend(optional: seq<Option<Period>>, p: Period)
    ensures Present(optional + [Some(p)]) == Present(optional) + [p]
    ensures Present(optional + [None]) == Present(optional)
  {
    assert (optional + [Some(p)])[..|optional|] == optional;
    assert (optional + [None])[..|optional|] == optional;
  }

  lemma ClonesSnoc(rule: Rule, optional: seq<Option<Period>>, q: nat, adjustment: real)
    requires q < |optional| && rule.day != []
    ensures Clones(rule, Present(optional[..q + 1]), adjustment)
         == Clones(rule, Present(optional[..q]), adjustment)
            + (if optional[q].Some? then [PeriodClone(rule, optional[q].value, adjustment)] else [])
  {
    PresentSnoc(optional, q);
  }

  /** The optional-period clones of `rule`, placed one after another from `index` on. */
  method PlaceOptionalClones(rs: ScheduleRuleset, rule: Rule, index: nat, optional: seq<Option<Period>>,
                             adjustment: real)
    requires rule.day != [] && index <= |rs.rules|
    modifies rs
    ensures rs.rules == old(rs.rules)[..index] + Clones(rule, Present(optional), adjustment) + old(rs.rules)[index..]
  {
    ghost var before, after := rs.rules[..index], rs.rules[index..];
    var current := index;
    for q := 0 to |optional|
      invariant current == |before| + |Present(optional[..q])|
      invariant rs.rules == before + Clones(rule, Present(optional[..q]), adjustment) + after
    {
      ClonesSnoc(rule, optional, q, adjustment);
      if optional[q].Some? {
        ghost var placed := before + Clones(rule, Present(optional[..q]), adjustment);
        var clone := ModifyRuleForDatePeriod(rs, rule, optional[q].value, adjustment);
        MoveLastBetween(placed, after, clone.value);
        rs.SetScheduleRuleIndex(|rs.rules| - 1, current);
        current := current + 1;
      }
    }
    assert optional[..|optional|] == optional;
  }

  /** Marking one more rule's weekdays turns the coverage of `k` rules into that of `k + 1`. */
  lemma CoverageSnoc(rules: seq<Rule>, k: nat, before: seq<bool>, after: seq<bool>)
    requires k < |rules| && before == Coverage(rules[..k]) && |after| == 7
    requires forall d :: 0 <= d < 7 ==> after[d] == (before[d] || rules[k].AppliesOn(d))
    ensures after == Coverage(rules[..k + 1])
  {
    assert rules[..k + 1][..k] == rules[..k];
  }

  /**
   * One pass of the loop over the original rules: the rule's first-period
   * clone goes to `index`, then a clone per configured optional period, then
   * the rule itself, so that together they replace the rule at `index`. The
   * first-period clone's weekdays are marked covered. When the rule's day has
   * no breakpoints, only the dated copy joins the ruleset and nothing else
   * happens (the measure raises right after).
   */
  method PlaceRule(rs: ScheduleRuleset, rule: Rule, covered: array<bool>, index: nat, first: Period,
                   optional: seq<Option<Period>>, adjustment: real, ghost before: seq<Rule>, ghost rest: seq<Rule>)
    returns (produced: bool)
    requires covered.Length == 7
    requires rs.rules == before + [rule] + rest && index == |before|
    modifies rs, covered
    ensures produced <==> rule.day != []
    ensures !produced ==> rs.rules == before + [rule] + rest + [DatedCopy(rule, first)]
    ensures produced ==> rs.rules == before + Block(rule, first, Present(optional), adjustment) + rest
    ensures produced ==> forall d :: 0 <= d < 7 ==> covered[d] == (old(covered[d]) || rule.AppliesOn(d))
  {
    ghost var after := [rule] + rest;
    assert rs.rules == before + after;
    var clone1 := ModifyRuleForDatePeriod(rs, rule, first, adjustment);
    if clone1.None? {
      return false;
    }
    produced := true;
    CheckDaysCovered(clone1.value, covered);
    MoveLastBetween(before, after, clone1.value);
    rs.SetScheduleRuleIndex(|rs.rules| - 1, index);
    SplitAround(before, clone1.value, after);
    PlaceAfterFirstClone(rs, rule, clone1.value, index, optional, adjustment, before, rest);
    Regroup(before, clone1.value, Clones(rule, Present(optional), adjustment), rule, rest);
    assert Block(rule, first, Present(optional), adjustment)
        == [clone1.value] + Clones(rule, Present(optional), adjustment) + [rule];
    PeriodCloneDays(rule, first, adjustment);
  }

  /**
   * The rest of one rule's block, once its period-1 clone sits at `index`:
   * the optional clones go after it, and the original rule is moved to the
   * place it already occupies.
   */
  method PlaceAfterFirstClone(rs: ScheduleRuleset, rule: Rule, clone: Rule, index: nat,
                              optional: seq<Option<Period>>, adjustment: real, ghost before: seq<Rule>, ghost rest: seq<Rule>)
    requires rule.day != []
    requires rs.rules == before + [clone] + [rule] + rest && index == |before|
    modifies rs
    ensures rs.rules == before + [clone] + Clones(rule, Present(optional), adjustment) + [rule] + rest
  {
    assert rs.rules == before + [clone] + ([rule] + rest);
    SplitAround(before, clone, [rule] + rest);
    PlaceOptionalClones(rs, rule, index + 1, optional, adjustment);
    ghost var clones := Clones(rule, Present(optional), adjustment);
    var current := index + 1 + |Present(optional)|;
    // the original rule is now at `current`: moving it there changes nothing
    assert rs.rules == (before + [clone] + clones) + [rule] + rest;
    MoveToSamePlace(rs.rules, current);
    rs.SetScheduleRuleIndex(current, current);
  }

  /**
   * The default-day rules: one for `firstDefault` and one for every
   * configured optional period, each inserted at index 0. All of them take
   * the same uncovered weekdays, since inserting them marks nothing covered.
   * `optionalAdded` is whether an optional period's rule was added, the only
   * case in which this part sets `applicable_flag`.
   */
  method AddDefaultRules(rs: ScheduleRuleset, covered: array<bool>, firstDefault: Period,
                         optional: seq<Option<Period>>, adjustment: real)
    returns (optionalAdded: bool)
    requires covered.Length == 7
    modifies rs
    ensures rs.rules == DefaultRules(rs.defaultDay, covered[..], [firstDefault] + Present(optional), adjustment) + old(rs.rules)
    ensures optionalAdded <==> |Present(optional)| > 0
  {
    ghost var mask, rest := covered[..], rs.rules;
    ModifyDefaultDayForDatePeriod(rs, covered, firstDefault, adjustment);
    optionalAdded := false;
    ghost var periods := [firstDefault];
    DefaultRulesSnoc(rs.defaultDay, mask, [], firstDefault, adjustment);
    for q := 0 to |optional|
      invariant periods == [firstDefault] + Present(optional[..q])
      invariant rs.rules == DefaultRules(rs.defaultDay, mask, periods, adjustment) + rest
      invariant optionalAdded <==> |Present(optional[..q])| > 0
    {
      PresentSnoc(optional, q);
      if optional[q].Some? {
        ghost var prior := rs.rules;
        ModifyDefaultDayForDatePeriod(rs, covered, optional[q].value, adjustment);
        optionalAdded := true;
        DefaultRulesStep(rs.defaultDay, mask, periods, optional[q].value, adjustment, rest, prior, rs.rules);
        periods := periods + [optional[q].value];
      }
    }
    assert optional[..|optional|] == optional;
  }

  /** The loop's invariant after one more rule has been placed. */
  lemma PlacedNext(rules: seq<Rule>, k: nat, first: Period, present: seq<Period>, adjustment: real,
                   placed: seq<Rule>, marked: seq<bool>, covered: seq<bool>)
    requires k < |rules| && Editable(rules[..k]) && rules[k].day != []
    requires placed == Blocks(rules[..k], first, present, adjustment)
    requires marked == Coverage(rules[..k]) && |covered| == 7
    requires forall d :: 0 <= d < 7 ==> covered[d] == (marked[d] || rules[k].AppliesOn(d))
    ensures Editable(rules[..k + 1])
    ensures placed + Block(rules[k], first, present, adjustment) == Blocks(rules[..k + 1], first, present, adjustment)
    ensures |placed + Block(rules[k], first, present, adjustment)| == |placed| + |present| + 2
    ensures covered == Coverage(rules[..k + 1])
  {
    EditableSnoc(rules, k);
    BlocksSnoc(rules, k, first, present, adjustment);
    CoverageSnoc(rules, k, marked, covered);
  }

  /** The rule list when the loop stops at the first rule whose day has no breakpoints. */
  lemma CrashedAt(rules: seq<Rule>, k: nat, first: Period, present: seq<Period>, adjustment: real,
                  placed: seq<Rule>, current: seq<Rule>)
    requires k < |rules| && Editable(rules[..k]) && rules[k].day == []
    requires placed == Blocks(rules[..k], first, present, adjustment)
    requires current == placed + [rules[k]] + rules[k + 1..] + [DatedCopy(rules[k], first)]
    ensures FirstEmptyDay(rules) == k
    ensures current == CrashState(rules, k, first, present, adjustment)
  {
    FirstEmptyDayIs(rules, k);
    ConsRest(placed, rules, k);
  }

  /**
   * The loop over the original rules. It stops at the first rule whose day
   * has no breakpoints, where the measure raises. `applicable` is set once a
   * rule has been rewritten.
   */
  method PlaceRules(rs: ScheduleRuleset, covered: array<bool>, first: Period, optional: seq<Option<Period>>,
                    adjustment: real)
    returns (crashed: bool, applicable: bool, ghost at: nat)
    requires covered.Length == 7 && covered[..] == Coverage([])
    modifies rs, covered
    ensures at == FirstEmptyDay(old(rs.rules))
    ensures crashed <==> at < |old(rs.rules)|
    ensures crashed ==>
              Editable(old(rs.rules)[..at]) && rs.rules == CrashState(old(rs.rules), at, first, Present(optional), adjustment)
    ensures !crashed ==>
              Editable(old(rs.rules))
              && rs.rules == Blocks(old(rs.rules), first, Present(optional), adjustment)
              && covered[..] == Coverage(old(rs.rules))
              && (applicable <==> |old(rs.rules)| > 0)
  {
    var rules := rs.rules;
    var present := Present(optional);
    applicable := false;
    var index := 0;
    ghost var placed: seq<Rule> := [];
    for k := 0 to |rules|
      invariant Editable(rules[..k])
      invariant placed == Blocks(rules[..k], first, present, adjustment)
      invariant index == |placed|
      invariant rs.rules == placed + rules[k..]
      invariant covered[..] == Coverage(rules[..k])
      invariant applicable == (k > 0)
    {
      ConsRest(placed, rules, k);
      ghost var marked := covered[..];
      var produced := PlaceRule(rs, rules[k], covered, index, first, optional, adjustment, placed, rules[k + 1..]);
      if !produced {
        // `rule_period1.daySchedule` is then called on `false`, and the measure raises
        CrashedAt(rules, k, first, present, adjustment, placed, rs.rules);
        return true, applicable, k;
      }
      applicable := true;
      PlacedNext(rules, k, first, present, adjustment, placed, marked, covered[..]);
      placed := placed + Block(rules[k], first, present, adjustment);
      index := index + |present| + 2;
    }
    assert rules[..|rules|] == rules;
    FirstEmptyDayIs(rules, |rules|);
    crashed, at := false, |rules|;
  }

  /**
   * The rewriting of one schedule: the cooling loop and the heating loop of
   * `run` each make this pass over a ruleset. `first` is the period whose
   * dates and times the rules' first clones get; `firstDefault` is the one the
   * first default-day rule gets (the cooling loop passes different dates to
   * the two).
   */
  method AdjustRuleset(rs: ScheduleRuleset, first: Period, firstDefault: Period, optional: seq<Option<Period>>,
                       adjustment: real)
    returns (outcome: Outcome)
    modifies rs
    ensures outcome.Crashed? <==> FirstEmptyDay(old(rs.rules)) < |old(rs.rules)|
    ensures outcome.Crashed? ==>
              var k := FirstEmptyDay(old(rs.rules));
              k < |old(rs.rules)| && Editable(old(rs.rules)[..k])
              && rs.rules == CrashState(old(rs.rules), k, first, Present(optional), adjustment)
    ensures outcome.Completed? ==>
              Editable(old(rs.rules))
              && rs.rules == Assembled(old(rs.rules), rs.defaultDay, first, firstDefault, Present(optional), adjustment)
    ensures outcome.Completed? ==> (outcome.applicable <==> |old(rs.rules)| > 0 || |Present(optional)| > 0)
  {
    var covered := new bool[7](d => false);
    var crashed, applicable, at := PlaceRules(rs, covered, first, optional, adjustment);
    if crashed {
      return Crashed;
    }
    if false in covered[..] {
      var optionalAdded := AddDefaultRules(rs, covered, firstDefault, optional, adjustment);
      applicable := applicable || optionalAdded;
    }
    outcome := Completed(applicable);
  }
}
