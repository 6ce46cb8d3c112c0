/**
 * Schedule rules, the ruleset that orders them, and the weekday coverage
 * helpers `checkDaysCovered` and `coverMissingDays`.
 *
 * A rule is a value: cloning a rule copies it, and the measure finishes
 * editing a clone before it is placed. The ruleset is the host object whose
 * rule list the measure reorders in place; a rule in it is addressed by its
 * position rather than by object identity.
 */
module Rules {
  import opened DaySchedule

  /** A calendar date as month and day of month. */
  datatype Date = Date(month: int, day: int)

  /** The date window a rule applies in, both ends included. */
  datatype DateWindow = DateWindow(start: Date, end: Date)

  /** A schedule rule: its date window, its weekday flags and its day schedule. */
  datatype Rule = Rule(
    startDate: Date, endDate: Date,
    applySunday: bool, applyMonday: bool, applyTuesday: bool, applyWednesday: bool,
    applyThursday: bool, applyFriday: bool, applySaturday: bool,
    day: seq<Breakpoint>)
  {
    /** Whether the rule applies on weekday `d`; 0 is Sunday, as in `days_covered`. */
    predicate AppliesOn(d: nat)
      requires d < 7
    {
      match d
      case 0 => applySunday
      case 1 => applyMonday
      case 2 => applyTuesday
      case 3 => applyWednesday
      case 4 => applyThursday
      case 5 => applyFriday
      case _ => applySaturday
    }
  }

  /** The list with the element at `i` taken out. */
  function Without<T>(s: seq<T>, i: nat): (r: seq<T>)
    requires i < |s|
    ensures |r| == |s| - 1
  {
    s[..i] + s[i + 1..]
  }

  /**
   * `setScheduleRuleIndex`: the element at `from` moves to index `to`, and
   * the others keep their order, shifting to make room.
   */
  function MoveTo<T>(s: seq<T>, from: nat, to: nat): (r: seq<T>)
    requires from < |s| && to < |s|
    ensures |r| == |s| && r[to] == s[from]
    ensures Without(r, to) == Without(s, from)
  {
    var rest := Without(s, from);
    assert rest[..to] + [s[from]] + rest[to..] == rest[..to] + ([s[from]] + rest[to..]);
    rest[..to] + [s[from]] + rest[to..]
  }

  /** Moving an element to the index it already has changes nothing. */
  lemma MoveToSamePlace<T>(s: seq<T>, i: nat)
    requires i < |s|
    ensures MoveTo(s, i, i) == s
  {
    assert Without(s, i)[..i] == s[..i];
    assert Without(s, i)[i..] == s[i + 1..];
    assert s == s[..i] + [s[i]] + s[i + 1..];
  }

  /** Moving the last element to index `to` inserts it there. */
  lemma MoveLastTo<T>(s: seq<T>, x: T, to: nat)
    requires to <= |s|
    ensures MoveTo(s + [x], |s|, to) == s[..to] + [x] + s[to..]
  {
    assert Without(s + [x], |s|) == s;
  }

  /** Moving the last element to just after `placed` inserts it between `placed` and `after`. */
  lemma MoveLastBetween<T>(placed: seq<T>, after: seq<T>, x: T)
    ensures MoveTo(placed + after + [x], |placed + after|, |placed|) == placed + [x] + after
  {
    MoveLastTo(placed + after, x, |placed|);
    assert (placed + after)[..|placed|] == placed;
    assert (placed + after)[|placed|..] == after;
  }

  /** The pieces of `a + [x] + b` around `x`. */
  lemma SplitAround<T>(a: seq<T>, x: T, b: seq<T>)
    ensures (a + [x] + b)[..|a| + 1] == a + [x]
    ensures (a + [x] + b)[|a| + 1..] == b
  {
  }

  /** The element at `k` split off the rest of `s`. */
  lemma ConsRest<T>(a: seq<T>, s: seq<T>, k: nat)
    requires k < |s|
    ensures a + s[k..] == a + [s[k]] + s[k + 1..]
  {
    assert s[k..] == [s[k]] + s[k + 1..];
  }

  /** Regrouping a concatenation around one element. */
  lemma Regroup<T>(a: seq<T>, x: T, c: seq<T>, y: T, rest: seq<T>)
    ensures a + [x] + c + [y] + rest == a + ([x] + c + [y]) + rest
  {
  }

  /**
   * Which weekdays the given rules cover: slot `d` is true when some rule
   * applies on weekday `d`.
   */
  function Coverage(rules: seq<Rule>): (r: seq<bool>)
    ensures |r| == 7
    ensures forall d :: 0 <= d < 7 ==> (r[d] <==> exists k :: 0 <= k < |rules| && rules[k].AppliesOn(d))
    decreases |rules|
  {
    if rules == [] then [false, false, false, false, false, false, false]
    else
      var n := |rules| - 1;
      var prior := Coverage(rules[..n]);
      assert forall k :: 0 <= k < n ==> rules[..n][k] == rules[k];
      seq(7, d requires 0 <= d < 7 => prior[d] || rules[n].AppliesOn(d))
  }

  /** `checkDaysCovered`: marks every weekday the rule applies on; no slot is ever cleared. */
  method CheckDaysCovered(rule: Rule, covered: array<bool>)
    requires covered.Length == 7
    modifies covered
    ensures forall d :: 0 <= d < 7 ==> covered[d] == (old(covered[d]) || rule.AppliesOn(d))
  {
    if rule.applySunday { covered[0] := true; }
    if rule.applyMonday { covered[1] := true; }
    if rule.applyTuesday { covered[2] := true; }
    if rule.applyWednesday { covered[3] := true; }
    if rule.applyThursday { covered[4] := true; }
    if rule.applyFriday { covered[5] := true; }
    if rule.applySaturday { covered[6] := true; }
  }

  /**
   * `coverMissingDays`: switches on the rule's flag for every weekday not yet
   * covered, and touches nothing else.
   */
  method CoverMissingDays(rule: Rule, covered: array<bool>) returns (r: Rule)
    requires covered.Length == 7
    ensures r.applySunday == (rule.applySunday || !covered[0])
    ensures r.applyMonday == (rule.applyMonday || !covered[1])
    ensures r.applyTuesday == (rule.applyTuesday || !covered[2])
    ensures r.applyWednesday == (rule.applyWednesday || !covered[3])
    ensures r.applyThursday == (rule.applyThursday || !covered[4])
    ensures r.applyFriday == (rule.applyFriday || !covered[5])
    ensures r.applySaturday == (rule.applySaturday || !covered[6])
    ensures r.startDate == rule.startDate && r.endDate == rule.endDate && r.day == rule.day
  {
    var sunday, monday, tuesday, wednesday := rule.applySunday, rule.applyMonday, rule.applyTuesday, rule.applyWednesday;
    var thursday, friday, saturday := rule.applyThursday, rule.applyFriday, rule.applySaturday;
    if covered[0] == false { sunday := true; }
    if covered[1] == false { monday := true; }
    if covered[2] == false { tuesday := true; }
    if covered[3] == false { wednesday := true; }
    if covered[4] == false { thursday := true; }
    if covered[5] == false { friday := true; }
    if covered[6] == false { saturday := true; }
    r := rule.(applySunday := sunday, applyMonday := monday, applyTuesday := tuesday, applyWednesday := wednesday,
               applyThursday := thursday, applyFriday := friday, applySaturday := saturday);
  }

  /**
   * The host's ScheduleRuleset: an ordered list of rules, where a lower index
   * is a higher priority, and the default day used when no rule applies.
   */
  class ScheduleRuleset {
    var rules: seq<Rule>
    const defaultDay: seq<Breakpoint>

    constructor (rules: seq<Rule>, defaultDay: seq<Breakpoint>)
      ensures this.rules == rules && this.defaultDay == defaultDay
    {
      this.rules := rules;
      this.defaultDay := defaultDay;
    }

    /** A cloned rule joins the ruleset it came from at the lowest priority. */
    method AddClone(r: Rule)
      modifies this
      ensures rules == old(rules) + [r]
    {
      rules := rules + [r];
    }

    /** A rule created with `ScheduleRule.new` joins the ruleset at the highest priority. */
    method AddNewRule(r: Rule)
      modifies this
      ensures rules == [r] + old(rules)
    {
      rules := [r] + rules;
    }

    /** `setScheduleRuleIndex`: the rule at position `from` moves to index `to`. */
    method SetScheduleRuleIndex(from: nat, to: nat)
      requires from < |rules| && to < |rules|
      modifies this
      ensures rules == MoveTo(old(rules), from, to)
    {
      rules := MoveTo(rules, from, to);
    }
  }
}
