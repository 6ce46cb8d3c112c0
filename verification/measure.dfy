/**
 * The loop of `run` over the cloned setpoint schedules of one kind: each
 * schedule is rewritten in turn, `applicable_flag` collects whether any
 * rewriting applied, and a schedule with an empty rule day raises and ends
 * the run.
 */
module Measure {
  import opened Wrappers
  import opened Rules
  import opened Assembly

  /** The rewriting of this rule list completes (no rule has an empty day). */
  predicate Completes(rules: seq<Rule>) {
    FirstEmptyDay(rules) == |rules|
  }

  /**
   * The rule list a schedule is left with, for a schedule whose rewriting
   * completes.
   */
  function Rewritten(rules: seq<Rule>, defaultDay: seq<DaySchedule.Breakpoint>, first: Period, firstDefault: Period,
                     optional: seq<Option<Period>>, adjustment: real): (r: seq<Rule>)
    requires Completes(rules)
  {
    FirstEmptyDayIs(rules, |rules|);
    assert rules[..|rules|] == rules;
    Assembled(rules, defaultDay, first, firstDefault, Present(optional), adjustment)
  }

  /**
   * `clg_set_schs.each` / `htg_set_schs.each` over the rulesets: each
   * schedule is rewritten with the same periods. `applicable` comes in as
   * the flag so far and leaves set if any schedule had a rule or the
   * optional periods are configured. `at` is the schedule whose rewriting
   * raised, or the number of schedules.
   */
  method AdjustSchedules(schedules: seq<ScheduleRuleset>, first: Period, firstDefault: Period,
                         optional: seq<Option<Period>>, adjustment: real, applicableBefore: bool)
    returns (crashed: bool, applicable: bool, ghost at: nat)
    requires forall i, j :: 0 <= i < j < |schedules| ==> schedules[i] != schedules[j]
    modifies set i | 0 <= i < |schedules| :: schedules[i]
    ensures at <= |schedules| && (crashed <==> at < |schedules|)
    // the schedules before `at` complete and are rewritten
    ensures forall j :: 0 <= j < at ==>
              && Completes(old(schedules[j].rules))
              && schedules[j].rules == Rewritten(old(schedules[j].rules), schedules[j].defaultDay, first, firstDefault,
                                                 optional, adjustment)
    // the one at `at` raises part-way, and the ones after it are not reached
    ensures crashed ==>
              var k := FirstEmptyDay(old(schedules[at].rules));
              && k < |old(schedules[at].rules)| && Editable(old(schedules[at].rules)[..k])
              && schedules[at].rules == CrashState(old(schedules[at].rules), k, first, Present(optional), adjustment)
    ensures forall j :: at < j < |schedules| ==> schedules[j].rules == old(schedules[j].rules)
    ensures !crashed ==>
              (applicable <==> applicableBefore
                               || (|schedules| > 0 && |Present(optional)| > 0)
                               || exists j :: 0 <= j < |schedules| && |old(schedules[j].rules)| > 0)
  {
    applicable := applicableBefore;
    for k := 0 to |schedules|
      invariant forall j :: 0 <= j < k ==>
                  && Completes(old(schedules[j].rules))
                  && schedules[j].rules == Rewritten(old(schedules[j].rules), schedules[j].defaultDay, first,
                                                     firstDefault, optional, adjustment)
      invariant forall j :: k <= j < |schedules| ==> schedules[j].rules == old(schedules[j].rules)
      invariant applicable <==> applicableBefore
                                || (k > 0 && |Present(optional)| > 0)
                                || exists j :: 0 <= j < k && |old(schedules[j].rules)| > 0
    {
      var outcome := AdjustRuleset(schedules[k], first, firstDefault, optional, adjustment);
      if outcome.Crashed? {
        return true, applicable, k;
      }
      applicable := applicable || outcome.applicable;
    }
    crashed, at := false, |schedules|;
  }
}
