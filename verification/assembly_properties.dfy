/**
 * What the rewritten rule list of a schedule looks like: where each
 * original rule's block sits, which rules the default day contributes, and
 * that every weekday is served by some rule.
 */
module AssemblyProperties {
  import opened Wrappers
  import opened DaySchedule
  import opened Rules
  import opened Assembly

  lemma MulStep(n: nat, w: nat)
    ensures (n + 1) * w == n * w + w
  {
  }

  /** Every block has the same length, two more than the number of optional periods. */
  lemma {:induction false} BlocksLength(rules: seq<Rule>, first: Period, optional: seq<Period>, adjustment: real)
    requires Editable(rules)
    ensures |Blocks(rules, first, optional, adjustment)| == |rules| * (|optional| + 2)
    decreases |rules|
  {
    if rules != [] {
      var n := |rules| - 1;
      BlocksLength(rules[..n], first, optional, adjustment);
      MulStep(n, |optional| + 2);
    }
  }

  /** The blocks of two runs of rules, one after the other, are the blocks of the joined run. */
  lemma {:induction false} BlocksAppend(a: seq<Rule>, b: seq<Rule>, first: Period, optional: seq<Period>, adjustment: real)
    requires Editable(a) && Editable(b)
    ensures Editable(a + b)
    ensures Blocks(a + b, first, optional, adjustment) == Blocks(a, first, optional, adjustment) + Blocks(b, first, optional, adjustment)
    decreases |b|
  {
    forall j | 0 <= j < |a + b| ensures (a + b)[j].day != [] {
      if j >= |a| { assert (a + b)[j] == b[j - |a|]; }
    }
    if b == [] {
      assert a + b == a;
    } else {
      var n := |b| - 1;
      assert (a + b)[..|a + b| - 1] == a + b[..n];
      assert (a + b)[|a + b| - 1] == b[n];
      BlocksAppend(a, b[..n], first, optional, adjustment);
    }
  }

  /**
   * After the loop, the list splits around original rule `k`: the blocks of
   * the rules before it, which fill the first `k * (m + 2)` places (`m`
   * optional periods), then its own block (its clone for period 1, its
   * clones for the optional periods in order, the rule itself), then the
   * blocks of the rules after it. So the original rules keep their relative
   * order, each preceded by its own clones.
   */
  lemma BlockAt(rules: seq<Rule>, first: Period, optional: seq<Period>, adjustment: real, k: nat)
    requires Editable(rules) && k < |rules|
    ensures Editable(rules[..k]) && Editable(rules[k + 1..])
    ensures Blocks(rules, first, optional, adjustment)
         == Blocks(rules[..k], first, optional, adjustment)
          + Block(rules[k], first, optional, adjustment)
          + Blocks(rules[k + 1..], first, optional, adjustment)
    ensures |Blocks(rules[..k], first, optional, adjustment)| == k * (|optional| + 2)
  {
    EditableSlices(rules, k + 1);
    BlocksSnoc(rules, k, first, optional, adjustment);
    BlocksAppend(rules[..k + 1], rules[k + 1..], first, optional, adjustment);
    Rejoin(rules, k + 1);
    BlocksLength(rules[..k], first, optional, adjustment);
  }

  lemma EditableSlices(rules: seq<Rule>, k: nat)
    requires Editable(rules) && k <= |rules|
    ensures Editable(rules[..k]) && Editable(rules[k..])
  {
    var before, after := rules[..k], rules[k..];
    forall j | 0 <= j < |before| ensures before[j].day != [] { assert before[j] == rules[j]; }
    forall j | 0 <= j < |after| ensures after[j].day != [] { assert after[j] == rules[k + j]; }
  }

  lemma Rejoin<T>(s: seq<T>, k: nat)
    requires k <= |s|
    ensures s[..k] + s[k..] == s
  {
  }

  /** The default-day rules, last period first: position `q` holds the rule for period `|periods| - 1 - q`. */
  lemma {:induction false} DefaultRulesAt(defaultDay: seq<Breakpoint>, covered: seq<bool>, periods: seq<Period>,
                                          adjustment: real, q: nat)
    requires |covered| == 7 && q < |periods|
    ensures DefaultRules(defaultDay, covered, periods, adjustment)[q]
         == DefaultRule(defaultDay, covered, periods[|periods| - 1 - q], adjustment)
    decreases |periods|
  {
    var n := |periods| - 1;
    if q > 0 {
      DefaultRulesAt(defaultDay, covered, periods[..n], adjustment, q - 1);
    }
  }

  /** A default-day rule applies in its period's dates, on exactly the weekdays no original rule covers. */
  lemma DefaultRuleDays(defaultDay: seq<Breakpoint>, covered: seq<bool>, p: Period, adjustment: real)
    requires |covered| == 7
    ensures forall d :: 0 <= d < 7 ==> (DefaultRule(defaultDay, covered, p, adjustment).AppliesOn(d) <==> !covered[d])
    ensures DefaultRule(defaultDay, covered, p, adjustment).startDate == p.dates.start
    ensures DefaultRule(defaultDay, covered, p, adjustment).endDate == p.dates.end
  {
  }

  /**
   * The list after a completed run: when some weekday is uncovered, the
   * default-day rules come first, the last optional period's first and
   * the first period's last; the blocks follow.
   */
  lemma AssembledLayout(rules: seq<Rule>, defaultDay: seq<Breakpoint>, first: Period, firstDefault: Period,
                        optional: seq<Period>, adjustment: real)
    requires Editable(rules)
    ensures var result := Assembled(rules, defaultDay, first, firstDefault, optional, adjustment);
            var extra := if false in Coverage(rules) then |optional| + 1 else 0;
            && |result| == extra + |rules| * (|optional| + 2)
            && result[extra..] == Blocks(rules, first, optional, adjustment)
            && (extra > 0 ==> result[extra - 1] == DefaultRule(defaultDay, Coverage(rules), firstDefault, adjustment))
  {
    BlocksLength(rules, first, optional, adjustment);
    var covered := Coverage(rules);
    if false in covered {
      var periods := [firstDefault] + optional;
      DefaultRulesAt(defaultDay, covered, periods, adjustment, |optional|);
    }
  }

  /** After a completed run every weekday has a rule that applies on it. */
  lemma EveryWeekdayServed(rules: seq<Rule>, defaultDay: seq<Breakpoint>, first: Period, firstDefault: Period,
                           optional: seq<Period>, adjustment: real, d: nat)
    requires Editable(rules) && d < 7
    ensures exists r :: r in Assembled(rules, defaultDay, first, firstDefault, optional, adjustment) && r.AppliesOn(d)
  {
    var result := Assembled(rules, defaultDay, first, firstDefault, optional, adjustment);
    var covered := Coverage(rules);
    var blocks := Blocks(rules, first, optional, adjustment);
    assert forall r :: r in blocks ==> r in result;
    if covered[d] {
      var k :| 0 <= k < |rules| && rules[k].AppliesOn(d);
      BlockAt(rules, first, optional, adjustment, k);
      assert rules[k] in blocks;
    } else {
      var periods := [firstDefault] + optional;
      DefaultRulesAt(defaultDay, covered, periods, adjustment, |optional|);
      DefaultRuleDays(defaultDay, covered, firstDefault, adjustment);
      assert DefaultRules(defaultDay, covered, periods, adjustment)[|optional|] in result;
    }
  }
}
