/** What one pass of `updateDaySchedule` writes, over all of a day's breakpoints. */
module SpliceProperties {
  import opened Temperature
  import opened DaySchedule
  import opened Splice

  /**
   * Every original time is written, and the only other times written are the
   * window's begin and end.
   */
  lemma {:induction false} RunTimes(times: seq<int>, values: seq<real>, w: Window, adjustment: real)
    requires |times| == |values|
    ensures (set t | t in times) <= TimeSet(Run(times, values, w, adjustment).1)
    ensures TimeSet(Run(times, values, w, adjustment).1) <= (set t | t in times) + {w.begin, w.end}
    decreases |times|
  {
    if times != [] {
      var n := |times| - 1;
      RunTimes(times[..n], values[..n], w, adjustment);
      var prior := Run(times[..n], values[..n], w, adjustment);
      var step := Step(prior.0, times[n], values[n], w, adjustment);
      TimeSetConcat(prior.1, step.1);
      StepTimes(prior.0, times[n], values[n], w, adjustment);
      TimesSnoc(times, n);
    }
  }

  /** One iteration writes its breakpoint's time, and otherwise only the window's begin and end. */
  lemma StepTimes(p: Phase, t: int, v: real, w: Window, adjustment: real)
    ensures t in TimeSet(Step(p, t, v, w, adjustment).1)
    ensures TimeSet(Step(p, t, v, w, adjustment).1) <= {t, w.begin, w.end}
  {
    var writes := Step(p, t, v, w, adjustment).1;
    assert writes[|writes| - 1].time == t;
    forall x | x in TimeSet(writes) ensures x in {t, w.begin, w.end} {
      var b :| b in writes && b.time == x;
      var k :| 0 <= k < |writes| && writes[k] == b;
      if k < |writes| - 1 {}
    }
  }

  lemma TimesSnoc(times: seq<int>, n: nat)
    requires n + 1 == |times|
    ensures (set t | t in times) == (set t | t in times[..n]) + {times[n]}
  {
    assert times == times[..n] + [times[n]];
  }

  /**
   * The day `updateDaySchedule` leaves behind, starting from the cleared day:
   * it holds a breakpoint at every original time, and at no time other than
   * those and the window's begin and end.
   */
  lemma SplicedDayTimes(times: seq<int>, values: seq<real>, w: Window, adjustment: real)
    requires |times| == |values|
    ensures (set t | t in times) <= TimeSet(Apply([], Run(times, values, w, adjustment).1))
    ensures TimeSet(Apply([], Run(times, values, w, adjustment).1)) <= (set t | t in times) + {w.begin, w.end}
  {
    RunTimes(times, values, w, adjustment);
    ApplyTimeSet([], Run(times, values, w, adjustment).1);
    assert TimeSet([]) == {};
  }

  lemma PhaseAtNext(times: seq<int>, values: seq<real>, w: Window, adjustment: real, i: nat)
    requires |times| == |values| && i < |times|
    ensures PhaseAt(times, values, w, adjustment, i + 1)
         == Step(PhaseAt(times, values, w, adjustment, i), times[i], values[i], w, adjustment).0
    ensures Run(times[..i + 1], values[..i + 1], w, adjustment).1
         == Run(times[..i], values[..i], w, adjustment).1
          + Step(PhaseAt(times, values, w, adjustment, i), times[i], values[i], w, adjustment).1
  {
    assert times[..i + 1][..i] == times[..i];
    assert values[..i + 1][..i] == values[..i];
  }

  /** The indicator never moves backwards over the pass. */
  lemma {:induction false} PhaseMonotone(times: seq<int>, values: seq<real>, w: Window, adjustment: real, i: nat, j: nat)
    requires |times| == |values| && i <= j <= |times|
    ensures Rank(PhaseAt(times, values, w, adjustment, i)) <= Rank(PhaseAt(times, values, w, adjustment, j))
    decreases j - i
  {
    if i < j {
      PhaseMonotone(times, values, w, adjustment, i, j - 1);
      PhaseAtNext(times, values, w, adjustment, j - 1);
    }
  }

  /**
   * Once the indicator is 2, every remaining breakpoint is written back with
   * its original value, and the indicator stays 2.
   */
  lemma {:induction false} DoneCopiesRest(times: seq<int>, values: seq<real>, w: Window, adjustment: real, i: nat)
    requires |times| == |values| && i <= |times|
    requires PhaseAt(times, values, w, adjustment, i) == Done
    ensures Run(times, values, w, adjustment).0 == Done
    ensures Run(times, values, w, adjustment).1
         == Run(times[..i], values[..i], w, adjustment).1 + Copies(times[i..], values[i..])
    decreases |times| - i
  {
    if i == |times| {
      assert times[..i] == times && values[..i] == values;
      assert Copies(times[i..], values[i..]) == [];
    } else {
      var n := |times| - 1;
      assert times[..n][..i] == times[..i] && values[..n][..i] == values[..i];
      assert PhaseAt(times[..n], values[..n], w, adjustment, i) == Done;
      DoneCopiesRest(times[..n], values[..n], w, adjustment, i);
      CopiesSnoc(times, values, i);
    }
  }

  lemma CopiesSnoc(times: seq<int>, values: seq<real>, i: nat)
    requires |times| == |values| && i < |times|
    ensures Copies(times[i..], values[i..])
         == Copies(times[..|times| - 1][i..], values[..|times| - 1][i..]) + [Breakpoint(times[|times| - 1], values[|times| - 1])]
  {
    var n := |times| - 1;
    assert times[i..] == times[..n][i..] + [times[n]];
    assert values[i..] == values[..n][i..] + [values[n]];
  }

  /**
   * While no breakpoint has been strictly inside the window or past its end,
   * the indicator stays 0 and every breakpoint passes through unchanged; this
   * includes a breakpoint at or before the window's begin and one exactly at
   * its end.
   */
  lemma {:induction false} PassThroughBeforeWindow(times: seq<int>, values: seq<real>, w: Window, adjustment: real, i: nat)
    requires |times| == |values| && i <= |times|
    requires forall j :: 0 <= j < i ==> !LeavesBefore(times[j], w)
    ensures PhaseAt(times, values, w, adjustment, i) == Before
    ensures Run(times[..i], values[..i], w, adjustment).1 == Copies(times[..i], values[..i])
  {
    if i > 0 {
      var j := i - 1;
      PassThroughBeforeWindow(times, values, w, adjustment, j);
      PhaseAtNext(times, values, w, adjustment, j);
      assert Step(Before, times[j], values[j], w, adjustment) == (Before, [Breakpoint(times[j], values[j])]);
      CopiesPrefixSnoc(times, values, j);
    }
  }

  lemma CopiesPrefixSnoc(times: seq<int>, values: seq<real>, j: nat)
    requires |times| == |values| && j < |times|
    ensures Copies(times[..j + 1], values[..j + 1]) == Copies(times[..j], values[..j]) + [Breakpoint(times[j], values[j])]
  {
  }

  /** While the indicator is still 0, no breakpoint so far was strictly inside the window or past its end. */
  lemma {:induction false} StillBeforeWindow(times: seq<int>, values: seq<real>, w: Window, adjustment: real, i: nat)
    requires |times| == |values| && i <= |times|
    requires PhaseAt(times, values, w, adjustment, i) == Before
    ensures forall j :: 0 <= j < i ==> !LeavesBefore(times[j], w)
  {
    if i > 0 {
      PhaseMonotone(times, values, w, adjustment, i - 1, i);
      PhaseAtNext(times, values, w, adjustment, i - 1);
      StillBeforeWindow(times, values, w, adjustment, i - 1);
    }
  }

  /** The indicator leaves 0 at breakpoint `i`. */
  ghost predicate EntersAt(times: seq<int>, values: seq<real>, w: Window, adjustment: real, i: nat)
    requires |times| == |values| && i < |times|
  {
    PhaseAt(times, values, w, adjustment, i) == Before && PhaseAt(times, values, w, adjustment, i + 1) != Before
  }

  /**
   * The indicator leaves 0 exactly at the first breakpoint strictly inside
   * the window or past its end; so it leaves 0 at most once, and the window's
   * begin is spliced in at most once.
   */
  lemma EntersAtFirstLeavingTime(times: seq<int>, values: seq<real>, w: Window, adjustment: real, i: nat)
    requires |times| == |values| && i < |times|
    ensures EntersAt(times, values, w, adjustment, i)
        <==> LeavesBefore(times[i], w) && forall j :: 0 <= j < i ==> !LeavesBefore(times[j], w)
  {
    PhaseAtNext(times, values, w, adjustment, i);
    if PhaseAt(times, values, w, adjustment, i) == Before {
      StillBeforeWindow(times, values, w, adjustment, i);
    } else if forall j :: 0 <= j < i ==> !LeavesBefore(times[j], w) {
      PassThroughBeforeWindow(times, values, w, adjustment, i);
    }
  }

  /**
   * Where a write comes from: an original breakpoint written back as it was;
   * the window's begin, carrying the original value of the breakpoint at
   * which the indicator leaves 0; the first breakpoint strictly inside the
   * window, shifted; or the window's end, carrying the shifted value of the
   * breakpoint at which the indicator reaches 2.
   */
  ghost predicate OriginalOrSpliced(times: seq<int>, values: seq<real>, w: Window, adjustment: real, b: Breakpoint)
    requires |times| == |values|
  {
    exists i :: 0 <= i < |times| && (
      || b == Breakpoint(times[i], values[i])
      || (EntersAt(times, values, w, adjustment, i) && b == Breakpoint(w.begin, values[i]))
      || (EntersAt(times, values, w, adjustment, i) && w.begin < times[i] < w.end
          && b == Breakpoint(times[i], Shifted(values[i], adjustment)))
      || (PhaseAt(times, values, w, adjustment, i) != Done && PhaseAt(times, values, w, adjustment, i + 1) == Done
          && b == Breakpoint(w.end, Shifted(values[i], adjustment))))
  }

  /**
   * Every write carries an original value, except the shifted value at the
   * first breakpoint strictly inside the window and the shifted value at the
   * window's end.
   */
  lemma {:induction false} WritesAreOriginalOrSpliced(times: seq<int>, values: seq<real>, w: Window, adjustment: real, n: nat)
    requires |times| == |values| && n <= |times|
    ensures forall b :: b in Run(times[..n], values[..n], w, adjustment).1 ==> OriginalOrSpliced(times, values, w, adjustment, b)
  {
    if n > 0 {
      var i := n - 1;
      WritesAreOriginalOrSpliced(times, values, w, adjustment, i);
      PhaseAtNext(times, values, w, adjustment, i);
      var p := PhaseAt(times, values, w, adjustment, i);
      var step := Step(p, times[i], values[i], w, adjustment);
      forall b | b in step.1 ensures OriginalOrSpliced(times, values, w, adjustment, b) {
        var k :| 0 <= k < |step.1| && step.1[k] == b;
        if k == |step.1| - 1 {
          if p == Before && step.0 == Inside {
            assert EntersAt(times, values, w, adjustment, i);
          }
        } else if k == 0 && p == Before && step.0 != Before && b == Breakpoint(w.begin, values[i]) {
          assert EntersAt(times, values, w, adjustment, i);
        }
      }
    }
  }

  /**
   * The day `updateDaySchedule` leaves behind, starting from the cleared day:
   * each of its breakpoints is an original one, or one of the spliced
   * breakpoints `OriginalOrSpliced` lists.
   */
  lemma SplicedDayOriginalOrSpliced(times: seq<int>, values: seq<real>, w: Window, adjustment: real)
    requires |times| == |values|
    ensures forall b :: b in Apply([], Run(times, values, w, adjustment).1) ==> OriginalOrSpliced(times, values, w, adjustment, b)
  {
    ApplyMembers([], Run(times, values, w, adjustment).1);
    WritesAreOriginalOrSpliced(times, values, w, adjustment, |times|);
    assert times[..|times|] == times && values[..|values|] == values;
  }

  /** The times of a day, strictly increasing, as `ScheduleDay.times` returns them. */
  ghost predicate Increasing(times: seq<int>) {
    forall i, j :: 0 <= i < j < |times| ==> times[i] < times[j]
  }

  /** The indicator reaches 2 at breakpoint `i`. */
  ghost predicate CompletesAt(times: seq<int>, values: seq<real>, w: Window, adjustment: real, i: nat)
    requires |times| == |values| && i < |times|
  {
    PhaseAt(times, values, w, adjustment, i) != Done && PhaseAt(times, values, w, adjustment, i + 1) == Done
  }

  /** The day after the writes for the first `n` breakpoints, starting from the cleared day. */
  ghost function DayAfter(times: seq<int>, values: seq<real>, w: Window, adjustment: real, n: nat): (r: seq<Breakpoint>)
    requires |times| == |values| && n <= |times|
    ensures Sorted(r)
  {
    Apply([], Run(times[..n], values[..n], w, adjustment).1)
  }

  /**
   * The writes of one iteration are at its breakpoint's time, at the window's
   * begin only when the indicator leaves 0, and at the window's end only when
   * it reaches 2; with a non-empty window they are at different times.
   */
  lemma StepWriteTimes(p: Phase, t: int, v: real, w: Window, adjustment: real)
    requires w.begin < w.end
    ensures var r := Step(p, t, v, w, adjustment);
            forall c :: c in r.1 ==>
              || c.time == t
              || (c.time == w.begin && p == Before && r.0 != Before)
              || (c.time == w.end && p != Done && r.0 == Done)
    ensures var r := Step(p, t, v, w, adjustment);
            forall j, k :: 0 <= j < k < |r.1| ==> r.1[j].time != r.1[k].time
  {
  }

  /** The day after one more breakpoint is the day before it, with that iteration's writes made. */
  lemma DayAfterNext(times: seq<int>, values: seq<real>, w: Window, adjustment: real, n: nat)
    requires |times| == |values| && n < |times|
    ensures DayAfter(times, values, w, adjustment, n + 1)
         == Apply(DayAfter(times, values, w, adjustment, n),
                  Step(PhaseAt(times, values, w, adjustment, n), times[n], values[n], w, adjustment).1)
  {
    PhaseAtNext(times, values, w, adjustment, n);
    ApplyAppend([], Run(times[..n], values[..n], w, adjustment).1,
                Step(PhaseAt(times, values, w, adjustment, n), times[n], values[n], w, adjustment).1);
  }

  /**
   * What the day holds on account of breakpoint `i` once the first `n`
   * breakpoints are rewritten: its own time keeps its original value, shifted
   * only if it is where the indicator leaves 0 strictly inside the window; the
   * window's begin carries the original value of the breakpoint where the
   * indicator leaves 0; the window's end carries the shifted value of the
   * breakpoint where it reaches 2; and a breakpoint exactly at the begin or
   * the end keeps its value while no splice has overwritten that time.
   */
  ghost predicate Settled(times: seq<int>, values: seq<real>, w: Window, adjustment: real, n: nat, i: nat,
                          day: seq<Breakpoint>)
    requires |times| == |values| && i < n <= |times|
  {
    && (times[i] != w.begin && times[i] != w.end ==>
          Breakpoint(times[i], if EntersAt(times, values, w, adjustment, i) && w.begin < times[i] < w.end
                               then Shifted(values[i], adjustment) else values[i]) in day)
    && (EntersAt(times, values, w, adjustment, i) ==> Breakpoint(w.begin, values[i]) in day)
    && (CompletesAt(times, values, w, adjustment, i) ==> Breakpoint(w.end, Shifted(values[i], adjustment)) in day)
    && (times[i] == w.begin && PhaseAt(times, values, w, adjustment, n) == Before ==>
          Breakpoint(w.begin, values[i]) in day)
    && (times[i] == w.end && PhaseAt(times, values, w, adjustment, n) != Done ==>
          Breakpoint(w.end, values[i]) in day)
  }

  /** Breakpoint `n`'s own iteration settles it. */
  lemma SettledByOwnStep(times: seq<int>, values: seq<real>, w: Window, adjustment: real, n: nat)
    requires |times| == |values| && n < |times| && w.begin < w.end
    ensures Settled(times, values, w, adjustment, n + 1, n, DayAfter(times, values, w, adjustment, n + 1))
  {
    var p := PhaseAt(times, values, w, adjustment, n);
    var step := Step(p, times[n], values[n], w, adjustment);
    PhaseAtNext(times, values, w, adjustment, n);
    StepFacts(p, times[n], values[n], w, adjustment);
    StepWriteTimes(p, times[n], values[n], w, adjustment);
    DayAfterNext(times, values, w, adjustment, n);
    ApplyDistinct(DayAfter(times, values, w, adjustment, n), step.1);
    assert step.1[|step.1| - 1] in step.1;
  }

  /**
   * Iteration `n` keeps a breakpoint at a time other than its own, unless it
   * is the window's begin and the indicator leaves 0 there, or the window's
   * end and the indicator reaches 2 there.
   */
  lemma KeptByStep(times: seq<int>, values: seq<real>, w: Window, adjustment: real, n: nat, b: Breakpoint)
    requires |times| == |values| && n < |times| && w.begin < w.end
    requires b in DayAfter(times, values, w, adjustment, n) && b.time != times[n]
    requires b.time == w.begin ==> !EntersAt(times, values, w, adjustment, n)
    requires b.time == w.end ==> !CompletesAt(times, values, w, adjustment, n)
    ensures b in DayAfter(times, values, w, adjustment, n + 1)
  {
    var p := PhaseAt(times, values, w, adjustment, n);
    PhaseAtNext(times, values, w, adjustment, n);
    StepWriteTimes(p, times[n], values[n], w, adjustment);
    DayAfterNext(times, values, w, adjustment, n);
    ApplyKeeps(DayAfter(times, values, w, adjustment, n), Step(p, times[n], values[n], w, adjustment).1, b);
  }

  /** Later iterations leave what breakpoint `i` settled alone. */
  lemma SettledStays(times: seq<int>, values: seq<real>, w: Window, adjustment: real, n: nat, i: nat)
    requires |times| == |values| && i < n < |times| && w.begin < w.end && Increasing(times)
    requires Settled(times, values, w, adjustment, n, i, DayAfter(times, values, w, adjustment, n))
    ensures Settled(times, values, w, adjustment, n + 1, i, DayAfter(times, values, w, adjustment, n + 1))
  {
    assert times[i] < times[n];
    if EntersAt(times, values, w, adjustment, i) {
      EntersAtFirstLeavingTime(times, values, w, adjustment, i);
      PhaseMonotone(times, values, w, adjustment, i + 1, n);
      KeptByStep(times, values, w, adjustment, n, Breakpoint(w.begin, values[i]));
    } else if times[i] == w.begin && PhaseAt(times, values, w, adjustment, n + 1) == Before {
      PhaseMonotone(times, values, w, adjustment, n, n + 1);
      KeptByStep(times, values, w, adjustment, n, Breakpoint(w.begin, values[i]));
    }
    if CompletesAt(times, values, w, adjustment, i) {
      PhaseAtNext(times, values, w, adjustment, i);
      PhaseMonotone(times, values, w, adjustment, i + 1, n);
      KeptByStep(times, values, w, adjustment, n, Breakpoint(w.end, Shifted(values[i], adjustment)));
    } else if times[i] == w.end && PhaseAt(times, values, w, adjustment, n + 1) != Done {
      PhaseMonotone(times, values, w, adjustment, n, n + 1);
      KeptByStep(times, values, w, adjustment, n, Breakpoint(w.end, values[i]));
    }
    if times[i] != w.begin && times[i] != w.end {
      KeptByStep(times, values, w, adjustment, n,
                 Breakpoint(times[i], if EntersAt(times, values, w, adjustment, i) && w.begin < times[i] < w.end
                                      then Shifted(values[i], adjustment) else values[i]));
    }
  }

  lemma {:induction false} AllSettled(times: seq<int>, values: seq<real>, w: Window, adjustment: real, n: nat)
    requires |times| == |values| && n <= |times| && w.begin < w.end && Increasing(times)
    ensures forall i :: 0 <= i < n ==> Settled(times, values, w, adjustment, n, i, DayAfter(times, values, w, adjustment, n))
    decreases n
  {
    if n > 0 {
      var m := n - 1;
      AllSettled(times, values, w, adjustment, m);
      forall i | 0 <= i < n
        ensures Settled(times, values, w, adjustment, n, i, DayAfter(times, values, w, adjustment, n))
      {
        if i < m {
          SettledStays(times, values, w, adjustment, m, i);
        } else {
          SettledByOwnStep(times, values, w, adjustment, m);
        }
      }
    }
  }

  /**
   * The value at each time of the day `updateDaySchedule` leaves behind, for
   * a day whose times increase and a window that begins before it ends. An
   * original time other than the window's begin and end keeps its value,
   * except the first time strictly inside the window, which is shifted. The
   * window's begin carries the original value of the first breakpoint strictly
   * inside the window or past its end, overwriting a breakpoint that was
   * exactly at the begin. The window's end carries the shifted value of the
   * first breakpoint past the end, overwriting a breakpoint that was exactly
   * at the end. A breakpoint at the begin or the end that nothing overwrites
   * keeps its value. The day holds one value per time, so these fix it.
   */
  lemma SplicedDayValues(times: seq<int>, values: seq<real>, w: Window, adjustment: real)
    requires |times| == |values| && Increasing(times) && w.begin < w.end
    ensures var day := Apply([], Run(times, values, w, adjustment).1);
            forall i :: 0 <= i < |times| && times[i] != w.begin && times[i] != w.end ==>
              Breakpoint(times[i], if EntersAt(times, values, w, adjustment, i) && w.begin < times[i] < w.end
                                   then Shifted(values[i], adjustment) else values[i]) in day
    ensures var day := Apply([], Run(times, values, w, adjustment).1);
            forall i :: 0 <= i < |times| && EntersAt(times, values, w, adjustment, i) ==>
              Breakpoint(w.begin, values[i]) in day
    ensures var day := Apply([], Run(times, values, w, adjustment).1);
            forall i :: 0 <= i < |times| && CompletesAt(times, values, w, adjustment, i) ==>
              Breakpoint(w.end, Shifted(values[i], adjustment)) in day
    ensures var day := Apply([], Run(times, values, w, adjustment).1);
            forall i :: 0 <= i < |times| && times[i] == w.begin && Run(times, values, w, adjustment).0 == Before ==>
              Breakpoint(w.begin, values[i]) in day
    ensures var day := Apply([], Run(times, values, w, adjustment).1);
            forall i :: 0 <= i < |times| && times[i] == w.end && Run(times, values, w, adjustment).0 != Done ==>
              Breakpoint(w.end, values[i]) in day
  {
    var n := |times|;
    AllSettled(times, values, w, adjustment, n);
    assert times[..n] == times && values[..n] == values;
    var day := Apply([], Run(times, values, w, adjustment).1);
    forall i | 0 <= i < n
      ensures times[i] != w.begin && times[i] != w.end ==>
                Breakpoint(times[i], if EntersAt(times, values, w, adjustment, i) && w.begin < times[i] < w.end
                                     then Shifted(values[i], adjustment) else values[i]) in day
      ensures EntersAt(times, values, w, adjustment, i) ==> Breakpoint(w.begin, values[i]) in day
      ensures CompletesAt(times, values, w, adjustment, i) ==> Breakpoint(w.end, Shifted(values[i], adjustment)) in day
      ensures times[i] == w.begin && Run(times, values, w, adjustment).0 == Before ==> Breakpoint(w.begin, values[i]) in day
      ensures times[i] == w.end && Run(times, values, w, adjustment).0 != Done ==> Breakpoint(w.end, values[i]) in day
    {
      assert Settled(times, values, w, adjustment, n, i, DayAfter(times, values, w, adjustment, n));
    }
  }

  /**
   * A day 15 until 8:00, 25 until 17:00, 18 until 21:00 and 15 until 24:00,
   * with the window 17:00-21:00. No breakpoint lies strictly inside the
   * window, so the indicator leaves 0 at 24:00: the breakpoint at 17:00 is
   * overwritten with 15 (the time before the window loses its 25) and the one
   * at 21:00 with 15 shifted, so the window takes the shifted value of the
   * evening instead of 18 shifted.
   */
  lemma BreakpointsAtWindowEdges(adjustment: real)
    ensures Apply([], Run([28800, 61200, 75600, 86400], [15.0, 25.0, 18.0, 15.0], Window(61200, 75600), adjustment).1)
         == [Breakpoint(28800, 15.0), Breakpoint(61200, 15.0), Breakpoint(75600, Shifted(15.0, adjustment)),
             Breakpoint(86400, 15.0)]
  {
    var copies := [Breakpoint(28800, 15.0), Breakpoint(61200, 25.0), Breakpoint(75600, 18.0)];
    var last := [Breakpoint(61200, 15.0), Breakpoint(75600, Shifted(15.0, adjustment)), Breakpoint(86400, 15.0)];
    WindowEdgesWrites(adjustment);
    ApplyAppend([], copies, last);
    WindowEdgesCopies(copies);
    WindowEdgesOverwrites(copies, last);
  }

  /** The example's writes: three copies, then the writes where the indicator leaves 0 for 2. */
  lemma WindowEdgesWrites(adjustment: real)
    ensures Run([28800, 61200, 75600, 86400], [15.0, 25.0, 18.0, 15.0], Window(61200, 75600), adjustment).1
         == [Breakpoint(28800, 15.0), Breakpoint(61200, 25.0), Breakpoint(75600, 18.0)]
          + [Breakpoint(61200, 15.0), Breakpoint(75600, Shifted(15.0, adjustment)), Breakpoint(86400, 15.0)]
  {
    var times, values, w := [28800, 61200, 75600, 86400], [15.0, 25.0, 18.0, 15.0], Window(61200, 75600);
    var a, b, c := Breakpoint(28800, 15.0), Breakpoint(61200, 25.0), Breakpoint(75600, 18.0);
    assert Step(Before, 28800, 15.0, w, adjustment) == (Before, [a]);
    assert Step(Before, 61200, 25.0, w, adjustment) == (Before, [b]);
    assert Step(Before, 75600, 18.0, w, adjustment) == (Before, [c]);
    var last := [Breakpoint(61200, 15.0), Breakpoint(75600, Shifted(15.0, adjustment)), Breakpoint(86400, 15.0)];
    assert Step(Before, 86400, 15.0, w, adjustment) == (Done, last);
    assert [28800][..0] == [] && [15.0][..0] == [];
    assert Run([], [], w, adjustment) == (Before, []);
    assert Run([28800], [15.0], w, adjustment).0 == Before && Run([28800], [15.0], w, adjustment).1 == [a];
    assert [28800, 61200][..1] == [28800] && [15.0, 25.0][..1] == [15.0];
    var run2 := Run([28800, 61200], [15.0, 25.0], w, adjustment);
    assert run2.0 == Before && run2.1 == [a, b];
    assert times[..3][..2] == [28800, 61200] && values[..3][..2] == [15.0, 25.0];
    var run3 := Run(times[..3], values[..3], w, adjustment);
    assert run3.0 == Before && run3.1 == [a, b, c];
  }

  /** Copying three increasing breakpoints into the cleared day gives them back. */
  lemma WindowEdgesCopies(copies: seq<Breakpoint>)
    requires copies == [Breakpoint(28800, 15.0), Breakpoint(61200, 25.0), Breakpoint(75600, 18.0)]
    ensures Apply([], copies) == copies
  {
    var a, b, c := copies[0], copies[1], copies[2];
    assert [] + [a, b, c] == [a, b, c];
    ApplyTriple([], [], a, b, c);
    assert Insert([], a.time, a.value) == [a];
    assert [a][1..] == [];
    assert Insert([a], b.time, b.value) == [a, b];
    assert [a, b][1..] == [b] && [b][1..] == [];
    assert Insert([b], c.time, c.value) == [b, c];
    assert Insert([a, b], c.time, c.value) == [a, b, c];
  }

  /** The example's last three writes overwrite 17:00 and 21:00 and add 24:00. */
  lemma WindowEdgesOverwrites(copies: seq<Breakpoint>, last: seq<Breakpoint>)
    requires copies == [Breakpoint(28800, 15.0), Breakpoint(61200, 25.0), Breakpoint(75600, 18.0)]
    requires |last| == 3 && last[0] == Breakpoint(61200, 15.0) && last[1].time == 75600 && last[2] == Breakpoint(86400, 15.0)
    ensures Apply(copies, last) == [copies[0], last[0], last[1], last[2]]
  {
    var a, b, c := copies[0], copies[1], copies[2];
    var b', c', d := last[0], last[1], last[2];
    assert last == [] + [b', c', d];
    ApplyTriple(copies, [], b', c', d);
    assert Apply(copies, []) == [a, b, c];
    InsertOverwrites([a, b, c], 1, b'.value);
    assert [a, b, c][..1] == [a] && [a, b, c][2..] == [c];
    assert [a] + [b'] + [c] == [a, b', c];
    InsertOverwrites([a, b', c], 2, c'.value);
    assert [a, b', c][..2] == [a, b'] && [a, b', c][3..] == [];
    assert [a, b'] + [c'] + [] == [a, b', c'];
    InsertAfterLast([a, b', c'], d.time, d.value);
    assert [a, b', c'] + [d] == [a, b', c', d];
  }

}
