/**
 * `updateDaySchedule`: one pass over a day's breakpoints that splices a
 * shifted value into the peak window. The pass keeps a three-state indicator
 * (`count` in the measure: 0 window not reached, 1 inside, 2 done) and
 * re-emits every breakpoint through `addValue`, adding writes at the window's
 * begin and end.
 *
 * The model follows the code, not the intent its comments describe: only the
 * first breakpoint strictly inside the window and the segment that ends at the
 * window's end get shifted values; later breakpoints inside the window are
 * written back unshifted.
 */
module Splice {
  import opened Temperature
  import opened DaySchedule

  /** The peak time window, in seconds since midnight. */
  datatype Window = Window(begin: int, end: int)

  /** The measure's `count` indicator. */
  datatype Phase = Before | Inside | Done

  function Rank(p: Phase): nat {
    match p
    case Before => 0
    case Inside => 1
    case Done => 2
  }

  /**
   * One iteration of the loop: the `addValue` calls it makes, in order, and
   * the new indicator. `t`, `v` are the original breakpoint's time and value.
   */
  function Step(p: Phase, t: int, v: real, w: Window, adjustment: real): (r: (Phase, seq<Breakpoint>))
  {
    if w.begin < t < w.end && p == Before then
      (Inside, [Breakpoint(w.begin, v), Breakpoint(t, Shifted(v, adjustment))])
    else if t > w.end && p == Before then
      (Done, [Breakpoint(w.begin, v), Breakpoint(w.end, Shifted(v, adjustment)), Breakpoint(t, v)])
    else if w.begin < t <= w.end && p == Inside then
      (Inside, [Breakpoint(t, v)])
    else if t > w.end && p == Inside then
      (Done, [Breakpoint(w.end, Shifted(v, adjustment)), Breakpoint(t, v)])
    else
      // "override": the value goes to Fahrenheit and back unchanged
      (p, [Breakpoint(t, Unshifted(v))])
  }

  /**
   * What one iteration does, stated on its own: how the indicator moves and
   * which writes it makes.
   */
  lemma StepFacts(p: Phase, t: int, v: real, w: Window, adjustment: real)
    // the indicator only moves forward: 0 -> 1 on the first time strictly
    // inside the window, 0 -> 2 and 1 -> 2 on a time past its end
    ensures var r := Step(p, t, v, w, adjustment);
            && Rank(p) <= Rank(r.0)
            && r.0 == if p != Done && t > w.end then Done
                      else if p == Before && w.begin < t < w.end then Inside
                      else p
    // every iteration writes the breakpoint's own time, last; only the entry
    // into the window writes a shifted value there
    ensures var r := Step(p, t, v, w, adjustment);
            && 1 <= |r.1| <= 3
            && r.1[|r.1| - 1] == Breakpoint(t, if p == Before && r.0 == Inside then Shifted(v, adjustment) else v)
    // the writes before it: the window's begin, carrying the original value,
    // when the indicator leaves 0; the window's end, carrying the shifted
    // value, when it reaches 2
    ensures var r := Step(p, t, v, w, adjustment);
            forall k :: 0 <= k < |r.1| - 1 ==>
              (k == 0 && p == Before && r.0 != Before && r.1[k] == Breakpoint(w.begin, v))
              || (p != Done && r.0 == Done && r.1[k] == Breakpoint(w.end, Shifted(v, adjustment)))
    ensures var r := Step(p, t, v, w, adjustment);
            && (p == Before && r.0 != Before ==> |r.1| >= 2 && r.1[0] == Breakpoint(w.begin, v))
            && (p != Done && r.0 == Done ==> Breakpoint(w.end, Shifted(v, adjustment)) in r.1)
  {
  }

  /** The indicator and every `addValue` call after the loop has seen the given breakpoints. */
  function Run(times: seq<int>, values: seq<real>, w: Window, adjustment: real): (Phase, seq<Breakpoint>)
    requires |times| == |values|
    decreases |times|
  {
    if times == [] then (Before, [])
    else
      var n := |times| - 1;
      var prior := Run(times[..n], values[..n], w, adjustment);
      var step := Step(prior.0, times[n], values[n], w, adjustment);
      (step.0, prior.1 + step.1)
  }

  /**
   * The indicator and the day after the loop has rewritten the given
   * breakpoints into a cleared day, breakpoint by breakpoint.
   */
  function Spliced(day: seq<Breakpoint>, w: Window, adjustment: real): (r: (Phase, seq<Breakpoint>))
    ensures Sorted(r.1)
    decreases |day|
  {
    if day == [] then (Before, [])
    else
      var n := |day| - 1;
      var prior := Spliced(day[..n], w, adjustment);
      var step := Step(prior.0, day[n].time, day[n].value, w, adjustment);
      (step.0, Apply(prior.1, step.1))
  }

  /**
   * Rewriting a day breakpoint by breakpoint is making all of the loop's
   * writes, in order, into the cleared day.
   */
  lemma {:induction false} SplicedIsRun(day: seq<Breakpoint>, w: Window, adjustment: real)
    ensures Spliced(day, w, adjustment).0 == Run(Times(day), Values(day), w, adjustment).0
    ensures Spliced(day, w, adjustment).1 == Apply([], Run(Times(day), Values(day), w, adjustment).1)
    decreases |day|
  {
    if day != [] {
      var n := |day| - 1;
      SplicedIsRun(day[..n], w, adjustment);
      assert Times(day)[..n] == Times(day[..n]);
      assert Values(day)[..n] == Values(day[..n]);
      var prior := Run(Times(day[..n]), Values(day[..n]), w, adjustment);
      var step := Step(prior.0, day[n].time, day[n].value, w, adjustment);
      assert Run(Times(day), Values(day), w, adjustment) == (step.0, prior.1 + step.1);
      ApplyAppend([], prior.1, step.1);
    }
  }

  /** The indicator after the first `i` breakpoints. */
  function PhaseAt(times: seq<int>, values: seq<real>, w: Window, adjustment: real, i: nat): Phase
    requires |times| == |values| && i <= |times|
  {
    Run(times[..i], values[..i], w, adjustment).0
  }

  /** Breakpoints written back as they were. */
  function Copies(times: seq<int>, values: seq<real>): (r: seq<Breakpoint>)
    requires |times| == |values|
    ensures |r| == |times| && forall k :: 0 <= k < |r| ==> r[k] == Breakpoint(times[k], values[k])
  {
    seq(|times|, k requires 0 <= k < |times| => Breakpoint(times[k], values[k]))
  }

  /** A time that makes the indicator leave 0: strictly inside the window, or past its end. */
  predicate LeavesBefore(t: int, w: Window) {
    w.begin < t < w.end || t > w.end
  }

  /**
   * `updateDaySchedule(sch_day, vec_time, vec_value, time_begin, time_end, adjustment)`.
   * The caller has cleared `day`; the day ends up as the result of the writes
   * that `Run` lists, made in order.
   */
  method UpdateDaySchedule(day: ScheduleDay, times: seq<int>, values: seq<real>, w: Window, adjustment: real)
    requires day.Valid() && |times| == |values|
    modifies day
    ensures day.Valid()
    ensures day.points == Apply(old(day.points), Run(times, values, w, adjustment).1)
  {
    var count := Before;
    ghost var writes: seq<Breakpoint> := [];
    ghost var start := day.points;
    for i := 0 to |times|
      invariant day.Valid()
      invariant Run(times[..i], values[..i], w, adjustment) == (count, writes)
      invariant day.points == Apply(start, writes)
    {
      var t, v := times[i], values[i];
      ghost var prior, phase := writes, count;
      if w.begin < t < w.end && count == Before {
        day.AddValue(w.begin, v);
        day.AddValue(t, Shifted(v, adjustment));
        ApplyPair(start, writes, Breakpoint(w.begin, v), Breakpoint(t, Shifted(v, adjustment)));
        writes := writes + [Breakpoint(w.begin, v), Breakpoint(t, Shifted(v, adjustment))];
        count := Inside;
      } else if t > w.end && count == Before {
        day.AddValue(w.begin, v);
        day.AddValue(w.end, Shifted(v, adjustment));
        day.AddValue(t, v);
        ApplyTriple(start, writes, Breakpoint(w.begin, v), Breakpoint(w.end, Shifted(v, adjustment)), Breakpoint(t, v));
        writes := writes + [Breakpoint(w.begin, v), Breakpoint(w.end, Shifted(v, adjustment)), Breakpoint(t, v)];
        count := Done;
      } else if w.begin < t <= w.end && count == Inside {
        day.AddValue(t, v);
        ApplySnoc(start, writes, Breakpoint(t, v));
        writes := writes + [Breakpoint(t, v)];
      } else if t > w.end && count == Inside {
        day.AddValue(w.end, Shifted(v, adjustment));
        day.AddValue(t, v);
        ApplyPair(start, writes, Breakpoint(w.end, Shifted(v, adjustment)), Breakpoint(t, v));
        writes := writes + [Breakpoint(w.end, Shifted(v, adjustment)), Breakpoint(t, v)];
        count := Done;
      } else {
        day.AddValue(t, Unshifted(v));
        ApplySnoc(start, writes, Breakpoint(t, Unshifted(v)));
        writes := writes + [Breakpoint(t, Unshifted(v))];
      }
      assert (count, writes) == (Step(phase, t, v, w, adjustment).0, prior + Step(phase, t, v, w, adjustment).1);
      assert times[..i + 1][..i] == times[..i];
      assert values[..i + 1][..i] == values[..i];
    }
    assert times[..|times|] == times && values[..|values|] == values;
  }
}
