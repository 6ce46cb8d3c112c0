# Peak-hour thermostat setpoint adjustment, modelled in Dafny

This project models the core of the OpenStudio measure
`AdjustThermostatSetpointsByDegreesForPeakHours`. The measure clones every
thermostat setpoint schedule (a `ScheduleRuleset`) of a building model. It then
rewrites each rule of a clone so that, in configured date periods, the
setpoint is shifted by a number of degrees Fahrenheit during a peak time
window. Cooling schedules are shifted up and heating schedules down.

The model covers six parts of the measure:

- **`updateDaySchedule`** (`splice.dfy`, `splice_properties.dfy`). One pass over
  a day's `(time, value)` breakpoints re-emits each one through `addValue`. A
  three-state indicator (`count`) decides which writes also go to the peak
  window's begin and end, and which carry a shifted value. The method is
  proved against `Run`, the list of writes made in order. The lemmas state
  what that list contains and how the indicator moves.
- **The day schedule** (`day_schedule.dfy`). The host's `ScheduleDay` is a
  time-sorted breakpoint sequence. `addValue` is modelled as
  insert-or-overwrite: a new time is inserted in order, and an existing time's
  value is replaced. This is an assumption about OpenStudio, whose code is not
  part of this model.
- **Rules, coverage and the ruleset** (`rules.dfy`). A rule is a value: its
  dates, its Sunday..Saturday flags and its day. `checkDaysCovered` and
  `coverMissingDays` work on a 7-slot array. The ruleset is a class whose rule
  list `setScheduleRuleIndex` reorders in place ("move to index, shift the
  rest").
- **The rule-assembly loops of `run`** (`assembly.dfy`,
  `assembly_properties.dfy`, `measure.dfy`). They cover
  `modify_rule_for_date_period`, `modify_default_day_for_date_period`, the
  per-rule placement at `current_index` and the default-day rules at index 0.
  The rewriting of one schedule is proved to leave exactly `Assembled(...)`,
  which is stated as blocks of clones. When a rule's day is empty, the
  measure raises; the model then describes the exact rule list it leaves
  behind (`CrashState`).
- **The text validators and argument checks** (`validation.dfy`,
  `arguments.dfy`). These are the unanchored `HH:MM:SS` / `MM-DD` patterns,
  the string comparison, the optional periods, the first-failure order of the
  required checks and the adjustment-magnitude checks.
- **The clone-once map** (`clone_map.dfy`). Thermostats that share a schedule
  name share one clone.

The model follows the code where its comments or its evident intent say
otherwise. These behaviours are reproduced as written:

- Only the first breakpoint strictly inside the window, and the segment that
  ends at the window's end, get shifted values. Later breakpoints inside the
  window are written back unshifted.
- The cooling loop gives the period-1 rule clones the date window from
  `start_date1` to `start_date1`. The cooling default-day rule and all
  heating rules get `start_date1`..`end_date1` (`Arguments.Configure`).
- The end dates of periods 3 and 4 are read from the arguments `end_date4`
  and `end_date5`. `end_date3` is never read (`Arguments.ReadPeriodsQuirk`).
- A breakpoint exactly at the window's begin or end is overwritten. The begin
  takes the original value of the first breakpoint strictly inside the window
  or past its end, so the segment that ends at the begin changes value. The
  end takes the shifted value of the first breakpoint past the end. For a day
  15 until 8:00, 25 until 17:00, 18 until 21:00 and 15 until 24:00 with the
  window 17:00-21:00, the result is 15 until 8:00, 15 until 17:00, 15 shifted
  until 21:00 and 15 until 24:00 (`SpliceProperties.SplicedDayValues`,
  `SpliceProperties.BreakpointsAtWindowEdges`).
- Weekday coverage is taken only from the period-1 clones. The default-day
  rule for period 1 does not set `applicable_flag`; only the optional
  periods' default-day rules do.

Temperatures are reals: `Shifted(v, adj) = v + adj * 5/9`, exactly, with no
floating-point rounding.

## Model

Source paths are relative to the repository root.

| member | source | states |
|---|---|---|
| Temperature.Shifted | lib/measures/AdjustThermostatSetpointsByDegreesForPeakHours/measure.rb:961-964 | the shifted value differs from the original by exactly adj·5/9 °C, and moves up for a positive and down for a negative adjustment |
| Temperature.Unshifted | lib/measures/AdjustThermostatSetpointsByDegreesForPeakHours/measure.rb:980-983 | the "override" branch's round trip through Fahrenheit gives back the value unchanged |
| Temperature.ShiftRoundTrip | lib/measures/AdjustThermostatSetpointsByDegreesForPeakHours/measure.rb:961-964 | shifting by an adjustment and then by its negation gives back the original value |
| DaySchedule.Insert | lib/measures/AdjustThermostatSetpointsByDegreesForPeakHours/measure.rb:966-984 | `addValue` as insert-or-overwrite keeps the day time-sorted, and the day's first time is the smaller of the old first time and the written one |
| DaySchedule.InsertMembers | lib/measures/AdjustThermostatSetpointsByDegreesForPeakHours/measure.rb:966-984 | after `addValue(t, v)` the day holds (t, v), every breakpoint it held at another time, and nothing else |
| DaySchedule.Apply | lib/measures/AdjustThermostatSetpointsByDegreesForPeakHours/measure.rb:966-984 | a series of `addValue` calls made in order keeps the day sorted |
| DaySchedule.ApplyAppend | lib/measures/AdjustThermostatSetpointsByDegreesForPeakHours/measure.rb:960-986 | making one series of writes and then another is making the joined series |
| DaySchedule.ApplyTimeSet | lib/measures/AdjustThermostatSetpointsByDegreesForPeakHours/measure.rb:960-986 | the times present after a series of writes are the times present before plus the times written; no time is ever removed |
| DaySchedule.InsertTimeSet | lib/measures/AdjustThermostatSetpointsByDegreesForPeakHours/measure.rb:966-984 | one `addValue(t, v)` adds the time t and keeps every time the day had |
| DaySchedule.InsertOverwrites | lib/measures/AdjustThermostatSetpointsByDegreesForPeakHours/measure.rb:966-984 | `addValue` at a time the day already has replaces that breakpoint's value in place and changes nothing else |
| DaySchedule.InsertAfterLast | lib/measures/AdjustThermostatSetpointsByDegreesForPeakHours/measure.rb:966-984 | `addValue` at a time after every breakpoint appends it |
| DaySchedule.ApplyKeeps | lib/measures/AdjustThermostatSetpointsByDegreesForPeakHours/measure.rb:960-986 | a breakpoint at a time that no later `addValue` writes survives the writes |
| DaySchedule.ApplyDistinct | lib/measures/AdjustThermostatSetpointsByDegreesForPeakHours/measure.rb:960-986 | writes made at pairwise different times all end up in the day |
| DaySchedule.SortedOneValue | lib/measures/AdjustThermostatSetpointsByDegreesForPeakHours/measure.rb:960-986 | a day holds one value per time |
| DaySchedule.ApplyMembers | lib/measures/AdjustThermostatSetpointsByDegreesForPeakHours/measure.rb:960-986 | after a series of writes the day holds only breakpoints it held before or that were written |
| DaySchedule.ScheduleDay.ClearValues | lib/measures/AdjustThermostatSetpointsByDegreesForPeakHours/measure.rb:882 | `clearValues` leaves the day with no breakpoints |
| DaySchedule.ScheduleDay.AddValue | lib/measures/AdjustThermostatSetpointsByDegreesForPeakHours/measure.rb:966-984 | the day's new breakpoints are the old ones with (time, value) inserted or overwritten, still sorted |
| Splice.StepFacts | lib/measures/AdjustThermostatSetpointsByDegreesForPeakHours/measure.rb:965-985 | one iteration: the indicator only moves forward (0→1 on a time strictly inside the window, 0→2 and 1→2 on a time past its end, otherwise unchanged); it writes 1 to 3 breakpoints, the last at the breakpoint's own time and shifted only on entering the window; the earlier writes are the window's begin with the original value (on leaving 0) and the window's end with the shifted value (on reaching 2) |
| Splice.Spliced | lib/measures/AdjustThermostatSetpointsByDegreesForPeakHours/measure.rb:957-988 | rewriting a day breakpoint by breakpoint leaves a time-sorted day |
| Splice.SplicedIsRun | lib/measures/AdjustThermostatSetpointsByDegreesForPeakHours/measure.rb:957-988 | rewriting breakpoint by breakpoint gives the same indicator, and the same day, as making all of the loop's writes in order into the cleared day |
| Splice.UpdateDaySchedule | lib/measures/AdjustThermostatSetpointsByDegreesForPeakHours/measure.rb:957-988 | the loop leaves the day as the result of the writes `Run` lists, made in order, and keeps it sorted |
| SpliceProperties.StepTimes | lib/measures/AdjustThermostatSetpointsByDegreesForPeakHours/measure.rb:965-985 | each branch writes its breakpoint's own time, and otherwise only the window's begin and end |
| SpliceProperties.RunTimes | lib/measures/AdjustThermostatSetpointsByDegreesForPeakHours/measure.rb:960-986 | the pass writes every original time, and no time other than those and the window's begin and end |
| SpliceProperties.SplicedDayTimes | lib/measures/AdjustThermostatSetpointsByDegreesForPeakHours/measure.rb:957-988 | the rewritten day has a breakpoint at every original time, and at no other time except the window's begin and end |
| SpliceProperties.PhaseMonotone | lib/measures/AdjustThermostatSetpointsByDegreesForPeakHours/measure.rb:958-985 | over the pass the indicator never moves backwards |
| SpliceProperties.DoneCopiesRest | lib/measures/AdjustThermostatSetpointsByDegreesForPeakHours/measure.rb:974-985 | once the indicator is 2, it stays 2 and every remaining breakpoint is written with its original value |
| SpliceProperties.PassThroughBeforeWindow | lib/measures/AdjustThermostatSetpointsByDegreesForPeakHours/measure.rb:965-985 | while no breakpoint has been strictly inside the window or past its end (including times at or before the begin and exactly at the end), the indicator stays 0 and every breakpoint passes through unchanged |
| SpliceProperties.StillBeforeWindow | lib/measures/AdjustThermostatSetpointsByDegreesForPeakHours/measure.rb:965-985 | conversely, an indicator still at 0 means no breakpoint so far was strictly inside the window or past its end |
| SpliceProperties.EntersAtFirstLeavingTime | lib/measures/AdjustThermostatSetpointsByDegreesForPeakHours/measure.rb:965-973 | the indicator leaves 0 at breakpoint i if and only if i is the first breakpoint strictly inside the window or past its end, so the window's begin is written on one breakpoint only |
| SpliceProperties.WritesAreOriginalOrSpliced | lib/measures/AdjustThermostatSetpointsByDegreesForPeakHours/measure.rb:965-985 | every write is an original breakpoint, or the window's begin with the original value of the breakpoint that leaves 0, or the first in-window breakpoint shifted, or the window's end with the shifted value of the breakpoint that reaches 2 |
| SpliceProperties.StepWriteTimes | lib/measures/AdjustThermostatSetpointsByDegreesForPeakHours/measure.rb:965-985 | an iteration writes the window's begin only when the indicator leaves 0 and its end only when the indicator reaches 2; with a non-empty window its writes are at different times |
| SpliceProperties.SplicedDayValues | lib/measures/AdjustThermostatSetpointsByDegreesForPeakHours/measure.rb:957-988 | for increasing times and a window that begins before it ends, the value at each time of the rewritten day: an original time other than the begin and end keeps its value, shifted only for the first time strictly inside the window; the begin holds the original value of the breakpoint where the indicator leaves 0; the end holds the shifted value of the breakpoint where it reaches 2; a breakpoint at the begin or end keeps its value when no splice overwrites it |
| SpliceProperties.BreakpointsAtWindowEdges | lib/measures/AdjustThermostatSetpointsByDegreesForPeakHours/measure.rb:957-988 | for the day 15/25/18/15 until 8:00/17:00/21:00/24:00 and the window 17:00-21:00, the result is 15, 15, 15 shifted and 15: the breakpoints at both edges are overwritten |
| SpliceProperties.SplicedDayOriginalOrSpliced | lib/measures/AdjustThermostatSetpointsByDegreesForPeakHours/measure.rb:957-988 | the same holds for every breakpoint of the rewritten day |
| Rules.MoveTo | lib/measures/AdjustThermostatSetpointsByDegreesForPeakHours/measure.rb:704-706 | `setScheduleRuleIndex`: the moved rule is at the target index, and with it taken out the others are in their old order |
| Rules.MoveToSamePlace | lib/measures/AdjustThermostatSetpointsByDegreesForPeakHours/measure.rb:706 | moving a rule to the index it already has changes nothing |
| Rules.MoveLastTo | lib/measures/AdjustThermostatSetpointsByDegreesForPeakHours/measure.rb:677 | moving the newly added clone (the last rule) to an index inserts it there |
| Rules.Coverage | lib/measures/AdjustThermostatSetpointsByDegreesForPeakHours/measure.rb:662-675 | slot d of the 7-slot coverage (0 = Sunday) is true if and only if some of the rules applies on weekday d |
| Rules.CheckDaysCovered | lib/measures/AdjustThermostatSetpointsByDegreesForPeakHours/measure.rb:906-928 | each slot becomes its old value OR the rule's flag for that weekday; no slot is ever cleared |
| Rules.CoverMissingDays | lib/measures/AdjustThermostatSetpointsByDegreesForPeakHours/measure.rb:930-953 | each weekday flag becomes its old value OR "slot not covered"; dates and day are untouched |
| Rules.ScheduleRuleset.AddClone | lib/measures/AdjustThermostatSetpointsByDegreesForPeakHours/measure.rb:871-872 | a cloned rule joins its ruleset at the lowest priority (assumption about the host) |
| Rules.ScheduleRuleset.AddNewRule | lib/measures/AdjustThermostatSetpointsByDegreesForPeakHours/measure.rb:889-890 | a new rule joins the ruleset at index 0 |
| Rules.ScheduleRuleset.SetScheduleRuleIndex | lib/measures/AdjustThermostatSetpointsByDegreesForPeakHours/measure.rb:704-706 | the rule list becomes `MoveTo` of the old list |
| Assembly.SplicedDay | lib/measures/AdjustThermostatSetpointsByDegreesForPeakHours/measure.rb:882-883 | the day a clone ends up with is time-sorted |
| Assembly.PeriodClone | lib/measures/AdjustThermostatSetpointsByDegreesForPeakHours/measure.rb:870-885 | a produced clone has a sorted day |
| Assembly.PeriodCloneDays | lib/measures/AdjustThermostatSetpointsByDegreesForPeakHours/measure.rb:872-875 | a clone applies on exactly the weekdays of the rule it came from |
| Assembly.ModifyRuleForDatePeriod | lib/measures/AdjustThermostatSetpointsByDegreesForPeakHours/measure.rb:870-885 | the clone (with the period's dates) always joins the ruleset last; it is spliced and returned if and only if the rule's day has breakpoints, and nothing is returned otherwise |
| Assembly.DefaultRule | lib/measures/AdjustThermostatSetpointsByDegreesForPeakHours/measure.rb:887-899 | the default-day rule's day is the spliced default day, and is sorted |
| Assembly.ModifyDefaultDayForDatePeriod | lib/measures/AdjustThermostatSetpointsByDegreesForPeakHours/measure.rb:887-902 | the rule list becomes the default-day rule (period dates, exactly the uncovered weekdays, spliced default day) followed by the old list |
| Assembly.PresentMembers | lib/measures/AdjustThermostatSetpointsByDegreesForPeakHours/measure.rb:690 | a period is used if and only if its optional slot is set |
| Assembly.PresentAppend | lib/measures/AdjustThermostatSetpointsByDegreesForPeakHours/measure.rb:685-690 | the used periods keep the slots' order: a set slot appended adds its period at the end, an unset one adds nothing |
| Assembly.Block | lib/measures/AdjustThermostatSetpointsByDegreesForPeakHours/measure.rb:669-710 | each original rule contributes its period-1 clone, its optional clones and itself: two more rules than optional periods |
| Assembly.DefaultRules | lib/measures/AdjustThermostatSetpointsByDegreesForPeakHours/measure.rb:714-729 | one default-day rule per period |
| Assembly.FirstEmptyDay | lib/measures/AdjustThermostatSetpointsByDegreesForPeakHours/measure.rb:673-683 | the position of the first rule whose day has no breakpoints (all before it have some), or the number of rules |
| Assembly.FirstEmptyDayIs | lib/measures/AdjustThermostatSetpointsByDegreesForPeakHours/measure.rb:673-683 | a position with non-empty days before it and an empty day (or the end) at it is the first empty day |
| Assembly.PlaceOptionalClones | lib/measures/AdjustThermostatSetpointsByDegreesForPeakHours/measure.rb:685-703 | the configured optional clones end up one after another at `current_index`, with the rest of the list unchanged around them |
| Assembly.PlaceRule | lib/measures/AdjustThermostatSetpointsByDegreesForPeakHours/measure.rb:669-710 | for one original rule: if its day has breakpoints, the rule at `current_index` is replaced by its block and its weekdays are marked covered; otherwise only the dated copy is appended |
| Assembly.PlaceAfterFirstClone | lib/measures/AdjustThermostatSetpointsByDegreesForPeakHours/measure.rb:685-710 | after the period-1 clone, the optional clones go in and the original rule keeps its place behind them |
| Assembly.AddDefaultRules | lib/measures/AdjustThermostatSetpointsByDegreesForPeakHours/measure.rb:714-729 | the default-day rules for period 1 and each configured optional period are inserted at index 0, the last period's first, all with the same uncovered weekdays; the flag is set if and only if some optional period is configured |
| Assembly.PlacedNext | lib/measures/AdjustThermostatSetpointsByDegreesForPeakHours/measure.rb:669-711 | the placed prefix and the coverage after one more rule are those of one more rule |
| Assembly.CrashedAt | lib/measures/AdjustThermostatSetpointsByDegreesForPeakHours/measure.rb:683 | when the loop stops at a rule with an empty day, the list is the earlier blocks, the rules not yet reached and the dated copy |
| Assembly.PlaceRules | lib/measures/AdjustThermostatSetpointsByDegreesForPeakHours/measure.rb:665-711 | the loop raises if and only if some rule's day is empty, stopping at the first such rule with the crash state; otherwise the list is the rules' blocks in original order, the coverage is exactly that of the original rules, and the flag is set if and only if there was a rule |
| Assembly.AdjustRuleset | lib/measures/AdjustThermostatSetpointsByDegreesForPeakHours/measure.rb:658-737 | rewriting one schedule raises if and only if some rule's day is empty; otherwise the list becomes `Assembled` (default-day rules only if some weekday is uncovered), and the flag is set if and only if there was a rule or an optional period is configured |
| AssemblyProperties.BlocksLength | lib/measures/AdjustThermostatSetpointsByDegreesForPeakHours/measure.rb:668-711 | `current_index` ends at (number of rules) × (optional periods + 2) |
| AssemblyProperties.BlocksAppend | lib/measures/AdjustThermostatSetpointsByDegreesForPeakHours/measure.rb:669-711 | the blocks of two runs of rules are the blocks of the first followed by those of the second |
| AssemblyProperties.BlockAt | lib/measures/AdjustThermostatSetpointsByDegreesForPeakHours/measure.rb:668-711 | original rule k's block starts at k × (optional periods + 2), after the blocks of the rules before it, so the originals keep their order, each preceded by its own clones |
| AssemblyProperties.DefaultRulesAt | lib/measures/AdjustThermostatSetpointsByDegreesForPeakHours/measure.rb:714-729 | because each default-day rule goes to index 0, position q holds the rule of the q-th period counted from the last |
| AssemblyProperties.DefaultRuleDays | lib/measures/AdjustThermostatSetpointsByDegreesForPeakHours/measure.rb:887-899 | a default-day rule applies on exactly the uncovered weekdays, in its period's dates |
| AssemblyProperties.AssembledLayout | lib/measures/AdjustThermostatSetpointsByDegreesForPeakHours/measure.rb:714-731 | after a completed rewrite, all default-day rules (present only if a weekday is uncovered) precede all blocks, and the period-1 default-day rule is the last of them |
| AssemblyProperties.EveryWeekdayServed | lib/measures/AdjustThermostatSetpointsByDegreesForPeakHours/measure.rb:714-731 | after a completed rewrite, every weekday has a rule in the list that applies on it |
| Measure.AdjustSchedules | lib/measures/AdjustThermostatSetpointsByDegreesForPeakHours/measure.rb:658-737 | the schedules are rewritten in order; each one before the first schedule with an empty rule day becomes `Assembled`, that one is left in the crash state and later ones are untouched; without a crash the flag is set if and only if it was set already, or some schedule had a rule, or there is a schedule and an optional period is configured |
| Validation.FirstMatch | lib/measures/AdjustThermostatSetpointsByDegreesForPeakHours/measure.rb:361-362 | a regex search gives the leftmost position where the pattern matches, or nothing if it matches nowhere |
| Validation.LexTotal | lib/measures/AdjustThermostatSetpointsByDegreesForPeakHours/measure.rb:366 | Ruby string order is a strict total order |
| Validation.LexAppend | lib/measures/AdjustThermostatSetpointsByDegreesForPeakHours/measure.rb:389 | strings that start with equally long parts compare those parts first |
| Validation.ValidateTimeFormat | lib/measures/AdjustThermostatSetpointsByDegreesForPeakHours/measure.rb:360-376 | accepted if and only if both strings contain `\d\d:\d\d:\d\d` somewhere and start < end as strings; "not formatted" if and only if one of them lacks the pattern |
| Validation.ValidateDateFormat | lib/measures/AdjustThermostatSetpointsByDegreesForPeakHours/measure.rb:378-398 | accepted if and only if both strings contain `\d\d-\d\d` somewhere and start is not > end (equal dates accepted); "not formatted" if and only if one of them lacks the pattern |
| Validation.DigitChar | lib/measures/AdjustThermostatSetpointsByDegreesForPeakHours/measure.rb:385-388 | the character written for a digit is a digit that `to_i` reads back as that digit |
| Validation.TwoDigitsOfTwo | lib/measures/AdjustThermostatSetpointsByDegreesForPeakHours/measure.rb:385-388 | reading a written two-digit number gives the number back |
| Validation.TwoOrder | lib/measures/AdjustThermostatSetpointsByDegreesForPeakHours/measure.rb:389 | zero-padded two-digit numbers sort as strings exactly as the numbers sort |
| Validation.FormatTimeReads | lib/measures/AdjustThermostatSetpointsByDegreesForPeakHours/measure.rb:361-365 | a written clock time matches the time pattern at its start and is read back as the same time |
| Validation.FormatDateReads | lib/measures/AdjustThermostatSetpointsByDegreesForPeakHours/measure.rb:379-394 | a written date matches the date pattern at its start and is read back as the same date |
| Validation.SecondsOrder | lib/measures/AdjustThermostatSetpointsByDegreesForPeakHours/measure.rb:366 | with minutes and seconds below 60, seconds since midnight order clock times by hour, then minute, then second |
| Validation.TimeOrder | lib/measures/AdjustThermostatSetpointsByDegreesForPeakHours/measure.rb:366 | written clock times compare as strings exactly as they compare in time |
| Validation.DateOrder | lib/measures/AdjustThermostatSetpointsByDegreesForPeakHours/measure.rb:389 | written dates compare as strings exactly as they compare in the calendar |
| Validation.ValidateFormattedTimes | lib/measures/AdjustThermostatSetpointsByDegreesForPeakHours/measure.rb:360-376 | on written clock times the time validator accepts exactly the windows that start strictly earlier than they end, and returns those times |
| Validation.ValidateFormattedDates | lib/measures/AdjustThermostatSetpointsByDegreesForPeakHours/measure.rb:378-398 | on written dates the date validator accepts exactly the windows whose start is not later than their end, and returns those dates |
| Validation.UnanchoredTime | lib/measures/AdjustThermostatSetpointsByDegreesForPeakHours/measure.rb:361-363 | the pattern is not anchored: a time written anywhere inside other text passes the format test |
| Validation.CheckCoolingAdjustment | lib/measures/AdjustThermostatSetpointsByDegreesForPeakHours/measure.rb:547-554 | fails if and only if adj > 500; warns if and only if adj < 0 or 50 < adj ≤ 500; accepted if and only if 0 ≤ adj ≤ 50 (a negative adjustment never fails) |
| Validation.CheckHeatingAdjustment | lib/measures/AdjustThermostatSetpointsByDegreesForPeakHours/measure.rb:555-562 | fails if and only if adj < −500; warns if and only if adj > 0 or −500 ≤ adj < −50; accepted if and only if −50 ≤ adj ≤ 0 |
| Arguments.ReadPeriodsQuirk | lib/measures/AdjustThermostatSetpointsByDegreesForPeakHours/measure.rb:303-305 | the declared `end_date3` never affects what is read, periods 4 and 5 always end on the same date, and period 3 reads `end_date4` |
| Arguments.AltDatesValidate | lib/measures/AdjustThermostatSetpointsByDegreesForPeakHours/measure.rb:348-357 | the fixed seasonal dates all pass the date validator and read back as Jan 1–Mar 31, Apr 1–May 31, Jun 1–Sep 30, Oct 1–Nov 30 and Dec 1–Dec 31, each ending before the next starts |
| Arguments.AltDatesWritten | lib/measures/AdjustThermostatSetpointsByDegreesForPeakHours/measure.rb:348-357 | the seasonal date strings are those dates written as `MM-DD` |
| Arguments.Optionally | lib/measures/AdjustThermostatSetpointsByDegreesForPeakHours/measure.rb:410-415 | an optional pair counts as not given if and only if one of its strings is empty, and is used if and only if both are non-empty and it validates |
| Arguments.OptionalPeriod | lib/measures/AdjustThermostatSetpointsByDegreesForPeakHours/measure.rb:685-690 | an optional period is used if and only if its four strings are non-empty and both pairs validate, and it then carries the validated dates and times |
| Arguments.Configure | lib/measures/AdjustThermostatSetpointsByDegreesForPeakHours/measure.rb:400-562 | the run goes on if and only if the first heating and cooling time windows and date windows validate, the cooling adjustment is at most 500 and the heating one at least −500; time failures are reported before date failures, and date failures before adjustment failures; the cooling rule clones of period 1 get the date window start_date1..start_date1, and the cooling default-day rule and the heating ones get start_date1..end_date1 |
| Arguments.LargeCoolingAdjustmentFails | lib/measures/AdjustThermostatSetpointsByDegreesForPeakHours/tests/AdjustThermostatSetpointsByDegreesForPeakHours_Test.rb:145-151 | a cooling adjustment of 5000 fails the run, whatever periods pass validation |
| CloneMap.DistinctMembers | lib/measures/AdjustThermostatSetpointsByDegreesForPeakHours/measure.rb:577-589 | a name is cloned if and only if some thermostat has a schedule of that name |
| CloneMap.DistinctOnce | lib/measures/AdjustThermostatSetpointsByDegreesForPeakHours/measure.rb:580-589 | no name is cloned twice |
| CloneMap.CloneSchedules | lib/measures/AdjustThermostatSetpointsByDegreesForPeakHours/measure.rb:569-616 | the hash holds exactly the names in first-appearance order, numbered by when their clone was made; each thermostat with a schedule is hooked to the clone of its schedule's name, the others to none; two thermostats share a clone if and only if their schedules share a name |
| CloneMap.SharedExactly | lib/measures/AdjustThermostatSetpointsByDegreesForPeakHours/measure.rb:580-591 | numbering names by first appearance gives distinct names distinct clones |

## Left out

- Host plumbing: argument declarations, runner reads, `setName`, `register*` logging, and `registerAsNotApplicable` as an effect. These are reduced to the values the model returns (`Failure`, `Check`, the `rejected` flag, `applicable`).
- The seasonal peak-hours JSON file and the weather file's state: the peak hours are a parameter (`Arguments.PeakHours`), already cut to their `HH:MM:SS` part.
- Floating point: temperatures are reals, and the `OpenStudio::Quantity` conversion is exact.
- Validation.ValidateTimeFormat: `OpenStudio::Time.new` parses the whole string; the model reads the first `HH:MM:SS` the pattern finds (`ClockOf`), and does not model times the host rejects or normalises (for example `25:00:00` or `12:75:00`).
- Validation.ValidateDateFormat: the model does not check calendar validity (`OpenStudio::Date` with month 13 or day 32 raises in the host); it reads the first `MM-DD` the pattern finds.
- Object identity: rules are values, and `setScheduleRuleIndex` is addressed by position; each clone is placed right after it is made, so nothing else can alias it.
- The failure branch of `setScheduleRuleIndex` (an error logged, `current_index` not advanced) is not modelled: moving an existing rule to an index inside the list always succeeds in the model.
- Where a clone joins the ruleset is assumed to be the lowest priority (`Rules.ScheduleRuleset.AddClone`). When the run completes, the placement that follows makes the result independent of this. When it raises on an empty day, the stated `CrashState` ends with the dated clone that was not produced, so it depends on the clone being appended last.
- SpliceProperties.SplicedDayValues: stated for a day whose times strictly increase, as `ScheduleDay.times` returns them, and a window that begins before it ends, as the time validator demands of the first period; a day with repeated times or an empty window is not covered.
- `ScheduleRule.new(schedule_set, default_day)` is assumed to start with every weekday flag off (`Assembly.DefaultRule`, `Assembly.ModifyDefaultDayForDatePeriod`): the default-day rule then applies exactly on the weekdays that `coverMissingDays` turns on.
- Schedules that are not a `ScheduleRuleset` (warned about and their clone removed) are not modelled; `Measure.AdjustSchedules` takes rulesets only.
- The min/max setpoint report (`final_*_sch_set_values`) and the final-condition message.
- The warning about thermostats in unconditioned zones.
- The link between `CloneMap.CloneSchedules`, `Arguments.Configure` and `Measure.AdjustSchedules` is not one member: `run` is modelled as these three pieces, with the rulesets handed to the last one in the order of the clone map.
- The test file's other tests load building models from disk and assert a stale argument list; only its failing-adjustment test is stated (`Arguments.LargeCoolingAdjustmentFails`).
- The heating schedule's holiday day (a TODO in the source) is not touched by the measure and is not modelled.
