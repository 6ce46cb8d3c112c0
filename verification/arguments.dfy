/**
 * How `run` turns its string arguments into adjustment periods: the
 * arguments as they are read (end dates 3 and 4 read the wrong names), the
 * fixed seasonal dates used with `alt_periods`, the validation of the first
 * and the optional periods, and the adjustment checks, in the order the
 * measure performs them.
 */
module Arguments {
  import opened Wrappers
  import opened Splice
  import opened Rules
  import opened Assembly
  import opened Validation

  /** The period strings of one kind (heating or cooling): periods 1 to 5, in order. */
  datatype PeriodStrings = PeriodStrings(startTimes: seq<string>, endTimes: seq<string>,
                                         startDates: seq<string>, endDates: seq<string>)
  {
    ghost predicate Valid() {
      |startTimes| == 5 && |endTimes| == 5 && |startDates| == 5 && |endDates| == 5
    }
  }

  /**
   * The end dates as `run` reads them from the declared `end_date1` ..
   * `end_date5`: period 3 reads `end_date4`, periods 4 and 5 both read
   * `end_date5`.
   */
  function ReadEndDates(declared: seq<string>): (r: seq<string>)
    requires |declared| == 5
    ensures |r| == 5
  {
    [declared[0], declared[1], declared[3], declared[4], declared[4]]
  }

  /** The period strings as `run` reads them from the declared arguments. */
  function ReadPeriods(declared: PeriodStrings): (r: PeriodStrings)
    requires declared.Valid()
    ensures r.Valid()
  {
    declared.(endDates := ReadEndDates(declared.endDates))
  }

  /**
   * The declared `end_date3` is never read, and periods 4 and 5 always end
   * on the same date; the other strings are read as declared.
   */
  lemma {:induction false} ReadPeriodsQuirk(a: PeriodStrings, b: PeriodStrings)
    requires a.Valid() && b.Valid()
    requires a.startTimes == b.startTimes && a.endTimes == b.endTimes && a.startDates == b.startDates
    requires forall q :: 0 <= q < 5 && q != 2 ==> a.endDates[q] == b.endDates[q]
    ensures ReadPeriods(a) == ReadPeriods(b)
    ensures ReadPeriods(a).endDates[3] == ReadPeriods(a).endDates[4]
    ensures forall q :: 0 <= q < 5 && q != 2 ==> ReadPeriods(a).endDates[q] == a.endDates[if q == 3 then 4 else q]
  {
    assert ReadEndDates(a.endDates) == ReadEndDates(b.endDates) by {
      assert a.endDates[3] == b.endDates[3] && a.endDates[4] == b.endDates[4];
      assert a.endDates[0] == b.endDates[0] && a.endDates[1] == b.endDates[1];
    }
  }

  /** The state's peak hours, already cut down to their `HH:MM:SS` part. */
  datatype PeakHours = PeakHours(winterStart: string, winterEnd: string,
                                 intermediateStart: string, intermediateEnd: string,
                                 summerStart: string, summerEnd: string)

  /** The fixed seasonal date windows used with `alt_periods`: winter, spring, summer, autumn, December. */
  const AltStartDates: seq<string> := ["01-01", "04-01", "06-01", "10-01", "12-01"]
  const AltEndDates: seq<string> := ["03-31", "05-31", "09-30", "11-30", "12-31"]

  /** The same windows, as dates. */
  const AltWindows: seq<DateWindow> := [
    DateWindow(Date(1, 1), Date(3, 31)), DateWindow(Date(4, 1), Date(5, 31)),
    DateWindow(Date(6, 1), Date(9, 30)), DateWindow(Date(10, 1), Date(11, 30)),
    DateWindow(Date(12, 1), Date(12, 31))]

  /**
   * With `alt_periods` both kinds use the state's peak hours (winter,
   * intermediate, summer, intermediate, winter) and the fixed seasonal dates.
   */
  function AltPeriods(peaks: PeakHours): (r: PeriodStrings)
    ensures r.Valid()
  {
    PeriodStrings(
      [peaks.winterStart, peaks.intermediateStart, peaks.summerStart, peaks.intermediateStart, peaks.winterStart],
      [peaks.winterEnd, peaks.intermediateEnd, peaks.summerEnd, peaks.intermediateEnd, peaks.winterEnd],
      AltStartDates, AltEndDates)
  }

  /**
   * The seasonal dates all pass the date validator and read back as the
   * windows they name, and each window ends before the next one starts.
   */
  lemma AltDatesValidate()
    ensures forall q :: 0 <= q < 5 ==> ValidateDateFormat(AltStartDates[q], AltEndDates[q]) == Ok(AltWindows[q])
    ensures forall q :: 0 <= q < 4 ==> DateBefore(AltWindows[q].end, AltWindows[q + 1].start)
  {
    AltDatesWritten();
    forall q | 0 <= q < 5 ensures ValidateDateFormat(AltStartDates[q], AltEndDates[q]) == Ok(AltWindows[q]) {
      ValidateFormattedDates(AltWindows[q].start, AltWindows[q].end);
    }
  }

  /** The seasonal date strings are the windows' dates written as `MM-DD`. */
  lemma AltDatesWritten()
    ensures forall q :: 0 <= q < 5 ==> AltWindows[q].start.month < 100 && AltWindows[q].end.month < 100
    ensures forall q :: 0 <= q < 5 ==>
              && AltStartDates[q] == FormatDate(AltWindows[q].start)
              && AltEndDates[q] == FormatDate(AltWindows[q].end)
  {
    assert DigitChar(0) == '0' && DigitChar(1) == '1' && DigitChar(2) == '2' && DigitChar(3) == '3';
    assert DigitChar(4) == '4' && DigitChar(5) == '5' && DigitChar(6) == '6' && DigitChar(9) == '9';
  }

  /** An optional time or date pair: not given, given but refused (an error is logged), or given. */
  datatype Optional<T> = NotGiven | Rejected(why: FormatError) | Given(value: T)

  /** A pair is validated only when both of its strings are non-empty. */
  function Optionally<T>(start: string, end: string, checked: Result<T, FormatError>): (r: Optional<T>)
    ensures r.NotGiven? <==> start == [] || end == []
    ensures r.Given? <==> start != [] && end != [] && checked.Ok?
  {
    if start == [] || end == [] then NotGiven
    else
      match checked
      case Ok(v) => Given(v)
      case Err(e) => Rejected(e)
  }

  /** The time window of period `q`, when it is given. */
  function OptionalTimes(s: PeriodStrings, q: nat): Optional<Window>
    requires s.Valid() && q < 5
  {
    Optionally(s.startTimes[q], s.endTimes[q], ValidateTimeFormat(s.startTimes[q], s.endTimes[q]))
  }

  /** The date window of period `q`, when it is given. */
  function OptionalDates(s: PeriodStrings, q: nat): Optional<DateWindow>
    requires s.Valid() && q < 5
  {
    Optionally(s.startDates[q], s.endDates[q], ValidateDateFormat(s.startDates[q], s.endDates[q]))
  }

  /**
   * Optional period `q` is used (`[...].all?`) exactly when all four of its
   * strings are non-empty and both of its pairs pass validation.
   */
  function OptionalPeriod(s: PeriodStrings, q: nat): (r: Option<Period>)
    requires s.Valid() && 1 <= q < 5
    ensures r.Some? <==> (s.startTimes[q] != [] && s.endTimes[q] != [] && s.startDates[q] != [] && s.endDates[q] != []
                          && ValidateTimeFormat(s.startTimes[q], s.endTimes[q]).Ok?
                          && ValidateDateFormat(s.startDates[q], s.endDates[q]).Ok?)
    ensures r.Some? ==> r.value == Period(ValidateDateFormat(s.startDates[q], s.endDates[q]).value,
                                          ValidateTimeFormat(s.startTimes[q], s.endTimes[q]).value)
  {
    var times, dates := OptionalTimes(s, q), OptionalDates(s, q);
    if times.Given? && dates.Given? then Some(Period(dates.value, times.value)) else None
  }

  /** Periods 2 to 5, in the order the measure's period hash lists them. */
  function OptionalPeriods(s: PeriodStrings): (r: seq<Option<Period>>)
    requires s.Valid()
    ensures |r| == 4
  {
    [OptionalPeriod(s, 1), OptionalPeriod(s, 2), OptionalPeriod(s, 3), OptionalPeriod(s, 4)]
  }

  /** Some optional pair was given and refused, so an error was logged without stopping the run. */
  predicate Rejections(s: PeriodStrings)
    requires s.Valid()
  {
    exists q :: 1 <= q < 5 && (OptionalTimes(s, q).Rejected? || OptionalDates(s, q).Rejected?)
  }

  /** Heating or cooling. */
  datatype Kind = Heating | Cooling

  /** Why `run` returns false before touching any schedule. */
  datatype Failure =
    | RequiredTime(kind: Kind, why: FormatError)
    | RequiredDate(kind: Kind, why: FormatError)
    | AdjustmentTooLarge(kind: Kind)

  /**
   * What the schedule loop of one kind is given: the period of the rule
   * clones for period 1, the period of the default-day rule for period 1,
   * and the optional periods 2 to 5.
   */
  datatype Plan = Plan(first: Period, firstDefault: Period, optional: seq<Option<Period>>, rejected: bool)

  datatype Setup = Setup(heating: Plan, cooling: Plan, heatingCheck: Check, coolingCheck: Check)

  /**
   * The checks of `run` before any schedule is touched, in its order: the
   * first heating then cooling time windows, the first heating then cooling
   * date windows, then the cooling and the heating adjustment. The first
   * failure ends the run. The cooling rule clones of period 1 get the date
   * window from the start date to the same start date; the cooling default-day
   * rule and both heating ones get the whole first date window.
   */
  function Configure(heating: PeriodStrings, cooling: PeriodStrings, heatingAdjustment: real, coolingAdjustment: real)
    : (r: Result<Setup, Failure>)
    requires heating.Valid() && cooling.Valid()
    ensures r.Ok? <==> ValidateTimeFormat(heating.startTimes[0], heating.endTimes[0]).Ok?
                       && ValidateTimeFormat(cooling.startTimes[0], cooling.endTimes[0]).Ok?
                       && ValidateDateFormat(heating.startDates[0], heating.endDates[0]).Ok?
                       && ValidateDateFormat(cooling.startDates[0], cooling.endDates[0]).Ok?
                       && coolingAdjustment <= 500.0 && heatingAdjustment >= -500.0
    // a time window is reported before any date window, a date window before any adjustment
    ensures r.Err? && !r.error.RequiredTime? ==>
              ValidateTimeFormat(heating.startTimes[0], heating.endTimes[0]).Ok?
              && ValidateTimeFormat(cooling.startTimes[0], cooling.endTimes[0]).Ok?
    ensures r.Err? && r.error.AdjustmentTooLarge? ==>
              ValidateDateFormat(heating.startDates[0], heating.endDates[0]).Ok?
              && ValidateDateFormat(cooling.startDates[0], cooling.endDates[0]).Ok?
    ensures r.Ok? ==>
              var c, h := r.value.cooling, r.value.heating;
              var cd := ValidateDateFormat(cooling.startDates[0], cooling.endDates[0]).value;
              && c.first == Period(DateWindow(cd.start, cd.start), c.firstDefault.times)
              && c.firstDefault == Period(cd, ValidateTimeFormat(cooling.startTimes[0], cooling.endTimes[0]).value)
              && h.first == h.firstDefault
              && h.first == Period(ValidateDateFormat(heating.startDates[0], heating.endDates[0]).value,
                                   ValidateTimeFormat(heating.startTimes[0], heating.endTimes[0]).value)
              && c.optional == OptionalPeriods(cooling) && h.optional == OptionalPeriods(heating)
              && (c.rejected <==> Rejections(cooling)) && (h.rejected <==> Rejections(heating))
              && r.value.coolingCheck == CheckCoolingAdjustment(coolingAdjustment)
              && r.value.heatingCheck == CheckHeatingAdjustment(heatingAdjustment)
  {
    var ht := ValidateTimeFormat(heating.startTimes[0], heating.endTimes[0]);
    var ct := ValidateTimeFormat(cooling.startTimes[0], cooling.endTimes[0]);
    var hd := ValidateDateFormat(heating.startDates[0], heating.endDates[0]);
    var cd := ValidateDateFormat(cooling.startDates[0], cooling.endDates[0]);
    if ht.Err? then Err(RequiredTime(Heating, ht.error))
    else if ct.Err? then Err(RequiredTime(Cooling, ct.error))
    else if hd.Err? then Err(RequiredDate(Heating, hd.error))
    else if cd.Err? then Err(RequiredDate(Cooling, cd.error))
    else if CheckCoolingAdjustment(coolingAdjustment) == Failed then Err(AdjustmentTooLarge(Cooling))
    else if CheckHeatingAdjustment(heatingAdjustment) == Failed then Err(AdjustmentTooLarge(Heating))
    else
      var heatingPeriod := Period(hd.value, ht.value);
      Ok(Setup(
        Plan(heatingPeriod, heatingPeriod, OptionalPeriods(heating), Rejections(heating)),
        Plan(Period(DateWindow(cd.value.start, cd.value.start), ct.value), Period(cd.value, ct.value),
             OptionalPeriods(cooling), Rejections(cooling)),
        CheckHeatingAdjustment(heatingAdjustment), CheckCoolingAdjustment(coolingAdjustment)))
  }

  /**
   * A cooling adjustment of 5000 degrees fails the run, whatever the
   * periods, once they pass validation.
   */
  lemma LargeCoolingAdjustmentFails(heating: PeriodStrings, cooling: PeriodStrings, heatingAdjustment: real)
    requires heating.Valid() && cooling.Valid()
    requires Configure(heating, cooling, heatingAdjustment, 0.0).Ok?
    ensures Configure(heating, cooling, heatingAdjustment, 5000.0) == Err(AdjustmentTooLarge(Cooling))
  {
  }
}
