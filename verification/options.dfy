/**
 * The duration choices the booking form offers for a day. The page keeps the
 * whole-hour instants from `09:00 + reserved` to `17:00` of the selected day,
 * drops the first, offers one hour count per remaining instant and always
 * appends a "next workday" choice.
 */
module DurationOptions {
  import opened Wrappers
  import opened Durations
  import opened Ledger

  /** Clock hour at which the working day starts. */
  const DayStartHour: int := 9

  /** Clock hour at which the working day ends. */
  const DayEndHour: int := 17

  /** The whole hours from `start` to `end`, both included, in ascending order. */
  function ClockHours(start: int, end: int): (hs: seq<int>)
    requires start <= end
    ensures |hs| == end - start + 1
    ensures forall i :: 0 <= i < |hs| ==> hs[i] == start + i
    decreases end - start
  {
    if start == end then [end] else [start] + ClockHours(start + 1, end)
  }

  /** The interval of hours kept as option state once `reserved` hours are taken. */
  function DayInterval(reserved: nat): (hs: seq<int>)
    requires reserved <= WorkdayHours
    ensures |hs| == WorkdayHours - reserved + 1
    ensures hs[0] == DayStartHour + reserved && hs[|hs| - 1] == DayEndHour
  {
    ClockHours(DayStartHour + reserved, DayEndHour)
  }

  /**
   * The durations the select offers for an option interval: the hour count
   * `i + 1` for every instant after the first, then the sentinel.
   */
  function OfferedDurations(interval: seq<int>): seq<Duration>
    requires |interval| <= WorkdayHours + 1
  {
    var count := if |interval| == 0 then 0 else |interval| - 1;
    seq(count, i requires 0 <= i < count => Hours(i + 1)) + [NextWorkday]
  }

  /** The durations offered for a day on which `reserved` hours are taken. */
  function DayOptions(reserved: nat): (r: seq<Duration>)
    requires reserved <= WorkdayHours
    ensures |r| == WorkdayHours - reserved + 1
    ensures r[|r| - 1] == NextWorkday
    ensures forall i :: 0 <= i < |r| - 1 ==> r[i] == Hours(i + 1)
    ensures forall k: HourCount :: Hours(k) in r <==> reserved + k <= WorkdayHours
  {
    var r := OfferedDurations(DayInterval(reserved));
    assert forall k: HourCount :: reserved + k <= WorkdayHours ==> r[k - 1] == Hours(k);
    r
  }

  /** One `<option>` of the duration select: its value and its visible label. */
  datatype SelectOption = SelectOption(value: string, text: string)

  /** The label of the `i`-th hour option: "1 hour", "2 hours", ... */
  function HourLabel(i: nat): string
  {
    NatToString(i + 1) + " hour" + (if i > 0 then "s" else "")
  }

  /** The `<option>` elements rendered for an option interval. */
  function RenderedOptions(interval: seq<int>): (r: seq<SelectOption>)
    requires |interval| <= WorkdayHours + 1
    ensures |r| == |OfferedDurations(interval)|
    ensures forall i :: 0 <= i < |r| ==>
              ParseDuration(r[i].value) == Some(OfferedDurations(interval)[i])
              && r[i].text == DurationText(OfferedDurations(interval)[i])
  {
    var count := if |interval| == 0 then 0 else |interval| - 1;
    var r := seq(count, i requires 0 <= i < count => SelectOption(NatToString(i + 1), HourLabel(i)))
             + [SelectOption(NextWorkdayValue, NextWorkdayValue)];
    forall i | 0 <= i < |r|
      ensures ParseDuration(r[i].value) == Some(OfferedDurations(interval)[i])
      ensures r[i].text == DurationText(OfferedDurations(interval)[i])
    {
      var d := OfferedDurations(interval)[i];
      ParseValueString(d);
      if i < count {
        assert d == Hours(i + 1);
        assert r[i].value == ValueString(d);
        assert ValueString(d) == [Digit(i + 1)];
        if i == 0 {
          assert HourLabel(i) == ValueString(d) + " " + "hour";
        } else {
          assert HourLabel(i) == ValueString(d) + " " + "hours";
        }
      } else {
        assert d == NextWorkday;
      }
    }
    r
  }

  /** The option state and the selected duration of the booking form. */
  datatype Form = Form(options: seq<int>, duration: Duration)

  /**
   * The effect run when the selected day or its reservations change: with no
   * day it does nothing; otherwise it recomputes the option interval from the
   * day's reserved hours and resets the duration to one hour.
   */
  function RefreshForm(form: Form, m: Reservations, selected: Option<DateKey>): (f: Form)
    requires selected.Some? ==> ReservedHours(DayList(m, selected.value)) <= WorkdayHours
    ensures selected.None? ==> f == form
    ensures selected.Some? ==>
              var reserved := ReservedHours(DayList(m, selected.value));
              && |f.options| <= WorkdayHours + 1
              && OfferedDurations(f.options) == DayOptions(reserved)
              && f.duration == Hours(1)
              && (f.duration in OfferedDurations(f.options) <==> reserved < WorkdayHours)
  {
    match selected
    case None => form
    case Some(key) =>
      Form(DayInterval(ReservedHours(DayList(m, key))), Hours(1))
  }
}
