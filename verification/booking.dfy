/**
 * The booking form: the submit transition over the reservation map and the
 * two predicates that disable the name/duration inputs and the submit button.
 * Submission itself rejects only a name already booked on the day; capacity,
 * empty names and past days are kept out by the disabled controls alone.
 */
module Booking {
  import opened Wrappers
  import opened Durations
  import opened Ledger
  import opened DurationOptions

  /**
   * The list of the selected day. With no day selected the page looks up the
   * empty key, which never holds reservations.
   */
  function SelectedDay(m: Reservations, selected: Option<DateKey>): seq<Reservation>
  {
    match selected
    case None => []
    case Some(key) => DayList(m, key)
  }

  /**
   * Whether the submit button is disabled. The source also tests for an empty
   * duration string, which no duration has, and for the sentinel, which the
   * reserved-hours test already covers.
   */
  function SubmitDisabled(name: string, duration: Duration, selected: Option<DateKey>,
                          m: Reservations): (disabled: bool)
    ensures disabled <==>
              || name == ""
              || NameTaken(SelectedDay(m, selected), name)
              || ReservedHours(SelectedDay(m, selected)) >= WorkdayHours
  {
    var day := SelectedDay(m, selected);
    || name == ""
    || ValueString(duration) == ""
    || NameTaken(day, name)
    || HasNextWorkday(day)
    || ReservedHours(day) >= WorkdayHours
  }

  /** Whether the name input and duration select are disabled. */
  function InputDisabled(selected: Option<DateKey>, m: Reservations): (disabled: bool)
    ensures disabled <==>
              selected.None? || ReservedHours(SelectedDay(m, selected)) >= WorkdayHours
    ensures selected.Some? && HasNextWorkday(DayList(m, selected.value)) ==> disabled
  {
    var day := SelectedDay(m, selected);
    HasNextWorkday(day) || ReservedHours(day) >= WorkdayHours || selected.None?
  }

  /**
   * The submit handler: with a day selected and the name not yet booked on it,
   * appends the reservation at the end of that day's list; otherwise the map
   * is returned unchanged.
   */
  function Submit(m: Reservations, selected: Option<DateKey>, name: string,
                  duration: Duration): (m': Reservations)
    ensures selected.None? ==> m' == m
    ensures selected.Some? && NameTaken(DayList(m, selected.value), name) ==> m' == m
    ensures selected.Some? && !NameTaken(DayList(m, selected.value), name) ==>
              && m'.Keys == m.Keys + {selected.value}
              && |m'[selected.value]| == |DayList(m, selected.value)| + 1
              && m'[selected.value][..|DayList(m, selected.value)|] == DayList(m, selected.value)
              && m'[selected.value][|DayList(m, selected.value)|] == Reservation(name, duration)
              && forall k :: k in m && k != selected.value ==> m'[k] == m[k]
  {
    match selected
    case None => m
    case Some(key) =>
      if NameTaken(DayList(m, key), name) then m
      else m[key := DayList(m, key) + [Reservation(name, duration)]]
  }

  /** No day's list holds the same name twice. */
  ghost predicate UniqueNames(m: Reservations)
  {
    forall k, i, j :: k in m && 0 <= i < j < |m[k]| ==> m[k][i].name != m[k][j].name
  }

  /** Submitting never puts a second reservation under one name on one day. */
  lemma SubmitPreservesUniqueNames(m: Reservations, selected: Option<DateKey>, name: string,
                                   duration: Duration)
    requires UniqueNames(m)
    ensures UniqueNames(Submit(m, selected, name, duration))
  {
  }

  /** Submitting the same name for the same day again changes nothing. */
  lemma SubmitTwiceIsOnce(m: Reservations, selected: Option<DateKey>, name: string,
                          first: Duration, second: Duration)
    ensures Submit(Submit(m, selected, name, first), selected, name, second)
            == Submit(m, selected, name, first)
  {
  }

  /** An accepted submission advances the day's reserved hours by one reduce step. */
  lemma SubmitAdvancesReservedHours(m: Reservations, key: DateKey, name: string,
                                    duration: Duration)
    requires !NameTaken(DayList(m, key), name)
    ensures ReservedHours(DayList(Submit(m, Some(key), name, duration), key))
            == Step(ReservedHours(DayList(m, key)), Reservation(name, duration))
  {
    ReservedHoursAppend(DayList(m, key), Reservation(name, duration));
  }

  /**
   * A full day stays full whatever is submitted, so its inputs and its submit
   * button stay disabled for every name.
   */
  lemma FullDayStaysFull(m: Reservations, key: DateKey, selected: Option<DateKey>,
                         name: string, duration: Duration, other: string)
    requires ReservedHours(DayList(m, key)) >= WorkdayHours
    ensures ReservedHours(DayList(Submit(m, selected, name, duration), key)) >= WorkdayHours
    ensures InputDisabled(Some(key), Submit(m, selected, name, duration))
    ensures SubmitDisabled(other, duration, Some(key), Submit(m, selected, name, duration))
  {
    if selected == Some(key) && !NameTaken(DayList(m, key), name) {
      SubmitAdvancesReservedHours(m, key, name, duration);
    }
  }

  /** Booking "next workday" on a day closes it to every further booking. */
  lemma NextWorkdayClosesDay(m: Reservations, key: DateKey, name: string, other: string,
                             duration: Duration)
    requires !NameTaken(DayList(m, key), name)
    ensures InputDisabled(Some(key), Submit(m, Some(key), name, NextWorkday))
    ensures SubmitDisabled(other, duration, Some(key), Submit(m, Some(key), name, NextWorkday))
  {
  }

  /** Every day's reserved hours fit in one working day. */
  ghost predicate WithinCapacity(m: Reservations)
  {
    forall k :: k in m ==> ReservedHours(m[k]) <= WorkdayHours
  }

  /**
   * A submission the enabled button lets through, with a duration the select
   * offers for the day, keeps every day within capacity.
   */
  lemma GatedSubmitWithinCapacity(m: Reservations, key: DateKey, name: string,
                                  duration: Duration)
    requires WithinCapacity(m)
    requires !SubmitDisabled(name, duration, Some(key), m)
    requires duration in DayOptions(ReservedHours(DayList(m, key)))
    ensures WithinCapacity(Submit(m, Some(key), name, duration))
    ensures duration.Hours? ==>
              ReservedHours(DayList(Submit(m, Some(key), name, duration), key))
              == ReservedHours(DayList(m, key)) + duration.n
  {
    SubmitAdvancesReservedHours(m, key, name, duration);
    if duration.Hours? {
      assert Hours(duration.n) in DayOptions(ReservedHours(DayList(m, key)));
    }
  }
}
