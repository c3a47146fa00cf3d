/**
 * The calendar's per-tile rules: which days cannot be picked (weekends, full
 * days, past days) and which days carry an occupancy hint. The current time
 * and the clock hour at page load are parameters.
 */
module CalendarTiles {
  import opened Wrappers
  import opened Durations
  import opened Ledger
  import opened DurationOptions

  datatype Weekday = Monday | Tuesday | Wednesday | Thursday | Friday | Saturday | Sunday

  predicate IsWeekend(w: Weekday)
  {
    w == Saturday || w == Sunday
  }

  /**
   * A calendar tile in any view: the day it stands for (the first day of its
   * period outside the month view), that day's weekday, and its first instant
   * in ms. Disabling does not look at the view.
   */
  datatype Tile = Tile(key: DateKey, weekday: Weekday, time: int)

  const MillisPerDay: int := 1000 * 60 * 60 * 24

  /** Whether the working day had already ended at the clock hour the page was loaded. */
  predicate PassedWorkingHours(loadHour: int)
  {
    loadHour >= DayEndHour
  }

  /** The tile's full-day test and the form's reserved-hours test agree on every list. */
  lemma TileFullAgreesWithFold(rs: seq<Reservation>)
    ensures (|| HasNextWorkday(rs)
             || match TileSum(rs) case Some(s) => s >= WorkdayHours case None => false)
            <==> ReservedHours(rs) >= WorkdayHours
  {
    TileSumCharacterized(rs);
    if !HasNextWorkday(rs) {
      ReservedHoursIsSum(rs);
    }
  }

  /**
   * The tile's full-day test: a "next workday" entry, or a plain sum of the
   * parsed durations of at least a full day. A missing list is not full.
   */
  function DayReserved(m: Reservations, key: DateKey): (full: bool)
    ensures full <==> ReservedHours(DayList(m, key)) >= WorkdayHours
  {
    TileFullAgreesWithFold(DayList(m, key));
    && key in m
    && (|| HasNextWorkday(m[key])
        || match TileSum(m[key]) case Some(s) => s >= WorkdayHours case None => false)
  }

  /**
   * Whether a tile cannot be picked. A day counts as past when its first
   * instant is before `now`, less one whole day when the page was loaded
   * before the working day ended.
   */
  function TileDisabled(tile: Tile, m: Reservations, now: int, loadHour: int): (disabled: bool)
    ensures disabled <==>
              || IsWeekend(tile.weekday)
              || ReservedHours(DayList(m, tile.key)) >= WorkdayHours
              || tile.time < now - (if PassedWorkingHours(loadHour) then 0 else MillisPerDay)
    ensures tile.time + MillisPerDay < now ==> disabled
    ensures tile.time < now < tile.time + MillisPerDay
            && !IsWeekend(tile.weekday) && ReservedHours(DayList(m, tile.key)) < WorkdayHours
            ==> (disabled <==> PassedWorkingHours(loadHour))
    ensures now <= tile.time && !IsWeekend(tile.weekday)
            && ReservedHours(DayList(m, tile.key)) < WorkdayHours
            ==> !disabled
  {
    var isNotWorkday := tile.weekday == Sunday || tile.weekday == Saturday;
    var isPast := tile.time < now - (if PassedWorkingHours(loadHour) then 0 else MillisPerDay);
    var isTodayReserved := DayReserved(m, tile.key);
    isNotWorkday || isTodayReserved || isPast
  }

  /** The calendar's views; tile hints are drawn in the month view only. */
  datatype View = Month | Year | Decade | Century

  /** The hint's background: the hover colour, none for a full day, or green by occupancy. */
  datatype Shade = Highlighted | Plain | Occupied(count: nat)

  /** The occupancy hint drawn over a tile: the reservation count, its shade, and whether the count text shows. */
  datatype Hint = Hint(count: nat, shade: Shade, countShown: bool)

  /**
   * The tile content: a hint for a month-view day that holds reservations,
   * else nothing. `hover` is one flag for the whole page, so hovering any hint
   * highlights every hint and shows every count.
   */
  function TileHint(view: View, hover: bool, m: Reservations, key: DateKey): (h: Option<Hint>)
    ensures h.Some? <==> view == Month && |DayList(m, key)| > 0
    ensures h.Some? ==> h.value.count == |DayList(m, key)|
    ensures h.Some? ==> (h.value.countShown <==> hover)
    ensures h.Some? ==>
              (h.value.shade == Plain <==> !hover && ReservedHours(DayList(m, key)) >= WorkdayHours)
  {
    if view == Month && key in m && |m[key]| > 0 then
      var length := |m[key]|;
      var isTodayReserved := DayReserved(m, key);
      Some(Hint(length,
                if hover then Highlighted else if isTodayReserved then Plain else Occupied(length),
                hover))
    else
      None
  }
}
