# Reservation page booking rules

A model of the live booking rules of a one-page reservation app. People reserve
hours of a working day, 09:00 to 17:00 on weekdays. A reservation is a name
plus a duration of 1 to 8 hours or "next workday". The page keeps a map from
calendar day to that day's reservations, in booking order. From that map it
derives these things:

- the hours already reserved on a day, by a reduce in which a "next workday"
  entry resets the running total to 8;
- the duration choices the form offers;
- whether the inputs and the submit button are disabled;
- which calendar tiles cannot be picked and which carry an occupancy hint;
- the text shown for each reservation in the day's schedule.

Submitting appends a reservation to the selected day's list.

The model is pure functions over immutable values:

- `wrappers.dfy`: `Option`.
- `durations.dfy`: the `Duration` type, the validator, the parse of a stored
  string and the listing text.
- `ledger.dfy`: the reservation map, the reserved-hours reduce, and the
  calendar's plain-sum reduce, where the sentinel parses to NaN.
- `options.dfy`: the hour interval, the offered durations and the rendered
  `<option>` elements.
- `booking.dfy`: the submit transition and the two disabling predicates.
- `calendar.dfy`: tile disabling and the tile hint.
- `seed.dfy`: the page's initial reservations and the outcomes on them.

Abstractions:

- A calendar day is a `DateKey(year, month, day)`. It stands for the
  `yyyy-MM-dd` key string, and that formatting is injective on days.
- A tile carries its weekday and its first instant in milliseconds. Tile
  disabling ignores the calendar view. Outside the month view, a tile stands for
  the first day of its period, so a year-view month whose 1st is a weekend is
  disabled.
- The hover flag is a single page-wide state. Hovering any hinted tile
  highlights every hinted tile and shows every count.
- The current time (`now`, in ms) and the clock hour at page load are
  parameters. The source reads them from two separate clocks.
- With no day selected, the page looks up the key `''`. No day ever has that
  key, so the model reads the empty list.

What the page does not enforce, or enforces loosely:

- The reserved hours are never clamped to 8.
- The elapsed part of today is not counted as reserved.
- Submitting rejects only a duplicate name on the day. Empty names, full days,
  weekends and past days are kept out only by the disabled controls.
- The "next workday" option is rendered even on a full day.
- A day counts as past when its tile's first instant is earlier than `now`,
  less 24 hours when the page was loaded before 17:00.

## Model

| member | source | states |
|---|---|---|
| Durations.IsDurationExactly | pages/index.tsx:22-26 | `IsDuration` (the `isDuration` validator) accepts exactly one digit `1`..`8` or `next workday`, and rejects every other string |
| Durations.ParseDuration | pages/index.tsx:18-26 | `ParseDuration` (`isDuration` narrowing plus `parseInt`): a string reads as a duration exactly when the validator accepts it, and the duration's stored string is that string |
| Durations.ParseValueString | pages/index.tsx:18-26 | every duration's stored string passes the validator and reads back as the same duration |
| Durations.SelectDuration | pages/index.tsx:259-264 | the select handler adopts exactly the values the validator accepts; any other value leaves the selection unchanged |
| Durations.DurationText | pages/index.tsx:301-304 | the listing text is `next workday` for the sentinel and "N hour" plus "s" unless N is 1 ("1 hour", "2 hours") for an hour count; it starts with the stored value |
| Durations.DurationTextInjective | pages/index.tsx:301-304 | different durations get different listing texts |
| Ledger.FoldFrom | pages/index.tsx:111-115 | `FoldFrom` with step `Step` is the reserved-hours reduce (`ReservedHours` starts it at 0); it reaches at least 8 once a `next workday` entry occurs; without one it grows by at least one per entry |
| Ledger.FoldConcat | pages/index.tsx:111-115 | reducing a concatenation equals reducing the second part from the first part's total |
| Ledger.ReservedHoursAppend | pages/index.tsx:91-95 | appending a reservation changes the reserved hours by exactly one reduce step |
| Ledger.FoldWithoutNextWorkday | pages/index.tsx:111-115 | without a `next workday` entry the reduce adds the sum of the hour counts to its start value |
| Ledger.ReservedHoursIsSum | pages/index.tsx:91-95 | without a `next workday` entry a day's reserved hours equal the sum of its hour counts |
| Ledger.ReservedHoursRestarts | pages/index.tsx:99-103 | a `next workday` entry discards all earlier entries: `ReservedHours` restarts at 8 from that point |
| Ledger.ReservedHoursAfterLastNextWorkday | pages/index.tsx:111-115 | after the last `next workday` entry, later hours add on top of 8, with no clamping |
| Ledger.TileFoldCharacterized | pages/index.tsx:188-191 | `TileFoldFrom` with step `AddParsed` (the calendar's `acc + parseInt` reduce) is NaN exactly when the start is NaN or a `next workday` entry occurs; otherwise it is start plus the hour sum |
| Ledger.TileSumCharacterized | pages/index.tsx:234-237 | `TileSum`, the calendar's plain sum of a day, is NaN when it holds a `next workday` entry, and the sum of its hour counts otherwise |
| DurationOptions.ClockHours | pages/index.tsx:123-128 | the hour interval lists every whole hour from start to end, ascending, with both ends included |
| DurationOptions.DayInterval | pages/index.tsx:122-129 | with h hours reserved, the option interval runs from 9+h to 17 and has 9−h entries |
| DurationOptions.DayOptions | pages/index.tsx:276-283 | `OfferedDurations` of the day's interval: with h hours reserved, the offered durations are 1..8−h hours in ascending order and then `next workday`; an hour count is offered exactly when it fits in the rest of the day |
| DurationOptions.RenderedOptions | pages/index.tsx:276-283 | each rendered option's value reads as the offered duration at its position, and its label (`HourLabel` for hour counts) is that duration's listing text ("1 hour", "N hours", "next workday") |
| DurationOptions.RefreshForm | pages/index.tsx:106-131 | with no day selected the form is untouched; otherwise the options are those for the day's reserved hours, and the duration resets to 1 hour, which is offered exactly when the day is not full |
| Booking.SubmitDisabled | pages/index.tsx:86-95 | over `SelectedDay` (the selected day's list, empty with no day), the button is disabled exactly when the name is empty, the name is already booked that day, or the day's reserved hours reach 8; an absent day counts as empty |
| Booking.InputDisabled | pages/index.tsx:97-104 | the inputs are disabled exactly when no day is selected or the day's reserved hours reach 8; a `next workday` entry always disables them |
| Booking.Submit | pages/index.tsx:65-80 | with a day selected and a new name, the reservation becomes the last entry of that day's list, created if absent, and every other day is unchanged; with no day or a taken name the map is unchanged |
| Booking.SubmitPreservesUniqueNames | pages/index.tsx:72-78 | submitting never gives one day two reservations under the same name |
| Booking.SubmitTwiceIsOnce | pages/index.tsx:72-73 | submitting the same name for the same day a second time changes nothing, whatever the duration |
| Booking.SubmitAdvancesReservedHours | pages/index.tsx:75-78 | an accepted submission advances the day's reserved hours by one reduce step |
| Booking.FullDayStaysFull | pages/index.tsx:86-104 | a day whose reserved hours reach 8 stays so after any submission, so its inputs and its button stay disabled for every name |
| Booking.NextWorkdayClosesDay | pages/index.tsx:86-104 | after a `next workday` booking the day's inputs and button are disabled for every name |
| Booking.GatedSubmitWithinCapacity | pages/index.tsx:86-95 | a submission through an enabled button, with an offered duration, keeps every day within 8 reserved hours, and an hour booking adds exactly its count |
| CalendarTiles.TileFullAgreesWithFold | pages/index.tsx:230-237 | the tile's full-day test (a `next workday` entry, or a plain sum of at least 8) agrees with the form's reserved-hours test on every list |
| CalendarTiles.DayReserved | pages/index.tsx:230-237 | a tile's day counts as reserved exactly when the form's reserved hours for it reach 8; an absent day does not |
| CalendarTiles.TileDisabled | pages/index.tsx:220-240 | a tile is disabled exactly when it is a weekend, full, or before `now` (less a day unless `PassedWorkingHours` of the load hour holds, i.e. loaded at or after 17:00); any earlier day is disabled, today closes exactly when loaded at or after 17:00, and a later open weekday is enabled |
| CalendarTiles.TileHint | pages/index.tsx:180-219 | a hint shows exactly for a month-view day with reservations and carries their count; it is unshaded exactly when not hovered and the day is full, and the count text shows only while the page-wide hover flag is set, which applies to every hinted tile at once |
| SeedData.SeedNovember9 | pages/index.tsx:42-52 | the seeded 9 November has 3 reserved hours; the button is disabled for John Doe and enabled for a new name |
| SeedData.SeedNovember24Options | pages/index.tsx:53-58 | the seeded 24 November has 7 reserved hours and offers only "1 hour" and "next workday" |
| SeedData.BookingScenario | pages/index.tsx:42-52 | booking John Doe for 1 hour and then Jane Doe for 2 hours on an empty 9 November gives the seeded list |
| SeedData.SubmitDoesNotCheckCapacity | pages/index.tsx:65-80 | the submit handler accepts 2 more hours on a 7-hour day, giving 9 |
| SeedData.ResetIsNotClamped | pages/index.tsx:91-95 | `next workday` followed by 3 hours gives 11 reserved hours |

## Left out

- React rendering, state hooks, the hover flag's event wiring, the `Calendar` widget, `Head`, `Image` and the avatar URLs: presentation. The hover flag is a parameter of `TileHint`.
- The tile's green alpha `length / 10`: floating-point styling. `Occupied(count)` stands for it.
- `console.log` of the reserved hours: output only.
- date-fns `format`, `startOfDay`, `add` and `eachHourOfInterval`: library calls. Days are `DateKey`s, weekdays and tile instants are given, and the interval is modelled on whole clock hours.
- DurationOptions.ClockHours: requires start ≤ end. The library rejects a reversed interval, so more than 8 reserved hours on a selected day (unreachable through the enabled controls) is not modelled.
- The module-level `new Date()` and the render-time `new Date()`: clocks. The load hour and `now` are parameters.
- Commented-out code and the unused `initialWorkHours`/`workingHours` state: they do not affect behaviour.
- The duplicate check in the submit handler reads the rendered state, and the append uses the updater's `prev`. The model runs submissions one after another, so the two are the same state. Batched updates are not modelled.
- Persistence, concurrency, and rejection reasons the code does not have.
