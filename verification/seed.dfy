/**
 * The reservations the page starts with, and the concrete outcomes the rules
 * give on them.
 */
module SeedData {
  import opened Wrappers
  import opened Durations
  import opened Ledger
  import opened DurationOptions
  import opened Booking
  import opened CalendarTiles

  const November9: DateKey := DateKey(2022, 11, 9)
  const November24: DateKey := DateKey(2022, 11, 24)

  const November9List: seq<Reservation> :=
    [Reservation("John Doe", Hours(1)), Reservation("Jane Doe", Hours(2))]

  /** The initial reservation state of the page. */
  const Seed: Reservations :=
    map[November9 := November9List,
        November24 := [Reservation("John Doe", Hours(7))]]

  /** The seeded 9 November holds three hours; its form stays open to new names only. */
  lemma SeedNovember9()
    ensures ReservedHours(DayList(Seed, November9)) == 3
    ensures SubmitDisabled("John Doe", Hours(1), Some(November9), Seed)
    ensures !SubmitDisabled("Ann", Hours(1), Some(November9), Seed)
  {
  }

  /** The seeded 24 November has seven hours taken: only "1 hour" and "next workday" are offered. */
  lemma SeedNovember24Options()
    ensures ReservedHours(DayList(Seed, November24)) == 7
    ensures DayOptions(7) == [Hours(1), NextWorkday]
    ensures RenderedOptions(DayInterval(7))
            == [SelectOption("1", "1 hour"), SelectOption("next workday", "next workday")]
  {
    var r := RenderedOptions(DayInterval(7));
    assert |r| == 2;
    assert ValueString(Hours(1)) == "1" && DurationText(Hours(1)) == "1 hour";
    assert r[0].text == DurationText(Hours(1)) && r[0].value == ValueString(Hours(1));
    assert r[1].text == DurationText(NextWorkday) && r[1].value == ValueString(NextWorkday);
  }

  /** Booking John Doe then Jane Doe on an empty 9 November reproduces the seeded day. */
  lemma BookingScenario()
    ensures Submit(Submit(map[], Some(November9), "John Doe", Hours(1)),
                   Some(November9), "Jane Doe", Hours(2))
            == map[November9 := November9List]
  {
    var m1 := Submit(map[], Some(November9), "John Doe", Hours(1));
    assert m1 == map[November9 := [Reservation("John Doe", Hours(1))]];
    assert !NameTaken(DayList(m1, November9), "Jane Doe");
    var m2 := Submit(m1, Some(November9), "Jane Doe", Hours(2));
    assert m2.Keys == {November9};
    assert m2[November9] == November9List;
  }

  /** The submit handler itself does not check capacity: two more hours on 24 November make nine. */
  lemma SubmitDoesNotCheckCapacity()
    ensures ReservedHours(DayList(Submit(Seed, Some(November24), "Ann", Hours(2)), November24)) == 9
  {
    assert !NameTaken(DayList(Seed, November24), "Ann");
    SubmitAdvancesReservedHours(Seed, November24, "Ann", Hours(2));
  }

  /** The reset to a full day is not a clamp: hours booked after the sentinel add on top. */
  lemma ResetIsNotClamped()
    ensures ReservedHours([Reservation("Ann", NextWorkday), Reservation("Bob", Hours(3))]) == 11
  {
  }
}
