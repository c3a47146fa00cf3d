/**
 * Reservation durations of the booking page: a whole number of hours from 1
 * to 8, or the "next workday" sentinel, together with the strings the page
 * stores, offers and shows for them.
 */
module Durations {
  import opened Wrappers

  /** Capacity of one working day (09:00 to 17:00) in hours. */
  const WorkdayHours: nat := 8

  /** The hour counts a duration string may name. */
  type HourCount = n: int | 1 <= n <= 8 witness 1

  datatype Duration = Hours(n: HourCount) | NextWorkday

  /** The sentinel string, used both as stored value and as label. */
  const NextWorkdayValue: string := "next workday"

  /** The strings the validator accepts, in the order the source lists them. */
  const DurationStrings: seq<string> :=
    ["1", "2", "3", "4", "5", "6", "7", "8", NextWorkdayValue]

  /** The decimal digit character of a value 0..9. */
  function Digit(n: int): (c: char)
    requires 0 <= n <= 9
    ensures '0' <= c <= '9' && c as int - '0' as int == n
  {
    ('0' as int + n) as char
  }

  /** Decimal rendering of a natural number, as a template literal prints it. */
  function NatToString(n: nat): string
  {
    if n < 10 then [Digit(n)] else NatToString(n / 10) + [Digit(n % 10)]
  }

  /** The string the page stores for a duration. */
  function ValueString(d: Duration): string
  {
    match d
    case Hours(n) => NatToString(n)
    case NextWorkday => NextWorkdayValue
  }

  /** The duration-string validator: membership of the nine literal strings. */
  predicate IsDuration(s: string)
  {
    s in DurationStrings
  }

  /** The validator accepts exactly one digit 1..8 or the sentinel, nothing else. */
  lemma {:induction false} IsDurationExactly(s: string)
    ensures IsDuration(s) <==> s == NextWorkdayValue || (|s| == 1 && '1' <= s[0] <= '8')
  {
    if |s| == 1 && '1' <= s[0] <= '8' {
      var k := s[0] as int - '0' as int;
      assert s == DurationStrings[k - 1];
    }
  }

  /**
   * Reads a validated string as a duration: the type narrowing `isDuration`
   * performs, with `parseInt` giving the hour count of a digit string.
   */
  function ParseDuration(s: string): (r: Option<Duration>)
    ensures r.Some? <==> IsDuration(s)
    ensures r.Some? ==> ValueString(r.value) == s
  {
    IsDurationExactly(s);
    if s == NextWorkdayValue then Some(NextWorkday)
    else if |s| == 1 && '1' <= s[0] <= '8' then Some(Hours(s[0] as int - '0' as int))
    else None
  }

  /** Every duration's stored string reads back as that same duration. */
  lemma ParseValueString(d: Duration)
    ensures IsDuration(ValueString(d))
    ensures ParseDuration(ValueString(d)) == Some(d)
  {
  }

  /**
   * The `<select>` change handler: a value passing the validator becomes the
   * selected duration, anything else leaves the selection as it was.
   */
  function SelectDuration(current: Duration, value: string): (d: Duration)
    ensures IsDuration(value) ==> ValueString(d) == value
    ensures !IsDuration(value) ==> d == current
  {
    match ParseDuration(value)
    case Some(parsed) => parsed
    case None => current
  }

  /** The schedule listing's text for a duration. */
  function DurationText(d: Duration): (t: string)
    ensures |ValueString(d)| <= |t| && t[..|ValueString(d)|] == ValueString(d)
    ensures d.Hours? ==> (t[|t| - 1] == 's' <==> d.n != 1)
    ensures d.NextWorkday? ==> t == NextWorkdayValue
    ensures d.Hours? ==> t == NatToString(d.n) + " hour" + (if d.n == 1 then "" else "s")
  {
    if d.NextWorkday? then NextWorkdayValue
    else ValueString(d) + " " + (if ValueString(d) == "1" then "hour" else "hours")
  }

  /** Distinct durations are listed with distinct texts. */
  lemma DurationTextInjective(d1: Duration, d2: Duration)
    requires DurationText(d1) == DurationText(d2)
    ensures d1 == d2
  {
  }
}
