/**
 * The reservation map of the booking page and the reduces it computes over a
 * day's list: the form's reserved-hours fold, where a "next workday" entry
 * resets the running total to a full day, and the calendar's plain sum, where
 * parsing the sentinel yields NaN.
 */
module Ledger {
  import opened Wrappers
  import opened Durations

  /** A calendar day; stands for the page's 'yyyy-MM-dd' key string. */
  datatype DateKey = DateKey(year: int, month: int, day: int)

  datatype Reservation = Reservation(name: string, duration: Duration)

  /** Every day's reservations, in booking order. */
  type Reservations = map<DateKey, seq<Reservation>>

  /** A day's list, with an absent key read as the empty list (`reservations[k] || []`). */
  function DayList(m: Reservations, key: DateKey): seq<Reservation>
  {
    if key in m then m[key] else []
  }

  /** Some reservation on the list is held under `name` (`find` by name is truthy). */
  predicate NameTaken(rs: seq<Reservation>, name: string)
  {
    exists i :: 0 <= i < |rs| && rs[i].name == name
  }

  /** Some reservation on the list is for the next workday (`some` on the sentinel). */
  predicate HasNextWorkday(rs: seq<Reservation>)
  {
    exists i :: 0 <= i < |rs| && rs[i].duration.NextWorkday?
  }

  /** One step of the reserved-hours reduce: the sentinel resets to a full day. */
  function Step(acc: nat, r: Reservation): nat
  {
    match r.duration
    case NextWorkday => WorkdayHours
    case Hours(n) => acc + n
  }

  /** The reserved-hours reduce, left to right from the accumulator `acc`. */
  function FoldFrom(acc: nat, rs: seq<Reservation>): (total: nat)
    ensures HasNextWorkday(rs) ==> total >= WorkdayHours
    ensures !HasNextWorkday(rs) ==> total >= acc + |rs|
    decreases |rs|
  {
    if |rs| == 0 then acc
    else
      var rest := rs[1..];
      assert forall i :: 0 <= i < |rest| ==> rest[i] == rs[i + 1];
      assert HasNextWorkday(rs) <==> rs[0].duration.NextWorkday? || HasNextWorkday(rest);
      FoldFrom(Step(acc, rs[0]), rest)
  }

  /** The hours a day's list has reserved, as the form computes them. */
  function ReservedHours(rs: seq<Reservation>): nat
  {
    FoldFrom(0, rs)
  }

  /** Reference definition: the sum of the numeric durations on a list. */
  function SumOfHours(rs: seq<Reservation>): nat
  {
    if |rs| == 0 then 0
    else (if rs[0].duration.Hours? then rs[0].duration.n else 0) + SumOfHours(rs[1..])
  }

  /** Folding a concatenation folds the second part from the first part's total. */
  lemma {:induction false} FoldConcat(acc: nat, p: seq<Reservation>, q: seq<Reservation>)
    ensures FoldFrom(acc, p + q) == FoldFrom(FoldFrom(acc, p), q)
    decreases |p|
  {
    if |p| == 0 {
      assert p + q == q;
    } else {
      assert (p + q)[1..] == p[1..] + q;
      FoldConcat(Step(acc, p[0]), p[1..], q);
    }
  }

  /** Appending a reservation advances the reserved hours by one reduce step. */
  lemma ReservedHoursAppend(rs: seq<Reservation>, r: Reservation)
    ensures ReservedHours(rs + [r]) == Step(ReservedHours(rs), r)
  {
    FoldConcat(0, rs, [r]);
  }

  /** Without the sentinel the reduce just adds every hour count to `acc`. */
  lemma {:induction false} FoldWithoutNextWorkday(acc: nat, rs: seq<Reservation>)
    requires !HasNextWorkday(rs)
    ensures FoldFrom(acc, rs) == acc + SumOfHours(rs)
    decreases |rs|
  {
    if |rs| > 0 {
      assert rs[0].duration.Hours?;
      assert forall i :: 0 <= i < |rs[1..]| ==> rs[1..][i] == rs[i + 1];
      FoldWithoutNextWorkday(acc + rs[0].duration.n, rs[1..]);
    }
  }

  /** With no "next workday" entry, the reserved hours are the sum of the hour counts. */
  lemma ReservedHoursIsSum(rs: seq<Reservation>)
    requires !HasNextWorkday(rs)
    ensures ReservedHours(rs) == SumOfHours(rs)
  {
    FoldWithoutNextWorkday(0, rs);
  }

  /** A "next workday" entry discards everything booked before it: the reduce restarts at a full day. */
  lemma ReservedHoursRestarts(p: seq<Reservation>, r: Reservation, q: seq<Reservation>)
    requires r.duration.NextWorkday?
    ensures ReservedHours(p + [r] + q) == FoldFrom(WorkdayHours, q)
  {
    FoldConcat(0, p + [r], q);
    ReservedHoursAppend(p, r);
  }

  /**
   * After the last "next workday" entry, the hours booked later add on top of
   * a full day: the total is never clamped.
   */
  lemma ReservedHoursAfterLastNextWorkday(p: seq<Reservation>, r: Reservation, q: seq<Reservation>)
    requires r.duration.NextWorkday? && !HasNextWorkday(q)
    ensures ReservedHours(p + [r] + q) == WorkdayHours + SumOfHours(q)
  {
    ReservedHoursRestarts(p, r, q);
    FoldWithoutNextWorkday(WorkdayHours, q);
  }

  /**
   * `parseInt` of a stored duration: the hour count, or NaN (None) for the
   * sentinel; NaN absorbs every later addition.
   */
  function AddParsed(acc: Option<nat>, r: Reservation): Option<nat>
  {
    match (acc, r.duration)
    case (Some(a), Hours(n)) => Some(a + n)
    case _ => None
  }

  /** The calendar tile's reduce, `acc + parseInt(duration)` from `acc`. */
  function TileFoldFrom(acc: Option<nat>, rs: seq<Reservation>): Option<nat>
    decreases |rs|
  {
    if |rs| == 0 then acc else TileFoldFrom(AddParsed(acc, rs[0]), rs[1..])
  }

  /** The calendar tile's plain sum of a day's list. */
  function TileSum(rs: seq<Reservation>): Option<nat>
  {
    TileFoldFrom(Some(0), rs)
  }

  /** The tile's reduce is NaN exactly when the sentinel occurs, else the plain sum. */
  lemma {:induction false} TileFoldCharacterized(acc: Option<nat>, rs: seq<Reservation>)
    ensures TileFoldFrom(acc, rs) ==
      if acc.None? || HasNextWorkday(rs) then None else Some(acc.value + SumOfHours(rs))
    decreases |rs|
  {
    if |rs| > 0 {
      var rest := rs[1..];
      assert forall i :: 0 <= i < |rest| ==> rest[i] == rs[i + 1];
      assert HasNextWorkday(rs) <==> rs[0].duration.NextWorkday? || HasNextWorkday(rest);
      TileFoldCharacterized(AddParsed(acc, rs[0]), rest);
    }
  }

  /** The tile's sum of a day's list: NaN with the sentinel, the hour sum without. */
  lemma TileSumCharacterized(rs: seq<Reservation>)
    ensures TileSum(rs) == if HasNextWorkday(rs) then None else Some(SumOfHours(rs))
  {
    TileFoldCharacterized(Some(0), rs);
  }
}
