// daysBetween from src/lib/time.ts, on integer millisecond timestamps.

module Time {

  /** The number of milliseconds in one day. */
  const OneDay: nat := 1000 * 60 * 60 * 24

  function Abs(x: int): (a: nat)
    ensures a == x || a == -x
  {
    if x < 0 then -x else x
  }

  /** daysBetween: the distance between two timestamps in days, rounded
      to the nearest whole day with halves rounded up (Math.round on a
      non-negative quotient). */
  function DaysBetween(date1: int, date2: int): (days: nat)
    ensures days * OneDay <= Abs(date1 - date2) + OneDay / 2 < (days + 1) * OneDay
  {
    (Abs(date1 - date2) + OneDay / 2) / OneDay
  }

  /** The rounding bracket has only one solution, so the contract of
      DaysBetween pins its result down. */
  lemma {:induction false} NearestDay(date1: int, date2: int, n: int)
    requires n * OneDay <= Abs(date1 - date2) + OneDay / 2 < (n + 1) * OneDay
    ensures n == DaysBetween(date1, date2)
  {
    var d := DaysBetween(date1, date2);
    if n < d {
      Scale(n + 1, d);
    } else if n > d {
      Scale(d + 1, n);
    }
  }

  lemma {:induction false} Scale(a: int, b: int)
    requires a <= b
    ensures a * OneDay <= b * OneDay
  {
  }

  /** The order of the two timestamps does not matter. */
  lemma {:induction false} DaysBetweenSymmetric(date1: int, date2: int)
    ensures DaysBetween(date1, date2) == DaysBetween(date2, date1)
  {
    assert Abs(date1 - date2) == Abs(date2 - date1);
  }

  /** A timestamp is no day away from itself. */
  lemma {:induction false} SameDay(date: int)
    ensures DaysBetween(date, date) == 0
  {
  }

  /** Timestamps exactly k days apart are k days apart. */
  lemma {:induction false} WholeDays(date: int, k: nat)
    ensures DaysBetween(date + k * OneDay, date) == k
  {
    assert Abs(date + k * OneDay - date) == k * OneDay;
    NearestDay(date + k * OneDay, date, k);
  }
}
