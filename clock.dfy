/**
 * The clock gate of the voice module: whether the local wall-clock time lies
 * in the night window 02:00 to 07:00, during which a connection is kept
 * indefinitely.
 */
module Clock {

  /** A local time of day as Python's `datetime.time` holds it (no tzinfo). */
  datatype TimeOfDay = TimeOfDay(hour: nat, minute: nat, second: nat, microsecond: nat)

  predicate WellFormed(t: TimeOfDay) {
    t.hour < 24 && t.minute < 60 && t.second < 60 && t.microsecond < 1000000
  }

  type Time = t: TimeOfDay | WellFormed(t) witness TimeOfDay(0, 0, 0, 0)

  /** `a < b` between two `datetime.time` values: field by field, hour first. */
  predicate Before(a: Time, b: Time) {
    a.hour < b.hour
    || (a.hour == b.hour && (a.minute < b.minute
    || (a.minute == b.minute && (a.second < b.second
    || (a.second == b.second && a.microsecond < b.microsecond)))))
  }

  /** Whole seconds since midnight, the view in which the window is 7200 to 25200. */
  function SecondOfDay(t: Time): (n: nat)
    ensures n < 86400
  {
    t.hour * 3600 + t.minute * 60 + t.second
  }

  /** Microseconds since midnight. */
  function MicroOfDay(t: Time): (n: nat)
    ensures n == SecondOfDay(t) * 1000000 + t.microsecond
    ensures n < 86400000000
  {
    t.hour * 3600000000 + t.minute * 60000000 + t.second * 1000000 + t.microsecond
  }

  const NightStart: Time := TimeOfDay(2, 0, 0, 0)
  const NightEnd: Time := TimeOfDay(7, 0, 0, 0)

  /** `in_night_window`: `dtime(2, 0) <= now < dtime(7, 0)`. The window is a
      plain interval and does not wrap past midnight: it holds exactly
      during the hours 02 to 06. */
  predicate InNightWindow(now: Time)
    ensures InNightWindow(now) <==> 2 <= now.hour < 7
  {
    !Before(now, NightStart) && Before(now, NightEnd)
  }

  /** The comparison of `datetime.time` values is the order of the instants of
      the day they name. */
  lemma {:induction false} BeforeIsChronological(a: Time, b: Time)
    ensures Before(a, b) <==> MicroOfDay(a) < MicroOfDay(b)
  {
    var ra := a.minute * 60000000 + a.second * 1000000 + a.microsecond;
    var rb := b.minute * 60000000 + b.second * 1000000 + b.microsecond;
    assert ra < 3600000000 && rb < 3600000000;
    if a.hour != b.hour {
      assert MicroOfDay(a) == a.hour * 3600000000 + ra;
      assert MicroOfDay(b) == b.hour * 3600000000 + rb;
    } else if a.minute != b.minute {
      assert a.second * 1000000 + a.microsecond < 60000000;
      assert b.second * 1000000 + b.microsecond < 60000000;
    }
  }

  /** The window is the half-open interval of instants from its start to its end. */
  lemma NightWindowIsInterval(now: Time)
    ensures InNightWindow(now) <==> MicroOfDay(NightStart) <= MicroOfDay(now) < MicroOfDay(NightEnd)
  {
    BeforeIsChronological(now, NightStart);
    BeforeIsChronological(now, NightEnd);
  }

  /** The same window stated on whole seconds since midnight: from 7200 up to,
      but not including, 25200. */
  lemma NightWindowSeconds(now: Time)
    ensures InNightWindow(now) <==> 7200 <= SecondOfDay(now) < 25200
  {
  }

  /** Midnight and the last instant of the day are both outside the window. */
  lemma NightWindowDoesNotWrap()
    ensures !InNightWindow(TimeOfDay(0, 0, 0, 0))
    ensures !InNightWindow(TimeOfDay(23, 59, 59, 999999))
  {
  }
}
