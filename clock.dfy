/**
 * Wall-clock times of a study-timer session and the length of the session.
 *
 * A timer record stores its start and end as "HH:MM" strings; the handler splits
 * them at the colon and reads both parts as integers. A `ClockTime` is that pair of
 * integers. Nothing in the handler checks the ranges, so a `ClockTime` may hold any
 * integers; `WellFormed` says when it is a real time of day.
 */
module Clock {

  datatype ClockTime = ClockTime(hour: int, minute: int)

  /** Minutes in a day: what is added when a session's end precedes its start. */
  const MinutesPerDay: int := 24 * 60

  /** Hours 0 to 23 and minutes 0 to 59. */
  predicate WellFormed(t: ClockTime) {
    0 <= t.hour < 24 && 0 <= t.minute < 60
  }

  /** Minutes since midnight: hours times sixty plus minutes. */
  function MinuteOfDay(t: ClockTime): (m: int)
    ensures WellFormed(t) ==> 0 <= m < MinutesPerDay
  {
    t.hour * 60 + t.minute
  }

  /**
   * Length in minutes of a timer session from `start` to `end`. A negative
   * difference is read as a session that crossed midnight, so one day is added;
   * equal clock times give 0, never a full day.
   */
  function ElapsedMinutes(start: ClockTime, end: ClockTime): (d: int)
    ensures MinuteOfDay(end) - MinuteOfDay(start) < 0 ==> d == MinuteOfDay(end) - MinuteOfDay(start) + MinutesPerDay
    ensures MinuteOfDay(end) - MinuteOfDay(start) >= 0 ==> d == MinuteOfDay(end) - MinuteOfDay(start)
  {
    var diff := MinuteOfDay(end) - MinuteOfDay(start);
    if diff < 0 then diff + MinutesPerDay else diff
  }

  /** The time of day `d` minutes after `t`, on a 24-hour dial. */
  function Advance(t: ClockTime, d: int): (r: ClockTime)
    ensures WellFormed(r)
  {
    var m := (MinuteOfDay(t) + d) % MinutesPerDay;
    ClockTime(m / 60, m % 60)
  }

  /** A well-formed time is determined by its minute of the day. */
  lemma {:induction false} MinuteOfDayInjective(s: ClockTime, t: ClockTime)
    requires WellFormed(s) && WellFormed(t)
    ensures MinuteOfDay(s) == MinuteOfDay(t) <==> s == t
  {
    DivModUnique(MinuteOfDay(s), 60, s.hour, s.minute);
    DivModUnique(MinuteOfDay(t), 60, t.hour, t.minute);
  }

  /** Reading a minute of the day back as hours and minutes gives the time again. */
  lemma {:induction false} ClockOfMinuteOfDay(t: ClockTime)
    requires WellFormed(t)
    ensures ClockTime(MinuteOfDay(t) / 60, MinuteOfDay(t) % 60) == t
  {
    DivModUnique(MinuteOfDay(t), 60, t.hour, t.minute);
  }

  /** A smaller quotient gives a smaller number, whatever the remainders. */
  lemma {:induction false} QuotientDominates(a: int, b: int, n: int, r1: int, r2: int)
    requires a < b && n > 0 && 0 <= r1 < n && 0 <= r2
    ensures a * n + r1 < b * n + r2
  {
    var k := b - a - 1;
    ProductNonNegative(k, n);
    assert b * n == a * n + k * n + n;
  }

  lemma {:induction false} ProductNonNegative(k: nat, n: nat)
    ensures k * n >= 0
  {
    if k > 0 {
      ProductNonNegative(k - 1, n);
      assert k * n == (k - 1) * n + n;
    }
  }

  /** Quotient and remainder are the only ones that rebuild `m`. */
  lemma {:induction false} DivModUnique(m: int, n: int, q: int, r: int)
    requires n > 0 && m == q * n + r && 0 <= r < n
    ensures m / n == q && m % n == r
  {
    var q', r' := m / n, m % n;
    assert m == q' * n + r' && 0 <= r' < n;
    if q' != q {
      if q' < q { QuotientDominates(q', q, n, r', r); } else { QuotientDominates(q, q', n, r, r'); }
      assert false;
    }
  }

  /** For well-formed times a session lasts less than a day, and exactly the
      sessions that start and end at the same clock time last 0 minutes. */
  lemma {:induction false} ElapsedWithinDay(start: ClockTime, end: ClockTime)
    requires WellFormed(start) && WellFormed(end)
    ensures 0 <= ElapsedMinutes(start, end) < MinutesPerDay
    ensures ElapsedMinutes(start, end) == 0 <==> start == end
  {
    MinuteOfDayInjective(start, end);
  }

  /** For well-formed times the session length is the forward distance on the
      24-hour dial: the difference of the minutes reduced modulo one day. */
  lemma {:induction false} ElapsedIsForwardDistance(start: ClockTime, end: ClockTime)
    requires WellFormed(start) && WellFormed(end)
    ensures ElapsedMinutes(start, end) == (MinuteOfDay(end) - MinuteOfDay(start)) % MinutesPerDay
  {
    var diff := MinuteOfDay(end) - MinuteOfDay(start);
    if diff < 0 {
      DivModUnique(diff, MinutesPerDay, -1, diff + MinutesPerDay);
    } else {
      DivModUnique(diff, MinutesPerDay, 0, diff);
    }
  }

  /** Advancing the start time by the session length lands on the end time:
      the length is what the clock moved, crossing midnight at most once. */
  lemma {:induction false} AdvanceByElapsed(start: ClockTime, end: ClockTime)
    requires WellFormed(start) && WellFormed(end)
    ensures Advance(start, ElapsedMinutes(start, end)) == end
  {
    var d := ElapsedMinutes(start, end);
    var total := MinuteOfDay(start) + d;
    if MinuteOfDay(end) - MinuteOfDay(start) < 0 {
      DivModUnique(total, MinutesPerDay, 1, MinuteOfDay(end));
    } else {
      DivModUnique(total, MinutesPerDay, 0, MinuteOfDay(end));
    }
    ClockOfMinuteOfDay(end);
  }

  /** The minute of the day reached by `Advance` is the sum reduced modulo one day. */
  lemma {:induction false} MinuteOfAdvance(t: ClockTime, d: int)
    ensures MinuteOfDay(Advance(t, d)) == (MinuteOfDay(t) + d) % MinutesPerDay
  {
    var m := (MinuteOfDay(t) + d) % MinutesPerDay;
    assert m == (m / 60) * 60 + m % 60;
  }

  /** Any length that advances the start to the end within one day is the
      session length: the heuristic picks the shortest forward reading. */
  lemma {:induction false} ElapsedIsOnlyForwardReading(start: ClockTime, end: ClockTime, d: int)
    requires WellFormed(start) && WellFormed(end)
    requires 0 <= d < MinutesPerDay && Advance(start, d) == end
    ensures d == ElapsedMinutes(start, end)
  {
    var e := ElapsedMinutes(start, end);
    ElapsedWithinDay(start, end);
    AdvanceByElapsed(start, end);
    MinuteOfAdvance(start, d);
    MinuteOfAdvance(start, e);
    SameResidueInDay(MinuteOfDay(start) + d, MinuteOfDay(start) + e);
  }

  lemma {:induction false} SameResidueInDay(x: int, y: int)
    requires 0 <= x < 2 * MinutesPerDay && 0 <= y < 2 * MinutesPerDay
    requires x % MinutesPerDay == y % MinutesPerDay
    ensures x == y || x - y == MinutesPerDay || y - x == MinutesPerDay
  {
    if x < MinutesPerDay { DivModUnique(x, MinutesPerDay, 0, x); } else { DivModUnique(x, MinutesPerDay, 1, x - MinutesPerDay); }
    if y < MinutesPerDay { DivModUnique(y, MinutesPerDay, 0, y); } else { DivModUnique(y, MinutesPerDay, 1, y - MinutesPerDay); }
  }
}
