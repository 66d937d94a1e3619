/** The wake-up arithmetic of the scheduler loop. */
module Scheduler {
  import opened Calendar

  /** `3600 - (minute * 60 + second)`, at least one. */
  function SecondsToNextHour(now: Time): int {
    var c := CivilOf(now);
    var s: int := 3600 - (c.minute * 60 + c.second);
    if s < 1 then 1 else s
  }

  /** The earliest instant at which the sleep started at `now` can end. */
  function WakeAt(now: Time): int { now + SecondsToNextHour(now) * SECOND }

  lemma MinuteAndSecond(r: nat)
    requires r < HOUR
    ensures r / MINUTE * 60 + r % MINUTE / SECOND == r / SECOND < 3600
  {
  }

  lemma HourInDay(t: Time)
    ensures t % DAY % HOUR == t % HOUR
  {
    var d, r := t / DAY, t % DAY;
    QuotientIs(t, HOUR, d * 24 + r / HOUR, r % HOUR);
  }

  /** The sleep is between one second and one hour and ends in the first second of the following hour, at
      the sub-second part of the clock; no smaller number of seconds reaches that hour. */
  lemma SleepReachesNextHour(now: Time)
    ensures 1 <= SecondsToNextHour(now) <= 3600
    ensures WakeAt(now) >= 0 && HourOf(WakeAt(now)) == HourOf(now) + 1
    ensures WakeAt(now) == (now / 3_600_000_000_000 + 1) * 3_600_000_000_000 + now % 1_000_000_000
    ensures forall k: int :: k < SecondsToNextHour(now) ==>
              now + k * 1_000_000_000 < (now / 3_600_000_000_000 + 1) * 3_600_000_000_000
  {
    HourInDay(now);
    var r := now % HOUR;
    MinuteAndSecond(r);
    assert SecondsToNextHour(now) == 3600 - r / SECOND;
    assert r == r / SECOND * SECOND + r % SECOND;
    QuotientIs(WakeAt(now), HOUR, now / HOUR + 1, r % SECOND);
    SecondInHour(now);
    assert WakeAt(now) == (now / HOUR + 1) * HOUR + now % SECOND;
  }

  lemma SecondInHour(t: Time)
    ensures t % HOUR % SECOND == t % SECOND
  {
    var h, r := t / HOUR, t % HOUR;
    QuotientIs(t, SECOND, h * 3600 + r / SECOND, r % SECOND);
  }

  lemma HoursGrow(t: Time, u: Time)
    requires t <= u
    ensures HourOf(t) <= HourOf(u)
  {
  }

  lemma HourBeforeSecond(t: Time, u: Time)
    requires HourOf(t) < HourOf(u)
    ensures t < u && Seconds(t) < Seconds(u)
  {
    assert t / HOUR * HOUR + HOUR <= u / HOUR * HOUR;
    assert Seconds(t) / 3600 == HourOf(t) && Seconds(u) / 3600 == HourOf(u);
  }
}
