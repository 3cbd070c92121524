/** Datetimes and times of day. A datetime is a whole number of seconds from
    a midnight; a time of day is a number of seconds since midnight. This is
    how the model reads Python's naive `datetime`, `time`, `datetime.date()`,
    `datetime.time()` and `datetime.combine`. */
module Clock {
  import opened Results
  import opened Text

  const SecondsPerDay: int := 86400

  type TimeOfDay = t: int | 0 <= t < SecondsPerDay

  /** The calendar day of a datetime, as a day index (`dt.date()`). */
  function DateOf(dt: int): int { dt / SecondsPerDay }

  /** The time of day of a datetime (`dt.time()`). */
  function TimeOf(dt: int): TimeOfDay { dt % SecondsPerDay }

  /** `datetime.combine(day, t)`. */
  function Combine(day: int, t: TimeOfDay): (dt: int)
    ensures DateOf(dt) == day && TimeOf(dt) == t
  {
    day * SecondsPerDay + t
  }

  lemma {:induction false} Decompose(dt: int)
    ensures Combine(DateOf(dt), TimeOf(dt)) == dt
  {
  }

  /** A datetime lies in `[combine(day, s), combine(day, e))` exactly when it
      falls on `day` and its time of day lies in `[s, e)`. */
  lemma InDayWindow(day: int, s: TimeOfDay, e: TimeOfDay, dt: int)
    ensures Combine(day, s) <= dt < Combine(day, e)
        <==> DateOf(dt) == day && s <= TimeOf(dt) < e
  {
    Decompose(dt);
    var d := DateOf(dt);
    if d < day {
      assert dt < d * SecondsPerDay + SecondsPerDay <= day * SecondsPerDay;
    } else if d > day {
      assert dt >= d * SecondsPerDay >= day * SecondsPerDay + SecondsPerDay;
    }
  }

  function TwoDigits(n: int): (s: string)
    requires 0 <= n < 100
    ensures |s| == 2 && AllDigits(s)
  {
    [DigitChar(n / 10), DigitChar(n % 10)]
  }

  /** `t.strftime('%H:%M:%S')`, the JSON form of a time of day. */
  function FormatTime(t: TimeOfDay): (s: string)
    ensures |s| == 8 && s[2] == ':' && s[5] == ':'
    ensures AllDigits(s[..2]) && AllDigits(s[3..5]) && AllDigits(s[6..])
  {
    TwoDigits(t / 3600) + ":" + TwoDigits(t / 60 % 60) + ":" + TwoDigits(t % 60)
  }

  /** Reads back an `HH:MM:SS` string; the partner of FormatTime. */
  function ParseTime(s: string): Option<TimeOfDay>
  {
    if |s| == 8 && s[2] == ':' && s[5] == ':'
       && AllDigits(s[..2]) && AllDigits(s[3..5]) && AllDigits(s[6..]) then
      var h, m, sec := ParseNat(s[..2]), ParseNat(s[3..5]), ParseNat(s[6..]);
      if h < 24 && m < 60 && sec < 60 then Some(h * 3600 + m * 60 + sec) else None
    else
      None
  }

  lemma ParseTwoDigits(n: int)
    requires 0 <= n < 100
    ensures ParseNat(TwoDigits(n)) == n
  {
    var s := TwoDigits(n);
    assert s[..1] == [DigitChar(n / 10)];
    assert s[..1][..0] == [];
    assert ParseNat(s[..1]) == n / 10;
    assert DigitValue(s[1]) == n % 10;
  }

  lemma {:induction false} ParseFormatTime(t: TimeOfDay)
    ensures ParseTime(FormatTime(t)) == Some(t)
  {
    var s := FormatTime(t);
    assert s[..2] == TwoDigits(t / 3600);
    assert s[3..5] == TwoDigits(t / 60 % 60);
    assert s[6..] == TwoDigits(t % 60);
    ParseTwoDigits(t / 3600);
    ParseTwoDigits(t / 60 % 60);
    ParseTwoDigits(t % 60);
  }
}
