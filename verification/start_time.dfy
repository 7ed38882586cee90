/** The time-of-day text of the form and how the start timestamp is built from it:
    the pattern `^([0-1]?[0-9]|2[0-3]):[0-5][0-9]$`, then
    `initialDoseTime.split(':').map(Number)` and `startDate.setHours(hours, minutes, 0, 0)`. */
module StartTime {
  import opened Types

  predicate IsDigit(c: char) {
    '0' <= c <= '9'
  }

  predicate AllDigits(s: string) {
    forall k :: 0 <= k < |s| ==> IsDigit(s[k])
  }

  /** The decimal value of a string of digits, as `Number` reads it. */
  function DigitsValue(s: string): nat
    requires AllDigits(s)
  {
    if s == [] then 0 else 10 * DigitsValue(s[..|s| - 1]) + (s[|s| - 1] as int - '0' as int)
  }

  /** The hour alternative of the pattern: `[0-1]?[0-9]` or `2[0-3]`. */
  predicate HourMatches(h: string) {
    || (|h| == 1 && IsDigit(h[0]))
    || (|h| == 2 && '0' <= h[0] <= '1' && IsDigit(h[1]))
    || (|h| == 2 && h[0] == '2' && '0' <= h[1] <= '3')
  }

  /** The minute part of the pattern: `[0-5][0-9]`. */
  predicate MinuteMatches(m: string) {
    |m| == 2 && '0' <= m[0] <= '5' && IsDigit(m[1])
  }

  /** The whole pattern, anchored at both ends: the hour part is one or two characters, so the
      colon stands at index 1 or 2. */
  predicate TimeMatches(s: string) {
    || (|s| == 4 && HourMatches(s[..1]) && s[1] == ':' && MinuteMatches(s[2..]))
    || (|s| == 5 && HourMatches(s[..2]) && s[2] == ':' && MinuteMatches(s[3..]))
  }

  /** Where the colon of a 4- or 5-character time text stands. */
  function ColonIndex(s: string): nat {
    if |s| == 4 then 1 else 2
  }

  /** The meaning of the pattern, stated on values: one or two hour digits worth 0 to 23,
      a colon, and two minute digits worth 0 to 59. */
  predicate IsClockTime(s: string) {
    && (|s| == 4 || |s| == 5)
    && var c := ColonIndex(s);
    && s[c] == ':'
    && AllDigits(s[..c]) && AllDigits(s[c + 1..]) && |s[c + 1..]| == 2
    && DigitsValue(s[..c]) <= 23 && DigitsValue(s[c + 1..]) <= 59
  }

  lemma TwoDigitsValue(s: string)
    requires |s| == 2 && AllDigits(s)
    ensures DigitsValue(s) == 10 * (s[0] as int - '0' as int) + (s[1] as int - '0' as int)
  {
    var first := s[..1];
    assert first[..0] == [] && first[0] == s[0];
    assert DigitsValue(first) == s[0] as int - '0' as int;
  }

  /** The pattern accepts a text exactly when it is a clock time of hours 0-23 and minutes 00-59. */
  lemma TimeMatchesIff(s: string)
    ensures TimeMatches(s) <==> IsClockTime(s)
  {
    if |s| == 4 || |s| == 5 {
      var c := ColonIndex(s);
      var h, m := s[..c], s[c + 1..];
      if |m| == 2 && AllDigits(m) {
        TwoDigitsValue(m);
      }
      if |h| == 2 && AllDigits(h) {
        TwoDigitsValue(h);
      }
      if |h| == 1 && AllDigits(h) {
        assert h[..0] == [];
      }
      if c == 1 {
        assert s[..1] == h && s[2..] == m;
      } else {
        assert s[..2] == h && s[3..] == m;
      }
    }
  }

  /** The numbers on either side of the colon, digit by digit. */
  lemma ClockTimeDigits(s: string)
    requires IsClockTime(s)
    ensures var c := ColonIndex(s);
      && DigitsValue(s[c + 1..]) == 10 * (s[c + 1] as int - '0' as int) + (s[c + 2] as int - '0' as int)
      && (c == 1 ==> DigitsValue(s[..c]) == s[0] as int - '0' as int)
      && (c == 2 ==> DigitsValue(s[..c]) == 10 * (s[0] as int - '0' as int) + (s[1] as int - '0' as int))
  {
    var c := ColonIndex(s);
    TwoDigitsValue(s[c + 1..]);
    if c == 2 {
      TwoDigitsValue(s[..2]);
    } else {
      assert s[..1][..0] == [];
    }
  }

  /** `initialDoseTime.split(':').map(Number)` on a text the pattern accepted. */
  function ParseTime(s: string): (hm: (int, int))
    requires TimeMatches(s)
    ensures 0 <= hm.0 <= 23 && 0 <= hm.1 <= 59
    ensures |s| == 4 ==>
      hm == (s[0] as int - '0' as int, 10 * (s[2] as int - '0' as int) + (s[3] as int - '0' as int))
    ensures |s| == 5 ==>
      hm == (10 * (s[0] as int - '0' as int) + (s[1] as int - '0' as int),
             10 * (s[3] as int - '0' as int) + (s[4] as int - '0' as int))
  {
    TimeMatchesIff(s);
    ClockTimeDigits(s);
    var c := ColonIndex(s);
    (DigitsValue(s[..c]), DigitsValue(s[c + 1..]))
  }

  /** `setHours(hours, minutes, 0, 0)` on the local clock: keep the calendar day of `date`,
      replace its time of day. */
  function SetHours(date: Time, hours: int, minutes: int): (t: Time)
    requires 0 <= hours <= 23 && 0 <= minutes <= 59
    ensures t / DayMs == date / DayMs
    ensures t % DayMs == hours * HourMs + minutes * MinuteMs
    ensures t % MinuteMs == 0
  {
    var midnight := date - date % DayMs;
    assert midnight == (date / DayMs) * DayMs;
    midnight + hours * HourMs + minutes * MinuteMs
  }

  /** The start timestamp of a course: the chosen day at the chosen hour and minute. */
  function StartTimestamp(date: Time, time: string): (t: Time)
    requires TimeMatches(time)
    ensures t / DayMs == date / DayMs
    ensures t % DayMs == ParseTime(time).0 * HourMs + ParseTime(time).1 * MinuteMs
    ensures t % MinuteMs == 0
  {
    var (hours, minutes) := ParseTime(time);
    SetHours(date, hours, minutes)
  }

  /** "08:00" on a day gives eight o'clock of that day. */
  lemma EightOClock(date: Time)
    ensures StartTimestamp(date, "08:00") == date - date % DayMs + 8 * HourMs
  {
    TwoDigitsValue("08");
    TwoDigitsValue("00");
    assert "08:00"[..2] == "08" && "08:00"[3..] == "00";
  }
}
