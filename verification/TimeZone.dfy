/** UTC and local time: seconds since the epoch to broken-down time and back, with daylight saving. */
module TimeZone {
  import opened Radix
  import opened Truncation
  import opened Calendar

  datatype Tm = Tm(year: int, mon: int, mday: int, hour: int, min: int, sec: int, wday: int, yday: int, isDst: bool, gmtoff: int)

  const SECONDS_PER_DAY: int := 86400
  const EPOCH: int := GetJulianDayNumber(1970, 1, 1)
  /** Midnight of 1 March -4800. */
  const LOWEST: int := (-32044 - 2440588) * 86400

  lemma EpochValue()
    ensures EPOCH == 2440588
  {
  }

  method FillHMS(seconds: nat) returns (sec: int, min: int, hour: int)
    ensures 0 <= sec < 60 && 0 <= min < 60 && hour * 3600 + min * 60 + sec == seconds
  {
    sec := seconds % 60;
    var minutes := seconds / 60;
    min := minutes % 60;
    hour := minutes / 60;
  }

  /** Broken-down UTC: whole days before, and the time of day, whatever the sign of the seconds. */
  function UtcOf(s: int, yday: bool): Tm {
    var day, time := s / SECONDS_PER_DAY + EPOCH, s % SECONDS_PER_DAY;
    var d := GetYearMonthDay(day);
    Tm(d.year - 1900, d.month - 1, d.day, time / 3600, time / 60 % 60, time % 60, WeekDay(day),
       if yday then day - GetJulianDayNumber(d.year, 1, 1) else 0, false, 0)
  }

  method ToUtcTime(secondsSinceEpoch: int, yday: bool) returns (utc: Tm)
    ensures utc == UtcOf(secondsSinceEpoch, yday)
  {
    hide GetYearMonthDay, GetJulianDayNumber, WeekDay, UtcOf;
    var days, seconds := DaysAndSeconds(secondsSinceEpoch);
    var sec, min, hour := FillHMS(seconds);
    UtcParts(secondsSinceEpoch, yday, hour, min, sec);
    var date := days + EPOCH;
    var ymd := GetYearMonthDay(date);
    utc := Tm(ymd.year - 1900, ymd.month - 1, ymd.day, hour, min, sec, WeekDay(date), 0, false, 0);
    if yday {
      utc := utc.(yday := date - GetJulianDayNumber(ymd.year, 1, 1));
    }
  }

  method DaysAndSeconds(secondsSinceEpoch: int) returns (days: int, seconds: int)
    ensures days == secondsSinceEpoch / SECONDS_PER_DAY && seconds == secondsSinceEpoch % SECONDS_PER_DAY
  {
    FloorByTruncation(secondsSinceEpoch);
    hide Rem, Quot;
    seconds := Rem(secondsSinceEpoch, SECONDS_PER_DAY);
    days := Quot(secondsSinceEpoch, SECONDS_PER_DAY);
    if seconds < 0 {
      seconds := seconds + SECONDS_PER_DAY;
      days := days - 1;
    }
  }

  /** Truncating and then stepping back when the remainder is negative is flooring. */
  lemma FloorByTruncation(s: int)
    ensures var r, q := Rem(s, SECONDS_PER_DAY), Quot(s, SECONDS_PER_DAY);
      s / SECONDS_PER_DAY == (if r < 0 then q - 1 else q) && s % SECONDS_PER_DAY == (if r < 0 then r + SECONDS_PER_DAY else r)
  {
  }

  lemma UtcParts(s: int, yday: bool, hour: int, min: int, sec: int)
    requires 0 <= sec < 60 && 0 <= min < 60 && hour * 3600 + min * 60 + sec == s % SECONDS_PER_DAY
    ensures var day := s / SECONDS_PER_DAY + EPOCH;
      var d := GetYearMonthDay(day);
      UtcOf(s, yday) == Tm(d.year - 1900, d.month - 1, d.day, hour, min, sec, WeekDay(day),
                           if yday then day - GetJulianDayNumber(d.year, 1, 1) else 0, false, 0)
  {
    hide GetYearMonthDay, GetJulianDayNumber, WeekDay;
    TimeOfDay(s % SECONDS_PER_DAY, hour, min, sec);
  }

  lemma TimeOfDay(t: int, hour: int, min: int, sec: int)
    requires 0 <= sec < 60 && 0 <= min < 60 && hour * 3600 + min * 60 + sec == t
    ensures t / 3600 == hour && t / 60 % 60 == min && t % 60 == sec
  {
    DivUnique(t, 3600, hour, min * 60 + sec);
    DivUnique(t, 60, hour * 60 + min, sec);
    DivUnique(hour * 60 + min, 60, hour, min);
  }

  function FromUtcTime(utc: Tm): int {
    var secondsInDay := utc.hour * 3600 + utc.min * 60 + utc.sec;
    var days := GetJulianDayNumber(utc.year + 1900, utc.mon + 1, utc.mday) - EPOCH;
    days * SECONDS_PER_DAY + secondsInDay
  }

  function DateOf(c: Tm): YearMonthDay {
    YearMonthDay(c.year + 1900, c.mon + 1, c.mday)
  }

  /** A real moment on the calendar. */
  predicate IsTime(c: Tm) {
    Covered(DateOf(c)) && 0 <= c.hour < 24 && 0 <= c.min < 60 && 0 <= c.sec < 60
  }

  lemma ClockSplits(t: int)
    requires 0 <= t < 86400
    ensures 0 <= t / 3600 < 24 && t / 3600 * 3600 + t / 60 % 60 * 60 + t % 60 == t
  {
  }

  lemma DaysAndTime(s: int)
    ensures s == s / SECONDS_PER_DAY * SECONDS_PER_DAY + s % SECONDS_PER_DAY && 0 <= s % SECONDS_PER_DAY < 86400
    ensures s >= LOWEST ==> s / SECONDS_PER_DAY >= -32044 - 2440588
  {
  }

  /** Seconds, before or after the epoch, come back from UTC, and what lies between is a real moment. */
  lemma UtcRoundTrip(s: int, yday: bool)
    requires s >= LOWEST
    ensures IsTime(UtcOf(s, yday)) && FromUtcTime(UtcOf(s, yday)) == s
  {
    hide GetJulianDayNumber, GetYearMonthDay, WeekDay, Covered;
    EpochValue();
    DaysAndTime(s);
    ClockSplits(s % SECONDS_PER_DAY);
    JulianRoundTrip(s / SECONDS_PER_DAY + EPOCH);
  }

  /** The seconds of the day. */
  function TimeOf(c: Tm): int {
    c.hour * 3600 + c.min * 60 + c.sec
  }

  lemma SecondsOf(c: Tm)
    requires IsTime(c)
    ensures FromUtcTime(c) == (JulianOf(DateOf(c)) - EPOCH) * SECONDS_PER_DAY + TimeOf(c) && 0 <= TimeOf(c) < SECONDS_PER_DAY
  {
    hide Covered, GetJulianDayNumber;
  }

  lemma SplitSeconds(days: int, time: int)
    requires 0 <= time < SECONDS_PER_DAY
    ensures (days * SECONDS_PER_DAY + time) / SECONDS_PER_DAY == days
    ensures (days * SECONDS_PER_DAY + time) % SECONDS_PER_DAY == time
  {
    DivUnique(days * SECONDS_PER_DAY + time, SECONDS_PER_DAY, days, time);
  }

  /**
   * And a real moment comes back from its seconds, with its weekday and, if asked for, the day of its year, which
   * is right but for the first year of the range: there the day number of 1 January is one too high.
   */
  lemma MomentRoundTrip(c: Tm, yday: bool)
    requires IsTime(c)
    ensures FromUtcTime(c) >= LOWEST
    ensures var d, u := DateOf(c), UtcOf(FromUtcTime(c), yday);
      && DateOf(u) == d && (u.hour, u.min, u.sec) == (c.hour, c.min, c.sec) && u.wday == WeekDay(JulianOf(d))
      && u.yday == if yday then DaysBefore(d.year, d.month) + d.day - 1 - (if d.year == -4800 then 1 else 0) else 0
  {
    hide GetYearMonthDay, JulianOf, GetJulianDayNumber, WeekDay, Covered, DaysBefore, FromUtcTime, UtcOf, TimeOf;
    var d := DateOf(c);
    SecondsOf(c);
    DayOfYearFrom(d);
    CivilRoundTrip(d);
    LowestDay(JulianOf(d), TimeOf(c));
    UtcAt(JulianOf(d), TimeOf(c), yday);
    ClockAgain(c);
  }

  lemma LowestDay(day: int, time: int)
    requires day >= -32044 && time >= 0
    ensures (day - EPOCH) * SECONDS_PER_DAY + time >= LOWEST
  {
    EpochValue();
  }

  lemma ClockAgain(c: Tm)
    requires IsTime(c)
    ensures TimeOf(c) / 3600 == c.hour && TimeOf(c) / 60 % 60 == c.min && TimeOf(c) % 60 == c.sec
  {
    TimeOfDay(TimeOf(c), c.hour, c.min, c.sec);
  }

  /** UTC for a day and a time of day. */
  lemma UtcAt(day: int, time: int, yday: bool)
    requires 0 <= time < SECONDS_PER_DAY
    ensures var d, u := GetYearMonthDay(day), UtcOf((day - EPOCH) * SECONDS_PER_DAY + time, yday);
      && DateOf(u) == d && u.hour == time / 3600 && u.min == time / 60 % 60 && u.sec == time % 60 && u.wday == WeekDay(day)
      && u.yday == if yday then day - GetJulianDayNumber(d.year, 1, 1) else 0
  {
    hide GetYearMonthDay, GetJulianDayNumber, WeekDay;
    SplitSeconds(day - EPOCH, time);
  }

  lemma DayOfYearFrom(d: YearMonthDay)
    requires Covered(d)
    ensures JulianOf(d) - GetJulianDayNumber(d.year, 1, 1)
      == DaysBefore(d.year, d.month) + d.day - 1 - if d.year == -4800 then 1 else 0
  {
    if d.year > -4800 { DayOfYear(d); } else { FirstYear(d); }
  }

  /** Exactly when the weekday of a UTC time is one: always from day -1 on, before it only on Sundays. */
  lemma UtcWeekDay(s: int, yday: bool)
    ensures var day := s / SECONDS_PER_DAY + EPOCH;
      0 <= UtcOf(s, yday).wday <= 6 <==> day >= -1 || (day + 1) % 7 == 0
  {
    hide GetYearMonthDay, GetJulianDayNumber, WeekDay;
    WeekDayRange(s / SECONDS_PER_DAY + EPOCH);
  }

  /** A moment inside the range whose weekday is negative. */
  lemma NegativeUtcWeekDay(s: int)
    requires s == (-3 - 2440588) * SECONDS_PER_DAY
    ensures s >= LOWEST && IsTime(UtcOf(s, false)) && UtcOf(s, false).wday == -2
  {
    hide GetYearMonthDay, IsTime;
    EpochValue();
    UtcRoundTrip(s, false);
    SplitSeconds(-3 - 2440588, 0);
    NegativeWeekDay();
  }

  // ----- 32-bit arithmetic -----

  /** The seconds for which `toUtcTime`, and the last ones for which `fromUtcTime`, computes in 32 bits. */
  const MIN_UTC: int := -46599282201600
  const MAX_UTC: int := 46172011391999
  const LAST_UTC: int := 185325141801599

  /** No int in `toUtcTime` leaves the 32-bit range. */
  predicate UtcFits(s: int, yday: bool) {
    var date := s / SECONDS_PER_DAY + EPOCH;
    var d := GetYearMonthDay(date);
    && IsInt(Quot(s, SECONDS_PER_DAY)) && IsInt(s / SECONDS_PER_DAY) && IsInt(date) && JulianFits(date)
    && IsInt(d.year) && IsInt(d.year - 1900) && IsInt(d.month - 1) && IsInt(date + 1)
    && (yday ==> DateFits(d.year, 1, 1) && IsInt(date - GetJulianDayNumber(d.year, 1, 1)))
  }

  lemma UtcRange(s: int, yday: bool)
    ensures UtcFits(s, yday) <==> MIN_UTC <= s <= MAX_UTC
  {
    hide JulianFits, DateFits, GetYearMonthDay, GetJulianDayNumber;
    var date := s / SECONDS_PER_DAY + EPOCH;
    EpochValue();
    FitsInt(date);
    if MIN_JULIAN <= date <= MAX_JULIAN {
      SmallYears(date);
      NearDay(s);
    }
  }

  lemma NearDay(s: int)
    ensures s / SECONDS_PER_DAY <= Quot(s, SECONDS_PER_DAY) <= s / SECONDS_PER_DAY + 1
  {
  }

  /** No int in `fromUtcTime` leaves the 32-bit range. */
  predicate FromUtcFits(c: Tm) {
    && IsInt(c.year) && IsInt(c.year + 1900) && IsInt(c.mon + 1) && DateFits(c.year + 1900, c.mon + 1, c.mday)
    && IsInt(GetJulianDayNumber(c.year + 1900, c.mon + 1, c.mday) - EPOCH)
    && IsInt(c.hour * 3600) && IsInt(c.hour * 3600 + c.min * 60) && IsInt(c.hour * 3600 + c.min * 60 + c.sec)
  }

  lemma FromUtcRange(c: Tm)
    requires IsTime(c)
    ensures FromUtcFits(c) <==> FromUtcTime(c) <= LAST_UTC
  {
    var d := DateOf(c);
    EpochValue();
    LastFittingDate(d);
    LastJulian();
    SecondsOf(c);
    OnlyTheDate(c);
    hide FromUtcFits, DateFits, JulianOf, IsTime, FromUtcTime, TimeOf;
    DayLimit(JulianOf(d) - EPOCH, TimeOf(c), 2147407506 - EPOCH);
  }

  /** Whether `fromUtcTime` stays in range depends on the date alone. */
  lemma OnlyTheDate(c: Tm)
    requires IsTime(c)
    ensures var d := DateOf(c); FromUtcFits(c) <==> DateFits(d.year, d.month, d.day)
  {
    var d := DateOf(c);
    EpochValue();
    CivilRoundTrip(d);
    YearFits(d);
    NumberFits(d);
    hide DateFits, GetYearMonthDay, GetJulianDayNumber, IsDate;
  }

  lemma DayLimit(days: int, time: int, last: int)
    requires 0 <= time < SECONDS_PER_DAY
    ensures days * SECONDS_PER_DAY + time <= last * SECONDS_PER_DAY + 86399 <==> days <= last
  {
  }

  // ----- order -----

  predicate Before(a: Tm, b: Tm) {
    || DateBefore(DateOf(a), DateOf(b))
    || (DateOf(a) == DateOf(b) &&
        (a.hour < b.hour || (a.hour == b.hour && (a.min < b.min || (a.min == b.min && a.sec < b.sec)))))
  }

  lemma ClockOrder(a: Tm, b: Tm)
    requires 0 <= a.min < 60 && 0 <= a.sec < 60 && 0 <= b.min < 60 && 0 <= b.sec < 60
    ensures TimeOf(a) < TimeOf(b) <==>
      a.hour < b.hour || (a.hour == b.hour && (a.min < b.min || (a.min == b.min && a.sec < b.sec)))
  {
  }

  lemma SecondsOrder(d: int, s: int, e: int, t: int)
    requires 0 <= s < SECONDS_PER_DAY && 0 <= t < SECONDS_PER_DAY
    ensures d * SECONDS_PER_DAY + s < e * SECONDS_PER_DAY + t <==> d < e || (d == e && s < t)
  {
  }

  /** UTC times are in lexicographic order exactly when their seconds are in order. */
  lemma UtcOrder(a: Tm, b: Tm)
    requires IsTime(a) && IsTime(b)
    ensures FromUtcTime(a) < FromUtcTime(b) <==> Before(a, b)
  {
    var d, e := DateOf(a), DateOf(b);
    hide GetYearMonthDay, Covered, DateBefore, JulianOf, TimeOf;
    DatesInOrder(d, e);
    SameDay(d, e);
    ClockOrder(a, b);
    SecondsOf(a);
    SecondsOf(b);
    SecondsOrder(JulianOf(d) - EPOCH, TimeOf(a), JulianOf(e) - EPOCH, TimeOf(b));
    hide FromUtcTime, DateOf;
  }

  lemma SameDay(d: YearMonthDay, e: YearMonthDay)
    requires Covered(d) && Covered(e)
    ensures JulianOf(d) == JulianOf(e) <==> d == e
  {
    hide GetYearMonthDay, JulianOf;
    CivilRoundTrip(d);
    CivilRoundTrip(e);
  }

  /** Broken-down times are in lexicographic order exactly when the seconds they came from are. */
  lemma UtcKeepsOrder(s: int, t: int, yday: bool)
    requires s >= LOWEST && t >= LOWEST
    ensures s < t <==> Before(UtcOf(s, yday), UtcOf(t, yday))
  {
    hide UtcOf, FromUtcTime, IsTime, Before;
    UtcRoundTrip(s, yday);
    UtcRoundTrip(t, yday);
    UtcOrder(UtcOf(s, yday), UtcOf(t, yday));
  }

  // ----- zones -----

  datatype Transition = Transition(gmttime: int, localtime: int, localtimeIdx: nat)
  datatype Localtime = Localtime(gmtOffset: int, isDst: bool)
  datatype ZoneData = ZoneData(transitions: seq<Transition>, localtimes: seq<Localtime>)

  /** Every transition carries the local time at which its period begins. */
  predicate Linked(z: ZoneData) {
    && |z.localtimes| > 0
    && forall i :: 0 <= i < |z.transitions| ==>
         var t := z.transitions[i];
         t.localtimeIdx < |z.localtimes| && t.localtime == t.gmttime + z.localtimes[t.localtimeIdx].gmtOffset
  }

  method LinkTransitions(trans: seq<int>, indices: seq<nat>, localtimes: seq<Localtime>) returns (z: ZoneData)
    requires |trans| == |indices| && |localtimes| > 0 && forall i :: 0 <= i < |indices| ==> indices[i] < |localtimes|
    ensures Linked(z) && z.localtimes == localtimes && |z.transitions| == |trans|
    ensures forall i :: 0 <= i < |trans| ==> z.transitions[i].gmttime == trans[i] && z.transitions[i].localtimeIdx == indices[i]
  {
    z := ZoneData([], localtimes);
    for i := 0 to |trans|
      invariant Linked(z) && z.localtimes == localtimes && |z.transitions| == i
      invariant forall k :: 0 <= k < i ==> z.transitions[k].gmttime == trans[k] && z.transitions[k].localtimeIdx == indices[k]
    {
      var localtime := trans[i] + z.localtimes[indices[i]].gmtOffset;
      z := z.(transitions := z.transitions + [Transition(trans[i], localtime, indices[i])]);
    }
  }

  /** The key a search compares: UTC or local time. */
  function Key(t: Transition, gmt: bool): int {
    if gmt then t.gmttime else t.localtime
  }

  /** `lower_bound`: the first transition from index i on whose key is not below x. */
  function LowerBound(ts: seq<Transition>, x: int, gmt: bool, i: nat): (r: nat)
    requires i <= |ts|
    ensures i <= r <= |ts|
    ensures forall k :: i <= k < r ==> Key(ts[k], gmt) < x
    ensures r < |ts| ==> x <= Key(ts[r], gmt)
    decreases |ts| - i
  {
    if i == |ts| || x <= Key(ts[i], gmt) then i else LowerBound(ts, x, gmt, i + 1)
  }

  function FindLocaltime(z: ZoneData, x: int, gmt: bool): Localtime
    requires Linked(z)
  {
    var ts := z.transitions;
    if ts == [] || x < Key(ts[0], gmt) then z.localtimes[0]
    else
      var i := LowerBound(ts, x, gmt, 0);
      if i < |ts| then
        if x != Key(ts[i], gmt) then z.localtimes[ts[i - 1].localtimeIdx] else z.localtimes[ts[i].localtimeIdx]
      else z.localtimes[ts[|ts| - 1].localtimeIdx]
  }

  function LocalOf(z: ZoneData, seconds: int): Tm
    requires Linked(z)
  {
    var l := FindLocaltime(z, seconds, true);
    UtcOf(seconds + l.gmtOffset, true).(isDst := l.isDst, gmtoff := l.gmtOffset)
  }

  function FromLocal(z: ZoneData, tm: Tm): int
    requires Linked(z)
  {
    var seconds := FromUtcTime(tm);
    var l := FindLocaltime(z, seconds, false);
    var tryTm := LocalOf(z, seconds - l.gmtOffset);
    if tm.isDst && !tryTm.isDst && tryTm.hour == tm.hour && tryTm.min == tm.min
    then seconds - 3600 - l.gmtOffset else seconds - l.gmtOffset
  }

  method ToLocalTime(z: ZoneData, seconds: int) returns (localTime: Tm)
    requires Linked(z)
    ensures localTime == LocalOf(z, seconds)
  {
    hide UtcOf, FindLocaltime;
    var l := FindLocaltime(z, seconds, true);
    localTime := ToUtcTime(seconds + l.gmtOffset, true);
    localTime := localTime.(isDst := l.isDst, gmtoff := l.gmtOffset);
  }

  method FromLocalTime(z: ZoneData, localTm: Tm) returns (r: int)
    requires Linked(z)
    ensures r == FromLocal(z, localTm)
  {
    hide LocalOf, FindLocaltime, FromUtcTime;
    var seconds := FromUtcTime(localTm);
    var l := FindLocaltime(z, seconds, false);
    if localTm.isDst {
      var tryTm := ToLocalTime(z, seconds - l.gmtOffset);
      if !tryTm.isDst && tryTm.hour == localTm.hour && tryTm.min == localTm.min {
        seconds := seconds - 3600;
      }
    }
    r := seconds - l.gmtOffset;
  }

  // ----- periods: what is in force between two transitions -----

  /** Period 0 is the time before the first transition; period p begins with transition p-1. */
  function Period(z: ZoneData, p: nat): Localtime
    requires Linked(z) && p <= |z.transitions|
  {
    if p == 0 then z.localtimes[0] else z.localtimes[z.transitions[p - 1].localtimeIdx]
  }

  /** x lies in period p by the given clock. */
  predicate InPeriod(z: ZoneData, x: int, gmt: bool, p: nat)
    requires Linked(z)
  {
    && p <= |z.transitions|
    && (p > 0 ==> Key(z.transitions[p - 1], gmt) <= x)
    && (p < |z.transitions| ==> x < Key(z.transitions[p], gmt))
  }

  ghost predicate Increasing(z: ZoneData, gmt: bool) {
    forall i, j :: 0 <= i < j < |z.transitions| ==> Key(z.transitions[i], gmt) < Key(z.transitions[j], gmt)
  }

  /** The search finds the period, and there is only one. */
  lemma FindsPeriod(z: ZoneData, x: int, gmt: bool, p: nat)
    requires Linked(z) && Increasing(z, gmt) && InPeriod(z, x, gmt, p)
    ensures FindLocaltime(z, x, gmt) == Period(z, p)
  {
    var ts := z.transitions;
    if ts != [] && x >= Key(ts[0], gmt) {
      var i := LowerBound(ts, x, gmt, 0);
      assert i >= p - 1 && i <= p;
    }
  }

  lemma {:induction false} SomePeriod(z: ZoneData, x: int, gmt: bool, p: nat) returns (q: nat)
    requires Linked(z) && p <= |z.transitions| && (p > 0 ==> Key(z.transitions[p - 1], gmt) <= x)
    ensures InPeriod(z, x, gmt, q)
    decreases |z.transitions| - p
  {
    if p < |z.transitions| && Key(z.transitions[p], gmt) <= x {
      q := SomePeriod(z, x, gmt, p + 1);
    } else {
      q := p;
    }
  }

  /** How far the local clock goes back when period p begins. */
  function Back(z: ZoneData, p: nat): int
    requires Linked(z) && 0 < p <= |z.transitions|
  {
    var jump := Period(z, p - 1).gmtOffset - Period(z, p).gmtOffset;
    if jump > 0 then jump else 0
  }

  /** Transitions are in order, and further apart than the clock changes around them. */
  ghost predicate Spaced(z: ZoneData)
    requires Linked(z)
  {
    && Increasing(z, true)
    && forall i :: 0 <= i < |z.transitions| - 1 ==>
         z.transitions[i + 1].gmttime - z.transitions[i].gmttime > Back(z, i + 1) + Back(z, i + 2)
  }

  /** The transition into period p turns daylight saving off by exactly one hour. */
  predicate OneHourBack(z: ZoneData, p: nat)
    requires Linked(z) && 0 < p <= |z.transitions|
  {
    Period(z, p - 1).isDst && !Period(z, p).isDst && Back(z, p) == 3600
  }

  /** The moment lies in the stretch of local time that the transition into period p repeats. */
  predicate Repeated(z: ZoneData, t: int, p: nat)
    requires Linked(z) && 0 < p <= |z.transitions|
  {
    t < z.transitions[p - 1].gmttime <= t + Back(z, p) && Back(z, p) > 0
  }

  /** Offsets and transitions are 32-bit values, as the zone file stores them. */
  predicate Fits(z: ZoneData) {
    && (forall i :: 0 <= i < |z.transitions| ==> IsInt(z.transitions[i].gmttime))
    && (forall i :: 0 <= i < |z.localtimes| ==> IsInt(z.localtimes[i].gmtOffset))
  }

  /** Local times of transitions are in order too. */
  lemma {:induction false} LocalInOrder(z: ZoneData, i: nat, j: nat)
    requires Linked(z) && Spaced(z) && i < j < |z.transitions|
    ensures z.transitions[i].localtime + Back(z, i + 1) < z.transitions[j].localtime
    decreases j - i
  {
    hide Spaced, Linked, Period;
    LocalStep(z, j - 1);
    if i < j - 1 { LocalInOrder(z, i, j - 1); }
  }

  lemma LocalStep(z: ZoneData, i: nat)
    requires Linked(z) && Spaced(z) && i + 1 < |z.transitions|
    ensures z.transitions[i].localtime + Back(z, i + 1) < z.transitions[i + 1].localtime
  {
    assert z.transitions[i + 1].gmttime - z.transitions[i].gmttime > Back(z, i + 1) + Back(z, i + 2);
    hide Spaced, Increasing;
  }

  lemma LocalIncreasing(z: ZoneData)
    requires Linked(z) && Spaced(z)
    ensures Increasing(z, false)
  {
    hide Spaced;
    forall i, j | 0 <= i < j < |z.transitions| ensures Key(z.transitions[i], false) < Key(z.transitions[j], false) {
      LocalInOrder(z, i, j);
    }
  }

  /** Outside repeated stretches the local clock shows the same period as UTC; inside, the next one. */
  lemma LocalPeriod(z: ZoneData, t: int, p: nat)
    requires Linked(z) && Spaced(z) && InPeriod(z, t, true, p)
    ensures var q := if p < |z.transitions| && Repeated(z, t, p + 1) then p + 1 else p;
      InPeriod(z, t + Period(z, p).gmtOffset, false, q)
  {
    hide Spaced;
    var ts := z.transitions;
    if p < |ts| && Repeated(z, t, p + 1) && p + 1 < |ts| { LocalInOrder(z, p, p + 1); }
  }

  /** One repetition later the clock is in the next period. */
  lemma AfterJump(z: ZoneData, t: int, p: nat)
    requires Linked(z) && Spaced(z) && p < |z.transitions| && InPeriod(z, t, true, p) && Repeated(z, t, p + 1)
    ensures InPeriod(z, t + Back(z, p + 1), true, p + 1)
    ensures Back(z, p + 1) == Period(z, p).gmtOffset - Period(z, p + 1).gmtOffset
  {
    var ts := z.transitions;
    if p + 1 < |ts| { assert ts[p + 1].gmttime - ts[p].gmttime > Back(z, p + 1) + Back(z, p + 2); }
  }

  // ----- what a local time shows, and how any broken-down time is read -----

  /** Any number of seconds shows its time of day on the clock. */
  lemma ClockShows(s: int, yday: bool)
    ensures var u := UtcOf(s, yday);
      && 0 <= u.hour < 24 && 0 <= u.min < 60 && 0 <= u.sec < 60 && u.hour * 3600 + u.min * 60 + u.sec == s % 86400
      && u.wday == WeekDay(s / 86400 + 2440588) && !u.isDst && u.gmtoff == 0
  {
    hide GetYearMonthDay, GetJulianDayNumber, WeekDay;
    EpochValue();
    ClockSplits(s % 86400);
  }

  /** Reading a clock time adds it to the day, even where it is not one; and days of a month add up beyond its end. */
  lemma ReadsClock(c: Tm, days: int)
    ensures FromUtcTime(c) == FromUtcTime(c.(hour := 0, min := 0, sec := 0)) + c.hour * 3600 + c.min * 60 + c.sec
    ensures FromUtcTime(c.(mday := c.mday + days)) == FromUtcTime(c) + days * 86400
  {
    hide Quot;
  }

  /** Months roll over into the next year and back into the last one, as far as a February or a March. */
  lemma MonthsRoll(c: Tm)
    ensures 12 <= c.mon <= 13 ==> FromUtcTime(c) == FromUtcTime(c.(year := c.year + 1, mon := c.mon - 12))
    ensures -10 <= c.mon <= -1 ==> FromUtcTime(c) == FromUtcTime(c.(year := c.year - 1, mon := c.mon + 12))
  {
    hide GetJulianDayNumber;
    MonthRolls(c.year + 1900, c.mon + 1, c.mday);
  }

  /** A local time shows the moment as UTC does the moment shifted by the offset in force, and says so. */
  lemma LocalShows(z: ZoneData, t: int, p: nat)
    requires Linked(z) && Increasing(z, true) && InPeriod(z, t, true, p)
    ensures var l, c := Period(z, p), LocalOf(z, t);
      && c.isDst == l.isDst && c.gmtoff == l.gmtOffset && c.hour * 3600 + c.min * 60 + c.sec == (t + l.gmtOffset) % 86400
      && 0 <= c.hour < 24 && 0 <= c.min < 60 && 0 <= c.sec < 60
      && c.wday == WeekDay((t + l.gmtOffset) / 86400 + 2440588)
      && (t + l.gmtOffset >= LOWEST ==>
            && IsTime(c) && FromUtcTime(c) == t + l.gmtOffset
            && c.yday == DaysBefore(c.year + 1900, c.mon + 1) + c.mday - 1 - if c.year + 1900 == -4800 then 1 else 0)
  {
    hide UtcOf, GetJulianDayNumber, FindLocaltime, Increasing, Linked, Period, Covered, WeekDay, DaysBefore;
    var x := t + Period(z, p).gmtOffset;
    FindsPeriod(z, t, true, p);
    ClockShows(x, true);
    if x >= LOWEST {
      UtcRoundTrip(x, true);
      MomentRoundTrip(UtcOf(x, true), true);
    }
  }

  /** Nothing but the date, the clock and the daylight saving flag is read. */
  lemma OnlyTheClock(z: ZoneData, tm: Tm, wday: int, yday: int, gmtoff: int)
    requires Linked(z)
    ensures FromLocal(z, tm.(wday := wday, yday := yday, gmtoff := gmtoff)) == FromLocal(z, tm)
  {
    hide LocalOf, FindLocaltime, Linked, GetJulianDayNumber;
  }

  /**
   * Any broken-down time, filled in by hand or not: the offset of the period it lies in by the local clock is taken
   * off, and one hour more exactly if daylight saving is claimed and the moment so found is without it and shows
   * the same hour and minute.
   */
  lemma ReadsLocal(z: ZoneData, tm: Tm, x: int, q: nat, p: nat)
    requires Linked(z) && Increasing(z, false) && Increasing(z, true) && x == FromUtcTime(tm)
    requires InPeriod(z, x, false, q) && InPeriod(z, x - Period(z, q).gmtOffset, true, p)
    ensures IsTime(tm) ==> x == (JulianOf(DateOf(tm)) - 2440588) * 86400 + tm.hour * 3600 + tm.min * 60 + tm.sec
    ensures var shown := (x - Period(z, q).gmtOffset + Period(z, p).gmtOffset) % 86400;
      FromLocal(z, tm) == x - Period(z, q).gmtOffset
        - if tm.isDst && !Period(z, p).isDst && shown / 3600 == tm.hour && shown / 60 % 60 == tm.min then 3600 else 0
  {
    hide UtcOf, GetJulianDayNumber, FindLocaltime, Increasing, Linked, Period, Covered, LocalOf, FromUtcTime;
    EpochValue();
    if IsTime(tm) { SecondsOf(tm); }
    FindsPeriod(z, x, false, q);
    var t := x - Period(z, q).gmtOffset;
    LocalShows(z, t, p);
    var c := LocalOf(z, t);
    TimeOfDay((t + Period(z, p).gmtOffset) % 86400, c.hour, c.min, c.sec);
  }

  /** What `fromLocalTime` makes of a local time, in one line. */
  lemma ReadBack(z: ZoneData, t: int, p: nat)
    requires Linked(z) && Spaced(z) && InPeriod(z, t, true, p) && t + Period(z, p).gmtOffset >= LOWEST
    ensures FromLocal(z, LocalOf(z, t)) ==
      if p < |z.transitions| && Repeated(z, t, p + 1) then
        t + Back(z, p + 1) - (if Period(z, p).isDst && !Period(z, p + 1).isDst then 3600 else 0)
      else t
  {
    if p < |z.transitions| && Repeated(z, t, p + 1) {
      ReadRepeated(z, t, p);
    } else {
      ReadOnce(z, t, p);
    }
  }

  lemma ReadRepeated(z: ZoneData, t: int, p: nat)
    requires Linked(z) && Spaced(z) && InPeriod(z, t, true, p) && t + Period(z, p).gmtOffset >= LOWEST
    requires p < |z.transitions| && Repeated(z, t, p + 1)
    ensures FromLocal(z, LocalOf(z, t))
      == t + Back(z, p + 1) - (if Period(z, p).isDst && !Period(z, p + 1).isDst then 3600 else 0)
  {
    hide UtcOf, GetJulianDayNumber, IsTime, Increasing, FindLocaltime, Linked, Period;
    LocalIncreasing(z);
    LocalPeriod(z, t, p);
    FindsPeriod(z, t, true, p);
    UtcRoundTrip(t + Period(z, p).gmtOffset, true);
    FindsPeriod(z, t + Period(z, p).gmtOffset, false, p + 1);
    AfterJump(z, t, p);
    FindsPeriod(z, t + Back(z, p + 1), true, p + 1);
  }

  lemma ReadOnce(z: ZoneData, t: int, p: nat)
    requires Linked(z) && Spaced(z) && InPeriod(z, t, true, p) && t + Period(z, p).gmtOffset >= LOWEST
    requires !(p < |z.transitions| && Repeated(z, t, p + 1))
    ensures FromLocal(z, LocalOf(z, t)) == t
  {
    hide UtcOf, GetJulianDayNumber, IsTime, Increasing, FindLocaltime, Linked, Period;
    LocalIncreasing(z);
    LocalPeriod(z, t, p);
    FindsPeriod(z, t, true, p);
    UtcRoundTrip(t + Period(z, p).gmtOffset, true);
    FindsPeriod(z, t + Period(z, p).gmtOffset, false, p);
  }

  /**
   * `fromLocalTime` undoes `toLocalTime` at a moment exactly when the moment is not in a repeated stretch
   * of local time, or the change that repeats it is one hour out of daylight saving.
   */
  lemma LocalRoundTrip(z: ZoneData, t: int, p: nat)
    requires Linked(z) && Spaced(z) && InPeriod(z, t, true, p) && t + Period(z, p).gmtOffset >= LOWEST
    ensures FromLocal(z, LocalOf(z, t)) == t <==>
      (p < |z.transitions| && Repeated(z, t, p + 1) ==> OneHourBack(z, p + 1))
  {
    ReadBack(z, t, p);
    hide FromLocal, LocalOf, Spaced;
  }

  predicate Representable(z: ZoneData, t: int)
    requires Linked(z)
  {
    t + FindLocaltime(z, t, true).gmtOffset >= LOWEST
  }

  ghost predicate BackOnlyByTheHour(z: ZoneData)
    requires Linked(z)
  {
    forall p :: 0 < p <= |z.transitions| && Back(z, p) > 0 ==> OneHourBack(z, p)
  }

  lemma RoundTripAnywhere(z: ZoneData, t: int)
    requires Linked(z) && Spaced(z) && BackOnlyByTheHour(z) && Representable(z, t)
    ensures FromLocal(z, LocalOf(z, t)) == t
  {
    hide FromLocal, LocalOf, FindLocaltime, Spaced;
    var p := SomePeriod(z, t, true, 0);
    assert Increasing(z, true) by { SpacedInOrder(z); }
    FindsPeriod(z, t, true, p);
    LocalRoundTrip(z, t, p);
  }

  lemma SpacedInOrder(z: ZoneData)
    requires Linked(z) && Spaced(z)
    ensures Increasing(z, true)
  {
  }

  /** The last moment before any other backward change does not come back. */
  lemma LostMoment(z: ZoneData, p: nat) returns (t: int)
    requires Linked(z) && Spaced(z) && Fits(z) && 0 < p <= |z.transitions| && Back(z, p) > 0 && !OneHourBack(z, p)
    ensures Representable(z, t) && FromLocal(z, LocalOf(z, t)) != t
  {
    hide FromLocal, LocalOf, FindLocaltime, OneHourBack, Spaced;
    t := z.transitions[p - 1].gmttime - 1;
    SpacedInOrder(z);
    if p > 1 { assert Key(z.transitions[p - 2], true) < Key(z.transitions[p - 1], true); }
    assert InPeriod(z, t, true, p - 1);
    FindsPeriod(z, t, true, p - 1);
    LocalRoundTrip(z, t, p - 1);
  }

  /** A zone round-trips at every moment exactly when every backward change is one hour out of daylight saving. */
  lemma ZoneRoundTrip(z: ZoneData)
    requires Linked(z) && Spaced(z) && Fits(z)
    ensures (forall t :: Representable(z, t) ==> FromLocal(z, LocalOf(z, t)) == t) <==> BackOnlyByTheHour(z)
  {
    hide FromLocal, LocalOf, Representable, Spaced, OneHourBack, Linked, Fits;
    if BackOnlyByTheHour(z) {
      forall t | Representable(z, t) ensures FromLocal(z, LocalOf(z, t)) == t { RoundTripAnywhere(z, t); }
    } else {
      var p: nat :| 0 < p <= |z.transitions| && Back(z, p) > 0 && !OneHourBack(z, p);
      var t := LostMoment(z, p);
    }
  }

  // ----- the usual case -----

  /** In order and at least two hours apart, going back only by one hour out of daylight saving. */
  ghost predicate Ordinary(z: ZoneData)
    requires Linked(z)
  {
    && (forall i :: 0 <= i < |z.transitions| - 1 ==> z.transitions[i].gmttime + 7200 <= z.transitions[i + 1].gmttime)
    && BackOnlyByTheHour(z)
  }

  lemma {:induction false} Ascending(z: ZoneData, i: nat, j: nat)
    requires Linked(z) && Ordinary(z) && i < j < |z.transitions|
    ensures z.transitions[i].gmttime < z.transitions[j].gmttime
    decreases j - i
  {
    if i < j - 1 { Ascending(z, i, j - 1); }
  }

  lemma OrdinaryZones(z: ZoneData, t: int)
    requires Linked(z) && Fits(z) && Ordinary(z) && Representable(z, t)
    ensures FromLocal(z, LocalOf(z, t)) == t
  {
    hide FromLocal, LocalOf, FindLocaltime;
    forall i, j | 0 <= i < j < |z.transitions| ensures Key(z.transitions[i], true) < Key(z.transitions[j], true) {
      Ascending(z, i, j);
    }
    forall i | 0 <= i < |z.transitions| - 1
      ensures z.transitions[i + 1].gmttime - z.transitions[i].gmttime > Back(z, i + 1) + Back(z, i + 2)
    {
      assert Back(z, i + 1) > 0 ==> OneHourBack(z, i + 1);
      assert Back(z, i + 2) > 0 ==> OneHourBack(z, i + 2);
    }
    ZoneRoundTrip(z);
  }
}
