/**
 kernel/time.c: seconds since 1970 to calendar fields and back, in a zone seven hours
 ahead.  Division truncates as in C; int arithmetic is 32-bit and wraps.
 */
module Calendar {

  const ZONE: int := 25200
  const DAY: int := 86400

  /** struct tm; year counts from 1900, mon from 0. */
  datatype Tm = Tm(sec: int, min: int, hour: int, mday: int, mon: int, year: int, wday: int, yday: int)

  function Wrap32(x: int): (r: int)
    ensures -0x8000_0000 <= r < 0x8000_0000
    ensures -0x8000_0000 <= x < 0x8000_0000 ==> r == x
  {
    (x + 0x8000_0000) % 0x1_0000_0000 - 0x8000_0000
  }

  function Div(a: int, b: int): int
    requires b > 0
  {
    if a >= 0 then a / b else -(-a / b)
  }

  function Mod(a: int, b: int): int
    requires b > 0
  {
    if a >= 0 then a % b else -(-a % b)
  }

  predicate LeapYear(y: int) {
    (Mod(y, 4) == 0 && Mod(y, 100) != 0) || Mod(y, 400) == 0
  }

  const DAYS: seq<int> := [31, 28, 31, 30, 31, 30, 31, 31, 30, 31, 30, 31]

  function NDays(y: int, m: int): (n: int)
    requires 0 <= m < 12
    ensures 28 <= n <= 31
  {
    DAYS[m] + if m == 1 && LeapYear(y) then 1 else 0
  }

  function YearLen(y: int): int {
    if LeapYear(y) then 366 else 365
  }

  /** Thirty days have April, June, September and November; the months count from 0. */
  lemma MonthDays(y: int, m: int)
    requires 0 <= m < 12
    ensures NDays(y, m) == if m == 3 || m == 5 || m == 8 || m == 10 then 30
                           else if m != 1 then 31 else if y % 400 == 0 || (y % 4 == 0 && y % 100 != 0) then 29 else 28
  {
    MultipleOf4(y);
    MultipleOf100(y);
    MultipleOf400(y);
  }

  /** A truncated remainder is 0 for the same numbers. */
  lemma MultipleOf4(y: int)
    ensures Mod(y, 4) == 0 <==> y % 4 == 0
  {
  }

  lemma MultipleOf100(y: int)
    ensures Mod(y, 100) == 0 <==> y % 100 == 0
  {
  }

  lemma MultipleOf400(y: int)
    ensures Mod(y, 400) == 0 <==> y % 400 == 0
  {
  }

  /** The days from 1970 to the start of year y. */
  function YearsBefore(y: int): (n: nat)
    decreases y - 1970
  {
    if y <= 1970 then 0 else YearsBefore(y - 1) + YearLen(y - 1)
  }

  /** The days of year y before month m. */
  function MonthsBefore(y: int, m: nat): (n: nat)
    requires m <= 12
  {
    if m == 0 then 0 else MonthsBefore(y, m - 1) + NDays(y, m - 1)
  }

  lemma WholeYear(y: int)
    ensures MonthsBefore(y, 12) == YearLen(y)
  {
    var leap := if LeapYear(y) then 1 else 0;
    assert MonthsBefore(y, 1) == 31;
    assert MonthsBefore(y, 2) == 59 + leap;
    assert MonthsBefore(y, 3) == 90 + leap;
    assert MonthsBefore(y, 4) == 120 + leap;
    assert MonthsBefore(y, 5) == 151 + leap;
    assert MonthsBefore(y, 6) == 181 + leap;
    assert MonthsBefore(y, 7) == 212 + leap;
    assert MonthsBefore(y, 8) == 243 + leap;
    assert MonthsBefore(y, 9) == 273 + leap;
    assert MonthsBefore(y, 10) == 304 + leap;
    assert MonthsBefore(y, 11) == 334 + leap;
  }

  /** The leap years up to y of the Gregorian calendar. */
  function Leaps(y: int): int {
    y / 4 - y / 100 + y / 400
  }

  /** The sum over the years has the closed form of the Gregorian calendar. */
  lemma {:induction false} Gregorian(y: int)
    requires y >= 1970
    ensures YearsBefore(y) == 365 * (y - 1970) + Leaps(y - 1) - Leaps(1969)
    decreases y
  {
    if y > 1970 {
      Gregorian(y - 1);
      LeapStep(y - 1);
    }
  }

  lemma LeapStep(y: int)
    requires y > 0
    ensures Leaps(y) == Leaps(y - 1) + if LeapYear(y) then 1 else 0
  {
    assert y / 4 == (y - 1) / 4 + if y % 4 == 0 then 1 else 0;
    assert y / 100 == (y - 1) / 100 + if y % 100 == 0 then 1 else 0;
    assert y / 400 == (y - 1) / 400 + if y % 400 == 0 then 1 else 0;
  }

  // ------------------------------------------------- what the two functions compute

  /** The day count of a time in the zone. */
  function DayCount(t: int): int {
    Div(Div(Div(t + ZONE, 60), 60), 24)
  }

  /** The clock fields of a time in the zone. */
  ghost predicate Clock(t: int, tm: Tm) {
    var a := t + ZONE;
    tm.sec == Mod(a, 60) && tm.min == Mod(Div(a, 60), 60) && tm.hour == Mod(Div(Div(a, 60), 60), 24)
  }

  /** The date fields name the day that comes d days after 1 January 1970. */
  ghost predicate Date(d: int, tm: Tm) {
    var y := tm.year + 1900;
    && y >= 1970 && 0 <= tm.mon < 12
    && d == YearsBefore(y) + tm.yday && 0 <= tm.yday < YearLen(y)
    && tm.yday == MonthsBefore(y, tm.mon) + tm.mday - 1 && 1 <= tm.mday <= NDays(y, tm.mon)
  }

  /** A negative day count stays in January 1970. */
  ghost predicate Before1970(d: int, tm: Tm) {
    tm.year == 70 && tm.mon == 0 && tm.yday == d && tm.mday == d + 1
  }

  ghost predicate Local(t: int, tm: Tm) {
    var d := Wrap32(DayCount(t));
    Clock(t, tm) && (if d >= 0 then Date(d, tm) else Before1970(d, tm)) && tm.wday == Mod(Wrap32(d + 4), 7)
  }

  /** The seconds of the months before m.  past are the ints that lie behind the table. */
  function MonthSeconds(y: int, m: nat, past: nat -> int): int {
    if m == 0 then 0
    else MonthSeconds(y, m - 1, past) + if m <= 12 then DAY * NDays(y, m - 1) else Wrap32(past(m - 1) * DAY)
  }

  lemma {:induction false} InsideTable(y: int, m: nat, past: nat -> int)
    requires m <= 12
    ensures MonthSeconds(y, m, past) == DAY * MonthsBefore(y, m)
  {
    if m > 0 { InsideTable(y, m - 1, past); }
  }

  /** What mktime adds up. */
  function Seconds(tm: Tm, past: nat -> int): int {
    DAY * YearsBefore(tm.year + 1900) + MonthSeconds(tm.year + 1900, if tm.mon < 0 then 0 else tm.mon, past)
    + Wrap32((tm.mday - 1) * DAY) + Wrap32(tm.hour * 3600) + Wrap32(tm.min * 60) + tm.sec - ZONE
  }

  /** The year loop of localtime_r. */
  method FindYear(d: int) returns (y: int, rest: int)
    ensures y >= 1970
    ensures d >= 0 ==> d == YearsBefore(y) + rest && 0 <= rest < YearLen(y)
    ensures d < 0 ==> y == 1970 && rest == d
  {
    y, rest := 1970, d;
    while rest >= YearLen(y)
      invariant y >= 1970 && d == YearsBefore(y) + rest
      invariant d >= 0 ==> rest >= 0
      invariant d < 0 ==> y == 1970 && rest == d
      decreases rest
    {
      rest := rest - YearLen(y);
      y := y + 1;
    }
  }

  /** The month loop of localtime_r; it stops inside the year. */
  method FindMonth(y: int, yday: int) returns (m: int, rest: int)
    requires yday < YearLen(y)
    ensures 0 <= m < 12 && yday == MonthsBefore(y, m) + rest
    ensures yday >= 0 ==> 0 <= rest < NDays(y, m)
    ensures yday < 0 ==> m == 0 && rest == yday
  {
    m, rest := 0, yday;
    WholeYear(y);
    while rest >= NDays(y, m)
      invariant 0 <= m < 12 && yday == MonthsBefore(y, m) + rest
      invariant yday >= 0 ==> rest >= 0
      invariant yday < 0 ==> m == 0 && rest == yday
      decreases rest
    {
      rest := rest - NDays(y, m);
      m := m + 1;
    }
  }

  method LocaltimeR(t: int) returns (tm: Tm)
    ensures Local(t, tm)
  {
    var a := t + ZONE;
    var sec := Mod(a, 60);
    a := Div(a, 60);
    var min := Mod(a, 60);
    a := Div(a, 60);
    var hour := Mod(a, 24);
    a := Div(a, 24);
    var days := Wrap32(a);
    var y, yday := FindYear(days);
    var m, rest := FindMonth(y, yday);
    return Tm(sec, min, hour, rest + 1, m, y - 1900, Mod(Wrap32(days + 4), 7), yday);
  }

  /** A month above 12 reads past the table of days. */
  method Mktime(tm: Tm, past: nat -> int) returns (r: int)
    ensures r == Seconds(tm, past)
  {
    r := 0;
    var y := 1970;
    while y < tm.year + 1900
      invariant y >= 1970 && (tm.year + 1900 >= 1970 ==> y <= tm.year + 1900) && (tm.year + 1900 < 1970 ==> y == 1970)
      invariant r == DAY * YearsBefore(y)
    {
      r := r + YearLen(y) * 24 * 3600;
      y := y + 1;
    }
    var m := 0;
    while m < tm.mon
      invariant 0 <= m && (m <= tm.mon || m == 0) && r == DAY * YearsBefore(tm.year + 1900) + MonthSeconds(tm.year + 1900, m, past)
    {
      r := r + if m < 12 then NDays(tm.year + 1900, m) * 24 * 3600 else Wrap32(past(m) * DAY);
      m := m + 1;
    }
    r := r + Wrap32((tm.mday - 1) * DAY);
    r := r + Wrap32(tm.hour * 3600);
    r := r + Wrap32(tm.min * 60);
    r := r + tm.sec;
    r := r - ZONE;
  }

  // ------------------------------------------------- there and back

  /** Truncating division keeps the sign. */
  lemma Truncates(a: int, b: int)
    requires b > 0
    ensures a == b * Div(a, b) + Mod(a, b) && -b < Mod(a, b) < b
    ensures a >= 0 ==> Div(a, b) >= 0 && Mod(a, b) >= 0
    ensures a <= 0 ==> Div(a, b) <= 0 && Mod(a, b) <= 0
  {
  }

  lemma ClockAdds(t: int, tm: Tm)
    requires Clock(t, tm)
    ensures t + ZONE == DAY * DayCount(t) + tm.hour * 3600 + tm.min * 60 + tm.sec
    ensures -24 < tm.hour < 24 && -60 < tm.min < 60 && -60 < tm.sec < 60
    ensures t + ZONE >= 0 ==> tm.hour >= 0 && tm.min >= 0 && tm.sec >= 0
    ensures t + ZONE <= 0 ==> tm.hour <= 0 && tm.min <= 0 && tm.sec <= 0
  {
    var a := t + ZONE;
    Truncates(a, 60);
    Truncates(Div(a, 60), 60);
    Truncates(Div(Div(a, 60), 60), 24);
  }

  /** mktime undoes localtime_r exactly when the day count lies between -24855, below which
      the seconds of a negative day overflow an int, and the largest int. */
  lemma RoundTrip(t: int, tm: Tm, past: nat -> int)
    requires Local(t, tm)
    ensures Seconds(tm, past) == t <==> -24855 <= DayCount(t) < 0x8000_0000
  {
    InsideTable(tm.year + 1900, tm.mon, past);
    var d := Wrap32(DayCount(t));
    ClockAdds(t, tm);
    assert Wrap32(tm.hour * 3600) == tm.hour * 3600 && Wrap32(tm.min * 60) == tm.min * 60;
    if d >= 0 {
      assert Wrap32((tm.mday - 1) * DAY) == (tm.mday - 1) * DAY;
      assert Seconds(tm, past) == DAY * d + tm.hour * 3600 + tm.min * 60 + tm.sec - ZONE;
    } else {
      assert Seconds(tm, past) == Wrap32(d * DAY) + tm.hour * 3600 + tm.min * 60 + tm.sec - ZONE;
    }
  }

  /** On the first day below the range, 13 December 1901, and on the first above it mktime
      gives another time back. */
  lemma RoundTripFails(tm: Tm, past: nat -> int)
    ensures Local(-24856 * DAY - ZONE, tm) ==> Seconds(tm, past) != -24856 * DAY - ZONE
    ensures Local(0x8000_0000 * DAY - ZONE, tm) ==> Seconds(tm, past) != 0x8000_0000 * DAY - ZONE
  {
    assert DayCount(-24856 * DAY - ZONE) == -24856;
    assert DayCount(0x8000_0000 * DAY - ZONE) == 0x8000_0000;
    if Local(-24856 * DAY - ZONE, tm) { RoundTrip(-24856 * DAY - ZONE, tm, past); }
    if Local(0x8000_0000 * DAY - ZONE, tm) { RoundTrip(0x8000_0000 * DAY - ZONE, tm, past); }
  }

  /** Time 0 is seven in the morning of Thursday, 1 January 1970, in the zone of the kernel. */
  lemma Epoch(tm: Tm)
    requires Local(0, tm)
    ensures tm == Tm(0, 0, 7, 1, 0, 70, 4, 0)
  {
    var t, d, y, m := 0, 0, 1970, 0;
    EpochAt(t, d, tm, y, m);
  }

  lemma EpochAt(t: int, d: int, tm: Tm, y: int, m: nat)
    requires Local(t, tm) && t == 0 && d == 0 && y == 1970 && m == 0
    ensures tm == Tm(0, 0, 7, 1, 0, 70, 4, 0)
  {
    ThatDay(t, d, tm, y, m, 1, 0);
  }

  /** Time 951782400 is seven in the morning of Tuesday, 29 February 2000. */
  lemma LeapDay(tm: Tm)
    requires Local(951782400, tm)
    ensures tm == Tm(0, 0, 7, 29, 1, 100, 2, 59)
  {
    Before2000(2000, 1);
    ThatDay(951782400, 11016, tm, 2000, 1, 29, 59);
  }

  lemma Before2000(y: int, m: nat)
    requires y == 2000 && m == 1
    ensures YearsBefore(y) == 10957 && MonthsBefore(y, m) == 31 && YearLen(y) == 366 && NDays(y, m) == 29
  {
    Gregorian(y);
    assert MonthsBefore(y, m) == MonthsBefore(y, m - 1) + NDays(y, m - 1);
  }

  /** The fields at a time whose day is known. */
  lemma ThatDay(t: int, d: int, tm: Tm, y: int, m: nat, day: int, yday: int)
    requires Local(t, tm) && d == DayCount(t) && 0 <= d < 0x7fff_fffc && y >= 1970 && m < 12
    requires d == YearsBefore(y) + yday && 0 <= yday < YearLen(y)
    requires yday == MonthsBefore(y, m) + day - 1 && 1 <= day <= NDays(y, m)
    ensures tm.year == y - 1900 && tm.mon == m && tm.mday == day && tm.yday == yday && tm.wday == Mod(d + 4, 7)
  {
    DateUnique(d, tm, Tm(0, 0, 0, day, m, y - 1900, 0, yday));
  }

  /** All fields are in the ranges that struct tm names. */
  ghost predicate InRange(tm: Tm) {
    && 0 <= tm.sec < 60 && 0 <= tm.min < 60 && 0 <= tm.hour < 24
    && 0 <= tm.mon < 12 && 1 <= tm.mday <= NDays(tm.year + 1900, tm.mon) && 0 <= tm.yday < YearLen(tm.year + 1900)
    && 0 <= tm.wday < 7
  }

  /** Adding 4 to the day count wraps in the last four days of an int; the weekday is then
      negative, but for the one of them that is a multiple of 7. */
  lemma Weekday(d: int)
    requires 0 <= d < 0x8000_0000
    ensures 0 <= Mod(Wrap32(d + 4), 7) < 7 <==> d < 0x7fff_fffc || d == 0x7fff_fffe
  {
  }

  /** The fields form a date exactly when the day count is not negative as an int, the weekday
      does not overflow, and the local time is not negative or is a whole number of days. */
  lemma ValidDate(t: int, tm: Tm)
    requires Local(t, tm)
    ensures InRange(tm) <==>
            var d := Wrap32(DayCount(t));
            d >= 0 && (d < 0x7fff_fffc || d == 0x7fff_fffe) && (t + ZONE >= 0 || (t + ZONE) % DAY == 0)
  {
    if Wrap32(DayCount(t)) >= 0 { Weekday(Wrap32(DayCount(t))); }
    ClockAdds(t, tm);
    var r := tm.hour * 3600 + tm.min * 60 + tm.sec;
    WholeDays(t + ZONE, DayCount(t), r);
    assert t + ZONE < 0 ==> (r == 0 <==> tm.hour == 0 && tm.min == 0 && tm.sec == 0);
  }

  lemma WholeDays(a: int, d: int, r: int)
    requires a == DAY * d + r && -DAY < r < DAY
    ensures a % DAY == 0 <==> r == 0
  {
    if a % DAY == 0 {
      var q := a / DAY;
      assert r == DAY * (q - d);
    }
  }

  /** For a day count that fits, the date and the weekday are right; 1 January 1970 was a
      Thursday. */
  lemma RightDay(t: int, tm: Tm)
    requires Local(t, tm) && 0 <= DayCount(t) < 0x7fff_fffc
    ensures Date(DayCount(t), tm) && tm.wday == (DayCount(t) + 4) % 7
  {
  }

  /** Two dates with the same day count are the same date. */
  lemma DateUnique(d: int, a: Tm, b: Tm)
    requires Date(d, a) && Date(d, b)
    ensures a.year == b.year && a.mon == b.mon && a.mday == b.mday && a.yday == b.yday
  {
    YearOrder(a.year + 1900, b.year + 1900);
    YearOrder(b.year + 1900, a.year + 1900);
    if a.year == b.year {
      MonthOrder(a.year + 1900, a.mon, b.mon);
      MonthOrder(a.year + 1900, b.mon, a.mon);
    }
  }

  lemma {:induction false} YearOrder(y: int, z: int)
    requires y >= 1970
    ensures y < z ==> YearsBefore(y) + YearLen(y) <= YearsBefore(z)
    decreases z - y
  {
    if y + 1 < z { YearOrder(y, z - 1); }
  }

  lemma {:induction false} MonthOrder(y: int, m: nat, k: nat)
    requires m < 12 && k < 12
    ensures m < k ==> MonthsBefore(y, m) + NDays(y, m) <= MonthsBefore(y, k)
    decreases k
  {
    if m + 1 < k { MonthOrder(y, m, k - 1); }
  }
}
