/**
 The text a BSON DateTime renders to: the instant (milliseconds since the
 Unix epoch) converted to a UTC `time.Time` and written in the RFC 3339
 layout `YYYY-MM-DDTHH:MM:SSZ` (RFC 3339 section 5.6), with the sub-second
 part dropped, as Go's `time.RFC3339` layout does.
 */
module IsoDate {
  import opened Numbers

  /** Go's integer quotient, which truncates toward zero: the floor for a non-negative dividend, the ceiling for a negative one. */
  function GoQuo(a: int, b: int): (q: int)
    requires b > 0
    ensures a >= 0 ==> q * b <= a < q * b + b
    ensures a < 0 ==> q * b - b < a <= q * b
  {
    if a >= 0 then a / b else -((-a) / b)
  }

  /** Go's remainder, which takes the sign of the dividend. */
  function GoRem(a: int, b: int): int
    requires b > 0
  {
    a - b * GoQuo(a, b)
  }

  /**
   The whole seconds of `primitive.DateTime.Time()`: `time.Unix(ms / 1000,
   ms % 1000 * 1e6)` with Go's truncating operators, after `time.Unix` has
   carried a negative nanosecond count into the seconds.
   */
  function UnixSeconds(millis: int): (secs: int)
    ensures secs * 1000 <= millis < secs * 1000 + 1000
  {
    var sec := GoQuo(millis, 1000);
    var nsec := GoRem(millis, 1000) * 1_000_000;
    if nsec < 0 || nsec >= 1_000_000_000 then
      var n := GoQuo(nsec, 1_000_000_000);
      var sec', nsec' := sec + n, nsec - n * 1_000_000_000;
      if nsec' < 0 then sec' - 1 else sec'
    else
      sec
  }

  /** A proleptic Gregorian calendar date; years are astronomical (year 0 exists). */
  datatype Civil = Civil(year: int, month: int, day: int)

  /** Days before the current month within a March-based year, for March-based month `mp` (0 = March). */
  function MonthStart(mp: int): int {
    (153 * mp + 2) / 5
  }

  /** The Gregorian leap-year rule. */
  predicate IsLeap(year: int) {
    year % 4 == 0 && (year % 100 != 0 || year % 400 == 0)
  }

  /** The number of days of a month of the proleptic Gregorian calendar. */
  function DaysInMonth(year: int, month: int): int {
    if month == 2 then (if IsLeap(year) then 29 else 28)
    else if month == 4 || month == 6 || month == 9 || month == 11 then 30
    else 31
  }

  /** The leap-year rule repeats every 400 years. */
  lemma LeapShift(y: int, k: int)
    ensures IsLeap(y + 400 * k) == IsLeap(y)
  {
    DivIs(y + 400 * k, 4, y / 4 + 100 * k);
    DivIs(y + 400 * k, 100, y / 100 + 4 * k);
    DivIs(y + 400 * k, 400, y / 400 + k);
  }

  /** Years into a 400-year era (of 146097 days) of the era's day `doe`. */
  function YearOfEra(doe: int): int {
    (doe - doe / 1460 + doe / 36524 - doe / 146096) / 365
  }

  /** Days of the first `yoe` March-based years of an era. */
  function EraYearStart(yoe: int): int {
    365 * yoe + yoe / 4 - yoe / 100
  }

  /** `a / d` is the `q` that brackets `a`; used with constant divisors. */
  lemma DivIs(a: int, d: int, q: int)
    requires d > 0 && d * q <= a < d * q + d
    ensures a / d == q && a % d == a - d * q
  {
    var r := a / d;
    assert a == d * r + a % d && 0 <= a % d < d;
    if r > q {
      MulMonotone(d, q + 1, r);
    } else if r < q {
      MulMonotone(d, r + 1, q);
    }
  }

  lemma MulMonotone(d: int, x: int, y: int)
    requires d > 0 && x <= y
    ensures d * x <= d * y
  {
    assert d * y - d * x == d * (y - x);
  }

  /** The first day of March-based year `100 c + 4 q + t` of an era (c < 4 centuries, q < 25 leap cycles, t < 4 years). */
  lemma EraYearStartSplit(c: int, q: int, t: int)
    requires 0 <= c <= 3 && 0 <= q <= 24 && 0 <= t <= 3
    ensures EraYearStart(100 * c + 4 * q + t) == 36524 * c + 1461 * q + 365 * t
  {
    var y := 100 * c + 4 * q + t;
    DivIs(y, 4, 25 * c + q);
    DivIs(y, 100, c);
  }

  /** The year of the era of a day that is not the era's last: doe = 36524 c + 1461 q + s. */
  lemma YearOfEraSplit(doe: int, c: int, q: int, s: int)
    requires 0 <= c <= 3 && 0 <= q <= 24 && 0 <= s <= 1460 && (q == 24 ==> s < 1460)
    requires doe == 36524 * c + 1461 * q + s
    ensures YearOfEra(doe) == 100 * c + 4 * q + (if s == 1460 then 3 else s / 365)
  {
    var k := if s >= 1460 - 24 * c - q then 1 else 0;
    DivIs(doe, 1460, 25 * c + q + k);
    DivIs(doe, 36524, c);
    DivIs(doe, 146096, 0);
    var t := if s == 1460 then 3 else s / 365;
    assert 0 <= t <= 3 && 365 * t <= s - k < 365 * t + 365;
    DivIs(36500 * c + 1460 * q + s - k, 365, 100 * c + 4 * q + t);
  }

  lemma YearOfEraBounds(doe: int)
    requires 0 <= doe < 146097
    ensures 0 <= YearOfEra(doe) <= 399
    ensures 0 <= doe - EraYearStart(YearOfEra(doe)) <= 365
    ensures doe - EraYearStart(YearOfEra(doe)) == 365 ==> IsLeap(YearOfEra(doe) + 1)
  {
    if doe == 146096 {
      DivIs(doe, 1460, 100);
      DivIs(doe, 36524, 4);
      DivIs(doe, 146096, 1);
      DivIs(doe - 100 + 4 - 1, 365, 399);
      DivIs(399, 4, 99);
      DivIs(399, 100, 3);
      DivIs(400, 400, 1);
    } else {
      var c, r := doe / 36524, doe % 36524;
      var q, s := r / 1461, r % 1461;
      YearOfEraSplit(doe, c, q, s);
      EraYearStartSplit(c, q, if s == 1460 then 3 else s / 365);
      if s == 1460 {
        CycleEndLeap(c, q);
      }
    }
  }

  /** The fourth year of a four-year cycle that does not end a century is a leap year. */
  lemma CycleEndLeap(c: int, q: int)
    requires 0 <= c <= 3 && 0 <= q <= 23
    ensures IsLeap(100 * c + 4 * q + 4)
  {
    DivIs(100 * c + 4 * q + 4, 4, 25 * c + q + 1);
    DivIs(100 * c + 4 * q + 4, 100, c);
  }

  /**
   Day `doy` of a March-based year (day 0 is March 1st) falls in month
   `mp` (0 is March, 11 is February) on day `d` of that month; day 365 only
   exists when February has 29 days.
   */
  lemma MarchMonth(doy: int, leapFebruary: bool)
    requires 0 <= doy <= 365 && (doy == 365 ==> leapFebruary)
    ensures var mp := (5 * doy + 2) / 153;
      var d := doy - MonthStart(mp) + 1;
      var m := if mp < 10 then mp + 3 else mp - 9;
      && 0 <= mp <= 11 && 1 <= d
      && d <= (if m == 2 then (if leapFebruary then 29 else 28)
               else if m == 4 || m == 6 || m == 9 || m == 11 then 30 else 31)
  {
    var mp := (5 * doy + 2) / 153;
    assert 153 * mp <= 5 * doy + 2 < 153 * mp + 153;
    assert 0 <= mp <= 11;
  }

  /** The calendar date of day `z`, counting day 0 as 1970-01-01. */
  function CivilFromDays(z: int): (c: Civil)
    ensures 1 <= c.month <= 12 && 1 <= c.day <= DaysInMonth(c.year, c.month)
  {
    var z' := z + 719468;
    var era := z' / 146097;
    var doe := z' % 146097;
    var yoe := YearOfEra(doe);
    YearOfEraBounds(doe);
    var doy := doe - EraYearStart(yoe);
    MarchMonth(doy, IsLeap(yoe + 1));
    LeapShift(yoe + 1, era);
    var mp := (5 * doy + 2) / 153;
    var d := doy - MonthStart(mp) + 1;
    var m := if mp < 10 then mp + 3 else mp - 9;
    Civil(yoe + era * 400 + (if m <= 2 then 1 else 0), m, d)
  }

  /** The day number of a calendar date, counting 1970-01-01 as day 0. */
  function DaysFromCivil(year: int, month: int, day: int): int {
    var y := if month <= 2 then year - 1 else year;
    var era := y / 400;
    var yoe := y % 400;
    var mp := if month > 2 then month - 3 else month + 9;
    var doy := MonthStart(mp) + day - 1;
    era * 146097 + EraYearStart(yoe) + doy - 719468
  }

  /** CivilFromDays names each day by a date that DaysFromCivil maps back to that day. */
  lemma CivilRoundTrip(z: int)
    ensures var c := CivilFromDays(z); DaysFromCivil(c.year, c.month, c.day) == z
  {
    var z' := z + 719468;
    var era := z' / 146097;
    var doe := z' % 146097;
    var yoe := YearOfEra(doe);
    YearOfEraBounds(doe);
    var doy := doe - EraYearStart(yoe);
    var mp := (5 * doy + 2) / 153;
    assert 0 <= mp <= 11;
    var c := CivilFromDays(z);
    var y := if c.month <= 2 then c.year - 1 else c.year;
    assert y == yoe + era * 400;
    assert y / 400 == era && y % 400 == yoe;
  }

  /** The RFC 3339 layout `Y-M-DTh:m:sZ` with the UTC designator. */
  function Layout(y: string, mo: string, d: string, h: string, mi: string, sec: string): string {
    y + "-" + mo + "-" + d + "T" + h + ":" + mi + ":" + sec + "Z"
  }

  /** RFC 3339 `date-time` text of the Unix second `secs`, in UTC: at least 20 characters, ending in the `Z` designator. */
  function SecondsText(secs: int): (r: string)
    ensures |r| >= 20 && r[|r| - 1] == 'Z'
  {
    var days, sod := secs / 86400, secs % 86400;
    var c := CivilFromDays(days);
    Layout(PaddedInt(c.year, 4), PaddedInt(c.month, 2), PaddedInt(c.day, 2),
           PaddedInt(sod / 3600, 2), PaddedInt(sod / 60 % 60, 2), PaddedInt(sod % 60, 2))
  }

  /** RFC 3339 `date-time` text of the instant `millis`, in UTC and without fractional seconds. */
  function IsoText(millis: int): (r: string)
    ensures |r| >= 20 && r[|r| - 1] == 'Z'
  {
    SecondsText(UnixSeconds(millis))
  }

  /** The layout `DDDD-DD-DDTDD:DD:DDZ`, D a decimal digit. */
  predicate IsoShaped(r: string) {
    && |r| == 20
    && AllDigits(r[0..4]) && r[4] == '-' && AllDigits(r[5..7]) && r[7] == '-' && AllDigits(r[8..10])
    && r[10] == 'T' && AllDigits(r[11..13]) && r[13] == ':' && AllDigits(r[14..16]) && r[16] == ':'
    && AllDigits(r[17..19]) && r[19] == 'Z'
  }

  /** The Unix second that an `IsoShaped` text names. */
  function IsoSeconds(r: string): int
    requires IsoShaped(r)
  {
    DaysFromCivil(ParseNat(r[0..4]), ParseNat(r[5..7]), ParseNat(r[8..10])) * 86400
    + ParseNat(r[11..13]) * 3600 + ParseNat(r[14..16]) * 60 + ParseNat(r[17..19])
  }

  /** The whole seconds are the floor of the milliseconds over 1000, for negative instants too. */
  lemma UnixSecondsFloor(millis: int)
    ensures UnixSeconds(millis) == millis / 1000
  {
  }

  /** Instants within the same second render identically: milliseconds are truncated, never rounded. */
  lemma IsoTruncatesMillis(millis: int)
    ensures IsoText(millis) == IsoText(millis / 1000 * 1000)
  {
    UnixSecondsFloor(millis);
    UnixSecondsFloor(millis / 1000 * 1000);
    assert millis / 1000 * 1000 / 1000 == millis / 1000;
  }

  lemma LayoutFields(y: string, mo: string, d: string, h: string, mi: string, sec: string)
    requires |y| == 4 && |mo| == 2 && |d| == 2 && |h| == 2 && |mi| == 2 && |sec| == 2
    ensures var r := Layout(y, mo, d, h, mi, sec);
      && |r| == 20 && r[0..4] == y && r[4] == '-' && r[5..7] == mo && r[7] == '-' && r[8..10] == d
      && r[10] == 'T' && r[11..13] == h && r[13] == ':' && r[14..16] == mi && r[16] == ':'
      && r[17..19] == sec && r[19] == 'Z'
  {
  }

  /** Hours, minutes and seconds of the day's second `sod` are in range and add back up to it. */
  lemma TimeOfDay(sod: int)
    requires 0 <= sod < 86400
    ensures sod / 3600 < 24 && sod / 60 % 60 < 60 && sod % 60 < 60
    ensures sod / 3600 * 3600 + sod / 60 % 60 * 60 + sod % 60 == sod
  {
    var m := sod / 60;
    assert sod == 60 * m + sod % 60;
    assert m == 60 * (m / 60) + m % 60;
    DivIs(sod, 3600, m / 60);
  }

  /**
   For the years 0000 to 9999 the text of a second has the fixed 20-character
   layout and reading its fields back gives that second.
   */
  lemma SecondsTextRoundTrip(secs: int)
    requires 0 <= CivilFromDays(secs / 86400).year <= 9999
    ensures IsoShaped(SecondsText(secs))
    ensures IsoSeconds(SecondsText(secs)) == secs
  {
    var days, sod := secs / 86400, secs % 86400;
    var c := CivilFromDays(days);
    var hh, mm, ss := sod / 3600, sod / 60 % 60, sod % 60;
    var ys, mos, ds := PaddedInt(c.year, 4), PaddedInt(c.month, 2), PaddedInt(c.day, 2);
    var hs, mis, ses := PaddedInt(hh, 2), PaddedInt(mm, 2), PaddedInt(ss, 2);
    NatTextWidth(c.year);
    NatTextWidth(c.month);
    NatTextWidth(c.day);
    NatTextWidth(hh);
    NatTextWidth(mm);
    NatTextWidth(ss);
    PaddedNat(c.year, 4);
    PaddedNat(c.month, 2);
    PaddedNat(c.day, 2);
    PaddedNat(hh, 2);
    PaddedNat(mm, 2);
    PaddedNat(ss, 2);
    LayoutFields(ys, mos, ds, hs, mis, ses);
    var r := SecondsText(secs);
    assert r == Layout(ys, mos, ds, hs, mis, ses);
    CivilRoundTrip(days);
    assert IsoSeconds(r) == DaysFromCivil(c.year, c.month, c.day) * 86400 + hh * 3600 + mm * 60 + ss;
    TimeOfDay(sod);
  }

  /** The instant's text, for the years 0000 to 9999, reads back as the instant's whole second. */
  lemma IsoTextRoundTrip(millis: int)
    requires 0 <= CivilFromDays(UnixSeconds(millis) / 86400).year <= 9999
    ensures IsoShaped(IsoText(millis))
    ensures IsoSeconds(IsoText(millis)) == UnixSeconds(millis)
  {
    SecondsTextRoundTrip(UnixSeconds(millis));
  }
}
