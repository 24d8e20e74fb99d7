/** The calendar of shfs_utime: isleap, __spm and strctime (src/filesystems/shfs/shfs.c lines
    937-999), against the Gregorian calendar and the formula of section 4.16 (Seconds Since the
    Epoch) of IEEE Std 1003.1-2017, XBD. */
module Calendar {

  const SPD := 24 * 60 * 60

  /** The six numbers that strctime prints. */
  datatype Date = Date(year: int, month: int, day: int, hour: int, min: int, sec: int)

  predicate IsLeap(year: int) {
    year % 4 == 0 && (year % 100 != 0 || year % 400 == 0)
  }

  function DaysInYear(year: int): int {
    if IsLeap(year) then 366 else 365
  }

  function DaysInMonth(year: int, month: int): int {
    match month
    case 1 => 31
    case 2 => if IsLeap(year) then 29 else 28
    case 3 => 31
    case 4 => 30
    case 5 => 31
    case 6 => 30
    case 7 => 31
    case 8 => 31
    case 9 => 30
    case 10 => 31
    case 11 => 30
    case _ => 31
  }

  /** A date of the Gregorian calendar with a time of day, not before the Epoch. */
  ghost predicate Valid(d: Date) {
    && 1970 <= d.year && 1 <= d.month <= 12 && 1 <= d.day <= DaysInMonth(d.year, d.month)
    && 0 <= d.hour < 24 && 0 <= d.min < 60 && 0 <= d.sec < 60
  }

  /** The days of the year in front of a month. */
  function DaysBefore(year: int, month: nat): int {
    if month <= 1 then 0 else DaysBefore(year, month - 1) + DaysInMonth(year, month - 1)
  }

  /** tm_yday */
  ghost function YearDay(d: Date): int
    requires Valid(d)
  {
    DaysBefore(d.year, d.month) + d.day - 1
  }

  /** The formula of POSIX, with tm_year = year - 1900 and tm_yday counted over whole months. */
  ghost function SecondsSinceEpoch(d: Date): int
    requires Valid(d)
  {
    d.sec + d.min * 60 + d.hour * 3600 + YearDay(d) * 86400 + DaysToYear(d.year) * 86400
  }

  /** The year part of the formula, in days. */
  function DaysToYear(year: int): int {
    var tmYear := year - 1900;
    (tmYear - 70) * 365 + (tmYear - 69) / 4 - (tmYear - 1) / 100 + (tmYear + 299) / 400
  }

  lemma FourYears(year: int)
    ensures (year - 1968) / 4 == (year - 1969) / 4 + if year % 4 == 0 then 1 else 0
  {
  }

  lemma Century(year: int)
    ensures (year - 1900) / 100 == (year - 1901) / 100 + if year % 100 == 0 then 1 else 0
  {
  }

  lemma FourCenturies(year: int)
    ensures (year - 1600) / 400 == (year - 1601) / 400 + if year % 400 == 0 then 1 else 0
  {
  }

  /** The formula counts a leap day exactly in the years that isleap names. */
  lemma YearStep(year: int)
    ensures DaysToYear(year + 1) == DaysToYear(year) + DaysInYear(year)
  {
    FourYears(year);
    Century(year);
    FourCenturies(year);
    LeapCount(year);
    assert year + 1 - 1900 - 69 == year - 1968 && year + 1 - 1900 - 1 == year - 1900 && year + 1 - 1900 + 299 == year - 1600;
  }

  /** The three corrections add up to the leap day. */
  lemma LeapCount(year: int)
    ensures (if year % 4 == 0 then 1 else 0) - (if year % 100 == 0 then 1 else 0) + (if year % 400 == 0 then 1 else 0)
            == if IsLeap(year) then 1 else 0
  {
    if year % 400 == 0 {
      By100(year);
    }
    if year % 100 == 0 {
      By4(year);
    }
  }

  lemma By100(year: int)
    requires year % 400 == 0
    ensures year % 100 == 0
  {
    var q := year / 400;
    assert year == 100 * (4 * q);
  }

  lemma By4(year: int)
    requires year % 100 == 0
    ensures year % 4 == 0
  {
    var q := year / 100;
    assert year == 4 * (25 * q);
  }

  /** __spm: days in front of each month of a year that is not leap. */
  const SPM: seq<int> := [0, 31, 59, 90, 120, 151, 181, 212, 243, 273, 304, 334]

  lemma {:induction false} MonthStart(year: int, month: nat)
    requires 1 <= month <= 12
    ensures DaysBefore(year, month) == SPM[month - 1] + if IsLeap(year) && month > 2 then 1 else 0
    ensures SPM[month - 1] + DaysInMonth(year, month) == (if month == 12 then 365 else SPM[month]) + if IsLeap(year) && month == 2 then 1 else 0
  {
    if month > 1 {
      MonthStart(year, month - 1);
    }
  }

  /** The first loop of strctime. */
  method SplitYear(days: nat) returns (year: int, yday: int)
    ensures 1970 <= year && 0 <= yday < DaysInYear(year)
    ensures DaysToYear(year) + yday == days
  {
    year, yday := 1970, days;
    while yday >= DaysInYear(year)
      invariant 1970 <= year && 0 <= yday && DaysToYear(year) + yday == days
      decreases yday
    {
      YearStep(year);
      yday := yday - DaysInYear(year);
      year := year + 1;
    }
  }

  /** The rest of the date, lines 984-994: the leap day is taken out before the table is read. */
  method SplitMonth(year: int, yday: int) returns (month: int, day: int)
    requires 0 <= yday < DaysInYear(year)
    ensures 1 <= month <= 12 && 1 <= day <= DaysInMonth(year, month)
    ensures DaysBefore(year, month) + day - 1 == yday
  {
    var work := yday;
    day := 1;
    if IsLeap(year) && work > 58 {
      if work == 59 {
        day := 2;
      }
      work := work - 1;
    }
    var i := 11;
    while i > 0 && SPM[i] > work
      invariant 0 <= i <= 11 && 0 <= work
      invariant work < if i == 11 then 365 else SPM[i + 1]
    {
      i := i - 1;
    }
    MonthStart(year, i + 1);
    month := i + 1;
    day := day + work - SPM[i];
  }

  /** strctime: for every time from the Epoch on, a valid date that the formula maps back. */
  method StrCTime(time: nat) returns (d: Date)
    ensures Valid(d) && SecondsSinceEpoch(d) == time
  {
    var work := time % SPD;
    var sec := work % 60;
    work := work / 60;
    var min, hour := work % 60, work / 60;
    var year, yday := SplitYear(time / SPD);
    var month, day := SplitMonth(year, yday);
    d := Date(year, month, day, hour, min, sec);
  }

  lemma {:induction false} LaterYear(a: int, b: int)
    requires a < b
    ensures DaysToYear(a) + DaysInYear(a) <= DaysToYear(b)
    decreases b - a
  {
    YearStep(b - 1);
    YearStep(a);
    if a + 1 < b {
      LaterYear(a, b - 1);
    }
  }

  lemma {:induction false} LaterMonth(year: int, a: nat, b: nat)
    requires 1 <= a < b <= 12
    ensures DaysBefore(year, a) + DaysInMonth(year, a) <= DaysBefore(year, b)
    decreases b - a
  {
    if a + 1 < b {
      LaterMonth(year, a, b - 1);
    }
  }

  lemma DayInYear(d: Date)
    requires Valid(d)
    ensures 0 <= YearDay(d) < DaysInYear(d.year)
  {
    MonthStart(d.year, d.month);
  }

  lemma SameSeconds(days: int, hour: int, min: int, sec: int, days': int, hour': int, min': int, sec': int)
    requires 0 <= hour < 24 && 0 <= min < 60 && 0 <= sec < 60
    requires 0 <= hour' < 24 && 0 <= min' < 60 && 0 <= sec' < 60
    requires sec + min * 60 + hour * 3600 + days * 86400 == sec' + min' * 60 + hour' * 3600 + days' * 86400
    ensures days == days' && hour == hour' && min == min' && sec == sec'
  {
    assert days == days';
    assert hour == hour';
  }

  /** No other valid date has the same number of seconds, so strctime gives the only one. */
  lemma DateIsUnique(a: Date, b: Date)
    requires Valid(a) && Valid(b) && SecondsSinceEpoch(a) == SecondsSinceEpoch(b)
    ensures a == b
  {
    DayInYear(a);
    DayInYear(b);
    var m, n := YearDay(a) + DaysToYear(a.year), YearDay(b) + DaysToYear(b.year);
    SameSeconds(m, a.hour, a.min, a.sec, n, b.hour, b.min, b.sec);
    if a.year != b.year {
      LaterYear(if a.year < b.year then a.year else b.year, if a.year < b.year then b.year else a.year);
    }
    SameDay(a, b);
  }

  lemma SameDay(a: Date, b: Date)
    requires Valid(a) && Valid(b) && a.year == b.year && YearDay(a) == YearDay(b)
    ensures a.month == b.month && a.day == b.day
  {
    if a.month < b.month {
      LaterMonth(a.year, a.month, b.month);
    } else if b.month < a.month {
      LaterMonth(a.year, b.month, a.month);
    }
  }
}
