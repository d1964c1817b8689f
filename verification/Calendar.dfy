/** The logger's calendar: days since 1970-01-01 to a date, and seconds to the
    time of day. */
module Calendar {

  // ----- the Gregorian calendar, one day at a time ----------------------

  datatype Date = Date(year: nat, month: nat, day: nat)

  predicate Leap(year: nat) {
    year % 4 == 0 && (year % 100 != 0 || year % 400 == 0)
  }

  function DaysIn(year: nat, month: nat): nat {
    if month == 2 then (if Leap(year) then 29 else 28)
    else if month == 4 || month == 6 || month == 9 || month == 11 then 30
    else 31
  }

  predicate Valid(date: Date) {
    1 <= date.month <= 12 && 1 <= date.day <= DaysIn(date.year, date.month)
  }

  function NextDay(date: Date): Date {
    if date.day < DaysIn(date.year, date.month) then date.(day := date.day + 1)
    else if date.month < 12 then Date(date.year, date.month + 1, 1)
    else Date(date.year + 1, 1, 1)
  }

  function Counted(days: nat): Date {
    if days == 0 then Date(1970, 1, 1) else NextDay(Counted(days - 1))
  }

  // ----- days_to_ymd ----------------------------------------------------

  const ERA: nat := 146_097

  function YearOfEra(doe: nat): int {
    (doe - doe / 1460 + doe / 36524 - doe / 146_096) / 365
  }

  /** The day of an era a March-based year begins on. */
  function YearStart(yoe: int): int {
    365 * yoe + yoe / 4 - yoe / 100
  }

  function YearEnd(yoe: int): int {
    if yoe == 399 then ERA else YearStart(yoe + 1)
  }

  /** Four years of a century: the last day of the four is a leap day. */
  lemma YearOfFour(t: int, e: int)
    requires 0 <= t < 1461 && 0 <= e <= 1
    requires e == 1 ==> t >= 1364
    requires t == 1460 ==> e == 1
    ensures var q := (t - e) / 365;
      0 <= q <= 3 && 365 * q <= t && (q < 3 ==> t < 365 * (q + 1))
  {
  }

  lemma YearOfCentury(c: nat, r: nat)
    requires c <= 3 && r < 36524
    ensures var y := (r - (r + 24 * c) / 1460) / 365;
      && 0 <= y <= 99 && 365 * y + y / 4 <= r
      && (y < 99 ==> r < 365 * (y + 1) + (y + 1) / 4)
  {
    var b, t := r / 1461, r % 1461;
    var e := (b + t + 24 * c) / 1460;
    assert r == 1461 * b + t && b <= 24;
    assert (r + 24 * c) / 1460 == b + e by {
      assert r + 24 * c == 1460 * b + (b + t + 24 * c);
    }
    var q := (t - e) / 365;
    YearOfFour(t, e);
    assert r - (b + e) == 365 * (4 * b) + (t - e);
    assert (r - (b + e)) / 365 == 4 * b + q;
    assert (4 * b + q) / 4 == b;
    assert q == 3 ==> (4 * b + q + 1) / 4 == b + 1;
    assert q < 3 ==> (4 * b + q + 1) / 4 == b;
  }

  /** Year y of century c. */
  lemma CenturyStart(c: nat, y: nat)
    requires c <= 3 && y <= 99
    ensures YearStart(100 * c + y) == 36524 * c + 365 * y + y / 4
    ensures YearEnd(100 * c + y) >= if y < 99 then 36524 * c + 365 * (y + 1) + (y + 1) / 4 else 36524 * (c + 1)
  {
    assert (100 * c + y) / 100 == c && (100 * c + y) / 4 == 25 * c + y / 4;
    if y < 99 {
      assert (100 * c + y + 1) / 100 == c && (100 * c + y + 1) / 4 == 25 * c + (y + 1) / 4;
    } else {
      assert (100 * c + y + 1) / 100 == c + 1 && (100 * c + y + 1) / 4 == 25 * c + 25;
    }
  }

  lemma YearOfEraIs(c: nat, r: nat)
    requires c <= 3 && r < 36524 && 36524 * c + r < 146_096
    ensures YearOfEra(36524 * c + r) == 100 * c + (r - (r + 24 * c) / 1460) / 365
  {
    var doe := 36524 * c + r;
    assert doe / 36524 == c;
    assert doe / 1460 == 25 * c + (r + 24 * c) / 1460 by {
      assert doe == 1460 * (25 * c) + (r + 24 * c);
    }
    assert doe - doe / 1460 + c == 365 * (100 * c) + (r - (r + 24 * c) / 1460);
  }

  lemma CenturyBounds(c: nat, r: nat)
    requires c <= 3 && r < 36524 && 36524 * c + r < 146_096
    ensures var doe := 36524 * c + r;
      && 0 <= YearOfEra(doe) <= 399
      && YearStart(YearOfEra(doe)) <= doe < YearEnd(YearOfEra(doe))
  {
    hide YearOfEra, YearStart, YearEnd;
    YearOfCentury(c, r);
    YearOfEraIs(c, r);
    CenturyStart(c, (r - (r + 24 * c) / 1460) / 365);
  }

  lemma LastOfEra()
    ensures YearOfEra(146_096) == 399 && YearStart(399) <= 146_096 < YearEnd(399)
  {
  }

  /** The formula finds the year of the era a day belongs to. */
  lemma YearOfEraBounds(doe: nat)
    requires doe < ERA
    ensures 0 <= YearOfEra(doe) <= 399
    ensures YearStart(YearOfEra(doe)) <= doe < YearEnd(YearOfEra(doe))
  {
    hide YearOfEra, YearStart, YearEnd;
    if doe < 146_096 {
      CenturyBounds(doe / 36524, doe % 36524);
    } else {
      LastOfEra();
    }
  }

  /** The date of a day of a March-based year. */
  function DateOf(y: nat, doy: int): Date
    requires 0 <= doy <= 365
  {
    var mp := (5 * doy + 2) / 153;
    var d := doy - (153 * mp + 2) / 5 + 1;
    var m := if mp < 10 then mp + 3 else mp - 9;
    Date(if m <= 2 then y + 1 else y, m, d)
  }

  lemma YearOrder(a: int, b: int)
    requires 0 <= a < b <= 399
    ensures YearEnd(a) <= YearStart(b)
  {
  }

  lemma {:induction false} LeapPeriod(era: nat, y: nat)
    ensures Leap(400 * era + y) <==> Leap(y)
  {
    if era > 0 {
      LeapPeriod(era - 1, y + 400);
      assert Leap(y + 400) <==> Leap(y);
    }
  }

  lemma YearLength(yoe: nat)
    requires yoe <= 399
    ensures YearEnd(yoe) - YearStart(yoe) == if Leap(yoe + 1) then 366 else 365
  {
    var c, k := (yoe + 1) / 100, (yoe + 1) % 100;
    assert yoe + 1 == 100 * c + k;
    assert (yoe + 1) / 4 == 25 * c + k / 4;
    assert k > 0 ==> yoe == 100 * c + (k - 1) && yoe / 100 == c && yoe / 4 == 25 * c + (k - 1) / 4;
    assert k == 0 ==> yoe == 100 * (c - 1) + 99 && yoe / 100 == c - 1 && yoe / 4 == 25 * (c - 1) + 24;
  }

  /** The last day of a March-based year. */
  function LastDay(y: nat): nat {
    if Leap(y + 1) then 365 else 364
  }

  lemma LastDayLength(era: nat, yoe: nat)
    requires yoe <= 399
    ensures YearEnd(yoe) - YearStart(yoe) == LastDay(yoe + era * 400) + 1
  {
    YearLength(yoe);
    LeapPeriod(era, yoe + 1);
    assert 400 * era + (yoe + 1) == yoe + era * 400 + 1;
  }

  lemma YearFits(era: nat, doe: nat)
    requires doe < ERA
    ensures 0 <= YearOfEra(doe) <= 399
    ensures 0 <= doe - YearStart(YearOfEra(doe)) <= LastDay(YearOfEra(doe) + era * 400)
  {
    hide YearOfEra, YearStart, LastDay;
    YearOfEraBounds(doe);
    LastDayLength(era, YearOfEra(doe));
  }

  /** The date so many days after 1970-01-01, computed from years that begin
      in March. */
  function DaysToYmd(days: nat): Date {
    var z := days + 719_468;
    var era, doe := z / ERA, z % ERA;
    YearFits(era, doe);
    var yoe := YearOfEra(doe);
    DateOf(yoe + era * 400, doe - YearStart(yoe))
  }

  // ----- its successor --------------------------------------------------

  /** A date of a March-based year is valid, and its successor is the date of
      the next day, when that day is in the same year. */
  lemma DateOfValid(y: nat, doy: nat)
    requires doy <= LastDay(y)
    ensures Valid(DateOf(y, doy))
  {
  }

  /** A March-based year counts 153 days every five months. */
  lemma MonthNext(doy: nat)
    requires doy < 365
    ensures var mp := (5 * doy + 2) / 153;
      var d := doy - (153 * mp + 2) / 5 + 1;
      var last := if mp == 11 then 29 else (153 * mp + 155) / 5 - (153 * mp + 2) / 5;
      && mp <= 11 && 1 <= d <= last
      && (d < last ==> (5 * (doy + 1) + 2) / 153 == mp)
      && (d == last ==> (5 * (doy + 1) + 2) / 153 == mp + 1 && doy + 1 == (153 * (mp + 1) + 2) / 5)
  {
  }

  lemma DateOfNext(y: nat, doy: nat)
    requires doy < LastDay(y)
    ensures DateOf(y, doy + 1) == NextDay(DateOf(y, doy))
  {
    MonthNext(doy);
  }

  lemma LastOfYear(y: nat)
    ensures NextDay(DateOf(y, LastDay(y))) == DateOf(y + 1, 0)
  {
  }

  /** A day count placed in an era, a year of it and a day of that year. */
  ghost predicate Placed(days: nat, era: nat, yoe: nat, doy: nat) {
    && yoe <= 399 && doy <= LastDay(yoe + era * 400)
    && days + 719_468 == ERA * era + YearStart(yoe) + doy
  }

  lemma Place(days: nat) returns (era: nat, yoe: nat, doy: nat)
    ensures Placed(days, era, yoe, doy)
  {
    var z := days + 719_468;
    era := z / ERA;
    var doe := z % ERA;
    YearFits(era, doe);
    yoe := YearOfEra(doe);
    doy := doe - YearStart(yoe);
  }

  /** A day of an era belongs to one year only. */
  lemma OneYear(yoe: nat, doe: nat)
    requires yoe <= 399 && doe < ERA && YearStart(yoe) <= doe < YearEnd(yoe)
    ensures YearOfEra(doe) == yoe
  {
    YearOfEraBounds(doe);
    hide YearOfEra, YearStart;
    var y := YearOfEra(doe);
    if y < yoe {
      YearOrder(y, yoe);
    } else if yoe < y {
      YearOrder(yoe, y);
    }
  }

  lemma StartBounds(yoe: nat)
    requires yoe <= 399
    ensures 0 <= YearStart(yoe) < YearEnd(yoe) <= ERA
  {
  }

  lemma PlacedDate(days: nat, era: nat, yoe: nat, doy: nat)
    requires Placed(days, era, yoe, doy)
    ensures DaysToYmd(days) == DateOf(yoe + era * 400, doy)
  {
    hide YearOfEra, YearStart, DateOf, LastDay;
    var z, doe := days + 719_468, YearStart(yoe) + doy;
    LastDayLength(era, yoe);
    StartBounds(yoe);
    OneYear(yoe, doe);
    assert z / ERA == era && z % ERA == doe;
  }

  lemma DaysToYmdValid(days: nat)
    ensures Valid(DaysToYmd(days))
  {
    var era, yoe, doy := Place(days);
    PlacedDate(days, era, yoe, doy);
    DateOfValid(yoe + era * 400, doy);
  }

  lemma PlacedNext(days: nat, era: nat, yoe: nat, doy: nat)
    requires Placed(days, era, yoe, doy)
    ensures doy < LastDay(yoe + era * 400) ==> Placed(days + 1, era, yoe, doy + 1)
    ensures doy == LastDay(yoe + era * 400) && yoe < 399 ==> Placed(days + 1, era, yoe + 1, 0)
    ensures doy == LastDay(yoe + era * 400) && yoe == 399 ==> Placed(days + 1, era + 1, 0, 0)
  {
    assert YearStart(0) == 0;
    hide YearStart, LastDay;
    LastDayLength(era, yoe);
  }

  /** The next day count is the calendar's next day, across months, leap days,
      years and 400-year eras. */
  lemma DaysToYmdNext(days: nat)
    ensures DaysToYmd(days + 1) == NextDay(DaysToYmd(days))
  {
    hide DaysToYmd, DateOf, YearOfEra, YearStart;
    var era, yoe, doy := Place(days);
    var y := yoe + era * 400;
    PlacedDate(days, era, yoe, doy);
    PlacedNext(days, era, yoe, doy);
    if doy < LastDay(y) {
      PlacedDate(days + 1, era, yoe, doy + 1);
      DateOfNext(y, doy);
    } else if yoe < 399 {
      PlacedDate(days + 1, era, yoe + 1, 0);
      LastOfYear(y);
    } else {
      PlacedDate(days + 1, era + 1, 0, 0);
      LastOfYear(y);
    }
  }

  lemma Epoch()
    ensures DaysToYmd(0) == Date(1970, 1, 1)
  {
  }

  /** The formula is day-by-day counting from 1970-01-01. */
  lemma {:induction false} DaysToYmdCounts(days: nat)
    ensures DaysToYmd(days) == Counted(days)
  {
    hide DaysToYmd;
    if days == 0 {
      Epoch();
    } else {
      DaysToYmdCounts(days - 1);
      DaysToYmdNext(days - 1);
    }
  }

  // ----- the time of day ------------------------------------------------

  datatype Stamp = Stamp(date: Date, hour: nat, minute: nat, second: nat)

  function StampOf(secs: nat): Stamp {
    Stamp(DaysToYmd(secs / 86400), secs / 3600 % 24, secs / 60 % 60, secs % 60)
  }

  function NextSecond(s: Stamp): Stamp {
    if s.second < 59 then s.(second := s.second + 1)
    else if s.minute < 59 then s.(minute := s.minute + 1, second := 0)
    else if s.hour < 23 then s.(hour := s.hour + 1, minute := 0, second := 0)
    else Stamp(NextDay(s.date), 0, 0, 0)
  }

  /** The time of day as a number, and back. */
  lemma TimeSplit(secs: nat)
    ensures secs == 86400 * (secs / 86400) + 3600 * (secs / 3600 % 24) + 60 * (secs / 60 % 60) + secs % 60
  {
    var m, h := secs / 60, secs / 3600;
    assert h == m / 60;
    assert secs / 86400 == h / 24;
  }

  lemma SecondNext(secs: nat)
    ensures var s, t := secs % 60, secs / 60;
      (secs + 1) % 60 == (if s < 59 then s + 1 else 0) && (secs + 1) / 60 == t + if s < 59 then 0 else 1
  {
  }

  /** One second later the clock shows the next second. */
  lemma StampNext(secs: nat)
    ensures StampOf(secs + 1) == NextSecond(StampOf(secs))
  {
    hide DaysToYmd;
    var m, h := secs / 60, secs / 3600;
    SecondNext(secs);
    SecondNext(m);
    assert h == m / 60 && secs / 86400 == h / 24;
    assert (secs + 1) / 3600 == (secs + 1) / 60 / 60 && (secs + 1) / 86400 == (secs + 1) / 3600 / 24;
    DaysToYmdNext(secs / 86400);
  }
}
