/** Days since 1970-01-01 and proleptic Gregorian dates, by closed formulas in both directions. */
module Calendar {
  import opened Numerals

  datatype Date = Date(y: int, m: int, d: int)

  // ------------------------------------------------------------- the calendar itself

  predicate Leap(y: int) {
    y % 4 == 0 && (y % 100 != 0 || y % 400 == 0)
  }

  function DaysInMonth(y: int, m: int): int {
    if m == 2 then if Leap(y) then 29 else 28
    else if m == 4 || m == 6 || m == 9 || m == 11 then 30
    else 31
  }

  predicate ValidDate(c: Date) {
    1 <= c.m <= 12 && 1 <= c.d <= DaysInMonth(c.y, c.m)
  }

  function NextDay(c: Date): Date {
    if c.d < DaysInMonth(c.y, c.m) then Date(c.y, c.m, c.d + 1)
    else if c.m < 12 then Date(c.y, c.m + 1, 1)
    else Date(c.y + 1, 1, 1)
  }

  // ------------------------------------------------------------- the formulas

  function YearOfEra(doe: int): int {
    (doe - doe / 1460 + doe / 36_524 - doe / 146_096) / 365
  }

  function CivilFromDays(z0: int): Date {
    var z := z0 + 719_468;
    var era := z / 146_097;
    var doe := z % 146_097;
    var yoe := YearOfEra(doe);
    var y := yoe + era * 400;
    var doy := doe - (365 * yoe + yoe / 4 - yoe / 100);
    var mp := (5 * doy + 2) / 153;
    var d := doy - (153 * mp + 2) / 5 + 1;
    var m := if mp < 10 then mp + 3 else mp - 9;
    Date(if m <= 2 then y + 1 else y, m, d)
  }

  function DaysFromCivil(y0: int, m: int, d: int): int {
    var y := if m <= 2 then y0 - 1 else y0;
    var era := y / 400;
    var yoe := y - era * 400;
    var mp := if m > 2 then m - 3 else m + 9;
    var doy := (153 * mp + 2) / 5 + d - 1;
    var doe := yoe * 365 + yoe / 4 - yoe / 100 + doy;
    era * 146_097 + doe - 719_468
  }

  // ------------------------------------------------------------- years of an era

  /** Days before year `yoe` of an era; years begin in March. */
  function YearStart(yoe: int): int {
    365 * yoe + yoe / 4 - yoe / 100
  }

  /** Days in year `yoe` of an era: the leap day, if any, is its last. */
  function YearLength(yoe: int): int {
    if (yoe + 1) % 4 == 0 && ((yoe + 1) % 100 != 0 || yoe == 399) then 366 else 365
  }

  /** A year of an era as centuries, leap cycles and years left over. */
  predicate Parts(c: int, q: int, r: int) {
    0 <= c < 4 && 0 <= q < 25 && 0 <= r < 4
  }

  lemma YearParts(c: int, q: int, r: int)
    requires Parts(c, q, r)
    ensures var yoe := 100 * c + 4 * q + r;
            && 0 <= yoe < 400 && yoe / 4 == 25 * c + q && yoe / 100 == c
            && YearStart(yoe) == 36_524 * c + 1461 * q + 365 * r
            && YearLength(yoe) == if r == 3 && (q != 24 || c == 3) then 366 else 365
  {
  }

  lemma YearOfParts(c: int, q: int, r: int, doy: int)
    requires Parts(c, q, r) && 0 <= doy < YearLength(100 * c + 4 * q + r)
    ensures var doe := 36_524 * c + 1461 * q + 365 * r + doy;
            0 <= doe < 146_097 && YearOfEra(doe) == 100 * c + 4 * q + r
  {
    hide YearStart;
    YearParts(c, q, r);
    var doe := 36_524 * c + 1461 * q + 365 * r + doy;
    Centuries(c, q, r, doy);
    var over := LeapCycles(c, q, r, doy);
    assert doe - doe / 1460 + c == 365 * (100 * c + 4 * q + r) + (doy - over);
  }

  lemma Centuries(c: int, q: int, r: int, doy: int)
    requires Parts(c, q, r) && 0 <= doy < if r == 3 && (q != 24 || c == 3) then 366 else 365
    ensures var doe := 36_524 * c + 1461 * q + 365 * r + doy;
            doe / 36_524 - doe / 146_096 == c
  {
  }

  /** The leap cycles begun, one more on the last day of one. */
  lemma LeapCycles(c: int, q: int, r: int, doy: int) returns (over: int)
    requires Parts(c, q, r) && 0 <= doy < if r == 3 && (q != 24 || c == 3) then 366 else 365
    ensures over == if 24 * c + q + 365 * r + doy >= 1460 then 1 else 0
    ensures (36_524 * c + 1461 * q + 365 * r + doy) / 1460 == 25 * c + q + over
  {
    over := if 24 * c + q + 365 * r + doy >= 1460 then 1 else 0;
  }

  /** The closed formula finds the year of the era a day lies in. */
  lemma YearOfEraFinds(doe: int)
    requires 0 <= doe < 146_097
    ensures 0 <= YearOfEra(doe) < 400
    ensures YearStart(YearOfEra(doe)) <= doe < YearStart(YearOfEra(doe)) + YearLength(YearOfEra(doe))
  {
    var c := if doe == 146_096 then 3 else doe / 36_524;
    var inCentury := doe - 36_524 * c;
    var q := inCentury / 1461;
    var inCycle := inCentury - 1461 * q;
    var r := if inCycle == 1460 then 3 else inCycle / 365;
    YearParts(c, q, r);
    YearOfParts(c, q, r, inCycle - 365 * r);
  }

  lemma YearOfEraUnique(yoe: int, doy: int)
    requires 0 <= yoe < 400 && 0 <= doy < YearLength(yoe)
    ensures 0 <= YearStart(yoe) + doy < 146_097
    ensures YearOfEra(YearStart(yoe) + doy) == yoe
  {
    hide YearOfEra, YearStart, YearLength;
    var c, q, r := yoe / 100, yoe % 100 / 4, yoe % 4;
    assert yoe == 100 * c + 4 * q + r && Parts(c, q, r);
    YearParts(c, q, r);
    YearOfParts(c, q, r, doy);
  }

  // ------------------------------------------------------------- months of a year beginning in March

  function MonthStart(mp: int): int {
    (153 * mp + 2) / 5
  }

  function MonthOf(mp: int): int {
    if mp < 10 then mp + 3 else mp - 9
  }

  /** The civil year a month of year `yoe` of an era belongs to, less the era's. */
  function CivilYear(era: int, yoe: int, mp: int): int {
    yoe + era * 400 + if mp < 10 then 0 else 1
  }

  lemma LeapOfEra(era: int, yoe: int)
    requires 0 <= yoe < 400
    ensures Leap(yoe + era * 400 + 1) <==> YearLength(yoe) == 366
  {
    var y := yoe + era * 400 + 1;
    Mod4(yoe + 1, era);
    Mod100(yoe + 1, era);
    Mod400(yoe + 1, era);
    LastOfEra(yoe);
    assert y == yoe + 1 + 400 * era;
  }

  lemma By4(q: int, r: int)
    requires 0 <= r < 4
    ensures (4 * q + r) / 4 == q && (4 * q + r) % 4 == r
  {
  }

  lemma By100(q: int, r: int)
    requires 0 <= r < 100
    ensures (100 * q + r) / 100 == q && (100 * q + r) % 100 == r
  {
  }

  lemma Mod4(n: int, k: int)
    ensures (n + 400 * k) % 4 == n % 4
  {
    By4(n / 4 + 100 * k, n % 4);
    assert n + 400 * k == 4 * (n / 4 + 100 * k) + n % 4;
  }

  lemma Mod100(n: int, k: int)
    ensures (n + 400 * k) % 100 == n % 100
  {
    By100(n / 100 + 4 * k, n % 100);
    assert n + 400 * k == 100 * (n / 100 + 4 * k) + n % 100;
  }

  lemma Mod400(n: int, k: int)
    ensures (n + 400 * k) % 400 == n % 400
  {
  }

  lemma LastOfEra(yoe: int)
    requires 0 <= yoe < 400
    ensures yoe == 399 <==> (yoe + 1) % 400 == 0
  {
  }

  /** Months follow one another, and the last one ends with the year. */
  lemma MonthLengths(era: int, yoe: int, mp: int)
    requires 0 <= yoe < 400 && 0 <= mp < 12
    ensures MonthStart(mp) + DaysInMonth(CivilYear(era, yoe, mp), MonthOf(mp))
            == if mp == 11 then YearLength(yoe) else MonthStart(mp + 1)
  {
    LeapOfEra(era, yoe);
  }

  lemma MonthFinds(doy: int)
    requires 0 <= doy < 366
    ensures var mp := (5 * doy + 2) / 153;
            0 <= mp < 12 && MonthStart(mp) <= doy && (mp < 11 ==> doy < MonthStart(mp + 1))
  {
  }

  lemma MonthsInside(mp: int)
    requires 0 <= mp < 12
    ensures 0 <= MonthStart(mp) && (mp < 11 ==> MonthStart(mp + 1) <= 337)
  {
  }

  lemma YearLengths(yoe: int)
    ensures 365 <= YearLength(yoe) <= 366
  {
  }

  lemma MonthUnique(doy: int, mp: int)
    requires 0 <= mp < 12 && MonthStart(mp) <= doy < 366 && (mp < 11 ==> doy < MonthStart(mp + 1))
    ensures (5 * doy + 2) / 153 == mp
  {
  }

  // ------------------------------------------------------------- the two directions

  /** The parts of a day number: era, year of the era, month of that year, day. */
  lemma CivilParts(z: int) returns (era: int, yoe: int, mp: int, d: int)
    ensures 0 <= yoe < 400 && 0 <= mp < 12
    ensures era == (z + 719_468) / 146_097 && z + 719_468 == era * 146_097 + YearStart(yoe) + MonthStart(mp) + d - 1
    ensures CivilFromDays(z) == Date(CivilYear(era, yoe, mp), MonthOf(mp), d)
    ensures 1 <= d <= DaysInMonth(CivilYear(era, yoe, mp), MonthOf(mp))
  {
    era := (z + 719_468) / 146_097;
    var doe := (z + 719_468) % 146_097;
    YearOfEraFinds(doe);
    yoe := YearOfEra(doe);
    var doy := doe - YearStart(yoe);
    MonthFinds(doy);
    mp := (5 * doy + 2) / 153;
    d := doy - MonthStart(mp) + 1;
    MonthLengths(era, yoe, mp);
  }

  /** Any such parts make up the day number of their date, and are recovered from it. */
  lemma CivilOfParts(era: int, yoe: int, mp: int, d: int)
    requires 0 <= yoe < 400 && 0 <= mp < 12
    requires 1 <= d <= DaysInMonth(CivilYear(era, yoe, mp), MonthOf(mp))
    ensures var z := era * 146_097 + YearStart(yoe) + MonthStart(mp) + d - 1 - 719_468;
            CivilFromDays(z) == Date(CivilYear(era, yoe, mp), MonthOf(mp), d)
  {
    hide YearOfEra, YearStart, YearLength, DaysInMonth, MonthStart;
    MonthLengths(era, yoe, mp);
    MonthsInside(mp);
    YearLengths(yoe);
    var doy := MonthStart(mp) + d - 1;
    YearOfEraUnique(yoe, doy);
    MonthUnique(doy, mp);
    var doe := YearStart(yoe) + doy;
    EraSplit(era, doe);
    CivilOf(era * 146_097 + doe - 719_468, era, doe, yoe, mp);
  }

  lemma EraSplit(era: int, doe: int)
    requires 0 <= doe < 146_097
    ensures (era * 146_097 + doe) / 146_097 == era && (era * 146_097 + doe) % 146_097 == doe
  {
  }

  /** The formula, step by step. */
  lemma CivilOf(z: int, era: int, doe: int, yoe: int, mp: int)
    requires (z + 719_468) / 146_097 == era && (z + 719_468) % 146_097 == doe && YearOfEra(doe) == yoe
    requires (5 * (doe - YearStart(yoe)) + 2) / 153 == mp && 0 <= mp < 12
    ensures CivilFromDays(z) == Date(CivilYear(era, yoe, mp), MonthOf(mp), doe - YearStart(yoe) - MonthStart(mp) + 1)
  {
  }

  lemma DaysOfParts(era: int, yoe: int, mp: int, d: int)
    requires 0 <= yoe < 400 && 0 <= mp < 12
    ensures DaysFromCivil(CivilYear(era, yoe, mp), MonthOf(mp), d)
            == era * 146_097 + YearStart(yoe) + MonthStart(mp) + d - 1 - 719_468
  {
    assert (yoe + era * 400) / 400 == era;
  }

  /** Days to date and back. */
  lemma DaysRoundTrip(z: int)
    ensures ValidDate(CivilFromDays(z))
    ensures var c := CivilFromDays(z); DaysFromCivil(c.y, c.m, c.d) == z
  {
    var era, yoe, mp, d := CivilParts(z);
    DaysOfParts(era, yoe, mp, d);
  }

  /** A date's place among the eras. */
  lemma PartsOf(c: Date) returns (era: int, yoe: int, mp: int)
    requires 1 <= c.m <= 12
    ensures 0 <= yoe < 400 && 0 <= mp < 12
    ensures CivilYear(era, yoe, mp) == c.y && MonthOf(mp) == c.m
  {
    var y := if c.m <= 2 then c.y - 1 else c.y;
    era, yoe := y / 400, y % 400;
    mp := if c.m > 2 then c.m - 3 else c.m + 9;
  }

  /** Date to days and back, for every date of the calendar. */
  lemma DateRoundTrip(c: Date)
    requires ValidDate(c)
    ensures CivilFromDays(DaysFromCivil(c.y, c.m, c.d)) == c
  {
    hide DaysFromCivil, CivilFromDays, YearStart, CivilYear, DaysInMonth;
    var era, yoe, mp := PartsOf(c);
    DaysOfParts(era, yoe, mp, c.d);
    CivilOfParts(era, yoe, mp, c.d);
  }

  /** The day number of the next calendar day is the next number. */
  lemma NextDayNumber(c: Date)
    requires ValidDate(c)
    ensures ValidDate(NextDay(c))
    ensures DaysFromCivil(NextDay(c).y, NextDay(c).m, NextDay(c).d) == DaysFromCivil(c.y, c.m, c.d) + 1
  {
    hide DaysFromCivil, YearStart, YearLength, MonthStart, Leap;
    var era, yoe, mp := PartsOf(c);
    DaysOfParts(era, yoe, mp, c.d);
    if c.d < DaysInMonth(c.y, c.m) {
      DaysOfParts(era, yoe, mp, c.d + 1);
    } else {
      MonthLengths(era, yoe, mp);
      if mp < 11 {
        DaysOfParts(era, yoe, mp + 1, 1);
      } else if yoe < 399 {
        YearFollows(yoe);
        DaysOfParts(era, yoe + 1, 0, 1);
      } else {
        EraFollows();
        DaysOfParts(era + 1, 0, 0, 1);
      }
    }
  }

  lemma EraFollows()
    ensures YearStart(399) + YearLength(399) == 146_097 && YearStart(0) == 0 && MonthStart(0) == 0
  {
  }

  lemma YearFollows(yoe: int)
    requires 0 <= yoe < 399
    ensures YearStart(yoe + 1) == YearStart(yoe) + YearLength(yoe) && MonthStart(0) == 0
  {
    var q, c := yoe / 4, yoe / 100;
    if yoe % 4 < 3 { By4(q, yoe % 4 + 1); } else { By4(q + 1, 0); }
    if yoe % 100 < 99 { By100(c, yoe % 100 + 1); } else { By100(c + 1, 0); }
  }

  /** The closed formula counts days as the calendar does. */
  lemma CivilFollowsCalendar(z: int)
    ensures CivilFromDays(z + 1) == NextDay(CivilFromDays(z))
  {
    hide CivilFromDays, DaysFromCivil, NextDay;
    var c := CivilFromDays(z);
    DaysRoundTrip(z);
    NextDayNumber(c);
    DateRoundTrip(NextDay(c));
  }

  /** And it starts where the epoch does. */
  lemma Epoch()
    ensures CivilFromDays(0) == Date(1970, 1, 1)
  {
    hide CivilFromDays;
    assert DaysFromCivil(1970, 1, 1) == 4 * 146_097 + 135_080 - 719_468 == 0;
    DateRoundTrip(Date(1970, 1, 1));
  }

  /** From the epoch on, every date is of 1970 or later, and not far beyond the day number in years. */
  lemma NotBeforeEpoch(z: int, era: int, yoe: int, mp: int, d: int)
    requires z >= 0 && 0 <= yoe < 400 && 0 <= mp < 12 && 1 <= d <= 31
    requires z + 719_468 == era * 146_097 + YearStart(yoe) + MonthStart(mp) + d - 1
    ensures 4 <= era && 1970 <= CivilYear(era, yoe, mp) <= z + 719_868
  {
  }

  const I64_MAX: int := 0x7fff_ffff_ffff_ffff

  /** For every count of seconds a `u64` holds, each value the formula computes fits `i64`, and month and day fit `u32`
      without truncation. */
  lemma NoOverflow(secs: int)
    requires 0 <= secs <= U64_MAX
    ensures var days := secs / 86_400;
            var z := days + 719_468;
            var era, doe := z / 146_097, z % 146_097;
            var yoe := YearOfEra(doe);
            var doy := doe - YearStart(yoe);
            var mp := (5 * doy + 2) / 153;
            var c := CivilFromDays(days);
            && 0 <= days <= z <= I64_MAX
            && 0 <= era * 400 <= yoe + era * 400 <= I64_MAX && 0 <= doe < 146_097
            && 0 <= doe - doe / 1460 <= doe - doe / 1460 + doe / 36_524 <= 146_100
            && 0 <= yoe < 400 && 0 <= 365 * yoe + yoe / 4 <= 145_800 && 0 <= YearStart(yoe) <= doe
            && 0 <= doy < 366 && 2 <= 5 * doy + 2 <= 1827 && 0 <= mp < 12 && 2 <= 153 * mp + 2 <= 1685
            && c.d == doy - (153 * mp + 2) / 5 + 1
            && 1 <= c.m <= 12 && 1 <= c.d <= 31 && 1970 <= c.y <= I64_MAX
  {
    hide CivilFromDays, YearOfEra, YearStart, MonthStart;
    var days := secs / 86_400;
    var doe := (days + 719_468) % 146_097;
    var era, yoe, mp, d := CivilParts(days);
    YearOfEraFinds(doe);
    YearStarts(YearOfEra(doe));
    MonthFinds(doe - YearStart(YearOfEra(doe)));
    DaysRoundTrip(days);
    NotBeforeEpoch(days, era, yoe, mp, d);
    CivilDay(days);
  }

  lemma YearStarts(yoe: int)
    requires 0 <= yoe < 400
    ensures 0 <= YearStart(yoe) <= 365 * yoe + yoe / 4 <= 145_800 && YearLength(yoe) <= 366
  {
  }

  lemma CivilDay(z: int)
    ensures var doe := (z + 719_468) % 146_097;
            var doy := doe - YearStart(YearOfEra(doe));
            CivilFromDays(z).d == doy - (153 * ((5 * doy + 2) / 153) + 2) / 5 + 1
  {
  }
}
