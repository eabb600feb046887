/** The timestamps in the names of isolated directories: civil times, the layout
    20060102-150405 they are printed in and parsed from, and the second they stand for. */
module Calendar {
  import opened Text

  datatype Civil = Civil(year: nat, month: nat, day: nat, hour: nat, minute: nat, second: nat)

  predicate Leap(y: nat) {
    y % 4 == 0 && (y % 100 != 0 || y % 400 == 0)
  }

  function DaysIn(y: nat, m: nat): nat {
    if m == 2 then (if Leap(y) then 29 else 28)
    else if m == 4 || m == 6 || m == 9 || m == 11 then 30
    else 31
  }

  predicate Valid(c: Civil) {
    && c.year <= 9999
    && 1 <= c.month <= 12
    && 1 <= c.day <= DaysIn(c.year, c.month)
    && c.hour < 24 && c.minute < 60 && c.second < 60
  }

  type Time = c: Civil | Valid(c) witness Civil(0, 1, 1, 0, 0, 0)

  /** Days from 1 January of year 0 to 1 January of year `y`. */
  function DaysBeforeYear(y: nat): nat {
    if y == 0 then 0 else DaysBeforeYear(y - 1) + (if Leap(y - 1) then 366 else 365)
  }

  function DaysBeforeMonth(y: nat, m: nat): nat {
    if m <= 1 then 0 else DaysBeforeMonth(y, m - 1) + DaysIn(y, m - 1)
  }

  function DayNumber(c: Civil): nat
    requires Valid(c)
  {
    DaysBeforeYear(c.year) + DaysBeforeMonth(c.year, c.month) + c.day - 1
  }

  /** Seconds from the start of year 0 to `c`, as a clock without a zone counts them. */
  function Seconds(c: Civil): nat
    requires Valid(c)
  {
    86400 * DayNumber(c) + 3600 * c.hour + 60 * c.minute + c.second
  }

  /** Calendar order: year first, second last. */
  predicate Earlier(a: Civil, b: Civil) {
    if a.year != b.year then a.year < b.year
    else if a.month != b.month then a.month < b.month
    else if a.day != b.day then a.day < b.day
    else if a.hour != b.hour then a.hour < b.hour
    else if a.minute != b.minute then a.minute < b.minute
    else a.second < b.second
  }

  /** The months of a year add up to it. */
  lemma MonthsFillYear(y: nat)
    ensures DaysBeforeMonth(y, 12) + DaysIn(y, 12) == if Leap(y) then 366 else 365
  {
    assert DaysBeforeMonth(y, 3) == 31 + DaysIn(y, 2) by {
      assert DaysBeforeMonth(y, 2) == DaysBeforeMonth(y, 1) + 31;
    }
    assert DaysBeforeMonth(y, 6) == 31 + DaysIn(y, 2) + 31 + 30 + 31 by {
      assert DaysBeforeMonth(y, 4) == DaysBeforeMonth(y, 3) + 31;
      assert DaysBeforeMonth(y, 5) == DaysBeforeMonth(y, 4) + 30;
    }
    assert DaysBeforeMonth(y, 9) == DaysBeforeMonth(y, 6) + 30 + 31 + 31 by {
      assert DaysBeforeMonth(y, 7) == DaysBeforeMonth(y, 6) + 30;
      assert DaysBeforeMonth(y, 8) == DaysBeforeMonth(y, 7) + 31;
    }
    assert DaysBeforeMonth(y, 12) == DaysBeforeMonth(y, 9) + 30 + 31 + 30 by {
      assert DaysBeforeMonth(y, 10) == DaysBeforeMonth(y, 9) + 30;
      assert DaysBeforeMonth(y, 11) == DaysBeforeMonth(y, 10) + 31;
    }
  }

  lemma {:induction false} LaterMonth(y: nat, m: nat, n: nat)
    requires 1 <= m < n
    ensures DaysBeforeMonth(y, m) + DaysIn(y, m) <= DaysBeforeMonth(y, n)
    decreases n
  {
    if m + 1 < n { LaterMonth(y, m, n - 1); }
  }

  lemma {:induction false} LaterYear(y: nat, z: nat)
    requires y < z
    ensures DaysBeforeYear(y) + (if Leap(y) then 366 else 365) <= DaysBeforeYear(z)
    decreases z
  {
    if y + 1 < z { LaterYear(y, z - 1); }
  }

  lemma DayWithinYear(c: Civil)
    requires Valid(c)
    ensures DaysBeforeYear(c.year) <= DayNumber(c) < DaysBeforeYear(c.year + 1)
  {
    MonthsFillYear(c.year);
    if c.month < 12 { LaterMonth(c.year, c.month, 12); }
  }

  /** Calendar order is the order of the seconds. */
  lemma SecondsOrder(a: Civil, b: Civil)
    requires Valid(a) && Valid(b)
    ensures Earlier(a, b) <==> Seconds(a) < Seconds(b)
    ensures a == b <==> Seconds(a) == Seconds(b)
  {
    EarlierSeconds(a, b);
    EarlierSeconds(b, a);
  }

  lemma EarlierSeconds(a: Civil, b: Civil)
    requires Valid(a) && Valid(b)
    ensures Earlier(a, b) ==> Seconds(a) < Seconds(b)
  {
    if a.year < b.year {
      DayWithinYear(a);
      DayWithinYear(b);
      if a.year + 1 < b.year { LaterYear(a.year + 1, b.year); }
      assert DayNumber(a) < DayNumber(b);
    } else if a.year == b.year && a.month < b.month {
      LaterMonth(a.year, a.month, b.month);
      assert DayNumber(a) < DayNumber(b);
    }
  }

  const END_OF_YEAR_9999: Civil := Civil(9999, 12, 31, 23, 59, 59)

  /** The civil time one second later. */
  function Tick(c: Civil): Civil {
    if c.second < 59 then c.(second := c.second + 1)
    else if c.minute < 59 then c.(second := 0, minute := c.minute + 1)
    else if c.hour < 23 then c.(second := 0, minute := 0, hour := c.hour + 1)
    else if c.day < DaysIn(c.year, c.month) then Civil(c.year, c.month, c.day + 1, 0, 0, 0)
    else if c.month < 12 then Civil(c.year, c.month + 1, 1, 0, 0, 0)
    else Civil(c.year + 1, 1, 1, 0, 0, 0)
  }

  lemma TickAddsOne(c: Civil)
    requires Valid(c) && c != END_OF_YEAR_9999
    ensures Valid(Tick(c)) && Seconds(Tick(c)) == Seconds(c) + 1
  {
    MonthsFillYear(c.year);
  }

  /** Every second of the years 0 to 9999 is the second of exactly one civil time. */
  lemma {:induction false} EverySecondIsCivil(n: nat)
    requires n <= Seconds(END_OF_YEAR_9999)
    ensures exists c :: Valid(c) && Seconds(c) == n
  {
    if n == 0 {
      assert Valid(Civil(0, 1, 1, 0, 0, 0)) && Seconds(Civil(0, 1, 1, 0, 0, 0)) == 0;
    } else {
      EverySecondIsCivil(n - 1);
      var c :| Valid(c) && Seconds(c) == n - 1;
      TickAddsOne(c);
    }
  }

  ghost function CivilAt(n: nat): (c: Civil)
    requires n <= Seconds(END_OF_YEAR_9999)
    ensures Valid(c) && Seconds(c) == n
  {
    EverySecondIsCivil(n);
    var c :| Valid(c) && Seconds(c) == n;
    c
  }

  // The calendar in closed form

  /** Days of the Gregorian calendar from 1 January of year 0 to a day, months and years counted from March:
      every fourth year is longer by a day, but of the hundredth ones only every fourth, and five months
      take 153 days. */
  function GregorianDay(year: int, month: int, day: int): int {
    var y := if month <= 2 then year - 1 else year;
    var m := (month + 9) % 12;
    365 * y + y / 4 - y / 100 + y / 400 + (153 * m + 2) / 5 + day + 59
  }

  function FirstOfNext(year: int, month: int): int {
    if month == 12 then GregorianDay(year + 1, 1, 1) else GregorianDay(year, month + 1, 1)
  }

  lemma OneMoreMultiple(n: nat, k: nat)
    requires k == 4 || k == 100 || k == 400
    ensures n / k - (n - 1) / k == if n % k == 0 then 1 else 0
  {
  }

  lemma LeapDays(n: nat)
    ensures n / 4 - n / 100 + n / 400 == (n - 1) / 4 - (n - 1) / 100 + (n - 1) / 400 + (if Leap(n) then 1 else 0)
  {
    OneMoreMultiple(n, 4);
    OneMoreMultiple(n, 100);
    OneMoreMultiple(n, 400);
    MultiplesNest(n);
  }

  lemma MultiplesNest(n: nat)
    ensures n % 100 == 0 ==> n % 4 == 0
    ensures n % 400 == 0 ==> n % 100 == 0
  {
    Multiple(25 * (n / 100), 4 * (n / 400));
    if n % 100 == 0 { assert n == 4 * (25 * (n / 100)); }
    if n % 400 == 0 { assert n == 100 * (4 * (n / 400)); }
  }

  lemma Multiple(p: nat, q: nat)
    ensures (4 * p) % 4 == 0 && (100 * q) % 100 == 0
  {
  }

  lemma {:induction false} YearInClosedForm(y: nat)
    ensures DaysBeforeYear(y) == GregorianDay(y, 1, 1)
  {
    if y > 0 {
      YearInClosedForm(y - 1);
      LeapDays(y - 1);
    }
  }

  lemma MonthLength(y: nat, m: nat)
    requires 1 <= m <= 12
    ensures DaysIn(y, m) == FirstOfNext(y, m) - GregorianDay(y, m, 1)
  {
    if m == 2 {
      LeapDays(y);
    } else if m == 12 {
      DecemberLength(y);
    } else {
      FewerDays(y, m);
    }
  }

  lemma FewerDays(y: nat, m: nat)
    requires 1 <= m < 12 && m != 2
    ensures DaysIn(y, m) == GregorianDay(y, m + 1, 1) - GregorianDay(y, m, 1)
  {
  }

  lemma DecemberLength(y: nat)
    ensures GregorianDay(y + 1, 1, 1) - GregorianDay(y, 12, 1) == 31
  {
  }

  lemma {:induction false} MonthInClosedForm(y: nat, m: nat)
    requires 1 <= m <= 12
    ensures DaysBeforeYear(y) + DaysBeforeMonth(y, m) == GregorianDay(y, m, 1)
  {
    if m == 1 {
      YearInClosedForm(y);
    } else {
      MonthInClosedForm(y, m - 1);
      MonthLength(y, m - 1);
      assert FirstOfNext(y, m - 1) == GregorianDay(y, m, 1);
    }
  }

  /** The day a date stands for is that of the Gregorian calendar, and a date is valid exactly if it is
      before the first of the next month. So months and leap years have their real lengths. */
  lemma RealCalendar(c: Civil)
    ensures Valid(c) <==>
            && c.year <= 9999 && 1 <= c.month <= 12 && c.hour < 24 && c.minute < 60 && c.second < 60
            && GregorianDay(c.year, c.month, 1) <= GregorianDay(c.year, c.month, c.day) < FirstOfNext(c.year, c.month)
    ensures var day := GregorianDay(c.year, c.month, c.day);
            Valid(c) ==> Seconds(c) == 86400 * day + 3600 * c.hour + 60 * c.minute + c.second
  {
    if 1 <= c.month <= 12 {
      MonthInClosedForm(c.year, c.month);
      MonthLength(c.year, c.month);
    }
  }

  // Printing and parsing

  predicate IsDigit(ch: char) {
    '0' <= ch <= '9'
  }

  function Digit(n: nat): (ch: char)
    requires n < 10
    ensures IsDigit(ch) && Value(ch) == n
  {
    '0' + n as char
  }

  function Value(ch: char): (n: nat)
    requires IsDigit(ch)
    ensures n < 10
  {
    ch as int - '0' as int
  }

  function Two(n: nat): (s: string)
    requires n < 100
    ensures |s| == 2 && IsDigit(s[0]) && IsDigit(s[1])
    ensures 10 * Value(s[0]) + Value(s[1]) == n
  {
    [Digit(n / 10), Digit(n % 10)]
  }

  /** The layout 20060102-150405. */
  function Format(c: Civil): (s: string)
    requires Valid(c)
    ensures IsStamp(s)
  {
    Two(c.year / 100) + Two(c.year % 100) + Two(c.month) + Two(c.day) + "-"
    + Two(c.hour) + Two(c.minute) + Two(c.second)
  }

  /** The part of the cleanup pattern after the shard name: \d{8}-\d{6} up to the end. */
  predicate IsStamp(s: string) {
    |s| == 15 && s[8] == '-' && forall i | 0 <= i < 15 && i != 8 :: IsDigit(s[i])
  }

  function Number(s: string, i: nat): (n: nat)
    requires i + 1 < |s| && IsDigit(s[i]) && IsDigit(s[i + 1])
    ensures n < 100
  {
    10 * Value(s[i]) + Value(s[i + 1])
  }

  /** The fields of a stamp, in range or not. */
  function Fields(s: string): Civil
    requires IsStamp(s)
  {
    Civil(100 * Number(s, 0) + Number(s, 2), Number(s, 4), Number(s, 6),
          Number(s, 9), Number(s, 11), Number(s, 13))
  }

  /** Parsing fails on a field out of range, such as 30 February. */
  function Parse(s: string): (r: Option<Civil>)
    requires IsStamp(s)
    ensures r.Some? ==> Valid(r.value)
  {
    var c := Fields(s);
    if Valid(c) then Some(c) else None
  }

  /** What is printed parses back to the same civil second. */
  lemma ParseFormat(c: Civil)
    requires Valid(c)
    ensures Parse(Format(c)) == Some(c)
  {
  }

  lemma TwoOfNumber(s: string, i: nat)
    requires i + 1 < |s| && IsDigit(s[i]) && IsDigit(s[i + 1])
    ensures Two(Number(s, i)) == s[i..i + 2]
  {
  }

  /** A stamp that parses is the printed form of what it parses to. */
  lemma FormatParse(s: string)
    requires IsStamp(s) && Parse(s).Some?
    ensures Format(Parse(s).value) == s
  {
    var c := Fields(s);
    assert c.year / 100 == Number(s, 0) && c.year % 100 == Number(s, 2);
    TwoOfNumber(s, 0); TwoOfNumber(s, 2); TwoOfNumber(s, 4); TwoOfNumber(s, 6);
    TwoOfNumber(s, 9); TwoOfNumber(s, 11); TwoOfNumber(s, 13);
    assert s == s[0..2] + s[2..4] + s[4..6] + s[6..8] + [s[8]] + s[9..11] + s[11..13] + s[13..15];
  }

  /** The number a row of decimal digits stands for. */
  function Decimal(s: string): int {
    if s == [] then 0 else 10 * Decimal(s[..|s| - 1]) + (s[|s| - 1] as int - 48)
  }

  /** A printed stamp is the four digits of the year, then two each for month and day, a hyphen, and two
      each for hour, minute and second. */
  lemma StampFields(c: Civil)
    requires Valid(c)
    ensures var s := Format(c);
            && |s| == 15 && s[8] == '-' && (forall i | 0 <= i < 15 && i != 8 :: '0' <= s[i] <= '9')
            && Decimal(s[..4]) == c.year && Decimal(s[4..6]) == c.month && Decimal(s[6..8]) == c.day
            && Decimal(s[9..11]) == c.hour && Decimal(s[11..13]) == c.minute && Decimal(s[13..15]) == c.second
  {
    var s := Format(c);
    DecimalOfTwo(s, 0); DecimalOfTwo(s, 4); DecimalOfTwo(s, 6);
    DecimalOfTwo(s, 9); DecimalOfTwo(s, 11); DecimalOfTwo(s, 13);
    assert s[..4][..3] == s[0..2] + [s[2]] && s[..4][..3][..2] == s[0..2];
  }

  lemma DecimalOfTwo(s: string, i: nat)
    requires i + 1 < |s| && IsDigit(s[i]) && IsDigit(s[i + 1])
    ensures Decimal(s[i..i + 2]) == Number(s, i)
  {
    var p := s[i..i + 2];
    assert p == [s[i], s[i + 1]] && p[..1] == [s[i]] && p[..1][..0] == [];
    assert Decimal(p[..1]) == 10 * Decimal([]) + (s[i] as int - 48);
  }

  lemma TwoOrder(m: nat, n: nat)
    requires m < 100 && n < 100
    ensures Less(Two(m), Two(n)) <==> m < n
    ensures Two(m) == Two(n) <==> m == n
  {
    var s, t := Two(m), Two(n);
    assert s[1..][1..] == [] && t[1..][1..] == [] && !Less([], []);
    assert Less(s[1..], t[1..]) <==> m % 10 < n % 10;
  }

  /** One two-digit field is compared before what follows it. */
  lemma FieldOrder(m: nat, n: nat, a: string, b: string)
    requires m < 100 && n < 100
    ensures Less(Two(m) + a, Two(n) + b) <==> m < n || (m == n && Less(a, b))
  {
    var s, t := Two(m) + a, Two(n) + b;
    assert s[1..][1..] == a && t[1..][1..] == b;
    TwoOrder(m, n);
  }

  /** Names of one shard sort by time: string order on stamps is calendar order. */
  lemma FormatOrder(a: Civil, b: Civil)
    requires Valid(a) && Valid(b)
    ensures Less(Format(a), Format(b)) <==> Earlier(a, b)
  {
    var a6, b6 := Two(a.second) + [], Two(b.second) + [];
    var a5, b5 := Two(a.minute) + a6, Two(b.minute) + b6;
    var a4, b4 := Two(a.hour) + a5, Two(b.hour) + b5;
    var a3, b3 := Two(a.day) + ("-" + a4), Two(b.day) + ("-" + b4);
    var a2, b2 := Two(a.month) + a3, Two(b.month) + b3;
    var a1, b1 := Two(a.year % 100) + a2, Two(b.year % 100) + b2;
    assert Format(a) == Two(a.year / 100) + a1;
    assert Format(b) == Two(b.year / 100) + b1;
    FieldOrder(a.year / 100, b.year / 100, a1, b1);
    FieldOrder(a.year % 100, b.year % 100, a2, b2);
    FieldOrder(a.month, b.month, a3, b3);
    FieldOrder(a.day, b.day, "-" + a4, "-" + b4);
    LessAfterPrefix("-", a4, b4);
    FieldOrder(a.hour, b.hour, a5, b5);
    FieldOrder(a.minute, b.minute, a6, b6);
    FieldOrder(a.second, b.second, [], []);
    LessIrreflexive([]);
  }
}
