// `datetime.fromtimestamp(ts).strftime('%Y-%m-%d %H:%M:%S')` of app/email_service.py,
// on epoch seconds, in UTC: the candidate's `date` string, whose part before the
// first space is the day key of the report.

module Calendar {
  import opened Text

  const SecondsPerDay: int := 86400

  /** Decimal digits of `n`, left-padded with `0` to at least `width` characters. */
  function Digits(n: nat, width: nat): (r: string)
    ensures forall i :: 0 <= i < |r| ==> IsDigit(r[i])
    ensures |r| >= width
    decreases width + n
  {
    var d := ['0' + (n % 10) as char];
    if n < 10 && width <= 1 then d
    else Digits(n / 10, if width > 0 then width - 1 else 0) + d
  }

  /** Proleptic Gregorian date of a day count since 1970-01-01, as (year, month, day). */
  function CivilFromDays(days: int): (int, int, int) {
    CivilInEra((days + 719468) / 146097, (days + 719468) % 146097)
  }

  /** The date of day `doe` of 400-year era `era`, eras counted from 0000-03-01. */
  function CivilInEra(era: int, doe: int): (int, int, int) {
    var yoe := YearOfEra(doe);
    var md := MonthDay(doe - StartOfYear(yoe));
    (yoe + era * 400 + (if md.0 <= 2 then 1 else 0), md.0, md.1)
  }

  /** The March-based year within its era of era day `doe`. */
  function YearOfEra(doe: int): int {
    (doe - doe / 1460 + doe / 36524 - doe / 146096) / 365
  }

  /** The era day on which March-based year `yoe` starts. */
  function StartOfYear(yoe: int): int {
    365 * yoe + yoe / 4 - yoe / 100
  }

  /** Month and day of day `doy` of a March-based year. */
  function MonthDay(doy: int): (int, int) {
    var mp := (5 * doy + 2) / 153;
    (if mp < 10 then mp + 3 else mp - 9, doy - (153 * mp + 2) / 5 + 1)
  }

  /** The day of its March-based year of month `m`, day `d`. */
  function DayOfYear(m: int, d: int): int {
    (153 * (if m > 2 then m - 3 else m + 9) + 2) / 5 + d - 1
  }

  /** The day count since 1970-01-01 of a proleptic Gregorian date. */
  function DaysFromCivil(y: int, m: int, d: int): int {
    var y' := if m <= 2 then y - 1 else y;
    DaysInEra(y' / 400, y' - y' / 400 * 400, m, d)
  }

  /** The day count since 1970-01-01 of month `m`, day `d` of March-based year `yoe` of era `era`. */
  function DaysInEra(era: int, yoe: int, m: int, d: int): int {
    era * 146097 + StartOfYear(yoe) + DayOfYear(m, d) - 719468
  }

  function Num(n: int, width: nat): string {
    if n < 0 then "-" + Digits(-n, width) else Digits(n, width)
  }

  /** `%Y-%m-%d` of a day count. */
  function FormatDay(days: int): (r: string)
    ensures ' ' !in r
  {
    var (y, m, d) := CivilFromDays(days);
    FormatDate(y, m, d)
  }

  /** `%Y-%m-%d` of a date. */
  function FormatDate(y: int, m: int, d: int): (r: string)
    ensures ' ' !in r
  {
    var r := Num(y, 4) + "-" + Num(m, 2) + "-" + Num(d, 2);
    assert forall i :: 0 <= i < |r| ==> r[i] == '-' || IsDigit(r[i]);
    r
  }

  /** `%H:%M:%S` of a second within its day. */
  function FormatClock(secs: int): string {
    Num(secs / 3600, 2) + ":" + Num(secs % 3600 / 60, 2) + ":" + Num(secs % 60, 2)
  }

  /** `%Y-%m-%d %H:%M:%S` of epoch seconds `t`; Python's `//` and `%` floor, like Dafny's for a positive divisor. */
  function FormatTimestamp(t: int): string {
    FormatDay(t / SecondsPerDay) + " " + FormatClock(t % SecondsPerDay)
  }

  /** The part of a timestamp before its first space is the formatted day. */
  lemma DayPartOfTimestamp(t: int)
    ensures Before(FormatTimestamp(t), ' ') == FormatDay(t / SecondsPerDay)
  {
    var day := FormatDay(t / SecondsPerDay);
    var s := FormatTimestamp(t);
    assert s[|day|] == ' ';
    assert forall j :: 0 <= j < |day| ==> s[j] == day[j] && s[j] != ' ';
    assert IndexOf(s, ' ') == |day|;
  }

  /** Two instants of the same UTC day share the report's day key. */
  lemma SameDaySameKey(t1: int, t2: int)
    requires t1 / SecondsPerDay == t2 / SecondsPerDay
    ensures Before(FormatTimestamp(t1), ' ') == Before(FormatTimestamp(t2), ' ')
  {
    DayPartOfTimestamp(t1);
    DayPartOfTimestamp(t2);
  }

  /** Day 20346 after the epoch is 2025-09-15, the reference date of the project's tests. */
  lemma CivilExample()
    ensures CivilFromDays(20346) == (2025, 9, 15)
  {
    var z := 20346 + 719468;
    assert z / 146097 == 5;
    var doe := z - 5 * 146097;
    assert doe == 9329;
    assert doe / 1460 == 6 && doe / 36524 == 0 && doe / 146096 == 0;
    assert (9329 - 6) / 365 == 25;
    var doy := doe - (365 * 25 + 25 / 4 - 25 / 100);
    assert doy == 198;
    assert (5 * doy + 2) / 153 == 6;
    assert doy - (153 * 6 + 2) / 5 + 1 == 15;
  }

  /** The day `CivilFromDays` gives has a month in 1..12 and a day in 1..31, and `DaysFromCivil` recovers the count. */
  lemma CivilRoundTrip(days: int)
    ensures 1 <= CivilFromDays(days).1 <= 12
    ensures 1 <= CivilFromDays(days).2 <= 31
    ensures DaysFromCivil(CivilFromDays(days).0, CivilFromDays(days).1, CivilFromDays(days).2) == days
  {
    CivilInEraRoundTrip((days + 719468) / 146097, (days + 719468) % 146097);
  }

  lemma CivilInEraRoundTrip(era: int, doe: int)
    requires 0 <= doe < 146097
    ensures 1 <= CivilInEra(era, doe).1 <= 12 && 1 <= CivilInEra(era, doe).2 <= 31
    ensures DaysFromCivil(CivilInEra(era, doe).0, CivilInEra(era, doe).1, CivilInEra(era, doe).2)
            == era * 146097 + doe - 719468
  {
    YearBounds(doe);
    var yoe := YearOfEra(doe);
    var doy := doe - StartOfYear(yoe);
    MonthDayRoundTrip(doy);
    var md := MonthDay(doy);
    var y' := yoe + era * 400;
    EraOfYear(y', yoe, era);
    var y := y' + (if md.0 <= 2 then 1 else 0);
    assert (if md.0 <= 2 then y - 1 else y) == y';
    assert CivilInEra(era, doe) == (y, md.0, md.1);
    assert DaysFromCivil(y, md.0, md.1) == DaysInEra(era, yoe, md.0, md.1);
  }

  lemma EraOfYear(y: int, yoe: int, era: int)
    requires 0 <= yoe < 400 && y == yoe + era * 400
    ensures y / 400 == era && y - y / 400 * 400 == yoe
  {
  }

  lemma MonthDayRoundTrip(doy: int)
    requires 0 <= doy <= 365
    ensures 1 <= MonthDay(doy).0 <= 12 && 1 <= MonthDay(doy).1 <= 31
    ensures DayOfYear(MonthDay(doy).0, MonthDay(doy).1) == doy
  {
  }

  /** Every era day falls in a year of the era, at most 365 days after that year starts. */
  lemma YearBounds(doe: int)
    requires 0 <= doe < 146097
    ensures 0 <= YearOfEra(doe) < 400
    ensures 0 <= doe - StartOfYear(YearOfEra(doe)) <= 365
  {
    var c, r;
    if doe == 146096 {
      c, r := 3, 36524;
    } else {
      c, r := doe / 36524, doe % 36524;
      assert 0 <= c <= 3 && 0 <= r < 36524;
    }
    assert doe == 36524 * c + r;
    var f, u := r / 1461, r % 1461;
    assert r == 1461 * f + u && 0 <= f <= 24 && 0 <= u <= 1460;
    var g, v;
    if u == 1460 {
      g, v := 3, 365;
      assert f < 24 || c == 3;
    } else {
      g, v := u / 365, u % 365;
      assert u == 365 * g + v && 0 <= g <= 3 && 0 <= v < 365;
    }
    assert doe == 36524 * c + 1461 * f + 365 * g + v;
    Compose(c, f, g, v);
  }

  /** An era day given as century `c`, four-year cycle `f`, year `g` within it and day `v` within that year. */
  lemma Compose(c: int, f: int, g: int, v: int)
    requires 0 <= c <= 3 && 0 <= f <= 24 && 0 <= g <= 3 && 0 <= v <= 365
    requires v == 365 ==> g == 3 && (f < 24 || c == 3)
    ensures YearOfEra(36524 * c + 1461 * f + 365 * g + v) == 100 * c + 4 * f + g
    ensures StartOfYear(100 * c + 4 * f + g) == 36524 * c + 1461 * f + 365 * g
  {
    var doe := 36524 * c + 1461 * f + 365 * g + v;
    var q1 := LeapCycles(c, f, g, v);
    var q2 := Centuries(c, f, g, v);
    var sum := doe - q1 + q2;
    assert sum == 365 * (100 * c + 4 * f + g) + (v - (q1 - 25 * c - f));
    assert sum / 365 == 100 * c + 4 * f + g;
    var yoe := 100 * c + 4 * f + g;
    assert yoe == 4 * (25 * c + f) + g && yoe / 4 == 25 * c + f;
    assert yoe == 100 * c + (4 * f + g) && yoe / 100 == c;
  }

  /** `doe / 1460` of such a day: one per full four-year cycle, plus one on the cycle's last day or days. */
  lemma LeapCycles(c: int, f: int, g: int, v: int) returns (q: int)
    requires 0 <= c <= 3 && 0 <= f <= 24 && 0 <= g <= 3 && 0 <= v <= 365
    requires v == 365 ==> g == 3 && (f < 24 || c == 3)
    ensures q == (36524 * c + 1461 * f + 365 * g + v) / 1460
    ensures 0 <= v - (q - 25 * c - f) < 365
  {
    var doe := 36524 * c + 1461 * f + 365 * g + v;
    var e := if g == 3 && v >= 365 - 24 * c - f then 1 else 0;
    var rest := 24 * c + f + 365 * g + v - 1460 * e;
    assert doe == 1460 * (25 * c + f + e) + rest && 0 <= rest < 1460;
    q := 25 * c + f + e;
  }

  /** `doe / 36524 - doe / 146096` of such a day is its century. */
  lemma Centuries(c: int, f: int, g: int, v: int) returns (q: int)
    requires 0 <= c <= 3 && 0 <= f <= 24 && 0 <= g <= 3 && 0 <= v <= 365
    requires v == 365 ==> g == 3 && (f < 24 || c == 3)
    ensures var doe := 36524 * c + 1461 * f + 365 * g + v; q == doe / 36524 - doe / 146096
    ensures q == c
  {
    var doe := 36524 * c + 1461 * f + 365 * g + v;
    var w := 1461 * f + 365 * g + v;
    if w == 36524 {
      assert c == 3 && doe == 146096;
      assert doe / 36524 == 4 && doe / 146096 == 1;
    } else {
      assert 0 <= w < 36524 && doe < 146096;
      assert doe / 36524 == c && doe / 146096 == 0;
    }
    q := c;
  }

  /** Zero-padded digits read back as their number. */
  lemma {:induction false} DigitsRoundTrip(n: nat, width: nat)
    ensures DigitsValue(Digits(n, width)) == n
    decreases width + n
  {
    var d := ['0' + (n % 10) as char];
    var s := Digits(n, width);
    if n < 10 && width <= 1 {
      assert s == [] + d;
    } else {
      var w' := if width > 0 then width - 1 else 0;
      DigitsRoundTrip(n / 10, w');
      assert s[..|s| - 1] == Digits(n / 10, w');
    }
  }

  lemma TwoDigits(n: int)
    requires 0 <= n < 100
    ensures |Num(n, 2)| == 2
  {
    assert Digits(n / 10, 1) == ['0' + (n / 10 % 10) as char];
  }

  /** `Num` at a fixed width loses nothing: equal texts come from equal numbers. */
  lemma NumInjective(a: int, b: int, width: nat)
    requires width > 0 && Num(a, width) == Num(b, width)
    ensures a == b
  {
    NumRoundTrip(a, width);
    NumRoundTrip(b, width);
  }

  /** A number reads back from its `Num` text: a leading `-` and the value of the digits after it, or the digits alone. */
  lemma NumRoundTrip(n: int, width: nat)
    requires width > 0
    ensures var s := Num(n, width);
      && s != []
      && (s[0] == '-' ==> AllDigits(s[1..]) && n == -(DigitsValue(s[1..]) as int))
      && (s[0] != '-' ==> AllDigits(s) && n == DigitsValue(s))
  {
    var s := Num(n, width);
    if n < 0 {
      assert s[1..] == Digits(-n, width);
      DigitsRoundTrip(-n, width);
    } else {
      assert IsDigit(s[0]);
      DigitsRoundTrip(n, width);
    }
  }

  /** Two days with the same `%Y-%m-%d` text are the same day. */
  lemma FormatDayInjective(a: int, b: int)
    requires FormatDay(a) == FormatDay(b)
    ensures a == b
  {
    CivilRoundTrip(a);
    CivilRoundTrip(b);
    var (y1, m1, d1) := CivilFromDays(a);
    var (y2, m2, d2) := CivilFromDays(b);
    FormatDateInjective(y1, m1, d1, y2, m2, d2);
  }

  /** A date with month and day of two digits can be read back from its `%Y-%m-%d` text. */
  lemma FormatDateInjective(y1: int, m1: int, d1: int, y2: int, m2: int, d2: int)
    requires 1 <= m1 <= 12 && 1 <= d1 <= 31 && 1 <= m2 <= 12 && 1 <= d2 <= 31
    requires FormatDate(y1, m1, d1) == FormatDate(y2, m2, d2)
    ensures y1 == y2 && m1 == m2 && d1 == d2
  {
    TwoDigits(m1); TwoDigits(d1); TwoDigits(m2); TwoDigits(d2);
    DashFields(Num(y1, 4), Num(m1, 2), Num(d1, 2), Num(y2, 4), Num(m2, 2), Num(d2, 2));
    NumInjective(y1, y2, 4);
    NumInjective(m1, m2, 2);
    NumInjective(d1, d2, 2);
  }

  /** With two-character month and day fields, `Y-M-D` texts are equal only field by field. */
  lemma DashFields(y1: string, m1: string, d1: string, y2: string, m2: string, d2: string)
    requires |m1| == |d1| == |m2| == |d2| == 2
    requires y1 + "-" + m1 + "-" + d1 == y2 + "-" + m2 + "-" + d2
    ensures y1 == y2 && m1 == m2 && d1 == d2
  {
    var r := y1 + "-" + m1 + "-" + d1;
    var n := |r|;
    assert |y1| == |y2| == n - 6;
    assert r[..n - 6] == y1 && r[..n - 6] == y2;
    assert r[n - 5..n - 3] == m1 && r[n - 5..n - 3] == m2;
    assert r[n - 2..] == d1 && r[n - 2..] == d2;
  }

  /** Two instants with the same report day key lie on the same UTC day: the converse of `SameDaySameKey`. */
  lemma SameKeySameDay(t1: int, t2: int)
    requires Before(FormatTimestamp(t1), ' ') == Before(FormatTimestamp(t2), ' ')
    ensures t1 / SecondsPerDay == t2 / SecondsPerDay
  {
    DayPartOfTimestamp(t1);
    DayPartOfTimestamp(t2);
    FormatDayInjective(t1 / SecondsPerDay, t2 / SecondsPerDay);
  }
}
