/** Calendar dates as the trip service reads them: the `DD/MM/YYYY` text a
    booking carries, the proleptic Gregorian calendar of Python's `datetime`,
    and the comparison of a booking's midnight with the current moment. */
module TripDates {
  import opened Options

  /** A calendar day. */
  datatype Date = Date(day: int, month: int, year: int)

  /** The current local moment as `datetime.now()` gives it: today's date and
      the microseconds elapsed since today's midnight. */
  datatype Clock = Clock(today: Date, micros: nat)

  predicate IsLeapYear(year: int) {
    year % 4 == 0 && (year % 100 != 0 || year % 400 == 0)
  }

  function DaysInMonth(month: int, year: int): int {
    if month == 2 then (if IsLeapYear(year) then 29 else 28)
    else if month == 4 || month == 6 || month == 9 || month == 11 then 30
    else 31
  }

  /** The dates `datetime` can represent: years 1 to 9999, real months and days. */
  predicate ValidDate(d: Date) {
    && 1 <= d.year <= 9999
    && 1 <= d.month <= 12
    && 1 <= d.day <= DaysInMonth(d.month, d.year)
  }

  /** `datetime(d.year, d.month, d.day) < now`: datetimes compare field by
      field, and the booking's time of day is midnight. */
  predicate MidnightBefore(d: Date, now: Clock) {
    || d.year < now.today.year
    || (d.year == now.today.year && d.month < now.today.month)
    || (d.year == now.today.year && d.month == now.today.month && d.day < now.today.day)
    || (d == now.today && 0 < now.micros)
  }

  /** A booking dated today is already in the past, except at the very first
      microsecond of the day. */
  lemma TodayIsAlreadyPast(now: Clock)
    ensures MidnightBefore(now.today, now) <==> 0 < now.micros
  {
  }

  // ---------------------------------------------------------------------
  // Parsing `%d/%m/%Y`

  predicate IsDigit(c: char) {
    '0' <= c <= '9'
  }

  predicate AllDigits(s: string) {
    forall i | 0 <= i < |s| :: IsDigit(s[i])
  }

  function DigitValue(c: char): nat
    requires IsDigit(c)
  {
    c as int - '0' as int
  }

  function DigitChar(n: nat): (c: char)
    requires n < 10
    ensures IsDigit(c) && DigitValue(c) == n
  {
    ('0' as int + n) as char
  }

  /** The value of a string of decimal digits. */
  function Number(s: string): nat
    requires AllDigits(s)
  {
    if s == [] then 0 else 10 * Number(s[..|s| - 1]) + DigitValue(s[|s| - 1])
  }

  /** The position of the first `c` in `s`, if any. */
  function IndexOf(s: string, c: char): (r: Option<nat>)
    ensures r.Some? ==> r.value < |s| && s[r.value] == c && c !in s[..r.value]
    ensures r.None? ==> c !in s
  {
    if s == [] then None
    else if s[0] == c then Some(0)
    else
      match IndexOf(s[1..], c)
      case None => None
      case Some(i) =>
        assert s[..i + 1] == [s[0]] + s[1..][..i];
        Some(i + 1)
  }

  /** `%d`: one or two digits, or a space followed by one digit. */
  function DayField(s: string): Option<nat> {
    if 1 <= |s| <= 2 && AllDigits(s) then Some(Number(s))
    else if |s| == 2 && s[0] == ' ' && IsDigit(s[1]) then Some(DigitValue(s[1]))
    else None
  }

  /** `%m`: one or two digits. */
  function MonthField(s: string): Option<nat> {
    if 1 <= |s| <= 2 && AllDigits(s) then Some(Number(s)) else None
  }

  /** `%Y`: exactly four digits. */
  function YearField(s: string): Option<nat> {
    if |s| == 4 && AllDigits(s) then Some(Number(s)) else None
  }

  /** `datetime.strptime(s, '%d/%m/%Y')`: the date, or None where Python raises
      (text of the wrong shape, or a day the calendar does not have). */
  function ParseDate(s: string): (r: Option<Date>)
    ensures r.Some? ==> ValidDate(r.value)
  {
    match IndexOf(s, '/')
    case None => None
    case Some(i) =>
      var rest := s[i + 1..];
      match IndexOf(rest, '/')
      case None => None
      case Some(j) =>
        match (DayField(s[..i]), MonthField(rest[..j]), YearField(rest[j + 1..]))
        case (Some(day), Some(month), Some(year)) =>
          if ValidDate(Date(day, month, year)) then Some(Date(day, month, year)) else None
        case _ => None
  }

  // ---------------------------------------------------------------------
  // The canonical text of a date, and the round trip through the parser

  function TwoDigits(n: nat): string
    requires n < 100
  {
    [DigitChar(n / 10), DigitChar(n % 10)]
  }

  function FourDigits(n: nat): string
    requires n < 10000
  {
    [DigitChar(n / 1000), DigitChar(n / 100 % 10), DigitChar(n / 10 % 10), DigitChar(n % 10)]
  }

  /** The zero-padded `DD/MM/YYYY` text of a date. */
  function FormatDate(d: Date): string
    requires ValidDate(d)
  {
    TwoDigits(d.day) + "/" + TwoDigits(d.month) + "/" + FourDigits(d.year)
  }

  lemma TwoDigitsValue(n: nat)
    requires n < 100
    ensures AllDigits(TwoDigits(n)) && Number(TwoDigits(n)) == n
  {
    var s := TwoDigits(n);
    assert s[..1][..0] == [];
    assert Number(s[..1]) == n / 10;
  }

  lemma FourDigitsValue(n: nat)
    requires n < 10000
    ensures AllDigits(FourDigits(n)) && Number(FourDigits(n)) == n
  {
    var s := FourDigits(n);
    assert s[..1][..0] == [];
    assert s[..2][..1] == s[..1];
    assert s[..3][..2] == s[..2];
    assert Number(s[..1]) == n / 1000;
    assert Number(s[..2]) == n / 100;
    assert Number(s[..3]) == n / 10;
  }

  /** Parsing the canonical text of a date gives the date back. */
  lemma {:induction false} ParseFormatted(d: Date)
    requires ValidDate(d)
    ensures ParseDate(FormatDate(d)) == Some(d)
  {
    var dd, mm, yyyy := TwoDigits(d.day), TwoDigits(d.month), FourDigits(d.year);
    TwoDigitsValue(d.day);
    TwoDigitsValue(d.month);
    FourDigitsValue(d.year);
    var s := FormatDate(d);
    assert s[2] == '/' && '/' !in s[..2];
    assert IndexOf(s, '/') == Some(2);
    var rest := s[3..];
    assert s[..2] == dd;
    assert rest == mm + "/" + yyyy;
    assert rest[2] == '/' && '/' !in rest[..2];
    assert IndexOf(rest, '/') == Some(2);
    assert rest[..2] == mm;
    assert rest[3..] == yyyy;
    assert DayField(dd) == Some(d.day);
    assert MonthField(mm) == Some(d.month);
    assert YearField(yyyy) == Some(d.year);
  }
}
