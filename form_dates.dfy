/** Dates of the form (code/frontend/helpers/form/date.ts).

    A JavaScript `Date` is a time value; here it is represented by the local calendar date it
    falls on and the milliseconds since that day's local midnight. A valid calendar date in the
    proleptic Gregorian calendar names exactly one day, and two dates compare as their
    (year, month, day, milliseconds) tuples compare lexicographically. `new Date(y, m - 1, d)`
    does not reject a day or month that overflows: it rolls over into the following (or
    preceding) months, which `MakeDate` models. */
module FormDates {
  import opened Wrappers
  import Text

  datatype CalendarDate = CalendarDate(year: int, month: int, day: int) {
    predicate Valid() {
      1 <= month <= 12 && 1 <= day <= DaysInMonth(year, month)
    }
  }

  const MsPerDay: int := 86400000

  /** A point in local time. */
  datatype Moment = Moment(date: CalendarDate, ms: int) {
    predicate Valid() {
      date.Valid() && 0 <= ms < MsPerDay
    }
  }

  predicate IsLeapYear(y: int) {
    y % 4 == 0 && (y % 100 != 0 || y % 400 == 0)
  }

  function DaysInMonth(y: int, m: int): (n: int)
    requires 1 <= m <= 12
    ensures 28 <= n <= 31
  {
    if m == 2 then (if IsLeapYear(y) then 29 else 28)
    else if m == 4 || m == 6 || m == 9 || m == 11 then 30
    else 31
  }

  /** Strictly earlier calendar date. */
  predicate DateBefore(a: CalendarDate, b: CalendarDate) {
    a.year < b.year ||
    (a.year == b.year && (a.month < b.month || (a.month == b.month && a.day < b.day)))
  }

  /** Strictly earlier moment: JavaScript's `a < b` on two dates. */
  predicate Before(a: Moment, b: Moment) {
    DateBefore(a.date, b.date) || (a.date == b.date && a.ms < b.ms)
  }

  /** The day `d` days after the day before the first of month `m` of year `y`, for any `d`:
      a day beyond the month's end moves into the following months, a day below 1 into the
      preceding ones. */
  function Normalize(y: int, m: int, d: int): (r: CalendarDate)
    requires 1 <= m <= 12
    ensures r.Valid()
    decreases if d < 1 then 1 else 0, if d < 1 then -d else d
  {
    if d < 1 then
      var py := if m == 1 then y - 1 else y;
      var pm := if m == 1 then 12 else m - 1;
      Normalize(py, pm, d + DaysInMonth(py, pm))
    else if d > DaysInMonth(y, m) then
      var ny := if m == 12 then y + 1 else y;
      var nm := if m == 12 then 1 else m + 1;
      Normalize(ny, nm, d - DaysInMonth(y, m))
    else CalendarDate(y, m, d)
  }

  /** The calendar date of JavaScript's MakeDay(y, m - 1, d) (1-based month here): a month
      outside 1..12 carries whole years first, then the day is normalised. */
  function MakeDate(y: int, m: int, d: int): (r: CalendarDate)
    ensures r.Valid()
  {
    Normalize(y + (m - 1) / 12, (m - 1) % 12 + 1, d)
  }

  /** A valid date is left as it is. */
  lemma NormalizeValid(dt: CalendarDate)
    requires dt.Valid()
    ensures Normalize(dt.year, dt.month, dt.day) == dt
    ensures MakeDate(dt.year, dt.month, dt.day) == dt
  {
    assert (dt.month - 1) / 12 == 0 && (dt.month - 1) % 12 + 1 == dt.month;
  }

  /** A day of a month that exists in some year (1 to 31) overflows at most into the first days
      of the next month of the same year, and only when it is February the 29th. */
  lemma NormalizeMonthDay(y: int, m: int, d: int)
    requires 1 <= m <= 12 && 1 <= d <= 31
    requires m != 2 ==> d <= DaysInMonth(y, m)
    requires m == 2 ==> d <= 29
    ensures d <= DaysInMonth(y, m) ==> Normalize(y, m, d) == CalendarDate(y, m, d)
    ensures d > DaysInMonth(y, m) ==> m == 2 && d == 29 && !IsLeapYear(y) &&
                                      Normalize(y, m, d) == CalendarDate(y, 3, 1)
  {
    if d > DaysInMonth(y, m) {
      assert Normalize(y, m, d) == Normalize(y, 3, 1);
    }
  }

  /** The day after `dt` (`new Date(y, m - 1, d + 1)`). */
  function NextDay(dt: CalendarDate): (r: CalendarDate)
    requires dt.Valid()
    ensures r.Valid() && DateBefore(dt, r)
    ensures r.year == dt.year || (r == CalendarDate(dt.year + 1, 1, 1) && dt.month == 12 && dt.day == 31)
  {
    if dt.day < DaysInMonth(dt.year, dt.month) then
      Normalize(dt.year, dt.month, dt.day + 1)
    else if dt.month < 12 then
      assert Normalize(dt.year, dt.month, dt.day + 1) == Normalize(dt.year, dt.month + 1, 1);
      Normalize(dt.year, dt.month, dt.day + 1)
    else
      assert Normalize(dt.year, dt.month, dt.day + 1) == Normalize(dt.year + 1, 1, 1);
      Normalize(dt.year, dt.month, dt.day + 1)
  }

  // ---------------------------------------------------------------------------------------
  // yearsAgo: `new Date()` then `setFullYear(getFullYear() - n)`.

  /** A mutable JavaScript `Date` object. */
  class JsDate {
    var value: Moment

    constructor (v: Moment)
      ensures value == v
    {
      value := v;
    }

    function FullYear(): int
      reads this
    {
      value.date.year
    }

    /** `setFullYear(y)`: keeps the month, the day of the month and the time of day, so a
        29 February moved into a common year becomes 1 March. */
    method SetFullYear(y: int)
      requires value.Valid()
      modifies this
      ensures value == Moment(MakeDate(y, old(value).date.month, old(value).date.day), old(value).ms)
      ensures value.Valid()
    {
      value := Moment(MakeDate(y, value.date.month, value.date.day), value.ms);
    }
  }

  /** The moment `n` whole years before `now`, as `yearsAgo(n)` computes it. */
  function ShiftYears(now: Moment, n: int): (r: Moment)
    requires now.Valid()
    ensures r.Valid()
    ensures r.date.year == now.date.year - n && r.ms == now.ms
    ensures r.date.month == now.date.month || (now.date.month == 2 && r.date.month == 3)
  {
    assert (now.date.month - 1) / 12 == 0 && (now.date.month - 1) % 12 + 1 == now.date.month;
    NormalizeMonthDay(now.date.year - n, now.date.month, now.date.day);
    Moment(MakeDate(now.date.year - n, now.date.month, now.date.day), now.ms)
  }

  /** `yearsAgo(n)`, with the clock read `now` passed in. */
  method YearsAgo(now: Moment, n: int) returns (d: JsDate)
    requires now.Valid()
    ensures fresh(d) && d.value == ShiftYears(now, n)
  {
    d := new JsDate(now);
    d.SetFullYear(d.FullYear() - n);
  }

  /** `yearsAgo(n)` lands in year `now.year - n`, at the same time of day; it keeps the month
      and the day of the month whenever that day exists in the target year, and otherwise (a
      29 February moved into a common year) gives 1 March. */
  lemma ShiftYearsCalendar(now: Moment, n: int)
    requires now.Valid()
    ensures ShiftYears(now, n).date.year == now.date.year - n
    ensures ShiftYears(now, n).ms == now.ms
    ensures CalendarDate(now.date.year - n, now.date.month, now.date.day).Valid() ==>
              ShiftYears(now, n).date == CalendarDate(now.date.year - n, now.date.month, now.date.day)
    ensures !CalendarDate(now.date.year - n, now.date.month, now.date.day).Valid() ==>
              now.date.month == 2 && now.date.day == 29 && !IsLeapYear(now.date.year - n) &&
              ShiftYears(now, n).date == CalendarDate(now.date.year - n, 3, 1)
  {
    var y := now.date.year - n;
    var m := now.date.month;
    assert (m - 1) / 12 == 0 && (m - 1) % 12 + 1 == m;
    NormalizeMonthDay(y, m, now.date.day);
  }

  /** Going back more years gives an earlier moment; going back one year or more gives a
      moment before `now`. */
  lemma ShiftYearsOrder(now: Moment, n: int, n': int)
    requires now.Valid()
    requires n < n'
    ensures Before(ShiftYears(now, n'), ShiftYears(now, n))
    ensures n' >= 1 ==> Before(ShiftYears(now, n'), now)
  {
    ShiftYearsCalendar(now, n);
    ShiftYearsCalendar(now, n');
  }

  // ---------------------------------------------------------------------------------------
  // formatDDMMYYYY and parseLooseDob.

  /** A destructured element of a split: the piece, or the text of `undefined` when the split
      gave fewer pieces. */
  function Piece(parts: seq<string>, i: nat): string {
    if i < |parts| then parts[i] else "undefined"
  }

  /** `formatDDMMYYYY(d)`: "" for null or ""; otherwise `${day}.${month}.${year}` over the
      first three pieces of `d.split("-")`. */
  function FormatDDMMYYYY(d: Option<string>): (r: string)
    ensures r == "" <==> d.None? || d.value == ""
    ensures r != "" ==> '.' in r
  {
    match d
    case None => ""
    case Some(s) =>
      if s == "" then ""
      else
        var parts := Text.Split(s, '-');
        Piece(parts, 2) + "." + Piece(parts, 1) + "." + Piece(parts, 0)
  }

  /** `/^\d{4}-\d{2}-\d{2}$/` */
  predicate IsIsoShape(s: string) {
    |s| == 10 && s[4] == '-' && s[7] == '-' &&
    Text.AllDigits(s[..4]) && Text.AllDigits(s[5..7]) && Text.AllDigits(s[8..])
  }

  /** `/^\d{2}\.\d{2}\.\d{4}$/` */
  predicate IsDottedShape(s: string) {
    |s| == 10 && s[2] == '.' && s[5] == '.' &&
    Text.AllDigits(s[..2]) && Text.AllDigits(s[3..5]) && Text.AllDigits(s[6..])
  }

  /** A string of three separator-free pieces splits into exactly those pieces. */
  lemma SplitThree(a: string, b: string, c: string, sep: char)
    requires sep !in a && sep !in b && sep !in c
    ensures Text.Split(a + [sep] + b + [sep] + c, sep) == [a, b, c]
  {
    Text.SplitAppend(a + [sep] + b, c, sep);
    Text.SplitAppend(a, b, sep);
    Text.SplitWithoutSeparator(a, sep);
    Text.SplitWithoutSeparator(b, sep);
    Text.SplitWithoutSeparator(c, sep);
  }

  lemma DigitsHaveNo(s: string, sep: char)
    requires Text.AllDigits(s) && !Text.IsDigit(sep)
    ensures sep !in s
  {
  }

  lemma IsoPieces(s: string)
    requires IsIsoShape(s)
    ensures Text.Split(s, '-') == [s[..4], s[5..7], s[8..]]
  {
    DigitsHaveNo(s[..4], '-');
    DigitsHaveNo(s[5..7], '-');
    DigitsHaveNo(s[8..], '-');
    assert s == s[..4] + ['-'] + s[5..7] + ['-'] + s[8..];
    SplitThree(s[..4], s[5..7], s[8..], '-');
  }

  lemma DottedPieces(s: string)
    requires IsDottedShape(s)
    ensures Text.Split(s, '.') == [s[..2], s[3..5], s[6..]]
  {
    DigitsHaveNo(s[..2], '.');
    DigitsHaveNo(s[3..5], '.');
    DigitsHaveNo(s[6..], '.');
    assert s == s[..2] + ['.'] + s[3..5] + ['.'] + s[6..];
    SplitThree(s[..2], s[3..5], s[6..], '.');
  }

  /** The year the `Date` constructor uses: years 0 to 99 stand for 1900 to 1999. */
  function ConstructorYear(y: int): (r: int)
    ensures !(0 <= r <= 99)
    ensures !(0 <= y <= 99) ==> r == y
    ensures 0 <= y <= 99 ==> r - y == 1900
  {
    if 0 <= y <= 99 then 1900 + y else y
  }

  /** `new Date(y, m - 1, d)`: local midnight of the (normalised) date. */
  function LocalMidnight(y: int, m: int, d: int): (r: Moment)
    ensures r.Valid()
  {
    Moment(MakeDate(ConstructorYear(y), m, d), 0)
  }

  /** A generic date parser standing for `new Date(raw)`; `None` is an invalid date. */
  type FallbackParser = string -> Option<Moment>

  /** `parseLooseDob(raw)`. */
  function ParseLooseDob(fallback: FallbackParser, raw: Option<string>): (r: Option<Moment>)
    ensures raw.None? || raw.value == "" ==> r == None
    ensures raw.Some? && (IsIsoShape(raw.value) || IsDottedShape(raw.value)) ==>
              r.Some? && r.value.Valid() && r.value.ms == 0
    ensures raw.Some? && raw.value != "" && !IsIsoShape(raw.value) && !IsDottedShape(raw.value) ==>
              r == fallback(raw.value)
  {
    match raw
    case None => None
    case Some(s) =>
      if s == "" then None
      else if IsIsoShape(s) then
        IsoPieces(s);
        var parts := Text.Split(s, '-');
        Some(LocalMidnight(Text.DecimalValue(parts[0]), Text.DecimalValue(parts[1]),
                           Text.DecimalValue(parts[2])))
      else if IsDottedShape(s) then
        DottedPieces(s);
        var parts := Text.Split(s, '.');
        Some(LocalMidnight(Text.DecimalValue(parts[2]), Text.DecimalValue(parts[1]),
                           Text.DecimalValue(parts[0])))
      else fallback(s)
  }

  /** Null and the empty string parse to nothing, whatever the fallback parser does. */
  lemma ParseNothing(fallback: FallbackParser)
    ensures ParseLooseDob(fallback, None) == None
    ensures ParseLooseDob(fallback, Some("")) == None
  {
  }

  /** Null and the empty string format as "". */
  lemma FormatNothing()
    ensures FormatDDMMYYYY(None) == ""
    ensures FormatDDMMYYYY(Some("")) == ""
  {
  }

  /** "YYYY-MM-DD" formats as "DD.MM.YYYY": the same three pieces, reordered. */
  lemma FormatIso(s: string)
    requires IsIsoShape(s)
    ensures FormatDDMMYYYY(Some(s)) == s[8..] + "." + s[5..7] + "." + s[..4]
    ensures IsDottedShape(FormatDDMMYYYY(Some(s)))
  {
    IsoPieces(s);
    var f := s[8..] + "." + s[5..7] + "." + s[..4];
    assert f[..2] == s[8..] && f[3..5] == s[5..7] && f[6..] == s[..4];
  }

  /** Text without a "-" is one piece: the missing day and month print as "undefined". */
  lemma FormatWithoutDash(s: string)
    requires s != "" && '-' !in s
    ensures FormatDDMMYYYY(Some(s)) == "undefined.undefined." + s
  {
    Text.SplitWithoutSeparator(s, '-');
  }

  /** An ISO string gives local midnight of the date its three numbers build. */
  lemma ParseIso(fallback: FallbackParser, s: string)
    requires IsIsoShape(s)
    ensures ParseLooseDob(fallback, Some(s)) ==
            Some(LocalMidnight(Text.DecimalValue(s[..4]), Text.DecimalValue(s[5..7]),
                               Text.DecimalValue(s[8..])))
  {
    IsoPieces(s);
  }

  /** A "DD.MM.YYYY" string gives local midnight of the date its three numbers build. */
  lemma ParseDotted(fallback: FallbackParser, s: string)
    requires IsDottedShape(s)
    ensures ParseLooseDob(fallback, Some(s)) ==
            Some(LocalMidnight(Text.DecimalValue(s[6..]), Text.DecimalValue(s[3..5]),
                               Text.DecimalValue(s[..2])))
  {
    assert s[4] != '-' by { assert s[4] == s[3..5][1]; }
    DottedPieces(s);
  }

  /** Formatting an ISO date and parsing the result gives the date the ISO text parses to. */
  lemma FormatThenParse(fallback: FallbackParser, s: string)
    requires IsIsoShape(s)
    ensures ParseLooseDob(fallback, Some(FormatDDMMYYYY(Some(s)))) == ParseLooseDob(fallback, Some(s))
  {
    FormatIso(s);
    var f := FormatDDMMYYYY(Some(s));
    ParseDotted(fallback, f);
    ParseIso(fallback, s);
    assert f[6..] == s[..4] && f[3..5] == s[5..7] && f[..2] == s[8..];
  }

  /** An ISO string naming a real calendar date after the year 99 parses to exactly that date. */
  lemma ParseIsoExact(fallback: FallbackParser, s: string, dt: CalendarDate)
    requires IsIsoShape(s)
    requires dt.year == Text.DecimalValue(s[..4]) && dt.month == Text.DecimalValue(s[5..7]) &&
             dt.day == Text.DecimalValue(s[8..])
    requires dt.Valid() && dt.year >= 100
    ensures ParseLooseDob(fallback, Some(s)) == Some(Moment(dt, 0))
  {
    ParseIso(fallback, s);
    NormalizeValid(dt);
  }

  /** The parser does not reject an impossible day: 31.02.2020 rolls over to 2 March 2020. */
  lemma ParseRollsOverDay(fallback: FallbackParser)
    ensures ParseLooseDob(fallback, Some("31.02.2020")) == Some(Moment(CalendarDate(2020, 3, 2), 0))
  {
    var a := "31.02.2020";
    assert a[..2] == "31" && a[3..5] == "02" && a[6..] == "2020";
    assert IsDottedShape(a);
    ParseDotted(fallback, a);
    DecimalValues();
    RollOverDay();
  }

  lemma RollOverDay()
    ensures LocalMidnight(2020, 2, 31) == Moment(CalendarDate(2020, 3, 2), 0)
  {
    assert ConstructorYear(2020) == 2020;
    assert (2 - 1) / 12 == 0 && (2 - 1) % 12 + 1 == 2;
    assert MakeDate(2020, 2, 31) == Normalize(2020, 2, 31);
    assert IsLeapYear(2020);
    assert DaysInMonth(2020, 2) == 29;
    assert Normalize(2020, 2, 31) == Normalize(2020, 3, 2);
  }

  /** The parser does not reject an impossible month: 2020-13-01 rolls over to 1 January 2021. */
  lemma ParseRollsOverMonth(fallback: FallbackParser)
    ensures ParseLooseDob(fallback, Some("2020-13-01")) == Some(Moment(CalendarDate(2021, 1, 1), 0))
  {
    var b := "2020-13-01";
    assert b[..4] == "2020" && b[5..7] == "13" && b[8..] == "01";
    assert IsIsoShape(b);
    ParseIso(fallback, b);
    DecimalValues();
    RollOverMonth();
  }

  lemma RollOverMonth()
    ensures LocalMidnight(2020, 13, 1) == Moment(CalendarDate(2021, 1, 1), 0)
  {
    assert ConstructorYear(2020) == 2020;
    assert (13 - 1) / 12 == 1 && (13 - 1) % 12 + 1 == 1;
    assert MakeDate(2020, 13, 1) == Normalize(2021, 1, 1);
    assert DaysInMonth(2021, 1) == 31;
  }

  lemma DecimalValues()
    ensures Text.DecimalValue("2020") == 2020
    ensures Text.DecimalValue("31") == 31 && Text.DecimalValue("02") == 2
    ensures Text.DecimalValue("13") == 13 && Text.DecimalValue("01") == 1
  {
    assert "2020"[..3] == "202" && "202"[..2] == "20" && "20"[..1] == "2" && "2"[..0] == "";
    assert "31"[..1] == "3" && "02"[..1] == "0" && "13"[..1] == "1" && "01"[..1] == "0";
    assert "3"[..0] == "" && "0"[..0] == "" && "1"[..0] == "";
  }
}
