/**
 * Stay dates: the three independent `YYYY-MM-DD` checks and the night-by-night loop.
 *
 * Two calls reach into the JavaScript engine: `new Date(text + 'T00:00:00.000Z')` and `new Date(text)`.
 * Both are parameters. ECMA-262 fixes their value only on texts that name a real calendar date; on
 * `2023-02-30` one engine answers NaN, another rolls over into March, and every result below holds for both.
 */
module StayCalendar {
  import opened Wrappers
  import opened Text
  import opened Gregorian

  const MS_PER_DAY := 86_400_000

  /** A parse by the engine: a time value in milliseconds, or `None` for NaN. */
  type Engine = string -> Option<int>

  /** `/^\d{4}-\d{2}-\d{2}$/` */
  predicate IsDatePattern(s: string) {
    && |s| == 10
    && AllDigits(s[..4]) && s[4] == '-' && AllDigits(s[5..7]) && s[7] == '-' && AllDigits(s[8..])
  }

  /** The three numbers a date text spells, whether or not they name a day. */
  function FieldsOf(s: string): Civil
    requires IsDatePattern(s)
  {
    Civil(NumberOf(s[..4]), NumberOf(s[5..7]), NumberOf(s[8..]))
  }

  function DateText(c: Civil): string
    requires 0 <= c.year && 0 <= c.month && 0 <= c.day
  {
    Digits(c.year, 4) + "-" + Digits(c.month, 2) + "-" + Digits(c.day, 2)
  }

  /** The first instant of a day. */
  function Midnight(day: int): int {
    day * MS_PER_DAY
  }

  /** Day(t): the day number an instant falls on. */
  function DayAt(time: int): int {
    time / MS_PER_DAY
  }

  lemma InstantOfDay(day: int, ms: int)
    requires 0 <= ms < MS_PER_DAY
    ensures DayAt(Midnight(day) + ms) == day && (Midnight(day) + ms) % MS_PER_DAY == ms
  {
  }

  /** The date part of an instant's ISO text: outside years 0000 to 9999 it starts with a sign and six digits. */
  function DayText(day: int): string {
    var c := CivilOf(day);
    CivilOfDayNumber(day);
    if 0 <= c.year <= 9999 then DateText(c)
    else if c.year < 0 then "-" + Digits(-c.year, 6) + "-" + Digits(c.month, 2)
    else "+" + Digits(c.year, 6) + "-" + Digits(c.month, 2)
  }

  /** `date.toISOString().slice(0, 10)` */
  function IsoDateSlice(time: int): string {
    DayText(DayAt(time))
  }

  /** What ECMA-262 requires of a parse: on a text that names a day it yields that day's first instant in UTC. */
  ghost predicate Conforming(parse: Engine) {
    forall s :: IsDatePattern(s) && Valid(FieldsOf(s)) ==> parse(s) == Some(Midnight(DayOf(s)))
  }

  /** The specification all the checks are measured against: a text that names a day of the calendar. */
  predicate NamesDay(s: string) {
    IsDatePattern(s) && Valid(FieldsOf(s))
  }

  function DayOf(s: string): int
    requires IsDatePattern(s)
  {
    DayNumber(FieldsOf(s))
  }

  // ---- date texts and days ----

  lemma FieldsOfDateText(c: Civil)
    requires Valid(c) && 0 <= c.year <= 9999
    ensures IsDatePattern(DateText(c)) && FieldsOf(DateText(c)) == c
  {
    var s := DateText(c);
    assert Pow10(2) == 100 && Pow10(4) == 10 * (10 * (10 * (10 * Pow10(0))));
    NumberOfDigits(c.year, 4);
    NumberOfDigits(c.month, 2);
    NumberOfDigits(c.day, 2);
    assert s[..4] == Digits(c.year, 4);
    assert s[5..7] == Digits(c.month, 2);
    assert s[8..] == Digits(c.day, 2);
  }

  lemma DateTextOfFields(s: string)
    requires IsDatePattern(s)
    ensures DateText(FieldsOf(s)) == s
    ensures 0 <= FieldsOf(s).year <= 9999
  {
    DigitsOfNumber(s[..4]);
    DigitsOfNumber(s[5..7]);
    DigitsOfNumber(s[8..]);
    assert Pow10(4) == 10 * (10 * (10 * (10 * Pow10(0))));
    assert s == s[..4] + "-" + s[5..7] + "-" + s[8..];
  }

  /** The round-trip test of the source accepts an instant exactly when the text names the instant's own day. */
  lemma RoundTripIsOwnDay(s: string, time: int)
    requires IsDatePattern(s)
    ensures IsoDateSlice(time) == s <==> Valid(FieldsOf(s)) && DayOf(s) == DayAt(time)
  {
    var c := CivilOf(DayAt(time));
    CivilOfDayNumber(DayAt(time));
    if IsoDateSlice(time) == s {
      assert IsDigit(s[..4][0]);
      FieldsOfDateText(c);
    } else if Valid(FieldsOf(s)) && DayOf(s) == DayAt(time) {
      DayNumberOfCivil(FieldsOf(s));
      DateTextOfFields(s);
    }
  }

  // ---- isCanonicalCalendarDate, assertCanonicalStayDates, AfterCheckInConstraint ----

  predicate IsCanonicalCalendarDate(parse: Engine, value: string) {
    IsDatePattern(value) && parse(value).Some? && IsoDateSlice(parse(value).value) == value
  }

  datatype StayError = NotCanonical | OutNotAfterIn | BadPattern

  function AssertCanonicalStayDates(parse: Engine, checkIn: string, checkOut: string): Result<(), StayError> {
    if !IsCanonicalCalendarDate(parse, checkIn) || !IsCanonicalCalendarDate(parse, checkOut) then Failure(NotCanonical)
    else if !TextLess(checkIn, checkOut) then Failure(OutNotAfterIn)
    else Success(())
  }

  predicate AfterCheckInValidate(parse: Engine, checkIn: string, value: string) {
    && IsCanonicalCalendarDate(parse, checkIn)
    && IsCanonicalCalendarDate(parse, value)
    && TextLess(checkIn, value)
  }

  /** Whatever the engine does with impossible dates, the check accepts exactly the texts that name a day. */
  lemma CanonicalMeansNamesDay(parse: Engine, value: string)
    requires Conforming(parse)
    ensures IsCanonicalCalendarDate(parse, value) <==> NamesDay(value)
  {
    if IsDatePattern(value) && parse(value).Some? {
      RoundTripIsOwnDay(value, parse(value).value);
    }
  }

  lemma DashedFieldOrder(a: nat, b: nat)
    requires a < Pow10(2) && b < Pow10(2)
    ensures TextLess("-" + Digits(a, 2), "-" + Digits(b, 2)) <==> a < b
    ensures "-" + Digits(a, 2) == "-" + Digits(b, 2) <==> a == b
  {
    TextLessConcat("-", "-", Digits(a, 2), Digits(b, 2));
    NotLessThanItself("-");
    DigitsOrder(a, b, 2);
    NumberOfDigits(a, 2);
    NumberOfDigits(b, 2);
    assert ("-" + Digits(a, 2))[1..] == Digits(a, 2) && ("-" + Digits(b, 2))[1..] == Digits(b, 2);
  }

  lemma DateTextOrder(c: Civil, d: Civil)
    requires 0 <= c.year < Pow10(4) && 0 <= c.month < Pow10(2) && 0 <= c.day < Pow10(2)
    requires 0 <= d.year < Pow10(4) && 0 <= d.month < Pow10(2) && 0 <= d.day < Pow10(2)
    ensures TextLess(DateText(c), DateText(d)) <==> Before(c, d)
  {
    hide TextLess, Digits, Pow10, NumberOf;
    var month, day := "-" + Digits(c.month, 2), "-" + Digits(c.day, 2);
    var month', day' := "-" + Digits(d.month, 2), "-" + Digits(d.day, 2);
    assert DateText(c) == Digits(c.year, 4) + (month + day) && DateText(d) == Digits(d.year, 4) + (month' + day');
    TextLessConcat(Digits(c.year, 4), Digits(d.year, 4), month + day, month' + day');
    TextLessConcat(month, month', day, day');
    DigitsOrder(c.year, d.year, 4);
    NumberOfDigits(c.year, 4);
    NumberOfDigits(d.year, 4);
    DashedFieldOrder(c.month, d.month);
    DashedFieldOrder(c.day, d.day);
  }

  /** Text order on date texts is day order. */
  lemma TextOrderIsDayOrder(a: string, b: string)
    requires NamesDay(a) && NamesDay(b)
    ensures TextLess(a, b) <==> DayOf(a) < DayOf(b)
    ensures a == b <==> DayOf(a) == DayOf(b)
  {
    hide TextLess, DateText, FieldsOf, DayNumber;
    DateTextOfFields(a);
    DateTextOfFields(b);
    FieldBounds(a);
    FieldBounds(b);
    DateTextOrder(FieldsOf(a), FieldsOf(b));
    DayNumberOrder(FieldsOf(a), FieldsOf(b));
  }

  lemma FieldBounds(s: string)
    requires IsDatePattern(s)
    ensures 0 <= FieldsOf(s).year < Pow10(4) && 0 <= FieldsOf(s).month < Pow10(2) && 0 <= FieldsOf(s).day < Pow10(2)
  {
    DigitsOfNumber(s[..4]);
    DigitsOfNumber(s[5..7]);
    DigitsOfNumber(s[8..]);
  }

  /** The pairs a stay may use: both texts name days and the second day is later. */
  predicate IsStay(checkIn: string, checkOut: string) {
    NamesDay(checkIn) && NamesDay(checkOut) && DayOf(checkIn) < DayOf(checkOut)
  }

  /** The text-comparing checks accept exactly the stays. */
  lemma CanonicalChecksAcceptStays(parse: Engine, checkIn: string, checkOut: string)
    requires Conforming(parse)
    ensures AssertCanonicalStayDates(parse, checkIn, checkOut).Success? <==> IsStay(checkIn, checkOut)
    ensures AfterCheckInValidate(parse, checkIn, checkOut) <==> IsStay(checkIn, checkOut)
    ensures AssertCanonicalStayDates(parse, checkIn, checkOut) == Failure(OutNotAfterIn)
      <==> NamesDay(checkIn) && NamesDay(checkOut) && DayOf(checkOut) <= DayOf(checkIn)
  {
    CanonicalMeansNamesDay(parse, checkIn);
    CanonicalMeansNamesDay(parse, checkOut);
    if NamesDay(checkIn) && NamesDay(checkOut) {
      TextOrderIsDayOrder(checkIn, checkOut);
    }
  }

  // ---- Date objects ----

  /** A JavaScript `Date`, seen through the UTC accessors the source uses. */
  class UtcDate {
    var time: int

    constructor (time: int)
      ensures this.time == time
    {
      this.time := time;
    }

    /** The year, month and day that getUTCFullYear, getUTCMonth (plus one) and getUTCDate report. */
    function Utc(): Civil
      reads this
    {
      CivilOf(DayAt(time))
    }

    /** setUTCDate: the year, the month and the time of day stay, a date beyond the month carries over. */
    method SetUTCDate(date: int)
      modifies this
      ensures time == Midnight(DayAt(old(time)) + date - old(Utc()).day) + old(time) % MS_PER_DAY
    {
      var c := Utc();
      CarryOver(DayAt(time), date);
      time := Midnight(MakeDay(c.year, c.month - 1, date)) + time % MS_PER_DAY;
    }

    method SetUTCFullYear(year: int, month: int, date: int)
      modifies this
      ensures time == Midnight(MakeDay(year, month, date)) + old(time) % MS_PER_DAY
    {
      time := Midnight(MakeDay(year, month, date)) + time % MS_PER_DAY;
    }
  }

  // ---- stayDates ----

  /** The nights from day `a` up to but not including day `b`, as date texts. */
  function Nights(a: int, b: int): (nights: seq<string>)
    ensures |nights| == if a < b then b - a else 0
    decreases b - a
  {
    if a < b then Nights(a, b - 1) + [DayText(b - 1)] else []
  }

  method StayDates(parse: Engine, checkIn: string, checkOut: string) returns (r: Result<seq<string>, StayError>)
    requires Conforming(parse)
    ensures r == Failure(BadPattern) <==> !IsDatePattern(checkIn) || !IsDatePattern(checkOut)
    ensures r.Success? <==> IsStay(checkIn, checkOut)
    ensures r.Success? ==> r.value == Nights(DayOf(checkIn), DayOf(checkOut))
    ensures r.Failure? ==> r.error == BadPattern || r.error == OutNotAfterIn
  {
    if !IsDatePattern(checkIn) || !IsDatePattern(checkOut) {
      return Failure(BadPattern);
    }
    var start, end := parse(checkIn), parse(checkOut);
    CanonicalMeansNamesDay(parse, checkIn);
    CanonicalMeansNamesDay(parse, checkOut);
    if start.None? || end.None?
       || IsoDateSlice(start.value) != checkIn || IsoDateSlice(end.value) != checkOut
       || end.value <= start.value {
      return Failure(OutNotAfterIn);
    }
    var dates := ListNights(start.value, end.value, DayOf(checkIn), DayOf(checkOut));
    return Success(dates);
  }

  /** The loop of stayDates, one `Date` object rolled forward a day at a time. */
  method ListNights(start: int, end: int, ghost a: int, ghost b: int) returns (dates: seq<string>)
    requires start == Midnight(a) && end == Midnight(b) && a < b
    ensures dates == Nights(a, b)
  {
    hide DayText, CivilOf;
    dates := [];
    var date := new UtcDate(start);
    while date.time < end
      invariant a + |dates| <= b
      invariant date.time == Midnight(a + |dates|)
      invariant dates == Nights(a, a + |dates|)
      decreases b - a - |dates|
    {
      InstantOfDay(a + |dates|, 0);
      dates := dates + [IsoDateSlice(date.time)];
      date.SetUTCDate(date.Utc().day + 1);
    }
  }

  /** The days a four-digit year can write. */
  predicate HasText(day: int) {
    0 <= CivilOf(day).year <= 9999
  }

  /** A day's text names that day. */
  lemma TextOfDay(day: int)
    requires HasText(day)
    ensures NamesDay(DayText(day)) && DayOf(DayText(day)) == day
  {
    CivilOfDayNumber(day);
    FieldsOfDateText(CivilOf(day));
  }

  lemma NamedDayHasText(s: string)
    requires NamesDay(s)
    ensures HasText(DayOf(s)) && DayText(DayOf(s)) == s
  {
    DayNumberOfCivil(FieldsOf(s));
    DateTextOfFields(s);
  }

  lemma HasTextBetween(x: int, day: int, z: int)
    requires HasText(x) && HasText(z) && x <= day <= z
    ensures HasText(day)
  {
    CivilOfDayNumber(x);
    CivilOfDayNumber(day);
    CivilOfDayNumber(z);
    DayNumberOrder(CivilOf(x), CivilOf(day));
    DayNumberOrder(CivilOf(day), CivilOf(z));
  }

  lemma {:induction false} NightIsDayText(a: int, b: int, k: nat)
    requires k < b - a
    ensures Nights(a, b)[k] == DayText(a + k)
    decreases b - a
  {
    hide DayText;
    if k < b - 1 - a {
      NightIsDayText(a, b - 1, k);
    }
  }

  /** The k-th night from day `a` is the canonical text of day a + k, across month ends and leap days. */
  lemma NightAt(a: int, b: int, k: nat)
    requires HasText(a) && HasText(b) && k < b - a
    ensures NamesDay(Nights(a, b)[k]) && DayOf(Nights(a, b)[k]) == a + k
  {
    hide *;
    NightIsDayText(a, b, k);
    HasTextBetween(a, a + k, b);
    TextOfDay(a + k);
  }

  /** Later nights are later as text too. */
  lemma NightsIncrease(a: int, b: int, j: nat, k: nat)
    requires HasText(a) && HasText(b) && j < k < b - a
    ensures TextLess(Nights(a, b)[j], Nights(a, b)[k])
  {
    hide *;
    NightAt(a, b, j);
    NightAt(a, b, k);
    TextOrderIsDayOrder(Nights(a, b)[j], Nights(a, b)[k]);
  }

  /** A text is one of the nights exactly when it names a day from `a` up to, not including, `b`. */
  lemma NightsAreTheDaysBetween(a: int, b: int, text: string)
    requires HasText(a) && HasText(b)
    ensures text in Nights(a, b) <==> NamesDay(text) && a <= DayOf(text) < b
  {
    hide *;
    var nights := Nights(a, b);
    if text in nights {
      var k: nat :| k < |nights| && nights[k] == text;
      NightAt(a, b, k);
    }
    if NamesDay(text) {
      IsPattern(text);
      if a <= DayOf(text) < b {
        NightAt(a, b, DayOf(text) - a);
        TextOrderIsDayOrder(nights[DayOf(text) - a], text);
      }
    }
  }

  lemma IsPattern(s: string)
    requires NamesDay(s)
    ensures IsDatePattern(s)
  {
  }

  /** stayDates lists the nights of the stay: the first is checkIn, and checkOut is not one of them. */
  lemma NightsOfStay(checkIn: string, checkOut: string)
    requires IsStay(checkIn, checkOut)
    ensures HasText(DayOf(checkIn)) && HasText(DayOf(checkOut))
    ensures checkOut !in Nights(DayOf(checkIn), DayOf(checkOut))
    ensures Nights(DayOf(checkIn), DayOf(checkOut))[0] == checkIn
  {
    hide DayNumber, DayText, Nights, HasText, FieldsOf, Valid;
    NamedDayHasText(checkIn);
    NamedDayHasText(checkOut);
    NightsAreTheDaysBetween(DayOf(checkIn), DayOf(checkOut), checkOut);
    NightIsDayText(DayOf(checkIn), DayOf(checkOut), 0);
  }

  /** Adjacent stays: the nights of a..b followed by those of b..c are the nights of a..c. */
  lemma {:induction false} NightsConcat(a: int, b: int, c: int)
    requires a <= b <= c
    ensures Nights(a, b) + Nights(b, c) == Nights(a, c)
    decreases c - b
  {
    hide DayText;
    if b < c {
      NightsConcat(a, b, c - 1);
      assert Nights(a, b) + Nights(b, c) == (Nights(a, b) + Nights(b, c - 1)) + [DayText(c - 1)];
    }
  }

  /** Two stays share a night exactly when each begins before the other ends. */
  lemma SharedNight(a: int, b: int, c: int, d: int)
    requires HasText(a) && HasText(b) && HasText(c) && HasText(d) && a < b && c < d
    ensures (exists night :: night in Nights(a, b) && night in Nights(c, d)) <==> a < d && c < b
  {
    hide *;
    if a < d && c < b {
      var day := if a < c then c else a;
      NightIsDayText(a, b, day - a);
      NightIsDayText(c, d, day - c);
      assert Nights(a, b)[day - a] in Nights(c, d);
    }
    if night :| night in Nights(a, b) && night in Nights(c, d) {
      NightsAreTheDaysBetween(a, b, night);
      NightsAreTheDaysBetween(c, d, night);
    }
  }

  // ---- format.ts ----

  /** `Math.round(ms / 86400000)`: halves round up. */
  function RoundToDays(ms: int): int {
    (2 * ms + MS_PER_DAY) / (2 * MS_PER_DAY)
  }

  /** Here the engine parses the date text on its own. */
  function NightsBetween(parse: Engine, checkIn: string, checkOut: string): nat {
    match (parse(checkIn), parse(checkOut))
    case (Some(a), Some(b)) => if RoundToDays(b - a) > 0 then RoundToDays(b - a) else 0
    case _ => 0
  }

  /** The widget's count is the number of nights the server lists, and 0 exactly when the dates are not a stay. */
  lemma NightsBetweenCountsNights(parse: Engine, checkIn: string, checkOut: string)
    requires Conforming(parse) && NamesDay(checkIn) && NamesDay(checkOut)
    ensures NightsBetween(parse, checkIn, checkOut) == |Nights(DayOf(checkIn), DayOf(checkOut))|
    ensures NightsBetween(parse, checkIn, checkOut) == 0 <==> !IsStay(checkIn, checkOut)
  {
    var a, b := DayOf(checkIn), DayOf(checkOut);
    assert RoundToDays(Midnight(b) - Midnight(a)) == b - a;
  }

  method ParseYmd(value: string) returns (date: UtcDate?)
    ensures date != null <==> NamesDay(value)
    ensures date != null ==> fresh(date) && date.time == Midnight(DayOf(value))
  {
    if !IsDatePattern(value) {
      return null;
    }
    var c := FieldsOf(value);
    date := new UtcDate(0);
    date.SetUTCFullYear(c.year, c.month - 1, c.day);
    InstantOfDay(DayNumber(c), 0);
    ReadsBackIffValid(c);
    var utc := date.Utc();
    assert utc == CivilOf(DayNumber(c));
    if utc.year != c.year || utc.month - 1 != c.month - 1 || utc.day != c.day {
      return null;
    }
  }

  // ---- two dates and the clock ----

  /** A leap day and its number, both ways, and the length of a day. */
  lemma KnownDates()
    ensures NamesDay("2024-02-29") && DayOf("2024-02-29") == 19782 && DayText(19782) == "2024-02-29"
    ensures !NamesDay("2023-02-29") && !NamesDay("2024-2-29") && !NamesDay("2024/02/29")
    ensures Midnight(1) == 24 * 60 * 60 * 1000
  {
    LeapDay();
    Patterns();
    NamedDayHasText("2024-02-29");
  }

  lemma LeapDay()
    ensures NamesDay("2024-02-29") && DayOf("2024-02-29") == 19782
  {
    var c := Civil(2024, 2, 29);
    LeapDayText();
    FieldsOfDateText(c);
    hide DateText, FieldsOf, IsDatePattern;
    LeapDayNumber();
  }

  lemma LeapDayText()
    ensures DateText(Civil(2024, 2, 29)) == "2024-02-29"
  {
    assert Digits(2024, 4) == "2024" && Digits(2, 2) == "02" && Digits(29, 2) == "29";
    hide Digits;
  }

  lemma LeapDayNumber()
    ensures DayNumber(Civil(2024, 2, 29)) == 19782
  {
    MakeDayInYear(2024, 1, 29);
    NextMonth(2024, 0);
    NoMonthsYet(2024);
    assert DayFromYear(2024) == 19723;
    hide DayFromYear, MonthStart, MakeDay;
  }

  lemma Patterns()
    ensures !NamesDay("2023-02-29") && !NamesDay("2024-2-29") && !NamesDay("2024/02/29")
  {
    var noLeap, short, slashed := "2023-02-29", "2024-2-29", "2024/02/29";
    assert |short| == 9 && slashed[4] == '/';
    assert noLeap[..4] == ['2', '0', '2', '3'] && noLeap[5..7] == ['0', '2'] && noLeap[8..] == ['2', '9'];
    FourDigits('2', '0', '2', '3');
    TwoDigits('0', '2');
    TwoDigits('2', '9');
    hide NumberOf;
  }

  lemma OneDigit(a: char)
    requires IsDigit(a)
    ensures AllDigits([a]) && NumberOf([a]) == DigitValue(a)
  {
    var s := [a];
    assert s[..0] == "";
    NothingToRead();
  }

  lemma TwoDigits(a: char, b: char)
    requires IsDigit(a) && IsDigit(b)
    ensures AllDigits([a, b]) && NumberOf([a, b]) == 10 * DigitValue(a) + DigitValue(b)
  {
    hide *;
    OneDigit(a);
    NumberOfSnoc([a], b);
    assert [a] + [b] == [a, b];
  }

  lemma NothingToRead()
    ensures NumberOf("") == 0
  {
  }

  lemma FourDigits(a: char, b: char, c: char, d: char)
    requires IsDigit(a) && IsDigit(b) && IsDigit(c) && IsDigit(d)
    ensures AllDigits([a, b, c, d])
    ensures NumberOf([a, b, c, d]) == 1000 * DigitValue(a) + 100 * DigitValue(b) + 10 * DigitValue(c) + DigitValue(d)
  {
    hide *;
    TwoDigits(a, b);
    NumberOfSnoc([a, b], c);
    assert [a, b] + [c] == [a, b, c];
    NumberOfSnoc([a, b, c], d);
    assert [a, b, c] + [d] == [a, b, c, d];
  }

  /** Without two instants, or with the second not half a day behind the first, the widget counts no night. */
  lemma NoNightCounted(parse: Engine, checkIn: string, checkOut: string)
    ensures NightsBetween(parse, checkIn, checkOut) > 0
      <==> && parse(checkIn).Some? && parse(checkOut).Some?
           && 2 * (parse(checkOut).value - parse(checkIn).value) >= Midnight(1)
  {
  }

  /** The count is the difference in days, rounded to the nearest and up from a half. */
  lemma CountIsRounded(ms: int)
    ensures var n := RoundToDays(ms);
      2 * Midnight(n) - Midnight(1) <= 2 * ms < 2 * Midnight(n) + Midnight(1)
  {
  }
}
