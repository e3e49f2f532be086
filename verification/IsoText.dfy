/** The date and time texts of `toISOString` and of the Date constructor, for the years 0 to 9999
    (section 21.4.1.32 of ECMA-262). */
module IsoText {
  import opened Slots
  import opened Calendar
  import opened Text

  function Digit(n: int): char
    requires 0 <= n <= 9
  {
    ('0' as int + n) as char
  }

  predicate IsDigit(c: char) { '0' <= c <= '9' }

  function DigitValue(c: char): (n: int)
    requires IsDigit(c)
    ensures 0 <= n <= 9
  {
    c as int - '0' as int
  }

  /** Zero-padded digits, and their values. */
  function TwoDigits(n: int): (s: string)
    requires 0 <= n <= 99
    ensures |s| == 2
  {
    [Digit(n / 10), Digit(n % 10)]
  }

  function TwoValue(a: char, b: char): (n: int)
    requires IsDigit(a) && IsDigit(b)
    ensures 0 <= n <= 99
  {
    DigitValue(a) * 10 + DigitValue(b)
  }

  function DateText(y: int, m: int, d: int): (s: string)
    requires 0 <= y <= 9999 && 0 <= m <= 99 && 0 <= d <= 99
    ensures |s| == 10
  {
    TwoDigits(y / 100) + TwoDigits(y % 100) + ['-'] + TwoDigits(m) + ['-'] + TwoDigits(d)
  }

  /** ss.sssZ */
  function SecondsText(sec: int, ms: int): (s: string)
    requires 0 <= sec <= 99 && 0 <= ms <= 999
    ensures |s| == 7
  {
    TwoDigits(sec) + ['.', Digit(ms / 100)] + TwoDigits(ms % 100) + ['Z']
  }

  function ClockText(h: int, m: int, sec: int, ms: int): (s: string)
    requires 0 <= h <= 99 && 0 <= m <= 99 && 0 <= sec <= 99 && 0 <= ms <= 999
    ensures |s| == 14
  {
    ['T'] + TwoDigits(h) + [':'] + TwoDigits(m) + [':'] + SecondsText(sec, ms)
  }

  predicate Printable(day: int) { 0 <= Year(day) <= 9999 }

  predicate PrintableTime(t: int) { Printable(t / DAY) }

  /** YYYY-MM-DD: the first ten characters of `toISOString`. */
  function IsoDate(day: int): (s: string)
    requires Printable(day)
    ensures |s| == 10
  {
    DateText(Year(day), Month(day) + 1, Date(day))
  }

  /** THH:mm:ss.sssZ */
  function IsoClock(ms: int): (s: string)
    requires 0 <= ms < DAY
    ensures |s| == 14
  {
    ClockText(ms / HOUR, ms / MINUTE % 60, ms / 1000 % 60, ms % 1000)
  }

  /** `toISOString` */
  function Iso(t: int): (s: string)
    requires PrintableTime(t)
    ensures |s| == 24
  {
    IsoDate(t / DAY) + IsoClock(t % DAY)
  }

  /** The shape tested by the create handler before it appends a midnight clock. */
  predicate DateOnlyShape(s: string) {
    && |s| == 10 && s[4] == '-' && s[7] == '-'
    && IsDigit(s[0]) && IsDigit(s[1]) && IsDigit(s[2]) && IsDigit(s[3])
    && IsDigit(s[5]) && IsDigit(s[6]) && IsDigit(s[8]) && IsDigit(s[9])
  }

  predicate ClockShape(s: string) {
    && |s| == 14 && s[0] == 'T' && s[3] == ':' && s[6] == ':' && s[9] == '.' && s[13] == 'Z'
    && IsDigit(s[1]) && IsDigit(s[2]) && IsDigit(s[4]) && IsDigit(s[5]) && IsDigit(s[7])
    && IsDigit(s[8]) && IsDigit(s[10]) && IsDigit(s[11]) && IsDigit(s[12])
  }

  function ReadDate(s: string): (f: (int, int, int))
    requires DateOnlyShape(s)
    ensures 0 <= f.0 <= 9999 && 0 <= f.1 <= 99 && 0 <= f.2 <= 99
  {
    (TwoValue(s[0], s[1]) * 100 + TwoValue(s[2], s[3]), TwoValue(s[5], s[6]), TwoValue(s[8], s[9]))
  }

  function ReadClock(s: string): (f: (int, int, int, int))
    requires ClockShape(s)
  {
    (TwoValue(s[1], s[2]), TwoValue(s[4], s[5]), TwoValue(s[7], s[8]),
     DigitValue(s[10]) * 100 + TwoValue(s[11], s[12]))
  }

  function ParseDay(s: string): Option<int> {
    if !DateOnlyShape(s) then None
    else
      var (y, month, d) := ReadDate(s);
      if 1 <= month <= 12 && 1 <= d <= DaysInMonth(y, month - 1) then Some(MakeDay(y, month - 1, d)) else None
  }

  /** Milliseconds into the day; 24:00:00.000 is the end of the day. */
  function ParseClock(s: string): Option<int> {
    if !ClockShape(s) then None
    else
      var (h, m, sec, ms) := ReadClock(s);
      if m < 60 && sec < 60 && (h < 24 || (h == 24 && m == 0 && sec == 0 && ms == 0))
      then Some(h * HOUR + m * MINUTE + sec * 1000 + ms)
      else None
  }

  function Instant(day: Option<int>, ms: Option<int>): Option<int> {
    if day.Some? && ms.Some? then Some(day.value * DAY + ms.value) else None
  }

  /** The Date constructor on the two forms this system writes: a date, or a full UTC instant. */
  function ParseIso(s: string): Option<int> {
    if |s| == 10 then Instant(ParseDay(s), Some(0))
    else if |s| == 24 then Instant(ParseDay(s[..10]), ParseClock(s[10..]))
    else None
  }

  /** The create handler's reading of `startAt`. */
  function ParseStart(s: string): Option<int> {
    ParseIso(if DateOnlyShape(s) then s + "T00:00:00.000Z" else s)
  }

  lemma TwoDigitsAt(s: string, k: int, n: int)
    requires 0 <= k && k + 2 <= |s| && 0 <= n <= 99 && s[k..k + 2] == TwoDigits(n)
    ensures IsDigit(s[k]) && IsDigit(s[k + 1]) && TwoValue(s[k], s[k + 1]) == n
  {
    assert s[k] == s[k..k + 2][0] && s[k + 1] == s[k..k + 2][1];
  }

  lemma ReadDateOfDateText(y: int, m: int, d: int)
    requires 0 <= y <= 9999 && 0 <= m <= 99 && 0 <= d <= 99
    ensures DateOnlyShape(DateText(y, m, d)) && ReadDate(DateText(y, m, d)) == (y, m, d)
  {
    var s := DateText(y, m, d);
    TwoDigitsAt(s, 0, y / 100);
    TwoDigitsAt(s, 2, y % 100);
    TwoDigitsAt(s, 5, m);
    TwoDigitsAt(s, 8, d);
  }

  lemma TwoDigitsOfValue(a: char, b: char)
    requires IsDigit(a) && IsDigit(b)
    ensures TwoDigits(TwoValue(a, b)) == [a, b]
  {
    var n := TwoValue(a, b);
    assert n / 10 == DigitValue(a) && n % 10 == DigitValue(b);
  }

  lemma DateTextOfReadDate(s: string)
    requires DateOnlyShape(s)
    ensures var (y, m, d) := ReadDate(s); DateText(y, m, d) == s
  {
    var c, n := TwoValue(s[0], s[1]), TwoValue(s[2], s[3]);
    assert (c * 100 + n) / 100 == c && (c * 100 + n) % 100 == n;
    TwoDigitsOfValue(s[0], s[1]);
    TwoDigitsOfValue(s[2], s[3]);
    TwoDigitsOfValue(s[5], s[6]);
    TwoDigitsOfValue(s[8], s[9]);
    assert s == [s[0], s[1]] + [s[2], s[3]] + ['-'] + [s[5], s[6]] + ['-'] + [s[8], s[9]];
  }

  lemma ReadClockOfClockText(h: int, m: int, sec: int, ms: int)
    requires 0 <= h <= 99 && 0 <= m <= 99 && 0 <= sec <= 99 && 0 <= ms <= 999
    ensures ClockShape(ClockText(h, m, sec, ms)) && ReadClock(ClockText(h, m, sec, ms)) == (h, m, sec, ms)
  {
    var s := ClockText(h, m, sec, ms);
    TwoDigitsAt(s, 1, h);
    TwoDigitsAt(s, 4, m);
    assert s[7..] == SecondsText(sec, ms);
    TwoDigitsAt(s, 7, sec);
    TwoDigitsAt(s, 11, ms % 100);
    assert s[10] == Digit(ms / 100);
  }

  lemma ParseDayOfIsoDate(day: int)
    requires Printable(day)
    ensures DateOnlyShape(IsoDate(day)) && ParseDay(IsoDate(day)) == Some(day)
  {
    ReadDateOfDateText(Year(day), Month(day) + 1, Date(day));
    MakeDayOfFields(day);
  }

  lemma IsoDateOfMadeDay(y: int, m: int, d: int)
    requires 0 <= y <= 9999 && 0 <= m < 12 && 1 <= d <= DaysInMonth(y, m)
    ensures Printable(MakeDay(y, m, d)) && IsoDate(MakeDay(y, m, d)) == DateText(y, m + 1, d)
  {
    FieldsOfMakeDay(y, m, d);
  }

  /** Every accepted date text is the print of the day it is read as. */
  lemma IsoDateOfParseDay(s: string)
    requires ParseDay(s).Some?
    ensures Printable(ParseDay(s).value) && IsoDate(ParseDay(s).value) == s
  {
    var (y, month, d) := ReadDate(s);
    IsoDateOfMadeDay(y, month - 1, d);
    DateTextOfReadDate(s);
  }

  lemma ClockFields(ms: int)
    requires 0 <= ms < DAY
    ensures 0 <= ms / HOUR < 24
    ensures ms / HOUR * HOUR + ms / MINUTE % 60 * MINUTE + ms / 1000 % 60 * 1000 + ms % 1000 == ms
  {
    assert ms / MINUTE / 60 == ms / HOUR;
    assert ms / 1000 / 60 == ms / MINUTE;
  }

  lemma ParseClockOfText(h: int, m: int, sec: int, ms: int)
    requires 0 <= h < 24 && 0 <= m < 60 && 0 <= sec < 60 && 0 <= ms < 1000
    ensures ParseClock(ClockText(h, m, sec, ms)) == Some(h * HOUR + m * MINUTE + sec * 1000 + ms)
  {
    ReadClockOfClockText(h, m, sec, ms);
  }

  lemma ParseClockOfIsoClock(ms: int)
    requires 0 <= ms < DAY
    ensures ParseClock(IsoClock(ms)) == Some(ms)
  {
    ClockFields(ms);
    ParseClockOfText(ms / HOUR, ms / MINUTE % 60, ms / 1000 % 60, ms % 1000);
  }

  lemma HourOf(t: int, h: int, rest: int)
    requires 0 <= rest < 3_600_000 && t == h * 3_600_000 + rest
    ensures t / HOUR == h
  {
  }

  lemma MinuteOf(t: int, h: int, m: int, rest: int)
    requires 0 <= m < 60 && 0 <= rest < 60_000 && t == h * 3_600_000 + m * 60_000 + rest
    ensures t / MINUTE % 60 == m
  {
    assert t / MINUTE == h * 60 + m;
  }

  lemma SecondOf(t: int, minutes: int, sec: int, ms: int)
    requires 0 <= sec < 60 && 0 <= ms < 1000 && t == minutes * 60_000 + sec * 1000 + ms
    ensures t / 1000 % 60 == sec && t % 1000 == ms
  {
    assert t / 1000 == minutes * 60 + sec;
  }

  lemma IsoClockIsText(t: int, h: int, m: int, sec: int, ms: int)
    requires 0 <= h < 24 && 0 <= m < 60 && 0 <= sec < 60 && 0 <= ms < 1000
    requires t == h * 3_600_000 + m * 60_000 + sec * 1000 + ms
    ensures 0 <= t < DAY && IsoClock(t) == ClockText(h, m, sec, ms)
  {
    HourOf(t, h, m * 60_000 + sec * 1000 + ms);
    MinuteOf(t, h, m, sec * 1000 + ms);
    SecondOf(t, h * 60 + m, sec, ms);
  }

  lemma SecondsTextOfRead(s: string, sec: int, ms: int)
    requires |s| == 7 && s[2] == '.' && s[6] == 'Z' && IsDigit(s[0]) && IsDigit(s[1])
    requires IsDigit(s[3]) && IsDigit(s[4]) && IsDigit(s[5])
    requires sec == TwoValue(s[0], s[1]) && ms == DigitValue(s[3]) * 100 + TwoValue(s[4], s[5])
    ensures SecondsText(sec, ms) == s
  {
    TwoDigitsOfValue(s[0], s[1]);
    TwoDigitsOfValue(s[4], s[5]);
    assert ms / 100 == DigitValue(s[3]) && ms % 100 == TwoValue(s[4], s[5]);
    assert s == [s[0], s[1]] + ['.', s[3]] + [s[4], s[5]] + ['Z'];
  }

  lemma ClockTextOfReadClock(s: string)
    requires ClockShape(s)
    ensures var (h, m, sec, ms) := ReadClock(s); ClockText(h, m, sec, ms) == s
  {
    var (_, _, sec, ms) := ReadClock(s);
    SecondsTextOfRead(s[7..], sec, ms);
    TwoDigitsOfValue(s[1], s[2]);
    TwoDigitsOfValue(s[4], s[5]);
    assert s == ['T'] + [s[1], s[2]] + [':'] + [s[4], s[5]] + [':'] + s[7..];
  }

  /** The clocks that are read are the printed ones, and 24:00:00.000 as the end of the day. */
  lemma ClocksThatAreRead(s: string, t: int)
    ensures ParseClock(s) == Some(t) <==>
            (0 <= t < DAY && s == IsoClock(t)) || (t == DAY && s == "T24:00:00.000Z")
  {
    if 0 <= t < DAY && s == IsoClock(t) {
      ParseClockOfIsoClock(t);
    } else if s == "T24:00:00.000Z" {
      assert ReadClock(s) == (24, 0, 0, 0);
    } else if ParseClock(s) == Some(t) {
      ReadIsPrinted(s, t);
    }
  }

  lemma ReadIsPrinted(s: string, t: int)
    requires ParseClock(s) == Some(t) && s != "T24:00:00.000Z"
    ensures 0 <= t < DAY && s == IsoClock(t)
  {
    var (h, m, sec, ms) := ReadClock(s);
    ClockTextOfReadClock(s);
    assert ClockText(24, 0, 0, 0) == "T24:00:00.000Z";
    IsoClockIsText(t, h, m, sec, ms);
  }

  lemma ParseIsoOfParts(date: string, clock: string, day: int, ms: int)
    requires |date| == 10 && |clock| == 14
    requires ParseDay(date) == Some(day) && ParseClock(clock) == Some(ms)
    ensures ParseIso(date + clock) == Some(day * DAY + ms)
  {
    var s := date + clock;
    assert s[..10] == date && s[10..] == clock;
    assert ParseIso(s) == Instant(ParseDay(date), ParseClock(clock));
  }

  lemma LongTextIsReadAsIs(s: string)
    requires |s| == 24
    ensures ParseStart(s) == ParseIso(s)
  {
    assert !DateOnlyShape(s);
  }

  lemma ReadParts(date: string, clock: string, day: int, ms: int, t: int)
    requires |date| == 10 && |clock| == 14 && ParseDay(date) == Some(day) && ParseClock(clock) == Some(ms)
    requires t == day * DAY + ms
    ensures ParseIso(date + clock) == Some(t) && ParseStart(date + clock) == Some(t)
  {
    ParseIsoOfParts(date, clock, day, ms);
    LongTextIsReadAsIs(date + clock);
  }

  lemma PrintedDateIsRead(day: int, date: string)
    requires Printable(day) && date == IsoDate(day)
    ensures ParseDay(date) == Some(day)
  {
    ParseDayOfIsoDate(day);
  }

  lemma PrintedClockIsRead(ms: int, clock: string)
    requires 0 <= ms < DAY && clock == IsoClock(ms)
    ensures ParseClock(clock) == Some(ms)
  {
    ParseClockOfIsoClock(ms);
  }

  /** The instant printed into a lock key, a token or a hold is the instant read back. */
  lemma ParseIsoOfIso(t: int)
    requires PrintableTime(t)
    ensures ParseIso(Iso(t)) == Some(t) && ParseStart(Iso(t)) == Some(t)
  {
    var date, clock := IsoDate(t / DAY), IsoClock(t % DAY);
    PrintedDateIsRead(t / DAY, date);
    PrintedClockIsRead(t % DAY, clock);
    ReadParts(date, clock, t / DAY, t % DAY, t);
  }

  /** The print is injective, so equal keys mean equal instants. */
  lemma IsoIsInjective(s: int, t: int)
    requires PrintableTime(s) && PrintableTime(t) && Iso(s) == Iso(t)
    ensures s == t
  {
    ParseIsoOfIso(s);
    ParseIsoOfIso(t);
  }

  lemma MidnightClock()
    ensures ParseClock("T00:00:00.000Z") == Some(0)
  {
    ParseClockOfText(0, 0, 0, 0);
    assert ClockText(0, 0, 0, 0) == "T00:00:00.000Z";
  }

  /** A date text, sent to create as `startAt`, is that day's midnight. */
  lemma DateTextStartsItsDay(s: string, day: int)
    requires DateOnlyShape(s) && ParseDay(s) == Some(day)
    ensures ParseStart(s) == Some(day * DAY)
  {
    MidnightClock();
    ParseIsoOfParts(s, "T00:00:00.000Z", day, 0);
  }

  /** So each date printed by the schedule names the start of its own day. */
  lemma PrintedDateStartsItsDay(day: int)
    requires Printable(day)
    ensures ParseStart(IsoDate(day)) == Some(day * DAY)
  {
    ParseDayOfIsoDate(day);
    DateTextStartsItsDay(IsoDate(day), day);
  }

  function Numeral(n: int): char
    requires 0 <= n <= 9
  {
    "0123456789"[n]
  }

  lemma TwoNumerals(n: int)
    requires 0 <= n <= 99
    ensures TwoDigits(n) == [Numeral(n / 10), Numeral(n % 10)]
  {
    DigitIsNumeral(n / 10);
    DigitIsNumeral(n % 10);
  }

  lemma DigitIsNumeral(n: int)
    requires 0 <= n <= 9
    ensures Digit(n) == Numeral(n)
  {
  }

  lemma DigitsOfQuotient(n: int, q: int, r: int)
    requires 0 <= n && q == n / 100 && r == n % 100
    ensures q / 10 == n / 1000 && r / 10 == n / 10 % 10 && r % 10 == n % 10
  {
  }

  lemma YearNumerals(y: int)
    requires 0 <= y <= 9999
    ensures TwoDigits(y / 100) + TwoDigits(y % 100)
            == [Numeral(y / 1000), Numeral(y / 100 % 10), Numeral(y / 10 % 10), Numeral(y % 10)]
  {
    TwoNumerals(y / 100);
    TwoNumerals(y % 100);
    DigitsOfQuotient(y, y / 100, y % 100);
  }

  /** Character by character: YYYY-MM-DD, with months from 1. */
  lemma IsoDateMeans(day: int, y: int, m: int, d: int)
    requires Printable(day) && y == Year(day) && m == Month(day) + 1 && d == Date(day)
    ensures IsoDate(day)
            == [Numeral(y / 1000), Numeral(y / 100 % 10), Numeral(y / 10 % 10), Numeral(y % 10)] + ['-']
               + [Numeral(m / 10), Numeral(m % 10)] + ['-'] + [Numeral(d / 10), Numeral(d % 10)]
  {
    YearNumerals(y);
    TwoNumerals(m);
    TwoNumerals(d);
  }

  lemma ClockNumerals(h: int, m: int, sec: int, ms: int)
    requires 0 <= h < 24 && 0 <= m < 60 && 0 <= sec < 60 && 0 <= ms < 1000
    ensures ClockText(h, m, sec, ms)
            == ['T'] + [Numeral(h / 10), Numeral(h % 10)] + [':'] + [Numeral(m / 10), Numeral(m % 10)]
               + [':'] + [Numeral(sec / 10), Numeral(sec % 10)]
               + ['.'] + [Numeral(ms / 100), Numeral(ms / 10 % 10), Numeral(ms % 10)] + ['Z']
  {
    TwoNumerals(h);
    TwoNumerals(m);
    TwoNumerals(sec);
    TwoNumerals(ms % 100);
    DigitIsNumeral(ms / 100);
    DigitsOfQuotient(ms, ms / 100, ms % 100);
  }

  /** Character by character: THH:mm:ss.sssZ after the date of the day. */
  lemma IsoMeans(t: int, day: int, h: int, m: int, sec: int, ms: int)
    requires 0 <= h < 24 && 0 <= m < 60 && 0 <= sec < 60 && 0 <= ms < 1000
    requires t == day * 86_400_000 + h * 3_600_000 + m * 60_000 + sec * 1000 + ms && Printable(day)
    ensures PrintableTime(t)
    ensures Iso(t)
            == IsoDate(day)
               + (['T'] + [Numeral(h / 10), Numeral(h % 10)] + [':'] + [Numeral(m / 10), Numeral(m % 10)]
                  + [':'] + [Numeral(sec / 10), Numeral(sec % 10)]
                  + ['.'] + [Numeral(ms / 100), Numeral(ms / 10 % 10), Numeral(ms % 10)] + ['Z'])
  {
    DayOf(t, day, h * 3_600_000 + m * 60_000 + sec * 1000 + ms);
    IsoClockIsText(t % DAY, h, m, sec, ms);
    ClockNumerals(h, m, sec, ms);
  }

  lemma DayOf(t: int, day: int, rest: int)
    requires 0 <= rest < 86_400_000 && t == day * 86_400_000 + rest
    ensures t / DAY == day && t % DAY == rest
  {
  }

  lemma DatesThatAreRead(s: string, day: int)
    ensures ParseDay(s) == Some(day) <==> Printable(day) && s == IsoDate(day)
  {
    if ParseDay(s) == Some(day) {
      IsoDateOfParseDay(s);
    } else if Printable(day) && s == IsoDate(day) {
      ParseDayOfIsoDate(day);
    }
  }

  lemma InstantIs(day: Option<int>, ms: Option<int>, t: int)
    requires ms.Some? ==> 0 <= ms.value <= DAY
    ensures Instant(day, ms) == Some(t) <==>
            || (day == Some(t / DAY) && ms == Some(t % DAY))
            || (day == Some(t / DAY - 1) && ms == Some(DAY) && t % DAY == 0)
  {
    if day.Some? && ms.Some? && ms.value < DAY && t == day.value * DAY + ms.value {
      DayOf(t, day.value, ms.value);
    } else if day.Some? && ms.Some? && ms.value == DAY && t == day.value * DAY + DAY {
      DayOf(t, day.value + 1, 0);
    }
  }

  lemma ClockWithinDay(s: string)
    ensures ParseClock(s).Some? ==> 0 <= ParseClock(s).value <= DAY
  {
    if ParseClock(s).Some? {
      ClocksThatAreRead(s, ParseClock(s).value);
    }
  }

  lemma LongText(s: string, date: string, clock: string, t: int)
    requires |date| == 10 && |clock| == 14 && s == date + clock
    ensures ParseStart(s) == Some(t) <==>
            || (ParseDay(date) == Some(t / DAY) && clock == IsoClock(t % DAY))
            || (ParseDay(date) == Some(t / DAY - 1) && t % DAY == 0 && clock == "T24:00:00.000Z")
  {
    LongTextIsReadAsIs(s);
    assert s[..10] == date && s[10..] == clock;
    ClocksThatAreRead(clock, t % DAY);
    ClocksThatAreRead(clock, DAY);
    ClockWithinDay(clock);
    InstantIs(ParseDay(date), ParseClock(clock), t);
  }

  lemma ShortText(s: string, t: int)
    requires |s| != 24
    ensures ParseStart(s) == Some(t) <==> ParseDay(s) == Some(t / DAY) && t % DAY == 0
  {
    if ParseDay(s).Some? {
      DateTextStartsItsDay(s, ParseDay(s).value);
      DayOf(ParseDay(s).value * DAY, ParseDay(s).value, 0);
    }
  }

  /** Create takes a text for the instant `t` exactly if it is the print of `t`, or the date of the day that
      starts at `t`, or the end of the day before. */
  lemma StartsThatAreRead(s: string, t: int)
    ensures ParseStart(s) == Some(t) <==>
            || (PrintableTime(t) && s == Iso(t))
            || (PrintableTime(t) && t % DAY == 0 && s == IsoDate(t / DAY))
            || (Printable(t / DAY - 1) && t % DAY == 0 && s == IsoDate(t / DAY - 1) + "T24:00:00.000Z")
  {
    if |s| == 24 {
      LongText(s, s[..10], s[10..], t);
      DatesThatAreRead(s[..10], t / DAY);
      DatesThatAreRead(s[..10], t / DAY - 1);
    } else {
      ShortText(s, t);
      DatesThatAreRead(s, t / DAY);
    }
  }

  /** Order of strings of equal length by UTF-16 code units, as JavaScript compares them. */
  ghost predicate TextBefore(a: string, b: string) {
    exists k :: 0 <= k < |a| && k < |b| && a[..k] == b[..k] && a[k] < b[k]
  }

  lemma DifferAt(p: string, a: string, b: string, q: string, r: string)
    requires TextBefore(a, b)
    ensures TextBefore(p + a + q, p + b + r)
  {
    var k :| 0 <= k < |a| && k < |b| && a[..k] == b[..k] && a[k] < b[k];
    var x, y := p + a + q, p + b + r;
    assert x[..|p| + k] == p + a[..k] && y[..|p| + k] == p + b[..k];
    assert x[|p| + k] < y[|p| + k];
  }

  lemma TwoDigitsKeepOrder(m: int, n: int)
    requires 0 <= m < n <= 99
    ensures TextBefore(TwoDigits(m), TwoDigits(n))
  {
    var a, b := TwoDigits(m), TwoDigits(n);
    var k := if m / 10 < n / 10 then 0 else 1;
    assert a[k] < b[k] && a[..k] == b[..k];
  }

  lemma DateTextKeepsOrder(y: int, m: int, d: int, y': int, m': int, d': int)
    requires 0 <= y <= 9999 && 0 <= m <= 99 && 0 <= d <= 99
    requires 0 <= y' <= 9999 && 0 <= m' <= 99 && 0 <= d' <= 99
    requires y < y' || (y == y' && (m < m' || (m == m' && d < d')))
    ensures TextBefore(DateText(y, m, d), DateText(y', m', d'))
  {
    var s, t := DateText(y, m, d), DateText(y', m', d');
    if y < y' {
      var c, c' := TwoDigits(y / 100), TwoDigits(y' / 100);
      if y / 100 < y' / 100 {
        TwoDigitsKeepOrder(y / 100, y' / 100);
        DifferAt([], c, c', s[2..], t[2..]);
        assert s == [] + c + s[2..] && t == [] + c' + t[2..];
      } else {
        assert c == c';
        TwoDigitsKeepOrder(y % 100, y' % 100);
        DifferAt(c, TwoDigits(y % 100), TwoDigits(y' % 100), s[4..], t[4..]);
        assert s == c + TwoDigits(y % 100) + s[4..] && t == c + TwoDigits(y' % 100) + t[4..];
      }
    } else if m < m' {
      TwoDigitsKeepOrder(m, m');
      DifferAt(s[..5], TwoDigits(m), TwoDigits(m'), s[7..], t[7..]);
      assert s == s[..5] + TwoDigits(m) + s[7..];
      assert t == s[..5] + TwoDigits(m') + t[7..];
    } else {
      TwoDigitsKeepOrder(d, d');
      DifferAt(s[..8], TwoDigits(d), TwoDigits(d'), [], []);
      assert s == s[..8] + TwoDigits(d) + [] && t == s[..8] + TwoDigits(d') + [];
    }
  }

  /** The printed dates sort as the days do. */
  lemma PrintedDatesIncrease(a: int, b: int)
    requires a < b && Printable(a) && Printable(b)
    ensures TextBefore(IsoDate(a), IsoDate(b))
  {
    DaysOrderAsDates(a, b);
    var (y, m, d) := (Year(a), Month(a) + 1, Date(a));
    var (y', m', d') := (Year(b), Month(b) + 1, Date(b));
    DateTextKeepsOrder(y, m, d, y', m', d');
  }
}
