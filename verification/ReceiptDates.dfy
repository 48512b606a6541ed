/** Receipt dates, as `rust/src/datetime.rs` reads and renders them: the RFC 3339
    `date-time` of section 5.6, and the renderings of the endpoint. A `char` of a
    text here is one of its UTF-8 bytes. */
module ReceiptDates {
  import opened Foundation
  import opened Calendar
  import opened Decimal

  /** 0000-01-01T00:00:00Z and 9999-12-31T23:59:59.999Z. */
  const FIRST_MILLIS: int := -62_167_219_200_000
  const LAST_MILLIS: int := 253_402_300_799_999

  /** The first and last second of a `jiff` timestamp: -9999-01-02T01:59:59Z and
      9999-12-30T22:00:00Z. */
  const MIN_SECOND: int := -377_705_023_201
  const MAX_SECOND: int := 253_402_207_200

  /** The widest UTC offset `jiff` has: 25:59:59. */
  const MAX_OFFSET: int := 93_599

  const GMT_NAME: string := "Etc/GMT"
  const PACIFIC_NAME: string := "America/Los_Angeles"

  // ---------------------------------------------------------------------
  // Rendering.

  function Two(n: int): string
    requires 0 <= n < 100
  {
    [Digit(n / 10), Digit(n % 10)]
  }

  function Three(n: int): string
    requires 0 <= n < 1000
  {
    [Digit(n / 100), Digit(n / 10 % 10), Digit(n % 10)]
  }

  function Four(n: int): string
    requires 0 <= n < 10_000
  {
    [Digit(n / 1000), Digit(n / 100 % 10), Digit(n / 10 % 10), Digit(n % 10)]
  }

  /** A year zero-padded to four characters, the sign counted. */
  function YearText(year: int): string
    requires -9999 <= year <= 9999
  {
    if year >= 0 then Four(year)
    else if year > -1000 then ['-'] + Three(-year)
    else ['-'] + Four(-year)
  }

  predicate InCalendar(t: DateTime) {
    ValidDateTime(t) && -9999 <= t.date.year <= 9999
  }

  /** `YYYY-MM-DD HH:MM:SS`. */
  function CivilText(t: DateTime): string
    requires InCalendar(t)
  {
    YearText(t.date.year) + ['-'] + Two(t.date.month) + ['-'] + Two(t.date.day) + [' ']
    + Two(t.hour) + [':'] + Two(t.minute) + [':'] + Two(t.second)
  }

  predicate Renders(millis: Int64) {
    1000 * MIN_SECOND <= millis <= LAST_MILLIS
  }

  /** Every `jiff` timestamp, in every offset it has, is in its calendar. */
  lemma EveryOffsetIsInCalendar(at: int, shift: int)
    requires MIN_SECOND <= at <= MAX_SECOND && -MAX_OFFSET <= shift <= MAX_OFFSET
    ensures InCalendar(CivilAt(at + shift))
  {
    CalendarEnds();
    hide CivilAt, SecondNumber, ValidDateTime;
    CivilAtIsInverse(at + shift);
    YearBetween(at + shift, -9999, 9999);
  }

  lemma CalendarEnds()
    ensures ValidDateTime(DateTime(Date(-9999, 1, 1), 0, 0, 0)) && ValidDateTime(DateTime(Date(9999, 12, 31), 23, 59, 59))
    ensures SecondNumber(DateTime(Date(-9999, 1, 1), 0, 0, 0)) == MIN_SECOND - MAX_OFFSET
    ensures SecondNumber(DateTime(Date(9999, 12, 31), 23, 59, 59)) == MAX_SECOND + MAX_OFFSET
  {
  }

  /** The civil rendering with the seconds past the last timestamp carried in the
      offset; `None` where the sum overflows, the offset does not exist, or the
      timestamp does not. */
  function FormatCivil(millis: Int64, offset: Int64, zoneName: string): Option<string> {
    var second := millis / 1000;
    var at := Min(second, MAX_SECOND);
    var shift := offset + (second - at);
    if !(INT64_MIN <= shift <= INT64_MAX) then None
    else if !(-0x8000_0000 <= shift < 0x8000_0000) then None
    else if !(-MAX_OFFSET <= shift <= MAX_OFFSET) then None
    else if at < MIN_SECOND then None
    else
      EveryOffsetIsInCalendar(at, shift);
      Some(CivilText(CivilAt(at + shift)) + [' '] + zoneName)
  }

  function FormatEtcGmt(millis: Int64): Option<string> {
    if Renders(millis) then FormatCivil(millis, 0, GMT_NAME) else None
  }

  /** The zone's offset by Unix second, as the time zone database gives it. */
  type Zone = int -> Int64

  function PacificOffsetSeconds(pacific: Zone, millis: Int64): Option<Int64> {
    if Renders(millis) then Some(pacific(Min(millis / 1000, MAX_SECOND))) else None
  }

  function FormatPacific(pacific: Zone, millis: Int64): Option<string> {
    match PacificOffsetSeconds(pacific, millis)
    case None => None
    case Some(offset) => FormatCivil(millis, offset, PACIFIC_NAME)
  }

  /** Carrying the late seconds in the offset is exact: every instant that
      renders, in every offset from -25:59:59 to 0, gives the Gregorian civil time
      of the floored second plus the offset. */
  lemma FormatCivilIsExact(millis: Int64, offset: Int64, zoneName: string)
    requires Renders(millis) && -MAX_OFFSET <= offset <= 0
    ensures InCalendar(CivilAt(millis / 1000 + offset))
    ensures FormatCivil(millis, offset, zoneName) == Some(CivilText(CivilAt(millis / 1000 + offset)) + [' '] + zoneName)
  {
    var second := millis / 1000;
    var at := Min(second, MAX_SECOND);
    EveryOffsetIsInCalendar(at, offset + (second - at));
    assert at + (offset + (second - at)) == second + offset;
  }

  /** Exactly when a rendering exists, for every instant and offset. */
  lemma FormatCivilExists(millis: Int64, offset: Int64, zoneName: string)
    ensures FormatCivil(millis, offset, zoneName).Some?
       <==> MIN_SECOND <= millis / 1000
            && -MAX_OFFSET <= offset + (if millis / 1000 > MAX_SECOND then millis / 1000 - MAX_SECOND else 0) <= MAX_OFFSET
  {
  }

  ghost predicate PacificZone(pacific: Zone) {
    forall s :: MIN_SECOND <= s <= MAX_SECOND ==> -MAX_OFFSET <= pacific(s) < 0
  }

  /** Both renderings exist for exactly the instants that render. */
  lemma RenderingsExist(pacific: Zone, millis: Int64)
    requires PacificZone(pacific)
    ensures FormatEtcGmt(millis).Some? <==> Renders(millis)
    ensures FormatPacific(pacific, millis).Some? <==> Renders(millis)
  {
    if Renders(millis) {
      FormatCivilExists(millis, 0, GMT_NAME);
      FormatCivilExists(millis, pacific(Min(millis / 1000, MAX_SECOND)), PACIFIC_NAME);
    }
  }

  /** The Pacific rendering is the civil time in the zone's offset at the second,
      or at the last timestamp for a later second. */
  lemma PacificIsExact(pacific: Zone, millis: Int64, second: int)
    requires PacificZone(pacific) && Renders(millis) && 1000 * second <= millis < 1000 * (second + 1)
    ensures var offset := pacific(if second <= MAX_SECOND then second else MAX_SECOND);
            && InCalendar(CivilAt(second + offset))
            && FormatPacific(pacific, millis) == Some(CivilText(CivilAt(second + offset)) + [' '] + "America/Los_Angeles")
  {
    hide CivilAt, CivilText, FormatCivil;
    assert second == millis / 1000;
    FormatCivilIsExact(millis, pacific(Min(second, MAX_SECOND)), PACIFIC_NAME);
  }

  lemma FourRead(a: char, b: char, c: char, d: char)
    requires IsDigit(a) && IsDigit(b) && IsDigit(c) && IsDigit(d)
    ensures ReadDigits([a, b, c]) == Some(100 * DigitValue(a) + 10 * DigitValue(b) + DigitValue(c))
    ensures ReadDigits([a, b, c, d]) == Some(1000 * DigitValue(a) + 100 * DigitValue(b) + 10 * DigitValue(c) + DigitValue(d))
  {
    assert [a][..0] == [] && [a, b][..1] == [a] && [a, b, c][..2] == [a, b] && [a, b, c, d][..3] == [a, b, c];
    assert ReadDigits([a]) == Some(DigitValue(a));
    assert ReadDigits([a, b]) == Some(10 * DigitValue(a) + DigitValue(b));
  }

  lemma DecimalPlaces(n: int)
    requires 0 <= n < 10_000
    ensures 0 <= n / 1000 < 10
    ensures 1000 * (n / 1000) + 100 * (n / 100 % 10) + 10 * (n / 10 % 10) + n % 10 == n
  {
    assert n / 100 == n / 10 / 10 && n / 1000 == n / 100 / 10;
  }

  lemma DigitReadsBack(d: int)
    requires 0 <= d < 10
    ensures IsDigit(Digit(d)) && DigitValue(Digit(d)) == d
  {
  }

  lemma FourReadsBack(n: int)
    requires 0 <= n < 10_000
    ensures ReadDigits(Four(n)) == Some(n) && |Four(n)| == 4 && IsDigit(Four(n)[0])
    ensures n < 1000 ==> ReadDigits(Three(n)) == Some(n) && |Three(n)| == 3
  {
    hide ReadDigits, Digit, DigitValue, IsDigit;
    DecimalPlaces(n);
    DigitReadsBack(n / 1000);
    DigitReadsBack(n / 100 % 10);
    DigitReadsBack(n / 10 % 10);
    DigitReadsBack(n % 10);
    FourRead(Digit(n / 1000), Digit(n / 100 % 10), Digit(n / 10 % 10), Digit(n % 10));
    if n < 1000 {
      assert n / 1000 == 0 && n / 100 % 10 == n / 100;
      FourRead(Digit(n / 100), Digit(n / 10 % 10), Digit(n % 10), Digit(n % 10));
    }
  }

  /** A rendered year reads back, sign included, and takes four characters wherever
      it can. */
  lemma YearReadsBack(year: int)
    requires -9999 <= year <= 9999
    ensures ParseInt(YearText(year)) == Some(year) && |YearText(year)| == if year <= -1000 then 5 else 4
  {
    hide ReadDigits, Four, Three;
    var n := if year < 0 then -year else year;
    FourReadsBack(n);
    var text := YearText(year);
    if year < 0 {
      assert text[1..] == if n < 1000 then Three(n) else Four(n);
    }
  }

  /** An instant renders from the first `jiff` timestamp to the last receipt date, and
      every receipt date does. */
  lemma RendersMeans(millis: Int64)
    ensures Renders(millis) <==> -377_705_023_201_000 <= millis <= 253_402_300_799_999
    ensures FIRST_MILLIS <= millis <= LAST_MILLIS ==> Renders(millis)
  {
  }

  /** The range of receipt dates: the years 0000 to 9999, to the millisecond. */
  lemma RangeEnds()
    ensures FIRST_MILLIS == 1000 * SecondNumber(DateTime(Date(0, 1, 1), 0, 0, 0))
    ensures LAST_MILLIS == 1000 * SecondNumber(DateTime(Date(9999, 12, 31), 23, 59, 59)) + 999
  {
  }

  // ---------------------------------------------------------------------
  // Reading.

  /** The number the digits at `at` and `at + 1` spell. */
  function TwoAt(text: string, at: nat): Option<int>
    requires at + 2 <= |text|
  {
    if IsDigit(text[at]) && IsDigit(text[at + 1])
    then Some(10 * DigitValue(text[at]) + DigitValue(text[at + 1])) else None
  }

  function FourAt(text: string, at: nat): Option<int>
    requires at + 4 <= |text|
  {
    match (TwoAt(text, at), TwoAt(text, at + 2))
    case (Some(hundreds), Some(units)) => Some(100 * hundreds + units)
    case _ => None
  }

  /** How many digits `text` starts with. */
  function DigitsAhead(text: string): (n: nat)
    ensures n <= |text|
    ensures forall k :: 0 <= k < n ==> IsDigit(text[k])
    ensures n < |text| ==> !IsDigit(text[n])
  {
    if text == [] || !IsDigit(text[0]) then 0 else 1 + DigitsAhead(text[1..])
  }

  /** The first three of some digits and two zeros, read as milliseconds. */
  function FractionMillis(digits: string): int
    requires digits != [] && forall k :: 0 <= k < |digits| ==> IsDigit(digits[k])
  {
    var padded := digits + "00";
    100 * DigitValue(padded[0]) + 10 * DigitValue(padded[1]) + DigitValue(padded[2])
  }

  /** The milliseconds of an optional fraction, and where the zone starts. */
  function ReadFraction(text: string): Option<(int, string)> {
    if text == [] || text[0] != '.' then Some((0, text))
    else
      var n := DigitsAhead(text[1..]);
      if n == 0 then None
      else Some((FractionMillis(text[1..][..n]), text[1..][n..]))
  }

  /** `Z`, or a numeric offset in minutes. */
  function ReadZone(text: string): Option<int> {
    if |text| == 1 && (text[0] == 'Z' || text[0] == 'z') then Some(0)
    else if |text| == 6 && (text[0] == '+' || text[0] == '-') && text[3] == ':' then
      match (TwoAt(text, 1), TwoAt(text, 4))
      case (Some(hours), Some(minutes)) =>
        if hours > 23 || minutes > 59 then None
        else Some(if text[0] == '-' then -(60 * hours + minutes) else 60 * hours + minutes)
      case _ => None
    else None
  }

  /** The civil time of the first nineteen bytes; second 60 is read as 59. */
  function ReadCivil(text: string): (r: Option<DateTime>)
    requires |text| >= 19
    ensures r.Some? ==> ValidDateTime(r.value)
  {
    if text[4] != '-' || text[7] != '-' || text[13] != ':' || text[16] != ':' then None
    else if text[10] != 'T' && text[10] != 't' then None
    else
      match (FourAt(text, 0), TwoAt(text, 5), TwoAt(text, 8), TwoAt(text, 11), TwoAt(text, 14), TwoAt(text, 17))
      case (Some(year), Some(month), Some(day), Some(hour), Some(minute), Some(second)) =>
        var t := DateTime(Date(year, month, day), hour, minute, Min(second, 59));
        if second <= 60 && ValidDateTime(t) then Some(t) else None
      case _ => None
  }

  function ParseReceiptDate(text: string): (r: Option<int>)
    ensures r.Some? ==> FIRST_MILLIS <= r.value <= LAST_MILLIS
  {
    if |text| < 19 then None
    else
      match (ReadCivil(text), ReadFraction(text[19..]))
      case (Some(civil), Some((millis, rest))) =>
        (match ReadZone(rest)
         case None => None
         case Some(offsetMinutes) =>
           var instant := (SecondNumber(civil) - 60 * offsetMinutes) * 1000 + millis;
           if FIRST_MILLIS <= instant <= LAST_MILLIS then Some(instant) else None)
      case _ => None
  }
}
