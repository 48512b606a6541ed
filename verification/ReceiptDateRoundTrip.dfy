/** What `parse_receipt_date` reads is exactly the RFC 3339 spellings of valid
    stamps, and reading undoes rendering. */
module ReceiptDateRoundTrip {
  import opened Foundation
  import opened Calendar
  import opened Decimal
  import opened ReceiptDates

  // ---------------------------------------------------------------------
  // The grammar, as a way to write a stamp.

  datatype ZoneText = Zulu(letter: char) | Numeric(sign: char, hours: int, minutes: int)

  /** The fields of an RFC 3339 `date-time`; `fraction` holds the digits after the
      point, empty when there is none. */
  datatype Stamp = Stamp(
    date: Date, tee: char, hour: int, minute: int, second: int, fraction: string, zone: ZoneText)

  predicate ValidZone(z: ZoneText) {
    match z
    case Zulu(letter) => letter == 'Z' || letter == 'z'
    case Numeric(sign, hours, minutes) => (sign == '+' || sign == '-') && 0 <= hours <= 23 && 0 <= minutes <= 59
  }

  predicate AllDigits(s: string) {
    forall k :: 0 <= k < |s| ==> IsDigit(s[k])
  }

  predicate ValidStamp(s: Stamp) {
    && ValidDate(s.date) && 0 <= s.date.year <= 9999
    && (s.tee == 'T' || s.tee == 't')
    && 0 <= s.hour <= 23 && 0 <= s.minute <= 59 && 0 <= s.second <= 60
    && AllDigits(s.fraction)
    && ValidZone(s.zone)
  }

  function Head(date: Date, tee: char, hour: int, minute: int, second: int): (h: string)
    requires ValidDate(date) && 0 <= date.year <= 9999
    requires 0 <= hour < 100 && 0 <= minute < 100 && 0 <= second < 100
    ensures |h| == 19
  {
    Four(date.year) + ['-'] + Two(date.month) + ['-'] + Two(date.day) + [tee]
    + Two(hour) + [':'] + Two(minute) + [':'] + Two(second)
  }

  function SpellZone(z: ZoneText): string
    requires ValidZone(z)
  {
    match z
    case Zulu(letter) => [letter]
    case Numeric(sign, hours, minutes) => [sign] + Two(hours) + [':'] + Two(minutes)
  }

  function SpellFraction(fraction: string): string {
    if fraction == [] then [] else ['.'] + fraction
  }

  function Spell(s: Stamp): (text: string)
    requires ValidStamp(s)
    ensures |text| >= 19 && text[..19] == Head(s.date, s.tee, s.hour, s.minute, s.second)
    ensures text[19..] == SpellFraction(s.fraction) + SpellZone(s.zone)
  {
    Head(s.date, s.tee, s.hour, s.minute, s.second) + (SpellFraction(s.fraction) + SpellZone(s.zone))
  }

  /** The civil time a stamp names; a leap second is read as second 59. */
  function Civil(s: Stamp): (t: DateTime)
    requires ValidStamp(s)
    ensures ValidDateTime(t)
  {
    DateTime(s.date, s.hour, s.minute, Min(s.second, 59))
  }

  function OffsetMinutes(z: ZoneText): int
    requires ValidZone(z)
  {
    match z
    case Zulu(_) => 0
    case Numeric(sign, hours, minutes) => if sign == '-' then -(60 * hours + minutes) else 60 * hours + minutes
  }

  function Pow10(n: nat): (p: nat)
    ensures p >= 1
  {
    if n == 0 then 1 else 10 * Pow10(n - 1)
  }

  /** The number some digits spell. */
  function Value(digits: string): (v: nat)
    requires AllDigits(digits)
    ensures v < Pow10(|digits|)
  {
    if digits == [] then 0 else 10 * Value(digits[..|digits| - 1]) + DigitValue(digits[|digits| - 1])
  }

  /** The thousandths in the decimal fraction with these digits, rounded down. */
  function MillisOf(fraction: string): (m: int)
    requires AllDigits(fraction)
    ensures m * Pow10(|fraction|) <= 1000 * Value(fraction) < (m + 1) * Pow10(|fraction|)
    ensures 0 <= m < 1000
  {
    Floor(1000 * Value(fraction), Pow10(|fraction|), 1000);
    1000 * Value(fraction) / Pow10(|fraction|)
  }

  lemma Floor(a: nat, d: nat, limit: nat)
    requires d >= 1 && a < limit * d
    ensures a / d * d <= a < (a / d + 1) * d && 0 <= a / d < limit
  {
    var q := a / d;
    assert a == q * d + a % d;
    if q >= limit {
      Scale(limit, q, d);
    }
  }

  lemma Scale(a: int, b: int, d: nat)
    requires a <= b
    ensures a * d <= b * d
  {
  }

  /** The instant a stamp names, its fraction truncated to the millisecond. */
  function InstantOf(s: Stamp): int
    requires ValidStamp(s)
  {
    (SecondNumber(Civil(s)) - 60 * OffsetMinutes(s.zone)) * 1000 + MillisOf(s.fraction)
  }

  // ---------------------------------------------------------------------
  // Reading a spelling.

  lemma TwoDigits(n: int)
    requires 0 <= n < 100
    ensures 0 <= n / 10 < 10 && 0 <= n % 10 < 10 && 10 * (n / 10) + n % 10 == n
  {
  }

  lemma FourDigits(n: int)
    requires 0 <= n < 10_000
    ensures Four(n) == Two(n / 100) + Two(n % 100)
  {
    assert n / 1000 == n / 100 / 10;
    assert n == 100 * (n / 100) + n % 100;
    assert n / 10 == 10 * (n / 100) + n % 100 / 10;
    assert n % 10 == n % 100 % 10;
  }

  lemma ReadTwo(text: string, at: nat, n: int)
    requires at + 2 <= |text| && 0 <= n < 100
    requires text[at] == Two(n)[0] && text[at + 1] == Two(n)[1]
    ensures TwoAt(text, at) == Some(n)
  {
    TwoDigits(n);
  }

  lemma ReadFour(text: string, at: nat, n: int)
    requires at + 4 <= |text| && 0 <= n < 10_000
    requires forall k :: 0 <= k < 4 ==> text[at + k] == Four(n)[k]
    ensures FourAt(text, at) == Some(n)
  {
    FourDigits(n);
    assert text[at + 0] == Four(n)[0] && text[at + 1] == Four(n)[1];
    assert text[at + 2] == Four(n)[2] && text[at + 3] == Four(n)[3];
    ReadTwo(text, at, n / 100);
    ReadTwo(text, at + 2, n % 100);
  }

  lemma HeadAt(text: string, date: Date, tee: char, hour: int, minute: int, second: int)
    requires ValidDate(date) && 0 <= date.year <= 9999
    requires 0 <= hour < 100 && 0 <= minute < 100 && 0 <= second < 100
    requires |text| >= 19 && text[..19] == Head(date, tee, hour, minute, second)
    ensures text[4] == '-' && text[7] == '-' && text[10] == tee && text[13] == ':' && text[16] == ':'
    ensures text[0..4] == Four(date.year) && text[5..7] == Two(date.month) && text[8..10] == Two(date.day)
    ensures text[11..13] == Two(hour) && text[14..16] == Two(minute) && text[17..19] == Two(second)
  {
    hide Digit;
    var h := text[..19];
    assert text[0..4] == h[0..4] && text[5..7] == h[5..7] && text[8..10] == h[8..10];
    assert text[11..13] == h[11..13] && text[14..16] == h[14..16] && text[17..19] == h[17..19];
    assert text[4] == h[4] && text[7] == h[7] && text[10] == h[10] && text[13] == h[13] && text[16] == h[16];
  }

  lemma ReadHead(text: string, date: Date, tee: char, hour: int, minute: int, second: int)
    requires ValidDate(date) && 0 <= date.year <= 9999
    requires 0 <= hour < 100 && 0 <= minute < 100 && 0 <= second < 100
    requires |text| >= 19 && text[..19] == Head(date, tee, hour, minute, second)
    ensures text[4] == '-' && text[7] == '-' && text[10] == tee && text[13] == ':' && text[16] == ':'
    ensures FourAt(text, 0) == Some(date.year) && TwoAt(text, 5) == Some(date.month) && TwoAt(text, 8) == Some(date.day)
    ensures TwoAt(text, 11) == Some(hour) && TwoAt(text, 14) == Some(minute) && TwoAt(text, 17) == Some(second)
  {
    HeadAt(text, date, tee, hour, minute, second);
    hide TwoAt, FourAt, Head, Two, Four;
    ReadFour(text, 0, date.year);
    ReadTwo(text, 5, date.month);
    ReadTwo(text, 8, date.day);
    ReadTwo(text, 11, hour);
    ReadTwo(text, 14, minute);
    ReadTwo(text, 17, second);
  }

  lemma ZoneStartsApart(z: ZoneText)
    requires ValidZone(z)
    ensures var t := SpellZone(z); t != [] && t[0] != '.' && !IsDigit(t[0])
  {
  }

  lemma ReadSpelledZone(z: ZoneText)
    requires ValidZone(z)
    ensures ReadZone(SpellZone(z)) == Some(OffsetMinutes(z))
  {
    if z.Numeric? {
      ReadTwo(SpellZone(z), 1, z.hours);
      ReadTwo(SpellZone(z), 4, z.minutes);
    }
  }

  lemma ValueSnoc(s: string, c: char)
    requires AllDigits(s) && IsDigit(c)
    ensures AllDigits(s + [c]) && Value(s + [c]) == 10 * Value(s) + DigitValue(c)
  {
    assert (s + [c])[..|s|] == s;
  }

  lemma Regroup(x: int, p: int, y: int, c: int)
    ensures 10 * (x * p + y) + c == x * (10 * p) + (10 * y + c)
  {
  }

  lemma {:induction false} ValueAppend(a: string, b: string)
    requires AllDigits(a) && AllDigits(b)
    ensures AllDigits(a + b) && Value(a + b) == Value(a) * Pow10(|b|) + Value(b)
    decreases |b|
  {
    if b == [] {
      assert a + b == a;
    } else {
      var init, last := b[..|b| - 1], b[|b| - 1];
      assert Pow10(|b|) == 10 * Pow10(|init|);
      hide Value, Pow10;
      assert b == init + [last] && a + b == (a + init) + [last];
      ValueAppend(a, init);
      ValueSnoc(init, last);
      ValueSnoc(a + init, last);
      Regroup(Value(a), Pow10(|init|), Value(init), DigitValue(last));
    }
  }

  /** A quotient is known from where it lies. */
  lemma QuotientIs(a: int, d: nat, q: int)
    requires d >= 1 && q * d <= a < (q + 1) * d
    ensures a / d == q
  {
    var p := a / d;
    assert a == p * d + a % d;
    if p < q {
      Scale(p + 1, q, d);
    } else if p > q {
      Scale(q + 1, p, d);
    }
  }

  lemma ShortValues(d: string)
    requires AllDigits(d) && 1 <= |d| <= 3
    ensures Value(d) == match |d|
                        case 1 => DigitValue(d[0])
                        case 2 => 10 * DigitValue(d[0]) + DigitValue(d[1])
                        case _ => 100 * DigitValue(d[0]) + 10 * DigitValue(d[1]) + DigitValue(d[2])
    ensures Pow10(|d|) == match |d| case 1 => 10 case 2 => 100 case _ => 1000
  {
    assert Pow10(0) == 1 && Pow10(1) == 10 && Pow10(2) == 100 && Pow10(3) == 1000;
    var one := d[..1];
    assert one[..0] == [] && Value([]) == 0 && Value(one) == DigitValue(d[0]);
    if |d| >= 2 {
      var two := d[..2];
      assert two[..1] == one && Value(two) == 10 * DigitValue(d[0]) + DigitValue(d[1]);
      if |d| == 3 {
        assert d[..2] == two;
      } else {
        assert d == two;
      }
    } else {
      assert d == one;
    }
  }

  /** The first three digits, zeros standing in for missing ones, are the fraction
      rounded down to the millisecond, however many digits there are. */
  lemma FractionIsTruncated(digits: string)
    requires digits != [] && AllDigits(digits)
    ensures FractionMillis(digits) == MillisOf(digits)
  {
    if |digits| <= 3 {
      hide Value, Pow10;
      ShortValues(digits);
    } else {
      hide Value, Pow10;
      var head, tail := digits[..3], digits[3..];
      assert digits == head + tail;
      ValueAppend(head, tail);
      ShortValues(head);
      PowAppend(3, |tail|);
      Thousandths(Value(head), Pow10(|tail|), Value(tail));
    }
  }

  lemma Thousandths(v: nat, p: nat, r: nat)
    requires r < p
    ensures 1000 * (v * p + r) / (1000 * p) == v
  {
    assert 1000 * (v * p + r) == v * (1000 * p) + 1000 * r;
    assert (v + 1) * (1000 * p) == v * (1000 * p) + 1000 * p;
    QuotientIs(1000 * (v * p + r), 1000 * p, v);
  }

  lemma {:induction false} PowAppend(m: nat, n: nat)
    ensures Pow10(m + n) == Pow10(m) * Pow10(n)
  {
    if m > 0 {
      PowAppend(m - 1, n);
    }
  }

  lemma ReadSpelledFraction(fraction: string, zone: string)
    requires AllDigits(fraction) && zone != [] && zone[0] != '.' && !IsDigit(zone[0])
    ensures ReadFraction(SpellFraction(fraction) + zone) == Some((MillisOf(fraction), zone))
  {
    if fraction == [] {
      assert [] + zone == zone;
    } else {
      var text := ['.'] + fraction + zone;
      assert text[1..] == fraction + zone;
      var n := DigitsAhead(fraction + zone);
      assert (fraction + zone)[|fraction|] == zone[0];
      assert n == |fraction|;
      assert (fraction + zone)[..n] == fraction && (fraction + zone)[n..] == zone;
      hide FractionMillis, MillisOf;
      FractionIsTruncated(fraction);
    }
  }

  lemma ReadSpelledCivil(s: Stamp)
    requires ValidStamp(s)
    ensures ReadCivil(Spell(s)) == Some(Civil(s))
  {
    ReadHead(Spell(s), s.date, s.tee, s.hour, s.minute, s.second);
  }

  /** What the reader makes of its three parts. */
  lemma ParseFromParts(text: string, civil: DateTime, millis: int, rest: string, offsetMinutes: int)
    requires |text| >= 19 && ReadCivil(text) == Some(civil) && ValidDateTime(civil)
    requires ReadFraction(text[19..]) == Some((millis, rest)) && ReadZone(rest) == Some(offsetMinutes)
    ensures var instant := (SecondNumber(civil) - 60 * offsetMinutes) * 1000 + millis;
            ParseReceiptDate(text) == if FIRST_MILLIS <= instant <= LAST_MILLIS then Some(instant) else None
  {
  }

  /** Reading a spelling gives the instant it names, when that is in range. */
  lemma ParseOfSpell(s: Stamp)
    requires ValidStamp(s)
    ensures ParseReceiptDate(Spell(s))
         == if FIRST_MILLIS <= InstantOf(s) <= LAST_MILLIS then Some(InstantOf(s)) else None
  {
    hide ReadCivil, ReadFraction, ReadZone, SecondNumber, Spell;
    ReadSpelledCivil(s);
    ZoneStartsApart(s.zone);
    ReadSpelledFraction(s.fraction, SpellZone(s.zone));
    ReadSpelledZone(s.zone);
    ParseFromParts(Spell(s), Civil(s), MillisOf(s.fraction), SpellZone(s.zone), OffsetMinutes(s.zone));
  }

  // ---------------------------------------------------------------------
  // Everything accepted is a spelling.

  lemma WriteTwo(text: string, at: nat)
    requires at + 2 <= |text| && TwoAt(text, at).Some?
    ensures 0 <= TwoAt(text, at).value < 100
    ensures text[at..at + 2] == Two(TwoAt(text, at).value)
  {
    var n := TwoAt(text, at).value;
    assert n / 10 == DigitValue(text[at]) && n % 10 == DigitValue(text[at + 1]);
  }

  lemma WriteFour(text: string, at: nat)
    requires at + 4 <= |text| && FourAt(text, at).Some?
    ensures 0 <= FourAt(text, at).value < 10_000
    ensures text[at..at + 4] == Four(FourAt(text, at).value)
  {
    WriteTwo(text, at);
    WriteTwo(text, at + 2);
    var n := FourAt(text, at).value;
    var a, b := TwoAt(text, at).value, TwoAt(text, at + 2).value;
    assert n == 100 * a + b && n / 100 == a && n % 100 == b;
    FourDigits(n);
    assert text[at..at + 4] == text[at..at + 2] + text[at + 2..at + 4];
  }

  lemma WriteHead(text: string)
    requires |text| >= 19 && ReadCivil(text).Some?
    ensures var t := ReadCivil(text).value;
            var second := TwoAt(text, 17).value;
            && 0 <= t.date.year <= 9999 && 0 <= second <= 60 && t.second == Min(second, 59)
            && (text[10] == 'T' || text[10] == 't')
            && text[..19] == Head(t.date, text[10], t.hour, t.minute, second)
  {
    hide Two, Four, TwoAt, FourAt;
    WriteFour(text, 0);
    WriteTwo(text, 5);
    WriteTwo(text, 8);
    WriteTwo(text, 11);
    WriteTwo(text, 14);
    WriteTwo(text, 17);
    assert text[..19] == text[0..4] + [text[4]] + text[5..7] + [text[7]] + text[8..10] + [text[10]]
                         + text[11..13] + [text[13]] + text[14..16] + [text[16]] + text[17..19];
  }

  lemma WriteZone(text: string) returns (z: ZoneText)
    requires ReadZone(text).Some?
    ensures ValidZone(z) && SpellZone(z) == text && OffsetMinutes(z) == ReadZone(text).value
  {
    if |text| == 1 {
      z := Zulu(text[0]);
    } else {
      WriteTwo(text, 1);
      WriteTwo(text, 4);
      z := Numeric(text[0], TwoAt(text, 1).value, TwoAt(text, 4).value);
      assert text == [text[0]] + text[1..3] + [text[3]] + text[4..6];
    }
  }

  lemma WriteFraction(text: string) returns (fraction: string)
    requires ReadFraction(text).Some?
    ensures AllDigits(fraction)
    ensures text == SpellFraction(fraction) + ReadFraction(text).value.1
    ensures ReadFraction(text).value.0 == MillisOf(fraction)
  {
    if text == [] || text[0] != '.' {
      fraction := [];
      assert [] + text == text;
    } else {
      var n := DigitsAhead(text[1..]);
      fraction := text[1..][..n];
      assert text == ['.'] + (text[1..][..n] + text[1..][n..]);
      hide FractionMillis, MillisOf;
      FractionIsTruncated(fraction);
    }
  }

  /** Every text accepted is the spelling of a valid stamp that names the instant
      read, so nothing else is accepted. */
  lemma SpellOfParse(text: string) returns (s: Stamp)
    requires ParseReceiptDate(text).Some?
    ensures ValidStamp(s) && Spell(s) == text && InstantOf(s) == ParseReceiptDate(text).value
  {
    hide ReadCivil, ReadFraction, ReadZone, SecondNumber, SpellZone, SpellFraction;
    var t := ReadCivil(text).value;
    var (millis, rest) := ReadFraction(text[19..]).value;
    WriteHead(text);
    var fraction := WriteFraction(text[19..]);
    var zone := WriteZone(rest);
    s := Stamp(t.date, text[10], t.hour, t.minute, TwoAt(text, 17).value, fraction, zone);
    assert Spell(s) == text by {
      assert text == text[..19] + text[19..];
    }
    ParseFromParts(text, t, millis, rest, OffsetMinutes(zone));
  }

  // ---------------------------------------------------------------------
  // Reading and rendering.

  /** The GMT rendering rewritten as an RFC 3339 date-time with milliseconds. */
  function AsRfc3339(rendering: string, millis: int): string
    requires |rendering| >= 19
  {
    rendering[..10] + ['T'] + rendering[11..19] + ['.'] + Three(millis % 1000) + ['Z']
  }

  lemma HeadIsCivilText(t: DateTime, tee: char)
    requires InCalendar(t) && 0 <= t.date.year
    ensures var h, c := Head(t.date, tee, t.hour, t.minute, t.second), CivilText(t);
            |c| == 19 && h[..10] == c[..10] && h[11..] == c[11..] && c[10] == ' ' && h[10] == tee
  {
  }

  lemma YearOfInstant(millis: int)
    requires FIRST_MILLIS <= millis <= LAST_MILLIS
    ensures var t := CivilAt(millis / 1000); InCalendar(t) && 0 <= t.date.year <= 9999
  {
    CivilAtIsInverse(millis / 1000);
    YearBetween(millis / 1000, 0, 9999);
  }

  /** The GMT text of an instant a receipt date can name. */
  lemma GmtText(millis: int)
    requires FIRST_MILLIS <= millis <= LAST_MILLIS
    ensures InCalendar(CivilAt(millis / 1000)) && |CivilText(CivilAt(millis / 1000))| == 19
    ensures FormatEtcGmt(millis) == Some(CivilText(CivilAt(millis / 1000)) + [' '] + GMT_NAME)
  {
    YearOfInstant(millis);
    HeadIsCivilText(CivilAt(millis / 1000), 'T');
    FormatCivilIsExact(millis, 0, GMT_NAME);
  }

  lemma ThreeDigits(n: int)
    requires 0 <= n < 1000
    ensures AllDigits(Three(n)) && MillisOf(Three(n)) == n
  {
    assert n / 100 * 100 + n / 10 % 10 * 10 + n % 10 == n;
    hide MillisOf;
    FractionIsTruncated(Three(n));
  }

  /** The stamp an instant's rendering spells. */
  lemma RenderingIsSpelling(millis: int) returns (s: Stamp)
    requires FIRST_MILLIS <= millis <= LAST_MILLIS
    ensures ValidStamp(s) && InstantOf(s) == millis
    ensures FormatEtcGmt(millis).Some? && |FormatEtcGmt(millis).value| >= 19
    ensures Spell(s) == AsRfc3339(FormatEtcGmt(millis).value, millis)
  {
    hide CivilAt, FormatEtcGmt;
    var t := CivilAt(millis / 1000);
    YearOfInstant(millis);
    CivilAtIsInverse(millis / 1000);
    GmtText(millis);
    HeadIsCivilText(t, 'T');
    ThreeDigits(millis % 1000);
    s := Stamp(t.date, 'T', t.hour, t.minute, t.second, Three(millis % 1000), Zulu('Z'));
    assert Civil(s) == t;
    var r := FormatEtcGmt(millis).value;
    var h := Head(t.date, 'T', t.hour, t.minute, t.second);
    assert h == h[..10] + [h[10]] + h[11..];
    assert r[..10] == CivilText(t)[..10] && r[11..19] == CivilText(t)[11..];
  }

  /** For every instant a receipt date can name, the GMT rendering, rewritten with
      `T`, its milliseconds and `Z`, reads back as that instant. */
  lemma ParseOfRendering(millis: int)
    requires FIRST_MILLIS <= millis <= LAST_MILLIS
    ensures FormatEtcGmt(millis).Some? && |FormatEtcGmt(millis).value| >= 19
    ensures ParseReceiptDate(AsRfc3339(FormatEtcGmt(millis).value, millis)) == Some(millis)
  {
    var s := RenderingIsSpelling(millis);
    ParseOfSpell(s);
  }

  /** The instant of an accepted stamp, seen in the stamp's own offset, is the
      civil time the stamp states. */
  lemma CivilTimeOfStamp(s: Stamp)
    requires ValidStamp(s)
    ensures CivilAt(InstantOf(s) / 1000 + 60 * OffsetMinutes(s.zone)) == Civil(s)
  {
    hide SecondNumber, Civil, CivilAt, OffsetMinutes, MillisOf;
    var second := SecondNumber(Civil(s)) - 60 * OffsetMinutes(s.zone);
    assert InstantOf(s) == 1000 * second + MillisOf(s.fraction);
    CivilAtSecondNumber(Civil(s));
  }

  lemma ZuluEnding(s: Stamp)
    requires ValidStamp(s)
    ensures var text := Spell(s); |text| >= 20 && (text[|text| - 1] == 'Z' || text[|text| - 1] == 'z') ==> s.zone.Zulu?
  {
    var text := Spell(s);
    if s.zone.Numeric? {
      var z := SpellZone(s.zone);
      assert text[|text| - 1] == z[|z| - 1] == Two(s.zone.minutes)[1];
    }
  }

  /** The date and time fields of a spelling, as the renderer writes them. */
  lemma FieldsOfSpelling(s: Stamp)
    requires ValidStamp(s) && s.second < 60
    ensures var text := Spell(s); CivilText(Civil(s)) == text[..10] + [' '] + text[11..19]
  {
    HeadIsCivilText(Civil(s), s.tee);
    var text, c := Spell(s), CivilText(Civil(s));
    assert text[..10] == text[..19][..10] && text[11..19] == text[..19][11..];
    assert c == c[..10] + [c[10]] + c[11..];
  }

  lemma SecondOfSpelling(s: Stamp)
    requires ValidStamp(s)
    ensures Spell(s)[17..19] == "60" <==> s.second == 60
  {
    assert Spell(s)[17..19] == Spell(s)[..19][17..] == Two(s.second);
    assert Two(60) == "60";
    TwoDigits(s.second);
    assert "60"[0] == '6' && "60"[1] == '0';
  }

  /** Every accepted text in UTC whose second is below 60 renders back to its own
      date and time fields. */
  lemma RenderingOfParse(text: string)
    requires ParseReceiptDate(text).Some?
    requires text[|text| - 1] == 'Z' || text[|text| - 1] == 'z'
    requires text[17..19] != "60"
    ensures FormatEtcGmt(ParseReceiptDate(text).value) == Some(text[..10] + [' '] + text[11..19] + [' '] + GMT_NAME)
    ensures GMT_NAME == "Etc/GMT"
  {
    hide ReceiptDates.ParseReceiptDate, CivilAt, CivilText, Spell;
    var s := SpellOfParse(text);
    ZuluEnding(s);
    SecondOfSpelling(s);
    CivilTimeOfStamp(s);
    GmtText(InstantOf(s));
    FieldsOfSpelling(s);
  }
}
