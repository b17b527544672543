/**
 Validation of a logical query before compilation: references, limit, filter bounds and literal syntax.
 Only ASCII text is ever accepted as a literal's syntax, so characters stand for bytes.
 */
module LsqValidation {
  import opened Prelude
  import opened Semantic

  // ----- digits -----

  predicate AllDigits(s: string) {
    forall i :: 0 <= i < |s| ==> IsDigit(s[i])
  }

  const U32_MAX: nat := 0xFFFF_FFFF

  /** The checked fold over digits: none on overflow of 32 bits. */
  function FoldDigits(s: string, value: nat): Option<nat>
    requires AllDigits(s)
  {
    if s == "" then Some(value)
    else if value * 10 + DigitValue(s[0]) > U32_MAX then None
    else FoldDigits(s[1..], value * 10 + DigitValue(s[0]))
  }

  function ParseDigits(s: string): Option<nat> {
    if s == "" || !AllDigits(s) then None else FoldDigits(s, 0)
  }

  function Pad2(n: nat): string
    requires n <= 99
  {
    [Digit(n / 10), Digit(n % 10)]
  }

  function Pad4(n: nat): string
    requires n <= 9999
  {
    Pad2(n / 100) + Pad2(n % 100)
  }

  lemma {:induction false} FoldShort(s: string, value: nat)
    requires AllDigits(s) && |s| <= 4 && value <= 9999
    ensures |s| == 2 ==> FoldDigits(s, value) == Some(100 * value + 10 * DigitValue(s[0]) + DigitValue(s[1]))
    ensures |s| == 4 ==> FoldDigits(s, value) == FoldDigits(s[2..], 100 * value + 10 * DigitValue(s[0]) + DigitValue(s[1]))
  {
    if |s| == 2 || |s| == 4 {
      assert FoldDigits(s, value) == FoldDigits(s[1..], 10 * value + DigitValue(s[0]));
      assert FoldDigits(s[1..], 10 * value + DigitValue(s[0])) == FoldDigits(s[1..][1..], 100 * value + 10 * DigitValue(s[0]) + DigitValue(s[1]));
      assert s[1..][1..] == s[2..];
    }
  }

  lemma PadOfTwo(s: string)
    requires |s| == 2 && AllDigits(s)
    ensures var n := 10 * DigitValue(s[0]) + DigitValue(s[1]); n <= 99 && Pad2(n) == s
  {
    assert s == [s[0], s[1]];
  }

  lemma ParsesTwo(s: string)
    requires |s| == 2
    ensures ParseDigits(s).Some? <==> AllDigits(s)
    ensures AllDigits(s) ==> ParseDigits(s).value <= 99 && Pad2(ParseDigits(s).value) == s
  {
    if AllDigits(s) {
      FoldShort(s, 0);
      PadOfTwo(s);
    }
  }

  lemma ParsesFour(s: string)
    requires |s| == 4
    ensures ParseDigits(s).Some? <==> AllDigits(s)
    ensures AllDigits(s) ==> ParseDigits(s).value <= 9999 && Pad4(ParseDigits(s).value) == s
  {
    if AllDigits(s) {
      hide FoldDigits, Pad2;
      var high, low := s[..2], s[2..];
      assert AllDigits(high) && AllDigits(low);
      PadOfTwo(high);
      PadOfTwo(low);
      var x, y := 10 * DigitValue(s[0]) + DigitValue(s[1]), 10 * DigitValue(s[2]) + DigitValue(s[3]);
      FoldShort(s, 0);
      FoldShort(low, x);
      assert ParseDigits(s) == Some(100 * x + y);
      assert (100 * x + y) / 100 == x && (100 * x + y) % 100 == y;
      assert high + low == s;
    }
  }

  lemma PadsParse(n: nat)
    ensures n <= 99 ==> ParseDigits(Pad2(n)) == Some(n)
    ensures n <= 9999 ==> ParseDigits(Pad4(n)) == Some(n)
  {
    if n <= 99 {
      FoldShort(Pad2(n), 0);
    }
    if n <= 9999 {
      var s := Pad4(n);
      FoldShort(s, 0);
      assert s[2..] == Pad2(n % 100);
      FoldShort(s[2..], n / 100);
    }
  }

  // ----- dates -----

  /** The Gregorian calendar. */
  function DaysIn(year: nat, month: nat): nat
    requires 1 <= month <= 12
  {
    if month == 2 then (if year % 400 == 0 || (year % 4 == 0 && year % 100 != 0) then 29 else 28)
    else if month in {4, 6, 9, 11} then 30
    else 31
  }

  predicate ValidDay(year: nat, month: nat, day: nat) {
    year <= 9999 && 1 <= month <= 12 && 1 <= day <= DaysIn(year, month)
  }

  function DateText(year: nat, month: nat, day: nat): string
    requires ValidDay(year, month, day)
  {
    Pad4(year) + "-" + Pad2(month) + "-" + Pad2(day)
  }

  predicate DivisibleBy(value: nat, divisor: nat)
    requires divisor > 0
  {
    value / divisor * divisor == value
  }

  predicate IsLeapYear(year: nat) {
    DivisibleBy(year, 4) && (!DivisibleBy(year, 100) || DivisibleBy(year, 400))
  }

  lemma LeapYears(year: nat)
    ensures IsLeapYear(year) <==> year % 400 == 0 || (year % 4 == 0 && year % 100 != 0)
  {
  }

  /** `valid_date_bytes`. */
  predicate ValidDateBytes(s: string) {
    |s| == 10 && s[4] == '-' && s[7] == '-'
    && var year, month, day := ParseDigits(s[0..4]), ParseDigits(s[5..7]), ParseDigits(s[8..10]);
    year.Some? && month.Some? && day.Some?
    && 1 <= month.value <= 12
    && var days := if month.value == 2 && IsLeapYear(year.value) then 29
                   else if month.value == 2 then 28
                   else if month.value in {4, 6, 9, 11} then 30
                   else 31;
    1 <= day.value <= days
  }

  /** Exactly the printed days of the Gregorian calendar are accepted. */
  lemma DatesExact(s: string)
    ensures ValidDateBytes(s) <==> exists year, month, day :: ValidDay(year, month, day) && s == DateText(year, month, day)
  {
    if ValidDateBytes(s) {
      ParsesFour(s[0..4]);
      ParsesTwo(s[5..7]);
      ParsesTwo(s[8..10]);
      var year, month, day := ParseDigits(s[0..4]).value, ParseDigits(s[5..7]).value, ParseDigits(s[8..10]).value;
      LeapYears(year);
      assert s == s[0..4] + "-" + s[5..7] + "-" + s[8..10];
      assert ValidDay(year, month, day) && s == DateText(year, month, day);
    }
    if year, month, day :| ValidDay(year, month, day) && s == DateText(year, month, day) {
      PrintedDate(year, month, day);
    }
  }

  lemma PrintedDate(year: nat, month: nat, day: nat)
    requires ValidDay(year, month, day)
    ensures ValidDateBytes(DateText(year, month, day))
  {
    var s := DateText(year, month, day);
    assert s[0..4] == Pad4(year) && s[5..7] == Pad2(month) && s[8..10] == Pad2(day);
    PadsParse(year);
    PadsParse(month);
    PadsParse(day);
    LeapYears(year);
  }

  // ----- timestamps -----

  datatype Zone = Zulu | Offset(sign: char, hours: nat, minutes: nat)

  /** An instant as section 5.6 of RFC 3339 writes it; no fraction is the empty one. */
  datatype Stamp = Stamp(year: nat, month: nat, day: nat, hour: nat, minute: nat, second: nat, fraction: string, zone: Zone)

  predicate ValidZone(z: Zone) {
    z.Offset? ==> (z.sign == '+' || z.sign == '-') && z.hours <= 23 && z.minutes <= 59
  }

  predicate ValidStamp(t: Stamp) {
    ValidDay(t.year, t.month, t.day) && t.hour <= 23 && t.minute <= 59 && t.second <= 59 && AllDigits(t.fraction) && ValidZone(t.zone)
  }

  function ZoneText(z: Zone): string
    requires ValidZone(z)
  {
    match z
    case Zulu => "Z"
    case Offset(sign, hours, minutes) => [sign] + Pad2(hours) + ":" + Pad2(minutes)
  }

  function FractionText(fraction: string): string {
    if fraction == "" then "" else "." + fraction
  }

  function ClockText(hour: nat, minute: nat, second: nat): string
    requires hour <= 23 && minute <= 59 && second <= 59
  {
    Pad2(hour) + ":" + Pad2(minute) + ":" + Pad2(second)
  }

  function StampText(t: Stamp): string
    requires ValidStamp(t)
  {
    DateText(t.year, t.month, t.day) + "T" + ClockText(t.hour, t.minute, t.second) + FractionText(t.fraction) + ZoneText(t.zone)
  }

  /** The first nineteen characters: a date, the letter T and a time of day. */
  predicate ValidClock(s: string) {
    |s| == 8 && s[2] == ':' && s[5] == ':'
    && var hour, minute, second := ParseDigits(s[0..2]), ParseDigits(s[3..5]), ParseDigits(s[6..8]);
    hour.Some? && minute.Some? && second.Some? && hour.value <= 23 && minute.value <= 59 && second.value <= 59
  }

  lemma ClocksExact(s: string)
    ensures ValidClock(s) <==> exists h, m, n :: 0 <= h <= 23 && 0 <= m <= 59 && 0 <= n <= 59 && s == ClockText(h, m, n)
  {
    if ValidClock(s) {
      ParsesTwo(s[0..2]);
      ParsesTwo(s[3..5]);
      ParsesTwo(s[6..8]);
      var h, m, n := ParseDigits(s[0..2]).value, ParseDigits(s[3..5]).value, ParseDigits(s[6..8]).value;
      assert s == s[0..2] + ":" + s[3..5] + ":" + s[6..8];
      assert s == ClockText(h, m, n);
    }
    if h, m, n :| 0 <= h <= 23 && 0 <= m <= 59 && 0 <= n <= 59 && s == ClockText(h, m, n) {
      assert s[0..2] == Pad2(h) && s[3..5] == Pad2(m) && s[6..8] == Pad2(n);
      PadsParse(h);
      PadsParse(m);
      PadsParse(n);
    }
  }

  /** What the code asks of the text from the zone on. */
  predicate ZoneAccepted(s: string) {
    s == "Z" || (|s| == 6 && (s[0] == '+' || s[0] == '-') && s[3] == ':'
                 && ParseDigits(s[1..3]).Some? && ParseDigits(s[4..6]).Some?
                 && ParseDigits(s[1..3]).value <= 23 && ParseDigits(s[4..6]).value <= 59)
  }

  lemma ZonesExact(s: string)
    ensures ZoneAccepted(s) <==> exists z :: ValidZone(z) && s == ZoneText(z)
  {
    if ZoneAccepted(s) {
      if s == "Z" {
        assert s == ZoneText(Zulu);
      } else {
        ParsesTwo(s[1..3]);
        ParsesTwo(s[4..6]);
        var z := Offset(s[0], ParseDigits(s[1..3]).value, ParseDigits(s[4..6]).value);
        assert s == [s[0]] + s[1..3] + ":" + s[4..6];
        assert ValidZone(z) && s == ZoneText(z);
      }
    }
    if z :| ValidZone(z) && s == ZoneText(z) {
      if z.Offset? {
        assert s[1..3] == Pad2(z.hours) && s[4..6] == Pad2(z.minutes);
        PadsParse(z.hours);
        PadsParse(z.minutes);
      }
    }
  }

  /** What the code has accepted once it stands before the zone. */
  ghost predicate BeforeZone(s: string, position: nat) {
    && 19 <= position <= |s|
    && ValidDateBytes(s[..10]) && s[10] == 'T' && ValidClock(s[11..19])
    && (position == 19 || (position > 20 && s[19] == '.' && AllDigits(s[20..position])))
    && ZoneAccepted(s[position..])
  }

  lemma AcceptedIsStamp(s: string, position: nat)
    requires BeforeZone(s, position)
    ensures exists t :: ValidStamp(t) && s == StampText(t)
  {
    hide ValidDateBytes, ValidClock, ZoneAccepted, DateText, ClockText, ZoneText, ValidDay, ValidZone, StampText;
    DatesExact(s[..10]);
    ClocksExact(s[11..19]);
    ZonesExact(s[position..]);
    var year, month, day :| ValidDay(year, month, day) && s[..10] == DateText(year, month, day);
    var h, m, n :| 0 <= h <= 23 && 0 <= m <= 59 && 0 <= n <= 59 && s[11..19] == ClockText(h, m, n);
    var z :| ValidZone(z) && s[position..] == ZoneText(z);
    var fraction := if position == 19 then "" else s[20..position];
    var t := Stamp(year, month, day, h, m, n, fraction, z);
    assert s[19..position] == FractionText(fraction);
    PartsMakeStamp(s, position, t);
  }

  lemma PartsMakeStamp(s: string, position: nat, t: Stamp)
    requires ValidStamp(t) && 19 <= position <= |s| && s[10] == 'T'
    requires s[..10] == DateText(t.year, t.month, t.day) && s[11..19] == ClockText(t.hour, t.minute, t.second)
    requires s[19..position] == FractionText(t.fraction) && s[position..] == ZoneText(t.zone)
    ensures s == StampText(t)
  {
    hide DateText, ClockText, FractionText, ZoneText, ValidDay, ValidZone;
    SplitAgain(s, position);
  }

  lemma SplitAgain(s: string, position: nat)
    requires 19 <= position <= |s| && s[10] == 'T'
    ensures s == s[..10] + "T" + s[11..19] + s[19..position] + s[position..]
  {
    assert s[..11] == s[..10] + "T";
    assert s[..19] == s[..11] + s[11..19];
  }

  lemma PartLengths(t: Stamp)
    requires ValidStamp(t)
    ensures |DateText(t.year, t.month, t.day)| == 10 && |ClockText(t.hour, t.minute, t.second)| == 8
    ensures ZoneText(t.zone) != "" && !IsDigit(ZoneText(t.zone)[0]) && ZoneText(t.zone)[0] != '.'
    ensures ValidDateBytes(DateText(t.year, t.month, t.day)) && ValidClock(ClockText(t.hour, t.minute, t.second)) && ZoneAccepted(ZoneText(t.zone))
  {
    PrintedDate(t.year, t.month, t.day);
    ClocksExact(ClockText(t.hour, t.minute, t.second));
    ZonesExact(ZoneText(t.zone));
  }

  /** The parts of a concatenation of five. */
  lemma Parts(a: string, b: string, c: string, d: string, e: string)
    ensures var s := a + b + c + d + e; var i, j := |a| + |b|, |a| + |b| + |c|;
      && s[..|a|] == a && s[|a|..i] == b && s[i..j] == c && s[j..j + |d|] == d && s[j + |d|..] == e
  {
  }

  lemma StampIsAccepted(t: Stamp) returns (position: nat)
    requires ValidStamp(t)
    ensures BeforeZone(StampText(t), position) && position == 19 + |FractionText(t.fraction)|
    ensures ZoneText(t.zone) != "" && !IsDigit(ZoneText(t.zone)[0]) && ZoneText(t.zone)[0] != '.' && StampText(t)[position..] == ZoneText(t.zone)
  {
    PartLengths(t);
    hide DateText, ClockText, ZoneText, ValidDateBytes, ValidClock, ZoneAccepted, ValidDay, ValidZone, IsDigit;
    var s, fraction := StampText(t), FractionText(t.fraction);
    position := 19 + |fraction|;
    Parts(DateText(t.year, t.month, t.day), "T", ClockText(t.hour, t.minute, t.second), fraction, ZoneText(t.zone));
    assert s[10..11][0] == 'T';
    if t.fraction != "" {
      assert s[19..position][0] == '.' && s[20..position] == s[19..position][1..];
    }
  }

  lemma DigitWithin(s: string, a: nat, b: nat, i: nat)
    requires a <= i < b <= |s| && AllDigits(s[a..b])
    ensures IsDigit(s[i])
  {
    assert s[a..b][i - a] == s[i];
  }

  /** Nothing but a digit run can stand between the point and the zone, so the position is determined. */
  lemma PositionUnique(s: string, position: nat, t: Stamp)
    requires ValidStamp(t) && s == StampText(t) && 19 <= position <= |s|
    requires position == 19 ==> |s| == 19 || s[19] != '.'
    requires position > 19 ==> s[19] == '.' && position >= 20 && AllDigits(s[20..position]) && (position == |s| || !IsDigit(s[position]))
    ensures BeforeZone(s, position)
  {
    var p := StampIsAccepted(t);
    hide ValidDateBytes, ValidClock, ZoneAccepted, StampText, ZoneText, AllDigits, IsDigit, ValidStamp;
    assert s[p] == s[p..][0];
    if 20 <= p < position {
      DigitWithin(s, 20, position, p);
    } else if 20 <= position < p {
      DigitWithin(s, 20, p, position);
    }
  }

  lemma SliceOfTail(s: string, p: nat, a: nat, b: nat)
    requires a <= b && p + b <= |s|
    ensures s[p..][a..b] == s[p + a..p + b]
  {
  }

  /** `valid_timestamp` accepts exactly the printed instants; every slice it takes is in bounds. */
  method ValidTimestamp(s: string) returns (ok: bool)
    ensures ok <==> exists t :: ValidStamp(t) && s == StampText(t)
  {
    forall t | ValidStamp(t) && s == StampText(t)
      ensures |s| >= 20 && s[10] == 'T' && ValidDateBytes(s[..10]) && ValidClock(s[11..19])
    {
      var p := StampIsAccepted(t);
    }
    hide StampText, ValidStamp;
    if |s| < 20 || s[10] != 'T' || !ValidDateBytes(s[..10]) {
      return false;
    }
    if !ValidClock(s[11..19]) {
      return false;
    }
    var position := 19;
    if s[position] == '.' {
      position := position + 1;
      var fractionStart := position;
      while position < |s| && IsDigit(s[position])
        invariant 20 <= position <= |s| && AllDigits(s[20..position])
      {
        assert s[20..position + 1] == s[20..position] + [s[position]];
        position := position + 1;
      }
      if position == fractionStart {
        NoEmptyFraction(s);
        return false;
      }
    }
    forall t | ValidStamp(t) && s == StampText(t)
      ensures BeforeZone(s, position)
    {
      PositionUnique(s, position, t);
    }
    ghost var zone := s[position..];
    if position < |s| && s[position] == 'Z' {
      ok := position + 1 == |s|;
      assert ok <==> zone == "Z";
    } else if position == |s| || (s[position] != '+' && s[position] != '-') || |s| != position + 6 || s[position + 3] != ':' {
      ok := false;
    } else {
      var hours, minutes := ParseDigits(s[position + 1..position + 3]), ParseDigits(s[position + 4..position + 6]);
      SliceOfTail(s, position, 1, 3);
      SliceOfTail(s, position, 4, 6);
      ok := hours.Some? && minutes.Some? && hours.value <= 23 && minutes.value <= 59;
    }
    assert ok <==> ZoneAccepted(zone);
    if ok {
      AcceptedIsStamp(s, position);
    }
  }

  lemma NoEmptyFraction(s: string)
    requires |s| >= 20 && s[19] == '.' && (|s| == 20 || !IsDigit(s[20]))
    ensures !exists t :: ValidStamp(t) && s == StampText(t)
  {
    if t :| ValidStamp(t) && s == StampText(t) {
      PositionUnique(s, 20, t);
      assert false;
    }
  }

  // ----- numerals -----

  /** A plain decimal numeral; no fraction is the empty one. */
  datatype Numeral = Numeral(negative: bool, integer: string, fraction: string)

  predicate ValidNumeral(n: Numeral) {
    n.integer != "" && AllDigits(n.integer) && AllDigits(n.fraction) && (|n.integer| > 1 ==> n.integer[0] != '0')
  }

  function NumeralText(n: Numeral): string {
    (if n.negative then "-" else "") + n.integer + FractionText(n.fraction)
  }

  /** The place of the first point, or the length. */
  function PointIn(s: string): (n: nat)
    ensures n <= |s| && (forall i :: 0 <= i < n ==> s[i] != '.') && (n < |s| ==> s[n] == '.')
  {
    if s == "" || s[0] == '.' then 0 else 1 + PointIn(s[1..])
  }

  /** Digits without a superfluous zero, and digits after the point if there is one. */
  predicate ValidUnsigned(s: string) {
    s != "" &&
    var end := PointIn(s);
    var integer := s[..end];
    integer != "" && AllDigits(integer) && !(|integer| > 1 && integer[0] == '0')
    && (end == |s| || (s[end + 1..] != "" && AllDigits(s[end + 1..])))
  }

  /** `valid_numeric`. */
  predicate ValidNumeric(s: string) {
    s != "" && ValidUnsigned(if s[0] == '-' then s[1..] else s)
  }

  function UnsignedText(n: Numeral): string {
    n.integer + FractionText(n.fraction)
  }

  lemma UnsignedIsNumeral(s: string, negative: bool) returns (n: Numeral)
    requires ValidUnsigned(s)
    ensures ValidNumeral(n) && s == UnsignedText(n) && n.negative == negative
  {
    var end := PointIn(s);
    n := Numeral(negative, s[..end], if end == |s| then "" else s[end + 1..]);
    if end < |s| {
      assert s == s[..end] + ("." + s[end + 1..]);
    }
  }

  lemma {:induction false} PointAfter(a: string, rest: string)
    requires AllDigits(a) && (rest == "" || rest[0] == '.')
    ensures PointIn(a + rest) == |a|
  {
    if a == "" {
      assert a + rest == rest;
    } else {
      PointAfter(a[1..], rest);
      assert (a + rest)[1..] == a[1..] + rest;
    }
  }

  lemma NumeralIsUnsigned(n: Numeral)
    requires ValidNumeral(n)
    ensures ValidUnsigned(UnsignedText(n)) && UnsignedText(n) != "" && UnsignedText(n)[0] != '-'
  {
    PointAfter(n.integer, FractionText(n.fraction));
    hide PointIn;
    var s := UnsignedText(n);
    assert s[..|n.integer|] == n.integer;
    if n.fraction != "" {
      assert s[|n.integer| + 1..] == n.fraction;
    }
    assert IsDigit(n.integer[0]) && s[0] == n.integer[0];
  }

  lemma NumericIsNumeral(s: string) returns (n: Numeral)
    requires ValidNumeric(s)
    ensures ValidNumeral(n) && s == NumeralText(n)
  {
    hide ValidUnsigned, ValidNumeral, UnsignedText, NumeralText;
    var unsigned := if s[0] == '-' then s[1..] else s;
    n := UnsignedIsNumeral(unsigned, s[0] == '-');
    SignFirst(n);
    if s[0] == '-' {
      assert s == "-" + s[1..];
    }
  }

  lemma NumeralIsNumeric(n: Numeral)
    requires ValidNumeral(n)
    ensures ValidNumeric(NumeralText(n))
  {
    NumeralIsUnsigned(n);
    hide ValidUnsigned, ValidNumeral, UnsignedText, NumeralText;
    SignFirst(n);
    if n.negative {
      assert ("-" + UnsignedText(n))[1..] == UnsignedText(n);
    }
  }

  /** Exactly the printed decimal numerals are accepted. */
  lemma NumericsExact(s: string)
    ensures ValidNumeric(s) <==> exists n :: ValidNumeral(n) && s == NumeralText(n)
  {
    hide ValidNumeric, ValidNumeral, NumeralText;
    if ValidNumeric(s) {
      var n := NumericIsNumeral(s);
    }
    if n :| ValidNumeral(n) && s == NumeralText(n) {
      NumeralIsNumeric(n);
    }
  }

  lemma SignFirst(n: Numeral)
    ensures NumeralText(n) == if n.negative then "-" + UnsignedText(n) else UnsignedText(n)
  {
    assert "" + n.integer == n.integer;
    assert "-" + n.integer + FractionText(n.fraction) == "-" + (n.integer + FractionText(n.fraction));
  }

  // ----- filters -----

  datatype LsqError =
    | UnsupportedSchemaVersion(version: string)
    | EmptyModel
    | EmptyProjection
    | InvalidLimit
    | EmptyReference
    | DuplicateReference(name: string)
    | DuplicateOrderReference(name: string)
    | InvalidLiteralValue(typeName: string)
    | FilterTooDeep
    | FilterTooLarge
    | EmptyLogicalFilter
    | InvalidInFilterSize

  const MAX_LIMIT: nat := 10000
  const MAX_FILTER_DEPTH: nat := 16
  const MAX_FILTER_NODES: nat := 128
  const MAX_IN_VALUES: nat := 100

  /** Literals whose text reads as a value of their type. */
  ghost predicate WellFormed(l: Literal) {
    match l
    case NumericLiteral(digits) => exists n :: ValidNumeral(n) && digits == NumeralText(n)
    case DateLiteral(day) => exists y, m, d :: ValidDay(y, m, d) && day == DateText(y, m, d)
    case TimestampLiteral(instant) => exists t :: ValidStamp(t) && instant == StampText(t)
    case _ => true
  }

  method LiteralWellFormed(l: Literal) returns (ok: bool)
    ensures ok <==> WellFormed(l)
  {
    match l {
      case NumericLiteral(digits) =>
        NumericsExact(digits);
        ok := ValidNumeric(digits);
      case DateLiteral(day) =>
        DatesExact(day);
        ok := ValidDateBytes(day);
      case TimestampLiteral(instant) =>
        ok := ValidTimestamp(instant);
      case _ =>
        ok := true;
    }
  }

  function Height(f: Filter): (h: nat)
    ensures h >= 1
    decreases f
  {
    match f
    case And(args) => 1 + MaxHeight(args)
    case Or(args) => 1 + MaxHeight(args)
    case Not(arg) => 1 + Height(arg)
    case _ => 1
  }

  function MaxHeight(args: seq<Filter>): nat
    decreases args
  {
    if args == [] then 0
    else
      var rest, last := MaxHeight(args[..|args| - 1]), Height(args[|args| - 1]);
      if rest >= last then rest else last
  }

  function Size(f: Filter): (n: nat)
    ensures n >= 1
    decreases f
  {
    match f
    case And(args) => 1 + TotalSize(args)
    case Or(args) => 1 + TotalSize(args)
    case Not(arg) => 1 + Size(arg)
    case _ => 1
  }

  function TotalSize(args: seq<Filter>): nat
    decreases args
  {
    if args == [] then 0 else TotalSize(args[..|args| - 1]) + Size(args[|args| - 1])
  }

  /** Non-empty logical nodes, bounded IN lists, and leaves with a field name and readable values. */
  ghost predicate WellShaped(f: Filter)
    decreases f
  {
    match f
    case And(args) => args != [] && forall i :: 0 <= i < |args| ==> WellShaped(args[i])
    case Or(args) => args != [] && forall i :: 0 <= i < |args| ==> WellShaped(args[i])
    case Not(arg) => WellShaped(arg)
    case Compare(_, field, value) => !Blank(field) && WellFormed(value)
    case In(field, values) => !Blank(field) && 0 < |values| <= MAX_IN_VALUES && forall i :: 0 <= i < |values| ==> WellFormed(values[i])
    case IsNull(field) => !Blank(field)
    case IsNotNull(field) => !Blank(field)
  }

  // ----- the first check that fails -----

  function LiteralTypeName(l: Literal): string {
    match l
    case TextLiteral(_) => "text"
    case BooleanLiteral(_) => "boolean"
    case IntegerLiteral(_) => "integer"
    case NumericLiteral(_) => "numeric"
    case DateLiteral(_) => "date"
    case TimestampLiteral(_) => "timestamp"
  }

  /** A node with its depth in the tree. */
  datatype Node = Node(filter: Filter, depth: nat)

  /** The nodes of a filter in the order in which they are written. */
  function Preorder(f: Filter, depth: nat): (nodes: seq<Node>)
    ensures |nodes| == Size(f)
    decreases f, 1
  {
    [Node(f, depth)] + Below(f, depth)
  }

  /** The nodes of its arguments. */
  function Below(f: Filter, depth: nat): (nodes: seq<Node>)
    ensures |nodes| == Size(f) - 1
    decreases f, 0
  {
    match f
    case And(args) => PreorderAll(args, depth + 1)
    case Or(args) => PreorderAll(args, depth + 1)
    case Not(arg) => Preorder(arg, depth + 1)
    case _ => []
  }

  function PreorderAll(args: seq<Filter>, depth: nat): (nodes: seq<Node>)
    ensures |nodes| == TotalSize(args)
    decreases args, 2
  {
    if args == [] then [] else PreorderAll(args[..|args| - 1], depth) + Preorder(args[|args| - 1], depth)
  }

  /** The values before the first one that does not read as its type are in order. */
  ghost predicate FirstUnreadable(values: seq<Literal>, e: LsqError) {
    exists k :: 0 <= k < |values| && UnreadableAt(values, k) && e == InvalidLiteralValue(LiteralTypeName(values[k]))
  }

  ghost predicate UnreadableAt(values: seq<Literal>, k: nat)
    requires k < |values|
  {
    !WellFormed(values[k]) && forall j :: 0 <= j < k ==> WellFormed(values[j])
  }

  /** The leaf itself is in order: it names a field, and its values read as their types. */
  ghost predicate LeafHolds(field: string, values: seq<Literal>) {
    !Blank(field) && forall i :: 0 <= i < |values| ==> WellFormed(values[i])
  }

  ghost predicate LeafRefused(field: string, values: seq<Literal>, e: LsqError) {
    if Blank(field) then e == EmptyReference else FirstUnreadable(values, e)
  }

  /** What a node must satisfy by itself, its arguments apart. */
  ghost predicate NodeHolds(f: Filter) {
    match f
    case And(args) => args != []
    case Or(args) => args != []
    case Not(_) => true
    case Compare(_, field, value) => LeafHolds(field, [value])
    case In(field, values) => 0 < |values| <= MAX_IN_VALUES && LeafHolds(field, values)
    case IsNull(field) => LeafHolds(field, [])
    case IsNotNull(field) => LeafHolds(field, [])
  }

  ghost predicate NodeRefused(f: Filter, e: LsqError) {
    match f
    case And(_) => e == EmptyLogicalFilter
    case Or(_) => e == EmptyLogicalFilter
    case Not(_) => false
    case Compare(_, field, value) => LeafRefused(field, [value], e)
    case In(field, values) =>
      if !Blank(field) && !(0 < |values| <= MAX_IN_VALUES) then e == InvalidInFilterSize else LeafRefused(field, values, e)
    case IsNull(field) => LeafRefused(field, [], e)
    case IsNotNull(field) => LeafRefused(field, [], e)
  }

  /** The n-th node counted is within both bounds and in order by itself. */
  ghost predicate Passes(node: Node, n: nat) {
    node.depth <= MAX_FILTER_DEPTH && n <= MAX_FILTER_NODES && NodeHolds(node.filter)
  }

  ghost predicate Fails(node: Node, n: nat, e: LsqError) {
    if node.depth > MAX_FILTER_DEPTH then e == FilterTooDeep
    else if n > MAX_FILTER_NODES then e == FilterTooLarge
    else !NodeHolds(node.filter) && NodeRefused(node.filter, e)
  }

  ghost predicate AllPass(nodes: seq<Node>, count: nat) {
    forall k :: 0 <= k < |nodes| ==> Passes(nodes[k], count + k + 1)
  }

  /** The error is that of the first node, in the order written, that fails a check. */
  ghost predicate FirstFailure(nodes: seq<Node>, count: nat, e: LsqError) {
    exists k :: 0 <= k < |nodes| && Fails(nodes[k], count + k + 1, e) && AllPass(nodes[..k], count)
  }

  lemma FailureInFront(a: seq<Node>, b: seq<Node>, count: nat, e: LsqError)
    requires FirstFailure(a, count, e)
    ensures FirstFailure(a + b, count, e)
  {
    var k :| 0 <= k < |a| && Fails(a[k], count + k + 1, e) && AllPass(a[..k], count);
    assert (a + b)[k] == a[k] && (a + b)[..k] == a[..k];
  }

  lemma PassAppend(a: seq<Node>, b: seq<Node>, count: nat)
    requires AllPass(a, count)
    ensures AllPass(a + b, count) <==> AllPass(b, count + |a|)
  {
    hide Passes;
    if AllPass(a + b, count) {
      forall k | 0 <= k < |b|
        ensures Passes(b[k], count + |a| + k + 1)
      {
        assert (a + b)[|a| + k] == b[k];
      }
    }
    if AllPass(b, count + |a|) {
      forall k | 0 <= k < |a + b|
        ensures Passes((a + b)[k], count + k + 1)
      {
        if k >= |a| {
          assert Passes(b[k - |a|], count + |a| + (k - |a|) + 1);
        } else {
          assert Passes(a[k], count + k + 1);
        }
      }
    }
  }

  lemma FailureAfter(a: seq<Node>, b: seq<Node>, count: nat, e: LsqError)
    requires AllPass(a, count) && FirstFailure(b, count + |a|, e)
    ensures FirstFailure(a + b, count, e)
  {
    hide Passes, Fails;
    var k :| 0 <= k < |b| && Fails(b[k], count + |a| + k + 1, e) && AllPass(b[..k], count + |a|);
    PassAppend(a, b[..k], count);
    assert (a + b)[|a| + k] == b[k] && (a + b)[..|a| + k] == a + b[..k];
  }

  lemma ArgumentNodes(args: seq<Filter>, i: nat, depth: nat)
    requires i < |args|
    ensures PreorderAll(args[..i + 1], depth) == PreorderAll(args[..i], depth) + Preorder(args[i], depth)
  {
    assert args[..i + 1][..i] == args[..i];
  }

  lemma {:induction false} ArgumentsInFront(args: seq<Filter>, i: nat, depth: nat) returns (more: seq<Node>)
    requires i <= |args|
    ensures PreorderAll(args, depth) == PreorderAll(args[..i], depth) + more
    decreases |args| - i
  {
    if i == |args| {
      assert args[..i] == args;
      more := [];
    } else {
      var rest := ArgumentsInFront(args, i + 1, depth);
      ArgumentNodes(args, i, depth);
      more := Preorder(args[i], depth) + rest;
    }
  }

  // ----- and what passing all of them means -----

  /** Every node passes exactly when the tree is within both bounds and well shaped. */
  lemma {:induction false} PassesExactly(f: Filter, depth: nat, count: nat)
    ensures AllPass(Preorder(f, depth), count)
      <==> depth + Height(f) - 1 <= MAX_FILTER_DEPTH && count + Size(f) <= MAX_FILTER_NODES && WellShaped(f)
    decreases f, 1
  {
    hide NodeHolds, WellShaped, AllPass;
    HeadAndRest(f, depth, count);
    AloneExactly(f);
    NoneFails(count + 1);
    match f
    case And(args) => PassesAll(args, depth + 1, count + 1);
    case Or(args) => PassesAll(args, depth + 1, count + 1);
    case Not(arg) => PassesExactly(arg, depth + 1, count + 1);
    case _ =>
  }

  ghost predicate ArgumentsShaped(f: Filter) {
    match f
    case And(args) => forall i :: 0 <= i < |args| ==> WellShaped(args[i])
    case Or(args) => forall i :: 0 <= i < |args| ==> WellShaped(args[i])
    case Not(arg) => WellShaped(arg)
    case _ => true
  }

  /** A well-shaped tree is one whose node is in order and whose arguments are well shaped. */
  lemma AloneExactly(f: Filter)
    ensures WellShaped(f) <==> NodeHolds(f) && ArgumentsShaped(f)
  {
    match f
    case Compare(_, field, value) => assert WellFormed([value][0]) == WellFormed(value);
    case _ =>
  }

  ghost predicate WithinBounds(args: seq<Filter>, depth: nat, count: nat) {
    args == [] || (depth + MaxHeight(args) - 1 <= MAX_FILTER_DEPTH && count + TotalSize(args) <= MAX_FILTER_NODES)
  }

  lemma {:induction false} PassesAll(args: seq<Filter>, depth: nat, count: nat)
    requires depth >= 1
    ensures AllPass(PreorderAll(args, depth), count) <==> WithinBounds(args, depth, count) && forall i :: 0 <= i < |args| ==> WellShaped(args[i])
    decreases args, 0
  {
    hide WellShaped, AllPass;
    if args == [] {
      NoneFails(count);
    } else {
      var n := |args| - 1;
      var last, front := args[n], args[..n];
      PassesAll(front, depth, count);
      PassesExactly(last, depth, count + TotalSize(front));
      BothPass(PreorderAll(front, depth), Preorder(last, depth), count);
      BoundsSplit(args, depth, count);
      assert forall i :: 0 <= i < n ==> front[i] == args[i];
      assert (forall i :: 0 <= i < |args| ==> WellShaped(args[i])) <==> (forall i :: 0 <= i < n ==> WellShaped(front[i])) && WellShaped(last);
    }
  }

  lemma BoundsSplit(args: seq<Filter>, depth: nat, count: nat)
    requires args != [] && depth >= 1
    ensures var front, last := args[..|args| - 1], args[|args| - 1];
      WithinBounds(args, depth, count) <==>
      (WithinBounds(front, depth, count) && depth + Height(last) - 1 <= MAX_FILTER_DEPTH && count + TotalSize(front) + Size(last) <= MAX_FILTER_NODES)
  {
    var front, last := args[..|args| - 1], args[|args| - 1];
    assert TotalSize(args) == TotalSize(front) + Size(last);
    assert MaxHeight(args) == if MaxHeight(front) >= Height(last) then MaxHeight(front) else Height(last);
    if front == [] {
      assert MaxHeight(front) == 0;
    }
  }

  lemma BothPass(a: seq<Node>, b: seq<Node>, count: nat)
    ensures AllPass(a + b, count) <==> AllPass(a, count) && AllPass(b, count + |a|)
  {
    hide Passes;
    if AllPass(a, count) {
      PassAppend(a, b, count);
    } else {
      var k :| 0 <= k < |a| && !Passes(a[k], count + k + 1);
      assert (a + b)[k] == a[k];
    }
  }

  // ----- the methods -----

  /** `validate_filter`: exactly the well-shaped trees within both bounds pass, the counter grows by their size, and a refusal names the first failing check. */
  method ValidateFilter(f: Filter, depth: nat, nodeCount: nat) returns (r: Result<(), LsqError>, count: nat)
    requires depth >= 1
    ensures r.Ok? <==> depth + Height(f) - 1 <= MAX_FILTER_DEPTH && nodeCount + Size(f) <= MAX_FILTER_NODES && WellShaped(f)
    ensures r.Ok? ==> count == nodeCount + Size(f)
    ensures r.Err? ==> FirstFailure(Preorder(f, depth), nodeCount, r.error)
    decreases f, 1
  {
    PassesExactly(f, depth, nodeCount);
    hide WellShaped, LeafHolds, LeafRefused, AllPass, FirstFailure;
    count := nodeCount;
    ghost var node, nodes := Node(f, depth), Preorder(f, depth);
    if depth > MAX_FILTER_DEPTH {
      HeadFails(nodes, nodeCount, FilterTooDeep);
      return Err(FilterTooDeep), count;
    }
    count := count + 1;
    if count > MAX_FILTER_NODES {
      HeadFails(nodes, nodeCount, FilterTooLarge);
      return Err(FilterTooLarge), count;
    }
    HeadAndRest(f, depth, nodeCount);
    r, count := ValidateNode(f, depth, count);
    if r.Err? && NodeHolds(f) {
      ChildFails(node, Below(f, depth), nodeCount, r.error);
    } else if r.Err? {
      HeadFails(nodes, nodeCount, r.error);
    }
  }

  /** The checks of a node within the bounds: its own, then its arguments'. */
  method ValidateNode(f: Filter, depth: nat, nodeCount: nat) returns (r: Result<(), LsqError>, count: nat)
    requires 1 <= depth <= MAX_FILTER_DEPTH && nodeCount <= MAX_FILTER_NODES
    ensures r.Ok? <==> NodeHolds(f) && AllPass(Below(f, depth), nodeCount)
    ensures r.Ok? ==> count == nodeCount + Size(f) - 1
    ensures r.Err? ==> if NodeHolds(f) then FirstFailure(Below(f, depth), nodeCount, r.error) else NodeRefused(f, r.error)
    decreases f, 0
  {
    hide WellShaped, LeafHolds, LeafRefused, AllPass, FirstFailure;
    NoneFails(nodeCount);
    count := nodeCount;
    match f {
      case And(args) => r, count := ValidateArguments(args, depth, count);
      case Or(args) => r, count := ValidateArguments(args, depth, count);
      case Not(arg) =>
        PassesExactly(arg, depth + 1, count);
        r, count := ValidateFilter(arg, depth + 1, count);
      case In(field, values) => r := ValidateMembers(field, values);
      case Compare(_, field, value) => r := ValidateLeaf(field, [value]);
      case IsNull(field) => r := ValidateLeaf(field, []);
      case IsNotNull(field) => r := ValidateLeaf(field, []);
    }
  }

  lemma HeadAndRest(f: Filter, depth: nat, count: nat)
    ensures AllPass(Preorder(f, depth), count) <==> Passes(Node(f, depth), count + 1) && AllPass(Below(f, depth), count + 1)
    ensures Preorder(f, depth) == [Node(f, depth)] + Below(f, depth)
  {
    hide Passes;
    var node := Node(f, depth);
    assert AllPass([node], count) <==> Passes(node, count + 1) by {
      assert [node][0] == node;
    }
    BothPass([node], Below(f, depth), count);
  }

  lemma HeadFails(nodes: seq<Node>, count: nat, e: LsqError)
    requires nodes != [] && Fails(nodes[0], count + 1, e)
    ensures FirstFailure(nodes, count, e)
  {
    assert AllPass(nodes[..0], count);
  }

  lemma ChildFails(node: Node, children: seq<Node>, count: nat, e: LsqError)
    requires Passes(node, count + 1) && FirstFailure(children, count + 1, e)
    ensures FirstFailure([node] + children, count, e)
  {
    assert AllPass([node], count);
    FailureAfter([node], children, count, e);
  }

  /** One more argument: the nodes so far go on passing exactly if its own do, and its failure is the first of all. */
  lemma ArgumentStep(args: seq<Filter>, i: nat, depth: nat, count: nat)
    requires i < |args| && AllPass(PreorderAll(args[..i], depth), count)
    ensures var n := count + TotalSize(args[..i]);
      && (AllPass(PreorderAll(args[..i + 1], depth), count) <==> AllPass(Preorder(args[i], depth), n))
      && (forall e :: FirstFailure(Preorder(args[i], depth), n, e) ==> FirstFailure(PreorderAll(args, depth), count, e))
  {
    hide AllPass, FirstFailure;
    var front, own := PreorderAll(args[..i], depth), Preorder(args[i], depth);
    ArgumentNodes(args, i, depth);
    PassAppend(front, own, count);
    var more := ArgumentsInFront(args, i + 1, depth);
    forall e | FirstFailure(own, count + |front|, e)
      ensures FirstFailure(PreorderAll(args, depth), count, e)
    {
      FailureAfter(front, own, count, e);
      FailureInFront(front + own, more, count, e);
    }
  }

  /** The loop over the arguments of a logical node, which share the counter. */
  method ValidateArguments(args: seq<Filter>, depth: nat, nodeCount: nat) returns (r: Result<(), LsqError>, count: nat)
    requires 1 <= depth <= MAX_FILTER_DEPTH && nodeCount <= MAX_FILTER_NODES
    ensures r.Ok? <==> args != [] && AllPass(PreorderAll(args, depth + 1), nodeCount)
    ensures r.Ok? ==> count == nodeCount + TotalSize(args)
    ensures r.Err? ==> if args == [] then r.error == EmptyLogicalFilter else FirstFailure(PreorderAll(args, depth + 1), nodeCount, r.error)
    decreases args, 0
  {
    hide AllPass, FirstFailure, WellShaped;
    count := nodeCount;
    if args == [] {
      return Err(EmptyLogicalFilter), count;
    }
    NoneFails(nodeCount);
    for i := 0 to |args|
      invariant AllPass(PreorderAll(args[..i], depth + 1), nodeCount)
      invariant count == nodeCount + TotalSize(args[..i])
    {
      ArgumentStep(args, i, depth + 1, nodeCount);
      PrefixBounds(args, i);
      PassesExactly(args[i], depth + 1, count);
      r, count := ValidateFilter(args[i], depth + 1, count);
      if r.Err? {
        FailureExcludesPass(PreorderAll(args, depth + 1), nodeCount, r.error);
        return;
      }
    }
    assert args[..|args|] == args;
    return Ok(()), count;
  }

  lemma NoneFails(count: nat)
    ensures AllPass([], count)
  {
  }

  lemma FailureExcludesPass(nodes: seq<Node>, count: nat, e: LsqError)
    requires FirstFailure(nodes, count, e)
    ensures !AllPass(nodes, count)
  {
  }

  method ValidateLeaf(field: string, values: seq<Literal>) returns (r: Result<(), LsqError>)
    ensures r.Ok? <==> LeafHolds(field, values)
    ensures r.Err? ==> LeafRefused(field, values, r.error)
  {
    hide WellFormed;
    if Blank(field) {
      return Err(EmptyReference);
    }
    for i := 0 to |values|
      invariant forall j :: 0 <= j < i ==> WellFormed(values[j])
    {
      var ok := LiteralWellFormed(values[i]);
      if !ok {
        assert UnreadableAt(values, i);
        return Err(InvalidLiteralValue(LiteralTypeName(values[i])));
      }
    }
    return Ok(());
  }

  method ValidateMembers(field: string, values: seq<Literal>) returns (r: Result<(), LsqError>)
    ensures r.Ok? <==> 0 < |values| <= MAX_IN_VALUES && LeafHolds(field, values)
    ensures r.Err? ==>
      if !Blank(field) && !(0 < |values| <= MAX_IN_VALUES) then r.error == InvalidInFilterSize else LeafRefused(field, values, r.error)
  {
    if !Blank(field) && (values == [] || |values| > MAX_IN_VALUES) {
      return Err(InvalidInFilterSize);
    }
    r := ValidateLeaf(field, values);
  }

  lemma {:induction false} PrefixBounds(args: seq<Filter>, i: nat)
    requires i < |args|
    ensures TotalSize(args[..i]) + Size(args[i]) <= TotalSize(args)
    ensures TotalSize(args[..i + 1]) == TotalSize(args[..i]) + Size(args[i])
  {
    assert args[..i + 1][..i] == args[..i];
    var n := |args| - 1;
    if i < n {
      PrefixBounds(args[..n], i);
      assert args[..n][..i] == args[..i];
    } else {
      assert args[..n] == args[..i];
    }
  }

  // ----- the whole query -----

  ghost predicate ReferencesHold(names: seq<string>) {
    NoDuplicates(names) && forall i :: 0 <= i < |names| ==> !Blank(names[i])
  }

  /** The names before the first blank or repeated one are in order. */
  ghost predicate ReferencesRefused(names: seq<string>, repeated: string -> LsqError, e: LsqError) {
    exists k :: 0 <= k < |names| && RefusedAt(names, k) && e == if Blank(names[k]) then EmptyReference else repeated(names[k])
  }

  ghost predicate RefusedAt(names: seq<string>, k: nat)
    requires k < |names|
  {
    ReferencesHold(names[..k]) && (Blank(names[k]) || names[k] in names[..k])
  }

  /** The loops over the references: each must name something, and something new. */
  method ValidateReferences(names: seq<string>, repeated: string -> LsqError) returns (r: Result<(), LsqError>)
    ensures r.Ok? <==> ReferencesHold(names)
    ensures r.Err? ==> ReferencesRefused(names, repeated, r.error)
  {
    var seen: set<string> := {};
    for i := 0 to |names|
      invariant seen == set n | n in names[..i]
      invariant ReferencesHold(names[..i])
    {
      if Blank(names[i]) {
        assert RefusedAt(names, i);
        return Err(EmptyReference);
      }
      if names[i] in seen {
        assert RefusedAt(names, i);
        return Err(repeated(names[i]));
      }
      seen := seen + {names[i]};
      assert names[..i + 1] == names[..i] + [names[i]];
    }
    assert names[..|names|] == names;
    return Ok(());
  }

  function OrderNames(orderBy: seq<OrderBy>): (r: seq<string>)
    ensures |r| == |orderBy| && forall i :: 0 <= i < |r| ==> r[i] == orderBy[i].outputReference
  {
    seq(|orderBy|, i requires 0 <= i < |orderBy| => orderBy[i].outputReference)
  }

  ghost predicate HeaderHolds(q: Query) {
    && q.schemaVersion == "1" && !Blank(q.model) && (q.dimensions != [] || q.metrics != [])
    && (q.limit.Some? ==> 1 <= q.limit.value <= MAX_LIMIT)
  }

  ghost predicate FilterHolds(f: Filter) {
    Height(f) <= MAX_FILTER_DEPTH && Size(f) <= MAX_FILTER_NODES && WellShaped(f)
  }

  /** What a query must be before it is compiled. */
  ghost predicate QueryHolds(q: Query) {
    && HeaderHolds(q) && ReferencesHold(OutputNames(q)) && ReferencesHold(OrderNames(q.orderBy))
    && (q.filters.Some? ==> FilterHolds(q.filters.value))
  }

  /** The first check that fails. */
  ghost predicate QueryRefused(q: Query, e: LsqError) {
    if q.schemaVersion != "1" then e == UnsupportedSchemaVersion(q.schemaVersion)
    else if Blank(q.model) then e == EmptyModel
    else if q.dimensions == [] && q.metrics == [] then e == EmptyProjection
    else if !HeaderHolds(q) then e == InvalidLimit
    else if !ReferencesHold(OutputNames(q)) then ReferencesRefused(OutputNames(q), Repeated, e)
    else if !ReferencesHold(OrderNames(q.orderBy)) then ReferencesRefused(OrderNames(q.orderBy), RepeatedOrder, e)
    else q.filters.Some? && FirstFailure(Preorder(q.filters.value, 1), 0, e)
  }

  function Repeated(name: string): LsqError { DuplicateReference(name) }

  function RepeatedOrder(name: string): LsqError { DuplicateOrderReference(name) }

  /** `validate_query`: accepts exactly these queries, and otherwise reports the first check that fails. */
  method ValidateQuery(q: Query) returns (r: Result<(), LsqError>)
    ensures r.Ok? <==> QueryHolds(q)
    ensures r.Err? ==> QueryRefused(q, r.error)
  {
    hide ReferencesHold, ReferencesRefused, FirstFailure, WellShaped, Blank;
    if q.schemaVersion != "1" {
      return Err(UnsupportedSchemaVersion(q.schemaVersion));
    }
    if Blank(q.model) {
      return Err(EmptyModel);
    }
    if q.dimensions == [] && q.metrics == [] {
      return Err(EmptyProjection);
    }
    if q.limit.Some? && (q.limit.value == 0 || q.limit.value > MAX_LIMIT) {
      return Err(InvalidLimit);
    }
    r := ValidateReferences(OutputNames(q), Repeated);
    if r.Err? {
      return;
    }
    r := ValidateReferences(OrderNames(q.orderBy), RepeatedOrder);
    if r.Err? {
      return;
    }
    if q.filters.Some? {
      var count;
      r, count := ValidateFilter(q.filters.value, 1, 0);
    }
  }
}
