/** RFC 3339 UTC timestamps (section 5.6 of RFC 3339) from microseconds since
    the epoch, and back. */
module Rfc3339 {
  import opened Wrappers
  import opened Text
  import opened Calendar

  // ---- The source's printer ----

  function Render(micros: int): string {
    var seconds := micros / 1_000_000;
    var fraction := micros % 1_000_000;
    var date := CivilFromDays(seconds / 86_400);
    var ofDay := seconds % 86_400;
    var clock := Padded(ofDay / 3_600, 2) + [':'] + Padded(ofDay % 3_600 / 60, 2) + [':'] + Padded(ofDay % 60, 2);
    DateText(Padded(date.year, 4), Padded(date.month, 2), Padded(date.day, 2)) + ['T'] + clock +
    (if fraction == 0 then "" else ['.'] + Padded(fraction, 6)) + "Z"
  }

  function DateText(year: string, month: string, day: string): string {
    year + ['-'] + month + ['-'] + day
  }

  function ClockText(hour: string, minute: string, second: string): string {
    hour + [':'] + minute + [':'] + second
  }

  // ---- The source's parser ----

  function StripSuffix(text: string, suffix: string): Option<string> {
    if |suffix| <= |text| && text[|text| - |suffix|..] == suffix then Some(text[..|text| - |suffix|]) else None
  }

  function StripUtc(text: string): Option<string> {
    match StripSuffix(text, "Z")
    case Some(body) => Some(body)
    case None => StripSuffix(text, "+00:00")
  }

  function Number(part: string, len: nat): Option<nat> {
    if |part| == len && AllDigits(part) then Some(NumberValue(part)) else None
  }

  function ParseDate(date: string): Option<Date> {
    var parts := Split(date, '-');
    if |parts| != 3 then None
    else
      match (Number(parts[0], 4), Number(parts[1], 2), Number(parts[2], 2))
      case (Some(year), Some(month), Some(day)) => Some(Date(year, month, day))
      case _ => None
  }

  /** The second of the day. */
  function ParseClock(clock: string): Option<nat> {
    var parts := Split(clock, ':');
    if |parts| != 3 then None
    else
      match (Number(parts[0], 2), Number(parts[1], 2), Number(parts[2], 2))
      case (Some(hour), Some(minute), Some(second)) =>
        if hour > 23 || minute > 59 || second > 59 then None else Some(hour * 3_600 + minute * 60 + second)
      case _ => None
  }

  function ParseFraction(fraction: Option<string>): Option<nat> {
    match fraction
    case None => Some(0)
    case Some(digits) =>
      if 1 <= |digits| <= 6 then
        match Number(digits, |digits|)
        case Some(n) => Some(n * Pow10(6 - |digits|))
        case None => None
      else None
  }

  function SplitFraction(time: string): (string, Option<string>) {
    match SplitOnce(time, '.')
    case Some((clock, fraction)) => (clock, Some(fraction))
    case None => (time, None)
  }

  function ParseTime(time: string): Option<(nat, nat)> {
    var (clock, fraction) := SplitFraction(time);
    match (ParseClock(clock), ParseFraction(fraction))
    case (Some(second), Some(micros)) => Some((second, micros))
    case _ => None
  }

  function Parse(text: string): Option<int> {
    match StripUtc(text)
    case None => None
    case Some(body) =>
      match SplitOnce(body, 'T')
      case None => None
      case Some((date, time)) => Assemble(ParseDate(date), ParseTime(time))
  }

  function Assemble(date: Option<Date>, time: Option<(nat, nat)>): Option<int> {
    match (date, time)
    case (Some(date), Some((second, micros))) =>
      if Valid(date) then Some((DaysFromCivil(date) * 86_400 + second) * 1_000_000 + micros) else None
    case _ => None
  }

  // ---- The accepted language, independently of the parser ----

  datatype Fields = Fields(year: string, month: string, day: string, hour: string, minute: string, second: string,
                           fraction: Option<string>, suffix: string)

  predicate IsNumber(s: string, len: nat) {
    |s| == len && AllDigits(s)
  }

  ghost predicate WellFormed(f: Fields) {
    && IsNumber(f.year, 4) && IsNumber(f.month, 2) && IsNumber(f.day, 2)
    && IsNumber(f.hour, 2) && IsNumber(f.minute, 2) && IsNumber(f.second, 2)
    && (f.fraction.Some? ==> 1 <= |f.fraction.value| <= 6 && AllDigits(f.fraction.value))
    && (f.suffix == "Z" || f.suffix == "+00:00")
  }

  ghost function DateOf(f: Fields): Date
    requires WellFormed(f)
  {
    Date(NumberValue(f.year), NumberValue(f.month), NumberValue(f.day))
  }

  ghost predicate InRange(f: Fields)
    requires WellFormed(f)
  {
    Valid(DateOf(f)) && NumberValue(f.hour) <= 23 && NumberValue(f.minute) <= 59 && NumberValue(f.second) <= 59
  }

  ghost function SecondOf(f: Fields): nat
    requires WellFormed(f)
  {
    NumberValue(f.hour) * 3_600 + NumberValue(f.minute) * 60 + NumberValue(f.second)
  }

  ghost function MicrosOf(f: Fields): nat
    requires WellFormed(f)
  {
    if f.fraction.None? then 0 else NumberValue(f.fraction.value) * Pow10(6 - |f.fraction.value|)
  }

  ghost function Instant(f: Fields): int
    requires WellFormed(f)
  {
    (DaysFromCivil(DateOf(f)) * 86_400 + SecondOf(f)) * 1_000_000 + MicrosOf(f)
  }

  function TimeText(f: Fields): string {
    ClockText(f.hour, f.minute, f.second) + if f.fraction.Some? then ['.'] + f.fraction.value else ""
  }

  function TextOf(f: Fields): string {
    DateText(f.year, f.month, f.day) + ['T'] + TimeText(f) + f.suffix
  }

  // ---- The parser accepts exactly that language ----

  lemma {:induction false} ParseDateOf(year: string, month: string, day: string)
    requires IsNumber(year, 4) && IsNumber(month, 2) && IsNumber(day, 2)
    ensures ParseDate(DateText(year, month, day)) == Some(Date(NumberValue(year), NumberValue(month), NumberValue(day)))
  {
    SplitThree(DateText(year, month, day), '-', year, month, day);
  }

  lemma {:induction false} ParsedDate(date: string) returns (year: string, month: string, day: string)
    requires ParseDate(date).Some?
    ensures IsNumber(year, 4) && IsNumber(month, 2) && IsNumber(day, 2)
    ensures date == DateText(year, month, day)
  {
    var parts := Split(date, '-');
    year, month, day := parts[0], parts[1], parts[2];
    assert parts == [year, month, day];
    SplitThree(date, '-', year, month, day);
  }

  lemma {:induction false} ParseClockOf(hour: string, minute: string, second: string)
    requires IsNumber(hour, 2) && IsNumber(minute, 2) && IsNumber(second, 2)
    ensures ParseClock(ClockText(hour, minute, second))
         == if NumberValue(hour) <= 23 && NumberValue(minute) <= 59 && NumberValue(second) <= 59
            then Some(NumberValue(hour) * 3_600 + NumberValue(minute) * 60 + NumberValue(second)) else None
  {
    SplitThree(ClockText(hour, minute, second), ':', hour, minute, second);
  }

  lemma {:induction false} ParsedClock(clock: string) returns (hour: string, minute: string, second: string)
    requires ParseClock(clock).Some?
    ensures IsNumber(hour, 2) && IsNumber(minute, 2) && IsNumber(second, 2)
    ensures clock == ClockText(hour, minute, second)
  {
    var parts := Split(clock, ':');
    hour, minute, second := parts[0], parts[1], parts[2];
    assert parts == [hour, minute, second];
    SplitThree(clock, ':', hour, minute, second);
  }

  lemma {:induction false} ClockWithoutDot(hour: string, minute: string, second: string)
    requires AllDigits(hour) && AllDigits(minute) && AllDigits(second)
    ensures '.' !in ClockText(hour, minute, second)
  {
  }

  lemma {:induction false} SplitsTime(f: Fields)
    requires WellFormed(f)
    ensures SplitFraction(TimeText(f)) == (ClockText(f.hour, f.minute, f.second), f.fraction)
  {
    var clock := ClockText(f.hour, f.minute, f.second);
    ClockWithoutDot(f.hour, f.minute, f.second);
    if f.fraction.Some? {
      SplitOnceAt(clock, '.', f.fraction.value);
      assert TimeText(f) == clock + ['.'] + f.fraction.value;
    } else {
      SplitOnceAbsent(clock, '.');
      assert TimeText(f) == clock;
    }
  }

  lemma {:induction false} ParseTimeOf(f: Fields)
    requires WellFormed(f)
    ensures ParseTime(TimeText(f)) == TimeOf(f)
  {
    SplitsTime(f);
    ParseClockOf(f.hour, f.minute, f.second);
  }

  lemma {:induction false} StripUtcOf(body: string, suffix: string)
    requires suffix == "Z" || suffix == "+00:00"
    ensures StripUtc(body + suffix) == Some(body)
  {
    var text := body + suffix;
    assert text[|text| - |suffix|..] == suffix && text[..|text| - |suffix|] == body;
    if suffix == "+00:00" {
      assert text[|text| - 1..] == ['0'];
    }
  }

  lemma {:induction false} StrippedUtc(text: string) returns (suffix: string)
    requires StripUtc(text).Some?
    ensures (suffix == "Z" || suffix == "+00:00") && text == StripUtc(text).value + suffix
  {
    suffix := if StripSuffix(text, "Z").Some? then "Z" else "+00:00";
    assert text == text[..|text| - |suffix|] + text[|text| - |suffix|..];
  }

  lemma {:induction false} SplitsInto(f: Fields)
    requires WellFormed(f)
    ensures var date, time := DateText(f.year, f.month, f.day), TimeText(f);
            StripUtc(TextOf(f)) == Some(date + ['T'] + time) && SplitOnce(date + ['T'] + time, 'T') == Some((date, time))
  {
    var date, time := DateText(f.year, f.month, f.day), TimeText(f);
    StripUtcOf(date + ['T'] + time, f.suffix);
    assert 'T' !in date;
    SplitOnceAt(date, 'T', time);
  }

  ghost function TimeOf(f: Fields): Option<(nat, nat)>
    requires WellFormed(f)
  {
    if NumberValue(f.hour) <= 23 && NumberValue(f.minute) <= 59 && NumberValue(f.second) <= 59
    then Some((SecondOf(f), MicrosOf(f))) else None
  }

  lemma {:induction false} ParseParts(f: Fields)
    requires WellFormed(f)
    ensures Parse(TextOf(f)) == Assemble(Some(DateOf(f)), TimeOf(f))
  {
    SplitsInto(f);
    ParseDateOf(f.year, f.month, f.day);
    ParseTimeOf(f);
  }

  /** Every well-formed text in range is accepted, with the instant its fields denote. */
  lemma {:induction false} ParseComplete(f: Fields)
    requires WellFormed(f)
    ensures Parse(TextOf(f)) == if InRange(f) then Some(Instant(f)) else None
  {
    ParseParts(f);
    AssembleParts(f);
  }

  lemma {:induction false} AssembleParts(f: Fields)
    requires WellFormed(f)
    ensures Assemble(Some(DateOf(f)), TimeOf(f)) == if InRange(f) then Some(Instant(f)) else None
  {
  }

  /** Every accepted text is a well-formed text in range, and its value is that instant. */
  lemma {:induction false} ParseSound(text: string) returns (f: Fields)
    requires Parse(text).Some?
    ensures WellFormed(f) && InRange(f) && text == TextOf(f) && Parse(text) == Some(Instant(f))
  {
    var suffix := StrippedUtc(text);
    var body := StripUtc(text).value;
    SplitOnceJoins(body, 'T');
    var (date, time) := SplitOnce(body, 'T').value;
    var year, month, day := ParsedDate(date);
    var (clock, fraction) := SplitFraction(time);
    SplitOnceJoins(time, '.');
    var hour, minute, second := ParsedClock(clock);
    f := Fields(year, month, day, hour, minute, second, fraction, suffix);
    assert time == TimeText(f);
    ParseComplete(f);
  }

  // ---- Printing then parsing ----

  /** The fields the printer writes. */
  ghost function FieldsOf(micros: int): Fields {
    var seconds, fraction := micros / 1_000_000, micros % 1_000_000;
    var date, ofDay := CivilFromDays(seconds / 86_400), seconds % 86_400;
    Fields(Padded(date.year, 4), Padded(date.month, 2), Padded(date.day, 2),
           Padded(ofDay / 3_600, 2), Padded(ofDay % 3_600 / 60, 2), Padded(ofDay % 60, 2),
           if fraction == 0 then None else Some(Padded(fraction, 6)), "Z")
  }

  ghost function YearOf(micros: int): int {
    CivilFromDays(micros / 1_000_000 / 86_400).year
  }

  lemma {:induction false} RendersFields(micros: int)
    ensures Render(micros) == TextOf(FieldsOf(micros))
  {
    var f := FieldsOf(micros);
    var date, clock := DateText(f.year, f.month, f.day), ClockText(f.hour, f.minute, f.second);
    var tail := if f.fraction.Some? then ['.'] + f.fraction.value else "";
    assert date + ['T'] + clock + tail + "Z" == date + ['T'] + (clock + tail) + "Z";
  }

  lemma {:induction false} PaddedTwo(n: nat)
    requires n < 100
    ensures IsNumber(Padded(n, 2), 2) && NumberValue(Padded(n, 2)) == n
  {
    PowersOfTen();
    PaddedFits(n, 2);
  }

  lemma {:induction false} PaddedClock(ofDay: nat)
    requires ofDay < 86_400
    ensures IsNumber(Padded(ofDay / 3_600, 2), 2) && NumberValue(Padded(ofDay / 3_600, 2)) == ofDay / 3_600 <= 23
    ensures IsNumber(Padded(ofDay % 3_600 / 60, 2), 2) && NumberValue(Padded(ofDay % 3_600 / 60, 2)) == ofDay % 3_600 / 60 <= 59
    ensures IsNumber(Padded(ofDay % 60, 2), 2) && NumberValue(Padded(ofDay % 60, 2)) == ofDay % 60 <= 59
    ensures ofDay / 3_600 * 3_600 + ofDay % 3_600 / 60 * 60 + ofDay % 60 == ofDay
  {
    ClockParts(ofDay);
    PaddedTwo(ofDay / 3_600);
    PaddedTwo(ofDay % 3_600 / 60);
    PaddedTwo(ofDay % 60);
  }

  lemma {:induction false} ClockParts(ofDay: nat)
    requires ofDay < 86_400
    ensures ofDay / 3_600 <= 23 && ofDay % 3_600 / 60 <= 59
    ensures ofDay / 3_600 * 3_600 + ofDay % 3_600 / 60 * 60 + ofDay % 60 == ofDay
  {
  }

  lemma {:induction false} PowersOfTen()
    ensures Pow10(0) == 1 && Pow10(2) == 100 && Pow10(4) == 10_000 && Pow10(6) == 1_000_000
  {
    assert Pow10(1) == 10 * Pow10(0);
    assert Pow10(3) == 10 * Pow10(2);
    assert Pow10(5) == 10 * Pow10(4);
  }

  lemma {:induction false} PaddedDate(date: Date)
    requires Valid(date) && 0 <= date.year <= 9_999
    ensures IsNumber(Padded(date.year, 4), 4) && NumberValue(Padded(date.year, 4)) == date.year
    ensures IsNumber(Padded(date.month, 2), 2) && NumberValue(Padded(date.month, 2)) == date.month
    ensures IsNumber(Padded(date.day, 2), 2) && NumberValue(Padded(date.day, 2)) == date.day
  {
    PowersOfTen();
    PaddedFits(date.year, 4);
    PaddedFits(date.month, 2);
    PaddedFits(date.day, 2);
  }

  lemma {:induction false} PaddedFraction(fraction: nat)
    requires fraction < 1_000_000
    ensures IsNumber(Padded(fraction, 6), 6) && NumberValue(Padded(fraction, 6)) * Pow10(0) == fraction
  {
    PowersOfTen();
    PaddedFits(fraction, 6);
  }

  /** A date and a second of the day that are in range, as the fields that spell them. */
  lemma {:induction false} Spelled(f: Fields, date: Date, ofDay: nat)
    requires Valid(date) && 0 <= date.year <= 9_999 && ofDay < 86_400
    requires f.year == Padded(date.year, 4) && f.month == Padded(date.month, 2) && f.day == Padded(date.day, 2)
    requires f.hour == Padded(ofDay / 3_600, 2) && f.minute == Padded(ofDay % 3_600 / 60, 2) && f.second == Padded(ofDay % 60, 2)
    requires f.suffix == "Z" && (f.fraction.Some? ==> IsNumber(f.fraction.value, 6))
    ensures WellFormed(f) && InRange(f) && DateOf(f) == date && SecondOf(f) == ofDay
  {
    PaddedDate(date);
    PaddedClock(ofDay);
  }

  lemma {:induction false} FieldsInRange(micros: int)
    requires 0 <= YearOf(micros) <= 9_999
    ensures WellFormed(FieldsOf(micros)) && InRange(FieldsOf(micros)) && Instant(FieldsOf(micros)) == micros
  {
    var seconds, fraction := micros / 1_000_000, micros % 1_000_000;
    CivilRoundTrip(seconds / 86_400);
    PaddedFraction(fraction);
    Spelled(FieldsOf(micros), CivilFromDays(seconds / 86_400), seconds % 86_400);
    Joined(micros);
  }

  lemma {:induction false} Joined(micros: int)
    ensures (micros / 1_000_000 / 86_400 * 86_400 + micros / 1_000_000 % 86_400) * 1_000_000 + micros % 1_000_000 == micros
  {
    var seconds := micros / 1_000_000;
    assert seconds / 86_400 * 86_400 + seconds % 86_400 == seconds;
  }

  lemma {:induction false} SignedYear(f: Fields, year: int)
    requires WellFormed(f) && (year < 0 || year > 9_999)
    ensures forall rest: string :: Padded(year, 4) + ['-'] + rest != TextOf(f)
  {
    var text := TextOf(f);
    assert text[..4] == f.year && text[4] == '-';
    if year < 0 {
      assert Padded(year, 4)[0] == '-';
      assert IsDigit(text[0]);
    } else {
      PowersOfTen();
      DecimalLength(year, 4);
      assert Padded(year, 4) == Decimal(year);
      assert IsDigit(Decimal(year)[4]);
    }
  }

  /** What is printed can be read back exactly for years 0 to 9999, and is refused otherwise. */
  lemma {:induction false} PrintThenParse(micros: int)
    ensures Parse(Render(micros)) == if 0 <= YearOf(micros) <= 9_999 then Some(micros) else None
  {
    RendersFields(micros);
    if 0 <= YearOf(micros) <= 9_999 {
      FieldsInRange(micros);
      ParseComplete(FieldsOf(micros));
    } else if Parse(Render(micros)).Some? {
      var f := ParseSound(Render(micros));
      RenderedYear(micros);
      SignedYear(f, YearOf(micros));
    }
  }

  /** Six digits of microseconds exactly when there are any, and a `Z`. */
  ghost predicate Canonical(f: Fields, micros: int) {
    && f.suffix == "Z" && (f.fraction.None? <==> micros % 1_000_000 == 0)
    && (f.fraction.Some? ==> |f.fraction.value| == 6)
  }

  /** The printed text of an instant is, for years 0 to 9999, the one canonical text that denotes it. */
  lemma {:induction false} PrintsCanonical(micros: int) returns (f: Fields)
    requires 0 <= YearOf(micros) <= 9_999
    ensures Render(micros) == TextOf(f)
    ensures WellFormed(f) && InRange(f) && Instant(f) == micros && Canonical(f, micros)
  {
    f := FieldsOf(micros);
    RendersFields(micros);
    FieldsInRange(micros);
    PaddedFraction(micros % 1_000_000);
  }

  /** In any year, what is printed spells the parts of the instant: the year with its sign in at least
      four characters, everything else in its own width. */
  lemma {:induction false} PrintsParts(micros: int) returns (f: Fields)
    ensures Render(micros) == TextOf(f) && Canonical(f, micros)
    ensures Spells(f.year, YearOf(micros), 4)
    ensures var date, ofDay := CivilFromDays(micros / 1_000_000 / 86_400), micros / 1_000_000 % 86_400;
            && IsNumber(f.month, 2) && NumberValue(f.month) == date.month && IsNumber(f.day, 2) && NumberValue(f.day) == date.day
            && IsNumber(f.hour, 2) && NumberValue(f.hour) == ofDay / 3_600
            && IsNumber(f.minute, 2) && NumberValue(f.minute) == ofDay % 3_600 / 60
            && IsNumber(f.second, 2) && NumberValue(f.second) == ofDay % 60
    ensures f.fraction.Some? ==> IsNumber(f.fraction.value, 6) && NumberValue(f.fraction.value) == micros % 1_000_000
  {
    f := FieldsOf(micros);
    RendersFields(micros);
    PaddedSpells(YearOf(micros), 4);
    CivilRoundTrip(micros / 1_000_000 / 86_400);
    PaddedDay(CivilFromDays(micros / 1_000_000 / 86_400));
    PaddedClock(micros / 1_000_000 % 86_400);
    PaddedFraction(micros % 1_000_000);
    PowersOfTen();
  }

  lemma {:induction false} PaddedDay(date: Date)
    requires Valid(date)
    ensures IsNumber(Padded(date.month, 2), 2) && NumberValue(Padded(date.month, 2)) == date.month
    ensures IsNumber(Padded(date.day, 2), 2) && NumberValue(Padded(date.day, 2)) == date.day
  {
    PaddedTwo(date.month);
    PaddedTwo(date.day);
  }

  ghost function EndOf(f: Fields): nat {
    if f.fraction.Some? then 20 + |f.fraction.value| else 19
  }

  /** The parts of a text by position: `YYYY-MM-DDTHH:MM:SS`, a fraction if any, and the suffix. */
  ghost predicate PartsAt(text: string, f: Fields) {
    && |text| == EndOf(f) + |f.suffix|
    && text[0..4] == f.year && text[4] == '-' && text[5..7] == f.month && text[7] == '-' && text[8..10] == f.day
    && text[10] == 'T' && text[11..13] == f.hour && text[13] == ':' && text[14..16] == f.minute
    && text[16] == ':' && text[17..19] == f.second
    && (f.fraction.Some? ==> text[19] == '.' && text[20..EndOf(f)] == f.fraction.value)
    && text[EndOf(f)..] == f.suffix
  }

  /** Where the parts of a text are. */
  lemma {:induction false} Positions(f: Fields)
    requires WellFormed(f)
    ensures PartsAt(TextOf(f), f)
  {
    var date, clock, time, text := DateText(f.year, f.month, f.day), ClockText(f.hour, f.minute, f.second), TimeText(f), TextOf(f);
    DatePositions(f.year, f.month, f.day);
    ClockPositions(f.hour, f.minute, f.second);
    InParts(date, time, f.suffix);
    Slice(text, 0, 10, 0, 4);
    Slice(text, 0, 10, 5, 7);
    Slice(text, 0, 10, 8, 10);
    assert text[4] == date[4] && text[7] == date[7];
    assert text[11..19] == clock;
    Slice(text, 11, 19, 0, 2);
    Slice(text, 11, 19, 3, 5);
    Slice(text, 11, 19, 6, 8);
    assert text[13] == clock[2] && text[16] == clock[5];
    if f.fraction.Some? { FractionPosition(text, f, clock); }
  }

  lemma {:induction false} InParts(date: string, time: string, suffix: string)
    requires |date| == 10 && |time| >= 8
    ensures var text := date + ['T'] + time + suffix;
            && |text| == 11 + |time| + |suffix| && text[0..10] == date && text[10] == 'T'
            && text[11..19] == time[0..8] && text[11..11 + |time|] == time && text[11 + |time|..] == suffix
  {
    var text := date + ['T'] + time + suffix;
    assert text[11..11 + |time|] == time;
    Slice(text, 11, 11 + |time|, 0, 8);
  }

  lemma {:induction false} FractionPosition(text: string, f: Fields, clock: string)
    requires f.fraction.Some? && |clock| == 8 && TimeText(f) == clock + ['.'] + f.fraction.value
    requires |text| >= 11 + |TimeText(f)| && text[11..11 + |TimeText(f)|] == TimeText(f)
    ensures text[19] == '.' && text[20..20 + |f.fraction.value|] == f.fraction.value
  {
    var time := TimeText(f);
    assert time[8] == '.' && time[9..] == f.fraction.value;
    assert text[19] == text[11..11 + |time|][8];
    Slice(text, 11, 11 + |time|, 9, |time|);
  }

  lemma {:induction false} Slice(text: string, i: nat, j: nat, a: nat, b: nat)
    requires i <= j <= |text| && a <= b <= j - i
    ensures text[i..j][a..b] == text[i + a..i + b]
  {
    var inner, outer := text[i..j][a..b], text[i + a..i + b];
    assert forall k :: 0 <= k < b - a ==> inner[k] == outer[k];
  }

  lemma {:induction false} DatePositions(year: string, month: string, day: string)
    requires |year| == 4 && |month| == 2 && |day| == 2
    ensures var text := DateText(year, month, day);
            && |text| == 10 && text[0..4] == year && text[4] == '-' && text[5..7] == month && text[7] == '-' && text[8..10] == day
  {
    var text := DateText(year, month, day);
    assert text[0..4] == year && text[5..7] == month && text[8..10] == day;
  }

  lemma {:induction false} ClockPositions(hour: string, minute: string, second: string)
    requires |hour| == 2 && |minute| == 2 && |second| == 2
    ensures var text := ClockText(hour, minute, second);
            && |text| == 8 && text[0..2] == hour && text[2] == ':' && text[3..5] == minute && text[5] == ':' && text[6..8] == second
  {
    var text := ClockText(hour, minute, second);
    assert text[0..2] == hour && text[3..5] == minute && text[6..8] == second;
  }

  lemma {:induction false} LastDigit(x: nat, d: nat, y: nat, e: nat)
    requires 10 * x + d == 10 * y + e && d < 10 && e < 10
    ensures x == y && d == e
  {
  }

  /** Digits of one width are determined by their value. */
  lemma {:induction false} DigitsUnique(a: string, b: string)
    requires AllDigits(a) && AllDigits(b) && |a| == |b| && NumberValue(a) == NumberValue(b)
    ensures a == b
  {
    if a != [] {
      var n := |a| - 1;
      LastDigit(NumberValue(a[..n]), DigitValue(a[n]), NumberValue(b[..n]), DigitValue(b[n]));
      DigitsUnique(a[..n], b[..n]);
      assert a == a[..n] + [a[n]] && b == b[..n] + [b[n]];
    }
  }

  /** The parts of an instant. */
  lemma {:induction false} InstantParts(f: Fields)
    requires WellFormed(f) && InRange(f)
    ensures Instant(f) % 1_000_000 == MicrosOf(f)
    ensures Instant(f) / 1_000_000 % 86_400 == SecondOf(f)
    ensures CivilFromDays(Instant(f) / 1_000_000 / 86_400) == DateOf(f)
    ensures SecondOf(f) / 3_600 == NumberValue(f.hour) && SecondOf(f) % 3_600 / 60 == NumberValue(f.minute)
    ensures SecondOf(f) % 60 == NumberValue(f.second)
  {
    AcceptedMicros(f);
    ClockSplit(NumberValue(f.hour), NumberValue(f.minute), NumberValue(f.second));
    InstantSplit(DaysFromCivil(DateOf(f)), SecondOf(f), MicrosOf(f));
    DaysRoundTrip(DateOf(f));
  }

  lemma {:induction false} InstantSplit(days: int, second: nat, micros: nat)
    requires second < 86_400 && micros < 1_000_000
    ensures var instant := (days * 86_400 + second) * 1_000_000 + micros;
            instant % 1_000_000 == micros && instant / 1_000_000 % 86_400 == second && instant / 1_000_000 / 86_400 == days
  {
    var instant := (days * 86_400 + second) * 1_000_000 + micros;
    assert instant / 1_000_000 == days * 86_400 + second;
  }

  lemma {:induction false} ClockSplit(hour: nat, minute: nat, second: nat)
    requires hour <= 23 && minute <= 59 && second <= 59
    ensures var ofDay := hour * 3_600 + minute * 60 + second;
            ofDay < 86_400 && ofDay / 3_600 == hour && ofDay % 3_600 / 60 == minute && ofDay % 60 == second
  {
  }

  lemma {:induction false} SameFraction(f: Fields, g: Fields, micros: int)
    requires WellFormed(f) && WellFormed(g) && Canonical(f, micros) && Canonical(g, micros) && MicrosOf(f) == MicrosOf(g)
    ensures f.fraction == g.fraction
  {
    PowersOfTen();
    if f.fraction.Some? { DigitsUnique(f.fraction.value, g.fraction.value); }
  }

  /** An instant has one canonical text. */
  lemma {:induction false} CanonicalUnique(f: Fields, g: Fields)
    requires WellFormed(f) && InRange(f) && WellFormed(g) && InRange(g) && Instant(f) == Instant(g)
    requires Canonical(f, Instant(f)) && Canonical(g, Instant(g))
    ensures f == g
  {
    InstantParts(f);
    InstantParts(g);
    DigitsUnique(f.year, g.year);
    DigitsUnique(f.month, g.month);
    DigitsUnique(f.day, g.day);
    DigitsUnique(f.hour, g.hour);
    DigitsUnique(f.minute, g.minute);
    DigitsUnique(f.second, g.second);
    SameFraction(f, g, Instant(f));
  }

  /** So a text is what the printer writes exactly when it is the canonical text of its instant. */
  lemma {:induction false} PrintedExactly(f: Fields)
    requires WellFormed(f) && InRange(f)
    ensures Render(Instant(f)) == TextOf(f) <==> Canonical(f, Instant(f))
  {
    AcceptedYear(f);
    var g := PrintsCanonical(Instant(f));
    if Canonical(f, Instant(f)) {
      CanonicalUnique(f, g);
    } else if TextOf(g) == TextOf(f) {
      SameText(f, g);
    }
  }

  lemma {:induction false} SameText(f: Fields, g: Fields)
    requires WellFormed(f) && WellFormed(g) && TextOf(f) == TextOf(g)
    ensures f == g
  {
    Positions(f);
    Positions(g);
    SameParts(TextOf(f), f, g);
  }

  lemma {:induction false} SameParts(text: string, f: Fields, g: Fields)
    requires WellFormed(f) && WellFormed(g) && PartsAt(text, f) && PartsAt(text, g)
    ensures f == g
  {
    if f.fraction.Some? && g.fraction.Some? {
      assert text[20..] == f.fraction.value + f.suffix && text[20..] == g.fraction.value + g.suffix;
      SameTail(f, g);
    }
  }

  lemma {:induction false} SameTail(f: Fields, g: Fields)
    requires WellFormed(f) && WellFormed(g) && f.fraction.Some? && g.fraction.Some?
    requires f.fraction.value + f.suffix == g.fraction.value + g.suffix
    ensures f.fraction == g.fraction && f.suffix == g.suffix
  {
    var x, y := f.fraction.value, g.fraction.value;
    var tail := x + f.suffix;
    assert tail == y + g.suffix;
    assert !IsDigit(tail[|x|]) && !IsDigit(tail[|y|]);
    assert forall k :: 0 <= k < |x| ==> IsDigit(x[k]) && tail[k] == x[k];
    assert forall k :: 0 <= k < |y| ==> IsDigit(y[k]) && tail[k] == y[k];
    assert tail[..|x|] == x && tail[..|y|] == y && tail[|x|..] == f.suffix && tail[|y|..] == g.suffix;
  }

  lemma {:induction false} RenderedYear(micros: int)
    ensures exists rest: string :: Render(micros) == Padded(YearOf(micros), 4) + ['-'] + rest
  {
    RendersFields(micros);
    var rest := StartsWithYear(FieldsOf(micros));
  }

  lemma {:induction false} StartsWithYear(f: Fields) returns (rest: string)
    ensures TextOf(f) == f.year + ['-'] + rest
  {
    rest := f.month + ['-'] + f.day + ['T'] + TimeText(f) + f.suffix;
  }

  lemma {:induction false} AcceptedYear(f: Fields)
    requires WellFormed(f) && InRange(f)
    ensures YearOf(Instant(f)) == NumberValue(f.year) <= 9_999
  {
    PowersOfTen();
    ValueBelow(f.year);
    AcceptedMicros(f);
    var days, second, micros := DaysFromCivil(DateOf(f)), SecondOf(f), MicrosOf(f);
    assert Instant(f) / 1_000_000 == days * 86_400 + second;
    assert (days * 86_400 + second) / 86_400 == days;
    DaysRoundTrip(DateOf(f));
  }

  lemma {:induction false} AcceptedMicros(f: Fields)
    requires WellFormed(f)
    ensures MicrosOf(f) < 1_000_000
  {
    PowersOfTen();
    if f.fraction.Some? {
      var digits := f.fraction.value;
      ValueBelow(digits);
      Pow10Add(|digits|, 6 - |digits|);
      assert NumberValue(digits) * Pow10(6 - |digits|) < Pow10(|digits|) * Pow10(6 - |digits|);
    }
  }

  lemma {:induction false} Pow10Add(a: nat, b: nat)
    ensures Pow10(a + b) == Pow10(a) * Pow10(b)
  {
    if a > 0 {
      Pow10Add(a - 1, b);
      TenTimes(Pow10(a - 1), Pow10(b));
    }
  }

  lemma {:induction false} TenTimes(x: nat, y: nat)
    ensures 10 * x * y == 10 * (x * y)
  {
  }

  /** Any accepted text re-renders to a text that is accepted with the same instant. */
  lemma {:induction false} ParseThenPrint(text: string)
    requires Parse(text).Some?
    ensures Parse(Render(Parse(text).value)) == Parse(text)
  {
    var f := ParseSound(text);
    AcceptedYear(f);
    PrintThenParse(Instant(f));
  }
}
