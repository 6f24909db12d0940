/** Timestamps as the pipeline sees them: the result of
    `datetime.fromisoformat`, the time of day compared against the opening
    window, and the `'%Y-%m-%d %H:%M:%S+00'` text stored in the database. */
module Clock {
  import opened Events
  import Decimal

  function DaysInMonth(year: int, month: int): int {
    if month == 2 then
      (if year % 4 == 0 && (year % 100 != 0 || year % 400 == 0) then 29 else 28)
    else if month == 4 || month == 6 || month == 9 || month == 11 then 30
    else 31
  }

  /** A `datetime` value: a calendar date, a time of day down to the
      microsecond and, for an aware value, its UTC offset in seconds. */
  datatype DateTime = DateTime(year: int, month: int, day: int,
                               hour: int, minute: int, second: int, microsecond: int,
                               utcOffset: Option<int>)
  {
    predicate Valid() {
      && 1 <= year <= 9999 && 1 <= month <= 12 && 1 <= day <= DaysInMonth(year, month)
      && 0 <= hour < 24 && 0 <= minute < 60 && 0 <= second < 60
      && 0 <= microsecond < 1000000
      && (utcOffset.Some? ==> -86400 < utcOffset.value < 86400)
    }
  }

  /** What a successful `datetime.fromisoformat` can return. */
  type ParsedDateTime = d: DateTime | d.Valid() witness DateTime(1, 1, 1, 0, 0, 0, 0, None)

  /** A naive `datetime.time` value. */
  datatype TimeOfDay = TimeOfDay(hour: int, minute: int, second: int, microsecond: int)
  {
    predicate Valid() {
      0 <= hour < 24 && 0 <= minute < 60 && 0 <= second < 60 && 0 <= microsecond < 1000000
    }
  }

  /** `dt.time()`: the wall-clock time of day; the UTC offset is dropped. */
  function TimeOf(dt: ParsedDateTime): (t: TimeOfDay)
    ensures t.Valid()
  {
    TimeOfDay(dt.hour, dt.minute, dt.second, dt.microsecond)
  }

  /** `a <= b` on `datetime.time`: field by field, hour first. */
  predicate NotAfter(a: TimeOfDay, b: TimeOfDay) {
    if a.hour != b.hour then a.hour < b.hour
    else if a.minute != b.minute then a.minute < b.minute
    else if a.second != b.second then a.second < b.second
    else a.microsecond <= b.microsecond
  }

  /** `OPEN_START = time(8, 45)` and `OPEN_END = time(18, 15)`. */
  const OpenStart := TimeOfDay(8, 45, 0, 0)
  const OpenEnd := TimeOfDay(18, 15, 0, 0)

  /** `OPEN_START <= t <= OPEN_END`. */
  predicate InOpeningHours(t: TimeOfDay) {
    NotAfter(OpenStart, t) && NotAfter(t, OpenEnd)
  }

  /** Microseconds since midnight. */
  function Micros(t: TimeOfDay): int {
    ((t.hour * 60 + t.minute) * 60 + t.second) * 1000000 + t.microsecond
  }

  /** The field-by-field order on times of day is the order of the instants
      they name. */
  lemma NotAfterIsMicrosOrder(a: TimeOfDay, b: TimeOfDay)
    requires a.Valid() && b.Valid()
    ensures NotAfter(a, b) <==> Micros(a) <= Micros(b)
  {
    var am := (a.hour * 60 + a.minute) * 60 + a.second;
    var bm := (b.hour * 60 + b.minute) * 60 + b.second;
    assert Micros(a) == am * 1000000 + a.microsecond;
    assert Micros(b) == bm * 1000000 + b.microsecond;
    if a.hour != b.hour {
      assert a.hour < b.hour <==> am < bm;
    } else if a.minute != b.minute {
      assert a.minute < b.minute <==> am < bm;
    }
  }

  /** The opening window is the closed interval from 08:45:00.000000 to
      18:15:00.000000: both ends are inside it, and one microsecond past the
      end is outside. */
  lemma OpeningWindowIsClosed(t: TimeOfDay)
    requires t.Valid()
    ensures InOpeningHours(t) <==> 31500000000 <= Micros(t) <= 65700000000
    ensures InOpeningHours(OpenStart) && InOpeningHours(OpenEnd)
    ensures !InOpeningHours(TimeOfDay(18, 15, 0, 1)) && !InOpeningHours(TimeOfDay(8, 44, 59, 999999))
  {
    NotAfterIsMicrosOrder(OpenStart, t);
    NotAfterIsMicrosOrder(t, OpenEnd);
  }

  /** A timestamp at second precision, as stored. */
  datatype Stamp = Stamp(year: int, month: int, day: int, hour: int, minute: int, second: int)
  {
    /** Every field fits its zero-padded width in the stored text. */
    predicate Fits() {
      0 <= year < 10000 && 0 <= month < 100 && 0 <= day < 100
      && 0 <= hour < 100 && 0 <= minute < 100 && 0 <= second < 100
    }
  }

  /** The fields `'%Y-%m-%d %H:%M:%S'` prints: the microseconds and the UTC
      offset are dropped, and the wall-clock fields are kept as they are. */
  function Truncate(dt: ParsedDateTime): (t: Stamp)
    ensures t.Fits()
  {
    Stamp(dt.year, dt.month, dt.day, dt.hour, dt.minute, dt.second)
  }

  /** `'%Y-%m-%d %H:%M:%S+00'`: six zero-padded fields and a literal suffix,
      always 22 characters with the separators at fixed places. */
  function FormatStamp(t: Stamp): (s: string)
    requires t.Fits()
    ensures |s| == 22 && s[4] == '-' && s[7] == '-' && s[10] == ' ' && s[13] == ':' && s[16] == ':'
    ensures s[19..] == "+00"
  {
    Decimal.Digits(t.year, 4) + "-" + Decimal.Digits(t.month, 2) + "-" + Decimal.Digits(t.day, 2)
    + " " + Decimal.Digits(t.hour, 2) + ":" + Decimal.Digits(t.minute, 2) + ":" + Decimal.Digits(t.second, 2)
    + "+00"
  }

  /** Reads a stored timestamp back: the inverse of `FormatStamp`. */
  function ParseStamp(s: string): Option<Stamp> {
    if |s| == 22 && s[4] == '-' && s[7] == '-' && s[10] == ' ' && s[13] == ':' && s[16] == ':'
       && s[19..] == "+00"
       && Decimal.AllDigits(s[0..4]) && Decimal.AllDigits(s[5..7]) && Decimal.AllDigits(s[8..10])
       && Decimal.AllDigits(s[11..13]) && Decimal.AllDigits(s[14..16]) && Decimal.AllDigits(s[17..19])
    then
      Some(Stamp(Decimal.Value(s[0..4]), Decimal.Value(s[5..7]), Decimal.Value(s[8..10]),
                 Decimal.Value(s[11..13]), Decimal.Value(s[14..16]), Decimal.Value(s[17..19])))
    else None
  }

  lemma FormatStampParses(t: Stamp)
    requires t.Fits()
    ensures |FormatStamp(t)| == 22 && ParseStamp(FormatStamp(t)) == Some(t)
  {
    var s := FormatStamp(t);
    assert s[0..4] == Decimal.Digits(t.year, 4);
    assert s[5..7] == Decimal.Digits(t.month, 2);
    assert s[8..10] == Decimal.Digits(t.day, 2);
    assert s[11..13] == Decimal.Digits(t.hour, 2);
    assert s[14..16] == Decimal.Digits(t.minute, 2);
    assert s[17..19] == Decimal.Digits(t.second, 2);
    assert s[19..] == "+00";
  }

  /** Every string `ParseStamp` accepts is the rendering of what it reads, so
      stored timestamps and `Stamp`s correspond one to one. */
  lemma {:induction false} ParseStampFormats(s: string)
    requires ParseStamp(s).Some?
    ensures ParseStamp(s).value.Fits() && FormatStamp(ParseStamp(s).value) == s
  {
    var t := ParseStamp(s).value;
    Decimal.DigitsOfValue(s[0..4]);
    Decimal.DigitsOfValue(s[5..7]);
    Decimal.DigitsOfValue(s[8..10]);
    Decimal.DigitsOfValue(s[11..13]);
    Decimal.DigitsOfValue(s[14..16]);
    Decimal.DigitsOfValue(s[17..19]);
    assert s == s[0..4] + "-" + s[5..7] + "-" + s[8..10] + " " + s[11..13] + ":" + s[14..16] + ":"
                + s[17..19] + "+00";
  }

  /** `format_time`: the parsed timestamp printed with `'%Y-%m-%d %H:%M:%S+00'`.
      The text reads back as the wall-clock date and time to the second; the
      suffix `+00` is a literal, so no offset is applied. */
  function FormatTime(dt: ParsedDateTime): (s: string)
    ensures |s| == 22 && ParseStamp(s) == Some(Truncate(dt))
    ensures s[19..] == "+00"
  {
    FormatStampParses(Truncate(dt));
    FormatStamp(Truncate(dt))
  }
}
