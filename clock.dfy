/** Naive date-times at second resolution, as Python's `datetime` holds
    them, and the three things the ledger does with them: format as
    `%Y%m%d%H%M%S`, parse that format back, render ISO-8601, and shift by a
    time-zone offset of less than a day. */
module Clock {
  import opened Wrappers
  import opened Text

  const MinYear := 1
  const MaxYear := 9999
  const MinutesPerDay := 24 * 60

  datatype DateTime = DateTime(year: int, month: int, day: int, hour: int, minute: int, second: int) {
    /** The values a `datetime` object can hold (seconds up to 59). */
    predicate Valid() {
      && MinYear <= year <= MaxYear
      && 1 <= month <= 12
      && 1 <= day <= DaysInMonth(year, month)
      && 0 <= hour < 24
      && 0 <= minute < 60
      && 0 <= second < 60
    }
  }

  predicate IsLeapYear(y: int) {
    y % 4 == 0 && (y % 100 != 0 || y % 400 == 0)
  }

  function DaysInMonth(y: int, m: int): (n: int)
    requires 1 <= m <= 12
    ensures 28 <= n <= 31
  {
    if m == 2 then (if IsLeapYear(y) then 29 else 28)
    else if m == 4 || m == 6 || m == 9 || m == 11 then 30
    else 31
  }


  // ---------------------------------------------------------------------
  // strftime('%Y%m%d%H%M%S') and strptime with the same format

  /** `dt.strftime('%Y%m%d%H%M%S')`: fourteen digits, hence no '-'. */
  function ToTimestamp(dt: DateTime): (s: string)
    requires dt.Valid()
    ensures |s| == 14 && AllDigits(s) && '-' !in s
  {
    var s := PadDecimal(dt.year, 4) + PadDecimal(dt.month, 2) + PadDecimal(dt.day, 2)
             + PadDecimal(dt.hour, 2) + PadDecimal(dt.minute, 2) + PadDecimal(dt.second, 2);
    assert forall i :: 0 <= i < |s| ==> s[i] != '-' by {
      assert AllDigits(s);
    }
    s
  }

  /** `datetime.strptime(s, '%Y%m%d%H%M%S')` on fourteen-digit input:
      `None` where it raises. */
  function ParseTimestamp(s: string): (r: Option<DateTime>)
    ensures r.Some? ==> r.value.Valid()
  {
    if |s| == 14 && AllDigits(s) then
      var dt := DateTime(DecimalValue(s[0..4]), DecimalValue(s[4..6]), DecimalValue(s[6..8]),
                         DecimalValue(s[8..10]), DecimalValue(s[10..12]), DecimalValue(s[12..14]));
      if dt.Valid() then Some(dt) else None
    else
      None
  }

  /** Every formatted date-time parses back to itself. */
  lemma TimestampRoundTrip(dt: DateTime)
    requires dt.Valid()
    ensures ParseTimestamp(ToTimestamp(dt)) == Some(dt)
  {
    var y, mo, d := PadDecimal(dt.year, 4), PadDecimal(dt.month, 2), PadDecimal(dt.day, 2);
    var h, mi, se := PadDecimal(dt.hour, 2), PadDecimal(dt.minute, 2), PadDecimal(dt.second, 2);
    var s := ToTimestamp(dt);
    assert s == y + mo + d + h + mi + se;
    assert s[0..4] == y && s[4..6] == mo && s[6..8] == d;
    assert s[8..10] == h && s[10..12] == mi && s[12..14] == se;
    PadDecimalValue(dt.year, 4);
    PadDecimalValue(dt.month, 2);
    PadDecimalValue(dt.day, 2);
    PadDecimalValue(dt.hour, 2);
    PadDecimalValue(dt.minute, 2);
    PadDecimalValue(dt.second, 2);
  }

  /** The six fixed-width fields of a fourteen-character timestamp put back
      together. */
  lemma TimestampFields(s: string)
    requires |s| == 14
    ensures s == s[0..4] + s[4..6] + s[6..8] + s[8..10] + s[10..12] + s[12..14]
  {
  }

  /** Each field of a string the parser accepts is the zero-padded
      rendering of the number read from it. */
  lemma ParsedFields(s: string)
    requires ParseTimestamp(s).Some?
    ensures var dt := ParseTimestamp(s).value;
            && PadDecimal(dt.year, 4) == s[0..4] && PadDecimal(dt.month, 2) == s[4..6]
            && PadDecimal(dt.day, 2) == s[6..8] && PadDecimal(dt.hour, 2) == s[8..10]
            && PadDecimal(dt.minute, 2) == s[10..12] && PadDecimal(dt.second, 2) == s[12..14]
  {
    DecimalValuePad(s[0..4]);
    DecimalValuePad(s[4..6]);
    DecimalValuePad(s[6..8]);
    DecimalValuePad(s[8..10]);
    DecimalValuePad(s[10..12]);
    DecimalValuePad(s[12..14]);
  }

  /** A string the parser accepts is exactly the formatting of what it
      parsed to: the accepted language is the image of `ToTimestamp`. */
  lemma TimestampCanonical(s: string)
    requires ParseTimestamp(s).Some?
    ensures ParseTimestamp(s).value.Valid() && ToTimestamp(ParseTimestamp(s).value) == s
  {
    ParsedFields(s);
    TimestampFields(s);
  }

  /** `dt.isoformat()` for a date-time without microseconds:
      `YYYY-MM-DDTHH:MM:SS`, the same digits as `ToTimestamp` with separators. */
  function IsoFormat(dt: DateTime): (s: string)
    requires dt.Valid()
    ensures |s| == 19
  {
    PadDecimal(dt.year, 4) + "-" + PadDecimal(dt.month, 2) + "-" + PadDecimal(dt.day, 2) + "T"
    + PadDecimal(dt.hour, 2) + ":" + PadDecimal(dt.minute, 2) + ":" + PadDecimal(dt.second, 2)
  }

  /** The ISO rendering carries the same digits as the compact timestamp,
      with separators at fixed places. */
  lemma IsoFormatDigits(dt: DateTime)
    requires dt.Valid()
    ensures var s := IsoFormat(dt);
            && |s| == 19
            && s[..4] + s[5..7] + s[8..10] + s[11..13] + s[14..16] + s[17..] == ToTimestamp(dt)
            && s[4] == '-' && s[7] == '-' && s[10] == 'T' && s[13] == ':' && s[16] == ':'
  {
    var y, mo, d := PadDecimal(dt.year, 4), PadDecimal(dt.month, 2), PadDecimal(dt.day, 2);
    var h, mi, se := PadDecimal(dt.hour, 2), PadDecimal(dt.minute, 2), PadDecimal(dt.second, 2);
    var s := IsoFormat(dt);
    assert s == y + "-" + mo + "-" + d + "T" + h + ":" + mi + ":" + se;
    assert s[..4] == y && s[5..7] == mo && s[8..10] == d;
    assert s[11..13] == h && s[14..16] == mi && s[17..] == se;
  }

  // ---------------------------------------------------------------------
  // datetime + timedelta for offsets of less than one day

  function MinuteOfDay(dt: DateTime): int {
    dt.hour * 60 + dt.minute
  }

  predicate IsFirstDay(dt: DateTime) {
    dt.year == MinYear && dt.month == 1 && dt.day == 1
  }

  predicate IsLastDay(dt: DateTime) {
    dt.year == MaxYear && dt.month == 12 && dt.day == 31
  }

  /** Orders dates: year, then month, then day (months and days stay below
      100, so no two dates share a key). */
  function DateKey(dt: DateTime): int {
    dt.year * 10000 + dt.month * 100 + dt.day
  }

  /** The same time of day on the next calendar day (the least valid date
      after `dt`, by `NextDayLeast`); `None` past year 9999. */
  function NextDay(dt: DateTime): (r: Option<DateTime>)
    requires dt.Valid()
    ensures r.None? <==> IsLastDay(dt)
    ensures r.Some? ==> r.value.Valid() && r.value.hour == dt.hour && r.value.minute == dt.minute && r.value.second == dt.second
    ensures r.Some? ==> DateKey(dt) < DateKey(r.value)
  {
    if dt.day < DaysInMonth(dt.year, dt.month) then Some(dt.(day := dt.day + 1))
    else if dt.month < 12 then Some(dt.(month := dt.month + 1, day := 1))
    else if dt.year < MaxYear then Some(dt.(year := dt.year + 1, month := 1, day := 1))
    else None
  }

  /** The same time of day on the previous calendar day (the greatest valid
      date before `dt`, by `PrevDayGreatest`); `None` before year 1. */
  function PrevDay(dt: DateTime): (r: Option<DateTime>)
    requires dt.Valid()
    ensures r.None? <==> IsFirstDay(dt)
    ensures r.Some? ==> r.value.Valid() && r.value.hour == dt.hour && r.value.minute == dt.minute && r.value.second == dt.second
    ensures r.Some? ==> DateKey(r.value) < DateKey(dt)
  {
    if dt.day > 1 then Some(dt.(day := dt.day - 1))
    else if dt.month > 1 then Some(dt.(month := dt.month - 1, day := DaysInMonth(dt.year, dt.month - 1)))
    else if dt.year > MinYear then Some(dt.(year := dt.year - 1, month := 12, day := 31))
    else None
  }

  /** No valid date lies strictly between a day and the next one. */
  lemma NextDayLeast(dt: DateTime, d: DateTime)
    requires dt.Valid() && NextDay(dt).Some? && d.Valid() && DateKey(dt) < DateKey(d)
    ensures DateKey(NextDay(dt).value) <= DateKey(d)
  {
  }

  /** No valid date lies strictly between a day and the previous one. */
  lemma PrevDayGreatest(dt: DateTime, d: DateTime)
    requires dt.Valid() && PrevDay(dt).Some? && d.Valid() && DateKey(d) < DateKey(dt)
    ensures DateKey(d) <= DateKey(PrevDay(dt).value)
  {
    if dt.day == 1 && dt.month > 1 {
      // d lies in an earlier month of the same year or in an earlier year
      if d.year == dt.year && d.month == dt.month - 1 {
        assert d.day <= DaysInMonth(dt.year, dt.month - 1);
      }
    } else if dt.day == 1 {
      assert d.year < dt.year;
    }
  }

  lemma PrevNextDay(dt: DateTime)
    requires dt.Valid() && NextDay(dt).Some?
    ensures PrevDay(NextDay(dt).value) == Some(dt)
  {
  }

  lemma NextPrevDay(dt: DateTime)
    requires dt.Valid() && PrevDay(dt).Some?
    ensures NextDay(PrevDay(dt).value) == Some(dt)
  {
  }

  /** `dt + timedelta(minutes=delta)` for |delta| below one day: `None` where
      Python raises OverflowError, which happens only when the result would
      leave the years 1..9999. */
  function AddMinutes(dt: DateTime, delta: int): (r: Option<DateTime>)
    requires dt.Valid() && -MinutesPerDay < delta < MinutesPerDay
    ensures r.None? <==>
      (MinuteOfDay(dt) + delta < 0 && IsFirstDay(dt)) || (MinuteOfDay(dt) + delta >= MinutesPerDay && IsLastDay(dt))
    ensures r.Some? ==> r.value.Valid() && r.value.second == dt.second
    ensures r.Some? ==> MinuteOfDay(r.value) == (MinuteOfDay(dt) + delta) % MinutesPerDay
    ensures r.Some? && 0 <= MinuteOfDay(dt) + delta < MinutesPerDay ==>
              r.value.(hour := dt.hour, minute := dt.minute) == dt
    ensures r.Some? && MinuteOfDay(dt) + delta < 0 ==>
              PrevDay(dt).Some? && r.value.(hour := dt.hour, minute := dt.minute) == PrevDay(dt).value
    ensures r.Some? && MinuteOfDay(dt) + delta >= MinutesPerDay ==>
              NextDay(dt).Some? && r.value.(hour := dt.hour, minute := dt.minute) == NextDay(dt).value
  {
    var t := MinuteOfDay(dt) + delta;
    if t < 0 then
      match PrevDay(dt)
      case None => None
      case Some(p) => Some(p.(hour := (t + MinutesPerDay) / 60, minute := (t + MinutesPerDay) % 60))
    else if t >= MinutesPerDay then
      match NextDay(dt)
      case None => None
      case Some(n) => Some(n.(hour := (t - MinutesPerDay) / 60, minute := (t - MinutesPerDay) % 60))
    else
      Some(dt.(hour := t / 60, minute := t % 60))
  }

  /** Shifting by zero is the identity. */
  lemma AddZeroMinutes(dt: DateTime)
    requires dt.Valid()
    ensures AddMinutes(dt, 0) == Some(dt)
  {
  }

  /** Shifting forth and back again returns the original date-time. */
  lemma AddMinutesInverse(dt: DateTime, delta: int)
    requires dt.Valid() && -MinutesPerDay < delta < MinutesPerDay
    requires AddMinutes(dt, delta).Some?
    ensures AddMinutes(AddMinutes(dt, delta).value, -delta) == Some(dt)
  {
    var t := MinuteOfDay(dt) + delta;
    var e := AddMinutes(dt, delta).value;
    if t < 0 {
      NextPrevDay(dt);
    } else if t >= MinutesPerDay {
      PrevNextDay(dt);
    }
    assert MinuteOfDay(e) - delta == MinuteOfDay(dt) + (if t < 0 then MinutesPerDay else if t >= MinutesPerDay then -MinutesPerDay else 0);
  }
}
