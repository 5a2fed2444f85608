/** The TimeZone value object: a non-blank name and a fixed signed offset
    from UTC of at most -12:00 / +14:00. Offsets are counted in minutes
    (the `timedelta` the source stores). */
module TimeZones {
  import opened Wrappers
  import opened Errors
  import opened Text

  const MinOffset := -12 * 60
  const MaxOffset := 14 * 60

  /** `offset` is the stored `_offset`, `timedelta(hours=offsetHours,
      minutes=offsetMinutes)`, in minutes. */
  datatype TimeZone = TimeZone(name: string, offsetHours: int, offsetMinutes: int, offset: int) {
    /** What every TimeZone built by the constructor satisfies. */
    predicate Valid() {
      && name != [] && !IsSpace(name[0]) && !IsSpace(name[|name| - 1])
      && -59 <= offsetMinutes <= 59
      && offset == 60 * offsetHours + offsetMinutes
      && MinOffset <= offset <= MaxOffset
    }
  }

  /** The largest day count a `timedelta` holds, in either direction. */
  const MaxTimeDeltaDays := 999999999

  /** Whether `timedelta(minutes=m)` exists: it normalises to whole days
      (rounded down) plus a non-negative remainder, and raises
      OverflowError when the day count exceeds `MaxTimeDeltaDays` in
      magnitude. */
  predicate TimeDeltaFits(m: int) {
    -MaxTimeDeltaDays * 1440 <= m < (MaxTimeDeltaDays + 1) * 1440
  }

  /** `TimeZone(name, offset_hours, offset_minutes)`: checks the name, then
      the minutes, then builds the `timedelta` (which may overflow), then
      checks the combined offset, and keeps the stripped name. */
  function MakeTimeZone(name: string, offsetHours: int, offsetMinutes: int): (r: Result<TimeZone, Error>)
    ensures r.Ok? <==>
      && (exists i :: 0 <= i < |name| && !IsSpace(name[i]))
      && -59 <= offsetMinutes <= 59
      && MinOffset <= 60 * offsetHours + offsetMinutes <= MaxOffset
    ensures r.Ok? ==> r.value.Valid()
    ensures r.Ok? ==> r.value.offset == 60 * offsetHours + offsetMinutes
    ensures r.Ok? ==>
              && r.value.name == Strip(name)
              && r.value.offsetHours == offsetHours
              && r.value.offsetMinutes == offsetMinutes
    ensures r == Err(EmptyTimeZoneName) <==> forall i :: 0 <= i < |name| ==> IsSpace(name[i])
    ensures r == Err(MinuteOffsetOutOfRange) <==>
      && (exists i :: 0 <= i < |name| && !IsSpace(name[i]))
      && !(-59 <= offsetMinutes <= 59)
    ensures r == Err(OffsetOutOfRange) <==>
      && (exists i :: 0 <= i < |name| && !IsSpace(name[i]))
      && -59 <= offsetMinutes <= 59
      && TimeDeltaFits(60 * offsetHours + offsetMinutes)
      && !(MinOffset <= 60 * offsetHours + offsetMinutes <= MaxOffset)
    ensures r == Err(OffsetOverflow) <==>
      && (exists i :: 0 <= i < |name| && !IsSpace(name[i]))
      && -59 <= offsetMinutes <= 59
      && !TimeDeltaFits(60 * offsetHours + offsetMinutes)
  {
    if Strip(name) == [] then Err(EmptyTimeZoneName)
    else if offsetMinutes < -59 || offsetMinutes > 59 then Err(MinuteOffsetOutOfRange)
    else
      var offset := 60 * offsetHours + offsetMinutes;
      if !TimeDeltaFits(offset) then Err(OffsetOverflow)
      else if offset < MinOffset || offset > MaxOffset then Err(OffsetOutOfRange)
      else
        Ok(TimeZone(Strip(name), offsetHours, offsetMinutes, offset))
  }

  /** The zone used when none is given: `TimeZone('UTC', 0, 0)`. */
  const Utc := TimeZone("UTC", 0, 0, 0)

  lemma UtcIsValid()
    ensures Utc.Valid()
  {
    assert !IsSpace('U');
  }

  /** `__eq__`: compares the name and the two offset fields as given. */
  predicate Equal(a: TimeZone, b: TimeZone)
    ensures a == b ==> Equal(a, b)
    ensures Equal(a, b) && a.Valid() && b.Valid() ==> a.offset == b.offset
  {
    a.name == b.name && a.offsetHours == b.offsetHours && a.offsetMinutes == b.offsetMinutes
  }

  /** On zones the constructor can build, `__eq__` is equality of values. */
  lemma EqualIsIdentity(a: TimeZone, b: TimeZone)
    requires a.Valid() && b.Valid()
    ensures Equal(a, b) <==> a == b
  {
  }

  /** Names that strip to the same text give equal zones. */
  lemma StrippedNamesEqual(n1: string, n2: string, h: int, m: int)
    requires Strip(n1) == Strip(n2)
    requires MakeTimeZone(n1, h, m).Ok?
    ensures MakeTimeZone(n2, h, m).Ok?
    ensures Equal(MakeTimeZone(n1, h, m).value, MakeTimeZone(n2, h, m).value)
  {
  }

  /** Equal combined offsets do not make zones equal: "X" at +1:-30 and "X"
      at +0:+30 are both half an hour ahead of UTC, yet unequal. */
  lemma SameOffsetNotEqual()
    ensures MakeTimeZone("X", 1, -30).Ok? && MakeTimeZone("X", 0, 30).Ok?
    ensures MakeTimeZone("X", 1, -30).value.offset == MakeTimeZone("X", 0, 30).value.offset
    ensures !Equal(MakeTimeZone("X", 1, -30).value, MakeTimeZone("X", 0, 30).value)
  {
    assert !IsSpace("X"[0]);
  }

  /** The zone 'ABC' at -1:-31 is 91 minutes behind UTC. */
  lemma CreateExample()
    ensures MakeTimeZone("ABC", -1, -31).Ok?
    ensures MakeTimeZone("ABC", -1, -31).value.name == "ABC"
    ensures MakeTimeZone("ABC", -1, -31).value.offset == -91
  {
    assert !IsSpace("ABC"[0]);
  }

  /** `TimeZone('X', 24000000000, 0)` overflows the `timedelta` before the
      range check is reached; `TimeZone('X', 15, 0)` reaches it and fails. */
  lemma OverflowExample()
    ensures MakeTimeZone("X", 24000000000, 0) == Err(OffsetOverflow)
    ensures MakeTimeZone("X", 15, 0) == Err(OffsetOutOfRange)
  {
    assert !IsSpace("X"[0]);
  }

  /** 'ABC' at -1:-30 differs from 'IR' at -1:-30, from 'ABC' at 1:-30 and
      from 'DEF' at -1:-50; 'IR' at 3:30 equals another 'IR' at 3:30. */
  lemma EqualityExamples()
    ensures var abc := MakeTimeZone("ABC", -1, -30);
      && abc.Ok? && MakeTimeZone("IR", -1, -30).Ok?
      && MakeTimeZone("ABC", 1, -30).Ok? && MakeTimeZone("DEF", -1, -50).Ok?
      && !Equal(abc.value, MakeTimeZone("IR", -1, -30).value)
      && !Equal(abc.value, MakeTimeZone("ABC", 1, -30).value)
      && !Equal(abc.value, MakeTimeZone("DEF", -1, -50).value)
    ensures MakeTimeZone("IR", 3, 30).Ok? && Equal(MakeTimeZone("IR", 3, 30).value, MakeTimeZone("IR", 3, 30).value)
  {
    assert !IsSpace("ABC"[0]) && !IsSpace("IR"[0]) && !IsSpace("DEF"[0]);
  }
}
