/** Local time as the clinic's code reads it from JavaScript `Date` objects.
    An instant is a whole number of minutes counted from a Sunday 00:00 of
    local time, so the day index, weekday, hour and minute are plain integer
    arithmetic; `Invalid` is JavaScript's "Invalid Date", whose getters all
    yield `NaN`. Seconds and milliseconds, time zones and daylight-saving
    shifts are not represented. */
module Clock {
  import opened Wrappers

  const MinutesPerHour := 60
  const MinutesPerDay := 1440

  datatype Instant = Invalid | At(minutes: int)

  /** Days since the epoch Sunday; two instants on the same calendar date
      (equal `getFullYear`, `getMonth` and `getDate`) have the same index. */
  function Day(m: int): int {
    m / MinutesPerDay
  }

  /** `getDay()`: 0 is Sunday, 6 is Saturday. */
  function Weekday(m: int): (w: int)
    ensures 0 <= w < 7
  {
    Day(m) % 7
  }

  /** `getHours()`. */
  function Hour(m: int): (h: int)
    ensures 0 <= h < 24
  {
    (m % MinutesPerDay) / MinutesPerHour
  }

  /** `getMinutes()`. */
  function Minute(m: int): (mi: int)
    ensures 0 <= mi < 60
  {
    (m % MinutesPerDay) % MinutesPerHour
  }

  /** The instant with the given day index, hour and minute; hours and
      minutes outside their ranges carry into neighbouring days and hours,
      as the `Date` setters do. */
  function FromParts(day: int, h: int, mi: int): (t: Instant)
    ensures t.At?
    ensures 0 <= h < 24 && 0 <= mi < 60 ==>
      Day(t.minutes) == day && Hour(t.minutes) == h && Minute(t.minutes) == mi
  {
    PartsDecode(day, h, mi);
    At(day * MinutesPerDay + h * MinutesPerHour + mi)
  }

  lemma {:induction false} PartsDecode(day: int, h: int, mi: int)
    ensures var m := day * MinutesPerDay + h * MinutesPerHour + mi;
      0 <= h < 24 && 0 <= mi < 60 ==> Day(m) == day && Hour(m) == h && Minute(m) == mi
  {
    var m := day * MinutesPerDay + h * MinutesPerHour + mi;
    if 0 <= h < 24 && 0 <= mi < 60 {
      var r := h * MinutesPerHour + mi;
      assert 0 <= r < MinutesPerDay;
      assert m / MinutesPerDay == day && m % MinutesPerDay == r;
    }
  }

  /** Every instant is put back together from its day, hour and minute. */
  lemma {:induction false} Decompose(m: int)
    ensures FromParts(Day(m), Hour(m), Minute(m)) == At(m)
  {
    var r := m % MinutesPerDay;
    assert r == Hour(m) * MinutesPerHour + Minute(m);
    assert m == Day(m) * MinutesPerDay + r;
  }

  /** Same year, month and day of the month (equivalently, equal
      `toDateString()`); an invalid date is on no day at all. */
  predicate SameDay(a: Instant, b: Instant) {
    a.At? && b.At? && Day(a.minutes) == Day(b.minutes)
  }

  /** `d.setHours(time.getHours()); d.setMinutes(time.getMinutes())` on a
      copy of `d`: the date of `d` with the clock time of `time`. */
  function WithTimeOf(d: Instant, time: Instant): (r: Instant)
    ensures r.At? <==> d.At? && time.At?
    ensures r.At? ==> SameDay(r, d) && Hour(r.minutes) == Hour(time.minutes)
                      && Minute(r.minutes) == Minute(time.minutes)
  {
    if d.Invalid? || time.Invalid? then Invalid
    else FromParts(Day(d.minutes), Hour(time.minutes), Minute(time.minutes))
  }

  /** `setMinutes(getMinutes() + n)`; a `NaN` amount (`None`) or an invalid
      start gives an invalid date. */
  function AddMinutes(t: Instant, n: Option<int>): (r: Instant)
    ensures r.At? <==> t.At? && n.Some?
    ensures r.At? ==> r.minutes - t.minutes == n.value
  {
    if t.Invalid? || n.None? then Invalid else At(t.minutes + n.value)
  }

  /** `setDate(getDate() + n)`: the same clock time `n` days later. */
  function AddDays(t: Instant, n: Option<int>): (r: Instant)
    ensures r.At? <==> t.At? && n.Some?
    ensures r.At? ==> Day(r.minutes) == Day(t.minutes) + n.value
                      && Hour(r.minutes) == Hour(t.minutes) && Minute(r.minutes) == Minute(t.minutes)
  {
    if t.Invalid? || n.None? then Invalid
    else
      Decompose(t.minutes);
      FromParts(Day(t.minutes) + n.value, Hour(t.minutes), Minute(t.minutes))
  }

  /** The relational operators on dates compare their time values; any
      comparison with an invalid date is false. */
  predicate Before(a: Instant, b: Instant) {
    a.At? && b.At? && a.minutes < b.minutes
  }
}
