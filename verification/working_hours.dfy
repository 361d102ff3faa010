/** The clinic's opening hours, of which the code holds three copies: the
    appointment dialog's check, the validation hook (which also reports a
    message) and a utility that compares whole hours only and opens an hour
    earlier on Sunday to Thursday. */
module WorkingHours {
  import opened Clock

  const ClosedSaturday := "Clinic is closed on Saturdays"
  const SundayToThursdayHours := "Working hours on Sunday-Thursday are 17:00-21:00"
  const FridayHours := "Working hours on Friday are 9:00-19:00"

  /** The published timetable, stated on whole hours: Sunday to Thursday
      from `opening` until 21:00, Friday 9:00 until 19:00, Saturday closed. */
  predicate Timetable(weekday: int, hour: int, opening: int) {
    (0 <= weekday <= 4 && opening <= hour < 21) || (weekday == 5 && 9 <= hour < 19)
  }

  /** `hours + minutes / 60`, the clock time as a fraction of hours. */
  function FractionalTime(m: int): (x: real)
    ensures Hour(m) as real <= x < Hour(m) as real + 1.0
  {
    Hour(m) as real + Minute(m) as real / 60.0
  }

  /** Comparing the fractional time with a whole hour is comparing the hour. */
  lemma {:induction false} FractionalCompare(m: int, k: int)
    ensures FractionalTime(m) >= k as real <==> Hour(m) >= k
    ensures FractionalTime(m) < k as real <==> Hour(m) < k
  {
  }

  /** The appointment dialog's `isWithinWorkingHours`. */
  function CalendarOpen(t: Instant): (ok: bool)
    ensures ok <==> t.At? && Timetable(Weekday(t.minutes), Hour(t.minutes), 17)
  {
    match t
    case Invalid => false
    case At(m) =>
      var day := Weekday(m);
      var time := FractionalTime(m);
      FractionalCompare(m, 17);
      FractionalCompare(m, 21);
      FractionalCompare(m, 9);
      FractionalCompare(m, 19);
      if day in {0, 1, 2, 3, 4} then time >= 17.0 && time < 21.0
      else if day == 5 then time >= 9.0 && time < 19.0
      else false
  }

  /** What `validateWorkingHours` returns and leaves in its error state. */
  datatype Verdict = Verdict(ok: bool, error: string)

  /** The validation hook's `validateWorkingHours`. Saturday is checked
      first; a date whose weekday is `NaN` matches no branch and is
      accepted. */
  function ValidateWorkingHours(t: Instant): (v: Verdict)
    ensures t.At? && Weekday(t.minutes) == 6 ==> v == Verdict(false, ClosedSaturday)
    ensures t.At? && Weekday(t.minutes) <= 4 && !(17 <= Hour(t.minutes) < 21) ==>
      v == Verdict(false, SundayToThursdayHours)
    ensures t.At? && Weekday(t.minutes) == 5 && !(9 <= Hour(t.minutes) < 19) ==>
      v == Verdict(false, FridayHours)
    ensures v.ok <==> t.Invalid? || Timetable(Weekday(t.minutes), Hour(t.minutes), 17)
    ensures v.ok ==> v.error == ""
  {
    match t
    case Invalid => Verdict(true, "")
    case At(m) =>
      var day := Weekday(m);
      var time := FractionalTime(m);
      FractionalCompare(m, 17);
      FractionalCompare(m, 21);
      FractionalCompare(m, 9);
      FractionalCompare(m, 19);
      if day == 6 then Verdict(false, ClosedSaturday)
      else if day in {0, 1, 2, 3, 4} && (time < 17.0 || time >= 21.0) then
        Verdict(false, SundayToThursdayHours)
      else if day == 5 && (time < 9.0 || time >= 19.0) then Verdict(false, FridayHours)
      else Verdict(true, "")
  }

  /** The dialog and the hook agree on every valid date; only an invalid
      date separates them (the hook accepts it, the dialog does not). */
  lemma {:induction false} HookAgreesWithDialog(t: Instant)
    ensures t.At? ==> ValidateWorkingHours(t).ok == CalendarOpen(t)
    ensures t.Invalid? ==> ValidateWorkingHours(t).ok && !CalendarOpen(t)
  {
  }

  /** The utility `isWithinWorkingHours`, which looks at the hour only. */
  function UtilityOpen(t: Instant): (ok: bool)
    ensures ok <==> t.At? && Timetable(Weekday(t.minutes), Hour(t.minutes), 16)
  {
    match t
    case Invalid => false
    case At(m) =>
      var hours := Hour(m);
      var day := Weekday(m);
      if day in {0, 1, 2, 3, 4} then hours >= 16 && hours < 21
      else if day == 5 then hours >= 9 && hours < 19
      else false
  }

  /** Everything the dialog accepts the utility accepts too, and the two
      differ exactly on 16:00-16:59 from Sunday to Thursday. */
  lemma {:induction false} UtilityWidensDialog(t: Instant)
    ensures CalendarOpen(t) ==> UtilityOpen(t)
    ensures UtilityOpen(t) && !CalendarOpen(t) <==>
      t.At? && Weekday(t.minutes) <= 4 && Hour(t.minutes) == 16
  {
  }

  /** The utility ignores the minutes: every minute of an hour gets the
      verdict of that hour's first minute. */
  lemma {:induction false} UtilityIgnoresMinutes(m: int)
    ensures UtilityOpen(At(m)) == UtilityOpen(At(m - Minute(m)))
  {
    var base := m - Minute(m);
    Decompose(m);
    assert FromParts(Day(m), Hour(m), 0) == At(base);
  }
}
