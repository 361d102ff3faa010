/** The validation hook's slot check: a start time passes when it is within
    working hours and the slot `[start, start + duration)` overlaps no live
    appointment. The hook as written looks each appointment's length up in a
    table `TREATMENT_DURATIONS` that nothing defines, so the lookup throws;
    the corrected check takes the table as a parameter. */
module TimeValidation {
  import opened Wrappers
  import opened Clock
  import opened Lists
  import opened Records
  import opened WorkingHours

  const OverlapMessage := "This time slot overlaps with another appointment"

  /** `date < aptEnd && endTime > aptStart`: half-open intervals meet;
      any comparison with an invalid date is false. */
  predicate Overlaps(start: Instant, end: Instant, aStart: Instant, aEnd: Instant) {
    Before(start, aEnd) && Before(aStart, end)
  }

  /** An appointment's end by the duration table; a treatment missing from
      the table gives `undefined * 60000`, which is `NaN`. */
  function TableEnd(a: Appointment, table: map<string, int>): (r: Instant)
    ensures r.At? <==> a.date.At? && a.treatment in table
    ensures r.At? ==> r.minutes == a.date.minutes + table[a.treatment]
  {
    AddMinutes(a.date, if a.treatment in table then Some(table[a.treatment]) else None)
  }

  function ConflictsWith(start: Instant, end: Instant, table: map<string, int>): Appointment -> bool {
    (a: Appointment) => a.status != Cancelled && Overlaps(start, end, a.date, TableEnd(a, table))
  }

  /** `validateTimeSlot` with the duration table supplied: the hours
      verdict when that fails, else a refusal with the overlap message when
      some non-cancelled appointment overlaps, else success with the error
      cleared. `duration` is `None` for `NaN`. */
  function ValidateTimeSlot(date: Instant, apts: seq<Appointment>, duration: Option<int>, table: map<string, int>)
    : (v: Verdict)
    ensures !ValidateWorkingHours(date).ok ==> v == ValidateWorkingHours(date)
    ensures v.ok <==> (ValidateWorkingHours(date).ok &&
      forall i :: 0 <= i < |apts| ==> !ConflictsWith(date, AddMinutes(date, duration), table)(apts[i]))
    ensures ValidateWorkingHours(date).ok && !v.ok ==> v.error == OverlapMessage
    ensures v.ok ==> v.error == ""
  {
    var hours := ValidateWorkingHours(date);
    if !hours.ok then hours
    else
      match Find(apts, ConflictsWith(date, AddMinutes(date, duration), table))
      case Some(_) => Verdict(false, OverlapMessage)
      case None => hours
  }

  /** Cancelled appointments never block a slot. */
  lemma {:induction false} CancelledNeverConflict(date: Instant, a: Appointment, duration: Option<int>, table: map<string, int>)
    ensures a.status == Cancelled ==> !ConflictsWith(date, AddMinutes(date, duration), table)(a)
  {
  }

  /** Overlap of valid instants is the half-open test, and it is symmetric;
      slots that only touch do not overlap. */
  lemma {:induction false} OverlapHalfOpen(s: int, e: int, bs: int, be: int)
    ensures Overlaps(At(s), At(e), At(bs), At(be)) <==> s < be && bs < e
    ensures Overlaps(At(s), At(e), At(bs), At(be)) == Overlaps(At(bs), At(be), At(s), At(e))
    ensures e == bs || be == s ==> !Overlaps(At(s), At(e), At(bs), At(be))
  {
  }

  /** A slot that ends exactly when a booked appointment starts, or starts
      exactly when it ends, is accepted when nothing else is booked. */
  lemma {:induction false} BackToBack(date: Instant, a: Appointment, d: int, table: map<string, int>)
    requires date.At? && ValidateWorkingHours(date).ok && a.date.At? && a.treatment in table
    requires a.date.minutes == date.minutes + d || date.minutes == a.date.minutes + table[a.treatment]
    ensures ValidateTimeSlot(date, [a], Some(d), table).ok
  {
    assert !ConflictsWith(date, AddMinutes(date, Some(d)), table)([a][0]);
  }

  /** A treatment missing from the table has no end, so its appointment
      never conflicts. */
  lemma {:induction false} UnknownTreatmentNeverConflicts(date: Instant, a: Appointment, duration: Option<int>, table: map<string, int>)
    requires a.treatment !in table
    ensures !ConflictsWith(date, AddMinutes(date, duration), table)(a)
  {
  }

  /** What the hook as written does: it returns a verdict, or the lookup in
      the undefined table throws a `ReferenceError`. */
  datatype SlotOutcome = Checked(verdict: Verdict) | ReferenceError

  /** `validateTimeSlot` as written: once the hours pass, the first
      non-cancelled appointment `find` reaches evaluates the undefined
      table and throws. */
  function ValidateTimeSlotAsWritten(date: Instant, apts: seq<Appointment>, duration: Option<int>)
    : (o: SlotOutcome)
    ensures !ValidateWorkingHours(date).ok ==> o == Checked(ValidateWorkingHours(date))
    ensures o.ReferenceError? <==> (ValidateWorkingHours(date).ok &&
      exists i :: 0 <= i < |apts| && apts[i].status != Cancelled)
    ensures o.Checked? && o.verdict.ok ==> forall i :: 0 <= i < |apts| ==> apts[i].status == Cancelled
  {
    var hours := ValidateWorkingHours(date);
    if !hours.ok then Checked(hours)
    else
      match Find(apts, (a: Appointment) => a.status != Cancelled)
      case Some(_) => ReferenceError
      case None => Checked(hours)
  }

  /** The finding: a valid Sunday 18:00 slot with one live appointment two
      days later is refused by an exception as written, and accepted by the
      corrected check whatever the table says. */
  lemma {:induction false} UndefinedTableThrows(a: Appointment, table: map<string, int>)
    requires a.status == Scheduled && a.date == At(2 * MinutesPerDay)
    ensures ValidateTimeSlotAsWritten(At(18 * 60), [a], Some(30)) == ReferenceError
    ensures ValidateTimeSlot(At(18 * 60), [a], Some(30), table) == Verdict(true, "")
  {
    assert Weekday(18 * 60) == 0 && Hour(18 * 60) == 18;
    assert [a][0] == a;
    assert !ConflictsWith(At(18 * 60), At(18 * 60 + 30), table)(a);
  }
}
