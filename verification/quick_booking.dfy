/** The quick-appointment dialog: its treatment list and the record it
    hands to `onSave`. Unlike the calendar's dialog it checks neither
    working hours nor overlaps, and its record has no end time and no
    client id. */
module QuickBooking {
  import opened Wrappers
  import opened Clock
  import opened Records
  import opened WorkingHours
  import opened TreatmentCatalogue
  import CalendarDialog

  /** The treatments offered: the stored catalogue flattened, or else the
      default one flattened. */
  function Treatments(stored: Option<Catalogue>): (ts: seq<Treatment>)
    ensures ts == AllTreatments(stored)
    ensures |ts| == ItemCount(if stored.Some? then stored.value else Defaults)
  {
    if stored.Some? then Flatten(stored.value) else AllTreatments(None)
  }

  /** Save is enabled once there is patient text and a treatment. */
  predicate CanSave(input: string, treatment: string) {
    input != "" && treatment != ""
  }

  /** The dialog's fields: the client picked from the suggestions (if
      any), the typed text, the treatment, the date and the time pickers'
      values, and the notes. */
  datatype Form = Form(selected: Option<Client>, input: string, treatment: string,
                       date: Instant, time: Instant, notes: string)

  /** `handleSubmit`: the chosen date at the chosen time, a fresh id `now`,
      the picked client's name if there is one with a name and else the
      typed text, status "scheduled". `None` when the date or time cannot
      be read: `toISOString` throws and nothing is saved. */
  function Submit(f: Form, now: Id): (r: Option<Appointment>)
    ensures r.Some? <==> f.date.At? && f.time.At?
    ensures r.Some? ==> var a := r.value;
      a.id == now && a.status == Scheduled && a.treatment == f.treatment && a.notes == Some(f.notes)
      && a.endTime.None? && a.clientId.None?
      && SameDay(a.date, f.date) && Hour(a.date.minutes) == Hour(f.time.minutes)
      && Minute(a.date.minutes) == Minute(f.time.minutes)
    ensures r.Some? && f.selected.Some? && f.selected.value.name != "" ==>
      r.value.clientName == Some(f.selected.value.name)
    ensures r.Some? && (f.selected.None? || f.selected.value.name == "") ==>
      r.value.clientName == Some(f.input)
  {
    var start := WithTimeOf(f.date, f.time);
    if start.Invalid? then None
    else
      var name := if f.selected.Some? && f.selected.value.name != "" then f.selected.value.name else f.input;
      Some(Appointment(now, start, None, None, Some(name), f.treatment, Some(f.notes), Scheduled, None, None))
  }

  /** Whatever the working hours say, a readable date and time is booked:
      at any start the calendar's dialog turns away for being outside
      working hours, this dialog saves the same patient and treatment. */
  lemma {:induction false} IgnoresWorkingHours(f: Form, now: Id, c: Client)
    requires f.date.At? && f.time.At? && CanSave(f.input, f.treatment)
    ensures Submit(f, now).Some?
    ensures var start := Submit(f, now).value.date;
      start == WithTimeOf(f.date, f.time)
      && (!CalendarOpen(start) ==>
            CalendarDialog.Submit(f.input, Some(c), CalendarDialog.Form(start, start, f.treatment, f.notes), None, now)
            == CalendarDialog.Rejected(CalendarDialog.WorkingHoursAlert))
  {
  }

  /** Nothing stops a booking outside working hours: a Saturday noon slot is
      saved, though the calendar's dialog rejects it. */
  lemma {:induction false} SavesOutsideWorkingHours(f: Form, now: Id)
    requires f.date == FromParts(6, 12, 0) && f.time == FromParts(0, 12, 0)
    ensures Submit(f, now).Some?
    ensures !CalendarOpen(Submit(f, now).value.date)
  {
    PartsDecode(6, 12, 0);
    PartsDecode(0, 12, 0);
    var a := Submit(f, now).value;
    Decompose(a.date.minutes);
    assert Day(a.date.minutes) == 6;
  }
}
