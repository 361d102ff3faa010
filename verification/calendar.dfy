/** The appointment dialog and day view of the calendar page: the end time
    derived from the chosen treatment's duration label, the form's
    reactions to a new treatment or start time, the checks and record
    construction of "save", and the appointments listed for one day. */
module CalendarDialog {
  import opened Wrappers
  import opened Clock
  import opened Lists
  import opened Sorting
  import opened Records
  import opened Durations
  import opened TreatmentCatalogue
  import opened WorkingHours
  import opened Text

  const WorkingHoursAlert := "Please select a time within working hours"
  const SaveErrorAlert := "Error saving appointment. Please check the time values."

  // ---------------------------------------------------------------------
  // End time

  function Named(name: string): Treatment -> bool {
    (t: Treatment) => t.name == name
  }

  /** `i` is the position of the first treatment called `name`. */
  predicate FirstNamed(ts: seq<Treatment>, name: string, i: int) {
    0 <= i < |ts| && ts[i].name == name && forall j :: 0 <= j < i ==> ts[j].name != name
  }

  lemma {:induction false} FindNamed(ts: seq<Treatment>, name: string, i: int)
    requires FirstNamed(ts, name, i)
    ensures Find(ts, Named(name)) == Some(ts[i])
  {
    var r := Find(ts, Named(name));
    assert Named(name)(ts[i]);
    var k :| 0 <= k < |ts| && ts[k] == r.value && Named(name)(ts[k])
             && forall j :: 0 <= j < k ==> !Named(name)(ts[j]);
    assert k == i;
  }

  /** `calculateEndTime` with the duration reading a compound label in
      full: the start time when no treatment has that name, else the start
      moved on by the first such treatment's duration, and an invalid date
      when the label holds no number. `ts` is the treatment list the dialog
      is given. */
  function EndTime(start: Instant, name: string, ts: seq<Treatment>): (r: Instant)
    ensures (forall i :: 0 <= i < |ts| ==> ts[i].name != name) ==> r == start
    ensures forall i :: FirstNamed(ts, name, i) ==> r == AddMinutes(start, LabelMinutes(ts[i].duration))
  {
    match Find(ts, Named(name))
    case None => start
    case Some(t) =>
      assert forall i :: FirstNamed(ts, name, i) ==> t == ts[i] by {
        forall i | FirstNamed(ts, name, i) {
          FindNamed(ts, name, i);
        }
      }
      AddMinutes(start, LabelMinutes(t.duration))
  }

  /** `calculateEndTime` as written, reading "1 hour 30 minutes" as one
      hour. */
  function EndTimeAsWritten(start: Instant, name: string, ts: seq<Treatment>): (r: Instant)
    ensures (forall i :: 0 <= i < |ts| ==> ts[i].name != name) ==> r == start
    ensures forall i :: FirstNamed(ts, name, i) ==> r == AddMinutes(start, CalendarMinutes(ts[i].duration))
  {
    match Find(ts, Named(name))
    case None => start
    case Some(t) =>
      assert forall i :: FirstNamed(ts, name, i) ==> t == ts[i] by {
        forall i | FirstNamed(ts, name, i) {
          FindNamed(ts, name, i);
        }
      }
      AddMinutes(start, CalendarMinutes(t.duration))
  }

  /** Once the first named treatment's label is known to read as `full`
      minutes in full and `written` minutes as the dialog reads it, the two
      end times are the start moved on by those amounts. With the label the
      treatment editor writes for `h` hours and `m` minutes these are
      `60h + m` and, when there are hours, only `60h`
      (`Durations.EditorLabelReadings`). */
  lemma {:induction false} EndTimeOfReadings(start: Instant, name: string, ts: seq<Treatment>, i: int, full: int, written: int)
    requires FirstNamed(ts, name, i) && start.At?
    requires LabelMinutes(ts[i].duration) == Some(full) && CalendarMinutes(ts[i].duration) == Some(written)
    ensures EndTime(start, name, ts) == At(start.minutes + full)
    ensures EndTimeAsWritten(start, name, ts) == At(start.minutes + written)
  {
    var d := ts[i].duration;
    EndTimeOfFirst(start, name, ts, i);
    AddKnownMinutes(start, LabelMinutes(d), full);
    AddKnownMinutes(start, CalendarMinutes(d), written);
  }

  lemma {:induction false} AddKnownMinutes(start: Instant, n: Option<int>, k: int)
    requires start.At? && n == Some(k)
    ensures AddMinutes(start, n) == At(start.minutes + k)
  {
  }

  /** Both end times move the start by the first named treatment's label. */
  lemma {:induction false} EndTimeOfFirst(start: Instant, name: string, ts: seq<Treatment>, i: int)
    requires FirstNamed(ts, name, i)
    ensures EndTime(start, name, ts) == AddMinutes(start, LabelMinutes(ts[i].duration))
    ensures EndTimeAsWritten(start, name, ts) == AddMinutes(start, CalendarMinutes(ts[i].duration))
  {
  }

  /** A label with no leading number ("Varies") makes the end time invalid
      on both readings. */
  lemma {:induction false} NumberlessLabelEnd(start: Instant, name: string, ts: seq<Treatment>, i: int)
    requires FirstNamed(ts, name, i) && ParseInt(ts[i].duration).None?
    ensures EndTime(start, name, ts) == Invalid
    ensures EndTimeAsWritten(start, name, ts) == Invalid
  {
  }

  // ---------------------------------------------------------------------
  // The form

  /** The dialog's form state. */
  datatype Form = Form(startTime: Instant, endTime: Instant, treatment: string, notes: string)

  /** Choosing a treatment sets it and suggests the end time it implies. */
  function TreatmentChange(f: Form, chosen: string, ts: seq<Treatment>): (g: Form)
    ensures g.treatment == chosen && g.startTime == f.startTime && g.notes == f.notes
    ensures (forall i :: 0 <= i < |ts| ==> ts[i].name != chosen) ==> g.endTime == f.startTime
    ensures forall i :: FirstNamed(ts, chosen, i) ==>
      g.endTime == AddMinutes(f.startTime, LabelMinutes(ts[i].duration))
  {
    f.(treatment := chosen, endTime := EndTime(f.startTime, chosen, ts))
  }

  /** Picking a start time (`None` is a cleared picker, which is ignored)
      keeps the date, takes the picked hour and minute, and moves the end to
      the treatment's end time, or to the start when no treatment is
      chosen. */
  function StartTimeChange(f: Form, picked: Option<Instant>, ts: seq<Treatment>): (g: Form)
    ensures picked.None? ==> g == f
    ensures picked.Some? ==> g.startTime == WithTimeOf(f.startTime, picked.value)
    ensures picked.Some? && |f.treatment| == 0 ==> g.endTime == g.startTime
    ensures picked.Some? && |f.treatment| > 0 ==> g.endTime == EndTime(g.startTime, f.treatment, ts)
    ensures g.treatment == f.treatment && g.notes == f.notes
  {
    match picked
    case None => f
    case Some(t) =>
      var start := WithTimeOf(f.startTime, t);
      f.(startTime := start, endTime := if |f.treatment| > 0 then EndTime(start, f.treatment, ts) else start)
  }

  /** The treatment select's handler as written: the suggested end comes
      from `calculateEndTime`, so a "1 hour 30 minutes" treatment ends an
      hour after the start. */
  function TreatmentChangeAsWritten(f: Form, chosen: string, ts: seq<Treatment>): (g: Form)
    ensures g.treatment == chosen && g.startTime == f.startTime && g.notes == f.notes
    ensures (forall i :: 0 <= i < |ts| ==> ts[i].name != chosen) ==> g.endTime == f.startTime
    ensures forall i :: FirstNamed(ts, chosen, i) ==>
      g.endTime == AddMinutes(f.startTime, CalendarMinutes(ts[i].duration))
  {
    f.(treatment := chosen, endTime := EndTimeAsWritten(f.startTime, chosen, ts))
  }

  /** The start picker's handler as written, with the end from
      `calculateEndTime`. */
  function StartTimeChangeAsWritten(f: Form, picked: Option<Instant>, ts: seq<Treatment>): (g: Form)
    ensures picked.None? ==> g == f
    ensures picked.Some? ==> g.startTime == WithTimeOf(f.startTime, picked.value)
    ensures picked.Some? && |f.treatment| == 0 ==> g.endTime == g.startTime
    ensures picked.Some? && |f.treatment| > 0 ==> g.endTime == EndTimeAsWritten(g.startTime, f.treatment, ts)
    ensures g.treatment == f.treatment && g.notes == f.notes
  {
    match picked
    case None => f
    case Some(t) =>
      var start := WithTimeOf(f.startTime, t);
      f.(startTime := start, endTime := if |f.treatment| > 0 then EndTimeAsWritten(start, f.treatment, ts) else start)
  }

  /** The two handlers agree with their corrected forms whenever the first
      treatment of the name concerned reads the same on both readings (every
      label without "hour"), and when no treatment has that name. */
  lemma {:induction false} HandlersAgreeOnPlainLabels(f: Form, chosen: string, picked: Option<Instant>, ts: seq<Treatment>)
    requires forall i :: FirstNamed(ts, chosen, i) ==> CalendarMinutes(ts[i].duration) == LabelMinutes(ts[i].duration)
    requires forall i :: FirstNamed(ts, f.treatment, i) ==> CalendarMinutes(ts[i].duration) == LabelMinutes(ts[i].duration)
    ensures TreatmentChangeAsWritten(f, chosen, ts) == TreatmentChange(f, chosen, ts)
    ensures StartTimeChangeAsWritten(f, picked, ts) == StartTimeChange(f, picked, ts)
  {
    SameEndOnPlainLabel(f.startTime, chosen, ts);
    if picked.Some? {
      SameEndOnPlainLabel(WithTimeOf(f.startTime, picked.value), f.treatment, ts);
    }
  }

  lemma {:induction false} SameEndOnPlainLabel(start: Instant, name: string, ts: seq<Treatment>)
    requires forall i :: FirstNamed(ts, name, i) ==> CalendarMinutes(ts[i].duration) == LabelMinutes(ts[i].duration)
    ensures EndTimeAsWritten(start, name, ts) == EndTime(start, name, ts)
  {
    var r := Find(ts, Named(name));
    if r.Some? {
      var i :| 0 <= i < |ts| && ts[i] == r.value && Named(name)(ts[i])
               && forall j :: 0 <= j < i ==> !Named(name)(ts[j]);
      assert FirstNamed(ts, name, i);
      EndTimeOfFirst(start, name, ts, i);
    } else {
      assert forall i :: 0 <= i < |ts| ==> !Named(name)(ts[i]);
    }
  }

  /** The editor's "1 hour 30 minutes": choosing it ends the form 90
      minutes after the start in the corrected handler and 60 minutes after
      it in the handler as written. A picked start time moves the end the
      same way, since both start handlers use the same end times
      (`EndTimeOfReadings`). */
  lemma {:induction false} HandlersOnCompoundLabel(f: Form, ts: seq<Treatment>, i: int)
    requires FirstNamed(ts, f.treatment, i)
    requires f.startTime.At? && ts[i].duration == "1 hour 30 minutes"
    ensures TreatmentChange(f, f.treatment, ts).endTime == At(f.startTime.minutes + 90)
    ensures TreatmentChangeAsWritten(f, f.treatment, ts).endTime == At(f.startTime.minutes + 60)
  {
    CompoundLabelLosesMinutes();
    TreatmentChangeFollowsReadings(f, ts, i, 90, 60);
  }

  /** Once the first treatment of the form's name is known to read as `full`
      minutes in full and `written` minutes as the dialog reads it, choosing
      it puts the end that many minutes after the start: the
      corrected handler by `full`, the handler as written by `written`
      (`Durations.EditorLabelReadings` gives the two for every editor
      label). */
  lemma {:induction false} TreatmentChangeFollowsReadings(f: Form, ts: seq<Treatment>, i: int, full: int, written: int)
    requires FirstNamed(ts, f.treatment, i) && f.startTime.At?
    requires LabelMinutes(ts[i].duration) == Some(full) && CalendarMinutes(ts[i].duration) == Some(written)
    ensures TreatmentChange(f, f.treatment, ts).endTime == At(f.startTime.minutes + full)
    ensures TreatmentChangeAsWritten(f, f.treatment, ts).endTime == At(f.startTime.minutes + written)
  {
    EndTimeOfReadings(f.startTime, f.treatment, ts, i, full, written);
  }

  // ---------------------------------------------------------------------
  // Saving

  /** What pressing the save button leads to: nothing (the button is
      disabled or a client is missing), an alert, or a record handed to
      `onSave`. */
  datatype SubmitOutcome = NotSubmitted | Rejected(alert: string) | Saved(record: Appointment)

  /** `handleSubmit` behind the button's `disabled` test. `typed` is the
      patient search text, `editing` the appointment being edited, `now`
      the clock's fresh id. */
  function Submit(typed: string, client: Option<Client>, f: Form, editing: Option<Appointment>, now: Id)
    : (o: SubmitOutcome)
    ensures o.NotSubmitted? <==> |typed| == 0 || |f.treatment| == 0 || client.None?
    ensures !o.NotSubmitted? && !CalendarOpen(f.startTime) ==> o == Rejected(WorkingHoursAlert)
    ensures !o.NotSubmitted? && CalendarOpen(f.startTime) && f.endTime.Invalid? ==> o == Rejected(SaveErrorAlert)
    ensures o.Saved? <==> |typed| > 0 && |f.treatment| > 0 && client.Some?
                          && CalendarOpen(f.startTime) && f.endTime.At?
    ensures o.Saved? ==> o.record.date == f.startTime && o.record.endTime == Some(f.endTime)
                         && o.record.treatment == f.treatment && o.record.notes == Some(f.notes)
    ensures o.Saved? ==> o.record.clientId == Some(client.value.id)
                         && o.record.clientName == Some(client.value.name)
    ensures o.Saved? && editing.Some? && editing.value.id != 0 ==> o.record.id == editing.value.id
    ensures o.Saved? && (editing.None? || editing.value.id == 0) ==> o.record.id == now
    ensures o.Saved? && editing.Some? && |editing.value.status| > 0 ==> o.record.status == editing.value.status
    ensures o.Saved? && (editing.None? || |editing.value.status| == 0) ==> o.record.status == Scheduled
  {
    if |typed| == 0 || |f.treatment| == 0 || client.None? then NotSubmitted
    else if !CalendarOpen(f.startTime) then Rejected(WorkingHoursAlert)
    else if f.startTime.Invalid? || f.endTime.Invalid? then Rejected(SaveErrorAlert)
    else
      var id := if editing.Some? && editing.value.id != 0 then editing.value.id else now;
      var status := if editing.Some? && |editing.value.status| > 0 then editing.value.status else Scheduled;
      Saved(Appointment(id, f.startTime, Some(f.endTime), Some(client.value.id), Some(client.value.name),
                        f.treatment, Some(f.notes), status, None, None))
  }

  /** The end time is never held to the working hours: a 20:30 Sunday
      start with a 22:00 end is saved although 22:00 is after closing. */
  lemma {:induction false} EndNotChecked(c: Client)
    ensures var f := Form(At(20 * 60 + 30), At(22 * 60), "Botox", "");
      Submit("x", Some(c), f, None, 1).Saved? && !CalendarOpen(f.endTime)
  {
    assert Weekday(20 * 60 + 30) == 0 && Hour(20 * 60 + 30) == 20;
    assert Hour(22 * 60) == 22;
  }

  // ---------------------------------------------------------------------
  // The day view

  /** `new Date(a.date) - new Date(b.date)`: only appointments on a valid
      date reach the comparison. */
  function StartKey(a: Appointment): int {
    if a.date.At? then a.date.minutes else 0
  }

  function ShownOn(day: Instant): Appointment -> bool {
    (a: Appointment) => SameDay(a.date, day) && a.status != Cancelled
  }

  /** `getDayAppointments`: the non-cancelled appointments on `day`,
      earliest first, equal starts in stored order. */
  function DayAppointments(apts: seq<Appointment>, day: Instant): (r: seq<Appointment>)
    ensures forall i :: 0 <= i < |r| ==> r[i] in apts && ShownOn(day)(r[i])
    ensures forall i :: 0 <= i < |apts| && ShownOn(day)(apts[i]) ==> apts[i] in r
    ensures SortedBy(r, StartKey)
    ensures multiset(r) == multiset(Filter(apts, ShownOn(day)))
  {
    var kept := Filter(apts, ShownOn(day));
    var r := SortBy(kept, StartKey);
    MultisetMembers(kept, r);
    r
  }

  lemma {:induction false} MultisetMembers<T>(a: seq<T>, b: seq<T>)
    requires multiset(a) == multiset(b)
    ensures forall i :: 0 <= i < |b| ==> b[i] in a
    ensures forall i :: 0 <= i < |a| ==> a[i] in b
  {
    forall i | 0 <= i < |b|
      ensures b[i] in a
    {
      assert b[i] in multiset(b);
    }
    forall i | 0 <= i < |a|
      ensures a[i] in b
    {
      assert a[i] in multiset(a);
    }
  }

  /** Appointments starting at the same minute keep their stored order. */
  lemma {:induction false} DayAppointmentsStable(apts: seq<Appointment>, day: Instant, k: int)
    ensures Filter(DayAppointments(apts, day), KeyIs(StartKey, k))
         == Filter(Filter(apts, ShownOn(day)), KeyIs(StartKey, k))
  {
    SortStable(Filter(apts, ShownOn(day)), StartKey, k);
  }
}
