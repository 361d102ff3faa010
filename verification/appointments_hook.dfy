/** The `useAppointments` hook: the selected day's appointments and the
    add, update and delete operations it offers. Update and delete are the
    store's `Store.UpdateAppointment` and `Store.DeleteAppointment`; adding
    differs from the store's upsert. */
module AppointmentsHook {
  import opened Wrappers
  import opened Clock
  import opened Lists
  import opened Records
  import TodayView
  import Store

  /** `todayAppointments`: the appointments whose date prints as the
      selected date does, cancelled ones included, in stored order. */
  function DayAppointments(apts: seq<Appointment>, selected: Instant): (r: seq<Appointment>)
    ensures Subsequence(r, apts)
    ensures forall i :: 0 <= i < |r| ==> TodayView.SameDateString(r[i].date, selected)
    ensures forall i :: 0 <= i < |apts| && TodayView.SameDateString(apts[i].date, selected) ==> apts[i] in r
  {
    FilterSubsequence(apts, TodayView.OnDay(selected));
    Filter(apts, TodayView.OnDay(selected))
  }

  /** The hook's list is the today page's list before sorting: the same
      appointments, each as often. */
  lemma {:induction false} DayAppointmentsUnsorted(apts: seq<Appointment>, day: Instant)
    ensures multiset(DayAppointments(apts, day)) == multiset(TodayView.TodaysAppointments(apts, day))
  {
  }

  /** `addAppointment`: the record is always appended, with the fresh id
      `now` in place of any id it had. */
  function AddAppointment(apts: seq<Appointment>, a: Appointment, now: Id): (r: seq<Appointment>)
    ensures |r| == |apts| + 1 && r[..|apts|] == apts
    ensures r[|apts|].id == now && r[|apts|].(id := a.id) == a
  {
    apts + [a.(id := now)]
  }

  /** Adding never updates in place: a record whose id is already stored
      is appended again, where the store's upsert would replace it. */
  lemma {:induction false} AddNeverUpdates(apts: seq<Appointment>, a: Appointment, now: Id)
    requires Store.HasApptId(apts, a.id)
    ensures |AddAppointment(apts, a, now)| == |apts| + 1
    ensures |Store.Upsert(apts, a)| == |apts|
  {
  }

  /** An appointment added with a fresh id is removed again by deleting
      that id. */
  lemma {:induction false} AddThenDelete(apts: seq<Appointment>, a: Appointment, now: Id)
    requires !Store.HasApptId(apts, now)
    ensures Store.DeleteAppointment(AddAppointment(apts, a, now), now) == apts
  {
    Store.DeleteAppointmentAppend(apts, [a.(id := now)], now);
    assert AddAppointment(apts, a, now) == apts + [a.(id := now)];
  }
}
