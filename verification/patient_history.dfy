/** A patient's history as the patient-details modal and page show it
    (the two compute it alike): the appointments booked under the
    patient's exact name, newest first; the last visit; the number of
    visits; and the "next appointment", which as written is the latest
    future appointment rather than the soonest. */
module PatientHistory {
  import opened Wrappers
  import opened Clock
  import opened Lists
  import opened Sorting
  import opened Records
  import CalendarDialog
  import WhatsApp

  function StartKey(a: Appointment): int {
    CalendarDialog.StartKey(a)
  }

  /** `(a, b) => new Date(b.date) - new Date(a.date)`. */
  function NewestFirstKey(a: Appointment): int {
    -StartKey(a)
  }

  /** `apt.clientName === patient.name`: an appointment whose name was
      erased matches no patient. */
  function ForPatient(name: string): Appointment -> bool {
    (a: Appointment) => a.clientName == Some(name)
  }

  /** `patientAppointments`: the patient's appointments, newest first. */
  function History(apts: seq<Appointment>, name: string): (h: seq<Appointment>)
    ensures forall i :: 0 <= i < |h| ==> h[i] in apts && h[i].clientName == Some(name)
    ensures forall i :: 0 <= i < |apts| && apts[i].clientName == Some(name) ==> apts[i] in h
    ensures multiset(h) == multiset(Filter(apts, ForPatient(name)))
    ensures forall i, j :: 0 <= i < j < |h| ==> StartKey(h[j]) <= StartKey(h[i])
  {
    var h := SortBy(Filter(apts, ForPatient(name)), NewestFirstKey);
    PatientMembers(apts, name, h);
    NewestFirstOrder(h);
    h
  }

  /** A reordering of the patient's appointments holds exactly them. */
  lemma {:induction false} PatientMembers(apts: seq<Appointment>, name: string, h: seq<Appointment>)
    requires multiset(h) == multiset(Filter(apts, ForPatient(name)))
    ensures forall i :: 0 <= i < |h| ==> h[i] in apts && h[i].clientName == Some(name)
    ensures forall i :: 0 <= i < |apts| && apts[i].clientName == Some(name) ==> apts[i] in h
  {
    var mine := Filter(apts, ForPatient(name));
    CalendarDialog.MultisetMembers(mine, h);
    forall i | 0 <= i < |h|
      ensures h[i] in apts && h[i].clientName == Some(name)
    {
      var k :| 0 <= k < |mine| && mine[k] == h[i];
    }
    forall i | 0 <= i < |apts| && apts[i].clientName == Some(name)
      ensures apts[i] in h
    {
      assert ForPatient(name)(apts[i]);
      assert apts[i] in mine;
    }
  }

  /** Ascending by the negated start is descending by the start. */
  lemma {:induction false} NewestFirstOrder(h: seq<Appointment>)
    requires SortedBy(h, NewestFirstKey)
    ensures forall i, j :: 0 <= i < j < |h| ==> StartKey(h[j]) <= StartKey(h[i])
  {
    forall i, j | 0 <= i < j < |h|
      ensures StartKey(h[j]) <= StartKey(h[i])
    {
      assert NewestFirstKey(h[i]) <= NewestFirstKey(h[j]);
    }
  }

  /** The first match in a sequence sorted by a key has the least key of
      all matches. */
  lemma {:induction false} FirstMatchLeast<T>(s: seq<T>, key: T -> int, p: T -> bool)
    requires SortedBy(s, key) && Find(s, p).Some?
    ensures forall j :: 0 <= j < |s| && p(s[j]) ==> key(Find(s, p).value) <= key(s[j])
  {
    var i :| 0 <= i < |s| && s[i] == Find(s, p).value && p(s[i]) && forall j :: 0 <= j < i ==> !p(s[j]);
    forall j | 0 <= j < |s| && p(s[j])
      ensures key(s[i]) <= key(s[j])
    {
      assert i <= j;
    }
  }

  /** Searching a reordering of the members of `apts` that satisfy `q`,
      sorted by `key`, finds a member satisfying `q` and `p` exactly when
      there is one, and finds one with the least key. */
  lemma {:induction false} FindInReordered<T>(apts: seq<T>, q: T -> bool, h: seq<T>, key: T -> int, p: T -> bool)
    requires multiset(h) == multiset(Filter(apts, q)) && SortedBy(h, key)
    ensures Find(h, p).Some? <==> exists i :: 0 <= i < |apts| && q(apts[i]) && p(apts[i])
    ensures Find(h, p).Some? ==> Find(h, p).value in apts && q(Find(h, p).value) && p(Find(h, p).value)
    ensures Find(h, p).Some? ==>
      forall i :: 0 <= i < |apts| && q(apts[i]) && p(apts[i]) ==> key(Find(h, p).value) <= key(apts[i])
  {
    CalendarDialog.MultisetMembers(Filter(apts, q), h);
    FoundIsLeast(apts, q, h, key, p);
    FoundWhenPresent(apts, q, h, p);
  }

  lemma {:induction false} FoundIsLeast<T>(apts: seq<T>, q: T -> bool, h: seq<T>, key: T -> int, p: T -> bool)
    requires SortedBy(h, key)
    requires forall i :: 0 <= i < |apts| && q(apts[i]) ==> apts[i] in h
    ensures Find(h, p).Some? ==>
      forall i :: 0 <= i < |apts| && q(apts[i]) && p(apts[i]) ==> key(Find(h, p).value) <= key(apts[i])
  {
    var r := Find(h, p);
    if r.Some? {
      FirstMatchLeast(h, key, p);
      forall i | 0 <= i < |apts| && q(apts[i]) && p(apts[i])
        ensures key(r.value) <= key(apts[i])
      {
        var j :| 0 <= j < |h| && h[j] == apts[i];
      }
    }
  }

  lemma {:induction false} FoundWhenPresent<T>(apts: seq<T>, q: T -> bool, h: seq<T>, p: T -> bool)
    requires forall i :: 0 <= i < |apts| && q(apts[i]) ==> apts[i] in h
    requires forall j :: 0 <= j < |h| ==> h[j] in Filter(apts, q)
    ensures Find(h, p).Some? <==> exists i :: 0 <= i < |apts| && q(apts[i]) && p(apts[i])
    ensures Find(h, p).Some? ==> Find(h, p).value in apts && q(Find(h, p).value)
  {
    if exists i :: 0 <= i < |apts| && q(apts[i]) && p(apts[i]) {
      var i :| 0 <= i < |apts| && q(apts[i]) && p(apts[i]);
      var j :| 0 <= j < |h| && h[j] == apts[i];
    }
    var r := Find(h, p);
    if r.Some? {
      var j :| 0 <= j < |h| && h[j] == r.value && p(h[j]);
      var k :| 0 <= k < |Filter(apts, q)| && Filter(apts, q)[k] == h[j];
      assert h[j] in apts;
    }
  }

  /** Searching the newest-first history finds one of the patient's
      appointments that passes `p` exactly when there is one, and finds the
      one starting latest. */
  lemma {:induction false} FindInHistory(apts: seq<Appointment>, name: string, p: Appointment -> bool)
    ensures Find(History(apts, name), p).Some? <==>
      exists i :: 0 <= i < |apts| && apts[i].clientName == Some(name) && p(apts[i])
    ensures Find(History(apts, name), p).Some? ==>
      Find(History(apts, name), p).value in apts && Find(History(apts, name), p).value.clientName == Some(name)
      && p(Find(History(apts, name), p).value)
    ensures Find(History(apts, name), p).Some? ==>
      forall i :: 0 <= i < |apts| && apts[i].clientName == Some(name) && p(apts[i]) ==>
        StartKey(apts[i]) <= StartKey(Find(History(apts, name), p).value)
  {
    var h := History(apts, name);
    var q := ForPatient(name);
    FindInReordered(apts, q, h, NewestFirstKey, p);
    assert forall i :: 0 <= i < |apts| ==> q(apts[i]) == (apts[i].clientName == Some(name));
    var r := Find(h, p);
    if r.Some? {
      assert q(r.value);
      forall i | 0 <= i < |apts| && apts[i].clientName == Some(name) && p(apts[i])
        ensures StartKey(apts[i]) <= StartKey(r.value)
      {
        assert q(apts[i]);
        assert NewestFirstKey(r.value) <= NewestFirstKey(apts[i]);
      }
    }
  }

  /** Counting commutes with reordering. */
  lemma {:induction false} CountPermutation<T>(s: seq<T>, t: seq<T>, p: T -> bool)
    requires multiset(s) == multiset(t)
    ensures |Filter(s, p)| == |Filter(t, p)|
    decreases |s|
  {
    if |s| == 0 {
      assert |multiset(t)| == 0;
    } else {
      var x := s[|s| - 1];
      assert x in multiset(t);
      var k :| 0 <= k < |t| && t[k] == x;
      MultisetRemoveLast(s, t, k);
      CountPermutation(s[..|s| - 1], t[..k] + t[k + 1..], p);
      CountRemoveAt(t, k, p);
      CountRemoveAt(s, |s| - 1, p);
      assert s[..|s| - 1] + s[|s| - 1 + 1..] == s[..|s| - 1];
    }
  }

  /** The count in `b` is the count in the others plus one for its `j`-th
      element when that passes. */
  lemma {:induction false} CountRemoveAt<T>(b: seq<T>, j: int, p: T -> bool)
    requires 0 <= j < |b|
    ensures |Filter(b, p)| == |Filter(b[..j] + b[j + 1..], p)| + (if p(b[j]) then 1 else 0)
  {
    var x := b[j];
    assert b == b[..j] + [x] + b[j + 1..];
    FilterAppend(b[..j] + [x], b[j + 1..], p);
    FilterAppend(b[..j], [x], p);
    FilterAppend(b[..j], b[j + 1..], p);
    FilterSingle(x, p);
  }

  function IsCompleted(a: Appointment): bool {
    a.status == Completed
  }

  /** The last visit: the most recent completed appointment of the patient,
      `None` ("No visits yet") when there is none. */
  function LastVisit(apts: seq<Appointment>, name: string): (r: Option<Appointment>)
    ensures r.None? <==> forall i :: 0 <= i < |apts| && apts[i].clientName == Some(name) ==> !IsCompleted(apts[i])
    ensures r.Some? ==> r.value in apts && r.value.clientName == Some(name) && IsCompleted(r.value)
    ensures r.Some? ==> forall i :: 0 <= i < |apts| && apts[i].clientName == Some(name) && IsCompleted(apts[i]) ==>
                          StartKey(apts[i]) <= StartKey(r.value)
  {
    FindInHistory(apts, name, IsCompleted);
    Find(History(apts, name), IsCompleted)
  }

  /** Total visits: the number of the patient's completed appointments;
      there is a last visit exactly when it is not zero. */
  function TotalVisits(apts: seq<Appointment>, name: string): (n: nat)
    ensures n == |Filter(Filter(apts, ForPatient(name)), IsCompleted)|
    ensures n > 0 <==> LastVisit(apts, name).Some?
  {
    var h := History(apts, name);
    CountPermutation(h, Filter(apts, ForPatient(name)), IsCompleted);
    var mine := Filter(apts, ForPatient(name));
    FindInReordered(apts, ForPatient(name), h, NewestFirstKey, IsCompleted);
    assert |Filter(mine, IsCompleted)| > 0 ==> Filter(mine, IsCompleted)[0] in mine;
    |Filter(h, IsCompleted)|
  }

  // ---------------------------------------------------------------------
  // The next appointment

  /** Scheduled and starting after `now`; an unreadable date is never in
      the future. */
  function Upcoming(now: Instant): Appointment -> bool {
    (a: Appointment) => a.status == Scheduled && Before(now, a.date)
  }

  predicate HasUpcoming(apts: seq<Appointment>, name: string, now: Instant) {
    exists i :: 0 <= i < |apts| && apts[i].clientName == Some(name) && Upcoming(now)(apts[i])
  }

  /** "Next appointment" as written: the first upcoming appointment of the
      newest-first history, which is the one starting LATEST. */
  function NextAppointmentAsWritten(apts: seq<Appointment>, name: string, now: Instant): (r: Option<Appointment>)
    ensures r.Some? <==> HasUpcoming(apts, name, now)
    ensures r.Some? ==> r.value in apts && r.value.clientName == Some(name) && Upcoming(now)(r.value)
    ensures r.Some? ==> forall i :: 0 <= i < |apts| && apts[i].clientName == Some(name) && Upcoming(now)(apts[i]) ==>
                          StartKey(apts[i]) <= StartKey(r.value)
  {
    FindInHistory(apts, name, Upcoming(now));
    Find(History(apts, name), Upcoming(now))
  }

  /** "Next appointment" as intended: the upcoming appointment of the
      patient that starts SOONEST (the first of the oldest-first history). */
  function NextAppointment(apts: seq<Appointment>, name: string, now: Instant): (r: Option<Appointment>)
    ensures r.Some? <==> HasUpcoming(apts, name, now)
    ensures r.Some? ==> r.value in apts && r.value.clientName == Some(name) && Upcoming(now)(r.value)
    ensures r.Some? ==> forall i :: 0 <= i < |apts| && apts[i].clientName == Some(name) && Upcoming(now)(apts[i]) ==>
                          StartKey(r.value) <= StartKey(apts[i])
  {
    var h := SortBy(Filter(apts, ForPatient(name)), StartKey);
    FindInReordered(apts, ForPatient(name), h, StartKey, Upcoming(now));
    Find(h, Upcoming(now))
  }

  /** A patient with two upcoming appointments is shown the later one as
      "next": the code as written never picks the sooner, the intended
      reading never picks the later. */
  lemma {:induction false} NextIsLatest(apts: seq<Appointment>, name: string, now: Instant, soon: Appointment, late: Appointment)
    requires soon in apts && late in apts
    requires soon.clientName == Some(name) && late.clientName == Some(name)
    requires Upcoming(now)(soon) && Upcoming(now)(late)
    requires StartKey(soon) < StartKey(late)
    ensures NextAppointmentAsWritten(apts, name, now) != Some(soon)
    ensures NextAppointment(apts, name, now) != Some(late)
  {
    var i :| 0 <= i < |apts| && apts[i] == soon;
    var j :| 0 <= j < |apts| && apts[j] == late;
  }

  /** With at most one upcoming appointment the two readings agree. */
  lemma {:induction false} NextAgreesWhenAlone(apts: seq<Appointment>, name: string, now: Instant)
    requires forall i, j :: (0 <= i < |apts| && 0 <= j < |apts|
                             && apts[i].clientName == Some(name) && Upcoming(now)(apts[i])
                             && apts[j].clientName == Some(name) && Upcoming(now)(apts[j])) ==> apts[i] == apts[j]
    ensures NextAppointmentAsWritten(apts, name, now) == NextAppointment(apts, name, now)
  {
    var a := NextAppointmentAsWritten(apts, name, now);
    var b := NextAppointment(apts, name, now);
    if a.Some? {
      var i :| 0 <= i < |apts| && apts[i] == a.value;
      var j :| 0 <= j < |apts| && apts[j] == b.value;
    }
  }

  // ---------------------------------------------------------------------
  // Messaging the patient

  /** The WhatsApp button: the general message to the patient's phone. */
  function MessagePatient(p: Client): (r: Option<WhatsApp.Request>)
    ensures r.Some? <==> WhatsApp.InternationalNumber(Some(p.phone)).Some?
    ensures r.Some? ==> r.value.number == WhatsApp.InternationalNumber(Some(p.phone)).value
    ensures r.Some? ==> r.value.text == Some(WhatsApp.GeneralMessage(p.name))
                        && WhatsApp.Greets(r.value.text.value, p.name)
  {
    WhatsApp.Send(Some(p.phone), WhatsApp.GeneralMessage(p.name))
  }

  /** A click on the name: the patient's chat with no text. */
  function OpenChat(p: Client): (r: Option<WhatsApp.Request>)
    ensures r.Some? <==> WhatsApp.InternationalNumber(Some(p.phone)).Some?
    ensures r.Some? ==> r.value.number == WhatsApp.InternationalNumber(Some(p.phone)).value
    ensures r.Some? ==> r.value.text.None?
  {
    WhatsApp.Send(Some(p.phone), "")
  }
}
