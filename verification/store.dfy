/** The application's three collections (clients, appointments and the
    waiting list) and the operations the application shell and the shared
    context apply to them. Every operation is a pure function from the old
    collection to the new one. */
module Store {
  import opened Wrappers
  import opened Clock
  import opened Lists
  import opened Records

  datatype State = State(clients: seq<Client>, appointments: seq<Appointment>, waitingList: seq<WaitingEntry>)

  /** The starting state: each collection as stored, or empty when nothing
      is stored. */
  function InitialLoad(clients: Option<seq<Client>>, apts: Option<seq<Appointment>>,
                       waiting: Option<seq<WaitingEntry>>): (s: State)
    ensures clients.Some? ==> s.clients == clients.value
    ensures apts.Some? ==> s.appointments == apts.value
    ensures waiting.Some? ==> s.waitingList == waiting.value
    ensures clients.None? ==> s.clients == []
    ensures apts.None? ==> s.appointments == []
    ensures waiting.None? ==> s.waitingList == []
  {
    State(clients.GetOr([]), apts.GetOr([]), waiting.GetOr([]))
  }

  // ---------------------------------------------------------------------
  // Appointments

  predicate HasApptId(apts: seq<Appointment>, id: Id) {
    exists i :: 0 <= i < |apts| && apts[i].id == id
  }

  /** `prev.map(apt => apt.id === id ? f(apt) : apt)` for the update `f`
      given as a replacement per position. */
  function MapMatching(apts: seq<Appointment>, id: Id, f: Appointment -> Appointment): (r: seq<Appointment>)
    ensures |r| == |apts|
    ensures forall i :: 0 <= i < |apts| ==> r[i] == if apts[i].id == id then f(apts[i]) else apts[i]
  {
    seq(|apts|, i requires 0 <= i < |apts| => if apts[i].id == id then f(apts[i]) else apts[i])
  }

  /** `handleAddAppointment`: an appointment whose id is already present
      replaces every appointment with that id in place; otherwise it is
      appended. */
  function Upsert(apts: seq<Appointment>, a: Appointment): (r: seq<Appointment>)
    ensures HasApptId(apts, a.id) ==> |r| == |apts|
    ensures !HasApptId(apts, a.id) ==> r == apts + [a]
    ensures forall i :: 0 <= i < |apts| && apts[i].id != a.id ==> r[i] == apts[i]
    ensures forall i :: 0 <= i < |apts| && apts[i].id == a.id ==> r[i] == a
    ensures forall i :: 0 <= i < |r| ==> r[i] == a || (r[i] in apts && r[i].id != a.id)
    ensures a in r
  {
    if HasApptId(apts, a.id) then
      var r := MapMatching(apts, a.id, _ => a);
      var k :| 0 <= k < |apts| && apts[k].id == a.id;
      assert r[k] == a;
      r
    else apts + [a]
  }

  /** Saving the same record twice is saving it once. */
  lemma {:induction false} UpsertIdempotent(apts: seq<Appointment>, a: Appointment)
    ensures Upsert(Upsert(apts, a), a) == Upsert(apts, a)
  {
    var once := Upsert(apts, a);
    assert HasApptId(once, a.id) by {
      var k :| 0 <= k < |once| && once[k] == a;
    }
    var twice := Upsert(once, a);
    assert |twice| == |once|;
    forall i | 0 <= i < |once|
      ensures twice[i] == once[i]
    {
      if once[i].id == a.id {
        assert once[i] == a;
      }
    }
  }

  /** After a save exactly one record has the saved id when ids were unique
      before, and it is the saved record. */
  lemma {:induction false} UpsertKeepsIdsUnique(apts: seq<Appointment>, a: Appointment)
    requires forall i, j :: 0 <= i < j < |apts| ==> apts[i].id != apts[j].id
    ensures var r := Upsert(apts, a);
      forall i, j :: 0 <= i < j < |r| ==> r[i].id != r[j].id
  {
    var r := Upsert(apts, a);
    if !HasApptId(apts, a.id) {
      forall i, j | 0 <= i < j < |r|
        ensures r[i].id != r[j].id
      {
        if j == |apts| {
          assert r[i] == apts[i];
        }
      }
    }
  }

  /** Check-in, cancel and restore set the status of the appointments with
      the given id, whatever it was, and touch nothing else. */
  function SetStatus(apts: seq<Appointment>, id: Id, status: string): (r: seq<Appointment>)
    ensures |r| == |apts|
    ensures forall i :: 0 <= i < |apts| && apts[i].id == id ==> r[i] == apts[i].(status := status)
    ensures forall i :: 0 <= i < |apts| && apts[i].id != id ==> r[i] == apts[i]
  {
    MapMatching(apts, id, (a: Appointment) => a.(status := status))
  }

  function CheckIn(apts: seq<Appointment>, id: Id): (r: seq<Appointment>)
    ensures |r| == |apts|
    ensures forall i :: 0 <= i < |apts| && apts[i].id == id ==> r[i].status == CheckedIn && r[i].id == id
    ensures forall i :: 0 <= i < |apts| && apts[i].id != id ==> r[i] == apts[i]
  {
    SetStatus(apts, id, CheckedIn)
  }

  function Cancel(apts: seq<Appointment>, id: Id): (r: seq<Appointment>)
    ensures |r| == |apts|
    ensures forall i :: 0 <= i < |apts| && apts[i].id == id ==> r[i].status == Cancelled && r[i].id == id
    ensures forall i :: 0 <= i < |apts| && apts[i].id != id ==> r[i] == apts[i]
  {
    SetStatus(apts, id, Cancelled)
  }

  function Restore(apts: seq<Appointment>, id: Id): (r: seq<Appointment>)
    ensures |r| == |apts|
    ensures forall i :: 0 <= i < |apts| && apts[i].id == id ==> r[i].status == Scheduled && r[i].id == id
    ensures forall i :: 0 <= i < |apts| && apts[i].id != id ==> r[i] == apts[i]
  {
    SetStatus(apts, id, Scheduled)
  }

  /** Restoring undoes a cancellation or a check-in of a scheduled
      appointment, and only the last status change counts. */
  lemma {:induction false} RestoreUndoes(apts: seq<Appointment>, id: Id, status: string)
    requires forall i :: 0 <= i < |apts| && apts[i].id == id ==> apts[i].status == Scheduled
    ensures Restore(SetStatus(apts, id, status), id) == apts
  {
    var r := Restore(SetStatus(apts, id, status), id);
    forall i | 0 <= i < |apts|
      ensures r[i] == apts[i]
    {
    }
  }

  lemma {:induction false} LastStatusWins(apts: seq<Appointment>, id: Id, s1: string, s2: string)
    ensures SetStatus(SetStatus(apts, id, s1), id, s2) == SetStatus(apts, id, s2)
  {
    var a := SetStatus(SetStatus(apts, id, s1), id, s2);
    var b := SetStatus(apts, id, s2);
    forall i | 0 <= i < |apts|
      ensures a[i] == b[i]
    {
    }
  }

  /** The fields of an edited patient as handed over by the today view;
      each may be missing. */
  datatype PatientEdit = PatientEdit(id: Id, clientName: Option<string>, phone: Option<string>,
                                     email: Option<string>, notes: Option<string>)

  /** `handleUpdatePatient`: the appointment with the edit's id takes its
      four contact fields, missing ones included. */
  function UpdatePatient(apts: seq<Appointment>, p: PatientEdit): (r: seq<Appointment>)
    ensures |r| == |apts|
    ensures forall i :: 0 <= i < |apts| && apts[i].id != p.id ==> r[i] == apts[i]
    ensures forall i :: 0 <= i < |apts| && apts[i].id == p.id ==>
      r[i].clientName == p.clientName && r[i].phone == p.phone && r[i].email == p.email && r[i].notes == p.notes
    ensures forall i :: 0 <= i < |apts| ==>
      r[i].(clientName := apts[i].clientName, phone := apts[i].phone, email := apts[i].email,
            notes := apts[i].notes) == apts[i]
  {
    MapMatching(apts, p.id, (a: Appointment) => a.(clientName := p.clientName, phone := p.phone, email := p.email, notes := p.notes))
  }

  /** Applying the same patient edit twice is applying it once, and an
      edit never moves, renumbers, reschedules or re-treats an
      appointment. */
  lemma {:induction false} UpdatePatientIdempotent(apts: seq<Appointment>, p: PatientEdit)
    ensures UpdatePatient(UpdatePatient(apts, p), p) == UpdatePatient(apts, p)
    ensures var r := UpdatePatient(apts, p);
      forall i :: 0 <= i < |apts| ==>
        r[i].id == apts[i].id && r[i].date == apts[i].date && r[i].endTime == apts[i].endTime
        && r[i].treatment == apts[i].treatment && r[i].status == apts[i].status
  {
    var once := UpdatePatient(apts, p);
    var twice := UpdatePatient(once, p);
    forall i | 0 <= i < |apts|
      ensures twice[i] == once[i]
      ensures once[i].id == apts[i].id && once[i].date == apts[i].date && once[i].endTime == apts[i].endTime
              && once[i].treatment == apts[i].treatment && once[i].status == apts[i].status
    {
      var back := once[i].(clientName := apts[i].clientName, phone := apts[i].phone, email := apts[i].email,
                           notes := apts[i].notes);
      assert back == apts[i];
    }
  }

  /** An update as `{ ...apt, ...updates }` applies it: each field the
      update carries replaces the appointment's, the rest stay. */
  datatype AppointmentPatch = AppointmentPatch(
    date: Option<Instant>,
    endTime: Option<Option<Instant>>,
    clientId: Option<Option<Id>>,
    clientName: Option<Option<string>>,
    treatment: Option<string>,
    notes: Option<Option<string>>,
    status: Option<string>,
    phone: Option<Option<string>>,
    email: Option<Option<string>>)

  const NoChange := AppointmentPatch(None, None, None, None, None, None, None, None, None)

  /** The spread merge; the id is not part of an update. */
  function Merge(a: Appointment, u: AppointmentPatch): (r: Appointment)
    ensures r.id == a.id
    ensures u.status.Some? ==> r.status == u.status.value
    ensures u.status.None? ==> r.status == a.status
    ensures u.date.None? ==> r.date == a.date
    ensures u.clientName.None? ==> r.clientName == a.clientName
  {
    Appointment(a.id, u.date.GetOr(a.date), u.endTime.GetOr(a.endTime), u.clientId.GetOr(a.clientId),
                u.clientName.GetOr(a.clientName), u.treatment.GetOr(a.treatment), u.notes.GetOr(a.notes),
                u.status.GetOr(a.status), u.phone.GetOr(a.phone), u.email.GetOr(a.email))
  }

  /** An empty update changes nothing, and applying an update twice is
      applying it once. */
  lemma {:induction false} MergeLaws(a: Appointment, u: AppointmentPatch)
    ensures Merge(a, NoChange) == a
    ensures Merge(Merge(a, u), u) == Merge(a, u)
  {
  }

  /** The context's `updateAppointment`. */
  function UpdateAppointment(apts: seq<Appointment>, id: Id, u: AppointmentPatch): (r: seq<Appointment>)
    ensures |r| == |apts|
    ensures forall i :: 0 <= i < |apts| ==> r[i].id == apts[i].id
    ensures forall i :: 0 <= i < |apts| && apts[i].id != id ==> r[i] == apts[i]
    ensures forall i :: 0 <= i < |apts| && apts[i].id == id ==> r[i] == Merge(apts[i], u)
  {
    MapMatching(apts, id, (a: Appointment) => Merge(a, u))
  }

  /** `deleteAppointment` and `handleDeleteAppointment` (the two delete
      paths filter alike): the appointments with another id, in order. */
  function DeleteAppointment(apts: seq<Appointment>, id: Id): (r: seq<Appointment>)
    ensures forall i :: 0 <= i < |r| ==> r[i].id != id && r[i] in apts
    ensures forall i :: 0 <= i < |apts| && apts[i].id != id ==> apts[i] in r
    ensures !HasApptId(apts, id) ==> r == apts
  {
    FilterAll(apts, (a: Appointment) => a.id != id);
    Filter(apts, (a: Appointment) => a.id != id)
  }

  /** Deleting keeps the survivors' order: deleting from a concatenation
      deletes from each part. */
  lemma {:induction false} DeleteAppointmentAppend(a: seq<Appointment>, b: seq<Appointment>, id: Id)
    ensures DeleteAppointment(a + b, id) == DeleteAppointment(a, id) + DeleteAppointment(b, id)
  {
    FilterAppend(a, b, (x: Appointment) => x.id != id);
  }

  // ---------------------------------------------------------------------
  // Clients

  /** `setClients(prev => [...prev, client])`. */
  function AddClient(s: State, c: Client): (r: State)
    ensures r.clients == s.clients + [c]
    ensures r.appointments == s.appointments && r.waitingList == s.waitingList
  {
    s.(clients := s.clients + [c])
  }

  /** Deleting the id of a client just added, whose id nobody else
      carried, gives back the state before the addition. */
  lemma {:induction false} DeleteUndoesAdd(s: State, c: Client)
    requires forall i :: 0 <= i < |s.clients| ==> s.clients[i].id != c.id
    ensures DeleteClient(AddClient(s, c), Some(c.id)) == s
  {
    var keep := (x: Client) => x.id != c.id;
    FilterAppend(s.clients, [c], keep);
    FilterAll(s.clients, keep);
    assert Filter([c], keep) == [];
  }

  /** `onDeleteClient`: `None` (null) clears every client, an id removes
      the clients with that id; appointments are left alone. */
  function DeleteClient(s: State, id: Option<Id>): (r: State)
    ensures id.None? ==> r.clients == []
    ensures id.Some? ==> forall i :: 0 <= i < |r.clients| ==> r.clients[i].id != id.value && r.clients[i] in s.clients
    ensures id.Some? ==> forall i :: 0 <= i < |s.clients| && s.clients[i].id != id.value ==> s.clients[i] in r.clients
    ensures r.appointments == s.appointments && r.waitingList == s.waitingList
  {
    match id
    case None => s.(clients := [])
    case Some(k) => s.(clients := Filter(s.clients, (c: Client) => c.id != k))
  }

  /** `onUpdateClient` is `setClients`: its argument becomes the client
      collection. */
  function ReplaceClients(s: State, cs: seq<Client>): (r: State)
    ensures r.clients == cs && r.appointments == s.appointments && r.waitingList == s.waitingList
  {
    s.(clients := cs)
  }

  /** Replacing the clients with the ones already held changes nothing, and
      only the last replacement counts. */
  lemma {:induction false} ReplaceClientsLaws(s: State, a: seq<Client>, b: seq<Client>)
    ensures ReplaceClients(s, s.clients) == s
    ensures ReplaceClients(ReplaceClients(s, a), b) == ReplaceClients(s, b)
  {
  }

  /** The fields an update to a client may carry; `name` is `None` when
      the update has no name. */
  datatype ClientPatch = ClientPatch(name: Option<string>, phone: Option<string>, email: Option<Option<string>>,
                                     notes: Option<Option<string>>, status: Option<string>)

  function MergeClient(c: Client, u: ClientPatch): (r: Client)
    ensures r.id == c.id && r.treatmentHistory == c.treatmentHistory && r.totalSpent == c.totalSpent
    ensures u.name.Some? ==> r.name == u.name.value
    ensures u.name.None? ==> r.name == c.name
  {
    c.(name := u.name.GetOr(c.name), phone := u.phone.GetOr(c.phone), email := u.email.GetOr(c.email),
       notes := u.notes.GetOr(c.notes), status := u.status.GetOr(c.status))
  }

  /** The context's `updateClient` applied to the clients. */
  function UpdateClientRecords(cs: seq<Client>, id: Id, u: ClientPatch): (r: seq<Client>)
    ensures |r| == |cs|
    ensures forall i :: 0 <= i < |cs| ==> r[i] == if cs[i].id == id then MergeClient(cs[i], u) else cs[i]
  {
    seq(|cs|, i requires 0 <= i < |cs| => if cs[i].id == id then MergeClient(cs[i], u) else cs[i])
  }

  /** The cascade as written: every appointment of the client takes the
      update's `name`, which is `undefined` when the update has none. */
  function CascadeAsWritten(apts: seq<Appointment>, id: Id, u: ClientPatch): (r: seq<Appointment>)
    ensures |r| == |apts|
    ensures forall i :: 0 <= i < |apts| && apts[i].clientId == Some(id) ==> r[i] == apts[i].(clientName := u.name)
    ensures forall i :: 0 <= i < |apts| && apts[i].clientId != Some(id) ==> r[i] == apts[i]
  {
    seq(|apts|, i requires 0 <= i < |apts| =>
      if apts[i].clientId == Some(id) then apts[i].(clientName := u.name) else apts[i])
  }

  /** The cascade as intended: the client's appointments follow a rename
      and keep their name when the update has none. */
  function Cascade(apts: seq<Appointment>, id: Id, u: ClientPatch): (r: seq<Appointment>)
    ensures |r| == |apts|
    ensures forall i :: 0 <= i < |apts| && apts[i].clientId == Some(id) && u.name.Some? ==>
      r[i] == apts[i].(clientName := u.name)
    ensures u.name.None? ==> r == apts
    ensures forall i :: 0 <= i < |apts| && apts[i].clientId != Some(id) ==> r[i] == apts[i]
  {
    if u.name.None? then apts else CascadeAsWritten(apts, id, u)
  }

  /** `updateClient` with the intended cascade. */
  function UpdateClient(s: State, id: Id, u: ClientPatch): (r: State)
    ensures r.clients == UpdateClientRecords(s.clients, id, u)
    ensures r.appointments == Cascade(s.appointments, id, u)
    ensures r.waitingList == s.waitingList
  {
    s.(clients := UpdateClientRecords(s.clients, id, u), appointments := Cascade(s.appointments, id, u))
  }

  /** After a rename the client's appointments carry the client's new name;
      after any update they carry whatever name they carried before or
      the client's current name. */
  lemma {:induction false} CascadeAgreesWithClient(s: State, id: Id, u: ClientPatch, i: int, j: int)
    requires 0 <= i < |s.appointments| && s.appointments[i].clientId == Some(id)
    requires 0 <= j < |s.clients| && s.clients[j].id == id
    ensures var r := UpdateClient(s, id, u);
      r.appointments[i].clientName == s.appointments[i].clientName
      || r.appointments[i].clientName == Some(r.clients[j].name)
    ensures u.name.Some? ==> UpdateClient(s, id, u).appointments[i].clientName == Some(UpdateClient(s, id, u).clients[j].name)
  {
    var r := UpdateClient(s, id, u);
    assert r.clients[j] == MergeClient(s.clients[j], u);
  }

  /** The finding: a phone-only update erases the client's name from all
      of the client's appointments as written, and leaves it as intended. */
  lemma {:induction false} PhoneUpdateErasesNames(a: Appointment, id: Id)
    requires a.clientId == Some(id) && a.clientName == Some("Dana")
    ensures var u := ClientPatch(None, Some("050"), None, None, None);
      CascadeAsWritten([a], id, u)[0].clientName.None? && Cascade([a], id, u)[0].clientName == Some("Dana")
  {
  }

  // ---------------------------------------------------------------------
  // Waiting list

  /** `prev.filter(p => p.id !== id)`: starting a waiting patient's
      treatment and removing them from the list are this one operation. */
  function RemoveWaiting(list: seq<WaitingEntry>, id: Option<Id>): (r: seq<WaitingEntry>)
    ensures forall i :: 0 <= i < |r| ==> r[i].id != id && r[i] in list
    ensures forall i :: 0 <= i < |list| && list[i].id != id ==> list[i] in r
    ensures (forall i :: 0 <= i < |list| ==> list[i].id != id) ==> r == list
  {
    FilterAll(list, (e: WaitingEntry) => e.id != id);
    Filter(list, (e: WaitingEntry) => e.id != id)
  }

  /** Removing twice is removing once. */
  lemma {:induction false} RemoveWaitingIdempotent(list: seq<WaitingEntry>, id: Option<Id>)
    ensures RemoveWaiting(RemoveWaiting(list, id), id) == RemoveWaiting(list, id)
  {
  }

  /** `addToWaitingList`: an entry with a (truthy) id is appended as is;
      any other is appended as a fresh waiting entry with id `now`, time
      `at`, status "waiting" and empty notes and phone when missing. */
  function AddToWaitingList(list: seq<WaitingEntry>, e: WaitingEntry, now: Id, at: Instant): (r: seq<WaitingEntry>)
    ensures |r| == |list| + 1 && r[..|list|] == list
    ensures HasId(e.id) ==> r[|list|] == e
    ensures !HasId(e.id) ==> r[|list|].id == Some(now) && r[|list|].addedAt == Some(at)
                             && r[|list|].status == Some(Waiting)
                             && r[|list|].clientName == e.clientName && r[|list|].treatment == e.treatment
                             && r[|list|].notes == Some(OrEmpty(e.notes)) && r[|list|].phone == Some(OrEmpty(e.phone))
  {
    var entry := if HasId(e.id) then e
      else WaitingEntry(Some(now), e.clientName, Some(OrEmpty(e.phone)), e.treatment, Some(OrEmpty(e.notes)),
                        Some(at), Some(Waiting));
    list + [entry]
  }

  /** An entry added with a fresh non-zero id is removed again by its id,
      leaving the list as it was when no entry had that id. */
  lemma {:induction false} AddThenRemove(list: seq<WaitingEntry>, e: WaitingEntry, now: Id, at: Instant)
    requires now != 0
    requires forall i :: 0 <= i < |list| ==> list[i].id != Some(now)
    requires HasId(e.id) ==> e.id == Some(now)
    ensures RemoveWaiting(AddToWaitingList(list, e, now, at), Some(now)) == list
  {
    var r := AddToWaitingList(list, e, now, at);
    var p := (x: WaitingEntry) => x.id != Some(now);
    assert r == list + [r[|list|]];
    FilterAppend(list, [r[|list|]], p);
    FilterAll(list, p);
    assert Filter([r[|list|]], p) == [];
  }

  // ---------------------------------------------------------------------
  // Backup restore

  datatype Backup = Backup(clients: seq<Client>, appointments: seq<Appointment>, waitingList: seq<WaitingEntry>)

  /** `restoreData`: a backup that was read replaces all three collections;
      a failed read (`None`) changes none of them. */
  function RestoreData(s: State, backup: Option<Backup>): (r: State)
    ensures backup.None? ==> r == s
    ensures backup.Some? ==> r.clients == backup.value.clients && r.appointments == backup.value.appointments
                             && r.waitingList == backup.value.waitingList
  {
    match backup
    case None => s
    case Some(b) => State(b.clients, b.appointments, b.waitingList)
  }

  /** Restoring forgets the state it replaces: the last restore wins. */
  lemma {:induction false} RestoreForgets(s: State, t: State, b: Backup)
    ensures RestoreData(s, Some(b)) == RestoreData(t, Some(b))
  {
  }
}
