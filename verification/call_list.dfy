/** The calls list: the day's appointments and waiting-list entries merged
    and ordered by time, and the call and WhatsApp actions, which look the
    client's phone up by exact name. */
module CallList {
  import opened Wrappers
  import opened Lists
  import opened Sorting
  import opened Clock
  import opened Records
  import TodayView
  import CalendarDialog
  import WhatsApp
  import Text

  /** A row of the merged list: an appointment or a waiting-list entry. */
  datatype Row = Booked(apt: Appointment) | Queued(entry: WaitingEntry)

  /** `new Date(row.date)`: a waiting-list entry has no date, so it reads as
      an invalid date. */
  function RowDate(r: Row): Instant {
    if r.Booked? then r.apt.date else Invalid
  }

  /** `isSameDay(date, referenceDate)`: false when either date is invalid. */
  function OnReferenceDay(reference: Instant): Row -> bool {
    (r: Row) => SameDay(RowDate(r), reference)
  }

  /** The sort key of a row; every row that passes the filter has a valid
      date. */
  function RowKey(r: Row): int {
    if RowDate(r).At? then RowDate(r).minutes else 0
  }

  /** `[...appointments, ...waitingList]`. */
  function Merged(apts: seq<Appointment>, waiting: seq<WaitingEntry>): (rows: seq<Row>)
    ensures |rows| == |apts| + |waiting|
    ensures forall i :: 0 <= i < |apts| ==> rows[i] == Booked(apts[i])
    ensures forall i :: 0 <= i < |waiting| ==> rows[|apts| + i] == Queued(waiting[i])
  {
    seq(|apts|, i requires 0 <= i < |apts| => Booked(apts[i]))
      + seq(|waiting|, i requires 0 <= i < |waiting| => Queued(waiting[i]))
  }

  /** `todaysCalls`: the rows dated on the reference day, earliest first.
      Waiting-list entries never qualify, and an invalid reference date
      lets nothing through. */
  function TodaysCalls(apts: seq<Appointment>, waiting: seq<WaitingEntry>, reference: Instant): (r: seq<Row>)
    ensures SortedBy(r, RowKey)
    ensures forall i :: 0 <= i < |r| ==> r[i].Booked? && r[i].apt in apts && SameDay(r[i].apt.date, reference)
    ensures forall i :: 0 <= i < |apts| && SameDay(apts[i].date, reference) ==> Booked(apts[i]) in r
    ensures reference.Invalid? ==> r == []
    ensures multiset(r) == multiset(Kept(apts, waiting, reference))
  {
    var kept := Kept(apts, waiting, reference);
    var r := SortBy(kept, RowKey);
    KeptRows(apts, waiting, reference);
    ReorderedRows(apts, reference, kept, r);
    r
  }

  /** A reordering of rows that are all booked on the reference day, and
      that include every such appointment, has both properties too. */
  lemma {:induction false} ReorderedRows(apts: seq<Appointment>, reference: Instant, kept: seq<Row>, r: seq<Row>)
    requires multiset(r) == multiset(kept)
    requires forall i :: 0 <= i < |kept| ==>
      kept[i].Booked? && kept[i].apt in apts && SameDay(kept[i].apt.date, reference)
    requires forall i :: 0 <= i < |apts| && SameDay(apts[i].date, reference) ==> Booked(apts[i]) in kept
    ensures forall i :: 0 <= i < |r| ==> r[i].Booked? && r[i].apt in apts && SameDay(r[i].apt.date, reference)
    ensures forall i :: 0 <= i < |apts| && SameDay(apts[i].date, reference) ==> Booked(apts[i]) in r
  {
    CalendarDialog.MultisetMembers(kept, r);
    forall i | 0 <= i < |r|
      ensures r[i].Booked? && r[i].apt in apts && SameDay(r[i].apt.date, reference)
    {
      var j :| 0 <= j < |kept| && kept[j] == r[i];
    }
    forall i | 0 <= i < |apts| && SameDay(apts[i].date, reference)
      ensures Booked(apts[i]) in r
    {
      var j :| 0 <= j < |kept| && kept[j] == Booked(apts[i]);
    }
  }

  /** The rows the filter keeps: appointments of the reference day, all of
      them. */
  function Kept(apts: seq<Appointment>, waiting: seq<WaitingEntry>, reference: Instant): seq<Row> {
    Filter(Merged(apts, waiting), OnReferenceDay(reference))
  }

  lemma {:induction false} KeptRows(apts: seq<Appointment>, waiting: seq<WaitingEntry>, reference: Instant)
    ensures forall i :: 0 <= i < |Kept(apts, waiting, reference)| ==>
      Kept(apts, waiting, reference)[i].Booked? && Kept(apts, waiting, reference)[i].apt in apts
      && SameDay(Kept(apts, waiting, reference)[i].apt.date, reference)
    ensures forall i :: 0 <= i < |apts| && SameDay(apts[i].date, reference) ==> Booked(apts[i]) in Kept(apts, waiting, reference)
  {
    var rows := Merged(apts, waiting);
    var kept := Kept(apts, waiting, reference);
    forall i | 0 <= i < |kept|
      ensures kept[i].Booked? && kept[i].apt in apts
    {
      var j :| 0 <= j < |rows| && rows[j] == kept[i];
    }
    forall i | 0 <= i < |apts| && SameDay(apts[i].date, reference)
      ensures Booked(apts[i]) in kept
    {
      assert rows[i] == Booked(apts[i]);
    }
  }

  /** For a valid reference date the calls list holds exactly the
      appointments the today page lists for that date. */
  lemma {:induction false} CallsAreTodaysAppointments(apts: seq<Appointment>, waiting: seq<WaitingEntry>, reference: Instant,
                                   a: Appointment)
    requires reference.At?
    ensures Booked(a) in TodaysCalls(apts, waiting, reference) <==> a in TodayView.TodaysAppointments(apts, reference)
  {
    var r := TodaysCalls(apts, waiting, reference);
    if Booked(a) in r {
      var i :| 0 <= i < |r| && r[i] == Booked(a);
      var j :| 0 <= j < |apts| && apts[j] == a;
      assert TodayView.SameDateString(apts[j].date, reference);
    }
  }

  // ---------------------------------------------------------------------
  // Actions

  function NamedExactly(name: Option<string>): Client -> bool {
    (c: Client) => name == Some(c.name)
  }

  /** `getClientPhone`: the phone of the first client whose name is exactly
      the row's, or "" when there is none. */
  function CallPhone(clients: seq<Client>, name: Option<string>): (phone: string)
    ensures (forall i :: 0 <= i < |clients| ==> Some(clients[i].name) != name) ==> phone == ""
    ensures phone != "" ==> exists i :: 0 <= i < |clients| && Some(clients[i].name) == name
                                        && clients[i].phone == phone
    ensures forall i :: 0 <= i < |clients| && Some(clients[i].name) == name
                        && (forall j :: 0 <= j < i ==> Some(clients[j].name) != name)
                        ==> phone == clients[i].phone
  {
    var found := match Find(clients, NamedExactly(name)) case None => None case Some(c) => Some(c.phone);
    FindFirstAll(clients, NamedExactly(name), (c: Client) => c.phone, found);
    match found
    case None => ""
    case Some(phone) => phone
  }

  /** `handleCall`: the number to dial, when the client has a phone. */
  function Call(clients: seq<Client>, name: Option<string>): (n: Option<string>)
    ensures n.Some? <==> CallPhone(clients, name) != ""
    ensures n.Some? ==> n.value == CallPhone(clients, name)
  {
    var phone := CallPhone(clients, name);
    if phone != "" then Some(phone) else None
  }

  /** `handleNameClick`: a chat without a message, when the client has a
      phone. */
  function NameClick(clients: seq<Client>, name: Option<string>): (r: Option<WhatsApp.Request>)
    ensures r.Some? ==> CallPhone(clients, name) != "" && r.value.text.None?
    ensures r.Some? ==> WhatsApp.InternationalNumber(Some(CallPhone(clients, name))).Some?
                        && r.value.number == WhatsApp.InternationalNumber(Some(CallPhone(clients, name))).value
  {
    var phone := CallPhone(clients, name);
    if phone != "" then WhatsApp.Send(Some(phone), "") else None
  }

  /** `handleWhatsApp`: the general message to the client, when the client
      has a phone; a client found by name always has one. */
  function SendGeneral(clients: seq<Client>, name: Option<string>): (r: Option<WhatsApp.Request>)
    ensures r.Some? ==> name.Some? && CallPhone(clients, name) != ""
    ensures r.Some? ==> r.value.text == Some(WhatsApp.GeneralMessage(name.value))
    ensures r.Some? ==> WhatsApp.Greets(r.value.text.value, name.value)
  {
    var phone := CallPhone(clients, name);
    if phone != "" then
      assert name.Some?;
      var msg := WhatsApp.GeneralMessage(name.value);
      assert |msg| > 0 by {
        assert WhatsApp.Greets(msg, name.value);
      }
      WhatsApp.Send(Some(phone), msg)
    else None
  }

  /** A phone with digits is always dialled, chatted with and messaged. */
  lemma {:induction false} ActionsWithPhone(clients: seq<Client>, name: Option<string>)
    requires WhatsApp.InternationalNumber(Some(CallPhone(clients, name))).Some?
    ensures Call(clients, name).Some? && NameClick(clients, name).Some? && SendGeneral(clients, name).Some?
  {
  }

  /** The name lookup is exact: where the today page trims both names, the
      calls list does not, so it finds the same client when no name has
      spaces around it. */
  lemma {:induction false} ExactLookupAgreesWhenTrimmed(clients: seq<Client>, name: string)
    requires Text.Trim(name) == name
    requires forall i :: 0 <= i < |clients| ==> Text.Trim(clients[i].name) == clients[i].name
    ensures CallPhone(clients, Some(name)) == TodayView.ClientPhone(clients, name)
  {
    forall i | 0 <= i < |clients|
      ensures NamedExactly(Some(name))(clients[i]) == TodayView.NameMatches(name)(clients[i])
    {
    }
    FindExt(clients, NamedExactly(Some(name)), TodayView.NameMatches(name));
  }

  /** Two tests that agree on every element find the same element. */
  lemma {:induction false} FindExt<T>(s: seq<T>, p: T -> bool, q: T -> bool)
    requires forall i :: 0 <= i < |s| ==> p(s[i]) == q(s[i])
    ensures Find(s, p) == Find(s, q)
    decreases |s|
  {
    if |s| > 0 {
      assert forall i :: 0 <= i < |s[1..]| ==> s[1..][i] == s[i + 1];
      FindExt(s[1..], p, q);
    }
  }
}
