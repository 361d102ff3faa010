/** The "today" page: the appointments of a reference day, the actions each
    one offers by status, and the WhatsApp message sent to its client. */
module TodayView {
  import opened Wrappers
  import opened Clock
  import opened Lists
  import opened Sorting
  import opened Records
  import opened Text
  import CalendarDialog
  import WhatsApp

  /** `toDateString()` equality: two valid dates on the same day, or two
      invalid dates (both print as "Invalid Date"). */
  predicate SameDateString(a: Instant, b: Instant) {
    SameDay(a, b) || (a.Invalid? && b.Invalid?)
  }

  function OnDay(day: Instant): Appointment -> bool {
    (a: Appointment) => SameDateString(a.date, day)
  }

  /** `todaysAppointments`: every appointment on the reference day,
      cancelled ones included, earliest first. */
  function TodaysAppointments(apts: seq<Appointment>, day: Instant): (r: seq<Appointment>)
    ensures forall i :: 0 <= i < |r| ==> r[i] in apts && SameDateString(r[i].date, day)
    ensures forall i :: 0 <= i < |apts| && SameDateString(apts[i].date, day) ==> apts[i] in r
    ensures SortedBy(r, CalendarDialog.StartKey)
    ensures |r| == Count(apts, OnDay(day))
  {
    var kept := Filter(apts, OnDay(day));
    var r := SortBy(kept, CalendarDialog.StartKey);
    CalendarDialog.MultisetMembers(kept, r);
    r
  }

  /** Unlike the calendar's day view, the today list keeps cancelled
      appointments: the calendar's list is the today list's non-cancelled
      part, as a multiset, for a valid day. */
  lemma {:induction false} DayViewDropsOnlyCancelled(apts: seq<Appointment>, day: Instant, a: Appointment)
    requires day.At?
    ensures a in CalendarDialog.DayAppointments(apts, day) <==>
            a in TodaysAppointments(apts, day) && a.status != Cancelled
  {
    var r := CalendarDialog.DayAppointments(apts, day);
    var t := TodaysAppointments(apts, day);
    if a in r {
      var i :| 0 <= i < |r| && r[i] == a;
      var j :| 0 <= j < |apts| && apts[j] == a;
      assert apts[j] in t;
    }
    if a in t && a.status != Cancelled {
      var i :| 0 <= i < |t| && t[i] == a;
      var j :| 0 <= j < |apts| && apts[j] == a;
      assert CalendarDialog.ShownOn(day)(apts[j]);
    }
  }

  // ---------------------------------------------------------------------
  // Actions

  datatype Action = CheckInAction | CancelAction | RestoreAction

  /** The buttons an appointment card shows. */
  function Offered(status: string): (acts: set<Action>)
    ensures CheckInAction in acts <==> status == Scheduled
    ensures CancelAction in acts <==> status == Scheduled
    ensures RestoreAction in acts <==> status == Cancelled || status == CheckedIn
  {
    (if status == Scheduled then {CheckInAction, CancelAction} else {})
    + (if status == Cancelled || status == CheckedIn then {RestoreAction} else {})
  }

  /** Any status but the three the page knows offers no action, and the
      scheduled state's actions lead to states that offer restore. */
  lemma {:induction false} OfferedStates(status: string)
    ensures status != Scheduled && status != Cancelled && status != CheckedIn ==> Offered(status) == {}
    ensures RestoreAction in Offered(CheckedIn) && RestoreAction in Offered(Cancelled)
    ensures CheckInAction in Offered(Scheduled) && RestoreAction !in Offered(Scheduled)
  {
    assert Cancelled != Scheduled && CheckedIn != Scheduled;
    assert CheckedIn != Cancelled;
  }

  // ---------------------------------------------------------------------
  // WhatsApp

  /** The client's trimmed name is the trimmed name asked for. */
  function NameMatches(name: string): Client -> bool {
    (c: Client) => Trim(c.name) == Trim(name)
  }

  /** `getClientPhone`: the phone of the first client whose trimmed name is
      the trimmed name asked for, or "" when there is none. */
  function ClientPhone(clients: seq<Client>, name: string): (phone: string)
    ensures (forall i :: 0 <= i < |clients| ==> Trim(clients[i].name) != Trim(name)) ==> phone == ""
    ensures phone != "" ==> exists i :: 0 <= i < |clients| && Trim(clients[i].name) == Trim(name)
                                        && clients[i].phone == phone
    ensures forall i :: 0 <= i < |clients| && NameMatches(name)(clients[i])
                        && (forall j :: 0 <= j < i ==> !NameMatches(name)(clients[j]))
                        ==> phone == clients[i].phone
  {
    var found := match Find(clients, NameMatches(name)) case None => None case Some(c) => Some(c.phone);
    FindFirstAll(clients, NameMatches(name), (c: Client) => c.phone, found);
    match found
    case None => ""
    case Some(phone) => phone
  }

  /** "Hi <name>, " followed by the rest of a status message. */
  function Salute(name: string, rest: string): (msg: string)
    ensures StartsWith(msg, "Hi " + name + ", ") && Contains(msg, name)
    ensures WhatsApp.EndsWith(msg, rest)
  {
    var head := "Hi " + name + ", ";
    ContainsInfix("Hi ", name, ", " + rest);
    assert head + rest == "Hi " + name + (", " + rest);
    assert (head + rest)[..|head|] == head;
    assert (head + rest)[|head + rest| - |rest|..] == rest;
    head + rest
  }

  /** The message for an appointment, `time` being the formatted start: a
      reminder with the time for a scheduled appointment, a cancellation
      notice for a cancelled one, and thanks for any other status. */
  function StatusMessage(status: string, name: string, time: string): (msg: string)
    ensures StartsWith(msg, "Hi " + name + ", ") && Contains(msg, name)
    ensures status == Scheduled ==>
      WhatsApp.EndsWith(msg, "this is a reminder for your appointment today at " + time + ".")
      && Contains(msg, time)
    ensures status == Cancelled ==> WhatsApp.EndsWith(msg, "your appointment has been cancelled.")
    ensures status != Scheduled && status != Cancelled ==>
      WhatsApp.EndsWith(msg, "thank you for choosing our clinic.")
  {
    if status == Scheduled then
      var msg := Salute(name, "this is a reminder for your appointment today at " + time + ".");
      WhatsApp.EndingContains(msg, "this is a reminder for your appointment today at ", time, ".");
      msg
    else if status == Cancelled then
      Salute(name, "your appointment has been cancelled.")
    else
      Salute(name, "thank you for choosing our clinic.")
  }

  /** Which of the three messages a status gets. */
  function MessageKind(status: string): nat {
    if status == Scheduled then 0 else if status == Cancelled then 1 else 2
  }

  /** The message tells the client which of the three cases applies: to the
      same client, statuses of different kinds never produce the same
      message, whatever the times. */
  lemma {:induction false} StatusMessageTellsKind(s1: string, s2: string, name: string, t1: string, t2: string)
    requires MessageKind(s1) != MessageKind(s2)
    ensures StatusMessage(s1, name, t1) != StatusMessage(s2, name, t2)
  {
    MessageLength(s1, name, t1);
    MessageLength(s2, name, t2);
  }

  /** The three messages have different lengths past the name: at least 55
      characters for a reminder, 41 for a cancellation and 39 for thanks. */
  lemma {:induction false} MessageLength(status: string, name: string, time: string)
    ensures MessageKind(status) == 0 ==> |StatusMessage(status, name, time)| == |name| + 55 + |time|
    ensures MessageKind(status) == 1 ==> |StatusMessage(status, name, time)| == |name| + 41
    ensures MessageKind(status) == 2 ==> |StatusMessage(status, name, time)| == |name| + 39
  {
    assert |"this is a reminder for your appointment today at "| == 49;
    assert |"your appointment has been cancelled."| == 36;
    assert |"thank you for choosing our clinic."| == 34;
  }

  /** A WhatsApp link: the number and the message it carries. */
  datatype Link = Link(number: string, message: string)

  /** `handleWhatsApp`: nothing when the appointment has no client name
      (the lookup throws and the error is swallowed) or no client phone is
      found; otherwise the phone's digits, with no country code added, and
      the status message. */
  function WhatsAppLink(clients: seq<Client>, a: Appointment, time: string): (l: Option<Link>)
    ensures a.clientName.None? ==> l.None?
    ensures a.clientName.Some? ==>
      (l.Some? <==> ClientPhone(clients, a.clientName.value) != "")
    ensures l.Some? ==> l.value.number == DigitsOnly(ClientPhone(clients, a.clientName.value))
                        && AllDigits(l.value.number)
                        && Contains(l.value.message, a.clientName.value)
    ensures l.Some? ==> l.value.message == StatusMessage(a.status, a.clientName.value, time)
  {
    match a.clientName
    case None => None
    case Some(name) =>
      var phone := ClientPhone(clients, name);
      if phone == "" then None
      else Some(Link(DigitsOnly(phone), StatusMessage(a.status, name, time)))
  }

  /** The card of an appointment whose start cannot be read is not shown. */
  function Rendered(todays: seq<Appointment>): (r: seq<Appointment>)
    ensures forall i :: 0 <= i < |r| ==> r[i].date.At? && r[i] in todays
    ensures forall i :: 0 <= i < |todays| && todays[i].date.At? ==> todays[i] in r
  {
    Filter(todays, (a: Appointment) => a.date.At?)
  }

  /** For a valid reference day every appointment of the day is rendered. */
  lemma {:induction false} AllRenderedOnValidDay(apts: seq<Appointment>, day: Instant)
    requires day.At?
    ensures Rendered(TodaysAppointments(apts, day)) == TodaysAppointments(apts, day)
  {
    var t := TodaysAppointments(apts, day);
    FilterAll(t, (a: Appointment) => a.date.At?);
  }
}
