/** The clinic's records: clients (patients), appointments, waiting-list
    entries and a client's treatment history. Fields that a record may lack
    in the original (JavaScript `undefined`) are `Option`s; identifiers are
    opaque numbers drawn from the clock. */
module Records {
  import opened Wrappers
  import opened Clock

  type Id = int

  const Scheduled := "scheduled"
  const CheckedIn := "checked-in"
  const Cancelled := "cancelled"
  const Completed := "completed"
  const Waiting := "waiting"
  const Active := "active"
  const Inactive := "inactive"

  /** One row of a client's treatment history; `cost` is the amount the
      form's text converts to. */
  datatype HistoryEntry = HistoryEntry(
    id: Id,
    date: Instant,
    treatment: string,
    notes: string,
    cost: int,
    nextFollowUp: string)

  /** A client. A missing phone or name reads as the empty string; a
      missing history or total as `[]` and 0. */
  datatype Client = Client(
    id: Id,
    name: string,
    phone: string,
    email: Option<string>,
    notes: Option<string>,
    dateOfBirth: Option<string>,
    status: string,
    createdAt: Option<int>,
    treatmentHistory: seq<HistoryEntry>,
    totalSpent: int)

  /** An appointment. `clientName` is `None` once a rename cascade has
      written `undefined` into it; the quick-booking path leaves `endTime`
      and `clientId` out. */
  datatype Appointment = Appointment(
    id: Id,
    date: Instant,
    endTime: Option<Instant>,
    clientId: Option<Id>,
    clientName: Option<string>,
    treatment: string,
    notes: Option<string>,
    status: string,
    phone: Option<string>,
    email: Option<string>)

  /** A waiting-list entry as handed to the store; entries built by hand
      may lack an id, a time of addition and a status. */
  datatype WaitingEntry = WaitingEntry(
    id: Option<Id>,
    clientName: string,
    phone: Option<string>,
    treatment: string,
    notes: Option<string>,
    addedAt: Option<Instant>,
    status: Option<string>)

  /** JavaScript truthiness of an optional id: absent and 0 are falsy. */
  predicate HasId(id: Option<Id>) {
    id.Some? && id.value != 0
  }

  /** JavaScript truthiness of an optional string. */
  predicate Present(s: Option<string>) {
    s.Some? && |s.value| > 0
  }

  /** `x || ''`. */
  function OrEmpty(s: Option<string>): (r: string)
    ensures |r| > 0 <==> Present(s)
    ensures Present(s) ==> r == s.value
  {
    if s.Some? then s.value else ""
  }
}
