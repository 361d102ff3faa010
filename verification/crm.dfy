/** The CRM screen: adding a client, merging an update into a client, the
    client search with its status and spending filters, and adding a
    treatment to a client's history with the total spent recomputed. */
module Crm {
  import opened Wrappers
  import opened Lists
  import opened Clock
  import opened Records
  import PatientList
  import Grouping
  import Text

  // ---------------------------------------------------------------------
  // Adding and updating clients

  /** The client form in "new" mode. Its other fields (address, allergies,
      medical history, preferred treatments) have no place in a client
      record here. */
  datatype ClientForm = ClientForm(name: string, phone: string, email: string, dateOfBirth: string, notes: string)

  /** `addNewClient`: the form's fields with the fresh id `now`, an empty
      history, nothing spent, empty notes and status "active". The form
      carries no id, so the fresh id is kept. */
  function AddNewClient(cs: seq<Client>, f: ClientForm, now: Id): (r: seq<Client>)
    ensures |r| == |cs| + 1 && r[..|cs|] == cs
    ensures r[|cs|].id == now && r[|cs|].name == f.name && r[|cs|].phone == f.phone
    ensures r[|cs|].email == Some(f.email) && r[|cs|].dateOfBirth == Some(f.dateOfBirth)
    ensures r[|cs|].treatmentHistory == [] && r[|cs|].totalSpent == 0 && r[|cs|].status == Active
  {
    cs + [Client(now, f.name, f.phone, Some(f.email), Some(""), Some(f.dateOfBirth), Active, None, [], 0)]
  }

  /** The fixed fields come after the form's in the object literal, so the
      notes typed into the new-client form are replaced by "". */
  lemma {:induction false} TypedNotesDiscarded(cs: seq<Client>, f: ClientForm, now: Id)
    requires f.notes != ""
    ensures AddNewClient(cs, f, now)[|cs|].notes != Some(f.notes)
  {
  }

  /** What `updateClient` receives: from the details form, the whole client
      object as edited; from the treatment history, the new history and
      total. */
  datatype Update =
    | Whole(edited: Client)
    | HistoryUpdate(treatmentHistory: seq<HistoryEntry>, totalSpent: int)

  /** `{ ...client, ...updatedData }`: every field the update carries wins. */
  function Merge(c: Client, u: Update): (r: Client)
    ensures u.HistoryUpdate? ==> r.(treatmentHistory := c.treatmentHistory, totalSpent := c.totalSpent) == c
    ensures u.HistoryUpdate? ==> r.treatmentHistory == u.treatmentHistory && r.totalSpent == u.totalSpent
    ensures u.Whole? ==> r == u.edited
  {
    match u
    case Whole(d) => d
    case HistoryUpdate(h, t) => c.(treatmentHistory := h, totalSpent := t)
  }

  /** `updateClient`: the clients with the given id take the update; the
      others are left as they are. */
  function UpdateClient(cs: seq<Client>, id: Id, u: Update): (r: seq<Client>)
    ensures |r| == |cs|
    ensures forall i :: 0 <= i < |cs| && cs[i].id != id ==> r[i] == cs[i]
    ensures forall i :: 0 <= i < |cs| && cs[i].id == id ==> r[i] == Merge(cs[i], u)
  {
    seq(|cs|, i requires 0 <= i < |cs| => if cs[i].id == id then Merge(cs[i], u) else cs[i])
  }

  /** Sending the same update twice is sending it once, as long as it does
      not change the client's id. */
  lemma {:induction false} UpdateIdempotent(cs: seq<Client>, id: Id, u: Update)
    requires u.Whole? ==> u.edited.id == id
    ensures UpdateClient(UpdateClient(cs, id, u), id, u) == UpdateClient(cs, id, u)
  {
    var once := UpdateClient(cs, id, u);
    var twice := UpdateClient(once, id, u);
    forall i | 0 <= i < |cs|
      ensures twice[i] == once[i]
    {
      if cs[i].id == id {
        assert once[i].id == id;
      }
    }
  }

  // ---------------------------------------------------------------------
  // Search and filters

  const ShowActive := "active"
  const ShowInactive := "inactive"
  const ShowVip := "vip"

  /** Clients who have spent more than this are shown under "VIP". */
  const VipThreshold := 5000

  /** The drop-down's filter: status "active", status "inactive", more than
      5000 spent, or (for "all" and any other value) no filter. */
  function Passes(filterBy: string): Client -> bool {
    (c: Client) =>
      if filterBy == ShowActive then c.status == Active
      else if filterBy == ShowInactive then c.status == Inactive
      else if filterBy == ShowVip then c.totalSpent > VipThreshold
      else true
  }

  function Shown(term: string, filterBy: string): Client -> bool {
    (c: Client) => PatientList.Matches(term)(c) && Passes(filterBy)(c)
  }

  /** `filteredClients`: the clients matching the search (lower-cased name
      containing the lower-cased term, or phone containing the term) that
      pass the filter, in list order. */
  function FilteredClients(cs: seq<Client>, term: string, filterBy: string): (r: seq<Client>)
    ensures Subsequence(r, cs)
    ensures forall i :: 0 <= i < |r| ==> r[i] in cs && PatientList.Matches(term)(r[i]) && Passes(filterBy)(r[i])
    ensures forall i :: 0 <= i < |cs| && PatientList.Matches(term)(cs[i]) && Passes(filterBy)(cs[i]) ==> cs[i] in r
  {
    FilterSubsequence(cs, Shown(term, filterBy));
    Filter(cs, Shown(term, filterBy))
  }

  /** Every string contains the empty string. */
  lemma {:induction false} ContainsEmpty(s: string)
    ensures Text.Contains(s, "")
  {
    assert Text.StartsWith(s, "");
  }

  /** Without a status or spending filter the CRM search is the patient
      list's search, the empty term included. */
  lemma {:induction false} SearchIsPatientSearch(cs: seq<Client>, term: string, filterBy: string)
    requires filterBy != ShowActive && filterBy != ShowInactive && filterBy != ShowVip
    ensures FilteredClients(cs, term, filterBy) == PatientList.FilteredClients(cs, term)
  {
    if |term| == 0 {
      assert Text.ToLower(term) == "";
      forall i | 0 <= i < |cs|
        ensures Shown(term, filterBy)(cs[i])
      {
        ContainsEmpty(Text.ToLower(cs[i].name));
        assert PatientList.Matches(term)(cs[i]);
        assert Passes(filterBy)(cs[i]);
      }
      FilterAll(cs, Shown(term, filterBy));
    } else {
      Grouping.FilterExt(cs, Shown(term, filterBy), PatientList.Matches(term));
    }
  }

  /** No client is both active and inactive: for any term the two status
      filters together show at most what the unfiltered search shows. */
  lemma {:induction false} StatusFiltersDisjoint(cs: seq<Client>, term: string)
    ensures |FilteredClients(cs, term, ShowActive)| + |FilteredClients(cs, term, ShowInactive)|
            <= |FilteredClients(cs, term, "all")|
  {
    assert |Active| != |Inactive| && |ShowInactive| != |ShowActive|;
    assert |"all"| != |ShowActive| && |"all"| != |ShowInactive|;
    assert "all" != ShowVip by { assert "all"[0] != ShowVip[0]; }
    var either := (c: Client) => Shown(term, ShowActive)(c) || Shown(term, ShowInactive)(c);
    var rest := (c: Client) => Shown(term, "all")(c) && !either(c);
    forall i | 0 <= i < |cs|
      ensures !(Shown(term, ShowActive)(cs[i]) && Shown(term, ShowInactive)(cs[i]))
      ensures Shown(term, "all")(cs[i]) == PatientList.Matches(term)(cs[i])
    {
      assert Passes(ShowActive)(cs[i]) == (cs[i].status == Active);
      assert Passes(ShowInactive)(cs[i]) == (cs[i].status == Inactive);
      assert Passes("all")(cs[i]);
    }
    Grouping.CountDisjoint(cs, Shown(term, ShowActive), Shown(term, ShowInactive), either);
    Grouping.CountDisjoint(cs, either, rest, Shown(term, "all"));
  }

  // ---------------------------------------------------------------------
  // Treatment history

  /** The add-treatment form; `cost` is what `Number` makes of the typed
      text (an empty field is 0) and an empty date field is an invalid
      date. */
  datatype TreatmentForm = TreatmentForm(date: Instant, treatment: string, notes: string, cost: int, nextFollowUp: string)

  /** The form as it is cleared after each addition. */
  const BlankTreatment := TreatmentForm(Invalid, "", "", 0, "")

  /** `{ ...newTreatment, id: Date.now() }`. */
  function Entry(f: TreatmentForm, now: Id): (e: HistoryEntry)
    ensures e.id == now && e.date == f.date && e.treatment == f.treatment && e.cost == f.cost
  {
    HistoryEntry(now, f.date, f.treatment, f.notes, f.cost, f.nextFollowUp)
  }

  function Cost(e: HistoryEntry): int {
    e.cost
  }

  /** A client's total is the sum of the costs in its history. */
  predicate Consistent(c: Client) {
    c.totalSpent == Sum(c.treatmentHistory, Cost)
  }

  /** The history with one more entry and the total recomputed over it. */
  function WithEntry(c: Client, e: HistoryEntry): (r: Client)
    ensures r.treatmentHistory == c.treatmentHistory + [e] && Consistent(r)
    ensures r.id == c.id && r.name == c.name && r.status == c.status
    ensures Consistent(c) ==> r.totalSpent == c.totalSpent + e.cost
  {
    var h := c.treatmentHistory + [e];
    assert h[..|h| - 1] == c.treatmentHistory;
    Merge(c, HistoryUpdate(h, Sum(h, Cost)))
  }

  /** `addTreatment` as written: the history extended is the one of the
      client object captured when the client was clicked in the list,
      which later updates do not refresh. The result is the new client
      list and the cleared form. */
  function AddTreatmentAsWritten(cs: seq<Client>, selected: Client, f: TreatmentForm, now: Id)
    : (r: (seq<Client>, TreatmentForm))
    ensures r.1 == BlankTreatment && |r.0| == |cs|
    ensures forall i :: 0 <= i < |cs| && cs[i].id != selected.id ==> r.0[i] == cs[i]
    ensures forall i :: 0 <= i < |cs| && cs[i].id == selected.id ==>
      r.0[i].treatmentHistory == selected.treatmentHistory + [Entry(f, now)] && Consistent(r.0[i])
  {
    var updated := WithEntry(selected, Entry(f, now));
    (UpdateClient(cs, selected.id, HistoryUpdate(updated.treatmentHistory, updated.totalSpent)), BlankTreatment)
  }

  /** `addTreatment` as intended: each client with the id gets the entry
      appended to its current history, and its total recomputed. */
  function AddTreatment(cs: seq<Client>, id: Id, f: TreatmentForm, now: Id): (r: (seq<Client>, TreatmentForm))
    ensures r.1 == BlankTreatment && |r.0| == |cs|
    ensures forall i :: 0 <= i < |cs| && cs[i].id != id ==> r.0[i] == cs[i]
    ensures forall i :: 0 <= i < |cs| && cs[i].id == id ==> r.0[i] == WithEntry(cs[i], Entry(f, now))
  {
    (seq(|cs|, i requires 0 <= i < |cs| => if cs[i].id == id then WithEntry(cs[i], Entry(f, now)) else cs[i]),
     BlankTreatment)
  }

  /** Adding a treatment keeps every client's total equal to the sum of
      its history's costs, and raises the client's total by the cost. */
  lemma {:induction false} AddTreatmentKeepsTotals(cs: seq<Client>, id: Id, f: TreatmentForm, now: Id)
    requires forall i :: 0 <= i < |cs| ==> Consistent(cs[i])
    ensures forall i :: 0 <= i < |cs| ==> Consistent(AddTreatment(cs, id, f, now).0[i])
    ensures forall i :: 0 <= i < |cs| && cs[i].id == id ==>
      AddTreatment(cs, id, f, now).0[i].totalSpent == cs[i].totalSpent + f.cost
  {
  }

  /** Two additions in a row keep both entries, in order. */
  lemma {:induction false} AddTwiceKeepsBoth(cs: seq<Client>, id: Id, f1: TreatmentForm, n1: Id, f2: TreatmentForm, n2: Id)
    ensures forall i :: 0 <= i < |cs| && cs[i].id == id ==>
      AddTreatment(AddTreatment(cs, id, f1, n1).0, id, f2, n2).0[i].treatmentHistory
        == cs[i].treatmentHistory + [Entry(f1, n1), Entry(f2, n2)]
  {
    var once := AddTreatment(cs, id, f1, n1).0;
    var twice := AddTreatment(once, id, f2, n2).0;
    forall i | 0 <= i < |cs| && cs[i].id == id
      ensures twice[i].treatmentHistory == cs[i].treatmentHistory + [Entry(f1, n1), Entry(f2, n2)]
    {
      assert once[i].id == id;
      assert cs[i].treatmentHistory + [Entry(f1, n1)] + [Entry(f2, n2)]
          == cs[i].treatmentHistory + [Entry(f1, n1), Entry(f2, n2)];
    }
  }

  /** As written, the second of two additions made without reselecting the
      client starts again from the captured history: the first entry is
      lost, and with it its cost. */
  lemma {:induction false} SecondAddLosesFirst(c: Client, f1: TreatmentForm, n1: Id, f2: TreatmentForm, n2: Id)
    ensures AddTreatmentAsWritten(AddTreatmentAsWritten([c], c, f1, n1).0, c, f2, n2).0[0].treatmentHistory
            == c.treatmentHistory + [Entry(f2, n2)]
    ensures AddTreatment(AddTreatment([c], c.id, f1, n1).0, c.id, f2, n2).0[0].treatmentHistory
            == c.treatmentHistory + [Entry(f1, n1), Entry(f2, n2)]
  {
    AddTwiceKeepsBoth([c], c.id, f1, n1, f2, n2);
  }
}
