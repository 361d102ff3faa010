/** The patient list page: the search filter, the twenty-at-a-time paging,
    the add/edit form, and the removal of duplicate patients grouped by
    normalised phone number (or lower-cased name when there is no digit).
    On this page `onUpdateClient` is the store's `setClients`. */
module PatientList {
  import opened Wrappers
  import opened Lists
  import opened Text
  import opened Records
  import opened Grouping
  import TodayView

  // ---------------------------------------------------------------------
  // Search

  /** A client matches a term when the lower-cased name contains the
      lower-cased term or the phone contains the term as typed. */
  function Matches(term: string): Client -> bool {
    (c: Client) => Contains(ToLower(c.name), ToLower(term)) || Contains(c.phone, term)
  }

  /** `filteredClients`: every client for an empty term, else the matching
      clients in list order. */
  function FilteredClients(cs: seq<Client>, term: string): (r: seq<Client>)
    ensures |term| == 0 ==> r == cs
    ensures |term| > 0 ==> forall i :: 0 <= i < |r| ==> r[i] in cs && Matches(term)(r[i])
    ensures |term| > 0 ==> forall i :: 0 <= i < |cs| && Matches(term)(cs[i]) ==> cs[i] in r
    ensures Subsequence(r, cs)
  {
    if |term| == 0 then
      assert Filter(cs, (c: Client) => true) == cs by {
        FilterAll(cs, (c: Client) => true);
      }
      FilterSubsequence(cs, (c: Client) => true);
      cs
    else
      FilterSubsequence(cs, Matches(term));
      Filter(cs, Matches(term))
  }

  /** Searching the results again for the same term changes nothing. */
  lemma {:induction false} SearchIdempotent(cs: seq<Client>, term: string)
    ensures FilteredClients(FilteredClients(cs, term), term) == FilteredClients(cs, term)
  {
    if |term| > 0 {
      FilterAll(Filter(cs, Matches(term)), Matches(term));
    }
  }

  /** A client whose name contains the term in any letter case is found. */
  lemma {:induction false} SearchFindsName(cs: seq<Client>, term: string, i: int, pre: string, post: string)
    requires 0 <= i < |cs| && |term| > 0
    requires ToLower(cs[i].name) == pre + ToLower(term) + post
    ensures cs[i] in FilteredClients(cs, term)
  {
    ContainsInfix(pre, ToLower(term), post);
  }

  // ---------------------------------------------------------------------
  // Paging

  const ItemsPerLoad := 20

  /** The clients shown and whether the page offers more. */
  datatype Page = Page(shown: seq<Client>, hasMore: bool)

  /** `slice(from, to)` with both bounds clamped to the sequence. */
  function Slice<T>(s: seq<T>, from: nat, to: nat): (r: seq<T>)
    ensures from <= to <= |s| ==> r == s[from..to]
    ensures |r| <= |s|
  {
    var a := if from < |s| then from else |s|;
    var b := if to < a then a else if to < |s| then to else |s|;
    s[a..b]
  }

  /** The page a new search result starts from. */
  function FirstPage(filtered: seq<Client>): (p: Page)
    ensures |p.shown| == if |filtered| < ItemsPerLoad then |filtered| else ItemsPerLoad
    ensures p.hasMore <==> |p.shown| < |filtered|
  {
    Page(Take(filtered, ItemsPerLoad), |filtered| > ItemsPerLoad)
  }

  /** `loadMore`: the next twenty after those shown. */
  function LoadMore(filtered: seq<Client>, p: Page): (q: Page)
    ensures |p.shown| <= |q.shown| <= |p.shown| + ItemsPerLoad
    ensures q.shown[..|p.shown|] == p.shown
  {
    var n := |p.shown|;
    Page(p.shown + Slice(filtered, n, n + ItemsPerLoad), n + ItemsPerLoad < |filtered|)
  }

  /** The page after `k` loads. */
  function AfterLoads(filtered: seq<Client>, k: nat): Page {
    if k == 0 then FirstPage(filtered) else LoadMore(filtered, AfterLoads(filtered, k - 1))
  }

  /** After `k` loads the first `20(k + 1)` results are shown, in order,
      and more are offered exactly while some are not shown. */
  lemma {:induction false} PagingShowsPrefix(filtered: seq<Client>, k: nat)
    ensures AfterLoads(filtered, k).shown == Take(filtered, ItemsPerLoad * (k + 1))
    ensures AfterLoads(filtered, k).hasMore <==> |AfterLoads(filtered, k).shown| < |filtered|
  {
    if k == 0 {
      assert AfterLoads(filtered, 0) == FirstPage(filtered);
    } else {
      PagingShowsPrefix(filtered, k - 1);
      var prev := AfterLoads(filtered, k - 1);
      var n := ItemsPerLoad * k;
      TakeSame(filtered, ItemsPerLoad * (k - 1 + 1), n);
      assert AfterLoads(filtered, k) == LoadMore(filtered, prev);
      LoadMoreTakes(filtered, prev, n);
      TakeSame(filtered, n + ItemsPerLoad, ItemsPerLoad * (k + 1));
    }
  }

  lemma {:induction false} TakeSame<T>(s: seq<T>, a: nat, b: nat)
    requires a == b
    ensures Take(s, a) == Take(s, b)
  {
  }

  /** Loading more after the first `n` shows the first `n + 20`. */
  lemma {:induction false} LoadMoreTakes(filtered: seq<Client>, p: Page, n: nat)
    requires p.shown == Take(filtered, n)
    ensures LoadMore(filtered, p).shown == Take(filtered, n + ItemsPerLoad)
    ensures LoadMore(filtered, p).hasMore <==> |LoadMore(filtered, p).shown| < |filtered|
  {
    TakeThenSlice(filtered, n, ItemsPerLoad);
  }

  /** The first `n` and the next `m` after them are the first `n + m`. */
  lemma {:induction false} TakeThenSlice<T>(s: seq<T>, n: nat, m: nat)
    ensures Take(s, n) + Slice(s, |Take(s, n)|, |Take(s, n)| + m) == Take(s, n + m)
  {
    if n < |s| {
      if n + m < |s| {
        assert s[..n] + s[n..n + m] == s[..n + m];
      } else {
        assert s[..n] + s[n..] == s;
      }
    } else {
      assert Slice(s, |s|, |s| + m) == [];
    }
  }

  // ---------------------------------------------------------------------
  // The add/edit form

  datatype PatientForm = PatientForm(name: string, phone: string, email: Option<string>, notes: string)

  /** `handleEdit`: the form opened on a patient, a missing note read as
      the empty string. */
  function OpenEditor(p: Client): (f: PatientForm)
    ensures f.name == p.name && f.phone == p.phone && f.email == p.email
    ensures f.notes == OrEmpty(p.notes)
  {
    PatientForm(p.name, p.phone, p.email, OrEmpty(p.notes))
  }

  /** `{ ...editingPatient, ...formData }`: the form's four fields over the
      patient; everything else is kept. */
  function Edited(p: Client, f: PatientForm): (c: Client)
    ensures c.name == f.name && c.phone == f.phone && c.email == f.email && c.notes == Some(f.notes)
    ensures c.id == p.id && c.status == p.status && c.createdAt == p.createdAt
    ensures c.dateOfBirth == p.dateOfBirth && c.treatmentHistory == p.treatmentHistory
    ensures c.totalSpent == p.totalSpent
  {
    p.(name := f.name, phone := f.phone, email := f.email, notes := Some(f.notes))
  }

  /** Saving the form unchanged leaves a patient with notes as it was. */
  lemma {:induction false} OpenThenSaveUnchanged(p: Client)
    requires p.notes.Some?
    ensures Edited(p, OpenEditor(p)) == p
  {
  }

  /** The new patient the add form hands to `onAddClient`. */
  function NewPatient(f: PatientForm, now: Id): (c: Client)
    ensures c.id == now && c.status == Active
    ensures c.name == f.name && c.phone == f.phone && c.email == f.email && c.notes == Some(f.notes)
    ensures c.createdAt.None? && c.treatmentHistory == []
  {
    Client(now, f.name, f.phone, f.email, Some(f.notes), None, Active, None, [], 0)
  }

  /** What the store's client collection becomes: a list, or the single
      object an edit hands to `setClients`. */
  datatype ClientsValue = List(clients: seq<Client>) | Single(client: Client)

  /** `handleSubmit` as written: an edit replaces the whole collection by
      the edited patient; an add appends a new patient. */
  function SubmitPatientAsWritten(cs: seq<Client>, editing: Option<Client>, f: PatientForm, now: Id)
    : (v: ClientsValue)
    ensures editing.Some? ==> v.Single? && v.client == Edited(editing.value, f)
    ensures editing.None? ==> v == List(cs + [NewPatient(f, now)])
  {
    match editing
    case Some(p) => Single(Edited(p, f))
    case None => List(cs + [NewPatient(f, now)])
  }

  /** `handleSubmit` corrected: an edit replaces the clients with the
      edited patient's id and keeps the rest. */
  function SubmitPatient(cs: seq<Client>, editing: Option<Client>, f: PatientForm, now: Id): (r: seq<Client>)
    ensures editing.None? ==> r == cs + [NewPatient(f, now)]
    ensures editing.Some? ==> |r| == |cs|
    ensures editing.Some? ==> forall i :: 0 <= i < |cs| ==>
      r[i] == if cs[i].id == editing.value.id then Edited(editing.value, f) else cs[i]
  {
    match editing
    case Some(p) =>
      seq(|cs|, i requires 0 <= i < |cs| => if cs[i].id == p.id then Edited(p, f) else cs[i])
    case None => cs + [NewPatient(f, now)]
  }

  /** With distinct ids, saving a patient's editor unchanged leaves the
      list as it was. */
  lemma {:induction false} SubmitUnchangedEdit(cs: seq<Client>, p: Client, now: Id)
    requires Injective(cs, (c: Client) => c.id) && p in cs && p.notes.Some?
    ensures SubmitPatient(cs, Some(p), OpenEditor(p), now) == cs
  {
    var j :| 0 <= j < |cs| && cs[j] == p;
    var r := SubmitPatient(cs, Some(p), OpenEditor(p), now);
    forall i | 0 <= i < |cs|
      ensures r[i] == cs[i]
    {
      if cs[i].id == p.id {
        assert i == j;
      }
    }
  }

  /** The finding: editing one of two patients leaves, as written, a
      single object where the list was, so the other patient is gone; the
      corrected save keeps both. */
  lemma {:induction false} EditDropsOtherPatients(p: Client, q: Client, f: PatientForm, now: Id)
    requires p.id != q.id
    ensures SubmitPatientAsWritten([p, q], Some(p), f, now).Single?
    ensures SubmitPatient([p, q], Some(p), f, now) == [Edited(p, f), q]
  {
  }

  /** `handleSendMessage`: a link to the selected patient's phone digits,
      or nothing without a phone. */
  function SendLink(selected: Option<Client>, message: string): (l: Option<TodayView.Link>)
    ensures l.Some? <==> selected.Some? && |selected.value.phone| > 0
    ensures l.Some? ==> l.value.number == NormalizePhone(selected.value.phone)
                        && l.value.message == message
  {
    if selected.Some? && |selected.value.phone| > 0 then
      Some(TodayView.Link(DigitsOnly(selected.value.phone), message))
    else None
  }

  /** `handleDelete`: a confirmed delete of an existing patient removes
      it; an unknown id throws on `client.name` and changes nothing. */
  function ConfirmDelete(cs: seq<Client>, id: Id, confirmed: bool): (r: seq<Client>)
    ensures (forall i :: 0 <= i < |cs| ==> cs[i].id != id) || !confirmed ==> r == cs
    ensures confirmed ==> forall i :: 0 <= i < |r| ==> r[i] in cs && r[i].id != id
    ensures forall i :: 0 <= i < |cs| && cs[i].id != id ==> cs[i] in r
  {
    match Find(cs, (c: Client) => c.id == id)
    case None =>
      FilterAll(cs, (c: Client) => c.id != id);
      cs
    case Some(_) =>
      if confirmed then Filter(cs, (c: Client) => c.id != id)
      else
        FilterAll(cs, (c: Client) => c.id != id);
        cs
  }

  // ---------------------------------------------------------------------
  // Duplicates

  /** `normalizePhoneNumber`: the digits of the phone, in order; a
      missing phone reads as the empty string. */
  function NormalizePhone(phone: string): (r: string)
    ensures AllDigits(r) && |r| <= |phone|
    ensures forall c :: c in r <==> c in phone && IsDigit(c)
    ensures r == Filter(phone, IsDigit)
  {
    DigitsAreFilter(phone);
    DigitsOnly(phone)
  }

  /** Normalising twice is normalising once. */
  lemma {:induction false} NormalizeIdempotent(phone: string)
    ensures NormalizePhone(NormalizePhone(phone)) == NormalizePhone(phone)
  {
  }

  /** The group key: the normalised phone, or the lower-cased name when
      the phone holds no digit. */
  function GroupKey(c: Client): string {
    var p := NormalizePhone(c.phone);
    if |p| > 0 then p else ToLower(c.name)
  }

  /** Two clients whose phones carry the same digits are grouped together
      whatever their names and phone punctuation. */
  lemma {:induction false} SamePhoneDigits(a: Client, b: Client)
    requires DigitsOnly(a.phone) == DigitsOnly(b.phone) && |DigitsOnly(a.phone)| > 0
    ensures GroupKey(a) == GroupKey(b)
  {
  }

  function IsDuplicated(cs: seq<Client>): string -> bool {
    k => |Group(cs, GroupKey, k)| > 1
  }

  function Excess(cs: seq<Client>): string -> int {
    k => |Group(cs, GroupKey, k)| - 1
  }

  /** `totalDuplicates`: the size beyond one of each group of more than
      one. */
  function DuplicateCount(cs: seq<Client>): int {
    Sum(Filter(Keys(cs, GroupKey), IsDuplicated(cs)), Excess(cs))
  }

  /** The reported count is the number of clients beyond one per key. */
  lemma {:induction false} DuplicateCountIs(cs: seq<Client>)
    ensures DuplicateCount(cs) == |cs| - |Keys(cs, GroupKey)|
  {
    var ks := Keys(cs, GroupKey);
    forall i | 0 <= i < |ks|
      ensures |Group(cs, GroupKey, ks[i])| >= 1
    {
      GroupNonEmpty(cs, GroupKey, ks[i]);
    }
    SumFilterZero(ks, IsDuplicated(cs), Excess(cs));
    SumLessOne(ks, GroupSize(cs, GroupKey), Excess(cs));
    GroupSizesTotal(cs, GroupKey);
  }

  /** A group has a duplicate exactly when the count is positive, and the
      count is zero exactly when no two clients share a key. */
  lemma {:induction false} DuplicateGroupsIff(cs: seq<Client>)
    ensures |Filter(Keys(cs, GroupKey), IsDuplicated(cs))| > 0 <==> DuplicateCount(cs) > 0
    ensures DuplicateCount(cs) == 0 <==> Injective(cs, GroupKey)
  {
    var ks := Keys(cs, GroupKey);
    var dup := Filter(ks, IsDuplicated(cs));
    SumBounds(dup, Excess(cs));
    if |dup| > 0 {
      assert Excess(cs)(dup[0]) >= 1;
    }
    DuplicateCountIs(cs);
    KeysDistinct(cs, GroupKey);
  }

  function CreatedKey(c: Client): int {
    c.createdAt.GetOr(0)
  }

  /** The `forEach` over a group: the first member with the greatest
      creation time (a missing one counts as 0). */
  function MostRecent(g: seq<Client>): (r: Option<Client>)
    ensures r.None? <==> |g| == 0
    ensures r.Some? ==> forall j :: 0 <= j < |g| ==> CreatedKey(g[j]) <= CreatedKey(r.value)
    ensures r.Some? ==> exists i :: 0 <= i < |g| && g[i] == r.value
                                    && forall j :: 0 <= j < i ==> CreatedKey(g[j]) < CreatedKey(g[i])
    decreases |g|
  {
    if |g| == 0 then None
    else
      var init := g[..|g| - 1];
      var x := g[|g| - 1];
      assert forall i :: 0 <= i < |init| ==> init[i] == g[i];
      match MostRecent(init)
      case None => Some(x)
      case Some(m) => if CreatedKey(x) > CreatedKey(m) then Some(x) else Some(m)
  }

  /** Whether the filter keeps a client: it is alone under its key, or it
      has the id of its group's most recent member. */
  function Keeps(cs: seq<Client>): Client -> bool {
    (c: Client) =>
      var g := Group(cs, GroupKey, GroupKey(c));
      |g| == 1 || (MostRecent(g).Some? && c.id == MostRecent(g).value.id)
  }

  datatype DedupOutcome = NoDuplicates | Declined(count: int) | Replaced(clients: seq<Client>, count: int)

  /** `handleRemoveDuplicates` once the user has answered the prompt with
      `confirmed`. */
  function RemoveDuplicates(cs: seq<Client>, confirmed: bool): (o: DedupOutcome)
    ensures o.NoDuplicates? <==> Injective(cs, GroupKey)
    ensures !o.NoDuplicates? ==> o.count == |cs| - |Keys(cs, GroupKey)| && o.count > 0
    ensures o.Declined? <==> !Injective(cs, GroupKey) && !confirmed
    ensures o.Replaced? ==> Subsequence(o.clients, cs)
    ensures o.Replaced? ==> forall i :: 0 <= i < |o.clients| ==> o.clients[i] in cs && Keeps(cs)(o.clients[i])
    ensures o.Replaced? ==> forall i :: 0 <= i < |cs| && Keeps(cs)(cs[i]) ==> cs[i] in o.clients
  {
    DuplicateGroupsIff(cs);
    DuplicateCountIs(cs);
    if |Filter(Keys(cs, GroupKey), IsDuplicated(cs))| == 0 then NoDuplicates
    else if !confirmed then Declined(DuplicateCount(cs))
    else
      FilterSubsequence(cs, Keeps(cs));
      Replaced(Filter(cs, Keeps(cs)), DuplicateCount(cs))
  }

  function HasIdOf(id: Id): Client -> bool {
    (c: Client) => c.id == id
  }

  /** Within a group of more than one, the filter keeps exactly the
      clients with the most recent member's id. */
  lemma {:induction false} KeepsInGroup(cs: seq<Client>, k: string, c: Client)
    requires GroupKey(c) == k && |Group(cs, GroupKey, k)| > 1
    ensures Keeps(cs)(c) == HasIdOf(MostRecent(Group(cs, GroupKey, k)).value.id)(c)
  {
  }

  /** With distinct ids, exactly one client of each key survives. */
  lemma {:induction false} KeptOncePerKey(cs: seq<Client>, k: string)
    requires Injective(cs, (c: Client) => c.id) && k in Keys(cs, GroupKey)
    ensures |Filter(Group(cs, GroupKey, k), Keeps(cs))| == 1
  {
    GroupNonEmpty(cs, GroupKey, k);
    if |Group(cs, GroupKey, k)| == 1 {
      KeptAlone(cs, k);
    } else {
      KeptMostRecent(cs, k);
    }
  }

  /** A client alone under its key is kept. */
  lemma {:induction false} KeptAlone(cs: seq<Client>, k: string)
    requires |Group(cs, GroupKey, k)| == 1
    ensures |Filter(Group(cs, GroupKey, k), Keeps(cs))| == 1
  {
    var g := Group(cs, GroupKey, k);
    forall i | 0 <= i < |g|
      ensures Keeps(cs)(g[i])
    {
      assert GroupKey(g[i]) == k;
    }
    FilterAll(g, Keeps(cs));
  }

  /** Of a larger group, only the most recent member is kept, when ids are
      distinct. */
  lemma {:induction false} KeptMostRecent(cs: seq<Client>, k: string)
    requires Injective(cs, (c: Client) => c.id) && |Group(cs, GroupKey, k)| > 1
    ensures |Filter(Group(cs, GroupKey, k), Keeps(cs))| == 1
  {
    var g := Group(cs, GroupKey, k);
    var m := MostRecent(g).value;
    forall i | 0 <= i < |g|
      ensures Keeps(cs)(g[i]) == HasIdOf(m.id)(g[i])
    {
      KeepsInGroup(cs, k, g[i]);
    }
    FilterExt(g, Keeps(cs), HasIdOf(m.id));
    FilterInjective(cs, HasKey(GroupKey, k), (c: Client) => c.id);
    CountKeyOne(g, (c: Client) => c.id, m);
    FilterExt(g, HasKey((c: Client) => c.id, m.id), HasIdOf(m.id));
  }

  /** With distinct ids, one client per key is kept. */
  lemma {:induction false} KeptSize(cs: seq<Client>)
    requires Injective(cs, (c: Client) => c.id)
    ensures |Filter(cs, Keeps(cs))| == |Keys(cs, GroupKey)|
  {
    var ks := Keys(cs, GroupKey);
    var kept := Filter(cs, Keeps(cs));
    GroupSizesOver(kept, GroupKey, ks);
    FilterAll(kept, KeyAmong(GroupKey, ks));
    forall i | 0 <= i < |ks|
      ensures GroupSize(kept, GroupKey)(ks[i]) == 1
    {
      FilterCommute(cs, Keeps(cs), HasKey(GroupKey, ks[i]));
      KeptOncePerKey(cs, ks[i]);
    }
    SumOnes(ks, GroupSize(kept, GroupKey));
  }

  /** With distinct ids, the new list is shorter by exactly the reported
      count. */
  lemma {:induction false} RemovedCount(cs: seq<Client>)
    requires Injective(cs, (c: Client) => c.id)
    ensures RemoveDuplicates(cs, true).Replaced? ==>
            |RemoveDuplicates(cs, true).clients| == |cs| - RemoveDuplicates(cs, true).count
  {
    KeptSize(cs);
    var o := RemoveDuplicates(cs, true);
    assert o.Replaced? ==> o.clients == Filter(cs, Keeps(cs));
  }
}
