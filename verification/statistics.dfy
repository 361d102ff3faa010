/** The two analytics panels: the dashboard's counts over appointments
    (total, completed, cancelled, distinct client names, appointments per
    treatment, most popular first) and the CRM's counts over clients
    (total, active, revenue, history entries per treatment). */
module Statistics {
  import opened Wrappers
  import opened Lists
  import opened Sorting
  import opened Records
  import opened Grouping
  import Crm

  // ---------------------------------------------------------------------
  // Counting by treatment

  /** One entry of a per-treatment count object. */
  datatype TreatmentCount = TreatmentCount(treatment: string, count: int)

  function CountOf(t: TreatmentCount): int {
    t.count
  }

  /** The count object over the given keys, in their order. */
  function TallyOver<T(==)>(s: seq<T>, key: T -> string, ks: seq<string>): (r: seq<TreatmentCount>)
    ensures |r| == |ks|
    ensures forall i :: 0 <= i < |r| ==> r[i] == TreatmentCount(ks[i], |Group(s, key, ks[i])|)
    decreases |ks|
  {
    if |ks| == 0 then []
    else TallyOver(s, key, ks[..|ks| - 1]) + [TreatmentCount(ks[|ks| - 1], |Group(s, key, ks[|ks| - 1])|)]
  }

  lemma {:induction false} TallyOverSum<T>(s: seq<T>, key: T -> string, ks: seq<string>)
    ensures Sum(TallyOver(s, key, ks), CountOf) == Sum(ks, GroupSize(s, key))
    decreases |ks|
  {
    if |ks| > 0 {
      var r := TallyOver(s, key, ks);
      TallyOverSum(s, key, ks[..|ks| - 1]);
      assert r[..|r| - 1] == TallyOver(s, key, ks[..|ks| - 1]);
    }
  }

  /** The keys of a count object, in its order. */
  function Treatments(r: seq<TreatmentCount>): (ts: seq<string>)
    ensures |ts| == |r| && forall i :: 0 <= i < |r| ==> ts[i] == r[i].treatment
  {
    seq(|r|, i requires 0 <= i < |r| => r[i].treatment)
  }

  /** `acc[key] = (acc[key] || 0) + 1` over `s`: each key once, in order of
      first appearance (the keys are exactly `Keys`), with the number of
      members having it. The counts add up to the number of members. */
  function Tally<T(==)>(s: seq<T>, key: T -> string): (r: seq<TreatmentCount>)
    ensures Treatments(r) == Keys(s, key)
    ensures forall i :: 0 <= i < |r| ==> r[i].count == |Group(s, key, r[i].treatment)| && r[i].count >= 1
    ensures Sum(r, CountOf) == |s|
  {
    var r := TallyOver(s, key, Keys(s, key));
    assert Treatments(r) == Keys(s, key);
    TallyCounts(s, key);
    TallyOverSum(s, key, Keys(s, key));
    GroupSizesTotal(s, key);
    r
  }

  lemma {:induction false} TallyCounts<T>(s: seq<T>, key: T -> string)
    ensures forall i :: 0 <= i < |Keys(s, key)| ==>
      TallyOver(s, key, Keys(s, key))[i].count == |Group(s, key, TallyOver(s, key, Keys(s, key))[i].treatment)|
      && TallyOver(s, key, Keys(s, key))[i].count >= 1
  {
    var ks := Keys(s, key);
    var r := TallyOver(s, key, ks);
    forall i | 0 <= i < |ks|
      ensures r[i].count == |Group(s, key, r[i].treatment)| && r[i].count >= 1
    {
      GroupNonEmpty(s, key, ks[i]);
    }
  }

  // ---------------------------------------------------------------------
  // Distinct values

  /** A sequence without repeats has as many distinct values as elements. */
  lemma {:induction false} DistinctCount<K>(ks: seq<K>)
    requires forall i, j :: 0 <= i < j < |ks| ==> ks[i] != ks[j]
    ensures |set x | x in ks| == |ks|
    decreases |ks|
  {
    if |ks| > 0 {
      var init := ks[..|ks| - 1];
      var last := ks[|ks| - 1];
      DistinctCount(init);
      assert (set x | x in ks) == (set x | x in init) + {last} by {
        assert ks == init + [last];
      }
      assert last !in (set x | x in init);
    }
  }

  /** The number of distinct keys is the size of the set of keys
      (`new Set(s.map(key)).size`). */
  lemma {:induction false} KeysAreTheSet<T, K>(s: seq<T>, key: T -> K)
    ensures |Keys(s, key)| == |KeySet(s, key)|
  {
    var ks := Keys(s, key);
    DistinctCount(ks);
    assert (set x | x in ks) == KeySet(s, key);
  }

  /** `new Set(s.map(key))`. */
  function KeySet<T, K>(s: seq<T>, key: T -> K): set<K> {
    set i | 0 <= i < |s| :: key(s[i])
  }

  // ---------------------------------------------------------------------
  // Dashboard analytics

  datatype AppointmentStats = AppointmentStats(
    total: nat,
    completed: nat,
    cancelled: nat,
    activeClients: nat,
    popular: seq<TreatmentCount>)

  function HasStatus(status: string): Appointment -> bool {
    (a: Appointment) => a.status == status
  }

  function ClientNameOf(a: Appointment): Option<string> {
    a.clientName
  }

  function TreatmentOf(a: Appointment): string {
    a.treatment
  }

  /** The per-treatment counts, largest first. */
  function Popular(apts: seq<Appointment>): (r: seq<TreatmentCount>)
    ensures forall i, j :: 0 <= i < j < |r| ==> r[i].count >= r[j].count
    ensures Sum(r, CountOf) == |apts|
    ensures forall t :: t in r <==> t in Tally(apts, TreatmentOf)
  {
    var tally := Tally(apts, TreatmentOf);
    var r := SortBy(tally, (t: TreatmentCount) => -t.count);
    SumPermutation(tally, r, CountOf);
    assert forall t :: t in r <==> t in multiset(tally);
    r
  }

  /** `new Set(apts.map(apt => apt.clientName)).size`, a missing name
      counting as one more name. */
  function DistinctClients(apts: seq<Appointment>): (n: nat)
    ensures n == |set i | 0 <= i < |apts| :: apts[i].clientName|
    ensures n <= |apts| && (n == 0 <==> |apts| == 0)
  {
    var key: Appointment -> Option<string> := ClientNameOf;
    KeysAreTheSet(apts, key);
    assert KeySet(apts, key) == (set i | 0 <= i < |apts| :: apts[i].clientName);
    assert |apts| > 0 ==> |Keys(apts, ClientNameOf)| > 0 by {
      if |apts| > 0 {
        assert ClientNameOf(apts[0]) in Keys(apts, ClientNameOf);
      }
    }
    |Keys(apts, ClientNameOf)|
  }

  /** The panel's statistics. */
  function AppointmentAnalytics(apts: seq<Appointment>): (r: AppointmentStats)
    ensures r.total == |apts|
    ensures r.completed == Count(apts, HasStatus(Completed)) && r.cancelled == Count(apts, HasStatus(Cancelled))
    ensures r.completed + r.cancelled <= r.total
    ensures r.activeClients <= r.total
    ensures r.popular == Popular(apts) && Sum(r.popular, CountOf) == r.total
  {
    CompletedCancelledDisjoint(apts);
    AppointmentStats(|apts|, Count(apts, HasStatus(Completed)), Count(apts, HasStatus(Cancelled)),
                     DistinctClients(apts), Popular(apts))
  }

  /** No appointment is both completed and cancelled. */
  lemma {:induction false} CompletedCancelledDisjoint(apts: seq<Appointment>)
    ensures Count(apts, HasStatus(Completed)) + Count(apts, HasStatus(Cancelled)) <= |apts|
  {
    assert Completed != Cancelled by { assert Completed[1] != Cancelled[1]; }
    var either := (a: Appointment) => HasStatus(Completed)(a) || HasStatus(Cancelled)(a);
    CountDisjoint(apts, HasStatus(Completed), HasStatus(Cancelled), either);
  }

  /** A treatment's count is the number of its appointments, and every
      booked treatment is listed. */
  lemma {:induction false} PopularCountsAppointments(apts: seq<Appointment>, j: int)
    requires 0 <= j < |apts|
    ensures exists i :: 0 <= i < |Popular(apts)|
                        && Popular(apts)[i].treatment == apts[j].treatment
                        && Popular(apts)[i].count == Count(apts, (a: Appointment) => a.treatment == apts[j].treatment)
  {
    var t := apts[j].treatment;
    var entry := TallyEntry(apts, t);
    var popular := Popular(apts);
    assert entry in popular;
    var i :| 0 <= i < |popular| && popular[i] == entry;
    GroupIsCount(apts, t);
  }

  /** Every booked treatment has its entry in the count object. */
  lemma {:induction false} TallyEntry(apts: seq<Appointment>, t: string) returns (entry: TreatmentCount)
    requires exists j :: 0 <= j < |apts| && apts[j].treatment == t
    ensures entry in Tally(apts, TreatmentOf)
    ensures entry.treatment == t && entry.count == |Group(apts, TreatmentOf, t)|
  {
    var tally := Tally(apts, TreatmentOf);
    var j :| 0 <= j < |apts| && apts[j].treatment == t;
    assert TreatmentOf(apts[j]) in Keys(apts, TreatmentOf);
    var k :| 0 <= k < |tally| && Treatments(tally)[k] == t;
    entry := tally[k];
  }

  /** A treatment's group is the appointments with that treatment. */
  lemma {:induction false} GroupIsCount(apts: seq<Appointment>, t: string)
    ensures |Group(apts, TreatmentOf, t)| == Count(apts, (a: Appointment) => a.treatment == t)
  {
    var same := (a: Appointment) => a.treatment == t;
    forall i | 0 <= i < |apts|
      ensures HasKey(TreatmentOf, t)(apts[i]) == same(apts[i])
    {
      assert HasKey(TreatmentOf, t)(apts[i]) == (TreatmentOf(apts[i]) == t);
    }
    FilterExt(apts, HasKey(TreatmentOf, t), same);
  }

  // ---------------------------------------------------------------------
  // CRM analytics

  datatype ClientStats = ClientStats(
    totalClients: nat,
    activeClients: nat,
    totalRevenue: int,
    treatmentStats: seq<TreatmentCount>)

  /** Every client's history, one after another. */
  function AllEntries(cs: seq<Client>): (es: seq<HistoryEntry>)
    ensures forall i, k :: 0 <= i < |cs| && 0 <= k < |cs[i].treatmentHistory| ==> cs[i].treatmentHistory[k] in es
    ensures forall k :: 0 <= k < |es| ==> exists i :: 0 <= i < |cs| && es[k] in cs[i].treatmentHistory
    decreases |cs|
  {
    if |cs| == 0 then []
    else
      var init := cs[..|cs| - 1];
      assert forall i :: 0 <= i < |init| ==> init[i] == cs[i];
      var es := AllEntries(init) + cs[|cs| - 1].treatmentHistory;
      assert forall k :: 0 <= k < |es| ==> exists i :: 0 <= i < |cs| && es[k] in cs[i].treatmentHistory by {
        forall k | 0 <= k < |es|
          ensures exists i :: 0 <= i < |cs| && es[k] in cs[i].treatmentHistory
        {
          if k >= |AllEntries(init)| {
            assert es[k] in cs[|cs| - 1].treatmentHistory;
          } else {
            assert es[k] == AllEntries(init)[k];
          }
        }
      }
      es
  }

  /** The entries of two client lists one after the other are the first
      list's entries followed by the second's: histories are listed in
      client order. */
  lemma {:induction false} AllEntriesAppend(a: seq<Client>, b: seq<Client>)
    ensures AllEntries(a + b) == AllEntries(a) + AllEntries(b)
    decreases |b|
  {
    if |b| == 0 {
      assert a + b == a;
    } else {
      var b0 := b[..|b| - 1];
      assert (a + b)[..|a + b| - 1] == a + b0;
      AllEntriesAppend(a, b0);
      AppendAssoc(AllEntries(a), AllEntries(b0), b[|b| - 1].treatmentHistory);
    }
  }

  function Spent(c: Client): int {
    c.totalSpent
  }

  function HistoryLength(c: Client): int {
    |c.treatmentHistory|
  }

  function EntryTreatment(e: HistoryEntry): string {
    e.treatment
  }

  /** The panel's statistics: the clients, those with status "active", the
      sum of their totals, and the per-treatment counts over every history
      entry in order of first appearance. */
  function ClientAnalytics(cs: seq<Client>): (r: ClientStats)
    ensures r.totalClients == |cs| && r.activeClients <= r.totalClients
    ensures r.activeClients == Count(cs, (c: Client) => c.status == Active)
    ensures r.totalRevenue == Sum(cs, Spent)
    ensures Sum(r.treatmentStats, CountOf) == Sum(cs, HistoryLength)
    ensures forall i :: 0 <= i < |r.treatmentStats| ==> r.treatmentStats[i].count >= 1
    ensures r.treatmentStats == Tally(AllEntries(cs), EntryTreatment)
  {
    var stats := Tally(AllEntries(cs), EntryTreatment);
    EntriesCount(cs);
    ClientStats(|cs|, Count(cs, (c: Client) => c.status == Active), Sum(cs, Spent), stats)
  }

  lemma {:induction false} EntriesCount(cs: seq<Client>)
    ensures |AllEntries(cs)| == Sum(cs, HistoryLength)
    decreases |cs|
  {
    if |cs| > 0 {
      EntriesCount(cs[..|cs| - 1]);
    }
  }

  /** When every total is the sum of its history's costs (as adding a
      treatment keeps it), the revenue is the sum of all costs ever
      recorded. */
  lemma {:induction false} RevenueIsAllCosts(cs: seq<Client>)
    requires forall i :: 0 <= i < |cs| ==> Crm.Consistent(cs[i])
    ensures ClientAnalytics(cs).totalRevenue == Sum(AllEntries(cs), Crm.Cost)
    decreases |cs|
  {
    if |cs| > 0 {
      var init := cs[..|cs| - 1];
      assert forall i :: 0 <= i < |init| ==> init[i] == cs[i];
      RevenueIsAllCosts(init);
      SumAppend(AllEntries(init), cs[|cs| - 1].treatmentHistory, Crm.Cost);
    }
  }
}
