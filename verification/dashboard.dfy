/** The dashboard: today's appointments, the next few upcoming ones, the
    number of completed appointments and the revenue of the current
    month. */
module Dashboard {
  import opened Wrappers
  import opened Lists
  import opened Clock
  import opened Records
  import TodayView
  import AppointmentsHook
  import Statistics
  import Crm

  const UpcomingShown := 5

  /** `todayAppointments`: the appointments whose date prints as today's,
      in stored order. */
  function TodayAppointments(apts: seq<Appointment>, now: Instant): (r: seq<Appointment>)
    ensures forall i :: 0 <= i < |r| ==> r[i] in apts && TodayView.SameDateString(r[i].date, now)
    ensures forall i :: 0 <= i < |apts| && TodayView.SameDateString(apts[i].date, now) ==> apts[i] in r
    ensures r == AppointmentsHook.DayAppointments(apts, now)
  {
    Filter(apts, TodayView.OnDay(now))
  }

  function IsUpcoming(now: Instant): Appointment -> bool {
    (a: Appointment) => Before(now, a.date)
  }

  /** `upcomingAppointments`: the first five appointments, in stored order,
      that start after now; nothing sorts them by date. */
  function UpcomingAppointments(apts: seq<Appointment>, now: Instant): (r: seq<Appointment>)
    ensures |r| <= UpcomingShown
    ensures forall i :: 0 <= i < |r| ==> r[i] in apts && Before(now, r[i].date)
    ensures |r| <= Count(apts, IsUpcoming(now)) && r == Filter(apts, IsUpcoming(now))[..|r|]
    ensures Count(apts, IsUpcoming(now)) <= UpcomingShown ==>
      forall i :: 0 <= i < |apts| && Before(now, apts[i].date) ==> apts[i] in r
  {
    var up := Filter(apts, IsUpcoming(now));
    var r := Take(up, UpcomingShown);
    assert r == up[..|r|];
    r
  }

  /** With more than five appointments ahead, the five shown are the
      first five stored, whichever start soonest. */
  lemma {:induction false} UpcomingIgnoresDates(apts: seq<Appointment>, now: Instant)
    requires |apts| > UpcomingShown
    requires forall i :: 0 <= i < |apts| ==> Before(now, apts[i].date)
    ensures UpcomingAppointments(apts, now) == apts[..UpcomingShown]
  {
    FilterAll(apts, IsUpcoming(now));
  }

  /** `completedAppointments`: the same count as the analytics panel's. */
  function CompletedAppointments(apts: seq<Appointment>): (n: nat)
    ensures n == Statistics.AppointmentAnalytics(apts).completed
    ensures n <= |apts|
  {
    Count(apts, Statistics.HasStatus(Completed))
  }

  // ---------------------------------------------------------------------
  // Monthly revenue

  /** A day's year and month (0 to 11) in the local calendar. */
  datatype YearMonth = YearMonth(year: int, month: int)

  /** The local calendar, from a day index to its year and month; the clock
      here counts days and minutes only, so the calendar is a parameter. */
  type Calendar = int -> YearMonth

  /** `getMonth()`: `None` (NaN) for an invalid date. */
  function MonthOf(cal: Calendar, t: Instant): (m: Option<int>)
    ensures m.Some? <==> t.At?
  {
    if t.At? then Some(cal(Day(t.minutes)).month) else None
  }

  /** As written: the entry's month equals the current month, in whatever
      year. */
  function InMonthAsWritten(cal: Calendar, now: Instant): HistoryEntry -> bool {
    (e: HistoryEntry) => MonthOf(cal, e.date).Some? && MonthOf(cal, e.date) == MonthOf(cal, now)
  }

  /** As intended: the entry falls in the current month of the current
      year. */
  function InMonth(cal: Calendar, now: Instant): HistoryEntry -> bool {
    (e: HistoryEntry) => e.date.At? && now.At? && cal(Day(e.date.minutes)) == cal(Day(now.minutes))
  }

  /** A client's part: the sum of the costs of its entries that `p` selects. */
  function ClientPart(p: HistoryEntry -> bool): Client -> int {
    (c: Client) => Sum(Filter(c.treatmentHistory, p), Crm.Cost)
  }

  /** Summing per client is summing over all entries at once. */
  lemma {:induction false} ClientPartsAreEntries(cs: seq<Client>, p: HistoryEntry -> bool)
    ensures Sum(cs, ClientPart(p)) == Sum(Filter(Statistics.AllEntries(cs), p), Crm.Cost)
    decreases |cs|
  {
    if |cs| > 0 {
      var init := cs[..|cs| - 1];
      var last := cs[|cs| - 1];
      ClientPartsAreEntries(init, p);
      assert Statistics.AllEntries(cs) == Statistics.AllEntries(init) + last.treatmentHistory;
      FilterAppend(Statistics.AllEntries(init), last.treatmentHistory, p);
      SumAppend(Filter(Statistics.AllEntries(init), p), Filter(last.treatmentHistory, p), Crm.Cost);
    }
  }

  /** `calculateMonthlyRevenue` as written: the costs of every entry dated
      in the current month of any year. */
  function MonthlyRevenueAsWritten(cs: seq<Client>, cal: Calendar, now: Instant): (total: int)
    ensures total == Sum(Filter(Statistics.AllEntries(cs), InMonthAsWritten(cal, now)), Crm.Cost)
  {
    ClientPartsAreEntries(cs, InMonthAsWritten(cal, now));
    Sum(cs, ClientPart(InMonthAsWritten(cal, now)))
  }

  /** `calculateMonthlyRevenue` as intended: the costs of every entry dated
      in the current month of the current year. */
  function MonthlyRevenue(cs: seq<Client>, cal: Calendar, now: Instant): (total: int)
    ensures total == Sum(Filter(Statistics.AllEntries(cs), InMonth(cal, now)), Crm.Cost)
  {
    ClientPartsAreEntries(cs, InMonth(cal, now));
    Sum(cs, ClientPart(InMonth(cal, now)))
  }

  /** With costs that are not negative, a sum over some of the entries is
      at most the sum over all of them. */
  lemma {:induction false} FilteredSumAtMost<T>(s: seq<T>, p: T -> bool, f: T -> int)
    requires forall i :: 0 <= i < |s| ==> f(s[i]) >= 0
    ensures 0 <= Sum(Filter(s, p), f) <= Sum(s, f)
    decreases |s|
  {
    if |s| > 0 {
      var init := s[..|s| - 1];
      var last := s[|s| - 1];
      assert s == init + [last];
      FilteredSumAtMost(init, p, f);
      FilterAppend(init, [last], p);
      SumAppend(Filter(init, p), Filter([last], p), f);
      assert Filter([last], p) == if p(last) then [last] else [];
      if p(last) {
        assert [last][..0] == [];
      }
    }
  }

  /** The month's revenue is part of the clinic's revenue, when every
      total is the sum of its history and no cost is negative. */
  lemma {:induction false} MonthlyAtMostRevenue(cs: seq<Client>, cal: Calendar, now: Instant)
    requires forall i :: 0 <= i < |cs| ==> Crm.Consistent(cs[i])
    requires forall k :: 0 <= k < |Statistics.AllEntries(cs)| ==> Statistics.AllEntries(cs)[k].cost >= 0
    ensures 0 <= MonthlyRevenue(cs, cal, now) <= Statistics.ClientAnalytics(cs).totalRevenue
  {
    Statistics.RevenueIsAllCosts(cs);
    FilteredSumAtMost(Statistics.AllEntries(cs), InMonth(cal, now), Crm.Cost);
  }

  /** As written, a treatment from the same month a year earlier is counted
      in this month's revenue; as intended it is not. */
  lemma {:induction false} LastYearCounted(c: Client, e: HistoryEntry, cal: Calendar, now: Instant)
    requires now.At? && e.date.At?
    requires cal(Day(e.date.minutes)).month == cal(Day(now.minutes)).month
    requires cal(Day(e.date.minutes)).year == cal(Day(now.minutes)).year - 1
    requires c.treatmentHistory == [e]
    ensures MonthlyRevenueAsWritten([c], cal, now) == e.cost
    ensures MonthlyRevenue([c], cal, now) == 0
  {
    assert Statistics.AllEntries([c]) == [e] by {
      assert [c][..0] == [];
    }
    assert InMonthAsWritten(cal, now)(e);
    assert !InMonth(cal, now)(e);
    assert [e][1..] == [];
    assert Filter([e], InMonthAsWritten(cal, now)) == [e];
    assert [e][..0] == [];
    assert Sum([e], Crm.Cost) == e.cost;
  }
}
