/** The waiting-list page: the add dialog and the entry it builds, the
    WhatsApp action and the confirmed removal. */
module WaitingPage {
  import opened Wrappers
  import opened Clock
  import opened Records
  import Store
  import WhatsApp

  /** The add dialog's fields. */
  datatype WaitingForm = WaitingForm(clientName: string, phone: string, treatment: string, notes: string)

  const BlankForm := WaitingForm("", "", "", "")

  /** "Add to List" is enabled once there is a name and a phone. */
  predicate CanAdd(f: WaitingForm) {
    f.clientName != "" && f.phone != ""
  }

  /** `handleSubmit`: the form's fields with the fresh id `now`, the time of
      addition `at` and status "waiting"; the form is cleared. */
  function Submit(f: WaitingForm, now: Id, at: Instant): (r: (WaitingEntry, WaitingForm))
    ensures r.0.id == Some(now) && r.0.addedAt == Some(at) && r.0.status == Some(Waiting)
    ensures r.0.clientName == f.clientName && r.0.phone == Some(f.phone)
    ensures r.0.treatment == f.treatment && r.0.notes == Some(f.notes)
    ensures r.1 == BlankForm && !CanAdd(r.1)
  {
    (WaitingEntry(Some(now), f.clientName, Some(f.phone), f.treatment, Some(f.notes), Some(at), Some(Waiting)),
     BlankForm)
  }

  /** The store keeps the submitted entry exactly as built, since it comes
      with an id (a clock reading, never 0); the store's own fresh id and
      time are not used. */
  lemma {:induction false} StoredAsSubmitted(list: seq<WaitingEntry>, f: WaitingForm, now: Id, at: Instant, now': Id, at': Instant)
    requires now != 0
    ensures Store.AddToWaitingList(list, Submit(f, now, at).0, now', at') == list + [Submit(f, now, at).0]
  {
  }

  /** `handleWhatsApp`: nothing without a phone; otherwise the general
      message to the entry's phone, which still needs digits to open a
      chat. */
  function SendGeneral(e: WaitingEntry): (r: Option<WhatsApp.Request>)
    ensures r.Some? <==> Present(e.phone) && WhatsApp.InternationalNumber(e.phone).Some?
    ensures r.Some? ==> r.value.number == WhatsApp.InternationalNumber(e.phone).value
    ensures r.Some? ==> r.value.text == Some(WhatsApp.GeneralMessage(e.clientName))
  {
    if !Present(e.phone) then None
    else
      var msg := WhatsApp.GeneralMessage(e.clientName);
      assert |msg| > 0 by {
        assert WhatsApp.Greets(msg, e.clientName);
      }
      WhatsApp.Send(e.phone, msg)
  }

  /** `handleDelete`: the entry's id is removed when the removal is
      confirmed; otherwise nothing changes. */
  function Delete(list: seq<WaitingEntry>, e: WaitingEntry, confirmed: bool): (r: seq<WaitingEntry>)
    ensures !confirmed ==> r == list
    ensures confirmed ==> forall i :: 0 <= i < |r| ==> r[i].id != e.id && r[i] in list
    ensures confirmed ==> forall i :: 0 <= i < |list| && list[i].id != e.id ==> list[i] in r
  {
    if confirmed then Store.RemoveWaiting(list, e.id) else list
  }

  /** An entry added with a fresh id and then removed with confirmation
      leaves the list as it was. */
  lemma {:induction false} SubmitThenDelete(list: seq<WaitingEntry>, f: WaitingForm, now: Id, at: Instant, now': Id, at': Instant)
    requires now != 0
    requires forall i :: 0 <= i < |list| ==> list[i].id != Some(now)
    ensures var e := Submit(f, now, at).0;
      Delete(Store.AddToWaitingList(list, e, now', at'), e, true) == list
  {
    var e := Submit(f, now, at).0;
    StoredAsSubmitted(list, f, now, at, now', at');
    StoredAsSubmitted(list, f, now, at, now, at);
    Store.AddThenRemove(list, e, now, at);
  }
}
