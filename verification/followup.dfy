/** The follow-up suggestion for a finished appointment: a date a fixed
    number of days later, by treatment, and a message to the client. */
module FollowUp {
  import opened Wrappers
  import opened Text
  import opened Clock
  import opened Records
  import WhatsApp

  /** Days until the follow-up, for the treatments that have one. */
  const FollowUpDays: map<string, int> := map["Botox Treatment" := 14, "Dermal Fillers" := 30, "Consultation" := 7]

  /** The table's entry; `None` (undefined) for any other treatment. */
  function Offset(treatment: string): (n: Option<int>)
    ensures n.Some? <==> treatment in FollowUpDays
    ensures n.Some? ==> n.value == FollowUpDays[treatment] && n.value > 0
  {
    if treatment in FollowUpDays then Some(FollowUpDays[treatment]) else None
  }

  datatype Suggestion = Suggestion(clientName: Option<string>, suggestedDate: Instant, message: string)

  /** A missing name prints as "undefined" in a template string. */
  function NameText(name: Option<string>): string {
    if name.Some? then name.value else "undefined"
  }

  const Greeting := "Hello "
  const Invitation := "!" + InvitationRest
  const InvitationRest := " It's time for your follow-up appointment for "

  /** The message: a greeting naming the client, then the treatment. */
  function Message(name: string, treatment: string): (msg: string)
    ensures StartsWith(msg, Greeting + name + "!")
    ensures Contains(msg, name) && Contains(msg, treatment)
  {
    var msg := Greeting + name + Invitation + treatment + ".";
    MessageParts(name, treatment);
    msg
  }

  lemma {:induction false} MessageParts(name: string, treatment: string)
    ensures var msg := Greeting + name + Invitation + treatment + ".";
      StartsWith(msg, Greeting + name + "!") && Contains(msg, name) && Contains(msg, treatment)
  {
    assert Invitation == "!" + InvitationRest;
    MessageShape(Greeting, name, "!", InvitationRest, treatment, ".");
  }

  /** The shape of the message with its pieces held abstract: the greeting
      up to the "!" is a prefix, and the name and the treatment occur in
      it. */
  lemma {:induction false} MessageShape(g: string, n: string, bang: string, rest: string, t: string, dot: string)
    ensures var msg := g + n + (bang + rest) + t + dot;
      StartsWith(msg, g + n + bang) && Contains(msg, n) && Contains(msg, t)
  {
    var msg := g + n + (bang + rest) + t + dot;
    var head := g + n + bang;
    assert msg == head + (rest + t + dot);
    assert msg[..|head|] == head;
    assert msg == g + n + (bang + rest + t + dot);
    ContainsInfix(g, n, bang + rest + t + dot);
    assert msg == g + n + (bang + rest) + t + dot;
    ContainsInfix(g + n + (bang + rest), t, dot);
  }

  /** `generateFollowUpMessage`: the appointment's date moved by the
      treatment's number of days at the same clock time (an invalid date
      when the treatment has no entry or the date is invalid), and a
      greeting naming the client and the treatment. */
  function Suggest(a: Appointment): (r: Suggestion)
    ensures r.clientName == a.clientName
    ensures r.suggestedDate.At? <==> a.date.At? && a.treatment in FollowUpDays
    ensures r.suggestedDate.At? ==>
      Day(r.suggestedDate.minutes) == Day(a.date.minutes) + FollowUpDays[a.treatment]
      && Hour(r.suggestedDate.minutes) == Hour(a.date.minutes)
      && Minute(r.suggestedDate.minutes) == Minute(a.date.minutes)
    ensures StartsWith(r.message, Greeting + NameText(a.clientName) + "!")
    ensures Contains(r.message, NameText(a.clientName)) && Contains(r.message, a.treatment)
  {
    Suggestion(a.clientName, AddDays(a.date, Offset(a.treatment)), Message(NameText(a.clientName), a.treatment))
  }

  /** The follow-up is always later than the appointment: every offset is
      positive, so the suggested date is some days after the visit. */
  lemma {:induction false} FollowUpIsLater(a: Appointment)
    requires Suggest(a).suggestedDate.At?
    ensures Before(a.date, Suggest(a).suggestedDate)
  {
    var d := Suggest(a).suggestedDate;
    Decompose(a.date.minutes);
    Decompose(d.minutes);
  }

  /** A treatment without an entry (a typo included) gets no usable date. */
  lemma {:induction false} UnlistedTreatmentHasNoDate(a: Appointment)
    requires a.treatment !in FollowUpDays
    ensures Suggest(a).suggestedDate.Invalid?
  {
  }

  /** The follow-up message opens with the same greeting as the WhatsApp
      templates. */
  lemma {:induction false} GreetsLikeTemplates(a: Appointment)
    ensures WhatsApp.Greets(Suggest(a).message, NameText(a.clientName))
  {
  }
}
