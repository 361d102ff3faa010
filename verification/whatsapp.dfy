/** `sendWhatsAppMessage`: the international number a phone is dialled
    under (Israeli numbers, country code 972), the request the link
    carries, and the five message templates of `WhatsAppConfig`. Opening
    the link and the error alert are the effects that follow and are not
    modelled. */
module WhatsApp {
  import opened Wrappers
  import opened Text
  import opened Records

  const CountryCode := "972"

  predicate EndsWith(s: string, p: string) {
    |p| <= |s| && s[|s| - |p|..] == p
  }

  /** The dialled number: `None` on the error path (no phone, or a phone
      without digits). Otherwise the digits, with a leading 0 turned into
      972 and 972 put in front of any other number not already starting
      with it. */
  function InternationalNumber(phone: Option<string>): (r: Option<string>)
    ensures r.Some? <==> Present(phone) && DigitsOnly(phone.value) != ""
    ensures r.Some? ==> AllDigits(r.value) && StartsWith(r.value, CountryCode)
    ensures r.Some? ==> var d := DigitsOnly(phone.value);
                        EndsWith(r.value, if d[0] == '0' then d[1..] else d)
                        && |r.value| <= |d| + |CountryCode|
    ensures r.Some? ==> var d := DigitsOnly(phone.value);
                        (d[0] == '0' ==> r.value == CountryCode + d[1..])
                        && (d[0] != '0' && StartsWith(d, CountryCode) ==> r.value == d)
                        && (d[0] != '0' && !StartsWith(d, CountryCode) ==> r.value == CountryCode + d)
  {
    if !Present(phone) then None
    else
      var d := DigitsOnly(phone.value);
      if d == "" then None
      else if d[0] == '0' then Some(CountryCode + d[1..])
      else if StartsWith(d, CountryCode) then Some(d)
      else Some(CountryCode + d)
  }

  /** A number that was normalised once is its own normal form. */
  lemma {:induction false} InternationalIdempotent(phone: Option<string>)
    requires InternationalNumber(phone).Some?
    ensures InternationalNumber(InternationalNumber(phone)) == InternationalNumber(phone)
  {
    var r := InternationalNumber(phone).value;
    assert r[0] == CountryCode[0];
    assert DigitsOnly(r) == r;
  }

  /** A local number with a leading 0 and the same number written with the
      country code reach the same chat. */
  lemma {:induction false} LocalAndInternationalAgree(local: string)
    requires AllDigits(local)
    ensures InternationalNumber(Some("0" + local)) == InternationalNumber(Some(CountryCode + local))
  {
    assert AllDigits("0" + local);
    assert AllDigits(CountryCode + local);
    assert (CountryCode + local)[..|CountryCode|] == CountryCode;
  }

  /** What the link asks WhatsApp for: the chat and, only for a non-empty
      message, the text to prefill. */
  datatype Request = Request(number: string, text: Option<string>)

  function Send(phone: Option<string>, message: string): (r: Option<Request>)
    ensures r.Some? <==> InternationalNumber(phone).Some?
    ensures r.Some? ==> r.value.number == InternationalNumber(phone).value
    ensures r.Some? ==> (r.value.text.Some? <==> message != "")
    ensures r.Some? && r.value.text.Some? ==> r.value.text.value == message
  {
    match InternationalNumber(phone)
    case None => None
    case Some(n) => Some(Request(n, if message != "" then Some(message) else None))
  }

  // ---------------------------------------------------------------------
  // Templates

  /** A message opening with the greeting that every template uses. */
  predicate Greets(msg: string, name: string) {
    StartsWith(msg, "Hello " + name + "!")
  }

  function AppointmentReminder(name: string, time: string): (msg: string)
    ensures Greets(msg, name) && Contains(msg, name) && Contains(msg, time)
    ensures EndsWith(msg, " This is a reminder about your appointment today at " + time + ".")
  {
    var msg := Greeting(name, " This is a reminder about your appointment today at " + time + ".");
    EndingContains(msg, " This is a reminder about your appointment today at ", time, ".");
    msg
  }

  function ConfirmationRequest(name: string, time: string): (msg: string)
    ensures Greets(msg, name) && Contains(msg, name) && Contains(msg, time)
    ensures EndsWith(msg, " Please confirm your appointment for " + time + ".")
  {
    var msg := Greeting(name, " Please confirm your appointment for " + time + ".");
    EndingContains(msg, " Please confirm your appointment for ", time, ".");
    msg
  }

  /** A message ending in `a + t + b` contains `t`. */
  lemma {:induction false} EndingContains(msg: string, a: string, t: string, b: string)
    requires EndsWith(msg, a + t + b)
    ensures Contains(msg, t)
  {
    var front := msg[..|msg| - |a + t + b|];
    assert msg == front + (a + t + b);
    assert msg == (front + a) + t + b;
    ContainsInfix(front + a, t, b);
  }

  /** A template: the greeting followed by the template's sentence. */
  function Greeting(name: string, sentence: string): (msg: string)
    ensures Greets(msg, name) && Contains(msg, name)
    ensures EndsWith(msg, sentence)
  {
    var head := "Hello " + name + "!";
    ContainsInfix("Hello ", name, "!" + sentence);
    assert head + sentence == "Hello " + name + ("!" + sentence);
    assert (head + sentence)[..|head|] == head;
    assert (head + sentence)[|head + sentence| - |sentence|..] == sentence;
    head + sentence
  }

  function Cancellation(name: string): (msg: string)
    ensures Greets(msg, name) && Contains(msg, name)
    ensures EndsWith(msg, " We noticed you cancelled your appointment. Would you like to reschedule?")
  {
    Greeting(name, " We noticed you cancelled your appointment. Would you like to reschedule?")
  }

  function GeneralMessage(name: string): (msg: string)
    ensures Greets(msg, name) && Contains(msg, name)
    ensures EndsWith(msg, " This is a message from your clinic. How can we assist you today?")
  {
    Greeting(name, " This is a message from your clinic. How can we assist you today?")
  }

  function ScheduleRequest(name: string): (msg: string)
    ensures Greets(msg, name) && Contains(msg, name)
    ensures EndsWith(msg, " Would you like to schedule your next appointment with us?")
  {
    Greeting(name, " Would you like to schedule your next appointment with us?")
  }

  /** Where a greeting puts the name: from position 6 on, followed by the
      first "!" after that position when the name has none. */
  lemma {:induction false} GreetsAt(msg: string, name: string)
    requires Greets(msg, name) && '!' !in name
    ensures |msg| > 6 + |name| && msg[6 + |name|] == '!'
    ensures msg[6..6 + |name|] == name
    ensures forall i :: 6 <= i < 6 + |name| ==> msg[i] != '!'
  {
    var h := "Hello " + name + "!";
    assert msg[..|h|] == h;
    assert msg[6..6 + |name|] == h[6..6 + |name|];
    assert forall i :: 6 <= i < 6 + |name| ==> msg[i] == name[i - 6];
  }

  /** The greeting determines the name: two messages from the templates
      greet the same patient only if the names agree, when neither name
      contains "!". */
  lemma {:induction false} GreetingNamesPatient(msg: string, a: string, b: string)
    requires '!' !in a && '!' !in b
    requires Greets(msg, a) && Greets(msg, b)
    ensures a == b
  {
    GreetsAt(msg, a);
    GreetsAt(msg, b);
  }
}
