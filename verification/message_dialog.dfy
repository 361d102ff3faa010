/** The WhatsApp message dialog of the patient list: the list of message
    templates (two built-ins that cannot be deleted, and the ones the user
    saves), personalising a template with the patient's name, saving and
    deleting templates, and when Send is enabled. */
module MessageDialog {
  import opened Wrappers
  import opened Lists
  import opened Text
  import opened Records

  datatype Template = Template(id: Id, name: string, template: string, isDefault: bool)

  const NamePlaceholder := "{name}"

  /** The built-in reminder: "Hi {name}, this is a reminder for your
      appointment tomorrow at {time}." */
  const ReminderTail := ", this is a reminder for your appointment tomorrow at {time}."
  const ReminderText := "Hi " + NamePlaceholder + ReminderTail

  const DefaultTemplates := [
    Template(1, "Appointment Reminder", ReminderText, true),
    Template(2, "Custom Message", "", true)
  ]

  /** The templates the dialog starts with: the stored list, or else the
      two built-ins. */
  function InitialTemplates(stored: Option<seq<Template>>): (ts: seq<Template>)
    ensures stored.None? ==> |ts| == 2 && ts[0].id != ts[1].id
                             && forall i :: 0 <= i < |ts| ==> ts[i].isDefault
    ensures stored.Some? ==> ts == stored.value
  {
    match stored
    case None => DefaultTemplates
    case Some(ts) => ts
  }

  // ---------------------------------------------------------------------
  // Personalising a template

  /** The first occurrence of `pat` in `s` starts at `i`. */
  predicate FirstAt(s: string, pat: string, i: int) {
    OccursAt(s, pat, i) && forall j :: 0 <= j < i ==> !OccursAt(s, pat, j)
  }

  /** `s.replace(pat, rep)` with a string pattern: only the first
      occurrence is replaced, and an empty pattern matches at the start. */
  function ReplaceFirst(s: string, pat: string, rep: string): (r: string)
    ensures |pat| > 0 && !Contains(s, pat) ==> r == s
    ensures Contains(s, pat) ==>
      exists i :: FirstAt(s, pat, i) && r == s[..i] + rep + s[i + |pat|..]
    decreases |s|
  {
    ContainsLength(s, pat);
    if |pat| == 0 then
      assert OccursAt(s, pat, 0);
      rep + s
    else if |s| < |pat| then s
    else if s[..|pat|] == pat then
      assert FirstAt(s, pat, 0);
      rep + s[|pat|..]
    else
      var tail := ReplaceFirst(s[1..], pat, rep);
      ReplaceStep(s, pat, rep, tail);
      [s[0]] + tail
  }

  /** A first character that does not start the pattern is kept in front of
      the replaced rest. */
  lemma {:induction false} ReplaceStep(s: string, pat: string, rep: string, tail: string)
    requires |pat| > 0 && |s| >= |pat| && s[..|pat|] != pat
    requires Contains(s[1..], pat) ==>
      exists i :: FirstAt(s[1..], pat, i) && tail == s[1..][..i] + rep + s[1..][i + |pat|..]
    ensures !Contains(s, pat) ==> !Contains(s[1..], pat)
    ensures Contains(s, pat) ==>
      exists i :: FirstAt(s, pat, i) && [s[0]] + tail == s[..i] + rep + s[i + |pat|..]
  {
    if Contains(s, pat) {
      assert Contains(s[1..], pat);
      var i :| FirstAt(s[1..], pat, i) && tail == s[1..][..i] + rep + s[1..][i + |pat|..];
      FirstShifts(s, pat, i);
      Reassemble(s, rep, i, |pat|);
    }
  }

  /** One character in front that does not start the pattern moves the
      first occurrence one place on. */
  lemma {:induction false} FirstShifts(s: string, pat: string, i: int)
    requires |s| > 0 && |pat| > 0 && !StartsWith(s, pat)
    requires FirstAt(s[1..], pat, i)
    ensures FirstAt(s, pat, i + 1)
  {
    assert s[i + 1..i + 1 + |pat|] == s[1..][i..i + |pat|];
    forall j | 0 <= j < i + 1
      ensures !OccursAt(s, pat, j)
    {
      if j > 0 && j + |pat| <= |s| {
        SliceShift(s, j, |pat|);
        assert !OccursAt(s[1..], pat, j - 1);
      } else if j == 0 {
        assert s[0..|pat|] == s[..|pat|];
      }
    }
  }

  lemma {:induction false} SliceShift(s: string, j: int, n: int)
    requires 1 <= j && 0 <= n && j + n <= |s|
    ensures s[1..][j - 1..j - 1 + n] == s[j..j + n]
  {
  }

  lemma {:induction false} Reassemble(s: string, rep: string, i: int, n: int)
    requires 0 <= i && 0 <= n && i + 1 + n <= |s|
    ensures [s[0]] + (s[1..][..i] + rep + s[1..][i + n..]) == s[..i + 1] + rep + s[i + 1 + n..]
  {
    assert [s[0]] + s[1..][..i] == s[..i + 1];
    assert s[1..][i + n..] == s[i + 1 + n..];
  }

  /** A template's text with the first "{name}" replaced by the patient's
      name (the empty string when there is none); an empty template gives
      an empty message. */
  function Personalize(text: string, name: string): (msg: string)
    ensures text == "" ==> msg == ""
    ensures !Contains(text, NamePlaceholder) ==> msg == text
    ensures Contains(text, NamePlaceholder) ==>
      exists i :: FirstAt(text, NamePlaceholder, i)
                  && msg == text[..i] + name + text[i + |NamePlaceholder|..]
  {
    if text != "" then ReplaceFirst(text, NamePlaceholder, name) else ""
  }

  /** `patient?.name || ''`. */
  function PatientName(patient: Option<Client>): string {
    if patient.Some? then patient.value.name else ""
  }

  lemma {:induction false} ReplaceHere(s: string, pat: string, rep: string)
    requires |pat| > 0 && StartsWith(s, pat)
    ensures ReplaceFirst(s, pat, rep) == rep + s[|pat|..]
  {
  }

  lemma {:induction false} ReplaceSkip(s: string, pat: string, rep: string)
    requires |pat| > 0 && |s| > 0 && s[0] != pat[0]
    ensures ReplaceFirst(s, pat, rep) == [s[0]] + ReplaceFirst(s[1..], pat, rep)
  {
    assert |s| >= |pat| ==> s[..|pat|][0] == s[0];
  }

  lemma {:induction false} Uncons(a: string, x: string, b: string)
    requires |a| > 0
    ensures (a + x + b)[0] == a[0] && (a + x + b)[1..] == a[1..] + x + b
    ensures [a[0]] + (a[1..] + x + b) == a + x + b
  {
  }

  /** Text that cannot start the pattern before it is copied through, the
      first occurrence is replaced and the rest is copied unchanged. */
  lemma {:induction false} ReplaceFirstAfter(a: string, pat: string, b: string, rep: string)
    requires |pat| > 0
    requires forall k :: 0 <= k < |a| ==> a[k] != pat[0]
    ensures ReplaceFirst(a + pat + b, pat, rep) == a + rep + b
    decreases |a|
  {
    var s := a + pat + b;
    if |a| == 0 {
      assert s == pat + b;
      assert s[..|pat|] == pat;
      ReplaceHere(s, pat, rep);
      assert s[|pat|..] == b;
    } else {
      Uncons(a, pat, b);
      ReplaceSkip(s, pat, rep);
      ReplaceFirstAfter(a[1..], pat, b, rep);
      Uncons(a, rep, b);
    }
  }

  /** The built-in reminder personalised for a patient: the name goes in,
      and "{time}" is sent as written, since the dialog fills in no time. */
  lemma {:induction false} ReminderPersonalized(name: string)
    ensures Personalize(ReminderText, name)
            == "Hi " + name + ReminderTail
  {
    ReplaceFirstAfter("Hi ", NamePlaceholder, ReminderTail, name);
  }

  // ---------------------------------------------------------------------
  // The dialog's state

  /** The templates, the one selected and the message being edited. */
  datatype DialogState = DialogState(templates: seq<Template>, selected: Template, message: string)

  function HasTemplateId(id: Id): Template -> bool {
    (t: Template) => t.id == id
  }

  /** `handleTemplateChange`: select the first template with that id and
      put its personalised text in the message box. `None` when no template
      has the id (the handler throws on `selected.template`). */
  function SelectTemplate(s: DialogState, id: Id, patient: Option<Client>): (r: Option<DialogState>)
    ensures r.Some? <==> exists i :: 0 <= i < |s.templates| && s.templates[i].id == id
    ensures r.Some? ==> r.value.templates == s.templates && r.value.selected.id == id
                        && r.value.selected in s.templates
                        && r.value.message == Personalize(r.value.selected.template, PatientName(patient))
  {
    match Find(s.templates, HasTemplateId(id))
    case None => None
    case Some(t) =>
      var msg := if t.template != "" then ReplaceFirst(t.template, NamePlaceholder, PatientName(patient)) else "";
      Some(DialogState(s.templates, t, msg))
  }

  /** `handleSaveTemplate`: a blank name saves nothing; any other appends
      one template, not a built-in, holding the current message under the
      clock reading `now` as its id. */
  function SaveTemplate(s: DialogState, newName: string, now: Id): (r: DialogState)
    ensures IsBlank(newName) ==> r == s
    ensures !IsBlank(newName) ==>
      |r.templates| == |s.templates| + 1 && r.templates[..|s.templates|] == s.templates
      && var t := r.templates[|s.templates|];
         t.name == newName && t.template == s.message && !t.isDefault && t.id == now
    ensures r.selected == s.selected && r.message == s.message
  {
    if Trim(newName) == "" then s
    else s.(templates := s.templates + [Template(now, newName, s.message, false)])
  }

  /** The delete button is shown only next to templates that are not
      built-ins. */
  predicate DeleteOffered(t: Template) {
    !t.isDefault
  }

  /** `handleDeleteTemplate`, called from a listed template's button: once
      confirmed, every template with that id goes; if the selected template
      was deleted, the selection falls back to the first template of the
      list as it was before the delete, and the message to its
      personalised text. */
  function DeleteTemplate(s: DialogState, id: Id, confirmed: bool, patient: Option<Client>): (r: DialogState)
    requires |s.templates| > 0
    ensures !confirmed ==> r == s
    ensures confirmed ==> Subsequence(r.templates, s.templates)
    ensures confirmed ==> forall i :: 0 <= i < |r.templates| ==> r.templates[i].id != id
    ensures confirmed ==> forall i :: 0 <= i < |s.templates| && s.templates[i].id != id ==> s.templates[i] in r.templates
    ensures confirmed && s.selected.id == id ==>
      r.selected == s.templates[0] && r.message == Personalize(s.templates[0].template, PatientName(patient))
    ensures confirmed && s.selected.id != id ==> r.selected == s.selected && r.message == s.message
  {
    if !confirmed then s
    else
      var kept := Filter(s.templates, (t: Template) => t.id != id);
      FilterSubsequence(s.templates, (t: Template) => t.id != id);
      if s.selected.id == id then
        var first := s.templates[0];
        DialogState(kept, first, ReplaceFirst(first.template, NamePlaceholder, PatientName(patient)))
      else s.(templates := kept)
  }

  // ---------------------------------------------------------------------
  // The built-ins stay first

  /** The list starts with the two built-ins. */
  predicate DefaultsFirst(ts: seq<Template>) {
    |ts| >= 2 && ts[0] == DefaultTemplates[0] && ts[1] == DefaultTemplates[1]
  }

  /** Saving and deleting keep the built-ins at the head of the list, as
      long as the deleted id is not a built-in's (saved templates take clock
      readings as ids), so a selection reset by a delete always lands on a
      listed template. */
  lemma {:induction false} DefaultsStayFirst(s: DialogState, newName: string, now: Id, id: Id, confirmed: bool, patient: Option<Client>)
    requires DefaultsFirst(s.templates)
    requires id != DefaultTemplates[0].id && id != DefaultTemplates[1].id
    ensures DefaultsFirst(SaveTemplate(s, newName, now).templates)
    ensures DefaultsFirst(DeleteTemplate(s, id, confirmed, patient).templates)
    ensures confirmed && s.selected.id == id ==>
      DeleteTemplate(s, id, confirmed, patient).selected in DeleteTemplate(s, id, confirmed, patient).templates
  {
    var p := (t: Template) => t.id != id;
    var ts := s.templates;
    assert ts == [ts[0], ts[1]] + ts[2..];
    FilterAppend([ts[0], ts[1]], ts[2..], p);
    assert Filter([ts[0], ts[1]], p) == [ts[0]] + Filter([ts[1]], p);
    assert Filter([ts[1]], p) == [ts[1]] + Filter([ts[1]][1..], p);
    var r := SaveTemplate(s, newName, now);
    if !IsBlank(newName) {
      assert r.templates[..|ts|] == ts;
      assert r.templates[0] == ts[0] && r.templates[1] == ts[1];
    }
  }

  /** Selecting the first template and a delete that resets to it show
      the same message. */
  lemma {:induction false} DeleteResetIsSelect(s: DialogState, id: Id, patient: Option<Client>)
    requires |s.templates| > 0 && s.selected.id == id
    requires forall i :: 0 <= i < |s.templates| ==> s.templates[i].id == s.templates[0].id ==> i == 0
    ensures SelectTemplate(s, s.templates[0].id, patient).Some?
    ensures DeleteTemplate(s, id, true, patient).message
            == SelectTemplate(s, s.templates[0].id, patient).value.message
  {
    var r := SelectTemplate(s, s.templates[0].id, patient).value;
    var i :| 0 <= i < |s.templates| && s.templates[i] == r.selected;
    assert i == 0;
  }

  /** Send is enabled exactly when the message is not blank. */
  function SendEnabled(message: string): (ok: bool)
    ensures ok <==> exists i :: 0 <= i < |message| && !IsSpace(message[i])
  {
    Trim(message) != ""
  }
}
