# Clinic front end: scheduling, records, contacts and views

This project models the logic of a single-user clinic application. The
application is a React front end with no server; it keeps its clients,
appointments, waiting list and treatment catalogue in the browser's storage.
The model restates the rules embedded in its event handlers and render code
as total functions over immutable records and sequences, and proves what
those rules guarantee.

The model covers:

- **Scheduling**
  - the three copies of the working-hours rule;
  - reading and writing duration labels ("1 hour 30 minutes");
  - the end time a treatment's duration gives;
  - the time-slot validation with its half-open overlap test;
  - building an appointment from the calendar dialog and the quick-booking dialog.
- **Collections**
  - upserting, deleting and changing the status of appointments;
  - updating a client, with the rename cascading to the client's appointments;
  - adding to and removing from the waiting list;
  - restoring a backup;
  - saving and deleting catalogue treatments, pruning empty categories.
- **Contact formats**
  - the vCard text written for a client, and the reader of an export, which
    round-trips for clients without line breaks, colons in the phone or
    `BEGIN:VCARD` inside a field;
  - CSV import and export after the CSV library has parsed the text;
  - the two phone normalisers;
  - duplicate removal by phone or name.
- **Derived views**
  - today's appointments, the patient list, the CRM search and the searchable picker;
  - a patient's history, last visit and "next appointment";
  - the dashboard and the two analytics panels;
  - the follow-up suggestion;
  - the calls list;
  - the WhatsApp templates and the message dialog's template list.

Time is a count of minutes since a Sunday midnight in local time.
`Clock.Instant` is either a valid instant or the invalid date that
`new Date` yields for text it cannot read. Weekday, hour and minute follow
from the count by integer division. Every reading of the clock and every
fresh id (`Date.now()`, `Math.random()`) is a parameter. Strings are
sequences of characters; lower-casing and trimming act on ASCII only.
JavaScript's `parseInt` is `Text.ParseInt`: leading white space, an optional
sign, then the leading decimal digits. JavaScript also reads a `0x` prefix
as hexadecimal; the model does not (see Left out).

Modules follow the source files:

- `Clock`, `WorkingHours`, `Durations`, `TimeValidation`, `CalendarDialog`: `src/utils/dateUtils.js`, `src/components/Calendar/Calendar.js`, `src/hooks/useTimeValidation.js`, `src/components/Treatments/Treatments.js`
- `TreatmentCatalogue`: `src/data/treatments.js`, `src/components/Treatments/Treatments.js`
- `Records`, `Store`: `src/context/AppContext.js`, `src/App.js`
- `TodayView`, `AppointmentsHook`, `Dashboard`: `src/components/TodayAppointments/TodayAppointments.js`, `src/hooks/useAppointments.js`, `src/components/Dashboard/Dashboard.js`
- `PatientList`, `MessageDialog`, `PatientHistory`: `src/components/PatientList/`, `src/components/PatientDetails/`
- `Contacts`, `WhatsApp`, `FollowUp`: `src/utils/vcard.js`, `src/utils/importExport.js`, `src/components/CSVImport/CSVImport.js`, `src/utils/whatsapp.js`, `src/utils/followup.js`
- `Search`, `QuickBooking`: `src/hooks/useSearch.js`, `src/components/common/SearchableSelect.js`, `src/components/QuickAppointment/QuickAppointment.js`
- `Crm`, `Statistics`, `CallList`, `WaitingPage`: `src/components/CRM/`, `src/components/Dashboard/Analytics.js`, `src/components/CallList/CallList.js`, `src/components/WaitingList/WaitingListPage.js`
- `Wrappers`, `Lists`, `Sorting`, `Grouping`, `Text`: shared helpers: options and results, filtering and sums, a stable sort, grouping by key, string functions

## Model

| member | source | states |
|---|---|---|
| WhatsApp.InternationalNumber | src/utils/whatsapp.js:17-33 | a number is dialled exactly when the phone is present and has at least one digit; it is the phone's digits with a leading 0 replaced by 972, the digits unchanged when they already start with 972, and 972 followed by the digits otherwise |
| WhatsApp.InternationalIdempotent | src/utils/whatsapp.js:23-33 | normalising an already normalised number leaves it unchanged |
| WhatsApp.LocalAndInternationalAgree | src/utils/whatsapp.js:29-33 | "0" + n and "972" + n reach the same chat |
| WhatsApp.Send | src/utils/whatsapp.js:17-36 | the link is built exactly when the number normalises; it carries that number, and carries the text only when the message is non-empty |
| WhatsApp.AppointmentReminder | src/utils/whatsapp.js:4-5 | the reminder greets the patient by name and ends with today's reminder sentence carrying the time |
| WhatsApp.ConfirmationRequest | src/utils/whatsapp.js:6-7 | the confirmation request greets the patient by name and ends by asking to confirm the appointment at the time |
| WhatsApp.Greeting | src/utils/whatsapp.js:8-13 | a greeting naming the patient, ending with the template's fixed sentence |
| WhatsApp.Cancellation | src/utils/whatsapp.js:8-9 | the cancellation message greets the patient by name and ends by offering to reschedule |
| WhatsApp.GeneralMessage | src/utils/whatsapp.js:10-11 | the general message greets the patient by name and ends by asking how the clinic can help |
| WhatsApp.ScheduleRequest | src/utils/whatsapp.js:12-13 | the scheduling message greets the patient by name and ends by offering the next appointment |
| WhatsApp.GreetsAt | src/utils/whatsapp.js:3-14 | in every template the name sits at position 6, followed by the first "!" after it |
| WhatsApp.GreetingNamesPatient | src/utils/whatsapp.js:3-14 | a greeting identifies the patient: two names that both match one message are equal (when neither contains "!") |
| Clock.Weekday | src/hooks/useTimeValidation.js:7 | getDay() lies in 0..6 |
| Clock.Hour | src/hooks/useTimeValidation.js:8 | getHours() lies in 0..23 |
| Clock.Minute | src/hooks/useTimeValidation.js:9 | getMinutes() lies in 0..59 |
| Clock.FromParts | src/components/Calendar/Calendar.js:226-228 | building an instant from a day, an hour and a minute in range gives back that same day, hour and minute |
| Clock.Decompose | src/components/Calendar/Calendar.js:226-228 | every instant is rebuilt from its own day, hour and minute |
| Clock.WithTimeOf | src/components/Calendar/Calendar.js:226-228 | the result has the date's day and the picked time's hour and minute; it is invalid when either input is |
| Clock.AddMinutes | src/components/Calendar/Calendar.js:121-122 | the result lies exactly n minutes later; a NaN amount or an invalid start gives an invalid date |
| Clock.AddDays | src/utils/followup.js:8-9 | the result is n days later at the same hour and minute; a NaN amount or an invalid date gives an invalid date |
| WorkingHours.FractionalTime | src/components/Calendar/Calendar.js:91-94 | hours + minutes/60 lies between the hour and the next hour |
| WorkingHours.FractionalCompare | src/components/Calendar/Calendar.js:94-102 | comparing the fractional time with a whole hour is comparing the hour |
| WorkingHours.CalendarOpen | src/components/Calendar/Calendar.js:90-106 | the dialog accepts exactly the valid times of the timetable: Sunday to Thursday 17:00-21:00, Friday 9:00-19:00, never Saturday |
| WorkingHours.ValidateWorkingHours | src/hooks/useTimeValidation.js:6-35 | the hook gives the Saturday, Sunday-Thursday or Friday message for each kind of rejected time, and accepts exactly the timetable's times or an invalid date, with no error |
| WorkingHours.HookAgreesWithDialog | src/hooks/useTimeValidation.js:6-35 | the hook and the dialog agree on every valid date; only an invalid date separates them |
| WorkingHours.UtilityOpen | src/utils/dateUtils.js:17-33 | the utility accepts exactly the timetable with Sunday-Thursday opening at 16:00 |
| WorkingHours.UtilityWidensDialog | src/utils/dateUtils.js:17-33 | the utility accepts everything the dialog accepts; they differ exactly on 16:00-16:59, Sunday to Thursday |
| WorkingHours.UtilityIgnoresMinutes | src/utils/dateUtils.js:18 | the utility's verdict depends on the hour only |
| CalendarDialog.FindNamed | src/components/Calendar/Calendar.js:110 | the lookup finds the first treatment with the name |
| CalendarDialog.EndTime | src/components/Calendar/Calendar.js:109-124 | corrected: the start when no treatment has the name, otherwise the start plus the full minutes of the first such treatment's label |
| CalendarDialog.EndTimeAsWritten | src/components/Calendar/Calendar.js:109-124 | as written: the start plus the label's minutes as the dialog reads them, so only the hours of a compound label count |
| Durations.EditorLabelReadings | src/components/Calendar/Calendar.js:113-118 | the label the treatment editor writes for h hours and m minutes reads as 60h + m minutes in full, and as 60h minutes (or m when there are no hours) the way the calendar dialog reads it |
| CalendarDialog.EndTimeOfReadings | src/components/Calendar/Calendar.js:113-122 | once the first named treatment's label reads as some number of minutes, the end time is the start moved on by exactly that many, on either reading |
| CalendarDialog.NumberlessLabelEnd | src/components/Calendar/Calendar.js:113-122 | a label with no leading number ("Varies") gives an invalid end time on both readings |
| CalendarDialog.TreatmentChange | src/components/Calendar/Calendar.js:194-204 | corrected: choosing a treatment sets it and moves the end by the first such treatment's label read in full (`LabelMinutes`); an unknown name leaves the end at the start; start and notes are kept |
| CalendarDialog.StartTimeChange | src/components/Calendar/Calendar.js:223-242 | corrected: a cleared picker changes nothing; otherwise the start takes the picked clock time on its own date, and the end is the corrected end time of the treatment, or the start when none is chosen |
| CalendarDialog.TreatmentChangeAsWritten | src/components/Calendar/Calendar.js:194-204 | as written: choosing a treatment sets it and moves the end by `calculateEndTime`'s reading of the label (hours only when it says "hour"); an unknown name leaves the end at the start |
| CalendarDialog.StartTimeChangeAsWritten | src/components/Calendar/Calendar.js:223-242 | as written: a cleared picker changes nothing; otherwise the new start on the same date, and the end from `calculateEndTime`, or the start when no treatment is chosen |
| CalendarDialog.HandlersAgreeOnPlainLabels | src/components/Calendar/Calendar.js:113-118 | both handlers as written equal their corrected forms whenever the treatment concerned is unknown or its label reads the same both ways (every label without "hour") |
| CalendarDialog.HandlersOnCompoundLabel | src/components/Calendar/Calendar.js:196 | choosing a "1 hour 30 minutes" treatment puts the end 90 minutes after the start in the corrected handler and 60 minutes after it as written |
| CalendarDialog.TreatmentChangeFollowsReadings | src/components/Calendar/Calendar.js:196 | choosing a treatment puts the end the label's full reading after the start when corrected, and the dialog's reading after it as written |
| CalendarDialog.Submit | src/components/Calendar/Calendar.js:126-159 | nothing happens without search text, treatment or client; the working-hours alert comes before the invalid-date alert; a saved record carries the form's times, treatment and notes, the client's id and name, the edited id or the fresh one, and the edited status or "scheduled" |
| CalendarDialog.EndNotChecked | src/components/Calendar/Calendar.js:126-131 | an appointment that ends after closing time is still saved: only the start is checked |
| CalendarDialog.DayAppointments | src/components/Calendar/Calendar.js:469-479 | the day view lists exactly the non-cancelled appointments on that day, as a permutation sorted by start |
| CalendarDialog.MultisetMembers | src/components/Calendar/Calendar.js:469-479 | sorting keeps every appointment, so membership is the same before and after |
| CalendarDialog.DayAppointmentsStable | src/components/Calendar/Calendar.js:478 | appointments starting at the same minute keep their stored order (the sort is stable) |
| Durations.CalendarMinutes | src/components/Calendar/Calendar.js:113-118 | as written: NaN exactly when the label has no leading number; a label without "hour" is read as its leading number |
| Durations.LabelMinutes | src/components/Calendar/Calendar.js:113-118 | corrected: agrees with the dialog on labels without "hour", NaN in the same cases, and a compound label counts its minutes too |
| Durations.MinutesCapture | src/components/Treatments/Treatments.js:49 | the capture of `/(\d+) minutes/` is a non-empty digit run that the label contains followed by " minutes" |
| Durations.EditHours | src/components/Treatments/Treatments.js:48 | the editor's hours are the label's leading number when it mentions "hour", otherwise 0 |
| Durations.EditMinutes | src/components/Treatments/Treatments.js:49 | the editor's minutes are the captured number, or 0 when nothing is captured |
| Durations.CaptureMentionsMinutes | src/components/Treatments/Treatments.js:49 | a captured number implies the label mentions "minutes", so the `includes` test is redundant |
| Durations.FormatDuration | src/components/Treatments/Treatments.js:70-79 | the saved label is never empty |
| Durations.SubmitLabel | src/components/Treatments/Treatments.js:67-79 | the label saved from the two fields, NaN read as 0, is never empty, and is "0 minutes" when neither count is positive |
| Durations.SubmitLabelReopens | src/components/Treatments/Treatments.js:67-79 | for counts the fields can hold (none negative), the saved label reopens in the editor with the same hours and minutes |
| Durations.SubmitLabelMinutes | src/components/Treatments/Treatments.js:67-79 | for counts the fields can hold, the saved label reads as 60 times the hours plus the minutes |
| Durations.AcceptedFieldCount | src/components/Treatments/Treatments.js:125-148 | a value the hours field accepts is read as a count of at least 0; one the minutes field accepts is at most 59 |
| Durations.EditRoundTrip | src/components/Treatments/Treatments.js:47-79 | opening a saved label in the editor gives back the hours and minutes it was written from, and the label mentions "hour" exactly when the hours are positive |
| Durations.LabelMinutesRoundTrip | src/components/Treatments/Treatments.js:70-79 | the corrected reading of a saved label is 60h + m |
| Durations.LabelMinutesOfParts | src/components/Treatments/Treatments.js:47-49 | the corrected reading of a label with "hour" is 60 times the editor's hours plus the editor's minutes |
| Durations.EditSaveIdempotent | src/components/Treatments/Treatments.js:47-79 | opening a saved label and saving it unchanged writes the same label |
| Durations.CompoundLabelLosesMinutes | src/components/Calendar/Calendar.js:113-118 | the finding: the editor's "1 hour 30 minutes" is read by the dialog as 60 minutes; the corrected reading gives 90 |
| Durations.CalendarMinutesOfHours | src/components/Calendar/Calendar.js:114-115 | the dialog reads a label with "hour" as 60 times the editor's hours |
| Durations.RangeLabelResaved | src/components/Treatments/Treatments.js:47-79 | the default "20-30 minutes" opens as 0 hours and 30 minutes and is saved back as "30 minutes" |
| Durations.RangeCapture | src/components/Treatments/Treatments.js:49 | a range label "a-b minutes" opens in the editor with b minutes |
| Durations.CalendarReadsLabel | src/components/Calendar/Calendar.js:113-118 | the dialog reads an editor label as its hours alone when it has any, otherwise as its minutes |
| Durations.CalendarReadsRange | src/components/Calendar/Calendar.js:117 | the dialog reads a range label as its lower bound |
| Durations.VariesIsNaN | src/data/treatments.js:109 | the default label "Varies" has no number, so it reads as NaN |
| TreatmentCatalogue.Flatten | src/data/treatments.js:137 | the flat list holds exactly the treatments of all categories, one entry per item |
| TreatmentCatalogue.FlattenAppend | src/data/treatments.js:137 | flattening distributes over joining catalogues |
| TreatmentCatalogue.DefaultsShape | src/data/treatments.js:1-130 | the default catalogue has three categories of five, three and two treatments, ten in all |
| TreatmentCatalogue.AllTreatments | src/data/treatments.js:133-140 | the pickers list the stored catalogue's items, category by category, when one is stored; otherwise the ten defaults: the basic, then the major, then the special treatments |
| TreatmentCatalogue.Initialize | src/data/treatments.js:142-146 | afterwards a catalogue is always stored, and an existing one is never replaced |
| TreatmentCatalogue.InitializeIdempotent | src/data/treatments.js:142-146 | initialising twice is initialising once, and it never changes what the pickers list |
| TreatmentCatalogue.OpenEditor | src/components/Treatments/Treatments.js:45-56 | the editor opens with the treatment's name and price and the hours read from its label |
| TreatmentCatalogue.Apply | src/components/Treatments/Treatments.js:270 | the edited item keeps its id and gets a non-empty label |
| TreatmentCatalogue.ApplyToItems | src/components/Treatments/Treatments.js:269-271 | only the item with the edited id changes |
| TreatmentCatalogue.SaveEdit | src/components/Treatments/Treatments.js:266-275 | the categories and their sizes stay; every item with another id is unchanged; a form without name or price changes nothing |
| TreatmentCatalogue.SaveEditIdsAndRepeat | src/components/Treatments/Treatments.js:266-275 | an edit keeps every item's id in place, and repeating it changes nothing more |
| TreatmentCatalogue.SaveNew | src/components/Treatments/Treatments.js:276-284 | a new treatment with the fresh id goes to the end of the first category; the other categories are untouched |
| TreatmentCatalogue.SaveNewFlatten | src/components/Treatments/Treatments.js:276-284 | the pickers' list gains exactly the new treatment, at the end of the first category's run |
| TreatmentCatalogue.Delete | src/components/Treatments/Treatments.js:298-304 | no category is left empty, and there are no more categories than before |
| TreatmentCatalogue.DeleteFlatten | src/components/Treatments/Treatments.js:298-304 | the pickers' list becomes the old list without the deleted id, in the old order |
| TreatmentCatalogue.DeleteAbsent | src/components/Treatments/Treatments.js:298-304 | deleting an absent id from a catalogue without empty categories changes nothing |
| TimeValidation.TableEnd | src/hooks/useTimeValidation.js:46-48 | an appointment's end is its start plus the table's duration; it is invalid when the date is invalid or the treatment has no entry |
| TimeValidation.ValidateTimeSlot | src/hooks/useTimeValidation.js:37-59 | corrected (with a duration table supplied): the working-hours verdict when it fails; otherwise accepted exactly when no non-cancelled appointment overlaps the half-open slot, with the overlap message when one does |
| TimeValidation.CancelledNeverConflict | src/hooks/useTimeValidation.js:44 | a cancelled appointment never blocks a slot |
| TimeValidation.OverlapHalfOpen | src/hooks/useTimeValidation.js:50 | the overlap test is the half-open interval test; it is symmetric, and intervals that only touch do not overlap |
| TimeValidation.BackToBack | src/hooks/useTimeValidation.js:42-50 | a slot ending exactly when an appointment starts, or starting exactly when it ends, is accepted |
| TimeValidation.UnknownTreatmentNeverConflicts | src/hooks/useTimeValidation.js:46-50 | an appointment whose treatment has no duration entry never conflicts |
| TimeValidation.ValidateTimeSlotAsWritten | src/hooks/useTimeValidation.js:37-59 | as written: the working-hours verdict when it fails; otherwise a ReferenceError exactly when some appointment is not cancelled; so it accepts only when every appointment is cancelled |
| TimeValidation.UndefinedTableThrows | src/hooks/useTimeValidation.js:47-48 | the finding: a valid Sunday 18:00 slot with one scheduled appointment on another day throws as written, while the corrected check accepts it |
| Records.OrEmpty | src/utils/vcard.js:7-8 | `x \|\| ''` is non-empty exactly when x is present, and is then x |
| Contacts.BodyLines | src/utils/vcard.js:4-9 | the card body has exactly six lines |
| Contacts.GenerateVCard | src/utils/vcard.js:1-10 | for a client without line breaks, splitting the card at line breaks gives back its seven lines, the first being `BEGIN:VCARD` |
| Contacts.Cards | src/utils/importExport.js:84-93 | one card per client |
| Contacts.ReadLine | src/utils/importExport.js:7-12 | one line sets every field whose prefix starts it, and leaves the other fields as they were |
| Contacts.ReadLines | src/utils/importExport.js:7-12 | a field no line starts stays as it was; otherwise it takes the value of the last line that starts with its prefix |
| Contacts.ParseVCard | src/utils/importExport.js:3-15 | parsing a text sets each field from the last line with its prefix, and leaves fields without such a line absent |
| Contacts.NoFieldsYet | src/utils/importExport.js:5 | parsing starts with every field absent |
| Contacts.CardClient | src/utils/importExport.js:53-57 | an imported card becomes a client with the fresh id, status active, and the parsed name, phone, email and notes |
| Contacts.ImportChunks | src/utils/importExport.js:48-59 | at most one client per non-blank chunk, each with the next fresh id and status active |
| Contacts.ImportChunksAccepted | src/utils/importExport.js:48-59 | the clients are exactly the accepted chunks (not blank, with a name and a phone), one each, in chunk order: the `i`-th client is the `i`-th accepted chunk's name, phone, email and notes with the `i`-th fresh id and status active |
| Contacts.VCardImport | src/utils/importExport.js:42-62 | one client per accepted piece of the file split at `BEGIN:VCARD`, in file order, each carrying the name, phone, email and notes read from its piece, a fresh id and status active; never more than the non-blank pieces |
| Contacts.CardAfterBegin | src/utils/importExport.js:84-94 | a card is `BEGIN:VCARD` followed by its chunk; inside the export a chunk also carries the joining line break |
| Contacts.ExportUnfold | src/utils/importExport.js:83-94 | the export of a non-empty list starts with `BEGIN:VCARD` |
| Contacts.SplitExport | src/utils/importExport.js:83-94 | splitting the export at `BEGIN:VCARD` gives an empty first piece, then one chunk per client |
| Contacts.SplitExportRest | src/utils/importExport.js:83-94 | after the first `BEGIN:VCARD`, the split gives one chunk per client |
| Contacts.ChunkPrefixes | src/utils/importExport.js:8-11 | in a chunk each line starts with exactly the prefix of the field it was written for |
| Contacts.PhoneLineValue | src/utils/importExport.js:9 | the phone line's `split(':')[1]` is the phone when the phone has no colon |
| Contacts.ChunkParse | src/utils/importExport.js:3-15 | reading a chunk recovers the client's name, phone, email and notes, a missing email or note as "" |
| Contacts.ChunkNotBlank | src/utils/importExport.js:49 | no chunk of the export is skipped as blank |
| Contacts.ImportChunksOfExport | src/utils/importExport.js:48-59 | the chunks of exportable clients import as exactly those clients, in order |
| Contacts.VCardRoundTrip | src/utils/importExport.js:42-94 | importing the vCard export gives back every exportable client in order: name, phone, email and notes, status active, fresh ids |
| Contacts.CsvClient | src/utils/importExport.js:23-30 | a valid record becomes a client with the fresh id, status active, its name and phone, and email and notes defaulting to "" |
| Contacts.CsvImport | src/utils/importExport.js:17-40 | one client per record with a name and a phone, in record order: the `i`-th client carries the `i`-th such record's name and phone, its email and notes or the empty string for a missing one, the `i`-th fresh id and status active |
| Contacts.CsvExport | src/utils/importExport.js:64-70 | one record per client, in order, with its name, phone, and email and notes defaulting to "" |
| Contacts.CsvRoundTrip | src/utils/importExport.js:17-70 | importing the CSV export gives back every client with a name and a phone, in order, with its email and notes |
| Contacts.RowClient | src/components/CSVImport/CSVImport.js:27-37 | a row becomes an active client with the trimmed, non-empty name and phone, empty email, notes and birth date, no history, created now |
| Contacts.RowClients | src/components/CSVImport/CSVImport.js:24-37 | one client per accepted row, in order |
| Contacts.ImportRows | src/components/CSVImport/CSVImport.js:19-46 | the header row is skipped; the outcome is the "no valid patients" error exactly when no later row has a non-blank name and phone; otherwise one client per such row |
| Contacts.HeaderIgnored | src/components/CSVImport/CSVImport.js:23 | whatever the first row holds, the import is the same |
| Contacts.NamePhoneRows | src/components/CSVImport/CSVImport.js:24-30 | the table of some clients has one row per client: its name and phone |
| Contacts.TrimmedRow | src/components/CSVImport/CSVImport.js:25-30 | the row of a trimmed name and phone is accepted and read back unchanged |
| Contacts.RowsRoundTrip | src/components/CSVImport/CSVImport.js:19-46 | below any header, the name-and-phone table of trimmed, non-empty clients imports as those names and phones, in order |
| Store.InitialLoad | src/context/AppContext.js:14-24 | each collection starts as stored, or empty when nothing is stored |
| Store.MapMatching | src/context/AppContext.js:51-53 | the records with the id are transformed; every other record and the order are kept |
| Store.Upsert | src/App.js:31-47 | a record with a new id is appended; one with a known id replaces every record with that id, in place; every other record is kept, and the saved record is present afterwards |
| Store.UpsertIdempotent | src/App.js:31-47 | saving the same record twice is saving it once |
| Store.UpsertKeepsIdsUnique | src/App.js:31-47 | when ids were unique they stay unique after a save |
| Store.SetStatus | src/App.js:53-75 | the appointments with the id get the status; the others are unchanged |
| Store.CheckIn | src/App.js:53-59 | the appointment with the id is checked in; the others are unchanged |
| Store.Cancel | src/App.js:61-67 | the appointment with the id is cancelled; the others are unchanged |
| Store.Restore | src/App.js:69-75 | the appointment with the id is scheduled again; the others are unchanged |
| Store.RestoreUndoes | src/App.js:53-75 | restoring undoes a check-in or a cancellation of a scheduled appointment |
| Store.LastStatusWins | src/App.js:53-75 | two status changes in a row leave the second one |
| Store.UpdatePatient | src/App.js:77-88 | the appointment with the edit's id takes its name, phone, email and notes, missing ones included, and nothing else changes |
| Store.UpdatePatientIdempotent | src/App.js:77-88 | applying the same patient edit twice is applying it once, and an edit keeps every appointment's id, date, end, treatment and status |
| Store.Merge | src/context/AppContext.js:52 | the spread keeps the id, takes each field the update carries and keeps the others |
| Store.MergeLaws | src/context/AppContext.js:52 | an empty update changes nothing, and applying an update twice is applying it once |
| Store.UpdateAppointment | src/context/AppContext.js:50-54 | ids and order are kept; the appointment with the id is merged with the update; the others are unchanged |
| Store.DeleteAppointment | src/context/AppContext.js:110-116 | exactly the appointments with other ids remain; deleting an absent id changes nothing |
| Store.DeleteAppointmentAppend | src/context/AppContext.js:56-58 | deleting from a concatenation deletes from each part, so the survivors keep their order |
| Store.AddClient | src/App.js:136 | the client is appended; appointments and waiting list are untouched |
| Store.DeleteUndoesAdd | src/App.js:136-144 | deleting the id of a client just added, when no other client carries it, gives back the state before the addition |
| Store.DeleteClient | src/App.js:138-144 | null clears all clients; an id removes exactly the clients with that id; nothing else changes |
| Store.ReplaceClients | src/App.js:137 | the given list becomes the client list; nothing else changes |
| Store.ReplaceClientsLaws | src/App.js:137 | replacing the clients with the ones held changes nothing, and of two replacements only the last counts |
| Store.MergeClient | src/context/AppContext.js:62 | the client keeps its id, history and total, and takes the new name only when the update has one |
| Store.UpdateClientRecords | src/context/AppContext.js:61-63 | only the clients with the id are merged with the update |
| Store.CascadeAsWritten | src/context/AppContext.js:65-69 | as written: every appointment of the client takes the update's name, absent when the update has none |
| Store.Cascade | src/context/AppContext.js:65-69 | corrected: the client's appointments take the new name only when the update renames; otherwise nothing changes |
| Store.UpdateClient | src/context/AppContext.js:60-70 | the clients are updated and the appointments cascade (corrected); the waiting list is untouched |
| Store.CascadeAgreesWithClient | src/context/AppContext.js:60-70 | after a rename, the client's appointments carry the client's new name; after any update they carry their old name or the client's current one |
| Store.PhoneUpdateErasesNames | src/context/AppContext.js:65-69 | the finding: a phone-only update erases the name of every appointment of the client as written, and keeps it when corrected |
| Store.RemoveWaiting | src/App.js:99-101 | exactly the entries with other ids remain; removing an absent id changes nothing |
| Store.RemoveWaitingIdempotent | src/App.js:99-101 | removing twice is removing once |
| Store.AddToWaitingList | src/context/AppContext.js:72-86 | the list grows by one entry at the end: the entry itself when it has an id, otherwise a new entry with the fresh id and the time of addition |
| Store.AddThenRemove | src/context/AppContext.js:72-86 | an entry added with a fresh non-zero id is removed again by that id, giving back the old list |
| Store.RestoreData | src/context/AppContext.js:98-108 | a backup that was read replaces all three collections; a failed read changes nothing |
| Store.RestoreForgets | src/context/AppContext.js:98-108 | the state before a restore does not matter: the last restore wins |
| TodayView.TodaysAppointments | src/components/TodayAppointments/TodayAppointments.js:34-41 | exactly the appointments whose date prints as the reference day's, cancelled ones included, sorted by start, one entry per match |
| TodayView.DayViewDropsOnlyCancelled | src/components/TodayAppointments/TodayAppointments.js:34-41 | for a valid day, the calendar's day view holds an appointment exactly when the today list holds it and it is not cancelled |
| TodayView.Offered | src/components/TodayAppointments/TodayAppointments.js:257-289 | check-in and cancel are offered exactly for scheduled appointments, restore exactly for cancelled or checked-in ones |
| TodayView.OfferedStates | src/components/TodayAppointments/TodayAppointments.js:257-289 | an unknown status offers nothing; each action leads from "scheduled" to a state that offers restore |
| TodayView.ClientPhone | src/components/TodayAppointments/TodayAppointments.js:66-72 | "" when no client's trimmed name matches; otherwise the phone of a client whose trimmed name matches, and it is the phone of the first such client in the list |
| TodayView.StatusMessage | src/components/TodayAppointments/TodayAppointments.js:85-94 | every message opens "Hi <name>, "; a scheduled appointment gets the reminder ending with its time, a cancelled one the cancellation notice, any other status the thanks |
| TodayView.StatusMessageTellsKind | src/components/TodayAppointments/TodayAppointments.js:85-94 | to the same client, statuses that fall in different cases of the switch never give the same message, whatever the times |
| TodayView.MessageLength | src/components/TodayAppointments/TodayAppointments.js:85-94 | the reminder, the cancellation and the thanks are 55 + the time's length, 41 and 39 characters longer than the name |
| TodayView.WhatsAppLink | src/components/TodayAppointments/TodayAppointments.js:74-103 | no link without a client name or a client phone; otherwise the link carries the phone's digits (no country code) and exactly the status message for the appointment's status, name and time |
| TodayView.Rendered | src/components/TodayAppointments/TodayAppointments.js:114-122 | exactly the appointments with a readable start are shown |
| TodayView.AllRenderedOnValidDay | src/components/TodayAppointments/TodayAppointments.js:114-122 | for a valid reference day every appointment of the day is shown |
| AppointmentsHook.DayAppointments | src/hooks/useAppointments.js:8-13 | the selected day's appointments in stored order: a subsequence of the store holding every appointment that prints as that day |
| AppointmentsHook.DayAppointmentsUnsorted | src/hooks/useAppointments.js:8-13 | the hook's list is the today page's list before sorting: the same multiset |
| AppointmentsHook.AddAppointment | src/hooks/useAppointments.js:15-18 | the record is always appended, with the fresh id and otherwise unchanged |
| AppointmentsHook.AddNeverUpdates | src/hooks/useAppointments.js:15-18 | adding a record whose id is already stored still grows the list, where the app's save would update in place |
| AppointmentsHook.AddThenDelete | src/hooks/useAppointments.js:15-30 | an appointment added with a fresh id is removed again by deleting that id |
| PatientList.FilteredClients | src/components/PatientList/PatientList.js:39-46 | every client for an empty term; otherwise exactly the clients whose lower-cased name contains the lower-cased term or whose phone contains the term, in list order |
| PatientList.SearchIdempotent | src/components/PatientList/PatientList.js:39-46 | searching the results again for the same term changes nothing |
| PatientList.SearchFindsName | src/components/PatientList/PatientList.js:41-43 | a client whose name contains the term in any letter case is found |
| PatientList.Slice | src/components/PatientList/PatientList.js:50-59 | `slice` with clamped bounds is the plain slice when the bounds are in range |
| PatientList.FirstPage | src/components/PatientList/PatientList.js:49-52 | a new result shows its first twenty clients (all when fewer), and offers more exactly when some are hidden |
| PatientList.LoadMore | src/components/PatientList/PatientList.js:54-62 | loading keeps what is shown and adds at most twenty more |
| PatientList.PagingShowsPrefix | src/components/PatientList/PatientList.js:49-62 | after k loads the first 20(k + 1) results are shown in order, and more are offered exactly when some are hidden |
| PatientList.OpenEditor | src/components/PatientList/PatientList.js:65-73 | the form opens with the patient's name, phone and email, a missing note read as "" |
| PatientList.Edited | src/components/PatientList/PatientList.js:78 | the edited patient takes the form's four fields and keeps its id, status, creation time, birth date, history and total |
| PatientList.OpenThenSaveUnchanged | src/components/PatientList/PatientList.js:65-78 | saving the form unchanged leaves a patient with notes as it was |
| PatientList.NewPatient | src/components/PatientList/PatientList.js:81-85 | a new patient has the fresh id, status active, the form's fields, no creation time and no history |
| PatientList.SubmitPatientAsWritten | src/components/PatientList/PatientList.js:75-89 | as written: an edit hands the single edited patient to the store's setter, which makes it the whole collection; an addition appends the new patient |
| PatientList.SubmitPatient | src/components/PatientList/PatientList.js:75-89 | corrected: an edit replaces only the patients with the edited id; an addition appends the new patient |
| PatientList.SubmitUnchangedEdit | src/components/PatientList/PatientList.js:65-89 | with distinct ids, saving a patient's editor unchanged leaves the list as it was |
| PatientList.EditDropsOtherPatients | src/components/PatientList/PatientList.js:77-79 | the finding: editing one of two patients leaves a single patient as written, and both patients when corrected |
| PatientList.SendLink | src/components/PatientList/PatientList.js:96-103 | a link exists exactly when the selected patient has a phone, and it carries the phone's digits |
| PatientList.ConfirmDelete | src/components/PatientList/PatientList.js:199-204 | a confirmed delete removes exactly the patients with the id; a declined one, or an unknown id, changes nothing |
| PatientList.NormalizePhone | src/components/PatientList/PatientList.js:135-139 | the result is the phone's digits in order with everything else removed: all digits, no longer than the phone, and exactly the phone's filter by `IsDigit` |
| PatientList.NormalizeIdempotent | src/components/PatientList/PatientList.js:135-139 | normalising twice is normalising once |
| PatientList.SamePhoneDigits | src/components/PatientList/PatientList.js:146-153 | two clients whose phones carry the same non-empty digits share a group |
| PatientList.DuplicateCountIs | src/components/PatientList/PatientList.js:169 | the reported count is the number of clients beyond one per key |
| PatientList.DuplicateGroupsIff | src/components/PatientList/PatientList.js:156-161 | some group has a duplicate exactly when the count is positive, and the count is 0 exactly when no two clients share a key |
| PatientList.MostRecent | src/components/PatientList/PatientList.js:183-188 | a non-empty group's pick is one of its members with the greatest creation time; an empty group has none |
| PatientList.RemoveDuplicates | src/components/PatientList/PatientList.js:141-197 | "no duplicates" exactly when no two clients share a key; otherwise the count is the clients beyond one per key; declined exactly when the user says no; a replacement keeps, in order, exactly the clients alone under their key or carrying their group's pick's id |
| PatientList.KeepsInGroup | src/components/PatientList/PatientList.js:179-190 | within a group of more than one, a client is kept exactly when it has the pick's id |
| PatientList.KeptOncePerKey | src/components/PatientList/PatientList.js:174-191 | with distinct ids exactly one client of each key survives |
| PatientList.KeptSize | src/components/PatientList/PatientList.js:174-191 | with distinct ids one client per key is kept |
| PatientList.RemovedCount | src/components/PatientList/PatientList.js:169-195 | with distinct ids the new list is shorter by exactly the reported count |
| MessageDialog.InitialTemplates | src/components/PatientList/MessageDialog.js:21-40 | the stored list when there is one; otherwise the two built-ins with distinct ids |
| MessageDialog.ReplaceFirst | src/components/PatientList/MessageDialog.js:54 | a string pattern that does not occur leaves the text as it is; otherwise only its first occurrence is replaced |
| MessageDialog.FirstShifts | src/components/PatientList/MessageDialog.js:54 | a leading character that does not start the pattern shifts the first occurrence by one |
| MessageDialog.ReplaceFirstAfter | src/components/PatientList/MessageDialog.js:54 | text before the pattern that cannot start it is copied through, and the rest after the first occurrence too |
| MessageDialog.Personalize | src/components/PatientList/MessageDialog.js:53-58 | an empty template gives an empty message; otherwise the first "{name}" becomes the patient's name, and a text without it is kept |
| MessageDialog.ReminderPersonalized | src/components/PatientList/MessageDialog.js:25-54 | the built-in reminder gets the name and keeps "{time}" literally |
| MessageDialog.SelectTemplate | src/components/PatientList/MessageDialog.js:50-59 | selecting succeeds exactly when a template has the id; the list is kept and the selection has that id |
| MessageDialog.SaveTemplate | src/components/PatientList/MessageDialog.js:61-74 | a blank name saves nothing; otherwise exactly one non-built-in template holding the current message, with the clock's id, is appended; selection and message are kept |
| MessageDialog.DeleteTemplate | src/components/PatientList/MessageDialog.js:76-84 | a declined delete changes nothing; a confirmed one removes exactly the templates with the id, in order, and resets a deleted selection to the old first template and its personalised text |
| MessageDialog.DefaultsStayFirst | src/components/PatientList/MessageDialog.js:61-84 | saving and deleting (of a non-built-in id) keep the two built-ins at the head, so a reset selection is always listed |
| MessageDialog.DeleteResetIsSelect | src/components/PatientList/MessageDialog.js:50-84 | a delete that resets the selection shows the same message as selecting the first template |
| MessageDialog.SendEnabled | src/components/PatientList/MessageDialog.js:179 | send is enabled exactly when the message has a non-space character |
| Search.UseSearch | src/hooks/useSearch.js:1-12 | corrected, with `useMemo` in scope: the items unchanged for an empty term; otherwise exactly the items, in order, of which some listed field, lower-cased, contains the lower-cased term |
| Search.UseSearchAsWritten | src/hooks/useSearch.js:1-2 | as written: every call throws a `ReferenceError`, since `useMemo` is never imported, so no list is ever returned |
| Search.UndefinedMemoThrows | src/hooks/useSearch.js:1-3 | even the empty term, meant to return the items unchanged, throws as written; the corrected hook returns the items |
| Search.UseSearchMatchesPatientSearch | src/hooks/useSearch.js:1-12 | with the default fields, the corrected hook finds the clients the patient list finds, for a lower-case term and phone |
| Search.MissingFieldNeverMatches | src/hooks/useSearch.js:8 | in the corrected hook a field the item lacks never matches, whatever the term |
| Search.Suggestions | src/components/QuickAppointment/QuickAppointment.js:24-47 | none for an empty input; at most 50 matching clients; all of them when at most 50 match |
| Search.SuggestionsArePatientSearch | src/components/QuickAppointment/QuickAppointment.js:37-47 | for a non-empty input the suggestions are the first 50 results of the patient list's search |
| Search.FilteredOptions | src/components/common/SearchableSelect.js:49-59 | the first 50 options for an empty term; otherwise at most 50 matching options, all of them when at most 50 match |
| Search.PickerAgreesWithSuggestions | src/components/common/SearchableSelect.js:25-59 | with the default label (the name) the picker shows what the quick-appointment suggestions show |
| Search.SelectOption | src/components/common/SearchableSelect.js:66-70 | the option becomes the value, its label becomes the term, and it matches that term |
| Search.Clear | src/components/common/SearchableSelect.js:77-80 | no term and no value are left |
| Search.SelectThenClear | src/components/common/SearchableSelect.js:49-80 | clearing after a selection lists the first 50 options; a selected option with a non-empty label is listed again under that label whenever at most 50 options match it |
| QuickBooking.Treatments | src/components/QuickAppointment/QuickAppointment.js:50-60 | the dialog offers the same treatments as the shared lookup: the stored catalogue's, or the ten defaults |
| QuickBooking.Submit | src/components/QuickAppointment/QuickAppointment.js:76-91 | a record exactly when the date and time can be read: fresh id, status scheduled, the chosen date at the chosen time, the picked client's name or else the typed text |
| QuickBooking.SavesOutsideWorkingHours | src/components/QuickAppointment/QuickAppointment.js:76-91 | nothing checks the working hours: a Saturday noon booking is saved |
| QuickBooking.IgnoresWorkingHours | src/components/QuickAppointment/QuickAppointment.js:76-91 | every readable date and time is booked at that date and time, including every start the calendar dialog rejects as outside working hours |
| PatientHistory.History | src/components/PatientDetails/PatientDetailsModal.js:22-25 | exactly the appointments booked under the patient's name, as a reordering of them, newest first |
| PatientHistory.LastVisit | src/components/PatientDetails/PatientDetailsModal.js:27-28 | none exactly when the patient has no completed appointment; otherwise a completed appointment of the patient no older than any other |
| PatientHistory.TotalVisits | src/components/PatientDetails/PatientDetailsModal.js:122 | the number of the patient's completed appointments, positive exactly when there is a last visit |
| PatientHistory.NextAppointmentAsWritten | src/components/PatientDetails/PatientDetailsModal.js:138-143 | as written: present exactly when the patient has a scheduled appointment after now, and then the latest such appointment, since the history is newest first |
| PatientHistory.NextAppointment | src/components/PatientDetails/PatientDetailsModal.js:138-143 | as intended: present under the same condition, and then the soonest scheduled appointment after now |
| PatientHistory.NextIsLatest | src/components/PatientDetails/PatientDetailsPage.js:93-98 | with two upcoming appointments the page as written never shows the sooner one, and the intended reading never shows the later one |
| PatientHistory.NextAgreesWhenAlone | src/components/PatientDetails/PatientDetailsPage.js:93-98 | when the patient has at most one upcoming appointment the two readings agree |
| PatientHistory.MessagePatient | src/components/PatientDetails/PatientDetailsModal.js:30-33 | a request exactly when the phone has digits to dial, to the patient's international number, carrying the general-message template for the patient's name |
| PatientHistory.OpenChat | src/components/PatientDetails/PatientDetailsModal.js:35-37 | a request exactly when the phone has digits to dial, to the patient's international number, with no text |
| Crm.AddNewClient | src/components/CRM/CRM.js:12-22 | the list gains exactly one client at the end, carrying the form's name, phone, e-mail and birth date, the fresh id, an empty history, nothing spent and status active; the clients before it are untouched |
| Crm.TypedNotesDiscarded | src/components/CRM/CRM.js:15-19 | notes typed into the new-client form never reach the stored client, because the fixed fields override the form's |
| Crm.Merge | src/components/CRM/CRM.js:26 | a history update replaces the history and the total and leaves every other field as it was; a whole edited client replaces the client |
| Crm.UpdateClient | src/components/CRM/CRM.js:24-28 | same length; clients with the id take the merged update, every other client is unchanged |
| Crm.UpdateIdempotent | src/components/CRM/CRM.js:24-28 | applying the same update twice gives what applying it once gives, as long as a whole edited client keeps its id |
| Crm.FilteredClients | src/components/CRM/CRM.js:30-44 | a subsequence of the clients holding exactly those that match the search and pass the status or spending filter |
| Crm.SearchIsPatientSearch | src/components/CRM/CRM.js:30-42 | with the "all" filter (or any other value without a case) the CRM search gives the same list as the patient list's search |
| Crm.StatusFiltersDisjoint | src/components/CRM/CRM.js:34-38 | for any term the active and inactive filters together show no more clients than the unfiltered search |
| Crm.Entry | src/components/CRM/TreatmentHistory.js:13 | the new history entry carries the form's date, treatment and cost and the fresh id |
| Crm.WithEntry | src/components/CRM/TreatmentHistory.js:13-19 | the history gains the entry at its end and the total becomes the sum of all its costs, raised by exactly the entry's cost when it was consistent before; identity, name and status are kept |
| Crm.AddTreatmentAsWritten | src/components/CRM/TreatmentHistory.js:12-28 | as written: the selected client's captured history plus the entry is stored under its id, with a consistent total; other clients are untouched; the form is cleared |
| Crm.AddTreatment | src/components/CRM/TreatmentHistory.js:12-28 | as intended: every client with the id gets the entry appended to its current history and the total recomputed; other clients are untouched; the form is cleared |
| Crm.AddTreatmentKeepsTotals | src/components/CRM/TreatmentHistory.js:13-19 | when every total is the sum of its history's costs, it stays so, and the client's total rises by the entry's cost |
| Crm.AddTwiceKeepsBoth | src/components/CRM/TreatmentHistory.js:12-28 | two additions in a row leave both entries in the history, in order |
| Crm.SecondAddLosesFirst | src/components/CRM/CRM.js:76-103 | as written, a second addition without reselecting the client drops the first entry; as intended both are kept |
| Statistics.Tally | src/components/Dashboard/Analytics.js:16-19 | one entry per distinct treatment, in order of first appearance, counting the members that have it; every count is at least one and the counts add up to the number of members |
| Statistics.TallyOver | src/components/CRM/Analytics.js:8-13 | for any list of keys, one entry per key in that order, holding the number of members with that key |
| Statistics.KeysAreTheSet | src/components/Dashboard/Analytics.js:15 | the distinct keys in order of first appearance are as many as the set of keys |
| Statistics.Popular | src/components/Dashboard/Analytics.js:59-60 | the same entries as the tally, largest count first, still adding up to the number of appointments |
| Statistics.PopularCountsAppointments | src/components/Dashboard/Analytics.js:16-19 | every booked treatment is listed, with the number of appointments booked for it |
| Statistics.DistinctClients | src/components/Dashboard/Analytics.js:15 | the size of the set of client names, a missing name counting as one value; at most the number of appointments and zero only for none |
| Statistics.AppointmentAnalytics | src/components/Dashboard/Analytics.js:9-21 | the total, the completed and cancelled counts (together at most the total), distinct clients at most the total, and the popular treatments adding up to the total |
| Statistics.CompletedCancelledDisjoint | src/components/Dashboard/Analytics.js:13-14 | completed and cancelled appointments together are at most all appointments |
| Statistics.AllEntries | src/components/CRM/Analytics.js:8-9 | every entry of every client's history is among the entries walked, and every entry walked comes from some client's history |
| Statistics.AllEntriesAppend | src/components/CRM/Analytics.js:8-9 | the entries of two client lists one after the other are the first list's entries followed by the second's, so histories are walked in client order |
| Statistics.EntriesCount | src/components/CRM/Analytics.js:8-13 | the entries walked are as many as the clients' history lengths added up |
| Statistics.ClientAnalytics | src/components/CRM/Analytics.js:3-13 | the number of clients, the active ones among them, revenue as the sum of the totals spent, and the per-treatment tally of every history entry in client order, each count at least one, the counts adding up to the number of history entries |
| Statistics.RevenueIsAllCosts | src/components/CRM/Analytics.js:6 | when every client's total is the sum of its history's costs, the revenue is the sum of every cost recorded |
| Dashboard.TodayAppointments | src/components/Dashboard/Dashboard.js:6-10 | exactly the appointments whose date prints as today's, in stored order, the same list the appointments hook gives for today |
| Dashboard.UpcomingAppointments | src/components/Dashboard/Dashboard.js:12-16 | at most five appointments, all starting after now, the first of the upcoming ones in stored order; all of them when there are at most five |
| Dashboard.UpcomingIgnoresDates | src/components/Dashboard/Dashboard.js:12-16 | with more than five appointments ahead, the first five stored are shown, whatever their dates |
| Dashboard.CompletedAppointments | src/components/Dashboard/Dashboard.js:18 | the same completed count as the analytics panel, at most the number of appointments |
| Dashboard.MonthOf | src/components/Dashboard/Dashboard.js:113-116 | a month exactly when the date is valid |
| Dashboard.ClientPartsAreEntries | src/components/Dashboard/Dashboard.js:114-119 | adding up each client's selected costs is adding up the selected costs over all history entries |
| Dashboard.MonthlyRevenueAsWritten | src/components/Dashboard/Dashboard.js:112-120 | as written: the costs of every entry whose month is the current month, in any year |
| Dashboard.MonthlyRevenue | src/components/Dashboard/Dashboard.js:112-120 | as intended: the costs of every entry dated in the current month of the current year |
| Dashboard.MonthlyAtMostRevenue | src/components/Dashboard/Dashboard.js:112-120 | with consistent totals and no negative cost, the month's revenue lies between zero and the clinic's revenue |
| Dashboard.LastYearCounted | src/components/Dashboard/Dashboard.js:113-116 | a treatment from the same month a year earlier is counted as written and not as intended |
| FollowUp.Offset | src/utils/followup.js:2-9 | a number of days exactly for the three listed treatments, the listed one, always positive |
| FollowUp.Message | src/utils/followup.js:14 | opens with "Hello", the name and "!", and mentions both the name and the treatment |
| FollowUp.Suggest | src/utils/followup.js:1-16 | the client's name; a valid date exactly when the visit's date is valid and the treatment is listed, then that many days later at the same clock time; a message greeting the client and naming the treatment |
| FollowUp.FollowUpIsLater | src/utils/followup.js:8-9 | a usable follow-up date is always after the visit |
| FollowUp.UnlistedTreatmentHasNoDate | src/utils/followup.js:9 | a treatment outside the table yields an invalid date |
| FollowUp.GreetsLikeTemplates | src/utils/followup.js:14 | the follow-up message opens with the same greeting as the WhatsApp templates |
| CallList.Merged | src/components/CallList/CallList.js:18 | the appointments in order, then the waiting-list entries in order |
| CallList.TodaysCalls | src/components/CallList/CallList.js:18-23 | earliest first; exactly the appointments dated on the reference day, never a waiting-list entry, a reordering of the filtered rows (same multiset); nothing for an invalid reference date |
| CallList.CallsAreTodaysAppointments | src/components/CallList/CallList.js:18-23 | for a valid reference date an appointment is on the calls list exactly when the today page lists it for that date |
| CallList.CallPhone | src/components/CallList/CallList.js:25-28 | empty when no client has exactly that name; a non-empty result is the phone of a client with exactly that name, and the result is always the phone of the first client with that name |
| CallList.Call | src/components/CallList/CallList.js:30-35 | a number to dial exactly when the client's phone is not empty, and then that phone |
| CallList.NameClick | src/components/CallList/CallList.js:37-42 | a chat request only for a non-empty phone with digits, addressed to that phone, with no text |
| CallList.SendGeneral | src/components/CallList/CallList.js:44-50 | a request only for a named client with a phone, carrying the general message that greets the client |
| CallList.ActionsWithPhone | src/components/CallList/CallList.js:30-50 | a phone with digits is always dialled, chatted with and messaged |
| CallList.ExactLookupAgreesWhenTrimmed | src/components/CallList/CallList.js:26 | the exact-name lookup finds the same phone as the today page's trimmed lookup when no name has spaces around it |
| WaitingPage.Submit | src/components/WaitingList/WaitingListPage.js:34-43 | the entry carries the form's fields, the fresh id, the time of addition and status waiting; the form is cleared and can no longer be added |
| WaitingPage.StoredAsSubmitted | src/context/AppContext.js:72-86 | the store appends the submitted entry exactly as built, since it already has an id |
| WaitingPage.SendGeneral | src/components/WaitingList/WaitingListPage.js:98-105 | a request exactly when the entry has a phone with digits, addressed to that number and carrying the general message for the entry's name |
| WaitingPage.Delete | src/components/WaitingList/WaitingListPage.js:111-115 | unchanged unless confirmed; once confirmed, exactly the entries with another id remain |
| WaitingPage.SubmitThenDelete | src/components/WaitingList/WaitingListPage.js:111-115 | adding an entry with a fresh id and removing it with confirmation leaves the list as it was |

## Left out

- Storage and files: `localStorage` reads and writes, `FileReader`, downloads and all of `src/utils/storage.js`. Stored values are taken as already parsed records.
- CSV text: `papaparse` parsing and unparsing. CSV is modelled as the table of records the library yields or takes.
- Browser and desktop effects: `window.open`, `alert`, `console`, the `tel:` navigation and the Electron shell. The WhatsApp actions return the request (number and text) they would open.
- `window.confirm`: modelled as a `confirmed` parameter.
- `encodeURIComponent`: the message text is kept unencoded.
- Clocks and randomness: `Date.now()`, `Math.random()` and `new Date()` are parameters.
- Calendar arithmetic: the local calendar (year and month of a day) is a parameter of `Dashboard.MonthOf`, because the clock counts days and minutes only. Seconds, milliseconds, time zones and daylight saving are not modelled.
- Date and number formatting: `toLocaleString`, `toISOString`, date-fns `format` and `formatDate`/`formatTime` are left out. The ISO text of a waiting-list entry's time of addition is kept as an instant.
- Invalid dates in sorts: they sort with key 0 (the source compares `NaN`, which leaves the order to the engine).
- Costs: `Number(cost)` is modelled as an integer. Non-numeric costs (`NaN`) and fractional amounts are not modelled.
- Object key order: a per-treatment count object lists its keys in order of first appearance. The engine's ordering of integer-like keys first is not modelled.
- Extra client fields: the CRM details form's address, allergies, medical history and preferred treatments, the `nextAppointment` field and the `vip` status tag have no place in the client record.
- Catalogue items: the editor's spread fields (`durationHours`, `durationMinutes`, `category`) are not stored on a treatment.
- Ignored handler: `handleWhatsApp` in `src/App.js` (lines 90-97) is passed to the waiting-list page as `onWhatsApp` (line 173), but that page takes only `waitingList` and `onRemove` (`src/components/WaitingList/WaitingListPage.js:94`), so the handler is never called.
- PatientList.MostRecent: `Records.Client.createdAt` is an optional whole number here. The CSV import stores an ISO date string (`src/components/CSVImport/CSVImport.js:34`), and the duplicate filter compares `new Date(createdAt || 0)` (`src/components/PatientList/PatientList.js:185`). The model compares the numbers, with a missing one as 0. A string the date parser cannot read (an invalid date, for which every comparison is false) is not modelled.
- Calls list date: `src/App.js` fixes the calls list's reference date to 4 December 2023. Here the date is a parameter of `CallList.TodaysCalls`.
- Calendar navigation: month and year navigation, the weather fetch and the clock widget are UI with no logic here.
- Other files: login, banner, notifications and their timers, the error boundary and the pure UI components (`WhatsApp.js`, `WaitingList.js`, `EditPatientModal.js`, `ConfirmDialog.js`, `CRM/ClientDetails.js`) are not part of this model.
- Client records without a history or a total: clients added from the patient list's form (`src/components/PatientList/PatientList.js:81-85`) and by either import (`src/utils/importExport.js:23-29`, `53-57`) carry no `treatmentHistory` and no `totalSpent`. `Records.Client` always holds both, as `[]` and 0 for such clients. In the source, any later walk over the missing history throws, and the missing total makes the sum `NaN`. The lines below name the members this affects.
- Statistics.ClientAnalytics: assumes every client has a history and a total. For a client without them, `src/components/CRM/Analytics.js:9` throws on `forEach` and line 6 sums to `NaN`; the model counts an empty history and adds 0.
- Dashboard.MonthlyRevenue: assumes every client has a history. For a client without one, `src/components/Dashboard/Dashboard.js:115` throws on `filter`; the model adds nothing for that client.
- Dashboard.MonthlyRevenueAsWritten: the same as for `Dashboard.MonthlyRevenue`.
- Crm.AddTreatment: assumes the client has a history. For a client without one, the spread at `src/components/CRM/TreatmentHistory.js:13` throws; the model starts the history from `[]`.
- Crm.AddTreatmentAsWritten: the same as for `Crm.AddTreatment`.
- Contacts.CardClient: gives the imported client an empty history and a total of 0, which the source's record does not carry.
- Contacts.CsvClient: gives the imported client an empty history and a total of 0, which the source's record does not carry.
- Text.ParseInt: reads decimal digits only. JavaScript's `parseInt` without a radix reads a `0x` or `0X` prefix as hexadecimal, so `parseInt("0x1A")` is 26, where `Text.ParseInt` gives 0.
- MessageDialog.ReplaceFirst: inserts the replacement literally. JavaScript's string `replace` expands `$&`, `$$`, `` $` `` and `$'` in the replacement (`src/components/PatientList/MessageDialog.js:54`, `81`), so a patient name holding one of these is written differently in the source.
- PatientList.RemoveDuplicates: treats every key as a fresh group. The source groups in a plain object (`src/components/PatientList/PatientList.js:143-152`). A client without phone digits whose lower-cased name is `constructor` or `__proto__` finds an inherited property there, and `duplicates[key].push` throws.
- Saving a new treatment pushes it into the first category's item array in place (`src/components/Treatments/Treatments.js:281-282`). That array is shared with the previous state and, when nothing was stored, with the imported defaults. `TreatmentCatalogue.SaveNew` returns a new catalogue and leaves the defaults unchanged.
- `src/hooks/useTreatmentStats.js` is not part of this model. It refers to names it never defines and averages in floating point.
- The duration table that the time-slot check reads is a parameter of `TimeValidation.ValidateTimeSlot`. The source never defines it (see Findings).
- PatientList.RemovedCount: proved only for lists whose client ids are distinct. With repeated ids the filter by id keeps more than one client per key.
- PatientList.KeptSize: proved only for lists whose client ids are distinct, for the same reason.
- PatientList.KeptOncePerKey: proved only for lists whose client ids are distinct, for the same reason.
- Contacts.VCardRoundTrip: holds only for exportable clients. They have a non-empty name and phone, no line breaks, no colon in the phone and no `BEGIN:VCARD` inside a field; otherwise the reader cannot recover the fields.
- MessageDialog.SelectTemplate: an id with no template makes the source throw on `selected.template`. Here that is `None`.
- MessageDialog.DeleteTemplate: requires a non-empty template list. It is only offered from a listed template's button, and reading `templates[0]` of an empty list would fail.
- Durations.FormatDuration: its contract says only that the label is non-empty. What the label means is stated by `Durations.EditRoundTrip` and `Durations.LabelMinutesRoundTrip`, which read it back.

## Findings

| source | as written | input that shows it | evidently intended | confidence | as-written member | corrected member |
|---|---|---|---|---|---|---|
| src/components/Calendar/Calendar.js:113-118 | a label containing "hour" is read as 60 times its first number, so the minutes are lost | "1 hour 30 minutes", the label the treatment editor writes for 90 minutes, ends the appointment after 60 minutes | the end time is the label's hours and minutes together | not executed | Durations.CalendarMinutes, CalendarDialog.EndTimeAsWritten, CalendarDialog.TreatmentChangeAsWritten, CalendarDialog.StartTimeChangeAsWritten, Durations.CompoundLabelLosesMinutes, CalendarDialog.HandlersOnCompoundLabel | Durations.LabelMinutes, CalendarDialog.EndTime, CalendarDialog.EndTimeOfReadings, CalendarDialog.TreatmentChange, CalendarDialog.StartTimeChange |
| src/hooks/useTimeValidation.js:47-48 | the overlap test reads `TREATMENT_DURATIONS`, which is never defined, so it throws | a Sunday 18:00 slot with one scheduled appointment in the list throws instead of being accepted | each appointment's end comes from a duration table | not executed | TimeValidation.ValidateTimeSlotAsWritten, TimeValidation.UndefinedTableThrows | TimeValidation.ValidateTimeSlot |
| src/context/AppContext.js:65-69 | every appointment of the client takes `updates.name`, which is undefined when the update does not rename | a phone-only update erases the name on all of the client's appointments | the appointments take the new name only on a rename | not executed | Store.CascadeAsWritten, Store.PhoneUpdateErasesNames | Store.Cascade |
| src/components/PatientList/PatientList.js:77-79 | the edited patient alone is handed to `setClients` (`src/App.js:137`) in place of the list | editing one of two patients leaves a single object and no list | the edited patient replaces its own entry in the list | not executed | PatientList.SubmitPatientAsWritten, PatientList.EditDropsOtherPatients | PatientList.SubmitPatient |
| src/components/PatientDetails/PatientDetailsModal.js:138-143 | "next appointment" is the first upcoming appointment of the newest-first history | with two upcoming appointments, the later one is shown as next | the soonest upcoming appointment | not executed | PatientHistory.NextAppointmentAsWritten, PatientHistory.NextIsLatest | PatientHistory.NextAppointment |
| src/components/CRM/TreatmentHistory.js:13 | the new history extends the client object captured when it was clicked, which the update does not refresh | two treatments added in a row without reselecting the client keep only the second | each addition extends the current history | not executed | Crm.AddTreatmentAsWritten, Crm.SecondAddLosesFirst | Crm.AddTreatment |
| src/hooks/useSearch.js:1-2 | the hook calls `useMemo`, which its file never imports, so every call throws a `ReferenceError` | `useSearch(items, "")`, meant to return the items unchanged, throws | `useMemo` imported from React, so the call returns the filtered items | not executed | Search.UseSearchAsWritten, Search.UndefinedMemoThrows | Search.UseSearch |
| src/components/Dashboard/Dashboard.js:113-116 | the monthly revenue compares only the month number | a treatment from the same month last year is counted in this month's revenue | entries of the current month of the current year | not executed | Dashboard.MonthlyRevenueAsWritten, Dashboard.LastYearCounted | Dashboard.MonthlyRevenue |
