/** The client searches outside the patient list: the generic `useSearch`
    hook over named fields, the quick-booking suggestions and the
    searchable patient picker. All of them keep the list order; the last
    two show at most 50 entries. */
module Search {
  import opened Wrappers
  import opened Lists
  import opened Text
  import opened Records
  import PatientList
  import Grouping

  const MaxShown := 50

  // ---------------------------------------------------------------------
  // useSearch

  /** An item of `useSearch` as its fields: a field the item lacks is
      absent from the map. */
  type Item = map<string, string>

  const DefaultFields := ["name", "phone"]

  /** Some listed field of the item, lower-cased, contains the lower-cased
      term; a missing field matches nothing. */
  function FieldsMatch(fields: seq<string>, term: string): Item -> bool {
    (item: Item) => exists i :: 0 <= i < |fields| && fields[i] in item
                                && Contains(ToLower(item[fields[i]]), ToLower(term))
  }

  /** `useSearch(items, term, fields)` with `useMemo` in scope: the items
      unchanged for an empty term, else the items some field of which
      matches, in order. */
  function UseSearch(items: seq<Item>, term: string, fields: seq<string>): (r: seq<Item>)
    ensures term == "" ==> r == items
    ensures Subsequence(r, items)
    ensures term != "" ==>
      forall i :: 0 <= i < |r| ==> exists k :: 0 <= k < |fields| && fields[k] in r[i]
                                               && Contains(ToLower(r[i][fields[k]]), ToLower(term))
    ensures term != "" ==>
      forall i, k :: (0 <= i < |items| && 0 <= k < |fields| && fields[k] in items[i]
                      && Contains(ToLower(items[i][fields[k]]), ToLower(term))) ==> items[i] in r
  {
    if term == "" then
      FilterAll(items, (x: Item) => true);
      FilterSubsequence(items, (x: Item) => true);
      items
    else
      var r := Filter(items, FieldsMatch(fields, term));
      FilterSubsequence(items, FieldsMatch(fields, term));
      assert forall i :: 0 <= i < |r| ==> FieldsMatch(fields, term)(r[i]);
      r
  }

  /** What a call of the hook leads to: a list, or the `ReferenceError`
      thrown for a name that is not defined. */
  datatype SearchOutcome = Listed(items: seq<Item>) | ReferenceError

  /** `useSearch` as written: `useMemo` is never imported into the hook's
      file, so the call stops at the undefined name before any filtering,
      whatever the items, the term and the fields. */
  function UseSearchAsWritten(items: seq<Item>, term: string, fields: seq<string>): (o: SearchOutcome)
    ensures !o.Listed?
  {
    ReferenceError
  }

  /** Even the empty term, which the hook means to answer with the items
      unchanged, throws as written; with `useMemo` imported the call gives
      `UseSearch`'s list. */
  lemma {:induction false} UndefinedMemoThrows(items: seq<Item>, fields: seq<string>)
    ensures UseSearchAsWritten(items, "", fields) == ReferenceError
    ensures UseSearch(items, "", fields) == items
  {
  }

  /** A client seen by `useSearch` with its name and phone fields. */
  function ClientItem(c: Client): Item {
    map["name" := c.name, "phone" := c.phone]
  }

  /** With the default fields, `useSearch` finds the clients the patient
      list's search finds, for a term without capitals and a phone without
      letters; unlike that search it also lower-cases the phone. */
  lemma {:induction false} UseSearchMatchesPatientSearch(c: Client, term: string)
    requires ToLower(term) == term && ToLower(c.phone) == c.phone
    ensures FieldsMatch(DefaultFields, term)(ClientItem(c)) <==> PatientList.Matches(term)(c)
  {
    var item := ClientItem(c);
    assert DefaultFields[0] == "name" && DefaultFields[1] == "phone";
    assert item["name"] == c.name && item["phone"] == c.phone;
    if PatientList.Matches(term)(c) {
      if Contains(ToLower(c.name), ToLower(term)) {
        assert DefaultFields[0] in item;
      } else {
        assert DefaultFields[1] in item;
      }
    }
  }

  /** A field that appears nowhere is never matched, even by a term every
      string contains. */
  lemma {:induction false} MissingFieldNeverMatches(item: Item, field: string, term: string)
    requires field !in item
    ensures !FieldsMatch([field], term)(item)
  {
  }

  // ---------------------------------------------------------------------
  // Quick-booking suggestions

  /** `filteredSuggestions`: none for an empty input; otherwise the first 50
      clients whose lower-cased name contains the lower-cased input or
      whose phone contains the input. */
  function Suggestions(clients: seq<Client>, input: string): (r: seq<Client>)
    ensures input == "" ==> r == []
    ensures |r| <= MaxShown
    ensures input != "" ==> forall i :: 0 <= i < |r| ==> r[i] in clients && PatientList.Matches(input)(r[i])
    ensures input != "" && Count(clients, PatientList.Matches(input)) <= MaxShown ==>
      forall i :: 0 <= i < |clients| && PatientList.Matches(input)(clients[i]) ==> clients[i] in r
  {
    if input == "" then []
    else Take(Filter(clients, PatientList.Matches(input)), MaxShown)
  }

  /** The suggestions are the first 50 results of the patient list's
      search for the same input. */
  lemma {:induction false} SuggestionsArePatientSearch(clients: seq<Client>, input: string)
    requires input != ""
    ensures Suggestions(clients, input) == Take(PatientList.FilteredClients(clients, input), MaxShown)
  {
  }

  // ---------------------------------------------------------------------
  // Searchable patient picker

  /** An option matches when its lower-cased label contains the lower-cased
      term, or its phone is non-empty and contains the term as typed. */
  function OptionMatches(labelOf: Client -> string, term: string): Client -> bool {
    (c: Client) => Contains(ToLower(labelOf(c)), ToLower(term)) || (c.phone != "" && Contains(c.phone, term))
  }

  /** `filteredOptions`: the first 50 options for an empty term, else the
      first 50 matching options. */
  function FilteredOptions(options: seq<Client>, term: string, labelOf: Client -> string): (r: seq<Client>)
    ensures |r| <= MaxShown
    ensures term == "" ==> r == Take(options, MaxShown)
    ensures term != "" ==> forall i :: 0 <= i < |r| ==> r[i] in options && OptionMatches(labelOf, term)(r[i])
    ensures term != "" && Count(options, OptionMatches(labelOf, term)) <= MaxShown ==>
      forall i :: 0 <= i < |options| && OptionMatches(labelOf, term)(options[i]) ==> options[i] in r
  {
    if term == "" then Take(options, MaxShown)
    else Take(Filter(options, OptionMatches(labelOf, term)), MaxShown)
  }

  /** With the default label (the name) the picker shows what the quick
      booking suggests, for any non-empty term: the phone test differs only
      on empty phones, which contain no non-empty term. */
  lemma {:induction false} PickerAgreesWithSuggestions(options: seq<Client>, term: string)
    requires term != ""
    ensures FilteredOptions(options, term, (c: Client) => c.name) == Suggestions(options, term)
  {
    var labelOf := (c: Client) => c.name;
    forall i | 0 <= i < |options|
      ensures OptionMatches(labelOf, term)(options[i]) == PatientList.Matches(term)(options[i])
    {
      ContainsLength(options[i].phone, term);
    }
    Grouping.FilterExt(options, OptionMatches(labelOf, term), PatientList.Matches(term));
  }

  /** The picker: the search term and the client chosen (`value`). */
  datatype Picker = Picker(term: string, value: Option<Client>)

  /** `handleOptionSelect`: the option becomes the value and its label the
      term. */
  function SelectOption(p: Picker, option: Client, labelOf: Client -> string): (r: Picker)
    ensures r.value == Some(option) && r.term == labelOf(option)
    ensures OptionMatches(labelOf, r.term)(option)
  {
    assert StartsWith(ToLower(labelOf(option)), ToLower(labelOf(option)));
    Picker(labelOf(option), Some(option))
  }

  /** `handleClear`: no term and no value, so the first 50 options show. */
  function Clear(p: Picker): (r: Picker)
    ensures r.value.None? && r.term == ""
  {
    Picker("", None)
  }

  /** After a selection the chosen option is listed again whenever it is
      among the first 50 options matching its own label; clearing lists the
      first 50 options. */
  lemma {:induction false} SelectThenClear(p: Picker, options: seq<Client>, option: Client, labelOf: Client -> string)
    ensures FilteredOptions(options, Clear(SelectOption(p, option, labelOf)).term, labelOf) == Take(options, MaxShown)
    ensures option in options && labelOf(option) != ""
            && Count(options, OptionMatches(labelOf, labelOf(option))) <= MaxShown ==>
      option in FilteredOptions(options, SelectOption(p, option, labelOf).term, labelOf)
  {
  }
}
