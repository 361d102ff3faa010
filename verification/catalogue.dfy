/** The treatment catalogue: categories of treatments, the built-in default
    catalogue, the flattened list every treatment picker shows, and the
    catalogue page's edit, add and delete. A catalogue the user has saved
    replaces the defaults everywhere. */
module TreatmentCatalogue {
  import opened Wrappers
  import opened Lists
  import opened Durations
  import opened Text

  datatype Treatment = Treatment(
    id: string,
    name: string,
    description: string,
    price: string,
    duration: string,
    details: seq<string>)

  datatype Category = Category(category: string, items: seq<Treatment>)

  type Catalogue = seq<Category>

  // ---------------------------------------------------------------------
  // Flattening

  /** The number of treatments over all categories. */
  function ItemCount(c: Catalogue): nat
    decreases |c|
  {
    if |c| == 0 then 0 else |c[0].items| + ItemCount(c[1..])
  }

  /** `reduce((acc, category) => [...acc, ...category.items], [])`: every
      category's items, in category order and then item order. */
  function Flatten(c: Catalogue): (r: seq<Treatment>)
    ensures |r| == ItemCount(c)
    ensures forall i, j :: 0 <= i < |c| && 0 <= j < |c[i].items| ==> c[i].items[j] in r
    ensures forall t :: t in r ==> exists i :: 0 <= i < |c| && t in c[i].items
    decreases |c|
  {
    if |c| == 0 then []
    else
      var rest := Flatten(c[1..]);
      assert forall i :: 1 <= i < |c| ==> c[i] == c[1..][i - 1];
      c[0].items + rest
  }

  lemma {:induction false} FlattenAppend(a: Catalogue, b: Catalogue)
    ensures Flatten(a + b) == Flatten(a) + Flatten(b)
    decreases |a|
  {
    if |a| == 0 {
      assert a + b == b;
    } else {
      assert (a + b)[1..] == a[1..] + b;
      FlattenAppend(a[1..], b);
    }
  }

  // ---------------------------------------------------------------------
  // The defaults

  const BasicTreatments := Category("Basic Treatments", [
    Treatment("botox", "Botox",
      "Upper part of the face - consists of 3 areas: forehead, between eyebrows, and eye sides.",
      "400 NIS per area", "10 minutes", []),
    Treatment("hyaluronic", "Hyaluronic Acid",
      "Lower part of the face (lips, cheeks, mouth-side wrinkles, etc...)",
      "1,000-1,400 NIS per syringe", "20-30 minutes",
      ["Treatment time for a single area (usually for younger people): 20 minutes",
       "Overall facial hyaluronic acid treatment time: 30 minutes"]),
    Treatment("skin-booster", "Skin Booster",
      "Treatment to refresh facial skin, fills small wrinkles, fills post-acne scars, creates smoother skin",
      "1,100 NIS per treatment", "30 minutes",
      ["First-time treatment: A series of 2-3 treatments with 1-1.5 months intervals",
       "Afterwards, one treatment as needed for a 'boost'"]),
    Treatment("profhilo", "Profhilo", "6-point treatment to refresh facial skin",
      "1,600 NIS per treatment", "30 minutes",
      ["First-time treatment: A series of 2-3 treatments with 1-1.5 months intervals",
       "Treatment time: 15 minutes",
       "Total treatment time: 30 minutes"]),
    Treatment("threads", "Threads (Aptos)",
      "Facial skin lifting using threads. Usually a minimum of 2 threads on each side.",
      "450 NIS per thread", "30-45 minutes",
      ["Very mature clients 45 minutes",
       "No thread treatments for eye lifting"])
  ])

  const CollagenDetails := [
    "Advantage is that it lasts up to 1.5-2 years",
    "First-time: Series of 2-3 treatments. Afterwards as needed",
    "The client should arrive 15 minutes early to apply numbing cream"
  ]

  const MajorTreatments := Category("Major Treatments", [
    Treatment("sculptra", "Sculptra", "Skin renewal, encourages collagen production",
      "4,000 NIS", "1 hour", CollagenDetails),
    Treatment("estafil", "Estafil", "Skin renewal, encourages collagen production",
      "3,500 NIS", "1 hour", CollagenDetails),
    Treatment("oledia", "Oledia", "Skin renewal, encourages collagen production",
      "3,000 NIS", "1 hour", CollagenDetails)
  ])

  const UncertainDetails := [
    "Not 100% effective",
    "Sometimes works very well and sometimes has no effect",
    "No way to know in advance, should be considered carefully"
  ]

  const SpecialTreatments := Category("Special Treatments", [
    Treatment("botox-migraine", "Botox for Migraine", "Treatment for migraine relief",
      "3,500 NIS", "Varies", UncertainDetails),
    Treatment("botox-sweating", "Botox for Excessive Sweating", "Treatment for palms, armpits",
      "3,500 NIS", "Varies", UncertainDetails)
  ])

  const Defaults: Catalogue := [BasicTreatments, MajorTreatments, SpecialTreatments]

  /** The default catalogue: three categories of five, three and two
      treatments, ten in all, listed category by category. */
  lemma {:induction false} DefaultsShape()
    ensures |Defaults| == 3
    ensures |Defaults[0].items| == 5 && |Defaults[1].items| == 3 && |Defaults[2].items| == 2
    ensures Flatten(Defaults) == BasicTreatments.items + MajorTreatments.items + SpecialTreatments.items
    ensures |Flatten(Defaults)| == 10
  {
    var c := Defaults;
    assert Flatten(c[2..]) == SpecialTreatments.items + Flatten(c[3..]);
    assert Flatten(c[1..]) == MajorTreatments.items + Flatten(c[1..][1..]);
    assert c[1..][1..] == c[2..];
  }

  // ---------------------------------------------------------------------
  // Stored catalogue

  /** `getAllTreatments`: the stored catalogue when there is one, else the
      defaults, flattened. */
  function AllTreatments(stored: Option<Catalogue>): (r: seq<Treatment>)
    ensures stored.Some? ==> |r| == ItemCount(stored.value)
    ensures stored.None? ==> |r| == 10
    ensures stored.Some? ==> r == Flatten(stored.value)
    ensures stored.None? ==> r == BasicTreatments.items + MajorTreatments.items + SpecialTreatments.items
  {
    DefaultsShape();
    Flatten(stored.GetOr(Defaults))
  }

  /** `initializeTreatments`: stores the defaults when nothing is stored. */
  function Initialize(stored: Option<Catalogue>): (r: Option<Catalogue>)
    ensures r.Some?
    ensures stored.Some? ==> r == stored
  {
    if stored.None? then Some(Defaults) else stored
  }

  /** Initialising twice is initialising once, and it never changes the
      list the pickers show. */
  lemma {:induction false} InitializeIdempotent(stored: Option<Catalogue>)
    ensures Initialize(Initialize(stored)) == Initialize(stored)
    ensures AllTreatments(Initialize(stored)) == AllTreatments(stored)
  {
  }

  // ---------------------------------------------------------------------
  // The catalogue page

  /** The treatment editor's fields; `hours` and `minutes` are what
      `parseInt` reads in the two count fields (`None` is `NaN`). */
  datatype TreatmentForm = TreatmentForm(
    name: string,
    description: string,
    price: string,
    hours: Option<int>,
    minutes: Option<int>,
    details: seq<string>)

  /** The editor opened on an existing treatment. */
  function OpenEditor(t: Treatment): (f: TreatmentForm)
    ensures f.name == t.name && f.price == t.price
    ensures f.hours == EditHours(t.duration)
  {
    TreatmentForm(t.name, t.description, t.price, EditHours(t.duration),
                  Some(EditMinutes(t.duration)), t.details)
  }

  /** The save button is enabled only with a name and a price. */
  predicate CanSave(f: TreatmentForm) {
    |f.name| > 0 && |f.price| > 0
  }

  /** `{ ...item, ...treatmentData }`: the form's fields over the item,
      whose id is kept. */
  function Apply(t: Treatment, f: TreatmentForm): (r: Treatment)
    ensures r.id == t.id
    ensures |r.duration| > 0
  {
    t.(name := f.name, description := f.description, price := f.price,
       duration := SubmitLabel(f.hours, f.minutes), details := f.details)
  }

  function ApplyToItems(items: seq<Treatment>, id: string, f: TreatmentForm): (r: seq<Treatment>)
    ensures |r| == |items|
    ensures forall j :: 0 <= j < |r| ==> r[j] == if items[j].id == id then Apply(items[j], f) else items[j]
  {
    seq(|items|, j requires 0 <= j < |items| => if items[j].id == id then Apply(items[j], f) else items[j])
  }

  /** Saving an edit: the treatment with the edited id gets the form's
      fields in every category; nothing else changes. An edit that cannot
      be saved changes nothing. */
  function SaveEdit(c: Catalogue, id: string, f: TreatmentForm): (r: Catalogue)
    ensures |r| == |c|
    ensures forall i :: 0 <= i < |c| ==> r[i].category == c[i].category && |r[i].items| == |c[i].items|
    ensures forall i, j :: 0 <= i < |c| && 0 <= j < |c[i].items| && c[i].items[j].id != id ==>
      r[i].items[j] == c[i].items[j]
    ensures !CanSave(f) ==> r == c
  {
    if !CanSave(f) then c
    else seq(|c|, i requires 0 <= i < |c| => c[i].(items := ApplyToItems(c[i].items, id, f)))
  }

  /** Edits keep every treatment's id in place, and repeating an edit
      changes nothing more. */
  lemma {:induction false} SaveEditIdsAndRepeat(c: Catalogue, id: string, f: TreatmentForm)
    ensures forall i, j :: 0 <= i < |c| && 0 <= j < |c[i].items| ==>
      SaveEdit(c, id, f)[i].items[j].id == c[i].items[j].id
    ensures SaveEdit(SaveEdit(c, id, f), id, f) == SaveEdit(c, id, f)
  {
    var r := SaveEdit(c, id, f);
    var rr := SaveEdit(r, id, f);
    if CanSave(f) {
      forall i | 0 <= i < |c|
        ensures rr[i] == r[i]
      {
        assert rr[i].items == r[i].items;
      }
    }
  }

  /** Saving a new treatment appends it, with a fresh id, to the first
      category. With no category left the page's code fails and nothing is
      saved. */
  function SaveNew(c: Catalogue, f: TreatmentForm, freshId: string): (r: Catalogue)
    ensures CanSave(f) && |c| > 0 ==>
      |r| == |c| && r[0].category == c[0].category && r[1..] == c[1..]
      && r[0].items == c[0].items + [Apply(Treatment(freshId, "", "", "", "", []), f)]
    ensures !(CanSave(f) && |c| > 0) ==> r == c
  {
    if !CanSave(f) || |c| == 0 then c
    else
      var added := Apply(Treatment(freshId, "", "", "", "", []), f);
      [c[0].(items := c[0].items + [added])] + c[1..]
  }

  /** Adding grows the pickers' list by exactly the new treatment, placed
      at the end of the first category's run. */
  lemma {:induction false} SaveNewFlatten(c: Catalogue, f: TreatmentForm, freshId: string)
    requires CanSave(f) && |c| > 0
    ensures Flatten(SaveNew(c, f, freshId))
         == c[0].items + [Apply(Treatment(freshId, "", "", "", "", []), f)] + Flatten(c[1..])
  {
    var r := SaveNew(c, f, freshId);
    assert r[1..] == c[1..];
  }

  /** The items other than `id`. */
  function NotId(id: string): Treatment -> bool {
    (t: Treatment) => t.id != id
  }

  /** `confirmDelete`: removes the treatment with that id from every
      category, then drops the categories left empty. */
  function Delete(c: Catalogue, id: string): (r: Catalogue)
    ensures |r| <= |c|
    ensures forall i :: 0 <= i < |r| ==> |r[i].items| > 0
    decreases |c|
  {
    if |c| == 0 then []
    else
      var pruned := c[0].(items := Filter(c[0].items, NotId(id)));
      (if |pruned.items| > 0 then [pruned] else []) + Delete(c[1..], id)
  }

  /** After a delete the pickers show exactly the old list without that
      id, in the old order; no treatment with that id is left. */
  lemma {:induction false} DeleteFlatten(c: Catalogue, id: string)
    ensures Flatten(Delete(c, id)) == Filter(Flatten(c), NotId(id))
    ensures forall t :: t in Flatten(Delete(c, id)) ==> t.id != id
    decreases |c|
  {
    if |c| > 0 {
      var pruned := c[0].(items := Filter(c[0].items, NotId(id)));
      var head: Catalogue := if |pruned.items| > 0 then [pruned] else [];
      DeleteFlatten(c[1..], id);
      FlattenAppend(head, Delete(c[1..], id));
      FilterAppend(c[0].items, Flatten(c[1..]), NotId(id));
      assert Flatten(head) == pruned.items;
    }
  }

  /** Deleting an id that is not in the catalogue only drops the
      categories that were already empty. */
  lemma {:induction false} DeleteAbsent(c: Catalogue, id: string)
    requires forall i :: 0 <= i < |c| ==> |c[i].items| > 0
    requires forall t :: t in Flatten(c) ==> t.id != id
    ensures Delete(c, id) == c
    decreases |c|
  {
    if |c| > 0 {
      var rest := c[1..];
      AbsentSplit(c, id);
      DeleteKeepsHead(c, id);
      DeleteAbsent(rest, id);
      assert [c[0]] + rest == c;
    }
  }

  /** An id absent from the catalogue is absent from its first category
      and from the others. */
  lemma {:induction false} AbsentSplit(c: Catalogue, id: string)
    requires |c| > 0
    requires forall t :: t in Flatten(c) ==> t.id != id
    ensures Filter(c[0].items, NotId(id)) == c[0].items
    ensures forall t :: t in Flatten(c[1..]) ==> t.id != id
  {
    assert Flatten(c) == c[0].items + Flatten(c[1..]);
    forall j | 0 <= j < |c[0].items|
      ensures NotId(id)(c[0].items[j])
    {
      assert c[0].items[j] in Flatten(c);
    }
    FilterAll(c[0].items, NotId(id));
  }

  /** A first category that loses nothing is kept as it is. */
  lemma {:induction false} DeleteKeepsHead(c: Catalogue, id: string)
    requires |c| > 0 && |c[0].items| > 0 && Filter(c[0].items, NotId(id)) == c[0].items
    ensures Delete(c, id) == [c[0]] + Delete(c[1..], id)
  {
    var head := c[0];
    var pruned := Category(head.category, Filter(head.items, NotId(id)));
    assert pruned == head;
  }
}
