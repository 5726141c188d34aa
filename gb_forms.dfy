/**
 * The add and delete handlers of the older builder in gb-code.tsx: adding
 * a section from the section form, adding a field from the field form,
 * deleting a top-level section and deleting a field. The two field
 * handlers run the two-level map of GbEdit, so they reach only top-level
 * sections and their direct subsections, and they throw when a section
 * they reach has no `fields` key.
 */
module GbForms {

  import opened Common
  import opened Text
  import opened GbTree
  import opened GbEdit

  // ------------------------------------------------------------ the forms

  /** The inputs of the field form. */
  datatype GbFieldForm = GbFieldForm(
    name: string,
    description: string,
    dataType: string,
    length: string,
    required: bool,
    repeated: bool,
    defaultValue: string,
    dropdownOptions: string)

  /** The field form as it starts and as it is reset after a field is added. */
  const EmptyGbFieldForm := GbFieldForm("", "", "text", "", false, false, "", "")

  /** The inputs of the section form. */
  datatype GbSectionForm = GbSectionForm(name: string, description: string)

  const EmptyGbSectionForm := GbSectionForm("", "")

  /** `opt.trim()` is truthy. */
  function Filled(line: string): bool {
    Trim(line) != []
  }

  /** The dropdown options typed one per line: the lines whose trim is non-empty, kept as typed. */
  function OptionLines(text: string): seq<string> {
    Filter(Split(text, '\n'), Filled)
  }

  /** Every option is a non-blank piece of the text without a newline, and the options keep the text's order. */
  lemma {:induction false} OptionLinesFacts(text: string)
    ensures forall k :: 0 <= k < |OptionLines(text)| ==> Filled(OptionLines(text)[k]) && '\n' !in OptionLines(text)[k]
    ensures IsSubsequence(OptionLines(text), Split(text, '\n'))
    ensures forall k :: 0 <= k < |Split(text, '\n')| && Filled(Split(text, '\n')[k]) ==> Split(text, '\n')[k] in OptionLines(text)
  {
    var parts := Split(text, '\n');
    FilterIsOrderedSelection(parts, Filled);
    forall k | 0 <= k < |OptionLines(text)| ensures '\n' !in OptionLines(text)[k] {
      assert OptionLines(text)[k] in parts;
    }
  }

  /** Options written one per line come back as they were. */
  lemma {:induction false} OptionLinesOfJoin(options: seq<string>)
    requires forall k :: 0 <= k < |options| ==> Filled(options[k]) && '\n' !in options[k]
    ensures OptionLines(Join(options, '\n')) == options
  {
    if options == [] {
      assert Split([], '\n') == [[]];
      assert Trim([]) == [];
    } else {
      SplitJoin(options, '\n');
      FilterAllKept(options, Filled);
    }
  }

  /** The field `handleAddField` builds: every form key, and the options only for the dropdown type. */
  function NewGbField(freshId: string, form: GbFieldForm): GbField {
    GbField(freshId, form.name, Some(form.description), form.dataType, Some(form.length),
            Some(form.required), Some(form.repeated), Some(form.defaultValue),
            Some(if form.dataType == "dropdown" then OptionLines(form.dropdownOptions) else []))
  }

  // ------------------------------------------------------------ field edits

  function Pushed(fs: seq<GbField>, f: GbField): seq<GbField> {
    fs + [f]
  }

  /** `[...fields, newField]`. */
  function PushField(f: GbField): seq<GbField> -> seq<GbField> {
    (fs: seq<GbField>) => Pushed(fs, f)
  }

  function FieldIdIsNot(id: string): GbField -> bool {
    (f: GbField) => f.id != id
  }

  function Without(fs: seq<GbField>, id: string): seq<GbField> {
    Filter(fs, FieldIdIsNot(id))
  }

  /** `fields.filter(f => f.id !== fieldId)`. */
  function RemoveField(id: string): seq<GbField> -> seq<GbField> {
    (fs: seq<GbField>) => Without(fs, id)
  }

  /** n copies of x. */
  function Copies<T>(x: T, n: nat): seq<T> {
    if n == 0 then [] else [x] + Copies(x, n - 1)
  }

  lemma {:induction false} PushedOne(x: GbSection, f: GbField)
    ensures FieldIdsOf(Edited(x, PushField(f))) == FieldIdsOf(x) + [f.id]
  {
    MapSeqConcat(x.fields.GetOr([]), [f], FieldId);
  }

  /** Appending a field adds its id once to every edited section's ids. */
  lemma {:induction false} PushedIds(xs: seq<GbSection>, f: GbField)
    ensures multiset(OwnFieldIds(MapSeq(xs, EditedBy(PushField(f))))) == multiset(OwnFieldIds(xs)) + multiset(Copies(f.id, |xs|))
  {
    if xs != [] {
      var m := MapSeq(xs, EditedBy(PushField(f)));
      PushedIds(xs[1..], f);
      assert m[0] == Edited(xs[0], PushField(f)) && m[1..] == MapSeq(xs[1..], EditedBy(PushField(f)));
      PushedOne(xs[0], f);
    }
  }

  /** The ids of the fields that survive a removal: every id but the removed one, as often as before. */
  lemma {:induction false} WithoutIds(fs: seq<GbField>, id: string)
    ensures forall x :: multiset(MapSeq(Without(fs, id), FieldId))[x] == if x == id then 0 else multiset(MapSeq(fs, FieldId))[x]
  {
    if fs != [] {
      WithoutIds(fs[1..], id);
      HeadTail(fs);
      MapSeqConcat([fs[0]], fs[1..], FieldId);
      if fs[0].id != id {
        assert Without(fs, id) == [fs[0]] + Without(fs[1..], id);
        MapSeqConcat([fs[0]], Without(fs[1..], id), FieldId);
      }
    }
  }

  /** Removing a field id from every edited section leaves none of it and every other id as often as before. */
  lemma {:induction false} RemovedIds(xs: seq<GbSection>, id: string)
    ensures forall x :: multiset(OwnFieldIds(MapSeq(xs, EditedBy(RemoveField(id)))))[x]
                        == if x == id then 0 else multiset(OwnFieldIds(xs))[x]
  {
    if xs != [] {
      var m := MapSeq(xs, EditedBy(RemoveField(id)));
      RemovedIds(xs[1..], id);
      assert m[0] == Edited(xs[0], RemoveField(id)) && m[1..] == MapSeq(xs[1..], EditedBy(RemoveField(id)));
      WithoutIds(xs[0].fields.GetOr([]), id);
      assert FieldIdsOf(m[0]) == MapSeq(Without(xs[0].fields.GetOr([]), id), FieldId);
    }
  }

  // ------------------------------------------------------------ handleAddField

  datatype AddOutcome = Ignored | AddThrows | FieldAdded(sections: seq<GbSection>)

  /**
   * `handleAddField`: nothing without a non-blank name and a selected
   * section; otherwise the new field is appended to every section the
   * two-level map reaches with the selected id.
   */
  function AddGbField(l: seq<GbSection>, form: GbFieldForm, selected: Option<string>, freshId: string): AddOutcome {
    if Trim(form.name) == [] || !Truthy(selected) then Ignored
    else
      var r := EditTwoLevels(l, selected.value, PushField(NewGbField(freshId, form)));
      if r.None? then AddThrows else FieldAdded(r.value)
  }

  /**
   * What adding a field does: it is ignored exactly without a name or a
   * selection; it throws exactly when a reached section lacks `fields`;
   * otherwise every section keeps its id and other keys, nothing below the
   * second level changes, each reached section gets the field at the end,
   * and the field id appears once more per reached section.
   */
  lemma {:induction false} AddGbFieldFacts(l: seq<GbSection>, form: GbFieldForm, selected: Option<string>, freshId: string)
    ensures AddGbField(l, form, selected, freshId).Ignored? <==> Trim(form.name) == [] || !Truthy(selected)
    ensures AddGbField(l, form, selected, freshId).AddThrows? <==>
              !(Trim(form.name) == [] || !Truthy(selected)) &&
              exists x :: x in Reached(l, selected.value) && x.fields.None?
    ensures AddGbField(l, form, selected, freshId).FieldAdded? ==>
              var r, id, f := AddGbField(l, form, selected, freshId).sections, selected.value, NewGbField(freshId, form);
              GbIds(r) == GbIds(l) && Collect(r, OwnKeys) == Collect(l, OwnKeys) &&
              Grandchildren(r) == Grandchildren(l) &&
              Reached(r, id) == MapSeq(Reached(l, id), EditedBy(PushField(f))) &&
              multiset(FieldIds(r)) == multiset(FieldIds(l)) + multiset(Copies(freshId, |Reached(l, id)|))
  {
    if !(Trim(form.name) == [] || !Truthy(selected)) {
      var id, f := selected.value, NewGbField(freshId, form);
      EditTwoLevelsFacts(l, id, PushField(f));
      if EditTwoLevels(l, id, PushField(f)).Some? {
        var r := EditTwoLevels(l, id, PushField(f)).value;
        EditTwoLevelsFields(l, id, PushField(f));
        PushedIds(Reached(l, id), f);
        Cancel(multiset(FieldIds(r)), multiset(FieldIds(l)), multiset(OwnFieldIds(Reached(l, id))),
               multiset(OwnFieldIds(Reached(r, id))), multiset(Copies(freshId, |Reached(l, id)|)));
      }
    }
  }

  // ------------------------------------------------------------ deleteField

  /** `deleteField`: the field id is removed from every section the two-level map reaches; None when it throws. */
  function DeleteGbField(l: seq<GbSection>, sectionId: string, fieldId: string): Option<seq<GbSection>> {
    EditTwoLevels(l, sectionId, RemoveField(fieldId))
  }

  /**
   * What deleting a field does: it throws exactly when a reached section
   * lacks `fields`; otherwise every section keeps its id and other keys,
   * nothing below the second level changes, each reached section keeps
   * its other fields in order, no reached section keeps the field id, and
   * every other field id appears as often as before.
   */
  lemma {:induction false} DeleteGbFieldFacts(l: seq<GbSection>, sectionId: string, fieldId: string)
    ensures DeleteGbField(l, sectionId, fieldId).None? <==> exists x :: x in Reached(l, sectionId) && x.fields.None?
    ensures DeleteGbField(l, sectionId, fieldId).Some? ==>
              var r := DeleteGbField(l, sectionId, fieldId).value;
              GbIds(r) == GbIds(l) && Collect(r, OwnKeys) == Collect(l, OwnKeys) &&
              Grandchildren(r) == Grandchildren(l) &&
              Reached(r, sectionId) == MapSeq(Reached(l, sectionId), EditedBy(RemoveField(fieldId))) &&
              fieldId !in OwnFieldIds(Reached(r, sectionId)) &&
              (forall x :: x != fieldId ==> multiset(FieldIds(r))[x] == multiset(FieldIds(l))[x]) &&
              multiset(FieldIds(r))[fieldId] + multiset(OwnFieldIds(Reached(l, sectionId)))[fieldId] == multiset(FieldIds(l))[fieldId]
  {
    var e := RemoveField(fieldId);
    EditTwoLevelsFacts(l, sectionId, e);
    if EditTwoLevels(l, sectionId, e).Some? {
      var r := EditTwoLevels(l, sectionId, e).value;
      EditTwoLevelsFields(l, sectionId, e);
      RemovedIds(Reached(l, sectionId), fieldId);
      var a, b := multiset(FieldIds(r)) + multiset(OwnFieldIds(Reached(l, sectionId))),
                  multiset(FieldIds(l)) + multiset(OwnFieldIds(Reached(r, sectionId)));
      assert a == b;
      assert multiset(OwnFieldIds(Reached(r, sectionId)))[fieldId] == 0;
      forall x | x != fieldId ensures multiset(FieldIds(r))[x] == multiset(FieldIds(l))[x] {
        assert a[x] == b[x];
      }
      assert a[fieldId] == b[fieldId];
    }
  }

  /** The fields left in a section after a removal are its fields in order, minus exactly those with the id. */
  lemma {:induction false} WithoutFacts(fs: seq<GbField>, id: string)
    ensures IsSubsequence(Without(fs, id), fs)
    ensures forall k :: 0 <= k < |Without(fs, id)| ==> Without(fs, id)[k].id != id
    ensures forall f :: f in fs && f.id != id ==> f in Without(fs, id)
  {
    FilterIsOrderedSelection(fs, FieldIdIsNot(id));
  }

  // ------------------------------------------------------------ undoing an addition

  /** Editing the edited forest with an edit that undoes the first gives the forest back. */
  lemma {:induction false} EditSubsUndo(subs: seq<GbSection>, id: string, e1: seq<GbField> -> seq<GbField>, e2: seq<GbField> -> seq<GbField>)
    requires EditSubs(subs, id, e1).Some?
    requires forall x :: x in Filter(subs, IdIs(id)) ==> x.fields.Some? && e2(e1(x.fields.value)) == x.fields.value
    ensures EditSubs(EditSubs(subs, id, e1).value, id, e2) == Some(subs)
  {
    if subs != [] {
      var x, t := subs[0], EditSubs(subs[1..], id, e1).value;
      var h := if x.id == id then Edited(x, e1) else x;
      assert Filter(subs, IdIs(id)) == (if x.id == id then [x] else []) + Filter(subs[1..], IdIs(id));
      EditSubsUndo(subs[1..], id, e1, e2);
      var c := EditSubs(subs, id, e1).value;
      assert c == [h] + t && c[0] == h && c[1..] == t;
      if x.id == id {
        assert Edited(h, e2) == x;
      }
      HeadTail(subs);
    }
  }

  lemma {:induction false} EditTopUndo(s: GbSection, id: string, e1: seq<GbField> -> seq<GbField>, e2: seq<GbField> -> seq<GbField>)
    requires EditTop(s, id, e1).Some?
    requires forall x :: x in ReachedIn(s, id) ==> x.fields.Some? && e2(e1(x.fields.value)) == x.fields.value
    ensures EditTop(EditTop(s, id, e1).value, id, e2) == Some(s)
  {
    if s.id == id {
      assert s in ReachedIn(s, id);
      assert Edited(Edited(s, e1), e2) == s;
    } else if s.Parent? {
      EditSubsUndo(s.subsections, id, e1, e2);
    }
  }

  lemma {:induction false} EditTwoLevelsUndo(l: seq<GbSection>, id: string, e1: seq<GbField> -> seq<GbField>, e2: seq<GbField> -> seq<GbField>)
    requires EditTwoLevels(l, id, e1).Some?
    requires forall x :: x in Reached(l, id) ==> x.fields.Some? && e2(e1(x.fields.value)) == x.fields.value
    ensures EditTwoLevels(EditTwoLevels(l, id, e1).value, id, e2) == Some(l)
  {
    if l != [] {
      var h, t := EditTop(l[0], id, e1).value, EditTwoLevels(l[1..], id, e1).value;
      assert forall x :: x in ReachedIn(l[0], id) || x in Reached(l[1..], id) ==> x in Reached(l, id);
      EditTopUndo(l[0], id, e1, e2);
      EditTwoLevelsUndo(l[1..], id, e1, e2);
      var r := EditTwoLevels(l, id, e1).value;
      assert r == [h] + t && r[0] == h && r[1..] == t;
      HeadTail(l);
    }
  }

  /** Removing a field id that a list did not hold, after appending a field with it, gives the list back. */
  lemma {:induction false} WithoutPushed(fs: seq<GbField>, f: GbField)
    requires forall k :: 0 <= k < |fs| ==> fs[k].id != f.id
    ensures Without(Pushed(fs, f), f.id) == fs
  {
    FilterConcat(fs, [f], FieldIdIsNot(f.id));
    FilterAllKept(fs, FieldIdIsNot(f.id));
    assert Filter([f], FieldIdIsNot(f.id)) == [];
  }

  /** Deleting a just-added field, whose id no reached section held, undoes the addition. */
  lemma {:induction false} DeleteUndoesAdd(l: seq<GbSection>, form: GbFieldForm, selected: Option<string>, freshId: string)
    requires AddGbField(l, form, selected, freshId).FieldAdded?
    requires forall x :: x in Reached(l, selected.value) ==> freshId !in FieldIdsOf(x)
    ensures DeleteGbField(AddGbField(l, form, selected, freshId).sections, selected.value, freshId) == Some(l)
  {
    var id, f := selected.value, NewGbField(freshId, form);
    EditTwoLevelsFacts(l, id, PushField(f));
    forall x | x in Reached(l, id) ensures x.fields.Some? && RemoveField(freshId)(PushField(f)(x.fields.value)) == x.fields.value {
      forall k | 0 <= k < |x.fields.value| ensures x.fields.value[k].id != f.id {
        assert FieldIdsOf(x)[k] == x.fields.value[k].id;
      }
      WithoutPushed(x.fields.value, f);
    }
    EditTwoLevelsUndo(l, id, PushField(f), RemoveField(freshId));
  }

  // ------------------------------------------------------------ sections

  /** `handleAddSection`: a non-blank name appends a new empty top-level section. */
  function AddGbSection(l: seq<GbSection>, form: GbSectionForm, freshId: string): seq<GbSection> {
    if Trim(form.name) == [] then l
    else l + [Bare(freshId, form.name, Some(form.description), "section", None, Some([]))]
  }

  function IdIsNot(id: string): GbSection -> bool {
    (s: GbSection) => s.id != id
  }

  function SectionId(s: GbSection): string {
    s.id
  }

  /** The ids of the top-level sections. */
  function TopIds(l: seq<GbSection>): seq<string> {
    MapSeq(l, SectionId)
  }

  /** `deleteSection`: only the top-level list is filtered. */
  function DeleteGbSection(l: seq<GbSection>, id: string): seq<GbSection> {
    Filter(l, IdIsNot(id))
  }

  /**
   * Deleting a section keeps, in order, exactly the top-level sections with
   * another id, each with everything below it; a nested section with the
   * id is not reached, so with no top-level match nothing changes.
   */
  lemma {:induction false} DeleteGbSectionFacts(l: seq<GbSection>, id: string)
    ensures IsSubsequence(DeleteGbSection(l, id), l)
    ensures forall k :: 0 <= k < |DeleteGbSection(l, id)| ==> DeleteGbSection(l, id)[k].id != id
    ensures forall s :: s in l && s.id != id ==> s in DeleteGbSection(l, id)
    ensures id !in TopIds(l) ==> DeleteGbSection(l, id) == l
  {
    FilterIsOrderedSelection(l, IdIsNot(id));
    if id !in TopIds(l) {
      assert forall k :: 0 <= k < |l| ==> TopIds(l)[k] == l[k].id;
      FilterAllKept(l, IdIsNot(id));
    }
  }

  /**
   * Adding a section with a non-blank name puts it last and keeps the list
   * before it; deleting it again gives back what deleting its id from the
   * old list gives, which is the old list when the id is new at the top.
   */
  lemma {:induction false} AddGbSectionFacts(l: seq<GbSection>, form: GbSectionForm, freshId: string)
    ensures Trim(form.name) == [] ==> AddGbSection(l, form, freshId) == l
    ensures Trim(form.name) != [] ==>
              var r := AddGbSection(l, form, freshId);
              |r| == |l| + 1 && r[..|l|] == l && r[|l|].id == freshId && r[|l|].fields == Some([]) &&
              r[|l|].name == form.name && r[|l|].kind == "section" && Subs(r[|l|]) == []
    ensures DeleteGbSection(AddGbSection(l, form, freshId), freshId) == DeleteGbSection(l, freshId)
    ensures freshId !in TopIds(l) ==> DeleteGbSection(AddGbSection(l, form, freshId), freshId) == l
  {
    var s := Bare(freshId, form.name, Some(form.description), "section", None, Some([]));
    FilterConcat(l, [s], IdIsNot(freshId));
    assert Filter([s], IdIsNot(freshId)) == [];
    DeleteGbSectionFacts(l, freshId);
  }

  // ------------------------------------------------------------ the initial form

  function InitialField(id: string, name: string, dataType: string, required: bool, repeated: bool): GbField {
    GbField(id, name, Some(""), dataType, Some(""), Some(required), Some(repeated), Some(""), Some([]))
  }

  function InitialSection(id: string, name: string, disabled: Option<bool>, fields: seq<GbField>): GbSection {
    Bare(id, name, Some(""), "section", disabled, Some(fields))
  }

  /** The sections the builder starts with. */
  const InitialGbSections: seq<GbSection> := [
    InitialSection("chief-complaint", "Chief Complaint", None, [
      InitialField("field-location", "Location", "dropdown", true, true),
      InitialField("field-severity", "Severity", "dropdown", false, false),
      InitialField("field-complaints", "Complaints", "textarea", false, false)]),
    InitialSection("hpi", "HPI", None, []),
    InitialSection("allergies", "Allergies", Some(true), []),
    InitialSection("medications", "Medications", None, []),
    InitialSection("medical-history", "Medical History", None, []),
    InitialSection("surgical-history", "Surgical History", None, []),
    InitialSection("treatment-experience", "Treatment Experience", None, []),
    InitialSection("family-history", "Family History", Some(true), []),
    Parent("social-history", "Social History", Some(""), "category", None, None, [
      InitialSection("sh-substance", "SH: Substance Use", None, []),
      InitialSection("sh-lifestyle", "SH: Lifestyle", None, [])])
  ]

  lemma {:induction false} ReachedConcat(a: seq<GbSection>, b: seq<GbSection>, id: string)
    ensures Reached(a + b, id) == Reached(a, id) + Reached(b, id)
  {
    if a == [] {
      assert a + b == b;
    } else {
      assert (a + b)[0] == a[0] && (a + b)[1..] == a[1..] + b;
      ReachedConcat(a[1..], b, id);
    }
  }

  /** Top-level sections without subsections and with other ids are not reached. */
  lemma {:induction false} ReachedNone(l: seq<GbSection>, id: string)
    requires forall k :: 0 <= k < |l| ==> l[k].id != id && l[k].Bare?
    ensures Reached(l, id) == []
  {
    if l != [] {
      ReachedNone(l[1..], id);
    }
  }

  /** A top-level section with the id is reached. */
  lemma {:induction false} ReachedTop(l: seq<GbSection>, k: nat, id: string)
    requires k < |l| && l[k].id == id
    ensures l[k] in Reached(l, id)
  {
    if k > 0 {
      ReachedTop(l[1..], k - 1, id);
    }
  }

  /** A section whose `fields` key is absent makes adding a field to it throw when it is top-level. */
  lemma {:induction false} AddToFieldlessThrows(l: seq<GbSection>, k: nat, form: GbFieldForm, freshId: string)
    requires k < |l| && l[k].fields.None? && Truthy(Some(l[k].id)) && Trim(form.name) != []
    ensures AddGbField(l, form, Some(l[k].id), freshId).AddThrows?
  {
    ReachedTop(l, k, l[k].id);
    AddGbFieldFacts(l, form, Some(l[k].id), freshId);
  }

  lemma {:induction false} TopIdListed(l: seq<GbSection>, k: nat)
    requires k < |l|
    ensures l[k].id in GbIds(l)
  {
    if k > 0 {
      TopIdListed(l[1..], k - 1);
    }
  }

  /** A direct subsection's id is among the forest's ids. */
  lemma {:induction false} SubIdListed(l: seq<GbSection>, k: nat, j: nat)
    requires k < |l| && j < |Subs(l[k])|
    ensures Subs(l[k])[j].id in GbIds(l)
  {
    if k > 0 {
      SubIdListed(l[1..], k - 1, j);
    } else {
      TopIdListed(Subs(l[0]), j);
    }
  }

  /**
   * The initial form: its Social History category has no `fields` key, so
   * adding a field to it throws (AddToFieldlessThrows), and its first
   * subsection is in the form.
   */
  lemma {:induction false} InitialCategory()
    ensures InitialGbSections[8].id == "social-history" && InitialGbSections[8].kind == "category"
    ensures InitialGbSections[8].fields.None?
    ensures Subs(InitialGbSections[8])[0].id == "sh-substance"
    ensures "sh-substance" in GbIds(InitialGbSections)
  {
    SubIdListed(InitialGbSections, 8, 0);
  }

  /** Deleting that subsection of the initial form does nothing: `deleteSection` sees only the top level. */
  lemma {:induction false} DeleteInitialSubsectionIgnored()
    ensures DeleteGbSection(InitialGbSections, "sh-substance") == InitialGbSections
  {
    InitialTopIdsDiffer();
    FilterAllKept(InitialGbSections, IdIsNot("sh-substance"));
  }

  lemma {:induction false} InitialTopIdsDiffer()
    ensures forall k :: 0 <= k < |InitialGbSections| ==> InitialGbSections[k].id != "sh-substance"
  {
  }
}
