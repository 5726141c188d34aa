/**
 * The tree edits of the form builder in src/SimpleApp.tsx, written as
 * functions on the section list. Each one is what a handler passes to
 * `setSections`. The lemmas describe each effect as an outline equation
 * (see SimpleTree.Outline): which section changes and how, and that nothing
 * else does.
 */
module SimpleEdit {

  import opened Common
  import opened Text
  import opened SimpleTree

  // ---------------------------------------------------------------- categories

  /**
   * `addCategoryToSection` and, with the child's `parentId` set first,
   * `addSectionAsChild`: append a child to the section with the id.
   */
  function AddChild(l: seq<Section>, parent: string, child: Section): seq<Section> {
    UpdateWhere(l, parent, (s: Section) => s.(children := s.children + [child]))
  }

  /**
   * With distinct ids, the new child's whole tree enters the outline right
   * after the parent's subtree, one level below the parent. Nothing else
   * moves.
   */
  lemma {:induction false} AddChildOutline(l: seq<Section>, parent: string, child: Section)
    returns (before: seq<Entry>, d: nat, p: Section, after: seq<Entry>)
    requires DistinctIds(l) && HasId(l, parent)
    ensures p.id == parent && FindById(l, parent) == Some(p)
    ensures Outline(l, 0) == before + Outline([p], d) + after
    ensures Outline(AddChild(l, parent, child), 0) == before + Outline([p], d) + Outline([child], d + 1) + after
  {
    var f := (s: Section) => s.(children := s.children + [child]);
    before, d, p, after := UpdateWhereSplit(l, parent, f, 0);
    AppendChildOutline(p, child, d);
    assert f(p) == p.(children := p.children + [child]);
    RegroupPair(before, Outline([p], d), Outline([child], d + 1), after);
  }

  lemma {:induction false} AppendChildOutline(p: Section, child: Section, d: nat)
    ensures Outline([p.(children := p.children + [child])], d) == Outline([p], d) + Outline([child], d + 1)
  {
    var q := p.(children := p.children + [child]);
    OutlineCons([p], d);
    OutlineCons([q], d);
    OutlineConcat(p.children, [child], d + 1);
    assert Head(q) == Head(p);
  }

  /** Without a section carrying the parent id, adding a child changes nothing. */
  lemma {:induction false} AddChildMissingParent(l: seq<Section>, parent: string, child: Section)
    requires !HasId(l, parent)
    ensures AddChild(l, parent, child) == l
  {
    UpdateWhereNoMatch(l, parent, (s: Section) => s.(children := s.children + [child]));
  }

  /** The category `handleAddCategory` builds from the prompted name. */
  function NewCategory(freshId: string, answer: string): (c: Section)
    ensures c.name == Trim(answer) && c.fields == [] && c.children == [] && c.parentId == None
  {
    Section(freshId, Trim(answer), "", "section", None, [], [], None)
  }

  /**
   * `handleAddCategory`: the prompt's answer (None when cancelled) names the
   * new category; an absent or blank answer adds nothing.
   */
  function AddCategory(l: seq<Section>, parent: string, answer: Option<string>, freshId: string): seq<Section> {
    if answer.Some? && !IsBlank(answer.value) then AddChild(l, parent, NewCategory(freshId, answer.value)) else l
  }

  // ---------------------------------------------------------------- renaming

  /** `updateSectionName`. */
  function SetName(l: seq<Section>, id: string, name: string): seq<Section> {
    UpdateWhere(l, id, (s: Section) => s.(name := name))
  }

  /**
   * `handleRenameCategory`: the section must exist, and the prompt's answer
   * must be present, not blank, and different from the current name once
   * trimmed. The trimmed answer is stored.
   */
  function RenameCategory(l: seq<Section>, id: string, answer: Option<string>): seq<Section> {
    var current := FindById(l, id);
    if current.Some? && answer.Some? && !IsBlank(answer.value) && Trim(answer.value) != current.value.name
    then SetName(l, id, Trim(answer.value))
    else l
  }

  /**
   * With distinct ids, an accepted rename changes exactly one outline entry,
   * that of the section with the id, and only its name.
   */
  lemma {:induction false} RenameCategoryRenamesOne(l: seq<Section>, id: string, answer: Option<string>) returns (k: nat)
    requires DistinctIds(l) && FindById(l, id).Some? && answer.Some? && !IsBlank(answer.value)
    requires Trim(answer.value) != FindById(l, id).value.name
    ensures k < |Outline(l, 0)| && Outline(l, 0)[k].node.id == id
    ensures Outline(RenameCategory(l, id, answer), 0)
            == Outline(l, 0)[k := Entry(Outline(l, 0)[k].depth, Outline(l, 0)[k].node.(name := Trim(answer.value)))]
  {
    FindByIdFinds(l, id);
    k := UpdateWhereEntry(l, id, (s: Section) => s.(name := Trim(answer.value)));
  }

  /** A rename to the current name, blank or cancelled, or of a missing section, changes nothing. */
  lemma {:induction false} RenameCategoryRejects(l: seq<Section>, id: string, answer: Option<string>)
    requires !HasId(l, id) || answer.None? || IsBlank(answer.value)
             || (FindById(l, id).Some? && Trim(answer.value) == FindById(l, id).value.name)
    ensures RenameCategory(l, id, answer) == l
  {
    FindByIdFinds(l, id);
  }

  // ---------------------------------------------------------------- fields

  /** The field modal's form state (`fieldForm`). */
  datatype FieldForm = FieldForm(
    name: string,
    description: string,
    dataType: string,
    length: string,
    required: bool,
    repeated: bool,
    defaultValue: string,
    dropdownOptions: string)

  /** The form after `setFieldForm` resets it. */
  const EmptyForm := FieldForm("", "", "text", "", false, false, "", "")

  /**
   * The field `handleAddField` builds. `repeated || false`, `defaultValue || ''`
   * and `dropdownOptions || ''` give back the form's own value, since the form
   * always holds a boolean and strings.
   */
  function NewField(freshId: string, form: FieldForm): Field {
    Field(Some(freshId), form.name, Some(form.description), form.dataType, form.length, form.required,
          Some(form.repeated), Some(form.defaultValue), Some(form.dropdownOptions))
  }

  /** `{ ...field, ...fieldForm }`: every key of the form overrides the field's; the id stays. */
  function Merge(x: Field, form: FieldForm): Field {
    x.(name := form.name, description := Some(form.description), dataType := form.dataType,
       length := form.length, required := form.required, repeated := Some(form.repeated),
       defaultValue := Some(form.defaultValue), dropdownOptions := Some(form.dropdownOptions))
  }

  /** The form the edit button fills from a field (absent keys become `''` or `false`). */
  function FormOf(x: Field): FieldForm {
    FieldForm(x.name, x.description.GetOr(""), x.dataType, x.length, x.required,
              x.repeated.GetOr(false), x.defaultValue.GetOr(""), x.dropdownOptions.GetOr(""))
  }

  /** A field added from a form equals any field with that id saved from the same form. */
  lemma {:induction false} NewFieldIsMerge(freshId: string, form: FieldForm, x: Field)
    requires x.id == Some(freshId)
    ensures NewField(freshId, form) == Merge(x, form)
  {
  }

  /**
   * Opening a field for editing and saving without changes only fills its
   * absent keys with their defaults. A field that has every key is kept as
   * it is, and a second such save changes nothing.
   */
  lemma {:induction false} EditWithoutChanges(x: Field)
    ensures Merge(x, FormOf(x)).id == x.id && FormOf(Merge(x, FormOf(x))) == FormOf(x)
    ensures Merge(Merge(x, FormOf(x)), FormOf(Merge(x, FormOf(x)))) == Merge(x, FormOf(x))
    ensures x.description.Some? && x.repeated.Some? && x.defaultValue.Some? && x.dropdownOptions.Some?
            ==> Merge(x, FormOf(x)) == x
  {
  }

  /** The inner map of `handleSaveEditField`: the form is merged into every field with the id. */
  function EditFields(fs: seq<Field>, fieldId: string, form: FieldForm): (r: seq<Field>)
    ensures |r| == |fs|
    ensures forall k :: 0 <= k < |fs| ==> r[k].id == fs[k].id
    ensures forall k :: 0 <= k < |fs| && fs[k].id != Some(fieldId) ==> r[k] == fs[k]
    ensures forall k :: 0 <= k < |fs| && fs[k].id == Some(fieldId) ==> FormOf(r[k]) == form
  {
    MapSeq(fs, (x: Field) => if x.id == Some(fieldId) then Merge(x, form) else x)
  }

  /**
   * The mappers that change the field list of the section with the id: add a
   * field, save an edited field, delete a field, and the halves of a field
   * drop.
   */
  function EditFieldsOf(l: seq<Section>, id: string, g: seq<Field> -> seq<Field>): seq<Section> {
    UpdateWhere(l, id, (s: Section) => s.(fields := g(s.fields)))
  }

  /**
   * With distinct ids, such an edit changes exactly one outline entry, that of
   * the section with the id, and in it only the field list. The section ids
   * are the same afterwards.
   */
  lemma {:induction false} EditFieldsOfOne(l: seq<Section>, id: string, g: seq<Field> -> seq<Field>) returns (k: nat)
    requires DistinctIds(l) && HasId(l, id)
    ensures k < |Outline(l, 0)| && Outline(l, 0)[k].node.id == id
    ensures Outline(EditFieldsOf(l, id, g), 0)
            == Outline(l, 0)[k := Entry(Outline(l, 0)[k].depth, Outline(l, 0)[k].node.(fields := g(Outline(l, 0)[k].node.fields)))]
    ensures AllIds(EditFieldsOf(l, id, g)) == AllIds(l)
    ensures FindById(l, id).Some? && Outline(l, 0)[k].node.fields == FindById(l, id).value.fields
  {
    k := UpdateWhereEntry(l, id, (s: Section) => s.(fields := g(s.fields)));
  }

  /** Where no section has the id, a field edit changes nothing. */
  lemma {:induction false} EditFieldsOfMissing(l: seq<Section>, id: string, g: seq<Field> -> seq<Field>)
    requires !HasId(l, id)
    ensures EditFieldsOf(l, id, g) == l
  {
    UpdateWhereNoMatch(l, id, (s: Section) => s.(fields := g(s.fields)));
  }

  /** `handleAddField`'s mapper: append the new field to the selected section. */
  function AddField(l: seq<Section>, id: string, x: Field): seq<Section> {
    EditFieldsOf(l, id, (fs: seq<Field>) => fs + [x])
  }

  /** `handleSaveEditField`'s mapper. */
  function SaveEditField(l: seq<Section>, id: string, fieldId: string, form: FieldForm): seq<Section> {
    EditFieldsOf(l, id, (fs: seq<Field>) => EditFields(fs, fieldId, form))
  }

  /** The inline delete button's mapper: drop the field at the index (`filter((_, i) => i !== fieldIndex)`). */
  function DeleteFieldAt(l: seq<Section>, id: string, index: nat): seq<Section> {
    EditFieldsOf(l, id, (fs: seq<Field>) => RemoveAt(fs, index))
  }

  /**
   * With distinct ids, adding a field appends it to the fields of the
   * selected section and changes no other part of the forest.
   */
  lemma {:induction false} AddFieldAppends(l: seq<Section>, id: string, x: Field) returns (k: nat)
    requires DistinctIds(l) && HasId(l, id)
    ensures FindById(l, id).Some?
    ensures k < |Outline(l, 0)| && Outline(l, 0)[k].node.id == id
    ensures Outline(AddField(l, id, x), 0)
            == Outline(l, 0)[k := Entry(Outline(l, 0)[k].depth, Outline(l, 0)[k].node.(fields := FindById(l, id).value.fields + [x]))]
  {
    k := EditFieldsOfOne(l, id, (fs: seq<Field>) => fs + [x]);
  }

  /**
   * With distinct ids, saving an edited field merges the form into the
   * fields with that id, in the selected section only.
   */
  lemma {:induction false} SaveEditFieldUpdates(l: seq<Section>, id: string, fieldId: string, form: FieldForm) returns (k: nat)
    requires DistinctIds(l) && HasId(l, id)
    ensures FindById(l, id).Some?
    ensures k < |Outline(l, 0)| && Outline(l, 0)[k].node.id == id
    ensures Outline(SaveEditField(l, id, fieldId, form), 0)
            == Outline(l, 0)[k := Entry(Outline(l, 0)[k].depth,
                 Outline(l, 0)[k].node.(fields := EditFields(FindById(l, id).value.fields, fieldId, form)))]
  {
    k := EditFieldsOfOne(l, id, (fs: seq<Field>) => EditFields(fs, fieldId, form));
  }

  /**
   * With distinct ids, the inline delete removes the field at the index from
   * the section, and nothing else. An index past the end removes nothing.
   */
  lemma {:induction false} DeleteFieldAtRemoves(l: seq<Section>, id: string, index: nat) returns (k: nat)
    requires DistinctIds(l) && HasId(l, id)
    ensures FindById(l, id).Some?
    ensures k < |Outline(l, 0)| && Outline(l, 0)[k].node.id == id
    ensures Outline(DeleteFieldAt(l, id, index), 0)
            == Outline(l, 0)[k := Entry(Outline(l, 0)[k].depth,
                 Outline(l, 0)[k].node.(fields := RemoveAt(FindById(l, id).value.fields, index)))]
  {
    k := EditFieldsOfOne(l, id, (fs: seq<Field>) => RemoveAt(fs, index));
  }

  // ---------------------------------------------------------------- field drag and drop

  /**
   * Where a field dragged within its own section lands in
   * `updateSectionsForReorder`. The drop zone index counts the field itself,
   * which is removed first, so a later index moves back by one.
   */
  function ReorderIndex(from: nat, to: nat): nat {
    if to > from then to - 1 else to
  }

  /** Remove the field at `from`, then insert it at ReorderIndex(from, to) (`splice` clamps). */
  function MoveField(fs: seq<Field>, from: nat, to: nat): seq<Field>
    requires from < |fs|
  {
    InsertAt(RemoveAt(fs, from), ReorderIndex(from, to), fs[from])
  }

  /**
   * The moved field sits at ReorderIndex(from, to), capped at the last index.
   * Taking it out again leaves the other fields in their old order. So the
   * move is a permutation.
   */
  lemma {:induction false} MoveFieldPlacement(fs: seq<Field>, from: nat, to: nat) returns (dest: nat)
    requires from < |fs|
    ensures dest == if ReorderIndex(from, to) < |fs| - 1 then ReorderIndex(from, to) else |fs| - 1
    ensures |MoveField(fs, from, to)| == |fs| && MoveField(fs, from, to)[dest] == fs[from]
    ensures RemoveAt(MoveField(fs, from, to), dest) == RemoveAt(fs, from)
    ensures multiset(MoveField(fs, from, to)) == multiset(fs)
  {
    dest := if ReorderIndex(from, to) < |fs| - 1 then ReorderIndex(from, to) else |fs| - 1;
    RemoveInserted(RemoveAt(fs, from), ReorderIndex(from, to), fs[from]);
    RemoveAtMultiset(fs, from);
    InsertAtMultiset(RemoveAt(fs, from), ReorderIndex(from, to), fs[from]);
  }

  /** Dropping a field on the zone above itself or above its successor leaves the order alone. */
  lemma {:induction false} MoveFieldOntoItself(fs: seq<Field>, from: nat)
    requires from < |fs|
    ensures MoveField(fs, from, from) == fs && MoveField(fs, from, from + 1) == fs
  {
    assert fs == fs[..from] + [fs[from]] + fs[from + 1..];
  }

  /** `updateSectionsForReorder` on its copy of the field list: two splices on one array. */
  method ReorderFields(fs: seq<Field>, from: nat, to: nat) returns (r: seq<Field>)
    requires from < |fs|
    ensures r == MoveField(fs, from, to)
  {
    r := SpliceMoveCopy(fs, from, ReorderIndex(from, to));
  }

  /**
   * `handleFieldDrop` after its `draggedField` check: the field at index `from`
   * of section `source` is dropped on section `target`, at drop zone `to`.
   * `to` is None when the optional index is omitted; no call site omits it,
   * since the field area and the end zone both pass the field count.
   * An invalid source changes nothing. A drop with an index inside the source
   * section is a reorder, of the field the first section with the id holds.
   * Anything else removes the field from the source and inserts it into the
   * target, appending when there is no index. The field inserted is the one
   * `removeFieldFromSection` reports, and nothing is committed when it reports
   * none.
   */
  function FieldDrop(l: seq<Section>, source: string, from: nat, target: string, to: Option<nat>): seq<Section> {
    var src := FindById(l, source);
    if src.None? || from >= |src.value.fields| then l
    else if source == target && to.Some? then ReorderFieldIn(l, source, from, to.value, src.value.fields[from])
    else
      var removed := RemovedField(l, source, from);
      if removed.None? then l else MoveFieldTo(l, source, from, target, to, removed.value)
  }

  /**
   * The `removedField` of `removeFieldFromSection`. Its map visits the
   * sections as `findAndRemoveSection` does, not searching below a match, and
   * overwrites `removedField` at every match, so it holds the field at `from`
   * of the last match `RemoveSection` reports; None when that section has no
   * field there.
   */
  function RemovedField(l: seq<Section>, source: string, from: nat): Option<Field> {
    var last := RemoveSection(l, source).removed;
    if last.Some? && from < |last.value.fields| then Some(last.value.fields[from]) else None
  }

  /** With distinct ids the last match is the section found, so the field removed is the field checked. */
  lemma {:induction false} RemovedFieldIsFound(l: seq<Section>, source: string, from: nat)
    requires DistinctIds(l) && ValidFieldSource(l, source, from)
    ensures RemovedField(l, source, from) == Some(FindById(l, source).value.fields[from])
  {
    FindByIdFinds(l, source);
    var _, _, _ := RemoveSectionSplit(l, source, 0);
  }

  /**
   * With two sections sharing the source id, the move takes the second one's
   * field, and commits nothing when the second has no field at the index,
   * although the first, which passed the check, has one.
   */
  lemma {:induction false} FieldDropDuplicateSource(x: Section, y: Section, rest: seq<Section>, from: nat, target: string, to: Option<nat>)
    requires x.id == y.id && from < |x.fields| && !HasId(rest, x.id) && !(x.id == target && to.Some?)
    ensures ValidFieldSource([x, y] + rest, x.id, from)
    ensures RemovedField([x, y] + rest, x.id, from) == (if from < |y.fields| then Some(y.fields[from]) else None)
    ensures from >= |y.fields| ==> FieldDrop([x, y] + rest, x.id, from, target, to) == [x, y] + rest
  {
    var l := [x, y] + rest;
    assert l[1..] == [y] + rest && l[1..][1..] == rest;
    RemoveNoMatch(rest, x.id);
    assert RemoveSection(l[1..], x.id).removed == Some(y);
    assert RemoveSection(l, x.id).removed == Some(y);
  }

  /** The reorder branch: `moving`, the field at `from`, is taken out and put back at the adjusted index. */
  function ReorderFieldIn(l: seq<Section>, source: string, from: nat, to: nat, moving: Field): seq<Section> {
    EditFieldsOf(l, source, (fs: seq<Field>) => InsertAt(RemoveAt(fs, from), ReorderIndex(from, to), moving))
  }

  /** The move branch: `moving` leaves the source's list and enters the target's at the index or at the end. */
  function MoveFieldTo(l: seq<Section>, source: string, from: nat, target: string, to: Option<nat>, moving: Field): seq<Section> {
    var rest := EditFieldsOf(l, source, (fs: seq<Field>) => RemoveAt(fs, from));
    EditFieldsOf(rest, target, (fs: seq<Field>) => InsertAt(fs, to.GetOr(|fs|), moving))
  }

  /** A valid source field: the section exists and has a field at the index. */
  predicate ValidFieldSource(l: seq<Section>, source: string, from: nat) {
    FindById(l, source).Some? && from < |FindById(l, source).value.fields|
  }

  /** A reorder within one section changes only that section's field list, by MoveField. */
  lemma {:induction false} FieldDropReorders(l: seq<Section>, source: string, from: nat, to: nat) returns (k: nat)
    requires DistinctIds(l) && ValidFieldSource(l, source, from)
    ensures k < |Outline(l, 0)| && Outline(l, 0)[k].node.id == source
    ensures from < |Outline(l, 0)[k].node.fields|
    ensures Outline(FieldDrop(l, source, from, source, Some(to)), 0)
            == Outline(l, 0)[k := Entry(Outline(l, 0)[k].depth,
                                        Outline(l, 0)[k].node.(fields := MoveField(Outline(l, 0)[k].node.fields, from, to)))]
  {
    FindByIdFinds(l, source);
    var moving := FindById(l, source).value.fields[from];
    ReorderDropIsFieldIn(l, source, from, to, FindById(l, source).value);
    k := ReorderFieldInOne(l, source, from, to, moving);
    var n := Outline(l, 0)[k].node;
    assert MoveField(n.fields, from, to) == InsertAt(RemoveAt(n.fields, from), ReorderIndex(from, to), moving);
  }

  /** With a valid source and an index, the drop takes the reorder branch. */
  lemma {:induction false} ReorderDropIsFieldIn(l: seq<Section>, source: string, from: nat, to: nat, s: Section)
    requires FindById(l, source) == Some(s) && from < |s.fields|
    ensures FieldDrop(l, source, from, source, Some(to)) == ReorderFieldIn(l, source, from, to, s.fields[from])
  {
    var src := FindById(l, source);
    assert !(src.None? || from >= |src.value.fields|);
  }

  /** The reorder branch changes the one outline entry of the source section. */
  lemma {:induction false} ReorderFieldInOne(l: seq<Section>, source: string, from: nat, to: nat, moving: Field) returns (k: nat)
    requires DistinctIds(l) && HasId(l, source)
    ensures k < |Outline(l, 0)| && Outline(l, 0)[k].node.id == source
    ensures FindById(l, source).Some? && Outline(l, 0)[k].node.fields == FindById(l, source).value.fields
    ensures var n := Outline(l, 0)[k].node;
            Outline(ReorderFieldIn(l, source, from, to, moving), 0)
            == Outline(l, 0)[k := Entry(Outline(l, 0)[k].depth,
                                        n.(fields := InsertAt(RemoveAt(n.fields, from), ReorderIndex(from, to), moving)))]
  {
    k := EditFieldsOfOne(l, source, (fs: seq<Field>) => InsertAt(RemoveAt(fs, from), ReorderIndex(from, to), moving));
  }

  /**
   * A drop into another existing section moves the field: it leaves the
   * source's list and is inserted into the target's at the index, or appended
   * when there is none. No other entry changes.
   */
  lemma {:induction false} FieldDropMoves(l: seq<Section>, source: string, from: nat, target: string, to: Option<nat>) returns (ks: nat, kt: nat)
    requires DistinctIds(l) && ValidFieldSource(l, source, from)
    requires source != target && HasId(l, target)
    ensures ks < |Outline(l, 0)| && kt < |Outline(l, 0)| && ks != kt
    ensures Outline(l, 0)[ks].node.id == source && Outline(l, 0)[kt].node.id == target
    ensures from < |Outline(l, 0)[ks].node.fields|
    ensures var ol := Outline(l, 0);
            var fs := ol[ks].node.fields;
            var ft := ol[kt].node.fields;
            Outline(FieldDrop(l, source, from, target, to), 0)
            == ol[ks := Entry(ol[ks].depth, ol[ks].node.(fields := RemoveAt(fs, from)))]
                 [kt := Entry(ol[kt].depth, ol[kt].node.(fields := InsertAt(ft, to.GetOr(|ft|), fs[from])))]
  {
    FindByIdFinds(l, source);
    RemovedFieldIsFound(l, source, from);
    var moving := FindById(l, source).value.fields[from];
    var g1 := (fs: seq<Field>) => RemoveAt(fs, from);
    var g2 := (fs: seq<Field>) => InsertAt(fs, to.GetOr(|fs|), moving);
    var rest := EditFieldsOf(l, source, g1);
    ks := EditFieldsOfOne(l, source, g1);
    kt := EditFieldsOfOne(rest, target, g2);
    var ol, orest := Outline(l, 0), Outline(rest, 0);
    assert orest[ks].node.id == source;
    assert kt != ks;
    assert orest[kt] == ol[kt];
  }

  /** A drop on the field's own section with no index moves the field to the end of the list, as the move branch does. */
  lemma {:induction false} FieldDropToOwnSectionEnd(l: seq<Section>, source: string, from: nat) returns (k: nat)
    requires DistinctIds(l) && ValidFieldSource(l, source, from)
    ensures k < |Outline(l, 0)| && Outline(l, 0)[k].node.id == source
    ensures from < |Outline(l, 0)[k].node.fields|
    ensures var n := Outline(l, 0)[k].node;
            Outline(FieldDrop(l, source, from, source, None), 0)
            == Outline(l, 0)[k := Entry(Outline(l, 0)[k].depth, n.(fields := RemoveAt(n.fields, from) + [n.fields[from]]))]
  {
    FindByIdFinds(l, source);
    RemovedFieldIsFound(l, source, from);
    var moving := FindById(l, source).value.fields[from];
    var to: Option<nat> := None;
    var g1 := (fs: seq<Field>) => RemoveAt(fs, from);
    var g2 := (fs: seq<Field>) => InsertAt(fs, to.GetOr(|fs|), moving);
    k := EditFieldsTwice(l, source, g1, g2);
  }

  /** Two field edits of the same section change its one outline entry by their composition. */
  lemma {:induction false} EditFieldsTwice(l: seq<Section>, id: string, g1: seq<Field> -> seq<Field>, g2: seq<Field> -> seq<Field>) returns (k: nat)
    requires DistinctIds(l) && HasId(l, id)
    ensures k < |Outline(l, 0)| && Outline(l, 0)[k].node.id == id
    ensures FindById(l, id).Some? && Outline(l, 0)[k].node.fields == FindById(l, id).value.fields
    ensures var n := Outline(l, 0)[k].node;
            Outline(EditFieldsOf(EditFieldsOf(l, id, g1), id, g2), 0)
            == Outline(l, 0)[k := Entry(Outline(l, 0)[k].depth, n.(fields := g2(g1(n.fields))))]
  {
    var rest := EditFieldsOf(l, id, g1);
    var ol := Outline(l, 0);
    k := EditFieldsOfOne(l, id, g1);
    var n := ol[k].node;
    var e1 := Entry(ol[k].depth, n.(fields := g1(n.fields)));
    var e2 := Entry(ol[k].depth, n.(fields := g2(g1(n.fields))));
    var k2 := EditFieldsOfOne(rest, id, g2);
    assert k2 == k by {
      EntryIndexUnique(rest, k, k2);
    }
    assert ol[k := e1][k := e2] == ol[k := e2];
  }

  /** A drop with no index and a drop at index `fields.length` (what the field area and the end zone pass) give the same tree. */
  lemma {:induction false} FieldDropEndZoneAgrees(l: seq<Section>, source: string, from: nat)
    requires DistinctIds(l) && ValidFieldSource(l, source, from)
    ensures FieldDrop(l, source, from, source, None)
            == FieldDrop(l, source, from, source, Some(|FindById(l, source).value.fields|))
  {
    var n := |FindById(l, source).value.fields|;
    var r1, r2 := FieldDrop(l, source, from, source, None), FieldDrop(l, source, from, source, Some(n));
    assert Outline(r1, 0) == Outline(r2, 0) by {
      var k1 := FieldDropToOwnSectionEnd(l, source, from);
      var k2 := FieldDropReorders(l, source, from, n);
      EntryIndexUnique(l, k1, k2);
      var fs := Outline(l, 0)[k1].node.fields;
      assert |fs| == n by {
        FindByIdFinds(l, source);
        var k3 := EditFieldsOfOne(l, source, (xs: seq<Field>) => xs);
        EntryIndexUnique(l, k1, k3);
      }
      assert MoveField(fs, from, n) == RemoveAt(fs, from) + [fs[from]];
    }
    OutlineDeterminesForest(r1, r2);
  }

  /**
   * A drop on a section that does not exist loses the field: it is removed
   * from the source and inserted nowhere.
   */
  lemma {:induction false} FieldDropToMissingSection(l: seq<Section>, source: string, from: nat, target: string, to: Option<nat>) returns (ks: nat)
    requires DistinctIds(l) && ValidFieldSource(l, source, from)
    requires source != target && !HasId(l, target)
    ensures ks < |Outline(l, 0)| && Outline(l, 0)[ks].node.id == source
    ensures var n := Outline(l, 0)[ks].node;
            Outline(FieldDrop(l, source, from, target, to), 0)
            == Outline(l, 0)[ks := Entry(Outline(l, 0)[ks].depth, n.(fields := RemoveAt(n.fields, from)))]
  {
    FindByIdFinds(l, source);
    RemovedFieldIsFound(l, source, from);
    var moving := FindById(l, source).value.fields[from];
    var g1 := (fs: seq<Field>) => RemoveAt(fs, from);
    var rest := EditFieldsOf(l, source, g1);
    ks := EditFieldsOfOne(l, source, g1);
    EditFieldsOfMissing(rest, target, (fs: seq<Field>) => InsertAt(fs, to.GetOr(|fs|), moving));
  }

  // ---------------------------------------------------------------- locating sections

  lemma {:induction false} InTreeInIds(l: seq<Section>, j: nat, x: string)
    requires j < |l|
    ensures InTree(l[j], x) ==> HasId(l, x)
  {
    if j > 0 {
      InTreeInIds(l[1..], j - 1, x);
    }
  }

  /** With distinct ids, no id is in the trees of two different roots. */
  lemma {:induction false} RootTreesDisjoint(l: seq<Section>, x: string, i: nat, j: nat)
    requires DistinctIds(l) && i < |l| && j < |l| && i != j && InTree(l[i], x)
    ensures !InTree(l[j], x)
  {
    DistinctParts(l);
    if i == 0 {
      InTreeInIds(l[1..], j - 1, x);
    } else if j == 0 {
      InTreeInIds(l[1..], i - 1, x);
    } else {
      RootTreesDisjoint(l[1..], x, i - 1, j - 1);
    }
  }

  /** With distinct ids, a root's own id does not recur below it, and the ids below it are distinct. */
  lemma {:induction false} RootAboveItsTree(l: seq<Section>, i: nat)
    requires DistinctIds(l) && i < |l|
    ensures !HasId(l[i].children, l[i].id) && DistinctIds(l[i].children)
  {
    DistinctParts(l);
    if i > 0 {
      RootAboveItsTree(l[1..], i - 1);
    }
  }

  /** With distinct ids, no child of one root carries the id of another root. */
  lemma {:induction false} ChildIsNoOtherRoot(l: seq<Section>, i: nat, j: nat, k: nat)
    requires DistinctIds(l) && i < |l| && j < |l| && i != j && k < |l[j].children|
    ensures l[j].children[k].id != l[i].id
  {
    var x := l[j].children[k].id;
    InTreeInIds(l[j].children, k, x);
    RootTreesDisjoint(l, l[i].id, i, j);
  }

  /**
   * With distinct ids: `findSectionWithParent` from the root, for a section
   * whose tree lies under root i, reports root i as the parent, or no
   * parent when the section is root i itself.
   */
  lemma {:induction false} LocateUnderRoot(l: seq<Section>, i: nat, x: string)
    requires DistinctIds(l) && i < |l| && InTree(l[i], x)
    ensures FindById(l, x).Some?
    ensures l[i].id == x ==> FindWithParent(l, x, None) == Located(Some(l[i]), None)
    ensures l[i].id != x ==> FindWithParent(l, x, None) == Located(FindById(l[i].children, x), Some(l[i]))
    ensures l[i].id != x ==> FindById(l[i].children, x).Some?
  {
    InTreeInIds(l, i, x);
    FindByIdFinds(l, x);
    FindByIdFinds(l[i].children, x);
    var i' := FindWithParentIsTopAncestor(l, x);
    if i' != i {
      RootTreesDisjoint(l, x, i, i');
    }
  }

  /** A section that is not in the tree is reported as not found, with no parent. */
  lemma {:induction false} LocateMissing(l: seq<Section>, x: string, p: Option<string>)
    requires !HasId(l, x)
    ensures FindWithParent(l, x, p) == Located(None, None)
  {
    if l != [] {
      LocateMissing(l[0].children, x, Some(l[0].id));
      LocateMissing(l[1..], x, p);
    }
  }

  // ---------------------------------------------------------------- section drag and drop

  /** `children.findIndex(child => child.id === id)`, None for -1. */
  function IndexOfId(cs: seq<Section>, id: string): (r: Option<nat>)
    ensures r.Some? ==> r.value < |cs| && cs[r.value].id == id && forall j :: 0 <= j < r.value ==> cs[j].id != id
    ensures r.None? ==> forall j :: 0 <= j < |cs| ==> cs[j].id != id
  {
    if cs == [] then None
    else if cs[0].id == id then Some(0)
    else
      var r := IndexOfId(cs[1..], id);
      if r.Some? then Some(r.value + 1) else None
  }

  /**
   * The reorder step of `handleDrop` on one child list. When both are
   * children, the dragged child is taken out and reinserted at the index the
   * target had before the removal. Unlike the field reorder nothing is
   * adjusted, so the dragged child ends up exactly at that index.
   */
  function MoveChild(cs: seq<Section>, dragged: string, target: string): seq<Section> {
    var di := IndexOfId(cs, dragged);
    var ti := IndexOfId(cs, target);
    if di.Some? && ti.Some? then InsertAt(RemoveAt(cs, di.value), ti.value, cs[di.value]) else cs
  }

  /**
   * The dragged child now sits at the target's old index, taking it out again
   * gives the list without it in its old order, and nothing is lost or
   * duplicated.
   */
  lemma {:induction false} MoveChildPlacement(cs: seq<Section>, dragged: string, target: string)
    requires IndexOfId(cs, dragged).Some? && IndexOfId(cs, target).Some?
    ensures var di := IndexOfId(cs, dragged).value;
            var ti := IndexOfId(cs, target).value;
            var r := MoveChild(cs, dragged, target);
            |r| == |cs| && r[ti] == cs[di] && RemoveAt(r, ti) == RemoveAt(cs, di) && multiset(r) == multiset(cs)
  {
    var di := IndexOfId(cs, dragged).value;
    var ti := IndexOfId(cs, target).value;
    RemoveInserted(RemoveAt(cs, di), ti, cs[di]);
    RemoveAtMultiset(cs, di);
    InsertAtMultiset(RemoveAt(cs, di), ti, cs[di]);
  }

  /** The reorder branch on its copy of a child list: look both up, then splice when both are there. */
  method ReorderChildren(cs: seq<Section>, dragged: string, target: string) returns (r: seq<Section>)
    ensures r == MoveChild(cs, dragged, target)
  {
    var di, ti := IndexOfId(cs, dragged), IndexOfId(cs, target);
    r := cs;
    if di.Some? && ti.Some? {
      r := SpliceMoveCopy(cs, di.value, ti.value);
    }
  }

  /**
   * The `sections.map` of the reorder branch: the top-level section with the
   * parent's id has its children reordered. For the other top-level sections,
   * a direct child with that id has its own children reordered.
   */
  function ReorderUnder(l: seq<Section>, parent: string, dragged: string, target: string): seq<Section> {
    MapSeq(l, (s: Section) =>
      if s.id == parent then s.(children := MoveChild(s.children, dragged, target))
      else s.(children := MapSeq(s.children, (c: Section) =>
        if c.id == parent then c.(children := MoveChild(c.children, dragged, target)) else c)))
  }

  /** With distinct ids, reordering under root i touches root i's child list and nothing else. */
  lemma {:induction false} ReorderUnderOneRoot(l: seq<Section>, i: nat, dragged: string, target: string)
    requires DistinctIds(l) && i < |l|
    ensures ReorderUnder(l, l[i].id, dragged, target) == l[i := l[i].(children := MoveChild(l[i].children, dragged, target))]
  {
    var r := ReorderUnder(l, l[i].id, dragged, target);
    forall j | 0 <= j < |l| && j != i ensures r[j] == l[j] {
      assert l[j].id != l[i].id by {
        RootTreesDisjoint(l, l[i].id, i, j);
      }
      forall k | 0 <= k < |l[j].children| ensures r[j].children[k] == l[j].children[k] {
        ChildIsNoOtherRoot(l, i, j, k);
      }
      assert r[j].children == l[j].children;
    }
  }

  /** `draggedInfo.parent?.id`. */
  function ParentIdOf(at: Located): Option<string> {
    if at.parent.Some? then Some(at.parent.value.id) else None
  }

  /**
   * `handleDrop` after its guard (a dragged id that is set and differs from
   * the target). A dragged section that is not found changes nothing. When
   * both report the same parent, and it exists, its children are reordered.
   * Otherwise the dragged section is removed and appended, with `parentId`
   * set, to the children of the target.
   */
  function SectionDrop(l: seq<Section>, dragged: string, target: string): seq<Section> {
    var d := FindWithParent(l, dragged, None);
    var t := FindWithParent(l, target, None);
    if d.section.None? then l
    else if ParentIdOf(d) == ParentIdOf(t) && d.parent.Some? then ReorderUnder(l, d.parent.value.id, dragged, target)
    else
      var rm := RemoveSection(l, dragged);
      if rm.removed.None? then l
      else AddChild(rm.rest, target, rm.removed.value.(parentId := Some(target)))
  }

  /**
   * With distinct ids, when both sections lie strictly below the same root,
   * the drop only reorders that root's direct children.
   */
  lemma {:induction false} SectionDropWithinRoot(l: seq<Section>, i: nat, dragged: string, target: string)
    requires DistinctIds(l) && i < |l| && dragged != target
    requires HasId(l[i].children, dragged) && HasId(l[i].children, target)
    ensures SectionDrop(l, dragged, target) == l[i := l[i].(children := MoveChild(l[i].children, dragged, target))]
  {
    RootAboveItsTree(l, i);
    LocateUnderRoot(l, i, dragged);
    LocateUnderRoot(l, i, target);
    ReorderUnderOneRoot(l, i, dragged, target);
  }

  /**
   * So dragging a section onto a sibling below the first level does nothing:
   * the parent reported is the root, and the root's own children do not
   * include both.
   */
  lemma {:induction false} SectionDropIgnoresDeepSiblings(l: seq<Section>, i: nat, dragged: string, target: string)
    requires DistinctIds(l) && i < |l| && dragged != target
    requires HasId(l[i].children, dragged) && HasId(l[i].children, target)
    requires IndexOfId(l[i].children, dragged).None? || IndexOfId(l[i].children, target).None?
    ensures SectionDrop(l, dragged, target) == l
  {
    SectionDropWithinRoot(l, i, dragged, target);
  }

  /** The dragged section is a root, or the target does not lie strictly below the dragged section's root. */
  predicate MovesOnDrop(l: seq<Section>, dragged: string, target: string) {
    forall j :: 0 <= j < |l| && HasId(l[j].children, dragged) ==> !HasId(l[j].children, target)
  }

  /**
   * In every other case the drop is a move: remove the dragged section
   * (FindById's, when ids are distinct) and append it to the target's
   * children.
   */
  lemma {:induction false} SectionDropMoves(l: seq<Section>, dragged: string, target: string)
    requires DistinctIds(l) && HasId(l, dragged) && dragged != target && MovesOnDrop(l, dragged, target)
    ensures FindById(l, dragged).Some?
    ensures SectionDrop(l, dragged, target)
            == AddChild(RemoveSection(l, dragged).rest, target, FindById(l, dragged).value.(parentId := Some(target)))
  {
    var i := FindWithParentIsTopAncestor(l, dragged);
    LocateUnderRoot(l, i, dragged);
    var d := FindWithParent(l, dragged, None);
    var t := FindWithParent(l, target, None);
    if l[i].id != dragged {
      if !HasId(l, target) {
        LocateMissing(l, target, None);
      } else {
        var j := FindWithParentIsTopAncestor(l, target);
        LocateUnderRoot(l, j, target);
        if l[j].id != target {
          assert j != i;
          RootTreesDisjoint(l, l[i].id, i, j);
        }
      }
    }
    assert !(ParentIdOf(d) == ParentIdOf(t) && d.parent.Some?);
    var before, dd, after := RemoveSectionSplit(l, dragged, 0);
  }

  /** Where a root is dragged, the drop always takes the move path. */
  lemma {:induction false} RootMovesOnDrop(l: seq<Section>, i: nat, target: string)
    requires DistinctIds(l) && i < |l|
    ensures MovesOnDrop(l, l[i].id, target)
  {
    forall j | 0 <= j < |l| ensures !HasId(l[j].children, l[i].id) {
      if j == i {
        RootAboveItsTree(l, i);
      } else {
        RootTreesDisjoint(l, l[i].id, i, j);
      }
    }
  }

  /**
   * With distinct ids, removal takes out exactly the ids of the removed
   * section's tree, and the remaining ids stay distinct.
   */
  lemma {:induction false} RemovalIds(l: seq<Section>, id: string)
    requires DistinctIds(l) && HasId(l, id)
    ensures FindById(l, id).Some?
    ensures DistinctIds(RemoveSection(l, id).rest)
    ensures forall x :: HasId(RemoveSection(l, id).rest, x) <==> HasId(l, x) && !InTree(FindById(l, id).value, x)
  {
    var before, d, after := RemoveSectionSplit(l, id, 0);
    var m := RemoveSection(l, id).removed.value;
    var rest := RemoveSection(l, id).rest;
    var f := (e: Entry) => e.node.id;
    var ib, im, ia := EntryIds(before), EntryIds(Outline([m], d)), EntryIds(after);
    assert AllIds(l) == ib + im + ia by {
      OutlineIds(l, 0);
      MapSeqConcat(before + Outline([m], d), after, f);
      MapSeqConcat(before, Outline([m], d), f);
    }
    assert AllIds(rest) == ib + ia by {
      OutlineIds(rest, 0);
      MapSeqConcat(before, after, f);
    }
    assert forall x :: InTree(m, x) <==> x in im by {
      OutlineIds([m], d);
    }
    NoDuplicatesConcat(ib + im, ia);
    NoDuplicatesConcat(ib, im);
    NoDuplicatesConcat(ib, ia);
  }

  /**
   * The move in outline terms. Cutting the dragged tree out of the outline
   * leaves before + after. In that remainder the target's tree is followed
   * by the dragged tree, one level below the target, with `parentId` now set.
   */
  lemma {:induction false} SectionMoveOutline(l: seq<Section>, dragged: string, target: string)
    returns (before: seq<Entry>, d: nat, after: seq<Entry>, b2: seq<Entry>, dt: nat, t: Section, a2: seq<Entry>)
    requires DistinctIds(l) && FindById(l, dragged).Some? && HasId(l, target)
    requires !InTree(FindById(l, dragged).value, target)
    ensures var m := FindById(l, dragged).value;
            var m' := m.(parentId := Some(target));
            Outline(l, 0) == before + Outline([m], d) + after
            && before + after == b2 + Outline([t], dt) + a2 && t.id == target
            && Outline(AddChild(RemoveSection(l, dragged).rest, target, m'), 0)
               == b2 + Outline([t], dt) + Outline([m'], dt + 1) + a2
  {
    FindByIdFinds(l, dragged);
    before, d, after := RemoveSectionSplit(l, dragged, 0);
    RemovalIds(l, dragged);
    var m' := FindById(l, dragged).value.(parentId := Some(target));
    var p;
    b2, dt, p, a2 := AddChildOutline(RemoveSection(l, dragged).rest, target, m');
    t := p;
  }

  /**
   * A drop on a missing target, or on a section inside the dragged one, loses
   * the dragged section: it is removed, appended nowhere, and none of its
   * tree's ids is left.
   */
  lemma {:induction false} SectionDropLosesSection(l: seq<Section>, dragged: string, target: string)
    requires DistinctIds(l) && HasId(l, dragged) && dragged != target && MovesOnDrop(l, dragged, target)
    requires FindById(l, dragged).Some? && (!HasId(l, target) || InTree(FindById(l, dragged).value, target))
    ensures SectionDrop(l, dragged, target) == RemoveSection(l, dragged).rest
    ensures forall x :: InTree(FindById(l, dragged).value, x) ==> !HasId(SectionDrop(l, dragged, target), x)
  {
    SectionDropMoves(l, dragged, target);
    RemovalIds(l, dragged);
    AddChildMissingParent(RemoveSection(l, dragged).rest, target, FindById(l, dragged).value.(parentId := Some(target)));
  }

  /** In particular, dropping a root section onto one of its own descendants deletes its whole tree. */
  lemma {:induction false} SectionDropRootOntoDescendant(l: seq<Section>, i: nat, target: string)
    requires DistinctIds(l) && i < |l| && HasId(l[i].children, target)
    ensures FindById(l, l[i].id) == Some(l[i])
    ensures SectionDrop(l, l[i].id, target) == RemoveSection(l, l[i].id).rest
    ensures forall x :: InTree(l[i], x) ==> !HasId(SectionDrop(l, l[i].id, target), x)
  {
    RootAboveItsTree(l, i);
    RootMovesOnDrop(l, i, target);
    LocateUnderRoot(l, i, l[i].id);
    FindWithParentSection(l, l[i].id, None);
    InTreeInIds(l, i, l[i].id);
    SectionDropLosesSection(l, l[i].id, target);
  }

  /**
   * A drop that gets past the guard reaches the final state reset, which also
   * clears `dragOperation`: the dragged section is found and either reordered
   * or removed.
   */
  predicate DropCompletes(l: seq<Section>, dragged: string, target: string) {
    var d := FindWithParent(l, dragged, None);
    d.section.Some?
    && ((ParentIdOf(d) == ParentIdOf(FindWithParent(l, target, None)) && d.parent.Some?)
        || RemoveSection(l, dragged).removed.Some?)
  }

  /** That happens exactly when the dragged section is in the tree. */
  lemma {:induction false} DropCompletesIffPresent(l: seq<Section>, dragged: string, target: string)
    ensures DropCompletes(l, dragged, target) <==> HasId(l, dragged)
  {
    FindWithParentSection(l, dragged, None);
    FindByIdFinds(l, dragged);
    RemoveSectionRemovesAll(l, dragged);
  }

  /** `handleDropOutside` after its guard: remove the section and append it as a root without `parentId`. */
  function DropOutside(l: seq<Section>, dragged: string): seq<Section> {
    var rm := RemoveSection(l, dragged);
    if rm.removed.Some? then rm.rest + [rm.removed.value.(parentId := None)] else l
  }

  /**
   * With distinct ids, the dragged tree is cut out of the outline and put
   * back at the very end at depth 0: the section becomes the last root,
   * its subtree intact.
   */
  lemma {:induction false} DropOutsidePromotes(l: seq<Section>, dragged: string) returns (before: seq<Entry>, d: nat, after: seq<Entry>)
    requires DistinctIds(l) && HasId(l, dragged)
    ensures FindById(l, dragged).Some?
    ensures var m := FindById(l, dragged).value;
            Outline(l, 0) == before + Outline([m], d) + after
            && DropOutside(l, dragged) == RemoveSection(l, dragged).rest + [m.(parentId := None)]
            && Outline(DropOutside(l, dragged), 0) == before + after + Outline([m.(parentId := None)], 0)
  {
    before, d, after := RemoveSectionSplit(l, dragged, 0);
    var m := RemoveSection(l, dragged).removed.value;
    OutlineConcat(RemoveSection(l, dragged).rest, [m.(parentId := None)], 0);
  }

  /** Dropping outside a section that is not in the tree changes nothing. */
  lemma {:induction false} DropOutsideMissing(l: seq<Section>, dragged: string)
    requires !HasId(l, dragged)
    ensures DropOutside(l, dragged) == l
  {
    RemoveNoMatch(l, dragged);
  }

  /** The `dragOperation` shown while hovering (`'reorder'` or `'move'`). */
  datatype DragOperation = Reorder | Move

  /** `handleDragOver`: same reported parent, including no parent at all, shows a reorder. */
  function DragFeedback(l: seq<Section>, dragged: string, hovered: string): DragOperation {
    if ParentIdOf(FindWithParent(l, dragged, None)) == ParentIdOf(FindWithParent(l, hovered, None)) then Reorder else Move
  }

  /**
   * Hovering one root over another shows "reorder", but the drop nests the
   * dragged root under the other one, since the drop also requires a parent.
   */
  lemma {:induction false} DragFeedbackForRoots(l: seq<Section>, i: nat, j: nat)
    requires DistinctIds(l) && i < |l| && j < |l| && i != j
    ensures DragFeedback(l, l[i].id, l[j].id) == Reorder
    ensures SectionDrop(l, l[i].id, l[j].id)
            == AddChild(RemoveSection(l, l[i].id).rest, l[j].id, l[i].(parentId := Some(l[j].id)))
  {
    LocateUnderRoot(l, i, l[i].id);
    LocateUnderRoot(l, j, l[j].id);
    FindWithParentSection(l, l[i].id, None);
    InTreeInIds(l, i, l[i].id);
    assert l[i].id != l[j].id by {
      RootTreesDisjoint(l, l[i].id, i, j);
    }
    RootMovesOnDrop(l, i, l[j].id);
    SectionDropMoves(l, l[i].id, l[j].id);
  }

  // ---------------------------------------------------------------- deleting and counting

  /**
   * `deleteSection`: drop the roots with the id, then drop the direct
   * children with it from every remaining root. Deeper sections are not
   * searched.
   */
  function DeleteSection(l: seq<Section>, id: string): (r: seq<Section>)
    ensures forall k :: 0 <= k < |r| ==> r[k].id != id && forall c :: c in r[k].children ==> c.id != id
  {
    MapSeq(Filter(l, (s: Section) => s.id != id), (s: Section) => s.(children := Filter(s.children, (c: Section) => c.id != id)))
  }

  /** The ids of the roots, in order. */
  function RootIds(l: seq<Section>): seq<string> {
    MapSeq(l, (s: Section) => s.id)
  }

  /** The surviving roots are the other roots, in their old order. */
  lemma {:induction false} DeleteSectionRootIds(l: seq<Section>, id: string)
    ensures RootIds(DeleteSection(l, id)) == Filter(RootIds(l), (x: string) => x != id)
  {
    var r := DeleteSection(l, id);
    var kept := Filter(l, (s: Section) => s.id != id);
    assert RootIds(r) == RootIds(kept) by {
      assert forall k :: 0 <= k < |kept| ==> RootIds(r)[k] == RootIds(kept)[k];
    }
    FilterRootIds(l, id);
  }

  lemma {:induction false} FilterRootIds(l: seq<Section>, id: string)
    ensures RootIds(Filter(l, (s: Section) => s.id != id)) == Filter(RootIds(l), (x: string) => x != id)
  {
    if l != [] {
      FilterRootIds(l[1..], id);
      assert RootIds(l)[1..] == RootIds(l[1..]);
    }
  }

  /**
   * When the id is neither a root's nor a root's child's, nothing is
   * deleted, even if a deeper section carries it.
   */
  lemma {:induction false} DeleteSectionLeavesDeeper(l: seq<Section>, id: string)
    requires forall k :: 0 <= k < |l| ==> l[k].id != id && forall c :: c in l[k].children ==> c.id != id
    ensures DeleteSection(l, id) == l
  {
    var p := (s: Section) => s.id != id;
    FilterAllKept(l, p);
    forall k | 0 <= k < |l| ensures DeleteSection(l, id)[k] == l[k] {
      FilterAllKept(l[k].children, (c: Section) => c.id != id);
    }
  }

  /** `child.fields?.length || 0` summed over a child list. */
  function ChildFieldCount(cs: seq<Section>): nat {
    SumOf(cs, (c: Section) => |c.fields|)
  }

  /** `metadata.totalFields` of `handleSave`: each root's fields plus its direct children's. */
  function TotalFields(l: seq<Section>): nat {
    SumOf(l, (s: Section) => |s.fields| + ChildFieldCount(s.children))
  }

  /** The number of fields in the whole tree. */
  function FieldCount(l: seq<Section>): nat {
    if l == [] then 0 else |l[0].fields| + FieldCount(l[0].children) + FieldCount(l[1..])
  }

  /** No root has a grandchild. */
  predicate AtMostTwoLevels(l: seq<Section>) {
    forall k :: 0 <= k < |l| ==> forall c :: c in l[k].children ==> c.children == []
  }

  lemma {:induction false} ChildFieldCountBound(cs: seq<Section>)
    ensures ChildFieldCount(cs) <= FieldCount(cs)
    ensures (forall c :: c in cs ==> c.children == []) ==> ChildFieldCount(cs) == FieldCount(cs)
  {
    if cs != [] {
      ChildFieldCountBound(cs[1..]);
      assert forall c :: c in cs[1..] ==> c in cs;
    }
  }

  /**
   * `totalFields` never exceeds the real number of fields. It is exact when
   * the tree has at most two levels; fields deeper down are not counted.
   */
  lemma {:induction false} TotalFieldsUndercounts(l: seq<Section>)
    ensures TotalFields(l) <= FieldCount(l)
    ensures AtMostTwoLevels(l) ==> TotalFields(l) == FieldCount(l)
  {
    if l != [] {
      TotalFieldsUndercounts(l[1..]);
      ChildFieldCountBound(l[0].children);
      assert TotalFields(l) == |l[0].fields| + ChildFieldCount(l[0].children) + TotalFields(l[1..]);
      if AtMostTwoLevels(l) {
        assert AtMostTwoLevels(l[1..]) by {
          forall k | 0 <= k < |l[1..]| ensures forall c :: c in l[1..][k].children ==> c.children == [] {
            assert l[1..][k] == l[k + 1];
          }
        }
      }
    }
  }
}
