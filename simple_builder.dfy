/**
 * The state of the simple form builder component (`MedicalFormBuilder`)
 * and its event handlers. React's `useState` pairs become the fields of a
 * class, and every handler becomes a method that changes those fields as
 * the handler calls the setters. Each method's `modifies` clause names
 * exactly the variables its handler sets, its postconditions give their new
 * values, and the work on the forest is delegated to the functions of
 * `SimpleEdit`. Event objects,
 * toasts and the rendered markup are not part of the state. Prompt answers,
 * fresh `Date.now()` ids and the mouse geometry of `handleDragLeave`
 * are parameters.
 */
module SimpleBuilder {

  import opened Common
  import opened Text
  import opened SimpleTree
  import opened SimpleEdit

  /** `sectionForm`. */
  datatype SectionForm = SectionForm(name: string, description: string)

  /** `draggedField`: which field of which section is being dragged. */
  datatype FieldRef = FieldRef(fieldIndex: nat, sectionId: string)

  /** A snapshot of every state variable the core reads or writes (`null` is None). */
  datatype BuilderState = BuilderState(
    sections: seq<Section>,
    viewMode: string,
    showHPIBullets: bool,
    showHeaders: bool,
    showSectionModal: bool,
    showFieldModal: bool,
    selectedSectionId: Option<string>,
    editingFieldId: Option<string>,
    sectionForm: SectionForm,
    fieldForm: FieldForm,
    draggedSection: Option<string>,
    dragOverSection: Option<string>,
    dragOperation: Option<DragOperation>,
    draggedField: Option<FieldRef>,
    dragOverField: Option<string>)

  function StartSection(id: string, name: string, disabled: Option<bool>): Section {
    Section(id, name, "", "section", disabled, [], [], None)
  }

  /** The four sections the builder starts with; only Allergies is disabled. */
  const InitialSections: seq<Section> := [
    StartSection("chief-complaint", "Chief Complaint", None),
    StartSection("hpi", "HPI", None),
    StartSection("allergies", "Allergies", Some(true)),
    StartSection("medications", "Medications", None)]

  const InitialState := BuilderState(InitialSections, "paragraph", false, true, false, false, None, None,
                                     SectionForm("", ""), EmptyForm, None, None, None, None, None)

  /** The initial sections are four childless roots with distinct ids. */
  lemma {:induction false} InitialSectionsWellFormed()
    ensures DistinctIds(InitialSections) && |InitialSections| == 4
    ensures forall k :: 0 <= k < 4 ==> IsRoot(InitialSections[k]) && InitialSections[k].children == []
  {
    assert AllIds(InitialSections) == ["chief-complaint", "hpi", "allergies", "medications"];
  }

  /** The section `handleAddSection` appends: the form's name as typed, untrimmed. */
  function NewSection(freshId: string, form: SectionForm): Section {
    Section(freshId, form.name, form.description, "section", None, [], [], None)
  }

  /** A new section becomes the last root: its entry ends the outline, the old outline before it untouched. */
  lemma {:induction false} NewSectionIsLastRoot(l: seq<Section>, freshId: string, form: SectionForm)
    ensures Outline(l + [NewSection(freshId, form)], 0) == Outline(l, 0) + [Entry(0, NewSection(freshId, form))]
  {
    OutlineConcat(l, [NewSection(freshId, form)], 0);
  }

  /** The configuration object `handleSave` builds (timestamps, template id and name left out). */
  datatype Configuration = Configuration(
    viewMode: string,
    showHPIBullets: bool,
    showHeaders: bool,
    sections: seq<Section>,
    totalSections: nat,
    totalFields: nat)

  function SaveOf(s: BuilderState): (c: Configuration)
    ensures c.totalFields <= FieldCount(s.sections)
  {
    TotalFieldsUndercounts(s.sections);
    Configuration(s.viewMode, s.showHPIBullets, s.showHeaders, s.sections, |s.sections|, TotalFields(s.sections))
  }

  /** A stored configuration as read back: any key may be missing. */
  datatype StoredView = StoredView(
    viewMode: Option<string>,
    showHPIBullets: Option<bool>,
    showHeaders: Option<bool>,
    sections: Option<seq<Section>>)

  /** The configuration as stored: every key present. */
  function StoredOf(c: Configuration): StoredView {
    StoredView(Some(c.viewMode), Some(c.showHPIBullets), Some(c.showHeaders), Some(c.sections))
  }

  /** The body of the configuration response. */
  datatype ConfigResponse = ConfigResponse(configuration: Option<StoredView>, top: StoredView)

  /** `result.configuration || result`. */
  function ExtractView(r: ConfigResponse): StoredView {
    r.configuration.GetOr(r.top)
  }

  /**
   * The apply rule of `loadConfigurationFromDatabase`: a truthy view mode, a
   * defined flag, a non-empty section list replace the current ones.
   */
  function ApplyStored(s: BuilderState, v: StoredView): BuilderState {
    s.(viewMode := if Truthy(v.viewMode) then v.viewMode.value else s.viewMode,
       showHPIBullets := v.showHPIBullets.GetOr(s.showHPIBullets),
       showHeaders := v.showHeaders.GetOr(s.showHeaders),
       sections := if v.sections.Some? && |v.sections.value| > 0 then v.sections.value else s.sections)
  }

  /** Loading touches only the view settings and the sections; a view with no keys changes nothing. */
  lemma {:induction false} ApplyStoredTouchesOnlyView(s: BuilderState, v: StoredView)
    ensures var r := ApplyStored(s, v);
            r.(viewMode := s.viewMode, showHPIBullets := s.showHPIBullets, showHeaders := s.showHeaders, sections := s.sections) == s
    ensures v == StoredView(None, None, None, None) ==> ApplyStored(s, v) == s
  {
  }

  /**
   * Loading what was saved restores the same view settings and sections, so
   * the state is unchanged. An empty view mode or section list is skipped on
   * load, which is harmless because the state already holds it.
   */
  lemma {:induction false} LoadAfterSave(s: BuilderState, wrapped: bool, other: StoredView)
    ensures ApplyStored(s, ExtractView(if wrapped then ConfigResponse(Some(StoredOf(SaveOf(s))), other)
                                       else ConfigResponse(None, StoredOf(SaveOf(s))))) == s
  {
  }

  /** A loaded section list is taken only when it is not empty: an empty one keeps the current sections. */
  lemma {:induction false} LoadKeepsSectionsOnEmpty(s: BuilderState, v: StoredView)
    requires v.sections.None? || v.sections.value == []
    ensures ApplyStored(s, v).sections == s.sections
  {
  }

  /** The key a field's drop zone records in `dragOverField`. */
  function SlotKey(sectionId: string, index: nat): (r: string)
    ensures '-' in r
  {
    assert (sectionId + "-" + NatToDecimal(index))[|sectionId|] == '-';
    sectionId + "-" + NatToDecimal(index)
  }

  /** Different drop zones of one section have different keys, none of them the end zone's. */
  lemma {:induction false} SlotKeysDistinct(sectionId: string, i: nat, j: nat)
    ensures SlotKey(sectionId, i) == SlotKey(sectionId, j) <==> i == j
    ensures SlotKey(sectionId, i) != sectionId + "-end"
  {
    var a, b := NatToDecimal(i), NatToDecimal(j);
    var n := |sectionId| + 1;
    assert SlotKey(sectionId, i)[n..] == a && SlotKey(sectionId, j)[n..] == b;
    if SlotKey(sectionId, i) == SlotKey(sectionId, j) {
      DecimalRoundTrip(i);
      DecimalRoundTrip(j);
    }
    assert (sectionId + "-end")[n] == 'e';
    assert SlotKey(sectionId, i)[n] == a[0];
  }

  class FormBuilder {
    var sections: seq<Section>
    var viewMode: string
    var showHPIBullets: bool
    var showHeaders: bool
    var showSectionModal: bool
    var showFieldModal: bool
    var selectedSectionId: Option<string>
    var editingFieldId: Option<string>
    var sectionForm: SectionForm
    var fieldForm: FieldForm
    var draggedSection: Option<string>
    var dragOverSection: Option<string>
    var dragOperation: Option<DragOperation>
    var draggedField: Option<FieldRef>
    var dragOverField: Option<string>

    function Snapshot(): BuilderState
      reads this
    {
      BuilderState(sections, viewMode, showHPIBullets, showHeaders, showSectionModal, showFieldModal,
                   selectedSectionId, editingFieldId, sectionForm, fieldForm,
                   draggedSection, dragOverSection, dragOperation, draggedField, dragOverField)
    }

    /**
     * A hovered section or field zone is only recorded while a drag is going
     * on: a drop that arrives with nothing dragged finds no zone highlighted.
     */
    predicate Valid()
      reads this
    {
      (dragOverSection.Some? ==> draggedSection.Some?) && (dragOverField.Some? ==> draggedField.Some?)
    }

    constructor ()
      ensures Valid() && Snapshot() == InitialState
    {
      sections := InitialSections;
      viewMode := "paragraph";
      showHPIBullets := false;
      showHeaders := true;
      showSectionModal := false;
      showFieldModal := false;
      selectedSectionId := None;
      editingFieldId := None;
      sectionForm := SectionForm("", "");
      fieldForm := EmptyForm;
      draggedSection := None;
      dragOverSection := None;
      dragOperation := None;
      draggedField := None;
      dragOverField := None;
    }

    /** `handleSave`'s configuration object for the current state. */
    function SavedConfiguration(): (c: Configuration)
      reads this
      ensures c.sections == sections && c.totalSections == |sections| && c.totalFields <= FieldCount(sections)
      ensures AtMostTwoLevels(sections) ==> c.totalFields == FieldCount(sections)
    {
      TotalFieldsUndercounts(sections);
      SaveOf(Snapshot())
    }

    // ------------------------------------------------------------ editing

    /** `handleAddSection`: a non-blank name appends a new root and closes the modal. */
    method AddSection(freshId: string)
      requires Valid()
      modifies this`sections, this`sectionForm, this`showSectionModal
      ensures Valid()
      ensures IsBlank(old(sectionForm).name) ==> unchanged(this)
      ensures !IsBlank(old(sectionForm).name) ==>
                sections == old(sections) + [NewSection(freshId, old(sectionForm))]
                && sectionForm == SectionForm("", "") && !showSectionModal
    {
      if !IsBlank(sectionForm.name) {
        sections := sections + [NewSection(freshId, sectionForm)];
        sectionForm := SectionForm("", "");
        showSectionModal := false;
      }
    }

    /** `handleAddCategory`, with the prompt's answer. */
    method AddCategoryTo(parent: string, answer: Option<string>, freshId: string)
      requires Valid()
      modifies this`sections
      ensures Valid()
      ensures sections == AddCategory(old(sections), parent, answer, freshId)
    {
      sections := AddCategory(sections, parent, answer, freshId);
    }

    /** `handleRenameCategory`, with the prompt's answer. */
    method RenameCategoryTo(id: string, answer: Option<string>)
      requires Valid()
      modifies this`sections
      ensures Valid()
      ensures sections == RenameCategory(old(sections), id, answer)
    {
      sections := RenameCategory(sections, id, answer);
    }

    /** The "+ Add Field" button of a section. */
    method OpenAddField(sectionId: string)
      requires Valid()
      modifies this`selectedSectionId, this`showFieldModal
      ensures Valid()
      ensures selectedSectionId == Some(sectionId) && showFieldModal
    {
      selectedSectionId := Some(sectionId);
      showFieldModal := true;
    }

    /** A field's edit button: the form is filled from the field; a field without a truthy id is edited as a new one. */
    method OpenEditField(sectionId: string, field: Field)
      requires Valid()
      modifies this`fieldForm, this`selectedSectionId, this`editingFieldId, this`showFieldModal
      ensures Valid()
      ensures fieldForm == FormOf(field) && selectedSectionId == Some(sectionId) && showFieldModal
      ensures Truthy(field.id) ==> editingFieldId == field.id
      ensures !Truthy(field.id) ==> editingFieldId == None
    {
      fieldForm := FormOf(field);
      selectedSectionId := Some(sectionId);
      editingFieldId := if Truthy(field.id) then field.id else None;
      showFieldModal := true;
    }

    /** The modal's Cancel button. */
    method CancelFieldModal()
      requires Valid()
      modifies this`showFieldModal, this`editingFieldId
      ensures Valid()
      ensures !showFieldModal && editingFieldId == None
    {
      showFieldModal := false;
      editingFieldId := None;
    }

    /** `handleAddField`: needs a non-blank name and a selected section. */
    method AddFieldFromForm(freshId: string)
      requires Valid()
      modifies this`sections, this`fieldForm, this`showFieldModal, this`selectedSectionId, this`editingFieldId
      ensures Valid()
      ensures IsBlank(old(fieldForm).name) || !Truthy(old(selectedSectionId)) ==> unchanged(this)
      ensures !IsBlank(old(fieldForm).name) && Truthy(old(selectedSectionId)) ==>
                sections == AddField(old(sections), old(selectedSectionId).value, NewField(freshId, old(fieldForm)))
                && fieldForm == EmptyForm && !showFieldModal && selectedSectionId == None && editingFieldId == None
    {
      if !IsBlank(fieldForm.name) && Truthy(selectedSectionId) {
        sections := AddField(sections, selectedSectionId.value, NewField(freshId, fieldForm));
        fieldForm := EmptyForm;
        showFieldModal := false;
        selectedSectionId := None;
        editingFieldId := None;
      }
    }

    /** `handleSaveEditField`: needs a field being edited and a selected section. */
    method SaveEditedField()
      requires Valid()
      modifies this`sections, this`fieldForm, this`showFieldModal, this`selectedSectionId, this`editingFieldId
      ensures Valid()
      ensures !Truthy(old(editingFieldId)) || !Truthy(old(selectedSectionId)) ==> unchanged(this)
      ensures Truthy(old(editingFieldId)) && Truthy(old(selectedSectionId)) ==>
                sections == SaveEditField(old(sections), old(selectedSectionId).value, old(editingFieldId).value, old(fieldForm))
                && fieldForm == EmptyForm && !showFieldModal && selectedSectionId == None && editingFieldId == None
    {
      if Truthy(editingFieldId) && Truthy(selectedSectionId) {
        sections := SaveEditField(sections, selectedSectionId.value, editingFieldId.value, fieldForm);
        showFieldModal := false;
        editingFieldId := None;
        selectedSectionId := None;
        fieldForm := EmptyForm;
      }
    }

    /** The modal's submit button: save when a field is being edited, add otherwise. */
    method SubmitFieldModal(freshId: string)
      requires Valid()
      modifies this`sections, this`fieldForm, this`showFieldModal, this`selectedSectionId, this`editingFieldId
      ensures Valid()
      ensures Truthy(old(editingFieldId)) && Truthy(old(selectedSectionId)) ==>
                sections == SaveEditField(old(sections), old(selectedSectionId).value, old(editingFieldId).value, old(fieldForm))
                && fieldForm == EmptyForm && !showFieldModal && selectedSectionId == None && editingFieldId == None
      ensures !Truthy(old(editingFieldId)) && !IsBlank(old(fieldForm).name) && Truthy(old(selectedSectionId)) ==>
                sections == AddField(old(sections), old(selectedSectionId).value, NewField(freshId, old(fieldForm)))
                && fieldForm == EmptyForm && !showFieldModal && selectedSectionId == None && editingFieldId == None
      ensures !Truthy(old(selectedSectionId)) || (!Truthy(old(editingFieldId)) && IsBlank(old(fieldForm).name)) ==>
                unchanged(this)
    {
      if Truthy(editingFieldId) {
        SaveEditedField();
      } else {
        AddFieldFromForm(freshId);
      }
    }

    /** A field's delete button. */
    method DeleteFieldInline(sectionId: string, index: nat)
      requires Valid()
      modifies this`sections
      ensures Valid()
      ensures sections == DeleteFieldAt(old(sections), sectionId, index)
    {
      sections := DeleteFieldAt(sections, sectionId, index);
    }

    /** `deleteSection`. */
    method DeleteSectionById(id: string)
      requires Valid()
      modifies this`sections
      ensures Valid()
      ensures sections == DeleteSection(old(sections), id)
    {
      sections := DeleteSection(sections, id);
    }

    /**
     * `loadConfigurationFromDatabase`; None stands for a failed request or a
     * response that is not ok. It sets the four variables as `ApplyStored`
     * does.
     */
    method LoadConfiguration(response: Option<ConfigResponse>)
      requires Valid()
      modifies this`viewMode, this`showHPIBullets, this`showHeaders, this`sections
      ensures Valid()
      ensures response.None? ==> unchanged(this)
      ensures response.Some? ==>
                var v := ExtractView(response.value);
                viewMode == (if Truthy(v.viewMode) then v.viewMode.value else old(viewMode))
                && showHPIBullets == v.showHPIBullets.GetOr(old(showHPIBullets))
                && showHeaders == v.showHeaders.GetOr(old(showHeaders))
                && sections == (if v.sections.Some? && |v.sections.value| > 0 then v.sections.value else old(sections))
    {
      if response.Some? {
        var config := ExtractView(response.value);
        if Truthy(config.viewMode) {
          viewMode := config.viewMode.value;
        }
        if config.showHPIBullets.Some? {
          showHPIBullets := config.showHPIBullets.value;
        }
        if config.showHeaders.Some? {
          showHeaders := config.showHeaders.value;
        }
        if config.sections.Some? && |config.sections.value| > 0 {
          sections := config.sections.value;
        }
      }
    }

    // ------------------------------------------------------------ section drag and drop

    /** `handleDragStart`. */
    method DragStart(id: string)
      requires Valid()
      modifies this`draggedSection
      ensures Valid()
      ensures draggedSection == Some(id)
    {
      draggedSection := Some(id);
    }

    /** `handleDragEnd`: the section drag state is cleared. */
    method DragEnd()
      requires Valid()
      modifies this`draggedSection, this`dragOverSection, this`dragOperation
      ensures Valid()
      ensures draggedSection == None && dragOverSection == None && dragOperation == None
    {
      draggedSection := None;
      dragOverSection := None;
      dragOperation := None;
    }

    /**
     * `handleDragOver`: only while a section is dragged over another one, the
     * hovered section and the operation the drop would be announced as are
     * recorded. The forest is never touched.
     */
    method DragOver(hovered: string)
      requires Valid()
      modifies this`dragOverSection, this`dragOperation
      ensures Valid()
      ensures Truthy(draggedSection) && draggedSection.value != hovered ==>
                dragOverSection == Some(hovered) && dragOperation == Some(DragFeedback(sections, draggedSection.value, hovered))
      ensures !Truthy(draggedSection) || draggedSection.value == hovered ==> unchanged(this)
    {
      if Truthy(draggedSection) && draggedSection.value != hovered {
        dragOverSection := Some(hovered);
        dragOperation := Some(DragFeedback(sections, draggedSection.value, hovered));
      }
    }

    /** `handleDragLeave`; whether the mouse left the section's box is a parameter. */
    method DragLeave(leftBox: bool)
      requires Valid()
      modifies this`dragOverSection
      ensures Valid()
      ensures leftBox ==> dragOverSection == None
      ensures !leftBox ==> unchanged(this)
    {
      if leftBox {
        dragOverSection := None;
      }
    }

    /**
     * `handleDrop`. The guard (nothing dragged, or dropped on itself) and the
     * dragged-not-found path clear the dragged and hovered sections but leave
     * `dragOperation`. A completed drop applies `SectionDrop` and clears all
     * three.
     */
    method DropOnSection(target: string)
      requires Valid()
      modifies this`sections, this`draggedSection, this`dragOverSection, this`dragOperation
      ensures Valid()
      ensures draggedSection == None && dragOverSection == None
      ensures !Truthy(old(draggedSection)) || old(draggedSection).value == target ==>
                sections == old(sections) && dragOperation == old(dragOperation)
      ensures Truthy(old(draggedSection)) && old(draggedSection).value != target ==>
                sections == SectionDrop(old(sections), old(draggedSection).value, target)
      ensures Truthy(old(draggedSection)) && old(draggedSection).value != target ==>
                (dragOperation == None <== DropCompletes(old(sections), old(draggedSection).value, target))
                && (dragOperation == old(dragOperation) <== !DropCompletes(old(sections), old(draggedSection).value, target))
    {
      if !Truthy(draggedSection) || draggedSection.value == target {
        draggedSection := None;
        dragOverSection := None;
        return;
      }
      var dragged := draggedSection.value;
      var completes := DropCompletes(sections, dragged, target);
      sections := SectionDrop(sections, dragged, target);
      draggedSection := None;
      dragOverSection := None;
      if completes {
        dragOperation := None;
      }
    }

    /** `handleDropOutside`: with nothing dragged it returns before any reset. */
    method DropOutsideSections()
      requires Valid()
      modifies this`sections, this`draggedSection, this`dragOverSection, this`dragOperation
      ensures Valid()
      ensures !Truthy(old(draggedSection)) ==> unchanged(this)
      ensures old(draggedSection).None? ==> dragOverSection == None
      ensures Truthy(old(draggedSection)) ==>
                sections == DropOutside(old(sections), old(draggedSection).value)
                && draggedSection == None && dragOverSection == None && dragOperation == None
    {
      if !Truthy(draggedSection) {
        return;
      }
      var rm := RemoveSection(sections, draggedSection.value);
      if rm.removed.Some? {
        sections := rm.rest + [rm.removed.value.(parentId := None)];
      }
      draggedSection := None;
      dragOverSection := None;
      dragOperation := None;
    }

    // ------------------------------------------------------------ field drag and drop

    /** `handleFieldDragStart`. */
    method FieldDragStart(fieldIndex: nat, sectionId: string)
      requires Valid()
      modifies this`draggedField
      ensures Valid()
      ensures draggedField == Some(FieldRef(fieldIndex, sectionId))
    {
      draggedField := Some(FieldRef(fieldIndex, sectionId));
    }

    /**
     * `handleFieldDragOver` on a section's field area: it records the section
     * unless a key with a '-' is already recorded. Every field-slot key has
     * one, and so does any section id such as "chief-complaint".
     */
    method FieldDragOver(targetSectionId: string)
      requires Valid()
      modifies this`dragOverField
      ensures Valid()
      ensures draggedField.Some? && (!Truthy(old(dragOverField)) || '-' !in old(dragOverField).value) ==>
                dragOverField == Some(targetSectionId)
      ensures draggedField.None? || (Truthy(old(dragOverField)) && '-' in old(dragOverField).value) ==> unchanged(this)
    {
      if draggedField.Some? && (!Truthy(dragOverField) || '-' !in dragOverField.value) {
        dragOverField := Some(targetSectionId);
      }
    }

    /** `handleFieldDragLeave` and the drop zones' leave handlers. */
    method FieldDragLeave()
      requires Valid()
      modifies this`dragOverField
      ensures Valid()
      ensures dragOverField == None
    {
      dragOverField := None;
    }

    /** The drop zone above field `index`: marked only for another field of the same section. */
    method FieldSlotDragOver(sectionId: string, index: nat)
      requires Valid()
      modifies this`dragOverField
      ensures Valid()
      ensures draggedField.Some? && draggedField.value.sectionId == sectionId && draggedField.value.fieldIndex != index ==>
                dragOverField == Some(SlotKey(sectionId, index))
      ensures draggedField.None? || draggedField.value.sectionId != sectionId || draggedField.value.fieldIndex == index ==>
                unchanged(this)
    {
      if draggedField.Some? && draggedField.value.sectionId == sectionId && draggedField.value.fieldIndex != index {
        dragOverField := Some(SlotKey(sectionId, index));
      }
    }

    /** The drop zone after the last field. */
    method FieldEndDragOver(sectionId: string)
      requires Valid()
      modifies this`dragOverField
      ensures Valid()
      ensures draggedField.Some? && draggedField.value.sectionId == sectionId ==> dragOverField == Some(sectionId + "-end")
      ensures draggedField.None? || draggedField.value.sectionId != sectionId ==> unchanged(this)
    {
      if draggedField.Some? && draggedField.value.sectionId == sectionId {
        dragOverField := Some(sectionId + "-end");
      }
    }

    /**
     * `handleFieldDrop`. With no dragged field it returns before any reset;
     * otherwise `FieldDrop` is applied and the field drag state is cleared.
     */
    method DropField(targetSectionId: string, targetFieldIndex: Option<nat>)
      requires Valid()
      modifies this`sections, this`draggedField, this`dragOverField
      ensures Valid()
      ensures old(draggedField).None? ==> unchanged(this) && dragOverField == None
      ensures old(draggedField).Some? ==>
                sections == FieldDrop(old(sections), old(draggedField).value.sectionId, old(draggedField).value.fieldIndex,
                                      targetSectionId, targetFieldIndex)
                && draggedField == None && dragOverField == None
    {
      if draggedField.None? {
        return;
      }
      sections := FieldDrop(sections, draggedField.value.sectionId, draggedField.value.fieldIndex, targetSectionId, targetFieldIndex);
      draggedField := None;
      dragOverField := None;
    }
  }
}
