/**
 * The state of the older form builder component in gb-code.tsx and its
 * handlers. The `useState` pairs become the fields of a class; each
 * handler becomes a method whose `modifies` clause names the variables it
 * sets and whose postconditions give their new values. The drop handlers
 * run the depth-first splice loops of GbTree on a copy of the forest, as
 * the source does on its deep clone, and commit the copy. A handler that
 * throws leaves every variable as it was, since the exception stops it
 * before any setter runs. Event objects, the shift key and fresh
 * `Date.now()` ids are parameters.
 */
module GbBuilder {

  import opened Common
  import opened Text
  import opened GbTree
  import opened GbEdit
  import opened GbForms
  import opened GbJson

  /** `handleDrop` once a drag is active, run as the source runs it: remove, then place, each by the splice loop. */
  method RunDrop(l: seq<GbSection>, item: DragItem, targetId: string, targetKind: ItemKind,
                 targetParentId: Option<string>, shift: bool) returns (o: DropOutcome)
    ensures o == Drop(l, item, targetId, targetKind, targetParentId, shift)
  {
    if item.kind == SectionItem {
      if targetKind != SectionItem {
        return Completed(None);
      }
      var rm := EditFirstLoop(l, IdProbe(item.itemId), Dropped());
      if !rm.Found? {
        return Completed(None);
      }
      var repl := if IsNest(targetParentId, shift) then Nest(rm.hit) else InsertBefore(rm.hit);
      var placed := EditFirstLoop(rm.list, IdProbe(targetId), repl);
      o := Completed(Some(if placed.Found? then placed.list else rm.list));
    } else {
      var rm := EditFirstLoop(l, SourceProbe(item.parentId, item.itemId), TakeField(item.itemId));
      if !rm.Found? {
        return Completed(None);
      }
      FoundHit(l, SourceProbe(item.parentId, item.itemId), TakeField(item.itemId));
      var f := FieldOf(rm.hit, item.itemId);
      var placed;
      if targetKind == FieldItem {
        placed := EditFirstLoop(rm.list, TargetProbe(targetParentId, targetId), PutBefore(targetId, f));
      } else {
        placed := EditFirstLoop(rm.list, IdProbe(targetId), Append(f));
      }
      if placed.Crashed? {
        return Thrown;
      }
      o := Completed(Some(if placed.Found? then placed.list else rm.list));
    }
  }

  /** `handleDropOnSection` once a drag is active. */
  method RunDropOnSection(l: seq<GbSection>, item: DragItem, sectionId: string) returns (o: DropOutcome)
    ensures o == DropOnSection(l, item, sectionId)
  {
    if item.kind == SectionItem {
      o := RunDrop(l, item, sectionId, SectionItem, Some("nest"), false);
    } else {
      var rm := EditFirstLoop(l, SourceProbe(item.parentId, item.itemId), TakeField(item.itemId));
      if !rm.Found? {
        return Completed(None);
      }
      FoundHit(l, SourceProbe(item.parentId, item.itemId), TakeField(item.itemId));
      var placed := EditFirstLoop(rm.list, IdProbe(sectionId), Append(FieldOf(rm.hit, item.itemId)));
      o := Completed(Some(if placed.Found? then placed.list else rm.list));
    }
  }

  class GbFormBuilder {
    var sections: seq<GbSection>
    var viewMode: string
    var showHPIBullets: bool
    var showHeaders: bool
    var showSectionModal: bool
    var showFieldModal: bool
    var selectedSectionId: Option<string>
    var draggedItem: Option<DragItem>
    var showJsonOutput: bool
    var jsonOutput: Option<GbConfig>
    var sectionForm: GbSectionForm
    var fieldForm: GbFieldForm

    /** `jsonOutput` starts as the empty string, modelled as None. */
    constructor ()
      ensures sections == InitialGbSections && viewMode == "paragraph" && !showHPIBullets && showHeaders
      ensures !showSectionModal && !showFieldModal && selectedSectionId == None && draggedItem == None
      ensures !showJsonOutput && jsonOutput == None
      ensures sectionForm == EmptyGbSectionForm && fieldForm == EmptyGbFieldForm
    {
      sections := InitialGbSections;
      viewMode := "paragraph";
      showHPIBullets := false;
      showHeaders := true;
      showSectionModal := false;
      showFieldModal := false;
      selectedSectionId := None;
      draggedItem := None;
      showJsonOutput := false;
      jsonOutput := None;
      sectionForm := EmptyGbSectionForm;
      fieldForm := EmptyGbFieldForm;
    }

    // ------------------------------------------------------------ dragging

    /** `handleDragStart`. */
    method DragStart(item: DragItem)
      modifies this`draggedItem
      ensures draggedItem == Some(item)
    {
      draggedItem := Some(item);
    }

    /**
     * `handleDrop`: nothing without a drag; a drop that throws changes
     * nothing; otherwise the commit, if any, becomes the forest and the drag
     * ends.
     */
    method HandleDrop(targetId: string, targetKind: ItemKind, targetParentId: Option<string>, shift: bool)
      returns (thrown: bool)
      modifies this`sections, this`draggedItem
      ensures old(draggedItem).None? ==> !thrown && sections == old(sections) && draggedItem == None
      ensures old(draggedItem).Some? ==>
                var o := Drop(old(sections), old(draggedItem).value, targetId, targetKind, targetParentId, shift);
                (thrown <==> o.Thrown?) &&
                (o.Thrown? ==> sections == old(sections) && draggedItem == old(draggedItem)) &&
                (o.Completed? ==> sections == o.commit.GetOr(old(sections)) && draggedItem == None)
    {
      thrown := false;
      if draggedItem.None? {
        return;
      }
      var o := RunDrop(sections, draggedItem.value, targetId, targetKind, targetParentId, shift);
      if o.Thrown? {
        return true;
      }
      if o.commit.Some? {
        sections := o.commit.value;
      }
      draggedItem := None;
    }

    /** `handleDropOnSection`, the same rules. */
    method HandleDropOnSection(sectionId: string) returns (thrown: bool)
      modifies this`sections, this`draggedItem
      ensures old(draggedItem).None? ==> !thrown && sections == old(sections) && draggedItem == None
      ensures old(draggedItem).Some? ==>
                var o := DropOnSection(old(sections), old(draggedItem).value, sectionId);
                (thrown <==> o.Thrown?) &&
                (o.Thrown? ==> sections == old(sections) && draggedItem == old(draggedItem)) &&
                (o.Completed? ==> sections == o.commit.GetOr(old(sections)) && draggedItem == None)
    {
      thrown := false;
      if draggedItem.None? {
        return;
      }
      var o := RunDropOnSection(sections, draggedItem.value, sectionId);
      if o.Thrown? {
        return true;
      }
      if o.commit.Some? {
        sections := o.commit.value;
      }
      draggedItem := None;
    }

    // ------------------------------------------------------------ editing

    /** `handleAddSection`: a non-blank name appends the new section, resets the form and closes the modal. */
    method AddSection(freshId: string)
      modifies this`sections, this`sectionForm, this`showSectionModal
      ensures Trim(old(sectionForm).name) == [] ==>
                sections == old(sections) && sectionForm == old(sectionForm) && showSectionModal == old(showSectionModal)
      ensures Trim(old(sectionForm).name) != [] ==>
                sections == AddGbSection(old(sections), old(sectionForm), freshId) &&
                sectionForm == EmptyGbSectionForm && !showSectionModal
    {
      if Trim(sectionForm.name) != [] {
        sections := AddGbSection(sections, sectionForm, freshId);
        sectionForm := EmptyGbSectionForm;
        showSectionModal := false;
      }
    }

    /** The "+ Add Field" button of a section. */
    method OpenAddField(sectionId: string)
      modifies this`selectedSectionId, this`showFieldModal
      ensures selectedSectionId == Some(sectionId) && showFieldModal
    {
      selectedSectionId := Some(sectionId);
      showFieldModal := true;
    }

    /**
     * `handleAddField`: ignored without a name or a selection; a throw
     * changes nothing; otherwise the field is added, the form is reset,
     * the modal closes and the selection is cleared.
     */
    method AddField(freshId: string) returns (thrown: bool)
      modifies this`sections, this`fieldForm, this`showFieldModal, this`selectedSectionId
      ensures var o := AddGbField(old(sections), old(fieldForm), old(selectedSectionId), freshId);
              (thrown <==> o.AddThrows?) &&
              (!o.FieldAdded? ==> sections == old(sections) && fieldForm == old(fieldForm) &&
                                  showFieldModal == old(showFieldModal) && selectedSectionId == old(selectedSectionId)) &&
              (o.FieldAdded? ==> sections == o.sections && fieldForm == EmptyGbFieldForm &&
                                 !showFieldModal && selectedSectionId == None)
    {
      var o := AddGbField(sections, fieldForm, selectedSectionId, freshId);
      thrown := o.AddThrows?;
      if o.FieldAdded? {
        sections := o.sections;
        fieldForm := EmptyGbFieldForm;
        showFieldModal := false;
        selectedSectionId := None;
      }
    }

    /** `deleteSection`. */
    method DeleteSection(id: string)
      modifies this`sections
      ensures sections == DeleteGbSection(old(sections), id)
    {
      sections := DeleteGbSection(sections, id);
    }

    /** `deleteField`: a throw changes nothing. */
    method DeleteField(sectionId: string, fieldId: string) returns (thrown: bool)
      modifies this`sections
      ensures thrown <==> DeleteGbField(old(sections), sectionId, fieldId).None?
      ensures sections == DeleteGbField(old(sections), sectionId, fieldId).GetOr(old(sections))
    {
      var r := DeleteGbField(sections, sectionId, fieldId);
      thrown := r.None?;
      if r.Some? {
        sections := r.value;
      }
    }

    /** `handleSave`: the configuration of the current state is shown. */
    method Save()
      modifies this`jsonOutput, this`showJsonOutput
      ensures jsonOutput == Some(GbConfigOf(viewMode, showHPIBullets, showHeaders, sections)) && showJsonOutput
    {
      var j := GenerateJson(viewMode, showHPIBullets, showHeaders, sections);
      jsonOutput := Some(j);
      showJsonOutput := true;
    }
  }
}
