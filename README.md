# Form-schema tree editor: a Dafny model

The repository is a clinical form designer ("Scribe Customization Studio").
A form is an ordered forest of sections. Each section has an ordered list
of fields and an ordered list of child sections. Users build the forest
in a React component. They add and rename sections and categories, add,
edit and delete fields, and drag sections and fields around. The component
exports the forest as JSON, and an Express server stores it in the
`metadata` column of a MySQL template row.

This project models the core of that system and proves properties of the
model:

- **The current builder** (`src/SimpleApp.tsx`), in modules `SimpleTree`,
  `SimpleEdit`, `SimpleExport` and `SimpleBuilder`.
  - The recursive tree helpers become functions.
  - `findAndRemoveSection` and `findSectionWithParent` are modelled as
    written, including their quirks.
  - The drag handlers and form handlers become methods of the class
    `SimpleBuilder.FormBuilder`. Its fields are the component's state
    variables.
  - The two `splice` reorders run on an array copy (`Common.SpliceMove`).
- **The older builder** (`gb-code.tsx`), in modules `GbTree`, `GbEdit`,
  `GbForms`, `GbJson` and `GbBuilder`. Here `fields` and `subsections` may
  be absent, and the source behaves differently when they are, so they
  are `Option`s.
  - The deep-clone-then-splice `for` loops of `handleDrop` and
    `handleDropOnSection` become one loop method, `GbTree.EditFirstLoop`.
    It is proved equal to a recursive search `GbTree.EditList`.
  - The two-level `map` of `handleAddField` and `deleteField` is
    `GbEdit.EditTwoLevels`.
  - The serializer `generateJSON` becomes loop methods proved equal to
    functions.
  - The component state is the class `GbBuilder.GbFormBuilder`.
- **The server helpers** (`server.js`), in module `Server`:
  - `transformTemplateData`;
  - the `ext_` id convention;
  - how the GET and PUT `/configuration` routes read and merge a
    template's `metadata`. The PUT merge assigns two keys in place on a
    local object, `Server.MetadataObject`.

`Common` and `Text` hold generic sequence and string helpers. These model
the JavaScript built-ins the source uses: `splice`, `filter`, `map`,
`split`, `join`, `trim`, `startsWith`, `replace`, number to string and
truthiness.

Three conventions run through the model:

- **Outlines and listings.** Many lemmas say "nothing else changes" through
  a pre-order listing of the nodes. For the current builder this is
  `SimpleTree.Outline`: every node with its depth and with its children
  stripped off. `SimpleTree.OutlineDeterminesForest` proves that the
  outline loses nothing. For the older builder the listings are
  `GbTree.Collect` with a per-node view (ids, field ids, own keys).
- **Contexts.** A forest is written as a context (`GbTree.Plug` over
  `Frame`s) around a list `pre + [x] + post`. This states where a
  depth-first search hit and what it replaced.
- **Exceptions.** A JavaScript exception that the source does not catch
  leaves the React state unchanged. It is modelled as an outcome such as
  `Thrown`, `AddThrows`, `Crashed`, `None` or `ServerError`. The class
  methods then leave their fields alone.

The model follows the code wherever the code and its documentation
disagree:

- The section drop of the current builder reorders only the direct
  children of a top-level section. This is because `findSectionWithParent`
  reports the top-level ancestor as the "parent".
- `deleteSection` in the current builder looks only two levels deep. In
  the older builder it looks only at the top level.
- In the current builder, `totalFields` counts only two levels.
- In the older builder, a field dropped on itself is lost.
- In the older builder, a section dropped on its own subtree is lost.
- In the older builder, adding a field to the initial Social History
  category throws, because that category has no `fields` key.
- The PUT `/configuration` merge throws on `null` or primitive metadata.
  On array metadata it stores the array unchanged, because
  `JSON.stringify` drops the two assigned keys.

## Model

| member | source | states |
|---|---|---|
| SimpleTree.FirstWithId | src/SimpleApp.tsx:719 | `list.find` by id: None exactly when no element has the id, otherwise the first element with it |
| SimpleTree.OutlineConcat | src/SimpleApp.tsx:326-336 | the outline of two forests side by side is the concatenation of their outlines |
| SimpleTree.AllIdsConcat | src/SimpleApp.tsx:326-336 | the pre-order ids of two forests side by side concatenate |
| SimpleTree.OutlineIds | src/SimpleApp.tsx:326-336 | the ids an outline lists are the forest's pre-order ids, at any root depth |
| SimpleTree.OutlineIsFlatten | src/SimpleApp.tsx:326-336 | the outline lists, in pre-order, the head of every section of the forest |
| SimpleTree.DistinctParts | src/SimpleApp.tsx:326-336 | with distinct ids, the first root, its descendants and the other roots' trees have pairwise disjoint ids |
| SimpleTree.FindByIdIsFirstInPreorder | src/SimpleApp.tsx:326-336 | `findSectionById` returns the first section with the id in the pre-order listing of the forest |
| SimpleTree.FirstWithIdConcat | src/SimpleApp.tsx:326-336 | the first match in a concatenation is the first part's match, else the second part's |
| SimpleTree.FindByIdFinds | src/SimpleApp.tsx:326-336 | `findSectionById` finds a section exactly when the id occurs at some depth, and what it finds has the id |
| SimpleTree.UpdateWhere | src/SimpleApp.tsx:293-312 | the recursive `map` helpers keep the number of sections in every list |
| SimpleTree.UpdateWhereNoMatch | src/SimpleApp.tsx:339-354 | where no section has the id, the recursive update returns the forest unchanged |
| SimpleTree.OutlineCons | src/SimpleApp.tsx:326-336 | a non-empty forest's outline is the first root's entry, its subtree's outline, then the other roots' outlines |
| SimpleTree.UpdateWhereCons | src/SimpleApp.tsx:339-354 | one step of the update: a root with the id is replaced by f of it, otherwise the update goes into its children, and the rest of the list is updated alike |
| SimpleTree.UpdateAtFirst | src/SimpleApp.tsx:339-354 | when the first root has the id and no later root's tree does, only the first root's outline block changes, to f's |
| SimpleTree.UpdateBelowFirst | src/SimpleApp.tsx:339-354 | when the id lies below the first root, the outline change inside the children carries over to the whole forest |
| SimpleTree.UpdateAfterFirst | src/SimpleApp.tsx:339-354 | when the id lies in a later root's tree, the outline change in the tail carries over to the whole forest |
| SimpleTree.UpdateWhereSplit | src/SimpleApp.tsx:293-312 | with distinct ids, the update replaces the one section with the id, which is the one `findSectionById` returns, by f of it; every other outline entry stays in place |
| SimpleTree.UpdateWhereEntry | src/SimpleApp.tsx:339-354 | with distinct ids, an update that keeps a section's id and children changes exactly one outline entry, that of the section with the id, and keeps all ids |
| SimpleTree.SwapOneTree | src/SimpleApp.tsx:339-354 | replacing a tree by one with the same children changes exactly the entry of its root |
| SimpleTree.SameIdsAfterEntryUpdate | src/SimpleApp.tsx:339-354 | changing one outline entry without changing its id keeps the forest's ids |
| SimpleTree.EntryIndexUnique | src/SimpleApp.tsx:326-336 | with distinct ids, two outline entries with the same id are the same entry |
| SimpleTree.RemoveNoMatch | src/SimpleApp.tsx:805-823 | when the id does not occur, `findAndRemoveSection` returns the forest unchanged and reports no section |
| SimpleTree.RemoveSectionRemovesAll | src/SimpleApp.tsx:805-823 | after `findAndRemoveSection` no section with the id is left at any depth, no id is invented, and a section with the id is reported exactly when one occurred |
| SimpleTree.RemoveAtFirst | src/SimpleApp.tsx:805-823 | a first root with the id is dropped with its subtree and reported |
| SimpleTree.RemoveBelowFirst | src/SimpleApp.tsx:805-823 | a removal inside the first root's children cuts the same outline block out of the whole forest |
| SimpleTree.RemoveAfterFirst | src/SimpleApp.tsx:805-823 | a removal inside the later roots cuts the same outline block out of the whole forest |
| SimpleTree.RemoveSectionSplit | src/SimpleApp.tsx:805-823 | with distinct ids, removal cuts exactly the subtree of the one section with the id out of the outline and reports that section, the one `findSectionById` finds |
| SimpleTree.FindWithParentSection | src/SimpleApp.tsx:716-730 | the section `findSectionWithParent` reports is the one `findSectionById` finds |
| SimpleTree.FindWithParentIsTopAncestor | src/SimpleApp.tsx:716-730 | from the root, the reported parent is the top-level ancestor of the found section, and there is none when the section is top-level |
| SimpleTree.OutlineDepths | src/SimpleApp.tsx:326-336 | every outline entry sits at the root depth or deeper, and the first one at the root depth |
| SimpleTree.LeadDeeperConcat | src/SimpleApp.tsx:326-336 | the leading run of deeper entries of p + q is p when q starts at the root depth |
| SimpleTree.SplitAfterDeeper | src/SimpleApp.tsx:326-336 | two equal concatenations with the same shape split into equal parts |
| SimpleTree.OutlineUnfold | src/SimpleApp.tsx:326-336 | the outline of a non-empty forest unfolded once |
| SimpleTree.SplitEqualOutlines | src/SimpleApp.tsx:326-336 | equal outlines give equal first heads, equal child outlines and equal tail outlines |
| SimpleTree.OutlineInjective | src/SimpleApp.tsx:326-336 | forests with equal outlines at one depth are equal |
| SimpleTree.OutlineDeterminesForest | src/SimpleApp.tsx:326-336 | the outline determines the forest, so outline equations state whole edits |
| SimpleEdit.AddChildOutline | src/SimpleApp.tsx:293-312 | with distinct ids, `addCategoryToSection` puts the new child's tree right after the parent's subtree, one level below the parent; nothing else moves |
| SimpleEdit.AppendChildOutline | src/SimpleApp.tsx:293-312 | appending a child extends a tree's outline by the child's outline one level deeper |
| SimpleEdit.AddChildMissingParent | src/SimpleApp.tsx:293-312 | with no section carrying the parent id, adding a child changes nothing |
| SimpleEdit.NewCategory | src/SimpleApp.tsx:274-285 | the new category has the trimmed name, no fields, no children and no parent id |
| SimpleEdit.RenameCategoryRenamesOne | src/SimpleApp.tsx:314-323 | with distinct ids, an accepted rename changes exactly one outline entry, setting the trimmed name on the section with the id |
| SimpleEdit.RenameCategoryRejects | src/SimpleApp.tsx:314-323 | a missing section, a cancelled or blank answer, or the current name leaves the forest unchanged |
| SimpleEdit.NewFieldIsMerge | src/SimpleApp.tsx:356-369 | the field built by `handleAddField` equals the `{...field, ...fieldForm}` merge of any field with that id |
| SimpleEdit.EditWithoutChanges | src/SimpleApp.tsx:1486-1499 | opening a field for editing and saving without changes only fills absent keys; a second such save changes nothing; a field with every key stays as it is |
| SimpleEdit.EditFields | src/SimpleApp.tsx:405-408 | the inner map of `handleSaveEditField` keeps every field's id and every field without the edited id, and gives the edited fields the form's values |
| SimpleEdit.EditFieldsOfOne | src/SimpleApp.tsx:371-388 | with distinct ids, a field-list edit of the section with the id changes that one outline entry's fields and nothing else, keeping all ids |
| SimpleEdit.EditFieldsOfMissing | src/SimpleApp.tsx:371-388 | without a section carrying the id, a field-list edit changes nothing |
| SimpleEdit.AddFieldAppends | src/SimpleApp.tsx:371-388 | with distinct ids, adding a field appends it to the selected section's fields and changes no other part of the forest |
| SimpleEdit.SaveEditFieldUpdates | src/SimpleApp.tsx:399-428 | with distinct ids, saving an edited field merges the form into the fields with that id in the selected section only |
| SimpleEdit.DeleteFieldAtRemoves | src/SimpleApp.tsx:1506-1523 | with distinct ids, the inline delete removes the field at the index from that section and nothing else; an index past the end removes nothing |
| SimpleEdit.MoveFieldPlacement | src/SimpleApp.tsx:1286-1291 | the reordered field lands at the adjusted index, capped at the last index; taking it out again leaves the others in their old order; the list is a permutation |
| SimpleEdit.MoveFieldOntoItself | src/SimpleApp.tsx:1286-1291 | dropping a field on the zone above itself or above its successor keeps the order |
| SimpleEdit.ReorderFields | src/SimpleApp.tsx:1286-1291 | the two splices on a copied array give the reorder MoveField specifies |
| SimpleEdit.FieldDropReorders | src/SimpleApp.tsx:1282-1301 | a drop with an index inside the field's own section changes only that section's fields, by the reorder |
| SimpleEdit.ReorderDropIsFieldIn | src/SimpleApp.tsx:1282-1301 | a valid drop with an index inside the field's own section takes the reorder branch |
| SimpleEdit.ReorderFieldInOne | src/SimpleApp.tsx:1282-1301 | with distinct ids, the reorder branch changes only the source section's outline entry: the field is taken out and put back at the adjusted index |
| SimpleEdit.FieldDropMoves | src/SimpleApp.tsx:1302-1312 | a drop into another existing section removes the field from the source and inserts it into the target at the index, or appends it; no other outline entry changes |
| SimpleEdit.FieldDropToOwnSectionEnd | src/SimpleApp.tsx:1302-1312 | a drop on the field's own section with the optional index omitted (no call site omits it) moves it to the end |
| SimpleEdit.EditFieldsTwice | src/SimpleApp.tsx:1229-1269 | two field edits of one section compose on its single outline entry |
| SimpleEdit.FieldDropEndZoneAgrees | src/SimpleApp.tsx:1417 | a drop with the index omitted agrees with a drop at index `fields.length`, which the field area and the end zone both pass |
| SimpleEdit.FieldDropToMissingSection | src/SimpleApp.tsx:1302-1312 | a drop on a section that does not exist loses the field: it is removed and inserted nowhere |
| SimpleEdit.RemovedFieldIsFound | src/SimpleApp.tsx:1229-1250 | with distinct ids the field `removeFieldFromSection` reports is the field the drop checked, in the section `findSection` found |
| SimpleEdit.FieldDropDuplicateSource | src/SimpleApp.tsx:1229-1307 | when two sections share the source id, the move takes the field of the later one, and commits nothing when that one has no field at the index, although the earlier one passed the check |
| SimpleEdit.InTreeInIds | src/SimpleApp.tsx:716-730 | an id in a root's tree is an id of the forest |
| SimpleEdit.RootTreesDisjoint | src/SimpleApp.tsx:716-730 | with distinct ids, no id lies in the trees of two different roots |
| SimpleEdit.RootAboveItsTree | src/SimpleApp.tsx:716-730 | with distinct ids, a root's id does not recur below it and the ids below it are distinct |
| SimpleEdit.ChildIsNoOtherRoot | src/SimpleApp.tsx:749-786 | with distinct ids, no child of one root has another root's id |
| SimpleEdit.LocateUnderRoot | src/SimpleApp.tsx:716-730 | with distinct ids, a section in root i's tree is reported with root i as parent, or with none when it is root i |
| SimpleEdit.LocateMissing | src/SimpleApp.tsx:716-730 | a section not in the forest is reported as not found, with no parent |
| SimpleEdit.IndexOfId | src/SimpleApp.tsx:752-753 | `findIndex` by id: the first index with the id, or None when no element has it |
| SimpleEdit.MoveChildPlacement | src/SimpleApp.tsx:751-759 | the dragged child ends at the target's old index; taking it out gives the old list without it; the list is a permutation |
| SimpleEdit.ReorderChildren | src/SimpleApp.tsx:751-759 | the splices on the copied child list give the reorder MoveChild specifies |
| SimpleEdit.ReorderUnderOneRoot | src/SimpleApp.tsx:749-786 | with distinct ids, the reorder map changes root i's child list and nothing else |
| SimpleEdit.SectionDropWithinRoot | src/SimpleApp.tsx:742-788 | with distinct ids, dragging between two sections under the same root only reorders that root's direct children |
| SimpleEdit.SectionDropIgnoresDeepSiblings | src/SimpleApp.tsx:742-788 | dragging onto a sibling below the first level changes nothing |
| SimpleEdit.SectionDropMoves | src/SimpleApp.tsx:789-857 | in every other case the drop removes the dragged section and appends it, with `parentId` set, to the target's children |
| SimpleEdit.RootMovesOnDrop | src/SimpleApp.tsx:742-745 | a dragged top-level section always takes the move path |
| SimpleEdit.RemovalIds | src/SimpleApp.tsx:805-823 | with distinct ids, removal takes out exactly the ids of the removed tree and the rest stay distinct |
| SimpleEdit.SectionMoveOutline | src/SimpleApp.tsx:826-857 | the move in outline terms: the dragged tree leaves its place and reappears after the target's tree, one level below the target, with `parentId` set |
| SimpleEdit.SectionDropLosesSection | src/SimpleApp.tsx:843-857 | a drop on a missing target, or on a section inside the dragged one, deletes the dragged tree |
| SimpleEdit.SectionDropRootOntoDescendant | src/SimpleApp.tsx:843-857 | dropping a root onto one of its descendants deletes the root's whole tree |
| SimpleEdit.DropCompletesIffPresent | src/SimpleApp.tsx:735-741 | a drop past the guard reaches the final reset exactly when the dragged section is in the forest |
| SimpleEdit.DropOutsidePromotes | src/SimpleApp.tsx:875-927 | with distinct ids, dropping outside cuts the dragged tree out and puts it back as the last root, subtree intact and `parentId` removed |
| SimpleEdit.DropOutsideMissing | src/SimpleApp.tsx:875-927 | dropping outside a section that is not in the forest changes nothing |
| SimpleEdit.DragFeedbackForRoots | src/SimpleApp.tsx:655-685 | hovering one root over another shows "reorder", yet the drop nests the dragged root under the other |
| SimpleEdit.DeleteSection | src/SimpleApp.tsx:625-636 | after `deleteSection` no root and no root's child has the id |
| SimpleEdit.DeleteSectionRootIds | src/SimpleApp.tsx:625-636 | the surviving roots are the other roots, in their old order |
| SimpleEdit.FilterRootIds | src/SimpleApp.tsx:627 | filtering roots by id and then listing their ids equals filtering the ids |
| SimpleEdit.DeleteSectionLeavesDeeper | src/SimpleApp.tsx:625-636 | when neither a root nor a root's child has the id, nothing is deleted, even if a deeper section has it |
| SimpleEdit.ChildFieldCountBound | src/SimpleApp.tsx:444-447 | the children's own field counts never exceed the whole subtrees' field counts, and are equal for childless children |
| SimpleEdit.TotalFieldsUndercounts | src/SimpleApp.tsx:444-447 | `totalFields` never exceeds the number of fields in the forest and is exact when there are at most two levels |
| SimpleExport.Literals | src/SimpleApp.tsx:60 | `Literals` is empty exactly when the options are absent or empty, otherwise one entry per comma-separated piece |
| SimpleExport.StandardSections | src/SimpleApp.tsx:50-63 | one exported node per child, in order |
| SimpleExport.StandardFieldFacts | src/SimpleApp.tsx:53-61 | each field entry copies name, `required` and description, has type "string", a default of "" when absent, and no literals exactly when the options are absent or empty |
| SimpleExport.LiteralsRoundTrip | src/SimpleApp.tsx:60 | options written as comma-separated values without commas or outer spaces come back as exactly those values |
| SimpleExport.StandardSectionsPreserveTree | src/SimpleApp.tsx:49-63 | below the roots nothing is lost, reordered or invented: the export's section names in pre-order are the forest's, and every field gets an entry |
| SimpleExport.GenerateStandardSeeds | src/SimpleApp.tsx:64 | the export has one node per section without a truthy `parentId`, in order, with its name, and counts those trees' fields |
| SimpleExport.SeedsInOrder | src/SimpleApp.tsx:53 | the k-th exported node is the k-th section's export |
| SimpleExport.GenerateStandardNoRoots | src/SimpleApp.tsx:64 | a forest whose roots all have a `parentId` exports nothing |
| SimpleBuilder.InitialSectionsWellFormed | src/SimpleApp.tsx:88-122 | the initial form is four childless top-level sections with distinct ids |
| SimpleBuilder.NewSectionIsLastRoot | src/SimpleApp.tsx:258-272 | a new section becomes the last root, after the old outline, untouched |
| SimpleBuilder.SaveOf | src/SimpleApp.tsx:431-453 | the saved configuration's `totalFields` never exceeds the forest's field count |
| SimpleBuilder.ApplyStoredTouchesOnlyView | src/SimpleApp.tsx:512-522 | loading changes only the view mode, the two flags and the sections; a view without keys changes nothing |
| SimpleBuilder.LoadAfterSave | src/SimpleApp.tsx:431-453 | loading what was saved, wrapped in `configuration` or not, restores the same state |
| SimpleBuilder.LoadKeepsSectionsOnEmpty | src/SimpleApp.tsx:517-520 | an absent or empty loaded section list keeps the current sections |
| SimpleBuilder.SlotKey | src/SimpleApp.tsx:1431 | a field drop-zone key always contains a '-' |
| SimpleBuilder.SlotKeysDistinct | src/SimpleApp.tsx:1431 | different drop zones of one section have different keys, none equal to the end zone's |
| SimpleBuilder.FormBuilder.constructor | src/SimpleApp.tsx:69-147 | the builder starts in the initial state |
| SimpleBuilder.FormBuilder.SavedConfiguration | src/SimpleApp.tsx:431-453 | the saved configuration holds the sections and their count, and a `totalFields` that is exact for at most two levels |
| SimpleBuilder.FormBuilder.AddSection | src/SimpleApp.tsx:258-272 | a non-blank name appends a new root, resets the form and closes the modal; a blank one changes nothing |
| SimpleBuilder.FormBuilder.AddCategoryTo | src/SimpleApp.tsx:274-290 | the sections become those of `handleAddCategory` with the prompt's answer |
| SimpleBuilder.FormBuilder.RenameCategoryTo | src/SimpleApp.tsx:314-323 | the sections become those of `handleRenameCategory` with the prompt's answer |
| SimpleBuilder.FormBuilder.OpenAddField | src/SimpleApp.tsx:1392-1397 | the "+ Add Field" button selects the section and opens the modal |
| SimpleBuilder.FormBuilder.OpenEditField | src/SimpleApp.tsx:1486-1499 | the edit button fills the form from the field, selects the section, opens the modal, and edits the field's id, or none when it has no truthy id |
| SimpleBuilder.FormBuilder.CancelFieldModal | src/SimpleApp.tsx:2153 | Cancel closes the modal and clears the edited id |
| SimpleBuilder.FormBuilder.AddFieldFromForm | src/SimpleApp.tsx:356-396 | with a non-blank name and a selection the field is added and the form, modal, selection and edited id reset; otherwise nothing changes |
| SimpleBuilder.FormBuilder.SaveEditedField | src/SimpleApp.tsx:399-428 | with an edited id and a selection the form is merged into the field and everything resets; otherwise nothing changes |
| SimpleBuilder.FormBuilder.SubmitFieldModal | src/SimpleApp.tsx:2154 | the submit button saves when a field is being edited and adds otherwise |
| SimpleBuilder.FormBuilder.DeleteFieldInline | src/SimpleApp.tsx:1506-1523 | the delete button removes the field at its index from its section |
| SimpleBuilder.FormBuilder.DeleteSectionById | src/SimpleApp.tsx:625-636 | the sections become those `deleteSection` leaves |
| SimpleBuilder.FormBuilder.LoadConfiguration | src/SimpleApp.tsx:497-543 | a failed load changes nothing; otherwise a truthy view mode, defined flags and a non-empty section list replace the current ones |
| SimpleBuilder.FormBuilder.DragStart | src/SimpleApp.tsx:639-647 | the dragged section is recorded |
| SimpleBuilder.FormBuilder.DragEnd | src/SimpleApp.tsx:649-653 | the section drag state is cleared |
| SimpleBuilder.FormBuilder.DragOver | src/SimpleApp.tsx:655-685 | only while a section is dragged over another one the hovered section and the announced operation are recorded; the forest is never touched |
| SimpleBuilder.FormBuilder.DragLeave | src/SimpleApp.tsx:687-701 | leaving the section's box clears the hovered section |
| SimpleBuilder.FormBuilder.DropOnSection | src/SimpleApp.tsx:703-873 | the guard and the not-found path clear the dragged and hovered sections only; a completed drop applies the section drop and clears all three |
| SimpleBuilder.FormBuilder.DropOutsideSections | src/SimpleApp.tsx:875-927 | with nothing dragged nothing changes, and by the class invariant no section is highlighted; otherwise the dragged section is promoted and the drag state cleared |
| SimpleBuilder.FormBuilder.FieldDragStart | src/SimpleApp.tsx:1159-1187 | the dragged field is recorded |
| SimpleBuilder.FormBuilder.FieldDragOver | src/SimpleApp.tsx:1189-1200 | the field area is recorded unless a key with a '-' is already recorded |
| SimpleBuilder.FormBuilder.FieldDragLeave | src/SimpleApp.tsx:1202-1205 | the hovered field zone is cleared |
| SimpleBuilder.FormBuilder.FieldSlotDragOver | src/SimpleApp.tsx:1427-1433 | the zone above a field is marked only for another field of the same section |
| SimpleBuilder.FormBuilder.FieldEndDragOver | src/SimpleApp.tsx:1535-1541 | the end zone is marked only for a field of the same section |
| SimpleBuilder.FormBuilder.DropField | src/SimpleApp.tsx:1207-1329 | with no dragged field nothing changes, and by the class invariant no zone is highlighted; otherwise the field drop is applied, including its move of the last duplicate-id section's field, and the field drag state cleared |
| Common.SpliceMove | src/SimpleApp.tsx:757-759 | removing at one index and inserting at another in one array gives InsertAt of RemoveAt of the old contents |
| Common.SpliceMoveCopy | src/SimpleApp.tsx:1286-1291 | the same on a fresh copy of a sequence |
| Common.MoveShape | src/SimpleApp.tsx:1286-1291 | element by element, a move puts the element at the clamped destination, shifts those between the two places by one and leaves the rest in place |
| Common.RemoveAt | src/SimpleApp.tsx:1288 | `splice(i, 1)`: the element at i is dropped and the later ones shift down; an index past the end removes nothing |
| Common.InsertAt | src/SimpleApp.tsx:1259 | `splice(i, 0, x)`: x lands at i, or last when i is past the end, and the others keep their order around it |
| Common.RemoveAtMultiset | gb-code.tsx:176 | removing at an index loses exactly that element |
| Common.InsertAtMultiset | gb-code.tsx:205 | inserting adds exactly that element |
| Common.RemoveInserted | src/SimpleApp.tsx:1259 | taking out what was just inserted gives the list back |
| Common.Filter | src/SimpleApp.tsx:627 | `filter`: every kept element satisfies the test, comes from the input, and every input element passing the test is kept |
| Common.FilterIsOrderedSelection | gb-code.tsx:414 | `filter` keeps the input order and keeps as many elements as pass the test |
| Common.FilterSplitsMultiset | gb-code.tsx:422 | what `filter` keeps and what it drops together make up the input |
| Common.MapSeq | src/SimpleApp.tsx:64 | `map`: one result per element, in order |
| Text.TrimStartFacts | src/SimpleApp.tsx:259 | `trim` drops exactly the leading spaces, stopping at the first other character |
| Text.TrimEndFacts | src/SimpleApp.tsx:259 | `trim` drops exactly the trailing spaces, stopping at the last other character |
| Text.BlankIffTrimEmpty | src/SimpleApp.tsx:259 | `!s.trim()` holds exactly when trimming leaves the empty string |
| Text.TrimUnpadded | src/SimpleApp.tsx:279 | a name with no space at either end is its own trim |
| Text.Split | src/SimpleApp.tsx:60 | `split`: at least one piece, none containing the separator |
| Text.JoinSplit | gb-code.tsx:374 | joining the pieces of a split with the separator gives the text back |
| Text.SplitJoin | src/SimpleApp.tsx:60 | splitting a join of separator-free pieces gives the pieces back |
| Text.IndexFrom | server.js:464 | `indexOf`: the first occurrence at or after the start, or none when there is no occurrence |
| Text.ReplaceFirstOfPrefix | server.js:464 | `replace` of a string prefix by nothing strips exactly that prefix |
| Text.NatToDecimal | server.js:216 | `toString()` of a whole number: decimal digits without a leading zero |
| Text.DecimalRoundTrip | server.js:216 | the decimal text reads back as the number |
| GbTree.CollectConcat | gb-code.tsx:173-188 | a pre-order listing of two forests side by side is the concatenation of their listings |
| GbTree.CollectOne | gb-code.tsx:173-188 | a tree's listing is its root's part followed by its subsections' listing |
| GbTree.CollectPlug | gb-code.tsx:173-188 | a context contributes the same listing before and after whatever list is plugged in |
| GbTree.Regroup | gb-code.tsx:173-188 | regrouping a six-part concatenation |
| GbTree.EditFirstLoop | gb-code.tsx:173-214 | the depth-first `for` loop with splice and early return computes the recursive search EditList |
| GbTree.PrefixedTwice | gb-code.tsx:173-188 | prefixing a search result twice is prefixing by the concatenation |
| GbTree.EditListMissed | gb-code.tsx:173-188 | the search misses exactly when the probe skips every section |
| GbTree.EditListFound | gb-code.tsx:173-188 | a successful search hit a section x that the probe accepts, put in a context after sections it skipped, and replaced x by repl(x) in x's own list |
| GbTree.FoundBelow | gb-code.tsx:179-183 | a hit in the first section's subsections adds one frame to the context |
| GbTree.FoundLater | gb-code.tsx:174 | a hit among the later siblings keeps the skipped first tree in front |
| GbTree.ConsContext | gb-code.tsx:174 | a skipped sibling in front of a located hit extends its context |
| GbTree.ConsPlug | gb-code.tsx:174 | the same context, stated by Plug |
| GbTree.ConsSkips | gb-code.tsx:174 | the extended context is still skipped by the probe |
| GbTree.NeverThrown | gb-code.tsx:173-188 | a probe that never throws gives a search that never crashes |
| GbTree.SkipsAllIds | gb-code.tsx:175 | the id probe skips a forest exactly when no section has the id |
| GbTree.SkipsPathIds | gb-code.tsx:175 | a context is skipped by the id probe exactly when the id is not among its earlier nodes |
| GbTree.FirstById | gb-code.tsx:173-188 | a search by id succeeds exactly when the id occurs, at its first occurrence in pre-order |
| GbTree.MissingId | gb-code.tsx:173-188 | a search for an absent id misses |
| GbTree.SkipsAllNodes | gb-code.tsx:226-243 | a probe on own keys skips a forest exactly when it skips every node of the listing |
| GbTree.SkipsPathNodes | gb-code.tsx:226-243 | the same for a context's earlier nodes |
| GbTree.NoThrowNodes | gb-code.tsx:226-243 | a search whose probe throws at no node does not crash |
| GbTree.FirstHit | gb-code.tsx:226-243 | such a search finds the first node it accepts in pre-order |
| GbEdit.FieldIndex | gb-code.tsx:229 | `findIndex` by field id: the first index with the id, or the length for -1 |
| GbEdit.FoundHit | gb-code.tsx:226-243 | the search accepted the section it reports |
| GbEdit.DropOnSectionIsNestDrop | gb-code.tsx:340-343 | dropping a section on a section is `handleDrop` as a nest drop, whatever the shift key |
| GbEdit.SectionOnFieldIgnored | gb-code.tsx:167-219 | a dragged section dropped on a field changes nothing |
| GbEdit.TakeSection | gb-code.tsx:173-188 | the dragged section is cut out of its own list at its first occurrence |
| GbEdit.PlugCollect | gb-code.tsx:173-188 | the listing of a context around pre + m + post |
| GbEdit.NotElsewhere | gb-code.tsx:173-188 | in a list without duplicates a value in the middle part occurs nowhere else |
| GbEdit.NestIds | gb-code.tsx:196-202 | a nested target lists its own ids, then the nested section's |
| GbEdit.MoveKeepsIds | gb-code.tsx:173-214 | cutting d out and splicing in a list with d's and the target's ids keeps the forest's ids |
| GbEdit.MiddleMultiset | gb-code.tsx:173-214 | exchanging the middle part of a concatenation exchanges its elements |
| GbEdit.PairIds | gb-code.tsx:205 | the ids of two sections side by side |
| GbEdit.CutIds | gb-code.tsx:176 | cutting d out loses exactly d's subtree from the ids |
| GbEdit.EmptyMiddle | gb-code.tsx:176 | an empty middle part vanishes |
| GbEdit.DropSectionBefore | gb-code.tsx:173-214 | a non-nest section drop cuts the section out at its first occurrence and puts it right before the first section with the target id, keeping the ids; with no such section the dragged tree is lost |
| GbEdit.DropSectionNest | gb-code.tsx:196-202 | a nest drop makes the dragged section the target's last subsection and the target a 'category', keeping the ids; with no target the dragged tree is lost |
| GbEdit.NestIntoFacts | gb-code.tsx:198-202 | the nested target keeps its keys apart from its type, and its subsections gain d at the end |
| GbEdit.DropSectionMissing | gb-code.tsx:187-190 | a dragged section that does not occur commits nothing |
| GbEdit.DropSectionOntoOwnSubtree | gb-code.tsx:173-219 | with distinct ids, a section dropped on itself or below itself is lost: exactly its subtree's ids disappear |
| GbEdit.CutNoDuplicates | gb-code.tsx:176 | with distinct ids an id of the cut subtree is gone |
| GbEdit.FieldIndexFinds | gb-code.tsx:229 | `findIndex` finds a field exactly when one has the id |
| GbEdit.SourceProbeFacts | gb-code.tsx:228-230 | the source probe looks at own keys only, never throws, and accepts exactly the sections that have the field and the recorded id |
| GbEdit.TargetProbeFacts | gb-code.tsx:250-252 | the field-target probe throws exactly on a section with the target's id and no `fields` key, and accepts exactly the sections with the id and the target field |
| GbEdit.TakeFieldFirst | gb-code.tsx:226-243 | the dragged field leaves the first section in pre-order that has it and the recorded id |
| GbEdit.DropFieldMissing | gb-code.tsx:244-246 | a dragged field that no section with the recorded id holds commits nothing |
| GbEdit.PlugOne | gb-code.tsx:226-243 | the listing of a context around one section |
| GbEdit.ReplaceNode | gb-code.tsx:226-243 | replacing one section by another with the same subsections changes the listing only at that node |
| GbEdit.ReplaceNodes | gb-code.tsx:226-243 | after such a replacement every node is an old one or the new one |
| GbEdit.TakenFacts | gb-code.tsx:231 | the source keeps its id and subsections and loses exactly the dragged field |
| GbEdit.PlacedFacts | gb-code.tsx:253 | f goes where the target field was, the rest shift up by one, and no other field is lost or added |
| GbEdit.AppendedFacts | gb-code.tsx:270-272 | appending keeps the section's id and subsections and adds exactly f, creating the list when absent |
| GbEdit.TakeFieldForest | gb-code.tsx:226-243 | taking the field out keeps the sections and loses that one field id |
| GbEdit.TakeFieldNodes | gb-code.tsx:226-243 | after the field is taken out, every section is an old one or the source without the field |
| GbEdit.PutFieldForest | gb-code.tsx:248-281 | putting the field into its target keeps the sections and adds that one field id |
| GbEdit.Cancel | gb-code.tsx:220-285 | cancelling a common summand of multiset sums |
| GbEdit.HasFieldListed | gb-code.tsx:229 | a field a section has is among its field ids |
| GbEdit.NodeCollect | gb-code.tsx:226-243 | what a node contributes to a listing is in the listing |
| GbEdit.DropFieldStep | gb-code.tsx:244-285 | once the field is out, the target search decides the outcome: a crash throws, a hit commits its result, a miss commits the forest without the field |
| GbEdit.DropFieldOnSection | gb-code.tsx:266-281 | a field dropped on a section is pushed onto the first section with the target id, the sections unchanged and no field lost or doubled; with no such section the field is lost |
| GbEdit.DropFieldOnField | gb-code.tsx:248-263 | a field dropped on a field goes right before the first target field in the first qualifying section, the sections unchanged and no field lost or doubled; with no such section the field is lost |
| GbEdit.PutBeforeFirst | gb-code.tsx:248-263 | the target side of a drop on a field, when a section qualifies |
| GbEdit.DropFieldNeverThrows | gb-code.tsx:250-251 | a field drop throws only when a section with the target's section id lacks `fields` |
| GbEdit.DropOnSectionNeverThrows | gb-code.tsx:291-346 | `handleDropOnSection` never throws |
| GbEdit.DropFieldOntoItself | gb-code.tsx:687-691 | with distinct field ids, a field dropped on itself is lost, and the sections stay |
| GbEdit.OwnFieldIdsConcat | gb-code.tsx:377-397 | the own field ids of two lists of sections concatenate |
| GbEdit.EditSubsFacts | gb-code.tsx:384-393 | the subsection map throws exactly when a matched subsection lacks `fields`, otherwise edits exactly the matched subsections |
| GbEdit.EditSubsThrows | gb-code.tsx:384-393 | the subsection map throws exactly when a matched subsection lacks `fields` |
| GbEdit.EditSubsPointwise | gb-code.tsx:384-393 | without a throw, the subsection map edits exactly the matched subsections, each in its place |
| GbEdit.EditedKeeps | gb-code.tsx:380-382 | an edited section keeps its id, its other keys and its subsections |
| GbEdit.EditSubsIds | gb-code.tsx:384-393 | the subsection map keeps the ids, the other keys and what lies below |
| GbEdit.EditSubsReached | gb-code.tsx:384-393 | the matched subsections come out edited, in order |
| GbEdit.SumRel | gb-code.tsx:377-397 | two balanced multiset equations add up |
| GbEdit.ReachedOneFields | gb-code.tsx:389-391 | for a matched section, its own field ids are the ones that change |
| GbEdit.EditSubsFields | gb-code.tsx:384-393 | the subsection map changes field ids only in the matched subsections |
| GbEdit.EditTopFacts | gb-code.tsx:378-396 | one top-level step throws exactly when a section it reaches lacks `fields`, otherwise keeps ids, other keys and grandchildren and edits exactly the reached sections |
| GbEdit.AddLeft | gb-code.tsx:377-397 | adding a multiset on the left of both sides |
| GbEdit.TopParentFields | gb-code.tsx:384-393 | for a top-level section without the id, the field id change is its subsections' |
| GbEdit.EditTopFields | gb-code.tsx:378-396 | one top-level step changes field ids only in the sections it reaches |
| GbEdit.EditTwoLevelsFacts | gb-code.tsx:377-397 | the two-level map throws exactly when a reached section lacks `fields`; otherwise it keeps ids and other keys in pre-order, never touches the third level, and edits exactly the reached sections |
| GbEdit.OwnFieldIdsReached | gb-code.tsx:377-397 | the reached sections' own field ids split by top-level section |
| GbEdit.EditTwoLevelsFields | gb-code.tsx:377-397 | the two-level map changes field ids only in the reached sections |
| GbForms.OptionLinesFacts | gb-code.tsx:374 | every dropdown option is a non-blank line without a newline; the options keep the text's order and include every non-blank line |
| GbForms.OptionLinesOfJoin | gb-code.tsx:374 | options typed one per line come back as they were |
| GbForms.PushedOne | gb-code.tsx:381 | appending a field adds its id at the end of the section's field ids |
| GbForms.PushedIds | gb-code.tsx:381 | appending to every reached section adds the id once per reached section |
| GbForms.WithoutIds | gb-code.tsx:421 | `filter` by field id leaves no field with the id and every other id as often as before |
| GbForms.RemovedIds | gb-code.tsx:417-438 | removing from every reached section leaves none of the id there and the other ids as before |
| GbForms.AddGbFieldFacts | gb-code.tsx:363-411 | adding a field is ignored exactly without a name or a selection, throws exactly when a reached section lacks `fields`, otherwise keeps sections and adds the field id once per reached section |
| GbForms.DeleteGbFieldFacts | gb-code.tsx:417-438 | deleting a field throws exactly when a reached section lacks `fields`; otherwise the reached sections lose the id and every other field id stays as often as before |
| GbForms.WithoutFacts | gb-code.tsx:421 | the surviving fields keep their order, none has the id, and every other field survives |
| GbForms.EditSubsUndo | gb-code.tsx:384-393 | the subsection map with an edit that undoes the first gives the list back |
| GbForms.EditTopUndo | gb-code.tsx:378-396 | the same for one top-level step |
| GbForms.EditTwoLevelsUndo | gb-code.tsx:377-397 | the same for the two-level map |
| GbForms.WithoutPushed | gb-code.tsx:421 | removing a fresh id after appending it gives the list back |
| GbForms.DeleteUndoesAdd | gb-code.tsx:363-438 | deleting a just-added field whose id was fresh undoes the addition |
| GbForms.DeleteGbSectionFacts | gb-code.tsx:413-415 | `deleteSection` keeps, in order, exactly the top-level sections with other ids; with no top-level match nothing changes |
| GbForms.AddGbSectionFacts | gb-code.tsx:348-361 | a non-blank name appends a new empty last section; deleting it afterwards gives the old list when its id is fresh |
| GbForms.ReachedConcat | gb-code.tsx:377-397 | the reached sections of two lists concatenate |
| GbForms.ReachedNone | gb-code.tsx:377-397 | top-level sections without subsections and with other ids are not reached |
| GbForms.ReachedTop | gb-code.tsx:378 | a top-level section with the id is reached |
| GbForms.AddToFieldlessThrows | gb-code.tsx:378-382 | adding a field to a top-level section without `fields` throws |
| GbForms.TopIdListed | gb-code.tsx:15-130 | a top-level id is among the forest's ids |
| GbForms.SubIdListed | gb-code.tsx:15-130 | a direct subsection's id is among the forest's ids |
| GbForms.InitialCategory | gb-code.tsx:108-129 | the initial Social History category has no `fields` key, and its first subsection is in the form |
| GbForms.DeleteInitialSubsectionIgnored | gb-code.tsx:413-415 | deleting that subsection of the initial form does nothing |
| GbForms.InitialTopIdsDiffer | gb-code.tsx:15-130 | no top-level section of the initial form has that subsection's id |
| GbJson.Bucket | gb-code.tsx:475-480 | an empty bucket is deleted, a non-empty one kept |
| GbJson.MapSeqSubsequence | gb-code.tsx:453-472 | mapping keeps a subsequence a subsequence |
| GbJson.BucketsPartition | gb-code.tsx:453-472 | the buckets keep the fields' order, sizes add up, `listFields` holds the repeated fields, and together they hold every cleaned field |
| GbJson.CleanSectionFacts | gb-code.tsx:442-527 | bucket keys are present exactly when non-empty, `subsections` exactly when the section has it, one clean subsection each in order, `disabled` copied |
| GbJson.CleanSubIsShallow | gb-code.tsx:482-521 | subsections are serialized one level deep, like top-level sections without `subsections` and `disabled` |
| GbJson.CleanFieldDefaults | gb-code.tsx:455-464 | a field without optional keys gets `''`, `false` and `[]`, and no `repeated` key |
| GbJson.FieldlessSectionHasNoBuckets | gb-code.tsx:453-480 | a section without `fields` has neither bucket key |
| GbJson.BucketsSnoc | gb-code.tsx:466-470 | one more field goes into exactly one bucket, at its end |
| GbJson.SplitBuckets | gb-code.tsx:453-472 | the `forEach` loop fills the buckets the partition specifies |
| GbJson.CleanSubsection | gb-code.tsx:483-520 | the built clean subsection is the specified one |
| GbJson.CleanTopSection | gb-code.tsx:442-527 | the built clean section is the specified one |
| GbJson.GenerateJson | gb-code.tsx:441-536 | `generateJSON` yields the specified configuration |
| GbJson.GbConfigFacts | gb-code.tsx:441-536 | one clean section per top-level section, in order, with bucket sizes adding up to its field count |
| GbBuilder.RunDrop | gb-code.tsx:160-289 | `handleDrop`'s two loops on the clone give the Drop outcome |
| GbBuilder.RunDropOnSection | gb-code.tsx:291-346 | `handleDropOnSection`'s loops give the DropOnSection outcome |
| GbBuilder.GbFormBuilder.constructor | gb-code.tsx:5-146 | the builder starts with the initial form and settings |
| GbBuilder.GbFormBuilder.DragStart | gb-code.tsx:148-152 | the dragged item is recorded |
| GbBuilder.GbFormBuilder.HandleDrop | gb-code.tsx:160-289 | nothing without a drag; a throw changes nothing; otherwise the commit becomes the forest and the drag ends |
| GbBuilder.GbFormBuilder.HandleDropOnSection | gb-code.tsx:291-346 | the same rules for a drop on a section |
| GbBuilder.GbFormBuilder.AddSection | gb-code.tsx:348-361 | a non-blank name appends the section, resets the form and closes the modal; otherwise nothing changes |
| GbBuilder.GbFormBuilder.OpenAddField | gb-code.tsx:613-617 | the button selects the section and opens the modal |
| GbBuilder.GbFormBuilder.AddField | gb-code.tsx:363-411 | an ignored or throwing add changes nothing; otherwise the field is added and the form, modal and selection reset |
| GbBuilder.GbFormBuilder.DeleteSection | gb-code.tsx:413-415 | the sections become those `deleteSection` leaves |
| GbBuilder.GbFormBuilder.DeleteField | gb-code.tsx:417-438 | a throw changes nothing; otherwise the field is deleted |
| GbBuilder.GbFormBuilder.Save | gb-code.tsx:440-551 | the configuration of the current state is stored and shown |
| Server.OrElse | server.js:217 | the `or` default of a string: the value when truthy, else the default |
| Server.TransformKeepsTemplateSections | server.js:203-234 | exactly the template's section rows are kept, in input order, each exported id reading back as the row's id |
| Server.SectionFieldsAreItsRows | server.js:206-213 | each section's fields are exactly the field rows with its id, in order, one per row |
| Server.AppFieldRules | server.js:208-213 | `required` iff `is_required` is 1; type "text" by default; length "" iff `max_length` is absent or 0 (falsy), else its decimal text, signed when negative |
| Server.AppSectionRules | server.js:214-223 | `disabled` iff `is_disabled` is 1; no children; a parent id iff the column is truthy, reading back as it |
| Server.ExternalIdStrips | server.js:460-464 | an external id is "ext_" followed by the id the strip returns |
| Server.ExternalIdRoundTrip | server.js:543-547 | prefixing and stripping are inverse, for every id |
| Server.ListedExternalIdFacts | server.js:273-274 | a listed external id is external; a non-empty string id strips back to itself and a positive numeric id to its decimal text; a missing, empty or zero id (all falsy) strips to the list index, so id 0 and no id give the same external id |
| Server.GetConfigurationFacts | server.js:605-654 | 404 exactly without a row; the result always has keys; for metadata the driver parsed or text `JSON.parse` accepts, a truthy `configuration` member with keys is returned as it is, the value itself when it has keys and no such member, and the default otherwise; without metadata, or with text the parse rejects, the default |
| Server.MetadataObject.constructor | server.js:686-697 | the local object starts with the parsed metadata |
| Server.MetadataObject.Assign | server.js:700-701 | one key is set, the others unchanged |
| Server.PutConfigurationSteps | server.js:662-728 | the route's steps (parsing string metadata again, assigning the two keys in place) give the reply `PutConfiguration` specifies |
| Server.PutConfigurationFacts | server.js:662-728 | 400 exactly without a truthy configuration, then 404 without a row; without metadata or with text the parse rejects, exactly the two keys are stored; object metadata keeps every other key and gains exactly the two; an array is stored unchanged; 500 exactly when the metadata reads as null or a primitive |
| Server.PutThenGet | server.js:605-728 | a configuration with keys stored by PUT is what GET then returns |

## Left out

- React rendering, JSX, CSS, toasts, `alert` and `confirm` are left out. `prompt` answers, the shift key and the "left the box" test of `handleDragLeave` are parameters. The box test itself is pixel arithmetic.
- `Date.now()` ids and `new Date().toISOString()` timestamps are parameters (`freshId`, `now`).
- JSON text is left out (`JSON.stringify`, `JSON.parse`, pretty-printing, key order). Outputs are datatypes. The result of parsing the metadata text is an input (`Server.Metadata`).
- The template list screen, the template API client and `fetch`, plus the async order of saving and loading. These are I/O and concurrency.
- The HTTP routes other than the two configuration routes, Express middleware, the MySQL pool, stored procedures and the external-service sync. They are plumbing. The routes' inputs are the rows the procedures return.
- `parseFloat(template.version) + 0.1` in the PUT route is floating point, so the stored version is left out.
- SimpleBuilder.FormBuilder.OpenEditField: does not model the cast `(field as any)`. The form takes `repeated`, `defaultValue` and `dropdownOptions` as the field holds them, with the same defaults.
- Server.PutConfigurationSteps: the update call and the success body are left out. The reply carries the metadata that would be stored.
- The `dataTransfer` calls of the drag handlers carry no state the handlers read back.
- `Section.children` is optional in the source's type. The model holds an absent key as the empty list, which differs only in whether a saved section's JSON object has the key.
- Server.ListedExternalIdFacts: external-service ids are strings or integers. A boolean, object or fractional id is left out.
- The keys of a listed external template other than its id (the `||` defaults of its name, description, domain, date and sections) are left out. Nothing in the configuration routes reads them.
