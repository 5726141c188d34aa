/**
 * The edits of the older form builder (gb-code.tsx) on its section tree:
 * the drop handlers `handleDrop` and `handleDropOnSection`, section and
 * field creation, and the two delete buttons. Each drop runs the first-hit
 * search of `GbTree` once to take the dragged node out of a deep clone of
 * the state and once more to put it back. The lemmas say where the node
 * ends up in terms of contexts (`Plug`): the forest around the edited list
 * is the same before and after.
 */
module GbEdit {

  import opened Common
  import opened Text
  import opened GbTree

  /** `draggedItem.type`, and equally the `targetType` of a drop. */
  datatype ItemKind = SectionItem | FieldItem

  /**
   * `draggedItem`: the id of the dragged section or field, its kind, and for
   * a field the id of the section it was dragged from.
   */
  datatype DragItem = DragItem(itemId: string, kind: ItemKind, parentId: Option<string>)

  /** What a drop handler does: it throws, or it finishes, committing a new forest or nothing. */
  datatype DropOutcome = Thrown | Completed(commit: Option<seq<GbSection>>)

  // ------------------------------------------------------------ the replacements spliced in

  /** `splice(i, 1)`: the section is taken out of its list. */
  function Dropped(): GbSection -> seq<GbSection> {
    (s: GbSection) => []
  }

  /** `splice(i, 0, d)`: d goes in just before the section. */
  function InsertBefore(d: GbSection): GbSection -> seq<GbSection> {
    (s: GbSection) => [d, s]
  }

  /** The target after a nest drop: its subsections (created when absent) end with d, and its type becomes 'category'. */
  function NestInto(t: GbSection, d: GbSection): GbSection {
    WithSubs(t, Subs(t) + [d]).(kind := "category")
  }

  function Nest(d: GbSection): GbSection -> seq<GbSection> {
    (s: GbSection) => [NestInto(s, d)]
  }

  /** `fields.findIndex(f => f.id === id)`, with "not found" (-1) as the length. */
  function FieldIndex(fs: seq<GbField>, id: string): (i: nat)
    ensures i <= |fs|
    ensures i < |fs| ==> fs[i].id == id
    ensures forall j :: 0 <= j < i ==> fs[j].id != id
  {
    if fs == [] then 0 else if fs[0].id == id then 0 else 1 + FieldIndex(fs[1..], id)
  }

  /** The section the dragged field comes from: `section.fields && section.id === parentId` and the field is in it. */
  function SourceProbe(parentId: Option<string>, fieldId: string): GbSection -> Probe {
    (s: GbSection) =>
      if s.fields.Some? && parentId == Some(s.id) && FieldIndex(s.fields.value, fieldId) < |s.fields.value| then Hit else Skip
  }

  /** The source section once the field is spliced out. */
  function Taken(s: GbSection, fieldId: string): GbSection {
    s.(fields := Some(RemoveAt(s.fields.GetOr([]), FieldIndex(s.fields.GetOr([]), fieldId))))
  }

  /** The target section once f is spliced in before its first field with the id. */
  function Placed(t: GbSection, fieldId: string, f: GbField): GbSection {
    t.(fields := Some(InsertAt(t.fields.GetOr([]), FieldIndex(t.fields.GetOr([]), fieldId), f)))
  }

  /** The target section once f is pushed onto its fields. */
  function Appended(t: GbSection, f: GbField): GbSection {
    t.(fields := Some(t.fields.GetOr([]) + [f]))
  }

  /** The source section with the dragged field spliced out. */
  function TakeField(fieldId: string): GbSection -> seq<GbSection> {
    (s: GbSection) => [Taken(s, fieldId)]
  }

  /** The field `splice` returned. */
  function FieldOf(s: GbSection, fieldId: string): GbField
    requires s.fields.Some? && FieldIndex(s.fields.value, fieldId) < |s.fields.value|
  {
    s.fields.value[FieldIndex(s.fields.value, fieldId)]
  }

  /**
   * The target of a drop on a field: `section.id === targetParentId`, then
   * `section.fields.findIndex(...)`, which throws when the section has no
   * `fields` key.
   */
  function TargetProbe(sectionId: Option<string>, fieldId: string): GbSection -> Probe {
    (s: GbSection) =>
      if Some(s.id) != sectionId then Skip
      else if s.fields.None? then Throw
      else if FieldIndex(s.fields.value, fieldId) < |s.fields.value| then Hit
      else Skip
  }

  /** `fields.splice(targetIndex, 0, f)`. */
  function PutBefore(fieldId: string, f: GbField): GbSection -> seq<GbSection> {
    (s: GbSection) => [Placed(s, fieldId, f)]
  }

  /** `fields.push(f)`, creating the list when it is absent. */
  function Append(f: GbField): GbSection -> seq<GbSection> {
    (s: GbSection) => [Appended(s, f)]
  }

  // ------------------------------------------------------------ the drop handlers

  /** A nest drop: the shift key is held or the caller passed 'nest'. */
  predicate IsNest(targetParentId: Option<string>, shift: bool) {
    shift || targetParentId == Some("nest")
  }

  /**
   * `handleDrop` once a drag is active. A dragged section is taken out at its
   * first occurrence and, when the target is a section, put before the
   * target or nested into it. When the target is not found in what is left,
   * the forest without the section is committed all the same. A dragged
   * field is taken out of its section and put before the target field or at
   * the end of the target section. Nothing is committed when the dragged
   * node is not found.
   */
  function Drop(l: seq<GbSection>, item: DragItem, targetId: string, targetKind: ItemKind,
                targetParentId: Option<string>, shift: bool): DropOutcome
  {
    match item.kind
    case SectionItem =>
      if targetKind != SectionItem then Completed(None)
      else DropSectionOn(l, item.itemId, targetId, IsNest(targetParentId, shift))
    case FieldItem => DropFieldOn(l, item, targetId, targetKind, targetParentId)
  }

  /** The section branch: cut the dragged section out, then nest it into the target or put it before it. */
  function DropSectionOn(l: seq<GbSection>, itemId: string, targetId: string, nest: bool): DropOutcome {
    var rm := EditList(l, IdProbe(itemId), Dropped());
    if !rm.Found? then Completed(None)
    else
      var placed := EditList(rm.list, IdProbe(targetId), if nest then Nest(rm.hit) else InsertBefore(rm.hit));
      Completed(Some(if placed.Found? then placed.list else rm.list))
  }

  /** The field branch: take the dragged field out of its section, then put it before the target field or at the end of the target section. */
  function DropFieldOn(l: seq<GbSection>, item: DragItem, targetId: string, targetKind: ItemKind,
                       targetParentId: Option<string>): DropOutcome
  {
    var rm := EditList(l, SourceProbe(item.parentId, item.itemId), TakeField(item.itemId));
    if !rm.Found? then Completed(None)
    else
      FoundHit(l, SourceProbe(item.parentId, item.itemId), TakeField(item.itemId));
      var f := FieldOf(rm.hit, item.itemId);
      var placed := if targetKind == FieldItem then EditList(rm.list, TargetProbe(targetParentId, targetId), PutBefore(targetId, f))
                    else EditList(rm.list, IdProbe(targetId), Append(f));
      if placed.Crashed? then Thrown
      else Completed(Some(if placed.Found? then placed.list else rm.list))
  }

  /**
   * `handleDropOnSection` once a drag is active: a field goes to the end of
   * the section, a section is nested into it through `handleDrop`.
   */
  function DropOnSection(l: seq<GbSection>, item: DragItem, sectionId: string): DropOutcome {
    match item.kind
    case FieldItem =>
      var rm := EditList(l, SourceProbe(item.parentId, item.itemId), TakeField(item.itemId));
      if !rm.Found? then Completed(None)
      else
        FoundHit(l, SourceProbe(item.parentId, item.itemId), TakeField(item.itemId));
        var placed := EditList(rm.list, IdProbe(sectionId), Append(FieldOf(rm.hit, item.itemId)));
        Completed(Some(if placed.Found? then placed.list else rm.list))
    case SectionItem =>
      Drop(l, item, sectionId, SectionItem, Some("nest"), false)
  }

  /** The search accepted the section it reports. */
  lemma {:induction false} FoundHit(l: seq<GbSection>, probe: GbSection -> Probe, repl: GbSection -> seq<GbSection>)
    requires EditList(l, probe, repl).Found?
    ensures probe(EditList(l, probe, repl).hit) == Hit
  {
    var path, pre, x, post := EditListFound(l, probe, repl);
  }

  /** Dropping on a section is a `handleDrop` on that section as a nest drop, whatever the shift key. */
  lemma {:induction false} DropOnSectionIsNestDrop(l: seq<GbSection>, item: DragItem, sectionId: string, shift: bool)
    ensures DropOnSection(l, item, sectionId) == Drop(l, item, sectionId, SectionItem, Some("nest"), shift)
  {
    if item.kind == FieldItem {
      var rm := EditList(l, SourceProbe(item.parentId, item.itemId), TakeField(item.itemId));
      if rm.Found? {
        FoundHit(l, SourceProbe(item.parentId, item.itemId), TakeField(item.itemId));
        NeverThrown(rm.list, IdProbe(sectionId), Append(FieldOf(rm.hit, item.itemId)));
      }
    }
  }

  /** A dragged section dropped on a field changes nothing. */
  lemma {:induction false} SectionOnFieldIgnored(l: seq<GbSection>, item: DragItem, targetId: string, targetParentId: Option<string>, shift: bool)
    requires item.kind == SectionItem
    ensures Drop(l, item, targetId, FieldItem, targetParentId, shift) == Completed(None)
  {
  }

  // ------------------------------------------------------------ section drops

  /** The dragged section's way out: its first occurrence is cut out of its list. */
  lemma {:induction false} TakeSection(l: seq<GbSection>, id: string)
      returns (path: seq<Frame>, pre: seq<GbSection>, d: GbSection, post: seq<GbSection>)
    requires id in GbIds(l)
    ensures l == Plug(path, pre + [d] + post) && d.id == id
    ensures id !in CollectBefore(path, IdOf) + GbIds(pre)
    ensures EditList(l, IdProbe(id), Dropped()) == Found(Plug(path, pre + post), d)
  {
    path, pre, d, post := FirstById(l, id, Dropped());
    assert Dropped()(d) == [];
    assert pre + [] + post == pre + post;
  }

  /** The ids of the dragged section and of everything below it (its first occurrence). */
  function SubtreeIds(l: seq<GbSection>, id: string): seq<string> {
    var r := EditList(l, IdProbe(id), Dropped());
    if r.Found? then GbIds([r.hit]) else []
  }

  /** Listing a forest with m plugged into a context: the context's part, then m's, then the context's rest. */
  lemma {:induction false} PlugCollect<T>(path: seq<Frame>, pre: seq<GbSection>, m: seq<GbSection>, post: seq<GbSection>, g: GbSection -> seq<T>)
    ensures Collect(Plug(path, pre + m + post), g)
         == (CollectBefore(path, g) + Collect(pre, g)) + Collect(m, g) + (Collect(post, g) + CollectAfter(path, g))
  {
    CollectPlug(path, pre + m + post, g);
    CollectConcat(pre + m, post, g);
    CollectConcat(pre, m, g);
    RegroupAround(CollectBefore(path, g), Collect(pre, g), Collect(m, g), Collect(post, g), CollectAfter(path, g));
  }

  /** A value that occurs in the middle part of a list without duplicates occurs nowhere else. */
  lemma {:induction false} NotElsewhere<T>(a: seq<T>, m: seq<T>, b: seq<T>, x: T)
    requires NoDuplicates(a + m + b) && x in m
    ensures x !in a + b
  {
    NoDuplicatesConcat(a + m, b);
    NoDuplicatesConcat(a, m);
  }

  /** The ids of a nested target: the target's own, then the nested section's. */
  lemma {:induction false} NestIds(t: GbSection, d: GbSection)
    ensures GbIds([NestInto(t, d)]) == GbIds([t]) + GbIds([d])
  {
    var n := NestInto(t, d);
    CollectOne(n, IdOf);
    CollectOne(t, IdOf);
    assert Subs(n) == Subs(t) + [d];
    CollectConcat(Subs(t), [d], IdOf);
  }

  /**
   * Cutting d out of one place and splicing m, which holds the ids of d and
   * of the section t it replaces, in at t's place keeps the ids of the forest.
   */
  lemma {:induction false} MoveKeepsIds(path: seq<Frame>, pre: seq<GbSection>, d: GbSection, post: seq<GbSection>,
                     path2: seq<Frame>, pre2: seq<GbSection>, t: GbSection, post2: seq<GbSection>, m: seq<GbSection>)
    requires Plug(path, pre + post) == Plug(path2, pre2 + [t] + post2)
    requires multiset(GbIds(m)) == multiset(GbIds([t])) + multiset(GbIds([d]))
    ensures multiset(GbIds(Plug(path2, pre2 + m + post2))) == multiset(GbIds(Plug(path, pre + [d] + post)))
  {
    CutIds(path, pre, d, post);
    PlugCollect(path2, pre2, [t], post2, IdOf);
    PlugCollect(path2, pre2, m, post2, IdOf);
    MiddleMultiset(CollectBefore(path2, IdOf) + GbIds(pre2), GbIds([t]), GbIds(m), GbIds(post2) + CollectAfter(path2, IdOf));
  }

  /** Exchanging the middle part of a concatenation exchanges its elements. */
  lemma {:induction false} MiddleMultiset<T>(x: seq<T>, a: seq<T>, b: seq<T>, y: seq<T>)
    ensures multiset(x + b + y) + multiset(a) == multiset(x + a + y) + multiset(b)
  {
  }

  lemma {:induction false} PairIds(d: GbSection, t: GbSection)
    ensures GbIds([d, t]) == GbIds([d]) + GbIds([t])
  {
    assert [d] + [t] == [d, t];
    CollectConcat([d], [t], IdOf);
  }

  /** Cutting d out loses exactly d's subtree from the ids. */
  lemma {:induction false} CutIds(path: seq<Frame>, pre: seq<GbSection>, d: GbSection, post: seq<GbSection>)
    ensures multiset(GbIds(Plug(path, pre + post))) + multiset(GbIds([d])) == multiset(GbIds(Plug(path, pre + [d] + post)))
  {
    PlugCollect(path, pre, [d], post, IdOf);
    PlugCollect(path, pre, [], post, IdOf);
    EmptyMiddle(pre, post);
  }

  lemma {:induction false} EmptyMiddle<T>(a: seq<T>, b: seq<T>)
    ensures a + [] + b == a + b
  {
  }

  /**
   * A section dropped on a section without nesting is cut out at its first
   * occurrence and put immediately before the first section with the target
   * id in what is left, in that section's list; the ids of the forest are
   * the same afterwards. When no section of what is left has the target id,
   * what is left is committed and the dragged section is lost with its
   * subtree.
   */
  lemma {:induction false} DropSectionBefore(l: seq<GbSection>, item: DragItem, targetId: string, targetParentId: Option<string>, shift: bool)
      returns (path: seq<Frame>, pre: seq<GbSection>, d: GbSection, post: seq<GbSection>,
               path2: seq<Frame>, pre2: seq<GbSection>, t: GbSection, post2: seq<GbSection>)
    requires item.kind == SectionItem && !IsNest(targetParentId, shift)
    requires item.itemId in GbIds(l)
    ensures l == Plug(path, pre + [d] + post) && d.id == item.itemId
    ensures item.itemId !in CollectBefore(path, IdOf) + GbIds(pre)
    ensures EditList(l, IdProbe(item.itemId), Dropped()) == Found(Plug(path, pre + post), d)
    ensures targetId in GbIds(Plug(path, pre + post)) ==>
              Plug(path, pre + post) == Plug(path2, pre2 + [t] + post2) && t.id == targetId
              && targetId !in CollectBefore(path2, IdOf) + GbIds(pre2)
              && Drop(l, item, targetId, SectionItem, targetParentId, shift) == Completed(Some(Plug(path2, pre2 + [d, t] + post2)))
              && multiset(GbIds(Plug(path2, pre2 + [d, t] + post2))) == multiset(GbIds(l))
    ensures targetId !in GbIds(Plug(path, pre + post)) ==>
              Drop(l, item, targetId, SectionItem, targetParentId, shift) == Completed(Some(Plug(path, pre + post)))
              && multiset(GbIds(Plug(path, pre + post))) + multiset(GbIds([d])) == multiset(GbIds(l))
  {
    path, pre, d, post := TakeSection(l, item.itemId);
    var rest := Plug(path, pre + post);
    assert Drop(l, item, targetId, SectionItem, targetParentId, shift) == DropSectionOn(l, item.itemId, targetId, false);
    CutIds(path, pre, d, post);
    if targetId in GbIds(rest) {
      path2, pre2, t, post2 := FirstById(rest, targetId, InsertBefore(d));
      assert InsertBefore(d)(t) == [d, t];
      PairIds(d, t);
      assert multiset(GbIds([d, t])) == multiset(GbIds([t])) + multiset(GbIds([d]));
      MoveKeepsIds(path, pre, d, post, path2, pre2, t, post2, [d, t]);
    } else {
      MissingId(rest, targetId, InsertBefore(d));
      path2, pre2, t, post2 := [], [], d, [];
    }
  }

  /**
   * A nest drop: the dragged section, cut out at its first occurrence,
   * becomes the last subsection of the first section with the target id in
   * what is left, and that section's type becomes 'category'; the ids of the
   * forest are the same afterwards. When no section of what is left has the
   * target id, the dragged section is lost with its subtree.
   */
  lemma {:induction false} DropSectionNest(l: seq<GbSection>, item: DragItem, targetId: string, targetParentId: Option<string>, shift: bool)
      returns (path: seq<Frame>, pre: seq<GbSection>, d: GbSection, post: seq<GbSection>,
               path2: seq<Frame>, pre2: seq<GbSection>, t: GbSection, post2: seq<GbSection>)
    requires item.kind == SectionItem && IsNest(targetParentId, shift)
    requires item.itemId in GbIds(l)
    ensures l == Plug(path, pre + [d] + post) && d.id == item.itemId
    ensures item.itemId !in CollectBefore(path, IdOf) + GbIds(pre)
    ensures EditList(l, IdProbe(item.itemId), Dropped()) == Found(Plug(path, pre + post), d)
    ensures targetId in GbIds(Plug(path, pre + post)) ==>
              Plug(path, pre + post) == Plug(path2, pre2 + [t] + post2) && t.id == targetId
              && targetId !in CollectBefore(path2, IdOf) + GbIds(pre2)
              && Drop(l, item, targetId, SectionItem, targetParentId, shift) == Completed(Some(Plug(path2, pre2 + [NestInto(t, d)] + post2)))
              && multiset(GbIds(Plug(path2, pre2 + [NestInto(t, d)] + post2))) == multiset(GbIds(l))
    ensures targetId !in GbIds(Plug(path, pre + post)) ==>
              Drop(l, item, targetId, SectionItem, targetParentId, shift) == Completed(Some(Plug(path, pre + post)))
              && multiset(GbIds(Plug(path, pre + post))) + multiset(GbIds([d])) == multiset(GbIds(l))
  {
    path, pre, d, post := TakeSection(l, item.itemId);
    var rest := Plug(path, pre + post);
    assert Drop(l, item, targetId, SectionItem, targetParentId, shift) == DropSectionOn(l, item.itemId, targetId, true);
    CutIds(path, pre, d, post);
    if targetId in GbIds(rest) {
      path2, pre2, t, post2 := FirstById(rest, targetId, Nest(d));
      assert Nest(d)(t) == [NestInto(t, d)];
      NestIds(t, d);
      MoveKeepsIds(path, pre, d, post, path2, pre2, t, post2, [NestInto(t, d)]);
    } else {
      MissingId(rest, targetId, Nest(d));
      path2, pre2, t, post2 := [], [], d, [];
    }
  }

  /** The nested section keeps its keys and subsections, and so does the target apart from its type. */
  lemma {:induction false} NestIntoFacts(t: GbSection, d: GbSection)
    ensures Head(NestInto(t, d)) == Head(t).(kind := "category")
    ensures Subs(NestInto(t, d)) == Subs(t) + [d]
  {
  }

  /** A dragged section that does not occur is a drop that commits nothing. */
  lemma {:induction false} DropSectionMissing(l: seq<GbSection>, item: DragItem, targetId: string, targetKind: ItemKind,
                           targetParentId: Option<string>, shift: bool)
    requires item.kind == SectionItem && item.itemId !in GbIds(l)
    ensures Drop(l, item, targetId, targetKind, targetParentId, shift) == Completed(None)
  {
    MissingId(l, item.itemId, Dropped());
  }

  /**
   * With distinct ids, a section dropped on itself or on a section below it
   * (nesting or not) is lost: what is committed lacks exactly its subtree.
   * The early return for a dragged section nested in its own target that
   * a UI guard would give is absent from `handleDrop`.
   */
  lemma {:induction false} DropSectionOntoOwnSubtree(l: seq<GbSection>, item: DragItem, targetId: string,
                                  targetParentId: Option<string>, shift: bool)
    requires item.kind == SectionItem && NoDuplicates(GbIds(l))
    requires targetId in SubtreeIds(l, item.itemId)
    ensures Drop(l, item, targetId, SectionItem, targetParentId, shift).Completed?
    ensures Drop(l, item, targetId, SectionItem, targetParentId, shift).commit.Some?
    ensures var c := Drop(l, item, targetId, SectionItem, targetParentId, shift).commit.value;
            multiset(GbIds(c)) + multiset(SubtreeIds(l, item.itemId)) == multiset(GbIds(l))
            && item.itemId !in GbIds(c) && targetId !in GbIds(c)
  {
    if item.itemId !in GbIds(l) {
      MissingId(l, item.itemId, Dropped());
      assert false;
    }
    var path, pre, d, post;
    if IsNest(targetParentId, shift) {
      var p2, q2, t, r2;
      path, pre, d, post, p2, q2, t, r2 := DropSectionNest(l, item, targetId, targetParentId, shift);
    } else {
      var p2, q2, t, r2;
      path, pre, d, post, p2, q2, t, r2 := DropSectionBefore(l, item, targetId, targetParentId, shift);
    }
    CollectOne(d, IdOf);
    CutNoDuplicates(path, pre, d, post, targetId);
    CutNoDuplicates(path, pre, d, post, item.itemId);
  }

  /** With distinct ids, an id of d's subtree is gone once d is cut out. */
  lemma {:induction false} CutNoDuplicates(path: seq<Frame>, pre: seq<GbSection>, d: GbSection, post: seq<GbSection>, x: string)
    requires NoDuplicates(GbIds(Plug(path, pre + [d] + post))) && x in GbIds([d])
    ensures x !in GbIds(Plug(path, pre + post))
  {
    PlugCollect(path, pre, [d], post, IdOf);
    PlugCollect(path, pre, [], post, IdOf);
    EmptyMiddle(pre, post);
    NotElsewhere(CollectBefore(path, IdOf) + GbIds(pre), GbIds([d]), GbIds(post) + CollectAfter(path, IdOf), x);
  }


  // ------------------------------------------------------------ field drops

  /** Some field of the list has the id. */
  predicate HasField(fs: seq<GbField>, id: string) {
    exists k :: 0 <= k < |fs| && fs[k].id == id
  }

  /** A section the dragged field can be taken from: it has the field and the id the drag recorded. */
  predicate IsSource(n: GbSection, parentId: Option<string>, fieldId: string) {
    n.fields.Some? && parentId == Some(n.id) && HasField(n.fields.value, fieldId)
  }

  /** A section a field dropped on a field can go to: it has the id given and the target field. */
  predicate IsTarget(n: GbSection, sectionId: Option<string>, fieldId: string) {
    n.fields.Some? && sectionId == Some(n.id) && HasField(n.fields.value, fieldId)
  }

  lemma {:induction false} FieldIndexFinds(fs: seq<GbField>, id: string)
    ensures FieldIndex(fs, id) < |fs| <==> HasField(fs, id)
  {
  }

  lemma {:induction false} SourceProbeFacts(parentId: Option<string>, fieldId: string)
    ensures HeadOnly(SourceProbe(parentId, fieldId))
    ensures forall n :: SourceProbe(parentId, fieldId)(n) != Throw
    ensures forall n :: SourceProbe(parentId, fieldId)(n) == Hit <==> IsSource(n, parentId, fieldId)
  {
    forall n ensures SourceProbe(parentId, fieldId)(n) == Hit <==> IsSource(n, parentId, fieldId) {
      if n.fields.Some? {
        FieldIndexFinds(n.fields.value, fieldId);
      }
    }
  }

  lemma {:induction false} TargetProbeFacts(sectionId: Option<string>, fieldId: string)
    ensures HeadOnly(TargetProbe(sectionId, fieldId))
    ensures forall n :: TargetProbe(sectionId, fieldId)(n) == Throw <==> sectionId == Some(n.id) && n.fields.None?
    ensures forall n :: TargetProbe(sectionId, fieldId)(n) == Hit <==> IsTarget(n, sectionId, fieldId)
  {
    forall n ensures TargetProbe(sectionId, fieldId)(n) == Hit <==> IsTarget(n, sectionId, fieldId) {
      if n.fields.Some? {
        FieldIndexFinds(n.fields.value, fieldId);
      }
    }
  }

  /**
   * The dragged field's way out: the first section in pre-order that has the
   * field and the recorded section id loses the field.
   */
  lemma {:induction false} TakeFieldFirst(l: seq<GbSection>, parentId: Option<string>, fieldId: string)
      returns (path: seq<Frame>, pre: seq<GbSection>, s: GbSection, post: seq<GbSection>)
    requires exists n :: n in Nodes(l) && IsSource(n, parentId, fieldId)
    ensures l == Plug(path, pre + [s] + post) && IsSource(s, parentId, fieldId)
    ensures forall n :: n in CollectBefore(path, NodeOf) + Nodes(pre) ==> !IsSource(n, parentId, fieldId)
    ensures EditList(l, SourceProbe(parentId, fieldId), TakeField(fieldId)) == Found(Plug(path, pre + [Taken(s, fieldId)] + post), s)
  {
    SourceProbeFacts(parentId, fieldId);
    path, pre, s, post := FirstHit(l, SourceProbe(parentId, fieldId), TakeField(fieldId));
    assert TakeField(fieldId)(s) == [Taken(s, fieldId)];
  }

  /** A dragged field that no section with the recorded id holds is a drop that commits nothing. */
  lemma {:induction false} DropFieldMissing(l: seq<GbSection>, item: DragItem, targetId: string, targetKind: ItemKind,
                         targetParentId: Option<string>, shift: bool)
    requires item.kind == FieldItem
    requires forall n :: n in Nodes(l) ==> !IsSource(n, item.parentId, item.itemId)
    ensures Drop(l, item, targetId, targetKind, targetParentId, shift) == Completed(None)
    ensures DropOnSection(l, item, targetId) == Completed(None)
  {
    SourceProbeFacts(item.parentId, item.itemId);
    SkipsAllNodes(l, SourceProbe(item.parentId, item.itemId));
    EditListMissed(l, SourceProbe(item.parentId, item.itemId), TakeField(item.itemId));
  }

  /** Listing a forest with one section y plugged into a context. */
  lemma {:induction false} PlugOne<T>(path: seq<Frame>, pre: seq<GbSection>, y: GbSection, post: seq<GbSection>, g: GbSection -> seq<T>)
    ensures Collect(Plug(path, pre + [y] + post), g)
         == (CollectBefore(path, g) + Collect(pre, g)) + g(Head(y)) + (Collect(Subs(y), g) + (Collect(post, g) + CollectAfter(path, g)))
  {
    PlugCollect(path, pre, [y], post, g);
    CollectOne(y, g);
  }

  /** Replacing one section by another with the same subsections changes the listing only at that node. */
  lemma {:induction false} ReplaceNode<T>(path: seq<Frame>, pre: seq<GbSection>, x: GbSection, y: GbSection, post: seq<GbSection>, g: GbSection -> seq<T>)
    requires Subs(x) == Subs(y)
    ensures multiset(Collect(Plug(path, pre + [y] + post), g)) + multiset(g(Head(x)))
         == multiset(Collect(Plug(path, pre + [x] + post), g)) + multiset(g(Head(y)))
    ensures g(Head(x)) == g(Head(y)) ==> Collect(Plug(path, pre + [y] + post), g) == Collect(Plug(path, pre + [x] + post), g)
  {
    PlugOne(path, pre, x, post, g);
    PlugOne(path, pre, y, post, g);
  }

  /** After such a replacement every node is an old one or the new node. */
  lemma {:induction false} ReplaceNodes(path: seq<Frame>, pre: seq<GbSection>, x: GbSection, y: GbSection, post: seq<GbSection>)
    requires Subs(x) == Subs(y)
    ensures forall n :: n in Nodes(Plug(path, pre + [y] + post)) ==> n in Nodes(Plug(path, pre + [x] + post)) || n == Head(y)
  {
    PlugOne(path, pre, x, post, NodeOf);
    PlugOne(path, pre, y, post, NodeOf);
  }

  /** Taking the field out: the section keeps its id and subsections and loses exactly that field. */
  lemma {:induction false} TakenFacts(s: GbSection, fieldId: string)
    requires s.fields.Some? && HasField(s.fields.value, fieldId)
    ensures FieldIndex(s.fields.value, fieldId) < |s.fields.value| && FieldOf(s, fieldId).id == fieldId
    ensures Head(Taken(s, fieldId)).id == s.id && Taken(s, fieldId).fields.Some? && Subs(Taken(s, fieldId)) == Subs(s)
    ensures multiset(Taken(s, fieldId).fields.value) + multiset{FieldOf(s, fieldId)} == multiset(s.fields.value)
    ensures multiset(FieldIdsOf(Head(Taken(s, fieldId)))) + multiset{fieldId} == multiset(FieldIdsOf(Head(s)))
  {
    var fs := s.fields.value;
    var k := FieldIndex(fs, fieldId);
    FieldIndexFinds(fs, fieldId);
    RemoveAtMultiset(fs, k);
    MapRemoveAt(fs, k, FieldId);
  }

  /**
   * Putting f before the target field: the section keeps its id and
   * subsections, f sits where the target field was, the target field and
   * those after it move up by one, and no other field is lost or added.
   */
  lemma {:induction false} PlacedFacts(t: GbSection, fieldId: string, f: GbField)
    requires t.fields.Some? && HasField(t.fields.value, fieldId)
    ensures Head(Placed(t, fieldId, f)).id == t.id && Subs(Placed(t, fieldId, f)) == Subs(t)
    ensures var fs, k := t.fields.value, FieldIndex(t.fields.value, fieldId);
            var r := Placed(t, fieldId, f).fields.value;
            k < |fs| && fs[k].id == fieldId && |r| == |fs| + 1 && r[k] == f && r[k + 1] == fs[k]
            && (forall j :: 0 <= j < k ==> r[j] == fs[j]) && (forall j :: k < j < |fs| ==> r[j + 1] == fs[j])
    ensures multiset(FieldIdsOf(Head(Placed(t, fieldId, f)))) == multiset(FieldIdsOf(Head(t))) + multiset{f.id}
  {
    var fs := t.fields.value;
    FieldIndexFinds(fs, fieldId);
    MapInsertAt(fs, FieldIndex(fs, fieldId), f, FieldId);
  }

  /** Appending f: the section keeps its id and subsections and gains exactly f. */
  lemma {:induction false} AppendedFacts(t: GbSection, f: GbField)
    ensures Head(Appended(t, f)).id == t.id && Subs(Appended(t, f)) == Subs(t)
    ensures Appended(t, f).fields == Some(t.fields.GetOr([]) + [f])
    ensures multiset(FieldIdsOf(Head(Appended(t, f)))) == multiset(FieldIdsOf(Head(t))) + multiset{f.id}
  {
    MapSeqConcat(t.fields.GetOr([]), [f], FieldId);
  }

  /** Taking the dragged field out keeps the sections and loses that one field. */
  lemma {:induction false} TakeFieldForest(l: seq<GbSection>, path: seq<Frame>, pre: seq<GbSection>, s: GbSection, post: seq<GbSection>, fieldId: string)
    requires l == Plug(path, pre + [s] + post) && s.fields.Some? && HasField(s.fields.value, fieldId)
    ensures GbIds(Plug(path, pre + [Taken(s, fieldId)] + post)) == GbIds(l)
    ensures multiset(FieldIds(Plug(path, pre + [Taken(s, fieldId)] + post))) + multiset{fieldId} == multiset(FieldIds(l))
  {
    var s' := Taken(s, fieldId);
    TakenFacts(s, fieldId);
    ReplaceNode(path, pre, s, s', post, IdOf);
    ReplaceNode(path, pre, s, s', post, FieldIdsOf);
    Cancel(multiset(FieldIds(l)), multiset(FieldIds(Plug(path, pre + [s'] + post))),
           multiset(FieldIdsOf(Head(s'))), multiset(FieldIdsOf(Head(s))), multiset{fieldId});
  }

  /** After the field is taken out, every section is an old one or the source without the field. */
  lemma {:induction false} TakeFieldNodes(l: seq<GbSection>, path: seq<Frame>, pre: seq<GbSection>, s: GbSection, post: seq<GbSection>, fieldId: string)
    requires l == Plug(path, pre + [s] + post) && s.fields.Some? && HasField(s.fields.value, fieldId)
    ensures forall n :: n in Nodes(Plug(path, pre + [Taken(s, fieldId)] + post)) ==> n in Nodes(l) || n == Head(Taken(s, fieldId))
  {
    var s' := Taken(s, fieldId);
    TakenFacts(s, fieldId);
    ReplaceNodes(path, pre, s, s', post);
  }

  /** Putting the field into its target, before a field or at the end, keeps the sections and gains that field. */
  lemma {:induction false} PutFieldForest(rest: seq<GbSection>, path: seq<Frame>, pre: seq<GbSection>, t: GbSection, y: GbSection, post: seq<GbSection>, f: GbField)
    requires rest == Plug(path, pre + [t] + post)
    requires Head(y).id == t.id && Subs(y) == Subs(t)
    requires multiset(FieldIdsOf(Head(y))) == multiset(FieldIdsOf(Head(t))) + multiset{f.id}
    ensures GbIds(Plug(path, pre + [y] + post)) == GbIds(rest)
    ensures multiset(FieldIds(Plug(path, pre + [y] + post))) == multiset(FieldIds(rest)) + multiset{f.id}
  {
    ReplaceNode(path, pre, t, y, post, IdOf);
    ReplaceNode(path, pre, t, y, post, FieldIdsOf);
    Cancel(multiset(FieldIds(Plug(path, pre + [y] + post))), multiset(FieldIds(rest)),
           multiset(FieldIdsOf(Head(t))), multiset(FieldIdsOf(Head(y))), multiset{f.id});
  }

  /** Cancelling a common part of two multiset sums. */
  lemma {:induction false} Cancel<T>(a: multiset<T>, b: multiset<T>, c: multiset<T>, d: multiset<T>, e: multiset<T>)
    requires a + c == b + d && d == c + e
    ensures a == b + e
  {
    assert forall x :: a[x] == (b + e)[x] by {
      forall x ensures a[x] == (b + e)[x] {
        assert (a + c)[x] == (b + d)[x];
      }
    }
  }

  /** A field the section has is among its field ids. */
  lemma {:induction false} HasFieldListed(n: GbSection, id: string)
    ensures n.fields.Some? && HasField(n.fields.value, id) ==> id in FieldIdsOf(n)
  {
    if n.fields.Some? && HasField(n.fields.value, id) {
      var k :| 0 <= k < |n.fields.value| && n.fields.value[k].id == id;
      assert FieldIdsOf(n)[k] == id;
    }
  }

  /** Whatever a node contributes to a listing is in the listing. */
  lemma {:induction false} NodeCollect<T>(l: seq<GbSection>, g: GbSection -> seq<T>, n: GbSection)
    requires n in Nodes(l)
    ensures forall x :: x in g(n) ==> x in Collect(l, g)
  {
    assert Nodes(l) == [Head(l[0])] + (if l[0].Parent? then Nodes(l[0].subsections) else []) + Nodes(l[1..]);
    if n == Head(l[0]) {
    } else if l[0].Parent? && n in Nodes(l[0].subsections) {
      NodeCollect(l[0].subsections, g, n);
    } else {
      NodeCollect(l[1..], g, n);
    }
  }

  /** A field drop once the field is out: the search for the target decides the outcome. */
  lemma {:induction false} DropFieldStep(l: seq<GbSection>, item: DragItem, targetId: string, targetKind: ItemKind,
                      targetParentId: Option<string>, shift: bool, rest: seq<GbSection>, s: GbSection)
    requires item.kind == FieldItem
    requires EditList(l, SourceProbe(item.parentId, item.itemId), TakeField(item.itemId)) == Found(rest, s)
    requires s.fields.Some? && FieldIndex(s.fields.value, item.itemId) < |s.fields.value|
    ensures var f := FieldOf(s, item.itemId);
            var placed := if targetKind == FieldItem then EditList(rest, TargetProbe(targetParentId, targetId), PutBefore(targetId, f))
                          else EditList(rest, IdProbe(targetId), Append(f));
            Drop(l, item, targetId, targetKind, targetParentId, shift)
            == if placed.Crashed? then Thrown else Completed(Some(if placed.Found? then placed.list else rest))
  {
    assert Drop(l, item, targetId, targetKind, targetParentId, shift) == DropFieldOn(l, item, targetId, targetKind, targetParentId);
  }

  /**
   * A field dropped on a section (`targetType` 'section', and every drop of
   * `handleDropOnSection`) is taken out of the first section in pre-order
   * that has it and the recorded section id, and pushed onto the fields of
   * the first section with the target id, whose list is created when
   * absent. The sections stay as they were and no field is lost or doubled.
   * When no section has the target id, the field is lost.
   */
  lemma {:induction false} DropFieldOnSection(l: seq<GbSection>, item: DragItem, targetId: string, targetParentId: Option<string>, shift: bool)
      returns (path: seq<Frame>, pre: seq<GbSection>, s: GbSection, post: seq<GbSection>,
               path2: seq<Frame>, pre2: seq<GbSection>, t: GbSection, post2: seq<GbSection>)
    requires item.kind == FieldItem
    requires exists n :: n in Nodes(l) && IsSource(n, item.parentId, item.itemId)
    ensures l == Plug(path, pre + [s] + post) && IsSource(s, item.parentId, item.itemId)
    ensures forall n :: n in CollectBefore(path, NodeOf) + Nodes(pre) ==> !IsSource(n, item.parentId, item.itemId)
    ensures FieldOf(s, item.itemId).id == item.itemId
    ensures var f, rest := FieldOf(s, item.itemId), Plug(path, pre + [Taken(s, item.itemId)] + post);
            (targetId in GbIds(l) ==>
               rest == Plug(path2, pre2 + [t] + post2) && t.id == targetId
               && targetId !in CollectBefore(path2, IdOf) + GbIds(pre2)
               && Drop(l, item, targetId, SectionItem, targetParentId, shift) == Completed(Some(Plug(path2, pre2 + [Appended(t, f)] + post2)))
               && GbIds(Plug(path2, pre2 + [Appended(t, f)] + post2)) == GbIds(l)
               && multiset(FieldIds(Plug(path2, pre2 + [Appended(t, f)] + post2))) == multiset(FieldIds(l)))
            && (targetId !in GbIds(l) ==>
               Drop(l, item, targetId, SectionItem, targetParentId, shift) == Completed(Some(rest))
               && multiset(FieldIds(rest)) + multiset{item.itemId} == multiset(FieldIds(l)))
    ensures DropOnSection(l, item, targetId) == Drop(l, item, targetId, SectionItem, targetParentId, shift)
  {
    path, pre, s, post := TakeFieldFirst(l, item.parentId, item.itemId);
    TakenFacts(s, item.itemId);
    TakeFieldForest(l, path, pre, s, post, item.itemId);
    var f, rest := FieldOf(s, item.itemId), Plug(path, pre + [Taken(s, item.itemId)] + post);
    DropFieldStep(l, item, targetId, SectionItem, targetParentId, shift, rest, s);
    if targetId in GbIds(l) {
      path2, pre2, t, post2 := FirstById(rest, targetId, Append(f));
      assert Append(f)(t) == [Appended(t, f)];
      AppendedFacts(t, f);
      PutFieldForest(rest, path2, pre2, t, Appended(t, f), post2, f);
    } else {
      MissingId(rest, targetId, Append(f));
      path2, pre2, t, post2 := [], [], s, [];
    }
    DropOnSectionIsNestDrop(l, item, targetId, shift);
  }

  /**
   * A field dropped on a field, when every section with the target's
   * section id has a `fields` key: the field is taken out as above and put
   * immediately before the first field with the target id, in the first
   * section in pre-order that has that field and the target's section id.
   * The sections stay as they were and no field is lost or doubled. When no
   * section of what is left qualifies, the field is lost.
   */
  lemma {:induction false} DropFieldOnField(l: seq<GbSection>, item: DragItem, targetId: string, targetParentId: Option<string>, shift: bool)
      returns (path: seq<Frame>, pre: seq<GbSection>, s: GbSection, post: seq<GbSection>,
               path2: seq<Frame>, pre2: seq<GbSection>, t: GbSection, post2: seq<GbSection>)
    requires item.kind == FieldItem
    requires exists n :: n in Nodes(l) && IsSource(n, item.parentId, item.itemId)
    requires forall n :: n in Nodes(l) && targetParentId == Some(n.id) ==> n.fields.Some?
    ensures l == Plug(path, pre + [s] + post) && IsSource(s, item.parentId, item.itemId)
    ensures forall n :: n in CollectBefore(path, NodeOf) + Nodes(pre) ==> !IsSource(n, item.parentId, item.itemId)
    ensures FieldOf(s, item.itemId).id == item.itemId
    ensures var f, rest := FieldOf(s, item.itemId), Plug(path, pre + [Taken(s, item.itemId)] + post);
            ((exists n :: n in Nodes(rest) && IsTarget(n, targetParentId, targetId)) ==>
               rest == Plug(path2, pre2 + [t] + post2) && IsTarget(t, targetParentId, targetId)
               && (forall n :: n in CollectBefore(path2, NodeOf) + Nodes(pre2) ==> !IsTarget(n, targetParentId, targetId))
               && Drop(l, item, targetId, FieldItem, targetParentId, shift) == Completed(Some(Plug(path2, pre2 + [Placed(t, targetId, f)] + post2)))
               && GbIds(Plug(path2, pre2 + [Placed(t, targetId, f)] + post2)) == GbIds(l)
               && multiset(FieldIds(Plug(path2, pre2 + [Placed(t, targetId, f)] + post2))) == multiset(FieldIds(l)))
            && ((forall n :: n in Nodes(rest) ==> !IsTarget(n, targetParentId, targetId)) ==>
               Drop(l, item, targetId, FieldItem, targetParentId, shift) == Completed(Some(rest))
               && multiset(FieldIds(rest)) + multiset{item.itemId} == multiset(FieldIds(l)))
  {
    path, pre, s, post := TakeFieldFirst(l, item.parentId, item.itemId);
    TakenFacts(s, item.itemId);
    TakeFieldForest(l, path, pre, s, post, item.itemId);
    var f, rest := FieldOf(s, item.itemId), Plug(path, pre + [Taken(s, item.itemId)] + post);
    DropFieldStep(l, item, targetId, FieldItem, targetParentId, shift, rest, s);
    assert forall n :: n in Nodes(rest) && targetParentId == Some(n.id) ==> n.fields.Some? by {
      TakeFieldNodes(l, path, pre, s, post, item.itemId);
    }
    if exists n :: n in Nodes(rest) && IsTarget(n, targetParentId, targetId) {
      path2, pre2, t, post2 := PutBeforeFirst(rest, targetParentId, targetId, f);
    } else {
      var probe := TargetProbe(targetParentId, targetId);
      TargetProbeFacts(targetParentId, targetId);
      SkipsAllNodes(rest, probe);
      EditListMissed(rest, probe, PutBefore(targetId, f));
      path2, pre2, t, post2 := [], [], s, [];
    }
  }

  /** The target side of a field drop on a field, when some section qualifies. */
  lemma {:induction false} PutBeforeFirst(rest: seq<GbSection>, targetParentId: Option<string>, targetId: string, f: GbField)
      returns (path2: seq<Frame>, pre2: seq<GbSection>, t: GbSection, post2: seq<GbSection>)
    requires forall n :: n in Nodes(rest) && targetParentId == Some(n.id) ==> n.fields.Some?
    requires exists n :: n in Nodes(rest) && IsTarget(n, targetParentId, targetId)
    ensures rest == Plug(path2, pre2 + [t] + post2) && IsTarget(t, targetParentId, targetId)
    ensures forall n :: n in CollectBefore(path2, NodeOf) + Nodes(pre2) ==> !IsTarget(n, targetParentId, targetId)
    ensures EditList(rest, TargetProbe(targetParentId, targetId), PutBefore(targetId, f))
         == Found(Plug(path2, pre2 + [Placed(t, targetId, f)] + post2), t)
    ensures GbIds(Plug(path2, pre2 + [Placed(t, targetId, f)] + post2)) == GbIds(rest)
    ensures multiset(FieldIds(Plug(path2, pre2 + [Placed(t, targetId, f)] + post2))) == multiset(FieldIds(rest)) + multiset{f.id}
  {
    var probe := TargetProbe(targetParentId, targetId);
    TargetProbeFacts(targetParentId, targetId);
    path2, pre2, t, post2 := FirstHit(rest, probe, PutBefore(targetId, f));
    PlacedFacts(t, targetId, f);
    PutFieldForest(rest, path2, pre2, t, Placed(t, targetId, f), post2, f);
  }

  /** A field drop on a field throws only if some section with the target's section id lacks a `fields` key. */
  lemma {:induction false} DropFieldNeverThrows(l: seq<GbSection>, item: DragItem, targetId: string, targetKind: ItemKind,
                             targetParentId: Option<string>, shift: bool)
    requires forall n :: n in Nodes(l) && targetParentId == Some(n.id) ==> n.fields.Some?
    ensures Drop(l, item, targetId, targetKind, targetParentId, shift).Completed?
  {
    if item.kind == FieldItem {
      if exists n :: n in Nodes(l) && IsSource(n, item.parentId, item.itemId) {
        if targetKind == FieldItem {
          var path, pre, s, post, path2, pre2, t, post2 := DropFieldOnField(l, item, targetId, targetParentId, shift);
          var rest := Plug(path, pre + [Taken(s, item.itemId)] + post);
          if exists n :: n in Nodes(rest) && IsTarget(n, targetParentId, targetId) {
          }
        } else {
          var path, pre, s, post, path2, pre2, t, post2 := DropFieldOnSection(l, item, targetId, targetParentId, shift);
        }
      } else {
        DropFieldMissing(l, item, targetId, targetKind, targetParentId, shift);
      }
    }
  }

  /** `handleDropOnSection` never throws. */
  lemma {:induction false} DropOnSectionNeverThrows(l: seq<GbSection>, item: DragItem, sectionId: string)
    ensures DropOnSection(l, item, sectionId).Completed?
  {
    if item.kind == FieldItem && exists n :: n in Nodes(l) && IsSource(n, item.parentId, item.itemId) {
      var path, pre, s, post, path2, pre2, t, post2 := DropFieldOnSection(l, item, sectionId, None, false);
    } else if item.kind == FieldItem {
      DropFieldMissing(l, item, sectionId, SectionItem, None, false);
    }
  }

  /**
   * With distinct field ids, a field dropped on itself is lost: once it is
   * taken out no section holds the target field, and the forest without it
   * is committed.
   */
  lemma {:induction false} DropFieldOntoItself(l: seq<GbSection>, item: DragItem, targetParentId: Option<string>, shift: bool)
    requires item.kind == FieldItem && NoDuplicates(FieldIds(l))
    requires exists n :: n in Nodes(l) && IsSource(n, item.parentId, item.itemId)
    requires forall n :: n in Nodes(l) && targetParentId == Some(n.id) ==> n.fields.Some?
    ensures Drop(l, item, item.itemId, FieldItem, targetParentId, shift).Completed?
    ensures Drop(l, item, item.itemId, FieldItem, targetParentId, shift).commit.Some?
    ensures var c := Drop(l, item, item.itemId, FieldItem, targetParentId, shift).commit.value;
            item.itemId !in FieldIds(c) && GbIds(c) == GbIds(l)
            && multiset(FieldIds(c)) + multiset{item.itemId} == multiset(FieldIds(l))
  {
    var path, pre, s, post, path2, pre2, t, post2 := DropFieldOnField(l, item, item.itemId, targetParentId, shift);
    TakeFieldForest(l, path, pre, s, post, item.itemId);
    var rest := Plug(path, pre + [Taken(s, item.itemId)] + post);
    NoDuplicatesOnce(FieldIds(l), item.itemId);
    assert item.itemId !in FieldIds(rest) by {
      assert multiset(FieldIds(rest))[item.itemId] == 0;
    }
    forall n | n in Nodes(rest) ensures !IsTarget(n, targetParentId, item.itemId) {
      NodeCollect(rest, FieldIdsOf, n);
      HasFieldListed(n, item.itemId);
    }
  }

  // ------------------------------------------------------------ the two-level map of handleAddField and deleteField

  /** The section with its fields list replaced by edit of it. */
  function Edited(s: GbSection, edit: seq<GbField> -> seq<GbField>): GbSection {
    s.(fields := Some(edit(s.fields.GetOr([]))))
  }

  function EditedBy(edit: seq<GbField> -> seq<GbField>): GbSection -> GbSection {
    (s: GbSection) => Edited(s, edit)
  }

  function IdIs(id: string): GbSection -> bool {
    (s: GbSection) => s.id == id
  }

  /** A matched section: editing its `fields` throws when the key is absent. */
  function EditOne(s: GbSection, edit: seq<GbField> -> seq<GbField>): Option<GbSection> {
    if s.fields.None? then None else Some(Edited(s, edit))
  }

  /** `subsections.map(sub => sub.id === id ? edited : sub)`; None when it throws. */
  function EditSubs(subs: seq<GbSection>, id: string, edit: seq<GbField> -> seq<GbField>): Option<seq<GbSection>> {
    if subs == [] then Some([])
    else
      var h := if subs[0].id == id then EditOne(subs[0], edit) else Some(subs[0]);
      var t := EditSubs(subs[1..], id, edit);
      if h.None? || t.None? then None else Some([h.value] + t.value)
  }

  /** One top-level section of the map: edited when it has the id, else its subsections are mapped when the key is present. */
  function EditTop(s: GbSection, id: string, edit: seq<GbField> -> seq<GbField>): Option<GbSection> {
    if s.id == id then EditOne(s, edit)
    else if s.Parent? then
      var c := EditSubs(s.subsections, id, edit);
      if c.None? then None else Some(s.(subsections := c.value))
    else Some(s)
  }

  /**
   * `sections.map(...)` in `handleAddField` and `deleteField`: the edit
   * reaches the top-level sections with the id and the direct subsections
   * with the id of the other top-level sections; None when it throws.
   */
  function EditTwoLevels(l: seq<GbSection>, id: string, edit: seq<GbField> -> seq<GbField>): Option<seq<GbSection>> {
    if l == [] then Some([])
    else
      var h := EditTop(l[0], id, edit);
      var t := EditTwoLevels(l[1..], id, edit);
      if h.None? || t.None? then None else Some([h.value] + t.value)
  }

  /** The sections the map edits, in order. */
  function ReachedIn(s: GbSection, id: string): seq<GbSection> {
    if s.id == id then [s] else Filter(Subs(s), IdIs(id))
  }

  function Reached(l: seq<GbSection>, id: string): seq<GbSection> {
    if l == [] then [] else ReachedIn(l[0], id) + Reached(l[1..], id)
  }

  /** The subsections of the subsections of the top-level sections: what the map never looks at. */
  function Grandchildren(l: seq<GbSection>): seq<seq<GbSection>> {
    if l == [] then [] else MapSeq(Subs(l[0]), Subs) + Grandchildren(l[1..])
  }

  /** The field ids of the given sections' own fields, in order. */
  function OwnFieldIds(xs: seq<GbSection>): seq<string> {
    if xs == [] then [] else FieldIdsOf(xs[0]) + OwnFieldIds(xs[1..])
  }

  lemma {:induction false} OwnFieldIdsConcat(a: seq<GbSection>, b: seq<GbSection>)
    ensures OwnFieldIds(a + b) == OwnFieldIds(a) + OwnFieldIds(b)
  {
    if a == [] {
      assert a + b == b;
    } else {
      assert (a + b)[1..] == a[1..] + b;
      OwnFieldIdsConcat(a[1..], b);
    }
  }

  /** The one-level map on a subsection list, stated pointwise. */
  lemma {:induction false} EditSubsFacts(subs: seq<GbSection>, id: string, edit: seq<GbField> -> seq<GbField>)
    ensures EditSubs(subs, id, edit).Some? <==> forall x :: x in Filter(subs, IdIs(id)) ==> x.fields.Some?
    ensures EditSubs(subs, id, edit).Some? ==>
              var c := EditSubs(subs, id, edit).value;
              |c| == |subs| && forall k :: 0 <= k < |subs| ==> c[k] == if subs[k].id == id then Edited(subs[k], edit) else subs[k]
  {
    EditSubsThrows(subs, id, edit);
    EditSubsPointwise(subs, id, edit);
  }

  /** The one-level map throws exactly when a matched subsection has no `fields`. */
  lemma {:induction false} EditSubsThrows(subs: seq<GbSection>, id: string, edit: seq<GbField> -> seq<GbField>)
    ensures EditSubs(subs, id, edit).Some? <==> forall x :: x in Filter(subs, IdIs(id)) ==> x.fields.Some?
  {
    if subs != [] {
      EditSubsThrows(subs[1..], id, edit);
      assert Filter(subs, IdIs(id)) == (if subs[0].id == id then [subs[0]] else []) + Filter(subs[1..], IdIs(id));
    }
  }

  /** When it does not throw, the one-level map edits exactly the matched subsections. */
  lemma {:induction false} EditSubsPointwise(subs: seq<GbSection>, id: string, edit: seq<GbField> -> seq<GbField>)
    ensures EditSubs(subs, id, edit).Some? ==>
              var c := EditSubs(subs, id, edit).value;
              |c| == |subs| && forall k :: 0 <= k < |subs| ==> c[k] == if subs[k].id == id then Edited(subs[k], edit) else subs[k]
  {
    if subs != [] && EditSubs(subs, id, edit).Some? {
      EditSubsPointwise(subs[1..], id, edit);
      var t := EditSubs(subs[1..], id, edit);
      var c := EditSubs(subs, id, edit).value;
      forall k | 0 <= k < |subs| ensures c[k] == if subs[k].id == id then Edited(subs[k], edit) else subs[k] {
        if k > 0 {
          assert c[k] == t.value[k - 1] && subs[k] == subs[1..][k - 1];
        }
      }
    }
  }

  /** A section's own keys except its fields. */
  function OwnKeys(s: GbSection): seq<GbSection> {
    [Head(s).(fields := None)]
  }

  /** An edited section keeps its id, its other keys and its subsections. */
  lemma {:induction false} EditedKeeps(x: GbSection, edit: seq<GbField> -> seq<GbField>)
    ensures Head(Edited(x, edit)).id == x.id && Subs(Edited(x, edit)) == Subs(x)
    ensures FieldIdsOf(Head(Edited(x, edit))) == FieldIdsOf(Edited(x, edit)) && FieldIdsOf(Head(x)) == FieldIdsOf(x)
    ensures Collect([Edited(x, edit)], IdOf) == Collect([x], IdOf)
    ensures Collect([Edited(x, edit)], OwnKeys) == Collect([x], OwnKeys)
  {
    CollectOne(Edited(x, edit), IdOf);
    CollectOne(x, IdOf);
    CollectOne(Edited(x, edit), OwnKeys);
    CollectOne(x, OwnKeys);
  }

  /** The one-level map keeps the ids and what lies below the subsections. */
  lemma {:induction false} EditSubsIds(subs: seq<GbSection>, id: string, edit: seq<GbField> -> seq<GbField>)
    requires EditSubs(subs, id, edit).Some?
    ensures GbIds(EditSubs(subs, id, edit).value) == GbIds(subs)
    ensures Collect(EditSubs(subs, id, edit).value, OwnKeys) == Collect(subs, OwnKeys)
    ensures MapSeq(EditSubs(subs, id, edit).value, Subs) == MapSeq(subs, Subs)
  {
    if subs != [] {
      var x, t := subs[0], EditSubs(subs[1..], id, edit).value;
      var h := if x.id == id then Edited(x, edit) else x;
      EditSubsIds(subs[1..], id, edit);
      EditedKeeps(x, edit);
      assert EditSubs(subs, id, edit).value == [h] + t;
      assert subs == [x] + subs[1..];
      CollectConcat([h], t, IdOf);
      CollectConcat([x], subs[1..], IdOf);
      CollectConcat([h], t, OwnKeys);
      CollectConcat([x], subs[1..], OwnKeys);
      MapSeqConcat([h], t, Subs);
      MapSeqConcat([x], subs[1..], Subs);
    }
  }

  /** The subsections the one-level map reaches come out edited, in order. */
  lemma {:induction false} EditSubsReached(subs: seq<GbSection>, id: string, edit: seq<GbField> -> seq<GbField>)
    requires EditSubs(subs, id, edit).Some?
    ensures Filter(EditSubs(subs, id, edit).value, IdIs(id)) == MapSeq(Filter(subs, IdIs(id)), EditedBy(edit))
  {
    if subs != [] {
      var x, t := subs[0], EditSubs(subs[1..], id, edit).value;
      var h := if x.id == id then Edited(x, edit) else x;
      EditSubsReached(subs[1..], id, edit);
      assert EditSubs(subs, id, edit).value == [h] + t;
      assert subs == [x] + subs[1..];
      FilterConcat([h], t, IdIs(id));
      FilterConcat([x], subs[1..], IdIs(id));
      MapSeqConcat(Filter([x], IdIs(id)), Filter(subs[1..], IdIs(id)), EditedBy(edit));
    }
  }

  /** Two balanced multiset equations add up. */
  lemma {:induction false} SumRel<T>(a1: multiset<T>, b1: multiset<T>, c1: multiset<T>, d1: multiset<T>,
                  a2: multiset<T>, b2: multiset<T>, c2: multiset<T>, d2: multiset<T>)
    requires a1 + b1 == c1 + d1 && a2 + b2 == c2 + d2
    ensures (a1 + a2) + (b1 + b2) == (c1 + c2) + (d1 + d2)
  {
    assert forall x :: ((a1 + a2) + (b1 + b2))[x] == ((c1 + c2) + (d1 + d2))[x] by {
      forall x ensures ((a1 + a2) + (b1 + b2))[x] == ((c1 + c2) + (d1 + d2))[x] {
        assert (a1 + b1)[x] == (c1 + d1)[x] && (a2 + b2)[x] == (c2 + d2)[x];
      }
    }
  }

  /** A reached section through the map: its own field ids are the ones that change. */
  lemma {:induction false} ReachedOneFields(x: GbSection, id: string, edit: seq<GbField> -> seq<GbField>)
    requires x.id == id
    ensures multiset(FieldIds([Edited(x, edit)])) + multiset(OwnFieldIds(Filter([x], IdIs(id))))
            == multiset(FieldIds([x])) + multiset(OwnFieldIds(Filter([Edited(x, edit)], IdIs(id))))
  {
    var h := Edited(x, edit);
    EditedKeeps(x, edit);
    CollectOne(h, FieldIdsOf);
    CollectOne(x, FieldIdsOf);
    var a, b, below := FieldIdsOf(h), FieldIdsOf(x), FieldIds(Subs(x));
    assert FieldIds([h]) == a + below && FieldIds([x]) == b + below;
    assert Filter([x], IdIs(id)) == [x];
    assert Filter([h], IdIs(id)) == [h];
    assert OwnFieldIds([x]) == b && OwnFieldIds([h]) == a;
    assert multiset(a + below) + multiset(b) == multiset(b + below) + multiset(a);
  }

  /** The one-level map changes field ids only in the subsections it reaches. */
  lemma {:induction false} EditSubsFields(subs: seq<GbSection>, id: string, edit: seq<GbField> -> seq<GbField>)
    requires EditSubs(subs, id, edit).Some?
    ensures var c := EditSubs(subs, id, edit).value;
            multiset(FieldIds(c)) + multiset(OwnFieldIds(Filter(subs, IdIs(id))))
            == multiset(FieldIds(subs)) + multiset(OwnFieldIds(Filter(c, IdIs(id))))
  {
    if subs != [] {
      var x, t := subs[0], EditSubs(subs[1..], id, edit).value;
      var h := if x.id == id then Edited(x, edit) else x;
      EditSubsFields(subs[1..], id, edit);
      if x.id == id {
        ReachedOneFields(x, id, edit);
      }
      assert EditSubs(subs, id, edit).value == [h] + t;
      assert subs == [x] + subs[1..];
      CollectConcat([h], t, FieldIdsOf);
      CollectConcat([x], subs[1..], FieldIdsOf);
      FilterConcat([h], t, IdIs(id));
      FilterConcat([x], subs[1..], IdIs(id));
      OwnFieldIdsConcat(Filter([h], IdIs(id)), Filter(t, IdIs(id)));
      OwnFieldIdsConcat(Filter([x], IdIs(id)), Filter(subs[1..], IdIs(id)));
      SumRel(multiset(FieldIds([h])), multiset(OwnFieldIds(Filter([x], IdIs(id)))),
             multiset(FieldIds([x])), multiset(OwnFieldIds(Filter([h], IdIs(id)))),
             multiset(FieldIds(t)), multiset(OwnFieldIds(Filter(subs[1..], IdIs(id)))),
             multiset(FieldIds(subs[1..])), multiset(OwnFieldIds(Filter(t, IdIs(id)))));
    }
  }

  /** One top-level section of the map: when it throws, and what it changes when it does not. */
  lemma {:induction false} EditTopFacts(s: GbSection, id: string, edit: seq<GbField> -> seq<GbField>)
    ensures EditTop(s, id, edit).Some? <==> forall x :: x in ReachedIn(s, id) ==> x.fields.Some?
    ensures EditTop(s, id, edit).Some? ==>
              var h := EditTop(s, id, edit).value;
              Collect([h], IdOf) == Collect([s], IdOf) && Collect([h], OwnKeys) == Collect([s], OwnKeys) &&
              MapSeq(Subs(h), Subs) == MapSeq(Subs(s), Subs) &&
              ReachedIn(h, id) == MapSeq(ReachedIn(s, id), EditedBy(edit))
  {
    if s.id == id {
      EditedKeeps(s, edit);
      assert MapSeq([s], EditedBy(edit)) == [Edited(s, edit)];
    } else if s.Parent? {
      EditSubsFacts(s.subsections, id, edit);
      var c := EditSubs(s.subsections, id, edit);
      if c.Some? {
        var h := s.(subsections := c.value);
        EditSubsIds(s.subsections, id, edit);
        EditSubsReached(s.subsections, id, edit);
        assert Head(h) == Head(s);
        CollectOne(h, IdOf);
        CollectOne(s, IdOf);
        CollectOne(h, OwnKeys);
        CollectOne(s, OwnKeys);
      }
    }
  }

  /** The same multiset added on the left of both sides. */
  lemma {:induction false} AddLeft<T>(a: multiset<T>, x: multiset<T>, y: multiset<T>, z: multiset<T>, w: multiset<T>)
    requires x + y == z + w
    ensures (a + x) + y == (a + z) + w
  {
    assert (a + x) + y == a + (x + y);
    assert (a + z) + w == a + (z + w);
  }

  /** A top-level section without the id: the map's changes to field ids are its subsections'. */
  lemma {:induction false} TopParentFields(s: GbSection, id: string, edit: seq<GbField> -> seq<GbField>)
    requires s.id != id && s.Parent? && EditSubs(s.subsections, id, edit).Some?
    ensures var h := s.(subsections := EditSubs(s.subsections, id, edit).value);
            multiset(FieldIds([h])) + multiset(OwnFieldIds(ReachedIn(s, id)))
            == multiset(FieldIds([s])) + multiset(OwnFieldIds(ReachedIn(h, id)))
  {
    var c := EditSubs(s.subsections, id, edit).value;
    var h := s.(subsections := c);
    EditSubsFields(s.subsections, id, edit);
    assert Head(h) == Head(s) && Subs(h) == c && h.id != id;
    CollectOne(h, FieldIdsOf);
    CollectOne(s, FieldIdsOf);
    var a := FieldIdsOf(Head(s));
    assert FieldIds([h]) == a + FieldIds(c) && FieldIds([s]) == a + FieldIds(s.subsections);
    assert ReachedIn(s, id) == Filter(s.subsections, IdIs(id)) && ReachedIn(h, id) == Filter(c, IdIs(id));
    AddLeft(multiset(a), multiset(FieldIds(c)), multiset(OwnFieldIds(Filter(s.subsections, IdIs(id)))),
            multiset(FieldIds(s.subsections)), multiset(OwnFieldIds(Filter(c, IdIs(id)))));
  }

  /** One top-level section of the map changes field ids only in the sections it reaches. */
  lemma {:induction false} EditTopFields(s: GbSection, id: string, edit: seq<GbField> -> seq<GbField>)
    requires EditTop(s, id, edit).Some?
    ensures var h := EditTop(s, id, edit).value;
            multiset(FieldIds([h])) + multiset(OwnFieldIds(ReachedIn(s, id)))
            == multiset(FieldIds([s])) + multiset(OwnFieldIds(ReachedIn(h, id)))
  {
    if s.id == id {
      var h := Edited(s, edit);
      assert EditTop(s, id, edit).value == h && h.id == id;
      ReachedOneFields(s, id, edit);
      assert Filter([s], IdIs(id)) == [s] && ReachedIn(s, id) == [s];
      assert Filter([h], IdIs(id)) == [h] && ReachedIn(h, id) == [h];
    } else if s.Parent? {
      TopParentFields(s, id, edit);
    }
  }

  /**
   * The two-level map: it throws exactly when a section it reaches has no
   * `fields` key; otherwise it keeps every section's id and other keys, in
   * pre-order, never touches the sections below the second level, and
   * replaces exactly the reached sections by their edited versions.
   */
  lemma {:induction false} EditTwoLevelsFacts(l: seq<GbSection>, id: string, edit: seq<GbField> -> seq<GbField>)
    ensures EditTwoLevels(l, id, edit).Some? <==> forall x :: x in Reached(l, id) ==> x.fields.Some?
    ensures EditTwoLevels(l, id, edit).Some? ==>
              var r := EditTwoLevels(l, id, edit).value;
              GbIds(r) == GbIds(l) && Collect(r, OwnKeys) == Collect(l, OwnKeys) &&
              Grandchildren(r) == Grandchildren(l) &&
              Reached(r, id) == MapSeq(Reached(l, id), EditedBy(edit))
  {
    if l != [] {
      var s := l[0];
      EditTwoLevelsFacts(l[1..], id, edit);
      EditTopFacts(s, id, edit);
      var hh := EditTop(s, id, edit);
      var tt := EditTwoLevels(l[1..], id, edit);
      assert forall x :: x in Reached(l, id) <==> x in ReachedIn(s, id) || x in Reached(l[1..], id);
      if hh.Some? && tt.Some? {
        var h, t := hh.value, tt.value;
        assert EditTwoLevels(l, id, edit).value == [h] + t;
        HeadTail(l);
        CollectConcat([h], t, IdOf);
        CollectConcat([s], l[1..], IdOf);
        CollectConcat([h], t, OwnKeys);
        CollectConcat([s], l[1..], OwnKeys);
        assert Reached([h] + t, id) == ReachedIn(h, id) + Reached(t, id);
        assert Grandchildren([h] + t) == MapSeq(Subs(h), Subs) + Grandchildren(t);
        MapSeqConcat(ReachedIn(s, id), Reached(l[1..], id), EditedBy(edit));
      }
    }
  }

  lemma {:induction false} OwnFieldIdsReached(l: seq<GbSection>, id: string)
    ensures l != [] ==> OwnFieldIds(Reached(l, id)) == OwnFieldIds(ReachedIn(l[0], id)) + OwnFieldIds(Reached(l[1..], id))
  {
    if l != [] {
      OwnFieldIdsConcat(ReachedIn(l[0], id), Reached(l[1..], id));
    }
  }

  /** The two-level map changes field ids only in the sections it reaches. */
  lemma {:induction false} EditTwoLevelsFields(l: seq<GbSection>, id: string, edit: seq<GbField> -> seq<GbField>)
    requires EditTwoLevels(l, id, edit).Some?
    ensures var r := EditTwoLevels(l, id, edit).value;
            multiset(FieldIds(r)) + multiset(OwnFieldIds(Reached(l, id)))
            == multiset(FieldIds(l)) + multiset(OwnFieldIds(Reached(r, id)))
  {
    if l != [] {
      var s, r := l[0], EditTwoLevels(l, id, edit).value;
      var h, t := EditTop(s, id, edit).value, EditTwoLevels(l[1..], id, edit).value;
      EditTwoLevelsFields(l[1..], id, edit);
      EditTopFields(s, id, edit);
      assert r == [h] + t && r[0] == h && r[1..] == t;
      HeadTail(l);
      CollectConcat([h], t, FieldIdsOf);
      CollectConcat([s], l[1..], FieldIdsOf);
      OwnFieldIdsReached(l, id);
      OwnFieldIdsReached(r, id);
      SumRel(multiset(FieldIds([h])), multiset(OwnFieldIds(ReachedIn(s, id))),
             multiset(FieldIds([s])), multiset(OwnFieldIds(ReachedIn(h, id))),
             multiset(FieldIds(t)), multiset(OwnFieldIds(Reached(l[1..], id))),
             multiset(FieldIds(l[1..])), multiset(OwnFieldIds(Reached(t, id))));
    }
  }
}
