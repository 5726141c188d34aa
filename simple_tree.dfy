/**
 * The section tree of the form builder in src/SimpleApp.tsx. A section holds
 * an ordered list of fields and an ordered list of child sections (the UI
 * calls nested sections "categories"). This module defines the data model and
 * the pre-order outline that lets the lemmas say which parts of a tree an edit
 * leaves alone. It also defines the recursive helpers that find, update and
 * remove sections by id.
 */
module SimpleTree {

  import opened Common
  import opened Text

  /** `interface Field`; the optional keys are Option values. */
  datatype Field = Field(
    id: Option<string>,
    name: string,
    description: Option<string>,
    dataType: string,
    length: string,
    required: bool,
    repeated: Option<bool>,
    defaultValue: Option<string>,
    dropdownOptions: Option<string>)

  /**
   * `interface Section` (the key `type` is `sectionType`). A missing
   * `children` key is the empty list: every helper treats the two alike.
   */
  datatype Section = Section(
    id: string,
    name: string,
    description: string,
    sectionType: string,
    disabled: Option<bool>,
    fields: seq<Field>,
    children: seq<Section>,
    parentId: Option<string>)

  /** The section with its child list emptied: the part of a node an outline entry records. */
  function Head(s: Section): Section {
    s.(children := [])
  }

  /** One line of an outline: a node without its children, and its depth. */
  datatype Entry = Entry(depth: nat, node: Section)

  /**
   * The outline of a forest whose roots sit at depth d: every node, in
   * pre-order, with its depth. Pre-order and depths together determine the
   * forest. So an equation between outlines states the whole effect of an
   * edit, including everything it leaves alone.
   */
  function Outline(l: seq<Section>, d: nat): seq<Entry>
  {
    if l == [] then [] else [Entry(d, Head(l[0]))] + Outline(l[0].children, d + 1) + Outline(l[1..], d)
  }

  /** Every section of the forest in pre-order, with its subtree. */
  function Flatten(l: seq<Section>): seq<Section>
  {
    if l == [] then [] else [l[0]] + Flatten(l[0].children) + Flatten(l[1..])
  }

  /** The ids of every section of the forest, in pre-order. */
  function AllIds(l: seq<Section>): seq<string>
  {
    if l == [] then [] else [l[0].id] + AllIds(l[0].children) + AllIds(l[1..])
  }

  /** Some section of the forest, at any depth, has this id. */
  predicate HasId(l: seq<Section>, id: string) {
    id in AllIds(l)
  }

  /** No two sections of the forest, at any depths, share an id. */
  predicate DistinctIds(l: seq<Section>) {
    NoDuplicates(AllIds(l))
  }

  function EntryIds(es: seq<Entry>): seq<string> {
    MapSeq(es, (e: Entry) => e.node.id)
  }

  /** The first element of a list with the id (`list.find(s => s.id === id)`). */
  function FirstWithId(xs: seq<Section>, id: string): (r: Option<Section>)
    ensures r.None? <==> forall k :: 0 <= k < |xs| ==> xs[k].id != id
    ensures r.Some? ==> exists k :: 0 <= k < |xs| && xs[k] == r.value && r.value.id == id
                                    && forall j :: 0 <= j < k ==> xs[j].id != id
  {
    if xs == [] then None
    else if xs[0].id == id then Some(xs[0])
    else
      var r := FirstWithId(xs[1..], id);
      if r.Some? then
        ghost var k :| 0 <= k < |xs[1..]| && xs[1..][k] == r.value && r.value.id == id
                        && forall j :: 0 <= j < k ==> xs[1..][j].id != id;
        assert xs[k + 1] == r.value;
        r
      else r
  }

  lemma {:induction false} OutlineConcat(a: seq<Section>, b: seq<Section>, d: nat)
    ensures Outline(a + b, d) == Outline(a, d) + Outline(b, d)
  {
    if a == [] {
      assert a + b == b;
    } else {
      assert (a + b)[0] == a[0] && (a + b)[1..] == a[1..] + b;
      OutlineConcat(a[1..], b, d);
    }
  }

  lemma {:induction false} AllIdsConcat(a: seq<Section>, b: seq<Section>)
    ensures AllIds(a + b) == AllIds(a) + AllIds(b)
  {
    if a == [] {
      assert a + b == b;
    } else {
      assert (a + b)[0] == a[0] && (a + b)[1..] == a[1..] + b;
      AllIdsConcat(a[1..], b);
    }
  }

  /** The ids listed by an outline are the ids of the forest, at any root depth. */
  lemma {:induction false} OutlineIds(l: seq<Section>, d: nat)
    ensures EntryIds(Outline(l, d)) == AllIds(l)
  {
    if l != [] {
      OutlineIds(l[0].children, d + 1);
      OutlineIds(l[1..], d);
      var f := (e: Entry) => e.node.id;
      MapSeqConcat([Entry(d, Head(l[0]))], Outline(l[0].children, d + 1), f);
      MapSeqConcat([Entry(d, Head(l[0]))] + Outline(l[0].children, d + 1), Outline(l[1..], d), f);
    }
  }

  /** The outline is the pre-order listing of every section's head. */
  lemma {:induction false} OutlineIsFlatten(l: seq<Section>, d: nat)
    ensures |Outline(l, d)| == |Flatten(l)|
    ensures forall k :: 0 <= k < |Flatten(l)| ==> Outline(l, d)[k].node == Head(Flatten(l)[k])
  {
    if l != [] {
      OutlineIsFlatten(l[0].children, d + 1);
      OutlineIsFlatten(l[1..], d);
      var o1, o2 := Outline(l[0].children, d + 1), Outline(l[1..], d);
      var f1, f2 := Flatten(l[0].children), Flatten(l[1..]);
      forall k | 0 <= k < |Flatten(l)| ensures Outline(l, d)[k].node == Head(Flatten(l)[k]) {
        if k == 0 {
        } else if k < 1 + |f1| {
          assert Outline(l, d)[k] == o1[k - 1] && Flatten(l)[k] == f1[k - 1];
        } else {
          assert Outline(l, d)[k] == o2[k - 1 - |f1|] && Flatten(l)[k] == f2[k - 1 - |f1|];
        }
      }
    }
  }

  /** The parts of a forest's id list: the first root, its descendants, the other roots' trees. */
  lemma {:induction false} DistinctParts(l: seq<Section>)
    requires l != [] && DistinctIds(l)
    ensures DistinctIds(l[0].children) && DistinctIds(l[1..])
    ensures l[0].id !in AllIds(l[0].children) && l[0].id !in AllIds(l[1..])
    ensures forall x :: x in AllIds(l[0].children) ==> x !in AllIds(l[1..])
  {
    NoDuplicatesConcat([l[0].id] + AllIds(l[0].children), AllIds(l[1..]));
    NoDuplicatesConcat([l[0].id], AllIds(l[0].children));
  }

  /**
   * `findSectionById` (and `findSection`, `findSectionRecursive`): depth-first
   * search, a section before its children, children before later siblings.
   */
  function FindById(l: seq<Section>, id: string): Option<Section>
  {
    if l == [] then None
    else if l[0].id == id then Some(l[0])
    else
      var inner := if |l[0].children| > 0 then FindById(l[0].children, id) else None;
      if inner.Some? then inner else FindById(l[1..], id)
  }

  /** FindById returns the first section with the id in the pre-order listing, at any depth. */
  lemma {:induction false} FindByIdIsFirstInPreorder(l: seq<Section>, id: string)
    ensures FindById(l, id) == FirstWithId(Flatten(l), id)
  {
    if l != [] {
      FindByIdIsFirstInPreorder(l[0].children, id);
      FindByIdIsFirstInPreorder(l[1..], id);
      FirstWithIdConcat([l[0]] + Flatten(l[0].children), Flatten(l[1..]), id);
      FirstWithIdConcat([l[0]], Flatten(l[0].children), id);
    }
  }

  lemma {:induction false} FirstWithIdConcat(a: seq<Section>, b: seq<Section>, id: string)
    ensures FirstWithId(a + b, id) == if FirstWithId(a, id).Some? then FirstWithId(a, id) else FirstWithId(b, id)
  {
    if a == [] {
      assert a + b == b;
    } else {
      assert (a + b)[0] == a[0] && (a + b)[1..] == a[1..] + b;
      FirstWithIdConcat(a[1..], b, id);
    }
  }

  /** FindById finds a section exactly when the id occurs, and what it finds carries the id. */
  lemma {:induction false} FindByIdFinds(l: seq<Section>, id: string)
    ensures FindById(l, id).Some? <==> HasId(l, id)
    ensures FindById(l, id).Some? ==> FindById(l, id).value.id == id
  {
    if l != [] {
      FindByIdFinds(l[0].children, id);
      FindByIdFinds(l[1..], id);
    }
  }

  /**
   * The shape shared by `addCategoryToSection`, `updateSectionName`, the
   * field-adding, field-editing and field-deleting mappers and
   * `addSectionAsChild`: map over the list, replace a section with the id by
   * f of it, and otherwise recurse into its children. A section that matches
   * is not searched further. (The source guards the recursion with either
   * `children.length > 0` or plain `children`; on an empty child list both
   * give the same result.)
   */
  function UpdateWhere(l: seq<Section>, id: string, f: Section -> Section): (r: seq<Section>)
    ensures |r| == |l|
  {
    if l == [] then []
    else
      var s := l[0];
      var s' := if s.id == id then f(s) else s.(children := UpdateWhere(s.children, id, f));
      [s'] + UpdateWhere(l[1..], id, f)
  }

  /** Where no section has the id, the update changes nothing. */
  lemma {:induction false} UpdateWhereNoMatch(l: seq<Section>, id: string, f: Section -> Section)
    requires !HasId(l, id)
    ensures UpdateWhere(l, id, f) == l
  {
    if l != [] {
      UpdateWhereNoMatch(l[0].children, id, f);
      UpdateWhereNoMatch(l[1..], id, f);
    }
  }

  /** The outline of a non-empty forest: its first root, that root's subtree, then the other roots. */
  lemma {:induction false} OutlineCons(l: seq<Section>, d: nat)
    requires l != []
    ensures Outline(l, d) == Outline([l[0]], d) + Outline(l[1..], d)
    ensures Outline([l[0]], d) == [Entry(d, Head(l[0]))] + Outline(l[0].children, d + 1)
  {
  }

  /** The update, unfolded once on a non-empty forest. */
  lemma {:induction false} UpdateWhereCons(l: seq<Section>, id: string, f: Section -> Section)
    requires l != []
    ensures UpdateWhere(l, id, f)[0] == if l[0].id == id then f(l[0]) else l[0].(children := UpdateWhere(l[0].children, id, f))
    ensures UpdateWhere(l, id, f)[1..] == UpdateWhere(l[1..], id, f)
  {
  }

  /** Outline equations of the update when the first root has the id. */
  lemma {:induction false} UpdateAtFirst(l: seq<Section>, id: string, f: Section -> Section, d0: nat)
    requires l != [] && l[0].id == id && !HasId(l[1..], id)
    ensures Outline(l, d0) == [] + Outline([l[0]], d0) + Outline(l[1..], d0)
    ensures Outline(UpdateWhere(l, id, f), d0) == [] + Outline([f(l[0])], d0) + Outline(l[1..], d0)
  {
    var r := UpdateWhere(l, id, f);
    UpdateWhereCons(l, id, f);
    UpdateWhereNoMatch(l[1..], id, f);
    OutlineCons(r, d0);
    OutlineCons(l, d0);
  }

  /** Outline equations of the update when the id sits below the first root. */
  lemma {:induction false} UpdateBelowFirst(l: seq<Section>, id: string, f: Section -> Section, d0: nat,
                         b: seq<Entry>, d: nat, s: Section, a: seq<Entry>)
    requires l != [] && l[0].id != id && !HasId(l[1..], id)
    requires Outline(l[0].children, d0 + 1) == b + Outline([s], d) + a
    requires Outline(UpdateWhere(l[0].children, id, f), d0 + 1) == b + Outline([f(s)], d) + a
    ensures Outline(l, d0) == ([Entry(d0, Head(l[0]))] + b) + Outline([s], d) + (a + Outline(l[1..], d0))
    ensures Outline(UpdateWhere(l, id, f), d0)
            == ([Entry(d0, Head(l[0]))] + b) + Outline([f(s)], d) + (a + Outline(l[1..], d0))
  {
    var r := UpdateWhere(l, id, f);
    UpdateWhereCons(l, id, f);
    UpdateWhereNoMatch(l[1..], id, f);
    OutlineCons(r, d0);
    OutlineCons(l, d0);
    var e := [Entry(d0, Head(l[0]))];
    assert Head(r[0]) == Head(l[0]) && r[0].children == UpdateWhere(l[0].children, id, f) && r[1..] == l[1..];
    assert Outline(l, d0) == e + Outline(l[0].children, d0 + 1) + Outline(l[1..], d0);
    assert Outline(r, d0) == e + Outline(r[0].children, d0 + 1) + Outline(l[1..], d0);
    RegroupAround(e, b, Outline([s], d), a, Outline(l[1..], d0));
    RegroupAround(e, b, Outline([f(s)], d), a, Outline(l[1..], d0));
  }

  /** Outline equations of the update when the id sits in a later root's tree. */
  lemma {:induction false} UpdateAfterFirst(l: seq<Section>, id: string, f: Section -> Section, d0: nat,
                         b: seq<Entry>, d: nat, s: Section, a: seq<Entry>)
    requires l != [] && l[0].id != id && !HasId(l[0].children, id)
    requires Outline(l[1..], d0) == b + Outline([s], d) + a
    requires Outline(UpdateWhere(l[1..], id, f), d0) == b + Outline([f(s)], d) + a
    ensures Outline(l, d0) == (Outline([l[0]], d0) + b) + Outline([s], d) + a
    ensures Outline(UpdateWhere(l, id, f), d0) == (Outline([l[0]], d0) + b) + Outline([f(s)], d) + a
  {
    var r := UpdateWhere(l, id, f);
    UpdateWhereCons(l, id, f);
    UpdateWhereNoMatch(l[0].children, id, f);
    OutlineCons(r, d0);
    OutlineCons(l, d0);
    assert r[0] == l[0] && r[1..] == UpdateWhere(l[1..], id, f);
    assert Outline(r, d0) == Outline([l[0]], d0) + Outline(r[1..], d0);
    RegroupAround(Outline([l[0]], d0), b, Outline([s], d), a, []);
    RegroupAround(Outline([l[0]], d0), b, Outline([f(s)], d), a, []);
  }

  /**
   * With distinct ids, the update replaces the one section s with the id by
   * f(s), wherever it sits in the tree. Everything before it, at its depth,
   * and after it in the outline stays the same. The section replaced is the
   * one FindById reports.
   */
  lemma {:induction false} UpdateWhereSplit(l: seq<Section>, id: string, f: Section -> Section, d0: nat)
    returns (before: seq<Entry>, d: nat, s: Section, after: seq<Entry>)
    requires DistinctIds(l) && HasId(l, id)
    ensures s.id == id && FindById(l, id) == Some(s)
    ensures Outline(l, d0) == before + Outline([s], d) + after
    ensures Outline(UpdateWhere(l, id, f), d0) == before + Outline([f(s)], d) + after
  {
    DistinctParts(l);
    if l[0].id == id {
      UpdateAtFirst(l, id, f, d0);
      before, d, s, after := [], d0, l[0], Outline(l[1..], d0);
    } else if HasId(l[0].children, id) {
      var b, a;
      b, d, s, a := UpdateWhereSplit(l[0].children, id, f, d0 + 1);
      UpdateBelowFirst(l, id, f, d0, b, d, s, a);
      before, after := [Entry(d0, Head(l[0]))] + b, a + Outline(l[1..], d0);
      FindByIdFinds(l[0].children, id);
    } else {
      var b;
      b, d, s, after := UpdateWhereSplit(l[1..], id, f, d0);
      UpdateAfterFirst(l, id, f, d0, b, d, s, after);
      before := Outline([l[0]], d0) + b;
      FindByIdFinds(l[0].children, id);
    }
  }

  /**
   * Special case of UpdateWhereSplit for an f that keeps a section's id and
   * children and edits only its own data (its name or its fields). Then
   * exactly one outline entry changes: the entry of the section with the id
   * gets f applied to it. The ids, and so their distinctness, are unchanged.
   */
  lemma {:induction false} UpdateWhereEntry(l: seq<Section>, id: string, f: Section -> Section) returns (k: nat)
    requires DistinctIds(l) && HasId(l, id)
    requires forall x :: f(x).id == x.id && f(x).children == x.children && Head(f(x)) == f(Head(x))
    ensures k < |Outline(l, 0)| && Outline(l, 0)[k].node.id == id
    ensures Outline(UpdateWhere(l, id, f), 0)
            == Outline(l, 0)[k := Entry(Outline(l, 0)[k].depth, f(Outline(l, 0)[k].node))]
    ensures AllIds(UpdateWhere(l, id, f)) == AllIds(l)
    ensures FindById(l, id).Some? && Head(FindById(l, id).value) == Outline(l, 0)[k].node
  {
    var before, d, s, after := UpdateWhereSplit(l, id, f, 0);
    k := |before|;
    assert f(s).children == s.children && Head(f(s)) == f(Head(s)) && f(Head(s)).id == s.id;
    SwapOneTree(Outline(l, 0), Outline(UpdateWhere(l, id, f), 0), before, d, s, f(s), after);
    SameIdsAfterEntryUpdate(l, UpdateWhere(l, id, f), k, Entry(d, f(Head(s))));
  }

  /** Two outlines that differ in one tree whose root keeps its children differ in one entry. */
  lemma {:induction false} SwapOneTree(ol: seq<Entry>, or: seq<Entry>, before: seq<Entry>, d: nat, s: Section, t: Section, after: seq<Entry>)
    requires ol == before + Outline([s], d) + after
    requires or == before + Outline([t], d) + after
    requires t.children == s.children
    ensures |before| < |ol| && ol[|before|] == Entry(d, Head(s))
    ensures or == ol[|before| := Entry(d, Head(t))]
  {
    var m := Outline(s.children, d + 1);
    OutlineCons([s], d);
    OutlineCons([t], d);
    assert ol == before + [Entry(d, Head(s))] + (m + after);
    assert or == before + [Entry(d, Head(t))] + (m + after);
    ReplaceMiddle(before, Entry(d, Head(s)), Entry(d, Head(t)), m + after);
  }

  /** A forest whose outline differs from another's in one entry with the same id has the same ids. */
  lemma {:induction false} SameIdsAfterEntryUpdate(l: seq<Section>, r: seq<Section>, k: nat, e: Entry)
    requires k < |Outline(l, 0)| && e.node.id == Outline(l, 0)[k].node.id
    requires Outline(r, 0) == Outline(l, 0)[k := e]
    ensures AllIds(r) == AllIds(l)
  {
    OutlineIds(l, 0);
    OutlineIds(r, 0);
    MapSeqUpdate(Outline(l, 0), k, e, (x: Entry) => x.node.id);
  }

  /** The index in an outline of the one entry with a given id, when ids are distinct. */
  lemma {:induction false} EntryIndexUnique(l: seq<Section>, i: nat, j: nat)
    requires DistinctIds(l)
    requires i < |Outline(l, 0)| && j < |Outline(l, 0)|
    requires Outline(l, 0)[i].node.id == Outline(l, 0)[j].node.id
    ensures i == j
  {
    OutlineIds(l, 0);
    assert EntryIds(Outline(l, 0))[i] == EntryIds(Outline(l, 0))[j];
  }

  /** Result of `findAndRemoveSection`. */
  datatype Removal = Removal(rest: seq<Section>, removed: Option<Section>)

  /**
   * `findAndRemoveSection`: a reduce that drops every section with the id, at
   * any depth (a dropped section takes its subtree with it); `removedSection`
   * is overwritten at every hit, so it is the last section with the id in
   * pre-order.
   */
  function RemoveSection(l: seq<Section>, id: string): Removal
  {
    if l == [] then Removal([], None)
    else
      var s := l[0];
      var later := RemoveSection(l[1..], id);
      if s.id == id then
        Removal(later.rest, if later.removed.Some? then later.removed else Some(s))
      else
        var inner := RemoveSection(s.children, id);
        Removal([s.(children := inner.rest)] + later.rest,
                if later.removed.Some? then later.removed else inner.removed)
  }

  /** Without a match nothing is removed. */
  lemma {:induction false} RemoveNoMatch(l: seq<Section>, id: string)
    requires !HasId(l, id)
    ensures RemoveSection(l, id) == Removal(l, None)
  {
    if l != [] {
      RemoveNoMatch(l[0].children, id);
      RemoveNoMatch(l[1..], id);
    }
  }

  /**
   * After the removal no section with the id is left anywhere, the rest has no
   * other ids than before, and a section is reported exactly when the id
   * occurred, carrying that id.
   */
  lemma {:induction false} RemoveSectionRemovesAll(l: seq<Section>, id: string)
    ensures !HasId(RemoveSection(l, id).rest, id)
    ensures forall x :: x in AllIds(RemoveSection(l, id).rest) ==> x in AllIds(l)
    ensures RemoveSection(l, id).removed.Some? <==> HasId(l, id)
    ensures RemoveSection(l, id).removed.Some? ==> RemoveSection(l, id).removed.value.id == id
  {
    if l != [] {
      RemoveSectionRemovesAll(l[0].children, id);
      RemoveSectionRemovesAll(l[1..], id);
      var s := l[0];
      if s.id != id {
        var inner := RemoveSection(s.children, id);
        var later := RemoveSection(l[1..], id);
        AllIdsConcat([s.(children := inner.rest)], later.rest);
      }
    }
  }

  /**
   * With distinct ids, removal cuts out exactly the subtree of the one section
   * with the id: its outline lines disappear and nothing else changes. The
   * section reported is that section, the one FindById finds.
   */
  lemma {:induction false} RemoveAtFirst(l: seq<Section>, id: string, d0: nat)
    requires l != [] && l[0].id == id && !HasId(l[1..], id)
    ensures RemoveSection(l, id) == Removal(l[1..], Some(l[0]))
    ensures Outline(l, d0) == [] + Outline([l[0]], d0) + Outline(l[1..], d0)
  {
    RemoveNoMatch(l[1..], id);
    OutlineCons(l, d0);
  }

  lemma {:induction false} RemoveBelowFirst(l: seq<Section>, id: string, d0: nat, b: seq<Entry>, d: nat, x: Section, a: seq<Entry>)
    requires l != [] && l[0].id != id && !HasId(l[1..], id)
    requires Outline(l[0].children, d0 + 1) == b + Outline([x], d) + a
    requires Outline(RemoveSection(l[0].children, id).rest, d0 + 1) == b + a
    ensures RemoveSection(l, id).removed == RemoveSection(l[0].children, id).removed
    ensures Outline(l, d0) == ([Entry(d0, Head(l[0]))] + b) + Outline([x], d) + (a + Outline(l[1..], d0))
    ensures Outline(RemoveSection(l, id).rest, d0) == ([Entry(d0, Head(l[0]))] + b) + (a + Outline(l[1..], d0))
  {
    RemoveNoMatch(l[1..], id);
    var inner := RemoveSection(l[0].children, id);
    var s1 := l[0].(children := inner.rest);
    var e := [Entry(d0, Head(l[0]))];
    assert RemoveSection(l, id).rest == [s1] + l[1..];
    OutlineCons(l, d0);
    OutlineCons([s1] + l[1..], d0);
    assert ([s1] + l[1..])[0] == s1 && ([s1] + l[1..])[1..] == l[1..];
    assert Head(s1) == Head(l[0]);
    assert Outline(l, d0) == e + Outline(l[0].children, d0 + 1) + Outline(l[1..], d0);
    assert Outline([s1] + l[1..], d0) == e + Outline(inner.rest, d0 + 1) + Outline(l[1..], d0);
    RegroupAround(e, b, Outline([x], d), a, Outline(l[1..], d0));
    RegroupPair(e, b, a, Outline(l[1..], d0));
  }

  lemma {:induction false} RemoveAfterFirst(l: seq<Section>, id: string, d0: nat, b: seq<Entry>, d: nat, x: Section, a: seq<Entry>)
    requires l != [] && l[0].id != id && !HasId(l[0].children, id)
    requires Outline(l[1..], d0) == b + Outline([x], d) + a
    requires Outline(RemoveSection(l[1..], id).rest, d0) == b + a
    ensures RemoveSection(l, id).removed == RemoveSection(l[1..], id).removed
    ensures Outline(l, d0) == (Outline([l[0]], d0) + b) + Outline([x], d) + a
    ensures Outline(RemoveSection(l, id).rest, d0) == (Outline([l[0]], d0) + b) + a
  {
    RemoveNoMatch(l[0].children, id);
    var later := RemoveSection(l[1..], id);
    assert l[0].(children := l[0].children) == l[0];
    assert RemoveSection(l, id).rest == [l[0]] + later.rest;
    OutlineCons(l, d0);
    OutlineCons([l[0]] + later.rest, d0);
    assert ([l[0]] + later.rest)[0] == l[0] && ([l[0]] + later.rest)[1..] == later.rest;
    RegroupAround(Outline([l[0]], d0), b, Outline([x], d), a, []);
    RegroupPair(Outline([l[0]], d0), b, a, []);
  }

  lemma {:induction false} RemoveSectionSplit(l: seq<Section>, id: string, d0: nat)
    returns (before: seq<Entry>, d: nat, after: seq<Entry>)
    requires DistinctIds(l) && HasId(l, id)
    ensures RemoveSection(l, id).removed.Some?
    ensures RemoveSection(l, id).removed == FindById(l, id)
    ensures Outline(l, d0) == before + Outline([RemoveSection(l, id).removed.value], d) + after
    ensures Outline(RemoveSection(l, id).rest, d0) == before + after
  {
    DistinctParts(l);
    if l[0].id == id {
      RemoveAtFirst(l, id, d0);
      before, d, after := [], d0, Outline(l[1..], d0);
    } else if HasId(l[0].children, id) {
      var b, a;
      b, d, a := RemoveSectionSplit(l[0].children, id, d0 + 1);
      RemoveBelowFirst(l, id, d0, b, d, RemoveSection(l[0].children, id).removed.value, a);
      before, after := [Entry(d0, Head(l[0]))] + b, a + Outline(l[1..], d0);
      FindByIdFinds(l[0].children, id);
    } else {
      var b;
      b, d, after := RemoveSectionSplit(l[1..], id, d0);
      RemoveAfterFirst(l, id, d0, b, d, RemoveSection(l[1..], id).removed.value, after);
      before := Outline([l[0]], d0) + b;
      FindByIdFinds(l[0].children, id);
    }
  }

  /** The section is found at some depth, or not found (`{ section, parent }`). */
  datatype Located = Located(section: Option<Section>, parent: Option<Section>)

  /**
   * `findSectionWithParent` as written. A direct hit reports the section named
   * by `parentId` among the current list. A hit found by recursion is
   * reported with the section the loop is visiting as parent, and every outer
   * frame overwrites it again. So from the root the "parent" ends up as the
   * top-level ancestor, or none for a top-level section.
   */
  function FindWithParent(l: seq<Section>, id: string, parentId: Option<string>): Located
  {
    if l == [] then Located(None, None)
    else if l[0].id == id then
      Located(Some(l[0]), if Truthy(parentId) then FirstWithId(l, parentId.value) else None)
    else
      var found := if |l[0].children| > 0 then FindWithParent(l[0].children, id, Some(l[0].id)) else Located(None, None);
      if found.section.Some? then Located(found.section, Some(l[0]))
      else FindWithParent(l[1..], id, parentId)
  }

  /** The subtree rooted at s contains a section with the id. */
  predicate InTree(s: Section, id: string) {
    s.id == id || HasId(s.children, id)
  }

  lemma {:induction false} FindWithParentSection(l: seq<Section>, id: string, p: Option<string>)
    ensures FindWithParent(l, id, p).section == FindById(l, id)
  {
    if l != [] {
      FindWithParentSection(l[0].children, id, Some(l[0].id));
      FindWithParentSection(l[1..], id, p);
    }
  }

  /**
   * Called from the root, `findSectionWithParent` finds what FindById finds.
   * Let i be the first root whose subtree holds the id. If that root has the
   * id itself, the result has no parent. Otherwise the parent is that root,
   * its top-level ancestor, however deep the section sits.
   */
  lemma {:induction false} FindWithParentIsTopAncestor(l: seq<Section>, id: string) returns (i: nat)
    requires HasId(l, id)
    ensures i < |l| && InTree(l[i], id) && forall j :: 0 <= j < i ==> !InTree(l[j], id)
    ensures FindWithParent(l, id, None).section == FindById(l, id)
    ensures l[i].id == id ==> FindWithParent(l, id, None) == Located(Some(l[i]), None)
    ensures l[i].id != id ==> FindWithParent(l, id, None) == Located(FindById(l[i].children, id), Some(l[i]))
  {
    FindWithParentSection(l, id, None);
    if InTree(l[0], id) {
      i := 0;
      if l[0].id != id {
        FindWithParentSection(l[0].children, id, Some(l[0].id));
        FindByIdFinds(l[0].children, id);
      }
    } else {
      var i' := FindWithParentIsTopAncestor(l[1..], id);
      i := i' + 1;
      FindWithParentSection(l[0].children, id, Some(l[0].id));
      FindByIdFinds(l[0].children, id);
      forall j | 0 <= j < i ensures !InTree(l[j], id) {
        if j > 0 {
          assert l[j] == l[1..][j - 1];
        }
      }
    }
  }

  /** `s.parentId` truthy? `generateStandardJson` exports only sections without it. */
  predicate IsRoot(s: Section) {
    !Truthy(s.parentId)
  }

  /** Every entry of an outline sits at the root depth or deeper, and the first one at the root depth. */
  lemma {:induction false} OutlineDepths(l: seq<Section>, d: nat)
    ensures forall k :: 0 <= k < |Outline(l, d)| ==> Outline(l, d)[k].depth >= d
    ensures Outline(l, d) != [] ==> Outline(l, d)[0].depth == d && l != []
  {
    if l != [] {
      OutlineDepths(l[0].children, d + 1);
      OutlineDepths(l[1..], d);
      var o1, o2 := Outline(l[0].children, d + 1), Outline(l[1..], d);
      var o := Outline(l, d);
      assert o == [Entry(d, Head(l[0]))] + o1 + o2;
      forall k | 0 <= k < |o| ensures o[k].depth >= d {
        if k == 0 {
        } else if k < 1 + |o1| {
          assert o[k] == o1[k - 1];
        } else {
          assert o[k] == o2[k - 1 - |o1|];
        }
      }
    }
  }

  /** The length of the longest prefix of entries deeper than d. */
  function LeadDeeper(s: seq<Entry>, d: nat): nat {
    if s != [] && s[0].depth > d then 1 + LeadDeeper(s[1..], d) else 0
  }

  lemma {:induction false} LeadDeeperConcat(p: seq<Entry>, q: seq<Entry>, d: nat)
    requires forall k :: 0 <= k < |p| ==> p[k].depth > d
    requires q != [] ==> q[0].depth <= d
    ensures LeadDeeper(p + q, d) == |p|
  {
    if p == [] {
      assert p + q == q;
    } else {
      assert (p + q)[0] == p[0] && (p + q)[1..] == p[1..] + q;
      LeadDeeperConcat(p[1..], q, d);
    }
  }

  /** Cutting two equal concatenations after their leading deeper parts gives equal parts. */
  lemma {:induction false} SplitAfterDeeper(pa: seq<Entry>, qa: seq<Entry>, pb: seq<Entry>, qb: seq<Entry>, d: nat)
    requires forall k :: 0 <= k < |pa| ==> pa[k].depth > d
    requires forall k :: 0 <= k < |pb| ==> pb[k].depth > d
    requires (qa != [] ==> qa[0].depth <= d) && (qb != [] ==> qb[0].depth <= d)
    requires pa + qa == pb + qb
    ensures pa == pb && qa == qb
  {
    LeadDeeperConcat(pa, qa, d);
    LeadDeeperConcat(pb, qb, d);
    var c := pa + qa;
    assert pa == c[..|pa|] && qa == c[|pa|..];
    assert pb == c[..|pb|] && qb == c[|pb|..];
  }

  /** Equal outlines of two non-empty forests: equal first heads, child outlines and tail outlines. */
  lemma {:induction false} OutlineUnfold(l: seq<Section>, d: nat)
    requires l != []
    ensures Outline(l, d) == [Entry(d, Head(l[0]))] + (Outline(l[0].children, d + 1) + Outline(l[1..], d))
  {
  }

  lemma {:induction false} SplitEqualOutlines(a: seq<Section>, b: seq<Section>, d: nat)
    requires a != [] && b != [] && Outline(a, d) == Outline(b, d)
    ensures Head(a[0]) == Head(b[0])
    ensures Outline(a[0].children, d + 1) == Outline(b[0].children, d + 1)
    ensures Outline(a[1..], d) == Outline(b[1..], d)
  {
    var pa, qa := Outline(a[0].children, d + 1), Outline(a[1..], d);
    var pb, qb := Outline(b[0].children, d + 1), Outline(b[1..], d);
    assert Entry(d, Head(a[0])) == Entry(d, Head(b[0])) && pa + qa == pb + qb by {
      OutlineUnfold(a, d);
      OutlineUnfold(b, d);
      ConsEqual(Entry(d, Head(a[0])), pa + qa, Entry(d, Head(b[0])), pb + qb);
    }
    assert forall k :: 0 <= k < |pa| ==> pa[k].depth > d by {
      OutlineDepths(a[0].children, d + 1);
    }
    assert forall k :: 0 <= k < |pb| ==> pb[k].depth > d by {
      OutlineDepths(b[0].children, d + 1);
    }
    assert qa != [] ==> qa[0].depth <= d by {
      OutlineDepths(a[1..], d);
    }
    assert qb != [] ==> qb[0].depth <= d by {
      OutlineDepths(b[1..], d);
    }
    SplitAfterDeeper(pa, qa, pb, qb, d);
  }

  lemma {:induction false} OutlineInjective(a: seq<Section>, b: seq<Section>, d: nat)
    requires Outline(a, d) == Outline(b, d)
    ensures a == b
  {
    OutlineDepths(a, d);
    OutlineDepths(b, d);
    if a != [] && b != [] {
      SplitEqualOutlines(a, b, d);
      OutlineInjective(a[0].children, b[0].children, d + 1);
      OutlineInjective(a[1..], b[1..], d);
      assert a[0] == Head(a[0]).(children := a[0].children);
      assert b[0] == Head(b[0]).(children := b[0].children);
      assert a == [a[0]] + a[1..] && b == [b[0]] + b[1..];
    }
  }

  /** Two forests with the same outline at the same depth are equal: the outline loses nothing. */
  lemma {:induction false} OutlineDeterminesForest(a: seq<Section>, b: seq<Section>)
    requires Outline(a, 0) == Outline(b, 0)
    ensures a == b
  {
    OutlineInjective(a, b, 0);
  }
}
