/**
 * The "standard" export of the simple builder (`generateStandardJson`):
 * only the sections without a `parentId` seed the output. Each becomes a
 * `{SectionName, Section, ListFields}` node, whose `Section` holds its
 * children, exported recursively in order, and whose `ListFields` hold its
 * fields, one entry each, in order. The JSON text is not modelled: the
 * output is the tree of values that `JSON.stringify` would print.
 */
module SimpleExport {

  import opened Common
  import opened Text
  import opened SimpleTree
  import opened SimpleEdit

  /**
   * One `ListFields` entry. `description` stays optional, because
   * `JSON.stringify` leaves out a key whose value is undefined.
   */
  datatype StandardField = StandardField(
    fieldName: string,
    fieldType: string,
    required: bool,
    description: Option<string>,
    defaultValue: string,
    literals: seq<string>)

  datatype StandardSection = StandardSection(
    sectionName: string,
    section: seq<StandardSection>,
    listFields: seq<StandardField>)

  /**
   * `Literals`: a truthy `dropdownOptions` is split at every comma and each
   * piece trimmed. Absent or empty options give no literals.
   */
  function Literals(options: Option<string>): (r: seq<string>)
    ensures r == [] <==> !Truthy(options)
    ensures Truthy(options) ==> |r| == |Split(options.value, ',')|
  {
    if Truthy(options) then MapSeq(Split(options.value, ','), Trim) else []
  }

  /** The `ListFields` entry of one field. */
  function StandardFieldOf(f: Field): StandardField {
    StandardField(f.name, "string", f.required, f.description, f.defaultValue.GetOr(""), Literals(f.dropdownOptions))
  }

  /** `mapSection`. */
  function StandardSectionOf(s: Section): StandardSection
    decreases s, 1
  {
    StandardSection(s.name, StandardSections(s.children), MapSeq(s.fields, StandardFieldOf))
  }

  /** `children.map(mapSection)`. */
  function StandardSections(l: seq<Section>): (r: seq<StandardSection>)
    decreases l, 0
    ensures |r| == |l|
  {
    if l == [] then [] else [StandardSectionOf(l[0])] + StandardSections(l[1..])
  }

  /** `generateStandardJson`, before the text is produced: the sections without a truthy `parentId`, exported. */
  function GenerateStandard(l: seq<Section>): seq<StandardSection> {
    StandardSections(Filter(l, IsRoot))
  }

  /**
   * Whatever the field's data type, its entry says "string". Name,
   * `required` and description are copied. A missing default becomes "".
   * There are no literals exactly when the options are absent or empty.
   */
  lemma {:induction false} StandardFieldFacts(f: Field)
    ensures var e := StandardFieldOf(f);
            e.fieldName == f.name && e.fieldType == "string" && e.required == f.required
            && e.description == f.description
            && (f.defaultValue.None? ==> e.defaultValue == "")
            && (f.defaultValue.Some? ==> e.defaultValue == f.defaultValue.value)
            && (e.literals == [] <==> !Truthy(f.dropdownOptions))
  {
  }

  /**
   * Options written as comma-separated values, each without commas and
   * with no space at either end, come back as exactly those values.
   */
  lemma {:induction false} LiteralsRoundTrip(parts: seq<string>)
    requires |parts| >= 1 && parts != [""]
    requires forall k :: 0 <= k < |parts| ==> ',' !in parts[k]
    requires forall k :: 0 <= k < |parts| ==> parts[k] != [] ==> !IsSpace(parts[k][0]) && !IsSpace(parts[k][|parts[k]| - 1])
    ensures Literals(Some(Join(parts, ','))) == parts
  {
    var joined := Join(parts, ',');
    assert joined != [] by {
      if |parts| > 1 {
        assert joined[|parts[0]|] == ',';
      }
    }
    assert Split(joined, ',') == parts by {
      SplitJoin(parts, ',');
    }
    var r := Literals(Some(joined));
    forall k | 0 <= k < |parts| ensures r[k] == parts[k] {
      TrimUnpadded(parts[k]);
    }
  }

  /** The section names of an export, in pre-order. */
  function ExportedNames(r: seq<StandardSection>): seq<string> {
    if r == [] then [] else [r[0].sectionName] + ExportedNames(r[0].section) + ExportedNames(r[1..])
  }

  /** The number of `ListFields` entries in an export, at every depth. */
  function ExportedFieldCount(r: seq<StandardSection>): nat {
    if r == [] then 0 else |r[0].listFields| + ExportedFieldCount(r[0].section) + ExportedFieldCount(r[1..])
  }

  /**
   * Below the seeds nothing is lost, reordered or invented. The export's
   * names in pre-order are the names of the exported sections' trees in
   * pre-order, and every field anywhere in those trees gets its entry.
   */
  lemma {:induction false} StandardSectionsPreserveTree(l: seq<Section>)
    ensures ExportedNames(StandardSections(l)) == MapSeq(Flatten(l), (s: Section) => s.name)
    ensures ExportedFieldCount(StandardSections(l)) == FieldCount(l)
  {
    if l != [] {
      StandardSectionsPreserveTree(l[0].children);
      StandardSectionsPreserveTree(l[1..]);
      var r := StandardSections(l);
      assert r[0] == StandardSectionOf(l[0]) && r[1..] == StandardSections(l[1..]);
      var f := (s: Section) => s.name;
      MapSeqConcat([l[0]] + Flatten(l[0].children), Flatten(l[1..]), f);
      MapSeqConcat([l[0]], Flatten(l[0].children), f);
    }
  }

  /**
   * The export seeds exactly the roots: one node per section without a
   * truthy `parentId`, in order, carrying that section's name.
   */
  lemma {:induction false} GenerateStandardSeeds(l: seq<Section>)
    ensures |GenerateStandard(l)| == Count(l, IsRoot)
    ensures MapSeq(GenerateStandard(l), (e: StandardSection) => e.sectionName)
            == MapSeq(Filter(l, IsRoot), (s: Section) => s.name)
    ensures ExportedFieldCount(GenerateStandard(l)) == FieldCount(Filter(l, IsRoot))
  {
    FilterIsOrderedSelection(l, IsRoot);
    StandardSectionsPreserveTree(Filter(l, IsRoot));
    var roots := Filter(l, IsRoot);
    assert forall k :: 0 <= k < |roots| ==> GenerateStandard(l)[k] == StandardSectionOf(roots[k]) by {
      SeedsInOrder(roots);
    }
  }

  lemma {:induction false} SeedsInOrder(l: seq<Section>)
    ensures forall k :: 0 <= k < |l| ==> StandardSections(l)[k] == StandardSectionOf(l[k])
  {
    if l != [] {
      SeedsInOrder(l[1..]);
    }
  }

  /** A forest whose roots all have a `parentId` exports nothing. */
  lemma {:induction false} GenerateStandardNoRoots(l: seq<Section>)
    requires forall k :: 0 <= k < |l| ==> Truthy(l[k].parentId)
    ensures GenerateStandard(l) == []
  {
    FilterNoneKept(l, IsRoot);
  }
}
